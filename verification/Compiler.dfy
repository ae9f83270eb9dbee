/** scheme/compiler/compiler.scm. */
module Compiler {
  import opened Wrappers
  import opened Syntax
  import opened Values
  import opened Machine
  import opened CodeSpec

  /**
   The record of a procedure being compiled. The lists `bindings` and `bindmap` grow at the end here; the compiler
   conses them and reverses them when the procedure is finished.
   */
  datatype Scoped = Scoped(names: seq<Name>, rest: bool, depth: nat, onheap: bool, bindings: seq<(nat, nat)>, bindmap: seq<nat>)

  /** `consts` and `code-store`. */
  datatype Store = Store(consts: seq<Datum>, funcs: seq<Procedure>)

  /** The code of an expression, and the mutable state after it was compiled. */
  datatype Out = Out(code: seq<Instr>, envs: seq<Scoped>, st: Store)

  datatype Place = Local(slot: nat) | Bound(binding: nat) | Static(index: nat)

  /** The first position of `x`, or the end. */
  function IndexOf<T(==)>(xs: seq<T>, x: T): (i: nat)
    ensures i <= |xs| && (i < |xs| ==> xs[i] == x) && (x in xs ==> i < |xs|)
  {
    if xs == [] || xs[0] == x then 0 else 1 + IndexOf(xs[1..], x)
  }

  /** `x` is added to a list that does not have it yet. */
  function Intern<T(==)>(xs: seq<T>, x: T): (r: (seq<T>, nat))
    ensures xs <= r.0 && r.1 < |r.0| && r.0[r.1] == x
  {
    if IndexOf(xs, x) < |xs| then (xs, IndexOf(xs, x)) else (xs + [x], |xs|)
  }

  /** `make-const`. */
  function MakeConst(st: Store, d: Datum): (Store, nat) {
    var (consts, i) := Intern(st.consts, d);
    (st.(consts := consts), i)
  }

  /** `env-bind`: the index of the binding of slot `slot` of the frame with depth `up`. */
  function EnvBind(env: Scoped, up: nat, slot: nat): (Scoped, nat) {
    var (bindmap, m) := Intern(env.bindmap, up);
    var (bindings, b) := Intern(env.bindings, (m, slot));
    (env.(bindmap := bindmap, bindings := bindings), b)
  }

  /** How many records out, and in which slot, `x` is found. */
  function Search(envs: seq<Scoped>, x: Name): (r: Option<(nat, nat)>)
    ensures r.Some? ==> r.value.0 < |envs|
  {
    if envs == [] then None else
    match Position(envs[0].names, x)
    case Some(i) => Some((0, i))
    case None =>
      match Search(envs[1..], x)
      case Some((step, slot)) => Some((step + 1, slot))
      case None => None
  }

  /** `env-lookup`. */
  function EnvLookup(envs: seq<Scoped>, st: Store, x: Name): (r: Option<(Place, seq<Scoped>, Store)>)
    ensures r.Some? ==> |r.value.1| == |envs|
  {
    match Search(envs, x)
    case None =>
      if x.User? && IsBuiltin(x.s) then
        var (st1, i) := MakeConst(st, DStatic(x.s));
        Some((Static(i), envs, st1))
      else None
    case Some((step, slot)) =>
      if step == 0 then Some((Local(slot), envs, st)) else
      var envs1 := envs[step := envs[step].(onheap := true)];
      var (env, b) := EnvBind(envs1[0], envs[step].depth, slot);
      Some((Bound(b), envs1[0 := env], st))
  }

  function VarCode(p: Place): Instr {
    match p
    case Local(slot) => LoadLocal(slot)
    case Bound(b) => LoadBind(b)
    case Static(i) => LoadConst(i)
  }

  /** `rewrite-func`. */
  function RewriteFunc(code: seq<Instr>): seq<Instr> {
    if code != [] && code[0].LoadClosure? then [LoadFunc(code[0].fn)] + code[1..] else code
  }

  function IsLambdaCall(func: seq<Instr>): bool { func != [] && func[0].LoadClosure? }

  /** `make-func`. */
  function MakeFunc(code: seq<Instr>, env: Scoped): Procedure {
    Procedure(if env.rest && env.names != [] then |env.names| - 1 else |env.names|, env.rest, |env.names|, env.onheap, env.depth,
              env.bindings, env.bindmap, code)
  }

  /** `compile`; `None` is a compile-time error. */
  function Compile(e: Exp, envs: seq<Scoped>, st: Store): (r: Option<Out>)
    ensures r.Some? ==> |r.value.envs| == |envs|
    decreases e, 1
  {
    match e
    case Lit(d) =>
      if d.DBool? then Some(Out([PushBool(d.b)], envs, st))
      else if d.DChar? || d.DFixnum? || d.DString? then
        var (st1, i) := MakeConst(st, d);
        Some(Out([LoadConst(i)], envs, st1))
      else None
    case Quote(d) =>
      if d.DNull? then Some(Out([PushNull], envs, st)) else
      var (st1, i) := MakeConst(st, d);
      Some(Out([LoadConst(i)], envs, st1))
    case Var(x) =>
      var (place, envs1, st1) :- EnvLookup(envs, st, x);
      Some(Out([VarCode(place)], envs1, st1))
    case Op(op, args) =>
      if |args| != Arity(op) then None else
      var a :- CompileAll(args, envs, st);
      Some(Out(a.code + [Operation(op)], a.envs, a.st))
    case Lam(ps, rest, body) =>
      if rest && ps == [] then None else
      var b :- CompileAll(body, [Scoped(ps, rest, |envs|, false, [], [])] + envs, st);
      Some(Out([LoadClosure(|b.st.funcs|)], b.envs[1..], b.st.(funcs := b.st.funcs + [MakeFunc(b.code, b.envs[0])])))
    case If(test, yes, no) =>
      var p :- Compile(test, envs, st);
      var y :- Compile(yes, p.envs, p.st);
      var z :- Compile(no, y.envs, y.st);
      Some(Out(p.code + [JumpIfFalse(|y.code| + 1)] + y.code + [JumpForward(|z.code|)] + z.code, z.envs, z.st))
    case Call(es) =>
      if es == [] || (es[0].Var? && |es| == 1) then None else
      var f :- Compile(es[0], envs, st);
      var a :- CompileAll(es[1..], f.envs, f.st);
      var args := if DirectCont(es) then RewriteFunc(a.code) else a.code;
      var func := if IsLambdaCall(f.code) then RewriteFunc(f.code) else f.code;
      Some(Out(args + func + [FuncCall(|es| - 1)], a.envs, a.st))
  }

  /** `map-append` of `compile`. */
  function CompileAll(es: seq<Exp>, envs: seq<Scoped>, st: Store): (r: Option<Out>)
    ensures r.Some? ==> |r.value.envs| == |envs|
    decreases es, 0
  {
    if es == [] then Some(Out([], envs, st)) else
    var x :- Compile(es[0], envs, st);
    var rest :- CompileAll(es[1..], x.envs, x.st);
    Some(Out(x.code + rest.code, rest.envs, rest.st))
  }

  /** `start-compile`: the procedure stored last is the entry point. */
  function StartCompile(root: Exp): Option<Image> {
    var out :- Compile(root, [], Store([], []));
    if out.st.funcs == [] then None else Some(Image(out.st.consts, out.st.funcs, |out.st.funcs| - 1))
  }
}
