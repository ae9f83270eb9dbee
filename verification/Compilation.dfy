/** The compiler as it runs: records of procedures and pools of constants and code, updated as expressions are compiled. */
module Compilation {
  import opened Wrappers
  import opened Syntax
  import opened Values
  import opened Machine
  import opened CodeSpec
  import opened Compiler

  /** The `env` record of a procedure being compiled. */
  class Record {
    const parent: Record?
    const names: seq<Name>
    const rest: bool
    const depth: nat
    var onheap: bool
    var bindings: seq<(nat, nat)>
    var bindmap: seq<nat>

    /** `make-env`. */
    constructor (parent: Record?, names: seq<Name>, rest: bool)
      ensures this.parent == parent && depth == (if parent == null then 0 else parent.depth + 1)
      ensures Value() == Scoped(names, rest, depth, false, [], [])
    {
      this.parent, this.names, this.rest := parent, names, rest;
      depth := if parent == null then 0 else parent.depth + 1;
      onheap, bindings, bindmap := false, [], [];
    }

    ghost function Value(): Scoped
      reads this
    {
      Scoped(names, rest, depth, onheap, bindings, bindmap)
    }

    /** `env-bind`: an existing entry is shared, a new one is added. */
    method Bind(up: nat, slot: nat) returns (b: nat)
      modifies this`bindings, this`bindmap
      ensures EnvBind(old(Value()), up, slot) == (Value(), b)
    {
      var m := Find(bindmap, up);
      if m == |bindmap| {
        bindmap := bindmap + [up];
      }
      b := Find(bindings, (m, slot));
      if b == |bindings| {
        bindings := bindings + [(m, slot)];
      }
    }

    /** `memv`, `member` and `assoc`, as a position. */
    static method Find<T(==)>(xs: seq<T>, x: T) returns (i: nat)
      ensures i == IndexOf(xs, x)
    {
      i := 0;
      while i < |xs| && xs[i] != x
        invariant 0 <= i <= |xs| && IndexOf(xs, x) == i + IndexOf(xs[i..], x)
      {
        assert xs[i..][1..] == xs[i + 1..];
        i := i + 1;
      }
    }
  }

  /** `env` and the records around it, innermost first. */
  ghost predicate Linked(env: Record?, chain: seq<Record>) {
    && env == First(chain)
    && forall i {:trigger chain[i]} | 0 <= i < |chain| ::
         chain[i].parent == First(chain[i + 1..]) && chain[i].depth == |chain| - 1 - i
  }

  ghost function First(chain: seq<Record>): Record? { if chain == [] then null else chain[0] }

  ghost function Contents(chain: seq<Record>): (vs: seq<Scoped>)
    reads chain
    ensures |vs| == |chain| && forall i {:trigger vs[i]} | 0 <= i < |chain| :: vs[i] == chain[i].Value()
  {
    seq(|chain|, i requires 0 <= i < |chain| reads chain => chain[i].Value())
  }

  /** Different records have different depths. */
  lemma LinkedDistinct(env: Record?, chain: seq<Record>, i: nat, j: nat)
    requires Linked(env, chain) && i < |chain| && j < |chain| && i != j
    ensures chain[i] != chain[j]
  {
  }

  lemma {:induction false} SearchStep(envs: seq<Scoped>, x: Name, step: nat)
    requires step <= |envs| && forall k | 0 <= k < step :: Position(envs[k].names, x).None?
    ensures Search(envs, x) == match Search(envs[step..], x) case None => None case Some((k, slot)) => Some((k + step, slot))
    decreases step
  {
    if step == 0 {
      assert envs[0..] == envs;
    } else {
      assert envs[1..][step - 1..] == envs[step..];
      forall k | 0 <= k < step - 1 ensures Position(envs[1..][k].names, x).None? {
        assert envs[1..][k] == envs[k + 1];
      }
      SearchStep(envs[1..], x, step - 1);
    }
  }

  /** The state of `start-compile`. */
  class Compilation {
    var consts: seq<Datum>
    var codeStore: seq<Procedure>

    constructor ()
      ensures Pools() == Store([], [])
    {
      consts, codeStore := [], [];
    }

    ghost function Pools(): Store
      reads this
    {
      Store(consts, codeStore)
    }

    /** `make-const`: equal constants share an entry. */
    method Constant(d: Datum) returns (i: nat)
      modifies this`consts
      ensures MakeConst(old(Pools()), d) == (Pools(), i)
    {
      i := Record.Find(consts, d);
      if i == |consts| {
        consts := consts + [d];
      }
    }

    /** `push-code`. */
    method PushCode(f: Procedure) returns (i: nat)
      modifies this`codeStore
      ensures Pools() == old(Pools()).(funcs := old(codeStore) + [f]) && i == |old(codeStore)|
    {
      i := |codeStore|;
      codeStore := codeStore + [f];
    }

    /** `env-lookup`: walks outwards; a record found on the way out is marked for the heap. */
    method Lookup(env: Record?, ghost chain: seq<Record>, x: Name) returns (place: Option<Place>)
      requires Linked(env, chain)
      modifies this`consts, chain
      ensures Agrees(place, EnvLookup(old(Contents(chain)), old(Pools()), x), Contents(chain), Pools())
    {
      hide EnvBind, MakeConst, IsBuiltin, Search;
      var cur, slot, step := Walk(env, chain, x);
      if slot.None? {
        if x.User? && IsBuiltin(x.s) {
          var i := Constant(DStatic(x.s));
          place := Some(Static(i));
        } else {
          place := None;
        }
      } else if step == 0 {
        place := Some(Local(slot.value));
      } else {
        MarkHeap(cur, env, chain, step);
        var b := BindHere(env, chain, cur.depth, slot.value);
        place := Some(Bound(b));
      }
    }

    /** The loop over the parents: the record that has the name, its slot there, and how many records out it is. */
    method Walk(env: Record?, ghost chain: seq<Record>, x: Name) returns (cur: Record?, slot: Option<nat>, step: nat)
      requires Linked(env, chain)
      ensures Search(Contents(chain), x) == if slot.Some? then Some((step, slot.value)) else None
      ensures slot.Some? ==> step < |chain| && cur == chain[step] && cur.depth == Contents(chain)[step].depth
    {
      cur, step := env, 0;
      ghost var envs := Contents(chain);
      slot := None;
      while cur != null && slot.None?
        invariant 0 <= step <= |chain| && cur == First(chain[step..])
        invariant forall k | 0 <= k < step :: Position(envs[k].names, x).None?
        invariant slot.Some? ==> cur != null && Position(envs[step].names, x) == slot
        decreases |chain| - step, slot.None?
      {
        assert cur == chain[step] && cur.names == envs[step].names;
        slot := Position(cur.names, x);
        if slot.None? {
          assert chain[step + 1..] == chain[step..][1..];
          cur, step := cur.parent, step + 1;
        }
      }
      SearchStep(envs, x, step);
      if slot.None? {
        assert step == |chain|;
        assert envs[step..] == [];
      } else {
        assert envs[step..][0] == envs[step];
      }
    }

    /** `env-onheap-set!` on one record of the chain. */
    method MarkHeap(cur: Record, ghost env: Record?, ghost chain: seq<Record>, ghost step: nat)
      requires Linked(env, chain) && step < |chain| && cur == chain[step]
      modifies cur`onheap
      ensures Contents(chain) == old(Contents(chain))[step := old(Contents(chain)[step]).(onheap := true)]
    {
      ghost var envs := Contents(chain);
      cur.onheap := true;
      forall i: nat | i < |chain| ensures Contents(chain)[i] == envs[step := envs[step].(onheap := true)][i] {
        if i != step {
          LinkedDistinct(env, chain, i, step);
        }
      }
    }

    /** `env-bind` on the innermost record. */
    method BindHere(env: Record, ghost chain: seq<Record>, up: nat, slot: nat) returns (b: nat)
      requires Linked(env, chain)
      modifies env`bindings, env`bindmap
      ensures chain != [] && EnvBind(old(Contents(chain)[0]), up, slot).1 == b
      ensures Contents(chain) == old(Contents(chain))[0 := EnvBind(old(Contents(chain)[0]), up, slot).0]
    {
      ghost var envs := Contents(chain);
      assert env == chain[0];
      b := env.Bind(up, slot);
      forall i: nat | i < |chain| ensures Contents(chain)[i] == envs[0 := EnvBind(envs[0], up, slot).0][i] {
        if i != 0 {
          LinkedDistinct(env, chain, i, 0);
        }
      }
    }

    ghost predicate Agrees(place: Option<Place>, r: Option<(Place, seq<Scoped>, Store)>, envs: seq<Scoped>, st: Store) {
      match r
      case None => place == None
      case Some((p, envs', st')) => place == Some(p) && envs == envs' && st == st'
    }

    /** `compile`. */
    method Compile(env: Record?, ghost chain: seq<Record>, e: Exp) returns (code: Option<seq<Instr>>)
      requires Linked(env, chain)
      modifies this, chain
      ensures Compiled(code, Compiler.Compile(e, old(Contents(chain)), old(Pools())), Contents(chain), Pools())
      decreases e, 2
    {
      hide EnvLookup, MakeConst, Linked;
      match e
      case Lit(d) =>
        if d.DBool? {
          code := Some([Instr.PushBool(d.b)]);
        } else if d.DChar? || d.DFixnum? || d.DString? {
          var i := Constant(d);
          code := Some([LoadConst(i)]);
        } else {
          code := None;
        }
      case Quote(d) =>
        if d.DNull? {
          code := Some([PushNull]);
        } else {
          var i := Constant(d);
          code := Some([LoadConst(i)]);
        }
      case Var(x) =>
        var place := Lookup(env, chain, x);
        code := if place.None? then None else Some([VarCode(place.value)]);
      case Op(op, args) =>
        code := None;
        if |args| == Arity(op) {
          hide Compiler.CompileAll;
          var a := CompileAll(env, chain, args);
          code := if a.None? then None else Some(a.value + [Operation(op)]);
        }
      case Lam(_, _, _) => code := CompileLambda(env, chain, e);
      case If(_, _, _) => code := CompileIf(env, chain, e);
      case Call(_) => code := CompileCall(env, chain, e);
    }

    method CompileAll(env: Record?, ghost chain: seq<Record>, es: seq<Exp>) returns (code: Option<seq<Instr>>)
      requires Linked(env, chain)
      modifies this, chain
      ensures Compiled(code, Compiler.CompileAll(es, old(Contents(chain)), old(Pools())), Contents(chain), Pools())
      decreases es, 0
    {
      hide Linked, Compiler.Compile;
      if es == [] {
        return Some([]);
      }
      var x := Compile(env, chain, es[0]);
      if x.None? {
        return None;
      }
      var rest := CompileAll(env, chain, es[1..]);
      code := if rest.None? then None else Some(x.value + rest.value);
    }

    /** `compile-func`. */
    method CompileLambda(env: Record?, ghost chain: seq<Record>, e: Exp) returns (code: Option<seq<Instr>>)
      requires Linked(env, chain) && e.Lam?
      modifies this, chain
      ensures Compiled(code, Compiler.Compile(e, old(Contents(chain)), old(Pools())), Contents(chain), Pools())
      decreases e, 1
    {
      hide Compiler.CompileAll;
      if e.rest && e.ps == [] {
        return None;
      }
      var own := new Record(env, e.ps, e.rest);
      ghost var inner := [own] + chain;
      LinkedInside(env, chain, own);
      assert Contents(inner) == [Scoped(e.ps, e.rest, |chain|, false, [], [])] + old(Contents(chain));
      hide Linked;
      var body := CompileAll(own, inner, e.body);
      if body.None? {
        return None;
      }
      assert Contents(chain) == Contents(inner)[1..];
      assert own.Value() == Contents(inner)[0];
      var i := PushCode(MakeFunc(body.value, Scoped(own.names, own.rest, own.depth, own.onheap, own.bindings, own.bindmap)));
      assert Contents(chain) == Contents(inner)[1..];
      code := Some([LoadClosure(i)]);
    }

    /** `compile-if`. */
    method CompileIf(env: Record?, ghost chain: seq<Record>, e: Exp) returns (code: Option<seq<Instr>>)
      requires Linked(env, chain) && e.If?
      modifies this, chain
      ensures Compiled(code, Compiler.Compile(e, old(Contents(chain)), old(Pools())), Contents(chain), Pools())
      decreases e, 1
    {
      hide Linked;
      var p := Compile(env, chain, e.test);
      if p.None? {
        return None;
      }
      var y := Compile(env, chain, e.yes);
      if y.None? {
        return None;
      }
      var z := Compile(env, chain, e.no);
      if z.None? {
        return None;
      }
      code := Some(p.value + [JumpIfFalse(|y.value| + 1)] + y.value + [JumpForward(|z.value|)] + z.value);
    }

    /** `compile-call`: the operator is compiled first and loaded last. */
    method CompileCall(env: Record?, ghost chain: seq<Record>, e: Exp) returns (code: Option<seq<Instr>>)
      requires Linked(env, chain) && e.Call?
      modifies this, chain
      ensures Compiled(code, Compiler.Compile(e, old(Contents(chain)), old(Pools())), Contents(chain), Pools())
      decreases e, 1
    {
      hide Linked, DirectCont, RewriteFunc, IsLambdaCall, Compiler.CompileAll;
      var es := e.es;
      if es == [] || (es[0].Var? && |es| == 1) {
        return None;
      }
      var f := Compile(env, chain, es[0]);
      if f.None? {
        return None;
      }
      var a := CompileAll(env, chain, es[1..]);
      if a.None? {
        return None;
      }
      var args := if DirectCont(es) then RewriteFunc(a.value) else a.value;
      var func := if IsLambdaCall(f.value) then RewriteFunc(f.value) else f.value;
      code := Some(args + func + [FuncCall(|es| - 1)]);
    }

    ghost predicate Compiled(code: Option<seq<Instr>>, r: Option<Out>, envs: seq<Scoped>, st: Store) {
      match r
      case None => code == None
      case Some(out) => code == Some(out.code) && envs == out.envs && st == out.st
    }
  }

  lemma LinkedInside(env: Record?, chain: seq<Record>, own: Record)
    requires Linked(env, chain) && own.parent == env && own.depth == (if env == null then 0 else env.depth + 1)
    ensures Linked(own, [own] + chain)
  {
    var inner := [own] + chain;
    forall i {:trigger inner[i]} | 0 <= i < |inner|
      ensures inner[i].parent == First(inner[i + 1..]) && inner[i].depth == |inner| - 1 - i
    {
      if i > 0 {
        assert inner[i] == chain[i - 1] && inner[i + 1..] == chain[i..];
      } else {
        assert inner[1..] == chain;
        if chain != [] {
          assert chain[0].depth == |chain| - 1;
        }
      }
    }
  }

  /** `start-compile`. */
  method Start(root: Exp) returns (image: Option<Image>)
    ensures image == StartCompile(root)
  {
    hide Compile;
    var c := new Compilation();
    assert Linked(null, []) && Contents([]) == [];
    var code := c.Compile(null, [], root);
    if code.None? || c.codeStore == [] {
      return None;
    }
    image := Some(Image(c.consts, c.codeStore, |c.codeStore| - 1));
  }
}
