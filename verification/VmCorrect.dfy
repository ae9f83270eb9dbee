/** The environments of a running thread: every variable is found where static scoping puts it. */
module VmFrames {
  import opened Wrappers
  import opened Syntax
  import opened Values
  import opened Machine
  import opened CodeSpec
  import opened ValueRelation
  import opened ValueLemmas

  /** The environment of the procedure `step` levels out. */
  function Outer(env: Env, step: nat): Env {
    if step == 0 || env == Empty then env else Outer(env.next, step - 1)
  }

  /** Static scoping and the run-time environment agree on where a variable is. */
  lemma {:induction false} FindIsLookup(infos: seq<Info>, env: Env, scopes: seq<Scope>, menv: MEnv, x: Name)
    requires EnvRep(infos, env, scopes, menv)
    ensures Find(scopes, x) == None ==> Lookup(env, x) == None
    ensures Find(scopes, x).Some? ==>
              var (step, slot) := Find(scopes, x).value;
              var rib := Outer(env, step);
              rib.Rib? && slot < |rib.vals| && Lookup(env, x) == Some(rib.vals[slot])
    decreases |scopes|
  {
    if scopes != [] && Position(scopes[0].names, x).None? {
      FindIsLookup(infos, env.next, scopes[1..], if scopes[0].heap then menv.prev else menv, x);
    }
  }

  /** The search by depth mark ends at the frame of the procedure `step` levels out. */
  lemma {:induction false} DisplayFinds(infos: seq<Info>, env: Env, scopes: seq<Scope>, menv: MEnv, step: nat)
    returns (frame: MEnv)
    requires EnvRep(infos, env, scopes, menv) && step < |scopes| && scopes[step].heap
    ensures Display(menv, |scopes| - 1 - step) == Some(frame)
    ensures frame.Frame? && frame.depth == |scopes| - 1 - step
    ensures Outer(env, step).Rib? && RelatedAll(Compiled(infos), Outer(env, step).vals, frame.objects)
    decreases |scopes|
  {
    hide RelatedAll;
    if step == 0 {
      frame := menv;
    } else {
      frame := DisplayFinds(infos, env.next, scopes[1..], if scopes[0].heap then menv.prev else menv, step - 1);
    }
  }

  /** The chain of frames is strictly decreasing in depth, below that of the running procedure. */
  lemma {:induction false} FramesDecrease(infos: seq<Info>, env: Env, scopes: seq<Scope>, menv: MEnv)
    requires EnvRep(infos, env, scopes, menv) && scopes != []
    ensures Decreasing(menv, |scopes|)
    decreases |scopes|
  {
    if !scopes[0].heap {
      if |scopes| == 1 {
        assert EnvRep(infos, env.next, [], menv);
      } else {
        FramesDecrease(infos, env.next, scopes[1..], menv);
      }
    }
  }

  // ----- the frame of the running procedure

  ghost predicate LocalsOk(infos: seq<Info>, vals: seq<Val>, t: Thread) {
    match t.locals
    case OnStack(base) =>
      base + |vals| <= |t.stack| && RelatedAll(Compiled(infos), vals, t.stack[base..base + |vals|])
    case OnHeap => t.env.Frame? && RelatedAll(Compiled(infos), vals, t.env.objects)
  }

  /** `bindmap` holds the frames that the procedure's bindings name. */
  predicate BindmapHolds(f: Procedure, t: Thread) {
    f.bindings != [] ==>
      && t.bindmap.Some? && t.bindmap.value + |f.bindmap| <= |t.stack|
      && forall u {:trigger f.bindmap[u]} | 0 <= u < |f.bindmap| ::
           && Display(t.env, f.bindmap[u]).Some?
           && t.stack[t.bindmap.value + u] == EnvRef(Display(t.env, f.bindmap[u]).value)
  }

  ghost predicate FrameOk(infos: seq<Info>, f: Procedure, i: Info, env: Env, t: Thread) {
    && env.Rib? && EnvRep(infos, env, ScopesOf(i), t.env)
    && LocalsOk(infos, env.vals, t) && BindmapHolds(f, t)
  }

  lemma FrameKeeps(infos: seq<Info>, f: Procedure, i: Info, env: Env, t: Thread, extra: seq<Val>, pc: nat)
    requires FrameOk(infos, f, i, env, t)
    ensures FrameOk(infos, f, i, env, t.(stack := t.stack + extra, pc := pc))
  {
    hide RelatedAll, EnvRep;
    var t' := t.(stack := t.stack + extra, pc := pc);
    if t.locals.OnStack? {
      var base, n := t.locals.base, |env.vals|;
      assert t'.stack[base..base + n] == t.stack[base..base + n];
    }
  }

  /** `LOAD_LOCAL` and `LOAD_BIND` read the variable that static scoping means. */
  lemma VariableIsRead(infos: seq<Info>, consts: seq<Datum>, f: Procedure, i: Info, env: Env, t: Thread, x: Name, ins: Instr)
    returns (w: Val)
    requires FrameOk(infos, f, i, env, t) && IsVar(ContextOf(consts, infos, f, i), ins, x)
    requires Find(ScopesOf(i), x).Some?
    ensures Lookup(env, x).Some? && Related(Compiled(infos), Lookup(env, x).value, w)
    ensures (ins == LoadLocal(Find(ScopesOf(i), x).value.1) && LocalVal(t, ins.slot) == Some(w))
            || (ins.LoadBind? && BoundVal(f, t, ins.binding) == Some(w))
  {
    hide EnvRep, RelatedAll, Related;
    var scopes := ScopesOf(i);
    var (step, slot) := Find(scopes, x).value;
    FindIsLookup(infos, env, scopes, t.env, x);
    var rib := Outer(env, step);
    if step == 0 {
      w := LocalIsRead(infos, env, t, slot);
    } else {
      var frame := DisplayFinds(infos, env, scopes, t.env, step);
      assert IsBinding(ContextOf(consts, infos, f, i), ins.binding, step, slot);
      var (up, _) := f.bindings[ins.binding];
      assert f.bindmap[up] == |scopes| - 1 - step;
      assert t.stack[t.bindmap.value + up] == EnvRef(frame);
      RelatedCount(Compiled(infos), rib.vals, frame.objects);
      RelatedIndex(Compiled(infos), rib.vals, frame.objects, slot);
      w := frame.objects[slot];
    }
  }

  lemma LocalIsRead(infos: seq<Info>, env: Env, t: Thread, slot: nat) returns (w: Val)
    requires env.Rib? && LocalsOk(infos, env.vals, t) && slot < |env.vals|
    ensures LocalVal(t, slot) == Some(w) && Related(Compiled(infos), env.vals[slot], w)
  {
    hide RelatedAll, Related;
    match t.locals
    case OnStack(base) =>
      var part := t.stack[base..base + |env.vals|];
      RelatedIndex(Compiled(infos), env.vals, part, slot);
      w := part[slot];
    case OnHeap =>
      RelatedCount(Compiled(infos), env.vals, t.env.objects);
      RelatedIndex(Compiled(infos), env.vals, t.env.objects, slot);
      w := t.env.objects[slot];
  }
}

/** Compiled expressions push the value of their source. */
module VmExpressions {
  import opened Wrappers
  import opened Syntax
  import opened Values
  import opened Meaning
  import opened Machine
  import opened CodeSpec
  import opened ValueRelation
  import opened ValueLemmas
  import opened VmFrames

  /** The thread executes procedure `t.fn` in the environment `env`. */
  ghost predicate Ready(M: Image, infos: seq<Info>, env: Env, t: Thread) {
    && TableOk(M.consts, infos, M.funcs) && t.call == None && t.fn < |M.funcs| && t.fn < |infos|
    && FrameOk(infos, M.funcs[t.fn], infos[t.fn], env, t)
  }

  function Here(M: Image, infos: seq<Info>, t: Thread): Context
    requires t.fn < |M.funcs| && t.fn < |infos|
  {
    ContextOf(M.consts, infos, M.funcs[t.fn], infos[t.fn])
  }

  ghost predicate Implemented(M: Image, infos: seq<Info>, t: Thread, e: Exp, pc: nat) {
    t.fn < |M.funcs| && t.fn < |infos| && Emits(Here(M, infos, t), e, pc)
  }

  ghost predicate ImplementedAll(M: Image, infos: seq<Info>, t: Thread, es: seq<Exp>, pc: nat) {
    t.fn < |M.funcs| && t.fn < |infos| && EmitsAll(Here(M, infos, t), es, pc)
  }

  function After(t: Thread, pushed: seq<Val>, len: nat): Thread { t.(stack := t.stack + pushed, pc := t.pc + len) }

  lemma ReadyKeeps(M: Image, infos: seq<Info>, env: Env, t: Thread, extra: seq<Val>, len: nat)
    requires Ready(M, infos, env, t)
    ensures Ready(M, infos, env, After(t, extra, len))
  {
    hide TableOk, FrameOk;
    FrameKeeps(infos, M.funcs[t.fn], infos[t.fn], env, t, extra, t.pc + len);
  }

  lemma OneStep(M: Image, W: World, t: Thread, t': Thread)
    requires Step(M, W, t) == Next(t')
    ensures Steps(M, W, t, 1) == Some(t')
  {
    hide Step;
    assert Steps(M, W, t', 0) == Some(t');
  }

  /** One instruction that pushes `w`. */
  lemma PushStep(M: Image, W: World, t: Thread, w: Val)
    requires t.call == None && t.fn < |M.funcs| && t.pc < |M.funcs[t.fn].ops| && |t.stack| < STACK_LIMIT
    requires Exec(M, M.funcs[t.fn], t, M.funcs[t.fn].ops[t.pc]) == Push(t, w)
    ensures Steps(M, W, t, 1) == Some(After(t, [w], 1))
  {
    hide Exec;
    OneStep(M, W, t, After(t, [w], 1));
  }

  lemma VarOk(M: Image, W: World, infos: seq<Info>, env: Env, x: Name, t: Thread, v: Val) returns (w: Val)
    requires Ready(M, infos, env, t) && Implemented(M, infos, t, Var(x), t.pc) && Resolve(env, x) == Some(v)
    requires |t.stack| < STACK_LIMIT
    ensures Related(Compiled(infos), v, w) && Steps(M, W, t, 1) == Some(After(t, [w], 1))
  {
    hide TableOk, EnvRep, RelatedAll, Related, Push, IsBuiltin, Steps, LocalVal, BoundVal;
    var f, i := M.funcs[t.fn], infos[t.fn];
    var ins := f.ops[t.pc];
    if Find(ScopesOf(i), x).Some? {
      w := VariableIsRead(infos, M.consts, f, i, env, t, x, ins);
    } else {
      FindIsLookup(infos, env, ScopesOf(i), t.env, x);
      w := Builtin(x.s);
      RelatedImmediate(Compiled(infos), w);
    }
    PushStep(M, W, t, w);
  }

  lemma ConstOk(M: Image, W: World, infos: seq<Info>, d: Datum, t: Thread, e: Exp) returns (w: Val)
    requires t.call == None && Implemented(M, infos, t, e, t.pc) && (e == Lit(d) || e == Quote(d))
    requires |t.stack| < STACK_LIMIT
    ensures Related(Compiled(infos), DatumVal(d), w) && Steps(M, W, t, 1) == Some(After(t, [w], 1))
  {
    hide Push, Steps, Related;
    w := DatumVal(d);
    RelatedDatum(Compiled(infos), d);
    PushStep(M, W, t, w);
  }

  lemma LambdaOk(M: Image, W: World, infos: seq<Info>, env: Env, e: Exp, t: Thread) returns (w: Val)
    requires Ready(M, infos, env, t) && e.Lam? && Implemented(M, infos, t, e, t.pc)
    requires |t.stack| < STACK_LIMIT
    ensures Related(Compiled(infos), Closure(e.ps, e.rest, e.body, env), w) && Steps(M, W, t, 1) == Some(After(t, [w], 1))
  {
    hide TableOk, EnvRep, RelatedAll, LocalsOk, BindmapHolds, Push, Steps;
    var fn := M.funcs[t.fn].ops[t.pc].fn;
    w := Code(fn, t.env);
    PushStep(M, W, t, w);
  }

  lemma OperationOk(M: Image, W: World, infos: seq<Info>, op: Operator, t: Thread, before: seq<Val>, vs: seq<Val>, ws: seq<Val>)
    returns (w: Val)
    requires t.call == None && t.fn < |M.funcs| && t.pc < |M.funcs[t.fn].ops| && M.funcs[t.fn].ops[t.pc] == Operation(op)
    requires t.stack == before + ws && RelatedAll(Compiled(infos), vs, ws) && |vs| == Arity(op) && Operate(op, vs).Some?
    ensures Related(Compiled(infos), Operate(op, vs).value, w)
    ensures Steps(M, W, t, 1) == Some(t.(stack := before + [w], pc := t.pc + 1))
  {
    hide Operate, Related, RelatedAll, Steps;
    RelatedCount(Compiled(infos), vs, ws);
    RelatedOperate(Compiled(infos), op, vs, ws);
    w := Operate(op, ws).value;
    assert Top(t, Arity(op)) == ws && Drop(t, Arity(op)) == before;
    OneStep(M, W, t, t.(stack := before + [w], pc := t.pc + 1));
  }

  /** `JUMP_IF_FALSE` and `JUMP_FORWARD` only go forward. */
  lemma JumpIfFalseOk(M: Image, W: World, t: Thread, before: seq<Val>, w: Val, skip: nat)
    requires t.call == None && t.fn < |M.funcs| && t.pc < |M.funcs[t.fn].ops| && M.funcs[t.fn].ops[t.pc] == JumpIfFalse(skip)
    requires t.stack == before + [w]
    ensures Steps(M, W, t, 1)
            == Some(t.(stack := before, pc := t.pc + 1 + if w == Bool(false) then skip else 0))
  {
    hide Steps;
    assert Top(t, 1) == [w] && Drop(t, 1) == before;
    OneStep(M, W, t, t.(stack := before, pc := t.pc + 1 + if w == Bool(false) then skip else 0));
  }

  lemma JumpForwardOk(M: Image, W: World, t: Thread, skip: nat)
    requires t.call == None && t.fn < |M.funcs| && t.pc < |M.funcs[t.fn].ops| && M.funcs[t.fn].ops[t.pc] == JumpForward(skip)
    ensures Steps(M, W, t, 1) == Some(t.(pc := t.pc + 1 + skip))
  {
    hide Steps;
    OneStep(M, W, t, t.(pc := t.pc + 1 + skip));
  }

  /** The code of a conditional: the test, and where its branches are. */
  lemma IfCode(M: Image, infos: seq<Info>, t: Thread, e: Exp)
    requires e.If? && Implemented(M, infos, t, e, t.pc)
    ensures Implemented(M, infos, t, e.test, t.pc)
    ensures t.fn < |M.funcs|
    ensures var f := M.funcs[t.fn];
            var jump, yes := t.pc + Len(e.test), t.pc + Len(e.test) + 1;
            var no := yes + Len(e.yes) + 1;
            && t.pc + Len(e) <= |f.ops| && f.ops[jump] == JumpIfFalse(Len(e.yes) + 1)
            && f.ops[yes + Len(e.yes)] == JumpForward(Len(e.no))
            && Implemented(M, infos, t, e.yes, yes) && Implemented(M, infos, t, e.no, no)
  {
    hide Emits;
    IfParts(Here(M, infos, t), e, t.pc);
  }

  lemma IfParts(c: Context, e: Exp, pc: nat)
    requires e.If? && Emits(c, e, pc)
    ensures EmitsIf(c, e, pc)
  {
    hide EmitsIf;
  }

  /**
   Running the code of `e` pushes its value and stops right behind it; nothing else of the thread changes, whatever
   code surrounds it.
   */
  lemma ExpressionOk(M: Image, W: World, infos: seq<Info>, env: Env, e: Exp, t: Thread, v: Val) returns (n: nat, w: Val)
    requires Ready(M, infos, env, t) && Implemented(M, infos, t, e, t.pc) && Triv(e, env) == Some(v)
    requires |t.stack| + Need(e) <= STACK_LIMIT
    ensures Related(Compiled(infos), v, w)
    ensures Steps(M, W, t, n) == Some(After(t, [w], Len(e)))
    decreases e, 2
  {
    hide TableOk, FrameOk, Steps, Related, RelatedAll, Operate;
    match e
    case Lit(d) => hide Triv; w := ConstOk(M, W, infos, d, t, e); n := 1;
    case Quote(d) => hide Triv; w := ConstOk(M, W, infos, d, t, e); n := 1;
    case Var(x) => w := VarOk(M, W, infos, env, x, t, v); n := 1;
    case Lam(_, _, _) => w := LambdaOk(M, W, infos, env, e, t); n := 1;
    case Op(op, args) => n, w := OpOk(M, W, infos, env, e, t, v);
    case If(_, _, _) => n, w := IfOk(M, W, infos, env, e, t, v);
    case Call(_) =>
  }

  lemma OpOk(M: Image, W: World, infos: seq<Info>, env: Env, e: Exp, t: Thread, v: Val) returns (n: nat, w: Val)
    requires e.Op? && Ready(M, infos, env, t) && Implemented(M, infos, t, e, t.pc) && Triv(e, env) == Some(v)
    requires |t.stack| + Need(e) <= STACK_LIMIT
    ensures Related(Compiled(infos), v, w)
    ensures Steps(M, W, t, n) == Some(After(t, [w], Len(e)))
    decreases e, 0
  {
    hide Ready, Steps, Related, RelatedAll, Operate, EmitsAll;
    var vs := TrivAll(e.args, env).value;
    var n1, ws := ExpressionsOk(M, W, infos, env, e.args, t, vs);
    var t1 := After(t, ws, LenAll(e.args));
    hide TrivAll;
    assert t.call == None by {
      ReadyCalls(M, infos, env, t);
    }
    w := OperationOk(M, W, infos, e.op, t1, t.stack, vs, ws);
    n := n1 + 1;
    StepsTrans(M, W, t, n1, t1, 1, After(t, [w], Len(e)));
  }

  lemma ReadyCalls(M: Image, infos: seq<Info>, env: Env, t: Thread)
    requires Ready(M, infos, env, t)
    ensures t.call == None
  {
  }

  lemma ExpressionsOk(M: Image, W: World, infos: seq<Info>, env: Env, es: seq<Exp>, t: Thread, vs: seq<Val>)
    returns (n: nat, ws: seq<Val>)
    requires Ready(M, infos, env, t) && ImplementedAll(M, infos, t, es, t.pc) && TrivAll(es, env) == Some(vs)
    requires |t.stack| + NeedAll(es) <= STACK_LIMIT
    ensures RelatedAll(Compiled(infos), vs, ws)
    ensures Steps(M, W, t, n) == Some(After(t, ws, LenAll(es)))
    decreases es, 0
  {
    hide Ready, Steps, Related, RelatedAll, Emits, Triv;
    if es == [] {
      n, ws := 0, [];
      assert t.stack + [] == t.stack;
      NoSteps(M, W, infos, t);
    } else {
      var v, rest := Triv(es[0], env).value, TrivAll(es[1..], env).value;
      var n1, w := ExpressionOk(M, W, infos, env, es[0], t, v);
      var t1 := After(t, [w], Len(es[0]));
      ReadyKeeps(M, infos, env, t, [w], Len(es[0]));
      var n2, ws2 := ExpressionsOk(M, W, infos, env, es[1..], t1, rest);
      n, ws := n1 + n2, [w] + ws2;
      RelatedCons(Compiled(infos), v, rest, w, ws2);
      assert t.stack + [w] + ws2 == t.stack + ws;
      StepsTrans(M, W, t, n1, t1, n2, After(t, ws, LenAll(es)));
    }
  }

  lemma NoSteps(M: Image, W: World, infos: seq<Info>, t: Thread)
    ensures Steps(M, W, t, 0) == Some(t)
    ensures RelatedAll(Compiled(infos), [], [])
  {
  }

  lemma IfOk(M: Image, W: World, infos: seq<Info>, env: Env, e: Exp, t: Thread, v: Val) returns (n: nat, w: Val)
    requires e.If? && Ready(M, infos, env, t) && Implemented(M, infos, t, e, t.pc) && Triv(e, env) == Some(v)
    requires |t.stack| + Need(e) <= STACK_LIMIT
    ensures Related(Compiled(infos), v, w)
    ensures Steps(M, W, t, n) == Some(After(t, [w], Len(e)))
    decreases e, 1
  {
    hide Ready, Implemented, Steps, Related, RelatedAll, Triv, Need, Len, After;
    var v1 := TrivOfIf(e, env, v);
    IfCode(M, infos, t, e);
    NeedOfIf(e);
    var n1, t2 := TestOk(M, W, infos, env, e, t, v1);
    var branch := if v1 == Bool(false) then e.no else e.yes;
    ReadyMoves(M, infos, env, t, branch, t2.pc);
    var n2;
    n2, w := ExpressionOk(M, W, infos, env, branch, t2, v);
    var t3 := After(t2, [w], Len(branch));
    StepsTrans(M, W, t, n1, t2, n2, t3);
    n := n1 + n2;
    if v1 != Bool(false) {
      BranchEnds(M, W, infos, env, e, t, w);
      StepsTrans(M, W, t, n, t3, 1, After(t, [w], Len(e)));
      n := n + 1;
    }
    EndOfIf(e, t, w);
  }

  lemma TrivOfIf(e: Exp, env: Env, v: Val) returns (v1: Val)
    requires e.If? && Triv(e, env) == Some(v)
    ensures Triv(e.test, env) == Some(v1) && Triv(if v1 == Bool(false) then e.no else e.yes, env) == Some(v)
  {
    v1 := Triv(e.test, env).value;
  }

  /** At another place of the same procedure. */
  lemma ReadyMoves(M: Image, infos: seq<Info>, env: Env, t: Thread, e: Exp, pc: nat)
    requires Ready(M, infos, env, t) && t.pc <= pc && Implemented(M, infos, t, e, pc)
    ensures Ready(M, infos, env, t.(pc := pc)) && Implemented(M, infos, t.(pc := pc), e, pc)
  {
    hide Ready, Emits;
    ReadyKeeps(M, infos, env, t, [], pc - t.pc);
    assert t.stack + [] == t.stack;
  }

  /** The jump at the end of the first branch. */
  lemma BranchEnds(M: Image, W: World, infos: seq<Info>, env: Env, e: Exp, t: Thread, w: Val)
    requires e.If? && Ready(M, infos, env, t) && Implemented(M, infos, t, e, t.pc)
    ensures var t3 := After(t.(pc := t.pc + Len(e.test) + 1), [w], Len(e.yes));
            Steps(M, W, t3, 1) == Some(After(t, [w], Len(e)))
  {
    hide Ready, Steps, Implemented;
    ReadyCalls(M, infos, env, t);
    IfCode(M, infos, t, e);
    JumpForwardOk(M, W, After(t.(pc := t.pc + Len(e.test) + 1), [w], Len(e.yes)), Len(e.no));
  }

  lemma EndOfIf(e: Exp, t: Thread, w: Val)
    requires e.If?
    ensures After(t.(pc := t.pc + Len(e.test) + 1 + Len(e.yes) + 1), [w], Len(e.no)) == After(t, [w], Len(e))
  {
  }

  lemma NeedOfIf(e: Exp)
    requires e.If?
    ensures Need(e.test) <= Need(e) && Need(e.yes) <= Need(e) && Need(e.no) <= Need(e)
    ensures Len(e) == Len(e.test) + 1 + Len(e.yes) + 1 + Len(e.no)
  {
  }

  /** The test of a conditional and its jump: the thread is at the branch taken. */
  lemma TestOk(M: Image, W: World, infos: seq<Info>, env: Env, e: Exp, t: Thread, v1: Val) returns (n: nat, t2: Thread)
    requires e.If? && Ready(M, infos, env, t) && Implemented(M, infos, t, e, t.pc) && Triv(e.test, env) == Some(v1)
    requires |t.stack| + Need(e.test) <= STACK_LIMIT
    ensures Steps(M, W, t, n) == Some(t2) && n > 0
    ensures t2 == t.(pc := t.pc + Len(e.test) + 1 + if v1 == Bool(false) then Len(e.yes) + 1 else 0)
    decreases e, 0
  {
    hide Ready, Steps, Related, RelatedAll, Emits, Triv;
    IfCode(M, infos, t, e);
    var n1, w := ExpressionOk(M, W, infos, env, e.test, t, v1);
    var t1 := After(t, [w], Len(e.test));
    ReadyCalls(M, infos, env, t);
    RelatedShape(Compiled(infos), v1, w);
    JumpIfFalseOk(M, W, t1, t.stack, w, Len(e.yes) + 1);
    t2 := t.(pc := t.pc + Len(e.test) + 1 + if v1 == Bool(false) then Len(e.yes) + 1 else 0);
    StepsTrans(M, W, t, n1, t1, 1, t2);
    n := n1 + 1;
  }
}

/** Entering procedures: argument frames, and the bound on the operand stack. */
module VmEntry {
  import opened Wrappers
  import opened Syntax
  import opened Values
  import opened Machine
  import opened CodeSpec
  import opened CodeDepth
  import opened ValueRelation
  import opened ValueLemmas
  import opened VmFrames

  /** After surplus arguments are swallowed, the topmost values are the frame that the parameters describe. */
  lemma SwallowBinds(f: Procedure, ps: seq<Name>, rest: bool, t: Thread, argc: nat) returns (t1: Thread)
    requires argc <= |t.stack| && Bind(ps, rest, Top(t, argc)).Some?
    requires f.swallow == rest && f.argc == (if rest then |ps| - 1 else |ps|)
    ensures !(if f.swallow then argc < f.argc else argc != f.argc)
    ensures t1 == (if f.swallow then Swallow(f, t, argc) else t)
    ensures |ps| <= |t1.stack| <= |t.stack| + 1 && Bind(ps, rest, Top(t, argc)) == Some(Top(t1, |ps|))
  {
    t1 := t;
    if rest {
      t1 := Swallow(f, t, argc);
      var n := |ps| - 1;
      var surplus := argc - n;
      var args := Top(t, argc);
      assert Top(t, surplus) == args[n..];
      assert Drop(t, surplus)[|t.stack| - argc..] == args[..n];
      assert Top(t1, n + 1) == args[..n] + [ListVal(args[n..])];
    }
  }

  /** The environment of a procedure that has just been given its frame. */
  lemma PlaceArgsOk(infos: seq<Info>, f: Procedure, i: Info, env: Env, vals: seq<Val>, t: Thread) returns (t2: Thread)
    requires f.heap == NeedsHeap(i.ps, i.body) && f.depth == |i.chain| && |vals| == |i.ps| <= |t.stack|
    requires EnvRep(infos, env, i.chain, t.env) && i.chain != []
    requires RelatedAll(Compiled(infos), vals, Top(t, |i.ps|))
    ensures t2 == PlaceArgs(f, t, |i.ps|)
    ensures EnvRep(infos, Rib(i.ps, vals, env), ScopesOf(i), t2.env) && LocalsOk(infos, vals, t2)
    ensures |t2.stack| <= 2 * |i.ps|
  {
    hide RelatedAll, NeedsHeap, CapturedAll, EnvRep;
    t2 := PlaceArgs(f, t, |i.ps|);
    var n := |i.ps|;
    FrameRep(infos, f, i, env, vals, t, t2.env);
    if f.heap {
      NoParametersNoHeap(i.ps, i.body);
    } else if |t.stack| > n * 2 {
      assert t2.stack[0..0 + n] == Top(t, n);
    } else {
      assert t2.stack[|t.stack| - n..|t.stack| - n + n] == Top(t, n);
    }
  }

  /** The frames that the running procedure sees, its own included when it is on the heap. */
  lemma FrameRep(infos: seq<Info>, f: Procedure, i: Info, env: Env, vals: seq<Val>, t: Thread, menv: MEnv)
    requires f.heap == NeedsHeap(i.ps, i.body) && f.depth == |i.chain| && |vals| == |i.ps| <= |t.stack|
    requires EnvRep(infos, env, i.chain, t.env) && i.chain != []
    requires RelatedAll(Compiled(infos), vals, Top(t, |i.ps|))
    requires menv == if f.heap then Frame(f.depth, Top(t, |i.ps|), t.env) else t.env
    ensures EnvRep(infos, Rib(i.ps, vals, env), ScopesOf(i), menv)
  {
    hide RelatedAll, NeedsHeap, CapturedAll, EnvRep;
    assert ScopesOf(i)[1..] == i.chain;
    FramesDecrease(infos, env, i.chain, t.env);
    RibRep(infos, i.ps, vals, env, ScopesOf(i), menv);
  }

  lemma RibRep(infos: seq<Info>, ps: seq<Name>, vals: seq<Val>, env: Env, scopes: seq<Scope>, menv: MEnv)
    requires scopes != [] && scopes[0].names == ps && |vals| == |ps|
    requires if scopes[0].heap then
               && menv.Frame? && menv.depth == |scopes| - 1 && Decreasing(menv, |scopes|)
               && RelatedAll(Compiled(infos), vals, menv.objects) && EnvRep(infos, env, scopes[1..], menv.prev)
             else EnvRep(infos, env, scopes[1..], menv)
    ensures EnvRep(infos, Rib(ps, vals, env), scopes, menv)
  {
    hide RelatedAll;
  }

  lemma NoParametersNoHeap(ps: seq<Name>, body: seq<Exp>)
    requires NeedsHeap(ps, body)
    ensures |ps| > 0
  {
  }

  /** Every frame a bindmap names exists. */
  lemma {:induction false} BindEnvsOk(infos: seq<Info>, env: Env, scopes: seq<Scope>, menv: MEnv, bindmap: seq<nat>)
    requires EnvRep(infos, env, scopes, menv) && BindmapOk(scopes, bindmap)
    ensures BindEnvs(menv, bindmap).Some?
    ensures forall u {:trigger bindmap[u]} | 0 <= u < |bindmap| ::
              Display(menv, bindmap[u]).Some? && BindEnvs(menv, bindmap).value[u] == EnvRef(Display(menv, bindmap[u]).value)
    decreases |bindmap|
  {
    if bindmap != [] {
      hide EnvRep, Display;
      var frame := DisplayFinds(infos, env, scopes, menv, |scopes| - 1 - bindmap[0]);
      assert BindmapOk(scopes, bindmap[1..]) by {
        forall u {:trigger bindmap[1..][u]} | 0 <= u < |bindmap[1..]|
          ensures bindmap[1..][u] < |scopes| - 1 && scopes[|scopes| - 1 - bindmap[1..][u]].heap
        {
          assert bindmap[1..][u] == bindmap[u + 1];
        }
      }
      BindEnvsOk(infos, env, scopes, menv, bindmap[1..]);
      forall u {:trigger bindmap[u]} | 0 <= u < |bindmap|
        ensures Display(menv, bindmap[u]).Some? && BindEnvs(menv, bindmap).value[u] == EnvRef(Display(menv, bindmap[u]).value)
      {
        if u > 0 {
          assert bindmap[u] == bindmap[1..][u - 1];
        }
      }
    }
  }

  lemma PlaceBindmapOk(infos: seq<Info>, f: Procedure, i: Info, env: Env, t: Thread) returns (t3: Thread)
    requires env.Rib? && EnvRep(infos, env, ScopesOf(i), t.env) && LocalsOk(infos, env.vals, t)
    requires t.bindmap == None && BindmapOk(ScopesOf(i), f.bindmap) && |t.stack| + |f.bindmap| <= STACK_LIMIT
    ensures PlaceBindmap(f, t) == Next(t3) && FrameOk(infos, f, i, env, t3)
    ensures |t3.stack| <= |t.stack| + |f.bindmap|
    ensures t3 == t.(stack := t3.stack, bindmap := t3.bindmap)
  {
    hide RelatedAll, EnvRep, BindmapOk, LocalsOk, BindEnvs;
    t3 := t;
    if f.bindings != [] {
      BindEnvsOk(infos, env, ScopesOf(i), t.env, f.bindmap);
      var refs := BindEnvs(t.env, f.bindmap).value;
      t3 := t.(bindmap := Some(|t.stack|), stack := t.stack + refs);
      LocalsKeep(infos, env.vals, t, refs);
    }
  }

  lemma LocalsKeep(infos: seq<Info>, vals: seq<Val>, t: Thread, refs: seq<Val>)
    requires LocalsOk(infos, vals, t)
    ensures LocalsOk(infos, vals, t.(bindmap := Some(|t.stack|), stack := t.stack + refs))
  {
    hide RelatedAll;
    if t.locals.OnStack? {
      var base, n := t.locals.base, |vals|;
      assert (t.stack + refs)[base..base + n] == t.stack[base..base + n];
    }
  }

  /** Twice the frame, the bindmap and the operands fit the stack, with room for one more. */
  predicate Fits(f: Procedure) { 2 * f.envSize + |f.bindmap| + Peak(f.ops, 0, |f.ops|, 0) + 1 < 512 }

  /** A closure is entered with the frame its parameters describe, in the environment it was made in. */
  lemma EnterOk(M: Image, infos: seq<Info>, fn: nat, v: Val, args: seq<Val>, vals: seq<Val>, t: Thread) returns (t': Thread)
    requires TableOk(M.consts, infos, M.funcs) && fn < |M.funcs| && Fits(M.funcs[fn])
    requires IsCode(infos, fn, v) && fn < |infos| && EnvRep(infos, v.env, infos[fn].chain, t.env)
    requires |args| <= |t.stack| < STACK_LIMIT && RelatedAll(Compiled(infos), args, Top(t, |args|))
    requires Bind(v.ps, v.rest, args) == Some(vals) && t.bindmap == None
    ensures EnterInterp(M, fn, t, |args|) == Next(t')
    ensures t'.call == None && t'.fn == fn && t'.pc == 0 && t'.trace == t.trace
    ensures FrameOk(infos, M.funcs[fn], infos[fn], Rib(v.ps, vals, v.env), t')
    ensures |t'.stack| <= 2 * |v.ps| + |M.funcs[fn].bindmap|
  {
    hide RelatedAll, EnvRep, FrameOk, LocalsOk, Bind, BindmapOk, EmitsAll, PlaceArgs, PlaceBindmap, Swallow;
    var f, i := M.funcs[fn], infos[fn];
    assert ProcedureOk(M.consts, infos, f, i);
    var vals' := RelatedArgs(Compiled(infos), v.ps, v.rest, args, Top(t, |args|));
    var t1 := SwallowBinds(f, v.ps, v.rest, t, |args|);
    SwallowKeeps(f, t, |args|, t1);
    var t1' := t1.(fn := fn, pc := 0, call := None);
    assert Top(t1', |i.ps|) == vals';
    var t2 := PlaceArgsOk(infos, f, i, v.env, vals, t1');
    PlaceArgsKeeps(f, t1', |i.ps|);
    t' := PlaceBindmapOk(infos, f, i, Rib(v.ps, vals, v.env), t2);
  }

  lemma SwallowKeeps(f: Procedure, t: Thread, argc: nat, t1: Thread)
    requires !(if f.swallow then argc < f.argc else argc != f.argc) && argc <= |t.stack|
    requires t1 == (if f.swallow then Swallow(f, t, argc) else t)
    ensures t1 == t.(stack := t1.stack)
  {
  }

  lemma PlaceArgsKeeps(f: Procedure, t: Thread, n: nat)
    requires n <= |t.stack|
    ensures var t2 := PlaceArgs(f, t, n); t2 == t.(stack := t2.stack, env := t2.env, locals := t2.locals)
  {
  }

  lemma PlaceArgsBound(f: Procedure, t: Thread, n: nat)
    requires n <= |t.stack|
    ensures var t2 := PlaceArgs(f, t, n);
            && (if f.heap && n == 0 then t2.stack == t.stack else |t2.stack| <= 2 * n)
            && (t2.locals.OnStack? ==> t2.locals.base + n == |t2.stack|)
            && (f.heap ==> t2.locals.OnHeap?)
  {
  }

  lemma PlaceBindmapBound(f: Procedure, t: Thread, t': Thread)
    requires PlaceBindmap(f, t) == Next(t') && t.bindmap == None
    ensures |t.stack| <= |t'.stack| <= |t.stack| + |f.bindmap| && t' == t.(stack := t'.stack, bindmap := t'.bindmap)
    ensures t'.bindmap.Some? ==> t'.bindmap.value == |t.stack| && t'.bindmap.value + |f.bindmap| == |t'.stack|
  {
    hide BindEnvs;
  }

  /**
   Whatever the stack held before, a compiled procedure starts with at most twice its frame and its bindmap on it, and
   arguments and bindmap lie one above the other.
   */
  lemma StackIsBounded(M: Image, infos: seq<Info>, fn: nat, t: Thread, argc: nat, t': Thread)
    requires TableOk(M.consts, infos, M.funcs) && t.bindmap == None && EnterInterp(M, fn, t, argc) == Next(t')
    ensures fn < |M.funcs| && t'.fn == fn && t'.pc == 0 && t'.call == None
    ensures |t'.stack| <= 2 * M.funcs[fn].envSize + |M.funcs[fn].bindmap|
    ensures t'.locals.OnStack? ==>
              && t'.locals.base + M.funcs[fn].envSize <= |t'.stack|
              && (t'.bindmap.Some? ==> t'.locals.base + M.funcs[fn].envSize <= t'.bindmap.value)
    ensures t'.bindmap.Some? ==> t'.bindmap.value + |M.funcs[fn].bindmap| == |t'.stack|
  {
    hide PlaceArgs, PlaceBindmap, TableOk;
    var f := M.funcs[fn];
    HeapFrameHasSlots(M, infos, fn);
    var t1 := if f.swallow then Swallow(f, t, argc) else t;
    var n := if f.swallow then f.argc + 1 else f.argc;
    assert n <= |t1.stack|;
    var t2 := PlaceArgs(f, t1.(fn := fn, pc := 0, call := None), n);
    PlaceArgsBound(f, t1.(fn := fn, pc := 0, call := None), n);
    PlaceArgsKeeps(f, t1.(fn := fn, pc := 0, call := None), n);
    PlaceBindmapBound(f, t2, t');
  }

  lemma HeapFrameHasSlots(M: Image, infos: seq<Info>, fn: nat)
    requires TableOk(M.consts, infos, M.funcs) && fn < |M.funcs|
    ensures M.funcs[fn].heap ==> M.funcs[fn].envSize > 0
  {
    hide EmitsAll, BindmapOk, CapturedAll;
    assert ProcedureOk(M.consts, infos, M.funcs[fn], infos[fn]);
  }
}

/** Whole runs: the interpreter does what the program in continuation-passing style does. */
module VmRuns {
  import opened Wrappers
  import opened Syntax
  import opened Values
  import opened Meaning
  import opened Machine
  import opened CodeSpec
  import opened CodeDepth
  import opened ValueRelation
  import opened ValueLemmas
  import opened VmFrames
  import opened VmExpressions
  import opened VmEntry

  /** The thread is about to run the code of `e`, with room for it on the stack. */
  ghost predicate AtRep(M: Image, infos: seq<Info>, e: Exp, env: Env, t: Thread) {
    && Ready(M, infos, env, t) && Implemented(M, infos, t, e, t.pc)
    && |t.stack| + Need(e) + 1 <= STACK_LIMIT
  }

  /** `fp` calls the procedure `f`. A bare function stands for the closure over the environment of the thread. */
  ghost predicate CalleeRep(infos: seq<Info>, f: Val, fp: Val, menv: MEnv) {
    || Related(Compiled(infos), f, fp)
    || (fp.Func? && IsCode(infos, fp.fn, f) && EnvRep(infos, f.env, infos[fp.fn].chain, menv))
  }

  /** Native functions may be given a bare function as their continuation. */
  ghost predicate ArgsRep(infos: seq<Info>, f: Val, args: seq<Val>, ws: seq<Val>, menv: MEnv) {
    if f.Builtin? && args != [] then
      |ws| == |args| && CalleeRep(infos, args[0], ws[0], menv) && RelatedAll(Compiled(infos), args[1..], ws[1..])
    else RelatedAll(Compiled(infos), args, ws)
  }

  /** Operands that native functions push before the next procedure is entered. */
  function Slack(f: Val, args: seq<Val>): nat {
    if f.Closure? then 1
    else if f.Builtin? && f.name != "__exit" then (if args != [] && (args[0].Builtin? || args[0].Closure?) then 2 else 1)
    else 0
  }

  /** The thread is about to call `f`. */
  ghost predicate EnterRep(M: Image, infos: seq<Info>, f: Val, args: seq<Val>, t: Thread) {
    && TableOk(M.consts, infos, M.funcs)
    && t.call.Some? && t.call.value.1 == |args| <= |t.stack|
    && CalleeRep(infos, f, t.call.value.0, t.env)
    && ArgsRep(infos, f, args, Top(t, |args|), t.env)
    && |t.stack| + Slack(f, args) <= STACK_LIMIT
  }

  /** No native function returns a native function. */
  ghost predicate Plain(W: World) {
    forall tr, name, args :: W(tr, name, args).Some? ==> !W(tr, name, args).value.DStatic?
  }

  /** What native function `f` returns is no native function, if its continuation is one that calls a continuation. */
  predicate Relays(args: seq<Val>, d: Datum) {
    args != [] && args[0].Builtin? && args[0].name != "__exit" ==> !d.DStatic?
  }

  /** So it is for every native function called in the first `F` turns of a run; then natives do not pile up results. */
  predicate Steady(W: World, c: Config, tr: seq<Event>, F: nat)
    decreases F, if c.At? then 1 else 0, if c.At? then c.e else Call([])
  {
    match c
    case At(If(test, yes, no), env) =>
      (match Triv(test, env)
       case Some(v) => Steady(W, At(if v == Bool(false) then no else yes, env), tr, F)
       case None => true)
    case At(Call(es), env) =>
      (match TrivAll(es, env)
       case Some(vs) => vs == [] || Steady(W, Enter(vs[0], vs[1..]), tr, F)
       case None => true)
    case At(_, _) => true
    case Enter(f, args) =>
      F == 0 ||
      match f
      case Closure(ps, rest, body, env) =>
        (match Bind(ps, rest, args)
         case Some(vals) => |body| == 1 ==> Steady(W, At(body[0], Rib(ps, vals, env)), tr, F - 1)
         case None => true)
      case Builtin(name) =>
        !Returns(name) || args == [] ||
        (match W(tr, name, ObserveAll(args[1..]))
         case Some(d) =>
           Relays(args, d) && Steady(W, Enter(args[0], [DatumVal(d)]), tr + [Event(name, ObserveAll(args[1..]))], F - 1)
         case None => true)
      case _ => true
  }

  /** Where no native function returns a native function, every run is steady. */
  lemma {:induction false} PlainIsSteady(W: World, c: Config, tr: seq<Event>, F: nat)
    requires Plain(W)
    ensures Steady(W, c, tr, F)
    decreases F, if c.At? then 1 else 0, if c.At? then c.e else Call([])
  {
    hide Triv, TrivAll, Bind, IsBuiltin, ChangesCont, ObserveAll;
    match c
    case At(e, env) =>
      if e.If? && Triv(e.test, env).Some? {
        PlainIsSteady(W, At(if Triv(e.test, env).value == Bool(false) then e.no else e.yes, env), tr, F);
      } else if e.Call? && TrivAll(e.es, env).Some? && TrivAll(e.es, env).value != [] {
        var vs := TrivAll(e.es, env).value;
        PlainIsSteady(W, Enter(vs[0], vs[1..]), tr, F);
      }
    case Enter(f, args) =>
      if F == 0 {
      } else if f.Closure? && Bind(f.ps, f.rest, args).Some? && |f.body| == 1 {
        PlainIsSteady(W, At(f.body[0], Rib(f.ps, Bind(f.ps, f.rest, args).value, f.env)), tr, F - 1);
      } else if f.Builtin? && Returns(f.name) && args != [] && W(tr, f.name, ObserveAll(args[1..])).Some? {
        var d := W(tr, f.name, ObserveAll(args[1..])).value;
        PlainIsSteady(W, Enter(args[0], [DatumVal(d)]), tr + [Event(f.name, ObserveAll(args[1..]))], F - 1);
      }
  }

  ghost predicate FitsAll(M: Image) {
    forall k {:trigger M.funcs[k]} | 0 <= k < |M.funcs| :: Fits(M.funcs[k])
  }

  // ----- calls

  lemma FuncCallOk(M: Image, W: World, t: Thread, before: seq<Val>, fp: Val, argc: nat)
    requires t.call == None && t.fn < |M.funcs| && t.pc < |M.funcs[t.fn].ops| && M.funcs[t.fn].ops[t.pc] == FuncCall(argc)
    requires t.stack == before + [fp]
    ensures Steps(M, W, t, 1) == Some(t.(stack := before, pc := t.pc + 1, call := Some((fp, argc))))
  {
    hide Steps;
    assert Top(t, 1) == [fp] && Drop(t, 1) == before;
    OneStep(M, W, t, t.(stack := before, pc := t.pc + 1, call := Some((fp, argc))));
  }

  /** `LOAD_FUNC` for a lambda expression: the closure would have captured the environment the thread keeps. */
  lemma DirectOk(M: Image, W: World, infos: seq<Info>, env: Env, e: Exp, t: Thread) returns (w: Val)
    requires Ready(M, infos, env, t) && t.pc < |M.funcs[t.fn].ops| && |t.stack| < STACK_LIMIT
    requires M.funcs[t.fn].ops[t.pc].LoadFunc? && IsLambda(Here(M, infos, t), M.funcs[t.fn].ops[t.pc].fn, e)
    ensures CalleeRep(infos, Closure(e.ps, e.rest, e.body, env), w, t.env)
    ensures Steps(M, W, t, 1) == Some(After(t, [w], 1))
  {
    hide TableOk, EnvRep, RelatedAll, LocalsOk, BindmapHolds, Push, Steps, Related;
    w := Func(M.funcs[t.fn].ops[t.pc].fn);
    PushStep(M, W, t, w);
  }

  /** The arguments of a call are pushed, a continuation for a native function possibly as a bare function. */
  lemma ArgsOk(M: Image, W: World, infos: seq<Info>, env: Env, es: seq<Exp>, t: Thread, vs: seq<Val>)
    returns (n: nat, ws: seq<Val>)
    requires Ready(M, infos, env, t) && EmitsCall(Here(M, infos, t), es, t.pc) && TrivAll(es, env) == Some(vs) && vs != []
    requires |t.stack| + NeedAll(es[1..]) <= STACK_LIMIT
    ensures ArgsRep(infos, vs[0], vs[1..], ws, t.env) && |ws| == |vs| - 1
    ensures Steps(M, W, t, n) == Some(After(t, ws, LenAll(es[1..])))
  {
    hide Ready, Steps, Related, RelatedAll, Emits, Triv, CalleeRep, IsLambda;
    assert TrivAll(es[1..], env) == Some(vs[1..]);
    ReadyHere(M, infos, env, t);
    if NativeCall(Here(M, infos, t).scopes, es) && M.funcs[t.fn].ops[t.pc].LoadFunc? {
      n, ws := DirectArgsOk(M, W, infos, env, es, t, vs);
    } else {
      n, ws := ExpressionsOk(M, W, infos, env, es[1..], t, vs[1..]);
      RelatedCount(Compiled(infos), vs[1..], ws);
      RelatedArgsRep(infos, vs[0], vs[1..], ws, t.env);
    }
  }

  lemma RelatedArgsRep(infos: seq<Info>, f: Val, args: seq<Val>, ws: seq<Val>, menv: MEnv)
    requires RelatedAll(Compiled(infos), args, ws)
    ensures ArgsRep(infos, f, args, ws, menv)
  {
    hide Related;
  }

  lemma DirectArgsOk(M: Image, W: World, infos: seq<Info>, env: Env, es: seq<Exp>, t: Thread, vs: seq<Val>)
    returns (n: nat, ws: seq<Val>)
    requires Ready(M, infos, env, t) && NativeCall(Here(M, infos, t).scopes, es) && EmitsCall(Here(M, infos, t), es, t.pc)
    requires t.pc < |M.funcs[t.fn].ops| && M.funcs[t.fn].ops[t.pc].LoadFunc?
    requires TrivAll(es, env) == Some(vs) && vs != []
    requires |t.stack| + NeedAll(es[1..]) <= STACK_LIMIT
    ensures ArgsRep(infos, vs[0], vs[1..], ws, t.env) && |ws| == |vs| - 1
    ensures Steps(M, W, t, n) == Some(After(t, ws, LenAll(es[1..])))
  {
    hide Ready, Steps, Related, RelatedAll, EmitsCall, EmitsAll, CalleeRep, IsLambda, NativeCall, Triv, TrivAll, LenAll, NeedAll;
    ReadyHere(M, infos, env, t);
    DirectVals(M, infos, env, es, t, vs);
    DirectCode(Here(M, infos, t), es, t.pc);
    hide TableOk;
    var w := DirectOk(M, W, infos, env, es[1], t);
    var t1 := After(t, [w], 1);
    ReadyKeeps(M, infos, env, t, [w], 1);
    var n2, ws2 := ExpressionsOk(M, W, infos, env, es[2..], t1, vs[2..]);
    RelatedCount(Compiled(infos), vs[2..], ws2);
    n, ws := 1 + n2, [w] + ws2;
    assert vs[1..][1..] == vs[2..] && ws[1..] == ws2;
    assert t.stack + [w] + ws2 == t.stack + ws;
    StepsTrans(M, W, t, 1, t1, n2, After(t, ws, LenAll(es[1..])));
  }

  lemma DirectVals(M: Image, infos: seq<Info>, env: Env, es: seq<Exp>, t: Thread, vs: seq<Val>)
    requires Ready(M, infos, env, t) && NativeCall(Here(M, infos, t).scopes, es) && TrivAll(es, env) == Some(vs)
    ensures |vs| == |es| > 1 && vs[0] == Builtin(es[0].x.s) && es[1].Lam? && vs[1] == Closure(es[1].ps, es[1].rest, es[1].body, env)
    ensures TrivAll(es[2..], env) == Some(vs[2..])
  {
    hide FrameOk, TableOk, IsBuiltin, ChangesCont, Find;
    BuiltinIsFree(M, infos, env, es[0].x, t);
    TrivAllRest(es, env, vs);
    assert Triv(es[0], env) == Some(vs[0]);
    assert Triv(es[1], env) == Some(vs[1]);
  }

  lemma DirectCode(c: Context, es: seq<Exp>, pc: nat)
    requires NativeCall(c.scopes, es) && EmitsCall(c, es, pc) && pc < |c.ops| && c.ops[pc].LoadFunc?
    ensures IsLambda(c, c.ops[pc].fn, es[1]) && EmitsAll(c, es[2..], pc + 1)
    ensures LenAll(es[1..]) == 1 + LenAll(es[2..]) && NeedAll(es[1..]) >= 1 + NeedAll(es[2..])
  {
    hide Emits, EmitsAll, IsLambda, Find, ContSafe;
    assert es[1..][1..] == es[2..] && es[1..][0] == es[1];
    assert EmitsArgs(c, es, pc);
  }

  lemma TrivAllRest(es: seq<Exp>, env: Env, vs: seq<Val>)
    requires |es| > 1 && TrivAll(es, env) == Some(vs)
    ensures |vs| == |es| && TrivAll(es[2..], env) == Some(vs[2..])
  {
    hide Triv;
    assert es[1..][1..] == es[2..];
    var rest := TrivAll(es[1..], env).value;
    assert rest == vs[1..];
    assert TrivAll(es[2..], env) == Some(rest[1..]);
    assert rest[1..] == vs[2..];
  }

  lemma BuiltinIsFree(M: Image, infos: seq<Info>, env: Env, x: Name, t: Thread)
    requires Ready(M, infos, env, t) && Find(Here(M, infos, t).scopes, x).None?
    ensures Lookup(env, x) == None
  {
    hide TableOk, EnvRep, LocalsOk, BindmapHolds;
    FindIsLookup(infos, env, ScopesOf(infos[t.fn]), t.env, x);
  }

  /** The procedure of a call is pushed last. */
  lemma CalleeOk(M: Image, W: World, infos: seq<Info>, env: Env, es: seq<Exp>, pc: nat, t: Thread, v: Val)
    returns (n: nat, fp: Val)
    requires Ready(M, infos, env, t) && EmitsCall(Here(M, infos, t), es, pc) && t.pc == pc + LenAll(es[1..])
    requires Triv(es[0], env) == Some(v) && |t.stack| + Need(es[0]) <= STACK_LIMIT
    ensures CalleeRep(infos, v, fp, t.env)
    ensures Steps(M, W, t, n) == Some(After(t, [fp], Len(es[0])))
  {
    hide Ready, Steps, Related, RelatedAll, Emits, EmitsAll, IsLambda;
    ReadyHere(M, infos, env, t);
    hide TableOk;
    if es[0].Lam? {
      fp := DirectOk(M, W, infos, env, es[0], t);
      n := 1;
    } else {
      hide Triv;
      n, fp := ExpressionOk(M, W, infos, env, es[0], t, v);
    }
  }

  lemma ReadyHere(M: Image, infos: seq<Info>, env: Env, t: Thread)
    requires Ready(M, infos, env, t)
    ensures t.fn < |M.funcs| && t.fn < |infos| && t.call == None && TableOk(M.consts, infos, M.funcs)
  {
    hide TableOk, FrameOk;
  }

  /** Arguments and procedure of a call are pushed. */
  lemma CallPushed(M: Image, W: World, infos: seq<Info>, env: Env, es: seq<Exp>, t: Thread, vs: seq<Val>)
    returns (n: nat, ws: seq<Val>, fp: Val)
    requires Ready(M, infos, env, t) && EmitsCall(Here(M, infos, t), es, t.pc) && TrivAll(es, env) == Some(vs) && vs != []
    requires |t.stack| + NeedAll(es[1..]) <= STACK_LIMIT && |t.stack| + |es| + Need(es[0]) <= STACK_LIMIT
    ensures |ws| == |vs| - 1 == |es| - 1 && CalleeRep(infos, vs[0], fp, t.env) && ArgsRep(infos, vs[0], vs[1..], ws, t.env)
    ensures Steps(M, W, t, n) == Some(t.(stack := t.stack + ws + [fp], pc := t.pc + LenAll(es)))
  {
    hide Ready, Steps, Related, RelatedAll, Emits, EmitsAll, IsLambda, CalleeRep, ArgsRep, Need, NeedAll, EmitsCall;
    ReadyHere(M, infos, env, t);
    assert Triv(es[0], env) == Some(vs[0]);
    hide Triv, TrivAll;
    var n1;
    n1, ws := ArgsOk(M, W, infos, env, es, t, vs);
    var t1 := After(t, ws, LenAll(es[1..]));
    ReadyKeeps(M, infos, env, t, ws, LenAll(es[1..]));
    var n2;
    n2, fp := CalleeOk(M, W, infos, env, es, t.pc, t1, vs[0]);
    StepsTrans(M, W, t, n1, t1, n2, After(t1, [fp], Len(es[0])));
    n := n1 + n2;
  }

  lemma CallOk(M: Image, W: World, infos: seq<Info>, env: Env, es: seq<Exp>, t: Thread, vs: seq<Val>)
    returns (n: nat, t': Thread)
    requires AtRep(M, infos, Call(es), env, t) && TrivAll(es, env) == Some(vs) && vs != []
    ensures Steps(M, W, t, n) == Some(t') && EnterRep(M, infos, vs[0], vs[1..], t') && t'.trace == t.trace
  {
    hide Ready, Steps, Related, RelatedAll, Emits, EmitsAll, IsLambda, CalleeRep, ArgsRep, Slack, Need, NeedAll, Triv, TrivAll, EmitsCall;
    ReadyHere(M, infos, env, t);
    CallImplemented(M, infos, es, t);
    CallRoom(M, infos, es, env, t);
    hide TableOk;
    var n1, ws, fp := CallPushed(M, W, infos, env, es, t, vs);
    var t2 := t.(stack := t.stack + ws + [fp], pc := t.pc + LenAll(es));
    FuncCallIs(Here(M, infos, t), es, t.pc);
    FuncCallOk(M, W, t2, t.stack + ws, fp, |es| - 1);
    t' := t2.(stack := t.stack + ws, pc := t2.pc + 1, call := Some((fp, |es| - 1)));
    StepsTrans(M, W, t, n1, t2, 1, t');
    n := n1 + 1;
    assert Top(t', |ws|) == ws;
    SlackIsSmall(vs[0], vs[1..]);
  }

  lemma SlackIsSmall(f: Val, args: seq<Val>)
    ensures Slack(f, args) <= 2
  {
  }

  lemma CallRoom(M: Image, infos: seq<Info>, es: seq<Exp>, env: Env, t: Thread)
    requires AtRep(M, infos, Call(es), env, t) && es != []
    ensures |t.stack| + NeedAll(es[1..]) <= STACK_LIMIT && |t.stack| + |es| + Need(es[0]) <= STACK_LIMIT
  {
    hide Ready;
  }

  lemma CallImplemented(M: Image, infos: seq<Info>, es: seq<Exp>, t: Thread)
    requires Implemented(M, infos, t, Call(es), t.pc)
    ensures EmitsCall(Here(M, infos, t), es, t.pc)
  {
    hide EmitsCall;
  }

  lemma FuncCallIs(c: Context, es: seq<Exp>, pc: nat)
    requires EmitsCall(c, es, pc)
    ensures pc + LenAll(es) < |c.ops| && c.ops[pc + LenAll(es)] == FuncCall(|es| - 1)
  {
    hide Emits, EmitsAll, IsLambda, DirectCont, Find, LenAll;
  }

  lemma BranchTaken(M: Image, W: World, infos: seq<Info>, env: Env, e: Exp, t: Thread, v1: Val) returns (n: nat, t': Thread)
    requires e.If? && AtRep(M, infos, e, env, t) && Triv(e.test, env) == Some(v1)
    ensures Steps(M, W, t, n) == Some(t') && t'.trace == t.trace
    ensures AtRep(M, infos, if v1 == Bool(false) then e.no else e.yes, env, t')
  {
    hide Ready, Steps, Related, RelatedAll, Emits, Triv;
    IfCode(M, infos, t, e);
    n, t' := TestOk(M, W, infos, env, e, t, v1);
    ReadyKeeps(M, infos, env, t, [], t'.pc - t.pc);
    assert t.stack + [] == t.stack;
  }

  // ----- entering

  lemma EnterClosureOk(M: Image, W: World, infos: seq<Info>, f: Val, args: seq<Val>, vals: seq<Val>, t: Thread)
    returns (t': Thread)
    requires EnterRep(M, infos, f, args, t) && FitsAll(M) && f.Closure?
    requires Bind(f.ps, f.rest, args) == Some(vals) && |f.body| == 1
    ensures Step(M, W, t) == Next(t') && t'.trace == t.trace
    ensures AtRep(M, infos, f.body[0], Rib(f.ps, vals, f.env), t')
  {
    hide RelatedAll, EnvRep, Bind, EnterInterp, FrameOk, BindmapOk, Fits;
    var fp := t.call.value.0;
    var s := if fp.Code? then t.(env := fp.menv, bindmap := None) else t.(bindmap := None);
    assert Top(s, |args|) == Top(t, |args|);
    assert Fits(M.funcs[fp.fn]);
    t' := EnterOk(M, infos, fp.fn, f, args, vals, s);
    BodyImplemented(M, infos, fp.fn, f);
    assert ProcedureOk(M.consts, infos, M.funcs[fp.fn], infos[fp.fn]);
  }

  /** The room that `Fits` leaves is what the body needs. */
  lemma BodyImplemented(M: Image, infos: seq<Info>, fn: nat, f: Val)
    requires TableOk(M.consts, infos, M.funcs) && fn < |M.funcs| && fn < |infos|
    requires f.Closure? && infos[fn].body == f.body && |f.body| == 1
    ensures Emits(ContextOf(M.consts, infos, M.funcs[fn], infos[fn]), f.body[0], 0)
    ensures Fits(M.funcs[fn]) ==> 2 * M.funcs[fn].envSize + |M.funcs[fn].bindmap| + Need(f.body[0]) + 1 <= STACK_LIMIT
  {
    hide Emits, BindmapOk, Peak;
    var p, i := M.funcs[fn], infos[fn];
    assert ProcedureOk(M.consts, infos, p, i);
    var c := ContextOf(M.consts, infos, p, i);
    FirstNeed(c, f.body[0], f.body[1..]);
    assert f.body == [f.body[0]] + f.body[1..];
  }

  lemma FirstNeed(c: Context, e: Exp, rest: seq<Exp>)
    requires rest == [] && Emits(c, e, 0) && |c.ops| == LenAll([e])
    ensures Peak(c.ops, 0, |c.ops|, 0) == Need(e)
  {
    hide Emits;
    PeakIsNeed(c, e, 0, 0);
    assert [e][1..] == [];
  }

  lemma EnterBuiltinOk(M: Image, W: World, infos: seq<Info>, f: Val, args: seq<Val>, t: Thread, d: Datum) returns (t': Thread)
    requires EnterRep(M, infos, f, args, t) && f.Builtin? && args != [] && Returns(f.name)
    requires W(t.trace, f.name, ObserveAll(args[1..])) == Some(d) && Relays(args, d)
    ensures Step(M, W, t) == Next(t') && t'.trace == t.trace + [Event(f.name, ObserveAll(args[1..]))]
    ensures EnterRep(M, infos, args[0], [DatumVal(d)], t')
  {
    hide RelatedAll, EnvRep, IsBuiltin, ChangesCont, TableOk, ObserveAll;
    var w := Top(t, |args|);
    assert t.call.value.0 == f;
    RelatedObserveAll(Compiled(infos), args[1..], w[1..]);
    t' := t.(stack := t.stack + [DatumVal(d)], bindmap := None, call := Some((w[0], 1)),
             trace := t.trace + [Event(f.name, ObserveAll(w[1..]))]);
    assert Dispatch(M, W, t, f, |args|) == Next(t');
    RelatedDatum(Compiled(infos), d);
    assert Top(t', 1) == [DatumVal(d)];
    OneRelated(Compiled(infos), DatumVal(d));
    assert !DatumVal(d).Closure? && (DatumVal(d).Builtin? ==> d.DStatic?);
    assert f.name != "__exit";
  }

  lemma OneRelated(T: Target, v: Val)
    requires Related(T, v, v)
    ensures RelatedAll(T, [v], [v]) && RelatedAll(T, [v][1..], [v][1..])
  {
    hide Related;
    assert [v][1..] == [];
  }

  lemma ExitOk(M: Image, W: World, infos: seq<Info>, args: seq<Val>, t: Thread) returns (w: Val)
    requires EnterRep(M, infos, Builtin("__exit"), args, t) && |args| == 1
    ensures Step(M, W, t) == Halt(w) && Observe(args[0]) == Observe(w)
  {
    hide RelatedAll, EnvRep, IsBuiltin, ChangesCont, TableOk, ObserveAll;
    w := Top(t, 1)[0];
    if Related(Compiled(infos), args[0], w) {
      RelatedObserve(Compiled(infos), args[0], w);
    }
  }

  // ----- runs

  ghost predicate ConfigRep(M: Image, infos: seq<Info>, c: Config, t: Thread) {
    match c
    case At(e, env) => AtRep(M, infos, e, env, t)
    case Enter(f, args) => EnterRep(M, infos, f, args, t)
  }

  /** The interpreter ends as the run does, with the same calls; and it runs on as long as the run does. */
  ghost predicate Mirrors(M: Image, W: World, t: Thread, out: Outcome, F: nat, n: nat) {
    && (out.Running? ==> Interpret(M, W, t, F) == Running)
    && (out.Done? ==> var end := Interpret(M, W, t, n);
                      end.Done? && end.trace == out.trace && Observe(end.v) == Observe(out.v))
  }

  lemma MirrorsAfter(M: Image, W: World, t: Thread, n: nat, t': Thread, out: Outcome, F: nat, F': nat, m: nat)
    requires Steps(M, W, t, n) == Some(t') && Mirrors(M, W, t', out, F', m) && F <= F' + n
    ensures Mirrors(M, W, t, out, F, n + m)
  {
    hide Steps, Observe, Interpret;
    InterpretSteps(M, W, t, n, t', m);
    if out.Running? {
      InterpretSteps(M, W, t, n, t', F');
      RunningLess(M, W, t, n + F', F);
    }
  }

  lemma Simulates(M: Image, W: World, infos: seq<Info>, c: Config, tr: seq<Event>, F: nat, t: Thread) returns (n: nat)
    requires ConfigRep(M, infos, c, t) && t.trace == tr && FitsAll(M) && Steady(W, c, tr, F)
    ensures Mirrors(M, W, t, Run(W, c, tr, F), F, n)
    decreases F, if c.At? then 1 else 0, if c.At? then c.e else Call([])
  {
    hide AtRep, EnterRep, Steps, Mirrors, FitsAll, Steady;
    match c
    case At(e, env) => n := SimulatesAt(M, W, infos, e, env, tr, F, t);
    case Enter(f, args) => n := SimulatesEnter(M, W, infos, f, args, tr, F, t);
  }

  lemma SimulatesAt(M: Image, W: World, infos: seq<Info>, e: Exp, env: Env, tr: seq<Event>, F: nat, t: Thread) returns (n: nat)
    requires AtRep(M, infos, e, env, t) && t.trace == tr && FitsAll(M) && Steady(W, At(e, env), tr, F)
    ensures Mirrors(M, W, t, Run(W, At(e, env), tr, F), F, n)
    decreases F, 1, e, 0
  {
    hide AtRep, EnterRep, Steps, Triv, TrivAll, FitsAll, Interpret;
    n := 0;
    if e.If? && Triv(e.test, env).Some? {
      hide Mirrors;
      var v1 := Triv(e.test, env).value;
      var n1, t1 := BranchTaken(M, W, infos, env, e, t, v1);
      var e1 := if v1 == Bool(false) then e.no else e.yes;
      var m := Simulates(M, W, infos, At(e1, env), tr, F, t1);
      MirrorsAfter(M, W, t, n1, t1, Run(W, At(e1, env), tr, F), F, F, m);
      n := n1 + m;
    } else if e.Call? && TrivAll(e.es, env).Some? && TrivAll(e.es, env).value != [] {
      hide Mirrors;
      var vs := TrivAll(e.es, env).value;
      var n1, t1 := CallOk(M, W, infos, env, e.es, t, vs);
      var m := Simulates(M, W, infos, Enter(vs[0], vs[1..]), tr, F, t1);
      MirrorsAfter(M, W, t, n1, t1, Run(W, Enter(vs[0], vs[1..]), tr, F), F, F, m);
      n := n1 + m;
    }
  }

  lemma SimulatesEnter(M: Image, W: World, infos: seq<Info>, f: Val, args: seq<Val>, tr: seq<Event>, F: nat, t: Thread)
    returns (n: nat)
    requires EnterRep(M, infos, f, args, t) && t.trace == tr && FitsAll(M) && Steady(W, Enter(f, args), tr, F)
    ensures Mirrors(M, W, t, Run(W, Enter(f, args), tr, F), F, n)
    decreases F, 0, Call([]), 0
  {
    hide AtRep, EnterRep, Steps, Bind, IsBuiltin, ChangesCont, FitsAll, Step, ObserveAll, DatumVal;
    n := 0;
    if F == 0 {
    } else if f.Closure? && Bind(f.ps, f.rest, args).Some? && |f.body| == 1 {
      var vals := Bind(f.ps, f.rest, args).value;
      var t1 := EnterClosureOk(M, W, infos, f, args, vals, t);
      OneStep(M, W, t, t1);
      hide Mirrors;
      var c1 := At(f.body[0], Rib(f.ps, vals, f.env));
      var m := Simulates(M, W, infos, c1, tr, F - 1, t1);
      MirrorsAfter(M, W, t, 1, t1, Run(W, c1, tr, F - 1), F, F - 1, m);
      n := 1 + m;
    } else if f.Builtin? && f.name == "__exit" && |args| == 1 {
      var w := ExitOk(M, W, infos, args, t);
      n := 1;
      assert Interpret(M, W, t, 1) == Done(w, tr);
    } else if f.Builtin? && Returns(f.name) && args != [] && W(tr, f.name, ObserveAll(args[1..])).Some? {
      var d := W(tr, f.name, ObserveAll(args[1..])).value;
      var t1 := EnterBuiltinOk(M, W, infos, f, args, t, d);
      OneStep(M, W, t, t1);
      hide Mirrors;
      var tr1 := tr + [Event(f.name, ObserveAll(args[1..]))];
      var c1 := Enter(args[0], [DatumVal(d)]);
      var m := Simulates(M, W, infos, c1, tr1, F - 1, t1);
      MirrorsAfter(M, W, t, 1, t1, Run(W, c1, tr1, F - 1), F, F - 1, m);
      n := 1 + m;
    }
  }

  /**
   A module that implements a program in continuation-passing style runs as the program does: it exits with the same
   value after the same native calls, or runs on.
   */
  lemma ModuleRunsAsProgram(M: Image, W: World, infos: seq<Info>, e: Exp, F: nat) returns (t: Thread, n: nat)
    requires Implements(M, infos, e) && |e.ps| == 1 && !e.rest && |e.body| == 1 && FitsAll(M)
    requires Steady(W, At(e.body[0], Rib(e.ps, [Builtin("__exit")], Empty)), [], F)
    ensures Start(M) == Some(t)
    ensures Mirrors(M, W, t, Run(W, At(e.body[0], Rib(e.ps, [Builtin("__exit")], Empty)), [], F), F, n)
  {
    hide Mirrors, Steady, Run, Bind;
    t := StartOk(M, infos, e);
    n := SimulatesAt(M, W, infos, e.body[0], Rib(e.ps, [Builtin("__exit")], Empty), [], F, t);
  }

  /** The thread that `eval_thread` starts with is in the frame of the entry function. */
  lemma StartReady(M: Image, infos: seq<Info>, e: Exp) returns (t: Thread)
    requires Implements(M, infos, e) && |e.ps| == 1
    ensures Start(M) == Some(t) && Ready(M, infos, Rib(e.ps, [Builtin("__exit")], Empty), t)
    ensures t == Thread(M.entry, 0, [], OnHeap, None, t.env, None, [])
  {
    hide NeedsHeap, EmitsAll, BindmapOk;
    var f, i := M.funcs[M.entry], infos[M.entry];
    assert ProcedureOk(M.consts, infos, f, i);
    NoOuterFrames(i, f.bindmap);
    t := Start(M).value;
    OneRelated(Compiled(infos), Builtin("__exit"));
    assert EnvRep(infos, Empty, [], NoEnv) && EnvRep(infos, Empty, [], t.env);
    assert ScopesOf(i)[1..] == [];
  }

  lemma StartOk(M: Image, infos: seq<Info>, e: Exp) returns (t: Thread)
    requires Implements(M, infos, e) && |e.ps| == 1 && !e.rest && |e.body| == 1 && FitsAll(M)
    ensures Start(M) == Some(t) && t.trace == []
    ensures AtRep(M, infos, e.body[0], Rib(e.ps, [Builtin("__exit")], Empty), t)
  {
    hide Ready, Fits, Emits;
    t := StartReady(M, infos, e);
    assert Fits(M.funcs[M.entry]);
    BodyImplemented(M, infos, M.entry, Closure(e.ps, e.rest, e.body, Empty));
  }

  lemma NoOuterFrames(i: Info, bindmap: seq<nat>)
    requires BindmapOk(ScopesOf(i), bindmap) && i.chain == []
    ensures bindmap == []
  {
    assert First(bindmap) >= 0;
  }

  function First(bindmap: seq<nat>): nat { if bindmap == [] then 0 else bindmap[0] }
}
