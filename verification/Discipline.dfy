/** Converted programs use continuations as continuations only: they never become values of the program. */
module Discipline {
  import opened Wrappers
  import opened Syntax
  import opened Values
  import opened Cps
  import opened Meaning
  import opened ValueRelation
  import opened CpsCorrect
  import opened VmRuns

  // ----- the code

  /** Code that hands on to a continuation in the end; the continuations in scope are the generated names `ks`. */
  predicate Tail(e: Exp, ks: set<nat>)
    decreases e, 1
  {
    match e
    case If(test, yes, no) => Value(test, ks) && Tail(yes, ks) && Tail(no, ks)
    case Call(es) => |es| >= 2 && (TailPass(es, ks) || TailCall(es, ks))
    case _ => false
  }

  /** One value goes to a continuation, or to the binding of a name in front of more code. */
  predicate TailPass(es: seq<Exp>, ks: set<nat>)
    decreases es, 1
  {
    |es| == 2 && Cont(es[0], ks) && Value(es[1], ks)
  }

  /** A procedure of the program is called with its continuation first. */
  predicate TailCall(es: seq<Exp>, ks: set<nat>)
    decreases es, 1
  {
    |es| >= 2 && Value(es[0], ks) && Cont(es[1], ks) && ValueAll(es[2..], ks)
  }

  predicate Cont(e: Exp, ks: set<nat>)
    decreases e, 0
  {
    match e
    case Var(x) => x.Gen? && x.n in ks
    case Lam(ps, rest, body) => |ps| == 1 && ps[0].Gen? && ps[0].n !in ks && !rest && |body| == 1 && Tail(body[0], ks)
    case _ => false
  }

  /** An expression whose value is a value of the program: no continuation is mentioned outside of procedures. */
  predicate Value(e: Exp, ks: set<nat>)
    decreases e, 0
  {
    match e
    case Lit(_) => true
    case Quote(_) => true
    case Var(x) => !(x.Gen? && x.n in ks)
    case Op(_, args) => ValueAll(args, ks)
    case Lam(ps, rest, body) =>
      && ps != [] && ps[0].Gen? && (rest ==> |ps| > 1) && (forall i | 1 <= i < |ps| :: ps[i].User?)
      && |body| == 1 && Tail(body[0], ks + {ps[0].n})
    case _ => false
  }

  predicate ValueAll(es: seq<Exp>, ks: set<nat>)
    decreases es, 0
  {
    es == [] || (Value(es[0], ks) && ValueAll(es[1..], ks))
  }

  // ----- conversion makes such code

  predicate Below(ks: set<nat>, n: nat) { forall k | k in ks :: k < n }

  lemma {:induction false} ReadyIsValue(e: Exp, ks: set<nat>)
    requires SelfEval(e) && Source(e)
    ensures Value(e, ks)
    decreases e, 1
  {
    if e.Op? {
      ReadyAreValues(e.args, ks);
    }
  }

  lemma {:induction false} ReadyAreValues(es: seq<Exp>, ks: set<nat>)
    requires SelfEvalAll(es) && SourceAll(es)
    ensures ValueAll(es, ks)
    decreases es, 0
  {
    if es != [] {
      ReadyIsValue(es[0], ks);
      ReadyAreValues(es[1..], ks);
    }
  }

  /** What code continues with: the rest behind a value name, or a continuation name. */
  predicate Continues(res: Option<Exp>, name: Name, ks: set<nat>) {
    name.Gen? && (if res.None? then name.n in ks else name.n !in ks && Tail(res.value, ks))
  }

  lemma ControlIsCont(res: Option<Exp>, name: Name, ks: set<nat>)
    requires Continues(res, name, ks)
    ensures Cont(Control(res, name), ks)
  {
  }

  lemma DeliverIsTail(res: Option<Exp>, x: Exp, name: Name, ks: set<nat>)
    requires Continues(res, name, ks) && Value(x, ks)
    ensures Tail(Deliver(res, x, name), ks)
  {
    ControlIsCont(res, name, ks);
    hide Value, Cont;
    PassIsTail(Control(res, name), x, ks);
  }

  lemma PassIsTail(k: Exp, x: Exp, ks: set<nat>)
    requires Cont(k, ks) && Value(x, ks)
    ensures Tail(Call([k, x]), ks)
  {
    hide Cont, Value;
    assert TailPass([k, x], ks);
  }

  lemma CallIsTail(f: Exp, k: Exp, args: seq<Exp>, ks: set<nat>)
    requires Value(f, ks) && Cont(k, ks) && ValueAll(args, ks)
    ensures Tail(Call([f, k] + args), ks)
  {
    hide Cont, Value, ValueAll;
    assert ([f, k] + args)[2..] == args;
    assert TailCall([f, k] + args, ks);
  }

  lemma {:induction false} ConvertTail(res: Option<Exp>, e: Exp, name: Name, n: nat, ks: set<nat>)
    requires Continues(res, name, ks) && Source(e) && Below(ks, n)
    ensures Tail(Convert(res, e, name, n).0, ks)
    decreases e, 2
  {
    hide Tail, Value, Continues, Deliver, Control, SelfEval, ConvertLambda;
    if SelfEval(e) {
      ReadyIsValue(e, ks);
      DeliverIsTail(res, e, name, ks);
    } else {
      match e
      case Lit(_) => AtomReady(e);
      case Quote(_) => AtomReady(e);
      case Var(_) => AtomReady(e);
      case Lam(_, _, _) =>
        LambdaIsValue(e, n, ks);
        DeliverIsTail(res, ConvertLambda(e, n).0, name, ks);
      case If(_, _, _) => IfTail(res, e, name, n, ks);
      case Op(op, args) => OpTail(res, op, args, name, n, ks);
      case Call(es) => CallTail(res, es, name, n, ks);
    }
  }

  lemma AtomReady(e: Exp)
    requires e.Lit? || e.Quote? || e.Var?
    ensures SelfEval(e)
  {
  }

  lemma {:induction false} OpTail(res: Option<Exp>, op: Operator, args: seq<Exp>, name: Name, n: nat, ks: set<nat>)
    requires Continues(res, name, ks) && SourceAll(args) && Below(ks, n) && !SelfEval(Op(op, args)) && |args| == Arity(op)
    ensures Tail(Convert(res, Op(op, args), name, n).0, ks)
    decreases args, 1
  {
    var ls, n1 := MapArgs(args, n).0, MapArgs(args, n).1;
    var k := Control(res, name);
    assert Convert(res, Op(op, args), name, n) == Glue(Call([k, Op(op, ls)]), args, ls, n1);
    hide Tail, Value, Continues, Control, SelfEval, Convert, Glue, MapArgs, Cont;
    ElementsAreValues(args, n, ks);
    ControlIsCont(res, name, ks);
    OpIsValue(op, ls, ks);
    PassIsTail(k, Op(op, ls), ks);
    GlueTail(Call([k, Op(op, ls)]), args, ls, n1, n, ks);
  }

  lemma OpIsValue(op: Operator, args: seq<Exp>, ks: set<nat>)
    requires ValueAll(args, ks)
    ensures Value(Op(op, args), ks)
  {
  }

  lemma {:induction false} CallTail(res: Option<Exp>, es: seq<Exp>, name: Name, n: nat, ks: set<nat>)
    requires Continues(res, name, ks) && es != [] && SourceAll(es) && Below(ks, n)
    ensures Tail(Convert(res, Call(es), name, n).0, ks)
    decreases es, 1
  {
    var ls, n1 := MapArgs(es, n).0, MapArgs(es, n).1;
    var k := Control(res, name);
    assert Convert(res, Call(es), name, n) == Glue(Call([ls[0], k] + ls[1..]), es, ls, n1);
    hide Tail, Value, Continues, Control, SelfEval, Convert, Glue, MapArgs, Cont;
    ElementsAreValues(es, n, ks);
    ControlIsCont(res, name, ks);
    CallIsTail(ls[0], k, ls[1..], ks);
    GlueTail(Call([ls[0], k] + ls[1..]), es, ls, n1, n, ks);
  }

  /** Elements with code of their own are named by generated names from `n` on. */
  predicate NamedFrom(es: seq<Exp>, ls: seq<Exp>, n: nat)
    requires |ls| == |es|
  {
    forall i {:trigger ls[i]} | 0 <= i < |ls| && !SelfEval(es[i]) && !es[i].Lam? :: ls[i].Var? && ls[i].x.Gen? && ls[i].x.n >= n
  }

  lemma {:induction false} ElementsAreValues(es: seq<Exp>, n: nat, ks: set<nat>)
    requires SourceAll(es) && Below(ks, n)
    ensures ValueAll(MapArgs(es, n).0, ks) && NamedFrom(es, MapArgs(es, n).0, n)
    decreases es, 0
  {
    hide Value, SelfEval, ConvertLambda, Source;
    if es != [] {
      ElementsAreValues(es[1..], n, ks);
      var ls := MapArgs(es[1..], n);
      var x := if SelfEval(es[0]) then es[0] else if es[0].Lam? then ConvertLambda(es[0], ls.1).0 else Var(Gen(ls.1));
      assert MapArgs(es, n).0 == [x] + ls.0;
      assert ([x] + ls.0)[1..] == ls.0;
      if SelfEval(es[0]) {
        ReadyIsValue(es[0], ks);
      } else if es[0].Lam? {
        LambdaIsValue(es[0], ls.1, ks);
      } else {
        FreshIsValue(ls.1, ks);
      }
    }
  }

  lemma FreshIsValue(n: nat, ks: set<nat>)
    requires Below(ks, n)
    ensures Value(Var(Gen(n)), ks)
  {
  }

  lemma {:induction false} GlueTail(expr: Exp, es: seq<Exp>, ls: seq<Exp>, n: nat, n0: nat, ks: set<nat>)
    requires |ls| == |es| && NamedFrom(es, ls, n0) && Tail(expr, ks) && SourceAll(es) && Below(ks, n0) && n0 <= n
    ensures Tail(Glue(expr, es, ls, n).0, ks)
    decreases es, 0
  {
    hide Tail, SelfEval, Source, Convert;
    if es != [] {
      forall i {:trigger ls[1..][i]} | 0 <= i < |ls[1..]| && !SelfEval(es[1..][i]) && !es[1..][i].Lam?
        ensures ls[1..][i].Var? && ls[1..][i].x.Gen? && ls[1..][i].x.n >= n0
      {
        assert ls[1..][i] == ls[i + 1] && es[1..][i] == es[i + 1];
      }
      GlueTail(expr, es[1..], ls[1..], n, n0, ks);
      var inner := Glue(expr, es[1..], ls[1..], n);
      if !SelfEval(es[0]) && !es[0].Lam? {
        assert ls[0].Var? && ls[0].x.Gen? && ls[0].x.n >= n0;
        ConvertTail(Some(inner.0), es[0], ls[0].x, inner.1, ks);
      }
    }
  }

  lemma {:induction false} IfTail(res: Option<Exp>, e: Exp, name: Name, n: nat, ks: set<nat>)
    requires e.If? && Continues(res, name, ks) && Source(e) && Below(ks, n)
    ensures Tail(Convert(res, e, name, n).0, ks)
    decreases e, 1
  {
    hide Source, SelfEval, Tail, Value, Convert;
    SourceOfIf(e);
    var n1 := if SelfEval(e.test) then n else n + 1;
    var p, y, z, escape := ConvertIfShape(res, e, name, n, n1);
    var inner := if res.None? then ks else ks + {n1};
    ConvertTail(None, e.yes, escape, n1 + 1, inner);
    ConvertTail(None, e.no, escape, y.1, inner);
    if SelfEval(e.test) {
      ReadyIsValue(e.test, inner);
    } else {
      FreshIsValue(n, ks);
      OtherIsValue(n, inner);
    }
    var expr := BranchCode(res, p, y.0, z.0, name, Gen(n1));
    BranchIsTail(res, p, y.0, z.0, name, n1, ks);
    if !SelfEval(e.test) {
      ConvertTail(Some(expr), e.test, Gen(n), z.1, ks);
    }
  }

  lemma SourceOfIf(e: Exp)
    requires e.If? && Source(e)
    ensures Source(e.test) && Source(e.yes) && Source(e.no)
  {
  }

  lemma OtherIsValue(n: nat, ks: set<nat>)
    requires n !in ks
    ensures Value(Var(Gen(n)), ks)
  {
  }

  lemma BranchIsTail(res: Option<Exp>, p: Exp, y: Exp, z: Exp, name: Name, n1: nat, ks: set<nat>)
    requires Continues(res, name, ks)
    requires var inner := if res.None? then ks else ks + {n1}; Value(p, inner) && Tail(y, inner) && Tail(z, inner)
    ensures Tail(BranchCode(res, p, y, z, name, Gen(n1)), ks)
  {
    hide Value;
    var inner := if res.None? then ks else ks + {n1};
    assert Tail(If(p, y, z), inner);
    if res.Some? {
      JoinIsValue(If(p, y, z), n1, ks);
      ControlIsCont(res, name, ks);
      hide Tail, Cont;
      CallIsTail(Lam([Gen(n1)], false, [If(p, y, z)]), Lam([name], false, [res.value]), [], ks);
      var f, k := Lam([Gen(n1)], false, [If(p, y, z)]), Lam([name], false, [res.value]);
      assert [f, k] + [] == [f, k];
    }
  }

  lemma JoinIsValue(c: Exp, n1: nat, ks: set<nat>)
    requires Tail(c, ks + {n1})
    ensures Value(Lam([Gen(n1)], false, [c]), ks)
  {
    hide Tail;
  }

  lemma {:induction false} LambdaIsValue(e: Exp, n: nat, ks: set<nat>)
    requires e.Lam? && Source(e) && Below(ks, n)
    ensures Value(ConvertLambda(e, n).0, ks)
    decreases e, 1
  {
    hide ConvertFrom, Tail;
    BodyIsTail(e.body, e.body[|e.body| - 1], n, n + 1, ks + {n});
    var ps := [Gen(n)] + e.ps;
    forall i | 1 <= i < |ps| ensures ps[i].User? {
      assert ps[i] == e.ps[i - 1];
    }
  }

  lemma {:induction false} BodyIsTail(es: seq<Exp>, last: Exp, k: nat, n: nat, ks: set<nat>)
    requires es != [] && k in ks && SourceAll(es) && Below(ks, n)
    ensures Tail(ConvertFrom(es, last, Gen(k), n).0.value, ks)
    decreases es, 0
  {
    hide Tail, SelfEval, Source, Convert, SameObject;
    var prev := ConvertFrom(es[1..], last, Gen(k), n);
    if |es| > 1 {
      BodyIsTail(es[1..], last, k, n, ks);
    } else {
      assert es[1..] == [];
    }
    var tail := |es| == 1 || SameObject(es[0], last);
    if SelfEval(es[0]) {
      if tail {
        ReadyIsValue(es[0], ks);
        PassIsTail(Var(Gen(k)), es[0], ks);
      }
    } else {
      SameIsReady(es[0], last);
      ConvertTail(prev.0, es[0], if tail then Gen(k) else Gen(prev.1), if tail then prev.1 else prev.1 + 1, ks);
    }
  }

  lemma SameIsReady(x: Exp, y: Exp)
    ensures SameObject(x, y) ==> SelfEval(x)
  {
  }

  // ----- the values

  /** A value of the program: its procedures are made from such code, in environments that keep continuations apart. */
  ghost predicate Good(v: Val)
    decreases Height(v), 1
  {
    match v
    case Pair(a, d) => Good(a) && Good(d)
    case Vector(es) => GoodAll(es)
    case Closure(ps, rest, body, env) => exists ks: set<nat> {:trigger Kept(env, ks)} :: Kept(env, ks) && Value(Lam(ps, rest, body), ks)
    case _ => true
  }

  ghost predicate GoodAll(vs: seq<Val>)
    decreases HeightAll(vs), 0
  {
    vs == [] || (Good(vs[0]) && GoodAll(vs[1..]))
  }

  /** A continuation: `__exit`, or the closure of one. */
  ghost predicate Handles(v: Val)
    decreases Height(v), 1
  {
    || v == Builtin("__exit")
    || (v.Closure? && exists ks: set<nat> {:trigger Kept(v.env, ks)} :: Kept(v.env, ks) && Cont(Lam(v.ps, v.rest, v.body), ks))
  }

  /** The names `ks` are bound to continuations, all others to values of the program. */
  ghost predicate Kept(env: Env, ks: set<nat>)
    decreases EnvHeight(env), 2
  {
    forall x: Name :: KeptAt(env, ks, x)
  }

  ghost predicate KeptAt(env: Env, ks: set<nat>, x: Name)
    decreases EnvHeight(env), 0
  {
    HeightOfLookup(env, x);
    match Lookup(env, x)
    case None => true
    case Some(v) => if x.Gen? && x.n in ks then Handles(v) else Good(v)
  }

  lemma {:induction false} GoodIndex(vs: seq<Val>, i: nat)
    requires GoodAll(vs) && i < |vs|
    ensures Good(vs[i])
    decreases |vs|
  {
    if i > 0 {
      GoodIndex(vs[1..], i - 1);
    }
  }

  lemma {:induction false} GoodSlice(vs: seq<Val>, i: nat)
    requires GoodAll(vs) && i <= |vs|
    ensures GoodAll(vs[..i]) && GoodAll(vs[i..])
    decreases |vs|
  {
    hide Good;
    if i > 0 {
      GoodSlice(vs[1..], i - 1);
      assert vs[..i][1..] == vs[1..][..i - 1] && vs[..i][0] == vs[0];
      assert vs[i..] == vs[1..][i - 1..];
    } else {
      assert vs[0..] == vs && vs[..0] == [];
    }
  }

  lemma {:induction false} GoodList(vs: seq<Val>)
    requires GoodAll(vs)
    ensures Good(ListVal(vs))
    decreases |vs|
  {
    if vs != [] {
      GoodList(vs[1..]);
    }
  }

  lemma {:induction false} GoodDatum(d: Datum)
    ensures Good(DatumVal(d))
    decreases d
  {
    match d
    case DPair(a, b) => GoodDatum(a); GoodDatum(b);
    case DVector(es) => GoodDatums(es);
    case _ =>
  }

  lemma {:induction false} GoodDatums(ds: seq<Datum>)
    ensures GoodAll(DatumVals(ds))
    decreases ds
  {
    if ds != [] {
      GoodDatum(ds[0]);
      GoodDatums(ds[1..]);
    }
  }

  lemma GoodOperate(op: Operator, vs: seq<Val>)
    requires GoodAll(vs) && Operate(op, vs).Some?
    ensures Good(Operate(op, vs).value)
  {
    hide Arithmetic, Test, GoodAll, Immediate;
    GoodIndex(vs, 0);
    if |vs| == 2 {
      GoodIndex(vs, 1);
      if !op.OpCons? && !op.OpEqPtr? {
        ArithmeticGood(op, vs[0].i, vs[1].i);
      }
    }
  }

  lemma ArithmeticGood(op: Operator, a: int, b: int)
    ensures Arithmetic(op, a, b).Some? ==> Good(Arithmetic(op, a, b).value)
  {
    hide Wrap, Quotient, Remainder, Bitwise;
  }

  /** What code for a value computes is a value of the program. */
  lemma {:induction false} TrivGood(e: Exp, ks: set<nat>, env: Env)
    requires Kept(env, ks) && Value(e, ks) && Triv(e, env).Some?
    ensures Good(Triv(e, env).value)
    decreases e, 1
  {
    hide Kept, Operate;
    match e
    case Lit(d) => GoodDatum(d);
    case Quote(d) => GoodDatum(d);
    case Var(x) => KeptVar(env, ks, x);
    case Op(op, args) =>
      TrivAllGood(args, ks, env);
      GoodOperate(op, TrivAll(args, env).value);
    case Lam(_, _, _) =>
  }

  lemma KeptVar(env: Env, ks: set<nat>, x: Name)
    requires Kept(env, ks) && Resolve(env, x).Some?
    ensures if x.Gen? && x.n in ks then Handles(Resolve(env, x).value) else Good(Resolve(env, x).value)
  {
    assert KeptAt(env, ks, x);
  }

  lemma {:induction false} TrivAllGood(es: seq<Exp>, ks: set<nat>, env: Env)
    requires Kept(env, ks) && ValueAll(es, ks) && TrivAll(es, env).Some?
    ensures GoodAll(TrivAll(es, env).value)
    decreases es, 0
  {
    hide Kept, Good, Triv, Value;
    if es != [] {
      TrivGood(es[0], ks, env);
      TrivAllGood(es[1..], ks, env);
      var vs := TrivAll(es, env).value;
      assert vs[1..] == TrivAll(es[1..], env).value;
    }
  }

  lemma TrivHandles(e: Exp, ks: set<nat>, env: Env)
    requires Kept(env, ks) && Cont(e, ks) && Triv(e, env).Some?
    ensures Handles(Triv(e, env).value)
  {
    hide Kept;
    if e.Var? {
      KeptVar(env, ks, e.x);
    }
  }

  // ----- the run

  /** A continuation is given one value, or a procedure its continuation and values. */
  ghost predicate Proper(c: Config) {
    match c
    case At(e, env) => exists ks: set<nat> {:trigger Kept(env, ks)} :: Kept(env, ks) && Tail(e, ks)
    case Enter(f, args) =>
      || (Handles(f) && |args| == 1 && Good(args[0]))
      || (Good(f) && args != [] && Handles(args[0]) && GoodAll(args[1..]))
  }

  lemma ProperCall(es: seq<Exp>, env: Env, ks: set<nat>)
    requires Kept(env, ks) && Tail(Call(es), ks) && TrivAll(es, env).Some?
    ensures var vs := TrivAll(es, env).value; vs != [] && Proper(Enter(vs[0], vs[1..]))
  {
    var vs := TrivAll(es, env).value;
    assert Triv(es[0], env) == Some(vs[0]) && TrivAll(es[1..], env) == Some(vs[1..]);
    assert Triv(es[1], env) == Some(vs[1]) && TrivAll(es[1..][1..], env) == Some(vs[1..][1..]);
    assert es[1..][1..] == es[2..] && vs[1..][1..] == vs[2..];
    hide Triv, TrivAll, Kept, Good, Handles, GoodAll;
    if TailPass(es, ks) {
      TrivHandles(es[0], ks, env);
      TrivGood(es[1], ks, env);
    } else {
      TrivGood(es[0], ks, env);
      TrivHandles(es[1], ks, env);
      TrivAllGood(es[2..], ks, env);
    }
  }

  /** A continuation binds its value. */
  lemma ContEntered(f: Val, v: Val) returns (ks: set<nat>)
    requires f.Closure? && Handles(f) && Good(v)
    ensures Bind(f.ps, f.rest, [v]) == Some([v]) && |f.body| == 1
    ensures Kept(Rib(f.ps, [v], f.env), ks) && Tail(f.body[0], ks)
  {
    ks :| Kept(f.env, ks) && Cont(Lam(f.ps, f.rest, f.body), ks);
    hide Handles, Good, Tail;
    var env := Rib(f.ps, [v], f.env);
    forall x: Name ensures KeptAt(env, ks, x) {
      assert KeptAt(f.env, ks, x);
      if x == f.ps[0] {
        assert Position(f.ps, x) == Some(0);
      } else {
        assert f.ps[..0] == [];
        assert Position(f.ps, x) == None;
      }
    }
  }

  /** A procedure binds its continuation and its arguments. */
  lemma ProcedureEnteredOk(f: Val, args: seq<Val>, vals: seq<Val>) returns (ks: set<nat>)
    requires f.Closure? && Good(f) && args != [] && Handles(args[0]) && GoodAll(args[1..])
    requires Bind(f.ps, f.rest, args) == Some(vals)
    ensures |f.body| == 1 && Kept(Rib(f.ps, vals, f.env), ks) && Tail(f.body[0], ks)
  {
    var ks0: set<nat> :| Kept(f.env, ks0) && Value(Lam(f.ps, f.rest, f.body), ks0);
    ks := ks0 + {f.ps[0].n};
    FrameVals(f.ps, f.rest, args, vals);
    hide Handles, Good, Tail, Bind;
    var env := Rib(f.ps, vals, f.env);
    forall x: Name ensures KeptAt(env, ks, x) {
      assert KeptAt(f.env, ks0, x);
      FrameVar(f.ps, vals, x);
    }
  }

  lemma FrameVals(ps: seq<Name>, rest: bool, args: seq<Val>, vals: seq<Val>)
    requires ps != [] && (rest ==> |ps| > 1) && args != [] && Handles(args[0]) && GoodAll(args[1..])
    requires Bind(ps, rest, args) == Some(vals)
    ensures |vals| == |ps| && Handles(vals[0]) && forall i | 1 <= i < |vals| :: Good(vals[i])
  {
    hide Good, Handles, GoodAll, ListVal;
    forall i | 1 <= i < |args| ensures Good(args[i]) {
      GoodIndex(args[1..], i - 1);
      assert args[1..][i - 1] == args[i];
    }
    if rest {
      var n := |ps| - 1;
      GoodSlice(args[1..], n - 1);
      assert args[1..][n - 1..] == args[n..];
      GoodList(args[n..]);
    }
  }

  /** Where a name of a frame is found: the continuation first, the parameters behind it. */
  lemma FrameVar(ps: seq<Name>, vals: seq<Val>, x: Name)
    requires ps != [] && |vals| == |ps| && ps[0].Gen? && forall i | 1 <= i < |ps| :: ps[i].User?
    ensures if x == ps[0] then Position(ps, x) == Some(0)
            else if x.Gen? then Position(ps, x) == None
            else Position(ps, x).Some? ==> Position(ps, x).value > 0
  {
    if x == ps[0] {
      FirstPosition(ps, x);
    }
  }

  lemma {:induction false} FirstPosition(ps: seq<Name>, x: Name)
    requires ps != [] && ps[0] == x && forall i | 1 <= i < |ps| :: ps[i] != x
    ensures Position(ps, x) == Some(0)
    decreases |ps|
  {
    if |ps| > 1 {
      FirstPosition(ps[..|ps| - 1], x);
    }
  }

  /** So native functions hand on to `__exit` or to closures only, and do not pile up results. */
  lemma {:induction false} ProperIsSteady(W: World, c: Config, tr: seq<Event>, F: nat)
    requires Proper(c)
    ensures Steady(W, c, tr, F)
    decreases F, if c.At? then 1 else 0, if c.At? then c.e else Call([])
  {
    hide Triv, TrivAll, Bind, IsBuiltin, ChangesCont, ObserveAll, Good, Handles, GoodAll, Kept, Value;
    match c
    case At(e, env) =>
      var ks: set<nat> :| Kept(env, ks) && Tail(e, ks);
      if e.If? && Triv(e.test, env).Some? {
        ProperIsSteady(W, At(if Triv(e.test, env).value == Bool(false) then e.no else e.yes, env), tr, F);
      } else if e.Call? && TrivAll(e.es, env).Some? {
        ProperCall(e.es, env, ks);
        var vs := TrivAll(e.es, env).value;
        ProperIsSteady(W, Enter(vs[0], vs[1..]), tr, F);
      }
    case Enter(f, args) => EntrySteady(W, f, args, tr, F);
  }

  lemma {:induction false} EntrySteady(W: World, f: Val, args: seq<Val>, tr: seq<Event>, F: nat)
    requires Proper(Enter(f, args))
    ensures Steady(W, Enter(f, args), tr, F)
    decreases F, 0, Call([]), 0
  {
    hide Bind, IsBuiltin, ChangesCont, ObserveAll, Good, Handles, GoodAll, Kept, Value, Tail;
    if F == 0 {
    } else if f.Closure? && Bind(f.ps, f.rest, args).Some? && |f.body| == 1 {
      var vals := Bind(f.ps, f.rest, args).value;
      var ks;
      if Handles(f) && |args| == 1 && Good(args[0]) {
        assert args == [args[0]];
        ks := ContEntered(f, args[0]);
      } else {
        ks := ProcedureEnteredOk(f, args, vals);
      }
      ProperIsSteady(W, At(f.body[0], Rib(f.ps, vals, f.env)), tr, F - 1);
    } else if f.Builtin? && Returns(f.name) && args != [] && W(tr, f.name, ObserveAll(args[1..])).Some? {
      var d := W(tr, f.name, ObserveAll(args[1..])).value;
      GoodDatum(d);
      NativeHandsOn(f, args);
      ProperIsSteady(W, Enter(args[0], [DatumVal(d)]), tr + [Event(f.name, ObserveAll(args[1..]))], F - 1);
    }
  }

  lemma NativeHandsOn(f: Val, args: seq<Val>)
    requires Proper(Enter(f, args)) && f.Builtin? && f.name != "__exit"
    ensures args != [] && Handles(args[0]) && (args[0].Builtin? ==> args[0].name == "__exit")
  {
    hide Kept, Cont;
  }

  /** A converted program, given `__exit`, runs steadily whatever native functions return. */
  lemma ConvertedIsSteady(W: World, e: Exp, b: Exp, F: nat)
    requires e.Lam? && Source(e) && CpsConvert(e) == Lam([Gen(0)], false, [b])
    ensures Steady(W, At(b, Rib([Gen(0)], [Builtin("__exit")], Empty)), [], F)
  {
    hide Steady, Tail, Source, ConvertLambda;
    LambdaIsValue(e, 0, {});
    var env := Rib([Gen(0)], [Builtin("__exit")], Empty);
    var ks: set<nat> := {} + {0};
    assert Tail(b, ks);
    forall x: Name ensures KeptAt(env, ks, x) {
      if x == Gen(0) {
        FirstPosition([Gen(0)], x);
        assert Lookup(env, x) == Some(Builtin("__exit")) && Handles(Builtin("__exit"));
      } else {
        assert [Gen(0)][..0] == [];
        assert Position([Gen(0)], x) == None;
        assert Lookup(env, x) == None;
      }
    }
    assert Kept(env, ks);
    ProperIsSteady(W, At(b, env), [], F);
  }
}
