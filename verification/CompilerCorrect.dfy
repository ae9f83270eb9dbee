/** What compilation does to the records of the enclosing procedures. */
module CompilerState {
  import opened Wrappers
  import opened Syntax
  import opened Values
  import opened Machine
  import opened CodeSpec
  import opened Compiler

  /** The records describe these scopes. Whether a frame is on the heap is only known when its procedure is finished. */
  predicate Matches(envs: seq<Scoped>, scopes: seq<Scope>) {
    && |envs| == |scopes|
    && forall i {:trigger envs[i]} {:trigger scopes[i]} | 0 <= i < |envs| ::
         envs[i].names == scopes[i].names && envs[i].depth == |envs| - 1 - i
  }

  lemma MatchesRest(envs: seq<Scoped>, scopes: seq<Scope>)
    requires Matches(envs, scopes) && envs != []
    ensures forall i {:trigger envs[1..][i]} | 0 <= i < |envs[1..]| ::
              envs[1..][i].names == scopes[1..][i].names && envs[1..][i].depth == |envs[1..]| - 1 - i
    ensures Matches(envs[1..], scopes[1..])
  {
    forall i {:trigger envs[1..][i]} | 0 <= i < |envs[1..]|
      ensures envs[1..][i].names == scopes[1..][i].names && envs[1..][i].depth == |envs[1..]| - 1 - i
    {
      assert envs[1..][i] == envs[i + 1] && scopes[1..][i] == scopes[i + 1];
    }
  }

  lemma {:induction false} SearchIsFind(envs: seq<Scoped>, scopes: seq<Scope>, x: Name)
    requires Matches(envs, scopes)
    ensures Search(envs, x) == Find(scopes, x)
    decreases |envs|
  {
    if envs != [] {
      MatchesRest(envs, scopes);
      SearchIsFind(envs[1..], scopes[1..], x);
      assert envs[0].names == scopes[0].names;
    }
  }

  // ----- which frames go to the heap

  /** One of the names in `xs` is found `i` procedures out. */
  predicate Touches(scopes: seq<Scope>, xs: set<Name>, i: nat) {
    exists x {:trigger Find(scopes, x)} :: x in xs && Find(scopes, x).Some? && Find(scopes, x).value.0 == i
  }

  /** The flag of each record is raised if and only if a name that needs its frame is used. */
  predicate Raised(envs: seq<Scoped>, envs': seq<Scoped>, scopes: seq<Scope>, free: set<Name>, captured: set<Name>) {
    && Matches(envs', scopes) && |envs'| == |envs|
    && forall i {:trigger envs'[i]} | 0 <= i < |envs'| ::
         && envs'[i].onheap == (envs[i].onheap || Touches(scopes, if i == 0 then captured else free, i))
         && envs'[i].rest == envs[i].rest
  }

  lemma TouchesUnion(scopes: seq<Scope>, xs: set<Name>, ys: set<Name>, i: nat)
    ensures Touches(scopes, xs + ys, i) == (Touches(scopes, xs, i) || Touches(scopes, ys, i))
  {
    hide Find;
  }

  lemma RaisedTrans(a: seq<Scoped>, b: seq<Scoped>, c: seq<Scoped>, scopes: seq<Scope>, free: set<Name>, captured: set<Name>,
                    free': set<Name>, captured': set<Name>)
    requires Raised(a, b, scopes, free, captured) && Raised(b, c, scopes, free', captured')
    ensures Raised(a, c, scopes, free + free', captured + captured')
  {
    hide Touches, Matches;
    forall i {:trigger c[i]} | 0 <= i < |c|
      ensures c[i].onheap == (a[i].onheap || Touches(scopes, if i == 0 then captured + captured' else free + free', i))
              && c[i].rest == a[i].rest
    {
      assert b[i].rest == a[i].rest;
      if i == 0 {
        TouchesUnion(scopes, captured, captured', 0);
      } else {
        TouchesUnion(scopes, free, free', i);
      }
    }
  }

  lemma RaisedNone(envs: seq<Scoped>, scopes: seq<Scope>)
    requires Matches(envs, scopes)
    ensures Raised(envs, envs, scopes, {}, {})
  {
  }

  lemma RaisedVar(envs: seq<Scoped>, st: Store, scopes: seq<Scope>, x: Name)
    requires Matches(envs, scopes) && EnvLookup(envs, st, x).Some?
    ensures Raised(envs, EnvLookup(envs, st, x).value.1, scopes, {x}, {})
  {
    SearchIsFind(envs, scopes, x);
    hide Find, Search, Matches;
    var envs' := EnvLookup(envs, st, x).value.1;
    assert Matches(envs', scopes) by {
      LookupKeepsMatch(envs, st, scopes, x);
    }
    forall i {:trigger envs'[i]} | 0 <= i < |envs'|
      ensures envs'[i].onheap == (envs[i].onheap || Touches(scopes, if i == 0 then {} else {x}, i))
              && envs'[i].rest == envs[i].rest
    {
      TouchesOne(scopes, x, i);
      assert !Touches(scopes, {}, i);
    }
  }

  lemma TouchesOne(scopes: seq<Scope>, x: Name, i: nat)
    ensures Touches(scopes, {x}, i) == (Find(scopes, x).Some? && Find(scopes, x).value.0 == i)
  {
    hide Find;
  }

  lemma LookupKeepsMatch(envs: seq<Scoped>, st: Store, scopes: seq<Scope>, x: Name)
    requires Matches(envs, scopes) && EnvLookup(envs, st, x).Some?
    ensures Matches(EnvLookup(envs, st, x).value.1, scopes)
  {
    hide Search, Intern;
    var envs' := EnvLookup(envs, st, x).value.1;
    forall i {:trigger envs'[i]} {:trigger scopes[i]} | 0 <= i < |envs'|
      ensures envs'[i].names == scopes[i].names && envs'[i].depth == |envs'| - 1 - i
    {
      assert envs[i].names == scopes[i].names;
    }
  }

  /** The scopes inside a procedure. */
  function Inside(e: Exp, scopes: seq<Scope>): seq<Scope>
    requires e.Lam?
  {
    [Scope(e.ps, NeedsHeap(e.ps, e.body))] + scopes
  }

  lemma MatchesInside(e: Exp, envs: seq<Scoped>, scopes: seq<Scope>)
    requires Matches(envs, scopes) && e.Lam?
    ensures Matches([Scoped(e.ps, e.rest, |envs|, false, [], [])] + envs, Inside(e, scopes))
  {
    hide NeedsHeap;
    var envs1, scopes1 := [Scoped(e.ps, e.rest, |envs|, false, [], [])] + envs, Inside(e, scopes);
    forall i {:trigger envs1[i]} {:trigger scopes1[i]} | 0 <= i < |envs1|
      ensures envs1[i].names == scopes1[i].names && envs1[i].depth == |envs1| - 1 - i
    {
      if i > 0 {
        assert envs1[i] == envs[i - 1] && scopes1[i] == scopes[i - 1];
      }
    }
  }

  lemma FindInside(e: Exp, scopes: seq<Scope>, x: Name)
    requires e.Lam?
    ensures x in e.ps ==> Find(Inside(e, scopes), x).Some? && Find(Inside(e, scopes), x).value.0 == 0
    ensures x !in e.ps ==>
              Find(Inside(e, scopes), x) == match Find(scopes, x) case None => None case Some((k, slot)) => Some((k + 1, slot))
  {
    hide NeedsHeap;
    assert Inside(e, scopes)[1..] == scopes;
    if x !in e.ps {
      assert Position(e.ps, x).None?;
    } else {
      PositionIn(e.ps, x);
    }
  }

  lemma PositionIn(names: seq<Name>, x: Name)
    requires x in names
    ensures Position(names, x).Some?
  {
  }

  /** Seen from outside, the body of a procedure uses its free variables without the parameters. */
  lemma TouchesInside(e: Exp, scopes: seq<Scope>, i: nat)
    requires e.Lam?
    ensures Touches(Inside(e, scopes), FreeAll(e.body), i + 1) == Touches(scopes, Free(e), i)
    ensures Touches(Inside(e, scopes), CapturedAll(e.body), 0) == NeedsHeap(e.ps, e.body)
  {
    hide Find, Inside, CapturedAll, FreeAll;
    var inner := Inside(e, scopes);
    if Touches(inner, FreeAll(e.body), i + 1) {
      var x :| x in FreeAll(e.body) && Find(inner, x).Some? && Find(inner, x).value.0 == i + 1;
      FindInside(e, scopes, x);
      assert x in Free(e);
    }
    if Touches(scopes, Free(e), i) {
      var x :| x in Free(e) && Find(scopes, x).Some? && Find(scopes, x).value.0 == i;
      FindInside(e, scopes, x);
    }
    if Touches(inner, CapturedAll(e.body), 0) {
      var x :| x in CapturedAll(e.body) && Find(inner, x).Some? && Find(inner, x).value.0 == 0;
      FindInside(e, scopes, x);
    }
    if NeedsHeap(e.ps, e.body) {
      var k :| 0 <= k < |e.ps| && e.ps[k] in CapturedAll(e.body);
      FindInside(e, scopes, e.ps[k]);
    }
  }

  lemma RaisedInside(e: Exp, envs: seq<Scoped>, inner: seq<Scoped>, scopes: seq<Scope>)
    requires e.Lam? && Matches(envs, scopes)
    requires Raised([Scoped(e.ps, e.rest, |envs|, false, [], [])] + envs, inner, Inside(e, scopes), FreeAll(e.body), CapturedAll(e.body))
    ensures inner != [] && Raised(envs, inner[1..], scopes, Free(e), Captured(e))
    ensures inner[0].onheap == NeedsHeap(e.ps, e.body) && inner[0].names == e.ps && inner[0].rest == e.rest
    ensures inner[0].depth == |envs|
  {
    hide Touches, NeedsHeap, FreeAll, CapturedAll, Inside;
    var envs1 := [Scoped(e.ps, e.rest, |envs|, false, [], [])] + envs;
    TouchesInside(e, scopes, 0);
    assert inner[0].onheap == NeedsHeap(e.ps, e.body);
    MatchesRest(inner, Inside(e, scopes));
    InsideRest(e, scopes);
    forall i {:trigger inner[1..][i]} | 0 <= i < |inner[1..]|
      ensures inner[1..][i].onheap == (envs[i].onheap || Touches(scopes, if i == 0 then Captured(e) else Free(e), i))
              && inner[1..][i].rest == envs[i].rest
    {
      assert inner[1..][i] == inner[i + 1] && envs1[i + 1] == envs[i];
      TouchesInside(e, scopes, i);
    }
  }

  lemma InsideRest(e: Exp, scopes: seq<Scope>)
    requires e.Lam?
    ensures Inside(e, scopes) != [] && Inside(e, scopes)[1..] == scopes && Inside(e, scopes)[0].names == e.ps
  {
  }

  /**
   A frame is put on the heap if and only if a lambda expression inside its procedure uses one of its parameters, in the
   sense of static scoping.
   */
  lemma {:induction false} CompileRaises(e: Exp, envs: seq<Scoped>, st: Store, scopes: seq<Scope>)
    requires Matches(envs, scopes) && Compile(e, envs, st).Some?
    ensures Raised(envs, Compile(e, envs, st).value.envs, scopes, Free(e), Captured(e))
    decreases e, 1
  {
    hide Raised, Matches;
    match e
    case Lit(_) => RaisedNone(envs, scopes);
    case Quote(_) => RaisedNone(envs, scopes);
    case Var(x) => RaisedVar(envs, st, scopes, x);
    case Op(_, args) => CompileAllRaises(args, envs, st, scopes);
    case Lam(ps, rest, body) =>
      var envs1 := [Scoped(ps, rest, |envs|, false, [], [])] + envs;
      MatchesInside(e, envs, scopes);
      CompileAllRaises(body, envs1, st, Inside(e, scopes));
      RaisedInside(e, envs, CompileAll(body, envs1, st).value.envs, scopes);
    case If(test, yes, no) =>
      var p := Compile(test, envs, st).value;
      CompileRaises(test, envs, st, scopes);
      RaisedMatches(envs, p.envs, scopes, Free(test), Captured(test));
      var y := Compile(yes, p.envs, p.st).value;
      CompileRaises(yes, p.envs, p.st, scopes);
      RaisedMatches(p.envs, y.envs, scopes, Free(yes), Captured(yes));
      CompileRaises(no, y.envs, y.st, scopes);
      RaisedTrans(envs, p.envs, y.envs, scopes, Free(test), Captured(test), Free(yes), Captured(yes));
      RaisedTrans(envs, y.envs, Compile(no, y.envs, y.st).value.envs, scopes, Free(test) + Free(yes),
                  Captured(test) + Captured(yes), Free(no), Captured(no));
    case Call(es) =>
      var f := Compile(es[0], envs, st).value;
      CompileRaises(es[0], envs, st, scopes);
      RaisedMatches(envs, f.envs, scopes, Free(es[0]), Captured(es[0]));
      CompileAllRaises(es[1..], f.envs, f.st, scopes);
      RaisedTrans(envs, f.envs, CompileAll(es[1..], f.envs, f.st).value.envs, scopes, Free(es[0]), Captured(es[0]),
                  FreeAll(es[1..]), CapturedAll(es[1..]));
  }

  lemma RaisedMatches(envs: seq<Scoped>, envs': seq<Scoped>, scopes: seq<Scope>, free: set<Name>, captured: set<Name>)
    requires Raised(envs, envs', scopes, free, captured)
    ensures Matches(envs', scopes)
  {
  }

  lemma {:induction false} CompileAllRaises(es: seq<Exp>, envs: seq<Scoped>, st: Store, scopes: seq<Scope>)
    requires Matches(envs, scopes) && CompileAll(es, envs, st).Some?
    ensures Raised(envs, CompileAll(es, envs, st).value.envs, scopes, FreeAll(es), CapturedAll(es))
    decreases es, 0
  {
    hide Raised, Matches;
    if es == [] {
      RaisedNone(envs, scopes);
    } else {
      var x := Compile(es[0], envs, st).value;
      CompileRaises(es[0], envs, st, scopes);
      RaisedMatches(envs, x.envs, scopes, Free(es[0]), Captured(es[0]));
      CompileAllRaises(es[1..], x.envs, x.st, scopes);
      RaisedTrans(envs, x.envs, CompileAll(es[1..], x.envs, x.st).value.envs, scopes, Free(es[0]), Captured(es[0]),
                  FreeAll(es[1..]), CapturedAll(es[1..]));
    }
  }
}

/** Compiled code implements its source. */
module CompilerCode {
  import opened Wrappers
  import opened Syntax
  import opened Values
  import opened Cps
  import opened Machine
  import opened CodeSpec
  import opened Compiler
  import opened CompilerState

  // ----- code is kept when the tables grow, and may be moved

  lemma SameOpsPart(ops: seq<Instr>, pc: nat, ops': seq<Instr>, pc': nat, len: nat, at: nat, n: nat)
    requires SameOps(ops, pc, ops', pc', len) && at + n <= len
    ensures SameOps(ops, pc + at, ops', pc' + at, n)
  {
  }

  lemma SameOpsAt(ops: seq<Instr>, pc: nat, ops': seq<Instr>, pc': nat, len: nat, at: nat)
    requires SameOps(ops, pc, ops', pc', len) && at < len
    ensures pc + at < |ops| && pc' + at < |ops'| && ops'[pc' + at] == ops[pc + at]
  {
  }

  lemma {:induction false} EmitsLift(c: Context, c': Context, e: Exp, pc: nat, pc': nat)
    requires Grows(c, c') && SameOps(c.ops, pc, c'.ops, pc', Len(e)) && Emits(c, e, pc)
    ensures Emits(c', e, pc')
    decreases e, 1
  {
    hide SameOps, Find;
    SameOpsAt(c.ops, pc, c'.ops, pc', Len(e), Len(e) - 1);
    SameOpsAt(c.ops, pc, c'.ops, pc', Len(e), 0);
    match e
    case Lit(_) =>
    case Quote(_) =>
    case Var(_) =>
    case Lam(_, _, _) =>
    case Op(_, args) =>
      SameOpsPart(c.ops, pc, c'.ops, pc', Len(e), 0, LenAll(args));
      EmitsAllLift(c, c', args, pc, pc');
    case If(test, yes, no) =>
      IfLift(c, c', e, pc, pc');
    case Call(es) =>
      CallLift(c, c', es, pc, pc');
  }

  lemma {:induction false} IfLift(c: Context, c': Context, e: Exp, pc: nat, pc': nat)
    requires Grows(c, c') && SameOps(c.ops, pc, c'.ops, pc', Len(e)) && EmitsIf(c, e, pc)
    ensures EmitsIf(c', e, pc')
    decreases e, 0
  {
    hide SameOps, Emits, Grows;
    var a, b, d := Len(e.test), Len(e.yes), Len(e.no);
    SameOpsAt(c.ops, pc, c'.ops, pc', Len(e), Len(e) - 1);
    SameOpsAt(c.ops, pc, c'.ops, pc', Len(e), a);
    SameOpsAt(c.ops, pc, c'.ops, pc', Len(e), a + 1 + b);
    SameOpsPart(c.ops, pc, c'.ops, pc', Len(e), 0, a);
    SameOpsPart(c.ops, pc, c'.ops, pc', Len(e), a + 1, b);
    SameOpsPart(c.ops, pc, c'.ops, pc', Len(e), a + 1 + b + 1, d);
    EmitsLift(c, c', e.test, pc, pc');
    EmitsLift(c, c', e.yes, pc + a + 1, pc' + a + 1);
    EmitsLift(c, c', e.no, pc + a + 1 + b + 1, pc' + a + 1 + b + 1);
  }

  lemma {:induction false} EmitsAllLift(c: Context, c': Context, es: seq<Exp>, pc: nat, pc': nat)
    requires Grows(c, c') && SameOps(c.ops, pc, c'.ops, pc', LenAll(es)) && EmitsAll(c, es, pc)
    ensures EmitsAll(c', es, pc')
    decreases es, 0
  {
    hide SameOps, Emits, Grows;
    if es != [] {
      var n := Len(es[0]);
      SameOpsPart(c.ops, pc, c'.ops, pc', LenAll(es), 0, n);
      SameOpsPart(c.ops, pc, c'.ops, pc', LenAll(es), n, LenAll(es[1..]));
      EmitsLift(c, c', es[0], pc, pc');
      EmitsAllLift(c, c', es[1..], pc + n, pc' + n);
    }
  }

  /** The parts of a call's code: where its operator is, and how long the rest is. */
  lemma CallParts(es: seq<Exp>)
    requires es != []
    ensures LenAll(es) == Len(es[0]) + LenAll(es[1..])
    ensures |es| > 1 ==> LenAll(es[1..]) == Len(es[1]) + LenAll(es[2..])
  {
    if |es| > 1 {
      assert es[1..][1..] == es[2..];
    }
  }

  lemma LambdaLift(c: Context, c': Context, fn: nat, e: Exp)
    requires Grows(c, c') && IsLambda(c, fn, e)
    ensures IsLambda(c', fn, e)
  {
  }

  lemma {:induction false} ArgsLift(c: Context, c': Context, es: seq<Exp>, pc: nat, pc': nat)
    requires es != [] && Grows(c, c') && SameOps(c.ops, pc, c'.ops, pc', LenAll(es[1..])) && EmitsArgs(c, es, pc)
    ensures EmitsArgs(c', es, pc')
    decreases es, 0
  {
    hide SameOps, Emits, EmitsAll, Find, LenAll, IsLambda;
    if NativeCall(c.scopes, es) {
      CallParts(es);
      SameOpsAt(c.ops, pc, c'.ops, pc', LenAll(es[1..]), 0);
    }
    if NativeCall(c.scopes, es) && c.ops[pc].LoadFunc? {
      SameOpsPart(c.ops, pc, c'.ops, pc', LenAll(es[1..]), 1, LenAll(es[2..]));
      EmitsAllLift(c, c', es[2..], pc + 1, pc' + 1);
      LambdaLift(c, c', c.ops[pc].fn, es[1]);
    } else {
      EmitsAllLift(c, c', es[1..], pc, pc');
    }
  }

  lemma {:induction false} OperatorLift(c: Context, c': Context, es: seq<Exp>, pc: nat, pc': nat)
    requires es != [] && Grows(c, c') && SameOps(c.ops, pc, c'.ops, pc', Len(es[0])) && EmitsOperator(c, es, pc)
    ensures EmitsOperator(c', es, pc')
    decreases es, 0
  {
    hide SameOps, Emits, EmitsAll, Find, LenAll, IsLambda;
    if es[0].Lam? {
      SameOpsAt(c.ops, pc, c'.ops, pc', Len(es[0]), 0);
      LambdaLift(c, c', c.ops[pc].fn, es[0]);
    } else {
      EmitsLift(c, c', es[0], pc, pc');
    }
  }

  lemma {:induction false} CallLift(c: Context, c': Context, es: seq<Exp>, pc: nat, pc': nat)
    requires Grows(c, c') && SameOps(c.ops, pc, c'.ops, pc', LenAll(es) + 1) && EmitsCall(c, es, pc)
    ensures EmitsCall(c', es, pc')
    decreases es, 1
  {
    hide SameOps, EmitsArgs, EmitsOperator, LenAll;
    var n := LenAll(es) + 1;
    var a := LenAll(es[1..]);
    CallParts(es);
    SameOpsAt(c.ops, pc, c'.ops, pc', n, LenAll(es));
    SameOpsPart(c.ops, pc, c'.ops, pc', n, 0, a);
    SameOpsPart(c.ops, pc, c'.ops, pc', n, a, Len(es[0]));
    ArgsLift(c, c', es, pc, pc');
    OperatorLift(c, c', es, pc + a, pc' + a);
  }

  // ----- what the compiler keeps

  /** The form of programs in continuation-passing style: what is called is a lambda expression or calls nothing itself. */
  predicate Direct(e: Exp) {
    match e
    case Lit(_) => true
    case Quote(_) => true
    case Var(_) => true
    case Op(_, args) => DirectAll(args)
    case Lam(_, _, body) => DirectAll(body)
    case If(test, yes, no) => Direct(test) && Direct(yes) && Direct(no)
    case Call(es) => es != [] && (es[0].Lam? || SelfEval(es[0])) && DirectAll(es)
  }

  predicate DirectAll(es: seq<Exp>) {
    es == [] || (Direct(es[0]) && DirectAll(es[1..]))
  }

  /** The native functions, of those that leave the continuation alone, that parameters hide. */
  function Hidden(ps: seq<Name>): set<Name> { set x | x in ps && ContSafe(x) }

  function HiddenIn(scopes: seq<Scope>): set<Name> {
    if scopes == [] then {} else Hidden(scopes[0].names) + HiddenIn(scopes[1..])
  }

  /**
   Somewhere in `e` a call of a parameter is mistaken for the call of the native function that it hides: the guard of
   the compiler's shortcut asks for the name only.
   */
  predicate Mistaken(e: Exp, hidden: set<Name>) {
    match e
    case Lit(_) => false
    case Quote(_) => false
    case Var(_) => false
    case Op(_, args) => MistakenAll(args, hidden)
    case Lam(ps, _, body) => MistakenAll(body, Hidden(ps) + hidden)
    case If(test, yes, no) => Mistaken(test, hidden) || Mistaken(yes, hidden) || Mistaken(no, hidden)
    case Call(es) => (DirectCont(es) && es[0].x in hidden) || MistakenAll(es, hidden)
  }

  predicate MistakenAll(es: seq<Exp>, hidden: set<Name>) {
    es != [] && (Mistaken(es[0], hidden) || MistakenAll(es[1..], hidden))
  }

  /** The tables of a record being compiled. */
  predicate TablesOk(env: Scoped, scopes: seq<Scope>) {
    && (env.bindings == [] <==> env.bindmap == [])
    && BindmapOk(scopes, env.bindmap)
  }

  predicate Valid(envs: seq<Scoped>, st: Store, infos: seq<Info>, scopes: seq<Scope>) {
    && Matches(envs, scopes) && TableOk(st.consts, infos, st.funcs)
    && (envs != [] ==> TablesOk(envs[0], scopes))
  }

  /** Tables only grow, and those of outer procedures stay as they are. */
  predicate Extended(envs: seq<Scoped>, st: Store, infos: seq<Info>, envs': seq<Scoped>, st': Store, infos': seq<Info>) {
    && |envs'| == |envs| && st.consts <= st'.consts && infos <= infos'
    && (envs != [] ==> envs[0].bindings <= envs'[0].bindings && envs[0].bindmap <= envs'[0].bindmap)
    && forall i {:trigger envs'[i]} | 1 <= i < |envs| ::
         envs'[i].bindings == envs[i].bindings && envs'[i].bindmap == envs[i].bindmap
  }

  lemma ExtendedTrans(a: seq<Scoped>, s: Store, i: seq<Info>, a': seq<Scoped>, s': Store, i': seq<Info>, a2: seq<Scoped>, s2: Store,
                      i2: seq<Info>)
    requires Extended(a, s, i, a', s', i') && Extended(a', s', i', a2, s2, i2)
    ensures Extended(a, s, i, a2, s2, i2)
  {
    forall k {:trigger a2[k]} | 1 <= k < |a| ensures a2[k].bindings == a[k].bindings && a2[k].bindmap == a[k].bindmap {
      assert a'[k].bindings == a[k].bindings;
    }
  }

  function ContextFor(scopes: seq<Scope>, envs: seq<Scoped>, st: Store, infos: seq<Info>, code: seq<Instr>): Context {
    Context(scopes, st.consts, infos, if envs == [] then [] else envs[0].bindings, if envs == [] then [] else envs[0].bindmap, code)
  }

  function OutContext(scopes: seq<Scope>, out: Out, infos: seq<Info>): Context {
    ContextFor(scopes, out.envs, out.st, infos, out.code)
  }

  /** Code compiled earlier, in place in longer code compiled later. */
  lemma LiftOut(scopes: seq<Scope>, out: Out, infos: seq<Info>, e: Exp, envs': seq<Scoped>, st': Store, infos': seq<Info>,
                code: seq<Instr>, at: nat)
    requires Emits(OutContext(scopes, out, infos), e, 0) && |out.code| == Len(e)
    requires Extended(out.envs, out.st, infos, envs', st', infos')
    requires at + |out.code| <= |code| && code[at..at + |out.code|] == out.code
    ensures Emits(ContextFor(scopes, envs', st', infos', code), e, at)
  {
    hide Emits;
    SliceSame(out.code, code, at);
    EmitsLift(OutContext(scopes, out, infos), ContextFor(scopes, envs', st', infos', code), e, 0, at);
  }

  lemma LiftAllOut(scopes: seq<Scope>, out: Out, infos: seq<Info>, es: seq<Exp>, envs': seq<Scoped>, st': Store, infos': seq<Info>,
                   code: seq<Instr>, at: nat)
    requires EmitsAll(OutContext(scopes, out, infos), es, 0) && |out.code| == LenAll(es)
    requires Extended(out.envs, out.st, infos, envs', st', infos')
    requires at + |out.code| <= |code| && code[at..at + |out.code|] == out.code
    ensures EmitsAll(ContextFor(scopes, envs', st', infos', code), es, at)
  {
    hide EmitsAll;
    SliceSame(out.code, code, at);
    EmitsAllLift(OutContext(scopes, out, infos), ContextFor(scopes, envs', st', infos', code), es, 0, at);
  }

  lemma SliceSame(part: seq<Instr>, code: seq<Instr>, at: nat)
    requires at + |part| <= |code| && code[at..at + |part|] == part
    ensures SameOps(part, 0, code, at, |part|)
  {
    forall k {:trigger part[k]} | 0 <= k < 0 + |part| ensures code[at + k - 0] == part[k] {
      assert code[at..at + |part|][k] == code[at + k];
    }
  }

  lemma ProcedureGrows(consts: seq<Datum>, infos: seq<Info>, f: Procedure, i: Info, consts': seq<Datum>, infos': seq<Info>)
    requires ProcedureOk(consts, infos, f, i) && consts <= consts' && infos <= infos'
    ensures ProcedureOk(consts', infos', f, i)
  {
    hide EmitsAll, BindmapOk, NeedsHeap;
    SliceSame(f.ops, f.ops, 0);
    EmitsAllLift(ContextOf(consts, infos, f, i), ContextOf(consts', infos', f, i), i.body, 0, 0);
  }

  lemma TableGrows(consts: seq<Datum>, infos: seq<Info>, funcs: seq<Procedure>, consts': seq<Datum>)
    requires TableOk(consts, infos, funcs) && consts <= consts'
    ensures TableOk(consts', infos, funcs)
  {
    hide ProcedureOk;
    forall k {:trigger infos[k]} {:trigger funcs[k]} | 0 <= k < |funcs| ensures ProcedureOk(consts', infos, funcs[k], infos[k]) {
      ProcedureGrows(consts, infos, funcs[k], infos[k], consts', infos);
    }
  }

  /** A finished procedure joins the table. */
  lemma TablePush(consts: seq<Datum>, infos: seq<Info>, funcs: seq<Procedure>, f: Procedure, i: Info)
    requires TableOk(consts, infos, funcs) && ProcedureOk(consts, infos + [i], f, i)
    ensures TableOk(consts, infos + [i], funcs + [f])
  {
    hide ProcedureOk;
    var infos', funcs' := infos + [i], funcs + [f];
    forall k {:trigger infos'[k]} {:trigger funcs'[k]} | 0 <= k < |funcs'| ensures ProcedureOk(consts, infos', funcs'[k], infos'[k]) {
      if k < |funcs| {
        assert infos'[k] == infos[k] && funcs'[k] == funcs[k];
        ProcedureGrows(consts, infos, funcs[k], infos[k], consts, infos');
      }
    }
  }

  // ----- frames

  /** The frames that the given names need are on the heap. */
  predicate Covers(scopes: seq<Scope>, free: set<Name>, captured: set<Name>) {
    && (forall x {:trigger Find(scopes, x)} | x in free && Find(scopes, x).Some? ::
          Find(scopes, x).value.0 == 0 || scopes[Find(scopes, x).value.0].heap)
    && (forall x {:trigger Find(scopes, x)} | x in captured && Find(scopes, x).Some? ::
          Find(scopes, x).value.0 != 0 || scopes[0].heap)
  }

  lemma CoversLess(scopes: seq<Scope>, free: set<Name>, captured: set<Name>, free': set<Name>, captured': set<Name>)
    requires Covers(scopes, free, captured) && free' <= free && captured' <= captured
    ensures Covers(scopes, free', captured')
  {
    hide Find;
  }

  lemma CoversInside(e: Exp, scopes: seq<Scope>)
    requires e.Lam? && Covers(scopes, Free(e), Captured(e))
    ensures Covers(Inside(e, scopes), FreeAll(e.body), CapturedAll(e.body))
  {
    hide Find, FreeAll, CapturedAll;
    var inner := Inside(e, scopes);
    forall x {:trigger Find(inner, x)} | x in FreeAll(e.body) && Find(inner, x).Some?
      ensures Find(inner, x).value.0 == 0 || inner[Find(inner, x).value.0].heap
    {
      FindInside(e, scopes, x);
      if x !in e.ps {
        assert x in Free(e) && x in Captured(e);
      }
    }
    forall x {:trigger Find(inner, x)} | x in CapturedAll(e.body) && Find(inner, x).Some?
      ensures Find(inner, x).value.0 != 0 || inner[0].heap
    {
      FindInside(e, scopes, x);
    }
  }

  /** A native function is found by static scoping if and only if a parameter hides it. */
  lemma {:induction false} FoundIffHidden(scopes: seq<Scope>, x: Name)
    requires ContSafe(x)
    ensures Find(scopes, x).Some? <==> x in HiddenIn(scopes)
    decreases |scopes|
  {
    hide ContSafe;
    if scopes != [] {
      FoundIffHidden(scopes[1..], x);
      if x in scopes[0].names {
        PositionIn(scopes[0].names, x);
      }
    }
  }

  // ----- variables and constants

  lemma ConstKeeps(envs: seq<Scoped>, st: Store, infos: seq<Info>, scopes: seq<Scope>, d: Datum)
    requires Valid(envs, st, infos, scopes)
    ensures Valid(envs, MakeConst(st, d).0, infos, scopes)
    ensures Extended(envs, st, infos, envs, MakeConst(st, d).0, infos)
    ensures forall code: seq<Instr> :: IsConst(ContextFor(scopes, envs, MakeConst(st, d).0, infos, code), LoadConst(MakeConst(st, d).1), d)
  {
    hide Matches, TablesOk, TableOk;
    TableGrows(st.consts, infos, st.funcs, MakeConst(st, d).0.consts);
  }

  /** `env-bind` makes the binding it is asked for, and keeps the tables in order. */
  lemma EnvBindOk(env: Scoped, scopes: seq<Scope>, step: nat, slot: nat)
    requires TablesOk(env, scopes) && 1 <= step < |scopes| && scopes[step].heap
    ensures var (env', b) := EnvBind(env, |scopes| - 1 - step, slot);
            && TablesOk(env', scopes) && env.bindings <= env'.bindings && env.bindmap <= env'.bindmap
            && env' == env.(bindings := env'.bindings, bindmap := env'.bindmap)
            && b < |env'.bindings| && env'.bindings[b].1 == slot
            && env'.bindings[b].0 < |env'.bindmap| && env'.bindmap[env'.bindings[b].0] == |scopes| - 1 - step
  {
    hide Intern, IndexOf;
    var up: nat := |scopes| - 1 - step;
    var (bindmap, m) := Intern<nat>(env.bindmap, up);
    InternOne<nat>(env.bindmap, up);
    InternOne<(nat, nat)>(env.bindings, (m, slot));
    BindmapAdd(scopes, env.bindmap, step);
    assert BindmapOk(scopes, bindmap);
    var (bindings, b) := Intern<(nat, nat)>(env.bindings, (m, slot));
    assert EnvBind(env, up, slot) == (env.(bindmap := bindmap, bindings := bindings), b);
  }

  lemma BindmapAdd(scopes: seq<Scope>, bindmap: seq<nat>, step: nat)
    requires BindmapOk(scopes, bindmap) && 1 <= step < |scopes| && scopes[step].heap
    ensures BindmapOk(scopes, bindmap + [|scopes| - 1 - step])
  {
    var bindmap' := bindmap + [|scopes| - 1 - step];
    forall u {:trigger bindmap'[u]} | 0 <= u < |bindmap'|
      ensures bindmap'[u] < |scopes| - 1 && scopes[|scopes| - 1 - bindmap'[u]].heap
    {
      if u < |bindmap| {
        assert bindmap'[u] == bindmap[u];
      }
    }
  }

  lemma InternOne<T>(xs: seq<T>, x: T)
    ensures Intern(xs, x).0 == xs || Intern(xs, x).0 == xs + [x]
  {
  }

  lemma LookupOk(envs: seq<Scoped>, st: Store, infos: seq<Info>, scopes: seq<Scope>, x: Name, place: Place, envs': seq<Scoped>,
                 st': Store)
    requires Valid(envs, st, infos, scopes) && EnvLookup(envs, st, x) == Some((place, envs', st'))
    requires Covers(scopes, {x}, {})
    ensures Valid(envs', st', infos, scopes) && Extended(envs, st, infos, envs', st', infos)
    ensures IsVar(ContextFor(scopes, envs', st', infos, [VarCode(place)]), VarCode(place), x)
  {
    hide TableOk, TablesOk, Matches, Find, Search, EnvBind, IsBuiltin;
    SearchIsFind(envs, scopes, x);
    LookupKeepsMatch(envs, st, scopes, x);
    if Find(scopes, x).None? {
      ConstKeeps(envs, st, infos, scopes, DStatic(x.s));
    } else if Find(scopes, x).value.0 > 0 {
      var (step, slot) := Find(scopes, x).value;
      MatchesAt(envs, scopes, step);
      var envs1 := envs[step := envs[step].(onheap := true)];
      EnvBindOk(envs1[0], scopes, step, slot);
    }
  }

  lemma MatchesAt(envs: seq<Scoped>, scopes: seq<Scope>, i: nat)
    requires Matches(envs, scopes) && i < |envs|
    ensures |scopes| == |envs| && envs[i].depth == |scopes| - 1 - i
  {
  }

  lemma ExtendedNone(envs: seq<Scoped>, st: Store, infos: seq<Info>)
    ensures Extended(envs, st, infos, envs, st, infos)
  {
  }

  // ----- procedures

  /** The finished procedure of a lambda expression is entered in the table under the index its code loads. */
  lemma LambdaOk(e: Exp, envs: seq<Scoped>, scopes: seq<Scope>, b: Out, infos: seq<Info>) returns (infos': seq<Info>)
    requires e.Lam? && (e.rest ==> e.ps != []) && Matches(envs, scopes)
    requires |b.envs| == |envs| + 1 && Valid(b.envs, b.st, infos, Inside(e, scopes))
    requires Raised([Scoped(e.ps, e.rest, |envs|, false, [], [])] + envs, b.envs, Inside(e, scopes), FreeAll(e.body), CapturedAll(e.body))
    requires EmitsAll(OutContext(Inside(e, scopes), b, infos), e.body, 0) && |b.code| == LenAll(e.body)
    ensures infos <= infos' && Matches(b.envs[1..], scopes)
    ensures TableOk(b.st.consts, infos', b.st.funcs + [MakeFunc(b.code, b.envs[0])])
    ensures |infos'| == |b.st.funcs| + 1 && infos'[|b.st.funcs|] == Info(e.ps, e.rest, e.body, scopes)
  {
    hide EmitsAll, NeedsHeap, Matches, TableOk, BindmapOk, Raised, FreeAll, CapturedAll;
    var i := Info(e.ps, e.rest, e.body, scopes);
    var f := MakeFunc(b.code, b.envs[0]);
    infos' := infos + [i];
    TableSize(b.st.consts, infos, b.st.funcs);
    RaisedInside(e, envs, b.envs, scopes);
    RaisedMatches(envs, b.envs[1..], scopes, Free(e), Captured(e));
    MatchesCount(envs, scopes);
    ExtendedNone(b.envs, b.st, infos);
    SliceSame(b.code, b.code, 0);
    EmitsAllLift(OutContext(Inside(e, scopes), b, infos), ContextOf(b.st.consts, infos', f, i), e.body, 0, 0);
    TablePush(b.st.consts, infos, b.st.funcs, f, i);
  }

  lemma TableSize(consts: seq<Datum>, infos: seq<Info>, funcs: seq<Procedure>)
    requires TableOk(consts, infos, funcs)
    ensures |infos| == |funcs|
  {
  }

  lemma MatchesCount(envs: seq<Scoped>, scopes: seq<Scope>)
    requires Matches(envs, scopes)
    ensures |scopes| == |envs|
  {
  }

  /** The records around a lambda expression, after its body was compiled. */
  lemma OuterExtended(e: Exp, envs: seq<Scoped>, st: Store, infos: seq<Info>, b: Out, infos1: seq<Info>, infos': seq<Info>,
                      scopes: seq<Scope>, f: Procedure)
    requires |b.envs| == |envs| + 1 && infos1 <= infos' && Matches(b.envs[1..], scopes)
    requires Extended([Scoped([], false, 0, false, [], [])] + envs, st, infos, [Scoped([], false, 0, false, [], [])] + b.envs[1..], b.st, infos1)
    requires Valid(envs, st, infos, scopes) && TableOk(b.st.consts, infos', b.st.funcs + [f])
    ensures Valid(b.envs[1..], b.st.(funcs := b.st.funcs + [f]), infos', scopes)
    ensures Extended(envs, st, infos, b.envs[1..], b.st.(funcs := b.st.funcs + [f]), infos')
  {
    hide TableOk, Matches, BindmapOk;
    var nobody := Scoped([], false, 0, false, [], []);
    forall i {:trigger b.envs[1..][i]} | 0 <= i < |envs|
      ensures b.envs[1..][i].bindings == envs[i].bindings && b.envs[1..][i].bindmap == envs[i].bindmap
    {
      assert ([nobody] + b.envs[1..])[i + 1] == b.envs[1..][i] && ([nobody] + envs)[i + 1] == envs[i];
    }
  }

  // ----- calls

  /** Ready expressions do not begin with the creation of a closure. */
  lemma {:induction false} ReadyCode(c: Context, e: Exp, pc: nat)
    requires Emits(c, e, pc) && SelfEval(e)
    ensures pc < |c.ops| && !c.ops[pc].LoadClosure?
    decreases e
  {
    match e
    case Op(_, args) =>
      hide SelfEvalAll;
      FirstReady(args);
      assert Emits(c, args[0], pc);
      ReadyCode(c, args[0], pc);
    case Var(x) => hide Find;
    case Lit(_) =>
    case Quote(_) =>
  }

  lemma FirstReady(es: seq<Exp>)
    requires SelfEvalAll(es) && es != []
    ensures SelfEval(es[0])
  {
  }

  /** The operator's code, possibly rewritten, in place. */
  lemma OperatorOk(scopes: seq<Scope>, f: Out, infos: seq<Info>, es: seq<Exp>, envs': seq<Scoped>, st': Store, infos': seq<Info>,
                   func: seq<Instr>, code: seq<Instr>, at: nat)
    requires es != [] && (es[0].Lam? || SelfEval(es[0]))
    requires Emits(OutContext(scopes, f, infos), es[0], 0) && |f.code| == Len(es[0])
    requires Extended(f.envs, f.st, infos, envs', st', infos')
    requires func == (if IsLambdaCall(f.code) then RewriteFunc(f.code) else f.code)
    requires at + |func| <= |code| && code[at..at + |func|] == func
    ensures |func| == Len(es[0]) && EmitsOperator(ContextFor(scopes, envs', st', infos', code), es, at)
  {
    if es[0].Lam? {
      assert code[at..at + |func|][0] == code[at];
    } else {
      ReadyCode(OutContext(scopes, f, infos), es[0], 0);
      hide Emits;
      LiftOut(scopes, f, infos, es[0], envs', st', infos', code, at);
    }
  }

  /** The arguments' code, its first instruction possibly rewritten, at the beginning of the call. */
  lemma ArgsOk(scopes: seq<Scope>, a: Out, infos: seq<Info>, es: seq<Exp>, args: seq<Instr>, code: seq<Instr>)
    requires es != [] && (DirectCont(es) ==> es[0].x !in HiddenIn(scopes))
    requires EmitsAll(OutContext(scopes, a, infos), es[1..], 0) && |a.code| == LenAll(es[1..])
    requires args == (if DirectCont(es) then RewriteFunc(a.code) else a.code)
    requires |args| <= |code| && code[..|args|] == args
    ensures |args| == |a.code| && EmitsArgs(ContextFor(scopes, a.envs, a.st, infos, code), es, 0)
  {
    hide Find, EmitsAll, ContSafe, Extended;
    assert code[0..0 + |args|] == args;
    ExtendedNone(a.envs, a.st, infos);
    if DirectCont(es) {
      DirectArgsOk(scopes, a, infos, es, args, code);
    } else {
      hide HiddenIn;
      LiftAllOut(scopes, a, infos, es[1..], a.envs, a.st, infos, code, 0);
    }
  }

  lemma FirstOfAll(c: Context, es: seq<Exp>, pc: nat)
    requires EmitsAll(c, es, pc) && es != []
    ensures Emits(c, es[0], pc) && EmitsAll(c, es[1..], pc + Len(es[0]))
  {
  }

  lemma ClosureCode(c: Context, e: Exp, pc: nat)
    requires Emits(c, e, pc) && e.Lam?
    ensures pc < |c.ops| && c.ops[pc].LoadClosure? && IsLambda(c, c.ops[pc].fn, e) && Len(e) == 1
  {
  }

  lemma DirectArgsOk(scopes: seq<Scope>, a: Out, infos: seq<Info>, es: seq<Exp>, args: seq<Instr>, code: seq<Instr>)
    requires DirectCont(es) && es[0].x !in HiddenIn(scopes)
    requires EmitsAll(OutContext(scopes, a, infos), es[1..], 0) && |a.code| == LenAll(es[1..])
    requires args == RewriteFunc(a.code) && |args| <= |code| && code[..|args|] == args
    ensures |args| == |a.code| && EmitsArgs(ContextFor(scopes, a.envs, a.st, infos, code), es, 0)
  {
    hide Find, EmitsAll, Emits, ContSafe, HiddenIn;
    var c := OutContext(scopes, a, infos);
    FoundIffHidden(scopes, es[0].x);
    FirstOfAll(c, es[1..], 0);
    assert es[1..][1..] == es[2..] && es[1..][0] == es[1];
    ClosureCode(c, es[1], 0);
    CallParts(es);
    assert code[..|args|][0] == code[0];
    forall k {:trigger a.code[k]} | 1 <= k < 1 + LenAll(es[2..]) ensures code[1 + k - 1] == a.code[k] {
      assert code[..|args|][k] == code[k];
    }
    EmitsAllLift(c, ContextFor(scopes, a.envs, a.st, infos, code), es[2..], 1, 1);
  }

  // ----- whole programs

  /** The code of `e` implements it, in these scopes and with the tables reached. */
  ghost predicate Done(scopes: seq<Scope>, envs: seq<Scoped>, st: Store, infos: seq<Info>, out: Out, infos': seq<Info>) {
    Valid(out.envs, out.st, infos', scopes) && Extended(envs, st, infos, out.envs, out.st, infos')
  }

  lemma DoneTrans(scopes: seq<Scope>, envs: seq<Scoped>, st: Store, infos: seq<Info>, x: Out, infos1: seq<Info>, y: Out,
                  infos2: seq<Info>)
    requires Done(scopes, envs, st, infos, x, infos1) && Done(scopes, x.envs, x.st, infos1, y, infos2)
    ensures Done(scopes, envs, st, infos, y, infos2)
  {
    hide Valid, Extended;
    ExtendedTrans(envs, st, infos, x.envs, x.st, infos1, y.envs, y.st, infos2);
  }

  lemma CompileOk(e: Exp, envs: seq<Scoped>, st: Store, scopes: seq<Scope>, infos: seq<Info>, out: Out) returns (infos': seq<Info>)
    requires Compile(e, envs, st) == Some(out) && Valid(envs, st, infos, scopes)
    requires Covers(scopes, Free(e), Captured(e)) && !Mistaken(e, HiddenIn(scopes)) && Direct(e)
    ensures Done(scopes, envs, st, infos, out, infos')
    ensures |out.code| == Len(e) && Emits(OutContext(scopes, out, infos'), e, 0)
    decreases e, 2
  {
    hide Valid, Extended, Covers, Mistaken, SelfEval, IsBuiltin;
    match e
    case Lit(d) =>
      infos' := infos;
      ConstKeeps(envs, st, infos, scopes, d);
      ExtendedNone(envs, st, infos);
    case Quote(d) =>
      infos' := infos;
      ConstKeeps(envs, st, infos, scopes, d);
      ExtendedNone(envs, st, infos);
    case Var(x) =>
      infos' := infos;
      var (place, envs', st') := EnvLookup(envs, st, x).value;
      LookupOk(envs, st, infos, scopes, x, place, envs', st');
    case Op(_, _) => infos' := CompileOpOk(e, envs, st, scopes, infos, out);
    case Lam(_, _, _) => infos' := CompileLamOk(e, envs, st, scopes, infos, out);
    case If(_, _, _) => infos' := CompileIfOk(e, envs, st, scopes, infos, out);
    case Call(_) => infos' := CompileCallOk(e, envs, st, scopes, infos, out);
  }

  lemma CompileAllOk(es: seq<Exp>, envs: seq<Scoped>, st: Store, scopes: seq<Scope>, infos: seq<Info>, out: Out)
    returns (infos': seq<Info>)
    requires CompileAll(es, envs, st) == Some(out) && Valid(envs, st, infos, scopes)
    requires Covers(scopes, FreeAll(es), CapturedAll(es)) && !MistakenAll(es, HiddenIn(scopes)) && DirectAll(es)
    ensures Done(scopes, envs, st, infos, out, infos')
    ensures |out.code| == LenAll(es) && EmitsAll(OutContext(scopes, out, infos'), es, 0)
    decreases es, 0
  {
    hide Valid, Extended, Covers, Mistaken, HiddenIn, Direct, Emits, Compile;
    if es == [] {
      infos' := infos;
      ExtendedNone(envs, st, infos);
    } else {
      var x := Compile(es[0], envs, st).value;
      var rest := CompileAll(es[1..], x.envs, x.st).value;
      CoversLess(scopes, FreeAll(es), CapturedAll(es), Free(es[0]), Captured(es[0]));
      CoversLess(scopes, FreeAll(es), CapturedAll(es), FreeAll(es[1..]), CapturedAll(es[1..]));
      var infos1 := CompileOk(es[0], envs, st, scopes, infos, x);
      infos' := CompileAllOk(es[1..], x.envs, x.st, scopes, infos1, rest);
      DoneTrans(scopes, envs, st, infos, x, infos1, out, infos');
      var n := |x.code|;
      assert out.code[0..0 + n] == x.code && out.code[n..n + |rest.code|] == rest.code;
      LiftOut(scopes, x, infos1, es[0], out.envs, out.st, infos', out.code, 0);
      ExtendedNone(rest.envs, rest.st, infos');
      LiftAllOut(scopes, rest, infos', es[1..], out.envs, out.st, infos', out.code, n);
    }
  }

  lemma CompileOpOk(e: Exp, envs: seq<Scoped>, st: Store, scopes: seq<Scope>, infos: seq<Info>, out: Out) returns (infos': seq<Info>)
    requires e.Op? && Compile(e, envs, st) == Some(out) && Valid(envs, st, infos, scopes)
    requires Covers(scopes, Free(e), Captured(e)) && !Mistaken(e, HiddenIn(scopes)) && Direct(e)
    ensures Done(scopes, envs, st, infos, out, infos')
    ensures |out.code| == Len(e) && Emits(OutContext(scopes, out, infos'), e, 0)
    decreases e, 1
  {
    hide Valid, Extended, Covers, MistakenAll, HiddenIn, DirectAll, EmitsAll, CompileAll, FreeAll, CapturedAll;
    var a := CompileAll(e.args, envs, st).value;
    infos' := CompileAllOk(e.args, envs, st, scopes, infos, a);
    assert out.code[0..0 + |a.code|] == a.code;
    ExtendedNone(a.envs, a.st, infos');
    LiftAllOut(scopes, a, infos', e.args, out.envs, out.st, infos', out.code, 0);
  }

  lemma CompileLamOk(e: Exp, envs: seq<Scoped>, st: Store, scopes: seq<Scope>, infos: seq<Info>, out: Out) returns (infos': seq<Info>)
    requires e.Lam? && Compile(e, envs, st) == Some(out) && Valid(envs, st, infos, scopes)
    requires Covers(scopes, Free(e), Captured(e)) && !Mistaken(e, HiddenIn(scopes)) && Direct(e)
    ensures Done(scopes, envs, st, infos, out, infos')
    ensures |out.code| == Len(e) && Emits(OutContext(scopes, out, infos'), e, 0)
    decreases e, 1
  {
    hide Extended, Covers, DirectAll, EmitsAll, CompileAll, FreeAll, CapturedAll, Matches, TableOk, TablesOk, Raised, Inside, MistakenAll, HiddenIn;
    var envs1 := [Scoped(e.ps, e.rest, |envs|, false, [], [])] + envs;
    var inner := Inside(e, scopes);
    var b := CompileAll(e.body, envs1, st).value;
    MatchesInside(e, envs, scopes);
    CoversInside(e, scopes);
    NewTables(e, envs, inner);
    HiddenInside(e, scopes);
    var infos1 := CompileAllOk(e.body, envs1, st, inner, infos, b);
    CompileAllRaises(e.body, envs1, st, inner);
    infos' := LambdaOk(e, envs, scopes, b, infos1);
    ExtendedOuter(e, envs, st, infos, b, infos1);
    OuterExtended(e, envs, st, infos, b, infos1, infos', scopes, MakeFunc(b.code, b.envs[0]));
  }

  lemma NewTables(e: Exp, envs: seq<Scoped>, inner: seq<Scope>)
    requires e.Lam?
    ensures TablesOk(([Scoped(e.ps, e.rest, |envs|, false, [], [])] + envs)[0], inner)
  {
  }

  lemma HiddenInside(e: Exp, scopes: seq<Scope>)
    requires e.Lam?
    ensures HiddenIn(Inside(e, scopes)) == Hidden(e.ps) + HiddenIn(scopes)
  {
    hide NeedsHeap;
    assert Inside(e, scopes)[1..] == scopes;
  }

  lemma ExtendedOuter(e: Exp, envs: seq<Scoped>, st: Store, infos: seq<Info>, b: Out, infos1: seq<Info>)
    requires e.Lam? && |b.envs| == |envs| + 1
    requires Extended([Scoped(e.ps, e.rest, |envs|, false, [], [])] + envs, st, infos, b.envs, b.st, infos1)
    ensures Extended([Scoped([], false, 0, false, [], [])] + envs, st, infos, [Scoped([], false, 0, false, [], [])] + b.envs[1..], b.st, infos1)
  {
    var nobody := Scoped([], false, 0, false, [], []);
    var envs1 := [Scoped(e.ps, e.rest, |envs|, false, [], [])] + envs;
    var envs2 := [nobody] + b.envs[1..];
    forall i {:trigger envs2[i]} | 1 <= i < |envs1|
      ensures envs2[i].bindings == ([nobody] + envs)[i].bindings && envs2[i].bindmap == ([nobody] + envs)[i].bindmap
    {
      assert envs2[i] == b.envs[i];
      assert b.envs[i].bindings == envs1[i].bindings;
    }
  }

  lemma CompileIfOk(e: Exp, envs: seq<Scoped>, st: Store, scopes: seq<Scope>, infos: seq<Info>, out: Out) returns (infos': seq<Info>)
    requires e.If? && Compile(e, envs, st) == Some(out) && Valid(envs, st, infos, scopes)
    requires Covers(scopes, Free(e), Captured(e)) && !Mistaken(e, HiddenIn(scopes)) && Direct(e)
    ensures Done(scopes, envs, st, infos, out, infos')
    ensures |out.code| == Len(e) && Emits(OutContext(scopes, out, infos'), e, 0)
    decreases e, 1
  {
    var p := Compile(e.test, envs, st).value;
    var y := Compile(e.yes, p.envs, p.st).value;
    var z := Compile(e.no, y.envs, y.st).value;
    assert out == Out(p.code + [JumpIfFalse(|y.code| + 1)] + y.code + [JumpForward(|z.code|)] + z.code, z.envs, z.st);
    assert !Mistaken(e.test, HiddenIn(scopes)) && !Mistaken(e.yes, HiddenIn(scopes)) && !Mistaken(e.no, HiddenIn(scopes));
    hide Compile, Valid, Extended, Covers, Mistaken, HiddenIn, Emits;
    CoversLess(scopes, Free(e), Captured(e), Free(e.test), Captured(e.test));
    CoversLess(scopes, Free(e), Captured(e), Free(e.yes), Captured(e.yes));
    CoversLess(scopes, Free(e), Captured(e), Free(e.no), Captured(e.no));
    hide Free, Captured;
    var infos1 := CompileOk(e.test, envs, st, scopes, infos, p);
    var infos2 := CompileOk(e.yes, p.envs, p.st, scopes, infos1, y);
    infos' := CompileOk(e.no, y.envs, y.st, scopes, infos2, z);
    DoneTrans(scopes, envs, st, infos, p, infos1, y, infos2);
    DoneTrans(scopes, envs, st, infos, y, infos2, out, infos');
    DoneTrans(scopes, p.envs, p.st, infos1, y, infos2, out, infos');
    IfPlaced(scopes, e, p, infos1, y, infos2, z, infos', out);
  }

  /** The code of the parts of a conditional, in place. */
  lemma IfPlaced(scopes: seq<Scope>, e: Exp, p: Out, infos1: seq<Info>, y: Out, infos2: seq<Info>, z: Out, infos': seq<Info>, out: Out)
    requires e.If? && out == Out(p.code + [JumpIfFalse(|y.code| + 1)] + y.code + [JumpForward(|z.code|)] + z.code, z.envs, z.st)
    requires |p.code| == Len(e.test) && Emits(OutContext(scopes, p, infos1), e.test, 0)
    requires |y.code| == Len(e.yes) && Emits(OutContext(scopes, y, infos2), e.yes, 0)
    requires |z.code| == Len(e.no) && Emits(OutContext(scopes, z, infos'), e.no, 0)
    requires Extended(p.envs, p.st, infos1, out.envs, out.st, infos') && Extended(y.envs, y.st, infos2, out.envs, out.st, infos')
    ensures |out.code| == Len(e) && Emits(OutContext(scopes, out, infos'), e, 0)
  {
    hide Extended, Emits, OutContext, ContextFor;
    var a, b, d := |p.code|, |y.code|, |z.code|;
    assert Len(e) == a + 1 + b + 1 + d;
    hide Len;
    IfSlices(p.code, y.code, z.code, out.code);
    LiftOut(scopes, p, infos1, e.test, out.envs, out.st, infos', out.code, 0);
    LiftOut(scopes, y, infos2, e.yes, out.envs, out.st, infos', out.code, a + 1);
    ExtendedNone(z.envs, z.st, infos');
    LiftOut(scopes, z, infos', e.no, out.envs, out.st, infos', out.code, a + 1 + b + 1);
    OutOps(scopes, out, infos');
    IfCode(OutContext(scopes, out, infos'), e, 0);
  }

  lemma OutOps(scopes: seq<Scope>, out: Out, infos: seq<Info>)
    ensures OutContext(scopes, out, infos) == ContextFor(scopes, out.envs, out.st, infos, out.code)
    ensures OutContext(scopes, out, infos).ops == out.code
  {
  }

  lemma IfSlices(p: seq<Instr>, y: seq<Instr>, z: seq<Instr>, code: seq<Instr>)
    requires code == p + [JumpIfFalse(|y| + 1)] + y + [JumpForward(|z|)] + z
    ensures |code| == |p| + 1 + |y| + 1 + |z|
    ensures code[0..0 + |p|] == p && code[|p| + 1..|p| + 1 + |y|] == y && code[|p| + 1 + |y| + 1..|p| + 1 + |y| + 1 + |z|] == z
    ensures code[0 + |p|] == JumpIfFalse(|y| + 1) && code[0 + |p| + 1 + |y|] == JumpForward(|z|)
  {
  }

  lemma IfCode(c: Context, e: Exp, pc: nat)
    requires e.If? && pc + Len(e) <= |c.ops|
    requires Emits(c, e.test, pc) && c.ops[pc + Len(e.test)] == JumpIfFalse(Len(e.yes) + 1)
    requires Emits(c, e.yes, pc + Len(e.test) + 1)
    requires c.ops[pc + Len(e.test) + 1 + Len(e.yes)] == JumpForward(Len(e.no))
    requires Emits(c, e.no, pc + Len(e.test) + 1 + Len(e.yes) + 1)
    ensures Emits(c, e, pc)
  {
    hide Emits;
    assert EmitsIf(c, e, pc);
    IfWhole(c, e, pc);
  }

  lemma IfWhole(c: Context, e: Exp, pc: nat)
    requires e.If? && pc + Len(e) <= |c.ops| && EmitsIf(c, e, pc)
    ensures Emits(c, e, pc)
  {
    hide EmitsIf, Len;
  }

  lemma CompileCallOk(e: Exp, envs: seq<Scoped>, st: Store, scopes: seq<Scope>, infos: seq<Info>, out: Out) returns (infos': seq<Info>)
    requires e.Call? && Compile(e, envs, st) == Some(out) && Valid(envs, st, infos, scopes)
    requires Covers(scopes, Free(e), Captured(e)) && !Mistaken(e, HiddenIn(scopes)) && Direct(e)
    ensures Done(scopes, envs, st, infos, out, infos')
    ensures |out.code| == Len(e) && Emits(OutContext(scopes, out, infos'), e, 0)
    decreases e, 1
  {
    var es := e.es;
    var f := Compile(es[0], envs, st).value;
    var a := CompileAll(es[1..], f.envs, f.st).value;
    var args := if DirectCont(es) then RewriteFunc(a.code) else a.code;
    var func := if IsLambdaCall(f.code) then RewriteFunc(f.code) else f.code;
    assert out == Out(args + func + [FuncCall(|es| - 1)], a.envs, a.st);
    assert !Mistaken(es[0], HiddenIn(scopes)) && !MistakenAll(es[1..], HiddenIn(scopes));
    hide Compile, CompileAll, Valid, Extended, Covers, Mistaken, MistakenAll, HiddenIn, Emits, EmitsAll, EmitsArgs, EmitsOperator, DirectCont, SelfEval,
         RewriteFunc, IsLambdaCall;
    CoversLess(scopes, Free(e), Captured(e), Free(es[0]), Captured(es[0]));
    CoversLess(scopes, Free(e), Captured(e), FreeAll(es[1..]), CapturedAll(es[1..]));
    var infos1 := CompileOk(es[0], envs, st, scopes, infos, f);
    infos' := CompileAllOk(es[1..], f.envs, f.st, scopes, infos1, a);
    hide Free, Captured, FreeAll, CapturedAll, Direct, DirectAll;
    DoneTrans(scopes, envs, st, infos, f, infos1, out, infos');
    CallPlaced(scopes, e, f, infos1, a, infos', args, func, out);
  }

  /** The code of the parts of a call, in place. */
  lemma CallPlaced(scopes: seq<Scope>, e: Exp, f: Out, infos1: seq<Info>, a: Out, infos': seq<Info>, args: seq<Instr>,
                   func: seq<Instr>, out: Out)
    requires e.Call? && e.es != [] && (e.es[0].Lam? || SelfEval(e.es[0]))
    requires DirectCont(e.es) ==> e.es[0].x !in HiddenIn(scopes)
    requires args == (if DirectCont(e.es) then RewriteFunc(a.code) else a.code)
    requires func == (if IsLambdaCall(f.code) then RewriteFunc(f.code) else f.code)
    requires out == Out(args + func + [FuncCall(|e.es| - 1)], a.envs, a.st)
    requires |f.code| == Len(e.es[0]) && Emits(OutContext(scopes, f, infos1), e.es[0], 0)
    requires |a.code| == LenAll(e.es[1..]) && EmitsAll(OutContext(scopes, a, infos'), e.es[1..], 0)
    requires Extended(f.envs, f.st, infos1, out.envs, out.st, infos')
    ensures |out.code| == Len(e) && Emits(OutContext(scopes, out, infos'), e, 0)
  {
    hide Extended, HiddenIn, Emits, EmitsAll, EmitsArgs, EmitsOperator, DirectCont, SelfEval, RewriteFunc, IsLambdaCall, LenAll,
         Len, OutContext, ContextFor;
    OutOps(scopes, out, infos');
    CallSlices(args, func, |e.es| - 1, out.code);
    ArgsOk(scopes, a, infos', e.es, args, out.code);
    OperatorOk(scopes, f, infos1, e.es, out.envs, out.st, infos', func, out.code, |args|);
    CallWithLength(OutContext(scopes, out, infos'), e);
  }

  lemma CallWithLength(c: Context, e: Exp)
    requires e.Call? && e.es != [] && EmitsArgs(c, e.es, 0) && EmitsOperator(c, e.es, LenAll(e.es[1..]))
    requires |c.ops| == LenAll(e.es[1..]) + Len(e.es[0]) + 1 && c.ops[|c.ops| - 1] == FuncCall(|e.es| - 1)
    ensures |c.ops| == Len(e) && Emits(c, e, 0)
  {
    hide EmitsArgs, EmitsOperator, Emits;
    CallParts(e.es);
    CallCode(c, e, 0);
  }

  lemma CallSlices(args: seq<Instr>, func: seq<Instr>, n: nat, code: seq<Instr>)
    requires code == args + func + [FuncCall(n)]
    ensures |code| == |args| + |func| + 1
    ensures code[..|args|] == args && code[|args|..|args| + |func|] == func && code[|args| + |func|] == FuncCall(n)
  {
  }

  lemma CallCode(c: Context, e: Exp, pc: nat)
    requires e.Call? && e.es != [] && pc + LenAll(e.es) < |c.ops|
    requires EmitsArgs(c, e.es, pc) && EmitsOperator(c, e.es, pc + LenAll(e.es[1..]))
    requires c.ops[pc + LenAll(e.es)] == FuncCall(|e.es| - 1)
    ensures Emits(c, e, pc)
  {
    hide EmitsArgs, EmitsOperator, Emits;
    assert EmitsCall(c, e.es, pc);
    CallWhole(c, e, pc);
  }

  lemma CallWhole(c: Context, e: Exp, pc: nat)
    requires e.Call? && EmitsCall(c, e.es, pc)
    ensures Emits(c, e, pc)
  {
    hide EmitsArgs, EmitsOperator;
  }

  /** The module compiled from a closed program implements it. */
  lemma StartCompileOk(root: Exp, M: Image) returns (infos: seq<Info>)
    requires root.Lam? && Direct(root) && !Mistaken(root, {}) && StartCompile(root) == Some(M)
    ensures Implements(M, infos, root)
  {
    hide Emits, Covers, Direct, Mistaken, Compile;
    var out := Compile(root, [], Store([], [])).value;
    assert TableOk([], [], []);
    assert Covers([], Free(root), Captured(root)) by {
      NothingToCover(Free(root), Captured(root));
    }
    infos := CompileOk(root, [], Store([], []), [], [], out);
    EntryIsLast(root, out);
    assert Emits(OutContext([], out, infos), root, 0);
    ClosureCode(OutContext([], out, infos), root, 0);
  }

  lemma NothingToCover(free: set<Name>, captured: set<Name>)
    ensures Covers([], free, captured)
  {
  }

  lemma EntryIsLast(root: Exp, out: Out)
    requires root.Lam? && Compile(root, [], Store([], [])) == Some(out)
    ensures |out.st.funcs| > 0 && out.code == [LoadClosure(|out.st.funcs| - 1)]
  {
    hide CompileAll;
  }
}
