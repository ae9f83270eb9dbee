/** Converted programs run on as long as their source does, and exit or fail only when it does. */
module CpsFaithful {
  import opened Wrappers
  import opened Syntax
  import opened Values
  import opened Cps
  import opened Meaning
  import opened ValueRelation
  import opened ValueLemmas
  import opened CpsLemmas
  import opened CpsSteps
  import opened CpsCorrect

  /** No outcome before more than `fuel` procedures are entered. */
  ghost predicate Stalls(W: World, c: Config, tr: seq<Event>, fuel: nat) {
    forall F: nat {:trigger Run(W, c, tr, F)} | F <= fuel :: Run(W, c, tr, F) == Running
  }

  lemma StallsAfter(W: World, c1: Config, tr1: seq<Event>, cost: nat, c2: Config, tr2: seq<Event>, fuel: nat)
    requires Leads(W, c1, tr1, cost, c2, tr2) && Stalls(W, c2, tr2, fuel)
    ensures Stalls(W, c1, tr1, cost + fuel)
  {
    hide Run;
    forall F: nat | F <= cost + fuel ensures Run(W, c1, tr1, F) == Running {
      if F >= cost {
        assert Run(W, c1, tr1, F - cost + cost) == Run(W, c2, tr2, F - cost);
      }
    }
  }

  lemma StallsLess(W: World, c: Config, tr: seq<Event>, fuel: nat, fuel': nat)
    requires Stalls(W, c, tr, fuel) && fuel' <= fuel
    ensures Stalls(W, c, tr, fuel')
  {
    hide Run;
  }

  /** Ready expressions do not call. */
  lemma {:induction false} SelfEvalEnds(W: World, e: Exp, env: Env, tr: seq<Event>, fuel: nat)
    requires SelfEval(e)
    ensures !Eval(W, e, env, tr, fuel).Timeout?
    decreases e, 1
  {
    if e.Op? {
      SelfEvalEndsAll(W, e.args, env, tr, fuel);
    }
  }

  lemma {:induction false} SelfEvalEndsAll(W: World, es: seq<Exp>, env: Env, tr: seq<Event>, fuel: nat)
    requires SelfEvalAll(es)
    ensures !EvalAll(W, es, env, tr, fuel).Timeout?
    decreases es, 0
  {
    if es != [] {
      SelfEvalEnds(W, es[0], env, tr, fuel);
      if Eval(W, es[0], env, tr, fuel).Ok? {
        SelfEvalEndsAll(W, es[1..], env, Eval(W, es[0], env, tr, fuel).trace, fuel);
      }
    }
  }

  lemma ConvertStalls(W: World, res: Option<Exp>, e: Exp, name: Name, n: nat, env: Env, env': Env, k: Val, tr: seq<Event>,
                      fuel: nat)
    requires Source(e) && RelatedEnv(env, env') && name.Gen? && name.n < n
    requires Eval(W, Cut(e), env, tr, fuel) == Timeout
    requires res.None? ==> Lookup(env', name) == Some(k)
    ensures Stalls(W, At(Convert(res, e, name, n).0, env'), tr, fuel)
    decreases fuel, 1, e, 2
  {
    hide Lookup, Stalls, RelatedEnv, SelfEval, Convert;
    if SelfEval(e) {
      CutReady(e);
      SelfEvalEnds(W, e, env, tr, fuel);
    } else {
      match e
      case Op(_, _) => OpStalls(W, res, e, name, n, env, env', tr, fuel);
      case If(_, _, _) => IfStalls(W, res, e, name, n, env, env', k, tr, fuel);
      case Call(_) => CallStalls(W, res, e, name, n, env, env', k, tr, fuel);
      case Lam(_, _, _) =>
      case Lit(_) =>
      case Quote(_) =>
      case Var(_) =>
    }
  }

  lemma OpStalls(W: World, res: Option<Exp>, e: Exp, name: Name, n: nat, env: Env, env': Env, tr: seq<Event>, fuel: nat)
    requires e.Op? && !SelfEval(e) && Source(e) && RelatedEnv(env, env')
    requires Eval(W, Cut(e), env, tr, fuel) == Timeout
    ensures Stalls(W, At(Convert(res, e, name, n).0, env'), tr, fuel)
    decreases fuel, 1, e, 1
  {
    hide Stalls, RelatedEnv, EvalAll, SelfEvalAll, Operate, Glue, MapArgs;
    var ls := MapArgs(e.args, n);
    var call := Call([Control(res, name), Op(e.op, ls.0)]);
    GlueStalls(W, call, e.args, n, ls.1, env, env', tr, fuel);
  }

  lemma CallStalls(W: World, res: Option<Exp>, e: Exp, name: Name, n: nat, env: Env, env': Env, k: Val, tr: seq<Event>,
                   fuel: nat)
    requires e.Call? && Source(e) && RelatedEnv(env, env') && name.Gen? && name.n < n
    requires Eval(W, Cut(e), env, tr, fuel) == Timeout
    requires res.None? ==> Lookup(env', name) == Some(k)
    ensures Stalls(W, At(Convert(res, e, name, n).0, env'), tr, fuel)
    decreases fuel, 1, e, 1
  {
    hide Triv, TrivAll, Lookup, Leads, Stalls, Extends, Related, RelatedEnv, EvalAll, Glue, MapArgs, Control, Apply;
    var ls := MapArgs(e.es, n);
    var call := Call([ls.0[0], Control(res, name)] + ls.0[1..]);
    var c := Glue(call, e.es, ls.0, ls.1);
    assert Convert(res, e, name, n) == c;
    hide Convert;
    match EvalAll(W, CutAll(e.es), env, tr, fuel)
    case Timeout =>
      GlueStalls(W, call, e.es, n, ls.1, env, env', tr, fuel);
    case Ok(vs, tr1) =>
      hide Eval;
      var cost1, ws, mid := GlueOk(W, call, e.es, n, ls.1, env, env', tr, fuel, vs, tr1);
      var kv := if res.None? then k else Closure([name], false, [res.value], mid);
      assert Related(Converted, vs[0], ws[0]) && RelatedAll(Converted, vs[1..], ws[1..]);
      ApplyStalls(W, vs[0], vs[1..], ws[0], ws[1..], kv, tr1, fuel);
      ExtendsAt(env', mid, Between(n, ls.1) + Between(ls.1, c.1), name);
      StepToCall(W, res, ls.0, name, mid, k, tr1, ws, kv);
      StallsAfter(W, At(call, mid), tr1, 0, Enter(ws[0], [kv] + ws[1..]), tr1, fuel);
      StallsAfter(W, At(c.0, env'), tr, cost1, At(call, mid), tr1, fuel);
      StallsLess(W, At(c.0, env'), tr, cost1 + fuel, fuel);
    case Stuck =>
  }

  /** A call whose parts are ready enters its procedure, continuation first. */
  lemma StepToCall(W: World, res: Option<Exp>, ls: seq<Exp>, name: Name, env: Env, k: Val, tr: seq<Event>, ws: seq<Val>, kv: Val)
    requires name.Gen? && ls != [] && TrivAll(ls, env) == Some(ws) && (res.None? ==> Lookup(env, name) == Some(k))
    requires kv == if res.None? then k else Closure([name], false, [res.value], env)
    ensures Leads(W, At(Call([ls[0], Control(res, name)] + ls[1..]), env), tr, 0, Enter(ws[0], [kv] + ws[1..]), tr)
  {
    hide Lookup, Leads, TrivAll;
    var f := Control(res, name);
    assert Triv(f, env) == Some(kv);
    hide Triv;
    TrivInsert(ls, f, env, ws, kv);
    StepCall(W, [ls[0], f] + ls[1..], env, tr, ws[0], [kv] + ws[1..]);
  }

  lemma GlueStalls(W: World, expr: Exp, es: seq<Exp>, m: nat, q: nat, env: Env, env': Env, tr: seq<Event>, fuel: nat)
    requires SourceAll(es) && RelatedEnv(env, env') && MapArgs(es, m).1 <= q
    requires EvalAll(W, CutAll(es), env, tr, fuel) == Timeout
    ensures Stalls(W, At(Glue(expr, es, MapArgs(es, m).0, q).0, env'), tr, fuel)
    decreases fuel, 1, es, 0
  {
    hide Triv, TrivAll, Lookup, Leads, Reaches, Extends, Stalls, Related, RelatedEnv, Convert, Eval, SelfEval, Cut, Glue, MapArgs;
    var ls := MapArgs(es[1..], m);
    var inner := Glue(expr, es[1..], ls.0, q);
    var name := Gen(ls.1);
    GlueShape(expr, es, m, q);
    assert CutAll(es)[1..] == CutAll(es[1..]);
    match Eval(W, Cut(es[0]), env, tr, fuel)
    case Timeout =>
      ReadyEnds(W, es[0], env, tr, fuel);
      ConvertStalls(W, Some(inner.0), es[0], name, inner.1, env, env', Null, tr, fuel);
    case Ok(v, tr1) =>
      if SelfEval(es[0]) || es[0].Lam? {
        var w0 := ReadyElement(W, es[0], ls.1, env, env', tr, fuel, v, tr1);
        GlueStalls(W, expr, es[1..], m, q, env, env', tr, fuel);
      } else {
        var c := Convert(Some(inner.0), es[0], name, inner.1);
        var cost0, w, mid := ConvertOk(W, Some(inner.0), es[0], name, inner.1, env, env', Null, tr, fuel, v, tr1);
        ReachesBound(W, inner.0, c, name, inner.1, env', Null, tr, cost0, w, mid, tr1);
        RelatedExtends(env, env', mid, {ls.1} + Between(inner.1, c.1));
        GlueStalls(W, expr, es[1..], m, q, env, mid, tr1, fuel);
        StallsAfter(W, At(c.0, env'), tr, cost0, At(inner.0, mid), tr1, fuel);
        StallsLess(W, At(c.0, env'), tr, cost0 + fuel, fuel);
      }
    case Stuck =>
  }

  /** The code in front of a combination: that of its first element, unless it is ready, then the rest. */
  lemma GlueShape(expr: Exp, es: seq<Exp>, m: nat, q: nat)
    requires es != []
    ensures var ls := MapArgs(es[1..], m);
            var inner := Glue(expr, es[1..], ls.0, q);
            && ls.1 <= MapArgs(es, m).1
            && Glue(expr, es, MapArgs(es, m).0, q)
               == if SelfEval(es[0]) || es[0].Lam? then inner else Convert(Some(inner.0), es[0], Gen(ls.1), inner.1)
    ensures !SelfEval(es[0]) && !es[0].Lam? ==> MapArgs(es[1..], m).1 < MapArgs(es, m).1
  {
    hide Convert, SelfEval;
    assert MapArgs(es, m).0[1..] == MapArgs(es[1..], m).0;
  }

  lemma ReadyEnds(W: World, e: Exp, env: Env, tr: seq<Event>, fuel: nat)
    requires Eval(W, Cut(e), env, tr, fuel).Timeout?
    ensures !SelfEval(e) && !e.Lam?
  {
    hide SelfEval;
    if SelfEval(e) {
      CutReady(e);
      SelfEvalEnds(W, e, env, tr, fuel);
    }
  }

  /** A converted conditional whose test is known runs the branch it selects. */
  lemma StepToBranch(W: World, res: Option<Exp>, p: Exp, y: Exp, z: Exp, name: Name, lname: Name, env: Env, tr: seq<Event>, v1: Val)
    returns (cost: nat)
    requires Tells(p, BranchEnv(res, name, lname, env), v1)
    ensures Leads(W, At(BranchCode(res, p, y, z, name, lname), env), tr, cost,
                  At(if v1 == Bool(false) then z else y, BranchEnv(res, name, lname, env)), tr)
  {
    hide Triv, Leads;
    var inner := BranchEnv(res, name, lname, env);
    var taken := At(if v1 == Bool(false) then z else y, inner);
    StepIf(W, p, y, z, inner, tr, Triv(p, inner).value);
    cost := 0;
    if res.Some? {
      ReachJoin(W, res.value, If(p, y, z), name, lname, env, tr);
      LeadsTrans(W, At(BranchCode(res, p, y, z, name, lname), env), tr, 1, At(If(p, y, z), inner), tr, 0, taken, tr);
      cost := 1;
    }
  }

  lemma BranchStalls(W: World, res: Option<Exp>, e: Exp, p: Exp, name: Name, lname: Name, env: Env, env': Env, k: Val,
                     tr: seq<Event>, fuel: nat, v1: Val, y: (Exp, nat), z: (Exp, nat))
    requires e.If? && Source(e) && RelatedEnv(env, env') && name.Gen? && lname.Gen? && name.n < lname.n
    requires Eval(W, Cut(if v1 == Bool(false) then e.no else e.yes), env, tr, fuel) == Timeout
    requires res.None? ==> Lookup(env', name) == Some(k)
    requires Tells(p, BranchEnv(res, name, lname, env'), v1)
    requires y == Convert(None, e.yes, if res.None? then name else lname, lname.n + 1)
    requires z == Convert(None, e.no, if res.None? then name else lname, y.1)
    ensures Stalls(W, At(BranchCode(res, p, y.0, z.0, name, lname), env'), tr, fuel)
    decreases fuel, 1, e, 0
  {
    hide Triv, Lookup, Leads, Extends, Tells, Stalls, RelatedEnv, Convert, Eval, BranchCode;
    BranchEnvRelated(res, name, lname, env, env');
    var inner := BranchEnv(res, name, lname, env');
    var escape := if res.None? then name else lname;
    var k1 := if res.None? then k else Closure([name], false, [res.value], env');
    if v1 == Bool(false) {
      ConvertStalls(W, None, e.no, escape, y.1, env, inner, k1, tr, fuel);
    } else {
      ConvertStalls(W, None, e.yes, escape, lname.n + 1, env, inner, k1, tr, fuel);
    }
    var cost := StepToBranch(W, res, p, y.0, z.0, name, lname, env', tr, v1);
    var code := At(BranchCode(res, p, y.0, z.0, name, lname), env');
    StallsAfter(W, code, tr, cost, At(if v1 == Bool(false) then z.0 else y.0, inner), tr, fuel);
    StallsLess(W, code, tr, cost + fuel, fuel);
  }

  lemma IfStalls(W: World, res: Option<Exp>, e: Exp, name: Name, n: nat, env: Env, env': Env, k: Val, tr: seq<Event>,
                 fuel: nat)
    requires e.If? && Source(e) && RelatedEnv(env, env') && name.Gen? && name.n < n
    requires Eval(W, Cut(e), env, tr, fuel) == Timeout
    requires res.None? ==> Lookup(env', name) == Some(k)
    ensures Stalls(W, At(Convert(res, e, name, n).0, env'), tr, fuel)
    decreases fuel, 1, e, 1
  {
    hide Triv, Lookup, Leads, Reaches, Extends, Tells, Stalls, Related, RelatedEnv, Convert, SelfEval, BranchCode, BranchEnv;
    var n1 := if SelfEval(e.test) then n else n + 1;
    var p, y, z, escape := ConvertIfShape(res, e, name, n, n1);
    var lname := Gen(n1);
    var expr := BranchCode(res, p, y.0, z.0, name, lname);
    match Eval(W, Cut(e.test), env, tr, fuel)
    case Timeout =>
      ReadyEnds(W, e.test, env, tr, fuel);
      hide Eval;
      ConvertStalls(W, Some(expr), e.test, Gen(n), z.1, env, env', Null, tr, fuel);
    case Stuck =>
    case Ok(v1, tr1) =>
      assert Eval(W, Cut(if v1 == Bool(false) then e.no else e.yes), env, tr1, fuel) == Timeout;
      hide Eval;
      if SelfEval(e.test) {
        BranchEnvRelated(res, name, lname, env, env');
        TellsSelfEval(W, e.test, env, BranchEnv(res, name, lname, env'), tr, fuel, v1, tr1);
        BranchStalls(W, res, e, p, name, lname, env, env', k, tr, fuel, v1, y, z);
      } else {
        var c := Convert(Some(expr), e.test, Gen(n), z.1);
        var cost1, w1, mid := ConvertOk(W, Some(expr), e.test, Gen(n), z.1, env, env', Null, tr, fuel, v1, tr1);
        var made := {n} + Between(z.1, c.1);
        ReachesBound(W, expr, c, Gen(n), z.1, env', Null, tr, cost1, w1, mid, tr1);
        RelatedExtends(env, env', mid, made);
        ExtendsAt(env', mid, made, name);
        TellsVar(Gen(n), res, name, lname, mid, v1, w1);
        BranchStalls(W, res, e, p, name, lname, env, mid, k, tr1, fuel, v1, y, z);
        StallsAfter(W, At(c.0, env'), tr, cost1, At(expr, mid), tr1, fuel);
        StallsLess(W, At(c.0, env'), tr, cost1 + fuel, fuel);
      }
  }

  lemma ApplyStalls(W: World, f: Val, args: seq<Val>, f': Val, args': seq<Val>, k: Val, tr: seq<Event>, fuel: nat)
    requires Related(Converted, f, f') && RelatedAll(Converted, args, args') && Apply(W, f, args, tr, fuel) == Timeout
    ensures Stalls(W, Enter(f', [k] + args'), tr, fuel)
    decreases fuel, 0
  {
    if fuel > 0 {
      hide Leads, RelatedAll, RelatedEnv, EvalBody, ConvertSeq, Bind, Returns, Stalls, Run;
      assert f.Closure?;
      var ps, rest, body, env := f.ps, f.rest, f.body, f.env;
      var vals := Bind(ps, rest, args).value;
      var src, n: nat :| MadeFrom(f, f', src, n);
      var b := ConvertSeq(src, Gen(n), n + 1).0.value;
      var vals' := RelatedBind(ps, rest, args, args', Gen(n), k);
      RelatedBound(ps, vals, vals');
      RelatedFrame(env, f'.env, ps, vals, vals', n, k);
      FrameCont(ps, vals', f'.env, n, k);
      var inner' := Rib([Gen(n)] + ps, [k] + vals', f'.env);
      StepClosure(W, f', [k] + args', [k] + vals', tr);
      SeqShape(src, Gen(n), n + 1);
      SeqStalls(W, src, src[|src| - 1], Gen(n), n + 1, Rib(ps, vals, env), inner', k, tr, fuel - 1);
      StallsAfter(W, Enter(f', [k] + args'), tr, 1, At(b, inner'), tr, fuel - 1);
    }
  }

  lemma SeqStalls(W: World, es: seq<Exp>, last: Exp, name: Name, n: nat, env: Env, env': Env, k: Val, tr: seq<Event>, fuel: nat)
    requires es != [] && SourceAll(es) && last == es[|es| - 1] && RelatedEnv(env, env') && name.Gen? && name.n < n
    requires EvalBody(W, CutFrom(es, last), env, tr, fuel) == Timeout && Lookup(env', name) == Some(k)
    ensures Stalls(W, At(ConvertFrom(es, last, name, n).0.value, env'), tr, fuel)
    decreases fuel, 1, es, 0
  {
    hide Triv, Lookup, Leads, Reaches, Extends, Stalls, Related, RelatedEnv, Convert, Eval, EvalBody, SelfEval, SameObject, Source,
         Cut, CutFrom, ConvertFrom;
    var rest := ConvertFrom(es[1..], last, name, n);
    SourceFirst(es);
    if |es| == 1 || SameObject(es[0], last) {
      TailBody(W, es, last, env, tr, fuel);
      ReadyEnds(W, es[0], env, tr, fuel);
      ConvertStalls(W, None, es[0], name, rest.1, env, env', k, tr, fuel);
      AtomsAreReady(es[0], last);
      TailShape(es, last, name, n);
    } else {
      FrontShape(es, last, name, n);
      FrontBody(W, es, last, env, tr, fuel);
      var r := rest.0.value;
      var c := Convert(Some(r), es[0], Gen(rest.1), rest.1 + 1);
      match Eval(W, Cut(es[0]), env, tr, fuel)
      case Timeout =>
        ReadyEnds(W, es[0], env, tr, fuel);
        ConvertStalls(W, Some(r), es[0], Gen(rest.1), rest.1 + 1, env, env', Null, tr, fuel);
      case Stuck =>
      case Ok(v0, tr1) =>
        if SelfEval(es[0]) {
          CutReady(es[0]);
          SelfEvalTriv(W, es[0], env, env', tr, fuel);
          SeqStalls(W, es[1..], last, name, n, env, env', k, tr, fuel);
        } else {
          var cost0, w0, mid := ConvertOk(W, Some(r), es[0], Gen(rest.1), rest.1 + 1, env, env', Null, tr, fuel, v0, tr1);
          ReachesBound(W, r, c, Gen(rest.1), rest.1 + 1, env', Null, tr, cost0, w0, mid, tr1);
          RelatedExtends(env, env', mid, {rest.1} + Between(rest.1 + 1, c.1));
          ExtendsAt(env', mid, {rest.1} + Between(rest.1 + 1, c.1), name);
          SeqStalls(W, es[1..], last, name, n, env, mid, k, tr1, fuel);
          StallsAfter(W, At(c.0, env'), tr, cost0, At(r, mid), tr1, fuel);
          StallsLess(W, At(c.0, env'), tr, cost0 + fuel, fuel);
        }
    }
  }

  /** The code of a body of one expression that is not ready. */
  lemma TailShape(es: seq<Exp>, last: Exp, name: Name, n: nat)
    requires |es| == 1 && !SelfEval(es[0])
    ensures ConvertFrom(es, last, name, n).0 == Some(Convert(None, es[0], name, ConvertFrom(es[1..], last, name, n).1).0)
  {
    hide Convert;
    assert es[1..] == [];
  }

  lemma AtomsAreReady(x: Exp, last: Exp)
    ensures SameObject(x, last) ==> SelfEval(x)
  {
  }

  /** How a body is evaluated when its first expression is not in tail position. */
  lemma FrontBody(W: World, es: seq<Exp>, last: Exp, env: Env, tr: seq<Event>, fuel: nat)
    requires |es| > 1 && !SameObject(es[0], last)
    ensures EvalBody(W, CutFrom(es, last), env, tr, fuel)
            == match Eval(W, Cut(es[0]), env, tr, fuel)
               case Ok(_, tr1) => EvalBody(W, CutFrom(es[1..], last), env, tr1, fuel)
               case Stuck => Stuck
               case Timeout => Timeout
  {
    hide Eval, Cut, SameObject;
    assert CutFrom(es, last)[1..] == CutFrom(es[1..], last);
  }

  // ----- whole programs

  /** If the cut of a program does not end within `fuel` nested calls, the converted program does not end within `fuel` calls. */
  lemma ConversionPreservesDivergence(W: World, e: Exp, fuel: nat)
    requires e.Lam? && Source(e)
    requires Apply(W, Closure(e.ps, e.rest, CutBody(e.body), Empty), [], [], fuel) == Timeout
    ensures forall F: nat | F <= fuel :: Run(W, At(Call([CpsConvert(e), Var(User("__exit"))]), Empty), [], F) == Running
  {
    hide Source, Related, RelatedEnv, Apply, Leads, ConvertLambda, Run;
    NoBindings();
    var f' := RelatedLambda(e, 0, Empty, Empty);
    var exit := Builtin("__exit");
    ApplyStalls(W, Closure(e.ps, e.rest, CutBody(e.body), Empty), [], f', [], exit, [], fuel);
    assert [exit] + [] == [exit];
    var es := [CpsConvert(e), Var(User("__exit"))];
    ExitIsBound();
    TrivTwo(es[0], es[1], Empty, f', exit);
    assert [f'] + [exit] == [f', exit];
    StepCall(W, es, Empty, [], f', [exit]);
    StallsAfter(W, At(Call(es), Empty), [], 0, Enter(f', [exit]), [], fuel);
  }

  /**
   Where the cut of a program raises no error, the outcomes of the converted program are exactly those of the cut: it
   exits with a value after some calls if and only if the cut computes that value after those calls.
   */
  lemma ConversionIsFaithful(W: World, e: Exp, F: nat)
    requires e.Lam? && Source(e) && !Apply(W, Closure(e.ps, e.rest, CutBody(e.body), Empty), [], [], F).Stuck?
    ensures var out := Run(W, At(Call([CpsConvert(e), Var(User("__exit"))]), Empty), [], F);
            && !out.Broken?
            && (out.Done? ==> exists v :: Apply(W, Closure(e.ps, e.rest, CutBody(e.body), Empty), [], [], F) == Ok(v, out.trace)
                                          && Related(Converted, v, out.v))
  {
    hide Source, Related, Apply, Run, CpsConvert;
    match Apply(W, Closure(e.ps, e.rest, CutBody(e.body), Empty), [], [], F)
    case Ok(v, trace) =>
      var steps, w := ConversionMeansCut(W, e, F, v, trace);
    case Timeout =>
      ConversionPreservesDivergence(W, e, F);
    case Stuck =>
  }
}

/** Bodies in which an earlier expression is `eq?` to the last one. */
module CpsEarlyTail {
  import opened Wrappers
  import opened Syntax
  import opened Values
  import opened Cps
  import opened Meaning
  import opened ValueRelation
  import opened ValueLemmas
  import opened CpsLemmas
  import opened CpsSteps
  import opened CpsCorrect

  /** Everything after an expression `eq?` to the last is dropped: the code is that of the shorter body. */
  lemma {:induction false} EarlyTailCuts(es: seq<Exp>, last: Exp, i: nat, name: Name, n: nat)
    requires i < |es| && SameObject(es[i], last)
    ensures ConvertFrom(es, last, name, n).0 == ConvertFrom(es[..i + 1], last, name, ConvertFrom(es[i..], last, name, n).1).0
    ensures ConvertFrom(es, last, name, n).1 == ConvertFrom(es[..i + 1], last, name, ConvertFrom(es[i..], last, name, n).1).1
    decreases i
  {
    hide Convert, SameObject;
    if i == 0 {
      assert es[0..] == es;
      assert es[..1] == [es[0]] && [es[0]][1..] == [];
      AtomIsReady(es[0], last);
      var m := ConvertFrom(es, last, name, n).1;
      assert ConvertFrom([], last, name, m) == (None, m);
      assert ConvertFrom([es[0]], last, name, m) == (Some(Call([Var(name), es[0]])), m);
    } else {
      assert es[1..][i - 1..] == es[i..] && es[..i + 1][1..] == es[1..][..i];
      EarlyTailCuts(es[1..], last, i - 1, name, n);
      assert |es| > 1 && |es[..i + 1]| > 1;
    }
  }

  lemma AtomIsReady(x: Exp, last: Exp)
    requires SameObject(x, last)
    ensures SelfEval(x) && x == last
  {
  }

  /**
   Which nodes of a program the converter takes for the same: equal variables, and literals, which are characters, numbers,
   strings and booleans, where `$eq?` on their values is certain to be true. No two other nodes are.
   */
  lemma SameObjectIff(x: Exp, y: Exp)
    requires x.Lit? ==> x.d.DChar? || x.d.DFixnum? || x.d.DString? || x.d.DBool?
    ensures SameObject(x, y) <==>
            || (x.Var? && y.Var? && x.x == y.x)
            || (x.Lit? && y.Lit? && Operate(OpEqPtr, [DatumVal(x.d), DatumVal(y.d)]) == Some(Bool(true)))
  {
  }

  /** A program that is not converted faithfully: `(lambda () 5 (display 5) 5)` no longer calls `display`. */
  lemma EarlyTailDropsCall(W: World, name: string, d: Datum) returns (steps: nat)
    requires Returns(name) && W([], name, [OFixnum(5)]) == Some(d)
    ensures var five := Lit(DFixnum(5));
            var e := Lam([], false, [five, Call([Var(User(name)), five]), five]);
            && Apply(W, Closure(e.ps, e.rest, e.body, Empty), [], [], 2)
               == Ok(Fixnum(5), [Event(name, [OFixnum(5)])])
            && forall F: nat | F >= steps ::
                 Run(W, At(Call([CpsConvert(e), Var(User("__exit"))]), Empty), [], F) == Done(Fixnum(5), [])
  {
    var five := Lit(DFixnum(5));
    hide IsBuiltin, ChangesCont;
    var body := [five, Call([Var(User(name)), five]), five];
    CallsWithFive(W, name, Rib([], [], Empty), d);
    assert Apply(W, Closure([], false, [five], Empty), [], [], 1) == Ok(Fixnum(5), []);
    CutsToFive(body);
    assert CpsConvert(Lam([], false, body)) == CpsConvert(Lam([], false, [five]));
    hide Run, EvalBody, CpsConvert, Related;
    var w;
    steps, w := ConversionPreservesMeaning(W, Lam([], false, [five]), 1, Fixnum(5), []);
    assert w == Fixnum(5) by {
      RelatedShape(Converted, Fixnum(5), w);
    }
  }

  lemma CutsToFive(body: seq<Exp>)
    requires |body| == 3 && body[0] == body[2] == Lit(DFixnum(5))
    ensures ConvertSeq(body, Gen(0), 1).0 == ConvertSeq([Lit(DFixnum(5))], Gen(0), 1).0
    ensures ConvertSeq([Lit(DFixnum(5))], Gen(0), 1).0 == Some(Call([Var(Gen(0)), Lit(DFixnum(5))]))
  {
    var five := Lit(DFixnum(5));
    EarlyTailCuts(body, five, 0, Gen(0), 1);
    assert body[..1] == [five];
    assert ConvertFrom([], five, Gen(0), 1) == (None, 1) && [five][1..] == [];
    var m := ConvertFrom(body[0..], five, Gen(0), 1).1;
    assert ConvertFrom([], five, Gen(0), m) == (None, m);
    hide Convert;
  }

  lemma CallsWithFive(W: World, name: string, env: Env, d: Datum)
    requires Returns(name) && W([], name, [OFixnum(5)]) == Some(d) && Lookup(env, User(name)) == None
    ensures EvalBody(W, [Lit(DFixnum(5)), Call([Var(User(name)), Lit(DFixnum(5))]), Lit(DFixnum(5))], env, [], 1)
            == Ok(Fixnum(5), [Event(name, [OFixnum(5)])])
  {
    var five := Lit(DFixnum(5));
    hide IsBuiltin, ChangesCont;
    var es := [Var(User(name)), five];
    var call := Call(es);
    var evs := [Event(name, [OFixnum(5)])];
    CallReturns(W, name, d);
    assert Eval(W, Var(User(name)), env, [], 1) == Ok(Builtin(name), []);
    assert Eval(W, five, env, [], 1) == Ok(Fixnum(5), []);
    assert Eval(W, five, env, evs, 1) == Ok(Fixnum(5), evs);
    EvalAllPair(W, es[0], five, env, [], 1, Builtin(name), Fixnum(5));
    assert [Builtin(name), Fixnum(5)][1..] == [Fixnum(5)];
    assert Eval(W, call, env, [], 1) == Ok(DatumVal(d), evs);
    hide Eval;
    var b := [five, call, five];
    assert b[1..] == [call, five] && b[1..][1..] == [five];
    assert EvalBody(W, [five], env, evs, 1) == Ok(Fixnum(5), evs);
    assert EvalBody(W, b[1..], env, [], 1) == Ok(Fixnum(5), evs);
  }

  lemma CallReturns(W: World, name: string, d: Datum)
    requires Returns(name) && W([], name, [OFixnum(5)]) == Some(d)
    ensures Apply(W, Builtin(name), [Fixnum(5)], [], 1) == Ok(DatumVal(d), [Event(name, [OFixnum(5)])])
  {
    hide IsBuiltin, ChangesCont;
    assert [Fixnum(5)][1..] == [];
    assert ObserveAll([Fixnum(5)]) == [OFixnum(5)];
  }

  lemma EvalAllPair(W: World, x: Exp, y: Exp, env: Env, tr: seq<Event>, fuel: nat, v: Val, w: Val)
    requires Eval(W, x, env, tr, fuel) == Ok(v, tr) && Eval(W, y, env, tr, fuel) == Ok(w, tr)
    ensures EvalAll(W, [x, y], env, tr, fuel) == Ok([v, w], tr)
  {
    hide Eval;
    assert [x, y][1..] == [y] && [y][1..] == [];
    assert EvalAll(W, [], env, tr, fuel) == Ok([], tr);
    assert EvalAll(W, [y], env, tr, fuel) == Ok([w] + [], tr);
    assert [w] + [] == [w] && [v] + [w] == [v, w];
  }
}
