/** Converted programs have the form that the compiler's shortcuts rely on. */
module CpsForm {
  import opened Wrappers
  import opened Syntax
  import opened Cps
  import opened CompilerCode
  import opened CpsCorrect
  import opened ValueRelation

  lemma {:induction false} ReadyIsDirect(e: Exp)
    requires SelfEval(e)
    ensures Direct(e)
    decreases e, 1
  {
    if e.Op? {
      ReadyAllDirect(e.args);
    }
  }

  lemma {:induction false} ReadyAllDirect(es: seq<Exp>)
    requires SelfEvalAll(es)
    ensures DirectAll(es)
    decreases es, 0
  {
    if es != [] {
      ReadyIsDirect(es[0]);
      ReadyAllDirect(es[1..]);
    }
  }

  /** What stands in the place of an element of a combination: ready, or a lambda expression. */
  predicate Placed(e: Exp) { (SelfEval(e) || e.Lam?) && Direct(e) }

  /** Elements with code of their own are named by generated names. */
  predicate GenNames(es: seq<Exp>, ls: seq<Exp>) {
    |ls| == |es| && forall i {:trigger ls[i]} | 0 <= i < |ls| :: ls[i].Var? && !SelfEval(es[i]) ==> ls[i].x.Gen?
  }

  predicate PlacedAll(es: seq<Exp>) { forall i {:trigger es[i]} | 0 <= i < |es| :: Placed(es[i]) }

  lemma DirectCons(x: Exp, es: seq<Exp>)
    requires Direct(x) && DirectAll(es)
    ensures DirectAll([x] + es)
  {
    hide Direct;
    assert ([x] + es)[1..] == es;
  }

  lemma {:induction false} PlacedDirect(es: seq<Exp>)
    requires PlacedAll(es)
    ensures DirectAll(es)
    decreases |es|
  {
    hide Direct, SelfEval;
    if es != [] {
      assert Placed(es[0]);
      forall i {:trigger es[1..][i]} | 0 <= i < |es[1..]| ensures Placed(es[1..][i]) {
        assert es[1..][i] == es[i + 1];
      }
      PlacedDirect(es[1..]);
    }
  }

  lemma DirectTwo(x: Exp, y: Exp)
    requires (SelfEval(x) || x.Lam?) && Direct(x) && Direct(y)
    ensures Direct(Call([x, y]))
  {
    hide Direct, SelfEval;
    DirectCons(y, []);
    DirectCons(x, [y]);
    assert [y] + [] == [y] && [x] + [y] == [x, y];
    CallIsDirect([x, y]);
  }

  lemma DirectLam(ps: seq<Name>, rest: bool, b: Exp)
    requires Direct(b)
    ensures Direct(Lam(ps, rest, [b]))
  {
    assert [b][1..] == [];
  }

  lemma DeliverDirect(res: Option<Exp>, x: Exp, name: Name)
    requires (res.Some? ==> Direct(res.value)) && Direct(x) && name.Gen?
    ensures Direct(Deliver(res, x, name))
  {
    hide Direct;
    ReadyIsDirect(Var(name));
    match res
    case None => DirectTwo(Var(name), x);
    case Some(r) =>
      ControlDirect(res, name);
      DirectTwo(Lam([name], false, [r]), x);
  }

  lemma ControlDirect(res: Option<Exp>, name: Name)
    requires (res.Some? ==> Direct(res.value)) && name.Gen?
    ensures Direct(Control(res, name)) && (Control(res, name).Lam? || SelfEval(Control(res, name)))
    ensures res.Some? ==> Direct(Lam([name], false, [res.value]))
  {
    hide Direct;
    match res
    case None => ReadyIsDirect(Var(name));
    case Some(r) =>
      DirectLam([name], false, r);
  }

  lemma {:induction false} ConvertDirect(res: Option<Exp>, e: Exp, name: Name, n: nat)
    requires (res.Some? ==> Direct(res.value)) && name.Gen? && Source(e)
    ensures Direct(Convert(res, e, name, n).0)
    decreases e, 2
  {
    hide Direct, Deliver, Control, SelfEval, ConvertLambda;
    if SelfEval(e) {
      ReadyIsDirect(e);
      DeliverDirect(res, e, name);
    } else {
      match e
      case Lit(_) => SelfEvalAtom(e);
      case Quote(_) => SelfEvalAtom(e);
      case Var(_) => SelfEvalAtom(e);
      case Lam(_, _, _) =>
        ConvertLambdaDirect(e, n);
        DeliverDirect(res, ConvertLambda(e, n).0, name);
      case If(_, _, _) => ConvertIfDirect(res, e, name, n);
      case Op(op, args) =>
        hide Glue, MapArgs;
        var ls := MapArgs(args, n);
        MapArgsPlaced(args, n);
        PlacedDirect(ls.0);
        ControlDirect(res, name);
        OpDirect(op, ls.0);
        DirectTwo(Control(res, name), Op(op, ls.0));
        GlueDirect(Call([Control(res, name), Op(op, ls.0)]), args, ls.0, ls.1);
      case Call(es) =>
        hide Glue, MapArgs;
        var ls := MapArgs(es, n);
        MapArgsPlaced(es, n);
        ControlDirect(res, name);
        CallDirect(ls.0, Control(res, name));
        GlueDirect(Call([ls.0[0], Control(res, name)] + ls.0[1..]), es, ls.0, ls.1);
    }
  }

  lemma SelfEvalAtom(e: Exp)
    requires e.Lit? || e.Quote? || e.Var?
    ensures SelfEval(e)
  {
  }

  lemma OpDirect(op: Operator, args: seq<Exp>)
    requires DirectAll(args)
    ensures Direct(Op(op, args))
  {
  }

  lemma CallDirect(ls: seq<Exp>, x: Exp)
    requires PlacedAll(ls) && ls != [] && Direct(x)
    ensures Direct(Call([ls[0], x] + ls[1..]))
  {
    PlacedDirect(ls);
    assert Placed(ls[0]);
    hide Direct, SelfEval;
    DirectCons(x, ls[1..]);
    DirectCons(ls[0], [x] + ls[1..]);
    assert [ls[0], x] + ls[1..] == [ls[0]] + ([x] + ls[1..]);
    CallIsDirect([ls[0], x] + ls[1..]);
  }

  lemma CallIsDirect(es: seq<Exp>)
    requires es != [] && (es[0].Lam? || SelfEval(es[0])) && DirectAll(es)
    ensures Direct(Call(es))
  {
    hide SelfEval, DirectAll;
  }

  lemma {:induction false} ConvertIfDirect(res: Option<Exp>, e: Exp, name: Name, n: nat)
    requires e.If? && (res.Some? ==> Direct(res.value)) && name.Gen? && Source(e)
    ensures Direct(Convert(res, e, name, n).0)
    decreases e, 1
  {
    hide Direct, SelfEval;
    var n1 := if SelfEval(e.test) then n else n + 1;
    var p, y, z, escape := ConvertIfShape(res, e, name, n, n1);
    var lname := Gen(n1);
    var condition := If(p, y.0, z.0);
    var expr := BranchCode(res, p, y.0, z.0, name, lname);
    ConvertDirect(None, e.yes, escape, n1 + 1);
    ConvertDirect(None, e.no, escape, y.1);
    hide Convert;
    if SelfEval(e.test) {
      ReadyIsDirect(e.test);
    } else {
      SelfEvalAtom(p);
      ReadyIsDirect(p);
    }
    IfDirect(p, y.0, z.0);
    ControlDirect(Some(condition), lname);
    if res.Some? {
      ControlDirect(res, name);
      DirectTwo(Lam([lname], false, [condition]), Lam([name], false, [res.value]));
    }
    if !SelfEval(e.test) {
      ConvertDirect(Some(expr), e.test, Gen(n), z.1);
    }
  }

  lemma IfDirect(p: Exp, y: Exp, z: Exp)
    requires Direct(p) && Direct(y) && Direct(z)
    ensures Direct(If(p, y, z))
  {
  }

  lemma {:induction false} ConvertLambdaDirect(e: Exp, n: nat)
    requires e.Lam? && Source(e)
    ensures Direct(ConvertLambda(e, n).0)
    decreases e, 1
  {
    hide Direct, ConvertFrom;
    if e.body != [] {
      ConvertFromDirect(e.body, e.body[|e.body| - 1], Gen(n), n + 1);
      DirectLam([Gen(n)] + e.ps, e.rest, ConvertSeq(e.body, Gen(n), n + 1).0.value);
    }
  }

  lemma {:induction false} MapArgsPlaced(es: seq<Exp>, n: nat)
    requires SourceAll(es)
    ensures PlacedAll(MapArgs(es, n).0) && GenNames(es, MapArgs(es, n).0)
    decreases es, 0
  {
    hide Direct, SelfEval, Source, ConvertLambda;
    if es != [] {
      MapArgsPlaced(es[1..], n);
      var ls := MapArgs(es[1..], n);
      var x := if SelfEval(es[0]) then es[0] else if es[0].Lam? then ConvertLambda(es[0], ls.1).0 else Var(Gen(ls.1));
      assert MapArgs(es, n).0 == [x] + ls.0;
      if SelfEval(es[0]) {
        ReadyIsDirect(es[0]);
      } else if es[0].Lam? {
        ConvertLambdaDirect(es[0], ls.1);
        LambdaIsLam(es[0], ls.1);
      } else {
        SelfEvalAtom(x);
        ReadyIsDirect(x);
      }
    }
  }

  lemma LambdaIsLam(e: Exp, n: nat)
    requires e.Lam?
    ensures ConvertLambda(e, n).0.Lam?
  {
  }

  lemma {:induction false} GlueDirect(expr: Exp, es: seq<Exp>, ls: seq<Exp>, n: nat)
    requires GenNames(es, ls) && Direct(expr) && SourceAll(es)
    ensures Direct(Glue(expr, es, ls, n).0)
    decreases es, 0
  {
    hide Direct, SelfEval, Source, Convert;
    if es != [] {
      forall i {:trigger ls[1..][i]} | 0 <= i < |ls[1..]| ensures ls[1..][i].Var? && !SelfEval(es[1..][i]) ==> ls[1..][i].x.Gen? {
        assert ls[1..][i] == ls[i + 1] && es[1..][i] == es[i + 1];
      }
      GlueDirect(expr, es[1..], ls[1..], n);
      var inner := Glue(expr, es[1..], ls[1..], n);
      if !(SelfEval(es[0]) || es[0].Lam? || !ls[0].Var?) {
        ConvertDirect(Some(inner.0), es[0], ls[0].x, inner.1);
      }
    }
  }

  lemma {:induction false} ConvertFromDirect(es: seq<Exp>, last: Exp, name: Name, n: nat)
    requires SourceAll(es) && name.Gen? && es != []
    ensures Direct(ConvertFrom(es, last, name, n).0.value)
    decreases es, 0
  {
    hide Direct, SelfEval, Source, Convert, SameObject;
    var prev := ConvertFrom(es[1..], last, name, n);
    if |es| > 1 {
      ConvertFromDirect(es[1..], last, name, n);
    }
    var tail := |es| == 1 || SameObject(es[0], last);
    if SelfEval(es[0]) {
      if tail {
        SelfEvalAtom(Var(name));
        ReadyIsDirect(Var(name));
        ReadyIsDirect(es[0]);
        DirectTwo(Var(name), es[0]);
      }
    } else {
      ConvertDirect(prev.0, es[0], if tail then name else Gen(prev.1), if tail then prev.1 else prev.1 + 1);
    }
  }
}

/** Which source programs make the compiler take a call for that of a native function that a parameter hides. */
module CpsShortcut {
  import opened Wrappers
  import opened Syntax
  import opened Cps
  import opened CpsCorrect
  import opened CodeSpec
  import opened ValueRelation
  import opened CompilerCode
  import opened CompilerExact

  /**
   A parameter with the name of a native function is called, and the call is not the last thing its procedure does. In a
   branch of a conditional a call always hands on a named continuation.
   */
  predicate Risky(e: Exp, hidden: set<Name>, tail: bool) {
    match e
    case Lit(_) => false
    case Quote(_) => false
    case Var(_) => false
    case Op(_, args) => RiskyAll(args, hidden)
    case Lam(ps, _, body) => RiskyBody(body, Hidden(ps) + hidden)
    case If(test, yes, no) => Risky(test, hidden, false) || Risky(yes, hidden, true) || Risky(no, hidden, true)
    case Call(es) => (!tail && es != [] && es[0].Var? && es[0].x in hidden) || RiskyAll(es, hidden)
  }

  predicate RiskyAll(es: seq<Exp>, hidden: set<Name>) {
    es != [] && (Risky(es[0], hidden, false) || RiskyAll(es[1..], hidden))
  }

  predicate RiskyBody(es: seq<Exp>, hidden: set<Name>) {
    es != [] && if |es| == 1 then Risky(es[0], hidden, true) else Risky(es[0], hidden, false) || RiskyBody(es[1..], hidden)
  }

  // ----- ready and generated parts carry no risk

  lemma {:induction false} ReadyIsSafe(e: Exp, hidden: set<Name>, tail: bool)
    requires SelfEval(e)
    ensures !Risky(e, hidden, tail)
    decreases e, 1
  {
    if e.Op? {
      ReadyAllSafe(e.args, hidden);
    }
  }

  lemma {:induction false} ReadyAllSafe(es: seq<Exp>, hidden: set<Name>)
    requires SelfEvalAll(es)
    ensures !RiskyAll(es, hidden)
    decreases es, 0
  {
    if es != [] {
      ReadyIsSafe(es[0], hidden, false);
      ReadyAllSafe(es[1..], hidden);
    }
  }

  lemma CutReadySafe(e: Exp, hidden: set<Name>, tail: bool)
    requires SelfEval(e)
    ensures !Risky(Cut(e), hidden, tail) && !Mistaken(e, hidden)
  {
    CutReady(e);
    ReadyIsSafe(e, hidden, tail);
    ReadyIsRight(e, hidden);
  }

  /** Generated names hide nothing. */
  lemma GeneratedHideNothing(n: nat, ps: seq<Name>)
    ensures Hidden([Gen(n)] + ps) == Hidden(ps) && Hidden([Gen(n)]) == {}
  {
    hide IsBuiltin, ChangesCont;
    forall x ensures x in Hidden([Gen(n)] + ps) <==> x in Hidden(ps) {
    }
  }

  /** The names that parameters hide. */
  predicate Safes(hidden: set<Name>) { forall x | x in hidden :: ContSafe(x) }

  lemma MistakenOne(e: Exp, hidden: set<Name>)
    ensures MistakenAll([e], hidden) == Mistaken(e, hidden)
  {
    hide Mistaken;
    assert [e][1..] == [];
  }

  lemma MistakenCons(e: Exp, es: seq<Exp>, hidden: set<Name>)
    ensures MistakenAll([e] + es, hidden) == (Mistaken(e, hidden) || MistakenAll(es, hidden))
  {
    hide Mistaken;
    assert ([e] + es)[1..] == es;
  }

  lemma MistakenTwo(x: Exp, y: Exp, hidden: set<Name>)
    requires !DirectCont([x, y])
    ensures Mistaken(Call([x, y]), hidden) == (Mistaken(x, hidden) || Mistaken(y, hidden))
  {
    MistakenOne(y, hidden);
    MistakenCons(x, [y], hidden);
    assert [x] + [y] == [x, y];
  }

  /** Binding a generated name in front of `r`. */
  lemma MistakenLam(name: Name, r: Exp, hidden: set<Name>)
    requires name.Gen?
    ensures Mistaken(Lam([name], false, [r]), hidden) == Mistaken(r, hidden)
  {
    GeneratedHideNothing(name.n, []);
    assert [Gen(name.n)] == [name] && Hidden([name]) + hidden == hidden;
    MistakenOne(r, hidden);
    hide Hidden;
  }

  ghost predicate RestMistaken(res: Option<Exp>, hidden: set<Name>) { res.Some? && Mistaken(res.value, hidden) }

  lemma ControlRisk(res: Option<Exp>, name: Name, hidden: set<Name>)
    requires name.Gen?
    ensures Mistaken(Control(res, name), hidden) == RestMistaken(res, hidden)
    ensures Control(res, name).Lam? == res.Some? && !(Control(res, name).Var? && ContSafe(Control(res, name).x))
  {
    if res.Some? {
      MistakenLam(name, res.value, hidden);
    }
  }

  lemma DeliverRisk(res: Option<Exp>, x: Exp, name: Name, hidden: set<Name>)
    requires name.Gen?
    ensures Mistaken(Deliver(res, x, name), hidden) == (RestMistaken(res, hidden) || Mistaken(x, hidden))
  {
    if res.Some? {
      MistakenLam(name, res.value, hidden);
      MistakenTwo(Lam([name], false, [res.value]), x, hidden);
    } else {
      MistakenTwo(Var(name), x, hidden);
    }
  }

  // ----- conversion

  /** The risk in the elements of a combination that are lambda expressions, and in the others. */
  predicate RiskyLambdas(es: seq<Exp>, hidden: set<Name>) {
    es != [] && ((es[0].Lam? && Risky(Cut(es[0]), hidden, false)) || RiskyLambdas(es[1..], hidden))
  }

  predicate RiskyOthers(es: seq<Exp>, hidden: set<Name>) {
    es != [] && ((!es[0].Lam? && Risky(Cut(es[0]), hidden, false)) || RiskyOthers(es[1..], hidden))
  }

  lemma {:induction false} RiskSplits(es: seq<Exp>, hidden: set<Name>)
    ensures RiskyAll(CutAll(es), hidden) == (RiskyLambdas(es, hidden) || RiskyOthers(es, hidden))
    decreases |es|
  {
    hide Cut, Risky;
    if es != [] {
      RiskSplits(es[1..], hidden);
      assert CutAll(es)[1..] == CutAll(es[1..]);
    }
  }

  /**
   Converted code has a mistaken call exactly where the source, as far as conversion keeps it, is risky. A call is in tail
   position when there is no rest.
   */
  lemma {:induction false} ConvertRisk(res: Option<Exp>, e: Exp, name: Name, n: nat, hidden: set<Name>)
    requires name.Gen? && Source(e) && Safes(hidden)
    ensures Mistaken(Convert(res, e, name, n).0, hidden) == (RestMistaken(res, hidden) || Risky(Cut(e), hidden, res.None?))
    decreases e, 2
  {
    hide Mistaken, RestMistaken, Deliver, Control, SelfEval, ConvertLambda, Safes, Cut, Risky;
    if SelfEval(e) {
      CutReadySafe(e, hidden, res.None?);
      DeliverRisk(res, e, name, hidden);
    } else {
      match e
      case Lit(_) => AtomIsReady(e);
      case Quote(_) => AtomIsReady(e);
      case Var(_) => AtomIsReady(e);
      case Lam(_, _, _) =>
        LambdaRisk(e, n, hidden);
        LambdaTail(e, hidden);
        DeliverRisk(res, ConvertLambda(e, n).0, name, hidden);
      case If(_, _, _) => IfRisk(res, e, name, n, hidden);
      case Op(op, args) => OpRisk(res, op, args, name, n, hidden);
      case Call(es) => CallRisk(res, es, name, n, hidden);
    }
  }

  lemma AtomIsReady(e: Exp)
    requires e.Lit? || e.Quote? || e.Var?
    ensures SelfEval(e)
  {
  }

  lemma LambdaTail(e: Exp, hidden: set<Name>)
    requires e.Lam?
    ensures Risky(Cut(e), hidden, true) == Risky(Cut(e), hidden, false)
  {
    hide CutBody;
  }

  lemma {:induction false} OpRisk(res: Option<Exp>, op: Operator, args: seq<Exp>, name: Name, n: nat, hidden: set<Name>)
    requires name.Gen? && SourceAll(args) && Safes(hidden) && !SelfEval(Op(op, args))
    ensures Mistaken(Convert(res, Op(op, args), name, n).0, hidden)
            == (RestMistaken(res, hidden) || Risky(Cut(Op(op, args)), hidden, res.None?))
    decreases args, 1
  {
    var ls, n1 := MapArgs(args, n).0, MapArgs(args, n).1;
    var k := Control(res, name);
    assert Convert(res, Op(op, args), name, n) == Glue(Call([k, Op(op, ls)]), args, ls, n1);
    assert Risky(Cut(Op(op, args)), hidden, res.None?) == RiskyAll(CutAll(args), hidden);
    assert Mistaken(Op(op, ls), hidden) == MistakenAll(ls, hidden);
    ControlRisk(res, name, hidden);
    MistakenTwo(k, Op(op, ls), hidden);
    hide Mistaken, RestMistaken, Control, SelfEval, Convert, Glue, MapArgs, Safes, Risky, Cut, CutAll;
    ElementsRisk(args, n, hidden);
    GlueRisk(Call([k, Op(op, ls)]), args, ls, n1, hidden);
    RiskSplits(args, hidden);
  }

  lemma {:induction false} CallRisk(res: Option<Exp>, es: seq<Exp>, name: Name, n: nat, hidden: set<Name>)
    requires name.Gen? && es != [] && SourceAll(es) && Safes(hidden)
    ensures Mistaken(Convert(res, Call(es), name, n).0, hidden) == (RestMistaken(res, hidden) || Risky(Cut(Call(es)), hidden, res.None?))
    decreases es, 1
  {
    var ls, n1 := MapArgs(es, n).0, MapArgs(es, n).1;
    var k := Control(res, name);
    var call := [ls[0], k] + ls[1..];
    assert Convert(res, Call(es), name, n) == Glue(Call(call), es, ls, n1);
    ControlRisk(res, name, hidden);
    CallParts(ls[0], k, ls[1..], hidden);
    CutOfCall(es, hidden, res.None?);
    FirstElement(es, n, hidden);
    assert ls == [ls[0]] + ls[1..];
    MistakenCons(ls[0], ls[1..], hidden);
    hide Mistaken, MistakenAll, RestMistaken, Control, Convert, Glue, MapArgs, Risky, Cut, CutAll;
    ElementsRisk(es, n, hidden);
    GlueRisk(Call(call), es, ls, n1, hidden);
    RiskSplits(es, hidden);
  }

  lemma CallParts(f: Exp, k: Exp, rest: seq<Exp>, hidden: set<Name>)
    ensures Mistaken(Call([f, k] + rest), hidden)
            == ((f.Var? && ContSafe(f.x) && k.Lam? && f.x in hidden) || Mistaken(f, hidden) || Mistaken(k, hidden) || MistakenAll(rest, hidden))
  {
    MistakenCons(k, rest, hidden);
    MistakenCons(f, [k] + rest, hidden);
    assert [f] + ([k] + rest) == [f, k] + rest;
  }

  lemma CutOfCall(es: seq<Exp>, hidden: set<Name>, tail: bool)
    requires es != []
    ensures Risky(Cut(Call(es)), hidden, tail) == ((!tail && es[0].Var? && es[0].x in hidden) || RiskyAll(CutAll(es), hidden))
  {
    assert CutAll(es)[0] == Cut(es[0]);
    assert Cut(es[0]).Var? == es[0].Var? && (es[0].Var? ==> Cut(es[0]) == es[0]);
  }

  /** The procedure of a call is a variable of the program exactly when it was one. */
  lemma FirstElement(es: seq<Exp>, n: nat, hidden: set<Name>)
    requires es != [] && Safes(hidden)
    ensures var f := MapArgs(es, n).0[0];
            (f.Var? && ContSafe(f.x) && f.x in hidden) == (es[0].Var? && es[0].x in hidden)
  {
    hide IsBuiltin, ChangesCont, ConvertFrom;
    if es[0].Var? {
      AtomIsReady(es[0]);
    }
  }

  lemma {:induction false} ElementsRisk(es: seq<Exp>, n: nat, hidden: set<Name>)
    requires SourceAll(es) && Safes(hidden)
    ensures MistakenAll(MapArgs(es, n).0, hidden) == RiskyLambdas(es, hidden) && NamedByGenerated(es, MapArgs(es, n).0)
    decreases es, 0
  {
    hide Mistaken, SelfEval, ConvertLambda, Source, Cut, Risky, Safes;
    if es != [] {
      ElementsRisk(es[1..], n, hidden);
      var ls := MapArgs(es[1..], n);
      var x := if SelfEval(es[0]) then es[0] else if es[0].Lam? then ConvertLambda(es[0], ls.1).0 else Var(Gen(ls.1));
      assert MapArgs(es, n).0 == [x] + ls.0;
      MistakenCons(x, ls.0, hidden);
      if SelfEval(es[0]) {
        ReadyNoLambda(es[0]);
        CutReadySafe(es[0], hidden, false);
      } else if es[0].Lam? {
        LambdaRisk(es[0], ls.1, hidden);
        LambdaTail(es[0], hidden);
      } else {
        AtomIsReady(x);
        ReadyIsRight(x, hidden);
      }
    }
  }

  lemma ReadyNoLambda(e: Exp)
    requires SelfEval(e)
    ensures !e.Lam?
  {
  }

  predicate NamedByGenerated(es: seq<Exp>, ls: seq<Exp>)
    requires |ls| == |es|
  {
    forall i {:trigger ls[i]} | 0 <= i < |ls| && !SelfEval(es[i]) && !es[i].Lam? :: ls[i].Var? && ls[i].x.Gen?
  }

  lemma {:induction false} GlueRisk(expr: Exp, es: seq<Exp>, ls: seq<Exp>, n: nat, hidden: set<Name>)
    requires |ls| == |es| && NamedByGenerated(es, ls) && SourceAll(es) && Safes(hidden)
    ensures Mistaken(Glue(expr, es, ls, n).0, hidden) == (Mistaken(expr, hidden) || RiskyOthers(es, hidden))
    decreases es, 0
  {
    hide Mistaken, SelfEval, Source, Cut, Risky, Safes, Convert;
    if es != [] {
      forall i {:trigger ls[1..][i]} | 0 <= i < |ls[1..]| && !SelfEval(es[1..][i]) && !es[1..][i].Lam?
        ensures ls[1..][i].Var? && ls[1..][i].x.Gen?
      {
        assert ls[1..][i] == ls[i + 1] && es[1..][i] == es[i + 1];
      }
      GlueRisk(expr, es[1..], ls[1..], n, hidden);
      var inner := Glue(expr, es[1..], ls[1..], n);
      if SelfEval(es[0]) {
        CutReadySafe(es[0], hidden, false);
      } else if !es[0].Lam? {
        assert ls[0].Var? && ls[0].x.Gen?;
        ConvertRisk(Some(inner.0), es[0], ls[0].x, inner.1, hidden);
      }
    }
  }

  lemma {:induction false} IfRisk(res: Option<Exp>, e: Exp, name: Name, n: nat, hidden: set<Name>)
    requires e.If? && name.Gen? && Source(e) && Safes(hidden)
    ensures Mistaken(Convert(res, e, name, n).0, hidden) == (RestMistaken(res, hidden) || Risky(Cut(e), hidden, res.None?))
    decreases e, 1
  {
    hide Source, Mistaken, SelfEval, Risky, Cut, Safes, Convert;
    SourceOfIf(e);
    var n1 := if SelfEval(e.test) then n else n + 1;
    var p, y, z, escape := ConvertIfShape(res, e, name, n, n1);
    IfSplits(e, p, y.0, z.0, hidden, res.None?);
    ConvertRisk(None, e.yes, escape, n1 + 1, hidden);
    ConvertRisk(None, e.no, escape, y.1, hidden);
    TestIsRight(e.test, p, n, hidden);
    BranchRisk(res, p, y.0, z.0, name, Gen(n1), hidden);
    if !SelfEval(e.test) {
      ConvertRisk(Some(BranchCode(res, p, y.0, z.0, name, Gen(n1))), e.test, Gen(n), z.1, hidden);
    } else {
      CutReadySafe(e.test, hidden, false);
    }
  }

  lemma SourceOfIf(e: Exp)
    requires e.If? && Source(e)
    ensures Source(e.test) && Source(e.yes) && Source(e.no)
  {
  }

  lemma TestIsRight(test: Exp, p: Exp, n: nat, hidden: set<Name>)
    requires p == if SelfEval(test) then test else Var(Gen(n))
    ensures !Mistaken(p, hidden)
  {
    if SelfEval(test) {
      ReadyIsRight(test, hidden);
    }
  }

  lemma BranchRisk(res: Option<Exp>, p: Exp, y: Exp, z: Exp, name: Name, lname: Name, hidden: set<Name>)
    requires name.Gen? && lname.Gen?
    ensures Mistaken(BranchCode(res, p, y, z, name, lname), hidden) == (RestMistaken(res, hidden) || Mistaken(If(p, y, z), hidden))
  {
    hide Mistaken;
    if res.Some? {
      MistakenLam(lname, If(p, y, z), hidden);
      MistakenLam(name, res.value, hidden);
      MistakenTwo(Lam([lname], false, [If(p, y, z)]), Lam([name], false, [res.value]), hidden);
    }
  }

  lemma IfSplits(e: Exp, p: Exp, y: Exp, z: Exp, hidden: set<Name>, tail: bool)
    requires e.If?
    ensures Risky(Cut(e), hidden, tail)
            == (Risky(Cut(e.test), hidden, false) || Risky(Cut(e.yes), hidden, true) || Risky(Cut(e.no), hidden, true))
    ensures Mistaken(If(p, y, z), hidden) == (Mistaken(p, hidden) || Mistaken(y, hidden) || Mistaken(z, hidden))
  {
  }

  lemma {:induction false} LambdaRisk(e: Exp, n: nat, hidden: set<Name>)
    requires e.Lam? && Source(e) && Safes(hidden)
    ensures Mistaken(ConvertLambda(e, n).0, hidden) == Risky(Cut(e), hidden, true)
    decreases e, 1
  {
    hide ConvertFrom, CutFrom, Hidden, ContSafe, RiskyBody;
    GeneratedHideNothing(n, e.ps);
    var inner := Hidden(e.ps) + hidden;
    assert Safes(inner) by {
      HiddenAreSafe(e.ps);
    }
    var last := e.body[|e.body| - 1];
    BodyRisk(e.body, last, Gen(n), n + 1, inner);
    var b := ConvertSeq(e.body, Gen(n), n + 1).0.value;
    MistakenOne(b, inner);
    assert ConvertLambda(e, n).0 == Lam([Gen(n)] + e.ps, e.rest, [b]);
    assert Cut(e) == Lam(e.ps, e.rest, CutFrom(e.body, last));
  }

  lemma HiddenAreSafe(ps: seq<Name>)
    ensures Safes(Hidden(ps))
  {
  }

  lemma {:induction false} BodyRisk(es: seq<Exp>, last: Exp, name: Name, n: nat, hidden: set<Name>)
    requires es != [] && name.Gen? && SourceAll(es) && Safes(hidden)
    ensures Mistaken(ConvertFrom(es, last, name, n).0.value, hidden) == RiskyBody(CutFrom(es, last), hidden)
    decreases es, 0
  {
    hide Mistaken, SelfEval, Source, Cut, Risky, Safes, Convert, SameObject;
    var prev := ConvertFrom(es[1..], last, name, n);
    if |es| > 1 {
      BodyRisk(es[1..], last, name, n, hidden);
    } else {
      assert es[1..] == [];
    }
    var tail := |es| == 1 || SameObject(es[0], last);
    if SelfEval(es[0]) {
      CutReadySafe(es[0], hidden, true);
      CutReadySafe(es[0], hidden, false);
      if tail {
        TailIsRight(name, es[0], hidden);
      }
    } else {
      SameIsReady(es[0], last);
      ConvertRisk(prev.0, es[0], if tail then name else Gen(prev.1), if tail then prev.1 else prev.1 + 1, hidden);
    }
    CutFromShape(es, last);
  }

  lemma TailIsRight(name: Name, e: Exp, hidden: set<Name>)
    requires name.Gen? && SelfEval(e)
    ensures !Mistaken(Call([Var(name), e]), hidden)
  {
    ReadyIsRight(e, hidden);
    MistakenTwo(Var(name), e, hidden);
  }

  lemma SameIsReady(x: Exp, y: Exp)
    ensures SameObject(x, y) ==> SelfEval(x)
  {
  }

  lemma CutFromShape(es: seq<Exp>, last: Exp)
    requires es != []
    ensures var cut := CutFrom(es, last);
            if |es| == 1 || SameObject(es[0], last) then cut == [Cut(es[0])]
            else |cut| > 1 && cut[0] == Cut(es[0]) && cut[1..] == CutFrom(es[1..], last)
  {
    hide Cut, SameObject;
    if |es| == 1 {
      assert CutFrom(es[1..], last) == [];
    }
  }
}
