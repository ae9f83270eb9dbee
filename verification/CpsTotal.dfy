/** Which source programs compile once they are converted. */
module CpsTotal {
  import opened Wrappers
  import opened Syntax
  import opened Cps
  import opened CodeSpec
  import opened ValueRelation
  import opened CpsCorrect
  import opened Compiler
  import opened CompilerTotal
  import opened CpsShortcut
  import CpsForm

  /**
   No unknown variable and no literal of another kind, in what conversion keeps: a ready expression that is not the last
   of its body is dropped unseen.
   */
  ghost predicate Defined(e: Exp, bound: iset<Name>) {
    match e
    case Lit(d) => SelfQuoting(d)
    case Quote(_) => true
    case Var(x) => Known(x, bound)
    case Op(_, args) => DefinedAll(args, bound)
    case Lam(ps, _, body) => DefinedBody(body, bound + Names(ps))
    case If(test, yes, no) => Defined(test, bound) && Defined(yes, bound) && Defined(no, bound)
    case Call(es) => DefinedAll(es, bound)
  }

  ghost predicate DefinedAll(es: seq<Exp>, bound: iset<Name>) {
    es == [] || (Defined(es[0], bound) && DefinedAll(es[1..], bound))
  }

  ghost predicate DefinedBody(es: seq<Exp>, bound: iset<Name>) {
    es == [] || if |es| == 1 then Defined(es[0], bound) else (SelfEval(es[0]) || Defined(es[0], bound)) && DefinedBody(es[1..], bound)
  }

  // ----- where all generated names are bound

  ghost predicate Roomy(bound: iset<Name>) { forall n: nat :: Gen(n) in bound }

  lemma GeneratedAddNothing(n: nat, ps: seq<Name>, bound: iset<Name>)
    requires Roomy(bound)
    ensures bound + Names([Gen(n)] + ps) == bound + Names(ps) && bound + Names([Gen(n)]) == bound && Roomy(bound + Names(ps))
  {
  }

  lemma {:induction false} ReadyDefined(e: Exp, bound: iset<Name>)
    requires SelfEval(e) && Source(e)
    ensures Compilable(e, bound) == Defined(e, bound)
    decreases e, 1
  {
    if e.Op? {
      ReadyAllDefined(e.args, bound);
    }
  }

  lemma {:induction false} ReadyAllDefined(es: seq<Exp>, bound: iset<Name>)
    requires SelfEvalAll(es) && SourceAll(es)
    ensures CompilableAll(es, bound) == DefinedAll(es, bound)
    decreases es, 0
  {
    if es != [] {
      ReadyDefined(es[0], bound);
      ReadyAllDefined(es[1..], bound);
    }
  }

  lemma CutReadyDefined(e: Exp, bound: iset<Name>)
    requires SelfEval(e) && Source(e)
    ensures Compilable(e, bound) == Defined(Cut(e), bound) && SelfEval(Cut(e))
  {
    CutReady(e);
    ReadyDefined(e, bound);
  }

  lemma {:induction false} CutNotReady(e: Exp)
    requires !SelfEval(e)
    ensures !SelfEval(Cut(e))
    decreases e, 1
  {
    if e.Op? {
      CutNotReadyAll(e.args);
    }
  }

  lemma {:induction false} CutNotReadyAll(es: seq<Exp>)
    requires !SelfEvalAll(es)
    ensures !SelfEvalAll(CutAll(es))
    decreases es, 0
  {
    assert CutAll(es)[1..] == CutAll(es[1..]);
    if !SelfEval(es[0]) {
      CutNotReady(es[0]);
    } else {
      CutNotReadyAll(es[1..]);
    }
  }

  lemma CompilableCons(e: Exp, es: seq<Exp>, bound: iset<Name>)
    ensures CompilableAll([e] + es, bound) == (Compilable(e, bound) && CompilableAll(es, bound))
  {
    hide Compilable;
    assert ([e] + es)[1..] == es;
  }

  lemma CompilableOne(e: Exp, bound: iset<Name>)
    ensures CompilableAll([e], bound) == Compilable(e, bound)
  {
    hide Compilable;
    assert [e][1..] == [];
  }

  lemma CompilableTwo(x: Exp, y: Exp, bound: iset<Name>)
    ensures Compilable(Call([x, y]), bound) == (Compilable(x, bound) && Compilable(y, bound))
  {
    CompilableOne(y, bound);
    CompilableCons(x, [y], bound);
    assert [x] + [y] == [x, y];
  }

  /** Binding a generated name in front of `r`. */
  lemma CompilableLam(name: Name, r: Exp, bound: iset<Name>)
    requires name.Gen? && Roomy(bound)
    ensures Compilable(Lam([name], false, [r]), bound) == Compilable(r, bound)
  {
    GeneratedAddNothing(name.n, [], bound);
    assert [Gen(name.n)] == [name];
    CompilableOne(r, bound);
    hide Names;
  }

  ghost predicate RestCompilable(res: Option<Exp>, bound: iset<Name>) { res.Some? ==> Compilable(res.value, bound) }

  lemma ControlDefined(res: Option<Exp>, name: Name, bound: iset<Name>)
    requires name.Gen? && Roomy(bound)
    ensures Compilable(Control(res, name), bound) == RestCompilable(res, bound)
  {
    if res.Some? {
      CompilableLam(name, res.value, bound);
    }
  }

  lemma DeliverDefined(res: Option<Exp>, x: Exp, name: Name, bound: iset<Name>)
    requires name.Gen? && Roomy(bound)
    ensures Compilable(Deliver(res, x, name), bound) == (RestCompilable(res, bound) && Compilable(x, bound))
  {
    if res.Some? {
      CompilableLam(name, res.value, bound);
      CompilableTwo(Lam([name], false, [res.value]), x, bound);
    } else {
      CompilableTwo(Var(name), x, bound);
    }
  }

  // ----- conversion

  /** The elements of a combination that stand in the call, ready or as a lambda expression, and the others. */
  ghost predicate DefinedPlaced(es: seq<Exp>, bound: iset<Name>) {
    es == [] || ((SelfEval(es[0]) || es[0].Lam? ==> Defined(Cut(es[0]), bound)) && DefinedPlaced(es[1..], bound))
  }

  ghost predicate DefinedOthers(es: seq<Exp>, bound: iset<Name>) {
    es == [] || ((!SelfEval(es[0]) && !es[0].Lam? ==> Defined(Cut(es[0]), bound)) && DefinedOthers(es[1..], bound))
  }

  lemma {:induction false} DefinedSplits(es: seq<Exp>, bound: iset<Name>)
    ensures DefinedAll(CutAll(es), bound) == (DefinedPlaced(es, bound) && DefinedOthers(es, bound))
    decreases |es|
  {
    hide Cut, Defined;
    if es != [] {
      DefinedSplits(es[1..], bound);
      assert CutAll(es)[1..] == CutAll(es[1..]);
    }
  }

  /** Converted code compiles exactly where the source is defined, as far as conversion keeps it. */
  lemma {:induction false} ConvertDefined(res: Option<Exp>, e: Exp, name: Name, n: nat, bound: iset<Name>)
    requires name.Gen? && Source(e) && Roomy(bound)
    ensures Compilable(Convert(res, e, name, n).0, bound) == (RestCompilable(res, bound) && Defined(Cut(e), bound))
    decreases e, 2
  {
    hide Compilable, RestCompilable, Deliver, Control, SelfEval, ConvertLambda, Roomy, Cut, Defined;
    if SelfEval(e) {
      CutReadyDefined(e, bound);
      DeliverDefined(res, e, name, bound);
    } else {
      match e
      case Lit(_) => AtomIsReady(e);
      case Quote(_) => AtomIsReady(e);
      case Var(_) => AtomIsReady(e);
      case Lam(_, _, _) =>
        LambdaDefined(e, n, bound);
        DeliverDefined(res, ConvertLambda(e, n).0, name, bound);
      case If(_, _, _) => IfDefined(res, e, name, n, bound);
      case Op(op, args) => OpDefined(res, op, args, name, n, bound);
      case Call(es) => CallDefined(res, es, name, n, bound);
    }
  }

  lemma {:induction false} OpDefined(res: Option<Exp>, op: Operator, args: seq<Exp>, name: Name, n: nat, bound: iset<Name>)
    requires name.Gen? && SourceAll(args) && |args| == Arity(op) && Roomy(bound) && !SelfEval(Op(op, args))
    ensures Compilable(Convert(res, Op(op, args), name, n).0, bound) == (RestCompilable(res, bound) && Defined(Cut(Op(op, args)), bound))
    decreases args, 1
  {
    var ls, n1 := MapArgs(args, n).0, MapArgs(args, n).1;
    var k := Control(res, name);
    assert Convert(res, Op(op, args), name, n) == Glue(Call([k, Op(op, ls)]), args, ls, n1);
    assert Defined(Cut(Op(op, args)), bound) == DefinedAll(CutAll(args), bound);
    assert Compilable(Op(op, ls), bound) == CompilableAll(ls, bound);
    ControlDefined(res, name, bound);
    CompilableTwo(k, Op(op, ls), bound);
    hide Compilable, RestCompilable, Control, SelfEval, Convert, Glue, MapArgs, Roomy, Defined, Cut, CutAll;
    ElementsDefined(args, n, bound);
    GlueDefined(Call([k, Op(op, ls)]), args, ls, n1, bound);
    DefinedSplits(args, bound);
  }

  lemma {:induction false} CallDefined(res: Option<Exp>, es: seq<Exp>, name: Name, n: nat, bound: iset<Name>)
    requires name.Gen? && es != [] && SourceAll(es) && Roomy(bound)
    ensures Compilable(Convert(res, Call(es), name, n).0, bound) == (RestCompilable(res, bound) && Defined(Cut(Call(es)), bound))
    decreases es, 1
  {
    var ls, n1 := MapArgs(es, n).0, MapArgs(es, n).1;
    var k := Control(res, name);
    var call := [ls[0], k] + ls[1..];
    assert Convert(res, Call(es), name, n) == Glue(Call(call), es, ls, n1);
    assert Defined(Cut(Call(es)), bound) == DefinedAll(CutAll(es), bound);
    ControlDefined(res, name, bound);
    CallParts(ls[0], k, ls[1..], bound);
    assert ls == [ls[0]] + ls[1..];
    CompilableCons(ls[0], ls[1..], bound);
    hide Compilable, CompilableAll, RestCompilable, Control, Convert, Glue, MapArgs, Defined, Cut, CutAll;
    ElementsDefined(es, n, bound);
    GlueDefined(Call(call), es, ls, n1, bound);
    DefinedSplits(es, bound);
  }

  lemma CallParts(f: Exp, k: Exp, rest: seq<Exp>, bound: iset<Name>)
    ensures Compilable(Call([f, k] + rest), bound) == (Compilable(f, bound) && Compilable(k, bound) && CompilableAll(rest, bound))
  {
    CompilableCons(k, rest, bound);
    CompilableCons(f, [k] + rest, bound);
    assert [f] + ([k] + rest) == [f, k] + rest;
  }

  lemma {:induction false} ElementsDefined(es: seq<Exp>, n: nat, bound: iset<Name>)
    requires SourceAll(es) && Roomy(bound)
    ensures CompilableAll(MapArgs(es, n).0, bound) == DefinedPlaced(es, bound) && NamedByGenerated(es, MapArgs(es, n).0)
    decreases es, 0
  {
    hide Compilable, SelfEval, ConvertLambda, Source, Cut, Defined, Roomy;
    if es != [] {
      ElementsDefined(es[1..], n, bound);
      var ls := MapArgs(es[1..], n);
      var x := if SelfEval(es[0]) then es[0] else if es[0].Lam? then ConvertLambda(es[0], ls.1).0 else Var(Gen(ls.1));
      assert MapArgs(es, n).0 == [x] + ls.0;
      CompilableCons(x, ls.0, bound);
      if SelfEval(es[0]) {
        CutReadyDefined(es[0], bound);
      } else if es[0].Lam? {
        LambdaDefined(es[0], ls.1, bound);
      } else {
        GeneratedKnown(ls.1, bound);
      }
    }
  }

  lemma GeneratedKnown(n: nat, bound: iset<Name>)
    requires Roomy(bound)
    ensures Compilable(Var(Gen(n)), bound)
  {
  }

  lemma {:induction false} GlueDefined(expr: Exp, es: seq<Exp>, ls: seq<Exp>, n: nat, bound: iset<Name>)
    requires |ls| == |es| && NamedByGenerated(es, ls) && SourceAll(es) && Roomy(bound)
    ensures Compilable(Glue(expr, es, ls, n).0, bound) == (Compilable(expr, bound) && DefinedOthers(es, bound))
    decreases es, 0
  {
    hide Compilable, SelfEval, Source, Cut, Defined, Roomy, Convert;
    if es != [] {
      forall i {:trigger ls[1..][i]} | 0 <= i < |ls[1..]| && !SelfEval(es[1..][i]) && !es[1..][i].Lam?
        ensures ls[1..][i].Var? && ls[1..][i].x.Gen?
      {
        assert ls[1..][i] == ls[i + 1] && es[1..][i] == es[i + 1];
      }
      GlueDefined(expr, es[1..], ls[1..], n, bound);
      var inner := Glue(expr, es[1..], ls[1..], n);
      if !SelfEval(es[0]) && !es[0].Lam? {
        assert ls[0].Var? && ls[0].x.Gen?;
        ConvertDefined(Some(inner.0), es[0], ls[0].x, inner.1, bound);
        assert RestCompilable(Some(inner.0), bound) == Compilable(inner.0, bound);
      }
    }
  }

  lemma {:induction false} IfDefined(res: Option<Exp>, e: Exp, name: Name, n: nat, bound: iset<Name>)
    requires e.If? && name.Gen? && Source(e) && Roomy(bound)
    ensures Compilable(Convert(res, e, name, n).0, bound) == (RestCompilable(res, bound) && Defined(Cut(e), bound))
    decreases e, 1
  {
    hide Source, Compilable, SelfEval, Defined, Cut, Roomy, Convert;
    SourceOfIf(e);
    var n1 := if SelfEval(e.test) then n else n + 1;
    var p, y, z, escape := ConvertIfShape(res, e, name, n, n1);
    IfParts(e, p, y.0, z.0, bound);
    ConvertDefined(None, e.yes, escape, n1 + 1, bound);
    ConvertDefined(None, e.no, escape, y.1, bound);
    BranchDefined(res, p, y.0, z.0, name, Gen(n1), bound);
    if !SelfEval(e.test) {
      GeneratedKnown(n, bound);
      ConvertDefined(Some(BranchCode(res, p, y.0, z.0, name, Gen(n1))), e.test, Gen(n), z.1, bound);
    } else {
      CutReadyDefined(e.test, bound);
    }
  }

  lemma BranchDefined(res: Option<Exp>, p: Exp, y: Exp, z: Exp, name: Name, lname: Name, bound: iset<Name>)
    requires name.Gen? && lname.Gen? && Roomy(bound)
    ensures Compilable(BranchCode(res, p, y, z, name, lname), bound) == (RestCompilable(res, bound) && Compilable(If(p, y, z), bound))
  {
    hide Compilable, Roomy;
    if res.Some? {
      CompilableLam(lname, If(p, y, z), bound);
      CompilableLam(name, res.value, bound);
      CompilableTwo(Lam([lname], false, [If(p, y, z)]), Lam([name], false, [res.value]), bound);
    }
  }

  lemma IfParts(e: Exp, p: Exp, y: Exp, z: Exp, bound: iset<Name>)
    requires e.If?
    ensures Defined(Cut(e), bound) == (Defined(Cut(e.test), bound) && Defined(Cut(e.yes), bound) && Defined(Cut(e.no), bound))
    ensures Compilable(If(p, y, z), bound) == (Compilable(p, bound) && Compilable(y, bound) && Compilable(z, bound))
  {
  }

  lemma {:induction false} LambdaDefined(e: Exp, n: nat, bound: iset<Name>)
    requires e.Lam? && Source(e) && Roomy(bound)
    ensures Compilable(ConvertLambda(e, n).0, bound) == Defined(Cut(e), bound)
    decreases e, 1
  {
    hide ConvertFrom, CutFrom, Names, DefinedBody, Roomy;
    GeneratedAddNothing(n, e.ps, bound);
    var inner := bound + Names(e.ps);
    var last := e.body[|e.body| - 1];
    BodyDefined(e.body, last, Gen(n), n + 1, inner);
    var b := ConvertSeq(e.body, Gen(n), n + 1).0.value;
    CompilableOne(b, inner);
    assert ConvertLambda(e, n).0 == Lam([Gen(n)] + e.ps, e.rest, [b]);
    assert Cut(e) == Lam(e.ps, e.rest, CutFrom(e.body, last));
  }

  lemma {:induction false} BodyDefined(es: seq<Exp>, last: Exp, name: Name, n: nat, bound: iset<Name>)
    requires es != [] && name.Gen? && SourceAll(es) && Roomy(bound)
    ensures Compilable(ConvertFrom(es, last, name, n).0.value, bound) == DefinedBody(CutFrom(es, last), bound)
    decreases es, 0
  {
    hide Compilable, SelfEval, Source, Cut, Defined, Roomy, Convert, SameObject;
    var prev := ConvertFrom(es[1..], last, name, n);
    if |es| > 1 {
      BodyDefined(es[1..], last, name, n, bound);
    } else {
      assert es[1..] == [];
    }
    var tail := |es| == 1 || SameObject(es[0], last);
    if SelfEval(es[0]) {
      CutReadyDefined(es[0], bound);
      if tail {
        PassDefined(name, es[0], bound);
      }
    } else {
      SameIsReady(es[0], last);
      CutNotReady(es[0]);
      ConvertDefined(prev.0, es[0], if tail then name else Gen(prev.1), if tail then prev.1 else prev.1 + 1, bound);
    }
    CutFromShape(es, last);
  }

  lemma PassDefined(name: Name, x: Exp, bound: iset<Name>)
    requires name.Gen? && Roomy(bound)
    ensures Compilable(Call([Var(name), x]), bound) == Compilable(x, bound)
  {
    CompilableTwo(Var(name), x, bound);
    GeneratedKnown(name.n, bound);
  }

  // ----- generated names are bound

  /** No generated name is free but those numbered in `ks`. */
  ghost predicate Shut(xs: set<Name>, ks: set<nat>) { forall k: nat | Gen(k) in xs :: k in ks }

  /** A value name in front of the rest, or a continuation that is bound. */
  ghost predicate Continued(res: Option<Exp>, name: Name, ks: set<nat>) {
    name.Gen? && if res.None? then name.n in ks else Shut(Free(res.value), ks + {name.n})
  }

  lemma {:induction false} SourceShut(e: Exp)
    requires SelfEval(e) && Source(e)
    ensures Shut(Free(e), {})
    decreases e, 1
  {
    if e.Op? {
      SourceAllShut(e.args);
    }
  }

  lemma {:induction false} SourceAllShut(es: seq<Exp>)
    requires SelfEvalAll(es) && SourceAll(es)
    ensures Shut(FreeAll(es), {})
    decreases es, 0
  {
    if es != [] {
      SourceShut(es[0]);
      SourceAllShut(es[1..]);
    }
  }

  lemma FreeCons(x: Exp, es: seq<Exp>)
    ensures FreeAll([x] + es) == Free(x) + FreeAll(es)
  {
    hide Free;
    assert ([x] + es)[1..] == es;
  }

  lemma FreeOfCall(f: Exp, k: Exp, rest: seq<Exp>)
    ensures Free(Call([f, k] + rest)) == Free(f) + Free(k) + FreeAll(rest)
  {
    FreeCons(k, rest);
    FreeCons(f, [k] + rest);
    assert [f] + ([k] + rest) == [f, k] + rest;
  }

  lemma FreeOfPass(x: Exp, y: Exp)
    ensures Free(Call([x, y])) == Free(x) + Free(y)
  {
    FreeOfCall(x, y, []);
    assert [x, y] + [] == [x, y];
  }

  lemma FreeOfLam(ps: seq<Name>, rest: bool, b: Exp)
    ensures Free(Lam(ps, rest, [b])) == Free(b) - (set x | x in ps)
  {
    assert FreeAll([b]) == Free(b) + FreeAll([]);
  }

  lemma FreeOfVar(x: Name)
    ensures Free(Var(x)) == {x}
  {
  }

  lemma FreeOfOp(op: Operator, args: seq<Exp>)
    ensures Free(Op(op, args)) == FreeAll(args)
  {
  }

  lemma FreeOfIf(p: Exp, y: Exp, z: Exp)
    ensures Free(If(p, y, z)) == Free(p) + Free(y) + Free(z)
  {
  }

  lemma ControlShut(res: Option<Exp>, name: Name, ks: set<nat>)
    requires Continued(res, name, ks)
    ensures Shut(Free(Control(res, name)), ks)
  {
    hide Free;
    if res.Some? {
      FreeOfLam([name], false, res.value);
    } else {
      FreeOfVar(name);
    }
  }

  lemma DeliverShut(res: Option<Exp>, x: Exp, name: Name, ks: set<nat>)
    requires Continued(res, name, ks) && Shut(Free(x), ks)
    ensures Shut(Free(Deliver(res, x, name)), ks)
  {
    hide Free;
    ControlShut(res, name, ks);
    FreeOfPass(Control(res, name), x);
  }

  lemma {:induction false} ConvertShut(res: Option<Exp>, e: Exp, name: Name, n: nat, ks: set<nat>)
    requires Continued(res, name, ks) && Source(e)
    ensures Shut(Free(Convert(res, e, name, n).0), ks)
    decreases e, 2
  {
    hide Free, Deliver, Control, SelfEval, ConvertLambda, Continued;
    if SelfEval(e) {
      SourceShut(e);
      DeliverShut(res, e, name, ks);
    } else {
      match e
      case Lit(_) => AtomIsReady(e);
      case Quote(_) => AtomIsReady(e);
      case Var(_) => AtomIsReady(e);
      case Lam(_, _, _) =>
        LambdaShut(e, n);
        DeliverShut(res, ConvertLambda(e, n).0, name, ks);
      case If(_, _, _) => IfShut(res, e, name, n, ks);
      case Op(op, args) =>
        hide Glue, MapArgs;
        var ls, n1 := MapArgs(args, n).0, MapArgs(args, n).1;
        var k := Control(res, name);
        ElementsShut(args, n);
        ControlShut(res, name, ks);
        FreeOfPass(k, Op(op, ls));
        FreeOfOp(op, ls);
        GlueShut(Call([k, Op(op, ls)]), args, ls, n1, ks);
      case Call(es) =>
        hide Glue, MapArgs;
        var ls, n1 := MapArgs(es, n).0, MapArgs(es, n).1;
        var k := Control(res, name);
        ElementsShut(es, n);
        ControlShut(res, name, ks);
        FreeOfCall(ls[0], k, ls[1..]);
        FreeCons(ls[0], ls[1..]);
        assert ls == [ls[0]] + ls[1..];
        GlueShut(Call([ls[0], k] + ls[1..]), es, ls, n1, ks);
    }
  }

  /** The generated names that stand for elements of a combination. */
  function Standing(ls: seq<Exp>): set<nat> {
    if ls == [] then {} else (if ls[0].Var? && ls[0].x.Gen? then {ls[0].x.n} else {}) + Standing(ls[1..])
  }

  lemma {:induction false} ElementsShut(es: seq<Exp>, n: nat)
    requires SourceAll(es)
    ensures var ls := MapArgs(es, n).0; Shut(FreeAll(ls), Standing(ls)) && StandsFor(es, ls)
    decreases es, 0
  {
    hide SelfEval, ConvertLambda, Source, Free;
    if es != [] {
      ElementsShut(es[1..], n);
      var ls := MapArgs(es[1..], n);
      var x := if SelfEval(es[0]) then es[0] else if es[0].Lam? then ConvertLambda(es[0], ls.1).0 else Var(Gen(ls.1));
      assert MapArgs(es, n).0 == [x] + ls.0;
      assert ([x] + ls.0)[1..] == ls.0;
      FreeCons(x, ls.0);
      if SelfEval(es[0]) {
        SourceShut(es[0]);
        ReadyStands(es[0]);
      } else if es[0].Lam? {
        CpsForm.LambdaIsLam(es[0], ls.1);
        LambdaShut(es[0], ls.1);
      } else {
        FreeOfVar(Gen(ls.1));
      }
    }
  }

  /** Only elements with code of their own are named, by generated names. */
  predicate StandsFor(es: seq<Exp>, ls: seq<Exp>)
    requires |ls| == |es|
  {
    es == [] || ((SelfEval(es[0]) || es[0].Lam?) == !(ls[0].Var? && ls[0].x.Gen?) && StandsFor(es[1..], ls[1..]))
  }

  lemma ReadyStands(e: Exp)
    requires SelfEval(e) && Source(e)
    ensures !(e.Var? && e.x.Gen?)
  {
  }

  lemma {:induction false} GlueShut(expr: Exp, es: seq<Exp>, ls: seq<Exp>, n: nat, ks: set<nat>)
    requires |ls| == |es| && StandsFor(es, ls) && SourceAll(es) && Shut(Free(expr), ks + Standing(ls))
    ensures Shut(Free(Glue(expr, es, ls, n).0), ks)
    decreases es, 0
  {
    hide SelfEval, Source, Free, Convert, Shut;
    if es != [] {
      var inner := Glue(expr, es[1..], ls[1..], n);
      if SelfEval(es[0]) || es[0].Lam? {
        assert ks + Standing(ls) == ks + Standing(ls[1..]);
        GlueShut(expr, es[1..], ls[1..], n, ks);
      } else {
        assert ks + Standing(ls) == ks + {ls[0].x.n} + Standing(ls[1..]);
        GlueShut(expr, es[1..], ls[1..], n, ks + {ls[0].x.n});
        ConvertShut(Some(inner.0), es[0], ls[0].x, inner.1, ks);
      }
    } else {
      assert ks + Standing(ls) == ks;
    }
  }

  lemma {:induction false} IfShut(res: Option<Exp>, e: Exp, name: Name, n: nat, ks: set<nat>)
    requires e.If? && Continued(res, name, ks) && Source(e)
    ensures Shut(Free(Convert(res, e, name, n).0), ks)
    decreases e, 1
  {
    hide Source, SelfEval, Free, Convert;
    SourceOfIf(e);
    var n1 := if SelfEval(e.test) then n else n + 1;
    var p, y, z, escape := ConvertIfShape(res, e, name, n, n1);
    var inner := if res.None? then ks else ks + {n1};
    ConvertShut(None, e.yes, escape, n1 + 1, inner);
    ConvertShut(None, e.no, escape, y.1, inner);
    var outer := if SelfEval(e.test) then ks else ks + {n};
    if SelfEval(e.test) {
      SourceShut(e.test);
    } else {
      FreeOfVar(Gen(n));
    }
    BranchShut(res, p, y.0, z.0, name, n1, outer);
    if !SelfEval(e.test) {
      ConvertShut(Some(BranchCode(res, p, y.0, z.0, name, Gen(n1))), e.test, Gen(n), z.1, ks);
    }
  }

  lemma BranchShut(res: Option<Exp>, p: Exp, y: Exp, z: Exp, name: Name, n1: nat, ks: set<nat>)
    requires Continued(res, name, ks)
    requires Shut(Free(p) + Free(y) + Free(z), if res.None? then ks else ks + {n1})
    ensures Shut(Free(BranchCode(res, p, y, z, name, Gen(n1))), ks)
  {
    hide Free;
    var c := If(p, y, z);
    FreeOfIf(p, y, z);
    if res.Some? {
      FreeOfLam([Gen(n1)], false, c);
      FreeOfLam([name], false, res.value);
      FreeOfPass(Lam([Gen(n1)], false, [c]), Lam([name], false, [res.value]));
    }
  }

  lemma {:induction false} LambdaShut(e: Exp, n: nat)
    requires e.Lam? && Source(e)
    ensures Shut(Free(ConvertLambda(e, n).0), {})
    decreases e, 1
  {
    hide ConvertFrom, Free;
    var b := ConvertSeq(e.body, Gen(n), n + 1).0.value;
    BodyShut(e.body, e.body[|e.body| - 1], Gen(n), n + 1, {n});
    FreeOfLam([Gen(n)] + e.ps, e.rest, b);
  }

  lemma {:induction false} BodyShut(es: seq<Exp>, last: Exp, name: Name, n: nat, ks: set<nat>)
    requires es != [] && name.Gen? && name.n in ks && SourceAll(es)
    ensures Shut(Free(ConvertFrom(es, last, name, n).0.value), ks)
    decreases es, 0
  {
    hide SelfEval, Source, Free, Convert, SameObject;
    var prev := ConvertFrom(es[1..], last, name, n);
    if |es| > 1 {
      BodyShut(es[1..], last, name, n, ks);
    } else {
      assert es[1..] == [];
    }
    var tail := |es| == 1 || SameObject(es[0], last);
    if SelfEval(es[0]) {
      if tail {
        SourceShut(es[0]);
        FreeOfPass(Var(name), es[0]);
        FreeOfVar(name);
      }
    } else {
      SameIsReady(es[0], last);
      ConvertShut(prev.0, es[0], if tail then name else Gen(prev.1), if tail then prev.1 else prev.1 + 1, ks);
    }
  }

  // ----- programs

  lemma {:induction false} DefinedAgrees(e: Exp, b: iset<Name>, b': iset<Name>)
    requires Source(e) && (forall x: Name | x.User? :: x in b <==> x in b')
    ensures Defined(Cut(e), b) == Defined(Cut(e), b')
    decreases e, 2
  {
    match e
    case Lit(_) =>
    case Quote(_) =>
    case Var(_) =>
    case Op(_, args) => DefinedAllAgrees(args, b, b');
    case Lam(ps, _, body) => DefinedBodyAgrees(body, body[|body| - 1], b + Names(ps), b' + Names(ps));
    case If(test, yes, no) =>
      DefinedAgrees(test, b, b');
      DefinedAgrees(yes, b, b');
      DefinedAgrees(no, b, b');
    case Call(es) => DefinedAllAgrees(es, b, b');
  }

  lemma {:induction false} DefinedAllAgrees(es: seq<Exp>, b: iset<Name>, b': iset<Name>)
    requires SourceAll(es) && (forall x: Name | x.User? :: x in b <==> x in b')
    ensures DefinedAll(CutAll(es), b) == DefinedAll(CutAll(es), b')
    decreases es, 0
  {
    hide Defined, Cut, Source;
    if es != [] {
      DefinedAgrees(es[0], b, b');
      DefinedAllAgrees(es[1..], b, b');
      assert CutAll(es)[1..] == CutAll(es[1..]);
    }
  }

  lemma {:induction false} DefinedBodyAgrees(es: seq<Exp>, last: Exp, b: iset<Name>, b': iset<Name>)
    requires SourceAll(es) && es != [] && (forall x: Name | x.User? :: x in b <==> x in b')
    ensures DefinedBody(CutFrom(es, last), b) == DefinedBody(CutFrom(es, last), b')
    decreases es, 1
  {
    hide Defined, Cut, Source, SameObject, SelfEval;
    DefinedAgrees(es[0], b, b');
    CutFromShape(es, last);
    if |es| > 1 {
      DefinedBodyAgrees(es[1..], last, b, b');
    }
  }

  /** A converted program compiles if and only if it has no unknown variable and no unknown literal. */
  lemma ConvertedCompilableIff(e: Exp)
    requires e.Lam? && Source(e)
    ensures Compilable(CpsConvert(e), iset{}) <==> Defined(Cut(e), iset{})
  {
    hide ConvertLambda, Compilable, Defined, Source, Cut, Free;
    var all := iset x: Name | x.Gen?;
    LambdaDefined(e, 0, all);
    LambdaShut(e, 0);
    CompilableAgrees(CpsConvert(e), all, iset{});
    DefinedAgrees(e, all, iset{});
  }
}
