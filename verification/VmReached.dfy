/** What compiled code holds on the operand stack at each of its positions. */
module CodeShape {
  import opened Wrappers
  import opened Syntax
  import opened Values
  import opened Machine
  import opened CodeSpec

  /**
   The kind of an operand: a value; a native function that leaves the continuation alone; a value or the bare function of
   a lambda expression of the running procedure.
   */
  datatype Slot = Value | Native | Loose

  function Times(n: nat): (r: seq<Slot>)
    ensures |r| == n
  {
    seq(n, _ => Value)
  }

  /** The operands at offset `k` of the code of `e`. */
  function Shape(scopes: seq<Scope>, e: Exp, k: nat): seq<Slot>
    decreases e, 1
  {
    if k == 0 then [] else if k >= Len(e) then [Value] else
    match e
    case Lit(_) => []
    case Quote(_) => []
    case Var(_) => []
    case Lam(_, _, _) => []
    case Op(_, args) => ShapeAll(scopes, args, k)
    case If(test, yes, no) =>
      if k <= Len(test) then Shape(scopes, test, k)
      else if k <= Len(test) + 1 + Len(yes) then Shape(scopes, yes, k - Len(test) - 1)
      else Shape(scopes, no, k - Len(test) - Len(yes) - 2)
    case Call(es) => if es == [] then [] else ShapeCall(scopes, es, k)
  }

  function ShapeAll(scopes: seq<Scope>, es: seq<Exp>, k: nat): seq<Slot>
    decreases es, 0
  {
    if es == [] then []
    else if k < Len(es[0]) then Shape(scopes, es[0], k)
    else [Value] + ShapeAll(scopes, es[1..], k - Len(es[0]))
  }

  /** Up to the last instruction, which calls. */
  function ShapeCall(scopes: seq<Scope>, es: seq<Exp>, k: nat): seq<Slot>
    requires es != []
    decreases es, 1
  {
    var n := LenAll(es[1..]);
    if k < n then ShapeArgs(scopes, es, k)
    else ShapeArgs(scopes, es, n) + if k - n < Len(es[0]) then Shape(scopes, es[0], k - n) else [Callee(scopes, es)]
  }

  function ShapeArgs(scopes: seq<Scope>, es: seq<Exp>, k: nat): seq<Slot>
    requires es != []
    decreases es, 0
  {
    if k > 0 && NativeCall(scopes, es) then [Loose] + ShapeAll(scopes, es[2..], k - 1)
    else ShapeAll(scopes, es[1..], k)
  }

  function Callee(scopes: seq<Scope>, es: seq<Exp>): Slot
    requires es != []
  {
    if NativeCall(scopes, es) then Native else if es[0].Lam? then Loose else Value
  }

  // ----- its ends, and its height

  lemma {:induction false} ShapeAllStart(scopes: seq<Scope>, es: seq<Exp>)
    ensures ShapeAll(scopes, es, 0) == []
  {
  }

  lemma {:induction false} ShapeAllEnd(scopes: seq<Scope>, es: seq<Exp>)
    ensures ShapeAll(scopes, es, LenAll(es)) == Times(|es|)
    decreases |es|
  {
    hide Shape;
    if es != [] {
      ShapeAllEnd(scopes, es[1..]);
      assert [Value] + Times(|es| - 1) == Times(|es|);
    }
  }

  /** The offset `k` of the first of several expressions is that of all of them. */
  lemma ShapeAllFirst(scopes: seq<Scope>, es: seq<Exp>, k: nat)
    requires es != [] && k <= Len(es[0])
    ensures ShapeAll(scopes, es, k) == Shape(scopes, es[0], k)
  {
    if k == Len(es[0]) {
      ShapeAllStart(scopes, es[1..]);
      assert [Value] + [] == [Value];
    }
  }

  lemma ShapeAllRest(scopes: seq<Scope>, es: seq<Exp>, k: nat)
    requires es != []
    ensures ShapeAll(scopes, es, Len(es[0]) + k) == [Value] + ShapeAll(scopes, es[1..], k)
  {
  }

  /** With all arguments there. */
  function ArgSlots(scopes: seq<Scope>, es: seq<Exp>): (r: seq<Slot>)
    requires es != []
    ensures |r| == |es| - 1
  {
    if NativeCall(scopes, es) then [Loose] + Times(|es| - 2) else Times(|es| - 1)
  }

  lemma ShapeArgsEnd(scopes: seq<Scope>, es: seq<Exp>)
    requires es != []
    ensures ShapeArgs(scopes, es, LenAll(es[1..])) == ArgSlots(scopes, es)
  {
    hide Shape, ShapeAll, NativeCall;
    if NativeCall(scopes, es) {
      NativeLength(scopes, es);
      ShapeAllEnd(scopes, es[2..]);
      hide LenAll;
    } else {
      ShapeAllEnd(scopes, es[1..]);
    }
  }

  lemma NativeLength(scopes: seq<Scope>, es: seq<Exp>)
    requires NativeCall(scopes, es)
    ensures |es| > 1 && LenAll(es[1..]) == 1 + LenAll(es[2..])
  {
    hide Find, ContSafe;
    assert es[1..][1..] == es[2..] && es[1..][0] == es[1];
  }

  /** The depth never exceeds `Need`. */
  lemma {:induction false} ShapeFits(scopes: seq<Scope>, e: Exp, k: nat)
    ensures |Shape(scopes, e, k)| <= Need(e)
    decreases e, 1
  {
    hide ShapeAll, ShapeCall, NeedAll;
    match e
    case Lit(_) =>
    case Quote(_) =>
    case Var(_) =>
    case Lam(_, _, _) =>
    case Op(_, args) => ShapeAllFits(scopes, args, k);
    case If(test, yes, no) =>
      if k <= Len(test) {
        ShapeFits(scopes, test, k);
      } else if k <= Len(test) + 1 + Len(yes) {
        ShapeFits(scopes, yes, k - Len(test) - 1);
      } else if k < Len(e) {
        ShapeFits(scopes, no, k - Len(test) - Len(yes) - 2);
      }
    case Call(es) =>
      if es != [] {
        ShapeCallFits(scopes, es, k);
      }
  }

  lemma {:induction false} ShapeAllFits(scopes: seq<Scope>, es: seq<Exp>, k: nat)
    ensures |ShapeAll(scopes, es, k)| <= NeedAll(es)
    decreases es, 0
  {
    hide Shape, Need;
    if es != [] {
      if k < Len(es[0]) {
        ShapeFits(scopes, es[0], k);
      } else {
        ShapeAllFits(scopes, es[1..], k - Len(es[0]));
      }
    }
  }

  lemma {:induction false} ShapeCallFits(scopes: seq<Scope>, es: seq<Exp>, k: nat)
    requires es != []
    ensures |ShapeCall(scopes, es, k)| <= Need(Call(es))
    decreases es, 1
  {
    hide Shape, ShapeAll, NeedAll, Find;
    var n := LenAll(es[1..]);
    ShapeArgsEnd(scopes, es);
    if k < n {
      ShapeArgsFits(scopes, es, k);
    } else if k - n < Len(es[0]) {
      ShapeFits(scopes, es[0], k - n);
    }
  }

  lemma {:induction false} ShapeArgsFits(scopes: seq<Scope>, es: seq<Exp>, k: nat)
    requires es != []
    ensures |ShapeArgs(scopes, es, k)| <= NeedAll(es[1..])
    decreases es, 0
  {
    hide Shape, Find;
    if k > 0 && NativeCall(scopes, es) {
      assert es[1..][1..] == es[2..] && es[1..][0] == es[1];
      ShapeAllFits(scopes, es[2..], k - 1);
    } else {
      ShapeAllFits(scopes, es[1..], k);
    }
  }

  // ----- what an instruction does to the operands

  /** A procedure made in these scopes. */
  predicate Encloses(c: Context, fn: nat) { fn < |c.infos| && c.infos[fn].chain == c.scopes }

  /** The instruction reads a variable where static scoping puts it. */
  ghost predicate Reads(c: Context, i: Instr) {
    exists x {:trigger IsVar(c, i, x)} :: IsVar(c, i, x) && Find(c.scopes, x).Some?
  }

  /** The instruction takes its operands off, of the kinds it can handle, and puts its result on. */
  ghost predicate Effect(c: Context, i: Instr, s: seq<Slot>, s': seq<Slot>) {
    match i
    case LoadFunc(fn) => s' == s + [Loose] && Encloses(c, fn)
    case LoadClosure(fn) => (s' == s + [Value] || s' == s + [Loose]) && Encloses(c, fn)
    case LoadLocal(_) => s' == s + [Value] && Reads(c, i)
    case LoadBind(_) => s' == s + [Value] && Reads(c, i)
    case LoadConst(x) =>
      x < |c.consts| && (s' == s + [Value] || (s' == s + [Native] && c.consts[x].DStatic?))
    case PushBool(_) => s' == s + [Value]
    case PushNull => s' == s + [Value]
    case JumpIfFalse(_) => s != [] && s' == s[..|s| - 1]
    case JumpForward(_) => s' == s
    case FuncCall(_) => false
    case Operation(op) =>
      |s| >= Arity(op) && s[|s| - Arity(op)..] == Times(Arity(op)) && s' == s[..|s| - Arity(op)] + [Value]
  }

  /** The operands of a call: a bare function only as the procedure, or as the continuation of a native function. */
  predicate Callable(s: seq<Slot>, argc: nat) {
    && |s| > argc
    && forall j {:trigger s[j]} | |s| - 1 - argc <= j < |s| - 1 ::
         s[j] == Value || (j == |s| - 1 - argc && s[j] == Loose && s[|s| - 1] == Native)
  }

  /** After the instruction at offset `k` the code may go on at offset `j`. */
  predicate Follows(i: Instr, k: nat, j: nat) {
    match i
    case JumpIfFalse(skip) => j == k + 1 || j == k + 1 + skip
    case JumpForward(skip) => j == k + 1 + skip
    case FuncCall(_) => false
    case _ => j == k + 1
  }

  /** Below the operands of an expression there may be others. */
  lemma EffectUnder(c: Context, i: Instr, p: seq<Slot>, s: seq<Slot>, s': seq<Slot>)
    requires Effect(c, i, s, s')
    ensures Effect(c, i, p + s, p + s')
  {
    hide Find;
    if i.Operation? {
      var n := Arity(i.op);
      assert (p + s)[|p + s| - n..] == s[|s| - n..];
      assert (p + s)[..|p + s| - n] == p + s[..|s| - n];
      assert p + (s[..|s| - n] + [Value]) == p + s[..|s| - n] + [Value];
    } else if i.JumpIfFalse? {
      assert (p + s)[..|p + s| - 1] == p + s[..|s| - 1];
    }
    forall x: Slot ensures p + (s + [x]) == p + s + [x] {
    }
  }

  lemma CallableUnder(p: seq<Slot>, s: seq<Slot>, argc: nat)
    requires Callable(s, argc)
    ensures Callable(p + s, argc)
  {
    var q := p + s;
    assert q[|q| - 1] == s[|s| - 1];
    forall j {:trigger q[j]} | |q| - 1 - argc <= j < |q| - 1
      ensures q[j] == Value || (j == |q| - 1 - argc && q[j] == Loose && q[|q| - 1] == Native)
    {
      assert q[j] == s[j - |p|];
    }
  }

  // ----- compiled code

  lemma {:induction false} FlowOk(c: Context, e: Exp, pc: nat, k: nat, j: nat)
    requires Emits(c, e, pc) && k < Len(e) && Follows(c.ops[pc + k], k, j)
    ensures j <= Len(e) && Effect(c, c.ops[pc + k], Shape(c.scopes, e, k), Shape(c.scopes, e, j))
    decreases e, 1
  {
    hide Shape, ShapeAll, ShapeCall, Find, IsBuiltin, Effect;
    match e
    case Lit(_) => AtomFlow(c, e, pc);
    case Quote(_) => AtomFlow(c, e, pc);
    case Var(_) => AtomFlow(c, e, pc);
    case Lam(_, _, _) => AtomFlow(c, e, pc);
    case Op(op, args) => OpFlow(c, e, pc, k, j);
    case If(_, _, _) => IfFlow(c, e, pc, k, j);
    case Call(es) => CallFlow(c, es, pc, k, j);
  }

  lemma AtomFlow(c: Context, e: Exp, pc: nat)
    requires Emits(c, e, pc) && (e.Lit? || e.Quote? || e.Var? || e.Lam?)
    ensures Len(e) == 1 && Follows(c.ops[pc], 0, 1)
    ensures Effect(c, c.ops[pc], Shape(c.scopes, e, 0), Shape(c.scopes, e, 1))
    ensures forall j: nat | Follows(c.ops[pc], 0, j) :: j == 1
  {
    hide Find;
    assert [] + [Value] == [Value];
  }

  lemma {:induction false} AllFlow(c: Context, es: seq<Exp>, pc: nat, k: nat, j: nat)
    requires EmitsAll(c, es, pc) && k < LenAll(es) && pc + k < |c.ops| && Follows(c.ops[pc + k], k, j)
    ensures j <= LenAll(es) && Effect(c, c.ops[pc + k], ShapeAll(c.scopes, es, k), ShapeAll(c.scopes, es, j))
    decreases es, 0
  {
    hide Shape, Emits, Effect, ShapeAll;
    var n := Len(es[0]);
    if k < n {
      FlowOk(c, es[0], pc, k, j);
      ShapeAllFirst(c.scopes, es, k);
      ShapeAllFirst(c.scopes, es, j);
    } else {
      AllFlow(c, es[1..], pc + n, k - n, j - n);
      ShapeAllRest(c.scopes, es, k - n);
      ShapeAllRest(c.scopes, es, j - n);
      EffectUnder(c, c.ops[pc + k], [Value], ShapeAll(c.scopes, es[1..], k - n), ShapeAll(c.scopes, es[1..], j - n));
    }
  }

  lemma {:induction false} OpFlow(c: Context, e: Exp, pc: nat, k: nat, j: nat)
    requires e.Op? && Emits(c, e, pc) && k < Len(e) && Follows(c.ops[pc + k], k, j)
    ensures j <= Len(e) && Effect(c, c.ops[pc + k], Shape(c.scopes, e, k), Shape(c.scopes, e, j))
    decreases e, 0
  {
    hide ShapeAll, EmitsAll;
    var n := LenAll(e.args);
    ShapeAllStart(c.scopes, e.args);
    ShapeAllEnd(c.scopes, e.args);
    if k < n {
      hide Effect;
      AllFlow(c, e.args, pc, k, j);
    } else {
      var s := Times(|e.args|);
      assert s[|s| - |e.args|..] == s && s[..|s| - |e.args|] == [] && [] + [Value] == [Value];
    }
  }

  /** The three parts of a conditional. */
  lemma ShapeOfIf(scopes: seq<Scope>, e: Exp, k: nat)
    requires e.If?
    ensures k <= Len(e.test) ==> Shape(scopes, e, k) == Shape(scopes, e.test, k)
    ensures k <= Len(e.yes) ==> Shape(scopes, e, Len(e.test) + 1 + k) == Shape(scopes, e.yes, k)
    ensures k <= Len(e.no) ==> Shape(scopes, e, Len(e.test) + Len(e.yes) + 2 + k) == Shape(scopes, e.no, k)
  {
  }

  lemma {:induction false} IfFlow(c: Context, e: Exp, pc: nat, k: nat, j: nat)
    requires EmitsIf(c, e, pc) && k < Len(e) && Follows(c.ops[pc + k], k, j)
    ensures j <= Len(e) && Effect(c, c.ops[pc + k], Shape(c.scopes, e, k), Shape(c.scopes, e, j))
    decreases e, 0
  {
    hide Shape, Emits, Effect;
    var yes := Len(e.test) + 1;
    var no := yes + Len(e.yes) + 1;
    if k < yes - 1 {
      FlowOk(c, e.test, pc, k, j);
      ShapeOfIf(c.scopes, e, k);
      ShapeOfIf(c.scopes, e, j);
    } else if k == yes - 1 || k == no - 1 {
      IfJump(c, e, pc, k, j);
    } else if k < no - 1 {
      FlowOk(c, e.yes, pc + yes, k - yes, j - yes);
      ShapeOfIf(c.scopes, e, k - yes);
      ShapeOfIf(c.scopes, e, j - yes);
    } else {
      FlowOk(c, e.no, pc + no, k - no, j - no);
      ShapeOfIf(c.scopes, e, k - no);
      ShapeOfIf(c.scopes, e, j - no);
    }
  }

  lemma IfJump(c: Context, e: Exp, pc: nat, k: nat, j: nat)
    requires EmitsIf(c, e, pc) && (k == Len(e.test) || k == Len(e.test) + 1 + Len(e.yes)) && Follows(c.ops[pc + k], k, j)
    ensures j <= Len(e) && Effect(c, c.ops[pc + k], Shape(c.scopes, e, k), Shape(c.scopes, e, j))
  {
    hide Emits, Shape, Find;
    ShapeOfIf(c.scopes, e, 0);
    ShapeOfIf(c.scopes, e, Len(e.test));
    ShapeOfIf(c.scopes, e, Len(e.yes));
    ShapeEnds(c.scopes, e.test);
    ShapeEnds(c.scopes, e.yes);
    ShapeEnds(c.scopes, e.no);
    ShapeEnds(c.scopes, e);
    assert Len(e) == Len(e.test) + Len(e.yes) + Len(e.no) + 2;
    hide Len;
    assert [Value][..0] == [];
  }

  /** A call, its instructions before the last. */
  lemma ShapeOfCall(scopes: seq<Scope>, es: seq<Exp>, k: nat)
    requires es != [] && k <= LenAll(es)
    ensures Shape(scopes, Call(es), k) == ShapeCall(scopes, es, k)
  {
    hide Find, ContSafe;
    if k == 0 {
      ShapeAllStart(scopes, es[1..]);
    }
  }

  lemma ShapeOfArgs(scopes: seq<Scope>, es: seq<Exp>, k: nat)
    requires es != [] && k <= LenAll(es[1..])
    ensures ShapeCall(scopes, es, k) == ShapeArgs(scopes, es, k)
  {
    hide ShapeArgs, ShapeAll, NativeCall;
    assert Shape(scopes, es[0], 0) == [];
    assert ShapeArgs(scopes, es, k) + [] == ShapeArgs(scopes, es, k);
  }

  lemma {:induction false} CallFlow(c: Context, es: seq<Exp>, pc: nat, k: nat, j: nat)
    requires EmitsCall(c, es, pc) && k <= LenAll(es) && Follows(c.ops[pc + k], k, j)
    ensures j <= LenAll(es) && Effect(c, c.ops[pc + k], Shape(c.scopes, Call(es), k), Shape(c.scopes, Call(es), j))
    decreases es, 2
  {
    hide Shape, ShapeCall, ShapeArgs, Emits, EmitsAll, EmitsArgs, EmitsOperator, Effect, NativeCall;
    var n := LenAll(es[1..]);
    if k < n {
      ArgsFlow(c, es, pc, k, j);
      ShapeOfArgs(c.scopes, es, k);
      ShapeOfArgs(c.scopes, es, j);
    } else {
      assert k < n + Len(es[0]);
      OperatorFlow(c, es, pc + n, k - n, j - n);
    }
    ShapeOfCall(c.scopes, es, k);
    ShapeOfCall(c.scopes, es, j);
  }

  lemma {:induction false} ArgsFlow(c: Context, es: seq<Exp>, pc: nat, k: nat, j: nat)
    requires es != [] && EmitsArgs(c, es, pc) && k < LenAll(es[1..]) && pc + k < |c.ops| && Follows(c.ops[pc + k], k, j)
    ensures j <= LenAll(es[1..]) && Effect(c, c.ops[pc + k], ShapeArgs(c.scopes, es, k), ShapeArgs(c.scopes, es, j))
    decreases es, 1
  {
    hide Shape, ShapeAll, Emits, EmitsAll, Effect, Find, ContSafe;
    if NativeCall(c.scopes, es) {
      NativeArgs(c, es, pc);
      if k == 0 {
        FirstArgFlow(c, es, pc, j);
      } else {
        AllFlow(c, es[2..], pc + 1, k - 1, j - 1);
        EffectUnder(c, c.ops[pc + k], [Loose], ShapeAll(c.scopes, es[2..], k - 1), ShapeAll(c.scopes, es[2..], j - 1));
      }
    } else {
      AllFlow(c, es[1..], pc, k, j);
    }
  }

  /** The continuation of a native function, loaded one way or the other, and the arguments behind it. */
  lemma NativeArgs(c: Context, es: seq<Exp>, pc: nat)
    requires NativeCall(c.scopes, es) && EmitsArgs(c, es, pc) && pc < |c.ops|
    ensures (c.ops[pc].LoadFunc? || c.ops[pc].LoadClosure?) && IsLambda(c, c.ops[pc].fn, es[1]) && EmitsAll(c, es[2..], pc + 1)
    ensures LenAll(es[1..]) == 1 + LenAll(es[2..])
  {
    hide Find, ContSafe;
    assert es[1..][1..] == es[2..] && es[1..][0] == es[1];
    if !c.ops[pc].LoadFunc? {
      assert Emits(c, es[1], pc) && EmitsAll(c, es[2..], pc + 1);
    }
  }

  lemma FirstArgFlow(c: Context, es: seq<Exp>, pc: nat, j: nat)
    requires NativeCall(c.scopes, es) && pc < |c.ops| && Follows(c.ops[pc], 0, j)
    requires (c.ops[pc].LoadFunc? || c.ops[pc].LoadClosure?) && IsLambda(c, c.ops[pc].fn, es[1])
    ensures j == 1 && Effect(c, c.ops[pc], ShapeArgs(c.scopes, es, 0), ShapeArgs(c.scopes, es, 1))
  {
    hide Find, ContSafe;
    ShapeAllStart(c.scopes, es[1..]);
    ShapeAllStart(c.scopes, es[2..]);
    assert [] + [Loose] == [Loose] + [];
  }

  lemma {:induction false} OperatorFlow(c: Context, es: seq<Exp>, pc: nat, k: nat, j: nat)
    requires es != [] && EmitsOperator(c, es, pc) && k < Len(es[0]) && pc + k < |c.ops| && Follows(c.ops[pc + k], k, j)
    ensures var n := LenAll(es[1..]);
            && j <= Len(es[0])
            && Effect(c, c.ops[pc + k], ShapeCall(c.scopes, es, n + k), ShapeCall(c.scopes, es, n + j))
    decreases es, 1
  {
    hide Shape, ShapeArgs, Emits, Effect, Find, ContSafe;
    var n := LenAll(es[1..]);
    var args := ShapeArgs(c.scopes, es, n);
    if es[0].Lam? || NativeCall(c.scopes, es) {
      LastFlow(c, es, pc, k, j);
      EffectUnder(c, c.ops[pc + k], args, [], [Callee(c.scopes, es)]);
      assert ShapeCall(c.scopes, es, n + 0) == args + [];
    } else {
      FlowOk(c, es[0], pc, k, j);
      assert Shape(c.scopes, es[0], Len(es[0])) == [Value] by {
        ShapeEnds(c.scopes, es[0]);
      }
      EffectUnder(c, c.ops[pc + k], args, Shape(c.scopes, es[0], k), Shape(c.scopes, es[0], j));
    }
  }

  lemma ShapeEnds(scopes: seq<Scope>, e: Exp)
    ensures Shape(scopes, e, 0) == [] && Shape(scopes, e, Len(e)) == [Value]
  {
  }

  lemma LastFlow(c: Context, es: seq<Exp>, pc: nat, k: nat, j: nat)
    requires es != [] && (es[0].Lam? || NativeCall(c.scopes, es)) && EmitsOperator(c, es, pc)
    requires k < Len(es[0]) && pc + k < |c.ops| && Follows(c.ops[pc + k], k, j)
    ensures Len(es[0]) == 1 && k == 0 && j == 1 && Shape(c.scopes, es[0], 0) == []
    ensures Effect(c, c.ops[pc + k], [], [Callee(c.scopes, es)])
  {
    hide Find;
    assert [] + [Native] == [Native] && [] + [Loose] == [Loose];
  }

  // ----- calls

  lemma {:induction false} CallsOk(c: Context, e: Exp, pc: nat, k: nat)
    requires Emits(c, e, pc) && k < Len(e) && c.ops[pc + k].FuncCall?
    ensures Callable(Shape(c.scopes, e, k), c.ops[pc + k].argc)
    decreases e, 1
  {
    hide Shape, ShapeAll, ShapeCall, Find, IsBuiltin, Callable;
    match e
    case Lit(_) =>
    case Quote(_) =>
    case Var(_) =>
    case Lam(_, _, _) =>
    case Op(_, args) =>
      AllCallsOk(c, args, pc, k);
      OpShape(c.scopes, e, k);
    case If(_, _, _) => IfCallsOk(c, e, pc, k);
    case Call(es) =>
      CallCallsOk(c, es, pc, k);
      ShapeOfCall(c.scopes, es, k);
  }

  lemma {:induction false} IfCallsOk(c: Context, e: Exp, pc: nat, k: nat)
    requires EmitsIf(c, e, pc) && k < Len(e) && c.ops[pc + k].FuncCall?
    ensures Callable(Shape(c.scopes, e, k), c.ops[pc + k].argc)
    decreases e, 0
  {
    hide Shape, Emits, Callable;
    var yes := Len(e.test) + 1;
    var no := yes + Len(e.yes) + 1;
    if k < yes - 1 {
      CallsOk(c, e.test, pc, k);
      ShapeOfIf(c.scopes, e, k);
    } else if k < no - 1 {
      CallsOk(c, e.yes, pc + yes, k - yes);
      ShapeOfIf(c.scopes, e, k - yes);
    } else {
      CallsOk(c, e.no, pc + no, k - no);
      ShapeOfIf(c.scopes, e, k - no);
    }
  }

  lemma OpShape(scopes: seq<Scope>, e: Exp, k: nat)
    requires e.Op? && k < Len(e)
    ensures Shape(scopes, e, k) == ShapeAll(scopes, e.args, k)
  {
    ShapeAllStart(scopes, e.args);
  }

  lemma {:induction false} AllCallsOk(c: Context, es: seq<Exp>, pc: nat, k: nat)
    requires EmitsAll(c, es, pc) && k < LenAll(es) && pc + k < |c.ops| && c.ops[pc + k].FuncCall?
    ensures Callable(ShapeAll(c.scopes, es, k), c.ops[pc + k].argc)
    decreases es, 0
  {
    hide Shape, Emits, Callable, ShapeAll;
    var n := Len(es[0]);
    if k < n {
      CallsOk(c, es[0], pc, k);
      ShapeAllFirst(c.scopes, es, k);
    } else {
      AllCallsOk(c, es[1..], pc + n, k - n);
      ShapeAllRest(c.scopes, es, k - n);
      CallableUnder([Value], ShapeAll(c.scopes, es[1..], k - n), c.ops[pc + k].argc);
    }
  }

  lemma {:induction false} CallCallsOk(c: Context, es: seq<Exp>, pc: nat, k: nat)
    requires EmitsCall(c, es, pc) && k <= LenAll(es) && c.ops[pc + k].FuncCall?
    ensures Callable(ShapeCall(c.scopes, es, k), c.ops[pc + k].argc)
    decreases es, 2
  {
    hide Shape, ShapeArgs, Emits, EmitsAll, EmitsArgs, EmitsOperator, Callable, Find, ContSafe;
    var n := LenAll(es[1..]);
    if k < n {
      ArgsCallsOk(c, es, pc, k);
      ShapeOfArgs(c.scopes, es, k);
    } else if k < n + Len(es[0]) {
      OperatorCallsOk(c, es, pc + n, k - n);
      CallableUnder(ShapeArgs(c.scopes, es, n), Shape(c.scopes, es[0], k - n), c.ops[pc + k].argc);
    } else {
      ShapeArgsEnd(c.scopes, es);
      OwnCallOk(c.scopes, es);
    }
  }

  /** Arguments and procedure of the call itself. */
  lemma OwnCallOk(scopes: seq<Scope>, es: seq<Exp>)
    requires es != []
    ensures Callable(ArgSlots(scopes, es) + [Callee(scopes, es)], |es| - 1)
  {
    hide Find, ContSafe;
    var s := ArgSlots(scopes, es) + [Callee(scopes, es)];
    forall j {:trigger s[j]} | 0 <= j < |s| - 1 ensures s[j] == Value || (j == 0 && s[j] == Loose && s[|s| - 1] == Native) {
      assert s[j] == ArgSlots(scopes, es)[j];
    }
  }

  lemma {:induction false} ArgsCallsOk(c: Context, es: seq<Exp>, pc: nat, k: nat)
    requires es != [] && EmitsArgs(c, es, pc) && k < LenAll(es[1..]) && pc + k < |c.ops| && c.ops[pc + k].FuncCall?
    ensures Callable(ShapeArgs(c.scopes, es, k), c.ops[pc + k].argc)
    decreases es, 1
  {
    hide Shape, ShapeAll, Emits, EmitsAll, Callable, Find, ContSafe;
    if NativeCall(c.scopes, es) {
      NativeArgs(c, es, pc);
      AllCallsOk(c, es[2..], pc + 1, k - 1);
      CallableUnder([Loose], ShapeAll(c.scopes, es[2..], k - 1), c.ops[pc + k].argc);
    } else {
      AllCallsOk(c, es[1..], pc, k);
    }
  }

  lemma {:induction false} OperatorCallsOk(c: Context, es: seq<Exp>, pc: nat, k: nat)
    requires es != [] && EmitsOperator(c, es, pc) && k < Len(es[0]) && pc + k < |c.ops| && c.ops[pc + k].FuncCall?
    ensures Callable(Shape(c.scopes, es[0], k), c.ops[pc + k].argc)
    decreases es, 0
  {
    hide Shape, Emits, Callable;
    CallsOk(c, es[0], pc, k);
  }
}

/** Every thread that a run of a compiled module goes through, whether the run ends well or not. */
module VmReached {
  import opened Wrappers
  import opened Syntax
  import opened Values
  import opened Meaning
  import opened Machine
  import opened CodeSpec
  import opened CodeDepth
  import opened CodeShape
  import opened ValueRelation
  import opened ValueLemmas
  import opened VmFrames
  import opened VmExpressions
  import opened VmEntry
  import opened VmRuns

  // ----- operands

  /** A value of the machine that stands for one of the program. */
  ghost predicate Sound(infos: seq<Info>, w: Val) { exists v :: Related(Compiled(infos), v, w) }

  /** The function of a lambda expression in these scopes. */
  predicate Bare(infos: seq<Info>, scopes: seq<Scope>, w: Val) {
    w.Func? && w.fn < |infos| && infos[w.fn].chain == scopes
  }

  ghost predicate SlotHolds(infos: seq<Info>, scopes: seq<Scope>, s: Slot, w: Val) {
    match s
    case Value => Sound(infos, w)
    case Native => w.Builtin?
    case Loose => Sound(infos, w) || Bare(infos, scopes, w)
  }

  /** Above `level` the stack holds operands of these kinds and nothing else. */
  ghost predicate Holds(infos: seq<Info>, scopes: seq<Scope>, slots: seq<Slot>, stack: seq<Val>, level: nat) {
    && |stack| == level + |slots|
    && forall j {:trigger slots[j]} | 0 <= j < |slots| :: SlotHolds(infos, scopes, slots[j], stack[level + j])
  }

  /** What the code of a thread has on the stack where the thread is. */
  function Operands(infos: seq<Info>, t: Thread): seq<Slot>
    requires t.fn < |infos|
  {
    ShapeAll(ScopesOf(infos[t.fn]), infos[t.fn].body, t.pc)
  }

  /** Arguments, bindmap and operands lie one above the other; the operands begin at `level`. */
  predicate Regions(f: Procedure, t: Thread, level: nat) {
    && level <= |t.stack| && level <= 2 * f.envSize + |f.bindmap|
    && (t.bindmap.Some? ==> t.bindmap.value + |f.bindmap| == level)
    && (t.locals.OnStack? ==> t.locals.base + f.envSize <= if t.bindmap.Some? then t.bindmap.value else level)
  }

  /** The thread executes its procedure in the frame that static scoping means. */
  ghost predicate InCode(M: Image, infos: seq<Info>, env: Env, level: nat, t: Thread) {
    && Ready(M, infos, env, t) && t.pc <= |M.funcs[t.fn].ops|
    && Regions(M.funcs[t.fn], t, level)
    && Holds(infos, ScopesOf(infos[t.fn]), Operands(infos, t), t.stack, level)
  }

  /** Argument `j` of the call of `fp`. */
  ghost predicate ArgHolds(infos: seq<Info>, scopes: seq<Scope>, fp: Val, j: int, w: Val) {
    Sound(infos, w) || (j == 0 && fp.Builtin? && Bare(infos, scopes, w))
  }

  /** The procedure's operands and `natives` results of native functions are all that was added to its stack. */
  predicate CallRoom(f: Procedure, i: Info, t: Thread, natives: nat) {
    |t.stack| < 2 * f.envSize + |f.bindmap| + NeedAll(i.body) + natives
  }

  /** The thread has called a procedure, and `natives` native functions since. */
  ghost predicate InCall(M: Image, infos: seq<Info>, env: Env, natives: nat, t: Thread) {
    && TableOk(M.consts, infos, M.funcs) && t.call.Some? && t.fn < |M.funcs| && t.fn < |infos|
    && EnvRep(infos, env, ScopesOf(infos[t.fn]), t.env)
    && t.call.value.1 <= |t.stack|
    && SlotHolds(infos, ScopesOf(infos[t.fn]), Loose, t.call.value.0)
    && (forall j {:trigger Top(t, t.call.value.1)[j]} | 0 <= j < t.call.value.1 ::
          ArgHolds(infos, ScopesOf(infos[t.fn]), t.call.value.0, j, Top(t, t.call.value.1)[j]))
    && CallRoom(M.funcs[t.fn], infos[t.fn], t, natives)
  }

  /** Where no native function returns a native function, two of them at most are called one after another. */
  ghost predicate FewNatives(W: World, natives: nat, t: Thread) {
    Plain(W) && t.call.Some? && natives > 0 ==>
      && natives <= 2 && 1 == t.call.value.1 <= |t.stack| && !IsProcedure(Top(t, 1)[0])
      && (natives == 2 ==> !IsProcedure(t.call.value.0))
  }

  ghost predicate Reached(M: Image, W: World, infos: seq<Info>, t: Thread) {
    || (exists env, level :: InCode(M, infos, env, level, t))
    || (exists env, natives :: InCall(M, infos, env, natives, t) && FewNatives(W, natives, t))
  }

  // ----- one instruction

  lemma CodeIs(M: Image, infos: seq<Info>, env: Env, t: Thread)
    requires Ready(M, infos, env, t)
    ensures EmitsAll(Here(M, infos, t), infos[t.fn].body, 0) && |M.funcs[t.fn].ops| == LenAll(infos[t.fn].body)
    ensures M.funcs[t.fn].envSize == |infos[t.fn].ps|
  {
    hide EmitsAll, BindmapOk, FrameOk;
    assert ProcedureOk(M.consts, infos, M.funcs[t.fn], infos[t.fn]);
  }

  /** What happens above the operands' level leaves the frame alone. */
  lemma FrameBelow(infos: seq<Info>, f: Procedure, i: Info, env: Env, t: Thread, level: nat, t': Thread)
    requires FrameOk(infos, f, i, env, t) && Regions(f, t, level) && |env.vals| == f.envSize
    requires level <= |t'.stack| && t'.stack[..level] == t.stack[..level]
    requires t'.locals == t.locals && t'.bindmap == t.bindmap && t'.env == t.env
    ensures FrameOk(infos, f, i, env, t') && Regions(f, t', level)
  {
    hide RelatedAll, EnvRep;
    forall k | 0 <= k < level ensures t'.stack[k] == t.stack[k] {
      assert t'.stack[..level][k] == t.stack[..level][k];
    }
    if t.locals.OnStack? {
      var base, n := t.locals.base, |env.vals|;
      assert t'.stack[base..base + n] == t.stack[base..base + n];
    }
  }

  lemma FrameSize(infos: seq<Info>, f: Procedure, i: Info, env: Env, t: Thread)
    requires FrameOk(infos, f, i, env, t)
    ensures |env.vals| == |i.ps|
  {
    hide RelatedAll, LocalsOk, BindmapHolds;
  }

  /** The next state of the code, given its operands. */
  lemma CodeGoesOn(M: Image, infos: seq<Info>, env: Env, level: nat, t: Thread, t': Thread)
    requires InCode(M, infos, env, level, t) && t'.fn == t.fn && t'.call == None && t'.pc <= |M.funcs[t.fn].ops|
    requires level <= |t'.stack| && t'.stack[..level] == t.stack[..level]
    requires t'.locals == t.locals && t'.bindmap == t.bindmap && t'.env == t.env
    requires Holds(infos, ScopesOf(infos[t.fn]), Operands(infos, t'), t'.stack, level)
    ensures InCode(M, infos, env, level, t')
  {
    hide TableOk, FrameOk, Holds, Regions;
    CodeIs(M, infos, env, t);
    FrameSize(infos, M.funcs[t.fn], infos[t.fn], env, t);
    FrameBelow(infos, M.funcs[t.fn], infos[t.fn], env, t, level, t');
  }

  lemma HoldsPush(infos: seq<Info>, scopes: seq<Scope>, slots: seq<Slot>, stack: seq<Val>, level: nat, s: Slot, w: Val)
    requires Holds(infos, scopes, slots, stack, level) && SlotHolds(infos, scopes, s, w)
    ensures Holds(infos, scopes, slots + [s], stack + [w], level) && (stack + [w])[..level] == stack[..level]
  {
    hide SlotHolds;
  }

  lemma HoldsPop(infos: seq<Info>, scopes: seq<Scope>, slots: seq<Slot>, stack: seq<Val>, level: nat, n: nat)
    requires Holds(infos, scopes, slots, stack, level) && n <= |slots|
    ensures n <= |stack| && Holds(infos, scopes, slots[..|slots| - n], stack[..|stack| - n], level)
    ensures level <= |stack| - n && stack[..|stack| - n][..level] == stack[..level]
    ensures forall j {:trigger stack[|stack| - n..][j]} | 0 <= j < n ::
              SlotHolds(infos, scopes, slots[|slots| - n..][j], stack[|stack| - n..][j])
  {
    hide SlotHolds;
    forall j {:trigger stack[|stack| - n..][j]} | 0 <= j < n
      ensures SlotHolds(infos, scopes, slots[|slots| - n..][j], stack[|stack| - n..][j])
    {
      assert slots[|slots| - n..][j] == slots[|slots| - n + j];
    }
  }

  /** Values of the program that sound values stand for. */
  lemma SoundAll(infos: seq<Info>, ws: seq<Val>) returns (vs: seq<Val>)
    requires forall j {:trigger ws[j]} | 0 <= j < |ws| :: Sound(infos, ws[j])
    ensures RelatedAll(Compiled(infos), vs, ws)
  {
    hide Related;
    if ws == [] {
      vs := [];
    } else {
      assert Sound(infos, ws[0]);
      var v :| Related(Compiled(infos), v, ws[0]);
      forall j {:trigger ws[1..][j]} | 0 <= j < |ws[1..]| ensures Sound(infos, ws[1..][j]) {
        assert ws[1..][j] == ws[j + 1];
      }
      var rest := SoundAll(infos, ws[1..]);
      vs := [v] + rest;
      RelatedCons(Compiled(infos), v, rest, ws[0], ws[1..]);
      assert [ws[0]] + ws[1..] == ws;
    }
  }

  /** A load pushes an operand of the kind that its position says. */
  lemma LoadHolds(M: Image, infos: seq<Info>, env: Env, t: Thread, s: seq<Slot>, s': seq<Slot>, w: Val)
    requires Ready(M, infos, env, t) && t.pc < |M.funcs[t.fn].ops|
    requires var i := M.funcs[t.fn].ops[t.pc];
             && Effect(Here(M, infos, t), i, s, s') && Exec(M, M.funcs[t.fn], t, i) == Next(After(t, [w], 1))
             && !i.JumpIfFalse? && !i.JumpForward? && !i.FuncCall? && !i.Operation?
    ensures |s'| == |s| + 1 && s' == s + [s'[|s|]] && SlotHolds(infos, ScopesOf(infos[t.fn]), s'[|s|], w)
  {
    hide TableOk, FrameOk, EnvRep, RelatedAll, Find, ShapeAll;
    var f, c := M.funcs[t.fn], Here(M, infos, t);
    var i := f.ops[t.pc];
    assert t.stack + [w] == After(t, [w], 1).stack;
    match i
    case LoadFunc(fn) => SamePush(t, Func(fn), w);
    case LoadClosure(fn) =>
      SamePush(t, Code(fn, t.env), w);
      ClosureIsSound(M, infos, env, t, fn);
    case LoadLocal(_) =>
      VariableIsSound(M, infos, env, t, i, w);
    case LoadBind(_) =>
      VariableIsSound(M, infos, env, t, i, w);
    case LoadConst(x) =>
      SamePush(t, DatumVal(M.consts[x]), w);
      RelatedDatum(Compiled(infos), M.consts[x]);
    case PushBool(b) =>
      SamePush(t, Bool(b), w);
      RelatedImmediate(Compiled(infos), w);
    case PushNull =>
      SamePush(t, Null, w);
      RelatedImmediate(Compiled(infos), w);
  }

  lemma SamePush(t: Thread, v: Val, w: Val)
    requires Push(t, v) == Next(After(t, [w], 1))
    ensures v == w
  {
    assert (t.stack + [v])[|t.stack|] == (t.stack + [w])[|t.stack|];
  }

  lemma ClosureIsSound(M: Image, infos: seq<Info>, env: Env, t: Thread, fn: nat)
    requires Ready(M, infos, env, t) && Encloses(Here(M, infos, t), fn)
    ensures Sound(infos, Code(fn, t.env))
  {
    hide TableOk, EnvRep, LocalsOk, BindmapHolds;
    var i := infos[fn];
    assert Related(Compiled(infos), Closure(i.ps, i.rest, i.body, env), Code(fn, t.env));
  }

  /** The variable that an instruction reads. */
  lemma VariableIsSound(M: Image, infos: seq<Info>, env: Env, t: Thread, i: Instr, w: Val)
    requires Ready(M, infos, env, t) && t.pc < |M.funcs[t.fn].ops| && (i.LoadLocal? || i.LoadBind?)
    requires Reads(Here(M, infos, t), i) && Exec(M, M.funcs[t.fn], t, i) == Next(After(t, [w], 1))
    ensures Sound(infos, w)
  {
    hide TableOk, FrameOk, Related, Find, IsVar, LocalVal, BoundVal;
    var x :| IsVar(Here(M, infos, t), i, x) && Find(ScopesOf(infos[t.fn]), x).Some?;
    var w' := VariableIsRead(infos, M.consts, M.funcs[t.fn], infos[t.fn], env, t, x, i);
    SamePush(t, w', w);
  }

  // ----- one step inside a procedure

  /** Where the code goes on, the operands are as the instruction leaves them. */
  lemma NextOperands(M: Image, infos: seq<Info>, env: Env, t: Thread, j: nat)
    requires Ready(M, infos, env, t) && t.pc < |M.funcs[t.fn].ops| && Follows(M.funcs[t.fn].ops[t.pc], t.pc, j)
    ensures j <= |M.funcs[t.fn].ops|
    ensures Effect(Here(M, infos, t), M.funcs[t.fn].ops[t.pc], Operands(infos, t), ShapeAll(ScopesOf(infos[t.fn]), infos[t.fn].body, j))
  {
    hide Effect, ShapeAll, EmitsAll, TableOk, FrameOk;
    CodeIs(M, infos, env, t);
    AllFlow(Here(M, infos, t), infos[t.fn].body, 0, t.pc, j);
  }

  lemma PushStays(M: Image, W: World, infos: seq<Info>, env: Env, level: nat, t: Thread, t': Thread)
    requires InCode(M, infos, env, level, t) && Step(M, W, t) == Next(t') && t.pc < |M.funcs[t.fn].ops|
    requires var i := M.funcs[t.fn].ops[t.pc]; !i.JumpIfFalse? && !i.JumpForward? && !i.FuncCall? && !i.Operation?
    ensures InCode(M, infos, env, level, t')
  {
    var w := Pushed(M, W, t, t');
    hide Step, Ready, Holds, Regions, Effect, ShapeAll, SlotHolds;
    ReadyHere(M, infos, env, t);
    NextOperands(M, infos, env, t, t.pc + 1);
    var s, s' := Operands(infos, t), Operands(infos, t');
    LoadHolds(M, infos, env, t, s, s', w);
    HoldsPush(infos, ScopesOf(infos[t.fn]), s, t.stack, level, s'[|s|], w);
    LevelBelow(M, infos, env, level, t);
    CodeGoesOn(M, infos, env, level, t, t');
  }

  lemma LevelBelow(M: Image, infos: seq<Info>, env: Env, level: nat, t: Thread)
    requires InCode(M, infos, env, level, t)
    ensures level + |Operands(infos, t)| == |t.stack|
  {
    hide Ready, Regions, Operands;
  }

  lemma Pushed(M: Image, W: World, t: Thread, t': Thread) returns (w: Val)
    requires t.call == None && t.fn < |M.funcs| && t.pc < |M.funcs[t.fn].ops| && Step(M, W, t) == Next(t')
    requires var i := M.funcs[t.fn].ops[t.pc]; !i.JumpIfFalse? && !i.JumpForward? && !i.FuncCall? && !i.Operation?
    ensures t' == After(t, [w], 1) && Exec(M, M.funcs[t.fn], t, M.funcs[t.fn].ops[t.pc]) == Next(After(t, [w], 1))
  {
    hide LocalVal, BoundVal;
    w := t'.stack[|t.stack|];
    assert t'.stack == t.stack + [w];
  }

  lemma JumpStays(M: Image, W: World, infos: seq<Info>, env: Env, level: nat, t: Thread, t': Thread)
    requires InCode(M, infos, env, level, t) && Step(M, W, t) == Next(t') && t.pc < |M.funcs[t.fn].ops|
    requires var i := M.funcs[t.fn].ops[t.pc]; i.JumpIfFalse? || i.JumpForward?
    ensures InCode(M, infos, env, level, t')
  {
    ReadyHere(M, infos, env, t);
    var i := M.funcs[t.fn].ops[t.pc];
    assert Follows(i, t.pc, t'.pc);
    hide Ready, Holds, Regions, ShapeAll, SlotHolds, Find;
    NextOperands(M, infos, env, t, t'.pc);
    var s := Operands(infos, t);
    if i.JumpIfFalse? {
      HoldsPop(infos, ScopesOf(infos[t.fn]), s, t.stack, level, 1);
    }
    LevelBelow(M, infos, env, level, t);
    hide Step;
    CodeGoesOn(M, infos, env, level, t, t');
  }

  lemma OperationStays(M: Image, W: World, infos: seq<Info>, env: Env, level: nat, t: Thread, t': Thread)
    requires InCode(M, infos, env, level, t) && Step(M, W, t) == Next(t') && t.pc < |M.funcs[t.fn].ops|
    requires M.funcs[t.fn].ops[t.pc].Operation?
    ensures InCode(M, infos, env, level, t')
  {
    ReadyHere(M, infos, env, t);
    var op := M.funcs[t.fn].ops[t.pc].op;
    var n := Arity(op);
    hide Ready, Holds, Regions, ShapeAll, SlotHolds, Operate;
    NextOperands(M, infos, env, t, t.pc + 1);
    var s, scopes := Operands(infos, t), ScopesOf(infos[t.fn]);
    HoldsPop(infos, scopes, s, t.stack, level, n);
    var ws := Top(t, n);
    forall j {:trigger ws[j]} | 0 <= j < n ensures Sound(infos, ws[j]) {
      assert SlotHolds(infos, scopes, s[|s| - n..][j], ws[j]);
      ValueIsSound(infos, scopes, s[|s| - n..][j], ws[j]);
    }
    var w := ResultIsSound(infos, op, ws);
    assert t' == t.(stack := Drop(t, n) + [w], pc := t.pc + 1);
    hide Step;
    SoundIsValue(infos, scopes, w);
    HoldsPush(infos, scopes, s[..|s| - n], Drop(t, n), level, Value, w);
    CodeGoesOn(M, infos, env, level, t, t');
  }

  lemma ValueIsSound(infos: seq<Info>, scopes: seq<Scope>, s: Slot, w: Val)
    requires SlotHolds(infos, scopes, s, w) && s == Value
    ensures Sound(infos, w)
  {
  }

  lemma SoundIsValue(infos: seq<Info>, scopes: seq<Scope>, w: Val)
    requires Sound(infos, w)
    ensures SlotHolds(infos, scopes, Value, w)
  {
  }

  lemma ResultIsSound(infos: seq<Info>, op: Operator, ws: seq<Val>) returns (w: Val)
    requires Operate(op, ws).Some? && forall j {:trigger ws[j]} | 0 <= j < |ws| :: Sound(infos, ws[j])
    ensures Operate(op, ws) == Some(w) && Sound(infos, w)
  {
    hide Operate, Related, RelatedAll;
    var vs := SoundAll(infos, ws);
    RelatedOperate(Compiled(infos), op, vs, ws);
    w := Operate(op, ws).value;
  }

  lemma CallBegins(M: Image, W: World, infos: seq<Info>, env: Env, level: nat, t: Thread, t': Thread)
    requires InCode(M, infos, env, level, t) && Step(M, W, t) == Next(t') && t.pc < |M.funcs[t.fn].ops|
    requires M.funcs[t.fn].ops[t.pc].FuncCall?
    ensures InCall(M, infos, env, 0, t')
  {
    ReadyHere(M, infos, env, t);
    CodeIs(M, infos, env, t);
    ReadyEnv(M, infos, env, t);
    var f, i, argc := M.funcs[t.fn], infos[t.fn], M.funcs[t.fn].ops[t.pc].argc;
    var scopes, s := ScopesOf(i), Operands(infos, t);
    hide Ready, ShapeAll, SlotHolds, EmitsAll, TableOk, EnvRep;
    AllCallsOk(Here(M, infos, t), i.body, 0, t.pc);
    ShapeAllFits(scopes, i.body, t.pc);
    var n := |t.stack|;
    assert t'.stack == t.stack[..n - 1] && t'.call == Some((t.stack[n - 1], argc));
    hide Step;
    assert Holds(infos, scopes, s, t.stack, level);
    hide Holds, Callable;
    CalleeHolds(infos, scopes, s, t.stack, level, argc);
    forall j {:trigger Top(t', argc)[j]} | 0 <= j < argc ensures ArgHolds(infos, scopes, t.stack[n - 1], j, Top(t', argc)[j]) {
      OperandHolds(infos, scopes, s, t.stack, level, argc, j);
      assert Top(t', argc)[j] == t.stack[n - 1 - argc + j];
    }
    LevelBelow(M, infos, env, level, t);
  }

  lemma ReadyEnv(M: Image, infos: seq<Info>, env: Env, t: Thread)
    requires Ready(M, infos, env, t)
    ensures EnvRep(infos, env, ScopesOf(infos[t.fn]), t.env)
  {
    hide TableOk, EnvRep, LocalsOk, BindmapHolds;
  }

  lemma CalleeHolds(infos: seq<Info>, scopes: seq<Scope>, s: seq<Slot>, stack: seq<Val>, level: nat, argc: nat)
    requires Holds(infos, scopes, s, stack, level) && Callable(s, argc)
    ensures |stack| > argc && SlotHolds(infos, scopes, Loose, stack[|stack| - 1])
  {
    var n, m := |stack|, |s|;
    assert SlotHolds(infos, scopes, s[m - 1], stack[level + (m - 1)]);
    if s[m - 1] == Native {
      RelatedImmediate(Compiled(infos), stack[n - 1]);
    }
  }

  lemma OperandHolds(infos: seq<Info>, scopes: seq<Scope>, s: seq<Slot>, stack: seq<Val>, level: nat, argc: nat, j: nat)
    requires Holds(infos, scopes, s, stack, level) && Callable(s, argc) && j < argc
    ensures |stack| > argc && ArgHolds(infos, scopes, stack[|stack| - 1], j, stack[|stack| - 1 - argc + j])
  {
    hide Sound;
    var m, at := |s|, |s| - 1 - argc + j;
    assert s[at] == Value || (j == 0 && s[at] == Loose && s[m - 1] == Native);
    assert SlotHolds(infos, scopes, s[m - 1], stack[level + (m - 1)]);
    assert SlotHolds(infos, scopes, s[at], stack[level + at]);
    assert level + at == |stack| - 1 - argc + j && level + (m - 1) == |stack| - 1;
  }

  lemma CodeStep(M: Image, W: World, infos: seq<Info>, env: Env, level: nat, t: Thread, t': Thread)
    requires InCode(M, infos, env, level, t) && Step(M, W, t) == Next(t')
    ensures InCode(M, infos, env, level, t') || InCall(M, infos, env, 0, t')
  {
    ReadyHere(M, infos, env, t);
    var i := M.funcs[t.fn].ops[t.pc];
    hide InCode, InCall, Step;
    match i
    case JumpIfFalse(_) => JumpStays(M, W, infos, env, level, t, t');
    case JumpForward(_) => JumpStays(M, W, infos, env, level, t, t');
    case Operation(_) => OperationStays(M, W, infos, env, level, t, t');
    case FuncCall(_) => CallBegins(M, W, infos, env, level, t, t');
    case _ => PushStays(M, W, infos, env, level, t, t');
  }

  // ----- one step of a call

  /** Entering a procedure: its frame, and nothing else on the stack. */
  lemma EntryIsInCode(M: Image, infos: seq<Info>, fn: nat, env: Env, t: Thread, argc: nat, t': Thread) returns (env': Env)
    requires TableOk(M.consts, infos, M.funcs) && fn < |infos| && infos[fn].chain != [] && t.bindmap == None
    requires EnvRep(infos, env, infos[fn].chain, t.env) && argc <= |t.stack|
    requires forall j {:trigger Top(t, argc)[j]} | 0 <= j < argc :: Sound(infos, Top(t, argc)[j])
    requires EnterInterp(M, fn, t, argc) == Next(t')
    ensures InCode(M, infos, env', |t'.stack|, t')
  {
    hide RelatedAll, EnvRep, FrameOk, LocalsOk, Bind, BindmapOk, EmitsAll, PlaceArgs, PlaceBindmap, Swallow, Regions, Sound;
    StackIsBounded(M, infos, fn, t, argc, t');
    var f, i := M.funcs[fn], infos[fn];
    assert ProcedureOk(M.consts, infos, f, i);
    var args := SoundAll(infos, Top(t, argc));
    RelatedCount(Compiled(infos), args, Top(t, argc));
    var vals := ArgsBind(i.ps, i.rest, args);
    var vals' := RelatedArgs(Compiled(infos), i.ps, i.rest, args, Top(t, argc));
    var t1 := SwallowBinds(f, i.ps, i.rest, t, argc);
    SwallowKeeps(f, t, argc, t1);
    var t1' := t1.(fn := fn, pc := 0, call := None);
    assert Top(t1', |i.ps|) == vals';
    var t2 := PlaceArgsOk(infos, f, i, env, vals, t1');
    PlaceArgsKeeps(f, t1', |i.ps|);
    PlaceArgsShrinks(f, t1', |i.ps|);
    env' := Rib(i.ps, vals, env);
    BindmapHasRoom(infos, f, i, env', t2, t');
    var t3 := PlaceBindmapOk(infos, f, i, env', t2);
    FreshOperands(infos, i, t');
    EntryRegions(f, t');
  }

  lemma PlaceArgsShrinks(f: Procedure, t: Thread, n: nat)
    requires n <= |t.stack|
    ensures |PlaceArgs(f, t, n).stack| <= |t.stack|
  {
  }

  lemma ArgsBind(ps: seq<Name>, rest: bool, args: seq<Val>) returns (vals: seq<Val>)
    requires if rest then |ps| > 0 && |args| >= |ps| - 1 else |args| == |ps|
    ensures Bind(ps, rest, args) == Some(vals)
  {
    vals := Bind(ps, rest, args).value;
  }

  lemma BindmapHasRoom(infos: seq<Info>, f: Procedure, i: Info, env: Env, t: Thread, t': Thread)
    requires PlaceBindmap(f, t) == Next(t') && t.bindmap == None && |t.stack| <= STACK_LIMIT
    requires f.bindings == [] <==> f.bindmap == []
    ensures |t.stack| + |f.bindmap| <= STACK_LIMIT
  {
    hide BindEnvs;
  }

  lemma FreshOperands(infos: seq<Info>, i: Info, t: Thread)
    requires t.fn < |infos| && infos[t.fn] == i && t.pc == 0
    ensures Operands(infos, t) == [] && Holds(infos, ScopesOf(i), [], t.stack, |t.stack|)
  {
    ShapeAllStart(ScopesOf(i), i.body);
  }

  lemma EntryRegions(f: Procedure, t: Thread)
    requires |t.stack| <= 2 * f.envSize + |f.bindmap|
    requires t.locals.OnStack? ==>
               t.locals.base + f.envSize <= |t.stack| && (t.bindmap.Some? ==> t.locals.base + f.envSize <= t.bindmap.value)
    requires t.bindmap.Some? ==> t.bindmap.value + |f.bindmap| == |t.stack|
    ensures Regions(f, t, |t.stack|)
  {
  }

  lemma ProcedureEntered(M: Image, W: World, infos: seq<Info>, env: Env, natives: nat, t: Thread, t': Thread) returns (env': Env)
    requires InCall(M, infos, env, natives, t) && Step(M, W, t) == Next(t') && !t.call.value.0.Builtin?
    ensures InCode(M, infos, env', |t'.stack|, t')
  {
    hide TableOk, EnvRep, EnterInterp, InCode, SlotHolds, CallRoom;
    var fp, argc := t.call.value.0, t.call.value.1;
    var fn, env1 := CalleeEnv(infos, env, ScopesOf(infos[t.fn]), t, fp);
    var s := t.(env := if fp.Code? then fp.menv else t.env, bindmap := None);
    assert EnterInterp(M, fn, s, argc) == Next(t');
    forall j {:trigger Top(s, argc)[j]} | 0 <= j < argc ensures Sound(infos, Top(s, argc)[j]) {
      assert Top(s, argc)[j] == Top(t, argc)[j];
    }
    env' := EntryIsInCode(M, infos, fn, env1, s, argc, t');
  }

  /** The environment that a procedure is entered in: that of its closure, or the one the thread keeps. */
  lemma CalleeEnv(infos: seq<Info>, env: Env, scopes: seq<Scope>, t: Thread, fp: Val) returns (fn: nat, env1: Env)
    requires SlotHolds(infos, scopes, Loose, fp) && (fp.Code? || fp.Func?) && EnvRep(infos, env, scopes, t.env) && scopes != []
    ensures fn == fp.fn < |infos| && infos[fn].chain != []
    ensures EnvRep(infos, env1, infos[fn].chain, if fp.Code? then fp.menv else t.env)
  {
    fn := fp.fn;
    if fp.Code? {
      var v :| Related(Compiled(infos), v, fp);
      hide EnvRep;
      env1 := v.env;
    } else {
      hide EnvRep;
      NoFunctionValue(infos, fp);
      env1 := env;
    }
  }

  lemma NoFunctionValue(infos: seq<Info>, w: Val)
    requires w.Func?
    ensures !Sound(infos, w)
  {
  }

  lemma NativeReturns(M: Image, W: World, infos: seq<Info>, env: Env, natives: nat, t: Thread, t': Thread)
    requires InCall(M, infos, env, natives, t) && FewNatives(W, natives, t)
    requires Step(M, W, t) == Next(t') && t.call.value.0.Builtin?
    ensures InCall(M, infos, env, natives + 1, t') && FewNatives(W, natives + 1, t')
  {
    hide TableOk, EnvRep, IsBuiltin, ChangesCont, ObserveAll, SlotHolds;
    var name, argc := t.call.value.0.name, t.call.value.1;
    var argv := Top(t, argc);
    var d := W(t.trace, name, ObserveAll(argv[1..])).value;
    assert t'.stack == t.stack + [DatumVal(d)] && t'.call == Some((argv[0], 1));
    assert Top(t', 1) == [DatumVal(d)];
    RelatedDatum(Compiled(infos), d);
    assert ArgHolds(infos, ScopesOf(infos[t.fn]), t.call.value.0, 0, argv[0]);
    ArgIsLoose(infos, ScopesOf(infos[t.fn]), t.call.value.0, argv[0]);
    if Plain(W) {
      PlainDatum(W, t.trace, name, ObserveAll(argv[1..]));
    }
  }

  lemma ArgIsLoose(infos: seq<Info>, scopes: seq<Scope>, fp: Val, w: Val)
    requires ArgHolds(infos, scopes, fp, 0, w)
    ensures SlotHolds(infos, scopes, Loose, w)
  {
  }

  lemma PlainDatum(W: World, tr: seq<Event>, name: string, args: seq<Obs>)
    requires Plain(W) && W(tr, name, args).Some?
    ensures !IsProcedure(DatumVal(W(tr, name, args).value))
  {
  }

  // ----- whole runs

  lemma ReachedStep(M: Image, W: World, infos: seq<Info>, t: Thread, t': Thread)
    requires Reached(M, W, infos, t) && Step(M, W, t) == Next(t')
    ensures Reached(M, W, infos, t')
  {
    hide InCode, InCall, FewNatives, Step;
    if env, level :| InCode(M, infos, env, level, t) {
      CodeStep(M, W, infos, env, level, t, t');
      NoNatives(W, t');
    } else {
      var env, natives :| InCall(M, infos, env, natives, t) && FewNatives(W, natives, t);
      assert t.call.Some? by {
        CallIs(M, infos, env, natives, t);
      }
      if t.call.value.0.Builtin? {
        NativeReturns(M, W, infos, env, natives, t, t');
      } else {
        var env' := ProcedureEntered(M, W, infos, env, natives, t, t');
      }
    }
  }

  lemma NoNatives(W: World, t: Thread)
    ensures FewNatives(W, 0, t)
  {
  }

  lemma CallIs(M: Image, infos: seq<Info>, env: Env, natives: nat, t: Thread)
    requires InCall(M, infos, env, natives, t)
    ensures t.call.Some?
  {
  }

  /**
   Every thread of a run of a compiled module, from the start on and whatever becomes of the run, is in a procedure, in
   the frame that static scoping means and with exactly the operands of its position above its arguments and bindmap, or
   about to call one.
   */
  lemma {:induction false} RunIsReached(M: Image, W: World, infos: seq<Info>, t: Thread, n: nat, t': Thread)
    requires Reached(M, W, infos, t) && Steps(M, W, t, n) == Some(t')
    ensures Reached(M, W, infos, t')
    decreases n
  {
    hide Reached, Step;
    if n > 0 {
      var t1 := Step(M, W, t).t;
      ReachedStep(M, W, infos, t, t1);
      RunIsReached(M, W, infos, t1, n - 1, t');
    }
  }

  /** So the operand stack stays bounded over whole runs: twice the frame, the bindmap, the operands and one more. */
  lemma ModuleThreads(M: Image, W: World, infos: seq<Info>, e: Exp, s: Thread, n: nat, t: Thread)
    requires Implements(M, infos, e) && |e.ps| == 1 && Start(M) == Some(s) && Steps(M, W, s, n) == Some(t)
    ensures Reached(M, W, infos, t)
    ensures t.fn < |M.funcs|
    ensures t.call == None || Plain(W) ==>
              var f := M.funcs[t.fn]; |t.stack| <= 2 * f.envSize + |f.bindmap| + Peak(f.ops, 0, |f.ops|, 0) + 1
  {
    hide Ready, Steps, Reached, Holds, Peak, Plain;
    var s' := StartReady(M, infos, e);
    StartReached(M, W, infos, e, s);
    RunIsReached(M, W, infos, s, n, t);
    ReachedBound(M, W, infos, t);
  }

  lemma ReachedBound(M: Image, W: World, infos: seq<Info>, t: Thread)
    requires Reached(M, W, infos, t)
    ensures t.fn < |M.funcs|
    ensures t.call == None || Plain(W) ==>
              var f := M.funcs[t.fn]; |t.stack| <= 2 * f.envSize + |f.bindmap| + Peak(f.ops, 0, |f.ops|, 0) + 1
  {
    hide Ready, Holds, Regions, Peak, Plain, TableOk, EnvRep, SlotHolds;
    if env, level :| InCode(M, infos, env, level, t) {
      ReadyHere(M, infos, env, t);
      ShapeAllFits(ScopesOf(infos[t.fn]), infos[t.fn].body, t.pc);
      LevelBelow(M, infos, env, level, t);
      LevelIsLow(M.funcs[t.fn], t, level);
      PeakOfBody(M, infos, t);
    } else {
      var env, natives :| InCall(M, infos, env, natives, t) && FewNatives(W, natives, t);
      PeakOfBody(M, infos, t);
    }
  }

  lemma LevelIsLow(f: Procedure, t: Thread, level: nat)
    requires Regions(f, t, level)
    ensures level <= 2 * f.envSize + |f.bindmap|
  {
  }

  lemma PeakOfBody(M: Image, infos: seq<Info>, t: Thread)
    requires TableOk(M.consts, infos, M.funcs) && t.fn < |M.funcs| && t.fn < |infos|
    ensures Peak(M.funcs[t.fn].ops, 0, |M.funcs[t.fn].ops|, 0) == NeedAll(infos[t.fn].body)
  {
    hide EmitsAll, BindmapOk, Peak;
    assert ProcedureOk(M.consts, infos, M.funcs[t.fn], infos[t.fn]);
    PeakIsNeedAll(Here(M, infos, t), infos[t.fn].body, 0, 0);
  }

  lemma StartReached(M: Image, W: World, infos: seq<Info>, e: Exp, s: Thread)
    requires e.Lam? && Ready(M, infos, Rib(e.ps, [Builtin("__exit")], Empty), s)
    requires s.pc == 0 && s.stack == [] && s.locals == OnHeap && s.bindmap == None
    ensures Reached(M, W, infos, s)
  {
    hide Ready, Holds, ShapeAll;
    ReadyHere(M, infos, Rib(e.ps, [Builtin("__exit")], Empty), s);
    FreshOperands(infos, infos[s.fn], s);
    assert InCode(M, infos, Rib(e.ps, [Builtin("__exit")], Empty), 0, s);
  }

  // ----- what a thread in a procedure can do

  /** How many operands an instruction takes off the stack. */
  function Pops(i: Instr): nat {
    match i
    case JumpIfFalse(_) => 1
    case FuncCall(argc) => argc + 1
    case Operation(op) => Arity(op)
    case _ => 0
  }

  /** No instruction takes off what it did not find above the arguments and the bindmap of its procedure. */
  lemma PopsStayAbove(M: Image, infos: seq<Info>, env: Env, level: nat, t: Thread)
    requires InCode(M, infos, env, level, t) && t.pc < |M.funcs[t.fn].ops|
    ensures level + Pops(M.funcs[t.fn].ops[t.pc]) <= |t.stack|
  {
    ReadyHere(M, infos, env, t);
    CodeIs(M, infos, env, t);
    hide Ready, Holds, Regions, ShapeAll, EmitsAll, TableOk, Find;
    LevelBelow(M, infos, env, level, t);
    if M.funcs[t.fn].ops[t.pc].FuncCall? {
      AllCallsOk(Here(M, infos, t), infos[t.fn].body, 0, t.pc);
    } else if !M.funcs[t.fn].ops[t.pc].JumpForward? {
      NextOperands(M, infos, env, t, t.pc + 1);
    }
  }

  /** A load finds the value of the variable that static scoping means. */
  lemma LoadFindsVariable(M: Image, infos: seq<Info>, env: Env, level: nat, t: Thread) returns (x: Name, w: Val)
    requires InCode(M, infos, env, level, t) && t.pc < |M.funcs[t.fn].ops|
    requires M.funcs[t.fn].ops[t.pc].LoadLocal? || M.funcs[t.fn].ops[t.pc].LoadBind?
    ensures IsVar(Here(M, infos, t), M.funcs[t.fn].ops[t.pc], x) && Find(ScopesOf(infos[t.fn]), x).Some?
    ensures Lookup(env, x).Some? && Related(Compiled(infos), Lookup(env, x).value, w)
    ensures var i := M.funcs[t.fn].ops[t.pc];
            (if i.LoadLocal? then LocalVal(t, i.slot) else BoundVal(M.funcs[t.fn], t, i.binding)) == Some(w)
  {
    hide Holds, Regions, ShapeAll, TableOk, FrameOk, Find, IsVar, Related, LocalVal, BoundVal;
    NextOperands(M, infos, env, t, t.pc + 1);
    var i := M.funcs[t.fn].ops[t.pc];
    x :| IsVar(Here(M, infos, t), i, x) && Find(ScopesOf(infos[t.fn]), x).Some?;
    w := VariableIsRead(infos, M.consts, M.funcs[t.fn], infos[t.fn], env, t, x, i);
  }

  /** Inside a procedure the machine stops for nothing but an operator's error and a full stack. */
  lemma OnlyErrorsStop(M: Image, W: World, infos: seq<Info>, env: Env, level: nat, t: Thread)
    requires InCode(M, infos, env, level, t) && t.pc < |M.funcs[t.fn].ops| && !Step(M, W, t).Next?
    ensures var i := M.funcs[t.fn].ops[t.pc];
            || |t.stack| >= STACK_LIMIT
            || (i.Operation? && Arity(i.op) <= |t.stack| && Operate(i.op, Top(t, Arity(i.op))) == None)
  {
    ReadyHere(M, infos, env, t);
    hide Ready, Holds, Regions, ShapeAll, TableOk, Related, LocalVal, BoundVal, Operate;
    PopsStayAbove(M, infos, env, level, t);
    var i := M.funcs[t.fn].ops[t.pc];
    if i.LoadLocal? || i.LoadBind? {
      var x, w := LoadFindsVariable(M, infos, env, level, t);
    } else if i.LoadConst? {
      ConstIsThere(M, infos, env, t);
    }
    hide InCode, Reads, Find;
    StopsOnly(M, W, t);
  }

  lemma ConstIsThere(M: Image, infos: seq<Info>, env: Env, t: Thread)
    requires Ready(M, infos, env, t) && t.pc < |M.funcs[t.fn].ops| && M.funcs[t.fn].ops[t.pc].LoadConst?
    ensures M.funcs[t.fn].ops[t.pc].index < |M.consts|
  {
    hide Ready, ShapeAll;
    NextOperands(M, infos, env, t, t.pc + 1);
  }

  /** What can stop an instruction whose operands, variable and constant are there. */
  lemma StopsOnly(M: Image, W: World, t: Thread)
    requires t.call == None && t.fn < |M.funcs| && t.pc < |M.funcs[t.fn].ops| && !Step(M, W, t).Next?
    requires var i := M.funcs[t.fn].ops[t.pc];
             && Pops(i) <= |t.stack|
             && (i.LoadLocal? ==> LocalVal(t, i.slot).Some?) && (i.LoadBind? ==> BoundVal(M.funcs[t.fn], t, i.binding).Some?)
             && (i.LoadConst? ==> i.index < |M.consts|)
    ensures var i := M.funcs[t.fn].ops[t.pc];
            || |t.stack| >= STACK_LIMIT
            || (i.Operation? && Arity(i.op) <= |t.stack| && Operate(i.op, Top(t, Arity(i.op))) == None)
  {
    hide LocalVal, BoundVal, Operate;
  }

  /** A call of a procedure with arguments that it takes enters it: `env_display` finds every frame of its bindmap. */
  lemma CallEnters(M: Image, W: World, infos: seq<Info>, env: Env, natives: nat, t: Thread) returns (t': Thread)
    requires InCall(M, infos, env, natives, t) && (t.call.value.0.Code? || t.call.value.0.Func?)
    requires |t.stack| < STACK_LIMIT && t.call.value.0.fn < |M.funcs| && Fits(M.funcs[t.call.value.0.fn])
    requires var f := M.funcs[t.call.value.0.fn]; if f.swallow then t.call.value.1 >= f.argc else t.call.value.1 == f.argc
    ensures Step(M, W, t) == Next(t')
  {
    hide EnvRep, EnterInterp, SlotHolds, CallRoom, Fits, EmitsAll, BindmapOk, RelatedAll, Sound, FrameOk;
    var fp, argc := t.call.value.0, t.call.value.1;
    var fn, env1 := CalleeEnv(infos, env, ScopesOf(infos[t.fn]), t, fp);
    var s := t.(env := if fp.Code? then fp.menv else t.env, bindmap := None);
    var i := infos[fn];
    assert ProcedureOk(M.consts, infos, M.funcs[fn], i);
    forall j {:trigger Top(s, argc)[j]} | 0 <= j < argc ensures Sound(infos, Top(s, argc)[j]) {
      assert Top(s, argc)[j] == Top(t, argc)[j];
    }
    var args := SoundAll(infos, Top(s, argc));
    RelatedCount(Compiled(infos), args, Top(s, argc));
    var vals := ArgsBind(i.ps, i.rest, args);
    t' := EnterOk(M, infos, fn, Closure(i.ps, i.rest, i.body, env1), args, vals, s);
  }
}
