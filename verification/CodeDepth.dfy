/** How many operands compiled code keeps on the stack. */
module CodeDepth {
  import opened Wrappers
  import opened Syntax
  import opened Values
  import opened Machine
  import opened CodeSpec

  /**
   What an instruction does to the number of operands. A call counts as pushing its result, and a forward jump takes the
   operand of its branch along, so that adding up in order of position gives the depth in each branch.
   */
  function Delta(i: Instr): int {
    match i
    case JumpIfFalse(_) => -1
    case JumpForward(_) => -1
    case FuncCall(argc) => -(argc as int)
    case Operation(op) => 1 - Arity(op)
    case _ => 1
  }

  /** The depth after the operations from `lo` to `hi`, and the largest on the way. */
  function Climb(ops: seq<Instr>, lo: nat, hi: nat, d: int): int
    requires lo <= hi <= |ops|
    decreases hi - lo
  {
    if lo == hi then d else Climb(ops, lo + 1, hi, d + Delta(ops[lo]))
  }

  function Peak(ops: seq<Instr>, lo: nat, hi: nat, d: int): (m: int)
    requires lo <= hi <= |ops|
    ensures m >= d
    decreases hi - lo
  {
    if lo == hi then d else Max(d, Peak(ops, lo + 1, hi, d + Delta(ops[lo])))
  }

  /** No instruction pushes more than one operand. */
  lemma {:induction false} PeakAtMost(ops: seq<Instr>, lo: nat, hi: nat, d: int)
    requires lo <= hi <= |ops|
    ensures Peak(ops, lo, hi, d) <= d + hi - lo
    decreases hi - lo
  {
    if lo < hi {
      PeakAtMost(ops, lo + 1, hi, d + Delta(ops[lo]));
    }
  }

  lemma {:induction false} Split(ops: seq<Instr>, lo: nat, mid: nat, hi: nat, d: int)
    requires lo <= mid <= hi <= |ops|
    ensures Climb(ops, lo, hi, d) == Climb(ops, mid, hi, Climb(ops, lo, mid, d))
    ensures Peak(ops, lo, hi, d) == Max(Peak(ops, lo, mid, d), Peak(ops, mid, hi, Climb(ops, lo, mid, d)))
    decreases mid - lo
  {
    if lo < mid {
      Split(ops, lo + 1, mid, hi, d + Delta(ops[lo]));
    }
  }

  lemma One(ops: seq<Instr>, at: nat, d: int)
    requires at < |ops|
    ensures Climb(ops, at, at + 1, d) == d + Delta(ops[at]) && Peak(ops, at, at + 1, d) == Max(d, d + Delta(ops[at]))
  {
    assert Climb(ops, at + 1, at + 1, d + Delta(ops[at])) == d + Delta(ops[at]);
    assert Peak(ops, at + 1, at + 1, d + Delta(ops[at])) == d + Delta(ops[at]);
  }

  /** One part after another. */
  lemma Then(ops: seq<Instr>, lo: nat, mid: nat, hi: nat, d: int, d1: int, p1: int, d2: int, p2: int)
    requires lo <= mid <= hi <= |ops|
    requires Climb(ops, lo, mid, d) == d1 && Peak(ops, lo, mid, d) == p1
    requires Climb(ops, mid, hi, d1) == d2 && Peak(ops, mid, hi, d1) == p2
    ensures Climb(ops, lo, hi, d) == d2 && Peak(ops, lo, hi, d) == Max(p1, p2)
  {
    hide Climb, Peak;
    Split(ops, lo, mid, hi, d);
  }

  /** The code of an expression leaves one operand, and needs exactly the room that `Need` says. */
  lemma {:induction false} PeakIsNeed(c: Context, e: Exp, pc: nat, d: int)
    requires Emits(c, e, pc)
    ensures pc + Len(e) <= |c.ops|
    ensures Climb(c.ops, pc, pc + Len(e), d) == d + 1 && Peak(c.ops, pc, pc + Len(e), d) == d + Need(e)
    decreases e, 1
  {
    hide Climb, Peak, IsConst, IsVar, IsLambda;
    match e
    case Lit(_) => One(c.ops, pc, d); PushesOne(c, e, pc);
    case Quote(_) => One(c.ops, pc, d); PushesOne(c, e, pc);
    case Var(_) => One(c.ops, pc, d); PushesOne(c, e, pc);
    case Lam(_, _, _) => One(c.ops, pc, d); PushesOne(c, e, pc);
    case Op(op, args) =>
      var at := pc + LenAll(args);
      PeakIsNeedAll(c, args, pc, d);
      One(c.ops, at, d + |args|);
      Then(c.ops, pc, at, at + 1, d, d + |args|, d + NeedAll(args), d + 1, d + Max(|args|, 1));
      CountIsLess(args);
    case If(_, _, _) => PeakOfIf(c, e, pc, d);
    case Call(es) => PeakOfCall(c, es, pc, d);
  }

  lemma PushesOne(c: Context, e: Exp, pc: nat)
    requires Emits(c, e, pc) && (e.Lit? || e.Quote? || e.Var? || e.Lam?)
    ensures Len(e) == 1 && Need(e) == 1 && Delta(c.ops[pc]) == 1
  {
    hide Find;
  }

  lemma {:induction false} CountIsLess(es: seq<Exp>)
    ensures |es| <= NeedAll(es)
    decreases |es|
  {
    if es != [] {
      CountIsLess(es[1..]);
    }
  }

  lemma {:induction false} PeakIsNeedAll(c: Context, es: seq<Exp>, pc: nat, d: int)
    requires EmitsAll(c, es, pc) && pc <= |c.ops|
    ensures pc + LenAll(es) <= |c.ops|
    ensures Climb(c.ops, pc, pc + LenAll(es), d) == d + |es| && Peak(c.ops, pc, pc + LenAll(es), d) == d + NeedAll(es)
    decreases es, 0
  {
    hide Emits;
    if es != [] {
      var at := pc + Len(es[0]);
      PeakIsNeed(c, es[0], pc, d);
      PeakIsNeedAll(c, es[1..], at, d + 1);
      hide Climb, Peak;
      Then(c.ops, pc, at, pc + LenAll(es), d, d + 1, d + Need(es[0]), d + |es|, d + 1 + NeedAll(es[1..]));
    }
  }

  lemma {:induction false} PeakOfIf(c: Context, e: Exp, pc: nat, d: int)
    requires EmitsIf(c, e, pc)
    ensures Climb(c.ops, pc, pc + Len(e), d) == d + 1 && Peak(c.ops, pc, pc + Len(e), d) == d + Need(e)
    decreases e, 0
  {
    hide Emits, Climb, Peak;
    var yes := pc + Len(e.test) + 1;
    var no := yes + Len(e.yes) + 1;
    var end := no + Len(e.no);
    PeakIsNeed(c, e.test, pc, d);
    One(c.ops, yes - 1, d + 1);
    PeakIsNeed(c, e.yes, yes, d);
    One(c.ops, no - 1, d + 1);
    PeakIsNeed(c, e.no, no, d);
    Then(c.ops, pc, yes - 1, yes, d, d + 1, d + Need(e.test), d, d + 1);
    Then(c.ops, yes, no - 1, no, d, d + 1, d + Need(e.yes), d, d + 1);
    Then(c.ops, yes, no, end, d, d, d + Need(e.yes), d + 1, d + Need(e.no));
    Then(c.ops, pc, yes, end, d, d, d + Need(e.test), d + 1, d + Max(Need(e.yes), Need(e.no)));
  }

  /** The arguments of a call; the first of them may be loaded as a function. */
  lemma {:induction false} PeakOfArgs(c: Context, es: seq<Exp>, pc: nat, d: int)
    requires es != [] && EmitsArgs(c, es, pc) && pc <= |c.ops|
    ensures pc + LenAll(es[1..]) <= |c.ops|
    ensures Climb(c.ops, pc, pc + LenAll(es[1..]), d) == d + |es| - 1
    ensures Peak(c.ops, pc, pc + LenAll(es[1..]), d) == d + NeedAll(es[1..])
    decreases es, 0
  {
    hide Emits, Climb, Peak, Find, ContSafe, IsBuiltin, ChangesCont;
    if NativeCall(c.scopes, es) && pc < |c.ops| && c.ops[pc].LoadFunc? {
      assert es[1..][1..] == es[2..] && es[1..][0] == es[1];
      One(c.ops, pc, d);
      PeakIsNeedAll(c, es[2..], pc + 1, d + 1);
      Then(c.ops, pc, pc + 1, pc + LenAll(es[1..]), d, d + 1, d + 1, d + |es| - 1, d + 1 + NeedAll(es[2..]));
    } else {
      PeakIsNeedAll(c, es[1..], pc, d);
    }
  }

  lemma {:induction false} PeakOfCall(c: Context, es: seq<Exp>, pc: nat, d: int)
    requires EmitsCall(c, es, pc)
    ensures Climb(c.ops, pc, pc + LenAll(es) + 1, d) == d + 1 && Peak(c.ops, pc, pc + LenAll(es) + 1, d) == d + Need(Call(es))
    decreases es, 1
  {
    hide Emits, EmitsAll, EmitsArgs, Climb, Peak, Find, ContSafe;
    var n := |es| - 1;
    var at, end := pc + LenAll(es[1..]), pc + LenAll(es);
    PeakOfArgs(c, es, pc, d);
    if es[0].Lam? {
      One(c.ops, at, d + n);
    } else {
      PeakIsNeed(c, es[0], at, d + n);
    }
    One(c.ops, end, d + n + 1);
    Then(c.ops, pc, at, end, d, d + n, d + NeedAll(es[1..]), d + n + 1, d + n + Need(es[0]));
    Then(c.ops, pc, end, end + 1, d, d + n + 1, d + Need(Call(es)), d + 1, d + n + 1);
  }
}
