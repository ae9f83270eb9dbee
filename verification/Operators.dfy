/** What the operators of the machine compute, and how values are built. */
module OperatorLaws {
  import opened Wrappers
  import opened Syntax
  import opened Values

  // ----- when an operator has a value

  /** The operands that an operator accepts. */
  predicate Accepts(op: Operator, vs: seq<Val>) {
    match op
    case OpCons => |vs| == 2
    case OpCar | OpCdr => |vs| == 1 && vs[0].Pair?
    case OpNot => |vs| == 1
    case OpTypeTest(_) => |vs| == 1
    case OpEqPtr => |vs| == 2 && (Immediate(vs[0]) || Immediate(vs[1]))
    case OpDiv | OpMod => |vs| == 2 && vs[0].Fixnum? && vs[1].Fixnum? && vs[1].i != 0
    case _ => |vs| == 2 && vs[0].Fixnum? && vs[1].Fixnum?
  }

  lemma OperateIffAccepts(op: Operator, vs: seq<Val>)
    ensures Operate(op, vs).Some? <==> Accepts(op, vs)
  {
    hide Bitwise, Wrap, Quotient, Test, Immediate;
  }

  // ----- pairs

  /** Taking apart undoes consing, and the other way round; nothing but a pair is taken apart. */
  lemma PairLaws(a: Val, b: Val, v: Val)
    ensures Operate(OpCons, [a, b]).Some?
    ensures Operate(OpCar, [Operate(OpCons, [a, b]).value]) == Some(a) && Operate(OpCdr, [Operate(OpCons, [a, b]).value]) == Some(b)
    ensures Operate(OpCar, [Pair(a, b)]) == Some(a)
    ensures Operate(OpCar, [v]).Some? == Operate(OpCdr, [v]).Some? == v.Pair?
    ensures v.Pair? ==> Operate(OpCons, [Operate(OpCar, [v]).value, Operate(OpCdr, [v]).value]) == Some(v)
  {
  }

  // ----- numbers

  /** The numbers that fit a word with its tag. */
  predicate InFixnum(i: int) { -0x1000_0000_0000_0000 <= i < 0x1000_0000_0000_0000 }

  predicate Congruent(i: int, j: int) { (i - j) % 0x2000_0000_0000_0000 == 0 }

  /** `v` is the fixnum that stands for the number `i`. */
  predicate Keeps(v: Option<Val>, i: int) { v.Some? && v.value.Fixnum? && InFixnum(v.value.i) && Congruent(v.value.i, i) }

  lemma WrapKeeps(i: int)
    ensures Keeps(Some(Fixnum(Wrap(i))), i)
    ensures InFixnum(i) ==> Wrap(i) == i
  {
  }

  /** The number kept is the only one. */
  lemma KeepsOne(v: Option<Val>, w: Option<Val>, i: int)
    requires Keeps(v, i) && Keeps(w, i)
    ensures v == w
  {
    assert (v.value.i - w.value.i) % 0x2000_0000_0000_0000 == 0;
  }

  lemma ArithmeticLaws(a: int, b: int)
    ensures Keeps(Operate(OpAdd, [Fixnum(a), Fixnum(b)]), a + b)
    ensures Keeps(Operate(OpSub, [Fixnum(a), Fixnum(b)]), a - b)
    ensures Keeps(Operate(OpMul, [Fixnum(a), Fixnum(b)]), a * b)
    ensures b != 0 ==> Keeps(Operate(OpDiv, [Fixnum(a), Fixnum(b)]), Quotient(a, b))
    ensures b != 0 ==> Keeps(Operate(OpMod, [Fixnum(a), Fixnum(b)]), Remainder(a, b))
  {
    hide Wrap, Keeps, Quotient, Remainder, Operate, Bitwise;
    OnFixnums(OpAdd, a, b);
    OnFixnums(OpSub, a, b);
    OnFixnums(OpMul, a, b);
    OnFixnums(OpDiv, a, b);
    OnFixnums(OpMod, a, b);
    WrapKeeps(a + b);
    WrapKeeps(a - b);
    WrapKeeps(a * b);
    if b != 0 {
      WrapKeeps(Quotient(a, b));
      WrapKeeps(Remainder(a, b));
    }
  }

  predicate Arithmetical(op: Operator) { !(op.OpCons? || op.OpCar? || op.OpCdr? || op.OpNot? || op.OpTypeTest? || op.OpEqPtr?) }

  lemma OnFixnums(op: Operator, a: int, b: int)
    requires Arithmetical(op)
    ensures Operate(op, [Fixnum(a), Fixnum(b)]) == Arithmetic(op, a, b)
  {
    hide Arithmetic;
  }

  /** Division truncates: the remainder is smaller than the divisor and has the sign of the dividend, and nothing else is. */
  lemma DivisionTruncates(a: int, b: int, q: int, r: int)
    requires b != 0
    ensures q == Quotient(a, b) && r == Remainder(a, b)
            <==> a == b * q + r && Abs(r) < Abs(b) && (r == 0 || (r < 0 <==> a < 0))
  {
    DivisionLaw(a, b);
    if a == b * q + r && Abs(r) < Abs(b) && (r == 0 || (r < 0 <==> a < 0)) {
      DivisionUnique(b, q, r, Quotient(a, b), Remainder(a, b), a);
    }
  }

  lemma DivisionLaw(a: int, b: int)
    requires b != 0
    ensures var q, r := Quotient(a, b), Remainder(a, b);
            a == b * q + r && Abs(r) < Abs(b) && (r == 0 || (r < 0 <==> a < 0))
  {
    hide Quotient;
    ProductOfQuotient(a, b);
    var m: int, n: int := Abs(a), Abs(b);
    WholeDivision(m, n);
  }

  lemma WholeDivision(m: int, n: int)
    requires 0 <= m && 0 < n
    ensures m - n < n * (m / n) <= m
  {
    assert m == n * (m / n) + m % n;
  }

  lemma ProductOfQuotient(a: int, b: int)
    requires b != 0
    ensures b * Quotient(a, b) == if a < 0 then -(Abs(b) * (Abs(a) / Abs(b))) else Abs(b) * (Abs(a) / Abs(b))
  {
    Signs(b, Abs(a) / Abs(b));
  }

  lemma Signs(b: int, q: int)
    ensures b * q == (if b < 0 then -(Abs(b) * q) else Abs(b) * q) && b * -q == -(b * q)
  {
  }

  lemma DivisionUnique(b: int, q: int, r: int, q': int, r': int, a: int)
    requires b != 0 && a == b * q + r && a == b * q' + r'
    requires Abs(r) < Abs(b) && Abs(r') < Abs(b)
    requires (r == 0 || (r < 0 <==> a < 0)) && (r' == 0 || (r' < 0 <==> a < 0))
    ensures q == q' && r == r'
  {
    assert b * (q - q') == r' - r;
    assert Abs(r' - r) < Abs(b);
    MultipleIsZero(b, q - q');
  }

  lemma MultipleIsZero(b: int, k: int)
    requires Abs(b * k) < Abs(b)
    ensures k == 0
  {
    assert k >= 1 && b > 0 ==> b * k >= b;
    assert k <= -1 && b > 0 ==> b * k <= -b;
    assert k >= 1 && b < 0 ==> b * k <= b;
    assert k <= -1 && b < 0 ==> b * k >= -b;
  }

  /** The three comparisons are the cases of one order, that of the numbers. */
  lemma ComparisonLaws(a: int, b: int)
    ensures var lt, gt, eq := Operate(OpLt, [Fixnum(a), Fixnum(b)]), Operate(OpGt, [Fixnum(a), Fixnum(b)]), Operate(OpEq, [Fixnum(a), Fixnum(b)]);
            && lt == Some(Bool(a < b)) && eq == Some(Bool(a == b))
            && gt == Operate(OpLt, [Fixnum(b), Fixnum(a)])
            && [lt, gt, eq] in {[Some(Bool(true)), Some(Bool(false)), Some(Bool(false))],
                                [Some(Bool(false)), Some(Bool(true)), Some(Bool(false))],
                                [Some(Bool(false)), Some(Bool(false)), Some(Bool(true))]}
  {
  }

  // ----- bits

  function PowerOfTwo(k: nat): (p: nat)
    ensures p > 0
  {
    if k == 0 then 1 else 2 * PowerOfTwo(k - 1)
  }

  /** Bit `k` of a two's complement of any width. */
  predicate Bit(i: int, k: nat) { i / PowerOfTwo(k) % 2 == 1 }

  lemma HalfBit(i: int, k: nat)
    requires k > 0
    ensures Bit(i, k) == Bit(i / 2, k - 1)
  {
    var p := PowerOfTwo(k - 1);
    var q, r := i / 2 / p, i / 2 % p;
    assert i / 2 == q * p + r;
    assert i == q * (2 * p) + (2 * r + i % 2);
    FloorIs(i, 2 * p, q, 2 * r + i % 2);
  }

  lemma FloorIs(n: int, b: nat, q: int, r: nat)
    requires b > 0 && n == q * b + r && r < b
    ensures n / b == q
  {
    var m := n / b;
    assert n == m * b + n % b;
    OneMore(m, q, b);
    OneMore(q, m, b);
  }

  lemma OneMore(m: int, q: int, b: nat)
    ensures m < q ==> (m + 1) * b <= q * b
  {
  }

  lemma {:induction false} BitwiseBits(op: Operator, a: int, b: int, n: nat, k: nat)
    requires k < n
    ensures Bit(Bitwise(op, a, b, n), k) == Gate(op, Bit(a, k), Bit(b, k))
    decreases n
  {
    if k > 0 {
      var i := Bitwise(op, a, b, n);
      assert i / 2 == Bitwise(op, a / 2, b / 2, n - 1);
      BitwiseBits(op, a / 2, b / 2, n - 1, k - 1);
      HalfBit(i, k);
      HalfBit(a, k);
      HalfBit(b, k);
    }
  }

  /** Adding a multiple of a higher power changes no lower bit. */
  lemma {:induction false} HighPartHidden(i: int, c: int, n: nat, k: nat)
    requires k < n
    ensures Bit(i + c * PowerOfTwo(n), k) == Bit(i, k)
    decreases k
  {
    hide Bit;
    var e := c * PowerOfTwo(n - 1);
    Twice(c, PowerOfTwo(n - 1));
    assert i + c * PowerOfTwo(n) == i + 2 * e;
    if k > 0 {
      HighPartHidden(i / 2, c, n - 1, k - 1);
      HalfBit(i, k);
      HalfBit(i + 2 * e, k);
    } else {
      FirstBit(i);
      FirstBit(i + 2 * e);
    }
  }

  lemma Twice(c: int, p: nat)
    ensures c * (2 * p) == 2 * (c * p)
  {
  }

  lemma FirstBit(i: int)
    ensures Bit(i, 0) == (i % 2 == 1)
  {
  }

  lemma Power61()
    ensures PowerOfTwo(61) == 0x2000_0000_0000_0000
  {
    assert PowerOfTwo(10) == 0x400;
    assert PowerOfTwo(20) == 0x400 * PowerOfTwo(10);
    assert PowerOfTwo(30) == 0x400 * PowerOfTwo(20);
    assert PowerOfTwo(40) == 0x400 * PowerOfTwo(30);
    assert PowerOfTwo(50) == 0x400 * PowerOfTwo(40);
    assert PowerOfTwo(60) == 0x400 * PowerOfTwo(50);
  }

  lemma WrapBits(i: int, k: nat)
    requires k < 61
    ensures Bit(Wrap(i), k) == Bit(i, k)
  {
    Power61();
    WrapKeeps(i);
    var c := (Wrap(i) - i) / 0x2000_0000_0000_0000;
    assert Wrap(i) == i + c * PowerOfTwo(61);
    HighPartHidden(i, c, 61, k);
  }

  /** Every bit of the result is that of the operands' bits; the topmost of 61 is the sign. */
  lemma BitwiseLaws(op: Operator, a: int, b: int, k: nat)
    requires (op == OpBitAnd || op == OpBitIor || op == OpBitXor) && k < 61
    ensures var r := Operate(op, [Fixnum(a), Fixnum(b)]);
            && r.Some? && r.value.Fixnum? && InFixnum(r.value.i)
            && Bit(r.value.i, k) == match op
                                    case OpBitAnd => Bit(a, k) && Bit(b, k)
                                    case OpBitIor => Bit(a, k) || Bit(b, k)
                                    case _ => Bit(a, k) != Bit(b, k)
  {
    hide Wrap, Bit, Bitwise, Operate, PowerOfTwo, InFixnum;
    OnFixnums(op, a, b);
    WrapKeeps(Bitwise(op, a, b, 61));
    WrapBits(Bitwise(op, a, b, 61), k);
    BitwiseBits(op, a, b, 61, k);
  }

  // ----- types, identity, truth

  /** The tests that hold of a value: one for its type, and for the end of a chain of pairs that of a list as well. */
  lemma TestLaws(v: Val, t: TypeTest)
    ensures Operate(OpTypeTest(t), [v]) == Some(Bool(
              match v
              case Null => t == TNull || t == TList
              case Bool(_) => t == TBoolean
              case Fixnum(_) => t == TFixnum
              case Char(_) => t == TChar
              case Text(_) => t == TString
              case Symbol(_) => t == TSymbol
              case Pair(_, _) => t == TPair || (t == TList && IsList(v))
              case Vector(_) => t == TStruct
              case Builtin(_) => t == TProcedure
              case Closure(_, _, _, _) => t == TProcedure
              case Code(_, _) => t == TProcedure
              case Func(_) => t == TProcedure
              case EnvRef(_) => false))
  {
  }

  /** The lists are what consing up some values in front of the empty list makes. */
  lemma IsListIff(v: Val)
    ensures IsList(v) <==> exists vs :: v == ListVal(vs)
  {
    if IsList(v) {
      var vs := Elements(v);
    }
    forall vs | v == ListVal(vs) ensures IsList(v) {
      ListValIsList(vs);
    }
  }

  lemma {:induction false} Elements(v: Val) returns (vs: seq<Val>)
    requires IsList(v)
    ensures v == ListVal(vs)
    decreases v
  {
    if v.Null? {
      vs := [];
    } else {
      var ws := Elements(v.cdr);
      vs := [v.car] + ws;
      assert vs[1..] == ws;
    }
  }

  lemma {:induction false} ListValIsList(vs: seq<Val>)
    ensures IsList(ListVal(vs))
    decreases |vs|
  {
    if vs != [] {
      ListValIsList(vs[1..]);
    }
  }

  /** After `k` times `$cdr`. */
  function Cdrs(v: Val, k: nat): Option<Val>
    decreases k
  {
    if k == 0 then Some(v) else
    var d :- Operate(OpCdr, [v]);
    Cdrs(d, k - 1)
  }

  /** Element `k` of a list is the `$car` after `k` times `$cdr`; after the last element there is the empty list. */
  lemma {:induction false} ListOrder(vs: seq<Val>, k: nat)
    requires k <= |vs|
    ensures Cdrs(ListVal(vs), k).Some?
    ensures if k == |vs| then Cdrs(ListVal(vs), k) == Some(Null) else Operate(OpCar, [Cdrs(ListVal(vs), k).value]) == Some(vs[k])
    decreases k
  {
    if k > 0 {
      ListOrder(vs[1..], k - 1);
    }
  }

  /** Parameters take the arguments in order, and a rest parameter the list of those left over. */
  lemma BindOrder(ps: seq<Name>, rest: bool, args: seq<Val>, k: nat)
    ensures Bind(ps, rest, args).Some? <==> if rest then ps != [] && |args| >= |ps| - 1 else |args| == |ps|
    ensures Bind(ps, rest, args).Some? ==>
              var vals := Bind(ps, rest, args).value;
              && |vals| == |ps|
              && (k < |ps| && (!rest || k < |ps| - 1) ==> k < |args| && vals[k] == args[k])
              && (rest && |ps| - 1 + k < |args| ==>
                    var list := Cdrs(vals[|ps| - 1], k); list.Some? && Operate(OpCar, [list.value]) == Some(args[|ps| - 1 + k]))
              && (rest && |ps| - 1 + k == |args| ==> Cdrs(vals[|ps| - 1], k) == Some(Null))
  {
    hide Cdrs, Operate, ListVal;
    if rest && Bind(ps, rest, args).Some? {
      var left := args[|ps| - 1..];
      if k <= |left| {
        ListOrder(left, k);
      }
    }
  }

  /** `$not` is true of false alone; `$eq?` decides equality, of anything with a value that its word determines. */
  lemma TruthLaws(v: Val, w: Val)
    ensures Operate(OpNot, [v]) == Some(Bool(true)) || Operate(OpNot, [v]) == Some(Bool(false))
    ensures Operate(OpNot, [v]) == Some(Bool(true)) <==> v == Bool(false)
    ensures Immediate(v) <==> !(v.Text? || v.Pair? || v.Vector? || v.Closure? || v.Code? || v.Func? || v.EnvRef?)
    ensures Immediate(v) ==> Operate(OpEqPtr, [v, w]) == Some(Bool(v == w)) == Operate(OpEqPtr, [w, v])
  {
  }

  // ----- constants

  /** The constant that a value is, if it is one. */
  function Quoted(v: Val): Option<Datum> {
    match v
    case Null => Some(DNull)
    case Bool(b) => Some(DBool(b))
    case Char(c) => Some(DChar(c))
    case Fixnum(i) => Some(DFixnum(i))
    case Text(s) => Some(DString(s))
    case Symbol(s) => Some(DSymbol(s))
    case Builtin(s) => Some(DStatic(s))
    case Pair(a, b) =>
      var b' :- Quoted(b);
      var a' :- Quoted(a);
      Some(DPair(a', b'))
    case Vector(es) =>
      var es' :- QuotedAll(es);
      Some(DVector(es'))
    case _ => None
  }

  function QuotedAll(vs: seq<Val>): Option<seq<Datum>> {
    if vs == [] then Some([]) else
    var d :- Quoted(vs[0]);
    var ds :- QuotedAll(vs[1..]);
    Some([d] + ds)
  }

  /** A constant becomes the one value that is this constant. */
  lemma {:induction false} DatumValIff(d: Datum, v: Val)
    ensures DatumVal(d) == v <==> Quoted(v) == Some(d)
    decreases d, 1
  {
    match d
    case DPair(a, b) =>
      if v.Pair? {
        DatumValIff(a, v.car);
        DatumValIff(b, v.cdr);
      }
    case DVector(es) =>
      if v.Vector? {
        DatumValsIff(es, v.elems);
      }
    case _ =>
  }

  lemma {:induction false} DatumValsIff(ds: seq<Datum>, vs: seq<Val>)
    ensures DatumVals(ds) == vs <==> QuotedAll(vs) == Some(ds)
    decreases ds, 0
  {
    hide DatumVal, Quoted;
    if ds != [] && vs != [] {
      DatumValIff(ds[0], vs[0]);
      DatumValsIff(ds[1..], vs[1..]);
      assert ds == [ds[0]] + ds[1..] && vs == [vs[0]] + vs[1..];
      if QuotedAll(vs).Some? {
        assert QuotedAll(vs).value[0] == Quoted(vs[0]).value && QuotedAll(vs).value[1..] == QuotedAll(vs[1..]).value;
      }
      assert DatumVals(ds)[0] == DatumVal(ds[0]) && DatumVals(ds)[1..] == DatumVals(ds[1..]);
    }
  }

  /** Two values made of constants alone, without native functions in them, look the same only when they are. */
  predicate Plain(d: Datum) {
    match d
    case DStatic(_) => false
    case DPair(a, b) => Plain(a) && Plain(b)
    case DVector(es) => PlainAll(es)
    case _ => true
  }

  predicate PlainAll(ds: seq<Datum>) { ds == [] || (Plain(ds[0]) && PlainAll(ds[1..])) }

  lemma {:induction false} ObservationTells(d: Datum, v: Val)
    requires Plain(d)
    ensures Observe(v) == Observe(DatumVal(d)) <==> v == DatumVal(d)
    decreases d, 1
  {
    match d
    case DPair(a, b) =>
      if v.Pair? {
        ObservationTells(a, v.car);
        ObservationTells(b, v.cdr);
      }
    case DVector(es) =>
      if v.Vector? {
        ObservationsTell(es, v.elems);
      }
    case _ =>
  }

  lemma {:induction false} ObservationsTell(ds: seq<Datum>, vs: seq<Val>)
    requires PlainAll(ds)
    ensures ObserveAll(vs) == ObserveAll(DatumVals(ds)) <==> vs == DatumVals(ds)
    decreases ds, 0
  {
    hide DatumVal, Observe;
    if ds != [] && vs != [] {
      ObservationTells(ds[0], vs[0]);
      ObservationsTell(ds[1..], vs[1..]);
      var ws := DatumVals(ds);
      assert vs == [vs[0]] + vs[1..] && ws == [ws[0]] + ws[1..] && ws[1..] == DatumVals(ds[1..]) && ws[0] == DatumVal(ds[0]);
      assert ObserveAll(vs) == [Observe(vs[0])] + ObserveAll(vs[1..]) && ObserveAll(ws) == [Observe(ws[0])] + ObserveAll(ws[1..]);
      assert ObserveAll(vs)[1..] == ObserveAll(vs[1..]) && ObserveAll(ws)[1..] == ObserveAll(ws[1..]);
    }
  }

  // ----- native functions

  /** Every native function returns to its continuation, but the exit and the three that may change the continuation. */
  lemma NativeKinds(s: string)
    ensures IsBuiltin(s) <==> Returns(s) || s == "__exit" || s == "call/cc" || s == "apply" || s == "load-library"
    ensures Returns(s) ==> s != "__exit" && s != "call/cc" && s != "apply" && s != "load-library"
    ensures ChangesCont(s) <==> s == "call/cc" || s == "apply" || s == "load-library"
  {
    assert BUILTINS[1].0 == "__exit";
    assert BUILTINS[2] == ("call/cc", true) && BUILTINS[3] == ("apply", true) && BUILTINS[31] == ("load-library", true);
    forall i | 0 <= i < |BUILTINS| ensures BUILTINS[i].1 <==> i == 2 || i == 3 || i == 31 {
    }
    forall i | 0 <= i < |BUILTINS| ensures BUILTINS[i].0 == "__exit" <==> i == 1 {
    }
  }
}
