/** Integers as bytes, least significant first. */
module Bytes {
  import opened Wrappers

  type Byte = b: nat | b < 256

  function Power(k: nat): (p: nat)
    ensures p > 0
  {
    if k == 0 then 1 else 256 * Power(k - 1)
  }

  /** The low `k` bytes of `n`. */
  function ToBytes(n: nat, k: nat): (bs: seq<Byte>)
    ensures |bs| == k
    decreases k
  {
    if k == 0 then [] else [n % 256] + ToBytes(n / 256, k - 1)
  }

  function FromBytes(bs: seq<Byte>): (n: nat)
    ensures n < Power(|bs|)
  {
    if bs == [] then 0 else
    var n := FromBytes(bs[1..]);
    assert n + 1 <= Power(|bs| - 1);
    bs[0] + 256 * n
  }

  lemma {:induction false} FromToBytes(n: nat, k: nat)
    requires n < Power(k)
    ensures FromBytes(ToBytes(n, k)) == n
    decreases k
  {
    if k > 0 {
      assert n / 256 < Power(k - 1);
      FromToBytes(n / 256, k - 1);
      assert ToBytes(n, k)[1..] == ToBytes(n / 256, k - 1);
    }
  }

  lemma Power8()
    ensures Power(1) == 256 && Power(2) == 0x1_0000 && Power(4) == 0x1_0000_0000 && Power(8) == 0x1_0000_0000_0000_0000
  {
    assert Power(4) == 256 * Power(3) && Power(3) == 256 * Power(2) && Power(2) == 256 * Power(1);
    assert Power(8) == 256 * Power(7) && Power(7) == 256 * Power(6) && Power(6) == 256 * Power(5) && Power(5) == 256 * Power(4);
  }

  /** Two's complement. */
  function Unsigned(i: int, k: nat): Option<nat> {
    if 0 <= 2 * i < Power(k) then Some(i)
    else if -(Power(k) as int) <= 2 * i < 0 then Some(i + Power(k))
    else None
  }

  function Signed(n: nat, k: nat): int { if 2 * n < Power(k) then n else n - Power(k) }

  lemma SignedUnsigned(i: int, k: nat)
    requires k > 0 && Unsigned(i, k).Some?
    ensures Unsigned(i, k).value < Power(k) && Signed(Unsigned(i, k).value, k) == i
  {
  }
}

/** Constants in module files: scheme/compiler/fasl.scm writes them, vm/module.c reads them. */
module Fasl {
  import opened Wrappers
  import opened Syntax
  import opened Values
  import opened Bytes

  const OT_FIXNUM: Byte := 0
  const OT_CHARACTER: Byte := 1
  const OT_STRING: Byte := 2
  const OT_SYMBOL: Byte := 3
  const OT_STATIC: Byte := 4
  const OT_PAIR_BEGIN: Byte := 5
  const OT_PAIR_END: Byte := 6
  const OT_STRUCT: Byte := 7
  const OT_BOOLEAN: Byte := 8
  const OT_NULL: Byte := 9

  // ----- writing

  function Size(d: Datum): (n: nat)
    ensures n > 0
  {
    match d
    case DPair(a, b) => 1 + Size(a) + Size(b)
    case DVector(es) => 1 + SizeAll(es)
    case _ => 1
  }

  function SizeAll(ds: seq<Datum>): nat {
    if ds == [] then 0 else Size(ds[0]) + SizeAll(ds[1..])
  }

  /** The bytes of a string of byte characters. */
  function CharBytes(s: string): (r: Option<seq<Byte>>)
    ensures r.Some? ==> |r.value| == |s|
  {
    if s == "" then Some([]) else
    var rest :- CharBytes(s[1..]);
    if s[0] as nat < 256 then Some([s[0] as nat] + rest) else None
  }

  /** `string->cbv`: the length with the terminator, the bytes, the terminator. `None` where `bytevector-u8-set!` fails. */
  function StringBytes(s: string): Option<seq<Byte>> {
    var bs :- CharBytes(s);
    if |bs| + 1 < 256 then Some([|bs| + 1] + bs + [0]) else None
  }

  /** The loop of `pair-prepare`. */
  function PrepareFrom(res: seq<Datum>, cur: Datum): (r: seq<Datum>)
    requires cur.DPair?
    ensures SizeAll(r) < Size(cur) + SizeAll(res)
    decreases cur
  {
    if cur.cdr.DPair? then PrepareFrom([cur.car] + res, cur.cdr) else
    assert ([cur.cdr, cur.car] + res)[1..] == [cur.car] + res;
    assert ([cur.car] + res)[1..] == res;
    [cur.cdr, cur.car] + res
  }

  /** `pair-prepare`: the tail of the list, then its elements from the last to the first. */
  function PairPrepare(pair: Datum): (r: seq<Datum>)
    requires pair.DPair?
    ensures SizeAll(r) < Size(pair)
  {
    PrepareFrom([], pair)
  }

  /** `put-object`; `None` where a width is exceeded. */
  function PutObject(d: Datum): Option<seq<Byte>>
    decreases Size(d), 0
  {
    match d
    case DNull => Some([OT_NULL])
    case DBool(b) => Some([OT_BOOLEAN, if b then 1 else 0])
    case DChar(c) => if c < 0x1_0000 then Some([OT_CHARACTER] + ToBytes(c, 2)) else None
    case DFixnum(i) =>
      var n :- Unsigned(i, 8);
      Some([OT_FIXNUM] + ToBytes(n, 8))
    case DSymbol(s) =>
      var bs :- StringBytes(s);
      Some([OT_SYMBOL] + bs)
    case DString(s) =>
      var bs :- StringBytes(s);
      Some([OT_STRING] + bs)
    case DStatic(s) =>
      var bs :- StringBytes(s);
      Some([OT_STATIC] + bs)
    case DPair(_, _) =>
      var bs :- PutAll(PairPrepare(d));
      Some([OT_PAIR_BEGIN] + bs + [OT_PAIR_END])
    case DVector(es) =>
      if |es| >= 256 then None else
      var name :- StringBytes("vector");
      var bs :- PutAll(es);
      Some([OT_STRUCT] + name + [|es|] + bs)
  }

  function PutAll(ds: seq<Datum>): Option<seq<Byte>>
    decreases SizeAll(ds), 1 + |ds|
  {
    if ds == [] then Some([]) else
    var b :- PutObject(ds[0]);
    var rest :- PutAll(ds[1..]);
    Some(b + rest)
  }

  // ----- reading

  /** What is read, and the bytes after it. */
  datatype Read<T> = Read(value: T, rest: seq<Byte>)

  function Take(bs: seq<Byte>, n: nat): (r: Option<Read<seq<Byte>>>)
    ensures r.Some? ==> |r.value.value| == n
  {
    if n <= |bs| then Some(Read(bs[..n], bs[n..])) else None
  }

  /** The C string at the beginning of some bytes: it ends before the first zero. */
  function CString(bs: seq<Byte>): (r: Option<string>) {
    if bs == [] then None
    else if bs[0] == 0 then Some("")
    else
      var rest :- CString(bs[1..]);
      Some([bs[0] as char] + rest)
  }

  /** `code_read_string`. */
  function ReadString(bs: seq<Byte>): (r: Option<Read<string>>)
    ensures r.Some? ==> |r.value.rest| < |bs|
  {
    var len :- Take(bs, 1);
    var body :- Take(len.rest, len.value[0]);
    var s :- CString(body.value);
    Some(Read(s, body.rest))
  }

  /** `fasl_read_datum`; `None` where it fails. */
  function ReadDatum(bs: seq<Byte>): (r: Option<Read<Datum>>)
    ensures r.Some? ==> |r.value.rest| < |bs|
    decreases |bs|, 0
  {
    if bs == [] then None else
    var rest := bs[1..];
    if bs[0] == OT_FIXNUM then
      var v :- Take(rest, 8);
      Some(Read(DFixnum(Wrap(Signed(FromBytes(v.value), 8))), v.rest))
    else if bs[0] == OT_CHARACTER then
      var v :- Take(rest, 2);
      Some(Read(DChar(FromBytes(v.value)), v.rest))
    else if bs[0] == OT_SYMBOL then
      var s :- ReadString(rest);
      Some(Read(DSymbol(s.value), s.rest))
    else if bs[0] == OT_STRING then
      var s :- ReadString(rest);
      Some(Read(DString(s.value), s.rest))
    else if bs[0] == OT_STATIC then
      var s :- ReadString(rest);
      if IsBuiltin(s.value) then Some(Read(DStatic(s.value), s.rest)) else None
    else if bs[0] == OT_NULL then Some(Read(DNull, rest))
    else if bs[0] == OT_BOOLEAN then
      var v :- Take(rest, 1);
      Some(Read(DBool(v.value[0] != 0), v.rest))
    else if bs[0] == OT_PAIR_BEGIN then ReadPair(rest, None)
    else if bs[0] == OT_STRUCT then
      var s :- ReadString(rest);
      var n :- Take(s.rest, 1);
      var fields :- ReadMany(n.rest, n.value[0]);
      if s.value == "vector" then Some(Read(DVector(fields.value), fields.rest)) else None
    else None
  }

  /** The loop of the pair case: each datum but the first is consed in front of `res`. */
  function ReadPair(bs: seq<Byte>, res: Option<Datum>): (r: Option<Read<Datum>>)
    ensures r.Some? ==> |r.value.rest| < |bs|
    decreases |bs|, 1
  {
    if bs == [] then None
    else if bs[0] == OT_PAIR_END then
      var d :- res;
      Some(Read(d, bs[1..]))
    else
      var x :- ReadDatum(bs);
      ReadPair(x.rest, Some(match res case None => x.value case Some(d) => DPair(x.value, d)))
  }

  function ReadMany(bs: seq<Byte>, n: nat): (r: Option<Read<seq<Datum>>>)
    ensures r.Some? ==> |r.value.rest| <= |bs| && |r.value.value| == n
    decreases |bs|, 2 + n
  {
    if n == 0 then Some(Read([], bs)) else
    var x :- ReadDatum(bs);
    var more :- ReadMany(x.rest, n - 1);
    Some(Read([x.value] + more.value, more.rest))
  }
}

/** What is read is what was written, up to what the loader cannot keep. */
module FaslRoundTrip {
  import opened Wrappers
  import opened Syntax
  import opened Values
  import opened Bytes
  import opened Fasl

  /** A C string ends at its first zero. */
  function UpToZero(s: string): string {
    if s == "" || s[0] as nat == 0 then "" else [s[0]] + UpToZero(s[1..])
  }

  /** The constant that the loader makes of a constant; `None` where it gives up. */
  function Loaded(d: Datum): Option<Datum> {
    match d
    case DFixnum(i) => Some(DFixnum(Wrap(i)))
    case DString(s) => Some(DString(UpToZero(s)))
    case DSymbol(s) => Some(DSymbol(UpToZero(s)))
    case DStatic(s) => if IsBuiltin(UpToZero(s)) then Some(DStatic(UpToZero(s))) else None
    case DPair(a, b) =>
      var b' :- Loaded(b);
      var a' :- Loaded(a);
      Some(DPair(a', b'))
    case DVector(es) =>
      var es' :- LoadedAll(es);
      Some(DVector(es'))
    case _ => Some(d)
  }

  function LoadedAll(ds: seq<Datum>): Option<seq<Datum>> {
    if ds == [] then Some([]) else
    var d :- Loaded(ds[0]);
    var rest :- LoadedAll(ds[1..]);
    Some([d] + rest)
  }

  // ----- strings

  lemma {:induction false} CStringOf(s: string, bs: seq<Byte>, more: seq<Byte>)
    requires CharBytes(s) == Some(bs)
    ensures CString(bs + [0] + more) == Some(UpToZero(s))
    decreases |s|
  {
    if s == "" {
      assert bs + [0] + more == [0] + more;
    } else {
      assert (bs + [0] + more)[1..] == bs[1..] + [0] + more;
      CStringOf(s[1..], bs[1..], more);
    }
  }

  lemma StringRead(s: string, bs: seq<Byte>, rest: seq<Byte>)
    requires StringBytes(s) == Some(bs)
    ensures ReadString(bs + rest) == Some(Read(UpToZero(s), rest))
  {
    var cs := CharBytes(s).value;
    var len := |cs| + 1;
    assert bs + rest == [len] + (cs + [0] + rest);
    assert (bs + rest)[..1] == [len] && (bs + rest)[1..] == cs + [0] + rest;
    assert (cs + [0] + rest)[..len] == cs + [0] && (cs + [0] + rest)[len..] == rest;
    CStringOf(s, cs, []);
    assert cs + [0] + [] == cs + [0];
  }

  lemma TakeOf(bs: seq<Byte>, rest: seq<Byte>)
    ensures Take(bs + rest, |bs|) == Some(Read(bs, rest))
  {
    assert (bs + rest)[..|bs|] == bs && (bs + rest)[|bs|..] == rest;
  }

  lemma VectorName()
    ensures UpToZero("vector") == "vector"
  {
    assert "vector"[1..] == "ector" && "ector"[1..] == "ctor" && "ctor"[1..] == "tor" && "tor"[1..] == "or";
    assert "or"[1..] == "r" && "r"[1..] == "";
    assert UpToZero("r") == "r" && UpToZero("or") == "or" && UpToZero("tor") == "tor";
    assert UpToZero("ctor") == "ctor" && UpToZero("ector") == "ector";
  }

  // ----- pairs

  /** The list that the loop of the pair case conses up. */
  function Rebuild(ds: seq<Datum>, res: Option<Datum>): Option<Datum> {
    if ds == [] then res
    else Rebuild(ds[1..], Some(match res case None => ds[0] case Some(d) => DPair(ds[0], d)))
  }

  /** Consing up the prepared elements makes the pair again, proper list or not. */
  lemma {:induction false} PreparedIsRebuilt(res: seq<Datum>, cur: Datum)
    requires cur.DPair?
    ensures Rebuild(PrepareFrom(res, cur), None) == Rebuild(res, Some(cur))
    decreases cur
  {
    if cur.cdr.DPair? {
      PreparedIsRebuilt([cur.car] + res, cur.cdr);
      assert ([cur.car] + res)[1..] == res;
    } else {
      var r := [cur.cdr, cur.car] + res;
      assert r[1..] == [cur.car] + res && r[1..][1..] == res;
    }
  }

  /** The prepared elements load if and only if the pair does, and make what the pair loads as. */
  lemma {:induction false} PreparedLoads(res: seq<Datum>, cur: Datum)
    requires cur.DPair?
    ensures LoadedAll(PrepareFrom(res, cur)).Some? == (Loaded(cur).Some? && LoadedAll(res).Some?)
    ensures LoadedAll(PrepareFrom(res, cur)).Some? ==>
              Rebuild(LoadedAll(PrepareFrom(res, cur)).value, None) == Rebuild(LoadedAll(res).value, Loaded(cur))
    decreases cur
  {
    var next := [cur.car] + res;
    assert next[1..] == res;
    if LoadedAll(next).Some? {
      assert LoadedAll(next).value[1..] == LoadedAll(res).value;
    }
    if cur.cdr.DPair? {
      PreparedLoads(next, cur.cdr);
    } else {
      var r := [cur.cdr] + next;
      assert [cur.cdr, cur.car] + res == r && r[1..] == next;
      if LoadedAll(r).Some? {
        assert LoadedAll(r).value[1..] == LoadedAll(next).value;
      }
    }
  }

  lemma FirstByte(d: Datum, bs: seq<Byte>)
    requires PutObject(d) == Some(bs)
    ensures bs != [] && bs[0] != OT_PAIR_END
  {
    hide ToBytes, StringBytes, PutAll, PairPrepare;
  }

  // ----- data

  function WithRest(d: Option<Datum>, rest: seq<Byte>): Option<Read<Datum>> {
    if d.Some? then Some(Read(d.value, rest)) else None
  }

  lemma NumberRead(i: int, bs: seq<Byte>, rest: seq<Byte>)
    requires Unsigned(i, 8).Some? && bs == [OT_FIXNUM] + ToBytes(Unsigned(i, 8).value, 8)
    ensures ReadDatum(bs + rest) == Some(Read(DFixnum(Wrap(i)), rest))
  {
    hide Wrap, ToBytes, FromBytes, Unsigned, Signed;
    var n := Unsigned(i, 8).value;
    var v := ToBytes(n, 8);
    SignedUnsigned(i, 8);
    FromToBytes(n, 8);
    assert (bs + rest)[1..] == v + rest;
    TakeOf(v, rest);
  }

  lemma CharRead(c: nat, bs: seq<Byte>, rest: seq<Byte>)
    requires c < 0x1_0000 && bs == [OT_CHARACTER] + ToBytes(c, 2)
    ensures ReadDatum(bs + rest) == Some(Read(DChar(c), rest))
  {
    hide ToBytes, FromBytes;
    Power8();
    FromToBytes(c, 2);
    assert (bs + rest)[1..] == ToBytes(c, 2) + rest;
    TakeOf(ToBytes(c, 2), rest);
  }

  lemma TextRead(d: Datum, s: string, tag: Byte, bs: seq<Byte>, rest: seq<Byte>)
    requires StringBytes(s).Some? && bs == [tag] + StringBytes(s).value
    requires (tag == OT_SYMBOL && d == DSymbol(s)) || (tag == OT_STRING && d == DString(s)) || (tag == OT_STATIC && d == DStatic(s))
    ensures ReadDatum(bs + rest) == WithRest(Loaded(d), rest)
  {
    hide StringBytes, ReadString, IsBuiltin;
    var v := StringBytes(s).value;
    assert (bs + rest)[1..] == v + rest;
    StringRead(s, v, rest);
  }

  /**
   Reading what was written for a constant, with any bytes behind it, gives the constant as the loader keeps it, and
   leaves exactly those bytes.
   */
  lemma {:induction false} DatumRead(d: Datum, bs: seq<Byte>, rest: seq<Byte>)
    requires PutObject(d) == Some(bs)
    ensures ReadDatum(bs + rest) == WithRest(Loaded(d), rest)
    decreases Size(d), 1
  {
    match d
    case DFixnum(i) => NumberRead(i, bs, rest);
    case DChar(c) => CharRead(c, bs, rest);
    case DSymbol(s) => TextRead(d, s, OT_SYMBOL, bs, rest);
    case DString(s) => TextRead(d, s, OT_STRING, bs, rest);
    case DStatic(s) => TextRead(d, s, OT_STATIC, bs, rest);
    case DPair(_, _) =>
      hide PrepareFrom, Loaded, Rebuild, ReadPair, LoadedAll;
      var ds := PairPrepare(d);
      var body := PutAll(ds).value;
      assert (bs + rest)[1..] == body + [OT_PAIR_END] + rest;
      PreparedNotEmpty([], d);
      PairRead(ds, body, rest, None);
      PreparedLoads([], d);
      LoadedNothing(Loaded(d));
    case DVector(es) => VectorRead(d, bs, rest);
    case DNull => assert (bs + rest)[1..] == rest;
    case DBool(b) =>
      assert (bs + rest)[1..] == [if b then 1 else 0] + rest;
      TakeOf([if b then 1 else 0], rest);
  }

  lemma LoadedNothing(r: Option<Datum>)
    ensures LoadedAll([]) == Some([]) && Rebuild([], r) == r
  {
  }

  lemma PreparedNotEmpty(res: seq<Datum>, cur: Datum)
    requires cur.DPair?
    ensures PrepareFrom(res, cur) != []
    decreases cur
  {
  }

  lemma {:induction false} VectorRead(d: Datum, bs: seq<Byte>, rest: seq<Byte>)
    requires d.DVector? && PutObject(d) == Some(bs)
    ensures ReadDatum(bs + rest) == WithRest(Loaded(d), rest)
    decreases Size(d), 0
  {
    hide StringBytes, ReadString, UpToZero, ReadMany;
    var es := d.elems;
    var name, body := StringBytes("vector").value, PutAll(es).value;
    assert (bs + rest)[1..] == name + ([|es|] + body + rest);
    StringRead("vector", name, [|es|] + body + rest);
    VectorName();
    assert [|es|] + body + rest == [|es|] + (body + rest);
    TakeOf([|es|], body + rest);
    ManyRead(es, body, rest);
  }

  lemma {:induction false} ManyRead(ds: seq<Datum>, bs: seq<Byte>, rest: seq<Byte>)
    requires PutAll(ds) == Some(bs)
    ensures ReadMany(bs + rest, |ds|) == if LoadedAll(ds).Some? then Some(Read(LoadedAll(ds).value, rest)) else None
    decreases SizeAll(ds), 1 + |ds|
  {
    hide PutObject, ReadDatum, Loaded;
    if ds != [] {
      var b, more := PutObject(ds[0]).value, PutAll(ds[1..]).value;
      assert bs + rest == b + (more + rest);
      DatumRead(ds[0], b, more + rest);
      ManyRead(ds[1..], more, rest);
    } else {
      assert bs + rest == rest;
    }
  }

  lemma {:induction false} PairRead(ds: seq<Datum>, bs: seq<Byte>, rest: seq<Byte>, res: Option<Datum>)
    requires PutAll(ds) == Some(bs) && (ds != [] || res.Some?)
    ensures ReadPair(bs + [OT_PAIR_END] + rest, res)
            == if LoadedAll(ds).Some? then WithRest(Rebuild(LoadedAll(ds).value, res), rest) else None
    decreases SizeAll(ds), 1 + |ds|
  {
    hide PutObject, ReadDatum, Loaded;
    if ds != [] {
      var b, more := PutObject(ds[0]).value, PutAll(ds[1..]).value;
      var tail := more + [OT_PAIR_END] + rest;
      assert bs + [OT_PAIR_END] + rest == b + tail;
      FirstByte(ds[0], b);
      DatumRead(ds[0], b, tail);
      if Loaded(ds[0]).Some? {
        var x := Loaded(ds[0]).value;
        PairRead(ds[1..], more, rest, Some(match res case None => x case Some(d) => DPair(x, d)));
        if LoadedAll(ds).Some? {
          assert LoadedAll(ds).value[1..] == LoadedAll(ds[1..]).value;
        }
      }
    } else {
      assert bs + [OT_PAIR_END] + rest == [OT_PAIR_END] + rest;
      assert ([OT_PAIR_END] + rest)[1..] == rest;
    }
  }

  // ----- exactly which constants survive

  /** Texts without zero bytes, known native functions, fixnums of 61 bits. */
  predicate Survives(d: Datum) {
    match d
    case DFixnum(i) => -0x1000_0000_0000_0000 <= i < 0x1000_0000_0000_0000
    case DString(s) => forall k | 0 <= k < |s| :: s[k] as nat != 0
    case DSymbol(s) => forall k | 0 <= k < |s| :: s[k] as nat != 0
    case DStatic(s) => (forall k | 0 <= k < |s| :: s[k] as nat != 0) && IsBuiltin(s)
    case DPair(a, b) => Survives(a) && Survives(b)
    case DVector(es) => SurviveAll(es)
    case _ => true
  }

  predicate SurviveAll(ds: seq<Datum>) {
    ds == [] || (Survives(ds[0]) && SurviveAll(ds[1..]))
  }

  lemma {:induction false} WholeText(s: string)
    ensures (UpToZero(s) == s) == (forall k | 0 <= k < |s| :: s[k] as nat != 0)
    decreases |s|
  {
    if s != "" {
      WholeText(s[1..]);
      assert s == [s[0]] + s[1..];
      if s[0] as nat != 0 {
        assert UpToZero(s)[1..] == UpToZero(s[1..]);
        assert (forall k | 0 <= k < |s[1..]| :: s[1..][k] as nat != 0) == (forall k | 0 <= k < |s| :: s[k] as nat != 0) by {
          assert forall k | 0 <= k < |s[1..]| :: s[1..][k] == s[k + 1];
          assert forall k | 1 <= k < |s| :: s[k] == s[1..][k - 1];
        }
      }
    }
  }

  lemma WrapIsIdentity(i: int)
    ensures (Wrap(i) == i) == (-0x1000_0000_0000_0000 <= i < 0x1000_0000_0000_0000)
  {
  }

  lemma {:induction false} LoadedIffSurvives(d: Datum)
    ensures (Loaded(d) == Some(d)) == Survives(d)
    decreases d, 1
  {
    hide Wrap, UpToZero, IsBuiltin;
    match d
    case DFixnum(i) => WrapIsIdentity(i);
    case DString(s) => WholeText(s);
    case DSymbol(s) => WholeText(s);
    case DStatic(s) => WholeText(s);
    case DPair(a, b) =>
      LoadedIffSurvives(a);
      LoadedIffSurvives(b);
    case DVector(es) => LoadedAllIffSurvive(es);
    case DNull =>
    case DBool(_) =>
    case DChar(_) =>
  }

  lemma {:induction false} LoadedAllIffSurvive(ds: seq<Datum>)
    ensures (LoadedAll(ds) == Some(ds)) == SurviveAll(ds)
    decreases ds, 0
  {
    hide Loaded, Survives;
    if ds != [] {
      LoadedIffSurvives(ds[0]);
      LoadedAllIffSurvive(ds[1..]);
      assert ds == [ds[0]] + ds[1..];
      if LoadedAll(ds).Some? {
        assert LoadedAll(ds).value[0] == Loaded(ds[0]).value && LoadedAll(ds).value[1..] == LoadedAll(ds[1..]).value;
      }
    }
  }
}

/** When a constant can be written, and the bytes it takes. */
module FaslWidths {
  import opened Wrappers
  import opened Syntax
  import opened Values
  import opened Bytes
  import opened Fasl
  import opened FaslRoundTrip
  import OperatorLaws

  predicate ByteChars(s: string) { forall k {:trigger s[k]} | 0 <= k < |s| :: s[k] as nat < 256 }

  /** With its terminator a text has at most 255 bytes. */
  predicate WritableText(s: string) { |s| <= 254 && ByteChars(s) }

  /** What the fields of the format hold: short texts and vectors, 16-bit characters, 64-bit numbers. */
  predicate Writable(d: Datum) {
    match d
    case DNull => true
    case DBool(_) => true
    case DChar(c) => c <= 0xFFFF
    case DFixnum(i) => -0x8000_0000_0000_0000 <= i <= 0x7FFF_FFFF_FFFF_FFFF
    case DString(s) => WritableText(s)
    case DSymbol(s) => WritableText(s)
    case DStatic(s) => WritableText(s)
    case DPair(a, b) => Writable(a) && Writable(b)
    case DVector(es) => |es| <= 255 && WritableAll(es)
  }

  predicate WritableAll(ds: seq<Datum>) {
    ds == [] || (Writable(ds[0]) && WritableAll(ds[1..]))
  }

  /** The bytes of a constant; a list takes one type byte at each end, whatever its length. */
  function Width(d: Datum): nat {
    match d
    case DNull => 1
    case DBool(_) => 2
    case DChar(_) => 3
    case DFixnum(_) => 9
    case DString(s) => |s| + 3
    case DSymbol(s) => |s| + 3
    case DStatic(s) => |s| + 3
    case DPair(a, b) => 2 + Width(a) + (if b.DPair? then Width(b) - 2 else Width(b))
    case DVector(es) => 10 + WidthAll(es)
  }

  function WidthAll(ds: seq<Datum>): nat {
    if ds == [] then 0 else Width(ds[0]) + WidthAll(ds[1..])
  }

  lemma {:induction false} CharBytesIff(s: string)
    ensures CharBytes(s).Some? <==> ByteChars(s)
    ensures CharBytes(s).Some? ==> forall k {:trigger CharBytes(s).value[k]} | 0 <= k < |s| :: CharBytes(s).value[k] == s[k] as nat
    decreases |s|
  {
    if s != "" {
      var t := s[1..];
      CharBytesIff(t);
      assert forall k {:trigger s[k]} | 1 <= k < |s| :: s[k] == t[k - 1];
      assert forall k {:trigger t[k]} | 0 <= k < |t| :: t[k] == s[k + 1];
      if CharBytes(s).Some? {
        assert CharBytes(s).value == [s[0] as nat] + CharBytes(t).value;
      }
    }
  }

  lemma TextWrittenIff(s: string)
    ensures StringBytes(s).Some? <==> WritableText(s)
    ensures StringBytes(s).Some? ==> |StringBytes(s).value| == |s| + 2
  {
    CharBytesIff(s);
  }

  lemma VectorNameWritten()
    ensures StringBytes("vector").Some? && |StringBytes("vector").value| == 8
  {
    TextWrittenIff("vector");
  }

  /** The prepared elements of a pair can be written if and only if its parts can, in the bytes between its ends. */
  lemma {:induction false} PreparedWritable(res: seq<Datum>, cur: Datum)
    requires cur.DPair?
    ensures WritableAll(PrepareFrom(res, cur)) == (Writable(cur) && WritableAll(res))
    ensures WidthAll(PrepareFrom(res, cur)) == Width(cur) - 2 + WidthAll(res)
    decreases cur
  {
    var next := [cur.car] + res;
    assert next[1..] == res;
    if cur.cdr.DPair? {
      PreparedWritable(next, cur.cdr);
    } else {
      var r := [cur.cdr] + next;
      assert [cur.cdr, cur.car] + res == r && r[1..] == next;
    }
  }

  /** A constant is written if and only if its fields hold it. */
  lemma {:induction false} WrittenIffWritable(d: Datum)
    ensures PutObject(d).Some? <==> Writable(d)
    ensures PutObject(d).Some? ==> |PutObject(d).value| == Width(d)
    decreases Size(d), 1
  {
    hide StringBytes, WritableText, PrepareFrom, ToBytes;
    match d
    case DNull =>
    case DBool(_) =>
    case DChar(_) =>
    case DFixnum(i) => Power8();
    case DString(s) => TextWrittenIff(s);
    case DSymbol(s) => TextWrittenIff(s);
    case DStatic(s) => TextWrittenIff(s);
    case DPair(_, _) =>
      AllWrittenIffWritable(PairPrepare(d));
      PreparedWritable([], d);
    case DVector(es) =>
      VectorNameWritten();
      AllWrittenIffWritable(es);
  }

  lemma {:induction false} AllWrittenIffWritable(ds: seq<Datum>)
    ensures PutAll(ds).Some? <==> WritableAll(ds)
    ensures PutAll(ds).Some? ==> |PutAll(ds).value| == WidthAll(ds)
    decreases SizeAll(ds), 1 + |ds|
  {
    hide PutObject, Writable, Width;
    if ds != [] {
      WrittenIffWritable(ds[0]);
      AllWrittenIffWritable(ds[1..]);
    }
  }

  // ----- the bytes

  /** Byte `k` of a number in memory. */
  function ByteOf(n: nat, k: nat): nat { n / Power(k) % 256 }

  lemma {:induction false} ToBytesAt(n: nat, size: nat, k: nat)
    requires k < size
    ensures ToBytes(n, size)[k] == ByteOf(n, k)
    decreases k
  {
    if k > 0 {
      ToBytesAt(n / 256, size - 1, k - 1);
      DivideTwice(n, Power(k - 1));
    }
  }

  lemma DivideTwice(n: nat, p: nat)
    requires p > 0
    ensures n / 256 / p == n / (256 * p)
  {
    var q, r := n / 256 / p, n / 256 % p;
    assert n / 256 == q * p + r;
    assert n == 256 * (q * p + r) + n % 256;
    var low := 256 * r + n % 256;
    assert 0 <= low < 256 * p;
    assert n == q * (256 * p) + low;
    OperatorLaws.FloorIs(n, 256 * p, q, low);
  }

  /** The file format, constant by constant: the type of `enum obj_type`, and what follows it. */
  lemma Layout(d: Datum)
    requires Writable(d)
    ensures PutObject(d).Some?
    ensures var bs := PutObject(d).value;
            match d
            case DNull => bs == [9]
            case DBool(b) => bs == [8, if b then 1 else 0]
            case DChar(c) => bs == [1, c % 256, c / 256]
            case DFixnum(i) => |bs| == 9 && bs[0] == 0 && forall k {:trigger bs[k]} | 1 <= k < 9 :: bs[k] == ByteOf(i % 0x1_0000_0000_0000_0000, k - 1)
            case DString(s) => TextLayout(bs, 2, s)
            case DSymbol(s) => TextLayout(bs, 3, s)
            case DStatic(s) => TextLayout(bs, 4, s)
            case DPair(_, _) => |bs| == Width(d) && bs[0] == 5 && bs[|bs| - 1] == 6
            case DVector(es) => |bs| == Width(d) && TextLayout(bs[..9], 7, "vector") && bs[9] == |es|
  {
    hide PrepareFrom, PutAll, StringBytes, TextLayout, ToBytes, Unsigned, ByteOf;
    WrittenIffWritable(d);
    match d
    case DNull =>
    case DBool(_) =>
    case DChar(c) => CharLayout(c);
    case DFixnum(i) => FixnumLayout(i);
    case DString(s) => TextLaid(2, s);
    case DSymbol(s) => TextLaid(3, s);
    case DStatic(s) => TextLaid(4, s);
    case DPair(_, _) =>
    case DVector(es) =>
      VectorNameWritten();
      TextLaid(7, "vector");
      var name := StringBytes("vector").value;
      assert PutObject(d).value == ([OT_STRUCT] + name) + ([|es|] + PutAll(es).value);
      assert PutObject(d).value[..9] == [OT_STRUCT] + name;
  }

  /** Type, length with the terminator, bytes, terminator. */
  ghost predicate TextLayout(bs: seq<Byte>, tag: Byte, s: string) {
    && |bs| == |s| + 3 && bs[0] == tag && bs[1] == |s| + 1 && bs[|s| + 2] == 0
    && forall k {:trigger bs[k]} | 2 <= k < |s| + 2 :: bs[k] == s[k - 2] as nat
  }

  lemma TextLaid(tag: Byte, s: string)
    requires StringBytes(s).Some?
    ensures TextLayout([tag] + StringBytes(s).value, tag, s)
  {
    CharBytesIff(s);
  }

  lemma CharLayout(c: nat)
    requires c <= 0xFFFF
    ensures ToBytes(c, 2) == [c % 256, c / 256]
  {
    assert ToBytes(c, 2) == [c % 256] + ToBytes(c / 256, 1);
    assert ToBytes(c / 256, 1) == [c / 256 % 256] + ToBytes(c / 256 / 256, 0);
  }

  lemma FixnumLayout(i: int)
    requires Unsigned(i, 8).Some?
    ensures var n := Unsigned(i, 8).value;
            n == i % 0x1_0000_0000_0000_0000 && forall k {:trigger ToBytes(n, 8)[k]} | 0 <= k < 8 :: ToBytes(n, 8)[k] == ByteOf(n, k)
  {
    hide ToBytes, ByteOf;
    Power8();
    var n := Unsigned(i, 8).value;
    forall k {:trigger ToBytes(n, 8)[k]} | 0 <= k < 8 ensures ToBytes(n, 8)[k] == ByteOf(n, k) {
      ToBytesAt(n, 8, k);
    }
  }

  // ----- the round trip

  /** A constant that the fields hold is written, and comes back unchanged if and only if it survives loading. */
  lemma DatumRoundTrip(d: Datum, rest: seq<Byte>)
    requires Writable(d)
    ensures PutObject(d).Some?
    ensures (ReadDatum(PutObject(d).value + rest) == Some(Read(d, rest))) == Survives(d)
  {
    hide PutObject, ReadDatum, Loaded, Survives, Writable, Width;
    WrittenIffWritable(d);
    DatumRead(d, PutObject(d).value, rest);
    LoadedIffSurvives(d);
  }
}
