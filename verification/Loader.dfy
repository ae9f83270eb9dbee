/** The loader of vm/module.c as it runs: a cursor moves over the file. */
module Loader {
  import opened Wrappers
  import opened Syntax
  import opened Values
  import opened Machine
  import opened Bytes
  import opened Fasl
  import opened ModuleFile

  /** `code_t`: the bytes from `pos` up to `end` are still to be read. */
  class Cursor {
    const data: seq<Byte>
    const end: nat
    var pos: nat

    constructor (data: seq<Byte>, from: nat, size: nat)
      requires from + size <= |data|
      ensures Valid() && Rest() == data[from..from + size] && this.data == data
    {
      this.data, pos, end := data, from, from + size;
    }

    ghost predicate Valid()
      reads this
    {
      pos <= end <= |data|
    }

    ghost function Rest(): seq<Byte>
      requires Valid()
      reads this
    {
      data[pos..end]
    }

    /** The outcome of a read, and the bytes it left. */
    ghost predicate Got<T(!new)>(spec: Option<Read<T>>, r: Option<T>)
      requires Valid()
      reads this
    {
      match spec
      case None => r == None
      case Some(x) => r == Some(x.value) && Rest() == x.rest
    }

    /** `code_read_bytes`. */
    method Bytes(n: nat) returns (r: Option<seq<Byte>>)
      requires Valid()
      modifies this`pos
      ensures Valid() && pos >= old(pos)
      ensures Got(Take(old(Rest()), n), r)
      ensures r.Some? && n > 0 ==> pos > old(pos)
    {
      r := None;
      if n <= end - pos {
        r := Some(data[pos..pos + n]);
        assert data[pos..end][..n] == data[pos..pos + n] && data[pos..end][n..] == data[pos + n..end];
        pos := pos + n;
      }
    }

    /** `code_read16`. */
    method Word() returns (r: Option<nat>)
      requires Valid()
      modifies this`pos
      ensures Valid() && pos >= old(pos) && Got(ReadU16(old(Rest())), r)
    {
      var bs := Bytes(2);
      r := if bs.Some? then Some(FromBytes(bs.value)) else None;
    }

    /** A word kept in a `short`. */
    method Short() returns (r: Option<nat>)
      requires Valid()
      modifies this`pos
      ensures Valid() && pos >= old(pos) && Got(ReadShort(old(Rest())), r)
    {
      r := Word();
      if r.Some? && r.value >= 0x8000 {
        r := None;
      }
    }

    /** `code_read_string`. */
    method Text() returns (r: Option<string>)
      requires Valid()
      modifies this`pos
      ensures Valid() && pos >= old(pos) && Got(ReadString(old(Rest())), r)
      ensures r.Some? ==> pos > old(pos)
    {
      r := None;
      var len := Bytes(1);
      if len.Some? {
        var body := Bytes(len.value[0]);
        if body.Some? {
          r := CText(body.value);
        }
      }
    }

    /** The characters before the first zero. */
    static method CText(bs: seq<Byte>) returns (r: Option<string>)
      ensures r == CString(bs)
    {
      var s := "";
      var i := 0;
      ghost var all := CString(bs);
      assert bs[0..] == bs && (all.Some? ==> s + all.value == all.value);
      while i < |bs| && bs[i] != 0
        invariant 0 <= i <= |bs|
        invariant CString(bs) == match CString(bs[i..]) case None => None case Some(t) => Some(s + t)
      {
        assert bs[i..][1..] == bs[i + 1..];
        ghost var t := CString(bs[i + 1..]);
        assert t.Some? ==> s + [bs[i] as char] + t.value == s + ([bs[i] as char] + t.value);
        s := s + [bs[i] as char];
        i := i + 1;
      }
      if i == |bs| {
        assert bs[i..] == [];
        r := None;
      } else {
        assert CString(bs[i..]) == Some("") && s + "" == s;
        r := Some(s);
      }
    }

    /** `fasl_read_datum`. */
    method Datum() returns (r: Option<Datum>)
      requires Valid()
      modifies this`pos
      ensures Valid() && pos >= old(pos) && Got(ReadDatum(old(Rest())), r)
      ensures r.Some? ==> pos > old(pos)
      decreases end - pos, 0
    {
      hide ReadPair, ReadMany, ReadString, Take, FromBytes, Signed, Wrap, IsBuiltin;
      r := None;
      if pos == end {
        return;
      }
      var tag := data[pos];
      assert Rest()[0] == tag && Rest()[1..] == data[pos + 1..end];
      pos := pos + 1;
      if tag == OT_FIXNUM {
        var v := Bytes(8);
        r := if v.Some? then Some(DFixnum(Wrap(Signed(FromBytes(v.value), 8)))) else None;
      } else if tag == OT_CHARACTER {
        var v := Bytes(2);
        r := if v.Some? then Some(DChar(FromBytes(v.value))) else None;
      } else if tag == OT_SYMBOL {
        var s := Text();
        r := if s.Some? then Some(DSymbol(s.value)) else None;
      } else if tag == OT_STRING {
        var s := Text();
        r := if s.Some? then Some(DString(s.value)) else None;
      } else if tag == OT_STATIC {
        var s := Text();
        r := if s.Some? && IsBuiltin(s.value) then Some(DStatic(s.value)) else None;
      } else if tag == OT_NULL {
        r := Some(DNull);
      } else if tag == OT_BOOLEAN {
        r := Boolean();
      } else if tag == OT_PAIR_BEGIN {
        r := PairDatum();
      } else if tag == OT_STRUCT {
        r := Record();
      }
    }

    method Boolean() returns (r: Option<Datum>)
      requires Valid()
      modifies this`pos
      ensures Valid() && pos >= old(pos)
      ensures Got(match Take(old(Rest()), 1) case None => None
                                             case Some(v) => Some(Read(DBool(v.value[0] != 0), v.rest)), r)
    {
      var v := Bytes(1);
      r := if v.Some? then Some(DBool(v.value[0] != 0)) else None;
    }

    /** The loop that conses the elements up until the end mark. */
    method PairDatum() returns (r: Option<Datum>)
      requires Valid()
      modifies this`pos
      ensures Valid() && pos >= old(pos) && Got(ReadPair(old(Rest()), None), r)
      decreases end - pos, 1
    {
      hide ReadDatum;
      var res: Option<Datum> := None;
      ghost var start := Rest();
      while pos < end && data[pos] != OT_PAIR_END
        invariant Valid() && pos >= old(pos)
        invariant ReadPair(Rest(), res) == ReadPair(start, None)
        decreases end - pos
      {
        assert Rest()[0] == data[pos];
        var x := Datum();
        if x.None? {
          return None;
        }
        res := Some(if res.None? then x.value else DPair(x.value, res.value));
      }
      if pos == end {
        return None;
      }
      assert Rest()[0] == data[pos] && Rest()[1..] == data[pos + 1..end];
      pos := pos + 1;
      r := res;
    }

    /** `n` data in a row. */
    method Data(n: nat) returns (r: Option<seq<Datum>>)
      requires Valid()
      modifies this`pos
      ensures Valid() && pos >= old(pos) && Got(ReadMany(old(Rest()), n), r)
      decreases end - pos, 2
    {
      hide ReadDatum;
      var ds: seq<Datum> := [];
      var i := 0;
      ghost var start := Rest();
      PrefixedNothing(ReadMany(start, n));
      while i < n
        invariant 0 <= i <= n && Valid() && pos >= old(pos)
        invariant ReadMany(start, n) == Prefixed(ds, ReadMany(Rest(), n - i))
      {
        var x := Datum();
        if x.None? {
          return None;
        }
        PrefixedCons(ds, x.value, ReadMany(Rest(), n - i - 1));
        ds := ds + [x.value];
        i := i + 1;
      }
      assert ds + [] == ds;
      r := Some(ds);
    }

    /** A record: its type's name, and its fields. */
    method Record() returns (r: Option<Datum>)
      requires Valid()
      modifies this`pos
      ensures Valid() && pos >= old(pos)
      ensures Got(match ReadString(old(Rest()))
                  case None => None
                  case Some(s) =>
                    match Take(s.rest, 1)
                    case None => None
                    case Some(n) =>
                      match ReadMany(n.rest, n.value[0])
                      case None => None
                      case Some(fields) =>
                        if s.value == "vector" then Some(Read(DVector(fields.value), fields.rest)) else None, r)
      decreases end - pos, 3
    {
      hide ReadMany, ReadString;
      r := None;
      var name := Text();
      if name.Some? {
        var size := Bytes(1);
        if size.Some? {
          var fields := Data(size.value[0]);
          if fields.Some? && name.value == "vector" {
            r := Some(DVector(fields.value));
          }
        }
      }
    }

    static function Prefixed<T>(xs: seq<T>, r: Option<Read<seq<T>>>): Option<Read<seq<T>>> {
      match r
      case None => None
      case Some(x) => Some(Read(xs + x.value, x.rest))
    }

    static lemma PrefixedNothing<T>(r: Option<Read<seq<T>>>)
      ensures Prefixed([], r) == r
    {
      if r.Some? {
        assert [] + r.value.value == r.value.value;
      }
    }

    static lemma PrefixedCons<T>(xs: seq<T>, x: T, r: Option<Read<seq<T>>>)
      ensures Prefixed(xs + [x], r) == Prefixed(xs, match r case None => None case Some(more) => Some(Read([x] + more.value, more.rest)))
    {
      if r.Some? {
        assert xs + [x] + r.value.value == xs + ([x] + r.value.value);
      }
    }

    // ----- procedures

    method Bindings(n: nat) returns (r: Option<seq<(nat, nat)>>)
      requires Valid()
      modifies this`pos
      ensures Valid() && Got(ReadBindings(old(Rest()), n), r)
    {
      hide ReadShort;
      var xs: seq<(nat, nat)> := [];
      var i := 0;
      ghost var start := Rest();
      PrefixedNothing(ReadBindings(start, n));
      while i < n
        invariant 0 <= i <= n && Valid()
        invariant ReadBindings(start, n) == Prefixed(xs, ReadBindings(Rest(), n - i))
      {
        var up := Short();
        if up.None? {
          return None;
        }
        var slot := Short();
        if slot.None? {
          return None;
        }
        PrefixedCons(xs, (up.value, slot.value), ReadBindings(Rest(), n - i - 1));
        xs := xs + [(up.value, slot.value)];
        i := i + 1;
      }
      assert xs + [] == xs;
      r := Some(xs);
    }

    method Bindmap(n: nat) returns (r: Option<seq<nat>>)
      requires Valid()
      modifies this`pos
      ensures Valid() && Got(ReadBindmap(old(Rest()), n), r)
    {
      hide ReadU16;
      var xs: seq<nat> := [];
      var i := 0;
      ghost var start := Rest();
      PrefixedNothing(ReadBindmap(start, n));
      while i < n
        invariant 0 <= i <= n && Valid()
        invariant ReadBindmap(start, n) == Prefixed(xs, ReadBindmap(Rest(), n - i))
      {
        var up := Word();
        if up.None? {
          return None;
        }
        PrefixedCons(xs, up.value, ReadBindmap(Rest(), n - i - 1));
        xs := xs + [up.value];
        i := i + 1;
      }
      assert xs + [] == xs;
      r := Some(xs);
    }

    method Ops(n: nat) returns (r: Option<seq<Instr>>)
      requires Valid()
      modifies this`pos
      ensures Valid() && Got(ReadOps(old(Rest()), n), r)
    {
      hide ReadU16, Decode, Signed;
      var xs: seq<Instr> := [];
      var i := 0;
      ghost var start := Rest();
      PrefixedNothing(ReadOps(start, n));
      while i < n
        invariant 0 <= i <= n && Valid()
        invariant ReadOps(start, n) == Prefixed(xs, ReadOps(Rest(), n - i))
      {
        var code := Word();
        if code.None? {
          return None;
        }
        var arg := Word();
        if arg.None? {
          return None;
        }
        var op := Decode(Signed(code.value, 2), Signed(arg.value, 2));
        if op.None? {
          return None;
        }
        PrefixedCons(xs, op.value, ReadOps(Rest(), n - i - 1));
        xs := xs + [op.value];
        i := i + 1;
      }
      assert xs + [] == xs;
      r := Some(xs);
    }

    method FunHeader() returns (r: Option<Header>)
      requires Valid()
      modifies this`pos
      ensures Valid() && Got(ReadHeader(old(Rest())), r)
    {
      hide ReadU16, ReadShort;
      r := None;
      var envSize := Short();
      if envSize.None? { return; }
      var argc := Word();
      if argc.None? { return; }
      var swallow := Word();
      if swallow.None? { return; }
      var opCount := Word();
      if opCount.None? { return; }
      var heap := Word();
      if heap.None? { return; }
      var depth := Word();
      if depth.None? { return; }
      var bcount := Word();
      if bcount.None? { return; }
      var bmcount := Word();
      if bmcount.None? { return; }
      r := Some(Header(envSize.value, argc.value, swallow.value, opCount.value, heap.value, depth.value, bcount.value, bmcount.value));
    }

    /** One turn of the loop of `module_parse`. */
    method Function() returns (r: Option<Procedure>)
      requires Valid()
      modifies this`pos
      ensures Valid() && Got(ReadProcedure(old(Rest())), r)
    {
      hide ReadHeader, ReadBindings, ReadBindmap, ReadOps;
      r := None;
      var h := FunHeader();
      if h.None? {
        return;
      }
      var bindings: Option<seq<(nat, nat)>> := Some([]);
      var bindmap: Option<seq<nat>> := Some([]);
      ghost var start := Rest();
      NothingRead(start);
      if h.value.bcount != 0 {
        bindings := Bindings(h.value.bcount);
        if bindings.None? {
          return;
        }
        bindmap := Bindmap(h.value.bmcount);
        if bindmap.None? {
          return;
        }
      }
      var ops := Ops(h.value.opCount);
      if ops.Some? {
        r := Some(Procedure(h.value.argc, h.value.swallow % 2 == 1, h.value.envSize, h.value.heap != 0, h.value.depth,
                            bindings.value, bindmap.value, ops.value));
      }
    }

    static lemma NothingRead(bs: seq<Byte>)
      ensures ReadBindings(bs, 0) == Some(Read([], bs)) && ReadBindmap(bs, 0) == Some(Read([], bs))
    {
    }

    method Functions(n: nat) returns (r: Option<seq<Procedure>>)
      requires Valid()
      modifies this`pos
      ensures Valid() && Got(ReadProcedures(old(Rest()), n), r)
    {
      hide ReadProcedure;
      var xs: seq<Procedure> := [];
      var i := 0;
      ghost var start := Rest();
      PrefixedNothing(ReadProcedures(start, n));
      while i < n
        invariant 0 <= i <= n && Valid()
        invariant ReadProcedures(start, n) == Prefixed(xs, ReadProcedures(Rest(), n - i))
      {
        var f := Function();
        if f.None? {
          return None;
        }
        PrefixedCons(xs, f.value, ReadProcedures(Rest(), n - i - 1));
        xs := xs + [f.value];
        i := i + 1;
      }
      assert xs + [] == xs;
      r := Some(xs);
    }
  }

  /** `load_consts`, on a cursor of its own. */
  method LoadConsts(bs: seq<Byte>) returns (r: Option<seq<Datum>>)
    ensures r == ReadConsts(bs)
  {
    hide ReadMany;
    var c := new Cursor(bs, 0, |bs|);
    assert bs[0..0 + |bs|] == bs;
    r := None;
    var n := c.Bytes(1);
    if n.Some? {
      r := c.Data(n.value[0]);
    }
  }

  /** `module_parse`. */
  method Load(bs: seq<Byte>) returns (r: Option<Image>)
    ensures r == Parse(bs)
  {
    hide ReadU16, ReadConsts, ReadProcedures, FromBytes;
    var c := new Cursor(bs, 0, |bs|);
    assert bs[0..0 + |bs|] == bs;
    r := None;
    var size := c.Bytes(4);
    if size.None? { return; }
    var count := c.Word();
    if count.None? { return; }
    var entry := c.Word();
    if entry.None? { return; }
    var block := c.Bytes(FromBytes(size.value));
    if block.None? { return; }
    var consts := LoadConsts(block.value);
    if consts.None? { return; }
    var funcs := c.Functions(count.value);
    r := if funcs.Some? then Some(Image(consts.value, funcs.value, entry.value)) else None;
  }
}
