/** The writer of scheme/compiler/fasl.scm as it runs: byte vectors are filled in place, ports grow. */
module Assembler {
  import opened Wrappers
  import opened Syntax
  import opened Values
  import opened Machine
  import opened Bytes
  import opened Fasl
  import opened ModuleFile

  /** `bytevector-u16-native-set!`. */
  method SetU16(mem: array<Byte>, offset: nat, n: nat)
    requires offset + 2 <= mem.Length && n < 0x1_0000
    modifies mem
    ensures mem[..offset] == old(mem[..offset]) && mem[offset..offset + 2] == ToBytes(n, 2)
  {
    mem[offset] := n % 256;
    mem[offset + 1] := n / 256 % 256;
    assert ToBytes(n, 2)[1..] == ToBytes(n / 256, 1) && ToBytes(n / 256, 1)[1..] == [];
  }

  /** `string->cbv`. */
  method StringToCbv(s: string) returns (bv: array<Byte>, ok: bool)
    ensures fresh(bv) && ok == StringBytes(s).Some?
    ensures ok ==> bv[..] == StringBytes(s).value
  {
    var utf8 := CharBytes(s);
    if utf8.None? || |utf8.value| + 1 >= 256 {
      bv, ok := new Byte[0], false;
      return;
    }
    var len := |utf8.value| + 1;
    bv := new Byte[1 + len](_ => 0);
    bv[0] := len;
    bv[len] := 0;
    var i := 0;
    while i < len - 1
      invariant 0 <= i <= len - 1 && bv[0] == len && bv[len] == 0
      invariant bv[1..1 + i] == utf8.value[..i]
    {
      bv[1 + i] := utf8.value[i];
      i := i + 1;
    }
    ok := true;
    assert bv[..] == [bv[0]] + bv[1..len] + [bv[len]];
  }

  /** `pair-prepare`. */
  method Prepare(pair: Datum) returns (res: seq<Datum>)
    requires pair.DPair?
    ensures res == PairPrepare(pair)
  {
    res := [];
    var cur := pair;
    while cur.cdr.DPair?
      invariant cur.DPair? && PrepareFrom(res, cur) == PairPrepare(pair)
      decreases cur
    {
      res, cur := [cur.car] + res, cur.cdr;
    }
    res := [cur.cdr, cur.car] + res;
  }

  /** A binary output port. */
  class Port {
    var bytes: seq<Byte>

    constructor ()
      ensures bytes == []
    {
      bytes := [];
    }

    method Put(bs: seq<Byte>)
      modifies this
      ensures bytes == old(bytes) + bs
    {
      bytes := bytes + bs;
    }

    /** `set-port-position!` to the beginning, and `put-bytevector`. */
    method PutAtStart(bs: seq<Byte>)
      requires |bs| <= |bytes|
      modifies this
      ensures bytes == bs + old(bytes)[|bs|..]
    {
      bytes := bs + bytes[|bs|..];
    }

    method PutText(tag: Byte, s: string) returns (ok: bool)
      modifies this
      ensures ok == StringBytes(s).Some?
      ensures ok ==> bytes == old(bytes) + ([tag] + StringBytes(s).value)
    {
      Put([tag]);
      var bv;
      bv, ok := StringToCbv(s);
      if ok {
        assert old(bytes) + [tag] + bv[..] == old(bytes) + ([tag] + bv[..]);
        Put(bv[..]);
      }
    }

    /** `put-object`. */
    method PutDatum(d: Datum) returns (ok: bool)
      modifies this
      ensures ok == PutObject(d).Some?
      ensures ok ==> bytes == old(bytes) + PutObject(d).value
      decreases Size(d), 1
    {
      hide StringBytes, ToBytes, Unsigned, PairPrepare, PutAll;
      ok := true;
      match d
      case DNull => Put([OT_NULL]);
      case DBool(b) =>
        Put([OT_BOOLEAN, if b then 1 else 0]);
      case DChar(c) =>
        ok := c < 0x1_0000;
        if ok {
          Put([OT_CHARACTER] + ToBytes(c, 2));
        }
      case DFixnum(i) =>
        var n := Unsigned(i, 8);
        ok := n.Some?;
        if ok {
          Put([OT_FIXNUM] + ToBytes(n.value, 8));
        }
      case DSymbol(s) => ok := PutText(OT_SYMBOL, s);
      case DString(s) => ok := PutText(OT_STRING, s);
      case DStatic(s) => ok := PutText(OT_STATIC, s);
      case DPair(_, _) =>
        Put([OT_PAIR_BEGIN]);
        var ds := Prepare(d);
        ok := PutEach(ds);
        if ok {
          Put([OT_PAIR_END]);
          assert bytes == old(bytes) + ([OT_PAIR_BEGIN] + PutAll(ds).value + [OT_PAIR_END]);
        }
      case DVector(es) =>
        ok := PutVector(d);
    }

    method PutVector(d: Datum) returns (ok: bool)
      requires d.DVector?
      modifies this
      ensures ok == PutObject(d).Some?
      ensures ok ==> bytes == old(bytes) + PutObject(d).value
      decreases Size(d), 0
    {
      hide StringBytes, PutAll;
      var es := d.elems;
      ok := PutText(OT_STRUCT, "vector");
      if ok {
        ok := |es| < 256;
        if ok {
          Put([|es|]);
          ok := PutEach(es);
          if ok {
            var name := StringBytes("vector").value;
            assert bytes == old(bytes) + ([OT_STRUCT] + name + [|es|] + PutAll(es).value);
          }
        }
      }
    }

    /** `for-each put-object`. */
    method PutEach(ds: seq<Datum>) returns (ok: bool)
      modifies this
      ensures ok == PutAll(ds).Some?
      ensures ok ==> bytes == old(bytes) + PutAll(ds).value
      decreases SizeAll(ds), 1 + |ds|
    {
      hide PutObject;
      var i := 0;
      assert ds[0..] == ds;
      while i < |ds|
        invariant 0 <= i <= |ds|
        invariant SizeAll(ds[i..]) <= SizeAll(ds)
        invariant PutAll(ds[i..]).Some? == PutAll(ds).Some?
        invariant PutAll(ds).Some? ==> bytes + PutAll(ds[i..]).value == old(bytes) + PutAll(ds).value
      {
        assert ds[i..][1..] == ds[i + 1..];
        ghost var before := bytes;
        ok := PutDatum(ds[i]);
        if !ok {
          return;
        }
        ghost var b := PutObject(ds[i]).value;
        assert PutAll(ds[i + 1..]).Some? ==>
                 before + (b + PutAll(ds[i + 1..]).value) == before + b + PutAll(ds[i + 1..]).value;
        i := i + 1;
      }
      assert ds[|ds|..] == [];
      ok := true;
    }

    /** `write-consts`: the number of bytes written. */
    method WriteConsts(consts: seq<Datum>) returns (size: nat, ok: bool)
      modifies this
      ensures ok == ConstsBytes(consts).Some?
      ensures ok ==> bytes == old(bytes) + ConstsBytes(consts).value && size == |ConstsBytes(consts).value|
    {
      hide PutAll;
      var before := |bytes|;
      size := 0;
      ok := |consts| < 256;
      if ok {
        Put([|consts|]);
        ok := PutEach(consts);
        if ok {
          assert bytes == old(bytes) + ([|consts|] + PutAll(consts).value);
          size := |bytes| - before;
        }
      }
    }
  }

  /** `bytes` starts with `front`; what is to follow completes it. */
  ghost predicate Filled(front: seq<Byte>, part: seq<Byte>, rest: Option<seq<Byte>>, all: Option<seq<Byte>>) {
    rest.Some? == all.Some? && (all.Some? ==> part + rest.value == front + all.value)
  }

  lemma FilledStep(front: seq<Byte>, part: seq<Byte>, w: seq<Byte>, rest: Option<seq<Byte>>, all: Option<seq<Byte>>)
    requires Filled(front, part, if rest.Some? then Some(w + rest.value) else None, all)
    ensures Filled(front, part + w, rest, all)
  {
    assert rest.Some? ==> part + w + rest.value == part + (w + rest.value);
  }

  /** Two words are written one after the other. */
  method SetTwo(mem: array<Byte>, offset: nat, a: nat, b: nat)
    requires offset + 4 <= mem.Length && a < 0x1_0000 && b < 0x1_0000
    modifies mem
    ensures mem[..offset + 4] == old(mem[..offset]) + (ToBytes(a, 2) + ToBytes(b, 2))
  {
    hide ToBytes;
    SetU16(mem, offset, a);
    ghost var first := mem[..offset + 2];
    assert first == old(mem[..offset]) + ToBytes(a, 2);
    SetU16(mem, offset + 2, b);
    assert mem[..offset + 4] == first + ToBytes(b, 2);
  }

  method SetBindings(mem: array<Byte>, bindings: seq<(nat, nat)>) returns (offset: nat, ok: bool)
    requires 4 * |bindings| <= mem.Length
    modifies mem
    ensures ok == BindingBytes(bindings).Some?
    ensures ok ==> offset == 4 * |bindings| && mem[..offset] == BindingBytes(bindings).value
  {
    hide ToBytes;
    offset := 0;
    var i := 0;
    assert bindings[0..] == bindings;
    while i < |bindings|
      invariant 0 <= i <= |bindings| && offset == 4 * i
      invariant Filled([], mem[..offset], BindingBytes(bindings[i..]), BindingBytes(bindings))
    {
      var (up, slot) := bindings[i];
      assert bindings[i..][1..] == bindings[i + 1..];
      if up >= 0x1_0000 || slot >= 0x1_0000 {
        return offset, false;
      }
      ghost var part := mem[..offset];
      SetTwo(mem, offset, up, slot);
      FilledStep([], part, ToBytes(up, 2) + ToBytes(slot, 2), BindingBytes(bindings[i + 1..]), BindingBytes(bindings));
      offset, i := offset + 4, i + 1;
    }
    assert bindings[|bindings|..] == [];
    assert mem[..offset] + [] == mem[..offset];
    ok := true;
  }

  method SetBindmap(mem: array<Byte>, from: nat, bindmap: seq<nat>) returns (offset: nat, ok: bool)
    requires from + 2 * |bindmap| <= mem.Length
    modifies mem
    ensures ok == BindmapBytes(bindmap).Some?
    ensures ok ==> offset == from + 2 * |bindmap| && mem[..offset] == old(mem[..from]) + BindmapBytes(bindmap).value
  {
    hide ToBytes;
    offset := from;
    var i := 0;
    assert bindmap[0..] == bindmap;
    ghost var front := mem[..from];
    while i < |bindmap|
      invariant 0 <= i <= |bindmap| && offset == from + 2 * i
      invariant Filled(front, mem[..offset], BindmapBytes(bindmap[i..]), BindmapBytes(bindmap))
    {
      assert bindmap[i..][1..] == bindmap[i + 1..];
      if bindmap[i] >= 0x1_0000 {
        return offset, false;
      }
      ghost var part := mem[..offset];
      SetU16(mem, offset, bindmap[i]);
      assert mem[..offset + 2] == part + ToBytes(bindmap[i], 2);
      FilledStep(front, part, ToBytes(bindmap[i], 2), BindmapBytes(bindmap[i + 1..]), BindmapBytes(bindmap));
      offset, i := offset + 2, i + 1;
    }
    assert bindmap[|bindmap|..] == [];
    assert mem[..offset] + [] == mem[..offset];
    ok := true;
  }

  /** `assemble-main`. */
  method SetOps(mem: array<Byte>, from: nat, ops: seq<Instr>) returns (ok: bool)
    requires from + 4 * |ops| == mem.Length
    modifies mem
    ensures ok == OpBytes(ops).Some?
    ensures ok ==> mem[..] == old(mem[..from]) + OpBytes(ops).value
  {
    hide ToBytes, Opcode;
    var offset, i := from, 0;
    assert ops[0..] == ops;
    ghost var front := mem[..from];
    while i < |ops|
      invariant 0 <= i <= |ops| && offset == from + 4 * i
      invariant Filled(front, mem[..offset], OpBytes(ops[i..]), OpBytes(ops))
    {
      var (code, arg) := Opcode(ops[i]);
      assert ops[i..][1..] == ops[i + 1..];
      if code >= 0x8000 || arg >= 0x8000 {
        return false;
      }
      ghost var part := mem[..offset];
      SetTwo(mem, offset, code, arg);
      FilledStep(front, part, ToBytes(code, 2) + ToBytes(arg, 2), OpBytes(ops[i + 1..]), OpBytes(ops));
      offset, i := offset + 4, i + 1;
    }
    assert ops[|ops|..] == [];
    assert mem[..offset] + [] == mem[..];
    ok := true;
  }

  /** `assemble-code`. */
  method AssembleCode(f: Procedure) returns (bs: Option<seq<Byte>>)
    ensures bs == ProcedureBytes(f)
  {
    hide HeaderBytes, BindingBytes, BindmapBytes, OpBytes;
    bs := None;
    var header := HeaderBytes(f);
    var mem := new Byte[4 * |f.ops| + 4 * |f.bindings| + 2 * |f.bindmap|](_ => 0);
    var offset, ok := SetBindings(mem, f.bindings);
    if header.None? || !ok {
      return;
    }
    offset, ok := SetBindmap(mem, offset, f.bindmap);
    if !ok {
      return;
    }
    ok := SetOps(mem, offset, f.ops);
    if ok {
      bs := Some(header.value + mem[..]);
      assert header.value + (BindingBytes(f.bindings).value + BindmapBytes(f.bindmap).value + OpBytes(f.ops).value)
          == header.value + BindingBytes(f.bindings).value + BindmapBytes(f.bindmap).value + OpBytes(f.ops).value;
    }
  }

  /** `assemble`: the header is put in front when its contents are known. */
  method WriteModule(M: Image) returns (file: Option<seq<Byte>>)
    ensures file == Assemble(M)
  {
    hide ConstsBytes, ProcedureBytes, ToBytes;
    file := None;
    var port := new Port();
    port.Put(seq(8, _ => 0));
    assert |port.bytes| == 8;
    var size, ok := port.WriteConsts(M.consts);
    if !ok || size >= 0x1_0000_0000 || |M.funcs| >= 0x1_0000 || M.entry >= 0x1_0000 {
      return;
    }
    ghost var front, consts := port.bytes, ConstsBytes(M.consts).value;
    assert |front| == 8 + |consts| && front[8..] == consts;
    var i := 0;
    assert M.funcs[0..] == M.funcs;
    while i < |M.funcs|
      invariant 0 <= i <= |M.funcs| && front <= port.bytes
      invariant Filled(front, port.bytes, ProceduresBytes(M.funcs[i..]), ProceduresBytes(M.funcs))
    {
      assert M.funcs[i..][1..] == M.funcs[i + 1..];
      var f := AssembleCode(M.funcs[i]);
      if f.None? {
        return;
      }
      ghost var part := port.bytes;
      port.Put(f.value);
      FilledStep(front, part, f.value, ProceduresBytes(M.funcs[i + 1..]), ProceduresBytes(M.funcs));
      i := i + 1;
    }
    assert M.funcs[|M.funcs|..] == [];
    ghost var funcs := ProceduresBytes(M.funcs).value;
    assert port.bytes + [] == port.bytes == front + funcs;
    assert (front + funcs)[8..] == front[8..] + funcs;
    assert port.bytes[8..] == consts + funcs;
    port.PutAtStart(ToBytes(size, 4) + ToBytes(|M.funcs|, 2) + ToBytes(M.entry, 2));
    file := Some(port.bytes);
    assert port.bytes == ToBytes(size, 4) + ToBytes(|M.funcs|, 2) + ToBytes(M.entry, 2) + consts + funcs;
  }
}
