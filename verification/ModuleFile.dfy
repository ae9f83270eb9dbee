/** Module files: `assemble` of scheme/compiler/fasl.scm and `module_parse` of vm/module.c. */
module ModuleFile {
  import opened Wrappers
  import opened Syntax
  import opened Machine
  import opened Bytes
  import opened Fasl

  // ----- operation codes

  function OperatorCode(op: Operator): nat {
    match op
    case OpCons => 12 case OpCar => 13 case OpCdr => 14 case OpSub => 15 case OpAdd => 16 case OpMul => 17
    case OpDiv => 18 case OpMod => 19 case OpBitAnd => 20 case OpBitIor => 21 case OpBitXor => 22
    case OpLt => 24 case OpGt => 25 case OpEq => 26 case OpEqPtr => 27 case OpNot => 28
    case OpTypeTest(_) => 29
  }

  function TestCode(t: TypeTest): nat {
    match t
    case TFixnum => 0 case TNull => 1 case TList => 2 case TPair => 3 case TProcedure => 4 case TBoolean => 5
    case TChar => 6 case TSymbol => 7 case TStruct => 8 case TString => 9 case TBytevector => 10 case TEof => 11
  }

  /** `opcode` of the instruction's name, and its argument. */
  function Opcode(i: Instr): (nat, nat) {
    match i
    case LoadFunc(fn) => (0, fn)
    case LoadClosure(fn) => (1, fn)
    case LoadLocal(slot) => (2, slot)
    case LoadBind(b) => (3, b)
    case LoadConst(c) => (4, c)
    case PushBool(b) => (5, if b then 1 else 0)
    case PushNull => (6, 0)
    case JumpIfFalse(skip) => (7, skip)
    case JumpForward(skip) => (8, skip)
    case FuncCall(argc) => (9, argc)
    case Operation(op) => (OperatorCode(op), if op.OpTypeTest? then TestCode(op.test) else 0)
  }

  function TestOf(arg: int): Option<TypeTest> {
    match arg
    case 0 => Some(TFixnum) case 1 => Some(TNull) case 2 => Some(TList) case 3 => Some(TPair)
    case 4 => Some(TProcedure) case 5 => Some(TBoolean) case 6 => Some(TChar) case 7 => Some(TSymbol)
    case 8 => Some(TStruct) case 9 => Some(TString) case 10 => Some(TBytevector) case 11 => Some(TEof)
    case _ => None
  }

  function OperatorOf(code: int, arg: int): Option<Operator> {
    match code
    case 12 => Some(OpCons) case 13 => Some(OpCar) case 14 => Some(OpCdr) case 15 => Some(OpSub) case 16 => Some(OpAdd)
    case 17 => Some(OpMul) case 18 => Some(OpDiv) case 19 => Some(OpMod) case 20 => Some(OpBitAnd)
    case 21 => Some(OpBitIor) case 22 => Some(OpBitXor) case 24 => Some(OpLt) case 25 => Some(OpGt) case 26 => Some(OpEq)
    case 27 => Some(OpEqPtr) case 28 => Some(OpNot)
    case 29 => var t :- TestOf(arg); Some(OpTypeTest(t))
    case _ => None
  }

  /** The instruction that `eval_thread` executes for a pair of words. */
  function Decode(code: int, arg: int): Option<Instr> {
    if code == 5 then Some(PushBool(arg != 0))
    else if code == 6 then Some(PushNull)
    else if code >= 12 then
      var op :- OperatorOf(code, arg);
      Some(Operation(op))
    else if arg < 0 then None
    else
      match code
      case 0 => Some(LoadFunc(arg)) case 1 => Some(LoadClosure(arg)) case 2 => Some(LoadLocal(arg))
      case 3 => Some(LoadBind(arg)) case 4 => Some(LoadConst(arg)) case 7 => Some(JumpIfFalse(arg))
      case 8 => Some(JumpForward(arg)) case 9 => Some(FuncCall(arg))
      case _ => None
  }

  lemma DecodeOpcode(i: Instr)
    ensures Decode(Opcode(i).0, Opcode(i).1) == Some(i)
  {
  }

  // ----- writing

  function U16(n: nat): Option<seq<Byte>> { if n < 0x1_0000 then Some(ToBytes(n, 2)) else None }

  function S16(n: nat): Option<seq<Byte>> { if n < 0x8000 then Some(ToBytes(n, 2)) else None }

  function U32(n: nat): Option<seq<Byte>> { if n < 0x1_0000_0000 then Some(ToBytes(n, 4)) else None }

  function BindingBytes(bindings: seq<(nat, nat)>): Option<seq<Byte>> {
    if bindings == [] then Some([]) else
    var up :- U16(bindings[0].0);
    var slot :- U16(bindings[0].1);
    var rest :- BindingBytes(bindings[1..]);
    Some(up + slot + rest)
  }

  function BindmapBytes(bindmap: seq<nat>): Option<seq<Byte>> {
    if bindmap == [] then Some([]) else
    var up :- U16(bindmap[0]);
    var rest :- BindmapBytes(bindmap[1..]);
    Some(up + rest)
  }

  function OpBytes(ops: seq<Instr>): Option<seq<Byte>> {
    if ops == [] then Some([]) else
    var code :- S16(Opcode(ops[0]).0);
    var arg :- S16(Opcode(ops[0]).1);
    var rest :- OpBytes(ops[1..]);
    Some(code + arg + rest)
  }

  /** `make-fun-hdr`. */
  function HeaderBytes(f: Procedure): Option<seq<Byte>> {
    var envSize :- U16(f.envSize);
    var argc :- U16(f.argc);
    var swallow :- U16(if f.swallow then 1 else 0);
    var opCount :- U16(|f.ops|);
    var heap :- U16(if f.heap then 1 else 0);
    var depth :- U16(f.depth);
    var bcount :- U16(|f.bindings|);
    var bmcount :- U16(|f.bindmap|);
    Some(envSize + argc + swallow + opCount + heap + depth + bcount + bmcount)
  }

  /** `assemble-code`: the header, then bindings, bindmap and code. */
  function ProcedureBytes(f: Procedure): Option<seq<Byte>> {
    var header :- HeaderBytes(f);
    var bindings :- BindingBytes(f.bindings);
    var bindmap :- BindmapBytes(f.bindmap);
    var ops :- OpBytes(f.ops);
    Some(header + bindings + bindmap + ops)
  }

  function ProceduresBytes(fs: seq<Procedure>): Option<seq<Byte>> {
    if fs == [] then Some([]) else
    var f :- ProcedureBytes(fs[0]);
    var rest :- ProceduresBytes(fs[1..]);
    Some(f + rest)
  }

  /** `write-consts`: the number of constants, and the constants. */
  function ConstsBytes(consts: seq<Datum>): Option<seq<Byte>> {
    if |consts| >= 256 then None else
    var bs :- PutAll(consts);
    Some([|consts|] + bs)
  }

  /** `assemble`. */
  function Assemble(M: Image): Option<seq<Byte>> {
    var consts :- ConstsBytes(M.consts);
    var size :- U32(|consts|);
    var count :- U16(|M.funcs|);
    var entry :- U16(M.entry);
    var funcs :- ProceduresBytes(M.funcs);
    Some(size + count + entry + consts + funcs)
  }

  // ----- reading

  function ReadU16(bs: seq<Byte>): (r: Option<Read<nat>>)
    ensures r.Some? ==> |r.value.rest| < |bs|
  {
    var v :- Take(bs, 2);
    Some(Read(FromBytes(v.value), v.rest))
  }

  /** A 16-bit word kept in a `short`; the model has no negative counts. */
  function ReadShort(bs: seq<Byte>): (r: Option<Read<nat>>)
    ensures r.Some? ==> |r.value.rest| < |bs|
  {
    var v :- ReadU16(bs);
    if v.value < 0x8000 then Some(v) else None
  }

  function ReadBindings(bs: seq<Byte>, n: nat): (r: Option<Read<seq<(nat, nat)>>>)
    ensures r.Some? ==> |r.value.value| == n
    decreases n
  {
    if n == 0 then Some(Read([], bs)) else
    var up :- ReadShort(bs);
    var slot :- ReadShort(up.rest);
    var more :- ReadBindings(slot.rest, n - 1);
    Some(Read([(up.value, slot.value)] + more.value, more.rest))
  }

  function ReadBindmap(bs: seq<Byte>, n: nat): (r: Option<Read<seq<nat>>>)
    ensures r.Some? ==> |r.value.value| == n
    decreases n
  {
    if n == 0 then Some(Read([], bs)) else
    var up :- ReadU16(bs);
    var more :- ReadBindmap(up.rest, n - 1);
    Some(Read([up.value] + more.value, more.rest))
  }

  function ReadOps(bs: seq<Byte>, n: nat): (r: Option<Read<seq<Instr>>>)
    ensures r.Some? ==> |r.value.value| == n
    decreases n
  {
    if n == 0 then Some(Read([], bs)) else
    var code :- ReadU16(bs);
    var arg :- ReadU16(code.rest);
    var i :- Decode(Signed(code.value, 2), Signed(arg.value, 2));
    var more :- ReadOps(arg.rest, n - 1);
    Some(Read([i] + more.value, more.rest))
  }

  datatype Header = Header(envSize: nat, argc: nat, swallow: nat, opCount: nat, heap: nat, depth: nat, bcount: nat, bmcount: nat)

  function ReadHeader(bs: seq<Byte>): Option<Read<Header>> {
    var envSize :- ReadShort(bs);
    var argc :- ReadU16(envSize.rest);
    var swallow :- ReadU16(argc.rest);
    var opCount :- ReadU16(swallow.rest);
    var heap :- ReadU16(opCount.rest);
    var depth :- ReadU16(heap.rest);
    var bcount :- ReadU16(depth.rest);
    var bmcount :- ReadU16(bcount.rest);
    Some(Read(Header(envSize.value, argc.value, swallow.value, opCount.value, heap.value, depth.value, bcount.value,
                     bmcount.value), bmcount.rest))
  }

  /** One turn of the loop of `module_parse`: without bindings the bindmap is not looked for. */
  function ReadProcedure(bs: seq<Byte>): Option<Read<Procedure>> {
    var h :- ReadHeader(bs);
    var bindings :- ReadBindings(h.rest, h.value.bcount);
    var bindmap :- ReadBindmap(bindings.rest, if h.value.bcount == 0 then 0 else h.value.bmcount);
    var ops :- ReadOps(bindmap.rest, h.value.opCount);
    Some(Read(Procedure(h.value.argc, h.value.swallow % 2 == 1, h.value.envSize, h.value.heap != 0, h.value.depth,
                        bindings.value, bindmap.value, ops.value), ops.rest))
  }

  function ReadProcedures(bs: seq<Byte>, n: nat): Option<Read<seq<Procedure>>>
    decreases n
  {
    if n == 0 then Some(Read([], bs)) else
    var f :- ReadProcedure(bs);
    var more :- ReadProcedures(f.rest, n - 1);
    Some(Read([f.value] + more.value, more.rest))
  }

  /** `load_consts`. */
  function ReadConsts(bs: seq<Byte>): Option<seq<Datum>> {
    var n :- Take(bs, 1);
    var consts :- ReadMany(n.rest, n.value[0]);
    Some(consts.value)
  }

  /** `module_parse`. */
  function Parse(bs: seq<Byte>): Option<Image> {
    var size :- Take(bs, 4);
    var count :- ReadU16(size.rest);
    var entry :- ReadU16(count.rest);
    var block :- Take(entry.rest, FromBytes(size.value));
    var consts :- ReadConsts(block.value);
    var funcs :- ReadProcedures(block.rest, count.value);
    Some(Image(consts, funcs.value, entry.value))
  }
}

/** Loading an assembled module gives the module back. */
module ModuleRoundTrip {
  import opened Wrappers
  import opened Syntax
  import opened Machine
  import opened Bytes
  import opened Fasl
  import opened FaslRoundTrip
  import opened ModuleFile

  lemma U16Read(n: nat, rest: seq<Byte>)
    requires n < 0x1_0000
    ensures ReadU16(ToBytes(n, 2) + rest) == Some(Read(n, rest))
  {
    Power8();
    FromToBytes(n, 2);
    TakeOf(ToBytes(n, 2), rest);
  }

  lemma ShortRead(n: nat, rest: seq<Byte>)
    requires n < 0x1_0000
    ensures ReadShort(ToBytes(n, 2) + rest) == if n < 0x8000 then Some(Read(n, rest)) else None
  {
    U16Read(n, rest);
  }

  /** The bindings that the loader can keep: it holds them as signed 16-bit numbers. */
  predicate ShortBindings(bindings: seq<(nat, nat)>) {
    forall k {:trigger bindings[k]} | 0 <= k < |bindings| :: bindings[k].0 < 0x8000 && bindings[k].1 < 0x8000
  }

  lemma {:induction false} BindingsRead(bindings: seq<(nat, nat)>, bs: seq<Byte>, rest: seq<Byte>)
    requires BindingBytes(bindings) == Some(bs)
    ensures ReadBindings(bs + rest, |bindings|) == if ShortBindings(bindings) then Some(Read(bindings, rest)) else None
    decreases |bindings|
  {
    hide ToBytes, ReadShort;
    if bindings == [] {
      assert bs + rest == rest;
    } else {
      var (up, slot) := bindings[0];
      var more := BindingBytes(bindings[1..]).value;
      assert bs + rest == ToBytes(up, 2) + (ToBytes(slot, 2) + (more + rest));
      ShortRead(up, ToBytes(slot, 2) + (more + rest));
      ShortRead(slot, more + rest);
      BindingsRead(bindings[1..], more, rest);
      ShortRest(bindings);
      assert [bindings[0]] + bindings[1..] == bindings;
    }
  }

  lemma ShortRest(bindings: seq<(nat, nat)>)
    requires bindings != []
    ensures ShortBindings(bindings)
            == (bindings[0].0 < 0x8000 && bindings[0].1 < 0x8000 && ShortBindings(bindings[1..]))
  {
    if bindings[0].0 < 0x8000 && bindings[0].1 < 0x8000 && ShortBindings(bindings[1..]) {
      forall k {:trigger bindings[k]} | 0 <= k < |bindings| ensures bindings[k].0 < 0x8000 && bindings[k].1 < 0x8000 {
        if k > 0 {
          assert bindings[k] == bindings[1..][k - 1];
        }
      }
    }
    if ShortBindings(bindings) {
      forall k {:trigger bindings[1..][k]} | 0 <= k < |bindings[1..]|
        ensures bindings[1..][k].0 < 0x8000 && bindings[1..][k].1 < 0x8000
      {
        assert bindings[1..][k] == bindings[k + 1];
      }
    }
  }

  lemma {:induction false} BindmapRead(bindmap: seq<nat>, bs: seq<Byte>, rest: seq<Byte>)
    requires BindmapBytes(bindmap) == Some(bs)
    ensures ReadBindmap(bs + rest, |bindmap|) == Some(Read(bindmap, rest))
    decreases |bindmap|
  {
    hide ToBytes, ReadU16;
    if bindmap == [] {
      assert bs + rest == rest;
    } else {
      var more := BindmapBytes(bindmap[1..]).value;
      assert bs + rest == ToBytes(bindmap[0], 2) + (more + rest);
      U16Read(bindmap[0], more + rest);
      BindmapRead(bindmap[1..], more, rest);
      assert [bindmap[0]] + bindmap[1..] == bindmap;
    }
  }

  lemma {:induction false} OpsRead(ops: seq<Instr>, bs: seq<Byte>, rest: seq<Byte>)
    requires OpBytes(ops) == Some(bs)
    ensures ReadOps(bs + rest, |ops|) == Some(Read(ops, rest))
    decreases |ops|
  {
    hide ToBytes, ReadU16, Decode, Opcode;
    if ops == [] {
      assert bs + rest == rest;
    } else {
      var (code, arg) := Opcode(ops[0]);
      var more := OpBytes(ops[1..]).value;
      assert bs + rest == ToBytes(code, 2) + (ToBytes(arg, 2) + (more + rest));
      U16Read(code, ToBytes(arg, 2) + (more + rest));
      U16Read(arg, more + rest);
      SmallSigned(code);
      SmallSigned(arg);
      DecodeOpcode(ops[0]);
      OpsRead(ops[1..], more, rest);
      assert [ops[0]] + ops[1..] == ops;
    }
  }

  lemma SmallSigned(n: nat)
    requires n < 0x8000
    ensures Signed(n, 2) == n
  {
    Power8();
  }

  lemma HeaderRead(f: Procedure, bs: seq<Byte>, rest: seq<Byte>)
    requires HeaderBytes(f) == Some(bs)
    ensures ReadHeader(bs + rest)
            == if f.envSize < 0x8000 then
                 Some(Read(Header(f.envSize, f.argc, if f.swallow then 1 else 0, |f.ops|, if f.heap then 1 else 0, f.depth,
                                  |f.bindings|, |f.bindmap|), rest))
               else None
  {
    hide ToBytes, ReadU16, ReadShort;
    var swallow, heap := if f.swallow then 1 else 0, if f.heap then 1 else 0;
    var r7 := ToBytes(|f.bindmap|, 2) + rest;
    var r6 := ToBytes(|f.bindings|, 2) + r7;
    var r5 := ToBytes(f.depth, 2) + r6;
    var r4 := ToBytes(heap, 2) + r5;
    var r3 := ToBytes(|f.ops|, 2) + r4;
    var r2 := ToBytes(swallow, 2) + r3;
    var r1 := ToBytes(f.argc, 2) + r2;
    assert bs + rest == ToBytes(f.envSize, 2) + r1;
    ShortRead(f.envSize, r1);
    U16Read(f.argc, r2);
    U16Read(swallow, r3);
    U16Read(|f.ops|, r4);
    U16Read(heap, r5);
    U16Read(f.depth, r6);
    U16Read(|f.bindings|, r7);
    U16Read(|f.bindmap|, rest);
  }

  /** What a procedure needs to be loaded as it was written. */
  predicate Loadable(f: Procedure) {
    f.envSize < 0x8000 && ShortBindings(f.bindings) && (f.bindings == [] ==> f.bindmap == [])
  }

  lemma ProcedureRead(f: Procedure, bs: seq<Byte>, rest: seq<Byte>)
    requires ProcedureBytes(f) == Some(bs) && Loadable(f)
    ensures ReadProcedure(bs + rest) == Some(Read(f, rest))
  {
    hide HeaderBytes, BindingBytes, BindmapBytes, OpBytes, ReadHeader, ReadBindings, ReadBindmap, ReadOps, ShortBindings;
    var header, bindings := HeaderBytes(f).value, BindingBytes(f.bindings).value;
    var bindmap, ops := BindmapBytes(f.bindmap).value, OpBytes(f.ops).value;
    assert bs + rest == header + (bindings + (bindmap + (ops + rest)));
    HeaderRead(f, header, bindings + (bindmap + (ops + rest)));
    BindingsRead(f.bindings, bindings, bindmap + (ops + rest));
    BindmapRead(f.bindmap, bindmap, ops + rest);
    OpsRead(f.ops, ops, rest);
  }

  /** Whatever the bytes, a loaded procedure without bindings has no bindmap. */
  lemma ProcedureLoaded(bs: seq<Byte>)
    requires ReadProcedure(bs).Some?
    ensures Loadable(ReadProcedure(bs).value.value)
  {
    hide ReadBindmap, ReadOps;
    var h := ReadHeader(bs).value;
    BindingsShort(h.rest, h.value.bcount);
  }

  lemma {:induction false} BindingsShort(bs: seq<Byte>, n: nat)
    requires ReadBindings(bs, n).Some?
    ensures ShortBindings(ReadBindings(bs, n).value.value)
    decreases n
  {
    if n > 0 {
      var up := ReadShort(bs).value;
      var slot := ReadShort(up.rest).value;
      BindingsShort(slot.rest, n - 1);
      var r := ReadBindings(bs, n).value.value;
      assert r[1..] == ReadBindings(slot.rest, n - 1).value.value;
      ShortRest(r);
    }
  }

  predicate LoadableAll(fs: seq<Procedure>) { forall k {:trigger fs[k]} | 0 <= k < |fs| :: Loadable(fs[k]) }

  lemma LoadableRest(fs: seq<Procedure>)
    requires fs != []
    ensures LoadableAll(fs) == (Loadable(fs[0]) && LoadableAll(fs[1..]))
  {
    hide Loadable;
    if Loadable(fs[0]) && LoadableAll(fs[1..]) {
      forall k {:trigger fs[k]} | 0 <= k < |fs| ensures Loadable(fs[k]) {
        if k > 0 {
          assert fs[k] == fs[1..][k - 1];
        }
      }
    }
    if LoadableAll(fs) {
      forall k {:trigger fs[1..][k]} | 0 <= k < |fs[1..]| ensures Loadable(fs[1..][k]) {
        assert fs[1..][k] == fs[k + 1];
      }
    }
  }

  lemma {:induction false} ProceduresRead(fs: seq<Procedure>, bs: seq<Byte>, rest: seq<Byte>)
    requires ProceduresBytes(fs) == Some(bs) && LoadableAll(fs)
    ensures ReadProcedures(bs + rest, |fs|) == Some(Read(fs, rest))
    decreases |fs|
  {
    hide ProcedureBytes, ReadProcedure, LoadableAll, Loadable;
    if fs == [] {
      assert bs + rest == rest;
    } else {
      LoadableRest(fs);
      var f, more := ProcedureBytes(fs[0]).value, ProceduresBytes(fs[1..]).value;
      assert bs + rest == f + (more + rest);
      ProcedureRead(fs[0], f, more + rest);
      ProceduresRead(fs[1..], more, rest);
      assert [fs[0]] + fs[1..] == fs;
    }
  }

  lemma {:induction false} ProceduresLoaded(bs: seq<Byte>, n: nat)
    requires ReadProcedures(bs, n).Some?
    ensures LoadableAll(ReadProcedures(bs, n).value.value)
    decreases n
  {
    hide ReadProcedure, LoadableAll, Loadable;
    if n > 0 {
      var f := ReadProcedure(bs).value;
      ProcedureLoaded(bs);
      ProceduresLoaded(f.rest, n - 1);
      var r := ReadProcedures(bs, n).value.value;
      assert r[1..] == ReadProcedures(f.rest, n - 1).value.value;
      LoadableRest(r);
    } else {
      assert LoadableAll([]) by {
        NothingToLoad();
      }
    }
  }

  lemma NothingToLoad()
    ensures LoadableAll([])
  {
  }

  lemma ConstsRead(consts: seq<Datum>, bs: seq<Byte>)
    requires ConstsBytes(consts) == Some(bs)
    ensures ReadConsts(bs) == LoadedAll(consts)
  {
    hide PutAll, ReadMany;
    var body := PutAll(consts).value;
    assert bs[1..] == body + [] && bs[..1] == [|consts|];
    ManyRead(consts, body, []);
  }

  /** The parts of an assembled module, as the loader finds them. */
  lemma PartsRead(M: Image, bs: seq<Byte>) returns (consts: seq<Byte>, funcs: seq<Byte>)
    requires Assemble(M) == Some(bs)
    ensures ConstsBytes(M.consts) == Some(consts) && ProceduresBytes(M.funcs) == Some(funcs)
    ensures Parse(bs) == match ReadConsts(consts)
                         case None => None
                         case Some(cs) => match ReadProcedures(funcs, |M.funcs|)
                                          case None => None
                                          case Some(fs) => Some(Image(cs, fs.value, M.entry))
  {
    hide ConstsBytes, ProceduresBytes, ReadConsts, ReadProcedures, ToBytes, FromBytes, ReadU16;
    consts, funcs := ConstsBytes(M.consts).value, ProceduresBytes(M.funcs).value;
    Power8();
    var size, count, entry := ToBytes(|consts|, 4), ToBytes(|M.funcs|, 2), ToBytes(M.entry, 2);
    assert bs == size + (count + (entry + (consts + funcs)));
    TakeOf(size, count + (entry + (consts + funcs)));
    FromToBytes(|consts|, 4);
    U16Read(|M.funcs|, entry + (consts + funcs));
    U16Read(M.entry, consts + funcs);
    TakeOf(consts, funcs);
  }

  /** An assembled module is loaded as it was assembled if and only if it survives loading. */
  lemma AssembledLoads(M: Image, bs: seq<Byte>)
    requires Assemble(M) == Some(bs)
    ensures (Parse(bs) == Some(M)) == (SurviveAll(M.consts) && LoadableAll(M.funcs))
  {
    hide Assemble, Parse, ConstsBytes, ProceduresBytes, ReadConsts, ReadProcedures, LoadableAll, Loaded, Survives;
    var consts, funcs := PartsRead(M, bs);
    ConstsRead(M.consts, consts);
    LoadedAllIffSurvive(M.consts);
    assert funcs + [] == funcs;
    if LoadableAll(M.funcs) {
      ProceduresRead(M.funcs, funcs, []);
    }
    if Parse(bs) == Some(M) {
      ProceduresLoaded(funcs, |M.funcs|);
    }
  }
}

/** When a module can be written, and where its parts are in the file. */
module ModuleWidths {
  import opened Wrappers
  import opened Syntax
  import opened Machine
  import opened Bytes
  import opened Fasl
  import opened FaslRoundTrip
  import opened FaslWidths
  import opened ModuleFile
  import opened ModuleRoundTrip

  /** The argument of an instruction fits a signed 16-bit word. */
  predicate ShortArgument(i: Instr) {
    match i
    case LoadFunc(fn) => fn <= 0x7FFF
    case LoadClosure(fn) => fn <= 0x7FFF
    case LoadLocal(slot) => slot <= 0x7FFF
    case LoadBind(b) => b <= 0x7FFF
    case LoadConst(c) => c <= 0x7FFF
    case JumpIfFalse(skip) => skip <= 0x7FFF
    case JumpForward(skip) => skip <= 0x7FFF
    case FuncCall(argc) => argc <= 0x7FFF
    case _ => true
  }

  predicate ShortArguments(ops: seq<Instr>) { ops == [] || (ShortArgument(ops[0]) && ShortArguments(ops[1..])) }

  predicate WordBindings(bindings: seq<(nat, nat)>) {
    bindings == [] || (bindings[0].0 <= 0xFFFF && bindings[0].1 <= 0xFFFF && WordBindings(bindings[1..]))
  }

  predicate WordBindmap(bindmap: seq<nat>) { bindmap == [] || (bindmap[0] <= 0xFFFF && WordBindmap(bindmap[1..])) }

  /** The fields of `fun-hdr` and of the parts behind it are 16-bit words. */
  predicate WordProcedure(f: Procedure) {
    && f.envSize <= 0xFFFF && f.argc <= 0xFFFF && |f.ops| <= 0xFFFF && f.depth <= 0xFFFF
    && |f.bindings| <= 0xFFFF && |f.bindmap| <= 0xFFFF
    && WordBindings(f.bindings) && WordBindmap(f.bindmap) && ShortArguments(f.ops)
  }

  predicate WordProcedures(fs: seq<Procedure>) { fs == [] || (WordProcedure(fs[0]) && WordProcedures(fs[1..])) }

  /** At most 255 constants that can be written, in a block whose size fits its field, and procedures that fit theirs. */
  predicate Assemblable(M: Image) {
    && |M.consts| <= 255 && WritableAll(M.consts) && 1 + WidthAll(M.consts) <= 0xFFFF_FFFF
    && |M.funcs| <= 0xFFFF && M.entry <= 0xFFFF && WordProcedures(M.funcs)
  }

  /** The sizes of the parts of a procedure's code. */
  lemma {:induction false} BindingsSize(bindings: seq<(nat, nat)>)
    requires BindingBytes(bindings).Some?
    ensures |BindingBytes(bindings).value| == 4 * |bindings|
    decreases |bindings|
  {
    if bindings != [] {
      BindingsSize(bindings[1..]);
    }
  }

  lemma {:induction false} BindmapSize(bindmap: seq<nat>)
    requires BindmapBytes(bindmap).Some?
    ensures |BindmapBytes(bindmap).value| == 2 * |bindmap|
    decreases |bindmap|
  {
    if bindmap != [] {
      BindmapSize(bindmap[1..]);
    }
  }

  lemma {:induction false} OpsSize(ops: seq<Instr>)
    requires OpBytes(ops).Some?
    ensures |OpBytes(ops).value| == 4 * |ops|
    decreases |ops|
  {
    if ops != [] {
      OpsSize(ops[1..]);
    }
  }

  lemma {:induction false} OpsWrittenIff(ops: seq<Instr>)
    ensures OpBytes(ops).Some? <==> ShortArguments(ops)
    decreases |ops|
  {
    hide ToBytes;
    if ops != [] {
      OpsWrittenIff(ops[1..]);
    }
  }

  lemma {:induction false} BindingsWrittenIff(bindings: seq<(nat, nat)>)
    ensures BindingBytes(bindings).Some? <==> WordBindings(bindings)
    decreases |bindings|
  {
    if bindings != [] {
      BindingsWrittenIff(bindings[1..]);
    }
  }

  lemma {:induction false} BindmapWrittenIff(bindmap: seq<nat>)
    ensures BindmapBytes(bindmap).Some? <==> WordBindmap(bindmap)
    decreases |bindmap|
  {
    if bindmap != [] {
      BindmapWrittenIff(bindmap[1..]);
    }
  }

  lemma ProcedureWrittenIff(f: Procedure)
    ensures ProcedureBytes(f).Some? <==> WordProcedure(f)
  {
    hide ToBytes, OpBytes, BindingBytes, BindmapBytes, ShortArguments, WordBindings, WordBindmap;
    OpsWrittenIff(f.ops);
    BindingsWrittenIff(f.bindings);
    BindmapWrittenIff(f.bindmap);
  }

  lemma {:induction false} ProceduresWrittenIff(fs: seq<Procedure>)
    ensures ProceduresBytes(fs).Some? <==> WordProcedures(fs)
    decreases |fs|
  {
    hide ProcedureBytes, WordProcedure;
    if fs != [] {
      ProcedureWrittenIff(fs[0]);
      ProceduresWrittenIff(fs[1..]);
    }
  }

  /** A module is assembled if and only if its fields hold it. */
  lemma AssembledIff(M: Image)
    ensures Assemble(M).Some? <==> Assemblable(M)
  {
    hide ToBytes, PutAll, WritableAll, WidthAll, ProceduresBytes, WordProcedures;
    AllWrittenIffWritable(M.consts);
    ProceduresWrittenIff(M.funcs);
  }

  /**
   A module goes through its file unchanged if and only if the fields of the format hold it, its constants survive, its
   frame sizes and bindings fit signed 16-bit numbers, and no procedure has a bindmap without bindings.
   */
  lemma LoadsAsAssembled(M: Image)
    ensures (Assemble(M).Some? && Parse(Assemble(M).value) == Some(M))
            == (Assemblable(M) && SurviveAll(M.consts) && LoadableAll(M.funcs))
  {
    hide Assemble, Parse, Assemblable, LoadableAll, SurviveAll;
    AssembledIff(M);
    if Assemble(M).Some? {
      AssembledLoads(M, Assemble(M).value);
    }
  }

  // ----- operation codes

  /** `oplist`. */
  const OPLIST: seq<string> := [
    "LOAD_FUNC", "LOAD_CLOSURE", "LOAD_LOCAL", "LOAD_BIND", "LOAD_CONST", "PUSH_BOOL", "PUSH_NULL", "JUMP_IF_FALSE",
    "JUMP_FORWARD", "FUNC_CALL", "SET_LOCAL", "SET_BIND", "OP_CONS", "OP_CAR", "OP_CDR", "OP_SUB", "OP_ADD", "OP_MUL",
    "OP_DIV", "OP_MOD", "OP_BIT_AND", "OP_BIT_IOR", "OP_BIT_XOR", "OP_BIT_NOT", "OP_LT", "OP_GT", "OP_EQ", "OP_EQ_PTR",
    "OP_NOT", "OP_TYPE_TEST"]

  /** `type-tests`. */
  const TESTS: seq<TypeTest> := [
    TFixnum, TNull, TList, TPair, TProcedure, TBoolean, TChar, TSymbol, TStruct, TString, TBytevector, TEof]

  function Mnemonic(i: Instr): string {
    match i
    case LoadFunc(_) => "LOAD_FUNC"
    case LoadClosure(_) => "LOAD_CLOSURE"
    case LoadLocal(_) => "LOAD_LOCAL"
    case LoadBind(_) => "LOAD_BIND"
    case LoadConst(_) => "LOAD_CONST"
    case PushBool(_) => "PUSH_BOOL"
    case PushNull => "PUSH_NULL"
    case JumpIfFalse(_) => "JUMP_IF_FALSE"
    case JumpForward(_) => "JUMP_FORWARD"
    case FuncCall(_) => "FUNC_CALL"
    case Operation(op) =>
      match op
      case OpCons => "OP_CONS" case OpCar => "OP_CAR" case OpCdr => "OP_CDR" case OpSub => "OP_SUB" case OpAdd => "OP_ADD"
      case OpMul => "OP_MUL" case OpDiv => "OP_DIV" case OpMod => "OP_MOD" case OpBitAnd => "OP_BIT_AND"
      case OpBitIor => "OP_BIT_IOR" case OpBitXor => "OP_BIT_XOR" case OpLt => "OP_LT" case OpGt => "OP_GT"
      case OpEq => "OP_EQ" case OpEqPtr => "OP_EQ_PTR" case OpNot => "OP_NOT" case OpTypeTest(_) => "OP_TYPE_TEST"
  }

  /** A code is the position of the instruction's name, and a type test's argument that of the test. */
  lemma OpcodeIsPosition(i: Instr)
    ensures Opcode(i).0 < |OPLIST| && OPLIST[Opcode(i).0] == Mnemonic(i)
    ensures i.Operation? && i.op.OpTypeTest? ==> Opcode(i).1 < |TESTS| && TESTS[Opcode(i).1] == i.op.test
  {
    if i.Operation? {
      OperatorPosition(i.op);
    }
  }

  lemma OperatorPosition(op: Operator)
    ensures OperatorCode(op) < |OPLIST| && OPLIST[OperatorCode(op)] == Mnemonic(Operation(op))
    ensures op.OpTypeTest? ==> TestCode(op.test) < |TESTS| && TESTS[TestCode(op.test)] == op.test
  {
  }

  // ----- where things are

  /** Word `k` of 16 bits, low byte first. */
  function WordAt(bs: seq<Byte>, k: nat): nat
    requires 2 * k + 1 < |bs|
  {
    var low: nat, high: nat := bs[2 * k], bs[2 * k + 1];
    low + 256 * high
  }

  /** The header of a module: the size of the block of constants, the number of procedures, the entry point. */
  lemma ModuleHeader(M: Image)
    requires Assemblable(M)
    ensures Assemble(M).Some? && |Assemble(M).value| >= 9 + WidthAll(M.consts)
    ensures var bs := Assemble(M).value;
            && WordAt(bs, 0) + 0x1_0000 * WordAt(bs, 1) == 1 + WidthAll(M.consts)
            && WordAt(bs, 2) == |M.funcs| && WordAt(bs, 3) == M.entry && bs[8] == |M.consts|
  {
    hide ToBytes, PutAll, WritableAll, WidthAll, ProceduresBytes, WordProcedures, FromBytes;
    AssembledIff(M);
    AllWrittenIffWritable(M.consts);
    var size := 1 + WidthAll(M.consts);
    WordWritten(|M.funcs|);
    WordWritten(M.entry);
    DoubleWritten(size);
    var funcs := ProceduresBytes(M.funcs).value;
    assert Assemble(M).value == ToBytes(size, 4) + ToBytes(|M.funcs|, 2) + ToBytes(M.entry, 2) + ConstsBytes(M.consts).value + funcs;
  }

  lemma WordWritten(n: nat)
    requires n <= 0xFFFF
    ensures WordAt(ToBytes(n, 2), 0) == n
  {
    CharLayout(n);
  }

  lemma DoubleWritten(n: nat)
    requires n <= 0xFFFF_FFFF
    ensures var bs := ToBytes(n, 4); WordAt(bs, 0) + 0x1_0000 * WordAt(bs, 1) == n
  {
    assert ToBytes(n, 4) == [n % 256] + ToBytes(n / 256, 3);
    assert ToBytes(n / 256, 3) == [n / 256 % 256] + ToBytes(n / 256 / 256, 2);
    CharLayout(n / 256 / 256);
  }

  /** The header of a procedure: eight 16-bit words, in the order of `struct func_hdr_s`. */
  lemma ProcedureHeader(f: Procedure)
    requires WordProcedure(f)
    ensures ProcedureBytes(f).Some? && |ProcedureBytes(f).value| == 16 + 4 * |f.bindings| + 2 * |f.bindmap| + 4 * |f.ops|
    ensures var bs := ProcedureBytes(f).value;
            && WordAt(bs, 0) == f.envSize && WordAt(bs, 1) == f.argc && WordAt(bs, 2) == (if f.swallow then 1 else 0)
            && WordAt(bs, 3) == |f.ops| && WordAt(bs, 4) == (if f.heap then 1 else 0) && WordAt(bs, 5) == f.depth
            && WordAt(bs, 6) == |f.bindings| && WordAt(bs, 7) == |f.bindmap|
  {
    hide ToBytes, OpBytes, BindingBytes, BindmapBytes, ShortArguments, WordBindings, WordBindmap;
    ProcedureWrittenIff(f);
    BindingsSize(f.bindings);
    BindmapSize(f.bindmap);
    OpsSize(f.ops);
    HeaderWords(f);
    var header := HeaderBytes(f).value;
    assert ProcedureBytes(f).value == header + (BindingBytes(f.bindings).value + BindmapBytes(f.bindmap).value + OpBytes(f.ops).value);
  }

  lemma HeaderWords(f: Procedure)
    requires HeaderBytes(f).Some?
    ensures var bs := HeaderBytes(f).value;
            && |bs| == 16
            && WordAt(bs, 0) == f.envSize && WordAt(bs, 1) == f.argc && WordAt(bs, 2) == (if f.swallow then 1 else 0)
            && WordAt(bs, 3) == |f.ops| && WordAt(bs, 4) == (if f.heap then 1 else 0) && WordAt(bs, 5) == f.depth
            && WordAt(bs, 6) == |f.bindings| && WordAt(bs, 7) == |f.bindmap|
  {
    hide ToBytes;
    WordWritten(f.envSize);
    WordWritten(f.argc);
    WordWritten(if f.swallow then 1 else 0);
    WordWritten(|f.ops|);
    WordWritten(if f.heap then 1 else 0);
    WordWritten(f.depth);
    WordWritten(|f.bindings|);
    WordWritten(|f.bindmap|);
  }
}
