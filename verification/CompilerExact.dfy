/** When the compiler is right: exactly when no parameter that hides a native function is called through the shortcut. */
module CompilerExact {
  import opened Wrappers
  import opened Syntax
  import opened Values
  import opened Cps
  import opened Machine
  import opened CodeSpec
  import opened Compiler
  import opened CompilerState
  import opened CompilerCode

  // ----- what compilation does to the code store

  lemma {:induction false} CompileGrows(e: Exp, envs: seq<Scoped>, st: Store)
    requires Compile(e, envs, st).Some?
    ensures st.funcs <= Compile(e, envs, st).value.st.funcs && |Compile(e, envs, st).value.code| == Len(e)
    decreases e, 1
  {
    hide EnvLookup, Intern;
    match e
    case Lit(_) =>
    case Quote(_) =>
    case Var(x) => LookupStores(envs, st, x);
    case Op(_, args) => CompileAllGrows(args, envs, st);
    case Lam(ps, rest, body) => CompileAllGrows(body, [Scoped(ps, rest, |envs|, false, [], [])] + envs, st);
    case If(test, yes, no) =>
      CompileGrows(test, envs, st);
      var p := Compile(test, envs, st).value;
      CompileGrows(yes, p.envs, p.st);
      var y := Compile(yes, p.envs, p.st).value;
      CompileGrows(no, y.envs, y.st);
    case Call(es) =>
      CompileGrows(es[0], envs, st);
      var f := Compile(es[0], envs, st).value;
      CompileAllGrows(es[1..], f.envs, f.st);
  }

  lemma LookupStores(envs: seq<Scoped>, st: Store, x: Name)
    requires EnvLookup(envs, st, x).Some?
    ensures EnvLookup(envs, st, x).value.2.funcs == st.funcs
  {
    hide Search, Intern;
  }

  lemma {:induction false} CompileAllGrows(es: seq<Exp>, envs: seq<Scoped>, st: Store)
    requires CompileAll(es, envs, st).Some?
    ensures st.funcs <= CompileAll(es, envs, st).value.st.funcs && |CompileAll(es, envs, st).value.code| == LenAll(es)
    decreases es, 0
  {
    if es != [] {
      CompileGrows(es[0], envs, st);
      var x := Compile(es[0], envs, st).value;
      CompileAllGrows(es[1..], x.envs, x.st);
    }
  }

  // ----- code that implements its source takes the shortcut for native functions only

  /** The finished module, as the code at hand sees it. */
  predicate Whole(c: Context, funcs: seq<Procedure>) { TableOk(c.consts, c.infos, funcs) }

  lemma {:induction false} ReadyIsRight(e: Exp, hidden: set<Name>)
    requires SelfEval(e)
    ensures !Mistaken(e, hidden)
    decreases e, 1
  {
    if e.Op? {
      ReadyAllRight(e.args, hidden);
    }
  }

  lemma {:induction false} ReadyAllRight(es: seq<Exp>, hidden: set<Name>)
    requires SelfEvalAll(es)
    ensures !MistakenAll(es, hidden)
    decreases es, 0
  {
    if es != [] {
      ReadyIsRight(es[0], hidden);
      ReadyAllRight(es[1..], hidden);
    }
  }

  lemma {:induction false} EmittedIsRight(e: Exp, envs: seq<Scoped>, st: Store, out: Out, c: Context, pc: nat, funcs: seq<Procedure>)
    requires Compile(e, envs, st) == Some(out) && Direct(e) && Emits(c, e, pc)
    requires SameOps(out.code, 0, c.ops, pc, |out.code|) && out.st.funcs <= funcs && Whole(c, funcs)
    ensures !Mistaken(e, HiddenIn(c.scopes))
    decreases e, 1
  {
    hide HiddenIn, Whole, IsVar, IsConst;
    match e
    case Lit(_) =>
    case Quote(_) =>
    case Var(_) =>
    case Op(_, args) =>
      var a := CompileAll(args, envs, st).value;
      CompileAllGrows(args, envs, st);
      SameOpsPrefix(a.code, out.code, c.ops, pc);
      EmittedAllRight(args, envs, st, a, c, pc, funcs);
    case Lam(_, _, _) =>
      SameOpsAt(out.code, 0, c.ops, pc, |out.code|, 0);
      LambdaIsRight(e, envs, st, out, c, c.ops[pc].fn, funcs);
    case If(_, _, _) => IfIsRight(e, envs, st, out, c, pc, funcs);
    case Call(_) => CallIsRight(e, envs, st, out, c, pc, funcs);
  }

  lemma SameOpsPrefix(part: seq<Instr>, code: seq<Instr>, ops: seq<Instr>, pc: nat)
    requires SameOps(code, 0, ops, pc, |code|) && part <= code
    ensures SameOps(part, 0, ops, pc, |part|)
  {
    forall k {:trigger part[k]} | 0 <= k < 0 + |part| ensures ops[pc + k - 0] == part[k] {
      assert part[k] == code[k];
    }
  }

  /** A slice of the code of an expression, in place. */
  lemma SameOpsSlice(part: seq<Instr>, code: seq<Instr>, at: nat, ops: seq<Instr>, pc: nat)
    requires SameOps(code, 0, ops, pc, |code|) && at + |part| <= |code| && code[at..at + |part|] == part
    ensures SameOps(part, 0, ops, pc + at, |part|)
  {
    forall k {:trigger part[k]} | 0 <= k < 0 + |part| ensures ops[pc + at + k - 0] == part[k] {
      assert part[k] == code[at..at + |part|][k] == code[at + k];
    }
  }

  lemma {:induction false} EmittedAllRight(es: seq<Exp>, envs: seq<Scoped>, st: Store, out: Out, c: Context, pc: nat,
                                           funcs: seq<Procedure>)
    requires CompileAll(es, envs, st) == Some(out) && DirectAll(es) && EmitsAll(c, es, pc)
    requires SameOps(out.code, 0, c.ops, pc, |out.code|) && out.st.funcs <= funcs && Whole(c, funcs)
    ensures !MistakenAll(es, HiddenIn(c.scopes))
    decreases es, 0
  {
    hide HiddenIn, Whole, Compile, Emits, Direct, Mistaken, SameOps;
    if es != [] {
      var x := Compile(es[0], envs, st).value;
      var rest := CompileAll(es[1..], x.envs, x.st).value;
      CompileGrows(es[0], envs, st);
      CompileAllGrows(es[1..], x.envs, x.st);
      SameOpsPrefix(x.code, out.code, c.ops, pc);
      assert out.code[|x.code|..|x.code| + |rest.code|] == rest.code;
      SameOpsSlice(rest.code, out.code, |x.code|, c.ops, pc);
      EmittedIsRight(es[0], envs, st, x, c, pc, funcs);
      EmittedAllRight(es[1..], x.envs, x.st, rest, c, pc + |x.code|, funcs);
    }
  }

  /** The procedure of a lambda expression has the code compiled from its body. */
  lemma {:induction false} LambdaIsRight(e: Exp, envs: seq<Scoped>, st: Store, out: Out, c: Context, fn: nat, funcs: seq<Procedure>)
    requires e.Lam? && Compile(e, envs, st) == Some(out) && Direct(e) && out.st.funcs <= funcs && Whole(c, funcs)
    requires out.code == [LoadClosure(fn)] && IsLambda(c, fn, e)
    ensures !Mistaken(e, HiddenIn(c.scopes))
    decreases e, 0
  {
    hide HiddenIn, CompileAll, EmitsAll, BindmapOk, NeedsHeap, DirectAll, MistakenAll;
    var b := CompileAll(e.body, [Scoped(e.ps, e.rest, |envs|, false, [], [])] + envs, st).value;
    var f := MakeFunc(b.code, b.envs[0]);
    assert fn == |b.st.funcs| && out.st.funcs[fn] == f && funcs[fn] == f;
    assert ProcedureOk(c.consts, c.infos, funcs[fn], c.infos[fn]);
    var c1 := ContextOf(c.consts, c.infos, f, c.infos[fn]);
    SliceSame(b.code, b.code, 0);
    EmittedAllRight(e.body, [Scoped(e.ps, e.rest, |envs|, false, [], [])] + envs, st, b, c1, 0, funcs);
    HiddenInside(e, c.scopes);
    assert c1.scopes == Inside(e, c.scopes);
  }

  lemma {:induction false} IfIsRight(e: Exp, envs: seq<Scoped>, st: Store, out: Out, c: Context, pc: nat, funcs: seq<Procedure>)
    requires e.If? && Compile(e, envs, st) == Some(out) && Direct(e) && EmitsIf(c, e, pc)
    requires SameOps(out.code, 0, c.ops, pc, |out.code|) && out.st.funcs <= funcs && Whole(c, funcs)
    ensures !Mistaken(e, HiddenIn(c.scopes))
    decreases e, 0
  {
    hide SameOps, Whole, HiddenIn, Emits, EmitsIf, Mistaken, Direct, Compile;
    var p, y, z := IfCompiled(e, envs, st, out);
    var a, b := |p.code|, |y.code|;
    IfPlaces(p.code, y.code, z.code, out.code, c.ops, pc);
    CompileGrows(e.test, envs, st);
    CompileGrows(e.yes, p.envs, p.st);
    CompileGrows(e.no, y.envs, y.st);
    IfParts(c, e, pc);
    EmittedIsRight(e.test, envs, st, p, c, pc, funcs);
    EmittedIsRight(e.yes, p.envs, p.st, y, c, pc + a + 1, funcs);
    EmittedIsRight(e.no, y.envs, y.st, z, c, pc + a + 1 + b + 1, funcs);
    IfRight(e, HiddenIn(c.scopes));
  }

  lemma IfCompiled(e: Exp, envs: seq<Scoped>, st: Store, out: Out) returns (p: Out, y: Out, z: Out)
    requires e.If? && Compile(e, envs, st) == Some(out)
    ensures Compile(e.test, envs, st) == Some(p) && Compile(e.yes, p.envs, p.st) == Some(y) && Compile(e.no, y.envs, y.st) == Some(z)
    ensures out == Out(p.code + [JumpIfFalse(|y.code| + 1)] + y.code + [JumpForward(|z.code|)] + z.code, z.envs, z.st)
  {
    p := Compile(e.test, envs, st).value;
    y := Compile(e.yes, p.envs, p.st).value;
    z := Compile(e.no, y.envs, y.st).value;
  }

  lemma CallCompiled(es: seq<Exp>, envs: seq<Scoped>, st: Store, out: Out) returns (f: Out, a: Out)
    requires es != [] && Compile(Call(es), envs, st) == Some(out)
    ensures Compile(es[0], envs, st) == Some(f) && CompileAll(es[1..], f.envs, f.st) == Some(a)
    ensures var args := if DirectCont(es) then RewriteFunc(a.code) else a.code;
            var func := if IsLambdaCall(f.code) then RewriteFunc(f.code) else f.code;
            out == Out(args + func + [FuncCall(|es| - 1)], a.envs, a.st)
  {
    hide DirectCont;
    f := Compile(es[0], envs, st).value;
    a := CompileAll(es[1..], f.envs, f.st).value;
  }

  lemma IfRight(e: Exp, hidden: set<Name>)
    requires e.If? && !Mistaken(e.test, hidden) && !Mistaken(e.yes, hidden) && !Mistaken(e.no, hidden)
    ensures !Mistaken(e, hidden)
  {
  }

  lemma IfParts(c: Context, e: Exp, pc: nat)
    requires EmitsIf(c, e, pc) && Direct(e)
    ensures Emits(c, e.test, pc) && Emits(c, e.yes, pc + Len(e.test) + 1)
    ensures Emits(c, e.no, pc + Len(e.test) + 1 + Len(e.yes) + 1)
    ensures Direct(e.test) && Direct(e.yes) && Direct(e.no)
  {
    hide Emits;
  }

  lemma IfPlaces(p: seq<Instr>, y: seq<Instr>, z: seq<Instr>, code: seq<Instr>, ops: seq<Instr>, pc: nat)
    requires code == p + [JumpIfFalse(|y| + 1)] + y + [JumpForward(|z|)] + z && SameOps(code, 0, ops, pc, |code|)
    ensures SameOps(p, 0, ops, pc, |p|) && SameOps(y, 0, ops, pc + |p| + 1, |y|)
    ensures SameOps(z, 0, ops, pc + |p| + 1 + |y| + 1, |z|)
  {
    hide SameOps;
    IfSlices(p, y, z, code);
    SameOpsSlice(p, code, 0, ops, pc);
    SameOpsSlice(y, code, |p| + 1, ops, pc);
    SameOpsSlice(z, code, |p| + 1 + |y| + 1, ops, pc);
  }

  lemma {:induction false} CallIsRight(e: Exp, envs: seq<Scoped>, st: Store, out: Out, c: Context, pc: nat, funcs: seq<Procedure>)
    requires e.Call? && Compile(e, envs, st) == Some(out) && Direct(e) && EmitsCall(c, e.es, pc)
    requires SameOps(out.code, 0, c.ops, pc, |out.code|) && out.st.funcs <= funcs && Whole(c, funcs)
    ensures !Mistaken(e, HiddenIn(c.scopes))
    decreases e, 0
  {
    var es := e.es;
    hide HiddenIn, Whole, Emits, EmitsAll, EmitsCall, EmitsArgs, EmitsOperator, SameOps, DirectCont, Direct, DirectAll, Mistaken,
         MistakenAll, SelfEval, Compile, CompileAll;
    CallParts(c, es, pc);
    var f, a := CallCompiled(es, envs, st, out);
    var args := if DirectCont(es) then RewriteFunc(a.code) else a.code;
    var func := if IsLambdaCall(f.code) then RewriteFunc(f.code) else f.code;
    CallPlaces(args, func, |es| - 1, out.code, c.ops, pc);
    CallPartsRight(es, envs, st, f, a, args, func, c, pc, funcs);
  }

  lemma {:induction false} CallPartsRight(es: seq<Exp>, envs: seq<Scoped>, st: Store, f: Out, a: Out, args: seq<Instr>, func: seq<Instr>,
                                          c: Context, pc: nat, funcs: seq<Procedure>)
    requires es != [] && (es[0].Lam? || SelfEval(es[0])) && Direct(es[0]) && DirectAll(es[1..])
    requires Compile(es[0], envs, st) == Some(f) && CompileAll(es[1..], f.envs, f.st) == Some(a)
    requires args == (if DirectCont(es) then RewriteFunc(a.code) else a.code)
    requires func == (if IsLambdaCall(f.code) then RewriteFunc(f.code) else f.code)
    requires SameOps(args, 0, c.ops, pc, |args|) && SameOps(func, 0, c.ops, pc + |args|, |func|)
    requires EmitsArgs(c, es, pc) && EmitsOperator(c, es, pc + LenAll(es[1..]))
    requires a.st.funcs <= funcs && Whole(c, funcs)
    ensures !Mistaken(Call(es), HiddenIn(c.scopes))
    decreases es, 2
  {
    hide HiddenIn, Whole, Emits, EmitsAll, EmitsArgs, EmitsOperator, SameOps, DirectCont, Direct, DirectAll, Mistaken, MistakenAll,
         SelfEval, Compile, CompileAll;
    CompileGrows(es[0], envs, st);
    CompileAllGrows(es[1..], f.envs, f.st);
    ArgsAreRight(es, f.envs, f.st, a, args, c, pc, funcs);
    OperatorIsRight(es, envs, st, f, func, c, pc + |args|, funcs);
    CallRight(es, HiddenIn(c.scopes));
  }

  lemma CallParts(c: Context, es: seq<Exp>, pc: nat)
    requires EmitsCall(c, es, pc) && Direct(Call(es))
    ensures EmitsArgs(c, es, pc) && EmitsOperator(c, es, pc + LenAll(es[1..]))
    ensures es != [] && (es[0].Lam? || SelfEval(es[0])) && Direct(es[0]) && DirectAll(es[1..])
  {
    hide EmitsArgs, EmitsOperator, SelfEval;
  }

  lemma CallRight(es: seq<Exp>, hidden: set<Name>)
    requires es != [] && !Mistaken(es[0], hidden) && !MistakenAll(es[1..], hidden) && !(DirectCont(es) && es[0].x in hidden)
    ensures !Mistaken(Call(es), hidden)
  {
    hide DirectCont;
  }

  lemma CallPlaces(args: seq<Instr>, func: seq<Instr>, n: nat, code: seq<Instr>, ops: seq<Instr>, pc: nat)
    requires code == args + func + [FuncCall(n)] && SameOps(code, 0, ops, pc, |code|)
    ensures SameOps(args, 0, ops, pc, |args|) && SameOps(func, 0, ops, pc + |args|, |func|)
  {
    hide SameOps;
    CallSlices(args, func, n, code);
    assert code[0..0 + |args|] == args;
    SameOpsSlice(args, code, 0, ops, pc);
    SameOpsSlice(func, code, |args|, ops, pc);
  }

  lemma {:induction false} OperatorIsRight(es: seq<Exp>, envs: seq<Scoped>, st: Store, f: Out, func: seq<Instr>, c: Context, pc: nat,
                                           funcs: seq<Procedure>)
    requires es != [] && Compile(es[0], envs, st) == Some(f) && (es[0].Lam? || SelfEval(es[0])) && Direct(es[0])
    requires func == (if IsLambdaCall(f.code) then RewriteFunc(f.code) else f.code) && EmitsOperator(c, es, pc)
    requires SameOps(func, 0, c.ops, pc, |func|) && f.st.funcs <= funcs && Whole(c, funcs)
    ensures !Mistaken(es[0], HiddenIn(c.scopes))
    decreases es, 1
  {
    hide HiddenIn, Whole, Emits, SameOps, CompileAll;
    if es[0].Lam? {
      SameOpsAt(func, 0, c.ops, pc, |func|, 0);
      LambdaIsRight(es[0], envs, st, f, c, c.ops[pc].fn, funcs);
    } else {
      ReadyIsRight(es[0], HiddenIn(c.scopes));
    }
  }

  /** The compiler takes the shortcut whenever the name fits; then the code implements its source only if no parameter has it. */
  lemma {:induction false} ArgsAreRight(es: seq<Exp>, envs: seq<Scoped>, st: Store, a: Out, args: seq<Instr>, c: Context, pc: nat,
                                        funcs: seq<Procedure>)
    requires es != [] && CompileAll(es[1..], envs, st) == Some(a) && DirectAll(es[1..])
    requires args == (if DirectCont(es) then RewriteFunc(a.code) else a.code) && EmitsArgs(c, es, pc)
    requires SameOps(args, 0, c.ops, pc, |args|) && a.st.funcs <= funcs && Whole(c, funcs)
    ensures !MistakenAll(es[1..], HiddenIn(c.scopes)) && !(DirectCont(es) && es[0].x in HiddenIn(c.scopes))
    decreases es, 1
  {
    hide HiddenIn, Whole, Emits, EmitsAll, CompileAll, ContSafe, Find, MistakenAll;
    if DirectCont(es) {
      DirectArgsRight(es, envs, st, a, args, c, pc, funcs);
    } else {
      hide SameOps;
      EmittedAllRight(es[1..], envs, st, a, c, pc, funcs);
    }
  }

  lemma {:induction false} DirectArgsRight(es: seq<Exp>, envs: seq<Scoped>, st: Store, a: Out, args: seq<Instr>, c: Context, pc: nat,
                                           funcs: seq<Procedure>)
    requires DirectCont(es) && CompileAll(es[1..], envs, st) == Some(a) && DirectAll(es[1..])
    requires args == RewriteFunc(a.code) && EmitsArgs(c, es, pc)
    requires SameOps(args, 0, c.ops, pc, |args|) && a.st.funcs <= funcs && Whole(c, funcs)
    ensures !MistakenAll(es[1..], HiddenIn(c.scopes)) && es[0].x !in HiddenIn(c.scopes)
    decreases es, 0
  {
    hide HiddenIn, Whole, Emits, EmitsAll, Compile, ContSafe, Find, Mistaken, Direct;
    assert es[1..][1..] == es[2..] && es[1..][0] == es[1];
    var x := Compile(es[1], envs, st).value;
    var rest := CompileAll(es[2..], x.envs, x.st).value;
    LambdaCode(es[1], envs, st, x);
    CompileAllGrows(es[2..], x.envs, x.st);
    assert a.code == x.code + rest.code;
    assert args == [LoadFunc(x.code[0].fn)] + rest.code;
    SameOpsAt(args, 0, c.ops, pc, |args|, 0);
    if !NativeCall(c.scopes, es) {
      ClosureFirst(c, es[1..], pc);
    }
    FoundIffHidden(c.scopes, es[0].x);
    assert args[1..1 + |rest.code|] == rest.code;
    SameOpsSlice(rest.code, args, 1, c.ops, pc);
    hide SameOps;
    LambdaIsRight(es[1], envs, st, x, c, c.ops[pc].fn, funcs);
    EmittedAllRight(es[2..], x.envs, x.st, rest, c, pc + 1, funcs);
  }

  lemma LambdaCode(e: Exp, envs: seq<Scoped>, st: Store, out: Out)
    requires e.Lam? && Compile(e, envs, st) == Some(out)
    ensures |out.code| == 1 && out.code[0].LoadClosure? && st.funcs <= out.st.funcs
  {
    CompileGrows(e, envs, st);
    hide CompileAll;
  }

  lemma ClosureFirst(c: Context, es: seq<Exp>, pc: nat)
    requires EmitsAll(c, es, pc) && es != [] && es[0].Lam?
    ensures pc < |c.ops| && c.ops[pc].LoadClosure?
  {
    FirstOfAll(c, es, pc);
    ClosureCode(c, es[0], pc);
  }

  /**
   A compiled module implements its program if and only if no call of a parameter is mistaken for the call of a native
   function that the parameter hides.
   */
  lemma CompiledRightIff(root: Exp, M: Image)
    requires root.Lam? && Direct(root) && StartCompile(root) == Some(M)
    ensures (exists infos :: Implements(M, infos, root)) <==> !Mistaken(root, {})
  {
    hide Direct, Mistaken, Implements;
    if !Mistaken(root, {}) {
      var infos := StartCompileOk(root, M);
    }
    if infos :| Implements(M, infos, root) {
      ImplementsIsRight(root, M, infos);
    }
  }

  lemma ImplementsIsRight(root: Exp, M: Image, infos: seq<Info>)
    requires root.Lam? && Direct(root) && StartCompile(root) == Some(M) && Implements(M, infos, root)
    ensures !Mistaken(root, {})
  {
    hide Direct, Mistaken, Compile, TableOk;
    var out := Compile(root, [], Store([], [])).value;
    EntryIsLast(root, out);
    var c := Context([], M.consts, infos, [], [], out.code);
    LambdaIsRight(root, [], Store([], []), out, c, M.entry, M.funcs);
  }

  // ----- the tables of a procedure, for any program at all

  predicate PairedRecords(envs: seq<Scoped>) {
    forall i {:trigger envs[i]} | 0 <= i < |envs| :: envs[i].bindings == [] <==> envs[i].bindmap == []
  }

  predicate PairedTables(funcs: seq<Procedure>) {
    forall k {:trigger funcs[k]} | 0 <= k < |funcs| :: funcs[k].bindings == [] <==> funcs[k].bindmap == []
  }

  /** Every record and every finished procedure has both a bindmap and bindings, or neither. */
  lemma {:induction false} CompilePairs(e: Exp, envs: seq<Scoped>, st: Store)
    requires Compile(e, envs, st).Some? && PairedRecords(envs) && PairedTables(st.funcs)
    ensures PairedRecords(Compile(e, envs, st).value.envs) && PairedTables(Compile(e, envs, st).value.st.funcs)
    decreases e, 1
  {
    hide PairedRecords, PairedTables, EnvLookup, Intern;
    match e
    case Lit(_) =>
    case Quote(_) =>
    case Var(x) =>
      LookupStores(envs, st, x);
      LookupPairs(envs, st, x);
    case Op(_, args) => CompileAllPairs(args, envs, st);
    case Lam(ps, rest, body) =>
      var env := Scoped(ps, rest, |envs|, false, [], []);
      NewRecordPaired(env, envs);
      CompileAllPairs(body, [env] + envs, st);
      var b := CompileAll(body, [env] + envs, st).value;
      FinishPairs(b.envs, b.st.funcs, b.code);
    case If(test, yes, no) =>
      CompilePairs(test, envs, st);
      var p := Compile(test, envs, st).value;
      CompilePairs(yes, p.envs, p.st);
      var y := Compile(yes, p.envs, p.st).value;
      CompilePairs(no, y.envs, y.st);
    case Call(es) =>
      CompilePairs(es[0], envs, st);
      var f := Compile(es[0], envs, st).value;
      CompileAllPairs(es[1..], f.envs, f.st);
  }

  lemma NewRecordPaired(env: Scoped, envs: seq<Scoped>)
    requires PairedRecords(envs) && env.bindings == [] && env.bindmap == []
    ensures PairedRecords([env] + envs)
  {
    forall i {:trigger ([env] + envs)[i]} | 0 <= i < |[env] + envs|
      ensures ([env] + envs)[i].bindings == [] <==> ([env] + envs)[i].bindmap == []
    {
      if i > 0 {
        assert ([env] + envs)[i] == envs[i - 1];
      }
    }
  }

  lemma FinishPairs(envs: seq<Scoped>, funcs: seq<Procedure>, code: seq<Instr>)
    requires envs != [] && PairedRecords(envs) && PairedTables(funcs)
    ensures PairedRecords(envs[1..]) && PairedTables(funcs + [MakeFunc(code, envs[0])])
  {
    forall i {:trigger envs[1..][i]} | 0 <= i < |envs[1..]| ensures envs[1..][i].bindings == [] <==> envs[1..][i].bindmap == [] {
      assert envs[1..][i] == envs[i + 1];
    }
  }

  lemma LookupPairs(envs: seq<Scoped>, st: Store, x: Name)
    requires EnvLookup(envs, st, x).Some? && PairedRecords(envs)
    ensures PairedRecords(EnvLookup(envs, st, x).value.1)
  {
    hide Search;
  }

  lemma {:induction false} CompileAllPairs(es: seq<Exp>, envs: seq<Scoped>, st: Store)
    requires CompileAll(es, envs, st).Some? && PairedRecords(envs) && PairedTables(st.funcs)
    ensures PairedRecords(CompileAll(es, envs, st).value.envs) && PairedTables(CompileAll(es, envs, st).value.st.funcs)
    decreases es, 0
  {
    hide PairedRecords, PairedTables;
    if es != [] {
      CompilePairs(es[0], envs, st);
      var x := Compile(es[0], envs, st).value;
      CompileAllPairs(es[1..], x.envs, x.st);
    }
  }

  /** So has every procedure of a compiled module. */
  lemma ModulePaired(root: Exp, M: Image)
    requires StartCompile(root) == Some(M)
    ensures PairedTables(M.funcs)
  {
    hide Compile;
    CompilePairs(root, [], Store([], []));
  }
}
