/** From source programs to the virtual machine. */
module Chain {
  import opened Wrappers
  import opened Syntax
  import opened Values
  import opened Cps
  import opened Meaning
  import opened ValueRelation
  import opened CpsSteps
  import opened CpsCorrect
  import opened CpsFaithful
  import opened CodeSpec
  import CodeDepth
  import opened Machine
  import opened Compiler
  import Assembler
  import Compilation
  import Interpreter
  import Loader
  import opened Bytes
  import opened Fasl
  import opened FaslRoundTrip
  import opened ModuleFile
  import opened ModuleRoundTrip
  import opened ModuleWidths
  import opened CompilerCode
  import opened VmEntry
  import opened VmReached
  import opened VmRuns
  import opened CompilerExact
  import opened CpsForm
  import opened CpsShortcut
  import opened CompilerTotal
  import opened CpsTotal
  import opened Discipline

  /**
   A program: a procedure without parameters. What it means is what its cut means, which for tidy programs is the program
   itself (`CutIffUntidy`). It must not be `Risky`, which the compiler would get wrong (`CompiledRightIffSafe`).
   */
  predicate Program(e: Exp) {
    e.Lam? && e.ps == [] && !e.rest && Source(e) && !Risky(Cut(e), {}, true)
  }

  /** The module of a converted program implements it if and only if the program, as far as conversion keeps it, is not risky. */
  lemma CompiledRightIffSafe(e: Exp, M: Image)
    requires e.Lam? && Source(e) && StartCompile(CpsConvert(e)) == Some(M)
    ensures (exists infos :: Implements(M, infos, CpsConvert(e))) <==> !Risky(Cut(e), {}, true)
  {
    hide StartCompile, Implements, Source, Cut;
    ConvertLambdaDirect(e, 0);
    LambdaRisk(e, 0, {});
    CompiledRightIff(CpsConvert(e), M);
  }

  function MainVal(e: Exp): Val
    requires e.Lam?
  {
    Closure(e.ps, e.rest, e.body, Empty)
  }

  /** The converted program, given `__exit`. */
  function Launch(e: Exp): Config
    requires e.Lam?
  {
    At(Call([CpsConvert(e), Var(User("__exit"))]), Empty)
  }

  lemma ConvertedShape(e: Exp) returns (b: Exp)
    requires e.Lam? && e.ps == [] && !e.rest && e.body != []
    ensures CpsConvert(e) == Lam([Gen(0)], false, [b])
  {
    hide ConvertFrom;
    b := ConvertSeq(e.body, Gen(0), 1).0.value;
    assert [Gen(0)] + e.ps == [Gen(0)];
  }

  /** The first call of a converted program enters its body. */
  lemma ConvertedStarts(W: World, e: Exp, b: Exp, F: nat)
    requires e.Lam? && CpsConvert(e) == Lam([Gen(0)], false, [b])
    ensures Run(W, Launch(e), [], F + 1) == Run(W, At(b, Rib([Gen(0)], [Builtin("__exit")], Empty)), [], F)
  {
    hide CpsConvert, Leads, Run, IsBuiltin;
    var exit := Builtin("__exit");
    var f := Closure([Gen(0)], false, [b], Empty);
    var es := [CpsConvert(e), Var(User("__exit"))];
    var c := At(b, Rib([Gen(0)], [exit], Empty));
    ExitIsBound();
    TrivTwo(es[0], es[1], Empty, f, exit);
    assert [f] + [exit] == [f, exit];
    hide Triv, TrivAll;
    StepCall(W, es, Empty, [], f, [exit]);
    StepClosure(W, f, [exit], [exit], []);
    LeadsTrans(W, At(Call(es), Empty), [], 0, Enter(f, [exit]), [], 1, c, []);
    LeadsAt(W, At(Call(es), Empty), 1, c, F);
  }

  lemma LeadsAt(W: World, c1: Config, cost: nat, c2: Config, F: nat)
    requires Leads(W, c1, [], cost, c2, [])
    ensures Run(W, c1, [], F + cost) == Run(W, c2, [], F)
  {
    hide Run;
  }

  /** The virtual machine runs the module compiled from a converted program as the converted program runs. */
  lemma ModuleMirrors(W: World, e: Exp, M: Image, F: nat) returns (t: Thread, n: nat)
    requires Program(e) && StartCompile(CpsConvert(e)) == Some(M) && FitsAll(M)
    ensures Start(M) == Some(t) && Mirrors(M, W, t, Run(W, Launch(e), [], F + 1), F, n)
  {
    hide Mirrors, Run, FitsAll, Implements, StartCompile, Direct, Risky, Interpret;
    assert e.body != [] by {
      hide SourceAll;
    }
    var b := ConvertedShape(e);
    ConvertLambdaDirect(e, 0);
    LambdaRisk(e, 0, {});
    var infos := StartCompileOk(CpsConvert(e), M);
    ConvertedIsSteady(W, e, b, F);
    t, n := ModuleRunsAsProgram(M, W, infos, CpsConvert(e), F);
    ConvertedStarts(W, e, b, F);
  }

  /**
   Conversion and compilation together: a program that computes `v` exits the virtual machine with the same value, as
   far as native functions can tell, after the same calls of native functions.
   */
  lemma CompilationPreservesMeaning(W: World, e: Exp, M: Image, fuel: nat, v: Val, trace: seq<Event>)
    returns (t: Thread, n: nat, w: Val)
    requires Program(e) && StartCompile(CpsConvert(e)) == Some(M) && FitsAll(M)
    requires Apply(W, MainVal(Cut(e)), [], [], fuel) == Ok(v, trace)
    ensures Start(M) == Some(t) && Interpret(M, W, t, n) == Done(w, trace) && Observe(w) == Observe(v)
  {
    hide Run, FitsAll, StartCompile, Risky, Interpret, CpsConvert, Source, Apply, Related, Observe;
    var steps, u := ConversionMeansCut(W, e, fuel, v, trace);
    t, n := ModuleMirrors(W, e, M, steps);
    assert Run(W, Launch(e), [], steps + 1) == Done(u, trace);
    w := Interpret(M, W, t, n).v;
  }

  /** A program that does not end keeps the virtual machine running, without an error. */
  lemma CompilationPreservesDivergence(W: World, e: Exp, M: Image, F: nat) returns (t: Thread)
    requires Program(e) && StartCompile(CpsConvert(e)) == Some(M) && FitsAll(M)
    requires Apply(W, MainVal(Cut(e)), [], [], F + 1) == Timeout
    ensures Start(M) == Some(t) && Interpret(M, W, t, F) == Running
  {
    hide Run, FitsAll, StartCompile, Risky, Interpret, CpsConvert, Source, Apply, Related, Observe;
    ConversionPreservesDivergence(W, e, F + 1);
    var n;
    t, n := ModuleMirrors(W, e, M, F);
    assert Run(W, Launch(e), [], F + 1) == Running;
  }

  lemma {:induction false} InterpretEndsOnce(M: Image, W: World, t: Thread, n: nat, m: nat)
    requires Interpret(M, W, t, n) != Running && n <= m
    ensures Interpret(M, W, t, m) == Interpret(M, W, t, n)
    decreases n
  {
    hide Step;
    if n > 0 && Step(M, W, t).Next? {
      InterpretEndsOnce(M, W, Step(M, W, t).t, n - 1, m - 1);
    }
  }

  /**
   Where the source raises no error, the virtual machine raises none, and exits with nothing but what the source
   computes, after exactly its native calls.
   */
  lemma CompilationIsFaithful(W: World, e: Exp, M: Image, t: Thread, F: nat)
    requires Program(e) && StartCompile(CpsConvert(e)) == Some(M) && FitsAll(M) && Start(M) == Some(t)
    requires !Apply(W, MainVal(Cut(e)), [], [], F + 1).Stuck?
    ensures !Interpret(M, W, t, F).Broken?
    ensures Interpret(M, W, t, F).Done? ==>
              exists v :: Apply(W, MainVal(Cut(e)), [], [], F + 1) == Ok(v, Interpret(M, W, t, F).trace)
                          && Observe(v) == Observe(Interpret(M, W, t, F).v)
  {
    hide FitsAll, StartCompile, Risky, Interpret, CpsConvert, Source, Apply, Observe;
    match Apply(W, MainVal(Cut(e)), [], [], F + 1)
    case Ok(v, trace) =>
      var t1, n, w := CompilationPreservesMeaning(W, e, M, F + 1, v, trace);
      if Interpret(M, W, t, F) != Running {
        if n <= F {
          InterpretEndsOnce(M, W, t, n, F);
        } else {
          InterpretEndsOnce(M, W, t, F, n);
        }
      }
    case Timeout =>
      var t1 := CompilationPreservesDivergence(W, e, M, F);
    case Stuck =>
  }

  /** Whatever becomes of its run, the machine keeps to static scoping and to the operands of its code. */
  lemma ProgramThreads(W: World, e: Exp, M: Image, s: Thread, n: nat, t: Thread) returns (infos: seq<Info>)
    requires Program(e) && StartCompile(CpsConvert(e)) == Some(M) && Start(M) == Some(s) && Steps(M, W, s, n) == Some(t)
    ensures Implements(M, infos, CpsConvert(e)) && Reached(M, W, infos, t)
  {
    hide StartCompile, Direct, Risky, Implements, Reached, Steps, CodeDepth.Peak;
    assert e.body != [] by {
      hide SourceAll;
    }
    var b := ConvertedShape(e);
    ConvertLambdaDirect(e, 0);
    LambdaRisk(e, 0, {});
    infos := StartCompileOk(CpsConvert(e), M);
    ModuleThreads(M, W, infos, CpsConvert(e), s, n, t);
  }

  lemma EntryOk(e: Exp, M: Image)
    requires Program(e) && StartCompile(CpsConvert(e)) == Some(M)
    ensures M.entry < |M.funcs| && M.funcs[M.entry].envSize == 1
  {
    hide StartCompile, Direct, Risky, ProcedureOk;
    assert e.body != [] by {
      hide SourceAll;
    }
    var b := ConvertedShape(e);
    ConvertLambdaDirect(e, 0);
    LambdaRisk(e, 0, {});
    var infos := StartCompileOk(CpsConvert(e), M);
    EntrySize(M, infos, CpsConvert(e));
  }

  lemma EntrySize(M: Image, infos: seq<Info>, e: Exp)
    requires Implements(M, infos, e)
    ensures M.entry < |M.funcs| && M.funcs[M.entry].envSize == |e.ps|
  {
    hide EmitsAll, BindmapOk, NeedsHeap;
    assert ProcedureOk(M.consts, infos, M.funcs[M.entry], infos[M.entry]);
  }

  /** The frame and the bindings of a procedure fit the signed 16-bit fields of the loader. */
  predicate NarrowAll(fs: seq<Procedure>) {
    forall k {:trigger fs[k]} | 0 <= k < |fs| :: fs[k].envSize < 0x8000 && ShortBindings(fs[k].bindings)
  }

  /** No compiled procedure has a bindmap without bindings, so only widths decide whether its module comes back from a file. */
  lemma CompiledModuleLoads(root: Exp, M: Image)
    requires StartCompile(root) == Some(M)
    ensures (Assemble(M).Some? && Parse(Assemble(M).value) == Some(M))
            == (Assemblable(M) && SurviveAll(M.consts) && NarrowAll(M.funcs))
  {
    hide StartCompile, Assemble, Parse, Survives, ShortBindings, Assemblable;
    LoadsAsAssembled(M);
    ModulePaired(root, M);
    forall k {:trigger M.funcs[k]} | 0 <= k < |M.funcs|
      ensures Loadable(M.funcs[k]) == (M.funcs[k].envSize < 0x8000 && ShortBindings(M.funcs[k].bindings))
    {
    }
    assert LoadableAll(M.funcs) == NarrowAll(M.funcs);
  }

  /** A program compiles if and only if what conversion keeps of it has no unknown variable and no unknown literal. */
  lemma ProgramCompilesIff(e: Exp)
    requires e.Lam? && Source(e)
    ensures StartCompile(CpsConvert(e)).Some? <==> Defined(Cut(e), iset{})
  {
    hide StartCompile, Source, Cut, Compilable, Defined;
    LambdaIsLam(e, 0);
    StartCompileSucceedsIff(CpsConvert(e));
    ConvertedCompilableIff(e);
  }

  /**
   A program is converted, compiled, written to a file, loaded from it and run for at most `n` turns of the interpreter.
   Where nothing exceeds the widths of the file and of the machine, and the source raises no error, the run raises none,
   and it ends with nothing but what the source computes.
   */
  method BuildAndRun(W: World, e: Exp, n: nat) returns (image: Option<Image>, file: Option<seq<Byte>>, out: Option<Outcome>)
    requires Program(e)
    ensures image == StartCompile(CpsConvert(e)) && (image.Some? <==> Defined(Cut(e), iset{}))
    ensures file == if image.Some? then Assemble(image.value) else None
    ensures file.Some? <==> image.Some? && Assemblable(image.value)
    ensures Defined(Cut(e), iset{}) && Assemblable(image.value) && SurviveAll(image.value.consts)
            && NarrowAll(image.value.funcs) && FitsAll(image.value)
            && !Apply(W, MainVal(Cut(e)), [], [], n + 1).Stuck? ==>
              && out.Some? && !out.value.Broken?
              && (out.value.Done? ==>
                    exists v :: Apply(W, MainVal(Cut(e)), [], [], n + 1) == Ok(v, out.value.trace) && Observe(v) == Observe(out.value.v))
  {
    hide FitsAll, StartCompile, Risky, Interpret, CpsConvert, Source, Apply, Observe, Direct, Assemble, Parse, Survives,
         NarrowAll, Assemblable, Defined;
    file, out := None, None;
    ProgramCompilesIff(e);
    image := Compilation.Start(CpsConvert(e));
    if image.None? {
      return;
    }
    file := Assembler.WriteModule(image.value);
    AssembledIff(image.value);
    if file.None? {
      return;
    }
    var loaded := Loader.Load(file.value);
    CompiledModuleLoads(CpsConvert(e), image.value);
    EntryOk(e, image.value);
    if loaded == image {
      var vm := new Interpreter.Vm(loaded.value);
      ghost var t := vm.Abstract(None);
      var result := vm.Eval(W, n);
      out := Some(result);
      if FitsAll(image.value) && !Apply(W, MainVal(Cut(e)), [], [], n + 1).Stuck? {
        CompilationIsFaithful(W, e, image.value, t, n);
      }
    }
  }
}
