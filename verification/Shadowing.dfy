/** A program whose parameter hides a native function: where the compiler's shortcut goes wrong. */
module Shadowing {
  import opened Wrappers
  import opened Syntax
  import opened Values
  import opened Cps
  import opened Meaning
  import opened Machine
  import opened CodeSpec
  import opened CodeDepth
  import opened Compiler
  import opened VmExpressions
  import opened VmEntry
  import opened VmRuns
  import opened ValueRelation
  import opened CompilerCode
  import opened CpsShortcut

  /** `(lambda () ((lambda (f y) ($cons (f 1) y)) (lambda (x) x) 2))`. */
  function Hiding(f: Name, y: Name, x: Name): Exp {
    Lam([], false, [Call([Lam([f, y], false, [Op(OpCons, [Call([Var(f), Lit(DFixnum(1))]), Var(y)])]),
                          Lam([x], false, [Var(x)]), Lit(DFixnum(2))])])
  }

  // ----- converted

  lemma IdentityConverted(x: Name)
    ensures ConvertLambda(Lam([x], false, [Var(x)]), 1) == (Lam([Gen(1), x], false, [Call([Var(Gen(1)), Var(x)])]), 2)
  {
    var body := [Var(x)];
    assert body[1..] == [];
    assert ConvertFrom([], Var(x), Gen(1), 2) == (None, 2);
    assert ConvertFrom(body, Var(x), Gen(1), 2) == (Some(Call([Var(Gen(1)), Var(x)])), 2);
    assert [Gen(1)] + [x] == [Gen(1), x];
  }

  lemma InnerConverted(f: Name, y: Name)
    ensures var call := Call([Var(f), Lit(DFixnum(1))]);
            var cont := Lam([Gen(3)], false, [Call([Var(Gen(2)), Op(OpCons, [Var(Gen(3)), Var(y)])])]);
            ConvertLambda(Lam([f, y], false, [Op(OpCons, [call, Var(y)])]), 2)
            == (Lam([Gen(2), f, y], false, [Call([Var(f), cont, Lit(DFixnum(1))])]), 4)
  {
    var one := Lit(DFixnum(1));
    var call := Call([Var(f), one]);
    var sum := Op(OpCons, [call, Var(y)]);
    var pass := Call([Var(Gen(2)), Op(OpCons, [Var(Gen(3)), Var(y)])]);
    assert [one][1..] == [] && [Var(f), one][1..] == [one];
    assert MapArgs([], 4) == ([], 4);
    assert [one] + [] == [one] && [Var(f)] + [one] == [Var(f), one];
    assert MapArgs([one], 4) == ([one], 4);
    assert MapArgs([Var(f), one], 4) == ([Var(f), one], 4);
    var c := Call([Var(f), Lam([Gen(3)], false, [pass]), one]);
    assert [Var(f), Lam([Gen(3)], false, [pass])] + [one] == [Var(f), Lam([Gen(3)], false, [pass]), one];
    assert Glue(c, [], [], 4) == (c, 4);
    assert Glue(c, [one], [one], 4) == (c, 4);
    assert Glue(c, [Var(f), one], [Var(f), one], 4) == (c, 4);
    assert Convert(Some(pass), call, Gen(3), 4) == (c, 4);
    assert [Var(y)][1..] == [] && [call, Var(y)][1..] == [Var(y)];
    assert MapArgs([], 3) == ([], 3);
    assert [Var(y)] + [] == [Var(y)] && [Var(Gen(3))] + [Var(y)] == [Var(Gen(3)), Var(y)];
    assert MapArgs([Var(y)], 3) == ([Var(y)], 3);
    assert MapArgs([call, Var(y)], 3) == ([Var(Gen(3)), Var(y)], 4);
    assert [Var(Gen(3)), Var(y)][1..] == [Var(y)];
    assert Glue(pass, [], [], 4) == (pass, 4);
    assert Glue(pass, [Var(y)], [Var(y)], 4) == (pass, 4);
    assert Glue(pass, [call, Var(y)], [Var(Gen(3)), Var(y)], 4) == (c, 4);
    assert !SelfEval(call) && !SelfEval(sum);
    assert Control(None, Gen(2)) == Var(Gen(2));
    assert Convert(None, sum, Gen(2), 3) == (c, 4);
    assert [sum][1..] == [];
    assert ConvertFrom([], sum, Gen(2), 3) == (None, 3);
    assert ConvertFrom([sum], sum, Gen(2), 3) == (Some(c), 4);
    assert [Gen(2)] + [f, y] == [Gen(2), f, y];
  }

  lemma HidingConverted(f: Name, y: Name, x: Name)
    ensures var inner := Lam([f, y], false, [Op(OpCons, [Call([Var(f), Lit(DFixnum(1))]), Var(y)])]);
            var cont := Lam([Gen(3)], false, [Call([Var(Gen(2)), Op(OpCons, [Var(Gen(3)), Var(y)])])]);
            CpsConvert(Lam([], false, [Call([inner, Lam([x], false, [Var(x)]), Lit(DFixnum(2))])]))
            == Lam([Gen(0)], false,
                   [Call([Lam([Gen(2), f, y], false, [Call([Var(f), cont, Lit(DFixnum(1))])]), Var(Gen(0)),
                          Lam([Gen(1), x], false, [Call([Var(Gen(1)), Var(x)])]), Lit(DFixnum(2))])])
  {
    var inner := Lam([f, y], false, [Op(OpCons, [Call([Var(f), Lit(DFixnum(1))]), Var(y)])]);
    var id, two := Lam([x], false, [Var(x)]), Lit(DFixnum(2));
    var es := [inner, id, two];
    IdentityConverted(x);
    InnerConverted(f, y);
    var inner', id' := ConvertLambda(inner, 2).0, ConvertLambda(id, 1).0;
    hide ConvertLambda, Convert;
    assert es[1..] == [id, two] && [id, two][1..] == [two] && [two][1..] == [];
    assert MapArgs([], 1) == ([], 1);
    assert [two] + [] == [two] && [id'] + [two] == [id', two] && [inner'] + [id', two] == [inner', id', two];
    assert MapArgs([two], 1) == ([two], 1);
    assert MapArgs([id, two], 1) == ([id', two], 2);
    assert MapArgs(es, 1) == ([inner', id', two], 4);
    CallConverted(es, [inner', id', two]);
  }

  lemma CallConverted(es: seq<Exp>, ls: seq<Exp>)
    requires |es| == 3 && es[0].Lam? && es[1].Lam? && SelfEval(es[2]) && MapArgs(es, 1) == (ls, 4)
    ensures |ls| == 3 && CpsConvert(Lam([], false, [Call(es)])) == Lam([Gen(0)], false, [Call([ls[0], Var(Gen(0)), ls[1], ls[2]])])
  {
    var c := Call([ls[0], Var(Gen(0))] + ls[1..]);
    assert [ls[0], Var(Gen(0))] + ls[1..] == [ls[0], Var(Gen(0)), ls[1], ls[2]];
    assert es[1..][1..][1..] == [] && es[1..][0] == es[1] && es[1..][1..][0] == es[2];
    assert Glue(c, es[1..][1..][1..], ls[1..][1..][1..], 4) == (c, 4);
    assert Glue(c, es[1..][1..], ls[1..][1..], 4) == (c, 4);
    assert Glue(c, es[1..], ls[1..], 4) == (c, 4);
    assert Glue(c, es, ls, 4) == (c, 4);
    assert Convert(None, Call(es), Gen(0), 1) == (c, 4);
    assert [Call(es)][1..] == [];
    assert ConvertFrom([], Call(es), Gen(0), 1) == (None, 1);
    assert ConvertFrom([Call(es)], Call(es), Gen(0), 1) == (Some(c), 4);
    assert [Gen(0)] + [] == [Gen(0)];
    assert ConvertSeq([Call(es)], Gen(0), 1) == (Some(c), 4);
    hide Convert, ConvertSeq, MapArgs;
    assert ConvertLambda(Lam([], false, [Call(es)]), 0).0 == Lam([Gen(0)], false, [c]);
  }

  // ----- compiled

  const IDENTITY: Procedure := Procedure(2, false, 2, false, 1, [], [], [LoadLocal(1), LoadLocal(0), FuncCall(1)])

  lemma IdentityCompiled(x: Name, outer: Scoped, st: Store)
    requires x.User?
    ensures Compile(Lam([Gen(1), x], false, [Call([Var(Gen(1)), Var(x)])]), [outer], st)
            == Some(Out([LoadClosure(|st.funcs|)], [outer], st.(funcs := st.funcs + [IDENTITY])))
  {
    var k := Gen(1);
    var envs := [Scoped([k, x], false, 1, false, [], [])] + [outer];
    assert [k, x][..1] == [k] && [k][..0] == [];
    assert Position([k], k) == Some(0);
    assert Position([k, x], k) == Some(0) && Position([k, x], x) == Some(1);
    assert Search(envs, k) == Some((0, 0)) && Search(envs, x) == Some((0, 1));
    assert Compile(Var(k), envs, st) == Some(Out([LoadLocal(0)], envs, st));
    assert Compile(Var(x), envs, st) == Some(Out([LoadLocal(1)], envs, st));
    var es := [Var(k), Var(x)];
    assert es[1..] == [Var(x)] && [Var(x)][1..] == [];
    assert CompileAll([], envs, st) == Some(Out([], envs, st));
    assert [LoadLocal(1)] + [] == [LoadLocal(1)];
    assert CompileAll(es[1..], envs, st) == Some(Out([LoadLocal(1)], envs, st));
    assert [LoadLocal(1)] + [LoadLocal(0)] + [FuncCall(1)] == [LoadLocal(1), LoadLocal(0), FuncCall(1)];
    var ops := [LoadLocal(1), LoadLocal(0), FuncCall(1)];
    assert Compile(Call(es), envs, st) == Some(Out(ops, envs, st));
    assert [Call(es)][1..] == [] && ops + [] == ops;
    assert CompileAll([Call(es)], envs, st) == Some(Out(ops, envs, st));
    assert envs[1..] == [outer];
  }

  /** The continuation of the hidden call: it uses two variables of the procedure around it. */
  function Cont(y: Name): Exp { Lam([Gen(3)], false, [Call([Var(Gen(2)), Op(OpCons, [Var(Gen(3)), Var(y)])])]) }

  const CONT: Procedure :=
    Procedure(1, false, 1, false, 2, [(0, 0), (0, 2)], [1],
              [LoadLocal(0), LoadBind(1), Operation(OpCons), LoadBind(0), FuncCall(1)])

  lemma LookupLocal(envs: seq<Scoped>, st: Store, x: Name, slot: nat)
    requires envs != [] && Position(envs[0].names, x) == Some(slot)
    ensures Compile(Var(x), envs, st) == Some(Out([LoadLocal(slot)], envs, st))
  {
  }

  lemma LookupOuter(envs: seq<Scoped>, st: Store, x: Name, slot: nat, env: Scoped, b: nat)
    requires |envs| > 1 && Position(envs[0].names, x) == None && Position(envs[1].names, x) == Some(slot)
    requires EnvBind(envs[0], envs[1].depth, slot) == (env, b)
    ensures Compile(Var(x), envs, st)
            == Some(Out([LoadBind(b)], [env, envs[1].(onheap := true)] + envs[2..], st))
  {
    hide EnvBind;
    assert envs[1..][0] == envs[1];
    assert Search(envs, x) == Some((1, slot));
    assert envs[1 := envs[1].(onheap := true)][0 := env] == [env, envs[1].(onheap := true)] + envs[2..];
  }

  lemma FirstBinding(env: Scoped, slot: nat)
    requires env.bindings == [] && env.bindmap == []
    ensures EnvBind(env, 1, slot) == (env.(bindings := [(0, slot)], bindmap := [1]), 0)
  {
    assert [] + [1] == [1] && [] + [(0, slot)] == [(0, slot)];
  }

  lemma NextBinding(env: Scoped, slot: nat, slot': nat)
    requires env.bindings == [(0, slot)] && env.bindmap == [1] && slot' != slot
    ensures EnvBind(env, 1, slot') == (env.(bindings := [(0, slot), (0, slot')]), 1)
  {
    assert IndexOf([1], 1) == 0;
    assert [(0, slot)][1..] == [];
    assert IndexOf([(0, slot)], (0, slot')) == 1;
    assert [(0, slot)] + [(0, slot')] == [(0, slot), (0, slot')];
  }

  lemma Positions(f: Name, y: Name)
    requires f.User? && y.User? && f != y
    ensures Position([Gen(2), f, y], Gen(2)) == Some(0) && Position([Gen(2), f, y], f) == Some(1)
    ensures Position([Gen(2), f, y], y) == Some(2)
    ensures Position([Gen(3)], Gen(3)) == Some(0) && Position([Gen(3)], Gen(2)) == None && Position([Gen(3)], y) == None
  {
    var g2, g3 := Gen(2), Gen(3);
    assert [g2, f, y][..2] == [g2, f] && [g2, f][..1] == [g2] && [g3][..0] == [];
    assert Position([], g2) == None && Position([], y) == None && Position([g2], g2) == Some(0);
    assert Position([g2, f], g2) == Some(0) && Position([g2, f], f) == Some(1);
  }

  lemma ContCompiled(f: Name, y: Name, own: Scoped, outer: Scoped, st: Store)
    requires f.User? && y.User? && f != y && own.names == [Gen(2), f, y] && own.depth == 1
    ensures Compile(Cont(y), [own, outer], st)
            == Some(Out([LoadClosure(|st.funcs|)], [own.(onheap := true), outer], st.(funcs := st.funcs + [CONT])))
  {
    hide Compile, CompileAll;
    ContLookups(f, y, own, outer, st);
    ContLam(y, own, own.(onheap := true), outer, Scoped([Gen(3)], false, 2, false, [(0, 0), (0, 2)], [1]), st);
  }

  lemma ContLookups(f: Name, y: Name, own: Scoped, outer: Scoped, st: Store)
    requires f.User? && y.User? && f != y && own.names == [Gen(2), f, y] && own.depth == 1
    ensures CompileAll(Cont(y).body, [Scoped([Gen(3)], false, 2, false, [], [])] + [own, outer], st)
            == Some(Out(CONT.ops, [Scoped([Gen(3)], false, 2, false, [(0, 0), (0, 2)], [1]), own.(onheap := true), outer], st))
  {
    var g2, g3 := Gen(2), Gen(3);
    var env0 := Scoped([g3], false, 2, false, [], []);
    var own' := own.(onheap := true);
    var env1 := env0.(bindings := [(0, 0)], bindmap := [1]);
    var env2 := env0.(bindings := [(0, 0), (0, 2)], bindmap := [1]);
    var e0, e1, e2 := [env0] + [own, outer], [env1, own', outer], [env2, own', outer];
    hide EnvLookup, EnvBind, Position, Compile, CompileAll;
    Positions(f, y);
    FirstBinding(env0, 0);
    NextBinding(env1, 0, 2);
    LookupOuter(e0, st, g2, 0, env1, 0);
    assert [env1, own'] + e0[2..] == e1;
    LookupLocal(e1, st, g3, 0);
    LookupOuter(e1, st, y, 2, env2, 1);
    assert own'.(onheap := true) == own' && [env2, own'] + e1[2..] == e2;
    ContBodyCompiled(y, e0, e1, e2, st);
  }

  lemma ContLam(y: Name, own: Scoped, own': Scoped, outer: Scoped, env2: Scoped, st: Store)
    requires CompileAll(Cont(y).body, [Scoped([Gen(3)], false, 2, false, [], [])] + [own, outer], st)
             == Some(Out(CONT.ops, [env2, own', outer], st))
    requires env2 == Scoped([Gen(3)], false, 2, false, [(0, 0), (0, 2)], [1])
    ensures Compile(Cont(y), [own, outer], st)
            == Some(Out([LoadClosure(|st.funcs|)], [own', outer], st.(funcs := st.funcs + [CONT])))
  {
    hide CompileAll;
    assert [env2, own', outer][1..] == [own', outer];
  }

  lemma ContBodyCompiled(y: Name, e0: seq<Scoped>, e1: seq<Scoped>, e2: seq<Scoped>, st: Store)
    requires Compile(Var(Gen(2)), e0, st) == Some(Out([LoadBind(0)], e1, st))
    requires Compile(Var(Gen(3)), e1, st) == Some(Out([LoadLocal(0)], e1, st))
    requires Compile(Var(y), e1, st) == Some(Out([LoadBind(1)], e2, st))
    ensures CompileAll(Cont(y).body, e0, st) == Some(Out(CONT.ops, e2, st))
  {
    hide EnvLookup;
    var sum := Op(OpCons, [Var(Gen(3)), Var(y)]);
    var args := [Var(Gen(3)), Var(y)];
    assert args[1..] == [Var(y)] && [Var(y)][1..] == [];
    assert CompileAll([], e2, st) == Some(Out([], e2, st));
    assert [LoadBind(1)] + [] == [LoadBind(1)] && [LoadLocal(0)] + [LoadBind(1)] == [LoadLocal(0), LoadBind(1)];
    assert CompileAll([Var(y)], e1, st) == Some(Out([LoadBind(1)], e2, st));
    assert CompileAll(args, e1, st) == Some(Out([LoadLocal(0), LoadBind(1)], e2, st));
    var code := [LoadLocal(0), LoadBind(1), Operation(OpCons)];
    assert [LoadLocal(0), LoadBind(1)] + [Operation(OpCons)] == code;
    assert Compile(sum, e1, st) == Some(Out(code, e2, st));
    var es := [Var(Gen(2)), sum];
    assert es[1..] == [sum] && [sum][1..] == [] && code + [] == code;
    assert CompileAll([sum], e1, st) == Some(Out(code, e2, st));
    assert !DirectCont(es);
    assert code + [LoadBind(0)] + [FuncCall(1)] == CONT.ops;
    assert Compile(Call(es), e0, st) == Some(Out(CONT.ops, e2, st));
    assert [Call(es)][1..] == [] && CONT.ops + [] == CONT.ops;
    assert Cont(y).body == [Call(es)];
  }

  const INNER: Procedure :=
    Procedure(3, false, 3, true, 1, [], [], [LoadFunc(0), LoadConst(0), LoadLocal(1), FuncCall(2)])

  lemma InnerCompiled(f: Name, y: Name, outer: Scoped)
    requires f.User? && y.User? && f != y && IsBuiltin(f.s) && !ChangesCont(f.s)
    ensures Compile(Lam([Gen(2), f, y], false, [Call([Var(f), Cont(y), Lit(DFixnum(1))])]), [outer], Store([], []))
            == Some(Out([LoadClosure(1)], [outer], Store([DFixnum(1)], [CONT, INNER])))
  {
    hide EnvLookup, EnvBind, Position, IsBuiltin, ChangesCont;
    var own := Scoped([Gen(2), f, y], false, 1, false, [], []);
    var own' := own.(onheap := true);
    var st0, st1, st2 := Store([], []), Store([], [CONT]), Store([DFixnum(1)], [CONT]);
    var e0, e1 := [own] + [outer], [own', outer];
    assert e0 == [own, outer] && [] + [CONT] == [CONT];
    Positions(f, y);
    LookupLocal(e0, st0, f, 1);
    ContCompiled(f, y, own, outer, st0);
    var one := Lit(DFixnum(1));
    assert IndexOf([], DFixnum(1)) == 0 && [] + [DFixnum(1)] == [DFixnum(1)];
    assert Compile(one, e1, st1) == Some(Out([LoadConst(0)], e1, st2));
    var es := [Var(f), Cont(y), one];
    InnerBodyCompiled(es, f, y, e0, e1, st0, st1, st2);
    assert e1[1..] == [outer] && [CONT] + [INNER] == [CONT, INNER];
  }

  lemma InnerBodyCompiled(es: seq<Exp>, f: Name, y: Name, e0: seq<Scoped>, e1: seq<Scoped>, st0: Store, st1: Store, st2: Store)
    requires es == [Var(f), Cont(y), Lit(DFixnum(1))] && f.User? && IsBuiltin(f.s) && !ChangesCont(f.s)
    requires Compile(Var(f), e0, st0) == Some(Out([LoadLocal(1)], e0, st0))
    requires Compile(Cont(y), e0, st0) == Some(Out([LoadClosure(0)], e1, st1))
    requires Compile(Lit(DFixnum(1)), e1, st1) == Some(Out([LoadConst(0)], e1, st2))
    ensures CompileAll([Call(es)], e0, st0) == Some(Out(INNER.ops, e1, st2))
  {
    hide EnvLookup, EnvBind, IsBuiltin, ChangesCont;
    var one := Lit(DFixnum(1));
    assert es[1..] == [Cont(y), one] && [Cont(y), one][1..] == [one] && [one][1..] == [];
    assert CompileAll([], e1, st2) == Some(Out([], e1, st2));
    assert [LoadConst(0)] + [] == [LoadConst(0)] && [LoadClosure(0)] + [LoadConst(0)] == [LoadClosure(0), LoadConst(0)];
    assert CompileAll([one], e1, st1) == Some(Out([LoadConst(0)], e1, st2));
    assert CompileAll([Cont(y), one], e0, st0) == Some(Out([LoadClosure(0), LoadConst(0)], e1, st2));
    assert DirectCont(es);
    assert [LoadFunc(0)] + [LoadClosure(0), LoadConst(0)][1..] == [LoadFunc(0), LoadConst(0)];
    assert [LoadFunc(0), LoadConst(0)] + [LoadLocal(1)] + [FuncCall(2)] == INNER.ops;
    assert Compile(Call(es), e0, st0) == Some(Out(INNER.ops, e1, st2));
    assert [Call(es)][1..] == [] && INNER.ops + [] == INNER.ops;
    assert CompileAll([], e1, st2) == Some(Out([], e1, st2));
  }

  const ENTRY: Procedure :=
    Procedure(1, false, 1, false, 0, [], [], [LoadLocal(0), LoadClosure(2), LoadConst(1), LoadFunc(1), FuncCall(3)])

  const IMAGE: Image := Image([DFixnum(1), DFixnum(2)], [CONT, INNER, IDENTITY, ENTRY], 3)

  lemma HidingCompiled(f: Name, y: Name, x: Name)
    requires f.User? && y.User? && f != y && IsBuiltin(f.s) && !ChangesCont(f.s) && x.User?
    ensures StartCompile(Lam([Gen(0)], false,
                             [Call([Lam([Gen(2), f, y], false, [Call([Var(f), Cont(y), Lit(DFixnum(1))])]), Var(Gen(0)),
                                    Lam([Gen(1), x], false, [Call([Var(Gen(1)), Var(x)])]), Lit(DFixnum(2))])]))
            == Some(IMAGE)
  {
    hide EnvLookup, EnvBind, IsBuiltin, ChangesCont;
    var root := Scoped([Gen(0)], false, 0, false, [], []);
    var st0, st1 := Store([], []), Store([DFixnum(1)], [CONT, INNER]);
    var st2, st3 := Store([DFixnum(1)], [CONT, INNER, IDENTITY]), Store([DFixnum(1), DFixnum(2)], [CONT, INNER, IDENTITY]);
    var inner := Lam([Gen(2), f, y], false, [Call([Var(f), Cont(y), Lit(DFixnum(1))])]);
    var id := Lam([Gen(1), x], false, [Call([Var(Gen(1)), Var(x)])]);
    var two := Lit(DFixnum(2));
    InnerCompiled(f, y, root);
    IdentityCompiled(x, root, st1);
    assert [CONT, INNER] + [IDENTITY] == [CONT, INNER, IDENTITY];
    assert [Gen(0)][..0] == [] && Position([], Gen(0)) == None;
    LookupLocal([root], st1, Gen(0), 0);
    assert [DFixnum(1)][1..] == [] && IndexOf([DFixnum(1)], DFixnum(2)) == 1 && [DFixnum(1)] + [DFixnum(2)] == [DFixnum(1), DFixnum(2)];
    assert Compile(two, [root], st2) == Some(Out([LoadConst(1)], [root], st3));
    var es := [inner, Var(Gen(0)), id, two];
    EntryBodyCompiled(es, root, st0, st1, st2, st3);
    assert [root] + [] == [root] && [root][1..] == [];
    assert [CONT, INNER, IDENTITY] + [ENTRY] == [CONT, INNER, IDENTITY, ENTRY];
    hide Compile;
    EntryCompiled(es, root, st0, st3);
  }

  lemma EntryCompiled(es: seq<Exp>, root: Scoped, st0: Store, st3: Store)
    requires root == Scoped([Gen(0)], false, 0, false, [], [])
    requires CompileAll([Call(es)], [root], st0) == Some(Out(ENTRY.ops, [root], st3))
    ensures Compile(Lam([Gen(0)], false, [Call(es)]), [], st0)
            == Some(Out([LoadClosure(|st3.funcs|)], [], st3.(funcs := st3.funcs + [ENTRY])))
  {
    hide CompileAll;
    assert [root] + [] == [root] && [root][1..] == [];
  }

  lemma EntryBodyCompiled(es: seq<Exp>, root: Scoped, st0: Store, st1: Store, st2: Store, st3: Store)
    requires |es| == 4 && es[0].Lam?
    requires Compile(es[0], [root], st0) == Some(Out([LoadClosure(1)], [root], st1))
    requires Compile(es[1], [root], st1) == Some(Out([LoadLocal(0)], [root], st1))
    requires Compile(es[2], [root], st1) == Some(Out([LoadClosure(2)], [root], st2))
    requires Compile(es[3], [root], st2) == Some(Out([LoadConst(1)], [root], st3))
    ensures CompileAll([Call(es)], [root], st0) == Some(Out(ENTRY.ops, [root], st3))
  {
    hide EnvLookup, EnvBind;
    var e := [root];
    var a, b, c := es[1..], es[2..], es[3..];
    assert a[1..] == b && b[1..] == c && c[1..] == [];
    assert CompileAll([], e, st3) == Some(Out([], e, st3));
    assert [LoadConst(1)] + [] == [LoadConst(1)] && [LoadClosure(2)] + [LoadConst(1)] == [LoadClosure(2), LoadConst(1)];
    assert [LoadLocal(0)] + [LoadClosure(2), LoadConst(1)] == [LoadLocal(0), LoadClosure(2), LoadConst(1)];
    assert CompileAll(c, e, st2) == Some(Out([LoadConst(1)], e, st3));
    assert CompileAll(b, e, st1) == Some(Out([LoadClosure(2), LoadConst(1)], e, st3));
    assert CompileAll(a, e, st1) == Some(Out([LoadLocal(0), LoadClosure(2), LoadConst(1)], e, st3));
    assert !DirectCont(es);
    assert [LoadFunc(1)] + [LoadClosure(1)][1..] == [LoadFunc(1)];
    assert [LoadLocal(0), LoadClosure(2), LoadConst(1)] + [LoadFunc(1)] + [FuncCall(3)] == ENTRY.ops;
    assert Compile(Call(es), e, st0) == Some(Out(ENTRY.ops, e, st3));
    assert [Call(es)][1..] == [] && ENTRY.ops + [] == ENTRY.ops;
  }

  // ----- run

  const ROOT: MEnv := Frame(0, [Builtin("__exit")], NoEnv)

  /** A thread of the module, in a frame on the heap or on the stack. */
  function At(fn: nat, pc: nat, stack: seq<Val>, locals: Locals, env: MEnv, call: Option<(Val, nat)>): Thread {
    Thread(fn, pc, stack, locals, None, env, call, [])
  }

  lemma Pushes(W: World, fn: nat, pc: nat, stack: seq<Val>, locals: Locals, env: MEnv, v: Val)
    requires fn < 4 && pc < |IMAGE.funcs[fn].ops| && |stack| < 10
    requires Exec(IMAGE, IMAGE.funcs[fn], At(fn, pc, stack, locals, env, None), IMAGE.funcs[fn].ops[pc])
             == Push(At(fn, pc, stack, locals, env, None), v)
    ensures Steps(IMAGE, W, At(fn, pc, stack, locals, env, None), 1) == Some(At(fn, pc + 1, stack + [v], locals, env, None))
  {
    hide Exec;
    PushStep(IMAGE, W, At(fn, pc, stack, locals, env, None), v);
  }

  lemma Calls(W: World, fn: nat, pc: nat, stack: seq<Val>, locals: Locals, env: MEnv, fp: Val, argc: nat)
    requires fn < 4 && pc < |IMAGE.funcs[fn].ops| && IMAGE.funcs[fn].ops[pc] == FuncCall(argc)
    ensures Steps(IMAGE, W, At(fn, pc, stack + [fp], locals, env, None), 1)
            == Some(At(fn, pc + 1, stack, locals, env, Some((fp, argc))))
  {
    FuncCallOk(IMAGE, W, At(fn, pc, stack + [fp], locals, env, None), stack, fp, argc);
  }

  lemma EntryRuns(W: World)
    ensures Steps(IMAGE, W, At(3, 0, [], OnHeap, ROOT, None), 5)
            == Some(At(3, 5, [Builtin("__exit"), Code(2, ROOT), Fixnum(2)], OnHeap, ROOT, Some((Func(1), 3))))
  {
    hide Steps;
    var exit, id := Builtin("__exit"), Code(2, ROOT);
    Pushes(W, 3, 0, [], OnHeap, ROOT, exit);
    Pushes(W, 3, 1, [exit], OnHeap, ROOT, id);
    Pushes(W, 3, 2, [exit, id], OnHeap, ROOT, Fixnum(2));
    Pushes(W, 3, 3, [exit, id, Fixnum(2)], OnHeap, ROOT, Func(1));
    Calls(W, 3, 4, [exit, id, Fixnum(2)], OnHeap, ROOT, Func(1), 3);
    assert [] + [exit] == [exit] && [exit] + [id] == [exit, id] && [exit, id] + [Fixnum(2)] == [exit, id, Fixnum(2)];
    var t := At(3, 0, [], OnHeap, ROOT, None);
    StepsTrans(IMAGE, W, t, 1, At(3, 1, [exit], OnHeap, ROOT, None), 1, At(3, 2, [exit, id], OnHeap, ROOT, None));
    StepsTrans(IMAGE, W, t, 2, At(3, 2, [exit, id], OnHeap, ROOT, None), 1, At(3, 3, [exit, id, Fixnum(2)], OnHeap, ROOT, None));
    var last := At(3, 4, [exit, id, Fixnum(2)] + [Func(1)], OnHeap, ROOT, None);
    StepsTrans(IMAGE, W, t, 3, At(3, 3, [exit, id, Fixnum(2)], OnHeap, ROOT, None), 1, last);
    StepsTrans(IMAGE, W, t, 4, last, 1, At(3, 5, [exit, id, Fixnum(2)], OnHeap, ROOT, Some((Func(1), 3))));
  }

  lemma InnerRuns(W: World, env: MEnv)
    requires env == Frame(1, [Builtin("__exit"), Code(2, ROOT), Fixnum(2)], ROOT)
    ensures Steps(IMAGE, W, At(1, 0, [], OnHeap, env, None), 4)
            == Some(At(1, 4, [Func(0), Fixnum(1)], OnHeap, env, Some((Code(2, ROOT), 2))))
  {
    hide Steps;
    Pushes(W, 1, 0, [], OnHeap, env, Func(0));
    Pushes(W, 1, 1, [Func(0)], OnHeap, env, Fixnum(1));
    Pushes(W, 1, 2, [Func(0), Fixnum(1)], OnHeap, env, Code(2, ROOT));
    Calls(W, 1, 3, [Func(0), Fixnum(1)], OnHeap, env, Code(2, ROOT), 2);
    assert [] + [Func(0)] == [Func(0)] && [Func(0)] + [Fixnum(1)] == [Func(0), Fixnum(1)];
    var t := At(1, 0, [], OnHeap, env, None);
    StepsTrans(IMAGE, W, t, 1, At(1, 1, [Func(0)], OnHeap, env, None), 1, At(1, 2, [Func(0), Fixnum(1)], OnHeap, env, None));
    var last := At(1, 3, [Func(0), Fixnum(1)] + [Code(2, ROOT)], OnHeap, env, None);
    StepsTrans(IMAGE, W, t, 2, At(1, 2, [Func(0), Fixnum(1)], OnHeap, env, None), 1, last);
    StepsTrans(IMAGE, W, t, 3, last, 1, At(1, 4, [Func(0), Fixnum(1)], OnHeap, env, Some((Code(2, ROOT), 2))));
  }

  lemma IdentityRuns(W: World)
    ensures Steps(IMAGE, W, At(2, 0, [Func(0), Fixnum(1)], OnStack(0), ROOT, None), 3)
            == Some(At(2, 3, [Func(0), Fixnum(1), Fixnum(1)], OnStack(0), ROOT, Some((Func(0), 1))))
  {
    hide Steps;
    var s := [Func(0), Fixnum(1)];
    Pushes(W, 2, 0, s, OnStack(0), ROOT, Fixnum(1));
    Pushes(W, 2, 1, s + [Fixnum(1)], OnStack(0), ROOT, Func(0));
    Calls(W, 2, 2, s + [Fixnum(1)], OnStack(0), ROOT, Func(0), 1);
    assert s + [Fixnum(1)] == [Func(0), Fixnum(1), Fixnum(1)];
    var t := At(2, 0, s, OnStack(0), ROOT, None);
    var last := At(2, 2, s + [Fixnum(1)] + [Func(0)], OnStack(0), ROOT, None);
    StepsTrans(IMAGE, W, t, 1, At(2, 1, s + [Fixnum(1)], OnStack(0), ROOT, None), 1, last);
    StepsTrans(IMAGE, W, t, 2, last, 1, At(2, 3, s + [Fixnum(1)], OnStack(0), ROOT, Some((Func(0), 1))));
  }

  lemma InnerEntered(W: World)
    ensures Step(IMAGE, W, At(3, 5, [Builtin("__exit"), Code(2, ROOT), Fixnum(2)], OnHeap, ROOT, Some((Func(1), 3))))
            == Next(At(1, 0, [], OnHeap, Frame(1, [Builtin("__exit"), Code(2, ROOT), Fixnum(2)], ROOT), None))
  {
  }

  lemma IdentityEntered(W: World, env: MEnv)
    ensures Step(IMAGE, W, At(1, 4, [Func(0), Fixnum(1)], OnHeap, env, Some((Code(2, ROOT), 2))))
            == Next(At(2, 0, [Func(0), Fixnum(1)], OnStack(0), ROOT, None))
  {
  }

  /** The frame the continuation asks for is not on the chain of the closure that calls it. */
  lemma ContFails(W: World)
    ensures Step(IMAGE, W, At(2, 3, [Func(0), Fixnum(1), Fixnum(1)], OnStack(0), ROOT, Some((Func(0), 1)))) == Fail
  {
    assert Display(ROOT, 1) == None;
    assert BindEnvs(ROOT, [1]) == None;
  }

  lemma ImageFails(W: World)
    ensures Start(IMAGE) == Some(At(3, 0, [], OnHeap, ROOT, None))
    ensures Interpret(IMAGE, W, At(3, 0, [], OnHeap, ROOT, None), 15) == Broken
  {
    var t0 := At(3, 0, [], OnHeap, ROOT, None);
    var args := [Builtin("__exit"), Code(2, ROOT), Fixnum(2)];
    var env := Frame(1, args, ROOT);
    var t5, t6 := At(3, 5, args, OnHeap, ROOT, Some((Func(1), 3))), At(1, 0, [], OnHeap, env, None);
    var t10, t11 := At(1, 4, [Func(0), Fixnum(1)], OnHeap, env, Some((Code(2, ROOT), 2))),
                    At(2, 0, [Func(0), Fixnum(1)], OnStack(0), ROOT, None);
    var t14 := At(2, 3, [Func(0), Fixnum(1), Fixnum(1)], OnStack(0), ROOT, Some((Func(0), 1)));
    EntryRuns(W);
    InnerEntered(W);
    InnerRuns(W, env);
    IdentityEntered(W, env);
    IdentityRuns(W);
    ContFails(W);
    assert Start(IMAGE) == Some(t0);
    hide Step, Steps, Interpret, At, Start;
    OneStep(IMAGE, W, t5, t6);
    OneStep(IMAGE, W, t10, t11);
    StepsTrans(IMAGE, W, t0, 5, t5, 1, t6);
    StepsTrans(IMAGE, W, t0, 6, t6, 4, t10);
    StepsTrans(IMAGE, W, t0, 10, t10, 1, t11);
    StepsTrans(IMAGE, W, t0, 11, t11, 3, t14);
    InterpretSteps(IMAGE, W, t0, 14, t14, 1);
    EndsBroken(W, t14);
  }

  lemma EndsBroken(W: World, t: Thread)
    requires Step(IMAGE, W, t) == Fail
    ensures Interpret(IMAGE, W, t, 1) == Broken
  {
    hide Step;
  }

  // ----- the source

  /** Two expressions that call nothing. */
  lemma EvalTwo(W: World, x: Exp, y: Exp, env: Env, fuel: nat, v: Val, w: Val)
    requires Eval(W, x, env, [], fuel) == Ok(v, []) && Eval(W, y, env, [], fuel) == Ok(w, [])
    ensures EvalAll(W, [x, y], env, [], fuel) == Ok([v, w], [])
  {
    hide Eval;
    assert [x, y][1..] == [y] && [y][1..] == [];
    assert EvalAll(W, [], env, [], fuel) == Ok([], []);
    assert EvalAll(W, [y], env, [], fuel) == Ok([w] + [], []);
    assert [w] + [] == [w] && [v] + [w] == [v, w];
  }

  lemma IdentityApplies(W: World, x: Name, env: Env, v: Val)
    ensures Apply(W, Closure([x], false, [Var(x)], env), [v], [], 1) == Ok(v, [])
  {
    assert [x][..0] == [] && Position([x], x) == Some(0);
    assert Lookup(Rib([x], [v], env), x) == Some(v);
  }

  lemma InnerCalls(W: World, f: Name, y: Name, x: Name, env: Env)
    requires f != y
    ensures var rib := Rib([f, y], [Closure([x], false, [Var(x)], env), Fixnum(2)], env);
            && Eval(W, Call([Var(f), Lit(DFixnum(1))]), rib, [], 1) == Ok(Fixnum(1), [])
            && Eval(W, Var(y), rib, [], 1) == Ok(Fixnum(2), [])
  {
    var idc := Closure([x], false, [Var(x)], env);
    var rib := Rib([f, y], [idc, Fixnum(2)], env);
    assert [f, y][..1] == [f] && [f][..0] == [];
    assert Position([f, y], y) == Some(1) && Position([f], f) == Some(0) && Position([f, y], f) == Some(0);
    assert Eval(W, Var(f), rib, [], 1) == Ok(idc, []);
    assert Eval(W, Lit(DFixnum(1)), rib, [], 1) == Ok(Fixnum(1), []);
    EvalTwo(W, Var(f), Lit(DFixnum(1)), rib, 1, idc, Fixnum(1));
    assert [idc, Fixnum(1)][1..] == [Fixnum(1)];
    IdentityApplies(W, x, env, Fixnum(1));
  }

  lemma InnerApplies(W: World, f: Name, y: Name, x: Name, env: Env, body: seq<Exp>)
    requires f != y && body == [Op(OpCons, [Call([Var(f), Lit(DFixnum(1))]), Var(y)])]
    ensures Apply(W, Closure([f, y], false, body, env), [Closure([x], false, [Var(x)], env), Fixnum(2)], [], 2)
            == Ok(Pair(Fixnum(1), Fixnum(2)), [])
  {
    var rib := Rib([f, y], [Closure([x], false, [Var(x)], env), Fixnum(2)], env);
    InnerCalls(W, f, y, x, env);
    EvalTwo(W, Call([Var(f), Lit(DFixnum(1))]), Var(y), rib, 1, Fixnum(1), Fixnum(2));
    assert Eval(W, body[0], rib, [], 1) == Ok(Pair(Fixnum(1), Fixnum(2)), []);
  }

  lemma SourceRuns(W: World, f: Name, y: Name, x: Name)
    requires f != y
    ensures Apply(W, Closure([], false, Hiding(f, y, x).body, Empty), [], [], 3) == Ok(Pair(Fixnum(1), Fixnum(2)), [])
  {
    var env := Rib([], [], Empty);
    var body := [Op(OpCons, [Call([Var(f), Lit(DFixnum(1))]), Var(y)])];
    var inner, id, two := Lam([f, y], false, body), Lam([x], false, [Var(x)]), Lit(DFixnum(2));
    var vs := [Closure([f, y], false, body, env), Closure([x], false, [Var(x)], env), Fixnum(2)];
    InnerApplies(W, f, y, x, env, body);
    assert vs[1..] == [Closure([x], false, [Var(x)], env), Fixnum(2)];
    hide Apply;
    EvalTwo(W, id, two, env, 2, vs[1], vs[2]);
    var es := [inner, id, two];
    assert es[1..] == [id, two];
    assert [vs[0]] + [vs[1], vs[2]] == vs;
    assert EvalAll(W, es, env, [], 2) == Ok(vs, []);
    assert Eval(W, Call(es), env, [], 2) == Ok(Pair(Fixnum(1), Fixnum(2)), []);
    hide Eval;
    MainApplies(W, Call(es), env, Pair(Fixnum(1), Fixnum(2)));
  }

  lemma MainApplies(W: World, e: Exp, env: Env, v: Val)
    requires env == Rib([], [], Empty) && Eval(W, e, env, [], 2) == Ok(v, [])
    ensures Apply(W, Closure([], false, [e], Empty), [], [], 3) == Ok(v, [])
  {
    hide Eval;
  }

  /**
   A program with a parameter named like a native function, for instance `list`: the source computes a pair, but the
   continuation of the call is compiled as if the native function were called, and the machine stops with a null
   environment. So what the compiler does with risky programs matters.
   */
  lemma HidingBreaks(W: World, f: Name, y: Name, x: Name) returns (t: Thread)
    requires f.User? && y.User? && f != y && x.User? && IsBuiltin(f.s) && !ChangesCont(f.s)
    ensures Apply(W, Closure([], false, Hiding(f, y, x).body, Empty), [], [], 3) == Ok(Pair(Fixnum(1), Fixnum(2)), [])
    ensures StartCompile(CpsConvert(Hiding(f, y, x))) == Some(IMAGE) && FitsAll(IMAGE)
    ensures Start(IMAGE) == Some(t) && Interpret(IMAGE, W, t, 15) == Broken
    ensures Source(Hiding(f, y, x)) && Risky(Cut(Hiding(f, y, x)), {}, true)
  {
    hide Apply, StartCompile, CpsConvert, Interpret, Source, Risky, Cut, IsBuiltin, ChangesCont, FitsAll;
    ImageFits();
    SourceRuns(W, f, y, x);
    HidingConverted(f, y, x);
    HidingCompiled(f, y, x);
    ImageFails(W);
    t := At(3, 0, [], OnHeap, ROOT, None);
    HidingIsSource(f, y, x);
  }

  lemma ImageFits()
    ensures FitsAll(IMAGE)
  {
    forall k {:trigger IMAGE.funcs[k]} | 0 <= k < |IMAGE.funcs| ensures Fits(IMAGE.funcs[k]) {
      PeakAtMost(IMAGE.funcs[k].ops, 0, |IMAGE.funcs[k].ops|, 0);
    }
  }

  lemma HidingIsSource(f: Name, y: Name, x: Name)
    requires f.User? && y.User? && f != y && x.User? && IsBuiltin(f.s) && !ChangesCont(f.s)
    ensures Source(Hiding(f, y, x)) && Risky(Cut(Hiding(f, y, x)), {}, true)
  {
    hide IsBuiltin, ChangesCont;
    var one, two := Lit(DFixnum(1)), Lit(DFixnum(2));
    var call := Call([Var(f), one]);
    var sum := Op(OpCons, [call, Var(y)]);
    var inner, id := Lam([f, y], false, [sum]), Lam([x], false, [Var(x)]);
    var main := Call([inner, id, two]);
    SourceTwo(Var(f), one);
    SourceTwo(call, Var(y));
    SourceOne(sum);
    SourceOne(Var(x));
    SourceTwo(id, two);
    SourceCons(inner, [id, two]);
    assert [inner] + [id, two] == [inner, id, two];
    SourceOne(main);
    HidingIsRisky(f, y, x);
  }

  lemma CutOne(e: Exp)
    ensures CutBody([e]) == [Cut(e)]
  {
    hide Cut;
    assert CutFrom([e][1..], e) == [];
  }

  lemma CutTwo(x: Exp, y: Exp)
    ensures CutAll([x, y]) == [Cut(x), Cut(y)]
  {
    hide Cut;
    assert [x, y][1..] == [y] && [y][1..] == [];
    assert CutAll([]) == [];
    assert CutAll([y]) == [Cut(y)];
  }

  lemma HidingIsRisky(f: Name, y: Name, x: Name)
    requires ContSafe(f) && f != y
    ensures Risky(Cut(Hiding(f, y, x)), {}, true)
  {
    hide IsBuiltin, ChangesCont;
    var one, two := Lit(DFixnum(1)), Lit(DFixnum(2));
    var call := Call([Var(f), one]);
    var sum := Op(OpCons, [call, Var(y)]);
    var inner, id := Lam([f, y], false, [sum]), Lam([x], false, [Var(x)]);
    var rest := [id, two];
    var main := Call([inner] + rest);
    assert [inner] + rest == [inner, id, two];
    CutTwo(Var(f), one);
    CutTwo(call, Var(y));
    CutOne(sum);
    CutOne(main);
    var hidden := Hidden([f, y]) + (Hidden([]) + {});
    assert f in [f, y];
    assert f in hidden;
    assert Risky(Cut(call), hidden, false);
    assert Risky(Cut(sum), hidden, true);
    assert Risky(Cut(inner), Hidden([]) + {}, false);
    assert ([inner] + rest)[1..] == rest;
    assert CutAll([inner] + rest) == [Cut(inner)] + CutAll(rest);
    assert RiskyAll([Cut(inner)] + CutAll(rest), Hidden([]) + {});
    assert Risky(Cut(main), Hidden([]) + {}, true);
  }

  lemma SourceCons(e: Exp, es: seq<Exp>)
    requires Source(e) && SourceAll(es)
    ensures SourceAll([e] + es)
  {
    hide Source;
    assert ([e] + es)[1..] == es;
  }

  lemma SourceOne(e: Exp)
    requires Source(e)
    ensures SourceAll([e])
  {
    hide Source;
    assert [e][1..] == [];
  }

  lemma SourceTwo(x: Exp, y: Exp)
    requires Source(x) && Source(y)
    ensures SourceAll([x, y])
  {
    hide Source;
    SourceOne(y);
    assert [x, y][1..] == [y];
  }
}
