/** Which expressions compile: when scheme/compiler/compiler.scm raises no error. */
module CompilerTotal {
  import opened Wrappers
  import opened Syntax
  import opened Values
  import opened Machine
  import opened CodeSpec
  import opened Compiler
  import opened CompilerState

  /** The literals that evaluate to themselves: characters, numbers, strings and booleans. */
  predicate SelfQuoting(d: Datum) { d.DChar? || d.DFixnum? || d.DString? || d.DBool? }

  /** Bound by an enclosing procedure, or the name of a native function. */
  ghost predicate Known(x: Name, bound: iset<Name>) { x in bound || (x.User? && IsBuiltin(x.s)) }

  ghost function Names(ps: seq<Name>): iset<Name> { iset x | x in ps }

  /**
   The expressions that compile where the names in `bound` are: no unknown variable, operators with their arity, literals
   of the four kinds, rest parameters named, no empty call, and no call of a variable without an argument, whose first
   argument the compiler looks at.
   */
  ghost predicate Compilable(e: Exp, bound: iset<Name>)
    decreases e, 1
  {
    match e
    case Lit(d) => SelfQuoting(d)
    case Quote(_) => true
    case Var(x) => Known(x, bound)
    case Op(op, args) => |args| == Arity(op) && CompilableAll(args, bound)
    case Lam(ps, rest, body) => (rest ==> ps != []) && CompilableAll(body, bound + Names(ps))
    case If(test, yes, no) => Compilable(test, bound) && Compilable(yes, bound) && Compilable(no, bound)
    case Call(es) => es != [] && (es[0].Var? ==> |es| > 1) && CompilableAll(es, bound)
  }

  ghost predicate CompilableAll(es: seq<Exp>, bound: iset<Name>)
    decreases es, 0
  {
    es == [] || (Compilable(es[0], bound) && CompilableAll(es[1..], bound))
  }

  /** The parameters of the procedures around. */
  ghost function BoundIn(scopes: seq<Scope>): iset<Name> {
    if scopes == [] then iset{} else BoundIn(scopes[1..]) + Names(scopes[0].names)
  }

  lemma {:induction false} FoundIffBound(scopes: seq<Scope>, x: Name)
    ensures Find(scopes, x).Some? <==> x in BoundIn(scopes)
    decreases |scopes|
  {
    if scopes != [] {
      FoundIffBound(scopes[1..], x);
    }
  }

  lemma BoundInside(e: Exp, scopes: seq<Scope>)
    requires e.Lam?
    ensures BoundIn(Inside(e, scopes)) == BoundIn(scopes) + Names(e.ps)
  {
    hide NeedsHeap;
    assert Inside(e, scopes)[1..] == scopes;
  }

  lemma VariableCompilesIff(envs: seq<Scoped>, st: Store, scopes: seq<Scope>, x: Name)
    requires Matches(envs, scopes)
    ensures EnvLookup(envs, st, x).Some? <==> Known(x, BoundIn(scopes))
  {
    hide Matches, Find, Search, BoundIn, IsBuiltin;
    SearchIsFind(envs, scopes, x);
    FoundIffBound(scopes, x);
  }

  /** Compilation succeeds on exactly these expressions, whatever was compiled before. */
  lemma {:induction false} CompileSucceedsIff(e: Exp, envs: seq<Scoped>, st: Store, scopes: seq<Scope>)
    requires Matches(envs, scopes)
    ensures Compile(e, envs, st).Some? <==> Compilable(e, BoundIn(scopes))
    decreases e, 1
  {
    hide Matches, BoundIn, Known;
    match e
    case Lit(_) =>
    case Quote(_) =>
    case Var(x) => VariableCompilesIff(envs, st, scopes, x);
    case Op(_, args) => CompileAllSucceedsIff(args, envs, st, scopes);
    case Lam(ps, rest, body) =>
      MatchesInside(e, envs, scopes);
      BoundInside(e, scopes);
      CompileAllSucceedsIff(body, [Scoped(ps, rest, |envs|, false, [], [])] + envs, st, Inside(e, scopes));
    case If(test, yes, no) =>
      CompileSucceedsIff(test, envs, st, scopes);
      if Compile(test, envs, st).Some? {
        var p := Compile(test, envs, st).value;
        StillMatches(test, envs, st, scopes);
        CompileSucceedsIff(yes, p.envs, p.st, scopes);
        if Compile(yes, p.envs, p.st).Some? {
          var y := Compile(yes, p.envs, p.st).value;
          StillMatches(yes, p.envs, p.st, scopes);
          CompileSucceedsIff(no, y.envs, y.st, scopes);
        }
      }
    case Call(es) =>
      if es != [] {
        CompileSucceedsIff(es[0], envs, st, scopes);
        if Compile(es[0], envs, st).Some? {
          StillMatches(es[0], envs, st, scopes);
          CompileAllSucceedsIff(es[1..], Compile(es[0], envs, st).value.envs, Compile(es[0], envs, st).value.st, scopes);
        }
      }
  }

  lemma StillMatches(e: Exp, envs: seq<Scoped>, st: Store, scopes: seq<Scope>)
    requires Matches(envs, scopes) && Compile(e, envs, st).Some?
    ensures Matches(Compile(e, envs, st).value.envs, scopes)
  {
    hide Matches, Raised, Compile;
    CompileRaises(e, envs, st, scopes);
    RaisedMatches(envs, Compile(e, envs, st).value.envs, scopes, Free(e), Captured(e));
  }

  lemma {:induction false} CompileAllSucceedsIff(es: seq<Exp>, envs: seq<Scoped>, st: Store, scopes: seq<Scope>)
    requires Matches(envs, scopes)
    ensures CompileAll(es, envs, st).Some? <==> CompilableAll(es, BoundIn(scopes))
    decreases es, 0
  {
    hide Matches, BoundIn, Known;
    if es != [] {
      CompileSucceedsIff(es[0], envs, st, scopes);
      if Compile(es[0], envs, st).Some? {
        StillMatches(es[0], envs, st, scopes);
        CompileAllSucceedsIff(es[1..], Compile(es[0], envs, st).value.envs, Compile(es[0], envs, st).value.st, scopes);
      }
    }
  }

  /** A procedure is compiled to a module if and only if it is compilable where nothing is bound. */
  lemma StartCompileSucceedsIff(root: Exp)
    requires root.Lam?
    ensures StartCompile(root).Some? <==> Compilable(root, iset{})
  {
    hide Compile;
    assert BoundIn([]) == iset{};
    CompileSucceedsIff(root, [], Store([], []), []);
    if Compile(root, [], Store([], [])).Some? {
      StoresProcedure(root);
    }
  }

  lemma StoresProcedure(root: Exp)
    requires root.Lam? && Compile(root, [], Store([], [])).Some?
    ensures Compile(root, [], Store([], [])).value.st.funcs != []
  {
    hide CompileAll;
  }

  // ----- only the free variables matter

  ghost predicate Agree(xs: set<Name>, b: iset<Name>, b': iset<Name>) { forall x | x in xs :: x in b <==> x in b' }

  lemma {:induction false} CompilableAgrees(e: Exp, b: iset<Name>, b': iset<Name>)
    requires Agree(Free(e), b, b')
    ensures Compilable(e, b) == Compilable(e, b')
    decreases e, 1
  {
    match e
    case Lit(_) =>
    case Quote(_) =>
    case Var(_) =>
    case Op(_, args) => CompilableAllAgrees(args, b, b');
    case Lam(ps, _, body) => CompilableAllAgrees(body, b + Names(ps), b' + Names(ps));
    case If(test, yes, no) =>
      CompilableAgrees(test, b, b');
      CompilableAgrees(yes, b, b');
      CompilableAgrees(no, b, b');
    case Call(es) => CompilableAllAgrees(es, b, b');
  }

  lemma {:induction false} CompilableAllAgrees(es: seq<Exp>, b: iset<Name>, b': iset<Name>)
    requires Agree(FreeAll(es), b, b')
    ensures CompilableAll(es, b) == CompilableAll(es, b')
    decreases es, 0
  {
    if es != [] {
      CompilableAgrees(es[0], b, b');
      CompilableAllAgrees(es[1..], b, b');
    }
  }
}

/** The tables that the compiler fills hold nothing twice. */
module CompilerPool {
  import opened Wrappers
  import opened Syntax
  import opened Machine
  import opened Compiler

  predicate NoRepeats<T(==)>(xs: seq<T>) {
    forall i, j {:trigger xs[i], xs[j]} | 0 <= i < j < |xs| :: xs[i] != xs[j]
  }

  lemma InternKeeps<T>(xs: seq<T>, x: T)
    requires NoRepeats(xs)
    ensures NoRepeats(Intern(xs, x).0)
  {
  }

  predicate NeatScopes(envs: seq<Scoped>) {
    forall i {:trigger envs[i]} | 0 <= i < |envs| :: NoRepeats(envs[i].bindings) && NoRepeats(envs[i].bindmap)
  }

  predicate NeatProcedures(fs: seq<Procedure>) {
    forall k {:trigger fs[k]} | 0 <= k < |fs| :: NoRepeats(fs[k].bindings) && NoRepeats(fs[k].bindmap)
  }

  predicate Neat(envs: seq<Scoped>, st: Store) { NeatScopes(envs) && NoRepeats(st.consts) && NeatProcedures(st.funcs) }

  lemma ConstantNeat(envs: seq<Scoped>, st: Store, d: Datum)
    requires Neat(envs, st)
    ensures Neat(envs, MakeConst(st, d).0)
  {
    hide NeatScopes, NeatProcedures;
    InternKeeps(st.consts, d);
  }

  lemma VariableNeat(envs: seq<Scoped>, st: Store, x: Name)
    requires Neat(envs, st) && EnvLookup(envs, st, x).Some?
    ensures var r := EnvLookup(envs, st, x).value; Neat(r.1, r.2)
  {
    hide Intern, NoRepeats, Search, IsBuiltin;
    match Search(envs, x)
    case None => ConstantNeat(envs, st, DStatic(x.s));
    case Some((step, slot)) =>
      if step > 0 {
        var envs1 := envs[step := envs[step].(onheap := true)];
        assert NeatScopes(envs1);
        BindNeat(envs1, envs[step].depth, slot);
      }
  }

  lemma BindNeat(envs: seq<Scoped>, up: nat, slot: nat)
    requires NeatScopes(envs) && envs != []
    ensures NeatScopes(envs[0 := EnvBind(envs[0], up, slot).0])
  {
    hide Intern, NoRepeats;
    InternKeeps(envs[0].bindmap, up);
    InternKeeps(envs[0].bindings, (Intern(envs[0].bindmap, up).1, slot));
  }

  lemma {:induction false} CompileNeat(e: Exp, envs: seq<Scoped>, st: Store)
    requires Neat(envs, st) && Compile(e, envs, st).Some?
    ensures Neat(Compile(e, envs, st).value.envs, Compile(e, envs, st).value.st)
    decreases e, 1
  {
    hide Neat, MakeConst, EnvLookup;
    match e
    case Lit(d) => ConstantNeat(envs, st, d);
    case Quote(d) => ConstantNeat(envs, st, d);
    case Var(x) => VariableNeat(envs, st, x);
    case Op(_, args) => CompileAllNeat(args, envs, st);
    case Lam(ps, rest, body) =>
      var inner := [Scoped(ps, rest, |envs|, false, [], [])] + envs;
      InsideNeat(inner[0], envs, st);
      CompileAllNeat(body, inner, st);
      var b := CompileAll(body, inner, st).value;
      StoredNeat(b);
    case If(test, yes, no) =>
      CompileNeat(test, envs, st);
      var p := Compile(test, envs, st).value;
      CompileNeat(yes, p.envs, p.st);
      var y := Compile(yes, p.envs, p.st).value;
      CompileNeat(no, y.envs, y.st);
    case Call(es) =>
      CompileNeat(es[0], envs, st);
      CompileAllNeat(es[1..], Compile(es[0], envs, st).value.envs, Compile(es[0], envs, st).value.st);
  }

  lemma InsideNeat(env: Scoped, envs: seq<Scoped>, st: Store)
    requires Neat(envs, st) && env.bindings == [] && env.bindmap == []
    ensures Neat([env] + envs, st)
  {
  }

  lemma StoredNeat(b: Out)
    requires Neat(b.envs, b.st) && b.envs != []
    ensures Neat(b.envs[1..], b.st.(funcs := b.st.funcs + [MakeFunc(b.code, b.envs[0])]))
  {
    hide NoRepeats;
  }

  lemma {:induction false} CompileAllNeat(es: seq<Exp>, envs: seq<Scoped>, st: Store)
    requires Neat(envs, st) && CompileAll(es, envs, st).Some?
    ensures Neat(CompileAll(es, envs, st).value.envs, CompileAll(es, envs, st).value.st)
    decreases es, 0
  {
    hide Neat;
    if es != [] {
      CompileNeat(es[0], envs, st);
      CompileAllNeat(es[1..], Compile(es[0], envs, st).value.envs, Compile(es[0], envs, st).value.st);
    }
  }

  /** Equal constants of a module share an index, equal bindings and frames of a procedure too. */
  lemma NothingTwice(root: Exp, M: Image)
    requires StartCompile(root) == Some(M)
    ensures NoRepeats(M.consts) && NeatProcedures(M.funcs)
  {
    hide Compile;
    CompileNeat(root, [], Store([], []));
  }
}
