/** When a value of one program and a value of the program made from it are the same. */
module ValueRelation {
  import opened Wrappers
  import opened Syntax
  import opened Values
  import opened Cps
  import opened Meaning
  import opened CodeSpec

  // ----- the programs considered

  predicate AllUser(ps: seq<Name>) { forall i | 0 <= i < |ps| :: ps[i].User? }

  /** A source program: no generated names, operators used with their arity, rest parameters named, no empty bodies or calls. */
  predicate Source(e: Exp) {
    match e
    case Lit(_) => true
    case Quote(_) => true
    case Var(x) => x.User?
    case Op(op, args) => |args| == Arity(op) && SourceAll(args)
    case Lam(ps, rest, body) => AllUser(ps) && (rest ==> ps != []) && body != [] && SourceAll(body)
    case If(test, yes, no) => Source(test) && Source(yes) && Source(no)
    case Call(es) => es != [] && SourceAll(es)
  }

  predicate SourceAll(es: seq<Exp>) {
    es == [] || (Source(es[0]) && SourceAll(es[1..]))
  }

  // ----- what conversion cuts off

  /** The program without what follows, in a body, an expression `eq?` to the last one. */
  function Cut(e: Exp): Exp
    decreases e, 2
  {
    match e
    case Lit(_) => e
    case Quote(_) => e
    case Var(_) => e
    case Op(op, args) => Op(op, CutAll(args))
    case Lam(ps, rest, body) => Lam(ps, rest, CutBody(body))
    case If(test, yes, no) => If(Cut(test), Cut(yes), Cut(no))
    case Call(es) => Call(CutAll(es))
  }

  function CutAll(es: seq<Exp>): (r: seq<Exp>)
    ensures |r| == |es|
    decreases es, 0
  {
    if es == [] then [] else [Cut(es[0])] + CutAll(es[1..])
  }

  function CutBody(es: seq<Exp>): seq<Exp>
    decreases es, 1
  {
    if es == [] then [] else CutFrom(es, es[|es| - 1])
  }

  function CutFrom(es: seq<Exp>, last: Exp): (r: seq<Exp>)
    ensures es != [] ==> r != []
    decreases es, 0
  {
    if es == [] then []
    else if SameObject(es[0], last) then [Cut(es[0])]
    else [Cut(es[0])] + CutFrom(es[1..], last)
  }

  /** No body has an expression `eq?` to its last one before it. */
  predicate Tidy(e: Exp) {
    match e
    case Lit(_) => true
    case Quote(_) => true
    case Var(_) => true
    case Op(_, args) => TidyAll(args)
    case Lam(_, _, body) => NoEarlyTail(body) && TidyAll(body)
    case If(test, yes, no) => Tidy(test) && Tidy(yes) && Tidy(no)
    case Call(es) => TidyAll(es)
  }

  predicate TidyAll(es: seq<Exp>) {
    es == [] || (Tidy(es[0]) && TidyAll(es[1..]))
  }

  predicate NoEarlyTail(es: seq<Exp>) {
    forall i | 0 <= i < |es| - 1 :: !SameObject(es[i], es[|es| - 1])
  }

  // ----- heights, for recursion over values

  function Height(v: Val): nat {
    match v
    case Pair(a, d) => 1 + Height(a) + Height(d)
    case Vector(es) => 1 + HeightAll(es)
    case Closure(_, _, _, env) => 1 + EnvHeight(env)
    case _ => 0
  }

  function HeightAll(vs: seq<Val>): nat {
    if vs == [] then 0 else 1 + Height(vs[0]) + HeightAll(vs[1..])
  }

  function EnvHeight(env: Env): nat {
    match env
    case Empty => 0
    case Rib(_, vals, next) => 1 + HeightAll(vals) + EnvHeight(next)
  }

  lemma {:induction false} HeightOfElement(vs: seq<Val>, i: nat)
    requires i < |vs|
    ensures Height(vs[i]) < HeightAll(vs)
    decreases |vs|
  {
    if i > 0 {
      HeightOfElement(vs[1..], i - 1);
    }
  }

  lemma {:induction false} HeightOfLookup(env: Env, x: Name)
    ensures Lookup(env, x).Some? ==> Height(Lookup(env, x).value) < EnvHeight(env)
    decreases env
  {
    match env
    case Empty =>
    case Rib(names, vals, next) =>
      match Position(names, x) {
        case Some(i) =>
          if i < |vals| {
            HeightOfElement(vals, i);
          }
        case None =>
          HeightOfLookup(next, x);
      }
  }

  // ----- related values

  /** What the second program is: one in continuation-passing style, or a module compiled from one. */
  datatype Target = Converted | Compiled(infos: seq<Info>)

  ghost predicate Related(T: Target, v: Val, w: Val)
    decreases Height(v), 1
  {
    match v
    case Pair(a, d) => w.Pair? && Related(T, a, w.car) && Related(T, d, w.cdr)
    case Vector(es) => w.Vector? && RelatedAll(T, es, w.elems)
    case Closure(ps, rest, body, env) =>
      (match T
       case Converted =>
         && w.Closure? && RelatedEnv(env, w.env)
         && (exists b, n {:trigger MadeFrom(v, w, b, n)} :: MadeFrom(v, w, b, n))
       case Compiled(infos) =>
         w.Code? && IsCode(infos, w.fn, v) && EnvRep(infos, env, infos[w.fn].chain, w.menv))
    case Code(_, _) => false
    case Func(_) => false
    case EnvRef(_) => false
    case _ => w == v
  }

  ghost predicate RelatedAll(T: Target, vs: seq<Val>, ws: seq<Val>)
    decreases HeightAll(vs), 0
  {
    |ws| == |vs| && (vs == [] || (Related(T, vs[0], ws[0]) && RelatedAll(T, vs[1..], ws[1..])))
  }

  // ----- converted programs

  /** One closure has the cut, the other the converted code of a lambda expression with body `b`. */
  predicate MadeFrom(v: Val, w: Val, b: seq<Exp>, n: nat) {
    && v.Closure? && w.Closure? && v.body == CutBody(b)
    && Source(Lam(v.ps, v.rest, b)) && ConvertLambda(Lam(v.ps, v.rest, b), n).0 == Lam(w.ps, w.rest, w.body)
  }

  /** The environments agree on the names of the program; the second may bind generated names as well. */
  ghost predicate RelatedEnv(env: Env, env': Env)
    decreases EnvHeight(env), 2
  {
    forall s: string :: RelatedAt(env, env', s)
  }

  ghost predicate RelatedAt(env: Env, env': Env, s: string)
    decreases EnvHeight(env), 0
  {
    HeightOfLookup(env, User(s));
    match Lookup(env, User(s))
    case None => Lookup(env', User(s)).None?
    case Some(v) => Lookup(env', User(s)).Some? && Related(Converted, v, Lookup(env', User(s)).value)
  }

  // ----- compiled programs

  /** Procedure `fn` was compiled from the code of the closure `v`. */
  predicate IsCode(infos: seq<Info>, fn: nat, v: Val) {
    v.Closure? && fn < |infos| && infos[fn].chain != [] && infos[fn].ps == v.ps && infos[fn].rest == v.rest && infos[fn].body == v.body
  }

  /** The frames on the chain are marked with strictly decreasing depths, all below that of the running procedure. */
  predicate Decreasing(env: MEnv, below: nat)
    decreases env
  {
    env.NoEnv? || (env.depth < below && Decreasing(env.prev, env.depth))
  }

  /**
   The chain of frames `menv` holds the procedures of `env` whose frames are on the heap, each marked with the number
   of procedures around it.
   */
  ghost predicate EnvRep(infos: seq<Info>, env: Env, scopes: seq<Scope>, menv: MEnv)
    decreases EnvHeight(env), 2
  {
    if scopes == [] then env == Empty && Decreasing(menv, 1) else
    && env.Rib? && env.names == scopes[0].names && |env.vals| == |env.names|
    && if scopes[0].heap then
         && menv.Frame? && menv.depth == |scopes| - 1 && Decreasing(menv, |scopes|)
         && RelatedAll(Compiled(infos), env.vals, menv.objects) && EnvRep(infos, env.next, scopes[1..], menv.prev)
       else EnvRep(infos, env.next, scopes[1..], menv)
  }
}

/** What holds of related values whatever the second program is. */
module ValueLemmas {
  import opened Wrappers
  import opened Syntax
  import opened Values
  import opened ValueRelation

  lemma {:induction false} RelatedDatum(T: Target, d: Datum)
    ensures Related(T, DatumVal(d), DatumVal(d))
    decreases d
  {
    match d
    case DPair(a, b) => RelatedDatum(T, a); RelatedDatum(T, b);
    case DVector(es) => RelatedDatums(T, es);
    case _ =>
  }

  lemma {:induction false} RelatedDatums(T: Target, ds: seq<Datum>)
    ensures RelatedAll(T, DatumVals(ds), DatumVals(ds))
    decreases ds
  {
    if ds != [] {
      RelatedDatum(T, ds[0]);
      RelatedDatums(T, ds[1..]);
    }
  }

  lemma {:induction false} RelatedIndex(T: Target, vs: seq<Val>, ws: seq<Val>, i: nat)
    requires RelatedAll(T, vs, ws) && i < |vs|
    ensures Related(T, vs[i], ws[i])
    decreases |vs|
  {
    if i > 0 {
      RelatedIndex(T, vs[1..], ws[1..], i - 1);
    }
  }

  lemma {:induction false} RelatedObserve(T: Target, v: Val, w: Val)
    requires Related(T, v, w)
    ensures Observe(v) == Observe(w)
    decreases Height(v), 1
  {
    match v
    case Pair(a, d) => RelatedObserve(T, a, w.car); RelatedObserve(T, d, w.cdr);
    case Vector(es) => RelatedObserveAll(T, es, w.elems);
    case _ =>
  }

  lemma {:induction false} RelatedObserveAll(T: Target, vs: seq<Val>, ws: seq<Val>)
    requires RelatedAll(T, vs, ws)
    ensures ObserveAll(vs) == ObserveAll(ws)
    decreases HeightAll(vs), 0
  {
    if vs != [] {
      RelatedObserve(T, vs[0], ws[0]);
      RelatedObserveAll(T, vs[1..], ws[1..]);
    }
  }

  /** The two values are of one kind; kinds without references are equal. */
  lemma RelatedShape(T: Target, v: Val, w: Val)
    requires Related(T, v, w)
    ensures Immediate(v) == Immediate(w) && (Immediate(v) ==> w == v)
    ensures v.Pair? == w.Pair? && v.Vector? == w.Vector? && v.Text? == w.Text? && IsProcedure(v) == IsProcedure(w)
    ensures v.Text? ==> w == v
    ensures (v == Bool(false)) == (w == Bool(false))
  {
  }

  lemma {:induction false} RelatedIsList(T: Target, v: Val, w: Val)
    requires Related(T, v, w)
    ensures IsList(v) == IsList(w)
    decreases Height(v)
  {
    RelatedShape(T, v, w);
    if v.Pair? {
      RelatedIsList(T, v.cdr, w.cdr);
    }
  }

  lemma RelatedTest(T: Target, t: TypeTest, v: Val, w: Val)
    requires Related(T, v, w)
    ensures Test(t, v) == Test(t, w)
  {
    RelatedShape(T, v, w);
    RelatedIsList(T, v, w);
  }

  lemma RelatedOperateOne(T: Target, op: Operator, v: Val, w: Val)
    requires Related(T, v, w) && Arity(op) == 1
    ensures Operate(op, [v]).Some? == Operate(op, [w]).Some?
    ensures Operate(op, [v]).Some? ==> Related(T, Operate(op, [v]).value, Operate(op, [w]).value)
  {
    hide Arithmetic;
    RelatedShape(T, v, w);
    if op.OpTypeTest? {
      RelatedTest(T, op.test, v, w);
    }
  }

  lemma RelatedOperateTwo(T: Target, op: Operator, v: Val, v2: Val, w: Val, w2: Val)
    requires Related(T, v, w) && Related(T, v2, w2) && Arity(op) == 2
    ensures Operate(op, [v, v2]).Some? == Operate(op, [w, w2]).Some?
    ensures Operate(op, [v, v2]).Some? ==> Related(T, Operate(op, [v, v2]).value, Operate(op, [w, w2]).value)
  {
    RelatedShape(T, v, w);
    RelatedShape(T, v2, w2);
    if op.OpCons? || op.OpEqPtr? {
      hide Arithmetic;
    } else {
      hide Related;
      if Operate(op, [v, v2]).Some? {
        ArithmeticImmediate(op, v.i, v2.i);
        RelatedImmediate(T, Operate(op, [v, v2]).value);
      }
    }
  }

  lemma ArithmeticImmediate(op: Operator, a: int, b: int)
    ensures Arithmetic(op, a, b).Some? ==> Immediate(Arithmetic(op, a, b).value)
  {
    hide Wrap, Quotient, Remainder, Bitwise;
  }

  lemma RelatedImmediate(T: Target, v: Val)
    requires Immediate(v)
    ensures Related(T, v, v)
  {
  }

  lemma RelatedOperate(T: Target, op: Operator, vs: seq<Val>, ws: seq<Val>)
    requires RelatedAll(T, vs, ws)
    ensures Operate(op, vs).Some? == Operate(op, ws).Some?
    ensures Operate(op, vs).Some? ==> Related(T, Operate(op, vs).value, Operate(op, ws).value)
  {
    hide Operate, Related, RelatedAll;
    RelatedCount(T, vs, ws);
    if |vs| == Arity(op) {
      RelatedIndex(T, vs, ws, 0);
      if |vs| == 2 {
        RelatedIndex(T, vs, ws, 1);
        assert vs == [vs[0], vs[1]] && ws == [ws[0], ws[1]];
        RelatedOperateTwo(T, op, vs[0], vs[1], ws[0], ws[1]);
      } else {
        assert vs == [vs[0]] && ws == [ws[0]];
        RelatedOperateOne(T, op, vs[0], ws[0]);
      }
    } else {
      WrongArity(op, vs);
      WrongArity(op, ws);
    }
  }

  lemma RelatedCount(T: Target, vs: seq<Val>, ws: seq<Val>)
    requires RelatedAll(T, vs, ws)
    ensures |ws| == |vs|
  {
  }

  lemma WrongArity(op: Operator, vs: seq<Val>)
    requires |vs| != Arity(op)
    ensures Operate(op, vs) == None
  {
    hide Arithmetic;
  }

  lemma {:induction false} RelatedList(T: Target, vs: seq<Val>, ws: seq<Val>)
    requires RelatedAll(T, vs, ws)
    ensures Related(T, ListVal(vs), ListVal(ws))
    decreases |vs|
  {
    if vs != [] {
      RelatedList(T, vs[1..], ws[1..]);
    }
  }

  lemma {:induction false} RelatedSlices(T: Target, vs: seq<Val>, ws: seq<Val>, i: nat)
    requires RelatedAll(T, vs, ws) && i <= |vs|
    ensures RelatedAll(T, vs[..i], ws[..i]) && RelatedAll(T, vs[i..], ws[i..])
    decreases |vs|
  {
    if i > 0 {
      RelatedSlices(T, vs[1..], ws[1..], i - 1);
      assert vs[..i][1..] == vs[1..][..i - 1] && ws[..i][1..] == ws[1..][..i - 1];
      assert vs[i..] == vs[1..][i - 1..] && ws[i..] == ws[1..][i - 1..];
    } else {
      assert vs[0..] == vs && ws[0..] == ws;
    }
  }

  lemma {:induction false} RelatedAppend(T: Target, vs: seq<Val>, ws: seq<Val>, v: Val, w: Val)
    requires RelatedAll(T, vs, ws) && Related(T, v, w)
    ensures RelatedAll(T, vs + [v], ws + [w])
    decreases |vs|
  {
    if vs != [] {
      RelatedAppend(T, vs[1..], ws[1..], v, w);
      assert (vs + [v])[1..] == vs[1..] + [v] && (ws + [w])[1..] == ws[1..] + [w];
    } else {
      assert (vs + [v])[1..] == [] && (ws + [w])[1..] == [];
    }
  }

  lemma RelatedCons(T: Target, v: Val, vs: seq<Val>, w: Val, ws: seq<Val>)
    requires Related(T, v, w) && RelatedAll(T, vs, ws)
    ensures RelatedAll(T, [v] + vs, [w] + ws)
  {
    hide Related;
    assert ([v] + vs)[1..] == vs && ([w] + ws)[1..] == ws;
  }

  /** Related arguments make related frames. */
  lemma RelatedArgs(T: Target, ps: seq<Name>, rest: bool, args: seq<Val>, args': seq<Val>) returns (vals': seq<Val>)
    requires RelatedAll(T, args, args') && Bind(ps, rest, args).Some?
    ensures Bind(ps, rest, args') == Some(vals') && RelatedAll(T, Bind(ps, rest, args).value, vals')
    ensures |vals'| == |ps| && |Bind(ps, rest, args).value| == |ps|
  {
    hide Related, RelatedAll;
    RelatedCount(T, args, args');
    vals' := args';
    if rest {
      var n := |ps| - 1;
      RelatedSlices(T, args, args', n);
      RelatedList(T, args[n..], args'[n..]);
      RelatedAppend(T, args[..n], args'[..n], ListVal(args[n..]), ListVal(args'[n..]));
      vals' := args'[..n] + [ListVal(args'[n..])];
    }
  }
}
