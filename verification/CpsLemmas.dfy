/** Frames and environments of converted programs. */
module CpsLemmas {
  import opened Wrappers
  import opened Syntax
  import opened Values
  import opened Cps
  import opened Meaning
  import opened ValueRelation
  import opened ValueLemmas

  /** The continuation parameter does not disturb the frame of a procedure. */
  lemma RelatedBind(ps: seq<Name>, rest: bool, args: seq<Val>, args': seq<Val>, kname: Name, k: Val) returns (vals': seq<Val>)
    requires RelatedAll(Converted, args, args') && Bind(ps, rest, args).Some?
    ensures Bind([kname] + ps, rest, [k] + args') == Some([k] + vals')
    ensures RelatedAll(Converted, Bind(ps, rest, args).value, vals') && |vals'| == |ps|
  {
    vals' := RelatedArgs(Converted, ps, rest, args, args');
    if rest {
      var n := |ps| - 1;
      assert ([k] + args')[..n + 1] == [k] + args'[..n] && ([k] + args')[n + 1..] == args'[n..];
      assert [k] + args'[..n] + [ListVal(args'[n..])] == [k] + vals';
    }
  }

  // ----- environments

  lemma {:induction false} PositionCons(k: Name, ps: seq<Name>, x: Name)
    requires k != x
    ensures Position([k] + ps, x) ==
            match Position(ps, x) case None => None case Some(i) => Some(i + 1)
    decreases |ps|
  {
    if ps != [] {
      assert ([k] + ps)[..|ps|] == [k] + ps[..|ps| - 1];
      PositionCons(k, ps[..|ps| - 1], x);
    }
  }

  lemma {:induction false} PositionFirst(k: Name, ps: seq<Name>)
    requires k !in ps
    ensures Position([k] + ps, k) == Some(0)
    decreases |ps|
  {
    if ps != [] {
      assert ([k] + ps)[..|ps|] == [k] + ps[..|ps| - 1];
      PositionFirst(k, ps[..|ps| - 1]);
    }
  }

  /** Entering a procedure: its parameters, and on the other side the continuation in front. */
  lemma RelatedFrame(env: Env, env': Env, ps: seq<Name>, vals: seq<Val>, vals': seq<Val>, g: nat, k: Val)
    requires RelatedEnv(env, env') && RelatedAll(Converted, vals, vals') && |vals| == |ps|
    ensures RelatedEnv(Rib(ps, vals, env), Rib([Gen(g)] + ps, [k] + vals', env'))
  {
    var e1, e2 := Rib(ps, vals, env), Rib([Gen(g)] + ps, [k] + vals', env');
    forall s: string ensures RelatedAt(e1, e2, s) {
      PositionCons(Gen(g), ps, User(s));
      match Position(ps, User(s)) {
        case Some(i) =>
          RelatedIndex(Converted, vals, vals', i);
          assert Lookup(e1, User(s)) == Some(vals[i]) && Lookup(e2, User(s)) == Some(vals'[i]);
        case None =>
          assert RelatedAt(env, env', s);
          assert Lookup(e1, User(s)) == Lookup(env, User(s)) && Lookup(e2, User(s)) == Lookup(env', User(s));
      }
    }
  }

  /** `env'` binds what `env` does, except the generated names numbered in `made`. */
  ghost predicate Extends(env: Env, env': Env, made: set<nat>) {
    forall x: Name {:trigger Lookup(env', x)} | !(x.Gen? && x.n in made) :: Lookup(env', x) == Lookup(env, x)
  }

  function Between(a: nat, b: nat): (s: set<nat>)
    ensures forall i :: i in s <==> a <= i < b
    decreases b - a
  {
    if a >= b then {} else {a} + Between(a + 1, b)
  }

  lemma RelatedExtends(env: Env, env1: Env, env2: Env, made: set<nat>)
    requires RelatedEnv(env, env1) && Extends(env1, env2, made)
    ensures RelatedEnv(env, env2)
  {
    forall s: string ensures RelatedAt(env, env2, s) {
      assert RelatedAt(env, env1, s);
      assert Lookup(env2, User(s)) == Lookup(env1, User(s));
    }
  }

  lemma RelatedResolve(env: Env, env': Env, x: Name)
    requires RelatedEnv(env, env') && x.User? && Resolve(env, x).Some?
    ensures Resolve(env', x).Some? && Related(Converted, Resolve(env, x).value, Resolve(env', x).value)
  {
    assert RelatedAt(env, env', x.s);
  }

  // ----- trivial expressions

  lemma {:induction false} SelfEvalTriv(W: World, e: Exp, env: Env, env': Env, tr: seq<Event>, fuel: nat)
    requires SelfEval(e) && Source(e) && RelatedEnv(env, env') && Eval(W, e, env, tr, fuel).Ok?
    ensures Eval(W, e, env, tr, fuel).trace == tr
    ensures Triv(e, env').Some? && Related(Converted, Eval(W, e, env, tr, fuel).value, Triv(e, env').value)
    decreases e, 1
  {
    match e
    case Lit(d) => RelatedDatum(Converted, d);
    case Quote(d) => RelatedDatum(Converted, d);
    case Var(x) => RelatedResolve(env, env', x);
    case Op(op, args) =>
      SelfEvalTrivAll(W, args, env, env', tr, fuel);
      RelatedOperate(Converted, op, EvalAll(W, args, env, tr, fuel).value, TrivAll(args, env').value);
  }

  lemma {:induction false} SelfEvalTrivAll(W: World, es: seq<Exp>, env: Env, env': Env, tr: seq<Event>, fuel: nat)
    requires SelfEvalAll(es) && SourceAll(es) && RelatedEnv(env, env') && EvalAll(W, es, env, tr, fuel).Ok?
    ensures EvalAll(W, es, env, tr, fuel).trace == tr
    ensures TrivAll(es, env').Some? && RelatedAll(Converted, EvalAll(W, es, env, tr, fuel).value, TrivAll(es, env').value)
    decreases es, 0
  {
    if es != [] {
      SelfEvalTriv(W, es[0], env, env', tr, fuel);
      SelfEvalTrivAll(W, es[1..], env, env', tr, fuel);
    }
  }
}
