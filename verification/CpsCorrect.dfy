/** Converted code computes what the source computes, and hands it to the continuation. */
module CpsSteps {
  import opened Wrappers
  import opened Syntax
  import opened Values
  import opened Cps
  import opened Meaning
  import opened ValueRelation
  import opened ValueLemmas
  import opened CpsLemmas

  /** A run from `c1` reaches `c2` after entering `cost` procedures. */
  ghost predicate Leads(W: World, c1: Config, tr1: seq<Event>, cost: nat, c2: Config, tr2: seq<Event>) {
    && (forall F: nat {:trigger Run(W, c2, tr2, F)} :: Run(W, c1, tr1, F + cost) == Run(W, c2, tr2, F))
    && (forall F: nat {:trigger Run(W, c1, tr1, F)} | F < cost :: Run(W, c1, tr1, F) == Running)
  }

  lemma LeadsTrans(W: World, c1: Config, tr1: seq<Event>, cost: nat, c2: Config, tr2: seq<Event>, cost': nat, c3: Config, tr3: seq<Event>)
    requires Leads(W, c1, tr1, cost, c2, tr2) && Leads(W, c2, tr2, cost', c3, tr3)
    ensures Leads(W, c1, tr1, cost + cost', c3, tr3)
  {
    hide Run;
    forall F: nat ensures Run(W, c1, tr1, F + (cost + cost')) == Run(W, c3, tr3, F) {
      assert Run(W, c2, tr2, F + cost') == Run(W, c3, tr3, F);
      assert Run(W, c1, tr1, F + cost' + cost) == Run(W, c2, tr2, F + cost');
    }
    forall F: nat | F < cost + cost' ensures Run(W, c1, tr1, F) == Running {
      if F >= cost {
        assert Run(W, c1, tr1, F - cost + cost) == Run(W, c2, tr2, F - cost);
      }
    }
  }

  lemma LeadsSame(W: World, c: Config, tr: seq<Event>)
    ensures Leads(W, c, tr, 0, c, tr)
  {
    hide Run;
  }

  lemma StepCall(W: World, es: seq<Exp>, env: Env, tr: seq<Event>, f: Val, args: seq<Val>)
    requires TrivAll(es, env) == Some([f] + args)
    ensures Leads(W, At(Call(es), env), tr, 0, Enter(f, args), tr)
  {
    hide TrivAll;
    forall F: nat ensures Run(W, At(Call(es), env), tr, F + 0) == Run(W, Enter(f, args), tr, F) {
      assert ([f] + args)[1..] == args;
    }
  }

  lemma StepClosure(W: World, f: Val, args: seq<Val>, vals: seq<Val>, tr: seq<Event>)
    requires f.Closure? && Bind(f.ps, f.rest, args) == Some(vals) && |f.body| == 1
    ensures Leads(W, Enter(f, args), tr, 1, At(f.body[0], Rib(f.ps, vals, f.env)), tr)
  {
    hide Bind;
  }

  lemma StepIf(W: World, test: Exp, yes: Exp, no: Exp, env: Env, tr: seq<Event>, v: Val)
    requires Triv(test, env) == Some(v)
    ensures Leads(W, At(If(test, yes, no), env), tr, 0, At(if v == Bool(false) then no else yes, env), tr)
  {
    hide Triv;
  }

  lemma StepBuiltin(W: World, name: string, k: Val, args: seq<Val>, d: Datum, tr: seq<Event>)
    requires Returns(name) && W(tr, name, ObserveAll(args)) == Some(d)
    ensures Leads(W, Enter(Builtin(name), [k] + args), tr, 1, Enter(k, [DatumVal(d)]), tr + [Event(name, ObserveAll(args))])
  {
    hide IsBuiltin, ChangesCont, ObserveAll, DatumVal;
    assert ([k] + args)[1..] == args;
    assert ([k] + args)[0] == k;
  }

  lemma TrivCons(x: Exp, es: seq<Exp>, env: Env, v: Val, vs: seq<Val>)
    requires Triv(x, env) == Some(v) && TrivAll(es, env) == Some(vs)
    ensures TrivAll([x] + es, env) == Some([v] + vs)
  {
    assert ([x] + es)[1..] == es;
  }

  lemma TrivTwo(x: Exp, y: Exp, env: Env, v: Val, w: Val)
    requires Triv(x, env) == Some(v) && Triv(y, env) == Some(w)
    ensures TrivAll([x, y], env) == Some([v, w])
  {
    TrivCons(y, [], env, w, []);
    assert [y] + [] == [y] && [w] + [] == [w];
    TrivCons(x, [y], env, v, [w]);
    assert [x] + [y] == [x, y] && [v] + [w] == [v, w];
  }

  lemma StepPass(W: World, x: Exp, name: Name, env: Env, tr: seq<Event>, w: Val, k: Val)
    requires Triv(x, env) == Some(w) && Lookup(env, name) == Some(k)
    ensures Leads(W, At(Call([Var(name), x]), env), tr, 0, Enter(k, [w]), tr)
  {
    TrivTwo(Var(name), x, env, k, w);
    hide Triv, TrivAll, Leads;
    assert [k] + [w] == [k, w];
    StepCall(W, [Var(name), x], env, tr, k, [w]);
  }

  lemma StepLet(W: World, r: Exp, x: Exp, name: Name, env: Env, tr: seq<Event>, w: Val)
    requires Triv(x, env) == Some(w)
    ensures Leads(W, At(Call([Lam([name], false, [r]), x]), env), tr, 1, At(r, Rib([name], [w], env)), tr)
  {
    var f := Closure([name], false, [r], env);
    TrivTwo(Lam([name], false, [r]), x, env, f, w);
    hide Triv, TrivAll, Leads;
    assert [f] + [w] == [f, w];
    StepCall(W, [Lam([name], false, [r]), x], env, tr, f, [w]);
    StepClosure(W, f, [w], [w], tr);
    LeadsTrans(W, At(Call([Lam([name], false, [r]), x]), env), tr, 0, Enter(f, [w]), tr, 1, At(r, Rib([name], [w], env)), tr);
  }

  lemma StepControl(W: World, r: Exp, name: Name, env: Env, tr: seq<Event>, w: Val)
    ensures Leads(W, Enter(Closure([name], false, [r], env), [w]), tr, 1, At(r, Rib([name], [w], env)), tr)
  {
    hide Leads;
    StepClosure(W, Closure([name], false, [r], env), [w], [w], tr);
  }

  lemma ExtendsBind(env: Env, name: Name, w: Val)
    requires name.Gen?
    ensures Lookup(Rib([name], [w], env), name) == Some(w)
    ensures Extends(env, Rib([name], [w], env), {name.n})
  {
    forall x: Name ensures Lookup(Rib([name], [w], env), x) == if x == name then Some(w) else Lookup(env, x) {
      PositionOne(name, x);
    }
  }

  lemma PositionOne(name: Name, x: Name)
    ensures Position([name], x) == if x == name then Some(0) else None
  {
    assert [name][..0] == [];
    assert Position([], x) == None;
  }

  lemma ExtendsTrans(e1: Env, e2: Env, e3: Env, made: set<nat>, made': set<nat>)
    requires Extends(e1, e2, made) && Extends(e2, e3, made')
    ensures Extends(e1, e3, made + made')
  {
    hide Lookup;
    forall x: Name | !(x.Gen? && x.n in made + made') ensures Lookup(e3, x) == Lookup(e1, x) {
      assert Lookup(e3, x) == Lookup(e2, x);
      assert Lookup(e2, x) == Lookup(e1, x);
    }
  }

  lemma ExtendsMore(e1: Env, e2: Env, made: set<nat>, made': set<nat>)
    requires Extends(e1, e2, made) && made <= made'
    ensures Extends(e1, e2, made')
  {
    hide Lookup;
  }
}

/** Main result: converted programs compute the value and the calls of the source program, in the same order. */
module CpsCorrect {
  import opened Wrappers
  import opened Syntax
  import opened Values
  import opened Cps
  import opened Meaning
  import opened ValueRelation
  import opened ValueLemmas
  import opened CpsLemmas
  import opened CpsSteps

  /**
   The code `c` hands `w` to the continuation `k`, or binds `name` to `w` and runs `res`. On the way it binds no
   names but those generated for it.
   */
  ghost predicate Reaches(W: World, res: Option<Exp>, c: (Exp, nat), name: Name, n: nat, env: Env, k: Val, tr: seq<Event>,
                          cost: nat, w: Val, after: Env, tr2: seq<Event>)
  {
    match res
    case None => Leads(W, At(c.0, env), tr, cost, Enter(k, [w]), tr2)
    case Some(r) =>
      && Leads(W, At(c.0, env), tr, cost, At(r, after), tr2)
      && Lookup(after, name) == Some(w)
      && name.Gen? && Extends(env, after, {name.n} + Between(n, c.1))
  }

  lemma ReachDeliver(W: World, res: Option<Exp>, x: Exp, name: Name, n: nat, n1: nat, env: Env, k: Val, tr: seq<Event>, w: Val)
    returns (cost: nat, after: Env)
    requires Triv(x, env) == Some(w) && name.Gen?
    requires res.None? ==> Lookup(env, name) == Some(k)
    ensures Reaches(W, res, (Deliver(res, x, name), n1), name, n, env, k, tr, cost, w, after, tr)
  {
    hide Triv, Lookup, Leads, Extends;
    match res
    case None =>
      cost, after := 0, env;
      StepPass(W, x, name, env, tr, w, k);
    case Some(r) =>
      cost, after := 1, Rib([name], [w], env);
      StepLet(W, r, x, name, env, tr, w);
      ExtendsBind(env, name, w);
      ExtendsMore(env, after, {name.n}, {name.n} + Between(n, n1));
  }

  /** The call `es`, whose parts are ready and whose continuation is `Control(res, name)`. */
  lemma ReachControl(W: World, res: Option<Exp>, name: Name, n: nat, n1: nat, env: Env, k: Val, tr: seq<Event>, w: Val,
                     kv: Val)
    returns (cost: nat, after: Env)
    requires name.Gen? && Triv(Control(res, name), env) == Some(kv)
    requires res.None? ==> Lookup(env, name) == Some(k)
    ensures res.None? ==> cost == 0 && kv == k
    ensures res.Some? ==> Leads(W, Enter(kv, [w]), tr, cost, At(res.value, after), tr)
    ensures res.Some? ==> Lookup(after, name) == Some(w) && Extends(env, after, {name.n} + Between(n, n1))
  {
    hide Leads, Extends;
    match res
    case None =>
      cost, after := 0, env;
    case Some(r) =>
      cost, after := 1, Rib([name], [w], env);
      StepControl(W, r, name, env, tr, w);
      ExtendsBind(env, name, w);
      ExtendsMore(env, after, {name.n}, {name.n} + Between(n, n1));
  }

  /** The closures of a lambda expression and of its converted form. */
  lemma RelatedLambda(e: Exp, n: nat, env: Env, env': Env) returns (w: Val)
    requires e.Lam? && Source(e) && RelatedEnv(env, env')
    ensures Triv(ConvertLambda(e, n).0, env') == Some(w)
    ensures Related(Converted, Closure(e.ps, e.rest, CutBody(e.body), env), w)
  {
    hide ConvertFrom, Source, RelatedEnv;
    var f := ConvertLambda(e, n).0;
    w := Closure(f.ps, f.rest, f.body, env');
    assert MadeFrom(Closure(e.ps, e.rest, CutBody(e.body), env), w, e.body, n);
  }

  /** Ready expressions hold no bodies. */
  lemma {:induction false} CutReady(e: Exp)
    requires SelfEval(e)
    ensures Cut(e) == e
    decreases e, 1
  {
    if e.Op? {
      CutReadyAll(e.args);
    }
  }

  lemma {:induction false} CutReadyAll(es: seq<Exp>)
    requires SelfEvalAll(es)
    ensures CutAll(es) == es
    decreases es, 0
  {
    if es != [] {
      CutReady(es[0]);
      CutReadyAll(es[1..]);
      assert es == [es[0]] + es[1..];
    }
  }

  lemma ConvertSelfEval(W: World, res: Option<Exp>, e: Exp, name: Name, n: nat, env: Env, env': Env, k: Val, tr: seq<Event>,
                        fuel: nat, v: Val, tr2: seq<Event>)
    returns (cost: nat, w: Val, after: Env)
    requires SelfEval(e) && Source(e) && RelatedEnv(env, env') && name.Gen? && name.n < n
    requires Eval(W, Cut(e), env, tr, fuel) == Ok(v, tr2)
    requires res.None? ==> Lookup(env', name) == Some(k)
    ensures Related(Converted, v, w)
    ensures Reaches(W, res, Convert(res, e, name, n), name, n, env', k, tr, cost, w, after, tr2)
  {
    hide Eval, Triv, Source, RelatedEnv, Related, Lookup, Reaches, SelfEval, Deliver;
    CutReady(e);
    SelfEvalTriv(W, e, env, env', tr, fuel);
    w := Triv(e, env').value;
    cost, after := ReachDeliver(W, res, e, name, n, n, env', k, tr, w);
  }

  lemma ConvertLam(W: World, res: Option<Exp>, e: Exp, name: Name, n: nat, env: Env, env': Env, k: Val, tr: seq<Event>,
                   fuel: nat, v: Val, tr2: seq<Event>)
    returns (cost: nat, w: Val, after: Env)
    requires e.Lam? && Source(e) && RelatedEnv(env, env') && name.Gen? && name.n < n
    requires Eval(W, Cut(e), env, tr, fuel) == Ok(v, tr2)
    requires res.None? ==> Lookup(env', name) == Some(k)
    ensures Related(Converted, v, w)
    ensures Reaches(W, res, Convert(res, e, name, n), name, n, env', k, tr, cost, w, after, tr2)
  {
    hide Triv, Source, RelatedEnv, Related, Lookup, Reaches, Deliver, ConvertLambda;
    w := RelatedLambda(e, n, env, env');
    cost, after := ReachDeliver(W, res, ConvertLambda(e, n).0, name, n, ConvertLambda(e, n).1, env', k, tr, w);
  }

  // ----- conditionals

  /** The converted test has the truth value of the test. */
  ghost predicate Tells(p: Exp, env: Env, v: Val) {
    Triv(p, env).Some? && (Triv(p, env).value == Bool(false)) == (v == Bool(false))
  }

  /** Where the branches of a conditional run: with a join point, its name is bound to the rest `r`. */
  function BranchEnv(res: Option<Exp>, name: Name, lname: Name, env: Env): Env {
    match res
    case None => env
    case Some(r) => Rib([lname], [Closure([name], false, [r], env)], env)
  }

  function BranchCode(res: Option<Exp>, p: Exp, y: Exp, z: Exp, name: Name, lname: Name): Exp {
    match res
    case None => If(p, y, z)
    case Some(r) => Call([Lam([lname], false, [If(p, y, z)]), Lam([name], false, [r])])
  }

  /** The shape of a converted conditional. */
  lemma ConvertIfShape(res: Option<Exp>, e: Exp, name: Name, n: nat, n1: nat)
    returns (p: Exp, y: (Exp, nat), z: (Exp, nat), escape: Name)
    requires e.If? && n1 == if SelfEval(e.test) then n else n + 1
    ensures p == if SelfEval(e.test) then e.test else Var(Gen(n))
    ensures escape == if res.None? then name else Gen(n1)
    ensures y == Convert(None, e.yes, escape, n1 + 1) && z == Convert(None, e.no, escape, y.1)
    ensures var expr := BranchCode(res, p, y.0, z.0, name, Gen(n1));
            Convert(res, e, name, n) == if SelfEval(e.test) then (expr, z.1) else Convert(Some(expr), e.test, Gen(n), z.1)
  {
    p := if SelfEval(e.test) then e.test else Var(Gen(n));
    escape := if res.None? then name else Gen(n1);
    y := Convert(None, e.yes, escape, n1 + 1);
    z := Convert(None, e.no, escape, y.1);
  }

  /** From the join point back to `res`. */
  lemma ReachBranch(W: World, res: Option<Exp>, p: Exp, y: Exp, z: Exp, name: Name, lname: Name, n: nat, n1: nat, env: Env,
                    k: Val, tr: seq<Event>, v1: Val, cost0: nat, w: Val, tr2: seq<Event>)
    returns (cost: nat, after: Env)
    requires name.Gen?
    requires Tells(p, BranchEnv(res, name, lname, env), v1)
    requires Leads(W, At(if v1 == Bool(false) then z else y, BranchEnv(res, name, lname, env)), tr, cost0,
                   Enter(if res.None? then k else Closure([name], false, [res.value], env), [w]), tr2)
    ensures Reaches(W, res, (BranchCode(res, p, y, z, name, lname), n1), name, n, env, k, tr, cost, w, after, tr2)
  {
    hide Triv, Lookup, Leads, Extends;
    var inner := BranchEnv(res, name, lname, env);
    var taken := At(if v1 == Bool(false) then z else y, inner);
    StepIf(W, p, y, z, inner, tr, Triv(p, inner).value);
    match res
    case None =>
      cost, after := cost0, env;
      LeadsTrans(W, At(If(p, y, z), env), tr, 0, taken, tr, cost0, Enter(k, [w]), tr2);
    case Some(r) =>
      var c := Closure([name], false, [r], env);
      cost, after := 1 + cost0 + 1, Rib([name], [w], env);
      LeadsTrans(W, At(If(p, y, z), inner), tr, 0, taken, tr, cost0, Enter(c, [w]), tr2);
      StepControl(W, r, name, env, tr2, w);
      LeadsTrans(W, At(If(p, y, z), inner), tr, cost0, Enter(c, [w]), tr2, 1, At(r, after), tr2);
      ReachJoin(W, r, If(p, y, z), name, lname, env, tr);
      LeadsTrans(W, At(BranchCode(res, p, y, z, name, lname), env), tr, 1, At(If(p, y, z), inner), tr, cost0 + 1, At(r, after), tr2);
      ExtendsBind(env, name, w);
      ExtendsMore(env, after, {name.n}, {name.n} + Between(n, n1));
  }

  lemma ReachJoin(W: World, r: Exp, condition: Exp, name: Name, lname: Name, env: Env, tr: seq<Event>)
    ensures Leads(W, At(Call([Lam([lname], false, [condition]), Lam([name], false, [r])]), env), tr, 1,
                  At(condition, Rib([lname], [Closure([name], false, [r], env)], env)), tr)
  {
    assert Triv(Lam([name], false, [r]), env) == Some(Closure([name], false, [r], env));
    hide Triv, Leads;
    StepLet(W, condition, Lam([name], false, [r]), lname, env, tr, Closure([name], false, [r], env));
  }

  lemma BranchEnvRelated(res: Option<Exp>, name: Name, lname: Name, env: Env, env': Env)
    requires RelatedEnv(env, env') && lname.Gen?
    ensures RelatedEnv(env, BranchEnv(res, name, lname, env'))
    ensures res.Some? ==> Extends(env', BranchEnv(res, name, lname, env'), {lname.n})
    ensures res.Some? ==> Lookup(BranchEnv(res, name, lname, env'), lname) == Some(Closure([name], false, [res.value], env'))
  {
    if res.Some? {
      hide RelatedEnv, Lookup, Extends;
      ExtendsBind(env', lname, Closure([name], false, [res.value], env'));
      RelatedExtends(env, env', BranchEnv(res, name, lname, env'), {lname.n});
    }
  }

  /** The test is known to be `v1`: the branch it selects is run. */
  lemma BranchOk(W: World, res: Option<Exp>, e: Exp, p: Exp, name: Name, n: nat, lname: Name, env: Env, env': Env, k: Val,
                 tr: seq<Event>, fuel: nat, v1: Val, v: Val, tr2: seq<Event>, y: (Exp, nat), z: (Exp, nat))
    returns (cost: nat, w: Val, after: Env)
    requires e.If? && Source(e) && RelatedEnv(env, env') && name.Gen? && lname.Gen? && name.n < n && n <= lname.n
    requires Eval(W, Cut(if v1 == Bool(false) then e.no else e.yes), env, tr, fuel) == Ok(v, tr2)
    requires res.None? ==> Lookup(env', name) == Some(k)
    requires Tells(p, BranchEnv(res, name, lname, env'), v1)
    requires y == Convert(None, e.yes, if res.None? then name else lname, lname.n + 1)
    requires z == Convert(None, e.no, if res.None? then name else lname, y.1)
    ensures Related(Converted, v, w)
    ensures Reaches(W, res, (BranchCode(res, p, y.0, z.0, name, lname), z.1), name, n, env', k, tr, cost, w, after, tr2)
    decreases fuel, 1, e, 0
  {
    hide Triv, Lookup, Leads, Extends, Tells, Related, RelatedEnv, Convert, Eval;
    BranchEnvRelated(res, name, lname, env, env');
    var inner := BranchEnv(res, name, lname, env');
    var escape := if res.None? then name else lname;
    var k1 := if res.None? then k else Closure([name], false, [res.value], env');
    var cost0: nat;
    var unused: Env;
    if v1 == Bool(false) {
      cost0, w, unused := ConvertOk(W, None, e.no, escape, y.1, env, inner, k1, tr, fuel, v, tr2);
    } else {
      cost0, w, unused := ConvertOk(W, None, e.yes, escape, lname.n + 1, env, inner, k1, tr, fuel, v, tr2);
    }
    cost, after := ReachBranch(W, res, p, y.0, z.0, name, lname, n, z.1, env', k, tr, v1, cost0, w, tr2);
  }

  /** Code that first runs to `c2`, binding generated names only, then does what `c2` does. */
  lemma ReachesAfter(W: World, res: Option<Exp>, c: (Exp, nat), c2: (Exp, nat), name: Name, n: nat, n2: nat, env: Env, mid: Env,
                     k: Val, tr: seq<Event>, cost1: nat, tr1: seq<Event>, cost2: nat, w: Val, after: Env, tr2: seq<Event>,
                     made: set<nat>)
    requires Leads(W, At(c.0, env), tr, cost1, At(c2.0, mid), tr1) && Extends(env, mid, made)
    requires Reaches(W, res, c2, name, n2, mid, k, tr1, cost2, w, after, tr2)
    requires name.Gen? && made + Between(n2, c2.1) <= {name.n} + Between(n, c.1)
    ensures Reaches(W, res, c, name, n, env, k, tr, cost1 + cost2, w, after, tr2)
  {
    hide Lookup, Leads, Extends;
    match res
    case None =>
      LeadsTrans(W, At(c.0, env), tr, cost1, At(c2.0, mid), tr1, cost2, Enter(k, [w]), tr2);
    case Some(r) =>
      LeadsTrans(W, At(c.0, env), tr, cost1, At(c2.0, mid), tr1, cost2, At(r, after), tr2);
      ExtendsTrans(env, mid, after, made, {name.n} + Between(n2, c2.1));
      ExtendsMore(env, after, made + ({name.n} + Between(n2, c2.1)), {name.n} + Between(n, c.1));
  }

  lemma TellsSelfEval(W: World, test: Exp, env: Env, inner: Env, tr: seq<Event>, fuel: nat, v1: Val, tr1: seq<Event>)
    requires SelfEval(test) && Source(test) && RelatedEnv(env, inner) && Eval(W, Cut(test), env, tr, fuel) == Ok(v1, tr1)
    ensures Tells(test, inner, v1) && tr1 == tr
  {
    hide SelfEval, Source, RelatedEnv, Eval, Triv, Related;
    CutReady(test);
    SelfEvalTriv(W, test, env, inner, tr, fuel);
    RelatedShape(Converted, v1, Triv(test, inner).value);
  }

  lemma TellsVar(x: Name, res: Option<Exp>, name: Name, lname: Name, mid: Env, v1: Val, w1: Val)
    requires Lookup(mid, x) == Some(w1) && Related(Converted, v1, w1) && lname.Gen? && x != lname
    ensures Tells(Var(x), BranchEnv(res, name, lname, mid), v1)
  {
    RelatedShape(Converted, v1, w1);
    hide Lookup, Related;
    if res.Some? {
      ExtendsBind(mid, lname, Closure([name], false, [res.value], mid));
    }
  }

  /** The two steps of a conditional. */
  lemma EvalIf(W: World, e: Exp, env: Env, tr: seq<Event>, fuel: nat, v: Val, tr2: seq<Event>) returns (v1: Val, tr1: seq<Event>)
    requires e.If? && Eval(W, Cut(e), env, tr, fuel) == Ok(v, tr2)
    ensures Eval(W, Cut(e.test), env, tr, fuel) == Ok(v1, tr1)
    ensures Eval(W, Cut(if v1 == Bool(false) then e.no else e.yes), env, tr1, fuel) == Ok(v, tr2)
  {
    v1, tr1 := Eval(W, Cut(e.test), env, tr, fuel).value, Eval(W, Cut(e.test), env, tr, fuel).trace;
  }

  lemma ConvertIf(W: World, res: Option<Exp>, e: Exp, name: Name, n: nat, env: Env, env': Env, k: Val, tr: seq<Event>,
                  fuel: nat, v: Val, tr2: seq<Event>)
    returns (cost: nat, w: Val, after: Env)
    requires e.If? && Source(e) && RelatedEnv(env, env') && name.Gen? && name.n < n
    requires Eval(W, Cut(e), env, tr, fuel) == Ok(v, tr2)
    requires res.None? ==> Lookup(env', name) == Some(k)
    ensures Related(Converted, v, w)
    ensures Reaches(W, res, Convert(res, e, name, n), name, n, env', k, tr, cost, w, after, tr2)
    decreases fuel, 1, e, 1
  {
    hide Triv, Lookup, Leads, Reaches, Extends, Tells, Related, RelatedEnv, Convert, Eval, SelfEval, BranchCode, BranchEnv;
    var v1, tr1 := EvalIf(W, e, env, tr, fuel, v, tr2);
    var n1 := if SelfEval(e.test) then n else n + 1;
    var p, y, z, escape := ConvertIfShape(res, e, name, n, n1);
    var lname := Gen(n1);
    if SelfEval(e.test) {
      BranchEnvRelated(res, name, lname, env, env');
      TellsSelfEval(W, e.test, env, BranchEnv(res, name, lname, env'), tr, fuel, v1, tr1);
      cost, w, after := BranchOk(W, res, e, p, name, n, lname, env, env', k, tr, fuel, v1, v, tr2, y, z);
    } else {
      var expr := BranchCode(res, p, y.0, z.0, name, lname);
      var c := Convert(Some(expr), e.test, Gen(n), z.1);
      var cost1, w1, mid := ConvertOk(W, Some(expr), e.test, Gen(n), z.1, env, env', k, tr, fuel, v1, tr1);
      var made := {n} + Between(z.1, c.1);
      ReachesBound(W, expr, c, Gen(n), z.1, env', k, tr, cost1, w1, mid, tr1);
      RelatedExtends(env, env', mid, made);
      ExtendsAt(env', mid, made, name);
      TellsVar(Gen(n), res, name, lname, mid, v1, w1);
      var cost2;
      cost2, w, after := BranchOk(W, res, e, p, name, n, lname, env, mid, k, tr1, fuel, v1, v, tr2, y, z);
      cost := cost1 + cost2;
      ReachesAfter(W, res, c, (expr, z.1), name, n, n, env', mid, k, tr, cost1, tr1, cost2, w, after, tr2, made);
    }
  }

  lemma ReachesBound(W: World, r: Exp, c: (Exp, nat), name: Name, n: nat, env: Env, k: Val, tr: seq<Event>, cost: nat, w: Val,
                     after: Env, tr2: seq<Event>)
    requires Reaches(W, Some(r), c, name, n, env, k, tr, cost, w, after, tr2)
    ensures Leads(W, At(c.0, env), tr, cost, At(r, after), tr2)
    ensures Lookup(after, name) == Some(w) && name.Gen? && Extends(env, after, {name.n} + Between(n, c.1))
  {
  }

  lemma ExtendsAt(env: Env, env': Env, made: set<nat>, x: Name)
    requires Extends(env, env', made) && (x.Gen? ==> x.n !in made)
    ensures Lookup(env', x) == Lookup(env, x)
  {
  }

  lemma ConvertOk(W: World, res: Option<Exp>, e: Exp, name: Name, n: nat, env: Env, env': Env, k: Val, tr: seq<Event>,
                  fuel: nat, v: Val, tr2: seq<Event>)
    returns (cost: nat, w: Val, after: Env)
    requires Source(e) && RelatedEnv(env, env') && name.Gen? && name.n < n
    requires Eval(W, Cut(e), env, tr, fuel) == Ok(v, tr2)
    requires res.None? ==> Lookup(env', name) == Some(k)
    ensures Related(Converted, v, w)
    ensures Reaches(W, res, Convert(res, e, name, n), name, n, env', k, tr, cost, w, after, tr2)
    decreases fuel, 1, e, 2
  {
    hide Triv, Lookup, Reaches, Related, RelatedEnv, Convert, Eval;
    match e
    case Lit(_) => cost, w, after := ConvertSelfEval(W, res, e, name, n, env, env', k, tr, fuel, v, tr2);
    case Quote(_) => cost, w, after := ConvertSelfEval(W, res, e, name, n, env, env', k, tr, fuel, v, tr2);
    case Var(_) => cost, w, after := ConvertSelfEval(W, res, e, name, n, env, env', k, tr, fuel, v, tr2);
    case Op(_, _) =>
      if SelfEval(e) {
        cost, w, after := ConvertSelfEval(W, res, e, name, n, env, env', k, tr, fuel, v, tr2);
      } else {
        cost, w, after := ConvertOp(W, res, e, name, n, env, env', k, tr, fuel, v, tr2);
      }
    case Lam(_, _, _) => cost, w, after := ConvertLam(W, res, e, name, n, env, env', k, tr, fuel, v, tr2);
    case If(_, _, _) => cost, w, after := ConvertIf(W, res, e, name, n, env, env', k, tr, fuel, v, tr2);
    case Call(_) => cost, w, after := ConvertCall(W, res, e, name, n, env, env', k, tr, fuel, v, tr2);
  }

  // ----- combinations

  /** An element of a combination that needs no code of its own. */
  lemma ReadyElement(W: World, e: Exp, n: nat, env: Env, env': Env, tr: seq<Event>, fuel: nat, v: Val, tr1: seq<Event>)
    returns (w: Val)
    requires (SelfEval(e) || e.Lam?) && Source(e) && RelatedEnv(env, env') && Eval(W, Cut(e), env, tr, fuel) == Ok(v, tr1)
    ensures tr1 == tr && Related(Converted, v, w)
    ensures Triv(if e.Lam? then ConvertLambda(e, n).0 else e, env') == Some(w)
  {
    hide Source, RelatedEnv, Triv, Related, ConvertLambda;
    if e.Lam? {
      w := RelatedLambda(e, n, env, env');
    } else {
      CutReady(e);
      SelfEvalTriv(W, e, env, env', tr, fuel);
      w := Triv(e, env').value;
    }
  }

  lemma EvalAllStep(W: World, es: seq<Exp>, env: Env, tr: seq<Event>, fuel: nat, vs: seq<Val>, tr2: seq<Event>)
    returns (v: Val, tr1: seq<Event>, rest: seq<Val>)
    requires es != [] && EvalAll(W, CutAll(es), env, tr, fuel) == Ok(vs, tr2)
    ensures Eval(W, Cut(es[0]), env, tr, fuel) == Ok(v, tr1) && EvalAll(W, CutAll(es[1..]), env, tr1, fuel) == Ok(rest, tr2)
    ensures vs == [v] + rest
  {
    assert CutAll(es)[1..] == CutAll(es[1..]);
    v, tr1 := Eval(W, Cut(es[0]), env, tr, fuel).value, Eval(W, Cut(es[0]), env, tr, fuel).trace;
    rest := EvalAll(W, CutAll(es[1..]), env, tr1, fuel).value;
  }

  /** The elements of a combination are computed in order, and are then all at hand. */
  ghost predicate Gathers(W: World, expr: Exp, es: seq<Exp>, m: nat, q: nat, env: Env, tr: seq<Event>, cost: nat,
                          ws: seq<Val>, after: Env, tr2: seq<Event>)
  {
    var ls := MapArgs(es, m);
    var c := Glue(expr, es, ls.0, q);
    && TrivAll(ls.0, after) == Some(ws)
    && Leads(W, At(c.0, env), tr, cost, At(expr, after), tr2)
    && Extends(env, after, Between(m, ls.1) + Between(q, c.1))
  }

  lemma GatherNothing(W: World, expr: Exp, m: nat, q: nat, env: Env, tr: seq<Event>)
    ensures Gathers(W, expr, [], m, q, env, tr, 0, [], env, tr)
  {
    LeadsSame(W, At(expr, env), tr);
  }

  lemma GatherReady(W: World, expr: Exp, es: seq<Exp>, m: nat, q: nat, env: Env, tr: seq<Event>, cost: nat,
                    ws: seq<Val>, after: Env, tr2: seq<Event>, w: Val)
    requires es != [] && (SelfEval(es[0]) || es[0].Lam?)
    requires Gathers(W, expr, es[1..], m, q, env, tr, cost, ws, after, tr2)
    requires Triv(if es[0].Lam? then ConvertLambda(es[0], MapArgs(es[1..], m).1).0 else es[0], after) == Some(w)
    ensures Gathers(W, expr, es, m, q, env, tr, cost, [w] + ws, after, tr2)
  {
    hide Triv, TrivAll, Leads, Extends, ConvertLambda, Convert, SelfEvalAll;
    assert !(SelfEval(es[0]) && es[0].Lam?);
    var rest := MapArgs(es[1..], m);
    var ls := MapArgs(es, m);
    var x := if es[0].Lam? then ConvertLambda(es[0], rest.1).0 else es[0];
    assert ls.0 == [x] + rest.0;
    assert ls.0[1..] == rest.0;
    TrivCons(x, rest.0, after, w, ws);
    var c := Glue(expr, es[1..], rest.0, q);
    assert Glue(expr, es, ls.0, q) == c;
    ExtendsMore(env, after, Between(m, rest.1) + Between(q, c.1), Between(m, ls.1) + Between(q, c.1));
  }

  lemma GatherConverted(W: World, expr: Exp, es: seq<Exp>, m: nat, q: nat, env: Env, tr: seq<Event>, cost0: nat, w: Val, mid: Env,
                        tr1: seq<Event>, cost: nat, ws: seq<Val>, after: Env, tr2: seq<Event>, inner: (Exp, nat))
    requires es != [] && !(SelfEval(es[0]) || es[0].Lam?) && MapArgs(es, m).1 <= q
    requires inner == Glue(expr, es[1..], MapArgs(es[1..], m).0, q)
    requires Reaches(W, Some(inner.0), Convert(Some(inner.0), es[0], Gen(MapArgs(es[1..], m).1), inner.1),
                     Gen(MapArgs(es[1..], m).1), inner.1, env, Null, tr, cost0, w, mid, tr1)
    requires Gathers(W, expr, es[1..], m, q, mid, tr1, cost, ws, after, tr2)
    ensures Gathers(W, expr, es, m, q, env, tr, cost0 + cost, [w] + ws, after, tr2)
  {
    hide TrivAll, Leads, Extends, ConvertLambda, Convert, SelfEval, Lookup;
    var rest := MapArgs(es[1..], m);
    var ls := MapArgs(es, m);
    var x := Var(Gen(rest.1));
    assert ls == ([x] + rest.0, rest.1 + 1);
    assert ls.0[1..] == rest.0;
    var c := Convert(Some(inner.0), es[0], Gen(rest.1), inner.1);
    assert Glue(expr, es, ls.0, q) == c;
    ExtendsAt(mid, after, Between(m, rest.1) + Between(q, inner.1), Gen(rest.1));
    TrivCons(x, rest.0, after, w, ws);
    LeadsTrans(W, At(c.0, env), tr, cost0, At(inner.0, mid), tr1, cost, At(expr, after), tr2);
    ExtendsTrans(env, mid, after, {rest.1} + Between(inner.1, c.1), Between(m, rest.1) + Between(q, inner.1));
    ExtendsMore(env, after, {rest.1} + Between(inner.1, c.1) + (Between(m, rest.1) + Between(q, inner.1)),
                Between(m, ls.1) + Between(q, c.1));
  }

  lemma GlueOk(W: World, expr: Exp, es: seq<Exp>, m: nat, q: nat, env: Env, env': Env, tr: seq<Event>, fuel: nat,
               vs: seq<Val>, tr2: seq<Event>)
    returns (cost: nat, ws: seq<Val>, after: Env)
    requires SourceAll(es) && RelatedEnv(env, env') && MapArgs(es, m).1 <= q
    requires EvalAll(W, CutAll(es), env, tr, fuel) == Ok(vs, tr2)
    ensures RelatedAll(Converted, vs, ws) && RelatedEnv(env, after)
    ensures Gathers(W, expr, es, m, q, env', tr, cost, ws, after, tr2)
    decreases fuel, 1, es, 0
  {
    hide Triv, TrivAll, Lookup, Leads, Reaches, Extends, Gathers, Related, RelatedEnv, Convert, Eval, SelfEval;
    if es == [] {
      cost, ws, after := 0, [], env';
      GatherNothing(W, expr, m, q, env', tr);
    } else {
      var v, tr1, rest := EvalAllStep(W, es, env, tr, fuel, vs, tr2);
      var ls := MapArgs(es[1..], m);
      if SelfEval(es[0]) || es[0].Lam? {
        var w0 := ReadyElement(W, es[0], ls.1, env, env', tr, fuel, v, tr1);
        cost, ws, after := GlueOk(W, expr, es[1..], m, q, env, env', tr, fuel, rest, tr2);
        w0 := ReadyElement(W, es[0], ls.1, env, after, tr, fuel, v, tr1);
        GatherReady(W, expr, es, m, q, env', tr, cost, ws, after, tr2, w0);
        RelatedCons(Converted, v, rest, w0, ws);
        ws := [w0] + ws;
      } else {
        var inner := Glue(expr, es[1..], ls.0, q);
        var name := Gen(ls.1);
        var cost0, w, mid := ConvertOk(W, Some(inner.0), es[0], name, inner.1, env, env', Null, tr, fuel, v, tr1);
        var c := Convert(Some(inner.0), es[0], name, inner.1);
        ReachesBound(W, inner.0, c, name, inner.1, env', Null, tr, cost0, w, mid, tr1);
        RelatedExtends(env, env', mid, {ls.1} + Between(inner.1, c.1));
        cost, ws, after := GlueOk(W, expr, es[1..], m, q, env, mid, tr1, fuel, rest, tr2);
        GatherConverted(W, expr, es, m, q, env', tr, cost0, w, mid, tr1, cost, ws, after, tr2, inner);
        RelatedCons(Converted, v, rest, w, ws);
        cost, ws := cost0 + cost, [w] + ws;
      }
    }
  }

  lemma ConvertOp(W: World, res: Option<Exp>, e: Exp, name: Name, n: nat, env: Env, env': Env, k: Val, tr: seq<Event>,
                  fuel: nat, v: Val, tr2: seq<Event>)
    returns (cost: nat, w: Val, after: Env)
    requires e.Op? && !SelfEval(e) && Source(e) && RelatedEnv(env, env') && name.Gen? && name.n < n
    requires Eval(W, Cut(e), env, tr, fuel) == Ok(v, tr2)
    requires res.None? ==> Lookup(env', name) == Some(k)
    ensures Related(Converted, v, w)
    ensures Reaches(W, res, Convert(res, e, name, n), name, n, env', k, tr, cost, w, after, tr2)
    decreases fuel, 1, e, 1
  {
    hide TrivAll, Lookup, Leads, Reaches, Extends, Related, RelatedEnv, RelatedAll, EvalAll, SelfEvalAll, Operate, Glue, MapArgs;
    var vs := EvalAll(W, CutAll(e.args), env, tr, fuel).value;
    var ls := MapArgs(e.args, n);
    var call := Call([Control(res, name), Op(e.op, ls.0)]);
    var c := Glue(call, e.args, ls.0, ls.1);
    assert Convert(res, e, name, n) == c;
    var cost1, ws, mid := GlueOk(W, call, e.args, n, ls.1, env, env', tr, fuel, vs, tr2);
    RelatedOperate(Converted, e.op, vs, ws);
    w := Operate(e.op, ws).value;
    ExtendsAt(env', mid, Between(n, ls.1) + Between(ls.1, c.1), name);
    assert Triv(Op(e.op, ls.0), mid) == Some(w);
    var cost2;
    cost2, after := ReachPass(W, res, Op(e.op, ls.0), name, n, ls.1, mid, k, tr2, w);
    cost := cost1 + cost2;
    ReachesAfter(W, res, c, (call, ls.1), name, n, n, env', mid, k, tr, cost1, tr2, cost2, w, after, tr2,
                 Between(n, ls.1) + Between(ls.1, c.1));
  }

  /** The value of `x` goes to the continuation made by `Control`. */
  lemma ReachPass(W: World, res: Option<Exp>, x: Exp, name: Name, n: nat, n1: nat, env: Env, k: Val, tr: seq<Event>, w: Val)
    returns (cost: nat, after: Env)
    requires name.Gen? && Triv(x, env) == Some(w) && (res.None? ==> Lookup(env, name) == Some(k))
    ensures Reaches(W, res, (Call([Control(res, name), x]), n1), name, n, env, k, tr, cost, w, after, tr)
  {
    hide Lookup, Leads, Extends, TrivAll;
    var kv := if res.None? then k else Closure([name], false, [res.value], env);
    assert Triv(Control(res, name), env) == Some(kv);
    hide Triv;
    var f := Control(res, name);
    TrivTwo(f, x, env, kv, w);
    assert [kv] + [w] == [kv, w];
    StepCall(W, [f, x], env, tr, kv, [w]);
    cost, after := ReachControl(W, res, name, n, n1, env, k, tr, w, kv);
    if res.Some? {
      LeadsTrans(W, At(Call([f, x]), env), tr, 0, Enter(kv, [w]), tr, cost, At(res.value, after), tr);
    }
  }

  lemma TrivInsert(xs: seq<Exp>, x: Exp, env: Env, ws: seq<Val>, w: Val)
    requires xs != [] && TrivAll(xs, env) == Some(ws) && Triv(x, env) == Some(w)
    ensures ws != [] && TrivAll([xs[0], x] + xs[1..], env) == Some([ws[0]] + ([w] + ws[1..]))
  {
    assert Triv(xs[0], env) == Some(ws[0]) && TrivAll(xs[1..], env) == Some(ws[1..]);
    hide Triv, TrivAll;
    TrivCons(x, xs[1..], env, w, ws[1..]);
    TrivCons(xs[0], [x] + xs[1..], env, ws[0], [w] + ws[1..]);
    assert [xs[0], x] + xs[1..] == [xs[0]] + ([x] + xs[1..]);
  }

  /** A call whose procedure returns `w` to the continuation made by `Control`. */
  lemma ReachCall(W: World, res: Option<Exp>, ls: seq<Exp>, name: Name, n: nat, n1: nat, env: Env, k: Val, tr: seq<Event>,
                  ws: seq<Val>, kv: Val, cost0: nat, w: Val, tr2: seq<Event>)
    returns (cost: nat, after: Env)
    requires name.Gen? && ls != [] && TrivAll(ls, env) == Some(ws) && (res.None? ==> Lookup(env, name) == Some(k))
    requires kv == if res.None? then k else Closure([name], false, [res.value], env)
    requires Leads(W, Enter(ws[0], [kv] + ws[1..]), tr, cost0, Enter(kv, [w]), tr2)
    ensures Reaches(W, res, (Call([ls[0], Control(res, name)] + ls[1..]), n1), name, n, env, k, tr, cost, w, after, tr2)
  {
    hide Lookup, Leads, Extends, TrivAll;
    var f := Control(res, name);
    assert Triv(f, env) == Some(kv);
    hide Triv;
    TrivInsert(ls, f, env, ws, kv);
    var es := [ls[0], f] + ls[1..];
    StepCall(W, es, env, tr, ws[0], [kv] + ws[1..]);
    LeadsTrans(W, At(Call(es), env), tr, 0, Enter(ws[0], [kv] + ws[1..]), tr, cost0, Enter(kv, [w]), tr2);
    var c;
    c, after := ReachControl(W, res, name, n, n1, env, k, tr2, w, kv);
    cost := cost0 + c;
    if res.Some? {
      LeadsTrans(W, At(Call(es), env), tr, cost0, Enter(kv, [w]), tr2, c, At(res.value, after), tr2);
    }
  }

  lemma EvalCall(W: World, e: Exp, env: Env, tr: seq<Event>, fuel: nat, v: Val, tr2: seq<Event>)
    returns (vs: seq<Val>, tr1: seq<Event>)
    requires e.Call? && Eval(W, Cut(e), env, tr, fuel) == Ok(v, tr2)
    ensures EvalAll(W, CutAll(e.es), env, tr, fuel) == Ok(vs, tr1) && vs != [] && Apply(W, vs[0], vs[1..], tr1, fuel) == Ok(v, tr2)
  {
    vs, tr1 := EvalAll(W, CutAll(e.es), env, tr, fuel).value, EvalAll(W, CutAll(e.es), env, tr, fuel).trace;
  }

  lemma ConvertCall(W: World, res: Option<Exp>, e: Exp, name: Name, n: nat, env: Env, env': Env, k: Val, tr: seq<Event>,
                    fuel: nat, v: Val, tr2: seq<Event>)
    returns (cost: nat, w: Val, after: Env)
    requires e.Call? && Source(e) && RelatedEnv(env, env') && name.Gen? && name.n < n
    requires Eval(W, Cut(e), env, tr, fuel) == Ok(v, tr2)
    requires res.None? ==> Lookup(env', name) == Some(k)
    ensures Related(Converted, v, w)
    ensures Reaches(W, res, Convert(res, e, name, n), name, n, env', k, tr, cost, w, after, tr2)
    decreases fuel, 1, e, 1
  {
    hide Triv, TrivAll, Lookup, Leads, Reaches, Extends, Related, RelatedEnv, Eval, EvalAll, Glue, MapArgs, Control, Apply;
    var vs, tr1 := EvalCall(W, e, env, tr, fuel, v, tr2);
    var ls := MapArgs(e.es, n);
    var call := Call([ls.0[0], Control(res, name)] + ls.0[1..]);
    var c := Glue(call, e.es, ls.0, ls.1);
    assert Convert(res, e, name, n) == c;
    hide Convert;
    var cost1, ws, mid := GlueOk(W, call, e.es, n, ls.1, env, env', tr, fuel, vs, tr1);
    var kv := if res.None? then k else Closure([name], false, [res.value], mid);
    assert Related(Converted, vs[0], ws[0]) && RelatedAll(Converted, vs[1..], ws[1..]);
    var cost0;
    cost0, w := ApplyOk(W, vs[0], vs[1..], ws[0], ws[1..], kv, tr1, fuel, v, tr2);
    ExtendsAt(env', mid, Between(n, ls.1) + Between(ls.1, c.1), name);
    var cost2;
    cost2, after := ReachCall(W, res, ls.0, name, n, ls.1, mid, k, tr1, ws, kv, cost0, w, tr2);
    cost := cost1 + cost2;
    ReachesAfter(W, res, c, (call, ls.1), name, n, n, env', mid, k, tr, cost1, tr1, cost2, w, after, tr2,
                 Between(n, ls.1) + Between(ls.1, c.1));
  }

  // ----- procedures

  lemma ApplyOk(W: World, f: Val, args: seq<Val>, f': Val, args': seq<Val>, k: Val, tr: seq<Event>, fuel: nat, v: Val,
                tr2: seq<Event>)
    returns (cost: nat, w: Val)
    requires Related(Converted, f, f') && RelatedAll(Converted, args, args') && Apply(W, f, args, tr, fuel) == Ok(v, tr2)
    ensures Related(Converted, v, w) && Leads(W, Enter(f', [k] + args'), tr, cost, Enter(k, [w]), tr2)
    decreases fuel, 0
  {
    hide Leads, RelatedAll, RelatedEnv, EvalBody, ConvertSeq, Bind, Returns;
    match f
    case Builtin(name) =>
      RelatedObserveAll(Converted, args, args');
      var d := W(tr, name, ObserveAll(args)).value;
      RelatedDatum(Converted, d);
      cost, w := 1, DatumVal(d);
      StepBuiltin(W, name, k, args', d, tr);
    case Closure(ps, rest, body, env) =>
      var vals := Bind(ps, rest, args).value;
      assert fuel > 0;
      var src, n: nat :| MadeFrom(f, f', src, n);
      var b := ConvertSeq(src, Gen(n), n + 1).0.value;
      var vals' := RelatedBind(ps, rest, args, args', Gen(n), k);
      RelatedBound(ps, vals, vals');
      RelatedFrame(env, f'.env, ps, vals, vals', n, k);
      FrameCont(ps, vals', f'.env, n, k);
      var inner := Rib(ps, vals, env);
      var inner' := Rib([Gen(n)] + ps, [k] + vals', f'.env);
      StepClosure(W, f', [k] + args', [k] + vals', tr);
      SeqShape(src, Gen(n), n + 1);
      var c;
      c, w := SeqOk(W, src, src[|src| - 1], Gen(n), n + 1, inner, inner', k, tr, fuel - 1, v, tr2);
      cost := 1 + c;
      LeadsTrans(W, Enter(f', [k] + args'), tr, 1, At(b, inner'), tr, c, Enter(k, [w]), tr2);
  }

  lemma RelatedBound(ps: seq<Name>, vals: seq<Val>, vals': seq<Val>)
    requires RelatedAll(Converted, vals, vals') && |vals'| == |ps|
    ensures |vals| == |ps|
  {
  }

  lemma FrameCont(ps: seq<Name>, vals: seq<Val>, env: Env, n: nat, k: Val)
    requires AllUser(ps)
    ensures Lookup(Rib([Gen(n)] + ps, [k] + vals, env), Gen(n)) == Some(k)
  {
    PositionFirst(Gen(n), ps);
  }

  lemma SeqShape(es: seq<Exp>, name: Name, n: nat)
    requires es != []
    ensures ConvertSeq(es, name, n) == ConvertFrom(es, es[|es| - 1], name, n)
  {
  }

  lemma SeqOk(W: World, es: seq<Exp>, last: Exp, name: Name, n: nat, env: Env, env': Env, k: Val, tr: seq<Event>, fuel: nat,
              v: Val, tr2: seq<Event>)
    returns (cost: nat, w: Val)
    requires es != [] && SourceAll(es) && last == es[|es| - 1] && RelatedEnv(env, env') && name.Gen? && name.n < n
    requires EvalBody(W, CutFrom(es, last), env, tr, fuel) == Ok(v, tr2) && Lookup(env', name) == Some(k)
    ensures Related(Converted, v, w)
    ensures Leads(W, At(ConvertFrom(es, last, name, n).0.value, env'), tr, cost, Enter(k, [w]), tr2)
    decreases fuel, 1, es, 0
  {
    hide Triv, Lookup, Leads, Reaches, Extends, Related, RelatedEnv, Convert, Eval, EvalBody, SelfEval, SameObject, Source, Cut,
         CutFrom, ConvertFrom;
    var unused: Env;
    SourceFirst(es);
    if |es| == 1 || SameObject(es[0], last) {
      TailBody(W, es, last, env, tr, fuel);
      cost, w, unused := ConvertOk(W, None, es[0], name, ConvertFrom(es[1..], last, name, n).1, env, env', k, tr, fuel, v, tr2);
      ReachesTail(W, es, last, name, n, env', k, tr, cost, w, unused, tr2);
    } else {
      var v0, tr1 := EvalBodyStep(W, es, last, env, tr, fuel, v, tr2);
      var rest := ConvertFrom(es[1..], last, name, n);
      FrontShape(es, last, name, n);
      if SelfEval(es[0]) {
        CutReady(es[0]);
        SelfEvalTriv(W, es[0], env, env', tr, fuel);
        cost, w := SeqOk(W, es[1..], last, name, n, env, env', k, tr, fuel, v, tr2);
      } else {
        var r := rest.0.value;
        var c := Convert(Some(r), es[0], Gen(rest.1), rest.1 + 1);
        var cost0, w0, mid := ConvertOk(W, Some(r), es[0], Gen(rest.1), rest.1 + 1, env, env', Null, tr, fuel, v0, tr1);
        ReachesBound(W, r, c, Gen(rest.1), rest.1 + 1, env', Null, tr, cost0, w0, mid, tr1);
        RelatedExtends(env, env', mid, {rest.1} + Between(rest.1 + 1, c.1));
        ExtendsAt(env', mid, {rest.1} + Between(rest.1 + 1, c.1), name);
        cost, w := SeqOk(W, es[1..], last, name, n, env, mid, k, tr1, fuel, v, tr2);
        LeadsTrans(W, At(c.0, env'), tr, cost0, At(r, mid), tr1, cost, Enter(k, [w]), tr2);
        cost := cost0 + cost;
      }
    }
  }

  lemma SourceFirst(es: seq<Exp>)
    requires es != [] && SourceAll(es)
    ensures Source(es[0]) && SourceAll(es[1..])
  {
    hide Source;
  }

  /** A body ends with its last expression, and with an expression `eq?` to it. */
  lemma TailBody(W: World, es: seq<Exp>, last: Exp, env: Env, tr: seq<Event>, fuel: nat)
    requires |es| == 1 || (es != [] && SameObject(es[0], last))
    ensures EvalBody(W, CutFrom(es, last), env, tr, fuel) == Eval(W, Cut(es[0]), env, tr, fuel)
  {
    hide Eval, Cut, SameObject;
    if !SameObject(es[0], last) {
      assert es[1..] == [];
      assert CutFrom(es, last) == [Cut(es[0])] + [];
    }
    assert CutFrom(es, last) == [Cut(es[0])];
  }

  /** How the code of a body begins when its first expression is not in tail position. */
  lemma FrontShape(es: seq<Exp>, last: Exp, name: Name, n: nat)
    requires |es| > 1 && !SameObject(es[0], last)
    ensures var rest := ConvertFrom(es[1..], last, name, n);
            && rest.0.Some?
            && ConvertFrom(es, last, name, n).0
               == if SelfEval(es[0]) then rest.0 else Some(Convert(rest.0, es[0], Gen(rest.1), rest.1 + 1).0)
  {
    hide Convert, SelfEval, SameObject;
  }

  /** A tail expression, ready or not, is given to the continuation. */
  lemma ReachesTail(W: World, es: seq<Exp>, last: Exp, name: Name, n: nat, env: Env, k: Val, tr: seq<Event>, cost: nat, w: Val,
                    after: Env, tr2: seq<Event>)
    requires |es| == 1 || (es != [] && SameObject(es[0], last))
    requires Reaches(W, None, Convert(None, es[0], name, ConvertFrom(es[1..], last, name, n).1), name,
                     ConvertFrom(es[1..], last, name, n).1, env, k, tr, cost, w, after, tr2)
    ensures Leads(W, At(ConvertFrom(es, last, name, n).0.value, env), tr, cost, Enter(k, [w]), tr2)
  {
    hide Leads;
    if SameObject(es[0], last) {
      assert SelfEval(es[0]);
    } else {
      assert es[1..] == [];
    }
  }

  lemma EvalBodyStep(W: World, es: seq<Exp>, last: Exp, env: Env, tr: seq<Event>, fuel: nat, v: Val, tr2: seq<Event>)
    returns (v0: Val, tr1: seq<Event>)
    requires |es| > 1 && !SameObject(es[0], last) && EvalBody(W, CutFrom(es, last), env, tr, fuel) == Ok(v, tr2)
    ensures Eval(W, Cut(es[0]), env, tr, fuel) == Ok(v0, tr1)
    ensures EvalBody(W, CutFrom(es[1..], last), env, tr1, fuel) == Ok(v, tr2)
  {
    hide Eval, Cut, SameObject;
    assert CutFrom(es, last)[1..] == CutFrom(es[1..], last);
    v0, tr1 := Eval(W, Cut(es[0]), env, tr, fuel).value, Eval(W, Cut(es[0]), env, tr, fuel).trace;
  }

  // ----- whole programs

  /**
   If the cut of a program computes `v` in direct style, then the program, converted and given `__exit` as its
   continuation, exits with the same value after the same calls of native functions, and only runs before that.
   */
  lemma ConversionMeansCut(W: World, e: Exp, fuel: nat, v: Val, trace: seq<Event>) returns (steps: nat, w: Val)
    requires e.Lam? && Source(e)
    requires Apply(W, Closure(e.ps, e.rest, CutBody(e.body), Empty), [], [], fuel) == Ok(v, trace)
    ensures Related(Converted, v, w) && Observe(v) == Observe(w)
    ensures forall F: nat :: Run(W, At(Call([CpsConvert(e), Var(User("__exit"))]), Empty), [], F)
                             == if F >= steps then Done(w, trace) else Running
  {
    hide Source, Related, RelatedEnv, Apply, Leads, ConvertLambda;
    var f := Closure(e.ps, e.rest, CutBody(e.body), Empty);
    assert RelatedEnv(Empty, Empty) by {
      NoBindings();
    }
    var f' := RelatedLambda(e, 0, Empty, Empty);
    var exit := Builtin("__exit");
    var c;
    c, w := ApplyOk(W, f, [], f', [], exit, [], fuel, v, trace);
    assert [exit] + [] == [exit];
    RelatedObserve(Converted, v, w);
    var es := [CpsConvert(e), Var(User("__exit"))];
    ExitIsBound();
    TrivTwo(es[0], es[1], Empty, f', exit);
    assert [f'] + [exit] == [f', exit];
    StepCall(W, es, Empty, [], f', [exit]);
    LeadsTrans(W, At(Call(es), Empty), [], 0, Enter(f', [exit]), [], c, Enter(exit, [w]), trace);
    steps := c + 1;
    RunToExit(W, At(Call(es), Empty), c, w, trace);
  }

  lemma NoBindings()
    ensures RelatedEnv(Empty, Empty)
  {
    forall s: string ensures RelatedAt(Empty, Empty, s) {
    }
  }

  lemma ExitIsBound()
    ensures Triv(Var(User("__exit")), Empty) == Some(Builtin("__exit"))
  {
    assert BUILTINS[1].0 == "__exit";
  }

  lemma RunToExit(W: World, c: Config, cost: nat, w: Val, tr: seq<Event>)
    requires Leads(W, c, [], cost, Enter(Builtin("__exit"), [w]), tr)
    ensures forall F: nat :: Run(W, c, [], F) == if F >= cost + 1 then Done(w, tr) else Running
  {
    forall F: nat ensures Run(W, c, [], F) == if F >= cost + 1 then Done(w, tr) else Running {
      if F >= cost {
        assert Run(W, c, [], F - cost + cost) == Run(W, Enter(Builtin("__exit"), [w]), tr, F - cost);
        assert Run(W, Enter(Builtin("__exit"), [w]), tr, F - cost) == if F - cost == 0 then Running else Done(w, tr);
      }
    }
  }

  /** Exactly the tidy programs are left whole. */
  lemma {:induction false} CutIffUntidy(e: Exp)
    ensures (Cut(e) == e) == Tidy(e)
    decreases e, 2
  {
    match e
    case Lit(_) =>
    case Quote(_) =>
    case Var(_) =>
    case Op(_, args) => CutAllIffUntidy(args);
    case Lam(_, _, body) => CutBodyIffUntidy(body);
    case If(test, yes, no) =>
      CutIffUntidy(test);
      CutIffUntidy(yes);
      CutIffUntidy(no);
    case Call(es) => CutAllIffUntidy(es);
  }

  lemma {:induction false} CutAllIffUntidy(es: seq<Exp>)
    ensures (CutAll(es) == es) == TidyAll(es)
    decreases es, 0
  {
    hide Cut, Tidy;
    if es != [] {
      CutIffUntidy(es[0]);
      CutAllIffUntidy(es[1..]);
      assert es == [es[0]] + es[1..];
      assert CutAll(es)[0] == Cut(es[0]) && CutAll(es)[1..] == CutAll(es[1..]);
    }
  }

  lemma {:induction false} CutBodyIffUntidy(es: seq<Exp>)
    ensures (CutBody(es) == es) == (NoEarlyTail(es) && TidyAll(es))
    decreases es, 1
  {
    hide Cut, Tidy, TidyAll;
    if es != [] {
      CutFromIffUntidy(es, es[|es| - 1]);
    } else {
      assert TidyAll([]) by {
        NothingTidy();
      }
    }
  }

  lemma NothingTidy()
    ensures TidyAll([])
  {
  }

  /** No expression before the end of `es` is `eq?` to `last`. */
  predicate NoneBefore(es: seq<Exp>, last: Exp) { forall i | 0 <= i < |es| - 1 :: !SameObject(es[i], last) }

  lemma {:induction false} CutFromIffUntidy(es: seq<Exp>, last: Exp)
    requires es != []
    ensures (CutFrom(es, last) == es) == (NoneBefore(es, last) && TidyAll(es))
    ensures |CutFrom(es, last)| <= |es|
    decreases es, 0
  {
    hide Cut, Tidy, SameObject;
    CutIffUntidy(es[0]);
    assert es == [es[0]] + es[1..];
    if |es| == 1 {
      assert es[1..] == [];
      assert CutFrom(es, last) == [Cut(es[0])] + [] == [Cut(es[0])];
    } else {
      CutFromIffUntidy(es[1..], last);
      NoneBeforeRest(es, last);
      if !SameObject(es[0], last) {
        assert CutFrom(es, last)[0] == Cut(es[0]) && CutFrom(es, last)[1..] == CutFrom(es[1..], last);
      }
    }
  }

  lemma NoneBeforeRest(es: seq<Exp>, last: Exp)
    requires |es| > 1
    ensures NoneBefore(es, last) == (!SameObject(es[0], last) && NoneBefore(es[1..], last))
  {
    hide SameObject;
    if !SameObject(es[0], last) && NoneBefore(es[1..], last) {
      forall i | 0 <= i < |es| - 1 ensures !SameObject(es[i], last) {
        if i > 0 {
          assert es[i] == es[1..][i - 1];
        }
      }
    }
    if NoneBefore(es, last) {
      forall i | 0 <= i < |es[1..]| - 1 ensures !SameObject(es[1..][i], last) {
        assert es[1..][i] == es[i + 1];
      }
    }
  }

  /** Conversion keeps the meaning of every tidy program. */
  lemma ConversionPreservesMeaning(W: World, e: Exp, fuel: nat, v: Val, trace: seq<Event>) returns (steps: nat, w: Val)
    requires e.Lam? && Source(e) && Tidy(e)
    requires Apply(W, Closure(e.ps, e.rest, e.body, Empty), [], [], fuel) == Ok(v, trace)
    ensures Related(Converted, v, w) && Observe(v) == Observe(w)
    ensures forall F: nat :: Run(W, At(Call([CpsConvert(e), Var(User("__exit"))]), Empty), [], F)
                             == if F >= steps then Done(w, trace) else Running
  {
    hide Source, Related, Apply, Run, Tidy, CpsConvert, Observe;
    CutIffUntidy(e);
    steps, w := ConversionMeansCut(W, e, fuel, v, trace);
  }
}
