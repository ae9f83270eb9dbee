/** scheme/compiler/cps.scm. The counter behind `gen-name` is threaded through as `n`. */
module Cps {
  import opened Wrappers
  import opened Syntax

  predicate SelfEval(e: Exp) {
    match e
    case Lit(_) => true
    case Quote(_) => true
    case Var(_) => true
    case Op(_, args) => SelfEvalAll(args)
    case Lam(_, _, _) => false
    case If(_, _, _) => false
    case Call(_) => false
  }

  predicate SelfEvalAll(es: seq<Exp>) {
    es == [] || (SelfEval(es[0]) && SelfEvalAll(es[1..]))
  }

  /** `eq?` on two nodes of a program: atoms compare by value, everything else is its own object. */
  predicate SameObject(x: Exp, y: Exp) {
    x == y && (x.Var? || (x.Lit? && !x.d.DString?))
  }

  /** Binding `name` to a ready value in front of `res`, or passing the value to the continuation `name`. */
  function Deliver(res: Option<Exp>, v: Exp, name: Name): Exp {
    match res
    case None => Call([Var(name), v])
    case Some(r) => Call([Lam([name], false, [r]), v])
  }

  /** The continuation argument of a call. */
  function Control(res: Option<Exp>, name: Name): Exp {
    match res
    case None => Var(name)
    case Some(r) => Lam([name], false, [r])
  }

  /** `convert`: the code that computes `e`, then continues with `res`, or with the continuation `name`. */
  function Convert(res: Option<Exp>, e: Exp, name: Name, n: nat): (r: (Exp, nat))
    ensures r.1 >= n
    decreases e, 2
  {
    if SelfEval(e) then (Deliver(res, e, name), n) else
    match e
    case Lit(_) => (e, n)
    case Quote(_) => (e, n)
    case Var(_) => (e, n)
    case Lam(ps, rest, body) =>
      var (f, n1) := ConvertLambda(e, n);
      (Deliver(res, f, name), n1)
    case If(test, yes, no) =>
      var predname, n1 := if SelfEval(test) then test else Var(Gen(n)), if SelfEval(test) then n else n + 1;
      var lname := Gen(n1);
      var escape := if res.None? then name else lname;
      var (y, n2) := Convert(None, yes, escape, n1 + 1);
      var (z, n3) := Convert(None, no, escape, n2);
      var condition := If(predname, y, z);
      var expr := match res
        case None => condition
        case Some(r) => Call([Lam([lname], false, [condition]), Lam([name], false, [r])]);
      if SelfEval(test) then (expr, n3) else Convert(Some(expr), test, Gen(n), n3)
    case Op(op, args) =>
      var (largs, n1) := MapArgs(args, n);
      Glue(Call([Control(res, name), Op(op, largs)]), args, largs, n1)
    case Call(es) =>
      var (largs, n1) := MapArgs(es, n);
      if largs == [] then (e, n1) else
      Glue(Call([largs[0], Control(res, name)] + largs[1..]), es, largs, n1)
  }

  /** `convert-func`. */
  function ConvertLambda(e: Exp, n: nat): (r: (Exp, nat))
    requires e.Lam?
    ensures r.1 > n
    decreases e, 1
  {
    var (b, n1) := ConvertSeq(e.body, Gen(n), n + 1);
    (Lam([Gen(n)] + e.ps, e.rest, if b.Some? then [b.value] else []), n1)
  }

  /** The `largs` of a combination, computed from the last element to the first. */
  function MapArgs(es: seq<Exp>, n: nat): (r: (seq<Exp>, nat))
    ensures |r.0| == |es| && r.1 >= n
    decreases es, 0
  {
    if es == [] then ([], n) else
    var (ls, n1) := MapArgs(es[1..], n);
    if SelfEval(es[0]) then ([es[0]] + ls, n1)
    else if es[0].Lam? then
      var (f, n2) := ConvertLambda(es[0], n1);
      ([f] + ls, n2)
    else ([Var(Gen(n1))] + ls, n1 + 1)
  }

  /** The fold that puts the computation of each non-trivial element in front of `expr`. */
  function Glue(expr: Exp, es: seq<Exp>, ls: seq<Exp>, n: nat): (r: (Exp, nat))
    requires |ls| == |es|
    ensures r.1 >= n
    decreases es, 0
  {
    if es == [] then (expr, n) else
    var (inner, n1) := Glue(expr, es[1..], ls[1..], n);
    if SelfEval(es[0]) || es[0].Lam? || !ls[0].Var? then (inner, n1)
    else Convert(Some(inner), es[0], ls[0].x, n1)
  }

  /** `convert-seq` with a null `res`. */
  function ConvertSeq(es: seq<Exp>, name: Name, n: nat): (r: (Option<Exp>, nat))
    ensures r.0.Some? == (es != []) && r.1 >= n
    decreases es, 1
  {
    if es == [] then (None, n) else ConvertFrom(es, es[|es| - 1], name, n)
  }

  /** The fold over a body whose last expression is `last`. */
  function ConvertFrom(es: seq<Exp>, last: Exp, name: Name, n: nat): (r: (Option<Exp>, nat))
    ensures r.0.Some? == (es != []) && r.1 >= n
    decreases es, 0
  {
    if es == [] then (None, n) else
    var (prev, n1) := ConvertFrom(es[1..], last, name, n);
    var tail := |es| == 1 || SameObject(es[0], last);
    if SelfEval(es[0]) then
      (if tail then Some(Call([Var(name), es[0]])) else prev, n1)
    else
      var (c, n2) := Convert(prev, es[0], if tail then name else Gen(n1), if tail then n1 else n1 + 1);
      (Some(c), n2)
  }

  function CpsConvert(e: Exp): Exp
    requires e.Lam?
  {
    ConvertLambda(e, 0).0
  }
}

/** The meaning of programs before and after conversion. */
module Meaning {
  import opened Wrappers
  import opened Syntax
  import opened Values

  // ----- direct style: arguments left to right, calls return

  datatype Result<T> = Ok(value: T, trace: seq<Event>) | Stuck | Timeout

  function Eval(W: World, e: Exp, env: Env, tr: seq<Event>, fuel: nat): Result<Val>
    decreases fuel, 1, e
  {
    match e
    case Lit(d) => Ok(DatumVal(d), tr)
    case Quote(d) => Ok(DatumVal(d), tr)
    case Var(x) =>
      (match Resolve(env, x)
       case Some(v) => Ok(v, tr)
       case None => Stuck)
    case Op(op, args) =>
      (match EvalAll(W, args, env, tr, fuel)
       case Ok(vs, tr1) =>
         (match Operate(op, vs)
          case Some(v) => Ok(v, tr1)
          case None => Stuck)
       case Stuck => Stuck
       case Timeout => Timeout)
    case Lam(ps, rest, body) => Ok(Closure(ps, rest, body, env), tr)
    case If(test, yes, no) =>
      (match Eval(W, test, env, tr, fuel)
       case Ok(v, tr1) => Eval(W, if v == Bool(false) then no else yes, env, tr1, fuel)
       case Stuck => Stuck
       case Timeout => Timeout)
    case Call(es) =>
      (match EvalAll(W, es, env, tr, fuel)
       case Ok(vs, tr1) => if vs == [] then Stuck else Apply(W, vs[0], vs[1..], tr1, fuel)
       case Stuck => Stuck
       case Timeout => Timeout)
  }

  function EvalAll(W: World, es: seq<Exp>, env: Env, tr: seq<Event>, fuel: nat): Result<seq<Val>>
    decreases fuel, 1, es
  {
    if es == [] then Ok([], tr) else
    match Eval(W, es[0], env, tr, fuel)
    case Ok(v, tr1) =>
      (match EvalAll(W, es[1..], env, tr1, fuel)
       case Ok(vs, tr2) => Ok([v] + vs, tr2)
       case Stuck => Stuck
       case Timeout => Timeout)
    case Stuck => Stuck
    case Timeout => Timeout
  }

  /** A body: the value of its last expression. */
  function EvalBody(W: World, es: seq<Exp>, env: Env, tr: seq<Event>, fuel: nat): Result<Val>
    decreases fuel, 1, es
  {
    if es == [] then Stuck
    else if |es| == 1 then Eval(W, es[0], env, tr, fuel)
    else
      match Eval(W, es[0], env, tr, fuel)
      case Ok(_, tr1) => EvalBody(W, es[1..], env, tr1, fuel)
      case Stuck => Stuck
      case Timeout => Timeout
  }

  /** `fuel` bounds the nesting of calls. */
  function Apply(W: World, f: Val, args: seq<Val>, tr: seq<Event>, fuel: nat): Result<Val>
    decreases fuel, 0, 0
  {
    if fuel == 0 then Timeout else
    match f
    case Closure(ps, rest, body, env) =>
      (match Bind(ps, rest, args)
       case Some(vals) => EvalBody(W, body, Rib(ps, vals, env), tr, fuel - 1)
       case None => Stuck)
    case Builtin(name) =>
      if !Returns(name) then Stuck else
      (match W(tr, name, ObserveAll(args))
       case Some(d) => Ok(DatumVal(d), tr + [Event(name, ObserveAll(args))])
       case None => Stuck)
    case _ => Stuck
  }

  // ----- continuation-passing style: calls never return

  /** The value of an expression that calls nothing. */
  function Triv(e: Exp, env: Env): Option<Val> {
    match e
    case Lit(d) => Some(DatumVal(d))
    case Quote(d) => Some(DatumVal(d))
    case Var(x) => Resolve(env, x)
    case Op(op, args) => var vs :- TrivAll(args, env); Operate(op, vs)
    case Lam(ps, rest, body) => Some(Closure(ps, rest, body, env))
    case If(test, yes, no) => var v :- Triv(test, env); Triv(if v == Bool(false) then no else yes, env)
    case Call(_) => None
  }

  function TrivAll(es: seq<Exp>, env: Env): (r: Option<seq<Val>>)
    ensures r.Some? ==> |r.value| == |es|
  {
    if es == [] then Some([]) else
    var v :- Triv(es[0], env);
    var vs :- TrivAll(es[1..], env);
    Some([v] + vs)
  }

  datatype Outcome = Done(v: Val, trace: seq<Event>) | Broken | Running

  /** A tail-calling program is about to evaluate an expression, or to enter a procedure. */
  datatype Config = At(e: Exp, env: Env) | Enter(f: Val, args: seq<Val>)

  /** The rest of the run; `fuel` bounds the number of procedures entered. */
  function Run(W: World, c: Config, tr: seq<Event>, fuel: nat): Outcome
    decreases fuel, if c.At? then 1 else 0, if c.At? then c.e else Call([])
  {
    match c
    case At(If(test, yes, no), env) =>
      (match Triv(test, env)
       case Some(v) => Run(W, At(if v == Bool(false) then no else yes, env), tr, fuel)
       case None => Broken)
    case At(Call(es), env) =>
      (match TrivAll(es, env)
       case Some(vs) => if vs == [] then Broken else Run(W, Enter(vs[0], vs[1..]), tr, fuel)
       case None => Broken)
    case At(_, _) => Broken
    case Enter(f, args) =>
      if fuel == 0 then Running else
      match f
      case Closure(ps, rest, body, env) =>
        (match Bind(ps, rest, args)
         case Some(vals) =>
           if |body| == 1 then Run(W, At(body[0], Rib(ps, vals, env)), tr, fuel - 1) else Broken
         case None => Broken)
      case Builtin(name) =>
        if name == "__exit" && |args| == 1 then Done(args[0], tr)
        else if !Returns(name) || args == [] then Broken
        else
          (match W(tr, name, ObserveAll(args[1..]))
           case Some(d) =>
             Run(W, Enter(args[0], [DatumVal(d)]), tr + [Event(name, ObserveAll(args[1..]))], fuel - 1)
           case None => Broken)
      case _ => Broken
  }
}
