/** What it means for a code array to implement an expression. */
module CodeSpec {
  import opened Wrappers
  import opened Syntax
  import opened Values
  import opened Machine

  /** The parameters of one enclosing procedure, and whether their frame is allocated on the heap. */
  datatype Scope = Scope(names: seq<Name>, heap: bool)

  /** The source of a compiled procedure: `chain` holds the procedures around it, innermost first. */
  datatype Info = Info(ps: seq<Name>, rest: bool, body: seq<Exp>, chain: seq<Scope>)

  /** Everything the code of one procedure refers to; `scopes` includes the procedure itself. */
  datatype Context = Context(scopes: seq<Scope>, consts: seq<Datum>, infos: seq<Info>, bindings: seq<(nat, nat)>,
                             bindmap: seq<nat>, ops: seq<Instr>)

  // ----- static scoping

  /** How many procedures out, and in which slot, `x` is found. */
  function Find(scopes: seq<Scope>, x: Name): (r: Option<(nat, nat)>)
    ensures r.Some? ==> r.value.0 < |scopes| && r.value.1 < |scopes[r.value.0].names|
  {
    if scopes == [] then None else
    match Position(scopes[0].names, x)
    case Some(i) => Some((0, i))
    case None =>
      match Find(scopes[1..], x)
      case Some((step, slot)) => Some((step + 1, slot))
      case None => None
  }

  /** The variables an expression uses from outside. */
  function Free(e: Exp): set<Name> {
    match e
    case Lit(_) => {}
    case Quote(_) => {}
    case Var(x) => {x}
    case Op(_, args) => FreeAll(args)
    case Lam(ps, _, body) => FreeAll(body) - (set x | x in ps)
    case If(test, yes, no) => Free(test) + Free(yes) + Free(no)
    case Call(es) => FreeAll(es)
  }

  function FreeAll(es: seq<Exp>): set<Name> {
    if es == [] then {} else Free(es[0]) + FreeAll(es[1..])
  }

  /** The variables that the lambda expressions inside an expression use. */
  function Captured(e: Exp): set<Name> {
    match e
    case Lit(_) => {}
    case Quote(_) => {}
    case Var(_) => {}
    case Op(_, args) => CapturedAll(args)
    case Lam(_, _, _) => Free(e)
    case If(test, yes, no) => Captured(test) + Captured(yes) + Captured(no)
    case Call(es) => CapturedAll(es)
  }

  function CapturedAll(es: seq<Exp>): set<Name> {
    if es == [] then {} else Captured(es[0]) + CapturedAll(es[1..])
  }

  /** The frame of a procedure must outlive its call when an inner procedure uses a parameter. */
  predicate NeedsHeap(ps: seq<Name>, body: seq<Exp>) {
    exists i | 0 <= i < |ps| :: ps[i] in CapturedAll(body)
  }

  // ----- code

  function Len(e: Exp): (n: nat)
    ensures n > 0
  {
    match e
    case Lit(_) => 1
    case Quote(_) => 1
    case Var(_) => 1
    case Op(_, args) => LenAll(args) + 1
    case Lam(_, _, _) => 1
    case If(test, yes, no) => Len(test) + Len(yes) + Len(no) + 2
    case Call(es) => LenAll(es) + 1
  }

  function LenAll(es: seq<Exp>): nat {
    if es == [] then 0 else Len(es[0]) + LenAll(es[1..])
  }

  function Max(a: int, b: int): int { if a < b then b else a }

  /** The most operands that the code of an expression has on the stack at a time. */
  function Need(e: Exp): (n: nat)
    ensures n > 0
  {
    match e
    case Lit(_) => 1
    case Quote(_) => 1
    case Var(_) => 1
    case Op(_, args) => Max(NeedAll(args), 1)
    case Lam(_, _, _) => 1
    case If(test, yes, no) => Max(Need(test), Max(Need(yes), Need(no)))
    case Call(es) => if es == [] then 1 else Max(NeedAll(es[1..]), |es| - 1 + Need(es[0]))
  }

  function NeedAll(es: seq<Exp>): nat {
    if es == [] then 0 else Max(Need(es[0]), 1 + NeedAll(es[1..]))
  }

  predicate IsConst(c: Context, i: Instr, d: Datum) {
    i.LoadConst? && i.index < |c.consts| && c.consts[i.index] == d
  }

  /** `fn` is the procedure compiled from `e` in these scopes. */
  predicate IsLambda(c: Context, fn: nat, e: Exp) {
    e.Lam? && fn < |c.infos| && c.infos[fn] == Info(e.ps, e.rest, e.body, c.scopes)
  }

  /** Binding `b` leads to the given slot of the frame of the procedure `step` levels out. */
  predicate IsBinding(c: Context, b: nat, step: nat, slot: nat) {
    && step < |c.scopes| && c.scopes[step].heap
    && b < |c.bindings| && c.bindings[b].1 == slot
    && c.bindings[b].0 < |c.bindmap| && c.bindmap[c.bindings[b].0] == |c.scopes| - 1 - step
  }

  predicate IsVar(c: Context, i: Instr, x: Name) {
    match Find(c.scopes, x)
    case Some((step, slot)) =>
      if step == 0 then i == LoadLocal(slot) else i.LoadBind? && IsBinding(c, i.binding, step, slot)
    case None => x.User? && IsBuiltin(x.s) && IsConst(c, i, DStatic(x.s))
  }

  /** The name of a native function that leaves the continuation alone. */
  predicate ContSafe(x: Name) { x.User? && IsBuiltin(x.s) && !ChangesCont(x.s) }

  /** Such a name is called with a lambda expression as its continuation. */
  predicate DirectCont(es: seq<Exp>) { |es| > 1 && es[0].Var? && es[1].Lam? && ContSafe(es[0].x) }

  /** And by static scoping it means the native function. */
  predicate NativeCall(scopes: seq<Scope>, es: seq<Exp>) { DirectCont(es) && Find(scopes, es[0].x).None? }

  /** The code at `pc` implements `e`. */
  predicate Emits(c: Context, e: Exp, pc: nat)
    decreases e, 1
  {
    pc + Len(e) <= |c.ops| &&
    match e
    case Lit(d) =>
      if d.DBool? then c.ops[pc] == PushBool(d.b)
      else (d.DChar? || d.DFixnum? || d.DString?) && IsConst(c, c.ops[pc], d)
    case Quote(d) => if d.DNull? then c.ops[pc] == PushNull else IsConst(c, c.ops[pc], d)
    case Var(x) => IsVar(c, c.ops[pc], x)
    case Op(op, args) =>
      |args| == Arity(op) && EmitsAll(c, args, pc) && c.ops[pc + LenAll(args)] == Operation(op)
    case Lam(_, _, _) => c.ops[pc].LoadClosure? && IsLambda(c, c.ops[pc].fn, e)
    case If(_, _, _) => EmitsIf(c, e, pc)
    case Call(es) => EmitsCall(c, es, pc)
  }

  predicate EmitsIf(c: Context, e: Exp, pc: nat)
    decreases e, 0
  {
    && e.If? && pc + Len(e) <= |c.ops|
    && Emits(c, e.test, pc)
    && c.ops[pc + Len(e.test)] == JumpIfFalse(Len(e.yes) + 1)
    && Emits(c, e.yes, pc + Len(e.test) + 1)
    && c.ops[pc + Len(e.test) + 1 + Len(e.yes)] == JumpForward(Len(e.no))
    && Emits(c, e.no, pc + Len(e.test) + 1 + Len(e.yes) + 1)
  }

  predicate EmitsAll(c: Context, es: seq<Exp>, pc: nat)
    decreases es, 0
  {
    es == [] || (Emits(c, es[0], pc) && EmitsAll(c, es[1..], pc + Len(es[0])))
  }

  /** Arguments first, then the procedure; a lambda expression that is called right away is loaded as a function. */
  predicate EmitsCall(c: Context, es: seq<Exp>, pc: nat)
    decreases es, 1
  {
    && es != [] && pc + LenAll(es) < |c.ops|
    && EmitsArgs(c, es, pc) && EmitsOperator(c, es, pc + LenAll(es[1..]))
    && c.ops[pc + LenAll(es)] == FuncCall(|es| - 1)
  }

  /** Where the native function is meant, and only there, its continuation may be loaded as a function. */
  predicate EmitsArgs(c: Context, es: seq<Exp>, pc: nat)
    decreases es, 0
  {
    if NativeCall(c.scopes, es) && pc < |c.ops| && c.ops[pc].LoadFunc? then
      IsLambda(c, c.ops[pc].fn, es[1]) && EmitsAll(c, es[2..], pc + 1)
    else es != [] && EmitsAll(c, es[1..], pc)
  }

  predicate EmitsOperator(c: Context, es: seq<Exp>, pc: nat)
    decreases es, 0
  {
    es != [] &&
    if es[0].Lam? then pc < |c.ops| && c.ops[pc].LoadFunc? && IsLambda(c, c.ops[pc].fn, es[0])
    else Emits(c, es[0], pc)
  }

  // ----- procedures and modules

  /** The frames a procedure asks for exist whenever it is entered. */
  predicate BindmapOk(scopes: seq<Scope>, bindmap: seq<nat>) {
    forall u {:trigger bindmap[u]} | 0 <= u < |bindmap| ::
      bindmap[u] < |scopes| - 1 && scopes[|scopes| - 1 - bindmap[u]].heap
  }

  function ScopesOf(i: Info): seq<Scope> { [Scope(i.ps, NeedsHeap(i.ps, i.body))] + i.chain }

  function ContextOf(consts: seq<Datum>, infos: seq<Info>, f: Procedure, i: Info): Context {
    Context(ScopesOf(i), consts, infos, f.bindings, f.bindmap, f.ops)
  }

  predicate ProcedureOk(consts: seq<Datum>, infos: seq<Info>, f: Procedure, i: Info) {
    && (i.rest ==> |i.ps| > 0)
    && f.argc == (if i.rest then |i.ps| - 1 else |i.ps|)
    && f.swallow == i.rest && f.envSize == |i.ps| && f.depth == |i.chain|
    && f.heap == NeedsHeap(i.ps, i.body)
    && |f.ops| == LenAll(i.body)
    && (f.bindings == [] <==> f.bindmap == [])
    && BindmapOk(ScopesOf(i), f.bindmap)
    && EmitsAll(ContextOf(consts, infos, f, i), i.body, 0)
  }

  predicate TableOk(consts: seq<Datum>, infos: seq<Info>, funcs: seq<Procedure>) {
    |infos| == |funcs| &&
    forall k {:trigger infos[k]} {:trigger funcs[k]} | 0 <= k < |funcs| :: ProcedureOk(consts, infos, funcs[k], infos[k])
  }

  predicate Implements(M: Image, infos: seq<Info>, e: Exp) {
    && TableOk(M.consts, infos, M.funcs)
    && e.Lam? && M.entry < |infos| && infos[M.entry] == Info(e.ps, e.rest, e.body, [])
  }

  // ----- code is kept when the tables grow, and may be moved

  predicate Grows(c: Context, c': Context) {
    && c'.scopes == c.scopes && c.consts <= c'.consts && c.infos <= c'.infos
    && c.bindings <= c'.bindings && c.bindmap <= c'.bindmap
  }

  /** `len` operations at `pc` in one array are those at `pc'` in the other. */
  predicate SameOps(ops: seq<Instr>, pc: nat, ops': seq<Instr>, pc': nat, len: nat) {
    && pc + len <= |ops| && pc' + len <= |ops'|
    && forall k {:trigger ops[k]} | pc <= k < pc + len :: ops'[pc' + k - pc] == ops[k]
  }
}
