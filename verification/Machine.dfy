/** vm/vm.c: modules, threads and the interpreter. */
module Machine {
  import opened Wrappers
  import opened Syntax
  import opened Values
  import opened Meaning

  datatype Instr =
    | LoadFunc(fn: nat)
    | LoadClosure(fn: nat)
    | LoadLocal(slot: nat)
    | LoadBind(binding: nat)
    | LoadConst(index: nat)
    | PushBool(b: bool)
    | PushNull
    | JumpIfFalse(skip: nat)
    | JumpForward(skip: nat)
    | FuncCall(argc: nat)
    | Operation(op: Operator)

  /** `bindings` holds pairs of an index into `bindmap` and a slot, `bindmap` the depths of the frames used. */
  datatype Procedure = Procedure(argc: nat, swallow: bool, envSize: nat, heap: bool, depth: nat, bindings: seq<(nat, nat)>,
                                 bindmap: seq<nat>, ops: seq<Instr>)

  datatype Image = Image(consts: seq<Datum>, funcs: seq<Procedure>, entry: nat)

  /** Where `objects` points: into the operand stack, or at the slots of the innermost frame. */
  datatype Locals = OnStack(base: nat) | OnHeap

  /**
   The thread. `stack` is the used part of `opstack`, `bindmap` its position there. `call` is the procedure about to
   be dispatched, with its number of arguments.
   */
  datatype Thread = Thread(fn: nat, pc: nat, stack: seq<Val>, locals: Locals, bindmap: Option<nat>, env: MEnv,
                           call: Option<(Val, nat)>, trace: seq<Event>)

  datatype Move = Next(t: Thread) | Halt(v: Val) | Fail

  /** `STACK_PUSH` keeps one of the 512 slots free. */
  const STACK_LIMIT := 511

  function Push(t: Thread, v: Val): Move {
    if |t.stack| < STACK_LIMIT then Next(t.(stack := t.stack + [v], pc := t.pc + 1)) else Fail
  }

  function Top(t: Thread, n: nat): (vs: seq<Val>)
    requires n <= |t.stack|
    ensures |vs| == n
  {
    t.stack[|t.stack| - n..]
  }

  function Drop(t: Thread, n: nat): (vs: seq<Val>)
    requires n <= |t.stack|
    ensures |vs| == |t.stack| - n
  {
    t.stack[..|t.stack| - n]
  }

  /** `env_display`. */
  function Display(env: MEnv, depth: nat): Option<MEnv> {
    match env
    case NoEnv => None
    case Frame(d, _, prev) => if d == depth then Some(env) else Display(prev, depth)
  }

  /** `bindmap_init`. */
  function BindEnvs(env: MEnv, depths: seq<nat>): (r: Option<seq<Val>>)
    ensures r.Some? ==> |r.value| == |depths|
  {
    if depths == [] then Some([]) else
    var frame :- Display(env, depths[0]);
    var rest :- BindEnvs(env, depths[1..]);
    Some([EnvRef(frame)] + rest)
  }

  /** The surplus arguments of a procedure with a rest parameter become a list. */
  function Swallow(f: Procedure, t: Thread, argc: nat): Thread
    requires f.argc <= argc <= |t.stack|
  {
    var surplus := argc - f.argc;
    t.(stack := Drop(t, surplus) + [ListVal(Top(t, surplus))])
  }

  /** The arguments move to a new frame, or to the bottom of the stack when that is worth it. */
  function PlaceArgs(f: Procedure, t: Thread, n: nat): Thread
    requires n <= |t.stack|
  {
    if f.heap then
      t.(env := Frame(f.depth, Top(t, n), t.env), locals := OnHeap, stack := if n > 0 then [] else t.stack)
    else if |t.stack| > n * 2 then
      t.(stack := Top(t, n), locals := OnStack(0))
    else
      t.(locals := OnStack(|t.stack| - n))
  }

  function PlaceBindmap(f: Procedure, t: Thread): Move {
    if f.bindings == [] || t.bindmap.Some? then Next(t) else
    match BindEnvs(t.env, f.bindmap)
    case None => Fail
    case Some(refs) =>
      if |t.stack| + |refs| > STACK_LIMIT then Fail
      else Next(t.(bindmap := Some(|t.stack|), stack := t.stack + refs))
  }

  /** `enter_interp`, after the check of the number of arguments. */
  function EnterInterp(M: Image, fn: nat, t: Thread, argc: nat): Move {
    if fn >= |M.funcs| || argc > |t.stack| then Fail else
    var f := M.funcs[fn];
    if (if f.swallow then argc < f.argc else argc != f.argc) then Fail else
    var t1 := if f.swallow then Swallow(f, t, argc) else t;
    var n := if f.swallow then f.argc + 1 else f.argc;
    if f.envSize != n || |t1.stack| > STACK_LIMIT then Fail else
    PlaceBindmap(f, PlaceArgs(f, t1.(fn := fn, pc := 0, call := None), n))
  }

  /** `dispatch_func`: `fp` is called with the `argc` topmost values. */
  function Dispatch(M: Image, W: World, t: Thread, fp: Val, argc: nat): Move {
    match fp
    case Code(fn, env) => EnterInterp(M, fn, t.(env := env, bindmap := None), argc)
    case Func(fn) => EnterInterp(M, fn, t.(bindmap := None), argc)
    case Builtin(name) =>
      if argc > |t.stack| || argc == 0 then Fail else
      var argv := Top(t, argc);
      if name == "__exit" && argc == 1 then Halt(argv[0])
      else if !Returns(name) then Fail
      else
        (match W(t.trace, name, ObserveAll(argv[1..]))
         case Some(d) =>
           if |t.stack| < STACK_LIMIT then
             Next(t.(stack := t.stack + [DatumVal(d)], bindmap := None, call := Some((argv[0], 1)),
                     trace := t.trace + [Event(name, ObserveAll(argv[1..]))]))
           else Fail
         case None => Fail)
    case _ => Fail
  }

  /** The slot a variable of the current procedure lives in. */
  function LocalVal(t: Thread, slot: nat): Option<Val> {
    match t.locals
    case OnStack(base) => if base + slot < |t.stack| then Some(t.stack[base + slot]) else None
    case OnHeap => if t.env.Frame? && slot < |t.env.objects| then Some(t.env.objects[slot]) else None
  }

  /** The slot of an outer procedure that a binding names, found through the bindmap. */
  function BoundVal(f: Procedure, t: Thread, binding: nat): Option<Val> {
    if binding >= |f.bindings| || t.bindmap.None? then None else
    var (up, slot) := f.bindings[binding];
    var at := t.bindmap.value + up;
    if at < |t.stack| && t.stack[at].EnvRef? && t.stack[at].menv.Frame? && slot < |t.stack[at].menv.objects| then
      Some(t.stack[at].menv.objects[slot])
    else None
  }

  function PushSome(t: Thread, v: Option<Val>): Move {
    if v.Some? then Push(t, v.value) else Fail
  }

  /** The operator's operands are replaced by its value. */
  function ApplyOp(t: Thread, op: Operator): Move {
    if |t.stack| < Arity(op) then Fail else
    match Operate(op, Top(t, Arity(op)))
    case None => Fail
    case Some(v) => Next(t.(stack := Drop(t, Arity(op)) + [v], pc := t.pc + 1))
  }

  function Exec(M: Image, f: Procedure, t: Thread, i: Instr): Move {
    match i
    case LoadFunc(fn) => Push(t, Func(fn))
    case LoadClosure(fn) => Push(t, Code(fn, t.env))
    case LoadLocal(slot) => PushSome(t, LocalVal(t, slot))
    case LoadBind(b) => PushSome(t, BoundVal(f, t, b))
    case LoadConst(c) => if c < |M.consts| then Push(t, DatumVal(M.consts[c])) else Fail
    case PushBool(b) => Push(t, Bool(b))
    case PushNull => Push(t, Null)
    case JumpIfFalse(skip) =>
      if t.stack == [] then Fail
      else Next(t.(stack := Drop(t, 1), pc := t.pc + 1 + if Top(t, 1)[0] == Bool(false) then skip else 0))
    case JumpForward(skip) => Next(t.(pc := t.pc + 1 + skip))
    case FuncCall(argc) =>
      if t.stack == [] then Fail
      else Next(t.(stack := Drop(t, 1), pc := t.pc + 1, call := Some((Top(t, 1)[0], argc))))
    case Operation(op) => ApplyOp(t, op)
  }

  function Step(M: Image, W: World, t: Thread): Move {
    if t.call.Some? then Dispatch(M, W, t, t.call.value.0, t.call.value.1)
    else if t.fn < |M.funcs| && t.pc < |M.funcs[t.fn].ops| then Exec(M, M.funcs[t.fn], t, M.funcs[t.fn].ops[t.pc])
    else Fail
  }

  /** The thread after `n` steps. */
  function Steps(M: Image, W: World, t: Thread, n: nat): Option<Thread>
    decreases n
  {
    if n == 0 then Some(t) else
    match Step(M, W, t)
    case Next(t') => Steps(M, W, t', n - 1)
    case _ => None
  }

  /** `eval_thread`, for at most `n` steps. */
  function Interpret(M: Image, W: World, t: Thread, n: nat): Outcome
    decreases n
  {
    if n == 0 then Running else
    match Step(M, W, t)
    case Next(t') => Interpret(M, W, t', n - 1)
    case Halt(v) => Done(v, t.trace)
    case Fail => Broken
  }

  /** The entry function starts in a frame of its own, with `__exit` as its continuation. */
  function Start(M: Image): Option<Thread> {
    if M.entry < |M.funcs| && M.funcs[M.entry].envSize == 1 then
      Some(Thread(M.entry, 0, [], OnHeap, None, Frame(M.funcs[M.entry].depth, [Builtin("__exit")], NoEnv), None, []))
    else None
  }

  // ----- runs

  lemma {:induction false} StepsTrans(M: Image, W: World, t1: Thread, n: nat, t2: Thread, m: nat, t3: Thread)
    requires Steps(M, W, t1, n) == Some(t2) && Steps(M, W, t2, m) == Some(t3)
    ensures Steps(M, W, t1, n + m) == Some(t3)
    decreases n
  {
    hide Step;
    if n > 0 {
      StepsTrans(M, W, Step(M, W, t1).t, n - 1, t2, m, t3);
    }
  }

  lemma {:induction false} InterpretSteps(M: Image, W: World, t1: Thread, n: nat, t2: Thread, m: nat)
    requires Steps(M, W, t1, n) == Some(t2)
    ensures Interpret(M, W, t1, n + m) == Interpret(M, W, t2, m)
    ensures forall k: nat | k <= n :: Interpret(M, W, t1, k) == Running
    decreases n
  {
    hide Step;
    if n > 0 {
      var t := Step(M, W, t1).t;
      InterpretSteps(M, W, t, n - 1, t2, m);
      forall k: nat | k <= n ensures Interpret(M, W, t1, k) == Running {
        if k > 0 {
          assert Interpret(M, W, t, k - 1) == Running;
        }
      }
    }
  }

  lemma {:induction false} RunningLess(M: Image, W: World, t: Thread, n: nat, m: nat)
    requires Interpret(M, W, t, n) == Running && m <= n
    ensures Interpret(M, W, t, m) == Running
    decreases m
  {
    hide Step;
    if m > 0 {
      RunningLess(M, W, Step(M, W, t).t, n - 1, m - 1);
    }
  }
}
