/** The interpreter as it runs: one operand stack, updated in place. */
module Interpreter {
  import opened Wrappers
  import opened Syntax
  import opened Values
  import opened Meaning
  import opened Machine

  const STACK_SIZE := 512

  /** `_list`: the values of a part of the stack as a list. */
  method MakeList(a: array<Val>, from: nat, to: nat) returns (res: Val)
    requires from <= to <= a.Length
    ensures res == ListVal(a[from..to])
  {
    res := Null;
    var i := to;
    while i > from
      invariant from <= i <= to
      invariant res == ListVal(a[i..to])
    {
      i := i - 1;
      res := Pair(a[i], res);
      assert a[i..to] == [a[i]] + a[i + 1..to];
    }
  }

  /** The values of a part of the stack. */
  method Copy(a: array<Val>, from: nat, to: nat) returns (vs: seq<Val>)
    requires from <= to <= a.Length
    ensures vs == a[from..to]
  {
    vs := [];
    var i := from;
    while i < to
      invariant from <= i <= to
      invariant vs == a[from..i]
    {
      vs := vs + [a[i]];
      i := i + 1;
    }
  }

  /** `env_display`: walks outwards to the frame with the given depth. */
  method FindFrame(env: MEnv, depth: nat) returns (r: Option<MEnv>)
    ensures r == Display(env, depth)
  {
    var cur := env;
    while cur.Frame? && cur.depth != depth
      invariant Display(cur, depth) == Display(env, depth)
      decreases cur
    {
      cur := cur.prev;
    }
    r := if cur.Frame? then Some(cur) else None;
  }

  class Vm {
    const image: Image
    const opstack: array<Val>
    var top: nat
    var fn: nat
    var pc: nat
    var locals: Locals
    var bindmap: Option<nat>
    var env: MEnv
    var trace: seq<Event>

    ghost predicate Valid()
      reads this
    {
      opstack.Length == STACK_SIZE && top <= STACK_LIMIT
    }

    /** The thread, about to make the call `call` if there is one. */
    ghost function Abstract(call: Option<(Val, nat)>): Thread
      requires Valid()
      reads this, opstack
    {
      Thread(fn, pc, opstack[..top], locals, bindmap, env, call, trace)
    }

    /** First time initialization. */
    constructor (image: Image)
      requires image.entry < |image.funcs| && image.funcs[image.entry].envSize == 1
      ensures Valid() && fresh(opstack) && this.image == image
      ensures Start(image) == Some(Abstract(None))
    {
      this.image := image;
      opstack := new Val[STACK_SIZE](_ => Null);
      top, fn, pc := 0, image.entry, 0;
      locals, bindmap := OnHeap, None;
      env := Frame(image.funcs[image.entry].depth, [Builtin("__exit")], NoEnv);
      trace := [];
    }

    /** `STACK_PUSH`. */
    method PushVal(v: Val) returns (ok: bool)
      requires Valid()
      modifies this`top, opstack
      ensures Valid() && ok == (old(top) < STACK_LIMIT)
      ensures opstack[..top] == if ok then old(opstack[..top]) + [v] else old(opstack[..top])
    {
      ok := top < STACK_LIMIT;
      if ok {
        opstack[top] := v;
        top := top + 1;
        assert opstack[..top - 1] == old(opstack[..top]);
      }
    }

    /** The `memcpy` that collapses the stack: the topmost `n` values move to the bottom. */
    method CopyDown(n: nat)
      requires Valid() && 2 * n < top
      modifies this`top, opstack
      ensures Valid() && opstack[..top] == old(opstack[top - n..top])
    {
      var from := top - n;
      var i := 0;
      while i < n
        invariant 0 <= i <= n && top == old(top)
        invariant opstack[..i] == old(opstack[from..from + i])
        invariant forall k :: n <= k < opstack.Length ==> opstack[k] == old(opstack[k])
      {
        opstack[i] := opstack[from + i];
        i := i + 1;
      }
      top := n;
    }

    /** `enter_interp`, rest parameter: the surplus arguments are replaced by their list. */
    method SwallowArgs(f: Procedure, argc: nat) returns (ok: bool)
      requires Valid() && f.argc <= argc <= top
      modifies this`top, opstack
      ensures Valid()
      ensures ok == (old(top) - (argc - f.argc) < STACK_LIMIT)
      ensures ok ==> opstack[..top] == old(Swallow(f, Abstract(None), argc).stack)
    {
      var surplus := argc - f.argc;
      var list := MakeList(opstack, top - surplus, top);
      ghost var was := opstack[..top];
      assert opstack[top - surplus..top] == was[|was| - surplus..];
      top := top - surplus;
      assert opstack[..top] == was[..|was| - surplus];
      ok := PushVal(list);
    }

    /** `enter_interp`, argument frame. */
    method PlaceFrame(f: Procedure, n: nat)
      requires Valid() && n <= top
      modifies this`top, this`env, this`locals, opstack
      ensures Valid() && Abstract(None) == PlaceArgs(f, old(Abstract(None)), n)
    {
      ghost var was := opstack[..top];
      assert opstack[top - n..top] == was[|was| - n..];
      if f.heap {
        var args := Copy(opstack, top - n, top);
        env := Frame(f.depth, args, env);
        locals := OnHeap;
        if n > 0 {
          top := 0;
        }
      } else if top > n * 2 {
        CopyDown(n);
        locals := OnStack(0);
      } else {
        locals := OnStack(top - n);
      }
    }

    /** `bindmap_init`, into the slots above the stack. */
    method InitBindmap(depths: seq<nat>) returns (ok: bool)
      requires Valid() && top + |depths| <= STACK_LIMIT
      modifies this`top, opstack
      ensures Valid() && ok == BindEnvs(env, depths).Some?
      ensures ok ==> opstack[..top] == old(opstack[..top]) + BindEnvs(env, depths).value
    {
      var base := top;
      var i := 0;
      while i < |depths|
        invariant 0 <= i <= |depths| && top == base == old(top)
        invariant opstack[..base] == old(opstack[..top])
        invariant BindEnvs(env, depths[i..]).Some? == BindEnvs(env, depths).Some?
        invariant BindEnvs(env, depths).Some? ==>
                    opstack[base..base + i] + BindEnvs(env, depths[i..]).value == BindEnvs(env, depths).value
      {
        var frame := FindFrame(env, depths[i]);
        assert depths[i..][1..] == depths[i + 1..];
        if frame.None? {
          return false;
        }
        ghost var before := opstack[base..base + i];
        opstack[base + i] := EnvRef(frame.value);
        assert opstack[base..base + (i + 1)] == before + [EnvRef(frame.value)];
        i := i + 1;
      }
      top := base + |depths|;
      ok := true;
      assert BindEnvs(env, depths[|depths|..]).value == [];
      assert opstack[..top] == opstack[..base] + opstack[base..base + |depths|];
    }

    /** `enter_interp`, bindmap. */
    method PlaceBinds(f: Procedure) returns (ok: bool)
      requires Valid()
      modifies this`top, this`bindmap, opstack
      ensures Valid()
      ensures ok == old(PlaceBindmap(f, Abstract(None))).Next?
      ensures ok ==> Abstract(None) == old(PlaceBindmap(f, Abstract(None))).t
    {
      hide BindEnvs;
      ok := true;
      if f.bindings != [] && bindmap.None? {
        if top + |f.bindmap| > STACK_LIMIT {
          return false;
        }
        ghost var base := top;
        ok := InitBindmap(f.bindmap);
        if ok {
          bindmap := Some(top - |f.bindmap|);
        }
      }
    }

    /** `enter_interp`. */
    method Enter(callee: nat, argc: nat) returns (ok: bool)
      requires Valid()
      modifies this, opstack
      ensures Valid()
      ensures ok == old(EnterInterp(image, callee, Abstract(None), argc)).Next?
      ensures ok ==> Abstract(None) == old(EnterInterp(image, callee, Abstract(None), argc)).t
    {
      hide PlaceArgs, PlaceBindmap, Swallow;
      if callee >= |image.funcs| || argc > top {
        return false;
      }
      var f := image.funcs[callee];
      if if f.swallow then argc < f.argc else argc != f.argc {
        return false;
      }
      ghost var t1 := if f.swallow then Swallow(f, Abstract(None), argc) else Abstract(None);
      var n := if f.swallow then f.argc + 1 else f.argc;
      SwallowSize(f, Abstract(None), argc);
      if f.envSize != n {
        return false;
      }
      ok := true;
      if f.swallow {
        ok := SwallowArgs(f, argc);
      }
      if ok {
        fn, pc := callee, 0;
        assert Abstract(None) == t1.(fn := callee, pc := 0, call := None);
        PlaceFrame(f, n);
        ok := PlaceBinds(f);
      }
    }

    static lemma SwallowSize(f: Procedure, t: Thread, argc: nat)
      requires f.argc <= argc <= |t.stack|
      ensures |Swallow(f, t, argc).stack| == |t.stack| - (argc - f.argc) + 1
      ensures Swallow(f, t, argc) == t.(stack := Swallow(f, t, argc).stack)
    {
    }

    // ----- the main loop

    /** One turn of `dispatch_func`: what is called next, if it was a native function. */
    method Dispatch(W: World, fp: Val, argc: nat) returns (r: Signal, next: Option<(Val, nat)>)
      requires Valid()
      modifies this, opstack
      ensures Valid()
      ensures Matches(old(Machine.Dispatch(image, W, Abstract(Some((fp, argc))), fp, argc)), r, next)
      ensures r.Exit? ==> trace == old(trace)
    {
      hide EnterInterp, ListVal;
      next := None;
      match fp
      case Code(callee, menv) =>
        ghost var t := Abstract(Some((fp, argc))).(env := menv, bindmap := None);
        env, bindmap := menv, None;
        EnterForgetsCall(image, callee, t, argc);
        var ok := Enter(callee, argc);
        r := if ok then Continue else Error;
      case Func(callee) =>
        ghost var t := Abstract(Some((fp, argc))).(bindmap := None);
        bindmap := None;
        EnterForgetsCall(image, callee, t, argc);
        var ok := Enter(callee, argc);
        r := if ok then Continue else Error;
      case Builtin(name) =>
        r, next := CallNative(W, name, argc);
      case _ =>
        r := Error;
    }

    static lemma EnterForgetsCall(image: Image, callee: nat, t: Thread, argc: nat)
      ensures EnterInterp(image, callee, t, argc) == EnterInterp(image, callee, t.(call := None), argc)
      ensures !EnterInterp(image, callee, t, argc).Halt?
    {
      hide PlaceArgs, BindEnvs;
      if callee < |image.funcs| && argc <= |t.stack| {
        var f := image.funcs[callee];
        if f.swallow && f.argc <= argc {
          assert Swallow(f, t, argc).(call := None) == Swallow(f, t.(call := None), argc);
        }
      }
    }

    /** A native function: its result is pushed, and its first argument is called with it. */
    method CallNative(W: World, name: string, argc: nat) returns (r: Signal, next: Option<(Val, nat)>)
      requires Valid()
      modifies this`top, this`bindmap, this`trace, opstack
      ensures Valid()
      ensures Matches(old(Machine.Dispatch(image, W, Abstract(Some((Builtin(name), argc))), Builtin(name), argc)), r, next)
      ensures r.Exit? ==> trace == old(trace)
    {
      hide ObserveAll, IsBuiltin, ChangesCont, DatumVal;
      next := None;
      if argc > top || argc == 0 {
        return Error, None;
      }
      ghost var t := Abstract(Some((Builtin(name), argc)));
      var argv := Copy(opstack, top - argc, top);
      assert argv == Top(t, argc);
      if name == "__exit" && argc == 1 {
        return Exit(argv[0]), None;
      }
      if !Returns(name) {
        return Error, None;
      }
      bindmap := None;
      match W(trace, name, ObserveAll(argv[1..]))
      case None =>
        r := Error;
      case Some(d) =>
        var ok := PushVal(DatumVal(d));
        trace := trace + [Event(name, ObserveAll(argv[1..]))];
        r, next := if ok then Continue else Error, Some((argv[0], 1));
    }

    /** The value that a loading instruction pushes. */
    method Load(i: Instr) returns (v: Option<Val>)
      requires Valid() && fn < |image.funcs|
      ensures v == Loaded(image, image.funcs[fn], Abstract(None), i)
    {
      v := None;
      match i
      case LoadFunc(callee) => v := Some(Func(callee));
      case LoadClosure(callee) => v := Some(Code(callee, env));
      case LoadLocal(slot) =>
        match locals {
          case OnStack(base) =>
            if base + slot < top {
              v := Some(opstack[base + slot]);
            }
          case OnHeap =>
            if env.Frame? && slot < |env.objects| {
              v := Some(env.objects[slot]);
            }
        }
      case LoadBind(binding) =>
        var f := image.funcs[fn];
        if binding < |f.bindings| && bindmap.Some? {
          var (up, slot) := f.bindings[binding];
          var at := bindmap.value + up;
          if at < top && opstack[at].EnvRef? && opstack[at].menv.Frame? && slot < |opstack[at].menv.objects| {
            v := Some(opstack[at].menv.objects[slot]);
          }
        }
      case LoadConst(index) =>
        if index < |image.consts| {
          v := Some(DatumVal(image.consts[index]));
        }
      case PushBool(b) => v := Some(Bool(b));
      case PushNull => v := Some(Null);
      case JumpIfFalse(_) =>
      case JumpForward(_) =>
      case FuncCall(_) =>
      case Operation(_) =>
    }

    /** An operator takes its operands from the stack and leaves its value. */
    method Operator(op: Operator) returns (ok: bool)
      requires Valid()
      modifies this`top, this`pc, opstack
      ensures Valid()
      ensures ok == old(ApplyOp(Abstract(None), op)).Next?
      ensures ok ==> Abstract(None) == old(ApplyOp(Abstract(None), op)).t
    {
      hide Operate;
      var n := Arity(op);
      if top < n {
        return false;
      }
      ghost var t := Abstract(None);
      var operands := Copy(opstack, top - n, top);
      assert operands == Top(t, n);
      var v := Operate(op, operands);
      if v.None? {
        return false;
      }
      top := top - n;
      assert opstack[..top] == Drop(t, n);
      ok := PushVal(v.value);
      pc := pc + 1;
    }

    /** The topmost value is taken from the stack. */
    method PopVal() returns (v: Val)
      requires Valid() && top > 0
      modifies this`top
      ensures Valid() && [v] == old(Top(Abstract(None), 1)) && opstack[..top] == old(Drop(Abstract(None), 1))
    {
      ghost var was := opstack[..top];
      top := top - 1;
      v := opstack[top];
      assert opstack[..top] == was[..|was| - 1] && was[|was| - 1..] == [v];
    }

    /** An instruction that loads a value. */
    method ExecuteLoad(i: Instr) returns (r: Signal)
      requires Valid() && fn < |image.funcs|
      requires !i.JumpIfFalse? && !i.JumpForward? && !i.FuncCall? && !i.Operation?
      modifies this`top, this`pc, opstack
      ensures Valid()
      ensures Matches(old(Exec(image, image.funcs[fn], Abstract(None), i)), r, None)
    {
      hide Exec, Loaded;
      LoadedIsPushed(image, image.funcs[fn], Abstract(None), i);
      var v := Load(i);
      var ok := false;
      if v.Some? {
        ok := PushVal(v.value);
        pc := pc + 1;
      }
      r := if ok then Continue else Error;
    }

    /** One instruction; a call is only begun. */
    method Execute(i: Instr) returns (r: Signal, next: Option<(Val, nat)>)
      requires Valid() && fn < |image.funcs|
      modifies this`top, this`pc, opstack
      ensures Valid()
      ensures Matches(old(Exec(image, image.funcs[fn], Abstract(None), i)), r, next)
    {
      hide Operate, LocalVal, BoundVal, DatumVal;
      next := None;
      match i
      case JumpForward(skip) =>
        pc := pc + 1 + skip;
        r := Continue;
      case JumpIfFalse(skip) =>
        if top == 0 {
          return Error, None;
        }
        var v := PopVal();
        pc := pc + 1 + if v == Bool(false) then skip else 0;
        r := Continue;
      case FuncCall(argc) =>
        if top == 0 {
          return Error, None;
        }
        var v := PopVal();
        pc := pc + 1;
        r, next := Continue, Some((v, argc));
      case Operation(op) =>
        var ok := Operator(op);
        r := if ok then Continue else Error;
      case _ =>
        hide Exec;
        r := ExecuteLoad(i);
    }

    /** `eval_thread`, for at most `n` turns. */
    method Eval(W: World, n: nat) returns (out: Outcome)
      requires Valid()
      modifies this, opstack
      ensures Valid() && out == old(Interpret(image, W, Abstract(None), n))
    {
      hide Step, Exec, Machine.Dispatch;
      var call: Option<(Val, nat)> := None;
      var i := n;
      ghost var goal := Interpret(image, W, Abstract(None), n);
      while i > 0
        invariant 0 <= i <= n && Valid()
        invariant Interpret(image, W, Abstract(call), i) == goal
      {
        ghost var t := Abstract(call);
        var r, next := Turn(W, call);
        InterpretTurn(image, W, t, i);
        match r
        case Exit(v) => return Done(v, trace);
        case Error => return Broken;
        case Continue =>
        call := next;
        i := i - 1;
      }
      out := Running;
    }

    static lemma InterpretTurn(image: Image, W: World, t: Thread, n: nat)
      requires n > 0
      ensures Interpret(image, W, t, n) == match Step(image, W, t) case Next(t') => Interpret(image, W, t', n - 1)
                                                                   case Halt(v) => Done(v, t.trace)
                                                                   case Fail => Broken
    {
      hide Step;
    }

    static lemma NoHaltHere(image: Image, W: World, t: Thread)
      requires t.call.None?
      ensures !Step(image, W, t).Halt?
    {
    }

    /** One turn of the main loop. */
    method Turn(W: World, call: Option<(Val, nat)>) returns (r: Signal, next: Option<(Val, nat)>)
      requires Valid()
      modifies this, opstack
      ensures Valid() && Matches(old(Step(image, W, Abstract(call))), r, next)
      ensures r.Exit? ==> trace == old(trace)
    {
      hide Exec, Machine.Dispatch;
      if call.Some? {
        ghost var t := Abstract(call);
        r, next := Dispatch(W, call.value.0, call.value.1);
      } else if fn < |image.funcs| && pc < |image.funcs[fn].ops| {
        NoHaltHere(image, W, Abstract(call));
        r, next := Execute(image.funcs[fn].ops[pc]);
      } else {
        r, next := Error, None;
      }
    }

    /** The move of the abstract thread is what happened. */
    ghost predicate Matches(m: Move, r: Signal, next: Option<(Val, nat)>)
      requires Valid()
      reads this, opstack
    {
      match m
      case Next(t) => r == Continue && Abstract(next) == t
      case Halt(v) => r == Exit(v)
      case Fail => r == Error
    }
  }

  datatype Signal = Continue | Exit(v: Val) | Error

  /** What a loading instruction pushes. */
  function Loaded(image: Image, f: Procedure, t: Thread, i: Instr): Option<Val> {
    match i
    case LoadFunc(fn) => Some(Func(fn))
    case LoadClosure(fn) => Some(Code(fn, t.env))
    case LoadLocal(slot) => LocalVal(t, slot)
    case LoadBind(b) => BoundVal(f, t, b)
    case LoadConst(c) => if c < |image.consts| then Some(DatumVal(image.consts[c])) else None
    case PushBool(b) => Some(Bool(b))
    case PushNull => Some(Null)
    case _ => None
  }

  lemma LoadedIsPushed(image: Image, f: Procedure, t: Thread, i: Instr)
    requires !i.JumpIfFalse? && !i.JumpForward? && !i.FuncCall? && !i.Operation?
    ensures Exec(image, f, t, i) == PushSome(t, Loaded(image, f, t, i))
  {
    hide LocalVal, BoundVal, DatumVal;
  }
}
