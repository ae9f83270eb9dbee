/** The core language that the compiler works on: after expansion, and again after CPS conversion. */
module Syntax {

  /** A symbol of the program, or one made by `gen-name`. */
  datatype Name = User(s: string) | Gen(n: nat)

  /** Constants. Text is held as the characters of its UTF-8 bytes. */
  datatype Datum =
    | DNull
    | DBool(b: bool)
    | DChar(c: nat)
    | DFixnum(i: int)
    | DString(s: string)
    | DSymbol(s: string)
    | DStatic(s: string)
    | DPair(car: Datum, cdr: Datum)
    | DVector(elems: seq<Datum>)

  datatype TypeTest =
    | TFixnum | TNull | TList | TPair | TProcedure | TBoolean | TChar | TSymbol | TStruct | TString | TBytevector | TEof

  /** The operators of `primitives-operators`, `$not` excepted. */
  datatype Operator =
    | OpCons | OpCar | OpCdr | OpSub | OpAdd | OpMul | OpDiv | OpMod | OpBitAnd | OpBitIor | OpBitXor
    | OpLt | OpGt | OpEq | OpEqPtr | OpNot | OpTypeTest(test: TypeTest)

  /** `Lit` is a character, number, string or boolean, `Call` a combination whose first element is called. */
  datatype Exp =
    | Lit(d: Datum)
    | Quote(d: Datum)
    | Var(x: Name)
    | Op(op: Operator, args: seq<Exp>)
    | Lam(ps: seq<Name>, rest: bool, body: seq<Exp>)
    | If(test: Exp, yes: Exp, no: Exp)
    | Call(es: seq<Exp>)

  function Arity(op: Operator): nat {
    if op.OpCar? || op.OpCdr? || op.OpNot? || op.OpTypeTest? then 1 else 2
  }

  /** `primitives-builtin`: the name, and whether the function may change the continuation. */
  const BUILTINS: seq<(string, bool)> := [
    ("display", false), ("__exit", false), ("call/cc", true), ("apply", true), ("list", false), ("$make-list", false),
    ("length", false), ("void", false), ("eof-object", false), ("char->integer", false), ("integer->char", false),
    ("make-struct", false), ("alloc-struct", false), ("struct-size", false), ("struct-ref", false),
    ("struct-set!", false), ("struct-type", false), ("struct->list", false), ("symbol->string", false),
    ("string-ref", false), ("string-set!", false), ("string-length", false), ("string?", false), ("string=?", false),
    ("string-concat", false), ("substring", false), ("string-copy", false), ("string-copy!", false),
    ("make-string", false), ("make-bytevector", false), ("bytevector-u8-set!", false), ("load-library", true),
    ("library-cache", false), ("exception-handlers", false)]

  predicate IsBuiltin(s: string) { exists i | 0 <= i < |BUILTINS| :: BUILTINS[i].0 == s }

  predicate ChangesCont(s: string) { (s, true) in BUILTINS }
}

/** Values, operators and native functions, shared by the three evaluators. */
module Values {
  import opened Wrappers
  import opened Syntax

  /**
   `Closure` is a procedure of the two evaluators over expressions. `Code`, `Func` and `EnvRef` are the virtual
   machine's closure, bare function and environment pointer.
   */
  datatype Val =
    | Null
    | Bool(b: bool)
    | Fixnum(i: int)
    | Char(c: nat)
    | Text(s: string)
    | Symbol(s: string)
    | Pair(car: Val, cdr: Val)
    | Vector(elems: seq<Val>)
    | Builtin(name: string)
    | Closure(ps: seq<Name>, rest: bool, body: seq<Exp>, env: Env)
    | Code(fn: nat, menv: MEnv)
    | Func(fn: nat)
    | EnvRef(menv: MEnv)

  datatype Env = Empty | Rib(names: seq<Name>, vals: seq<Val>, next: Env)

  /** A chain of heap-allocated frames, `env_t`. */
  datatype MEnv = NoEnv | Frame(depth: nat, objects: seq<Val>, prev: MEnv)

  /** What a native function can tell of a value. */
  datatype Obs =
    | ONull | OBool(b: bool) | OFixnum(i: int) | OChar(c: nat) | OText(s: string) | OSymbol(s: string)
    | OPair(car: Obs, cdr: Obs) | OVector(elems: seq<Obs>) | OProcedure

  function Observe(v: Val): Obs {
    match v
    case Null => ONull
    case Bool(b) => OBool(b)
    case Fixnum(i) => OFixnum(i)
    case Char(c) => OChar(c)
    case Text(s) => OText(s)
    case Symbol(s) => OSymbol(s)
    case Pair(a, d) => OPair(Observe(a), Observe(d))
    case Vector(es) => OVector(ObserveAll(es))
    case _ => OProcedure
  }

  function ObserveAll(vs: seq<Val>): (r: seq<Obs>)
    ensures |r| == |vs|
  {
    if vs == [] then [] else [Observe(vs[0])] + ObserveAll(vs[1..])
  }

  /** One call of a native function. */
  datatype Event = Event(name: string, args: seq<Obs>)

  /** The native functions: what a call returns, if it does not fail, may depend on all calls before it. */
  type World = (seq<Event>, string, seq<Obs>) -> Option<Datum>

  /** A native function that returns to its continuation once. */
  predicate Returns(name: string) { IsBuiltin(name) && !ChangesCont(name) && name != "__exit" }

  function DatumVal(d: Datum): Val {
    match d
    case DNull => Null
    case DBool(b) => Bool(b)
    case DChar(c) => Char(c)
    case DFixnum(i) => Fixnum(i)
    case DString(s) => Text(s)
    case DSymbol(s) => Symbol(s)
    case DStatic(s) => Builtin(s)
    case DPair(a, b) => Pair(DatumVal(a), DatumVal(b))
    case DVector(es) => Vector(DatumVals(es))
  }

  function DatumVals(ds: seq<Datum>): (r: seq<Val>)
    ensures |r| == |ds|
  {
    if ds == [] then [] else [DatumVal(ds[0])] + DatumVals(ds[1..])
  }

  function ListVal(vs: seq<Val>): Val {
    if vs == [] then Null else Pair(vs[0], ListVal(vs[1..]))
  }

  // ----- operators

  /** `MAKE_FIXNUM` keeps 61 bits. */
  function Wrap(i: int): int { (i + 0x1000_0000_0000_0000) % 0x2000_0000_0000_0000 - 0x1000_0000_0000_0000 }

  function Abs(i: int): nat { if i < 0 then -i else i }

  /** C division truncates. */
  function Quotient(a: int, b: int): int
    requires b != 0
  {
    if (a < 0) == (b < 0) then Abs(a) / Abs(b) else -(Abs(a) / Abs(b))
  }

  function Remainder(a: int, b: int): int
    requires b != 0
  {
    a - b * Quotient(a, b)
  }

  /** One bit of `&`, `|` or `^`. */
  predicate Gate(op: Operator, x: bool, y: bool) {
    match op
    case OpBitAnd => x && y
    case OpBitIor => x || y
    case _ => x != y
  }

  /** The low `n` bits of a bitwise operation on two's complements; `/` and `%` round down. */
  function Bitwise(op: Operator, a: int, b: int, n: nat): nat
    decreases n
  {
    if n == 0 then 0
    else (if Gate(op, a % 2 == 1, b % 2 == 1) then 1 else 0) + 2 * Bitwise(op, a / 2, b / 2, n - 1)
  }

  function Arithmetic(op: Operator, a: int, b: int): Option<Val> {
    match op
    case OpSub => Some(Fixnum(Wrap(a - b)))
    case OpAdd => Some(Fixnum(Wrap(a + b)))
    case OpMul => Some(Fixnum(Wrap(a * b)))
    case OpDiv => if b == 0 then None else Some(Fixnum(Wrap(Quotient(a, b))))
    case OpMod => if b == 0 then None else Some(Fixnum(Wrap(Remainder(a, b))))
    case OpBitAnd | OpBitIor | OpBitXor => Some(Fixnum(Wrap(Bitwise(op, a, b, 61))))
    case OpLt => Some(Bool(a < b))
    case OpGt => Some(Bool(a > b))
    case OpEq => Some(Bool(a == b))
    case _ => None
  }

  predicate IsList(v: Val) { v.Null? || (v.Pair? && IsList(v.cdr)) }

  predicate IsProcedure(v: Val) { v.Closure? || v.Builtin? || v.Code? || v.Func? }

  function Test(t: TypeTest, v: Val): bool {
    match t
    case TFixnum => v.Fixnum?
    case TNull => v.Null?
    case TList => IsList(v)
    case TPair => v.Pair?
    case TProcedure => IsProcedure(v)
    case TBoolean => v.Bool?
    case TChar => v.Char?
    case TSymbol => v.Symbol?
    case TStruct => v.Vector?
    case TString => v.Text?
    case TBytevector => false
    case TEof => false
  }

  /** Values whose word determines them, so that `eq?` compares them. */
  predicate Immediate(v: Val) { v.Null? || v.Bool? || v.Fixnum? || v.Char? || v.Symbol? || v.Builtin? }

  /** `None` where the machine raises an error, or compares two heap objects by address. */
  function Operate(op: Operator, vs: seq<Val>): Option<Val> {
    if |vs| != Arity(op) then None else
    match op
    case OpCons => Some(Pair(vs[0], vs[1]))
    case OpCar => if vs[0].Pair? then Some(vs[0].car) else None
    case OpCdr => if vs[0].Pair? then Some(vs[0].cdr) else None
    case OpNot => Some(Bool(vs[0] == Bool(false)))
    case OpTypeTest(t) => Some(Bool(Test(t, vs[0])))
    case OpEqPtr =>
      if Immediate(vs[0]) || Immediate(vs[1]) then Some(Bool(vs[0] == vs[1])) else None
    case _ =>
      if vs[0].Fixnum? && vs[1].Fixnum? then Arithmetic(op, vs[0].i, vs[1].i) else None
  }

  // ----- environments

  /** The last position of `x`: a repeated parameter overwrites the table entry of the first. */
  function Position(names: seq<Name>, x: Name): (r: Option<nat>)
    ensures r.Some? ==> r.value < |names| && names[r.value] == x
    ensures r.Some? ==> forall i {:trigger names[i]} | r.value < i < |names| :: names[i] != x
    ensures r.None? ==> x !in names
  {
    if names == [] then None
    else if names[|names| - 1] == x then Some(|names| - 1)
    else Position(names[..|names| - 1], x)
  }

  function Lookup(env: Env, x: Name): Option<Val> {
    match env
    case Empty => None
    case Rib(names, vals, next) =>
      match Position(names, x)
      case Some(i) => if i < |vals| then Some(vals[i]) else None
      case None => Lookup(next, x)
  }

  /** The argument frame of a procedure: with a rest parameter the surplus becomes a list. */
  function Bind(ps: seq<Name>, rest: bool, args: seq<Val>): Option<seq<Val>> {
    if !rest then
      if |args| == |ps| then Some(args) else None
    else
      if |ps| == 0 || |args| < |ps| - 1 then None
      else Some(args[..|ps| - 1] + [ListVal(args[|ps| - 1..])])
  }

  /** A variable, or the builtin function of that name when nothing binds it. */
  function Resolve(env: Env, x: Name): Option<Val> {
    match Lookup(env, x)
    case Some(v) => Some(v)
    case None => if x.User? && IsBuiltin(x.s) then Some(Builtin(x.s)) else None
  }
}
