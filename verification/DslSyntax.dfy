// Abstract syntax, bytecode and runtime values of EdgionDSL.

module DslSyntax {
  import opened Common

  // ---------- Abstract syntax (ast.rs) ----------

  datatype BinOp = Add | Sub | Mul | Div | Eq | Ne | Lt | Gt | Le | Ge

  datatype UnaryOp = Not | Neg

  datatype StringTest = StartsWith | EndsWith | Contains

  /** Builtins are named by their script-level name, e.g. "req.header". */
  type Builtin = string

  /** Operators, string methods and calls: anything that first evaluates all its operands. */
  datatype Operation =
    | UnaryOperation(uop: UnaryOp)
    | BinaryOperation(bop: BinOp)
    | StringOperation(test: StringTest)
    | RegexOperation(pattern: string)       // `.matches("pattern")`
    | BuiltinOperation(id: Builtin)         // `req.header(..)`, `len(..)`

  datatype Expr =
    | Literal(value: Value)
    | Ident(name: string)
    | ShortCircuit(isAnd: bool, left: Expr, right: Expr)
    | Operate(operation: Operation, operands: Args)

  datatype Args = NoArgs | Arg(head: Expr, tail: Args)

  datatype Stmt =
    | Let(name: string, mutable: bool, value: Expr)
    | Assign(target: string, source: Expr)
    | If(branches: Branches)
    | ForRange(rangeVar: string, start: Expr, end: Expr, rangeBody: Block)
    | ForIn(inVar: string, iterable: Expr, inBody: Block)
    | While(condition: Expr, whileBody: Block)
    | ReturnDeny(status: Expr, message: Expr)
    | ReturnNext
    | ExprStmt(expr: Expr)

  /** The `if` / `else if` / `else` chain. */
  datatype Branches =
    | NoElse
    | Else(elseBody: Block)
    | Branch(cond: Expr, body: Block, rest: Branches)

  datatype Block = Empty | Seq(first: Stmt, more: Block)

  function ArgCount(args: Args): nat {
    match args case NoArgs => 0 case Arg(_, tail) => 1 + ArgCount(tail)
  }

  // ---------- Values (value.rs) ----------

  datatype Value = Str(s: string) | Int(n: int) | Bool(b: bool) | Nil | List(items: seq<string>)

  /** Nil and false are falsy, everything else is truthy. */
  predicate Truthy(v: Value) { !v.Nil? && (v.Bool? ==> v.b) }

  // ---------- Bytecode (bytecode.rs) ----------

  datatype Constant = StrConst(s: string) | IntConst(n: int) | RegexConst(pattern: string)

  datatype OpCode =
    | LoadConst(idx: nat) | LoadNil | LoadTrue | LoadFalse | Pop
    | GetLocal(slot: nat) | SetLocal(slot: nat)
    | Arith(op: BinOp)
    | NegOp | NotOp
    | TestString(test: StringTest) | Matches(idx: nat)
    | Jump(offset: int) | JumpIfFalse(offset: int)
    | LoopInit | LoopBack(offset: int) | LoopEnd
    | ListGet | ListLen
    | CallBuiltin(id: Builtin, argc: nat)
    | ReturnNextOp | ReturnDenyOp

  datatype Script = Script(code: seq<OpCode>, constants: seq<Constant>, localCount: nat)

  // ---------- Execution environment ----------

  datatype RuntimeError =
    | StepLimitExceeded | LoopLimitExceeded | CallLimitExceeded | StackOverflow | StringTooLong
    | IntegerOverflow | DivisionByZero | TypeError | ApiError(reason: string) | Internal

  datatype Limits = Limits(
    maxSteps: nat, maxLoopIterations: nat, maxCallCount: nat, maxStackDepth: nat, maxStringLen: nat)

  datatype Call = Call(id: Builtin, args: seq<Value>)

  /**
   * Everything a script can reach outside the control structure of the language: the operators
   * on values (which may fail, e.g. by overflow), the regex engine, and the plugin session,
   * whose answer may depend on all calls made before.
   */
  datatype Host = Host(
    arity: Builtin -> nat,
    binary: (BinOp, Value, Value) -> Result<Value, RuntimeError>,
    negate: Value -> Result<Value, RuntimeError>,
    stringTest: (StringTest, string, string) -> bool,
    text: Value -> string,
    respond: (seq<Call>, Call) -> Result<Value, RuntimeError>,
    validRegex: string -> bool,
    isMatch: (string, string) -> bool)

  datatype Machine = Machine(host: Host, limits: Limits)

  /** Remaining call budget and the builtin calls made so far, oldest first. */
  datatype World = World(calls: nat, trace: seq<Call>)

  datatype Verdict = GoodNext | ErrResponse(status: nat, body: Option<string>)

  /** How an execution ends, with the calls it made. */
  datatype Final = Finished(verdict: Verdict, trace: seq<Call>) | Failed(error: RuntimeError, trace: seq<Call>)

  // ---------- Primitive operations, shared by the language and the VM ----------

  function UnaryResult(m: Machine, op: UnaryOp, v: Value): Result<Value, RuntimeError> {
    if op.Not? then Ok(Bool(!Truthy(v))) else m.host.negate(v)
  }

  /** String tests answer false unless both operands are strings. */
  function StringTestResult(m: Machine, test: StringTest, a: Value, b: Value): Value {
    Bool(a.Str? && b.Str? && m.host.stringTest(test, a.s, b.s))
  }

  function RegexTest(m: Machine, pattern: string, v: Value): Value {
    Bool(v.Str? && m.host.isMatch(pattern, v.s))
  }

  function Length(v: Value): Value { Int(if v.List? then |v.items| else 0) }

  function Item(list: Value, idx: Value): Value {
    if list.List? && idx.Int? && 0 <= idx.n < |list.items| then Str(list.items[idx.n]) else Nil
  }

  function ConstantValue(c: Constant): Value {
    match c case StrConst(s) => Str(s) case IntConst(n) => Int(n) case RegexConst(_) => Nil
  }

  function DenyVerdict(m: Machine, status: Value, body: Value): Verdict {
    ErrResponse(if status.Int? && 100 <= status.n <= 599 then status.n else 500,
                if body.Nil? then None else Some(m.host.text(body)))
  }

  function Arity(h: Host, op: Operation): nat {
    match op
    case UnaryOperation(_) | RegexOperation(_) => 1
    case BinaryOperation(_) | StringOperation(_) => 2
    case BuiltinOperation(id) => h.arity(id)
  }

  /** Applies an operation; builtins spend a call and may change the session. */
  function Perform(m: Machine, op: Operation, vs: seq<Value>, w: World): (Result<Value, RuntimeError>, World)
    requires |vs| == Arity(m.host, op)
  {
    match op
    case UnaryOperation(u) => (UnaryResult(m, u, vs[0]), w)
    case BinaryOperation(b) => (m.host.binary(b, vs[0], vs[1]), w)
    case StringOperation(t) => (Ok(StringTestResult(m, t, vs[0], vs[1])), w)
    case RegexOperation(p) => (Ok(RegexTest(m, p, vs[0])), w)
    case BuiltinOperation(id) => PerformCall(m, Call(id, vs), w)
  }

  /** One builtin call: budget first, then the session's answer. */
  function PerformCall(m: Machine, call: Call, w: World): (Result<Value, RuntimeError>, World) {
    if w.calls == 0 then (Err(CallLimitExceeded), w)
    else (m.host.respond(w.trace, call), World(w.calls - 1, w.trace + [call]))
  }
}
