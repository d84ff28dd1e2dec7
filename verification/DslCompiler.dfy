// Code generation (compiler.rs), as a function from syntax to relocatable code.

module DslCompiler {
  import opened Common
  import opened DslSyntax

  const MAX_CONSTANTS: nat := 65535
  const MAX_SLOTS: nat := 65535
  const MAX_REGEX_PATTERN_LEN: nat := 1024

  datatype Local = Local(name: string, slot: nat, mutable: bool)

  datatype Gen = Gen(code: seq<OpCode>, pool: seq<Constant>)

  /** `next` is the first slot never handed out; `locals` are the variables in scope afterwards. */
  datatype StmtGen = StmtGen(code: seq<OpCode>, pool: seq<Constant>, next: nat, locals: seq<Local>)

  predicate Reserved(name: string) { name == "req" || name == "resp" || name == "ctx" }

  // ---------- Constants ----------

  function IndexOf(pool: seq<Constant>, c: Constant): (i: nat)
    ensures i <= |pool|
    ensures i < |pool| ==> pool[i] == c
    ensures i == |pool| ==> c !in pool
  {
    if pool == [] then 0
    else if pool[0] == c then 0
    else 1 + IndexOf(pool[1..], c)
  }

  /** Index of `c` in the returned pool, which shares every constant already present. */
  function AddConst(pool: seq<Constant>, c: Constant): (r: Option<(nat, seq<Constant>)>)
    ensures r.Some? ==> pool <= r.value.1 && r.value.0 < |r.value.1| && r.value.1[r.value.0] == c
  {
    var i := IndexOf(pool, c);
    if i < |pool| then Some((i, pool))
    else if |pool| >= MAX_CONSTANTS then None
    else Some((|pool|, pool + [c]))
  }

  function AddRegex(h: Host, pool: seq<Constant>, pattern: string): (r: Option<(nat, seq<Constant>)>)
    ensures r.Some? ==> pool <= r.value.1 && r.value.0 < |r.value.1| && r.value.1[r.value.0] == RegexConst(pattern)
  {
    if |pattern| > MAX_REGEX_PATTERN_LEN then None
    else if RegexConst(pattern) !in pool && !h.validRegex(pattern) then None
    else AddConst(pool, RegexConst(pattern))
  }

  /** Innermost variable of that name, or |locals| when undefined. */
  function Resolve(locals: seq<Local>, name: string): (i: nat)
    ensures i <= |locals|
    ensures i < |locals| ==> locals[i].name == name
    ensures forall j :: i < j < |locals| ==> locals[j].name != name
  {
    if locals == [] then 0
    else if locals[|locals| - 1].name == name then |locals| - 1
    else
      var i := Resolve(locals[..|locals| - 1], name);
      if i == |locals| - 1 then |locals| else i
  }

  // ---------- Expressions ----------

  function LoadBool(b: bool): OpCode { if b then LoadTrue else LoadFalse }

  /** Strings and integers come from the pool; there are no list literals. */
  function GenLiteral(v: Value, pool: seq<Constant>): (g: Option<Gen>)
    ensures g.Some? ==> pool <= g.value.pool
  {
    match v
    case Bool(b) => Some(Gen([LoadBool(b)], pool))
    case Nil => Some(Gen([LoadNil], pool))
    case List(_) => None
    case Str(s) => GenPooled(StrConst(s), pool)
    case Int(n) => GenPooled(IntConst(n), pool)
  }

  function GenPooled(c: Constant, pool: seq<Constant>): (g: Option<Gen>)
    ensures g.Some? ==> pool <= g.value.pool
  {
    match AddConst(pool, c)
    case None => None
    case Some((i, pool')) => Some(Gen([LoadConst(i)], pool'))
  }

  /** The instruction performing an operation, and the pool it needs. */
  function GenOperation(h: Host, op: Operation, pool: seq<Constant>): (g: Option<(OpCode, seq<Constant>)>)
    ensures g.Some? ==> pool <= g.value.1
  {
    match op
    case UnaryOperation(u) => Some((if u.Not? then NotOp else NegOp, pool))
    case BinaryOperation(b) => Some((Arith(b), pool))
    case StringOperation(t) => Some((TestString(t), pool))
    case BuiltinOperation(id) => Some((CallBuiltin(id, h.arity(id)), pool))
    case RegexOperation(p) =>
      match AddRegex(h, pool, p)
      case None => None
      case Some((i, pool')) => Some((Matches(i), pool'))
  }

  /** Jumps over the right operand, whose code is `n` instructions long. */
  function ShortCircuitTest(isAnd: bool, n: nat): (code: seq<OpCode>)
    ensures |code| == if isAnd then 1 else 2
  {
    if isAnd then [JumpIfFalse(n + 1)] else [NotOp, JumpIfFalse(n + 1)]
  }

  function GenExpr(h: Host, e: Expr, locals: seq<Local>, pool: seq<Constant>): (g: Option<Gen>)
    ensures g.Some? ==> pool <= g.value.pool
    decreases e
  {
    match e
    case Literal(v) => GenLiteral(v, pool)
    case Ident(x) =>
      var i := Resolve(locals, x);
      if i < |locals| then Some(Gen([GetLocal(locals[i].slot)], pool)) else None
    case ShortCircuit(isAnd, l, r) =>
      var a := GenExpr(h, l, locals, pool);
      if a.None? then None else
      var b := GenExpr(h, r, locals, a.value.pool);
      if b.None? then None else
      Some(Gen(a.value.code + ShortCircuitTest(isAnd, |b.value.code|) + b.value.code
               + [Jump(1), LoadBool(!isAnd)], b.value.pool))
    case Operate(op, operands) =>
      var o := GenOperation(h, op, pool);
      if o.None? || ArgCount(operands) != Arity(h, op) then None else
      var a := GenArgs(h, operands, locals, o.value.1);
      if a.None? then None else Some(Gen(a.value.code + [o.value.0], a.value.pool))
  }

  function GenArgs(h: Host, args: Args, locals: seq<Local>, pool: seq<Constant>): (g: Option<Gen>)
    ensures g.Some? ==> pool <= g.value.pool
    decreases args
  {
    match args
    case NoArgs => Some(Gen([], pool))
    case Arg(e, rest) =>
      var a := GenExpr(h, e, locals, pool);
      if a.None? then None else
      var b := GenArgs(h, rest, locals, a.value.pool);
      if b.None? then None else Some(Gen(a.value.code + b.value.code, b.value.pool))
  }

  // ---------- Statements ----------

  /** Bindings in scope stay in scope, and pool and slots only grow. */
  ghost predicate Extends(g: StmtGen, locals: seq<Local>, pool: seq<Constant>, next: nat) {
    locals <= g.locals && pool <= g.pool && next <= g.next
  }

  /** Forgets the variables declared since `locals` was the scope. */
  function LeaveScope(g: Option<StmtGen>, locals: seq<Local>): Option<StmtGen> {
    if g.None? then None else Some(g.value.(locals := locals))
  }

  function GenStmt(h: Host, s: Stmt, locals: seq<Local>, pool: seq<Constant>, next: nat): (g: Option<StmtGen>)
    ensures g.Some? ==> Extends(g.value, locals, pool, next)
    ensures g.Some? && !s.Let? ==> g.value.locals == locals
    decreases s, 0
  {
    match s
    case Let(name, mutable, e) =>
      var a := GenExpr(h, e, locals, pool);
      if Reserved(name) || a.None? || next >= MAX_SLOTS then None
      else Some(StmtGen(a.value.code + [SetLocal(next)], a.value.pool, next + 1, locals + [Local(name, next, mutable)]))
    case Assign(name, e) =>
      var i := Resolve(locals, name);
      if i == |locals| || !locals[i].mutable then None else
      var a := GenExpr(h, e, locals, pool);
      if a.None? then None else Some(StmtGen(a.value.code + [SetLocal(locals[i].slot)], a.value.pool, next, locals))
    case If(branches) => GenBranches(h, branches, locals, pool, next)
    case ForRange(x, start, end, body) => GenRange(h, x, start, end, body, locals, pool, next)
    case ForIn(x, iterable, body) => GenIn(h, x, iterable, body, locals, pool, next)
    case While(cond, body) =>
      var a := GenExpr(h, cond, locals, pool);
      if a.None? then None else
      var b := GenBlock(h, body, locals, a.value.pool, next);
      if b.None? then None else
      Some(StmtGen(WhileCode(a.value.code, b.value.code), b.value.pool, b.value.next, locals))
    case ReturnDeny(status, message) =>
      var a := GenExpr(h, status, locals, pool);
      if a.None? then None else
      var b := GenExpr(h, message, locals, a.value.pool);
      if b.None? then None else
      Some(StmtGen(a.value.code + b.value.code + [ReturnDenyOp], b.value.pool, next, locals))
    case ReturnNext => Some(StmtGen([ReturnNextOp], pool, next, locals))
    case ExprStmt(e) =>
      var a := GenExpr(h, e, locals, pool);
      if a.None? then None else Some(StmtGen(a.value.code + [Pop], a.value.pool, next, locals))
  }

  function GenBlock(h: Host, b: Block, locals: seq<Local>, pool: seq<Constant>, next: nat): (g: Option<StmtGen>)
    ensures g.Some? ==> Extends(g.value, locals, pool, next)
    decreases b, 0
  {
    match b
    case Empty => Some(StmtGen([], pool, next, locals))
    case Seq(s, rest) =>
      var x := GenStmt(h, s, locals, pool, next);
      if x.None? then None else
      var y := GenBlock(h, rest, x.value.locals, x.value.pool, x.value.next);
      if y.None? then None else Some(y.value.(code := x.value.code + y.value.code))
  }

  /** A branch that is not the last one ends with a jump past all that follow. */
  function BranchCode(cond: seq<OpCode>, body: seq<OpCode>, rest: seq<OpCode>, last: bool): seq<OpCode> {
    if last then cond + [JumpIfFalse(|body|)] + body + rest
    else cond + [JumpIfFalse(|body| + 1)] + body + [Jump(|rest|)] + rest
  }

  function GenBranches(h: Host, bs: Branches, locals: seq<Local>, pool: seq<Constant>, next: nat): (g: Option<StmtGen>)
    ensures g.Some? ==> Extends(g.value, locals, pool, next) && g.value.locals == locals
    decreases bs, 0
  {
    match bs
    case NoElse => Some(StmtGen([], pool, next, locals))
    case Else(body) => LeaveScope(GenBlock(h, body, locals, pool, next), locals)
    case Branch(cond, body, rest) =>
      var a := GenExpr(h, cond, locals, pool);
      if a.None? then None else
      var b := GenBlock(h, body, locals, a.value.pool, next);
      if b.None? then None else
      var c := GenBranches(h, rest, locals, b.value.pool, b.value.next);
      if c.None? then None else
      Some(c.value.(code := BranchCode(a.value.code, b.value.code, c.value.code, rest.NoElse?)))
  }

  function WhileCode(cond: seq<OpCode>, body: seq<OpCode>): seq<OpCode> {
    [LoopInit] + cond + [JumpIfFalse(|body| + 1)] + body + [LoopBack(-(|cond| + |body| + 2)), LoopEnd]
  }

  function Increment(slot: nat, one: nat): seq<OpCode> {
    [GetLocal(slot), LoadConst(one), Arith(Add), SetLocal(slot)]
  }

  function RangeTest(slot: nat): seq<OpCode> { [GetLocal(slot + 1), GetLocal(slot), Arith(Lt)] }

  /** The end of the range is computed once, before its start; both live in hidden or loop variables. */
  function RangeCode(end: seq<OpCode>, start: seq<OpCode>, body: seq<OpCode>, slot: nat, one: nat): seq<OpCode> {
    end + [SetLocal(slot)] + start + [SetLocal(slot + 1)] + WhileCode(RangeTest(slot), body + Increment(slot + 1, one))
  }

  function GenRange(h: Host, x: string, start: Expr, end: Expr, body: Block,
                    locals: seq<Local>, pool: seq<Constant>, next: nat): (g: Option<StmtGen>)
    ensures g.Some? ==> Extends(g.value, locals, pool, next) && g.value.locals == locals
    decreases body, 1
  {
    var a := GenExpr(h, end, locals, pool);
    if Reserved(x) || a.None? || next + 1 >= MAX_SLOTS then None else
    var locals1 := locals + [Local("__range_end__", next, false)];
    var b := GenExpr(h, start, locals1, a.value.pool);
    if b.None? then None else
    var c := GenBlock(h, body, locals1 + [Local(x, next + 1, false)], b.value.pool, next + 2);
    if c.None? then None else
    var one := AddConst(c.value.pool, IntConst(1));
    if one.None? then None else
    Some(StmtGen(RangeCode(a.value.code, b.value.code, c.value.code, next, one.value.0), one.value.1, c.value.next, locals))
  }

  function InTest(slot: nat): seq<OpCode> { [GetLocal(slot + 1), GetLocal(slot), ListLen, Arith(Lt)] }

  function LoadItem(slot: nat): seq<OpCode> { [GetLocal(slot), GetLocal(slot + 1), ListGet, SetLocal(slot + 2)] }

  function InCode(list: seq<OpCode>, body: seq<OpCode>, slot: nat, zero: nat, one: nat): seq<OpCode> {
    list + [SetLocal(slot), LoadConst(zero), SetLocal(slot + 1)]
    + WhileCode(InTest(slot), LoadItem(slot) + body + Increment(slot + 1, one))
  }

  function GenIn(h: Host, x: string, iterable: Expr, body: Block,
                 locals: seq<Local>, pool: seq<Constant>, next: nat): (g: Option<StmtGen>)
    ensures g.Some? ==> Extends(g.value, locals, pool, next) && g.value.locals == locals
    decreases body, 1
  {
    var a := GenExpr(h, iterable, locals, pool);
    if Reserved(x) || a.None? || next + 2 >= MAX_SLOTS then None else
    var zero := AddConst(a.value.pool, IntConst(0));
    if zero.None? then None else
    var locals1 := locals + [Local("__list__", next, false), Local("__idx__", next + 1, true), Local(x, next + 2, false)];
    var b := GenBlock(h, body, locals1, zero.value.1, next + 3);
    if b.None? then None else
    var one := AddConst(b.value.pool, IntConst(1));
    if one.None? then None else
    Some(StmtGen(InCode(a.value.code, b.value.code, next, zero.value.0, one.value.0), one.value.1, b.value.next, locals))
  }

  // ---------- Programs ----------

  predicate EndsWithReturn(code: seq<OpCode>) {
    code != [] && (code[|code| - 1].ReturnNextOp? || code[|code| - 1].ReturnDenyOp?)
  }

  /** A script without a final return lets the request through. */
  function Compile(h: Host, p: Block): Option<Script> {
    match GenBlock(h, p, [], [], 0)
    case None => None
    case Some(g) => Some(Script(g.code + if EndsWithReturn(g.code) then [] else [ReturnNextOp], g.pool, g.next))
  }
}
