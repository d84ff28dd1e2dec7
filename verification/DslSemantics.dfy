// Meaning of EdgionDSL scripts, given directly on the syntax tree.
//
// Evaluation knows nothing of bytecode: variables live in a list of bindings, blocks restore the
// scope they started from, and each loop is bounded by the configured iteration limit, so every
// script has a meaning. Each result also carries its price in VM instructions.

module DslSemantics {
  import opened Common
  import opened DslSyntax

  datatype Binding = Binding(name: string, value: Value)

  type Env = seq<Binding>

  datatype Eval =
    | Val(v: Value, w: World, cost: nat)
    | Fault(error: RuntimeError, w: World, cost: nat)

  datatype ArgsEval =
    | Vals(vs: seq<Value>, w: World, cost: nat)
    | ArgsErr(error: RuntimeError, w: World, cost: nat)

  datatype Exec =
    | Norm(env: Env, w: World, cost: nat)
    | Ret(verdict: Verdict, w: World, cost: nat)
    | Abort(error: RuntimeError, w: World, cost: nat)

  function AddCost(x: Exec, c: nat): Exec {
    match x
    case Norm(env, w, cost) => Norm(env, w, cost + c)
    case Ret(v, w, cost) => Ret(v, w, cost + c)
    case Abort(e, w, cost) => Abort(e, w, cost + c)
  }

  /** Leaves the scope opened when only `n` bindings existed. */
  function Leave(x: Exec, n: nat): Exec {
    match x
    case Norm(env, w, cost) => Norm(if n <= |env| then env[..n] else env, w, cost)
    case _ => x
  }

  /** Innermost binding of `name`, or |env| when unbound. */
  function Find(env: Env, name: string): (i: nat)
    ensures i <= |env|
    ensures i < |env| ==> env[i].name == name
    ensures forall j :: i < j < |env| ==> env[j].name != name
  {
    if env == [] then 0
    else if env[|env| - 1].name == name then |env| - 1
    else
      var i := Find(env[..|env| - 1], name);
      if i == |env| - 1 then |env| else i
  }

  // ---------- Expressions ----------

  function Leaf(m: Machine, v: Value, depth: nat, w: World): Eval {
    if depth < m.limits.maxStackDepth then Val(v, w, 1) else Fault(StackOverflow, w, 1)
  }

  function Returned(r: Result<Value, RuntimeError>, w: World, cost: nat): Eval {
    match r case Ok(v) => Val(v, w, cost) case Err(e) => Fault(e, w, cost)
  }

  /** A right operand after `before` instructions, and the jump that follows its value. */
  function Surcharged(b: Eval, before: nat): Eval {
    match b
    case Val(v, w, c) => Val(v, w, before + c + 1)
    case Fault(e, w, c) => Fault(e, w, before + c)
  }

  /** Applies `op` to evaluated operands; the result needs room for one value. */
  function Applied(m: Machine, op: Operation, args: ArgsEval, depth: nat): Eval
    requires args.Vals? ==> |args.vs| == Arity(m.host, op)
  {
    match args
    case ArgsErr(e, w, c) => Fault(e, w, c)
    case Vals(vs, w, c) =>
      var (answer, w') := Perform(m, op, vs, w);
      if answer.Ok? && depth >= m.limits.maxStackDepth then Fault(StackOverflow, w', c + 1)
      else Returned(answer, w', c + 1)
  }

  /** Meaning of `e` with `depth` operands already waiting. */
  function EvalExpr(m: Machine, e: Expr, env: Env, depth: nat, w: World): (r: Eval)
    ensures r.Val? ==> depth < m.limits.maxStackDepth
    decreases e
  {
    match e
    case Literal(v) => Leaf(m, v, depth, w)
    case Ident(x) =>
      var i := Find(env, x);
      if i < |env| then Leaf(m, env[i].value, depth, w) else Fault(Internal, w, 0)
    case ShortCircuit(isAnd, l, r) =>
      var a := EvalExpr(m, l, env, depth, w);
      var test := if isAnd then 1 else 2;
      if a.Fault? then a
      else if Truthy(a.v) != isAnd then Val(Bool(!isAnd), a.w, a.cost + test + 1)
      else
        var b := EvalExpr(m, r, env, depth, a.w);
        Surcharged(b, a.cost + test)
    case Operate(op, operands) =>
      if ArgCount(operands) == Arity(m.host, op) then Applied(m, op, EvalArgs(m, operands, env, depth, w), depth)
      else Fault(Internal, w, 0)
  }

  /** Operands are evaluated left to right, each with its predecessors waiting. */
  function EvalArgs(m: Machine, args: Args, env: Env, depth: nat, w: World): (r: ArgsEval)
    ensures r.Vals? ==> |r.vs| == ArgCount(args)
    decreases args
  {
    match args
    case NoArgs => Vals([], w, 0)
    case Arg(e, rest) =>
      var a := EvalExpr(m, e, env, depth, w);
      if a.Fault? then ArgsErr(a.error, a.w, a.cost)
      else
        var b := EvalArgs(m, rest, env, depth + 1, a.w);
        if b.ArgsErr? then ArgsErr(b.error, b.w, a.cost + b.cost) else Vals([a.v] + b.vs, b.w, a.cost + b.cost)
  }

  // ---------- Statements ----------

  function ExecStmt(m: Machine, s: Stmt, env: Env, w: World): (x: Exec)
    ensures x.Norm? ==> |x.env| == |env| + if s.Let? then 1 else 0
    decreases s, 0
  {
    match s
    case Let(name, _, e) =>
      var r := EvalExpr(m, e, env, 0, w);
      if r.Fault? then Abort(r.error, r.w, r.cost) else Norm(env + [Binding(name, r.v)], r.w, r.cost + 1)
    case Assign(name, e) =>
      var i := Find(env, name);
      if i == |env| then Abort(Internal, w, 0)
      else
        var r := EvalExpr(m, e, env, 0, w);
        if r.Fault? then Abort(r.error, r.w, r.cost) else Norm(env[i := Binding(name, r.v)], r.w, r.cost + 1)
    case If(branches) => ExecBranches(m, branches, env, w)
    case ForRange(x, start, end, body) => ExecRange(m, x, start, end, body, env, w)
    case ForIn(x, iterable, body) => ExecIn(m, x, iterable, body, env, w)
    case While(cond, body) => AddCost(WhileLoop(m, cond, body, env, w, 0), 1)
    case ReturnDeny(status, message) =>
      var a := EvalExpr(m, status, env, 0, w);
      if a.Fault? then Abort(a.error, a.w, a.cost)
      else
        var b := EvalExpr(m, message, env, 1, a.w);
        if b.Fault? then Abort(b.error, b.w, a.cost + b.cost)
        else Ret(DenyVerdict(m, a.v, b.v), b.w, a.cost + b.cost + 1)
    case ReturnNext => Ret(GoodNext, w, 1)
    case ExprStmt(e) =>
      var r := EvalExpr(m, e, env, 0, w);
      if r.Fault? then Abort(r.error, r.w, r.cost) else Norm(env, r.w, r.cost + 1)
  }

  function ExecBlock(m: Machine, b: Block, env: Env, w: World): (x: Exec)
    ensures x.Norm? ==> |x.env| >= |env|
    decreases b, 0
  {
    match b
    case Empty => Norm(env, w, 0)
    case Seq(s, rest) =>
      var x := ExecStmt(m, s, env, w);
      if x.Norm? then AddCost(ExecBlock(m, rest, x.env, x.w), x.cost) else x
  }

  /** A block in its own scope. */
  function ExecScope(m: Machine, b: Block, env: Env, w: World): (x: Exec)
    ensures x.Norm? ==> |x.env| == |env|
    decreases b, 1
  {
    Leave(ExecBlock(m, b, env, w), |env|)
  }

  function ExecBranches(m: Machine, bs: Branches, env: Env, w: World): (x: Exec)
    ensures x.Norm? ==> |x.env| == |env|
    decreases bs, 0
  {
    match bs
    case NoElse => Norm(env, w, 0)
    case Else(body) => ExecScope(m, body, env, w)
    case Branch(cond, body, rest) =>
      var c := EvalExpr(m, cond, env, 0, w);
      if c.Fault? then Abort(c.error, c.w, c.cost)
      else if Truthy(c.v) then
        var x := ExecScope(m, body, env, c.w);
        AddCost(x, c.cost + 1 + if x.Norm? && !rest.NoElse? then 1 else 0)
      else AddCost(ExecBranches(m, rest, env, c.w), c.cost + 1)
  }

  /** `rounds` iterations are complete; the loop may finish at most `maxLoopIterations` of them. */
  function WhileLoop(m: Machine, cond: Expr, body: Block, env: Env, w: World, rounds: nat): (x: Exec)
    requires rounds <= m.limits.maxLoopIterations
    ensures x.Norm? ==> |x.env| == |env|
    decreases body, 2 + m.limits.maxLoopIterations - rounds
  {
    var c := EvalExpr(m, cond, env, 0, w);
    if c.Fault? then Abort(c.error, c.w, c.cost)
    else if !Truthy(c.v) then Norm(env, c.w, c.cost + 2)
    else
      var x := ExecScope(m, body, env, c.w);
      if !x.Norm? then AddCost(x, c.cost + 1)
      else if rounds == m.limits.maxLoopIterations then Abort(LoopLimitExceeded, x.w, c.cost + x.cost + 2)
      else AddCost(WhileLoop(m, cond, body, x.env, x.w, rounds + 1), c.cost + x.cost + 2)
  }

  /** `for x in start..end`: the end is evaluated first, and once. */
  function ExecRange(m: Machine, x: string, start: Expr, end: Expr, body: Block, env: Env, w: World): (r: Exec)
    ensures r.Norm? ==> |r.env| == |env|
    decreases body, 3 + m.limits.maxLoopIterations
  {
    var hi := EvalExpr(m, end, env, 0, w);
    if hi.Fault? then Abort(hi.error, hi.w, hi.cost)
    else
      var env1 := env + [Binding("__range_end__", hi.v)];
      var lo := EvalExpr(m, start, env1, 0, hi.w);
      if lo.Fault? then Abort(lo.error, lo.w, hi.cost + 1 + lo.cost)
      else
        AddCost(Leave(RangeLoop(m, body, env1 + [Binding(x, lo.v)], lo.w, 0), |env|), hi.cost + lo.cost + 3)
  }

  /** `for x in list`. */
  function ExecIn(m: Machine, x: string, iterable: Expr, body: Block, env: Env, w: World): (r: Exec)
    ensures r.Norm? ==> |r.env| == |env|
    decreases body, 3 + m.limits.maxLoopIterations
  {
    var l := EvalExpr(m, iterable, env, 0, w);
    if l.Fault? then Abort(l.error, l.w, l.cost)
    else
      var env1 := env + [Binding("__list__", l.v), Binding("__idx__", Int(0))];
      AddCost(Leave(InLoop(m, x, body, env1, l.w, 0), |env|), l.cost + 4)
  }

  /** The last two bindings are the range end and the loop variable. */
  function RangeLoop(m: Machine, body: Block, env: Env, w: World, rounds: nat): (x: Exec)
    requires rounds <= m.limits.maxLoopIterations && |env| >= 2
    ensures x.Norm? ==> |x.env| == |env|
    decreases body, 2 + m.limits.maxLoopIterations - rounds
  {
    var at := |env| - 1;
    if m.limits.maxStackDepth < 2 then Abort(StackOverflow, w, 1 + m.limits.maxStackDepth)
    else
      var below := m.host.binary(Lt, env[at].value, env[at - 1].value);
      if below.Err? then Abort(below.error, w, 3)
      else if !Truthy(below.value) then Norm(env, w, 5)
      else
        var x := ExecScope(m, body, env, w);
        if !x.Norm? then AddCost(x, 4)
        else
          var next := m.host.binary(Add, x.env[at].value, Int(1));
          if next.Err? then Abort(next.error, x.w, x.cost + 7)
          else if rounds == m.limits.maxLoopIterations then Abort(LoopLimitExceeded, x.w, x.cost + 9)
          else
            AddCost(RangeLoop(m, body, x.env[at := x.env[at].(value := next.value)], x.w, rounds + 1), x.cost + 9)
  }

  /** The last two bindings are the list and the index of the next item. */
  function InLoop(m: Machine, name: string, body: Block, env: Env, w: World, rounds: nat): (x: Exec)
    requires rounds <= m.limits.maxLoopIterations && |env| >= 2
    ensures x.Norm? ==> |x.env| == |env|
    decreases body, 2 + m.limits.maxLoopIterations - rounds
  {
    var at := |env| - 1;
    if m.limits.maxStackDepth < 2 then Abort(StackOverflow, w, 1 + m.limits.maxStackDepth)
    else
      var below := m.host.binary(Lt, env[at].value, Length(env[at - 1].value));
      if below.Err? then Abort(below.error, w, 4)
      else if !Truthy(below.value) then Norm(env, w, 6)
      else
        var item := Binding(name, Item(env[at - 1].value, env[at].value));
        var x := Leave(ExecBlock(m, body, env + [item], w), |env|);
        if !x.Norm? then AddCost(x, 9)
        else
          var next := m.host.binary(Add, x.env[at].value, Int(1));
          if next.Err? then Abort(next.error, x.w, x.cost + 12)
          else if rounds == m.limits.maxLoopIterations then Abort(LoopLimitExceeded, x.w, x.cost + 14)
          else
            AddCost(InLoop(m, name, body, x.env[at := x.env[at].(value := next.value)], x.w, rounds + 1), x.cost + 14)
  }

  // ---------- Programs ----------

  function Ending(x: Exec): Final {
    match x
    case Norm(_, w, _) => Finished(GoodNext, w.trace)
    case Ret(v, w, _) => Finished(v, w.trace)
    case Abort(e, w, _) => Failed(e, w.trace)
  }

  function RunProgram(m: Machine, p: Block): Exec {
    ExecBlock(m, p, [], World(m.limits.maxCallCount, []))
  }

  /** Instructions the whole script needs; falling off the end costs one more. */
  function Price(x: Exec): nat { x.cost + if x.Norm? then 1 else 0 }
}
