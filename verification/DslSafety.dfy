// Compiled scripts never meet a malformed machine: no missing operand, slot or constant, no wild jump.

module DslSafety {
  import opened Common
  import opened DslSyntax
  import opened DslSemantics
  import opened DslCompiler
  import opened DslVm
  import opened DslExprProof
  import opened DslScriptProof

  /** Operators and plugin calls fail for reasons of their own, never with the machine's internal error. */
  ghost predicate Tame(h: Host) {
    (forall op, a, b :: h.binary(op, a, b) != Err(Internal)) &&
    (forall v :: h.negate(v) != Err(Internal)) &&
    (forall t, c :: h.respond(t, c) != Err(Internal))
  }

  /** Scope and environment name the same variables. */
  ghost predicate Named(locals: seq<Local>, env: Env) {
    |locals| == |env| && forall i :: 0 <= i < |env| ==> locals[i].name == env[i].name
  }

  ghost predicate Safe(x: Exec, locals: seq<Local>) {
    match x
    case Norm(env, _, _) => Named(locals, env)
    case Ret(_, _, _) => true
    case Abort(e, _, _) => e != Internal
  }

  lemma {:induction false} ExprSafe(m: Machine, e: Expr, locals: seq<Local>, pool: seq<Constant>, env: Env, depth: nat, w: World)
    requires Tame(m.host) && Named(locals, env) && GenExpr(m.host, e, locals, pool).Some?
    ensures var r := EvalExpr(m, e, env, depth, w); r.Fault? ==> r.error != Internal
    decreases e
  {
    match e
    case Literal(_) =>
    case Ident(x) => ResolveIsFind(locals, env, x);
    case ShortCircuit(_, l, r) =>
      ExprSafe(m, l, locals, pool, env, depth, w);
      var a := EvalExpr(m, l, env, depth, w);
      if a.Val? {
        ExprSafe(m, r, locals, GenExpr(m.host, l, locals, pool).value.pool, env, depth, a.w);
      }
    case Operate(op, operands) =>
      ArgsSafe(m, operands, locals, GenOperation(m.host, op, pool).value.1, env, depth, w);
      var args := EvalArgs(m, operands, env, depth, w);
      AppliedSafe(m, op, args, depth);
  }

  lemma AppliedSafe(m: Machine, op: Operation, args: ArgsEval, depth: nat)
    requires Tame(m.host) && (args.Vals? ==> |args.vs| == Arity(m.host, op)) && (args.ArgsErr? ==> args.error != Internal)
    ensures var r := Applied(m, op, args, depth); r.Fault? ==> r.error != Internal
  {
  }

  lemma {:induction false} ArgsSafe(m: Machine, args: Args, locals: seq<Local>, pool: seq<Constant>, env: Env, depth: nat, w: World)
    requires Tame(m.host) && Named(locals, env) && GenArgs(m.host, args, locals, pool).Some?
    ensures var r := EvalArgs(m, args, env, depth, w); r.ArgsErr? ==> r.error != Internal
    decreases args
  {
    match args
    case NoArgs =>
    case Arg(e, rest) =>
      ExprSafe(m, e, locals, pool, env, depth, w);
      var a := EvalExpr(m, e, env, depth, w);
      if a.Val? {
        ArgsSafe(m, rest, locals, GenExpr(m.host, e, locals, pool).value.pool, env, depth + 1, a.w);
      }
  }

  // ---------- Statements ----------

  lemma {:induction false} StmtSafe(m: Machine, s: Stmt, locals: seq<Local>, pool: seq<Constant>, next: nat, env: Env, w: World)
    requires Tame(m.host) && Named(locals, env) && GenStmt(m.host, s, locals, pool, next).Some?
    ensures Safe(ExecStmt(m, s, env, w), GenStmt(m.host, s, locals, pool, next).value.locals)
    decreases s, 0
  {
    hide Tame, GenExpr, EvalExpr, GenBlock, ExecBlock;
    match s
    case Let(_, _, e) => ExprSafe(m, e, locals, pool, env, 0, w);
    case Assign(x, e) =>
      ResolveIsFind(locals, env, x);
      ExprSafe(m, e, locals, pool, env, 0, w);
    case If(branches) => BranchesSafe(m, branches, locals, pool, next, env, w);
    case ForRange(x, start, end, body) => RangeSafe(m, x, start, end, body, locals, pool, next, env, w);
    case ForIn(x, iterable, body) => InSafe(m, x, iterable, body, locals, pool, next, env, w);
    case While(cond, body) => WhileSafe(m, cond, body, locals, pool, next, env, w, 0);
    case ReturnDeny(status, message) =>
      ExprSafe(m, status, locals, pool, env, 0, w);
      var a := EvalExpr(m, status, env, 0, w);
      if a.Val? {
        ExprSafe(m, message, locals, GenExpr(m.host, status, locals, pool).value.pool, env, 1, a.w);
      }
    case ReturnNext =>
    case ExprStmt(e) => ExprSafe(m, e, locals, pool, env, 0, w);
  }

  lemma {:induction false} BlockSafe(m: Machine, b: Block, locals: seq<Local>, pool: seq<Constant>, next: nat, env: Env, w: World)
    requires Tame(m.host) && Named(locals, env) && GenBlock(m.host, b, locals, pool, next).Some?
    ensures Safe(ExecBlock(m, b, env, w), GenBlock(m.host, b, locals, pool, next).value.locals)
    decreases b, 0
  {
    hide Tame, GenStmt, ExecStmt;
    match b
    case Empty =>
    case Seq(s, rest) =>
      StmtSafe(m, s, locals, pool, next, env, w);
      var g := GenStmt(m.host, s, locals, pool, next).value;
      var x := ExecStmt(m, s, env, w);
      if x.Norm? {
        BlockSafe(m, rest, g.locals, g.pool, g.next, x.env, x.w);
      }
  }

  lemma {:induction false} ScopeSafe(m: Machine, b: Block, locals: seq<Local>, pool: seq<Constant>, next: nat, env: Env, w: World)
    requires Tame(m.host) && Named(locals, env) && GenBlock(m.host, b, locals, pool, next).Some?
    ensures Safe(ExecScope(m, b, env, w), locals)
    decreases b, 1
  {
    hide Tame, GenBlock, ExecBlock;
    BlockSafe(m, b, locals, pool, next, env, w);
  }

  lemma {:induction false} BranchesSafe(m: Machine, bs: Branches, locals: seq<Local>, pool: seq<Constant>, next: nat, env: Env, w: World)
    requires Tame(m.host) && Named(locals, env) && GenBranches(m.host, bs, locals, pool, next).Some?
    ensures Safe(ExecBranches(m, bs, env, w), locals)
    decreases bs, 0
  {
    hide Tame, GenExpr, EvalExpr, GenBlock, ExecScope;
    match bs
    case NoElse =>
    case Else(body) => ScopeSafe(m, body, locals, pool, next, env, w);
    case Branch(cond, body, rest) =>
      ExprSafe(m, cond, locals, pool, env, 0, w);
      var c := EvalExpr(m, cond, env, 0, w);
      if c.Val? {
        var ga := GenExpr(m.host, cond, locals, pool).value;
        var gb := GenBlock(m.host, body, locals, ga.pool, next).value;
        ScopeSafe(m, body, locals, ga.pool, next, env, c.w);
        BranchesSafe(m, rest, locals, gb.pool, gb.next, env, c.w);
      }
  }

  // ---------- Loops ----------

  lemma {:induction false} WhileSafe(m: Machine, cond: Expr, body: Block, locals: seq<Local>, pool: seq<Constant>, next: nat,
                                     env: Env, w: World, rounds: nat)
    requires Tame(m.host) && Named(locals, env) && GenExpr(m.host, cond, locals, pool).Some?
    requires GenBlock(m.host, body, locals, GenExpr(m.host, cond, locals, pool).value.pool, next).Some?
    requires rounds <= m.limits.maxLoopIterations
    ensures Safe(WhileLoop(m, cond, body, env, w, rounds), locals)
    decreases body, 2 + m.limits.maxLoopIterations - rounds
  {
    hide Tame, GenExpr, EvalExpr, GenBlock, ExecScope;
    ExprSafe(m, cond, locals, pool, env, 0, w);
    var c := EvalExpr(m, cond, env, 0, w);
    if c.Val? && Truthy(c.v) {
      ScopeSafe(m, body, locals, GenExpr(m.host, cond, locals, pool).value.pool, next, env, c.w);
      var x := ExecScope(m, body, env, c.w);
      if x.Norm? && rounds < m.limits.maxLoopIterations {
        WhileSafe(m, cond, body, locals, pool, next, x.env, x.w, rounds + 1);
      }
    }
  }

  lemma BinarySafe(m: Machine, op: BinOp, a: Value, b: Value)
    requires Tame(m.host)
    ensures m.host.binary(op, a, b) != Err(Internal)
  {
  }

  lemma {:induction false} RangeLoopSafe(m: Machine, body: Block, locals: seq<Local>, pool: seq<Constant>, next: nat,
                                         env: Env, w: World, rounds: nat)
    requires Tame(m.host) && Named(locals, env) && |env| >= 2 && GenBlock(m.host, body, locals, pool, next).Some?
    requires rounds <= m.limits.maxLoopIterations
    ensures Safe(RangeLoop(m, body, env, w, rounds), locals)
    decreases body, 2 + m.limits.maxLoopIterations - rounds
  {
    hide Tame, GenBlock, ExecScope;
    var at := |env| - 1;
    BinarySafe(m, Lt, env[at].value, env[at - 1].value);
    ScopeSafe(m, body, locals, pool, next, env, w);
    var x := ExecScope(m, body, env, w);
    if x.Norm? {
      BinarySafe(m, Add, x.env[at].value, Int(1));
      var sum := m.host.binary(Add, x.env[at].value, Int(1));
      if sum.Ok? && rounds < m.limits.maxLoopIterations {
        RangeLoopSafe(m, body, locals, pool, next, x.env[at := x.env[at].(value := sum.value)], x.w, rounds + 1);
      }
    }
  }

  lemma {:induction false} RangeSafe(m: Machine, x: string, start: Expr, end: Expr, body: Block,
                                     locals: seq<Local>, pool: seq<Constant>, next: nat, env: Env, w: World)
    requires Tame(m.host) && Named(locals, env) && GenRange(m.host, x, start, end, body, locals, pool, next).Some?
    ensures Safe(ExecRange(m, x, start, end, body, env, w), locals)
    decreases body, 3 + m.limits.maxLoopIterations
  {
    hide Tame, GenExpr, EvalExpr, GenBlock, RangeLoop, AddConst, RangeCode;
    ExprSafe(m, end, locals, pool, env, 0, w);
    var hi := EvalExpr(m, end, env, 0, w);
    if hi.Val? {
      var ga := GenExpr(m.host, end, locals, pool).value;
      var locals1 := locals + [Local("__range_end__", next, false)];
      var env1 := env + [Binding("__range_end__", hi.v)];
      ExprSafe(m, start, locals1, ga.pool, env1, 0, hi.w);
      var lo := EvalExpr(m, start, env1, 0, hi.w);
      if lo.Val? {
        var gb := GenExpr(m.host, start, locals1, ga.pool).value;
        RangeLoopSafe(m, body, locals1 + [Local(x, next + 1, false)], gb.pool, next + 2, env1 + [Binding(x, lo.v)], lo.w, 0);
      }
    }
  }

  lemma {:induction false} InLoopSafe(m: Machine, name: string, body: Block, locals: seq<Local>, pool: seq<Constant>, slot: nat,
                                      env: Env, w: World, rounds: nat)
    requires Tame(m.host) && Named(locals, env) && |env| >= 2
    requires GenBlock(m.host, body, locals + [Local(name, slot, false)], pool, slot + 1).Some?
    requires rounds <= m.limits.maxLoopIterations
    ensures Safe(InLoop(m, name, body, env, w, rounds), locals)
    decreases body, 2 + m.limits.maxLoopIterations - rounds
  {
    hide Tame, GenBlock, ExecBlock;
    var at := |env| - 1;
    BinarySafe(m, Lt, env[at].value, Length(env[at - 1].value));
    var item := Binding(name, Item(env[at - 1].value, env[at].value));
    BlockSafe(m, body, locals + [Local(name, slot, false)], pool, slot + 1, env + [item], w);
    var x := Leave(ExecBlock(m, body, env + [item], w), |env|);
    if x.Norm? {
      assert Named(locals, x.env);
      BinarySafe(m, Add, x.env[at].value, Int(1));
      var sum := m.host.binary(Add, x.env[at].value, Int(1));
      if sum.Ok? && rounds < m.limits.maxLoopIterations {
        InLoopSafe(m, name, body, locals, pool, slot, x.env[at := x.env[at].(value := sum.value)], x.w, rounds + 1);
      }
    }
  }

  lemma {:induction false} InSafe(m: Machine, x: string, iterable: Expr, body: Block,
                                  locals: seq<Local>, pool: seq<Constant>, next: nat, env: Env, w: World)
    requires Tame(m.host) && Named(locals, env) && GenIn(m.host, x, iterable, body, locals, pool, next).Some?
    ensures Safe(ExecIn(m, x, iterable, body, env, w), locals)
    decreases body, 3 + m.limits.maxLoopIterations
  {
    hide Tame, GenExpr, EvalExpr, GenBlock, InLoop, AddConst, InCode;
    ExprSafe(m, iterable, locals, pool, env, 0, w);
    var l := EvalExpr(m, iterable, env, 0, w);
    if l.Val? {
      var ga := GenExpr(m.host, iterable, locals, pool).value;
      var pool0 := AddConst(ga.pool, IntConst(0)).value.1;
      var locals2 := locals + [Local("__list__", next, false), Local("__idx__", next + 1, true)];
      assert locals2 + [Local(x, next + 2, false)] ==
        locals + [Local("__list__", next, false), Local("__idx__", next + 1, true), Local(x, next + 2, false)];
      InLoopSafe(m, x, body, locals2, pool0, next + 2, env + [Binding("__list__", l.v), Binding("__idx__", Int(0))], l.w, 0);
    }
  }

  /** Whatever program the compiler accepts, and under any limits, its run never ends in an internal error, however
      many steps it is given. */
  lemma NeverInternal(m: Machine, p: Block, script: Script, steps: nat)
    requires Tame(m.host) && Compile(m.host, p) == Some(script)
    ensures var final := Run(Cycles(m, script), Start(m, script), steps);
      final.Failed? ==> final.error != Internal
  {
    hide Tame, GenBlock, ExecBlock, Run, Cycle, Start;
    BlockSafe(m, p, [], [], 0, [], World(m.limits.maxCallCount, []));
    ScriptCorrect(m, p, script);
    assert Budget(steps);
  }
}
