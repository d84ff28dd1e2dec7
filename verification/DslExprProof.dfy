// Compiled expressions compute their meaning, instruction for instruction.

module DslExprProof {
  import opened Common
  import opened DslSyntax
  import opened DslSemantics
  import opened DslCompiler
  import opened DslVm

  /** Mentioning `Fetch(st)` looks up what the machine does at `st`. */
  ghost predicate Fetch(st: State) { true }

  ghost predicate IsVm(m: Machine, script: Script, cycle: State -> Outcome) {
    forall st {:trigger Fetch(st)} :: Fetch(st) && cycle(st) == Cycle(m, script, st)
  }

  /** `code` sits at `pc`. */
  ghost predicate At(script: Script, pc: nat, code: seq<OpCode>) {
    pc + |code| <= |script.code| && script.code[pc..pc + |code|] == code
  }

  /** Scope and environment name the same variables, each held in its own slot. */
  ghost predicate Agrees(locals: seq<Local>, env: Env, slots: seq<Value>) {
    |locals| == |env| &&
    (forall i :: 0 <= i < |env| ==>
      locals[i].name == env[i].name && locals[i].slot < |slots| && slots[locals[i].slot] == env[i].value)
  }

  ghost predicate StepsOut(f: Final) { f.Failed? && f.error == StepLimitExceeded }

  /** Mentioning `Budget(k)` looks at runs that may take `k` steps. */
  ghost predicate Budget(k: nat) { true }

  /** The machine at `st` spends `cost` steps and then behaves like `after`, or runs out of steps. */
  ghost predicate Spends(cycle: State -> Outcome, st: State, cost: nat, after: State) {
    forall k: nat {:trigger Budget(k)} :: Budget(k) &&
      if k < cost then StepsOut(Run(cycle, st, k)) else Run(cycle, st, k) == Run(cycle, after, k - cost)
  }

  /** The machine at `st` spends `cost` steps and ends with `final`, or runs out of steps. */
  ghost predicate Stops(cycle: State -> Outcome, st: State, cost: nat, final: Final) {
    forall k: nat {:trigger Budget(k)} :: Budget(k) &&
      if k < cost then StepsOut(Run(cycle, st, k)) else Run(cycle, st, k) == final
  }

  lemma Chain(cycle: State -> Outcome, st: State, c1: nat, mid: State, c2: nat, after: State)
    requires Spends(cycle, st, c1, mid)
    requires Spends(cycle, mid, c2, after)
    ensures Spends(cycle, st, c1 + c2, after)
  {
    forall k: nat
      ensures if k < c1 + c2 then StepsOut(Run(cycle, st, k)) else Run(cycle, st, k) == Run(cycle, after, k - (c1 + c2))
    {
      assert Budget(k);
      if k >= c1 { assert Budget(k - c1); }
    }
  }

  lemma ChainStop(cycle: State -> Outcome, st: State, c1: nat, mid: State, c2: nat, final: Final)
    requires Spends(cycle, st, c1, mid)
    requires Stops(cycle, mid, c2, final)
    ensures Stops(cycle, st, c1 + c2, final)
  {
    forall k: nat ensures if k < c1 + c2 then StepsOut(Run(cycle, st, k)) else Run(cycle, st, k) == final {
      assert Budget(k);
      if k >= c1 { assert Budget(k - c1); }
    }
  }

  /** One instruction that goes on. */
  lemma Goes(m: Machine, script: Script, cycle: State -> Outcome, st: State, op: OpCode, next: State)
    requires IsVm(m, script, cycle)
    requires At(script, st.pc, [op])
    requires Step(m, script, op, st.(pc := st.pc + 1)) == Go(next)
    ensures Spends(cycle, st, 1, next)
  {
    assert script.code[st.pc..st.pc + 1][0] == op;
    assert Fetch(st) && cycle(st) == Go(next);
    forall k: nat ensures if k < 1 then StepsOut(Run(cycle, st, k)) else Run(cycle, st, k) == Run(cycle, next, k - 1) {
    }
  }

  /** One instruction that ends the run. */
  lemma Halts(m: Machine, script: Script, cycle: State -> Outcome, st: State, op: OpCode, final: Final)
    requires IsVm(m, script, cycle)
    requires At(script, st.pc, [op])
    requires Step(m, script, op, st.(pc := st.pc + 1)) == Halt(final)
    ensures Stops(cycle, st, 1, final)
  {
    assert script.code[st.pc..st.pc + 1][0] == op;
    assert Fetch(st) && cycle(st) == Halt(final);
    forall k: nat ensures if k < 1 then StepsOut(Run(cycle, st, k)) else Run(cycle, st, k) == final {
    }
  }

  lemma Split(script: Script, pc: nat, a: seq<OpCode>, b: seq<OpCode>)
    requires At(script, pc, a + b)
    ensures At(script, pc, a) && At(script, pc + |a|, b)
  {
    var whole := script.code[pc..pc + |a + b|];
    assert whole[..|a|] == a && whole[|a|..] == b;
    assert script.code[pc..pc + |a|] == whole[..|a|];
    assert script.code[pc + |a|..pc + |a| + |b|] == whole[|a|..];
  }

  lemma Split3(script: Script, pc: nat, a: seq<OpCode>, b: seq<OpCode>, c: seq<OpCode>)
    requires At(script, pc, a + b + c)
    ensures At(script, pc, a) && At(script, pc + |a|, b) && At(script, pc + |a| + |b|, c)
  {
    Split(script, pc, a + b, c);
    Split(script, pc, a, b);
  }

  lemma {:induction false} ResolveIsFind(locals: seq<Local>, env: Env, name: string)
    requires |locals| == |env|
    requires forall i :: 0 <= i < |env| ==> locals[i].name == env[i].name
    ensures Resolve(locals, name) == Find(env, name)
  {
    var n := |env|;
    if n > 0 && env[n - 1].name != name {
      ResolveIsFind(locals[..n - 1], env[..n - 1], name);
    }
  }

  function Pushed(st: State, v: Value, w: World, len: nat): State {
    st.(pc := st.pc + len, stack := st.stack + [v], w := w)
  }

  /** Running the `len` instructions at `st` pushes the value of `r`, or ends with its error. */
  ghost predicate Computes(cycle: State -> Outcome, st: State, r: Eval, len: nat) {
    match r
    case Val(v, w, c) => Spends(cycle, st, c, Pushed(st, v, w, len))
    case Fault(e, w, c) => Stops(cycle, st, c, Failed(e, w.trace))
  }

  ghost predicate ComputesArgs(cycle: State -> Outcome, st: State, r: ArgsEval, len: nat) {
    match r
    case Vals(vs, w, c) => Spends(cycle, st, c, st.(pc := st.pc + len, stack := st.stack + vs, w := w))
    case ArgsErr(e, w, c) => Stops(cycle, st, c, Failed(e, w.trace))
  }

  /** A constant or variable. */
  lemma LeafCorrect(m: Machine, script: Script, cycle: State -> Outcome, st: State, op: OpCode, v: Value)
    requires IsVm(m, script, cycle)
    requires At(script, st.pc, [op])
    requires Step(m, script, op, st.(pc := st.pc + 1)) == Push(m, v, st.(pc := st.pc + 1))
    ensures Computes(cycle, st, Leaf(m, v, |st.stack|, st.w), 1)
  {
    if |st.stack| < m.limits.maxStackDepth {
      Goes(m, script, cycle, st, op, Pushed(st, v, st.w, 1));
    } else {
      Halts(m, script, cycle, st, op, Failed(StackOverflow, st.w.trace));
    }
  }

  /** A condition followed by `JumpIfFalse`: fall through when truthy, jump when not. */
  lemma Tested(m: Machine, script: Script, cycle: State -> Outcome, st: State, a: Eval, la: nat, offset: nat)
    requires IsVm(m, script, cycle)
    requires a.Val? && Computes(cycle, st, a, la)
    requires At(script, st.pc + la, [JumpIfFalse(offset)])
    requires st.pc + la + 1 + offset <= |script.code|
    ensures Spends(cycle, st, a.cost + 1, st.(pc := st.pc + la + 1 + (if Truthy(a.v) then 0 else offset), w := a.w))
  {
    var p1 := Pushed(st, a.v, a.w, la);
    var s1 := p1;
    assert s1.stack[..|s1.stack| - 1] == st.stack;
    var s2 := s1.(pc := s1.pc + 1 + (if Truthy(a.v) then 0 else offset), stack := st.stack);
    Goes(m, script, cycle, s1, JumpIfFalse(offset), s2);
    Chain(cycle, st, a.cost, p1, 1, s2);
  }

  /** Having reached `mid`, an operand and a jump over the next instruction. */
  lemma OperandThenJump(m: Machine, script: Script, cycle: State -> Outcome, st: State, c: nat, mid: State, b: Eval, lb: nat)
    requires IsVm(m, script, cycle)
    requires Spends(cycle, st, c, mid) && mid == st.(pc := mid.pc, w := mid.w) && st.pc <= mid.pc
    requires Computes(cycle, mid, b, lb)
    requires At(script, mid.pc + lb, [Jump(1)]) && mid.pc + lb + 2 <= |script.code|
    ensures Computes(cycle, st, Surcharged(b, c), mid.pc + lb + 2 - st.pc)
  {
    match b
    case Val(v, w, cb) =>
      var p := Pushed(mid, v, w, lb);
      Chain(cycle, st, c, mid, cb, p);
      var at := p;
      var end := at.(pc := at.pc + 2);
      Goes(m, script, cycle, at, Jump(1), end);
      Chain(cycle, st, c + cb, p, 1, end);
    case Fault(e, w, cb) => ChainStop(cycle, st, c, mid, cb, Failed(e, w.trace));
  }

  /** Having reached `mid`, a literal. */
  lemma LiteralAt(m: Machine, script: Script, cycle: State -> Outcome, st: State, c: nat, mid: State, op: OpCode, v: Value)
    requires IsVm(m, script, cycle)
    requires Spends(cycle, st, c, mid) && mid == st.(pc := mid.pc, w := mid.w) && st.pc <= mid.pc
    requires At(script, mid.pc, [op]) && v.Bool? && op == LoadBool(v.b)
    requires |st.stack| < m.limits.maxStackDepth
    ensures Computes(cycle, st, Val(v, mid.w, c + 1), mid.pc + 1 - st.pc)
  {
    var at := mid;
    Goes(m, script, cycle, at, op, Pushed(at, v, at.w, 1));
    Chain(cycle, st, c, mid, 1, Pushed(at, v, at.w, 1));
  }

  // ---------- Operations ----------

  /** The machine performs an operation on the operands above `st.stack` just as the language does. */
  lemma OperationStep(m: Machine, script: Script, op: Operation, vs: seq<Value>, pool: seq<Constant>, st: State, at: State)
    requires |vs| == Arity(m.host, op)
    requires GenOperation(m.host, op, pool).Some? && GenOperation(m.host, op, pool).value.1 <= script.constants
    requires at == st.(pc := at.pc, stack := st.stack + vs, w := at.w)
    ensures var (answer, w') := Perform(m, op, vs, at.w);
      Step(m, script, GenOperation(m.host, op, pool).value.0, at) == PushResult(m, answer, st.(pc := at.pc, w := w'))
  {
    assert at.stack[|at.stack| - |vs|..] == vs && at.stack[..|at.stack| - |vs|] == st.stack;
  }

  lemma OperationCorrect(m: Machine, script: Script, cycle: State -> Outcome, op: Operation, r: ArgsEval,
                         pool: seq<Constant>, ca: seq<OpCode>, st: State)
    requires IsVm(m, script, cycle)
    requires GenOperation(m.host, op, pool).Some? && GenOperation(m.host, op, pool).value.1 <= script.constants
    requires At(script, st.pc, ca + [GenOperation(m.host, op, pool).value.0])
    requires r.Vals? ==> |r.vs| == Arity(m.host, op)
    requires ComputesArgs(cycle, st, r, |ca|)
    ensures Computes(cycle, st, Applied(m, op, r, |st.stack|), |ca| + 1)
  {
    hide Step, Perform, GenOperation, At, Spends, Stops;
    var opcode := GenOperation(m.host, op, pool).value.0;
    Split(script, st.pc, ca, [opcode]);
    if r.Vals? {
      var ready := st.(pc := st.pc + |ca|, stack := st.stack + r.vs, w := r.w);
      var (answer, w') := Perform(m, op, r.vs, r.w);
      OperationStep(m, script, op, r.vs, pool, st, ready.(pc := ready.pc + 1));
      if answer.Ok? && |st.stack| < m.limits.maxStackDepth {
        Goes(m, script, cycle, ready, opcode, Pushed(st, answer.value, w', |ca| + 1));
        Chain(cycle, st, r.cost, ready, 1, Pushed(st, answer.value, w', |ca| + 1));
      } else {
        var final := Failed(if answer.Ok? then StackOverflow else answer.error, w'.trace);
        Halts(m, script, cycle, ready, opcode, final);
        ChainStop(cycle, st, r.cost, ready, 1, final);
      }
    }
  }

  // ---------- Short-circuit operators ----------

  lemma SplitLogical(script: Script, pc: nat, ca: seq<OpCode>, test: seq<OpCode>, cb: seq<OpCode>, lit: OpCode)
    requires At(script, pc, ca + test + cb + [Jump(1), lit])
    ensures At(script, pc, ca) && At(script, pc + |ca|, test) && At(script, pc + |ca| + |test|, cb)
    ensures At(script, pc + |ca| + |test| + |cb|, [Jump(1)]) && At(script, pc + |ca| + |test| + |cb| + 1, [lit])
  {
    Split(script, pc, ca + test + cb, [Jump(1), lit]);
    Split3(script, pc, ca, test, cb);
    assert [Jump(1), lit] == [Jump(1)] + [lit];
    Split(script, pc + |ca| + |test| + |cb|, [Jump(1)], [lit]);
  }

  /** The test of a short-circuit operator leads to the right operand, or past it. */
  lemma ShortCircuitTested(m: Machine, script: Script, cycle: State -> Outcome, st: State, isAnd: bool, a: Eval, la: nat, lb: nat)
    requires IsVm(m, script, cycle)
    requires a.Val? && Computes(cycle, st, a, la) && |st.stack| < m.limits.maxStackDepth
    requires At(script, st.pc + la, ShortCircuitTest(isAnd, lb))
    requires st.pc + la + |ShortCircuitTest(isAnd, lb)| + lb + 1 <= |script.code|
    ensures var n := |ShortCircuitTest(isAnd, lb)|;
      Spends(cycle, st, a.cost + n, st.(pc := st.pc + la + n + (if Truthy(a.v) == isAnd then 0 else lb + 1), w := a.w))
  {
    if isAnd {
      Tested(m, script, cycle, st, a, la, lb + 1);
    } else {
      Split(script, st.pc + la, [NotOp], [JumpIfFalse(lb + 1)]);
      var at := Pushed(st, a.v, a.w, la);
      assert at.stack[..|at.stack| - 1] == st.stack;
      var v := Bool(!Truthy(a.v));
      Goes(m, script, cycle, at, NotOp, Pushed(st, v, a.w, la + 1));
      Chain(cycle, st, a.cost, at, 1, Pushed(st, v, a.w, la + 1));
      Tested(m, script, cycle, st, Val(v, a.w, a.cost + 1), la + 1, lb + 1);
    }
  }

  lemma ShortCircuitShape(m: Machine, script: Script, cycle: State -> Outcome, st: State, isAnd: bool,
                          ca: seq<OpCode>, a: Eval, cb: seq<OpCode>, b: Eval)
    requires IsVm(m, script, cycle)
    requires At(script, st.pc, ca + ShortCircuitTest(isAnd, |cb|) + cb + [Jump(1), LoadBool(!isAnd)])
    requires a.Val? && Computes(cycle, st, a, |ca|) && |st.stack| < m.limits.maxStackDepth
    requires var n := if isAnd then 1 else 2;
      Truthy(a.v) == isAnd ==> Computes(cycle, st.(pc := st.pc + |ca| + n, w := a.w), b, |cb|)
    ensures var n := if isAnd then 1 else 2;
      Computes(cycle, st,
        if Truthy(a.v) != isAnd then Val(Bool(!isAnd), a.w, a.cost + n + 1)
        else Surcharged(b, a.cost + n), |ca| + n + |cb| + 2)
  {
    hide At, IsVm, Spends, Stops, Step;
    var n := if isAnd then 1 else 2;
    SplitLogical(script, st.pc, ca, ShortCircuitTest(isAnd, |cb|), cb, LoadBool(!isAnd));
    ShortCircuitTested(m, script, cycle, st, isAnd, a, |ca|, |cb|);
    if Truthy(a.v) == isAnd {
      OperandThenJump(m, script, cycle, st, a.cost + n, st.(pc := st.pc + |ca| + n, w := a.w), b, |cb|);
    } else {
      LiteralAt(m, script, cycle, st, a.cost + n, st.(pc := st.pc + |ca| + n + |cb| + 1, w := a.w),
                LoadBool(!isAnd), Bool(!isAnd));
    }
  }

  // ---------- Induction over expressions ----------

  ghost predicate ExprReady(m: Machine, script: Script, cycle: State -> Outcome, e: Expr,
                            locals: seq<Local>, pool: seq<Constant>, env: Env, st: State)
  {
    var g := GenExpr(m.host, e, locals, pool);
    IsVm(m, script, cycle) && Agrees(locals, env, st.locals) &&
    g.Some? && g.value.pool <= script.constants && At(script, st.pc, g.value.code)
  }

  ghost predicate ExprDone(m: Machine, cycle: State -> Outcome, e: Expr, locals: seq<Local>, pool: seq<Constant>,
                           env: Env, st: State)
    requires GenExpr(m.host, e, locals, pool).Some?
  {
    Computes(cycle, st, EvalExpr(m, e, env, |st.stack|, st.w), |GenExpr(m.host, e, locals, pool).value.code|)
  }

  /** Compiled expressions compute their meaning, and take exactly its price. */
  lemma {:induction false} ExprCorrect(m: Machine, script: Script, cycle: State -> Outcome, e: Expr,
                                       locals: seq<Local>, pool: seq<Constant>, env: Env, st: State)
    requires ExprReady(m, script, cycle, e, locals, pool, env, st)
    ensures ExprDone(m, cycle, e, locals, pool, env, st)
    decreases e, 1
  {
    match e
    case ShortCircuit(isAnd, l, r) => ShortCircuitCorrect(m, script, cycle, isAnd, l, r, locals, pool, env, st);
    case Operate(op, operands) => OperateCorrect(m, script, cycle, op, operands, locals, pool, env, st);
    case Literal(v) =>
      LeafCorrect(m, script, cycle, st, GenExpr(m.host, e, locals, pool).value.code[0], v);
    case Ident(x) =>
      ResolveIsFind(locals, env, x);
      LeafCorrect(m, script, cycle, st, GetLocal(locals[Find(env, x)].slot), env[Find(env, x)].value);
  }

  lemma ShortCircuitGen(h: Host, isAnd: bool, l: Expr, r: Expr, locals: seq<Local>, pool: seq<Constant>)
    requires GenExpr(h, ShortCircuit(isAnd, l, r), locals, pool).Some?
    ensures var a := GenExpr(h, l, locals, pool);
      a.Some? &&
      var b := GenExpr(h, r, locals, a.value.pool);
      b.Some? && GenExpr(h, ShortCircuit(isAnd, l, r), locals, pool) ==
        Some(Gen(a.value.code + ShortCircuitTest(isAnd, |b.value.code|) + b.value.code + [Jump(1), LoadBool(!isAnd)], b.value.pool))
  {
  }

  lemma ShortCircuitParts(m: Machine, script: Script, cycle: State -> Outcome, isAnd: bool, l: Expr, r: Expr,
                          locals: seq<Local>, pool: seq<Constant>, env: Env, st: State) returns (ga: Gen, gb: Gen)
    requires ExprReady(m, script, cycle, ShortCircuit(isAnd, l, r), locals, pool, env, st)
    ensures GenExpr(m.host, l, locals, pool) == Some(ga) && GenExpr(m.host, r, locals, ga.pool) == Some(gb)
    ensures At(script, st.pc, ga.code + ShortCircuitTest(isAnd, |gb.code|) + gb.code + [Jump(1), LoadBool(!isAnd)])
    ensures GenExpr(m.host, ShortCircuit(isAnd, l, r), locals, pool) ==
      Some(Gen(ga.code + ShortCircuitTest(isAnd, |gb.code|) + gb.code + [Jump(1), LoadBool(!isAnd)], gb.pool))
    ensures ExprReady(m, script, cycle, l, locals, pool, env, st)
    ensures ExprReady(m, script, cycle, r, locals, ga.pool, env, st.(pc := st.pc + |ga.code| + (if isAnd then 1 else 2)))
  {
    hide GenExpr, At, IsVm, Agrees;
    ShortCircuitGen(m.host, isAnd, l, r, locals, pool);
    ga := GenExpr(m.host, l, locals, pool).value;
    gb := GenExpr(m.host, r, locals, ga.pool).value;
    SplitLogical(script, st.pc, ga.code, ShortCircuitTest(isAnd, |gb.code|), gb.code, LoadBool(!isAnd));
  }

  lemma {:induction false} ShortCircuitCorrect(
      m: Machine, script: Script, cycle: State -> Outcome, isAnd: bool, l: Expr, r: Expr,
      locals: seq<Local>, pool: seq<Constant>, env: Env, st: State)
    requires ExprReady(m, script, cycle, ShortCircuit(isAnd, l, r), locals, pool, env, st)
    ensures ExprDone(m, cycle, ShortCircuit(isAnd, l, r), locals, pool, env, st)
    decreases ShortCircuit(isAnd, l, r), 0
  {
    hide GenExpr, At, IsVm, Agrees, Spends, Stops, ShortCircuitTest;
    var ga, gb := ShortCircuitParts(m, script, cycle, isAnd, l, r, locals, pool, env, st);
    ExprCorrect(m, script, cycle, l, locals, pool, env, st);
    var a := EvalExpr(m, l, env, |st.stack|, st.w);
    if a.Val? {
      var right := st.(pc := st.pc + |ga.code| + (if isAnd then 1 else 2), w := a.w);
      if Truthy(a.v) == isAnd {
        ExprCorrect(m, script, cycle, r, locals, ga.pool, env, right);
      }
      ShortCircuitShape(m, script, cycle, st, isAnd, ga.code, a, gb.code, EvalExpr(m, r, env, |st.stack|, a.w));
    }
  }

  lemma {:induction false} OperateCorrect(
      m: Machine, script: Script, cycle: State -> Outcome, op: Operation, operands: Args,
      locals: seq<Local>, pool: seq<Constant>, env: Env, st: State)
    requires ExprReady(m, script, cycle, Operate(op, operands), locals, pool, env, st)
    ensures ExprDone(m, cycle, Operate(op, operands), locals, pool, env, st)
    decreases Operate(op, operands), 0
  {
    var pool' := GenOperation(m.host, op, pool).value.1;
    var ca := GenArgs(m.host, operands, locals, pool').value.code;
    Split(script, st.pc, ca, [GenOperation(m.host, op, pool).value.0]);
    ArgsCorrect(m, script, cycle, operands, locals, pool', env, st);
    OperationCorrect(m, script, cycle, op, EvalArgs(m, operands, env, |st.stack|, st.w), pool, ca, st);
  }

  lemma {:induction false} ArgsCorrect(m: Machine, script: Script, cycle: State -> Outcome, args: Args,
                                       locals: seq<Local>, pool: seq<Constant>, env: Env, st: State)
    requires IsVm(m, script, cycle) && Agrees(locals, env, st.locals)
    requires GenArgs(m.host, args, locals, pool).Some?
    requires GenArgs(m.host, args, locals, pool).value.pool <= script.constants
    requires At(script, st.pc, GenArgs(m.host, args, locals, pool).value.code)
    ensures ComputesArgs(cycle, st, EvalArgs(m, args, env, |st.stack|, st.w),
                         |GenArgs(m.host, args, locals, pool).value.code|)
    decreases args, 0
  {
    hide GenExpr, EvalExpr, At, IsVm, Agrees, Step;
    match args
    case NoArgs => assert st.stack + [] == st.stack;
    case Arg(e, rest) =>
      var ga := GenExpr(m.host, e, locals, pool).value;
      var gb := GenArgs(m.host, rest, locals, ga.pool).value;
      Split(script, st.pc, ga.code, gb.code);
      ExprCorrect(m, script, cycle, e, locals, pool, env, st);
      var a := EvalExpr(m, e, env, |st.stack|, st.w);
      if a.Val? {
        var mid := Pushed(st, a.v, a.w, |ga.code|);
        ArgsCorrect(m, script, cycle, rest, locals, ga.pool, env, mid);
        ArgsShape(cycle, st, a, |ga.code|, EvalArgs(m, rest, env, |st.stack| + 1, a.w), |gb.code|);
      }
  }

  lemma ArgsShape(cycle: State -> Outcome, st: State, a: Eval, la: nat, b: ArgsEval, lb: nat)
    requires a.Val? && Computes(cycle, st, a, la)
    requires ComputesArgs(cycle, Pushed(st, a.v, a.w, la), b, lb)
    ensures ComputesArgs(cycle, st,
      if b.ArgsErr? then ArgsErr(b.error, b.w, a.cost + b.cost) else Vals([a.v] + b.vs, b.w, a.cost + b.cost), la + lb)
  {
    var mid := Pushed(st, a.v, a.w, la);
    match b
    case Vals(vs, w, c) =>
      assert st.stack + [a.v] + vs == st.stack + ([a.v] + vs);
      Chain(cycle, st, a.cost, mid, c, mid.(pc := mid.pc + lb, stack := mid.stack + vs, w := w));
    case ArgsErr(e, w, c) => ChainStop(cycle, st, a.cost, mid, c, Failed(e, w.trace));
  }
}
