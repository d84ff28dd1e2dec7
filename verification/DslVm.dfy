// The stack machine that runs compiled scripts (vm.rs).

module DslVm {
  import opened Common
  import opened DslSyntax

  datatype State = State(
    pc: nat, stack: seq<Value>, locals: seq<Value>, loops: seq<nat>, w: World)

  datatype Outcome = Go(st: State) | Halt(final: Final)

  function Fail(e: RuntimeError, st: State): Outcome { Halt(Failed(e, st.w.trace)) }

  function Push(m: Machine, v: Value, st: State): Outcome {
    if |st.stack| >= m.limits.maxStackDepth then Fail(StackOverflow, st) else Go(st.(stack := st.stack + [v]))
  }

  function PushResult(m: Machine, r: Result<Value, RuntimeError>, st: State): Outcome {
    match r case Ok(v) => Push(m, v, st) case Err(e) => Fail(e, st)
  }

  function Drop(st: State, n: nat): State
    requires n <= |st.stack|
  {
    st.(stack := st.stack[..|st.stack| - n])
  }

  function Goto(script: Script, st: State, offset: int): Outcome {
    var target := st.pc + offset;
    if target < 0 || target > |script.code| then Fail(Internal, st) else Go(st.(pc := target))
  }

  /** Operands an instruction pops. */
  function Pops(m: Machine, op: OpCode): nat {
    match op
    case Pop | SetLocal(_) | NegOp | NotOp | Matches(_) | JumpIfFalse(_) | ListLen => 1
    case Arith(_) | TestString(_) | ListGet | ReturnDenyOp => 2
    case CallBuiltin(id, _) => m.host.arity(id)
    case _ => 0
  }

  /** One instruction, already fetched and paid for; `st.pc` points past it. */
  function Step(m: Machine, script: Script, op: OpCode, st: State): Outcome {
    var n := |st.stack|;
    if op.CallBuiltin? && st.w.calls == 0 then Fail(CallLimitExceeded, st)
    else if Pops(m, op) > n then Fail(Internal, st)
    else
      match op
      case LoadConst(i) =>
        if i < |script.constants| then Push(m, ConstantValue(script.constants[i]), st) else Fail(Internal, st)
      case LoadNil => Push(m, Nil, st)
      case LoadTrue => Push(m, Bool(true), st)
      case LoadFalse => Push(m, Bool(false), st)
      case Pop => Go(Drop(st, 1))
      case GetLocal(i) => Push(m, if i < |st.locals| then st.locals[i] else Nil, st)
      case SetLocal(i) =>
        if i < |st.locals| then Go(Drop(st, 1).(locals := st.locals[i := st.stack[n - 1]])) else Fail(Internal, Drop(st, 1))
      case Arith(b) => PushResult(m, m.host.binary(b, st.stack[n - 2], st.stack[n - 1]), Drop(st, 2))
      case NegOp => PushResult(m, UnaryResult(m, Neg, st.stack[n - 1]), Drop(st, 1))
      case NotOp => PushResult(m, UnaryResult(m, Not, st.stack[n - 1]), Drop(st, 1))
      case TestString(t) => Push(m, StringTestResult(m, t, st.stack[n - 2], st.stack[n - 1]), Drop(st, 2))
      case Matches(i) =>
        var hit := if i < |script.constants| && script.constants[i].RegexConst?
                   then RegexTest(m, script.constants[i].pattern, st.stack[n - 1]) else Bool(false);
        Push(m, hit, Drop(st, 1))
      case Jump(offset) => Goto(script, st, offset)
      case JumpIfFalse(offset) =>
        if Truthy(st.stack[n - 1]) then Go(Drop(st, 1)) else Goto(script, Drop(st, 1), offset)
      case LoopInit => Go(st.(loops := st.loops + [0]))
      case LoopBack(offset) =>
        if st.loops == [] then Fail(Internal, st)
        else
          var rounds := st.loops[|st.loops| - 1] + 1;
          if rounds > m.limits.maxLoopIterations then Fail(LoopLimitExceeded, st)
          else Goto(script, st.(loops := st.loops[|st.loops| - 1 := rounds]), offset)
      case LoopEnd => Go(if st.loops == [] then st else st.(loops := st.loops[..|st.loops| - 1]))
      case ListLen => Push(m, Length(st.stack[n - 1]), Drop(st, 1))
      case ListGet => Push(m, Item(st.stack[n - 2], st.stack[n - 1]), Drop(st, 2))
      case CallBuiltin(id, _) =>
        var (answer, w') := PerformCall(m, Call(id, st.stack[n - Pops(m, op)..]), st.w);
        PushResult(m, answer, Drop(st, Pops(m, op)).(w := w'))
      case ReturnNextOp => Halt(Finished(GoodNext, st.w.trace))
      case ReturnDenyOp => Halt(Finished(DenyVerdict(m, st.stack[n - 2], st.stack[n - 1]), st.w.trace))
  }

  /** One round of the dispatch loop; reaching the end of the code lets the request through. */
  function Cycle(m: Machine, script: Script, st: State): Outcome {
    if st.pc >= |script.code| then Halt(Finished(GoodNext, st.w.trace))
    else Step(m, script, script.code[st.pc], st.(pc := st.pc + 1))
  }

  function Cycles(m: Machine, script: Script): State -> Outcome { st => Cycle(m, script, st) }

  /** Repeats `cycle` until it halts; each round costs one of the `steps` allowed. */
  function Run(cycle: State -> Outcome, st: State, steps: nat): Final
    decreases steps
  {
    if steps == 0 then Failed(StepLimitExceeded, st.w.trace)
    else
      match cycle(st)
      case Go(next) => Run(cycle, next, steps - 1)
      case Halt(final) => final
  }

  function Start(m: Machine, script: Script): State {
    State(0, [], seq(script.localCount, _ => Nil), [], World(m.limits.maxCallCount, []))
  }

  lemma OutOfSteps(m: Machine, script: Script, st: State)
    ensures Run(Cycles(m, script), st, 0) == Failed(StepLimitExceeded, st.w.trace)
  {
  }

  lemma RunStep(m: Machine, script: Script, st: State, steps: nat)
    requires steps > 0
    ensures Run(Cycles(m, script), st, steps) ==
      match Cycle(m, script, st) case Go(next) => Run(Cycles(m, script), next, steps - 1) case Halt(final) => final
  {
    hide Cycle;
  }

  /** `Vm::execute`: the fetch-and-dispatch loop, for any script whatever. */
  method Execute(m: Machine, script: Script) returns (final: Final)
    ensures final == Run(Cycles(m, script), Start(m, script), m.limits.maxSteps)
  {
    hide Cycle, Run, Start;
    var st := Start(m, script);
    var budget := m.limits.maxSteps;
    while true
      invariant Run(Cycles(m, script), st, budget) == Run(Cycles(m, script), Start(m, script), m.limits.maxSteps)
      decreases budget
    {
      if budget == 0 {
        OutOfSteps(m, script, st);
        return Failed(StepLimitExceeded, st.w.trace);
      }
      RunStep(m, script, st, budget);
      budget := budget - 1;
      var outcome := Cycle(m, script, st);
      if outcome.Halt? {
        return outcome.final;
      }
      st := outcome.st;
    }
  }
}
