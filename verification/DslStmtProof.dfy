// Compiled statements, loops and whole scripts do what the language says.

module DslStmtProof {
  import opened Common
  import opened DslSyntax
  import opened DslSemantics
  import opened DslCompiler
  import opened DslVm
  import opened DslExprProof

  // ---------- Scopes ----------

  /** No two variables in scope share a slot, and all slots lie below `next`. */
  ghost predicate WellScoped(locals: seq<Local>, next: nat) {
    (forall i :: 0 <= i < |locals| ==> locals[i].slot < next) &&
    (forall i, j :: 0 <= i < j < |locals| ==> locals[i].slot < locals[j].slot)
  }

  lemma Declared(locals: seq<Local>, next: nat, env: Env, slots: seq<Value>, name: string, mutable: bool, v: Value)
    requires WellScoped(locals, next) && Agrees(locals, env, slots) && next < |slots|
    ensures WellScoped(locals + [Local(name, next, mutable)], next + 1)
    ensures Agrees(locals + [Local(name, next, mutable)], env + [Binding(name, v)], slots[next := v])
  {
  }

  lemma Assigned(locals: seq<Local>, next: nat, env: Env, slots: seq<Value>, i: nat, v: Value)
    requires WellScoped(locals, next) && Agrees(locals, env, slots) && i < |env|
    ensures Agrees(locals, env[i := Binding(env[i].name, v)], slots[locals[i].slot := v])
  {
  }

  lemma ScopeKept(h: Host, s: Stmt, locals: seq<Local>, pool: seq<Constant>, next: nat)
    requires WellScoped(locals, next) && GenStmt(h, s, locals, pool, next).Some?
    ensures var g := GenStmt(h, s, locals, pool, next).value; WellScoped(g.locals, g.next)
  {
  }

  // ---------- What it means for code to perform a statement ----------

  /** From `st` the machine follows `x`: on to `pc` with the variables in `slots`, or to its verdict or error. */
  ghost predicate Leads(cycle: State -> Outcome, st: State, x: Exec, pc: nat, loops: seq<nat>,
                        locals: seq<Local>, slots: seq<Value>)
  {
    match x
    case Norm(env, w, c) =>
      |slots| == |st.locals| && Agrees(locals, env, slots) && Spends(cycle, st, c, State(pc, st.stack, slots, loops, w))
    case Ret(v, w, c) => Stops(cycle, st, c, Finished(v, w.trace))
    case Abort(e, w, c) => Stops(cycle, st, c, Failed(e, w.trace))
  }

  lemma Prefix(cycle: State -> Outcome, st: State, c: nat, mid: State, x: Exec, pc: nat, loops: seq<nat>,
               locals: seq<Local>, slots: seq<Value>)
    requires Spends(cycle, st, c, mid) && mid.stack == st.stack && |mid.locals| == |st.locals|
    requires Leads(cycle, mid, x, pc, loops, locals, slots)
    ensures Leads(cycle, st, AddCost(x, c), pc, loops, locals, slots)
  {
    match x
    case Norm(env, w, d) => Chain(cycle, st, c, mid, d, State(pc, st.stack, slots, loops, w));
    case Ret(v, w, d) => ChainStop(cycle, st, c, mid, d, Finished(v, w.trace));
    case Abort(e, w, d) => ChainStop(cycle, st, c, mid, d, Failed(e, w.trace));
  }

  /** Leaving a scope forgets variables and moves no code. */
  lemma Left(cycle: State -> Outcome, st: State, x: Exec, pc: nat, loops: seq<nat>,
             inner: seq<Local>, outer: seq<Local>, slots: seq<Value>)
    requires Leads(cycle, st, x, pc, loops, inner, slots) && outer <= inner
    ensures Leads(cycle, st, Leave(x, |outer|), pc, loops, outer, slots)
  {
  }

  /** An expression whose value goes to a slot. */
  lemma Stored(m: Machine, script: Script, cycle: State -> Outcome, st: State, r: Eval, len: nat, slot: nat)
    requires IsVm(m, script, cycle) && r.Val? && Computes(cycle, st, r, len)
    requires At(script, st.pc + len, [SetLocal(slot)]) && slot < |st.locals|
    ensures Spends(cycle, st, r.cost + 1, st.(pc := st.pc + len + 1, locals := st.locals[slot := r.v], w := r.w))
  {
    var p := Pushed(st, r.v, r.w, len);
    assert p.stack[..|p.stack| - 1] == st.stack;
    var q := st.(pc := st.pc + len + 1, locals := st.locals[slot := r.v], w := r.w);
    Goes(m, script, cycle, p, SetLocal(slot), q);
    Chain(cycle, st, r.cost, p, 1, q);
  }

  // ---------- Branches ----------

  lemma JumpAt(m: Machine, script: Script, cycle: State -> Outcome, st: State, n: nat)
    requires IsVm(m, script, cycle) && At(script, st.pc, [Jump(n)]) && st.pc + 1 + n <= |script.code|
    ensures Spends(cycle, st, 1, st.(pc := st.pc + 1 + n))
  {
    Goes(m, script, cycle, st, Jump(n), st.(pc := st.pc + 1 + n));
  }

  /** Nothing happens in no time. */
  lemma Idle(cycle: State -> Outcome, st: State)
    ensures Spends(cycle, st, 0, st)
  {
  }

  lemma AtEnd(script: Script, pc: nat, code: seq<OpCode>)
    requires At(script, pc, code)
    ensures pc + |code| <= |script.code|
  {
  }

  lemma BranchLength(ca: seq<OpCode>, cb: seq<OpCode>, cr: seq<OpCode>, last: bool)
    ensures |BranchCode(ca, cb, cr, last)| == |ca| + 1 + |cb| + (if last then 0 else 1) + |cr|
  {
  }

  lemma SplitBranch(script: Script, pc: nat, ca: seq<OpCode>, cb: seq<OpCode>, cr: seq<OpCode>, last: bool)
    requires At(script, pc, BranchCode(ca, cb, cr, last))
    ensures var skip := if last then 0 else 1;
      At(script, pc, ca) && At(script, pc + |ca|, [JumpIfFalse(|cb| + skip)]) && At(script, pc + |ca| + 1, cb) &&
      (!last ==> At(script, pc + |ca| + 1 + |cb|, [Jump(|cr|)])) && At(script, pc + |ca| + 1 + |cb| + skip, cr)
  {
    hide At;
    if last {
      Split(script, pc, ca + [JumpIfFalse(|cb|)] + cb, cr);
      Split3(script, pc, ca, [JumpIfFalse(|cb|)], cb);
    } else {
      Split3(script, pc, ca + [JumpIfFalse(|cb| + 1)] + cb, [Jump(|cr|)], cr);
      Split3(script, pc, ca, [JumpIfFalse(|cb| + 1)], cb);
    }
  }

  /** A condition, the body it guards and the branches that follow. */
  lemma BranchShape(m: Machine, script: Script, cycle: State -> Outcome, st: State, ca: seq<OpCode>, a: Eval,
                    cb: seq<OpCode>, x: Exec, cr: seq<OpCode>, y: Exec, last: bool, locals: seq<Local>, slots: seq<Value>)
    requires IsVm(m, script, cycle) && At(script, st.pc, BranchCode(ca, cb, cr, last)) && (last ==> cr == [])
    requires a.Val? && Computes(cycle, st, a, |ca|)
    requires var body := st.pc + |ca| + 1;
      if Truthy(a.v) then Leads(cycle, st.(pc := body, w := a.w), x, body + |cb|, st.loops, locals, slots)
      else Leads(cycle, st.(pc := body + |cb| + (if last then 0 else 1), w := a.w), y,
                 st.pc + |BranchCode(ca, cb, cr, last)|, st.loops, locals, slots)
    ensures Leads(cycle, st,
      if Truthy(a.v) then AddCost(x, a.cost + 1 + if x.Norm? && !last then 1 else 0) else AddCost(y, a.cost + 1),
      st.pc + |BranchCode(ca, cb, cr, last)|, st.loops, locals, slots)
  {
    hide At, IsVm, Spends, Stops, Step, BranchCode;
    SplitBranch(script, st.pc, ca, cb, cr, last);
    BranchLength(ca, cb, cr, last);
    AtEnd(script, st.pc, BranchCode(ca, cb, cr, last));
    var skip := if last then 0 else 1;
    var body := st.pc + |ca| + 1;
    var end := st.pc + |BranchCode(ca, cb, cr, last)|;
    Tested(m, script, cycle, st, a, |ca|, |cb| + skip);
    if Truthy(a.v) {
      var mid := st.(pc := body, w := a.w);
      Prefix(cycle, st, a.cost + 1, mid, x, body + |cb|, st.loops, locals, slots);
      if x.Norm? && !last {
        var at := State(body + |cb|, st.stack, slots, st.loops, x.w);
        JumpAt(m, script, cycle, at, |cr|);
        Chain(cycle, st, a.cost + 1 + x.cost, at, 1, at.(pc := end));
      }
    } else {
      Prefix(cycle, st, a.cost + 1, st.(pc := body + |cb| + skip, w := a.w), y, end, st.loops, locals, slots);
    }
  }

  // ---------- Loops ----------

  /** `LoopBack` at `at` starts another round at `start`, unless the loop has had its last. */
  lemma BackToStart(m: Machine, script: Script, cycle: State -> Outcome, st: State, c: nat, at: State,
                    start: nat, loops: seq<nat>, rounds: nat)
    requires IsVm(m, script, cycle) && Spends(cycle, st, c, at) && start <= |script.code|
    requires At(script, at.pc, [LoopBack(start - (at.pc + 1))]) && at.loops == loops + [rounds]
    ensures rounds < m.limits.maxLoopIterations ==>
      Spends(cycle, st, c + 1, at.(pc := start, loops := loops + [rounds + 1]))
    ensures rounds >= m.limits.maxLoopIterations ==> Stops(cycle, st, c + 1, Failed(LoopLimitExceeded, at.w.trace))
  {
    var op := LoopBack(start - (at.pc + 1));
    if rounds < m.limits.maxLoopIterations {
      var next := at.(pc := start, loops := loops + [rounds + 1]);
      assert at.loops[|at.loops| - 1 := rounds + 1] == next.loops;
      Goes(m, script, cycle, at, op, next);
      Chain(cycle, st, c, at, 1, next);
    } else {
      Halts(m, script, cycle, at, op, Failed(LoopLimitExceeded, at.w.trace));
      ChainStop(cycle, st, c, at, 1, Failed(LoopLimitExceeded, at.w.trace));
    }
  }

  /** `LoopInit` opens a loop. */
  lemma OpenLoop(m: Machine, script: Script, cycle: State -> Outcome, st: State)
    requires IsVm(m, script, cycle) && At(script, st.pc, [LoopInit])
    ensures Spends(cycle, st, 1, st.(pc := st.pc + 1, loops := st.loops + [0]))
  {
    Goes(m, script, cycle, st, LoopInit, st.(pc := st.pc + 1, loops := st.loops + [0]));
  }

  /** `LoopEnd` at `at` closes the loop. */
  lemma CloseLoop(m: Machine, script: Script, cycle: State -> Outcome, st: State, c: nat, at: State,
                  loops: seq<nat>, rounds: nat)
    requires IsVm(m, script, cycle) && Spends(cycle, st, c, at)
    requires At(script, at.pc, [LoopEnd]) && at.loops == loops + [rounds]
    ensures Spends(cycle, st, c + 1, at.(pc := at.pc + 1, loops := loops))
  {
    assert at.loops[..|at.loops| - 1] == loops;
    Goes(m, script, cycle, at, LoopEnd, at.(pc := at.pc + 1, loops := loops));
    Chain(cycle, st, c, at, 1, at.(pc := at.pc + 1, loops := loops));
  }

  lemma SplitWhile(script: Script, pc: nat, ca: seq<OpCode>, cb: seq<OpCode>)
    requires At(script, pc, WhileCode(ca, cb))
    ensures var test := pc + 1 + |ca|; var back := test + 1 + |cb|;
      At(script, pc, [LoopInit]) && At(script, pc + 1, ca) && At(script, test, [JumpIfFalse(|cb| + 1)]) &&
      At(script, test + 1, cb) && At(script, back, [LoopBack(pc + 1 - (back + 1))]) && At(script, back + 1, [LoopEnd])
  {
    var back := LoopBack(-(|ca| + |cb| + 2));
    assert WhileCode(ca, cb) == [LoopInit] + ca + [JumpIfFalse(|cb| + 1)] + (cb + [back] + [LoopEnd]);
    Split(script, pc, [LoopInit] + ca + [JumpIfFalse(|cb| + 1)], cb + [back] + [LoopEnd]);
    Split3(script, pc, [LoopInit], ca, [JumpIfFalse(|cb| + 1)]);
    Split3(script, pc + 2 + |ca|, cb, [back], [LoopEnd]);
  }

  /** Whether a pass with condition `a` and body `x` is followed by another. */
  predicate GoesRound(m: Machine, a: Eval, x: Exec, rounds: nat) {
    a.Val? && Truthy(a.v) && x.Norm? && rounds < m.limits.maxLoopIterations
  }

  /** One pass through a loop: its condition `a`, its body `x`, and all later passes `y`. */
  function Pass(m: Machine, a: Eval, x: Exec, y: Exec, env: Env, rounds: nat): Exec {
    match a
    case Fault(e, w, c) => Abort(e, w, c)
    case Val(v, w, c) =>
      if !Truthy(v) then Norm(env, w, c + 2)
      else if !x.Norm? then AddCost(x, c + 1)
      else if rounds >= m.limits.maxLoopIterations then Abort(LoopLimitExceeded, x.w, c + x.cost + 2)
      else AddCost(y, c + x.cost + 2)
  }

  /** The code of a loop performs one pass and then whatever the later passes do. */
  lemma WhileRound(m: Machine, script: Script, cycle: State -> Outcome, st: State, ca: seq<OpCode>, a: Eval,
                   cb: seq<OpCode>, x: Exec, y: Exec, env: Env, loops: seq<nat>, rounds: nat, locals: seq<Local>,
                   slots: seq<Value>, slots': seq<Value>)
    requires IsVm(m, script, cycle) && st.pc > 0 && At(script, st.pc - 1, WhileCode(ca, cb))
    requires st.loops == loops + [rounds] && Agrees(locals, env, st.locals)
    requires Computes(cycle, st, a, |ca|)
    requires var body := st.pc + |ca| + 1;
      a.Val? && Truthy(a.v) ==> Leads(cycle, st.(pc := body, w := a.w), x, body + |cb|, st.loops, locals, slots)
    requires GoesRound(m, a, x, rounds) ==>
      Leads(cycle, st.(locals := slots, loops := loops + [rounds + 1], w := x.w), y,
            st.pc + |ca| + |cb| + 3, loops, locals, slots')
    ensures Leads(cycle, st, Pass(m, a, x, y, env, rounds), st.pc + |ca| + |cb| + 3, loops, locals,
                  if a.Val? && Truthy(a.v) then slots' else st.locals)
  {
    hide Spends, Stops, IsVm, At, Step, WhileCode, Agrees;
    if a.Fault? {
      return;
    }
    SplitWhile(script, st.pc - 1, ca, cb);
    Tested(m, script, cycle, st, a, |ca|, |cb| + 1);
    var body := st.pc + |ca| + 1;
    var end := body + |cb| + 2;
    if !Truthy(a.v) {
      var exit := st.(pc := end - 1, w := a.w);
      CloseLoop(m, script, cycle, st, a.cost + 1, exit, loops, rounds);
    } else {
      var mid := st.(pc := body, w := a.w);
      Prefix(cycle, st, a.cost + 1, mid, x, body + |cb|, st.loops, locals, slots);
      if x.Norm? {
        var at := State(body + |cb|, st.stack, slots, st.loops, x.w);
        BackToStart(m, script, cycle, st, a.cost + 1 + x.cost, at, st.pc, loops, rounds);
        if rounds < m.limits.maxLoopIterations {
          Prefix(cycle, st, a.cost + x.cost + 2, at.(pc := st.pc, loops := loops + [rounds + 1]), y, end, loops, locals, slots');
        }
      }
    }
  }

  // ---------- Pieces of the counting loops ----------

  lemma SlotAt(m: Machine, script: Script, cycle: State -> Outcome, st: State, slot: nat)
    requires IsVm(m, script, cycle) && At(script, st.pc, [GetLocal(slot)]) && slot < |st.locals|
    ensures Computes(cycle, st, Leaf(m, st.locals[slot], |st.stack|, st.w), 1)
  {
    LeafCorrect(m, script, cycle, st, GetLocal(slot), st.locals[slot]);
  }

  lemma ConstantAt(m: Machine, script: Script, cycle: State -> Outcome, st: State, idx: nat, n: int)
    requires IsVm(m, script, cycle) && At(script, st.pc, [LoadConst(idx)])
    requires idx < |script.constants| && script.constants[idx] == IntConst(n)
    ensures Computes(cycle, st, Leaf(m, Int(n), |st.stack|, st.w), 1)
  {
    LeafCorrect(m, script, cycle, st, LoadConst(idx), Int(n));
  }

  function TwoOperands(m: Machine, bop: BinOp, u: Value, v: Value, n: nat, w: World): Eval {
    if m.limits.maxStackDepth < 2 then Fault(StackOverflow, w, 1 + m.limits.maxStackDepth)
    else Returned(m.host.binary(bop, u, v), w, n + 2)
  }

  /** Two operands on an empty stack, the second taking `n` instructions, and a binary operator. */
  lemma BinaryAt(m: Machine, script: Script, cycle: State -> Outcome, st: State, bop: BinOp, u: Value, v: Value, n: nat)
    requires IsVm(m, script, cycle) && st.stack == [] && At(script, st.pc + 1 + n, [Arith(bop)])
    requires Computes(cycle, st, Leaf(m, u, 0, st.w), 1)
    requires m.limits.maxStackDepth > 0 ==>
      Computes(cycle, Pushed(st, u, st.w, 1),
        if m.limits.maxStackDepth > 1 then Val(v, st.w, n) else Fault(StackOverflow, st.w, 1), n)
    ensures Computes(cycle, st, TwoOperands(m, bop, u, v, n, st.w), n + 2)
  {
    var p := Pushed(st, u, st.w, 1);
    if m.limits.maxStackDepth == 1 {
      ChainStop(cycle, st, 1, p, 1, Failed(StackOverflow, st.w.trace));
    } else if m.limits.maxStackDepth > 1 {
      var q := Pushed(p, v, st.w, n);
      Chain(cycle, st, 1, p, n, q);
      assert q.stack == [u, v] && q.stack[..0] == [];
      match m.host.binary(bop, u, v)
      case Ok(r) =>
        Goes(m, script, cycle, q, Arith(bop), Pushed(st, r, st.w, n + 2));
        Chain(cycle, st, 1 + n, q, 1, Pushed(st, r, st.w, n + 2));
      case Err(e) =>
        Halts(m, script, cycle, q, Arith(bop), Failed(e, st.w.trace));
        ChainStop(cycle, st, 1 + n, q, 1, Failed(e, st.w.trace));
    }
  }

  lemma RangeTestCorrect(m: Machine, script: Script, cycle: State -> Outcome, st: State, slot: nat)
    requires IsVm(m, script, cycle) && st.stack == [] && At(script, st.pc, RangeTest(slot)) && slot + 1 < |st.locals|
    ensures Computes(cycle, st, TwoOperands(m, Lt, st.locals[slot + 1], st.locals[slot], 1, st.w), 3)
  {
    assert RangeTest(slot) == [GetLocal(slot + 1)] + [GetLocal(slot)] + [Arith(Lt)];
    Split3(script, st.pc, [GetLocal(slot + 1)], [GetLocal(slot)], [Arith(Lt)]);
    SlotAt(m, script, cycle, st, slot + 1);
    if m.limits.maxStackDepth > 0 {
      SlotAt(m, script, cycle, Pushed(st, st.locals[slot + 1], st.w, 1), slot);
    }
    BinaryAt(m, script, cycle, st, Lt, st.locals[slot + 1], st.locals[slot], 1);
  }

  lemma LengthAt(m: Machine, script: Script, cycle: State -> Outcome, st: State, slot: nat)
    requires IsVm(m, script, cycle) && At(script, st.pc, [GetLocal(slot)]) && At(script, st.pc + 1, [ListLen])
    requires slot < |st.locals|
    ensures Computes(cycle, st,
      if |st.stack| < m.limits.maxStackDepth then Val(Length(st.locals[slot]), st.w, 2) else Fault(StackOverflow, st.w, 1), 2)
  {
    SlotAt(m, script, cycle, st, slot);
    if |st.stack| < m.limits.maxStackDepth {
      var p := Pushed(st, st.locals[slot], st.w, 1);
      assert p.stack[..|p.stack| - 1] == st.stack;
      var q := Pushed(st, Length(st.locals[slot]), st.w, 2);
      Goes(m, script, cycle, p, ListLen, q);
      Chain(cycle, st, 1, p, 1, q);
    }
  }

  lemma InTestCorrect(m: Machine, script: Script, cycle: State -> Outcome, st: State, slot: nat)
    requires IsVm(m, script, cycle) && st.stack == [] && At(script, st.pc, InTest(slot)) && slot + 1 < |st.locals|
    ensures Computes(cycle, st, TwoOperands(m, Lt, st.locals[slot + 1], Length(st.locals[slot]), 2, st.w), 4)
  {
    assert InTest(slot) == [GetLocal(slot + 1)] + [GetLocal(slot)] + ([ListLen] + [Arith(Lt)]);
    Split3(script, st.pc, [GetLocal(slot + 1)], [GetLocal(slot)], [ListLen] + [Arith(Lt)]);
    Split(script, st.pc + 2, [ListLen], [Arith(Lt)]);
    SlotAt(m, script, cycle, st, slot + 1);
    if m.limits.maxStackDepth > 0 {
      LengthAt(m, script, cycle, Pushed(st, st.locals[slot + 1], st.w, 1), slot);
    }
    BinaryAt(m, script, cycle, st, Lt, st.locals[slot + 1], Length(st.locals[slot]), 2);
  }

  lemma LoadItemCorrect(m: Machine, script: Script, cycle: State -> Outcome, st: State, slot: nat)
    requires IsVm(m, script, cycle) && st.stack == [] && m.limits.maxStackDepth >= 2
    requires At(script, st.pc, LoadItem(slot)) && slot + 2 < |st.locals|
    ensures var item := Item(st.locals[slot], st.locals[slot + 1]);
      Spends(cycle, st, 4, st.(pc := st.pc + 4, locals := st.locals[slot + 2 := item]))
  {
    var item := Item(st.locals[slot], st.locals[slot + 1]);
    assert LoadItem(slot) == [GetLocal(slot)] + [GetLocal(slot + 1)] + ([ListGet] + [SetLocal(slot + 2)]);
    Split3(script, st.pc, [GetLocal(slot)], [GetLocal(slot + 1)], [ListGet] + [SetLocal(slot + 2)]);
    Split(script, st.pc + 2, [ListGet], [SetLocal(slot + 2)]);
    var p := Pushed(st, st.locals[slot], st.w, 1);
    var q := Pushed(p, st.locals[slot + 1], st.w, 1);
    SlotAt(m, script, cycle, st, slot);
    SlotAt(m, script, cycle, p, slot + 1);
    Chain(cycle, st, 1, p, 1, q);
    assert q.stack == [st.locals[slot], st.locals[slot + 1]] && q.stack[..0] == [];
    Goes(m, script, cycle, q, ListGet, Pushed(st, item, st.w, 3));
    Chain(cycle, st, 2, q, 1, Pushed(st, item, st.w, 3));
    Stored(m, script, cycle, st, Val(item, st.w, 3), 3, slot + 2);
  }

  /** A finished body followed by one more for binding `at`. */
  function Counted(m: Machine, x: Exec, at: nat): Exec
    requires x.Norm? ==> at < |x.env|
  {
    match x
    case Norm(env, w, c) =>
      (match m.host.binary(Add, env[at].value, Int(1))
       case Ok(v) => Norm(env[at := Binding(env[at].name, v)], w, c + 4)
       case Err(e) => Abort(e, w, c + 3))
    case _ => x
  }

  lemma IncrementAt(m: Machine, script: Script, cycle: State -> Outcome, st: State, slot: nat, one: nat)
    requires IsVm(m, script, cycle) && st.stack == [] && m.limits.maxStackDepth >= 2
    requires At(script, st.pc, Increment(slot, one)) && slot < |st.locals|
    requires one < |script.constants| && script.constants[one] == IntConst(1)
    ensures match m.host.binary(Add, st.locals[slot], Int(1))
      case Ok(v) => Spends(cycle, st, 4, st.(pc := st.pc + 4, locals := st.locals[slot := v]))
      case Err(e) => Stops(cycle, st, 3, Failed(e, st.w.trace))
  {
    assert Increment(slot, one) == [GetLocal(slot)] + [LoadConst(one)] + ([Arith(Add)] + [SetLocal(slot)]);
    Split3(script, st.pc, [GetLocal(slot)], [LoadConst(one)], [Arith(Add)] + [SetLocal(slot)]);
    Split(script, st.pc + 2, [Arith(Add)], [SetLocal(slot)]);
    SlotAt(m, script, cycle, st, slot);
    var p := Pushed(st, st.locals[slot], st.w, 1);
    LeafCorrect(m, script, cycle, p, LoadConst(one), Int(1));
    BinaryAt(m, script, cycle, st, Add, st.locals[slot], Int(1), 1);
    var r := TwoOperands(m, Add, st.locals[slot], Int(1), 1, st.w);
    if r.Val? {
      Stored(m, script, cycle, st, r, 3, slot);
    }
  }

  /** A body that led to `pc`, and the increment found there. */
  lemma CountedCorrect(m: Machine, script: Script, cycle: State -> Outcome, st: State, x: Exec, pc: nat, one: nat,
                       at: nat, locals: seq<Local>, next: nat, slots: seq<Value>) returns (slots': seq<Value>)
    requires IsVm(m, script, cycle) && st.stack == [] && m.limits.maxStackDepth >= 2
    requires at < |locals| && WellScoped(locals, next)
    requires Leads(cycle, st, x, pc, st.loops, locals, slots)
    requires At(script, pc, Increment(locals[at].slot, one))
    requires one < |script.constants| && script.constants[one] == IntConst(1)
    ensures Leads(cycle, st, Counted(m, x, at), pc + 4, st.loops, locals, slots')
  {
    slots' := slots;
    if x.Norm? {
      var mid := State(pc, st.stack, slots, st.loops, x.w);
      var slot := locals[at].slot;
      IncrementAt(m, script, cycle, mid, slot, one);
      match m.host.binary(Add, slots[slot], Int(1))
      case Ok(v) =>
        Assigned(locals, next, x.env, slots, at, v);
        slots' := slots[slot := v];
        Chain(cycle, st, x.cost, mid, 4, mid.(pc := pc + 4, locals := slots'));
      case Err(e) => ChainStop(cycle, st, x.cost, mid, 3, Failed(e, x.w.trace));
    }
  }
}
