// Induction over statements: the compiler preserves meaning and price.

module DslScriptProof {
  import opened Common
  import opened DslSyntax
  import opened DslSemantics
  import opened DslCompiler
  import opened DslVm
  import opened DslExprProof
  import opened DslStmtProof
  import DslBackpatch

  /** Generated code `g` sits at `st`, which holds the variables of `env`. */
  ghost predicate Ready(m: Machine, script: Script, cycle: State -> Outcome, g: Option<StmtGen>,
                        locals: seq<Local>, next: nat, env: Env, st: State)
  {
    IsVm(m, script, cycle) && g.Some? && g.value.pool <= script.constants && At(script, st.pc, g.value.code) &&
    g.value.next <= |st.locals| && WellScoped(locals, next) && Agrees(locals, env, st.locals) && st.stack == []
  }

  ghost predicate Performs(cycle: State -> Outcome, g: Option<StmtGen>, st: State, x: Exec, slots: seq<Value>) {
    g.Some? && Leads(cycle, st, x, st.pc + |g.value.code|, st.loops, g.value.locals, slots)
  }

  // ---------- Statements without a body ----------

  lemma LetCorrect(m: Machine, script: Script, cycle: State -> Outcome, name: string, mutable: bool, e: Expr,
                   locals: seq<Local>, pool: seq<Constant>, next: nat, env: Env, st: State) returns (slots: seq<Value>)
    requires Ready(m, script, cycle, GenStmt(m.host, Let(name, mutable, e), locals, pool, next), locals, next, env, st)
    ensures Performs(cycle, GenStmt(m.host, Let(name, mutable, e), locals, pool, next), st,
                     ExecStmt(m, Let(name, mutable, e), env, st.w), slots)
  {
    hide GenExpr, EvalExpr;
    var ca := GenExpr(m.host, e, locals, pool).value.code;
    Split(script, st.pc, ca, [SetLocal(next)]);
    ExprCorrect(m, script, cycle, e, locals, pool, env, st);
    var r := EvalExpr(m, e, env, 0, st.w);
    slots := st.locals;
    if r.Val? {
      slots := st.locals[next := r.v];
      Stored(m, script, cycle, st, r, |ca|, next);
      Declared(locals, next, env, st.locals, name, mutable, r.v);
    }
  }

  lemma AssignCorrect(m: Machine, script: Script, cycle: State -> Outcome, name: string, e: Expr,
                      locals: seq<Local>, pool: seq<Constant>, next: nat, env: Env, st: State) returns (slots: seq<Value>)
    requires Ready(m, script, cycle, GenStmt(m.host, Assign(name, e), locals, pool, next), locals, next, env, st)
    ensures Performs(cycle, GenStmt(m.host, Assign(name, e), locals, pool, next), st,
                     ExecStmt(m, Assign(name, e), env, st.w), slots)
  {
    hide GenExpr, EvalExpr, At, IsVm, Spends, Stops, Step;
    ResolveIsFind(locals, env, name);
    var i := Find(env, name);
    var ca := GenExpr(m.host, e, locals, pool).value.code;
    Split(script, st.pc, ca, [SetLocal(locals[i].slot)]);
    ExprCorrect(m, script, cycle, e, locals, pool, env, st);
    var r := EvalExpr(m, e, env, 0, st.w);
    slots := st.locals;
    if r.Val? {
      slots := st.locals[locals[i].slot := r.v];
      Stored(m, script, cycle, st, r, |ca|, locals[i].slot);
      Assigned(locals, next, env, st.locals, i, r.v);
    }
  }

  /** `Pop` forgets the value above `st`. */
  lemma PopAt(m: Machine, script: Script, cycle: State -> Outcome, st: State, v: Value)
    requires IsVm(m, script, cycle) && At(script, st.pc, [Pop])
    ensures Spends(cycle, st.(stack := st.stack + [v]), 1, st.(pc := st.pc + 1))
  {
    var p := st.(stack := st.stack + [v]);
    assert p.stack[..|p.stack| - 1] == st.stack;
    Goes(m, script, cycle, p, Pop, st.(pc := st.pc + 1));
  }

  lemma ExprStmtCorrect(m: Machine, script: Script, cycle: State -> Outcome, e: Expr,
                        locals: seq<Local>, pool: seq<Constant>, next: nat, env: Env, st: State)
    requires Ready(m, script, cycle, GenStmt(m.host, ExprStmt(e), locals, pool, next), locals, next, env, st)
    ensures Performs(cycle, GenStmt(m.host, ExprStmt(e), locals, pool, next), st,
                     ExecStmt(m, ExprStmt(e), env, st.w), st.locals)
  {
    hide GenExpr, EvalExpr, At, IsVm, Spends, Stops, Step;
    var ca := GenExpr(m.host, e, locals, pool).value.code;
    Split(script, st.pc, ca, [Pop]);
    ExprCorrect(m, script, cycle, e, locals, pool, env, st);
    var r := EvalExpr(m, e, env, 0, st.w);
    if r.Val? {
      PopAt(m, script, cycle, st.(pc := st.pc + |ca|, w := r.w), r.v);
      Chain(cycle, st, r.cost, Pushed(st, r.v, r.w, |ca|), 1, st.(pc := st.pc + |ca| + 1, w := r.w));
    }
  }

  lemma DenyCorrect(m: Machine, script: Script, cycle: State -> Outcome, status: Expr, message: Expr,
                    locals: seq<Local>, pool: seq<Constant>, next: nat, env: Env, st: State)
    requires Ready(m, script, cycle, GenStmt(m.host, ReturnDeny(status, message), locals, pool, next), locals, next, env, st)
    ensures Performs(cycle, GenStmt(m.host, ReturnDeny(status, message), locals, pool, next), st,
                     ExecStmt(m, ReturnDeny(status, message), env, st.w), st.locals)
  {
    hide GenExpr, EvalExpr, At, IsVm, Spends, Stops, Step;
    var ga := GenExpr(m.host, status, locals, pool).value;
    var gb := GenExpr(m.host, message, locals, ga.pool).value;
    Split3(script, st.pc, ga.code, gb.code, [ReturnDenyOp]);
    ExprCorrect(m, script, cycle, status, locals, pool, env, st);
    var a := EvalExpr(m, status, env, 0, st.w);
    if a.Val? {
      var p := Pushed(st, a.v, a.w, |ga.code|);
      ExprCorrect(m, script, cycle, message, locals, ga.pool, env, p);
      DenyShape(m, script, cycle, st, a, |ga.code|, EvalExpr(m, message, env, 1, a.w), |gb.code|);
    }
  }

  lemma DenyShape(m: Machine, script: Script, cycle: State -> Outcome, st: State, a: Eval, la: nat, b: Eval, lb: nat)
    requires IsVm(m, script, cycle) && st.stack == [] && At(script, st.pc + la + lb, [ReturnDenyOp])
    requires a.Val? && Computes(cycle, st, a, la) && Computes(cycle, Pushed(st, a.v, a.w, la), b, lb)
    ensures match b
      case Val(v, w, c) => Stops(cycle, st, a.cost + c + 1, Finished(DenyVerdict(m, a.v, v), w.trace))
      case Fault(e, w, c) => Stops(cycle, st, a.cost + c, Failed(e, w.trace))
  {
    var p := Pushed(st, a.v, a.w, la);
    match b
    case Val(v, w, c) =>
      var q := Pushed(p, v, w, lb);
      Chain(cycle, st, a.cost, p, c, q);
      Halts(m, script, cycle, q, ReturnDenyOp, Finished(DenyVerdict(m, a.v, v), w.trace));
      ChainStop(cycle, st, a.cost + c, q, 1, Finished(DenyVerdict(m, a.v, v), w.trace));
    case Fault(e, w, c) => ChainStop(cycle, st, a.cost, p, c, Failed(e, w.trace));
  }

  lemma NextCorrect(m: Machine, script: Script, cycle: State -> Outcome,
                    locals: seq<Local>, pool: seq<Constant>, next: nat, env: Env, st: State)
    requires Ready(m, script, cycle, GenStmt(m.host, ReturnNext, locals, pool, next), locals, next, env, st)
    ensures Performs(cycle, GenStmt(m.host, ReturnNext, locals, pool, next), st,
                     ExecStmt(m, ReturnNext, env, st.w), st.locals)
  {
    Halts(m, script, cycle, st, ReturnNextOp, Finished(GoodNext, st.w.trace));
  }

  // ---------- Mutual induction ----------

  /** Compiled statements do what the statement means, in exactly the instructions it is priced at. */
  lemma {:induction false} StmtCorrect(m: Machine, script: Script, cycle: State -> Outcome, s: Stmt,
      locals: seq<Local>, pool: seq<Constant>, next: nat, env: Env, st: State) returns (slots: seq<Value>)
    requires Ready(m, script, cycle, GenStmt(m.host, s, locals, pool, next), locals, next, env, st)
    ensures Performs(cycle, GenStmt(m.host, s, locals, pool, next), st, ExecStmt(m, s, env, st.w), slots)
    decreases s, 0
  {
    slots := st.locals;
    match s
    case Let(name, mutable, e) => slots := LetCorrect(m, script, cycle, name, mutable, e, locals, pool, next, env, st);
    case Assign(name, e) => slots := AssignCorrect(m, script, cycle, name, e, locals, pool, next, env, st);
    case If(branches) => slots := BranchesCorrect(m, script, cycle, branches, locals, pool, next, env, st);
    case ForRange(x, start, end, body) =>
      slots := RangeCorrect(m, script, cycle, x, start, end, body, locals, pool, next, env, st);
    case ForIn(x, iterable, body) => slots := InCorrect(m, script, cycle, x, iterable, body, locals, pool, next, env, st);
    case While(cond, body) => slots := WhileCorrect(m, script, cycle, cond, body, locals, pool, next, env, st);
    case ReturnDeny(status, message) => DenyCorrect(m, script, cycle, status, message, locals, pool, next, env, st);
    case ReturnNext => NextCorrect(m, script, cycle, locals, pool, next, env, st);
    case ExprStmt(e) => ExprStmtCorrect(m, script, cycle, e, locals, pool, next, env, st);
  }

  lemma {:induction false} BlockCorrect(m: Machine, script: Script, cycle: State -> Outcome, b: Block,
      locals: seq<Local>, pool: seq<Constant>, next: nat, env: Env, st: State) returns (slots: seq<Value>)
    requires Ready(m, script, cycle, GenBlock(m.host, b, locals, pool, next), locals, next, env, st)
    ensures Performs(cycle, GenBlock(m.host, b, locals, pool, next), st, ExecBlock(m, b, env, st.w), slots)
    decreases b, 0
  {
    hide GenExpr, EvalExpr, GenStmt, ExecStmt;
    slots := st.locals;
    match b
    case Empty =>
    case Seq(s, rest) =>
      var x := GenStmt(m.host, s, locals, pool, next).value;
      var y := GenBlock(m.host, rest, x.locals, x.pool, x.next).value;
      Split(script, st.pc, x.code, y.code);
      ScopeKept(m.host, s, locals, pool, next);
      slots := StmtCorrect(m, script, cycle, s, locals, pool, next, env, st);
      var first := ExecStmt(m, s, env, st.w);
      if first.Norm? {
        var mid := State(st.pc + |x.code|, st.stack, slots, st.loops, first.w);
        slots := BlockCorrect(m, script, cycle, rest, x.locals, x.pool, x.next, first.env, mid);
        Prefix(cycle, st, first.cost, mid, ExecBlock(m, rest, first.env, first.w),
               mid.pc + |y.code|, st.loops, y.locals, slots);
      }
  }

  lemma {:induction false} ScopeCorrect(m: Machine, script: Script, cycle: State -> Outcome, b: Block,
      locals: seq<Local>, pool: seq<Constant>, next: nat, env: Env, st: State) returns (slots: seq<Value>)
    requires Ready(m, script, cycle, GenBlock(m.host, b, locals, pool, next), locals, next, env, st)
    ensures Performs(cycle, LeaveScope(GenBlock(m.host, b, locals, pool, next), locals), st,
                     ExecScope(m, b, env, st.w), slots)
    decreases b, 1
  {
    hide GenBlock, ExecBlock, At, IsVm, Spends, Stops, WellScoped;
    slots := BlockCorrect(m, script, cycle, b, locals, pool, next, env, st);
    var g := GenBlock(m.host, b, locals, pool, next).value;
    Left(cycle, st, ExecBlock(m, b, env, st.w), st.pc + |g.code|, st.loops, g.locals, locals, slots);
  }

  lemma {:induction false} BranchesCorrect(m: Machine, script: Script, cycle: State -> Outcome, bs: Branches,
      locals: seq<Local>, pool: seq<Constant>, next: nat, env: Env, st: State) returns (slots: seq<Value>)
    requires Ready(m, script, cycle, GenBranches(m.host, bs, locals, pool, next), locals, next, env, st)
    ensures Performs(cycle, GenBranches(m.host, bs, locals, pool, next), st, ExecBranches(m, bs, env, st.w), slots)
    decreases bs, 0
  {
    hide GenExpr, EvalExpr, GenBlock, ExecBlock, At, Spends, Stops, IsVm, Step;
    slots := st.locals;
    match bs
    case NoElse => Idle(cycle, st);
    case Else(body) => slots := ScopeCorrect(m, script, cycle, body, locals, pool, next, env, st);
    case Branch(cond, body, rest) =>
      var ga := GenExpr(m.host, cond, locals, pool).value;
      var gb := GenBlock(m.host, body, locals, ga.pool, next).value;
      var gc := GenBranches(m.host, rest, locals, gb.pool, gb.next).value;
      var last := rest.NoElse?;
      SplitBranch(script, st.pc, ga.code, gb.code, gc.code, last);
      ExprCorrect(m, script, cycle, cond, locals, pool, env, st);
      BranchLength(ga.code, gb.code, gc.code, last);
      var a := EvalExpr(m, cond, env, 0, st.w);
      if a.Val? {
        var body0 := st.(pc := st.pc + |ga.code| + 1, w := a.w);
        var rest0 := body0.(pc := body0.pc + |gb.code| + (if last then 0 else 1));
        if Truthy(a.v) {
          slots := ScopeCorrect(m, script, cycle, body, locals, ga.pool, next, env, body0);
        } else {
          slots := BranchesCorrect(m, script, cycle, rest, locals, gb.pool, gb.next, env, rest0);
        }
        BranchShape(m, script, cycle, st, ga.code, a, gb.code, ExecScope(m, body, env, a.w),
                    gc.code, ExecBranches(m, rest, env, a.w), last, locals, slots);
      }
  }

  // ---------- while ----------

  lemma {:induction false} WhileCorrect(m: Machine, script: Script, cycle: State -> Outcome, cond: Expr, body: Block,
      locals: seq<Local>, pool: seq<Constant>, next: nat, env: Env, st: State) returns (slots: seq<Value>)
    requires Ready(m, script, cycle, GenStmt(m.host, While(cond, body), locals, pool, next), locals, next, env, st)
    ensures Performs(cycle, GenStmt(m.host, While(cond, body), locals, pool, next), st,
                     ExecStmt(m, While(cond, body), env, st.w), slots)
    decreases body, 3 + m.limits.maxLoopIterations
  {
    hide GenExpr, EvalExpr, GenBlock, ExecBlock, WhileLoop, Spends, Stops, IsVm, At, Step;
    var ga := GenExpr(m.host, cond, locals, pool).value;
    var gb := GenBlock(m.host, body, locals, ga.pool, next).value;
    SplitWhile(script, st.pc, ga.code, gb.code);
    var first := st.(pc := st.pc + 1, loops := st.loops + [0]);
    OpenLoop(m, script, cycle, st);
    slots := WhileLoopCorrect(m, script, cycle, cond, body, locals, pool, next, env, first, st.loops, 0);
    Prefix(cycle, st, 1, first, WhileLoop(m, cond, body, env, st.w, 0), st.pc + |ga.code| + |gb.code| + 4, st.loops, locals, slots);
  }

  lemma WhilePass(m: Machine, cond: Expr, body: Block, env: Env, w: World, rounds: nat, y: Exec)
    requires rounds <= m.limits.maxLoopIterations
    requires var a := EvalExpr(m, cond, env, 0, w); a.Val? ==>
      var x := ExecScope(m, body, env, a.w);
      GoesRound(m, a, x, rounds) ==> y == WhileLoop(m, cond, body, x.env, x.w, rounds + 1)
    ensures var a := EvalExpr(m, cond, env, 0, w);
      WhileLoop(m, cond, body, env, w, rounds) ==
      Pass(m, a, if a.Val? then ExecScope(m, body, env, a.w) else Norm(env, w, 0), y, env, rounds)
  {
    hide EvalExpr, ExecScope;
  }

  lemma {:induction false} WhileLoopCorrect(m: Machine, script: Script, cycle: State -> Outcome, cond: Expr, body: Block,
      locals: seq<Local>, pool: seq<Constant>, next: nat, env: Env, st: State, loops: seq<nat>, rounds: nat)
      returns (slots: seq<Value>)
    requires IsVm(m, script, cycle) && WellScoped(locals, next) && Agrees(locals, env, st.locals) && st.stack == []
    requires GenExpr(m.host, cond, locals, pool).Some?
    requires var ga := GenExpr(m.host, cond, locals, pool).value; var g := GenBlock(m.host, body, locals, ga.pool, next);
      g.Some? && g.value.pool <= script.constants && g.value.next <= |st.locals| &&
      st.pc > 0 && At(script, st.pc - 1, WhileCode(ga.code, g.value.code))
    requires st.loops == loops + [rounds] && rounds <= m.limits.maxLoopIterations
    ensures var ga := GenExpr(m.host, cond, locals, pool).value; var gb := GenBlock(m.host, body, locals, ga.pool, next).value;
      Leads(cycle, st, WhileLoop(m, cond, body, env, st.w, rounds), st.pc + |ga.code| + |gb.code| + 3, loops, locals, slots)
    decreases body, 2 + m.limits.maxLoopIterations - rounds
  {
    hide GenExpr, EvalExpr, GenBlock, ExecBlock, WhileLoop, Spends, Stops, WhileCode, Pass, IsVm, At, Computes;
    var ga := GenExpr(m.host, cond, locals, pool).value;
    var gb := GenBlock(m.host, body, locals, ga.pool, next).value;
    SplitWhile(script, st.pc - 1, ga.code, gb.code);
    ExprCorrect(m, script, cycle, cond, locals, pool, env, st);
    var a := EvalExpr(m, cond, env, 0, st.w);
    var x := if a.Val? then ExecScope(m, body, env, a.w) else Norm(env, st.w, 0);
    var y := x;
    var slots1 := st.locals;
    slots := st.locals;
    if a.Val? && Truthy(a.v) {
      slots1 := ScopeCorrect(m, script, cycle, body, locals, ga.pool, next, env, st.(pc := st.pc + |ga.code| + 1, w := a.w));
    }
    if GoesRound(m, a, x, rounds) {
      var again := st.(locals := slots1, loops := loops + [rounds + 1], w := x.w);
      slots := WhileLoopCorrect(m, script, cycle, cond, body, locals, pool, next, x.env, again, loops, rounds + 1);
      y := WhileLoop(m, cond, body, x.env, x.w, rounds + 1);
    }
    WhilePass(m, cond, body, env, st.w, rounds, y);
    WhileRound(m, script, cycle, st, ga.code, a, gb.code, x, y, env, loops, rounds, locals, slots1, slots);
  }

  // ---------- for x in start..end ----------

  lemma RangePass(m: Machine, body: Block, env: Env, w: World, rounds: nat, y: Exec)
    requires rounds <= m.limits.maxLoopIterations && |env| >= 2
    requires var a := TwoOperands(m, Lt, env[|env| - 1].value, env[|env| - 2].value, 1, w);
      var x := Counted(m, ExecScope(m, body, env, w), |env| - 1);
      GoesRound(m, a, x, rounds) ==> y == RangeLoop(m, body, x.env, x.w, rounds + 1)
    ensures var a := TwoOperands(m, Lt, env[|env| - 1].value, env[|env| - 2].value, 1, w);
      RangeLoop(m, body, env, w, rounds) == Pass(m, a, Counted(m, ExecScope(m, body, env, w), |env| - 1), y, env, rounds)
  {
    hide ExecScope;
  }

  lemma {:induction false} RangeLoopCorrect(m: Machine, script: Script, cycle: State -> Outcome, body: Block,
      locals: seq<Local>, pool: seq<Constant>, slot: nat, one: nat, env: Env, st: State, loops: seq<nat>, rounds: nat)
      returns (slots: seq<Value>)
    requires IsVm(m, script, cycle) && WellScoped(locals, slot + 2) && Agrees(locals, env, st.locals) && st.stack == []
    requires |env| >= 2 && locals[|env| - 1].slot == slot + 1 && locals[|env| - 2].slot == slot
    requires var g := GenBlock(m.host, body, locals, pool, slot + 2);
      g.Some? && g.value.pool <= script.constants && g.value.next <= |st.locals| &&
      st.pc > 0 && At(script, st.pc - 1, WhileCode(RangeTest(slot), g.value.code + Increment(slot + 1, one)))
    requires one < |script.constants| && script.constants[one] == IntConst(1)
    requires st.loops == loops + [rounds] && rounds <= m.limits.maxLoopIterations
    ensures var gb := GenBlock(m.host, body, locals, pool, slot + 2).value;
      Leads(cycle, st, RangeLoop(m, body, env, st.w, rounds), st.pc + |gb.code| + 10, loops, locals, slots)
    decreases body, 2 + m.limits.maxLoopIterations - rounds
  {
    hide GenBlock, ExecBlock, GenStmt, ExecStmt, RangeLoop, Spends, Stops, WhileCode, Pass, IsVm, At, Computes;
    var at := |env| - 1;
    var gb := GenBlock(m.host, body, locals, pool, slot + 2).value;
    var cb := gb.code + Increment(slot + 1, one);
    SplitWhile(script, st.pc - 1, RangeTest(slot), cb);
    Split(script, st.pc + 4, gb.code, Increment(slot + 1, one));
    RangeTestCorrect(m, script, cycle, st, slot);
    var a := TwoOperands(m, Lt, env[at].value, env[at - 1].value, 1, st.w);
    var scope := ExecScope(m, body, env, st.w);
    var x := Counted(m, scope, at);
    var y := x;
    var slots1 := st.locals;
    slots := st.locals;
    if a.Val? && Truthy(a.v) {
      var mid := st.(pc := st.pc + 4);
      slots1 := ScopeCorrect(m, script, cycle, body, locals, pool, slot + 2, env, mid);
      slots1 := CountedCorrect(m, script, cycle, mid, scope, mid.pc + |gb.code|, one, at, locals, slot + 2, slots1);
    }
    if GoesRound(m, a, x, rounds) {
      var again := st.(locals := slots1, loops := loops + [rounds + 1], w := x.w);
      slots := RangeLoopCorrect(m, script, cycle, body, locals, pool, slot, one, x.env, again, loops, rounds + 1);
      y := RangeLoop(m, body, x.env, x.w, rounds + 1);
    }
    RangePass(m, body, env, st.w, rounds, y);
    WhileRound(m, script, cycle, st, RangeTest(slot), a, cb, x, y, env, loops, rounds, locals, slots1, slots);
  }

  lemma SplitRange(script: Script, pc: nat, ce: seq<OpCode>, cs: seq<OpCode>, cb: seq<OpCode>, slot: nat, one: nat)
    requires At(script, pc, RangeCode(ce, cs, cb, slot, one))
    ensures var start := pc + |ce| + 1; var loop := start + |cs| + 1;
      At(script, pc, ce) && At(script, pc + |ce|, [SetLocal(slot)]) && At(script, start, cs) &&
      At(script, start + |cs|, [SetLocal(slot + 1)]) &&
      At(script, loop, WhileCode(RangeTest(slot), cb + Increment(slot + 1, one)))
    ensures |RangeCode(ce, cs, cb, slot, one)| == |ce| + |cs| + |cb| + 13
  {
    var loop := WhileCode(RangeTest(slot), cb + Increment(slot + 1, one));
    Split3(script, pc, ce + [SetLocal(slot)] + cs, [SetLocal(slot + 1)], loop);
    Split3(script, pc, ce, [SetLocal(slot)], cs);
  }

  lemma RangeParts(m: Machine, script: Script, cycle: State -> Outcome, x: string, start: Expr, end: Expr, body: Block,
                   locals: seq<Local>, pool: seq<Constant>, next: nat, env: Env, st: State)
      returns (ga: Gen, locals1: seq<Local>, gb: Gen, locals2: seq<Local>, gc: StmtGen, one: nat)
    requires Ready(m, script, cycle, GenRange(m.host, x, start, end, body, locals, pool, next), locals, next, env, st)
    ensures locals1 == locals + [Local("__range_end__", next, false)] && locals2 == locals1 + [Local(x, next + 1, false)]
    ensures GenExpr(m.host, end, locals, pool) == Some(ga) && GenExpr(m.host, start, locals1, ga.pool) == Some(gb)
    ensures GenBlock(m.host, body, locals2, gb.pool, next + 2) == Some(gc)
    ensures var g := GenRange(m.host, x, start, end, body, locals, pool, next);
      g.Some? && g.value.locals == locals && |g.value.code| == |ga.code| + |gb.code| + |gc.code| + 13
    ensures ga.pool <= gb.pool <= gc.pool <= script.constants && next + 2 <= gc.next <= |st.locals|
    ensures one < |script.constants| && script.constants[one] == IntConst(1)
    ensures At(script, st.pc, RangeCode(ga.code, gb.code, gc.code, next, one))
  {
    hide GenExpr, GenBlock;
    locals1 := locals + [Local("__range_end__", next, false)];
    locals2 := locals1 + [Local(x, next + 1, false)];
    ga := GenExpr(m.host, end, locals, pool).value;
    gb := GenExpr(m.host, start, locals1, ga.pool).value;
    gc := GenBlock(m.host, body, locals2, gb.pool, next + 2).value;
    one := AddConst(gc.pool, IntConst(1)).value.0;
  }

  /** An expression stored in a slot, and what `y` does next. */
  lemma StoreThen(m: Machine, script: Script, cycle: State -> Outcome, st: State, r: Eval, len: nat, slot: nat,
                  y: Exec, pc: nat, loops: seq<nat>, locals: seq<Local>, slots: seq<Value>)
    requires IsVm(m, script, cycle) && Computes(cycle, st, r, len)
    requires At(script, st.pc + len, [SetLocal(slot)]) && slot < |st.locals|
    requires r.Val? ==>
      Leads(cycle, st.(pc := st.pc + len + 1, locals := st.locals[slot := r.v], w := r.w), y, pc, loops, locals, slots)
    ensures Leads(cycle, st, if r.Fault? then Abort(r.error, r.w, r.cost) else AddCost(y, r.cost + 1), pc, loops, locals, slots)
  {
    if r.Val? {
      Stored(m, script, cycle, st, r, len, slot);
      Prefix(cycle, st, r.cost + 1, st.(pc := st.pc + len + 1, locals := st.locals[slot := r.v], w := r.w),
             y, pc, loops, locals, slots);
    }
  }

  /** From the start of the range on, its end being stored. */
  lemma {:induction false} RangeFromStart(m: Machine, script: Script, cycle: State -> Outcome, x: string, start: Expr, body: Block,
      locals: seq<Local>, pool: seq<Constant>, slot: nat, one: nat, env: Env, st: State) returns (slots: seq<Value>)
    requires IsVm(m, script, cycle) && WellScoped(locals, slot + 1) && Agrees(locals, env, st.locals) && st.stack == []
    requires |env| >= 1 && locals[|env| - 1].slot == slot
    requires GenExpr(m.host, start, locals, pool).Some?
    requires var gb := GenExpr(m.host, start, locals, pool).value;
      var gc := GenBlock(m.host, body, locals + [Local(x, slot + 1, false)], gb.pool, slot + 2);
      gc.Some? && gc.value.pool <= script.constants && gc.value.next <= |st.locals| &&
      At(script, st.pc, gb.code) && At(script, st.pc + |gb.code|, [SetLocal(slot + 1)]) &&
      At(script, st.pc + |gb.code| + 1, WhileCode(RangeTest(slot), gc.value.code + Increment(slot + 1, one)))
    requires one < |script.constants| && script.constants[one] == IntConst(1)
    ensures var gb := GenExpr(m.host, start, locals, pool).value;
      var locals2 := locals + [Local(x, slot + 1, false)];
      var gc := GenBlock(m.host, body, locals2, gb.pool, slot + 2).value;
      var lo := EvalExpr(m, start, env, 0, st.w);
      Leads(cycle, st,
        if lo.Fault? then Abort(lo.error, lo.w, lo.cost)
        else AddCost(RangeLoop(m, body, env + [Binding(x, lo.v)], lo.w, 0), lo.cost + 2),
        st.pc + |gb.code| + |gc.code| + 12, st.loops, locals2, slots)
    decreases body, 3 + m.limits.maxLoopIterations
  {
    hide GenExpr, EvalExpr, GenBlock, ExecBlock, GenStmt, ExecStmt, RangeLoop, WhileCode, Spends, Stops, IsVm, At, Step;
    var gb := GenExpr(m.host, start, locals, pool).value;
    var locals2 := locals + [Local(x, slot + 1, false)];
    var gc := GenBlock(m.host, body, locals2, gb.pool, slot + 2).value;
    SplitWhile(script, st.pc + |gb.code| + 1, RangeTest(slot), gc.code + Increment(slot + 1, one));
    ExprCorrect(m, script, cycle, start, locals, pool, env, st);
    var lo := EvalExpr(m, start, env, 0, st.w);
    slots := st.locals;
    if lo.Val? {
      Declared(locals, slot + 1, env, st.locals, x, false, lo.v);
      var mid := st.(pc := st.pc + |gb.code| + 1, locals := st.locals[slot + 1 := lo.v], w := lo.w);
      var loop := mid.(pc := mid.pc + 1, loops := st.loops + [0]);
      OpenLoop(m, script, cycle, mid);
      slots := RangeLoopCorrect(m, script, cycle, body, locals2, gb.pool, slot, one, env + [Binding(x, lo.v)], loop, st.loops, 0);
      var y := RangeLoop(m, body, env + [Binding(x, lo.v)], lo.w, 0);
      var end := st.pc + |gb.code| + |gc.code| + 12;
      Prefix(cycle, mid, 1, loop, y, end, st.loops, locals2, slots);
      StoreThen(m, script, cycle, st, lo, |gb.code|, slot + 1, AddCost(y, 1), end, st.loops, locals2, slots);
    }
  }

  lemma {:induction false} RangeCorrect(m: Machine, script: Script, cycle: State -> Outcome, x: string, start: Expr, end: Expr,
      body: Block, locals: seq<Local>, pool: seq<Constant>, next: nat, env: Env, st: State) returns (slots: seq<Value>)
    requires Ready(m, script, cycle, GenRange(m.host, x, start, end, body, locals, pool, next), locals, next, env, st)
    ensures Performs(cycle, GenRange(m.host, x, start, end, body, locals, pool, next), st,
                     ExecRange(m, x, start, end, body, env, st.w), slots)
    decreases body, 4 + m.limits.maxLoopIterations
  {
    hide GenExpr, EvalExpr, GenBlock, ExecBlock, GenStmt, ExecStmt, RangeLoop, GenRange, RangeCode, WhileCode, At, Increment, Spends, Stops, IsVm, Step;
    var ga, locals1, gb, locals2, gc, one := RangeParts(m, script, cycle, x, start, end, body, locals, pool, next, env, st);
    SplitRange(script, st.pc, ga.code, gb.code, gc.code, next, one);
    ExprCorrect(m, script, cycle, end, locals, pool, env, st);
    var hi := EvalExpr(m, end, env, 0, st.w);
    slots := st.locals;
    if hi.Val? {
      var env1 := env + [Binding("__range_end__", hi.v)];
      var first := st.(pc := st.pc + |ga.code| + 1, locals := st.locals[next := hi.v], w := hi.w);
      Declared(locals, next, env, st.locals, "__range_end__", false, hi.v);
      slots := RangeFromStart(m, script, cycle, x, start, body, locals1, ga.pool, next, one, env1, first);
      var lo := EvalExpr(m, start, env1, 0, hi.w);
      var y := if lo.Fault? then Abort(lo.error, lo.w, lo.cost)
               else AddCost(RangeLoop(m, body, env1 + [Binding(x, lo.v)], lo.w, 0), lo.cost + 2);
      var after := st.pc + |ga.code| + |gb.code| + |gc.code| + 13;
      Left(cycle, first, y, after, st.loops, locals2, locals, slots);
      StoreThen(m, script, cycle, st, hi, |ga.code|, next, Leave(y, |locals|), after, st.loops, locals, slots);
    }
  }

  // ---------- for x in list ----------

  function InBody(m: Machine, name: string, body: Block, env: Env, w: World): (x: Exec)
    requires |env| >= 2
    ensures x.Norm? ==> |x.env| == |env|
  {
    var at := |env| - 1;
    var block := ExecBlock(m, body, env + [Binding(name, Item(env[at - 1].value, env[at].value))], w);
    AddCost(Counted(m, Leave(block, |env|), at), 4)
  }

  lemma InPass(m: Machine, name: string, body: Block, env: Env, w: World, rounds: nat, y: Exec)
    requires rounds <= m.limits.maxLoopIterations && |env| >= 2
    requires var a := TwoOperands(m, Lt, env[|env| - 1].value, Length(env[|env| - 2].value), 2, w);
      var x := InBody(m, name, body, env, w);
      GoesRound(m, a, x, rounds) ==> y == InLoop(m, name, body, x.env, x.w, rounds + 1)
    ensures var a := TwoOperands(m, Lt, env[|env| - 1].value, Length(env[|env| - 2].value), 2, w);
      InLoop(m, name, body, env, w, rounds) == Pass(m, a, InBody(m, name, body, env, w), y, env, rounds)
  {
    hide ExecBlock;
  }

  lemma {:induction false} InBodyCorrect(m: Machine, script: Script, cycle: State -> Outcome, name: string, body: Block,
      locals: seq<Local>, pool: seq<Constant>, slot: nat, one: nat, env: Env, st: State) returns (slots: seq<Value>)
    requires IsVm(m, script, cycle) && WellScoped(locals, slot + 2) && Agrees(locals, env, st.locals) && st.stack == []
    requires |env| >= 2 && locals[|env| - 1].slot == slot + 1 && locals[|env| - 2].slot == slot
    requires m.limits.maxStackDepth >= 2
    requires var g := GenBlock(m.host, body, locals + [Local(name, slot + 2, false)], pool, slot + 3);
      g.Some? && g.value.pool <= script.constants && g.value.next <= |st.locals| &&
      At(script, st.pc, LoadItem(slot) + g.value.code + Increment(slot + 1, one))
    requires one < |script.constants| && script.constants[one] == IntConst(1)
    ensures var gb := GenBlock(m.host, body, locals + [Local(name, slot + 2, false)], pool, slot + 3).value;
      Leads(cycle, st, InBody(m, name, body, env, st.w), st.pc + |gb.code| + 8, st.loops, locals, slots)
    decreases body, 1
  {
    hide GenBlock, ExecBlock, GenStmt, ExecStmt;
    var at := |env| - 1;
    var locals1 := locals + [Local(name, slot + 2, false)];
    var gb := GenBlock(m.host, body, locals1, pool, slot + 3).value;
    Split3(script, st.pc, LoadItem(slot), gb.code, Increment(slot + 1, one));
    var item := Item(env[at - 1].value, env[at].value);
    var block := ExecBlock(m, body, env + [Binding(name, item)], st.w);
    var mid := st.(pc := st.pc + 4, locals := st.locals[slot + 2 := item]);
    LoadItemCorrect(m, script, cycle, st, slot);
    Declared(locals, slot + 2, env, st.locals, name, false, item);
    slots := BlockCorrect(m, script, cycle, body, locals1, pool, slot + 3, env + [Binding(name, item)], mid);
    Left(cycle, mid, block, mid.pc + |gb.code|, st.loops, gb.locals, locals, slots);
    slots := CountedCorrect(m, script, cycle, mid, Leave(block, |env|), mid.pc + |gb.code|, one, at, locals, slot + 2, slots);
    Prefix(cycle, st, 4, mid, Counted(m, Leave(block, |env|), at), mid.pc + |gb.code| + 4, st.loops, locals, slots);
  }

  lemma {:induction false} InLoopCorrect(m: Machine, script: Script, cycle: State -> Outcome, name: string, body: Block,
      locals: seq<Local>, pool: seq<Constant>, slot: nat, one: nat, env: Env, st: State, loops: seq<nat>, rounds: nat)
      returns (slots: seq<Value>)
    requires IsVm(m, script, cycle) && WellScoped(locals, slot + 2) && Agrees(locals, env, st.locals) && st.stack == []
    requires |env| >= 2 && locals[|env| - 1].slot == slot + 1 && locals[|env| - 2].slot == slot
    requires var g := GenBlock(m.host, body, locals + [Local(name, slot + 2, false)], pool, slot + 3);
      g.Some? && g.value.pool <= script.constants && g.value.next <= |st.locals| &&
      st.pc > 0 && At(script, st.pc - 1, WhileCode(InTest(slot), LoadItem(slot) + g.value.code + Increment(slot + 1, one)))
    requires one < |script.constants| && script.constants[one] == IntConst(1)
    requires st.loops == loops + [rounds] && rounds <= m.limits.maxLoopIterations
    ensures var gb := GenBlock(m.host, body, locals + [Local(name, slot + 2, false)], pool, slot + 3).value;
      Leads(cycle, st, InLoop(m, name, body, env, st.w, rounds), st.pc + |gb.code| + 15, loops, locals, slots)
    decreases body, 2 + m.limits.maxLoopIterations - rounds
  {
    hide GenBlock, ExecBlock, GenStmt, ExecStmt, Spends, Stops, InLoop, InBody, WhileCode, Pass, IsVm, At, Computes;
    var at := |env| - 1;
    var locals1 := locals + [Local(name, slot + 2, false)];
    var gb := GenBlock(m.host, body, locals1, pool, slot + 3).value;
    var cb := LoadItem(slot) + gb.code + Increment(slot + 1, one);
    SplitWhile(script, st.pc - 1, InTest(slot), cb);
    InTestCorrect(m, script, cycle, st, slot);
    var a := TwoOperands(m, Lt, env[at].value, Length(env[at - 1].value), 2, st.w);
    var x := InBody(m, name, body, env, st.w);
    var y := x;
    var slots1 := st.locals;
    slots := st.locals;
    if a.Val? && Truthy(a.v) {
      slots1 := InBodyCorrect(m, script, cycle, name, body, locals, pool, slot, one, env, st.(pc := st.pc + 5));
    }
    if GoesRound(m, a, x, rounds) {
      var again := st.(locals := slots1, loops := loops + [rounds + 1], w := x.w);
      slots := InLoopCorrect(m, script, cycle, name, body, locals, pool, slot, one, x.env, again, loops, rounds + 1);
      y := InLoop(m, name, body, x.env, x.w, rounds + 1);
    }
    InPass(m, name, body, env, st.w, rounds, y);
    WhileRound(m, script, cycle, st, InTest(slot), a, cb, x, y, env, loops, rounds, locals, slots1, slots);
  }

  lemma SplitIn(script: Script, pc: nat, cl: seq<OpCode>, cb: seq<OpCode>, slot: nat, zero: nat, one: nat)
    requires At(script, pc, InCode(cl, cb, slot, zero, one))
    ensures At(script, pc, cl) && At(script, pc + |cl|, [SetLocal(slot)])
    ensures At(script, pc + |cl| + 1, [LoadConst(zero)]) && At(script, pc + |cl| + 2, [SetLocal(slot + 1)])
    ensures At(script, pc + |cl| + 3, WhileCode(InTest(slot), LoadItem(slot) + cb + Increment(slot + 1, one)))
    ensures |InCode(cl, cb, slot, zero, one)| == |cl| + |cb| + 19
  {
    var loop := WhileCode(InTest(slot), LoadItem(slot) + cb + Increment(slot + 1, one));
    var stores := [SetLocal(slot), LoadConst(zero), SetLocal(slot + 1)];
    assert stores == [SetLocal(slot)] + [LoadConst(zero)] + [SetLocal(slot + 1)];
    Split3(script, pc, cl, stores, loop);
    Split3(script, pc + |cl|, [SetLocal(slot)], [LoadConst(zero)], [SetLocal(slot + 1)]);
  }

  lemma InParts(m: Machine, script: Script, cycle: State -> Outcome, x: string, iterable: Expr, body: Block,
                locals: seq<Local>, pool: seq<Constant>, next: nat, env: Env, st: State)
      returns (ga: Gen, zero: nat, pool0: seq<Constant>, locals1: seq<Local>, locals2: seq<Local>, gb: StmtGen, one: nat)
    requires Ready(m, script, cycle, GenIn(m.host, x, iterable, body, locals, pool, next), locals, next, env, st)
    ensures GenExpr(m.host, iterable, locals, pool) == Some(ga)
    ensures locals1 == locals + [Local("__list__", next, false)] && locals2 == locals1 + [Local("__idx__", next + 1, true)]
    ensures GenBlock(m.host, body, locals2 + [Local(x, next + 2, false)], pool0, next + 3) == Some(gb)
    ensures var g := GenIn(m.host, x, iterable, body, locals, pool, next);
      g.Some? && g.value.locals == locals && |g.value.code| == |ga.code| + |gb.code| + 19
    ensures ga.pool <= script.constants && gb.pool <= script.constants && next + 3 <= gb.next <= |st.locals|
    ensures zero < |script.constants| && script.constants[zero] == IntConst(0)
    ensures one < |script.constants| && script.constants[one] == IntConst(1)
    ensures At(script, st.pc, InCode(ga.code, gb.code, next, zero, one))
  {
    hide GenExpr, GenBlock;
    ga := GenExpr(m.host, iterable, locals, pool).value;
    zero, pool0 := AddConst(ga.pool, IntConst(0)).value.0, AddConst(ga.pool, IntConst(0)).value.1;
    locals1 := locals + [Local("__list__", next, false)];
    locals2 := locals1 + [Local("__idx__", next + 1, true)];
    assert locals2 + [Local(x, next + 2, false)] ==
      locals + [Local("__list__", next, false), Local("__idx__", next + 1, true), Local(x, next + 2, false)];
    gb := GenBlock(m.host, body, locals2 + [Local(x, next + 2, false)], pool0, next + 3).value;
    one := AddConst(gb.pool, IntConst(1)).value.0;
  }

  /** From the hidden index on, the list being stored. */
  lemma {:induction false} InFromIndex(m: Machine, script: Script, cycle: State -> Outcome, x: string, body: Block,
      locals: seq<Local>, pool: seq<Constant>, slot: nat, zero: nat, one: nat, env: Env, st: State) returns (slots: seq<Value>)
    requires IsVm(m, script, cycle) && WellScoped(locals, slot + 1) && Agrees(locals, env, st.locals) && st.stack == []
    requires |env| >= 1 && locals[|env| - 1].slot == slot && m.limits.maxStackDepth > 0
    requires var gb := GenBlock(m.host, body, locals + [Local("__idx__", slot + 1, true)] + [Local(x, slot + 2, false)], pool, slot + 3);
      gb.Some? && gb.value.pool <= script.constants && gb.value.next <= |st.locals| &&
      At(script, st.pc, [LoadConst(zero)]) && At(script, st.pc + 1, [SetLocal(slot + 1)]) &&
      At(script, st.pc + 2, WhileCode(InTest(slot), LoadItem(slot) + gb.value.code + Increment(slot + 1, one)))
    requires zero < |script.constants| && script.constants[zero] == IntConst(0)
    requires one < |script.constants| && script.constants[one] == IntConst(1)
    ensures var locals2 := locals + [Local("__idx__", slot + 1, true)];
      var gb := GenBlock(m.host, body, locals2 + [Local(x, slot + 2, false)], pool, slot + 3).value;
      Leads(cycle, st, AddCost(InLoop(m, x, body, env + [Binding("__idx__", Int(0))], st.w, 0), 3),
            st.pc + |gb.code| + 18, st.loops, locals2, slots)
    decreases body, 3 + m.limits.maxLoopIterations
  {
    hide GenExpr, EvalExpr, GenBlock, ExecBlock, GenStmt, ExecStmt, InLoop, WhileCode, Spends, Stops, IsVm, At, Step;
    var locals2 := locals + [Local("__idx__", slot + 1, true)];
    var gb := GenBlock(m.host, body, locals2 + [Local(x, slot + 2, false)], pool, slot + 3).value;
    SplitWhile(script, st.pc + 2, InTest(slot), LoadItem(slot) + gb.code + Increment(slot + 1, one));
    var zeroed := st.(pc := st.pc + 2, locals := st.locals[slot + 1 := Int(0)]);
    ConstantAt(m, script, cycle, st, zero, 0);
    Declared(locals, slot + 1, env, st.locals, "__idx__", true, Int(0));
    var loop := zeroed.(pc := st.pc + 3, loops := st.loops + [0]);
    OpenLoop(m, script, cycle, zeroed);
    slots := InLoopCorrect(m, script, cycle, x, body, locals2, pool, slot, one, env + [Binding("__idx__", Int(0))], loop, st.loops, 0);
    var y := InLoop(m, x, body, env + [Binding("__idx__", Int(0))], st.w, 0);
    var end := st.pc + |gb.code| + 18;
    Prefix(cycle, zeroed, 1, loop, y, end, st.loops, locals2, slots);
    StoreThen(m, script, cycle, st, Val(Int(0), st.w, 1), 1, slot + 1, AddCost(y, 1), end, st.loops, locals2, slots);
  }

  lemma {:induction false} InCorrect(m: Machine, script: Script, cycle: State -> Outcome, x: string, iterable: Expr,
      body: Block, locals: seq<Local>, pool: seq<Constant>, next: nat, env: Env, st: State) returns (slots: seq<Value>)
    requires Ready(m, script, cycle, GenIn(m.host, x, iterable, body, locals, pool, next), locals, next, env, st)
    ensures Performs(cycle, GenIn(m.host, x, iterable, body, locals, pool, next), st,
                     ExecIn(m, x, iterable, body, env, st.w), slots)
    decreases body, 4 + m.limits.maxLoopIterations
  {
    hide GenExpr, EvalExpr, GenBlock, ExecBlock, GenStmt, ExecStmt, InLoop, GenIn, InCode, WhileCode, At, Spends, Stops, IsVm, Step;
    var ga, zero, pool0, locals1, locals2, gb, one := InParts(m, script, cycle, x, iterable, body, locals, pool, next, env, st);
    SplitIn(script, st.pc, ga.code, gb.code, next, zero, one);
    ExprCorrect(m, script, cycle, iterable, locals, pool, env, st);
    var l := EvalExpr(m, iterable, env, 0, st.w);
    slots := st.locals;
    if l.Val? {
      var env1 := env + [Binding("__list__", l.v)];
      var env2 := env1 + [Binding("__idx__", Int(0))];
      assert env2 == env + [Binding("__list__", l.v), Binding("__idx__", Int(0))];
      var first := st.(pc := st.pc + |ga.code| + 1, locals := st.locals[next := l.v], w := l.w);
      Declared(locals, next, env, st.locals, "__list__", false, l.v);
      slots := InFromIndex(m, script, cycle, x, body, locals1, pool0, next, zero, one, env1, first);
      var y := AddCost(InLoop(m, x, body, env2, l.w, 0), 3);
      var after := st.pc + |ga.code| + |gb.code| + 19;
      Left(cycle, first, y, after, st.loops, locals2, locals, slots);
      StoreThen(m, script, cycle, st, l, |ga.code|, next, Leave(y, |locals|), after, st.loops, locals, slots);
    }
  }

  // ---------- Whole scripts ----------

  /** Reaching the final return, or the end of the code, lets the request through. */
  lemma EndOfCode(m: Machine, script: Script, cycle: State -> Outcome, st: State)
    requires IsVm(m, script, cycle)
    requires st.pc >= |script.code| || script.code[st.pc] == ReturnNextOp
    ensures Stops(cycle, st, 1, Finished(GoodNext, st.w.trace))
  {
    var final := Finished(GoodNext, st.w.trace);
    assert Fetch(st) && cycle(st) == Halt(final);
    forall k: nat ensures if k < 1 then StepsOut(Run(cycle, st, k)) else Run(cycle, st, k) == final {
    }
  }

  /** A compiled script ends as the language says, at exactly the price of its execution. */
  lemma ScriptCorrect(m: Machine, p: Block, script: Script)
    requires Compile(m.host, p) == Some(script)
    ensures Stops(Cycles(m, script), Start(m, script), Price(RunProgram(m, p)), Ending(RunProgram(m, p)))
  {
    hide GenBlock, ExecBlock;
    var cycle := Cycles(m, script);
    var g := GenBlock(m.host, p, [], [], 0).value;
    var st := Start(m, script);
    var x := RunProgram(m, p);
    assert IsVm(m, script, cycle);
    assert script.code[0..|g.code|] == g.code;
    var slots := BlockCorrect(m, script, cycle, p, [], [], 0, [], st);
    if x.Norm? {
      var end := State(|g.code|, [], slots, [], x.w);
      EndOfCode(m, script, cycle, end);
      ChainStop(cycle, st, x.cost, end, 1, Ending(x));
    }
  }

  /** Compiling with back-patched jumps and running the result ends as the language says, or runs out of
      steps exactly when the step limit is below the price. */
  method CompileAndExecute(m: Machine, p: Block) returns (script: Option<Script>, final: Option<Final>)
    ensures script == Compile(m.host, p) && (final.None? <==> script.None?)
    ensures final.Some? ==> var x := RunProgram(m, p);
      if m.limits.maxSteps < Price(x) then StepsOut(final.value) else final.value == Ending(x)
  {
    script := DslBackpatch.CompileProgram(m.host, p);
    final := None;
    if script.Some? {
      var f := Execute(m, script.value);
      ScriptCorrect(m, p, script.value);
      assert Budget(m.limits.maxSteps);
      final := Some(f);
    }
  }
}
