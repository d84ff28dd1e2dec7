// What the counting loops visit: ranges count from start to end, and list loops take the items in turn unless
// the script itself assigns the hidden index.

module DslLoops {
  import opened Common
  import opened DslSyntax
  import opened DslSemantics
  import opened DslCompiler
  import opened DslExprProof

  // ---------- Assignments to variables from outside ----------

  /** Whether `s` assigns a variable of this name that was declared before it. */
  predicate Touches(s: Stmt, name: string)
    decreases s
  {
    match s
    case Assign(target, _) => target == name
    case If(branches) => TouchesBranches(branches, name)
    case ForRange(x, _, _, body) => name != "__range_end__" && name != x && TouchesBlock(body, name)
    case ForIn(x, _, body) => name != "__list__" && name != "__idx__" && name != x && TouchesBlock(body, name)
    case While(_, body) => TouchesBlock(body, name)
    case _ => false
  }

  predicate TouchesBlock(b: Block, name: string)
    decreases b
  {
    match b
    case Empty => false
    case Seq(s, rest) => Touches(s, name) || (!(s.Let? && s.name == name) && TouchesBlock(rest, name))
  }

  predicate TouchesBranches(bs: Branches, name: string)
    decreases bs
  {
    match bs
    case NoElse => false
    case Else(body) => TouchesBlock(body, name)
    case Branch(_, body, rest) => TouchesBlock(body, name) || TouchesBranches(rest, name)
  }

  /** The variables of this name among the first `n` are out of reach: nothing assigns it, or a later one hides them. */
  ghost predicate Guarded(env: Env, n: nat, name: string, touches: bool) {
    n <= |env| && (touches ==> exists j :: n <= j < |env| && env[j].name == name)
  }

  /** They keep their values, and all variables their names. */
  ghost predicate Kept(env: Env, env': Env, n: nat, name: string) {
    n <= |env| <= |env'| &&
    (forall i :: 0 <= i < |env| ==> env'[i].name == env[i].name) &&
    (forall i :: 0 <= i < n && env[i].name == name ==> env'[i].value == env[i].value)
  }

  ghost predicate Keeps(env: Env, x: Exec, n: nat, name: string) { x.Norm? ==> Kept(env, x.env, n, name) }

  lemma GuardedOn(env: Env, env': Env, n: nat, name: string, touches: bool)
    requires Guarded(env, n, name, touches) && Kept(env, env', n, name)
    ensures Guarded(env', n, name, touches)
  {
    if touches {
      var j :| n <= j < |env| && env[j].name == name;
      assert env'[j].name == name;
    }
  }

  lemma KeptTwice(a: Env, b: Env, c: Env, n: nat, name: string)
    requires Kept(a, b, n, name) && Kept(b, c, n, name)
    ensures Kept(a, c, n, name)
  {
  }

  lemma {:induction false} StmtKeeps(m: Machine, s: Stmt, env: Env, w: World, n: nat, name: string)
    requires Guarded(env, n, name, Touches(s, name))
    ensures Keeps(env, ExecStmt(m, s, env, w), n, name)
    decreases s, 0
  {
    hide EvalExpr, ExecBlock, TouchesBlock;
    match s
    case Assign(target, _) =>
      if target == name {
        var j :| n <= j < |env| && env[j].name == name;
        assert Find(env, target) >= j;
      }
    case If(branches) => BranchesKeep(m, branches, env, w, n, name);
    case ForRange(x, start, end, body) => RangeKeeps(m, x, start, end, body, env, w, n, name);
    case ForIn(x, iterable, body) => InKeeps(m, x, iterable, body, env, w, n, name);
    case While(cond, body) => WhileKeeps(m, cond, body, env, w, 0, n, name);
    case _ =>
  }

  lemma {:induction false} BlockKeeps(m: Machine, b: Block, env: Env, w: World, n: nat, name: string)
    requires Guarded(env, n, name, TouchesBlock(b, name))
    ensures Keeps(env, ExecBlock(m, b, env, w), n, name)
    decreases b, 0
  {
    hide ExecStmt, Touches;
    match b
    case Empty =>
    case Seq(s, rest) =>
      StmtKeeps(m, s, env, w, n, name);
      var x := ExecStmt(m, s, env, w);
      if x.Norm? {
        if s.Let? && s.name == name {
          LetBinds(m, s, env, w);
          assert x.env[|env|].name == name;
        } else {
          GuardedOn(env, x.env, n, name, TouchesBlock(rest, name));
        }
        BlockKeeps(m, rest, x.env, x.w, n, name);
        var y := ExecBlock(m, rest, x.env, x.w);
        if y.Norm? {
          KeptTwice(env, x.env, y.env, n, name);
        }
      }
  }

  lemma LetBinds(m: Machine, s: Stmt, env: Env, w: World)
    requires s.Let?
    ensures var x := ExecStmt(m, s, env, w); x.Norm? ==> |x.env| == |env| + 1 && x.env[|env|].name == s.name
  {
    hide EvalExpr;
  }

  lemma LeaveKeeps(env: Env, x: Exec, n: nat, name: string)
    requires Keeps(env, x, n, name)
    ensures Keeps(env, Leave(x, |env|), n, name)
  {
  }

  lemma {:induction false} ScopeKeeps(m: Machine, b: Block, env: Env, w: World, n: nat, name: string)
    requires Guarded(env, n, name, TouchesBlock(b, name))
    ensures Keeps(env, ExecScope(m, b, env, w), n, name)
    decreases b, 1
  {
    hide ExecBlock, TouchesBlock;
    BlockKeeps(m, b, env, w, n, name);
    LeaveKeeps(env, ExecBlock(m, b, env, w), n, name);
  }

  lemma {:induction false} BranchesKeep(m: Machine, bs: Branches, env: Env, w: World, n: nat, name: string)
    requires Guarded(env, n, name, TouchesBranches(bs, name))
    ensures Keeps(env, ExecBranches(m, bs, env, w), n, name)
    decreases bs, 0
  {
    hide EvalExpr, ExecScope, TouchesBlock;
    match bs
    case NoElse =>
    case Else(body) => ScopeKeeps(m, body, env, w, n, name);
    case Branch(cond, body, rest) =>
      var c := EvalExpr(m, cond, env, 0, w);
      if c.Val? {
        ScopeKeeps(m, body, env, c.w, n, name);
        BranchesKeep(m, rest, env, c.w, n, name);
      }
  }

  lemma {:induction false} WhileKeeps(m: Machine, cond: Expr, body: Block, env: Env, w: World, rounds: nat, n: nat, name: string)
    requires Guarded(env, n, name, TouchesBlock(body, name)) && rounds <= m.limits.maxLoopIterations
    ensures Keeps(env, WhileLoop(m, cond, body, env, w, rounds), n, name)
    decreases body, 2 + m.limits.maxLoopIterations - rounds
  {
    hide EvalExpr, ExecScope, TouchesBlock;
    var c := EvalExpr(m, cond, env, 0, w);
    if c.Val? && Truthy(c.v) {
      ScopeKeeps(m, body, env, c.w, n, name);
      var x := ExecScope(m, body, env, c.w);
      if x.Norm? && rounds < m.limits.maxLoopIterations {
        GuardedOn(env, x.env, n, name, TouchesBlock(body, name));
        WhileKeeps(m, cond, body, x.env, x.w, rounds + 1, n, name);
        var y := WhileLoop(m, cond, body, x.env, x.w, rounds + 1);
        if y.Norm? {
          KeptTwice(env, x.env, y.env, n, name);
        }
      }
    }
  }

  /** Writing a variable beyond the first `n`. */
  lemma WrittenKept(env: Env, env': Env, n: nat, name: string, at: nat, v: Value)
    requires Kept(env, env', n, name) && n <= at < |env'|
    ensures Kept(env, env'[at := env'[at].(value := v)], n, name)
  {
  }

  lemma {:induction false} RangeLoopKeeps(m: Machine, body: Block, env: Env, w: World, rounds: nat, n: nat, name: string)
    requires Guarded(env, n, name, TouchesBlock(body, name)) && rounds <= m.limits.maxLoopIterations && n + 2 <= |env|
    ensures Keeps(env, RangeLoop(m, body, env, w, rounds), n, name)
    decreases body, 2 + m.limits.maxLoopIterations - rounds
  {
    hide ExecScope, TouchesBlock, Kept;
    assert Kept(env, env, n, name) by {
      KeptSelf(env, n, name);
    }
    ScopeKeeps(m, body, env, w, n, name);
    var x := ExecScope(m, body, env, w);
    if x.Norm? {
      var at := |env| - 1;
      var sum := m.host.binary(Add, x.env[at].value, Int(1));
      if sum.Ok? && rounds < m.limits.maxLoopIterations {
        var env' := x.env[at := x.env[at].(value := sum.value)];
        WrittenKept(env, x.env, n, name, at, sum.value);
        GuardedOn(env, env', n, name, TouchesBlock(body, name));
        RangeLoopKeeps(m, body, env', x.w, rounds + 1, n, name);
        var y := RangeLoop(m, body, env', x.w, rounds + 1);
        if y.Norm? {
          KeptTwice(env, env', y.env, n, name);
        }
      }
    }
  }

  lemma KeptSelf(env: Env, n: nat, name: string)
    requires n <= |env|
    ensures Kept(env, env, n, name)
  {
  }

  /** Inner variables come and go. */
  lemma InnerKeeps(env: Env, inner: Env, x: Exec, n: nat, name: string)
    requires env <= inner && n <= |env| && Keeps(inner, x, n, name)
    ensures Keeps(env, Leave(x, |env|), n, name)
  {
  }

  lemma GuardedMore(env: Env, more: Env, n: nat, name: string, touches: bool, outer: bool)
    requires Guarded(env, n, name, outer) && (touches && !outer ==> exists b :: b in more && b.name == name)
    ensures Guarded(env + more, n, name, touches)
  {
    if touches {
      if outer {
        var j :| n <= j < |env| && env[j].name == name;
        assert (env + more)[j].name == name;
      } else {
        var b :| b in more && b.name == name;
        var j :| 0 <= j < |more| && more[j] == b;
        assert (env + more)[|env| + j].name == name;
      }
    }
  }

  lemma {:induction false} RangeKeeps(m: Machine, x: string, start: Expr, end: Expr, body: Block, env: Env, w: World, n: nat, name: string)
    requires Guarded(env, n, name, Touches(ForRange(x, start, end, body), name))
    ensures Keeps(env, ExecRange(m, x, start, end, body, env, w), n, name)
    decreases body, 3 + m.limits.maxLoopIterations
  {
    hide EvalExpr, RangeLoop, TouchesBlock, Kept;
    var hi := EvalExpr(m, end, env, 0, w);
    if hi.Val? {
      var env1 := env + [Binding("__range_end__", hi.v)];
      var lo := EvalExpr(m, start, env1, 0, hi.w);
      if lo.Val? {
        var more := [Binding("__range_end__", hi.v), Binding(x, lo.v)];
        assert more[0] in more && more[1] in more;
        GuardedMore(env, more, n, name, TouchesBlock(body, name), Touches(ForRange(x, start, end, body), name));
        assert env1 + [Binding(x, lo.v)] == env + more;
        RangeLoopKeeps(m, body, env + more, lo.w, 0, n, name);
        InnerKeeps(env, env + more, RangeLoop(m, body, env + more, lo.w, 0), n, name);
      }
    }
  }

  lemma {:induction false} InLoopKeeps(m: Machine, x: string, body: Block, env: Env, w: World, rounds: nat, n: nat, name: string)
    requires Guarded(env, n, name, name != x && TouchesBlock(body, name)) && rounds <= m.limits.maxLoopIterations && n + 2 <= |env|
    ensures Keeps(env, InLoop(m, x, body, env, w, rounds), n, name)
    decreases body, 2 + m.limits.maxLoopIterations - rounds
  {
    hide ExecBlock, TouchesBlock, Kept;
    KeptSelf(env, n, name);
    var at := |env| - 1;
    var item := Binding(x, Item(env[at - 1].value, env[at].value));
    assert item in [item];
    GuardedMore(env, [item], n, name, TouchesBlock(body, name), name != x && TouchesBlock(body, name));
    BlockKeeps(m, body, env + [item], w, n, name);
    InnerKeeps(env, env + [item], ExecBlock(m, body, env + [item], w), n, name);
    var r := Leave(ExecBlock(m, body, env + [item], w), |env|);
    if r.Norm? {
      var sum := m.host.binary(Add, r.env[at].value, Int(1));
      if sum.Ok? && rounds < m.limits.maxLoopIterations {
        var env' := r.env[at := r.env[at].(value := sum.value)];
        WrittenKept(env, r.env, n, name, at, sum.value);
        GuardedOn(env, env', n, name, name != x && TouchesBlock(body, name));
        InLoopKeeps(m, x, body, env', r.w, rounds + 1, n, name);
        var y := InLoop(m, x, body, env', r.w, rounds + 1);
        if y.Norm? {
          KeptTwice(env, env', y.env, n, name);
        }
      }
    }
  }

  lemma {:induction false} InKeeps(m: Machine, x: string, iterable: Expr, body: Block, env: Env, w: World, n: nat, name: string)
    requires Guarded(env, n, name, Touches(ForIn(x, iterable, body), name))
    ensures Keeps(env, ExecIn(m, x, iterable, body, env, w), n, name)
    decreases body, 3 + m.limits.maxLoopIterations
  {
    hide EvalExpr, InLoop, TouchesBlock, Kept;
    var l := EvalExpr(m, iterable, env, 0, w);
    if l.Val? {
      var more := [Binding("__list__", l.v), Binding("__idx__", Int(0))];
      assert more[0] in more && more[1] in more;
      GuardedMore(env, more, n, name, name != x && TouchesBlock(body, name), Touches(ForIn(x, iterable, body), name));
      InLoopKeeps(m, x, body, env + more, l.w, 0, n, name);
      InnerKeeps(env, env + more, InLoop(m, x, body, env + more, l.w, 0), n, name);
    }
  }

  // ---------- The compiler refuses to assign what is not mutable ----------

  /** The innermost variable of this name is not mutable. */
  ghost predicate Fixed(locals: seq<Local>, name: string) {
    var i := Resolve(locals, name); i < |locals| && !locals[i].mutable
  }

  lemma FixedMore(locals: seq<Local>, l: Local, name: string)
    requires l.name != name
    ensures Resolve(locals, name) < |locals| ==> Resolve(locals + [l], name) == Resolve(locals, name)
  {
    assert (locals + [l])[..|locals|] == locals;
  }

  lemma {:induction false} StmtLeaves(h: Host, s: Stmt, locals: seq<Local>, pool: seq<Constant>, next: nat, name: string)
    requires GenStmt(h, s, locals, pool, next).Some? && Fixed(locals, name)
    ensures !Touches(s, name)
    decreases s, 0
  {
    hide GenExpr, GenBlock, GenRange, GenIn, TouchesBlock, WhileCode;
    match s
    case If(branches) => BranchesLeave(h, branches, locals, pool, next, name);
    case ForRange(x, start, end, body) => RangeLeaves(h, x, start, end, body, locals, pool, next, name);
    case ForIn(x, iterable, body) => InLeaves(h, x, iterable, body, locals, pool, next, name);
    case While(cond, body) => BlockLeaves(h, body, locals, GenExpr(h, cond, locals, pool).value.pool, next, name);
    case _ =>
  }

  lemma {:induction false} RangeLeaves(h: Host, x: string, start: Expr, end: Expr, body: Block,
                                       locals: seq<Local>, pool: seq<Constant>, next: nat, name: string)
    requires GenRange(h, x, start, end, body, locals, pool, next).Some? && Fixed(locals, name)
    ensures name == "__range_end__" || name == x || !TouchesBlock(body, name)
    decreases body, 1
  {
    hide GenExpr, GenBlock, TouchesBlock, AddConst, RangeCode, Resolve;
    if name != "__range_end__" && name != x {
      var ga := GenExpr(h, end, locals, pool).value;
      var locals1 := locals + [Local("__range_end__", next, false)];
      var gb := GenExpr(h, start, locals1, ga.pool).value;
      FixedMore(locals, Local("__range_end__", next, false), name);
      FixedMore(locals1, Local(x, next + 1, false), name);
      BlockLeaves(h, body, locals1 + [Local(x, next + 1, false)], gb.pool, next + 2, name);
    }
  }

  lemma {:induction false} InLeaves(h: Host, x: string, iterable: Expr, body: Block,
                                    locals: seq<Local>, pool: seq<Constant>, next: nat, name: string)
    requires GenIn(h, x, iterable, body, locals, pool, next).Some? && Fixed(locals, name)
    ensures name == "__list__" || name == "__idx__" || name == x || !TouchesBlock(body, name)
    decreases body, 1
  {
    hide GenExpr, GenBlock, TouchesBlock, AddConst, InCode, Resolve;
    if name != "__list__" && name != "__idx__" && name != x {
      var ga := GenExpr(h, iterable, locals, pool).value;
      var zero := AddConst(ga.pool, IntConst(0)).value.1;
      var list, idx, item := Local("__list__", next, false), Local("__idx__", next + 1, true), Local(x, next + 2, false);
      FixedMore(locals, list, name);
      FixedMore(locals + [list], idx, name);
      FixedMore(locals + [list] + [idx], item, name);
      assert locals + [list] + [idx] + [item] == locals + [list, idx, item];
      BlockLeaves(h, body, locals + [list, idx, item], zero, next + 3, name);
    }
  }

  lemma {:induction false} BlockLeaves(h: Host, b: Block, locals: seq<Local>, pool: seq<Constant>, next: nat, name: string)
    requires GenBlock(h, b, locals, pool, next).Some? && Fixed(locals, name)
    ensures !TouchesBlock(b, name)
    decreases b, 0
  {
    hide GenStmt, Touches;
    match b
    case Empty =>
    case Seq(s, rest) =>
      StmtLeaves(h, s, locals, pool, next, name);
      var g := GenStmt(h, s, locals, pool, next).value;
      if !(s.Let? && s.name == name) {
        if s.Let? {
          LetDeclares(h, s, locals, pool, next);
          FixedMore(locals, g.locals[|locals|], name);
        }
        BlockLeaves(h, rest, g.locals, g.pool, g.next, name);
      }
  }

  lemma LetDeclares(h: Host, s: Stmt, locals: seq<Local>, pool: seq<Constant>, next: nat)
    requires s.Let? && GenStmt(h, s, locals, pool, next).Some?
    ensures var g := GenStmt(h, s, locals, pool, next).value;
      |g.locals| == |locals| + 1 && g.locals == locals + [g.locals[|locals|]] && g.locals[|locals|].name == s.name
  {
    hide GenExpr;
  }

  lemma {:induction false} BranchesLeave(h: Host, bs: Branches, locals: seq<Local>, pool: seq<Constant>, next: nat, name: string)
    requires GenBranches(h, bs, locals, pool, next).Some? && Fixed(locals, name)
    ensures !TouchesBranches(bs, name)
    decreases bs, 0
  {
    hide GenExpr, GenBlock, TouchesBlock;
    match bs
    case NoElse =>
    case Else(body) => BlockLeaves(h, body, locals, pool, next, name);
    case Branch(cond, body, rest) =>
      var ga := GenExpr(h, cond, locals, pool).value;
      var gb := GenBlock(h, body, locals, ga.pool, next).value;
      BlockLeaves(h, body, locals, ga.pool, next, name);
      BranchesLeave(h, rest, locals, gb.pool, gb.next, name);
  }

  // ---------- Counting ----------

  const I64_MAX: int := 0x7FFF_FFFF_FFFF_FFFF
  const I64_MIN: int := -0x8000_0000_0000_0000

  /** Comparison and increment of 64-bit integers. */
  ghost predicate Counts(h: Host) {
    (forall a, b :: I64_MIN <= a <= I64_MAX && I64_MIN <= b <= I64_MAX ==> h.binary(Lt, Int(a), Int(b)) == Ok(Bool(a < b))) &&
    (forall a :: I64_MIN <= a < I64_MAX ==> h.binary(Add, Int(a), Int(1)) == Ok(Int(a + 1)))
  }

  lemma Compared(h: Host, a: int, b: int)
    requires Counts(h) && I64_MIN <= a <= I64_MAX && I64_MIN <= b <= I64_MAX
    ensures h.binary(Lt, Int(a), Int(b)) == Ok(Bool(a < b)) && (a < b ==> h.binary(Add, Int(a), Int(1)) == Ok(Int(a + 1)))
  {
  }

  // ---------- Ranges ----------

  function RangeBindings(x: string, i: int, hi: int): Env { [Binding("__range_end__", Int(hi)), Binding(x, Int(i))] }

  /** The body for each number from `i` to `hi - 1`, in this order. */
  function EachNumber(m: Machine, x: string, body: Block, env: Env, i: int, hi: int, w: World, rounds: nat): Exec
    requires rounds <= m.limits.maxLoopIterations
    decreases m.limits.maxLoopIterations - rounds
  {
    if i >= hi then Norm(env, w, 5)
    else
      var r := Leave(ExecBlock(m, body, env + RangeBindings(x, i, hi), w), |env|);
      if !r.Norm? then AddCost(r, 4)
      else if rounds == m.limits.maxLoopIterations then Abort(LoopLimitExceeded, r.w, r.cost + 9)
      else AddCost(EachNumber(m, x, body, r.env, i + 1, hi, r.w, rounds + 1), r.cost + 9)
  }

  /** A body that leaves end and loop variable alone brings them back unchanged. */
  lemma RangeBodyKeeps(m: Machine, x: string, body: Block, env: Env, i: int, hi: int, w: World)
    requires !TouchesBlock(body, "__range_end__") && !TouchesBlock(body, x)
    ensures var inner := ExecBlock(m, body, env + RangeBindings(x, i, hi), w);
      inner.Norm? ==> inner.env[..|env| + 2] == inner.env[..|env|] + RangeBindings(x, i, hi)
  {
    hide ExecBlock, TouchesBlock;
    var env2 := env + RangeBindings(x, i, hi);
    BlockKeeps(m, body, env2, w, |env| + 2, "__range_end__");
    BlockKeeps(m, body, env2, w, |env| + 2, x);
    var inner := ExecBlock(m, body, env2, w);
    if inner.Norm? {
      assert inner.env[|env|] == env2[|env|] && inner.env[|env| + 1] == env2[|env| + 1];
    }
  }

  /** One more round, from what the body does. */
  lemma RangeRound(m: Machine, x: string, body: Block, env: Env, i: int, hi: int, w: World, rounds: nat)
    requires Counts(m.host) && I64_MIN <= i < hi <= I64_MAX
    requires m.limits.maxStackDepth >= 2 && rounds <= m.limits.maxLoopIterations
    requires !TouchesBlock(body, "__range_end__") && !TouchesBlock(body, x)
    ensures var r := Leave(ExecBlock(m, body, env + RangeBindings(x, i, hi), w), |env|);
      RangeLoop(m, body, env + RangeBindings(x, i, hi), w, rounds) ==
        if !r.Norm? then AddCost(r, 4)
        else if rounds == m.limits.maxLoopIterations then Abort(LoopLimitExceeded, r.w, r.cost + 9)
        else AddCost(RangeLoop(m, body, r.env + RangeBindings(x, i + 1, hi), r.w, rounds + 1), r.cost + 9)
  {
    hide ExecBlock, TouchesBlock, Counts;
    Compared(m.host, i, hi);
    RangeBodyKeeps(m, x, body, env, i, hi, w);
    var inner := ExecBlock(m, body, env + RangeBindings(x, i, hi), w);
    if inner.Norm? {
      var outer := inner.env[..|env|];
      assert (outer + RangeBindings(x, i, hi))[|env| + 1 := Binding(x, Int(i + 1))] == outer + RangeBindings(x, i + 1, hi);
    }
  }

  lemma RangeEnds(m: Machine, x: string, body: Block, env: Env, i: int, hi: int, w: World, rounds: nat)
    requires Counts(m.host) && I64_MIN <= hi <= i <= I64_MAX && m.limits.maxStackDepth >= 2 && rounds <= m.limits.maxLoopIterations
    ensures RangeLoop(m, body, env + RangeBindings(x, i, hi), w, rounds) == Norm(env + RangeBindings(x, i, hi), w, 5)
  {
    hide ExecBlock, Counts;
    Compared(m.host, i, hi);
  }

  lemma {:induction false} RangeLoopCounts(m: Machine, x: string, body: Block, env: Env, i: int, hi: int, w: World, rounds: nat)
    requires Counts(m.host) && I64_MIN <= i <= I64_MAX && I64_MIN <= hi <= I64_MAX
    requires m.limits.maxStackDepth >= 2 && rounds <= m.limits.maxLoopIterations
    requires !TouchesBlock(body, "__range_end__") && !TouchesBlock(body, x)
    ensures Leave(RangeLoop(m, body, env + RangeBindings(x, i, hi), w, rounds), |env|) ==
      EachNumber(m, x, body, env, i, hi, w, rounds)
    decreases m.limits.maxLoopIterations - rounds
  {
    hide ExecBlock, TouchesBlock, Counts, RangeLoop, RangeBindings;
    if i < hi {
      RangeRound(m, x, body, env, i, hi, w, rounds);
      var r := Leave(ExecBlock(m, body, env + RangeBindings(x, i, hi), w), |env|);
      if r.Norm? && rounds < m.limits.maxLoopIterations {
        RangeLoopCounts(m, x, body, r.env, i + 1, hi, r.w, rounds + 1);
      }
    } else {
      RangeEnds(m, x, body, env, i, hi, w, rounds);
      assert (env + RangeBindings(x, i, hi))[..|env|] == env;
    }
  }

  /** In an accepted program `for x in lo..hi` runs its body once for each number from `lo` to `hi - 1`, in order,
      the end having been evaluated once and first. */
  lemma RangeVisits(m: Machine, x: string, start: Expr, end: Expr, body: Block, env: Env, w: World,
                    locals: seq<Local>, pool: seq<Constant>, next: nat)
    requires Counts(m.host) && m.limits.maxStackDepth >= 2 && GenRange(m.host, x, start, end, body, locals, pool, next).Some?
    ensures var hi := EvalExpr(m, end, env, 0, w);
      hi.Val? ==>
      var lo := EvalExpr(m, start, env + [Binding("__range_end__", hi.v)], 0, hi.w);
      lo.Val? && hi.v.Int? && lo.v.Int? && I64_MIN <= lo.v.n <= I64_MAX && I64_MIN <= hi.v.n <= I64_MAX ==>
      ExecRange(m, x, start, end, body, env, w) ==
        AddCost(EachNumber(m, x, body, env, lo.v.n, hi.v.n, lo.w, 0), hi.cost + lo.cost + 3)
  {
    hide EvalExpr, RangeLoop, EachNumber, TouchesBlock, Counts, GenRange, Leave;
    RangeBodyFixed(m.host, x, start, end, body, locals, pool, next);
    var hi := EvalExpr(m, end, env, 0, w);
    if hi.Val? {
      var lo := EvalExpr(m, start, env + [Binding("__range_end__", hi.v)], 0, hi.w);
      if lo.Val? && hi.v.Int? && lo.v.Int? && I64_MIN <= lo.v.n <= I64_MAX && I64_MIN <= hi.v.n <= I64_MAX {
        assert env + [Binding("__range_end__", hi.v)] + [Binding(x, lo.v)] == env + RangeBindings(x, lo.v.n, hi.v.n);
        RangeLoopCounts(m, x, body, env, lo.v.n, hi.v.n, lo.w, 0);
      }
    }
  }

  lemma RangeBodyFixed(h: Host, x: string, start: Expr, end: Expr, body: Block, locals: seq<Local>, pool: seq<Constant>, next: nat)
    requires GenRange(h, x, start, end, body, locals, pool, next).Some?
    ensures !TouchesBlock(body, "__range_end__") && !TouchesBlock(body, x)
  {
    hide GenExpr, GenBlock, TouchesBlock, AddConst;
    var ga := GenExpr(h, end, locals, pool).value;
    var locals1 := locals + [Local("__range_end__", next, false)];
    var gb := GenExpr(h, start, locals1, ga.pool).value;
    var locals2 := locals1 + [Local(x, next + 1, false)];
    BlockLeaves(h, body, locals2, gb.pool, next + 2, x);
    if x != "__range_end__" {
      FixedMore(locals1, Local(x, next + 1, false), "__range_end__");
      BlockLeaves(h, body, locals2, gb.pool, next + 2, "__range_end__");
    }
  }

  // ---------- Lists ----------

  function ListBindings(items: seq<string>, k: nat): Env { [Binding("__list__", List(items)), Binding("__idx__", Int(k))] }

  /** The body for each item from the `k`-th on, in order. */
  function EachItem(m: Machine, x: string, body: Block, env: Env, items: seq<string>, k: nat, w: World): Exec
    requires k <= |items| && k <= m.limits.maxLoopIterations
    decreases |items| - k
  {
    if k == |items| then Norm(env, w, 6)
    else
      var r := Leave(ExecBlock(m, body, env + ListBindings(items, k) + [Binding(x, Str(items[k]))], w), |env|);
      if !r.Norm? then AddCost(r, 9)
      else if k == m.limits.maxLoopIterations then Abort(LoopLimitExceeded, r.w, r.cost + 14)
      else AddCost(EachItem(m, x, body, r.env, items, k + 1, r.w), r.cost + 14)
  }

  /** Nothing in the body assigns the hidden index. */
  predicate LeavesIndex(x: string, body: Block) { x == "__idx__" || !TouchesBlock(body, "__idx__") }

  lemma ListBodyKeeps(m: Machine, x: string, body: Block, env: Env, items: seq<string>, k: nat, w: World)
    requires k < |items| && LeavesIndex(x, body) && (x == "__list__" || !TouchesBlock(body, "__list__"))
    ensures var inner := ExecBlock(m, body, env + ListBindings(items, k) + [Binding(x, Str(items[k]))], w);
      inner.Norm? ==> |inner.env| >= |env| + 3 && inner.env[..|env| + 2] == inner.env[..|env|] + ListBindings(items, k)
  {
    hide ExecBlock, TouchesBlock;
    var env3 := env + ListBindings(items, k) + [Binding(x, Str(items[k]))];
    assert env3[|env| + 2].name == x;
    BlockKeeps(m, body, env3, w, |env| + 2, "__list__");
    BlockKeeps(m, body, env3, w, |env| + 2, "__idx__");
    var inner := ExecBlock(m, body, env3, w);
    if inner.Norm? {
      assert inner.env[|env|] == env3[|env|] && inner.env[|env| + 1] == env3[|env| + 1];
    }
  }

  /** One more round, from what the body does. */
  lemma ListRound(m: Machine, x: string, body: Block, env: Env, items: seq<string>, k: nat, w: World)
    requires Counts(m.host) && k < |items| <= I64_MAX && k <= m.limits.maxLoopIterations && m.limits.maxStackDepth >= 2
    requires LeavesIndex(x, body) && (x == "__list__" || !TouchesBlock(body, "__list__"))
    ensures var r := Leave(ExecBlock(m, body, env + ListBindings(items, k) + [Binding(x, Str(items[k]))], w), |env|);
      InLoop(m, x, body, env + ListBindings(items, k), w, k) ==
        if !r.Norm? then AddCost(r, 9)
        else if k == m.limits.maxLoopIterations then Abort(LoopLimitExceeded, r.w, r.cost + 14)
        else AddCost(InLoop(m, x, body, r.env + ListBindings(items, k + 1), r.w, k + 1), r.cost + 14)
  {
    hide ExecBlock, LeavesIndex, TouchesBlock, Counts;
    Compared(m.host, k, |items|);
    ListBodyKeeps(m, x, body, env, items, k, w);
    var inner := ExecBlock(m, body, env + ListBindings(items, k) + [Binding(x, Str(items[k]))], w);
    if inner.Norm? {
      var outer := inner.env[..|env|];
      assert (outer + ListBindings(items, k))[|env| + 1 := Binding("__idx__", Int(k + 1))] == outer + ListBindings(items, k + 1);
    }
  }

  lemma ListEnds(m: Machine, x: string, body: Block, env: Env, items: seq<string>, w: World)
    requires Counts(m.host) && |items| <= I64_MAX && |items| <= m.limits.maxLoopIterations && m.limits.maxStackDepth >= 2
    ensures InLoop(m, x, body, env + ListBindings(items, |items|), w, |items|) == Norm(env + ListBindings(items, |items|), w, 6)
  {
    hide ExecBlock, Counts;
    Compared(m.host, |items|, |items|);
  }

  lemma {:induction false} InLoopVisits(m: Machine, x: string, body: Block, env: Env, items: seq<string>, k: nat, w: World)
    requires Counts(m.host) && |items| <= I64_MAX && k <= |items| && k <= m.limits.maxLoopIterations && m.limits.maxStackDepth >= 2
    requires LeavesIndex(x, body) && (x == "__list__" || !TouchesBlock(body, "__list__"))
    ensures Leave(InLoop(m, x, body, env + ListBindings(items, k), w, k), |env|) == EachItem(m, x, body, env, items, k, w)
    decreases |items| - k
  {
    hide ExecBlock, LeavesIndex, TouchesBlock, Counts, InLoop, ListBindings;
    if k < |items| {
      ListRound(m, x, body, env, items, k, w);
      var r := Leave(ExecBlock(m, body, env + ListBindings(items, k) + [Binding(x, Str(items[k]))], w), |env|);
      if r.Norm? && k < m.limits.maxLoopIterations {
        InLoopVisits(m, x, body, r.env, items, k + 1, r.w);
      }
    } else {
      ListEnds(m, x, body, env, items, w);
      assert (env + ListBindings(items, k))[..|env|] == env;
    }
  }

  lemma InBodyFixed(h: Host, x: string, iterable: Expr, body: Block, locals: seq<Local>, pool: seq<Constant>, next: nat)
    requires GenIn(h, x, iterable, body, locals, pool, next).Some?
    ensures x == "__list__" || !TouchesBlock(body, "__list__")
  {
    hide GenExpr, GenBlock, TouchesBlock, AddConst, InCode;
    if x != "__list__" {
      var zero := AddConst(GenExpr(h, iterable, locals, pool).value.pool, IntConst(0)).value.1;
      var list, idx, item := Local("__list__", next, false), Local("__idx__", next + 1, true), Local(x, next + 2, false);
      FixedMore(locals + [list], idx, "__list__");
      FixedMore(locals + [list] + [idx], item, "__list__");
      assert locals + [list] + [idx] + [item] == locals + [list, idx, item];
      BlockLeaves(h, body, locals + [list, idx, item], zero, next + 3, "__list__");
    }
  }

  /** In an accepted program that does not assign the hidden index, `for x in list` runs its body once for each item,
      in order; on anything that is not a list it does not run at all. */
  lemma ListVisits(m: Machine, x: string, iterable: Expr, body: Block, env: Env, w: World,
                   locals: seq<Local>, pool: seq<Constant>, next: nat)
    requires Counts(m.host) && m.limits.maxStackDepth >= 2 && GenIn(m.host, x, iterable, body, locals, pool, next).Some?
    requires LeavesIndex(x, body)
    ensures var l := EvalExpr(m, iterable, env, 0, w);
      l.Val? && (l.v.List? ==> |l.v.items| <= I64_MAX) ==>
      ExecIn(m, x, iterable, body, env, w) ==
        AddCost(if l.v.List? then EachItem(m, x, body, env, l.v.items, 0, l.w) else Norm(env, l.w, 6), l.cost + 4)
  {
    hide EvalExpr, EachItem, InLoop, LeavesIndex, TouchesBlock, Counts, GenIn, Leave;
    InBodyFixed(m.host, x, iterable, body, locals, pool, next);
    var l := EvalExpr(m, iterable, env, 0, w);
    if l.Val? {
      if l.v.List? {
        if |l.v.items| <= I64_MAX {
          assert env + [Binding("__list__", l.v), Binding("__idx__", Int(0))] == env + ListBindings(l.v.items, 0);
          InLoopVisits(m, x, body, env, l.v.items, 0, l.w);
        }
      } else {
        NotAList(m, x, body, env, l.v, l.w);
      }
    }
  }

  lemma NotAList(m: Machine, x: string, body: Block, env: Env, v: Value, w: World)
    requires Counts(m.host) && m.limits.maxStackDepth >= 2 && !v.List?
    ensures Leave(InLoop(m, x, body, env + [Binding("__list__", v), Binding("__idx__", Int(0))], w, 0), |env|) == Norm(env, w, 6)
  {
    hide ExecBlock, Counts;
    Compared(m.host, 0, 0);
    assert (env + [Binding("__list__", v), Binding("__idx__", Int(0))])[..|env|] == env;
  }

  // ---------- A script that assigns the hidden index ----------

  /** `__idx__ = 5`. */
  const SKIPPING: Block := Seq(Assign("__idx__", Literal(Int(5))), Empty)

  /** `for x in l { __idx__ = 5 }`. */
  const SKIPPING_LOOP: Stmt := ForIn("x", Ident("l"), SKIPPING)

  lemma SkippingBody(m: Machine, env: Env, list: Value, k: nat, item: Value, w: World)
    requires m.limits.maxStackDepth >= 2
    ensures ExecBlock(m, SKIPPING, env + [Binding("__list__", list), Binding("__idx__", Int(k))] + [Binding("x", item)], w) ==
      Norm(env + [Binding("__list__", list), Binding("__idx__", Int(5))] + [Binding("x", item)], w, 2)
  {
    var inner := env + [Binding("__list__", list), Binding("__idx__", Int(k))] + [Binding("x", item)];
    assert "x" != "__idx__";
    assert Find(inner, "__idx__") == |env| + 1;
    assert inner[|env| + 1 := Binding("__idx__", Int(5))] ==
      env + [Binding("__list__", list), Binding("__idx__", Int(5))] + [Binding("x", item)];
  }

  /** The fold over the items would run the body once for each. */
  lemma {:induction false} SkippingFold(m: Machine, env: Env, items: seq<string>, k: nat, w: World)
    requires k <= |items| <= m.limits.maxLoopIterations && m.limits.maxStackDepth >= 2
    ensures EachItem(m, "x", SKIPPING, env, items, k, w) == Norm(env, w, 6 + 16 * (|items| - k))
    decreases |items| - k
  {
    hide ExecBlock;
    if k < |items| {
      SkippingBody(m, env, List(items), k, Str(items[k]), w);
      assert (env + [Binding("__list__", List(items)), Binding("__idx__", Int(5))] + [Binding("x", Str(items[k]))])[..|env|] == env;
      SkippingFold(m, env, items, k + 1, w);
    }
  }

  /** The loop goes on at index 6. */
  lemma SkippingRound(m: Machine, env: Env, items: seq<string>, w: World)
    requires Counts(m.host) && 1 <= |items| <= 6 && m.limits.maxStackDepth >= 2 && m.limits.maxLoopIterations >= 1
    ensures Leave(InLoop(m, "x", SKIPPING, env + ListBindings(items, 0), w, 0), |env|) == Norm(env, w, 22)
  {
    hide ExecBlock, Counts;
    Compared(m.host, 0, |items|);
    Compared(m.host, 5, 6);
    Compared(m.host, 6, |items|);
    SkippingBody(m, env, List(items), 0, Str(items[0]), w);
    var after := env + [Binding("__list__", List(items)), Binding("__idx__", Int(5))];
    assert (after + [Binding("x", Str(items[0]))])[..|env| + 2] == after;
    var next := after[|env| + 1 := Binding("__idx__", Int(6))];
    assert InLoop(m, "x", SKIPPING, next, w, 1) == Norm(next, w, 6);
    assert next[..|env|] == env;
  }

  lemma SkippingBodyAccepted(h: Host, locals: seq<Local>, pool: seq<Constant>, next: nat)
    requires |pool| < MAX_CONSTANTS && Resolve(locals, "__idx__") < |locals| && locals[Resolve(locals, "__idx__")].mutable
    ensures var g := GenBlock(h, SKIPPING, locals, pool, next); g.Some? && |g.value.pool| <= |pool| + 1
  {
  }

  lemma IndexResolves(locals: seq<Local>, next: nat)
    ensures Resolve(locals + [Local("__list__", next, false), Local("__idx__", next + 1, true), Local("x", next + 2, false)], "__idx__") ==
      |locals| + 1
  {
    assert "x" != "__idx__";
  }

  lemma SkippingAccepted(h: Host, locals: seq<Local>, pool: seq<Constant>, next: nat)
    requires Resolve(locals, "l") < |locals| && next + 2 < MAX_SLOTS && |pool| + 3 <= MAX_CONSTANTS
    ensures GenStmt(h, SKIPPING_LOOP, locals, pool, next).Some?
  {
    hide GenBlock, InCode, Resolve;
    IndexResolves(locals, next);
    var locals3 := locals + [Local("__list__", next, false), Local("__idx__", next + 1, true), Local("x", next + 2, false)];
    var zero := AddConst(pool, IntConst(0)).value.1;
    SkippingBodyAccepted(h, locals3, zero, next + 3);
  }

  /** The compiler accepts the loop, and of a list of two to six items it visits the first only. */
  lemma IndexCanBeAssigned(m: Machine, items: seq<string>, env: Env, w: World)
    requires Counts(m.host) && 2 <= |items| <= 6 && m.limits.maxStackDepth >= 2 && m.limits.maxLoopIterations >= 6
    requires Find(env, "l") < |env| && env[Find(env, "l")].value == List(items)
    ensures GenStmt(m.host, SKIPPING_LOOP, [Local("l", 0, false)], [], 1).Some? && !LeavesIndex("x", SKIPPING)
    ensures ExecStmt(m, SKIPPING_LOOP, env, w) == Norm(env, w, 27)
    ensures ExecStmt(m, SKIPPING_LOOP, env, w) != AddCost(EachItem(m, "x", SKIPPING, env, items, 0, w), 5)
  {
    hide InLoop, EachItem, Counts, GenStmt;
    SkippingAccepted(m.host, [Local("l", 0, false)], [], 1);
    SkippingFold(m, env, items, 0, w);
    SkippingRound(m, env, items, w);
  }
}
