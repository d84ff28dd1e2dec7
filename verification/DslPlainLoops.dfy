// Bodies that do not mention the hidden variables run as if these were not there, so loops are plain folds.

module DslPlainLoops {
  import opened Common
  import opened DslSyntax
  import opened DslSemantics
  import opened DslCompiler
  import opened DslLoops

  // ---------- Names a script mentions ----------

  predicate ExprFree(e: Expr, names: set<string>)
    decreases e
  {
    match e
    case Literal(_) => true
    case Ident(x) => x !in names
    case ShortCircuit(_, l, r) => ExprFree(l, names) && ExprFree(r, names)
    case Operate(_, operands) => ArgsFree(operands, names)
  }

  predicate ArgsFree(args: Args, names: set<string>)
    decreases args
  {
    match args case NoArgs => true case Arg(e, rest) => ExprFree(e, names) && ArgsFree(rest, names)
  }

  predicate StmtFree(s: Stmt, names: set<string>)
    decreases s
  {
    match s
    case Let(_, _, e) => ExprFree(e, names)
    case Assign(target, e) => target !in names && ExprFree(e, names)
    case If(branches) => BranchesFree(branches, names)
    case ForRange(_, start, end, body) => ExprFree(start, names) && ExprFree(end, names) && BlockFree(body, names)
    case ForIn(_, iterable, body) => ExprFree(iterable, names) && BlockFree(body, names)
    case While(cond, body) => ExprFree(cond, names) && BlockFree(body, names)
    case ReturnDeny(status, message) => ExprFree(status, names) && ExprFree(message, names)
    case ReturnNext => true
    case ExprStmt(e) => ExprFree(e, names)
  }

  predicate BlockFree(b: Block, names: set<string>)
    decreases b
  {
    match b case Empty => true case Seq(s, rest) => StmtFree(s, names) && BlockFree(rest, names)
  }

  predicate BranchesFree(bs: Branches, names: set<string>)
    decreases bs
  {
    match bs
    case NoElse => true
    case Else(body) => BlockFree(body, names)
    case Branch(cond, body, rest) => ExprFree(cond, names) && BlockFree(body, names) && BranchesFree(rest, names)
  }

  // ---------- Environments with more variables ----------

  /** Variables `more` slipped in at position `p`. */
  function Widened(env: Env, p: nat, more: Env): Env
    requires p <= |env|
  {
    env[..p] + more + env[p..]
  }

  function WidenExec(x: Exec, p: nat, more: Env): Exec {
    match x
    case Norm(env, w, c) => if p <= |env| then Norm(Widened(env, p, more), w, c) else x
    case _ => x
  }

  ghost predicate Named(more: Env, names: set<string>) { forall b :: b in more ==> b.name in names }

  lemma {:induction false} FindAppended(env: Env, more: Env, name: string)
    requires forall b :: b in more ==> b.name != name
    ensures Find(env + more, name) == if Find(env, name) == |env| then |env| + |more| else Find(env, name)
  {
    var all := env + more;
    if more == [] {
      assert all == env;
    } else {
      var n := |more| - 1;
      assert all[..|all| - 1] == env + more[..n];
      assert more[n] in more;
      FindAppended(env, more[..n], name);
    }
  }

  /** Position in a wider environment. */
  function Moved(i: nat, p: nat, n: nat): nat { if i < p then i else i + n }

  lemma {:induction false} FindWidened(env: Env, p: nat, more: Env, names: set<string>, name: string)
    requires p <= |env| && Named(more, names) && name !in names
    ensures Find(Widened(env, p, more), name) == Moved(Find(env, name), p, |more|)
  {
    var wide := Widened(env, p, more);
    if p == |env| {
      assert wide == env + more;
      FindAppended(env, more, name);
    } else {
      var n := |env| - 1;
      assert wide[|wide| - 1] == env[n];
      assert wide[..|wide| - 1] == Widened(env[..n], p, more);
      FindWidened(env[..n], p, more, names, name);
    }
  }

  lemma WidenedAt(env: Env, p: nat, more: Env, i: nat)
    requires p <= |env| && i < |env|
    ensures |Widened(env, p, more)| == |env| + |more| && Widened(env, p, more)[Moved(i, p, |more|)] == env[i]
  {
  }

  lemma WidenedWrite(env: Env, p: nat, more: Env, i: nat, b: Binding)
    requires p <= |env| && i < |env|
    ensures |Widened(env, p, more)| == |env| + |more|
    ensures Widened(env, p, more)[Moved(i, p, |more|) := b] == Widened(env[i := b], p, more)
  {
  }

  lemma WidenedMore(env: Env, p: nat, more: Env, extra: Env)
    requires p <= |env|
    ensures Widened(env, p, more) + extra == Widened(env + extra, p, more)
  {
  }

  lemma {:induction false} ExprWidened(m: Machine, e: Expr, env: Env, p: nat, more: Env, names: set<string>, depth: nat, w: World)
    requires p <= |env| && Named(more, names) && ExprFree(e, names)
    ensures EvalExpr(m, e, Widened(env, p, more), depth, w) == EvalExpr(m, e, env, depth, w)
    decreases e
  {
    hide Widened, Named;
    match e
    case Literal(_) =>
    case Ident(x) =>
      FindWidened(env, p, more, names, x);
      var i := Find(env, x);
      if i < |env| {
        WidenedAt(env, p, more, i);
      } else {
        WidenedLength(env, p, more);
      }
    case ShortCircuit(_, l, r) =>
      ExprWidened(m, l, env, p, more, names, depth, w);
      var a := EvalExpr(m, l, env, depth, w);
      if a.Val? {
        ExprWidened(m, r, env, p, more, names, depth, a.w);
      }
    case Operate(_, operands) => ArgsWidened(m, operands, env, p, more, names, depth, w);
  }

  lemma WidenedLength(env: Env, p: nat, more: Env)
    requires p <= |env|
    ensures |Widened(env, p, more)| == |env| + |more|
  {
  }

  lemma {:induction false} ArgsWidened(m: Machine, args: Args, env: Env, p: nat, more: Env, names: set<string>, depth: nat, w: World)
    requires p <= |env| && Named(more, names) && ArgsFree(args, names)
    ensures EvalArgs(m, args, Widened(env, p, more), depth, w) == EvalArgs(m, args, env, depth, w)
    decreases args
  {
    hide Widened, Named;
    match args
    case NoArgs =>
    case Arg(e, rest) =>
      ExprWidened(m, e, env, p, more, names, depth, w);
      var a := EvalExpr(m, e, env, depth, w);
      if a.Val? {
        ArgsWidened(m, rest, env, p, more, names, depth + 1, a.w);
      }
  }

  // ---------- Statements ----------

  lemma LeaveWidened(x: Exec, n: nat, p: nat, more: Env)
    requires p <= n && (x.Norm? ==> n <= |x.env|)
    ensures Leave(WidenExec(x, p, more), n + |more|) == WidenExec(Leave(x, n), p, more)
  {
    if x.Norm? {
      assert Widened(x.env, p, more)[..n + |more|] == Widened(x.env[..n], p, more);
    }
  }

  lemma AddWidened(x: Exec, c: nat, p: nat, more: Env)
    ensures AddCost(WidenExec(x, p, more), c) == WidenExec(AddCost(x, c), p, more)
  {
  }

  lemma {:induction false} StmtWidened(m: Machine, s: Stmt, env: Env, p: nat, more: Env, names: set<string>, w: World)
    requires p <= |env| && Named(more, names) && StmtFree(s, names)
    ensures ExecStmt(m, s, Widened(env, p, more), w) == WidenExec(ExecStmt(m, s, env, w), p, more)
    decreases s, 0
  {
    hide EvalExpr, ExecBlock, Widened, Named, ExprFree, BlockFree;
    match s
    case Let(name, _, e) =>
      ExprWidened(m, e, env, p, more, names, 0, w);
      var r := EvalExpr(m, e, env, 0, w);
      if r.Val? {
        WidenedMore(env, p, more, [Binding(name, r.v)]);
      }
    case Assign(name, e) =>
      ExprWidened(m, e, env, p, more, names, 0, w);
      FindWidened(env, p, more, names, name);
      WidenedLength(env, p, more);
      var i := Find(env, name);
      if i < |env| && EvalExpr(m, e, env, 0, w).Val? {
        WidenedWrite(env, p, more, i, Binding(name, EvalExpr(m, e, env, 0, w).v));
      }
    case If(branches) => BranchesWidened(m, branches, env, p, more, names, w);
    case ForRange(x, start, end, body) => RangeWidened(m, x, start, end, body, env, p, more, names, w);
    case ForIn(x, iterable, body) => InWidened(m, x, iterable, body, env, p, more, names, w);
    case While(cond, body) =>
      WhileWidened(m, cond, body, env, p, more, names, w, 0);
      AddWidened(WhileLoop(m, cond, body, env, w, 0), 1, p, more);
    case ReturnDeny(status, message) =>
      ExprWidened(m, status, env, p, more, names, 0, w);
      var a := EvalExpr(m, status, env, 0, w);
      if a.Val? {
        ExprWidened(m, message, env, p, more, names, 1, a.w);
      }
    case ReturnNext =>
    case ExprStmt(e) => ExprWidened(m, e, env, p, more, names, 0, w);
  }

  lemma {:induction false} BlockWidened(m: Machine, b: Block, env: Env, p: nat, more: Env, names: set<string>, w: World)
    requires p <= |env| && Named(more, names) && BlockFree(b, names)
    ensures ExecBlock(m, b, Widened(env, p, more), w) == WidenExec(ExecBlock(m, b, env, w), p, more)
    decreases b, 0
  {
    hide ExecStmt, Widened, Named, StmtFree;
    match b
    case Empty =>
    case Seq(s, rest) =>
      StmtWidened(m, s, env, p, more, names, w);
      var x := ExecStmt(m, s, env, w);
      if x.Norm? {
        BlockWidened(m, rest, x.env, p, more, names, x.w);
        AddWidened(ExecBlock(m, rest, x.env, x.w), x.cost, p, more);
      }
  }

  lemma {:induction false} ScopeWidened(m: Machine, b: Block, env: Env, p: nat, more: Env, names: set<string>, w: World)
    requires p <= |env| && Named(more, names) && BlockFree(b, names)
    ensures ExecScope(m, b, Widened(env, p, more), w) == WidenExec(ExecScope(m, b, env, w), p, more)
    decreases b, 1
  {
    hide ExecBlock, Widened, Named, BlockFree, Leave, WidenExec;
    BlockWidened(m, b, env, p, more, names, w);
    WidenedLength(env, p, more);
    LeaveWidened(ExecBlock(m, b, env, w), |env|, p, more);
  }

  lemma {:induction false} BranchesWidened(m: Machine, bs: Branches, env: Env, p: nat, more: Env, names: set<string>, w: World)
    requires p <= |env| && Named(more, names) && BranchesFree(bs, names)
    ensures ExecBranches(m, bs, Widened(env, p, more), w) == WidenExec(ExecBranches(m, bs, env, w), p, more)
    decreases bs, 0
  {
    hide EvalExpr, ExecScope, Widened, Named, ExprFree, BlockFree;
    match bs
    case NoElse =>
    case Else(body) => ScopeWidened(m, body, env, p, more, names, w);
    case Branch(cond, body, rest) =>
      ExprWidened(m, cond, env, p, more, names, 0, w);
      var c := EvalExpr(m, cond, env, 0, w);
      if c.Val? {
        ScopeWidened(m, body, env, p, more, names, c.w);
        BranchesWidened(m, rest, env, p, more, names, c.w);
      }
  }

  lemma {:induction false} WhileWidened(m: Machine, cond: Expr, body: Block, env: Env, p: nat, more: Env, names: set<string>, w: World, rounds: nat)
    requires p <= |env| && Named(more, names) && ExprFree(cond, names) && BlockFree(body, names) && rounds <= m.limits.maxLoopIterations
    ensures WhileLoop(m, cond, body, Widened(env, p, more), w, rounds) == WidenExec(WhileLoop(m, cond, body, env, w, rounds), p, more)
    decreases body, 2 + m.limits.maxLoopIterations - rounds
  {
    hide EvalExpr, ExecScope, Widened, Named, ExprFree, BlockFree, AddCost;
    ExprWidened(m, cond, env, p, more, names, 0, w);
    var c := EvalExpr(m, cond, env, 0, w);
    if c.Val? && Truthy(c.v) {
      ScopeWidened(m, body, env, p, more, names, c.w);
      var x := ExecScope(m, body, env, c.w);
      AddWidened(x, c.cost + 1, p, more);
      if x.Norm? && rounds < m.limits.maxLoopIterations {
        WhileWidened(m, cond, body, x.env, p, more, names, x.w, rounds + 1);
        AddWidened(WhileLoop(m, cond, body, x.env, x.w, rounds + 1), c.cost + x.cost + 2, p, more);
      }
    }
  }

  lemma {:induction false} RangeLoopWidened(m: Machine, body: Block, env: Env, p: nat, more: Env, names: set<string>, w: World, rounds: nat)
    requires p + 2 <= |env| && Named(more, names) && BlockFree(body, names) && rounds <= m.limits.maxLoopIterations
    ensures |Widened(env, p, more)| == |env| + |more|
    ensures RangeLoop(m, body, Widened(env, p, more), w, rounds) == WidenExec(RangeLoop(m, body, env, w, rounds), p, more)
    decreases body, 2 + m.limits.maxLoopIterations - rounds
  {
    hide ExecScope, Widened, Named, BlockFree, AddCost;
    var at := |env| - 1;
    WidenedAt(env, p, more, at);
    WidenedAt(env, p, more, at - 1);
    ScopeWidened(m, body, env, p, more, names, w);
    var x := ExecScope(m, body, env, w);
    AddWidened(x, 4, p, more);
    if x.Norm? {
      WidenedAt(x.env, p, more, at);
      var sum := m.host.binary(Add, x.env[at].value, Int(1));
      if sum.Ok? && rounds < m.limits.maxLoopIterations {
        var b := x.env[at].(value := sum.value);
        WidenedWrite(x.env, p, more, at, b);
        RangeLoopWidened(m, body, x.env[at := b], p, more, names, x.w, rounds + 1);
        AddWidened(RangeLoop(m, body, x.env[at := b], x.w, rounds + 1), x.cost + 9, p, more);
      }
    }
  }

  lemma {:induction false} RangeWidened(m: Machine, x: string, start: Expr, end: Expr, body: Block,
                                        env: Env, p: nat, more: Env, names: set<string>, w: World)
    requires p <= |env| && Named(more, names) && ExprFree(start, names) && ExprFree(end, names) && BlockFree(body, names)
    ensures ExecRange(m, x, start, end, body, Widened(env, p, more), w) == WidenExec(ExecRange(m, x, start, end, body, env, w), p, more)
    decreases body, 3 + m.limits.maxLoopIterations
  {
    hide EvalExpr, RangeLoop, Widened, Named, ExprFree, BlockFree, Leave, WidenExec, AddCost;
    ExprWidened(m, end, env, p, more, names, 0, w);
    var hi := EvalExpr(m, end, env, 0, w);
    if hi.Val? {
      var env1 := env + [Binding("__range_end__", hi.v)];
      WidenedMore(env, p, more, [Binding("__range_end__", hi.v)]);
      ExprWidened(m, start, env1, p, more, names, 0, hi.w);
      var lo := EvalExpr(m, start, env1, 0, hi.w);
      if lo.Val? {
        WidenedMore(env1, p, more, [Binding(x, lo.v)]);
        var env2 := env1 + [Binding(x, lo.v)];
        RangeLoopWidened(m, body, env2, p, more, names, lo.w, 0);
        WidenedLength(env, p, more);
        LeaveWidened(RangeLoop(m, body, env2, lo.w, 0), |env|, p, more);
        AddWidened(Leave(RangeLoop(m, body, env2, lo.w, 0), |env|), hi.cost + lo.cost + 3, p, more);
      } else {
        AbortWidened(lo.error, lo.w, hi.cost + 1 + lo.cost, p, more);
      }
    } else {
      AbortWidened(hi.error, hi.w, hi.cost, p, more);
    }
  }

  lemma AbortWidened(e: RuntimeError, w: World, c: nat, p: nat, more: Env)
    ensures WidenExec(Abort(e, w, c), p, more) == Abort(e, w, c)
  {
  }

  /** One round of a list loop. */
  lemma ItemWidened(m: Machine, x: string, body: Block, env: Env, p: nat, more: Env, names: set<string>, w: World, item: Value)
    requires p <= |env| && Named(more, names) && BlockFree(body, names)
    requires ExecBlock(m, body, Widened(env + [Binding(x, item)], p, more), w) ==
      WidenExec(ExecBlock(m, body, env + [Binding(x, item)], w), p, more)
    ensures Leave(ExecBlock(m, body, Widened(env, p, more) + [Binding(x, item)], w), |Widened(env, p, more)|) ==
      WidenExec(Leave(ExecBlock(m, body, env + [Binding(x, item)], w), |env|), p, more)
  {
    hide ExecBlock, Widened, Leave, WidenExec, BlockFree, Named;
    WidenedMore(env, p, more, [Binding(x, item)]);
    WidenedLength(env, p, more);
    LeaveWidened(ExecBlock(m, body, env + [Binding(x, item)], w), |env|, p, more);
  }

  lemma {:induction false} InLoopWidened(m: Machine, x: string, body: Block, env: Env, p: nat, more: Env, names: set<string>, w: World, rounds: nat)
    requires p + 2 <= |env| && Named(more, names) && BlockFree(body, names) && rounds <= m.limits.maxLoopIterations
    ensures |Widened(env, p, more)| == |env| + |more|
    ensures InLoop(m, x, body, Widened(env, p, more), w, rounds) == WidenExec(InLoop(m, x, body, env, w, rounds), p, more)
    decreases body, 2 + m.limits.maxLoopIterations - rounds
  {
    hide ExecBlock, Widened, Named, BlockFree, AddCost, Leave, Item, Length;
    var at := |env| - 1;
    WidenedAt(env, p, more, at);
    WidenedAt(env, p, more, at - 1);
    var item := Item(env[at - 1].value, env[at].value);
    BlockWidened(m, body, env + [Binding(x, item)], p, more, names, w);
    ItemWidened(m, x, body, env, p, more, names, w, item);
    var r := Leave(ExecBlock(m, body, env + [Binding(x, item)], w), |env|);
    AddWidened(r, 9, p, more);
    if r.Norm? {
      LeaveLength(m, body, env, Binding(x, item), w);
      WidenedAt(r.env, p, more, at);
      var sum := m.host.binary(Add, r.env[at].value, Int(1));
      if sum.Ok? && rounds < m.limits.maxLoopIterations {
        var b := r.env[at].(value := sum.value);
        WidenedWrite(r.env, p, more, at, b);
        InLoopWidened(m, x, body, r.env[at := b], p, more, names, r.w, rounds + 1);
        AddWidened(InLoop(m, x, body, r.env[at := b], r.w, rounds + 1), r.cost + 14, p, more);
      }
    }
  }

  lemma LeaveLength(m: Machine, body: Block, env: Env, b: Binding, w: World)
    ensures var r := Leave(ExecBlock(m, body, env + [b], w), |env|); r.Norm? ==> |r.env| == |env|
  {
    hide ExecBlock;
  }

  lemma {:induction false} InWidened(m: Machine, x: string, iterable: Expr, body: Block, env: Env, p: nat, more: Env, names: set<string>, w: World)
    requires p <= |env| && Named(more, names) && ExprFree(iterable, names) && BlockFree(body, names)
    ensures ExecIn(m, x, iterable, body, Widened(env, p, more), w) == WidenExec(ExecIn(m, x, iterable, body, env, w), p, more)
    decreases body, 3 + m.limits.maxLoopIterations
  {
    hide EvalExpr, InLoop, Widened, Named, ExprFree, BlockFree, Leave, WidenExec, AddCost;
    ExprWidened(m, iterable, env, p, more, names, 0, w);
    var l := EvalExpr(m, iterable, env, 0, w);
    if l.Val? {
      var extra := [Binding("__list__", l.v), Binding("__idx__", Int(0))];
      WidenedMore(env, p, more, extra);
      InLoopWidened(m, x, body, env + extra, p, more, names, l.w, 0);
      WidenedLength(env, p, more);
      LeaveWidened(InLoop(m, x, body, env + extra, l.w, 0), |env|, p, more);
      AddWidened(Leave(InLoop(m, x, body, env + extra, l.w, 0), |env|), l.cost + 4, p, more);
    } else {
      AbortWidened(l.error, l.w, l.cost, p, more);
    }
  }

  // ---------- Loops as folds ----------

  /** What is slipped in where the scope ends is gone when it is left. */
  lemma LeaveCut(x: Exec, p: nat, more: Env)
    requires x.Norm? ==> p <= |x.env|
    ensures Leave(WidenExec(x, p, more), p) == Leave(x, p)
  {
    if x.Norm? {
      assert Widened(x.env, p, more)[..p] == x.env[..p];
    }
  }

  /** A body that does not mention the hidden variables `more`. */
  lemma BodyPlain(m: Machine, body: Block, env: Env, more: Env, names: set<string>, b: Binding, w: World)
    requires Named(more, names) && BlockFree(body, names)
    ensures Leave(ExecBlock(m, body, env + more + [b], w), |env|) == Leave(ExecBlock(m, body, env + [b], w), |env|)
  {
    hide ExecBlock, Leave, WidenExec, BlockFree, Named;
    assert env + more + [b] == Widened(env + [b], |env|, more);
    BlockWidened(m, body, env + [b], |env|, more, names, w);
    LeaveCut(ExecBlock(m, body, env + [b], w), |env|, more);
  }

  lemma {:induction false} FreeLeaves(s: Stmt, names: set<string>, name: string)
    requires StmtFree(s, names) && name in names
    ensures !Touches(s, name)
    decreases s
  {
    match s
    case If(branches) => FreeBranches(branches, names, name);
    case ForRange(_, _, _, body) => FreeBlock(body, names, name);
    case ForIn(_, _, body) => FreeBlock(body, names, name);
    case While(_, body) => FreeBlock(body, names, name);
    case _ =>
  }

  lemma {:induction false} FreeBlock(b: Block, names: set<string>, name: string)
    requires BlockFree(b, names) && name in names
    ensures !TouchesBlock(b, name)
    decreases b
  {
    match b
    case Empty =>
    case Seq(s, rest) =>
      FreeLeaves(s, names, name);
      FreeBlock(rest, names, name);
  }

  lemma {:induction false} FreeBranches(bs: Branches, names: set<string>, name: string)
    requires BranchesFree(bs, names) && name in names
    ensures !TouchesBranches(bs, name)
    decreases bs
  {
    match bs
    case NoElse =>
    case Else(body) => FreeBlock(body, names, name);
    case Branch(_, body, rest) =>
      FreeBlock(body, names, name);
      FreeBranches(rest, names, name);
  }

  const LIST_NAMES: set<string> := {"__list__", "__idx__"}
  const RANGE_NAMES: set<string> := {"__range_end__"}

  /** `x` bound to each item in turn, and nothing else. */
  function ForEach(m: Machine, x: string, body: Block, env: Env, items: seq<string>, k: nat, w: World): Exec
    requires k <= |items| && k <= m.limits.maxLoopIterations
    decreases |items| - k
  {
    if k == |items| then Norm(env, w, 6)
    else
      var r := Leave(ExecBlock(m, body, env + [Binding(x, Str(items[k]))], w), |env|);
      if !r.Norm? then AddCost(r, 9)
      else if k == m.limits.maxLoopIterations then Abort(LoopLimitExceeded, r.w, r.cost + 14)
      else AddCost(ForEach(m, x, body, r.env, items, k + 1, r.w), r.cost + 14)
  }

  lemma {:induction false} ItemsPlain(m: Machine, x: string, body: Block, env: Env, items: seq<string>, k: nat, w: World)
    requires k <= |items| && k <= m.limits.maxLoopIterations && BlockFree(body, LIST_NAMES)
    ensures EachItem(m, x, body, env, items, k, w) == ForEach(m, x, body, env, items, k, w)
    decreases |items| - k
  {
    hide ExecBlock, Leave, BlockFree, AddCost;
    if k < |items| {
      BodyPlain(m, body, env, ListBindings(items, k), LIST_NAMES, Binding(x, Str(items[k])), w);
      var r := Leave(ExecBlock(m, body, env + [Binding(x, Str(items[k]))], w), |env|);
      if r.Norm? && k < m.limits.maxLoopIterations {
        ItemsPlain(m, x, body, r.env, items, k + 1, r.w);
      }
    }
  }

  /** An accepted list loop whose body does not mention the hidden variables is the plain fold over the items. */
  lemma ListLoopIsFold(m: Machine, x: string, iterable: Expr, body: Block, env: Env, w: World,
                       locals: seq<Local>, pool: seq<Constant>, next: nat)
    requires Counts(m.host) && m.limits.maxStackDepth >= 2 && GenIn(m.host, x, iterable, body, locals, pool, next).Some?
    requires BlockFree(body, LIST_NAMES)
    ensures var l := EvalExpr(m, iterable, env, 0, w);
      l.Val? && l.v.List? && |l.v.items| <= I64_MAX ==>
      ExecIn(m, x, iterable, body, env, w) == AddCost(ForEach(m, x, body, env, l.v.items, 0, l.w), l.cost + 4)
  {
    hide EvalExpr, ExecIn, EachItem, ForEach, TouchesBlock, Counts, GenIn, BlockFree;
    FreeBlock(body, LIST_NAMES, "__idx__");
    ListVisits(m, x, iterable, body, env, w, locals, pool, next);
    var l := EvalExpr(m, iterable, env, 0, w);
    if l.Val? && l.v.List? {
      ItemsPlain(m, x, body, env, l.v.items, 0, l.w);
    }
  }

  /** `x` bound to each number in turn, and nothing else. */
  function ForNumbers(m: Machine, x: string, body: Block, env: Env, i: int, hi: int, w: World, rounds: nat): Exec
    requires rounds <= m.limits.maxLoopIterations
    decreases m.limits.maxLoopIterations - rounds
  {
    if i >= hi then Norm(env, w, 5)
    else
      var r := Leave(ExecBlock(m, body, env + [Binding(x, Int(i))], w), |env|);
      if !r.Norm? then AddCost(r, 4)
      else if rounds == m.limits.maxLoopIterations then Abort(LoopLimitExceeded, r.w, r.cost + 9)
      else AddCost(ForNumbers(m, x, body, r.env, i + 1, hi, r.w, rounds + 1), r.cost + 9)
  }

  lemma {:induction false} NumbersPlain(m: Machine, x: string, body: Block, env: Env, i: int, hi: int, w: World, rounds: nat)
    requires rounds <= m.limits.maxLoopIterations && BlockFree(body, RANGE_NAMES)
    ensures EachNumber(m, x, body, env, i, hi, w, rounds) == ForNumbers(m, x, body, env, i, hi, w, rounds)
    decreases m.limits.maxLoopIterations - rounds
  {
    hide ExecBlock, Leave, BlockFree, AddCost;
    if i < hi {
      var end := [Binding("__range_end__", Int(hi))];
      assert env + RangeBindings(x, i, hi) == env + end + [Binding(x, Int(i))];
      BodyPlain(m, body, env, end, RANGE_NAMES, Binding(x, Int(i)), w);
      var r := Leave(ExecBlock(m, body, env + [Binding(x, Int(i))], w), |env|);
      if r.Norm? && rounds < m.limits.maxLoopIterations {
        NumbersPlain(m, x, body, r.env, i + 1, hi, r.w, rounds + 1);
      }
    }
  }

  /** An accepted range loop that does not mention the hidden end is the plain fold over the numbers of the range. */
  lemma RangeLoopIsFold(m: Machine, x: string, start: Expr, end: Expr, body: Block, env: Env, w: World,
                        locals: seq<Local>, pool: seq<Constant>, next: nat)
    requires Counts(m.host) && m.limits.maxStackDepth >= 2 && GenRange(m.host, x, start, end, body, locals, pool, next).Some?
    requires ExprFree(start, RANGE_NAMES) && BlockFree(body, RANGE_NAMES)
    ensures var hi := EvalExpr(m, end, env, 0, w);
      hi.Val? ==>
      var lo := EvalExpr(m, start, env, 0, hi.w);
      lo.Val? && hi.v.Int? && lo.v.Int? && I64_MIN <= lo.v.n <= I64_MAX && I64_MIN <= hi.v.n <= I64_MAX ==>
      ExecRange(m, x, start, end, body, env, w) ==
        AddCost(ForNumbers(m, x, body, env, lo.v.n, hi.v.n, lo.w, 0), hi.cost + lo.cost + 3)
  {
    hide EvalExpr, ExecRange, EachNumber, ForNumbers, Counts, GenRange, BlockFree, ExprFree;
    RangeVisits(m, x, start, end, body, env, w, locals, pool, next);
    var hi := EvalExpr(m, end, env, 0, w);
    if hi.Val? {
      var more := [Binding("__range_end__", hi.v)];
      assert env + more == Widened(env, |env|, more);
      ExprWidened(m, start, env, |env|, more, RANGE_NAMES, 0, hi.w);
      var lo := EvalExpr(m, start, env, 0, hi.w);
      if lo.Val? && hi.v.Int? && lo.v.Int? {
        NumbersPlain(m, x, body, env, lo.v.n, hi.v.n, lo.w, 0);
      }
    }
  }
}
