// In every state a compiled script can reach, the next instruction finds its operands, its slot, its constant and
// its jump target.

module DslInvariant {
  import opened Common
  import opened DslSyntax
  import opened DslSemantics
  import opened DslCompiler
  import opened DslVm
  import opened DslExprProof
  import opened DslScriptProof
  import opened DslSafety

  // ---------- Instructions that stay within bounds ----------

  function JumpOf(op: OpCode): Option<int> {
    match op
    case Jump(o) => Some(o)
    case JumpIfFalse(o) => Some(o)
    case LoopBack(o) => Some(o)
    case _ => None
  }

  /** Slots below `next`, constants in the pool and of the right kind. */
  predicate OperandOk(op: OpCode, pool: seq<Constant>, next: nat) {
    match op
    case LoadConst(i) => i < |pool|
    case Matches(i) => i < |pool| && pool[i].RegexConst?
    case GetLocal(i) => i < next
    case SetLocal(i) => i < next
    case _ => true
  }

  /** Jumps lead at most `lo` before the code and `hi` past it. */
  ghost predicate Fits(code: seq<OpCode>, lo: nat, hi: nat, pool: seq<Constant>, next: nat) {
    forall i :: 0 <= i < |code| ==>
      OperandOk(code[i], pool, next) && (JumpOf(code[i]).Some? ==> 0 <= lo + i + 1 + JumpOf(code[i]).value <= lo + |code| + hi)
  }

  lemma FitsMore(code: seq<OpCode>, lo: nat, hi: nat, pool: seq<Constant>, next: nat, lo': nat, hi': nat, pool': seq<Constant>, next': nat)
    requires Fits(code, lo, hi, pool, next) && lo <= lo' && hi <= hi' && pool <= pool' && next <= next'
    ensures Fits(code, lo', hi', pool', next')
  {
  }

  lemma FitsJoined(a: seq<OpCode>, b: seq<OpCode>, lo: nat, hi: nat, pool: seq<Constant>, next: nat)
    requires Fits(a, lo, hi + |b|, pool, next) && Fits(b, lo + |a|, hi, pool, next)
    ensures Fits(a + b, lo, hi, pool, next)
  {
    var c := a + b;
    forall i | 0 <= i < |c|
      ensures OperandOk(c[i], pool, next) && (JumpOf(c[i]).Some? ==> 0 <= lo + i + 1 + JumpOf(c[i]).value <= lo + |c| + hi)
    {
      if i < |a| {
        assert c[i] == a[i];
      } else {
        assert c[i] == b[i - |a|];
      }
    }
  }

  /** Closed pieces in a row. */
  lemma FitsAppend(a: seq<OpCode>, b: seq<OpCode>, pool: seq<Constant>, next: nat)
    requires Fits(a, 0, 0, pool, next) && Fits(b, 0, 0, pool, next)
    ensures Fits(a + b, 0, 0, pool, next)
  {
    FitsMore(a, 0, 0, pool, next, 0, |b|, pool, next);
    FitsMore(b, 0, 0, pool, next, |a|, 0, pool, next);
    FitsJoined(a, b, 0, 0, pool, next);
  }

  /** A closed piece, a jump over `n` instructions, and what follows. */
  lemma FitsForward(a: seq<OpCode>, op: OpCode, b: seq<OpCode>, pool: seq<Constant>, next: nat)
    requires Fits(a, 0, 0, pool, next) && Fits(b, 0, 0, pool, next)
    requires OperandOk(op, pool, next) && (JumpOf(op).Some? ==> 0 <= JumpOf(op).value <= |b|)
    ensures Fits(a + [op] + b, 0, 0, pool, next)
  {
    FitsMore(b, 0, 0, pool, next, 1, 0, pool, next);
    FitsJoined([op], b, 0, 0, pool, next);
    FitsAppend(a, [op] + b, pool, next);
    assert a + ([op] + b) == a + [op] + b;
  }

  ghost predicate InSlots(locals: seq<Local>, next: nat) { forall i :: 0 <= i < |locals| ==> locals[i].slot < next }

  // ---------- Generated code ----------

  ghost predicate GenFits(g: Option<Gen>, next: nat) { g.Some? ==> Fits(g.value.code, 0, 0, g.value.pool, next) }

  ghost predicate StmtFits(g: Option<StmtGen>) {
    g.Some? ==> Fits(g.value.code, 0, 0, g.value.pool, g.value.next) && InSlots(g.value.locals, g.value.next)
  }

  lemma LiteralFits(v: Value, pool: seq<Constant>, next: nat)
    ensures GenFits(GenLiteral(v, pool), next)
  {
  }

  lemma OperationFits(h: Host, op: Operation, pool: seq<Constant>, next: nat)
    ensures var o := GenOperation(h, op, pool); o.Some? ==> OperandOk(o.value.0, o.value.1, next) && JumpOf(o.value.0).None?
  {
  }

  lemma {:induction false} ExprFits(h: Host, e: Expr, locals: seq<Local>, pool: seq<Constant>, next: nat)
    requires InSlots(locals, next)
    ensures GenFits(GenExpr(h, e, locals, pool), next)
    decreases e, 1
  {
    match e
    case Literal(v) => LiteralFits(v, pool, next);
    case Ident(x) =>
    case ShortCircuit(isAnd, l, r) => ShortCircuitFits(h, isAnd, l, r, locals, pool, next);
    case Operate(op, operands) =>
      var o := GenOperation(h, op, pool);
      if o.Some? && ArgCount(operands) == Arity(h, op) {
        OperationFits(h, op, pool, next);
        ArgsFit(h, operands, locals, o.value.1, next);
        var a := GenArgs(h, operands, locals, o.value.1);
        if a.Some? {
          FitsForward(a.value.code, o.value.0, [], a.value.pool, next);
          assert a.value.code + [o.value.0] + [] == a.value.code + [o.value.0];
        }
      }
  }

  lemma {:induction false} ShortCircuitFits(h: Host, isAnd: bool, l: Expr, r: Expr, locals: seq<Local>, pool: seq<Constant>, next: nat)
    requires InSlots(locals, next)
    ensures GenFits(GenExpr(h, ShortCircuit(isAnd, l, r), locals, pool), next)
    decreases ShortCircuit(isAnd, l, r), 0
  {
    hide Fits;
    ExprFits(h, l, locals, pool, next);
    var a := GenExpr(h, l, locals, pool);
    if a.Some? {
      ExprFits(h, r, locals, a.value.pool, next);
      var b := GenExpr(h, r, locals, a.value.pool);
      if b.Some? {
        FitsMore(a.value.code, 0, 0, a.value.pool, next, 0, 0, b.value.pool, next);
        ShortCircuitCode(a.value.code, b.value.code, isAnd, b.value.pool, next);
      }
    }
  }

  lemma ShortCircuitCode(ca: seq<OpCode>, cb: seq<OpCode>, isAnd: bool, pool: seq<Constant>, next: nat)
    requires Fits(ca, 0, 0, pool, next) && Fits(cb, 0, 0, pool, next)
    ensures Fits(ca + ShortCircuitTest(isAnd, |cb|) + cb + [Jump(1), LoadBool(!isAnd)], 0, 0, pool, next)
  {
    var tail := [Jump(1), LoadBool(!isAnd)];
    assert Fits(tail, 0, 0, pool, next);
    FitsAppend(cb, tail, pool, next);
    var jump := JumpIfFalse(|cb| + 1);
    if isAnd {
      FitsForward(ca, jump, cb + tail, pool, next);
      assert ca + [jump] + (cb + tail) == ca + ShortCircuitTest(isAnd, |cb|) + cb + tail;
    } else {
      FitsForward(ca, NotOp, [], pool, next);
      FitsForward(ca + [NotOp] + [], jump, cb + tail, pool, next);
      assert ca + [NotOp] + [] + [jump] + (cb + tail) == ca + ShortCircuitTest(isAnd, |cb|) + cb + tail;
    }
  }

  lemma {:induction false} ArgsFit(h: Host, args: Args, locals: seq<Local>, pool: seq<Constant>, next: nat)
    requires InSlots(locals, next)
    ensures GenFits(GenArgs(h, args, locals, pool), next)
    decreases args, 0
  {
    match args
    case NoArgs =>
    case Arg(e, rest) =>
      ExprFits(h, e, locals, pool, next);
      var a := GenExpr(h, e, locals, pool);
      if a.Some? {
        ArgsFit(h, rest, locals, a.value.pool, next);
        var b := GenArgs(h, rest, locals, a.value.pool);
        if b.Some? {
          FitsMore(a.value.code, 0, 0, a.value.pool, next, 0, 0, b.value.pool, next);
          FitsAppend(a.value.code, b.value.code, b.value.pool, next);
        }
      }
  }

  // ---------- Statements ----------

  lemma ExprThen(h: Host, e: Expr, locals: seq<Local>, pool: seq<Constant>, next: nat, op: OpCode, next': nat)
    requires InSlots(locals, next) && next <= next' && GenExpr(h, e, locals, pool).Some?
    requires OperandOk(op, [], next') && JumpOf(op).None?
    ensures var a := GenExpr(h, e, locals, pool).value; Fits(a.code + [op], 0, 0, a.pool, next')
  {
    hide GenExpr;
    ExprFits(h, e, locals, pool, next);
    var a := GenExpr(h, e, locals, pool).value;
    FitsMore(a.code, 0, 0, a.pool, next, 0, 0, a.pool, next');
    FitsAppend(a.code, [op], a.pool, next');
  }

  lemma {:induction false} StmtsFit(h: Host, s: Stmt, locals: seq<Local>, pool: seq<Constant>, next: nat)
    requires InSlots(locals, next)
    ensures StmtFits(GenStmt(h, s, locals, pool, next))
    decreases s, 0
  {
    var g := GenStmt(h, s, locals, pool, next);
    if g.Some? {
      hide GenExpr, GenBlock, Fits;
      SlotsMore(locals, next, g.value.next);
      match s
      case Let(_, _, e) => ExprThen(h, e, locals, pool, next, SetLocal(next), next + 1);
      case Assign(name, e) => ExprThen(h, e, locals, pool, next, SetLocal(locals[Resolve(locals, name)].slot), next);
      case If(branches) => BranchesFit(h, branches, locals, pool, next);
      case ForRange(x, start, end, body) => RangeFits(h, x, start, end, body, locals, pool, next);
      case ForIn(x, iterable, body) => InFits(h, x, iterable, body, locals, pool, next);
      case While(cond, body) => WhileFits(h, cond, body, locals, pool, next);
      case ReturnDeny(status, message) => DenyFits(h, status, message, locals, pool, next);
      case ReturnNext => OneFits(ReturnNextOp, pool, next);
      case ExprStmt(e) => ExprThen(h, e, locals, pool, next, Pop, next);
    }
  }

  lemma SlotsMore(locals: seq<Local>, next: nat, next': nat)
    requires InSlots(locals, next) && next <= next'
    ensures InSlots(locals, next')
  {
  }

  lemma OneFits(op: OpCode, pool: seq<Constant>, next: nat)
    requires OperandOk(op, pool, next) && JumpOf(op).None?
    ensures Fits([op], 0, 0, pool, next)
  {
  }

  lemma DenyFits(h: Host, status: Expr, message: Expr, locals: seq<Local>, pool: seq<Constant>, next: nat)
    requires InSlots(locals, next) && GenExpr(h, status, locals, pool).Some?
    requires GenExpr(h, message, locals, GenExpr(h, status, locals, pool).value.pool).Some?
    ensures var a := GenExpr(h, status, locals, pool).value;
      var b := GenExpr(h, message, locals, a.pool).value; Fits(a.code + b.code + [ReturnDenyOp], 0, 0, b.pool, next)
  {
    hide GenExpr, Fits;
    var a := GenExpr(h, status, locals, pool).value;
    var b := GenExpr(h, message, locals, a.pool).value;
    ExprFits(h, status, locals, pool, next);
    ExprThen(h, message, locals, a.pool, next, ReturnDenyOp, next);
    FitsMore(a.code, 0, 0, a.pool, next, 0, 0, b.pool, next);
    FitsAppend(a.code, b.code + [ReturnDenyOp], b.pool, next);
    assert a.code + (b.code + [ReturnDenyOp]) == a.code + b.code + [ReturnDenyOp];
  }

  lemma {:induction false} BlockFits(h: Host, b: Block, locals: seq<Local>, pool: seq<Constant>, next: nat)
    requires InSlots(locals, next)
    ensures StmtFits(GenBlock(h, b, locals, pool, next))
    decreases b, 0
  {
    hide GenStmt;
    match b
    case Empty =>
    case Seq(s, rest) =>
      StmtsFit(h, s, locals, pool, next);
      var x := GenStmt(h, s, locals, pool, next);
      if x.Some? {
        var g := x.value;
        BlockFits(h, rest, g.locals, g.pool, g.next);
        var y := GenBlock(h, rest, g.locals, g.pool, g.next);
        if y.Some? {
          FitsMore(g.code, 0, 0, g.pool, g.next, 0, 0, y.value.pool, y.value.next);
          FitsAppend(g.code, y.value.code, y.value.pool, y.value.next);
        }
      }
  }

  lemma BranchCodeFits(ca: seq<OpCode>, cb: seq<OpCode>, cr: seq<OpCode>, last: bool, pool: seq<Constant>, next: nat)
    requires Fits(ca, 0, 0, pool, next) && Fits(cb, 0, 0, pool, next) && Fits(cr, 0, 0, pool, next)
    ensures Fits(BranchCode(ca, cb, cr, last), 0, 0, pool, next)
  {
    if last {
      FitsAppend(cb, cr, pool, next);
      FitsForward(ca, JumpIfFalse(|cb|), cb + cr, pool, next);
      assert ca + [JumpIfFalse(|cb|)] + (cb + cr) == BranchCode(ca, cb, cr, last);
    } else {
      FitsForward(cb, Jump(|cr|), cr, pool, next);
      FitsForward(ca, JumpIfFalse(|cb| + 1), cb + [Jump(|cr|)] + cr, pool, next);
      assert ca + [JumpIfFalse(|cb| + 1)] + (cb + [Jump(|cr|)] + cr) == BranchCode(ca, cb, cr, last);
    }
  }

  lemma {:induction false} BranchesFit(h: Host, bs: Branches, locals: seq<Local>, pool: seq<Constant>, next: nat)
    requires InSlots(locals, next)
    ensures StmtFits(GenBranches(h, bs, locals, pool, next))
    decreases bs, 0
  {
    hide GenExpr, GenBlock, BranchCode;
    match bs
    case NoElse =>
    case Else(body) => BlockFits(h, body, locals, pool, next);
    case Branch(cond, body, rest) =>
      ExprFits(h, cond, locals, pool, next);
      var a := GenExpr(h, cond, locals, pool);
      if a.Some? {
        BlockFits(h, body, locals, a.value.pool, next);
        var b := GenBlock(h, body, locals, a.value.pool, next);
        if b.Some? {
          SlotsMore(locals, next, b.value.next);
          BranchesFit(h, rest, locals, b.value.pool, b.value.next);
          var c := GenBranches(h, rest, locals, b.value.pool, b.value.next);
          if c.Some? {
            FitsMore(a.value.code, 0, 0, a.value.pool, next, 0, 0, c.value.pool, c.value.next);
            FitsMore(b.value.code, 0, 0, b.value.pool, b.value.next, 0, 0, c.value.pool, c.value.next);
            BranchCodeFits(a.value.code, b.value.code, c.value.code, rest.NoElse?, c.value.pool, c.value.next);
          }
        }
      }
  }

  lemma WhileCodeFits(cond: seq<OpCode>, body: seq<OpCode>, pool: seq<Constant>, next: nat)
    requires Fits(cond, 0, 0, pool, next) && Fits(body, 0, 0, pool, next)
    ensures Fits(WhileCode(cond, body), 0, 0, pool, next)
  {
    var n := |cond| + |body| + 2;
    var tail := [LoopBack(-n), LoopEnd];
    assert Fits(tail, n - 1, 0, pool, next);
    FitsMore(body, 0, 0, pool, next, 0, 2, pool, next);
    FitsMore(body, 0, 2, pool, next, n - 1 - |body|, 2, pool, next);
    FitsJoined(body, tail, n - 1 - |body|, 0, pool, next);
    var jump := [JumpIfFalse(|body| + 1)];
    assert Fits(jump, n - 2 - |body|, |body| + 2, pool, next);
    FitsJoined(jump, body + tail, n - 2 - |body|, 0, pool, next);
    FitsMore(cond, 0, 0, pool, next, 0, |body| + 3, pool, next);
    FitsJoined(cond, jump + (body + tail), 0, 0, pool, next);
    var code := cond + (jump + (body + tail));
    FitsMore(code, 0, 0, pool, next, 1, 0, pool, next);
    FitsJoined([LoopInit], code, 0, 0, pool, next);
    assert [LoopInit] + code == WhileCode(cond, body);
  }

  lemma {:induction false} WhileFits(h: Host, cond: Expr, body: Block, locals: seq<Local>, pool: seq<Constant>, next: nat)
    requires InSlots(locals, next) && GenStmt(h, While(cond, body), locals, pool, next).Some?
    ensures StmtFits(GenStmt(h, While(cond, body), locals, pool, next))
    decreases body, 1
  {
    hide GenExpr, GenBlock, Fits;
    ExprFits(h, cond, locals, pool, next);
    var a := GenExpr(h, cond, locals, pool).value;
    BlockFits(h, body, locals, a.pool, next);
    var b := GenBlock(h, body, locals, a.pool, next).value;
    SlotsMore(locals, next, b.next);
    FitsMore(a.code, 0, 0, a.pool, next, 0, 0, b.pool, b.next);
    WhileCodeFits(a.code, b.code, b.pool, b.next);
  }

  lemma IncrementFits(slot: nat, one: nat, pool: seq<Constant>, next: nat)
    requires slot < next && one < |pool|
    ensures Fits(Increment(slot, one), 0, 0, pool, next)
  {
  }

  lemma TestsFit(slot: nat, pool: seq<Constant>, next: nat)
    requires slot + 2 < next
    ensures Fits(InTest(slot), 0, 0, pool, next) && Fits(LoadItem(slot), 0, 0, pool, next)
  {
  }

  lemma RangeTestFits(slot: nat, pool: seq<Constant>, next: nat)
    requires slot + 1 < next
    ensures Fits(RangeTest(slot), 0, 0, pool, next)
  {
  }

  lemma RangeCodeFits(ce: seq<OpCode>, cs: seq<OpCode>, cb: seq<OpCode>, slot: nat, one: nat, pool: seq<Constant>, next: nat)
    requires Fits(ce, 0, 0, pool, next) && Fits(cs, 0, 0, pool, next) && Fits(cb, 0, 0, pool, next) && slot + 1 < next && one < |pool|
    ensures Fits(RangeCode(ce, cs, cb, slot, one), 0, 0, pool, next)
  {
    hide Fits, WhileCode;
    IncrementFits(slot + 1, one, pool, next);
    FitsAppend(cb, Increment(slot + 1, one), pool, next);
    RangeTestFits(slot, pool, next);
    var loop := WhileCode(RangeTest(slot), cb + Increment(slot + 1, one));
    WhileCodeFits(RangeTest(slot), cb + Increment(slot + 1, one), pool, next);
    FitsForward(cs, SetLocal(slot + 1), loop, pool, next);
    FitsForward(ce, SetLocal(slot), cs + [SetLocal(slot + 1)] + loop, pool, next);
    assert ce + [SetLocal(slot)] + (cs + [SetLocal(slot + 1)] + loop) == RangeCode(ce, cs, cb, slot, one);
  }

  lemma {:induction false} RangeFits(h: Host, x: string, start: Expr, end: Expr, body: Block, locals: seq<Local>, pool: seq<Constant>, next: nat)
    requires InSlots(locals, next) && GenRange(h, x, start, end, body, locals, pool, next).Some?
    ensures StmtFits(GenRange(h, x, start, end, body, locals, pool, next))
    decreases body, 1
  {
    hide GenExpr, GenBlock, Fits, RangeCode, AddConst;
    ExprFits(h, end, locals, pool, next);
    var a := GenExpr(h, end, locals, pool).value;
    var locals1 := locals + [Local("__range_end__", next, false)];
    ExprFits(h, start, locals1, a.pool, next + 1);
    var b := GenExpr(h, start, locals1, a.pool).value;
    BlockFits(h, body, locals1 + [Local(x, next + 1, false)], b.pool, next + 2);
    var c := GenBlock(h, body, locals1 + [Local(x, next + 1, false)], b.pool, next + 2).value;
    var (one, pool') := AddConst(c.pool, IntConst(1)).value;
    FitsMore(a.code, 0, 0, a.pool, next, 0, 0, pool', c.next);
    FitsMore(b.code, 0, 0, b.pool, next + 1, 0, 0, pool', c.next);
    FitsMore(c.code, 0, 0, c.pool, c.next, 0, 0, pool', c.next);
    RangeCodeFits(a.code, b.code, c.code, next, one, pool', c.next);
    SlotsMore(locals, next, c.next);
  }

  lemma InCodeFits(cl: seq<OpCode>, cb: seq<OpCode>, slot: nat, zero: nat, one: nat, pool: seq<Constant>, next: nat)
    requires Fits(cl, 0, 0, pool, next) && Fits(cb, 0, 0, pool, next) && slot + 2 < next && zero < |pool| && one < |pool|
    ensures Fits(InCode(cl, cb, slot, zero, one), 0, 0, pool, next)
  {
    hide Fits, WhileCode;
    IncrementFits(slot + 1, one, pool, next);
    TestsFit(slot, pool, next);
    FitsAppend(LoadItem(slot), cb, pool, next);
    FitsAppend(LoadItem(slot) + cb, Increment(slot + 1, one), pool, next);
    var loop := WhileCode(InTest(slot), LoadItem(slot) + cb + Increment(slot + 1, one));
    WhileCodeFits(InTest(slot), LoadItem(slot) + cb + Increment(slot + 1, one), pool, next);
    FitsForward(cl, SetLocal(slot), [], pool, next);
    FitsForward(cl + [SetLocal(slot)] + [], LoadConst(zero), [], pool, next);
    FitsForward(cl + [SetLocal(slot)] + [] + [LoadConst(zero)] + [], SetLocal(slot + 1), loop, pool, next);
    assert cl + [SetLocal(slot)] + [] + [LoadConst(zero)] + [] + [SetLocal(slot + 1)] + loop == InCode(cl, cb, slot, zero, one);
  }

  lemma {:induction false} InFits(h: Host, x: string, iterable: Expr, body: Block, locals: seq<Local>, pool: seq<Constant>, next: nat)
    requires InSlots(locals, next) && GenIn(h, x, iterable, body, locals, pool, next).Some?
    ensures StmtFits(GenIn(h, x, iterable, body, locals, pool, next))
    decreases body, 1
  {
    hide GenExpr, GenBlock, Fits, InCode, AddConst;
    ExprFits(h, iterable, locals, pool, next);
    var a := GenExpr(h, iterable, locals, pool).value;
    var (zero, pool0) := AddConst(a.pool, IntConst(0)).value;
    var locals1 := locals + [Local("__list__", next, false), Local("__idx__", next + 1, true), Local(x, next + 2, false)];
    BlockFits(h, body, locals1, pool0, next + 3);
    var b := GenBlock(h, body, locals1, pool0, next + 3).value;
    var (one, pool1) := AddConst(b.pool, IntConst(1)).value;
    FitsMore(a.code, 0, 0, a.pool, next, 0, 0, pool1, b.next);
    FitsMore(b.code, 0, 0, b.pool, b.next, 0, 0, pool1, b.next);
    InCodeFits(a.code, b.code, next, zero, one, pool1, b.next);
    SlotsMore(locals, next, b.next);
  }

  lemma ScriptFits(h: Host, p: Block, script: Script)
    requires Compile(h, p) == Some(script)
    ensures Fits(script.code, 0, 0, script.constants, script.localCount)
  {
    hide GenBlock;
    BlockFits(h, p, [], [], 0);
    var g := GenBlock(h, p, [], [], 0).value;
    FitsAppend(g.code, [ReturnNextOp], g.pool, g.next);
    assert g.code + [] == g.code;
  }

  // ---------- Reachable states ----------

  /** The state after `k` instructions that went on, if there were that many. */
  function After(cycle: State -> Outcome, st: State, k: nat): Option<State> {
    if k == 0 then Some(st)
    else
      match After(cycle, st, k - 1)
      case None => None
      case Some(mid) =>
        match cycle(mid) case Go(next) => Some(next) case Halt(_) => None
  }

  /** The next instruction, if any, finds its operands (unless the call budget stops it before), its slot, its
      constant, its jump target and the loop it closes. */
  ghost predicate WellPlaced(m: Machine, script: Script, st: State) {
    st.pc <= |script.code| && |st.locals| == script.localCount &&
    (st.pc < |script.code| ==>
      var op := script.code[st.pc];
      (Pops(m, op) <= |st.stack| || (op.CallBuiltin? && st.w.calls == 0)) &&
      OperandOk(op, script.constants, |st.locals|) &&
      (JumpOf(op).Some? ==> 0 <= st.pc + 1 + JumpOf(op).value <= |script.code|) &&
      (op.LoopBack? ==> st.loops != []))
  }

  lemma {:induction false} AfterRuns(cycle: State -> Outcome, st: State, k: nat, steps: nat)
    requires After(cycle, st, k).Some?
    ensures Run(cycle, st, k + steps) == Run(cycle, After(cycle, st, k).value, steps)
    decreases k
  {
    if k > 0 {
      AfterRuns(cycle, st, k - 1, steps + 1);
    }
  }

  /** Without an operand, or a loop to go back to, the machine stops with an internal error. */
  lemma MissingStops(m: Machine, script: Script, st: State)
    requires st.pc < |script.code|
    requires var op := script.code[st.pc];
      (Pops(m, op) > |st.stack| && !(op.CallBuiltin? && st.w.calls == 0)) || (op.LoopBack? && st.loops == [])
    ensures Cycle(m, script, st) == Halt(Failed(Internal, st.w.trace))
  {
  }

  lemma StepKeeps(m: Machine, script: Script, st: State)
    requires st.pc <= |script.code| && |st.locals| == script.localCount && Cycle(m, script, st).Go?
    ensures var next := Cycle(m, script, st).st; next.pc <= |script.code| && |next.locals| == script.localCount
  {
  }

  lemma {:induction false} AfterKeeps(m: Machine, script: Script, k: nat)
    requires After(Cycles(m, script), Start(m, script), k).Some?
    ensures var st := After(Cycles(m, script), Start(m, script), k).value; st.pc <= |script.code| && |st.locals| == script.localCount
  {
    hide Cycle;
    if k > 0 {
      AfterKeeps(m, script, k - 1);
      StepKeeps(m, script, After(Cycles(m, script), Start(m, script), k - 1).value);
    }
  }

  /** Every state that a compiled script reaches, under any limits, is well placed. */
  lemma ReachableWellPlaced(m: Machine, p: Block, script: Script, k: nat)
    requires Tame(m.host) && Compile(m.host, p) == Some(script)
    requires After(Cycles(m, script), Start(m, script), k).Some?
    ensures WellPlaced(m, script, After(Cycles(m, script), Start(m, script), k).value)
  {
    hide Tame, Compile, Cycle, Start, OperandOk;
    var cycle, start := Cycles(m, script), Start(m, script);
    var st := After(cycle, start, k).value;
    AfterKeeps(m, script, k);
    ScriptFits(m.host, p, script);
    NeverInternal(m, p, script, k + 1);
    AfterRuns(cycle, start, k, 1);
    RunStep(m, script, st, 1);
    if st.pc < |script.code| {
      var op := script.code[st.pc];
      if (Pops(m, op) > |st.stack| && !(op.CallBuiltin? && st.w.calls == 0)) || (op.LoopBack? && st.loops == []) {
        MissingStops(m, script, st);
      }
    }
  }
}
