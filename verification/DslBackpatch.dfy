// The compiler as it works: instructions are appended, jumps are emitted as placeholders and patched
// once their target is known, scopes are a stack of variables with depths.

module DslBackpatch {
  import opened Common
  import opened DslSyntax
  import opened DslCompiler

  datatype Scoped = Scoped(local: Local, depth: nat)

  function Visible(ls: seq<Scoped>): (vs: seq<Local>)
    ensures |vs| == |ls| && forall i :: 0 <= i < |ls| ==> vs[i] == ls[i].local
  {
    seq(|ls|, i requires 0 <= i < |ls| => ls[i].local)
  }

  /** Depths never decrease along the stack and never exceed the current depth. */
  ghost predicate Nested(ls: seq<Scoped>, depth: nat) {
    (forall i, j :: 0 <= i < j < |ls| ==> ls[i].depth <= ls[j].depth) && (forall i :: 0 <= i < |ls| ==> ls[i].depth <= depth)
  }

  /** `op` with its offset set, if it is a jump. */
  function WithOffset(op: OpCode, offset: int): OpCode {
    match op
    case Jump(_) => Jump(offset)
    case JumpIfFalse(_) => JumpIfFalse(offset)
    case _ => op
  }

  /** Nothing has changed but the instruction at `idx`, which leads to the end if it is a jump, and only then is another. */
  predicate Redirected(before: seq<OpCode>, after: seq<OpCode>, idx: nat) {
    idx < |before| == |after| && (forall i :: 0 <= i < |after| && i != idx ==> after[i] == before[i]) &&
    (after[idx].Jump? <==> before[idx].Jump?) && (after[idx].JumpIfFalse? <==> before[idx].JumpIfFalse?) &&
    if after[idx].Jump? || after[idx].JumpIfFalse? then idx + 1 + after[idx].offset == |after| else after[idx] == before[idx]
  }

  /** So it has that offset. */
  lemma PatchedAt(before: seq<OpCode>, after: seq<OpCode>, idx: nat)
    requires Redirected(before, after, idx)
    ensures idx < |before| && after == before[idx := WithOffset(before[idx], |before| - (idx + 1))]
  {
  }

  class Compiler {
    const host: Host
    var code: seq<OpCode>
    var constants: seq<Constant>
    var locals: seq<Scoped>
    var nextSlot: nat
    var scopeDepth: nat

    constructor (h: Host)
      ensures host == h && code == [] && constants == [] && locals == [] && nextSlot == 0 && scopeDepth == 0
    {
      host, code, constants, locals, nextSlot, scopeDepth := h, [], [], [], 0, 0;
    }

    method Emit(op: OpCode) returns (idx: nat)
      modifies this`code
      ensures idx == |old(code)| && code == old(code) + [op]
    {
      idx := |code|;
      code := code + [op];
    }

    /** Makes the jump at `idx` lead to the next instruction to be emitted. */
    method PatchJump(idx: nat)
      requires idx < |code|
      modifies this`code
      ensures Redirected(old(code), code, idx)
    {
      code := code[idx := WithOffset(code[idx], |code| - (idx + 1))];
    }

    // ---------- Scopes ----------

    method DeclareLocal(name: string, mutable: bool) returns (slot: Option<nat>)
      requires Nested(locals, scopeDepth)
      modifies this`locals, this`nextSlot
      ensures Nested(locals, scopeDepth)
      ensures slot.None? <==> old(nextSlot) >= MAX_SLOTS
      ensures slot.None? ==> locals == old(locals) && nextSlot == old(nextSlot)
      ensures slot.Some? ==> slot.value == old(nextSlot) && nextSlot == old(nextSlot) + 1
      ensures slot.Some? ==> locals == old(locals) + [Scoped(Local(name, old(nextSlot), mutable), scopeDepth)]
      ensures slot.Some? ==> Visible(locals) == Visible(old(locals)) + [Local(name, old(nextSlot), mutable)]
    {
      if nextSlot >= MAX_SLOTS {
        return None;
      }
      slot := Some(nextSlot);
      locals := locals + [Scoped(Local(name, nextSlot, mutable), scopeDepth)];
      nextSlot := nextSlot + 1;
    }

    method EnterScope()
      requires Nested(locals, scopeDepth)
      modifies this`scopeDepth
      ensures scopeDepth == old(scopeDepth) + 1 && Nested(locals, scopeDepth)
    {
      scopeDepth := scopeDepth + 1;
    }

    /** Pops the variables of the current depth: exactly those declared since the scope was entered. */
    method LeaveScope(ghost outer: seq<Scoped>)
      requires scopeDepth > 0 && Nested(locals, scopeDepth) && outer <= locals && Nested(outer, scopeDepth - 1)
      requires forall i :: |outer| <= i < |locals| ==> locals[i].depth == scopeDepth
      modifies this`locals, this`scopeDepth
      ensures locals == outer && scopeDepth == old(scopeDepth) - 1 && Nested(locals, scopeDepth)
    {
      while locals != [] && locals[|locals| - 1].depth >= scopeDepth
        invariant outer <= locals <= old(locals) && scopeDepth == old(scopeDepth)
        decreases |locals|
      {
        locals := locals[..|locals| - 1];
      }
      assert locals == outer;
      scopeDepth := scopeDepth - 1;
    }

    // ---------- Expressions ----------

    method CompileExpr(e: Expr) returns (ok: bool)
      modifies this`code, this`constants
      ensures var g := GenExpr(host, e, Visible(locals), old(constants));
        ok == g.Some? && (ok ==> code == old(code) + g.value.code && constants == g.value.pool)
      decreases e, 1
    {
      hide IndexOf, Resolve;
      match e
      case Literal(v) => ok := CompileLiteral(v);
      case Ident(x) =>
        var i := Resolve(Visible(locals), x);
        ok := i < |locals|;
        if ok {
          var _ := Emit(GetLocal(locals[i].local.slot));
        }
      case ShortCircuit(isAnd, l, r) => ok := CompileShortCircuit(isAnd, l, r);
      case Operate(op, operands) =>
        var o := GenOperation(host, op, constants);
        ok := o.Some? && ArgCount(operands) == Arity(host, op);
        if ok {
          constants := o.value.1;
          ok := CompileArgs(operands);
          if ok {
            var _ := Emit(o.value.0);
          }
        }
    }

    method CompileLiteral(v: Value) returns (ok: bool)
      modifies this`code, this`constants
      ensures var g := GenLiteral(v, old(constants));
        ok == g.Some? && (ok ==> code == old(code) + g.value.code && constants == g.value.pool)
    {
      ok := true;
      match v
      case Bool(b) => var _ := Emit(LoadBool(b));
      case Nil => var _ := Emit(LoadNil);
      case List(_) => ok := false;
      case Str(s) => ok := EmitConst(StrConst(s));
      case Int(n) => ok := EmitConst(IntConst(n));
    }

    method EmitConst(c: Constant) returns (ok: bool)
      modifies this`code, this`constants
      ensures var a := AddConst(old(constants), c);
        ok == a.Some? && (ok ==> code == old(code) + [LoadConst(a.value.0)] && constants == a.value.1)
    {
      var a := AddConst(constants, c);
      ok := a.Some?;
      if ok {
        constants := a.value.1;
        var _ := Emit(LoadConst(a.value.0));
      }
    }

    /** The jump past the right operand and the jump past the literal are both patched in place. */
    method CompileShortCircuit(isAnd: bool, l: Expr, r: Expr) returns (ok: bool)
      modifies this`code, this`constants
      ensures var g := GenExpr(host, ShortCircuit(isAnd, l, r), Visible(locals), old(constants));
        ok == g.Some? && (ok ==> code == old(code) + g.value.code && constants == g.value.pool)
      decreases ShortCircuit(isAnd, l, r), 0
    {
      hide GenExpr, ShortCircuitTest, WithOffset, Redirected;
      GenShortCircuit(host, isAnd, l, r, Visible(locals), constants);
      ok := CompileExpr(l);
      if !ok {
        return;
      }
      ghost var a := code;
      if !isAnd {
        var _ := Emit(NotOp);
      }
      var falseJump := Emit(JumpIfFalse(0));
      ok := CompileRight(isAnd, r, falseJump, a);
    }

    /** The right operand, the jump past the literal, and the literal the test jumps to. */
    method CompileRight(isAnd: bool, r: Expr, falseJump: nat, ghost a: seq<OpCode>) returns (ok: bool)
      requires code == a + (if isAnd then [] else [NotOp]) + [JumpIfFalse(0)] && falseJump == |code| - 1
      modifies this`code, this`constants
      ensures var g := GenExpr(host, r, Visible(locals), old(constants));
        ok == g.Some? &&
        (ok ==> code == a + ShortCircuitTest(isAnd, |g.value.code|) + g.value.code + [Jump(1), LoadBool(!isAnd)] && constants == g.value.pool)
      decreases r, 2
    {
      hide GenExpr, ShortCircuitTest, WithOffset, Redirected;
      ghost var g := GenExpr(host, r, Visible(locals), constants);
      ok := CompileExpr(r);
      if !ok {
        return;
      }
      ghost var b := g.value.code;
      var endJump := Emit(Jump(0));
      PatchedTest(a, isAnd, b);
      ghost var unpatched := code;
      PatchJump(falseJump);
      PatchedAt(unpatched, code, falseJump);
      ghost var d := a + ShortCircuitTest(isAnd, |b|) + b;
      assert code == d + [Jump(0)];
      var _ := Emit(LoadBool(!isAnd));
      PatchedEnd(d, LoadBool(!isAnd));
      unpatched := code;
      PatchJump(endJump);
      PatchedAt(unpatched, code, endJump);
    }

    method CompileArgs(args: Args) returns (ok: bool)
      modifies this`code, this`constants
      ensures var g := GenArgs(host, args, Visible(locals), old(constants));
        ok == g.Some? && (ok ==> code == old(code) + g.value.code && constants == g.value.pool)
      decreases args, 0
    {
      match args
      case NoArgs => ok := true;
      case Arg(e, rest) =>
        ok := CompileExpr(e);
        if ok {
          ok := CompileArgs(rest);
        }
    }

    // ---------- Statements ----------

    method CompileStmt(s: Stmt) returns (ok: bool)
      requires Nested(locals, scopeDepth)
      modifies this
      ensures Emitted(GenStmt(host, s, Visible(old(locals)), old(constants), old(nextSlot)), ok, old(code), code, constants,
                      nextSlot, old(locals), locals, old(scopeDepth), scopeDepth)
      decreases s, 0
    {
      hide GenExpr, GenBlock, Resolve;
      match s
      case Let(name, mutable, e) => ok := CompileLet(name, mutable, e);
      case Assign(name, e) => ok := CompileAssign(name, e);
      case If(branches) => ok := CompileIf(branches);
      case ForRange(x, start, end, body) => ok := CompileForRange(x, start, end, body);
      case ForIn(x, iterable, body) => ok := CompileForIn(x, iterable, body);
      case While(cond, body) => ok := CompileWhile(cond, body);
      case ReturnDeny(status, message) =>
        ok := CompileExpr(status);
        if ok {
          ok := CompileExpr(message);
          if ok {
            var _ := Emit(ReturnDenyOp);
          }
        }
      case ReturnNext =>
        ok := true;
        var _ := Emit(ReturnNextOp);
      case ExprStmt(e) =>
        ok := CompileExpr(e);
        if ok {
          var _ := Emit(Pop);
        }
    }

    method CompileLet(name: string, mutable: bool, e: Expr) returns (ok: bool)
      requires Nested(locals, scopeDepth)
      modifies this
      ensures Emitted(GenStmt(host, Let(name, mutable, e), Visible(old(locals)), old(constants), old(nextSlot)), ok, old(code), code,
                      constants, nextSlot, old(locals), locals, old(scopeDepth), scopeDepth)
    {
      hide GenExpr;
      if Reserved(name) {
        return false;
      }
      ok := CompileExpr(e);
      if !ok {
        return;
      }
      var slot := DeclareLocal(name, mutable);
      if slot.None? {
        return false;
      }
      var _ := Emit(SetLocal(slot.value));
    }

    method CompileAssign(name: string, e: Expr) returns (ok: bool)
      requires Nested(locals, scopeDepth)
      modifies this`code, this`constants
      ensures Emitted(GenStmt(host, Assign(name, e), Visible(locals), old(constants), nextSlot), ok, old(code), code,
                      constants, nextSlot, locals, locals, scopeDepth, scopeDepth)
    {
      hide GenExpr, Resolve;
      var i := Resolve(Visible(locals), name);
      if i == |locals| || !locals[i].local.mutable {
        return false;
      }
      ok := CompileExpr(e);
      if ok {
        var _ := Emit(SetLocal(locals[i].local.slot));
      }
    }

    method CompileBlock(b: Block) returns (ok: bool)
      requires Nested(locals, scopeDepth)
      modifies this
      ensures Emitted(GenBlock(host, b, Visible(old(locals)), old(constants), old(nextSlot)), ok, old(code), code, constants,
                      nextSlot, old(locals), locals, old(scopeDepth), scopeDepth)
      decreases b, 0
    {
      hide GenStmt;
      match b
      case Empty => ok := true;
      case Seq(s, rest) =>
        ok := CompileStmt(s);
        if ok {
          ok := CompileBlock(rest);
        }
    }

    /** All branches, then every jump past the end is patched. */
    method CompileIf(branches: Branches) returns (ok: bool)
      requires Nested(locals, scopeDepth)
      modifies this
      ensures Emitted(GenBranches(host, branches, Visible(old(locals)), old(constants), old(nextSlot)), ok, old(code), code, constants,
                      nextSlot, old(locals), locals, old(scopeDepth), scopeDepth)
      decreases branches, 1
    {
      hide GenBranches, Sealable, PartlySealed, WithOffset, Redirected;
      ghost var g := GenBranches(host, branches, Visible(locals), constants, nextSlot);
      var endJumps;
      ok, endJumps := CompileBranches(branches);
      if !ok {
        return;
      }
      ghost var holed := code;
      NothingSealed(old(code), holed, endJumps, g.value.code);
      for i := 0 to |endJumps|
        invariant PartlySealed(old(code), holed, code, endJumps, i)
        invariant constants == g.value.pool && nextSlot == g.value.next && locals == old(locals) && scopeDepth == old(scopeDepth)
      {
        assert endJumps[i] in endJumps;
        SealOne(old(code), holed, code, endJumps, i);
        ghost var unpatched := code;
        PatchJump(endJumps[i]);
        PatchedAt(unpatched, code, endJumps[i]);
      }
      AllSealed(old(code), holed, code, endJumps, g.value.code);
    }

    /** The branches from here on; `endJumps` are the placeholders that must lead past the last of them. */
    method CompileBranches(bs: Branches) returns (ok: bool, endJumps: seq<nat>)
      requires Nested(locals, scopeDepth)
      modifies this
      ensures var g := GenBranches(host, bs, Visible(old(locals)), old(constants), old(nextSlot));
        ok == g.Some? &&
        (ok ==> constants == g.value.pool && nextSlot == g.value.next && locals == old(locals) && scopeDepth == old(scopeDepth) &&
                Sealable(old(code), code, endJumps, g.value.code))
      decreases bs, 0
    {
      hide GenExpr, GenBlock, Sealable, Nested, Redirected;
      endJumps := [];
      match bs
      case NoElse =>
        ok := true;
        NothingToSeal(code, []);
        assert code + [] == code;
      case Else(body) =>
        ok := CompileScope(body);
        if ok {
          NothingToSeal(old(code), code[|old(code)|..]);
          assert old(code) + code[|old(code)|..] == code;
        }
      case Branch(cond, body, rest) =>
        ok := CompileExpr(cond);
        if !ok {
          return;
        }
        ghost var a := code[|old(code)|..];
        var falseJump := Emit(JumpIfFalse(0));
        ok := CompileScope(body);
        if !ok {
          return;
        }
        ghost var b := code[falseJump + 1..];
        var endJump := |code|;
        if !rest.NoElse? {
          var _ := Emit(Jump(0));
        }
        ghost var unpatched := code;
        PatchJump(falseJump);
        PatchedAt(unpatched, code, falseJump);
        PatchedBranch(old(code), a, b, rest.NoElse?);
        ghost var before := code;
        ghost var gr := GenBranches(host, rest, Visible(locals), constants, nextSlot);
        ok, endJumps := CompileBranches(rest);
        if ok {
          ghost var later := endJumps;
          if !rest.NoElse? {
            endJumps := [endJump] + endJumps;
            assert endJumps[1..] == later;
          }
          BranchSealable(old(code), a, b, rest.NoElse?, before, code, endJumps, gr.value.code);
        }
    }

    // ---------- Loops ----------

    /** The backward jump, the exit that skips it, and the end marker. */
    method CloseLoop(loopStart: nat, exitJump: nat, ghost pre: seq<OpCode>, ghost ca: seq<OpCode>, ghost cb: seq<OpCode>)
      requires code == pre + [LoopInit] + ca + [JumpIfFalse(0)] + cb
      requires loopStart == |pre| + 1 && exitJump == |pre| + 1 + |ca|
      modifies this`code
      ensures code == pre + WhileCode(ca, cb)
    {
      var back := loopStart - (|code| + 1);
      var _ := Emit(LoopBack(back));
      PatchedExit(pre, ca, cb);
      ghost var unpatched := code;
      PatchJump(exitJump);
      PatchedAt(unpatched, code, exitJump);
      var _ := Emit(LoopEnd);
    }

    method CompileWhile(cond: Expr, body: Block) returns (ok: bool)
      requires Nested(locals, scopeDepth)
      modifies this
      ensures Emitted(GenStmt(host, While(cond, body), Visible(old(locals)), old(constants), old(nextSlot)), ok, old(code), code,
                      constants, nextSlot, old(locals), locals, old(scopeDepth), scopeDepth)
      decreases body, 2
    {
      hide GenExpr, GenBlock, WhileCode;
      EnterScope();
      var _ := Emit(LoopInit);
      var loopStart := |code|;
      ok := CompileExpr(cond);
      if !ok {
        return;
      }
      ghost var ca := code[loopStart..];
      var exitJump := Emit(JumpIfFalse(0));
      ok := CompileScope(body);
      if !ok {
        return;
      }
      CloseLoop(loopStart, exitJump, old(code), ca, code[exitJump + 1..]);
      this.LeaveScope(old(locals));
    }

    /** Adds one to the variable in a slot. */
    method EmitIncrement(slot: nat) returns (ok: bool)
      modifies this`code, this`constants
      ensures var a := AddConst(old(constants), IntConst(1));
        ok == a.Some? && (ok ==> code == old(code) + Increment(slot, a.value.0) && constants == a.value.1)
    {
      var _ := Emit(GetLocal(slot));
      ok := EmitConst(IntConst(1));
      if ok {
        var _ := Emit(Arith(Add));
        var _ := Emit(SetLocal(slot));
      }
    }

    /** An expression whose value goes to a new variable. */
    method CompileStored(e: Expr, name: string, mutable: bool) returns (ok: bool, slot: nat)
      requires Nested(locals, scopeDepth)
      modifies this`code, this`constants, this`locals, this`nextSlot
      ensures var g := GenExpr(host, e, Visible(old(locals)), old(constants));
        ok == (g.Some? && old(nextSlot) < MAX_SLOTS) &&
        (ok ==> slot == old(nextSlot) && nextSlot == slot + 1 && code == old(code) + g.value.code + [SetLocal(slot)] && constants == g.value.pool)
      ensures ok ==> locals == old(locals) + [Scoped(Local(name, slot, mutable), scopeDepth)] && Nested(locals, scopeDepth)
      ensures ok ==> Visible(locals) == Visible(old(locals)) + [Local(name, slot, mutable)]
    {
      hide GenExpr;
      slot := nextSlot;
      ok := CompileExpr(e);
      if !ok {
        return;
      }
      var declared := DeclareLocal(name, mutable);
      if declared.None? {
        return false, slot;
      }
      var _ := Emit(SetLocal(slot));
    }

    /** The loop proper of a range, its bounds being in `slot` and `slot + 1`. */
    method CompileRangeLoop(body: Block, slot: nat) returns (ok: bool)
      requires Nested(locals, scopeDepth)
      modifies this
      ensures var g := GenBlock(host, body, Visible(old(locals)), old(constants), old(nextSlot));
        ok == (g.Some? && AddConst(g.value.pool, IntConst(1)).Some?) &&
        (ok ==> var one := AddConst(g.value.pool, IntConst(1)).value;
          code == old(code) + WhileCode(RangeTest(slot), g.value.code + Increment(slot + 1, one.0)) && constants == one.1 &&
          nextSlot == g.value.next && locals == old(locals) && scopeDepth == old(scopeDepth))
      decreases body, 2
    {
      hide GenBlock, WhileCode, AddConst;
      var _ := Emit(LoopInit);
      var loopStart := |code|;
      var _ := Emit(GetLocal(slot + 1));
      var _ := Emit(GetLocal(slot));
      var _ := Emit(Arith(Lt));
      var exitJump := Emit(JumpIfFalse(0));
      ghost var test := code;
      assert test == old(code) + [LoopInit] + RangeTest(slot) + [JumpIfFalse(0)];
      ghost var g := GenBlock(host, body, Visible(locals), constants, nextSlot);
      ok := CompileScope(body);
      if !ok {
        return;
      }
      ok := EmitIncrement(slot + 1);
      if !ok {
        return;
      }
      ghost var cb := g.value.code + Increment(slot + 1, AddConst(g.value.pool, IntConst(1)).value.0);
      assert code == test + cb;
      CloseLoop(loopStart, exitJump, old(code), RangeTest(slot), cb);
    }

    /** The end of a range and then its start, each in a variable. */
    method CompileBounds(x: string, start: Expr, end: Expr) returns (ok: bool, slot: nat)
      requires Nested(locals, scopeDepth)
      modifies this`code, this`constants, this`locals, this`nextSlot
      ensures slot == old(nextSlot)
      ensures var a := GenExpr(host, end, Visible(old(locals)), old(constants));
        if a.None? || slot + 1 >= MAX_SLOTS then !ok
        else
          var b := GenExpr(host, start, Visible(old(locals)) + [Local("__range_end__", slot, false)], a.value.pool);
          ok == b.Some? && (ok ==> constants == b.value.pool) &&
          (ok ==> code == old(code) + (a.value.code + [SetLocal(slot)] + b.value.code + [SetLocal(slot + 1)]))
      ensures ok ==> nextSlot == slot + 2 && Nested(locals, scopeDepth)
      ensures ok ==>
        locals == old(locals) + [Scoped(Local("__range_end__", slot, false), scopeDepth), Scoped(Local(x, slot + 1, false), scopeDepth)]
      ensures ok ==> Visible(locals) == Visible(old(locals)) + [Local("__range_end__", slot, false)] + [Local(x, slot + 1, false)]
    {
      hide GenExpr, Nested;
      slot := nextSlot;
      var endSlot, varSlot;
      ok, endSlot := CompileStored(end, "__range_end__", false);
      if !ok {
        return;
      }
      ok, varSlot := CompileStored(start, x, false);
    }

    /** Everything within the scope of a range loop. */
    method CompileRange(x: string, start: Expr, end: Expr, body: Block) returns (ok: bool)
      requires Nested(locals, scopeDepth) && !Reserved(x)
      modifies this
      ensures var g := GenRange(host, x, start, end, body, Visible(old(locals)), old(constants), old(nextSlot));
        ok == g.Some? && (ok ==> code == old(code) + g.value.code && constants == g.value.pool && nextSlot == g.value.next)
      ensures ok ==> scopeDepth == old(scopeDepth) && Nested(locals, scopeDepth) && old(locals) <= locals
      ensures ok ==> forall i :: |old(locals)| <= i < |locals| ==> locals[i].depth == scopeDepth
      decreases body, 3
    {
      hide GenExpr, GenBlock, WhileCode, AddConst, RangeTest, Increment, Nested, RangeCode;
      var slot;
      ok, slot := CompileBounds(x, start, end);
      if !ok {
        return;
      }
      ghost var g := GenBlock(host, body, Visible(locals), constants, nextSlot);
      ok := CompileRangeLoop(body, slot);
      if !ok {
        return;
      }
      ghost var ge := GenExpr(host, end, Visible(old(locals)), old(constants)).value;
      ghost var gs := GenExpr(host, start, Visible(old(locals)) + [Local("__range_end__", slot, false)], ge.pool).value;
      RangeCodeJoined(old(code), ge.code, gs.code, g.value.code, slot, AddConst(g.value.pool, IntConst(1)).value.0);
    }

    method CompileForRange(x: string, start: Expr, end: Expr, body: Block) returns (ok: bool)
      requires Nested(locals, scopeDepth)
      modifies this
      ensures Emitted(GenRange(host, x, start, end, body, Visible(old(locals)), old(constants), old(nextSlot)), ok, old(code), code,
                      constants, nextSlot, old(locals), locals, old(scopeDepth), scopeDepth)
      decreases body, 4
    {
      if Reserved(x) {
        return false;
      }
      hide GenRange;
      EnterScope();
      ok := CompileRange(x, start, end, body);
      if ok {
        this.LeaveScope(old(locals));
      }
    }

    /** The test of a list loop, and the jump out of it. */
    method EmitInTest(slot: nat) returns (loopStart: nat, exitJump: nat)
      modifies this`code
      ensures code == old(code) + [LoopInit] + InTest(slot) + [JumpIfFalse(0)]
      ensures loopStart == |old(code)| + 1 && exitJump == loopStart + |InTest(slot)|
    {
      var _ := Emit(LoopInit);
      loopStart := |code|;
      var _ := Emit(GetLocal(slot + 1));
      var _ := Emit(GetLocal(slot));
      var _ := Emit(ListLen);
      var _ := Emit(Arith(Lt));
      exitJump := Emit(JumpIfFalse(0));
    }

    /** The item at the index, into a new variable. */
    method EmitLoadItem(x: string, slot: nat) returns (ok: bool)
      requires Nested(locals, scopeDepth) && nextSlot == slot + 2
      modifies this`code, this`locals, this`nextSlot
      ensures ok == (slot + 2 < MAX_SLOTS)
      ensures ok ==> code == old(code) + LoadItem(slot) && nextSlot == slot + 3 && Nested(locals, scopeDepth)
      ensures ok ==> locals == old(locals) + [Scoped(Local(x, slot + 2, false), scopeDepth)]
      ensures ok ==> Visible(locals) == Visible(old(locals)) + [Local(x, slot + 2, false)]
    {
      var _ := Emit(GetLocal(slot));
      var _ := Emit(GetLocal(slot + 1));
      var _ := Emit(ListGet);
      var varSlot := DeclareLocal(x, false);
      if varSlot.None? {
        return false;
      }
      var _ := Emit(SetLocal(varSlot.value));
      return true;
    }

    /** The loop proper over a list, the list and the index being in `slot` and `slot + 1`. */
    method CompileInLoop(x: string, body: Block, slot: nat) returns (ok: bool)
      requires Nested(locals, scopeDepth) && nextSlot == slot + 2
      modifies this
      ensures var g := GenBlock(host, body, Visible(old(locals)) + [Local(x, slot + 2, false)], old(constants), slot + 3);
        ok == (slot + 2 < MAX_SLOTS && g.Some? && AddConst(g.value.pool, IntConst(1)).Some?) &&
        (ok ==> var one := AddConst(g.value.pool, IntConst(1)).value;
          code == old(code) + WhileCode(InTest(slot), LoadItem(slot) + g.value.code + Increment(slot + 1, one.0)) && constants == one.1 &&
          nextSlot == g.value.next && locals == old(locals) + [Scoped(Local(x, slot + 2, false), scopeDepth)] &&
          scopeDepth == old(scopeDepth) && Nested(locals, scopeDepth))
      decreases body, 2
    {
      hide GenBlock, WhileCode, AddConst, InTest, LoadItem, Increment, Nested;
      var loopStart, exitJump := EmitInTest(slot);
      ghost var test := code;
      ok := EmitLoadItem(x, slot);
      if !ok {
        return;
      }
      ghost var g := GenBlock(host, body, Visible(locals), constants, nextSlot);
      ok := CompileScope(body);
      if !ok {
        return;
      }
      ok := EmitIncrement(slot + 1);
      if !ok {
        return;
      }
      ghost var cb := LoadItem(slot) + g.value.code + Increment(slot + 1, AddConst(g.value.pool, IntConst(1)).value.0);
      assert code == test + cb;
      CloseLoop(loopStart, exitJump, old(code), InTest(slot), cb);
    }

    /** The list and a zero index, each in a hidden variable. */
    method CompileListAndIndex(iterable: Expr) returns (ok: bool, slot: nat)
      requires Nested(locals, scopeDepth)
      modifies this`code, this`constants, this`locals, this`nextSlot
      ensures var g := GenExpr(host, iterable, Visible(old(locals)), old(constants));
        ok == (g.Some? && AddConst(g.value.pool, IntConst(0)).Some? && old(nextSlot) + 1 < MAX_SLOTS) &&
        (ok ==> var zero := AddConst(g.value.pool, IntConst(0)).value;
          slot == old(nextSlot) && nextSlot == slot + 2 && constants == zero.1 &&
          code == old(code) + (g.value.code + [SetLocal(slot), LoadConst(zero.0), SetLocal(slot + 1)]))
      ensures ok ==> Nested(locals, scopeDepth)
      ensures ok ==>
        locals == old(locals) + [Scoped(Local("__list__", slot, false), scopeDepth), Scoped(Local("__idx__", slot + 1, true), scopeDepth)]
    {
      hide GenExpr, AddConst, Nested;
      ok, slot := CompileStored(iterable, "__list__", false);
      if !ok {
        return;
      }
      GenZero(host, Visible(locals), constants);
      var idxSlot;
      ok, idxSlot := CompileStored(Literal(Int(0)), "__idx__", true);
    }

    /** Everything within the scope of a list loop. */
    method CompileIn(x: string, iterable: Expr, body: Block) returns (ok: bool)
      requires Nested(locals, scopeDepth) && !Reserved(x)
      modifies this
      ensures var g := GenIn(host, x, iterable, body, Visible(old(locals)), old(constants), old(nextSlot));
        ok == g.Some? && (ok ==> code == old(code) + g.value.code && constants == g.value.pool && nextSlot == g.value.next)
      ensures ok ==> scopeDepth == old(scopeDepth) && Nested(locals, scopeDepth) && old(locals) <= locals
      ensures ok ==> forall i :: |old(locals)| <= i < |locals| ==> locals[i].depth == scopeDepth
      decreases body, 3
    {
      hide GenExpr, GenBlock, WhileCode, AddConst, InTest, LoadItem, Increment, Nested, InCode;
      var slot;
      ok, slot := CompileListAndIndex(iterable);
      if !ok {
        return;
      }
      ghost var all := Visible(old(locals)) +
        [Local("__list__", slot, false), Local("__idx__", slot + 1, true), Local(x, slot + 2, false)];
      assert Visible(locals) + [Local(x, slot + 2, false)] == all;
      ghost var g := GenBlock(host, body, all, constants, slot + 3);
      ok := CompileInLoop(x, body, slot);
      if !ok {
        return;
      }
      ghost var ga := GenExpr(host, iterable, Visible(old(locals)), old(constants)).value;
      InCodeJoined(old(code), ga.code, g.value.code, slot, AddConst(ga.pool, IntConst(0)).value.0,
                   AddConst(g.value.pool, IntConst(1)).value.0);
    }

    method CompileForIn(x: string, iterable: Expr, body: Block) returns (ok: bool)
      requires Nested(locals, scopeDepth)
      modifies this
      ensures Emitted(GenIn(host, x, iterable, body, Visible(old(locals)), old(constants), old(nextSlot)), ok, old(code), code,
                      constants, nextSlot, old(locals), locals, old(scopeDepth), scopeDepth)
      decreases body, 4
    {
      if Reserved(x) {
        return false;
      }
      hide GenIn;
      EnterScope();
      ok := CompileIn(x, iterable, body);
      if ok {
        this.LeaveScope(old(locals));
      }
    }

    /** A block in a scope of its own. */
    method CompileScope(b: Block) returns (ok: bool)
      requires Nested(locals, scopeDepth)
      modifies this
      ensures Emitted(DslCompiler.LeaveScope(GenBlock(host, b, Visible(old(locals)), old(constants), old(nextSlot)), Visible(old(locals))),
                      ok, old(code), code, constants, nextSlot, old(locals), locals, old(scopeDepth), scopeDepth)
      ensures ok ==> locals == old(locals)
      decreases b, 1
    {
      hide GenBlock;
      EnterScope();
      ok := CompileBlock(b);
      if ok {
        this.LeaveScope(old(locals));
      }
    }
  }

  lemma RangeCodeJoined(pre: seq<OpCode>, ce: seq<OpCode>, cs: seq<OpCode>, cb: seq<OpCode>, slot: nat, one: nat)
    ensures pre + (ce + [SetLocal(slot)] + cs + [SetLocal(slot + 1)]) + WhileCode(RangeTest(slot), cb + Increment(slot + 1, one)) ==
      pre + RangeCode(ce, cs, cb, slot, one)
  {
    hide WhileCode, RangeTest, Increment;
  }

  lemma InCodeJoined(pre: seq<OpCode>, cl: seq<OpCode>, cb: seq<OpCode>, slot: nat, zero: nat, one: nat)
    ensures pre + (cl + [SetLocal(slot), LoadConst(zero), SetLocal(slot + 1)])
      + WhileCode(InTest(slot), LoadItem(slot) + cb + Increment(slot + 1, one)) == pre + InCode(cl, cb, slot, zero, one)
  {
    hide WhileCode, InTest, LoadItem, Increment;
  }

  /** `Compiler::compile`: the program's statements, and a final return if there is none. */
  method CompileProgram(h: Host, p: Block) returns (script: Option<Script>)
    ensures script == Compile(h, p)
  {
    hide GenBlock;
    var c := new Compiler(h);
    assert Visible(c.locals) == [];
    var ok := c.CompileBlock(p);
    if !ok {
      return None;
    }
    ghost var g := GenBlock(h, p, [], [], 0).value;
    assert [] + g.code == g.code && g.code + [] == g.code;
    if !EndsWithReturn(c.code) {
      var _ := c.Emit(ReturnNextOp);
    }
    script := Some(Script(c.code, c.constants, c.nextSlot));
  }

  /** What a successful compilation step leaves: the generated code appended, and only variables of the current depth added. */
  ghost predicate Emitted(g: Option<StmtGen>, ok: bool, code0: seq<OpCode>, code: seq<OpCode>, constants: seq<Constant>, next: nat,
                          locals0: seq<Scoped>, locals: seq<Scoped>, depth0: nat, depth: nat)
  {
    ok == g.Some? &&
    (ok ==>
      code == code0 + g.value.code && constants == g.value.pool && next == g.value.next && Visible(locals) == g.value.locals &&
      locals0 <= locals && depth == depth0 && Nested(locals, depth) && forall i :: |locals0| <= i < |locals| ==> locals[i].depth == depth)
  }

  lemma GenZero(h: Host, locals: seq<Local>, pool: seq<Constant>)
    ensures var a := AddConst(pool, IntConst(0));
      GenExpr(h, Literal(Int(0)), locals, pool) == if a.None? then None else Some(Gen([LoadConst(a.value.0)], a.value.1))
  {
    hide AddConst;
  }

  lemma GenShortCircuit(h: Host, isAnd: bool, l: Expr, r: Expr, locals: seq<Local>, pool: seq<Constant>)
    ensures GenExpr(h, ShortCircuit(isAnd, l, r), locals, pool) ==
      var a := GenExpr(h, l, locals, pool);
      if a.None? then None
      else
        var b := GenExpr(h, r, locals, a.value.pool);
        if b.None? then None
        else Some(Gen(a.value.code + ShortCircuitTest(isAnd, |b.value.code|) + b.value.code + [Jump(1), LoadBool(!isAnd)], b.value.pool))
  {
  }

  /** Patching the test of a short-circuit operator, its right operand and a jump being emitted. */
  lemma PatchedTest(a: seq<OpCode>, isAnd: bool, b: seq<OpCode>)
    ensures var c := a + (if isAnd then [] else [NotOp]) + [JumpIfFalse(0)] + b + [Jump(0)];
      var i := |a| + if isAnd then 0 else 1;
      c[i := WithOffset(c[i], |c| - (i + 1))] == a + ShortCircuitTest(isAnd, |b|) + b + [Jump(0)]
  {
  }

  lemma PatchedEnd(d: seq<OpCode>, lit: OpCode)
    ensures var c := d + [Jump(0)] + [lit]; c[|d| := WithOffset(c[|d|], |c| - (|d| + 1))] == d + [Jump(1), lit]
  {
  }

  lemma PatchedExit(pre: seq<OpCode>, ca: seq<OpCode>, cb: seq<OpCode>)
    ensures var i := |pre| + 1 + |ca|;
      var c := pre + [LoopInit] + ca + [JumpIfFalse(0)] + cb + [LoopBack(-(|ca| + |cb| + 2))];
      c[i := WithOffset(c[i], |c| - (i + 1))] + [LoopEnd] == pre + WhileCode(ca, cb)
  {
  }

  // ---------- Jumps past the end of an if ----------

  /** `sealed` is what follows `pre` once each jump in `jumps` leads to the end. */
  ghost predicate Sealable(pre: seq<OpCode>, code: seq<OpCode>, jumps: seq<nat>, sealed: seq<OpCode>) {
    |code| == |pre| + |sealed| && pre <= code &&
    (forall j :: j in jumps ==> |pre| <= j < |code| && code[j].Jump?) &&
    (forall k :: |pre| <= k < |code| ==> sealed[k - |pre|] == if k in jumps then Jump(|code| - (k + 1)) else code[k])
  }

  lemma NothingToSeal(pre: seq<OpCode>, code: seq<OpCode>)
    ensures Sealable(pre, pre + code, [], code)
  {
  }

  lemma PatchedBranch(pre: seq<OpCode>, a: seq<OpCode>, b: seq<OpCode>, last: bool)
    ensures var c := pre + a + [JumpIfFalse(0)] + b + (if last then [] else [Jump(0)]);
      var i := |pre| + |a|;
      c[i := WithOffset(c[i], |c| - (i + 1))] ==
      pre + a + [JumpIfFalse(|b| + if last then 0 else 1)] + b + if last then [] else [Jump(0)]
  {
  }

  /** A branch in front of branches that can be sealed. */
  lemma BranchSealable(pre: seq<OpCode>, a: seq<OpCode>, b: seq<OpCode>, last: bool, before: seq<OpCode>, code: seq<OpCode>,
                       jumps: seq<nat>, rest: seq<OpCode>)
    requires before == pre + a + [JumpIfFalse(|b| + if last then 0 else 1)] + b + if last then [] else [Jump(0)]
    requires last || (jumps != [] && jumps[0] == |before| - 1)
    requires Sealable(before, code, if last then jumps else jumps[1..], rest)
    ensures Sealable(pre, code, jumps, BranchCode(a, b, rest, last))
  {
    var sealed := BranchCode(a, b, rest, last);
    forall k | |pre| <= k < |code| ensures sealed[k - |pre|] == if k in jumps then Jump(|code| - (k + 1)) else code[k] {
      if k >= |before| {
        assert sealed[k - |pre|] == rest[k - |before|];
      } else {
        assert code[k] == before[k];
      }
    }
  }

  /** The first `i` jumps have been patched. */
  ghost predicate PartlySealed(pre: seq<OpCode>, holed: seq<OpCode>, code: seq<OpCode>, jumps: seq<nat>, i: nat) {
    |code| == |holed| && i <= |jumps| && (forall j :: j in jumps ==> j < |code| && code[j].Jump?) &&
    (forall k :: 0 <= k < |code| ==> code[k] == if k in jumps[..i] then Jump(|code| - (k + 1)) else holed[k])
  }

  lemma NothingSealed(pre: seq<OpCode>, holed: seq<OpCode>, jumps: seq<nat>, sealed: seq<OpCode>)
    requires Sealable(pre, holed, jumps, sealed)
    ensures PartlySealed(pre, holed, holed, jumps, 0)
  {
  }

  lemma SealOne(pre: seq<OpCode>, holed: seq<OpCode>, code: seq<OpCode>, jumps: seq<nat>, i: nat)
    requires i < |jumps| && PartlySealed(pre, holed, code, jumps, i)
    ensures jumps[i] < |code|
    ensures PartlySealed(pre, holed, code[jumps[i] := WithOffset(code[jumps[i]], |code| - (jumps[i] + 1))], jumps, i + 1)
  {
    assert jumps[i] in jumps;
    assert jumps[..i + 1] == jumps[..i] + [jumps[i]];
  }

  lemma AllSealed(pre: seq<OpCode>, holed: seq<OpCode>, code: seq<OpCode>, jumps: seq<nat>, sealed: seq<OpCode>)
    requires Sealable(pre, holed, jumps, sealed) && PartlySealed(pre, holed, code, jumps, |jumps|)
    ensures code == pre + sealed
  {
    assert jumps[..|jumps|] == jumps;
  }
}
