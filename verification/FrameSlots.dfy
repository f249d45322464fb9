/** The stack slots of an emitted function: its code addresses only slots that the function has,
    and every variable has a slot of its own that is big enough. */
module FrameSlots {
  import opened Results
  import opened Words
  import opened CTypes
  import opened Ast
  import opened Clif
  import opened SlotTable
  import opened SlotTableCorrect
  import opened CSemantics
  import opened Lowering
  import opened WellTyped
  import opened ExprCorrect
  import opened FuncCorrect
  import opened Places

  /** The instruction takes the address of none but the first `n` slots. */
  predicate InFrame(i: Inst, n: nat) {
    i.StackAddr? ==> i.slot < n
  }

  ghost predicate CodeInFrame(code: seq<Inst>, n: nat) {
    forall i :: 0 <= i < |code| ==> InFrame(code[i], n)
  }

  ghost predicate BlocksInFrame(g: Blocks, n: nat) {
    forall k :: 0 <= k < |g| ==> CodeInFrame(g[k], n)
  }

  ghost predicate TableInFrame(table: seq<LocalBinding>, n: nat) {
    forall i :: 0 <= i < |table| ==> table[i].slot < n
  }

  lemma {:induction false} FoundInFrame(table: seq<LocalBinding>, x: CString, n: nat)
    requires TableInFrame(table, n) && Find(table, x).Some?
    ensures Find(table, x).value.slot < n
  {
    FindIsFirst(table, x);
  }

  lemma {:induction false} LvalInFrame(sc: Scope, e: Expr, k: nat, n: nat)
    requires TableInFrame(sc.table, n) && LvalCode(sc, e, k).Ok?
    ensures CodeInFrame(LvalCode(sc, e, k).value.insts, n) && !e.NullExpr?
    decreases e, 0
  {
    hide ExprCode, TableInFrame, FieldOffset, TypeSize;
    match e
    case Var(_, x) => FoundInFrame(sc.table, x, n);
    case Deref(_, p) => ExprInFrame(sc, p, k, n);
    case Index(_, b, ix) =>
      var base := if IsPointer(b.ty) then ExprCode(sc, b, k).value else LvalCode(sc, b, k).value;
      if IsPointer(b.ty) { ExprInFrame(sc, b, k, n); } else { LvalInFrame(sc, b, k, n); }
      ExprInFrame(sc, ix, base.next, n);
    case Member(_, b, _, arrow) => if arrow { ExprInFrame(sc, b, k, n); } else { LvalInFrame(sc, b, k, n); }
    case _ =>
  }

  lemma {:induction false} ExprInFrame(sc: Scope, e: Expr, k: nat, n: nat)
    requires TableInFrame(sc.table, n) && ExprCode(sc, e, k).Ok?
    ensures CodeInFrame(ExprCode(sc, e, k).value.insts, n)
    decreases e, 2
  {
    hide LvalCode, TableInFrame, LoadTail, BinopTail, NarrowToStore, TypeSize;
    match e
    case NullExpr => assert false;
    case IntLit(_, _) =>
    case StringLit(_, _) =>
    case AddrOf(_, x) => LvalInFrame(sc, x, k, n);
    case Binop(_, _, _, _) => BinopInFrame(sc, e, k, n);
    case Unop(_, _, x) => ExprInFrame(sc, x, k, n);
    case Call(_, _, args) => ArgsInFrame(sc, args, k, n);
    case _ =>
      LvalInFrame(sc, e, k, n);
      if !IsArray(e.ty) && !IsStruct(e.ty) {
        TailsInFrame(sc.layouts, e.ty, LvalCode(sc, e, k).value.val, LvalCode(sc, e, k).value.next, n);
      }
  }

  /** Loads and narrowings address no slot. */
  lemma {:induction false} TailsInFrame(ls: Layouts, t: CType, v: nat, k: nat, n: nat)
    ensures LoadTail(ls, t, v, k).Ok? ==> CodeInFrame(LoadTail(ls, t, v, k).value.insts, n)
    ensures NarrowToStore(ls, v, t, k).Ok? ==> CodeInFrame(NarrowToStore(ls, v, t, k).value.insts, n)
  {
  }

  lemma {:induction false} OperatorInFrame(ls: Layouts, op: BinOpKind, lt: CType, rt: CType, l: nat, r: nat, k: nat, n: nat)
    ensures BinopTail(ls, op, lt, rt, l, r, k).Ok? ==> CodeInFrame(BinopTail(ls, op, lt, rt, l, r, k).value.insts, n)
  {
  }

  lemma {:induction false} BinopInFrame(sc: Scope, e: Expr, k: nat, n: nat)
    requires e.Binop? && TableInFrame(sc.table, n) && ExprCode(sc, e, k).Ok?
    ensures CodeInFrame(ExprCode(sc, e, k).value.insts, n)
    decreases e, 1
  {
    hide LvalCode, TableInFrame, BinopTail, NarrowToStore;
    if e.op.OpAssign? {
      LvalInFrame(sc, e.lhs, k, n);
      var a := LvalCode(sc, e.lhs, k).value;
      ExprInFrame(sc, e.rhs, a.next, n);
      var v := ExprCode(sc, e.rhs, a.next).value;
      TailsInFrame(sc.layouts, e.lhs.ty, v.val, v.next, n);
    } else {
      ExprInFrame(sc, e.lhs, k, n);
      var a := ExprCode(sc, e.lhs, k).value;
      ExprInFrame(sc, e.rhs, a.next, n);
      var b := ExprCode(sc, e.rhs, a.next).value;
      OperatorInFrame(sc.layouts, e.op, e.lhs.ty, e.rhs.ty, a.val, b.val, b.next, n);
    }
  }

  lemma {:induction false} ArgsInFrame(sc: Scope, args: seq<Expr>, k: nat, n: nat)
    requires TableInFrame(sc.table, n) && ArgsCode(sc, args, k).Ok?
    ensures CodeInFrame(ArgsCode(sc, args, k).value.insts, n)
    decreases args, 0
  {
    hide ExprCode, TableInFrame;
    if args != [] {
      ExprInFrame(sc, args[0], k, n);
      ArgsInFrame(sc, args[1..], ExprCode(sc, args[0], k).value.next, n);
    }
  }

  // ----- graphs -----

  lemma {:induction false} EmitInFrame(g: State, insts: seq<Inst>, next: nat, n: nat)
    requires BlocksInFrame(g.blocks, n) && CodeInFrame(insts, n)
    ensures BlocksInFrame(Emit(g, insts, next).blocks, n)
  {
    var b' := Emit(g, insts, next).blocks;
    forall k | 0 <= k < |b'|
      ensures CodeInFrame(b'[k], n)
    {
      assert CodeInFrame(g.blocks[k], n);
    }
  }

  lemma {:induction false} TerminateInFrame(g: State, i: Inst, n: nat)
    requires BlocksInFrame(g.blocks, n) && IsTerminator(i)
    ensures BlocksInFrame(Terminate(g, i).blocks, n)
  {
    EmitInFrame(g, [i], g.next, n);
  }

  lemma {:induction false} FallToInFrame(g: State, target: nat, n: nat)
    requires BlocksInFrame(g.blocks, n)
    ensures BlocksInFrame(FallTo(g, target).blocks, n)
  {
    if !g.terminated { TerminateInFrame(g, Jump(target), n); }
  }

  lemma {:induction false} CreateInFrame(g: State, count: nat, n: nat)
    requires BlocksInFrame(g.blocks, n)
    ensures BlocksInFrame(CreateBlocks(g, count).blocks, n)
  {
  }

  lemma {:induction false} EnterInFrame(g: State, count: nat, target: nat, n: nat)
    requires BlocksInFrame(g.blocks, n)
    ensures BlocksInFrame(EnterBlocks(g, count, target).blocks, n)
  {
    hide BlocksInFrame;
    CreateInFrame(g, count, n);
    FallToInFrame(CreateBlocks(g, count), target, n);
  }

  lemma {:induction false} BranchInFrame(sc: Scope, g: State, e: Expr, t: nat, f: nat, hasElse: bool, n: nat)
    requires BlocksInFrame(g.blocks, n) && TableInFrame(sc.table, n) && EmitExpr(sc, g, e).Ok?
    ensures BlocksInFrame(EmitExpr(sc, g, e).value.0.blocks, n)
    ensures EmitBranch(sc, g, e, t, f).Ok? && BlocksInFrame(EmitBranch(sc, g, e, t, f).value.blocks, n)
    ensures LowerIfTest(sc, g, e, hasElse).Ok? && BlocksInFrame(LowerIfTest(sc, g, e, hasElse).value.blocks, n)
  {
    hide BlocksInFrame, CodeInFrame, TableInFrame, ExprCode;
    var c := ExprCode(sc, e, g.next).value;
    ExprInFrame(sc, e, g.next, n);
    EmitInFrame(g, c.insts, c.next, n);
    var g1 := Emit(g, c.insts, c.next);
    TerminateInFrame(g1, Brif(c.val, t, f), n);
    CreateInFrame(g1, 3, n);
    TerminateInFrame(CreateBlocks(g1, 3), Brif(c.val, |g.blocks|, if hasElse then |g.blocks| + 1 else |g.blocks| + 2), n);
  }

  lemma {:induction false} StmtsInFrame(sc: Scope, g: State, s: Stmts, n: nat)
    requires BlocksInFrame(g.blocks, n) && TableInFrame(sc.table, n) && LowerStmts(sc, g, s).Ok?
    ensures BlocksInFrame(LowerStmts(sc, g, s).value.blocks, n)
    decreases s, 0
  {
    hide BlocksInFrame, TableInFrame, LowerStmt;
    if s.Cons? && !g.terminated {
      StmtInFrame(sc, g, s.head, n);
      StmtsInFrame(sc, LowerStmt(sc, g, s.head).value, s.next, n);
    }
  }

  lemma {:induction false} StmtInFrame(sc: Scope, g: State, s: Stmt, n: nat)
    requires BlocksInFrame(g.blocks, n) && TableInFrame(sc.table, n) && LowerStmt(sc, g, s).Ok?
    ensures BlocksInFrame(LowerStmt(sc, g, s).value.blocks, n)
    decreases s, 5
  {
    hide BlocksInFrame, TableInFrame, ExprCode, EmitExpr, LowerInit, LowerIf, LowerWhile, LowerForLoop, LowerDo, LowerStmts;
    match s
    case Return(e) =>
      BranchInFrame(sc, g, e, 0, 0, false, n);
      TerminateInFrame(EmitExpr(sc, g, e).value.0, ReturnInst(EmitExpr(sc, g, e).value.1), n);
    case Eval(e) => BranchInFrame(sc, g, e, 0, 0, false, n);
    case Decl(x, t, e) => if !e.NullExpr? { InitInFrame(sc, g, x, t, e, n); }
    case Block(b) => StmtsInFrame(sc, g, b, n);
    case If(e, t, f) => IfInFrame(sc, g, e, t, f, n);
    case While(e, b) => WhileInFrame(sc, g, e, b, n);
    case For(first, e, post, b) =>
      StmtsInFrame(sc, g, first, n);
      ForInFrame(sc, LowerStmts(sc, g, first).value, e, post, b, n);
    case Do(b, e) => DoInFrame(sc, g, b, e, n);
    case Break => TerminateInFrame(g, Jump(g.loopBreak.value), n);
    case Continue => TerminateInFrame(g, Jump(g.loopContinue.value), n);
  }

  lemma {:induction false} InitInFrame(sc: Scope, g: State, x: CString, t: CType, e: Expr, n: nat)
    requires BlocksInFrame(g.blocks, n) && TableInFrame(sc.table, n) && LowerInit(sc, g, x, t, e).Ok?
    ensures BlocksInFrame(LowerInit(sc, g, x, t, e).value.blocks, n)
  {
    hide BlocksInFrame, TableInFrame, ExprCode, NarrowToStore;
    var c := ExprCode(sc, e, g.next).value;
    ExprInFrame(sc, e, g.next, n);
    var s := NarrowToStore(sc.layouts, c.val, t, c.next).value;
    TailsInFrame(sc.layouts, t, c.val, c.next, n);
    FoundInFrame(sc.table, x, n);
    EmitInFrame(g, c.insts + s.insts + [StackAddr(s.next, Find(sc.table, x).value.slot), Store(s.next, s.val)], s.next + 1, n);
  }

  /** A chain in block `k`, and on to `target`. */
  lemma {:induction false} ArmInFrame(sc: Scope, g: State, k: nat, s: Stmts, target: nat, n: nat)
    requires BlocksInFrame(g.blocks, n) && TableInFrame(sc.table, n) && LowerStmts(sc, SwitchTo(g, k), s).Ok?
    ensures BlocksInFrame(FallTo(LowerStmts(sc, SwitchTo(g, k), s).value, target).blocks, n)
    decreases s, 1
  {
    hide BlocksInFrame, TableInFrame, LowerStmts;
    StmtsInFrame(sc, SwitchTo(g, k), s, n);
    FallToInFrame(LowerStmts(sc, SwitchTo(g, k), s).value, target, n);
  }

  lemma {:induction false} IfInFrame(sc: Scope, g: State, e: Expr, t: Stmts, f: Stmts, n: nat)
    requires BlocksInFrame(g.blocks, n) && TableInFrame(sc.table, n) && LowerIf(sc, g, e, t, f).Ok?
    ensures BlocksInFrame(LowerIf(sc, g, e, t, f).value.blocks, n)
    decreases If(e, t, f), 4
  {
    hide BlocksInFrame, TableInFrame, EmitExpr, LowerArms;
    BranchInFrame(sc, g, e, 0, 0, f.Cons?, n);
    ArmsInFrame(sc, |g.blocks|, LowerIfTest(sc, g, e, f.Cons?).value, e, t, f, n);
  }

  lemma {:induction false} ArmsInFrame(sc: Scope, k: nat, g: State, e: Expr, t: Stmts, f: Stmts, n: nat)
    requires BlocksInFrame(g.blocks, n) && TableInFrame(sc.table, n) && LowerArms(sc, k, g, e, t, f).Ok?
    ensures BlocksInFrame(LowerArms(sc, k, g, e, t, f).value.blocks, n)
    decreases If(e, t, f), 3
  {
    hide BlocksInFrame, TableInFrame, LowerStmts, FallTo, LowerElse;
    ArmInFrame(sc, g, k, t, k + 2, n);
    if f.Cons? { ElseInFrame(sc, k, LowerStmts(sc, SwitchTo(g, k), t).value, f, n); }
  }

  lemma {:induction false} ElseInFrame(sc: Scope, k: nat, g: State, f: Stmts, n: nat)
    requires BlocksInFrame(FallTo(g, k + 2).blocks, n) && TableInFrame(sc.table, n) && LowerElse(sc, k, g, f).Ok?
    ensures BlocksInFrame(LowerElse(sc, k, g, f).value.blocks, n)
    decreases f, 2
  {
    hide BlocksInFrame, TableInFrame, LowerStmts, FallTo;
    ArmInFrame(sc, FallTo(g, k + 2), k + 1, f, k + 2, n);
  }

  lemma {:induction false} WhileInFrame(sc: Scope, g: State, e: Expr, b: Stmts, n: nat)
    requires BlocksInFrame(g.blocks, n) && TableInFrame(sc.table, n) && LowerWhile(sc, g, e, b).Ok?
    ensures BlocksInFrame(LowerWhile(sc, g, e, b).value.blocks, n)
    decreases b, 4
  {
    hide BlocksInFrame, TableInFrame, EnterBlocks, LowerStmts, FallTo, EmitExpr;
    var k := |g.blocks|;
    EnterInFrame(g, 3, k, n);
    BranchInFrame(sc, EnterBlocks(g, 3, k), e, k + 1, k + 2, false, n);
    ArmInFrame(sc, InLoop(EmitBranch(sc, EnterBlocks(g, 3, k), e, k + 1, k + 2).value, k + 2, k), k + 1, b, k, n);
  }

  lemma {:induction false} ForTestInFrame(sc: Scope, g: State, e: Expr, t: nat, f: nat, n: nat)
    requires BlocksInFrame(g.blocks, n) && TableInFrame(sc.table, n) && LowerForTest(sc, g, e, t, f).Ok?
    ensures BlocksInFrame(LowerForTest(sc, g, e, t, f).value.blocks, n)
  {
    hide BlocksInFrame, TableInFrame, EmitExpr;
    if e.NullExpr? {
      var one := [Iconst(g.next, I32, 1)];
      EmitInFrame(g, one, g.next + 1, n);
      TerminateInFrame(Emit(g, one, g.next + 1), Brif(g.next, t, f), n);
    } else {
      BranchInFrame(sc, g, e, t, f, false, n);
    }
  }

  lemma {:induction false} StepInFrame(sc: Scope, g: State, k: nat, post: Expr, n: nat)
    requires BlocksInFrame(g.blocks, n) && TableInFrame(sc.table, n) && LowerForStep(sc, g, k, post).Ok?
    ensures BlocksInFrame(LowerForStep(sc, g, k, post).value.blocks, n)
  {
    hide BlocksInFrame, TableInFrame, EmitExpr;
    var gs := SwitchTo(g, k + 1);
    if post.NullExpr? {
      TerminateInFrame(gs, Jump(k), n);
    } else {
      BranchInFrame(sc, gs, post, 0, 0, false, n);
      TerminateInFrame(EmitExpr(sc, gs, post).value.0, Jump(k), n);
    }
  }

  lemma {:induction false} ForInFrame(sc: Scope, g: State, e: Expr, post: Expr, b: Stmts, n: nat)
    requires BlocksInFrame(g.blocks, n) && TableInFrame(sc.table, n) && LowerForLoop(sc, g, e, post, b).Ok?
    ensures BlocksInFrame(LowerForLoop(sc, g, e, post, b).value.blocks, n)
    decreases b, 4
  {
    hide BlocksInFrame, TableInFrame, EnterBlocks, LowerForTest, LowerForStep, LowerStmts, FallTo;
    var k := |g.blocks|;
    EnterInFrame(g, 4, k, n);
    ForTestInFrame(sc, EnterBlocks(g, 4, k), e, k + 2, k + 3, n);
    var gb := InLoop(LowerForTest(sc, EnterBlocks(g, 4, k), e, k + 2, k + 3).value, k + 3, k + 1);
    ArmInFrame(sc, gb, k + 2, b, k + 1, n);
    StepInFrame(sc, LeaveBody(LowerStmts(sc, SwitchTo(gb, k + 2), b).value, k + 1, g), k, post, n);
  }

  lemma {:induction false} DoInFrame(sc: Scope, g: State, b: Stmts, e: Expr, n: nat)
    requires BlocksInFrame(g.blocks, n) && TableInFrame(sc.table, n) && LowerDo(sc, g, b, e).Ok?
    ensures BlocksInFrame(LowerDo(sc, g, b, e).value.blocks, n)
    decreases b, 4
  {
    hide BlocksInFrame, TableInFrame, EnterBlocks, LowerStmts, FallTo, EmitExpr;
    var k := |g.blocks|;
    EnterInFrame(g, 3, k, n);
    var gb := InLoop(EnterBlocks(g, 3, k), k + 2, k + 1);
    StmtsInFrame(sc, gb, b, n);
    var g2 := LowerStmts(sc, gb, b).value;
    FallToInFrame(g2, k + 1, n);
    BranchInFrame(sc, SwitchTo(LeaveBody(g2, k + 1, g), k + 1), e, k, k + 2, false, n);
  }

  // ----- functions -----

  lemma {:induction false} StoresInFrame(table: seq<LocalBinding>, params: seq<Param>, i: nat, k: nat, n: nat)
    requires TableInFrame(table, n) && StoreParams(table, params, i, k).Ok?
    ensures CodeInFrame(StoreParams(table, params, i, k).value, n)
    decreases |params| - i
  {
    hide TableInFrame;
    if i < |params| {
      FoundInFrame(table, params[i].name, n);
      StoresInFrame(table, params, i + 1, k + 1, n);
    }
  }

  lemma {:induction false} CompletedInFrame(g: State, n: nat)
    requires BlocksInFrame(g.blocks, n)
    ensures BlocksInFrame(Completed(g).blocks, n)
  {
    if !g.terminated {
      var zero := [Iconst(g.next, I32, 0)];
      EmitInFrame(g, zero, g.next + 1, n);
      TerminateInFrame(Emit(g, zero, g.next + 1), ReturnInst(g.next), n);
    }
  }

  /** The code of every emitted function takes the address of none but the function's own slots. */
  lemma {:induction false} FunctionInFrame(ls: Layouts, data: seq<CString>, f: Func, fn: IrFunction)
    requires EmitFunction(ls, data, f) == Ok(fn)
    ensures BlocksInFrame(fn.blocks, |fn.slots|)
  {
    hide LowerStmts, CollectLocals, StoreParams, ParamTypes, BlocksInFrame, Completed;
    var l := CollectLocals(ls, f.params, Locals([], []), f.body).value;
    var n, k := |l.slots|, |f.params|;
    CollectExtends(ls, f.params, Locals([], []), f.body);
    assert TableInFrame(l.table, n);
    var stores := StoreParams(l.table, f.params, 0, k).value;
    StoresInFrame(l.table, f.params, 0, k, n);
    OneBlock(stores, n);
    var g := State([stores], 0, k + k, None, None, false);
    StmtsInFrame(Scope(ls, l.table, data), g, f.body, n);
    CompletedInFrame(LowerStmts(Scope(ls, l.table, data), g, f.body).value, n);
  }

  lemma {:induction false} OneBlock(code: seq<Inst>, n: nat)
    requires CodeInFrame(code, n)
    ensures BlocksInFrame([code], n)
  {
  }

  /** The slot of a variable: the least multiple of 8 bytes, at least 8, that holds the variable. */
  ghost predicate HoldsVariable(slots: seq<nat>, k: nat, size: nat) {
    k < |slots| && size <= slots[k] && slots[k] % 8 == 0 && 8 <= slots[k] && (slots[k] == 8 || slots[k] < size + 8)
  }

  /** Every parameter and every declared variable has a slot of the emitted function to itself, and
      the slot holds it. */
  lemma {:induction false} VariablesHaveSlots(te: TypeEnv, f: Func, fn: IrFunction, x: CString, y: CString)
    requires TypedFunc(te, f) && Closed(te, f) && AllFit(te) && EmitFunction(te.layouts, te.data, f) == Ok(fn)
    requires x in te.vars && y in te.vars
    ensures Table(te, f).Ok? && ByteSize(te.layouts, te.vars[x]).Some?
    ensures var b, c := Find(Table(te, f).value.table, x), Find(Table(te, f).value.table, y);
            && b.Some? && c.Some? && HoldsVariable(fn.slots, b.value.slot, ByteSize(te.layouts, te.vars[x]).value)
            && (x != y ==> b.value.slot != c.value.slot)
  {
    hide EmitFunction, TypedFunc, Closed, EntrySized;
    EmittedParts(te, f, fn);
    SlotsSized(te, f);
    SlotOf(te, f, x);
    SlotOf(te, f, y);
    assert EntrySized(te, fn.slots, Find(Table(te, f).value.table, x).value);
    EntryHolds(te, fn.slots, Find(Table(te, f).value.table, x).value);
    if x != y { DistinctSlots(Table(te, f).value, x, y); }
  }

  lemma {:induction false} EntryHolds(te: TypeEnv, slots: seq<nat>, b: LocalBinding)
    requires EntrySized(te, slots, b) && AllFit(te)
    ensures b.name in te.vars && te.vars[b.name] == b.ty
    ensures ByteSize(te.layouts, b.ty).Some? && HoldsVariable(slots, b.slot, ByteSize(te.layouts, b.ty).value)
  {
    hide SlotSize;
    SlotHoldsExactly(te.layouts, b.ty);
  }

  /** If the frame keeps the slots of the emitted function apart, the variables lie apart. */
  lemma {:induction false} SlotsLayOut(te: TypeEnv, f: Func, fn: IrFunction, c: CEnv, w: World)
    requires TypedFunc(te, f) && Closed(te, f) && EmitFunction(te.layouts, te.data, f) == Ok(fn)
    requires Table(te, f).Ok? && Placed(te, Table(te, f).value.table, c, w) && FrameApart(w, fn.slots)
    ensures Laid(te, c)
  {
    hide EmitFunction, TypedFunc, Closed, FrameApart;
    EmittedParts(te, f, fn);
    TableLaysOut(te, f, c, w);
  }

  /** The machine address that an lvalue is lowered to, its index expressions included, lies with
      all bytes of the selected part inside one slot of the emitted function, that of its variable. */
  lemma {:induction false} LoweredAccessInSlot(te: TypeEnv, f: Func, fn: IrFunction, c: CEnv, w: World, e: Expr, n: nat, s: Mach)
    requires TypedFunc(te, f) && Closed(te, f) && EmitFunction(te.layouts, te.data, f) == Ok(fn)
    requires Table(te, f).Ok? && Placed(te, Table(te, f).value.table, c, w) && AllFit(te) && Consistent(te.layouts)
    requires TypedLvalue(te, e) && LvalCode(Scope(te.layouts, Table(te, f).value.table, te.data), e, n).Ok? && PartOf(te, c, e, s.mem, s.tr).Some?
    ensures var a, p := AccessOf(c, e, s.mem, s.tr).value, PartOf(te, c, e, s.mem, s.tr).value;
            var b, k := Find(Table(te, f).value.table, a.root), LvalCode(Scope(te.layouts, Table(te, f).value.table, te.data), e, n).value;
            && b.Some? && b.value.slot < |fn.slots| && ByteSize(te.layouts, e.ty).Some?
            && 0 <= p.offset && p.offset + ByteSize(te.layouts, e.ty).value <= fn.slots[b.value.slot]
            && Delivers(w, k.insts, k.val, n, s, Val(Wrap64(w.frame(b.value.slot) + p.offset), a.mem, a.tr), I64)
  {
    hide EmitFunction, TypedFunc, Closed, TypedLvalue, LvalCode, Delivers, AccessOf, PartOf, Placed;
    EmittedParts(te, f, fn);
    ScopesAgree(te, f, c, w);
    SlotsSized(te, f);
    TableAccessInSlot(te, Scope(te.layouts, Table(te, f).value.table, te.data), c, w, Table(te, f).value, e, n, s);
  }
}
