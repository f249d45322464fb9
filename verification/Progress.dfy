/** Lowering accepts the whole fragment: on well-typed input no `exit(1)` of the code generator
    is reached but that for a `break` or `continue` outside a loop, and that one exactly when code
    that is lowered has one. */
module Progress {
  import opened Results
  import opened CTypes
  import opened Ast
  import opened SlotTable
  import opened Lowering
  import opened WellTyped
  import opened Growth
  import opened DeadCode

  /** Every variable has a slot and every string symbol a data object. */
  ghost predicate Resolves(te: TypeEnv, sc: Scope) {
    && te.layouts == sc.layouts && te.data == sc.data
    && forall x :: x in te.vars ==> Find(sc.table, x).Some?
  }

  lemma {:induction false} DataFound(data: seq<CString>, s: CString)
    requires s in data
    ensures FindData(data, s).Some?
  {
    if data[0] != s {
      DataFound(data[1..], s);
    }
  }

  lemma {:induction false} TailSucceeds(te: TypeEnv, op: BinOpKind, lt: CType, rt: CType, t: CType, l: nat, r: nat, n: nat)
    requires OperatorTyped(te, op, lt, rt, t)
    ensures BinopTail(te.layouts, op, lt, rt, l, r, n).Ok?
  {
    if lt.Pointer? && op in {OpAdd, OpSub} {
      SizedKept(te, lt.to);
    } else if rt.Pointer? && op.OpAdd? {
      SizedKept(te, rt.to);
    }
  }

  lemma {:induction false} FieldFound(te: TypeEnv, t: CType, f: CString)
    requires f.Str? && FindField(FieldsOf(te.layouts, t), f).Some?
    requires FindField(FieldsOf(te.layouts, t), f).value.offset < OFFSET_LIMIT
    ensures FieldOffset(te.layouts, Some(t), f) == Ok(FindField(FieldsOf(te.layouts, t), f).value.offset)
  {
    LongOffsetExactly(FindField(FieldsOf(te.layouts, t), f).value.offset);
  }

  lemma {:induction false} LvalSucceeds(te: TypeEnv, sc: Scope, e: Expr, n: nat)
    requires Resolves(te, sc) && TypedLvalue(te, e)
    ensures LvalCode(sc, e, n).Ok?
    decreases e, 0
  {
    hide FieldOffset, ByteSize, TypeSize;
    match e
    case Var(_, x) => assert Find(sc.table, x).Some?;
    case Deref(_, p) => ExprSucceeds(te, sc, p, n);
    case Index(_, b, ix) =>
      SizedKept(te, e.ty);
      if IsPointer(b.ty) {
        ExprSucceeds(te, sc, b, n);
        ExprSucceeds(te, sc, ix, ExprCode(sc, b, n).value.next);
      } else {
        LvalSucceeds(te, sc, b, n);
        ExprSucceeds(te, sc, ix, LvalCode(sc, b, n).value.next);
      }
    case Member(_, b, f, arrow) =>
      FieldFound(te, if arrow then b.ty.to else b.ty, f);
      if arrow { ExprSucceeds(te, sc, b, n); } else { LvalSucceeds(te, sc, b, n); }
  }

  lemma {:induction false} ExprSucceeds(te: TypeEnv, sc: Scope, e: Expr, n: nat)
    requires Resolves(te, sc) && Typed(te, e)
    ensures ExprCode(sc, e, n).Ok?
    decreases e, 1
  {
    match e
    case IntLit(_, _) =>
    case StringLit(_, s) => DataFound(sc.data, s);
    case AddrOf(_, x) => LvalSucceeds(te, sc, x, n);
    case Binop(_, op, l, r) => BinopSucceeds(te, sc, e, n);
    case Unop(_, _, x) => ExprSucceeds(te, sc, x, n);
    case Call(_, _, args) => ArgsSucceed(te, sc, args, n);
    case NullExpr => assert false;
    case _ => LvalSucceeds(te, sc, e, n);
  }

  lemma {:induction false} BinopSucceeds(te: TypeEnv, sc: Scope, e: Expr, n: nat)
    requires e.Binop? && Resolves(te, sc) && Typed(te, e)
    ensures ExprCode(sc, e, n).Ok?
    decreases e, 0
  {
    if e.op.OpAssign? {
      LvalSucceeds(te, sc, e.lhs, n);
      ExprSucceeds(te, sc, e.rhs, LvalCode(sc, e.lhs, n).value.next);
    } else {
      ExprSucceeds(te, sc, e.lhs, n);
      var a := ExprCode(sc, e.lhs, n).value;
      ExprSucceeds(te, sc, e.rhs, a.next);
      var b := ExprCode(sc, e.rhs, a.next).value;
      TailSucceeds(te, e.op, e.lhs.ty, e.rhs.ty, e.ty, a.val, b.val, b.next);
    }
  }

  lemma {:induction false} ArgsSucceed(te: TypeEnv, sc: Scope, args: seq<Expr>, n: nat)
    requires Resolves(te, sc)
    requires forall i :: 0 <= i < |args| ==> TypedValue(te, args[i]) && !IsStruct(args[i].ty)
    ensures ArgsCode(sc, args, n).Ok?
    decreases args, 0
  {
    if args != [] {
      ExprSucceeds(te, sc, args[0], n);
      ArgsSucceed(te, sc, args[1..], ExprCode(sc, args[0], n).value.next);
    }
  }

  lemma {:induction false} BranchSucceeds(te: TypeEnv, sc: Scope, g: State, e: Expr, t: nat, f: nat)
    requires Resolves(te, sc) && Typed(te, e)
    ensures EmitExpr(sc, g, e).Ok? && EmitBranch(sc, g, e, t, f).Ok? && LowerIfTest(sc, g, e, true).Ok? && LowerIfTest(sc, g, e, false).Ok?
  {
    ExprSucceeds(te, sc, e, g.next);
  }

  // ----- jumps outside loops -----

  /** The exit for the first `break` or `continue` outside a loop in the code that is lowered. */
  function StrayIn(s: Stmts): Option<Failure> {
    match s
    case Nil => None
    case Cons(h, next) => if StrayInStmt(h).Some? || Ends(h) then StrayInStmt(h) else StrayIn(next)
  }

  function StrayInStmt(s: Stmt): Option<Failure> {
    match s
    case Break => Some(BreakOutsideLoop)
    case Continue => Some(ContinueOutsideLoop)
    case Block(b) => StrayIn(b)
    case If(_, t, f) => if StrayIn(t).Some? then StrayIn(t) else StrayIn(f)
    case For(first, _, _, _) => StrayIn(first)
    case _ => None
  }

  lemma {:induction false} TypedInLoop(te: TypeEnv, s: Stmts)
    requires TypedStmts(te, s, false)
    ensures TypedStmts(te, s, true) && StrayIn(s).None?
    decreases s
  {
    if s.Cons? {
      TypedInLoopStmt(te, s.head);
      TypedInLoop(te, s.next);
    }
  }

  lemma {:induction false} TypedInLoopStmt(te: TypeEnv, s: Stmt)
    requires TypedStmt(te, s, false)
    ensures TypedStmt(te, s, true) && StrayInStmt(s).None?
    decreases s
  {
    match s
    case Block(b) => TypedInLoop(te, b);
    case If(_, t, f) => TypedInLoop(te, t); TypedInLoop(te, f);
    case For(first, _, _, _) => TypedInLoop(te, first);
    case _ =>
  }

  /** Inside a loop lowering succeeds; outside it stops exactly at the first stray jump. */
  predicate Reaches(r: Result<State>, g: State, stray: Option<Failure>) {
    if InsideLoop(g) || stray.None? then r.Ok? else r == Exit(stray.value)
  }

  predicate InsideLoop(g: State) {
    g.loopBreak.Some?
  }

  /** Both targets or none. */
  predicate TargetsPaired(g: State) {
    g.loopBreak.Some? <==> g.loopContinue.Some?
  }

  /** If everything but the places of jumps is well-typed, lowering a chain stops exactly when
      lowered code has a `break` or `continue` outside a loop, and at the first of them. */
  lemma {:induction false} StmtsSucceed(te: TypeEnv, sc: Scope, g: State, b: Stmts)
    requires Resolves(te, sc) && TypedStmts(te, b, true) && Valid(g) && TargetsPaired(g)
    ensures Reaches(LowerStmts(sc, g, b), g, if g.terminated then None else StrayIn(b))
    decreases b, 0
  {
    hide Resolves, Valid, LowerStmt, StrayInStmt, TypedStmt;
    if b.Cons? && !g.terminated {
      StmtSucceeds(te, sc, g, b.head);
      if LowerStmt(sc, g, b.head).Ok? {
        var g' := LowerStmt(sc, g, b.head).value;
        LowerStmtGrows(sc, g, b.head);
        TerminatedExactlyStmt(sc, g, b.head);
        assert Valid(g') by { GrownValid(g, g'); }
        StmtsSucceed(te, sc, g', b.next);
      }
    }
  }

  lemma {:induction false} GrownValid(g0: State, g: State)
    requires Grown(g0, g)
    ensures Valid(g)
  {
  }

  lemma {:induction false} StmtSucceeds(te: TypeEnv, sc: Scope, g: State, b: Stmt)
    requires Resolves(te, sc) && TypedStmt(te, b, true) && Valid(g) && !g.terminated && TargetsPaired(g)
    ensures Reaches(LowerStmt(sc, g, b), g, StrayInStmt(b))
    decreases b, 2
  {
    hide ExprCode, Resolves, Valid, LowerStmts, LowerIf, LowerWhile, LowerForLoop, LowerDo, Typed, TypedStmts;
    match b
    case Return(e) => BranchSucceeds(te, sc, g, e, 0, 0);
    case Eval(e) => BranchSucceeds(te, sc, g, e, 0, 0);
    case Decl(x, t, e) => if !e.NullExpr? { InitSucceeds(te, sc, g, x, t, e); }
    case Block(b) => StmtsSucceed(te, sc, g, b);
    case If(e, t, f) => IfSucceeds(te, sc, g, e, t, f);
    case While(e, b) => WhileSucceeds(te, sc, g, e, b);
    case For(first, e, post, b) =>
      StmtsSucceed(te, sc, g, first);
      if LowerStmts(sc, g, first).Ok? {
        LowerStmtsGrows(sc, g, first);
        GrownValid(g, LowerStmts(sc, g, first).value);
        ForSucceeds(te, sc, LowerStmts(sc, g, first).value, e, post, b);
      }
    case Do(b, e) => DoSucceeds(te, sc, g, b, e);
    case _ =>
  }

  lemma {:induction false} InitSucceeds(te: TypeEnv, sc: Scope, g: State, x: CString, t: CType, e: Expr)
    requires Resolves(te, sc) && x.Str? && x in te.vars && Typed(te, e) && IsScalar(t)
    ensures LowerInit(sc, g, x, t, e).Ok?
  {
    ExprSucceeds(te, sc, e, g.next);
    assert Find(sc.table, x).Some?;
  }

  lemma {:induction false} IfSucceeds(te: TypeEnv, sc: Scope, g: State, e: Expr, t: Stmts, f: Stmts)
    requires Resolves(te, sc) && Typed(te, e) && TypedStmts(te, t, true) && TypedStmts(te, f, true)
    requires Valid(g) && !g.terminated && TargetsPaired(g)
    ensures Reaches(LowerIf(sc, g, e, t, f), g, StrayInStmt(If(e, t, f)))
    decreases If(e, t, f), 0
  {
    hide LowerIf, LowerIfTest, LowerStmts, Typed, TypedStmts, Resolves, StrayIn, Valid, FallTo;
    var k := |g.blocks|;
    BranchSucceeds(te, sc, g, e, 0, 0);
    var g2 := LowerIfTest(sc, g, e, f.Cons?).value;
    ThenReady(sc, g, e, f.Cons?);
    StmtsSucceed(te, sc, SwitchTo(g2, k), t);
    IfStops(sc, g, e, t, f);
    NoneInNil();
    if LowerStmts(sc, SwitchTo(g2, k), t).Ok? && f.Cons? {
      ElseReady(sc, g, e, t);
      StmtsSucceed(te, sc, SwitchTo(FallTo(LowerStmts(sc, SwitchTo(g2, k), t).value, k + 2), k + 1), f);
    }
  }

  lemma {:induction false} ThenReady(sc: Scope, g: State, e: Expr, hasElse: bool)
    requires Valid(g) && !g.terminated && LowerIfTest(sc, g, e, hasElse).Ok?
    ensures var g' := SwitchTo(LowerIfTest(sc, g, e, hasElse).value, |g.blocks|);
            Valid(g') && SameTargets(g, g')
  {
    hide LowerIfTest;
    IfTestGrows(sc, g, e, hasElse);
    SwitchGrows(g, LowerIfTest(sc, g, e, hasElse).value, |g.blocks|);
  }

  lemma {:induction false} ElseReady(sc: Scope, g: State, e: Expr, t: Stmts)
    requires Valid(g) && !g.terminated && LowerIfTest(sc, g, e, true).Ok?
    requires LowerStmts(sc, SwitchTo(LowerIfTest(sc, g, e, true).value, |g.blocks|), t).Ok?
    ensures var k := |g.blocks|;
            var g' := SwitchTo(FallTo(LowerStmts(sc, SwitchTo(LowerIfTest(sc, g, e, true).value, k), t).value, k + 2), k + 1);
            Valid(g') && SameTargets(g, g')
  {
    hide LowerIfTest, LowerStmts;
    var k := |g.blocks|;
    IfTestGrows(sc, g, e, true);
    var g2 := LowerIfTest(sc, g, e, true).value;
    SwitchGrows(g, g2, k);
    var g3 := ArmGrows(sc, g, g2, k, t, k + 2);
    SwitchGrows(g, FallTo(g3, k + 2), k + 1);
  }

  /** After its condition, an `if` stops where one of its arms does. */
  lemma {:induction false} IfStops(sc: Scope, g: State, e: Expr, t: Stmts, f: Stmts)
    requires LowerIfTest(sc, g, e, f.Cons?).Ok?
    ensures var k := |g.blocks|;
            var arm := LowerStmts(sc, SwitchTo(LowerIfTest(sc, g, e, f.Cons?).value, k), t);
            && (arm.Exit? ==> LowerIf(sc, g, e, t, f) == arm)
            && (arm.Ok? && f.Nil? ==> LowerIf(sc, g, e, t, f).Ok?)
            && (arm.Ok? && f.Cons? ==>
                var other := LowerStmts(sc, SwitchTo(FallTo(arm.value, k + 2), k + 1), f);
                if other.Ok? then LowerIf(sc, g, e, t, f).Ok? else LowerIf(sc, g, e, t, f) == other)
  {
    hide LowerIfTest, LowerStmts, FallTo;
    var k := |g.blocks|;
    var arm := LowerStmts(sc, SwitchTo(LowerIfTest(sc, g, e, f.Cons?).value, k), t);
    if arm.Ok? && f.Cons? {
      assert LowerIf(sc, g, e, t, f) == LowerArms(sc, k, LowerIfTest(sc, g, e, f.Cons?).value, e, t, f) == LowerElse(sc, k, arm.value, f);
    }
  }

  lemma {:induction false} NoneInNil()
    ensures StrayIn(Nil).None?
  {
  }

  lemma {:induction false} WhileSucceeds(te: TypeEnv, sc: Scope, g: State, e: Expr, b: Stmts)
    requires Resolves(te, sc) && Typed(te, e) && TypedStmts(te, b, true) && Valid(g) && !g.terminated
    ensures LowerWhile(sc, g, e, b).Ok?
    decreases b, 1
  {
    hide EnterBlocks, EmitBranch;
    var k := |g.blocks|;
    EnterGrows(g, 3, k);
    BranchSucceeds(te, sc, EnterBlocks(g, 3, k), e, k + 1, k + 2);
    EmitBranchGrows(g, sc, EnterBlocks(g, 3, k), e, k + 1, k + 2);
    var gb := InLoop(EmitBranch(sc, EnterBlocks(g, 3, k), e, k + 1, k + 2).value, k + 2, k);
    SwitchGrows(g, gb, k + 1);
    StmtsSucceed(te, sc, SwitchTo(gb, k + 1), b);
  }

  lemma {:induction false} ForSucceeds(te: TypeEnv, sc: Scope, g: State, e: Expr, post: Expr, b: Stmts)
    requires Resolves(te, sc) && TypedStmts(te, b, true) && Valid(g)
    requires (e.NullExpr? || Typed(te, e)) && (post.NullExpr? || Typed(te, post))
    ensures LowerForLoop(sc, g, e, post, b).Ok?
    decreases b, 1
  {
    hide EnterBlocks, EmitBranch, EmitExpr, LowerStmts, Typed, Resolves, TypedStmts;
    var k := |g.blocks|;
    EnterGrows(g, 4, k);
    if !e.NullExpr? {
      BranchSucceeds(te, sc, EnterBlocks(g, 4, k), e, k + 2, k + 3);
    }
    ForTestGrows(g, sc, EnterBlocks(g, 4, k), e, k + 2, k + 3);
    var gb := InLoop(LowerForTest(sc, EnterBlocks(g, 4, k), e, k + 2, k + 3).value, k + 3, k + 1);
    SwitchGrows(g, gb, k + 2);
    StmtsSucceed(te, sc, SwitchTo(gb, k + 2), b);
    if !post.NullExpr? {
      var g3 := LowerStmts(sc, SwitchTo(gb, k + 2), b).value;
      BranchSucceeds(te, sc, SwitchTo(LeaveBody(g3, k + 1, g), k + 1), post, 0, 0);
    }
  }

  lemma {:induction false} DoSucceeds(te: TypeEnv, sc: Scope, g: State, b: Stmts, e: Expr)
    requires Resolves(te, sc) && Typed(te, e) && TypedStmts(te, b, true) && Valid(g) && !g.terminated
    ensures LowerDo(sc, g, b, e).Ok?
    decreases b, 1
  {
    hide EnterBlocks, EmitBranch;
    var k := |g.blocks|;
    EnterGrows(g, 3, k);
    var gb := InLoop(EnterBlocks(g, 3, k), k + 2, k + 1);
    StmtsSucceed(te, sc, gb, b);
    var g2 := LowerStmts(sc, gb, b).value;
    BranchSucceeds(te, sc, SwitchTo(LeaveBody(g2, k + 1, g), k + 1), e, k, k + 2);
  }
}
