/** Monotone construction: lowering only appends to the open block and creates blocks. A closed
    block never changes, and `terminated` says exactly whether the current block is closed. */
module Growth {
  import opened Words
  import opened CTypes
  import opened Ast
  import opened Clif
  import opened SlotTable
  import opened Lowering

  predicate Filled(b: seq<Inst>) {
    b != [] && IsTerminator(b[|b| - 1])
  }

  ghost predicate Valid(g: State) {
    && g.current < |g.blocks|
    && (g.terminated <==> Filled(g.blocks[g.current]))
  }

  /** `g` continues `g0`: every block other than `g0`'s current one is as it was, that one only
      gained instructions, and insertion is there or in a new block. */
  ghost predicate Grown(g0: State, g: State) {
    && Valid(g) && g0.current < |g0.blocks| <= |g.blocks|
    && (g.current == g0.current || |g0.blocks| <= g.current)
    && g0.blocks[g0.current] <= g.blocks[g0.current]
    && forall i :: 0 <= i < |g0.blocks| && i != g0.current ==> g.blocks[i] == g0.blocks[i]
  }

  predicate SameTargets(g: State, g': State) {
    g'.loopBreak == g.loopBreak && g'.loopContinue == g.loopContinue
  }

  lemma {:induction false} GrownTransitive(g0: State, g1: State, g2: State)
    requires Grown(g0, g1) && Grown(g1, g2)
    ensures Grown(g0, g2)
  {
    if g1.current != g0.current {
      assert g2.blocks[g0.current] == g1.blocks[g0.current];
    }
  }

  lemma {:induction false} EmitGrows(g0: State, g: State, insts: seq<Inst>, next: nat)
    requires Grown(g0, g) && !g.terminated && StraightLine(insts)
    ensures Grown(g0, Emit(g, insts, next))
  {
    var b := g.blocks[g.current];
    assert !Filled(b + insts) by {
      if insts == [] { assert b + insts == b; }
    }
  }

  lemma {:induction false} TerminateGrows(g0: State, g: State, i: Inst)
    requires Grown(g0, g) && !g.terminated && IsTerminator(i)
    ensures Grown(g0, Terminate(g, i))
  {
    var b := g.blocks[g.current];
    assert Filled(b + [i]);
  }

  lemma {:induction false} FallToGrows(g0: State, g: State, target: nat)
    requires Grown(g0, g)
    ensures Grown(g0, FallTo(g, target)) && FallTo(g, target).terminated
    ensures FallTo(g, target).current == g.current && |FallTo(g, target).blocks| == |g.blocks|
    ensures forall i :: 0 <= i < |g.blocks| && i != g.current ==> FallTo(g, target).blocks[i] == g.blocks[i]
  {
    if !g.terminated {
      TerminateGrows(g0, g, Jump(target));
    }
  }

  lemma {:induction false} CreateGrows(g0: State, g: State, k: nat)
    requires Grown(g0, g)
    ensures Grown(g0, CreateBlocks(g, k))
  {
  }

  /** Leaving a filled block for a new empty one. */
  lemma {:induction false} SwitchGrows(g0: State, g: State, k: nat)
    requires Grown(g0, g) && g.terminated && |g0.blocks| <= k < |g.blocks| && g.blocks[k] == []
    ensures Grown(g0, SwitchTo(g, k))
  {
  }

  lemma {:induction false} Reflexive(g: State)
    requires Valid(g)
    ensures Grown(g, g)
  {
  }

  lemma {:induction false} LvalStraight(sc: Scope, e: Expr, n: nat)
    requires LvalCode(sc, e, n).Ok?
    ensures StraightLine(LvalCode(sc, e, n).value.insts)
    decreases e, 0
  {
    match e
    case Deref(_, p) => ExprStraight(sc, p, n);
    case Index(_, b, ix) =>
      if IsPointer(b.ty) {
        ExprStraight(sc, b, n);
        ExprStraight(sc, ix, ExprCode(sc, b, n).value.next);
      } else {
        LvalStraight(sc, b, n);
        ExprStraight(sc, ix, LvalCode(sc, b, n).value.next);
      }
    case Member(_, b, _, arrow) => if arrow { ExprStraight(sc, b, n); } else { LvalStraight(sc, b, n); }
    case _ =>
  }

  /** Expressions lower to straight-line code. */
  lemma {:induction false} ExprStraight(sc: Scope, e: Expr, n: nat)
    requires ExprCode(sc, e, n).Ok?
    ensures StraightLine(ExprCode(sc, e, n).value.insts)
    decreases e, 1
  {
    match e
    case NullExpr => assert false;
    case IntLit(_, _) =>
    case StringLit(_, _) =>
    case AddrOf(_, x) => LvalStraight(sc, x, n);
    case Binop(_, _, _, _) => BinopStraight(sc, e, n);
    case Unop(_, _, x) => ExprStraight(sc, x, n);
    case Call(_, _, args) => ArgsStraight(sc, args, n);
    case _ => LvalStraight(sc, e, n);
  }

  lemma {:induction false} BinopStraight(sc: Scope, e: Expr, n: nat)
    requires e.Binop? && ExprCode(sc, e, n).Ok?
    ensures StraightLine(ExprCode(sc, e, n).value.insts)
    decreases e, 0
  {
    if e.op.OpAssign? {
      LvalStraight(sc, e.lhs, n);
      ExprStraight(sc, e.rhs, LvalCode(sc, e.lhs, n).value.next);
    } else {
      ExprStraight(sc, e.lhs, n);
      ExprStraight(sc, e.rhs, ExprCode(sc, e.lhs, n).value.next);
    }
  }

  lemma {:induction false} ArgsStraight(sc: Scope, args: seq<Expr>, n: nat)
    requires ArgsCode(sc, args, n).Ok?
    ensures StraightLine(ArgsCode(sc, args, n).value.insts)
    decreases args, 0
  {
    if args != [] {
      ExprStraight(sc, args[0], n);
      ArgsStraight(sc, args[1..], ExprCode(sc, args[0], n).value.next);
    }
  }

  lemma {:induction false} EmitExprGrows(g0: State, sc: Scope, g: State, e: Expr)
    requires Grown(g0, g) && !g.terminated && EmitExpr(sc, g, e).Ok?
    ensures var g' := EmitExpr(sc, g, e).value.0;
            Grown(g0, g') && !g'.terminated && g'.current == g.current && |g'.blocks| == |g.blocks| && SameTargets(g, g')
    ensures forall i :: 0 <= i < |g.blocks| && i != g.current ==> EmitExpr(sc, g, e).value.0.blocks[i] == g.blocks[i]
  {
    ExprStraight(sc, e, g.next);
    EmitGrows(g0, g, ExprCode(sc, e, g.next).value.insts, ExprCode(sc, e, g.next).value.next);
  }

  lemma {:induction false} EmitBranchGrows(g0: State, sc: Scope, g: State, e: Expr, t: nat, f: nat)
    requires Grown(g0, g) && !g.terminated && EmitBranch(sc, g, e, t, f).Ok?
    ensures var g' := EmitBranch(sc, g, e, t, f).value;
            Grown(g0, g') && g'.terminated && g'.current == g.current && |g'.blocks| == |g.blocks| && SameTargets(g, g')
    ensures forall i :: 0 <= i < |g.blocks| && i != g.current ==> EmitBranch(sc, g, e, t, f).value.blocks[i] == g.blocks[i]
  {
    EmitExprGrows(g0, sc, g, e);
    var (g1, v) := EmitExpr(sc, g, e).value;
    TerminateGrows(g0, g1, Brif(v, t, f));
  }

  /** The whole-chain statement of monotone construction. */
  lemma {:induction false} LowerStmtsGrows(sc: Scope, g: State, s: Stmts)
    requires Valid(g) && LowerStmts(sc, g, s).Ok?
    ensures Grown(g, LowerStmts(sc, g, s).value) && SameTargets(g, LowerStmts(sc, g, s).value)
    decreases s, 0
  {
    Reflexive(g);
    if s.Cons? && !g.terminated {
      var g1 := LowerStmt(sc, g, s.head).value;
      LowerStmtGrows(sc, g, s.head);
      LowerStmtsGrows(sc, g1, s.next);
      GrownTransitive(g, g1, LowerStmts(sc, g1, s.next).value);
    }
  }

  lemma {:induction false} LowerStmtGrows(sc: Scope, g: State, s: Stmt)
    requires Valid(g) && !g.terminated && LowerStmt(sc, g, s).Ok?
    ensures Grown(g, LowerStmt(sc, g, s).value) && SameTargets(g, LowerStmt(sc, g, s).value)
    decreases s, 2
  {
    Reflexive(g);
    match s
    case Return(e) =>
      EmitExprGrows(g, sc, g, e);
      var (g1, v) := EmitExpr(sc, g, e).value;
      TerminateGrows(g, g1, ReturnInst(v));
    case Eval(e) => EmitExprGrows(g, sc, g, e);
    case Decl(x, t, e) =>
      if !e.NullExpr? {
        var c := ExprCode(sc, e, g.next).value;
        var k := NarrowToStore(sc.layouts, c.val, t, c.next).value;
        ExprStraight(sc, e, g.next);
        var insts := c.insts + k.insts + [StackAddr(k.next, Find(sc.table, x).value.slot), Store(k.next, k.val)];
        EmitGrows(g, g, insts, k.next + 1);
      }
    case Block(b) => LowerStmtsGrows(sc, g, b);
    case If(e, t, f) => IfGrows(sc, g, e, t, f);
    case While(e, b) => WhileGrows(sc, g, e, b);
    case For(first, e, post, b) =>
      var g0 := LowerStmts(sc, g, first).value;
      LowerStmtsGrows(sc, g, first);
      ForGrows(sc, g0, e, post, b);
      GrownTransitive(g, g0, LowerStmt(sc, g, s).value);
    case Do(b, e) => DoGrows(sc, g, b, e);
    case Break => TerminateGrows(g, g, Jump(g.loopBreak.value));
    case Continue => TerminateGrows(g, g, Jump(g.loopContinue.value));
  }

  lemma {:induction false} IfTestGrows(sc: Scope, g: State, e: Expr, hasElse: bool)
    requires Valid(g) && !g.terminated && LowerIfTest(sc, g, e, hasElse).Ok?
    ensures var g' := LowerIfTest(sc, g, e, hasElse).value;
            Grown(g, g') && g'.terminated && |g'.blocks| == |g.blocks| + 3 && SameTargets(g, g')
    ensures forall i :: |g.blocks| <= i < |g.blocks| + 3 ==> LowerIfTest(sc, g, e, hasElse).value.blocks[i] == []
  {
    Reflexive(g);
    EmitExprGrows(g, sc, g, e);
    var (g1, v) := EmitExpr(sc, g, e).value;
    CreateGrows(g, g1, 3);
    var k := |g.blocks|;
    TerminateGrows(g, CreateBlocks(g1, 3), Brif(v, k, if hasElse then k + 1 else k + 2));
  }

  lemma {:induction false} IfGrows(sc: Scope, g: State, e: Expr, t: Stmts, f: Stmts)
    requires Valid(g) && !g.terminated && LowerIf(sc, g, e, t, f).Ok?
    ensures Grown(g, LowerIf(sc, g, e, t, f).value) && SameTargets(g, LowerIf(sc, g, e, t, f).value)
    decreases If(e, t, f), 1
  {
    hide LowerIfTest;
    IfTestGrows(sc, g, e, f.Cons?);
    ArmsGrow(sc, g, |g.blocks|, LowerIfTest(sc, g, e, f.Cons?).value, e, t, f);
  }

  lemma {:induction false} ArmsGrow(sc: Scope, g0: State, k: nat, g: State, e: Expr, t: Stmts, f: Stmts)
    requires Grown(g0, g) && g.terminated && |g0.blocks| <= k && k + 2 < |g.blocks|
    requires g.blocks[k] == g.blocks[k + 1] == g.blocks[k + 2] == []
    requires LowerArms(sc, k, g, e, t, f).Ok?
    ensures Grown(g0, LowerArms(sc, k, g, e, t, f).value) && SameTargets(g, LowerArms(sc, k, g, e, t, f).value)
    decreases If(e, t, f), 0
  {
    var g3 := ArmGrows(sc, g0, g, k, t, k + 2);
    if f.Nil? {
      SwitchGrows(g0, FallTo(g3, k + 2), k + 2);
    } else {
      ElseGrows(sc, g0, k, g3, f);
    }
  }

  lemma {:induction false} ElseGrows(sc: Scope, g0: State, k: nat, g: State, f: Stmts)
    requires var g' := FallTo(g, k + 2);
             Grown(g0, g') && g'.terminated && |g0.blocks| <= k && k + 2 < |g'.blocks| && g'.blocks[k + 1] == g'.blocks[k + 2] == []
    requires LowerElse(sc, k, g, f).Ok?
    ensures Grown(g0, LowerElse(sc, k, g, f).value) && SameTargets(g, LowerElse(sc, k, g, f).value)
    decreases f, 2
  {
    var g5 := ArmGrows(sc, g0, FallTo(g, k + 2), k + 1, f, k + 2);
    if !(g.terminated && g5.terminated) {
      SwitchGrows(g0, FallTo(g5, k + 2), k + 2);
    }
  }

  /** One arm: from a filled block into the new block `k`, through the arm, on to `target`.
      Other blocks waiting to be filled stay empty. */
  lemma {:induction false} ArmGrows(sc: Scope, g0: State, g: State, k: nat, s: Stmts, target: nat) returns (g': State)
    requires Grown(g0, g) && g.terminated && |g0.blocks| <= k < |g.blocks| && g.blocks[k] == []
    requires LowerStmts(sc, SwitchTo(g, k), s).Ok?
    ensures g' == LowerStmts(sc, SwitchTo(g, k), s).value
    ensures Grown(SwitchTo(g, k), g') && Grown(g0, g') && Grown(g0, FallTo(g', target)) && FallTo(g', target).terminated
    ensures SameTargets(g, g') && SameTargets(g, FallTo(g', target))
    ensures |g.blocks| <= |FallTo(g', target).blocks| == |g'.blocks|
    ensures forall i :: 0 <= i < |g.blocks| && i != k ==> FallTo(g', target).blocks[i] == g'.blocks[i] == g.blocks[i]
    decreases s, 1
  {
    g' := LowerStmts(sc, SwitchTo(g, k), s).value;
    SwitchGrows(g0, g, k);
    LowerStmtsGrows(sc, SwitchTo(g, k), s);
    GrownTransitive(g0, SwitchTo(g, k), g');
    FallToGrows(g0, g', target);
  }

  /** Creating the blocks of a loop and falling into one of them. */
  lemma {:induction false} EnterGrows(g: State, k: nat, target: nat)
    requires Valid(g) && |g.blocks| <= target < |g.blocks| + k
    ensures var g' := EnterBlocks(g, k, target);
            Grown(g, g') && !g'.terminated && |g'.blocks| == |g.blocks| + k && SameTargets(g, g') && g'.current == target
    ensures forall i :: |g.blocks| <= i < |g.blocks| + k ==> EnterBlocks(g, k, target).blocks[i] == []
  {
    Reflexive(g);
    CreateGrows(g, g, k);
    FallToGrows(g, CreateBlocks(g, k), target);
    SwitchGrows(g, FallTo(CreateBlocks(g, k), target), target);
  }

  lemma {:induction false} WhileGrows(sc: Scope, g: State, e: Expr, b: Stmts)
    requires Valid(g) && !g.terminated && LowerWhile(sc, g, e, b).Ok?
    ensures Grown(g, LowerWhile(sc, g, e, b).value) && SameTargets(g, LowerWhile(sc, g, e, b).value)
    decreases b, 3
  {
    hide EnterBlocks, EmitBranch;
    var k := |g.blocks|;
    EnterGrows(g, 3, k);
    EmitBranchGrows(g, sc, EnterBlocks(g, 3, k), e, k + 1, k + 2);
    WhileBodyGrows(sc, g, EmitBranch(sc, EnterBlocks(g, 3, k), e, k + 1, k + 2).value, b);
  }

  lemma {:induction false} WhileBodyGrows(sc: Scope, g: State, g2: State, b: Stmts)
    requires Grown(g, g2) && g2.terminated && |g2.blocks| == |g.blocks| + 3 && LowerWhileBody(sc, g, g2, b).Ok?
    requires g2.blocks[|g.blocks| + 1] == g2.blocks[|g.blocks| + 2] == []
    ensures Grown(g, LowerWhileBody(sc, g, g2, b).value) && SameTargets(g, LowerWhileBody(sc, g, g2, b).value)
    decreases b, 2
  {
    var k := |g.blocks|;
    var g3 := ArmGrows(sc, g, InLoop(g2, k + 2, k), k + 1, b, k);
    SwitchGrows(g, LeaveBody(g3, k, g), k + 2);
  }

  lemma {:induction false} ForGrows(sc: Scope, g: State, e: Expr, post: Expr, b: Stmts)
    requires Valid(g) && LowerForLoop(sc, g, e, post, b).Ok?
    ensures Grown(g, LowerForLoop(sc, g, e, post, b).value) && SameTargets(g, LowerForLoop(sc, g, e, post, b).value)
    decreases b, 3
  {
    hide EnterBlocks, LowerForTest, LowerForBody;
    var k := |g.blocks|;
    EnterGrows(g, 4, k);
    ForTestGrows(g, sc, EnterBlocks(g, 4, k), e, k + 2, k + 3);
    ForBodyGrows(sc, g, LowerForTest(sc, EnterBlocks(g, 4, k), e, k + 2, k + 3).value, post, b);
  }

  lemma {:induction false} ForBodyGrows(sc: Scope, g: State, g2: State, post: Expr, b: Stmts)
    requires Grown(g, g2) && g2.terminated && |g2.blocks| == |g.blocks| + 4 && LowerForBody(sc, g, g2, post, b).Ok?
    requires g2.blocks[|g.blocks| + 1] == g2.blocks[|g.blocks| + 2] == g2.blocks[|g.blocks| + 3] == []
    ensures Grown(g, LowerForBody(sc, g, g2, post, b).value) && SameTargets(g, LowerForBody(sc, g, g2, post, b).value)
    decreases b, 2
  {
    var k := |g.blocks|;
    var g3 := ArmGrows(sc, g, InLoop(g2, k + 3, k + 1), k + 2, b, k + 1);
    ForStepGrows(g, sc, LeaveBody(g3, k + 1, g), k, post);
  }

  lemma {:induction false} ForStepGrows(g0: State, sc: Scope, g: State, k: nat, post: Expr)
    requires Grown(g0, g) && g.terminated && LowerForStep(sc, g, k, post).Ok?
    requires |g0.blocks| <= k && k + 3 < |g.blocks| && g.blocks[k + 1] == g.blocks[k + 3] == []
    ensures Grown(g0, LowerForStep(sc, g, k, post).value) && SameTargets(g, LowerForStep(sc, g, k, post).value)
  {
    SwitchGrows(g0, g, k + 1);
    ForPostGrows(g0, sc, SwitchTo(g, k + 1), post, k);
    SwitchGrows(g0, LowerForPost(sc, SwitchTo(g, k + 1), post, k).value, k + 3);
  }

  lemma {:induction false} ForTestGrows(g0: State, sc: Scope, g: State, e: Expr, t: nat, f: nat)
    requires Grown(g0, g) && !g.terminated && LowerForTest(sc, g, e, t, f).Ok?
    ensures var g' := LowerForTest(sc, g, e, t, f).value;
            Grown(g0, g') && g'.terminated && g'.current == g.current && |g'.blocks| == |g.blocks| && SameTargets(g, g')
    ensures forall i :: 0 <= i < |g.blocks| && i != g.current ==> LowerForTest(sc, g, e, t, f).value.blocks[i] == g.blocks[i]
  {
    if e.NullExpr? {
      EmitGrows(g0, g, [Iconst(g.next, I32, 1)], g.next + 1);
      TerminateGrows(g0, Emit(g, [Iconst(g.next, I32, 1)], g.next + 1), Brif(g.next, t, f));
    } else {
      EmitBranchGrows(g0, sc, g, e, t, f);
    }
  }

  lemma {:induction false} ForPostGrows(g0: State, sc: Scope, g: State, post: Expr, head: nat)
    requires Grown(g0, g) && !g.terminated && LowerForPost(sc, g, post, head).Ok?
    ensures var g' := LowerForPost(sc, g, post, head).value;
            Grown(g0, g') && g'.terminated && g'.current == g.current && |g'.blocks| == |g.blocks| && SameTargets(g, g')
    ensures forall i :: 0 <= i < |g.blocks| && i != g.current ==> LowerForPost(sc, g, post, head).value.blocks[i] == g.blocks[i]
  {
    if post.NullExpr? {
      TerminateGrows(g0, g, Jump(head));
    } else {
      EmitExprGrows(g0, sc, g, post);
      TerminateGrows(g0, EmitExpr(sc, g, post).value.0, Jump(head));
    }
  }

  lemma {:induction false} DoGrows(sc: Scope, g: State, b: Stmts, e: Expr)
    requires Valid(g) && !g.terminated && LowerDo(sc, g, b, e).Ok?
    ensures Grown(g, LowerDo(sc, g, b, e).value) && SameTargets(g, LowerDo(sc, g, b, e).value)
    decreases b, 3
  {
    hide EnterBlocks;
    var k := |g.blocks|;
    EnterGrows(g, 3, k);
    DoBodyGrows(sc, g, EnterBlocks(g, 3, k), b, e);
  }

  lemma {:induction false} DoBodyGrows(sc: Scope, g: State, g1: State, b: Stmts, e: Expr)
    requires Grown(g, g1) && !g1.terminated && |g1.blocks| == |g.blocks| + 3 && g1.current == |g.blocks|
    requires g1.blocks[|g.blocks| + 1] == g1.blocks[|g.blocks| + 2] == [] && LowerDoBody(sc, g, g1, b, e).Ok?
    ensures Grown(g, LowerDoBody(sc, g, g1, b, e).value) && SameTargets(g, LowerDoBody(sc, g, g1, b, e).value)
    decreases b, 2
  {
    hide LowerDoTest;
    var k := |g.blocks|;
    var gb := InLoop(g1, k + 2, k + 1);
    LowerStmtsGrows(sc, gb, b);
    var g2 := LowerStmts(sc, gb, b).value;
    GrownTransitive(g, gb, g2);
    FallToGrows(g, g2, k + 1);
    DoTestGrows(g, sc, LeaveBody(g2, k + 1, g), k, e);
  }

  lemma {:induction false} DoTestGrows(g0: State, sc: Scope, g: State, k: nat, e: Expr)
    requires Grown(g0, g) && g.terminated && LowerDoTest(sc, g, k, e).Ok?
    requires |g0.blocks| <= k && k + 2 < |g.blocks| && g.blocks[k + 1] == g.blocks[k + 2] == []
    ensures Grown(g0, LowerDoTest(sc, g, k, e).value) && SameTargets(g, LowerDoTest(sc, g, k, e).value)
  {
    SwitchGrows(g0, g, k + 1);
    EmitBranchGrows(g0, sc, SwitchTo(g, k + 1), e, k, k + 2);
    SwitchGrows(g0, EmitBranch(sc, SwitchTo(g, k + 1), e, k, k + 2).value, k + 2);
  }
}
