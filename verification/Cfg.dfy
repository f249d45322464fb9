/** The control-flow graph of a finished function is well formed: a terminator ends every block
    that is not empty and stands nowhere else, and every branch goes to a filled block. */
module Cfg {
  import opened Results
  import opened Words
  import opened CTypes
  import opened Ast
  import opened Clif
  import opened SlotTable
  import opened Lowering
  import opened Growth
  import opened WellTyped
  import opened FuncCorrect

  /** Where a terminator may go. */
  function Targets(i: Inst): set<nat> {
    match i
    case Jump(t) => {t}
    case Brif(_, t, f) => {t, f}
    case _ => {}
  }

  function BlockTargets(b: seq<Inst>): set<nat> {
    if b == [] then {} else Targets(b[|b| - 1])
  }

  /** Nothing follows a terminator. */
  ghost predicate OneTerminator(b: seq<Inst>) {
    forall i :: 0 <= i < |b| - 1 ==> !IsTerminator(b[i])
  }

  /** A branch target that is, or will be, filled: `promised` blocks are filled later. */
  ghost predicate Kept(g: State, t: nat, promised: set<nat>) {
    t < |g.blocks| && (Filled(g.blocks[t]) || t in promised || t == g.current)
  }

  ghost predicate BlockTidy(g: State, i: nat, promised: set<nat>)
    requires i < |g.blocks|
  {
    && OneTerminator(g.blocks[i])
    && (i == g.current || Filled(g.blocks[i]) || g.blocks[i] == [])
    && forall t :: t in BlockTargets(g.blocks[i]) ==> Kept(g, t, promised)
  }

  /** The invariant of construction. */
  ghost predicate Tidy(g: State, promised: set<nat>) {
    Valid(g) && forall i :: 0 <= i < |g.blocks| ==> BlockTidy(g, i, promised)
  }

  /** The loop targets are among the promised blocks. */
  ghost predicate LoopsPromised(g: State, promised: set<nat>) {
    && (g.loopBreak.Some? ==> g.loopBreak.value < |g.blocks| && g.loopBreak.value in promised)
    && (g.loopContinue.Some? ==> g.loopContinue.value < |g.blocks| && g.loopContinue.value in promised)
  }

  lemma {:induction false} EmitTidy(g: State, insts: seq<Inst>, next: nat, promised: set<nat>)
    requires Tidy(g, promised) && !g.terminated && StraightLine(insts)
    ensures Tidy(Emit(g, insts, next), promised)
  {
    var g' := Emit(g, insts, next);
    Reflexive(g);
    EmitGrows(g, g, insts, next);
    var b, b' := g.blocks[g.current], g'.blocks[g.current];
    assert b' == b + insts;
    assert BlockTidy(g, g.current, promised);
    assert BlockTargets(b') == {};
    forall i | 0 <= i < |g'.blocks|
      ensures BlockTidy(g', i, promised)
    {
      assert BlockTidy(g, i, promised);
      forall t | t in BlockTargets(g'.blocks[i])
        ensures Kept(g', t, promised)
      {
        assert Kept(g, t, promised);
      }
    }
  }

  lemma {:induction false} TerminateTidy(g: State, j: Inst, promised: set<nat>)
    requires Tidy(g, promised) && !g.terminated && IsTerminator(j)
    requires forall t :: t in Targets(j) ==> Kept(g, t, promised)
    ensures Tidy(Terminate(g, j), promised)
  {
    var g' := Terminate(g, j);
    Reflexive(g);
    TerminateGrows(g, g, j);
    var b, b' := g.blocks[g.current], g'.blocks[g.current];
    assert b' == b + [j];
    assert BlockTidy(g, g.current, promised);
    forall i | 0 <= i < |g'.blocks|
      ensures BlockTidy(g', i, promised)
    {
      assert BlockTidy(g, i, promised);
      forall t | t in BlockTargets(g'.blocks[i])
        ensures Kept(g', t, promised)
      {
        assert Kept(g, t, promised);
      }
    }
  }

  lemma {:induction false} FallToTidy(g: State, target: nat, promised: set<nat>)
    requires Tidy(g, promised) && (!g.terminated ==> Kept(g, target, promised))
    ensures Tidy(FallTo(g, target), promised)
  {
    if !g.terminated {
      TerminateTidy(g, Jump(target), promised);
    }
  }

  lemma {:induction false} CreateTidy(g: State, k: nat, promised: set<nat>)
    requires Tidy(g, promised)
    ensures Tidy(CreateBlocks(g, k), promised)
  {
    var g' := CreateBlocks(g, k);
    forall i | 0 <= i < |g'.blocks|
      ensures BlockTidy(g', i, promised)
    {
      if i < |g.blocks| {
        assert BlockTidy(g, i, promised);
        forall t | t in BlockTargets(g'.blocks[i])
          ensures Kept(g', t, promised)
        {
          assert Kept(g, t, promised);
        }
      }
    }
  }

  lemma {:induction false} SwitchTidy(g: State, k: nat, promised: set<nat>)
    requires Tidy(g, promised) && g.terminated && k < |g.blocks| && g.blocks[k] == []
    ensures Tidy(SwitchTo(g, k), promised)
  {
    var g' := SwitchTo(g, k);
    forall i | 0 <= i < |g'.blocks|
      ensures BlockTidy(g', i, promised)
    {
      assert BlockTidy(g, i, promised);
      forall t | t in BlockTargets(g'.blocks[i])
        ensures Kept(g', t, promised)
      {
        assert Kept(g, t, promised);
      }
    }
  }

  /** Promises may be added; kept ones may be dropped. */
  lemma {:induction false} PromiseTidy(g: State, promised: set<nat>, promised': set<nat>)
    requires Tidy(g, promised)
    requires forall t :: t in promised && t !in promised' ==> t < |g.blocks| && (Filled(g.blocks[t]) || t == g.current)
    ensures Tidy(g, promised')
  {
    forall i | 0 <= i < |g.blocks|
      ensures BlockTidy(g, i, promised')
    {
      assert BlockTidy(g, i, promised);
      forall t | t in BlockTargets(g.blocks[i])
        ensures Kept(g, t, promised')
      {
        assert Kept(g, t, promised);
      }
    }
  }

  /** Loop targets play no part in the invariant. */
  lemma {:induction false} TargetsTidy(g: State, g': State, promised: set<nat>)
    requires Tidy(g, promised) && g'.blocks == g.blocks && g'.current == g.current && g'.terminated == g.terminated
    ensures Tidy(g', promised)
  {
    forall i | 0 <= i < |g.blocks|
      ensures BlockTidy(g', i, promised)
    {
      assert BlockTidy(g, i, promised);
      forall t | t in BlockTargets(g.blocks[i])
        ensures Kept(g', t, promised)
      {
        assert Kept(g, t, promised);
      }
    }
  }

  lemma {:induction false} EmitExprTidy(sc: Scope, g: State, e: Expr, promised: set<nat>)
    requires Tidy(g, promised) && !g.terminated && EmitExpr(sc, g, e).Ok?
    ensures Tidy(EmitExpr(sc, g, e).value.0, promised)
  {
    var c := ExprCode(sc, e, g.next).value;
    ExprStraight(sc, e, g.next);
    EmitTidy(g, c.insts, c.next, promised);
  }

  lemma {:induction false} EmitBranchTidy(sc: Scope, g: State, e: Expr, t: nat, f: nat, promised: set<nat>)
    requires Tidy(g, promised) && !g.terminated && EmitBranch(sc, g, e, t, f).Ok?
    requires t < |g.blocks| && f < |g.blocks| && t in promised && f in promised
    ensures Tidy(EmitBranch(sc, g, e, t, f).value, promised)
  {
    EmitExprTidy(sc, g, e, promised);
    Reflexive(g);
    EmitExprGrows(g, sc, g, e);
    var (g1, v) := EmitExpr(sc, g, e).value;
    TerminateTidy(g1, Brif(v, t, f), promised);
  }

  lemma {:induction false} EnterTidy(g: State, count: nat, target: nat, promised: set<nat>)
    requires Tidy(g, promised) && |g.blocks| <= target < |g.blocks| + count && target in promised
    ensures Tidy(EnterBlocks(g, count, target), promised)
  {
    Reflexive(g);
    CreateGrows(g, g, count);
    CreateTidy(g, count, promised);
    FallToTidy(CreateBlocks(g, count), target, promised);
    FallToGrows(g, CreateBlocks(g, count), target);
    SwitchTidy(FallTo(CreateBlocks(g, count), target), target, promised);
  }

  /** The block that was current is filled unless it still is current. */
  ghost predicate LeftFilled(g: State, g': State) {
    g.current < |g'.blocks| && (g'.current != g.current ==> Filled(g'.blocks[g.current]))
  }

  ghost predicate StartFilled(g: State, g': State) {
    g.current < |g'.blocks| && Filled(g'.blocks[g.current])
  }

  /** Lowering a chain keeps the invariant, and fills the block it started in before it goes on
      in another. */
  lemma {:induction false} StmtsTidy(sc: Scope, g: State, b: Stmts, promised: set<nat>)
    requires Tidy(g, promised) && LoopsPromised(g, promised) && LowerStmts(sc, g, b).Ok?
    ensures var g' := LowerStmts(sc, g, b).value;
            Tidy(g', promised) && LeftFilled(g, g')
    decreases b, 0
  {
    if b.Cons? && !g.terminated {
      var g1 := LowerStmt(sc, g, b.head).value;
      LowerStmtGrows(sc, g, b.head);
      StmtTidy(sc, g, b.head, promised);
      StmtsTidy(sc, g1, b.next, promised);
      LowerStmtsGrows(sc, g1, b.next);
    }
  }

  lemma {:induction false} StmtTidy(sc: Scope, g: State, b: Stmt, promised: set<nat>)
    requires Tidy(g, promised) && LoopsPromised(g, promised) && !g.terminated && LowerStmt(sc, g, b).Ok?
    ensures var g' := LowerStmt(sc, g, b).value;
            Tidy(g', promised) && LeftFilled(g, g')
    decreases b, 5
  {
    hide Tidy, Filled, ExprCode, LowerIf, LowerWhile, LowerForLoop, LowerDo, LowerStmts;
    TidyValid(g, promised);
    match b
    case Return(e) =>
      EmitExprTidy(sc, g, e, promised);
      ExprEmitted(sc, g, e, promised);
      var (g1, v) := EmitExpr(sc, g, e).value;
      TerminateTidy(g1, ReturnInst(v), promised);
    case Eval(e) => EmitExprTidy(sc, g, e, promised);
    case Decl(x, t, e) =>
      if !e.NullExpr? {
        InitTidy(sc, g, x, t, e, promised);
      }
    case Block(b) => StmtsTidy(sc, g, b, promised);
    case If(e, t, f) => IfTidy(sc, g, e, t, f, promised);
    case While(e, b) => WhileTidy(sc, g, e, b, promised);
    case For(first, e, post, b) => ForTidy(sc, g, first, e, post, b, promised);
    case Do(b, e) => DoTidy(sc, g, b, e, promised);
    case Break => TerminateTidy(g, Jump(g.loopBreak.value), promised);
    case Continue => TerminateTidy(g, Jump(g.loopContinue.value), promised);
  }

  lemma {:induction false} ExprEmitted(sc: Scope, g: State, e: Expr, promised: set<nat>)
    requires Tidy(g, promised) && !g.terminated && EmitExpr(sc, g, e).Ok?
    ensures var g1 := EmitExpr(sc, g, e).value.0;
            !g1.terminated && g1.current == g.current && |g1.blocks| == |g.blocks|
  {
    Reflexive(g);
    EmitExprGrows(g, sc, g, e);
  }

  lemma {:induction false} InitTidy(sc: Scope, g: State, x: CString, t: CType, e: Expr, promised: set<nat>)
    requires Tidy(g, promised) && !g.terminated && LowerInit(sc, g, x, t, e).Ok?
    ensures Tidy(LowerInit(sc, g, x, t, e).value, promised) && LowerInit(sc, g, x, t, e).value.current == g.current
  {
    hide Tidy;
    var c := ExprCode(sc, e, g.next).value;
    var k := NarrowToStore(sc.layouts, c.val, t, c.next).value;
    ExprStraight(sc, e, g.next);
    EmitTidy(g, c.insts + k.insts + [StackAddr(k.next, Find(sc.table, x).value.slot), Store(k.next, k.val)], k.next + 1, promised);
  }

  /** A new block filled with a chain and, if control falls off it, a jump to `target`. */
  lemma {:induction false} ArmTidy(sc: Scope, g0: State, g: State, k: nat, s: Stmts, target: nat, promised: set<nat>) returns (g': State)
    requires Grown(g0, g) && Tidy(g, promised) && LoopsPromised(g, promised)
    requires g.terminated && |g0.blocks| <= k < |g.blocks| && g.blocks[k] == [] && LowerStmts(sc, SwitchTo(g, k), s).Ok?
    requires !LowerStmts(sc, SwitchTo(g, k), s).value.terminated ==> target < |g.blocks| && target in promised
    ensures g' == LowerStmts(sc, SwitchTo(g, k), s).value
    ensures Tidy(FallTo(g', target), promised) && Grown(g0, FallTo(g', target)) && FallTo(g', target).terminated
    ensures SameTargets(g, FallTo(g', target)) && |g.blocks| <= |FallTo(g', target).blocks|
    ensures Filled(FallTo(g', target).blocks[k])
    ensures forall i :: 0 <= i < |g.blocks| && i != k ==> FallTo(g', target).blocks[i] == g.blocks[i]
    decreases s, 1
  {
    hide LowerStmts, BlockTidy;
    g' := ArmGrows(sc, g0, g, k, s, target);
    SwitchTidy(g, k, promised);
    StmtsTidy(sc, SwitchTo(g, k), s, promised);
    FallToTidy(g', target, promised);
    FallToGrows(SwitchTo(g, k), g', target);
  }

  lemma {:induction false} IfTidy(sc: Scope, g: State, e: Expr, t: Stmts, f: Stmts, promised: set<nat>)
    requires Tidy(g, promised) && LoopsPromised(g, promised) && !g.terminated && LowerIf(sc, g, e, t, f).Ok?
    ensures var g' := LowerIf(sc, g, e, t, f).value;
            Tidy(g', promised) && LeftFilled(g, g')
    decreases If(e, t, f), 4
  {
    hide LowerIfTest, LowerArms, LowerStmts, BlockTidy, Tidy;
    var k := |g.blocks|;
    TidyValid(g, promised);
    IfTestGrows(sc, g, e, f.Cons?);
    var g2 := LowerIfTest(sc, g, e, f.Cons?).value;
    IfTestTidy(sc, g, e, f.Cons?, promised, true);
    IfTestTidy(sc, g, e, f.Cons?, promised, false);
    ArmsTidy(sc, g, g2, e, t, f, promised);
    IfGrows(sc, g, e, t, f);
    IfTestFills(sc, g, e, f.Cons?);
    LowerArmsKeeps(sc, g, g2, e, t, f);
  }

  lemma {:induction false} TidyValid(g: State, promised: set<nat>)
    requires Tidy(g, promised)
    ensures Valid(g)
  {
  }

  lemma {:induction false} IfTestFills(sc: Scope, g: State, e: Expr, hasElse: bool)
    requires Valid(g) && !g.terminated && LowerIfTest(sc, g, e, hasElse).Ok?
    ensures Filled(LowerIfTest(sc, g, e, hasElse).value.blocks[g.current]) && LowerIfTest(sc, g, e, hasElse).value.current == g.current
  {
    IfTestGrows(sc, g, e, hasElse);
  }

  /** The arms do not touch the block of the test. */
  lemma {:induction false} LowerArmsKeeps(sc: Scope, g: State, g2: State, e: Expr, t: Stmts, f: Stmts)
    requires Grown(g, g2) && g2.terminated && g2.current == g.current && |g2.blocks| == |g.blocks| + 3
    requires g2.blocks[|g.blocks|] == g2.blocks[|g.blocks| + 1] == g2.blocks[|g.blocks| + 2] == []
    requires LowerArms(sc, |g.blocks|, g2, e, t, f).Ok?
    ensures g.current < |LowerArms(sc, |g.blocks|, g2, e, t, f).value.blocks|
    ensures LowerArms(sc, |g.blocks|, g2, e, t, f).value.blocks[g.current] == g2.blocks[g.current]
  {
    hide LowerElse, LowerStmts;
    var k := |g.blocks|;
    var g3 := ArmGrows(sc, g, g2, k, t, k + 2);
    if f.Cons? {
      LowerElseKeeps(sc, g, k, g3, f);
    }
  }

  lemma {:induction false} LowerElseKeeps(sc: Scope, g0: State, k: nat, g: State, f: Stmts)
    requires var g' := FallTo(g, k + 2);
             Grown(g0, g') && g'.terminated && |g0.blocks| <= k && k + 2 < |g'.blocks| && g'.blocks[k + 1] == g'.blocks[k + 2] == []
    requires LowerElse(sc, k, g, f).Ok?
    ensures |LowerElse(sc, k, g, f).value.blocks| >= |g0.blocks|
    ensures LowerElse(sc, k, g, f).value.blocks[g0.current] == FallTo(g, k + 2).blocks[g0.current]
  {
    hide LowerStmts, FallTo;
    var g5 := ArmGrows(sc, g0, FallTo(g, k + 2), k + 1, f, k + 2);
  }

  /** The blocks an `if` branches to; the merge block is one of them if an arm falls into it. */
  ghost function IfPromises(k: nat, hasElse: bool, merges: bool): set<nat> {
    {k} + (if hasElse then {k + 1} else {}) + (if merges || !hasElse then {k + 2} else {})
  }

  lemma {:induction false} IfTestTidy(sc: Scope, g: State, e: Expr, hasElse: bool, promised: set<nat>, merges: bool)
    requires Tidy(g, promised) && !g.terminated && LowerIfTest(sc, g, e, hasElse).Ok?
    ensures Tidy(LowerIfTest(sc, g, e, hasElse).value, promised + IfPromises(|g.blocks|, hasElse, merges))
  {
    hide ExprCode;
    var p := promised + IfPromises(|g.blocks|, hasElse, merges);
    PromiseTidy(g, promised, p);
    EmitExprTidy(sc, g, e, p);
    ExprEmitted(sc, g, e, p);
    var (g1, v) := EmitExpr(sc, g, e).value;
    CreateTidy(g1, 3, p);
    var k := |g.blocks|;
    var j := Brif(v, k, if hasElse then k + 1 else k + 2);
    Reflexive(g1);
    CreateGrows(g1, g1, 3);
    TerminateTidy(CreateBlocks(g1, 3), j, p);
  }

  lemma {:induction false} ArmsTidy(sc: Scope, g0: State, g: State, e: Expr, t: Stmts, f: Stmts, promised: set<nat>)
    requires Grown(g0, g) && g.terminated && |g.blocks| == |g0.blocks| + 3 && LoopsPromised(g, promised)
    requires forall merges :: Tidy(g, promised + IfPromises(|g0.blocks|, f.Cons?, merges))
    requires g.blocks[|g0.blocks|] == g.blocks[|g0.blocks| + 1] == g.blocks[|g0.blocks| + 2] == []
    requires LowerArms(sc, |g0.blocks|, g, e, t, f).Ok?
    ensures Tidy(LowerArms(sc, |g0.blocks|, g, e, t, f).value, promised)
    decreases If(e, t, f), 3
  {
    hide LowerElse, LowerStmts, BlockTidy, Tidy;
    var k := |g0.blocks|;
    var merges := !LowerStmts(sc, SwitchTo(g, k), t).value.terminated || f.Nil? || ElseFalls(sc, k, LowerStmts(sc, SwitchTo(g, k), t).value, f);
    var p := promised + IfPromises(k, f.Cons?, merges);
    assert Tidy(g, p);
    var g3 := ArmTidy(sc, g0, g, k, t, k + 2, p);
    var g4 := FallTo(g3, k + 2);
    if f.Nil? {
      SwitchTidy(g4, k + 2, p);
      PromiseTidy(SwitchTo(g4, k + 2), p, promised);
    } else {
      ElseTidy(sc, g0, k, g3, f, promised, p, e, t);
    }
  }

  ghost predicate ElseFalls(sc: Scope, k: nat, g: State, f: Stmts) {
    var r := LowerStmts(sc, SwitchTo(FallTo(g, k + 2), k + 1), f);
    r.Ok? && !r.value.terminated
  }

  lemma {:induction false} ElseTidy(sc: Scope, g0: State, k: nat, g: State, f: Stmts, promised: set<nat>, p: set<nat>, e: Expr, t: Stmts)
    requires var g4 := FallTo(g, k + 2);
             && Grown(g0, g4) && g4.terminated && |g0.blocks| == k && k + 2 < |g4.blocks|
             && g4.blocks[k + 1] == g4.blocks[k + 2] == [] && Filled(g4.blocks[k])
             && Tidy(g4, p) && LoopsPromised(g4, p)
    requires LowerElse(sc, k, g, f).Ok? && f.Cons?
    requires p == promised + IfPromises(k, true, !g.terminated || ElseFalls(sc, k, g, f))
    ensures Tidy(LowerElse(sc, k, g, f).value, promised)
    decreases If(e, t, f), 2, f
  {
    hide LowerStmts, BlockTidy, Tidy, FallTo;
    var g4 := FallTo(g, k + 2);
    var g5 := ArmTidy(sc, g0, g4, k + 1, f, k + 2, p);
    var g6 := FallTo(g5, k + 2);
    if g.terminated && g5.terminated {
      PromiseTidy(g6, p, promised);
    } else {
      SwitchTidy(g6, k + 2, p);
      PromiseTidy(SwitchTo(g6, k + 2), p, promised);
    }
  }

  lemma {:induction false} EnterFills(g: State, count: nat, target: nat)
    requires Valid(g) && |g.blocks| <= target < |g.blocks| + count
    ensures Filled(EnterBlocks(g, count, target).blocks[g.current])
  {
    Reflexive(g);
    CreateGrows(g, g, count);
    FallToGrows(g, CreateBlocks(g, count), target);
  }

  lemma {:induction false} WhileTidy(sc: Scope, g: State, e: Expr, b: Stmts, promised: set<nat>)
    requires Tidy(g, promised) && LoopsPromised(g, promised) && !g.terminated && LowerWhile(sc, g, e, b).Ok?
    ensures Tidy(LowerWhile(sc, g, e, b).value, promised) && LeftFilled(g, LowerWhile(sc, g, e, b).value)
    decreases b, 4
  {
    hide LowerWhileBody, EmitBranch, EnterBlocks, Tidy;
    var k := |g.blocks|;
    var p := promised + {k, k + 1, k + 2};
    TidyValid(g, promised);
    PromiseTidy(g, promised, p);
    EnterTidy(g, 3, k, p);
    EnterGrows(g, 3, k);
    EnterFills(g, 3, k);
    var g1 := EnterBlocks(g, 3, k);
    EmitBranchTidy(sc, g1, e, k + 1, k + 2, p);
    EmitBranchGrows(g, sc, g1, e, k + 1, k + 2);
    WhileBodyTidy(sc, g, EmitBranch(sc, g1, e, k + 1, k + 2).value, b, promised, p);
  }

  lemma {:induction false} WhileBodyTidy(sc: Scope, g: State, g2: State, b: Stmts, promised: set<nat>, p: set<nat>)
    requires Grown(g, g2) && g2.terminated && |g2.blocks| == |g.blocks| + 3 && g2.current == |g.blocks| && Tidy(g2, p)
    requires g2.blocks[|g.blocks| + 1] == g2.blocks[|g.blocks| + 2] == [] && Filled(g2.blocks[g.current])
    requires LoopsPromised(g, promised) && LowerWhileBody(sc, g, g2, b).Ok?
    requires p == promised + {|g.blocks|, |g.blocks| + 1, |g.blocks| + 2}
    ensures Tidy(LowerWhileBody(sc, g, g2, b).value, promised) && LeftFilled(g, LowerWhileBody(sc, g, g2, b).value)
    decreases b, 3
  {
    hide LowerStmts, BlockTidy, Tidy, FallTo;
    var k := |g.blocks|;
    var gb := InLoop(g2, k + 2, k);
    TargetsTidy(g2, gb, p);
    var g3 := ArmTidy(sc, g, gb, k + 1, b, k, p);
    var g4 := FallTo(g3, k);
    TargetsTidy(g4, Restored(g4, g), p);
    SwitchTidy(Restored(g4, g), k + 2, p);
    PromiseTidy(SwitchTo(Restored(g4, g), k + 2), p, promised);
  }

  lemma {:induction false} ForTidy(sc: Scope, g: State, first: Stmts, e: Expr, post: Expr, b: Stmts, promised: set<nat>)
    requires Tidy(g, promised) && LoopsPromised(g, promised) && !g.terminated && LowerStmt(sc, g, For(first, e, post, b)).Ok?
    ensures Tidy(LowerStmt(sc, g, For(first, e, post, b)).value, promised) && LeftFilled(g, LowerStmt(sc, g, For(first, e, post, b)).value)
    decreases For(first, e, post, b), 4
  {
    hide LowerForLoop, LowerStmts, Tidy;
    var g0 := LowerStmts(sc, g, first).value;
    TidyValid(g, promised);
    StmtsTidy(sc, g, first, promised);
    LowerStmtsGrows(sc, g, first);
    ForLoopTidy(sc, g0, e, post, b, promised);
    ForGrows(sc, g0, e, post, b);
  }

  lemma {:induction false} ForLoopTidy(sc: Scope, g: State, e: Expr, post: Expr, b: Stmts, promised: set<nat>)
    requires Tidy(g, promised) && LoopsPromised(g, promised) && LowerForLoop(sc, g, e, post, b).Ok?
    ensures Tidy(LowerForLoop(sc, g, e, post, b).value, promised) && StartFilled(g, LowerForLoop(sc, g, e, post, b).value)
    decreases b, 4
  {
    hide LowerForBody, LowerForTest, EnterBlocks, Tidy;
    var k := |g.blocks|;
    var p := promised + {k, k + 1, k + 2, k + 3};
    TidyValid(g, promised);
    PromiseTidy(g, promised, p);
    EnterTidy(g, 4, k, p);
    EnterGrows(g, 4, k);
    EnterFills(g, 4, k);
    var g1 := EnterBlocks(g, 4, k);
    ForTestTidy(sc, g1, e, k + 2, k + 3, p);
    ForTestGrows(g, sc, g1, e, k + 2, k + 3);
    ForBodyTidy(sc, g, LowerForTest(sc, g1, e, k + 2, k + 3).value, post, b, promised, p);
  }

  lemma {:induction false} ForTestTidy(sc: Scope, g: State, e: Expr, t: nat, f: nat, promised: set<nat>)
    requires Tidy(g, promised) && !g.terminated && LowerForTest(sc, g, e, t, f).Ok?
    requires t < |g.blocks| && f < |g.blocks| && t in promised && f in promised
    ensures Tidy(LowerForTest(sc, g, e, t, f).value, promised)
  {
    if e.NullExpr? {
      EmitTidy(g, [Iconst(g.next, I32, 1)], g.next + 1, promised);
      TerminateTidy(Emit(g, [Iconst(g.next, I32, 1)], g.next + 1), Brif(g.next, t, f), promised);
    } else {
      EmitBranchTidy(sc, g, e, t, f, promised);
    }
  }

  lemma {:induction false} PostTidy(sc: Scope, g: State, post: Expr, head: nat, promised: set<nat>)
    requires Tidy(g, promised) && !g.terminated && LowerForPost(sc, g, post, head).Ok? && head < |g.blocks| && head in promised
    ensures Tidy(LowerForPost(sc, g, post, head).value, promised)
  {
    if post.NullExpr? {
      TerminateTidy(g, Jump(head), promised);
    } else {
      EmitExprTidy(sc, g, post, promised);
      ExprEmitted(sc, g, post, promised);
      TerminateTidy(EmitExpr(sc, g, post).value.0, Jump(head), promised);
    }
  }

  lemma {:induction false} ForBodyTidy(sc: Scope, g: State, g2: State, post: Expr, b: Stmts, promised: set<nat>, p: set<nat>)
    requires Grown(g, g2) && g2.terminated && |g2.blocks| == |g.blocks| + 4 && g2.current == |g.blocks| && Tidy(g2, p)
    requires g2.blocks[|g.blocks| + 1] == g2.blocks[|g.blocks| + 2] == g2.blocks[|g.blocks| + 3] == [] && Filled(g2.blocks[g.current])
    requires LoopsPromised(g, promised) && LowerForBody(sc, g, g2, post, b).Ok?
    requires p == promised + {|g.blocks|, |g.blocks| + 1, |g.blocks| + 2, |g.blocks| + 3}
    ensures Tidy(LowerForBody(sc, g, g2, post, b).value, promised) && StartFilled(g, LowerForBody(sc, g, g2, post, b).value)
    decreases b, 3
  {
    hide LowerStmts, BlockTidy, Tidy, FallTo, LowerForStep;
    var k := |g.blocks|;
    var gb := InLoop(g2, k + 3, k + 1);
    TargetsTidy(g2, gb, p);
    var g3 := ArmTidy(sc, g, gb, k + 2, b, k + 1, p);
    var g4 := FallTo(g3, k + 1);
    TargetsTidy(g4, Restored(g4, g), p);
    ForStepTidy(sc, g, Restored(g4, g), post, promised, p);
  }

  lemma {:induction false} ForStepTidy(sc: Scope, g0: State, g: State, post: Expr, promised: set<nat>, p: set<nat>)
    requires Grown(g0, g) && g.terminated && |g0.blocks| + 4 <= |g.blocks| && Tidy(g, p)
    requires g.blocks[|g0.blocks| + 1] == g.blocks[|g0.blocks| + 3] == []
    requires Filled(g.blocks[g0.current]) && Filled(g.blocks[|g0.blocks|]) && Filled(g.blocks[|g0.blocks| + 2])
    requires LowerForStep(sc, g, |g0.blocks|, post).Ok?
    requires p == promised + {|g0.blocks|, |g0.blocks| + 1, |g0.blocks| + 2, |g0.blocks| + 3}
    ensures var g' := LowerForStep(sc, g, |g0.blocks|, post).value; Tidy(g', promised) && StartFilled(g0, g')
  {
    hide LowerForPost, BlockTidy, Tidy;
    var k := |g0.blocks|;
    SwitchTidy(g, k + 1, p);
    SwitchGrows(g0, g, k + 1);
    var gs := SwitchTo(g, k + 1);
    PostTidy(sc, gs, post, k, p);
    ForPostGrows(g0, sc, gs, post, k);
    var g' := LowerForPost(sc, gs, post, k).value;
    SwitchTidy(g', k + 3, p);
    PromiseTidy(SwitchTo(g', k + 3), p, promised);
  }

  lemma {:induction false} DoTidy(sc: Scope, g: State, b: Stmts, e: Expr, promised: set<nat>)
    requires Tidy(g, promised) && LoopsPromised(g, promised) && !g.terminated && LowerDo(sc, g, b, e).Ok?
    ensures Tidy(LowerDo(sc, g, b, e).value, promised) && LeftFilled(g, LowerDo(sc, g, b, e).value)
    decreases b, 4
  {
    hide LowerDoBody, EnterBlocks, Tidy;
    var k := |g.blocks|;
    var p := promised + {k, k + 1, k + 2};
    TidyValid(g, promised);
    PromiseTidy(g, promised, p);
    EnterTidy(g, 3, k, p);
    EnterGrows(g, 3, k);
    EnterFills(g, 3, k);
    DoBodyTidy(sc, g, EnterBlocks(g, 3, k), b, e, promised, p);
  }

  lemma {:induction false} DoBodyTidy(sc: Scope, g: State, g1: State, b: Stmts, e: Expr, promised: set<nat>, p: set<nat>)
    requires Grown(g, g1) && !g1.terminated && |g1.blocks| == |g.blocks| + 3 && g1.current == |g.blocks| && Tidy(g1, p)
    requires g1.blocks[|g.blocks| + 1] == g1.blocks[|g.blocks| + 2] == [] && Filled(g1.blocks[g.current])
    requires LoopsPromised(g, promised) && LowerDoBody(sc, g, g1, b, e).Ok?
    requires p == promised + {|g.blocks|, |g.blocks| + 1, |g.blocks| + 2}
    ensures Tidy(LowerDoBody(sc, g, g1, b, e).value, promised) && LeftFilled(g, LowerDoBody(sc, g, g1, b, e).value)
    decreases b, 3
  {
    hide LowerStmts, BlockTidy, Tidy, FallTo, LowerDoTest;
    var k := |g.blocks|;
    var gb := InLoop(g1, k + 2, k + 1);
    TargetsTidy(g1, gb, p);
    StmtsTidy(sc, gb, b, p);
    LowerStmtsGrows(sc, gb, b);
    var g2 := LowerStmts(sc, gb, b).value;
    GrownTransitive(g, gb, g2);
    FallToTidy(g2, k + 1, p);
    FallToGrows(g, g2, k + 1);
    FallToGrows(gb, g2, k + 1);
    var g4 := FallTo(g2, k + 1);
    TargetsTidy(g4, Restored(g4, g), p);
    DoTestTidy(sc, g, Restored(g4, g), e, promised, p);
  }

  lemma {:induction false} DoTestTidy(sc: Scope, g0: State, g: State, e: Expr, promised: set<nat>, p: set<nat>)
    requires Grown(g0, g) && g.terminated && |g0.blocks| + 3 <= |g.blocks| && Tidy(g, p)
    requires g.blocks[|g0.blocks| + 1] == g.blocks[|g0.blocks| + 2] == []
    requires Filled(g.blocks[g0.current]) && Filled(g.blocks[|g0.blocks|])
    requires LowerDoTest(sc, g, |g0.blocks|, e).Ok?
    requires p == promised + {|g0.blocks|, |g0.blocks| + 1, |g0.blocks| + 2}
    ensures var g' := LowerDoTest(sc, g, |g0.blocks|, e).value; Tidy(g', promised) && LeftFilled(g0, g')
  {
    hide EmitBranch, BlockTidy, Tidy;
    var k := |g0.blocks|;
    SwitchTidy(g, k + 1, p);
    SwitchGrows(g0, g, k + 1);
    var gs := SwitchTo(g, k + 1);
    EmitBranchTidy(sc, gs, e, k, k + 2, p);
    EmitBranchGrows(g0, sc, gs, e, k, k + 2);
    var g' := EmitBranch(sc, gs, e, k, k + 2).value;
    SwitchTidy(g', k + 2, p);
    PromiseTidy(SwitchTo(g', k + 2), p, promised);
  }

  // ----- finished functions -----

  /** A finished graph: each block is empty or ends in its only terminator, and the targets of
      every terminator are filled blocks; so the empty blocks are never entered. */
  ghost predicate WellFormed(g: Blocks) {
    && |g| > 0 && Filled(g[0])
    && (forall i :: 0 <= i < |g| ==> OneTerminator(g[i]) && (Filled(g[i]) || g[i] == []))
    && (forall i :: 0 <= i < |g| ==> TargetsFilled(g, g[i]))
  }

  ghost predicate TargetsFilled(g: Blocks, b: seq<Inst>) {
    forall t :: t in BlockTargets(b) ==> t < |g| && Filled(g[t])
  }

  lemma {:induction false} EntryTidy(te: TypeEnv, f: Func)
    requires Valid(EntryState(te, f)) && !EntryState(te, f).terminated && StraightLine(EntryState(te, f).blocks[0])
    ensures Tidy(EntryState(te, f), {}) && LoopsPromised(EntryState(te, f), {})
  {
  }

  /** Every emitted function has a well-formed graph. */
  lemma {:induction false} FunctionWellFormed(te: TypeEnv, f: Func, fn: IrFunction)
    requires TypedFunc(te, f) && Closed(te, f) && EmitFunction(te.layouts, te.data, f) == Ok(fn)
    ensures WellFormed(fn.blocks)
  {
    hide LowerStmts, EmitFunction, Tidy;
    EmittedParts(te, f, fn);
    EntryTidy(te, f);
    var g, g' := EntryState(te, f), BodyState(te, f).value;
    var sc := Scope(te.layouts, Table(te, f).value.table, te.data);
    StmtsTidy(sc, g, f.body, {});
    LowerStmtsGrows(sc, g, f.body);
    CompletedTidy(g');
    TidyWellFormed(Completed(g'));
  }

  lemma {:induction false} CompletedTidy(g: State)
    requires Tidy(g, {}) && LeftFilled(State([[]], 0, 0, None, None, false), g)
    ensures Tidy(Completed(g), {}) && Completed(g).terminated && |Completed(g).blocks| > 0 && Filled(Completed(g).blocks[0])
  {
    if !g.terminated {
      var one := [Iconst(g.next, I32, 0)];
      EmitTidy(g, one, g.next + 1, {});
      TerminateTidy(Emit(g, one, g.next + 1), ReturnInst(g.next), {});
    }
  }

  lemma {:induction false} TidyWellFormed(g: State)
    requires Tidy(g, {}) && g.terminated && |g.blocks| > 0 && Filled(g.blocks[0])
    ensures WellFormed(g.blocks)
  {
    forall i | 0 <= i < |g.blocks|
      ensures OneTerminator(g.blocks[i]) && (Filled(g.blocks[i]) || g.blocks[i] == [])
    {
      assert BlockTidy(g, i, {});
    }
    forall i | 0 <= i < |g.blocks|
      ensures TargetsFilled(g.blocks, g.blocks[i])
    {
      assert BlockTidy(g, i, {});
      forall t | t in BlockTargets(g.blocks[i])
        ensures t < |g.blocks| && Filled(g.blocks[t])
      {
        assert Kept(g, t, {});
      }
    }
  }
}
