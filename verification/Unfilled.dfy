/** Which blocks of a finished graph stay empty: the else block of every `if` without an else
    branch, the merge block of every `if` both of whose arms end, and no others. */
module Unfilled {
  import opened Results
  import opened Words
  import opened CTypes
  import opened Ast
  import opened Clif
  import opened SlotTable
  import opened Lowering
  import opened Growth
  import opened WellTyped
  import opened FuncCorrect
  import opened DeadCode

  /** The number of blocks that lowering a chain creates; what follows an ending statement is
      not lowered. */
  function Made(s: Stmts): nat {
    match s
    case Nil => 0
    case Cons(h, next) => MadeBy(h) + if Ends(h) then 0 else Made(next)
  }

  function MadeBy(s: Stmt): nat {
    match s
    case Block(b) => Made(b)
    case If(_, t, f) => 3 + Made(t) + Made(f)
    case While(_, b) => 3 + Made(b)
    case For(first, _, _, b) => Made(first) + 4 + Made(b)
    case Do(b, _) => 3 + Made(b)
    case _ => 0
  }

  /** The blocks that such a chain leaves empty, if the first block it creates has number `k`: of
      the blocks `k`, `k + 1` and `k + 2` of an `if`, the second when there is no else branch, and
      the third when no arm falls into it. */
  function Spare(k: nat, s: Stmts): set<nat>
    decreases s
  {
    match s
    case Nil => {}
    case Cons(h, next) => SpareIn(k, h) + if Ends(h) then {} else Spare(k + MadeBy(h), next)
  }

  function SpareIn(k: nat, s: Stmt): set<nat>
    decreases s
  {
    match s
    case Block(b) => Spare(k, b)
    case If(_, t, f) =>
      if f.Nil? then Spare(k + 3, t) + {k + 1}
      else Spare(k + 3, t) + Spare(k + 3 + Made(t), f) + MergeSpare(k, ChainEnds(t) && ChainEnds(f))
    case While(_, b) => Spare(k + 3, b)
    case For(first, _, _, b) => Spare(k, first) + Spare(k + Made(first) + 4, b)
    case Do(b, _) => Spare(k + 3, b)
    case _ => {}
  }

  /** The merge block of an `if` at `k`, unless an arm falls into it. */
  function MergeSpare(k: nat, bothEnd: bool): set<nat> {
    if bothEnd then {k + 2} else {}
  }

  ghost predicate Between(k: nat, n: nat, blocks: set<nat>) {
    forall i :: i in blocks ==> k <= i < n
  }

  /** They are among the blocks that the chain creates. */
  lemma {:induction false} SpareBetween(k: nat, s: Stmts)
    ensures Between(k, k + Made(s), Spare(k, s))
    decreases s
  {
    if s.Cons? {
      SpareInBetween(k, s.head);
      SpareBetween(k + MadeBy(s.head), s.next);
    }
  }

  lemma {:induction false} SpareInBetween(k: nat, s: Stmt)
    ensures Between(k, k + MadeBy(s), SpareIn(k, s))
    decreases s
  {
    match s
    case Block(b) => SpareBetween(k, b);
    case If(_, t, f) =>
      SpareBetween(k + 3, t);
      SpareBetween(k + 3 + Made(t), f);
    case While(_, b) => SpareBetween(k + 3, b);
    case For(first, _, _, b) =>
      SpareBetween(k, first);
      SpareBetween(k + Made(first) + 4, b);
    case Do(b, _) => SpareBetween(k + 3, b);
    case _ =>
  }

  // ----- construction -----

  /** The blocks that are empty and not the current one. */
  ghost function Vacant(g: State): set<nat> {
    set i: nat | i < |g.blocks| && g.blocks[i] == [] && i != g.current
  }

  /** `g'` has `made` more blocks than `g`, and the vacant blocks are `vacant`. */
  ghost predicate Leaves(g: State, g': State, made: nat, vacant: set<nat>) {
    |g'.blocks| == |g.blocks| + made && Vacant(g') == vacant
  }

  lemma {:induction false} VacantBelow(g: State)
    ensures Between(0, |g.blocks|, Vacant(g))
  {
  }

  lemma {:induction false} EmitVacant(g: State, insts: seq<Inst>, next: nat)
    ensures Leaves(g, Emit(g, insts, next), 0, Vacant(g))
  {
  }

  lemma {:induction false} TerminateVacant(g: State, i: Inst)
    ensures Leaves(g, Terminate(g, i), 0, Vacant(g))
  {
  }

  lemma {:induction false} FallToVacant(g: State, target: nat)
    ensures Leaves(g, FallTo(g, target), 0, Vacant(g))
  {
    if !g.terminated { TerminateVacant(g, Jump(target)); }
  }

  predicate From(k: nat, i: nat) {
    k <= i
  }

  ghost function Numbers(k: nat, n: nat): set<nat> {
    set i: nat | i < k + n && From(k, i)
  }

  lemma {:induction false} CreateVacant(g: State, n: nat)
    requires g.current < |g.blocks|
    ensures Leaves(g, CreateBlocks(g, n), n, Vacant(g) + Numbers(|g.blocks|, n))
  {
    var g' := CreateBlocks(g, n);
    assert Vacant(g') == Vacant(g) + Numbers(|g.blocks|, n);
  }

  /** Leaving a filled block. */
  lemma {:induction false} SwitchVacant(g: State, k: nat)
    requires Valid(g) && g.terminated
    ensures Leaves(g, SwitchTo(g, k), 0, Vacant(g) - {k})
  {
    assert Vacant(SwitchTo(g, k)) == Vacant(g) - {k};
  }

  /** Loop targets do not matter. */
  lemma {:induction false} SameVacant(g: State, g': State)
    requires g'.blocks == g.blocks && g'.current == g.current
    ensures Leaves(g, g', 0, Vacant(g))
  {
  }

  lemma {:induction false} BranchVacant(sc: Scope, g: State, e: Expr, t: nat, f: nat)
    requires EmitBranch(sc, g, e, t, f).Ok?
    ensures Leaves(g, EmitBranch(sc, g, e, t, f).value, 0, Vacant(g))
  {
    hide Vacant;
    var c := ExprCode(sc, e, g.next).value;
    EmitVacant(g, c.insts, c.next);
    TerminateVacant(Emit(g, c.insts, c.next), Brif(c.val, t, f));
  }

  lemma {:induction false} EnterVacant(g: State, n: nat, target: nat)
    requires Valid(g) && |g.blocks| <= target < |g.blocks| + n
    ensures Leaves(g, EnterBlocks(g, n, target), n, Vacant(g) + (Numbers(|g.blocks|, n) - {target}))
  {
    hide Vacant;
    VacantBelow(g);
    CreateVacant(g, n);
    FallToVacant(CreateBlocks(g, n), target);
    Reflexive(g);
    CreateGrows(g, g, n);
    FallToGrows(g, CreateBlocks(g, n), target);
    SwitchVacant(FallTo(CreateBlocks(g, n), target), target);
    assert Vacant(g) + Numbers(|g.blocks|, n) - {target} == Vacant(g) + (Numbers(|g.blocks|, n) - {target});
  }

  /** Lowering a chain leaves exactly its spare blocks behind. */
  lemma {:induction false} StmtsVacant(sc: Scope, g: State, s: Stmts)
    requires Valid(g) && !g.terminated && LowerStmts(sc, g, s).Ok?
    ensures Leaves(g, LowerStmts(sc, g, s).value, Made(s), Vacant(g) + Spare(|g.blocks|, s))
    decreases s, 0
  {
    hide Vacant, LowerStmt;
    if s.Cons? {
      StmtVacant(sc, g, s.head);
      TerminatedExactlyStmt(sc, g, s.head);
      LowerStmtGrows(sc, g, s.head);
      var g1 := LowerStmt(sc, g, s.head).value;
      if !g1.terminated {
        StmtsVacant(sc, g1, s.next);
      }
    }
  }

  lemma {:induction false} StmtVacant(sc: Scope, g: State, s: Stmt)
    requires Valid(g) && !g.terminated && LowerStmt(sc, g, s).Ok?
    ensures Leaves(g, LowerStmt(sc, g, s).value, MadeBy(s), Vacant(g) + SpareIn(|g.blocks|, s))
    decreases s, 5
  {
    hide Vacant, ExprCode, LowerIf, LowerWhile, LowerForLoop, LowerDo, LowerStmts, NarrowToStore, Valid, Made, Spare;
    assert Vacant(g) + {} == Vacant(g);
    match s
    case Return(e) =>
      var c := ExprCode(sc, e, g.next).value;
      EmitVacant(g, c.insts, c.next);
      TerminateVacant(Emit(g, c.insts, c.next), ReturnInst(c.val));
    case Eval(e) =>
      var c := ExprCode(sc, e, g.next).value;
      EmitVacant(g, c.insts, c.next);
    case Decl(x, t, e) =>
      if e.NullExpr? { SameVacant(g, g); } else { InitVacant(sc, g, x, t, e); }
    case Block(b) => StmtsVacant(sc, g, b);
    case If(e, t, f) => IfVacant(sc, g, e, t, f);
    case While(e, b) => WhileVacant(sc, g, e, b);
    case For(first, e, post, b) =>
      StmtsVacant(sc, g, first);
      LowerStmtsGrows(sc, g, first);
      ForVacant(sc, LowerStmts(sc, g, first).value, e, post, b);
    case Do(b, e) => DoVacant(sc, g, b, e);
    case Break => TerminateVacant(g, Jump(g.loopBreak.value));
    case Continue => TerminateVacant(g, Jump(g.loopContinue.value));
  }

  lemma {:induction false} InitVacant(sc: Scope, g: State, x: CString, t: CType, e: Expr)
    requires LowerInit(sc, g, x, t, e).Ok?
    ensures Leaves(g, LowerInit(sc, g, x, t, e).value, 0, Vacant(g))
  {
    hide Vacant;
    var c := ExprCode(sc, e, g.next).value;
    var k := NarrowToStore(sc.layouts, c.val, t, c.next).value;
    EmitVacant(g, c.insts + k.insts + [StackAddr(k.next, Find(sc.table, x).value.slot), Store(k.next, k.val)], k.next + 1);
  }

  /** One arm, from a filled block into the vacant block `k`, and on to `target`. */
  lemma {:induction false} ArmVacant(sc: Scope, g0: State, g: State, k: nat, s: Stmts, target: nat) returns (g': State)
    requires Grown(g0, g) && g.terminated && |g0.blocks| <= k < |g.blocks| && g.blocks[k] == []
    requires LowerStmts(sc, SwitchTo(g, k), s).Ok?
    ensures g' == FallTo(LowerStmts(sc, SwitchTo(g, k), s).value, target)
    ensures Leaves(g, g', Made(s), Vacant(g) - {k} + Spare(|g.blocks|, s))
    ensures Grown(g0, g') && g'.terminated
    ensures LowerStmts(sc, SwitchTo(g, k), s).value.terminated <==> ChainEnds(s)
    decreases s, 1
  {
    hide Vacant, LowerStmts;
    SwitchGrows(g0, g, k);
    SwitchVacant(g, k);
    StmtsVacant(sc, SwitchTo(g, k), s);
    TerminatedExactly(sc, SwitchTo(g, k), s);
    FallToVacant(LowerStmts(sc, SwitchTo(g, k), s).value, target);
    var g3 := ArmGrows(sc, g0, g, k, s, target);
    g' := FallTo(g3, target);
  }

  lemma {:induction false} IfTestVacant(sc: Scope, g: State, e: Expr, hasElse: bool)
    requires Valid(g) && LowerIfTest(sc, g, e, hasElse).Ok?
    ensures Leaves(g, LowerIfTest(sc, g, e, hasElse).value, 3, Vacant(g) + Numbers(|g.blocks|, 3))
  {
    hide Vacant, ExprCode;
    var (g1, v) := EmitExpr(sc, g, e).value;
    EmitVacant(g, ExprCode(sc, e, g.next).value.insts, ExprCode(sc, e, g.next).value.next);
    CreateVacant(g1, 3);
    TerminateVacant(CreateBlocks(g1, 3), Brif(v, |g.blocks|, if hasElse then |g.blocks| + 1 else |g.blocks| + 2));
  }

  lemma {:induction false} IfVacant(sc: Scope, g: State, e: Expr, t: Stmts, f: Stmts)
    requires Valid(g) && !g.terminated && LowerIf(sc, g, e, t, f).Ok?
    ensures Leaves(g, LowerIf(sc, g, e, t, f).value, MadeBy(If(e, t, f)), Vacant(g) + SpareIn(|g.blocks|, If(e, t, f)))
    decreases If(e, t, f), 4
  {
    hide Vacant, LowerIfTest, LowerArms, Made, Spare;
    IfTestVacant(sc, g, e, f.Cons?);
    IfTestGrows(sc, g, e, f.Cons?);
    VacantBelow(g);
    ArmsVacant(sc, g, LowerIfTest(sc, g, e, f.Cons?).value, e, t, f, Vacant(g));
  }

  lemma {:induction false} ArmsVacant(sc: Scope, g0: State, g: State, e: Expr, t: Stmts, f: Stmts, old0: set<nat>)
    requires Grown(g0, g) && g.terminated && |g.blocks| == |g0.blocks| + 3
    requires g.blocks[|g0.blocks|] == g.blocks[|g0.blocks| + 1] == g.blocks[|g0.blocks| + 2] == []
    requires Between(0, |g0.blocks|, old0) && Vacant(g) == old0 + Numbers(|g0.blocks|, 3)
    requires LowerArms(sc, |g0.blocks|, g, e, t, f).Ok?
    ensures Leaves(g0, LowerArms(sc, |g0.blocks|, g, e, t, f).value, MadeBy(If(e, t, f)), old0 + SpareIn(|g0.blocks|, If(e, t, f)))
    decreases If(e, t, f), 3
  {
    hide Vacant, LowerStmts, LowerElse, FallTo, Made, Spare;
    var k := |g0.blocks|;
    var g4 := ArmVacant(sc, g0, g, k, t, k + 2);
    SpareBetween(k + 3, t);
    assert Vacant(g4) == old0 + {k + 1, k + 2} + Spare(k + 3, t);
    if f.Nil? {
      NothingMade();
      SwitchVacant(g4, k + 2);
      assert Vacant(g4) - {k + 2} == old0 + (Spare(k + 3, t) + {k + 1});
    } else {
      var g3 := ArmGrows(sc, g0, g, k, t, k + 2);
      ElseVacant(sc, g0, k, g3, f, old0, Spare(k + 3, t));
      assert old0 + Spare(k + 3, t) + ElseSpare(k, |g4.blocks|, ChainEnds(t), f) == old0 + SpareIn(k, If(e, t, f));
    }
  }

  lemma {:induction false} NothingMade()
    ensures Made(Nil) == 0
  {
  }

  ghost function ElseSpare(k: nat, next: nat, thenEnds: bool, f: Stmts): set<nat> {
    Spare(next, f) + MergeSpare(k, thenEnds && ChainEnds(f))
  }

  lemma {:induction false} ElseVacant(sc: Scope, g0: State, k: nat, g: State, f: Stmts, old0: set<nat>, arm: set<nat>)
    requires var g4 := FallTo(g, k + 2);
             && Grown(g0, g4) && g4.terminated && |g0.blocks| == k && k + 3 <= |g4.blocks|
             && g4.blocks[k + 1] == g4.blocks[k + 2] == []
             && Between(0, k, old0) && Between(k + 3, |g4.blocks|, arm) && Vacant(g4) == old0 + {k + 1, k + 2} + arm
    requires LowerElse(sc, k, g, f).Ok?
    ensures var g4 := FallTo(g, k + 2);
            Leaves(g4, LowerElse(sc, k, g, f).value, Made(f), old0 + arm + ElseSpare(k, |g4.blocks|, g.terminated, f))
    decreases f, 2
  {
    hide Vacant, LowerStmts, FallTo, Made, Spare;
    var g4 := FallTo(g, k + 2);
    var g6 := ArmVacant(sc, g0, g4, k + 1, f, k + 2);
    SpareBetween(|g4.blocks|, f);
    assert Vacant(g6) == old0 + {k + 2} + arm + Spare(|g4.blocks|, f);
    if !(g.terminated && ChainEnds(f)) {
      SwitchVacant(g6, k + 2);
      assert Vacant(g6) - {k + 2} == old0 + arm + Spare(|g4.blocks|, f);
    }
  }

  lemma {:induction false} WhileVacant(sc: Scope, g: State, e: Expr, b: Stmts)
    requires Valid(g) && LowerWhile(sc, g, e, b).Ok?
    ensures Leaves(g, LowerWhile(sc, g, e, b).value, 3 + Made(b), Vacant(g) + Spare(|g.blocks| + 3, b))
    decreases b, 4
  {
    hide Vacant, EmitBranch, EnterBlocks, LowerWhileBody, Made, Spare;
    var k := |g.blocks|;
    VacantBelow(g);
    EnterVacant(g, 3, k);
    EnterGrows(g, 3, k);
    var g1 := EnterBlocks(g, 3, k);
    BranchVacant(sc, g1, e, k + 1, k + 2);
    EmitBranchGrows(g, sc, g1, e, k + 1, k + 2);
    assert Numbers(k, 3) - {k} == {k + 1, k + 2};
    WhileBodyVacant(sc, g, EmitBranch(sc, g1, e, k + 1, k + 2).value, b, Vacant(g));
  }

  lemma {:induction false} WhileBodyVacant(sc: Scope, g: State, g2: State, b: Stmts, old0: set<nat>)
    requires Grown(g, g2) && g2.terminated && |g2.blocks| == |g.blocks| + 3
    requires g2.blocks[|g.blocks| + 1] == g2.blocks[|g.blocks| + 2] == [] && LowerWhileBody(sc, g, g2, b).Ok?
    requires Between(0, |g.blocks|, old0) && Vacant(g2) == old0 + {|g.blocks| + 1, |g.blocks| + 2}
    ensures Leaves(g, LowerWhileBody(sc, g, g2, b).value, 3 + Made(b), old0 + Spare(|g.blocks| + 3, b))
    decreases b, 3
  {
    hide Vacant, LowerStmts, FallTo, Made, Spare;
    var k := |g.blocks|;
    var gb := InLoop(g2, k + 2, k);
    SameVacant(g2, gb);
    var g4 := ArmVacant(sc, g, gb, k + 1, b, k);
    SpareBetween(k + 3, b);
    SameVacant(g4, Restored(g4, g));
    SwitchVacant(Restored(g4, g), k + 2);
    assert old0 + {k + 1, k + 2} - {k + 1} + Spare(k + 3, b) - {k + 2} == old0 + Spare(k + 3, b);
  }

  lemma {:induction false} ForVacant(sc: Scope, g: State, e: Expr, post: Expr, b: Stmts)
    requires Valid(g) && LowerForLoop(sc, g, e, post, b).Ok?
    ensures Leaves(g, LowerForLoop(sc, g, e, post, b).value, 4 + Made(b), Vacant(g) + Spare(|g.blocks| + 4, b))
    decreases b, 4
  {
    hide Vacant, LowerForTest, EnterBlocks, LowerForBody, Made, Spare;
    var k := |g.blocks|;
    VacantBelow(g);
    EnterVacant(g, 4, k);
    EnterGrows(g, 4, k);
    var g1 := EnterBlocks(g, 4, k);
    ForTestVacant(sc, g1, e, k + 2, k + 3);
    ForTestGrows(g, sc, g1, e, k + 2, k + 3);
    assert Numbers(k, 4) - {k} == {k + 1, k + 2, k + 3};
    ForBodyVacant(sc, g, LowerForTest(sc, g1, e, k + 2, k + 3).value, post, b, Vacant(g));
  }

  lemma {:induction false} ForTestVacant(sc: Scope, g: State, e: Expr, t: nat, f: nat)
    requires LowerForTest(sc, g, e, t, f).Ok?
    ensures Leaves(g, LowerForTest(sc, g, e, t, f).value, 0, Vacant(g))
  {
    hide Vacant;
    if e.NullExpr? {
      EmitVacant(g, [Iconst(g.next, I32, 1)], g.next + 1);
      TerminateVacant(Emit(g, [Iconst(g.next, I32, 1)], g.next + 1), Brif(g.next, t, f));
    } else {
      BranchVacant(sc, g, e, t, f);
    }
  }

  lemma {:induction false} PostVacant(sc: Scope, g: State, post: Expr, head: nat)
    requires LowerForPost(sc, g, post, head).Ok?
    ensures Leaves(g, LowerForPost(sc, g, post, head).value, 0, Vacant(g))
  {
    hide Vacant;
    if post.NullExpr? {
      TerminateVacant(g, Jump(head));
    } else {
      var c := ExprCode(sc, post, g.next).value;
      EmitVacant(g, c.insts, c.next);
      TerminateVacant(Emit(g, c.insts, c.next), Jump(head));
    }
  }

  lemma {:induction false} ForBodyVacant(sc: Scope, g: State, g2: State, post: Expr, b: Stmts, old0: set<nat>)
    requires Grown(g, g2) && g2.terminated && |g2.blocks| == |g.blocks| + 4
    requires g2.blocks[|g.blocks| + 1] == g2.blocks[|g.blocks| + 2] == g2.blocks[|g.blocks| + 3] == []
    requires Between(0, |g.blocks|, old0) && Vacant(g2) == old0 + {|g.blocks| + 1, |g.blocks| + 2, |g.blocks| + 3}
    requires LowerForBody(sc, g, g2, post, b).Ok?
    ensures Leaves(g, LowerForBody(sc, g, g2, post, b).value, 4 + Made(b), old0 + Spare(|g.blocks| + 4, b))
    decreases b, 3
  {
    hide Vacant, LowerStmts, FallTo, LowerForStep, Made, Spare;
    var k := |g.blocks|;
    var gb := InLoop(g2, k + 3, k + 1);
    SameVacant(g2, gb);
    var g4 := ArmVacant(sc, g, gb, k + 2, b, k + 1);
    SpareBetween(k + 4, b);
    SameVacant(g4, Restored(g4, g));
    ForStepVacant(sc, g, Restored(g4, g), k, post);
    assert old0 + {k + 1, k + 2, k + 3} - {k + 2} + Spare(k + 4, b) - {k + 1} - {k + 3} == old0 + Spare(k + 4, b);
  }

  lemma {:induction false} ForStepVacant(sc: Scope, g0: State, g: State, k: nat, post: Expr)
    requires Grown(g0, g) && g.terminated && |g0.blocks| <= k && k + 3 < |g.blocks| && k + 1 in Vacant(g)
    requires LowerForStep(sc, g, k, post).Ok?
    ensures Leaves(g, LowerForStep(sc, g, k, post).value, 0, Vacant(g) - {k + 1} - {k + 3})
  {
    hide LowerForPost;
    SwitchVacant(g, k + 1);
    SwitchGrows(g0, g, k + 1);
    PostVacant(sc, SwitchTo(g, k + 1), post, k);
    ForPostGrows(g0, sc, SwitchTo(g, k + 1), post, k);
    SwitchVacant(LowerForPost(sc, SwitchTo(g, k + 1), post, k).value, k + 3);
  }

  lemma {:induction false} DoVacant(sc: Scope, g: State, b: Stmts, e: Expr)
    requires Valid(g) && LowerDo(sc, g, b, e).Ok?
    ensures Leaves(g, LowerDo(sc, g, b, e).value, 3 + Made(b), Vacant(g) + Spare(|g.blocks| + 3, b))
    decreases b, 4
  {
    hide Vacant, EnterBlocks, LowerDoBody, Made, Spare;
    var k := |g.blocks|;
    VacantBelow(g);
    EnterVacant(g, 3, k);
    EnterGrows(g, 3, k);
    assert Numbers(k, 3) - {k} == {k + 1, k + 2};
    DoBodyVacant(sc, g, EnterBlocks(g, 3, k), b, e, Vacant(g));
  }

  lemma {:induction false} DoBodyVacant(sc: Scope, g: State, g1: State, b: Stmts, e: Expr, old0: set<nat>)
    requires Grown(g, g1) && !g1.terminated && |g1.blocks| == |g.blocks| + 3
    requires Between(0, |g.blocks|, old0) && Vacant(g1) == old0 + {|g.blocks| + 1, |g.blocks| + 2}
    requires LowerDoBody(sc, g, g1, b, e).Ok?
    ensures Leaves(g, LowerDoBody(sc, g, g1, b, e).value, 3 + Made(b), old0 + Spare(|g.blocks| + 3, b))
    decreases b, 3
  {
    hide Vacant, LowerStmts, FallTo, LowerDoTest, Made, Spare;
    var k := |g.blocks|;
    var gb := InLoop(g1, k + 2, k + 1);
    SameVacant(g1, gb);
    StmtsVacant(sc, gb, b);
    SpareBetween(k + 3, b);
    LowerStmtsGrows(sc, gb, b);
    var g2 := LowerStmts(sc, gb, b).value;
    GrownTransitive(g, gb, g2);
    FallToVacant(g2, k + 1);
    FallToGrows(g, g2, k + 1);
    var g4 := FallTo(g2, k + 1);
    SameVacant(g4, Restored(g4, g));
    DoTestVacant(sc, g, Restored(g4, g), k, e);
    assert old0 + {k + 1, k + 2} + Spare(k + 3, b) - {k + 1} - {k + 2} == old0 + Spare(k + 3, b);
  }

  lemma {:induction false} DoTestVacant(sc: Scope, g0: State, g: State, k: nat, e: Expr)
    requires Grown(g0, g) && g.terminated && |g0.blocks| <= k && k + 2 < |g.blocks| && k + 1 in Vacant(g)
    requires LowerDoTest(sc, g, k, e).Ok?
    ensures Leaves(g, LowerDoTest(sc, g, k, e).value, 0, Vacant(g) - {k + 1} - {k + 2})
  {
    hide EmitBranch;
    SwitchVacant(g, k + 1);
    SwitchGrows(g0, g, k + 1);
    BranchVacant(sc, SwitchTo(g, k + 1), e, k, k + 2);
    EmitBranchGrows(g0, sc, SwitchTo(g, k + 1), e, k, k + 2);
    SwitchVacant(EmitBranch(sc, SwitchTo(g, k + 1), e, k, k + 2).value, k + 2);
  }

  // ----- finished functions -----

  ghost function EmptyOnes(g: Blocks): set<nat> {
    set i: nat | i < |g| && g[i] == []
  }

  /** The empty blocks of a finished function are exactly its spare ones; the entry is block 0. */
  lemma {:induction false} FunctionUnfilled(te: TypeEnv, f: Func, fn: IrFunction)
    requires TypedFunc(te, f) && Closed(te, f) && EmitFunction(te.layouts, te.data, f) == Ok(fn)
    ensures EmptyOnes(fn.blocks) == Spare(1, f.body) && |fn.blocks| == 1 + Made(f.body)
  {
    hide LowerStmts, EmitFunction, Spare, Made;
    EmittedParts(te, f, fn);
    var g, g' := EntryState(te, f), BodyState(te, f).value;
    var sc := Scope(te.layouts, Table(te, f).value.table, te.data);
    StmtsVacant(sc, g, f.body);
    LowerStmtsGrows(sc, g, f.body);
    assert Vacant(g) == {};
    CompletedVacant(g');
  }

  lemma {:induction false} CompletedVacant(g: State)
    requires Valid(g)
    ensures EmptyOnes(Completed(g).blocks) == Vacant(g) && |Completed(g).blocks| == |g.blocks|
  {
    var g' := Completed(g);
    if !g.terminated {
      assert g'.blocks[g.current] == g.blocks[g.current] + [Iconst(g.next, I32, 0), ReturnInst(g.next)];
    }
    assert g'.blocks[g'.current] != [];
    assert EmptyOnes(g'.blocks) == Vacant(g);
  }

  // ----- how many -----

  /** The number of such statements, in code that is lowered at all. */
  function Leftovers(s: Stmts): nat {
    match s
    case Nil => 0
    case Cons(h, next) => LeftoversIn(h) + if Ends(h) then 0 else Leftovers(next)
  }

  function LeftoversIn(s: Stmt): nat {
    match s
    case Block(b) => Leftovers(b)
    case If(_, t, f) => Leftovers(t) + if f.Nil? then 1 else Leftovers(f) + if ChainEnds(t) && ChainEnds(f) then 1 else 0
    case While(_, b) => Leftovers(b)
    case For(first, _, _, b) => Leftovers(first) + Leftovers(b)
    case Do(b, _) => Leftovers(b)
    case _ => 0
  }

  lemma {:induction false} DisjointSize(a: set<nat>, b: set<nat>)
    requires a !! b
    ensures |a + b| == |a| + |b|
  {
  }

  /** Each of these statements leaves one block, and no two leave the same. */
  lemma {:induction false} SpareCount(k: nat, s: Stmts)
    ensures |Spare(k, s)| == Leftovers(s)
    decreases s, 2
  {
    if s.Cons? {
      SpareInCount(k, s.head);
      SpareInBetween(k, s.head);
      if !Ends(s.head) {
        SpareCount(k + MadeBy(s.head), s.next);
        SpareBetween(k + MadeBy(s.head), s.next);
        DisjointSize(SpareIn(k, s.head), Spare(k + MadeBy(s.head), s.next));
      } else {
        DisjointSize(SpareIn(k, s.head), {});
      }
    }
  }

  lemma {:induction false} SpareNoElseCount(k: nat, e: Expr, t: Stmts)
    ensures |SpareIn(k, If(e, t, Nil))| == LeftoversIn(If(e, t, Nil))
    decreases If(e, t, Nil), 0
  {
    hide SpareIn, LeftoversIn, Made, Spare, Leftovers, ChainEnds, Between;
    var j: nat := k + 3;
    SpareCount(j, t);
    SpareBetween(j, t);
    OneBefore(k + 1, j, j + Made(t), Spare(j, t));
    SpareNoElse(k, e, t);
  }

  lemma {:induction false} SpareArmsCount(k: nat, e: Expr, t: Stmts, f: Stmts)
    requires f.Cons?
    ensures |SpareIn(k, If(e, t, f))| == LeftoversIn(If(e, t, f))
    decreases If(e, t, f), 0
  {
    hide SpareIn, LeftoversIn, Made, Spare, Leftovers, ChainEnds, Between, MergeSpare;
    var j: nat, n: nat := k + 3, k + 3 + Made(t);
    SpareCount(j, t);
    SpareBetween(j, t);
    SpareCount(n, f);
    SpareBetween(n, f);
    ArmsSize(k, n, n + Made(f), Spare(j, t), Spare(n, f), ChainEnds(t) && ChainEnds(f));
    SpareArms(k, e, t, f);
  }

  lemma {:induction false} SpareNoElse(k: nat, e: Expr, t: Stmts)
    ensures SpareIn(k, If(e, t, Nil)) == Spare(k + 3, t) + {k + 1} && LeftoversIn(If(e, t, Nil)) == Leftovers(t) + 1
  {
  }

  lemma {:induction false} SpareArms(k: nat, e: Expr, t: Stmts, f: Stmts)
    requires f.Cons?
    ensures SpareIn(k, If(e, t, f)) == Spare(k + 3, t) + Spare(k + 3 + Made(t), f) + MergeSpare(k, ChainEnds(t) && ChainEnds(f))
    ensures LeftoversIn(If(e, t, f)) == Leftovers(t) + Leftovers(f) + if ChainEnds(t) && ChainEnds(f) then 1 else 0
  {
  }

  lemma {:induction false} ArmsSize(k: nat, n: nat, m: nat, a: set<nat>, b: set<nat>, both: bool)
    requires Between(k + 3, n, a) && Between(n, m, b) && k + 3 <= n <= m
    ensures |a + b + MergeSpare(k, both)| == |a| + |b| + if both then 1 else 0
  {
    RangesApart(k + 3, n, m, a, b);
    RangesJoin(k + 3, n, m, a, b);
    OneBefore(k + 2, k + 3, m, a + b);
  }

  lemma {:induction false} RangesApart(k: nat, n: nat, m: nat, a: set<nat>, b: set<nat>)
    requires Between(k, n, a) && Between(n, m, b)
    ensures |a + b| == |a| + |b|
  {
    DisjointSize(a, b);
  }

  lemma {:induction false} RangesJoin(k: nat, n: nat, m: nat, a: set<nat>, b: set<nat>)
    requires Between(k, n, a) && Between(n, m, b) && k <= n <= m
    ensures Between(k, m, a + b)
  {
  }

  lemma {:induction false} OneBefore(x: nat, k: nat, n: nat, a: set<nat>)
    requires x < k && Between(k, n, a)
    ensures |a + {x}| == |a| + 1 && |a + {}| == |a|
  {
    DisjointSize(a, {x});
    assert a + {} == a;
  }

  lemma {:induction false} SpareInCount(k: nat, s: Stmt)
    ensures |SpareIn(k, s)| == LeftoversIn(s)
    decreases s, 1
  {
    hide Made, Spare, Leftovers, ChainEnds;
    match s
    case Block(b) => SpareCount(k, b);
    case If(e, t, f) => if f.Nil? { SpareNoElseCount(k, e, t); } else { SpareArmsCount(k, e, t, f); }
    case While(_, b) => SpareCount(k + 3, b);
    case For(first, _, _, b) =>
      SpareCount(k, first);
      SpareBetween(k, first);
      SpareCount(k + Made(first) + 4, b);
      SpareBetween(k + Made(first) + 4, b);
      DisjointSize(Spare(k, first), Spare(k + Made(first) + 4, b));
    case Do(b, _) => SpareCount(k + 3, b);
    case _ =>
  }
}
