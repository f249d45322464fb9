/** The `terminated` flag: which chains set it, and why the statements that lowering then drops
    could never run. */
module DeadCode {
  import opened ByteMemory
  import opened Ast
  import opened CSemantics
  import opened Lowering

  /** Chains that visibly cannot reach their end. */
  predicate ChainEnds(s: Stmts) {
    match s
    case Nil => false
    case Cons(h, next) => Ends(h) || ChainEnds(next)
  }

  /** A jump, a block that ends, or an `if` with two arms that end; a loop never counts. */
  predicate Ends(s: Stmt) {
    match s
    case Return(_) => true
    case Break => true
    case Continue => true
    case Block(b) => ChainEnds(b)
    case If(_, t, f) => f.Cons? && ChainEnds(t) && ChainEnds(f)
    case _ => false
  }

  /** Lowering sets the flag for exactly these chains. */
  lemma {:induction false} TerminatedExactly(sc: Scope, g: State, s: Stmts)
    requires !g.terminated && LowerStmts(sc, g, s).Ok?
    ensures LowerStmts(sc, g, s).value.terminated <==> ChainEnds(s)
    decreases s, 0
  {
    hide LowerStmt;
    if s.Cons? {
      TerminatedExactlyStmt(sc, g, s.head);
      if !LowerStmt(sc, g, s.head).value.terminated {
        TerminatedExactly(sc, LowerStmt(sc, g, s.head).value, s.next);
      }
    }
  }

  lemma {:induction false} TerminatedExactlyStmt(sc: Scope, g: State, s: Stmt)
    requires !g.terminated && LowerStmt(sc, g, s).Ok?
    ensures LowerStmt(sc, g, s).value.terminated <==> Ends(s)
    decreases s, 1
  {
    hide ExprCode, LowerIfTest, LowerArms, LowerStmts, NarrowToStore, LowerWhile, LowerForLoop, LowerDoBody, EnterBlocks;
    match s
    case Block(b) => TerminatedExactly(sc, g, b);
    case If(e, t, f) => ArmsTerminateExactly(sc, |g.blocks|, LowerIfTest(sc, g, e, f.Cons?).value, e, t, f);
    case While(e, b) => WhileGoesOn(sc, g, e, b);
    case For(first, e, post, b) => ForLoopGoesOn(sc, LowerStmts(sc, g, first).value, e, post, b);
    case Do(b, e) => DoGoesOn(sc, g, EnterBlocks(g, 3, |g.blocks|), b, e);
    case _ =>
  }

  lemma {:induction false} ArmsTerminateExactly(sc: Scope, k: nat, g: State, e: Expr, t: Stmts, f: Stmts)
    requires LowerArms(sc, k, g, e, t, f).Ok?
    ensures LowerArms(sc, k, g, e, t, f).value.terminated <==> f.Cons? && ChainEnds(t) && ChainEnds(f)
    decreases If(e, t, f), 0
  {
    hide LowerStmts;
    TerminatedExactly(sc, SwitchTo(g, k), t);
    if f.Cons? {
      var g3 := LowerStmts(sc, SwitchTo(g, k), t).value;
      assert LowerElse(sc, k, g3, f).Ok?;
      TerminatedExactly(sc, SwitchTo(FallTo(g3, k + 2), k + 1), f);
    }
  }

  /** After a loop, insertion is in its exit block, which is open. */
  lemma {:induction false} WhileGoesOn(sc: Scope, g: State, e: Expr, b: Stmts)
    requires LowerWhile(sc, g, e, b).Ok?
    ensures !LowerWhile(sc, g, e, b).value.terminated
  {
    hide LowerStmts, EmitBranch, EnterBlocks;
  }

  lemma {:induction false} DoGoesOn(sc: Scope, g: State, g1: State, b: Stmts, e: Expr)
    requires LowerDoBody(sc, g, g1, b, e).Ok?
    ensures !LowerDoBody(sc, g, g1, b, e).value.terminated
  {
    hide LowerStmts, EmitBranch, LeaveBody;
  }

  lemma {:induction false} ForGoesOn(sc: Scope, g: State, g2: State, post: Expr, b: Stmts)
    requires LowerForBody(sc, g, g2, post, b).Ok?
    ensures !LowerForBody(sc, g, g2, post, b).value.terminated
  {
    hide LowerStmts, LowerForPost, LeaveBody;
  }

  lemma {:induction false} ForLoopGoesOn(sc: Scope, g: State, e: Expr, post: Expr, b: Stmts)
    requires LowerForLoop(sc, g, e, post, b).Ok?
    ensures !LowerForLoop(sc, g, e, post, b).value.terminated
  {
    hide LowerForTest, EnterBlocks, LowerForBody;
    var k := |g.blocks|;
    ForGoesOn(sc, g, LowerForTest(sc, EnterBlocks(g, 4, k), e, k + 2, k + 3).value, post, b);
  }

  /** A run of such a chain does not complete normally, whatever the state and however long. */
  lemma {:induction false} EndedNeverNormal(c: CEnv, fuel: nat, s: Stmts, m: Memory, tr: Trace)
    requires ChainEnds(s)
    ensures !ExecStmts(c, fuel, s, m, tr).Normal?
    decreases s, 0
  {
    hide Rval;
    var o := ExecStmt(c, fuel, s.head, m, tr);
    if Ends(s.head) {
      EndedNeverNormalStmt(c, fuel, s.head, m, tr);
    } else if o.Normal? {
      EndedNeverNormal(c, fuel, s.next, o.mem, o.tr);
    }
  }

  lemma {:induction false} EndedNeverNormalStmt(c: CEnv, fuel: nat, s: Stmt, m: Memory, tr: Trace)
    requires Ends(s)
    ensures !ExecStmt(c, fuel, s, m, tr).Normal?
    decreases s, 0
  {
    hide Rval;
    match s
    case Block(b) => EndedNeverNormal(c, fuel, b, m, tr);
    case If(e, t, f) =>
      var r := Rval(c, e, m, tr);
      if r.Val? { EndedNeverNormal(c, fuel, if r.v != 0 then t else f, r.mem, r.tr); }
    case _ =>
  }

  function Append(s: Stmts, more: Stmts): Stmts {
    match s
    case Nil => more
    case Cons(h, next) => Cons(h, Append(next, more))
  }

  /** Dropping is sound: once a chain has set the flag, whatever follows it is not lowered, not
      even looked at, and no run of the source program reaches it. */
  lemma {:induction false} DroppedCodeIsDead(sc: Scope, g: State, s: Stmts, more: Stmts, c: CEnv, fuel: nat, m: Memory, tr: Trace)
    requires !g.terminated && LowerStmts(sc, g, s).Ok? && LowerStmts(sc, g, s).value.terminated
    ensures LowerStmts(sc, g, Append(s, more)) == LowerStmts(sc, g, s)
    ensures ExecStmts(c, fuel, Append(s, more), m, tr) == ExecStmts(c, fuel, s, m, tr)
  {
    TerminatedExactly(sc, g, s);
    EndedNeverNormal(c, fuel, s, m, tr);
    LowerAppended(sc, g, s, more);
    RunAppended(c, fuel, s, more, m, tr);
  }

  lemma {:induction false} LowerAppended(sc: Scope, g: State, s: Stmts, more: Stmts)
    requires LowerStmts(sc, g, s).Ok?
    ensures LowerStmts(sc, g, Append(s, more)) == LowerStmts(sc, LowerStmts(sc, g, s).value, more)
    decreases s
  {
    hide LowerStmt;
    if s.Cons? && !g.terminated {
      LowerAppended(sc, LowerStmt(sc, g, s.head).value, s.next, more);
    }
  }

  lemma {:induction false} RunAppended(c: CEnv, fuel: nat, s: Stmts, more: Stmts, m: Memory, tr: Trace)
    ensures ExecStmts(c, fuel, Append(s, more), m, tr) ==
            match ExecStmts(c, fuel, s, m, tr)
            case Normal(m', tr') => ExecStmts(c, fuel, more, m', tr')
            case o => o
    decreases s
  {
    hide ExecStmt;
    if s.Cons? {
      var o := ExecStmt(c, fuel, s.head, m, tr);
      if o.Normal? {
        RunAppended(c, fuel, s.next, more, o.mem, o.tr);
      }
    }
  }
}
