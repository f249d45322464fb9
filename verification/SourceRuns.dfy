/** Fuel is only a bound on loop iterations: more of it never changes an outcome, so a source
    program has at most one. */
module SourceRuns {
  import opened ByteMemory
  import opened Ast
  import opened CSemantics
  import opened FuncCorrect

  /** `o'`, obtained with more fuel, is the same outcome as `o`. */
  predicate Settles(o: Outcome, o': Outcome) {
    o.OutOfFuel? || o' == o
  }

  lemma {:induction false} MoreFuel(c: CEnv, fuel: nat, s: Stmts, m: Memory, tr: Trace)
    ensures Settles(ExecStmts(c, fuel, s, m, tr), ExecStmts(c, fuel + 1, s, m, tr))
    decreases fuel, s, 1
  {
    hide ExecStmt;
    if s.Cons? {
      MoreFuelStmt(c, fuel, s.head, m, tr);
      var o := ExecStmt(c, fuel, s.head, m, tr);
      if o.Normal? { MoreFuel(c, fuel, s.next, o.mem, o.tr); }
    }
  }

  lemma {:induction false} MoreFuelStmt(c: CEnv, fuel: nat, s: Stmt, m: Memory, tr: Trace)
    ensures Settles(ExecStmt(c, fuel, s, m, tr), ExecStmt(c, fuel + 1, s, m, tr))
    decreases fuel, s, 1
  {
    hide Rval, ExecStmts, ExecWhile, ExecFor, ExecDo, WriteTyped;
    match s
    case Block(b) => MoreFuel(c, fuel, b, m, tr);
    case If(e, t, f) =>
      var r := Rval(c, e, m, tr);
      if r.Val? { MoreFuel(c, fuel, if r.v != 0 then t else f, r.mem, r.tr); }
    case While(e, b) => MoreFuelWhile(c, fuel, e, b, m, tr);
    case For(first, e, post, b) =>
      MoreFuel(c, fuel, first, m, tr);
      var o := ExecStmts(c, fuel, first, m, tr);
      if o.Normal? { MoreFuelFor(c, fuel, e, post, b, o.mem, o.tr); }
    case Do(b, e) => MoreFuelDo(c, fuel, b, e, m, tr);
    case _ =>
  }

  lemma {:induction false} MoreFuelWhile(c: CEnv, fuel: nat, e: Expr, b: Stmts, m: Memory, tr: Trace)
    ensures Settles(ExecWhile(c, fuel, e, b, m, tr), ExecWhile(c, fuel + 1, e, b, m, tr))
    decreases fuel, b, 4
  {
    hide Rval, ExecWhileBody;
    var r := Rval(c, e, m, tr);
    if fuel > 0 && r.Val? && r.v != 0 { MoreFuelWhileBody(c, fuel, e, b, r.mem, r.tr); }
  }

  lemma {:induction false} MoreFuelWhileBody(c: CEnv, fuel: nat, e: Expr, b: Stmts, m: Memory, tr: Trace)
    requires fuel > 0
    ensures Settles(ExecWhileBody(c, fuel, e, b, m, tr), ExecWhileBody(c, fuel + 1, e, b, m, tr))
    decreases fuel, b, 3
  {
    hide ExecStmts, ExecWhile;
    MoreFuel(c, fuel, b, m, tr);
    var o := ExecStmts(c, fuel, b, m, tr);
    if o.Normal? || o.Continued? { MoreFuelWhile(c, fuel - 1, e, b, o.mem, o.tr); }
  }

  lemma {:induction false} MoreFuelFor(c: CEnv, fuel: nat, e: Expr, post: Expr, b: Stmts, m: Memory, tr: Trace)
    ensures Settles(ExecFor(c, fuel, e, post, b, m, tr), ExecFor(c, fuel + 1, e, post, b, m, tr))
    decreases fuel, b, 4
  {
    hide Rval, ExecForBody;
    var r := if e.NullExpr? then Val(1, m, tr) else Rval(c, e, m, tr);
    if fuel > 0 && r.Val? && r.v != 0 { MoreFuelForBody(c, fuel, e, post, b, r.mem, r.tr); }
  }

  lemma {:induction false} MoreFuelForBody(c: CEnv, fuel: nat, e: Expr, post: Expr, b: Stmts, m: Memory, tr: Trace)
    requires fuel > 0
    ensures Settles(ExecForBody(c, fuel, e, post, b, m, tr), ExecForBody(c, fuel + 1, e, post, b, m, tr))
    decreases fuel, b, 3
  {
    hide ExecStmts, ExecPost;
    MoreFuel(c, fuel, b, m, tr);
    var o := ExecStmts(c, fuel, b, m, tr);
    if o.Normal? || o.Continued? { MoreFuelPost(c, fuel, e, post, b, o.mem, o.tr); }
  }

  lemma {:induction false} MoreFuelPost(c: CEnv, fuel: nat, e: Expr, post: Expr, b: Stmts, m: Memory, tr: Trace)
    requires fuel > 0
    ensures Settles(ExecPost(c, fuel, e, post, b, m, tr), ExecPost(c, fuel + 1, e, post, b, m, tr))
    decreases fuel, b, 2
  {
    hide Rval, ExecFor;
    var r := if post.NullExpr? then Val(0, m, tr) else Rval(c, post, m, tr);
    if r.Val? { MoreFuelFor(c, fuel - 1, e, post, b, r.mem, r.tr); }
  }

  lemma {:induction false} MoreFuelDo(c: CEnv, fuel: nat, b: Stmts, e: Expr, m: Memory, tr: Trace)
    ensures Settles(ExecDo(c, fuel, b, e, m, tr), ExecDo(c, fuel + 1, b, e, m, tr))
    decreases fuel, b, 3
  {
    hide ExecStmts, ExecDoTest;
    if fuel > 0 {
      MoreFuel(c, fuel, b, m, tr);
      var o := ExecStmts(c, fuel, b, m, tr);
      if o.Normal? || o.Continued? { MoreFuelDoTest(c, fuel, b, e, o.mem, o.tr); }
    }
  }

  lemma {:induction false} MoreFuelDoTest(c: CEnv, fuel: nat, b: Stmts, e: Expr, m: Memory, tr: Trace)
    requires fuel > 0
    ensures Settles(ExecDoTest(c, fuel, b, e, m, tr), ExecDoTest(c, fuel + 1, b, e, m, tr))
    decreases fuel, b, 2
  {
    hide Rval, ExecDo;
    var r := Rval(c, e, m, tr);
    if r.Val? && r.v != 0 { MoreFuelDo(c, fuel - 1, b, e, r.mem, r.tr); }
  }

  /** More fuel, by any amount. */
  lemma {:induction false} FuelMonotone(c: CEnv, fuel: nat, fuel': nat, s: Stmts, m: Memory, tr: Trace)
    requires fuel <= fuel'
    ensures Settles(ExecStmts(c, fuel, s, m, tr), ExecStmts(c, fuel', s, m, tr))
    decreases fuel' - fuel
  {
    if fuel < fuel' {
      MoreFuel(c, fuel, s, m, tr);
      FuelMonotone(c, fuel + 1, fuel', s, m, tr);
    }
  }

  /** A call has at most one outcome: if it returns, the value, memory and calls are determined,
      and it neither traps nor runs forever. */
  lemma {:induction false} OneOutcome(c: CEnv, f: Func, args: seq<int>, m: Memory, v: int, m': Memory, tr: Trace)
    requires |args| == |f.params| && SourceReturns(c, f, args, m, v, m', tr)
    ensures forall v2, m2, tr2 :: SourceReturns(c, f, args, m, v2, m2, tr2) ==> v2 == v && m2 == m' && tr2 == tr
    ensures forall tr2 :: !SourceTraps(c, f, args, m, tr2)
    ensures !SourceDiverges(c, f, args, m)
  {
    hide ExecStmts, BindParams;
    var fuel: nat :| RunFunc(c, fuel, f, args, m) == Returned(v, m', tr);
    forall other: nat
      ensures Settles(RunFunc(c, other, f, args, m), Returned(v, m', tr))
    {
      var m0 := BindParams(c, f.params, args, 0, m);
      if fuel <= other {
        FuelMonotone(c, fuel, other, f.body, m0, []);
      } else {
        FuelMonotone(c, other, fuel, f.body, m0, []);
      }
    }
  }
}
