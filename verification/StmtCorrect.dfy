/** Statement lowering preserves meaning: running any finished graph that contains what was
    emitted, from the insertion point on, ends where the source outcome says. */
module StmtCorrect {
  import opened Results
  import opened Words
  import opened CTypes
  import opened ByteMemory
  import opened Ast
  import opened Clif
  import opened SlotTable
  import opened CSemantics
  import opened Lowering
  import opened WellTyped
  import opened ExprCorrect
  import opened Growth

  /** `graph` is a later stage of construction than `blocks`, possibly the finished one. */
  ghost predicate Within(blocks: Blocks, graph: Blocks) {
    |blocks| <= |graph| && forall i :: 0 <= i < |blocks| ==> blocks[i] <= graph[i]
  }

  lemma {:induction false} WithinEarlier(g: State, g': State, graph: Blocks)
    requires Grown(g, g') && Within(g'.blocks, graph)
    ensures Within(g.blocks, graph)
  {
    forall i | 0 <= i < |g.blocks|
      ensures g.blocks[i] <= graph[i]
    {
      assert g'.blocks[i] <= graph[i];
    }
  }

  /** The machine at the insertion point. */
  ghost function At(g: State, s: Mach): Config
    requires g.current < |g.blocks|
  {
    Running(g.current, |g.blocks[g.current]|, s)
  }

  ghost predicate Lands(k: Config, blk: nat, pc: nat, m: Memory, tr: Trace) {
    k.Running? && k.blk == blk && k.pc == pc && k.s.mem == m && k.s.tr == tr
  }

  /** What configuration `k`, reached in `n` steps, must be for source outcome `o`: the insertion
      point `g'` after a normal completion, the loop's exit or continue block after a jump, a
      finished or faulted run, or a run still going after at least as many steps as there was fuel. */
  ghost predicate Follows(k: Config, n: nat, fuel: nat, o: Outcome, g: State, g': State) {
    match o
    case Normal(m, tr) =>
      !g'.terminated && g'.current < |g'.blocks| && Lands(k, g'.current, |g'.blocks[g'.current]|, m, tr)
    case Broke(m, tr) => g.loopBreak.Some? && Lands(k, g.loopBreak.value, 0, m, tr)
    case Continued(m, tr) => g.loopContinue.Some? && Lands(k, g.loopContinue.value, 0, m, tr)
    case Returned(v, m, tr) => InRange(I32, v) && k == Finished(Encode(I32, v), m, tr)
    case Trapped(tr) => k == Faulted(tr)
    case OutOfFuel => k.Running? && n >= fuel
    case Erroneous => false
  }

  /** The graph contains `insts` at the insertion point. */
  ghost predicate Has(graph: Blocks, g: State, insts: seq<Inst>) {
    g.current < |g.blocks| && g.current < |graph| && g.blocks[g.current] + insts <= graph[g.current]
  }

  lemma {:induction false} HasPrefix(graph: Blocks, g: State, a: seq<Inst>, b: seq<Inst>)
    requires Has(graph, g, a + b)
    ensures Has(graph, g, a)
    ensures forall next :: Has(graph, Emit(g, a, next), b)
  {
    assert g.blocks[g.current] + (a + b) == (g.blocks[g.current] + a) + b;
  }

  lemma {:induction false} RunStraight(graph: Blocks, w: World, g: State, insts: seq<Inst>, s: Mach)
    requires Has(graph, g, insts) && StraightLine(insts)
    ensures Steps(graph, w, |insts|, At(g, s)) ==
            match ExecCode(w, insts, s)
            case Next(s') => Running(g.current, |g.blocks[g.current]| + |insts|, s')
            case Fault(tr) => Faulted(tr)
            case Illegal => Stuck
  {
    var b := g.blocks[g.current];
    assert graph[g.current][|b|..|b| + |insts|] == insts;
    RunCode(graph, w, g.current, |b|, insts, s);
  }

  /** One step on the instruction at the insertion point. */
  lemma {:induction false} RunOne(graph: Blocks, w: World, g: State, i: Inst, s: Mach)
    requires Has(graph, g, [i])
    ensures |g.blocks[g.current]| < |graph[g.current]| && graph[g.current][|g.blocks[g.current]|] == i
    ensures Steps(graph, w, 1, At(g, s)) == Step(graph, w, At(g, s))
  {
    assert (g.blocks[g.current] + [i])[|g.blocks[g.current]|] == i;
    assert Steps(graph, w, 0, Step(graph, w, At(g, s))) == Step(graph, w, At(g, s));
  }

  lemma {:induction false} RunJump(graph: Blocks, w: World, g: State, target: nat, s: Mach)
    requires g.current < |g.blocks| && !g.terminated && Within(FallTo(g, target).blocks, graph)
    ensures Steps(graph, w, 1, At(g, s)) == Running(target, 0, s)
  {
    assert FallTo(g, target).blocks[g.current] <= graph[g.current];
    RunOne(graph, w, g, Jump(target), s);
  }

  /** Running the code of an expression from the insertion point. */
  lemma {:induction false} RunExpr(te: TypeEnv, sc: Scope, c: CEnv, w: World, graph: Blocks, g: State, e: Expr, s: Mach)
    returns (n: nat, k: Config)
    requires Agree(te, sc, c, w) && Typed(te, e)
    requires ExprCode(sc, e, g.next).Ok? && Has(graph, g, ExprCode(sc, e, g.next).value.insts)
    ensures k == Steps(graph, w, n, At(g, s))
    ensures var code := ExprCode(sc, e, g.next).value;
            match Rval(c, e, s.mem, s.tr)
            case Val(x, m, tr) =>
              && Lands(k, g.current, |g.blocks[g.current]| + |code.insts|, m, tr)
              && Holds(k.s, code.val, Encode(ResultType(e), x))
            case Trap(tr) => k == Faulted(tr)
            case Wrong => false
  {
    var code := ExprCode(sc, e, g.next).value;
    n := |code.insts|;
    k := Steps(graph, w, n, At(g, s));
    ExprStraight(sc, e, g.next);
    RvalCorrect(te, sc, c, w, e, g.next, s);
    RunStraight(graph, w, g, code.insts, s);
  }

  lemma {:induction false} SmallNonzero(t: Ty, v: int)
    requires -Modulus(t) < v < Modulus(t)
    ensures Encode(t, v).bits != 0 <==> v != 0
  {
    if v >= 0 {
      ModUnique(v, 0, v, Modulus(t));
    } else {
      ModUnique(v, -1, v + Modulus(t), Modulus(t));
    }
  }

  /** A lowered condition is a nonzero word exactly if the source value is nonzero. */
  lemma {:induction false} ConditionBits(te: TypeEnv, sc: Scope, c: CEnv, w: World, e: Expr, n: nat, s: Mach)
    requires Agree(te, sc, c, w) && Typed(te, e) && ExprCode(sc, e, n).Ok?
    requires Rval(c, e, s.mem, s.tr).Val?
    ensures var v := Rval(c, e, s.mem, s.tr).v; Encode(ResultType(e), v).bits != 0 <==> v != 0
  {
    RvalCorrect(te, sc, c, w, e, n, s);
    SmallNonzero(ResultType(e), Rval(c, e, s.mem, s.tr).v);
  }

  /** The code of an expression followed by one more instruction. */
  lemma {:induction false} RunExprThen(te: TypeEnv, sc: Scope, c: CEnv, w: World, graph: Blocks, g: State, e: Expr, i: Inst, s: Mach)
    returns (n: nat, k: Config, s': Mach)
    requires Agree(te, sc, c, w) && Typed(te, e)
    requires ExprCode(sc, e, g.next).Ok? && Has(graph, g, ExprCode(sc, e, g.next).value.insts + [i])
    ensures n > 0 && k == Steps(graph, w, n, At(g, s))
    ensures var code := ExprCode(sc, e, g.next).value;
            match Rval(c, e, s.mem, s.tr)
            case Val(x, m, tr) =>
              var g' := Emit(g, code.insts, code.next);
              && s'.mem == m && s'.tr == tr && Holds(s', code.val, Encode(ResultType(e), x))
              && Has(graph, g', [i]) && k == Step(graph, w, At(g', s'))
              && |g'.blocks[g'.current]| < |graph[g'.current]| && graph[g'.current][|g'.blocks[g'.current]|] == i
            case Trap(tr) => k == Faulted(tr)
            case Wrong => false
  {
    var code := ExprCode(sc, e, g.next).value;
    HasPrefix(graph, g, code.insts, [i]);
    var n1, k1 := RunExpr(te, sc, c, w, graph, g, e, s);
    n := n1 + 1;
    k := Steps(graph, w, 1, k1);
    s' := if k1.Running? then k1.s else s;
    StepsAdd(graph, w, n1, 1, At(g, s));
    if Rval(c, e, s.mem, s.tr).Val? {
      RunOne(graph, w, Emit(g, code.insts, code.next), i, k1.s);
    }
  }

  /** A condition and the branch on it. */
  lemma {:induction false} RunBranch(te: TypeEnv, sc: Scope, c: CEnv, w: World, graph: Blocks, g: State, e: Expr, t: nat, f: nat, s: Mach)
    returns (n: nat, k: Config)
    requires Agree(te, sc, c, w) && Typed(te, e) && ExprCode(sc, e, g.next).Ok?
    requires var code := ExprCode(sc, e, g.next).value; Has(graph, g, code.insts + [Brif(code.val, t, f)])
    ensures n > 0 && k == Steps(graph, w, n, At(g, s))
    ensures match Rval(c, e, s.mem, s.tr)
            case Val(x, m, tr) => Lands(k, if x != 0 then t else f, 0, m, tr)
            case Trap(tr) => k == Faulted(tr)
            case Wrong => false
  {
    var code := ExprCode(sc, e, g.next).value;
    var s';
    n, k, s' := RunExprThen(te, sc, c, w, graph, g, e, Brif(code.val, t, f), s);
    if Rval(c, e, s.mem, s.tr).Val? {
      ConditionBits(te, sc, c, w, e, g.next, s);
    }
  }

  /** Sequencing: `o2` is what happens after `o1` completed normally. */
  lemma {:induction false} Chain(graph: Blocks, w: World, start: Config, n1: nat, n2: nat, fuel: nat, o1: Outcome, o2: Outcome, g: State, g1: State, g2: State)
    requires Follows(Steps(graph, w, n1, start), n1, fuel, o1, g, g1) && SameTargets(g, g1)
    requires o1.Normal? ==> Follows(Steps(graph, w, n2, Steps(graph, w, n1, start)), n2, fuel, o2, g1, g2)
    ensures o1.Normal? ==> Follows(Steps(graph, w, n1 + n2, start), n1 + n2, fuel, o2, g, g2)
    ensures !o1.Normal? ==> Follows(Steps(graph, w, n1, start), n1, fuel, o1, g, g2)
  {
    StepsAdd(graph, w, n1, n2, start);
  }

  /** Statement chains. */
  lemma {:induction false} StmtsCorrect(te: TypeEnv, sc: Scope, c: CEnv, w: World, graph: Blocks, g: State, b: Stmts, inLoop: bool, fuel: nat, s: Mach)
    returns (n: nat)
    requires Agree(te, sc, c, w) && TypedStmts(te, b, inLoop) && Valid(g) && !g.terminated
    requires inLoop ==> g.loopBreak.Some? && g.loopContinue.Some?
    requires LowerStmts(sc, g, b).Ok? && Within(LowerStmts(sc, g, b).value.blocks, graph)
    ensures Follows(Steps(graph, w, n, At(g, s)), n, fuel, ExecStmts(c, fuel, b, s.mem, s.tr), g, LowerStmts(sc, g, b).value)
    decreases fuel, b, 0
  {
    hide LowerStmt, ExecStmt, TypedStmt;
    n := 0;
    if b.Cons? {
      var g1 := LowerStmt(sc, g, b.head).value;
      var g2 := LowerStmts(sc, g1, b.next).value;
      ConsWithin(sc, g, b, graph);
      n := StmtCorrect(te, sc, c, w, graph, g, b.head, inLoop, fuel, s);
      var o := ExecStmt(c, fuel, b.head, s.mem, s.tr);
      var n1, n2, k := n, 0, Steps(graph, w, n, At(g, s));
      if o.Normal? {
        n2 := StmtsCorrect(te, sc, c, w, graph, g1, b.next, inLoop, fuel, k.s);
        n := n1 + n2;
      }
      Chain(graph, w, At(g, s), n1, n2, fuel, o, ExecStmts(c, fuel, b, s.mem, s.tr), g, g1, g2);
    }
  }

  lemma {:induction false} ConsWithin(sc: Scope, g: State, b: Stmts, graph: Blocks)
    requires b.Cons? && Valid(g) && !g.terminated
    requires LowerStmts(sc, g, b).Ok? && Within(LowerStmts(sc, g, b).value.blocks, graph)
    ensures var g1 := LowerStmt(sc, g, b.head).value;
            Valid(g1) && SameTargets(g, g1) && Within(g1.blocks, graph) && LowerStmts(sc, g, b) == LowerStmts(sc, g1, b.next)
  {
    var g1 := LowerStmt(sc, g, b.head).value;
    LowerStmtGrows(sc, g, b.head);
    LowerStmtsGrows(sc, g1, b.next);
    WithinEarlier(g1, LowerStmts(sc, g1, b.next).value, graph);
  }

  lemma {:induction false} StmtCorrect(te: TypeEnv, sc: Scope, c: CEnv, w: World, graph: Blocks, g: State, b: Stmt, inLoop: bool, fuel: nat, s: Mach)
    returns (n: nat)
    requires Agree(te, sc, c, w) && TypedStmt(te, b, inLoop) && Valid(g) && !g.terminated
    requires inLoop ==> g.loopBreak.Some? && g.loopContinue.Some?
    requires LowerStmt(sc, g, b).Ok? && Within(LowerStmt(sc, g, b).value.blocks, graph)
    ensures Follows(Steps(graph, w, n, At(g, s)), n, fuel, ExecStmt(c, fuel, b, s.mem, s.tr), g, LowerStmt(sc, g, b).value)
    decreases fuel, b, 6
  {
    hide Agree, Rval, ExprCode, EmitExpr, LowerInit, LowerIf, LowerWhile, LowerForLoop, LowerDo, LowerStmts, Typed, TypedStmts,
      ExecStmts, ExecWhile, ExecFor, ExecDo, Follows, Within, Valid, WriteTyped;
    match b
    case Return(e) => n := ReturnCorrect(te, sc, c, w, graph, g, e, fuel, s);
    case Eval(e) => n := EvalCorrect(te, sc, c, w, graph, g, e, fuel, s);
    case Decl(x, t, e) =>
      if e.NullExpr? {
        n := 0;
        SkipCorrect(graph, w, g, fuel, s);
      } else {
        n := InitCorrect(te, sc, c, w, graph, g, x, t, e, fuel, s);
      }
    case Block(b) => n := StmtsCorrect(te, sc, c, w, graph, g, b, inLoop, fuel, s);
    case If(e, t, f) => n := IfCorrect(te, sc, c, w, graph, g, e, t, f, inLoop, fuel, s);
    case While(e, b) => n := WhileCorrect(te, sc, c, w, graph, g, e, b, fuel, s);
    case For(first, e, post, b) => n := ForCorrect(te, sc, c, w, graph, g, first, e, post, b, inLoop, fuel, s);
    case Do(b, e) => n := DoCorrect(te, sc, c, w, graph, g, b, e, fuel, s);
    case Break =>
      n := 1;
      JumpCorrect(graph, w, g, g.loopBreak.value, s);
      JumpFollows(graph, w, g, s, fuel);
    case Continue =>
      n := 1;
      JumpCorrect(graph, w, g, g.loopContinue.value, s);
      JumpFollows(graph, w, g, s, fuel);
  }

  lemma {:induction false} SkipCorrect(graph: Blocks, w: World, g: State, fuel: nat, s: Mach)
    requires Valid(g) && !g.terminated
    ensures Follows(Steps(graph, w, 0, At(g, s)), 0, fuel, Normal(s.mem, s.tr), g, g)
  {
  }

  lemma {:induction false} JumpCorrect(graph: Blocks, w: World, g: State, target: nat, s: Mach)
    requires Valid(g) && !g.terminated && Within(Terminate(g, Jump(target)).blocks, graph)
    ensures Steps(graph, w, 1, At(g, s)) == Running(target, 0, s)
  {
    assert Terminate(g, Jump(target)).blocks[g.current] <= graph[g.current];
    RunOne(graph, w, g, Jump(target), s);
  }

  lemma {:induction false} JumpFollows(graph: Blocks, w: World, g: State, s: Mach, fuel: nat)
    requires Valid(g)
    ensures g.loopBreak.Some? && Steps(graph, w, 1, At(g, s)) == Running(g.loopBreak.value, 0, s) ==>
              Follows(Steps(graph, w, 1, At(g, s)), 1, fuel, Broke(s.mem, s.tr), g, Terminate(g, Jump(g.loopBreak.value)))
    ensures g.loopContinue.Some? && Steps(graph, w, 1, At(g, s)) == Running(g.loopContinue.value, 0, s) ==>
              Follows(Steps(graph, w, 1, At(g, s)), 1, fuel, Continued(s.mem, s.tr), g, Terminate(g, Jump(g.loopContinue.value)))
  {
  }

  lemma {:induction false} EvalCorrect(te: TypeEnv, sc: Scope, c: CEnv, w: World, graph: Blocks, g: State, e: Expr, fuel: nat, s: Mach)
    returns (n: nat)
    requires Agree(te, sc, c, w) && Typed(te, e) && Valid(g) && !g.terminated
    requires LowerStmt(sc, g, Eval(e)).Ok? && Within(LowerStmt(sc, g, Eval(e)).value.blocks, graph)
    ensures Follows(Steps(graph, w, n, At(g, s)), n, fuel, ExecStmt(c, fuel, Eval(e), s.mem, s.tr), g, LowerStmt(sc, g, Eval(e)).value)
  {
    hide Agree, Rval, ExprCode, Typed;
    var g', code := LowerStmt(sc, g, Eval(e)).value, ExprCode(sc, e, g.next).value;
    assert Has(graph, g, code.insts) by {
      assert g'.blocks[g.current] <= graph[g.current];
    }
    ExprStraight(sc, e, g.next);
    Reflexive(g);
    EmitGrows(g, g, code.insts, code.next);
    var k;
    n, k := RunExpr(te, sc, c, w, graph, g, e, s);
  }

  lemma {:induction false} ReturnCorrect(te: TypeEnv, sc: Scope, c: CEnv, w: World, graph: Blocks, g: State, e: Expr, fuel: nat, s: Mach)
    returns (n: nat)
    requires Agree(te, sc, c, w) && TypedStmt(te, Return(e), false) && Valid(g) && !g.terminated
    requires LowerStmt(sc, g, Return(e)).Ok? && Within(LowerStmt(sc, g, Return(e)).value.blocks, graph)
    ensures Follows(Steps(graph, w, n, At(g, s)), n, fuel, ExecStmt(c, fuel, Return(e), s.mem, s.tr), g, LowerStmt(sc, g, Return(e)).value)
  {
    hide Agree, Rval, ExprCode;
    var code, g' := ExprCode(sc, e, g.next).value, LowerStmt(sc, g, Return(e)).value;
    assert g'.blocks[g.current] == g.blocks[g.current] + (code.insts + [ReturnInst(code.val)]);
    assert g'.blocks[g.current] <= graph[g.current];
    var k, s';
    n, k, s' := RunExprThen(te, sc, c, w, graph, g, e, ReturnInst(code.val), s);
    RvalCorrect(te, sc, c, w, e, g.next, s);
  }

  /** An initialised declaration stores the converted value in the slot of the variable. */
  lemma {:induction false} InitCorrect(te: TypeEnv, sc: Scope, c: CEnv, w: World, graph: Blocks, g: State, x: CString, t: CType, e: Expr, fuel: nat, s: Mach)
    returns (n: nat)
    requires Agree(te, sc, c, w) && !e.NullExpr? && TypedStmt(te, Decl(x, t, e), false) && Valid(g) && !g.terminated
    requires LowerInit(sc, g, x, t, e).Ok? && Within(LowerInit(sc, g, x, t, e).value.blocks, graph)
    ensures Follows(Steps(graph, w, n, At(g, s)), n, fuel, ExecStmt(c, fuel, Decl(x, t, e), s.mem, s.tr), g, LowerInit(sc, g, x, t, e).value)
  {
    hide ExprCode, NarrowToStore, Agree, WriteTyped, ExecCode, Find, TypedStmt;
    var insts := InitShape(sc, g, x, t, e);
    var g' := LowerInit(sc, g, x, t, e).value;
    assert g'.blocks[g.current] <= graph[g.current];
    n := |insts|;
    RunStraight(graph, w, g, insts, s);
    InitCode(te, sc, c, w, x, t, e, g.next, s);
    Reflexive(g);
    EmitGrows(g, g, insts, g'.next);
    InitDeclared(te, sc, c, w, x, t, e);
  }

  lemma {:induction false} InitDeclared(te: TypeEnv, sc: Scope, c: CEnv, w: World, x: CString, t: CType, e: Expr)
    requires Agree(te, sc, c, w) && TypedStmt(te, Decl(x, t, e), false)
    ensures x in c.vars
  {
    assert BoundAlike(sc, c, w, x);
  }

  lemma {:induction false} InitShape(sc: Scope, g: State, x: CString, t: CType, e: Expr) returns (insts: seq<Inst>)
    requires g.current < |g.blocks| && LowerInit(sc, g, x, t, e).Ok?
    ensures ExprCode(sc, e, g.next).Ok? && Find(sc.table, x).Some?
    ensures var code := ExprCode(sc, e, g.next).value;
            var k := NarrowToStore(sc.layouts, code.val, t, code.next);
            k.Ok? && insts == code.insts + (k.value.insts + [StackAddr(k.value.next, Find(sc.table, x).value.slot), Store(k.value.next, k.value.val)])
    ensures StraightLine(insts) && LowerInit(sc, g, x, t, e).value == Emit(g, insts, LowerInit(sc, g, x, t, e).value.next)
  {
    hide ExprCode;
    var code := ExprCode(sc, e, g.next).value;
    var k := NarrowToStore(sc.layouts, code.val, t, code.next).value;
    var store := [StackAddr(k.next, Find(sc.table, x).value.slot), Store(k.next, k.val)];
    insts := code.insts + (k.insts + store);
    assert insts == code.insts + k.insts + store;
    ExprStraight(sc, e, g.next);
  }

  lemma {:induction false} InitCode(te: TypeEnv, sc: Scope, c: CEnv, w: World, x: CString, t: CType, e: Expr, next: nat, s: Mach)
    requires Agree(te, sc, c, w) && !e.NullExpr? && TypedStmt(te, Decl(x, t, e), false) && ExprCode(sc, e, next).Ok?
    ensures var code := ExprCode(sc, e, next).value;
            var k := NarrowToStore(sc.layouts, code.val, t, code.next);
            k.Ok? &&
            var o := ExecCode(w, code.insts + (k.value.insts + [StackAddr(k.value.next, Find(sc.table, x).value.slot), Store(k.value.next, k.value.val)]), s);
            match Rval(c, e, s.mem, s.tr)
            case Val(v, m, tr) => o.Next? && o.s.mem == WriteTyped(m, Wrap64(c.vars[x]), t, v) && o.s.tr == tr
            case Trap(tr) => o == Fault(tr)
            case Wrong => false
  {
    hide ExprCode, Rval, WriteTyped;
    var code := ExprCode(sc, e, next).value;
    RvalCorrect(te, sc, c, w, e, next, s);
    assert BoundAlike(sc, c, w, x);
    var r := Rval(c, e, s.mem, s.tr);
    if r.Val? {
      var s1 := ExecCode(w, code.insts, s).s;
      NarrowCorrect(w, sc.layouts, code.val, t, code.next, s1, r.v);
      var k := NarrowToStore(sc.layouts, code.val, t, code.next).value;
      var i := StackAddr(k.next, Find(sc.table, x).value.slot);
      var j := Store(k.next, k.val);
      var s2 := ExecCode(w, k.insts, s1).s;
      ExecAppend(w, code.insts, k.insts + [i, j], s);
      ExecAppend(w, k.insts, [i, j], s1);
      ExecTwo(w, i, j, s2);
      EncodeNested(I64, I64, c.vars[x]);
      var s3 := SetReg(s2, k.next, Encode(I64, c.vars[x]));
      StoreCorrect(w, k.next, k.val, t, s3, Wrap64(c.vars[x]), r.v);
      ExecOne(w, j, s3);
    } else {
      var k := NarrowToStore(sc.layouts, code.val, t, code.next).value;
      ExecAppend(w, code.insts, k.insts + [StackAddr(k.next, Find(sc.table, x).value.slot), Store(k.next, k.val)], s);
    }
  }

  predicate Fresh(blocks: Blocks, k: nat) {
    k < |blocks| && blocks[k] == []
  }

  /** Like `Follows`, for a construct that starts with the start of a block, and whose normal
      completion is the start of block `exit`. */
  ghost predicate Exits(k: Config, n: nat, fuel: nat, o: Outcome, g: State, exit: nat) {
    if o.Normal? then Lands(k, exit, 0, o.mem, o.tr) else Follows(k, n, fuel, o, g, g)
  }

  /** Block `k` was filled with the chain `b` and a jump to `target`; `g` is the state before. */
  ghost predicate Arm(sc: Scope, g: State, k: nat, b: Stmts, target: nat, graph: Blocks) {
    && Valid(SwitchTo(g, k)) && Fresh(g.blocks, k)
    && LowerStmts(sc, SwitchTo(g, k), b).Ok?
    && Within(FallTo(LowerStmts(sc, SwitchTo(g, k), b).value, target).blocks, graph)
  }

  lemma {:induction false} ArmWithin(sc: Scope, g: State, k: nat, b: Stmts, target: nat, graph: Blocks)
    requires Arm(sc, g, k, b, target, graph)
    ensures Within(LowerStmts(sc, SwitchTo(g, k), b).value.blocks, graph) && Within(g.blocks, graph)
    ensures Valid(LowerStmts(sc, SwitchTo(g, k), b).value)
  {
    var g' := LowerStmts(sc, SwitchTo(g, k), b).value;
    LowerStmtsGrows(sc, SwitchTo(g, k), b);
    FallToGrows(SwitchTo(g, k), g', target);
    assert Within(g'.blocks, graph) by {
      assert forall i :: 0 <= i < |g'.blocks| ==> g'.blocks[i] <= FallTo(g', target).blocks[i];
    }
    WithinEarlier(SwitchTo(g, k), g', graph);
  }

  lemma {:induction false} ArmCorrect(te: TypeEnv, sc: Scope, c: CEnv, w: World, graph: Blocks, g: State, k: nat, b: Stmts, target: nat, inLoop: bool, fuel: nat, s: Mach)
    returns (n: nat)
    requires Agree(te, sc, c, w) && TypedStmts(te, b, inLoop) && Arm(sc, g, k, b, target, graph)
    requires inLoop ==> g.loopBreak.Some? && g.loopContinue.Some?
    ensures Exits(Steps(graph, w, n, Running(k, 0, s)), n, fuel, ExecStmts(c, fuel, b, s.mem, s.tr), g, target)
    ensures ExecStmts(c, fuel, b, s.mem, s.tr).Normal? ==> !LowerStmts(sc, SwitchTo(g, k), b).value.terminated
    decreases fuel, b, 1
  {
    var g' := LowerStmts(sc, SwitchTo(g, k), b).value;
    ArmWithin(sc, g, k, b, target, graph);
    n := StmtsCorrect(te, sc, c, w, graph, SwitchTo(g, k), b, inLoop, fuel, s);
    var cfg := Steps(graph, w, n, Running(k, 0, s));
    if ExecStmts(c, fuel, b, s.mem, s.tr).Normal? {
      RunJump(graph, w, g', target, cfg.s);
      StepsAdd(graph, w, n, 1, Running(k, 0, s));
      n := n + 1;
    }
  }

  lemma {:induction false} ExitsLater(graph: Blocks, w: World, start: Config, n1: nat, n2: nat, fuel: nat, o: Outcome, g: State, exit: nat)
    requires Exits(Steps(graph, w, n2, Steps(graph, w, n1, start)), n2, fuel, o, g, exit)
    ensures Exits(Steps(graph, w, n1 + n2, start), n1 + n2, fuel, o, g, exit)
    ensures n1 > 0 ==> Exits(Steps(graph, w, n1 + n2, start), n1 + n2, fuel + 1, o, g, exit)
  {
    StepsAdd(graph, w, n1, n2, start);
  }

  /** After the construct, insertion is at the start of the new block `exit`. */
  predicate EndsAt(g: State, exit: nat) {
    !g.terminated && g.current == exit && Fresh(g.blocks, exit)
  }

  lemma {:induction false} ExitsFollow(k: Config, n: nat, fuel: nat, o: Outcome, g: State, g': State, exit: nat)
    requires Exits(k, n, fuel, o, g, exit) && (o.Normal? ==> EndsAt(g', exit))
    ensures Follows(k, n, fuel, o, g, g')
  {
  }

  /** The graph has `code` and a branch on its value at the insertion point. */
  ghost predicate HasTest(sc: Scope, g: State, e: Expr, t: nat, f: nat, graph: Blocks) {
    && ExprCode(sc, e, g.next).Ok?
    && Has(graph, g, ExprCode(sc, e, g.next).value.insts + [Brif(ExprCode(sc, e, g.next).value.val, t, f)])
  }

  lemma {:induction false} BranchHas(sc: Scope, g: State, e: Expr, t: nat, f: nat, graph: Blocks)
    requires g.current < |g.blocks| && EmitBranch(sc, g, e, t, f).Ok? && Within(EmitBranch(sc, g, e, t, f).value.blocks, graph)
    ensures HasTest(sc, g, e, t, f, graph)
  {
    var code := ExprCode(sc, e, g.next).value;
    var g' := EmitBranch(sc, g, e, t, f).value;
    assert g'.blocks[g.current] == g.blocks[g.current] + (code.insts + [Brif(code.val, t, f)]);
    assert g'.blocks[g.current] <= graph[g.current];
  }

  lemma {:induction false} IfTestHas(sc: Scope, g: State, e: Expr, hasElse: bool, graph: Blocks)
    requires g.current < |g.blocks| && LowerIfTest(sc, g, e, hasElse).Ok? && Within(LowerIfTest(sc, g, e, hasElse).value.blocks, graph)
    ensures HasTest(sc, g, e, |g.blocks|, if hasElse then |g.blocks| + 1 else |g.blocks| + 2, graph)
  {
    var code := ExprCode(sc, e, g.next).value;
    var g' := LowerIfTest(sc, g, e, hasElse).value;
    var branch := Brif(code.val, |g.blocks|, if hasElse then |g.blocks| + 1 else |g.blocks| + 2);
    assert g'.blocks[g.current] == g.blocks[g.current] + (code.insts + [branch]);
    assert g'.blocks[g.current] <= graph[g.current];
  }

  // ----- if -----

  /** What the graph contains of an `if` whose blocks start at `k`; `g2` and `g4` are the states
      before the arms, `g'` the state after. */
  ghost predicate IfShape(sc: Scope, k: nat, t: Stmts, f: Stmts, graph: Blocks, g2: State, g4: State, g': State) {
    && Arm(sc, g2, k, t, k + 2, graph)
    && (f.Cons? ==> Arm(sc, g4, k + 1, f, k + 2, graph))
    && SameTargets(g2, g4)
    && ((f.Nil? || !LowerStmts(sc, SwitchTo(g2, k), t).value.terminated || !LowerStmts(sc, SwitchTo(g4, k + 1), f).value.terminated) ==>
          EndsAt(g', k + 2))
  }

  lemma {:induction false} SwitchValid(g: State, k: nat)
    requires Fresh(g.blocks, k)
    ensures Valid(SwitchTo(g, k))
  {
  }

  lemma {:induction false} SwitchOnly(g: State, k: nat, graph: Blocks)
    ensures SwitchTo(g, k).blocks == g.blocks && (Fresh(g.blocks, k) ==> EndsAt(SwitchTo(g, k), k))
  {
  }

  lemma {:induction false} ArmsShape(sc: Scope, g0: State, k: nat, g: State, e: Expr, t: Stmts, f: Stmts, graph: Blocks) returns (g4: State)
    requires Grown(g0, g) && g.terminated && |g0.blocks| <= k && Fresh(g.blocks, k) && Fresh(g.blocks, k + 1) && Fresh(g.blocks, k + 2)
    requires LowerArms(sc, k, g, e, t, f).Ok? && Within(LowerArms(sc, k, g, e, t, f).value.blocks, graph)
    ensures IfShape(sc, k, t, f, graph, g, g4, LowerArms(sc, k, g, e, t, f).value)
  {
    hide LowerElse, LowerStmts, FallTo, Grown, Within;
    var g3 := ArmGrows(sc, g0, g, k, t, k + 2);
    g4 := FallTo(g3, k + 2);
    SwitchValid(g, k);
    if f.Nil? {
      SwitchOnly(g4, k + 2, graph);
    } else {
      ElseShape(sc, g0, k, g3, f, graph);
    }
  }

  lemma {:induction false} ElseShape(sc: Scope, g0: State, k: nat, g: State, f: Stmts, graph: Blocks)
    requires var g4 := FallTo(g, k + 2);
             Grown(g0, g4) && g4.terminated && |g0.blocks| <= k && Fresh(g4.blocks, k + 1) && Fresh(g4.blocks, k + 2)
    requires LowerElse(sc, k, g, f).Ok? && Within(LowerElse(sc, k, g, f).value.blocks, graph)
    ensures var g4 := FallTo(g, k + 2);
            && Arm(sc, g4, k + 1, f, k + 2, graph) && Within(g4.blocks, graph)
            && (!g.terminated || !LowerStmts(sc, SwitchTo(g4, k + 1), f).value.terminated ==> EndsAt(LowerElse(sc, k, g, f).value, k + 2))
  {
    hide LowerStmts;
    var g4 := FallTo(g, k + 2);
    SwitchGrows(g0, g4, k + 1);
    var g5 := ArmGrows(sc, g0, g4, k + 1, f, k + 2);
    ArmWithin(sc, g4, k + 1, f, k + 2, graph);
  }

  lemma {:induction false} ArmsCorrect(te: TypeEnv, sc: Scope, c: CEnv, w: World, graph: Blocks, k: nat, e: Expr, t: Stmts, f: Stmts, inLoop: bool, fuel: nat, s: Mach, g2: State, g4: State, g': State, taken: bool)
    returns (n: nat)
    requires Agree(te, sc, c, w) && TypedStmts(te, t, inLoop) && TypedStmts(te, f, inLoop) && IfShape(sc, k, t, f, graph, g2, g4, g')
    requires inLoop ==> g2.loopBreak.Some? && g2.loopContinue.Some?
    ensures var start := if taken then k else if f.Cons? then k + 1 else k + 2;
            Follows(Steps(graph, w, n, Running(start, 0, s)), n, fuel, ExecStmts(c, fuel, if taken then t else f, s.mem, s.tr), g2, g')
    decreases fuel, If(e, t, f), 2
  {
    n := 0;
    var start := if taken then k else if f.Cons? then k + 1 else k + 2;
    if taken {
      n := ArmCorrect(te, sc, c, w, graph, g2, k, t, k + 2, inLoop, fuel, s);
    } else if f.Cons? {
      n := ArmCorrect(te, sc, c, w, graph, g4, k + 1, f, k + 2, inLoop, fuel, s);
    }
    ExitsFollow(Steps(graph, w, n, Running(start, 0, s)), n, fuel, ExecStmts(c, fuel, if taken then t else f, s.mem, s.tr), g2, g', k + 2);
  }

  lemma {:induction false} IfCorrect(te: TypeEnv, sc: Scope, c: CEnv, w: World, graph: Blocks, g: State, e: Expr, t: Stmts, f: Stmts, inLoop: bool, fuel: nat, s: Mach)
    returns (n: nat)
    requires Agree(te, sc, c, w) && TypedStmt(te, If(e, t, f), inLoop) && Valid(g) && !g.terminated
    requires inLoop ==> g.loopBreak.Some? && g.loopContinue.Some?
    requires LowerIf(sc, g, e, t, f).Ok? && Within(LowerIf(sc, g, e, t, f).value.blocks, graph)
    ensures Follows(Steps(graph, w, n, At(g, s)), n, fuel, ExecStmt(c, fuel, If(e, t, f), s.mem, s.tr), g, LowerIf(sc, g, e, t, f).value)
    decreases fuel, If(e, t, f), 3
  {
    hide LowerIfTest, LowerArms, IfShape, Rval, ExprCode, LowerStmts;
    var k := |g.blocks|;
    IfTestGrows(sc, g, e, f.Cons?);
    var g2 := LowerIfTest(sc, g, e, f.Cons?).value;
    var g' := LowerIf(sc, g, e, t, f).value;
    var g4 := ArmsShape(sc, g, k, g2, e, t, f, graph);
    ArmsWithin(sc, k, t, f, graph, g2, g4, g');
    IfTestHas(sc, g, e, f.Cons?, graph);
    var k1;
    n, k1 := RunBranch(te, sc, c, w, graph, g, e, k, if f.Cons? then k + 1 else k + 2, s);
    var r := Rval(c, e, s.mem, s.tr);
    if r.Val? {
      var n2 := ArmsCorrect(te, sc, c, w, graph, k, e, t, f, inLoop, fuel, k1.s, g2, g4, g', r.v != 0);
      FollowsLater(graph, w, At(g, s), n, n2, fuel, ExecStmts(c, fuel, if r.v != 0 then t else f, r.mem, r.tr), g2, g');
      n := n + n2;
    }
  }

  lemma {:induction false} ArmsWithin(sc: Scope, k: nat, t: Stmts, f: Stmts, graph: Blocks, g2: State, g4: State, g': State)
    requires IfShape(sc, k, t, f, graph, g2, g4, g')
    ensures Within(g2.blocks, graph)
  {
    ArmWithin(sc, g2, k, t, k + 2, graph);
  }

  lemma {:induction false} FollowsLater(graph: Blocks, w: World, start: Config, n1: nat, n2: nat, fuel: nat, o: Outcome, g: State, g': State)
    requires Follows(Steps(graph, w, n2, Steps(graph, w, n1, start)), n2, fuel, o, g, g')
    ensures Follows(Steps(graph, w, n1 + n2, start), n1 + n2, fuel, o, g, g')
  {
    StepsAdd(graph, w, n1, n2, start);
  }

  // ----- while -----

  /** What the graph contains of a `while` whose blocks start at `k`: the test from state `g1` at
      the head, the body from state `gb`. */
  ghost predicate WhileShape(sc: Scope, k: nat, e: Expr, b: Stmts, graph: Blocks, g1: State, gb: State) {
    && g1.current == k && Fresh(g1.blocks, k) && HasTest(sc, g1, e, k + 1, k + 2, graph)
    && Arm(sc, gb, k + 1, b, k, graph) && gb.loopBreak == Some(k + 2) && gb.loopContinue == Some(k)
  }

  /** From the head block of a `while`: the test, and the body if it holds. */
  lemma {:induction false} WhileLoopCorrect(te: TypeEnv, sc: Scope, c: CEnv, w: World, graph: Blocks, k: nat, e: Expr, b: Stmts, fuel: nat, s: Mach, g: State, g1: State, gb: State)
    returns (n: nat)
    requires Agree(te, sc, c, w) && Typed(te, e) && TypedStmts(te, b, true) && WhileShape(sc, k, e, b, graph, g1, gb)
    ensures Exits(Steps(graph, w, n, Running(k, 0, s)), n, fuel, ExecWhile(c, fuel, e, b, s.mem, s.tr), g, k + 2)
    decreases fuel, b, 3
  {
    hide Rval, Arm, Typed, TypedStmts, Agree, HasTest, ExecWhile, ExecWhileBody, Exits, Tested;
    n := 0;
    WhileUnfolds(c, fuel, e, b, s.mem, s.tr);
    if fuel == 0 {
      Exhausted(Running(k, 0, s), g, k + 2);
    } else {
      var k1;
      n, k1 := RunTest(te, sc, c, w, graph, g1, e, k + 1, k + 2, s);
      var r := Rval(c, e, s.mem, s.tr);
      if r.Val? && r.v != 0 {
        TestHolds(k1, r, k + 1, k + 2);
        var n2 := WhileIterationCorrect(te, sc, c, w, graph, k, e, b, fuel, k1.s, g, g1, gb);
        ExitsLater(graph, w, Running(k, 0, s), n, n2, fuel, ExecWhileBody(c, fuel, e, b, r.mem, r.tr), g, k + 2);
        n := n + n2;
      } else {
        TestEnds(k1, n, fuel, r, k + 1, k + 2, g);
      }
    }
  }

  lemma {:induction false} WhileUnfolds(c: CEnv, fuel: nat, e: Expr, b: Stmts, m: Memory, tr: Trace)
    ensures ExecWhile(c, fuel, e, b, m, tr) ==
            if fuel == 0 then OutOfFuel
            else
              var r := Rval(c, e, m, tr);
              if r.Val? && r.v != 0 then ExecWhileBody(c, fuel, e, b, r.mem, r.tr)
              else if r.Val? then Normal(r.mem, r.tr) else Failed(r)
  {
  }

  lemma {:induction false} Exhausted(k: Config, g: State, exit: nat)
    requires k.Running?
    ensures Exits(k, 0, 0, OutOfFuel, g, exit)
  {
  }

  /** From the body block of a `while`: the body, then the rest with less fuel. */
  lemma {:induction false} WhileIterationCorrect(te: TypeEnv, sc: Scope, c: CEnv, w: World, graph: Blocks, k: nat, e: Expr, b: Stmts, fuel: nat, s: Mach, g: State, g1: State, gb: State)
    returns (n: nat)
    requires fuel > 0
    requires Agree(te, sc, c, w) && Typed(te, e) && TypedStmts(te, b, true) && WhileShape(sc, k, e, b, graph, g1, gb)
    ensures Exits(Steps(graph, w, n, Running(k + 1, 0, s)), n, fuel, ExecWhileBody(c, fuel, e, b, s.mem, s.tr), g, k + 2)
    decreases fuel, b, 2
  {
    hide Arm, Typed, TypedStmts, Agree, HasTest, ExecWhile, ExecStmts, LowerStmts, Exits;
    n := ArmCorrect(te, sc, c, w, graph, gb, k + 1, b, k, true, fuel, s);
    var k1, o := Steps(graph, w, n, Running(k + 1, 0, s)), ExecStmts(c, fuel, b, s.mem, s.tr);
    if o.Normal? || o.Continued? {
      BodyGoesOn(k1, n, fuel, o, gb, k);
      var n2 := WhileLoopCorrect(te, sc, c, w, graph, k, e, b, fuel - 1, k1.s, g, g1, gb);
      ArmAdvances(graph, w, n, gb, k + 1, b, k, fuel, s, o);
      ExitsLater(graph, w, Running(k + 1, 0, s), n, n2, fuel - 1, ExecWhile(c, fuel - 1, e, b, o.mem, o.tr), g, k + 2);
      n := n + n2;
    } else {
      BodyEnds(k1, n, fuel, o, gb, k, g, k + 2);
    }
  }

  /** A run that has moved to another block has taken a step. */
  lemma {:induction false} ArmAdvances(graph: Blocks, w: World, n: nat, gb: State, k: nat, b: Stmts, target: nat, fuel: nat, s: Mach, o: Outcome)
    requires Exits(Steps(graph, w, n, Running(k, 0, s)), n, fuel, o, gb, target) && (o.Normal? || o.Continued?)
    requires target != k && gb.loopContinue == Some(target)
    ensures n > 0
  {
  }

  /** The configuration after a condition: at `t` or at `f`, or faulted. */
  ghost predicate Tested(k: Config, r: EvalResult, t: nat, f: nat) {
    match r
    case Val(x, m, tr) => Lands(k, if x != 0 then t else f, 0, m, tr)
    case Trap(tr) => k == Faulted(tr)
    case Wrong => false
  }

  lemma {:induction false} TestHolds(k: Config, r: EvalResult, t: nat, f: nat)
    requires Tested(k, r, t, f) && r.Val? && (r.v != 0 || t == f)
    ensures k == Running(t, 0, k.s) && k.s.mem == r.mem && k.s.tr == r.tr
  {
  }

  lemma {:induction false} TestEnds(k: Config, n: nat, fuel: nat, r: EvalResult, t: nat, f: nat, g: State)
    requires Tested(k, r, t, f) && (r.Val? ==> r.v == 0)
    ensures Exits(k, n, fuel, if r.Val? then Normal(r.mem, r.tr) else Failed(r), g, f)
  {
  }

  /** A loop body that control leaves through the exit of the loop, or for good. */
  lemma {:induction false} BodyEnds(k: Config, n: nat, fuel: nat, o: Outcome, gb: State, target: nat, g: State, exit: nat)
    requires Exits(k, n, fuel, o, gb, target) && !o.Normal? && !o.Continued? && gb.loopBreak == Some(exit)
    ensures Exits(k, n, fuel, if o.Broke? then Normal(o.mem, o.tr) else o, g, exit)
  {
  }

  /** A loop body that goes on to the next round. */
  lemma {:induction false} BodyGoesOn(k: Config, n: nat, fuel: nat, o: Outcome, gb: State, target: nat)
    requires Exits(k, n, fuel, o, gb, target) && (o.Normal? || o.Continued?) && gb.loopContinue == Some(target)
    ensures k == Running(target, 0, k.s) && k.s.mem == o.mem && k.s.tr == o.tr
  {
  }

  /** `RunBranch` from a test known to be in the graph. */
  lemma {:induction false} RunTest(te: TypeEnv, sc: Scope, c: CEnv, w: World, graph: Blocks, g: State, e: Expr, t: nat, f: nat, s: Mach)
    returns (n: nat, k: Config)
    requires Agree(te, sc, c, w) && Typed(te, e) && HasTest(sc, g, e, t, f, graph)
    ensures n > 0 && g.current < |g.blocks| && k == Steps(graph, w, n, At(g, s))
    ensures Tested(k, Rval(c, e, s.mem, s.tr), t, f)
  {
    n, k := RunBranch(te, sc, c, w, graph, g, e, t, f, s);
  }

  lemma {:induction false} EnterHas(g: State, count: nat, target: nat, graph: Blocks)
    requires g.current < |g.blocks| && !g.terminated && |g.blocks| <= target < |g.blocks| + count
    requires Within(EnterBlocks(g, count, target).blocks, graph)
    ensures Has(graph, g, [Jump(target)])
  {
    var g1 := EnterBlocks(g, count, target);
    assert g1.blocks[g.current] == g.blocks[g.current] + [Jump(target)];
    assert g1.blocks[g.current] <= graph[g.current];
  }

  /** Into a loop, whose run is known from the start of block `target`, and out of it. */
  lemma {:induction false} EnterThenLoop(graph: Blocks, w: World, g: State, count: nat, target: nat, n: nat, fuel: nat, o: Outcome, s: Mach, exit: nat, g': State)
    requires Valid(g) && !g.terminated && |g.blocks| <= target < |g.blocks| + count
    requires Within(EnterBlocks(g, count, target).blocks, graph) && EndsAt(g', exit)
    requires Exits(Steps(graph, w, n, Running(target, 0, s)), n, fuel, o, g, exit)
    ensures Follows(Steps(graph, w, 1 + n, At(g, s)), 1 + n, fuel, o, g, g')
  {
    hide EnterBlocks, Exits, Follows, EndsAt;
    EnterHas(g, count, target, graph);
    EnterGrows(g, count, target);
    RunOne(graph, w, g, Jump(target), s);
    ExitsLater(graph, w, At(g, s), 1, n, fuel, o, g, exit);
    ExitsFollow(Steps(graph, w, 1 + n, At(g, s)), 1 + n, fuel, o, g, g', exit);
  }

  lemma {:induction false} WhileBodyShape(sc: Scope, g: State, g2: State, b: Stmts, graph: Blocks)
    requires Grown(g, g2) && g2.terminated && |g2.blocks| == |g.blocks| + 3 && LowerWhileBody(sc, g, g2, b).Ok?
    requires Fresh(g2.blocks, |g.blocks| + 1) && Fresh(g2.blocks, |g.blocks| + 2)
    requires Within(LowerWhileBody(sc, g, g2, b).value.blocks, graph)
    ensures Arm(sc, InLoop(g2, |g.blocks| + 2, |g.blocks|), |g.blocks| + 1, b, |g.blocks|, graph) && Within(g2.blocks, graph)
    ensures EndsAt(LowerWhileBody(sc, g, g2, b).value, |g.blocks| + 2)
  {
    var k := |g.blocks|;
    var gb := InLoop(g2, k + 2, k);
    var g3 := ArmGrows(sc, g, gb, k + 1, b, k);
    SwitchGrows(g, gb, k + 1);
    ArmWithin(sc, gb, k + 1, b, k, graph);
  }

  lemma {:induction false} WhileHasShape(sc: Scope, g: State, e: Expr, b: Stmts, graph: Blocks) returns (gb: State)
    requires Valid(g) && !g.terminated && LowerWhile(sc, g, e, b).Ok? && Within(LowerWhile(sc, g, e, b).value.blocks, graph)
    ensures WhileShape(sc, |g.blocks|, e, b, graph, EnterBlocks(g, 3, |g.blocks|), gb)
    ensures EndsAt(LowerWhile(sc, g, e, b).value, |g.blocks| + 2) && Within(EnterBlocks(g, 3, |g.blocks|).blocks, graph)
  {
    hide EnterBlocks, EmitBranch, LowerWhileBody, HasTest, Arm, EndsAt, Within;
    var k := |g.blocks|;
    EnterGrows(g, 3, k);
    var g1 := EnterBlocks(g, 3, k);
    EmitBranchGrows(g, sc, g1, e, k + 1, k + 2);
    var g2 := EmitBranch(sc, g1, e, k + 1, k + 2).value;
    WhileBodyShape(sc, g, g2, b, graph);
    EmitBranchWithin(sc, g1, e, k + 1, k + 2, graph);
    gb := InLoop(g2, k + 2, k);
  }

  lemma {:induction false} WhileCorrect(te: TypeEnv, sc: Scope, c: CEnv, w: World, graph: Blocks, g: State, e: Expr, b: Stmts, fuel: nat, s: Mach)
    returns (n: nat)
    requires Agree(te, sc, c, w) && Typed(te, e) && TypedStmts(te, b, true) && Valid(g) && !g.terminated
    requires LowerWhile(sc, g, e, b).Ok? && Within(LowerWhile(sc, g, e, b).value.blocks, graph)
    ensures Follows(Steps(graph, w, n, At(g, s)), n, fuel, ExecWhile(c, fuel, e, b, s.mem, s.tr), g, LowerWhile(sc, g, e, b).value)
    decreases fuel, b, 4
  {
    hide EnterBlocks, LowerWhile, WhileShape, ExecWhile, Typed, TypedStmts, Agree, Exits, Follows, EndsAt, Within;
    var k := |g.blocks|;
    var gb := WhileHasShape(sc, g, e, b, graph);
    n := WhileLoopCorrect(te, sc, c, w, graph, k, e, b, fuel, s, g, EnterBlocks(g, 3, k), gb);
    EnterThenLoop(graph, w, g, 3, k, n, fuel, ExecWhile(c, fuel, e, b, s.mem, s.tr), s, k + 2, LowerWhile(sc, g, e, b).value);
    n := 1 + n;
  }

  lemma {:induction false} EmitBranchWithin(sc: Scope, g: State, e: Expr, t: nat, f: nat, graph: Blocks)
    requires Valid(g) && !g.terminated && EmitBranch(sc, g, e, t, f).Ok? && Within(EmitBranch(sc, g, e, t, f).value.blocks, graph)
    ensures HasTest(sc, g, e, t, f, graph) && Within(g.blocks, graph)
  {
    BranchHas(sc, g, e, t, f, graph);
    Reflexive(g);
    EmitBranchGrows(g, sc, g, e, t, f);
    WithinEarlier(g, EmitBranch(sc, g, e, t, f).value, graph);
  }

  // ----- for -----

  ghost predicate HasForTest(sc: Scope, g: State, e: Expr, t: nat, f: nat, graph: Blocks) {
    if e.NullExpr? then Has(graph, g, [Iconst(g.next, I32, 1), Brif(g.next, t, f)]) else HasTest(sc, g, e, t, f, graph)
  }

  ghost predicate HasPost(sc: Scope, g: State, post: Expr, head: nat, graph: Blocks) {
    if post.NullExpr? then Has(graph, g, [Jump(head)])
    else ExprCode(sc, post, g.next).Ok? && Has(graph, g, ExprCode(sc, post, g.next).value.insts + [Jump(head)])
  }

  lemma {:induction false} ForTestHas(sc: Scope, g: State, e: Expr, t: nat, f: nat, graph: Blocks)
    requires Valid(g) && !g.terminated && LowerForTest(sc, g, e, t, f).Ok? && Within(LowerForTest(sc, g, e, t, f).value.blocks, graph)
    ensures HasForTest(sc, g, e, t, f, graph) && Within(g.blocks, graph)
  {
    var g' := LowerForTest(sc, g, e, t, f).value;
    if e.NullExpr? {
      assert g'.blocks[g.current] == g.blocks[g.current] + [Iconst(g.next, I32, 1), Brif(g.next, t, f)];
      assert g'.blocks[g.current] <= graph[g.current];
    } else {
      BranchHas(sc, g, e, t, f, graph);
    }
    Reflexive(g);
    ForTestGrows(g, sc, g, e, t, f);
    WithinEarlier(g, g', graph);
  }

  lemma {:induction false} PostHas(sc: Scope, g: State, post: Expr, head: nat, graph: Blocks)
    requires Valid(g) && !g.terminated && LowerForPost(sc, g, post, head).Ok? && Within(LowerForPost(sc, g, post, head).value.blocks, graph)
    ensures HasPost(sc, g, post, head, graph) && Within(g.blocks, graph)
  {
    var g' := LowerForPost(sc, g, post, head).value;
    if !post.NullExpr? {
      assert g'.blocks[g.current] == g.blocks[g.current] + (ExprCode(sc, post, g.next).value.insts + [Jump(head)]);
    }
    assert g'.blocks[g.current] <= graph[g.current];
    Reflexive(g);
    ForPostGrows(g, sc, g, post, head);
    WithinEarlier(g, g', graph);
  }

  ghost predicate ForTyped(te: TypeEnv, sc: Scope, c: CEnv, w: World, e: Expr, post: Expr, b: Stmts) {
    && Agree(te, sc, c, w) && TypedStmts(te, b, true)
    && (e.NullExpr? || Typed(te, e)) && (post.NullExpr? || Typed(te, post))
  }

  lemma {:induction false} RunForTest(te: TypeEnv, sc: Scope, c: CEnv, w: World, graph: Blocks, g: State, e: Expr, post: Expr, b: Stmts, t: nat, f: nat, s: Mach)
    returns (n: nat, k: Config)
    requires ForTyped(te, sc, c, w, e, post, b) && HasForTest(sc, g, e, t, f, graph)
    ensures n > 0 && g.current < |g.blocks| && k == Steps(graph, w, n, At(g, s))
    ensures Tested(k, if e.NullExpr? then Val(1, s.mem, s.tr) else Rval(c, e, s.mem, s.tr), t, f)
  {
    if e.NullExpr? {
      var one, branch := Iconst(g.next, I32, 1), Brif(g.next, t, f);
      assert [one, branch] == [one] + [branch];
      HasPrefix(graph, g, [one], [branch]);
      RunOne(graph, w, g, one, s);
      var g1 := Emit(g, [one], g.next + 1);
      var s1 := SetReg(s, g.next, Encode(I32, 1));
      RunOne(graph, w, g1, branch, s1);
      n, k := 2, Steps(graph, w, 2, At(g, s));
      StepsAdd(graph, w, 1, 1, At(g, s));
    } else {
      n, k := RunBranch(te, sc, c, w, graph, g, e, t, f, s);
    }
  }

  lemma {:induction false} RunPost(te: TypeEnv, sc: Scope, c: CEnv, w: World, graph: Blocks, g: State, e: Expr, post: Expr, b: Stmts, head: nat, s: Mach)
    returns (n: nat, k: Config)
    requires ForTyped(te, sc, c, w, e, post, b) && HasPost(sc, g, post, head, graph)
    ensures n > 0 && g.current < |g.blocks| && k == Steps(graph, w, n, At(g, s))
    ensures Tested(k, if post.NullExpr? then Val(0, s.mem, s.tr) else Rval(c, post, s.mem, s.tr), head, head)
  {
    if post.NullExpr? {
      n, k := 1, Steps(graph, w, 1, At(g, s));
      RunOne(graph, w, g, Jump(head), s);
    } else {
      var s';
      n, k, s' := RunExprThen(te, sc, c, w, graph, g, post, Jump(head), s);
    }
  }

  /** What the graph contains of a `for` whose blocks start at `k`: the test from `g1`, the body
      from `gb`, the step from `gs`. */
  ghost predicate ForShape(sc: Scope, k: nat, e: Expr, post: Expr, b: Stmts, graph: Blocks, g1: State, gb: State, gs: State) {
    && g1.current == k && Fresh(g1.blocks, k) && HasForTest(sc, g1, e, k + 2, k + 3, graph)
    && Arm(sc, gb, k + 2, b, k + 1, graph) && gb.loopBreak == Some(k + 3) && gb.loopContinue == Some(k + 1)
    && gs.current == k + 1 && Fresh(gs.blocks, k + 1) && HasPost(sc, gs, post, k, graph)
  }

  lemma {:induction false} ArmFrom(sc: Scope, g: State, k: nat, b: Stmts, target: nat, g4: State, graph: Blocks)
    requires Valid(SwitchTo(g, k)) && Fresh(g.blocks, k) && LowerStmts(sc, SwitchTo(g, k), b).Ok?
    requires g4.blocks == FallTo(LowerStmts(sc, SwitchTo(g, k), b).value, target).blocks && Within(g4.blocks, graph)
    ensures Arm(sc, g, k, b, target, graph)
  {
  }

  /** The state after the body of a `for`, from which the step is lowered. */
  lemma {:induction false} ForBodyLeft(sc: Scope, g: State, g2: State, b: Stmts) returns (g4: State)
    requires Grown(g, g2) && g2.terminated && |g2.blocks| == |g.blocks| + 4
    requires Fresh(g2.blocks, |g.blocks| + 1) && Fresh(g2.blocks, |g.blocks| + 2) && Fresh(g2.blocks, |g.blocks| + 3)
    requires LowerStmts(sc, SwitchTo(InLoop(g2, |g.blocks| + 3, |g.blocks| + 1), |g.blocks| + 2), b).Ok?
    ensures var g3 := LowerStmts(sc, SwitchTo(InLoop(g2, |g.blocks| + 3, |g.blocks| + 1), |g.blocks| + 2), b).value;
            g4 == LeaveBody(g3, |g.blocks| + 1, g) && g4.blocks == FallTo(g3, |g.blocks| + 1).blocks
    ensures Grown(g, g4) && g4.terminated && Fresh(g4.blocks, |g.blocks| + 1) && Fresh(g4.blocks, |g.blocks| + 3)
  {
    hide LowerStmts;
    var k := |g.blocks|;
    var g3 := ArmGrows(sc, g, InLoop(g2, k + 3, k + 1), k + 2, b, k + 1);
    g4 := LeaveBody(g3, k + 1, g);
  }

  lemma {:induction false} ForBodyShape(sc: Scope, g: State, g2: State, post: Expr, b: Stmts, graph: Blocks) returns (gs: State)
    requires Grown(g, g2) && g2.terminated && |g2.blocks| == |g.blocks| + 4 && LowerForBody(sc, g, g2, post, b).Ok?
    requires Fresh(g2.blocks, |g.blocks| + 1) && Fresh(g2.blocks, |g.blocks| + 2) && Fresh(g2.blocks, |g.blocks| + 3)
    requires Within(LowerForBody(sc, g, g2, post, b).value.blocks, graph)
    ensures Arm(sc, InLoop(g2, |g.blocks| + 3, |g.blocks| + 1), |g.blocks| + 2, b, |g.blocks| + 1, graph) && Within(g2.blocks, graph)
    ensures gs.current == |g.blocks| + 1 && Fresh(gs.blocks, gs.current) && HasPost(sc, gs, post, |g.blocks|, graph)
    ensures EndsAt(LowerForBody(sc, g, g2, post, b).value, |g.blocks| + 3)
  {
    hide LowerForStep, HasPost, LowerStmts, LeaveBody, Grown, Arm;
    var k := |g.blocks|;
    var gb := InLoop(g2, k + 3, k + 1);
    var g4 := ForBodyLeft(sc, g, g2, b);
    assert LowerForBody(sc, g, g2, post, b) == LowerForStep(sc, g4, k, post);
    gs := ForStepHas(sc, g, g4, k, post, graph);
    SwitchValid(gb, k + 2);
    ArmFrom(sc, gb, k + 2, b, k + 1, g4, graph);
    ArmWithin(sc, gb, k + 2, b, k + 1, graph);
  }

  lemma {:induction false} ForStepHas(sc: Scope, g0: State, g: State, k: nat, post: Expr, graph: Blocks) returns (gs: State)
    requires Grown(g0, g) && g.terminated && |g0.blocks| <= k && Fresh(g.blocks, k + 1) && Fresh(g.blocks, k + 3)
    requires LowerForStep(sc, g, k, post).Ok? && Within(LowerForStep(sc, g, k, post).value.blocks, graph)
    ensures gs.current == k + 1 && Fresh(gs.blocks, k + 1) && HasPost(sc, gs, post, k, graph) && Within(g.blocks, graph)
    ensures EndsAt(LowerForStep(sc, g, k, post).value, k + 3)
  {
    hide LowerForPost, HasPost;
    gs := SwitchTo(g, k + 1);
    SwitchGrows(g0, g, k + 1);
    PostHas(sc, gs, post, k, graph);
    ForPostGrows(g0, sc, gs, post, k);
  }

  /** From the head block of a `for`: the test, and the body if it holds. */
  lemma {:induction false} ForLoopCorrect(te: TypeEnv, sc: Scope, c: CEnv, w: World, graph: Blocks, k: nat, e: Expr, post: Expr, b: Stmts, fuel: nat, s: Mach, g: State, g1: State, gb: State, gs: State)
    returns (n: nat)
    requires ForTyped(te, sc, c, w, e, post, b)
    requires ForShape(sc, k, e, post, b, graph, g1, gb, gs)
    ensures Exits(Steps(graph, w, n, Running(k, 0, s)), n, fuel, ExecFor(c, fuel, e, post, b, s.mem, s.tr), g, k + 3)
    decreases fuel, b, 4
  {
    hide Rval, Arm, ForTyped, HasForTest, HasPost, ExecFor, ExecForBody, Exits, Tested;
    n := 0;
    ForUnfolds(c, fuel, e, post, b, s.mem, s.tr);
    if fuel == 0 {
      Exhausted(Running(k, 0, s), g, k + 3);
    } else {
      var k1;
      n, k1 := RunForTest(te, sc, c, w, graph, g1, e, post, b, k + 2, k + 3, s);
      var r := if e.NullExpr? then Val(1, s.mem, s.tr) else Rval(c, e, s.mem, s.tr);
      if r.Val? && r.v != 0 {
        TestHolds(k1, r, k + 2, k + 3);
        var n2 := ForIterationCorrect(te, sc, c, w, graph, k, e, post, b, fuel, k1.s, g, g1, gb, gs);
        ExitsLater(graph, w, Running(k, 0, s), n, n2, fuel, ExecForBody(c, fuel, e, post, b, r.mem, r.tr), g, k + 3);
        n := n + n2;
      } else {
        TestEnds(k1, n, fuel, r, k + 2, k + 3, g);
      }
    }
  }

  /** From the body block of a `for`: the body, and the step after it. */
  lemma {:induction false} ForIterationCorrect(te: TypeEnv, sc: Scope, c: CEnv, w: World, graph: Blocks, k: nat, e: Expr, post: Expr, b: Stmts, fuel: nat, s: Mach, g: State, g1: State, gb: State, gs: State)
    returns (n: nat)
    requires fuel > 0
    requires ForTyped(te, sc, c, w, e, post, b)
    requires ForShape(sc, k, e, post, b, graph, g1, gb, gs)
    ensures Exits(Steps(graph, w, n, Running(k + 2, 0, s)), n, fuel, ExecForBody(c, fuel, e, post, b, s.mem, s.tr), g, k + 3)
    decreases fuel, b, 3
  {
    hide Arm, TypedStmts, Agree, HasForTest, HasPost, ExecPost, ExecStmts, LowerStmts, Exits;
    n := ArmCorrect(te, sc, c, w, graph, gb, k + 2, b, k + 1, true, fuel, s);
    var k1, o := Steps(graph, w, n, Running(k + 2, 0, s)), ExecStmts(c, fuel, b, s.mem, s.tr);
    if o.Normal? || o.Continued? {
      BodyGoesOn(k1, n, fuel, o, gb, k + 1);
      var n2 := ForPostCorrect(te, sc, c, w, graph, k, e, post, b, fuel, k1.s, g, g1, gb, gs);
      ExitsLater(graph, w, Running(k + 2, 0, s), n, n2, fuel, ExecPost(c, fuel, e, post, b, o.mem, o.tr), g, k + 3);
      n := n + n2;
    } else {
      BodyEnds(k1, n, fuel, o, gb, k + 1, g, k + 3);
    }
  }

  lemma {:induction false} ForUnfolds(c: CEnv, fuel: nat, e: Expr, post: Expr, b: Stmts, m: Memory, tr: Trace)
    ensures ExecFor(c, fuel, e, post, b, m, tr) ==
            if fuel == 0 then OutOfFuel
            else
              var r := if e.NullExpr? then Val(1, m, tr) else Rval(c, e, m, tr);
              if r.Val? && r.v != 0 then ExecForBody(c, fuel, e, post, b, r.mem, r.tr)
              else if r.Val? then Normal(r.mem, r.tr) else Failed(r)
  {
  }

  lemma {:induction false} PostUnfolds(c: CEnv, fuel: nat, e: Expr, post: Expr, b: Stmts, m: Memory, tr: Trace)
    requires fuel > 0
    ensures ExecPost(c, fuel, e, post, b, m, tr) ==
            var r := if post.NullExpr? then Val(0, m, tr) else Rval(c, post, m, tr);
            if r.Val? then ExecFor(c, fuel - 1, e, post, b, r.mem, r.tr) else Failed(r)
  {
  }

  lemma {:induction false} PostFails(k: Config, n: nat, fuel: nat, r: EvalResult, head: nat, g: State, exit: nat)
    requires Tested(k, r, head, head) && !r.Val?
    ensures Exits(k, n, fuel, Failed(r), g, exit)
  {
  }

  /** From the step block of a `for`: the step, then the rest with less fuel. */
  lemma {:induction false} ForPostCorrect(te: TypeEnv, sc: Scope, c: CEnv, w: World, graph: Blocks, k: nat, e: Expr, post: Expr, b: Stmts, fuel: nat, s: Mach, g: State, g1: State, gb: State, gs: State)
    returns (n: nat)
    requires fuel > 0
    requires ForTyped(te, sc, c, w, e, post, b)
    requires ForShape(sc, k, e, post, b, graph, g1, gb, gs)
    ensures Exits(Steps(graph, w, n, Running(k + 1, 0, s)), n, fuel, ExecPost(c, fuel, e, post, b, s.mem, s.tr), g, k + 3)
    decreases fuel, b, 2
  {
    hide Rval, Arm, ForTyped, HasForTest, HasPost, ExecFor, ExecPost, Exits, Tested;
    PostUnfolds(c, fuel, e, post, b, s.mem, s.tr);
    var k1;
    n, k1 := RunPost(te, sc, c, w, graph, gs, e, post, b, k, s);
    var r := if post.NullExpr? then Val(0, s.mem, s.tr) else Rval(c, post, s.mem, s.tr);
    if r.Val? {
      TestHolds(k1, r, k, k);
      var n2 := ForLoopCorrect(te, sc, c, w, graph, k, e, post, b, fuel - 1, k1.s, g, g1, gb, gs);
      ExitsLater(graph, w, Running(k + 1, 0, s), n, n2, fuel - 1, ExecFor(c, fuel - 1, e, post, b, r.mem, r.tr), g, k + 3);
      n := n + n2;
    } else {
      PostFails(k1, n, fuel, r, k, g, k + 3);
    }
  }

  lemma {:induction false} ForHasShape(sc: Scope, g: State, e: Expr, post: Expr, b: Stmts, graph: Blocks) returns (gb: State, gs: State)
    requires Valid(g) && !g.terminated && LowerForLoop(sc, g, e, post, b).Ok? && Within(LowerForLoop(sc, g, e, post, b).value.blocks, graph)
    ensures ForShape(sc, |g.blocks|, e, post, b, graph, EnterBlocks(g, 4, |g.blocks|), gb, gs)
    ensures EndsAt(LowerForLoop(sc, g, e, post, b).value, |g.blocks| + 3) && Within(EnterBlocks(g, 4, |g.blocks|).blocks, graph)
  {
    hide EnterBlocks, LowerForTest, LowerForBody, HasForTest, HasPost, Arm, EndsAt, Within, Grown;
    var k := |g.blocks|;
    EnterGrows(g, 4, k);
    var g1 := EnterBlocks(g, 4, k);
    GrownValid(g, g1);
    ForTestGrows(g, sc, g1, e, k + 2, k + 3);
    var g2 := LowerForTest(sc, g1, e, k + 2, k + 3).value;
    gs := ForBodyShape(sc, g, g2, post, b, graph);
    ForTestHas(sc, g1, e, k + 2, k + 3, graph);
    gb := InLoop(g2, k + 3, k + 1);
  }

  lemma {:induction false} ForEnterCorrect(te: TypeEnv, sc: Scope, c: CEnv, w: World, graph: Blocks, g: State, e: Expr, post: Expr, b: Stmts, fuel: nat, s: Mach)
    returns (n: nat)
    requires ForTyped(te, sc, c, w, e, post, b)
    requires Valid(g) && !g.terminated
    requires LowerForLoop(sc, g, e, post, b).Ok? && Within(LowerForLoop(sc, g, e, post, b).value.blocks, graph)
    ensures Follows(Steps(graph, w, n, At(g, s)), n, fuel, ExecFor(c, fuel, e, post, b, s.mem, s.tr), g, LowerForLoop(sc, g, e, post, b).value)
    decreases fuel, b, 5
  {
    hide EnterBlocks, LowerForLoop, ForShape, ExecFor, ForTyped, Exits, Follows, EndsAt, Within;
    var k := |g.blocks|;
    var gb, gs := ForHasShape(sc, g, e, post, b, graph);
    n := ForLoopCorrect(te, sc, c, w, graph, k, e, post, b, fuel, s, g, EnterBlocks(g, 4, k), gb, gs);
    EnterThenLoop(graph, w, g, 4, k, n, fuel, ExecFor(c, fuel, e, post, b, s.mem, s.tr), s, k + 3, LowerForLoop(sc, g, e, post, b).value);
    n := 1 + n;
  }

  lemma {:induction false} ForCorrect(te: TypeEnv, sc: Scope, c: CEnv, w: World, graph: Blocks, g: State, first: Stmts, e: Expr, post: Expr, b: Stmts, inLoop: bool, fuel: nat, s: Mach)
    returns (n: nat)
    requires Agree(te, sc, c, w) && TypedStmt(te, For(first, e, post, b), inLoop) && Valid(g) && !g.terminated
    requires inLoop ==> g.loopBreak.Some? && g.loopContinue.Some?
    requires LowerStmt(sc, g, For(first, e, post, b)).Ok? && Within(LowerStmt(sc, g, For(first, e, post, b)).value.blocks, graph)
    ensures Follows(Steps(graph, w, n, At(g, s)), n, fuel, ExecStmt(c, fuel, For(first, e, post, b), s.mem, s.tr), g, LowerStmt(sc, g, For(first, e, post, b)).value)
    decreases fuel, For(first, e, post, b), 3
  {
    hide LowerForLoop, LowerStmts, ExecStmts, ExecFor, Typed, Agree;
    var g0 := LowerStmts(sc, g, first).value;
    var g' := LowerForLoop(sc, g0, e, post, b).value;
    LowerStmtsGrows(sc, g, first);
    ForGrows(sc, g0, e, post, b);
    WithinEarlier(g0, g', graph);
    n := StmtsCorrect(te, sc, c, w, graph, g, first, inLoop, fuel, s);
    var o := ExecStmts(c, fuel, first, s.mem, s.tr);
    var n1, n2, k := n, 0, Steps(graph, w, n, At(g, s));
    if o.Normal? {
      n2 := ForEnterCorrect(te, sc, c, w, graph, g0, e, post, b, fuel, k.s);
      n := n1 + n2;
    }
    Chain(graph, w, At(g, s), n1, n2, fuel, o, ExecStmt(c, fuel, For(first, e, post, b), s.mem, s.tr), g, g0, g');
  }

  // ----- do -----

  /** What the graph contains of a `do` whose blocks start at `k`: the body from `gb`, the test
      from `gs`. */
  ghost predicate DoShape(sc: Scope, k: nat, b: Stmts, e: Expr, graph: Blocks, gb: State, gs: State) {
    && Arm(sc, gb, k, b, k + 1, graph) && gb.loopBreak == Some(k + 2) && gb.loopContinue == Some(k + 1)
    && gs.current == k + 1 && Fresh(gs.blocks, k + 1) && HasTest(sc, gs, e, k, k + 2, graph)
  }

  lemma {:induction false} DoBodyShape(sc: Scope, g: State, g1: State, b: Stmts, e: Expr, graph: Blocks) returns (gs: State)
    requires Grown(g, g1) && !g1.terminated && |g1.blocks| == |g.blocks| + 3 && g1.current == |g.blocks|
    requires Fresh(g1.blocks, |g.blocks|) && Fresh(g1.blocks, |g.blocks| + 1) && Fresh(g1.blocks, |g.blocks| + 2)
    requires LowerDoBody(sc, g, g1, b, e).Ok? && Within(LowerDoBody(sc, g, g1, b, e).value.blocks, graph)
    ensures DoShape(sc, |g.blocks|, b, e, graph, InLoop(g1, |g.blocks| + 2, |g.blocks| + 1), gs) && Within(g1.blocks, graph)
    ensures EndsAt(LowerDoBody(sc, g, g1, b, e).value, |g.blocks| + 2)
  {
    hide LowerDoTest, HasTest, LowerStmts, LeaveBody, Grown;
    var k := |g.blocks|;
    var gb := InLoop(g1, k + 2, k + 1);
    assert SwitchTo(gb, k) == gb;
    var g4 := DoBodyLeft(sc, g, g1, b);
    assert LowerDoBody(sc, g, g1, b, e) == LowerDoTest(sc, g4, k, e);
    gs := DoTestHas(sc, g, g4, k, e, graph);
    GrownValid(g, g1);
    ArmWithin(sc, gb, k, b, k + 1, graph);
  }

  lemma {:induction false} GrownValid(g: State, g1: State)
    requires Grown(g, g1)
    ensures Valid(g1)
  {
  }

  /** The state after the body of a `do`, from which the test is lowered. */
  lemma {:induction false} DoBodyLeft(sc: Scope, g: State, g1: State, b: Stmts) returns (g4: State)
    requires Grown(g, g1) && !g1.terminated && |g1.blocks| == |g.blocks| + 3 && g1.current == |g.blocks|
    requires Fresh(g1.blocks, |g.blocks| + 1) && Fresh(g1.blocks, |g.blocks| + 2)
    requires LowerStmts(sc, InLoop(g1, |g.blocks| + 2, |g.blocks| + 1), b).Ok?
    ensures var g2 := LowerStmts(sc, InLoop(g1, |g.blocks| + 2, |g.blocks| + 1), b).value;
            g4 == LeaveBody(g2, |g.blocks| + 1, g) && g4.blocks == FallTo(g2, |g.blocks| + 1).blocks
    ensures Grown(g, g4) && g4.terminated && Fresh(g4.blocks, |g.blocks| + 1) && Fresh(g4.blocks, |g.blocks| + 2)
  {
    hide LowerStmts;
    var k := |g.blocks|;
    var gb := InLoop(g1, k + 2, k + 1);
    LowerStmtsGrows(sc, gb, b);
    var g2 := LowerStmts(sc, gb, b).value;
    GrownTransitive(g, gb, g2);
    FallToGrows(g, g2, k + 1);
    g4 := LeaveBody(g2, k + 1, g);
  }

  lemma {:induction false} DoTestHas(sc: Scope, g0: State, g: State, k: nat, e: Expr, graph: Blocks) returns (gs: State)
    requires Grown(g0, g) && g.terminated && |g0.blocks| <= k && Fresh(g.blocks, k + 1) && Fresh(g.blocks, k + 2)
    requires LowerDoTest(sc, g, k, e).Ok? && Within(LowerDoTest(sc, g, k, e).value.blocks, graph)
    ensures gs.current == k + 1 && Fresh(gs.blocks, k + 1) && HasTest(sc, gs, e, k, k + 2, graph) && Within(g.blocks, graph)
    ensures EndsAt(LowerDoTest(sc, g, k, e).value, k + 2)
  {
    hide EmitBranch, HasTest;
    gs := SwitchTo(g, k + 1);
    SwitchGrows(g0, g, k + 1);
    EmitBranchWithin(sc, gs, e, k, k + 2, graph);
    EmitBranchGrows(g0, sc, gs, e, k, k + 2);
  }

  /** From the body block of a `do`: body, test, then the rest with less fuel. */
  lemma {:induction false} DoLoopCorrect(te: TypeEnv, sc: Scope, c: CEnv, w: World, graph: Blocks, k: nat, b: Stmts, e: Expr, fuel: nat, s: Mach, g: State, gb: State, gs: State)
    returns (n: nat)
    requires Agree(te, sc, c, w) && Typed(te, e) && TypedStmts(te, b, true) && DoShape(sc, k, b, e, graph, gb, gs)
    ensures Exits(Steps(graph, w, n, Running(k, 0, s)), n, fuel, ExecDo(c, fuel, b, e, s.mem, s.tr), g, k + 2)
    decreases fuel, b, 3
  {
    hide Rval, LowerStmts, Arm, ExecStmts, Typed, TypedStmts, Agree, HasTest, ExecDo, ExecDoTest, Exits;
    n := 0;
    DoUnfolds(c, fuel, b, e, s.mem, s.tr);
    if fuel == 0 {
      Exhausted(Running(k, 0, s), g, k + 2);
    } else {
      n := ArmCorrect(te, sc, c, w, graph, gb, k, b, k + 1, true, fuel, s);
      var k1, o := Steps(graph, w, n, Running(k, 0, s)), ExecStmts(c, fuel, b, s.mem, s.tr);
      if o.Normal? || o.Continued? {
        BodyGoesOn(k1, n, fuel, o, gb, k + 1);
        var n2 := DoTestCorrect(te, sc, c, w, graph, k, b, e, fuel, k1.s, g, gb, gs);
        ExitsLater(graph, w, Running(k, 0, s), n, n2, fuel, ExecDoTest(c, fuel, b, e, o.mem, o.tr), g, k + 2);
        n := n + n2;
      } else {
        BodyEnds(k1, n, fuel, o, gb, k + 1, g, k + 2);
      }
    }
  }

  lemma {:induction false} DoUnfolds(c: CEnv, fuel: nat, b: Stmts, e: Expr, m: Memory, tr: Trace)
    ensures ExecDo(c, fuel, b, e, m, tr) ==
            if fuel == 0 then OutOfFuel
            else
              var o := ExecStmts(c, fuel, b, m, tr);
              if o.Normal? || o.Continued? then ExecDoTest(c, fuel, b, e, o.mem, o.tr)
              else if o.Broke? then Normal(o.mem, o.tr) else o
  {
  }

  lemma {:induction false} DoTestUnfolds(c: CEnv, fuel: nat, b: Stmts, e: Expr, m: Memory, tr: Trace)
    requires fuel > 0
    ensures ExecDoTest(c, fuel, b, e, m, tr) ==
            var r := Rval(c, e, m, tr);
            if r.Val? && r.v != 0 then ExecDo(c, fuel - 1, b, e, r.mem, r.tr)
            else if r.Val? then Normal(r.mem, r.tr) else Failed(r)
  {
  }

  lemma {:induction false} DoTestCorrect(te: TypeEnv, sc: Scope, c: CEnv, w: World, graph: Blocks, k: nat, b: Stmts, e: Expr, fuel: nat, s: Mach, g: State, gb: State, gs: State)
    returns (n: nat)
    requires fuel > 0
    requires Agree(te, sc, c, w) && Typed(te, e) && TypedStmts(te, b, true) && DoShape(sc, k, b, e, graph, gb, gs)
    ensures Exits(Steps(graph, w, n, Running(k + 1, 0, s)), n, fuel, ExecDoTest(c, fuel, b, e, s.mem, s.tr), g, k + 2)
    decreases fuel, b, 2
  {
    hide Rval, Arm, Typed, TypedStmts, Agree, ExecDo, ExecDoTest, HasTest, Exits, Tested;
    DoTestUnfolds(c, fuel, b, e, s.mem, s.tr);
    var k1;
    n, k1 := RunTest(te, sc, c, w, graph, gs, e, k, k + 2, s);
    var r := Rval(c, e, s.mem, s.tr);
    if r.Val? && r.v != 0 {
      TestHolds(k1, r, k, k + 2);
      var n2 := DoLoopCorrect(te, sc, c, w, graph, k, b, e, fuel - 1, k1.s, g, gb, gs);
      ExitsLater(graph, w, Running(k + 1, 0, s), n, n2, fuel - 1, ExecDo(c, fuel - 1, b, e, r.mem, r.tr), g, k + 2);
      n := n + n2;
    } else {
      TestEnds(k1, n, fuel, r, k, k + 2, g);
    }
  }

  lemma {:induction false} DoCorrect(te: TypeEnv, sc: Scope, c: CEnv, w: World, graph: Blocks, g: State, b: Stmts, e: Expr, fuel: nat, s: Mach)
    returns (n: nat)
    requires Agree(te, sc, c, w) && Typed(te, e) && TypedStmts(te, b, true) && Valid(g) && !g.terminated
    requires LowerDo(sc, g, b, e).Ok? && Within(LowerDo(sc, g, b, e).value.blocks, graph)
    ensures Follows(Steps(graph, w, n, At(g, s)), n, fuel, ExecDo(c, fuel, b, e, s.mem, s.tr), g, LowerDo(sc, g, b, e).value)
    decreases fuel, b, 4
  {
    hide EnterBlocks, LowerDoBody, ExecDo, DoShape, Typed, TypedStmts, Agree, Exits, Follows, EndsAt, Within;
    var k := |g.blocks|;
    EnterGrows(g, 3, k);
    var g1 := EnterBlocks(g, 3, k);
    var gs := DoBodyShape(sc, g, g1, b, e, graph);
    n := DoLoopCorrect(te, sc, c, w, graph, k, b, e, fuel, s, g, InLoop(g1, k + 2, k + 1), gs);
    EnterThenLoop(graph, w, g, 3, k, n, fuel, ExecDo(c, fuel, b, e, s.mem, s.tr), s, k + 2, LowerDo(sc, g, b, e).value);
    n := 1 + n;
  }
}
