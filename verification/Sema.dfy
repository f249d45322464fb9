/** The check between parsing and code generation: every required node of the syntax tree is
    present. What it accepts cannot make the code generator follow a null pointer, except through
    the three kinds of names that it does not look at: those of parameters, of declarations and of
    called functions. */
module Sema {
  import opened Results
  import opened CTypes
  import opened Ast
  import opened SlotTable
  import opened SlotTableCorrect
  import opened DeadCode
  import opened Lowering
  import opened WellTyped

  // ----- what is checked -----

  /** All nodes of an expression, missing ones included. */
  function Nodes(e: Expr): set<Expr>
    decreases e
  {
    match e
    case Binop(_, _, l, r) => {e} + Nodes(l) + Nodes(r)
    case Unop(_, _, x) => {e} + Nodes(x)
    case Call(_, _, args) => {e} + AllNodes(args)
    case AddrOf(_, x) => {e} + Nodes(x)
    case Deref(_, x) => {e} + Nodes(x)
    case Index(_, b, i) => {e} + Nodes(b) + Nodes(i)
    case Member(_, b, _, _) => {e} + Nodes(b)
    case _ => {e}
  }

  function AllNodes(es: seq<Expr>): set<Expr>
    decreases es
  {
    if es == [] then {} else Nodes(es[0]) + AllNodes(es[1..])
  }

  /** A node that is there and has the name it needs. */
  predicate NodePresent(e: Expr) {
    match e
    case NullExpr => false
    case StringLit(_, s) => s.Str?
    case Var(_, x) => x.Str?
    case Member(_, _, f, _) => f.Str?
    case _ => true
  }

  ghost predicate Present(nodes: set<Expr>) {
    forall d :: d in nodes ==> NodePresent(d)
  }

  function OptionalNodes(e: Expr): set<Expr> {
    if e.NullExpr? then {} else Nodes(e)
  }

  /** All expression nodes of a statement chain at any depth; an initialiser and the clauses of a
      `for` may be missing. */
  function StmtsNodes(s: Stmts): set<Expr> {
    match s
    case Nil => {}
    case Cons(h, next) => StmtNodes(h) + StmtsNodes(next)
  }

  function StmtNodes(s: Stmt): set<Expr> {
    match s
    case Return(e) => Nodes(e)
    case Eval(e) => Nodes(e)
    case Decl(_, _, e) => OptionalNodes(e)
    case Block(b) => StmtsNodes(b)
    case If(e, t, f) => Nodes(e) + StmtsNodes(t) + StmtsNodes(f)
    case While(e, b) => Nodes(e) + StmtsNodes(b)
    case For(first, e, post, b) => StmtsNodes(first) + OptionalNodes(e) + OptionalNodes(post) + StmtsNodes(b)
    case Do(b, e) => StmtsNodes(b) + Nodes(e)
    case _ => {}
  }

  // ----- the checker -----

  method VerifyExpr(e: Expr) returns (ok: bool)
    ensures ok <==> Present(Nodes(e))
    decreases e
  {
    match e {
      case NullExpr => ok := false; assert e in Nodes(e);
      case IntLit(_, _) => ok := true;
      case StringLit(_, s) => ok := s != Null; assert e in Nodes(e);
      case Var(_, x) => ok := x != Null; assert e in Nodes(e);
      case Binop(_, _, l, r) =>
        ok := VerifyExpr(l);
        if ok { ok := VerifyExpr(r); }
      case Unop(_, _, x) => ok := VerifyExpr(x);
      case Call(_, _, args) =>
        var i := 0;
        while i < |args|
          invariant 0 <= i <= |args| && Present(AllNodes(args[..i]))
        {
          AllNodesSplit(args, i);
          assert args[i] in args;
          var good := VerifyExpr(args[i]);
          if !good { return false; }
          i := i + 1;
        }
        assert args[..i] == args;
        ok := true;
      case AddrOf(_, x) => ok := VerifyExpr(x);
      case Deref(_, x) => ok := VerifyExpr(x);
      case Index(_, b, i) =>
        ok := VerifyExpr(b);
        if ok { ok := VerifyExpr(i); }
      case Member(_, b, f, _) =>
        ok := VerifyExpr(b);
        ok := ok && f != Null;
        assert e in Nodes(e);
    }
  }

  lemma {:induction false} AllNodesAppend(a: seq<Expr>, b: seq<Expr>)
    ensures AllNodes(a + b) == AllNodes(a) + AllNodes(b)
    decreases a
  {
    if a == [] {
      assert a + b == b;
    } else {
      assert (a + b)[0] == a[0] && (a + b)[1..] == a[1..] + b;
      AllNodesAppend(a[1..], b);
    }
  }

  lemma {:induction false} AllNodesSplit(args: seq<Expr>, i: nat)
    requires i < |args|
    ensures AllNodes(args[..i + 1]) == AllNodes(args[..i]) + Nodes(args[i])
    ensures AllNodes(args[..i + 1]) <= AllNodes(args)
  {
    AllNodesAppend(args[..i], [args[i]]);
    assert args[..i + 1] == args[..i] + [args[i]];
    assert AllNodes([args[i]]) == Nodes(args[i]) + AllNodes([]);
    AllNodesAppend(args[..i + 1], args[i + 1..]);
    assert args == args[..i + 1] + args[i + 1..];
  }

  /** Walks the chain and stops at the first bad statement. */
  method VerifyStmts(s: Stmts) returns (ok: bool)
    ensures ok <==> Present(StmtsNodes(s))
    decreases s, 0
  {
    var rest := s;
    while rest.Cons?
      invariant Present(StmtsNodes(s)) <==> Present(StmtsNodes(rest))
      invariant rest == s || rest < s
      decreases rest
    {
      var good := VerifyStmt(rest.head);
      if !good { return false; }
      rest := rest.next;
    }
    return true;
  }

  method VerifyStmt(s: Stmt) returns (ok: bool)
    ensures ok <==> Present(StmtNodes(s))
    decreases s, 1
  {
    match s {
      case Return(e) => ok := VerifyExpr(e);
      case Eval(e) => ok := VerifyExpr(e);
      case Decl(_, _, e) =>
        ok := true;
        if e != NullExpr { ok := VerifyExpr(e); }
      case Block(b) => ok := VerifyStmts(b);
      case If(e, t, f) =>
        ok := VerifyExpr(e);
        if !ok { return; }
        ok := VerifyStmts(t);
        if !ok { return; }
        if f != Nil { ok := VerifyStmts(f); }
      case While(e, b) =>
        ok := VerifyExpr(e);
        if !ok { return; }
        ok := VerifyStmts(b);
      case For(first, e, post, b) =>
        if first != Nil { ok := VerifyStmts(first); if !ok { return; } }
        if e != NullExpr { ok := VerifyExpr(e); if !ok { return; } }
        if post != NullExpr { ok := VerifyExpr(post); if !ok { return; } }
        ok := VerifyStmts(b);
      case Do(b, e) =>
        ok := VerifyStmts(b);
        if !ok { return; }
        ok := VerifyExpr(e);
      case Break => ok := true;
      case Continue => ok := true;
    }
  }

  ghost predicate Accepted(f: Func) {
    Present(StmtsNodes(f.body))
  }

  /** 0 if every function passes, 1 otherwise. */
  method SemaCheck(funcs: seq<Func>) returns (code: int)
    ensures code == 0 || code == 1
    ensures code == 0 <==> forall i :: 0 <= i < |funcs| ==> Accepted(funcs[i])
  {
    var i := 0;
    while i < |funcs|
      invariant 0 <= i <= |funcs| && forall j :: 0 <= j < i ==> Accepted(funcs[j])
    {
      var good := VerifyStmts(funcs[i].body);
      if !good { return 1; }
      i := i + 1;
    }
    return 0;
  }

  // ----- the names that are not checked -----

  /** No called function lacks a name. */
  predicate CalleesNamed(e: Expr)
    decreases e
  {
    match e
    case Binop(_, _, l, r) => CalleesNamed(l) && CalleesNamed(r)
    case Unop(_, _, x) => CalleesNamed(x)
    case Call(_, f, args) => f.Str? && AllCalleesNamed(args)
    case AddrOf(_, x) => CalleesNamed(x)
    case Deref(_, x) => CalleesNamed(x)
    case Index(_, b, i) => CalleesNamed(b) && CalleesNamed(i)
    case Member(_, b, _, _) => CalleesNamed(b)
    case _ => true
  }

  predicate AllCalleesNamed(es: seq<Expr>)
    decreases es
  {
    es == [] || (CalleesNamed(es[0]) && AllCalleesNamed(es[1..]))
  }

  /** No declaration and no called function lacks a name. */
  predicate StmtsNamed(s: Stmts) {
    match s
    case Nil => true
    case Cons(h, next) => StmtNamed(h) && StmtsNamed(next)
  }

  predicate StmtNamed(s: Stmt) {
    match s
    case Return(e) => CalleesNamed(e)
    case Eval(e) => CalleesNamed(e)
    case Decl(x, _, e) => x.Str? && CalleesNamed(e)
    case Block(b) => StmtsNamed(b)
    case If(e, t, f) => CalleesNamed(e) && StmtsNamed(t) && StmtsNamed(f)
    case While(e, b) => CalleesNamed(e) && StmtsNamed(b)
    case For(first, e, post, b) => StmtsNamed(first) && CalleesNamed(e) && CalleesNamed(post) && StmtsNamed(b)
    case Do(b, e) => StmtsNamed(b) && CalleesNamed(e)
    case _ => true
  }

  /** The names that lowering looks at are there: those of initialised declarations and of called
      functions, up to the first ending statement of each chain. What follows is not lowered. */
  predicate LiveNamed(s: Stmts) {
    match s
    case Nil => true
    case Cons(h, next) => LiveNamedIn(h) && (Ends(h) || LiveNamed(next))
  }

  predicate LiveNamedIn(s: Stmt) {
    match s
    case Return(e) => CalleesNamed(e)
    case Eval(e) => CalleesNamed(e)
    case Decl(x, _, e) => e.NullExpr? || (x.Str? && CalleesNamed(e))
    case Block(b) => LiveNamed(b)
    case If(e, t, f) => CalleesNamed(e) && LiveNamed(t) && LiveNamed(f)
    case While(e, b) => CalleesNamed(e) && LiveNamed(b)
    case For(first, e, post, b) => LiveNamed(first) && CalleesNamed(e) && CalleesNamed(post) && LiveNamed(b)
    case Do(b, e) => LiveNamed(b) && CalleesNamed(e)
    case _ => true
  }

  /** Every declared name is there, at any depth: the pre-pass looks at all of them. */
  predicate DeclsNamed(s: Stmts) {
    Null !in Declared(s)
  }

  lemma {:induction false} StmtsNamedEnough(s: Stmts)
    requires StmtsNamed(s)
    ensures LiveNamed(s) && DeclsNamed(s)
    decreases s
  {
    if s.Cons? {
      StmtNamedEnough(s.head);
      StmtsNamedEnough(s.next);
    }
  }

  lemma {:induction false} StmtNamedEnough(s: Stmt)
    requires StmtNamed(s)
    ensures LiveNamedIn(s) && Null !in DeclaredIn(s)
    decreases s
  {
    match s
    case Block(b) => StmtsNamedEnough(b);
    case If(_, t, f) => StmtsNamedEnough(t); StmtsNamedEnough(f);
    case While(_, b) => StmtsNamedEnough(b);
    case For(first, _, _, b) => StmtsNamedEnough(first); StmtsNamedEnough(b);
    case Do(b, _) => StmtsNamedEnough(b);
    case _ =>
  }

  predicate ParamsNamed(params: seq<Param>) {
    forall i :: 0 <= i < |params| ==> params[i].name.Str?
  }

  // ----- null safety -----

  /** The result is not that a null pointer was followed. */
  predicate NullSafe<T>(r: Result<T>) {
    r != Exit(NullDereference)
  }

  lemma {:induction false} SizeSafe(ls: Layouts, t: CType)
    ensures NullSafe(TypeSize(ls, t)) && NullSafe(StoreBytes(ls, t)) && NullSafe(SlotSize(ls, t))
  {
    if t.ConstantArray? { SizeSafe(ls, t.elem); }
  }

  lemma {:induction false} TailSafe(ls: Layouts, op: BinOpKind, lt: CType, rt: CType, l: nat, r: nat, n: nat)
    ensures NullSafe(BinopTail(ls, op, lt, rt, l, r, n))
  {
    if lt.Pointer? { SizeSafe(ls, lt.to); }
    if rt.Pointer? { SizeSafe(ls, rt.to); }
  }

  /** Lowering an accepted expression with named callees follows no null pointer: not in
      `lower_lvalue`, not in `lower_expr`, whatever the tables and types are. */
  lemma {:induction false} LvalSafe(sc: Scope, e: Expr, n: nat)
    requires Present(Nodes(e)) && CalleesNamed(e)
    ensures NullSafe(LvalCode(sc, e, n))
    decreases e, 0
  {
    hide ExprCode;
    assert e in Nodes(e);
    match e
    case NullExpr => assert false;
    case Deref(_, p) => ExprSafe(sc, p, n);
    case Index(_, b, ix) =>
      assert b in Nodes(b);
      var base := if IsPointer(b.ty) then ExprCode(sc, b, n) else LvalCode(sc, b, n);
      if IsPointer(b.ty) { ExprSafe(sc, b, n); } else { LvalSafe(sc, b, n); }
      if IndexedType(b.ty).Ok? { SizeSafe(sc.layouts, IndexedType(b.ty).value); }
      if base.Ok? { ExprSafe(sc, ix, base.value.next); }
    case Member(_, b, _, arrow) =>
      assert b in Nodes(b);
      if arrow { ExprSafe(sc, b, n); } else { LvalSafe(sc, b, n); }
    case _ =>
  }

  lemma {:induction false} ExprSafe(sc: Scope, e: Expr, n: nat)
    requires Present(Nodes(e)) && CalleesNamed(e)
    ensures NullSafe(ExprCode(sc, e, n))
    decreases e, 2
  {
    hide LvalCode, BinopTail;
    assert e in Nodes(e);
    match e
    case NullExpr => assert false;
    case IntLit(_, _) =>
    case StringLit(_, _) =>
    case AddrOf(_, x) => LvalSafe(sc, x, n);
    case Binop(_, _, _, _) => BinopSafe(sc, e, n);
    case Unop(_, _, x) => ExprSafe(sc, x, n);
    case Call(_, _, args) => ArgsSafe(sc, args, n);
    case _ =>
      LvalSafe(sc, e, n);
      SizeSafe(sc.layouts, e.ty);
  }

  lemma {:induction false} BinopSafe(sc: Scope, e: Expr, n: nat)
    requires e.Binop? && Present(Nodes(e)) && CalleesNamed(e)
    ensures NullSafe(ExprCode(sc, e, n))
    decreases e, 1
  {
    hide LvalCode, BinopTail;
    if e.op.OpAssign? {
      LvalSafe(sc, e.lhs, n);
      SizeSafe(sc.layouts, e.lhs.ty);
      if LvalCode(sc, e.lhs, n).Ok? { ExprSafe(sc, e.rhs, LvalCode(sc, e.lhs, n).value.next); }
    } else {
      ExprSafe(sc, e.lhs, n);
      if ExprCode(sc, e.lhs, n).Ok? {
        var a := ExprCode(sc, e.lhs, n).value;
        ExprSafe(sc, e.rhs, a.next);
        if ExprCode(sc, e.rhs, a.next).Ok? {
          var b := ExprCode(sc, e.rhs, a.next).value;
          TailSafe(sc.layouts, e.op, e.lhs.ty, e.rhs.ty, a.val, b.val, b.next);
        }
      }
    }
  }

  lemma {:induction false} ArgsSafe(sc: Scope, args: seq<Expr>, n: nat)
    requires Present(AllNodes(args)) && AllCalleesNamed(args)
    ensures NullSafe(ArgsCode(sc, args, n))
    decreases args, 0
  {
    if args != [] {
      ExprSafe(sc, args[0], n);
      SizeSafe(sc.layouts, args[0].ty);
      if ExprCode(sc, args[0], n).Ok? { ArgsSafe(sc, args[1..], ExprCode(sc, args[0], n).value.next); }
    }
  }

  lemma {:induction false} BranchSafe(sc: Scope, g: State, e: Expr, t: nat, f: nat)
    requires Present(Nodes(e)) && CalleesNamed(e)
    ensures NullSafe(EmitExpr(sc, g, e)) && NullSafe(EmitBranch(sc, g, e, t, f))
    ensures NullSafe(LowerIfTest(sc, g, e, true)) && NullSafe(LowerIfTest(sc, g, e, false))
  {
    ExprSafe(sc, e, g.next);
  }

  /** Lowering an accepted chain follows no null pointer. */
  lemma {:induction false} StmtsSafe(sc: Scope, g: State, s: Stmts)
    requires Present(StmtsNodes(s)) && LiveNamed(s)
    ensures NullSafe(LowerStmts(sc, g, s))
    decreases s, 0
  {
    hide LowerStmt;
    if s.Cons? && !g.terminated {
      StmtSafe(sc, g, s.head);
      if LowerStmt(sc, g, s.head).Ok? { TerminatedExactlyStmt(sc, g, s.head); }
      if LowerStmt(sc, g, s.head).Ok? && !Ends(s.head) { StmtsSafe(sc, LowerStmt(sc, g, s.head).value, s.next); }
    }
  }

  lemma {:induction false} StmtSafe(sc: Scope, g: State, s: Stmt)
    requires Present(StmtNodes(s)) && LiveNamedIn(s)
    ensures NullSafe(LowerStmt(sc, g, s))
    decreases s, 2
  {
    hide ExprCode, LowerIfTest, EmitBranch, EmitExpr, LowerStmts, EnterBlocks;
    match s
    case Return(e) => BranchSafe(sc, g, e, 0, 0);
    case Eval(e) => BranchSafe(sc, g, e, 0, 0);
    case Decl(x, t, e) =>
      if !e.NullExpr? { InitSafe(sc, g, x, t, e); }
    case Block(b) => StmtsSafe(sc, g, b);
    case If(e, t, f) =>
      BranchSafe(sc, g, e, 0, 0);
      if LowerIfTest(sc, g, e, f.Cons?).Ok? { ArmsSafe(sc, |g.blocks|, LowerIfTest(sc, g, e, f.Cons?).value, e, t, f); }
    case While(e, b) => WhileSafe(sc, g, e, b);
    case For(first, e, post, b) =>
      StmtsSafe(sc, g, first);
      if LowerStmts(sc, g, first).Ok? { ForSafe(sc, LowerStmts(sc, g, first).value, e, post, b); }
    case Do(b, e) => DoSafe(sc, g, EnterBlocks(g, 3, |g.blocks|), b, e);
    case _ =>
  }

  lemma {:induction false} WhileSafe(sc: Scope, g: State, e: Expr, b: Stmts)
    requires Present(Nodes(e)) && CalleesNamed(e) && Present(StmtsNodes(b)) && LiveNamed(b)
    ensures NullSafe(LowerWhile(sc, g, e, b))
    decreases b, 1
  {
    hide EmitBranch, LowerStmts, InLoop, SwitchTo, EnterBlocks;
    var k := |g.blocks|;
    BranchSafe(sc, EnterBlocks(g, 3, k), e, k + 1, k + 2);
    var g2 := EmitBranch(sc, EnterBlocks(g, 3, k), e, k + 1, k + 2);
    if g2.Ok? { StmtsSafe(sc, SwitchTo(InLoop(g2.value, k + 2, k), k + 1), b); }
  }

  lemma {:induction false} DoSafe(sc: Scope, g: State, g1: State, b: Stmts, e: Expr)
    requires Present(Nodes(e)) && CalleesNamed(e) && Present(StmtsNodes(b)) && LiveNamed(b)
    ensures NullSafe(LowerDoBody(sc, g, g1, b, e))
    decreases b, 1
  {
    hide EmitBranch, LowerStmts, LeaveBody, InLoop, SwitchTo;
    var k := |g.blocks|;
    var gb := InLoop(g1, k + 2, k + 1);
    StmtsSafe(sc, gb, b);
    if LowerStmts(sc, gb, b).Ok? {
      BranchSafe(sc, SwitchTo(LeaveBody(LowerStmts(sc, gb, b).value, k + 1, g), k + 1), e, k, k + 2);
    }
  }

  lemma {:induction false} InitSafe(sc: Scope, g: State, x: CString, t: CType, e: Expr)
    requires Present(Nodes(e)) && CalleesNamed(e) && x.Str?
    ensures NullSafe(LowerInit(sc, g, x, t, e))
  {
    hide ExprCode;
    ExprSafe(sc, e, g.next);
    SizeSafe(sc.layouts, t);
  }

  lemma {:induction false} ArmsSafe(sc: Scope, k: nat, g: State, e: Expr, t: Stmts, f: Stmts)
    requires Present(StmtsNodes(t)) && Present(StmtsNodes(f)) && LiveNamed(t) && LiveNamed(f)
    ensures NullSafe(LowerArms(sc, k, g, e, t, f))
    decreases If(e, t, f), 1
  {
    hide LowerStmts;
    StmtsSafe(sc, SwitchTo(g, k), t);
    if LowerStmts(sc, SwitchTo(g, k), t).Ok? {
      var g3 := LowerStmts(sc, SwitchTo(g, k), t).value;
      StmtsSafe(sc, SwitchTo(FallTo(g3, k + 2), k + 1), f);
    }
  }

  lemma {:induction false} ForSafe(sc: Scope, g: State, e: Expr, post: Expr, b: Stmts)
    requires Present(OptionalNodes(e)) && CalleesNamed(e) && Present(OptionalNodes(post)) && CalleesNamed(post)
    requires Present(StmtsNodes(b)) && LiveNamed(b)
    ensures NullSafe(LowerForLoop(sc, g, e, post, b))
    decreases b, 2
  {
    hide EnterBlocks, LowerForTest, LowerForBody;
    var k := |g.blocks|;
    ForTestSafe(sc, EnterBlocks(g, 4, k), e, k + 2, k + 3);
    var g2 := LowerForTest(sc, EnterBlocks(g, 4, k), e, k + 2, k + 3);
    if g2.Ok? { ForBodySafe(sc, g, g2.value, post, b); }
  }

  lemma {:induction false} ForTestSafe(sc: Scope, g: State, e: Expr, t: nat, f: nat)
    requires Present(OptionalNodes(e)) && CalleesNamed(e)
    ensures NullSafe(LowerForTest(sc, g, e, t, f))
  {
    hide EmitBranch;
    if !e.NullExpr? { BranchSafe(sc, g, e, t, f); }
  }

  lemma {:induction false} ForBodySafe(sc: Scope, g: State, g2: State, post: Expr, b: Stmts)
    requires Present(OptionalNodes(post)) && CalleesNamed(post) && Present(StmtsNodes(b)) && LiveNamed(b)
    ensures NullSafe(LowerForBody(sc, g, g2, post, b))
    decreases b, 1
  {
    hide EmitExpr, LowerStmts, LeaveBody, InLoop, SwitchTo;
    var k := |g.blocks|;
    var gb := SwitchTo(InLoop(g2, k + 3, k + 1), k + 2);
    StmtsSafe(sc, gb, b);
    if LowerStmts(sc, gb, b).Ok? && !post.NullExpr? {
      BranchSafe(sc, SwitchTo(LeaveBody(LowerStmts(sc, gb, b).value, k + 1, g), k + 1), post, 0, 0);
    }
  }

  // ----- the pre-pass and whole functions -----

  lemma {:induction false} AddParamsSafe(ls: Layouts, l: Locals, params: seq<Param>)
    requires ParamsNamed(params)
    ensures NullSafe(AddParams(ls, l, params))
    decreases |params|
  {
    if params != [] {
      SizeSafe(ls, params[0].ty);
      var r := AddLocal(ls, l, params[0].name, params[0].ty);
      if r.Ok? { AddParamsSafe(ls, r.value, params[1..]); }
    }
  }

  lemma {:induction false} CollectSafe(ls: Layouts, params: seq<Param>, l: Locals, s: Stmts)
    requires ParamsNamed(params) && DeclsNamed(s)
    ensures NullSafe(CollectLocals(ls, params, l, s))
    decreases s, 1
  {
    AddParamsSafe(ls, l, params);
    if AddParams(ls, l, params).Ok? { CollectChainSafe(ls, params, AddParams(ls, l, params).value, s); }
  }

  lemma {:induction false} CollectChainSafe(ls: Layouts, params: seq<Param>, l: Locals, s: Stmts)
    requires ParamsNamed(params) && DeclsNamed(s)
    ensures NullSafe(CollectChain(ls, params, l, s))
    decreases s, 0
  {
    if s.Cons? {
      CollectStmtSafe(ls, params, l, s.head);
      if CollectStmt(ls, params, l, s.head).Ok? { CollectChainSafe(ls, params, CollectStmt(ls, params, l, s.head).value, s.next); }
    }
  }

  lemma {:induction false} CollectStmtSafe(ls: Layouts, params: seq<Param>, l: Locals, s: Stmt)
    requires ParamsNamed(params) && Null !in DeclaredIn(s)
    ensures NullSafe(CollectStmt(ls, params, l, s))
    decreases s, 0
  {
    hide CollectLocals;
    match s
    case Decl(x, t, _) => SizeSafe(ls, t);
    case Block(b) => CollectSafe(ls, params, l, b);
    case If(_, t, e) =>
      CollectSafe(ls, params, l, t);
      if CollectLocals(ls, params, l, t).Ok? { CollectSafe(ls, params, CollectLocals(ls, params, l, t).value, e); }
    case While(_, b) => CollectSafe(ls, params, l, b);
    case For(first, _, _, b) =>
      CollectSafe(ls, params, l, first);
      if CollectLocals(ls, params, l, first).Ok? { CollectSafe(ls, params, CollectLocals(ls, params, l, first).value, b); }
    case Do(b, _) => CollectSafe(ls, params, l, b);
    case _ =>
  }

  lemma {:induction false} ParamTypesSafe(ls: Layouts, params: seq<Param>)
    ensures NullSafe(ParamTypes(ls, params))
    decreases |params|
  {
    if params != [] {
      SizeSafe(ls, params[0].ty);
      ParamTypesSafe(ls, params[1..]);
    }
  }

  lemma {:induction false} StoreParamsSafe(ls: Layouts, params: seq<Param>, s: Stmts, i: nat, n: nat)
    requires ParamsNamed(params) && CollectLocals(ls, params, Locals([], []), s).Ok?
    ensures NullSafe(StoreParams(CollectLocals(ls, params, Locals([], []), s).value.table, params, i, n))
    decreases |params| - i
  {
    if i < |params| {
      ParamsResolveFirst(ls, params, s, params[i]);
      StoreParamsSafe(ls, params, s, i + 1, n + 1);
    }
  }

  /** Compiling an accepted function follows no null pointer, whatever else is wrong with it, if
      its parameters, its declarations and the callees in lowered code have names. */
  lemma {:induction false} FunctionSafe(ls: Layouts, data: seq<CString>, f: Func)
    requires Accepted(f) && ParamsNamed(f.params) && DeclsNamed(f.body) && LiveNamed(f.body)
    ensures NullSafe(EmitFunction(ls, data, f))
  {
    hide LowerStmts, CollectLocals, StoreParams, ParamTypes;
    ParamTypesSafe(ls, f.params);
    SizeSafe(ls, f.returnType);
    CollectSafe(ls, f.params, Locals([], []), f.body);
    var locals := CollectLocals(ls, f.params, Locals([], []), f.body);
    if locals.Ok? {
      var n := |f.params|;
      StoreParamsSafe(ls, f.params, f.body, 0, n);
      var stores := StoreParams(locals.value.table, f.params, 0, n);
      if stores.Ok? {
        StmtsSafe(Scope(ls, locals.value.table, data), State([stores.value], 0, n + n, None, None, false), f.body);
      }
    }
  }

  // ----- the fragment passes -----

  lemma {:induction false} TypedLvaluePasses(te: TypeEnv, e: Expr)
    requires TypedLvalue(te, e)
    ensures Present(Nodes(e)) && CalleesNamed(e)
    decreases e, 0
  {
    match e
    case Var(_, _) =>
    case Deref(_, p) => TypedPasses(te, p);
    case Index(_, b, i) =>
      TypedPasses(te, i);
      if b.ty.Pointer? { TypedPasses(te, b); } else { TypedLvaluePasses(te, b); }
    case Member(_, b, _, arrow) =>
      if arrow { TypedPasses(te, b); } else { TypedLvaluePasses(te, b); }
  }

  lemma {:induction false} TypedPasses(te: TypeEnv, e: Expr)
    requires Typed(te, e)
    ensures Present(Nodes(e)) && CalleesNamed(e)
    decreases e, 1
  {
    match e
    case IntLit(_, _) =>
    case StringLit(_, _) =>
    case AddrOf(_, x) => TypedLvaluePasses(te, x);
    case Binop(_, op, l, r) =>
      if op.OpAssign? { TypedLvaluePasses(te, l); } else { TypedPasses(te, l); }
      TypedPasses(te, r);
    case Unop(_, _, x) => TypedPasses(te, x);
    case Call(_, _, args) => TypedArgsPass(te, args);
    case NullExpr => assert false;
    case _ => TypedLvaluePasses(te, e);
  }

  lemma {:induction false} TypedArgsPass(te: TypeEnv, args: seq<Expr>)
    requires forall i :: 0 <= i < |args| ==> TypedValue(te, args[i])
    ensures Present(AllNodes(args)) && AllCalleesNamed(args)
    decreases args
  {
    if args != [] {
      TypedPasses(te, args[0]);
      TypedArgsPass(te, args[1..]);
    }
  }

  /** The check rejects nothing of the fragment, and no name is missing there. */
  lemma {:induction false} TypedStmtsPass(te: TypeEnv, s: Stmts, inLoop: bool)
    requires TypedStmts(te, s, inLoop)
    ensures Present(StmtsNodes(s)) && StmtsNamed(s)
    decreases s
  {
    if s.Cons? {
      TypedStmtPasses(te, s.head, inLoop);
      TypedStmtsPass(te, s.next, inLoop);
    }
  }

  lemma {:induction false} TypedStmtPasses(te: TypeEnv, s: Stmt, inLoop: bool)
    requires TypedStmt(te, s, inLoop)
    ensures Present(StmtNodes(s)) && StmtNamed(s)
    decreases s
  {
    hide Typed, Nodes, CalleesNamed;
    match s
    case Return(e) => TypedPasses(te, e);
    case Eval(e) => TypedPasses(te, e);
    case Decl(_, _, e) => OptionalPasses(te, e);
    case Block(b) => TypedStmtsPass(te, b, inLoop);
    case If(e, t, f) =>
      TypedPasses(te, e);
      TypedStmtsPass(te, t, inLoop);
      TypedStmtsPass(te, f, inLoop);
    case While(e, b) =>
      TypedPasses(te, e);
      TypedStmtsPass(te, b, true);
    case For(first, e, post, b) =>
      TypedStmtsPass(te, first, inLoop);
      OptionalPasses(te, e);
      OptionalPasses(te, post);
      TypedStmtsPass(te, b, true);
    case Do(b, e) =>
      TypedStmtsPass(te, b, true);
      TypedPasses(te, e);
    case _ =>
  }

  lemma {:induction false} OptionalPasses(te: TypeEnv, e: Expr)
    requires e.NullExpr? || Typed(te, e)
    ensures Present(OptionalNodes(e)) && CalleesNamed(e)
  {
    if !e.NullExpr? { TypedPasses(te, e); }
  }
}
