/** Exactly when compilation follows a null pointer, if only names can be missing: a parameter
    name, a declared name at any depth, or the name of a callee in code that is lowered. */
module NullExact {
  import opened Results
  import opened CTypes
  import opened Ast
  import opened SlotTable
  import opened SlotTableCorrect
  import opened DeadCode
  import opened Lowering
  import opened Sema

  /** The expression with a name for every callee. */
  function Named(e: Expr): (r: Expr)
    ensures e.NullExpr? == r.NullExpr? && (!e.NullExpr? ==> r.ty == e.ty)
    decreases e
  {
    match e
    case Binop(t, op, l, r) => Binop(t, op, Named(l), Named(r))
    case Unop(t, op, x) => Unop(t, op, Named(x))
    case Call(t, f, args) => Call(t, if f.Null? then Str("") else f, AllNamed(args))
    case AddrOf(t, x) => AddrOf(t, Named(x))
    case Deref(t, x) => Deref(t, Named(x))
    case Index(t, b, i) => Index(t, Named(b), Named(i))
    case Member(t, b, f, arrow) => Member(t, Named(b), f, arrow)
    case _ => e
  }

  function AllNamed(es: seq<Expr>): (r: seq<Expr>)
    ensures |r| == |es|
    decreases es
  {
    if es == [] then [] else [Named(es[0])] + AllNamed(es[1..])
  }

  /** The same code if nothing was missing, and a null dereference otherwise. */
  ghost predicate SameOrNull<T(!new)>(r: Result<T>, named: Result<T>, complete: bool) {
    named.Ok? ==> r == if complete then named else Exit(NullDereference)
  }

  lemma {:induction false} LvalNullExactly(sc: Scope, e: Expr, n: nat)
    ensures SameOrNull(LvalCode(sc, e, n), LvalCode(sc, Named(e), n), CalleesNamed(e))
    decreases e, 1
  {
    hide ExprCode, FieldOffset, TypeSize;
    match e
    case Deref(_, p) => ExprNullExactly(sc, p, n);
    case Index(_, _, _) => IndexNullExactly(sc, e, n);
    case Member(_, b, _, arrow) => if arrow { ExprNullExactly(sc, b, n); } else { LvalNullExactly(sc, b, n); }
    case _ =>
  }

  lemma {:induction false} IndexNullExactly(sc: Scope, e: Expr, n: nat)
    requires e.Index?
    ensures SameOrNull(LvalCode(sc, e, n), LvalCode(sc, Named(e), n), CalleesNamed(e))
    decreases e, 0
  {
    hide ExprCode;
    var b, ix := e.base, e.index;
    if !b.NullExpr? {
      var base := if IsPointer(b.ty) then ExprCode(sc, b, n) else LvalCode(sc, b, n);
      if IsPointer(b.ty) { ExprNullExactly(sc, b, n); } else { LvalNullExactly(sc, b, n); }
      if base.Ok? { ExprNullExactly(sc, ix, base.value.next); }
    }
  }

  /** If only callee names can be missing, lowering an expression follows a null pointer exactly
      when one is missing: the check would have had to look at them. */
  lemma {:induction false} ExprNullExactly(sc: Scope, e: Expr, n: nat)
    ensures SameOrNull(ExprCode(sc, e, n), ExprCode(sc, Named(e), n), CalleesNamed(e))
    decreases e, 2
  {
    hide LvalCode, BinopTail, LoadTail;
    match e
    case AddrOf(_, x) => LvalNullExactly(sc, x, n);
    case Binop(_, _, _, _) => BinopNullExactly(sc, e, n);
    case Unop(_, _, x) => ExprNullExactly(sc, x, n);
    case Call(_, _, args) => ArgsNullExactly(sc, args, n);
    case Var(_, _) => LvalNullExactly(sc, e, n);
    case Deref(_, _) => LvalNullExactly(sc, e, n);
    case Index(_, _, _) => LvalNullExactly(sc, e, n);
    case Member(_, _, _, _) => LvalNullExactly(sc, e, n);
    case _ =>
  }

  lemma {:induction false} BinopNullExactly(sc: Scope, e: Expr, n: nat)
    requires e.Binop?
    ensures SameOrNull(ExprCode(sc, e, n), ExprCode(sc, Named(e), n), CalleesNamed(e))
    decreases e, 0
  {
    hide LvalCode, BinopTail, NarrowToStore;
    var a := if e.op.OpAssign? then LvalCode(sc, e.lhs, n) else ExprCode(sc, e.lhs, n);
    if e.op.OpAssign? { LvalNullExactly(sc, e.lhs, n); } else { ExprNullExactly(sc, e.lhs, n); }
    if a.Ok? { ExprNullExactly(sc, e.rhs, a.value.next); }
  }

  lemma {:induction false} ArgsNullExactly(sc: Scope, args: seq<Expr>, n: nat)
    ensures SameOrNull(ArgsCode(sc, args, n), ArgsCode(sc, AllNamed(args), n), AllCalleesNamed(args))
    decreases args, 0
  {
    hide ExprCode;
    if args != [] {
      assert AllNamed(args)[0] == Named(args[0]) && AllNamed(args)[1..] == AllNamed(args[1..]);
      ExprNullExactly(sc, args[0], n);
      if ExprCode(sc, args[0], n).Ok? { ArgsNullExactly(sc, args[1..], ExprCode(sc, args[0], n).value.next); }
    }
  }

  // ----- chains -----

  /** The statement with a name for every declaration and callee. */
  function NamedStmts(s: Stmts): (r: Stmts)
    ensures r.Nil? == s.Nil?
  {
    match s
    case Nil => Nil
    case Cons(h, next) => Cons(NamedStmt(h), NamedStmts(next))
  }

  function NameFor(x: CString): CString {
    if x.Null? then Str("") else x
  }

  function NamedStmt(s: Stmt): Stmt {
    match s
    case Return(e) => Return(Named(e))
    case Eval(e) => Eval(Named(e))
    case Decl(x, t, e) => Decl(NameFor(x), t, Named(e))
    case Block(b) => Block(NamedStmts(b))
    case If(e, t, f) => If(Named(e), NamedStmts(t), NamedStmts(f))
    case While(e, b) => While(Named(e), NamedStmts(b))
    case For(first, e, post, b) => For(NamedStmts(first), Named(e), Named(post), NamedStmts(b))
    case Do(b, e) => Do(NamedStmts(b), Named(e))
    case _ => s
  }

  lemma {:induction false} TestNullExactly(sc: Scope, g: State, e: Expr, t: nat, f: nat, hasElse: bool)
    ensures SameOrNull(EmitExpr(sc, g, e), EmitExpr(sc, g, Named(e)), CalleesNamed(e))
    ensures SameOrNull(EmitBranch(sc, g, e, t, f), EmitBranch(sc, g, Named(e), t, f), CalleesNamed(e))
    ensures SameOrNull(LowerIfTest(sc, g, e, hasElse), LowerIfTest(sc, g, Named(e), hasElse), CalleesNamed(e))
  {
    hide ExprCode;
    ExprNullExactly(sc, e, g.next);
  }

  /** If only names can be missing, lowering a chain follows a null pointer exactly when one is
      missing in the part that is lowered. */
  lemma {:induction false} StmtsNullExactly(sc: Scope, g: State, s: Stmts)
    requires !g.terminated
    ensures SameOrNull(LowerStmts(sc, g, s), LowerStmts(sc, g, NamedStmts(s)), LiveNamed(s))
    decreases s, 0
  {
    hide LowerStmt, NamedStmt;
    if s.Cons? {
      StmtNullExactly(sc, g, s.head);
      var r := LowerStmt(sc, g, s.head);
      if r.Ok? {
        TerminatedExactlyStmt(sc, g, s.head);
        if !r.value.terminated { StmtsNullExactly(sc, r.value, s.next); }
      }
    }
  }

  lemma {:induction false} StmtNullExactly(sc: Scope, g: State, s: Stmt)
    requires !g.terminated
    ensures SameOrNull(LowerStmt(sc, g, s), LowerStmt(sc, g, NamedStmt(s)), LiveNamedIn(s))
    decreases s, 5
  {
    hide ExprCode, EmitExpr, LowerIf, LowerWhile, LowerForLoop, LowerDoBody, LowerStmts, LowerInit;
    match s
    case Return(e) => TestNullExactly(sc, g, e, 0, 0, false);
    case Eval(e) => TestNullExactly(sc, g, e, 0, 0, false);
    case Decl(x, t, e) => if !e.NullExpr? { InitNullExactly(sc, g, x, t, e); }
    case Block(b) => StmtsNullExactly(sc, g, b);
    case If(e, t, f) => IfNullExactly(sc, g, e, t, f);
    case While(e, b) => WhileNullExactly(sc, g, e, b);
    case For(first, e, post, b) =>
      StmtsNullExactly(sc, g, first);
      if LowerStmts(sc, g, first).Ok? { ForNullExactly(sc, LowerStmts(sc, g, first).value, e, post, b); }
    case Do(b, e) => DoNullExactly(sc, g, EnterBlocks(g, 3, |g.blocks|), b, e);
    case _ =>
  }

  lemma {:induction false} InitNullExactly(sc: Scope, g: State, x: CString, t: CType, e: Expr)
    ensures SameOrNull(LowerInit(sc, g, x, t, e), LowerInit(sc, g, NameFor(x), t, Named(e)), x.Str? && CalleesNamed(e))
  {
    hide ExprCode, NarrowToStore;
    ExprNullExactly(sc, e, g.next);
  }

  lemma {:induction false} IfNullExactly(sc: Scope, g: State, e: Expr, t: Stmts, f: Stmts)
    requires !g.terminated
    ensures SameOrNull(LowerIf(sc, g, e, t, f), LowerIf(sc, g, Named(e), NamedStmts(t), NamedStmts(f)), LiveNamedIn(If(e, t, f)))
    decreases If(e, t, f), 4
  {
    hide LowerIfTest, LowerArms, NamedStmts, LiveNamed;
    var test := LowerIfTest(sc, g, e, f.Cons?);
    TestNullExactly(sc, g, e, 0, 0, f.Cons?);
    if test.Ok? { ArmsNullExactly(sc, |g.blocks|, test.value, e, t, f); }
  }

  lemma {:induction false} ArmsNullExactly(sc: Scope, k: nat, g: State, e: Expr, t: Stmts, f: Stmts)
    ensures SameOrNull(LowerArms(sc, k, g, e, t, f), LowerArms(sc, k, g, Named(e), NamedStmts(t), NamedStmts(f)), LiveNamed(t) && LiveNamed(f))
    decreases If(e, t, f), 3
  {
    hide LowerStmts, FallTo, LiveNamed;
    var arm := LowerStmts(sc, SwitchTo(g, k), t);
    StmtsNullExactly(sc, SwitchTo(g, k), t);
    NilLive();
    if f.Cons? && arm.Ok? {
      ElseNullExactly(sc, k, arm.value, f);
    }
  }

  lemma {:induction false} NilLive()
    ensures LiveNamed(Nil)
  {
  }

  lemma {:induction false} ElseNullExactly(sc: Scope, k: nat, g: State, f: Stmts)
    ensures SameOrNull(LowerElse(sc, k, g, f), LowerElse(sc, k, g, NamedStmts(f)), LiveNamed(f))
    decreases f, 1
  {
    hide LowerStmts, FallTo, LiveNamed, NamedStmts;
    StmtsNullExactly(sc, SwitchTo(FallTo(g, k + 2), k + 1), f);
  }

  lemma {:induction false} WhileNullExactly(sc: Scope, g: State, e: Expr, b: Stmts)
    ensures SameOrNull(LowerWhile(sc, g, e, b), LowerWhile(sc, g, Named(e), NamedStmts(b)), CalleesNamed(e) && LiveNamed(b))
    decreases b, 4
  {
    hide EmitBranch, EnterBlocks, LowerStmts, LiveNamed, NamedStmts;
    var k := |g.blocks|;
    var g1 := EnterBlocks(g, 3, k);
    TestNullExactly(sc, g1, e, k + 1, k + 2, false);
    var test := EmitBranch(sc, g1, e, k + 1, k + 2);
    if test.Ok? { StmtsNullExactly(sc, SwitchTo(InLoop(test.value, k + 2, k), k + 1), b); }
  }

  lemma {:induction false} ForNullExactly(sc: Scope, g: State, e: Expr, post: Expr, b: Stmts)
    ensures SameOrNull(LowerForLoop(sc, g, e, post, b), LowerForLoop(sc, g, Named(e), Named(post), NamedStmts(b)),
                       CalleesNamed(e) && CalleesNamed(post) && LiveNamed(b))
    decreases b, 4
  {
    hide EnterBlocks, LowerForTest, LowerForBody, LiveNamed, NamedStmts;
    var k := |g.blocks|;
    var g1 := EnterBlocks(g, 4, k);
    ForTestNullExactly(sc, g1, e, k + 2, k + 3);
    var test := LowerForTest(sc, g1, e, k + 2, k + 3);
    if test.Ok? { ForBodyNullExactly(sc, g, test.value, post, b); }
  }

  lemma {:induction false} ForTestNullExactly(sc: Scope, g: State, e: Expr, t: nat, f: nat)
    ensures SameOrNull(LowerForTest(sc, g, e, t, f), LowerForTest(sc, g, Named(e), t, f), CalleesNamed(e))
  {
    hide EmitBranch;
    TestNullExactly(sc, g, e, t, f, false);
  }

  lemma {:induction false} PostNullExactly(sc: Scope, g: State, k: nat, post: Expr)
    ensures SameOrNull(LowerForStep(sc, g, k, post), LowerForStep(sc, g, k, Named(post)), CalleesNamed(post))
  {
    hide EmitExpr;
    TestNullExactly(sc, SwitchTo(g, k + 1), post, 0, 0, false);
  }

  lemma {:induction false} ForBodyNullExactly(sc: Scope, g: State, g2: State, post: Expr, b: Stmts)
    ensures SameOrNull(LowerForBody(sc, g, g2, post, b), LowerForBody(sc, g, g2, Named(post), NamedStmts(b)), CalleesNamed(post) && LiveNamed(b))
    decreases b, 3
  {
    hide LowerStmts, LeaveBody, LowerForStep, LiveNamed, NamedStmts;
    var k := |g.blocks|;
    var gb := SwitchTo(InLoop(g2, k + 3, k + 1), k + 2);
    StmtsNullExactly(sc, gb, b);
    var r := LowerStmts(sc, gb, b);
    if r.Ok? { PostNullExactly(sc, LeaveBody(r.value, k + 1, g), k, post); }
  }

  lemma {:induction false} DoNullExactly(sc: Scope, g: State, g1: State, b: Stmts, e: Expr)
    requires !g1.terminated
    ensures SameOrNull(LowerDoBody(sc, g, g1, b, e), LowerDoBody(sc, g, g1, NamedStmts(b), Named(e)), LiveNamed(b) && CalleesNamed(e))
    decreases b, 3
  {
    hide LowerStmts, LeaveBody, EmitBranch, LiveNamed, NamedStmts;
    var k := |g.blocks|;
    var gb := InLoop(g1, k + 2, k + 1);
    StmtsNullExactly(sc, gb, b);
    var r := LowerStmts(sc, gb, b);
    if r.Ok? { TestNullExactly(sc, SwitchTo(LeaveBody(r.value, k + 1, g), k + 1), e, k, k + 2, false); }
  }

  // ----- the pre-pass -----

  function NamedParams(params: seq<Param>): (r: seq<Param>)
    ensures |r| == |params|
  {
    if params == [] then [] else [Param(NameFor(params[0].name), params[0].ty)] + NamedParams(params[1..])
  }

  lemma {:induction false} NamedParamsSame(params: seq<Param>)
    ensures ParamsNamed(params) ==> NamedParams(params) == params
  {
    if params != [] {
      NamedParamsSame(params[1..]);
      if ParamsNamed(params) {
        assert ParamsNamed(params[1..]);
        assert params == [params[0]] + params[1..];
      }
    }
  }

  lemma {:induction false} AddParamsNullExactly(ls: Layouts, l: Locals, params: seq<Param>)
    ensures SameOrNull(AddParams(ls, l, params), AddParams(ls, l, NamedParams(params)), ParamsNamed(params))
    decreases |params|
  {
    if params != [] {
      assert NamedParams(params)[1..] == NamedParams(params[1..]);
      assert ParamsNamed(params) <==> params[0].name.Str? && ParamsNamed(params[1..]) by {
        assert forall i :: 0 < i < |params| ==> params[i] == params[1..][i - 1];
      }
      var r := AddLocal(ls, l, params[0].name, params[0].ty);
      if r.Ok? { AddParamsNullExactly(ls, r.value, params[1..]); }
    }
  }

  /** The pre-pass follows a null pointer exactly when the name of a parameter or of a declaration
      at any depth is missing. */
  lemma {:induction false} CollectNullExactly(ls: Layouts, params: seq<Param>, l: Locals, s: Stmts)
    ensures SameOrNull(CollectLocals(ls, params, l, s), CollectLocals(ls, NamedParams(params), l, NamedStmts(s)),
                       ParamsNamed(params) && DeclsNamed(s))
    decreases s, 2
  {
    hide CollectChain, DeclsNamed, ParamsNamed, NamedStmts;
    AddParamsNullExactly(ls, l, params);
    NamedParamsSame(params);
    var r := AddParams(ls, l, params);
    if r.Ok? && ParamsNamed(params) { CollectChainNullExactly(ls, params, r.value, s); }
  }

  lemma {:induction false} CollectChainNullExactly(ls: Layouts, params: seq<Param>, l: Locals, s: Stmts)
    requires ParamsNamed(params)
    ensures SameOrNull(CollectChain(ls, params, l, s), CollectChain(ls, params, l, NamedStmts(s)), DeclsNamed(s))
    decreases s, 1
  {
    hide CollectStmt, ParamsNamed, NamedStmt;
    if s.Cons? {
      CollectStmtNullExactly(ls, params, l, s.head);
      var r := CollectStmt(ls, params, l, s.head);
      if r.Ok? { CollectChainNullExactly(ls, params, r.value, s.next); }
    }
  }

  lemma {:induction false} CollectNestedNullExactly(ls: Layouts, params: seq<Param>, l: Locals, s: Stmts)
    requires ParamsNamed(params)
    ensures SameOrNull(CollectLocals(ls, params, l, s), CollectLocals(ls, params, l, NamedStmts(s)), DeclsNamed(s))
    decreases s, 3
  {
    CollectNullExactly(ls, params, l, s);
    NamedParamsSame(params);
  }

  lemma {:induction false} CollectStmtNullExactly(ls: Layouts, params: seq<Param>, l: Locals, s: Stmt)
    requires ParamsNamed(params)
    ensures SameOrNull(CollectStmt(ls, params, l, s), CollectStmt(ls, params, l, NamedStmt(s)), Null !in DeclaredIn(s))
    decreases s, 1
  {
    hide CollectLocals, ParamsNamed, Declared, NamedStmts;
    match s
    case Decl(_, _, _) =>
    case Block(b) => CollectNestedNullExactly(ls, params, l, b);
    case If(_, t, f) => CollectTwoNullExactly(ls, params, l, s, t, f);
    case While(_, b) => CollectNestedNullExactly(ls, params, l, b);
    case For(first, _, _, b) => CollectTwoNullExactly(ls, params, l, s, first, b);
    case Do(b, _) => CollectNestedNullExactly(ls, params, l, b);
    case _ =>
  }

  lemma {:induction false} CollectTwoNullExactly(ls: Layouts, params: seq<Param>, l: Locals, s: Stmt, a: Stmts, b: Stmts)
    requires ParamsNamed(params)
    requires (s.If? && s.thenBody == a && s.elseBody == b) || (s.For? && s.first == a && s.body == b)
    ensures SameOrNull(CollectLocals(ls, params, l, a), CollectLocals(ls, params, l, NamedStmts(a)), DeclsNamed(a))
    ensures var r := CollectLocals(ls, params, l, a);
            r.Ok? ==> SameOrNull(CollectLocals(ls, params, r.value, b), CollectLocals(ls, params, r.value, NamedStmts(b)), DeclsNamed(b))
    decreases s, 0
  {
    CollectNestedNullExactly(ls, params, l, a);
    var r := CollectLocals(ls, params, l, a);
    if r.Ok? { CollectNestedNullExactly(ls, params, r.value, b); }
  }

  // ----- functions -----

  /** The function with a name wherever compilation looks for one. */
  function NamedFunc(f: Func): Func {
    Func(f.name, f.returnType, NamedParams(f.params), NamedStmts(f.body))
  }

  lemma {:induction false} ParamTypesSame(ls: Layouts, params: seq<Param>)
    ensures ParamTypes(ls, NamedParams(params)) == ParamTypes(ls, params)
    decreases |params|
  {
    if params != [] {
      assert NamedParams(params)[1..] == NamedParams(params[1..]);
      ParamTypesSame(ls, params[1..]);
    }
  }

  /** If only names can be missing, compiling a function follows a null pointer exactly when one is
      missing that compilation looks at: of a parameter, of a declaration at any depth, or of a
      callee in code that is lowered. Otherwise the result is that of the named function. */
  lemma {:induction false} FunctionNullExactly(ls: Layouts, data: seq<CString>, f: Func)
    ensures SameOrNull(EmitFunction(ls, data, f), EmitFunction(ls, data, NamedFunc(f)),
                       ParamsNamed(f.params) && DeclsNamed(f.body) && LiveNamed(f.body))
  {
    hide LowerStmts, CollectLocals, StoreParams, ParamTypes, LiveNamed, DeclsNamed, ParamsNamed, NamedStmts;
    ParamTypesSame(ls, f.params);
    NamedParamsSame(f.params);
    CollectNullExactly(ls, f.params, Locals([], []), f.body);
    var locals := CollectLocals(ls, f.params, Locals([], []), f.body);
    if locals.Ok? && ParamsNamed(f.params) && DeclsNamed(f.body) {
      var n := |f.params|;
      var stores := StoreParams(locals.value.table, f.params, 0, n);
      if stores.Ok? {
        StmtsNullExactly(Scope(ls, locals.value.table, data), State([stores.value], 0, n + n, None, None, false), f.body);
      }
    }
  }

  /** The pre-pass never gets past a declaration without a name. */
  lemma {:induction false} NamelessDeclStops(ls: Layouts, params: seq<Param>, l: Locals, s: Stmts)
    requires !DeclsNamed(s)
    ensures !CollectLocals(ls, params, l, s).Ok?
    decreases s, 1
  {
    if AddParams(ls, l, params).Ok? { NamelessDeclStopsChain(ls, params, AddParams(ls, l, params).value, s); }
  }

  lemma {:induction false} NamelessDeclStopsChain(ls: Layouts, params: seq<Param>, l: Locals, s: Stmts)
    requires !DeclsNamed(s)
    ensures !CollectChain(ls, params, l, s).Ok?
    decreases s, 0
  {
    if Null in DeclaredIn(s.head) {
      NamelessDeclStopsStmt(ls, params, l, s.head);
    } else if CollectStmt(ls, params, l, s.head).Ok? {
      NamelessDeclStopsChain(ls, params, CollectStmt(ls, params, l, s.head).value, s.next);
    }
  }

  lemma {:induction false} NamelessDeclStopsStmt(ls: Layouts, params: seq<Param>, l: Locals, s: Stmt)
    requires Null in DeclaredIn(s)
    ensures !CollectStmt(ls, params, l, s).Ok?
    decreases s, 0
  {
    hide CollectLocals;
    match s
    case Decl(x, t, _) =>
    case Block(b) => NamelessDeclStops(ls, params, l, b);
    case If(_, t, e) =>
      if Null in Declared(t) {
        NamelessDeclStops(ls, params, l, t);
      } else if CollectLocals(ls, params, l, t).Ok? {
        NamelessDeclStops(ls, params, CollectLocals(ls, params, l, t).value, e);
      }
    case While(_, b) => NamelessDeclStops(ls, params, l, b);
    case For(first, _, _, b) =>
      if Null in Declared(first) {
        NamelessDeclStops(ls, params, l, first);
      } else if CollectLocals(ls, params, l, first).Ok? {
        NamelessDeclStops(ls, params, CollectLocals(ls, params, l, first).value, b);
      }
    case Do(b, _) => NamelessDeclStops(ls, params, l, b);
  }

  lemma {:induction false} NamelessParamStops(ls: Layouts, data: seq<CString>)
    ensures EmitFrame(ls, data, Func(Str("f"), Int, [Param(Null, Int)], Cons(Return(IntLit(Int, 0)), Nil))) == Exit(NullDereference)
  {
    assert AddLocal(ls, Locals([], []), Null, Int) == Exit(NullDereference);
    assert AddParams(ls, Locals([], []), [Param(Null, Int)]) == Exit(NullDereference);
  }

  lemma {:induction false} NamelessParam(ls: Layouts, data: seq<CString>)
    ensures var f := Func(Str("f"), Int, [Param(Null, Int)], Cons(Return(IntLit(Int, 0)), Nil));
            Accepted(f) && EmitFunction(ls, data, f) == Exit(NullDereference)
  {
    hide EmitFrame;
    var params, b := [Param(Null, Int)], Cons(Return(IntLit(Int, 0)), Nil);
    NamelessParamStops(ls, data);
    assert ParamTypes(ls, []) == Ok([]);
    assert ParamTypes(ls, params).Ok?;
    assert StmtsNodes(Nil) == {};
    assert StmtsNodes(b) == {IntLit(Int, 0)};
  }

  /** The check accepts a parameter, a declaration and a callee without a name; compiling any one
      of them follows the null pointer. */
  lemma {:induction false} AcceptedYetUnsafe(ls: Layouts, data: seq<CString>)
    ensures var f := Func(Str("f"), Int, [], Cons(Decl(Null, Int, NullExpr), Nil));
            Accepted(f) && EmitFunction(ls, data, f) == Exit(NullDereference)
    ensures var f := Func(Str("f"), Int, [], Cons(Eval(Call(Int, Null, [])), Nil));
            Accepted(f) && EmitFunction(ls, data, f) == Exit(NullDereference)
    ensures var f := Func(Str("f"), Int, [Param(Null, Int)], Cons(Return(IntLit(Int, 0)), Nil));
            Accepted(f) && EmitFunction(ls, data, f) == Exit(NullDereference)
  {
    NamelessParam(ls, data);
    var call := Eval(Call(Int, Null, []));
    var b := Cons(call, Nil);
    assert CollectStmt(ls, [], Locals([], []), call) == Ok(Locals([], []));
    assert CollectChain(ls, [], Locals([], []), b) == Ok(Locals([], []));
    assert CollectLocals(ls, [], Locals([], []), b) == Ok(Locals([], []));
    var sc, g := Scope(ls, [], data), State([[]], 0, 0, None, None, false);
    assert LowerStmt(sc, g, call) == Exit(NullDereference);
    assert LowerStmts(sc, g, b) == Exit(NullDereference);
    assert StoreParams([], [], 0, 0) == Ok([]);
    assert StmtsNodes(b) == {Call(Int, Null, [])};
    var d := Cons(Decl(Null, Int, NullExpr), Nil);
    assert CollectStmt(ls, [], Locals([], []), d.head) == Exit(NullDereference);
    assert CollectLocals(ls, [], Locals([], []), d) == Exit(NullDereference);
    assert StmtsNodes(d) == {};
  }
}
