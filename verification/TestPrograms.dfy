/** Functions from the repository's own tests, as syntax trees. They are in the fragment; and for one
    of them, with a loop and a parameter, the value that its graph returns is derived. */
module TestPrograms {
  import opened Results
  import opened Words
  import opened CTypes
  import opened ByteMemory
  import opened Ast
  import opened Clif
  import opened CSemantics
  import opened SlotTableCorrect
  import opened Lowering
  import opened WellTyped
  import opened FuncCorrect
  import opened ObjectMemory
  import opened Places
  import opened FrameSlots

  // ----- writing programs -----

  function V(x: string): Expr {
    Var(Int, Str(x))
  }

  function K(k: int): Expr {
    IntLit(Int, k)
  }

  function Op(op: BinOpKind, l: Expr, r: Expr): Expr {
    Binop(Int, op, l, r)
  }

  function Set(l: Expr, r: Expr): Expr {
    Binop(Int, OpAssign, l, r)
  }

  function One(s: Stmt): Stmts {
    Cons(s, Nil)
  }

  /** `x = x + e` */
  function Bump(x: string, e: Expr): Expr {
    Set(V(x), Op(OpAdd, V(x), e))
  }

  predicate IntNamed(te: TypeEnv, x: string) {
    Str(x) in te.vars && te.vars[Str(x)] == Int
  }

  lemma {:induction false} VarTyped(te: TypeEnv, x: string)
    requires IntNamed(te, x)
    ensures TypedLvalue(te, V(x)) && TypedValue(te, V(x))
  {
  }

  lemma {:induction false} NumTyped(te: TypeEnv, k: int)
    requires InRange(I32, k)
    ensures TypedValue(te, K(k))
  {
  }

  lemma {:induction false} OpTyped(te: TypeEnv, op: BinOpKind, l: Expr, r: Expr)
    requires op !in {OpAssign, OpAnd, OpOr} && TypedValue(te, l) && TypedValue(te, r)
    requires !l.NullExpr? && !r.NullExpr? && ValueType(l.ty) == I32 && ValueType(r.ty) == I32
    ensures TypedValue(te, Op(op, l, r))
  {
  }

  lemma {:induction false} SetTyped(te: TypeEnv, l: Expr, r: Expr)
    requires TypedLvalue(te, l) && TypedValue(te, r) && !l.NullExpr? && !r.NullExpr? && l.ty.Int? && ValueType(r.ty) == I32
    ensures TypedValue(te, Set(l, r))
  {
  }

  lemma {:induction false} BumpTyped(te: TypeEnv, x: string, e: Expr)
    requires IntNamed(te, x) && TypedValue(te, e) && !e.NullExpr? && ValueType(e.ty) == I32
    ensures TypedValue(te, Bump(x, e))
  {
    hide TypedValue, TypedLvalue;
    VarTyped(te, x);
    OpTyped(te, OpAdd, V(x), e);
    SetTyped(te, V(x), Op(OpAdd, V(x), e));
  }

  // ----- for_sum -----

  /** `int sum = 0; for (int i = 0; i < n; i = i + 1) { sum = sum + i; } return sum;` */
  function ForSum(): Func {
    Func(Str("for_sum"), Int, [Param(Str("n"), Int)],
      Cons(Decl(Str("sum"), Int, K(0)), Cons(SumLoop(), One(Return(V("sum"))))))
  }

  function SumLoop(): Stmt {
    For(One(Decl(Str("i"), Int, K(0))), Op(OpLt, V("i"), V("n")), Bump("i", K(1)), One(Eval(Bump("sum", V("i")))))
  }

  function SumEnv(): TypeEnv {
    TypeEnv(map[], map[Str("n") := Int, Str("sum") := Int, Str("i") := Int], [])
  }

  lemma {:induction false} SumLoopTyped(te: TypeEnv)
    requires IntNamed(te, "n") && IntNamed(te, "sum") && IntNamed(te, "i")
    ensures TypedStmt(te, SumLoop(), false)
  {
    hide Typed, TypedValue, TypedLvalue;
    VarTyped(te, "i");
    VarTyped(te, "n");
    NumTyped(te, 0);
    NumTyped(te, 1);
    OpTyped(te, OpLt, V("i"), V("n"));
    BumpTyped(te, "i", K(1));
    BumpTyped(te, "sum", V("i"));
    Used(te, Op(OpLt, V("i"), V("n")));
    Used(te, Bump("i", K(1)));
    Used(te, Bump("sum", V("i")));
    IntDeclared(te, "i", K(0));
    assert TypedStmts(te, One(Eval(Bump("sum", V("i")))), true);
    assert TypedStmts(te, One(Decl(Str("i"), Int, K(0))), false);
  }

  lemma {:induction false} Used(te: TypeEnv, e: Expr)
    requires TypedValue(te, e)
    ensures Typed(te, e)
  {
  }

  lemma {:induction false} IntDeclared(te: TypeEnv, x: string, e: Expr)
    requires IntNamed(te, x) && TypedValue(te, e) && !e.NullExpr? && ValueType(e.ty) == I32
    ensures TypedStmt(te, Decl(Str(x), Int, e), false)
  {
    hide TypedValue;
  }

  lemma {:induction false} ForSumTyped(te: TypeEnv)
    requires IntNamed(te, "n") && IntNamed(te, "sum") && IntNamed(te, "i")
    ensures TypedFunc(te, ForSum())
  {
    hide TypedValue, TypedStmt;
    var last, f := Return(V("sum")), ForSum();
    VarTyped(te, "sum");
    NumTyped(te, 0);
    IntDeclared(te, "sum", K(0));
    SumLoopTyped(te);
    assert TypedStmt(te, last, false) by { ReturnTyped(te, V("sum")); }
    assert TypedStmts(te, One(last), false);
    assert TypedStmts(te, Cons(SumLoop(), One(last)), false);
  }

  lemma {:induction false} ReturnTyped(te: TypeEnv, e: Expr)
    requires TypedValue(te, e) && !e.NullExpr? && ValueType(e.ty) == I32
    ensures TypedStmt(te, Return(e), false)
  {
  }

  lemma {:induction false} ForSumCompiles()
    ensures Closed(SumEnv(), ForSum()) && SlotCount(ForSum()) == 5
  {
    var f := ForSum();
    assert DeclaredIn(SumLoop()) == {Str("i")} && InvocationsIn(SumLoop()) == 2;
    hide DeclaredIn, InvocationsIn;
    assert Declared(One(Return(V("sum")))) == {} && Invocations(One(Return(V("sum")))) == 1 by { ReturnDeclares(V("sum")); }
    DeclDeclares("sum");
    assert Declared(f.body) == {Str("sum"), Str("i")} && Invocations(f.body) == 3;
    assert ParamNames(f.params) == {Str("n")};
  }

  lemma {:induction false} ReturnDeclares(e: Expr)
    ensures Declared(One(Return(e))) == {} && Invocations(One(Return(e))) == 1
  {
    assert InvocationsIn(Return(e)) == 0 && NestedInvocations(Nil) == 0;
  }

  lemma {:induction false} DeclDeclares(x: string)
    ensures DeclaredIn(Decl(Str(x), Int, K(0))) == {Str(x)} && InvocationsIn(Decl(Str(x), Int, K(0))) == 0
  {
  }

  // ----- what for_sum does -----

  /** 0 + 1 + ... + (n - 1) */
  function Sum(n: int): int
    decreases n
  {
    if n <= 0 then 0 else Sum(n - 1) + n - 1
  }

  lemma {:induction false} SumIs(n: int)
    ensures n > 0 ==> 2 * Sum(n) == n * (n - 1)
    decreases n
  {
    if n > 0 { SumIs(n - 1); }
  }

  ghost predicate Home(c: CEnv, x: string) {
    Str(x) in c.vars && 0 <= c.vars[Str(x)] <= SPACE - 8
  }

  /** The value of an `int` variable. */
  function IntAt(c: CEnv, m: Memory, x: string): int {
    if Str(x) in c.vars then ReadTyped(m, c.vars[Str(x)], Int) else 0
  }

  ghost predicate HomesOf(c: CEnv, x: string, y: string) {
    Home(c, x) && Home(c, y) && Apart(c.vars[Str(x)], 4, c.vars[Str(y)], 4)
  }

  ghost predicate Homes(c: CEnv) {
    !c.strict && HomesOf(c, "n", "sum") && HomesOf(c, "n", "i") && HomesOf(c, "sum", "i")
  }

  ghost predicate Values(c: CEnv, m: Memory, n: int, sum: int, i: int) {
    IntAt(c, m, "n") == n && IntAt(c, m, "sum") == sum && IntAt(c, m, "i") == i
  }

  lemma {:induction false} ReadVar(c: CEnv, x: string, m: Memory, tr: Trace)
    requires Home(c, x) && !c.strict
    ensures Rval(c, V(x), m, tr) == Val(IntAt(c, m, x), m, tr)
  {
    ModUnique(c.vars[Str(x)], 0, c.vars[Str(x)], SPACE);
  }

  /** `x = e` for an `e` without effects. */
  lemma {:induction false} SetVar(c: CEnv, x: string, e: Expr, m: Memory, tr: Trace, v: int)
    requires Home(c, x) && Rval(c, e, m, tr) == Val(v, m, tr) && InRange(I32, v)
    ensures Rval(c, Set(V(x), e), m, tr) == Val(v, WriteTyped(m, c.vars[Str(x)], Int, v), tr)
  {
    hide WriteTyped;
    ModUnique(c.vars[Str(x)], 0, c.vars[Str(x)], SPACE);
    SignedEncode(I32, v);
  }

  lemma {:induction false} BumpVar(c: CEnv, x: string, e: Expr, m: Memory, tr: Trace, v: int)
    requires Home(c, x) && !c.strict && Rval(c, e, m, tr) == Val(v, m, tr) && !e.NullExpr? && !IsPointer(e.ty)
    ensures var r := Wrap32(IntAt(c, m, x) + v);
            Rval(c, Bump(x, e), m, tr) == Val(r, WriteTyped(m, c.vars[Str(x)], Int, r), tr)
  {
    hide WriteTyped, Wrap32, IntAt;
    ReadVar(c, x, m, tr);
    assert Rval(c, Op(OpAdd, V(x), e), m, tr) == Val(Wrap32(IntAt(c, m, x) + v), m, tr) by {
      AddValue(c, V(x), e, m, tr, IntAt(c, m, x), v);
    }
    SetVar(c, x, Op(OpAdd, V(x), e), m, tr, Wrap32(IntAt(c, m, x) + v));
  }

  lemma {:induction false} WrapFits(v: int)
    requires InRange(I32, v)
    ensures Wrap32(v) == v
  {
    SignedEncode(I32, v);
  }

  lemma {:induction false} NumValue(c: CEnv, k: int, m: Memory, tr: Trace)
    ensures Rval(c, K(k), m, tr) == Val(k, m, tr)
  {
  }

  lemma {:induction false} AddValue(c: CEnv, l: Expr, r: Expr, m: Memory, tr: Trace, a: int, b: int)
    requires Rval(c, l, m, tr) == Val(a, m, tr) && Rval(c, r, m, tr) == Val(b, m, tr)
    requires !l.NullExpr? && !r.NullExpr? && !IsPointer(l.ty) && !IsPointer(r.ty)
    ensures Rval(c, Op(OpAdd, l, r), m, tr) == Val(Wrap32(a + b), m, tr)
  {
    hide Wrap32;
  }

  /** Writing one variable leaves the others. */
  lemma {:induction false} WriteInt(c: CEnv, x: string, m: Memory, v: int, y: string)
    requires Home(c, x) && InRange(I32, v)
    ensures IntAt(c, WriteTyped(m, c.vars[Str(x)], Int, v), x) == v
    ensures HomesOf(c, x, y) || HomesOf(c, y, x) ==> IntAt(c, WriteTyped(m, c.vars[Str(x)], Int, v), y) == IntAt(c, m, y)
  {
    hide WriteTyped, ReadTyped;
    ReadBack(m, c.vars[Str(x)], Int, v);
    SignedEncode(I32, v);
    if HomesOf(c, x, y) || HomesOf(c, y, x) {
      ReadElsewhere(m, c.vars[Str(x)], Int, v, c.vars[Str(y)], Int);
    }
  }

  /** `sum = sum + i` */
  lemma {:induction false} BodyRuns(c: CEnv, fuel: nat, m: Memory, tr: Trace, n: int, sum: int, i: int) returns (m': Memory)
    requires Homes(c) && Values(c, m, n, sum, i)
    ensures ExecStmts(c, fuel, One(Eval(Bump("sum", V("i")))), m, tr) == Normal(m', tr)
    ensures Values(c, m', n, Wrap32(sum + i), i)
  {
    hide Rval, WriteTyped, IntAt, Wrap32;
    ReadVar(c, "i", m, tr);
    BumpVar(c, "sum", V("i"), m, tr, i);
    m' := WriteTyped(m, c.vars[Str("sum")], Int, Wrap32(sum + i));
    WriteInt(c, "sum", m, Wrap32(sum + i), "n");
    WriteInt(c, "sum", m, Wrap32(sum + i), "i");
    EvalRuns(c, fuel, Bump("sum", V("i")), m, tr, m');
  }

  lemma {:induction false} EvalRuns(c: CEnv, fuel: nat, e: Expr, m: Memory, tr: Trace, m': Memory)
    requires Rval(c, e, m, tr).Val? && Rval(c, e, m, tr).mem == m' && Rval(c, e, m, tr).tr == tr
    ensures ExecStmts(c, fuel, One(Eval(e)), m, tr) == Normal(m', tr)
  {
    hide Rval;
    assert ExecStmt(c, fuel, Eval(e), m, tr) == Normal(m', tr);
    assert ExecStmts(c, fuel, Nil, m', tr) == Normal(m', tr);
  }

  /** `i = i + 1` */
  lemma {:induction false} StepRuns(c: CEnv, m: Memory, tr: Trace, n: int, sum: int, i: int) returns (m': Memory)
    requires Homes(c) && Values(c, m, n, sum, i) && InRange(I32, i + 1)
    ensures Rval(c, Bump("i", K(1)), m, tr) == Val(i + 1, m', tr) && Values(c, m', n, sum, i + 1)
  {
    hide Rval, WriteTyped, IntAt, Wrap32;
    NumValue(c, 1, m, tr);
    BumpVar(c, "i", K(1), m, tr, 1);
    WrapFits(i + 1);
    m' := WriteTyped(m, c.vars[Str("i")], Int, i + 1);
    WriteInt(c, "i", m, i + 1, "n");
    WriteInt(c, "i", m, i + 1, "sum");
  }

  lemma {:induction false} TestRuns(c: CEnv, m: Memory, tr: Trace, n: int, sum: int, i: int)
    requires Homes(c) && Values(c, m, n, sum, i)
    ensures Rval(c, Op(OpLt, V("i"), V("n")), m, tr) == Val(Truth(i < n), m, tr)
  {
    hide IntAt;
    ReadVar(c, "i", m, tr);
    ReadVar(c, "n", m, tr);
  }

  lemma {:induction false} SumGrows(i: nat)
    ensures Wrap32(Wrap32(Sum(i)) + i) == Wrap32(Sum(i + 1))
  {
    EncodeAbsorbs(I32, Wrap32(Sum(i)), i);
    EncodeAbsorbs(I32, Sum(i), i);
    EncodeWrap32(Sum(i));
  }

  /** The loop from its head: it adds `i`, `i + 1`, ..., `n - 1`. */
  lemma {:induction false} LoopRuns(c: CEnv, fuel: nat, m: Memory, tr: Trace, n: int, i: nat) returns (m': Memory)
    requires Homes(c) && Values(c, m, n, Wrap32(Sum(i)), i) && InRange(I32, n) && (i <= n || (n < 0 && i == 0))
    requires fuel > 0 && fuel > n - i
    ensures ExecFor(c, fuel, Op(OpLt, V("i"), V("n")), Bump("i", K(1)), One(Eval(Bump("sum", V("i")))), m, tr) == Normal(m', tr)
    ensures IntAt(c, m', "sum") == Wrap32(Sum(n))
    decreases fuel
  {
    hide Rval, IntAt, Wrap32, Homes;
    var e, post, b := Op(OpLt, V("i"), V("n")), Bump("i", K(1)), One(Eval(Bump("sum", V("i"))));
    TestRuns(c, m, tr, n, Wrap32(Sum(i)), i);
    if i < n {
      var m1 := BodyRuns(c, fuel, m, tr, n, Wrap32(Sum(i)), i);
      SumGrows(i);
      var m2 := StepRuns(c, m1, tr, n, Wrap32(Sum(i + 1)), i);
      assert ExecPost(c, fuel, e, post, b, m1, tr) == ExecFor(c, fuel - 1, e, post, b, m2, tr);
      m' := LoopRuns(c, fuel - 1, m2, tr, n, i + 1);
      assert ExecForBody(c, fuel, e, post, b, m, tr) == ExecPost(c, fuel, e, post, b, m1, tr);
    } else {
      m' := m;
    }
  }

  lemma {:induction false} LaidHomes(c: CEnv)
    requires Laid(SumEnv(), c) && !c.strict
    ensures Homes(c)
  {
    IntSlot();
    PairHomes(c, "n", "sum");
    PairHomes(c, "n", "i");
    PairHomes(c, "sum", "i");
  }

  lemma {:induction false} IntSlot()
    ensures SlotSize(map[], Int) == Ok(8)
  {
    SignedEncode(I32, 4);
    SignedEncode(I32, 11);
  }

  lemma {:induction false} PairHomes(c: CEnv, x: string, y: string)
    requires Laid(SumEnv(), c) && IntNamed(SumEnv(), x) && IntNamed(SumEnv(), y) && x != y
    ensures HomesOf(c, x, y)
  {
    hide SlotSize;
    IntSlot();
    assert HomesApart(SumEnv(), c, Str(x), Str(y));
  }

  /** A declaration `int x = k;` */
  lemma {:induction false} DeclRuns(c: CEnv, fuel: nat, x: string, k: int, m: Memory, tr: Trace) returns (m': Memory)
    requires Home(c, x) && InRange(I32, k)
    ensures ExecStmt(c, fuel, Decl(Str(x), Int, K(k)), m, tr) == Normal(m', tr) && IntAt(c, m', x) == k
    ensures forall y :: HomesOf(c, x, y) || HomesOf(c, y, x) ==> IntAt(c, m', y) == IntAt(c, m, y)
  {
    hide WriteTyped, IntAt, HomesOf;
    ModUnique(c.vars[Str(x)], 0, c.vars[Str(x)], SPACE);
    m' := WriteTyped(m, c.vars[Str(x)], Int, k);
    forall y | HomesOf(c, x, y) || HomesOf(c, y, x) ensures IntAt(c, m', y) == IntAt(c, m, y) {
      WriteInt(c, x, m, k, y);
    }
    WriteInt(c, x, m, k, x);
  }

  /** A run of the body with the parameter in place. */
  lemma {:induction false} BodyReturns(c: CEnv, m: Memory, n: int) returns (m': Memory, fuel: nat)
    requires Homes(c) && InRange(I32, n) && IntAt(c, m, "n") == n
    ensures ExecStmts(c, fuel, ForSum().body, m, []) == Returned(Wrap32(Sum(n)), m', [])
  {
    hide Rval, IntAt, HomesOf, ExecStmt, ExecFor;
    fuel := if n > 0 then n + 1 else 1;
    assert Home(c, "n") && Home(c, "sum") && Home(c, "i") by { HomesEach(c); }
    var m1 := DeclRuns(c, fuel, "sum", 0, m, []);
    var m2 := DeclRuns(c, fuel, "i", 0, m1, []);
    assert Wrap32(Sum(0)) == 0 by { SignedEncode(I32, 0); }
    m' := LoopRuns(c, fuel, m2, [], n, 0);
    LoopStatement(c, fuel, m1, m2, m');
    ReturnRuns(c, fuel, m');
    var last := One(Return(V("sum")));
    assert ExecStmts(c, fuel, Cons(SumLoop(), last), m1, []) == ExecStmts(c, fuel, last, m', []);
    assert ExecStmts(c, fuel, ForSum().body, m, []) == ExecStmts(c, fuel, Cons(SumLoop(), last), m1, []);
  }

  lemma {:induction false} HomesEach(c: CEnv)
    requires Homes(c)
    ensures Home(c, "n") && Home(c, "sum") && Home(c, "i")
  {
  }

  lemma {:induction false} LoopStatement(c: CEnv, fuel: nat, m1: Memory, m2: Memory, m': Memory)
    requires ExecStmt(c, fuel, Decl(Str("i"), Int, K(0)), m1, []) == Normal(m2, [])
    requires ExecFor(c, fuel, Op(OpLt, V("i"), V("n")), Bump("i", K(1)), One(Eval(Bump("sum", V("i")))), m2, []) == Normal(m', [])
    ensures ExecStmt(c, fuel, SumLoop(), m1, []) == Normal(m', [])
  {
    hide ExecFor, Rval;
    assert ExecStmts(c, fuel, Nil, m2, []) == Normal(m2, []);
    assert ExecStmts(c, fuel, One(Decl(Str("i"), Int, K(0))), m1, []) == Normal(m2, []);
  }

  lemma {:induction false} ReturnRuns(c: CEnv, fuel: nat, m: Memory)
    requires Home(c, "sum") && !c.strict
    ensures ExecStmts(c, fuel, One(Return(V("sum"))), m, []) == Returned(IntAt(c, m, "sum"), m, [])
  {
    hide Rval, IntAt;
    ReadVar(c, "sum", m, []);
    assert ExecStmt(c, fuel, Return(V("sum")), m, []) == Returned(IntAt(c, m, "sum"), m, []);
  }

  /** `for_sum` compiles, and for every `n` its graph returns 0 + 1 + ... + (n - 1), which is
      `n * (n - 1) / 2`, reduced to 32 bits: in every frame that keeps the slots apart. */
  lemma {:induction false} ForSumReturns(w: World, n: int, m: Memory)
    requires InRange(I32, n)
    ensures EmitFunction(map[], [], ForSum()).Ok?
    ensures var fn := EmitFunction(map[], [], ForSum()).value;
            fn.params == [I32] && (FrameApart(w, fn.slots) ==> exists m' :: TargetReturns(fn, w, [n], m, Wrap32(Sum(n)), m', []))
    ensures n > 0 ==> 2 * Sum(n) == n * (n - 1)
  {
    hide EmitFunction, FrameApart, TargetReturns, Wrap32, ForSum;
    SumIs(n);
    var fn := ForSumEmitted();
    if FrameApart(w, fn.slots) {
      var m' := GraphReturns(fn, w, n, m);
    }
  }

  lemma {:induction false} ForSumEmitted() returns (fn: IrFunction)
    ensures EmitFunction(map[], [], ForSum()) == Ok(fn) && fn.params == [I32]
  {
    hide EmitFunction, SlotCount, Closed, TypedFunc;
    ForSumTyped(SumEnv());
    ForSumCompiles();
    EmitSucceeds(SumEnv(), ForSum());
    fn := EmitFunction(map[], [], ForSum()).value;
    EmittedParts(SumEnv(), ForSum(), fn);
  }

  lemma {:induction false} GraphReturns(fn: IrFunction, w: World, n: int, m: Memory) returns (m': Memory)
    requires InRange(I32, n) && EmitFunction(map[], [], ForSum()) == Ok(fn) && FrameApart(w, fn.slots) && fn.params == [I32]
    ensures TargetReturns(fn, w, [n], m, Wrap32(Sum(n)), m', [])
  {
    hide EmitFunction, Closed, TypedFunc, FrameApart, TargetReturns, Wrap32, Table, Placed, Homes, Laid, BindParams, ExecStmts, IntAt;
    var te, f := SumEnv(), ForSum();
    ForSumTyped(te);
    ForSumCompiles();
    EmittedParts(te, f, fn);
    var c := SourceWorld(te, Table(te, f).value.table, w);
    SourceWorldPlaced(te, Table(te, f).value.table, w);
    SlotsLayOut(te, f, fn, c, w);
    LaidHomes(c);
    ParameterArrives(c, n, m);
    var m1, fuel := BodyReturns(c, BindParams(c, f.params, [n], 0, m), n);
    assert RunFunc(c, fuel, f, [n], m) == Returned(Wrap32(Sum(n)), m1, []);
    assert SourceReturns(c, f, [n], m, Wrap32(Sum(n)), m1, []);
    FunctionEquivalence(te, f, fn, c, w, [n], m);
    m' := m1;
  }

  lemma {:induction false} ParameterArrives(c: CEnv, n: int, m: Memory)
    requires Laid(SumEnv(), c) && Homes(c) && InRange(I32, n)
    ensures IntAt(c, BindParams(c, ForSum().params, [n], 0, m), "n") == n
  {
    hide ReadTyped, BindParams;
    ParamsArrive(SumEnv(), c, ForSum().params, [n], 0, m, 0);
    ModUnique(c.vars[Str("n")], 0, c.vars[Str("n")], SPACE);
    SignedEncode(I32, n);
  }

  // ----- other test functions in the fragment -----

  lemma {:induction false} Followed(te: TypeEnv, h: Stmt, next: Stmts, inLoop: bool)
    requires TypedStmt(te, h, inLoop) && TypedStmts(te, next, inLoop)
    ensures TypedStmts(te, Cons(h, next), inLoop)
  {
  }

  lemma {:induction false} Alone(te: TypeEnv, h: Stmt, inLoop: bool)
    requires TypedStmt(te, h, inLoop)
    ensures TypedStmts(te, One(h), inLoop)
  {
    assert TypedStmts(te, Nil, inLoop);
  }

  lemma {:induction false} Evaluated(te: TypeEnv, e: Expr, inLoop: bool)
    requires TypedValue(te, e)
    ensures TypedStmt(te, Eval(e), inLoop) && Typed(te, e)
  {
  }

  lemma {:induction false} Declares(te: TypeEnv, x: string, t: CType, e: Expr, inLoop: bool)
    requires Str(x) in te.vars && te.vars[Str(x)] == t && Sized(te, t)
    requires e.NullExpr? || (IsScalar(t) && TypedValue(te, e) && ValueType(e.ty) == ValueType(t))
    ensures TypedStmt(te, Decl(Str(x), t, e), inLoop)
  {
    hide TypedValue, Sized;
  }

  lemma {:induction false} ReturnsTyped(te: TypeEnv, e: Expr, inLoop: bool)
    requires TypedValue(te, e) && !e.NullExpr? && ValueType(e.ty) == I32
    ensures TypedStmt(te, Return(e), inLoop)
  {
  }

  /** `for_with_break` and `for_with_continue` in one:
      `for (int i = 0; i < n; i = i + 1) { if (i == 5) break; if (i % 2 == 0) continue; sum = sum + i; }` */
  function JumpLoop(): Stmt {
    For(One(Decl(Str("i"), Int, K(0))), Op(OpLt, V("i"), V("n")), Bump("i", K(1)),
        Cons(If(Op(OpEq, V("i"), K(5)), One(Break), Nil),
        Cons(If(Op(OpEq, Op(OpMod, V("i"), K(2)), K(0)), One(Continue), Nil),
        One(Eval(Bump("sum", V("i")))))))
  }

  lemma {:induction false} JumpLoopTyped(te: TypeEnv)
    requires IntNamed(te, "n") && IntNamed(te, "sum") && IntNamed(te, "i")
    ensures TypedStmt(te, JumpLoop(), false)
  {
    hide Typed, TypedValue, TypedLvalue, TypedStmts, Sized;
    VarTyped(te, "i");
    VarTyped(te, "n");
    NumTyped(te, 0);
    NumTyped(te, 1);
    NumTyped(te, 2);
    NumTyped(te, 5);
    OpTyped(te, OpLt, V("i"), V("n"));
    OpTyped(te, OpEq, V("i"), K(5));
    OpTyped(te, OpMod, V("i"), K(2));
    OpTyped(te, OpEq, Op(OpMod, V("i"), K(2)), K(0));
    BumpTyped(te, "i", K(1));
    BumpTyped(te, "sum", V("i"));
    Evaluated(te, Op(OpLt, V("i"), V("n")), false);
    Evaluated(te, Bump("i", K(1)), false);
    Evaluated(te, Bump("sum", V("i")), true);
    IntDeclared(te, "i", K(0));
    Alone(te, Decl(Str("i"), Int, K(0)), false);
    var third := Eval(Bump("sum", V("i")));
    Alone(te, third, true);
    JumpTyped(te, Op(OpMod, V("i"), K(2)), 0, Continue);
    JumpTyped(te, V("i"), 5, Break);
    var second := If(Op(OpEq, Op(OpMod, V("i"), K(2)), K(0)), One(Continue), Nil);
    Followed(te, second, One(third), true);
    Followed(te, If(Op(OpEq, V("i"), K(5)), One(Break), Nil), Cons(second, One(third)), true);
  }

  /** `if (e == k) jump;` inside a loop. */
  lemma {:induction false} JumpTyped(te: TypeEnv, e: Expr, k: int, jump: Stmt)
    requires TypedValue(te, e) && !e.NullExpr? && ValueType(e.ty) == I32 && InRange(I32, k) && (jump.Break? || jump.Continue?)
    ensures TypedStmt(te, If(Op(OpEq, e, K(k)), One(jump), Nil), true)
  {
    hide Typed, TypedValue;
    NumTyped(te, k);
    OpTyped(te, OpEq, e, K(k));
    Evaluated(te, Op(OpEq, e, K(k)), true);
    Alone(te, jump, true);
    assert TypedStmts(te, Nil, true);
  }

  /** `do { n = n - 1; count = count + 1; } while (n > 0);` */
  function DoLoop(): Stmt {
    Do(Cons(Eval(Set(V("n"), Op(OpSub, V("n"), K(1)))), One(Eval(Bump("count", K(1))))), Op(OpGt, V("n"), K(0)))
  }

  lemma {:induction false} DoLoopTyped(te: TypeEnv)
    requires IntNamed(te, "n") && IntNamed(te, "count")
    ensures TypedStmt(te, DoLoop(), false)
  {
    hide Typed, TypedValue, TypedLvalue, TypedStmts;
    VarTyped(te, "n");
    NumTyped(te, 0);
    NumTyped(te, 1);
    OpTyped(te, OpSub, V("n"), K(1));
    SetTyped(te, V("n"), Op(OpSub, V("n"), K(1)));
    BumpTyped(te, "count", K(1));
    OpTyped(te, OpGt, V("n"), K(0));
    Evaluated(te, Set(V("n"), Op(OpSub, V("n"), K(1))), true);
    Evaluated(te, Bump("count", K(1)), true);
    Evaluated(te, Op(OpGt, V("n"), K(0)), false);
    Alone(te, Eval(Bump("count", K(1))), true);
    Followed(te, Eval(Set(V("n"), Op(OpSub, V("n"), K(1)))), One(Eval(Bump("count", K(1)))), true);
  }

  /** `if (a > 0) { result = 1; } else { result = -1; }` */
  function Branch(): Stmt {
    If(Op(OpGt, V("a"), K(0)), One(Eval(Set(V("result"), K(1)))), One(Eval(Set(V("result"), Unop(Int, UnopNeg, K(1))))))
  }

  lemma {:induction false} BranchTyped(te: TypeEnv)
    requires IntNamed(te, "a") && IntNamed(te, "result")
    ensures TypedStmt(te, Branch(), false)
  {
    hide Typed, TypedValue, TypedLvalue, TypedStmts;
    VarTyped(te, "a");
    VarTyped(te, "result");
    NumTyped(te, 0);
    NumTyped(te, 1);
    OpTyped(te, OpGt, V("a"), K(0));
    UnopTyped(te, UnopNeg, K(1));
    SetTyped(te, V("result"), K(1));
    SetTyped(te, V("result"), Unop(Int, UnopNeg, K(1)));
    Evaluated(te, Op(OpGt, V("a"), K(0)), false);
    Evaluated(te, Set(V("result"), K(1)), false);
    Evaluated(te, Set(V("result"), Unop(Int, UnopNeg, K(1))), false);
    Alone(te, Eval(Set(V("result"), K(1))), false);
    Alone(te, Eval(Set(V("result"), Unop(Int, UnopNeg, K(1)))), false);
  }

  lemma {:induction false} UnopTyped(te: TypeEnv, op: UnOpKind, e: Expr)
    requires TypedValue(te, e) && !e.NullExpr? && ValueType(e.ty) == I32
    ensures TypedValue(te, Unop(Int, op, e))
  {
  }

  /** Two fields at offsets 0 and 4. */
  const POINT: RecordLayout := RecordLayout(8, [Field(Str("x"), 0, Int), Field(Str("y"), 4, Int)])

  function PointPtr(): Expr {
    Var(Pointer(Record("Point")), Str("q"))
  }

  function FieldOf(f: string): Expr {
    Member(Int, PointPtr(), Str(f), true)
  }

  predicate PointEnv(te: TypeEnv) {
    && "Point" in te.layouts && te.layouts["Point"] == POINT
    && Str("p") in te.vars && te.vars[Str("p")] == Record("Point")
    && Str("q") in te.vars && te.vars[Str("q")] == Pointer(Record("Point"))
  }

  /** `struct Point p; struct Point *q = &p; q->x = 10; q->y = 20; return q->x + q->y;` */
  function StructViaPtr(): Func {
    Func(Str("struct_via_ptr"), Int, [],
      Cons(Decl(Str("p"), Record("Point"), NullExpr),
      Cons(Decl(Str("q"), Pointer(Record("Point")), AddrOf(Pointer(Record("Point")), Var(Record("Point"), Str("p")))),
      Cons(Eval(Set(FieldOf("x"), K(10))),
      Cons(Eval(Set(FieldOf("y"), K(20))),
      One(Return(Op(OpAdd, FieldOf("x"), FieldOf("y")))))))))
  }

  lemma {:induction false} FieldTyped(te: TypeEnv, f: string)
    requires PointEnv(te) && (f == "x" || f == "y")
    ensures TypedLvalue(te, FieldOf(f)) && TypedValue(te, FieldOf(f))
  {
    assert TypedValue(te, PointPtr());
    FindFieldIsFirst(POINT.fields, Str(f));
    assert POINT.fields[0].name == Str("x") && POINT.fields[1].name == Str("y");
    assert FindField(POINT.fields, Str(f)) == Some(POINT.fields[if f == "x" then 0 else 1]);
  }

  lemma {:induction false} StructViaPtrTyped(te: TypeEnv)
    requires PointEnv(te)
    ensures TypedFunc(te, StructViaPtr())
  {
    hide Typed, TypedValue, TypedLvalue, TypedStmt, TypedStmts, Sized;
    FieldTyped(te, "x");
    FieldTyped(te, "y");
    NumTyped(te, 10);
    NumTyped(te, 20);
    SetTyped(te, FieldOf("x"), K(10));
    SetTyped(te, FieldOf("y"), K(20));
    OpTyped(te, OpAdd, FieldOf("x"), FieldOf("y"));
    ReturnsTyped(te, Op(OpAdd, FieldOf("x"), FieldOf("y")), false);
    Evaluated(te, Set(FieldOf("x"), K(10)), false);
    Evaluated(te, Set(FieldOf("y"), K(20)), false);
    AddressOfPoint(te);
    Declares(te, "p", Record("Point"), NullExpr, false);
    Declares(te, "q", Pointer(Record("Point")), AddrOf(Pointer(Record("Point")), Var(Record("Point"), Str("p"))), false);
    var b := StructViaPtr().body;
    Alone(te, b.next.next.next.next.head, false);
    Followed(te, b.next.next.next.head, b.next.next.next.next, false);
    Followed(te, b.next.next.head, b.next.next.next, false);
    Followed(te, b.next.head, b.next.next, false);
    Followed(te, b.head, b.next, false);
  }

  lemma {:induction false} AddressOfPoint(te: TypeEnv)
    requires PointEnv(te)
    ensures Sized(te, Record("Point")) && Sized(te, Pointer(Record("Point")))
    ensures TypedValue(te, AddrOf(Pointer(Record("Point")), Var(Record("Point"), Str("p"))))
  {
  }

  function Array(): Expr {
    Var(ConstantArray(Int, 4), Str("a"))
  }

  function Ptr(): Expr {
    Var(Pointer(Int), Str("p"))
  }

  predicate WalkEnv(te: TypeEnv) {
    && Str("a") in te.vars && te.vars[Str("a")] == ConstantArray(Int, 4)
    && Str("p") in te.vars && te.vars[Str("p")] == Pointer(Int)
    && IntNamed(te, "sum") && IntNamed(te, "i")
  }

  /** `while (i < 4) { sum = sum + *p; p = p + 1; i = i + 1; }` */
  function Walk(): Stmt {
    While(Op(OpLt, V("i"), K(4)),
      Cons(Eval(Bump("sum", Deref(Int, Ptr()))),
      Cons(Eval(Binop(Pointer(Int), OpAssign, Ptr(), Binop(Pointer(Int), OpAdd, Ptr(), K(1)))),
      One(Eval(Bump("i", K(1)))))))
  }

  /** `int a[4]; a[3] = 8; int *p = a; int sum = 0; int i = 0; while ... return sum;`, with one of the
      four assignments to elements. */
  function PtrWalk(): Func {
    Func(Str("ptr_walk"), Int, [],
      Cons(Decl(Str("a"), ConstantArray(Int, 4), NullExpr),
      Cons(Eval(Set(Index(Int, Array(), K(3)), K(8))),
      Cons(Decl(Str("p"), Pointer(Int), Array()),
      Cons(Decl(Str("sum"), Int, K(0)),
      Cons(Decl(Str("i"), Int, K(0)),
      Cons(Walk(),
      One(Return(V("sum"))))))))))
  }

  lemma {:induction false} PointersTyped(te: TypeEnv)
    requires WalkEnv(te)
    ensures TypedValue(te, Array()) && Sized(te, Pointer(Int)) && Sized(te, ConstantArray(Int, 4))
    ensures TypedLvalue(te, Index(Int, Array(), K(3))) && TypedValue(te, Deref(Int, Ptr()))
    ensures TypedValue(te, Binop(Pointer(Int), OpAssign, Ptr(), Binop(Pointer(Int), OpAdd, Ptr(), K(1))))
  {
    NumTyped(te, 3);
    NumTyped(te, 1);
    assert TypedValue(te, Ptr());
    assert ByteSize(te.layouts, Int) == Some(4);
    assert TypedValue(te, Binop(Pointer(Int), OpAdd, Ptr(), K(1)));
  }

  lemma {:induction false} WalkTyped(te: TypeEnv)
    requires WalkEnv(te)
    ensures TypedStmt(te, Walk(), false)
  {
    hide Typed, TypedValue, TypedLvalue, TypedStmts, Sized;
    PointersTyped(te);
    VarTyped(te, "i");
    NumTyped(te, 1);
    NumTyped(te, 4);
    OpTyped(te, OpLt, V("i"), K(4));
    Evaluated(te, Op(OpLt, V("i"), K(4)), false);
    BumpTyped(te, "sum", Deref(Int, Ptr()));
    BumpTyped(te, "i", K(1));
    var b := Walk().body;
    Evaluated(te, b.head.expr, true);
    Evaluated(te, b.next.head.expr, true);
    Evaluated(te, b.next.next.head.expr, true);
    Alone(te, b.next.next.head, true);
    Followed(te, b.next.head, b.next.next, true);
    Followed(te, b.head, b.next, true);
  }

  lemma {:induction false} PtrWalkTyped(te: TypeEnv)
    requires WalkEnv(te)
    ensures TypedFunc(te, PtrWalk())
  {
    hide Typed, TypedValue, TypedLvalue, TypedStmt, TypedStmts, Sized;
    PointersTyped(te);
    NumTyped(te, 0);
    NumTyped(te, 8);
    VarTyped(te, "sum");
    SetTyped(te, Index(Int, Array(), K(3)), K(8));
    Evaluated(te, Set(Index(Int, Array(), K(3)), K(8)), false);
    Declares(te, "a", ConstantArray(Int, 4), NullExpr, false);
    Declares(te, "p", Pointer(Int), Array(), false);
    IntDeclared(te, "sum", K(0));
    IntDeclared(te, "i", K(0));
    WalkTyped(te);
    ReturnsTyped(te, V("sum"), false);
    var b := PtrWalk().body;
    var c := b.next.next.next;
    Alone(te, c.next.next.next.head, false);
    Followed(te, c.next.next.head, c.next.next.next, false);
    Followed(te, c.next.head, c.next.next, false);
    Followed(te, c.head, c.next, false);
    Followed(te, b.next.next.head, c, false);
    Followed(te, b.next.head, b.next.next, false);
    Followed(te, b.head, b.next, false);
  }

  /** `char c = 10; short s = 100; int i = 1000; return c + s + i;` */
  function Mixed(): Func {
    Func(Str("mixed_arithmetic"), Int, [],
      Cons(Decl(Str("c"), Char(true), K(10)),
      Cons(Decl(Str("s"), Short(true), K(100)),
      Cons(Decl(Str("i"), Int, K(1000)),
      One(Return(Op(OpAdd, Op(OpAdd, Var(Char(true), Str("c")), Var(Short(true), Str("s"))), V("i"))))))))
  }

  lemma {:induction false} MixedTyped(te: TypeEnv)
    requires Str("c") in te.vars && te.vars[Str("c")] == Char(true) && Str("s") in te.vars && te.vars[Str("s")] == Short(true)
    requires IntNamed(te, "i")
    ensures TypedFunc(te, Mixed())
  {
    hide Typed, TypedStmt, TypedStmts;
    NumTyped(te, 10);
    NumTyped(te, 100);
    NumTyped(te, 1000);
    VarTyped(te, "i");
    NarrowVarsTyped(te);
    hide TypedValue, TypedLvalue, Sized;
    var c, s := Var(Char(true), Str("c")), Var(Short(true), Str("s"));
    OpTyped(te, OpAdd, c, s);
    OpTyped(te, OpAdd, Op(OpAdd, c, s), V("i"));
    ReturnsTyped(te, Op(OpAdd, Op(OpAdd, c, s), V("i")), false);
    Declares(te, "c", Char(true), K(10), false);
    Declares(te, "s", Short(true), K(100), false);
    IntDeclared(te, "i", K(1000));
    var b := Mixed().body;
    Alone(te, b.next.next.next.head, false);
    Followed(te, b.next.next.head, b.next.next.next, false);
    Followed(te, b.next.head, b.next.next, false);
    Followed(te, b.head, b.next, false);
  }

  lemma {:induction false} NarrowVarsTyped(te: TypeEnv)
    requires Str("c") in te.vars && te.vars[Str("c")] == Char(true) && Str("s") in te.vars && te.vars[Str("s")] == Short(true)
    ensures TypedValue(te, Var(Char(true), Str("c"))) && TypedValue(te, Var(Short(true), Str("s")))
    ensures Sized(te, Char(true)) && Sized(te, Short(true))
  {
  }

  /** `puts("hello, world"); return 0;` */
  function Hello(): Func {
    Func(Str("main"), Int, [],
      Cons(Eval(Call(Int, Str("puts"), [StringLit(ConstantArray(Char(true), 13), Str(".Lstr0"))])), One(Return(K(0)))))
  }

  lemma {:induction false} HelloTyped(te: TypeEnv)
    requires Str(".Lstr0") in te.data
    ensures TypedFunc(te, Hello())
  {
    hide TypedStmts, TypedStmt;
    var call := Call(Int, Str("puts"), [StringLit(ConstantArray(Char(true), 13), Str(".Lstr0"))]);
    assert TypedValue(te, StringLit(ConstantArray(Char(true), 13), Str(".Lstr0")));
    assert TypedValue(te, call);
    NumTyped(te, 0);
    hide TypedValue;
    Evaluated(te, call, false);
    ReturnsTyped(te, K(0), false);
    Alone(te, Return(K(0)), false);
    Followed(te, Eval(call), One(Return(K(0))), false);
  }
}
