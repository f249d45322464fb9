/** Two functions on which the one binding per name shows: one hides a visible name, the other
    reads an object before it has a value. */
module ScopeLimits {
  import opened Words
  import opened CTypes
  import opened ByteMemory
  import opened Ast
  import opened Clif
  import opened CSemantics
  import opened SlotTableCorrect
  import opened Lowering
  import opened WellTyped
  import opened FuncCorrect
  import opened ObjectMemory
  import opened Scoping

  const X: CString := Str("x")

  function IntX(): TypeEnv {
    TypeEnv(map[], map[X := Int], [])
  }

  /** `int x = a;` */
  function Init(a: int): Stmts {
    Cons(Decl(X, Int, IntLit(Int, a)), Nil)
  }

  /** `return x;` */
  function Last(): Stmts {
    Cons(Return(Var(Int, X)), Nil)
  }

  /** `int x = a; { int x = b; } return x;` */
  function Shadowing(a: int, b: int): Stmts {
    Cons(Decl(X, Int, IntLit(Int, a)), Cons(Block(Init(b)), Last()))
  }

  /** `{ int x = a; } { int x; return x; }` */
  function Siblings(a: int): Stmts {
    Cons(Block(Init(a)), Cons(Block(Cons(Decl(X, Int, NullExpr), Last())), Nil))
  }

  function Body(b: Stmts): Func {
    Func(Str("f"), Int, [], b)
  }

  /** What the emitted graph of a function without parameters returns. */
  ghost predicate Compiles(f: Func, w: World, m: Memory, v: int)
    requires f.params == []
  {
    match EmitFunction(map[], [], f)
    case Ok(fn) => fn.params == [] && exists m', tr :: TargetReturns(fn, w, [], m, v, m', tr)
    case Exit(_) => false
  }

  /** Two objects of type `int` at the first and second place of `x`. */
  ghost predicate TwoPlaces(at: Placement) {
    0 <= at(X, 0) && at(X, 0) + 4 <= at(X, 1) && at(X, 1) + 4 <= Modulus(I64)
  }

  /** A declaration that hides a visible name overwrites it: the emitted graph returns `b`, the C
      function returns `a`, so they agree exactly when the two values happen to be equal. */
  lemma {:induction false} ShadowingDiffers(c: CEnv, at: Placement, w: World, fuel: nat, a: int, b: int, m: Memory)
    requires InRange(I32, a) && InRange(I32, b) && TwoPlaces(at)
    ensures !Unshadowed({}, Shadowing(a, b))
    ensures Compiles(Body(Shadowing(a, b)), w, m, b)
    ensures var o := ScopedRun(c, at, fuel, Body(Shadowing(a, b)), [], m); o.Returned? && o.v == a && (o.v == b <==> a == b)
  {
    ShadowingHides(a, b);
    ShadowingScoped(c, at, fuel, a, b, m);
    var f := Body(Shadowing(a, b));
    ShadowingTyped(a, b);
    var c' := CompiledAsSource(f, w);
    ShadowingFlat(c', 0, a, b, m);
    ReturnsCompiled(f, c', w, m, b);
  }

  /** Reading a new object of the name of an old one: the C function has no meaning, while the
      emitted graph returns what the old one left in the slot. */
  lemma {:induction false} SiblingReadHasNoMeaning(c: CEnv, at: Placement, w: World, fuel: nat, a: int, m: Memory)
    requires InRange(I32, a) && TwoPlaces(at)
    ensures Unshadowed({}, Siblings(a))
    ensures Compiles(Body(Siblings(a)), w, m, a)
    ensures ScopedRun(c, at, fuel, Body(Siblings(a)), [], m).Erroneous?
  {
    SiblingsTyped(a);
    SiblingsUnshadowed(a);
    SiblingsScoped(c, at, fuel, a, m);
    var f := Body(Siblings(a));
    var c' := CompiledAsSource(f, w);
    SiblingsFlat(c', 0, a, m);
    ReturnsCompiled(f, c', w, m, a);
  }

  lemma {:induction false} CompiledAsSource(f: Func, w: World) returns (c: CEnv)
    requires TypedFunc(IntX(), f) && Closed(IntX(), f) && f.params == []
    ensures Table(IntX(), f).Ok? && EmitFunction(map[], [], f).Ok? && Placed(IntX(), Table(IntX(), f).value.table, c, w) && X in c.vars && !c.strict
  {
    hide Repeated;
    var te := IntX();
    RepeatedPlus([], Invocations(f.body), 0);
    NoneRepeated(Invocations(f.body));
    assert ParamNames([]) == {};
    assert Declared(f.body) - ParamNames(f.params) == {X};
    EmitSucceeds(te, f);
    TableFills(te, f, false);
    c := SourceWorld(te, Table(te, f).value.table, w);
    SourceWorldPlaced(te, Table(te, f).value.table, w);
    TableResolves(te, f, X);
  }

  lemma {:induction false} NoneRepeated(k: nat)
    ensures Repeated([], k) == 0
  {
  }

  lemma {:induction false} ReturnsCompiled(f: Func, c: CEnv, w: World, m: Memory, v: int)
    requires TypedFunc(IntX(), f) && Closed(IntX(), f) && f.params == [] && InRange(I32, v)
    requires Table(IntX(), f).Ok? && EmitFunction(map[], [], f).Ok? && Placed(IntX(), Table(IntX(), f).value.table, c, w)
    requires ExecStmts(c, 0, f.body, m, []).Returned? && ExecStmts(c, 0, f.body, m, []).v == v
    ensures Compiles(f, w, m, v)
  {
    hide TypedFunc, Closed, EmitFunction, ExecStmts, Placed, Table;
    var te, fn := IntX(), EmitFunction(map[], [], f).value;
    EmittedParts(te, f, fn);
    var o := ExecStmts(c, 0, f.body, m, []);
    assert BindParams(c, f.params, [], 0, m) == m;
    assert RunFunc(c, 0, f, [], m) == Returned(v, o.mem, o.tr);
    assert SourceReturns(c, f, [], m, v, o.mem, o.tr);
    FunctionEquivalence(te, f, fn, c, w, [], m);
    assert TargetReturns(fn, w, [], m, v, o.mem, o.tr);
  }

  lemma {:induction false} ValuesTyped(a: int)
    requires InRange(I32, a)
    ensures TypedValue(IntX(), Var(Int, X)) && TypedValue(IntX(), IntLit(Int, a))
  {
    var x, v := Var(Int, X), IntLit(Int, a);
    assert x.Var? && !NarrowAssign(x) && Typed(IntX(), x);
    assert v.IntLit? && !NarrowAssign(v) && Typed(IntX(), v);
  }

  lemma {:induction false} PiecesTyped(a: int)
    requires InRange(I32, a)
    ensures TypedStmts(IntX(), Init(a), false) && TypedStmts(IntX(), Last(), false)
  {
    assert TypedStmts(IntX(), Nil, false);
    ValuesTyped(a);
  }

  lemma {:induction false} PiecesDeclared(a: int)
    ensures Declared(Init(a)) == {X} && Declared(Last()) == {}
  {
    var init, last := Init(a), Last();
    assert Declared(init) == DeclaredIn(init.head) + Declared(Nil);
    assert DeclaredIn(init.head) == {init.head.name};
    assert Declared(last) == DeclaredIn(last.head) + Declared(Nil);
  }

  lemma {:induction false} PiecesUnshadowed(a: int)
    ensures Unshadowed({}, Init(a)) && Unshadowed({X}, Last())
  {
    var init, last := Init(a), Last();
    assert {} + Introduced(init.head) == {X};
    assert {X} + Introduced(last.head) == {X};
    assert Unshadowed({X}, Nil);
    assert UnshadowedStmt({X}, init.head) && UnshadowedStmt({X}, last.head);
  }

  lemma {:induction false} ShadowingTyped(a: int, b: int)
    requires InRange(I32, a) && InRange(I32, b)
    ensures TypedFunc(IntX(), Body(Shadowing(a, b))) && Closed(IntX(), Body(Shadowing(a, b)))
  {
    hide Init, Last;
    PiecesTyped(b);
    PiecesDeclared(b);
    var te, s := IntX(), Shadowing(a, b);
    ValuesTyped(a);
    assert TypedStmt(te, s.head, false) && TypedStmt(te, s.next.head, false);
    assert TypedStmts(te, s.next, false);
    assert Declared(s.next) == {X};
    assert Declared(s) == {X};
    NoParams();
  }

  lemma {:induction false} NoParams()
    ensures ParamNames([]) == {} && {} + {X} == IntX().vars.Keys
  {
  }

  lemma {:induction false} SiblingsTyped(a: int)
    requires InRange(I32, a)
    ensures TypedFunc(IntX(), Body(Siblings(a))) && Closed(IntX(), Body(Siblings(a)))
  {
    hide Init, Last;
    PiecesTyped(a);
    PiecesDeclared(a);
    var te, s := IntX(), Siblings(a);
    var two := s.next.head.block;
    assert TypedStmt(te, two.head, false);
    assert TypedStmts(te, two, false);
    assert TypedStmt(te, s.head, false) && TypedStmt(te, s.next.head, false);
    assert TypedStmts(te, s.next, false);
    assert DeclaredIn(two.head) == {X};
    assert Declared(two) == {X};
    assert Declared(s.next) == {X} + Declared(Nil);
    assert Declared(s) == {X};
    NoParams();
  }

  lemma {:induction false} SiblingsUnshadowed(a: int)
    ensures Unshadowed({}, Siblings(a))
  {
    hide Init, Last;
    PiecesUnshadowed(a);
    var s := Siblings(a);
    var two := s.next.head.block;
    assert {} + Introduced(two.head) == {X};
    assert Unshadowed({}, two);
    assert {} + Introduced(s.head) == {} && {} + Introduced(s.next.head) == {};
    assert UnshadowedStmt({}, s.next.head);
    assert Unshadowed({}, s.next);
    assert UnshadowedStmt({}, s.head);
  }

  lemma {:induction false} ShadowingHides(a: int, b: int)
    ensures !Unshadowed({}, Shadowing(a, b))
  {
    var s := Shadowing(a, b);
    var v := {} + Introduced(s.head);
    assert X in v;
    var w := v + Introduced(s.next.head);
    assert X in w;
    assert !Unshadowed(w, s.next.head.block);
    assert !UnshadowedStmt(w, s.next.head);
    assert !Unshadowed(v, s.next);
  }

  lemma {:induction false} ShadowingFlat(c: CEnv, fuel: nat, a: int, b: int, m: Memory)
    requires X in c.vars && InRange(I32, b) && !c.strict
    ensures var o := ExecStmts(c, fuel, Shadowing(a, b), m, []); o.Returned? && o.v == b
  {
    hide WriteTyped, ReadTyped;
    var home := Wrap64(c.vars[X]);
    var m1 := WriteTyped(m, home, Int, a);
    var m2 := WriteTyped(m1, home, Int, b);
    var inner, last := Init(b), Last();
    assert ExecStmts(c, fuel, inner, m1, []) == Normal(m2, []);
    assert ExecStmts(c, fuel, last, m2, []) == Returned(ReadTyped(m2, home, Int), m2, []);
    assert ExecStmts(c, fuel, Cons(Block(inner), last), m1, []) == ExecStmts(c, fuel, last, m2, []);
    ReadBack(m1, home, Int, b);
    SignedEncode(I32, b);
  }

  lemma {:induction false} SiblingsFlat(c: CEnv, fuel: nat, a: int, m: Memory)
    requires X in c.vars && InRange(I32, a) && !c.strict
    ensures var o := ExecStmts(c, fuel, Siblings(a), m, []); o.Returned? && o.v == a
  {
    hide WriteTyped, ReadTyped;
    var home := Wrap64(c.vars[X]);
    var m1 := WriteTyped(m, home, Int, a);
    var one, last := Init(a), Last();
    var two := Cons(Decl(X, Int, NullExpr), last);
    assert ExecStmts(c, fuel, one, m, []) == Normal(m1, []);
    assert ExecStmts(c, fuel, last, m1, []) == Returned(ReadTyped(m1, home, Int), m1, []);
    assert ExecStmts(c, fuel, two, m1, []) == ExecStmts(c, fuel, last, m1, []);
    assert ExecStmts(c, fuel, Cons(Block(two), Nil), m1, []) == ExecStmts(c, fuel, two, m1, []);
    ReadBack(m, home, Int, a);
    SignedEncode(I32, a);
  }

  // ----- lifetimes and memory -----

  lemma {:induction false} StoreWritten(m: Memory, a: int, n: nat, bits: nat, x: int)
    ensures x in m ==> x in StoreLE(m, a, n, bits)
    decreases n
  {
    if n > 0 { StoreWritten(m[Wrap64(a) := bits % 256], a + 1, n - 1, bits / 256, x); }
  }

  lemma {:induction false} WrittenWhere(m: Memory, a: int, n: nat)
    requires forall i :: a <= i < a + n ==> i in m
    requires 0 <= a <= SPACE - n
    ensures Written(m, a, n)
    decreases n
  {
    if n > 0 {
      ModUnique(a, 0, a, SPACE);
      WrittenWhere(m, a + 1, n - 1);
    }
  }

  /** The stored bytes have values. */
  lemma {:induction false} StoredWritten(m: Memory, a: int, n: nat, bits: nat, x: int)
    requires 0 <= a <= SPACE - n && a <= x < a + n
    ensures x in StoreLE(m, a, n, bits)
    decreases n
  {
    var m1 := m[Wrap64(a) := bits % 256];
    if x == a {
      ModUnique(a, 0, a, SPACE);
      StoreWritten(m1, a + 1, n - 1, bits / 256, x);
    } else {
      StoredWritten(m1, a + 1, n - 1, bits / 256, x);
    }
  }

  lemma {:induction false} CoversRange(a: int, n: nat, x: int)
    requires 0 <= a <= SPACE - n && 0 <= x < SPACE
    ensures Covers(a, n, x) <==> a <= x < a + n
  {
    if a <= x {
      ModUnique(x - a, 0, x - a, SPACE);
    } else {
      ModUnique(x - a, -1, x - a + SPACE, SPACE);
    }
  }

  /** Forgetting leaves the bytes apart as they are. */
  lemma {:induction false} ForgottenApart(m: Memory, a: int, n: nat, b: int, t: CType)
    requires Apart(a, n, b, Bytes(MemoryType(t)))
    ensures ReadTyped(Forgotten(m, a, n), b, t) == ReadTyped(m, b, t)
    ensures forall x :: b <= x < b + Bytes(MemoryType(t)) && x in m ==> x in Forgotten(m, a, n)
  {
    var m', k := Forgotten(m, a, n), Bytes(MemoryType(t));
    forall x | b <= x < b + k
      ensures ByteAt(m', x) == ByteAt(m, x) && (x in m ==> x in m')
    {
      CoversRange(a, n, x);
    }
    forall i | 0 <= i < k
      ensures ByteFrom(m', b, i) == ByteFrom(m, b, i)
    {
      ModUnique(b + i, 0, b + i, SPACE);
    }
    LoadDepends(m, m', b, k);
  }

  lemma {:induction false} IntegerWritten(m: Memory, p: int, v: int)
    requires 0 <= p <= SPACE - 4
    ensures forall x :: p <= x < p + 4 ==> x in WriteTyped(m, p, Int, v)
  {
    forall x | p <= x < p + 4
      ensures x in WriteTyped(m, p, Int, v)
    {
      StoredWritten(m, p, 4, v % Modulus(I32), x);
    }
  }

  lemma {:induction false} IntegerKept(m: Memory, p: int, q: int, v: int, x: int)
    requires x in m
    ensures x in WriteTyped(m, q, Int, v)
  {
    StoreWritten(m, q, 4, v % Modulus(I32), x);
  }

  /** After `x = a` at `p`, a new object at `q` does not disturb the old one. */
  lemma {:induction false} InnerObjectApart(m: Memory, p: int, q: int, a: int, b: int)
    requires 0 <= p && p + 4 <= q && q + 4 <= SPACE && InRange(I32, a)
    ensures var m2 := WriteTyped(Forgotten(WriteTyped(m, p, Int, a), q, 4), q, Int, b);
            Written(m2, p, 4) && ReadTyped(m2, p, Int) == a
  {
    hide WriteTyped, ReadTyped, Written, Forgotten;
    var m1 := WriteTyped(m, p, Int, a);
    var m1' := Forgotten(m1, q, 4);
    var m2 := WriteTyped(m1', q, Int, b);
    IntegerWritten(m, p, a);
    ForgottenApart(m1, q, 4, p, Int);
    forall x | p <= x < p + 4
      ensures x in m2
    {
      IntegerKept(m1', p, q, b, x);
    }
    WrittenWhere(m2, p, 4);
    ReadElsewhere(m1', q, Int, b, p, Int);
    ReadBack(m, p, Int, a);
    SignedEncode(I32, a);
  }

  /** `int x = b;`, where `x` already hides `d` names or is the first of its name. */
  lemma {:induction false} ScopedInit(c: CEnv, at: Placement, env: Env, d: nat, fuel: nat, b: int, m: Memory)
    requires Declare(env, X) == env[X := d] && 0 <= at(X, d) < Modulus(I64)
    ensures ScopedStmt(c, at, env[X := d], fuel, Init(b).head, Begun(c, at, env[X := d], Init(b).head, m), []) ==
            Normal(WriteTyped(Forgotten(m, at(X, d), 4), at(X, d), Int, b), [])
    ensures ScopedStmts(c, at, env, fuel, Init(b), m, []) ==
            Normal(WriteTyped(Forgotten(m, at(X, d), 4), at(X, d), Int, b), [])
  {
    hide WriteTyped, Forgotten;
    ModUnique(at(X, d), 0, at(X, d), Modulus(I64));
  }

  /** `return x;` */
  lemma {:induction false} ScopedLast(c: CEnv, at: Placement, fuel: nat, m: Memory)
    requires 0 <= at(X, 0) < Modulus(I64)
    ensures ScopedStmts(c, at, map[X := 0], fuel, Last(), m, []) ==
            if Written(m, at(X, 0), 4) then Returned(ReadTyped(m, at(X, 0), Int), m, []) else Erroneous
  {
    hide ReadTyped, Written;
    ModUnique(at(X, 0), 0, at(X, 0), Modulus(I64));
    assert Enter(map[X := 0], Last().head) == map[X := 0];
  }

  lemma {:induction false} FreshScope()
    ensures ParamScope([]) == map[] && Declare(map[], X) == map[X := 0] && Declare(map[X := 0], X) == map[X := 1]
    ensures map[][X := 0] == map[X := 0] && map[X := 0][X := 1] == map[X := 1]
  {
    assert ParamNames([]) == {};
  }

  lemma {:induction false} ShadowingScoped(c: CEnv, at: Placement, fuel: nat, a: int, b: int, m: Memory)
    requires InRange(I32, a) && TwoPlaces(at)
    ensures var o := ScopedRun(c, at, fuel, Body(Shadowing(a, b)), [], m); o.Returned? && o.v == a
  {
    hide WriteTyped, ReadTyped, Forgotten, Written, Init, Last, Declare, Begun;
    var p, q := at(X, 0), at(X, 1);
    var m0 := Forgotten(m, p, 4);
    var m1 := WriteTyped(m0, p, Int, a);
    var m2 := WriteTyped(Forgotten(m1, q, 4), q, Int, b);
    FreshScope();
    InnerObjectApart(m0, p, q, a, b);
    ScopedInit(c, at, map[], 0, fuel, a, m);
    ScopedInit(c, at, map[X := 0], 1, fuel, b, m1);
    ScopedLast(c, at, fuel, m2);
    var s := Shadowing(a, b);
    ShadowingParts(a, b);
    assert ScopedStmts(c, at, map[X := 0], fuel, s.next, m1, []) == ScopedStmts(c, at, map[X := 0], fuel, Last(), m2, []) by {
      BlockFirst(c, at, fuel, Init(b), Last(), m1, m2);
    }
    assert ScopedStmts(c, at, map[], fuel, s, m, []) == ScopedStmts(c, at, map[X := 0], fuel, s.next, m1, []);
    assert BindParams(Bound(c, at, map[]), [], [], 0, m) == m;
  }

  lemma {:induction false} ShadowingParts(a: int, b: int)
    ensures Shadowing(a, b).head == Init(a).head && Shadowing(a, b).next == Cons(Block(Init(b)), Last())
    ensures Enter(map[], Init(a).head) == Declare(map[], X)
  {
  }

  /** A block that completes normally, and what follows it. */
  lemma {:induction false} BlockFirst(c: CEnv, at: Placement, fuel: nat, b: Stmts, next: Stmts, m: Memory, m': Memory)
    requires ScopedStmts(c, at, map[X := 0], fuel, b, m, []) == Normal(m', [])
    ensures ScopedStmts(c, at, map[X := 0], fuel, Cons(Block(b), next), m, []) == ScopedStmts(c, at, map[X := 0], fuel, next, m', [])
  {
    assert Enter(map[X := 0], Block(b)) == map[X := 0];
    assert ScopedStmt(c, at, map[X := 0], fuel, Block(b), m, []) == Normal(m', []);
  }

  lemma {:induction false} SiblingsScoped(c: CEnv, at: Placement, fuel: nat, a: int, m: Memory)
    requires TwoPlaces(at)
    ensures ScopedRun(c, at, fuel, Body(Siblings(a)), [], m).Erroneous?
  {
    hide WriteTyped, ReadTyped, Forgotten, Written, Init, Last, Declare;
    var p := at(X, 0);
    var m1 := WriteTyped(Forgotten(m, p, 4), p, Int, a);
    FreshScope();
    ScopedInit(c, at, map[], 0, fuel, a, m);
    ForgottenUnwritten(m1, p);
    ScopedLast(c, at, fuel, Forgotten(m1, p, 4));
    var last := Cons(Decl(X, Int, NullExpr), Last());
    SecondSibling(c, at, fuel, m1);
    assert ScopedStmts(c, at, map[], fuel, Cons(Block(last), Nil), m1, []) == Erroneous;
    assert ScopedStmts(c, at, map[], fuel, Siblings(a), m, []) == ScopedStmts(c, at, map[], fuel, Cons(Block(last), Nil), m1, []);
    assert BindParams(Bound(c, at, map[]), [], [], 0, m) == m;
  }

  lemma {:induction false} ForgottenUnwritten(m: Memory, p: int)
    requires 0 <= p < SPACE
    ensures !Written(Forgotten(m, p, 4), p, 4)
  {
    ModUnique(p, 0, p, SPACE);
    ModUnique(0, 0, 0, SPACE);
  }

  lemma {:induction false} SecondSibling(c: CEnv, at: Placement, fuel: nat, m: Memory)
    requires ScopedStmts(c, at, map[X := 0], fuel, Last(), Forgotten(m, at(X, 0), 4), []) == Erroneous
    ensures ScopedStmts(c, at, map[], fuel, Cons(Decl(X, Int, NullExpr), Last()), m, []) == Erroneous
  {
    hide Forgotten, Last;
    FreshScope();
    var d := Decl(X, Int, NullExpr);
    assert Begun(c, at, map[X := 0], d, m) == Forgotten(m, at(X, 0), 4);
    assert ScopedStmt(c, at, map[X := 0], fuel, d, Forgotten(m, at(X, 0), 4), []) == Normal(Forgotten(m, at(X, 0), 4), []);
  }
}
