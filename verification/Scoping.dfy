/** Block scope against one binding per name. The compiler gives each name one slot for the whole
    function. In C a declaration is visible to the end of its block (C11 section 6.2.1) and starts
    the lifetime of a new object, without a value (section 6.2.4); objects whose lifetimes do not
    overlap may share storage. The two agree on every run that reads no byte without a value, of
    every function in which no declaration hides a visible name. */
module Scoping {
  import opened Results
  import opened Words
  import opened CTypes
  import opened ByteMemory
  import opened Ast
  import opened Clif
  import opened CSemantics
  import opened SlotTableCorrect
  import opened Lowering
  import opened WellTyped
  import opened FuncCorrect
  import opened ObjectMemory

  /** The visible names, each with the number of declarations its current one hides. */
  type Env = map<CString, nat>

  /** Where an object lives, from its name and the number of visible declarations it hides:
      objects of one name that are alive together lie in different places. */
  type Placement = (CString, nat) -> int

  function Declare(env: Env, x: CString): Env {
    env[x := if x in env then env[x] + 1 else 0]
  }

  /** A declaration is visible from its own initialiser on. */
  function Enter(env: Env, s: Stmt): Env {
    if s.Decl? then Declare(env, s.name) else env
  }

  function EnterAll(env: Env, s: Stmts): Env
    decreases s
  {
    match s
    case Nil => env
    case Cons(h, next) => EnterAll(Enter(env, h), next)
  }

  /** Names as the scope binds them, and no reading of bytes without a value. */
  function Bound(c: CEnv, at: Placement, env: Env): CEnv {
    c.(vars := map x | x in env :: x := at(x, env[x]), strict := true)
  }

  /** Memory in which the `n` bytes at `a` have no value. */
  function Forgotten(m: Memory, a: int, n: nat): Memory {
    map x | x in m && !Covers(a, n, x) :: m[x]
  }

  /** A declaration starts a new lifetime: whatever its storage held, by an earlier object of
      that name or by the last round of a loop, is gone (C11 section 6.2.4). */
  function Begun(c: CEnv, at: Placement, env: Env, s: Stmt, m: Memory): Memory {
    if s.Decl? && s.name in env then
      Forgotten(m, at(s.name, env[s.name]), match ByteSize(c.layouts, s.ty) case Some(n) => n case None => 0)
    else m
  }

  /** Statement meaning with block-scoped names. */
  function ScopedStmts(c: CEnv, at: Placement, env: Env, fuel: nat, s: Stmts, m: Memory, tr: Trace): Outcome
    decreases fuel, s, 0
  {
    match s
    case Nil => Normal(m, tr)
    case Cons(h, next) =>
      var inner := Enter(env, h);
      (match ScopedStmt(c, at, inner, fuel, h, Begun(c, at, inner, h, m), tr)
       case Normal(m', tr') => ScopedStmts(c, at, inner, fuel, next, m', tr')
       case o => o)
  }

  function ScopedStmt(c: CEnv, at: Placement, env: Env, fuel: nat, s: Stmt, m: Memory, tr: Trace): Outcome
    decreases fuel, s, 0
  {
    match s
    case Block(b) => ScopedStmts(c, at, env, fuel, b, m, tr)
    case If(e, t, f) =>
      var r := Rval(Bound(c, at, env), e, m, tr);
      if !r.Val? then Failed(r)
      else ScopedStmts(c, at, env, fuel, if r.v != 0 then t else f, r.mem, r.tr)
    case While(e, b) => ScopedWhile(c, at, env, fuel, e, b, m, tr)
    case For(first, e, post, b) =>
      (match ScopedStmts(c, at, env, fuel, first, m, tr)
       case Normal(m', tr') => ScopedFor(c, at, EnterAll(env, first), fuel, e, post, b, m', tr')
       case o => o)
    case Do(b, e) => ScopedDo(c, at, env, fuel, b, e, m, tr)
    case _ => ExecStmt(Bound(c, at, env), fuel, s, m, tr)
  }

  function ScopedWhile(c: CEnv, at: Placement, env: Env, fuel: nat, e: Expr, b: Stmts, m: Memory, tr: Trace): Outcome
    decreases fuel, b, 2
  {
    if fuel == 0 then OutOfFuel else
    var r := Rval(Bound(c, at, env), e, m, tr);
    if !r.Val? then Failed(r)
    else if r.v == 0 then Normal(r.mem, r.tr)
    else ScopedWhileBody(c, at, env, fuel, e, b, r.mem, r.tr)
  }

  function ScopedWhileBody(c: CEnv, at: Placement, env: Env, fuel: nat, e: Expr, b: Stmts, m: Memory, tr: Trace): Outcome
    requires fuel > 0
    decreases fuel, b, 1
  {
    match ScopedStmts(c, at, env, fuel, b, m, tr)
    case Normal(m', tr') => ScopedWhile(c, at, env, fuel - 1, e, b, m', tr')
    case Continued(m', tr') => ScopedWhile(c, at, env, fuel - 1, e, b, m', tr')
    case Broke(m', tr') => Normal(m', tr')
    case o => o
  }

  function ScopedFor(c: CEnv, at: Placement, env: Env, fuel: nat, e: Expr, post: Expr, b: Stmts, m: Memory, tr: Trace): Outcome
    decreases fuel, b, 2
  {
    if fuel == 0 then OutOfFuel else
    var r := if e.NullExpr? then Val(1, m, tr) else Rval(Bound(c, at, env), e, m, tr);
    if !r.Val? then Failed(r)
    else if r.v == 0 then Normal(r.mem, r.tr)
    else ScopedForBody(c, at, env, fuel, e, post, b, r.mem, r.tr)
  }

  function ScopedForBody(c: CEnv, at: Placement, env: Env, fuel: nat, e: Expr, post: Expr, b: Stmts, m: Memory, tr: Trace): Outcome
    requires fuel > 0
    decreases fuel, b, 1
  {
    match ScopedStmts(c, at, env, fuel, b, m, tr)
    case Normal(m', tr') => ScopedPost(c, at, env, fuel, e, post, b, m', tr')
    case Continued(m', tr') => ScopedPost(c, at, env, fuel, e, post, b, m', tr')
    case Broke(m', tr') => Normal(m', tr')
    case o => o
  }

  function ScopedPost(c: CEnv, at: Placement, env: Env, fuel: nat, e: Expr, post: Expr, b: Stmts, m: Memory, tr: Trace): Outcome
    requires fuel > 0
    decreases fuel, b, 0
  {
    var r := if post.NullExpr? then Val(0, m, tr) else Rval(Bound(c, at, env), post, m, tr);
    if r.Val? then ScopedFor(c, at, env, fuel - 1, e, post, b, r.mem, r.tr) else Failed(r)
  }

  function ScopedDo(c: CEnv, at: Placement, env: Env, fuel: nat, b: Stmts, e: Expr, m: Memory, tr: Trace): Outcome
    decreases fuel, b, 1
  {
    if fuel == 0 then OutOfFuel else
    match ScopedStmts(c, at, env, fuel, b, m, tr)
    case Normal(m', tr') => ScopedDoTest(c, at, env, fuel, b, e, m', tr')
    case Continued(m', tr') => ScopedDoTest(c, at, env, fuel, b, e, m', tr')
    case Broke(m', tr') => Normal(m', tr')
    case o => o
  }

  function ScopedDoTest(c: CEnv, at: Placement, env: Env, fuel: nat, b: Stmts, e: Expr, m: Memory, tr: Trace): Outcome
    requires fuel > 0
    decreases fuel, b, 0
  {
    var r := Rval(Bound(c, at, env), e, m, tr);
    if !r.Val? then Failed(r)
    else if r.v == 0 then Normal(r.mem, r.tr)
    else ScopedDo(c, at, env, fuel - 1, b, e, r.mem, r.tr)
  }

  // ----- the static condition -----

  /** The variables an expression mentions. */
  function Uses(e: Expr): set<CString> {
    match e
    case Var(_, x) => {x}
    case Binop(_, _, l, r) => Uses(l) + Uses(r)
    case Unop(_, _, x) => Uses(x)
    case Call(_, _, args) => UsesAll(args)
    case AddrOf(_, x) => Uses(x)
    case Deref(_, x) => Uses(x)
    case Index(_, b, i) => Uses(b) + Uses(i)
    case Member(_, b, _, _) => Uses(b)
    case _ => {}
  }

  function UsesAll(args: seq<Expr>): set<CString> {
    if args == [] then {} else Uses(args[0]) + UsesAll(args[1..])
  }

  function Introduced(s: Stmt): set<CString> {
    if s.Decl? then {s.name} else {}
  }

  function AllIntroduced(s: Stmts): set<CString> {
    match s
    case Nil => {}
    case Cons(h, next) => Introduced(h) + AllIntroduced(next)
  }

  /** Names are used where they are visible, and no declaration hides a visible name. */
  predicate Unshadowed(visible: set<CString>, s: Stmts)
    decreases s
  {
    match s
    case Nil => true
    case Cons(h, next) =>
      && (h.Decl? ==> h.name !in visible)
      && UnshadowedStmt(visible + Introduced(h), h) && Unshadowed(visible + Introduced(h), next)
  }

  predicate UnshadowedStmt(visible: set<CString>, s: Stmt)
    decreases s
  {
    match s
    case Return(e) => Uses(e) <= visible
    case Eval(e) => Uses(e) <= visible
    case Decl(_, _, e) => Uses(e) <= visible
    case Block(b) => Unshadowed(visible, b)
    case If(e, t, f) => Uses(e) <= visible && Unshadowed(visible, t) && Unshadowed(visible, f)
    case While(e, b) => Uses(e) <= visible && Unshadowed(visible, b)
    case For(first, e, post, b) =>
      && Unshadowed(visible, first) && Unshadowed(visible + AllIntroduced(first), b)
      && Uses(e) + Uses(post) <= visible + AllIntroduced(first)
    case Do(b, e) => Unshadowed(visible, b) && Uses(e) <= visible
    case _ => true
  }

  // ----- more bytes with a value -----

  /** `m'` has the values of `m`, and maybe more. */
  ghost predicate Sub(m: Memory, m': Memory) {
    forall x :: x in m ==> x in m' && m'[x] == m[x]
  }

  /** The callee does the same on the larger memory. */
  ghost predicate SameReply(ext: Extern, f: CString, vs: seq<int>, m: Memory, m': Memory, tr: Trace) {
    ext(f, vs, m, tr).0 == ext(f, vs, m', tr).0 && Sub(ext(f, vs, m, tr).1, ext(f, vs, m', tr).1)
  }

  /** Calls that read only bytes with a value do not depend on the other bytes. */
  ghost predicate Steady(c: CEnv) {
    forall f, vs, m, m', tr :: c.safe(f, vs, m, tr) && Sub(m, m') ==> SameReply(c.ext, f, vs, m, m', tr)
  }

  lemma {:induction false} StoreSub(m: Memory, m': Memory, a: int, n: nat, bits: nat)
    requires Sub(m, m')
    ensures Sub(StoreLE(m, a, n, bits), StoreLE(m', a, n, bits))
    decreases n
  {
    if n > 0 {
      StoreSub(m[Wrap64(a) := bits % 256], m'[Wrap64(a) := bits % 256], a + 1, n - 1, bits / 256);
    }
  }

  lemma {:induction false} LoadSub(m: Memory, m': Memory, a: int, n: nat)
    requires Sub(m, m') && Written(m, a, n)
    ensures LoadLE(m', a, n) == LoadLE(m, a, n)
    decreases n
  {
    if n > 0 {
      LoadSub(m, m', a + 1, n - 1);
    }
  }

  lemma {:induction false} ReadSub(m: Memory, m': Memory, a: int, t: CType)
    requires Sub(m, m') && Written(m, a, Bytes(MemoryType(t)))
    ensures ReadTyped(m', a, t) == ReadTyped(m, a, t)
  {
    LoadSub(m, m', a, Bytes(MemoryType(t)));
  }

  lemma {:induction false} WriteSub(m: Memory, m': Memory, a: int, t: CType, v: int)
    requires Sub(m, m')
    ensures Sub(WriteTyped(m, a, t, v), WriteTyped(m', a, t, v))
  {
    StoreSub(m, m', a, Bytes(MemoryType(t)), v % Modulus(MemoryType(t)));
  }

  // ----- expressions -----

  /** `d` is `c` without strictness, and binds `names` alike. */
  ghost predicate Looser(c: CEnv, d: CEnv, names: set<CString>) {
    && c.strict && d == c.(vars := d.vars, strict := false) && Steady(c)
    && forall x :: x in names ==> x in c.vars && x in d.vars && c.vars[x] == d.vars[x]
  }

  /** The loose evaluation does what the strict one does, if that has a meaning. */
  ghost predicate Refines(r: EvalResult, r': EvalResult) {
    match r
    case Val(v, m, tr) => r'.Val? && r'.v == v && r'.tr == tr && Sub(m, r'.mem)
    case Trap(_) => r' == r
    case Wrong => true
  }

  ghost predicate RefinesAll(r: EvalResults, r': EvalResults) {
    match r
    case Vals(vs, m, tr) => r'.Vals? && r'.vs == vs && r'.tr == tr && Sub(m, r'.mem)
    case Traps(_) => r' == r
    case Wrongs => true
  }

  lemma {:induction false} LooserRest(c: CEnv, d: CEnv, names: set<CString>)
    requires Looser(c, d, names)
    ensures c.ext == d.ext && c.safe == d.safe && c.syms == d.syms && c.layouts == d.layouts && c.strict && !d.strict && Steady(c)
  {
  }

  lemma {:induction false} LooserPart(c: CEnv, d: CEnv, names: set<CString>, part: set<CString>)
    requires Looser(c, d, names) && part <= names
    ensures Looser(c, d, part)
  {
  }

  lemma {:induction false} LooserRval(c: CEnv, d: CEnv, e: Expr, m: Memory, m': Memory, tr: Trace)
    requires Looser(c, d, Uses(e)) && Sub(m, m')
    ensures Refines(Rval(c, e, m, tr), Rval(d, e, m', tr))
    decreases e, 3
  {
    hide Operate, WriteTyped, ReadTyped, Convert, Lval, Looser, Sub, Written;
    LooserRest(c, d, Uses(e));
    match e
    case Binop(_, op, _, _) => if op.OpAssign? { LooserAssign(c, d, e, m, m', tr); } else { LooserBinop(c, d, e, m, m', tr); }
    case Unop(_, _, x) => LooserRval(c, d, x, m, m', tr);
    case Call(_, _, _) => LooserCall(c, d, e, m, m', tr);
    case AddrOf(_, x) => LooserLval(c, d, x, m, m', tr);
    case Var(_, _) => LooserLoad(c, d, e, m, m', tr);
    case Deref(_, _) => LooserLoad(c, d, e, m, m', tr);
    case Index(_, _, _) => LooserLoad(c, d, e, m, m', tr);
    case Member(_, _, _, _) => LooserLoad(c, d, e, m, m', tr);
    case _ =>
  }

  lemma {:induction false} LooserLoad(c: CEnv, d: CEnv, e: Expr, m: Memory, m': Memory, tr: Trace)
    requires Looser(c, d, Uses(e)) && Sub(m, m') && IsLvalueKind(e)
    ensures Refines(Rval(c, e, m, tr), Rval(d, e, m', tr))
    decreases e, 2
  {
    hide ReadTyped, Lval, Looser, Sub, Written;
    LooserRest(c, d, Uses(e));
    LooserLval(c, d, e, m, m', tr);
    var a, a' := Lval(c, e, m, tr), Lval(d, e, m', tr);
    if a.Val? && Written(a.mem, a.v, Bytes(MemoryType(e.ty))) {
      ReadSub(a.mem, a'.mem, a.v, e.ty);
    }
  }

  lemma {:induction false} LooserCall(c: CEnv, d: CEnv, e: Expr, m: Memory, m': Memory, tr: Trace)
    requires e.Call? && Looser(c, d, Uses(e)) && Sub(m, m')
    ensures Refines(Rval(c, e, m, tr), Rval(d, e, m', tr))
    decreases e, 0
  {
    hide Looser, Sub;
    LooserRest(c, d, Uses(e));
    LooserRvals(c, d, e.args, m, m', tr);
    var r, r' := Rvals(c, e.args, m, tr), Rvals(d, e.args, m', tr);
    if r.Vals? && c.safe(e.callee, r.vs, r.mem, r.tr) {
      assert SameReply(c.ext, e.callee, r.vs, r.mem, r'.mem, r.tr);
    }
  }

  lemma {:induction false} LooserLval(c: CEnv, d: CEnv, e: Expr, m: Memory, m': Memory, tr: Trace)
    requires Looser(c, d, Uses(e)) && Sub(m, m')
    ensures Refines(Lval(c, e, m, tr), Lval(d, e, m', tr))
    decreases e, 1
  {
    hide Rval, Sub;
    match e
    case Deref(_, x) => LooserRval(c, d, x, m, m', tr);
    case Index(_, _, _) => LooserIndex(c, d, e, m, m', tr);
    case Member(_, b, _, arrow) =>
      if !b.NullExpr? {
        if arrow { LooserRval(c, d, b, m, m', tr); } else { LooserLval(c, d, b, m, m', tr); }
      }
    case _ =>
  }

  lemma {:induction false} LooserBinop(c: CEnv, d: CEnv, e: Expr, m: Memory, m': Memory, tr: Trace)
    requires Looser(c, d, Uses(e)) && Sub(m, m') && e.Binop? && !e.op.OpAssign?
    ensures Refines(Rval(c, e, m, tr), Rval(d, e, m', tr))
    decreases e, 0
  {
    hide Operate, WriteTyped, Convert, Looser, Sub, Lval;
    LooserRest(c, d, Uses(e));
    LooserPart(c, d, Uses(e), Uses(e.lhs));
    LooserPart(c, d, Uses(e), Uses(e.rhs));
    LooserRval(c, d, e.lhs, m, m', tr);
    var a, a' := Rval(c, e.lhs, m, tr), Rval(d, e.lhs, m', tr);
    if a.Val? {
      LooserRval(c, d, e.rhs, a.mem, a'.mem, a.tr);
    }
  }

  lemma {:induction false} LooserAssign(c: CEnv, d: CEnv, e: Expr, m: Memory, m': Memory, tr: Trace)
    requires Looser(c, d, Uses(e)) && Sub(m, m') && e.Binop? && e.op.OpAssign?
    ensures Refines(Rval(c, e, m, tr), Rval(d, e, m', tr))
    decreases e, 0
  {
    hide WriteTyped, Convert, Looser, Sub, Lval;
    LooserPart(c, d, Uses(e), Uses(e.lhs));
    LooserPart(c, d, Uses(e), Uses(e.rhs));
    LooserLval(c, d, e.lhs, m, m', tr);
    var a, a' := Lval(c, e.lhs, m, tr), Lval(d, e.lhs, m', tr);
    if a.Val? && !e.lhs.NullExpr? {
      LooserRval(c, d, e.rhs, a.mem, a'.mem, a.tr);
      var v, v' := Rval(c, e.rhs, a.mem, a.tr), Rval(d, e.rhs, a'.mem, a.tr);
      if v.Val? {
        WriteSub(v.mem, v'.mem, a.v, e.lhs.ty, v.v);
      }
    }
  }

  lemma {:induction false} LooserIndex(c: CEnv, d: CEnv, e: Expr, m: Memory, m': Memory, tr: Trace)
    requires Looser(c, d, Uses(e)) && Sub(m, m') && e.Index?
    ensures Refines(Lval(c, e, m, tr), Lval(d, e, m', tr))
    decreases e, 0
  {
    hide Rval, Looser, Sub, ByteSize;
    LooserRest(c, d, Uses(e));
    LooserPart(c, d, Uses(e), Uses(e.base));
    LooserPart(c, d, Uses(e), Uses(e.index));
    if !e.base.NullExpr? {
      var a := if IsPointer(e.base.ty) then Rval(c, e.base, m, tr) else Lval(c, e.base, m, tr);
      var a' := if IsPointer(e.base.ty) then Rval(d, e.base, m', tr) else Lval(d, e.base, m', tr);
      if IsPointer(e.base.ty) { LooserRval(c, d, e.base, m, m', tr); } else { LooserLval(c, d, e.base, m, m', tr); }
      if a.Val? { LooserRval(c, d, e.index, a.mem, a'.mem, a.tr); }
    }
  }

  lemma {:induction false} LooserRvals(c: CEnv, d: CEnv, args: seq<Expr>, m: Memory, m': Memory, tr: Trace)
    requires Looser(c, d, UsesAll(args)) && Sub(m, m')
    ensures RefinesAll(Rvals(c, args, m, tr), Rvals(d, args, m', tr))
    decreases args, 0
  {
    hide Rval, Looser, Sub;
    if args != [] {
      LooserPart(c, d, UsesAll(args), Uses(args[0]));
      LooserPart(c, d, UsesAll(args), UsesAll(args[1..]));
      LooserRval(c, d, args[0], m, m', tr);
      var r, r' := Rval(c, args[0], m, tr), Rval(d, args[0], m', tr);
      if r.Val? { LooserRvals(c, d, args[1..], r.mem, r'.mem, r.tr); }
    }
  }

  // ----- statements -----

  /** One flat binding per name, at the place of its first object. */
  ghost predicate FlatAt(c: CEnv, at: Placement, names: set<CString>) {
    forall x :: x in names ==> x in c.vars && c.vars[x] == at(x, 0)
  }

  ghost predicate Hidden0(env: Env) {
    forall x :: x in env ==> env[x] == 0
  }

  /** The flat surroundings for a piece of program that declares `declared`. */
  ghost predicate Flat(c: CEnv, at: Placement, env: Env, declared: set<CString>) {
    Hidden0(env) && FlatAt(c, at, env.Keys + declared) && !c.strict && Steady(c)
  }

  lemma {:induction false} FlatPart(c: CEnv, at: Placement, env: Env, declared: set<CString>, part: set<CString>)
    requires Flat(c, at, env, declared) && part <= declared
    ensures Flat(c, at, env, part)
  {
  }

  lemma {:induction false} BoundLooser(c: CEnv, at: Placement, env: Env, declared: set<CString>, names: set<CString>)
    requires Flat(c, at, env, declared) && names <= env.Keys
    ensures Looser(Bound(c, at, env), c, names)
  {
  }

  lemma {:induction false} ScopedEval(c: CEnv, at: Placement, env: Env, declared: set<CString>, e: Expr, m: Memory, m': Memory, tr: Trace)
    requires Flat(c, at, env, declared) && Uses(e) <= env.Keys && Sub(m, m')
    ensures Refines(Rval(Bound(c, at, env), e, m, tr), Rval(c, e, m', tr))
  {
    hide Rval, Lval, Uses, Looser, Flat, Sub;
    BoundLooser(c, at, env, declared, Uses(e));
    LooserRval(Bound(c, at, env), c, e, m, m', tr);
  }

  lemma {:induction false} EnterVisible(env: Env, s: Stmt)
    requires Hidden0(env) && (s.Decl? ==> s.name !in env)
    ensures Hidden0(Enter(env, s)) && Enter(env, s).Keys == env.Keys + Introduced(s)
  {
  }

  lemma {:induction false} EnterAllVisible(env: Env, s: Stmts)
    requires Hidden0(env) && Unshadowed(env.Keys, s)
    ensures Hidden0(EnterAll(env, s)) && EnterAll(env, s).Keys == env.Keys + AllIntroduced(s)
    decreases s
  {
    if s.Cons? {
      EnterVisible(env, s.head);
      EnterAllVisible(Enter(env, s.head), s.next);
      assert env.Keys + Introduced(s.head) + AllIntroduced(s.next) == env.Keys + AllIntroduced(s);
    } else {
      assert env.Keys + {} == env.Keys;
    }
  }

  lemma {:induction false} IntroducedDeclared(s: Stmts)
    ensures AllIntroduced(s) <= Declared(s)
  {
    if s.Cons? { IntroducedDeclared(s.next); }
  }

  lemma {:induction false} FlatEnter(c: CEnv, at: Placement, env: Env, s: Stmts)
    requires s.Cons? && Flat(c, at, env, Declared(s)) && Unshadowed(env.Keys, s)
    ensures var inner := Enter(env, s.head);
            && Flat(c, at, inner, DeclaredIn(s.head)) && Flat(c, at, inner, Declared(s.next))
            && UnshadowedStmt(inner.Keys, s.head) && Unshadowed(inner.Keys, s.next)
            && (s.head.Decl? ==> s.head.name in inner)
  {
    EnterVisible(env, s.head);
  }

  lemma {:induction false} FlatEnterAll(c: CEnv, at: Placement, env: Env, first: Stmts, declared: set<CString>)
    requires Flat(c, at, env, Declared(first) + declared) && Unshadowed(env.Keys, first)
    ensures Flat(c, at, EnterAll(env, first), declared) && EnterAll(env, first).Keys == env.Keys + AllIntroduced(first)
  {
    EnterAllVisible(env, first);
    IntroducedDeclared(first);
  }

  lemma {:induction false} BegunSub(c: CEnv, at: Placement, env: Env, s: Stmt, m: Memory, m': Memory)
    requires Sub(m, m')
    ensures Sub(Begun(c, at, env, s, m), m')
  {
  }

  /** The flat run ends as the scoped one does, if that has a meaning: in the same way, with the
      same value and calls, and with all bytes that have a value there. */
  ghost predicate Follows(o: Outcome, o': Outcome) {
    match o
    case Normal(m, tr) => o'.Normal? && o'.tr == tr && Sub(m, o'.mem)
    case Broke(m, tr) => o'.Broke? && o'.tr == tr && Sub(m, o'.mem)
    case Continued(m, tr) => o'.Continued? && o'.tr == tr && Sub(m, o'.mem)
    case Returned(v, m, tr) => o'.Returned? && o'.v == v && o'.tr == tr && Sub(m, o'.mem)
    case Trapped(_) => o' == o
    case OutOfFuel => o' == o
    case Erroneous => true
  }

  /** A block-scoped run that reads no byte without a value is the flat run. */
  lemma {:induction false} FlatFollowsScoped(c: CEnv, at: Placement, env: Env, fuel: nat, s: Stmts, m: Memory, m': Memory, tr: Trace)
    requires Flat(c, at, env, Declared(s)) && Unshadowed(env.Keys, s) && Sub(m, m')
    ensures Follows(ScopedStmts(c, at, env, fuel, s, m, tr), ExecStmts(c, fuel, s, m', tr))
    decreases fuel, s, 0
  {
    hide Flat, Unshadowed, UnshadowedStmt, Begun, Enter, Declared, DeclaredIn, Sub, ScopedStmt, ExecStmt;
    if s.Cons? {
      var inner := Enter(env, s.head);
      FlatEnter(c, at, env, s);
      BegunSub(c, at, inner, s.head, m, m');
      var m1 := Begun(c, at, inner, s.head, m);
      FlatFollowsScopedStmt(c, at, inner, fuel, s.head, m1, m', tr);
      var o, o' := ScopedStmt(c, at, inner, fuel, s.head, m1, tr), ExecStmt(c, fuel, s.head, m', tr);
      if o.Normal? {
        FlatFollowsScoped(c, at, inner, fuel, s.next, o.mem, o'.mem, o.tr);
      }
    }
  }

  lemma {:induction false} FlatFollowsScopedStmt(c: CEnv, at: Placement, env: Env, fuel: nat, s: Stmt, m: Memory, m': Memory, tr: Trace)
    requires Flat(c, at, env, DeclaredIn(s)) && UnshadowedStmt(env.Keys, s) && (s.Decl? ==> s.name in env) && Sub(m, m')
    ensures Follows(ScopedStmt(c, at, env, fuel, s, m, tr), ExecStmt(c, fuel, s, m', tr))
    decreases fuel, s, 0
  {
    hide Flat, Bound, Declared, Uses, Sub, Unshadowed, Rval, ScopedStmts, ExecStmts, ScopedWhile, ScopedFor, ScopedDo,
      ExecWhile, ExecFor, ExecDo;
    match s
    case Return(e) => ScopedEval(c, at, env, DeclaredIn(s), e, m, m', tr);
    case Eval(e) => ScopedEval(c, at, env, DeclaredIn(s), e, m, m', tr);
    case Decl(x, t, e) => FlatFollowsScopedInit(c, at, env, fuel, x, t, e, m, m', tr);
    case Block(b) => FlatFollowsScoped(c, at, env, fuel, b, m, m', tr);
    case If(e, t, f) =>
      ScopedEval(c, at, env, DeclaredIn(s), e, m, m', tr);
      FlatPart(c, at, env, DeclaredIn(s), Declared(t));
      FlatPart(c, at, env, DeclaredIn(s), Declared(f));
      var r, r' := Rval(Bound(c, at, env), e, m, tr), Rval(c, e, m', tr);
      if r.Val? { FlatFollowsScoped(c, at, env, fuel, if r.v != 0 then t else f, r.mem, r'.mem, r.tr); }
    case While(e, b) => FlatFollowsScopedWhile(c, at, env, fuel, e, b, m, m', tr);
    case For(first, e, post, b) =>
      FlatPart(c, at, env, DeclaredIn(s), Declared(first));
      FlatFollowsScoped(c, at, env, fuel, first, m, m', tr);
      var o, o' := ScopedStmts(c, at, env, fuel, first, m, tr), ExecStmts(c, fuel, first, m', tr);
      if o.Normal? {
        FlatEnterAll(c, at, env, first, Declared(b));
        FlatFollowsScopedFor(c, at, EnterAll(env, first), fuel, e, post, b, o.mem, o'.mem, o.tr);
      }
    case Do(b, e) => FlatFollowsScopedDo(c, at, env, fuel, b, e, m, m', tr);
    case _ =>
  }

  lemma {:induction false} FlatFollowsScopedInit(c: CEnv, at: Placement, env: Env, fuel: nat, x: CString, t: CType, e: Expr, m: Memory, m': Memory, tr: Trace)
    requires Flat(c, at, env, {x}) && Uses(e) <= env.Keys && x in env && Sub(m, m')
    ensures Follows(ScopedStmt(c, at, env, fuel, Decl(x, t, e), m, tr), ExecStmt(c, fuel, Decl(x, t, e), m', tr))
  {
    hide Rval, Sub, Uses, WriteTyped;
    ScopedEval(c, at, env, {x}, e, m, m', tr);
    var r, r' := Rval(Bound(c, at, env), e, m, tr), Rval(c, e, m', tr);
    if r.Val? { WriteSub(r.mem, r'.mem, Wrap64(at(x, 0)), t, r.v); }
  }

  lemma {:induction false} FlatFollowsScopedWhile(c: CEnv, at: Placement, env: Env, fuel: nat, e: Expr, b: Stmts, m: Memory, m': Memory, tr: Trace)
    requires Flat(c, at, env, Declared(b)) && Unshadowed(env.Keys, b) && Uses(e) <= env.Keys && Sub(m, m')
    ensures Follows(ScopedWhile(c, at, env, fuel, e, b, m, tr), ExecWhile(c, fuel, e, b, m', tr))
    decreases fuel, b, 2
  {
    hide Flat, Bound, Declared, Uses, Sub, Unshadowed, Rval, ScopedWhileBody, ExecWhileBody;
    if fuel > 0 {
      ScopedEval(c, at, env, Declared(b), e, m, m', tr);
      var r, r' := Rval(Bound(c, at, env), e, m, tr), Rval(c, e, m', tr);
      if r.Val? && r.v != 0 {
        FlatFollowsScopedWhileBody(c, at, env, fuel, e, b, r.mem, r'.mem, r.tr);
      }
    }
  }

  lemma {:induction false} FlatFollowsScopedWhileBody(c: CEnv, at: Placement, env: Env, fuel: nat, e: Expr, b: Stmts, m: Memory, m': Memory, tr: Trace)
    requires fuel > 0
    requires Flat(c, at, env, Declared(b)) && Unshadowed(env.Keys, b) && Uses(e) <= env.Keys && Sub(m, m')
    ensures Follows(ScopedWhileBody(c, at, env, fuel, e, b, m, tr), ExecWhileBody(c, fuel, e, b, m', tr))
    decreases fuel, b, 1
  {
    hide Flat, Declared, Uses, Sub, Unshadowed, ScopedStmts, ExecStmts, ScopedWhile, ExecWhile;
    FlatFollowsScoped(c, at, env, fuel, b, m, m', tr);
    var o, o' := ScopedStmts(c, at, env, fuel, b, m, tr), ExecStmts(c, fuel, b, m', tr);
    if o.Normal? || o.Continued? {
      FlatFollowsScopedWhile(c, at, env, fuel - 1, e, b, o.mem, o'.mem, o.tr);
    }
  }

  ghost predicate ForScoped(c: CEnv, at: Placement, env: Env, e: Expr, post: Expr, b: Stmts) {
    Flat(c, at, env, Declared(b)) && Unshadowed(env.Keys, b) && Uses(e) + Uses(post) <= env.Keys
  }

  lemma {:induction false} FlatFollowsScopedFor(c: CEnv, at: Placement, env: Env, fuel: nat, e: Expr, post: Expr, b: Stmts, m: Memory, m': Memory, tr: Trace)
    requires ForScoped(c, at, env, e, post, b) && Sub(m, m')
    ensures Follows(ScopedFor(c, at, env, fuel, e, post, b, m, tr), ExecFor(c, fuel, e, post, b, m', tr))
    decreases fuel, b, 3
  {
    hide ForScoped, Bound, Sub, Rval, ScopedForBody, ExecForBody;
    if fuel > 0 {
      ForTestFollows(c, at, env, e, post, b, m, m', tr);
      var r := if e.NullExpr? then Val(1, m, tr) else Rval(Bound(c, at, env), e, m, tr);
      var r' := if e.NullExpr? then Val(1, m', tr) else Rval(c, e, m', tr);
      if r.Val? && r.v != 0 {
        FlatFollowsScopedForBody(c, at, env, fuel, e, post, b, r.mem, r'.mem, r.tr);
      }
    }
  }

  lemma {:induction false} FlatFollowsScopedForBody(c: CEnv, at: Placement, env: Env, fuel: nat, e: Expr, post: Expr, b: Stmts, m: Memory, m': Memory, tr: Trace)
    requires fuel > 0 && ForScoped(c, at, env, e, post, b) && Sub(m, m')
    ensures Follows(ScopedForBody(c, at, env, fuel, e, post, b, m, tr), ExecForBody(c, fuel, e, post, b, m', tr))
    decreases fuel, b, 2
  {
    hide ForScoped, Sub, ScopedStmts, ExecStmts, ScopedPost, ExecPost;
    ForBodyFollows(c, at, env, fuel, e, post, b, m, m', tr);
    var o, o' := ScopedStmts(c, at, env, fuel, b, m, tr), ExecStmts(c, fuel, b, m', tr);
    if o.Normal? || o.Continued? {
      FlatFollowsScopedPost(c, at, env, fuel, e, post, b, o.mem, o'.mem, o.tr);
    }
  }

  lemma {:induction false} FlatFollowsScopedPost(c: CEnv, at: Placement, env: Env, fuel: nat, e: Expr, post: Expr, b: Stmts, m: Memory, m': Memory, tr: Trace)
    requires fuel > 0 && ForScoped(c, at, env, e, post, b) && Sub(m, m')
    ensures Follows(ScopedPost(c, at, env, fuel, e, post, b, m, tr), ExecPost(c, fuel, e, post, b, m', tr))
    decreases fuel, b, 1
  {
    hide ForScoped, Bound, Sub, Rval, ScopedFor, ExecFor;
    ForPostFollows(c, at, env, e, post, b, m, m', tr);
    var r := if post.NullExpr? then Val(0, m, tr) else Rval(Bound(c, at, env), post, m, tr);
    var r' := if post.NullExpr? then Val(0, m', tr) else Rval(c, post, m', tr);
    if r.Val? {
      FlatFollowsScopedFor(c, at, env, fuel - 1, e, post, b, r.mem, r'.mem, r.tr);
    }
  }

  lemma {:induction false} ForTestFollows(c: CEnv, at: Placement, env: Env, e: Expr, post: Expr, b: Stmts, m: Memory, m': Memory, tr: Trace)
    requires ForScoped(c, at, env, e, post, b) && Sub(m, m')
    ensures Refines(Rval(Bound(c, at, env), e, m, tr), Rval(c, e, m', tr))
  {
    hide Flat, Bound, Uses, Rval, Sub;
    assert Uses(e) <= env.Keys;
    ScopedEval(c, at, env, Declared(b), e, m, m', tr);
  }

  lemma {:induction false} ForPostFollows(c: CEnv, at: Placement, env: Env, e: Expr, post: Expr, b: Stmts, m: Memory, m': Memory, tr: Trace)
    requires ForScoped(c, at, env, e, post, b) && Sub(m, m')
    ensures Refines(Rval(Bound(c, at, env), post, m, tr), Rval(c, post, m', tr))
  {
    hide Flat, Bound, Uses, Rval, Sub;
    assert Uses(post) <= env.Keys;
    ScopedEval(c, at, env, Declared(b), post, m, m', tr);
  }

  lemma {:induction false} ForBodyFollows(c: CEnv, at: Placement, env: Env, fuel: nat, e: Expr, post: Expr, b: Stmts, m: Memory, m': Memory, tr: Trace)
    requires ForScoped(c, at, env, e, post, b) && Sub(m, m')
    ensures Follows(ScopedStmts(c, at, env, fuel, b, m, tr), ExecStmts(c, fuel, b, m', tr))
    decreases fuel, b, 1
  {
    FlatFollowsScoped(c, at, env, fuel, b, m, m', tr);
  }

  lemma {:induction false} FlatFollowsScopedDo(c: CEnv, at: Placement, env: Env, fuel: nat, b: Stmts, e: Expr, m: Memory, m': Memory, tr: Trace)
    requires Flat(c, at, env, Declared(b)) && Unshadowed(env.Keys, b) && Uses(e) <= env.Keys && Sub(m, m')
    ensures Follows(ScopedDo(c, at, env, fuel, b, e, m, tr), ExecDo(c, fuel, b, e, m', tr))
    decreases fuel, b, 2
  {
    hide Flat, Declared, Uses, Sub, Unshadowed, ScopedStmts, ExecStmts, ScopedDoTest, ExecDoTest;
    if fuel > 0 {
      FlatFollowsScoped(c, at, env, fuel, b, m, m', tr);
      var o, o' := ScopedStmts(c, at, env, fuel, b, m, tr), ExecStmts(c, fuel, b, m', tr);
      if o.Normal? || o.Continued? {
        FlatFollowsScopedDoTest(c, at, env, fuel, b, e, o.mem, o'.mem, o.tr);
      }
    }
  }

  lemma {:induction false} FlatFollowsScopedDoTest(c: CEnv, at: Placement, env: Env, fuel: nat, b: Stmts, e: Expr, m: Memory, m': Memory, tr: Trace)
    requires fuel > 0
    requires Flat(c, at, env, Declared(b)) && Unshadowed(env.Keys, b) && Uses(e) <= env.Keys && Sub(m, m')
    ensures Follows(ScopedDoTest(c, at, env, fuel, b, e, m, tr), ExecDoTest(c, fuel, b, e, m', tr))
    decreases fuel, b, 1
  {
    hide Flat, Bound, Declared, Uses, Sub, Unshadowed, Rval, ScopedDo, ExecDo;
    ScopedEval(c, at, env, Declared(b), e, m, m', tr);
    var r, r' := Rval(Bound(c, at, env), e, m, tr), Rval(c, e, m', tr);
    if r.Val? && r.v != 0 {
      FlatFollowsScopedDo(c, at, env, fuel - 1, b, e, r.mem, r'.mem, r.tr);
    }
  }

  // ----- exactly when every name means one object -----

  /** Each name in `names` is visible and denotes the object at its first place. */
  ghost predicate AtHome(at: Placement, env: Env, names: set<CString>) {
    forall x :: x in names ==> x in env && at(x, env[x]) == at(x, 0)
  }

  /** Every use and every declaration of a name denotes the one object that the flat binding of
      the name denotes. */
  ghost predicate AllAtHome(at: Placement, env: Env, s: Stmts)
    decreases s
  {
    match s
    case Nil => true
    case Cons(h, next) =>
      AtHome(at, Enter(env, h), Introduced(h)) && AllAtHomeIn(at, Enter(env, h), h) && AllAtHome(at, Enter(env, h), next)
  }

  ghost predicate AllAtHomeIn(at: Placement, env: Env, s: Stmt)
    decreases s
  {
    match s
    case Return(e) => AtHome(at, env, Uses(e))
    case Eval(e) => AtHome(at, env, Uses(e))
    case Decl(_, _, e) => AtHome(at, env, Uses(e))
    case Block(b) => AllAtHome(at, env, b)
    case If(e, t, f) => AtHome(at, env, Uses(e)) && AllAtHome(at, env, t) && AllAtHome(at, env, f)
    case While(e, b) => AtHome(at, env, Uses(e)) && AllAtHome(at, env, b)
    case For(first, e, post, b) =>
      && AllAtHome(at, env, first) && AllAtHome(at, EnterAll(env, first), b)
      && AtHome(at, EnterAll(env, first), Uses(e) + Uses(post))
    case Do(b, e) => AllAtHome(at, env, b) && AtHome(at, env, Uses(e))
    case _ => true
  }

  /** Objects of one name that are visible at once lie apart. */
  ghost predicate PlacesDiffer(at: Placement) {
    forall x: CString, d: nat :: d > 0 ==> at(x, d) != at(x, 0)
  }

  lemma {:induction false} AtHomeExactly(at: Placement, env: Env, names: set<CString>)
    requires Hidden0(env)
    ensures AtHome(at, env, names) <==> names <= env.Keys
  {
  }

  lemma {:induction false} EnterExactly(at: Placement, env: Env, s: Stmt)
    requires PlacesDiffer(at) && Hidden0(env)
    ensures AtHome(at, Enter(env, s), Introduced(s)) <==> (s.Decl? ==> s.name !in env)
  {
    if s.Decl? {
      assert s.name in Introduced(s);
    }
  }

  /** Flat bindings mean the same objects as block-scoped ones, at every use and declaration,
      exactly when names are used where they are visible and none is hidden. */
  lemma {:induction false} ObjectsAgreeExactly(at: Placement, env: Env, s: Stmts)
    requires PlacesDiffer(at) && Hidden0(env)
    ensures AllAtHome(at, env, s) <==> Unshadowed(env.Keys, s)
    decreases s
  {
    hide Declare, PlacesDiffer, AtHome;
    if s.Cons? {
      EnterExactly(at, env, s.head);
      if s.head.Decl? ==> s.head.name !in env {
        EnterVisible(env, s.head);
        ObjectsAgreeExactlyIn(at, Enter(env, s.head), s.head);
        ObjectsAgreeExactly(at, Enter(env, s.head), s.next);
      }
    }
  }

  lemma {:induction false} ObjectsAgreeExactlyIn(at: Placement, env: Env, s: Stmt)
    requires PlacesDiffer(at) && Hidden0(env)
    ensures AllAtHomeIn(at, env, s) <==> UnshadowedStmt(env.Keys, s)
    decreases s
  {
    hide PlacesDiffer, AtHome, Uses, AllAtHome, Unshadowed;
    match s
    case Return(e) => AtHomeExactly(at, env, Uses(e));
    case Eval(e) => AtHomeExactly(at, env, Uses(e));
    case Decl(_, _, e) => AtHomeExactly(at, env, Uses(e));
    case Block(b) => ObjectsAgreeExactly(at, env, b);
    case If(e, t, f) =>
      AtHomeExactly(at, env, Uses(e));
      ObjectsAgreeExactly(at, env, t);
      ObjectsAgreeExactly(at, env, f);
    case While(e, b) =>
      AtHomeExactly(at, env, Uses(e));
      ObjectsAgreeExactly(at, env, b);
    case For(first, e, post, b) =>
      ObjectsAgreeExactly(at, env, first);
      if Unshadowed(env.Keys, first) {
        EnterAllVisible(env, first);
        ObjectsAgreeExactly(at, EnterAll(env, first), b);
        AtHomeExactly(at, EnterAll(env, first), Uses(e) + Uses(post));
      }
    case Do(b, e) =>
      ObjectsAgreeExactly(at, env, b);
      AtHomeExactly(at, env, Uses(e));
    case _ =>
  }

  // ----- whole functions -----

  ghost function ParamScope(params: seq<Param>): Env {
    map x | x in ParamNames(params) :: 0
  }

  /** A call with block-scoped names. */
  ghost function ScopedRun(c: CEnv, at: Placement, fuel: nat, f: Func, args: seq<int>, m: Memory): Outcome
    requires |args| == |f.params|
  {
    var env := ParamScope(f.params);
    match ScopedStmts(c, at, env, fuel, f.body, BindParams(Bound(c, at, env), f.params, args, 0, m), [])
    case Normal(m', tr) => Returned(0, m', tr)
    case o => o
  }

  ghost predicate ScopedReturns(c: CEnv, at: Placement, f: Func, args: seq<int>, m: Memory, v: int, m': Memory, tr: Trace)
    requires |args| == |f.params|
  {
    exists fuel: nat :: ScopedRun(c, at, fuel, f, args, m) == Returned(v, m', tr)
  }

  ghost predicate ScopedTraps(c: CEnv, at: Placement, f: Func, args: seq<int>, m: Memory, tr: Trace)
    requires |args| == |f.params|
  {
    exists fuel: nat :: ScopedRun(c, at, fuel, f, args, m) == Trapped(tr)
  }

  ghost predicate ScopedDiverges(c: CEnv, at: Placement, f: Func, args: seq<int>, m: Memory)
    requires |args| == |f.params|
  {
    forall fuel: nat :: ScopedRun(c, at, fuel, f, args, m) == OutOfFuel
  }

  /** The call reads no byte without a value, however long it runs. */
  ghost predicate HasMeaning(c: CEnv, at: Placement, f: Func, args: seq<int>, m: Memory)
    requires |args| == |f.params|
  {
    forall fuel: nat :: !ScopedRun(c, at, fuel, f, args, m).Erroneous?
  }

  lemma {:induction false} BindParamsSame(c: CEnv, d: CEnv, params: seq<Param>, args: seq<int>, i: nat, m: Memory)
    requires forall x :: x in ParamNames(params) ==> x in c.vars && x in d.vars && c.vars[x] == d.vars[x]
    requires |args| == |params|
    ensures BindParams(c, params, args, i, m) == BindParams(d, params, args, i, m)
    decreases |params| - i
  {
    if i < |params| {
      assert params[i].name in ParamNames(params);
      var x := params[i].name;
      var w := Encode(ValueType(params[i].ty), args[i]);
      BindParamsSame(c, d, params, args, i + 1, StoreLE(m, Wrap64(c.vars[x]), Bytes(w.ty), w.bits));
    }
  }

  ghost predicate Comparable(te: TypeEnv, f: Func, c: CEnv, at: Placement) {
    Closed(te, f) && Unshadowed(ParamNames(f.params), f.body) && FlatAt(c, at, te.vars.Keys) && !c.strict && Steady(c)
  }

  lemma {:induction false} RunFollows(te: TypeEnv, f: Func, c: CEnv, at: Placement, args: seq<int>, m: Memory, fuel: nat)
    requires Comparable(te, f, c, at) && |args| == |f.params|
    ensures Follows(ScopedRun(c, at, fuel, f, args, m), RunFunc(c, fuel, f, args, m))
  {
    hide ScopedStmts, ExecStmts, Unshadowed, Declared, Steady, BindParams;
    var env := ParamScope(f.params);
    assert env.Keys == ParamNames(f.params);
    BindParamsSame(Bound(c, at, env), c, f.params, args, 0, m);
    var m0 := BindParams(c, f.params, args, 0, m);
    FlatFollowsScoped(c, at, env, fuel, f.body, m0, m0, []);
  }

  ghost predicate ReturnsMore(fn: IrFunction, w: World, args: seq<int>, m: Memory, v: int, m': Memory, tr: Trace)
    requires |args| == |fn.params|
  {
    InRange(I32, v) && exists m'' :: Sub(m', m'') && TargetReturns(fn, w, args, m, v, m'', tr)
  }

  ghost predicate ReturnsLess(c: CEnv, at: Placement, f: Func, args: seq<int>, m: Memory, v: int, m'': Memory, tr: Trace)
    requires |args| == |f.params|
  {
    exists m' :: Sub(m', m'') && ScopedReturns(c, at, f, args, m, v, m', tr)
  }

  /** The emitted graph does what the block-scoped function does. If no declaration hides a visible
      name, every return, trap and divergence of the function is one of the graph; and if the
      function reads no byte without a value, every one of the graph is one of the function. */
  lemma {:induction false} CompiledIsScoped(te: TypeEnv, f: Func, fn: IrFunction, c: CEnv, at: Placement, w: World, args: seq<int>, m: Memory)
    requires TypedFunc(te, f) && EmitFunction(te.layouts, te.data, f) == Ok(fn)
    requires Table(te, f).Ok? && Placed(te, Table(te, f).value.table, c, w) && |args| == |f.params| == |fn.params|
    requires Comparable(te, f, c, at)
    ensures forall v, m', tr :: ScopedReturns(c, at, f, args, m, v, m', tr) ==> ReturnsMore(fn, w, args, m, v, m', tr)
    ensures forall tr :: ScopedTraps(c, at, f, args, m, tr) ==> TargetTraps(fn, w, args, m, tr)
    ensures ScopedDiverges(c, at, f, args, m) ==> TargetRunsForever(fn, w, args, m)
    ensures HasMeaning(c, at, f, args, m) ==>
              && (forall v, m'', tr | InRange(I32, v) :: TargetReturns(fn, w, args, m, v, m'', tr) ==> ReturnsLess(c, at, f, args, m, v, m'', tr))
              && (forall tr :: TargetTraps(fn, w, args, m, tr) ==> ScopedTraps(c, at, f, args, m, tr))
              && (TargetRunsForever(fn, w, args, m) ==> ScopedDiverges(c, at, f, args, m))
  {
    hide EmitFunction, TypedFunc, Placed, Table, ScopedRun, RunFunc, Sub, Steady, Unshadowed, FlatAt, Closed;
    assert Closed(te, f) by { ComparableClosed(te, f, c, at); }
    forall fuel: nat
      ensures Follows(ScopedRun(c, at, fuel, f, args, m), RunFunc(c, fuel, f, args, m))
    {
      RunFollows(te, f, c, at, args, m, fuel);
    }
    FunctionEquivalence(te, f, fn, c, w, args, m);
    forall v, m', tr | ScopedReturns(c, at, f, args, m, v, m', tr)
      ensures ReturnsMore(fn, w, args, m, v, m', tr)
    {
      var fuel: nat :| ScopedRun(c, at, fuel, f, args, m) == Returned(v, m', tr);
      var n := FunctionForward(te, f, fn, c, w, args, m, fuel);
      assert TargetReturns(fn, w, args, m, v, RunFunc(c, fuel, f, args, m).mem, tr);
    }
    forall tr | ScopedTraps(c, at, f, args, m, tr)
      ensures TargetTraps(fn, w, args, m, tr)
    {
      var fuel: nat :| ScopedRun(c, at, fuel, f, args, m) == Trapped(tr);
      assert SourceTraps(c, f, args, m, tr);
    }
    if HasMeaning(c, at, f, args, m) {
      MeaningBack(fn, c, at, f, args, m, w);
    }
  }

  lemma {:induction false} ComparableClosed(te: TypeEnv, f: Func, c: CEnv, at: Placement)
    requires Comparable(te, f, c, at)
    ensures Closed(te, f)
  {
  }

  lemma {:induction false} MeaningBack(fn: IrFunction, c: CEnv, at: Placement, f: Func, args: seq<int>, m: Memory, w: World)
    requires |args| == |f.params| == |fn.params| && HasMeaning(c, at, f, args, m)
    requires forall fuel: nat :: Follows(ScopedRun(c, at, fuel, f, args, m), RunFunc(c, fuel, f, args, m))
    requires forall v, m'', tr | InRange(I32, v) ::
               SourceReturns(c, f, args, m, v, m'', tr) <==> TargetReturns(fn, w, args, m, v, m'', tr)
    requires forall tr :: SourceTraps(c, f, args, m, tr) <==> TargetTraps(fn, w, args, m, tr)
    requires SourceDiverges(c, f, args, m) <==> TargetRunsForever(fn, w, args, m)
    ensures forall v, m'', tr | InRange(I32, v) :: TargetReturns(fn, w, args, m, v, m'', tr) ==> ReturnsLess(c, at, f, args, m, v, m'', tr)
    ensures forall tr :: TargetTraps(fn, w, args, m, tr) ==> ScopedTraps(c, at, f, args, m, tr)
    ensures TargetRunsForever(fn, w, args, m) ==> ScopedDiverges(c, at, f, args, m)
  {
    hide ScopedRun, RunFunc, Sub, TargetReturns, TargetTraps, TargetRunsForever;
    forall v, m'', tr | InRange(I32, v) && TargetReturns(fn, w, args, m, v, m'', tr)
      ensures ReturnsLess(c, at, f, args, m, v, m'', tr)
    {
      assert SourceReturns(c, f, args, m, v, m'', tr);
      var fuel: nat :| RunFunc(c, fuel, f, args, m) == Returned(v, m'', tr);
      var o := ScopedRun(c, at, fuel, f, args, m);
      assert o.Returned? && ScopedReturns(c, at, f, args, m, v, o.mem, tr);
    }
    forall tr | TargetTraps(fn, w, args, m, tr)
      ensures ScopedTraps(c, at, f, args, m, tr)
    {
      assert SourceTraps(c, f, args, m, tr);
      var fuel: nat :| RunFunc(c, fuel, f, args, m) == Trapped(tr);
      assert ScopedRun(c, at, fuel, f, args, m) == Trapped(tr);
    }
    if TargetRunsForever(fn, w, args, m) {
      forall fuel: nat
        ensures ScopedRun(c, at, fuel, f, args, m) == OutOfFuel
      {
        assert RunFunc(c, fuel, f, args, m) == OutOfFuel;
      }
    }
  }
}
