/** The fragment of C for which the compiler is proved correct, as static predicates on the
    syntax tree: what a C front end guarantees, minus the constructs the README leaves out. */
module WellTyped {
  import opened Results
  import opened Words
  import opened CTypes
  import opened Ast
  import opened CSemantics

  /** Record layouts, the type of each variable, and the string symbols of the program. */
  datatype TypeEnv = TypeEnv(layouts: Layouts, vars: map<CString, CType>, data: seq<CString>)

  /** Objects whose size the compiler gets right. */
  predicate Sized(te: TypeEnv, t: CType) {
    ByteSize(te.layouts, t).Some? && ByteSize(te.layouts, t).value < LONG_LIMIT
  }

  lemma {:induction false} SizedKept(te: TypeEnv, t: CType)
    requires Sized(te, t)
    ensures TypeSize(te.layouts, t) == Ok(ByteSize(te.layouts, t).value)
  {
    TypeSizeExactly(te.layouts, t);
  }

  /** Operand and result types of the two-operand operators other than assignment. */
  predicate OperatorTyped(te: TypeEnv, op: BinOpKind, lt: CType, rt: CType, t: CType) {
    var ints := ValueType(lt) == I32 && ValueType(rt) == I32;
    match op
    case OpEq => ValueType(lt) == ValueType(rt) && t.Int?
    case OpNe => ValueType(lt) == ValueType(rt) && t.Int?
    case OpAdd =>
      if lt.Pointer? then ValueType(rt) == I32 && t == lt && Sized(te, lt.to)
      else if rt.Pointer? then ValueType(lt) == I32 && t == rt && Sized(te, rt.to)
      else ints && t.Int?
    case OpSub =>
      if lt.Pointer? then ValueType(rt) == I32 && t == lt && Sized(te, lt.to) else ints && t.Int?
    case OpAnd => false
    case OpOr => false
    case OpAssign => false
    case _ => ints && t.Int?
  }

  predicate TypedLvalue(te: TypeEnv, e: Expr)
    decreases e, 0
  {
    match e
    case Var(t, x) => x.Str? && x in te.vars && te.vars[x] == t
    case Deref(t, p) => TypedValue(te, p) && p.ty == Pointer(t)
    case Index(t, arr, ix) =>
      && (if arr.NullExpr? then false
          else if arr.ty.Pointer? then TypedValue(te, arr)
          else IsArray(arr.ty) && TypedLvalue(te, arr))
      && t == ElementType(arr.ty) && Sized(te, t)
      && TypedValue(te, ix) && ValueType(ix.ty) == I32
    case Member(t, b, f, arrow) =>
      && f.Str?
      && (if b.NullExpr? then false
          else if arrow then TypedValue(te, b) && b.ty.Pointer?
          else TypedLvalue(te, b))
      && var fd := FindField(FieldsOf(te.layouts, if arrow then b.ty.to else b.ty), f);
         fd.Some? && fd.value.ty == t && fd.value.offset < OFFSET_LIMIT
    case _ => false
  }

  /** Expressions that may stand as statements and conditions. */
  predicate Typed(te: TypeEnv, e: Expr)
    decreases e, 1
  {
    match e
    case NullExpr => false
    case IntLit(t, v) => t.Int? && InRange(I32, v)
    case StringLit(t, s) => s.Str? && s in te.data && IsArray(t)
    case AddrOf(t, x) => TypedLvalue(te, x) && t == Pointer(x.ty)
    case Binop(t, op, l, r) =>
      if op.OpAssign? then
        TypedLvalue(te, l) && IsScalar(l.ty) && t == l.ty && TypedValue(te, r) && ValueType(r.ty) == ValueType(l.ty)
      else TypedValue(te, l) && TypedValue(te, r) && OperatorTyped(te, op, l.ty, r.ty, t)
    case Unop(t, _, x) => TypedValue(te, x) && ValueType(x.ty) == I32 && t.Int?
    case Call(t, f, args) =>
      f.Str? && t.Int? && forall i :: 0 <= i < |args| ==> TypedValue(te, args[i]) && !IsStruct(args[i].ty)
    case _ => TypedLvalue(te, e)
  }

  /** Expressions whose value may be used: all but assignments to narrow objects. */
  predicate TypedValue(te: TypeEnv, e: Expr)
    decreases e, 2
  {
    Typed(te, e) && !NarrowAssign(e)
  }

  predicate TypedStmts(te: TypeEnv, s: Stmts, inLoop: bool)
    decreases s, 0
  {
    match s
    case Nil => true
    case Cons(h, next) => TypedStmt(te, h, inLoop) && TypedStmts(te, next, inLoop)
  }

  /** `break` and `continue` occur in loops only; functions return `int`. */
  predicate TypedStmt(te: TypeEnv, s: Stmt, inLoop: bool)
    decreases s, 0
  {
    match s
    case Return(e) => TypedValue(te, e) && ValueType(e.ty) == I32
    case Eval(e) => Typed(te, e)
    case Decl(x, t, e) =>
      && x.Str? && x in te.vars && te.vars[x] == t && Sized(te, t)
      && (e.NullExpr? || (TypedValue(te, e) && IsScalar(t) && ValueType(e.ty) == ValueType(t)))
    case Block(b) => TypedStmts(te, b, inLoop)
    case If(e, t, f) => Typed(te, e) && TypedStmts(te, t, inLoop) && TypedStmts(te, f, inLoop)
    case While(e, b) => Typed(te, e) && TypedStmts(te, b, true)
    case For(first, e, post, b) =>
      && TypedStmts(te, first, inLoop) && TypedStmts(te, b, true)
      && (e.NullExpr? || Typed(te, e)) && (post.NullExpr? || Typed(te, post))
    case Do(b, e) => TypedStmts(te, b, true) && Typed(te, e)
    case Break => inLoop
    case Continue => inLoop
  }

  predicate TypedParams(te: TypeEnv, params: seq<Param>) {
    forall i :: 0 <= i < |params| ==>
      && params[i].name.Str? && params[i].name in te.vars && te.vars[params[i].name] == params[i].ty
      && IsScalar(params[i].ty)
  }

  predicate TypedFunc(te: TypeEnv, f: Func) {
    TypedBody(te, f, false)
  }

  /** With `inLoop`, the body may have `break` and `continue` outside of loops. */
  predicate TypedBody(te: TypeEnv, f: Func, inLoop: bool) {
    && TypedParams(te, f.params) && TypedStmts(te, f.body, inLoop)
    && f.returnType.Int? && f.body.Cons?
  }

  /** The machine type of a lowered expression. */
  function ResultType(e: Expr): Ty
    requires !e.NullExpr?
  {
    if NarrowAssign(e) then MemoryType(e.lhs.ty) else ValueType(e.ty)
  }
}
