/** The abstract syntax the front end hands to the checker and the code generator. */
module Ast {
  import opened CTypes

  datatype BinOpKind =
    | OpAdd | OpSub | OpMul | OpDiv | OpMod
    | OpEq | OpNe | OpLt | OpLe | OpGt | OpGe
    | OpAnd | OpOr
    | OpAssign

  datatype UnOpKind = UnopNeg | UnopNot

  /** Expressions; `NullExpr` is a null pointer in place of a node. */
  datatype Expr =
    | NullExpr
    | IntLit(ty: CType, value: int)
    | StringLit(ty: CType, symbol: CString)
    | Var(ty: CType, name: CString)
    | Binop(ty: CType, op: BinOpKind, lhs: Expr, rhs: Expr)
    | Unop(ty: CType, uop: UnOpKind, operand: Expr)
    | Call(ty: CType, callee: CString, args: seq<Expr>)
    | AddrOf(ty: CType, operand: Expr)
    | Deref(ty: CType, operand: Expr)
    | Index(ty: CType, base: Expr, index: Expr)
    | Member(ty: CType, base: Expr, field: CString, isArrow: bool)

  datatype Stmt =
    | Return(ret: Expr)
    | Eval(expr: Expr)
    | Decl(name: CString, ty: CType, init: Expr)
    | Block(block: Stmts)
    | If(cond: Expr, thenBody: Stmts, elseBody: Stmts)
    | While(cond: Expr, body: Stmts)
    | For(first: Stmts, cond: Expr, post: Expr, body: Stmts)
    | Do(body: Stmts, cond: Expr)
    | Break
    | Continue

  /** A statement chain linked by `next`; `Nil` is the null pointer. */
  datatype Stmts = Nil | Cons(head: Stmt, next: Stmts)

  datatype Param = Param(name: CString, ty: CType)

  datatype Func = Func(name: CString, returnType: CType, params: seq<Param>, body: Stmts)

  predicate IsLvalueKind(e: Expr) {
    e.Var? || e.Deref? || e.Index? || e.Member?
  }

  /** An assignment to a one- or two-byte object. */
  predicate NarrowAssign(e: Expr) {
    e.Binop? && e.op.OpAssign? && !e.lhs.NullExpr? && (e.lhs.ty.Char? || e.lhs.ty.Short?)
  }
}
