/** The constructors of the syntax tree, which copy the names they are given. A null name is
    followed there and then, so no tree that they finish lacks a name; and what the check accepts
    of such trees compiles without following a null pointer. */
module AstBuild {
  import opened Results
  import opened CTypes
  import opened Ast
  import opened Lowering
  import opened Sema

  /** A copy of a string. */
  function DupStr(s: CString): Result<CString> {
    if s.Null? then Exit(NullDereference) else Ok(s)
  }

  function ExprString(t: CType, symbol: CString): Result<Expr> {
    var s :- DupStr(symbol);
    Ok(StringLit(t, s))
  }

  function ExprVar(t: CType, name: CString): Result<Expr> {
    var x :- DupStr(name);
    Ok(Var(t, x))
  }

  function ExprCall(t: CType, name: CString, args: seq<Expr>): Result<Expr> {
    var f :- DupStr(name);
    Ok(Call(t, f, args))
  }

  function ExprMember(t: CType, base: Expr, field: CString, isArrow: bool): Result<Expr> {
    var f :- DupStr(field);
    Ok(Member(t, base, f, isArrow))
  }

  function StmtDecl(name: CString, t: CType, init: Expr): Result<Stmt> {
    var x :- DupStr(name);
    Ok(Decl(x, t, init))
  }

  function FuncNew(name: CString, t: CType): Result<Func> {
    var f :- DupStr(name);
    Ok(Func(f, t, [], Nil))
  }

  function FuncAddParam(f: Func, name: CString, t: CType): Result<Func> {
    var x :- DupStr(name);
    Ok(f.(params := f.params + [Param(x, t)]))
  }

  // ----- building a tree -----

  /** The constructor calls that build `e`, operands first; the other constructors cannot fail. */
  function Built(e: Expr): Result<Expr>
    decreases e
  {
    match e
    case StringLit(t, s) => ExprString(t, s)
    case Var(t, x) => ExprVar(t, x)
    case Binop(t, op, l, r) =>
      var l' :- Built(l);
      var r' :- Built(r);
      Ok(Binop(t, op, l', r'))
    case Unop(t, op, x) =>
      var x' :- Built(x);
      Ok(Unop(t, op, x'))
    case Call(t, f, args) =>
      var args' :- AllBuilt(args);
      ExprCall(t, f, args')
    case AddrOf(t, x) =>
      var x' :- Built(x);
      Ok(AddrOf(t, x'))
    case Deref(t, x) =>
      var x' :- Built(x);
      Ok(Deref(t, x'))
    case Index(t, b, i) =>
      var b' :- Built(b);
      var i' :- Built(i);
      Ok(Index(t, b', i'))
    case Member(t, b, f, arrow) =>
      var b' :- Built(b);
      ExprMember(t, b', f, arrow)
    case _ => Ok(e)
  }

  function AllBuilt(es: seq<Expr>): Result<seq<Expr>>
    decreases es
  {
    if es == [] then Ok([])
    else
      var e :- Built(es[0]);
      var rest :- AllBuilt(es[1..]);
      Ok([e] + rest)
  }

  function BuiltStmts(s: Stmts): Result<Stmts> {
    match s
    case Nil => Ok(Nil)
    case Cons(h, next) =>
      var h' :- BuiltStmt(h);
      var next' :- BuiltStmts(next);
      Ok(Cons(h', next'))
  }

  function BuiltStmt(s: Stmt): Result<Stmt> {
    match s
    case Return(e) =>
      var e' :- Built(e);
      Ok(Return(e'))
    case Eval(e) =>
      var e' :- Built(e);
      Ok(Eval(e'))
    case Decl(x, t, e) =>
      var e' :- Built(e);
      StmtDecl(x, t, e')
    case Block(b) =>
      var b' :- BuiltStmts(b);
      Ok(Block(b'))
    case If(e, t, f) =>
      var e' :- Built(e);
      var t' :- BuiltStmts(t);
      var f' :- BuiltStmts(f);
      Ok(If(e', t', f'))
    case While(e, b) =>
      var e' :- Built(e);
      var b' :- BuiltStmts(b);
      Ok(While(e', b'))
    case For(first, e, post, b) =>
      var first' :- BuiltStmts(first);
      var e' :- Built(e);
      var post' :- Built(post);
      var b' :- BuiltStmts(b);
      Ok(For(first', e', post', b'))
    case Do(b, e) =>
      var b' :- BuiltStmts(b);
      var e' :- Built(e);
      Ok(Do(b', e'))
    case _ => Ok(s)
  }

  /** Adds parameters `i`, `i + 1`, ... one by one. */
  function WithParams(f: Func, params: seq<Param>, i: nat): Result<Func>
    decreases |params| - i
  {
    if i >= |params| then Ok(f)
    else
      var g :- FuncAddParam(f, params[i].name, params[i].ty);
      WithParams(g, params, i + 1)
  }

  function BuiltFunc(f: Func): Result<Func> {
    var g :- FuncNew(f.name, f.returnType);
    var h :- WithParams(g, f.params, 0);
    var body :- BuiltStmts(f.body);
    Ok(h.(body := body))
  }

  // ----- exactly the trees with all names -----

  /** Building succeeds for some trees, with the tree as result, and otherwise follows a null pointer. */
  ghost predicate BuildsIf<T(!new)>(r: Result<T>, t: T, named: bool) {
    r == if named then Ok(t) else Exit(NullDereference)
  }

  /** Every string, variable, field and callee has its name. */
  predicate AllNames(e: Expr)
    decreases e
  {
    match e
    case StringLit(_, s) => s.Str?
    case Var(_, x) => x.Str?
    case Binop(_, _, l, r) => AllNames(l) && AllNames(r)
    case Unop(_, _, x) => AllNames(x)
    case Call(_, f, args) => f.Str? && forall i :: 0 <= i < |args| ==> AllNames(args[i])
    case AddrOf(_, x) => AllNames(x)
    case Deref(_, x) => AllNames(x)
    case Index(_, b, i) => AllNames(b) && AllNames(i)
    case Member(_, b, f, _) => AllNames(b) && f.Str?
    case _ => true
  }

  lemma {:induction false} BuiltExactly(e: Expr)
    ensures BuildsIf(Built(e), e, AllNames(e))
    decreases e
  {
    match e
    case Binop(_, _, l, r) =>
      BuiltExactly(l);
      BuiltExactly(r);
    case Unop(_, _, x) => BuiltExactly(x);
    case Call(_, _, args) => AllBuiltExactly(args);
    case AddrOf(_, x) => BuiltExactly(x);
    case Deref(_, x) => BuiltExactly(x);
    case Index(_, b, i) =>
      BuiltExactly(b);
      BuiltExactly(i);
    case Member(_, b, _, _) => BuiltExactly(b);
    case _ =>
  }

  lemma {:induction false} AllBuiltExactly(es: seq<Expr>)
    ensures BuildsIf(AllBuilt(es), es, forall i :: 0 <= i < |es| ==> AllNames(es[i]))
    decreases es
  {
    if es != [] {
      BuiltExactly(es[0]);
      AllBuiltExactly(es[1..]);
      assert es == [es[0]] + es[1..];
      assert forall i :: 0 < i < |es| ==> es[i] == es[1..][i - 1];
      assert forall i :: 0 <= i < |es[1..]| ==> es[1..][i] == es[i + 1];
    }
  }

  /** Every name in a chain is there, at any depth. */
  predicate StmtsAllNames(s: Stmts) {
    match s
    case Nil => true
    case Cons(h, next) => StmtAllNames(h) && StmtsAllNames(next)
  }

  predicate StmtAllNames(s: Stmt) {
    match s
    case Return(e) => AllNames(e)
    case Eval(e) => AllNames(e)
    case Decl(x, _, e) => x.Str? && AllNames(e)
    case Block(b) => StmtsAllNames(b)
    case If(e, t, f) => AllNames(e) && StmtsAllNames(t) && StmtsAllNames(f)
    case While(e, b) => AllNames(e) && StmtsAllNames(b)
    case For(first, e, post, b) => StmtsAllNames(first) && AllNames(e) && AllNames(post) && StmtsAllNames(b)
    case Do(b, e) => StmtsAllNames(b) && AllNames(e)
    case _ => true
  }

  lemma {:induction false} BuiltStmtsExactly(s: Stmts)
    ensures BuildsIf(BuiltStmts(s), s, StmtsAllNames(s))
    decreases s
  {
    if s.Cons? {
      BuiltStmtExactly(s.head);
      BuiltStmtsExactly(s.next);
    }
  }

  lemma {:induction false} BuiltStmtExactly(s: Stmt)
    ensures BuildsIf(BuiltStmt(s), s, StmtAllNames(s))
    decreases s
  {
    hide Built, AllNames;
    match s
    case Return(e) => BuiltExactly(e);
    case Eval(e) => BuiltExactly(e);
    case Decl(_, _, e) => BuiltExactly(e);
    case Block(b) => BuiltStmtsExactly(b);
    case If(e, t, f) =>
      BuiltExactly(e);
      BuiltStmtsExactly(t);
      BuiltStmtsExactly(f);
    case While(e, b) =>
      BuiltExactly(e);
      BuiltStmtsExactly(b);
    case For(first, e, post, b) =>
      BuiltStmtsExactly(first);
      BuiltExactly(e);
      BuiltExactly(post);
      BuiltStmtsExactly(b);
    case Do(b, e) =>
      BuiltStmtsExactly(b);
      BuiltExactly(e);
    case _ =>
  }

  lemma {:induction false} WithParamsExactly(f: Func, params: seq<Param>, i: nat)
    requires i <= |params| && f.params == params[..i]
    ensures BuildsIf(WithParams(f, params, i), f.(params := params), forall j :: i <= j < |params| ==> params[j].name.Str?)
    decreases |params| - i
  {
    if i < |params| {
      assert params[..i + 1] == params[..i] + [params[i]];
      WithParamsExactly(f.(params := f.params + [params[i]]), params, i + 1);
    } else {
      assert params[..i] == params;
    }
  }

  /** The constructors finish exactly the functions in which every name is there. */
  lemma {:induction false} BuiltFuncExactly(f: Func)
    ensures BuildsIf(BuiltFunc(f), f, f.name.Str? && ParamsNamed(f.params) && StmtsAllNames(f.body))
  {
    if f.name.Str? {
      WithParamsExactly(Func(f.name, f.returnType, [], Nil), f.params, 0);
      BuiltStmtsExactly(f.body);
    }
  }

  // ----- what the check then guarantees -----

  lemma {:induction false} CalleesAmongNames(e: Expr)
    requires AllNames(e)
    ensures CalleesNamed(e)
    decreases e
  {
    match e
    case Binop(_, _, l, r) =>
      CalleesAmongNames(l);
      CalleesAmongNames(r);
    case Unop(_, _, x) => CalleesAmongNames(x);
    case Call(_, _, args) => AllCalleesAmongNames(args);
    case AddrOf(_, x) => CalleesAmongNames(x);
    case Deref(_, x) => CalleesAmongNames(x);
    case Index(_, b, i) =>
      CalleesAmongNames(b);
      CalleesAmongNames(i);
    case Member(_, b, _, _) => CalleesAmongNames(b);
    case _ =>
  }

  lemma {:induction false} AllCalleesAmongNames(es: seq<Expr>)
    requires forall i :: 0 <= i < |es| ==> AllNames(es[i])
    ensures AllCalleesNamed(es)
    decreases es
  {
    if es != [] {
      CalleesAmongNames(es[0]);
      AllCalleesAmongNames(es[1..]);
    }
  }

  lemma {:induction false} NamesAmongNames(s: Stmts)
    requires StmtsAllNames(s)
    ensures StmtsNamed(s)
    decreases s
  {
    if s.Cons? {
      StmtNamesAmongNames(s.head);
      NamesAmongNames(s.next);
    }
  }

  lemma {:induction false} StmtNamesAmongNames(s: Stmt)
    requires StmtAllNames(s)
    ensures StmtNamed(s)
    decreases s
  {
    hide AllNames, CalleesNamed;
    match s
    case Return(e) => CalleesAmongNames(e);
    case Eval(e) => CalleesAmongNames(e);
    case Decl(_, _, e) => CalleesAmongNames(e);
    case Block(b) => NamesAmongNames(b);
    case If(e, t, f) =>
      CalleesAmongNames(e);
      NamesAmongNames(t);
      NamesAmongNames(f);
    case While(e, b) =>
      CalleesAmongNames(e);
      NamesAmongNames(b);
    case For(first, e, post, b) =>
      NamesAmongNames(first);
      CalleesAmongNames(e);
      CalleesAmongNames(post);
      NamesAmongNames(b);
    case Do(b, e) =>
      NamesAmongNames(b);
      CalleesAmongNames(e);
    case _ =>
  }

  /** A function that the constructors have built and the check accepts compiles without
      following a null pointer, however ill-typed it is. */
  lemma {:induction false} BuiltAndAcceptedSafe(ls: Layouts, data: seq<CString>, f: Func)
    requires BuiltFunc(f).Ok? && Accepted(f)
    ensures NullSafe(EmitFunction(ls, data, f))
  {
    hide EmitFunction, BuiltFunc;
    BuiltFuncExactly(f);
    NamesAmongNames(f.body);
    StmtsNamedEnough(f.body);
    FunctionSafe(ls, data, f);
  }
}
