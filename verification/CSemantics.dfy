/** The meaning of the source language: a big-step interpreter over mathematical integers,
    named variables and byte memory. Loops use fuel: `OutOfFuel` for every fuel is divergence. */
module CSemantics {
  import opened Words
  import opened CTypes
  import opened ByteMemory
  import opened Ast

  /** Whether a call, in this memory and after these calls, reads only bytes that have a value. */
  type Reads = (CString, seq<int>, Memory, Trace) -> bool

  /** The static and dynamic surroundings of a function body: record layouts, the address of
      each variable and string symbol, and the behaviour of callees. In strict surroundings
      reading a byte that has no value is an error, also for callees; otherwise it reads as zero. */
  datatype CEnv = CEnv(
    layouts: Layouts, vars: map<CString, int>, syms: map<CString, int>, ext: Extern,
    strict: bool, safe: Reads)

  datatype EvalResult = Val(v: int, mem: Memory, tr: Trace) | Trap(tr: Trace) | Wrong

  function ReadTyped(m: Memory, a: int, t: CType): int {
    Convert(t, LoadLE(m, a, Bytes(MemoryType(t))))
  }

  /** The `n` bytes at `a` have values. */
  predicate Written(m: Memory, a: int, n: nat)
    decreases n
  {
    n == 0 || (Wrap64(a) in m && Written(m, a + 1, n - 1))
  }

  /** Stores `v` converted to `t`: the low bytes, least significant first. */
  function WriteTyped(m: Memory, a: int, t: CType, v: int): Memory {
    StoreLE(m, a, Bytes(MemoryType(t)), v % Modulus(MemoryType(t)))
  }

  function AddressPlus(p: int, i: int, size: nat): int {
    Wrap64(p + i * size)
  }

  datatype Operated = Num(v: int) | DivisionFault | NoMeaning

  function Truth(b: bool): int {
    if b then 1 else 0
  }

  /** Two-operand operators on already evaluated operands. 32-bit arithmetic wraps; a pointer
      moves by whole pointees; dividing by zero, and a quotient that does not fit, trap. */
  function Operate(ls: Layouts, op: BinOpKind, lt: CType, rt: CType, a: int, b: int): Operated {
    match op
    case OpEq => Num(Truth(a == b))
    case OpNe => Num(Truth(a != b))
    case OpLt => Num(Truth(a < b))
    case OpLe => Num(Truth(a <= b))
    case OpGt => Num(Truth(a > b))
    case OpGe => Num(Truth(a >= b))
    case OpAdd =>
      if IsPointer(lt) && !IsPointer(rt) then MovePointer(ls, lt.to, a, b)
      else if IsPointer(rt) && !IsPointer(lt) then MovePointer(ls, rt.to, b, a)
      else Num(Wrap32(a + b))
    case OpSub =>
      if IsPointer(lt) && !IsPointer(rt) then MovePointer(ls, lt.to, a, -b)
      else Num(Wrap32(a - b))
    case OpMul => Num(Wrap32(a * b))
    case OpDiv =>
      if b == 0 then DivisionFault
      else if InRange(I32, TruncDiv(a, b)) then Num(TruncDiv(a, b))
      else DivisionFault
    case OpMod => if b == 0 then DivisionFault else Num(TruncRem(a, b))
    case _ => NoMeaning
  }

  function MovePointer(ls: Layouts, to: CType, p: int, i: int): Operated {
    match ByteSize(ls, to)
    case Some(size) => Num(AddressPlus(p, i, size))
    case None => NoMeaning
  }

  /** The address an lvalue designates. */
  function Lval(c: CEnv, e: Expr, m: Memory, tr: Trace): EvalResult
    decreases e, 0
  {
    match e
    case Var(_, x) => if x in c.vars then Val(Wrap64(c.vars[x]), m, tr) else Wrong
    case Deref(_, p) => Rval(c, p, m, tr)
    case Index(_, arr, ix) =>
      if arr.NullExpr? then Wrong else
      var base := if IsPointer(arr.ty) then Rval(c, arr, m, tr) else Lval(c, arr, m, tr);
      if !base.Val? then base else
      var i := Rval(c, ix, base.mem, base.tr);
      if !i.Val? then i else
      (match ByteSize(c.layouts, ElementType(arr.ty))
       case Some(size) => Val(AddressPlus(base.v, i.v, size), i.mem, i.tr)
       case None => Wrong)
    case Member(_, b, f, arrow) =>
      if b.NullExpr? then Wrong else
      var base := if arrow then Rval(c, b, m, tr) else Lval(c, b, m, tr);
      if !base.Val? then base else
      (match FindField(FieldsOf(c.layouts, if arrow then Pointee(b.ty) else b.ty), f)
       case Some(fd) => Val(AddressPlus(base.v, fd.offset, 1), base.mem, base.tr)
       case None => Wrong)
    case _ => Wrong
  }

  /** The value of an expression, with its effects on memory and the call trace. */
  function Rval(c: CEnv, e: Expr, m: Memory, tr: Trace): EvalResult
    decreases e, 1
  {
    match e
    case NullExpr => Wrong
    case IntLit(_, v) => Val(v, m, tr)
    case StringLit(_, s) => if s in c.syms then Val(Wrap64(c.syms[s]), m, tr) else Wrong
    case AddrOf(_, x) => Lval(c, x, m, tr)
    case Binop(_, op, l, r) =>
      if op.OpAssign? then
        if l.NullExpr? then Wrong else
        var a := Lval(c, l, m, tr);
        if !a.Val? then a else
        var v := Rval(c, r, a.mem, a.tr);
        if !v.Val? then v else
        Val(Convert(l.ty, v.v), WriteTyped(v.mem, a.v, l.ty, v.v), v.tr)
      else
        if l.NullExpr? || r.NullExpr? then Wrong else
        var a := Rval(c, l, m, tr);
        if !a.Val? then a else
        var b := Rval(c, r, a.mem, a.tr);
        if !b.Val? then b else
        (match Operate(c.layouts, op, l.ty, r.ty, a.v, b.v)
         case Num(v) => Val(v, b.mem, b.tr)
         case DivisionFault => Trap(b.tr)
         case NoMeaning => Wrong)
    case Unop(_, op, x) =>
      var a := Rval(c, x, m, tr);
      if !a.Val? then a else
      Val(if op.UnopNeg? then Wrap32(-a.v) else Truth(a.v == 0), a.mem, a.tr)
    case Call(_, f, args) =>
      (match Rvals(c, args, m, tr)
       case Vals(vs, m', tr') =>
         if c.strict && !c.safe(f, vs, m', tr') then Wrong else
         var (r, m'') := c.ext(f, vs, m', tr');
         Val(Wrap32(r), m'', tr' + [Event(f, vs, Wrap32(r))])
       case Traps(tr') => Trap(tr')
       case Wrongs => Wrong)
    case _ =>
      var a := Lval(c, e, m, tr);
      if !a.Val? || IsArray(e.ty) || IsStruct(e.ty) then a
      else if c.strict && !Written(a.mem, a.v, Bytes(MemoryType(e.ty))) then Wrong
      else Val(ReadTyped(a.mem, a.v, e.ty), a.mem, a.tr)
  }

  datatype EvalResults = Vals(vs: seq<int>, mem: Memory, tr: Trace) | Traps(tr: Trace) | Wrongs

  /** Call arguments, left to right. */
  function Rvals(c: CEnv, args: seq<Expr>, m: Memory, tr: Trace): EvalResults
    decreases args, 0
  {
    if args == [] then Vals([], m, tr) else
    match Rval(c, args[0], m, tr)
    case Val(v, m', tr') =>
      (match Rvals(c, args[1..], m', tr')
       case Vals(vs, m'', tr'') => Vals([v] + vs, m'', tr'')
       case r => r)
    case Trap(tr') => Traps(tr')
    case Wrong => Wrongs
  }

  function ElementType(t: CType): CType {
    match t
    case Pointer(to) => to
    case ConstantArray(elem, _) => elem
    case IncompleteArray(elem) => elem
    case _ => IncompleteArray(t)
  }

  function Pointee(t: CType): CType {
    match t
    case Pointer(to) => to
    case _ => IncompleteArray(t)
  }

  datatype Outcome =
    | Normal(mem: Memory, tr: Trace)
    | Broke(mem: Memory, tr: Trace)
    | Continued(mem: Memory, tr: Trace)
    | Returned(v: int, mem: Memory, tr: Trace)
    | Trapped(tr: Trace)
    | OutOfFuel
    | Erroneous

  function Failed(r: EvalResult): Outcome
    requires !r.Val?
  {
    if r.Trap? then Trapped(r.tr) else Erroneous
  }

  /** Statements in order, until one of them does not complete normally. */
  function ExecStmts(c: CEnv, fuel: nat, s: Stmts, m: Memory, tr: Trace): Outcome
    decreases fuel, s, 0
  {
    match s
    case Nil => Normal(m, tr)
    case Cons(h, next) =>
      (match ExecStmt(c, fuel, h, m, tr)
       case Normal(m', tr') => ExecStmts(c, fuel, next, m', tr')
       case o => o)
  }

  function ExecStmt(c: CEnv, fuel: nat, s: Stmt, m: Memory, tr: Trace): Outcome
    decreases fuel, s, 0
  {
    match s
    case Return(e) =>
      var r := Rval(c, e, m, tr);
      if r.Val? then Returned(r.v, r.mem, r.tr) else Failed(r)
    case Eval(e) =>
      var r := Rval(c, e, m, tr);
      if r.Val? then Normal(r.mem, r.tr) else Failed(r)
    case Decl(x, t, e) =>
      if e.NullExpr? then Normal(m, tr)
      else if x !in c.vars then Erroneous
      else
        var r := Rval(c, e, m, tr);
        if r.Val? then Normal(WriteTyped(r.mem, Wrap64(c.vars[x]), t, r.v), r.tr) else Failed(r)
    case Block(b) => ExecStmts(c, fuel, b, m, tr)
    case If(e, t, f) =>
      var r := Rval(c, e, m, tr);
      if !r.Val? then Failed(r)
      else ExecStmts(c, fuel, if r.v != 0 then t else f, r.mem, r.tr)
    case While(e, b) => ExecWhile(c, fuel, e, b, m, tr)
    case For(first, e, post, b) =>
      (match ExecStmts(c, fuel, first, m, tr)
       case Normal(m', tr') => ExecFor(c, fuel, e, post, b, m', tr')
       case o => o)
    case Do(b, e) => ExecDo(c, fuel, b, e, m, tr)
    case Break => Broke(m, tr)
    case Continue => Continued(m, tr)
  }

  /** C11 section 6.8.5.1. */
  function ExecWhile(c: CEnv, fuel: nat, e: Expr, b: Stmts, m: Memory, tr: Trace): Outcome
    decreases fuel, b, 2
  {
    if fuel == 0 then OutOfFuel else
    var r := Rval(c, e, m, tr);
    if !r.Val? then Failed(r)
    else if r.v == 0 then Normal(r.mem, r.tr)
    else ExecWhileBody(c, fuel, e, b, r.mem, r.tr)
  }

  function ExecWhileBody(c: CEnv, fuel: nat, e: Expr, b: Stmts, m: Memory, tr: Trace): Outcome
    requires fuel > 0
    decreases fuel, b, 1
  {
    match ExecStmts(c, fuel, b, m, tr)
    case Normal(m', tr') => ExecWhile(c, fuel - 1, e, b, m', tr')
    case Continued(m', tr') => ExecWhile(c, fuel - 1, e, b, m', tr')
    case Broke(m', tr') => Normal(m', tr')
    case o => o
  }

  /** C11 section 6.8.5.3, after the first clause; a missing condition is true. */
  function ExecFor(c: CEnv, fuel: nat, e: Expr, post: Expr, b: Stmts, m: Memory, tr: Trace): Outcome
    decreases fuel, b, 2
  {
    if fuel == 0 then OutOfFuel else
    var r := if e.NullExpr? then Val(1, m, tr) else Rval(c, e, m, tr);
    if !r.Val? then Failed(r)
    else if r.v == 0 then Normal(r.mem, r.tr)
    else ExecForBody(c, fuel, e, post, b, r.mem, r.tr)
  }

  function ExecForBody(c: CEnv, fuel: nat, e: Expr, post: Expr, b: Stmts, m: Memory, tr: Trace): Outcome
    requires fuel > 0
    decreases fuel, b, 1
  {
    match ExecStmts(c, fuel, b, m, tr)
    case Normal(m', tr') => ExecPost(c, fuel, e, post, b, m', tr')
    case Continued(m', tr') => ExecPost(c, fuel, e, post, b, m', tr')
    case Broke(m', tr') => Normal(m', tr')
    case o => o
  }

  function ExecPost(c: CEnv, fuel: nat, e: Expr, post: Expr, b: Stmts, m: Memory, tr: Trace): Outcome
    requires fuel > 0
    decreases fuel, b, 0
  {
    var r := if post.NullExpr? then Val(0, m, tr) else Rval(c, post, m, tr);
    if r.Val? then ExecFor(c, fuel - 1, e, post, b, r.mem, r.tr) else Failed(r)
  }

  /** C11 section 6.8.5.2. */
  function ExecDo(c: CEnv, fuel: nat, b: Stmts, e: Expr, m: Memory, tr: Trace): Outcome
    decreases fuel, b, 1
  {
    if fuel == 0 then OutOfFuel else
    match ExecStmts(c, fuel, b, m, tr)
    case Normal(m', tr') => ExecDoTest(c, fuel, b, e, m', tr')
    case Continued(m', tr') => ExecDoTest(c, fuel, b, e, m', tr')
    case Broke(m', tr') => Normal(m', tr')
    case o => o
  }

  function ExecDoTest(c: CEnv, fuel: nat, b: Stmts, e: Expr, m: Memory, tr: Trace): Outcome
    requires fuel > 0
    decreases fuel, b, 0
  {
    var r := Rval(c, e, m, tr);
    if !r.Val? then Failed(r)
    else if r.v == 0 then Normal(r.mem, r.tr)
    else ExecDo(c, fuel - 1, b, e, r.mem, r.tr)
  }
}
