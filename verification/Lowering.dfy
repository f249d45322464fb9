/** What the code generator computes, as functions: the instructions of an expression, and the
    builder state after a statement chain. The methods of `Codegen` are proved equal to these. */
module Lowering {
  import opened Results
  import opened Words
  import opened CTypes
  import opened Ast
  import opened Clif
  import opened SlotTable

  /** What stays fixed while a function body is lowered. */
  datatype Scope = Scope(layouts: Layouts, table: seq<LocalBinding>, data: seq<CString>)

  /** Instructions to append to the current block, the value they leave, the next free value. */
  datatype Code = Code(insts: seq<Inst>, val: nat, next: nat)

  function CmpCc(op: BinOpKind): Option<IntCC> {
    match op
    case OpEq => Some(Equal)
    case OpNe => Some(NotEqual)
    case OpLt => Some(SignedLessThan)
    case OpLe => Some(SignedLessThanOrEqual)
    case OpGt => Some(SignedGreaterThan)
    case OpGe => Some(SignedGreaterThanOrEqual)
    case _ => None
  }

  /** Truncation to the width of a store; one byte is reached in two steps. */
  function NarrowToStore(ls: Layouts, v: nat, t: CType, n: nat): Result<Code> {
    var sz :- StoreBytes(ls, t);
    Ok(if sz == 2 then Code([Ireduce(n, I16, v)], n, n + 1)
       else if sz == 1 then Code([Ireduce(n, I16, v), Ireduce(n + 1, I8, n)], n + 1, n + 2)
       else Code([], v, n))
  }

  /** `base op v * stride` on 64-bit values; the scaled operand comes first when `scaledFirst`. */
  function ScaledAddress(op: ArithOp, base: nat, v: nat, stride: nat, scaledFirst: bool, n: nat): Code {
    Code([Sextend(n, I64, v), Iconst(n + 1, I64, stride), Arith(n + 2, Imul, n, n + 1),
          if scaledFirst then Arith(n + 3, op, n + 2, base) else Arith(n + 3, op, base, n + 2)],
         n + 3, n + 4)
  }

  /** The tail of a two-operand expression, after both operands. */
  function BinopTail(ls: Layouts, op: BinOpKind, lt: CType, rt: CType, l: nat, r: nat, n: nat): Result<Code> {
    if CmpCc(op).Some? then
      Ok(Code([Icmp(n, CmpCc(op).value, l, r), Uextend(n + 1, I32, n)], n + 1, n + 2))
    else
      match op
      case OpAdd =>
        if IsPointer(lt) && !IsPointer(rt) then
          var stride :- TypeSize(ls, lt.to);
          Ok(ScaledAddress(Iadd, l, r, stride, false, n))
        else if IsPointer(rt) && !IsPointer(lt) then
          var stride :- TypeSize(ls, rt.to);
          Ok(ScaledAddress(Iadd, r, l, stride, true, n))
        else Ok(Code([Arith(n, Iadd, l, r)], n, n + 1))
      case OpSub =>
        if IsPointer(lt) && !IsPointer(rt) then
          var stride :- TypeSize(ls, lt.to);
          Ok(ScaledAddress(Isub, l, r, stride, false, n))
        else Ok(Code([Arith(n, Isub, l, r)], n, n + 1))
      case OpMul => Ok(Code([Arith(n, Imul, l, r)], n, n + 1))
      case OpDiv => Ok(Code([Arith(n, Sdiv, l, r)], n, n + 1))
      case OpMod => Ok(Code([Arith(n, Srem, l, r)], n, n + 1))
      case _ => Exit(UnsupportedBinop)
  }

  function UnopTail(op: UnOpKind, v: nat, n: nat): Code {
    match op
    case UnopNeg => Code([Ineg(n, v)], n, n + 1)
    case UnopNot => Code([Iconst(n, I32, 0), Icmp(n + 1, Equal, v, n), Uextend(n + 2, I32, n + 1)], n + 2, n + 3)
  }

  /** Loading a scalar from an address: narrow values are widened by the sign of their type. */
  function LoadTail(ls: Layouts, t: CType, addr: nat, n: nat): Result<Code> {
    var sz :- StoreBytes(ls, t);
    var st, ct := StoreCliftType(sz), ComputeType(sz);
    Ok(if sz < 4 then
         Code([Load(n, st, addr), if IsSigned(t) then Sextend(n + 1, ct, n) else Uextend(n + 1, ct, n)], n + 1, n + 2)
       else Code([Load(n, st, addr)], n, n + 1))
  }

  function FindData(data: seq<CString>, symbol: CString): Option<nat> {
    if data == [] then None
    else if data[0] == symbol then Some(0)
    else match FindData(data[1..], symbol)
         case Some(k) => Some(k + 1)
         case None => None
  }

  /** The type of the elements that `[]` selects. */
  function IndexedType(t: CType): Result<CType> {
    match t
    case Pointer(to) => Ok(to)
    case ConstantArray(elem, _) => Ok(elem)
    case IncompleteArray(elem) => Ok(elem)
    case _ => Exit(SizeofFailed)
  }

  function Pointed(t: CType): Option<CType> {
    if t.Pointer? then Some(t.to) else None
  }

  /** The field visitor compares names, so a null name crashes unless there is no field; a
      negative offset counts as a missing field. */
  function FieldOffset(ls: Layouts, t: Option<CType>, name: CString): Result<nat> {
    var fields := if t.Some? then FieldsOf(ls, t.value) else [];
    if fields != [] && name.Null? then Exit(NullDereference) else
    match FindField(fields, name)
    case Some(fd) => if LongOffset(fd.offset) < 0 then Exit(FieldNotFound) else Ok(LongOffset(fd.offset))
    case None => Exit(FieldNotFound)
  }

  function LvalCode(sc: Scope, e: Expr, n: nat): (r: Result<Code>)
    ensures r.Ok? ==> n <= r.value.next && r.value.val < r.value.next
    decreases e, 0
  {
    match e
    case NullExpr => Exit(NullDereference)
    case Var(_, x) =>
      var b :- LocalLookup(sc.table, x);
      if b.None? then Exit(UndefinedVariable)
      else Ok(Code([StackAddr(n, b.value.slot)], n, n + 1))
    case Deref(_, p) => ExprCode(sc, p, n)
    case Index(_, arr, ix) =>
      if arr.NullExpr? then Exit(NullDereference) else
      var base :- if IsPointer(arr.ty) then ExprCode(sc, arr, n) else LvalCode(sc, arr, n);
      var elem :- IndexedType(arr.ty);
      var stride :- TypeSize(sc.layouts, elem);
      var i :- ExprCode(sc, ix, base.next);
      var a := ScaledAddress(Iadd, base.val, i.val, stride, false, i.next);
      Ok(Code(base.insts + i.insts + a.insts, a.val, a.next))
    case Member(_, b, f, arrow) =>
      if b.NullExpr? then Exit(NullDereference) else
      var base :- if arrow then ExprCode(sc, b, n) else LvalCode(sc, b, n);
      var offset :- FieldOffset(sc.layouts, if arrow then Pointed(b.ty) else Some(b.ty), f);
      var k := base.next;
      Ok(Code(base.insts + [Iconst(k, I64, offset), Arith(k + 1, Iadd, base.val, k)], k + 1, k + 2))
    case _ => Exit(NotAnLvalue)
  }

  function ExprCode(sc: Scope, e: Expr, n: nat): (r: Result<Code>)
    ensures r.Ok? ==> n <= r.value.next && r.value.val < r.value.next
    decreases e, 1
  {
    match e
    case NullExpr => Exit(NullDereference)
    case IntLit(_, v) => Ok(Code([Iconst(n, I32, v)], n, n + 1))
    case StringLit(_, s) =>
      if sc.data != [] && s.Null? then Exit(NullDereference) else
      (match FindData(sc.data, s)
       case Some(k) => Ok(Code([GlobalValue(n, k)], n, n + 1))
       case None => Exit(UnknownString))
    case AddrOf(_, x) => LvalCode(sc, x, n)
    case Binop(_, op, l, r) =>
      if op.OpAssign? then
        var a :- LvalCode(sc, l, n);
        var v :- ExprCode(sc, r, a.next);
        var s :- NarrowToStore(sc.layouts, v.val, l.ty, v.next);
        Ok(Code(a.insts + v.insts + s.insts + [Store(a.val, s.val)], s.val, s.next))
      else
        var a :- ExprCode(sc, l, n);
        var b :- ExprCode(sc, r, a.next);
        var t :- BinopTail(sc.layouts, op, l.ty, r.ty, a.val, b.val, b.next);
        Ok(Code(a.insts + b.insts + t.insts, t.val, t.next))
    case Unop(_, op, x) =>
      var a :- ExprCode(sc, x, n);
      var t := UnopTail(op, a.val, a.next);
      Ok(Code(a.insts + t.insts, t.val, t.next))
    case Call(_, f, args) =>
      var a :- ArgsCode(sc, args, n);
      if f.Null? then Exit(NullDereference) else
      Ok(Code(a.insts + [CallInst(a.next, f, a.sig, a.vals)], a.next, a.next + 1))
    case _ =>
      if IsArray(e.ty) || IsStruct(e.ty) then LvalCode(sc, e, n) else
      var a :- LvalCode(sc, e, n);
      var t :- LoadTail(sc.layouts, e.ty, a.val, a.next);
      Ok(Code(a.insts + t.insts, t.val, t.next))
  }

  datatype CallArgs = CallArgs(insts: seq<Inst>, vals: seq<nat>, sig: seq<Ty>, next: nat)

  function ArgsCode(sc: Scope, args: seq<Expr>, n: nat): (r: Result<CallArgs>)
    ensures r.Ok? ==> n <= r.value.next && |r.value.vals| == |r.value.sig| == |args|
    ensures r.Ok? ==> forall i :: 0 <= i < |r.value.vals| ==> r.value.vals[i] < r.value.next
    decreases args, 0
  {
    if args == [] then Ok(CallArgs([], [], [], n)) else
    var a :- ExprCode(sc, args[0], n);
    var t :- AbiTypeForArg(sc.layouts, args[0].ty);
    var rest :- ArgsCode(sc, args[1..], a.next);
    Ok(CallArgs(a.insts + rest.insts, [a.val] + rest.vals, [t] + rest.sig, rest.next))
  }

  /** The builder and the mutable part of the lowering context. A block with a number below
      `|blocks|` exists; `current` is the insertion block, `next` the next free value. */
  datatype State = State(
    blocks: Blocks, current: nat, next: nat,
    loopBreak: Option<nat>, loopContinue: Option<nat>, terminated: bool)

  /** Appends to block `k`. */
  function Extended(blocks: Blocks, k: nat, insts: seq<Inst>): (r: Blocks)
    ensures |r| == |blocks|
  {
    if k < |blocks| then blocks[k := blocks[k] + insts] else blocks
  }

  function Emit(g: State, insts: seq<Inst>, next: nat): State {
    g.(blocks := Extended(g.blocks, g.current, insts), next := next)
  }

  function Terminate(g: State, i: Inst): State {
    Emit(g, [i], g.next).(terminated := true)
  }

  /** Ends the current block with a jump unless it has ended already. */
  function FallTo(g: State, target: nat): State {
    if g.terminated then g else Terminate(g, Jump(target))
  }

  function EmptyBlocks(k: nat): (r: Blocks)
    ensures |r| == k && forall i :: 0 <= i < k ==> r[i] == []
  {
    if k == 0 then [] else EmptyBlocks(k - 1) + [[]]
  }

  function CreateBlocks(g: State, k: nat): State {
    g.(blocks := g.blocks + EmptyBlocks(k))
  }

  function SwitchTo(g: State, k: nat): State {
    g.(current := k, terminated := false)
  }

  function InLoop(g: State, exit: nat, head: nat): State {
    g.(loopBreak := Some(exit), loopContinue := Some(head))
  }

  function Restored(g: State, saved: State): State {
    g.(loopBreak := saved.loopBreak, loopContinue := saved.loopContinue)
  }

  function EmitExpr(sc: Scope, g: State, e: Expr): Result<(State, nat)> {
    var c :- ExprCode(sc, e, g.next);
    Ok((Emit(g, c.insts, c.next), c.val))
  }

  /** A condition and the branch on it. */
  function EmitBranch(sc: Scope, g: State, e: Expr, t: nat, f: nat): Result<State> {
    var (g1, v) :- EmitExpr(sc, g, e);
    Ok(Terminate(g1, Brif(v, t, f)))
  }

  /** The whole chain; nothing is emitted after a terminator. */
  function LowerStmts(sc: Scope, g: State, s: Stmts): Result<State>
    decreases s, 0
  {
    if s.Nil? || g.terminated then Ok(g)
    else
      var g' :- LowerStmt(sc, g, s.head);
      LowerStmts(sc, g', s.next)
  }

  function LowerStmt(sc: Scope, g: State, s: Stmt): Result<State>
    decreases s, 2
  {
    match s
    case Return(e) =>
      var (g1, v) :- EmitExpr(sc, g, e);
      Ok(Terminate(g1, ReturnInst(v)))
    case Eval(e) =>
      var (g1, _) :- EmitExpr(sc, g, e);
      Ok(g1)
    case Decl(x, t, e) => if e.NullExpr? then Ok(g) else LowerInit(sc, g, x, t, e)
    case Block(b) => LowerStmts(sc, g, b)
    case If(e, t, f) => LowerIf(sc, g, e, t, f)
    case While(e, b) => LowerWhile(sc, g, e, b)
    case For(first, e, post, b) =>
      var g0 :- LowerStmts(sc, g, first);
      LowerForLoop(sc, g0, e, post, b)
    case Do(b, e) => LowerDo(sc, g, b, e)
    case Break =>
      if g.loopBreak.None? then Exit(BreakOutsideLoop) else Ok(Terminate(g, Jump(g.loopBreak.value)))
    case Continue =>
      if g.loopContinue.None? then Exit(ContinueOutsideLoop) else Ok(Terminate(g, Jump(g.loopContinue.value)))
  }

  /** The condition of an `if`; then-, else- and merge block are created together. */
  function LowerIfTest(sc: Scope, g: State, e: Expr, hasElse: bool): Result<State> {
    var (g1, v) :- EmitExpr(sc, g, e);
    var k := |g.blocks|;
    Ok(Terminate(CreateBlocks(g1, 3), Brif(v, k, if hasElse then k + 1 else k + 2)))
  }

  function LowerIf(sc: Scope, g: State, e: Expr, t: Stmts, f: Stmts): Result<State>
    decreases If(e, t, f), 1
  {
    var g2 :- LowerIfTest(sc, g, e, f.Cons?);
    LowerArms(sc, |g.blocks|, g2, e, t, f)
  }

  /** The arms of an `if`, in blocks `k` and `k + 1`. */
  function LowerArms(sc: Scope, k: nat, g: State, ghost e: Expr, t: Stmts, f: Stmts): Result<State>
    decreases If(e, t, f), 0
  {
    var g3 :- LowerStmts(sc, SwitchTo(g, k), t);
    if f.Nil? then Ok(SwitchTo(FallTo(g3, k + 2), k + 2)) else LowerElse(sc, k, g3, f)
  }

  /** The else arm in block `k + 1`, after the then arm ended in state `g`; insertion goes on in
      the merge block `k + 2` if one of the arms falls into it. */
  function LowerElse(sc: Scope, k: nat, g: State, f: Stmts): Result<State>
    decreases f, 1
  {
    var g5 :- LowerStmts(sc, SwitchTo(FallTo(g, k + 2), k + 1), f);
    var g6 := FallTo(g5, k + 2);
    Ok(if g.terminated && g5.terminated then g6 else SwitchTo(g6, k + 2))
  }

  /** Creates `count` blocks and falls into block `target`. */
  function EnterBlocks(g: State, count: nat, target: nat): State {
    SwitchTo(FallTo(CreateBlocks(g, count), target), target)
  }

  /** The end of a loop body: on to `target`, with the loop targets of `saved`. */
  function LeaveBody(g: State, target: nat, saved: State): State {
    Restored(FallTo(g, target), saved)
  }

  /** Blocks: head, body, exit. */
  function LowerWhile(sc: Scope, g: State, e: Expr, b: Stmts): Result<State>
    decreases b, 2
  {
    var k := |g.blocks|;
    var g2 :- EmitBranch(sc, EnterBlocks(g, 3, k), e, k + 1, k + 2);
    LowerWhileBody(sc, g, g2, b)
  }

  function LowerWhileBody(sc: Scope, g: State, g2: State, b: Stmts): Result<State>
    decreases b, 1
  {
    var k := |g.blocks|;
    var g3 :- LowerStmts(sc, SwitchTo(InLoop(g2, k + 2, k), k + 1), b);
    Ok(SwitchTo(LeaveBody(g3, k, g), k + 2))
  }

  /** Blocks: body, head, exit. */
  function LowerDo(sc: Scope, g: State, b: Stmts, e: Expr): Result<State>
    decreases b, 2
  {
    LowerDoBody(sc, g, EnterBlocks(g, 3, |g.blocks|), b, e)
  }

  function LowerDoBody(sc: Scope, g: State, g1: State, b: Stmts, e: Expr): Result<State>
    decreases b, 1
  {
    var k := |g.blocks|;
    var g2 :- LowerStmts(sc, InLoop(g1, k + 2, k + 1), b);
    LowerDoTest(sc, LeaveBody(g2, k + 1, g), k, e)
  }

  function LowerDoTest(sc: Scope, g: State, k: nat, e: Expr): Result<State> {
    var g' :- EmitBranch(sc, SwitchTo(g, k + 1), e, k, k + 2);
    Ok(SwitchTo(g', k + 2))
  }

  /** A `for` after its first clause. Blocks: head, step, body, exit. */
  function LowerForLoop(sc: Scope, g: State, e: Expr, post: Expr, b: Stmts): Result<State>
    decreases b, 2
  {
    var k := |g.blocks|;
    var g2 :- LowerForTest(sc, EnterBlocks(g, 4, k), e, k + 2, k + 3);
    LowerForBody(sc, g, g2, post, b)
  }

  function LowerForBody(sc: Scope, g: State, g2: State, post: Expr, b: Stmts): Result<State>
    decreases b, 1
  {
    var k := |g.blocks|;
    var g3 :- LowerStmts(sc, SwitchTo(InLoop(g2, k + 3, k + 1), k + 2), b);
    LowerForStep(sc, LeaveBody(g3, k + 1, g), k, post)
  }

  function LowerForStep(sc: Scope, g: State, k: nat, post: Expr): Result<State> {
    var g' :- LowerForPost(sc, SwitchTo(g, k + 1), post, k);
    Ok(SwitchTo(g', k + 3))
  }

  /** An initialised declaration: the value first, then the address. */
  function LowerInit(sc: Scope, g: State, x: CString, t: CType, e: Expr): Result<State> {
    var b :- LocalLookup(sc.table, x);
    if b.None? then Exit(DeclWithoutSlot) else
    var c :- ExprCode(sc, e, g.next);
    var s :- NarrowToStore(sc.layouts, c.val, t, c.next);
    Ok(Emit(g, c.insts + s.insts + [StackAddr(s.next, b.value.slot), Store(s.next, s.val)], s.next + 1))
  }

  /** A `for` without condition tests the constant 1. */
  function LowerForTest(sc: Scope, g: State, e: Expr, t: nat, f: nat): Result<State> {
    if e.NullExpr? then
      Ok(Terminate(Emit(g, [Iconst(g.next, I32, 1)], g.next + 1), Brif(g.next, t, f)))
    else EmitBranch(sc, g, e, t, f)
  }

  function LowerForPost(sc: Scope, g: State, post: Expr, head: nat): Result<State> {
    if post.NullExpr? then Ok(Terminate(g, Jump(head)))
    else
      var (g1, _) :- EmitExpr(sc, g, post);
      Ok(Terminate(g1, Jump(head)))
  }

  /** An emitted function: parameter and result types, slot sizes, blocks. Block 0 is the entry, and
      values 0 to |params| - 1 are its parameters. */
  datatype IrFunction = IrFunction(params: seq<Ty>, result: Ty, slots: seq<nat>, blocks: Blocks)

  function ParamTypes(ls: Layouts, params: seq<Param>): Result<seq<Ty>> {
    if params == [] then Ok([])
    else
      var t :- ComputeCliftType(ls, params[0].ty);
      var ts :- ParamTypes(ls, params[1..]);
      Ok([t] + ts)
  }

  /** Stores parameters `i`, `i + 1`, ... into their slots. */
  function StoreParams(table: seq<LocalBinding>, params: seq<Param>, i: nat, n: nat): Result<seq<Inst>>
    decreases |params| - i
  {
    if i >= |params| then Ok([])
    else
      var b :- LocalLookup(table, params[i].name);
      if b.None? then Exit(NullDereference) else
      var rest :- StoreParams(table, params, i + 1, n + 1);
      Ok([StackAddr(n, b.value.slot), Store(n, i)] + rest)
  }

  /** Control that falls off the end returns 0. */
  function Completed(g: State): State {
    if g.terminated then g
    else Terminate(Emit(g, [Iconst(g.next, I32, 0)], g.next + 1), ReturnInst(g.next))
  }

  /** The slots and the blocks of a function definition. */
  function EmitFrame(ls: Layouts, data: seq<CString>, f: Func): Result<(seq<nat>, Blocks)> {
    var locals :- CollectLocals(ls, f.params, Locals([], []), f.body);
    var n := |f.params|;
    var stores :- StoreParams(locals.table, f.params, 0, n);
    var g := State([stores], 0, n + n, None, None, false);
    var g' :- LowerStmts(Scope(ls, locals.table, data), g, f.body);
    Ok((locals.slots, Completed(g').blocks))
  }

  /** Compiles a function definition. */
  function EmitFunction(ls: Layouts, data: seq<CString>, f: Func): Result<IrFunction> {
    var sig :- ParamTypes(ls, f.params);
    var ret :- ComputeCliftType(ls, f.returnType);
    var (slots, blocks) :- EmitFrame(ls, data, f);
    Ok(IrFunction(sig, ret, slots, blocks))
  }

  /** What the compiler emits for a function: nothing if the body is empty, because that is how
      the syntax tree tells a declaration from a definition. */
  function EmitDefinition(ls: Layouts, data: seq<CString>, f: Func): Result<Option<IrFunction>> {
    if f.body.Nil? then Ok(None)
    else
      var fn :- EmitFunction(ls, data, f);
      Ok(Some(fn))
  }
}
