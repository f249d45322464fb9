/** A static type discipline for the emitted code, and its two theorems: code that passes never
    gets stuck, and every function the compiler emits passes, its unreachable blocks included. */
module IrTyping {
  import opened Results
  import opened Words
  import opened CTypes
  import opened Ast
  import opened Clif
  import opened SlotTable
  import opened Lowering
  import opened WellTyped
  import opened FuncCorrect

  /** The types of the values defined so far. */
  type Tys = map<nat, Ty>

  /** A new definition: every value is defined once. */
  function Define(tys: Tys, d: nat, t: Ty): Option<Tys> {
    if d in tys then None else Some(tys[d := t])
  }

  predicate ArgTypes(tys: Tys, sig: seq<Ty>, args: seq<nat>) {
    |sig| == |args| && forall i :: 0 <= i < |args| ==> args[i] in tys && tys[args[i]] == sig[i]
  }

  /** The types after one instruction, if it is well typed. */
  function InstTypes(tys: Tys, i: Inst): Option<Tys> {
    match i
    case Iconst(d, t, _) => Define(tys, d, t)
    case StackAddr(d, _) => Define(tys, d, I64)
    case GlobalValue(d, _) => Define(tys, d, I64)
    case Arith(d, _, x, y) =>
      if x in tys && y in tys && tys[x] == tys[y] then Define(tys, d, tys[x]) else None
    case Ineg(d, x) => if x in tys then Define(tys, d, tys[x]) else None
    case Icmp(d, _, x, y) => if x in tys && y in tys && tys[x] == tys[y] then Define(tys, d, I8) else None
    case Sextend(d, t, x) => if x in tys && Bytes(tys[x]) < Bytes(t) then Define(tys, d, t) else None
    case Uextend(d, t, x) => if x in tys && Bytes(tys[x]) < Bytes(t) then Define(tys, d, t) else None
    case Ireduce(d, t, x) => if x in tys && Bytes(t) < Bytes(tys[x]) then Define(tys, d, t) else None
    case Load(d, t, a) => if a in tys && tys[a] == I64 then Define(tys, d, t) else None
    case Store(a, x) => if a in tys && tys[a] == I64 && x in tys then Some(tys) else None
    case CallInst(d, _, sig, args) => if ArgTypes(tys, sig, args) then Define(tys, d, I32) else None
    case Jump(_) => Some(tys)
    case Brif(x, _, _) => if x in tys then Some(tys) else None
    case ReturnInst(x) => if x in tys && tys[x] == I32 then Some(tys) else None
  }

  function CodeTypes(tys: Tys, code: seq<Inst>): Option<Tys>
    decreases |code|
  {
    if code == [] then Some(tys)
    else
      match InstTypes(tys, code[0])
      case Some(tys') => CodeTypes(tys', code[1..])
      case None => None
  }

  lemma {:induction false} CodeTypesAppend(tys: Tys, a: seq<Inst>, b: seq<Inst>)
    ensures CodeTypes(tys, a + b) == match CodeTypes(tys, a) case Some(t) => CodeTypes(t, b) case None => None
    decreases |a|
  {
    if a == [] {
      assert a + b == b;
    } else {
      assert (a + b)[1..] == a[1..] + b;
      if InstTypes(tys, a[0]).Some? {
        CodeTypesAppend(InstTypes(tys, a[0]).value, a[1..], b);
      }
    }
  }

  // ----- soundness of the discipline -----

  /** The registers have at least the values of `tys`, at their types. */
  ghost predicate RegsTyped(tys: Tys, s: Mach) {
    forall k :: k in tys ==> k in s.regs && s.regs[k].ty == tys[k]
  }

  lemma {:induction false} TypedInstRuns(w: World, tys: Tys, i: Inst, s: Mach)
    requires RegsTyped(tys, s) && InstTypes(tys, i).Some? && !IsTerminator(i)
    ensures var o := Exec1(w, i, s);
            !o.Illegal? && (o.Next? ==> RegsTyped(InstTypes(tys, i).value, o.s))
  {
    if i.CallInst? {
      assert ArgsMatch(s.regs, i.sig, i.args);
    } else if i.Arith? {
      assert s.regs[i.x].ty == s.regs[i.y].ty;
    }
  }

  /** Well-typed straight-line code ends, or faults in a division, and keeps registers typed. */
  lemma {:induction false} TypedCodeRuns(w: World, tys: Tys, code: seq<Inst>, s: Mach)
    requires RegsTyped(tys, s) && CodeTypes(tys, code).Some? && StraightLine(code)
    ensures var o := ExecCode(w, code, s);
            !o.Illegal? && (o.Next? ==> RegsTyped(CodeTypes(tys, code).value, o.s))
    decreases |code|
  {
    if code != [] {
      TypedInstRuns(w, tys, code[0], s);
      var o := Exec1(w, code[0], s);
      if o.Next? {
        TypedCodeRuns(w, InstTypes(tys, code[0]).value, code[1..], o.s);
      }
    }
  }

  // ----- emitted expressions -----

  /** `tys'` adds to `tys` only values numbered from `n` up to `next`. */
  ghost predicate Adds(tys: Tys, tys': Tys, n: nat, next: nat) {
    && n <= next
    && (forall k :: k in tys ==> k in tys' && tys'[k] == tys[k])
    && (forall k :: k in tys' ==> k in tys || n <= k < next)
  }

  ghost predicate Below(tys: Tys, n: nat) {
    forall k :: k in tys ==> k < n
  }

  /** The code is well typed after `tys`, and leaves `val` with type `t`. */
  ghost predicate Yields(tys: Tys, code: seq<Inst>, val: nat, n: nat, next: nat, t: Ty) {
    match CodeTypes(tys, code)
    case Some(tys') => Adds(tys, tys', n, next) && val in tys' && tys'[val] == t
    case None => false
  }

  ghost function After(tys: Tys, code: seq<Inst>): Tys
    requires CodeTypes(tys, code).Some?
  {
    CodeTypes(tys, code).value
  }

  lemma {:induction false} Sequence(tys: Tys, a: seq<Inst>, b: seq<Inst>, val: nat, n: nat, k: nat, next: nat, t: Ty)
    requires CodeTypes(tys, a).Some? && Adds(tys, After(tys, a), n, k) && Below(tys, n)
    requires Yields(After(tys, a), b, val, k, next, t)
    ensures Yields(tys, a + b, val, n, next, t) && Below(After(tys, a), k)
  {
    CodeTypesAppend(tys, a, b);
  }

  lemma {:induction false} OneInst(tys: Tys, i: Inst)
    ensures CodeTypes(tys, [i]) == InstTypes(tys, i)
  {
    if InstTypes(tys, i).Some? {
      assert [i][1..] == [];
      assert CodeTypes(InstTypes(tys, i).value, []) == InstTypes(tys, i);
    }
  }

  lemma {:induction false} TwoInsts(tys: Tys, i: Inst, j: Inst)
    requires InstTypes(tys, i).Some?
    ensures CodeTypes(tys, [i, j]) == InstTypes(InstTypes(tys, i).value, j)
  {
    assert [i, j][1..] == [j];
    OneInst(InstTypes(tys, i).value, j);
  }

  lemma {:induction false} ScaledYields(tys: Tys, op: ArithOp, base: nat, v: nat, stride: nat, first: bool, n: nat)
    requires Below(tys, n) && base in tys && v in tys && tys[base] == I64 && tys[v] == I32
    ensures var c := ScaledAddress(op, base, v, stride, first, n); Yields(tys, c.insts, c.val, n, c.next, I64)
  {
    var c := ScaledAddress(op, base, v, stride, first, n).insts;
    assert c == [c[0], c[1]] + [c[2], c[3]];
    TwoInsts(tys, c[0], c[1]);
    var t1 := tys[n := I64][n + 1 := I64];
    TwoInsts(t1, c[2], c[3]);
    CodeTypesAppend(tys, [c[0], c[1]], [c[2], c[3]]);
  }

  lemma {:induction false} TailYields(te: TypeEnv, op: BinOpKind, lt: CType, rt: CType, t: CType, l: nat, r: nat, n: nat, tys: Tys)
    requires OperatorTyped(te, op, lt, rt, t) && BinopTail(te.layouts, op, lt, rt, l, r, n).Ok?
    requires Below(tys, n) && l in tys && r in tys && tys[l] == ValueType(lt) && tys[r] == ValueType(rt)
    ensures var c := BinopTail(te.layouts, op, lt, rt, l, r, n).value; Yields(tys, c.insts, c.val, n, c.next, ValueType(t))
  {
    hide ScaledAddress;
    var c := BinopTail(te.layouts, op, lt, rt, l, r, n).value;
    if CmpCc(op).Some? {
      TwoInsts(tys, c.insts[0], c.insts[1]);
    } else if (op.OpAdd? || op.OpSub?) && lt.Pointer? {
      ScaledYields(tys, if op.OpAdd? then Iadd else Isub, l, r, TypeSize(te.layouts, lt.to).value, false, n);
    } else if op.OpAdd? && rt.Pointer? {
      ScaledYields(tys, Iadd, r, l, TypeSize(te.layouts, rt.to).value, true, n);
    } else {
      OneInst(tys, c.insts[0]);
    }
  }

  lemma {:induction false} UnopYields(op: UnOpKind, v: nat, n: nat, tys: Tys)
    requires Below(tys, n) && v in tys && tys[v] == I32
    ensures var c := UnopTail(op, v, n); Yields(tys, c.insts, c.val, n, c.next, I32)
  {
    var c := UnopTail(op, v, n).insts;
    if op.UnopNeg? {
      OneInst(tys, c[0]);
    } else {
      assert c == [c[0], c[1]] + [c[2]];
      TwoInsts(tys, c[0], c[1]);
      OneInst(tys[n := I32][n + 1 := I8], c[2]);
      CodeTypesAppend(tys, [c[0], c[1]], [c[2]]);
    }
  }

  lemma {:induction false} NarrowYields(ls: Layouts, v: nat, t: CType, n: nat, tys: Tys)
    requires IsScalar(t) && Below(tys, n) && v in tys && tys[v] == ValueType(t)
    ensures NarrowToStore(ls, v, t, n).Ok?
    ensures var c := NarrowToStore(ls, v, t, n).value; Yields(tys, c.insts, c.val, n, c.next, MemoryType(t))
  {
    var c := NarrowToStore(ls, v, t, n).value;
    if t.Char? {
      TwoInsts(tys, c.insts[0], c.insts[1]);
    } else if t.Short? {
      OneInst(tys, c.insts[0]);
    }
  }

  lemma {:induction false} LoadYields(ls: Layouts, t: CType, addr: nat, n: nat, tys: Tys)
    requires IsScalar(t) && Below(tys, n) && addr in tys && tys[addr] == I64
    ensures LoadTail(ls, t, addr, n).Ok?
    ensures var c := LoadTail(ls, t, addr, n).value; Yields(tys, c.insts, c.val, n, c.next, ValueType(t))
  {
    var c := LoadTail(ls, t, addr, n).value;
    if t.Char? || t.Short? {
      TwoInsts(tys, c.insts[0], c.insts[1]);
    } else {
      OneInst(tys, c.insts[0]);
    }
  }

  /** Addresses have type I64. */
  lemma {:induction false} LvalYields(te: TypeEnv, sc: Scope, e: Expr, n: nat, tys: Tys)
    requires te.layouts == sc.layouts && TypedLvalue(te, e) && LvalCode(sc, e, n).Ok? && Below(tys, n)
    ensures var c := LvalCode(sc, e, n).value; Yields(tys, c.insts, c.val, n, c.next, I64)
    decreases e, 1
  {
    hide ExprCode, Yields, Below, InstTypes, CodeTypes;
    match e
    case Var(_, x) => VarYields(sc, e, n, tys);
    case Deref(_, p) => ExprYields(te, sc, p, n, tys);
    case Index(_, _, _) => IndexYields(te, sc, e, n, tys);
    case Member(_, _, _, _) => MemberYields(te, sc, e, n, tys);
  }

  lemma {:induction false} VarYields(sc: Scope, e: Expr, n: nat, tys: Tys)
    requires e.Var? && LvalCode(sc, e, n).Ok? && Below(tys, n)
    ensures var c := LvalCode(sc, e, n).value; Yields(tys, c.insts, c.val, n, c.next, I64)
  {
    OneInst(tys, LvalCode(sc, e, n).value.insts[0]);
  }

  lemma {:induction false} IndexYields(te: TypeEnv, sc: Scope, e: Expr, n: nat, tys: Tys)
    requires e.Index? && te.layouts == sc.layouts && TypedLvalue(te, e) && LvalCode(sc, e, n).Ok? && Below(tys, n)
    ensures var c := LvalCode(sc, e, n).value; Yields(tys, c.insts, c.val, n, c.next, I64)
    decreases e, 0
  {
    hide ExprCode, InstTypes, CodeTypes, ScaledAddress;
    var arr, ix, c := e.base, e.index, LvalCode(sc, e, n).value;
    var base := if IsPointer(arr.ty) then ExprCode(sc, arr, n).value else LvalCode(sc, arr, n).value;
    if IsPointer(arr.ty) {
      ExprYields(te, sc, arr, n, tys);
    } else {
      LvalYields(te, sc, arr, n, tys);
    }
    var i := ExprCode(sc, ix, base.next).value;
    var t1 := After(tys, base.insts);
    ExprYields(te, sc, ix, base.next, t1);
    var t2 := After(t1, i.insts);
    var a := ScaledAddress(Iadd, base.val, i.val, TypeSize(sc.layouts, IndexedType(arr.ty).value).value, false, i.next);
    ScaledYields(t2, Iadd, base.val, i.val, TypeSize(sc.layouts, IndexedType(arr.ty).value).value, false, i.next);
    Sequence(t1, i.insts, a.insts, a.val, base.next, i.next, a.next, I64);
    Sequence(tys, base.insts, i.insts + a.insts, a.val, n, base.next, a.next, I64);
    assert c.insts == base.insts + (i.insts + a.insts);
  }

  lemma {:induction false} MemberYields(te: TypeEnv, sc: Scope, e: Expr, n: nat, tys: Tys)
    requires e.Member? && te.layouts == sc.layouts && TypedLvalue(te, e) && LvalCode(sc, e, n).Ok? && Below(tys, n)
    ensures var c := LvalCode(sc, e, n).value; Yields(tys, c.insts, c.val, n, c.next, I64)
    decreases e, 0
  {
    hide ExprCode, CodeTypes, FieldOffset;
    var b, c := e.base, LvalCode(sc, e, n).value;
    var base := if e.isArrow then ExprCode(sc, b, n).value else LvalCode(sc, b, n).value;
    if e.isArrow {
      ExprYields(te, sc, b, n, tys);
    } else {
      LvalYields(te, sc, b, n, tys);
    }
    var k := base.next;
    var t1 := After(tys, base.insts);
    var off := c.insts[|base.insts|..];
    assert off == [off[0], off[1]] && c.insts == base.insts + off;
    TwoInsts(t1, off[0], off[1]);
    Sequence(tys, base.insts, off, k + 1, n, k, k + 2, I64);
  }

  /** Every expression yields the machine type of its C type, except that a narrow assignment
      yields the type it stores. */
  lemma {:induction false} ExprYields(te: TypeEnv, sc: Scope, e: Expr, n: nat, tys: Tys)
    requires te.layouts == sc.layouts && Typed(te, e) && ExprCode(sc, e, n).Ok? && Below(tys, n)
    ensures var c := ExprCode(sc, e, n).value; Yields(tys, c.insts, c.val, n, c.next, ResultType(e))
    decreases e, 3
  {
    hide LvalCode, Yields, Below, CodeTypes, InstTypes, LoadTail, UnopTail, BinopTail, NarrowToStore;
    match e
    case IntLit(_, _) => ConstYields(sc, e, n, tys);
    case StringLit(_, _) => ConstYields(sc, e, n, tys);
    case AddrOf(_, x) => LvalYields(te, sc, x, n, tys);
    case Binop(_, op, _, _) => if op.OpAssign? { AssignYields(te, sc, e, n, tys); } else { BinopYields(te, sc, e, n, tys); }
    case Unop(_, _, _) => UnopExprYields(te, sc, e, n, tys);
    case Call(_, _, _) => CallYields(te, sc, e, n, tys);
    case NullExpr => assert false;
    case _ => LoadedYields(te, sc, e, n, tys);
  }

  lemma {:induction false} ConstYields(sc: Scope, e: Expr, n: nat, tys: Tys)
    requires (e.IntLit? && e.ty.Int?) || (e.StringLit? && IsArray(e.ty))
    requires ExprCode(sc, e, n).Ok? && Below(tys, n)
    ensures var c := ExprCode(sc, e, n).value; Yields(tys, c.insts, c.val, n, c.next, ValueType(e.ty))
  {
    OneInst(tys, ExprCode(sc, e, n).value.insts[0]);
  }

  lemma {:induction false} LoadedYields(te: TypeEnv, sc: Scope, e: Expr, n: nat, tys: Tys)
    requires IsLvalueKind(e) && te.layouts == sc.layouts && TypedLvalue(te, e) && ExprCode(sc, e, n).Ok? && Below(tys, n)
    ensures var c := ExprCode(sc, e, n).value; Yields(tys, c.insts, c.val, n, c.next, ValueType(e.ty))
    decreases e, 2
  {
    hide LvalCode, CodeTypes, InstTypes, LoadTail;
    LvalYields(te, sc, e, n, tys);
    if !IsArray(e.ty) && !IsStruct(e.ty) {
      var a := LvalCode(sc, e, n).value;
      var t := LoadTail(sc.layouts, e.ty, a.val, a.next).value;
      LoadYields(sc.layouts, e.ty, a.val, a.next, After(tys, a.insts));
      Sequence(tys, a.insts, t.insts, t.val, n, a.next, t.next, ValueType(e.ty));
    }
  }

  lemma {:induction false} UnopExprYields(te: TypeEnv, sc: Scope, e: Expr, n: nat, tys: Tys)
    requires e.Unop? && te.layouts == sc.layouts && Typed(te, e) && ExprCode(sc, e, n).Ok? && Below(tys, n)
    ensures var c := ExprCode(sc, e, n).value; Yields(tys, c.insts, c.val, n, c.next, I32)
    decreases e, 0
  {
    hide LvalCode, CodeTypes, InstTypes, UnopTail;
    ExprYields(te, sc, e.operand, n, tys);
    var a := ExprCode(sc, e.operand, n).value;
    var t := UnopTail(e.uop, a.val, a.next);
    UnopYields(e.uop, a.val, a.next, After(tys, a.insts));
    Sequence(tys, a.insts, t.insts, t.val, n, a.next, t.next, I32);
  }

  lemma {:induction false} AssignYields(te: TypeEnv, sc: Scope, e: Expr, n: nat, tys: Tys)
    requires e.Binop? && e.op.OpAssign? && !e.lhs.NullExpr? && te.layouts == sc.layouts && Typed(te, e) && ExprCode(sc, e, n).Ok? && Below(tys, n)
    ensures var c := ExprCode(sc, e, n).value; Yields(tys, c.insts, c.val, n, c.next, MemoryType(e.lhs.ty))
    decreases e, 0
  {
    hide LvalCode, CodeTypes, NarrowToStore;
    var t := e.lhs.ty;
    LvalYields(te, sc, e.lhs, n, tys);
    var a := LvalCode(sc, e.lhs, n).value;
    var t1 := After(tys, a.insts);
    ExprYields(te, sc, e.rhs, a.next, t1);
    var v := ExprCode(sc, e.rhs, a.next).value;
    var t2 := After(t1, v.insts);
    NarrowYields(sc.layouts, v.val, t, v.next, t2);
    var s := NarrowToStore(sc.layouts, v.val, t, v.next).value;
    var store := [Store(a.val, s.val)];
    OneInst(After(t2, s.insts), store[0]);
    Sequence(t2, s.insts, store, s.val, v.next, s.next, s.next, MemoryType(t));
    Sequence(t1, v.insts, s.insts + store, s.val, a.next, v.next, s.next, MemoryType(t));
    Sequence(tys, a.insts, v.insts + (s.insts + store), s.val, n, a.next, s.next, MemoryType(t));
    assert ExprCode(sc, e, n).value.insts == a.insts + (v.insts + (s.insts + store));
  }

  lemma {:induction false} BinopYields(te: TypeEnv, sc: Scope, e: Expr, n: nat, tys: Tys)
    requires e.Binop? && !e.op.OpAssign? && te.layouts == sc.layouts && Typed(te, e) && ExprCode(sc, e, n).Ok? && Below(tys, n)
    ensures var c := ExprCode(sc, e, n).value; Yields(tys, c.insts, c.val, n, c.next, ValueType(e.ty))
    decreases e, 0
  {
    hide LvalCode, CodeTypes, InstTypes, BinopTail, OperatorTyped;
    ExprYields(te, sc, e.lhs, n, tys);
    var a := ExprCode(sc, e.lhs, n).value;
    var t1 := After(tys, a.insts);
    ExprYields(te, sc, e.rhs, a.next, t1);
    var b := ExprCode(sc, e.rhs, a.next).value;
    var t2 := After(t1, b.insts);
    var t := BinopTail(sc.layouts, e.op, e.lhs.ty, e.rhs.ty, a.val, b.val, b.next).value;
    TailYields(te, e.op, e.lhs.ty, e.rhs.ty, e.ty, a.val, b.val, b.next, t2);
    Sequence(t1, b.insts, t.insts, t.val, a.next, b.next, t.next, ValueType(e.ty));
    Sequence(tys, a.insts, b.insts + t.insts, t.val, n, a.next, t.next, ValueType(e.ty));
    assert ExprCode(sc, e, n).value.insts == a.insts + (b.insts + t.insts);
  }

  ghost predicate ArgsYield(tys: Tys, c: CallArgs, n: nat) {
    match CodeTypes(tys, c.insts)
    case Some(tys') => Adds(tys, tys', n, c.next) && ArgTypes(tys', c.sig, c.vals)
    case None => false
  }

  /** Arguments have the types that the call's signature declares. */
  lemma {:induction false} ArgsYields(te: TypeEnv, sc: Scope, args: seq<Expr>, n: nat, tys: Tys)
    requires te.layouts == sc.layouts && ArgsCode(sc, args, n).Ok? && Below(tys, n)
    requires forall i :: 0 <= i < |args| ==> TypedValue(te, args[i]) && !IsStruct(args[i].ty)
    ensures ArgsYield(tys, ArgsCode(sc, args, n).value, n)
    decreases args, 0
  {
    hide ExprCode, InstTypes, CodeTypes;
    if args == [] {
      NoCode(tys);
    } else {
      var a := ExprCode(sc, args[0], n).value;
      var rest := ArgsCode(sc, args[1..], a.next).value;
      assert TypedValue(te, args[0]);
      var t := ValueType(args[0].ty);
      ExprYields(te, sc, args[0], n, tys);
      var t1 := After(tys, a.insts);
      ArgsYields(te, sc, args[1..], a.next, t1);
      CodeTypesAppend(tys, a.insts, rest.insts);
      AbiTypeIsValueType(sc.layouts, args[0].ty);
      ArgTypesCons(After(t1, rest.insts), rest.sig, rest.vals, t, a.val);
    }
  }

  lemma {:induction false} NoCode(tys: Tys)
    ensures CodeTypes(tys, []) == Some(tys)
  {
  }

  lemma {:induction false} AbiTypeIsValueType(ls: Layouts, t: CType)
    requires !IsStruct(t)
    ensures AbiTypeForArg(ls, t) == Ok(ValueType(t))
  {
  }

  lemma {:induction false} ArgTypesCons(tys: Tys, sig: seq<Ty>, vals: seq<nat>, t: Ty, val: nat)
    requires ArgTypes(tys, sig, vals) && val in tys && tys[val] == t
    ensures ArgTypes(tys, [t] + sig, [val] + vals)
  {
  }

  lemma {:induction false} CallYields(te: TypeEnv, sc: Scope, e: Expr, n: nat, tys: Tys)
    requires e.Call? && te.layouts == sc.layouts && Typed(te, e) && ExprCode(sc, e, n).Ok? && Below(tys, n)
    ensures var c := ExprCode(sc, e, n).value; Yields(tys, c.insts, c.val, n, c.next, I32)
    decreases e, 0
  {
    hide CodeTypes;
    ArgsYields(te, sc, e.args, n, tys);
    var a := ArgsCode(sc, e.args, n).value;
    var call := CallInst(a.next, e.callee, a.sig, a.vals);
    OneInst(After(tys, a.insts), call);
    Sequence(tys, a.insts, [call], a.next, n, a.next, a.next + 1, I32);
  }

  // ----- emitted graphs -----

  /** Parameters are values 0, 1, ... of the entry block. */
  function StartTypes(params: seq<Ty>, i: nat): Tys {
    if i == 0 then map k | 0 <= k < |params| :: k := params[k] else map[]
  }

  ghost function BlockTypes(params: seq<Ty>, g: Blocks, i: nat): Option<Tys>
    requires i < |g|
  {
    CodeTypes(StartTypes(params, i), g[i])
  }

  ghost predicate BlockChecked(params: seq<Ty>, g: Blocks, i: nat, next: nat)
    requires i < |g|
  {
    BlockTypes(params, g, i).Some? && Below(BlockTypes(params, g, i).value, next)
  }

  ghost predicate DefinedApart(params: seq<Ty>, g: Blocks, i: nat, j: nat)
    requires i < |g| && j < |g|
  {
    BlockTypes(params, g, i).Some? && BlockTypes(params, g, j).Some? ==>
      BlockTypes(params, g, i).value.Keys !! BlockTypes(params, g, j).value.Keys
  }

  /** Each block is well typed on its own, using only values it defines itself; values are numbered
      below `next`, and no value is defined in two blocks. */
  ghost predicate Checked(params: seq<Ty>, g: Blocks, next: nat) {
    && (forall i :: 0 <= i < |g| ==> BlockChecked(params, g, i, next))
    && (forall i, j :: 0 <= i < |g| && 0 <= j < |g| && i != j ==> DefinedApart(params, g, i, j))
  }

  /** Code that can be appended to any block. */
  ghost predicate Appendable(insts: seq<Inst>, n: nat, next: nat, tys: Tys) {
    CodeTypes(tys, insts).Some? && Adds(tys, After(tys, insts), n, next)
  }

  ghost function CurrentTypes(params: seq<Ty>, g: State): Tys {
    if g.current < |g.blocks| && BlockTypes(params, g.blocks, g.current).Some? then BlockTypes(params, g.blocks, g.current).value
    else map[]
  }

  lemma {:induction false} CurrentBelow(params: seq<Ty>, g: State)
    requires Checked(params, g.blocks, g.next)
    ensures Below(CurrentTypes(params, g), g.next)
  {
    if g.current < |g.blocks| { assert BlockChecked(params, g.blocks, g.current, g.next); }
  }

  lemma {:induction false} EmitChecked(params: seq<Ty>, g: State, insts: seq<Inst>, next: nat)
    requires Checked(params, g.blocks, g.next) && g.next <= next
    requires Appendable(insts, g.next, next, CurrentTypes(params, g))
    ensures Checked(params, Emit(g, insts, next).blocks, next)
    ensures g.current < |g.blocks| ==> CurrentTypes(params, Emit(g, insts, next)) == After(CurrentTypes(params, g), insts)
  {
    hide CodeTypes;
    var b, b' := g.blocks, Emit(g, insts, next).blocks;
    if g.current < |b| {
      assert BlockChecked(params, b, g.current, g.next);
      CodeTypesAppend(StartTypes(params, g.current), b[g.current], insts);
    }
    forall i | 0 <= i < |b'|
      ensures BlockChecked(params, b', i, next)
    {
      assert BlockChecked(params, b, i, g.next);
    }
    forall i, j | 0 <= i < |b'| && 0 <= j < |b'| && i != j
      ensures DefinedApart(params, b', i, j)
    {
      assert DefinedApart(params, b, i, j) && BlockChecked(params, b, i, g.next) && BlockChecked(params, b, j, g.next);
    }
  }

  lemma {:induction false} TerminateChecked(params: seq<Ty>, g: State, i: Inst)
    requires Checked(params, g.blocks, g.next) && IsTerminator(i)
    requires g.current < |g.blocks| ==> InstTypes(CurrentTypes(params, g), i).Some?
    ensures Checked(params, Terminate(g, i).blocks, g.next)
  {
    if g.current < |g.blocks| {
      OneInst(CurrentTypes(params, g), i);
      EmitChecked(params, g, [i], g.next);
    }
  }

  lemma {:induction false} FallToChecked(params: seq<Ty>, g: State, target: nat)
    requires Checked(params, g.blocks, g.next)
    ensures Checked(params, FallTo(g, target).blocks, g.next) && FallTo(g, target).next == g.next
  {
    if !g.terminated { TerminateChecked(params, g, Jump(target)); }
  }

  lemma {:induction false} CreateChecked(params: seq<Ty>, g: State, k: nat)
    requires Checked(params, g.blocks, g.next) && |g.blocks| > 0
    ensures Checked(params, CreateBlocks(g, k).blocks, g.next)
  {
    var b, b' := g.blocks, CreateBlocks(g, k).blocks;
    forall i | 0 <= i < |b'|
      ensures BlockChecked(params, b', i, g.next)
    {
      if i < |b| { assert BlockChecked(params, b, i, g.next); }
    }
    forall i, j | 0 <= i < |b'| && 0 <= j < |b'| && i != j
      ensures DefinedApart(params, b', i, j)
    {
      if i < |b| && j < |b| { assert DefinedApart(params, b, i, j); }
    }
  }

  lemma {:induction false} EnterChecked(params: seq<Ty>, g: State, k: nat, target: nat)
    requires Checked(params, g.blocks, g.next) && |g.blocks| > 0
    ensures var g' := EnterBlocks(g, k, target); Checked(params, g'.blocks, g'.next) && g'.next == g.next && |g'.blocks| > 0
  {
    CreateChecked(params, g, k);
    FallToChecked(params, CreateBlocks(g, k), target);
  }

  /** The invariant of construction: the graph so far is well typed. */
  ghost predicate Good(params: seq<Ty>, g: State) {
    g.current < |g.blocks| && Checked(params, g.blocks, g.next)
  }

  /** From a good state to a good one with no fewer blocks. */
  ghost predicate Leads(params: seq<Ty>, g: State, g': State) {
    Good(params, g') && |g.blocks| <= |g'.blocks|
  }

  lemma {:induction false} ExprGood(te: TypeEnv, sc: Scope, params: seq<Ty>, g: State, e: Expr)
    requires Good(params, g) && te.layouts == sc.layouts && Typed(te, e) && EmitExpr(sc, g, e).Ok?
    ensures var (g', v) := EmitExpr(sc, g, e).value;
            && Good(params, g') && |g'.blocks| == |g.blocks| && g'.current == g.current
            && v in CurrentTypes(params, g') && CurrentTypes(params, g')[v] == ResultType(e)
  {
    hide Checked, ExprCode, CodeTypes;
    var c := ExprCode(sc, e, g.next).value;
    CurrentBelow(params, g);
    ExprYields(te, sc, e, g.next, CurrentTypes(params, g));
    EmitChecked(params, g, c.insts, c.next);
  }

  lemma {:induction false} EmitThenEnd(params: seq<Ty>, g: State, i: Inst)
    requires Good(params, g) && IsTerminator(i) && InstTypes(CurrentTypes(params, g), i).Some?
    ensures Leads(params, g, Terminate(g, i)) && |Terminate(g, i).blocks| == |g.blocks|
  {
    TerminateChecked(params, g, i);
  }

  lemma {:induction false} BranchGood(te: TypeEnv, sc: Scope, params: seq<Ty>, g: State, e: Expr, t: nat, f: nat)
    requires Good(params, g) && te.layouts == sc.layouts && Typed(te, e) && EmitBranch(sc, g, e, t, f).Ok?
    ensures Leads(params, g, EmitBranch(sc, g, e, t, f).value) && |EmitBranch(sc, g, e, t, f).value.blocks| == |g.blocks|
  {
    hide Good, EmitExpr, Checked;
    ExprGood(te, sc, params, g, e);
    var (g1, v) := EmitExpr(sc, g, e).value;
    EmitThenEnd(params, g1, Brif(v, t, f));
  }

  lemma {:induction false} IfTestGood(te: TypeEnv, sc: Scope, params: seq<Ty>, g: State, e: Expr, hasElse: bool)
    requires Good(params, g) && te.layouts == sc.layouts && Typed(te, e) && LowerIfTest(sc, g, e, hasElse).Ok?
    ensures Leads(params, g, LowerIfTest(sc, g, e, hasElse).value) && |LowerIfTest(sc, g, e, hasElse).value.blocks| == |g.blocks| + 3
  {
    hide EmitExpr, Checked;
    ExprGood(te, sc, params, g, e);
    var (g1, v) := EmitExpr(sc, g, e).value;
    CreateChecked(params, g1, 3);
    var g2 := CreateBlocks(g1, 3);
    assert g2.blocks[g2.current] == g1.blocks[g1.current];
    TerminateChecked(params, g2, Brif(v, |g.blocks|, if hasElse then |g.blocks| + 1 else |g.blocks| + 2));
  }

  /** Lowering a chain keeps the graph well typed. */
  lemma {:induction false} StmtsGood(te: TypeEnv, sc: Scope, params: seq<Ty>, g: State, b: Stmts, inLoop: bool)
    requires Good(params, g) && te.layouts == sc.layouts && TypedStmts(te, b, inLoop) && LowerStmts(sc, g, b).Ok?
    ensures Leads(params, g, LowerStmts(sc, g, b).value)
    decreases b, 0
  {
    hide Good;
    if b.Cons? && !g.terminated {
      StmtGood(te, sc, params, g, b.head, inLoop);
      StmtsGood(te, sc, params, LowerStmt(sc, g, b.head).value, b.next, inLoop);
    }
  }

  lemma {:induction false} StmtGood(te: TypeEnv, sc: Scope, params: seq<Ty>, g: State, b: Stmt, inLoop: bool)
    requires Good(params, g) && te.layouts == sc.layouts && TypedStmt(te, b, inLoop) && LowerStmt(sc, g, b).Ok?
    ensures Leads(params, g, LowerStmt(sc, g, b).value)
    decreases b, 5
  {
    hide Good, EmitExpr, LowerStmts, LowerIf, LowerWhile, LowerForLoop, LowerDo, LowerInit, Typed;
    match b
    case Return(e) => ReturnGood(te, sc, params, g, e);
    case Eval(e) => ExprGood(te, sc, params, g, e);
    case Decl(x, t, e) => if !e.NullExpr? { InitGood(te, sc, params, g, x, t, e); }
    case Block(b) => StmtsGood(te, sc, params, g, b, inLoop);
    case If(e, t, f) => IfGood(te, sc, params, g, e, t, f, inLoop);
    case While(e, b) => WhileGood(te, sc, params, g, e, b);
    case For(first, e, post, b) =>
      StmtsGood(te, sc, params, g, first, inLoop);
      ForGood(te, sc, params, LowerStmts(sc, g, first).value, e, post, b);
    case Do(b, e) => DoGood(te, sc, params, g, b, e);
    case Break => EmitEnd(params, g, Jump(g.loopBreak.value));
    case Continue => EmitEnd(params, g, Jump(g.loopContinue.value));
  }

  lemma {:induction false} EmitEnd(params: seq<Ty>, g: State, i: Inst)
    requires Good(params, g) && i.Jump?
    ensures Leads(params, g, Terminate(g, i))
  {
    EmitThenEnd(params, g, i);
  }

  lemma {:induction false} ReturnGood(te: TypeEnv, sc: Scope, params: seq<Ty>, g: State, e: Expr)
    requires Good(params, g) && te.layouts == sc.layouts && TypedValue(te, e) && ValueType(e.ty) == I32 && EmitExpr(sc, g, e).Ok?
    ensures Leads(params, g, Terminate(EmitExpr(sc, g, e).value.0, ReturnInst(EmitExpr(sc, g, e).value.1)))
  {
    hide EmitExpr, Checked;
    ExprGood(te, sc, params, g, e);
    var (g1, v) := EmitExpr(sc, g, e).value;
    EmitThenEnd(params, g1, ReturnInst(v));
  }

  lemma {:induction false} InitGood(te: TypeEnv, sc: Scope, params: seq<Ty>, g: State, x: CString, t: CType, e: Expr)
    requires Good(params, g) && te.layouts == sc.layouts && TypedValue(te, e) && IsScalar(t) && ValueType(e.ty) == ValueType(t)
    requires LowerInit(sc, g, x, t, e).Ok?
    ensures Leads(params, g, LowerInit(sc, g, x, t, e).value)
  {
    hide ExprCode, CodeTypes, NarrowToStore, Checked;
    var tys := CurrentTypes(params, g);
    var c := ExprCode(sc, e, g.next).value;
    CurrentBelow(params, g);
    ExprYields(te, sc, e, g.next, tys);
    var t1 := After(tys, c.insts);
    var s := NarrowToStore(sc.layouts, c.val, t, c.next).value;
    NarrowYields(sc.layouts, c.val, t, c.next, t1);
    var t2 := After(t1, s.insts);
    var slot := Find(sc.table, x).value.slot;
    var last := [StackAddr(s.next, slot), Store(s.next, s.val)];
    TwoInsts(t2, last[0], last[1]);
    Sequence(t1, s.insts, last, s.next, c.next, s.next, s.next + 1, I64);
    Sequence(tys, c.insts, s.insts + last, s.next, g.next, c.next, s.next + 1, I64);
    assert c.insts + s.insts + last == c.insts + (s.insts + last);
    EmitChecked(params, g, c.insts + s.insts + last, s.next + 1);
  }

  /** A chain in an existing block `k`, and on to `target`. */
  lemma {:induction false} ArmGood(te: TypeEnv, sc: Scope, params: seq<Ty>, g: State, k: nat, b: Stmts, target: nat, inLoop: bool)
    requires Checked(params, g.blocks, g.next) && k < |g.blocks| && te.layouts == sc.layouts && TypedStmts(te, b, inLoop)
    requires LowerStmts(sc, SwitchTo(g, k), b).Ok?
    ensures var g' := FallTo(LowerStmts(sc, SwitchTo(g, k), b).value, target); Good(params, g') && |g.blocks| <= |g'.blocks|
    decreases b, 1
  {
    hide LowerStmts, Checked;
    StmtsGood(te, sc, params, SwitchTo(g, k), b, inLoop);
    FallToChecked(params, LowerStmts(sc, SwitchTo(g, k), b).value, target);
  }

  lemma {:induction false} IfGood(te: TypeEnv, sc: Scope, params: seq<Ty>, g: State, e: Expr, t: Stmts, f: Stmts, inLoop: bool)
    requires Good(params, g) && te.layouts == sc.layouts && Typed(te, e) && TypedStmts(te, t, inLoop) && TypedStmts(te, f, inLoop)
    requires LowerIf(sc, g, e, t, f).Ok?
    ensures Leads(params, g, LowerIf(sc, g, e, t, f).value)
    decreases If(e, t, f), 4
  {
    hide LowerIfTest, LowerArms;
    IfTestGood(te, sc, params, g, e, f.Cons?);
    ArmsGood(te, sc, params, |g.blocks|, LowerIfTest(sc, g, e, f.Cons?).value, e, t, f, inLoop);
  }

  lemma {:induction false} ArmsGood(te: TypeEnv, sc: Scope, params: seq<Ty>, k: nat, g: State, e: Expr, t: Stmts, f: Stmts, inLoop: bool)
    requires Good(params, g) && te.layouts == sc.layouts && TypedStmts(te, t, inLoop) && TypedStmts(te, f, inLoop)
    requires k + 2 < |g.blocks| && LowerArms(sc, k, g, e, t, f).Ok?
    ensures Leads(params, g, LowerArms(sc, k, g, e, t, f).value)
    decreases If(e, t, f), 3
  {
    hide LowerStmts, Checked, FallTo, LowerElse;
    ArmGood(te, sc, params, g, k, t, k + 2, inLoop);
    if f.Cons? { ElseGood(te, sc, params, k, LowerStmts(sc, SwitchTo(g, k), t).value, f, inLoop); }
  }

  lemma {:induction false} ElseGood(te: TypeEnv, sc: Scope, params: seq<Ty>, k: nat, g: State, f: Stmts, inLoop: bool)
    requires Good(params, FallTo(g, k + 2)) && k + 2 < |FallTo(g, k + 2).blocks|
    requires te.layouts == sc.layouts && TypedStmts(te, f, inLoop) && LowerElse(sc, k, g, f).Ok?
    ensures Leads(params, FallTo(g, k + 2), LowerElse(sc, k, g, f).value)
    decreases f, 2
  {
    hide LowerStmts, Checked, FallTo;
    ArmGood(te, sc, params, FallTo(g, k + 2), k + 1, f, k + 2, inLoop);
  }

  lemma {:induction false} WhileGood(te: TypeEnv, sc: Scope, params: seq<Ty>, g: State, e: Expr, b: Stmts)
    requires Good(params, g) && te.layouts == sc.layouts && Typed(te, e) && TypedStmts(te, b, true) && LowerWhile(sc, g, e, b).Ok?
    ensures Leads(params, g, LowerWhile(sc, g, e, b).value)
    decreases b, 4
  {
    hide EnterBlocks, EmitBranch, LowerStmts, Checked, FallTo;
    var k := |g.blocks|;
    EnterGood(params, g, 3, k);
    BranchGood(te, sc, params, EnterBlocks(g, 3, k), e, k + 1, k + 2);
    var g2 := EmitBranch(sc, EnterBlocks(g, 3, k), e, k + 1, k + 2).value;
    ArmGood(te, sc, params, InLoop(g2, k + 2, k), k + 1, b, k, true);
  }

  lemma {:induction false} EnterGood(params: seq<Ty>, g: State, count: nat, target: nat)
    requires Good(params, g) && |g.blocks| <= target < |g.blocks| + count
    ensures Leads(params, g, EnterBlocks(g, count, target)) && |EnterBlocks(g, count, target).blocks| == |g.blocks| + count
  {
    EnterChecked(params, g, count, target);
  }

  lemma {:induction false} ForTestGood(te: TypeEnv, sc: Scope, params: seq<Ty>, g: State, e: Expr, t: nat, f: nat)
    requires Good(params, g) && te.layouts == sc.layouts && (e.NullExpr? || Typed(te, e)) && LowerForTest(sc, g, e, t, f).Ok?
    ensures Leads(params, g, LowerForTest(sc, g, e, t, f).value) && |LowerForTest(sc, g, e, t, f).value.blocks| == |g.blocks|
  {
    hide Checked, EmitBranch;
    if e.NullExpr? {
      var one := Iconst(g.next, I32, 1);
      CurrentBelow(params, g);
      OneInst(CurrentTypes(params, g), one);
      EmitChecked(params, g, [one], g.next + 1);
      EmitThenEnd(params, Emit(g, [one], g.next + 1), Brif(g.next, t, f));
    } else {
      BranchGood(te, sc, params, g, e, t, f);
    }
  }

  lemma {:induction false} PostGood(te: TypeEnv, sc: Scope, params: seq<Ty>, g: State, post: Expr, head: nat)
    requires Good(params, g) && te.layouts == sc.layouts && (post.NullExpr? || Typed(te, post)) && LowerForPost(sc, g, post, head).Ok?
    ensures Leads(params, g, LowerForPost(sc, g, post, head).value)
  {
    hide Checked, EmitExpr;
    if post.NullExpr? {
      EmitEnd(params, g, Jump(head));
    } else {
      ExprGood(te, sc, params, g, post);
      EmitEnd(params, EmitExpr(sc, g, post).value.0, Jump(head));
    }
  }

  lemma {:induction false} ForGood(te: TypeEnv, sc: Scope, params: seq<Ty>, g: State, e: Expr, post: Expr, b: Stmts)
    requires Good(params, g) && te.layouts == sc.layouts && TypedStmts(te, b, true) && LowerForLoop(sc, g, e, post, b).Ok?
    requires (e.NullExpr? || Typed(te, e)) && (post.NullExpr? || Typed(te, post))
    ensures Leads(params, g, LowerForLoop(sc, g, e, post, b).value)
    decreases b, 4
  {
    hide EnterBlocks, LowerForTest, LowerForPost, LowerStmts, Checked, FallTo;
    var k := |g.blocks|;
    EnterGood(params, g, 4, k);
    ForTestGood(te, sc, params, EnterBlocks(g, 4, k), e, k + 2, k + 3);
    var g2 := LowerForTest(sc, EnterBlocks(g, 4, k), e, k + 2, k + 3).value;
    var gb := InLoop(g2, k + 3, k + 1);
    ArmGood(te, sc, params, gb, k + 2, b, k + 1, true);
    var g3 := LowerStmts(sc, SwitchTo(gb, k + 2), b).value;
    PostGood(te, sc, params, SwitchTo(LeaveBody(g3, k + 1, g), k + 1), post, k);
  }

  lemma {:induction false} DoGood(te: TypeEnv, sc: Scope, params: seq<Ty>, g: State, b: Stmts, e: Expr)
    requires Good(params, g) && te.layouts == sc.layouts && Typed(te, e) && TypedStmts(te, b, true) && LowerDo(sc, g, b, e).Ok?
    ensures Leads(params, g, LowerDo(sc, g, b, e).value)
    decreases b, 4
  {
    hide EnterBlocks, EmitBranch, LowerStmts, Checked, FallTo;
    var k := |g.blocks|;
    EnterGood(params, g, 3, k);
    var gb := InLoop(EnterBlocks(g, 3, k), k + 2, k + 1);
    StmtsGood(te, sc, params, gb, b, true);
    var g2 := LowerStmts(sc, gb, b).value;
    FallToChecked(params, g2, k + 1);
    FallToKeeps(g2, k + 1);
    BranchGood(te, sc, params, SwitchTo(LeaveBody(g2, k + 1, g), k + 1), e, k, k + 2);
  }

  lemma {:induction false} FallToKeeps(g: State, target: nat)
    ensures |FallTo(g, target).blocks| == |g.blocks| && FallTo(g, target).current == g.current && FallTo(g, target).next == g.next
  {
  }

  // ----- functions -----

  lemma {:induction false} StoresAppendable(table: seq<LocalBinding>, params: seq<Param>, i: nat, n: nat, tys: Tys)
    requires StoreParams(table, params, i, n).Ok? && Below(tys, n) && |params| <= n
    requires forall k :: 0 <= k < |params| ==> k in tys
    ensures Appendable(StoreParams(table, params, i, n).value, n, n + (if i < |params| then |params| - i else 0), tys)
    decreases |params| - i
  {
    if i < |params| {
      var slot := Find(table, params[i].name).value.slot;
      var two := [StackAddr(n, slot), Store(n, i)];
      var rest := StoreParams(table, params, i + 1, n + 1).value;
      TwoInsts(tys, two[0], two[1]);
      StoresAppendable(table, params, i + 1, n + 1, tys[n := I64]);
      CodeTypesAppend(tys, two, rest);
    }
  }

  lemma {:induction false} EntryGood(params: seq<Ty>, stores: seq<Inst>, next: nat)
    requires Appendable(stores, |params|, next, StartTypes(params, 0))
    ensures Good(params, State([stores], 0, next, None, None, false))
  {
  }

  ghost predicate WellTypedFunction(fn: IrFunction) {
    exists next: nat :: Checked(fn.params, fn.blocks, next)
  }

  /** Every emitted function is well typed in all its blocks: operands of each two-operand
      instruction and comparison have one type, extensions widen, reductions narrow, addresses are
      I64, calls match their signatures, returned values are I32, and each value is defined once. */
  lemma {:induction false} FunctionWellTyped(te: TypeEnv, f: Func, fn: IrFunction)
    requires TypedFunc(te, f) && Closed(te, f) && EmitFunction(te.layouts, te.data, f) == Ok(fn)
    ensures WellTypedFunction(fn)
  {
    hide LowerStmts, EmitFunction, Checked, CodeTypes, InstTypes;
    EmittedParts(te, f, fn);
    var g, g' := EntryState(te, f), BodyState(te, f).value;
    var sc := Scope(te.layouts, Table(te, f).value.table, te.data);
    var n := |f.params|;
    StoresAppendable(Table(te, f).value.table, f.params, 0, n, StartTypes(fn.params, 0));
    EntryGood(fn.params, g.blocks[0], n + n);
    StmtsGood(te, sc, fn.params, g, f.body, false);
    CompletedGood(fn.params, g');
    assert Checked(fn.params, fn.blocks, Completed(g').next);
  }

  lemma {:induction false} CompletedGood(params: seq<Ty>, g: State)
    requires Good(params, g)
    ensures Good(params, Completed(g))
  {
    if !g.terminated {
      var zero := Iconst(g.next, I32, 0);
      CurrentBelow(params, g);
      OneInst(CurrentTypes(params, g), zero);
      EmitChecked(params, g, [zero], g.next + 1);
      EmitThenEnd(params, Emit(g, [zero], g.next + 1), ReturnInst(g.next));
    }
  }
}
