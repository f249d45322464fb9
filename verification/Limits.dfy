/** Where the compiler departs from C outside the fragment, with the exact conditions under which
    it is still right. */
module Limits {
  import opened Results
  import opened Words
  import opened CTypes
  import opened ByteMemory
  import opened Ast
  import opened Clif
  import opened CSemantics
  import opened SlotTable
  import opened Lowering
  import opened WellTyped
  import opened ExprCorrect
  import opened FuncCorrect
  import opened ObjectMemory
  import opened PointerLaws

  // ----- ordering pointers -----

  /** The order of addresses. */
  predicate Ordered(op: BinOpKind, a: int, b: int)
    requires op in {OpLt, OpLe, OpGt, OpGe}
  {
    match op
    case OpLt => a < b
    case OpLe => a <= b
    case OpGt => a > b
    case _ => a >= b
  }

  /** Relational operators are always signed, so the emitted code orders two addresses rightly
      exactly when they are equal or in the same half of the address space. */
  lemma {:induction false} PointerOrderExactly(w: World, ls: Layouts, op: BinOpKind, lt: CType, rt: CType, l: nat, r: nat, n: nat, s: Mach, a: nat, b: nat)
    requires op in {OpLt, OpLe, OpGt, OpGe} && a < Modulus(I64) && b < Modulus(I64) && l < n && r < n
    requires Holds(s, l, Word(I64, a)) && Holds(s, r, Word(I64, b))
    ensures BinopTail(ls, op, lt, rt, l, r, n).Ok?
    ensures var c := BinopTail(ls, op, lt, rt, l, r, n).value;
            var o := ExecCode(w, c.insts, s);
            && o.Next? && o.s.mem == s.mem && o.s.tr == s.tr && c.val in o.s.regs
            && o.s.regs[c.val] == Encode(I32, Truth(Ordered(op, Signed(Word(I64, a)), Signed(Word(I64, b)))))
            && (o.s.regs[c.val] == Encode(I32, Truth(Ordered(op, a, b))) <==>
                a == b || (a < 0x8000_0000_0000_0000 <==> b < 0x8000_0000_0000_0000))
  {
    ComparisonRuns(w, ls, op, lt, rt, l, r, n, s);
  }

  /** The code of a comparison of two words of one type leaves 1 or 0. */
  lemma {:induction false} ComparisonRuns(w: World, ls: Layouts, op: BinOpKind, lt: CType, rt: CType, l: nat, r: nat, n: nat, s: Mach)
    requires CmpCc(op).Some? && l < n && r < n && l in s.regs && r in s.regs && s.regs[l].ty == s.regs[r].ty
    ensures var c := BinopTail(ls, op, lt, rt, l, r, n);
            && c.Ok?
            && var o := ExecCode(w, c.value.insts, s);
            && o.Next? && o.s.mem == s.mem && o.s.tr == s.tr
            && Holds(o.s, c.value.val, Encode(I32, Truth(Compare(CmpCc(op).value, s.regs[l], s.regs[r]))))
  {
    hide Compare;
    var c := BinopTail(ls, op, lt, rt, l, r, n).value;
    ExecTwo(w, c.insts[0], c.insts[1], s);
    BitWidens(Compare(CmpCc(op).value, s.regs[l], s.regs[r]));
  }

  // ----- pointer difference -----

  /** Subtracting pointers does not divide by the size of the elements: for two elements of one
      array, `k` apart, the emitted code yields `k` exactly if they are the same or one byte big. */
  lemma {:induction false} PointerDifferenceExactly(w: World, ls: Layouts, t: CType, l: nat, r: nat, n: nat, s: Mach, q: int, k: int, size: nat)
    requires t.Pointer? && TypeSize(ls, t.to) == Ok(size) && size > 0 && l < n && r < n
    requires -(Modulus(I64) / 2) < k * size < Modulus(I64) / 2
    requires Holds(s, l, Encode(I64, q + k * size)) && Holds(s, r, Encode(I64, q))
    ensures var c := BinopTail(ls, OpSub, t, t, l, r, n);
            c.Ok? && Delivers(w, c.value.insts, c.value.val, n, s, Val(k * size, s.mem, s.tr), I64)
    ensures Encode(I64, k * size) == Encode(I64, k) <==> k == 0 || size == 1
  {
    Larger(k, size);
    EncodeInjective(k * size, k);
    DifferenceCode(w, ls, t, l, r, n, s, q + k * size, q);
  }

  lemma {:induction false} DifferenceCode(w: World, ls: Layouts, t: CType, l: nat, r: nat, n: nat, s: Mach, p: int, q: int)
    requires t.Pointer? && l < n && r < n && Holds(s, l, Encode(I64, p)) && Holds(s, r, Encode(I64, q))
    ensures var c := BinopTail(ls, OpSub, t, t, l, r, n);
            c.Ok? && Delivers(w, c.value.insts, c.value.val, n, s, Val(p - q, s.mem, s.tr), I64)
  {
    hide Encode;
    ExecOne(w, BinopTail(ls, OpSub, t, t, l, r, n).value.insts[0], s);
    EncodeAbsorbs(I64, p, q);
  }

  lemma {:induction false} EncodeInjective(a: int, b: int)
    requires -(Modulus(I64) / 2) <= a < Modulus(I64) / 2 && -(Modulus(I64) / 2) <= b < Modulus(I64) / 2
    ensures Encode(I64, a) == Encode(I64, b) <==> a == b
  {
    SignedEncode(I64, a);
    SignedEncode(I64, b);
  }

  lemma {:induction false} Larger(k: int, size: nat)
    requires size > 0
    ensures k >= 0 ==> k <= k * size
    ensures k <= 0 ==> k * size <= k
    ensures k * size == k <==> k == 0 || size == 1
  {
    if size > 1 {
      assert k * size == k + k * (size - 1);
      assert k > 0 ==> k * (size - 1) > 0;
      assert k < 0 ==> k * (size - 1) < 0;
    }
  }

  // ----- other operands -----

  /** The mathematical result of an operator; division cuts off toward zero. */
  function Exact(op: BinOpKind, a: int, b: int): int
    requires op in {OpAdd, OpSub, OpMul, OpDiv, OpMod} && (op in {OpDiv, OpMod} ==> b != 0)
  {
    if op.OpAdd? then a + b
    else if op.OpSub? then a - b
    else if op.OpMul? then a * b
    else if op.OpDiv? then TruncDiv(a, b)
    else TruncRem(a, b)
  }

  /** No divisor 0, and no quotient outside the signed range. */
  predicate Divides(op: BinOpKind, t: Ty, a: int, b: int) {
    op in {OpDiv, OpMod} ==> b != 0 && (op.OpDiv? ==> TruncDiv(a, b) < Modulus(t) / 2)
  }

  /** Arithmetic that moves no pointer is legal exactly for operands of one machine type: so
      `array + int`, whose left operand is an address, is not. For such operands the code leaves the
      exact result for their signed values, reduced to the type, or faults. */
  lemma {:induction false} ArithmeticExactly(w: World, ls: Layouts, op: BinOpKind, lt: CType, rt: CType, l: nat, r: nat, n: nat, s: Mach)
    requires op in {OpAdd, OpSub, OpMul, OpDiv, OpMod} && l < n && r < n && l in s.regs && r in s.regs
    requires s.regs[l].bits < Modulus(s.regs[l].ty) && s.regs[r].bits < Modulus(s.regs[r].ty)
    requires op in {OpAdd, OpSub} ==> IsPointer(lt) == IsPointer(rt) || (op.OpSub? && !IsPointer(lt))
    ensures BinopTail(ls, op, lt, rt, l, r, n).Ok?
    ensures var c, t, a, b := BinopTail(ls, op, lt, rt, l, r, n).value, s.regs[l].ty, Signed(s.regs[l]), Signed(s.regs[r]);
            var o := ExecCode(w, c.insts, s);
            && (o == Illegal <==> t != s.regs[r].ty)
            && (t == s.regs[r].ty && Divides(op, t, a, b) ==> o == Next(SetReg(s, c.val, Encode(t, Exact(op, a, b)))))
            && (t == s.regs[r].ty && !Divides(op, t, a, b) ==> o == Fault(s.tr))
  {
    hide ArithWord;
    ExecOne(w, BinopTail(ls, op, lt, rt, l, r, n).value.insts[0], s);
    if s.regs[l].ty == s.regs[r].ty {
      SignedArithmetic(op, s.regs[l], s.regs[r]);
    }
  }

  /** The machine's arithmetic on bit patterns is that on their signed values. */
  lemma {:induction false} SignedArithmetic(op: BinOpKind, x: Word, y: Word)
    requires op in {OpAdd, OpSub, OpMul, OpDiv, OpMod} && x.ty == y.ty && x.bits < Modulus(x.ty) && y.bits < Modulus(y.ty)
    ensures ArithWord(Operation(op), x, y) ==
            if Divides(op, x.ty, Signed(x), Signed(y)) then Some(Encode(x.ty, Exact(op, Signed(x), Signed(y)))) else None
  {
    var t, a, b := x.ty, Signed(x), Signed(y);
    if op.OpDiv? {
      if b != 0 { QuotientFits(Modulus(t) / 2, a, b); }
    } else if !op.OpMod? {
      EncodedBack(x);
      EncodedBack(y);
      EncodeAbsorbs(t, a, b);
    }
  }

  lemma {:induction false} EncodedBack(x: Word)
    requires x.bits < Modulus(x.ty)
    ensures Encode(x.ty, Signed(x)) == x
  {
    ModUnique(Signed(x), if Signed(x) < 0 then -1 else 0, x.bits, Modulus(x.ty));
  }

  function Operation(op: BinOpKind): ArithOp
    requires op in {OpAdd, OpSub, OpMul, OpDiv, OpMod}
  {
    if op.OpAdd? then Iadd else if op.OpSub? then Isub else if op.OpMul? then Imul else if op.OpDiv? then Sdiv else Srem
  }

  /** Only the least value divided by -1 has a quotient that does not fit. */
  lemma {:induction false} QuotientFits(h: int, a: int, b: int)
    requires b != 0 && -h <= a < h
    ensures TruncDiv(a, b) < h <==> !(a == -h && b == -1)
  {
    var q := Abs(a) / Abs(b);
    QuotientBelow(Abs(a), Abs(b));
    QuotientSigned(h, a, b, q);
    assert TruncDiv(a, b) == if (a < 0) == (b < 0) then q else -q;
  }

  lemma {:induction false} QuotientSigned(h: int, a: int, b: int, q: int)
    requires b != 0 && 0 <= q && -h <= a < h && q <= Abs(a) && (Abs(b) == 1 ==> q == Abs(a)) && (Abs(b) > 1 ==> 2 * q <= Abs(a))
    ensures (if (a < 0) == (b < 0) then q else -q) < h <==> !(a == -h && b == -1)
  {
  }

  lemma {:induction false} QuotientBelow(a: nat, b: nat)
    requires b > 0
    ensures a / b <= a && (b == 1 ==> a / b == a) && (b > 1 ==> 2 * (a / b) <= a)
  {
    var q := a / b;
    assert a == q * b + a % b;
    if b == 1 {
      ModUnique(a, a, 0, 1);
    } else {
      Twice(q, b);
    }
  }

  lemma {:induction false} Twice(q: nat, b: nat)
    requires b > 1
    ensures q <= 2 * q <= q * b
  {
    assert q * b == 2 * q + q * (b - 2);
  }

  // ----- records by value -----

  /** A record is lowered to its address, but a signature declares it by its size: passing one is
      legal exactly if it has 8 bytes, and then the address is passed. */
  lemma {:induction false} RecordArgumentExactly(te: TypeEnv, sc: Scope, c: CEnv, w: World, t: CType, f: string, e: Expr, n: nat, s: Mach)
    requires !e.NullExpr? && e.ty.Record? && e.ty.tag in te.layouts && te.layouts[e.ty.tag].size < LONG_LIMIT
    requires Agree(te, sc, c, w) && TypedLvalue(te, e) && LvalCode(sc, e, n).Ok? && Lval(c, e, s.mem, s.tr).Val?
    ensures var r := ExprCode(sc, Call(t, Str(f), [e]), n);
            r.Ok? && (ExecCode(w, r.value.insts, s) == Illegal <==> te.layouts[e.ty.tag].size != 8)
  {
    hide LvalCode, TypedLvalue, Lval, Agree, Exec1, ExecCode;
    var a, r := LvalCode(sc, e, n).value, ExprCode(sc, Call(t, Str(f), [e]), n);
    LvalCorrect(te, sc, c, w, e, n, s);
    AgreeLayouts(te, sc, c, w);
    TypeSizeExactly(sc.layouts, e.ty);
    var arg := if te.layouts[e.ty.tag].size == 8 then I64 else I32;
    assert IsLvalueKind(e) by { LvalueKind(te, e); }
    RecordArgument(sc, e, n, arg);
    var call := CallInst(a.next, Str(f), [arg], [a.val]);
    assert r.value.insts == a.insts + [call];
    ExecAppend(w, a.insts, [call], s);
    ExecOne(w, call, ExecCode(w, a.insts, s).s);
    CallLegal(w, a.next, Str(f), arg, a.val, ExecCode(w, a.insts, s).s);
  }

  lemma {:induction false} LvalueKind(te: TypeEnv, e: Expr)
    requires TypedLvalue(te, e)
    ensures IsLvalueKind(e)
  {
  }

  lemma {:induction false} RecordArgument(sc: Scope, e: Expr, n: nat, t: Ty)
    requires !e.NullExpr? && e.ty.Record? && LvalCode(sc, e, n).Ok? && AbiTypeForArg(sc.layouts, e.ty) == Ok(t) && IsLvalueKind(e)
    ensures var a := LvalCode(sc, e, n).value;
            ArgsCode(sc, [e], n) == Ok(CallArgs(a.insts, [a.val], [t], a.next))
  {
    hide LvalCode;
    assert ExprCode(sc, e, n) == LvalCode(sc, e, n);
    OneArgument(sc, e, n, LvalCode(sc, e, n).value, t);
  }

  lemma {:induction false} OneArgument(sc: Scope, e: Expr, n: nat, c: Code, t: Ty)
    requires ExprCode(sc, e, n) == Ok(c) && AbiTypeForArg(sc.layouts, e.ty) == Ok(t) && !e.NullExpr?
    ensures ArgsCode(sc, [e], n) == Ok(CallArgs(c.insts, [c.val], [t], c.next))
  {
    hide ExprCode, AbiTypeForArg;
    var args, rest := [e], ArgsCode(sc, [], c.next);
    assert args[0] == e && args[1..] == [];
    assert rest == Ok(CallArgs([], [], [], c.next));
    assert c.insts + rest.value.insts == c.insts && [c.val] + rest.value.vals == [c.val] && [t] + rest.value.sig == [t];
  }

  lemma {:induction false} CallLegal(w: World, d: nat, f: CString, t: Ty, v: nat, s: Mach)
    ensures Exec1(w, CallInst(d, f, [t], [v]), s) == Illegal <==> !(v in s.regs && s.regs[v].ty == t)
  {
    var sig, args := [t], [v];
    assert ArgsMatch(s.regs, sig, args) ==> args[0] in s.regs && s.regs[args[0]].ty == sig[0];
  }

  /** The machine type in which an assignment of a record of this size stores. */
  function RecordStore(size: nat): Ty {
    if size == 1 then I8 else if size == 2 then I16 else I64
  }

  /** Assigning a record stores the address of the source: all 8 bytes of it, or its lowest one or two
      if the record has one or two bytes. No byte of the source is read. */
  lemma {:induction false} RecordAssignStores(te: TypeEnv, sc: Scope, c: CEnv, w: World, d: Expr, e: Expr, n: nat, s: Mach)
    requires !d.NullExpr? && !e.NullExpr? && d.ty.Record? && e.ty == d.ty && d.ty.tag in te.layouts && te.layouts[d.ty.tag].size < LONG_LIMIT
    requires Agree(te, sc, c, w) && TypedLvalue(te, d) && TypedLvalue(te, e)
    requires LvalCode(sc, d, n).Ok? && LvalCode(sc, e, LvalCode(sc, d, n).value.next).Ok?
    requires Lval(c, d, s.mem, s.tr).Val? && Lval(c, e, Lval(c, d, s.mem, s.tr).mem, Lval(c, d, s.mem, s.tr).tr).Val?
    ensures var a, r, t := Lval(c, d, s.mem, s.tr), ExprCode(sc, Binop(d.ty, OpAssign, d, e), n), RecordStore(te.layouts[d.ty.tag].size);
            var b := Lval(c, e, a.mem, a.tr);
            && r.Ok?
            && Delivers(w, r.value.insts, r.value.val, n, s, Val(b.v, StoreLE(b.mem, a.v, Bytes(t), Encode(t, b.v).bits), b.tr), t)
  {
    hide LvalCode, TypedLvalue, Lval, Agree, ExecCode, NarrowToStore, Delivers, StoreLE, Encode;
    AgreeLayouts(te, sc, c, w);
    var t := RecordStore(te.layouts[d.ty.tag].size);
    var dc, a := LvalCode(sc, d, n).value, Lval(c, d, s.mem, s.tr);
    var ec, b := LvalCode(sc, e, dc.next).value, Lval(c, e, a.mem, a.tr);
    var done := Val(b.v, StoreLE(b.mem, a.v, Bytes(t), Encode(t, b.v).bits), b.tr);
    LvalCorrect(te, sc, c, w, d, n, s);
    Delivered(w, dc.insts, dc.val, n, s, a, I64);
    var s1 := ExecCode(w, dc.insts, s).s;
    LvalCorrect(te, sc, c, w, e, dc.next, s1);
    Delivered(w, ec.insts, ec.val, dc.next, s1, b, I64);
    var tail := RecordTail(w, sc.layouts, d.ty, ec.val, dc.val, ec.next, ExecCode(w, ec.insts, s1).s, a.v, b.v);
    Compose(w, ec.insts, ec.val, tail.insts, tail.val, dc.next, ec.next, s1, b, I64, done, t);
    Compose(w, dc.insts, dc.val, ec.insts + tail.insts, tail.val, n, dc.next, s, a, I64, done, t);
    LvalueKind(te, e);
    RecordAssignShape(sc, d, e, n, tail);
  }

  /** The narrowing and the store at the end. */
  lemma {:induction false} RecordTail(w: World, ls: Layouts, u: CType, v: nat, addr: nat, n: nat, s: Mach, a: int, b: int) returns (c: Code)
    requires u.Record? && u.tag in ls && ls[u.tag].size < LONG_LIMIT && v < n && addr < n && InRange(I64, a)
    requires Holds(s, v, Encode(I64, b)) && Holds(s, addr, Encode(I64, a))
    ensures NarrowToStore(ls, v, u, n).Ok? && c.insts == NarrowToStore(ls, v, u, n).value.insts + [Store(addr, c.val)]
    ensures c.val == NarrowToStore(ls, v, u, n).value.val && c.next == NarrowToStore(ls, v, u, n).value.next
    ensures var t := RecordStore(ls[u.tag].size);
            Delivers(w, c.insts, c.val, n, s, Val(b, StoreLE(s.mem, a, Bytes(t), Encode(t, b).bits), s.tr), t)
  {
    hide StoreLE, Encode, ExecCode;
    var t := RecordStore(ls[u.tag].size);
    TypeSizeExactly(ls, u);
    var k := RecordNarrow(w, ls, u, v, n, s, b);
    var s1, store := ExecCode(w, k.insts, s).s, Store(addr, k.val);
    c := Code(k.insts + [store], k.val, k.next);
    DecodeEncode(I64, a);
    ExecOne(w, store, s1);
    ExecAppend(w, k.insts, [store], s);
  }

  lemma {:induction false} RecordNarrow(w: World, ls: Layouts, u: CType, v: nat, n: nat, s: Mach, b: int) returns (k: Code)
    requires u.Record? && u.tag in ls && TypeSize(ls, u) == Ok(ls[u.tag].size) && v < n && Holds(s, v, Encode(I64, b))
    ensures NarrowToStore(ls, v, u, n) == Ok(k)
    ensures Delivers(w, k.insts, k.val, n, s, Val(b, s.mem, s.tr), RecordStore(ls[u.tag].size))
  {
    hide TypeSize, Encode;
    k := NarrowToStore(ls, v, u, n).value;
    EncodeNested(I16, I64, b);
    if ls[u.tag].size == 1 {
      EncodeNested(I8, I16, b);
      ExecTwo(w, k.insts[0], k.insts[1], s);
    } else if ls[u.tag].size == 2 {
      ExecOne(w, k.insts[0], s);
    }
  }

  lemma {:induction false} RecordAssignShape(sc: Scope, d: Expr, e: Expr, n: nat, tail: Code)
    requires IsLvalueKind(e) && e.ty.Record? && !d.NullExpr? && LvalCode(sc, d, n).Ok? && LvalCode(sc, e, LvalCode(sc, d, n).value.next).Ok?
    requires var dc := LvalCode(sc, d, n).value;
             var ec := LvalCode(sc, e, dc.next).value;
             var k := NarrowToStore(sc.layouts, ec.val, d.ty, ec.next);
             k.Ok? && tail == Code(k.value.insts + [Store(dc.val, k.value.val)], k.value.val, k.value.next)
    ensures var dc := LvalCode(sc, d, n).value;
            ExprCode(sc, Binop(d.ty, OpAssign, d, e), n) ==
            Ok(Code(dc.insts + (LvalCode(sc, e, dc.next).value.insts + tail.insts), tail.val, tail.next))
  {
    hide LvalCode, NarrowToStore;
    var dc := LvalCode(sc, d, n).value;
    var ec := LvalCode(sc, e, dc.next).value;
    var k := NarrowToStore(sc.layouts, ec.val, d.ty, ec.next).value;
    assert ExprCode(sc, e, dc.next) == Ok(ec);
    assert dc.insts + (ec.insts + tail.insts) == dc.insts + ec.insts + k.insts + [Store(dc.val, k.val)];
  }

  // ----- logical negation -----

  /** `!` compares with a 32-bit zero: its code is legal exactly for 32-bit operands, so not for
      pointers. */
  lemma {:induction false} NotExactly(w: World, v: nat, n: nat, s: Mach)
    requires v < n && v in s.regs
    ensures ExecCode(w, UnopTail(UnopNot, v, n).insts, s) == Illegal <==> s.regs[v].ty != I32
  {
    var c := UnopTail(UnopNot, v, n).insts;
    assert c == [c[0]] + [c[1], c[2]];
    ExecCons(w, c[0], [c[1], c[2]], s);
    ExecCons(w, c[1], [c[2]], SetReg(s, n, Encode(I32, 0)));
    assert [c[1], c[2]] == [c[1]] + [c[2]];
    if s.regs[v].ty == I32 {
      ExecTwo(w, c[1], c[2], SetReg(s, n, Encode(I32, 0)));
    }
  }

  // ----- the value of a narrow assignment -----

  /** An expression's code leaves a word of the machine type of its C type exactly when it is not
      an assignment to a one- or two-byte object; such an assignment leaves the stored word. */
  lemma {:induction false} ValueWidthExactly(te: TypeEnv, sc: Scope, c: CEnv, w: World, e: Expr, n: nat, s: Mach)
    requires Agree(te, sc, c, w) && Typed(te, e) && ExprCode(sc, e, n).Ok? && Rval(c, e, s.mem, s.tr).Val?
    ensures var k := ExprCode(sc, e, n).value;
            var o := ExecCode(w, k.insts, s);
            && o.Next? && k.val in o.s.regs
            && (o.s.regs[k.val].ty == ValueType(e.ty) <==> !NarrowAssign(e))
  {
    RvalCorrect(te, sc, c, w, e, n, s);
  }

  /** A value loaded in two parts. */
  lemma {:induction false} LoadSplit(m: Memory, a: int, k: nat, n: nat)
    ensures LoadLE(m, a, k + n) == LoadLE(m, a, k) + Pow256(k) * LoadLE(m, a + k, n)
    decreases k
  {
    if k > 0 {
      LoadSplit(m, a + 1, k - 1, n);
      assert a + 1 + (k - 1) == a + k;
      Distribute(LoadLE(m, a + 1, k - 1), Pow256(k - 1), LoadLE(m, a + k, n));
    }
  }

  lemma {:induction false} Distribute(x: nat, p: nat, hi: nat)
    ensures 256 * (x + p * hi) == 256 * x + (256 * p) * hi
  {
  }

  /** Storing `k` bytes replaces the low part of a longer value. */
  lemma {:induction false} PartialStore(m: Memory, a: int, k: nat, n: nat, bits: nat)
    requires 0 <= a && a + k + n <= SPACE && k + n < SPACE && bits < Pow256(k)
    ensures LoadLE(StoreLE(m, a, k, bits), a, k + n) == bits + Pow256(k) * LoadLE(m, a + k, n)
  {
    var m' := StoreLE(m, a, k, bits);
    LoadSplit(m', a, k, n);
    LoadStored(m, a, k, bits, k);
    ModUnique(bits, 0, bits, Pow256(k));
    LoadApart(m, a, k, bits, a + k, n);
  }

  /** `x = (l = r)` with an `int` variable `x` and a narrow `l`. */
  function Nested(x: CString, l: Expr, r: Expr): Expr
    requires !l.NullExpr?
  {
    Binop(Int, OpAssign, Var(Int, x), Binop(l.ty, OpAssign, l, r))
  }

  /** The emitted code stores only the narrow word into `x`. The source and the compiled program
      agree on `x` exactly when the upper bytes that `x` already has are the right extension. */
  lemma {:induction false} NestedNarrowAssignExactly(te: TypeEnv, sc: Scope, c: CEnv, w: World, x: CString, l: Expr, r: Expr, n: nat, s: Mach)
    requires !l.NullExpr? && (l.ty.Char? || l.ty.Short?) && Agree(te, sc, c, w)
    requires Typed(te, Binop(l.ty, OpAssign, l, r)) && x.Str? && x in te.vars && x in c.vars && 0 <= c.vars[x] <= SPACE - 4
    requires ExprCode(sc, Nested(x, l, r), n).Ok? && Rval(c, Binop(l.ty, OpAssign, l, r), s.mem, s.tr).Val?
    ensures var inner := Rval(c, Binop(l.ty, OpAssign, l, r), s.mem, s.tr);
            var source := Rval(c, Nested(x, l, r), s.mem, s.tr);
            var target := ExecCode(w, ExprCode(sc, Nested(x, l, r), n).value.insts, s);
            var k := Bytes(MemoryType(l.ty));
            && source.Val? && target.Next? && ReadTyped(source.mem, c.vars[x], Int) == inner.v
            && target.s.mem == StoreLE(inner.mem, c.vars[x], k, Encode(MemoryType(l.ty), inner.v).bits)
            && (ReadTyped(target.s.mem, c.vars[x], Int) == inner.v <==>
                LoadLE(inner.mem, c.vars[x] + k, 4 - k) == Encode(I32, inner.v).bits / Modulus(MemoryType(l.ty)))
  {
    hide LvalCode, ReadTyped, WriteTyped, Convert, Encode, LoadLE, StoreLE, Typed, TypedValue, Lval, Agree;
    var a := Binop(l.ty, OpAssign, l, r);
    var inner := Rval(c, a, s.mem, s.tr);
    NestedCode(te, sc, c, w, x, l, r, n, s);
    NarrowResult(c, l, r, s.mem, s.tr);
    NestedSource(c, x, l, r, s.mem, s.tr);
    UpperBytes(l.ty, inner.mem, c.vars[x], inner.v);
  }

  lemma {:induction false} NarrowResult(c: CEnv, l: Expr, r: Expr, m: Memory, tr: Trace)
    requires !l.NullExpr? && (l.ty.Char? || l.ty.Short?) && Rval(c, Binop(l.ty, OpAssign, l, r), m, tr).Val?
    ensures var v := Rval(c, Binop(l.ty, OpAssign, l, r), m, tr).v; InRange(I32, v)
  {
    hide Lval, WriteTyped, Convert;
    var a := Lval(c, l, m, tr);
    EncodeConvert(l.ty, Rval(c, r, a.mem, a.tr).v);
  }

  lemma {:induction false} NestedSource(c: CEnv, x: CString, l: Expr, r: Expr, m: Memory, tr: Trace)
    requires !l.NullExpr? && x in c.vars && 0 <= c.vars[x] <= SPACE - 4 && Rval(c, Binop(l.ty, OpAssign, l, r), m, tr).Val?
    requires InRange(I32, Rval(c, Binop(l.ty, OpAssign, l, r), m, tr).v)
    ensures var inner := Rval(c, Binop(l.ty, OpAssign, l, r), m, tr);
            var source := Rval(c, Nested(x, l, r), m, tr);
            source.Val? && ReadTyped(source.mem, c.vars[x], Int) == inner.v
  {
    hide ReadTyped, WriteTyped;
    var inner := Rval(c, Binop(l.ty, OpAssign, l, r), m, tr);
    ModUnique(c.vars[x], 0, c.vars[x], SPACE);
    ReadBack(inner.mem, c.vars[x], Int, inner.v);
    SignedEncode(I32, inner.v);
  }

  lemma {:induction false} NestedCode(te: TypeEnv, sc: Scope, c: CEnv, w: World, x: CString, l: Expr, r: Expr, n: nat, s: Mach)
    requires !l.NullExpr? && (l.ty.Char? || l.ty.Short?) && Agree(te, sc, c, w)
    requires Typed(te, Binop(l.ty, OpAssign, l, r)) && x.Str? && x in te.vars && x in c.vars && 0 <= c.vars[x] <= SPACE - 4
    requires ExprCode(sc, Nested(x, l, r), n).Ok? && Rval(c, Binop(l.ty, OpAssign, l, r), s.mem, s.tr).Val?
    ensures var inner := Rval(c, Binop(l.ty, OpAssign, l, r), s.mem, s.tr);
            var target := ExecCode(w, ExprCode(sc, Nested(x, l, r), n).value.insts, s);
            target.Next? && target.s.mem == StoreLE(inner.mem, c.vars[x], Bytes(MemoryType(l.ty)), Encode(MemoryType(l.ty), inner.v).bits)
  {
    hide Encode, StoreLE, Typed, TypedValue, Rval, ExprCode, Agree;
    var a := Binop(l.ty, OpAssign, l, r);
    NestedShape(sc, x, l, r, n);
    HomeOf(te, sc, c, w, x);
    var slot := Find(sc.table, x).value.slot;
    var home := [StackAddr(n, slot)];
    ExecOne(w, home[0], s);
    var s1 := SetReg(s, n, Encode(I64, w.frame(slot)));
    var ac := ExprCode(sc, a, n + 1).value;
    RvalCorrect(te, sc, c, w, a, n + 1, s1);
    var s2 := ExecCode(w, ac.insts, s1).s;
    ExecOne(w, Store(n, ac.val), s2);
    ExecAppend(w, ac.insts, [Store(n, ac.val)], s1);
    ExecAppend(w, home, ac.insts + [Store(n, ac.val)], s);
    DecodeEncode(I64, c.vars[x]);
  }

  lemma {:induction false} HomeOf(te: TypeEnv, sc: Scope, c: CEnv, w: World, x: CString)
    requires Agree(te, sc, c, w) && x in te.vars
    ensures Find(sc.table, x).Some? && x in c.vars && c.vars[x] == w.frame(Find(sc.table, x).value.slot)
  {
    assert BoundAlike(sc, c, w, x);
  }

  lemma {:induction false} NestedShape(sc: Scope, x: CString, l: Expr, r: Expr, n: nat)
    requires !l.NullExpr? && ExprCode(sc, Nested(x, l, r), n).Ok?
    ensures ExprCode(sc, Binop(l.ty, OpAssign, l, r), n + 1).Ok? && Find(sc.table, x).Some?
    ensures var inner := ExprCode(sc, Binop(l.ty, OpAssign, l, r), n + 1).value;
            ExprCode(sc, Nested(x, l, r), n).value.insts ==
            [StackAddr(n, Find(sc.table, x).value.slot)] + (inner.insts + [Store(n, inner.val)])
  {
    var a := Binop(l.ty, OpAssign, l, r);
    assert LvalCode(sc, Var(Int, x), n) == Ok(Code([StackAddr(n, Find(sc.table, x).value.slot)], n, n + 1));
    assert ExprCode(sc, a, n + 1).Ok?;
    assert Nested(x, l, r).lhs == Var(Int, x) && Nested(x, l, r).rhs == a;
  }

  /** The bytes above a narrow store decide what the whole `int` reads as. */
  lemma {:induction false} UpperBytes(t: CType, m: Memory, a: int, v: int)
    requires (t.Char? || t.Short?) && 0 <= a <= SPACE - 4 && InRange(I32, v)
    ensures var y := MemoryType(t);
            ReadTyped(StoreLE(m, a, Bytes(y), Encode(y, v).bits), a, Int) == v <==>
            LoadLE(m, a + Bytes(y), 4 - Bytes(y)) == Encode(I32, v).bits / Modulus(y)
  {
    hide LoadLE, StoreLE;
    hide Pow256;
    var y := MemoryType(t);
    var k := Bytes(y);
    ModulusIsPow(y);
    ModulusIsPow(I32);
    PowFour(y);
    PartialStore(m, a, k, 4 - k, Encode(y, v).bits);
    var got := LoadLE(StoreLE(m, a, k, Encode(y, v).bits), a, 4);
    var hi := LoadLE(m, a + k, 4 - k);
    assert got == Encode(y, v).bits + Modulus(y) * hi;
    EncodeNested(y, I32, v);
    var want := Encode(I32, v).bits;
    assert want == want % Modulus(y) + Modulus(y) * (want / Modulus(y));
    LoadBound(m, a + k, 4 - k);
    SignedEncode(I32, v);
    assert got < Modulus(I32);
    ModUnique(got, 0, got, Modulus(I32));
    if Signed(Encode(I32, got)) == v {
      EncodeSigned(I32, got);
    }
  }

  lemma {:induction false} PowFour(y: Ty)
    requires y.I8? || y.I16?
    ensures Pow256(4 - Bytes(y)) == Modulus(I32) / Modulus(y)
  {
    assert Pow256(1) == 256 && Pow256(2) == 256 * Pow256(1) && Pow256(3) == 256 * Pow256(2);
  }

  lemma {:induction false} LoadBound(m: Memory, a: int, n: nat)
    ensures LoadLE(m, a, n) < Pow256(n)
    decreases n
  {
    if n > 0 { LoadBound(m, a + 1, n - 1); }
  }

  const X: CString := Str("x")
  const CH: CString := Str("c")

  /** `int x; char c;`, each in its slot of 8 bytes. */
  const TWO_LOCALS: seq<LocalBinding> := [LocalBinding(X, Int, 0), LocalBinding(CH, Char(true), 1)]

  function TwoTypes(): TypeEnv {
    TypeEnv(map[], map[X := Int, CH := Char(true)], [])
  }

  function EightApart(ext: Extern): World {
    World(ext, (k: nat) => 8 * k, (k: nat) => 0)
  }

  function TwoHomes(ext: Extern): CEnv {
    CEnv(map[], map[X := 0, CH := 8], map[], ext, false, (f, vs, m, tr) => true)
  }

  /** With `x == 256`, `x = (c = 1)` makes `x` 1 in C and 257 compiled. */
  lemma {:induction false} NestedNarrowAssignWrong(ext: Extern)
    ensures var e, s := Nested(X, Var(Char(true), CH), IntLit(Int, 1)), Mach(map[], map[1 := 1], []);
            var code := ExprCode(Scope(map[], TWO_LOCALS, []), e, 0);
            && code.Ok? && ReadTyped(s.mem, 0, Int) == 256
            && var source, target := Rval(TwoHomes(ext), e, s.mem, []), ExecCode(EightApart(ext), code.value.insts, s);
            && source.Val? && target.Next?
            && ReadTyped(source.mem, 0, Int) == 1 && ReadTyped(target.s.mem, 0, Int) == 257
  {
    hide ReadTyped, StoreLE, LoadLE, ExecCode, ExprCode, Rval, Agree, Typed;
    var te, c, w, s := TwoTypes(), TwoHomes(ext), EightApart(ext), Mach(map[], map[1 := 1], []);
    var l, r := Var(Char(true), CH), IntLit(Int, 1);
    TwoLocalsAgree(ext);
    NestedLowered();
    InnerValue(ext);
    NestedNarrowAssignExactly(te, Scope(map[], TWO_LOCALS, []), c, w, X, l, r, 0, s);
    UpperBytesHold();
  }

  lemma {:induction false} NestedLowered()
    ensures ExprCode(Scope(map[], TWO_LOCALS, []), Nested(X, Var(Char(true), CH), IntLit(Int, 1)), 0).Ok?
    ensures Typed(TwoTypes(), Binop(Char(true), OpAssign, Var(Char(true), CH), IntLit(Int, 1)))
  {
    var sc, l, r := Scope(map[], TWO_LOCALS, []), Var(Char(true), CH), IntLit(Int, 1);
    TwoLocalsFound();
    assert LvalCode(sc, l, 1).Ok?;
    assert ExprCode(sc, r, 2).Ok?;
    assert ExprCode(sc, Binop(l.ty, OpAssign, l, r), 1).Ok?;
    assert LvalCode(sc, Var(Int, X), 0) == Ok(Code([StackAddr(0, 0)], 0, 1));
  }

  lemma {:induction false} InnerValue(ext: Extern)
    ensures Rval(TwoHomes(ext), Binop(Char(true), OpAssign, Var(Char(true), CH), IntLit(Int, 1)), map[1 := 1], []) ==
            Val(1, map[1 := 1, 8 := 1], [])
  {
    hide WriteTyped, Convert;
    InnerStores();
    assert Lval(TwoHomes(ext), Var(Char(true), CH), map[1 := 1], []) == Val(8, map[1 := 1], []);
  }

  lemma {:induction false} TwoLocalsFound()
    ensures Find(TWO_LOCALS, X) == Some(TWO_LOCALS[0]) && Find(TWO_LOCALS, CH) == Some(TWO_LOCALS[1])
  {
    assert TWO_LOCALS[1..][0] == TWO_LOCALS[1];
  }

  lemma {:induction false} TwoLocalsAgree(ext: Extern)
    ensures Agree(TwoTypes(), Scope(map[], TWO_LOCALS, []), TwoHomes(ext), EightApart(ext))
  {
    TwoLocalsFound();
    var sc, c, w := Scope(map[], TWO_LOCALS, []), TwoHomes(ext), EightApart(ext);
    assert BoundAlike(sc, c, w, X) && BoundAlike(sc, c, w, CH);
  }

  lemma {:induction false} InnerStores()
    ensures WriteTyped(map[1 := 1], 8, Char(true), 1) == map[1 := 1, 8 := 1] && Convert(Char(true), 1) == 1
  {
    assert StoreLE(map[1 := 1], 8, 1, 1) == StoreLE(map[1 := 1][8 := 1], 9, 0, 0);
  }

  lemma {:induction false} UpperBytesHold()
    ensures ReadTyped(map[1 := 1], 0, Int) == 256
    ensures ReadTyped(StoreLE(map[1 := 1, 8 := 1], 0, 1, 1), 0, Int) == 257
  {
    hide LoadLE, ReadTyped;
    FourBytes(map[1 := 1]);
    SmallInteger(map[1 := 1], 256);
    var m := StoreLE(map[1 := 1, 8 := 1], 0, 1, 1);
    assert m == StoreLE(map[1 := 1, 8 := 1][0 := 1], 1, 0, 0);
    FourBytes(m);
    SmallInteger(m, 257);
  }

  lemma {:induction false} SmallInteger(m: Memory, v: int)
    requires LoadLE(m, 0, 4) == v && InRange(I32, v)
    ensures ReadTyped(m, 0, Int) == v
  {
    SignedEncode(I32, v);
  }

  lemma {:induction false} FourBytes(m: Memory)
    ensures LoadLE(m, 0, 4) == ByteAt(m, 0) + 256 * (ByteAt(m, 1) + 256 * (ByteAt(m, 2) + 256 * ByteAt(m, 3)))
  {
    assert LoadLE(m, 4, 0) == 0;
    assert LoadLE(m, 3, 1) == ByteAt(m, 3) + 256 * LoadLE(m, 4, 0);
    assert LoadLE(m, 2, 2) == ByteAt(m, 2) + 256 * LoadLE(m, 3, 1);
    assert LoadLE(m, 1, 3) == ByteAt(m, 1) + 256 * LoadLE(m, 2, 2);
  }

  // ----- null pointer constants -----

  /** A comparison is legal exactly for operands of one machine type, so `p == 0`, whose constant
      has 32 bits, is not. */
  lemma {:induction false} ComparisonExactly(w: World, ls: Layouts, op: BinOpKind, lt: CType, rt: CType, l: nat, r: nat, n: nat, s: Mach)
    requires CmpCc(op).Some? && l < n && r < n && l in s.regs && r in s.regs
    ensures BinopTail(ls, op, lt, rt, l, r, n).Ok?
    ensures ExecCode(w, BinopTail(ls, op, lt, rt, l, r, n).value.insts, s) == Illegal <==> s.regs[l].ty != s.regs[r].ty
  {
    var c := BinopTail(ls, op, lt, rt, l, r, n).value.insts;
    assert c == [c[0]] + [c[1]];
    ExecCons(w, c[0], [c[1]], s);
    if s.regs[l].ty == s.regs[r].ty {
      ExecTwo(w, c[0], c[1], s);
    }
  }

  /** Storing four zero bytes into a pointer makes it null exactly if the other four are zero. */
  lemma {:induction false} HalfPointerStore(m: Memory, a: int, to: CType)
    requires 0 <= a <= SPACE - 8
    ensures ReadTyped(StoreLE(m, a, 4, 0), a, Pointer(to)) == 0 <==> LoadLE(m, a + 4, 4) == 0
  {
    hide LoadLE, StoreLE, Pow256;
    ModulusIsPow(I32);
    PartialStore(m, a, 4, 4, 0);
    var got, hi := LoadLE(StoreLE(m, a, 4, 0), a, 8), LoadLE(m, a + 4, 4);
    LoadBound(m, a + 4, 4);
    assert got == Modulus(I32) * hi;
    ModUnique(got, 0, got, Modulus(I64));
  }

  /** `p = 0` stores the 32-bit constant: the pointer is null afterwards exactly if its upper four
      bytes already were zero. */
  lemma {:induction false} NullAssignExactly(te: TypeEnv, sc: Scope, c: CEnv, w: World, p: Expr, n: nat, s: Mach)
    requires !p.NullExpr? && p.ty.Pointer? && Agree(te, sc, c, w) && TypedLvalue(te, p) && LvalCode(sc, p, n).Ok?
    requires Lval(c, p, s.mem, s.tr).Val? && 0 <= Lval(c, p, s.mem, s.tr).v <= SPACE - 8
    ensures var a, code := Lval(c, p, s.mem, s.tr), ExprCode(sc, Binop(p.ty, OpAssign, p, IntLit(Int, 0)), n);
            && code.Ok?
            && var target := ExecCode(w, code.value.insts, s);
            && target.Next? && target.s.mem == StoreLE(a.mem, a.v, 4, 0)
            && (ReadTyped(target.s.mem, a.v, p.ty) == 0 <==> LoadLE(a.mem, a.v + 4, 4) == 0)
  {
    hide StoreLE, LoadLE, ReadTyped, LvalCode, TypedLvalue, Lval, Agree;
    LvalCorrect(te, sc, c, w, p, n, s);
    var a, ac := Lval(c, p, s.mem, s.tr), LvalCode(sc, p, n).value;
    var tail := [Iconst(ac.next, I32, 0), Store(ac.val, ac.next)];
    assert ExprCode(sc, IntLit(Int, 0), ac.next) == Ok(Code([Iconst(ac.next, I32, 0)], ac.next, ac.next + 1));
    assert ExprCode(sc, Binop(p.ty, OpAssign, p, IntLit(Int, 0)), n).value.insts == ac.insts + tail;
    ExecAppend(w, ac.insts, tail, s);
    DecodeEncode(I64, a.v);
    ExecTwo(w, tail[0], tail[1], ExecCode(w, ac.insts, s).s);
    HalfPointerStore(a.mem, a.v, p.ty.to);
  }

  /** `T *p = 0;` does the same to the slot of `p`. */
  lemma {:induction false} NullInitExactly(sc: Scope, w: World, g: State, x: CString, to: CType, s: Mach)
    requires g.current < |g.blocks| && x.Str? && Find(sc.table, x).Some?
    requires var a := w.frame(Find(sc.table, x).value.slot); 0 <= a <= SPACE - 8
    ensures var a, g' := w.frame(Find(sc.table, x).value.slot), LowerInit(sc, g, x, Pointer(to), IntLit(Int, 0));
            && g'.Ok? && |g'.value.blocks| == |g.blocks|
            && var target := ExecCode(w, g'.value.blocks[g.current][|g.blocks[g.current]|..], s);
            && target.Next? && target.s.mem == StoreLE(s.mem, a, 4, 0)
            && (ReadTyped(target.s.mem, a, Pointer(to)) == 0 <==> LoadLE(s.mem, a + 4, 4) == 0)
  {
    hide StoreLE, LoadLE, ReadTyped;
    var slot, n := Find(sc.table, x).value.slot, g.next;
    var insts := [Iconst(n, I32, 0), StackAddr(n + 1, slot), Store(n + 1, n)];
    assert ExprCode(sc, IntLit(Int, 0), n) == Ok(Code([Iconst(n, I32, 0)], n, n + 1));
    var g' := LowerInit(sc, g, x, Pointer(to), IntLit(Int, 0)).value;
    assert [Iconst(n, I32, 0)] + [] + [StackAddr(n + 1, slot), Store(n + 1, n)] == insts;
    assert g'.blocks[g.current] == g.blocks[g.current] + insts;
    assert insts == [insts[0]] + [insts[1], insts[2]];
    ExecCons(w, insts[0], [insts[1], insts[2]], s);
    ModUnique(w.frame(slot), 0, w.frame(slot), SPACE);
    ExecTwo(w, insts[1], insts[2], SetReg(s, n, Encode(I32, 0)));
    HalfPointerStore(s.mem, w.frame(slot), to);
  }

  /** In a slot whose upper half holds a 1, `int *x = 0;` makes a pointer that is not null. */
  lemma {:induction false} NullInitWrong(ext: Extern)
    ensures var sc, g := Scope(map[], [LocalBinding(X, Pointer(Int), 0)], []), State([[]], 0, 0, None, None, false);
            var g' := LowerInit(sc, g, X, Pointer(Int), IntLit(Int, 0));
            && g'.Ok?
            && var target := ExecCode(EightApart(ext), g'.value.blocks[0], Mach(map[], map[4 := 1], []));
            && target.Next? && ReadTyped(target.s.mem, 0, Pointer(Int)) != 0
  {
    hide ExecCode, ReadTyped, StoreLE, LowerInit, LoadLE;
    var sc, g := Scope(map[], [LocalBinding(X, Pointer(Int), 0)], []), State([[]], 0, 0, None, None, false);
    var s := Mach(map[], map[4 := 1], []);
    assert Find(sc.table, X) == Some(sc.table[0]);
    NullInitExactly(sc, EightApart(ext), g, X, Int, s);
    var g' := LowerInit(sc, g, X, Pointer(Int), IntLit(Int, 0)).value;
    assert g'.blocks[0][0..] == g'.blocks[0];
    UpperHalfSet();
  }

  lemma {:induction false} UpperHalfSet()
    ensures LoadLE(map[4 := 1], 4, 4) != 0
  {
    assert LoadLE(map[4 := 1], 4, 4) == 1 + 256 * LoadLE(map[4 := 1], 5, 3);
  }

  // ----- empty bodies -----

  /** Nothing is emitted for a definition exactly if its body is empty. */
  lemma {:induction false} EmptyBodyExactly(ls: Layouts, data: seq<CString>, f: Func)
    ensures EmitDefinition(ls, data, f) == Ok(None) <==> f.body.Nil?
  {
    hide EmitFunction;
  }

  /** So `int f(void) {}`, which returns 0 in the source, is taken for a declaration. */
  lemma {:induction false} EmptyBodyDropped(ls: Layouts, data: seq<CString>, c: CEnv, fuel: nat, m: Memory)
    ensures var f := Func(Str("f"), Int, [], Nil);
            RunFunc(c, fuel, f, [], m) == Returned(0, m, []) && EmitDefinition(ls, data, f) == Ok(None)
  {
    var f := Func(Str("f"), Int, [], Nil);
    assert BindParams(c, f.params, [], 0, m) == m;
  }
}
