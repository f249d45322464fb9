/** Expression and lvalue lowering is correct: the emitted straight-line code computes the
    source value or address, with the same effects in the same order. */
module ExprCorrect {
  import opened Results
  import opened Words
  import opened CTypes
  import opened ByteMemory
  import opened Ast
  import opened Clif
  import opened SlotTable
  import opened CSemantics
  import opened Lowering
  import opened WellTyped

  /** The source and target surroundings describe one machine: equal layouts and callees, and
      each variable and symbol at the address of the slot or data object it is bound to. */
  ghost predicate Agree(te: TypeEnv, sc: Scope, c: CEnv, w: World) {
    && te.layouts == sc.layouts == c.layouts && te.data == sc.data && c.ext == w.ext && !c.strict
    && (forall x :: x in te.vars ==> BoundAlike(sc, c, w, x))
    && (forall s :: s in te.data ==>
          FindData(sc.data, s).Some? && s in c.syms && c.syms[s] == w.data(FindData(sc.data, s).value))
  }

  ghost predicate BoundAlike(sc: Scope, c: CEnv, w: World, x: CString) {
    Find(sc.table, x).Some? && x in c.vars && c.vars[x] == w.frame(Find(sc.table, x).value.slot)
  }

  /** Registers below `n` are untouched. */
  ghost predicate Keeps(n: nat, s: Mach, s': Mach) {
    forall k :: k < n && k in s.regs ==> k in s'.regs && s'.regs[k] == s.regs[k]
  }

  ghost predicate Holds(s: Mach, v: nat, w: Word) {
    v in s.regs && s.regs[v] == w
  }

  /** Running `insts` from `s` ends as the source evaluation `r` does, with its value of type
      `t` in `val` and the older registers intact. */
  ghost predicate Delivers(w: World, insts: seq<Inst>, val: nat, n: nat, s: Mach, r: EvalResult, t: Ty) {
    match r
    case Val(v, m, tr) =>
      var o := ExecCode(w, insts, s);
      o.Next? && o.s.mem == m && o.s.tr == tr && Keeps(n, s, o.s) && Holds(o.s, val, Encode(t, v))
    case Trap(tr) => ExecCode(w, insts, s) == Fault(tr)
    case Wrong => false
  }

  lemma {:induction false} ExecOne(w: World, i: Inst, s: Mach)
    ensures ExecCode(w, [i], s) == Exec1(w, i, s)
  {
    match Exec1(w, i, s)
    case Next(s') => assert [i][1..] == [];
    case _ =>
  }

  lemma {:induction false} ExecCons(w: World, i: Inst, rest: seq<Inst>, s: Mach)
    ensures ExecCode(w, [i] + rest, s) == match Exec1(w, i, s) case Next(s') => ExecCode(w, rest, s') case e => e
  {
    ExecOne(w, i, s);
    ExecAppend(w, [i], rest, s);
  }

  lemma {:induction false} ExecTwo(w: World, i: Inst, j: Inst, s: Mach)
    ensures ExecCode(w, [i, j], s) == match Exec1(w, i, s) case Next(s') => Exec1(w, j, s') case e => e
  {
    assert [i, j] == [i] + [j];
    ExecCons(w, i, [j], s);
    match Exec1(w, i, s)
    case Next(s') => ExecOne(w, j, s');
    case _ =>
  }

  /** Sequential composition: `b` runs after `a` delivered its value. */
  lemma {:induction false} Compose(w: World, a: seq<Inst>, av: nat, b: seq<Inst>, bv: nat, n: nat, k: nat, s: Mach,
                r: EvalResult, t: Ty, r': EvalResult, t': Ty)
    requires Delivers(w, a, av, n, s, r, t) && n <= k
    requires r.Val? ==> Delivers(w, b, bv, k, ExecCode(w, a, s).s, r', t')
    requires !r.Val? ==> r' == r
    ensures Delivers(w, a + b, bv, n, s, r', t')
  {
    ExecAppend(w, a, b, s);
  }

  /** The state after code that delivered a value. */
  lemma {:induction false} Delivered(w: World, insts: seq<Inst>, val: nat, n: nat, s: Mach, r: EvalResult, t: Ty)
    requires Delivers(w, insts, val, n, s, r, t) && r.Val?
    ensures var o := ExecCode(w, insts, s);
            o.Next? && o.s.mem == r.mem && o.s.tr == r.tr && Keeps(n, s, o.s) && Holds(o.s, val, Encode(t, r.v))
  {
  }

  lemma {:induction false} EncodeAddress(p: int, i: int, stride: nat)
    ensures Encode(I64, AddressPlus(p, i, stride)) == Encode(I64, Encode(I64, p).bits + Encode(I64, i * stride).bits)
    ensures Encode(I64, AddressPlus(p, -i, stride)) == Encode(I64, Encode(I64, p).bits - Encode(I64, i * stride).bits)
  {
    EncodeAbsorbs(I64, p, i * stride);
    EncodeNested(I64, I64, p + i * stride);
    EncodeNested(I64, I64, p - i * stride);
    assert (-i) * stride == -(i * stride);
  }

  lemma {:induction false} IndexWidened(w: World, v: nat, n: nat, s: Mach, i: int)
    requires Holds(s, v, Encode(I32, i)) && InRange(I32, i)
    ensures Exec1(w, Sextend(n, I64, v), s) == Next(SetReg(s, n, Encode(I64, i)))
  {
    SignedEncode(I32, i);
  }

  lemma {:induction false} IndexScaled(w: World, n: nat, s: Mach, i: int, stride: nat)
    requires Holds(s, n, Encode(I64, i)) && Holds(s, n + 1, Encode(I64, stride))
    ensures Exec1(w, Arith(n + 2, Imul, n, n + 1), s) == Next(SetReg(s, n + 2, Encode(I64, i * stride)))
  {
    EncodeAbsorbs(I64, i, stride);
  }

  lemma {:induction false} StrideSet(w: World, n: nat, s: Mach, stride: nat)
    ensures Exec1(w, Iconst(n + 1, I64, stride), s) == Next(SetReg(s, n + 1, Encode(I64, stride)))
  {
  }

  /** The first three instructions of a scaled address leave `i * stride` in `n + 2`. */
  lemma {:induction false} ScaleCorrect(w: World, v: nat, stride: nat, n: nat, s: Mach, i: int, last: Inst)
    requires v < n && Holds(s, v, Encode(I32, i)) && InRange(I32, i)
    ensures var s' := SetReg(SetReg(SetReg(s, n, Encode(I64, i)), n + 1, Encode(I64, stride)), n + 2, Encode(I64, i * stride));
            ExecCode(w, [Sextend(n, I64, v), Iconst(n + 1, I64, stride), Arith(n + 2, Imul, n, n + 1), last], s) == Exec1(w, last, s')
  {
    hide Encode, Exec1, ExecCode;
    var i0, i1, i2 := Sextend(n, I64, v), Iconst(n + 1, I64, stride), Arith(n + 2, Imul, n, n + 1);
    assert [i0, i1, i2, last] == [i0] + ([i1] + [i2, last]);
    IndexWidened(w, v, n, s, i);
    ExecCons(w, i0, [i1] + [i2, last], s);
    var s1 := SetReg(s, n, Encode(I64, i));
    StrideSet(w, n, s1, stride);
    ExecCons(w, i1, [i2, last], s1);
    var s2 := SetReg(s1, n + 1, Encode(I64, stride));
    IndexScaled(w, n, s2, i, stride);
    ExecTwo(w, i2, last, s2);
  }

  lemma {:induction false} OffsetAdded(w: World, op: ArithOp, base: nat, first: bool, n: nat, s: Mach, p: int, d: int)
    requires (op.Iadd? || op.Isub?) && (first ==> op.Iadd?)
    requires Holds(s, base, Encode(I64, p)) && Holds(s, n + 2, Encode(I64, d))
    ensures var sum := if op.Iadd? then Encode(I64, p).bits + Encode(I64, d).bits else Encode(I64, p).bits - Encode(I64, d).bits;
            Exec1(w, if first then Arith(n + 3, op, n + 2, base) else Arith(n + 3, op, base, n + 2), s) == Next(SetReg(s, n + 3, Encode(I64, sum)))
  {
  }

  lemma {:induction false} ScaledAddressCorrect(w: World, op: ArithOp, base: nat, v: nat, stride: nat, first: bool, n: nat, s: Mach, p: int, i: int)
    requires base < n && v < n && (op.Iadd? || op.Isub?) && (first ==> op.Iadd?)
    requires Holds(s, base, Encode(I64, p)) && Holds(s, v, Encode(I32, i)) && InRange(I32, i)
    ensures var c := ScaledAddress(op, base, v, stride, first, n);
            Delivers(w, c.insts, c.val, n, s,
                     Val(AddressPlus(p, if op.Iadd? then i else -i, stride), s.mem, s.tr), I64)
  {
    hide Encode, AddressPlus, ExecCode, Exec1;
    EncodeAddress(p, i, stride);
    var last := ScaledAddress(op, base, v, stride, first, n).insts[3];
    ScaleCorrect(w, v, stride, n, s, i, last);
    var s' := SetReg(SetReg(SetReg(s, n, Encode(I64, i)), n + 1, Encode(I64, stride)), n + 2, Encode(I64, i * stride));
    OffsetAdded(w, op, base, first, n, s', p, i * stride);
  }

  lemma {:induction false} HalfBound(q: int, b: int, k: int, bound: int)
    requires k == q * b && (b >= 2 || b <= -2) && -bound <= k <= bound
    ensures -bound <= 2 * q <= bound
  {
    if b >= 2 {
      assert q >= 0 ==> q * b >= q * 2;
      assert q < 0 ==> q * b <= q * 2;
    } else {
      assert q >= 0 ==> q * b <= q * -2;
      assert q < 0 ==> q * b >= q * -2;
    }
  }

  lemma {:induction false} QuotientRange(a: int, b: int, q: int, r: int, k: int)
    requires InRange(I32, a) && InRange(I32, b)
    requires k == q * b && a == k + r && Abs(r) < Abs(b) && (r != 0 ==> (r < 0) == (a < 0))
    ensures InRange(I32, q) <==> !(a == -0x8000_0000 && b == -1)
    ensures InRange(I32, r)
  {
    if b == 1 || b == -1 {
      assert k == if b == 1 then q else -q;
    } else {
      HalfBound(q, b, k, 0x8000_0000);
    }
  }

  /** Signed 32-bit division overflows for exactly one pair of operands. */
  lemma {:induction false} DivisionOverflow(a: int, b: int)
    requires InRange(I32, a) && InRange(I32, b) && b != 0
    ensures InRange(I32, TruncDiv(a, b)) <==> !(a == -0x8000_0000 && b == -1)
    ensures InRange(I32, TruncRem(a, b))
  {
    var q, r := TruncDiv(a, b), TruncRem(a, b);
    TruncDivUnique(a, b, q, r);
    QuotientRange(a, b, q, r, q * b);
  }

  ghost predicate TailDelivers(w: World, c: Code, n: nat, s: Mach, r: Operated, t: Ty) {
    match r
    case Num(v) => InRange(t, v) && Delivers(w, c.insts, c.val, n, s, Val(v, s.mem, s.tr), t)
    case DivisionFault => ExecCode(w, c.insts, s) == Fault(s.tr)
    case NoMeaning => false
  }

  lemma {:induction false} ArithCorrect(w: World, op: BinOpKind, l: nat, r: nat, n: nat, s: Mach, a: int, b: int, ls: Layouts)
    requires op.OpAdd? || op.OpSub? || op.OpMul?
    requires Holds(s, l, Encode(I32, a)) && Holds(s, r, Encode(I32, b))
    ensures TailDelivers(w, BinopTail(ls, op, Int, Int, l, r, n).value, n, s, Operate(ls, op, Int, Int, a, b), I32)
  {
    ExecOne(w, BinopTail(ls, op, Int, Int, l, r, n).value.insts[0], s);
    EncodeAbsorbs(I32, a, b);
    EncodeWrap32(if op.OpAdd? then a + b else if op.OpSub? then a - b else a * b);
  }

  lemma {:induction false} DivideCorrect(w: World, op: BinOpKind, l: nat, r: nat, n: nat, s: Mach, a: int, b: int, ls: Layouts)
    requires op.OpDiv? || op.OpMod?
    requires Holds(s, l, Encode(I32, a)) && Holds(s, r, Encode(I32, b)) && InRange(I32, a) && InRange(I32, b)
    ensures TailDelivers(w, BinopTail(ls, op, Int, Int, l, r, n).value, n, s, Operate(ls, op, Int, Int, a, b), I32)
  {
    ExecOne(w, BinopTail(ls, op, Int, Int, l, r, n).value.insts[0], s);
    SignedEncode(I32, a);
    SignedEncode(I32, b);
    if b != 0 {
      DivisionOverflow(a, b);
    }
  }

  lemma {:induction false} BitWidens(b: bool)
    ensures Encode(I32, Encode(I8, Bit(b)).bits) == Encode(I32, Bit(b))
  {
  }

  lemma {:induction false} CompareCorrect(w: World, ls: Layouts, op: BinOpKind, lt: CType, rt: CType, l: nat, r: nat, n: nat, s: Mach, a: int, b: int)
    requires CmpCc(op).Some? && ValueType(lt) == ValueType(rt)
    requires op in {OpEq, OpNe} || ValueType(lt) == I32
    requires Holds(s, l, Encode(ValueType(lt), a)) && Holds(s, r, Encode(ValueType(rt), b))
    requires InRange(ValueType(lt), a) && InRange(ValueType(rt), b)
    ensures TailDelivers(w, BinopTail(ls, op, lt, rt, l, r, n).value, n, s, Operate(ls, op, lt, rt, a, b), I32)
  {
    hide Encode;
    var c := BinopTail(ls, op, lt, rt, l, r, n).value;
    ExecTwo(w, c.insts[0], c.insts[1], s);
    DecodeEncode(ValueType(lt), a);
    DecodeEncode(ValueType(rt), b);
    BitWidens(true);
    BitWidens(false);
  }

  lemma {:induction false} BinopTailCorrect(te: TypeEnv, w: World, op: BinOpKind, lt: CType, rt: CType, t: CType, l: nat, r: nat, n: nat, s: Mach, a: int, b: int)
    requires OperatorTyped(te, op, lt, rt, t) && l < n && r < n
    requires Holds(s, l, Encode(ValueType(lt), a)) && Holds(s, r, Encode(ValueType(rt), b))
    requires InRange(ValueType(lt), a) && InRange(ValueType(rt), b)
    ensures var c := BinopTail(te.layouts, op, lt, rt, l, r, n);
            c.Ok? && TailDelivers(w, c.value, n, s, Operate(te.layouts, op, lt, rt, a, b), ValueType(t))
  {
    if CmpCc(op).Some? {
      CompareCorrect(w, te.layouts, op, lt, rt, l, r, n, s, a, b);
    } else if op in {OpAdd, OpSub} && lt.Pointer? {
      SizedKept(te, lt.to);
      ScaledAddressCorrect(w, if op.OpAdd? then Iadd else Isub, l, r, TypeSize(te.layouts, lt.to).value, false, n, s, a, b);
    } else if op.OpAdd? && rt.Pointer? {
      SizedKept(te, rt.to);
      ScaledAddressCorrect(w, Iadd, r, l, TypeSize(te.layouts, rt.to).value, true, n, s, b, a);
    } else if op.OpDiv? || op.OpMod? {
      DivideCorrect(w, op, l, r, n, s, a, b, te.layouts);
    } else {
      ArithCorrect(w, op, l, r, n, s, a, b, te.layouts);
    }
  }

  lemma {:induction false} UnopTailCorrect(w: World, op: UnOpKind, v: nat, n: nat, s: Mach, a: int)
    requires v < n && Holds(s, v, Encode(I32, a)) && InRange(I32, a)
    ensures var c := UnopTail(op, v, n);
            Delivers(w, c.insts, c.val, n, s, Val(if op.UnopNeg? then Wrap32(-a) else Truth(a == 0), s.mem, s.tr), I32)
  {
    var c := UnopTail(op, v, n);
    if op.UnopNeg? {
      ExecOne(w, c.insts[0], s);
      ModAdd(0, a, Modulus(I32));
      EncodeWrap32(-a);
    } else {
      assert c.insts == [c.insts[0]] + [c.insts[1], c.insts[2]];
      ExecCons(w, c.insts[0], [c.insts[1], c.insts[2]], s);
      ExecTwo(w, c.insts[1], c.insts[2], SetReg(s, n, Encode(I32, 0)));
      SignedEncode(I32, a);
    }
  }

  /** The stored word is the low part of the value, and encodes the converted value too. */
  lemma {:induction false} EncodeConvert(t: CType, v: int)
    requires IsScalar(t)
    ensures Encode(MemoryType(t), Convert(t, v)) == Encode(MemoryType(t), v)
    ensures InRange(ValueType(t), Convert(t, v))
  {
    EncodeSigned(MemoryType(t), v);
    EncodeNested(MemoryType(t), MemoryType(t), v);
  }

  /** Narrowing keeps the low bits, in one step or two. */
  lemma {:induction false} NarrowCorrect(w: World, ls: Layouts, v: nat, t: CType, n: nat, s: Mach, a: int)
    requires IsScalar(t) && v < n && Holds(s, v, Encode(ValueType(t), a))
    ensures var c := NarrowToStore(ls, v, t, n);
            c.Ok? && Delivers(w, c.value.insts, c.value.val, n, s, Val(a, s.mem, s.tr), MemoryType(t))
  {
    var c := NarrowToStore(ls, v, t, n).value;
    if t.Char? {
      EncodeNested(I16, I32, a);
      EncodeNested(I8, I16, a);
      ExecTwo(w, c.insts[0], c.insts[1], s);
    } else if t.Short? {
      EncodeNested(I16, I32, a);
      ExecOne(w, c.insts[0], s);
    }
  }

  lemma {:induction false} StoreCorrect(w: World, addr: nat, v: nat, t: CType, s: Mach, a: int, x: int)
    requires Holds(s, addr, Encode(I64, a)) && InRange(I64, a) && Holds(s, v, Encode(MemoryType(t), x))
    ensures ExecCode(w, [Store(addr, v)], s) == Next(s.(mem := WriteTyped(s.mem, a, t, x)))
  {
    DecodeEncode(I64, a);
    ExecOne(w, Store(addr, v), s);
  }

  /** A load, widened by the sign of the type, is the source's typed read. */
  lemma {:induction false} LoadCorrect(w: World, ls: Layouts, t: CType, addr: nat, n: nat, s: Mach, a: int)
    requires IsScalar(t) && addr < n && Holds(s, addr, Encode(I64, a)) && InRange(I64, a)
    ensures var c := LoadTail(ls, t, addr, n);
            c.Ok? && Delivers(w, c.value.insts, c.value.val, n, s, Val(ReadTyped(s.mem, a, t), s.mem, s.tr), ValueType(t))
    ensures InRange(ValueType(t), ReadTyped(s.mem, a, t))
  {
    hide LoadLE;
    var c := LoadTail(ls, t, addr, n).value;
    var bits := LoadLE(s.mem, a, Bytes(MemoryType(t)));
    DecodeEncode(I64, a);
    EncodeConvert(t, bits);
    if t.Char? || t.Short? {
      ExecTwo(w, c.insts[0], c.insts[1], s);
    } else {
      ExecOne(w, c.insts[0], s);
    }
  }

  /** Lvalues: the code computes the address the source designates. */
  lemma {:induction false} LvalCorrect(te: TypeEnv, sc: Scope, c: CEnv, w: World, e: Expr, n: nat, s: Mach)
    requires Agree(te, sc, c, w) && TypedLvalue(te, e) && LvalCode(sc, e, n).Ok?
    ensures var k, r := LvalCode(sc, e, n).value, Lval(c, e, s.mem, s.tr);
            Delivers(w, k.insts, k.val, n, s, r, I64) && (r.Val? ==> InRange(I64, r.v))
    decreases e, 1
  {
    var k, r := LvalCode(sc, e, n).value, Lval(c, e, s.mem, s.tr);
    match e
    case Var(_, x) =>
      assert BoundAlike(sc, c, w, x);
      EncodeNested(I64, I64, c.vars[x]);
      ExecOne(w, k.insts[0], s);
    case Deref(_, p) =>
      RvalCorrect(te, sc, c, w, p, n, s);
    case Index(_, arr, ix) =>
      IndexCorrect(te, sc, c, w, e, n, s);
    case Member(_, _, _, _) =>
      MemberCorrect(te, sc, c, w, e, n, s);
  }

  lemma {:induction false} OffsetCorrect(w: World, base: nat, off: nat, n: nat, s: Mach, p: int)
    requires base < n && Holds(s, base, Encode(I64, p))
    ensures Delivers(w, [Iconst(n, I64, off), Arith(n + 1, Iadd, base, n)], n + 1, n, s,
                     Val(AddressPlus(p, off, 1), s.mem, s.tr), I64)
  {
    hide Encode, AddressPlus;
    ExecTwo(w, Iconst(n, I64, off), Arith(n + 1, Iadd, base, n), s);
    EncodeAddress(p, off, 1);
  }

  /** The code and the address of the object that a member or element belongs to. */
  ghost function BaseCode(sc: Scope, b: Expr, byValue: bool, n: nat): Result<Code> {
    if byValue then ExprCode(sc, b, n) else LvalCode(sc, b, n)
  }

  ghost function Base(c: CEnv, b: Expr, byValue: bool, m: Memory, tr: Trace): EvalResult {
    if byValue then Rval(c, b, m, tr) else Lval(c, b, m, tr)
  }

  ghost function MemberOffset(te: TypeEnv, e: Expr): nat
    requires e.Member? && TypedLvalue(te, e)
  {
    FindField(FieldsOf(te.layouts, if e.isArrow then e.base.ty.to else e.base.ty), e.field).value.offset
  }

  lemma {:induction false} MemberShape(te: TypeEnv, sc: Scope, c: CEnv, w: World, e: Expr, n: nat, m: Memory, tr: Trace)
    requires e.Member? && Agree(te, sc, c, w) && TypedLvalue(te, e) && LvalCode(sc, e, n).Ok?
    ensures BaseCode(sc, e.base, e.isArrow, n).Ok?
    ensures var b, off := BaseCode(sc, e.base, e.isArrow, n).value, MemberOffset(te, e);
            LvalCode(sc, e, n).value ==
            Code(b.insts + [Iconst(b.next, I64, off), Arith(b.next + 1, Iadd, b.val, b.next)], b.next + 1, b.next + 2)
    ensures var b := Base(c, e.base, e.isArrow, m, tr);
            Lval(c, e, m, tr) == if b.Val? then Val(AddressPlus(b.v, MemberOffset(te, e), 1), b.mem, b.tr) else b
  {
    hide ExprCode, AddressPlus;
    LongOffsetExactly(MemberOffset(te, e));
  }

  lemma {:induction false} BaseCorrect(te: TypeEnv, sc: Scope, c: CEnv, w: World, e: Expr, byValue: bool, n: nat, s: Mach)
    requires (e.Member? && byValue == e.isArrow) || (e.Index? && !e.base.NullExpr? && byValue == IsPointer(e.base.ty))
    requires Agree(te, sc, c, w) && TypedLvalue(te, e) && BaseCode(sc, e.base, byValue, n).Ok?
    ensures var b, r := BaseCode(sc, e.base, byValue, n).value, Base(c, e.base, byValue, s.mem, s.tr);
            Delivers(w, b.insts, b.val, n, s, r, I64) && n <= b.next && b.val < b.next
    decreases e.base, 4
  {
    hide ExprCode, LvalCode, Rval, Lval, Delivers, Agree;
    if byValue {
      RvalCorrect(te, sc, c, w, e.base, n, s);
    } else {
      LvalCorrect(te, sc, c, w, e.base, n, s);
    }
  }

  lemma {:induction false} MemberCorrect(te: TypeEnv, sc: Scope, c: CEnv, w: World, e: Expr, n: nat, s: Mach)
    requires e.Member? && Agree(te, sc, c, w) && TypedLvalue(te, e) && LvalCode(sc, e, n).Ok?
    ensures var k, r := LvalCode(sc, e, n).value, Lval(c, e, s.mem, s.tr);
            Delivers(w, k.insts, k.val, n, s, r, I64) && (r.Val? ==> InRange(I64, r.v))
    decreases e, 0
  {
    hide ExprCode, LvalCode, Rval, Lval, ExecCode, Delivers, Agree, Encode, TypedLvalue;
    MemberShape(te, sc, c, w, e, n, s.mem, s.tr);
    BaseCorrect(te, sc, c, w, e, e.isArrow, n, s);
    var bc, br, off := BaseCode(sc, e.base, e.isArrow, n).value, Base(c, e.base, e.isArrow, s.mem, s.tr), MemberOffset(te, e);
    var tail := [Iconst(bc.next, I64, off), Arith(bc.next + 1, Iadd, bc.val, bc.next)];
    if br.Val? {
      Delivered(w, bc.insts, bc.val, n, s, br, I64);
      OffsetCorrect(w, bc.val, off, bc.next, ExecCode(w, bc.insts, s).s, br.v);
    }
    Compose(w, bc.insts, bc.val, tail, bc.next + 1, n, bc.next, s, br, I64, Lval(c, e, s.mem, s.tr), I64);
  }

  lemma {:induction false} IndexShape(te: TypeEnv, sc: Scope, c: CEnv, w: World, e: Expr, n: nat, m: Memory, tr: Trace)
    requires e.Index? && Agree(te, sc, c, w) && TypedLvalue(te, e) && LvalCode(sc, e, n).Ok?
    ensures !e.base.NullExpr? && BaseCode(sc, e.base, IsPointer(e.base.ty), n).Ok? && Sized(te, e.ty) && te.layouts == sc.layouts
    ensures var b := BaseCode(sc, e.base, IsPointer(e.base.ty), n).value;
            ExprCode(sc, e.index, b.next).Ok?
            && var i := ExprCode(sc, e.index, b.next).value;
               var a := ScaledAddress(Iadd, b.val, i.val, ByteSize(te.layouts, e.ty).value, false, i.next);
               LvalCode(sc, e, n).value == Code(b.insts + (i.insts + a.insts), a.val, a.next)
    ensures var b := Base(c, e.base, IsPointer(e.base.ty), m, tr);
            Lval(c, e, m, tr) ==
            if !b.Val? then b
            else
              var i := Rval(c, e.index, b.mem, b.tr);
              if i.Val? then Val(AddressPlus(b.v, i.v, ByteSize(te.layouts, e.ty).value), i.mem, i.tr) else i
  {
    hide ExprCode, AddressPlus, ScaledAddress, ByteSize, Rval;
    SizedKept(te, e.ty);
    var b := BaseCode(sc, e.base, IsPointer(e.base.ty), n).value;
    var i := ExprCode(sc, e.index, b.next).value;
    var a := ScaledAddress(Iadd, b.val, i.val, ByteSize(te.layouts, e.ty).value, false, i.next);
    assert LvalCode(sc, e, n).value.insts == b.insts + (i.insts + a.insts);
  }

  lemma {:induction false} AddressInRange(c: CEnv, e: Expr, m: Memory, tr: Trace)
    requires (e.Index? || e.Member?) && Lval(c, e, m, tr).Val?
    ensures InRange(I64, Lval(c, e, m, tr).v)
  {
    hide Rval;
  }

  lemma {:induction false} IndexCorrect(te: TypeEnv, sc: Scope, c: CEnv, w: World, e: Expr, n: nat, s: Mach)
    requires e.Index? && Agree(te, sc, c, w) && TypedLvalue(te, e) && LvalCode(sc, e, n).Ok?
    ensures var k, r := LvalCode(sc, e, n).value, Lval(c, e, s.mem, s.tr);
            Delivers(w, k.insts, k.val, n, s, r, I64) && (r.Val? ==> InRange(I64, r.v))
    decreases e, 0
  {
    hide ExprCode, LvalCode, Rval, Lval, ExecCode, Delivers, Agree, Encode, AddressPlus, ByteSize;
    IndexShape(te, sc, c, w, e, n, s.mem, s.tr);
    var byValue := IsPointer(e.base.ty);
    BaseCorrect(te, sc, c, w, e, byValue, n, s);
    var bc, br, r := BaseCode(sc, e.base, byValue, n).value, Base(c, e.base, byValue, s.mem, s.tr), Lval(c, e, s.mem, s.tr);
    var ic := ExprCode(sc, e.index, bc.next).value;
    var stride := ByteSize(te.layouts, e.ty).value;
    var a := ScaledAddress(Iadd, bc.val, ic.val, stride, false, ic.next);
    if br.Val? {
      Delivered(w, bc.insts, bc.val, n, s, br, I64);
      var s1, ir := ExecCode(w, bc.insts, s).s, Rval(c, e.index, br.mem, br.tr);
      RvalCorrect(te, sc, c, w, e.index, bc.next, s1);
      if ir.Val? {
        Delivered(w, ic.insts, ic.val, bc.next, s1, ir, I32);
        ScaledAddressCorrect(w, Iadd, bc.val, ic.val, stride, false, ic.next, ExecCode(w, ic.insts, s1).s, br.v, ir.v);
      }
      Compose(w, ic.insts, ic.val, a.insts, a.val, bc.next, ic.next, s1, ir, I32, r, I64);
    }
    Compose(w, bc.insts, bc.val, ic.insts + a.insts, a.val, n, bc.next, s, br, I64, r, I64);
    if r.Val? { AddressInRange(c, e, s.mem, s.tr); }
  }

  /** Rvalues: the code computes the source value and performs the source effects. */
  lemma {:induction false} RvalCorrect(te: TypeEnv, sc: Scope, c: CEnv, w: World, e: Expr, n: nat, s: Mach)
    requires Agree(te, sc, c, w) && Typed(te, e) && ExprCode(sc, e, n).Ok?
    ensures var k, r := ExprCode(sc, e, n).value, Rval(c, e, s.mem, s.tr);
            Delivers(w, k.insts, k.val, n, s, r, ResultType(e)) && (r.Val? ==> InRange(ValueType(e.ty), r.v))
    decreases e, 3
  {
    var k, r := ExprCode(sc, e, n).value, Rval(c, e, s.mem, s.tr);
    match e
    case IntLit(_, _) =>
      ExecOne(w, k.insts[0], s);
    case StringLit(_, x) =>
      EncodeNested(I64, I64, c.syms[x]);
      ExecOne(w, k.insts[0], s);
    case AddrOf(_, x) =>
      LvalCorrect(te, sc, c, w, x, n, s);
    case Binop(_, op, lhs, rhs) =>
      if op.OpAssign? {
        AssignCorrect(te, sc, c, w, e, n, s);
      } else {
        BinopCorrect(te, sc, c, w, e, n, s);
      }
    case Unop(_, _, _) =>
      UnopCorrect(te, sc, c, w, e, n, s);
    case Call(_, _, _) =>
      CallCorrect(te, sc, c, w, e, n, s);
    case NullExpr => assert false;
    case _ =>
      LoadedCorrect(te, sc, c, w, e, n, s);
  }

  lemma {:induction false} UnopShape(sc: Scope, c: CEnv, e: Expr, n: nat, m: Memory, tr: Trace)
    requires e.Unop? && ExprCode(sc, e, n).Ok?
    ensures ExprCode(sc, e.operand, n).Ok?
    ensures var x := ExprCode(sc, e.operand, n).value;
            var t := UnopTail(e.uop, x.val, x.next);
            ExprCode(sc, e, n).value == Code(x.insts + t.insts, t.val, t.next)
    ensures var x := Rval(c, e.operand, m, tr);
            Rval(c, e, m, tr) == if x.Val? then Val(if e.uop.UnopNeg? then Wrap32(-x.v) else Truth(x.v == 0), x.mem, x.tr) else x
  {
    hide UnopTail, Wrap32;
  }

  lemma {:induction false} UnopCorrect(te: TypeEnv, sc: Scope, c: CEnv, w: World, e: Expr, n: nat, s: Mach)
    requires e.Unop? && Agree(te, sc, c, w) && Typed(te, e) && ExprCode(sc, e, n).Ok?
    ensures var k, r := ExprCode(sc, e, n).value, Rval(c, e, s.mem, s.tr);
            Delivers(w, k.insts, k.val, n, s, r, ResultType(e)) && (r.Val? ==> InRange(ValueType(e.ty), r.v))
    decreases e, 0
  {
    hide Encode, UnopTail, ExprCode, Rval, Delivers, Agree, ExecCode, Wrap32;
    UnopShape(sc, c, e, n, s.mem, s.tr);
    var x, r := e.operand, Rval(c, e, s.mem, s.tr);
    RvalCorrect(te, sc, c, w, x, n, s);
    var xc, xr := ExprCode(sc, x, n).value, Rval(c, x, s.mem, s.tr);
    var t := UnopTail(e.uop, xc.val, xc.next);
    if xr.Val? {
      Delivered(w, xc.insts, xc.val, n, s, xr, I32);
      UnopTailCorrect(w, e.uop, xc.val, xc.next, ExecCode(w, xc.insts, s).s, xr.v);
    }
    Compose(w, xc.insts, xc.val, t.insts, t.val, n, xc.next, s, xr, I32, r, I32);
  }

  lemma {:induction false} LoadedCorrect(te: TypeEnv, sc: Scope, c: CEnv, w: World, e: Expr, n: nat, s: Mach)
    requires IsLvalueKind(e) && Agree(te, sc, c, w) && Typed(te, e) && ExprCode(sc, e, n).Ok?
    ensures var k, r := ExprCode(sc, e, n).value, Rval(c, e, s.mem, s.tr);
            Delivers(w, k.insts, k.val, n, s, r, ResultType(e)) && (r.Val? ==> InRange(ValueType(e.ty), r.v))
    decreases e, 2
  {
    var r := Rval(c, e, s.mem, s.tr);
    LvalCorrect(te, sc, c, w, e, n, s);
    if !IsArray(e.ty) && !IsStruct(e.ty) {
      var ac, ar := LvalCode(sc, e, n).value, Lval(c, e, s.mem, s.tr);
      var t := LoadTail(sc.layouts, e.ty, ac.val, ac.next).value;
      if ar.Val? {
        LoadCorrect(w, sc.layouts, e.ty, ac.val, ac.next, ExecCode(w, ac.insts, s).s, ar.v);
      }
      Compose(w, ac.insts, ac.val, t.insts, t.val, n, ac.next, s, ar, I64, r, ValueType(e.ty));
    }
  }

  lemma {:induction false} AssignShape(te: TypeEnv, sc: Scope, c: CEnv, w: World, e: Expr, n: nat, m: Memory, tr: Trace)
    requires e.Binop? && e.op.OpAssign? && Agree(te, sc, c, w) && Typed(te, e) && ExprCode(sc, e, n).Ok?
    ensures !e.lhs.NullExpr? && !e.rhs.NullExpr? && LvalCode(sc, e.lhs, n).Ok?
    ensures var a := LvalCode(sc, e.lhs, n).value;
            ExprCode(sc, e.rhs, a.next).Ok?
            && var v := ExprCode(sc, e.rhs, a.next).value;
               NarrowToStore(sc.layouts, v.val, e.lhs.ty, v.next).Ok?
               && var s := NarrowToStore(sc.layouts, v.val, e.lhs.ty, v.next).value;
                  ExprCode(sc, e, n).value == Code(a.insts + (v.insts + (s.insts + [Store(a.val, s.val)])), s.val, s.next)
    ensures var a := Lval(c, e.lhs, m, tr);
            Rval(c, e, m, tr) ==
            if !a.Val? then a
            else
              var v := Rval(c, e.rhs, a.mem, a.tr);
              if v.Val? then Val(Convert(e.lhs.ty, v.v), WriteTyped(v.mem, a.v, e.lhs.ty, v.v), v.tr) else v
  {
    hide LvalCode, Lval, NarrowToStore, Convert, WriteTyped;
    var a := LvalCode(sc, e.lhs, n).value;
    var v := ExprCode(sc, e.rhs, a.next).value;
    var s := NarrowToStore(sc.layouts, v.val, e.lhs.ty, v.next).value;
    assert a.insts + v.insts + s.insts + [Store(a.val, s.val)] == a.insts + (v.insts + (s.insts + [Store(a.val, s.val)]));
  }

  /** Narrowing and storing a value delivers the stored word. */
  lemma {:induction false} StoredConverted(w: World, ls: Layouts, v: nat, addr: nat, t: CType, n: nat, s: Mach, a: int, x: int)
    requires IsScalar(t) && v < n && addr < n && InRange(I64, a)
    requires Holds(s, v, Encode(ValueType(t), x)) && Holds(s, addr, Encode(I64, a)) && NarrowToStore(ls, v, t, n).Ok?
    ensures var k := NarrowToStore(ls, v, t, n).value;
            Delivers(w, k.insts + [Store(addr, k.val)], k.val, n, s, Val(Convert(t, x), WriteTyped(s.mem, a, t, x), s.tr), MemoryType(t))
    ensures InRange(ValueType(t), Convert(t, x))
  {
    hide NarrowToStore, Convert, WriteTyped, Encode;
    NarrowCorrect(w, ls, v, t, n, s, x);
    var k := NarrowToStore(ls, v, t, n).value;
    var s1 := ExecCode(w, k.insts, s).s;
    StoreCorrect(w, addr, k.val, t, s1, a, x);
    EncodeConvert(t, x);
    ExecAppend(w, k.insts, [Store(addr, k.val)], s);
  }

  lemma {:induction false} AssignCorrect(te: TypeEnv, sc: Scope, c: CEnv, w: World, e: Expr, n: nat, s: Mach)
    requires e.Binop? && e.op.OpAssign? && Agree(te, sc, c, w) && Typed(te, e) && ExprCode(sc, e, n).Ok?
    ensures var k, r := ExprCode(sc, e, n).value, Rval(c, e, s.mem, s.tr);
            Delivers(w, k.insts, k.val, n, s, r, ResultType(e)) && (r.Val? ==> InRange(ValueType(e.ty), r.v))
    decreases e, 0
  {
    hide ExprCode, LvalCode, Rval, Lval, NarrowToStore, Delivers, Agree, ExecCode, Encode, Convert, WriteTyped;
    AssignShape(te, sc, c, w, e, n, s.mem, s.tr);
    var l, t, r := e.lhs, e.lhs.ty, Rval(c, e, s.mem, s.tr);
    var ac, ar := LvalCode(sc, l, n).value, Lval(c, l, s.mem, s.tr);
    LvalCorrect(te, sc, c, w, l, n, s);
    var vc := ExprCode(sc, e.rhs, ac.next).value;
    var nc := NarrowToStore(sc.layouts, vc.val, t, vc.next).value;
    var store := [Store(ac.val, nc.val)];
    if ar.Val? {
      Delivered(w, ac.insts, ac.val, n, s, ar, I64);
      var s1, vr := ExecCode(w, ac.insts, s).s, Rval(c, e.rhs, ar.mem, ar.tr);
      RvalCorrect(te, sc, c, w, e.rhs, ac.next, s1);
      if vr.Val? {
        Delivered(w, vc.insts, vc.val, ac.next, s1, vr, ValueType(t));
        StoredConverted(w, sc.layouts, vc.val, ac.val, t, vc.next, ExecCode(w, vc.insts, s1).s, ar.v, vr.v);
      }
      Compose(w, vc.insts, vc.val, nc.insts + store, nc.val, ac.next, vc.next, s1, vr, ValueType(t), r, MemoryType(t));
    }
    Compose(w, ac.insts, ac.val, vc.insts + (nc.insts + store), nc.val, n, ac.next, s, ar, I64, r, MemoryType(t));
  }

  lemma {:induction false} BinopCorrect(te: TypeEnv, sc: Scope, c: CEnv, w: World, e: Expr, n: nat, s: Mach)
    requires e.Binop? && !e.op.OpAssign? && Agree(te, sc, c, w) && Typed(te, e) && ExprCode(sc, e, n).Ok?
    ensures var k, r := ExprCode(sc, e, n).value, Rval(c, e, s.mem, s.tr);
            Delivers(w, k.insts, k.val, n, s, r, ResultType(e)) && (r.Val? ==> InRange(ValueType(e.ty), r.v))
    decreases e, 0
  {
    hide BinopTail, Operate, OperatorTyped;
    var k, r := ExprCode(sc, e, n).value, Rval(c, e, s.mem, s.tr);
    var lt, rt, t := e.lhs.ty, e.rhs.ty, e.ty;
    var ac, ar := ExprCode(sc, e.lhs, n).value, Rval(c, e.lhs, s.mem, s.tr);
    RvalCorrect(te, sc, c, w, e.lhs, n, s);
    var bc := ExprCode(sc, e.rhs, ac.next).value;
    var tc := BinopTail(sc.layouts, e.op, lt, rt, ac.val, bc.val, bc.next).value;
    assert k.insts == ac.insts + (bc.insts + tc.insts);
    if ar.Val? {
      var s1 := ExecCode(w, ac.insts, s).s;
      var br := Rval(c, e.rhs, ar.mem, ar.tr);
      RvalCorrect(te, sc, c, w, e.rhs, ac.next, s1);
      if br.Val? {
        BinopTailCorrect(te, w, e.op, lt, rt, t, ac.val, bc.val, bc.next, ExecCode(w, bc.insts, s1).s, ar.v, br.v);
      }
      Compose(w, bc.insts, bc.val, tc.insts, tc.val, ac.next, bc.next, s1, br, ValueType(rt), r, ValueType(t));
    }
    Compose(w, ac.insts, ac.val, bc.insts + tc.insts, k.val, n, ac.next, s, ar, ValueType(lt), r, ValueType(t));
  }

  lemma {:induction false} CallCorrect(te: TypeEnv, sc: Scope, c: CEnv, w: World, e: Expr, n: nat, s: Mach)
    requires e.Call? && Agree(te, sc, c, w) && Typed(te, e) && ExprCode(sc, e, n).Ok?
    ensures var k, r := ExprCode(sc, e, n).value, Rval(c, e, s.mem, s.tr);
            Delivers(w, k.insts, k.val, n, s, r, ResultType(e)) && (r.Val? ==> InRange(ValueType(e.ty), r.v))
    decreases e, 0
  {
    var k := ExprCode(sc, e, n).value;
    var a := ArgsCode(sc, e.args, n).value;
    ArgsCorrect(te, sc, c, w, e.args, n, s);
    var call := CallInst(a.next, e.callee, a.sig, a.vals);
    ExecAppend(w, a.insts, [call], s);
    if Rvals(c, e.args, s.mem, s.tr).Vals? {
      ExecOne(w, call, ExecCode(w, a.insts, s).s);
    }
  }

  /** Running the code of some arguments leaves their values in registers of the types the
      signature announces. */
  ghost predicate ArgsDelivered(w: World, k: CallArgs, n: nat, s: Mach, r: EvalResults) {
    match r
    case Vals(vs, m, tr) =>
      var o := ExecCode(w, k.insts, s);
      && o.Next? && o.s.mem == m && o.s.tr == tr && Keeps(n, s, o.s)
      && ArgsMatch(o.s.regs, k.sig, k.vals) && ArgValues(o.s.regs, k.vals) == vs
    case Traps(tr) => ExecCode(w, k.insts, s) == Fault(tr)
    case Wrongs => false
  }

  lemma {:induction false} ArgsStep(regs: map<nat, Word>, sig: seq<Ty>, vals: seq<nat>, t: Ty, val: nat, v: int)
    requires ArgsMatch(regs, sig, vals) && val in regs && regs[val] == Encode(t, v) && InRange(t, v)
    ensures ArgsMatch(regs, [t] + sig, [val] + vals)
    ensures ArgValues(regs, [val] + vals) == [v] + ArgValues(regs, vals)
  {
    DecodeEncode(t, v);
  }

  /** Call arguments: evaluated left to right. */
  lemma {:induction false} ArgsCorrect(te: TypeEnv, sc: Scope, c: CEnv, w: World, args: seq<Expr>, n: nat, s: Mach)
    requires Agree(te, sc, c, w) && ArgsCode(sc, args, n).Ok?
    requires forall i :: 0 <= i < |args| ==> TypedValue(te, args[i]) && !IsStruct(args[i].ty)
    ensures ArgsDelivered(w, ArgsCode(sc, args, n).value, n, s, Rvals(c, args, s.mem, s.tr))
    decreases args, 0
  {
    if args != [] {
      var e := args[0];
      var ac := ExprCode(sc, e, n).value;
      var t := AbiTypeForArg(sc.layouts, e.ty).value;
      assert t == ResultType(e) == ValueType(e.ty);
      var rest := ArgsCode(sc, args[1..], ac.next).value;
      RvalCorrect(te, sc, c, w, e, n, s);
      ExecAppend(w, ac.insts, rest.insts, s);
      var ar := Rval(c, e, s.mem, s.tr);
      if ar.Val? {
        var s1 := ExecCode(w, ac.insts, s).s;
        ArgsCorrect(te, sc, c, w, args[1..], ac.next, s1);
        var rr := Rvals(c, args[1..], ar.mem, ar.tr);
        if rr.Vals? {
          var s2 := ExecCode(w, rest.insts, s1).s;
          ArgsStep(s2.regs, rest.sig, rest.vals, t, ac.val, ar.v);
        }
      }
    }
  }
}
