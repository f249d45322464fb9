/** Subscripts and pointer arithmetic: the different ways to write an element access are one
    address, and moving a pointer back undoes moving it forth. */
module PointerLaws {
  import opened Results
  import opened Words
  import opened CTypes
  import opened ByteMemory
  import opened Ast
  import opened Clif
  import opened CSemantics
  import opened Lowering
  import opened WellTyped
  import opened ExprCorrect

  /** `p[i]`, `*(p + i)`, `p + i` and `&p[i]` are the same instructions, whatever `p` and `i` do. */
  lemma {:induction false} SubscriptIsSum(sc: Scope, p: Expr, i: Expr, n: nat)
    requires !p.NullExpr? && !i.NullExpr? && p.ty.Pointer? && !i.ty.Pointer? && TypeSize(sc.layouts, p.ty.to).Ok?
    ensures var elem, sum := Index(p.ty.to, p, i), Binop(p.ty, OpAdd, p, i);
            && LvalCode(sc, elem, n) == ExprCode(sc, sum, n)
            && LvalCode(sc, Deref(p.ty.to, sum), n) == ExprCode(sc, sum, n)
            && ExprCode(sc, AddrOf(p.ty, elem), n) == ExprCode(sc, sum, n)
            && ExprCode(sc, Deref(p.ty.to, sum), n) == ExprCode(sc, elem, n)
  {
    hide LoadTail;
    var elem, sum := Index(p.ty.to, p, i), Binop(p.ty, OpAdd, p, i);
    assert LvalCode(sc, Deref(p.ty.to, sum), n) == ExprCode(sc, sum, n);
    assert LvalCode(sc, elem, n) == ExprCode(sc, sum, n);
  }

  /** With operands that have no effects, `*(i + p)` is the element `p[i]` too: the source gives
      both the same address, and the code of both computes it. */
  lemma {:induction false} SubscriptCommutes(te: TypeEnv, sc: Scope, c: CEnv, w: World, p: Expr, i: Expr, n: nat, s: Mach)
    requires !p.NullExpr? && !i.NullExpr? && p.ty.Pointer? && ValueType(i.ty) == I32
    requires var e := Deref(p.ty.to, Binop(p.ty, OpAdd, i, p));
             && Agree(te, sc, c, w) && TypedLvalue(te, Index(p.ty.to, p, i)) && TypedLvalue(te, e)
             && LvalCode(sc, Index(p.ty.to, p, i), n).Ok? && LvalCode(sc, e, n).Ok?
    requires Rval(c, p, s.mem, s.tr).Val? && Rval(c, p, s.mem, s.tr) == Val(Rval(c, p, s.mem, s.tr).v, s.mem, s.tr)
    requires Rval(c, i, s.mem, s.tr).Val? && Rval(c, i, s.mem, s.tr) == Val(Rval(c, i, s.mem, s.tr).v, s.mem, s.tr)
    ensures var elem, e := Index(p.ty.to, p, i), Deref(p.ty.to, Binop(p.ty, OpAdd, i, p));
            var a := Lval(c, elem, s.mem, s.tr);
            && a == Lval(c, e, s.mem, s.tr) == Val(AddressPlus(Rval(c, p, s.mem, s.tr).v, Rval(c, i, s.mem, s.tr).v, ByteSize(te.layouts, p.ty.to).value), s.mem, s.tr)
            && Delivers(w, LvalCode(sc, elem, n).value.insts, LvalCode(sc, elem, n).value.val, n, s, a, I64)
            && Delivers(w, LvalCode(sc, e, n).value.insts, LvalCode(sc, e, n).value.val, n, s, a, I64)
  {
    hide LvalCode, ExprCode, Delivers, Agree;
    AgreeLayouts(te, sc, c, w);
    LvalCorrect(te, sc, c, w, Index(p.ty.to, p, i), n, s);
    LvalCorrect(te, sc, c, w, Deref(p.ty.to, Binop(p.ty, OpAdd, i, p)), n, s);
  }

  lemma {:induction false} AgreeLayouts(te: TypeEnv, sc: Scope, c: CEnv, w: World)
    requires Agree(te, sc, c, w)
    ensures te.layouts == sc.layouts == c.layouts
  {
  }

  /** Going forth and back by the same number of elements, at any stride: the address is the old
      one, also when it wraps around on the way. */
  lemma {:induction false} AddressForthAndBack(p: int, i: int, size: nat)
    ensures AddressPlus(AddressPlus(p, i, size), -i, size) == Wrap64(p)
    ensures AddressPlus(AddressPlus(p, -i, size), i, size) == Wrap64(p)
  {
    Negated(i, size);
    Undone(p, i * size);
    Undone(p, -(i * size));
  }

  lemma {:induction false} Negated(i: int, size: nat)
    ensures (-i) * size == -(i * size)
  {
  }

  lemma {:induction false} Undone(p: int, d: int)
    ensures Wrap64(Wrap64(p + d) - d) == Wrap64(p)
  {
    var m := Modulus(I64);
    ModAdd(p + d, d, m);
    ModAdd(Wrap64(p + d), d, m);
    ModUnique(Wrap64(p + d), 0, Wrap64(p + d), m);
  }

  /** So `(p + i) - i` is in the fragment, and is `p`, for operands without effects. */
  lemma {:induction false} ForthAndBack(te: TypeEnv, c: CEnv, p: Expr, i: Expr, m: Memory, tr: Trace, pv: int, iv: int)
    requires !p.NullExpr? && !i.NullExpr? && TypedValue(te, p) && TypedValue(te, i) && p.ty.Pointer? && ValueType(i.ty) == I32
    requires Sized(te, p.ty.to) && te.layouts == c.layouts && InRange(I64, pv)
    requires Rval(c, p, m, tr) == Val(pv, m, tr) && Rval(c, i, m, tr) == Val(iv, m, tr)
    ensures var e := Binop(p.ty, OpSub, Binop(p.ty, OpAdd, p, i), i);
            TypedValue(te, e) && Rval(c, e, m, tr) == Val(pv, m, tr)
  {
    hide AddressPlus;
    var forth, size := Binop(p.ty, OpAdd, p, i), ByteSize(te.layouts, p.ty.to).value;
    assert TypedValue(te, forth);
    assert Rval(c, forth, m, tr) == Val(AddressPlus(pv, iv, size), m, tr);
    AddressForthAndBack(pv, iv, size);
    ModUnique(pv, 0, pv, Modulus(I64));
  }

  /** The same for the emitted code: `p + i` followed by `- i` puts back the word of `p`. */
  lemma {:induction false} CodeForthAndBack(w: World, ls: Layouts, lt: CType, it: CType, l: nat, r: nat, n: nat, s: Mach, p: int, i: int)
    requires lt.Pointer? && ValueType(it) == I32 && TypeSize(ls, lt.to).Ok? && l < n && r < n
    requires Holds(s, l, Encode(I64, p)) && Holds(s, r, Encode(I32, i)) && InRange(I64, p) && InRange(I32, i)
    ensures BinopTail(ls, OpAdd, lt, it, l, r, n).Ok?
    ensures var forth := BinopTail(ls, OpAdd, lt, it, l, r, n).value;
            var back := BinopTail(ls, OpSub, lt, it, forth.val, r, forth.next);
            back.Ok? && Delivers(w, forth.insts + back.value.insts, back.value.val, n, s, Val(p, s.mem, s.tr), I64)
  {
    hide ScaledAddress, AddressPlus;
    var stride := TypeSize(ls, lt.to).value;
    var forth := ScaledAddress(Iadd, l, r, stride, false, n);
    ScaledNext(Iadd, l, r, stride, n);
    ScaledAddressCorrect(w, Iadd, l, r, stride, false, n, s, p, i);
    var s1 := ExecCode(w, forth.insts, s).s;
    var q := AddressPlus(p, i, stride);
    ScaledAddressCorrect(w, Isub, forth.val, r, stride, false, forth.next, s1, q, i);
    var back := ScaledAddress(Isub, forth.val, r, stride, false, forth.next);
    ExecAppend(w, forth.insts, back.insts, s);
    AddressForthAndBack(p, i, stride);
    ModUnique(p, 0, p, Modulus(I64));
  }

  lemma {:induction false} ScaledNext(op: ArithOp, base: nat, v: nat, stride: nat, n: nat)
    ensures var c := ScaledAddress(op, base, v, stride, false, n); n <= c.val < c.next
  {
  }

  /** A pointer to a record moves by whole records, as the layout gives their size. */
  lemma {:induction false} RecordStride(w: World, ls: Layouts, tag: string, it: CType, l: nat, r: nat, n: nat, s: Mach, p: int, i: int)
    requires tag in ls && ls[tag].size < LONG_LIMIT && ValueType(it) == I32 && l < n && r < n
    requires Holds(s, l, Encode(I64, p)) && Holds(s, r, Encode(I32, i)) && InRange(I32, i)
    ensures BinopTail(ls, OpAdd, Pointer(Record(tag)), it, l, r, n).Ok? && BinopTail(ls, OpSub, Pointer(Record(tag)), it, l, r, n).Ok?
    ensures var c := BinopTail(ls, OpAdd, Pointer(Record(tag)), it, l, r, n).value;
            Delivers(w, c.insts, c.val, n, s, Val(Wrap64(p + i * ls[tag].size), s.mem, s.tr), I64)
    ensures var c := BinopTail(ls, OpSub, Pointer(Record(tag)), it, l, r, n).value;
            Delivers(w, c.insts, c.val, n, s, Val(Wrap64(p - i * ls[tag].size), s.mem, s.tr), I64)
  {
    hide ScaledAddress, Delivers, Wrap64;
    var size := ls[tag].size;
    TypeSizeExactly(ls, Record(tag));
    Negated(i, size);
    ScaledAddressCorrect(w, Iadd, l, r, size, false, n, s, p, i);
    ScaledAddressCorrect(w, Isub, l, r, size, false, n, s, p, i);
  }

  /** `p[i]` and `&p[i]` for a pointer to records: the emitted code leaves the address `i` whole
      records after the value of `p`. */
  lemma {:induction false} RecordElement(te: TypeEnv, sc: Scope, c: CEnv, w: World, tag: string, p: Expr, i: Expr, n: nat, s: Mach)
    requires !p.NullExpr? && !i.NullExpr? && p.ty == Pointer(Record(tag)) && tag in te.layouts
    requires Agree(te, sc, c, w) && TypedLvalue(te, Index(Record(tag), p, i)) && LvalCode(sc, Index(Record(tag), p, i), n).Ok?
    requires Rval(c, p, s.mem, s.tr).Val?
    requires Rval(c, i, Rval(c, p, s.mem, s.tr).mem, Rval(c, p, s.mem, s.tr).tr).Val?
    ensures var e, pv := Index(Record(tag), p, i), Rval(c, p, s.mem, s.tr);
            var iv, code := Rval(c, i, pv.mem, pv.tr), LvalCode(sc, e, n).value;
            && ExprCode(sc, AddrOf(p.ty, e), n) == Ok(code)
            && Delivers(w, code.insts, code.val, n, s, Val(Wrap64(pv.v + iv.v * te.layouts[tag].size), iv.mem, iv.tr), I64)
  {
    hide ExprCode, LvalCode, Rval, Delivers, Agree, Wrap64, Typed, TypedValue;
    var e := Index(Record(tag), p, i);
    AgreeLayouts(te, sc, c, w);
    AddressCode(sc, e, p.ty, n);
    LvalCorrect(te, sc, c, w, e, n, s);
  }

  lemma {:induction false} AddressCode(sc: Scope, e: Expr, t: CType, n: nat)
    ensures ExprCode(sc, AddrOf(t, e), n) == LvalCode(sc, e, n)
  {
  }
}
