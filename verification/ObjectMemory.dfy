/** Typed objects in byte memory: a store writes exactly its own bytes, a load gives back the
    converted value, and objects whose bytes are apart do not disturb each other. */
module ObjectMemory {
  import opened Words
  import opened CTypes
  import opened ByteMemory
  import opened Clif
  import opened CSemantics
  import opened Lowering
  import opened ExprCorrect

  const SPACE: int := 0x1_0000_0000_0000_0000

  function ByteAt(m: Memory, x: int): Byte {
    if x in m then m[x] else 0
  }

  /** The byte `i` places after address `a`. */
  function ByteFrom(m: Memory, a: int, i: int): Byte {
    ByteAt(m, Wrap64(a + i))
  }

  /** Address `x` belongs to one of the `n` bytes from `a` on; addresses wrap around. */
  predicate Covers(a: int, n: nat, x: int) {
    0 <= x < SPACE && Wrap64(x - a) < n
  }

  function ByteOf(bits: nat, i: nat): Byte {
    if i == 0 then bits % 256 else ByteOf(bits / 256, i - 1)
  }

  function Pow256(n: nat): (r: nat)
    ensures r > 0
  {
    if n == 0 then 1 else 256 * Pow256(n - 1)
  }

  lemma {:induction false} ModulusIsPow(t: Ty)
    ensures Modulus(t) == Pow256(Bytes(t))
  {
    assert Pow256(1) == 256 && Pow256(2) == 0x1_0000;
    assert Pow256(4) == 256 * (256 * Pow256(2));
    assert Pow256(8) == 256 * (256 * (256 * (256 * Pow256(4))));
  }

  lemma {:induction false} Successor(a: int, x: int)
    requires 0 <= x < SPACE
    ensures Wrap64(x - a) == 0 <==> x == Wrap64(a)
    ensures Wrap64(x - (a + 1)) == if x == Wrap64(a) then SPACE - 1 else Wrap64(x - a) - 1
  {
    var d := Wrap64(x - a);
    ModAdd(x, a, SPACE);
    ModUnique(x, 0, x, SPACE);
    ModAdd(x - a, 1, SPACE);
    ModUnique(1, 0, 1, SPACE);
    if d > 0 {
      ModUnique(d - 1, 0, d - 1, SPACE);
    } else {
      ModUnique(-1, -1, SPACE - 1, SPACE);
      ModAdd(x - a, a, SPACE);
      ModUnique(Wrap64(a), 0, Wrap64(a), SPACE);
    }
    if x == Wrap64(a) {
      ModUnique(0, 0, 0, SPACE);
      ModUnique(x - Wrap64(a), 0, 0, SPACE);
    }
  }

  /** Exactly the covered bytes change, and each gets its part of the stored word. */
  lemma {:induction false} StoreIsExact(m: Memory, a: int, n: nat, bits: nat, x: int)
    requires n <= SPACE && 0 <= x < SPACE
    ensures var m' := StoreLE(m, a, n, bits);
            ByteAt(m', x) == if Covers(a, n, x) then ByteOf(bits, Wrap64(x - a)) else ByteAt(m, x)
    decreases n
  {
    if n > 0 {
      Successor(a, x);
      StoreIsExact(m[Wrap64(a) := bits % 256], a + 1, n - 1, bits / 256, x);
    }
  }

  /** A load depends on the covered bytes only. */
  lemma {:induction false} LoadDepends(m: Memory, m': Memory, a: int, n: nat)
    requires forall i :: 0 <= i < n ==> ByteFrom(m', a, i) == ByteFrom(m, a, i)
    ensures LoadLE(m', a, n) == LoadLE(m, a, n)
    decreases n
  {
    if n > 0 {
      var next := a + 1;
      assert ByteFrom(m', a, 0) == ByteFrom(m, a, 0);
      forall i | 0 <= i < n - 1
        ensures ByteFrom(m', next, i) == ByteFrom(m, next, i)
      {
        assert ByteFrom(m', a, i + 1) == ByteFrom(m, a, i + 1);
        assert a + 1 + i == a + (i + 1);
      }
      LoadDepends(m, m', next, n - 1);
    }
  }

  lemma {:induction false} LoadAssembles(m: Memory, a: int, n: nat, bits: nat)
    requires forall i :: 0 <= i < n ==> ByteFrom(m, a, i) == ByteOf(bits, i)
    ensures LoadLE(m, a, n) == bits % Pow256(n)
    decreases n
  {
    if n > 0 {
      assert ByteFrom(m, a, 0) == ByteOf(bits, 0);
      forall i | 0 <= i < n - 1
        ensures ByteFrom(m, a + 1, i) == ByteOf(bits / 256, i)
      {
        assert ByteFrom(m, a, i + 1) == ByteOf(bits, i + 1);
        assert a + 1 + i == a + (i + 1);
      }
      LoadAssembles(m, a + 1, n - 1, bits / 256);
      DigitSplit(bits, Pow256(n - 1));
    }
  }

  lemma {:induction false} DigitSplit(bits: nat, p: nat)
    requires p > 0
    ensures bits % (256 * p) == bits % 256 + 256 * ((bits / 256) % p)
  {
    var h := bits / 256;
    assert h == p * (h / p) + h % p;
    assert bits == (h / p) * (256 * p) + (bits % 256 + 256 * (h % p));
    ModUnique(bits, h / p, bits % 256 + 256 * (h % p), 256 * p);
  }

  lemma {:induction false} OffsetOf(a: int, i: nat)
    requires i < SPACE
    ensures Wrap64(Wrap64(a + i) - a) == i
  {
    ModAdd(a + i, a, SPACE);
    ModUnique(i, 0, i, SPACE);
    ModAdd(Wrap64(a + i), a, SPACE);
    ModUnique(Wrap64(a + i), 0, Wrap64(a + i), SPACE);
  }

  /** A store of `n` bytes read back through its first `k` bytes. */
  lemma {:induction false} LoadStored(m: Memory, a: int, n: nat, bits: nat, k: nat)
    requires k <= n < SPACE
    ensures LoadLE(StoreLE(m, a, n, bits), a, k) == bits % Pow256(k)
  {
    var m' := StoreLE(m, a, n, bits);
    forall i | 0 <= i < k
      ensures ByteFrom(m', a, i) == ByteOf(bits, i)
    {
      StoreIsExact(m, a, n, bits, Wrap64(a + i));
      OffsetOf(a, i);
    }
    LoadAssembles(m', a, k, bits);
  }

  /** The address ranges have no byte in common and do not wrap. */
  predicate Apart(a: int, n: nat, b: int, k: nat) {
    0 <= a <= SPACE - n && 0 <= b <= SPACE - k && (a + n <= b || b + k <= a)
  }

  lemma {:induction false} LoadApart(m: Memory, a: int, n: nat, bits: nat, b: int, k: nat)
    requires Apart(a, n, b, k)
    ensures LoadLE(StoreLE(m, a, n, bits), b, k) == LoadLE(m, b, k)
  {
    var m' := StoreLE(m, a, n, bits);
    forall i | 0 <= i < k
      ensures ByteFrom(m', b, i) == ByteFrom(m, b, i)
    {
      var x := b + i;
      ModUnique(x, 0, x, SPACE);
      StoreIsExact(m, a, n, bits, x);
      if a <= x {
        ModUnique(x - a, 0, x - a, SPACE);
      } else {
        ModUnique(x - a, -1, x - a + SPACE, SPACE);
      }
    }
    LoadDepends(m, m', b, k);
  }

  // ----- typed objects -----

  /** Reading back an object gives the stored value converted to its type. */
  lemma {:induction false} ReadBack(m: Memory, a: int, t: CType, v: int)
    requires IsScalar(t)
    ensures ReadTyped(WriteTyped(m, a, t, v), a, t) == Convert(t, v)
  {
    var y := MemoryType(t);
    ModulusIsPow(y);
    LoadStored(m, a, Bytes(y), v % Modulus(y), Bytes(y));
    EncodeNested(y, y, v);
    EncodeNested(y, y, v % Modulus(y));
  }

  /** Objects apart from the written one read as before. */
  lemma {:induction false} ReadElsewhere(m: Memory, a: int, t: CType, v: int, b: int, u: CType)
    requires Apart(a, Bytes(MemoryType(t)), b, Bytes(MemoryType(u)))
    ensures ReadTyped(WriteTyped(m, a, t, v), b, u) == ReadTyped(m, b, u)
  {
    LoadApart(m, a, Bytes(MemoryType(t)), v % Modulus(MemoryType(t)), b, Bytes(MemoryType(u)));
  }

  /** No other byte of memory changes. */
  lemma {:induction false} WriteIsExact(m: Memory, a: int, t: CType, v: int, x: int)
    requires 0 <= x < SPACE
    ensures !Covers(a, Bytes(MemoryType(t)), x) ==> ByteAt(WriteTyped(m, a, t, v), x) == ByteAt(m, x)
    ensures Covers(a, Bytes(MemoryType(t)), x) ==>
              ByteAt(WriteTyped(m, a, t, v), x) == ByteOf(v % Modulus(MemoryType(t)), Wrap64(x - a))
  {
    StoreIsExact(m, a, Bytes(MemoryType(t)), v % Modulus(MemoryType(t)), x);
  }

  /** A narrow parameter is stored as a whole register and loaded narrow: the value it reads as
      is the argument converted to the parameter's type. */
  lemma {:induction false} NarrowParamReads(m: Memory, a: int, t: CType, v: int)
    requires IsScalar(t)
    ensures var w := Encode(ValueType(t), v);
            ReadTyped(StoreLE(m, a, Bytes(w.ty), w.bits), a, t) == Convert(t, v)
  {
    var w, y := Encode(ValueType(t), v), MemoryType(t);
    ModulusIsPow(y);
    LoadStored(m, a, Bytes(w.ty), w.bits, Bytes(y));
    EncodeNested(y, w.ty, v);
    EncodeNested(y, y, w.bits);
  }

  /** The emitted code: narrowing a register, storing it, loading it and widening it again
      yields the converted value, for every value and every scalar type. */
  lemma {:induction false} NarrowStoreReload(w: World, ls: Layouts, t: CType, addr: nat, v: nat, n: nat, s: Mach, a: int, x: int)
    requires IsScalar(t) && addr < n && v < n && InRange(I64, a)
    requires Holds(s, addr, Encode(I64, a)) && Holds(s, v, Encode(ValueType(t), x))
    ensures var narrow := NarrowToStore(ls, v, t, n);
            narrow.Ok? && LoadTail(ls, t, addr, narrow.value.next).Ok?
    ensures var narrow := NarrowToStore(ls, v, t, n).value;
            var load := LoadTail(ls, t, addr, narrow.next).value;
            Delivers(w, narrow.insts + [Store(addr, narrow.val)] + load.insts, load.val, n, s,
                     Val(Convert(t, x), WriteTyped(s.mem, a, t, x), s.tr), ValueType(t))
  {
    NarrowCorrect(w, ls, v, t, n, s, x);
    var narrow := NarrowToStore(ls, v, t, n).value;
    var s1 := ExecCode(w, narrow.insts, s).s;
    StoreCorrect(w, addr, narrow.val, t, s1, a, x);
    var s2 := s1.(mem := WriteTyped(s1.mem, a, t, x));
    ExecAppend(w, narrow.insts, [Store(addr, narrow.val)], s);
    LoadCorrect(w, ls, t, addr, narrow.next, s2, a);
    var load := LoadTail(ls, t, addr, narrow.next).value;
    ExecAppend(w, narrow.insts + [Store(addr, narrow.val)], load.insts, s);
    ReadBack(s1.mem, a, t, x);
  }
}
