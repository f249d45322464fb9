/** Machine integers: bit patterns of a fixed width, and the arithmetic facts that relate
    them to the mathematical integers of the source language. */
module Words {

  datatype Ty = I8 | I16 | I32 | I64

  function Modulus(t: Ty): (m: int)
    ensures m > 0 && m % 2 == 0
  {
    match t
    case I8 => 0x100
    case I16 => 0x1_0000
    case I32 => 0x1_0000_0000
    case I64 => 0x1_0000_0000_0000_0000
  }

  function Bytes(t: Ty): nat {
    match t
    case I8 => 1
    case I16 => 2
    case I32 => 4
    case I64 => 8
  }

  /** A typed bit pattern. */
  datatype Word = Word(ty: Ty, bits: nat)

  /** The bit pattern of `v` at type `t`: two's complement, high bits dropped. */
  function Encode(t: Ty, v: int): (w: Word)
    ensures w.ty == t && w.bits < Modulus(t)
  {
    Word(t, v % Modulus(t))
  }

  /** The two's-complement reading of a bit pattern. */
  function Signed(w: Word): int {
    if w.bits < Modulus(w.ty) / 2 then w.bits else w.bits - Modulus(w.ty)
  }

  /** How the source reads a word: 64-bit words are addresses, narrower ones signed integers. */
  function Decode(w: Word): int {
    if w.ty == I64 then w.bits else Signed(w)
  }

  predicate InRange(t: Ty, v: int) {
    if t == I64 then 0 <= v < Modulus(I64) else -(Modulus(t) / 2) <= v < Modulus(t) / 2
  }

  /** Reduction of any integer into the 32-bit signed range. */
  function Wrap32(v: int): (r: int)
    ensures InRange(I32, r)
  {
    Signed(Encode(I32, v))
  }

  function Wrap64(v: int): (r: int)
    ensures InRange(I64, r)
  {
    v % Modulus(I64)
  }

  lemma {:induction false} ModShift(x: int, k: int, m: int)
    requires m > 0
    ensures (x + k * m) % m == x % m
  {
    var q, r := x / m, x % m;
    assert x + k * m == (q + k) * m + r;
    ModUnique(x + k * m, q + k, r, m);
  }

  lemma {:induction false} ModUnique(x: int, q: int, r: int, m: int)
    requires m > 0 && x == q * m + r && 0 <= r < m
    ensures x % m == r && x / m == q
  {
    var q', r' := x / m, x % m;
    assert x == q' * m + r';
    assert (q - q') * m == r' - r;
    assert q - q' >= 1 ==> (q - q') * m >= m;
    assert q - q' <= -1 ==> (q - q') * m <= -m;
  }

  lemma {:induction false} ModCongruent(x: int, y: int, k: int, m: int)
    requires m > 0 && x == y + k * m
    ensures x % m == y % m
  {
    ModShift(y, k, m);
  }

  lemma {:induction false} ModAdd(a: int, b: int, m: int)
    requires m > 0
    ensures (a % m + b % m) % m == (a + b) % m
    ensures (a % m - b % m) % m == (a - b) % m
  {
    var qa, qb := a / m, b / m;
    assert a + b == a % m + b % m + (qa + qb) * m;
    ModCongruent(a + b, a % m + b % m, qa + qb, m);
    assert a - b == a % m - b % m + (qa - qb) * m;
    ModCongruent(a - b, a % m - b % m, qa - qb, m);
  }

  lemma {:induction false} ModMul(a: int, b: int, m: int)
    requires m > 0
    ensures ((a % m) * (b % m)) % m == (a * b) % m
  {
    var qa, qb, ra, rb := a / m, b / m, a % m, b % m;
    calc {
      a * b;
      (qa * m + ra) * b;
      (qa * b) * m + ra * b;
      (qa * b) * m + ra * (qb * m + rb);
      (qa * b) * m + (ra * qb) * m + ra * rb;
      ra * rb + (qa * b + ra * qb) * m;
    }
    ModCongruent(a * b, ra * rb, qa * b + ra * qb, m);
  }

  /** Encoding depends only on the residue, so it absorbs every inner reduction. */
  lemma {:induction false} EncodeAbsorbs(t: Ty, a: int, b: int)
    ensures Encode(t, Encode(t, a).bits + Encode(t, b).bits) == Encode(t, a + b)
    ensures Encode(t, Encode(t, a).bits - Encode(t, b).bits) == Encode(t, a - b)
    ensures Encode(t, Encode(t, a).bits * Encode(t, b).bits) == Encode(t, a * b)
  {
    ModAdd(a, b, Modulus(t));
    ModMul(a, b, Modulus(t));
  }

  lemma {:induction false} ModNested(v: int, m: int, k: int)
    requires m > 0 && k > 0 && k * m > 0
    ensures (v % (k * m)) % m == v % m
  {
    var q := v / (k * m);
    assert q * (k * m) == (q * k) * m;
    ModCongruent(v % (k * m), v, -(q * k), m);
  }

  lemma {:induction false} EncodeNested(t: Ty, u: Ty, v: int)
    requires Bytes(t) <= Bytes(u)
    ensures Encode(t, Encode(u, v).bits) == Encode(t, v)
  {
    ModNested(v, Modulus(t), Modulus(u) / Modulus(t));
    assert Modulus(u) == Modulus(u) / Modulus(t) * Modulus(t);
  }

  lemma {:induction false} EncodeSigned(t: Ty, v: int)
    ensures Encode(t, Signed(Encode(t, v))) == Encode(t, v)
  {
    ModCongruent(Signed(Encode(t, v)), Encode(t, v).bits, if Encode(t, v).bits < Modulus(t) / 2 then 0 else -1, Modulus(t));
    EncodeNested(t, t, v);
  }

  lemma {:induction false} EncodeWrap32(v: int)
    ensures Encode(I32, Wrap32(v)) == Encode(I32, v)
  {
    EncodeSigned(I32, v);
  }

  lemma {:induction false} SignedEncode(t: Ty, v: int)
    requires -(Modulus(t) / 2) <= v < Modulus(t) / 2
    ensures Signed(Encode(t, v)) == v
  {
    if v >= 0 {
      ModUnique(v, 0, v, Modulus(t));
    } else {
      ModUnique(v, -1, v + Modulus(t), Modulus(t));
    }
  }

  /** Decoding inverts encoding exactly on the representable values. */
  lemma {:induction false} DecodeEncode(t: Ty, v: int)
    ensures Decode(Encode(t, v)) == v <==> InRange(t, v)
  {
    if InRange(t, v) {
      if t == I64 {
        ModUnique(v, 0, v, Modulus(t));
      } else {
        SignedEncode(t, v);
      }
    }
  }

  function Abs(x: int): nat {
    if x >= 0 then x else -x
  }

  /** Quotient with the fraction discarded (C11 section 6.5.5). */
  function TruncDiv(a: int, b: int): int
    requires b != 0
  {
    var q := Abs(a) / Abs(b);
    if (a < 0) == (b < 0) then q else -q
  }

  function TruncRem(a: int, b: int): int
    requires b != 0
  {
    a - TruncDiv(a, b) * b
  }

  lemma {:induction false} TruncRemIsSignedMod(a: int, b: int)
    requires b != 0
    ensures TruncRem(a, b) == if a < 0 then -(Abs(a) % Abs(b)) else Abs(a) % Abs(b)
  {
    assert TruncDiv(a, b) * b == if a < 0 then -(Abs(a) / Abs(b) * Abs(b)) else Abs(a) / Abs(b) * Abs(b);
  }

  /** Division truncates toward zero: the remainder is smaller than the divisor and never
      has the sign opposite to the dividend, and this determines quotient and remainder. */
  lemma {:induction false} TruncDivUnique(a: int, b: int, q: int, r: int)
    requires b != 0
    ensures (q == TruncDiv(a, b) && r == TruncRem(a, b)) <==>
            (a == q * b + r && Abs(r) < Abs(b) && (r != 0 ==> (r < 0) == (a < 0)))
  {
    TruncRemIsSignedMod(a, b);
    if a == q * b + r && Abs(r) < Abs(b) && (r != 0 ==> (r < 0) == (a < 0)) {
      var q' := if (a < 0) == (b < 0) then q else -q;
      assert q' * Abs(b) == if a < 0 then -(q * b) else q * b;
      ModUnique(Abs(a), q', Abs(r), Abs(b));
    }
  }
}
