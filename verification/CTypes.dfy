/** The C types of the fragment, their layout, and the type helpers of the code generator. */
module CTypes {
  import opened Results
  import opened Words

  /** A `char *` of the compiler itself: names may be null. */
  datatype CString = Null | Str(text: string)

  /** Canonical types. `Char(true)` and `Char(false)` are the signed and unsigned one-byte types. */
  datatype CType =
    | Char(signed: bool)
    | Short(signed: bool)
    | Int
    | Pointer(to: CType)
    | ConstantArray(elem: CType, count: nat)
    | IncompleteArray(elem: CType)
    | Record(tag: string)

  datatype Field = Field(name: CString, offset: nat, ty: CType)

  datatype RecordLayout = RecordLayout(size: nat, fields: seq<Field>)

  /** What libclang answers about the records of the translation unit. */
  type Layouts = map<string, RecordLayout>

  predicate IsPointer(t: CType) { t.Pointer? }

  predicate IsArray(t: CType) { t.ConstantArray? || t.IncompleteArray? }

  predicate IsStruct(t: CType) { t.Record? }

  predicate IsScalar(t: CType) { t.Char? || t.Short? || t.Int? || t.Pointer? }

  predicate IsSigned(t: CType) { (t.Char? && t.signed) || (t.Short? && t.signed) || t.Int? }

  /** The size of an object in bytes; an incomplete type has none. */
  function ByteSize(ls: Layouts, t: CType): Option<nat> {
    match t
    case Char(_) => Some(1)
    case Short(_) => Some(2)
    case Int => Some(4)
    case Pointer(_) => Some(8)
    case ConstantArray(elem, n) =>
      (match ByteSize(ls, elem)
       case Some(s) => Some(n * s)
       case None => None)
    case IncompleteArray(_) => None
    case Record(tag) => if tag in ls then Some(ls[tag].size) else None
  }

  /** The type at the bottom of arrays of known length, and the number of its objects in `t`. */
  function Innermost(t: CType): CType {
    if t.ConstantArray? then Innermost(t.elem) else t
  }

  function Objects(t: CType): nat {
    if t.ConstantArray? then t.count * Objects(t.elem) else 1
  }

  function BaseSize(ls: Layouts, t: CType): nat {
    if t.Record? && t.tag in ls then ls[t.tag].size
    else if t.Char? then 1 else if t.Short? then 2 else if t.Int? then 4 else 8
  }

  /** An object has a size unless it is made of arrays of unknown length or unknown records; then it
      is that of its innermost objects together. */
  lemma {:induction false} SizeExactly(ls: Layouts, t: CType)
    ensures ByteSize(ls, t).None? <==> Innermost(t).IncompleteArray? || (Innermost(t).Record? && Innermost(t).tag !in ls)
    ensures ByteSize(ls, t).Some? ==> ByteSize(ls, t).value == Objects(t) * BaseSize(ls, Innermost(t))
  {
    if t.ConstantArray? {
      SizeExactly(ls, t.elem);
      ProductOfCounts(t.count, Objects(t.elem), BaseSize(ls, Innermost(t)));
    }
  }

  lemma {:induction false} ProductOfCounts(a: nat, b: nat, c: nat)
    ensures a * (b * c) == (a * b) * c
  {
  }

  /** The size as the compiler sees it: cut to a `long`, which has 32 bits on the build host; a
      negative answer stops the compiler. */
  function TypeSize(ls: Layouts, t: CType): Result<nat> {
    match ByteSize(ls, t)
    case None => Exit(SizeofFailed)
    case Some(n) => if Wrap32(n) < 0 then Exit(SizeofFailed) else Ok(Wrap32(n))
  }

  /** One more than the greatest `long`. */
  const LONG_LIMIT: int := 0x8000_0000

  /** The compiler has the right size exactly for objects below 2 GiB. */
  lemma {:induction false} TypeSizeExactly(ls: Layouts, t: CType)
    requires ByteSize(ls, t).Some?
    ensures TypeSize(ls, t) == Ok(ByteSize(ls, t).value) <==> ByteSize(ls, t).value < LONG_LIMIT
  {
    if ByteSize(ls, t).value < LONG_LIMIT {
      SignedEncode(I32, ByteSize(ls, t).value);
    }
  }

  /** The bytes a value of type `t` takes in memory. */
  function StoreBytes(ls: Layouts, t: CType): Result<nat> {
    match t
    case Char(_) => Ok(1)
    case Short(_) => Ok(2)
    case Int => Ok(4)
    case Pointer(_) => Ok(8)
    case _ => TypeSize(ls, t)
  }

  /** The machine type in which `n` bytes are kept in memory. */
  function StoreCliftType(n: nat): Ty {
    match n case 1 => I8 case 2 => I16 case 4 => I32 case 8 => I64 case _ => I32
  }

  /** The machine type in which an `n`-byte object is computed with. */
  function ComputeType(n: nat): Ty {
    if n == 8 then I64 else I32
  }

  function ComputeCliftType(ls: Layouts, t: CType): Result<Ty> {
    var n :- StoreBytes(ls, t);
    Ok(ComputeType(n))
  }

  function AbiTypeForArg(ls: Layouts, t: CType): Result<Ty> {
    if IsArray(t) then Ok(I64) else ComputeCliftType(ls, t)
  }

  /** The size of a stack slot: rounded up to a multiple of 8 in a `long`, and at least 8. */
  function SlotSize(ls: Layouts, t: CType): Result<nat> {
    var s :- TypeSize(ls, t);
    var aligned := Wrap32(s + 7) / 8 * 8;
    Ok(if aligned < 8 then 8 else aligned)
  }

  /** The first field with the given name. */
  function FindField(fields: seq<Field>, name: CString): Option<Field> {
    if fields == [] then None
    else if fields[0].name == name then Some(fields[0])
    else FindField(fields[1..], name)
  }

  /** The offset of a field as the compiler computes it: the offset in bits, cut to a `long`, then
      divided by 8. */
  function LongOffset(offset: nat): int {
    TruncDiv(Wrap32(offset * 8), 8)
  }

  /** One more than the greatest offset whose bits fit a `long`. */
  const OFFSET_LIMIT: int := 0x1000_0000

  /** The cut offset is the true one modulo 2^29, and negative in the upper half of that range. */
  lemma {:induction false} LongOffsetExactly(offset: nat)
    ensures LongOffset(offset) == offset <==> offset < OFFSET_LIMIT
    ensures LongOffset(offset) ==
            if offset % 0x2000_0000 < OFFSET_LIMIT then offset % 0x2000_0000 else offset % 0x2000_0000 - 0x2000_0000
  {
    var r := offset % 0x2000_0000;
    var o := if r < OFFSET_LIMIT then r else r - 0x2000_0000;
    assert offset == offset / 0x2000_0000 * 0x2000_0000 + r;
    ModCongruent(offset * 8, o * 8, if r < OFFSET_LIMIT then offset / 0x2000_0000 else offset / 0x2000_0000 + 1, Modulus(I32));
    SignedEncode(I32, o * 8);
    EightTimes(o);
  }

  lemma {:induction false} EightTimes(o: int)
    ensures TruncDiv(o * 8, 8) == o
  {
  }

  function FieldsOf(ls: Layouts, t: CType): seq<Field> {
    if t.Record? && t.tag in ls then ls[t.tag].fields else []
  }

  /** The machine type a lowered rvalue of type `t` has: arrays and records are their address. */
  function ValueType(t: CType): Ty {
    if t.Pointer? || IsArray(t) || t.Record? then I64 else I32
  }

  /** The machine type in which a scalar is kept in memory. */
  function MemoryType(t: CType): Ty {
    match t
    case Char(_) => I8
    case Short(_) => I16
    case Int => I32
    case _ => I64
  }

  /** Conversion of an integer or address to a scalar type: reduction modulo the width into
      the signed or unsigned range of the type. */
  function Convert(t: CType, v: int): int {
    var w := Encode(MemoryType(t), v);
    if IsSigned(t) then Signed(w) else w.bits
  }

  /** The values of a scalar type (C11 section 5.2.4.2.1, with the widths of the target). */
  function Lowest(t: CType): int {
    match t
    case Char(true) => -128
    case Short(true) => -32768
    case Int => -2147483648
    case _ => 0
  }

  function Highest(t: CType): int {
    match t
    case Char(true) => 127
    case Char(false) => 255
    case Short(true) => 32767
    case Short(false) => 65535
    case Int => 2147483647
    case _ => 18446744073709551615
  }

  /** Conversion yields the one value of the type that is congruent to its argument modulo the
      number of its values. */
  lemma {:induction false} ConvertIsTheCongruentValue(t: CType, v: int, r: int)
    requires IsScalar(t)
    ensures r == Convert(t, v) <==>
            Lowest(t) <= r <= Highest(t) && r % (Highest(t) - Lowest(t) + 1) == v % (Highest(t) - Lowest(t) + 1)
  {
    var m := MemoryType(t);
    assert Highest(t) - Lowest(t) + 1 == Modulus(m);
    assert Lowest(t) == if IsSigned(t) then -(Modulus(m) / 2) else 0;
    EncodeSigned(m, v);
    EncodeNested(m, m, v);
    if r % Modulus(m) == v % Modulus(m) {
      if IsSigned(t) && -(Modulus(m) / 2) <= r < Modulus(m) / 2 {
        SignedEncode(m, r);
      } else if 0 <= r < Modulus(m) {
        ModUnique(r, 0, r, Modulus(m));
      }
    }
  }

  // ----- the fields of a record -----

  /** A field is found exactly if there is one of that name, and then the first. */
  lemma {:induction false} FindFieldIsFirst(fields: seq<Field>, name: CString)
    ensures FindField(fields, name).None? <==> forall i :: 0 <= i < |fields| ==> fields[i].name != name
    ensures forall i :: 0 <= i < |fields| && fields[i].name == name && (forall j :: 0 <= j < i ==> fields[j].name != name) ==>
              FindField(fields, name) == Some(fields[i])
  {
    if fields != [] {
      var rest := fields[1..];
      FindFieldIsFirst(rest, name);
      assert forall i :: 0 < i < |fields| ==> fields[i] == rest[i - 1];
      assert forall i :: 0 <= i < |rest| ==> rest[i] == fields[i + 1];
    }
  }
}
