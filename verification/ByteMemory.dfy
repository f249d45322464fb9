/** Byte memory and the external world, shared by the source and the target semantics. */
module ByteMemory {
  import opened Words
  import opened CTypes

  type Byte = x: int | 0 <= x < 256

  /** Byte-addressed memory with 64-bit addresses; bytes never written are zero. */
  type Memory = map<int, Byte>

  datatype Event = Event(callee: CString, args: seq<int>, result: int)

  /** The external calls made so far. */
  type Trace = seq<Event>

  /** What a callee does: result and memory, from its name, arguments, memory and the past calls. */
  type Extern = (CString, seq<int>, Memory, Trace) -> (int, Memory)

  function LoadLE(m: Memory, a: int, n: nat): nat
    decreases n
  {
    if n == 0 then 0
    else (if Wrap64(a) in m then m[Wrap64(a)] else 0) + 256 * LoadLE(m, a + 1, n - 1)
  }

  function StoreLE(m: Memory, a: int, n: nat, bits: nat): Memory
    decreases n
  {
    if n == 0 then m else StoreLE(m[Wrap64(a) := bits % 256], a + 1, n - 1, bits / 256)
  }
}
