/** The target: Cranelift-like basic blocks over typed words and byte memory, with a
    small-step semantics. */
module Clif {
  import opened Results
  import opened Words
  import opened CTypes
  import opened ByteMemory

  datatype ArithOp = Iadd | Isub | Imul | Sdiv | Srem

  datatype IntCC =
    | Equal | NotEqual
    | SignedLessThan | SignedLessThanOrEqual
    | SignedGreaterThan | SignedGreaterThanOrEqual

  datatype Inst =
    | Iconst(dst: nat, ty: Ty, imm: int)
    | StackAddr(dst: nat, slot: nat)
    | GlobalValue(dst: nat, data: nat)
    | Arith(dst: nat, aop: ArithOp, x: nat, y: nat)
    | Ineg(dst: nat, x: nat)
    | Icmp(dst: nat, cc: IntCC, x: nat, y: nat)
    | Sextend(dst: nat, ty: Ty, x: nat)
    | Uextend(dst: nat, ty: Ty, x: nat)
    | Ireduce(dst: nat, ty: Ty, x: nat)
    | Load(dst: nat, ty: Ty, addr: nat)
    | Store(addr: nat, x: nat)
    | CallInst(dst: nat, callee: CString, sig: seq<Ty>, args: seq<nat>)
    | Jump(target: nat)
    | Brif(cond: nat, thenBlk: nat, elseBlk: nat)
    | ReturnInst(x: nat)

  predicate IsTerminator(i: Inst) {
    i.Jump? || i.Brif? || i.ReturnInst?
  }

  /** Straight-line machine state. */
  datatype Mach = Mach(regs: map<nat, Word>, mem: Memory, tr: Trace)

  /** What the function runs in: its callees, and where its slots and the data objects live. */
  datatype World = World(ext: Extern, frame: nat -> int, data: nat -> int)

  datatype Effect = Next(s: Mach) | Fault(tr: Trace) | Illegal

  function SetReg(s: Mach, d: nat, w: Word): Mach {
    s.(regs := s.regs[d := w])
  }

  /** Integer arithmetic on two words of one type; division faults on a zero divisor, and the
      signed quotient also when it does not fit. */
  function ArithWord(op: ArithOp, x: Word, y: Word): Option<Word> {
    var t := x.ty;
    match op
    case Iadd => Some(Encode(t, x.bits + y.bits))
    case Isub => Some(Encode(t, x.bits - y.bits))
    case Imul => Some(Encode(t, x.bits * y.bits))
    case Sdiv =>
      if Signed(y) == 0 || (Signed(x) == -(Modulus(t) / 2) && Signed(y) == -1) then None
      else Some(Encode(t, TruncDiv(Signed(x), Signed(y))))
    case Srem =>
      if Signed(y) == 0 then None else Some(Encode(t, TruncRem(Signed(x), Signed(y))))
  }

  predicate Compare(cc: IntCC, x: Word, y: Word) {
    match cc
    case Equal => x.bits == y.bits
    case NotEqual => x.bits != y.bits
    case SignedLessThan => Signed(x) < Signed(y)
    case SignedLessThanOrEqual => Signed(x) <= Signed(y)
    case SignedGreaterThan => Signed(x) > Signed(y)
    case SignedGreaterThanOrEqual => Signed(x) >= Signed(y)
  }

  function Bit(b: bool): int {
    if b then 1 else 0
  }

  /** One instruction that does not end a block. `Illegal` covers missing operands, operands
      of the wrong type, extensions that do not widen and reductions that do not narrow. */
  function Exec1(w: World, i: Inst, s: Mach): Effect {
    match i
    case Iconst(d, t, imm) => Next(SetReg(s, d, Encode(t, imm)))
    case StackAddr(d, slot) => Next(SetReg(s, d, Encode(I64, w.frame(slot))))
    case GlobalValue(d, data) => Next(SetReg(s, d, Encode(I64, w.data(data))))
    case Arith(d, op, x, y) =>
      if x in s.regs && y in s.regs && s.regs[x].ty == s.regs[y].ty then
        match ArithWord(op, s.regs[x], s.regs[y])
        case Some(r) => Next(SetReg(s, d, r))
        case None => Fault(s.tr)
      else Illegal
    case Ineg(d, x) =>
      if x in s.regs then Next(SetReg(s, d, Encode(s.regs[x].ty, 0 - s.regs[x].bits))) else Illegal
    case Icmp(d, cc, x, y) =>
      if x in s.regs && y in s.regs && s.regs[x].ty == s.regs[y].ty then
        Next(SetReg(s, d, Encode(I8, Bit(Compare(cc, s.regs[x], s.regs[y])))))
      else Illegal
    case Sextend(d, t, x) =>
      if x in s.regs && Bytes(s.regs[x].ty) < Bytes(t) then
        Next(SetReg(s, d, Encode(t, Signed(s.regs[x]))))
      else Illegal
    case Uextend(d, t, x) =>
      if x in s.regs && Bytes(s.regs[x].ty) < Bytes(t) then
        Next(SetReg(s, d, Encode(t, s.regs[x].bits)))
      else Illegal
    case Ireduce(d, t, x) =>
      if x in s.regs && Bytes(t) < Bytes(s.regs[x].ty) then
        Next(SetReg(s, d, Encode(t, s.regs[x].bits)))
      else Illegal
    case Load(d, t, a) =>
      if a in s.regs && s.regs[a].ty == I64 then
        Next(SetReg(s, d, Encode(t, LoadLE(s.mem, s.regs[a].bits, Bytes(t)))))
      else Illegal
    case Store(a, x) =>
      if a in s.regs && s.regs[a].ty == I64 && x in s.regs then
        Next(s.(mem := StoreLE(s.mem, s.regs[a].bits, Bytes(s.regs[x].ty), s.regs[x].bits)))
      else Illegal
    case CallInst(d, callee, sig, args) =>
      if ArgsMatch(s.regs, sig, args) then
        var vals := ArgValues(s.regs, args);
        var (r, mem) := w.ext(callee, vals, s.mem, s.tr);
        var result := Wrap32(r);
        Next(Mach(s.regs[d := Encode(I32, result)], mem, s.tr + [Event(callee, vals, result)]))
      else Illegal
    case _ => Illegal
  }

  predicate ArgsMatch(regs: map<nat, Word>, sig: seq<Ty>, args: seq<nat>) {
    |sig| == |args| && forall i :: 0 <= i < |args| ==> args[i] in regs && regs[args[i]].ty == sig[i]
  }

  function ArgValues(regs: map<nat, Word>, args: seq<nat>): seq<int>
    requires forall i :: 0 <= i < |args| ==> args[i] in regs
  {
    seq(|args|, i requires 0 <= i < |args| => Decode(regs[args[i]]))
  }

  /** Straight-line code, instruction by instruction. */
  function ExecCode(w: World, code: seq<Inst>, s: Mach): Effect {
    if code == [] then Next(s)
    else
      match Exec1(w, code[0], s)
      case Next(s') => ExecCode(w, code[1..], s')
      case e => e
  }

  type Blocks = seq<seq<Inst>>

  datatype Config =
    | Running(blk: nat, pc: nat, s: Mach)
    | Finished(result: Word, mem: Memory, tr: Trace)
    | Faulted(tr: Trace)
    | Stuck

  function Step(g: Blocks, w: World, c: Config): Config {
    if !c.Running? then c
    else if c.blk >= |g| || c.pc >= |g[c.blk]| then Stuck
    else
      var s := c.s;
      match g[c.blk][c.pc]
      case Jump(t) => Running(t, 0, s)
      case Brif(x, t, e) => if x in s.regs then Running(if s.regs[x].bits != 0 then t else e, 0, s) else Stuck
      case ReturnInst(x) => if x in s.regs then Finished(s.regs[x], s.mem, s.tr) else Stuck
      case i =>
        match Exec1(w, i, s)
        case Next(s') => Running(c.blk, c.pc + 1, s')
        case Fault(tr) => Faulted(tr)
        case Illegal => Stuck
  }

  function Steps(g: Blocks, w: World, n: nat, c: Config): Config {
    if n == 0 then c else Steps(g, w, n - 1, Step(g, w, c))
  }

  lemma {:induction false} StepsAdd(g: Blocks, w: World, m: nat, n: nat, c: Config)
    ensures Steps(g, w, m + n, c) == Steps(g, w, n, Steps(g, w, m, c))
  {
    if m > 0 {
      StepsAdd(g, w, m - 1, n, Step(g, w, c));
    }
  }

  /** A run that has ended stays as it is. */
  lemma {:induction false} StepsHalted(g: Blocks, w: World, n: nat, c: Config)
    requires !c.Running?
    ensures Steps(g, w, n, c) == c
  {
    if n > 0 {
      StepsHalted(g, w, n - 1, c);
    }
  }

  lemma {:induction false} ExecAppend(w: World, a: seq<Inst>, b: seq<Inst>, s: Mach)
    ensures ExecCode(w, a + b, s) ==
            match ExecCode(w, a, s) case Next(s') => ExecCode(w, b, s') case e => e
  {
    if a == [] {
      assert a + b == b;
    } else {
      assert (a + b)[1..] == a[1..] + b;
      match Exec1(w, a[0], s)
      case Next(s') => ExecAppend(w, a[1..], b, s');
      case _ =>
    }
  }

  ghost predicate StraightLine(code: seq<Inst>) {
    forall i :: 0 <= i < |code| ==> !IsTerminator(code[i])
  }

  /** Stepping through straight-line code of a block is executing that code. */
  lemma {:induction false} RunCode(g: Blocks, w: World, blk: nat, pc: nat, code: seq<Inst>, s: Mach)
    requires blk < |g| && pc + |code| <= |g[blk]| && g[blk][pc..pc + |code|] == code
    requires StraightLine(code)
    decreases |code|
    ensures Steps(g, w, |code|, Running(blk, pc, s)) ==
            match ExecCode(w, code, s)
            case Next(s') => Running(blk, pc + |code|, s')
            case Fault(tr) => Faulted(tr)
            case Illegal => Stuck
  {
    if code != [] {
      assert g[blk][pc] == code[0];
      assert g[blk][pc + 1..pc + 1 + |code[1..]|] == code[1..];
      match Exec1(w, code[0], s)
      case Next(s') => RunCode(g, w, blk, pc + 1, code[1..], s');
      case _ => StepsHalted(g, w, |code| - 1, Step(g, w, Running(blk, pc, s)));
    }
  }
}
