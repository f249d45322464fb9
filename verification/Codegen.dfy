/** The code generator in its own form: a builder object and a lowering context that methods
    update in place, with the loops of the program. Every method is proved to do what the
    functions of `SlotTable` and `Lowering` say, and to respect the builder's protocol: no
    instruction enters a filled block, no filled block is switched to, and no block is left
    before it is filled. */
module Codegen {
  import opened Results
  import opened Words
  import opened CTypes
  import opened Ast
  import opened Clif
  import opened SlotTable
  import opened Lowering
  import opened Growth

  /** The function under construction. */
  class FunctionBuilder {
    var blocks: Blocks
    var current: nat
    var next: nat
    var slots: seq<nat>

    ghost predicate Open()
      reads this
    {
      current < |blocks| && !Filled(blocks[current])
    }

    /** `insts` were appended to the current block, and `v` is the next free value. */
    twostate predicate Emitted(insts: seq<Inst>, v: nat)
      reads this
    {
      && blocks == Extended(old(blocks), current, insts) && next == v
      && current == old(current) && slots == old(slots)
    }

    constructor (parameters: nat)
      ensures blocks == [[]] && current == 0 && next == parameters && slots == []
    {
      blocks, current, next, slots := [[]], 0, parameters, [];
    }

    /** Appends an instruction to the current block. */
    method Ins(i: Inst)
      requires Open()
      modifies this
      ensures Emitted([i], old(next))
      ensures !IsTerminator(i) ==> Open()
    {
      blocks := blocks[current := blocks[current] + [i]];
    }

    method NewValue() returns (v: nat)
      modifies this`next
      ensures v == old(next) && next == v + 1
    {
      v := next;
      next := next + 1;
    }

    method Iconst(ty: Ty, imm: int) returns (v: nat)
      requires Open()
      modifies this
      ensures v == old(next) && Emitted([Inst.Iconst(v, ty, imm)], v + 1) && Open()
    {
      v := NewValue();
      Ins(Inst.Iconst(v, ty, imm));
    }

    method StackAddr(slot: nat) returns (v: nat)
      requires Open()
      modifies this
      ensures v == old(next) && Emitted([Inst.StackAddr(v, slot)], v + 1) && Open()
    {
      v := NewValue();
      Ins(Inst.StackAddr(v, slot));
    }

    method GlobalValue(data: nat) returns (v: nat)
      requires Open()
      modifies this
      ensures v == old(next) && Emitted([Inst.GlobalValue(v, data)], v + 1) && Open()
    {
      v := NewValue();
      Ins(Inst.GlobalValue(v, data));
    }

    method Arith(op: ArithOp, x: nat, y: nat) returns (v: nat)
      requires Open()
      modifies this
      ensures v == old(next) && Emitted([Inst.Arith(v, op, x, y)], v + 1) && Open()
    {
      v := NewValue();
      Ins(Inst.Arith(v, op, x, y));
    }

    method Ineg(x: nat) returns (v: nat)
      requires Open()
      modifies this
      ensures v == old(next) && Emitted([Inst.Ineg(v, x)], v + 1) && Open()
    {
      v := NewValue();
      Ins(Inst.Ineg(v, x));
    }

    method Icmp(cc: IntCC, x: nat, y: nat) returns (v: nat)
      requires Open()
      modifies this
      ensures v == old(next) && Emitted([Inst.Icmp(v, cc, x, y)], v + 1) && Open()
    {
      v := NewValue();
      Ins(Inst.Icmp(v, cc, x, y));
    }

    method Sextend(ty: Ty, x: nat) returns (v: nat)
      requires Open()
      modifies this
      ensures v == old(next) && Emitted([Inst.Sextend(v, ty, x)], v + 1) && Open()
    {
      v := NewValue();
      Ins(Inst.Sextend(v, ty, x));
    }

    method Uextend(ty: Ty, x: nat) returns (v: nat)
      requires Open()
      modifies this
      ensures v == old(next) && Emitted([Inst.Uextend(v, ty, x)], v + 1) && Open()
    {
      v := NewValue();
      Ins(Inst.Uextend(v, ty, x));
    }

    method Ireduce(ty: Ty, x: nat) returns (v: nat)
      requires Open()
      modifies this
      ensures v == old(next) && Emitted([Inst.Ireduce(v, ty, x)], v + 1) && Open()
    {
      v := NewValue();
      Ins(Inst.Ireduce(v, ty, x));
    }

    method Load(ty: Ty, addr: nat) returns (v: nat)
      requires Open()
      modifies this
      ensures v == old(next) && Emitted([Inst.Load(v, ty, addr)], v + 1) && Open()
    {
      v := NewValue();
      Ins(Inst.Load(v, ty, addr));
    }

    method Call(callee: CString, sig: seq<Ty>, args: seq<nat>) returns (v: nat)
      requires Open()
      modifies this
      ensures v == old(next) && Emitted([CallInst(v, callee, sig, args)], v + 1) && Open()
    {
      v := NewValue();
      Ins(CallInst(v, callee, sig, args));
    }

    method CreateBlock() returns (k: nat)
      modifies this`blocks
      ensures k == |old(blocks)| && blocks == old(blocks) + [[]]
    {
      k := |blocks|;
      blocks := blocks + [[]];
    }

    /** A filled block cannot be switched to, and the current block must be filled first. */
    method SwitchToBlock(k: nat)
      requires k < |blocks| && !Filled(blocks[k])
      requires current < |blocks| && Filled(blocks[current])
      modifies this`current
      ensures current == k
    {
      current := k;
    }

    method CreateSizedStackSlot(size: nat) returns (slot: nat)
      modifies this`slots
      ensures slot == |old(slots)| && slots == old(slots) + [size]
    {
      slot := |slots|;
      slots := slots + [size];
    }
  }

  lemma {:induction false} ExtendedTwice(blocks: Blocks, k: nat, a: seq<Inst>, b: seq<Inst>)
    ensures Extended(Extended(blocks, k, a), k, b) == Extended(blocks, k, a + b)
  {
    if k < |blocks| {
      assert blocks[k] + a + b == blocks[k] + (a + b);
    }
  }

  lemma {:induction false} EmitExprValid(sc: Scope, g: State, e: Expr)
    requires Valid(g) && !g.terminated
    ensures Lowering.EmitExpr(sc, g, e).Ok? ==>
              Valid(Lowering.EmitExpr(sc, g, e).value.0) && !Lowering.EmitExpr(sc, g, e).value.0.terminated
  {
    if Lowering.EmitExpr(sc, g, e).Ok? {
      Reflexive(g);
      EmitExprGrows(g, sc, g, e);
    }
  }

  lemma {:induction false} CreatedValid(g: State, k: nat)
    requires Valid(g)
    ensures Grown(g, Lowering.CreateBlocks(g, k)) && Grown(Lowering.CreateBlocks(g, k), Lowering.CreateBlocks(g, k))
  {
    Reflexive(g);
    CreateGrows(g, g, k);
    Reflexive(Lowering.CreateBlocks(g, k));
  }

  /** Creating blocks one at a time. */
  lemma {:induction false} EmptyBlocksAppended(blocks: Blocks)
    ensures blocks + [[]] + [[]] + [[]] == blocks + EmptyBlocks(3)
    ensures blocks + [[]] + [[]] + [[]] + [[]] == blocks + EmptyBlocks(4)
  {
  }

  lemma {:induction false} DoUnfolds(sc: Scope, g: State, g1: State, b: Stmts, e: Expr)
    ensures LowerDoBody(sc, g, g1, b, e) ==
            match LowerStmts(sc, InLoop(g1, |g.blocks| + 2, |g.blocks| + 1), b)
            case Ok(g2) => Lowering.LowerDoTest(sc, LeaveBody(g2, |g.blocks| + 1, g), |g.blocks|, e)
            case Exit(x) => Exit(x)
  {
    hide LowerStmts, Lowering.LowerDoTest, LeaveBody;
  }

  lemma {:induction false} ForUnfolds(sc: Scope, g: State, g2: State, post: Expr, b: Stmts)
    ensures LowerForBody(sc, g, g2, post, b) ==
            match LowerStmts(sc, SwitchTo(InLoop(g2, |g.blocks| + 3, |g.blocks| + 1), |g.blocks| + 2), b)
            case Ok(g3) => Lowering.LowerForStep(sc, LeaveBody(g3, |g.blocks| + 1, g), |g.blocks|, post)
            case Exit(x) => Exit(x)
  {
    hide LowerStmts, Lowering.LowerForStep, LeaveBody;
  }

  lemma {:induction false} ArmsUnfold(sc: Scope, k: nat, g: State, e: Expr, t: Stmts, f: Stmts)
    ensures Lowering.LowerArms(sc, k, g, e, t, f) ==
            match LowerStmts(sc, SwitchTo(g, k), t)
            case Ok(g3) => if f.Nil? then Ok(SwitchTo(FallTo(g3, k + 2), k + 2)) else Lowering.LowerElse(sc, k, g3, f)
            case Exit(x) => Exit(x)
  {
    hide LowerStmts, Lowering.LowerElse, FallTo;
  }

  /** Loop targets do not matter for growth. */
  lemma {:induction false} GrownAlike(g0: State, g: State, g': State)
    requires Grown(g0, g) && g'.blocks == g.blocks && g'.current == g.current && g'.terminated == g.terminated
    ensures Grown(g0, g')
  {
  }

  lemma {:induction false} Enterable(g0: State, g: State, k: nat)
    requires Grown(g0, g) && k < |g.blocks| && g.blocks[k] == []
    ensures Valid(g) && !Filled(g.blocks[k])
  {
  }

  lemma {:induction false} ExtendedNot(blocks: Blocks, k: nat)
    ensures Extended(blocks, k, []) == blocks
  {
    if k < |blocks| {
      assert blocks[k] + [] == blocks[k];
    }
  }

  /** A member of the object at `base`. */
  ghost function MemberTail(sc: Scope, e: Expr, base: nat, n: nat): Result<Code>
    requires e.Member? && !e.base.NullExpr?
  {
    var off :- FieldOffset(sc.layouts, if e.isArrow then Pointed(e.base.ty) else Some(e.base.ty), e.field);
    Ok(Code([Inst.Iconst(n, I64, off), Inst.Arith(n + 1, Iadd, base, n)], n + 1, n + 2))
  }

  ghost function BaseOf(sc: Scope, e: Expr, byValue: bool, n: nat): Result<Code> {
    if byValue then ExprCode(sc, e, n) else LvalCode(sc, e, n)
  }

  ghost function Behind(a: Code, t: Result<Code>): Result<Code> {
    var c :- t;
    Ok(Code(a.insts + c.insts, c.val, c.next))
  }

  lemma {:induction false} MemberUnfolds(sc: Scope, e: Expr, n: nat)
    requires e.Member? && !e.base.NullExpr?
    ensures LvalCode(sc, e, n) ==
            match BaseOf(sc, e.base, e.isArrow, n)
            case Exit(x) => Exit(x)
            case Ok(base) => Behind(base, MemberTail(sc, e, base.val, base.next))
  {
    hide ExprCode, FieldOffset;
  }

  /** The mutable state of one function's lowering. */
  class CgCtx {
    const b: FunctionBuilder
    const layouts: Layouts
    const params: seq<Param>
    const data: seq<CString>
    const locals: array<LocalBinding>
    var nlocals: nat
    var loopBreak: Option<nat>
    var loopContinue: Option<nat>
    var terminated: bool

    ghost predicate Ready()
      reads this
    {
      locals.Length == MAX_LOCALS && nlocals <= MAX_LOCALS
    }

    ghost function Table(): seq<LocalBinding>
      requires Ready()
      reads this, locals
    {
      locals[..nlocals]
    }

    ghost function Slots(): Locals
      requires Ready()
      reads this, locals, b
    {
      Locals(Table(), b.slots)
    }

    ghost function TheScope(): Scope
      requires Ready()
      reads this, locals
    {
      Scope(layouts, Table(), data)
    }

    ghost function View(): State
      reads this, b
    {
      State(b.blocks, b.current, b.next, loopBreak, loopContinue, terminated)
    }

    constructor (b: FunctionBuilder, layouts: Layouts, params: seq<Param>, data: seq<CString>)
      ensures this.b == b && this.layouts == layouts && this.params == params && this.data == data
      ensures fresh(locals) && Ready() && Table() == []
      ensures loopBreak == loopContinue == None && !terminated
    {
      this.b, this.layouts, this.params, this.data := b, layouts, params, data;
      locals := new LocalBinding[MAX_LOCALS];
      nlocals, loopBreak, loopContinue, terminated := 0, None, None, false;
    }

    // ----- the slot table -----

    /** First match, front to back. */
    method LocalLookup(name: CString) returns (r: Result<Option<LocalBinding>>)
      requires Ready()
      ensures r == SlotTable.LocalLookup(Table(), name)
    {
      var i := 0;
      while i < nlocals
        invariant 0 <= i <= nlocals
        invariant Find(Table(), name) == Find(Table()[i..], name)
        invariant i > 0 ==> name.Str?
      {
        if name.Null? {
          return Exit(NullDereference);
        }
        if locals[i].name == name {
          return Ok(Some(locals[i]));
        }
        assert Table()[i..][1..] == Table()[i + 1..];
        i := i + 1;
      }
      return Ok(None);
    }

    method LocalAdd(name: CString, ty: CType, slot: nat) returns (r: Result<()>)
      requires Ready()
      modifies this`nlocals, locals
      ensures Ready()
      ensures r.Ok? <==> old(nlocals) < 64 && name.Str?
      ensures r.Ok? ==> Table() == old(Table()) + [LocalBinding(name, ty, slot)]
      ensures r.Exit? ==> r.why == if old(nlocals) >= 64 then TooManyLocals else NullDereference
    {
      if nlocals >= MAX_LOCALS {
        return Exit(TooManyLocals);
      }
      if name.Null? {
        return Exit(NullDereference);
      }
      locals[nlocals] := LocalBinding(name, ty, slot);
      nlocals := nlocals + 1;
      return Ok(());
    }

    /** A slot and a binding to it. */
    method AddLocal(name: CString, ty: CType) returns (r: Result<()>)
      requires Ready()
      modifies this`nlocals, locals, b`slots
      ensures Ready()
      ensures match SlotTable.AddLocal(layouts, old(Slots()), name, ty)
              case Ok(l) => r.Ok? && Slots() == l
              case Exit(x) => r == Exit(x)
    {
      var size :- SlotSize(layouts, ty);
      var slot := b.CreateSizedStackSlot(size);
      r := LocalAdd(name, ty, slot);
    }

    method CollectLocals(s: Stmts) returns (r: Result<()>)
      requires Ready()
      modifies this`nlocals, locals, b`slots
      ensures Ready()
      ensures match SlotTable.CollectLocals(layouts, params, old(Slots()), s)
              case Ok(l) => r.Ok? && Slots() == l
              case Exit(x) => r == Exit(x)
      decreases Size(s)
    {
      var i := 0;
      while i < |params|
        invariant 0 <= i <= |params| && Ready()
        invariant AddParams(layouts, old(Slots()), params) == AddParams(layouts, Slots(), params[i..])
      {
        assert params[i..][0] == params[i] && params[i..][1..] == params[i + 1..];
        var _ :- AddLocal(params[i].name, params[i].ty);
        i := i + 1;
      }
      ghost var l := Slots();
      var rest := s;
      while rest.Cons?
        invariant Ready() && Size(rest) <= Size(s)
        invariant CollectChain(layouts, params, l, s) == CollectChain(layouts, params, Slots(), rest)
        decreases Size(rest)
      {
        match rest.head {
          case Decl(x, t, _) =>
            var found :- LocalLookup(x);
            if found.None? {
              var _ :- AddLocal(x, t);
            }
          case Block(body) =>
            var _ :- CollectLocals(body);
          case If(_, thenBody, elseBody) =>
            var _ :- CollectLocals(thenBody);
            var _ :- CollectLocals(elseBody);
          case While(_, body) =>
            var _ :- CollectLocals(body);
          case For(first, _, _, body) =>
            var _ :- CollectLocals(first);
            var _ :- CollectLocals(body);
          case Do(body, _) =>
            var _ :- CollectLocals(body);
          case _ =>
        }
        rest := rest.next;
      }
      return Ok(());
    }

    // ----- expressions -----

    /** `r` and the builder are what the code `spec` prescribes. */
    twostate predicate Follows(new spec: Result<Code>, new r: Result<nat>)
      reads b
    {
      match spec
      case Ok(c) => r == Ok(c.val) && b.Emitted(c.insts, c.next) && b.Open()
      case Exit(x) => r == Exit(x)
    }

    method NarrowToStore(v: nat, t: CType) returns (r: Result<nat>)
      requires b.Open()
      modifies b
      ensures Follows(Lowering.NarrowToStore(layouts, v, t, old(b.next)), r)
    {
      var sz :- StoreBytes(layouts, t);
      ExtendedNot(b.blocks, b.current);
      if sz >= 4 {
        return Ok(v);
      }
      if sz == 2 {
        var w := b.Ireduce(I16, v);
        return Ok(w);
      }
      if sz == 1 {
        var mid := b.Ireduce(I16, v);
        var w := b.Ireduce(I8, mid);
        ExtendedTwice(old(b.blocks), b.current, [Inst.Ireduce(mid, I16, v)], [Inst.Ireduce(w, I8, mid)]);
        assert [Inst.Ireduce(mid, I16, v)] + [Inst.Ireduce(w, I8, mid)] == [Inst.Ireduce(mid, I16, v), Inst.Ireduce(w, I8, mid)];
        return Ok(w);
      }
      return Ok(v);
    }

    method LowerAssign(e: Expr) returns (r: Result<nat>)
      requires Ready() && b.Open() && e.Binop? && e.op.OpAssign?
      modifies b
      ensures Follows(ExprCode(TheScope(), e, old(b.next)), r)
      decreases e, 0
    {
      ghost var sc, n := TheScope(), b.next;
      var addr :- LowerLvalue(e.lhs);
      ghost var a := LvalCode(sc, e.lhs, n).value;
      var rhs :- LowerExpr(e.rhs);
      ghost var v := ExprCode(sc, e.rhs, a.next).value;
      ExtendedTwice(old(b.blocks), b.current, a.insts, v.insts);
      rhs :- NarrowToStore(rhs, e.lhs.ty);
      ghost var s := Lowering.NarrowToStore(sc.layouts, v.val, e.lhs.ty, v.next).value;
      ExtendedTwice(old(b.blocks), b.current, a.insts + v.insts, s.insts);
      b.Ins(Inst.Store(addr, rhs));
      ExtendedTwice(old(b.blocks), b.current, a.insts + v.insts + s.insts, [Inst.Store(addr, rhs)]);
      return Ok(rhs);
    }

    /** `base op v * stride`. */
    method Scale(op: ArithOp, base: nat, v: nat, stride: nat, scaledFirst: bool) returns (w: nat)
      requires b.Open()
      modifies b
      ensures Follows(Ok(ScaledAddress(op, base, v, stride, scaledFirst, old(b.next))), Ok(w))
    {
      var wide := b.Sextend(I64, v);
      var s := b.Iconst(I64, stride);
      ghost var i0, i1 := [Inst.Sextend(wide, I64, v)], [Inst.Iconst(s, I64, stride)];
      ExtendedTwice(old(b.blocks), b.current, i0, i1);
      var scaled := b.Arith(Imul, wide, s);
      ghost var i2 := [Inst.Arith(scaled, Imul, wide, s)];
      ExtendedTwice(old(b.blocks), b.current, i0 + i1, i2);
      if scaledFirst {
        w := b.Arith(op, scaled, base);
      } else {
        w := b.Arith(op, base, scaled);
      }
      ghost var i3 := [if scaledFirst then Inst.Arith(w, op, scaled, base) else Inst.Arith(w, op, base, scaled)];
      ExtendedTwice(old(b.blocks), b.current, i0 + i1 + i2, i3);
      assert i0 + i1 + i2 + i3 == ScaledAddress(op, base, v, stride, scaledFirst, wide).insts;
    }

    method LowerOperator(op: BinOpKind, lt: CType, rt: CType, lhs: nat, rhs: nat) returns (r: Result<nat>)
      requires b.Open()
      modifies b
      ensures Follows(BinopTail(layouts, op, lt, rt, lhs, rhs, old(b.next)), r)
    {
      var cc := CmpCc(op);
      var v;
      if cc.Some? {
        var cmp := b.Icmp(cc.value, lhs, rhs);
        v := b.Uextend(I32, cmp);
        ghost var i0, i1 := Inst.Icmp(cmp, cc.value, lhs, rhs), Inst.Uextend(v, I32, cmp);
        ExtendedTwice(old(b.blocks), b.current, [i0], [i1]);
        assert [i0] + [i1] == [i0, i1];
        return Ok(v);
      }
      match op {
        case OpAdd =>
          if IsPointer(lt) && !IsPointer(rt) {
            var stride :- TypeSize(layouts, lt.to);
            v := Scale(Iadd, lhs, rhs, stride, false);
          } else if IsPointer(rt) && !IsPointer(lt) {
            var stride :- TypeSize(layouts, rt.to);
            v := Scale(Iadd, rhs, lhs, stride, true);
          } else {
            v := b.Arith(Iadd, lhs, rhs);
          }
        case OpSub =>
          if IsPointer(lt) && !IsPointer(rt) {
            var stride :- TypeSize(layouts, lt.to);
            v := Scale(Isub, lhs, rhs, stride, false);
          } else {
            v := b.Arith(Isub, lhs, rhs);
          }
        case OpMul => v := b.Arith(Imul, lhs, rhs);
        case OpDiv => v := b.Arith(Sdiv, lhs, rhs);
        case OpMod => v := b.Arith(Srem, lhs, rhs);
        case _ => return Exit(UnsupportedBinop);
      }
      return Ok(v);
    }

    method LowerBinop(e: Expr) returns (r: Result<nat>)
      requires Ready() && b.Open() && e.Binop?
      modifies b
      ensures Follows(ExprCode(TheScope(), e, old(b.next)), r)
      decreases e, 1
    {
      if e.op.OpAssign? {
        r := LowerAssign(e);
        return;
      }
      ghost var sc, n := TheScope(), b.next;
      var lhs :- LowerExpr(e.lhs);
      ghost var x := ExprCode(sc, e.lhs, n).value;
      var rhs :- LowerExpr(e.rhs);
      ghost var y := ExprCode(sc, e.rhs, x.next).value;
      ExtendedTwice(old(b.blocks), b.current, x.insts, y.insts);
      var v :- LowerOperator(e.op, e.lhs.ty, e.rhs.ty, lhs, rhs);
      ghost var t := BinopTail(sc.layouts, e.op, e.lhs.ty, e.rhs.ty, x.val, y.val, y.next).value;
      ExtendedTwice(old(b.blocks), b.current, x.insts + y.insts, t.insts);
      return Ok(v);
    }

    method LowerUnop(e: Expr) returns (r: Result<nat>)
      requires Ready() && b.Open() && e.Unop?
      modifies b
      ensures Follows(ExprCode(TheScope(), e, old(b.next)), r)
      decreases e, 1
    {
      hide LvalCode, UnopTail;
      ghost var sc, n := TheScope(), b.next;
      var v :- LowerExpr(e.operand);
      ghost var x := ExprCode(sc, e.operand, n).value;
      var w := LowerUnopTail(e.uop, v);
      ExtendedTwice(old(b.blocks), b.current, x.insts, UnopTail(e.uop, v, x.next).insts);
      return Ok(w);
    }

    /** Negation, or comparison with a 32-bit zero. */
    method LowerUnopTail(op: UnOpKind, v: nat) returns (w: nat)
      requires b.Open()
      modifies b
      ensures Follows(Ok(UnopTail(op, v, old(b.next))), Ok(w))
    {
      match op {
        case UnopNeg =>
          w := b.Ineg(v);
        case UnopNot =>
          var zero := b.Iconst(I32, 0);
          var cmp := b.Icmp(Equal, v, zero);
          w := b.Uextend(I32, cmp);
          ghost var i0, i1, i2 := [Inst.Iconst(zero, I32, 0)], [Inst.Icmp(cmp, Equal, v, zero)], [Inst.Uextend(w, I32, cmp)];
          ExtendedTwice(old(b.blocks), b.current, i0, i1);
          ExtendedTwice(old(b.blocks), b.current, i0 + i1, i2);
          assert i0 + i1 + i2 == UnopTail(op, v, zero).insts;
      }
    }

    /** Arguments left to right, then the call. */
    method LowerCall(e: Expr) returns (r: Result<nat>)
      requires Ready() && b.Open() && e.Call?
      modifies b
      ensures Follows(ExprCode(TheScope(), e, old(b.next)), r)
      decreases e, 1
    {
      ghost var sc, n := TheScope(), b.next;
      var args, sig := [], [];
      ghost var code: seq<Inst> := [];
      ExtendedNot(b.blocks, b.current);
      var i := 0;
      while i < |e.args|
        invariant 0 <= i <= |e.args| && b.Open() && TheScope() == sc
        invariant ArgsCode(sc, e.args[..i], n) == Ok(CallArgs(code, args, sig, b.next))
        invariant b.Emitted(code, b.next)
      {
        ghost var k := b.next;
        ArgsSnoc(sc, e.args[..i], e.args[i], n);
        assert e.args[..i] + [e.args[i]] == e.args[..i + 1];
        if ArgsCode(sc, e.args[..i + 1], n).Exit? {
          ArgsPrefix(sc, e.args, i + 1, n);
        }
        var v :- LowerExpr(e.args[i]);
        ghost var c := ExprCode(sc, e.args[i], k).value;
        ExtendedTwice(old(b.blocks), b.current, code, c.insts);
        var t :- AbiTypeForArg(layouts, e.args[i].ty);
        args, sig, code := args + [v], sig + [t], code + c.insts;
        i := i + 1;
      }
      assert e.args[..i] == e.args;
      if e.callee.Null? {
        return Exit(NullDereference);
      }
      var v := b.Call(e.callee, sig, args);
      ExtendedTwice(old(b.blocks), b.current, code, [CallInst(v, e.callee, sig, args)]);
      return Ok(v);
    }

    method LowerLvalue(e: Expr) returns (r: Result<nat>)
      requires Ready() && b.Open()
      modifies b
      ensures Follows(LvalCode(TheScope(), e, old(b.next)), r)
      decreases e, 2
    {
      match e {
        case NullExpr => return Exit(NullDereference);
        case Var(_, x) =>
          var lb :- LocalLookup(x);
          if lb.None? {
            return Exit(UndefinedVariable);
          }
          var v := b.StackAddr(lb.value.slot);
          return Ok(v);
        case Deref(_, p) =>
          r := LowerExpr(p);
        case Index(_, _, _) =>
          r := LowerIndex(e);
        case Member(_, _, _, _) =>
          r := LowerMember(e);
        case _ => return Exit(NotAnLvalue);
      }
    }

    /** The base address of a subscript or member: a pointer value, or the address of an object. */
    method LowerBase(e: Expr, byValue: bool) returns (r: Result<nat>)
      requires Ready() && b.Open()
      modifies b
      ensures Follows(BaseOf(TheScope(), e, byValue, old(b.next)), r)
      decreases e, 4
    {
      if byValue {
        r := LowerExpr(e);
      } else {
        r := LowerLvalue(e);
      }
    }

    method LowerIndex(e: Expr) returns (r: Result<nat>)
      requires Ready() && b.Open() && e.Index?
      modifies b
      ensures Follows(LvalCode(TheScope(), e, old(b.next)), r)
      decreases e, 1
    {
      if e.base.NullExpr? {
        return Exit(NullDereference);
      }
      ghost var sc, n := TheScope(), b.next;
      var base :- LowerBase(e.base, IsPointer(e.base.ty));
      ghost var x := (if IsPointer(e.base.ty) then ExprCode(sc, e.base, n) else LvalCode(sc, e.base, n)).value;
      var elem :- IndexedType(e.base.ty);
      var stride :- TypeSize(layouts, elem);
      var ix :- LowerExpr(e.index);
      ghost var i := ExprCode(sc, e.index, x.next).value;
      ExtendedTwice(old(b.blocks), b.current, x.insts, i.insts);
      var v := Scale(Iadd, base, ix, stride, false);
      ghost var a := ScaledAddress(Iadd, x.val, i.val, stride, false, i.next);
      ExtendedTwice(old(b.blocks), b.current, x.insts + i.insts, a.insts);
      return Ok(v);
    }

    method LowerMember(e: Expr) returns (r: Result<nat>)
      requires Ready() && b.Open() && e.Member?
      modifies b
      ensures Follows(LvalCode(TheScope(), e, old(b.next)), r)
      decreases e, 1
    {
      if e.base.NullExpr? {
        return Exit(NullDereference);
      }
      hide LvalCode, BaseOf, MemberTail;
      ghost var sc, n := TheScope(), b.next;
      MemberUnfolds(sc, e, n);
      var base :- LowerBase(e.base, e.isArrow);
      ghost var x := BaseOf(sc, e.base, e.isArrow, n).value;
      r := LowerOffset(e, base);
      if r.Ok? {
        ExtendedTwice(old(b.blocks), b.current, x.insts, MemberTail(sc, e, base, x.next).value.insts);
      }
    }

    /** The offset of the field, and the addition. */
    method LowerOffset(e: Expr, base: nat) returns (r: Result<nat>)
      requires Ready() && b.Open() && e.Member? && !e.base.NullExpr?
      modifies b
      ensures Follows(MemberTail(TheScope(), e, base, old(b.next)), r)
    {
      var offset :- FieldOffset(layouts, if e.isArrow then Pointed(e.base.ty) else Some(e.base.ty), e.field);
      var v := AddOffset(base, offset);
      return Ok(v);
    }

    method AddOffset(base: nat, offset: nat) returns (v: nat)
      requires b.Open()
      modifies b
      ensures Follows(Ok(Code([Inst.Iconst(old(b.next), I64, offset), Inst.Arith(old(b.next) + 1, Iadd, base, old(b.next))],
                              old(b.next) + 1, old(b.next) + 2)), Ok(v))
    {
      var off := b.Iconst(I64, offset);
      v := b.Arith(Iadd, base, off);
      ghost var i0, i1 := Inst.Iconst(off, I64, offset), Inst.Arith(v, Iadd, base, off);
      ExtendedTwice(old(b.blocks), b.current, [i0], [i1]);
      assert [i0] + [i1] == [i0, i1];
    }

    /** Reads through an address, widening narrow values. */
    method LoadValue(t: CType, addr: nat) returns (r: Result<nat>)
      requires b.Open()
      modifies b
      ensures Follows(LoadTail(layouts, t, addr, old(b.next)), r)
    {
      var sz :- StoreBytes(layouts, t);
      var st, ct := StoreCliftType(sz), ComputeType(sz);
      var loaded := b.Load(st, addr);
      ghost var i0 := Inst.Load(loaded, st, addr);
      if sz < 4 {
        var wide;
        if IsSigned(t) {
          wide := b.Sextend(ct, loaded);
        } else {
          wide := b.Uextend(ct, loaded);
        }
        ghost var i1 := if IsSigned(t) then Inst.Sextend(wide, ct, loaded) else Inst.Uextend(wide, ct, loaded);
        ExtendedTwice(old(b.blocks), b.current, [i0], [i1]);
        assert [i0] + [i1] == [i0, i1];
        return Ok(wide);
      }
      return Ok(loaded);
    }

    /** The data item of a string symbol, found by walking the program's list. */
    method FindString(symbol: CString) returns (r: Result<nat>)
      ensures r == if data != [] && symbol.Null? then Exit(NullDereference)
                   else match FindData(data, symbol) case Some(k) => Ok(k) case None => Exit(UnknownString)
    {
      var i := 0;
      while i < |data|
        invariant 0 <= i <= |data| && (i > 0 ==> symbol.Str?)
        invariant FindData(data, symbol) ==
                  match FindData(data[i..], symbol) case Some(k) => Some(i + k) case None => None
      {
        if symbol.Null? {
          return Exit(NullDereference);
        }
        if data[i] == symbol {
          return Ok(i);
        }
        assert data[i..][1..] == data[i + 1..];
        i := i + 1;
      }
      return Exit(UnknownString);
    }

    method LowerExpr(e: Expr) returns (r: Result<nat>)
      requires Ready() && b.Open()
      modifies b
      ensures Follows(ExprCode(TheScope(), e, old(b.next)), r)
      decreases e, 3
    {
      match e {
        case NullExpr => return Exit(NullDereference);
        case IntLit(_, v) =>
          var w := b.Iconst(I32, v);
          return Ok(w);
        case StringLit(_, s) =>
          var k :- FindString(s);
          var w := b.GlobalValue(k);
          return Ok(w);
        case AddrOf(_, x) => r := LowerLvalue(x);
        case Binop(_, _, _, _) => r := LowerBinop(e);
        case Unop(_, _, _) => r := LowerUnop(e);
        case Call(_, _, _) => r := LowerCall(e);
        case _ =>
          if IsArray(e.ty) || IsStruct(e.ty) {
            r := LowerLvalue(e);
          } else {
            ghost var sc, n := TheScope(), b.next;
            var addr :- LowerLvalue(e);
            ghost var a := LvalCode(sc, e, n).value;
            var v :- LoadValue(e.ty, addr);
            ExtendedTwice(old(b.blocks), b.current, a.insts, LoadTail(sc.layouts, e.ty, a.val, a.next).value.insts);
            return Ok(v);
          }
      }
    }

    // ----- statements -----

    /** The outcome and the new state are what `spec` prescribes; no slot was created. */
    twostate predicate Became(new spec: Result<State>, new r: Result<()>)
      reads this, b
    {
      match spec
      case Ok(g) => r.Ok? && View() == g && b.slots == old(b.slots)
      case Exit(x) => r == Exit(x)
    }

    /** An expression whose code goes to the current block. */
    method EmitExpr(e: Expr) returns (r: Result<nat>)
      requires Ready() && Valid(View()) && !terminated
      modifies b
      ensures match Lowering.EmitExpr(TheScope(), old(View()), e)
              case Ok((g, v)) => r == Ok(v) && View() == g && b.slots == old(b.slots) && b.Open()
              case Exit(x) => r == Exit(x)
    {
      r := LowerExpr(e);
    }

    /** Ends the current block. */
    method Finish(i: Inst)
      requires Valid(View()) && !terminated && IsTerminator(i)
      modifies b, this`terminated
      ensures View() == Terminate(old(View()), i) && b.slots == old(b.slots)
    {
      b.Ins(i);
      terminated := true;
    }

    method JumpUnlessTerminated(target: nat)
      requires Valid(View())
      modifies b, this`terminated
      ensures View() == FallTo(old(View()), target) && b.slots == old(b.slots)
    {
      if !terminated {
        Finish(Jump(target));
      }
    }

    /** Goes on in block `k`. */
    method Enter(k: nat)
      requires Valid(View()) && terminated && k < |b.blocks| && !Filled(b.blocks[k])
      modifies b`current, this`terminated
      ensures View() == SwitchTo(old(View()), k) && b.slots == old(b.slots)
    {
      b.SwitchToBlock(k);
      terminated := false;
    }

    /** The current block was filled, and nothing else was changed. */
    twostate predicate FilledCurrent()
      reads this, b
    {
      && Grown(old(View()), View()) && terminated && b.current == old(b.current) && |b.blocks| == |old(b.blocks)|
      && SameTargets(old(View()), View())
      && forall i :: 0 <= i < |b.blocks| && i != b.current ==> b.blocks[i] == old(b.blocks)[i]
    }

    method LowerBranch(e: Expr, t: nat, f: nat) returns (r: Result<()>)
      requires Ready() && Valid(View()) && !terminated
      modifies b, this`terminated
      ensures Became(EmitBranch(TheScope(), old(View()), e, t, f), r)
      ensures r.Ok? ==> FilledCurrent()
    {
      Reflexive(View());
      if EmitBranch(TheScope(), View(), e, t, f).Ok? {
        EmitBranchGrows(View(), TheScope(), View(), e, t, f);
      }
      var cond :- EmitExpr(e);
      Finish(Brif(cond, t, f));
      return Ok(());
    }

    method LowerIfTest(e: Expr, hasElse: bool) returns (r: Result<()>)
      requires Ready() && Valid(View()) && !terminated
      modifies b, this`terminated
      ensures Became(Lowering.LowerIfTest(TheScope(), old(View()), e, hasElse), r)
    {
      hide ExprCode;
      ghost var g := View();
      var cond :- EmitExpr(e);
      var thenBlk := b.CreateBlock();
      var elseBlk := b.CreateBlock();
      var mergeBlk := b.CreateBlock();
      EmptyBlocksAppended(Lowering.EmitExpr(TheScope(), g, e).value.0.blocks);
      Finish(Brif(cond, thenBlk, if hasElse then elseBlk else mergeBlk));
      return Ok(());
    }

    method LowerIf(e: Expr, t: Stmts, f: Stmts) returns (r: Result<()>)
      requires Ready() && Valid(View()) && !terminated
      modifies b, this`loopBreak, this`loopContinue, this`terminated
      ensures Became(Lowering.LowerIf(TheScope(), old(View()), e, t, f), r)
      decreases Size(t) + Size(f), 5
    {
      hide Lowering.LowerIfTest, Lowering.LowerArms;
      ghost var sc, g := TheScope(), View();
      var k := |b.blocks|;
      if Lowering.LowerIfTest(sc, g, e, f.Cons?).Ok? {
        IfTestGrows(sc, g, e, f.Cons?);
      }
      var _ :- LowerIfTest(e, f.Cons?);
      r := LowerArms(k, e, t, f, g);
    }

    /** Blocks: then `k`, else `k + 1`, merge `k + 2`. */
    method LowerArms(k: nat, ghost e: Expr, t: Stmts, f: Stmts, ghost g0: State) returns (r: Result<()>)
      requires Ready() && Grown(g0, View()) && terminated && |g0.blocks| <= k && k + 2 < |b.blocks|
      requires b.blocks[k] == b.blocks[k + 1] == b.blocks[k + 2] == []
      modifies b, this`loopBreak, this`loopContinue, this`terminated
      ensures Became(Lowering.LowerArms(TheScope(), k, old(View()), e, t, f), r)
      decreases Size(t) + Size(f), 4
    {
      hide Lowering.LowerElse, Lowering.LowerArms, LowerStmts, FallTo, Grown, Filled;
      ArmsUnfold(TheScope(), k, View(), e, t, f);
      ghost var arm := LowerStmts(TheScope(), SwitchTo(View(), k), t);
      var thenFell :- LowerArm(k, t, k + 2, g0);
      if f.Nil? {
        Enterable(g0, View(), k + 2);
        Enter(k + 2);
        return Ok(());
      }
      r := LowerElse(k, f, thenFell, arm.value, g0);
    }

    /** Fills the new block `k` with a chain and, if control falls off it, a jump to `target`;
        returns whether it did. */
    method LowerArm(k: nat, s: Stmts, target: nat, ghost g0: State) returns (r: Result<bool>)
      requires Ready() && Grown(g0, View()) && terminated && |g0.blocks| <= k < |b.blocks| && b.blocks[k] == []
      modifies b, this`loopBreak, this`loopContinue, this`terminated
      ensures match LowerStmts(TheScope(), SwitchTo(old(View()), k), s)
              case Ok(g) => r == Ok(!g.terminated) && View() == FallTo(g, target) && b.slots == old(b.slots) && Grown(g0, View())
              case Exit(x) => r == Exit(x)
      ensures r.Ok? ==> terminated && |old(b.blocks)| <= |b.blocks|
      ensures r.Ok? ==> forall i :: 0 <= i < |old(b.blocks)| && i != k ==> b.blocks[i] == old(b.blocks)[i]
      ensures r.Ok? ==> loopBreak == old(loopBreak) && loopContinue == old(loopContinue)
      decreases Size(s), 2
    {
      hide LowerStmts;
      SwitchGrows(g0, View(), k);
      Enter(k);
      r := LowerOpenArm(s, target, g0);
    }

    /** The same in the current block. */
    method LowerOpenArm(s: Stmts, target: nat, ghost g0: State) returns (r: Result<bool>)
      requires Ready() && Grown(g0, View()) && !terminated
      modifies b, this`loopBreak, this`loopContinue, this`terminated
      ensures match LowerStmts(TheScope(), old(View()), s)
              case Ok(g) => r == Ok(!g.terminated) && View() == FallTo(g, target) && b.slots == old(b.slots) && Grown(g0, View())
              case Exit(x) => r == Exit(x)
      ensures r.Ok? ==> terminated && |old(b.blocks)| <= |b.blocks|
      ensures r.Ok? ==> forall i :: 0 <= i < |old(b.blocks)| && i != old(b.current) ==> b.blocks[i] == old(b.blocks)[i]
      ensures r.Ok? ==> loopBreak == old(loopBreak) && loopContinue == old(loopContinue)
      decreases Size(s), 1
    {
      hide LowerStmts;
      ghost var sc, g := TheScope(), View();
      if LowerStmts(sc, g, s).Ok? {
        LowerStmtsGrows(sc, g, s);
        GrownTransitive(g0, g, LowerStmts(sc, g, s).value);
        FallToGrows(g0, LowerStmts(sc, g, s).value, target);
      }
      var _ :- LowerStmt(s);
      var fell := !terminated;
      JumpUnlessTerminated(target);
      return Ok(fell);
    }

    /** The else arm, and the merge block if one of the arms falls into it. */
    method LowerElse(k: nat, f: Stmts, thenFell: bool, ghost g: State, ghost g0: State) returns (r: Result<()>)
      requires Ready() && f.Cons? && FallTo(g, k + 2) == View() && thenFell == !g.terminated
      requires Grown(g0, View()) && terminated && |g0.blocks| <= k
      requires k + 2 < |b.blocks| && b.blocks[k + 1] == b.blocks[k + 2] == []
      modifies b, this`loopBreak, this`loopContinue, this`terminated
      ensures Became(Lowering.LowerElse(TheScope(), k, g, f), r)
      decreases Size(f), 3
    {
      hide LowerStmts, FallTo, Grown, Filled;
      var elseFell :- LowerArm(k + 1, f, k + 2, g0);
      if thenFell || elseFell {
        Enterable(g0, View(), k + 2);
        Enter(k + 2);
      }
      return Ok(());
    }

    method LowerWhile(e: Expr, body: Stmts) returns (r: Result<()>)
      requires Ready() && Valid(View()) && !terminated
      modifies b, this`loopBreak, this`loopContinue, this`terminated
      ensures Became(Lowering.LowerWhile(TheScope(), old(View()), e, body), r)
      decreases Size(body), 4
    {
      hide EmitBranch, LowerWhileBody, EnterBlocks;
      ghost var sc, g := TheScope(), View();
      var headBlk, bodyBlk, exitBlk := EnterThree();
      ghost var g1 := View();
      var _ :- LowerBranch(e, bodyBlk, exitBlk);
      GrownTransitive(g, g1, View());
      r := LowerLoopBody(body, bodyBlk, exitBlk, g);
    }

    /** Creates the three blocks of a `while` or `do` and goes on in the first. */
    method EnterThree() returns (first: nat, second: nat, third: nat)
      requires Valid(View()) && !terminated
      modifies b, this`terminated
      ensures first == |old(b.blocks)| && second == first + 1 && third == first + 2
      ensures View() == EnterBlocks(old(View()), 3, first) && b.slots == old(b.slots)
      ensures Grown(old(View()), View()) && !terminated && |b.blocks| == first + 3 && b.current == first
      ensures b.blocks[first] == b.blocks[second] == b.blocks[third] == []
    {
      ghost var g := View();
      first := b.CreateBlock();
      second := b.CreateBlock();
      third := b.CreateBlock();
      EmptyBlocksAppended(g.blocks);
      EnterGrows(g, 3, first);
      CreatedValid(g, 3);
      FallToGrows(Lowering.CreateBlocks(g, 3), Lowering.CreateBlocks(g, 3), first);
      JumpUnlessTerminated(first);
      Enter(first);
    }

    /** The body of a `while`, whose loop targets are in force only while it is lowered. */
    method LowerLoopBody(body: Stmts, bodyBlk: nat, exitBlk: nat, ghost g: State) returns (r: Result<()>)
      requires Ready() && Grown(g, View()) && terminated && |b.blocks| == |g.blocks| + 3
      requires bodyBlk == |g.blocks| + 1 && exitBlk == |g.blocks| + 2
      requires b.blocks[bodyBlk] == b.blocks[exitBlk] == []
      requires loopBreak == g.loopBreak && loopContinue == g.loopContinue
      modifies b, this`loopBreak, this`loopContinue, this`terminated
      ensures Became(LowerWhileBody(TheScope(), g, old(View()), body), r)
      decreases Size(body), 3
    {
      hide LowerStmts, FallTo, Grown, Filled;
      var headBlk := bodyBlk - 1;
      var savedBreak, savedCont := loopBreak, loopContinue;
      ghost var g2 := View();
      loopBreak := Some(exitBlk);
      loopContinue := Some(headBlk);
      GrownAlike(g, g2, View());
      var _ :- LowerArm(bodyBlk, body, headBlk, g);
      ghost var g3 := View();
      loopBreak := savedBreak;
      loopContinue := savedCont;
      GrownAlike(g, g3, View());
      Enterable(g, View(), exitBlk);
      Enter(exitBlk);
      return Ok(());
    }

    method LowerFor(first: Stmts, e: Expr, post: Expr, body: Stmts) returns (r: Result<()>)
      requires Ready() && Valid(View()) && !terminated
      modifies b, this`loopBreak, this`loopContinue, this`terminated
      ensures Became(Lowering.LowerStmt(TheScope(), old(View()), For(first, e, post, body)), r)
      decreases Size(first) + Size(body), 5
    {
      hide LowerStmts, LowerForLoop;
      if LowerStmts(TheScope(), View(), first).Ok? {
        LowerStmtsGrows(TheScope(), View(), first);
      }
      var _ :- LowerStmt(first);
      r := LowerForRest(e, post, body);
    }

    /** A `for` after its first clause, which may have left the current block closed. */
    method LowerForRest(e: Expr, post: Expr, body: Stmts) returns (r: Result<()>)
      requires Ready() && Valid(View())
      modifies b, this`loopBreak, this`loopContinue, this`terminated
      ensures Became(LowerForLoop(TheScope(), old(View()), e, post, body), r)
      decreases Size(body), 4
    {
      hide Lowering.LowerForTest, LowerForBody, EnterBlocks;
      ghost var g := View();
      var headBlk := |b.blocks|;
      var _ :- LowerForHead(e);
      r := LowerForLoopBody(post, body, headBlk, g);
    }

    /** Entry and test of a `for`; step, body and exit block wait, empty. */
    method LowerForHead(e: Expr) returns (r: Result<()>)
      requires Ready() && Valid(View())
      modifies b, this`terminated
      ensures Became(Lowering.LowerForTest(TheScope(), EnterBlocks(old(View()), 4, |old(b.blocks)|), e, |old(b.blocks)| + 2, |old(b.blocks)| + 3), r)
      ensures r.Ok? ==> Grown(old(View()), View()) && terminated && |b.blocks| == |old(b.blocks)| + 4
      ensures r.Ok? ==> b.blocks[|old(b.blocks)| + 1] == b.blocks[|old(b.blocks)| + 2] == b.blocks[|old(b.blocks)| + 3] == []
      ensures r.Ok? ==> loopBreak == old(loopBreak) && loopContinue == old(loopContinue)
    {
      hide Lowering.LowerForTest, EnterBlocks;
      ghost var g := View();
      var headBlk, postBlk, bodyBlk, exitBlk := EnterFour();
      ghost var g1 := View();
      var _ :- LowerForTest(e, bodyBlk, exitBlk);
      GrownTransitive(g, g1, View());
      return Ok(());
    }

    /** Creates the four blocks of a `for` and goes on in the first. */
    method EnterFour() returns (first: nat, second: nat, third: nat, fourth: nat)
      requires Valid(View())
      modifies b, this`terminated
      ensures first == |old(b.blocks)| && second == first + 1 && third == first + 2 && fourth == first + 3
      ensures View() == EnterBlocks(old(View()), 4, first) && b.slots == old(b.slots)
      ensures Grown(old(View()), View()) && !terminated && |b.blocks| == first + 4 && b.current == first
      ensures b.blocks[first] == b.blocks[second] == b.blocks[third] == b.blocks[fourth] == []
    {
      ghost var g := View();
      first := b.CreateBlock();
      second := b.CreateBlock();
      third := b.CreateBlock();
      fourth := b.CreateBlock();
      EmptyBlocksAppended(g.blocks);
      EnterGrows(g, 4, first);
      CreatedValid(g, 4);
      FallToGrows(Lowering.CreateBlocks(g, 4), Lowering.CreateBlocks(g, 4), first);
      JumpUnlessTerminated(first);
      Enter(first);
    }

    method LowerForTest(e: Expr, t: nat, f: nat) returns (r: Result<()>)
      requires Ready() && Valid(View()) && !terminated
      modifies b, this`terminated
      ensures Became(Lowering.LowerForTest(TheScope(), old(View()), e, t, f), r)
      ensures r.Ok? ==> FilledCurrent()
    {
      if e.NullExpr? {
        Reflexive(View());
        ForTestGrows(View(), TheScope(), View(), e, t, f);
        var one := b.Iconst(I32, 1);
        Finish(Brif(one, t, f));
        return Ok(());
      }
      r := LowerBranch(e, t, f);
    }

    method LowerForLoopBody(post: Expr, body: Stmts, headBlk: nat, ghost g: State) returns (r: Result<()>)
      requires Ready() && Grown(g, View()) && terminated && |b.blocks| == |g.blocks| + 4 && headBlk == |g.blocks|
      requires b.blocks[headBlk + 1] == b.blocks[headBlk + 2] == b.blocks[headBlk + 3] == []
      requires loopBreak == g.loopBreak && loopContinue == g.loopContinue
      modifies b, this`loopBreak, this`loopContinue, this`terminated
      ensures Became(LowerForBody(TheScope(), g, old(View()), post, body), r)
      decreases Size(body), 3
    {
      hide LowerStmts, Lowering.LowerForStep, LowerForBody, FallTo, Grown;
      ForUnfolds(TheScope(), g, View(), post, body);
      var postBlk, bodyBlk, exitBlk := headBlk + 1, headBlk + 2, headBlk + 3;
      var savedBreak, savedCont := loopBreak, loopContinue;
      ghost var g2 := View();
      loopBreak := Some(exitBlk);
      loopContinue := Some(postBlk);
      GrownAlike(g, g2, View());
      var _ :- LowerArm(bodyBlk, body, postBlk, g);
      ghost var g3 := View();
      loopBreak := savedBreak;
      loopContinue := savedCont;
      GrownAlike(g, g3, View());
      r := LowerForStep(headBlk, post, g);
    }

    /** The step block, back to the head, and on in the exit block. */
    method LowerForStep(k: nat, post: Expr, ghost g0: State) returns (r: Result<()>)
      requires Ready() && Grown(g0, View()) && terminated && |g0.blocks| <= k && k + 3 < |b.blocks|
      requires b.blocks[k + 1] == b.blocks[k + 3] == []
      modifies b, this`terminated
      ensures Became(Lowering.LowerForStep(TheScope(), old(View()), k, post), r)
    {
      hide ExprCode;
      ghost var sc, g := TheScope(), View();
      SwitchGrows(g0, g, k + 1);
      Enter(k + 1);
      if LowerForPost(sc, SwitchTo(g, k + 1), post, k).Ok? {
        ForPostGrows(g0, sc, SwitchTo(g, k + 1), post, k);
      }
      if !post.NullExpr? {
        EmitExprValid(sc, View(), post);
        var _ :- EmitExpr(post);
      }
      Finish(Jump(k));
      Enter(k + 3);
      return Ok(());
    }

    method LowerDo(body: Stmts, e: Expr) returns (r: Result<()>)
      requires Ready() && Valid(View()) && !terminated
      modifies b, this`loopBreak, this`loopContinue, this`terminated
      ensures Became(Lowering.LowerDo(TheScope(), old(View()), body, e), r)
      decreases Size(body), 3
    {
      hide LowerDoBody, EnterBlocks;
      ghost var g := View();
      var bodyBlk, headBlk, exitBlk := EnterThree();
      r := LowerDoLoopBody(body, e, bodyBlk, g);
    }

    method LowerDoLoopBody(body: Stmts, e: Expr, bodyBlk: nat, ghost g: State) returns (r: Result<()>)
      requires Ready() && Grown(g, View()) && !terminated && |b.blocks| == |g.blocks| + 3 && bodyBlk == |g.blocks|
      requires b.current == bodyBlk && b.blocks[bodyBlk + 1] == b.blocks[bodyBlk + 2] == []
      requires loopBreak == g.loopBreak && loopContinue == g.loopContinue
      modifies b, this`loopBreak, this`loopContinue, this`terminated
      ensures Became(LowerDoBody(TheScope(), g, old(View()), body, e), r)
      decreases Size(body), 2
    {
      hide LowerStmts, Lowering.LowerDoTest, LowerDoBody, FallTo, Grown;
      DoUnfolds(TheScope(), g, View(), body, e);
      var headBlk, exitBlk := bodyBlk + 1, bodyBlk + 2;
      var savedBreak, savedCont := loopBreak, loopContinue;
      ghost var g1 := View();
      loopBreak := Some(exitBlk);
      loopContinue := Some(headBlk);
      GrownAlike(g, g1, View());
      var _ :- LowerOpenArm(body, headBlk, g);
      ghost var g2 := View();
      loopBreak := savedBreak;
      loopContinue := savedCont;
      GrownAlike(g, g2, View());
      r := LowerDoTest(bodyBlk, e, g);
    }

    /** The test block, and on in the exit block. */
    method LowerDoTest(k: nat, e: Expr, ghost g0: State) returns (r: Result<()>)
      requires Ready() && Grown(g0, View()) && terminated && |g0.blocks| <= k && k + 2 < |b.blocks|
      requires b.blocks[k + 1] == b.blocks[k + 2] == []
      modifies b, this`terminated
      ensures Became(Lowering.LowerDoTest(TheScope(), old(View()), k, e), r)
    {
      hide EmitBranch;
      ghost var sc, g := TheScope(), View();
      SwitchGrows(g0, g, k + 1);
      Enter(k + 1);
      var _ :- LowerBranch(e, k, k + 2);
      Enter(k + 2);
      return Ok(());
    }

    method LowerStmt(s: Stmts) returns (r: Result<()>)
      requires Ready() && Valid(View())
      modifies b, this`loopBreak, this`loopContinue, this`terminated
      ensures Became(LowerStmts(TheScope(), old(View()), s), r)
      decreases Size(s), 0
    {
      ghost var sc := TheScope();
      var rest := s;
      while rest.Cons?
        invariant TheScope() == sc && Valid(View()) && b.slots == old(b.slots) && Size(rest) <= Size(s)
        invariant LowerStmts(sc, old(View()), s) == LowerStmts(sc, View(), rest)
        decreases Size(rest)
      {
        if terminated {
          return Ok(());
        }
        if Lowering.LowerStmt(sc, View(), rest.head).Ok? {
          LowerStmtGrows(sc, View(), rest.head);
        }
        var _ :- LowerOne(rest.head);
        rest := rest.next;
      }
      return Ok(());
    }

    method LowerOne(s: Stmt) returns (r: Result<()>)
      requires Ready() && Valid(View()) && !terminated
      modifies b, this`loopBreak, this`loopContinue, this`terminated
      ensures Became(Lowering.LowerStmt(TheScope(), old(View()), s), r)
      decreases SizeOf(s), 6
    {
      match s {
        case Return(e) =>
          var rv :- EmitExpr(e);
          Finish(ReturnInst(rv));
          return Ok(());
        case Eval(e) =>
          var _ :- EmitExpr(e);
          return Ok(());
        case Decl(x, t, e) =>
          if e.NullExpr? {
            return Ok(());
          }
          r := LowerDecl(x, t, e);
        case Block(body) => r := LowerStmt(body);
        case If(e, t, f) => r := LowerIf(e, t, f);
        case While(e, body) => r := LowerWhile(e, body);
        case For(first, e, post, body) => r := LowerFor(first, e, post, body);
        case Do(body, e) => r := LowerDo(body, e);
        case Break =>
          if loopBreak.None? {
            return Exit(BreakOutsideLoop);
          }
          Finish(Jump(loopBreak.value));
          return Ok(());
        case Continue =>
          if loopContinue.None? {
            return Exit(ContinueOutsideLoop);
          }
          Finish(Jump(loopContinue.value));
          return Ok(());
      }
    }

    /** The initial value goes to the slot of the variable. */
    method LowerDecl(x: CString, t: CType, e: Expr) returns (r: Result<()>)
      requires Ready() && Valid(View()) && !terminated
      modifies b
      ensures Became(LowerInit(TheScope(), old(View()), x, t, e), r)
    {
      hide ExprCode, Lowering.NarrowToStore;
      ghost var sc, n := TheScope(), b.next;
      var lb :- LocalLookup(x);
      if lb.None? {
        return Exit(DeclWithoutSlot);
      }
      var rhs :- LowerExpr(e);
      ghost var c := ExprCode(sc, e, n).value;
      rhs :- NarrowToStore(rhs, t);
      ghost var s := Lowering.NarrowToStore(sc.layouts, c.val, t, c.next).value;
      ExtendedTwice(old(b.blocks), b.current, c.insts, s.insts);
      StoreToSlot(lb.value.slot, rhs);
      ExtendedTwice(old(b.blocks), b.current, c.insts + s.insts, [Inst.StackAddr(s.next, lb.value.slot), Inst.Store(s.next, rhs)]);
      return Ok(());
    }

    method StoreToSlot(slot: nat, v: nat)
      requires b.Open()
      modifies b
      ensures b.Emitted([Inst.StackAddr(old(b.next), slot), Inst.Store(old(b.next), v)], old(b.next) + 1) && b.Open()
    {
      var addr := b.StackAddr(slot);
      b.Ins(Inst.Store(addr, v));
      ExtendedTwice(old(b.blocks), b.current, [Inst.StackAddr(addr, slot)], [Inst.Store(addr, v)]);
      assert [Inst.StackAddr(addr, slot)] + [Inst.Store(addr, v)] == [Inst.StackAddr(addr, slot), Inst.Store(addr, v)];
    }
  }

  /** A function's signature types. */
  method EmitSignature(layouts: Layouts, params: seq<Param>) returns (r: Result<seq<Ty>>)
    ensures r == ParamTypes(layouts, params)
  {
    var sig := [];
    var i := 0;
    AfterNothing(ParamTypes(layouts, params));
    assert params[0..] == params;
    while i < |params|
      invariant 0 <= i <= |params|
      invariant ParamTypes(layouts, params) == After(sig, ParamTypes(layouts, params[i..]))
    {
      assert params[i..][0] == params[i] && params[i..][1..] == params[i + 1..];
      var t :- ComputeCliftType(layouts, params[i].ty);
      AfterTwice(sig, [t], ParamTypes(layouts, params[i + 1..]));
      sig := sig + [t];
      i := i + 1;
    }
    assert params[i..] == [] && sig + [] == sig;
    return Ok(sig);
  }

  /** `done` in front of what is still to come. */
  ghost function After<T>(done: seq<T>, r: Result<seq<T>>): Result<seq<T>> {
    match r
    case Ok(rest) => Ok(done + rest)
    case Exit(x) => Exit(x)
  }

  lemma {:induction false} AfterNothing<T>(r: Result<seq<T>>)
    ensures After([], r) == r
  {
    if r.Ok? {
      assert [] + r.value == r.value;
    }
  }

  lemma {:induction false} AfterTwice<T>(a: seq<T>, b: seq<T>, r: Result<seq<T>>)
    ensures After(a, After(b, r)) == After(a + b, r)
  {
    if r.Ok? {
      assert a + (b + r.value) == a + b + r.value;
    }
  }

  /** Stores every parameter in the slot its name resolves to. */
  method EmitParamStores(ctx: CgCtx) returns (r: Result<()>)
    requires ctx.Ready() && ctx.b.Open() && ctx.b.blocks == [[]] && ctx.b.current == 0 && ctx.b.next == |ctx.params|
    modifies ctx.b
    ensures match StoreParams(ctx.Table(), ctx.params, 0, |ctx.params|)
            case Ok(stores) =>
              && r.Ok? && ctx.b.blocks == [stores] && ctx.b.current == 0 && ctx.b.next == |ctx.params| + |ctx.params|
              && ctx.b.Open() && ctx.b.slots == old(ctx.b.slots)
            case Exit(x) => r == Exit(x)
  {
    var b, n := ctx.b, |ctx.params|;
    ghost var done: seq<Inst> := [];
    var i := 0;
    AfterNothing(StoreParams(ctx.Table(), ctx.params, 0, n));
    while i < n
      invariant 0 <= i <= n && b.Open() && b.blocks == [done] && b.current == 0 && b.next == n + i
      invariant b.slots == old(b.slots)
      invariant StoreParams(ctx.Table(), ctx.params, 0, n) == After(done, StoreParams(ctx.Table(), ctx.params, i, n + i))
    {
      var lb :- ctx.LocalLookup(ctx.params[i].name);
      if lb.None? {
        return Exit(NullDereference);
      }
      ghost var pair := [Inst.StackAddr(n + i, lb.value.slot), Inst.Store(n + i, i)];
      AfterTwice(done, pair, StoreParams(ctx.Table(), ctx.params, i + 1, n + i + 1));
      var addr := b.StackAddr(lb.value.slot);
      b.Ins(Inst.Store(addr, i));
      assert b.blocks[0] == done + pair;
      done := done + pair;
      i := i + 1;
    }
    assert done + [] == done;
    return Ok(());
  }

  /** Compiles one function; a declaration without body produces nothing. */
  method EmitFunction(layouts: Layouts, data: seq<CString>, f: Func) returns (r: Result<Option<IrFunction>>)
    ensures r == EmitDefinition(layouts, data, f)
  {
    if f.body.Nil? {
      return Ok(None);
    }
    hide Lowering.EmitFrame, ParamTypes;
    var sig :- EmitSignature(layouts, f.params);
    var ret :- ComputeCliftType(layouts, f.returnType);
    var frame :- EmitFrame(layouts, data, f);
    return Ok(Some(IrFunction(sig, ret, frame.0, frame.1)));
  }

  /** The slot table, the parameter stores and the body, in a new builder. */
  method EmitFrame(layouts: Layouts, data: seq<CString>, f: Func) returns (r: Result<(seq<nat>, Blocks)>)
    ensures r == Lowering.EmitFrame(layouts, data, f)
  {
    hide LowerStmts, SlotTable.CollectLocals, StoreParams, Completed;
    var b := new FunctionBuilder(|f.params|);
    var ctx := new CgCtx(b, layouts, f.params, data);
    var _ :- ctx.CollectLocals(f.body);
    var _ :- EmitParamStores(ctx);
    var _ :- EmitBody(ctx, f.body);
    return Ok((b.slots, b.blocks));
  }

  /** The body, and the return at its end. */
  method EmitBody(ctx: CgCtx, body: Stmts) returns (r: Result<()>)
    requires ctx.Ready() && Valid(ctx.View())
    modifies ctx.b, ctx`loopBreak, ctx`loopContinue, ctx`terminated
    ensures match LowerStmts(ctx.TheScope(), old(ctx.View()), body)
            case Ok(g) => r.Ok? && ctx.b.blocks == Completed(g).blocks && ctx.b.slots == old(ctx.b.slots)
            case Exit(x) => r == Exit(x)
  {
    hide LowerStmts;
    ghost var sc, g := ctx.TheScope(), ctx.View();
    var _ :- ctx.LowerStmt(body);
    LowerStmtsGrows(sc, g, body);
    if !ctx.terminated {
      ReturnZero(ctx);
    }
    return Ok(());
  }

  /** Control that falls off the end returns 0. */
  method ReturnZero(ctx: CgCtx)
    requires Valid(ctx.View()) && !ctx.terminated
    modifies ctx.b
    ensures ctx.b.slots == old(ctx.b.slots)
    ensures var g := old(ctx.View());
            ctx.b.blocks == Terminate(Emit(g, [Inst.Iconst(g.next, I32, 0)], g.next + 1), ReturnInst(g.next)).blocks
  {
    var zero := ctx.b.Iconst(I32, 0);
    ctx.b.Ins(ReturnInst(zero));
  }

  /** `a` and one more argument. */
  ghost function OneMore(sc: Scope, a: CallArgs, e: Expr): Result<CallArgs> {
    var c :- ExprCode(sc, e, a.next);
    var t :- AbiTypeForArg(sc.layouts, e.ty);
    Ok(CallArgs(a.insts + c.insts, a.vals + [c.val], a.sig + [t], c.next))
  }

  /** `a` in front of the arguments `r`. */
  ghost function InFront(c: Code, t: Ty, r: Result<CallArgs>): Result<CallArgs> {
    var a :- r;
    Ok(CallArgs(c.insts + a.insts, [c.val] + a.vals, [t] + a.sig, a.next))
  }

  lemma {:induction false} OneMoreInFront(sc: Scope, c: Code, t: Ty, a: CallArgs, e: Expr)
    ensures InFront(c, t, OneMore(sc, a, e)) == OneMore(sc, InFront(c, t, Ok(a)).value, e)
  {
    if ExprCode(sc, e, a.next).Ok? && AbiTypeForArg(sc.layouts, e.ty).Ok? {
      var d, u := ExprCode(sc, e, a.next).value, AbiTypeForArg(sc.layouts, e.ty).value;
      assert c.insts + (a.insts + d.insts) == (c.insts + a.insts) + d.insts;
      assert [c.val] + (a.vals + [d.val]) == ([c.val] + a.vals) + [d.val];
      assert [t] + (a.sig + [u]) == ([t] + a.sig) + [u];
    }
  }

  lemma {:induction false} ArgsOne(sc: Scope, e: Expr, n: nat)
    ensures ArgsCode(sc, [e], n) == OneMore(sc, CallArgs([], [], [], n), e)
  {
    if ExprCode(sc, e, n).Ok? && AbiTypeForArg(sc.layouts, e.ty).Ok? {
      var c, t := ExprCode(sc, e, n).value, AbiTypeForArg(sc.layouts, e.ty).value;
      assert [e][1..] == [];
      assert ArgsCode(sc, [e][1..], c.next).value == CallArgs([], [], [], c.next);
      assert ArgsCode(sc, [e], n).value == CallArgs(c.insts + [], [c.val] + [], [t] + [], c.next);
      assert c.insts + [] == [] + c.insts && [c.val] + [] == [] + [c.val] && [t] + [] == [] + [t];
    }
  }

  lemma {:induction false} ArgsSnoc(sc: Scope, args: seq<Expr>, e: Expr, n: nat)
    requires ArgsCode(sc, args, n).Ok?
    ensures ArgsCode(sc, args + [e], n) == OneMore(sc, ArgsCode(sc, args, n).value, e)
    decreases |args|
  {
    if args == [] {
      assert args + [e] == [e];
      ArgsOne(sc, e, n);
    } else {
      assert (args + [e])[1..] == args[1..] + [e];
      var c, t := ExprCode(sc, args[0], n).value, AbiTypeForArg(sc.layouts, args[0].ty).value;
      ArgsSnoc(sc, args[1..], e, c.next);
      OneMoreInFront(sc, c, t, ArgsCode(sc, args[1..], c.next).value, e);
    }
  }

  /** A failing prefix of the arguments makes the whole fail. */
  lemma {:induction false} ArgsPrefix(sc: Scope, args: seq<Expr>, i: nat, n: nat)
    requires i <= |args| && ArgsCode(sc, args[..i], n).Exit?
    ensures ArgsCode(sc, args, n) == ArgsCode(sc, args[..i], n)
    decreases i
  {
    if i > 0 {
      assert args[..i][0] == args[0] && args[..i][1..] == args[1..][..i - 1];
      if ExprCode(sc, args[0], n).Ok? && AbiTypeForArg(sc.layouts, args[0].ty).Ok? {
        ArgsPrefix(sc, args[1..], i - 1, ExprCode(sc, args[0], n).value.next);
      }
    }
  }

  /** Nesting and length of a chain. */
  ghost function Size(s: Stmts): nat {
    match s
    case Nil => 0
    case Cons(h, next) => 1 + SizeOf(h) + Size(next)
  }

  ghost function SizeOf(s: Stmt): nat {
    match s
    case Block(b) => Size(b)
    case If(_, t, e) => Size(t) + Size(e)
    case While(_, b) => Size(b)
    case For(first, _, _, b) => Size(first) + Size(b)
    case Do(b, _) => Size(b)
    case _ => 0
  }
}
