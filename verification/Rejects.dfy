/** Where compilation stops. No code is emitted for an expression with an offending node at any depth,
    and if compiling an expression stops, one of its nodes is the reason. So no function comes out
    whose lowered code has a node that is missing or lacks a name, an unknown variable, string or
    field, the address of something that has none, an unknown size, or one of `&&` and `||`. */
module Rejects {
  import opened Results
  import opened CTypes
  import opened Ast
  import opened SlotTable
  import opened SlotTableCorrect
  import opened DeadCode
  import opened Lowering
  import opened Sema

  /** The part of the node whose address is needed. */
  function Addressed(d: Expr): Option<Expr> {
    match d
    case AddrOf(_, x) => Some(x)
    case Binop(_, op, l, _) => if op.OpAssign? then Some(l) else None
    case Index(_, b, _) => if !b.NullExpr? && IsPointer(b.ty) then None else Some(b)
    case Member(_, b, _, arrow) => if arrow then None else Some(b)
    case _ => None
  }

  /** The node needs the size of a type that has none, or one that is negative as a `long`. */
  predicate Unsized(ls: Layouts, d: Expr) {
    match d
    case Index(_, b, _) =>
      !b.NullExpr? && ((!IsPointer(b.ty) && !IsArray(b.ty)) || TypeSize(ls, IndexedType(b.ty).value).Exit?)
    case Binop(_, op, l, r) =>
      && !l.NullExpr? && !r.NullExpr?
      && if op.OpAssign? then StoreBytes(ls, l.ty).Exit?
         else if IsPointer(l.ty) then op in {OpAdd, OpSub} && !IsPointer(r.ty) && TypeSize(ls, l.ty.to).Exit?
         else op.OpAdd? && IsPointer(r.ty) && TypeSize(ls, r.ty.to).Exit?
    case Call(_, _, args) => UnsizedArgument(ls, args)
    case _ => false
  }

  predicate UnsizedArgument(ls: Layouts, args: seq<Expr>) {
    exists i :: 0 <= i < |args| && !args[i].NullExpr? && AbiTypeForArg(ls, args[i].ty).Exit?
  }

  function SearchedFields(ls: Layouts, d: Expr): seq<Field>
    requires d.Member? && !d.base.NullExpr?
  {
    if d.isArrow then (if d.base.ty.Pointer? then FieldsOf(ls, d.base.ty.to) else []) else FieldsOf(ls, d.base.ty)
  }

  /** The node is missing, or lacks a name that is compared with a name that is there. */
  predicate FollowsNull(sc: Scope, d: Expr) {
    match d
    case NullExpr => true
    case Var(_, x) => x.Null? && sc.table != []
    case StringLit(_, s) => s.Null? && sc.data != []
    case Member(_, b, f, _) => f.Null? && (b.NullExpr? || SearchedFields(sc.layouts, d) != [])
    case Call(_, f, _) => f.Null?
    case _ => false
  }

  /** The node is a reason for the exit `why`. */
  predicate Offends(sc: Scope, d: Expr, why: Failure) {
    match why
    case NullDereference => FollowsNull(sc, d)
    case UndefinedVariable => d.Var? && Find(sc.table, d.name).None?
    case UnknownString => d.StringLit? && d.symbol !in sc.data
    case NotAnLvalue => Addressed(d).Some? && !Addressed(d).value.NullExpr? && !IsLvalueKind(Addressed(d).value)
    case UnsupportedBinop => d.Binop? && (d.op.OpAnd? || d.op.OpOr?)
    case FieldNotFound =>
      && d.Member? && !d.base.NullExpr? && (d.field.Str? || SearchedFields(sc.layouts, d) == [])
      && (match FindField(SearchedFields(sc.layouts, d), d.field)
          case Some(fd) => LongOffset(fd.offset) < 0
          case None => true)
    case SizeofFailed => Unsized(sc.layouts, d)
    case _ => false
  }

  /** The same, or an object of unknown size whose value may be needed. */
  predicate MayStop(sc: Scope, d: Expr, why: Failure) {
    Offends(sc, d, why) || (why.SizeofFailed? && IsLvalueKind(d) && StoreBytes(sc.layouts, d.ty).Exit?)
  }

  ghost predicate NodeLowerable(sc: Scope, d: Expr) {
    forall why :: !Offends(sc, d, why)
  }

  ghost predicate Lowerable(sc: Scope, nodes: set<Expr>) {
    forall d :: d in nodes ==> NodeLowerable(sc, d)
  }

  ghost predicate StopsAt(sc: Scope, nodes: set<Expr>, why: Failure) {
    exists d :: d in nodes && MayStop(sc, d, why)
  }

  lemma {:induction false} LowerableUnion(sc: Scope, a: set<Expr>, b: set<Expr>)
    ensures Lowerable(sc, a + b) <==> Lowerable(sc, a) && Lowerable(sc, b)
  {
    if Lowerable(sc, a + b) {
      forall d | d in a ensures NodeLowerable(sc, d) { assert d in a + b; }
      forall d | d in b ensures NodeLowerable(sc, d) { assert d in a + b; }
    }
  }

  lemma {:induction false} StopsUnion(sc: Scope, a: set<Expr>, b: set<Expr>, why: Failure)
    ensures StopsAt(sc, a + b, why) <==> StopsAt(sc, a, why) || StopsAt(sc, b, why)
  {
    if StopsAt(sc, a, why) {
      var d :| d in a && MayStop(sc, d, why);
      assert d in a + b;
    }
    if StopsAt(sc, b, why) {
      var d :| d in b && MayStop(sc, d, why);
      assert d in a + b;
    }
  }

  /** The nodes of lowered code: those of every chain up to its first ending statement, with the
      variable of an initialised declaration as one of them. */
  function LiveNodes(s: Stmts): set<Expr> {
    match s
    case Nil => {}
    case Cons(h, next) => LiveNodesIn(h) + if Ends(h) then {} else LiveNodes(next)
  }

  function LiveNodesIn(s: Stmt): set<Expr> {
    match s
    case Decl(x, t, e) => if e.NullExpr? then {} else {Var(t, x)} + Nodes(e)
    case Block(b) => LiveNodes(b)
    case If(e, t, f) => Nodes(e) + LiveNodes(t) + LiveNodes(f)
    case While(e, b) => Nodes(e) + LiveNodes(b)
    case For(first, e, post, b) => LiveNodes(first) + OptionalNodes(e) + OptionalNodes(post) + LiveNodes(b)
    case Do(b, e) => LiveNodes(b) + Nodes(e)
    case _ => StmtNodes(s)
  }

  // ----- code means no offending node -----

  lemma {:induction false} OneLowerable(sc: Scope, e: Expr)
    ensures Lowerable(sc, {e}) <==> NodeLowerable(sc, e)
  {
    if Lowerable(sc, {e}) { assert e in {e}; }
  }

  lemma {:induction false} StringKnown(data: seq<CString>, s: CString)
    ensures FindData(data, s).Some? <==> s in data
  {
    if data != [] && data[0] != s {
      StringKnown(data[1..], s);
    }
  }

  lemma {:induction false} LvalLowerable(sc: Scope, e: Expr, n: nat)
    requires LvalCode(sc, e, n).Ok?
    ensures Lowerable(sc, Nodes(e)) && IsLvalueKind(e)
    decreases e, 0
  {
    hide ExprCode, Lowerable, TypeSize, IndexedType, FieldOffset, NodeLowerable;
    OneLowerable(sc, e);
    assert NodeLowerable(sc, e) by { LvalNode(sc, e, n); }
    match e
    case Var(_, _) =>
    case Deref(_, p) => ExprLowerable(sc, p, n); LowerableUnion(sc, {e}, Nodes(p));
    case Index(_, b, i) =>
      if IsPointer(b.ty) { ExprLowerable(sc, b, n); } else { LvalLowerable(sc, b, n); }
      ExprLowerable(sc, i, (if IsPointer(b.ty) then ExprCode(sc, b, n) else LvalCode(sc, b, n)).value.next);
      LowerableUnion(sc, {e} + Nodes(b), Nodes(i));
      LowerableUnion(sc, {e}, Nodes(b));
    case Member(_, b, _, arrow) =>
      if arrow { ExprLowerable(sc, b, n); } else { LvalLowerable(sc, b, n); }
      LowerableUnion(sc, {e}, Nodes(b));
  }

  lemma {:induction false} Subscripted(t: CType)
    ensures IndexedType(t).Ok? <==> IsPointer(t) || IsArray(t)
  {
  }

  lemma {:induction false} LvalNode(sc: Scope, e: Expr, n: nat)
    requires LvalCode(sc, e, n).Ok?
    ensures NodeLowerable(sc, e)
  {
    hide ExprCode, TypeSize, IndexedType;
    if e.Index? { Subscripted(e.base.ty); }
    if (e.Index? && !IsPointer(e.base.ty)) || (e.Member? && !e.isArrow) { LvalKind(sc, e.base, n); }
  }

  lemma {:induction false} LvalKind(sc: Scope, e: Expr, n: nat)
    requires LvalCode(sc, e, n).Ok?
    ensures IsLvalueKind(e)
  {
    hide ExprCode, TypeSize, IndexedType, FieldOffset;
  }

  /** No code is emitted for an expression with an offending node. */
  lemma {:induction false} ExprLowerable(sc: Scope, e: Expr, n: nat)
    requires ExprCode(sc, e, n).Ok?
    ensures Lowerable(sc, Nodes(e))
    decreases e, 2
  {
    hide LvalCode, Lowerable, NodeLowerable, BinopTail, LoadTail;
    match e
    case NullExpr => assert false;
    case IntLit(_, _) => LeafLowerable(sc, e, n);
    case StringLit(_, _) => LeafLowerable(sc, e, n);
    case AddrOf(_, x) => LvalLowerable(sc, x, n); WithOperand(sc, e, x);
    case Binop(_, _, _, _) => BinopLowerable(sc, e, n);
    case Unop(_, _, x) => ExprLowerable(sc, x, n); WithOperand(sc, e, x);
    case Call(_, _, args) => ArgsLowerable(sc, args, n); CallLowerable(sc, e, n);
    case _ => LvalLowerable(sc, e, n);
  }

  lemma {:induction false} LeafLowerable(sc: Scope, e: Expr, n: nat)
    requires (e.IntLit? || e.StringLit?) && ExprCode(sc, e, n).Ok?
    ensures Lowerable(sc, Nodes(e))
  {
    if e.StringLit? { StringKnown(sc.data, e.symbol); }
    OneLowerable(sc, e);
  }

  lemma {:induction false} WithOperand(sc: Scope, e: Expr, x: Expr)
    requires (e.AddrOf? && e.operand == x && IsLvalueKind(x)) || (e.Unop? && e.operand == x)
    requires Lowerable(sc, Nodes(x))
    ensures Lowerable(sc, Nodes(e))
  {
    hide Lowerable;
    OneLowerable(sc, e);
    LowerableUnion(sc, {e}, Nodes(x));
  }

  lemma {:induction false} CallLowerable(sc: Scope, e: Expr, n: nat)
    requires e.Call? && ExprCode(sc, e, n).Ok? && Lowerable(sc, AllNodes(e.args))
    ensures Lowerable(sc, Nodes(e))
  {
    hide Lowerable, AbiTypeForArg, ArgsCode;
    ArgTypes(sc, e.args, n);
    OneLowerable(sc, e);
    LowerableUnion(sc, {e}, AllNodes(e.args));
  }

  lemma {:induction false} ArgTypes(sc: Scope, args: seq<Expr>, n: nat)
    requires ArgsCode(sc, args, n).Ok?
    ensures forall i :: 0 <= i < |args| ==> !args[i].NullExpr? && AbiTypeForArg(sc.layouts, args[i].ty).Ok?
    decreases |args|
  {
    hide AbiTypeForArg, LvalCode;
    if args != [] { ArgTypes(sc, args[1..], ExprCode(sc, args[0], n).value.next); }
  }

  lemma {:induction false} BinopLowerable(sc: Scope, e: Expr, n: nat)
    requires e.Binop? && ExprCode(sc, e, n).Ok?
    ensures Lowerable(sc, Nodes(e))
    decreases e, 1
  {
    hide LvalCode, Lowerable, NodeLowerable, BinopTail, NarrowToStore;
    if e.op.OpAssign? { LvalLowerable(sc, e.lhs, n); } else { ExprLowerable(sc, e.lhs, n); }
    var a := (if e.op.OpAssign? then LvalCode(sc, e.lhs, n) else ExprCode(sc, e.lhs, n)).value;
    ExprLowerable(sc, e.rhs, a.next);
    var b := ExprCode(sc, e.rhs, a.next).value;
    OperatorLowerable(sc, e, a.val, b.val, b.next);
    OneLowerable(sc, e);
    LowerableUnion(sc, {e} + Nodes(e.lhs), Nodes(e.rhs));
    LowerableUnion(sc, {e}, Nodes(e.lhs));
  }

  lemma {:induction false} OperatorLowerable(sc: Scope, e: Expr, l: nat, r: nat, n: nat)
    requires e.Binop? && !e.lhs.NullExpr? && !e.rhs.NullExpr? && (e.op.OpAssign? ==> IsLvalueKind(e.lhs))
    requires if e.op.OpAssign? then NarrowToStore(sc.layouts, r, e.lhs.ty, n).Ok?
             else BinopTail(sc.layouts, e.op, e.lhs.ty, e.rhs.ty, l, r, n).Ok?
    ensures NodeLowerable(sc, e)
  {
    hide TypeSize, StoreBytes;
  }

  lemma {:induction false} ArgsLowerable(sc: Scope, args: seq<Expr>, n: nat)
    requires ArgsCode(sc, args, n).Ok?
    ensures Lowerable(sc, AllNodes(args))
    decreases args, 0
  {
    hide ExprCode, NodeLowerable;
    if args != [] {
      ExprLowerable(sc, args[0], n);
      ArgsLowerable(sc, args[1..], ExprCode(sc, args[0], n).value.next);
      LowerableUnion(sc, Nodes(args[0]), AllNodes(args[1..]));
    }
  }

  // ----- an exit means an offending node -----

  lemma {:induction false} OneStops(sc: Scope, d: Expr, nodes: set<Expr>, why: Failure)
    requires d in nodes && MayStop(sc, d, why)
    ensures StopsAt(sc, nodes, why)
  {
  }

  lemma {:induction false} SizeExits(ls: Layouts, t: CType)
    ensures TypeSize(ls, t).Exit? ==> TypeSize(ls, t) == Exit(SizeofFailed)
    ensures StoreBytes(ls, t).Exit? ==> StoreBytes(ls, t) == Exit(SizeofFailed)
    ensures IndexedType(t).Exit? ==> IndexedType(t) == Exit(SizeofFailed)
    ensures AbiTypeForArg(ls, t).Exit? ==> AbiTypeForArg(ls, t) == Exit(SizeofFailed)
  {
  }

  /** If an address cannot be computed, some node is the reason, or the expression has no address. */
  lemma {:induction false} LvalStops(sc: Scope, e: Expr, n: nat, why: Failure)
    requires LvalCode(sc, e, n) == Exit(why)
    ensures StopsAt(sc, Nodes(e), why) || (why.NotAnLvalue? && !e.NullExpr? && !IsLvalueKind(e))
    decreases e, 0
  {
    hide ExprCode, LvalCode, StopsAt, MayStop;
    match e
    case Deref(_, p) =>
      assert ExprCode(sc, p, n) == Exit(why) by { LeafLvalStops(sc, e, n, why); }
      ExprStops(sc, p, n, why);
      StopsUnion(sc, {e}, Nodes(p), why);
    case Index(_, b, i) =>
      StopsUnion(sc, {e} + Nodes(b), Nodes(i), why);
      StopsUnion(sc, {e}, Nodes(b), why);
      IndexStops(sc, e, n, why);
      if b.NullExpr? {
        OneStops(sc, b, Nodes(b), why);
      } else if IndexBase(sc, b, n).Exit? {
        if IsPointer(b.ty) { ExprStops(sc, b, n, why); } else { BaseStops(sc, e, b, n, why); }
      } else if MayStop(sc, e, why) {
        OneStops(sc, e, {e}, why);
      } else {
        ExprStops(sc, i, IndexBase(sc, b, n).value.next, why);
      }
    case Member(_, b, _, arrow) =>
      StopsUnion(sc, {e}, Nodes(b), why);
      MemberStops(sc, e, n, why);
      if b.NullExpr? {
        OneStops(sc, b, Nodes(b), why);
      } else if MayStop(sc, e, why) {
        OneStops(sc, e, {e}, why);
      } else {
        if arrow { ExprStops(sc, b, n, why); } else { BaseStops(sc, e, b, n, why); }
      }
    case _ =>
      LeafLvalStops(sc, e, n, why);
      if MayStop(sc, e, why) { OneStops(sc, e, Nodes(e), why); }
  }

  /** A base whose address is needed. */
  lemma {:induction false} BaseStops(sc: Scope, e: Expr, b: Expr, n: nat, why: Failure)
    requires Addressed(e) == Some(b) && (e.Index? || e.Member?) && e.base == b && LvalCode(sc, b, n) == Exit(why)
    ensures StopsAt(sc, {e}, why) || StopsAt(sc, Nodes(b), why)
    decreases b, 1
  {
    hide LvalCode, StopsAt;
    LvalStops(sc, b, n, why);
    if !StopsAt(sc, Nodes(b), why) { OneStops(sc, e, {e}, why); }
  }

  lemma {:induction false} LeafLvalStops(sc: Scope, e: Expr, n: nat, why: Failure)
    requires !e.Index? && !e.Member? && LvalCode(sc, e, n) == Exit(why)
    ensures if e.Deref? then ExprCode(sc, e.operand, n) == Exit(why)
            else MayStop(sc, e, why) || (why.NotAnLvalue? && !e.NullExpr? && !IsLvalueKind(e))
  {
    hide ExprCode;
  }

  /** The base address of an index expression. */
  function IndexBase(sc: Scope, b: Expr, n: nat): Result<Code>
    requires !b.NullExpr?
  {
    if IsPointer(b.ty) then ExprCode(sc, b, n) else LvalCode(sc, b, n)
  }

  lemma {:induction false} IndexStops(sc: Scope, e: Expr, n: nat, why: Failure)
    requires e.Index? && LvalCode(sc, e, n) == Exit(why)
    ensures if e.base.NullExpr? then MayStop(sc, e.base, why)
            else if IndexBase(sc, e.base, n).Exit? then IndexBase(sc, e.base, n) == Exit(why)
            else MayStop(sc, e, why) || ExprCode(sc, e.index, IndexBase(sc, e.base, n).value.next) == Exit(why)
  {
    hide ExprCode, TypeSize, IndexedType;
    if !e.base.NullExpr? {
      SizeExits(sc.layouts, e.base.ty);
      Subscripted(e.base.ty);
      if IndexedType(e.base.ty).Ok? { SizeExits(sc.layouts, IndexedType(e.base.ty).value); }
    }
  }

  lemma {:induction false} MemberStops(sc: Scope, e: Expr, n: nat, why: Failure)
    requires e.Member? && LvalCode(sc, e, n) == Exit(why)
    ensures if e.base.NullExpr? then MayStop(sc, e.base, why)
            else MayStop(sc, e, why) || (if e.isArrow then ExprCode(sc, e.base, n) else LvalCode(sc, e.base, n)) == Exit(why)
  {
    hide ExprCode;
  }

  /** If compiling an expression stops, one of its nodes is the reason. */
  lemma {:induction false} ExprStops(sc: Scope, e: Expr, n: nat, why: Failure)
    requires ExprCode(sc, e, n) == Exit(why)
    ensures StopsAt(sc, Nodes(e), why)
    decreases e, 2
  {
    hide ExprCode, LvalCode, StopsAt, MayStop;
    ExprNodeStops(sc, e, n, why);
    match e
    case AddrOf(_, x) =>
      StopsUnion(sc, {e}, Nodes(x), why);
      LvalStops(sc, x, n, why);
      if !StopsAt(sc, Nodes(x), why) { AddressStops(sc, e, why); }
    case Binop(_, _, _, _) => BinopStops(sc, e, n, why);
    case Unop(_, _, x) => ExprStops(sc, x, n, why); StopsUnion(sc, {e}, Nodes(x), why);
    case Call(_, _, args) =>
      StopsUnion(sc, {e}, AllNodes(args), why);
      if !MayStop(sc, e, why) { ArgsStop(sc, args, n, why); }
      if !StopsAt(sc, AllNodes(args), why) {
        assert MayStop(sc, e, why) by { ArgumentStops(sc, e, why); }
        OneStops(sc, e, {e}, why);
      }
    case _ =>
      if MayStop(sc, e, why) { OneStops(sc, e, Nodes(e), why); } else { LvalStops(sc, e, n, why); }
  }

  lemma {:induction false} ArgumentStops(sc: Scope, e: Expr, why: Failure)
    requires e.Call? && (MayStop(sc, e, why) || (why.SizeofFailed? && UnsizedArgument(sc.layouts, e.args)))
    ensures MayStop(sc, e, why)
  {
  }

  lemma {:induction false} AddressStops(sc: Scope, e: Expr, why: Failure)
    requires Addressed(e).Some? && why.NotAnLvalue? && !Addressed(e).value.NullExpr? && !IsLvalueKind(Addressed(e).value)
    ensures StopsAt(sc, {e}, why)
  {
    OneStops(sc, e, {e}, why);
  }

  /** What can stop the code of one node, apart from a two-operand one. */
  lemma {:induction false} ExprNodeStops(sc: Scope, e: Expr, n: nat, why: Failure)
    requires ExprCode(sc, e, n) == Exit(why)
    ensures match e
            case AddrOf(_, x) => LvalCode(sc, x, n) == Exit(why)
            case Binop(_, _, _, _) => true
            case Unop(_, _, x) => ExprCode(sc, x, n) == Exit(why)
            case Call(_, _, args) => MayStop(sc, e, why) || ArgsCode(sc, args, n) == Exit(why)
            case _ => MayStop(sc, e, why) || (IsLvalueKind(e) && LvalCode(sc, e, n) == Exit(why))
  {
    hide LvalCode, ArgsCode, StoreBytes, AbiTypeForArg;
    match e
    case StringLit(_, s) => StringKnown(sc.data, s);
    case Var(_, _) => SizeExits(sc.layouts, e.ty);
    case Deref(_, _) => SizeExits(sc.layouts, e.ty);
    case Index(_, _, _) => SizeExits(sc.layouts, e.ty);
    case Member(_, _, _, _) => SizeExits(sc.layouts, e.ty);
    case _ =>
  }

  lemma {:induction false} ArgsStop(sc: Scope, args: seq<Expr>, n: nat, why: Failure)
    requires ArgsCode(sc, args, n) == Exit(why)
    ensures StopsAt(sc, AllNodes(args), why) || (why.SizeofFailed? && UnsizedArgument(sc.layouts, args))
    decreases args, 1
  {
    hide ExprCode, StopsAt, AbiTypeForArg;
    StopsUnion(sc, Nodes(args[0]), AllNodes(args[1..]), why);
    if ExprCode(sc, args[0], n).Exit? {
      ExprStops(sc, args[0], n, why);
    } else {
      NullStops(sc, n);
      SizeExits(sc.layouts, args[0].ty);
      if AbiTypeForArg(sc.layouts, args[0].ty).Ok? { LaterArgsStop(sc, args, n, why); }
    }
  }

  lemma {:induction false} LaterArgsStop(sc: Scope, args: seq<Expr>, n: nat, why: Failure)
    requires args != [] && ExprCode(sc, args[0], n).Ok? && ArgsCode(sc, args[1..], ExprCode(sc, args[0], n).value.next) == Exit(why)
    ensures StopsAt(sc, AllNodes(args[1..]), why) || (why.SizeofFailed? && UnsizedArgument(sc.layouts, args))
    decreases args, 0
  {
    hide ExprCode, StopsAt, AbiTypeForArg;
    var rest := args[1..];
    ArgsStop(sc, rest, ExprCode(sc, args[0], n).value.next, why);
    if UnsizedArgument(sc.layouts, rest) {
      var i :| 0 <= i < |rest| && !rest[i].NullExpr? && AbiTypeForArg(sc.layouts, rest[i].ty).Exit?;
      assert args[i + 1] == rest[i];
    }
  }

  lemma {:induction false} BinopStops(sc: Scope, e: Expr, n: nat, why: Failure)
    requires e.Binop? && ExprCode(sc, e, n) == Exit(why)
    ensures StopsAt(sc, Nodes(e), why)
    decreases e, 1
  {
    hide ExprCode, LvalCode, StopsAt, MayStop;
    StopsUnion(sc, {e} + Nodes(e.lhs), Nodes(e.rhs), why);
    StopsUnion(sc, {e}, Nodes(e.lhs), why);
    OperandsStop(sc, e, n, why);
    var a := if e.op.OpAssign? then LvalCode(sc, e.lhs, n) else ExprCode(sc, e.lhs, n);
    if a.Exit? {
      if e.op.OpAssign? {
        LvalStops(sc, e.lhs, n, why);
        if !StopsAt(sc, Nodes(e.lhs), why) { AddressStops(sc, e, why); }
      } else {
        ExprStops(sc, e.lhs, n, why);
      }
    } else if ExprCode(sc, e.rhs, a.value.next).Exit? {
      ExprStops(sc, e.rhs, a.value.next, why);
    } else {
      OneStops(sc, e, {e}, why);
    }
  }

  lemma {:induction false} OperandsStop(sc: Scope, e: Expr, n: nat, why: Failure)
    requires e.Binop? && ExprCode(sc, e, n) == Exit(why)
    ensures var a := if e.op.OpAssign? then LvalCode(sc, e.lhs, n) else ExprCode(sc, e.lhs, n);
            if a.Exit? then a == Exit(why)
            else if ExprCode(sc, e.rhs, a.value.next).Exit? then ExprCode(sc, e.rhs, a.value.next) == Exit(why)
            else MayStop(sc, e, why)
  {
    hide LvalCode, MayStop, BinopTail, NarrowToStore;
    var a := if e.op.OpAssign? then LvalCode(sc, e.lhs, n) else ExprCode(sc, e.lhs, n);
    if a.Ok? && ExprCode(sc, e.rhs, a.value.next).Ok? {
      var b := ExprCode(sc, e.rhs, a.value.next).value;
      assert !e.rhs.NullExpr?;
      assert !e.lhs.NullExpr? by { NullStops(sc, n); }
      TailStops(sc, e, a.value.val, b.val, b.next, why);
    }
  }

  lemma {:induction false} NullStops(sc: Scope, n: nat)
    ensures LvalCode(sc, NullExpr, n).Exit? && ExprCode(sc, NullExpr, n).Exit?
  {
  }

  lemma {:induction false} TailStops(sc: Scope, e: Expr, l: nat, r: nat, n: nat, why: Failure)
    requires e.Binop? && !e.lhs.NullExpr? && !e.rhs.NullExpr?
    requires if e.op.OpAssign? then NarrowToStore(sc.layouts, r, e.lhs.ty, n) == Exit(why)
             else BinopTail(sc.layouts, e.op, e.lhs.ty, e.rhs.ty, l, r, n) == Exit(why)
    ensures MayStop(sc, e, why)
  {
    hide TypeSize, StoreBytes;
    SizeExits(sc.layouts, e.lhs.ty);
    if IsPointer(e.lhs.ty) { SizeExits(sc.layouts, e.lhs.ty.to); }
    if IsPointer(e.rhs.ty) { SizeExits(sc.layouts, e.rhs.ty.to); }
  }

  // ----- chains -----

  lemma {:induction false} TestLowerable(sc: Scope, g: State, e: Expr)
    requires EmitExpr(sc, g, e).Ok?
    ensures Lowerable(sc, Nodes(e))
  {
    hide ExprCode;
    ExprLowerable(sc, e, g.next);
  }

  /** A chain is lowered only if all nodes of its live part have code. */
  lemma {:induction false} StmtsLowerable(sc: Scope, g: State, s: Stmts)
    requires !g.terminated && LowerStmts(sc, g, s).Ok?
    ensures Lowerable(sc, LiveNodes(s))
    decreases s, 0
  {
    hide LowerStmt, Lowerable;
    NothingLowerable(sc);
    if s.Cons? {
      StmtLowerable(sc, g, s.head);
      TerminatedExactlyStmt(sc, g, s.head);
      if !Ends(s.head) { StmtsLowerable(sc, LowerStmt(sc, g, s.head).value, s.next); }
      LowerableUnion(sc, LiveNodesIn(s.head), if Ends(s.head) then {} else LiveNodes(s.next));
    }
  }

  lemma {:induction false} NothingLowerable(sc: Scope)
    ensures Lowerable(sc, {})
  {
  }

  lemma {:induction false} StmtLowerable(sc: Scope, g: State, s: Stmt)
    requires !g.terminated && LowerStmt(sc, g, s).Ok?
    ensures Lowerable(sc, LiveNodesIn(s))
    decreases s, 5
  {
    hide ExprCode, EmitExpr, LowerIf, LowerWhile, LowerForLoop, LowerDo, LowerStmts, LowerInit, Lowerable, Nodes;
    NothingLowerable(sc);
    match s
    case Return(e) => TestLowerable(sc, g, e);
    case Eval(e) => TestLowerable(sc, g, e);
    case Decl(x, t, e) => if !e.NullExpr? { InitLowerable(sc, g, x, t, e); }
    case Block(b) => StmtsLowerable(sc, g, b);
    case If(e, t, f) => IfLowerable(sc, g, e, t, f);
    case While(e, b) => WhileLowerable(sc, g, e, b);
    case For(first, e, post, b) => ForLowerable(sc, g, first, e, post, b);
    case Do(b, e) => DoLowerable(sc, g, b, e);
    case _ =>
  }

  lemma {:induction false} InitLowerable(sc: Scope, g: State, x: CString, t: CType, e: Expr)
    requires LowerInit(sc, g, x, t, e).Ok?
    ensures Lowerable(sc, {Var(t, x)} + Nodes(e))
  {
    hide ExprCode, NarrowToStore, Lowerable;
    ExprLowerable(sc, e, g.next);
    OneLowerable(sc, Var(t, x));
    LowerableUnion(sc, {Var(t, x)}, Nodes(e));
  }

  lemma {:induction false} IfLowerable(sc: Scope, g: State, e: Expr, t: Stmts, f: Stmts)
    requires !g.terminated && LowerIf(sc, g, e, t, f).Ok?
    ensures Lowerable(sc, LiveNodesIn(If(e, t, f)))
    decreases If(e, t, f), 4
  {
    hide EmitExpr, LowerStmts, LiveNodes, Nodes, Lowerable, FallTo;
    var k, g2 := |g.blocks|, LowerIfTest(sc, g, e, f.Cons?).value;
    TestLowerable(sc, g, e);
    StmtsLowerable(sc, SwitchTo(g2, k), t);
    if f.Cons? {
      ElseLowerable(sc, k, LowerStmts(sc, SwitchTo(g2, k), t).value, f);
    } else {
      NilLowerable(sc);
    }
    LowerableUnion(sc, Nodes(e) + LiveNodes(t), LiveNodes(f));
    LowerableUnion(sc, Nodes(e), LiveNodes(t));
  }

  lemma {:induction false} NilLowerable(sc: Scope)
    ensures Lowerable(sc, LiveNodes(Nil))
  {
  }

  lemma {:induction false} ElseLowerable(sc: Scope, k: nat, g: State, f: Stmts)
    requires LowerElse(sc, k, g, f).Ok?
    ensures Lowerable(sc, LiveNodes(f))
    decreases f, 1
  {
    hide LowerStmts, FallTo, Lowerable, LiveNodes;
    StmtsLowerable(sc, SwitchTo(FallTo(g, k + 2), k + 1), f);
  }

  lemma {:induction false} WhileLowerable(sc: Scope, g: State, e: Expr, b: Stmts)
    requires LowerWhile(sc, g, e, b).Ok?
    ensures Lowerable(sc, Nodes(e) + LiveNodes(b))
    decreases b, 4
  {
    hide EmitExpr, EnterBlocks, LowerStmts, LiveNodes, Nodes, Lowerable;
    var k := |g.blocks|;
    var g1 := EnterBlocks(g, 3, k);
    TestLowerable(sc, g1, e);
    StmtsLowerable(sc, SwitchTo(InLoop(EmitBranch(sc, g1, e, k + 1, k + 2).value, k + 2, k), k + 1), b);
    LowerableUnion(sc, Nodes(e), LiveNodes(b));
  }

  lemma {:induction false} OptionalLowerable(sc: Scope, g: State, e: Expr, t: nat, f: nat)
    requires LowerForTest(sc, g, e, t, f).Ok? || LowerForPost(sc, g, e, t).Ok?
    ensures Lowerable(sc, OptionalNodes(e))
  {
    hide EmitExpr, Nodes;
    if !e.NullExpr? { TestLowerable(sc, g, e); }
  }

  lemma {:induction false} ForLowerable(sc: Scope, g: State, first: Stmts, e: Expr, post: Expr, b: Stmts)
    requires !g.terminated && LowerStmt(sc, g, For(first, e, post, b)).Ok?
    ensures Lowerable(sc, LiveNodesIn(For(first, e, post, b)))
    decreases For(first, e, post, b), 4
  {
    hide LowerStmts, LowerForLoop, LiveNodes, OptionalNodes, Lowerable;
    StmtsLowerable(sc, g, first);
    ForLoopLowerable(sc, LowerStmts(sc, g, first).value, e, post, b);
    LowerableUnion(sc, LiveNodes(first) + OptionalNodes(e) + OptionalNodes(post), LiveNodes(b));
    LowerableUnion(sc, LiveNodes(first) + OptionalNodes(e), OptionalNodes(post));
    LowerableUnion(sc, LiveNodes(first), OptionalNodes(e));
  }

  lemma {:induction false} ForLoopLowerable(sc: Scope, g: State, e: Expr, post: Expr, b: Stmts)
    requires LowerForLoop(sc, g, e, post, b).Ok?
    ensures Lowerable(sc, OptionalNodes(e)) && Lowerable(sc, OptionalNodes(post)) && Lowerable(sc, LiveNodes(b))
    decreases b, 4
  {
    hide LowerStmts, EnterBlocks, LowerForTest, LowerForPost, LeaveBody, LiveNodes, OptionalNodes, Lowerable;
    var k := |g.blocks|;
    var g1 := EnterBlocks(g, 4, k);
    OptionalLowerable(sc, g1, e, k + 2, k + 3);
    var gb := SwitchTo(InLoop(LowerForTest(sc, g1, e, k + 2, k + 3).value, k + 3, k + 1), k + 2);
    StmtsLowerable(sc, gb, b);
    OptionalLowerable(sc, SwitchTo(LeaveBody(LowerStmts(sc, gb, b).value, k + 1, g), k + 1), post, k, k);
  }

  lemma {:induction false} DoLowerable(sc: Scope, g: State, b: Stmts, e: Expr)
    requires LowerDo(sc, g, b, e).Ok?
    ensures Lowerable(sc, LiveNodes(b) + Nodes(e))
    decreases b, 4
  {
    hide EmitExpr, EnterBlocks, LowerStmts, LiveNodes, LeaveBody, Nodes, Lowerable;
    var k := |g.blocks|;
    var gb := InLoop(EnterBlocks(g, 3, k), k + 2, k + 1);
    assert !gb.terminated by { EnteredOpen(g, 3, k); }
    StmtsLowerable(sc, gb, b);
    TestLowerable(sc, SwitchTo(LeaveBody(LowerStmts(sc, gb, b).value, k + 1, g), k + 1), e);
    LowerableUnion(sc, LiveNodes(b), Nodes(e));
  }

  lemma {:induction false} EnteredOpen(g: State, count: nat, target: nat)
    ensures !EnterBlocks(g, count, target).terminated
  {
  }

  // ----- functions -----

  /** No function comes out of the compiler whose lowered code has an offending node. Its variables
      are parameters or declared somewhere in the body, at any depth. */
  lemma {:induction false} FunctionLowerable(ls: Layouts, data: seq<CString>, f: Func)
    requires EmitFunction(ls, data, f).Ok?
    ensures var l := CollectLocals(ls, f.params, Locals([], []), f.body);
            l.Ok? && Lowerable(Scope(ls, l.value.table, data), LiveNodes(f.body))
    ensures forall d :: d in LiveNodes(f.body) ==>
              NodePresent(d) && (d.Call? ==> d.callee.Str?) && (d.Var? ==> d.name in ParamNames(f.params) + Declared(f.body))
  {
    hide LowerStmts, CollectLocals, StoreParams, ParamTypes, LiveNodes, Lowerable, Declared, ParamNames;
    var l := CollectLocals(ls, f.params, Locals([], []), f.body).value;
    var sc, n := Scope(ls, l.table, data), |f.params|;
    var stores := StoreParams(l.table, f.params, 0, n).value;
    StmtsLowerable(sc, State([stores], 0, n + n, None, None, false), f.body);
    CollectExtends(ls, f.params, Locals([], []), f.body);
    forall d | d in LiveNodes(f.body)
      ensures NodePresent(d) && (d.Call? ==> d.callee.Str?) && (d.Var? ==> d.name in ParamNames(f.params) + Declared(f.body))
    {
      NodeComplete(sc, LiveNodes(f.body), d);
      if d.Var? { FindIsFirst(l.table, d.name); }
    }
  }

  /** A node without a reason to stop is there and has its names. */
  lemma {:induction false} NodeComplete(sc: Scope, nodes: set<Expr>, d: Expr)
    requires Lowerable(sc, nodes) && d in nodes
    ensures NodePresent(d) && (d.Call? ==> d.callee.Str?) && (d.Var? ==> Find(sc.table, d.name).Some?)
  {
    assert NodeLowerable(sc, d);
    assert !Offends(sc, d, NullDereference) && !Offends(sc, d, UndefinedVariable);
    assert !Offends(sc, d, UnknownString) && !Offends(sc, d, FieldNotFound);
  }
}
