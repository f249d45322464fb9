/** Objects inside stack slots: where a nested path of fields and array elements lies, why it
    stays inside the slot of its variable, and why different objects do not overlap. */
module Places {
  import opened Results
  import opened Words
  import opened CTypes
  import opened ByteMemory
  import opened Ast
  import opened Clif
  import opened SlotTable
  import opened SlotTableCorrect
  import opened CSemantics
  import opened Lowering
  import opened WellTyped
  import opened ExprCorrect
  import opened FuncCorrect
  import opened ObjectMemory

  datatype Step = FieldStep(name: CString) | ElemStep(i: int)

  /** A part of an object: its offset and type. */
  datatype Part = Part(offset: int, ty: CType)

  function StepFrom(ls: Layouts, t: CType, s: Step): Option<Part> {
    match s
    case FieldStep(f) =>
      (match FindField(FieldsOf(ls, t), f)
       case Some(fd) => Some(Part(fd.offset, fd.ty))
       case None => None)
    case ElemStep(i) =>
      if t.ConstantArray? && 0 <= i < t.count && ByteSize(ls, t.elem).Some?
      then Some(Part(i * ByteSize(ls, t.elem).value, t.elem)) else None
  }

  /** The part of an object of type `t` that a path selects; an index must be in range. */
  function Resolve(ls: Layouts, t: CType, path: seq<Step>): Option<Part>
    decreases |path|
  {
    if path == [] then Some(Part(0, t)) else
    match StepFrom(ls, t, path[0])
    case None => None
    case Some(p) =>
      match Resolve(ls, p.ty, path[1..])
      case None => None
      case Some(q) => Some(Part(p.offset + q.offset, q.ty))
  }

  ghost predicate FieldsApart(ls: Layouts, a: Field, b: Field) {
    && ByteSize(ls, a.ty).Some? && ByteSize(ls, b.ty).Some?
    && (a.offset + ByteSize(ls, a.ty).value <= b.offset || b.offset + ByteSize(ls, b.ty).value <= a.offset)
  }

  ghost predicate FieldInside(ls: Layouts, fd: Field, size: nat) {
    ByteSize(ls, fd.ty).Some? && fd.offset + ByteSize(ls, fd.ty).value <= size
  }

  ghost predicate ConsistentRecord(ls: Layouts, r: RecordLayout) {
    && (forall i :: 0 <= i < |r.fields| ==> FieldInside(ls, r.fields[i], r.size))
    && (forall i, j :: 0 <= i < j < |r.fields| ==> FieldsApart(ls, r.fields[i], r.fields[j]))
  }

  /** What a front end guarantees of structures: fields lie inside and do not overlap. */
  ghost predicate Consistent(ls: Layouts) {
    forall tag :: tag in ls ==> ConsistentRecord(ls, ls[tag])
  }

  ghost predicate DistinctFields(fields: seq<Field>) {
    forall i, j :: 0 <= i < j < |fields| ==> fields[i].name != fields[j].name
  }

  /** Every field of a record, the last one too, is found at its own offset, if that is below the
      limit; any offset counts modulo 2^29, and the upper half of that range as a missing field. */
  lemma {:induction false} FieldOffsetFound(ls: Layouts, tag: string, i: nat)
    requires tag in ls && i < |ls[tag].fields| && DistinctFields(ls[tag].fields) && ls[tag].fields[i].name.Str?
    ensures var fd := ls[tag].fields[i];
            && FieldOffset(ls, Some(Record(tag)), fd.name) ==
               (if fd.offset % 0x2000_0000 < OFFSET_LIMIT then Ok(fd.offset % 0x2000_0000) else Exit(FieldNotFound))
            && (fd.offset < OFFSET_LIMIT ==> FieldOffset(ls, Some(Record(tag)), fd.name) == Ok(fd.offset))
            && StepFrom(ls, Record(tag), FieldStep(fd.name)) == Some(Part(fd.offset, fd.ty))
  {
    hide LongOffset;
    FindFieldIsFirst(ls[tag].fields, ls[tag].fields[i].name);
    LongOffsetExactly(ls[tag].fields[i].offset);
  }

  /** The compiler reports a missing field exactly if no field has the name. */
  lemma {:induction false} FieldMissingExactly(ls: Layouts, tag: string, f: CString)
    requires tag in ls && f.Str?
    requires forall i :: 0 <= i < |ls[tag].fields| ==> ls[tag].fields[i].offset < OFFSET_LIMIT
    ensures FieldOffset(ls, Some(Record(tag)), f) == Exit(FieldNotFound) <==>
            forall i :: 0 <= i < |ls[tag].fields| ==> ls[tag].fields[i].name != f
  {
    hide LongOffset;
    var fields := ls[tag].fields;
    FindFieldIsFirst(fields, f);
    if FindField(fields, f).Some? {
      var i := FindFieldIndex(fields, f);
      LongOffsetExactly(fields[i].offset);
    }
  }

  /** Element `i` of an array of records lies after `i` whole records, and the array has no other
      elements and no other bytes. */
  lemma {:induction false} RecordArray(ls: Layouts, tag: string, n: nat, i: int)
    requires tag in ls
    ensures var t := ConstantArray(Record(tag), n);
            && ByteSize(ls, t) == Some(n * ls[tag].size)
            && Resolve(ls, t, [ElemStep(i)]) == if 0 <= i < n then Some(Part(i * ls[tag].size, Record(tag))) else None
  {
    var t := ConstantArray(Record(tag), n);
    assert ByteSize(ls, Record(tag)) == Some(ls[tag].size);
    assert [ElemStep(i)][1..] == [];
    assert Resolve(ls, Record(tag), []) == Some(Part(0, Record(tag)));
  }

  lemma {:induction false} FindFieldIndex(fields: seq<Field>, f: CString) returns (i: nat)
    requires FindField(fields, f).Some?
    ensures i < |fields| && fields[i] == FindField(fields, f).value && fields[i].name == f
  {
    if fields[0].name == f {
      i := 0;
    } else {
      i := FindFieldIndex(fields[1..], f);
      i := i + 1;
    }
  }

  lemma {:induction false} MulMonotone(a: nat, b: nat, size: nat)
    requires a <= b
    ensures a * size <= b * size
    decreases b
  {
    if a < b {
      MulMonotone(a, b - 1, size);
      assert b * size == (b - 1) * size + size;
    }
  }

  lemma {:induction false} ElementInside(i: int, n: nat, size: nat)
    requires 0 <= i < n
    ensures 0 <= i * size && i * size + size <= n * size
  {
    MulMonotone(i + 1, n, size);
    MulMonotone(0, i, size);
    assert (i + 1) * size == i * size + size;
  }

  /** One step stays inside the object. */
  lemma {:induction false} StepInside(ls: Layouts, t: CType, s: Step)
    requires Consistent(ls) && StepFrom(ls, t, s).Some?
    ensures var p := StepFrom(ls, t, s).value;
            && ByteSize(ls, t).Some? && ByteSize(ls, p.ty).Some?
            && 0 <= p.offset && p.offset + ByteSize(ls, p.ty).value <= ByteSize(ls, t).value
  {
    match s
    case FieldStep(f) =>
      var i := FindFieldIndex(FieldsOf(ls, t), f);
      assert FieldInside(ls, ls[t.tag].fields[i], ls[t.tag].size);
    case ElemStep(i) => ElementInside(i, t.count, ByteSize(ls, t.elem).value);
  }

  /** A path of any depth stays inside its root. */
  lemma {:induction false} PathInside(ls: Layouts, t: CType, path: seq<Step>)
    requires Consistent(ls) && ByteSize(ls, t).Some? && Resolve(ls, t, path).Some?
    ensures var p := Resolve(ls, t, path).value;
            ByteSize(ls, p.ty).Some? && 0 <= p.offset && p.offset + ByteSize(ls, p.ty).value <= ByteSize(ls, t).value
    decreases |path|
  {
    if path != [] {
      StepInside(ls, t, path[0]);
      PathInside(ls, StepFrom(ls, t, path[0]).value.ty, path[1..]);
    }
  }

  /** The paths part ways: neither selects a part of what the other selects. */
  predicate Diverge(p: seq<Step>, q: seq<Step>)
    decreases |p|
  {
    p != [] && q != [] && (p[0] != q[0] || Diverge(p[1..], q[1..]))
  }

  ghost predicate PartsApart(ls: Layouts, p: Part, q: Part) {
    && ByteSize(ls, p.ty).Some? && ByteSize(ls, q.ty).Some?
    && (p.offset + ByteSize(ls, p.ty).value <= q.offset || q.offset + ByteSize(ls, q.ty).value <= p.offset)
  }

  lemma {:induction false} StepsApart(ls: Layouts, t: CType, a: Step, b: Step)
    requires Consistent(ls) && StepFrom(ls, t, a).Some? && StepFrom(ls, t, b).Some? && a != b
    ensures PartsApart(ls, StepFrom(ls, t, a).value, StepFrom(ls, t, b).value)
  {
    if a.FieldStep? {
      var fields := FieldsOf(ls, t);
      var i := FindFieldIndex(fields, a.name);
      var j := FindFieldIndex(fields, b.name);
      assert ConsistentRecord(ls, ls[t.tag]);
      assert i < j || j < i;
      assert i < j ==> FieldsApart(ls, fields[i], fields[j]);
      assert j < i ==> FieldsApart(ls, fields[j], fields[i]);
    } else {
      var size := ByteSize(ls, t.elem).value;
      if a.i < b.i {
        ElementInside(a.i, b.i, size);
      } else {
        ElementInside(b.i, a.i, size);
      }
    }
  }

  /** Diverging paths select parts that do not overlap. */
  lemma {:induction false} PathsApart(ls: Layouts, t: CType, p: seq<Step>, q: seq<Step>)
    requires Consistent(ls) && Resolve(ls, t, p).Some? && Resolve(ls, t, q).Some? && Diverge(p, q)
    ensures PartsApart(ls, Resolve(ls, t, p).value, Resolve(ls, t, q).value)
    decreases |p|
  {
    var a, b := StepFrom(ls, t, p[0]).value, StepFrom(ls, t, q[0]).value;
    StepInside(ls, t, p[0]);
    StepInside(ls, t, q[0]);
    if p[0] != q[0] {
      StepsApart(ls, t, p[0], q[0]);
      PathInside(ls, a.ty, p[1..]);
      PathInside(ls, b.ty, q[1..]);
    } else {
      PathsApart(ls, a.ty, p[1..], q[1..]);
    }
  }

  lemma {:induction false} ResolveSnoc(ls: Layouts, t: CType, path: seq<Step>, s: Step)
    ensures Resolve(ls, t, path + [s]) ==
            match Resolve(ls, t, path)
            case None => None
            case Some(p) => (match StepFrom(ls, p.ty, s) case None => None case Some(q) => Some(Part(p.offset + q.offset, q.ty)))
    decreases |path|
  {
    if path == [] {
      assert [] + [s] == [s];
    } else if StepFrom(ls, t, path[0]).Some? {
      assert (path + [s])[0] == path[0] && (path + [s])[1..] == path[1..] + [s];
      ResolveSnoc(ls, StepFrom(ls, t, path[0]).value.ty, path[1..], s);
    }
  }

  // ----- lvalue expressions as paths -----

  /** A variable, a path into it, and the state after the index expressions have run. */
  datatype Access = Access(root: CString, path: seq<Step>, mem: Memory, tr: Trace)

  /** What an lvalue made of a variable, `.field` and `[i]` accesses; indices are evaluated. */
  ghost function AccessOf(c: CEnv, e: Expr, m: Memory, tr: Trace): Option<Access> {
    match e
    case Var(_, x) => Some(Access(x, [], m, tr))
    case Index(_, arr, ix) =>
      if arr.NullExpr? || !IsArray(arr.ty) || AccessOf(c, arr, m, tr).None? then None else
      var a := AccessOf(c, arr, m, tr).value;
      (match Rval(c, ix, a.mem, a.tr)
       case Val(i, m', tr') => Some(Access(a.root, a.path + [ElemStep(i)], m', tr'))
       case _ => None)
    case Member(_, b, f, arrow) =>
      if b.NullExpr? || arrow || AccessOf(c, b, m, tr).None? then None else
      var a := AccessOf(c, b, m, tr).value;
      Some(a.(path := a.path + [FieldStep(f)]))
    case _ => None
  }

  lemma {:induction false} WrapPlus(a: int, b: int)
    ensures Wrap64(Wrap64(a) + b) == Wrap64(a + b)
  {
    var q := a / SPACE;
    assert Wrap64(a) + b == (a + b) + (-q) * SPACE;
    ModShift(a + b, -q, SPACE);
  }

  /** The part an lvalue selects, if its indices are in range. */
  ghost function PartOf(te: TypeEnv, c: CEnv, e: Expr, m: Memory, tr: Trace): Option<Part> {
    match AccessOf(c, e, m, tr)
    case Some(a) => if a.root in te.vars then Resolve(te.layouts, te.vars[a.root], a.path) else None
    case None => None
  }

  /** The address an lvalue designates is that of its variable plus the offset of its path. */
  lemma {:induction false} LvalIsPart(te: TypeEnv, c: CEnv, e: Expr, m: Memory, tr: Trace)
    requires te.layouts == c.layouts && TypedLvalue(te, e) && te.vars.Keys <= c.vars.Keys
    requires PartOf(te, c, e, m, tr).Some?
    ensures var a, p := AccessOf(c, e, m, tr).value, PartOf(te, c, e, m, tr).value;
            Lval(c, e, m, tr) == Val(Wrap64(c.vars[a.root] + p.offset), a.mem, a.tr) && p.ty == e.ty
    decreases e, 1
  {
    hide Typed, TypedValue, Rval, Resolve;
    match e
    case Var(_, x) => RootPart(te, x);
    case Index(_, arr, _) =>
      ElementIsPart(te, c, e, m, tr);
    case Member(_, b, _, _) =>
      FieldIsPart(te, c, e, m, tr);
  }

  lemma {:induction false} ElementIsPart(te: TypeEnv, c: CEnv, e: Expr, m: Memory, tr: Trace)
    requires te.layouts == c.layouts && TypedLvalue(te, e) && te.vars.Keys <= c.vars.Keys
    requires PartOf(te, c, e, m, tr).Some? && e.Index?
    ensures var a, p := AccessOf(c, e, m, tr).value, PartOf(te, c, e, m, tr).value;
            Lval(c, e, m, tr) == Val(Wrap64(c.vars[a.root] + p.offset), a.mem, a.tr) && p.ty == e.ty
    decreases e, 0
  {
    hide Typed, TypedValue, Rval, Resolve, Wrap64;
    var arr := e.base;
    var a := AccessOf(c, arr, m, tr).value;
    var i := Rval(c, e.index, a.mem, a.tr).v;
    ResolveSnoc(te.layouts, te.vars[a.root], a.path, ElemStep(i));
    LvalIsPart(te, c, arr, m, tr);
    WrapPlus(c.vars[a.root] + PartOf(te, c, arr, m, tr).value.offset, i * ByteSize(te.layouts, e.ty).value);
  }

  lemma {:induction false} FieldIsPart(te: TypeEnv, c: CEnv, e: Expr, m: Memory, tr: Trace)
    requires te.layouts == c.layouts && TypedLvalue(te, e) && te.vars.Keys <= c.vars.Keys
    requires PartOf(te, c, e, m, tr).Some? && e.Member?
    ensures var a, p := AccessOf(c, e, m, tr).value, PartOf(te, c, e, m, tr).value;
            Lval(c, e, m, tr) == Val(Wrap64(c.vars[a.root] + p.offset), a.mem, a.tr) && p.ty == e.ty
    decreases e, 0
  {
    hide Typed, TypedValue, Rval, Resolve, Wrap64, FindField, FieldsOf, TypeSize;
    var b, f := e.base, e.field;
    var a := AccessOf(c, b, m, tr).value;
    ResolveSnoc(te.layouts, te.vars[a.root], a.path, FieldStep(f));
    LvalIsPart(te, c, b, m, tr);
    WrapPlus(c.vars[a.root] + PartOf(te, c, b, m, tr).value.offset, FindField(FieldsOf(te.layouts, b.ty), f).value.offset);
  }

  lemma {:induction false} RootPart(te: TypeEnv, x: CString)
    requires x in te.vars
    ensures Resolve(te.layouts, te.vars[x], []) == Some(Part(0, te.vars[x]))
  {
  }

  // ----- slots -----

  /** Every entry names a variable, has its type, and owns a slot of the size of that type. */
  ghost predicate EntrySized(te: TypeEnv, slots: seq<nat>, b: LocalBinding) {
    b.name in te.vars && te.vars[b.name] == b.ty && b.slot < |slots| && SlotSize(te.layouts, b.ty) == Ok(slots[b.slot])
  }

  ghost predicate TableSized(te: TypeEnv, l: Locals) {
    forall i :: 0 <= i < |l.table| ==> EntrySized(te, l.slots, l.table[i])
  }

  lemma {:induction false} AddSized(te: TypeEnv, l: Locals, x: CString, t: CType)
    requires TableSized(te, l) && x in te.vars && te.vars[x] == t && AddLocal(te.layouts, l, x, t).Ok?
    ensures TableSized(te, AddLocal(te.layouts, l, x, t).value)
  {
    var l' := AddLocal(te.layouts, l, x, t).value;
    forall i | 0 <= i < |l'.table|
      ensures EntrySized(te, l'.slots, l'.table[i])
    {
      if i < |l.table| { assert EntrySized(te, l.slots, l.table[i]); }
    }
  }

  lemma {:induction false} AddParamsSized(te: TypeEnv, l: Locals, params: seq<Param>)
    requires TableSized(te, l) && TypedParams(te, params) && AddParams(te.layouts, l, params).Ok?
    ensures TableSized(te, AddParams(te.layouts, l, params).value)
    decreases |params|
  {
    if params != [] {
      AddSized(te, l, params[0].name, params[0].ty);
      AddParamsSized(te, AddLocal(te.layouts, l, params[0].name, params[0].ty).value, params[1..]);
    }
  }

  /** The pre-pass gives every entry a slot of its type's size. */
  lemma {:induction false} CollectSized(te: TypeEnv, params: seq<Param>, l: Locals, s: Stmts, inLoop: bool)
    requires TableSized(te, l) && TypedParams(te, params) && TypedStmts(te, s, inLoop) && CollectLocals(te.layouts, params, l, s).Ok?
    ensures TableSized(te, CollectLocals(te.layouts, params, l, s).value)
    decreases s, 1
  {
    AddParamsSized(te, l, params);
    CollectChainSized(te, params, AddParams(te.layouts, l, params).value, s, inLoop);
  }

  lemma {:induction false} CollectChainSized(te: TypeEnv, params: seq<Param>, l: Locals, s: Stmts, inLoop: bool)
    requires TableSized(te, l) && TypedParams(te, params) && TypedStmts(te, s, inLoop) && CollectChain(te.layouts, params, l, s).Ok?
    ensures TableSized(te, CollectChain(te.layouts, params, l, s).value)
    decreases s, 0
  {
    hide TableSized, TypedParams;
    if s.Cons? {
      CollectStmtSized(te, params, l, s.head, inLoop);
      CollectChainSized(te, params, CollectStmt(te.layouts, params, l, s.head).value, s.next, inLoop);
    }
  }

  lemma {:induction false} CollectStmtSized(te: TypeEnv, params: seq<Param>, l: Locals, s: Stmt, inLoop: bool)
    requires TableSized(te, l) && TypedParams(te, params) && TypedStmt(te, s, inLoop) && CollectStmt(te.layouts, params, l, s).Ok?
    ensures TableSized(te, CollectStmt(te.layouts, params, l, s).value)
    decreases s, 0
  {
    hide TableSized, TypedParams, CollectLocals;
    match s
    case Decl(x, t, _) => if Find(l.table, x).None? { AddSized(te, l, x, t); }
    case Block(b) => CollectSized(te, params, l, b, inLoop);
    case If(_, t, e) =>
      CollectSized(te, params, l, t, inLoop);
      CollectSized(te, params, CollectLocals(te.layouts, params, l, t).value, e, inLoop);
    case While(_, b) => CollectSized(te, params, l, b, true);
    case For(first, _, _, b) =>
      CollectSized(te, params, l, first, inLoop);
      CollectSized(te, params, CollectLocals(te.layouts, params, l, first).value, b, true);
    case Do(b, _) => CollectSized(te, params, l, b, true);
    case _ =>
  }

  /** The frame keeps the slots apart, and no slot wraps around the address space. */
  ghost predicate FrameApart(w: World, slots: seq<nat>) {
    && (forall i :: 0 <= i < |slots| ==> 0 <= w.frame(i) <= SPACE - slots[i])
    && (forall i, j :: 0 <= i < |slots| && 0 <= j < |slots| && i != j ==> Apart(w.frame(i), slots[i], w.frame(j), slots[j]))
  }

  ghost predicate Homed(te: TypeEnv, c: CEnv, x: CString) {
    && x in te.vars && x in c.vars && SlotSize(te.layouts, te.vars[x]).Ok?
    && 0 <= c.vars[x] <= SPACE - SlotSize(te.layouts, te.vars[x]).value
  }

  /** Every variable has storage of its slot's size, apart from that of every other. */
  ghost predicate Laid(te: TypeEnv, c: CEnv) {
    && (forall x :: x in te.vars ==> Homed(te, c, x))
    && (forall x, y :: x in te.vars && y in te.vars && x != y ==> HomesApart(te, c, x, y))
  }

  ghost predicate HomesApart(te: TypeEnv, c: CEnv, x: CString, y: CString) {
    && Homed(te, c, x) && Homed(te, c, y)
    && Apart(c.vars[x], SlotSize(te.layouts, te.vars[x]).value, c.vars[y], SlotSize(te.layouts, te.vars[y]).value)
  }

  /** The slot table lays the variables out: each in a slot of its size, no two in one slot. */
  lemma {:induction false} TableLaysOut(te: TypeEnv, f: Func, c: CEnv, w: World)
    requires TypedFunc(te, f) && Closed(te, f) && Table(te, f).Ok? && Placed(te, Table(te, f).value.table, c, w)
    requires FrameApart(w, Table(te, f).value.slots)
    ensures Laid(te, c)
  {
    hide TypedFunc, Closed, FrameApart, Apart, EntrySized;
    var l := Table(te, f).value;
    SlotsSized(te, f);
    forall x | x in te.vars
      ensures Homed(te, c, x)
    {
      SlotOf(te, f, x);
      InFrame(te, c, w, l, x);
    }
    forall x, y | x in te.vars && y in te.vars && x != y
      ensures HomesApart(te, c, x, y)
    {
      SlotOf(te, f, x);
      SlotOf(te, f, y);
      InFrame(te, c, w, l, x);
      InFrame(te, c, w, l, y);
      DistinctSlots(l, x, y);
      InFrameApart(te, c, w, l, x, y);
    }
  }

  lemma {:induction false} SlotsSized(te: TypeEnv, f: Func)
    requires TypedFunc(te, f) && Table(te, f).Ok?
    ensures TableSized(te, Table(te, f).value) && SlotsMatch(Table(te, f).value)
  {
    CollectSized(te, f.params, Locals([], []), f.body, false);
    CollectExtends(te.layouts, f.params, Locals([], []), f.body);
  }

  ghost predicate Slotted(te: TypeEnv, l: Locals, x: CString) {
    Find(l.table, x).Some? && Find(l.table, x).value.name == x && EntrySized(te, l.slots, Find(l.table, x).value)
  }

  lemma {:induction false} SlotOf(te: TypeEnv, f: Func, x: CString)
    requires Closed(te, f) && Table(te, f).Ok? && TableSized(te, Table(te, f).value) && x in te.vars
    ensures Slotted(te, Table(te, f).value, x)
  {
    hide CollectLocals, EntrySized;
    TableResolves(te, f, x);
    FindIsFirst(Table(te, f).value.table, x);
  }

  lemma {:induction false} InFrame(te: TypeEnv, c: CEnv, w: World, l: Locals, x: CString)
    requires Placed(te, l.table, c, w) && FrameApart(w, l.slots) && x in te.vars && Slotted(te, l, x)
    ensures Homed(te, c, x)
  {
  }

  lemma {:induction false} InFrameApart(te: TypeEnv, c: CEnv, w: World, l: Locals, x: CString, y: CString)
    requires Placed(te, l.table, c, w) && FrameApart(w, l.slots) && Homed(te, c, x) && Homed(te, c, y)
    requires Slotted(te, l, x) && Slotted(te, l, y) && Find(l.table, x).value.slot != Find(l.table, y).value.slot
    ensures HomesApart(te, c, x, y)
  {
  }

  /** Objects of at most this size have slots that hold them. */
  const MAX_OBJECT: int := 0x7fff_fff8

  predicate Fits(ls: Layouts, t: CType) {
    ByteSize(ls, t).Some? && ByteSize(ls, t).value <= MAX_OBJECT
  }

  lemma {:induction false} CutTo(n: int, r: int)
    requires InRange(I32, r) && (n == r || n == r + 0x1_0000_0000)
    ensures Wrap32(n) == r
  {
    SignedEncode(I32, r);
    ModCongruent(n, r, if n == r then 0 else 1, 0x1_0000_0000);
  }

  lemma {:induction false} TypeSizeRange(ls: Layouts, t: CType)
    requires TypeSize(ls, t).Ok?
    ensures TypeSize(ls, t).value < LONG_LIMIT
  {
  }

  /** Rounding up happens in a `long`: it is right up to `MAX_OBJECT`, and the least slot after that. */
  lemma {:induction false} SlotRounds(ls: Layouts, t: CType)
    requires TypeSize(ls, t).Ok?
    ensures var s, slot := TypeSize(ls, t).value, SlotSize(ls, t);
            && slot.Ok? && 8 <= slot.value <= MAX_OBJECT && slot.value % 8 == 0 && (s <= slot.value <==> s <= MAX_OBJECT)
            && (slot.value == 8 || slot.value < s + 8)
  {
    hide Wrap32;
    var s := TypeSize(ls, t).value;
    TypeSizeRange(ls, t);
    CutTo(s + 7, if s <= MAX_OBJECT then s + 7 else s + 7 - 0x1_0000_0000);
  }

  /** A slot is big enough for its variable exactly if the size, rounded up, fits a `long`: a
      greater size is cut, and then no slot can hold it. */
  lemma {:induction false} SlotHoldsExactly(ls: Layouts, t: CType)
    requires SlotSize(ls, t).Ok?
    ensures ByteSize(ls, t).Some?
    ensures ByteSize(ls, t).value <= SlotSize(ls, t).value <==> Fits(ls, t)
    ensures 8 <= SlotSize(ls, t).value && SlotSize(ls, t).value % 8 == 0
    ensures Fits(ls, t) ==> SlotSize(ls, t).value == 8 || SlotSize(ls, t).value < ByteSize(ls, t).value + 8
  {
    hide SlotSize;
    SlotSizeNeedsSize(ls, t);
    TypeSizeExactly(ls, t);
    SlotRounds(ls, t);
  }

  lemma {:induction false} SlotSizeNeedsSize(ls: Layouts, t: CType)
    requires SlotSize(ls, t).Ok?
    ensures TypeSize(ls, t).Ok?
  {
  }

  /** `char a[4294967305];` gets a slot of 16 bytes, although its element 16 is in range;
      `char a[2147483647];` gets one of 8, and `char a[2147483648];` stops the compiler. */
  lemma {:induction false} BigArrayOverflows(ls: Layouts)
    ensures var t := ConstantArray(Char(true), 0x1_0000_0009);
            && CollectLocals(ls, [], Locals([], []), Cons(Decl(Str("a"), t, NullExpr), Nil)) == Ok(Locals([LocalBinding(Str("a"), t, 0)], [16]))
            && Resolve(ls, t, [ElemStep(16)]) == Some(Part(16, Char(true)))
    ensures SlotSize(ls, ConstantArray(Char(true), 0x7fff_ffff)) == Ok(8)
    ensures SlotSize(ls, ConstantArray(Char(true), 0x8000_0000)) == Exit(SizeofFailed)
  {
    hide SlotSize, TypeSize;
    BigArraySizes(ls);
    var t := ConstantArray(Char(true), 0x1_0000_0009);
    assert ByteSize(ls, t) == Some(0x1_0000_0009);
    var d := Decl(Str("a"), t, NullExpr);
    assert LocalLookup([], Str("a")) == Ok(None);
    assert AddLocal(ls, Locals([], []), Str("a"), t) == Ok(Locals([] + [LocalBinding(Str("a"), t, 0)], [] + [16]));
    assert [] + [LocalBinding(Str("a"), t, 0)] == [LocalBinding(Str("a"), t, 0)] && [] + [16] == [16];
    assert CollectStmt(ls, [], Locals([], []), d) == Ok(Locals([LocalBinding(Str("a"), t, 0)], [16]));
    assert CollectChain(ls, [], Locals([], []), Cons(d, Nil)) == Ok(Locals([LocalBinding(Str("a"), t, 0)], [16]));
    assert StepFrom(ls, t, ElemStep(16)) == Some(Part(16, Char(true)));
    assert Resolve(ls, Char(true), []) == Some(Part(0, Char(true)));
    assert [ElemStep(16)][1..] == [];
  }

  lemma {:induction false} BigArraySizes(ls: Layouts)
    ensures SlotSize(ls, ConstantArray(Char(true), 0x1_0000_0009)) == Ok(16)
    ensures SlotSize(ls, ConstantArray(Char(true), 0x7fff_ffff)) == Ok(8)
    ensures SlotSize(ls, ConstantArray(Char(true), 0x8000_0000)) == Exit(SizeofFailed)
  {
    hide SlotSize, Wrap32;
    CutTo(0x1_0000_0009, 9);
    CutTo(16, 16);
    CharArraySlot(ls, 0x1_0000_0009);
    CutTo(0x7fff_ffff, 0x7fff_ffff);
    CutTo(0x8000_0006, -0x7fff_fffa);
    CharArraySlot(ls, 0x7fff_ffff);
    CutTo(0x8000_0000, -0x8000_0000);
    CharArraySlot(ls, 0x8000_0000);
  }

  lemma {:induction false} CharArraySlot(ls: Layouts, n: nat)
    ensures SlotSize(ls, ConstantArray(Char(true), n)) ==
            if Wrap32(n) < 0 then Exit(SizeofFailed)
            else var aligned := Wrap32(Wrap32(n) + 7) / 8 * 8; Ok(if aligned < 8 then 8 else aligned)
  {
    hide Wrap32;
    assert ByteSize(ls, ConstantArray(Char(true), n)) == Some(n);
  }

  /** Every variable fits its slot. */
  ghost predicate AllFit(te: TypeEnv) {
    forall x :: x in te.vars ==> Fits(te.layouts, te.vars[x])
  }

  /** The machine address that an lvalue is lowered to, its index expressions included, lies with
      all bytes of the selected part inside the slot of its variable. */
  lemma {:induction false} TableAccessInSlot(te: TypeEnv, sc: Scope, c: CEnv, w: World, l: Locals, e: Expr, n: nat, s: Mach)
    requires Agree(te, sc, c, w) && sc.table == l.table && TableSized(te, l) && AllFit(te) && Consistent(te.layouts)
    requires TypedLvalue(te, e) && LvalCode(sc, e, n).Ok? && PartOf(te, c, e, s.mem, s.tr).Some?
    ensures var a, p := AccessOf(c, e, s.mem, s.tr).value, PartOf(te, c, e, s.mem, s.tr).value;
            var b, k := Find(l.table, a.root), LvalCode(sc, e, n).value;
            && b.Some? && b.value.slot < |l.slots| && ByteSize(te.layouts, e.ty).Some?
            && 0 <= p.offset && p.offset + ByteSize(te.layouts, e.ty).value <= l.slots[b.value.slot]
            && Delivers(w, k.insts, k.val, n, s, Val(Wrap64(w.frame(b.value.slot) + p.offset), a.mem, a.tr), I64)
  {
    hide TypedLvalue, LvalCode, Delivers, AccessOf, Agree, Resolve, TableSized, AllFit, Consistent, ByteSize, Lval;
    var a := AccessOf(c, e, s.mem, s.tr).value;
    RootInSlot(te, sc, c, w, l, a.root, a.path);
    AgreeCovers(te, sc, c, w);
    LvalIsPart(te, c, e, s.mem, s.tr);
    LvalCorrect(te, sc, c, w, e, n, s);
  }

  lemma {:induction false} AgreeCovers(te: TypeEnv, sc: Scope, c: CEnv, w: World)
    requires Agree(te, sc, c, w)
    ensures te.vars.Keys <= c.vars.Keys && te.layouts == c.layouts
  {
    forall x | x in te.vars
      ensures x in c.vars
    {
      assert BoundAlike(sc, c, w, x);
    }
  }

  lemma {:induction false} RootInSlot(te: TypeEnv, sc: Scope, c: CEnv, w: World, l: Locals, x: CString, path: seq<Step>)
    requires Agree(te, sc, c, w) && sc.table == l.table && TableSized(te, l) && AllFit(te) && Consistent(te.layouts)
    requires x in te.vars && Resolve(te.layouts, te.vars[x], path).Some?
    ensures var b, p := Find(l.table, x), Resolve(te.layouts, te.vars[x], path).value;
            && b.Some? && b.value.slot < |l.slots| && ByteSize(te.layouts, p.ty).Some?
            && 0 <= p.offset && p.offset + ByteSize(te.layouts, p.ty).value <= l.slots[b.value.slot]
            && x in c.vars && c.vars[x] == w.frame(b.value.slot)
  {
    hide Resolve;
    assert BoundAlike(sc, c, w, x);
    FindIsFirst(l.table, x);
    assert EntrySized(te, l.slots, Find(l.table, x).value);
    SlotHoldsExactly(te.layouts, te.vars[x]);
    PathInside(te.layouts, te.vars[x], path);
  }

  // ----- what one store leaves alone -----

  /** The value of the scalar part that a path selects in variable `x`. */
  ghost function ReadPart(te: TypeEnv, c: CEnv, m: Memory, x: CString, p: Part): int
    requires x in c.vars
  {
    ReadTyped(m, Wrap64(c.vars[x] + p.offset), p.ty)
  }

  /** A scalar part of a variable. */
  ghost predicate ScalarPart(te: TypeEnv, x: CString, path: seq<Step>) {
    x in te.vars && Resolve(te.layouts, te.vars[x], path).Some? && IsScalar(Resolve(te.layouts, te.vars[x], path).value.ty)
  }

  ghost function Selected(te: TypeEnv, x: CString, path: seq<Step>): Part
    requires ScalarPart(te, x, path)
  {
    Resolve(te.layouts, te.vars[x], path).value
  }

  lemma {:induction false} ScalarInSlot(te: TypeEnv, c: CEnv, x: CString, path: seq<Step>)
    requires Laid(te, c) && AllFit(te) && Consistent(te.layouts) && ScalarPart(te, x, path)
    ensures var p := Selected(te, x, path);
            && Homed(te, c, x) && ByteSize(te.layouts, p.ty) == Some(Bytes(MemoryType(p.ty)))
            && 0 <= p.offset && p.offset + Bytes(MemoryType(p.ty)) <= SlotSize(te.layouts, te.vars[x]).value
            && Wrap64(c.vars[x] + p.offset) == c.vars[x] + p.offset
  {
    hide SlotSize, Resolve, Fits, Consistent;
    assert Homed(te, c, x);
    assert Fits(te.layouts, te.vars[x]);
    SlotHoldsExactly(te.layouts, te.vars[x]);
    PathInside(te.layouts, te.vars[x], path);
    var p := Selected(te, x, path);
    ModUnique(c.vars[x] + p.offset, 0, c.vars[x] + p.offset, SPACE);
  }

  /** Storing to one scalar part of a variable changes that part to the converted value and no
      part of another variable, and no part of the same variable on a diverging path. */
  lemma {:induction false} StoreChangesOnePart(te: TypeEnv, c: CEnv, m: Memory, x: CString, p: seq<Step>, v: int, y: CString, q: seq<Step>)
    requires Laid(te, c) && AllFit(te) && Consistent(te.layouts) && ScalarPart(te, x, p) && ScalarPart(te, y, q)
    ensures x in c.vars && y in c.vars
    ensures var a, b := Selected(te, x, p), Selected(te, y, q);
            var m' := WriteTyped(m, Wrap64(c.vars[x] + a.offset), a.ty, v);
            && ReadPart(te, c, m', x, a) == Convert(a.ty, v)
            && (x != y || Diverge(p, q) ==> ReadPart(te, c, m', y, b) == ReadPart(te, c, m, y, b))
  {
    hide Laid, ReadTyped, WriteTyped, Convert, Wrap64, Resolve, SlotSize;
    ScalarInSlot(te, c, x, p);
    ScalarInSlot(te, c, y, q);
    var a, b := Selected(te, x, p), Selected(te, y, q);
    ReadBack(m, c.vars[x] + a.offset, a.ty, v);
    if x != y {
      LaidApart(te, c, x, y);
      ReadElsewhere(m, c.vars[x] + a.offset, a.ty, v, c.vars[y] + b.offset, b.ty);
    } else if Diverge(p, q) {
      PathsApart(te.layouts, te.vars[x], p, q);
      ReadElsewhere(m, c.vars[x] + a.offset, a.ty, v, c.vars[y] + b.offset, b.ty);
    }
  }

  lemma {:induction false} LaidApart(te: TypeEnv, c: CEnv, x: CString, y: CString)
    requires Laid(te, c) && x in te.vars && y in te.vars && x != y
    ensures HomesApart(te, c, x, y)
  {
  }

  lemma {:induction false} LaidCovers(te: TypeEnv, c: CEnv)
    requires Laid(te, c)
    ensures te.vars.Keys <= c.vars.Keys
  {
    forall x | x in te.vars
      ensures x in c.vars
    {
      assert Homed(te, c, x);
    }
  }

  lemma {:induction false} TypedPresent(te: TypeEnv, l: Expr)
    requires TypedLvalue(te, l)
    ensures !l.NullExpr?
  {
  }

  lemma {:induction false} AssignValue(c: CEnv, l: Expr, r: Expr, m: Memory, tr: Trace)
    requires !l.NullExpr? && Lval(c, l, m, tr).Val?
    ensures var a := Lval(c, l, m, tr);
            var v := Rval(c, r, a.mem, a.tr);
            Rval(c, Binop(l.ty, OpAssign, l, r), m, tr) ==
            if v.Val? then Val(Convert(l.ty, v.v), WriteTyped(v.mem, a.v, l.ty, v.v), v.tr) else v
  {
    hide Lval, Convert, WriteTyped;
  }

  /** An assignment through a nested path. After it, the target reads as the right-hand side
      converted to its type, which is also the value of the assignment, and every other scalar
      part reads as it did when the right-hand side had been evaluated. */
  lemma {:induction false} AssignmentChangesOnePart(te: TypeEnv, c: CEnv, l: Expr, r: Expr, m: Memory, tr: Trace, y: CString, q: seq<Step>)
    requires Laid(te, c) && AllFit(te) && Consistent(te.layouts) && te.layouts == c.layouts && TypedLvalue(te, l)
    requires PartOf(te, c, l, m, tr).Some? && IsScalar(l.ty) && ScalarPart(te, y, q)
    ensures var a, e := AccessOf(c, l, m, tr).value, Binop(l.ty, OpAssign, l, r);
            var rhs, done := Rval(c, r, a.mem, a.tr), Rval(c, e, m, tr);
            && ScalarPart(te, a.root, a.path) && a.root in c.vars && y in c.vars
            && (done.Val? <==> rhs.Val?)
            && (done.Val? ==>
                  && done.v == Convert(l.ty, rhs.v) == ReadPart(te, c, done.mem, a.root, Selected(te, a.root, a.path))
                  && (a.root != y || Diverge(a.path, q) ==>
                        ReadPart(te, c, done.mem, y, Selected(te, y, q)) == ReadPart(te, c, rhs.mem, y, Selected(te, y, q))))
  {
    hide TypedLvalue, AccessOf, ReadTyped, WriteTyped, Convert, Wrap64, Resolve, Laid, AllFit, Consistent, Rval, Lval;
    var a := AccessOf(c, l, m, tr).value;
    LaidCovers(te, c);
    TypedPresent(te, l);
    LvalIsPart(te, c, l, m, tr);
    AssignValue(c, l, r, m, tr);
    var rhs := Rval(c, r, a.mem, a.tr);
    if rhs.Val? {
      StoreChangesOnePart(te, c, rhs.mem, a.root, a.path, rhs.v, y, q);
    }
  }

  /** An initialised declaration changes its variable to the converted value, and no other. */
  lemma {:induction false} InitChangesOneVariable(te: TypeEnv, c: CEnv, fuel: nat, x: CString, t: CType, e: Expr, m: Memory, tr: Trace, y: CString, q: seq<Step>)
    requires Laid(te, c) && AllFit(te) && Consistent(te.layouts) && x in te.vars && te.vars[x] == t && IsScalar(t) && !e.NullExpr?
    requires ScalarPart(te, y, q) && Rval(c, e, m, tr).Val?
    ensures var r, o := Rval(c, e, m, tr), ExecStmt(c, fuel, Decl(x, t, e), m, tr);
            && o.Normal? && o.tr == r.tr && x in c.vars && y in c.vars
            && ReadPart(te, c, o.mem, x, Part(0, t)) == Convert(t, r.v)
            && (x != y ==> ReadPart(te, c, o.mem, y, Selected(te, y, q)) == ReadPart(te, c, r.mem, y, Selected(te, y, q)))
  {
    hide ReadTyped, WriteTyped, Convert, Wrap64, Resolve, Rval;
    RootPart(te, x);
    StoreChangesOnePart(te, c, Rval(c, e, m, tr).mem, x, [], Rval(c, e, m, tr).v, y, q);
  }

  // ----- parameters -----

  /** After parameter passing every parameter reads as its argument converted to its type. */
  lemma {:induction false} ParamsArrive(te: TypeEnv, c: CEnv, params: seq<Param>, args: seq<int>, i: nat, m: Memory, k: nat)
    requires Laid(te, c) && TypedParams(te, params) && |args| == |params| && k < |params|
    requires forall a, b :: 0 <= a < b < |params| ==> params[a].name != params[b].name
    ensures params[k].name in c.vars
    ensures var m' := BindParams(c, params, args, i, m);
            var x, t := Wrap64(c.vars[params[k].name]), params[k].ty;
            ReadTyped(m', x, t) == if i <= k then Convert(t, args[k]) else ReadTyped(m, x, t)
    decreases |params| - i
  {
    hide ReadTyped, Convert, StoreLE, Wrap64, Laid, Encode;
    ParamsHomed(te, c, params, k);
    if i < |params| {
      ParamsHomed(te, c, params, i);
      var w := Encode(ValueType(params[i].ty), args[i]);
      var m1 := StoreLE(m, Wrap64(c.vars[params[i].name]), Bytes(w.ty), w.bits);
      ParamsArrive(te, c, params, args, i + 1, m1, k);
      if i == k {
        NarrowParamReads(m, Wrap64(c.vars[params[i].name]), params[i].ty, args[i]);
      } else {
        assert params[i].name != params[k].name;
        StoredElsewhere(te, c, m, params[i], w, params[k]);
      }
    }
  }

  lemma {:induction false} ParamsHomed(te: TypeEnv, c: CEnv, params: seq<Param>, i: nat)
    requires Laid(te, c) && TypedParams(te, params) && i < |params|
    ensures Homed(te, c, params[i].name) && te.vars[params[i].name] == params[i].ty && IsScalar(params[i].ty)
  {
  }

  lemma {:induction false} ScalarSlot(ls: Layouts, t: CType)
    requires IsScalar(t)
    ensures SlotSize(ls, t) == Ok(8)
  {
    hide Wrap32;
    TypeSizeExactly(ls, t);
    var s := ByteSize(ls, t).value;
    CutTo(s + 7, s + 7);
  }

  lemma {:induction false} StoredElsewhere(te: TypeEnv, c: CEnv, m: Memory, p: Param, w: Word, q: Param)
    requires Laid(te, c) && Homed(te, c, p.name) && Homed(te, c, q.name) && p.name != q.name
    requires te.vars[p.name] == p.ty && te.vars[q.name] == q.ty && IsScalar(p.ty) && IsScalar(q.ty)
    ensures ReadTyped(StoreLE(m, Wrap64(c.vars[p.name]), Bytes(w.ty), w.bits), Wrap64(c.vars[q.name]), q.ty) ==
            ReadTyped(m, Wrap64(c.vars[q.name]), q.ty)
  {
    hide SlotSize, LoadLE, StoreLE, Convert, Laid;
    var a, b := c.vars[p.name], c.vars[q.name];
    LaidApart(te, c, p.name, q.name);
    ScalarSlot(te.layouts, p.ty);
    ScalarSlot(te.layouts, q.ty);
    ModUnique(a, 0, a, SPACE);
    ModUnique(b, 0, b, SPACE);
    LoadApart(m, a, Bytes(w.ty), w.bits, b, Bytes(MemoryType(q.ty)));
  }
}
