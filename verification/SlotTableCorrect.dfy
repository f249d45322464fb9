/** The slot table after the pre-pass: complete, stable, and exactly as full as the program's
    shape says. */
module SlotTableCorrect {
  import opened Results
  import opened CTypes
  import opened Ast
  import opened SlotTable

  ghost function Names(table: seq<LocalBinding>): set<CString> {
    set b | b in table :: b.name
  }

  ghost function ParamNames(params: seq<Param>): set<CString> {
    set p | p in params :: p.name
  }

  /** The names declared at any depth of a chain. */
  function Declared(s: Stmts): set<CString> {
    match s
    case Nil => {}
    case Cons(h, next) => DeclaredIn(h) + Declared(next)
  }

  function DeclaredIn(s: Stmt): set<CString> {
    match s
    case Decl(x, _, _) => {x}
    case Block(b) => Declared(b)
    case If(_, t, e) => Declared(t) + Declared(e)
    case While(_, b) => Declared(b)
    case For(first, _, _, b) => Declared(first) + Declared(b)
    case Do(b, _) => Declared(b)
    case _ => {}
  }

  /** How often the pre-pass is invoked on a chain: once, and once for every nested chain,
      missing else branches and missing `for` clauses included. */
  function Invocations(s: Stmts): nat
    decreases s, 1
  {
    1 + NestedInvocations(s)
  }

  function NestedInvocations(s: Stmts): nat
    decreases s, 0
  {
    match s
    case Nil => 0
    case Cons(h, next) => InvocationsIn(h) + NestedInvocations(next)
  }

  function InvocationsIn(s: Stmt): nat
    decreases s, 0
  {
    match s
    case Block(b) => Invocations(b)
    case If(_, t, e) => Invocations(t) + Invocations(e)
    case While(_, b) => Invocations(b)
    case For(first, _, _, b) => Invocations(first) + Invocations(b)
    case Do(b, _) => Invocations(b)
    case _ => 0
  }

  /** Every slot is the one created for its entry, so distinct entries have distinct slots. */
  ghost predicate SlotsMatch(l: Locals) {
    |l.table| == |l.slots| <= MAX_LOCALS && forall i :: 0 <= i < |l.table| ==> l.table[i].slot == i
  }

  /** `l'` only added entries to `l`, each with its own slot. */
  ghost predicate Extends(l: Locals, l': Locals) {
    l.table <= l'.table && l.slots <= l'.slots && SlotsMatch(l')
  }

  lemma {:induction false} FindIsFirst(table: seq<LocalBinding>, name: CString)
    ensures Find(table, name).None? <==> name !in Names(table)
    ensures Find(table, name).Some? ==>
              exists i :: 0 <= i < |table| && table[i] == Find(table, name).value && table[i].name == name &&
                          forall j :: 0 <= j < i ==> table[j].name != name
  {
    if table != [] {
      var rest := table[1..];
      FindIsFirst(rest, name);
      assert Names(table) == {table[0].name} + Names(rest) by {
        assert table == [table[0]] + rest;
      }
      if table[0].name != name && Find(rest, name).Some? {
        var i :| 0 <= i < |rest| && rest[i] == Find(rest, name).value && rest[i].name == name &&
                 forall j :: 0 <= j < i ==> rest[j].name != name;
        assert table[i + 1] == rest[i];
        assert forall j :: 0 <= j < i + 1 ==> table[j].name != name by {
          forall j | 0 <= j < i + 1
            ensures table[j].name != name
          {
            if j > 0 { assert table[j] == rest[j - 1]; }
          }
        }
      }
    }
  }

  /** A name that resolves keeps its binding whatever is appended. */
  lemma {:induction false} FindStable(table: seq<LocalBinding>, more: seq<LocalBinding>, name: CString)
    ensures Find(table, name).Some? ==> Find(table + more, name) == Find(table, name)
    ensures Find(table, name).None? ==> Find(table + more, name) == Find(more, name)
  {
    if table == [] {
      assert table + more == more;
    } else {
      assert (table + more)[1..] == table[1..] + more;
      FindStable(table[1..], more, name);
    }
  }

  lemma {:induction false} FindExtends(l: Locals, l': Locals, name: CString)
    requires Extends(l, l') && Find(l.table, name).Some?
    ensures Find(l'.table, name) == Find(l.table, name)
  {
    assert l'.table == l.table + l'.table[|l.table|..];
    FindStable(l.table, l'.table[|l.table|..], name);
  }

  lemma {:induction false} AddLocalExtends(ls: Layouts, l: Locals, name: CString, ty: CType)
    requires SlotsMatch(l) && AddLocal(ls, l, name, ty).Ok?
    ensures var l' := AddLocal(ls, l, name, ty).value;
            Extends(l, l') && |l'.table| == |l.table| + 1 && Names(l'.table) == Names(l.table) + {name}
  {
    var l' := AddLocal(ls, l, name, ty).value;
    assert l'.table[|l.table|].name == name;
    assert Names(l'.table) == Names(l.table) + {name} by {
      assert forall b :: b in l'.table <==> b in l.table || b == l'.table[|l.table|];
    }
  }

  lemma {:induction false} AddParamsExtends(ls: Layouts, l: Locals, params: seq<Param>)
    requires SlotsMatch(l) && AddParams(ls, l, params).Ok?
    ensures var l' := AddParams(ls, l, params).value;
            && Extends(l, l') && |l'.table| == |l.table| + |params|
            && Names(l'.table) == Names(l.table) + ParamNames(params)
    decreases |params|
  {
    if params != [] {
      AddLocalExtends(ls, l, params[0].name, params[0].ty);
      AddParamsExtends(ls, AddLocal(ls, l, params[0].name, params[0].ty).value, params[1..]);
      assert params == [params[0]] + params[1..];
      assert ParamNames(params) == {params[0].name} + ParamNames(params[1..]);
    }
  }

  /** The pre-pass only adds entries, and afterwards exactly the parameters and the names
      declared at any depth have been added to the names that resolve. */
  lemma {:induction false} CollectExtends(ls: Layouts, params: seq<Param>, l: Locals, s: Stmts)
    requires SlotsMatch(l) && CollectLocals(ls, params, l, s).Ok?
    ensures var l' := CollectLocals(ls, params, l, s).value;
            Extends(l, l') && Names(l'.table) == Names(l.table) + ParamNames(params) + Declared(s)
    decreases s, 1
  {
    AddParamsExtends(ls, l, params);
    var l1 := AddParams(ls, l, params).value;
    CollectChainExtends(ls, params, l1, s);
  }

  lemma {:induction false} CollectChainExtends(ls: Layouts, params: seq<Param>, l: Locals, s: Stmts)
    requires SlotsMatch(l) && ParamNames(params) <= Names(l.table) && CollectChain(ls, params, l, s).Ok?
    ensures var l' := CollectChain(ls, params, l, s).value;
            Extends(l, l') && Names(l'.table) == Names(l.table) + Declared(s)
    decreases s, 0
  {
    if s.Cons? {
      CollectStmtExtends(ls, params, l, s.head);
      CollectChainExtends(ls, params, CollectStmt(ls, params, l, s.head).value, s.next);
    }
  }

  lemma {:induction false} CollectStmtExtends(ls: Layouts, params: seq<Param>, l: Locals, s: Stmt)
    requires SlotsMatch(l) && ParamNames(params) <= Names(l.table) && CollectStmt(ls, params, l, s).Ok?
    ensures var l' := CollectStmt(ls, params, l, s).value;
            Extends(l, l') && Names(l'.table) == Names(l.table) + DeclaredIn(s)
    decreases s, 0
  {
    match s
    case Decl(x, t, _) =>
      FindIsFirst(l.table, x);
      if Find(l.table, x).None? {
        AddLocalExtends(ls, l, x, t);
      }
    case Block(b) => CollectExtends(ls, params, l, b);
    case If(_, t, e) =>
      CollectExtends(ls, params, l, t);
      CollectExtends(ls, params, CollectLocals(ls, params, l, t).value, e);
    case While(_, b) => CollectExtends(ls, params, l, b);
    case For(first, _, _, b) =>
      CollectExtends(ls, params, l, first);
      CollectExtends(ls, params, CollectLocals(ls, params, l, first).value, b);
    case Do(b, _) => CollectExtends(ls, params, l, b);
    case _ =>
  }

  /** Distinct names have distinct slots. */
  lemma {:induction false} DistinctSlots(l: Locals, x: CString, y: CString)
    requires SlotsMatch(l) && Find(l.table, x).Some? && Find(l.table, y).Some? && x != y
    ensures Find(l.table, x).value.slot != Find(l.table, y).value.slot
  {
    FindIsFirst(l.table, x);
    FindIsFirst(l.table, y);
  }

  /** Every parameter resolves to one of the first entries, despite being appended again at
      every nested chain. */
  lemma {:induction false} ParamsResolveFirst(ls: Layouts, params: seq<Param>, s: Stmts, p: Param)
    requires CollectLocals(ls, params, Locals([], []), s).Ok? && p in params
    ensures var b := Find(CollectLocals(ls, params, Locals([], []), s).value.table, p.name);
            b.Some? && b.value.slot < |params|
  {
    var l0 := Locals([], []);
    var l1 := AddParams(ls, l0, params).value;
    AddParamsExtends(ls, l0, params);
    CollectChainExtends(ls, params, l1, s);
    FindIsFirst(l1.table, p.name);
    FindExtends(l1, CollectLocals(ls, params, l0, s).value, p.name);
  }

  /** Every name has storage of a known size. */
  predicate Allocatable(ls: Layouts, name: CString, ty: CType) {
    name.Str? && TypeSize(ls, ty).Ok?
  }

  predicate AllocatableParams(ls: Layouts, params: seq<Param>) {
    forall i :: 0 <= i < |params| ==> Allocatable(ls, params[i].name, params[i].ty)
  }

  predicate AllocatableStmts(ls: Layouts, s: Stmts) {
    match s
    case Nil => true
    case Cons(h, next) => AllocatableStmt(ls, h) && AllocatableStmts(ls, next)
  }

  predicate AllocatableStmt(ls: Layouts, s: Stmt) {
    match s
    case Decl(x, t, _) => Allocatable(ls, x, t)
    case Block(b) => AllocatableStmts(ls, b)
    case If(_, t, e) => AllocatableStmts(ls, t) && AllocatableStmts(ls, e)
    case While(_, b) => AllocatableStmts(ls, b)
    case For(first, _, _, b) => AllocatableStmts(ls, first) && AllocatableStmts(ls, b)
    case Do(b, _) => AllocatableStmts(ls, b)
    case _ => true
  }

  /** The result of a pre-pass step whose final table size would be `total`. */
  ghost predicate Fills(r: Result<Locals>, total: nat) {
    if total <= 64 then r.Ok? && |r.value.table| == total else r == Exit(TooManyLocals)
  }

  lemma {:induction false} AddParamsFills(ls: Layouts, l: Locals, params: seq<Param>)
    requires SlotsMatch(l) && AllocatableParams(ls, params)
    ensures Fills(AddParams(ls, l, params), |l.table| + |params|)
    decreases |params|
  {
    if params != [] && |l.table| < MAX_LOCALS {
      AddLocalExtends(ls, l, params[0].name, params[0].ty);
      AddParamsFills(ls, AddLocal(ls, l, params[0].name, params[0].ty).value, params[1..]);
    }
  }

  ghost function NewNames(l: Locals, declared: set<CString>): nat {
    |declared - Names(l.table)|
  }

  lemma {:induction false} NewNamesSame(l: Locals, l1: Locals, a: set<CString>, b: set<CString>)
    requires a - Names(l.table) == b - Names(l1.table)
    ensures NewNames(l, a) == NewNames(l1, b)
  {
  }

  lemma {:induction false} NewNamesOne(l: Locals, x: CString)
    ensures NewNames(l, {}) == 0
    ensures NewNames(l, {x}) == if x in Names(l.table) then 0 else 1
  {
    if x in Names(l.table) {
      assert {x} - Names(l.table) == {};
    } else {
      assert {x} - Names(l.table) == {x};
    }
    assert {} - Names(l.table) == {};
  }

  lemma {:induction false} NewNamesSplit(l: Locals, l1: Locals, a: set<CString>, b: set<CString>)
    requires Names(l1.table) == Names(l.table) + a
    ensures NewNames(l, a + b) == NewNames(l, a) + NewNames(l1, b)
  {
    assert (a + b) - Names(l.table) == (a - Names(l.table)) + (b - Names(l1.table));
    assert (a - Names(l.table)) !! (b - Names(l1.table));
  }

  /** The entries that `k` invocations make for the parameters. */
  ghost function Repeated(params: seq<Param>, k: nat): nat {
    |params| * k
  }

  lemma {:induction false} RepeatedPlus(params: seq<Param>, a: nat, b: nat)
    ensures Repeated(params, a + b) == Repeated(params, a) + Repeated(params, b)
    ensures Repeated(params, 1) == |params| && Repeated(params, 0) == 0
  {
  }

  /** Exact occupancy: the final size is the number of parameters times the number of
      invocations plus the number of other declared names, and the pre-pass fails exactly when
      that exceeds the capacity. */
  lemma {:induction false} CollectOccupancy(ls: Layouts, params: seq<Param>, l: Locals, s: Stmts)
    requires SlotsMatch(l) && AllocatableParams(ls, params) && AllocatableStmts(ls, s)
    ensures Fills(CollectLocals(ls, params, l, s),
                  |l.table| + Repeated(params, Invocations(s)) + NewNames(l, Declared(s) - ParamNames(params)))
    decreases s, 1
  {
    hide Repeated, NewNames;
    AddParamsFills(ls, l, params);
    RepeatedPlus(params, 1, NestedInvocations(s));
    if AddParams(ls, l, params).Ok? {
      var l1 := AddParams(ls, l, params).value;
      AddParamsExtends(ls, l, params);
      CollectChainOccupancy(ls, params, l1, s);
      NewNamesSame(l1, l, Declared(s), Declared(s) - ParamNames(params));
    }
  }

  lemma {:induction false} CollectChainOccupancy(ls: Layouts, params: seq<Param>, l: Locals, s: Stmts)
    requires SlotsMatch(l) && ParamNames(params) <= Names(l.table) && AllocatableParams(ls, params) && AllocatableStmts(ls, s)
    ensures Fills(CollectChain(ls, params, l, s), |l.table| + Repeated(params, NestedInvocations(s)) + NewNames(l, Declared(s)))
    decreases s, 0
  {
    hide Repeated, NewNames;
    RepeatedPlus(params, 0, 0);
    NewNamesOne(l, Null);
    if s.Cons? {
      CollectStmtOccupancy(ls, params, l, s.head);
      RepeatedPlus(params, InvocationsIn(s.head), NestedInvocations(s.next));
      if CollectStmt(ls, params, l, s.head).Ok? {
        var l1 := CollectStmt(ls, params, l, s.head).value;
        CollectStmtExtends(ls, params, l, s.head);
        NewNamesSplit(l, l1, DeclaredIn(s.head), Declared(s.next));
        CollectChainOccupancy(ls, params, l1, s.next);
      } else {
        NewNamesMonotone(l, DeclaredIn(s.head), Declared(s.next));
      }
    }
  }

  lemma {:induction false} NewNamesMonotone(l: Locals, a: set<CString>, b: set<CString>)
    ensures NewNames(l, a) <= NewNames(l, a + b)
  {
    var x, y := a - Names(l.table), b - Names(l.table) - a;
    assert (a + b) - Names(l.table) == x + y;
    assert x !! y;
  }

  lemma {:induction false} NestedOccupancy(ls: Layouts, params: seq<Param>, l: Locals, s: Stmts)
    requires SlotsMatch(l) && ParamNames(params) <= Names(l.table) && AllocatableParams(ls, params) && AllocatableStmts(ls, s)
    ensures Fills(CollectLocals(ls, params, l, s), |l.table| + Repeated(params, Invocations(s)) + NewNames(l, Declared(s)))
    decreases s, 2
  {
    hide Repeated, NewNames;
    CollectOccupancy(ls, params, l, s);
    NewNamesSame(l, l, Declared(s) - ParamNames(params), Declared(s));
  }

  lemma {:induction false} TwoOccupancy(ls: Layouts, params: seq<Param>, l: Locals, s: Stmt, a: Stmts, b: Stmts)
    requires SlotsMatch(l) && ParamNames(params) <= Names(l.table) && AllocatableParams(ls, params)
    requires AllocatableStmts(ls, a) && AllocatableStmts(ls, b)
    requires (s.If? && s.thenBody == a && s.elseBody == b) || (s.For? && s.first == a && s.body == b)
    ensures var total := |l.table| + Repeated(params, Invocations(a) + Invocations(b)) + NewNames(l, Declared(a) + Declared(b));
            var first := CollectLocals(ls, params, l, a);
            if first.Ok? then Fills(CollectLocals(ls, params, first.value, b), total)
            else first == Exit(TooManyLocals) && total > 64
    decreases s, 0
  {
    hide Repeated, NewNames;
    NestedOccupancy(ls, params, l, a);
    RepeatedPlus(params, Invocations(a), Invocations(b));
    if CollectLocals(ls, params, l, a).Ok? {
      var l1 := CollectLocals(ls, params, l, a).value;
      CollectExtends(ls, params, l, a);
      assert Names(l1.table) == Names(l.table) + Declared(a);
      NewNamesSplit(l, l1, Declared(a), Declared(b));
      NestedOccupancy(ls, params, l1, b);
    } else {
      NewNamesMonotone(l, Declared(a), Declared(b));
    }
  }

  lemma {:induction false} CollectStmtOccupancy(ls: Layouts, params: seq<Param>, l: Locals, s: Stmt)
    requires SlotsMatch(l) && ParamNames(params) <= Names(l.table) && AllocatableParams(ls, params) && AllocatableStmt(ls, s)
    ensures Fills(CollectStmt(ls, params, l, s), |l.table| + Repeated(params, InvocationsIn(s)) + NewNames(l, DeclaredIn(s)))
    decreases s, 1
  {
    hide Repeated, NewNames, CollectLocals, Declared, Invocations, AllocatableStmts, AllocatableParams;
    RepeatedPlus(params, 0, 0);
    NewNamesOne(l, Null);
    match s
    case Decl(x, t, _) =>
      FindIsFirst(l.table, x);
      NewNamesOne(l, x);
    case Block(b) => NestedOccupancy(ls, params, l, b);
    case If(_, t, e) => TwoOccupancy(ls, params, l, s, t, e);
    case While(_, b) => NestedOccupancy(ls, params, l, b);
    case For(first, _, _, b) => TwoOccupancy(ls, params, l, s, first, b);
    case Do(b, _) => NestedOccupancy(ls, params, l, b);
    case _ =>
  }
}
