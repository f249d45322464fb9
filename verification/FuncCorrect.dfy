/** Whole functions: the emitted graph returns, traps or runs forever exactly as the source
    function does. */
module FuncCorrect {
  import opened Results
  import opened Words
  import opened CTypes
  import opened ByteMemory
  import opened Ast
  import opened Clif
  import opened SlotTable
  import opened SlotTableCorrect
  import opened CSemantics
  import opened Lowering
  import opened WellTyped
  import opened ExprCorrect
  import opened Growth
  import opened Progress
  import opened StmtCorrect

  /** Parameter passing: the caller promotes narrow arguments, and the promoted value fills the
      home of the parameter, whose low bytes are the object (see `ObjectMemory.NarrowParamReads`). */
  function BindParams(c: CEnv, params: seq<Param>, args: seq<int>, i: nat, m: Memory): Memory
    requires |args| == |params|
    decreases |params| - i
  {
    if i >= |params| then m
    else
      var a := if params[i].name in c.vars then Wrap64(c.vars[params[i].name]) else 0;
      var w := Encode(ValueType(params[i].ty), args[i]);
      BindParams(c, params, args, i + 1, StoreLE(m, a, Bytes(w.ty), w.bits))
  }

  /** A call of `f`: control that falls off the end returns 0. */
  function RunFunc(c: CEnv, fuel: nat, f: Func, args: seq<int>, m: Memory): Outcome
    requires |args| == |f.params|
  {
    match ExecStmts(c, fuel, f.body, BindParams(c, f.params, args, 0, m), [])
    case Normal(m', tr) => Returned(0, m', tr)
    case o => o
  }

  ghost predicate SourceReturns(c: CEnv, f: Func, args: seq<int>, m: Memory, v: int, m': Memory, tr: Trace)
    requires |args| == |f.params|
  {
    exists fuel: nat :: RunFunc(c, fuel, f, args, m) == Returned(v, m', tr)
  }

  ghost predicate SourceTraps(c: CEnv, f: Func, args: seq<int>, m: Memory, tr: Trace)
    requires |args| == |f.params|
  {
    exists fuel: nat :: RunFunc(c, fuel, f, args, m) == Trapped(tr)
  }

  ghost predicate SourceDiverges(c: CEnv, f: Func, args: seq<int>, m: Memory)
    requires |args| == |f.params|
  {
    forall fuel: nat :: RunFunc(c, fuel, f, args, m) == OutOfFuel
  }

  /** The configuration in which the emitted function is entered. */
  function Entry(params: seq<Ty>, args: seq<int>, m: Memory): Config
    requires |args| == |params|
  {
    Running(0, 0, Mach(map i | 0 <= i < |params| :: i := Encode(params[i], args[i]), m, []))
  }

  ghost predicate TargetReturns(fn: IrFunction, w: World, args: seq<int>, m: Memory, v: int, m': Memory, tr: Trace)
    requires |args| == |fn.params|
  {
    exists n: nat :: Steps(fn.blocks, w, n, Entry(fn.params, args, m)) == Finished(Encode(I32, v), m', tr)
  }

  ghost predicate TargetTraps(fn: IrFunction, w: World, args: seq<int>, m: Memory, tr: Trace)
    requires |args| == |fn.params|
  {
    exists n: nat :: Steps(fn.blocks, w, n, Entry(fn.params, args, m)) == Faulted(tr)
  }

  ghost predicate TargetRunsForever(fn: IrFunction, w: World, args: seq<int>, m: Memory)
    requires |args| == |fn.params|
  {
    forall n: nat :: Steps(fn.blocks, w, n, Entry(fn.params, args, m)).Running?
  }

  /** The typing environment covers exactly the parameters and the declared names. */
  ghost predicate Closed(te: TypeEnv, f: Func) {
    te.vars.Keys == ParamNames(f.params) + Declared(f.body)
  }

  /** Each variable lives where the frame puts its slot, each symbol where its data object is. */
  ghost predicate Placed(te: TypeEnv, table: seq<LocalBinding>, c: CEnv, w: World) {
    && te.layouts == c.layouts && c.ext == w.ext && !c.strict
    && (forall x :: x in te.vars && Find(table, x).Some? ==> x in c.vars && c.vars[x] == w.frame(Find(table, x).value.slot))
    && (forall s :: s in te.data && FindData(te.data, s).Some? ==> s in c.syms && c.syms[s] == w.data(FindData(te.data, s).value))
  }

  /** The source surroundings that a frame and data placement stand for. */
  ghost function SourceWorld(te: TypeEnv, table: seq<LocalBinding>, w: World): CEnv {
    CEnv(te.layouts,
         map x | x in te.vars && Find(table, x).Some? :: w.frame(Find(table, x).value.slot),
         map s | s in te.data && FindData(te.data, s).Some? :: w.data(FindData(te.data, s).value),
         w.ext, false, (f, vs, m, tr) => true)
  }

  /** Every frame and data placement has such surroundings. */
  lemma {:induction false} SourceWorldPlaced(te: TypeEnv, table: seq<LocalBinding>, w: World)
    ensures Placed(te, table, SourceWorld(te, table, w), w)
  {
  }

  ghost function Table(te: TypeEnv, f: Func): Result<Locals> {
    CollectLocals(te.layouts, f.params, Locals([], []), f.body)
  }

  lemma {:induction false} TypedAllocatable(te: TypeEnv, s: Stmts, inLoop: bool)
    requires TypedStmts(te, s, inLoop)
    ensures AllocatableStmts(te.layouts, s)
    decreases s, 0
  {
    if s.Cons? {
      TypedAllocatable(te, s.next, inLoop);
      match s.head
      case Decl(_, t, _) => SizedKept(te, t);
      case Block(b) => TypedAllocatable(te, b, inLoop);
      case If(_, t, f) => TypedAllocatable(te, t, inLoop); TypedAllocatable(te, f, inLoop);
      case While(_, b) => TypedAllocatable(te, b, true);
      case For(first, _, _, b) => TypedAllocatable(te, first, inLoop); TypedAllocatable(te, b, true);
      case Do(b, _) => TypedAllocatable(te, b, true);
      case _ =>
    }
  }

  /** The number of slots the function needs. */
  ghost function SlotCount(f: Func): nat {
    Repeated(f.params, Invocations(f.body)) + |Declared(f.body) - ParamNames(f.params)|
  }

  lemma {:induction false} TableFills(te: TypeEnv, f: Func, inLoop: bool)
    requires TypedBody(te, f, inLoop)
    ensures Fills(Table(te, f), SlotCount(f))
  {
    hide TypedStmts, TypedParams, CollectLocals, Declared, NewNames, Repeated, Fills, AllocatableParams, AllocatableStmts, SlotsMatch,
      Invocations, ParamNames;
    TypedAllocatable(te, f.body, inLoop);
    ParamsAllocatable(te, f.params);
    NoSlots();
    AllNamesNew(Declared(f.body) - ParamNames(f.params));
    CollectOccupancy(te.layouts, f.params, Locals([], []), f.body);
  }

  lemma {:induction false} ParamsAllocatable(te: TypeEnv, params: seq<Param>)
    requires TypedParams(te, params)
    ensures AllocatableParams(te.layouts, params)
  {
    forall i | 0 <= i < |params|
      ensures Allocatable(te.layouts, params[i].name, params[i].ty)
    {
      ScalarSized(te, params[i].ty);
    }
  }

  lemma {:induction false} ScalarSized(te: TypeEnv, t: CType)
    requires IsScalar(t)
    ensures TypeSize(te.layouts, t).Ok?
  {
    TypeSizeExactly(te.layouts, t);
  }

  lemma {:induction false} NoSlots()
    ensures SlotsMatch(Locals([], []))
  {
  }

  lemma {:induction false} AllNamesNew(declared: set<CString>)
    ensures NewNames(Locals([], []), declared) == |declared|
  {
    assert Names([]) == {};
    assert declared - {} == declared;
  }

  lemma {:induction false} TableResolves(te: TypeEnv, f: Func, x: CString)
    requires Closed(te, f) && Table(te, f).Ok? && x in te.vars
    ensures Find(Table(te, f).value.table, x).Some?
  {
    CollectExtends(te.layouts, f.params, Locals([], []), f.body);
    FindIsFirst(Table(te, f).value.table, x);
  }

  lemma {:induction false} ScopeResolves(te: TypeEnv, f: Func)
    requires Closed(te, f) && Table(te, f).Ok?
    ensures Resolves(te, Scope(te.layouts, Table(te, f).value.table, te.data))
  {
    forall x | x in te.vars
      ensures Find(Table(te, f).value.table, x).Some?
    {
      TableResolves(te, f, x);
    }
  }

  lemma {:induction false} ScopesAgree(te: TypeEnv, f: Func, c: CEnv, w: World)
    requires Closed(te, f) && Table(te, f).Ok? && Placed(te, Table(te, f).value.table, c, w)
    ensures Agree(te, Scope(te.layouts, Table(te, f).value.table, te.data), c, w)
  {
    ScopeResolves(te, f);
    forall s | s in te.data
      ensures FindData(te.data, s).Some?
    {
      DataFound(te.data, s);
    }
  }

  lemma {:induction false} ParamTypesOk(te: TypeEnv, params: seq<Param>)
    requires forall i :: 0 <= i < |params| ==> IsScalar(params[i].ty)
    ensures ParamTypes(te.layouts, params).Ok? && |ParamTypes(te.layouts, params).value| == |params|
    ensures forall i :: 0 <= i < |params| ==> ParamTypes(te.layouts, params).value[i] == ValueType(params[i].ty)
    decreases |params|
  {
    if params != [] {
      ParamTypesOk(te, params[1..]);
    }
  }

  lemma {:induction false} StoreParamsOk(te: TypeEnv, f: Func, i: nat, n: nat)
    requires TypedParams(te, f.params) && Closed(te, f) && Table(te, f).Ok?
    ensures StoreParams(Table(te, f).value.table, f.params, i, n).Ok?
    ensures StraightLine(StoreParams(Table(te, f).value.table, f.params, i, n).value)
    decreases |f.params| - i
  {
    if i < |f.params| {
      TableResolves(te, f, f.params[i].name);
      StoreParamsOk(te, f, i + 1, n + 1);
    }
  }

  ghost predicate HomesPlaced(table: seq<LocalBinding>, params: seq<Param>, c: CEnv, w: World) {
    forall j :: 0 <= j < |params| ==> HomePlaced(table, params[j].name, c, w)
  }

  ghost predicate HomePlaced(table: seq<LocalBinding>, x: CString, c: CEnv, w: World) {
    x.Str? && Find(table, x).Some? && x in c.vars && c.vars[x] == w.frame(Find(table, x).value.slot)
  }

  lemma {:induction false} StoreOne(w: World, n: nat, slot: nat, i: nat, rest: seq<Inst>, s: Mach, p: Word)
    requires i < n && Holds(s, i, p)
    ensures ExecCode(w, [StackAddr(n, slot), Store(n, i)] + rest, s) ==
            ExecCode(w, rest, SetReg(s, n, Encode(I64, w.frame(slot))).(mem := StoreLE(s.mem, Wrap64(w.frame(slot)), Bytes(p.ty), p.bits)))
  {
    var s1 := SetReg(s, n, Encode(I64, w.frame(slot)));
    assert [StackAddr(n, slot), Store(n, i)] + rest == [StackAddr(n, slot)] + ([Store(n, i)] + rest);
    ExecCons(w, StackAddr(n, slot), [Store(n, i)] + rest, s);
    ExecCons(w, Store(n, i), rest, s1);
  }

  /** The entry code leaves memory as parameter binding does. */
  lemma {:induction false} StoreParamsCorrect(table: seq<LocalBinding>, params: seq<Param>, c: CEnv, w: World, args: seq<int>, i: nat, n: nat, s: Mach)
    requires HomesPlaced(table, params, c, w) && StoreParams(table, params, i, n).Ok? && |args| == |params| <= n
    requires forall j :: 0 <= j < |args| ==> Holds(s, j, Encode(ValueType(params[j].ty), args[j]))
    ensures var o := ExecCode(w, StoreParams(table, params, i, n).value, s);
            o.Next? && o.s.mem == BindParams(c, params, args, i, s.mem) && o.s.tr == s.tr
    decreases |params| - i
  {
    if i < |params| {
      var x := params[i].name;
      assert HomePlaced(table, x, c, w);
      var slot := Find(table, x).value.slot;
      var rest := StoreParams(table, params, i + 1, n + 1).value;
      var p := Encode(ValueType(params[i].ty), args[i]);
      StoreOne(w, n, slot, i, rest, s, p);
      var s2 := SetReg(s, n, Encode(I64, w.frame(slot))).(mem := StoreLE(s.mem, Wrap64(w.frame(slot)), Bytes(p.ty), p.bits));
      StoreParamsCorrect(table, params, c, w, args, i + 1, n + 1, s2);
    }
  }

  /** With everything but the places of jumps well-typed, compilation stops exactly when the function
      does not fit the slot table, or else at the first lowered `break` or `continue` outside a loop. */
  lemma {:induction false} EmitExits(te: TypeEnv, f: Func)
    requires TypedBody(te, f, true) && Closed(te, f)
    ensures var r, stray := EmitFunction(te.layouts, te.data, f), StrayIn(f.body);
            if SlotCount(f) > 64 then r == Exit(TooManyLocals) else if stray.Some? then r == Exit(stray.value) else r.Ok?
  {
    hide SlotCount, TypedStmts, StrayIn;
    TableFills(te, f, true);
    ParamTypesOk(te, f.params);
    if Table(te, f).Ok? {
      var sc := Scope(te.layouts, Table(te, f).value.table, te.data);
      ScopeResolves(te, f);
      StoreParamsOk(te, f, 0, |f.params|);
      StmtsSucceed(te, sc, EntryState(te, f), f.body);
    }
  }

  /** Compilation of a function of the fragment succeeds exactly when it fits the slot table; nothing
      else can stop it. */
  lemma {:induction false} EmitSucceeds(te: TypeEnv, f: Func)
    requires TypedFunc(te, f) && Closed(te, f)
    ensures EmitFunction(te.layouts, te.data, f).Ok? <==> SlotCount(f) <= 64
    ensures SlotCount(f) > 64 ==> EmitFunction(te.layouts, te.data, f) == Exit(TooManyLocals)
  {
    hide EmitFunction, SlotCount, TypedStmts;
    TypedInLoop(te, f.body);
    EmitExits(te, f);
  }

  /** The builder after the parameter stores. */
  ghost function EntryState(te: TypeEnv, f: Func): State {
    var n := |f.params|;
    var stores := StoreParams(if Table(te, f).Ok? then Table(te, f).value.table else [], f.params, 0, n);
    State([if stores.Ok? then stores.value else []], 0, n + n, None, None, false)
  }

  /** The state when the body has been lowered. */
  ghost function BodyState(te: TypeEnv, f: Func): Result<State> {
    if Table(te, f).Ok? then LowerStmts(Scope(te.layouts, Table(te, f).value.table, te.data), EntryState(te, f), f.body)
    else Exit(TooManyLocals)
  }

  lemma {:induction false} EmittedParts(te: TypeEnv, f: Func, fn: IrFunction)
    requires TypedFunc(te, f) && Closed(te, f) && EmitFunction(te.layouts, te.data, f) == Ok(fn)
    ensures Table(te, f).Ok? && BodyState(te, f).Ok? && fn.blocks == Completed(BodyState(te, f).value).blocks
    ensures fn.slots == Table(te, f).value.slots && fn.result == I32
    ensures |fn.params| == |f.params| && forall i :: 0 <= i < |f.params| ==> fn.params[i] == ValueType(f.params[i].ty)
    ensures StoreParams(Table(te, f).value.table, f.params, 0, |f.params|).Ok?
    ensures Valid(EntryState(te, f)) && !EntryState(te, f).terminated
    ensures EntryState(te, f).loopBreak.None? && EntryState(te, f).loopContinue.None?
    ensures EntryState(te, f).blocks == [StoreParams(Table(te, f).value.table, f.params, 0, |f.params|).value]
    ensures StraightLine(EntryState(te, f).blocks[0])
  {
    ParamTypesOk(te, f.params);
    StoreParamsOk(te, f, 0, |f.params|);
  }

  /** Falling off the end returns 0. */
  lemma {:induction false} FallOffEnd(graph: Blocks, w: World, g: State, s: Mach)
    requires Valid(g) && !g.terminated && Within(Completed(g).blocks, graph)
    ensures Within(g.blocks, graph)
    ensures Steps(graph, w, 2, At(g, s)) == Finished(Encode(I32, 0), s.mem, s.tr)
  {
    var zero, ret := Iconst(g.next, I32, 0), ReturnInst(g.next);
    assert Completed(g).blocks[g.current] == g.blocks[g.current] + [zero, ret];
    assert Completed(g).blocks[g.current] <= graph[g.current];
    assert [zero, ret] == [zero] + [ret];
    HasPrefix(graph, g, [zero], [ret]);
    RunOne(graph, w, g, zero, s);
    RunOne(graph, w, Emit(g, [zero], g.next + 1), ret, SetReg(s, g.next, Encode(I32, 0)));
    StepsAdd(graph, w, 1, 1, At(g, s));
    assert forall i :: 0 <= i < |g.blocks| ==> g.blocks[i] <= Completed(g).blocks[i];
  }

  /** What `n` steps of the emitted function have to show for a source outcome. */
  ghost predicate Answers(k: Config, n: nat, fuel: nat, o: Outcome) {
    match o
    case Returned(v, m, tr) => InRange(I32, v) && k == Finished(Encode(I32, v), m, tr)
    case Trapped(tr) => k == Faulted(tr)
    case OutOfFuel => k.Running? && n >= fuel
    case _ => false
  }

  ghost predicate Answered(fn: IrFunction, c: CEnv, f: Func, w: World, args: seq<int>, m: Memory, fuel: nat)
    requires |args| == |f.params| == |fn.params|
  {
    exists n: nat :: Answers(Steps(fn.blocks, w, n, Entry(fn.params, args, m)), n, fuel, RunFunc(c, fuel, f, args, m))
  }

  lemma {:induction false} BodyWithin(te: TypeEnv, f: Func)
    requires BodyState(te, f).Ok? && Valid(EntryState(te, f))
    ensures var g, g' := EntryState(te, f), BodyState(te, f).value;
            Valid(g') && Within(g.blocks, Completed(g').blocks) && Within(g'.blocks, Completed(g').blocks)
  {
    hide LowerStmts, EntryState, Table;
    var g, g' := EntryState(te, f), BodyState(te, f).value;
    LowerStmtsGrows(Scope(te.layouts, Table(te, f).value.table, te.data), g, f.body);
    assert forall i :: 0 <= i < |g'.blocks| ==> g'.blocks[i] <= Completed(g').blocks[i];
    WithinEarlier(g, g', Completed(g').blocks);
  }

  /** Forward simulation of a whole call. */
  lemma {:induction false} FunctionForward(te: TypeEnv, f: Func, fn: IrFunction, c: CEnv, w: World, args: seq<int>, m: Memory, fuel: nat)
    returns (n: nat)
    requires TypedFunc(te, f) && Closed(te, f) && EmitFunction(te.layouts, te.data, f) == Ok(fn)
    requires Table(te, f).Ok? && Placed(te, Table(te, f).value.table, c, w) && |args| == |f.params| == |fn.params|
    ensures Answers(Steps(fn.blocks, w, n, Entry(fn.params, args, m)), n, fuel, RunFunc(c, fuel, f, args, m))
  {
    hide LowerStmts, ExecStmts, TypedStmts, EmitFunction, EntryState, Closed, Placed, Table, Completed;
    EmittedParts(te, f, fn);
    BodyWithin(te, f);
    ScopesAgree(te, f, c, w);
    var sc := Scope(te.layouts, Table(te, f).value.table, te.data);
    var g, g' := EntryState(te, f), BodyState(te, f).value;
    var n0, s0 := EntryRuns(te, f, fn, c, w, args, m);
    var n1 := StmtsCorrect(te, sc, c, w, fn.blocks, g, f.body, false, fuel, s0);
    var o := ExecStmts(c, fuel, f.body, s0.mem, s0.tr);
    FollowsLater(fn.blocks, w, Entry(fn.params, args, m), n0, n1, fuel, o, g, g');
    n := n0 + n1;
    if o.Normal? {
      var k1 := Steps(fn.blocks, w, n, Entry(fn.params, args, m));
      FallOffEnd(fn.blocks, w, g', k1.s);
      StepsAdd(fn.blocks, w, n, 2, Entry(fn.params, args, m));
      n := n + 2;
    }
  }

  /** From entry to the end of the parameter stores. */
  lemma {:induction false} EntryRuns(te: TypeEnv, f: Func, fn: IrFunction, c: CEnv, w: World, args: seq<int>, m: Memory)
    returns (n: nat, s: Mach)
    requires TypedFunc(te, f) && Closed(te, f) && EmitFunction(te.layouts, te.data, f) == Ok(fn)
    requires Table(te, f).Ok? && Placed(te, Table(te, f).value.table, c, w) && |args| == |f.params| == |fn.params|
    requires Valid(EntryState(te, f)) && Within(EntryState(te, f).blocks, fn.blocks)
    ensures Steps(fn.blocks, w, n, Entry(fn.params, args, m)) == At(EntryState(te, f), s)
    ensures s.mem == BindParams(c, f.params, args, 0, m) && s.tr == []
  {
    hide LowerStmts, EmitFunction, BindParams, ExecCode, Declared, Table, StoreParams, Entry;
    EmittedParts(te, f, fn);
    var table, g := Table(te, f).value.table, EntryState(te, f);
    var stores := g.blocks[0];
    EntryRegisters(f, fn.params, args, m);
    AllHomesPlaced(te, f, c, w);
    var s0 := Entry(fn.params, args, m).s;
    StoreParamsCorrect(table, f.params, c, w, args, 0, |f.params|, s0);
    assert g.blocks[0] <= fn.blocks[0];
    assert fn.blocks[0][0..|stores|] == stores;
    n, s := |stores|, ExecCode(w, stores, s0).s;
    RunCode(fn.blocks, w, 0, 0, stores, s0);
  }

  lemma {:induction false} EntryRegisters(f: Func, types: seq<Ty>, args: seq<int>, m: Memory)
    requires |args| == |f.params| == |types| && forall i :: 0 <= i < |types| ==> types[i] == ValueType(f.params[i].ty)
    ensures var k := Entry(types, args, m);
            k.Running? && k == Running(0, 0, k.s) && k.s.mem == m && k.s.tr == []
            && forall j :: 0 <= j < |args| ==> Holds(k.s, j, Encode(ValueType(f.params[j].ty), args[j]))
  {
  }

  lemma {:induction false} AllHomesPlaced(te: TypeEnv, f: Func, c: CEnv, w: World)
    requires TypedFunc(te, f) && Closed(te, f) && Table(te, f).Ok? && Placed(te, Table(te, f).value.table, c, w)
    ensures HomesPlaced(Table(te, f).value.table, f.params, c, w)
  {
    hide TypedStmts, Declared;
    forall j | 0 <= j < |f.params|
      ensures HomePlaced(Table(te, f).value.table, f.params[j].name, c, w)
    {
      TableResolves(te, f, f.params[j].name);
    }
  }

  /** Two halted configurations of one run are the same. */
  lemma {:induction false} HaltedUnique(graph: Blocks, w: World, start: Config, n1: nat, n2: nat)
    requires !Steps(graph, w, n1, start).Running?
    ensures n2 >= n1 ==> Steps(graph, w, n2, start) == Steps(graph, w, n1, start)
    ensures !Steps(graph, w, n2, start).Running? ==> Steps(graph, w, n2, start) == Steps(graph, w, n1, start)
  {
    if n2 >= n1 {
      StepsAdd(graph, w, n1, n2 - n1, start);
      StepsHalted(graph, w, n2 - n1, Steps(graph, w, n1, start));
    } else if !Steps(graph, w, n2, start).Running? {
      StepsAdd(graph, w, n2, n1 - n2, start);
      StepsHalted(graph, w, n1 - n2, Steps(graph, w, n2, start));
    }
  }

  /** If the target has halted within `n` steps, the source has an outcome with fuel `n + 1`,
      and the target's result is the answer to it. */
  lemma {:induction false} HaltedAnswers(te: TypeEnv, f: Func, fn: IrFunction, c: CEnv, w: World, args: seq<int>, m: Memory, n: nat)
    requires TypedFunc(te, f) && Closed(te, f) && EmitFunction(te.layouts, te.data, f) == Ok(fn)
    requires Table(te, f).Ok? && Placed(te, Table(te, f).value.table, c, w) && |args| == |f.params| == |fn.params|
    requires !Steps(fn.blocks, w, n, Entry(fn.params, args, m)).Running?
    ensures Answers(Steps(fn.blocks, w, n, Entry(fn.params, args, m)), n, n + 1, RunFunc(c, n + 1, f, args, m))
  {
    hide TypedFunc, Closed, EmitFunction, Placed, RunFunc;
    var n' := FunctionForward(te, f, fn, c, w, args, m, n + 1);
    HaltedUnique(fn.blocks, w, Entry(fn.params, args, m), n, n');
  }

  /** Equivalence of a function and its emitted graph, for every call, memory and environment:
      the graph returns `v` exactly when the source does, with the same final memory and the same
      external calls; it faults exactly when the source traps; it runs forever exactly when the
      source does; and it never gets stuck on an ill-typed or missing instruction. */
  lemma {:induction false} FunctionEquivalence(te: TypeEnv, f: Func, fn: IrFunction, c: CEnv, w: World, args: seq<int>, m: Memory)
    requires TypedFunc(te, f) && Closed(te, f) && EmitFunction(te.layouts, te.data, f) == Ok(fn)
    requires Table(te, f).Ok? && Placed(te, Table(te, f).value.table, c, w) && |args| == |f.params| == |fn.params|
    ensures forall v, m', tr | InRange(I32, v) ::
              SourceReturns(c, f, args, m, v, m', tr) <==> TargetReturns(fn, w, args, m, v, m', tr)
    ensures forall tr :: SourceTraps(c, f, args, m, tr) <==> TargetTraps(fn, w, args, m, tr)
    ensures SourceDiverges(c, f, args, m) <==> TargetRunsForever(fn, w, args, m)
    ensures forall n: nat :: !Steps(fn.blocks, w, n, Entry(fn.params, args, m)).Stuck?
  {
    hide TypedFunc, Closed, EmitFunction, Placed, RunFunc, Table;
    var start := Entry(fn.params, args, m);
    forall fuel: nat
      ensures Answered(fn, c, f, w, args, m, fuel)
    {
      var n := FunctionForward(te, f, fn, c, w, args, m, fuel);
    }
    forall n: nat | !Steps(fn.blocks, w, n, start).Running?
      ensures Answers(Steps(fn.blocks, w, n, start), n, n + 1, RunFunc(c, n + 1, f, args, m))
    {
      HaltedAnswers(te, f, fn, c, w, args, m, n);
    }
    forall v, m', tr | InRange(I32, v)
      ensures SourceReturns(c, f, args, m, v, m', tr) <==> TargetReturns(fn, w, args, m, v, m', tr)
    {
      if SourceReturns(c, f, args, m, v, m', tr) {
        var fuel: nat :| RunFunc(c, fuel, f, args, m) == Returned(v, m', tr);
        assert Answered(fn, c, f, w, args, m, fuel);
      }
      if TargetReturns(fn, w, args, m, v, m', tr) {
        var n: nat :| Steps(fn.blocks, w, n, start) == Finished(Encode(I32, v), m', tr);
        SignedEncode(I32, v);
        var o := RunFunc(c, n + 1, f, args, m);
        SignedEncode(I32, o.v);
        assert o == Returned(v, m', tr);
      }
    }
    forall tr
      ensures SourceTraps(c, f, args, m, tr) <==> TargetTraps(fn, w, args, m, tr)
    {
      if SourceTraps(c, f, args, m, tr) {
        var fuel: nat :| RunFunc(c, fuel, f, args, m) == Trapped(tr);
        assert Answered(fn, c, f, w, args, m, fuel);
      }
      if TargetTraps(fn, w, args, m, tr) {
        var n: nat :| Steps(fn.blocks, w, n, start) == Faulted(tr);
        assert RunFunc(c, n + 1, f, args, m) == Trapped(tr);
      }
    }
    DivergenceAgrees(fn, c, f, w, args, m);
  }

  lemma {:induction false} DivergenceAgrees(fn: IrFunction, c: CEnv, f: Func, w: World, args: seq<int>, m: Memory)
    requires |args| == |f.params| == |fn.params|
    requires forall fuel: nat :: Answered(fn, c, f, w, args, m, fuel)
    ensures SourceDiverges(c, f, args, m) <==> TargetRunsForever(fn, w, args, m)
  {
    var start := Entry(fn.params, args, m);
    if SourceDiverges(c, f, args, m) {
      forall n: nat
        ensures Steps(fn.blocks, w, n, start).Running?
      {
        assert RunFunc(c, n, f, args, m) == OutOfFuel && Answered(fn, c, f, w, args, m, n);
        var n': nat :| Answers(Steps(fn.blocks, w, n', start), n', n, RunFunc(c, n, f, args, m));
        if !Steps(fn.blocks, w, n, start).Running? {
          HaltedUnique(fn.blocks, w, start, n, n');
        }
      }
    }
    if TargetRunsForever(fn, w, args, m) {
      forall fuel: nat
        ensures RunFunc(c, fuel, f, args, m) == OutOfFuel
      {
        assert Answered(fn, c, f, w, args, m, fuel);
        var n: nat :| Answers(Steps(fn.blocks, w, n, start), n, fuel, RunFunc(c, fuel, f, args, m));
        assert Steps(fn.blocks, w, n, start).Running?;
      }
    }
  }
}
