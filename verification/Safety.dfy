/** What the static properties of a graph buy: a well-typed, well-formed graph never gets stuck,
    from any arguments, memory and surroundings. */
module Safety {
  import opened Results
  import opened Words
  import opened ByteMemory
  import opened Ast
  import opened Clif
  import opened Lowering
  import opened WellTyped
  import opened Growth
  import opened FuncCorrect
  import opened Cfg
  import opened IrTyping

  /** Checking code only adds definitions. */
  lemma {:induction false} TypesGrow(tys: Tys, code: seq<Inst>)
    requires CodeTypes(tys, code).Some?
    ensures forall k :: k in tys ==> k in After(tys, code) && After(tys, code)[k] == tys[k]
    decreases |code|
  {
    if code != [] {
      var tys' := InstTypes(tys, code[0]).value;
      TypesGrow(tys', code[1..]);
      assert After(tys, code) == After(tys', code[1..]);
      assert forall k :: k in tys ==> k in tys' && tys'[k] == tys[k];
    }
  }

  /** What is defined before instruction `pc` of block `b`. */
  ghost function TypesAt(params: seq<Ty>, g: Blocks, b: nat, pc: nat): Option<Tys>
    requires b < |g| && pc <= |g[b]|
  {
    CodeTypes(StartTypes(params, b), g[b][..pc])
  }

  /** The invariant of a run: inside a block, with the values that were typed up to there, and with
      the parameters intact. */
  ghost predicate Sane(params: seq<Ty>, g: Blocks, k: Config) {
    match k
    case Running(b, pc, s) =>
      && b < |g| && pc < |g[b]|
      && TypesAt(params, g, b, pc).Some? && RegsTyped(TypesAt(params, g, b, pc).value, s)
      && RegsTyped(StartTypes(params, 0), s)
    case Finished(r, _, _) => r.ty == I32
    case Stuck => false
    case Faulted(_) => true
  }

  lemma {:induction false} NextTypes(params: seq<Ty>, g: Blocks, b: nat, pc: nat)
    requires b < |g| && pc < |g[b]| && BlockTypes(params, g, b).Some? && TypesAt(params, g, b, pc).Some?
    ensures InstTypes(TypesAt(params, g, b, pc).value, g[b][pc]).Some?
    ensures TypesAt(params, g, b, pc + 1) == InstTypes(TypesAt(params, g, b, pc).value, g[b][pc])
    ensures TypesAt(params, g, b, pc + 1).value.Keys <= BlockTypes(params, g, b).value.Keys
  {
    var start, tys, i := StartTypes(params, b), TypesAt(params, g, b, pc).value, g[b][pc];
    assert g[b] == g[b][..pc] + ([i] + g[b][pc + 1..]);
    CodeTypesAppend(start, g[b][..pc], [i] + g[b][pc + 1..]);
    assert ([i] + g[b][pc + 1..])[1..] == g[b][pc + 1..];
    assert g[b][..pc + 1] == g[b][..pc] + [i];
    CodeTypesAppend(start, g[b][..pc], [i]);
    OneInst(tys, i);
    TypesGrow(InstTypes(tys, i).value, g[b][pc + 1..]);
  }

  /** The parameters are defined before any block, so no instruction redefines one. */
  lemma {:induction false} ParamsNotDefined(params: seq<Ty>, g: Blocks, next: nat, b: nat, pc: nat, d: nat)
    requires Checked(params, g, next) && b < |g| && pc < |g[b]| && TypesAt(params, g, b, pc).Some?
    requires d !in TypesAt(params, g, b, pc).value
    requires TypesAt(params, g, b, pc + 1).Some? && d in TypesAt(params, g, b, pc + 1).value
    ensures d !in StartTypes(params, 0)
  {
    assert BlockChecked(params, g, b, next) && BlockChecked(params, g, 0, next);
    if b == 0 {
      TypesGrow(StartTypes(params, 0), g[0][..pc]);
    } else {
      assert DefinedApart(params, g, b, 0);
      NextTypes(params, g, b, pc);
      TypesGrow(StartTypes(params, 0), g[0]);
    }
  }

  /** The value an instruction defines. */
  function Defined(i: Inst): set<nat> {
    match i
    case Store(_, _) => {}
    case Jump(_) => {}
    case Brif(_, _, _) => {}
    case ReturnInst(_) => {}
    case _ => {i.dst}
  }

  lemma {:induction false} DefinesOnce(tys: Tys, i: Inst)
    requires InstTypes(tys, i).Some?
    ensures forall d :: d in Defined(i) ==> d !in tys && d in InstTypes(tys, i).value
  {
  }

  lemma {:induction false} OthersKept(w: World, i: Inst, s: Mach, p: Tys)
    requires RegsTyped(p, s) && forall d :: d in Defined(i) ==> d !in p
    ensures Exec1(w, i, s).Next? ==> RegsTyped(p, Exec1(w, i, s).s)
  {
  }

  lemma {:induction false} StepSane(params: seq<Ty>, g: Blocks, next: nat, w: World, k: Config)
    requires Checked(params, g, next) && WellFormed(g) && Sane(params, g, k)
    ensures Sane(params, g, Step(g, w, k))
  {
    hide CodeTypes, InstTypes, StartTypes, RegsTyped, Checked, WellFormed;
    if k.Running? {
      var b, pc, s, i := k.blk, k.pc, k.s, g[k.blk][k.pc];
      BlockFacts(params, g, next, b);
      NextTypes(params, g, b, pc);
      var tys := TypesAt(params, g, b, pc).value;
      if IsTerminator(i) {
        TerminatorLast(g[b], pc);
        TerminatorSane(params, g, w, b, pc, s);
      } else {
        assert pc + 1 < |g[b]|;
        TypedInstRuns(w, tys, i, s);
        DefinesOnce(tys, i);
        forall d | d in Defined(i)
          ensures d !in StartTypes(params, 0)
        {
          ParamsNotDefined(params, g, next, b, pc, d);
        }
        OthersKept(w, i, s, StartTypes(params, 0));
      }
    }
  }

  lemma {:induction false} BlockFacts(params: seq<Ty>, g: Blocks, next: nat, b: nat)
    requires Checked(params, g, next) && WellFormed(g) && b < |g| && g[b] != []
    ensures BlockTypes(params, g, b).Some? && OneTerminator(g[b]) && Filled(g[b]) && TargetsFilled(g, g[b])
  {
    assert BlockChecked(params, g, b, next);
  }

  lemma {:induction false} TerminatorLast(b: seq<Inst>, pc: nat)
    requires OneTerminator(b) && pc < |b| && IsTerminator(b[pc])
    ensures pc == |b| - 1
  {
  }

  lemma {:induction false} TerminatorSane(params: seq<Ty>, g: Blocks, w: World, b: nat, pc: nat, s: Mach)
    requires b < |g| && pc == |g[b]| - 1 && IsTerminator(g[b][pc]) && TargetsFilled(g, g[b])
    requires TypesAt(params, g, b, pc).Some? && RegsTyped(TypesAt(params, g, b, pc).value, s) && RegsTyped(StartTypes(params, 0), s)
    requires InstTypes(TypesAt(params, g, b, pc).value, g[b][pc]).Some?
    ensures Sane(params, g, Step(g, w, Running(b, pc, s)))
  {
    hide CodeTypes;
    forall t | t in BlockTargets(g[b])
      ensures Sane(params, g, Running(t, 0, s))
    {
      assert Filled(g[t]);
      assert g[t][..0] == [];
      NoCode(StartTypes(params, t));
    }
  }

  lemma {:induction false} RunSane(params: seq<Ty>, g: Blocks, next: nat, w: World, n: nat, k: Config)
    requires Checked(params, g, next) && WellFormed(g) && Sane(params, g, k)
    ensures Sane(params, g, Steps(g, w, n, k))
  {
    hide Checked, WellFormed, Sane;
    if n > 0 {
      StepSane(params, g, next, w, k);
      RunSane(params, g, next, w, n - 1, Step(g, w, k));
    }
  }

  /** No run of a well-typed, well-formed graph gets stuck: every operand is there with the type
      the instruction needs, and control always is inside a block. What it returns has type I32. */
  lemma {:induction false} WellTypedNeverStuck(fn: IrFunction, w: World, args: seq<int>, m: Memory, n: nat)
    requires WellTypedFunction(fn) && WellFormed(fn.blocks) && |args| == |fn.params|
    ensures !Steps(fn.blocks, w, n, Entry(fn.params, args, m)).Stuck?
    ensures Steps(fn.blocks, w, n, Entry(fn.params, args, m)).Finished? ==> Steps(fn.blocks, w, n, Entry(fn.params, args, m)).result.ty == I32
  {
    var next: nat :| Checked(fn.params, fn.blocks, next);
    var start := Entry(fn.params, args, m);
    assert fn.blocks[0][..0] == [];
    NoCode(StartTypes(fn.params, 0));
    RunSane(fn.params, fn.blocks, next, w, n, start);
  }

  /** So no compiled function ever gets stuck, wherever its slots and data lie, and what it returns
      has the type that it declares. */
  lemma {:induction false} CompiledNeverStuck(te: TypeEnv, f: Func, fn: IrFunction, w: World, args: seq<int>, m: Memory, n: nat)
    requires TypedFunc(te, f) && Closed(te, f) && EmitFunction(te.layouts, te.data, f) == Ok(fn) && |args| == |fn.params|
    ensures !Steps(fn.blocks, w, n, Entry(fn.params, args, m)).Stuck?
    ensures Steps(fn.blocks, w, n, Entry(fn.params, args, m)).Finished? ==>
              Steps(fn.blocks, w, n, Entry(fn.params, args, m)).result.ty == fn.result
  {
    hide TypedFunc, Closed, EmitFunction, WellTypedFunction, WellFormed;
    EmittedParts(te, f, fn);
    FunctionWellTyped(te, f, fn);
    FunctionWellFormed(te, f, fn);
    WellTypedNeverStuck(fn, w, args, m, n);
  }
}
