/** The table of named stack slots: first-match lookup, and the pre-pass that fills it. */
module SlotTable {
  import opened Results
  import opened CTypes
  import opened Ast

  const MAX_LOCALS: nat := 64

  datatype LocalBinding = LocalBinding(name: CString, ty: CType, slot: nat)

  /** The table, and the sizes of the stack slots created so far. */
  datatype Locals = Locals(table: seq<LocalBinding>, slots: seq<nat>)

  function Find(table: seq<LocalBinding>, name: CString): Option<LocalBinding> {
    if table == [] then None
    else if table[0].name == name then Some(table[0])
    else Find(table[1..], name)
  }

  /** `strcmp` dereferences a null name as soon as there is an entry to compare it with. */
  function LocalLookup(table: seq<LocalBinding>, name: CString): Result<Option<LocalBinding>> {
    if table != [] && name.Null? then Exit(NullDereference) else Ok(Find(table, name))
  }

  /** Creates a slot for `ty` and appends a binding to it. */
  function AddLocal(ls: Layouts, l: Locals, name: CString, ty: CType): Result<Locals> {
    var size :- SlotSize(ls, ty);
    if |l.table| >= MAX_LOCALS then Exit(TooManyLocals)
    else if name.Null? then Exit(NullDereference)
    else Ok(Locals(l.table + [LocalBinding(name, ty, |l.slots|)], l.slots + [size]))
  }

  function AddParams(ls: Layouts, l: Locals, params: seq<Param>): Result<Locals>
    decreases |params|
  {
    if params == [] then Ok(l)
    else
      var l' :- AddLocal(ls, l, params[0].name, params[0].ty);
      AddParams(ls, l', params[1..])
  }

  /** The pre-pass: every invocation appends all parameters again, then walks the statements. */
  function CollectLocals(ls: Layouts, params: seq<Param>, l: Locals, s: Stmts): Result<Locals>
    decreases s, 1
  {
    var l' :- AddParams(ls, l, params);
    CollectChain(ls, params, l', s)
  }

  function CollectChain(ls: Layouts, params: seq<Param>, l: Locals, s: Stmts): Result<Locals>
    decreases s, 0
  {
    match s
    case Nil => Ok(l)
    case Cons(h, next) =>
      var l' :- CollectStmt(ls, params, l, h);
      CollectChain(ls, params, l', next)
  }

  function CollectStmt(ls: Layouts, params: seq<Param>, l: Locals, s: Stmt): Result<Locals>
    decreases s, 0
  {
    match s
    case Decl(x, t, _) =>
      var b :- LocalLookup(l.table, x);
      if b.Some? then Ok(l) else AddLocal(ls, l, x, t)
    case Block(b) => CollectLocals(ls, params, l, b)
    case If(_, t, e) =>
      var l' :- CollectLocals(ls, params, l, t);
      CollectLocals(ls, params, l', e)
    case While(_, b) => CollectLocals(ls, params, l, b)
    case For(first, _, _, b) =>
      var l' :- CollectLocals(ls, params, l, first);
      CollectLocals(ls, params, l', b)
    case Do(b, _) => CollectLocals(ls, params, l, b)
    case _ => Ok(l)
  }
}
