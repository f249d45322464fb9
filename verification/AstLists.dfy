/** The linked lists of functions, statements and string literals, which grow in place at their
    tail, and the symbols of the string literals. */
module AstLists {
  import opened Results
  import opened CTypes
  import opened Lowering

  /** A list element with its `next` pointer. */
  class Node<T> {
    const item: T
    var next: Node?<T>

    constructor (item: T)
      ensures this.item == item && next == null
    {
      this.item := item;
      next := null;
    }
  }

  function Successor<T>(nodes: seq<Node<T>>, i: nat): Node?<T> {
    if i + 1 < |nodes| then nodes[i + 1] else null
  }

  /** The nodes form a chain that ends in null, without a cycle. */
  ghost predicate Linked<T>(nodes: seq<Node<T>>)
    reads nodes
  {
    && (forall i :: 0 <= i < |nodes| ==> nodes[i].next == Successor(nodes, i))
    && (forall i, j :: 0 <= i < j < |nodes| ==> nodes[i] != nodes[j])
  }

  function Items<T>(nodes: seq<Node<T>>): seq<T> {
    if nodes == [] then [] else [nodes[0].item] + Items(nodes[1..])
  }

  lemma {:induction false} ItemsAppend<T>(a: seq<Node<T>>, b: seq<Node<T>>)
    ensures Items(a + b) == Items(a) + Items(b)
  {
    if a == [] {
      assert a + b == b;
    } else {
      assert (a + b)[1..] == a[1..] + b;
      ItemsAppend(a[1..], b);
    }
  }

  /** A list head: `program->funcs`, `program->data`, or the first statement of a body. */
  class List<T> {
    var head: Node?<T>
    ghost var nodes: seq<Node<T>>

    ghost predicate Valid()
      reads this, nodes
    {
      Linked(nodes) && head == if nodes == [] then null else nodes[0]
    }

    constructor ()
      ensures Valid() && nodes == [] && fresh(this)
    {
      head, nodes := null, [];
    }

    /** Hangs the chain that starts at `s` onto the end, walking there from the head. */
    method Append(s: Node<T>, ghost chain: seq<Node<T>>)
      requires Valid() && Linked(chain) && chain != [] && chain[0] == s
      requires forall i, j :: 0 <= i < |nodes| && 0 <= j < |chain| ==> nodes[i] != chain[j]
      modifies this, nodes
      ensures Valid() && nodes == old(nodes) + chain && Items(nodes) == old(Items(nodes)) + Items(chain)
      ensures forall i :: 0 <= i < |chain| ==> chain[i].next == old(chain[i].next)
    {
      ItemsAppend(nodes, chain);
      if head == null {
        head, nodes := s, chain;
        return;
      }
      var cur: Node<T> := head;
      ghost var i := 0;
      while cur.next != null
        invariant 0 <= i < |nodes| && cur == nodes[i] && Linked(nodes)
        decreases |nodes| - i
      {
        assert nodes[i].next == Successor(nodes, i);
        cur := cur.next;
        i := i + 1;
      }
      assert nodes[i].next == Successor(nodes, i);
      cur.next := s;
      nodes := nodes + chain;
      JoinLinked(old(nodes), chain, nodes);
    }
  }

  /** Two chains, the first of which now goes on in the second, are one chain. */
  lemma {:induction false} JoinLinked<T>(a: seq<Node<T>>, b: seq<Node<T>>, all: seq<Node<T>>)
    requires all == a + b && a != [] && Linked(b) && b != []
    requires forall i :: 0 <= i < |a| - 1 ==> a[i].next == a[i + 1]
    requires a[|a| - 1].next == b[0]
    requires forall i, j :: 0 <= i < j < |a| ==> a[i] != a[j]
    requires forall i, j :: 0 <= i < |a| && 0 <= j < |b| ==> a[i] != b[j]
    ensures Linked(all)
  {
    forall i | 0 <= i < |all|
      ensures all[i].next == Successor(all, i)
    {
      if i >= |a| {
        assert all[i] == b[i - |a|] && Successor(all, i) == Successor(b, i - |a|);
      }
    }
  }

  // ----- string literals -----

  datatype DataItem = DataItem(symbol: CString, bytes: seq<bv8>)

  function Digit(d: nat): (c: char)
    requires d < 10
    ensures '0' <= c <= '9' && (c as int) - ('0' as int) == d
  {
    ('0' as int + d) as char
  }

  function Decimal(n: nat): (s: string)
    ensures s != [] && (|s| == 1 <==> n < 10)
  {
    if n < 10 then [Digit(n)] else Decimal(n / 10) + [Digit(n % 10)]
  }

  /** `.Lstr0`, `.Lstr1`, ... */
  function SymbolName(k: nat): CString {
    Str(".Lstr" + Decimal(k))
  }

  predicate AllDigits(s: string) {
    forall i :: 0 <= i < |s| ==> '0' <= s[i] <= '9'
  }

  /** What a string of digits denotes. */
  function Denoted(s: string): int {
    if s == "" then 0 else 10 * Denoted(s[..|s| - 1]) + s[|s| - 1] as int - '0' as int
  }

  /** The printed number consists of digits, without a leading zero, and denotes what was printed. */
  lemma {:induction false} DecimalDenotes(n: nat)
    ensures AllDigits(Decimal(n)) && Denoted(Decimal(n)) == n
    ensures n > 0 ==> Decimal(n)[0] != '0'
  {
    var s := Decimal(n);
    assert s[|s| - 1] == Digit(n % 10);
    if n < 10 {
      assert s[..|s| - 1] == "";
    } else {
      assert s[..|s| - 1] == Decimal(n / 10);
      DecimalDenotes(n / 10);
    }
  }

  lemma {:induction false} DecimalInjective(a: nat, b: nat)
    requires Decimal(a) == Decimal(b)
    ensures a == b
  {
    DecimalDenotes(a);
    DecimalDenotes(b);
  }

  lemma {:induction false} SymbolNameInjective(a: nat, b: nat)
    requires SymbolName(a) == SymbolName(b)
    ensures a == b
  {
    assert (".Lstr" + Decimal(a))[5..] == Decimal(a) && (".Lstr" + Decimal(b))[5..] == Decimal(b);
    DecimalInjective(a, b);
  }

  predicate HasSymbol(d: DataItem, n: nat) {
    exists k: nat :: k < n && d.symbol == SymbolName(k)
  }

  /** No two literals share a symbol, and all symbols were generated before number `n`. */
  ghost predicate UniqueSymbols(items: seq<DataItem>, n: nat) {
    && (forall i :: 0 <= i < |items| ==> HasSymbol(items[i], n))
    && (forall i, j :: 0 <= i < j < |items| ==> items[i].symbol != items[j].symbol)
  }

  /** The counter behind the symbols, shared by all programs of the process. */
  class SymbolCounter {
    var next: nat

    constructor ()
      ensures next == 0
    {
      next := 0;
    }

    /** Adds a string literal with a new symbol to a program's list. */
    method AddString(data: List<DataItem>, bytes: seq<bv8>) returns (d: DataItem)
      requires data.Valid() && UniqueSymbols(Items(data.nodes), next)
      modifies this, data, data.nodes
      ensures data.Valid() && next == old(next) + 1
      ensures d.bytes == bytes && d.symbol == SymbolName(old(next)) && Items(data.nodes) == old(Items(data.nodes)) + [d]
      ensures UniqueSymbols(Items(data.nodes), next)
    {
      d := DataItem(SymbolName(next), bytes);
      ghost var items, n := Items(data.nodes), next;
      AppendKeepsUnique(items, n, d);
      next := next + 1;
      var node := new Node(d);
      data.Append(node, [node]);
      assert Items([node]) == [d] + Items([]);
    }
  }

  /** A symbol generated later differs from all earlier ones. */
  lemma {:induction false} AppendKeepsUnique(items: seq<DataItem>, n: nat, d: DataItem)
    requires UniqueSymbols(items, n) && d.symbol == SymbolName(n)
    ensures UniqueSymbols(items + [d], n + 1)
  {
    var all := items + [d];
    forall i | 0 <= i < |all|
      ensures HasSymbol(all[i], n + 1)
    {
      if i < |items| {
        assert HasSymbol(items[i], n);
        var k: nat :| k < n && items[i].symbol == SymbolName(k);
        assert k < n + 1 && all[i].symbol == SymbolName(k);
      }
    }
    forall i, j | 0 <= i < j < |all|
      ensures all[i].symbol != all[j].symbol
    {
      if j == |items| {
        assert HasSymbol(items[i], n);
        var k: nat :| k < n && items[i].symbol == SymbolName(k);
        if SymbolName(k) == SymbolName(n) {
          SymbolNameInjective(k, n);
        }
      }
    }
  }

  function Symbols(items: seq<DataItem>): (r: seq<CString>)
    ensures |r| == |items| && forall i :: 0 <= i < |items| ==> r[i] == items[i].symbol
  {
    if items == [] then [] else [items[0].symbol] + Symbols(items[1..])
  }

  /** Every literal's symbol resolves, in the code generator's search, to that very literal. */
  lemma {:induction false} StringsResolve(items: seq<DataItem>, n: nat, i: nat)
    requires UniqueSymbols(items, n) && i < |items|
    ensures FindData(Symbols(items), items[i].symbol) == Some(i)
  {
    FirstMatch(Symbols(items), i);
  }

  lemma {:induction false} FirstMatch(data: seq<CString>, i: nat)
    requires i < |data| && forall j :: 0 <= j < i ==> data[j] != data[i]
    ensures FindData(data, data[i]) == Some(i)
  {
    if i > 0 {
      FirstMatch(data[1..], i - 1);
    }
  }
}
