/** In-order traversal of a tree at rest: full iteration, range seek, and the last entry. */
module Traversal {
  import opened Wrappers
  import opened Keys
  import opened NodeHeap
  import opened Protocol

  // ---------------------------------------------------------------------------------
  // The in-order contents of a tree

  /** Entries of node `n` from slot `i` on, in slot order. */
  function Entries(h: Heap, n: nat, i: nat): seq<Pair>
    decreases if n < |h.cells| then |h.cells| - n else 0,
              if n < |h.cells| && i < |h.cells[n]| then |h.cells[n]| - i else 0
  {
    if n >= |h.cells| || i >= |h.cells[n]| then []
    else SlotEntries(h, n, h.cells[n][i]) + Entries(h, n, i + 1)
  }

  /** Entries of one slot of node `n`. */
  function SlotEntries(h: Heap, n: nat, x: Cell): seq<Pair>
    decreases if n < |h.cells| then |h.cells| - n else 0, 0
  {
    match x
    case Data(p) => [p]
    case Child(ptr, _) => if n < ptr.id < |h.cells| then Entries(h, ptr.id, 0) else []
    case _ => []
  }

  ghost predicate AllAtRest(h: Heap) {
    |h.meta| == |h.cells| && forall n :: 0 <= n < |h.cells| ==> AtRest(h, n)
  }

  /** An entry at slot `i` or later predicts there, and lies in the region of the node. */
  lemma {:induction false} EntriesPlaced(h: Heap, n: nat, i: nat, p: Pair)
    requires WF(h) && n < |h.meta| && p in Entries(h, n, i)
    ensures Slot(h.meta, n, p.key) >= i
    ensures InRegion(h.meta, h.meta[n].path, p.key)
    decreases |h.meta| - n, if i < |h.cells[n]| then |h.cells[n]| - i else 0
  {
    assert NodeOK(h, n);
    var x := h.cells[n][i];
    var path := h.meta[n].path + [At(n, i)];
    if p in Entries(h, n, i + 1) {
      EntriesPlaced(h, n, i + 1, p);
    } else {
      assert CellOK(h, n, i, x);
      if x.Child? {
        EntriesPlaced(h, x.ptr.id, 0, p);
      }
      assert InRegion(h.meta, path, p.key);
      assert path[|path| - 1] == At(n, i);
      forall j | 0 <= j < |h.meta[n].path|
        ensures Slot(h.meta, h.meta[n].path[j].node, p.key) == h.meta[n].path[j].slot
      {
        assert path[j] == h.meta[n].path[j];
      }
    }
  }

  /** An entry of one slot predicts to exactly that slot. */
  lemma SlotEntriesPlaced(h: Heap, n: nat, i: nat, p: Pair)
    requires WF(h) && n < |h.meta| && i < |h.cells[n]| && p in SlotEntries(h, n, h.cells[n][i])
    ensures Slot(h.meta, n, p.key) == i
  {
    assert NodeOK(h, n);
    var x := h.cells[n][i];
    var path := h.meta[n].path + [At(n, i)];
    assert path[|path| - 1] == At(n, i);
    assert CellOK(h, n, i, x);
    if x.Child? {
      EntriesPlaced(h, x.ptr.id, 0, p);
    }
  }

  /** The in-order contents are strictly ascending. */
  lemma {:induction false} EntriesAscend(h: Heap, n: nat, i: nat)
    requires WF(h) && n < |h.meta|
    ensures Ascending(Entries(h, n, i))
    decreases |h.meta| - n, if i < |h.cells[n]| then |h.cells[n]| - i else 0
  {
    if i < |h.cells[n]| {
      assert NodeOK(h, n);
      var x := h.cells[n][i];
      assert CellOK(h, n, i, x);
      if x.Child? {
        EntriesAscend(h, x.ptr.id, 0);
      }
      EntriesAscend(h, n, i + 1);
      forall p, q | p in SlotEntries(h, n, x) && q in Entries(h, n, i + 1) ensures p.key < q.key {
        SlotEntriesPlaced(h, n, i, p);
        EntriesPlaced(h, n, i + 1, q);
        if q.key <= p.key {
          SlotMonotone(h, n, q.key, p.key);
        }
      }
      AscendingConcat(SlotEntries(h, n, x), Entries(h, n, i + 1));
    }
  }

  /** Every entry is found by descent. */
  lemma {:induction false} EntryIsBound(h: Heap, n: nat, i: nat, p: Pair)
    requires WF(h) && n < |h.meta| && p in Entries(h, n, i)
    ensures Lookup(h, n, p.key) == Some(p.val)
    decreases |h.meta| - n, if i < |h.cells[n]| then |h.cells[n]| - i else 0
  {
    assert NodeOK(h, n);
    if p in Entries(h, n, i + 1) {
      EntryIsBound(h, n, i + 1, p);
    } else {
      var x := h.cells[n][i];
      SlotEntriesPlaced(h, n, i, p);
      if x.Child? {
        assert CellOK(h, n, i, x);
        EntryIsBound(h, x.ptr.id, 0, p);
      }
    }
  }

  lemma {:induction false} LaterSlotsIncluded(h: Heap, n: nat, i: nat, j: nat, p: Pair)
    requires n < |h.cells| && i <= j < |h.cells[n]| && p in SlotEntries(h, n, h.cells[n][j])
    ensures p in Entries(h, n, i)
    decreases j - i
  {
    if i < j {
      LaterSlotsIncluded(h, n, i + 1, j, p);
    }
  }

  /** Every key found by descent is an entry. */
  lemma {:induction false} BoundIsEntry(h: Heap, n: nat, k: Key)
    requires WF(h) && AllAtRest(h) && n < |h.meta| && Lookup(h, n, k).Some?
    ensures Pair(k, Lookup(h, n, k).value) in Entries(h, n, 0)
    decreases |h.meta| - n
  {
    SlotInRange(h, n, k);
    assert AtRest(h, n);
    var x := CellFor(h, n, k);
    if x.Child? {
      BoundIsEntry(h, x.ptr.id, k);
    }
    LaterSlotsIncluded(h, n, 0, Slot(h.meta, n, k), Pair(k, Lookup(h, n, k).value));
  }

  /** Descent and in-order traversal agree on what a tree contains. */
  lemma EntriesBind(h: Heap, n: nat)
    requires WF(h) && AllAtRest(h) && n < |h.meta|
    ensures Ascending(Entries(h, n, 0))
    ensures forall p :: p in Entries(h, n, 0) <==> Lookup(h, n, p.key) == Some(p.val)
  {
    EntriesAscend(h, n, 0);
    forall p ensures p in Entries(h, n, 0) <==> Lookup(h, n, p.key) == Some(p.val) {
      if p in Entries(h, n, 0) {
        EntryIsBound(h, n, 0, p);
      } else if Lookup(h, n, p.key) == Some(p.val) {
        BoundIsEntry(h, n, p.key);
      }
    }
  }

  // ---------------------------------------------------------------------------------
  // What a traversal stack has still to yield

  function Rest(h: Heap, stack: seq<Frame>): seq<Pair> {
    if stack == [] then []
    else
      var top := stack[|stack| - 1];
      Entries(h, top.node, top.next) + Rest(h, stack[..|stack| - 1])
  }

  /** The number of visits left, which bounds every loop below. */
  function Work(h: Heap, n: nat, i: nat): nat
    decreases if n < |h.cells| then |h.cells| - n else 0,
              if n < |h.cells| && i < |h.cells[n]| then |h.cells[n]| - i else 0
  {
    if n >= |h.cells| || i >= |h.cells[n]| then 1
    else 1 + SlotWork(h, n, h.cells[n][i]) + Work(h, n, i + 1)
  }

  function SlotWork(h: Heap, n: nat, x: Cell): nat
    decreases if n < |h.cells| then |h.cells| - n else 0, 0
  {
    if x.Child? && n < x.ptr.id < |h.cells| then Work(h, x.ptr.id, 0) else 0
  }

  function StackWork(h: Heap, stack: seq<Frame>): nat {
    if stack == [] then 0
    else
      var top := stack[|stack| - 1];
      Work(h, top.node, top.next) + StackWork(h, stack[..|stack| - 1])
  }

  ghost predicate StackOK(h: Heap, stack: seq<Frame>) {
    forall j :: 0 <= j < |stack| ==> stack[j].node < |h.cells|
  }

  lemma RestPush(h: Heap, stack: seq<Frame>, f: Frame)
    ensures Rest(h, stack + [f]) == Entries(h, f.node, f.next) + Rest(h, stack)
    ensures StackWork(h, stack + [f]) == Work(h, f.node, f.next) + StackWork(h, stack)
  {
    assert (stack + [f])[..|stack|] == stack;
  }

  /** Passing a slot: what it holds comes first, then what is left. */
  lemma PassRest(h: Heap, stack: seq<Frame>)
    requires stack != [] && StackOK(h, stack)
    requires var top := stack[|stack| - 1]; top.next < |h.cells[top.node]|
    ensures var top := stack[|stack| - 1]; var x := h.cells[top.node][top.next];
            && StackOK(h, Moved(stack))
            && Rest(h, stack) == SlotEntries(h, top.node, x) + Rest(h, Moved(stack))
            && (SlotEntries(h, top.node, x) == [] ==> Rest(h, stack) == Rest(h, Moved(stack)))
            && StackWork(h, stack) == 1 + SlotWork(h, top.node, x) + StackWork(h, Moved(stack))
  {
    var top, below := stack[|stack| - 1], stack[..|stack| - 1];
    var x := h.cells[top.node][top.next];
    RestPush(h, below, Frame(top.node, top.next + 1));
    RestPush(h, below, top);
    assert below + [top] == stack;
    Regroup(SlotEntries(h, top.node, x), Entries(h, top.node, top.next + 1), Rest(h, below));
  }

  lemma Regroup(a: seq<Pair>, b: seq<Pair>, c: seq<Pair>)
    ensures (a + b) + c == a + (b + c)
  {
  }

  /** Descending into a child: its entries come first. */
  lemma DescendRest(h: Heap, stack: seq<Frame>)
    requires WF(h) && stack != [] && StackOK(h, stack)
    requires var top := stack[|stack| - 1];
             top.next < |h.cells[top.node]| && h.cells[top.node][top.next].Child?
    ensures var top := stack[|stack| - 1]; var down := Moved(stack) + [Frame(h.cells[top.node][top.next].ptr.id, 0)];
            && StackOK(h, down)
            && Rest(h, stack) == Rest(h, down)
            && StackWork(h, down) < StackWork(h, stack)
  {
    var top := stack[|stack| - 1];
    var x := h.cells[top.node][top.next];
    assert NodeOK(h, top.node);
    assert CellOK(h, top.node, top.next, x);
    PassRest(h, stack);
    RestPush(h, Moved(stack), Frame(x.ptr.id, 0));
  }

  /** One turn of the loop in `next`: pops an exhausted node, or passes a slot, yielding its
      pair or descending into its child. */
  method Visit(h: Heap, stack: seq<Frame>) returns (after: seq<Frame>, item: Option<Pair>)
    requires WF(h) && AllAtRest(h) && StackOK(h, stack) && stack != []
    ensures StackOK(h, after) && StackWork(h, after) < StackWork(h, stack)
    ensures item.None? ==> Rest(h, after) == Rest(h, stack)
    ensures item.Some? ==> [item.value] + Rest(h, after) == Rest(h, stack)
  {
    var top := stack[|stack| - 1];
    if top.next >= |h.cells[top.node]| {
      return stack[..|stack| - 1], None;
    }
    PassRest(h, stack);
    after, item := Moved(stack), None;
    match h.cells[top.node][top.next] {
      case Data(p) =>
        item := Some(p);
      case Child(ptr, _) =>
        DescendRest(h, stack);
        after := after + [Frame(ptr.id, 0)];
      case _ =>
    }
  }

  lemma OnlyRoot(h: Heap, root: nat)
    ensures Rest(h, [Frame(root, 0)]) == Entries(h, root, 0)
  {
    RestPush(h, [], Frame(root, 0));
    assert [] + [Frame(root, 0)] == [Frame(root, 0)];
  }

  /** `Iter`: the explicit-stack depth-first iterator. */
  class Iter {
    const h: Heap
    var stack: seq<Frame>

    ghost predicate Valid()
      reads this
    {
      WF(h) && AllAtRest(h) && StackOK(h, stack)
    }

    /** The entries still to come. */
    ghost function Remaining(): seq<Pair>
      reads this
    {
      Rest(h, stack)
    }

    constructor (h: Heap, root: nat)
      requires WF(h) && AllAtRest(h) && root < |h.meta|
      ensures Valid() && this.h == h && Remaining() == Entries(h, root, 0)
    {
      this.h := h;
      stack := [Frame(root, 0)];
      new;
      OnlyRoot(h, root);
    }

    method Next() returns (r: Option<Pair>)
      requires Valid()
      modifies this
      ensures Valid()
      ensures old(Remaining()) == [] ==> r == None && Remaining() == []
      ensures old(Remaining()) != [] ==> r == Some(old(Remaining())[0]) && Remaining() == old(Remaining())[1..]
    {
      while stack != []
        invariant Valid() && Remaining() == old(Remaining())
        decreases StackWork(h, stack)
      {
        var after, item := Visit(h, stack);
        stack := after;
        if item.Some? {
          return item;
        }
      }
      return None;
    }
  }

  /** `sorted_pairs` and `iter_sorted`: everything, in order. */
  method SortedPairs(h: Heap, root: nat) returns (pairs: seq<Pair>)
    requires WF(h) && AllAtRest(h) && root < |h.meta|
    ensures pairs == Entries(h, root, 0)
  {
    var iter := new Iter(h, root);
    pairs := [];
    var next := iter.Next();
    while next.Some?
      invariant iter.Valid() && fresh(iter)
      invariant next.Some? ==> pairs + [next.value] + iter.Remaining() == Entries(h, root, 0)
      invariant next.None? ==> pairs == Entries(h, root, 0)
      decreases |iter.Remaining()|, next.Some?
    {
      pairs := pairs + [next.value];
      next := iter.Next();
    }
  }

  /** The smallest entry. */
  method FirstEntry(h: Heap, root: nat) returns (r: Option<Pair>)
    requires WF(h) && AllAtRest(h) && root < |h.meta|
    ensures r == if Entries(h, root, 0) == [] then None else Some(Entries(h, root, 0)[0])
  {
    var iter := new Iter(h, root);
    r := iter.Next();
  }

  // ---------------------------------------------------------------------------------
  // Ranges

  datatype Bound = Included(key: Key) | Excluded(key: Key) | Unbounded

  predicate PastEnd(end: Bound, k: Key) {
    match end
    case Included(e) => k > e
    case Excluded(e) => k >= e
    case Unbounded => false
  }

  predicate BeforeStart(start: Bound, k: Key) {
    match start
    case Included(s) => k < s
    case Excluded(s) => k <= s
    case Unbounded => false
  }

  /** The entries within the bounds. */
  function Within(pairs: seq<Pair>, start: Bound, end: Bound): seq<Pair> {
    if pairs == [] then []
    else
      (if BeforeStart(start, pairs[0].key) || PastEnd(end, pairs[0].key) then [] else [pairs[0]])
      + Within(pairs[1..], start, end)
  }

  lemma {:induction false} WithinSkips(a: seq<Pair>, b: seq<Pair>, start: Bound, end: Bound)
    requires forall p :: p in a ==> BeforeStart(start, p.key)
    ensures Within(a + b, start, end) == Within(b, start, end)
  {
    if a == [] {
      assert a + b == b;
    } else {
      assert (a + b)[1..] == a[1..] + b;
      WithinSkips(a[1..], b, start, end);
    }
  }

  lemma {:induction false} NothingPastEnd(a: seq<Pair>, start: Bound, end: Bound)
    requires forall p :: p in a ==> PastEnd(end, p.key)
    ensures Within(a, start, end) == []
  {
    if a != [] {
      NothingPastEnd(a[1..], start, end);
    }
  }

  /** Within bounds means a member whose key compares with each bound as the kind of the bound
      says; an inverted or empty pair of bounds leaves nothing. */
  lemma {:induction false} WithinMembers(pairs: seq<Pair>, start: Bound, end: Bound, p: Pair)
    ensures p in Within(pairs, start, end)
       <==> p in pairs
            && (match start case Included(s) => s <= p.key case Excluded(s) => s < p.key case Unbounded => true)
            && (match end case Included(e) => p.key <= e case Excluded(e) => p.key < e case Unbounded => true)
  {
    if pairs != [] {
      WithinMembers(pairs[1..], start, end, p);
    }
  }

  lemma {:induction false} WithinAscends(pairs: seq<Pair>, start: Bound, end: Bound)
    requires Ascending(pairs)
    ensures Ascending(Within(pairs, start, end))
  {
    if pairs != [] {
      WithinAscends(pairs[1..], start, end);
      var rest := Within(pairs[1..], start, end);
      if !BeforeStart(start, pairs[0].key) && !PastEnd(end, pairs[0].key) {
        forall q | q in rest ensures pairs[0].key < q.key {
          WithinMembers(pairs[1..], start, end, q);
        }
        AscendingConcat([pairs[0]], rest);
      }
    }
  }

  /** Entries of node `n` in slots before `i`. */
  function EntriesBefore(h: Heap, n: nat, i: nat): seq<Pair>
    requires n < |h.cells| && i <= |h.cells[n]|
  {
    if i == 0 then [] else EntriesBefore(h, n, i - 1) + SlotEntries(h, n, h.cells[n][i - 1])
  }

  lemma {:induction false} SplitEntries(h: Heap, n: nat, i: nat)
    requires n < |h.cells| && i <= |h.cells[n]|
    ensures Entries(h, n, 0) == EntriesBefore(h, n, i) + Entries(h, n, i)
  {
    if i > 0 {
      SplitEntries(h, n, i - 1);
      Regroup(EntriesBefore(h, n, i - 1), SlotEntries(h, n, h.cells[n][i - 1]), Entries(h, n, i));
    }
  }

  lemma {:induction false} BeforeIsLess(h: Heap, n: nat, i: nat, p: Pair, k: Key)
    requires WF(h) && n < |h.meta| && i <= |h.cells[n]| && p in EntriesBefore(h, n, i)
    requires i <= Slot(h.meta, n, k)
    ensures p.key < k
  {
    if p in EntriesBefore(h, n, i - 1) {
      BeforeIsLess(h, n, i - 1, p, k);
    } else {
      SlotEntriesPlaced(h, n, i - 1, p);
      if k <= p.key {
        SlotMonotone(h, n, k, p.key);
      }
    }
  }

  /** What a seek skips lies before the start of the range. */
  lemma SeekSkips(dropped: seq<Pair>, kept: seq<Pair>, start: Bound, end: Bound)
    requires Ascending(dropped + kept) && !start.Unbounded?
    requires forall p :: p in dropped ==> p.key < start.key
    ensures Ascending(kept + [])
    ensures Within(kept + [], start, end) == Within(dropped + kept, start, end)
  {
    assert kept + [] == kept;
    AscendingSuffix(dropped, kept);
    WithinSkips(dropped, kept, start, end);
  }

  lemma SeekConcat(before: seq<Pair>, more: seq<Pair>, deep: seq<Pair>, later: seq<Pair>, below: seq<Pair>)
    ensures before + ((more + deep) + later) == (before + more) + (deep + later)
    ensures deep + (later + below) == (deep + later) + below
  {
  }

  /** `Range`: a traversal that starts near the first bound and stops past the second. */
  class Range {
    const h: Heap
    const start: Bound
    const end: Bound
    var stack: seq<Frame>
    var started: bool
    var done: bool

    ghost predicate Valid()
      reads this
    {
      && WF(h) && AllAtRest(h) && StackOK(h, stack)
      && Ascending(Rest(h, stack))
      && (started ==> forall p :: p in Rest(h, stack) ==> !BeforeStart(start, p.key))
    }

    /** The entries still to come. */
    ghost function Remaining(): seq<Pair>
      reads this
    {
      if done then [] else Within(Rest(h, stack), start, end)
    }

    constructor (h: Heap, root: nat, start: Bound, end: Bound)
      requires WF(h) && AllAtRest(h) && root < |h.meta|
      ensures Valid() && Remaining() == Within(Entries(h, root, 0), start, end)
    {
      this.h, this.start, this.end := h, start, end;
      stack, started, done := [], start.Unbounded?, false;
      new;
      EntriesAscend(h, root, 0);
      if start.Unbounded? {
        OnlyRoot(h, root);
        stack := stack + [Frame(root, 0)];
      } else {
        ghost var dropped, kept := SeekTo(root, start.key);
        SeekSkips(dropped, kept, start, end);
      }
    }

    /** Pushes the descent for `key`; all entries this skips are smaller than `key`. */
    method SeekTo(n: nat, key: Key) returns (ghost dropped: seq<Pair>, ghost kept: seq<Pair>)
      requires WF(h) && AllAtRest(h) && StackOK(h, stack) && n < |h.meta|
      modifies this`stack
      ensures StackOK(h, stack)
      ensures Entries(h, n, 0) == dropped + kept
      ensures Rest(h, stack) == kept + old(Rest(h, stack))
      ensures forall p :: p in dropped ==> p.key < key
      decreases |h.meta| - n
    {
      var p := Slot(h.meta, n, key);
      SlotInRange(h, n, key);
      var x := CellAt(h, n, p);
      dropped := EntriesBefore(h, n, p);
      SplitEntries(h, n, p);
      forall q | q in dropped ensures q.key < key {
        BeforeIsLess(h, n, p, q, key);
      }
      if x.Child? {
        RestPush(h, stack, Frame(n, p + 1));
        stack := stack + [Frame(n, p + 1)];
        ghost var more, deep := SeekTo(x.ptr.id, key);
        SeekConcat(dropped, more, deep, Entries(h, n, p + 1), old(Rest(h, stack)));
        kept := deep + Entries(h, n, p + 1);
        dropped := dropped + more;
      } else {
        RestPush(h, stack, Frame(n, p));
        stack := stack + [Frame(n, p)];
        kept := Entries(h, n, p);
      }
    }

    method Next() returns (r: Option<Pair>)
      requires Valid()
      modifies this
      ensures Valid()
      ensures old(Remaining()) == [] ==> r == None && Remaining() == []
      ensures old(Remaining()) != [] ==> r == Some(old(Remaining())[0]) && Remaining() == old(Remaining())[1..]
    {
      if done {
        return None;
      }
      while stack != []
        invariant Valid() && !done && Remaining() == old(Remaining())
        decreases StackWork(h, stack)
      {
        var after, item := Visit(h, stack);
        stack := after;
        if item.Some? {
          var p := item.value;
          YieldWithin(p, Rest(h, after), start, end);
          if PastEnd(end, p.key) {
            done := true;
            return None;
          }
          if !started {
            if BeforeStart(start, p.key) {
              continue;
            }
            started := true;
          }
          return item;
        }
      }
      return None;
    }
  }

  lemma AscendingSuffix(a: seq<Pair>, b: seq<Pair>)
    requires Ascending(a + b)
    ensures Ascending(b)
  {
    forall i, j | 0 <= i < j < |b| ensures b[i].key < b[j].key {
      assert (a + b)[|a| + i] == b[i] && (a + b)[|a| + j] == b[j];
    }
  }

  /** What meeting entry `p` means for a range. */
  lemma YieldWithin(p: Pair, rest: seq<Pair>, start: Bound, end: Bound)
    requires Ascending([p] + rest)
    ensures Ascending(rest)
    ensures PastEnd(end, p.key) ==> Within([p] + rest, start, end) == []
    ensures BeforeStart(start, p.key) ==> Within([p] + rest, start, end) == Within(rest, start, end)
    ensures !BeforeStart(start, p.key) ==> forall q :: q in rest ==> !BeforeStart(start, q.key)
    ensures !BeforeStart(start, p.key) && !PastEnd(end, p.key) ==>
              Within([p] + rest, start, end) == [p] + Within(rest, start, end)
  {
    FirstIsLeast(p, rest);
    assert ([p] + rest)[1..] == rest;
    if PastEnd(end, p.key) {
      NothingPastEnd([p] + rest, start, end);
    }
  }

  lemma FirstIsLeast(p: Pair, rest: seq<Pair>)
    requires Ascending([p] + rest)
    ensures Ascending(rest) && forall q :: q in rest ==> p.key < q.key
  {
    AscendingSuffix([p], rest);
    forall q | q in rest ensures p.key < q.key {
      var i :| 0 <= i < |rest| && rest[i] == q;
      assert ([p] + rest)[0] == p && ([p] + rest)[i + 1] == q;
    }
  }

  // ---------------------------------------------------------------------------------
  // The last entry

  /** What lies before the positions of a stack that is scanned from the right. */
  ghost function Left(h: Heap, stack: seq<Frame>): seq<Pair>
    requires LeftOK(h, stack)
  {
    if stack == [] then []
    else
      var top := stack[|stack| - 1];
      Left(h, stack[..|stack| - 1]) + EntriesBefore(h, top.node, top.next)
  }

  ghost predicate LeftOK(h: Heap, stack: seq<Frame>) {
    forall j :: 0 <= j < |stack| ==> stack[j].node < |h.cells| && stack[j].next <= |h.cells[stack[j].node]|
  }

  lemma LeftPush(h: Heap, stack: seq<Frame>, f: Frame)
    requires LeftOK(h, stack) && f.node < |h.cells| && f.next <= |h.cells[f.node]|
    ensures LeftOK(h, stack + [f])
    ensures Left(h, stack + [f]) == Left(h, stack) + EntriesBefore(h, f.node, f.next)
  {
    assert (stack + [f])[..|stack|] == stack;
  }

  /** The number of visits of a scan from the right. */
  function LeftWork(h: Heap, n: nat, i: nat): nat
    requires n < |h.cells| && i <= |h.cells[n]|
    decreases |h.cells| - n, i, 1
  {
    if i == 0 then 1 else 1 + SlotLeftWork(h, n, i - 1) + LeftWork(h, n, i - 1)
  }

  function SlotLeftWork(h: Heap, n: nat, i: nat): nat
    requires n < |h.cells| && i < |h.cells[n]|
    decreases |h.cells| - n, i, 0
  {
    var x := h.cells[n][i];
    if x.Child? && n < x.ptr.id < |h.cells| then LeftWork(h, x.ptr.id, |h.cells[x.ptr.id]|) else 0
  }

  ghost function StackLeftWork(h: Heap, stack: seq<Frame>): nat
    requires LeftOK(h, stack)
  {
    if stack == [] then 0
    else
      var top := stack[|stack| - 1];
      LeftWork(h, top.node, top.next) + StackLeftWork(h, stack[..|stack| - 1])
  }

  lemma LeftWorkPush(h: Heap, stack: seq<Frame>, f: Frame)
    requires LeftOK(h, stack) && f.node < |h.cells| && f.next <= |h.cells[f.node]|
    ensures StackLeftWork(h, stack + [f]) == LeftWork(h, f.node, f.next) + StackLeftWork(h, stack)
  {
    assert (stack + [f])[..|stack|] == stack;
  }

  /** Passing a slot from the right. */
  lemma LeftPass(h: Heap, below: seq<Frame>, n: nat, i: nat)
    requires LeftOK(h, below) && n < |h.cells| && i < |h.cells[n]|
    ensures LeftOK(h, below + [Frame(n, i)]) && LeftOK(h, below + [Frame(n, i + 1)])
    ensures Left(h, below + [Frame(n, i + 1)]) == Left(h, below + [Frame(n, i)]) + SlotEntries(h, n, h.cells[n][i])
    ensures StackLeftWork(h, below + [Frame(n, i + 1)])
         == 1 + SlotLeftWork(h, n, i) + StackLeftWork(h, below + [Frame(n, i)])
  {
    LeftPush(h, below, Frame(n, i));
    LeftPush(h, below, Frame(n, i + 1));
    LeftWorkPush(h, below, Frame(n, i));
    LeftWorkPush(h, below, Frame(n, i + 1));
    Regroup(Left(h, below), EntriesBefore(h, n, i), SlotEntries(h, n, h.cells[n][i]));
  }

  /** Entering a child from the right. */
  lemma LeftDescend(h: Heap, stack: seq<Frame>, n: nat, i: nat)
    requires WF(h) && LeftOK(h, stack) && n < |h.cells| && i < |h.cells[n]| && h.cells[n][i].Child?
    ensures var c := h.cells[n][i].ptr.id; n < c < |h.cells|
    ensures var c := h.cells[n][i].ptr.id; var deep := stack + [Frame(c, |h.cells[c]|)];
            && LeftOK(h, deep)
            && Left(h, deep) == Left(h, stack) + SlotEntries(h, n, h.cells[n][i])
            && StackLeftWork(h, deep) == SlotLeftWork(h, n, i) + StackLeftWork(h, stack)
  {
    assert NodeOK(h, n) && CellOK(h, n, i, h.cells[n][i]);
    var c := h.cells[n][i].ptr.id;
    SplitEntries(h, c, |h.cells[c]|);
    LeftPush(h, stack, Frame(c, |h.cells[c]|));
    LeftWorkPush(h, stack, Frame(c, |h.cells[c]|));
  }

  /** One turn of the scan from the right. */
  method VisitLast(h: Heap, stack: seq<Frame>) returns (after: seq<Frame>, item: Option<Pair>)
    requires WF(h) && LeftOK(h, stack) && stack != []
    ensures LeftOK(h, after) && StackLeftWork(h, after) < StackLeftWork(h, stack)
    ensures item.None? ==> Left(h, after) == Left(h, stack)
    ensures item.Some? ==> Left(h, after) + [item.value] == Left(h, stack)
  {
    var top, below := stack[|stack| - 1], stack[..|stack| - 1];
    assert below + [top] == stack;
    if top.next == 0 {
      LeftPush(h, below, top);
      LeftWorkPush(h, below, top);
      return below, None;
    }
    var n, i := top.node, top.next - 1;
    assert top == Frame(n, i + 1);
    LeftPass(h, below, n, i);
    after, item := below + [Frame(n, i)], None;
    match h.cells[n][i] {
      case Data(p) =>
        item := Some(p);
      case Child(ptr, _) =>
        LeftDescend(h, after, n, i);
        after := after + [Frame(ptr.id, |h.cells[ptr.id]|)];
      case _ =>
    }
  }

  /** The largest entry: scans from the right, and backs out of subtrees that removals have
      emptied. */
  method LastEntry(h: Heap, root: nat) returns (r: Option<Pair>)
    requires WF(h) && AllAtRest(h) && root < |h.meta|
    ensures var all := Entries(h, root, 0); r == if all == [] then None else Some(all[|all| - 1])
  {
    var stack := [Frame(root, |h.cells[root]|)];
    LeftRoot(h, root);
    while stack != []
      invariant LeftOK(h, stack) && Left(h, stack) == Entries(h, root, 0)
      decreases StackLeftWork(h, stack)
    {
      var after, item := VisitLast(h, stack);
      stack := after;
      if item.Some? {
        return item;
      }
    }
    return None;
  }

  lemma LeftRoot(h: Heap, root: nat)
    requires root < |h.cells|
    ensures LeftOK(h, [Frame(root, |h.cells[root]|)])
    ensures Left(h, [Frame(root, |h.cells[root]|)]) == Entries(h, root, 0)
  {
    SplitEntries(h, root, |h.cells[root]|);
    LeftPush(h, [], Frame(root, |h.cells[root]|));
    assert [] + [Frame(root, |h.cells[root]|)] == [Frame(root, |h.cells[root]|)];
  }
}
