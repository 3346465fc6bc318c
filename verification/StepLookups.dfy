/** How a step of one call may change what the tree answers for a key. */
module StepLookups {
  import opened Wrappers
  import opened Keys
  import opened NodeHeap
  import opened Protocol
  import opened SlotLifecycle
  import opened ProtocolInvariant
  import opened ProtocolSteps

  ghost predicate Answers(h: Heap, n: nat, k: Key, answers: set<Option<Value>>) {
    Lookup(h, n, k) in answers
  }

  /** Call `c` may only move the answer for `k` within `answers`. */
  ghost predicate Allowed(c: Call, k: Key, answers: set<Option<Value>>) {
    && (c == Remove(k) ==> None in answers)
    && (IsWriter(c) && c.key == k && (c.Insert? || None in answers) ==> Some(c.val) in answers)
  }

  /** Call `u` is rebuilding the first child of root `r` that `k` belongs to. */
  ghost predicate Rebuilds(call: Call, pc: PC, h: Heap, r: nat, k: Key) {
    && IsKeyed(call) && pc.Scan? && pc.job.Subtree? && pc.job.r == r
    && Slot(h.meta, r, call.key) == Slot(h.meta, r, k)
  }

  ghost predicate SubSwaps(pc: PC) { pc.Scan? && pc.job.Subtree? && pc.stack == [] && |pc.out| > 1 }

  ghost predicate Captured(out: seq<Pair>, k: Key, answers: set<Option<Value>>) {
    exists p :: p in out && p.key == k && Some(p.val) in answers
  }

  /** A tree built from the snapshot gives an allowed answer. */
  ghost predicate OutAnswers(out: seq<Pair>, k: Key, answers: set<Option<Value>>) {
    Captured(out, k, answers) || (!HasKey(out, k) && None in answers)
  }

  lemma FragmentAnswers(h: Heap, f: Heap, path: seq<At>, pairs: seq<Pair>, k: Key, answers: set<Option<Value>>)
    requires Fragment(h, f, path, pairs) && OutAnswers(pairs, k, answers)
    ensures Lookup(Append(h, f), |h.meta|, k) in answers
  {
    var found := Lookup(Append(h, f), |h.meta|, k);
    if found.Some? {
      var p := Pair(k, found.value);
      assert Lookup(Append(h, f), |h.meta|, p.key) == Some(p.val);
      assert p in pairs;
    }
  }

  /** A child published over a slot answers for other keys than the new one as the slot did. */
  lemma ChildAnswers(h: Heap, f: Heap, path: seq<At>, seen: Seen, entry: Pair, k: Key)
    requires Fragment(h, f, path, ChildPairs(seen, entry))
    ensures Lookup(Append(h, f), |h.meta|, k)
         == if k == entry.key then Some(entry.val)
            else if seen.SawData? && seen.pair.key == k then Some(seen.pair.val)
            else None
  {
    var found := Lookup(Append(h, f), |h.meta|, k);
    var pairs := ChildPairs(seen, entry);
    if found.Some? {
      var p := Pair(k, found.value);
      assert Lookup(Append(h, f), |h.meta|, p.key) == Some(p.val);
      assert p in pairs;
    }
    assert entry in pairs;
    if seen.SawData? && seen.pair.key != entry.key {
      assert seen.pair in pairs;
    }
  }

  /** A replaced slot that still gives an allowed answer changes nothing for the nodes above it. */
  lemma StoredAnswers(h: Heap, g: Heap, n: nat, i: nat, x: Cell, m: nat, k: Key, answers: set<Option<Value>>)
    requires WF(h) && WF(g) && Stored(h, g, n, i, x) && m < |h.meta|
    requires i == Slot(h.meta, n, k) && Answers(h, n, k, answers) ==> Answers(g, n, k, answers)
    requires Answers(h, m, k, answers)
    ensures Answers(g, m, k, answers)
  {
    forall j | 0 <= j < |h.cells| && (j != n || i != Slot(h.meta, n, k)) ensures CellFor(g, j, k) == CellFor(h, j, k) {
      SlotStays(h, g, j, k);
    }
    if i == Slot(h.meta, n, k) {
      LookupAfter(h, g, n, m, k);
      if Reaches(h, m, n, k) {
        ReachesLookup(h, m, n, k);
      }
    } else {
      LookupUnchanged(h, g, m, k);
    }
  }

  /** What a freshly linked child answers is what its fragment binds. */
  lemma LinkedLookup(h: Heap, f: Heap, pairs: seq<Pair>, n: nat, key: Key, stale: Option<Pair>, k: Key)
    requires WF(h) && n < |h.meta|
    requires Fragment(h, f, h.meta[n].path + [At(n, Slot(h.meta, n, key))], pairs)
    requires stale == PairOf(CellFor(h, n, key))
    requires Slot(h.meta, n, k) == Slot(h.meta, n, key)
    ensures InHeap(h, n, key)
    ensures var g := Store(h, f, n, key, Child(Ptr(|h.meta|, None), stale));
            Lookup(g, n, k) == Lookup(Append(h, f), |h.meta|, k)
  {
    StoreFragment(h, f, pairs, n, key, stale);
    var a := Append(h, f);
    var g := Store(h, f, n, key, Child(Ptr(|h.meta|, None), stale));
    AppendWF(h, f, h.meta[n].path + [At(n, Slot(h.meta, n, key))], pairs);
    LookupUnchanged(a, g, |h.meta|, k);
    SlotStays(h, g, n, k);
  }

  lemma PublishAnswers(ops: seq<Call>, s: State, s': State, t: nat, f: Heap, m: nat, k: Key, answers: set<Option<Value>>)
    requires Inv(ops, s) && t < |ops| && PublishStep(ops, s, s', t, f) && m < |s.h.meta|
    requires Allowed(ops[t], k, answers)
    requires Answers(s.h, m, k, answers)
    ensures Answers(s'.h, m, k, answers)
  {
    PublishOK(ops, s, s', t, f);
    var Owning(r, first, cur, seen) := s.pcs[t];
    assert PcOK(ops[t], s.h, s.root, t, s.pcs[t]);
    var key := ops[t].key;
    var i, x := Slot(s.h.meta, cur, key), CellFor(s.h, cur, key);
    var entry := Pair(key, ops[t].val);
    SlotInRange(s.h, cur, key);
    if seen.SawEmpty? {
      assert Append(s.h, NO_NODES) == s.h;
      StoredAnswers(s.h, s'.h, cur, i, Data(entry), m, k, answers);
    } else {
      StoreFragment(s.h, f, ChildPairs(seen, entry), cur, key, PairOf(x));
      if Slot(s.h.meta, cur, k) == i {
        LinkedLookup(s.h, f, ChildPairs(seen, entry), cur, key, PairOf(x), k);
        ChildAnswers(s.h, f, s.h.meta[cur].path + [At(cur, i)], seen, entry, k);
      }
      StoredAnswers(s.h, s'.h, cur, i, Child(Ptr(|s.h.meta|, None), PairOf(x)), m, k, answers);
    }
  }

  lemma CasAnswers(ops: seq<Call>, s: State, s': State, t: nat, m: nat, k: Key, answers: set<Option<Value>>)
    requires Inv(ops, s) && t < |ops| && CasStep(ops, s, s', t) && m < |s.h.meta|
    requires Allowed(ops[t], k, answers)
    requires Answers(s.h, m, k, answers)
    ensures Answers(s'.h, m, k, answers)
  {
    CasOK(ops, s, s', t);
    var Armed(r, first, cur, seen) := s.pcs[t];
    assert PcOK(ops[t], s.h, s.root, t, s.pcs[t]);
    var key := ops[t].key;
    var i, x := Slot(s.h.meta, cur, key), CellFor(s.h, cur, key);
    var y := if ops[t].Remove? && x.Data? then Tomb(x.pair) else Writing(t, WasOf(x));
    SlotInRange(s.h, cur, key);
    assert Append(s.h, NO_NODES) == s.h;
    StoredAnswers(s.h, s'.h, cur, i, y, m, k, answers);
  }

  /** Swapping in a subtree changes nothing for other keys of the root, and for other nodes. */
  lemma SwapElsewhere(h: Heap, g: Heap, r: nat, i: nat, x: Cell, m: nat, k: Key)
    requires WF(h) && Stored(h, g, r, i, x) && IsRoot(h, r) && m < |h.meta|
    requires m != r || Slot(h.meta, r, k) != i
    ensures Lookup(g, m, k) == Lookup(h, m, k)
  {
    forall j | 0 <= j < |h.cells| && (j != r || i != Slot(h.meta, r, k)) ensures CellFor(g, j, k) == CellFor(h, j, k) {
      SlotStays(h, g, j, k);
    }
    if m == r {
      LookupUnchanged(h, g, m, k);
    } else {
      NoWayToRoot(h, m, r, k);
      LookupAfter(h, g, r, m, k);
    }
  }

  /** Freezing or unfreezing a pointer changes no answer. */
  lemma RetagAnswers(h: Heap, g: Heap, r: nat, key: Key, ptr: Ptr, m: nat, k: Key, answers: set<Option<Value>>)
    requires WF(h) && WF(g) && r < |h.meta| && m < |h.meta|
    requires var x := CellFor(h, r, key); x.Child? && x.ptr.id == ptr.id
    requires Stored(h, g, r, Slot(h.meta, r, key), CellFor(h, r, key).(ptr := ptr))
    requires Answers(h, m, k, answers)
    ensures Answers(g, m, k, answers)
  {
    var i, x := Slot(h.meta, r, key), CellFor(h, r, key);
    SlotInRange(h, r, key);
    SlotStays(h, g, r, k);
    if Slot(h.meta, r, k) == i {
      forall j | x.ptr.id <= j < |h.cells| ensures CellFor(g, j, k) == CellFor(h, j, k) {
        SlotStays(h, g, j, k);
      }
      LookupUnchanged(h, g, x.ptr.id, k);
    }
    StoredAnswers(h, g, r, i, x.(ptr := ptr), m, k, answers);
  }

  /** Replacing the first child by one built from a snapshot with an allowed answer. */
  lemma SubSwapAnswers(ops: seq<Call>, s: State, s': State, t: nat, f: Heap, m: nat, k: Key, answers: set<Option<Value>>)
    requires Inv(ops, s) && t < |ops| && SubSwapStep(ops, s, s', t, f) && m < |s.h.meta|
    requires SubSwaps(s.pcs[t]) && Rebuilds(ops[t], s.pcs[t], s.h, m, k) ==> OutAnswers(s.pcs[t].out, k, answers)
    requires Answers(s.h, m, k, answers)
    ensures Answers(s'.h, m, k, answers)
  {
    var Subtree(r, c) := s.pcs[t].job;
    assert PcOK(ops[t], s.h, s.root, t, s.pcs[t]);
    var key, out := ops[t].key, s.pcs[t].out;
    var i, x := Slot(s.h.meta, r, key), CellFor(s.h, r, key);
    SlotInRange(s.h, r, key);
    if |out| <= 1 {
      StoreNone(s.h, r, key, x.(ptr := Ptr(c, None)));
      RetagAnswers(s.h, s'.h, r, key, Ptr(c, None), m, k, answers);
    } else {
      assert s.h.meta[r].path + [At(r, i)] == [At(r, i)];
      StoreFragment(s.h, f, out, r, key, x.stale);
      if m == r && Slot(s.h.meta, r, k) == i {
        LinkedLookup(s.h, f, out, r, key, x.stale, k);
        FragmentAnswers(s.h, f, [At(r, i)], out, k, answers);
      } else {
        SwapElsewhere(s.h, s'.h, r, i, Child(Ptr(|s.h.meta|, None), x.stale), m, k);
      }
    }
  }

  lemma SubFreezeAnswers(ops: seq<Call>, s: State, s': State, t: nat, m: nat, k: Key, answers: set<Option<Value>>)
    requires Inv(ops, s) && t < |ops| && SubFreezeStep(ops, s, s', t) && m < |s.h.meta|
    requires Answers(s.h, m, k, answers)
    ensures Answers(s'.h, m, k, answers)
  {
    var SubArmed(r, c) := s.pcs[t];
    var key := ops[t].key;
    assert PcOK(ops[t], s.h, s.root, t, s.pcs[t]);
    SlotInRange(s.h, r, key);
    StoreNone(s.h, r, key, CellFor(s.h, r, key).(ptr := Ptr(c, Some(t))));
    RetagAnswers(s.h, s'.h, r, key, Ptr(c, Some(t)), m, k, answers);
  }

  /** No step turns an allowed answer into another one, unless it swaps in a snapshot. */
  lemma StepAnswers(ops: seq<Call>, s: State, s': State, t: nat, m: nat, k: Key, answers: set<Option<Value>>)
    requires Inv(ops, s) && Next(ops, s, s', t) && m < |s.h.meta|
    requires Allowed(ops[t], k, answers)
    requires SubSwaps(s.pcs[t]) && Rebuilds(ops[t], s.pcs[t], s.h, m, k) ==> OutAnswers(s.pcs[t].out, k, answers)
    requires Answers(s.h, m, k, answers)
    ensures Answers(s'.h, m, k, answers)
  {
    if s'.h == s.h {
    } else if CasStep(ops, s, s', t) {
      CasAnswers(ops, s, s', t, m, k, answers);
    } else if f :| PublishStep(ops, s, s', t, f) {
      PublishAnswers(ops, s, s', t, f, m, k, answers);
    } else if SubFreezeStep(ops, s, s', t) {
      SubFreezeAnswers(ops, s, s', t, m, k, answers);
    } else if f :| SubSwapStep(ops, s, s', t, f) {
      SubSwapAnswers(ops, s, s', t, f, m, k, answers);
    } else {
      var f :| RootSwapStep(ops, s, s', t, f);
      AppendWF(s.h, f, [], if ops[t].Drain? then [] else s.pcs[t].out);
      LookupUnchanged(s.h, s'.h, m, k);
    }
  }
}
