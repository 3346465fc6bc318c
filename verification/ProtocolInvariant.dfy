/** The invariant of the protocol, for every call and every interleaving. */
module ProtocolInvariant {
  import opened Wrappers
  import opened Keys
  import opened NodeHeap
  import opened Protocol
  import opened ScanOrder
  import opened SlotLifecycle

  /** `c` was the child under `k`'s slot of root `r` when the call descended. */
  ghost predicate FirstOK(h: Heap, k: Key, r: nat, c: nat) {
    && IsRoot(h, r)
    && c < |h.meta| && h.meta[c].path == [At(r, Slot(h.meta, r, k))]
    && CellFor(h, r, k).Child?
  }

  /** The call came from root `r`, through `first`, down to `cur`. */
  ghost predicate OnPath(h: Heap, k: Key, r: nat, first: Option<nat>, cur: nat) {
    && IsRoot(h, r) && cur < |h.meta|
    && (first.None? ==> cur == r)
    && (first.Some? ==> FirstOK(h, k, r, first.value) && Reaches(h, first.value, cur, k))
  }

  /** What was seen can only have been overtaken by later states of the slot, which keep
      the pair that was seen. */
  ghost predicate SeenOK(call: Call, x: Cell, seen: Seen)
    requires IsKeyed(call)
  {
    match seen
    case SawData(p) => PairOf(x) == Some(p) && (call.Remove? ==> p.key == call.key) && (call.GetOrInsert? ==> p.key != call.key)
    case SawChild => x.Child?
    case _ => !call.Remove?
  }

  /** The slot is WRITING for call `t`, which saw what it held. */
  ghost predicate Owns(x: Cell, t: nat, seen: Seen) {
    && x.Writing? && x.owner == t
    && match seen
       case SawEmpty => x.was.WasEmpty?
       case SawTomb => x.was.WasTomb?
       case SawData(p) => x.was == WasData(p)
       case SawChild => false
  }

  ghost predicate AllInRegion(meta: seq<Meta>, path: seq<At>, out: seq<Pair>) {
    forall p :: p in out ==> InRegion(meta, path, p.key)
  }

  ghost predicate ScanFrom(h: Heap, base: nat, stack: seq<Frame>, out: seq<Pair>) {
    && base < |h.meta|
    && ScanOK(h.meta, stack, out)
    && (stack != [] ==> stack[0].node == base)
    && AllInRegion(h.meta, h.meta[base].path, out)
  }

  /** What call `t` may rely on at each point of its program. */
  ghost predicate PcOK(call: Call, h: Heap, root: Ptr, t: nat, pc: PC) {
    match pc
    case Ready => true
    case Returned => true
    case Walk(r, first, cur) => IsKeyed(call) && OnPath(h, call.key, r, first, cur)
    case Armed(r, first, cur, seen) =>
      IsKeyed(call) && OnPath(h, call.key, r, first, cur) && SeenOK(call, CellFor(h, cur, call.key), seen)
    case Owning(r, first, cur, seen) =>
      && IsWriter(call) && OnPath(h, call.key, r, first, cur) && Owns(CellFor(h, cur, call.key), t, seen)
      && (call.GetOrInsert? && seen.SawData? ==> seen.pair.key != call.key)
    case Validate(r, first) =>
      IsKeyed(call) && IsRoot(h, r) && (first.Some? ==> FirstOK(h, call.key, r, first.value))
    case SubLoad(r) => IsKeyed(call) && IsRoot(h, r) && CellFor(h, r, call.key).Child?
    case SubArmed(r, c) => IsKeyed(call) && FirstOK(h, call.key, r, c)
    case RootArmed(r) => IsSweep(call) && IsRoot(h, r)
    case Scan(Look, stack, out) => call.Iterate? && ScanOK(h.meta, stack, out)
    case Scan(Subtree(r, c), stack, out) =>
      && IsKeyed(call) && FirstOK(h, call.key, r, c) && ScanFrom(h, c, stack, out)
      && CellFor(h, r, call.key).ptr == Ptr(c, Some(t))
    case Scan(Whole(r), stack, out) =>
      IsSweep(call) && IsRoot(h, r) && ScanFrom(h, r, stack, out) && root == Ptr(r, Some(t))
    case Confirm(r) => IsKeyed(call) && IsRoot(h, r)
  }

  /** Whoever holds a slot or the root is at the point of its program where it does. */
  ghost predicate HolderOK(call: Call, pc: PC, h: Heap, n: nat, i: nat) {
    IsKeyed(call) && i == Slot(h.meta, n, call.key) &&
    match CellAt(h, n, i)
    case Writing(_, _) => pc.Owning? && pc.cur == n
    case Child(ptr, _) => pc.Scan? && pc.job == Subtree(n, ptr.id)
    case _ => false
  }

  ghost predicate HoldersOK(ops: seq<Call>, s: State) {
    && (forall n, i :: 0 <= n < |s.h.meta| && HeldBy(CellAt(s.h, n, i)).Some? ==>
          var u := HeldBy(CellAt(s.h, n, i)).value;
          u < |ops| == |s.pcs| && HolderOK(ops[u], s.pcs[u], s.h, n, i))
    && (s.root.lock.Some? ==>
          var u := s.root.lock.value;
          u < |ops| == |s.pcs| && s.pcs[u].Scan? && s.pcs[u].job == Whole(s.root.id))
  }

  ghost predicate Inv(ops: seq<Call>, s: State) {
    && |ops| == |s.pcs|
    && WF(s.h)
    && IsRoot(s.h, s.root.id)
    && (forall t :: 0 <= t < |ops| ==> PcOK(ops[t], s.h, s.root, t, s.pcs[t]))
    && HoldersOK(ops, s)
  }

  // ---------------------------------------------------------------------------------
  // Other calls' steps do not disturb a call

  lemma FirstStays(h: Heap, g: Heap, t: nat, k: Key, r: nat, c: nat)
    requires WF(h) && Guarantee(h, g, t) && FirstOK(h, k, r, c)
    ensures FirstOK(g, k, r, c)
  {
    SlotStays(h, g, r, k);
    ChildStays(h, g, t, r, Slot(h.meta, r, k));
  }

  lemma OnPathStays(h: Heap, g: Heap, t: nat, k: Key, r: nat, first: Option<nat>, cur: nat)
    requires WF(h) && Guarantee(h, g, t) && OnPath(h, k, r, first, cur)
    ensures OnPath(g, k, r, first, cur)
  {
    if first.Some? {
      FirstStays(h, g, t, k, r, first.value);
      ReachesStays(h, g, t, first.value, cur, k);
    }
  }

  lemma SeenStays(call: Call, h: Heap, g: Heap, t: nat, n: nat, seen: Seen)
    requires Guarantee(h, g, t) && IsKeyed(call) && n < |h.meta| && SeenOK(call, CellFor(h, n, call.key), seen)
    ensures SeenOK(call, CellFor(g, n, call.key), seen)
  {
    var i := Slot(h.meta, n, call.key);
    SlotStays(h, g, n, call.key);
    match seen
    case SawData(p) => PairStays(h, g, t, n, i);
    case SawChild => ChildStays(h, g, t, n, i);
    case _ =>
  }

  lemma {:induction false} BehindExtends(m: seq<Meta>, m': seq<Meta>, stack: seq<Frame>, y: Key)
    requires m <= m' && forall j :: 0 <= j < |stack| ==> stack[j].node < |m|
    requires Behind(m, stack, y)
    ensures Behind(m', stack, y)
  {
    if |stack| > 1 && Slot(m, stack[0].node, y) + 1 == stack[0].next {
      BehindExtends(m, m', stack[1..], y);
    }
  }

  lemma ScanExtends(h: Heap, g: Heap, base: nat, stack: seq<Frame>, out: seq<Pair>)
    requires WF(h) && Extends(h, g) && ScanFrom(h, base, stack, out)
    ensures ScanFrom(g, base, stack, out)
  {
    if stack != [] && out != [] {
      BehindExtends(h.meta, g.meta, stack, out[|out| - 1].key);
    }
    assert NodeOK(h, base);
    forall p | p in out ensures InRegion(g.meta, g.meta[base].path, p.key) {
      InRegionExtends(h, g, h.meta[base].path, p.key);
    }
  }

  lemma PcStays(call: Call, h: Heap, g: Heap, root: Ptr, root': Ptr, t: nat, u: nat, pc: PC)
    requires WF(h) && Guarantee(h, g, t) && t != u
    requires root == root' || root.lock == None || root.lock == Some(t)
    requires PcOK(call, h, root, u, pc)
    ensures PcOK(call, g, root', u, pc)
  {
    match pc
    case Walk(r, first, cur) => OnPathStays(h, g, t, call.key, r, first, cur);
    case Armed(r, first, cur, seen) =>
      OnPathStays(h, g, t, call.key, r, first, cur);
      SeenStays(call, h, g, t, cur, seen);
    case Owning(r, first, cur, seen) =>
      OnPathStays(h, g, t, call.key, r, first, cur);
      SlotStays(h, g, cur, call.key);
      HeldStays(h, g, t, cur, Slot(h.meta, cur, call.key));
    case Validate(r, first) =>
      if first.Some? {
        FirstStays(h, g, t, call.key, r, first.value);
      }
    case SubLoad(r) =>
      SlotStays(h, g, r, call.key);
      ChildStays(h, g, t, r, Slot(h.meta, r, call.key));
    case SubArmed(r, c) => FirstStays(h, g, t, call.key, r, c);
    case Scan(Look, stack, out) =>
      if stack != [] && out != [] {
        BehindExtends(h.meta, g.meta, stack, out[|out| - 1].key);
      }
    case Scan(Subtree(r, c), stack, out) =>
      FirstStays(h, g, t, call.key, r, c);
      ScanExtends(h, g, c, stack, out);
      SlotStays(h, g, r, call.key);
      HeldStays(h, g, t, r, Slot(h.meta, r, call.key));
    case Scan(Whole(r), stack, out) => ScanExtends(h, g, r, stack, out);
    case _ =>
  }
}
