/** Why a depth-first traversal yields ascending keys even while other calls change slots
    and swap subtrees: everything it relies on is immutable once a node is built. */
module ScanOrder {
  import opened Keys
  import opened NodeHeap
  import opened Protocol

  /** Every frame above the bottom one is the child below the slot last passed. */
  ghost predicate Linked(meta: seq<Meta>, stack: seq<Frame>) {
    && (forall j :: 0 <= j < |stack| ==> stack[j].node < |meta|)
    && (forall j :: 0 <= j < |stack| - 1 ==>
          stack[j].next > 0 &&
          meta[stack[j + 1].node].path == meta[stack[j].node].path + [At(stack[j].node, stack[j].next - 1)])
  }

  /** Only the bottom frame of a traversal can be a root. */
  lemma UpperFramesBelowRoots(meta: seq<Meta>, stack: seq<Frame>, j: nat)
    requires Linked(meta, stack) && 0 < j < |stack|
    ensures meta[stack[j].node].path != []
  {
    assert stack[j - 1].next > 0 && meta[stack[j].node].path
        == meta[stack[j - 1].node].path + [At(stack[j - 1].node, stack[j - 1].next - 1)] by {
      var i := j - 1;
      assert stack[i + 1] == stack[j];
    }
  }

  /** `y` lies before everything the traversal has still to visit. */
  ghost predicate Behind(meta: seq<Meta>, stack: seq<Frame>, y: Key) {
    |stack| > 0 &&
    var s := Slot(meta, stack[0].node, y);
    if |stack| == 1 then s < stack[0].next
    else s + 1 < stack[0].next || (s + 1 == stack[0].next && Behind(meta, stack[1..], y))
  }

  ghost predicate ScanOK(meta: seq<Meta>, stack: seq<Frame>, out: seq<Pair>) {
    && Linked(meta, stack)
    && Ascending(out)
    && (stack != [] && out != [] ==> Behind(meta, stack, out[|out| - 1].key))
  }

  /** `x` sits in slot `i` of the top node. */
  ghost predicate AtTop(meta: seq<Meta>, stack: seq<Frame>, i: nat, x: Key) {
    |stack| > 0 &&
    var s := Slot(meta, stack[0].node, x);
    if |stack| == 1 then s == i else s + 1 == stack[0].next && AtTop(meta, stack[1..], i, x)
  }

  lemma {:induction false} PathsGrow(meta: seq<Meta>, stack: seq<Frame>)
    requires Linked(meta, stack) && |stack| > 0
    ensures meta[stack[0].node].path <= meta[stack[|stack| - 1].node].path
  {
    if |stack| > 1 {
      assert forall j :: 0 <= j < |stack[1..]| - 1 ==> stack[1..][j] == stack[j + 1];
      PathsGrow(meta, stack[1..]);
    }
  }

  lemma {:induction false} RegionIsTop(meta: seq<Meta>, stack: seq<Frame>, i: nat, x: Key)
    requires Linked(meta, stack) && |stack| > 0
    requires var top := stack[|stack| - 1].node; InRegion(meta, meta[top].path + [At(top, i)], x)
    ensures AtTop(meta, stack, i, x)
  {
    var top := stack[|stack| - 1].node;
    var path := meta[top].path + [At(top, i)];
    if |stack| == 1 {
      assert path[|path| - 1] == At(top, i);
    } else {
      PathsGrow(meta, stack[1..]);
      var below := meta[stack[0].node].path;
      assert meta[stack[1].node].path[|below|] == path[|below|];
      RegionIsTop(meta, stack[1..], i, x);
    }
  }

  lemma {:induction false} BehindIsLess(h: Heap, stack: seq<Frame>, y: Key, x: Key)
    requires WF(h) && Linked(h.meta, stack)
    requires Behind(h.meta, stack, y)
    requires AtTop(h.meta, stack, stack[|stack| - 1].next, x)
    ensures y < x
  {
    if x <= y {
      SlotMonotone(h, stack[0].node, x, y);
      if |stack| > 1 {
        BehindIsLess(h, stack[1..], y, x);
      }
    }
  }

  /** Moving past the top slot leaves behind what was behind, and what sat in that slot. */
  lemma {:induction false} BehindMoved(meta: seq<Meta>, stack: seq<Frame>, y: Key)
    requires |stack| > 0
    requires var top := stack[|stack| - 1]; Behind(meta, stack, y) || AtTop(meta, stack, top.next, y)
    ensures var top := stack[|stack| - 1];
            Behind(meta, stack[..|stack| - 1] + [Frame(top.node, top.next + 1)], y)
  {
    var top := stack[|stack| - 1];
    var moved := stack[..|stack| - 1] + [Frame(top.node, top.next + 1)];
    if |stack| > 1 {
      assert moved[1..] == stack[1..][..|stack| - 2] + [Frame(top.node, top.next + 1)];
      var s := Slot(meta, stack[0].node, y);
      if s + 1 == stack[0].next {
        BehindMoved(meta, stack[1..], y);
      }
    }
  }

  lemma {:induction false} BehindPushed(meta: seq<Meta>, stack: seq<Frame>, c: nat, y: Key)
    requires |stack| > 0 && stack[|stack| - 1].next > 0
    requires Behind(meta, stack[..|stack| - 1] + [Frame(stack[|stack| - 1].node, stack[|stack| - 1].next - 1)], y)
    ensures Behind(meta, stack + [Frame(c, 0)], y)
  {
    var back := stack[..|stack| - 1] + [Frame(stack[|stack| - 1].node, stack[|stack| - 1].next - 1)];
    if |stack| > 1 {
      assert (stack + [Frame(c, 0)])[1..] == stack[1..] + [Frame(c, 0)];
      assert back[1..] == stack[1..][..|stack| - 2] + [Frame(stack[|stack| - 1].node, stack[|stack| - 1].next - 1)];
      var s := Slot(meta, stack[0].node, y);
      if s + 1 == stack[0].next {
        BehindPushed(meta, stack[1..], c, y);
      }
    }
  }

  lemma {:induction false} BehindPopped(meta: seq<Meta>, stack: seq<Frame>, y: Key)
    requires |stack| > 1 && Behind(meta, stack, y)
    ensures Behind(meta, stack[..|stack| - 1], y)
  {
    if |stack| > 2 {
      assert stack[..|stack| - 1][1..] == stack[1..][..|stack| - 2];
      var s := Slot(meta, stack[0].node, y);
      if s + 1 == stack[0].next {
        BehindPopped(meta, stack[1..], y);
      }
    }
  }

  lemma MovedLinked(meta: seq<Meta>, stack: seq<Frame>)
    requires Linked(meta, stack) && stack != []
    ensures Linked(meta, Moved(stack))
  {
    var moved := Moved(stack);
    forall j | 0 <= j < |moved| - 1
      ensures moved[j].next > 0 &&
              meta[moved[j + 1].node].path == meta[moved[j].node].path + [At(moved[j].node, moved[j].next - 1)]
    {
      assert moved[j] == stack[j] && moved[j + 1].node == stack[j + 1].node;
    }
  }

  lemma PushedLinked(meta: seq<Meta>, stack: seq<Frame>, c: nat)
    requires Linked(meta, stack) && stack != [] && c < |meta|
    requires var top := stack[|stack| - 1];
             top.next > 0 && meta[c].path == meta[top.node].path + [At(top.node, top.next - 1)]
    ensures Linked(meta, stack + [Frame(c, 0)])
  {
  }

  lemma YieldInOrder(h: Heap, stack: seq<Frame>, out: seq<Pair>, p: Pair)
    requires WF(h) && stack != [] && ScanOK(h.meta, stack, out)
    requires var top := stack[|stack| - 1]; CellOK(h, top.node, top.next, Data(p))
    ensures ScanOK(h.meta, Moved(stack), out + [p])
  {
    var top := stack[|stack| - 1];
    MovedLinked(h.meta, stack);
    RegionIsTop(h.meta, stack, top.next, p.key);
    BehindMoved(h.meta, stack, p.key);
    if out != [] {
      BehindIsLess(h, stack, out[|out| - 1].key, p.key);
    }
    assert (out + [p])[|out|] == p;
  }

  lemma PushInOrder(h: Heap, stack: seq<Frame>, out: seq<Pair>, c: nat)
    requires WF(h) && stack != [] && ScanOK(h.meta, stack, out) && c < |h.meta|
    requires var top := stack[|stack| - 1]; h.meta[c].path == h.meta[top.node].path + [At(top.node, top.next)]
    ensures ScanOK(h.meta, Moved(stack) + [Frame(c, 0)], out)
  {
    var top, moved := stack[|stack| - 1], Moved(stack);
    MovedLinked(h.meta, stack);
    PushedLinked(h.meta, moved, c);
    if out != [] {
      assert moved[..|moved| - 1] + [Frame(top.node, top.next)] == stack;
      BehindPushed(h.meta, moved, c, out[|out| - 1].key);
    }
  }

  /** One visit of a traversal of a well-formed heap keeps it in order, whatever other calls
      have done to the heap since the visit before. */
  lemma VisitInOrder(h: Heap, pc: PC)
    requires WF(h) && pc.Scan? && pc.stack != [] && ScanOK(h.meta, pc.stack, pc.out)
    ensures var pc' := AfterVisit(h, pc);
            pc'.Scan? && pc'.job == pc.job && ScanOK(h.meta, pc'.stack, pc'.out)
  {
    var stack, out := pc.stack, pc.out;
    var top := stack[|stack| - 1];
    assert NodeOK(h, top.node);
    if top.next >= |h.cells[top.node]| {
      if |stack| > 1 && out != [] {
        BehindPopped(h.meta, stack, out[|out| - 1].key);
      }
    } else {
      var x := h.cells[top.node][top.next];
      assert CellOK(h, top.node, top.next, x);
      match x
      case Data(p) => YieldInOrder(h, stack, out, p);
      case Child(ptr, _) => PushInOrder(h, stack, out, ptr.id);
      case Writing(_, _) =>
      case _ =>
        MovedLinked(h.meta, stack);
        if out != [] {
          BehindMoved(h.meta, stack, out[|out| - 1].key);
        }
    }
  }
}
