/** The streaming merge of compaction: which entry of several tables survives. */
module Merge {
  import opened Wrappers
  import opened Bytes
  import opened SsTable
  import opened TableSearch

  /** The current entry of one source; sources are numbered from the oldest table up. */
  datatype MergeEntry = MergeEntry(key: Bytes, val: Bytes, source: nat)

  // ---------------------------------------------------------------------------------
  // The order of the heap

  datatype Ordering = Smaller | Same | Greater

  function CompareBytes(a: Bytes, b: Bytes): Ordering {
    if Less(a, b) then Smaller else if a == b then Same else Greater
  }

  function CompareNumbers(a: nat, b: nat): Ordering {
    if a < b then Smaller else if a == b then Same else Greater
  }

  /** `Ord` of the heap entries, with both comparisons reversed. */
  function Compare(a: MergeEntry, b: MergeEntry): Ordering {
    var byKey := CompareBytes(b.key, a.key);
    if byKey == Same then CompareNumbers(b.source, a.source) else byKey
  }

  /** The heap pops the greatest entry: the smallest key, and among equal keys the lowest
      source, which is the oldest table. */
  lemma PopOrder(a: MergeEntry, b: MergeEntry)
    ensures Compare(a, b) == Greater <==> Less(a.key, b.key) || (a.key == b.key && a.source < b.source)
    ensures Compare(a, b) == Same <==> a.key == b.key && a.source == b.source
  {
    LessTotal(a.key, b.key);
    LessIrreflexive(a.key);
    if Less(a.key, b.key) {
      LessAsymmetric(a.key, b.key);
    }
  }

  lemma CompareTransitive(a: MergeEntry, b: MergeEntry, c: MergeEntry)
    requires Compare(a, b) == Greater && Compare(b, c) != Smaller
    ensures Compare(a, c) == Greater
  {
    PopOrder(a, b);
    PopOrder(b, c);
    PopOrder(a, c);
    LessTotal(b.key, c.key);
    if Less(a.key, b.key) && Less(b.key, c.key) {
      LessTransitive(a.key, b.key, c.key);
    }
  }

  lemma CompareReversed(a: MergeEntry, b: MergeEntry)
    requires Compare(a, b) == Smaller
    ensures Compare(b, a) == Greater
  {
    PopOrder(a, b);
    PopOrder(b, a);
    LessTotal(a.key, b.key);
  }

  ghost predicate Greatest(heap: set<MergeEntry>, e: MergeEntry) {
    e in heap && forall m :: m in heap ==> Compare(e, m) != Smaller
  }

  /** `BinaryHeap::pop` on a heap of entries from different sources. */
  method Pop(heap: set<MergeEntry>) returns (e: MergeEntry, rest: set<MergeEntry>)
    requires heap != {}
    ensures Greatest(heap, e) && rest == heap - {e}
  {
    e :| e in heap;
    var left := heap - {e};
    CompareSelf(e);
    while left != {}
      invariant left <= heap && e in heap
      invariant forall m :: m in heap && m !in left ==> Compare(e, m) != Smaller
      decreases |left|
    {
      var m :| m in left;
      if Compare(e, m) == Smaller {
        CompareReversed(e, m);
        forall x | x in heap && x !in left ensures Compare(m, x) != Smaller {
          CompareTransitive(m, e, x);
        }
        CompareSelf(m);
        e := m;
      }
      left := left - {m};
    }
    rest := heap - {e};
  }

  lemma CompareSelf(e: MergeEntry)
    ensures Compare(e, e) == Same
  {
    PopOrder(e, e);
  }

  // ---------------------------------------------------------------------------------
  // What a merge should give

  /** The value of a key in the first source that has it. */
  function FirstFind(sources: seq<seq<Entry>>, key: Bytes): Option<Bytes> {
    if sources == [] then None
    else if Find(sources[0], key).Some? then Find(sources[0], key)
    else FirstFind(sources[1..], key)
  }

  /** The value of a key in the last source that has it: the newest. */
  function LastFind(sources: seq<seq<Entry>>, key: Bytes): Option<Bytes> {
    if sources == [] then None
    else if Find(sources[|sources| - 1], key).Some? then Find(sources[|sources| - 1], key)
    else LastFind(sources[..|sources| - 1], key)
  }

  ghost predicate AllAscending(sources: seq<seq<Entry>>) {
    forall s :: 0 <= s < |sources| ==> AscendingKeys(sources[s])
  }

  /** A tombstone is an empty value; dropping leaves them out. */
  predicate Kept(val: Bytes, drop: bool) { !(drop && val == []) }

  lemma {:induction false} FirstFindAt(sources: seq<seq<Entry>>, key: Bytes, s: nat)
    requires s < |sources| && Find(sources[s], key).Some?
    requires forall t :: 0 <= t < s ==> Find(sources[t], key) == None
    ensures FirstFind(sources, key) == Find(sources[s], key)
  {
    if s > 0 {
      FirstFindAt(sources[1..], key, s - 1);
    }
  }

  lemma {:induction false} FirstFindNone(sources: seq<seq<Entry>>, key: Bytes)
    requires forall t :: 0 <= t < |sources| ==> Find(sources[t], key) == None
    ensures FirstFind(sources, key) == None
  {
    if sources != [] {
      FirstFindNone(sources[1..], key);
    }
  }

  // ---------------------------------------------------------------------------------
  // The merge loop

  /** The entries to be popped next: those after the first `taken[s]` of each source. */
  ghost function Heads(sources: seq<seq<Entry>>, taken: seq<nat>): set<MergeEntry>
    requires |taken| == |sources|
  {
    set s | 0 <= s < |sources| && taken[s] < |sources[s]| ::
      MergeEntry(sources[s][taken[s]].key, sources[s][taken[s]].val, s)
  }

  ghost predicate TakenOK(sources: seq<seq<Entry>>, taken: seq<nat>) {
    |taken| == |sources| && forall s :: 0 <= s < |sources| ==> taken[s] <= |sources[s]|
  }

  /** All popped keys are at most `last`, all others at least. */
  ghost predicate SplitAt(sources: seq<seq<Entry>>, taken: seq<nat>, last: Option<Bytes>)
    requires TakenOK(sources, taken)
  {
    && (last.None? ==> forall s :: 0 <= s < |sources| ==> taken[s] == 0)
    && (last.Some? ==>
          && (forall s, i :: 0 <= s < |sources| && 0 <= i < taken[s] ==> !Less(last.value, sources[s][i].key))
          && forall s, i :: 0 <= s < |sources| && taken[s] <= i < |sources[s]| ==> !Less(sources[s][i].key, last.value))
  }

  predicate Decided(last: Option<Bytes>, key: Bytes) { last.Some? && !Less(last.value, key) }

  /** The output so far: what the merge gives for all keys up to `last`. */
  ghost predicate Output(sources: seq<seq<Entry>>, drop: bool, last: Option<Bytes>, out: seq<Entry>) {
    && AscendingKeys(out)
    && forall e :: e in out <==>
         Decided(last, e.key) && FirstFind(sources, e.key) == Some(e.val) && Kept(e.val, drop)
  }

  /** What the finished merge gives. */
  ghost predicate Merged(sources: seq<seq<Entry>>, drop: bool, out: seq<Entry>) {
    && AscendingKeys(out)
    && forall e :: e in out <==> FirstFind(sources, e.key) == Some(e.val) && Kept(e.val, drop)
  }

  lemma HeadsAfter(sources: seq<seq<Entry>>, taken: seq<nat>, e: MergeEntry)
    requires TakenOK(sources, taken) && e in Heads(sources, taken)
    ensures var s := e.source; var taken' := taken[s := taken[s] + 1];
            && TakenOK(sources, taken')
            && Heads(sources, taken') == Heads(sources, taken) - {e} +
                 if taken'[s] < |sources[s]|
                 then {MergeEntry(sources[s][taken'[s]].key, sources[s][taken'[s]].val, s)} else {}
  {
  }

  /** The popped entry is the smallest key left. */
  lemma PoppedLeast(sources: seq<seq<Entry>>, taken: seq<nat>, e: MergeEntry, s: nat, i: nat)
    requires AllAscending(sources) && TakenOK(sources, taken) && Greatest(Heads(sources, taken), e)
    requires s < |sources| && taken[s] <= i < |sources[s]|
    ensures !Less(sources[s][i].key, e.key)
    ensures sources[s][i].key == e.key ==> i == taken[s] && e.source <= s
  {
    var head := MergeEntry(sources[s][taken[s]].key, sources[s][taken[s]].val, s);
    assert head in Heads(sources, taken);
    PopOrder(e, head);
    PopOrder(head, e);
    LessTotal(e.key, head.key);
    if i > taken[s] {
      assert Less(head.key, sources[s][i].key);
      NotLess(e.key, head.key, sources[s][i].key);
    } else if Less(head.key, e.key) {
      CompareFlip(e, head);
    }
  }

  lemma CompareFlip(a: MergeEntry, b: MergeEntry)
    requires Less(b.key, a.key)
    ensures Compare(a, b) == Smaller
  {
  }

  lemma NotLess(a: Bytes, b: Bytes, c: Bytes)
    requires (Less(a, b) || a == b) && Less(b, c)
    ensures Less(a, c) && !Less(c, a) && a != c
  {
    if a != b {
      LessTransitive(a, b, c);
    }
    LessAsymmetric(a, c);
  }

  /** Popping keeps the split, now at the popped key. */
  lemma PopSplits(sources: seq<seq<Entry>>, taken: seq<nat>, last: Option<Bytes>, e: MergeEntry)
    requires AllAscending(sources) && TakenOK(sources, taken) && Greatest(Heads(sources, taken), e)
    requires SplitAt(sources, taken, last)
    ensures e.source < |sources| && TakenOK(sources, taken[e.source := taken[e.source] + 1])
    ensures SplitAt(sources, taken[e.source := taken[e.source] + 1], Some(e.key))
    ensures last.Some? ==> !Less(e.key, last.value)
  {
    var r := e.source;
    var taken' := taken[r := taken[r] + 1];
    HeadsAfter(sources, taken, e);
    if last.Some? {
      assert !Less(sources[r][taken[r]].key, last.value);
    }
    forall s, i | 0 <= s < |sources| && 0 <= i < taken'[s] ensures !Less(e.key, sources[s][i].key) {
      if i < taken[s] {
        if last.Some? {
          LessTotal(last.value, e.key);
          if Less(e.key, sources[s][i].key) {
            NotBetween(last.value, e.key, sources[s][i].key);
          }
        }
      } else {
        LessIrreflexive(e.key);
      }
    }
    forall s, i | 0 <= s < |sources| && taken'[s] <= i < |sources[s]| ensures !Less(sources[s][i].key, e.key) {
      PoppedLeast(sources, taken, e, s, i);
    }
  }

  lemma NotBetween(a: Bytes, b: Bytes, c: Bytes)
    requires !Less(b, a) && Less(b, c)
    ensures Less(a, c)
  {
    LessTotal(a, b);
    if a != b {
      LessTransitive(a, b, c);
    }
  }

  /** When a key is popped for the first time, it comes from the first source that has it. */
  lemma FirstPopped(sources: seq<seq<Entry>>, taken: seq<nat>, last: Option<Bytes>, e: MergeEntry)
    requires AllAscending(sources) && TakenOK(sources, taken) && Greatest(Heads(sources, taken), e)
    requires SplitAt(sources, taken, last) && !Decided(last, e.key)
    ensures FirstFind(sources, e.key) == Some(e.val)
  {
    var s := e.source;
    assert Entry(e.key, e.val) == sources[s][taken[s]];
    FindMember(sources[s], e.key, e.val);
    forall t | 0 <= t < s ensures Find(sources[t], e.key) == None {
      if Find(sources[t], e.key).Some? {
        var v := Find(sources[t], e.key).value;
        FindMember(sources[t], e.key, v);
        var i :| 0 <= i < |sources[t]| && sources[t][i] == Entry(e.key, v);
        if i >= taken[t] {
          PoppedLeast(sources, taken, e, t, i);
        }
      }
    }
    FirstFindAt(sources, e.key, s);
  }

  /** Keys strictly between the last popped key and the next are in no source. */
  lemma NothingBetween(sources: seq<seq<Entry>>, taken: seq<nat>, last: Option<Bytes>, e: MergeEntry, key: Bytes)
    requires AllAscending(sources) && TakenOK(sources, taken) && Greatest(Heads(sources, taken), e)
    requires SplitAt(sources, taken, last) && !Decided(last, key) && Less(key, e.key)
    ensures FirstFind(sources, key) == None
  {
    forall t | 0 <= t < |sources| ensures Find(sources[t], key) == None {
      if Find(sources[t], key).Some? {
        var v := Find(sources[t], key).value;
        FindMember(sources[t], key, v);
        var i :| 0 <= i < |sources[t]| && sources[t][i] == Entry(key, v);
        if i >= taken[t] {
          PoppedLeast(sources, taken, e, t, i);
        }
      }
    }
    FirstFindNone(sources, key);
  }

  /** A new key: the output stays what it should be. */
  lemma OutputNext(sources: seq<seq<Entry>>, drop: bool, taken: seq<nat>, last: Option<Bytes>, out: seq<Entry>, e: MergeEntry)
    requires AllAscending(sources) && TakenOK(sources, taken) && Greatest(Heads(sources, taken), e)
    requires SplitAt(sources, taken, last) && last != Some(e.key) && Output(sources, drop, last, out)
    ensures Output(sources, drop, Some(e.key), if Kept(e.val, drop) then out + [Entry(e.key, e.val)] else out)
  {
    PopSplits(sources, taken, last, e);
    if last.Some? {
      LessTotal(last.value, e.key);
    }
    FirstPopped(sources, taken, last, e);
    var out' := if Kept(e.val, drop) then out + [Entry(e.key, e.val)] else out;
    forall x ensures x in out' <==>
               Decided(Some(e.key), x.key) && FirstFind(sources, x.key) == Some(x.val) && Kept(x.val, drop)
    {
      LessTotal(x.key, e.key);
      LessIrreflexive(e.key);
      if Less(x.key, e.key) {
        LessAsymmetric(x.key, e.key);
        if !Decided(last, x.key) {
          NothingBetween(sources, taken, last, e, x.key);
        }
      } else if Less(e.key, x.key) {
        if x in out {
          NotBetween(last.value, e.key, x.key);
        }
      }
    }
    forall i, j | 0 <= i < j < |out'| ensures Less(out'[i].key, out'[j].key) {
      if j == |out| {
        assert out[i] in out;
        LessTotal(out[i].key, e.key);
        if !Less(out[i].key, e.key) {
          StillLess(last.value, e.key, out[i].key);
        }
      }
    }
  }

  lemma StillLess(a: Bytes, b: Bytes, c: Bytes)
    requires Less(a, b) && (b == c || Less(b, c))
    ensures Less(a, c)
  {
    if b != c {
      LessTransitive(a, b, c);
    }
  }

  /** With nothing left to pop, the output is complete. */
  lemma OutputDone(sources: seq<seq<Entry>>, drop: bool, taken: seq<nat>, last: Option<Bytes>, out: seq<Entry>)
    requires AllAscending(sources) && TakenOK(sources, taken) && Heads(sources, taken) == {}
    requires SplitAt(sources, taken, last) && Output(sources, drop, last, out)
    ensures Merged(sources, drop, out)
  {
    forall e: Entry | FirstFind(sources, e.key) == Some(e.val) ensures Decided(last, e.key) {
      InSome(sources, e.key);
      var s :| 0 <= s < |sources| && Find(sources[s], e.key).Some?;
      var v := Find(sources[s], e.key).value;
      FindMember(sources[s], e.key, v);
      var i :| 0 <= i < |sources[s]| && sources[s][i] == Entry(e.key, v);
      HeadIn(sources, taken, s);
    }
  }

  lemma HeadIn(sources: seq<seq<Entry>>, taken: seq<nat>, s: nat)
    requires TakenOK(sources, taken) && s < |sources|
    ensures taken[s] == |sources[s]| || exists m :: m in Heads(sources, taken)
  {
    if taken[s] < |sources[s]| {
      assert MergeEntry(sources[s][taken[s]].key, sources[s][taken[s]].val, s) in Heads(sources, taken);
    }
  }

  lemma {:induction false} InSome(sources: seq<seq<Entry>>, key: Bytes)
    requires FirstFind(sources, key).Some?
    ensures exists s :: 0 <= s < |sources| && Find(sources[s], key) == FirstFind(sources, key)
  {
    if Find(sources[0], key).None? {
      InSome(sources[1..], key);
      var s :| 0 <= s < |sources[1..]| && Find(sources[1..][s], key) == FirstFind(sources[1..], key);
      assert Find(sources[s + 1], key) == FirstFind(sources, key);
    }
  }

  /** The streaming k-way merge of `compact_level`. */
  method MergeTables(sources: seq<seq<Entry>>, drop: bool) returns (out: seq<Entry>)
    requires AllAscending(sources)
    ensures Merged(sources, drop, out) && |EncodeEntries(out)| <= TotalSize(sources)
  {
    ghost var taken: seq<nat> := seq(|sources|, _ => 0);
    var heap, scans := Seed(sources);
    var lastKey: Option<Bytes> := None;
    out := [];
    while heap != {}
      invariant TakenOK(sources, taken) && heap == Heads(sources, taken)
      invariant ScansOK(sources, taken, scans)
      invariant SplitAt(sources, taken, lastKey) && Output(sources, drop, lastKey, out)
      invariant |EncodeEntries(out)| <= TakenSize(sources, taken)
      decreases Left(sources, taken)
    {
      var entry, rest := Pop(heap);
      var s := entry.source;
      PopSplits(sources, taken, lastKey, entry);
      LeftShrinks(sources, taken, s);
      TakenGrows(sources, taken, s);
      heap, scans := Advance(sources, rest, scans, entry, taken);
      if lastKey != Some(entry.key) {
        OutputNext(sources, drop, taken, lastKey, out, entry);
        lastKey := Some(entry.key);
        if !(drop && entry.val == []) {
          JoinSnoc(EncodeEntry, out, Entry(entry.key, entry.val));
          out := out + [Entry(entry.key, entry.val)];
        }
      }
      taken := taken[s := taken[s] + 1];
    }
    OutputDone(sources, drop, taken, lastKey, out);
    TakenWithin(sources, taken);
  }

  /** Each scan is one entry ahead of what has been popped. */
  ghost predicate ScansOK(sources: seq<seq<Entry>>, taken: seq<nat>, scans: seq<nat>)
    requires TakenOK(sources, taken)
  {
    && |scans| == |sources|
    && forall s :: 0 <= s < |sources| ==> scans[s] == if taken[s] < |sources[s]| then taken[s] + 1 else taken[s]
  }

  /** Puts the next entry of the popped entry's source into the heap. */
  method Advance(sources: seq<seq<Entry>>, rest: set<MergeEntry>, scans: seq<nat>, entry: MergeEntry, ghost taken: seq<nat>)
    returns (heap: set<MergeEntry>, scans': seq<nat>)
    requires TakenOK(sources, taken) && ScansOK(sources, taken, scans)
    requires entry in Heads(sources, taken) && rest == Heads(sources, taken) - {entry}
    ensures TakenOK(sources, taken[entry.source := taken[entry.source] + 1])
    ensures heap == Heads(sources, taken[entry.source := taken[entry.source] + 1])
    ensures ScansOK(sources, taken[entry.source := taken[entry.source] + 1], scans')
  {
    HeadsAfter(sources, taken, entry);
    var s := entry.source;
    heap, scans' := rest, scans;
    if scans[s] < |sources[s]| {
      var next := sources[s][scans[s]];
      heap := heap + {MergeEntry(next.key, next.val, s)};
      scans' := scans[s := scans[s] + 1];
    }
  }

  /** The first entry of each source. */
  method Seed(sources: seq<seq<Entry>>) returns (heap: set<MergeEntry>, scans: seq<nat>)
    ensures heap == Heads(sources, seq(|sources|, _ => 0))
    ensures |scans| == |sources| && forall s :: 0 <= s < |sources| ==> scans[s] == if sources[s] == [] then 0 else 1
  {
    heap, scans := {}, [];
    for i := 0 to |sources|
      invariant |scans| == i && forall s :: 0 <= s < i ==> scans[s] == if sources[s] == [] then 0 else 1
      invariant forall m :: m in heap <==>
                  m.source < i && sources[m.source] != [] &&
                  m == MergeEntry(sources[m.source][0].key, sources[m.source][0].val, m.source)
    {
      if sources[i] != [] {
        heap := heap + {MergeEntry(sources[i][0].key, sources[i][0].val, i)};
        scans := scans + [1];
      } else {
        scans := scans + [0];
      }
    }
  }

  /** How many entries are still to be popped. */
  ghost function Left(sources: seq<seq<Entry>>, taken: seq<nat>): nat
    requires TakenOK(sources, taken)
  {
    if sources == [] then 0
    else |sources[|sources| - 1]| - taken[|sources| - 1] + Left(sources[..|sources| - 1], taken[..|sources| - 1])
  }

  lemma {:induction false} LeftShrinks(sources: seq<seq<Entry>>, taken: seq<nat>, s: nat)
    requires TakenOK(sources, taken) && s < |sources| && taken[s] < |sources[s]|
    ensures TakenOK(sources, taken[s := taken[s] + 1])
    ensures Left(sources, taken[s := taken[s] + 1]) == Left(sources, taken) - 1
  {
    var n := |sources| - 1;
    var taken' := taken[s := taken[s] + 1];
    if s < n {
      LeftShrinks(sources[..n], taken[..n], s);
      assert taken'[..n] == taken[..n][s := taken[s] + 1];
    } else {
      assert taken'[..n] == taken[..n];
    }
  }

  /** The encoded size of all entries, and of those popped so far. */
  ghost function TotalSize(sources: seq<seq<Entry>>): nat {
    if sources == [] then 0
    else |EncodeEntries(sources[|sources| - 1])| + TotalSize(sources[..|sources| - 1])
  }

  ghost function TakenSize(sources: seq<seq<Entry>>, taken: seq<nat>): nat
    requires TakenOK(sources, taken)
  {
    if sources == [] then 0
    else
      var n := |sources| - 1;
      |EncodeEntries(sources[n][..taken[n]])| + TakenSize(sources[..n], taken[..n])
  }

  lemma PrefixGrows(es: seq<Entry>, i: nat)
    requires i < |es|
    ensures |EncodeEntries(es[..i + 1])| == |EncodeEntries(es[..i])| + |EncodeEntry(es[i])|
  {
    assert es[..i + 1] == es[..i] + [es[i]];
    JoinSnoc(EncodeEntry, es[..i], es[i]);
  }

  lemma {:induction false} TakenGrows(sources: seq<seq<Entry>>, taken: seq<nat>, s: nat)
    requires TakenOK(sources, taken) && s < |sources| && taken[s] < |sources[s]|
    ensures TakenOK(sources, taken[s := taken[s] + 1])
    ensures TakenSize(sources, taken[s := taken[s] + 1])
         == TakenSize(sources, taken) + |EncodeEntry(sources[s][taken[s]])|
  {
    var n := |sources| - 1;
    var taken' := taken[s := taken[s] + 1];
    if s < n {
      TakenGrows(sources[..n], taken[..n], s);
      assert taken'[..n] == taken[..n][s := taken[s] + 1];
    } else {
      assert taken'[..n] == taken[..n];
      PrefixGrows(sources[n], taken[n]);
    }
  }

  lemma {:induction false} TakenWithin(sources: seq<seq<Entry>>, taken: seq<nat>)
    requires TakenOK(sources, taken)
    ensures TakenSize(sources, taken) <= TotalSize(sources)
  {
    if sources != [] {
      var n := |sources| - 1;
      TakenWithin(sources[..n], taken[..n]);
      PrefixSmaller(sources[n], taken[n]);
    }
  }

  lemma PrefixSmaller(es: seq<Entry>, i: nat)
    requires i <= |es|
    ensures |EncodeEntries(es[..i])| <= |EncodeEntries(es)|
  {
    assert es == es[..i] + es[i..];
    JoinConcat(EncodeEntry, es[..i], es[i..]);
  }

  lemma MergedFits(sources: seq<seq<Entry>>, drop: bool, out: seq<Entry>)
    requires AllAscending(sources) && Merged(sources, drop, out)
    requires forall s :: 0 <= s < |sources| ==> AllFit(sources[s])
    ensures AllFit(out)
  {
    forall e | e in out ensures Fits(e) {
      InSome(sources, e.key);
      var s :| 0 <= s < |sources| && Find(sources[s], e.key) == FirstFind(sources, e.key);
      FindMember(sources[s], e.key, e.val);
      assert Entry(e.key, e.val) == e;
    }
  }

  // ---------------------------------------------------------------------------------
  // Which of several values survives

  /** At most one source has the key. */
  ghost predicate SoleHolder(sources: seq<seq<Entry>>, key: Bytes) {
    forall s, t :: 0 <= s < |sources| && 0 <= t < |sources| && Find(sources[s], key).Some? && Find(sources[t], key).Some? ==>
      s == t
  }

  lemma {:induction false} LastFindAt(sources: seq<seq<Entry>>, key: Bytes, s: nat)
    requires s < |sources| && Find(sources[s], key).Some?
    requires forall t :: s < t < |sources| ==> Find(sources[t], key) == None
    ensures LastFind(sources, key) == Find(sources[s], key)
  {
    var n := |sources| - 1;
    if s < n {
      LastFindAt(sources[..n], key, s);
    }
  }

  lemma {:induction false} LastFindNone(sources: seq<seq<Entry>>, key: Bytes)
    requires forall t :: 0 <= t < |sources| ==> Find(sources[t], key) == None
    ensures LastFind(sources, key) == None
  {
    if sources != [] {
      LastFindNone(sources[..|sources| - 1], key);
    }
  }

  /** A key that only one table holds keeps its value. */
  lemma SoleHolderAgrees(sources: seq<seq<Entry>>, key: Bytes)
    requires SoleHolder(sources, key)
    ensures FirstFind(sources, key) == LastFind(sources, key)
  {
    if s :| 0 <= s < |sources| && Find(sources[s], key).Some? {
      FirstFindAt(sources, key, s);
      LastFindAt(sources, key, s);
    } else {
      FirstFindNone(sources, key);
      LastFindNone(sources, key);
    }
  }

  /** The value that survives is the newest exactly when the oldest and the newest of the
      tables that hold the key agree on it. */
  lemma NewestSurvives(sources: seq<seq<Entry>>, key: Bytes, oldest: nat, newest: nat)
    requires oldest <= newest < |sources|
    requires Find(sources[oldest], key).Some? && Find(sources[newest], key).Some?
    requires forall t :: 0 <= t < oldest || newest < t < |sources| ==> Find(sources[t], key) == None
    ensures FirstFind(sources, key) == LastFind(sources, key)
       <==> Find(sources[oldest], key) == Find(sources[newest], key)
  {
    FirstFindAt(sources, key, oldest);
    LastFindAt(sources, key, newest);
  }

  /** Four tables, the fewest that are ever merged, of which the first and the last have the
      key: the older version survives, and the newer one is gone. */
  lemma OlderVersionSurvives(key: Bytes, older: Bytes, newer: Bytes, b: seq<Entry>, c: seq<Entry>, drop: bool, out: seq<Entry>)
    requires older != newer && Find(b, key) == Find(c, key) == None
    requires Merged([[Entry(key, older)], b, c, [Entry(key, newer)]], drop, out)
    ensures LastFind([[Entry(key, older)], b, c, [Entry(key, newer)]], key) == Some(newer)
    ensures Entry(key, older) in out <==> Kept(older, drop)
    ensures Entry(key, newer) !in out
  {
    var sources := [[Entry(key, older)], b, c, [Entry(key, newer)]];
    FirstFindAt(sources, key, 0);
    LastFindAt(sources, key, 3);
    assert Entry(key, older).key == Entry(key, newer).key == key;
  }
}
