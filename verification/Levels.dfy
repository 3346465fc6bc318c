/** The levels of the store: registering tables, compacting levels, and searching them. */
module Levels {
  import opened Wrappers
  import opened Bytes
  import opened SsTable
  import opened TableSearch
  import opened Merge

  /** A registered table: its file, and the bounds the manifest keeps. What the file reads back
      as (`entries`) and when that was registered (`oldest` to `newest`) are auxiliary. */
  datatype Table = Table(id: nat, file: Bytes, entries: seq<Entry>, minKey: Bytes, maxKey: Bytes, oldest: nat, newest: nat)

  datatype Error = Corruption

  const NUM_LEVELS: nat := 4
  const MAX_TABLES_PER_LEVEL: nat := 4

  function Bounded(id: nat, file: Bytes, entries: seq<Entry>, oldest: nat, newest: nat): Table
    requires entries != []
  {
    Table(id, file, entries, entries[0].key, entries[|entries| - 1].key, oldest, newest)
  }

  ghost predicate TableOK(t: Table) {
    && t.entries != [] && AscendingKeys(t.entries) && AllFit(t.entries) && Readable(t.file, t.entries)
    && t == Bounded(t.id, t.file, t.entries, t.oldest, t.newest)
    && t.oldest <= t.newest
  }

  /** The encoded size of the entries of some tables. */
  ghost function DataSize(ts: seq<Table>): nat {
    if ts == [] then 0 else |EncodeEntries(ts[0].entries)| + DataSize(ts[1..])
  }

  lemma {:induction false} DataSizeConcat(a: seq<Table>, b: seq<Table>)
    ensures DataSize(a + b) == DataSize(a) + DataSize(b)
  {
    if a == [] {
      assert a + b == b;
    } else {
      assert (a + b)[1..] == a[1..] + b;
      DataSizeConcat(a[1..], b);
    }
  }

  lemma {:induction false} DataSizeBackward(ts: seq<Table>)
    ensures DataSize(Backward(ts)) == TotalSize(Contents(ts))
  {
    if ts != [] {
      var n := |ts| - 1;
      DataSizeBackward(ts[..n]);
      assert Backward(ts)[1..] == Backward(ts[..n]);
      assert Contents(ts)[..n] == Contents(ts[..n]);
    }
  }

  // ---------------------------------------------------------------------------------
  // The order in which tables are searched

  function Backward(ts: seq<Table>): (r: seq<Table>)
    ensures |r| == |ts| && forall i :: 0 <= i < |ts| ==> r[i] == ts[|ts| - 1 - i]
  {
    seq(|ts|, i requires 0 <= i < |ts| => ts[|ts| - 1 - i])
  }

  /** Levels upward, each level from its end. */
  function Visited(levels: seq<seq<Table>>): seq<Table> { Join(Backward, levels) }

  /** The value in the first visited table that has the key; an empty one is a tombstone. */
  function Search(ts: seq<Table>, key: Bytes): Option<Bytes> {
    if ts == [] then None
    else Or(Find(ts[0].entries, key), Search(ts[1..], key))
  }

  function Or(a: Option<Bytes>, b: Option<Bytes>): Option<Bytes> { if a.Some? then a else b }

  /** What a reader sees. */
  function Visible(v: Option<Bytes>): Option<Bytes> { if v == Some([]) then None else v }

  /** Every visited table is wholly newer than those visited after it. */
  ghost predicate NewestFirst(ts: seq<Table>) {
    forall i, j :: 0 <= i < j < |ts| ==> ts[i].oldest > ts[j].newest
  }

  lemma {:induction false} SearchConcat(a: seq<Table>, b: seq<Table>, key: Bytes)
    ensures Search(a + b, key) == Or(Search(a, key), Search(b, key))
  {
    if a == [] {
      assert a + b == b;
    } else {
      assert (a + b)[1..] == a[1..] + b;
      SearchConcat(a[1..], b, key);
    }
  }

  function Contents(ts: seq<Table>): (c: seq<seq<Entry>>)
    ensures |c| == |ts| && forall i :: 0 <= i < |ts| ==> c[i] == ts[i].entries
  {
    seq(|ts|, i requires 0 <= i < |ts| => ts[i].entries)
  }

  /** Searching a level finds the newest version it holds. */
  lemma {:induction false} SearchBackward(ts: seq<Table>, key: Bytes)
    ensures Search(Backward(ts), key) == LastFind(Contents(ts), key)
  {
    if ts != [] {
      var n := |ts| - 1;
      SearchBackward(ts[..n], key);
      assert Backward(ts)[1..] == Backward(ts[..n]);
      assert Contents(ts)[..n] == Contents(ts[..n]);
    }
  }

  /** In newest-first order, a search gives the version of the newest table with the key. */
  lemma {:induction false} SearchFindsNewest(ts: seq<Table>, key: Bytes, i: nat)
    requires NewestFirst(ts) && i < |ts| && Find(ts[i].entries, key).Some?
    requires forall j :: 0 <= j < |ts| && Find(ts[j].entries, key).Some? ==> ts[j].oldest <= ts[i].newest
    ensures Search(ts, key) == Find(ts[i].entries, key)
  {
    if i > 0 {
      assert ts[0].oldest > ts[i].newest;
      SearchFindsNewest(ts[1..], key, i - 1);
    }
  }

  lemma OutOfRange(t: Table, key: Bytes)
    requires TableOK(t) && (Less(key, t.minKey) || Less(t.maxKey, key))
    ensures Find(t.entries, key) == None
  {
    if Less(key, t.minKey) {
      BeyondKey(t.entries, key);
    } else {
      forall e | e in t.entries ensures e.key != key {
        var i :| 0 <= i < |t.entries| && t.entries[i] == e;
        LessIrreflexive(key);
        if i < |t.entries| - 1 {
          LessAsymmetric(e.key, t.maxKey);
        }
      }
      FindBelow(t.entries, key);
    }
  }

  // ---------------------------------------------------------------------------------
  // Compacting a level

  /** Tombstones are dropped when the target is the last level or beyond. */
  predicate IsHighest(levels: seq<seq<Table>>, level: nat) { level + 1 >= |levels| - 1 }

  /** The levels with level `level` emptied and `added` pushed onto the next one. */
  function Compacted(levels: seq<seq<Table>>, level: nat, added: seq<Table>): seq<seq<Table>>
    requires level < |levels|
  {
    levels[..level] + [[]] +
    if level + 1 < |levels| then [levels[level + 1] + added] + levels[level + 2..]
    else if added == [] then [] else [added]
  }

  lemma BackwardOnto(ts: seq<Table>, added: seq<Table>)
    requires |added| <= 1
    ensures Backward(ts + added) == added + Backward(ts)
  {
  }

  lemma VisitedLevel(levels: seq<seq<Table>>, level: nat)
    requires level < |levels|
    ensures Visited(levels) == Visited(levels[..level]) + (Backward(levels[level]) + Visited(levels[level + 1..]))
  {
    JoinSplit(Backward, levels, level);
  }

  /** Compaction replaces the tables of a level, in the search order, by the merged one. */
  lemma VisitedCompacted(levels: seq<seq<Table>>, level: nat, added: seq<Table>)
    requires level < |levels| && |added| <= 1
    ensures Visited(Compacted(levels, level, added))
         == Visited(levels[..level]) + (added + Visited(levels[level + 1..]))
  {
    var after := Compacted(levels, level, added);
    var above, below := levels[..level], levels[level + 1..];
    var rest := after[level + 1..];
    assert after == above + [[]] + rest;
    JoinConcat(Backward, above + [[]], rest);
    JoinSnoc(Backward, above, []);
    assert Visited(above + [[]]) == Visited(above);
    if level + 1 < |levels| {
      var target := levels[level + 1];
      BackwardOnto(target, added);
      assert rest == [target + added] + levels[level + 2..];
      assert rest[1..] == below[1..] == levels[level + 2..];
      Regroup(added, Backward(target), Visited(levels[level + 2..]));
    } else if added != [] {
      JoinOne(Backward, added);
      assert rest == [added] && Backward(added) == added && below == [];
    }
  }

  /** The search result after compacting a level. */
  function AfterCompact(levels: seq<seq<Table>>, level: nat, key: Bytes): Option<Bytes>
    requires level < |levels|
  {
    var oldestVersion := FirstFind(Contents(levels[level]), key);
    var merged := if oldestVersion.Some? && !Kept(oldestVersion.value, IsHighest(levels, level)) then None
                  else oldestVersion;
    Or(Search(Visited(levels[..level]), key), Or(merged, Search(Visited(levels[level + 1..]), key)))
  }

  /** ... and before. */
  lemma BeforeCompact(levels: seq<seq<Table>>, level: nat, key: Bytes)
    requires level < |levels|
    ensures Search(Visited(levels), key)
         == Or(Search(Visited(levels[..level]), key),
               Or(LastFind(Contents(levels[level]), key), Search(Visited(levels[level + 1..]), key)))
  {
    var above, here, below := Visited(levels[..level]), Backward(levels[level]), Visited(levels[level + 1..]);
    VisitedLevel(levels, level);
    SearchConcat(above, here + below, key);
    SearchConcat(here, below, key);
    SearchBackward(levels[level], key);
  }

  /** The one table a merge produced, or none when nothing was left to write. */
  ghost predicate MergedTable(levels: seq<seq<Table>>, level: nat, added: seq<Table>)
    requires level < |levels|
  {
    && |added| <= 1
    && Merged(Contents(levels[level]), IsHighest(levels, level), if added == [] then [] else added[0].entries)
  }

  lemma {:induction false} MergedFind(sources: seq<seq<Entry>>, drop: bool, out: seq<Entry>, key: Bytes)
    requires Merged(sources, drop, out)
    ensures var v := FirstFind(sources, key);
            Find(out, key) == if v.Some? && Kept(v.value, drop) then v else None
  {
    var v, f := FirstFind(sources, key), Find(out, key);
    if f.Some? {
      FindMember(out, key, f.value);
      assert Entry(key, f.value) in out;
    } else if v.Some? {
      FindMember(out, key, v.value);
      assert Entry(key, v.value).key == key && Entry(key, v.value).val == v.value;
    }
  }

  lemma SearchCompacted(levels: seq<seq<Table>>, level: nat, added: seq<Table>, key: Bytes)
    requires level < |levels| && MergedTable(levels, level, added)
    ensures Search(Visited(Compacted(levels, level, added)), key) == AfterCompact(levels, level, key)
  {
    var above, below := Visited(levels[..level]), Visited(levels[level + 1..]);
    VisitedCompacted(levels, level, added);
    SearchConcat(above, added + below, key);
    SearchConcat(added, below, key);
    MergedFind(Contents(levels[level]), IsHighest(levels, level), if added == [] then [] else added[0].entries, key);
    if added != [] {
      assert added[1..] == [];
    }
  }

  /** The merged table holds no tombstone. */
  ghost predicate NoTombstones(ts: seq<Table>) {
    forall t, e :: t in ts && e in t.entries ==> e.val != []
  }

  /** The oldest merged version of a key, tombstone or not, takes the place of all of them. */
  ghost predicate OldestTakesPlace(before: seq<seq<Table>>, after: seq<seq<Table>>, level: nat, key: Bytes)
    requires level < |before|
  {
    Search(Visited(after), key) == Or(Search(Visited(before[..level]), key),
                                      Or(FirstFind(Contents(before[level]), key), Search(Visited(before[level + 1..]), key)))
  }

  /** Which compactions drop tombstones: those whose target is the last level or beyond, and
      no others. */
  ghost predicate DropsTombstones(before: seq<seq<Table>>, after: seq<seq<Table>>, level: nat) {
    && level < |before|
    && (level + 2 < |before| ==> forall key :: OldestTakesPlace(before, after, level, key))
    && (level + 2 >= |before| ==>
          exists added :: |added| <= 1 && after == Compacted(before, level, added) && NoTombstones(added))
  }

  lemma CompactionDrops(levels: seq<seq<Table>>, level: nat, added: seq<Table>)
    requires level < |levels| && MergedTable(levels, level, added)
    ensures DropsTombstones(levels, Compacted(levels, level, added), level)
  {
    var after := Compacted(levels, level, added);
    forall key ensures level + 2 < |levels| ==> OldestTakesPlace(levels, after, level, key) {
      SearchCompacted(levels, level, added, key);
    }
    assert level + 2 >= |levels| ==> NoTombstones(added);
  }

  /** Below the highest level, compaction changes the search result of a key exactly when no
      lower level has it and the oldest and the newest merged version differ. */
  lemma CompactUnchangedIff(levels: seq<seq<Table>>, level: nat, key: Bytes)
    requires level < |levels| && !IsHighest(levels, level)
    ensures AfterCompact(levels, level, key) == Search(Visited(levels), key)
       <==> (Search(Visited(levels[..level]), key).Some?
             || FirstFind(Contents(levels[level]), key) == LastFind(Contents(levels[level]), key))
  {
    BeforeCompact(levels, level, key);
    BothOrNeither(Contents(levels[level]), key);
  }

  lemma BothOrNeither(sources: seq<seq<Entry>>, key: Bytes)
    ensures FirstFind(sources, key).Some? <==> LastFind(sources, key).Some?
  {
    if FirstFind(sources, key).Some? {
      InSome(sources, key);
      SomeLast(sources, key);
    } else if LastFind(sources, key).Some? {
      LastInSome(sources, key);
      SomeFirst(sources, key);
    }
  }

  lemma {:induction false} SomeLast(sources: seq<seq<Entry>>, key: Bytes)
    requires exists s :: 0 <= s < |sources| && Find(sources[s], key).Some?
    ensures LastFind(sources, key).Some?
  {
    var n := |sources| - 1;
    var s :| 0 <= s < |sources| && Find(sources[s], key).Some?;
    if s < n {
      assert Find(sources[..n][s], key).Some?;
      SomeLast(sources[..n], key);
    }
  }

  lemma {:induction false} SomeFirst(sources: seq<seq<Entry>>, key: Bytes)
    requires exists s :: 0 <= s < |sources| && Find(sources[s], key).Some?
    ensures FirstFind(sources, key).Some?
  {
    var s :| 0 <= s < |sources| && Find(sources[s], key).Some?;
    if s > 0 {
      assert Find(sources[1..][s - 1], key).Some?;
      SomeFirst(sources[1..], key);
    }
  }

  lemma {:induction false} LastInSome(sources: seq<seq<Entry>>, key: Bytes)
    requires LastFind(sources, key).Some?
    ensures exists s :: 0 <= s < |sources| && Find(sources[s], key).Some?
  {
    var n := |sources| - 1;
    if Find(sources[n], key).None? {
      LastInSome(sources[..n], key);
      var s :| 0 <= s < n && Find(sources[..n][s], key).Some?;
      assert Find(sources[s], key).Some?;
    }
  }

  /** In particular it is unchanged for a key that at most one of the merged tables holds. */
  lemma CompactKeepsSoleVersion(levels: seq<seq<Table>>, level: nat, key: Bytes)
    requires level < |levels| && !IsHighest(levels, level) && SoleHolder(Contents(levels[level]), key)
    ensures AfterCompact(levels, level, key) == Search(Visited(levels), key)
  {
    SoleHolderAgrees(Contents(levels[level]), key);
    CompactUnchangedIff(levels, level, key);
  }

  /** When what a reader sees of a key survives the compaction of a level. */
  ghost predicate SurvivesCompact(levels: seq<seq<Table>>, level: nat, key: Bytes)
    requires level < |levels|
  {
    var oldestVersion, newestVersion := FirstFind(Contents(levels[level]), key), LastFind(Contents(levels[level]), key);
    || Search(Visited(levels[..level]), key).Some?
    || if IsHighest(levels, level) && oldestVersion == Some([])
       then Visible(newestVersion) == Visible(Search(Visited(levels[level + 1..]), key))
       else oldestVersion == newestVersion
  }

  /** Compaction changes what a reader sees of a key exactly when no lower level has it and
      either the oldest and the newest merged version differ or, where tombstones are dropped
      and the oldest version is one, what deeper tables hold differs from the newest. */
  lemma CompactVisibleIff(levels: seq<seq<Table>>, level: nat, key: Bytes)
    requires level < |levels|
    ensures Visible(AfterCompact(levels, level, key)) == Visible(Search(Visited(levels), key))
       <==> SurvivesCompact(levels, level, key)
  {
    BeforeCompact(levels, level, key);
    BothOrNeither(Contents(levels[level]), key);
  }

  /** At the highest level a single version of a key stays what a reader sees, unless it is a
      tombstone: then what deeper tables hold decides. */
  lemma CompactHighestSoleVersion(levels: seq<seq<Table>>, level: nat, key: Bytes)
    requires level < |levels| && IsHighest(levels, level) && SoleHolder(Contents(levels[level]), key)
    ensures Visible(AfterCompact(levels, level, key)) == Visible(Search(Visited(levels), key))
       <==> (Search(Visited(levels[..level]), key).Some?
             || LastFind(Contents(levels[level]), key) != Some([])
             || Visible(Search(Visited(levels[level + 1..]), key)) == None)
  {
    CompactVisibleIff(levels, level, key);
    SoleHolderAgrees(Contents(levels[level]), key);
  }

  // ---------------------------------------------------------------------------------
  // Compacting one level after the other

  /** The tables of a level were merged into at most one on the next. */
  ghost predicate CompactedTo(before: seq<seq<Table>>, after: seq<seq<Table>>, level: nat) {
    level < |before| && exists added :: MergedTable(before, level, added) && after == Compacted(before, level, added)
  }

  /** What `maybe_compact` does at one level. */
  ghost predicate CascadeStep(before: seq<seq<Table>>, after: seq<seq<Table>>, level: nat) {
    && level < |before|
    && if |before[level]| < MAX_TABLES_PER_LEVEL then after == before else CompactedTo(before, after, level)
  }

  /** The states before, between and after the levels from the first up. */
  ghost predicate Cascade(trace: seq<seq<seq<Table>>>) {
    trace != [] && forall l :: 0 <= l < |trace| - 1 ==> CascadeStep(trace[l], trace[l + 1], l)
  }

  lemma CascadeSnoc(trace: seq<seq<seq<Table>>>, after: seq<seq<Table>>)
    requires Cascade(trace) && CascadeStep(trace[|trace| - 1], after, |trace| - 1)
    ensures Cascade(trace + [after])
  {
    var trace' := trace + [after];
    forall l | 0 <= l < |trace'| - 1 ensures CascadeStep(trace'[l], trace'[l + 1], l) {
      if l < |trace| - 1 {
        assert trace'[l] == trace[l] && trace'[l + 1] == trace[l + 1];
      }
    }
  }

  /** What a reader sees of a key survives at every level that is compacted. */
  ghost predicate SurvivesCascade(trace: seq<seq<seq<Table>>>, key: Bytes) {
    forall l :: 0 <= l < |trace| - 1 ==> SurvivesStep(trace[l], l, key)
  }

  ghost predicate SurvivesStep(levels: seq<seq<Table>>, level: nat, key: Bytes) {
    level < |levels| && |levels[level]| >= MAX_TABLES_PER_LEVEL ==> SurvivesCompact(levels, level, key)
  }

  lemma {:induction false} CascadeKeepsVisible(trace: seq<seq<seq<Table>>>, key: Bytes)
    requires Cascade(trace) && SurvivesCascade(trace, key)
    ensures Visible(Search(Visited(trace[|trace| - 1]), key)) == Visible(Search(Visited(trace[0]), key))
  {
    var n := |trace| - 1;
    if n > 0 {
      CascadeKeepsVisible(trace[..n], key);
      StepKeepsVisible(trace[n - 1], trace[n], n - 1, key);
    }
  }

  /** A reader sees the same, first and last, of every key that survives at each level. */
  ghost predicate SurvivorsKept(trace: seq<seq<seq<Table>>>)
    requires trace != []
  {
    forall key :: SurvivesCascade(trace, key) ==>
      Visible(Search(Visited(trace[|trace| - 1]), key)) == Visible(Search(Visited(trace[0]), key))
  }

  lemma CascadeKeepsSurvivors(trace: seq<seq<seq<Table>>>)
    requires Cascade(trace)
    ensures SurvivorsKept(trace)
  {
    forall key | SurvivesCascade(trace, key)
      ensures Visible(Search(Visited(trace[|trace| - 1]), key)) == Visible(Search(Visited(trace[0]), key))
    {
      CascadeKeepsVisible(trace, key);
    }
  }

  lemma StepKeepsVisible(before: seq<seq<Table>>, after: seq<seq<Table>>, level: nat, key: Bytes)
    requires CascadeStep(before, after, level) && SurvivesStep(before, level, key)
    ensures Visible(Search(Visited(after), key)) == Visible(Search(Visited(before), key))
  {
    if |before[level]| >= MAX_TABLES_PER_LEVEL {
      var added :| MergedTable(before, level, added) && after == Compacted(before, level, added);
      SearchCompacted(before, level, added, key);
      CompactVisibleIff(before, level, key);
    }
  }

  /** All versions of a key that are stored anywhere are the same. */
  ghost predicate OneVersion(levels: seq<seq<Table>>, key: Bytes, val: Bytes) {
    forall t :: t in Visited(levels) && Find(t.entries, key).Some? ==> Find(t.entries, key) == Some(val)
  }

  /** A key of which only one value is stored is never changed by compaction, at any level. */
  lemma {:induction false} OneVersionSurvives(trace: seq<seq<seq<Table>>>, key: Bytes, val: Bytes)
    requires Cascade(trace) && OneVersion(trace[0], key, val)
    ensures Visible(Search(Visited(trace[|trace| - 1]), key)) == Visible(Search(Visited(trace[0]), key))
    ensures OneVersion(trace[|trace| - 1], key, val)
  {
    var n := |trace| - 1;
    if n > 0 {
      OneVersionSurvives(trace[..n], key, val);
      OneVersionStep(trace[n - 1], trace[n], n - 1, key, val);
    }
  }

  lemma OneVersionStep(before: seq<seq<Table>>, after: seq<seq<Table>>, level: nat, key: Bytes, val: Bytes)
    requires CascadeStep(before, after, level) && OneVersion(before, key, val)
    ensures OneVersion(after, key, val)
    ensures Visible(Search(Visited(after), key)) == Visible(Search(Visited(before), key))
  {
    if |before[level]| >= MAX_TABLES_PER_LEVEL {
      var added :| MergedTable(before, level, added) && after == Compacted(before, level, added);
      OneVersionMerged(before, level, added, key, val);
      SearchCompacted(before, level, added, key);
      OneVersionSearch(before, level, key, val);
      CompactVisibleIff(before, level, key);
    }
  }

  lemma {:induction false} SearchedSomewhere(ts: seq<Table>, key: Bytes)
    requires Search(ts, key).Some?
    ensures exists t :: t in ts && Find(t.entries, key) == Search(ts, key)
  {
    if Find(ts[0].entries, key).None? {
      SearchedSomewhere(ts[1..], key);
      var t :| t in ts[1..] && Find(t.entries, key) == Search(ts[1..], key);
      assert t in ts;
    } else {
      assert ts[0] in ts;
    }
  }

  /** Searching any of the tables gives that version or nothing. */
  lemma SearchOneVersion(ts: seq<Table>, levels: seq<seq<Table>>, key: Bytes, val: Bytes)
    requires OneVersion(levels, key, val) && forall t :: t in ts ==> t in Visited(levels)
    ensures Search(ts, key).Some? ==> Search(ts, key) == Some(val)
  {
    if Search(ts, key).Some? {
      SearchedSomewhere(ts, key);
    }
  }

  lemma OneVersionSearch(levels: seq<seq<Table>>, level: nat, key: Bytes, val: Bytes)
    requires level < |levels| && OneVersion(levels, key, val)
    ensures SurvivesCompact(levels, level, key)
    ensures var v := FirstFind(Contents(levels[level]), key); v.Some? ==> v == Some(val)
  {
    var ts := levels[level];
    VisitedLevel(levels, level);
    SearchOneVersion(Visited(levels[level + 1..]), levels, key, val);
    SearchOneVersion(Backward(ts), levels, key, val);
    SearchBackward(ts, key);
    BothOrNeither(Contents(ts), key);
    if FirstFind(Contents(ts), key).Some? {
      InSome(Contents(ts), key);
      var s :| 0 <= s < |Contents(ts)| && Find(Contents(ts)[s], key) == FirstFind(Contents(ts), key);
      assert Backward(ts)[|ts| - 1 - s] == ts[s];
    }
  }

  lemma OneVersionMerged(before: seq<seq<Table>>, level: nat, added: seq<Table>, key: Bytes, val: Bytes)
    requires level < |before| && MergedTable(before, level, added) && OneVersion(before, key, val)
    ensures OneVersion(Compacted(before, level, added), key, val)
  {
    var after := Compacted(before, level, added);
    VisitedLevel(before, level);
    VisitedCompacted(before, level, added);
    forall t | t in Visited(after) && Find(t.entries, key).Some? ensures Find(t.entries, key) == Some(val) {
      if t in added {
        OneVersionSearch(before, level, key, val);
        MergedFind(Contents(before[level]), IsHighest(before, level), added[0].entries, key);
      } else {
        assert t in Visited(before);
      }
    }
  }
}
