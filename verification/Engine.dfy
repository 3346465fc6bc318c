/** The store: the manifest of tables, and the engine operations that write, register, compact
    and search them. Tables are written and read as the bytes of their files. */
module Engine {
  import opened Wrappers
  import opened Bytes
  import opened SsTable
  import opened TableSearch
  import opened Merge
  import opened Levels

  /** All tables are well-formed, and the search order is newest-first. */
  ghost predicate InOrder(levels: seq<seq<Table>>, clock: nat) {
    TablesOK(levels, clock) && NewestFirst(Visited(levels))
  }

  ghost predicate TablesOK(levels: seq<seq<Table>>, clock: nat) {
    forall l, i :: 0 <= l < |levels| && 0 <= i < |levels[l]| ==> TableOK(levels[l][i]) && levels[l][i].newest < clock
  }

  /** Replacing part of a newest-first list by one table that spans it keeps it so. */
  lemma ReplaceKeepsOrder(above: seq<Table>, here: seq<Table>, below: seq<Table>, added: seq<Table>)
    requires NewestFirst(above + (here + below)) && |added| <= 1
    requires added != [] ==>
               here != [] && added[0].newest == here[0].newest && added[0].oldest == here[|here| - 1].oldest
    ensures NewestFirst(above + (added + below))
  {
    var old_, new_ := above + (here + below), above + (added + below);
    forall i, j | 0 <= i < j < |new_| ensures new_[i].oldest > new_[j].newest {
      var a := OldPlace(|above|, |here|, |added|, i, true);
      var b := OldPlace(|above|, |here|, |added|, j, false);
      assert old_[a].oldest == new_[i].oldest && old_[b].newest == new_[j].newest;
    }
  }

  /** Where the table at place `i` of the new list comes from; the added table counts as the
      last of those it replaces, or the first. */
  function OldPlace(above: nat, here: nat, added: nat, i: nat, last: bool): nat
    requires added == 0 || here > 0
  {
    if i < above then i
    else if i < above + added then (if last then above + here - 1 else above)
    else i - added + here
  }

  /** The added table spans the level it replaces. */
  ghost predicate Spans(ts: seq<Table>, added: seq<Table>) {
    && |added| <= 1
    && (added != [] ==>
          && ts != [] && TableOK(added[0])
          && added[0].oldest == ts[0].oldest && added[0].newest == ts[|ts| - 1].newest)
  }

  lemma CompactedAll(p: Table -> bool, levels: seq<seq<Table>>, level: nat, added: seq<Table>)
    requires level < |levels| && |added| <= 1 && (added != [] ==> p(added[0]))
    requires forall l, i :: 0 <= l < |levels| && 0 <= i < |levels[l]| ==> p(levels[l][i])
    ensures var after := Compacted(levels, level, added);
            forall l, i :: 0 <= l < |after| && 0 <= i < |after[l]| ==> p(after[l][i])
  {
    var after := Compacted(levels, level, added);
    forall l, i | 0 <= l < |after| && 0 <= i < |after[l]| ensures p(after[l][i]) {
      if l == level + 1 {
        var onto := if l < |levels| then levels[l] else [];
        assert after[l] == onto + added;
        if i < |onto| {
          assert after[l][i] == levels[l][i];
        }
      } else if l != level {
        assert after[l] == levels[l];
      }
    }
  }

  lemma CompactedInOrder(levels: seq<seq<Table>>, level: nat, added: seq<Table>, clock: nat)
    requires InOrder(levels, clock) && level < |levels| && Spans(levels[level], added)
    ensures InOrder(Compacted(levels, level, added), clock)
  {
    CompactedAll(t => TableOK(t) && t.newest < clock, levels, level, added);
    VisitedLevel(levels, level);
    VisitedCompacted(levels, level, added);
    ReplaceKeepsOrder(Visited(levels[..level]), Backward(levels[level]), Visited(levels[level + 1..]), added);
  }

  /** A level in oldest-to-newest order spans from its first table to its last. */
  lemma SpanOfLevel(levels: seq<seq<Table>>, level: nat, clock: nat)
    requires InOrder(levels, clock) && level < |levels| && levels[level] != []
    ensures levels[level][0].oldest <= levels[level][|levels[level]| - 1].newest < clock
  {
    VisitedLevel(levels, level);
    FirstNewest(Visited(levels[..level]), Backward(levels[level]), Visited(levels[level + 1..]));
  }

  lemma FirstNewest(above: seq<Table>, here: seq<Table>, below: seq<Table>)
    requires NewestFirst(above + (here + below)) && here != []
    ensures |here| > 1 ==> here[0].oldest > here[|here| - 1].newest
  {
    var all := above + (here + below);
    assert all[|above|] == here[0] && all[|above| + |here| - 1] == here[|here| - 1];
  }

  /** All data together stays below the reach of 64-bit file offsets. */
  ghost predicate Addressable(levels: seq<seq<Table>>) {
    DataSize(Visited(levels)) < U64
  }

  lemma CompactedSize(levels: seq<seq<Table>>, level: nat, added: seq<Table>)
    requires level < |levels| && |added| <= 1 && DataSize(added) <= TotalSize(Contents(levels[level]))
    ensures TotalSize(Contents(levels[level])) <= DataSize(Visited(levels))
    ensures DataSize(Visited(Compacted(levels, level, added))) <= DataSize(Visited(levels))
  {
    var above, here, below := Visited(levels[..level]), Backward(levels[level]), Visited(levels[level + 1..]);
    VisitedLevel(levels, level);
    VisitedCompacted(levels, level, added);
    DataSizeConcat(above, here + below);
    DataSizeConcat(here, below);
    DataSizeBackward(levels[level]);
    DataSizeConcat(above, added + below);
    DataSizeConcat(added, below);
  }

  /** The new entries can be stored beside the others. */
  ghost predicate HasRoom(levels: seq<seq<Table>>, entries: seq<Entry>) {
    AllFit(entries) && DataSize(Visited(levels)) + |EncodeEntries(entries)| < U64
  }

  /** Level 0 got one more table, with these entries. */
  ghost predicate Registered(before: seq<seq<Table>>, after: seq<seq<Table>>, entries: seq<Entry>) {
    |before| > 0 && exists t: Table :: t.entries == entries && after == before[0 := before[0] + [t]]
  }

  /** A reader sees the new entries before the old. */
  ghost predicate Expected(before: seq<seq<Table>>, entries: seq<Entry>, after: seq<seq<Table>>, key: Bytes) {
    Visible(Search(Visited(after), key)) == Visible(Or(Find(entries, key), Search(Visited(before), key)))
  }

  /** The states from the registration of new entries through the compactions it sets off. */
  ghost predicate Flushed(before: seq<seq<Table>>, entries: seq<Entry>, trace: seq<seq<seq<Table>>>, after: seq<seq<Table>>) {
    && Cascade(trace) && trace[|trace| - 1] == after
    && (entries == [] ==> trace == [before])
    && (entries != [] ==> Registered(before, trace[0], entries) && |trace| == |before| + 1)
  }

  /** What a flush ensures: a reader sees the new entries before the old whenever what it sees
      survives each compaction, and so for each key of which only one version is stored. */
  ghost predicate FlushedOK(before: seq<seq<Table>>, entries: seq<Entry>, trace: seq<seq<seq<Table>>>, after: seq<seq<Table>>) {
    && Flushed(before, entries, trace, after)
    && (forall key :: SurvivesCascade(trace, key) ==> Expected(before, entries, after, key))
    && forall key, val :: OneVersion(trace[0], key, val) ==> Expected(before, entries, after, key)
  }

  lemma FlushIsOK(before: seq<seq<Table>>, entries: seq<Entry>, trace: seq<seq<seq<Table>>>)
    requires trace != [] && Flushed(before, entries, trace, trace[|trace| - 1])
    ensures FlushedOK(before, entries, trace, trace[|trace| - 1])
  {
    var after := trace[|trace| - 1];
    forall key | SurvivesCascade(trace, key) ensures Expected(before, entries, after, key) {
      FlushedVisible(before, entries, trace, key, []);
    }
    forall key, val | OneVersion(trace[0], key, val) ensures Expected(before, entries, after, key) {
      FlushedVisible(before, entries, trace, key, val);
    }
  }

  lemma FlushedVisible(before: seq<seq<Table>>, entries: seq<Entry>, trace: seq<seq<seq<Table>>>, key: Bytes, val: Bytes)
    requires trace != [] && Flushed(before, entries, trace, trace[|trace| - 1])
    requires SurvivesCascade(trace, key) || OneVersion(trace[0], key, val)
    ensures Expected(before, entries, trace[|trace| - 1], key)
  {
    if SurvivesCascade(trace, key) {
      CascadeKeepsVisible(trace, key);
    } else {
      OneVersionSurvives(trace, key, val);
    }
    if entries != [] {
      var t: Table :| t.entries == entries && trace[0] == before[0 := before[0] + [t]];
      VisitedRegistered(before, t);
      SearchRegistered(t, Visited(before), key);
    }
  }

  lemma SearchRegistered(t: Table, ts: seq<Table>, key: Bytes)
    ensures Search([t] + ts, key) == Or(Find(t.entries, key), Search(ts, key))
  {
    assert ([t] + ts)[1..] == ts;
  }

  lemma VisitedRegistered(levels: seq<seq<Table>>, t: Table)
    requires |levels| > 0
    ensures Visited(levels[0 := levels[0] + [t]]) == [t] + Visited(levels)
  {
    var after := levels[0 := levels[0] + [t]];
    BackwardOnto(levels[0], [t]);
    assert after[1..] == levels[1..];
    Regroup([t], Backward(levels[0]), Visited(levels[1..]));
  }

  /** No level is due for compaction. */
  ghost predicate Roomy(levels: seq<seq<Table>>) {
    forall l :: 0 <= l < |levels| ==> |levels[l]| < MAX_TABLES_PER_LEVEL
  }

  /** What holds of a store. */
  ghost predicate StoreOK(levels: seq<seq<Table>>, clock: nat) {
    |levels| >= NUM_LEVELS && InOrder(levels, clock) && Addressable(levels)
  }

  /** A level was compacted: the store is in order, search results are as specified, and the
      data has not grown. */
  ghost predicate CompactedOK(before: seq<seq<Table>>, after: seq<seq<Table>>, level: nat, clock: nat) {
    && StoreOK(after, clock) && CompactedTo(before, after, level)
    && (forall key :: Search(Visited(after), key) == AfterCompact(before, level, key))
    && DataSize(Visited(after)) <= DataSize(Visited(before))
  }

  lemma CompactedStore(before: seq<seq<Table>>, level: nat, added: seq<Table>, clock: nat)
    requires StoreOK(before, clock) && level < |before| && Spans(before[level], added)
    requires MergedTable(before, level, added) && DataSize(added) <= TotalSize(Contents(before[level]))
    ensures CompactedOK(before, Compacted(before, level, added), level, clock)
  {
    var after := Compacted(before, level, added);
    assert CompactedTo(before, after, level);
    assert StoreOK(after, clock) && DataSize(Visited(after)) <= DataSize(Visited(before)) by {
      CompactedInOrder(before, level, added, clock);
      CompactedSize(before, level, added);
    }
    CompactedSearch(before, level, added);
  }

  /** What `compact_level` leaves; an empty level is left alone. */
  ghost predicate LevelCompacted(before: seq<seq<Table>>, after: seq<seq<Table>>, level: nat, clock: nat) {
    && level < |before| <= |after| && after[level] == []
    && (forall l :: 0 <= l < level ==> after[l] == before[l])
    && if before[level] == [] then after == before else CompactedOK(before, after, level, clock)
  }

  ghost predicate LevelTurn(before: seq<seq<Table>>, after: seq<seq<Table>>, level: nat, clock: nat) {
    && level < |before|
    && if |before[level]| < MAX_TABLES_PER_LEVEL then after == before else LevelCompacted(before, after, level, clock)
  }

  /** How far `maybe_compact` has come. */
  ghost predicate CompactedUpTo(trace: seq<seq<seq<Table>>>, level: nat, clock: nat) {
    && Cascade(trace) && |trace| == level + 1
    && var before, now := trace[0], trace[level];
       && StoreOK(now, clock) && |now| >= |before|
       && (forall l :: 0 <= l < level && l < |before| ==> |now[l]| < MAX_TABLES_PER_LEVEL)
       && (Roomy(before) ==> now == before)
       && DataSize(Visited(now)) <= DataSize(Visited(before))
  }

  lemma NothingCompacted(levels: seq<seq<Table>>, clock: nat)
    requires StoreOK(levels, clock)
    ensures CompactedUpTo([levels], 0, clock)
  {
  }

  lemma LevelDone(trace: seq<seq<seq<Table>>>, level: nat, clock: nat, after: seq<seq<Table>>)
    returns (trace': seq<seq<seq<Table>>>)
    requires CompactedUpTo(trace, level, clock) && level < |trace[0]|
    requires LevelTurn(trace[level], after, level, clock)
    ensures CompactedUpTo(trace', level + 1, clock) && trace'[0] == trace[0] && trace'[level + 1] == after
  {
    var before, now := trace[0], trace[level];
    CascadeSnoc(trace, after);
    trace' := trace + [after];
    assert Roomy(before) ==> after == before;
    forall l | 0 <= l < level + 1 ensures |after[l]| < MAX_TABLES_PER_LEVEL {
      if l < level {
        assert after[l] == now[l];
      }
    }
  }

  lemma RegisteredAndCompacted(before: seq<seq<Table>>, entries: seq<Entry>, trace: seq<seq<seq<Table>>>, clock: nat)
    requires entries != [] && CompactedUpTo(trace, |before|, clock) && Registered(before, trace[0], entries)
    ensures StoreOK(trace[|before|], clock) && FlushedOK(before, entries, trace, trace[|before|])
    ensures Roomy(trace[0]) ==> trace[|before|] == trace[0]
    ensures DataSize(Visited(trace[|before|])) <= DataSize(Visited(before)) + |EncodeEntries(entries)|
  {
    FlushIsOK(before, entries, trace);
    var t: Table :| t.entries == entries && trace[0] == before[0 := before[0] + [t]];
    RegisteredSize(before, t);
  }

  lemma RegisteredSize(levels: seq<seq<Table>>, t: Table)
    requires |levels| > 0
    ensures DataSize(Visited(levels[0 := levels[0] + [t]])) == DataSize(Visited(levels)) + |EncodeEntries(t.entries)|
  {
    VisitedRegistered(levels, t);
    DataSizeConcat([t], Visited(levels));
    assert [t][1..] == [];
  }

  class Store {
    var levels: seq<seq<Table>>
    var nextId: nat
    /** Counts registrations (auxiliary). */
    var clock: nat

    ghost predicate Valid()
      reads this
    {
      StoreOK(levels, clock)
    }

    constructor ()
      ensures Valid() && levels == [[], [], [], []]
    {
      levels := [[], [], [], []];
      nextId, clock := 0, 0;
      new;
      NothingVisited(levels);
    }

    /** `next_sstable_path`. */
    method NextId() returns (id: nat)
      modifies `nextId
      ensures id == old(nextId) && nextId == id + 1
    {
      id := nextId;
      nextId := nextId + 1;
    }

    /** `Manifest::add`: pushes a table onto a level, which is created when missing. */
    method Add(level: nat, t: Table)
      requires level <= |levels|
      modifies `levels
      ensures levels == if level < |old(levels)| then old(levels)[level := old(levels)[level] + [t]] else old(levels) + [[t]]
    {
      if level >= |levels| {
        levels := levels + [[]];
      }
      assert [] + [t] == [t];
      levels := levels[level := levels[level] + [t]];
    }

    /** `Manifest::remove`: drops the tables with the given numbers from a level. */
    method Remove(level: nat, ids: set<nat>)
      modifies `levels
      ensures levels == if level < |old(levels)| then old(levels)[level := Without(old(levels)[level], ids)] else old(levels)
    {
      if level < |levels| {
        levels := levels[level := Without(levels[level], ids)];
      }
    }

    /** `compact_level`: merges all tables of a level into one on the next. */
    method CompactLevel(level: nat)
      requires Valid() && level < |levels|
      modifies `levels, `nextId
      ensures Valid() && LevelCompacted(old(levels), levels, level, clock)
      ensures old(levels)[level] != [] ==> DropsTombstones(old(levels), levels, level)
    {
      var tables := levels[level];
      if tables == [] {
        return;
      }
      var id := NextId();
      var added := MergeUp(levels, level, clock, id);
      MoveUp(level, added);
    }

    /** Takes all tables off a level and pushes the merged one onto the next. */
    method MoveUp(level: nat, added: seq<Table>)
      requires level < |levels| && |added| <= 1
      modifies `levels
      ensures levels == Compacted(old(levels), level, added)
      ensures |levels| >= |old(levels)| && levels[level] == []
      ensures forall l :: 0 <= l < level ==> levels[l] == old(levels)[l]
    {
      var tables := levels[level];
      var oldIds := set i | 0 <= i < |tables| :: tables[i].id;
      AllWithout(tables, oldIds);
      Remove(level, oldIds);
      if added != [] {
        Add(level + 1, added[0]);
        assert added == [added[0]];
      }
      MovedUp(old(levels), level, added);
    }

    /** `maybe_compact`: afterwards no level is overfull, except one that was just created. */
    method MaybeCompact() returns (ghost trace: seq<seq<seq<Table>>>)
      requires Valid()
      modifies `levels, `nextId
      ensures Valid() && CompactedUpTo(trace, |old(levels)|, clock)
      ensures trace[0] == old(levels) && trace[|trace| - 1] == levels
      ensures SurvivorsKept(trace)
    {
      var numLevels := |levels|;
      trace := [levels];
      NothingCompacted(levels, clock);
      for level := 0 to numLevels
        invariant CompactedUpTo(trace, level, clock) && trace[0] == old(levels) && trace[level] == levels
      {
        trace := NextTurn(level, trace);
      }
      CascadeKeepsSurvivors(trace);
    }

    /** One turn of `maybe_compact`. */
    method NextTurn(level: nat, ghost trace: seq<seq<seq<Table>>>) returns (ghost trace': seq<seq<seq<Table>>>)
      requires CompactedUpTo(trace, level, clock) && level < |trace[0]| && trace[level] == levels
      modifies `levels, `nextId
      ensures CompactedUpTo(trace', level + 1, clock) && trace'[0] == trace[0] && trace'[level + 1] == levels
    {
      CompactIfDue(level);
      trace' := LevelDone(trace, level, clock, levels);
    }

    method CompactIfDue(level: nat)
      requires Valid() && level < |levels|
      modifies `levels, `nextId
      ensures Valid() && LevelTurn(old(levels), levels, level, clock)
    {
      if |levels[level]| >= MAX_TABLES_PER_LEVEL {
        CompactLevel(level);
      }
    }

    /** Writes a table file and registers it on level 0, where it is searched first. */
    method Register(entries: seq<Entry>)
      requires Valid() && entries != [] && AscendingKeys(entries) && HasRoom(levels, entries)
      modifies this
      ensures Valid() && Registered(old(levels), levels, entries)
      ensures forall key :: Search(Visited(levels), key) == Or(Find(entries, key), Search(Visited(old(levels)), key))
    {
      var id := NextId();
      var t := NewTable(id, entries, clock, clock);
      Add(0, t);
      clock := clock + 1;
      RegisteredInOrder(old(levels), t, old(clock));
      RegisteredSize(old(levels), t);
      forall key ensures Search(Visited(levels), key) == Or(Find(entries, key), Search(Visited(old(levels)), key)) {
        SearchRegistered(t, Visited(old(levels)), key);
      }
    }

    /** Registers a table and compacts what is then due. */
    method RegisterAndCompact(entries: seq<Entry>) returns (ghost trace: seq<seq<seq<Table>>>)
      requires Valid() && entries != [] && AscendingKeys(entries) && HasRoom(levels, entries)
      modifies this
      ensures Valid() && FlushedOK(old(levels), entries, trace, levels)
      ensures Roomy(trace[0]) ==> levels == trace[0]
      ensures DataSize(Visited(levels)) <= DataSize(Visited(old(levels))) + |EncodeEntries(entries)|
    {
      Register(entries);
      trace := MaybeCompact();
      RegisteredAndCompacted(old(levels), entries, trace, clock);
    }

    /** `flush_memtable`: drained entries become a table. */
    method FlushMemtable(entries: seq<Entry>) returns (ghost trace: seq<seq<seq<Table>>>)
      requires Valid() && AscendingKeys(entries) && HasRoom(levels, entries)
      modifies this
      ensures Valid() && FlushedOK(old(levels), entries, trace, levels)
      ensures entries == [] ==> levels == old(levels)
      ensures Roomy(trace[0]) ==> levels == trace[0]
      ensures DataSize(Visited(levels)) <= DataSize(Visited(old(levels))) + |EncodeEntries(entries)|
    {
      if entries == [] {
        trace := [levels];
        FlushIsOK(levels, entries, trace);
        return;
      }
      trace := RegisterAndCompact(entries);
    }

    /** `ingest_sorted`: refuses keys out of order and leaves the store as it was. */
    method IngestSorted(entries: seq<Entry>) returns (r: Result<nat, Error>, ghost trace: seq<seq<seq<Table>>>)
      requires Valid() && HasRoom(levels, entries)
      modifies this
      ensures Valid()
      ensures AscendingKeys(entries) ==> r == Ok(|entries|) && FlushedOK(old(levels), entries, trace, levels)
      ensures !AscendingKeys(entries) ==> r == Err(Corruption) && levels == old(levels)
      ensures entries == [] ==> levels == old(levels)
      ensures AscendingKeys(entries) && Roomy(trace[0]) ==> levels == trace[0]
    {
      trace := [levels];
      var ascending := InAscendingOrder(entries);
      if !ascending {
        return Err(Corruption), trace;
      }
      if entries != [] {
        trace := RegisterAndCompact(entries);
      } else {
        FlushIsOK(levels, entries, trace);
      }
      r := Ok(|entries|);
    }

    /** `get`: the memtable first, then all tables in search order, skipping those whose key
        range excludes the key. */
    method Get(memtable: Option<Bytes>, key: Bytes) returns (r: Option<Bytes>)
      requires Valid()
      ensures r == Visible(Or(memtable, Search(Visited(levels), key)))
    {
      if memtable.Some? {
        return if memtable.value == [] then None else memtable;
      }
      r := SearchLevels(levels, clock, key);
      r := if r == Some([]) then None else r;
    }
  }

  /** Searching all levels upward, up to the first table that has the key. */
  method SearchLevels(levels: seq<seq<Table>>, ghost clock: nat, key: Bytes) returns (r: Option<Bytes>)
    requires TablesOK(levels, clock)
    ensures r == Search(Visited(levels), key)
  {
    ghost var all := Search(Visited(levels), key);
    assert levels[0..] == levels;
    for l := 0 to |levels|
      invariant Search(Visited(levels[l..]), key) == all
    {
      NextLevel(levels, l, key);
      r := SearchLevel(levels[l], key);
      if r.Some? {
        return;
      }
    }
    assert levels[|levels|..] == [];
    r := None;
  }

  /** Writes a table file. */
  method NewTable(id: nat, entries: seq<Entry>, oldest: nat, newest: nat) returns (t: Table)
    requires entries != [] && AscendingKeys(entries) && Storable(entries) && oldest <= newest
    ensures TableOK(t) && t.entries == entries && t.oldest == oldest && t.newest == newest
  {
    var file, _, min, max := WriteTable(entries, DEFAULT_BLOCK_SIZE);
    t := Table(id, file, entries, min, max, oldest, newest);
  }

  /** The entries that the files of some tables read back as. */
  method ScanTables(tables: seq<Table>) returns (sources: seq<seq<Entry>>)
    requires forall i :: 0 <= i < |tables| ==> TableOK(tables[i])
    ensures sources == Contents(tables)
  {
    sources := [];
    for i := 0 to |tables|
      invariant |sources| == i && forall j :: 0 <= j < i ==> sources[j] == tables[j].entries
    {
      var es := ScanFile(tables[i].file, tables[i].entries);
      sources := sources + [es];
    }
  }

  /** Merges a level; what the store becomes when the result replaces it. */
  method MergeUp(levels: seq<seq<Table>>, level: nat, ghost clock: nat, id: nat) returns (added: seq<Table>)
    requires StoreOK(levels, clock) && level < |levels| && levels[level] != []
    ensures |added| <= 1 && CompactedOK(levels, Compacted(levels, level, added), level, clock)
    ensures DropsTombstones(levels, Compacted(levels, level, added), level)
  {
    SpanOfLevel(levels, level, clock);
    CompactedSize(levels, level, []);
    added := MergeLevel(levels[level], IsHighest(levels, level), id);
    CompactedStore(levels, level, added, clock);
    CompactionDrops(levels, level, added);
  }

  /** The table that the merge writes, when there is anything to write. */
  method MergeLevel(tables: seq<Table>, isHighest: bool, id: nat) returns (added: seq<Table>)
    requires tables != [] && (forall i :: 0 <= i < |tables| ==> TableOK(tables[i]))
    requires tables[0].oldest <= tables[|tables| - 1].newest && TotalSize(Contents(tables)) < U64
    ensures Spans(tables, added)
    ensures Merged(Contents(tables), isHighest, if added == [] then [] else added[0].entries)
    ensures DataSize(added) <= TotalSize(Contents(tables))
  {
    var sources := ScanTables(tables);
    var out := MergeTables(sources, isHighest);
    MergedFits(sources, isHighest, out);
    added := [];
    if out != [] {
      var t := NewTable(id, out, tables[0].oldest, tables[|tables| - 1].newest);
      added := [t];
      assert added[1..] == [];
    }
  }

  /** Searching one level from its end. */
  method SearchLevel(tables: seq<Table>, key: Bytes) returns (r: Option<Bytes>)
    requires forall i :: 0 <= i < |tables| ==> TableOK(tables[i])
    ensures r == LastFind(Contents(tables), key)
  {
    var j := |tables|;
    assert tables[..j] == tables;
    while j > 0
      invariant j <= |tables|
      invariant LastFind(Contents(tables[..j]), key) == LastFind(Contents(tables), key)
    {
      j := j - 1;
      var meta := tables[j];
      LastTable(tables, j, key);
      if Less(key, meta.minKey) || Less(meta.maxKey, key) {
        OutOfRange(meta, key);
        continue;
      }
      var value := GetFrom(meta.file, key, meta.entries);
      if value.value.Some? {
        return value.value;
      }
    }
    return None;
  }

  /** Each key beyond the one before. */
  method InAscendingOrder(entries: seq<Entry>) returns (ok: bool)
    ensures ok <==> AscendingKeys(entries)
  {
    var prevKey: Option<Bytes> := None;
    for i := 0 to |entries|
      invariant prevKey == if i == 0 then None else Some(entries[i - 1].key)
      invariant forall a, b :: 0 <= a < b < i ==> Less(entries[a].key, entries[b].key)
    {
      var key := entries[i].key;
      if prevKey.Some? {
        LessTotal(prevKey.value, key);
        if Less(key, prevKey.value) || key == prevKey.value {
          NotAscending(entries, i);
          return false;
        }
        forall a | 0 <= a < i ensures Less(entries[a].key, key) {
          if a < i - 1 {
            LessTransitive(entries[a].key, prevKey.value, key);
          }
        }
      }
      prevKey := Some(key);
    }
    return true;
  }

  /** Emptying a level and pushing onto the next, step by step. */
  lemma MovedUp(levels: seq<seq<Table>>, level: nat, added: seq<Table>)
    requires level < |levels|
    ensures var cleared := levels[level := []];
            Compacted(levels, level, added) ==
              if added == [] then cleared
              else if level + 1 < |levels| then cleared[level + 1 := cleared[level + 1] + added]
              else cleared + [added]
  {
    if level + 1 < |levels| && added == [] {
      assert levels[level + 1] + added == levels[level + 1];
    }
  }

  lemma CompactedSearch(levels: seq<seq<Table>>, level: nat, added: seq<Table>)
    requires level < |levels| && MergedTable(levels, level, added)
    ensures forall key :: Search(Visited(Compacted(levels, level, added)), key) == AfterCompact(levels, level, key)
  {
    forall key ensures Search(Visited(Compacted(levels, level, added)), key) == AfterCompact(levels, level, key) {
      SearchCompacted(levels, level, added, key);
    }
  }

  lemma {:induction false} NothingVisited(levels: seq<seq<Table>>)
    requires forall l :: 0 <= l < |levels| ==> levels[l] == []
    ensures Visited(levels) == []
  {
    if levels != [] {
      NothingVisited(levels[1..]);
      assert Backward(levels[0]) == [];
    }
  }

  lemma NotAscending(entries: seq<Entry>, i: nat)
    requires 0 < i < |entries|
    requires Less(entries[i].key, entries[i - 1].key) || entries[i].key == entries[i - 1].key
    ensures !AscendingKeys(entries)
  {
    LessIrreflexive(entries[i].key);
    if Less(entries[i].key, entries[i - 1].key) {
      LessAsymmetric(entries[i].key, entries[i - 1].key);
    }
  }

  function Without(ts: seq<Table>, ids: set<nat>): seq<Table> {
    if ts == [] then []
    else (if ts[0].id in ids then [] else [ts[0]]) + Without(ts[1..], ids)
  }

  lemma {:induction false} AllWithout(ts: seq<Table>, ids: set<nat>)
    requires forall i :: 0 <= i < |ts| ==> ts[i].id in ids
    ensures Without(ts, ids) == []
  {
    if ts != [] {
      AllWithout(ts[1..], ids);
    }
  }

  /** A new table is searched before all others. */
  lemma RegisteredInOrder(levels: seq<seq<Table>>, t: Table, clock: nat)
    requires |levels| > 0 && InOrder(levels, clock) && TableOK(t) && t.oldest == t.newest == clock
    ensures InOrder(levels[0 := levels[0] + [t]], clock + 1)
    ensures Visited(levels[0 := levels[0] + [t]]) == [t] + Visited(levels)
  {
    var after := levels[0 := levels[0] + [t]];
    VisitedRegistered(levels, t);
    AllVisited((x: Table) => x.newest < clock, levels);
    NewerFirst(t, Visited(levels));
  }

  lemma NewerFirst(t: Table, ts: seq<Table>)
    requires NewestFirst(ts) && forall x :: x in ts ==> x.newest < t.oldest
    ensures NewestFirst([t] + ts)
  {
  }

  lemma AllVisited(p: Table -> bool, levels: seq<seq<Table>>)
    requires forall l, i :: 0 <= l < |levels| && 0 <= i < |levels[l]| ==> p(levels[l][i])
    ensures forall x :: x in Visited(levels) ==> p(x)
  {
    forall x | x in Visited(levels) ensures p(x) {
      InJoin(Backward, levels, x);
      var l :| 0 <= l < |levels| && x in Backward(levels[l]);
      var i :| 0 <= i < |levels[l]| && Backward(levels[l])[i] == x;
      assert levels[l][|levels[l]| - 1 - i] == x;
    }
  }

  lemma NextLevel(levels: seq<seq<Table>>, l: nat, key: Bytes)
    requires l < |levels|
    ensures Search(Visited(levels[l..]), key)
         == Or(LastFind(Contents(levels[l]), key), Search(Visited(levels[l + 1..]), key))
  {
    assert levels[l..][1..] == levels[l + 1..];
    SearchConcat(Backward(levels[l]), Visited(levels[l + 1..]), key);
    SearchBackward(levels[l], key);
  }

  lemma LastTable(ts: seq<Table>, j: nat, key: Bytes)
    requires j < |ts|
    ensures LastFind(Contents(ts[..j + 1]), key) == Or(Find(ts[j].entries, key), LastFind(Contents(ts[..j]), key))
  {
    assert Contents(ts[..j + 1])[..j] == Contents(ts[..j]);
  }

  // ---------------------------------------------------------------------------------
  // Deleted keys that come back

  /** A table of one entry, in a file of one block. */
  function OneEntry(e: Entry, at: nat): (t: Table)
    ensures t.entries == [e] && t.oldest == t.newest == at
  {
    var data := EncodeEntries([e]);
    Bounded(at, TableFile(data, [IndexEntry(e.key, 0, |data|)], 1), [e], at, at)
  }

  lemma OneEntryOK(e: Entry, at: nat)
    requires Fits(e)
    ensures TableOK(OneEntry(e, at))
  {
    var index := [IndexEntry(e.key, 0, |EncodeEntries([e])|)];
    JoinOne(EncodeEntry, e);
    JoinOne(EncodeEntries, [e]);
    JoinOne(Itself, [e]);
    assert [[e]][..0] == [];
    assert IndexOf(index, [[e]]);
    TableRoundTrip([[e]], index);
  }

  /** Tables of one entry, registered one after the other. */
  function OneEach(entries: seq<Entry>): (ts: seq<Table>)
    ensures |ts| == |entries| && forall i :: 0 <= i < |ts| ==> ts[i] == OneEntry(entries[i], i + 1)
  {
    seq(|entries|, i requires 0 <= i < |entries| => OneEntry(entries[i], i + 1))
  }

  lemma {:induction false} OneEachSize(entries: seq<Entry>)
    ensures TotalSize(Contents(OneEach(entries))) == |EncodeEntries(entries)|
  {
    if entries != [] {
      var n := |entries| - 1;
      var ts := OneEach(entries);
      OneEachSize(entries[..n]);
      assert Contents(ts)[..n] == Contents(OneEach(entries[..n]));
      assert entries == entries[..n] + [entries[n]];
      JoinSnoc(EncodeEntry, entries[..n], entries[n]);
      JoinOne(EncodeEntry, entries[n]);
    }
  }

  /** Four tables on the last level but one, and one on the last. */
  function TwoLevels(upper: seq<Table>, lower: Table): seq<seq<Table>> { [[], [], upper, [lower]] }

  lemma TwoLevelsVisited(upper: seq<Table>, lower: Table)
    ensures Visited(TwoLevels(upper, lower)) == Backward(upper) + [lower]
    ensures Visited(TwoLevels(upper, lower)[..2]) == [] && Visited(TwoLevels(upper, lower)[3..]) == [lower]
  {
    var levels := TwoLevels(upper, lower);
    NothingVisited(levels[..2]);
    assert levels[3..] == [[lower]];
    JoinOne(Backward, [lower]);
    assert Backward([lower]) == [lower];
    VisitedLevel(levels, 2);
  }

  lemma TwoLevelsOK(entries: seq<Entry>, e: Entry)
    requires AllFit(entries) && Fits(e) && |EncodeEntries(entries)| + |EncodeEntry(e)| < U64
    ensures StoreOK(TwoLevels(OneEach(entries), OneEntry(e, 0)), |entries| + 1)
  {
    var upper, lower := OneEach(entries), OneEntry(e, 0);
    var p := (t: Table) => TableOK(t) && t.newest < |entries| + 1;
    OneEntryOK(e, 0);
    forall i | 0 <= i < |upper| ensures p(upper[i]) {
      OneEntryOK(entries[i], i + 1);
    }
    TwoLevelsAll(p, upper, lower);
    TwoLevelsStamped(upper, lower);
    OneEachSize(entries);
    JoinOne(EncodeEntry, e);
  }

  lemma TwoLevelsStamped(upper: seq<Table>, lower: Table)
    requires lower.oldest == lower.newest == 0
    requires forall i :: 0 <= i < |upper| ==> upper[i].oldest == upper[i].newest == i + 1
    ensures NewestFirst(Visited(TwoLevels(upper, lower)))
    ensures DataSize(Visited(TwoLevels(upper, lower))) == TotalSize(Contents(upper)) + |EncodeEntries(lower.entries)|
  {
    TwoLevelsVisited(upper, lower);
    StampedInOrder(Backward(upper) + [lower]);
    DataSizeConcat(Backward(upper), [lower]);
    DataSizeBackward(upper);
    assert [lower][1..] == [];
  }

  lemma TwoLevelsAll(p: Table -> bool, upper: seq<Table>, lower: Table)
    requires p(lower) && forall i :: 0 <= i < |upper| ==> p(upper[i])
    ensures var levels := TwoLevels(upper, lower);
            forall l, i :: 0 <= l < |levels| && 0 <= i < |levels[l]| ==> p(levels[l][i])
  {
  }

  lemma StampedInOrder(ts: seq<Table>)
    requires forall i :: 0 <= i < |ts| ==> ts[i].oldest == ts[i].newest == |ts| - 1 - i
    ensures NewestFirst(ts)
  {
  }

  /** A deleted key comes back: its tombstone is dropped on the way into the last level, where
      an older table still has a value. */
  lemma DroppedTombstoneUncovers(upper: seq<Table>, lower: Table, key: Bytes, val: Bytes)
    requires |upper| >= MAX_TABLES_PER_LEVEL && val != []
    requires Find(lower.entries, key) == Some(val) && Find(upper[|upper| - 1].entries, key) == Some([])
    requires forall i :: 0 <= i < |upper| - 1 ==> Find(upper[i].entries, key) == None
    ensures var levels := TwoLevels(upper, lower);
            && IsHighest(levels, 2)
            && Visible(Search(Visited(levels), key)) == None
            && Visible(AfterCompact(levels, 2, key)) == Some(val)
  {
    var levels := TwoLevels(upper, lower);
    TwoLevelsVisited(upper, lower);
    FirstFindAt(Contents(upper), key, |upper| - 1);
    assert [lower][1..] == [];
  }

  /** There is such a store: the value in its oldest table, the tombstone in its newest. */
  lemma BuriedStore(key: Bytes, val: Bytes, others: seq<Entry>) returns (levels: seq<seq<Table>>)
    requires val != [] && |others| == MAX_TABLES_PER_LEVEL - 1 && forall e :: e in others ==> e.key != key
    requires HasRoom([], others + [Entry(key, [])] + [Entry(key, val)])
    ensures StoreOK(levels, MAX_TABLES_PER_LEVEL + 1) && |levels[2]| == MAX_TABLES_PER_LEVEL && IsHighest(levels, 2)
    ensures Visible(Search(Visited(levels), key)) == None
    ensures Visible(AfterCompact(levels, 2, key)) == Some(val)
  {
    var entries := others + [Entry(key, [])];
    RoomForAll(entries, Entry(key, val));
    var upper, lower := OneEach(entries), OneEntry(Entry(key, val), 0);
    TwoLevelsOK(entries, Entry(key, val));
    OthersLackKey(others, key);
    DroppedTombstoneUncovers(upper, lower, key, val);
    levels := TwoLevels(upper, lower);
  }

  lemma RoomForAll(entries: seq<Entry>, e: Entry)
    requires HasRoom([], entries + [e])
    ensures AllFit(entries) && Fits(e) && |EncodeEntries(entries)| + |EncodeEntry(e)| < U64
  {
    assert forall x :: x in entries ==> x in entries + [e];
    assert e in entries + [e];
    JoinSnoc(EncodeEntry, entries, e);
  }

  lemma OthersLackKey(others: seq<Entry>, key: Bytes)
    requires forall e :: e in others ==> e.key != key
    ensures var ts := OneEach(others + [Entry(key, [])]);
            && Find(ts[|others|].entries, key) == Some([])
            && forall i :: 0 <= i < |others| ==> Find(ts[i].entries, key) == None
  {
    var ts := OneEach(others + [Entry(key, [])]);
    forall i | 0 <= i < |others| ensures Find(ts[i].entries, key) == None {
      assert others[i] in others;
      assert ts[i].entries == [others[i]];
    }
  }

  /** Level 0 has that many tables, the three others none. */
  predicate Only(levels: seq<seq<Table>>, n: nat) { |levels| == 4 && |levels[0]| == n && levels[1..] == [[], [], []] }

  /** Four tables on level 0 are merged, and that is all. */
  lemma FourTablesMerged(trace: seq<seq<seq<Table>>>)
    requires Cascade(trace) && |trace| == 5 && Only(trace[0], 4)
    ensures CompactedTo(trace[0], trace[4], 0)
  {
    var levels := trace[0];
    assert CascadeStep(trace[0], trace[1], 0);
    var added :| MergedTable(levels, 0, added) && trace[1] == Compacted(levels, 0, added);
    OnlyCompacted(levels, added);
    assert CascadeStep(trace[1], trace[2], 1);
    assert CascadeStep(trace[2], trace[3], 2);
    assert CascadeStep(trace[3], trace[4], 3);
  }

  lemma OnlyCompacted(levels: seq<seq<Table>>, added: seq<Table>)
    requires Only(levels, 4) && |added| <= 1
    ensures Compacted(levels, 0, added) == [[], added, [], []]
  {
    var none: seq<Table> := [];
    assert levels[1] == none && levels[2..] == [none, none];
    assert none + added == added;
  }

  /** The oldest of the four has the key. */
  lemma OldestOfFour(before: seq<seq<Table>>, after: seq<seq<Table>>, key: Bytes, val: Bytes)
    requires CompactedTo(before, after, 0) && Only(before, 4)
    requires val != [] && Find(before[0][0].entries, key) == Some(val)
    ensures Search(Visited(after), key) == Some(val)
  {
    var added :| MergedTable(before, 0, added) && after == Compacted(before, 0, added);
    SearchCompacted(before, 0, added, key);
    FirstFindAt(Contents(before[0]), key, 0);
    assert before[..0] == [];
  }

  /** After so many flushes of one entry each. */
  ghost predicate Filled(levels: seq<seq<Table>>, entries: seq<Entry>, i: nat) {
    && i <= |entries| && Only(levels, i) && (i > 0 ==> levels[0][0].entries == [entries[0]])
    && DataSize(Visited(levels)) <= |EncodeEntries(entries[..i])|
  }

  lemma RoomForNext(levels: seq<seq<Table>>, entries: seq<Entry>, i: nat)
    requires Filled(levels, entries, i) && i < |entries| && HasRoom([], entries)
    ensures HasRoom(levels, [entries[i]])
    ensures |EncodeEntries(entries[..i + 1])| == |EncodeEntries(entries[..i])| + |EncodeEntries([entries[i]])|
  {
    PrefixGrows(entries, i);
    PrefixSmaller(entries, i + 1);
    JoinOne(EncodeEntry, entries[i]);
  }

  lemma NextFilled(before: seq<seq<Table>>, entries: seq<Entry>, i: nat, trace: seq<seq<seq<Table>>>, after: seq<seq<Table>>)
    requires Filled(before, entries, i) && i < |entries| && FlushedOK(before, [entries[i]], trace, after)
    ensures |trace| == 5 && Only(trace[0], i + 1) && trace[0][0][0].entries == [entries[0]]
    ensures i + 1 < MAX_TABLES_PER_LEVEL ==> Roomy(trace[0])
  {
    var t: Table :| t.entries == [entries[i]] && trace[0] == before[0 := before[0] + [t]];
    assert trace[0][1..] == before[1..];
  }

  /** Three flushes of one entry each. */
  method FillThree(entries: seq<Entry>) returns (store: Store)
    requires |entries| == 4 && HasRoom([], entries)
    ensures fresh(store) && store.Valid() && Filled(store.levels, entries, 3)
  {
    store := new Store();
    NothingVisited(store.levels);
    for i := 0 to 3
      invariant fresh(store) && store.Valid() && Filled(store.levels, entries, i)
    {
      ghost var before := store.levels;
      RoomForNext(before, entries, i);
      var trace := store.FlushMemtable([entries[i]]);
      NextFilled(before, entries, i, trace, store.levels);
    }
  }

  /** A deleted key comes back: its value and its tombstone are merged, and the value is kept.
      This is what four flushes into an empty store lead to. */
  method DeletedKeyReturns(key: Bytes, val: Bytes, b: Entry, c: Entry) returns (r: Option<Bytes>)
    requires val != [] && HasRoom([], [Entry(key, val), b, c, Entry(key, [])])
    ensures r == Some(val)
  {
    var entries := [Entry(key, val), b, c, Entry(key, [])];
    var store := FillThree(entries);
    ghost var before := store.levels;
    RoomForNext(before, entries, 3);
    ghost var trace := store.FlushMemtable([entries[3]]);
    NextFilled(before, entries, 3, trace, store.levels);
    FourTablesMerged(trace);
    OldestOfFour(trace[0], trace[4], key, val);
    r := store.Get(None, key);
  }
}
