/** What a finished table reads back as, and point lookups through its block index. */
module TableSearch {
  import opened Wrappers
  import opened Bytes
  import opened SsTable
  import opened TableWriter
  import opened TableReader

  /** The reader's file holds these blocks, and its index describes them. */
  ghost predicate Table(r: Reader, blocks: seq<seq<Entry>>) {
    && IndexOf(r.index, blocks)
    && EncodeBlocks(blocks) <= r.file
    && forall i :: 0 <= i < |blocks| ==> AllFit(blocks[i])
  }

  /** What comes before block `i`, and the block itself. */
  lemma NextPrefix(blocks: seq<seq<Entry>>, i: nat)
    requires i < |blocks|
    ensures EncodeBlocks(blocks[..i]) + EncodeEntries(blocks[i]) <= EncodeBlocks(blocks)
  {
    JoinSplit(EncodeEntries, blocks, i);
    Regroup(EncodeBlocks(blocks[..i]), EncodeEntries(blocks[i]), Join(EncodeEntries, blocks[i + 1..]));
  }

  /** Reading a block by its index entry gives the encoding of its entries. */
  lemma BlockAt(r: Reader, blocks: seq<seq<Entry>>, i: nat)
    requires Table(r, blocks) && i < |blocks|
    ensures i < |r.index| && ReadBlock(r.file, r.index[i]) == Ok(EncodeEntries(blocks[i]))
  {
    NextPrefix(blocks, i);
    PrefixTransitive(EncodeBlocks(blocks[..i]) + EncodeEntries(blocks[i]), EncodeBlocks(blocks), r.file);
    SliceOfPrefix(EncodeBlocks(blocks[..i]), EncodeEntries(blocks[i]), r.file);
  }

  lemma PrefixTransitive(a: Bytes, b: Bytes, c: Bytes)
    requires a <= b <= c
    ensures a <= c
  {
  }

  lemma SliceOfPrefix(a: Bytes, b: Bytes, file: Bytes)
    requires a + b <= file
    ensures file[|a|..|a| + |b|] == b
  {
    assert file[..|a| + |b|] == a + b;
    assert file[|a|..|a| + |b|] == (a + b)[|a|..];
  }

  /** A decoded block comes before the blocks after it. */
  lemma {:induction false} DecodedFirst(r: Reader, block: Bytes, cursor: nat, i: nat, es: seq<Entry>)
    requires cursor <= |block| && i <= |r.index| && DecodeAll(block, cursor) == Ok(es)
    ensures EntriesFrom(r, block, cursor, i) == Then(es, EntriesFrom(r, [], 0, i))
    decreases |block| - cursor
  {
    var rest := EntriesFrom(r, [], 0, i);
    if cursor == |block| {
      EmptyBlock(r, block, i);
      ThenNothing(rest);
    } else {
      var d := DecodeEntry(block, cursor).value;
      var more := DecodeAll(block, d.next).value;
      DecodedFirst(r, block, d.next, i, more);
      ThenThen([d.entry], more, rest);
    }
  }

  /** Reading everything from block `i` on. */
  lemma {:induction false} ReadsBlocks(r: Reader, blocks: seq<seq<Entry>>, i: nat)
    requires Table(r, blocks) && i <= |blocks|
    ensures EntriesFrom(r, [], 0, i) == Ok(Flatten(blocks[i..]))
    decreases |blocks| - i
  {
    if i < |blocks| {
      ReadsBlocks(r, blocks, i + 1);
      BlockAt(r, blocks, i);
      var block := EncodeEntries(blocks[i]);
      BlockRoundTrip(block, 0, blocks[i]);
      DecodedFirst(r, block, 0, i + 1, blocks[i]);
      assert blocks[i..][1..] == blocks[i + 1..];
    }
  }

  /** The file opens as a table of these entries: the count is right, and reading or scanning
      it gives back the list. */
  ghost predicate Holds(file: Bytes, entries: seq<Entry>) {
    && Opened(file).Ok?
    && Opened(file).value.entryCount == |entries|
    && EntriesFrom(Opened(file).value, [], 0, 0) == Ok(entries)
  }

  lemma IndexInside(index: seq<IndexEntry>, blocks: seq<seq<Entry>>)
    requires IndexOf(index, blocks) && (forall i :: 0 <= i < |blocks| ==> AllFit(blocks[i]))
    requires |EncodeBlocks(blocks)| < U64
    ensures IndexFits(index)
  {
    forall i | 0 <= i < |index| ensures |index[i].firstKey| < U32 && index[i].offset < U64 && index[i].len < U64 {
      assert blocks[i][0] in blocks[i];
      NextPrefix(blocks, i);
    }
  }

  lemma {:induction false} EntriesLong(es: seq<Entry>)
    ensures |es| <= |EncodeEntries(es)|
  {
    if es != [] {
      EntriesLong(es[1..]);
    }
  }

  lemma {:induction false} BlocksLong(blocks: seq<seq<Entry>>)
    ensures |Flatten(blocks)| <= |EncodeBlocks(blocks)|
  {
    if blocks != [] {
      BlocksLong(blocks[1..]);
      EntriesLong(blocks[0]);
    }
  }

  lemma StartsWithData(a: Bytes, b: Bytes, c: Bytes)
    ensures a <= a + b + c
  {
    Regroup(a, b, c);
  }

  /** Every finished table reads back as the entries that went into it. */
  lemma TableRoundTrip(blocks: seq<seq<Entry>>, index: seq<IndexEntry>)
    requires IndexOf(index, blocks) && (forall i :: 0 <= i < |blocks| ==> AllFit(blocks[i]))
    requires |EncodeBlocks(blocks)| < U64
    ensures var file := TableFile(EncodeBlocks(blocks), index, |Flatten(blocks)|);
            Holds(file, Flatten(blocks)) && Table(Opened(file).value, blocks)
  {
    var data, count := EncodeBlocks(blocks), |Flatten(blocks)|;
    var file := TableFile(data, index, count);
    IndexInside(index, blocks);
    BlocksLong(blocks);
    OpenFinished(data, index, count);
    var r := Opened(file).value;
    StartsWithData(data, EncodeIndex(index), Footer(|data|, count));
    ReadsBlocks(r, blocks, 0);
    assert blocks[0..] == blocks;
  }

  lemma FlattenFits(blocks: seq<seq<Entry>>)
    requires AllFit(Flatten(blocks))
    ensures forall i :: 0 <= i < |blocks| ==> AllFit(blocks[i])
  {
    forall i, e | 0 <= i < |blocks| && e in blocks[i] ensures Fits(e) {
      InFlatten(blocks, e);
    }
  }

  /** The file reads, scans and searches as a table of these entries. */
  ghost predicate Readable(file: Bytes, entries: seq<Entry>) {
    Holds(file, entries) && exists blocks :: Table(Opened(file).value, blocks) && Flatten(blocks) == entries
  }

  /** Entries whose encoding a table file has room for. */
  ghost predicate Storable(entries: seq<Entry>) {
    AllFit(entries) && |EncodeEntries(entries)| < U64
  }

  /** Writing a list of entries as one table, as a flush does, for any list and block size. */
  method WriteTable(entries: seq<Entry>, blockSize: nat) returns (file: Bytes, count: nat, min: Bytes, max: Bytes)
    ensures count == |entries|
    ensures entries != [] ==> min == entries[0].key && max == entries[|entries| - 1].key
    ensures Storable(entries) ==> Readable(file, entries)
  {
    var writer := new SsTableWriter(blockSize);
    AddAll(writer, entries);
    count, min, max := writer.Finish();
    file := writer.file;
    FinishedTable(file, writer.blocks, writer.index);
  }

  method AddAll(writer: SsTableWriter, entries: seq<Entry>)
    requires writer.Valid() && writer.Contents() == []
    modifies writer
    ensures writer.Valid() && writer.Contents() == entries
  {
    for i := 0 to |entries|
      invariant writer.Valid() && writer.Contents() == entries[..i]
    {
      var e := entries[i];
      assert entries[..i + 1] == entries[..i] + [e];
      writer.Add(e.key, e.val);
    }
    assert entries[..|entries|] == entries;
  }

  lemma FinishedTable(file: Bytes, blocks: seq<seq<Entry>>, index: seq<IndexEntry>)
    requires IndexOf(index, blocks) && file == TableFile(EncodeBlocks(blocks), index, |Flatten(blocks)|)
    ensures Storable(Flatten(blocks)) ==> Readable(file, Flatten(blocks))
  {
    if Storable(Flatten(blocks)) {
      FlattenFits(blocks);
      FlattenLength(blocks);
      TableRoundTrip(blocks, index);
    }
  }

  /** Cutting entries into blocks does not change the bytes. */
  lemma {:induction false} FlattenLength(blocks: seq<seq<Entry>>)
    ensures EncodeBlocks(blocks) == EncodeEntries(Flatten(blocks))
  {
    if blocks != [] {
      FlattenLength(blocks[1..]);
      JoinConcat(EncodeEntry, blocks[0], Flatten(blocks[1..]));
    }
  }

  // ---------------------------------------------------------------------------------
  // Point lookups

  /** Association lookup, one entry after the other. */
  function Find(es: seq<Entry>, key: Bytes): Option<Bytes> {
    if es == [] then None else if es[0].key == key then Some(es[0].val) else Find(es[1..], key)
  }

  ghost predicate AscendingKeys(es: seq<Entry>) {
    forall i, j :: 0 <= i < j < |es| ==> Less(es[i].key, es[j].key)
  }

  /** In an ascending list, lookup and membership agree. */
  lemma {:induction false} FindMember(es: seq<Entry>, key: Bytes, val: Bytes)
    requires AscendingKeys(es)
    ensures Find(es, key) == Some(val) <==> Entry(key, val) in es
  {
    if es != [] {
      FindMember(es[1..], key, val);
      if es[0].key == key && Entry(key, val) in es[1..] {
        var i :| 0 < i < |es| && es[i] == Entry(key, val);
        LessIrreflexive(key);
      }
    }
  }

  /** Nothing is found below the smallest key. */
  lemma {:induction false} FindBelow(es: seq<Entry>, key: Bytes)
    requires forall e :: e in es ==> e.key != key
    ensures Find(es, key) == None
  {
    if es != [] {
      FindBelow(es[1..], key);
    }
  }

  /** Scanning one block, up to the first key beyond the one sought. */
  method SearchBlock(block: Bytes, key: Bytes, ghost es: seq<Entry>) returns (res: Result<Option<Bytes>, Fault>)
    ensures DecodeAll(block, 0) == Ok(es) && AscendingKeys(es) ==> res == Ok(Find(es, key))
  {
    var cursor := 0;
    ghost var decodes := DecodeAll(block, 0) == Ok(es) && AscendingKeys(es);
    ghost var rest := es;
    while cursor < |block|
      invariant cursor <= |block|
      invariant decodes ==> DecodeAll(block, cursor) == Ok(rest) && AscendingKeys(rest) && Find(es, key) == Find(rest, key)
    {
      var d := DecodeEntry(block, cursor);
      if d.Err? {
        return Err(d.error);
      }
      if d.value.entry.key == key {
        return Ok(Some(d.value.entry.val));
      }
      if Less(key, d.value.entry.key) {
        if decodes {
          BeyondKey(rest, key);
        }
        return Ok(None);
      }
      if decodes {
        rest := rest[1..];
      }
      cursor := d.value.next;
    }
    return Ok(None);
  }

  lemma BeyondKey(es: seq<Entry>, key: Bytes)
    requires AscendingKeys(es) && es != [] && Less(key, es[0].key)
    ensures Find(es, key) == None
  {
    forall e | e in es ensures e.key != key {
      var i :| 0 <= i < |es| && es[i] == e;
      if i > 0 {
        LessTransitive(key, es[0].key, e.key);
      }
      LessAsymmetric(key, e.key);
    }
    FindBelow(es, key);
  }

  /** Binary search: the end of the index entries whose first key is not beyond `key`. */
  method PartitionPoint(index: seq<IndexEntry>, key: Bytes) returns (p: nat)
    ensures p <= |index|
    ensures p > 0 ==> !Less(key, index[p - 1].firstKey)
    ensures p < |index| ==> Less(key, index[p].firstKey)
  {
    var lo, hi := 0, |index|;
    while lo < hi
      invariant lo <= hi <= |index|
      invariant lo > 0 ==> !Less(key, index[lo - 1].firstKey)
      invariant hi < |index| ==> Less(key, index[hi].firstKey)
    {
      var mid := lo + (hi - lo) / 2;
      if Less(key, index[mid].firstKey) {
        hi := mid;
      } else {
        lo := mid + 1;
      }
    }
    p := lo;
  }

  /** The one block that may hold the key: the last whose first key is not beyond it. */
  method FindBlock(index: seq<IndexEntry>, key: Bytes) returns (b: Option<nat>)
    ensures b.None? ==> index == [] || Less(key, index[0].firstKey)
    ensures b.Some? ==>
              && b.value < |index| && !Less(key, index[b.value].firstKey)
              && (b.value + 1 < |index| ==> Less(key, index[b.value + 1].firstKey))
  {
    if index == [] {
      return None;
    }
    var pos := PartitionPoint(index, key);
    b := if pos == 0 then None else Some(pos - 1);
  }

  lemma InFlatten(blocks: seq<seq<Entry>>, e: Entry)
    ensures e in Flatten(blocks) <==> exists i :: 0 <= i < |blocks| && e in blocks[i]
  {
    InJoin(Itself, blocks, e);
    if i :| 0 <= i < |blocks| && e in blocks[i] {
      assert e in Itself(blocks[i]);
    }
  }

  ghost predicate BlocksAscend(blocks: seq<seq<Entry>>) {
    && (forall i :: 0 <= i < |blocks| ==> AscendingKeys(blocks[i]))
    && forall i, j, e, f :: 0 <= i < j < |blocks| && e in blocks[i] && f in blocks[j] ==> Less(e.key, f.key)
  }

  lemma ConcatAscends(front: seq<Entry>, last: seq<Entry>)
    requires AscendingKeys(front + last)
    ensures AscendingKeys(front) && AscendingKeys(last)
    ensures forall e, f :: e in front && f in last ==> Less(e.key, f.key)
  {
    var all := front + last;
    forall i, j | 0 <= i < j < |front| ensures Less(front[i].key, front[j].key) {
      assert all[i] == front[i] && all[j] == front[j];
    }
    forall i, j | 0 <= i < j < |last| ensures Less(last[i].key, last[j].key) {
      assert all[|front| + i] == last[i] && all[|front| + j] == last[j];
    }
    forall e, f | e in front && f in last ensures Less(e.key, f.key) {
      var a :| 0 <= a < |front| && front[a] == e;
      var b :| 0 <= b < |last| && last[b] == f;
      assert all[a] == e && all[|front| + b] == f;
    }
  }

  lemma {:induction false} FlattenAscends(blocks: seq<seq<Entry>>)
    requires AscendingKeys(Flatten(blocks))
    ensures BlocksAscend(blocks)
  {
    if blocks != [] {
      var rest := blocks[1..];
      ConcatAscends(blocks[0], Flatten(rest));
      FlattenAscends(rest);
      forall i, j, e, f | 0 <= i < j < |blocks| && e in blocks[i] && f in blocks[j] ensures Less(e.key, f.key) {
        assert rest[j - 1] == blocks[j];
        if i > 0 {
          assert rest[i - 1] == blocks[i];
        } else {
          InFlatten(rest, f);
        }
      }
      forall i | 0 <= i < |blocks| ensures AscendingKeys(blocks[i]) {
        assert i > 0 ==> rest[i - 1] == blocks[i];
      }
    }
  }

  /** Only the block that the index names can hold the key. */
  lemma OtherBlock(blocks: seq<seq<Entry>>, key: Bytes, b: nat, i: nat, e: Entry)
    requires NoneEmpty(blocks) && BlocksAscend(blocks) && b < |blocks|
    requires !Less(key, blocks[b][0].key) && (b + 1 < |blocks| ==> Less(key, blocks[b + 1][0].key))
    requires i < |blocks| && i != b && e in blocks[i]
    ensures e.key != key
  {
    if i < b {
      var first := blocks[b][0];
      assert first in blocks[b];
      assert Less(e.key, first.key);
    } else {
      var next := blocks[b + 1][0];
      assert next in blocks[b + 1];
      if i == b + 1 {
        FirstLeast(blocks[i], e);
      }
      LessOrSame(key, next.key, e.key);
    }
  }

  lemma FirstLeast(es: seq<Entry>, e: Entry)
    requires AscendingKeys(es) && e in es
    ensures e.key == es[0].key || Less(es[0].key, e.key)
  {
    var i :| 0 <= i < |es| && es[i] == e;
  }

  lemma LessOrSame(a: Bytes, b: Bytes, c: Bytes)
    requires Less(a, b) && (b == c || Less(b, c))
    ensures a != c
  {
    LessIrreflexive(a);
    if b != c {
      LessTransitive(a, b, c);
    }
  }

  lemma FindInBlock(blocks: seq<seq<Entry>>, key: Bytes, b: nat)
    requires NoneEmpty(blocks) && AscendingKeys(Flatten(blocks)) && b < |blocks|
    requires !Less(key, blocks[b][0].key) && (b + 1 < |blocks| ==> Less(key, blocks[b + 1][0].key))
    ensures AscendingKeys(blocks[b]) && Find(blocks[b], key) == Find(Flatten(blocks), key)
  {
    FlattenAscends(blocks);
    var x, y := Find(blocks[b], key), Find(Flatten(blocks), key);
    if x.Some? {
      FindMember(blocks[b], key, x.value);
      InFlatten(blocks, Entry(key, x.value));
      FindMember(Flatten(blocks), key, x.value);
    } else if y.Some? {
      FindMember(Flatten(blocks), key, y.value);
      var e := Entry(key, y.value);
      InFlatten(blocks, e);
      var i :| 0 <= i < |blocks| && e in blocks[i];
      if i != b {
        OtherBlock(blocks, key, b, i, e);
      }
      FindMember(blocks[b], key, y.value);
    }
  }

  lemma FindBeforeAll(blocks: seq<seq<Entry>>, key: Bytes)
    requires NoneEmpty(blocks) && AscendingKeys(Flatten(blocks))
    requires blocks == [] || Less(key, blocks[0][0].key)
    ensures Find(Flatten(blocks), key) == None
  {
    if blocks != [] {
      assert Flatten(blocks) == blocks[0] + Flatten(blocks[1..]);
      BeyondKey(Flatten(blocks), key);
    }
  }

  /** Point lookup through the index agrees with looking through all entries. */
  method Get(r: Reader, key: Bytes, ghost blocks: seq<seq<Entry>>) returns (res: Result<Option<Bytes>, Fault>)
    ensures Table(r, blocks) && AscendingKeys(Flatten(blocks)) ==> res == Ok(Find(Flatten(blocks), key))
  {
    ghost var sound := Table(r, blocks) && AscendingKeys(Flatten(blocks));
    var b := FindBlock(r.index, key);
    if b.None? {
      if sound {
        FindBeforeAll(blocks, key);
      }
      return Ok(None);
    }
    var read := ReadBlock(r.file, r.index[b.value]);
    if sound {
      BlockAt(r, blocks, b.value);
      BlockRoundTrip(EncodeEntries(blocks[b.value]), 0, blocks[b.value]);
      FindInBlock(blocks, key, b.value);
    }
    if read.Err? {
      return Err(read.error);
    }
    ghost var es := if sound then blocks[b.value] else [];
    res := SearchBlock(read.value, key, es);
  }

  /** Opening a table file and searching it. */
  method GetFrom(file: Bytes, key: Bytes, ghost entries: seq<Entry>) returns (res: Result<Option<Bytes>, Fault>)
    ensures Readable(file, entries) && AscendingKeys(entries) ==> res == Ok(Find(entries, key))
  {
    var r := Open(file);
    if r.Err? {
      return Err(r.error);
    }
    ghost var blocks := [];
    if Readable(file, entries) {
      blocks :| Table(Opened(file).value, blocks) && Flatten(blocks) == entries;
    }
    res := Get(r.value, key, blocks);
  }

  /** Opening a table file and scanning it to its end. */
  method ScanFile(file: Bytes, ghost entries: seq<Entry>) returns (es: seq<Entry>)
    requires Holds(file, entries)
    ensures es == entries
  {
    var r := Open(file);
    var scan := new SsTableScan(r.value);
    es := ScanOn(scan, entries);
  }

  /** Takes entries from a scan until there are none. */
  method ScanOn(scan: SsTableScan, ghost entries: seq<Entry>) returns (es: seq<Entry>)
    requires scan.Valid() && scan.Remaining() == Ok(entries)
    modifies scan
    ensures es == entries
  {
    es := [];
    ghost var rest := entries;
    var more := true;
    while more
      invariant scan.Valid() && scan.Remaining() == Ok(rest)
      invariant entries == es + rest && (!more ==> rest == [])
      decreases more, |rest|
    {
      var next := scan.NextEntry();
      if next == Ok(None) {
        more := false;
      } else {
        HeadOf(next.value.value, scan.Remaining(), rest);
        es, rest := es + [next.value.value], rest[1..];
      }
    }
  }

  lemma HeadOf(e: Entry, r: Result<seq<Entry>, Fault>, rest: seq<Entry>)
    requires Then([e], r) == Ok(rest)
    ensures r.Ok? && rest == [e] + r.value && r.value == rest[1..]
  {
  }
}
