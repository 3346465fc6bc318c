/** Writing a sorted table: entries gather in a block buffer, full blocks go to the file, and
    the index and footer follow at the end. */
module TableWriter {
  import opened Wrappers
  import opened Bytes
  import opened SsTable

  function FirstKey(es: seq<Entry>): Option<Bytes> {
    if es == [] then None else Some(es[0].key)
  }

  function LastKey(es: seq<Entry>): Option<Bytes> {
    if es == [] then None else Some(es[|es| - 1].key)
  }

  lemma KeysOfSnoc(es: seq<Entry>, e: Entry)
    ensures LastKey(es + [e]) == Some(e.key)
    ensures FirstKey(es + [e]) == if es == [] then Some(e.key) else FirstKey(es)
  {
  }

  /** The file holds the flushed blocks, and the index describes them. */
  ghost predicate FileOK(file: Bytes, blockOffset: nat, index: seq<IndexEntry>, blocks: seq<seq<Entry>>) {
    file == EncodeBlocks(blocks) && blockOffset == |file| && IndexOf(index, blocks)
  }

  /** The buffer holds the entries not flushed yet. */
  ghost predicate BufferOK(blockBuf: Bytes, blockFirstKey: Option<Bytes>, pending: seq<Entry>) {
    blockBuf == EncodeEntries(pending) && blockFirstKey == FirstKey(pending)
  }

  ghost predicate BoundsOK(entryCount: nat, minKey: Option<Bytes>, maxKey: Option<Bytes>, contents: seq<Entry>) {
    entryCount == |contents| && minKey == FirstKey(contents) && maxKey == LastKey(contents)
  }

  /** A block ends with the entry that makes it reach the block size. */
  ghost predicate CutAt(block: seq<Entry>, blockSize: nat) {
    && block != [] && |EncodeEntries(block)| >= blockSize
    && (|block| == 1 || |EncodeEntries(block[..|block| - 1])| < blockSize)
  }

  ghost predicate CutsOK(blocks: seq<seq<Entry>>, pending: seq<Entry>, blockSize: nat) {
    && (forall i :: 0 <= i < |blocks| ==> CutAt(blocks[i], blockSize))
    && (pending == [] || |EncodeEntries(pending)| < blockSize)
  }

  lemma NextCut(blocks: seq<seq<Entry>>, pending: seq<Entry>, e: Entry, blockSize: nat)
    requires CutsOK(blocks, pending, blockSize)
    ensures if |EncodeEntries(pending + [e])| >= blockSize then CutsOK(blocks + [pending + [e]], [], blockSize)
            else CutsOK(blocks, pending + [e], blockSize)
  {
    assert (pending + [e])[..|pending|] == pending;
  }

  class SsTableWriter {
    const blockSize: nat
    var file: Bytes
    var blockBuf: Bytes
    var blockFirstKey: Option<Bytes>
    var blockOffset: nat
    var index: seq<IndexEntry>
    var entryCount: nat
    var minKey: Option<Bytes>
    var maxKey: Option<Bytes>
    /** The blocks in the file, and the entries in the block buffer. */
    ghost var blocks: seq<seq<Entry>>
    ghost var pending: seq<Entry>

    ghost predicate Valid()
      reads this
    {
      FileValid() && BufferValid() && BoundsValid() && CutsValid()
    }

    ghost predicate CutsValid()
      reads this
    {
      CutsOK(blocks, pending, blockSize)
    }

    ghost predicate FileValid()
      reads this
    {
      FileOK(file, blockOffset, index, blocks)
    }

    ghost predicate BufferValid()
      reads this
    {
      BufferOK(blockBuf, blockFirstKey, pending)
    }

    ghost predicate BoundsValid()
      reads this
    {
      BoundsOK(entryCount, minKey, maxKey, Contents())
    }

    /** All entries added so far. */
    ghost function Contents(): seq<Entry>
      reads this
    {
      Flatten(blocks) + pending
    }

    constructor (blockSize: nat)
      ensures Valid() && Contents() == [] && this.blockSize == blockSize
    {
      this.blockSize := blockSize;
      file, blockBuf, blockFirstKey, blockOffset := [], [], None, 0;
      index, entryCount, minKey, maxKey := [], 0, None, None;
      blocks, pending := [], [];
    }

    method Add(key: Bytes, val: Bytes)
      requires Valid()
      modifies this
      ensures Valid() && Contents() == old(Contents()) + [Entry(key, val)]
    {
      if minKey.None? {
        minKey := Some(key);
      }
      maxKey := Some(key);
      Buffer(key, val);
      entryCount := entryCount + 1;
      KeysOfSnoc(old(Contents()), Entry(key, val));
      NextCut(old(blocks), old(pending), Entry(key, val), blockSize);
      if |blockBuf| >= blockSize {
        FlushBlock();
      }
    }

    /** Encodes an entry into the block buffer. */
    method Buffer(key: Bytes, val: Bytes)
      requires BufferValid()
      modifies `blockBuf, `blockFirstKey, `pending
      ensures BufferValid() && pending == old(pending) + [Entry(key, val)]
      ensures Contents() == old(Contents()) + [Entry(key, val)]
    {
      if blockFirstKey.None? {
        blockFirstKey := Some(key);
      }
      blockBuf := blockBuf + LittleEndian(|key|, 4);
      blockBuf := blockBuf + key;
      blockBuf := blockBuf + LittleEndian(|val|, 4);
      blockBuf := blockBuf + val;
      JoinSnoc(EncodeEntry, pending, Entry(key, val));
      FourParts(old(blockBuf), LittleEndian(|key|, 4), key, LittleEndian(|val|, 4), val);
      pending := pending + [Entry(key, val)];
      assert Contents() == old(Contents()) + [Entry(key, val)];
    }

    /** Moves the block buffer to the file and indexes it. */
    method FlushBlock()
      requires FileValid() && BufferValid() && pending != []
      modifies `file, `index, `blockBuf, `blockFirstKey, `blockOffset, `blocks, `pending
      ensures FileValid() && BufferValid() && Contents() == old(Contents()) && pending == []
      ensures blocks == old(blocks) + [old(pending)]
    {
      var len := |blockBuf|;
      file := file + blockBuf;
      if blockFirstKey.Some? {
        index := index + [IndexEntry(blockFirstKey.value, blockOffset, len)];
        blockFirstKey := None;
      }
      blockOffset := blockOffset + len;
      blockBuf := [];
      BlockSnoc(blocks, pending);
      IndexSnoc(old(index), blocks, pending, index);
      blocks, pending := blocks + [pending], [];
    }

    /** Writes the rest, the index and the footer. */
    method Finish() returns (count: nat, min: Bytes, max: Bytes)
      requires Valid()
      modifies this
      ensures pending == [] && Flatten(blocks) == old(Contents()) && IndexOf(index, blocks)
      ensures file == TableFile(EncodeBlocks(blocks), index, count)
      ensures forall i :: 0 <= i < |blocks| - 1 ==> CutAt(blocks[i], blockSize)
      ensures blocks != [] ==> CutAt(blocks[|blocks| - 1], blockSize) || |EncodeEntries(blocks[|blocks| - 1])| < blockSize
      ensures |file| >= 20 && file[|file| - 4..] == [0x4C, 0x54, 0x53, 0x53]
      ensures count == |old(Contents())|
      ensures old(Contents()) != [] ==> FirstKey(old(Contents())) == Some(min) && LastKey(old(Contents())) == Some(max)
    {
      FlushRest();
      var indexOffset := blockOffset;
      WriteIndex();
      WriteFooter(indexOffset);
      EndsInMagic(EncodeBlocks(blocks) + EncodeIndex(index), indexOffset, entryCount);
      count := entryCount;
      min := if minKey.Some? then minKey.value else [];
      max := if maxKey.Some? then maxKey.value else [];
    }

    method FlushRest()
      requires FileValid() && BufferValid()
      modifies `file, `index, `blockBuf, `blockFirstKey, `blockOffset, `blocks, `pending
      ensures FileValid() && pending == [] && Flatten(blocks) == old(Contents())
      ensures blocks == if old(pending) == [] then old(blocks) else old(blocks) + [old(pending)]
    {
      if blockBuf != [] {
        FlushBlock();
      } else {
        NothingPending(pending);
      }
      assert Contents() == Flatten(blocks);
    }

    method WriteFooter(indexOffset: nat)
      modifies `file
      ensures file == old(file) + Footer(indexOffset, entryCount)
    {
      file := file + LittleEndian(indexOffset, 8);
      file := file + LittleEndian(entryCount, 8);
      file := file + LittleEndian(MAGIC, 4);
      FourParts(old(file), LittleEndian(indexOffset, 8), LittleEndian(entryCount, 8), LittleEndian(MAGIC, 4), []);
      assert (((LittleEndian(indexOffset, 8) + LittleEndian(entryCount, 8)) + LittleEndian(MAGIC, 4)) + [])
          == Footer(indexOffset, entryCount);
    }

    method WriteIndex()
      modifies `file
      ensures file == old(file) + EncodeIndex(index)
    {
      for i := 0 to |index|
        invariant file == old(file) + EncodeIndex(index[..i])
      {
        WriteIndexEntry(index[i]);
        JoinSnoc(EncodeIndexEntry, index[..i], index[i]);
        assert index[..i] + [index[i]] == index[..i + 1];
        Regroup(old(file), EncodeIndex(index[..i]), EncodeIndexEntry(index[i]));
      }
      assert index[..|index|] == index;
    }

    method WriteIndexEntry(ie: IndexEntry)
      modifies `file
      ensures file == old(file) + EncodeIndexEntry(ie)
    {
      file := file + LittleEndian(|ie.firstKey|, 4);
      file := file + ie.firstKey;
      file := file + LittleEndian(ie.offset, 8);
      file := file + LittleEndian(ie.len, 8);
      FourParts(old(file), LittleEndian(|ie.firstKey|, 4), ie.firstKey, LittleEndian(ie.offset, 8), LittleEndian(ie.len, 8));
    }
  }

  lemma EndsInMagic(body: Bytes, offset: nat, count: nat)
    ensures var file := body + Footer(offset, count); file[|file| - 4..] == [0x4C, 0x54, 0x53, 0x53]
  {
    FooterBytes(offset, count);
  }

  /** Writing piece by piece is writing the pieces together. */
  lemma FourParts(s: Bytes, a: Bytes, b: Bytes, c: Bytes, d: Bytes)
    ensures s + a + b + c + d == s + ((a + b) + (c + d)) == s + (((a + b) + c) + d)
  {
  }

  lemma NothingPending(pending: seq<Entry>)
    ensures pending != [] ==> EncodeEntries(pending) != []
  {
    if pending != [] {
      assert |EncodeEntry(pending[0])| >= 8;
    }
  }

  lemma BlockSnoc(blocks: seq<seq<Entry>>, block: seq<Entry>)
    ensures EncodeBlocks(blocks + [block]) == EncodeBlocks(blocks) + EncodeEntries(block)
    ensures Flatten(blocks + [block]) + [] == Flatten(blocks) + block
  {
    JoinSnoc(EncodeEntries, blocks, block);
    JoinSnoc(Itself, blocks, block);
  }

  lemma IndexSnoc(index: seq<IndexEntry>, blocks: seq<seq<Entry>>, block: seq<Entry>, index': seq<IndexEntry>)
    requires IndexOf(index, blocks) && block != []
    requires index' == index + [IndexEntry(block[0].key, |EncodeBlocks(blocks)|, |EncodeEntries(block)|)]
    ensures IndexOf(index', blocks + [block])
  {
    var all: seq<seq<Entry>> := blocks + [block];
    forall i: nat | i < |all|
      ensures index'[i] == IndexEntry(all[i][0].key, BlockStart(all, i), |EncodeEntries(all[i])|)
    {
      assert all[..i] == if i < |blocks| then blocks[..i] else blocks;
    }
  }
}
