/** The sorted-table file format: what a writer leaves in the file, what a reader gets out of
    it, and that the block index agrees with searching the entries one by one. A file is the
    sequence of its bytes. */
module SsTable {
  import opened Bytes

  datatype Entry = Entry(key: Bytes, val: Bytes)

  datatype IndexEntry = IndexEntry(firstKey: Bytes, offset: nat, len: nat)

  datatype Fault = TooSmall | BadMagic | BadOffset | UnexpectedEof | TruncatedEntry

  const MAGIC: nat := 0x5353_544C
  const FOOTER_SIZE: nat := 20
  const DEFAULT_BLOCK_SIZE: nat := 4096

  /** Lengths are stored in 32 bits. */
  predicate Fits(e: Entry) { |e.key| < U32 && |e.val| < U32 }

  ghost predicate AllFit(es: seq<Entry>) {
    forall e :: e in es ==> Fits(e)
  }

  // ---------------------------------------------------------------------------------
  // Encoding

  function EncodeEntry(e: Entry): (b: Bytes)
    ensures |b| == 8 + |e.key| + |e.val|
  {
    Prefixed(e.key) + Prefixed(e.val)
  }

  function EncodeEntries(es: seq<Entry>): Bytes {
    Join(EncodeEntry, es)
  }

  function EncodeBlocks(blocks: seq<seq<Entry>>): Bytes {
    Join(EncodeEntries, blocks)
  }

  function Itself(block: seq<Entry>): seq<Entry> { block }

  function Flatten(blocks: seq<seq<Entry>>): seq<Entry> {
    Join(Itself, blocks)
  }

  /** Where block `i` starts in the file. */
  function BlockStart(blocks: seq<seq<Entry>>, i: nat): nat
    requires i <= |blocks|
  {
    |EncodeBlocks(blocks[..i])|
  }

  ghost predicate NoneEmpty(blocks: seq<seq<Entry>>) {
    forall i :: 0 <= i < |blocks| ==> blocks[i] != []
  }

  /** The index that describes a list of blocks. */
  ghost predicate IndexOf(index: seq<IndexEntry>, blocks: seq<seq<Entry>>) {
    && |index| == |blocks| && NoneEmpty(blocks)
    && forall i :: 0 <= i < |blocks| ==>
         index[i] == IndexEntry(blocks[i][0].key, BlockStart(blocks, i), |EncodeEntries(blocks[i])|)
  }

  function EncodeIndexEntry(ie: IndexEntry): Bytes {
    Prefixed(ie.firstKey) + LittleEndian(ie.offset, 8) + LittleEndian(ie.len, 8)
  }

  function EncodeIndex(index: seq<IndexEntry>): Bytes {
    Join(EncodeIndexEntry, index)
  }

  function Footer(indexOffset: nat, count: nat): (b: Bytes)
    ensures |b| == FOOTER_SIZE
  {
    LittleEndian(indexOffset, 8) + LittleEndian(count, 8) + LittleEndian(MAGIC, 4)
  }

  // The layout, written out: lengths of 4 bytes, offsets and counts of 8, lowest byte first.

  lemma EntryBytes(e: Entry)
    ensures var k, v := |e.key|, |e.val|;
            EncodeEntry(e) == [k % 256, k / 0x100 % 256, k / 0x1_0000 % 256, k / 0x100_0000 % 256] + e.key
                              + [v % 256, v / 0x100 % 256, v / 0x1_0000 % 256, v / 0x100_0000 % 256] + e.val
  {
    FourBytes(|e.key|);
    FourBytes(|e.val|);
  }

  lemma IndexEntryBytes(ie: IndexEntry)
    ensures var k, o, n := |ie.firstKey|, ie.offset, ie.len;
            EncodeIndexEntry(ie) == [k % 256, k / 0x100 % 256, k / 0x1_0000 % 256, k / 0x100_0000 % 256] + ie.firstKey
                                    + [o % 256, o / 0x100 % 256, o / 0x1_0000 % 256, o / 0x100_0000 % 256,
                                       o / 0x1_0000_0000 % 256, o / 0x100_0000_0000 % 256,
                                       o / 0x1_0000_0000_0000 % 256, o / 0x100_0000_0000_0000 % 256]
                                    + [n % 256, n / 0x100 % 256, n / 0x1_0000 % 256, n / 0x100_0000 % 256,
                                       n / 0x1_0000_0000 % 256, n / 0x100_0000_0000 % 256,
                                       n / 0x1_0000_0000_0000 % 256, n / 0x100_0000_0000_0000 % 256]
  {
    FourBytes(|ie.firstKey|);
    EightBytes(ie.offset);
    EightBytes(ie.len);
  }

  /** Where the index starts, how many entries there are, and the letters "LTSS". */
  lemma FooterBytes(o: nat, n: nat)
    ensures Footer(o, n) == [o % 256, o / 0x100 % 256, o / 0x1_0000 % 256, o / 0x100_0000 % 256,
                             o / 0x1_0000_0000 % 256, o / 0x100_0000_0000 % 256,
                             o / 0x1_0000_0000_0000 % 256, o / 0x100_0000_0000_0000 % 256]
                            + [n % 256, n / 0x100 % 256, n / 0x1_0000 % 256, n / 0x100_0000 % 256,
                               n / 0x1_0000_0000 % 256, n / 0x100_0000_0000 % 256,
                               n / 0x1_0000_0000_0000 % 256, n / 0x100_0000_0000_0000 % 256]
                            + [0x4C, 0x54, 0x53, 0x53]
  {
    EightBytes(o);
    EightBytes(n);
    FourBytes(MAGIC);
  }

  /** What a finished writer leaves behind. */
  function TableFile(data: Bytes, index: seq<IndexEntry>, count: nat): Bytes {
    data + EncodeIndex(index) + Footer(|data|, count)
  }
}
