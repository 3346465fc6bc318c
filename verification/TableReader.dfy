/** Reading a sorted table: opening it, decoding its blocks, scanning, and searching. */
module TableReader {
  import opened Wrappers
  import opened Bytes
  import opened SsTable

  datatype Reader = Reader(file: Bytes, index: seq<IndexEntry>, entryCount: nat)

  /** The little-endian number of `w` bytes at position `at`. */
  function Number(b: Bytes, at: nat, w: nat): nat
    requires at + w <= |b|
  {
    FromLittleEndian(b[at..at + w])
  }

  lemma NumberAt(pre: Bytes, n: nat, w: nat, rest: Bytes)
    requires n < Pow256(w)
    ensures Number(pre + LittleEndian(n, w) + rest, |pre|, w) == n
  {
    assert (pre + LittleEndian(n, w) + rest)[|pre|..|pre| + w] == LittleEndian(n, w);
    LittleEndianRoundTrip(n, w);
  }

  /** A number that is read is encoded by the bytes it is read from. */
  lemma NumberIs(b: Bytes, at: nat, w: nat)
    requires at + w <= |b|
    ensures Number(b, at, w) < Pow256(w) && LittleEndian(Number(b, at, w), w) == b[at..at + w]
  {
    LittleEndianOf(b[at..at + w]);
  }

  // ---------------------------------------------------------------------------------
  // The index

  /** The index entries from position `cursor` on; a torn tail is ignored. */
  function ParsedIndex(buf: Bytes, cursor: nat): seq<IndexEntry>
    requires cursor <= |buf|
    decreases |buf| - cursor
  {
    if cursor + 4 > |buf| then []
    else
      var keyLen := Number(buf, cursor, 4);
      var pos := cursor + 4 + keyLen;
      if pos + 16 > |buf| then []
      else [IndexEntry(buf[cursor + 4..pos], Number(buf, pos, 8), Number(buf, pos + 8, 8))]
           + ParsedIndex(buf, pos + 16)
  }

  method ParseIndex(buf: Bytes) returns (entries: seq<IndexEntry>)
    ensures entries == ParsedIndex(buf, 0)
  {
    entries := [];
    var cursor := 0;
    while cursor < |buf|
      invariant cursor <= |buf|
      invariant entries + ParsedIndex(buf, cursor) == ParsedIndex(buf, 0)
    {
      ghost var start := cursor;
      if cursor + 4 > |buf| {
        break;
      }
      var keyLen := Number(buf, cursor, 4);
      cursor := cursor + 4;
      if cursor + keyLen + 16 > |buf| {
        break;
      }
      var firstKey := buf[cursor..cursor + keyLen];
      cursor := cursor + keyLen;
      var offset := Number(buf, cursor, 8);
      cursor := cursor + 8;
      var len := Number(buf, cursor, 8);
      cursor := cursor + 8;
      assert ParsedIndex(buf, start) == [IndexEntry(firstKey, offset, len)] + ParsedIndex(buf, cursor);
      Append(entries, IndexEntry(firstKey, offset, len), ParsedIndex(buf, cursor));
      entries := entries + [IndexEntry(firstKey, offset, len)];
    }
  }

  lemma Append(a: seq<IndexEntry>, e: IndexEntry, b: seq<IndexEntry>)
    ensures a + ([e] + b) == (a + [e]) + b
  {
  }

  ghost predicate IndexFits(index: seq<IndexEntry>) {
    forall ie :: ie in index ==> |ie.firstKey| < U32 && ie.offset < U64 && ie.len < U64
  }

  /** The parts of an encoded index entry, each at its place. */
  lemma IndexEntryParts(pre: Bytes, ie: IndexEntry, rest: Bytes)
    requires |ie.firstKey| < U32 && ie.offset < U64 && ie.len < U64
    ensures var buf, n := pre + EncodeIndexEntry(ie) + rest, |ie.firstKey|;
            && |buf| >= |pre| + 20 + n
            && Number(buf, |pre|, 4) == n
            && buf[|pre| + 4..|pre| + 4 + n] == ie.firstKey
            && Number(buf, |pre| + 4 + n, 8) == ie.offset
            && Number(buf, |pre| + 12 + n, 8) == ie.len
  {
    Widths();
    var k, o, l := LittleEndian(|ie.firstKey|, 4), LittleEndian(ie.offset, 8), LittleEndian(ie.len, 8);
    Pieces(pre, k, ie.firstKey, o, l, rest);
    NumberAt(pre, |ie.firstKey|, 4, ie.firstKey + o + l + rest);
    NumberAt(pre + k + ie.firstKey, ie.offset, 8, l + rest);
    NumberAt(pre + k + ie.firstKey + o, ie.len, 8, rest);
  }

  /** One byte string, cut in four ways. */
  lemma Pieces(pre: Bytes, a: Bytes, b: Bytes, c: Bytes, d: Bytes, rest: Bytes)
    ensures var all := pre + (a + b + c + d) + rest;
            && all == pre + a + (b + c + d + rest)
            && all == (pre + a + b) + c + (d + rest)
            && all == (pre + a + b + c) + d + rest
            && all[|pre| + |a|..|pre| + |a| + |b|] == b
  {
  }

  lemma ParsedStep(buf: Bytes, cursor: nat, ie: IndexEntry)
    requires cursor + 20 + |ie.firstKey| <= |buf|
    requires Number(buf, cursor, 4) == |ie.firstKey|
    requires buf[cursor + 4..cursor + 4 + |ie.firstKey|] == ie.firstKey
    requires Number(buf, cursor + 4 + |ie.firstKey|, 8) == ie.offset
    requires Number(buf, cursor + 12 + |ie.firstKey|, 8) == ie.len
    ensures ParsedIndex(buf, cursor) == [ie] + ParsedIndex(buf, cursor + 20 + |ie.firstKey|)
  {
  }

  /** An encoded index entry stands at `cursor`. */
  lemma IndexEntryAt(buf: Bytes, cursor: nat, ie: IndexEntry, rest: Bytes)
    requires |ie.firstKey| < U32 && ie.offset < U64 && ie.len < U64
    requires cursor <= |buf| && buf[cursor..] == EncodeIndexEntry(ie) + rest
    ensures var next := cursor + 20 + |ie.firstKey|;
            next <= |buf| && buf[next..] == rest && ParsedIndex(buf, cursor) == [ie] + ParsedIndex(buf, next)
  {
    IndexEntryParts(buf[..cursor], ie, rest);
    assert buf == buf[..cursor] + EncodeIndexEntry(ie) + rest;
    ParsedStep(buf, cursor, ie);
  }

  /** The index a writer encoded is the index a reader parses. */
  lemma {:induction false} IndexRoundTrip(buf: Bytes, cursor: nat, index: seq<IndexEntry>)
    requires IndexFits(index) && cursor <= |buf| && buf[cursor..] == EncodeIndex(index)
    ensures ParsedIndex(buf, cursor) == index
    decreases index
  {
    if index != [] {
      IndexEntryAt(buf, cursor, index[0], EncodeIndex(index[1..]));
      IndexRoundTrip(buf, cursor + 20 + |index[0].firstKey|, index[1..]);
      HeadTail(index);
    }
  }

  lemma TwoPairs(s: Bytes, a: nat, b: nat, c: nat, d: nat, e: nat)
    requires a <= b <= c <= d <= e <= |s|
    ensures s[a..e] == (s[a..b] + s[b..c]) + (s[c..d] + s[d..e])
  {
  }

  lemma Number4(b: Bytes, at: nat)
    requires at + 4 <= |b|
    ensures Number(b, at, 4) < U32 && LittleEndian(Number(b, at, 4), 4) == b[at..at + 4]
  {
    Widths();
    NumberIs(b, at, 4);
  }

  lemma Number8(b: Bytes, at: nat)
    requires at + 8 <= |b|
    ensures Number(b, at, 8) < U64 && LittleEndian(Number(b, at, 8), 8) == b[at..at + 8]
  {
    Widths();
    NumberIs(b, at, 8);
  }

  lemma IndexEntryIs(buf: Bytes, cursor: nat, pos: nat, ie: IndexEntry)
    requires cursor + 4 <= pos && pos + 16 <= |buf| && ie.firstKey == buf[cursor + 4..pos]
    requires LittleEndian(|ie.firstKey|, 4) == buf[cursor..cursor + 4]
    requires LittleEndian(ie.offset, 8) == buf[pos..pos + 8] && LittleEndian(ie.len, 8) == buf[pos + 8..pos + 16]
    ensures buf[cursor..pos + 16] == EncodeIndexEntry(ie)
  {
    FourSlices(buf, cursor, cursor + 4, pos, pos + 8, pos + 16);
  }

  lemma FourSlices(s: Bytes, a: nat, b: nat, c: nat, d: nat, e: nat)
    requires a <= b <= c <= d <= e <= |s|
    ensures s[a..e] == ((s[a..b] + s[b..c]) + s[c..d]) + s[d..e]
  {
    assert s[a..c] == s[a..b] + s[b..c];
    assert s[a..d] == s[a..c] + s[c..d];
  }

  lemma FirstParsed(buf: Bytes, cursor: nat) returns (ie: IndexEntry, next: nat)
    requires cursor <= |buf| && ParsedIndex(buf, cursor) != []
    ensures cursor < next <= |buf| && ParsedIndex(buf, cursor) == [ie] + ParsedIndex(buf, next)
    ensures |ie.firstKey| < U32 && ie.offset < U64 && ie.len < U64
    ensures buf[cursor..next] == EncodeIndexEntry(ie)
  {
    var pos := cursor + 4 + Number(buf, cursor, 4);
    ie, next := IndexEntry(buf[cursor + 4..pos], Number(buf, pos, 8), Number(buf, pos + 8, 8)), pos + 16;
    IndexNumbers(buf, cursor, pos, ie);
    IndexEntryIs(buf, cursor, pos, ie);
  }

  lemma IndexNumbers(buf: Bytes, cursor: nat, pos: nat, ie: IndexEntry)
    requires cursor + 4 <= pos && pos + 16 <= |buf| && |ie.firstKey| == Number(buf, cursor, 4)
    requires ie.offset == Number(buf, pos, 8) && ie.len == Number(buf, pos + 8, 8)
    ensures |ie.firstKey| < U32 && ie.offset < U64 && ie.len < U64
    ensures LittleEndian(|ie.firstKey|, 4) == buf[cursor..cursor + 4]
    ensures LittleEndian(ie.offset, 8) == buf[pos..pos + 8] && LittleEndian(ie.len, 8) == buf[pos + 8..pos + 16]
  {
    Number4(buf, cursor);
    Number8(buf, pos);
    Number8(buf, pos + 8);
  }

  lemma PrefixAfter(s: Bytes, i: nat, j: nat, rest: Bytes)
    requires i <= j <= |s| && rest <= s[j..]
    ensures s[i..j] + rest <= s[i..]
  {
    assert s[i..] == s[i..j] + s[j..];
    assert s[j..] == rest + s[j..][|rest|..];
  }

  lemma ParsedCons(buf: Bytes, cursor: nat, next: nat, ie: IndexEntry, rest: seq<IndexEntry>)
    requires cursor <= next <= |buf| && buf[cursor..next] == EncodeIndexEntry(ie)
    requires |ie.firstKey| < U32 && ie.offset < U64 && ie.len < U64
    requires IndexFits(rest) && EncodeIndex(rest) <= buf[next..]
    ensures IndexFits([ie] + rest) && EncodeIndex([ie] + rest) <= buf[cursor..]
  {
    PrefixAfter(buf, cursor, next, EncodeIndex(rest));
    JoinCons(EncodeIndexEntry, ie, rest);
  }

  /** Whatever bytes an index is parsed from, they begin with the encoding of its entries. */
  lemma {:induction false} ParsedIsEncoded(buf: Bytes, cursor: nat)
    requires cursor <= |buf|
    ensures IndexFits(ParsedIndex(buf, cursor)) && EncodeIndex(ParsedIndex(buf, cursor)) <= buf[cursor..]
    decreases |buf| - cursor
  {
    if ParsedIndex(buf, cursor) != [] {
      var ie, next := FirstParsed(buf, cursor);
      ParsedIsEncoded(buf, next);
      ParsedCons(buf, cursor, next, ie, ParsedIndex(buf, next));
    }
  }

  // ---------------------------------------------------------------------------------
  // Opening

  /** What opening a file gives, for any bytes whatever. */
  function Opened(file: Bytes): Result<Reader, Fault> {
    if |file| < FOOTER_SIZE then Err(TooSmall)
    else
      var end := |file| - FOOTER_SIZE;
      var indexOffset := Number(file, end, 8);
      if Number(file, end + 16, 4) != MAGIC then Err(BadMagic)
      else if indexOffset > end then Err(BadOffset)
      else Ok(Reader(file, ParsedIndex(file[indexOffset..end], 0), Number(file, end + 8, 8)))
  }

  method Open(file: Bytes) returns (r: Result<Reader, Fault>)
    ensures r == Opened(file)
    ensures r == Err(TooSmall) <==> |file| < 20
    ensures r == Err(BadMagic) <==> |file| >= 20 && file[|file| - 4..] != [0x4C, 0x54, 0x53, 0x53]
  {
    if |file| >= FOOTER_SIZE {
      MagicBytes(file);
    }
    if |file| < FOOTER_SIZE {
      return Err(TooSmall);
    }
    var footer := file[|file| - FOOTER_SIZE..];
    var indexOffset := Number(footer, 0, 8);
    var entryCount := Number(footer, 8, 8);
    var magic := Number(footer, 16, 4);
    FooterSlices(file);
    if magic != MAGIC {
      return Err(BadMagic);
    }
    if indexOffset > |file| - FOOTER_SIZE {
      return Err(BadOffset);
    }
    var index := ParseIndex(file[indexOffset..|file| - FOOTER_SIZE]);
    return Ok(Reader(file, index, entryCount));
  }

  lemma MagicBytes(file: Bytes)
    requires |file| >= FOOTER_SIZE
    ensures Number(file, |file| - 4, 4) == MAGIC <==> file[|file| - 4..] == [0x4C, 0x54, 0x53, 0x53]
  {
    var at := |file| - 4;
    assert file[at..at + 4] == file[at..];
    ReadsAs(file[at..], MAGIC);
    FourBytes(MAGIC);
  }

  lemma ReadsAs(b: Bytes, n: nat)
    requires |b| == 4 && n < U32
    ensures FromLittleEndian(b) == n <==> b == LittleEndian(n, 4)
  {
    Widths();
    LittleEndianOf(b);
    LittleEndianRoundTrip(n, 4);
  }

  lemma FooterSlices(file: Bytes)
    requires |file| >= FOOTER_SIZE
    ensures var end := |file| - FOOTER_SIZE; var footer := file[end..];
            && Number(footer, 0, 8) == Number(file, end, 8)
            && Number(footer, 8, 8) == Number(file, end + 8, 8)
            && Number(footer, 16, 4) == Number(file, end + 16, 4)
  {
    var end := |file| - FOOTER_SIZE;
    assert file[end..][0..8] == file[end..end + 8];
    assert file[end..][8..16] == file[end + 8..end + 16];
    assert file[end..][16..20] == file[end + 16..end + 20];
  }

  /** A finished table opens, with the index and the entry count it was written with. */
  lemma OpenFinished(data: Bytes, index: seq<IndexEntry>, count: nat)
    requires IndexFits(index) && |data| < U64 && count < U64
    ensures var file := TableFile(data, index, count); Opened(file) == Ok(Reader(file, index, count))
  {
    Widths();
    var file, body := TableFile(data, index, count), data + EncodeIndex(index);
    var o, c, m := LittleEndian(|data|, 8), LittleEndian(count, 8), LittleEndian(MAGIC, 4);
    assert file == body + o + (c + m);
    NumberAt(body, |data|, 8, c + m);
    assert file == (body + o) + c + m;
    NumberAt(body + o, count, 8, m);
    assert file == (body + o + c) + m + [];
    NumberAt(body + o + c, MAGIC, 4, []);
    assert file[|data|..|body|] == EncodeIndex(index);
    IndexRoundTrip(EncodeIndex(index), 0, index);
  }

  // ---------------------------------------------------------------------------------
  // Blocks

  datatype Decoded = Decoded(entry: Entry, next: nat)

  function DecodeEntry(block: Bytes, cursor: nat): (r: Result<Decoded, Fault>)
    requires cursor <= |block|
    ensures r.Ok? ==> cursor + 8 <= r.value.next <= |block|
  {
    if cursor + 4 > |block| then Err(TruncatedEntry)
    else
      var keyLen := Number(block, cursor, 4);
      var pos := cursor + 4;
      if pos + keyLen + 4 > |block| then Err(TruncatedEntry)
      else
        var valPos := pos + keyLen + 4;
        var valLen := Number(block, pos + keyLen, 4);
        if valPos + valLen > |block| then Err(TruncatedEntry)
        else Ok(Decoded(Entry(block[pos..pos + keyLen], block[valPos..valPos + valLen]), valPos + valLen))
  }

  lemma EntryPieces(pre: Bytes, a: Bytes, b: Bytes, c: Bytes, d: Bytes, rest: Bytes)
    ensures var all := pre + ((a + b) + (c + d)) + rest;
            && all == pre + a + (b + c + d + rest)
            && all == (pre + a + b) + c + (d + rest)
            && all[|pre| + |a|..|pre| + |a| + |b|] == b
            && all[|pre| + |a| + |b| + |c|..|pre| + |a| + |b| + |c| + |d|] == d
  {
  }

  /** Decoding finds the entry that was encoded at that place. */
  lemma DecodeEncoded(pre: Bytes, e: Entry, rest: Bytes)
    requires Fits(e)
    ensures DecodeEntry(pre + EncodeEntry(e) + rest, |pre|) == Ok(Decoded(e, |pre| + |EncodeEntry(e)|))
  {
    Widths();
    var k, v := LittleEndian(|e.key|, 4), LittleEndian(|e.val|, 4);
    EntryPieces(pre, k, e.key, v, e.val, rest);
    NumberAt(pre, |e.key|, 4, e.key + v + e.val + rest);
    NumberAt(pre + k + e.key, |e.val|, 4, e.val + rest);
  }

  /** Entries followed by what comes next, unless that fails. */
  function Then(es: seq<Entry>, r: Result<seq<Entry>, Fault>): Result<seq<Entry>, Fault> {
    match r
    case Ok(more) => Ok(es + more)
    case Err(f) => Err(f)
  }

  /** All entries of a block from `cursor` on. */
  function DecodeAll(block: Bytes, cursor: nat): Result<seq<Entry>, Fault>
    requires cursor <= |block|
    decreases |block| - cursor
  {
    if cursor == |block| then Ok([])
    else
      match DecodeEntry(block, cursor)
      case Err(f) => Err(f)
      case Ok(d) => Then([d.entry], DecodeAll(block, d.next))
  }

  lemma EntryAt(block: Bytes, cursor: nat, e: Entry, rest: Bytes)
    requires Fits(e) && cursor <= |block| && block[cursor..] == EncodeEntry(e) + rest
    ensures var next := cursor + |EncodeEntry(e)|;
            next <= |block| && block[next..] == rest && DecodeEntry(block, cursor) == Ok(Decoded(e, next))
  {
    DecodeEncoded(block[..cursor], e, rest);
    assert block == block[..cursor] + EncodeEntry(e) + rest;
  }

  lemma DecodeStep(block: Bytes, cursor: nat, d: Decoded, es: seq<Entry>)
    requires cursor < |block| && DecodeEntry(block, cursor) == Ok(d)
    requires es != [] && es[0] == d.entry && DecodeAll(block, d.next) == Ok(es[1..])
    ensures DecodeAll(block, cursor) == Ok(es)
  {
    assert [es[0]] + es[1..] == es;
  }

  /** A block decodes to the entries it was encoded from. */
  lemma {:induction false} BlockRoundTrip(block: Bytes, cursor: nat, es: seq<Entry>)
    requires AllFit(es) && cursor <= |block| && block[cursor..] == EncodeEntries(es)
    ensures DecodeAll(block, cursor) == Ok(es)
    decreases es
  {
    if es != [] {
      EntryAt(block, cursor, es[0], EncodeEntries(es[1..]));
      var next := cursor + |EncodeEntry(es[0])|;
      BlockRoundTrip(block, next, es[1..]);
      DecodeStep(block, cursor, Decoded(es[0], next), es);
    }
  }

  lemma EntryIs(block: Bytes, cursor: nat, keyEnd: nat, next: nat, e: Entry)
    requires cursor + 4 <= keyEnd && keyEnd + 4 <= next <= |block|
    requires e.key == block[cursor + 4..keyEnd] && e.val == block[keyEnd + 4..next]
    requires LittleEndian(|e.key|, 4) == block[cursor..cursor + 4]
    requires LittleEndian(|e.val|, 4) == block[keyEnd..keyEnd + 4]
    ensures block[cursor..next] == EncodeEntry(e)
  {
    TwoPairs(block, cursor, cursor + 4, keyEnd, keyEnd + 4, next);
  }

  lemma DecodedParts(block: Bytes, cursor: nat)
    requires cursor <= |block| && DecodeEntry(block, cursor).Ok?
    ensures var e, next := DecodeEntry(block, cursor).value.entry, DecodeEntry(block, cursor).value.next;
            var keyEnd := cursor + 4 + |e.key|;
            && keyEnd + 4 + |e.val| == next <= |block|
            && e.key == block[cursor + 4..keyEnd] && e.val == block[keyEnd + 4..next]
            && |e.key| == Number(block, cursor, 4) && |e.val| == Number(block, keyEnd, 4)
  {
  }

  /** What is decoded was encoded, in any bytes. */
  lemma DecodedEntry(block: Bytes, cursor: nat)
    requires cursor <= |block| && DecodeEntry(block, cursor).Ok?
    ensures var d := DecodeEntry(block, cursor).value; Fits(d.entry) && block[cursor..d.next] == EncodeEntry(d.entry)
  {
    var e, next := DecodeEntry(block, cursor).value.entry, DecodeEntry(block, cursor).value.next;
    DecodedParts(block, cursor);
    EntryNumbers(block, cursor, cursor + 4 + |e.key|, e);
    EntryIs(block, cursor, cursor + 4 + |e.key|, next, e);
  }

  lemma EntryNumbers(block: Bytes, cursor: nat, keyEnd: nat, e: Entry)
    requires cursor + 4 <= keyEnd && keyEnd + 4 <= |block|
    requires |e.key| == Number(block, cursor, 4) && |e.val| == Number(block, keyEnd, 4)
    ensures Fits(e)
    ensures LittleEndian(|e.key|, 4) == block[cursor..cursor + 4] && LittleEndian(|e.val|, 4) == block[keyEnd..keyEnd + 4]
  {
    Number4(block, cursor);
    Number4(block, keyEnd);
  }

  lemma {:induction false} DecodedIsEncoded(block: Bytes, cursor: nat, es: seq<Entry>)
    requires cursor <= |block| && DecodeAll(block, cursor) == Ok(es)
    ensures AllFit(es) && block[cursor..] == EncodeEntries(es)
    decreases |block| - cursor
  {
    if cursor < |block| {
      DecodedEntry(block, cursor);
      var d := DecodeEntry(block, cursor).value;
      var more := DecodeAll(block, d.next).value;
      DecodedIsEncoded(block, d.next, more);
      assert es == [d.entry] + more && es[1..] == more;
      assert block[cursor..] == block[cursor..d.next] + block[d.next..];
    }
  }

  /** A block decodes to a list of entries exactly when it is their encoding. */
  lemma BlockReads(block: Bytes, es: seq<Entry>)
    ensures DecodeAll(block, 0) == Ok(es) <==> AllFit(es) && block == EncodeEntries(es)
  {
    assert block[0..] == block;
    if DecodeAll(block, 0) == Ok(es) {
      DecodedIsEncoded(block, 0, es);
    } else if AllFit(es) && block == EncodeEntries(es) {
      BlockRoundTrip(block, 0, es);
    }
  }

  function ReadBlock(file: Bytes, ie: IndexEntry): Result<Bytes, Fault> {
    if ie.offset + ie.len > |file| then Err(UnexpectedEof) else Ok(file[ie.offset..ie.offset + ie.len])
  }

  /** The rest of a block and then all blocks from number `i` on. */
  function EntriesFrom(r: Reader, block: Bytes, cursor: nat, i: nat): Result<seq<Entry>, Fault>
    requires cursor <= |block| && i <= |r.index|
    decreases |r.index| - i, |block| - cursor
  {
    if cursor < |block| then
      match DecodeEntry(block, cursor)
      case Err(f) => Err(f)
      case Ok(d) => Then([d.entry], EntriesFrom(r, block, d.next, i))
    else if i == |r.index| then Ok([])
    else
      match ReadBlock(r.file, r.index[i])
      case Err(f) => Err(f)
      case Ok(next) => EntriesFrom(r, next, 0, i + 1)
  }

  /** `read_all`: block by block, entry by entry. */
  method ReadAll(r: Reader) returns (res: Result<seq<Entry>, Fault>)
    ensures res == EntriesFrom(r, [], 0, 0)
  {
    var entries: seq<Entry> := [];
    ghost var all := EntriesFrom(r, [], 0, 0);
    assert Then([], all) == all by {
      ThenNothing(all);
    }
    for idx := 0 to |r.index|
      invariant Then(entries, EntriesFrom(r, [], 0, idx)) == all
    {
      var read := ReadBlock(r.file, r.index[idx]);
      if read.Err? {
        return Err(read.error);
      }
      var block, cursor := read.value, 0;
      while cursor < |block|
        invariant cursor <= |block|
        invariant Then(entries, EntriesFrom(r, block, cursor, idx + 1)) == all
      {
        var d := DecodeEntry(block, cursor);
        if d.Err? {
          return Err(d.error);
        }
        ThenThen(entries, [d.value.entry], EntriesFrom(r, block, d.value.next, idx + 1));
        entries := entries + [d.value.entry];
        cursor := d.value.next;
      }
      EmptyBlock(r, block, idx + 1);
    }
    res := Ok(entries);
    assert entries + [] == entries;
  }

  lemma ThenNothing(r: Result<seq<Entry>, Fault>)
    ensures Then([], r) == r
  {
    if r.Ok? {
      assert [] + r.value == r.value;
    }
  }

  lemma ThenThen(a: seq<Entry>, b: seq<Entry>, r: Result<seq<Entry>, Fault>)
    ensures Then(a, Then(b, r)) == Then(a + b, r)
  {
    if r.Ok? {
      assert a + (b + r.value) == (a + b) + r.value;
    }
  }

  lemma EmptyBlock(r: Reader, block: Bytes, i: nat)
    requires i <= |r.index|
    ensures EntriesFrom(r, block, |block|, i) == EntriesFrom(r, [], 0, i)
  {
  }

  // ---------------------------------------------------------------------------------
  // Scanning

  /** The streaming iterator, holding one block at a time. */
  class SsTableScan {
    const reader: Reader
    var blockIdx: nat
    var blockBuf: Bytes
    var cursor: nat

    ghost predicate Valid()
      reads this
    {
      cursor <= |blockBuf| && blockIdx <= |reader.index|
    }

    /** What is still to come. */
    ghost function Remaining(): Result<seq<Entry>, Fault>
      requires Valid()
      reads this
    {
      EntriesFrom(reader, blockBuf, cursor, blockIdx)
    }

    constructor (reader: Reader)
      ensures Valid() && Remaining() == EntriesFrom(reader, [], 0, 0)
    {
      this.reader := reader;
      blockIdx, blockBuf, cursor := 0, [], 0;
    }

    method NextEntry() returns (res: Result<Option<Entry>, Fault>)
      requires Valid()
      modifies this
      ensures Valid()
      ensures old(Remaining()) == Ok([]) <==> res == Ok(None)
      ensures res == Ok(None) ==> Remaining() == Ok([])
      ensures res.Ok? && res.value.Some? ==> old(Remaining()) == Then([res.value.value], Remaining())
      ensures res.Err? ==> old(Remaining()) == Err(res.error)
    {
      while true
        invariant Valid() && Remaining() == old(Remaining())
        decreases |reader.index| - blockIdx, |blockBuf| - cursor
      {
        if cursor < |blockBuf| {
          var d := DecodeEntry(blockBuf, cursor);
          if d.Err? {
            return Err(d.error);
          }
          cursor := d.value.next;
          return Ok(Some(d.value.entry));
        }
        if blockIdx >= |reader.index| {
          return Ok(None);
        }
        var read := ReadBlock(reader.file, reader.index[blockIdx]);
        if read.Err? {
          return Err(read.error);
        }
        blockBuf, cursor := read.value, 0;
        blockIdx := blockIdx + 1;
      }
    }
  }
}
