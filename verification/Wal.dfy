/** The write-ahead log: what appends leave in the file, and what recovery makes of the file
    after a crash has cut it off anywhere. */
module Wal {
  import opened Wrappers
  import opened Bytes

  datatype Record = Put(key: Bytes, value: Bytes) | Delete(key: Bytes)

  datatype Error = Corruption

  const RECORD_PUT: Byte := 1
  const RECORD_DELETE: Byte := 2

  function Tag(r: Record): Byte { if r.Put? then RECORD_PUT else RECORD_DELETE }

  /** Deletes carry an empty value. */
  function ValueOf(r: Record): Bytes { if r.Put? then r.value else [] }

  function Encode(r: Record): (b: Bytes)
    ensures |b| == 9 + |r.key| + |ValueOf(r)|
  {
    [Tag(r)] + Prefixed(r.key) + Prefixed(ValueOf(r))
  }

  function EncodeAll(records: seq<Record>): Bytes { Join(Encode, records) }

  ghost predicate Fits(r: Record) { |r.key| < U32 && |ValueOf(r)| < U32 }

  ghost predicate AllFit(records: seq<Record>) {
    forall i :: 0 <= i < |records| ==> Fits(records[i])
  }

  /** An append-only log. */
  class WalFile {
    var log: Bytes
    /** The records appended since the log was last empty. */
    ghost var records: seq<Record>

    ghost predicate Valid()
      reads this
    {
      log == EncodeAll(records)
    }

    constructor ()
      ensures Valid() && records == []
    {
      log, records := [], [];
    }

    method AppendPut(key: Bytes, value: Bytes)
      requires Valid()
      modifies this
      ensures Valid() && records == old(records) + [Put(key, value)]
      ensures log == old(log) + [1] + [|key| % 256, |key| / 0x100 % 256, |key| / 0x1_0000 % 256, |key| / 0x100_0000 % 256] + key
                     + [|value| % 256, |value| / 0x100 % 256, |value| / 0x1_0000 % 256, |value| / 0x100_0000 % 256] + value
    {
      log := log + [RECORD_PUT];
      log := log + LittleEndian(|key|, 4);
      log := log + key;
      log := log + LittleEndian(|value|, 4);
      log := log + value;
      FourBytes(|key|);
      FourBytes(|value|);
      Appended(old(log), RECORD_PUT, key, value);
      JoinSnoc(Encode, records, Put(key, value));
      records := records + [Put(key, value)];
    }

    method AppendDelete(key: Bytes)
      requires Valid()
      modifies this
      ensures Valid() && records == old(records) + [Delete(key)]
      ensures log == old(log) + [2] + [|key| % 256, |key| / 0x100 % 256, |key| / 0x1_0000 % 256, |key| / 0x100_0000 % 256] + key
                     + [0, 0, 0, 0]
    {
      log := log + [RECORD_DELETE];
      log := log + LittleEndian(|key|, 4);
      log := log + key;
      log := log + LittleEndian(0, 4);
      FourBytes(|key|);
      FourBytes(0);
      Appended(old(log), RECORD_DELETE, key, []);
      assert log + [] == log;
      JoinSnoc(Encode, records, Delete(key));
      records := records + [Delete(key)];
    }

    /** After the memtable has reached a table file, the log starts afresh. */
    method Truncate()
      modifies this
      ensures Valid() && records == []
    {
      log, records := [], [];
    }
  }

  lemma Appended(log: Bytes, tag: Byte, key: Bytes, value: Bytes)
    ensures log + [tag] + LittleEndian(|key|, 4) + key + LittleEndian(|value|, 4) + value
         == log + ([tag] + Prefixed(key) + Prefixed(value))
  {
  }

  // ---------------------------------------------------------------------------------
  // Recovery

  datatype Field = Field(data: Bytes, next: nat)

  /** A length and that many bytes, if the file holds them. */
  function ReadPrefixed(log: Bytes, cursor: nat): (f: Option<Field>)
    requires cursor <= |log|
    ensures f.Some? ==> cursor < f.value.next <= |log|
  {
    if cursor + 4 > |log| then None
    else
      var len := FromLittleEndian(log[cursor..cursor + 4]);
      if cursor + 4 + len > |log| then None
      else Some(Field(log[cursor + 4..cursor + 4 + len], cursor + 4 + len))
  }

  /** What stands at a position of the log: a complete record, the torn rest of one, or a
      record of no known type. */
  datatype Step = Torn | Unknown | Read(record: Record, next: nat)

  function StepAt(log: Bytes, cursor: nat): (s: Step)
    ensures s.Read? ==> cursor < s.next <= |log|
  {
    if cursor >= |log| then Torn
    else
      match ReadPrefixed(log, cursor + 1)
      case None => Torn
      case Some(key) =>
        match ReadPrefixed(log, key.next)
        case None => Torn
        case Some(value) =>
          if log[cursor] == RECORD_PUT then Read(Put(key.data, value.data), value.next)
          else if log[cursor] == RECORD_DELETE then Read(Delete(key.data), value.next)
          else Unknown
  }

  function Steps(log: Bytes): nat -> Step {
    (cursor: nat) => StepAt(log, cursor)
  }

  function Then(r: Record, rest: Result<seq<Record>, Error>): Result<seq<Record>, Error> {
    match rest
    case Ok(records) => Ok([r] + records)
    case Err(e) => Err(e)
  }

  /** Taking steps until the end of the log, a torn record, or an unknown one. */
  function Replay(step: nat -> Step, end: nat, cursor: nat): Result<seq<Record>, Error>
    decreases end - cursor
  {
    if cursor >= end then Ok([])
    else
      match step(cursor)
      case Torn => Ok([])
      case Unknown => Err(Corruption)
      case Read(r, next) => if cursor < next <= end then Then(r, Replay(step, end, next)) else Ok([])
  }

  /** What recovery gives for any bytes whatever. */
  function Recovered(log: Bytes): Result<seq<Record>, Error> {
    Replay(Steps(log), |log|, 0)
  }

  /** The records read so far, followed by what the rest of the log gives. */
  function After(records: seq<Record>, rest: Result<seq<Record>, Error>): Result<seq<Record>, Error> {
    match rest
    case Ok(more) => Ok(records + more)
    case Err(e) => Err(e)
  }

  lemma AfterThen(records: seq<Record>, r: Record, rest: Result<seq<Record>, Error>)
    ensures After(records, Then(r, rest)) == After(records + [r], rest)
  {
    if rest.Ok? {
      assert records + ([r] + rest.value) == (records + [r]) + rest.value;
    }
  }

  lemma AfterNothing(records: seq<Record>, rest: Result<seq<Record>, Error>)
    ensures After([], rest) == rest && After(records, Ok([])) == Ok(records)
  {
    assert records + [] == records;
    if rest.Ok? {
      assert [] + rest.value == rest.value;
    }
  }

  /** `recover`: reads records until the file ends, skipping a torn tail. */
  method Recover(log: Bytes) returns (res: Result<seq<Record>, Error>)
    ensures res == Recovered(log)
  {
    var records: seq<Record> := [];
    var cursor := 0;
    ghost var step := Steps(log);
    AfterNothing([], Recovered(log));
    while cursor < |log|
      invariant cursor <= |log|
      invariant After(records, Replay(step, |log|, cursor)) == Recovered(log)
    {
      AfterNothing(records, Ok([]));
      assert step(cursor) == StepAt(log, cursor);
      var tag := log[cursor];
      var key := ReadPrefixed(log, cursor + 1);
      if key.None? {
        break;
      }
      var value := ReadPrefixed(log, key.value.next);
      if value.None? {
        break;
      }
      var record;
      if tag == RECORD_PUT {
        record := Put(key.value.data, value.value.data);
      } else if tag == RECORD_DELETE {
        record := Delete(key.value.data);
      } else {
        return Err(Corruption);
      }
      AfterThen(records, record, Replay(step, |log|, value.value.next));
      records := records + [record];
      cursor := value.value.next;
    }
    AfterNothing(records, Ok([]));
    return Ok(records);
  }

  // ---------------------------------------------------------------------------------
  // A log that was cut off

  function ByteAt(b: Bytes, i: int): Byte {
    if 0 <= i < |b| then b[i] else 0
  }

  /** The log from `cursor` on is `full`, or what is left of it after a cut. */
  ghost predicate CutOff(log: Bytes, cursor: nat, full: Bytes) {
    cursor <= |log| <= cursor + |full|
    && forall i :: cursor <= i < |log| ==> ByteAt(log, i) == ByteAt(full, i - cursor)
  }

  /** Passing the first part of a cut text that the cut spares. */
  lemma CutSkip(log: Bytes, cursor: nat, a: Bytes, rest: Bytes)
    requires CutOff(log, cursor, a + rest) && cursor + |a| <= |log|
    ensures log[cursor..cursor + |a|] == a && CutOff(log, cursor + |a|, rest)
  {
    forall j | 0 <= j < |a| ensures log[cursor..cursor + |a|][j] == a[j] {
      assert ByteAt(log, cursor + j) == ByteAt(a + rest, cursor + j - cursor);
    }
    forall i | cursor + |a| <= i < |log| ensures ByteAt(log, i) == ByteAt(rest, i - (cursor + |a|)) {
      assert ByteAt(log, i) == ByteAt(a + rest, i - cursor);
    }
  }

  /** A field is read exactly when the cut spares it. */
  lemma CutField(log: Bytes, cursor: nat, data: Bytes, rest: Bytes)
    requires |data| < U32 && CutOff(log, cursor, Prefixed(data) + rest)
    ensures var next := cursor + 4 + |data|;
            if next > |log| then ReadPrefixed(log, cursor) == None
            else ReadPrefixed(log, cursor) == Some(Field(data, next)) && CutOff(log, next, rest)
  {
    if cursor + 4 <= |log| {
      Regroup(LittleEndian(|data|, 4), data, rest);
      CutSkip(log, cursor, LittleEndian(|data|, 4), data + rest);
      Widths();
      LittleEndianRoundTrip(|data|, 4);
      if cursor + 4 + |data| <= |log| {
        CutSkip(log, cursor + 4, data, rest);
      }
    }
  }

  lemma CutTag(log: Bytes, cursor: nat, tag: Byte, rest: Bytes)
    requires CutOff(log, cursor, [tag] + rest) && cursor < |log|
    ensures log[cursor] == tag && CutOff(log, cursor + 1, rest)
  {
    CutSkip(log, cursor, [tag], rest);
    assert log[cursor] == log[cursor..cursor + 1][0];
  }

  lemma EncodeParts(r: Record, rest: Bytes)
    ensures Encode(r) + rest == [Tag(r)] + (Prefixed(r.key) + (Prefixed(ValueOf(r)) + rest))
  {
  }

  /** A record is read exactly when the cut spares it; otherwise it counts as torn. */
  lemma CutRecord(log: Bytes, cursor: nat, r: Record, rest: Bytes)
    requires Fits(r) && CutOff(log, cursor, [Tag(r)] + (Prefixed(r.key) + (Prefixed(ValueOf(r)) + rest)))
    ensures var next := cursor + |Encode(r)|;
            StepAt(log, cursor) == if next > |log| then Torn else Read(r, next)
  {
    if cursor < |log| {
      CutTag(log, cursor, Tag(r), Prefixed(r.key) + (Prefixed(ValueOf(r)) + rest));
      CutFields(log, cursor, r, rest);
    }
  }

  lemma CutFields(log: Bytes, cursor: nat, r: Record, rest: Bytes)
    requires Fits(r) && cursor < |log| && log[cursor] == Tag(r)
    requires CutOff(log, cursor + 1, Prefixed(r.key) + (Prefixed(ValueOf(r)) + rest))
    ensures var next := cursor + |Encode(r)|;
            StepAt(log, cursor) == if next > |log| then Torn else Read(r, next)
  {
    var mid := cursor + 5 + |r.key|;
    CutField(log, cursor + 1, r.key, Prefixed(ValueOf(r)) + rest);
    if mid <= |log| {
      CutValue(log, cursor, r, mid, rest);
    }
  }

  lemma CutValue(log: Bytes, cursor: nat, r: Record, mid: nat, rest: Bytes)
    requires Fits(r) && cursor < |log| && log[cursor] == Tag(r) && mid == cursor + 5 + |r.key| <= |log|
    requires ReadPrefixed(log, cursor + 1) == Some(Field(r.key, mid))
    requires CutOff(log, mid, Prefixed(ValueOf(r)) + rest)
    ensures var next := cursor + |Encode(r)|;
            StepAt(log, cursor) == if next > |log| then Torn else Read(r, next)
  {
    CutField(log, mid, ValueOf(r), rest);
  }

  /** How many records lie wholly within the first `n` bytes of their encoding. */
  function Whole(records: seq<Record>, n: nat): (k: nat)
    ensures k <= |records|
  {
    if records == [] || n < |Encode(records[0])| then 0
    else 1 + Whole(records[1..], n - |Encode(records[0])|)
  }

  /** That many fit, and one more does not. */
  lemma {:induction false} WholeIsGreatest(records: seq<Record>, n: nat)
    ensures var k := Whole(records, n);
            |EncodeAll(records[..k])| <= n && (k < |records| ==> n < |EncodeAll(records[..k + 1])|)
    decreases records
  {
    var k := Whole(records, n);
    if k > 0 {
      WholeIsGreatest(records[1..], n - |Encode(records[0])|);
      assert records[..k][1..] == records[1..][..k - 1];
      if k < |records| {
        assert records[..k + 1][1..] == records[1..][..k];
      }
    } else if records != [] {
      assert records[..1] == [records[0]];
      JoinOne(Encode, records[0]);
    }
  }

  /** Where record `i` starts. */
  function Start(records: seq<Record>, i: nat): nat
    requires i <= |records|
  {
    |EncodeAll(records[..i])|
  }

  lemma StartNext(records: seq<Record>, i: nat)
    requires i < |records|
    ensures Start(records, i + 1) == Start(records, i) + |Encode(records[i])|
  {
    JoinSnoc(Encode, records[..i], records[i]);
    assert records[..i] + [records[i]] == records[..i + 1];
  }

  lemma {:induction false} StartMonotone(records: seq<Record>, i: nat, j: nat)
    requires i <= j <= |records|
    ensures Start(records, i) <= Start(records, j)
    decreases j - i
  {
    if i < j {
      StartNext(records, i);
      StartMonotone(records, i + 1, j);
    }
  }

  ghost predicate ReadsAt(step: nat -> Step, end: nat, records: seq<Record>, i: nat)
    requires i < |records|
  {
    && step(Start(records, i)) == Read(records[i], Start(records, i + 1))
    && Start(records, i) < Start(records, i + 1) <= end
  }

  /** The first `k` records are read one after the other, and there reading stops. */
  ghost predicate StepsThrough(step: nat -> Step, end: nat, records: seq<Record>, k: nat)
    requires k <= |records|
  {
    && (forall i :: 0 <= i < k ==> ReadsAt(step, end, records, i))
    && (Start(records, k) == end || step(Start(records, k)) == Torn)
  }

  lemma ReplayStep(step: nat -> Step, end: nat, cursor: nat, r: Record, next: nat)
    requires cursor < next <= end && step(cursor) == Read(r, next)
    ensures Replay(step, end, cursor) == Then(r, Replay(step, end, next))
  {
  }

  lemma {:induction false} ReplayThrough(step: nat -> Step, end: nat, records: seq<Record>, i: nat, k: nat)
    requires i <= k <= |records| && StepsThrough(step, end, records, k)
    ensures Replay(step, end, Start(records, i)) == Ok(records[i..k])
    decreases k - i
  {
    if i < k {
      assert ReadsAt(step, end, records, i);
      ReplayThrough(step, end, records, i + 1, k);
      assert [records[i]] + records[i + 1..k] == records[i..k];
      ReplayStep(step, end, Start(records, i), records[i], Start(records, i + 1));
    } else {
      assert records[i..k] == [];
    }
  }

  /** What a cut log holds at the start of record `i`. */
  lemma CutStep(records: seq<Record>, n: nat, i: nat)
    requires AllFit(records) && n <= |EncodeAll(records)| && i < |records| && Start(records, i) <= n
    ensures StepAt(EncodeAll(records)[..n], Start(records, i))
         == if Start(records, i + 1) > n then Torn else Read(records[i], Start(records, i + 1))
  {
    var full := EncodeAll(records);
    var log, before, rest := full[..n], EncodeAll(records[..i]), EncodeAll(records[i + 1..]);
    JoinSplit(Encode, records, i);
    CutPrefix(full, n);
    CutSkip(log, 0, before, Encode(records[i]) + rest);
    EncodeParts(records[i], rest);
    CutRecord(log, |before|, records[i], rest);
    StartNext(records, i);
  }

  lemma CutPrefix(full: Bytes, n: nat)
    requires n <= |full|
    ensures CutOff(full[..n], 0, full)
  {
  }

  /** Each record that lies wholly before the cut is read. */
  lemma CutRead(records: seq<Record>, n: nat, i: nat, k: nat)
    requires AllFit(records) && n <= |EncodeAll(records)| && i < k <= |records| && Start(records, k) <= n
    ensures ReadsAt(Steps(EncodeAll(records)[..n]), n, records, i)
  {
    StartMonotone(records, i + 1, k);
    StartNext(records, i);
    CutStep(records, n, i);
  }

  /** After them the log ends, or what is left counts as torn. */
  lemma CutEnd(records: seq<Record>, n: nat)
    requires AllFit(records) && n <= |EncodeAll(records)|
    ensures var k := Whole(records, n);
            && Start(records, k) <= n
            && (Start(records, k) == n || Steps(EncodeAll(records)[..n])(Start(records, k)) == Torn)
  {
    var k := Whole(records, n);
    WholeStarts(records, n);
    if k < |records| {
      CutStep(records, n, k);
    }
  }

  lemma WholeStarts(records: seq<Record>, n: nat)
    requires n <= |EncodeAll(records)|
    ensures var k := Whole(records, n);
            Start(records, k) <= n && if k < |records| then n < Start(records, k + 1) else Start(records, k) == n
  {
    WholeIsGreatest(records, n);
    assert records[..|records|] == records;
  }

  /** Whatever a crash leaves of a log, recovery succeeds and gives exactly the records that
      are still complete. */
  lemma PrefixRecovery(records: seq<Record>, n: nat)
    requires AllFit(records) && n <= |EncodeAll(records)|
    ensures Recovered(EncodeAll(records)[..n]) == Ok(records[..Whole(records, n)])
  {
    var step, k := Steps(EncodeAll(records)[..n]), Whole(records, n);
    CutEnd(records, n);
    forall i | 0 <= i < k ensures ReadsAt(step, n, records, i) {
      CutRead(records, n, i, k);
    }
    ReplayThrough(step, n, records, 0, k);
    assert records[..0] == [];
  }

  lemma {:induction false} WholeAll(records: seq<Record>)
    ensures Whole(records, |EncodeAll(records)|) == |records|
  {
    if records != [] {
      WholeAll(records[1..]);
    }
  }

  /** The whole log gives back every record. */
  lemma FullRecovery(records: seq<Record>)
    requires AllFit(records)
    ensures Recovered(EncodeAll(records)) == Ok(records)
  {
    var n := |EncodeAll(records)|;
    PrefixRecovery(records, n);
    WholeAll(records);
    assert EncodeAll(records)[..n] == EncodeAll(records);
    assert records[..|records|] == records;
  }

  // ---------------------------------------------------------------------------------
  // Any bytes whatever

  /** A record of any type. */
  datatype Raw = Raw(tag: Byte, key: Bytes, value: Bytes)

  function EncodeRaw(r: Raw): Bytes { [r.tag] + Prefixed(r.key) + Prefixed(r.value) }

  function EncodeRaws(raws: seq<Raw>): Bytes { Join(EncodeRaw, raws) }

  ghost predicate RawFits(r: Raw) { |r.key| < U32 && |r.value| < U32 }

  /** Types 1 and 2 are a put and a delete, whose value is of no account. */
  ghost predicate Known(r: Raw) { RawFits(r) && (r.tag == 1 || r.tag == 2) }

  ghost predicate AllKnown(raws: seq<Raw>) { forall r :: r in raws ==> Known(r) }

  function Meaning(r: Raw): Record { if r.tag == 1 then Put(r.key, r.value) else Delete(r.key) }

  function Meanings(raws: seq<Raw>): seq<Record> {
    if raws == [] then [] else [Meaning(raws[0])] + Meanings(raws[1..])
  }

  /** The bytes hold less than one record. */
  ghost predicate Unfinished(bytes: Bytes) { forall r: Raw :: RawFits(r) ==> !(EncodeRaw(r) <= bytes) }

  /** The bytes begin with a record of another type. */
  ghost predicate Foreign(bytes: Bytes) { exists r: Raw :: RawFits(r) && r.tag != 1 && r.tag != 2 && EncodeRaw(r) <= bytes }

  lemma FieldIsEncoded(log: Bytes, cursor: nat)
    requires cursor <= |log| && ReadPrefixed(log, cursor).Some?
    ensures var f := ReadPrefixed(log, cursor).value; |f.data| < U32 && log[cursor..f.next] == Prefixed(f.data)
  {
    Widths();
    LittleEndianOf(log[cursor..cursor + 4]);
    var next := ReadPrefixed(log, cursor).value.next;
    assert log[cursor..next] == log[cursor..cursor + 4] + log[cursor + 4..next];
  }

  function Outcome(r: Raw, next: nat): Step {
    if r.tag == 1 || r.tag == 2 then Read(Meaning(r), next) else Unknown
  }

  /** What is not taken for torn is a complete record. */
  lemma StepIsEncoded(log: Bytes, cursor: nat) returns (r: Raw, next: nat)
    requires cursor < |log| && !StepAt(log, cursor).Torn?
    ensures RawFits(r) && cursor < next <= |log| && log[cursor..] == EncodeRaw(r) + log[next..]
    ensures StepAt(log, cursor) == Outcome(r, next)
  {
    var k := ReadPrefixed(log, cursor + 1).value;
    var v := ReadPrefixed(log, k.next).value;
    r, next := Raw(log[cursor], k.data, v.data), v.next;
    FieldIsEncoded(log, cursor + 1);
    FieldIsEncoded(log, k.next);
    ThreeSlices(log, cursor, k.next, next);
  }

  lemma ThreeSlices(log: Bytes, a: nat, b: nat, c: nat)
    requires a < b <= c <= |log|
    ensures log[a..] == ([log[a]] + log[a + 1..b] + log[b..c]) + log[c..]
  {
  }

  /** A complete record is read as what it is. */
  lemma RawIsRead(log: Bytes, cursor: nat, r: Raw, rest: Bytes)
    requires cursor <= |log| && RawFits(r) && log[cursor..] == EncodeRaw(r) + rest
    ensures var next := cursor + 9 + |r.key| + |r.value|;
            cursor < next <= |log| && log[next..] == rest && StepAt(log, cursor) == Outcome(r, next)
  {
    RawParts(r, rest);
    CutTag(log, cursor, r.tag, Prefixed(r.key) + (Prefixed(r.value) + rest));
    CutField(log, cursor + 1, r.key, Prefixed(r.value) + rest);
    CutField(log, cursor + 5 + |r.key|, r.value, rest);
  }

  lemma RawParts(r: Raw, rest: Bytes)
    ensures EncodeRaw(r) + rest == [r.tag] + (Prefixed(r.key) + (Prefixed(r.value) + rest))
  {
  }

  /** Known records are replayed one after the other, up to an unfinished or a foreign one. */
  lemma {:induction false} ReplayRaws(log: Bytes, cursor: nat, raws: seq<Raw>, rest: Bytes)
    requires cursor <= |log| && AllKnown(raws) && log[cursor..] == EncodeRaws(raws) + rest
    ensures Unfinished(rest) ==> Replay(Steps(log), |log|, cursor) == Ok(Meanings(raws))
    ensures Foreign(rest) ==> Replay(Steps(log), |log|, cursor) == Err(Corruption)
    decreases raws
  {
    if raws == [] {
      assert log[cursor..] == rest;
      ReplayEnds(log, cursor);
    } else {
      var r, next := raws[0], cursor + 9 + |raws[0].key| + |raws[0].value|;
      assert Known(r) && AllKnown(raws[1..]);
      Regroup(EncodeRaw(r), EncodeRaws(raws[1..]), rest);
      RawIsRead(log, cursor, r, EncodeRaws(raws[1..]) + rest);
      ReplayRaws(log, next, raws[1..], rest);
      assert Steps(log)(cursor) == Read(Meaning(r), next);
      ReplayStep(Steps(log), |log|, cursor, Meaning(r), next);
    }
  }

  lemma ReplayEnds(log: Bytes, cursor: nat)
    requires cursor <= |log|
    ensures Unfinished(log[cursor..]) ==> Replay(Steps(log), |log|, cursor) == Ok([])
    ensures Foreign(log[cursor..]) ==> Replay(Steps(log), |log|, cursor) == Err(Corruption)
  {
    var bytes := log[cursor..];
    assert Steps(log)(cursor) == StepAt(log, cursor);
    if cursor < |log| && !StepAt(log, cursor).Torn? {
      var r, next := StepIsEncoded(log, cursor);
      assert EncodeRaw(r) <= bytes;
    }
    if Foreign(bytes) {
      var r: Raw :| RawFits(r) && r.tag != 1 && r.tag != 2 && EncodeRaw(r) <= bytes;
      PrefixAndRest(EncodeRaw(r), bytes);
      RawIsRead(log, cursor, r, bytes[|EncodeRaw(r)|..]);
    }
  }

  /** What recovery gives for known records and what follows them: the records when less than
      one record follows, an error when a record of another type does. */
  lemma RecoveryOf(raws: seq<Raw>, rest: Bytes)
    requires AllKnown(raws)
    ensures Unfinished(rest) ==> Recovered(EncodeRaws(raws) + rest) == Ok(Meanings(raws))
    ensures Foreign(rest) ==> Recovered(EncodeRaws(raws) + rest) == Err(Corruption)
  {
    var log := EncodeRaws(raws) + rest;
    assert log[0..] == log;
    ReplayRaws(log, 0, raws, rest);
  }

  lemma PrefixAndRest(a: Bytes, b: Bytes)
    requires a <= b
    ensures b == a + b[|a|..]
  {
  }

  lemma RawsCons(r: Raw, more: seq<Raw>, tail: Bytes)
    requires Known(r) && AllKnown(more)
    ensures AllKnown([r] + more) && EncodeRaw(r) + (EncodeRaws(more) + tail) == EncodeRaws([r] + more) + tail
  {
    JoinCons(EncodeRaw, r, more);
    Regroup(EncodeRaw(r), EncodeRaws(more), tail);
  }

  /** Every file whatever is of one of these two forms. */
  lemma {:induction false} LogSplits(log: Bytes, cursor: nat) returns (raws: seq<Raw>, rest: Bytes)
    requires cursor <= |log|
    ensures AllKnown(raws) && log[cursor..] == EncodeRaws(raws) + rest && (Unfinished(rest) || Foreign(rest))
    decreases |log| - cursor
  {
    raws, rest := [], log[cursor..];
    assert [] + rest == rest;
    if r: Raw :| RawFits(r) && EncodeRaw(r) <= rest {
      PrefixAndRest(EncodeRaw(r), rest);
      RawIsRead(log, cursor, r, rest[|EncodeRaw(r)|..]);
      if Known(r) {
        var more, tail := LogSplits(log, cursor + 9 + |r.key| + |r.value|);
        RawsCons(r, more, tail);
        raws, rest := [r] + more, tail;
      }
    }
  }
}
