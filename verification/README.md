# A verified model of the learned index and its storage engine

This project models two crates of the repository and proves properties of the models with
Dafny 4.11. `scry-index` is a sorted map kept in a tree of nodes that predict where a key
lives, updated by many threads without locks. `scry-lsm` is a small log-structured store on
top of it. `dafny verify dfyconfig.toml` checks everything.

## The learned index

A node predicts a slot for every key: by a linear model of the key's numeric input, by a split
at an exact ordinal, or by a split at a key. A slot is empty, being written, holds one pair,
holds a tombstone, or points to a child node. Nodes live in a heap and are known by number
(`NodeHeap`); a child always has a higher number than its parent and numbers are never reused.
The invariant behind everything is that prediction is monotone in the key order and that every
key stored at or below a slot predicts to that slot, in this node and in all nodes above.

* `LinearModels` fits models (FMCD), counts conflicts and predicts slots.
* `Build` constructs trees: bulk load, degenerate groups, conflict nodes.
* `Traversal` is the explicit-stack iterator, range seek and the search for the last entry.
* `LearnedMaps` is the map as one thread sees it. A class with the fields of the source
  carries its contents as a finite map; each operation is proved to do to that map what an
  ordered map would do, through every subtree rebuild, tombstone compaction and root rebuild.
* `Protocol` is the same map as a state machine for any number of concurrent calls. Every
  atomic access to a slot state, a child pointer or the root pointer is one step. A call is one
  process with a program counter; several operations of one thread are several processes.
  `ScanOrder`, `SlotLifecycle`, `ProtocolInvariant` and `ProtocolSteps` establish the invariant
  of all reachable states; `NoLostInsert`, `NoResurrection`, `ProtocolTheorems` and
  `ProtocolProgress` hold the results about whole runs. `RangeScans` observes such runs with
  iterators, and `ProtocolBuild` makes the steps that link new trees in with the trees
  that `Build` constructs. The argument is one of reliance and
  guarantee: `SlotLifecycle.Guarantee` says what one step may do to shared memory, and each
  process' assertions are shown to survive the steps of all others.
* `KeyBytes` shows that byte strings meet the key contract the index relies on.

Node numbers, the list of slots above a node (`path`), the owner recorded in a WRITING slot or
in a frozen pointer, and the old content of a WRITING slot are auxiliary: no branch of a
modelled operation depends on them, except that a tagged pointer is represented by having an
owner.

## The store

A file is the sequence of its bytes. `SsTable`, `TableWriter`, `TableReader` and `TableSearch`
model the sorted-table format, its writer, reader, scanner and point lookup; `Wal` models the
write-ahead log; `Merge` models the streaming merge; `Levels` and `Engine` model the manifest,
compaction and the search across tables. `Engine.Store` writes table files, searches them and
compacts them as bytes: what its operations say of entries holds of what the files contain.

## What the models show about the code

* `compact_level` keeps the **oldest** version of a key that several merged tables hold: the
  reversed comparison of `MergeEntry` pops the lowest source first, contrary to the comments
  beside it (`scry-lsm/src/compaction.rs:57-58` and `:120-121`). `Merge.OlderVersionSurvives`
  is the smallest merge that shows it. `Levels.CompactVisibleIff` says for every level and every
  key exactly when what a reader sees survives a compaction.
* A deleted key can come back in two ways. Its value and its tombstone can be merged, and the
  value is kept: four flushes into an empty store suffice (`Engine.DeletedKeyReturns`). Or its
  tombstone is dropped on the way into the last level while an older table there still has a
  value, because tables already there are not merged (`Engine.DroppedTombstoneUncovers`,
  `Engine.BuriedStore`). Both are failures of the condition in `Levels.CompactVisibleIff`.
* Keys of which the store holds only one version are safe at every level, through any cascade of
  compactions (`Levels.OneVersionSurvives`).
* The key contract asks for a strictly monotone exact ordinal. Byte strings meet it exactly as
  far as their zero-padded 16-byte prefixes differ (`KeyBytes.OrdinalOrder`,
  `KeyBytes.OrdinalNotInjective`); the index only needs the non-strict form, and that is all
  these proofs assume (`KeyBytes.ByteKeysMonotone`).
* `Manifest::level` is documented as newest-first; it is oldest-first, and `get` relies on that
  by walking it backward.
* The fallback of `build_conflict_node` for two keys in one slot is never taken in exact
  arithmetic (`Build.ConflictSeparates`).

## Model

| member | source | states |
|---|---|---|
| NoLostInsert.InsertKeptOrDrained | src/insert.rs:45-219 | In every interleaving of any number of calls, drains included, once an insert of a key that nothing removes has returned, every later state binds the key in the tree under the current root to a value some call supplied, or some drain has swapped in its empty root since with the key and such a value in the snapshot it returns |
| NoLostInsert.NoLostInsert | src/insert.rs:45-219 | Without drains it is always the current tree |
| NoLostInsert.SoleWriterKeepsValue | src/map.rs:381-408 | With one writer of the key, every later state binds it to exactly the inserted value |
| NoLostInsert.WriteKeptOrDrained | src/insert.rs:233-393 | The same for `get_or_insert`: once a call that had claimed a slot has returned without starting over, its key stays bound in the current tree in every later state, or a drain has taken it since |
| NoLostInsert.EntryKeepsValue | src/insert.rs:220-229 | `get_or_insert` never overwrites: an entry that no insert or remove is about keeps its value in every state of every run, or a drain takes it with that value |
| NoLostInsert.GetOrInsertSettles | src/insert.rs:233-393 | A `get_or_insert` that has returned either read an entry of its key or wrote one, and did not start over since |
| NoLostInsert.KeyInvStep | src/rebuild.rs:91-163 | Every step of every call, including slot-by-slot snapshots and pointer swaps, keeps what each insert has achieved at its program point |
| NoLostInsert.AheadVisit | src/iter.rs:68-108 | A snapshot that has not passed the slot of a bound key will still contain the key after its next visit |
| NoLostInsert.ValidateAchieves | src/insert.rs:88-93 | An unchanged and unfrozen first child pointer makes the write safe from every subtree rebuild under that root |
| NoLostInsert.ConfirmAchieves | src/map.rs:394-400 | An unchanged and unfrozen root makes the write safe from every root rebuild |
| NoLostInsert.RootSwapSecure | src/map.rs:697-722 | Swapping in a new root loses no returned insert: a rebuild keeps it bound, a drain has it in its snapshot |
| NoResurrection.NoResurrectedRemove | src/remove.rs:24-117 | In every interleaving with rebuilds and writers of other keys, once the only remover of a key that nobody writes has returned, no later state binds the key in the current tree |
| NoResurrection.OwnStepGone | src/remove.rs:50-84 | Each step of the remove, retries included, keeps what it has achieved |
| NoResurrection.OtherStepGone | src/rebuild.rs:93-136 | No step of any other call brings the key back |
| NoResurrection.RootSwapClean | src/map.rs:670-722 | A root rebuilt from a snapshot taken after the removal does not contain the key |
| ProtocolTheorems.TraversalsAscend | src/iter.rs:68-108 | Whatever interleaves with it, a traversal has yielded strictly ascending keys |
| RangeScans.RangeScanOrdered | src/iter.rs:148-279 | A range iterator that seeks and steps while other calls write, remove and rebuild has yielded strictly ascending keys, all within its bounds |
| RangeScans.RangeScanComplete | src/iter.rs:148-279 | A finished range iterator, whatever interleaved with it, has yielded every key within its bounds that an insert had added before it loaded the root and nothing removes, unless a drain had taken it before |
| RangeScans.RangeScanKeepsEntries | src/iter.rs:148-279 | It has yielded, with its value, every entry within the bounds that was there from the start and that no insert, remove or drain is about |
| RangeScans.QuietRangeScan | src/iter.rs:226-279 | With no change in between it has yielded exactly the entries within the bounds, in order |
| RangeScans.IterationComplete | src/iter.rs:68-108 | A full iteration, too, misses no key added before it loaded the root that nothing removes, unless a drain had taken it before |
| RangeScans.SeekLinked | src/iter.rs:189-202 | Each level of the seek, in any heap a run can reach, leaves a stack of nodes each below the slot before the one its parent continues at |
| RangeScans.SeekPromises | src/iter.rs:189-202 | No level of the seek passes a key that is not before the start |
| RangeScans.MeetingOK | src/iter.rs:243-259 | A pair met by the iterator keeps what it has yielded within the bounds, whether it is skipped, yielded or ends the range |
| RangeScans.TurnPromises | src/iter.rs:233-277 | Each turn of the loop yields a key within the bounds that is ahead, or leaves it ahead and the iterator unfinished |
| ProtocolTheorems.SnapshotAccepted | src/map.rs:670-698 | A root rebuild never gives up because its snapshot is unsorted; it swaps in a tree that binds exactly the snapshot |
| ProtocolTheorems.SubtreeSwapped | src/rebuild.rs:110-163 | A subtree rebuild that has frozen a first child ends by swapping in a tree that binds exactly its snapshot, or frees the child when that has less than two entries |
| ProtocolTheorems.DrainEmpties | src/map.rs:762-804 | A drain or clear that has frozen the root ends by swapping in an empty tree |
| ProtocolTheorems.LoneSweepSwaps | src/map.rs:638-873 | A rebuild, drain or clear that no other of these calls competes with has not returned without making its final swap |
| ScanOrder.VisitInOrder | src/iter.rs:71-100 | One visit of a traversal, in any heap a run can reach, keeps yielded keys ascending and the stack consistent |
| ProtocolTheorems.FreezeExclusive | src/rebuild.rs:93-117 | A frozen root or child pointer has exactly one owner and every owner's pointer is frozen in each reachable state |
| ProtocolTheorems.FrozenUntouched | src/map.rs:646-732 | No step of another call changes a pointer while it is frozen, so the final compare-and-swap finds what it expects |
| ProtocolProgress.NeverStuck | src/rebuild.rs:110-163 | In every reachable state every call that has not returned has a step, the final swaps included |
| ProtocolBuild.SwapRoot | src/map.rs:670-732 | In every state that satisfies the invariant, bulk-loading the snapshot, or the empty root of a drain, makes the final swap of a root rebuild a step of the protocol; a refused snapshot unfreezes |
| ProtocolBuild.SwapSub | src/rebuild.rs:110-163 | The recursive construction from the snapshot makes the final swap of a subtree rebuild a step of the protocol; a snapshot that is too small unfreezes |
| ProtocolBuild.Publish | src/insert.rs:104-181 | Inline, single-entry and two-entry children make the end of every write a step of the protocol |
| ProtocolTheorems.SlotHistory | src/node.rs:330-412 | Over a run a slot only moves forward through its states and keeps a published pair for good |
| ProtocolTheorems.NoReentry | src/node.rs:330-353 | A slot never re-enters DATA, and its inline pair never changes after publication |
| ProtocolTheorems.ClonedPairIsCurrent | src/insert.rs:157-178 | A conflict child installed over a DATA slot binds the new pair and the pair that is in the slot at the compare-and-swap |
| ProtocolTheorems.FailedCasBound | src/insert.rs:76-181 | Over a whole run one call fails at most three compare-and-swaps on any one slot |
| ProtocolSteps.NextOK | src/node.rs:330-412 | Every step of every call keeps the global invariant and changes shared memory only as a slot may change |
| ProtocolSteps.RunOK | src/map.rs:381-408 | The invariant holds in every state of every run |
| NodeHeap.LookupAfter | src/lookup.rs:12-39 | Replacing one slot changes lookups exactly for the keys whose descent passes through that node |
| NodeHeap.BoundInRegion | src/lookup.rs:14-37 | A key found below a node predicts to every slot on the way down to it |
| LinearModels.PredictMonotone | src/model.rs:55-66 | Prediction by line, ordinal or key split is monotone in the key order and stays in the array, although inputs and ordinals are only non-strictly monotone |
| LinearModels.CountConflictsFast | src/model.rs:231-247 | Counting adjacent repetitions of sorted keys gives the number of keys minus the number of distinct slots |
| LinearModels.CountConflicts | src/model.rs:253-270 | The occupancy table gives the same number for keys in any order |
| LinearModels.NoConflictsInjective | src/build.rs:54-63 | No conflicts means that all keys have slots of their own |
| LinearModels.FitFmcd | src/model.rs:128-225 | The fitted model is the linear baseline or a candidate, is monotone, has the reported conflicts, no more than the baseline or any admissible candidate, and sends the first and the last of sufficiently distant keys to different slots |
| LinearModels.TryCandidates | src/model.rs:191-217 | The candidate loop returns a best model although it stops at the first slope that is too steep |
| LinearModels.BaselineSeparates | src/model.rs:149-173 | The linear baseline moves the last key at least one slot away from the first, for every expansion and headroom allowed |
| LinearModels.CandidateSeparates | src/model.rs:186-203 | So does every slope that is a multiple of the inverse of the largest gap, because that gap is at most the key range |
| LinearModels.SizeBound | src/model.rs:149-152 | The array has at least as many slots as keys and room for the headroom |
| LinearModels.SizeExact | src/model.rs:149-152 | The array size is the number of keys times expansion and headroom, rounded up |
| LinearModels.ClampNearest | src/model.rs:63-66 | A position inside the array goes to a slot at most half a slot away, one outside to the nearer end |
| LinearModels.BaselinePlaces | src/model.rs:164-173 | The baseline puts the first key at position 0 and leaves exactly the headroom beyond the last |
| LinearModels.CandidatePlaces | src/model.rs:203-207 | Candidate j moves the keys at the largest gap j positions apart |
| LinearModels.CandidatesAre | src/model.rs:198-206 | The candidates are the first 32 for a gap above the machine epsilon, as long as the last key stays in the array |
| Build.BuildRecursive | src/build.rs:33-105 | On every strictly ascending slice the construction ends and yields a well-formed tree that binds exactly the slice; its head is a best fit for the slice, or halves it when model inputs cannot tell its keys apart |
| Build.BuildNextRun | src/build.rs:75-101 | One run of equal slots goes into its slot, inline or as a strictly smaller subtree, and leaves the slots of later runs free |
| Build.BuildRun | src/build.rs:81-101 | A single pair is stored inline, several become a child whose head is fitted to them or halves them |
| Build.AssignmentsSorted | src/build.rs:68-73 | The slots of a sorted slice are already nondecreasing, so that sorting them has nothing to do |
| Build.BuildLeaf | src/build.rs:54-63 | Without conflicts every pair is stored into an empty slot of a single node with the fitted model |
| Build.BuildDegenerate | src/build.rs:118-162 | Keys that share a model input are split by ordinal or by key into a tree that binds exactly them, half of them on each side of the head |
| Build.SplitSeparates | src/node.rs:181-190 | A split node sends everything up to the low key to slot 0 and everything from the high key on to the last slot |
| Build.BulkLoad | src/build.rs:17-30 | Empty and unsorted inputs are refused, all others become a tree that binds exactly the input, with a head fitted to it |
| Build.Dedup | src/map.rs:308-337 | Exactly the last pair of each key survives; empty and unsorted inputs are refused |
| Build.BuildConflict | src/insert.rs:414-474 | The new node has four slots with the lower pair in the first and the other in the last |
| Build.ConflictSeparates | src/insert.rs:434-456 | Two keys with a common slot get slots 0 and 3 of a conflict node, whichever model it uses |
| Build.BuildSingle | src/insert.rs:400-407 | The new node has two slots with the one pair in the first |
| Build.GrownIsFragment | src/rebuild.rs:126-136 | What the construction builds is what the protocol's swaps link in |
| Traversal.EntriesBind | src/iter.rs:114-122 | In-order traversal is strictly ascending and contains exactly what descent finds |
| Traversal.Visit | src/iter.rs:71-100 | One turn of the iterator loop yields the next entry or brings the stack closer to it |
| Traversal.Iter.Next | src/iter.rs:68-108 | The explicit-stack iterator yields the in-order entries one by one |
| Traversal.SortedPairs | src/iter.rs:119-122 | Collecting the iterator gives the in-order entries |
| Traversal.FirstEntry | src/map.rs:586-590 | The iterator starts with the smallest entry |
| Traversal.Range.constructor | src/iter.rs:148-185 | After the seek, a range iterator has exactly the entries within its bounds still to come |
| Traversal.Range.SeekTo | src/iter.rs:189-202 | The seek skips only entries below the bound and keeps all others, in order |
| Traversal.Range.Next | src/iter.rs:226-279 | A range iterator yields the remaining entries within its bounds one by one |
| Traversal.WithinMembers | src/iter.rs:205-220 | An entry is within the bounds exactly when its key compares with an included, excluded or absent bound on either side as it should, for empty and inverted bounds too |
| Traversal.LastEntry | src/iter.rs:299-340 | The scan from the right finds the greatest entry, backing out of subtrees that removals have emptied |
| LearnedMaps.LookupFrom | src/lookup.rs:12-39 | The descent loop finds the value bound to a key, or that there is none |
| LearnedMaps.LearnedMap.Get | src/map.rs:362-367 | Agrees with the finite map |
| LearnedMaps.LearnedMap.Insert | src/map.rs:381-408 | Sets the key in the finite map, reports whether it was new, keeps the length exact and the rebuild schedule; swaps in a newly fitted root when the length reaches the threshold, and does to subtrees what the descent calls for otherwise |
| LearnedMaps.LearnedMap.InsertUnder | src/insert.rs:45-219 | Descends, writes inline or attaches a child, changing the finite map at just this key; a new key deeper than the threshold has the subtree it went through rebuilt if another key is there, and otherwise that stays in place |
| LearnedMaps.LearnedMap.GetOrInsert | src/map.rs:483-509 | Returns the existing value, or adds and returns the given one, with the same effects on the tree as an insert |
| LearnedMaps.LearnedMap.GetOrInsertUnder | src/insert.rs:233-393 | Never overwrites; the value read back from a new child, after a rebuild above it, is the one stored; rebuilds subtrees as an insert does |
| LearnedMaps.LearnedMap.Remove | src/map.rs:446-472 | Removes the key from the finite map and reports whether it was present |
| LearnedMaps.LearnedMap.RemoveUnder | src/remove.rs:24-117 | Buries the entry, changing the finite map at just this key; when the node of the entry then has too many tombstones and two other keys are left, the subtree is rebuilt, and otherwise it stays in place |
| LearnedMaps.TombsCounted | src/node.rs:439-446 | The tombstone count of a node is the number of its slots that hold one |
| LearnedMaps.LearnedMap.TryRebuildSubtree | src/rebuild.rs:71-164 | Replaces the subtree in a root slot by one newly built from its entries with boosted expansion, exactly when it has more than one, and changes nothing that can be seen |
| LearnedMaps.LearnedMap.FlattenDeepPath | src/insert.rs:96-100 | Rebuilds the subtree first descended into when the write went deeper than the threshold, and only then |
| LearnedMaps.LearnedMap.MaybeRebuildRoot | src/map.rs:414-438 | Swaps in a root newly fitted to all entries exactly when the length reaches the threshold; pairs copied by automatic rebuilds never exceed twice the keys newly inserted, over any mix of operations |
| LearnedMaps.LearnedMap.Rebuild | src/map.rs:638-733 | Replaces the tree of a map that is not empty by one newly built from all entries, with its root fitted to them, changes nothing that can be seen, and sets the threshold to twice the number of entries |
| LearnedMaps.LearnedMap.Drain | src/map.rs:744-804 | Returns all entries in order and leaves an empty map, with a new root of 64 empty slots and threshold 64 |
| LearnedMaps.LearnedMap.Clear | src/map.rs:812-873 | Leaves an empty map with an exact length, a new root of 64 empty slots and threshold 64 |
| LearnedMaps.LearnedMap.RangeBetween | src/map.rs:578-583 | A range iterator over the map yields exactly its entries within the bounds, ascending |
| LearnedMaps.LearnedMap.LastKeyValue | src/map.rs:594-599 | Returns the greatest key of the map with its value, or that the map is empty |
| LearnedMaps.BulkLoadMap | src/map.rs:267-284 | A sorted list becomes a map with just these entries, a root fitted to them and a threshold of twice their number; other lists are refused |
| LearnedMaps.BulkLoadDedupMap | src/map.rs:308-337 | Agrees with collecting the same list into an ordered map |
| LearnedMaps.CollectedKeepsLast | src/map.rs:288-291 | Collecting keeps exactly the last pair of each key |
| LearnedMaps.ShowsStored | src/insert.rs:76-181 | Replacing one slot changes the finite map just for the keys that end up in that slot |
| KeyBytes.PrefixNumber | src/key.rs:112-117 | Copying into a zeroed buffer and reading it big-endian gives the number of the padded prefix |
| KeyBytes.ModelInputMonotone | src/key.rs:112-117 | The model input of byte strings is monotone in lexicographic order |
| KeyBytes.OrdinalOrder | src/key.rs:131-138 | The ordinal is monotone, and separates two keys exactly when their padded 16-byte prefixes differ |
| KeyBytes.OrdinalIsShift | src/key.rs:135-137 | Reinterpreting as signed and flipping the sign bit is one shift, on both sides of the sign |
| KeyBytes.OrdinalInjectiveForShortArrays | src/key.rs:148-151 | Fixed-size arrays of at most 16 bytes have strictly monotone ordinals |
| KeyBytes.OrdinalNotInjective | src/key.rs:28-33 | Two different strings share an ordinal |
| KeyBytes.PrefixDecides | src/key.rs:112-138 | Model input and ordinal depend on the padded 16-byte prefix alone |
| KeyBytes.PositionOrder | src/key.rs:12-33 | All byte strings have positions in the order of keys, which compare as the strings do |
| KeyBytes.ByteKeysInputs | src/key.rs:112-138 | At its position every byte string has its own model input and ordinal |
| KeyBytes.ByteKeysMonotone | src/key.rs:12-33 | The inputs so placed meet the contract that the index proofs assume, so those hold for all byte strings as keys |
| TableWriter.SsTableWriter.Add | scry-lsm/src/sstable/writer.rs:47-74 | Appends the entry to the contents and keeps file, buffer, index and bounds in step with them; a block is cut after just the entry that makes it reach the block size |
| TableWriter.SsTableWriter.FlushBlock | scry-lsm/src/sstable/writer.rs:107-118 | Moves the buffered entries into the file as an indexed block without changing the contents |
| TableWriter.SsTableWriter.Finish | scry-lsm/src/sstable/writer.rs:77-104 | Leaves a complete table file of the contents, their number and their first and last key; all blocks but the last reach the block size, none without its last entry, and the file ends in the bytes 4C 54 53 53 |
| SsTable.EntryBytes | scry-lsm/src/sstable/writer.rs:60-66 | The bytes of an entry, lengths in four bytes with the lowest first |
| SsTable.IndexEntryBytes | scry-lsm/src/sstable/writer.rs:86-92 | The bytes of an index entry, offset and length in eight bytes with the lowest first |
| SsTable.FooterBytes | scry-lsm/src/sstable/writer.rs:94-97 | The twenty bytes of the footer |
| Bytes.LittleEndianByte | scry-lsm/src/sstable/writer.rs:60-61 | Byte i of an encoded number is the one of weight 256 to the power of i |
| TableReader.ParseIndex | scry-lsm/src/sstable/reader.rs:208-239 | The cursor loop computes the recursive reading of the index, for any bytes |
| TableReader.IndexRoundTrip | scry-lsm/src/sstable/reader.rs:208-239 | A written index is parsed back unchanged |
| TableReader.ParsedIsEncoded | scry-lsm/src/sstable/reader.rs:208-239 | Whatever bytes an index is parsed from, they begin with the encoding of the entries parsed |
| TableReader.Open | scry-lsm/src/sstable/reader.rs:36-77 | Opens any bytes with the specified result or error: files below 20 bytes and files that do not end in 4C 54 53 53 are refused, each with its own error and no others with it |
| TableReader.OpenFinished | scry-lsm/src/sstable/writer.rs:83-99 | A finished file opens with the index and count it was written with |
| TableReader.DecodeEncoded | scry-lsm/src/sstable/reader.rs:242-272 | Decoding at the place of an encoded entry gives the entry and the place after it |
| TableReader.BlockRoundTrip | scry-lsm/src/sstable/reader.rs:113-121 | A block decodes to the entries it was encoded from |
| TableReader.BlockReads | scry-lsm/src/sstable/reader.rs:242-272 | Any bytes decode to a list of entries exactly when they are its encoding |
| TableReader.ReadAll | scry-lsm/src/sstable/reader.rs:108-125 | The nested loops compute the entries of all blocks, or the first fault, for any file |
| TableReader.SsTableScan.NextEntry | scry-lsm/src/sstable/reader.rs:161-180 | The block-at-a-time scan yields the same entries one by one |
| TableSearch.TableRoundTrip | scry-lsm/src/sstable/reader.rs:36-125 | Every finished table reads back as the entries that went in |
| TableSearch.WriteTable | scry-lsm/src/engine.rs:291-297 | For every entry list with 32-bit lengths and every block size, the written file reads back as the list |
| TableSearch.FindBlock | scry-lsm/src/sstable/reader.rs:184-205 | Finds the last block whose first key is not beyond the key sought |
| TableSearch.FindInBlock | scry-lsm/src/sstable/reader.rs:184-205 | Only that block can hold the key |
| TableSearch.Get | scry-lsm/src/sstable/reader.rs:85-105 | For ascending tables point lookup through the index equals association lookup over all entries |
| TableSearch.GetFrom | scry-lsm/src/engine.rs:113-114 | Opening a written file and searching it gives what looking through its entries gives |
| TableSearch.ScanFile | scry-lsm/src/compaction.rs:81-98 | Opening a written file and scanning it to its end gives its entries |
| Wal.WalFile.AppendPut | scry-lsm/src/wal.rs:59-66 | Appends the byte 1, the key after its length and the value after its length, lengths in four bytes with the lowest first |
| Wal.WalFile.AppendDelete | scry-lsm/src/wal.rs:69-76 | Appends the byte 2, the key after its length, and a length of zero |
| Wal.Recover | scry-lsm/src/wal.rs:102-141 | The reading loop computes the specified replay, for any bytes |
| Wal.PrefixRecovery | scry-lsm/src/wal.rs:98-141 | However the encoding of a record list is cut off, recovery succeeds and returns exactly the records wholly before the cut |
| Wal.WholeIsGreatest | scry-lsm/src/wal.rs:98-101 | That many records fit before the cut and one more does not |
| Wal.FullRecovery | scry-lsm/src/wal.rs:102-141 | The whole log gives back every record |
| Wal.RecoveryOf | scry-lsm/src/wal.rs:109-141 | Known records followed by less than one record give exactly the known ones; followed by a record of another type they give an error |
| Wal.LogSplits | scry-lsm/src/wal.rs:109-141 | Every file whatever has one of these two forms |
| Merge.PopOrder | scry-lsm/src/compaction.rs:55-64 | The heap pops the smallest key first, and among equal keys the lowest source |
| Merge.MergeTables | scry-lsm/src/compaction.rs:86-134 | From ascending tables the heap loop emits an ascending run of exactly their keys, minus dropped tombstones, each with the value of the first source that has it, and no more bytes than it read |
| Merge.FirstPopped | scry-lsm/src/compaction.rs:120-125 | A key popped for the first time comes from the lowest source that has it |
| Merge.NewestSurvives | scry-lsm/src/compaction.rs:69-70 | The newest version survives exactly when the oldest and the newest holder of the key agree |
| Merge.OlderVersionSurvives | scry-lsm/src/compaction.rs:56-63 | When the oldest and the newest of four merged tables have a key, the older version is written and the newer one is not |
| Levels.VisitedCompacted | scry-lsm/src/compaction.rs:136-153 | Compaction replaces the tables of a level, in the search order, by the merged one |
| Levels.SearchFindsNewest | scry-lsm/src/engine.rs:106-122 | In newest-first order a search returns the version of the newest table that has the key |
| Levels.SearchCompacted | scry-lsm/src/compaction.rs:71-156 | The search result of every key after a compaction |
| Levels.CompactionDrops | scry-lsm/src/compaction.rs:100-129 | Two or more levels above the end, compaction drops no tombstone, and the oldest merged version of each key takes the place of all; otherwise the merged table holds no tombstone |
| Levels.CompactUnchangedIff | scry-lsm/src/compaction.rs:71-156 | Below the highest level a result changes exactly when no lower level has the key and the oldest and newest merged versions differ |
| Levels.CompactKeepsSoleVersion | scry-lsm/src/compaction.rs:71-156 | Below the highest level results are unchanged for keys that at most one merged table holds |
| Levels.CompactVisibleIff | scry-lsm/src/compaction.rs:71-156 | At every level, for every key, what a reader sees survives a compaction exactly when a lower level has the key, or the oldest and newest merged versions agree, or, where a tombstone as the oldest version is dropped, the newest version reads as what deeper tables hold |
| Levels.CompactHighestSoleVersion | scry-lsm/src/compaction.rs:100-129 | At the highest level a single version of a key stays what a reader sees exactly unless it is a tombstone that uncovers a deeper value |
| Levels.CascadeKeepsVisible | scry-lsm/src/compaction.rs:23-31 | What a reader sees of a key survives compacting all due levels when it survives each |
| Levels.OneVersionSurvives | scry-lsm/src/compaction.rs:23-31 | A key of which only one version is stored reads the same after compacting all due levels |
| Engine.Store.Register | scry-lsm/src/engine.rs:291-306 | Writes a file that reads back as the entries; the new table is searched before all others, and the search order stays newest-first |
| Engine.Store.CompactLevel | scry-lsm/src/compaction.rs:71-156 | Reads the files of a level and writes one merged file to the next; empties the level, keeps the search order newest-first, gives every key the specified search result, and drops tombstones exactly when the next level is the last or beyond |
| Engine.Store.MaybeCompact | scry-lsm/src/compaction.rs:23-31 | Goes through the levels once, upward, merging exactly those with four tables or more at that moment; a reader sees the same of every key for which that survives at each merged level; afterwards no level that was there has as many, and nothing changed if none had |
| Engine.Store.FlushMemtable | scry-lsm/src/engine.rs:283-315 | Registers the drained entries and compacts what is due; a reader then sees each key as in the new entries before the old, provided what it sees survives at each compacted level, or only one version of the key is stored; an empty memtable changes nothing |
| Engine.Store.IngestSorted | scry-lsm/src/engine.rs:228-272 | Refuses keys out of order and leaves the tables as they were, otherwise registers them, with the same results for readers as a flush |
| Engine.Store.Get | scry-lsm/src/engine.rs:96-126 | Skipping tables by key range and searching the files of the others, the nested loops return what the first table in search order says, tombstones read as absent |
| Engine.CompactedInOrder | scry-lsm/src/manifest.rs:37-50 | A merged table pushed onto the next level keeps the order newest-first |
| Engine.FlushedVisible | scry-lsm/src/engine.rs:283-315 | After registering entries and compacting, a reader sees the new entries before the old under either condition |
| Engine.DeletedKeyReturns | scry-lsm/src/compaction.rs:56-63 | Flushing a value, two other entries and the tombstone of the value into an empty store leaves the value visible |
| Engine.DroppedTombstoneUncovers | scry-lsm/src/compaction.rs:126-129 | Merging four or more tables into the last level, the newest of which alone has the key, as a tombstone, makes the value in the last level visible again |
| Engine.BuriedStore | scry-lsm/src/compaction.rs:126-129 | There is such a store, with well-formed files in newest-first order |

## Left out

- Floating point: models, inputs and ratios are exact reals. Rounding in `mul_add`, `round` and
  casts is abstracted; conversion of an integer to a model input is any monotone function.
- Integer width in the index: an ordinal difference beyond 127 bits (`src/build.rs:142`,
  `src/insert.rs:444`), and saturation of the rebuild threshold, are not modelled.
- Key types: a key is its position in the key order, a real number. Every countable order
  embeds there (`KeyBytes.PositionOrder` for byte strings); what keys are besides their order,
  model input and ordinal is not modelled.
- Build.AssignmentsSorted: does not model `sort_unstable_by_key` itself, which promises no order
  of ties; sorting a nondecreasing list is assumed to leave it as it is.
- Memory: nodes are values in a heap addressed by number instead of objects behind pointers, so
  aliasing, epoch reclamation, `Drop` and `OnceLock` are outside the model. Atomics are
  sequentially consistent.
- Protocol steps: the stores that end a WRITING state (value or child pointer, then the state)
  count as one step, because nothing reads the former before the latter. An iterator's spin on a
  WRITING slot re-reads the slot. Whether a rebuild is due after a write is left open, so every
  configuration is covered.
- Concurrent reads: a `get` returns nothing while its slot is WRITING (`src/lookup.rs:36`), so
  reads are not linearizable; no result about their answers under concurrency is claimed. They
  change nothing and are no steps of the protocol.
- Concurrent `len` and rebuild threshold: exact only without concurrency (`LearnedMaps`).
- NoLostInsert.WriteKeptOrDrained: says nothing of `get_or_insert` returning an existing value,
  be it one that the same call wrote before it started over, because the code does not validate
  that return (`src/insert.rs:318-328`).
- NoResurrection.NoResurrectedRemove: is about keys that nobody writes; a `remove` that finds
  the key absent does not validate its descent (`src/remove.rs:51,59`).
- Backoff, fairness and liveness under spinning; the bound on failed compare-and-swaps and the
  absence of stuck calls are proved instead.
- LearnedMaps.LearnedMap.RemoveUnder: the tombstone counter is the number of TOMBSTONE slots of
  the node, which it equals when calls do not overlap; the approximate key counter, which the
  update path does not decrement, influences nothing and is left out.
- Freezing in `LearnedMaps`: without concurrency a freeze is undone or swapped out within the
  call, so only `Protocol` models it.
- TableReader.Open: an index offset beyond the file makes the source's subtraction overflow; it is
  an error here.
- TableSearch.WriteTable: round trips for lengths below 2^32 and data below 2^64 bytes.
- Merge.MergeTables: the binary heap is a set from which the greatest entry is popped, and
  sources are the entries their files read back as.
- Engine.Store.Register: keys and values are shorter than 2^32 bytes, and all data together is
  shorter than 2^64. The source cuts longer lengths off when it writes them.
- Engine.Store.Get: the memtable is a parameter, as is the drained list of a flush. Files are
  always readable, so no I/O error arises.
- Levels: a table carries its file, what that reads back as, and its bounds; ids only serve
  removal.
- File and directory I/O, locks, fsync, paths, reopening a store (the manifest is not restored),
  appending to a log with a torn tail, and text ingestion.
- LearnedSet, MapRef, serde, configuration setters, memory accounting, error formatting and the
  alternative memtables: thin wrappers that would only add easy members.
