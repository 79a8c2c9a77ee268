# kvs-db storage engines, modelled in Dafny

kvs-db is a string-to-string key-value store with three storage engines:

- the plain in-memory `KvStore` (`src/kv.rs`), a hash map with `new`, `set`, `get` and `remove`;
- the replay-to-map engine (`project-4/src/engines/kvs.rs`), which appends every `set` and `remove` as a JSON line to `log.txt` and rebuilds its whole map by replaying the log on `open`;
- the offset-indexed engine (`src/engines/kvs.rs`), which keeps only an index from each key to the byte range of its latest `Set` line.
  - `get` seeks to that range and decodes it.
  - `open` replays the log into that index and counts "uncompacted" bytes on the way.
  - Once more than `THRESHOLD` (10) bytes are dead, `open` compacts the log: it keeps each key's live `Set` in a `BTreeMap`, writes them out in key order, and indexes the new log afresh.

The model keeps the log as a sequence of commands. Every record's size is given exactly: the length of serde_json's compact text for the externally tagged enum, plus the newline (`Log.JsonLen`, `Log.ByteLength`). Byte offsets are sums of those sizes (`Log.Offset`), and `Log.RecordAt` finds the record that starts at a given byte. `get`'s seek-and-`read_exact` is `OffsetEngine.ReadAt`:

- reading past the end is an `IOError`;
- the decoder skips whitespace around the value, so a slice decodes to a record when it spans exactly that record's JSON text, with or without its newline, and starts either where the record starts or one byte earlier, on the newline ending the record before it;
- any other slice is a `SerdeError`: it ends inside a record, runs on into the next one, or starts inside a record, where the only whitespace is a space inside a string literal, which is followed by more of that literal rather than by a command.

An append that fails is a `written: bool` parameter: on `false` the call returns `IOError` and changes nothing.

What is proved:

- **Plain store.** `get` after `set` and after `remove`, with no other key touched.
- **Replay engine.** A key is present after replay exactly when its latest write is a `Set`, and it holds that `Set`'s value. Over any run of calls, the engine's map equals the plain store's. Reopening the log answers every `get` as the running engine did.
- **Replay of the offset engine.**
  - Every indexed key points at its latest `Set`, and the cursor ends at the end of the file.
  - The counter equals the log's dead bytes: every `Remove` line, and every `Set` line a later `Set` of the same key supersedes.
  - A dead-byte count is either 0 or at least 22, because every dead line is longer than `THRESHOLD`. So `open` compacts exactly when the log has any dead line.
- **Compaction.**
  - The compacted map is ascending and holds exactly the live values.
  - The rewritten log has one `Set` per live key, in strictly ascending key order, and means the same as the original.
  - The fresh index covers the rewritten records contiguously from offset 0, and the rewritten log has no dead bytes.
- **`open` is sound.** Its index points at whole `Set` records, the cursor sits at the end of the log, and the index stands for exactly the replay engine's map of the same log (`OffsetEngineLemmas.OpenSound`). So, with the compacted log installed at the log's own path (see Left out), after any run of calls reopening the log answers every `get` as the plain store would.
- **`set` and `remove`.** `set` keeps the index sound. `remove` keeps it sound but leaves the cursor behind the record it appended. The next `set` then indexes a stale offset, and `get` of that key fails; a later `set` can be indexed on the `Remove` record's newline, and `get` of its key then answers another key's value (see Findings).
- **The corrected `remove`.** The running engine answers every `get` as the plain store would.
- **The scenarios of `tests/kv_store.rs`**, for every key and value rather than the literal ones, under the same assumption about where compaction puts the log.

Replay of the offset engine does not un-index a removed key (`src/engines/kvs.rs:151-153`): `OffsetEngineLemmas.ReplayKeepsRemovedKey` exhibits the stale entry. The same `Remove` line always pushes the counter past the threshold, so `open` compacts and the stale entry never survives `open`. This is why it is not listed as a finding.

`remove` of a key that is not present appends a `Remove` record and then answers `KeyNotFoundError`; the model follows that code.

The engine trait's comments say `get` of a missing key answers `None`. Both log-structured engines answer `KeyNotFoundError`; the model follows the implementations.

## Model

| member | source | states |
|---|---|---|
| PlainStore.New | src/kv.rs:20-23 | a new store answers `None` for every key |
| PlainStore.Get | src/kv.rs:35-38 | `Some` exactly for stored keys, with the stored value |
| PlainStore.Set | src/kv.rs:28-30 | afterwards the key reads back the new value; every other key reads as before |
| PlainStore.Remove | src/kv.rs:41-43 | afterwards the key reads `None`; every other key reads as before; removing an absent key changes nothing |
| ReplayEngine.Apply | project-4/src/engines/kvs.rs:66-74 | a `Set` line changes the map as the plain store's `set`, a `Remove` line as its `remove`, and a `Get` line not at all |
| ReplayEngine.Replay | project-4/src/engines/kvs.rs:61-75 | every key-value pair of the replayed map was written by some `Set` record of the log |
| ReplayEngine.ReplayLatestWrite | project-4/src/engines/kvs.rs:65-75 | a key is in the replayed map iff its latest write in the log is a `Set`, and then it holds that `Set`'s value |
| ReplayEngine.Open | project-4/src/engines/kvs.rs:47-81 | the opened engine holds a key exactly when the key's latest write in the log is a `Set`, with that `Set`'s value; its map is the replay of its log |
| ReplayEngine.Get | project-4/src/engines/kvs.rs:108-114 | a stored key gives `Ok(Some(value))` as the plain store would; a missing key gives `KeyNotFoundError` where the plain store gives `None` |
| ReplayEngine.Set | project-4/src/engines/kvs.rs:131-140 | a failed append changes nothing and is an `IOError`; otherwise one `Set` record is appended, the map changes as the plain store's `set`, and map = replay(log) is kept |
| ReplayEngine.Remove | project-4/src/engines/kvs.rs:143-155 | a failed append changes nothing; otherwise a `Remove` record is appended whatever the key, the answer is `Ok` iff the key was present and `KeyNotFoundError` otherwise, the map changes as the plain store's `remove`, and map = replay(log) is kept |
| Log.EscapedCharLen | src/engines/kvs.rs:42 | a character takes 1 to 6 bytes inside a JSON string, and exactly 1 iff it is printable ASCII other than a quote or a backslash |
| Log.EscapedLenPlain | src/engines/kvs.rs:42 | a string of characters written as themselves takes one byte per character |
| Log.JsonLen | src/engines/kvs.rs:42 | a record's JSON text takes at least 18 bytes plus one per key character, and a `Set`'s at least 29 plus one per key and value character |
| Log.ByteLength | src/engines/kvs.rs:78-80 | a record takes its JSON text plus the newline, so at least 30 bytes for a `Set` and 22 for a `Remove` |
| Log.LogBytesAppend | src/engines/kvs.rs:37-49 | appending one record grows the file by exactly that record's length |
| Log.OffsetNext | src/engines/kvs.rs:155 | record `i + 1` starts where record `i` ends, and no record ends past the end of the file |
| Log.RecordAtOffset | src/engines/kvs.rs:229-235 | seeking to the offset of record `i` finds record `i` |
| Log.RecordAtInside | src/engines/kvs.rs:229-235 | no record starts strictly inside another record |
| Log.RecordAtAppend | src/engines/kvs.rs:42-45 | an append leaves every record inside the old file where it was, and puts the new record at the old end of the file |
| OrderedMap.Insert | src/engines/kvs.rs:93-95 | inserting into an ascending association list keeps it ascending, and its map gains exactly that key and value |
| OrderedMap.Remove | src/engines/kvs.rs:89-91 | removing keeps the list ascending, and its map loses exactly that key |
| StringOrder.LessTotal | src/engines/kvs.rs:177 | the `BTreeMap` key order is total on distinct strings |
| OffsetIndex.LatestSet | src/engines/kvs.rs:146 | the position of the last `Set` of a key in the log, or none when there is no `Set` of it |
| OffsetIndex.ReplayStep | src/engines/kvs.rs:140-155 | one line moves the cursor by its length; a `Set` indexes its key at the old cursor and counts the superseded entry as dead; a `Remove` counts itself as dead and leaves the index unchanged; no other key's entry changes |
| OffsetIndex.Replay | src/engines/kvs.rs:130-156 | the replay loop leaves its cursor at the size of the log in bytes |
| OffsetIndex.ReplayIndexesLatestSet | src/engines/kvs.rs:140-149 | replay indexes a key iff the log has a `Set` of it, at the offset and length of its latest `Set` |
| OffsetIndex.ReplayCountsDeadBytes | src/engines/kvs.rs:140-153 | replay's uncompacted count equals the log's dead bytes: every `Remove` line plus every superseded `Set` line |
| OffsetIndex.DeadBytesAppend | src/engines/kvs.rs:146-153 | appending a line adds its own length if it is a `Remove`, or the superseded line's length if it is a `Set` |
| OffsetIndex.DeadBytesNoneOrMany | src/engines/kvs.rs:151-158 | the dead-byte count is 0 or at least 22, and 0 only for a log without `Remove` lines |
| Compaction.BuildCompactedMap | src/engines/kvs.rs:82-99 | the compacted map is ascending and holds, as `Set` commands, exactly the map the replay engine rebuilds from the same log |
| Compaction.Rewrite | src/engines/kvs.rs:177-178 | every record compaction writes is a `Set` of a key the log's replay keeps, carrying that key's live value |
| Compaction.Reindex | src/engines/kvs.rs:177-195 | the compaction loop indexes only keys of `Set`s it wrote, and over `Set` records its cursor ends at the size of what it wrote |
| Compaction.RewriteHoldsLiveSets | src/engines/kvs.rs:169-178 | the rewritten log holds only `Set`s of live keys with their live values, every live key once, in strictly ascending key order |
| Compaction.ReindexContiguous | src/engines/kvs.rs:183-194 | the compaction loop indexes each written `Set` at its own offset and length in the new log |
| Compaction.CompactionIndex | src/engines/kvs.rs:158-196 | after compaction the index keys are exactly the live keys, each at its record, the cursor is the new log's size, and the new log has no dead bytes |
| Compaction.CompactionPreservesMeaning | src/engines/kvs.rs:169-178 | replaying the rewritten log gives the same map as replaying the original |
| OffsetEngine.Open | src/engines/kvs.rs:126-204 | the installed log replays to the same map as the original, the cursor is at its end, the counter is the original log's dead bytes, and the log is rewritten exactly when those exceed `THRESHOLD` |
| OffsetEngine.ReadAt | src/engines/kvs.rs:227-235 | a read past the end of the file is an `IOError`; a successful read decodes the record that starts at the seek position or one byte after it |
| OffsetEngineLemmas.ReadAtRecord | src/engines/kvs.rs:229-235 | reading a record's own range, or just its JSON text, decodes that record |
| OffsetEngineLemmas.ReadAtAfterNewline | src/engines/kvs.rs:229-235 | a range that starts on the newline before a record and spans its JSON text, with or without its own newline, decodes that record |
| OffsetEngine.Get | src/engines/kvs.rs:225-241 | an unindexed key is `KeyNotFoundError`; a success always carries a value; with a sound index an indexed key answers the value its record holds |
| OffsetEngine.Set | src/engines/kvs.rs:249-269 | a failed append changes nothing; otherwise the key is indexed at the old cursor with its record's length, the superseded entry's length is counted as dead, the cursor advances by the record's length, and no other entry changes |
| OffsetEngine.Remove | src/engines/kvs.rs:272-285 | a `Remove` record is appended whatever the key; the answer is `Ok` iff the key was indexed; the key is un-indexed and nothing else is; the cursor and the counter do not move |
| OffsetEngineLemmas.SetKeepsIndexSound | src/engines/kvs.rs:249-269 | from a sound index with the cursor at the end, `set` keeps both, and the index then stands for the old map with the key set to the value |
| OffsetEngineLemmas.SetIndexesAppendedRecord | src/engines/kvs.rs:254-266 | after `set` the key's entry reads the appended record, and every other entry reads what it read before |
| OffsetEngineLemmas.RemoveLeavesCursorBehind | src/engines/kvs.rs:272-285 | `remove` keeps the index sound and drops the key from what it stands for, but leaves the cursor short of the end of the log |
| OffsetEngineLemmas.RemoveThenSetLosesValue | src/engines/kvs.rs:272-285 | as written: after a successful `remove`, a `set` of any key followed by `get` of that key fails |
| OffsetEngineLemmas.RemoveThenSetsReadOtherValue | src/engines/kvs.rs:249-285 | as written: after a `remove` whose record is one byte longer than the next `set`'s, a second `set` of a record of that length or one more reads back the first `set`'s value |
| OffsetEngineLemmas.OpenSound | src/engines/kvs.rs:126-204 | after `open` the index is sound, the cursor is at the end of the installed log, and the index stands for exactly the replay engine's map of the log |
| OffsetEngineLemmas.OpenSoundCompacting | src/engines/kvs.rs:158-196 | the same, when `open` compacts |
| OffsetEngineLemmas.CompactedStoreSound | src/engines/kvs.rs:177-195 | the compacted log with its fresh index is a sound index |
| OffsetEngineLemmas.CompactedStoreMeans | src/engines/kvs.rs:177-195 | the compacted log with its fresh index stands for the replay engine's map of the original log |
| OffsetEngineLemmas.OpenSoundReplayed | src/engines/kvs.rs:136-156 | the same, when `open` keeps the replayed index |
| OffsetEngineLemmas.ReplayedStoreSound | src/engines/kvs.rs:136-156 | a log without dead bytes with its replayed index is sound and stands for the log's replay |
| OffsetEngineLemmas.CompactedKeys | src/engines/kvs.rs:177-195 | a compacting `open` indexes exactly the keys the log's replay keeps |
| OffsetEngineLemmas.ReplayKeepsRemovedKey | src/engines/kvs.rs:151-153 | replay leaves a removed key indexed, yet the same `Remove` makes `open` compact, and the key is not indexed after `open` |
| OffsetEngineLemmas.OpenCompactsIffDead | src/engines/kvs.rs:158 | `open` compacts iff the log has any dead byte, in particular whenever it has a `Remove` line |
| OffsetEngineLemmas.CompactionKeepsStaleCount | src/engines/kvs.rs:198-202 | as written: after a compacting `open` the counter stays above the threshold although the installed log has no dead bytes |
| OffsetFixes.RemoveFixed | src/engines/kvs.rs:272-285 | corrected `remove`: same log, answer and index as written, the counter grows by the `Remove` line, and the cursor stays at the end of the log |
| OffsetFixes.RemoveFixedKeepsIndexSound | src/engines/kvs.rs:272-285 | the corrected `remove` keeps the index sound and the cursor at the end, and the index then stands for the old map without the key |
| OffsetFixes.SetAfterRemoveFixedReadsBack | src/engines/kvs.rs:249-285 | with the corrected `remove`, `set` after `remove` reads back the value just set |
| OffsetFixes.OpenFixed | src/engines/kvs.rs:158-202 | corrected `open`: the counter equals the dead bytes of the installed log, and the index, log and cursor are those of `open` |
| Refinement.ReplayEngineRefinesPlainStore | project-4/src/engines/kvs.rs:131-155 | over any run of calls, the replay engine keeps map = replay(log), and its map equals the plain store's after the same calls |
| Refinement.ReplayEngineReopenReproducesGets | project-4/src/engines/kvs.rs:47-81 | after any run, reopening the log answers every `get` as the running engine does, and as the plain store would |
| Refinement.OffsetLogRecordsRun | src/engines/kvs.rs:249-285 | over any run, the offset engine's log replays to the plain store's map after the same calls |
| Refinement.GetMatchesAbs | src/engines/kvs.rs:225-241 | with a sound index, `get` answers as the plain store holding the map the index stands for |
| Refinement.OffsetEngineReopenMatchesPlainStore | src/engines/kvs.rs:126-204 | with the compacted log installed at the log's own path: after any run from an opened log, reopening the resulting log answers every `get` as the plain store would |
| Refinement.FixedEngineRefinesPlainStore | src/engines/kvs.rs:249-285 | with the corrected `remove`, the running index stays sound, the cursor stays at the end, and the index stands for the plain store's map after every call |
| Refinement.FixedEngineAnswersLikePlainStore | src/engines/kvs.rs:225-285 | with the corrected `remove`, every `get` of the running engine answers as the plain store would |
| Scenarios.ReopenAnswers | src/engines/kvs.rs:126-241 | reopening any log answers every `get` as the plain store holding the log's replay would |
| Scenarios.SetReadsBack | src/engines/kvs.rs:249-269 | on a sound index with the cursor at the end, `get` after `set` reads back the value just set |
| Scenarios.StoredValuesReadBack | tests/kv_store.rs:12-16 | two keys set from an empty log read back their values, and the log holds the two `Set` records |
| Scenarios.StoredValuesSurviveReopen | tests/kv_store.rs:21-24 | reopening that log reads both values back |
| Scenarios.OverwriteReadsLatest | tests/kv_store.rs:36-40 | a key set twice reads the first and then the second value |
| Scenarios.OverwriteSurvivesReopen | tests/kv_store.rs:44-46 | with the compacted log installed at the log's own path, reopening that log reads the latest value |
| Scenarios.ReopenThenSetReadsBack | tests/kv_store.rs:45-49 | with the compacted log installed at the log's own path, after reopening any log, `set` then `get` reads back the value just set |
| Scenarios.MissingKeyNotFound | tests/kv_store.rs:60-66 | a key never set is `KeyNotFoundError`, before and after reopening |
| Scenarios.RemoveMissingKeyFails | tests/kv_store.rs:75-76 | `remove` on an empty store is `KeyNotFoundError`, and still appends a `Remove` record |
| Scenarios.RemovedKeyNotFound | tests/kv_store.rs:81-97 | `remove` of a set key succeeds; afterwards the key is `KeyNotFoundError`, before and after reopening |
| Scenarios.RemoveThenSetsReadOtherValueExample | src/engines/kvs.rs:249-285 | as written: set "kkkkkkkkkk" to "", remove it, set "" to "x", set "b" to ""; `get("b")` answers "x" |
| Scenarios.SetRemoveSession | tests/kv_store.rs:81-89 | a two-key extension of `remove_key`: with a second key set as well, the first reads back, its `remove` succeeds, and it is then `KeyNotFoundError` |
| Scenarios.SetRemoveReopen | tests/kv_store.rs:91-97 | a two-key extension of `remove_key`: reopening the log of set a, set b, remove a answers `KeyNotFoundError` for a and still reads b's value |

## Left out

- The JSON codec. Only record lengths are modelled. A slice holding one record's JSON text, with at most the newline before it and the newline after it around it, is taken to decode to the command that was written, and any other slice to fail. Hand-edited or non-canonical lines (extra whitespace, other escapes) are not modelled.
- Undecodable or truncated logs. `open` fails with `SerdeError` or `IOError` on them; the model's logs are always sequences of well-formed commands.
- The file system: paths, `create_dir_all`, opening and removing files, and `LineWriter`'s possibly partial `write`. A failed or partial append is reduced to the `written` flag: the whole record, or nothing with an `IOError`.
- Where compaction writes the new log. A compacting `open` deletes the log at its own path but creates the new one under the process's current directory (`src/engines/kvs.rs:174-175`), and the store keeps the deleted file's path (`src/engines/kvs.rs:200`). Every later `get`, `set` and `remove` opens that path and, unless the current directory is the store's own, fails with an I/O error (`src/engines/kvs.rs:208-216`). The model assumes instead that the rewritten log replaces the original at the same path, so what it proves about a compacting `open` holds for the log as installed, not for the code as written. In particular the reopen in `overwrite_value` (`tests/kv_store.rs:45-46`) compacts 40 dead bytes, and its `get` would then meet that I/O error.
- OffsetEngine.Set: the offsets, lengths and counter are unbounded naturals. The source keeps them in `u16`, which overflows once the log passes 65535 bytes.
- OffsetEngine.Remove: the same `u16` bound is not modelled.
- `Arc<Mutex<…>>` locking in the replay engine, the thread pools, the TCP server and client, the command-line binaries, and the `sled` engine. They are outside the storage core.
- The `project-2` engine and the error enums' `Display` and `From` conversions. Errors are the three variants `IOError`, `SerdeError` and `KeyNotFoundError`.
- `Get` records: the engines never write them, and replay only steps over them. They are in the command type but no operation produces them.

## Findings

| source | as written | input that shows it | evidently intended | confidence | as-written member | corrected member |
|---|---|---|---|---|---|---|
| src/engines/kvs.rs:272-285 | `remove` appends a `Remove` line but does not advance `current_offset` | from an empty log: set("a","1"), remove("a"), set("b","2"). "b" is indexed at byte 32, where the 23-byte `Remove` line starts, with length 32; get("b") decodes the wrong slice and fails | `remove` advances `current_offset` past the line it appends, and counts that line as dead as replay does | not executed | OffsetEngineLemmas.RemoveThenSetLosesValue | OffsetFixes.SetAfterRemoveFixedReadsBack |
| src/engines/kvs.rs:272-285 | the same stale cursor also makes `get` return another key's value | from an empty log: set("kkkkkkkkkk",""), remove("kkkkkkkkkk"), set("","x"), set("b",""). "b" is indexed at byte 71, the `Remove` line's newline, with length 31; those bytes are the newline and the JSON text of the `Set` of "", so get("b") answers Ok(Some("x")) | every `get` answers as the plain store would: "b" reads "" | not executed | OffsetEngineLemmas.RemoveThenSetsReadOtherValue | Refinement.FixedEngineAnswersLikePlainStore |
| src/engines/kvs.rs:198-202 | a compacting `open` keeps `uncompacted_bytes` as replay counted it, for the old log | the log set("a","1"), remove("a"): replay counts 23 dead bytes; compaction installs an empty log with the counter still 23 | the counter restarts at 0 for the compacted log, which has no dead bytes | not executed | OffsetEngineLemmas.CompactionKeepsStaleCount | OffsetFixes.OpenFixed |
