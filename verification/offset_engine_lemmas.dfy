/**
  What the offset-indexed engine guarantees, and where it falls short, as
  the code stands.
*/
module OffsetEngineLemmas {
  import opened Errors
  import opened Log
  import opened OffsetIndex
  import opened OffsetEngine
  import Compaction
  import ReplayEngine

  /** An entry that covered a whole `Set` still covers it after an append, and reads the same record. */
  lemma PointsAtSetAppend(log: seq<Command>, c: Command, e: ByteOffset, k: string)
    requires PointsAtSet(log, e, k)
    ensures PointsAtSet(log + [c], e, k)
    ensures RecordAt(log + [c], e.startOffset) == RecordAt(log, e.startOffset)
  {
    RecordAtAppend(log, c, e.startOffset);
    LogBytesAppend(log, c);
  }

  /** The entry of record `i` covers that record. */
  lemma PointsAtRecord(log: seq<Command>, i: nat, k: string)
    requires i < |log| && IsSetOf(log[i], k)
    ensures PointsAtSet(log, ByteOffset(Offset(log, i), ByteLength(log[i])), k)
    ensures RecordAt(log, Offset(log, i)) == Some(log[i])
  {
    RecordAtOffset(log, i);
    OffsetNext(log, i);
  }

  /** Reading record `i`'s own range, or just its JSON text, decodes record `i`. */
  lemma ReadAtRecord(log: seq<Command>, i: nat)
    requires i < |log|
    ensures OffsetEngine.ReadAt(log, Offset(log, i), ByteLength(log[i])) == Ok(log[i])
    ensures OffsetEngine.ReadAt(log, Offset(log, i), JsonLen(log[i])) == Ok(log[i])
  {
    RecordAtOffset(log, i);
    OffsetNext(log, i);
  }

  /**
    Reading a range that starts on the newline ending record `i - 1` and
    spans record `i`'s JSON text, with or without its newline, decodes
    record `i`: the decoder skips the leading newline.
  */
  lemma ReadAtAfterNewline(log: seq<Command>, i: nat, start: nat, len: nat)
    requires 0 < i < |log| && start + 1 == Offset(log, i)
    requires len == ByteLength(log[i]) || len == ByteLength(log[i]) + 1
    ensures OffsetEngine.ReadAt(log, start, len) == Ok(log[i])
  {
    OffsetNext(log, i - 1);
    OffsetNext(log, i);
    RecordAtInside(log, i - 1, start);
    RecordAtOffset(log, i);
  }

  /**
    `set` keeps the index sound and the cursor at the end of the log,
    provided the cursor stood there before; and `k` now stands for `v`,
    every other key for what it stood for before.
  */
  lemma SetKeepsIndexSound(st: KvStore, k: string, v: string)
    requires IndexSound(st) && CursorAtEnd(st)
    ensures var st' := OffsetEngine.Set(st, k, v, true).0;
            IndexSound(st') && CursorAtEnd(st') && Abs(st') == Abs(st)[k := v]
  {
    SetIndexesAppendedRecord(st, k, v);
    AbsUpdate(st, OffsetEngine.Set(st, k, v, true).0, k, v);
  }

  /** Two sound indexes that differ only in `k`, now at a `Set` of `k` to `v`, stand for maps that differ only there too. */
  lemma AbsUpdate(st: KvStore, st': KvStore, k: string, v: string)
    requires st'.offsetMap.Keys == st.offsetMap.Keys + {k}
    requires RecordAt(st'.log, st'.offsetMap[k].startOffset) == Some(Command.Set(k, v))
    requires forall k' :: k' in st.offsetMap && k' != k ==>
               && st'.offsetMap[k'] == st.offsetMap[k']
               && RecordAt(st'.log, st.offsetMap[k'].startOffset) == RecordAt(st.log, st.offsetMap[k'].startOffset)
    ensures Abs(st') == Abs(st)[k := v]
  {
  }

  /** The index after `set`: sound, the cursor at the end, `k` at the appended record, every other entry reading what it read before. */
  lemma SetIndexesAppendedRecord(st: KvStore, k: string, v: string)
    requires IndexSound(st) && CursorAtEnd(st)
    ensures var st' := OffsetEngine.Set(st, k, v, true).0;
            && IndexSound(st') && CursorAtEnd(st')
            && RecordAt(st'.log, st'.offsetMap[k].startOffset) == Some(Command.Set(k, v))
            && forall k' :: k' in st.offsetMap && k' != k ==>
                 RecordAt(st'.log, st.offsetMap[k'].startOffset) == RecordAt(st.log, st.offsetMap[k'].startOffset)
  {
    var c := Command.Set(k, v);
    var st' := OffsetEngine.Set(st, k, v, true).0;
    var entry := ByteOffset(LogBytes(st.log), ByteLength(c));
    assert st'.log == st.log + [c];
    assert st'.offsetMap == st.offsetMap[k := entry];
    LogBytesAppend(st.log, c);
    RecordAtAppend(st.log, c, LogBytes(st.log));
    assert PointsAtSet(st'.log, entry, k);
    forall k' | k' in st.offsetMap && k' != k
      ensures PointsAtSet(st'.log, st.offsetMap[k'], k')
      ensures RecordAt(st'.log, st.offsetMap[k'].startOffset) == RecordAt(st.log, st.offsetMap[k'].startOffset)
    {
      PointsAtSetAppend(st.log, c, st.offsetMap[k'], k');
    }
  }

  /**
    `remove` keeps the index sound and drops `k` from what it stands for,
    but it appends a record without moving the cursor: from a state whose
    cursor stood at the end of the log it leaves the cursor behind.
  */
  lemma RemoveLeavesCursorBehind(st: KvStore, k: string)
    requires IndexSound(st)
    ensures var st' := OffsetEngine.Remove(st, k, true).0;
            IndexSound(st') && Abs(st') == Abs(st) - {k}
    ensures CursorAtEnd(st) ==> OffsetEngine.Remove(st, k, true).0.currentOffset < LogBytes(OffsetEngine.Remove(st, k, true).0.log)
  {
    var c := Command.Remove(k);
    var st' := OffsetEngine.Remove(st, k, true).0;
    assert st'.log == st.log + [c];
    LogBytesAppend(st.log, c);
    forall k' | k' in st'.offsetMap
      ensures PointsAtSet(st'.log, st'.offsetMap[k'], k')
      ensures RecordAt(st'.log, st'.offsetMap[k'].startOffset) == RecordAt(st.log, st.offsetMap[k'].startOffset)
    {
      PointsAtSetAppend(st.log, c, st.offsetMap[k'], k');
    }
    AbsDrop(st, st', k);
  }

  /** An index that loses `k` and keeps every other entry reading what it read stands for the map without `k`. */
  lemma AbsDrop(st: KvStore, st': KvStore, k: string)
    requires st'.offsetMap.Keys == st.offsetMap.Keys - {k}
    requires forall k' :: k' in st'.offsetMap ==>
               && st'.offsetMap[k'] == st.offsetMap[k']
               && RecordAt(st'.log, st'.offsetMap[k'].startOffset) == RecordAt(st.log, st.offsetMap[k'].startOffset)
    ensures Abs(st') == Abs(st) - {k}
  {
  }

  /**
    The consequence: once a `remove` has been logged, the next `set` indexes
    its key at the stale cursor, which is where the `Remove` record starts,
    and reading that key back fails instead of returning the value just set.
  */
  lemma RemoveThenSetLosesValue(st: KvStore, gone: string, k: string, v: string)
    requires CursorAtEnd(st)
    ensures var st1 := OffsetEngine.Remove(st, gone, true).0;
            var st2 := OffsetEngine.Set(st1, k, v, true).0;
            OffsetEngine.Get(st2, k).Err?
  {
    var st1 := OffsetEngine.Remove(st, gone, true).0;
    var st2 := OffsetEngine.Set(st1, k, v, true).0;
    var log2 := st.log + [Command.Remove(gone), Command.Set(k, v)];
    assert st2.log == log2;
    assert log2[..|st.log|] == st.log;
    RecordAtOffset(log2, |st.log|);
    assert RecordAt(log2, st.currentOffset) == Some(Command.Remove(gone));
  }

  /**
    Worse than a failed read: a second `set` after the `remove` is indexed
    one byte before the first one's record, on the `Remove` record's
    newline. When the lengths line up, its range spans the newline and the
    first `set`'s JSON text, which decode; `get` of the second key then
    answers the first key's value.
  */
  lemma RemoveThenSetsReadOtherValue(st: KvStore, gone: string, k1: string, v1: string, k2: string, v2: string)
    requires CursorAtEnd(st)
    requires ByteLength(Command.Remove(gone)) == ByteLength(Command.Set(k1, v1)) + 1
    requires ByteLength(Command.Set(k2, v2)) == ByteLength(Command.Set(k1, v1)) || ByteLength(Command.Set(k2, v2)) == ByteLength(Command.Set(k1, v1)) + 1
    ensures var st1 := OffsetEngine.Remove(st, gone, true).0;
            var st2 := OffsetEngine.Set(st1, k1, v1, true).0;
            var st3 := OffsetEngine.Set(st2, k2, v2, true).0;
            OffsetEngine.Get(st3, k2) == Ok(Some(v1))
  {
    var r, s1, s2 := Command.Remove(gone), Command.Set(k1, v1), Command.Set(k2, v2);
    var st1 := OffsetEngine.Remove(st, gone, true).0;
    var st2 := OffsetEngine.Set(st1, k1, v1, true).0;
    var st3 := OffsetEngine.Set(st2, k2, v2, true).0;
    var n := |st.log|;
    var start := st.currentOffset + ByteLength(s1);
    assert st3.log == st.log + [r, s1, s2];
    assert st3.offsetMap[k2] == ByteOffset(start, ByteLength(s2));
    assert st3.log[n + 1] == s1;
    assert Offset(st3.log, n + 1) == start + 1 by {
      assert st3.log[..n] == st.log;
      OffsetNext(st3.log, n);
    }
    ReadAtAfterNewline(st3.log, n + 1, start, ByteLength(s2));
  }

  /** With no dead bytes, replay's index is sound and stands for the replay engine's map. */
  lemma ReplayIndexSound(log: seq<Command>, k: string)
    requires DeadBytes(log) == 0
    ensures k in Replay(log).offsetMap <==> k in ReplayEngine.Replay(log)
    ensures k in Replay(log).offsetMap ==>
              && PointsAtSet(log, Replay(log).offsetMap[k], k)
              && RecordAt(log, Replay(log).offsetMap[k].startOffset).value.value == ReplayEngine.Replay(log)[k]
  {
    DeadBytesNoneOrMany(log);
    ReplayIndexesLatestSet(log, k);
    ReplayEngine.ReplayLatestWrite(log, k);
    if LatestSet(log, k).Some? {
      var i := LatestSet(log, k).value;
      assert ReplayEngine.LatestWrite(log, k, i);
      PointsAtRecord(log, i, k);
    }
    if k in ReplayEngine.Replay(log) {
      var i: nat :| ReplayEngine.LatestWrite(log, k, i) && log[i].Set?;
      assert IsSetOf(log[i], k);
    }
  }

  /** The compacted log's index is sound and stands for the replay engine's map of the original log. */
  lemma CompactedIndexSound(log: seq<Command>, k: string)
    ensures var cmds := Compaction.Rewrite(log);
            var index := Compaction.Reindex(cmds).0;
            && (k in index <==> k in ReplayEngine.Replay(log))
            && (k in index ==>
                  && PointsAtSet(cmds, index[k], k)
                  && RecordAt(cmds, index[k].startOffset).value.value == ReplayEngine.Replay(log)[k])
  {
    var cmds := Compaction.Rewrite(log);
    Compaction.CompactionIndex(log);
    Compaction.RewriteComplete(log);
    if k in ReplayEngine.Replay(log) {
      var i :| 0 <= i < |cmds| && cmds[i].key == k;
      PointsAtRecord(cmds, i, k);
    }
  }

  /**
    `open` establishes what the engine needs: a sound index, the cursor at
    the end of the installed log, and an index that stands for exactly the
    map the replay engine rebuilds from the same log, so no live key is lost
    and no removed one survives.
  */
  lemma OpenSound(log: seq<Command>)
    ensures IndexSound(Open(log)) && CursorAtEnd(Open(log))
    ensures Abs(Open(log)) == ReplayEngine.Replay(log)
  {
    if Replay(log).uncompactedBytes > THRESHOLD {
      OpenSoundCompacting(log);
    } else {
      OpenSoundReplayed(log);
    }
  }

  /** `open` when it compacts: the rewritten log and its fresh index. */
  lemma OpenSoundCompacting(log: seq<Command>)
    requires Replay(log).uncompactedBytes > THRESHOLD
    ensures IndexSound(Open(log)) && CursorAtEnd(Open(log))
    ensures Abs(Open(log)) == ReplayEngine.Replay(log)
  {
    var st := Open(log);
    var cmds := Compaction.Rewrite(log);
    assert st.log == cmds && st.offsetMap == Compaction.Reindex(cmds).0;
    CompactedStoreSound(log, st);
    CompactedStoreMeans(log, st);
  }

  /** A store holding the compacted log and its fresh index is sound. */
  lemma CompactedStoreSound(log: seq<Command>, st: KvStore)
    requires st.log == Compaction.Rewrite(log) && st.offsetMap == Compaction.Reindex(st.log).0
    ensures IndexSound(st)
  {
    forall k | k in st.offsetMap
      ensures PointsAtSet(st.log, st.offsetMap[k], k)
    {
      CompactedIndexSound(log, k);
    }
  }

  /** A store holding the compacted log and its fresh index stands for the original log's replay. */
  lemma CompactedStoreMeans(log: seq<Command>, st: KvStore)
    requires st.log == Compaction.Rewrite(log) && st.offsetMap == Compaction.Reindex(st.log).0
    ensures Abs(st) == ReplayEngine.Replay(log)
  {
    var live := ReplayEngine.Replay(log);
    forall k
      ensures k in Abs(st) <==> k in live
      ensures k in live ==> Abs(st)[k] == live[k]
    {
      CompactedValue(log, st, k);
    }
  }

  /** In a store holding the compacted log and its fresh index, a key stands for its live value, and only live keys are indexed. */
  lemma CompactedValue(log: seq<Command>, st: KvStore, k: string)
    requires st.log == Compaction.Rewrite(log) && st.offsetMap == Compaction.Reindex(st.log).0
    ensures k in Abs(st) <==> k in ReplayEngine.Replay(log)
    ensures k in ReplayEngine.Replay(log) ==> Abs(st)[k] == ReplayEngine.Replay(log)[k]
  {
    CompactedIndexSound(log, k);
  }

  /** `open` when it does not compact: the replayed index over the log as it is. */
  lemma OpenSoundReplayed(log: seq<Command>)
    requires Replay(log).uncompactedBytes <= THRESHOLD
    ensures IndexSound(Open(log)) && CursorAtEnd(Open(log))
    ensures Abs(Open(log)) == ReplayEngine.Replay(log)
  {
    var st := Open(log);
    assert DeadBytes(log) == 0 by {
      ReplayCountsDeadBytes(log);
      DeadBytesNoneOrMany(log);
    }
    ReplayedStoreSound(log, st);
  }

  /** A store holding a log without dead bytes and that log's replayed index is sound and stands for the log's replay. */
  lemma ReplayedStoreSound(log: seq<Command>, st: KvStore)
    requires DeadBytes(log) == 0 && st.log == log && st.offsetMap == Replay(log).offsetMap
    ensures IndexSound(st) && Abs(st) == ReplayEngine.Replay(log)
  {
    forall k | k in st.offsetMap
      ensures PointsAtSet(log, st.offsetMap[k], k)
    {
      ReplayIndexSound(log, k);
    }
    forall k
      ensures k in Abs(st) <==> k in ReplayEngine.Replay(log)
      ensures k in Abs(st) ==> Abs(st)[k] == ReplayEngine.Replay(log)[k]
    {
      ReplayIndexSound(log, k);
    }
  }

  /**
    Replay leaves a removed key indexed: after a `Set` of `k` and a final
    `Remove` of `k`, the replayed index still holds `k` although the log's
    meaning no longer does. The same `Remove` pushes the dead-byte count over
    the threshold, so `open` always compacts such a log and the stale entry
    never outlives `open`.
  */
  lemma ReplayKeepsRemovedKey(log: seq<Command>, k: string)
    requires HasSetOf(log, k) && |log| > 0 && log[|log| - 1] == Command.Remove(k)
    ensures k in Replay(log).offsetMap
    ensures k !in ReplayEngine.Replay(log)
    ensures Replay(log).uncompactedBytes > THRESHOLD
    ensures k !in Open(log).offsetMap
  {
    var n := |log| - 1;
    assert k in Replay(log).offsetMap by {
      var j :| 0 <= j < |log| && IsSetOf(log[j], k);
      ReplayIndexesLatestSet(log, k);
    }
    assert k !in ReplayEngine.Replay(log) by {
      assert ReplayEngine.Replay(log) == ReplayEngine.Apply(ReplayEngine.Replay(log[..n]), log[n]);
    }
    assert Replay(log).uncompactedBytes > THRESHOLD by {
      ReplayCountsDeadBytes(log);
      DeadBytesNoneOrMany(log);
      assert log[n].Remove?;
    }
    assert k !in Open(log).offsetMap by {
      CompactedKeys(log);
    }
  }

  /** A compacting `open` indexes exactly the keys the log's replay keeps. */
  lemma CompactedKeys(log: seq<Command>)
    requires Replay(log).uncompactedBytes > THRESHOLD
    ensures Open(log).offsetMap.Keys == ReplayEngine.Replay(log).Keys
  {
    Compaction.CompactionIndex(log);
  }

  /** Every dead line is longer than the threshold, so `open` compacts exactly when the log has any dead bytes. */
  lemma OpenCompactsIffDead(log: seq<Command>)
    ensures Replay(log).uncompactedBytes > THRESHOLD <==> DeadBytes(log) > 0
    ensures (exists i :: 0 <= i < |log| && log[i].Remove?) ==> Replay(log).uncompactedBytes > THRESHOLD
  {
    ReplayCountsDeadBytes(log);
    DeadBytesNoneOrMany(log);
  }

  /**
    Compaction does not reset the dead-byte counter: a compacting `open`
    leaves it above the threshold although the log it installs has no dead
    bytes at all.
  */
  lemma CompactionKeepsStaleCount(log: seq<Command>)
    requires Replay(log).uncompactedBytes > THRESHOLD
    ensures Open(log).uncompactedBytes > THRESHOLD
    ensures DeadBytes(Open(log).log) == 0
  {
    Compaction.CompactionIndex(log);
  }
}
