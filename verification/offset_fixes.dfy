/**
  Corrected variants of two steps of the offset-indexed engine, each next to
  the property the code as written misses:
  - `remove` that moves the cursor past the record it appends (and counts
    that record as dead, as replay does);
  - `open` that resets the dead-byte counter when it compacts.
*/
module OffsetFixes {
  import opened Errors
  import opened Log
  import opened OffsetIndex
  import opened OffsetEngine
  import OffsetEngineLemmas
  import Compaction

  /** `remove` with its bookkeeping matching the record it appends. */
  function RemoveFixed(st: KvStore, k: string, written: bool): (r: (KvStore, Result<()>))
    ensures !written ==> r == (st, Err(IOError))
    ensures written ==> r.0.log == st.log + [Command.Remove(k)]
    ensures written ==> (r.1 == Ok(()) <==> k in st.offsetMap)
    ensures written && k !in st.offsetMap ==> r.1 == Err(KeyNotFoundError)
    ensures written ==> r.0.offsetMap.Keys == st.offsetMap.Keys - {k}
    ensures written ==> forall k' :: k' in r.0.offsetMap ==> r.0.offsetMap[k'] == st.offsetMap[k']
    ensures written ==> r.0.uncompactedBytes == st.uncompactedBytes + ByteLength(Command.Remove(k))
    ensures CursorAtEnd(st) ==> CursorAtEnd(r.0)
  {
    if !written then (st, Err(IOError))
    else
      var c := Command.Remove(k);
      LogBytesAppend(st.log, c);
      var st' := KvStore(st.offsetMap - {k}, st.log + [c], st.currentOffset + ByteLength(c), st.uncompactedBytes + ByteLength(c));
      if k in st.offsetMap then (st', Ok(())) else (st', Err(KeyNotFoundError))
  }

  /** The corrected `remove` keeps the index sound and the cursor at the end, and drops `k` from what the index stands for. */
  lemma RemoveFixedKeepsIndexSound(st: KvStore, k: string)
    requires IndexSound(st) && CursorAtEnd(st)
    ensures var st' := RemoveFixed(st, k, true).0;
            IndexSound(st') && CursorAtEnd(st') && Abs(st') == Abs(st) - {k}
  {
    var c := Command.Remove(k);
    var st' := RemoveFixed(st, k, true).0;
    assert st'.log == st.log + [c];
    forall k' | k' in st'.offsetMap
      ensures PointsAtSet(st'.log, st'.offsetMap[k'], k')
      ensures RecordAt(st'.log, st'.offsetMap[k'].startOffset) == RecordAt(st.log, st.offsetMap[k'].startOffset)
    {
      OffsetEngineLemmas.PointsAtSetAppend(st.log, c, st.offsetMap[k'], k');
    }
    OffsetEngineLemmas.AbsDrop(st, st', k);
  }

  /** With the corrected `remove`, a `set` after a `remove` reads back the value it set. */
  lemma SetAfterRemoveFixedReadsBack(st: KvStore, gone: string, k: string, v: string)
    requires IndexSound(st) && CursorAtEnd(st)
    ensures var st1 := RemoveFixed(st, gone, true).0;
            var st2 := OffsetEngine.Set(st1, k, v, true).0;
            OffsetEngine.Get(st2, k) == Ok(Some(v))
  {
    var st1 := RemoveFixed(st, gone, true).0;
    RemoveFixedKeepsIndexSound(st, gone);
    OffsetEngineLemmas.SetKeepsIndexSound(st1, k, v);
  }

  /**
    `open` that starts the dead-byte count afresh for the log it installs
    when it compacts: the counter then holds exactly the dead bytes of the
    installed log, and the index, log and cursor are those of `open`.
  */
  function OpenFixed(log: seq<Command>): (st: KvStore)
    ensures st.uncompactedBytes == DeadBytes(st.log)
    ensures st.offsetMap == Open(log).offsetMap && st.log == Open(log).log && st.currentOffset == Open(log).currentOffset
  {
    var st := Open(log);
    Compaction.CompactionIndex(log);
    if Replay(log).uncompactedBytes > THRESHOLD then st.(uncompactedBytes := 0) else st
  }
}
