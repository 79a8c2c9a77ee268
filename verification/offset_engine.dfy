/**
  The offset-indexed engine: the log file plus an in-memory index from each
  key to the byte range of its record, an append cursor and a dead-byte
  counter. `open` replays the log and compacts it when too many dead bytes
  were counted; `get` reads one record back through the index.
*/
module OffsetEngine {
  import opened Errors
  import opened Log
  import opened OffsetIndex
  import Compaction
  import ReplayEngine

  /** `THRESHOLD`: `open` compacts when strictly more dead bytes than this were counted. */
  const THRESHOLD: nat := 10

  /** The engine's state; the path of the log file is left out. */
  datatype KvStore = KvStore(
    offsetMap: map<string, ByteOffset>,
    log: seq<Command>,
    currentOffset: nat,
    uncompactedBytes: nat)

  /**
    `KvStore::open` over the records of an existing log. After replay, if
    the counter exceeds the threshold, the log is replaced by its compacted
    rewrite and indexed afresh; the counter is kept as replay left it. The
    installed log means what the original meant, the cursor stands at its
    end, and the counter holds the original log's dead bytes.
  */
  function Open(log: seq<Command>): (st: KvStore)
    ensures ReplayEngine.Replay(st.log) == ReplayEngine.Replay(log)
    ensures CursorAtEnd(st)
    ensures st.uncompactedBytes == DeadBytes(log)
    ensures DeadBytes(log) <= THRESHOLD ==> st.log == log
    ensures DeadBytes(log) > THRESHOLD ==> st.log == Compaction.Rewrite(log)
  {
    var r := Replay(log);
    ReplayCountsDeadBytes(log);
    if r.uncompactedBytes > THRESHOLD then
      var cmds := Compaction.Rewrite(log);
      Compaction.CompactionPreservesMeaning(log);
      var (index, cursor) := Compaction.Reindex(cmds);
      KvStore(index, cmds, cursor, r.uncompactedBytes)
    else
      KvStore(r.offsetMap, log, r.currentOffset, r.uncompactedBytes)
  }

  /**
    `get`'s read: seek to `start`, `read_exact` `len` bytes and decode them.
    Reading past the end of the file fails with an I/O error. The decoder
    skips whitespace before and after the value, so a slice decodes to a
    record when it spans that record's JSON text, with or without the
    record's newline, and either starts where the record starts or one byte
    earlier, on the newline that ends the record before it. Any other slice
    fails to decode: it ends inside a record, runs on into the next one, or
    starts inside a record, where the only whitespace is a space in a string
    literal, followed by more of that literal rather than a command.
  */
  function ReadAt(log: seq<Command>, start: nat, len: nat): (r: Result<Command>)
    ensures r.Ok? ==> start + len <= LogBytes(log)
    ensures r.Ok? ==> RecordAt(log, start) == Some(r.value) || RecordAt(log, start + 1) == Some(r.value)
    ensures start + len > LogBytes(log) ==> r == Err(IOError)
  {
    if start + len > LogBytes(log) then Err(IOError)
    else
      match RecordAt(log, start)
      case Some(c) => if len == ByteLength(c) || len == JsonLen(c) then Ok(c) else Err(SerdeError)
      case None =>
        match RecordAt(log, start + 1)
        case Some(c) => if len == ByteLength(c) + 1 || len == JsonLen(c) + 1 then Ok(c) else Err(SerdeError)
        case None => Err(SerdeError)
  }

  /** Entry `e` covers exactly one whole record of the log, and that record sets `k`. */
  predicate PointsAtSet(log: seq<Command>, e: ByteOffset, k: string) {
    && e.startOffset + e.byteLength <= LogBytes(log)
    && RecordAt(log, e.startOffset).Some?
    && IsSetOf(RecordAt(log, e.startOffset).value, k)
    && e.byteLength == ByteLength(RecordAt(log, e.startOffset).value)
  }

  /** Index soundness: every indexed key's range lies in the log and holds a `Set` of that key. */
  predicate IndexSound(st: KvStore) {
    forall k :: k in st.offsetMap ==> PointsAtSet(st.log, st.offsetMap[k], k)
  }

  /** The append cursor stands at the end of the log, where the next record will land. */
  predicate CursorAtEnd(st: KvStore) {
    st.currentOffset == LogBytes(st.log)
  }

  /** The value of the `Set` an entry points at; an entry of a sound index always points at one. */
  function ValueAt(log: seq<Command>, e: ByteOffset): string {
    match RecordAt(log, e.startOffset)
    case Some(Set(_, v)) => v
    case _ => ""
  }

  /** The key-value map an index stands for: each key's value is the one its record holds. */
  function Abs(st: KvStore): map<string, string> {
    map k | k in st.offsetMap :: ValueAt(st.log, st.offsetMap[k])
  }

  /**
    `get`: an absent key is `KeyNotFoundError`; otherwise the indexed bytes
    are read and decoded, and the value is returned only if they hold a
    `Set` (of whatever key). With a sound index, `get` answers exactly what
    the index stands for.
  */
  function Get(st: KvStore, k: string): (r: Result<Option<string>>)
    ensures k !in st.offsetMap ==> r == Err(KeyNotFoundError)
    ensures r.Ok? ==> r.value.Some?
    ensures IndexSound(st) ==> (k in Abs(st) ==> r == Ok(Some(Abs(st)[k])))
  {
    if k !in st.offsetMap then Err(KeyNotFoundError)
    else
      var e := st.offsetMap[k];
      match ReadAt(st.log, e.startOffset, e.byteLength)
      case Err(err) => Err(err)
      case Ok(c) => if c.Set? then Ok(Some(c.value)) else Err(KeyNotFoundError)
  }

  /**
    `set`: append one `Set` record; if the append failed, return with
    nothing changed. Otherwise index `k` at the cursor with the record's
    length, count the entry it supersedes as dead, and advance the cursor
    past the record. No other key's entry changes.
  */
  function Set(st: KvStore, k: string, v: string, written: bool): (r: (KvStore, Result<()>))
    ensures !written ==> r == (st, Err(IOError))
    ensures written ==> r.1 == Ok(()) && r.0.log == st.log + [Command.Set(k, v)]
    ensures written ==> k in r.0.offsetMap && r.0.offsetMap[k] == ByteOffset(st.currentOffset, ByteLength(Command.Set(k, v)))
    ensures written ==> forall k' :: k' != k ==> (k' in r.0.offsetMap <==> k' in st.offsetMap)
    ensures written ==> forall k' :: k' != k && k' in st.offsetMap ==> r.0.offsetMap[k'] == st.offsetMap[k']
    ensures written && k in st.offsetMap ==> r.0.uncompactedBytes == st.uncompactedBytes + st.offsetMap[k].byteLength
    ensures written && k !in st.offsetMap ==> r.0.uncompactedBytes == st.uncompactedBytes
    ensures written ==> r.0.currentOffset == st.currentOffset + ByteLength(Command.Set(k, v))
  {
    if !written then (st, Err(IOError))
    else
      var c := Command.Set(k, v);
      var entry := ByteOffset(st.currentOffset, ByteLength(c));
      var dead := if k in st.offsetMap then st.offsetMap[k].byteLength else 0;
      (KvStore(st.offsetMap[k := entry], st.log + [c], st.currentOffset + ByteLength(c), st.uncompactedBytes + dead), Ok(()))
  }

  /**
    `remove`: append a `Remove` record whatever the key; if the append
    failed, return with nothing changed. Otherwise un-index `k`, answering
    `Ok` if it was indexed and `KeyNotFoundError` if not. Neither the cursor
    nor the dead-byte counter moves.
  */
  function Remove(st: KvStore, k: string, written: bool): (r: (KvStore, Result<()>))
    ensures !written ==> r == (st, Err(IOError))
    ensures written ==> r.0.log == st.log + [Command.Remove(k)]
    ensures written ==> (r.1 == Ok(()) <==> k in st.offsetMap)
    ensures written && k !in st.offsetMap ==> r.1 == Err(KeyNotFoundError)
    ensures written ==> k !in r.0.offsetMap && forall k' :: k' != k && k' in st.offsetMap ==> k' in r.0.offsetMap && r.0.offsetMap[k'] == st.offsetMap[k']
    ensures written ==> r.0.offsetMap.Keys == st.offsetMap.Keys - {k}
    ensures r.0.currentOffset == st.currentOffset && r.0.uncompactedBytes == st.uncompactedBytes
  {
    if !written then (st, Err(IOError))
    else
      var st' := KvStore(st.offsetMap - {k}, st.log + [Command.Remove(k)], st.currentOffset, st.uncompactedBytes);
      if k in st.offsetMap then (st', Ok(())) else (st', Err(KeyNotFoundError))
  }
}
