/**
  The engines compared over whole runs of `set` and `remove` calls: each
  log-structured engine against the plain in-memory store, before and after
  the log is reopened.
*/
module Refinement {
  import opened Errors
  import opened Log
  import PlainStore
  import ReplayEngine
  import OffsetEngine
  import OffsetIndex
  import OffsetEngineLemmas
  import OffsetFixes
  import Compaction

  /** A mutating call, and whether its append to the log succeeded. */
  datatype Op = Put(key: string, value: string, written: bool) | Delete(key: string, written: bool)

  /** The calls as the plain store performs them: a call whose append failed changes nothing. */
  function PlainRun(s: PlainStore.KvStore, ops: seq<Op>): PlainStore.KvStore
    decreases |ops|
  {
    if |ops| == 0 then s
    else
      var s' := match ops[0]
        case Put(k, v, w) => if w then PlainStore.Set(s, k, v) else s
        case Delete(k, w) => if w then PlainStore.Remove(s, k) else s;
      PlainRun(s', ops[1..])
  }

  function ReplayRun(st: ReplayEngine.KvStore, ops: seq<Op>): ReplayEngine.KvStore
    decreases |ops|
  {
    if |ops| == 0 then st
    else
      var st' := match ops[0]
        case Put(k, v, w) => ReplayEngine.Set(st, k, v, w).0
        case Delete(k, w) => ReplayEngine.Remove(st, k, w).0;
      ReplayRun(st', ops[1..])
  }

  /** The offset-indexed engine as written. */
  function OffsetRun(st: OffsetEngine.KvStore, ops: seq<Op>): OffsetEngine.KvStore
    decreases |ops|
  {
    if |ops| == 0 then st
    else
      var st' := match ops[0]
        case Put(k, v, w) => OffsetEngine.Set(st, k, v, w).0
        case Delete(k, w) => OffsetEngine.Remove(st, k, w).0;
      OffsetRun(st', ops[1..])
  }

  /** The offset-indexed engine with the corrected `remove`. */
  function FixedRun(st: OffsetEngine.KvStore, ops: seq<Op>): OffsetEngine.KvStore
    decreases |ops|
  {
    if |ops| == 0 then st
    else
      var st' := match ops[0]
        case Put(k, v, w) => OffsetEngine.Set(st, k, v, w).0
        case Delete(k, w) => OffsetFixes.RemoveFixed(st, k, w).0;
      FixedRun(st', ops[1..])
  }

  /** The plain store's answer in the engines' terms: `None` becomes `KeyNotFoundError`. */
  function Expected(s: PlainStore.KvStore, k: string): Result<Option<string>> {
    match PlainStore.Get(s, k)
    case Some(v) => Ok(Some(v))
    case None => Err(KeyNotFoundError)
  }

  /** The replay engine keeps its map equal to the replay of its log, and equal to the plain store's, over any run. */
  lemma {:induction false} ReplayEngineRefinesPlainStore(st: ReplayEngine.KvStore, ops: seq<Op>, s: PlainStore.KvStore)
    requires ReplayEngine.Valid(st) && st.store == s.store
    ensures ReplayEngine.Valid(ReplayRun(st, ops))
    ensures ReplayRun(st, ops).store == PlainRun(s, ops).store
    decreases |ops|
  {
    if |ops| > 0 {
      match ops[0]
      case Put(k, v, w) =>
        ReplayEngineRefinesPlainStore(ReplayEngine.Set(st, k, v, w).0, ops[1..], if w then PlainStore.Set(s, k, v) else s);
      case Delete(k, w) =>
        ReplayEngineRefinesPlainStore(ReplayEngine.Remove(st, k, w).0, ops[1..], if w then PlainStore.Remove(s, k) else s);
    }
  }

  /**
    Durability of the replay engine: after any run from an opened log,
    reopening the resulting log answers every `get` as the running engine
    does, and as the plain store would.
  */
  lemma ReplayEngineReopenReproducesGets(log: seq<Command>, ops: seq<Op>, k: string)
    ensures var fin := ReplayRun(ReplayEngine.Open(log), ops);
            var s := PlainRun(PlainStore.KvStore(ReplayEngine.Replay(log)), ops);
            && ReplayEngine.Get(ReplayEngine.Open(fin.log), k) == ReplayEngine.Get(fin, k)
            && ReplayEngine.Get(fin, k) == Expected(s, k)
  {
    ReplayEngineRefinesPlainStore(ReplayEngine.Open(log), ops, PlainStore.KvStore(ReplayEngine.Replay(log)));
  }

  /** Whatever the offset-indexed engine's index does, its log records every successful call in order. */
  lemma {:induction false} OffsetLogRecordsRun(st: OffsetEngine.KvStore, ops: seq<Op>, s: PlainStore.KvStore)
    requires ReplayEngine.Replay(st.log) == s.store
    ensures ReplayEngine.Replay(OffsetRun(st, ops).log) == PlainRun(s, ops).store
    decreases |ops|
  {
    if |ops| > 0 {
      match ops[0]
      case Put(k, v, w) =>
        ReplayEngine.ReplayAppend(st.log, Command.Set(k, v));
        OffsetLogRecordsRun(OffsetEngine.Set(st, k, v, w).0, ops[1..], if w then PlainStore.Set(s, k, v) else s);
      case Delete(k, w) =>
        ReplayEngine.ReplayAppend(st.log, Command.Remove(k));
        OffsetLogRecordsRun(OffsetEngine.Remove(st, k, w).0, ops[1..], if w then PlainStore.Remove(s, k) else s);
    }
  }

  /** A sound index answers `get` exactly as the plain store holding the same map would. */
  lemma GetMatchesAbs(st: OffsetEngine.KvStore, s: PlainStore.KvStore, k: string)
    requires OffsetEngine.IndexSound(st) && OffsetEngine.Abs(st) == s.store
    ensures OffsetEngine.Get(st, k) == Expected(s, k)
  {
  }

  /**
    Durability of the offset-indexed engine, with the compacted log taken
    to replace the original at its own path: after any run of `set` and
    `remove` from an opened log, reopening the resulting log answers every
    `get` as the plain store would after the same calls.
  */
  lemma OffsetEngineReopenMatchesPlainStore(log: seq<Command>, ops: seq<Op>, k: string)
    ensures var fin := OffsetRun(OffsetEngine.Open(log), ops);
            var s := PlainRun(PlainStore.KvStore(ReplayEngine.Replay(log)), ops);
            OffsetEngine.Get(OffsetEngine.Open(fin.log), k) == Expected(s, k)
  {
    var start := OffsetEngine.Open(log);
    var s0 := PlainStore.KvStore(ReplayEngine.Replay(log));
    Compaction.CompactionPreservesMeaning(log);
    assert ReplayEngine.Replay(start.log) == s0.store;
    OffsetLogRecordsRun(start, ops, s0);
    var fin := OffsetRun(start, ops);
    OffsetEngineLemmas.OpenSound(fin.log);
    GetMatchesAbs(OffsetEngine.Open(fin.log), PlainRun(s0, ops), k);
  }

  /** With the corrected `remove`, the running engine's index stays sound and stands for the plain store's map. */
  lemma {:induction false} FixedEngineRefinesPlainStore(st: OffsetEngine.KvStore, ops: seq<Op>, s: PlainStore.KvStore)
    requires OffsetEngine.IndexSound(st) && OffsetEngine.CursorAtEnd(st) && OffsetEngine.Abs(st) == s.store
    ensures var fin := FixedRun(st, ops);
            OffsetEngine.IndexSound(fin) && OffsetEngine.CursorAtEnd(fin) && OffsetEngine.Abs(fin) == PlainRun(s, ops).store
    decreases |ops|
  {
    if |ops| > 0 {
      match ops[0]
      case Put(k, v, w) =>
        if w {
          OffsetEngineLemmas.SetKeepsIndexSound(st, k, v);
          assert PlainStore.Set(s, k, v).store == s.store[k := v];
        }
        FixedEngineRefinesPlainStore(OffsetEngine.Set(st, k, v, w).0, ops[1..], if w then PlainStore.Set(s, k, v) else s);
      case Delete(k, w) =>
        if w {
          OffsetFixes.RemoveFixedKeepsIndexSound(st, k);
          assert PlainStore.Remove(s, k).store == s.store - {k};
        }
        FixedEngineRefinesPlainStore(OffsetFixes.RemoveFixed(st, k, w).0, ops[1..], if w then PlainStore.Remove(s, k) else s);
    }
  }

  /** With the corrected `remove`, every `get` of the running engine answers as the plain store would after the same calls. */
  lemma FixedEngineAnswersLikePlainStore(log: seq<Command>, ops: seq<Op>, k: string)
    ensures var fin := FixedRun(OffsetEngine.Open(log), ops);
            OffsetEngine.Get(fin, k) == Expected(PlainRun(PlainStore.KvStore(ReplayEngine.Replay(log)), ops), k)
  {
    OffsetEngineLemmas.OpenSound(log);
    var s0 := PlainStore.KvStore(ReplayEngine.Replay(log));
    FixedEngineRefinesPlainStore(OffsetEngine.Open(log), ops, s0);
    GetMatchesAbs(FixedRun(OffsetEngine.Open(log), ops), PlainRun(s0, ops), k);
  }
}
