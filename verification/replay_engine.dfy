/**
  The replay engine: a map held in memory, rebuilt on open by replaying the
  whole log, with every mutation appended to the log before the map changes.
*/
module ReplayEngine {
  import opened Errors
  import opened Log
  import PlainStore

  datatype KvStore = KvStore(store: map<string, string>, log: seq<Command>)

  /** One pass of `open`'s loop: `Set` inserts or overwrites, `Remove` deletes, `Get` is skipped. */
  function Apply(m: map<string, string>, c: Command): (r: map<string, string>)
    ensures c.Set? ==> PlainStore.KvStore(r) == PlainStore.Set(PlainStore.KvStore(m), c.key, c.value)
    ensures c.Remove? ==> PlainStore.KvStore(r) == PlainStore.Remove(PlainStore.KvStore(m), c.key)
    ensures c.Get? ==> r == m
  {
    match c
    case Set(k, v) => m[k := v]
    case Remove(k) => m - {k}
    case Get(_) => m
  }

  /**
    The map `open` builds: a left fold of `Apply` over the log, from the
    empty map. Every pair it holds was written by a `Set` record of the log.
  */
  function Replay(log: seq<Command>): (m: map<string, string>)
    ensures forall k :: k in m ==> Command.Set(k, m[k]) in log
    decreases |log|
  {
    if |log| == 0 then map[]
    else
      var p := log[..|log| - 1];
      assert log == p + [log[|log| - 1]];
      Apply(Replay(p), log[|log| - 1])
  }

  lemma ReplayAppend(log: seq<Command>, c: Command)
    ensures Replay(log + [c]) == Apply(Replay(log), c)
  {
  }

  /** `c` sets or removes `k`. */
  predicate Writes(c: Command, k: string) {
    (c.Set? || c.Remove?) && c.key == k
  }

  /** Record `i` is the last record of the log that sets or removes `k`. */
  predicate LatestWrite(log: seq<Command>, k: string, i: nat) {
    i < |log| && Writes(log[i], k) && forall j :: i < j < |log| ==> !Writes(log[j], k)
  }

  /**
    What replay means, independently of how the fold computes it: a key is
    present exactly when its last write in the log is a `Set`, and then it
    holds that `Set`'s value.
  */
  lemma {:induction false} ReplayLatestWrite(log: seq<Command>, k: string)
    ensures k in Replay(log) <==> exists i: nat :: LatestWrite(log, k, i) && log[i].Set?
    ensures forall i: nat :: LatestWrite(log, k, i) && log[i].Set? ==> Replay(log)[k] == log[i].value
    decreases |log|
  {
    if |log| > 0 {
      var p, c := log[..|log| - 1], log[|log| - 1];
      assert log == p + [c];
      ReplayLatestWrite(p, k);
      if Writes(c, k) {
        forall i: nat | LatestWrite(log, k, i)
          ensures i == |p|
        {
        }
        assert LatestWrite(log, k, |p|);
      } else {
        forall i: nat | LatestWrite(log, k, i)
          ensures LatestWrite(p, k, i)
        {
        }
        forall i: nat | LatestWrite(p, k, i)
          ensures LatestWrite(log, k, i)
        {
        }
      }
    }
  }

  /** The engine's invariant: the map is exactly what replaying its log gives. */
  predicate Valid(st: KvStore) {
    st.store == Replay(st.log)
  }

  /**
    `KvStore::open`: replay the log into a fresh map. A key is stored exactly
    when its last write in the log is a `Set`, and it holds that `Set`'s value.
  */
  function Open(log: seq<Command>): (st: KvStore)
    ensures Valid(st) && st.log == log
    ensures forall k :: k in st.store <==> exists i: nat :: LatestWrite(log, k, i) && log[i].Set?
    ensures forall k, i: nat :: LatestWrite(log, k, i) && log[i].Set? ==> st.store[k] == log[i].value
  {
    assert forall k :: (k in Replay(log) <==> exists i: nat :: LatestWrite(log, k, i) && log[i].Set?)
                       && forall i: nat :: LatestWrite(log, k, i) && log[i].Set? ==> Replay(log)[k] == log[i].value by {
      forall k
        ensures k in Replay(log) <==> exists i: nat :: LatestWrite(log, k, i) && log[i].Set?
        ensures forall i: nat :: LatestWrite(log, k, i) && log[i].Set? ==> Replay(log)[k] == log[i].value
      {
        ReplayLatestWrite(log, k);
      }
    }
    KvStore(Replay(log), log)
  }

  /** `get`: the stored value, and `KeyNotFoundError` where the plain store would answer `None`. */
  function Get(st: KvStore, k: string): (r: Result<Option<string>>)
    ensures PlainStore.Get(PlainStore.KvStore(st.store), k).Some? ==> r == Ok(PlainStore.Get(PlainStore.KvStore(st.store), k))
    ensures PlainStore.Get(PlainStore.KvStore(st.store), k).None? ==> r == Err(KeyNotFoundError)
  {
    if k in st.store then Ok(Some(st.store[k])) else Err(KeyNotFoundError)
  }

  /**
    `set`: append a `Set` record; only if the append succeeded (`written`)
    update the map, as the plain store's `set` would.
  */
  function Set(st: KvStore, k: string, v: string, written: bool): (r: (KvStore, Result<()>))
    ensures !written ==> r == (st, Err(IOError))
    ensures written ==> r.1 == Ok(()) && r.0.log == st.log + [Command.Set(k, v)]
    ensures written ==> PlainStore.KvStore(r.0.store) == PlainStore.Set(PlainStore.KvStore(st.store), k, v)
    ensures Valid(st) ==> Valid(r.0)
  {
    if !written then (st, Err(IOError))
    else
      ReplayAppend(st.log, Command.Set(k, v));
      (KvStore(st.store[k := v], st.log + [Command.Set(k, v)]), Ok(()))
  }

  /**
    `remove`: append a `Remove` record whatever the key; only if the append
    succeeded delete the key, answering `Ok` when it was present and
    `KeyNotFoundError` when it was not.
  */
  function Remove(st: KvStore, k: string, written: bool): (r: (KvStore, Result<()>))
    ensures !written ==> r == (st, Err(IOError))
    ensures written ==> r.0.log == st.log + [Command.Remove(k)]
    ensures written ==> (r.1 == Ok(()) <==> k in st.store)
    ensures written && k !in st.store ==> r.1 == Err(KeyNotFoundError)
    ensures written ==> PlainStore.KvStore(r.0.store) == PlainStore.Remove(PlainStore.KvStore(st.store), k)
    ensures Valid(st) ==> Valid(r.0)
  {
    if !written then (st, Err(IOError))
    else
      ReplayAppend(st.log, Command.Remove(k));
      var st' := KvStore(st.store - {k}, st.log + [Command.Remove(k)]);
      if k in st.store then (st', Ok(())) else (st', Err(KeyNotFoundError))
  }
}
