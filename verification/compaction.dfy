/**
  Compaction as `open` runs it: fold the log into a `BTreeMap` of live `Set`
  commands, write them out in key order as the new log, and index the new
  log from offset zero.
*/
module Compaction {
  import opened Errors
  import opened Log
  import opened StringOrder
  import opened OrderedMap
  import opened OffsetIndex
  import ReplayEngine

  /** A map of live values seen as the `Set` commands that would write them. */
  function AsSets(m: map<string, string>): map<string, Command> {
    map k | k in m :: Command.Set(k, m[k])
  }

  /**
    `build_compacted_map`: a `Remove` line deletes its key, a `Set` line
    (re)inserts the whole command under its key, a `Get` line is skipped.
    The result holds, for each key, its last `Set` not followed by a later
    `Remove`: exactly the values the replay engine would hold.
  */
  function BuildCompactedMap(log: seq<Command>): (xs: seq<(string, Command)>)
    ensures Ascending(xs)
    ensures ToMap(xs) == AsSets(ReplayEngine.Replay(log))
    decreases |log|
  {
    if |log| == 0 then []
    else
      var prev := BuildCompactedMap(log[..|log| - 1]);
      var before := ReplayEngine.Replay(log[..|log| - 1]);
      match log[|log| - 1]
      case Remove(k) =>
        assert AsSets(before - {k}) == AsSets(before) - {k};
        OrderedMap.Remove(prev, k)
      case Set(k, v) =>
        assert AsSets(before[k := v]) == AsSets(before)[k := Command.Set(k, v)];
        Insert(prev, k, Command.Set(k, v))
      case Get(_) => prev
  }

  /** Each entry of an ascending list standing for the `Set`s of `live` is a `Set` of a live key, carrying that key's value. */
  lemma EntriesLive(xs: seq<(string, Command)>, live: map<string, string>)
    requires Ascending(xs) && ToMap(xs) == AsSets(live)
    ensures forall i :: 0 <= i < |xs| ==> xs[i].1.Set? && xs[i].1.key in live && xs[i].1.value == live[xs[i].1.key]
  {
    forall i | 0 <= i < |xs|
      ensures xs[i].1.Set? && xs[i].1.key in live && xs[i].1.value == live[xs[i].1.key]
    {
      ToMapAt(xs, i);
      assert xs[i].0 in AsSets(live);
    }
  }

  /**
    The records compaction writes: the map's commands in iteration order.
    Each is a `Set` of a key the log's replay keeps, carrying that key's
    live value; no removed or overwritten value is written.
  */
  function Rewrite(log: seq<Command>): (cmds: seq<Command>)
    ensures var live := ReplayEngine.Replay(log);
            forall i :: 0 <= i < |cmds| ==> cmds[i].Set? && cmds[i].key in live && cmds[i].value == live[cmds[i].key]
  {
    var xs := BuildCompactedMap(log);
    EntriesLive(xs, ReplayEngine.Replay(log));
    seq(|xs|, i requires 0 <= i < |xs| => xs[i].1)
  }

  /**
    The compaction loop's index and cursor: each `Set` written is indexed at
    the cursor, which then moves past it. Only keys of written `Set`s are
    indexed, and when every record is a `Set` the cursor ends at the end of
    what was written.
  */
  function Reindex(cmds: seq<Command>): (r: (map<string, ByteOffset>, nat))
    ensures forall k :: k in r.0 ==> exists c :: c in cmds && IsSetOf(c, k)
    ensures (forall i :: 0 <= i < |cmds| ==> cmds[i].Set?) ==> r.1 == LogBytes(cmds)
    decreases |cmds|
  {
    if |cmds| == 0 then (map[], 0)
    else
      var p, c := cmds[..|cmds| - 1], cmds[|cmds| - 1];
      assert cmds == p + [c];
      LogBytesAppend(p, c);
      assert c in cmds && forall c' :: c' in p ==> c' in cmds;
      var (m, cur) := Reindex(p);
      if c.Set? then (m[c.key := ByteOffset(cur, ByteLength(c))], cur + ByteLength(c)) else (m, cur)
  }

  /** Only `Set` records, no key twice. */
  predicate DistinctSets(cmds: seq<Command>) {
    && (forall i :: 0 <= i < |cmds| ==> cmds[i].Set?)
    && (forall i, j :: 0 <= i < j < |cmds| ==> cmds[i].key != cmds[j].key)
  }

  /**
    Reindexing records with distinct keys gives every record the entry of
    its own line: its start offset in the new log and its length.
  */
  lemma {:induction false} ReindexContiguous(cmds: seq<Command>)
    requires DistinctSets(cmds)
    ensures forall i :: 0 <= i < |cmds| ==>
              cmds[i].key in Reindex(cmds).0 && Reindex(cmds).0[cmds[i].key] == ByteOffset(Offset(cmds, i), ByteLength(cmds[i]))
    decreases |cmds|
  {
    if |cmds| > 0 {
      var p, c := cmds[..|cmds| - 1], cmds[|cmds| - 1];
      assert cmds == p + [c];
      assert DistinctSets(p);
      ReindexContiguous(p);
      forall i | 0 <= i < |cmds|
        ensures cmds[i].key in Reindex(cmds).0 && Reindex(cmds).0[cmds[i].key] == ByteOffset(Offset(cmds, i), ByteLength(cmds[i]))
      {
        if i < |p| {
          OffsetPrefix(p, [c], i);
          assert cmds[i] == p[i];
          assert p[i].key != c.key;
        } else {
          assert cmds[..i] == p;
        }
      }
    }
  }

  /** A log of `Set`s with distinct keys has no dead bytes. */
  lemma {:induction false} DistinctSetsNotDead(cmds: seq<Command>)
    requires DistinctSets(cmds)
    ensures DeadBytes(cmds) == 0
    decreases |cmds|
  {
    if |cmds| > 0 {
      DistinctSetsNotDead(cmds[1..]);
      assert forall j :: 0 <= j < |cmds[1..]| ==> cmds[1..][j] == cmds[j + 1];
    }
  }

  /**
    What compaction writes: exactly one `Set` per live key, carrying that
    key's live value, in ascending key order. No live key is lost, and no
    removed or overwritten value survives.
  */
  lemma RewriteHoldsLiveSets(log: seq<Command>)
    ensures var live := ReplayEngine.Replay(log);
            var cmds := Rewrite(log);
            && (forall i :: 0 <= i < |cmds| ==> cmds[i].Set? && cmds[i].key in live && cmds[i].value == live[cmds[i].key])
            && (forall k :: k in live ==> exists i :: 0 <= i < |cmds| && cmds[i].key == k)
            && (forall i, j :: 0 <= i < j < |cmds| ==> Less(cmds[i].key, cmds[j].key))
  {
    RewriteComplete(log);
    RewriteAscending(log);
  }

  lemma RewriteComplete(log: seq<Command>)
    ensures var live := ReplayEngine.Replay(log);
            var cmds := Rewrite(log);
            forall k :: k in live ==> exists i :: 0 <= i < |cmds| && cmds[i].key == k
  {
    var live := ReplayEngine.Replay(log);
    var xs := BuildCompactedMap(log);
    var cmds := Rewrite(log);
    forall k | k in live
      ensures exists i :: 0 <= i < |cmds| && cmds[i].key == k
    {
      assert k in AsSets(live);
      var i := ToMapKey(xs, k);
      ToMapAt(xs, i);
      assert cmds[i] == xs[i].1;
      assert cmds[i].key == k;
    }
  }

  lemma RewriteAscending(log: seq<Command>)
    ensures var cmds := Rewrite(log);
            forall i, j :: 0 <= i < j < |cmds| ==> Less(cmds[i].key, cmds[j].key)
  {
    var xs := BuildCompactedMap(log);
    var cmds := Rewrite(log);
    forall i, j | 0 <= i < j < |cmds|
      ensures Less(cmds[i].key, cmds[j].key)
    {
      AscendingStrict(xs, i, j);
      ToMapAt(xs, i);
      ToMapAt(xs, j);
      assert cmds[i] == xs[i].1 && cmds[j] == xs[j].1;
    }
  }

  lemma RewriteDistinct(log: seq<Command>)
    ensures DistinctSets(Rewrite(log))
  {
    var cmds := Rewrite(log);
    RewriteHoldsLiveSets(log);
    forall i, j | 0 <= i < j < |cmds|
      ensures cmds[i].key != cmds[j].key
    {
      LessIrreflexive(cmds[i].key);
    }
  }

  /**
    How compaction re-indexes: the keys indexed are exactly the live keys,
    each pointing at its own line of the new log, offsets contiguous from
    zero; the cursor ends at the new log's end; the new log has no dead bytes.
  */
  lemma CompactionIndex(log: seq<Command>)
    ensures var cmds := Rewrite(log);
            && Reindex(cmds).0.Keys == ReplayEngine.Replay(log).Keys
            && (forall i :: 0 <= i < |cmds| ==> cmds[i].key in Reindex(cmds).0 && Reindex(cmds).0[cmds[i].key] == ByteOffset(Offset(cmds, i), ByteLength(cmds[i])))
            && Reindex(cmds).1 == LogBytes(cmds)
            && DeadBytes(cmds) == 0
  {
    var cmds := Rewrite(log);
    var live := ReplayEngine.Replay(log);
    RewriteHoldsLiveSets(log);
    RewriteDistinct(log);
    ReindexContiguous(cmds);
    DistinctSetsNotDead(cmds);
    forall k | k in Reindex(cmds).0
      ensures k in live
    {
      var c :| c in cmds && IsSetOf(c, k);
      var i :| 0 <= i < |cmds| && cmds[i] == c;
    }
  }

  /** Replaying the compacted log rebuilds the same map as replaying the original: compaction keeps the log's meaning. */
  lemma CompactionPreservesMeaning(log: seq<Command>)
    ensures ReplayEngine.Replay(Rewrite(log)) == ReplayEngine.Replay(log)
  {
    var cmds := Rewrite(log);
    var live := ReplayEngine.Replay(log);
    RewriteComplete(log);
    RewriteDistinct(log);
    forall k
      ensures k in ReplayEngine.Replay(cmds) <==> k in live
      ensures k in live ==> ReplayEngine.Replay(cmds)[k] == live[k]
    {
      ReplayEngine.ReplayLatestWrite(cmds, k);
      if k in live {
        var i :| 0 <= i < |cmds| && cmds[i].key == k;
        assert ReplayEngine.LatestWrite(cmds, k, i);
      }
      if k in ReplayEngine.Replay(cmds) {
        var i: nat :| ReplayEngine.LatestWrite(cmds, k, i) && cmds[i].Set?;
      }
    }
  }
}
