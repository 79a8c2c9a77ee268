/**
  The offset index of the log-structured engine and the replay that `open`
  runs to rebuild it, with the dead-byte counter kept along the way.
*/
module OffsetIndex {
  import opened Errors
  import opened Log

  /** `ByteOffset`: where a record starts in the log file and how many bytes it takes. */
  datatype ByteOffset = ByteOffset(startOffset: nat, byteLength: nat)

  /** The variables of `open`'s replay loop: the index, the dead-byte counter and the read cursor. */
  datatype Replayed = Replayed(offsetMap: map<string, ByteOffset>, uncompactedBytes: nat, currentOffset: nat)

  /**
    One pass of the replay loop over a line. A `Set` indexes its own line and
    counts the line it supersedes as dead; a `Remove` counts itself as dead
    but leaves the index alone; every line advances the cursor.
  */
  function ReplayStep(s: Replayed, c: Command): (r: Replayed)
    ensures r.currentOffset == s.currentOffset + ByteLength(c)
    ensures c.Set? ==> c.key in r.offsetMap && r.offsetMap[c.key] == ByteOffset(s.currentOffset, ByteLength(c))
    ensures forall k :: !IsSetOf(c, k) ==> (k in r.offsetMap <==> k in s.offsetMap)
    ensures forall k :: !IsSetOf(c, k) && k in s.offsetMap ==> r.offsetMap[k] == s.offsetMap[k]
    ensures c.Remove? ==> r.uncompactedBytes == s.uncompactedBytes + ByteLength(c)
    ensures c.Set? && c.key in s.offsetMap ==> r.uncompactedBytes == s.uncompactedBytes + s.offsetMap[c.key].byteLength
    ensures (c.Set? && c.key !in s.offsetMap) || c.Get? ==> r.uncompactedBytes == s.uncompactedBytes
  {
    var len := ByteLength(c);
    match c
    case Set(k, _) =>
      var superseded := if k in s.offsetMap then s.offsetMap[k].byteLength else 0;
      Replayed(s.offsetMap[k := ByteOffset(s.currentOffset, len)], s.uncompactedBytes + superseded, s.currentOffset + len)
    case Remove(_) => Replayed(s.offsetMap, s.uncompactedBytes + len, s.currentOffset + len)
    case Get(_) => Replayed(s.offsetMap, s.uncompactedBytes, s.currentOffset + len)
  }

  /**
    The replay loop over the whole log, from an empty index and zero
    counters. Every line moves the cursor by its full length, so it ends at
    the end of the log.
  */
  function Replay(log: seq<Command>): (r: Replayed)
    ensures r.currentOffset == LogBytes(log)
    decreases |log|
  {
    if |log| == 0 then Replayed(map[], 0, 0)
    else
      var p, c := log[..|log| - 1], log[|log| - 1];
      assert log == p + [c];
      LogBytesAppend(p, c);
      ReplayStep(Replay(p), c)
  }

  lemma ReplayAppend(log: seq<Command>, c: Command)
    ensures Replay(log + [c]) == ReplayStep(Replay(log), c)
  {
  }

  /** The position of the last `Set` of `k` in the log, if there is one. */
  function LatestSet(log: seq<Command>, k: string): (r: Option<nat>)
    ensures r.Some? ==> r.value < |log| && IsSetOf(log[r.value], k)
    ensures r.Some? ==> forall j :: r.value < j < |log| ==> !IsSetOf(log[j], k)
    ensures r.None? ==> forall j :: 0 <= j < |log| ==> !IsSetOf(log[j], k)
    decreases |log|
  {
    if |log| == 0 then None
    else if IsSetOf(log[|log| - 1], k) then Some(|log| - 1)
    else LatestSet(log[..|log| - 1], k)
  }

  /**
    After replay a key is indexed exactly when some `Set` of it is in the log,
    whatever `Remove` lines follow, and it points at its most recent `Set`:
    that line's start offset and length.
  */
  lemma {:induction false} ReplayIndexesLatestSet(log: seq<Command>, k: string)
    ensures k in Replay(log).offsetMap <==> LatestSet(log, k).Some?
    ensures LatestSet(log, k).Some? ==>
              var i := LatestSet(log, k).value;
              Replay(log).offsetMap[k] == ByteOffset(Offset(log, i), ByteLength(log[i]))
    decreases |log|
  {
    if |log| > 0 {
      var p, c := log[..|log| - 1], log[|log| - 1];
      assert log == p + [c];
      ReplayIndexesLatestSet(p, k);
      if IsSetOf(c, k) {
        assert log[..|p|] == p;
      } else if LatestSet(p, k).Some? {
        OffsetPrefix(p, [c], LatestSet(p, k).value);
      }
    }
  }

  /** Some line of the log sets `k`. */
  predicate HasSetOf(log: seq<Command>, k: string) {
    exists j :: 0 <= j < |log| && IsSetOf(log[j], k)
  }

  /**
    The bytes compaction can reclaim, line by line: all of a `Remove`, all of
    a `Set` that a later `Set` of the same key supersedes, nothing else.
  */
  function DeadBytes(log: seq<Command>): nat
    decreases |log|
  {
    if |log| == 0 then 0
    else
      var dead := log[0].Remove? || (log[0].Set? && HasSetOf(log[1..], log[0].key));
      (if dead then ByteLength(log[0]) else 0) + DeadBytes(log[1..])
  }

  /** Length of the line a new `Set` of `k` supersedes: the latest `Set` of `k`, or nothing. */
  function SupersededLen(log: seq<Command>, k: string): nat {
    match LatestSet(log, k)
    case Some(i) => ByteLength(log[i])
    case None => 0
  }

  /** Where the latest `Set` of a key sits once one more line is put in front of the log. */
  lemma LatestSetFront(x: Command, q: seq<Command>, k: string)
    ensures LatestSet([x] + q, k) ==
              match LatestSet(q, k)
              case Some(i) => Some(i + 1)
              case None => if IsSetOf(x, k) then Some(0) else None
  {
    var log := [x] + q;
    assert forall j :: 1 <= j < |log| ==> log[j] == q[j - 1];
    match LatestSet(q, k)
    case Some(i) =>
      assert IsSetOf(log[i + 1], k);
    case None =>
      if IsSetOf(x, k) {
        assert IsSetOf(log[0], k);
      }
  }

  /** A key has a `Set` in a log with one more line exactly when it had one before or the line is one. */
  lemma HasSetOfAppend(q: seq<Command>, c: Command, k: string)
    ensures HasSetOf(q + [c], k) <==> HasSetOf(q, k) || IsSetOf(c, k)
  {
    if HasSetOf(q + [c], k) && !IsSetOf(c, k) {
      var j :| 0 <= j < |q + [c]| && IsSetOf((q + [c])[j], k);
      assert j < |q| && IsSetOf(q[j], k);
    }
    if HasSetOf(q, k) {
      var j :| 0 <= j < |q| && IsSetOf(q[j], k);
      assert IsSetOf((q + [c])[j], k);
    }
    if IsSetOf(c, k) {
      assert IsSetOf((q + [c])[|q|], k);
    }
  }

  /** A key has a latest `Set` exactly when it has any. */
  lemma HasSetOfLatest(q: seq<Command>, k: string)
    ensures HasSetOf(q, k) <==> LatestSet(q, k).Some?
  {
  }

  /** What a line contributes to the dead bytes once `c` is appended after it. */
  function Added(p: seq<Command>, c: Command): nat {
    if c.Remove? then ByteLength(c) else if c.Set? then SupersededLen(p, c.key) else 0
  }

  /** Appending a line adds its own length if it is a `Remove`, or the line it supersedes if it is a `Set`. */
  lemma {:induction false} DeadBytesAppend(p: seq<Command>, c: Command)
    ensures DeadBytes(p + [c]) ==
              DeadBytes(p) + (if c.Remove? then ByteLength(c) else if c.Set? then SupersededLen(p, c.key) else 0)
    decreases |p|
  {
    if |p| == 0 {
      assert [c][1..] == [];
      assert p + [c] == [c];
      if c.Set? {
        assert LatestSet(p, c.key).None?;
      }
    } else {
      var x, q := p[0], p[1..];
      assert p == [x] + q;
      assert (p + [c])[0] == x;
      assert (p + [c])[1..] == q + [c];
      DeadBytesAppend(q, c);
      var deadBefore := x.Remove? || (x.Set? && HasSetOf(q, x.key));
      var deadAfter := x.Remove? || (x.Set? && HasSetOf(q + [c], x.key));
      assert DeadBytes(p) == (if deadBefore then ByteLength(x) else 0) + DeadBytes(q);
      assert DeadBytes(p + [c]) == (if deadAfter then ByteLength(x) else 0) + DeadBytes(q + [c]);
      if x.Set? {
        HasSetOfAppend(q, c, x.key);
      }
      assert deadBefore ==> deadAfter;
      assert Added(p, c) == Added(q, c) + (if deadAfter && !deadBefore then ByteLength(x) else 0) by {
        if c.Set? {
          LatestSetFront(x, q, c.key);
          HasSetOfLatest(q, c.key);
        }
      }
    }
  }

  /**
    The counter replay keeps is exactly the dead bytes of the log: every
    `Remove` line plus every `Set` line superseded by a later `Set`.
  */
  lemma {:induction false} ReplayCountsDeadBytes(log: seq<Command>)
    ensures Replay(log).uncompactedBytes == DeadBytes(log)
    decreases |log|
  {
    if |log| > 0 {
      var p, c := log[..|log| - 1], log[|log| - 1];
      assert log == p + [c];
      ReplayCountsDeadBytes(p);
      DeadBytesAppend(p, c);
      if c.Set? {
        ReplayIndexesLatestSet(p, c.key);
      }
    }
  }

  /**
    Every dead line is at least 22 bytes long, so the dead bytes of a log are
    either none at all or more than 21; and a log with no dead bytes has no
    `Remove` line.
  */
  lemma {:induction false} DeadBytesNoneOrMany(log: seq<Command>)
    ensures DeadBytes(log) == 0 || DeadBytes(log) >= 22
    ensures DeadBytes(log) == 0 ==> forall i :: 0 <= i < |log| ==> !log[i].Remove?
    decreases |log|
  {
    if |log| > 0 {
      DeadBytesNoneOrMany(log[1..]);
      forall i | 1 <= i < |log|
        ensures log[i] == log[1..][i - 1]
      {
      }
    }
  }
}
