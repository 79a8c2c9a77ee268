/**
  The engine's test scenarios, stated for every key and value rather than
  for the literal strings the tests use, for the offset-indexed engine as
  written, from an empty log.
*/
module Scenarios {
  import opened Errors
  import opened Log
  import opened OffsetEngine
  import OffsetEngineLemmas
  import Refinement
  import PlainStore
  import ReplayEngine
  import OffsetIndex

  /** Reopening a log answers every `get` as the plain store holding the log's replay would. */
  lemma ReopenAnswers(log: seq<Command>, k: string)
    ensures OffsetEngine.Get(Open(log), k) == Refinement.Expected(PlainStore.KvStore(ReplayEngine.Replay(log)), k)
  {
    OffsetEngineLemmas.OpenSound(log);
    Refinement.GetMatchesAbs(Open(log), PlainStore.KvStore(ReplayEngine.Replay(log)), k);
  }

  /** The replay of a log of one and of two records. */
  lemma ReplayTwo(c1: Command, c2: Command)
    ensures ReplayEngine.Replay([c1]) == ReplayEngine.Apply(map[], c1)
    ensures ReplayEngine.Replay([c1, c2]) == ReplayEngine.Apply(ReplayEngine.Apply(map[], c1), c2)
  {
  }

  /** The empty log opens to a sound, empty index. */
  lemma OpenEmpty()
    ensures Open([]) == KvStore(map[], [], 0, 0)
    ensures IndexSound(Open([])) && CursorAtEnd(Open([])) && Abs(Open([])) == map[]
  {
  }

  /** On a sound index with the cursor at the end, `set` leaves one too, and the key reads back the value just set. */
  lemma SetReadsBack(st: KvStore, k: string, v: string)
    requires IndexSound(st) && CursorAtEnd(st)
    ensures var st' := OffsetEngine.Set(st, k, v, true).0;
            && IndexSound(st') && CursorAtEnd(st') && Abs(st') == Abs(st)[k := v]
            && OffsetEngine.Get(st', k) == Ok(Some(v))
  {
    OffsetEngineLemmas.SetKeepsIndexSound(st, k, v);
  }

  /**
    The stale cursor at its worst, on the smallest literal instance: set
    "kkkkkkkkkk" to "", remove it, set "" to "x", then set "b" to "". The
    `Set` of "b" is indexed at byte 71, the `Remove` record's newline, with
    length 31; that range holds the newline and the 30-byte JSON text of the
    `Set` of "", so `get("b")` answers "x".
  */
  lemma RemoveThenSetsReadOtherValueExample()
    ensures var st1 := OffsetEngine.Set(Open([]), "kkkkkkkkkk", "", true).0;
            var st2 := OffsetEngine.Remove(st1, "kkkkkkkkkk", true).0;
            var st3 := OffsetEngine.Set(st2, "", "x", true).0;
            var st4 := OffsetEngine.Set(st3, "b", "", true).0;
            OffsetEngine.Get(st4, "b") == Ok(Some("x"))
  {
    var st0 := Open([]);
    OpenEmpty();
    SetReadsBack(st0, "kkkkkkkkkk", "");
    var st1 := OffsetEngine.Set(st0, "kkkkkkkkkk", "", true).0;
    ExampleLengths();
    OffsetEngineLemmas.RemoveThenSetsReadOtherValue(st1, "kkkkkkkkkk", "", "x", "b", "");
  }

  /** The record lengths of that instance: 32 bytes for the `Remove`, 31 for each `Set`. */
  lemma ExampleLengths()
    ensures ByteLength(Command.Remove("kkkkkkkkkk")) == 32
    ensures ByteLength(Command.Set("", "x")) == 31 && ByteLength(Command.Set("b", "")) == 31
  {
    EscapedLenPlain("kkkkkkkkkk");
    assert EscapedLen("x") == 1 && EscapedLen("b") == 1;
  }

  /** Values set under two keys read back, and the log holds the two `Set` records. */
  lemma StoredValuesReadBack(k1: string, v1: string, k2: string, v2: string)
    requires k1 != k2
    ensures var st := OffsetEngine.Set(OffsetEngine.Set(Open([]), k1, v1, true).0, k2, v2, true).0;
            && OffsetEngine.Get(st, k1) == Ok(Some(v1)) && OffsetEngine.Get(st, k2) == Ok(Some(v2))
            && st.log == [Command.Set(k1, v1), Command.Set(k2, v2)]
  {
    var st0 := Open([]);
    var st1 := OffsetEngine.Set(st0, k1, v1, true).0;
    var st2 := OffsetEngine.Set(st1, k2, v2, true).0;
    OpenEmpty();
    SetReadsBack(st0, k1, v1);
    SetReadsBack(st1, k2, v2);
    assert k1 in Abs(st1) && Abs(st1)[k1] == v1;
    assert k1 in Abs(st2) && Abs(st2)[k1] == v1;
    assert st2.log == [Command.Set(k1, v1), Command.Set(k2, v2)] by {
      assert st0.log == [];
      assert st1.log == [Command.Set(k1, v1)];
    }
  }

  /** Reopening the log of two `Set`s of different keys reads both values back. */
  lemma StoredValuesSurviveReopen(k1: string, v1: string, k2: string, v2: string)
    requires k1 != k2
    ensures var log := [Command.Set(k1, v1), Command.Set(k2, v2)];
            OffsetEngine.Get(Open(log), k1) == Ok(Some(v1)) && OffsetEngine.Get(Open(log), k2) == Ok(Some(v2))
  {
    var log := [Command.Set(k1, v1), Command.Set(k2, v2)];
    ReplayTwo(Command.Set(k1, v1), Command.Set(k2, v2));
    ReopenAnswers(log, k1);
    ReopenAnswers(log, k2);
  }

  /** Overwriting a key: the latest value reads back, and the log holds both `Set` records. */
  lemma OverwriteReadsLatest(k: string, v1: string, v2: string)
    ensures var st1 := OffsetEngine.Set(Open([]), k, v1, true).0;
            var st2 := OffsetEngine.Set(st1, k, v2, true).0;
            && OffsetEngine.Get(st1, k) == Ok(Some(v1))
            && OffsetEngine.Get(st2, k) == Ok(Some(v2))
            && st2.log == [Command.Set(k, v1), Command.Set(k, v2)]
  {
    var st0 := Open([]);
    var st1 := OffsetEngine.Set(st0, k, v1, true).0;
    OpenEmpty();
    SetReadsBack(st0, k, v1);
    SetReadsBack(st1, k, v2);
  }

  /** Reopening a log where a key was overwritten reads the latest value. */
  lemma OverwriteSurvivesReopen(k: string, v1: string, v2: string)
    ensures OffsetEngine.Get(Open([Command.Set(k, v1), Command.Set(k, v2)]), k) == Ok(Some(v2))
  {
    ReplayTwo(Command.Set(k, v1), Command.Set(k, v2));
    ReopenAnswers([Command.Set(k, v1), Command.Set(k, v2)], k);
  }

  /** After reopening any log, a `set` reads back the value it set. */
  lemma ReopenThenSetReadsBack(log: seq<Command>, k: string, v: string)
    ensures OffsetEngine.Get(OffsetEngine.Set(Open(log), k, v, true).0, k) == Ok(Some(v))
  {
    OffsetEngineLemmas.OpenSound(log);
    SetReadsBack(Open(log), k, v);
  }

  /** A key that was never set is not found, before and after reopening. */
  lemma MissingKeyNotFound(k: string, v: string, other: string)
    requires other != k
    ensures var st := OffsetEngine.Set(Open([]), k, v, true).0;
            && OffsetEngine.Get(st, other) == Err(KeyNotFoundError)
            && OffsetEngine.Get(Open(st.log), other) == Err(KeyNotFoundError)
  {
  }

  /** Removing a key from an empty store fails with `KeyNotFoundError`, yet still appends a `Remove` record. */
  lemma RemoveMissingKeyFails(k: string)
    ensures OffsetEngine.Remove(Open([]), k, true).1 == Err(KeyNotFoundError)
    ensures OffsetEngine.Remove(Open([]), k, true).0.log == [Command.Remove(k)]
  {
  }

  /** Removing a set key succeeds; afterwards it is not found, before and after reopening. */
  lemma RemovedKeyNotFound(k: string, v: string)
    ensures var st1 := OffsetEngine.Set(Open([]), k, v, true).0;
            && OffsetEngine.Remove(st1, k, true).1 == Ok(())
            && OffsetEngine.Get(OffsetEngine.Remove(st1, k, true).0, k) == Err(KeyNotFoundError)
            && OffsetEngine.Remove(st1, k, true).0.log == [Command.Set(k, v), Command.Remove(k)]
            && OffsetEngine.Get(Open([Command.Set(k, v), Command.Remove(k)]), k) == Err(KeyNotFoundError)
  {
    OpenEmpty();
    var log := [Command.Set(k, v), Command.Remove(k)];
    assert k !in ReplayEngine.Replay(log) by {
      ReplayTwo(Command.Set(k, v), Command.Remove(k));
    }
    ReopenAnswers(log, k);
  }

  /** Setting a and b, then removing a: a reads back before the removal and is not found after it. */
  lemma SetRemoveSession(a: string, b: string, va: string, vb: string)
    requires a != b
    ensures var st2 := OffsetEngine.Set(OffsetEngine.Set(Open([]), a, va, true).0, b, vb, true).0;
            && OffsetEngine.Get(st2, a) == Ok(Some(va))
            && OffsetEngine.Remove(st2, a, true).1 == Ok(())
            && OffsetEngine.Get(OffsetEngine.Remove(st2, a, true).0, a) == Err(KeyNotFoundError)
            && OffsetEngine.Remove(st2, a, true).0.log == [Command.Set(a, va), Command.Set(b, vb), Command.Remove(a)]
  {
  }

  /** Reopening the log that setting a and b and removing a leaves: b reads back and a is not found. */
  lemma SetRemoveReopen(a: string, b: string, va: string, vb: string)
    requires a != b
    ensures var log := [Command.Set(a, va), Command.Set(b, vb), Command.Remove(a)];
            && OffsetEngine.Get(Open(log), b) == Ok(Some(vb))
            && OffsetEngine.Get(Open(log), a) == Err(KeyNotFoundError)
  {
    var log := [Command.Set(a, va), Command.Set(b, vb), Command.Remove(a)];
    ReplayTwo(Command.Set(a, va), Command.Set(b, vb));
    ReplayEngine.ReplayAppend([Command.Set(a, va), Command.Set(b, vb)], Command.Remove(a));
    assert [Command.Set(a, va), Command.Set(b, vb)] + [Command.Remove(a)] == log;
    assert ReplayEngine.Replay(log) == map[b := vb];
    ReopenAnswers(log, a);
    ReopenAnswers(log, b);
  }
}
