/**
  The log file shared by both log-structured engines: a sequence of commands,
  each written as its compact JSON text followed by a newline.

  The JSON codec itself is not modelled: the log holds the commands, and a
  slice holding a record's JSON text, with at most a newline on either side,
  decodes to the command that was written.
  What the engines do depend on is the number of bytes each record takes,
  because that is what the offset index stores; `JsonLen` gives that number
  exactly as serde_json's compact writer produces it.
*/
module Log {
  import opened Errors

  /** One line of the log. The engines never write `Get`, but replay accepts it. */
  datatype Command = Set(key: string, value: string) | Get(key: string) | Remove(key: string)

  predicate IsSetOf(c: Command, k: string) {
    c.Set? && c.key == k
  }

  /** UTF-8 bytes serde_json writes for one character inside a string literal. */
  function EscapedCharLen(ch: char): (n: nat)
    ensures 1 <= n <= 6
    ensures n == 1 <==> 0x20 <= ch as int < 0x80 && ch != '"' && ch != '\\'
  {
    var code := ch as int;
    if ch == '"' || ch == '\\' then 2
    else if code == 0x08 || code == 0x09 || code == 0x0A || code == 0x0C || code == 0x0D then 2
    else if code < 0x20 then 6
    else if code < 0x80 then 1
    else if code < 0x800 then 2
    else if code < 0x1_0000 then 3
    else 4
  }

  /** UTF-8 bytes of a string literal's contents, quotes excluded. */
  function EscapedLen(s: string): (n: nat)
    ensures n >= |s|
  {
    if |s| == 0 then 0 else EscapedCharLen(s[0]) + EscapedLen(s[1..])
  }

  /** A string of characters written as themselves takes one byte per character. */
  lemma {:induction false} EscapedLenPlain(s: string)
    requires forall i :: 0 <= i < |s| ==> EscapedCharLen(s[i]) == 1
    ensures EscapedLen(s) == |s|
    decreases |s|
  {
    if |s| > 0 {
      assert forall i :: 0 <= i < |s[1..]| ==> s[1..][i] == s[i + 1];
      EscapedLenPlain(s[1..]);
    }
  }

  /**
    Length of `serde_json::to_string(&c)`: the externally tagged form
    {"Set":{"key":K,"value":V}}, {"Get":{"key":K}}, {"Remove":{"key":K}}.
  */
  function JsonLen(c: Command): (n: nat)
    ensures n >= 18 + |c.key|
    ensures c.Set? ==> n >= 29 + |c.key| + |c.value|
    ensures c.Remove? ==> n >= 21 + |c.key|
  {
    match c
    case Set(k, v) => 29 + EscapedLen(k) + EscapedLen(v)
    case Get(k) => 18 + EscapedLen(k)
    case Remove(k) => 21 + EscapedLen(k)
  }

  /** `get_byte_length`: the bytes one record takes in the file, its newline included. */
  function ByteLength(c: Command): (n: nat)
    ensures n == JsonLen(c) + 1
    ensures c.Set? ==> n >= 30
    ensures c.Remove? ==> n >= 22
  {
    JsonLen(c) + 1
  }

  /** Size of the log file in bytes. */
  function LogBytes(log: seq<Command>): nat {
    if |log| == 0 then 0 else ByteLength(log[0]) + LogBytes(log[1..])
  }

  /** Byte offset at which record `i` starts: the size of every record before it. */
  function Offset(log: seq<Command>, i: nat): nat
    requires i <= |log|
  {
    LogBytes(log[..i])
  }

  /** The record that starts exactly at byte `start`, if one does. */
  function RecordAt(log: seq<Command>, start: nat): Option<Command> {
    if |log| == 0 then None
    else if start == 0 then Some(log[0])
    else if start < ByteLength(log[0]) then None
    else RecordAt(log[1..], start - ByteLength(log[0]))
  }

  lemma {:induction false} LogBytesConcat(a: seq<Command>, b: seq<Command>)
    ensures LogBytes(a + b) == LogBytes(a) + LogBytes(b)
    decreases |a|
  {
    if |a| > 0 {
      assert (a + b)[1..] == a[1..] + b;
      LogBytesConcat(a[1..], b);
    } else {
      assert a + b == b;
    }
  }

  /** Appending a record grows the file by exactly that record's length. */
  lemma LogBytesAppend(log: seq<Command>, c: Command)
    ensures LogBytes(log + [c]) == LogBytes(log) + ByteLength(c)
  {
    LogBytesConcat(log, [c]);
    assert [c][1..] == [];
  }

  /** Offsets are contiguous: record `i` ends where record `i + 1` starts, inside the file. */
  lemma {:induction false} OffsetNext(log: seq<Command>, i: nat)
    requires i < |log|
    ensures Offset(log, i + 1) == Offset(log, i) + ByteLength(log[i])
    ensures Offset(log, i + 1) <= LogBytes(log)
    decreases i
  {
    var tail := log[1..];
    assert LogBytes(log) == ByteLength(log[0]) + LogBytes(tail);
    assert log[..i + 1][1..] == tail[..i];
    assert LogBytes(log[..i + 1]) == ByteLength(log[0]) + LogBytes(tail[..i]);
    if i > 0 {
      assert log[..i][1..] == tail[..i - 1];
      assert LogBytes(log[..i]) == ByteLength(log[0]) + LogBytes(tail[..i - 1]);
      OffsetNext(tail, i - 1);
    } else {
      assert tail[..0] == [];
    }
  }

  /** An offset into a prefix is unchanged by anything appended later. */
  lemma OffsetPrefix(log: seq<Command>, more: seq<Command>, i: nat)
    requires i <= |log|
    ensures Offset(log + more, i) == Offset(log, i)
  {
    assert (log + more)[..i] == log[..i];
  }

  /** Reading at the offset of record `i` finds record `i`. */
  lemma {:induction false} RecordAtOffset(log: seq<Command>, i: nat)
    requires i < |log|
    ensures RecordAt(log, Offset(log, i)) == Some(log[i])
    decreases i
  {
    if i > 0 {
      assert log[..i] == [log[0]] + log[1..][..i - 1];
      assert LogBytes(log[..i]) == ByteLength(log[0]) + LogBytes(log[1..][..i - 1]);
      RecordAtOffset(log[1..], i - 1);
    } else {
      assert log[..0] == [];
    }
  }

  /** No record starts strictly inside record `i`. */
  lemma {:induction false} RecordAtInside(log: seq<Command>, i: nat, start: nat)
    requires i < |log| && Offset(log, i) < start < Offset(log, i) + ByteLength(log[i])
    ensures RecordAt(log, start) == None
    decreases i
  {
    if i > 0 {
      assert log[..i] == [log[0]] + log[1..][..i - 1];
      assert LogBytes(log[..i]) == ByteLength(log[0]) + LogBytes(log[1..][..i - 1]);
      RecordAtInside(log[1..], i - 1, start - ByteLength(log[0]));
    } else {
      assert log[..0] == [];
    }
  }

  /** Appending a record does not change what is found inside the old file, and puts the new record at its end. */
  lemma {:induction false} RecordAtAppend(log: seq<Command>, c: Command, start: nat)
    ensures start < LogBytes(log) ==> RecordAt(log + [c], start) == RecordAt(log, start)
    ensures RecordAt(log + [c], LogBytes(log)) == Some(c)
    decreases |log|
  {
    if |log| > 0 {
      assert (log + [c])[1..] == log[1..] + [c];
      if start >= ByteLength(log[0]) {
        RecordAtAppend(log[1..], c, start - ByteLength(log[0]));
      }
      RecordAtAppend(log[1..], c, LogBytes(log[1..]));
    } else {
      assert (log + [c])[1..] == [];
    }
  }
}
