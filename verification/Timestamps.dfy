/** Timestamp insertion into a log that arrives in chunks (internal/agent/executor/logs.go). */
module Timestamps {

  // ---------- what the code does to one chunk ----------

  function CountNewlines(s: string): nat {
    if s == [] then 0 else (if s[0] == '\n' then 1 else 0) + CountNewlines(s[1..])
  }

  predicate EndsWithNewline(s: string) {
    s != [] && s[|s| - 1] == '\n'
  }

  /** bytes.Replace of the first n newlines by newline and prefix; a negative n means all of them. */
  function ReplaceNewlines(s: string, prefix: string, n: int): string {
    if s == [] then []
    else if s[0] == '\n' && n != 0 then
      ['\n'] + prefix + ReplaceNewlines(s[1..], prefix, if n < 0 then n else n - 1)
    else [s[0]] + ReplaceNewlines(s[1..], prefix, n)
  }

  /** How many newlines of a chunk are followed by a timestamp right away. */
  function NumTimestamps(s: string): int {
    CountNewlines(s) - if EndsWithNewline(s) then 1 else 0
  }

  function ChunkOutput(owe: bool, input: string, prefix: string): string {
    (if owe then prefix else []) + ReplaceNewlines(input, prefix, NumTimestamps(input))
  }

  /** Whether a timestamp is owed after the chunk. */
  predicate OweAfter(input: string) {
    EndsWithNewline(input)
  }

  // ---------- the reference: a machine that reads one byte at a time ----------

  /** A byte of the log with the timestamp of the chunk it arrives in. */
  datatype Stamped = Stamped(c: char, prefix: string)

  /** Emits a byte's timestamp before it exactly if it is the first byte of a line. */
  function Stamp(lineStart: bool, log: seq<Stamped>): string
    decreases |log|
  {
    if log == [] then []
    else (if lineStart then log[0].prefix else []) + ([log[0].c] + Stamp(log[0].c == '\n', log[1..]))
  }

  function Tag(input: string, prefix: string): (log: seq<Stamped>)
    ensures |log| == |input| && forall i :: 0 <= i < |input| ==> log[i] == Stamped(input[i], prefix)
  {
    seq(|input|, i requires 0 <= i < |input| => Stamped(input[i], prefix))
  }

  lemma {:induction false} NumTimestampsNonNegative(s: string)
    ensures NumTimestamps(s) >= 0
  {
    if |s| > 1 {
      NumTimestampsNonNegative(s[1..]);
      assert EndsWithNewline(s) == EndsWithNewline(s[1..]);
    }
  }

  lemma StampHead(log: seq<Stamped>)
    requires log != []
    ensures Stamp(true, log) == log[0].prefix + Stamp(false, log)
    ensures Stamp(false, log) == [log[0].c] + Stamp(log[0].c == '\n', log[1..])
  {
    assert Stamp(false, log) == [] + ([log[0].c] + Stamp(log[0].c == '\n', log[1..]));
  }

  lemma NumTimestampsTail(s: string)
    requires |s| > 1
    ensures NumTimestamps(s) == NumTimestamps(s[1..]) + if s[0] == '\n' then 1 else 0
    ensures NumTimestamps(s) >= NumTimestamps(s[1..]) >= 0
  {
    assert EndsWithNewline(s) == EndsWithNewline(s[1..]);
    NumTimestampsNonNegative(s[1..]);
  }

  lemma TagTail(s: string, prefix: string)
    requires s != []
    ensures Tag(s, prefix)[0] == Stamped(s[0], prefix)
    ensures Tag(s, prefix)[1..] == Tag(s[1..], prefix)
  {
  }

  lemma {:induction false} ReplaceIsStamp(s: string, prefix: string)
    requires s != []
    ensures ReplaceNewlines(s, prefix, NumTimestamps(s)) == Stamp(false, Tag(s, prefix))
  {
    StampHead(Tag(s, prefix));
    TagTail(s, prefix);
    if |s| == 1 {
      assert s[1..] == [] && Tag(s[1..], prefix) == [];
      assert CountNewlines(s[1..]) == 0 && NumTimestamps(s) == 0;
      assert ReplaceNewlines(s, prefix, 0) == [s[0]] + ReplaceNewlines(s[1..], prefix, 0);
    } else {
      NumTimestampsTail(s);
      ReplaceIsStamp(s[1..], prefix);
      if s[0] == '\n' {
        ReplaceHead(s, prefix, NumTimestamps(s));
        StampHead(Tag(s[1..], prefix));
      }
    }
  }

  lemma ReplaceHead(s: string, prefix: string, n: int)
    requires s != [] && s[0] == '\n' && n > 0
    ensures ReplaceNewlines(s, prefix, n) == ['\n'] + (prefix + ReplaceNewlines(s[1..], prefix, n - 1))
  {
    var rest := ReplaceNewlines(s[1..], prefix, n - 1);
    assert ['\n'] + prefix + rest == ['\n'] + (prefix + rest);
  }

  /** One non-empty chunk comes out as the byte machine would write it. */
  lemma ChunkIsStamp(owe: bool, input: string, prefix: string)
    requires input != []
    ensures ChunkOutput(owe, input, prefix) == Stamp(owe, Tag(input, prefix))
  {
    ReplaceIsStamp(input, prefix);
    StampHead(Tag(input, prefix));
  }

  /** An empty chunk would come out right exactly when no timestamp is owed or the timestamp is empty. */
  lemma EmptyChunk(owe: bool, prefix: string)
    ensures ChunkOutput(owe, [], prefix) == Stamp(owe, Tag([], prefix)) <==> !owe || prefix == []
  {
  }

  predicate LineStartAfter(lineStart: bool, log: seq<Stamped>) {
    if log == [] then lineStart else log[|log| - 1].c == '\n'
  }

  lemma {:induction false} StampConcat(lineStart: bool, a: seq<Stamped>, b: seq<Stamped>)
    ensures Stamp(lineStart, a + b) == Stamp(lineStart, a) + Stamp(LineStartAfter(lineStart, a), b)
    decreases |a|
  {
    if a == [] {
      assert a + b == b;
    } else {
      var next := a[0].c == '\n';
      assert (a + b)[0] == a[0] && (a + b)[1..] == a[1..] + b;
      StampConcat(next, a[1..], b);
      Regroup(if lineStart then a[0].prefix else [], [a[0].c], Stamp(next, a[1..]),
              Stamp(LineStartAfter(next, a[1..]), b));
    }
  }

  lemma Regroup(a: string, b: string, c: string, d: string)
    ensures a + (b + (c + d)) == (a + (b + c)) + d
  {
    assert b + (c + d) == (b + c) + d;
  }

  // ---------- whole logs ----------

  datatype Chunk = Chunk(bytes: string, prefix: string)

  ghost predicate NonEmptyChunks(chunks: seq<Chunk>) {
    forall i :: 0 <= i < |chunks| ==> chunks[i].bytes != []
  }

  /** The concatenated outputs for a sequence of chunks. */
  function Outputs(owe: bool, chunks: seq<Chunk>): string
    decreases |chunks|
  {
    if chunks == [] then []
    else ChunkOutput(owe, chunks[0].bytes, chunks[0].prefix) + Outputs(OweAfter(chunks[0].bytes), chunks[1..])
  }

  function Flatten(chunks: seq<Chunk>): seq<Stamped> {
    if chunks == [] then [] else Tag(chunks[0].bytes, chunks[0].prefix) + Flatten(chunks[1..])
  }

  /** Writing chunk by chunk equals the byte machine over the whole log, wherever the log is split. */
  lemma {:induction false} OutputsAreStamped(owe: bool, chunks: seq<Chunk>)
    requires NonEmptyChunks(chunks)
    ensures Outputs(owe, chunks) == Stamp(owe, Flatten(chunks))
    decreases |chunks|
  {
    if chunks != [] {
      ChunkIsStamp(owe, chunks[0].bytes, chunks[0].prefix);
      OutputsAreStamped(OweAfter(chunks[0].bytes), chunks[1..]);
      StampConcat(owe, Tag(chunks[0].bytes, chunks[0].prefix), Flatten(chunks[1..]));
    }
  }

  function BytesOf(chunks: seq<Chunk>): string {
    if chunks == [] then [] else chunks[0].bytes + BytesOf(chunks[1..])
  }

  lemma {:induction false} FlattenFixedClock(chunks: seq<Chunk>, prefix: string)
    requires forall i :: 0 <= i < |chunks| ==> chunks[i].prefix == prefix
    ensures Flatten(chunks) == Tag(BytesOf(chunks), prefix)
  {
    if chunks != [] {
      FlattenFixedClock(chunks[1..], prefix);
    }
  }

  /** With a fixed clock the output depends on the bytes of the log only, not on the chunks. */
  lemma {:induction false} ChunkingDoesNotMatter(a: seq<Chunk>, b: seq<Chunk>, prefix: string)
    requires NonEmptyChunks(a) && NonEmptyChunks(b) && BytesOf(a) == BytesOf(b)
    requires forall i :: 0 <= i < |a| ==> a[i].prefix == prefix
    requires forall i :: 0 <= i < |b| ==> b[i].prefix == prefix
    ensures Outputs(true, a) == Outputs(true, b)
  {
    OutputsAreStamped(true, a);
    OutputsAreStamped(true, b);
    FlattenFixedClock(a, prefix);
    FlattenFixedClock(b, prefix);
  }

  // ---------- nothing of the log is lost ----------

  /** Removes `width` characters at the start of every line. */
  function Unstamp(lineStart: bool, text: string, width: nat): string
    decreases |text|, lineStart
  {
    if text == [] then []
    else if lineStart then (if |text| < width then [] else Unstamp(false, text[width..], width))
    else [text[0]] + Unstamp(text[0] == '\n', text[1..], width)
  }

  function Bytes(log: seq<Stamped>): (s: string)
    ensures |s| == |log| && forall i :: 0 <= i < |log| ==> s[i] == log[i].c
  {
    seq(|log|, i requires 0 <= i < |log| => log[i].c)
  }

  /** Stripping the timestamps gives the log back. */
  lemma {:induction false} UnstampStamp(lineStart: bool, log: seq<Stamped>, width: nat)
    requires forall i :: 0 <= i < |log| ==> |log[i].prefix| == width
    ensures Unstamp(lineStart, Stamp(lineStart, log), width) == Bytes(log)
    decreases |log|
  {
    if log != [] {
      var rest := Stamp(log[0].c == '\n', log[1..]);
      UnstampStamp(log[0].c == '\n', log[1..], width);
      assert Bytes(log) == [log[0].c] + Bytes(log[1..]);
      assert ([log[0].c] + rest)[1..] == rest;
      if lineStart {
        var text := log[0].prefix + ([log[0].c] + rest);
        assert text[width..] == [log[0].c] + rest;
      } else {
        assert Stamp(false, log) == [log[0].c] + rest;
      }
    }
  }
}
