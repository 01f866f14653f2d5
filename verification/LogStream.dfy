/**
 The log pipeline (internal/agent/executor/logs.go): writers stamp chunks and send them over a
 channel, a reader collects them into batches, and Finalize closes the channel. Writers, reader
 and Finalize take steps in any interleaving; a step that the state does not allow has no effect.
 */
module LogStream {
  import opened Common
  import opened Timestamps

  const MAX_BYTES_PER_INVOCATION: nat := 1024 * 1024
  const CHANNEL_CAPACITY: nat := 128

  datatype Setup = Setup(timestamps: bool, mask: string -> string)

  /** A chunk as its writer prepared it: the how manyth, and whether it owed a timestamp to the first byte. */
  datatype Prepared = Prepared(index: nat, chunk: Chunk, owed: bool)

  datatype Reader =
    | Waiting                                       // before the blocking receive
    | Collecting(result: string)                    // inside the select loop
    | Returning(batch: string, finished: bool)      // ReadAvailableChunks has returned
    | Stopped                                       // StreamLogs has left its loop

  datatype State = State(
    owe: bool,                        // OweTimestamp
    prepared: seq<Prepared>,          // all chunks ever stamped, in that order
    ready: map<int, Prepared>,        // writers that have stamped a chunk but do not hold the read lock yet
    writers: map<int, Prepared>,      // writers that hold the read lock, with the chunk they are about to send
    queue: seq<string>,               // logsChannel
    closed: bool,
    reader: Reader,
    accepted: seq<Prepared>,          // all chunks ever sent, in channel order
    batches: seq<string>,             // all batches handed to WriteChunk
    storedOutput: string,
    delivered: seq<string>,           // masked batches that reached the server
    erroredChunks: nat,
    panicked: bool,                   // a send on the closed channel
    reclosed: bool)                   // a close of the closed channel

  const INITIAL: State := State(true, [], map[], map[], [], false, Waiting, [], [], "", [], 0, false, false)

  datatype Step =
    | Prepare(w: int, chunk: Chunk)   // Write stamps its bytes
    | Enter(w: int)                   // Write takes the read lock and looks at `closed`
    | Send(w: int)                    // Write sends and releases the lock
    | Finalize                        // takes the write lock, closes the channel
    | Receive                         // the reader's next receive, blocking or selected
    | Default                         // the select finds nothing to receive
    | WriteChunk(sent: bool)          // the batch is masked, stored and sent

  /** What is sent for a prepared chunk. */
  function Text(setup: Setup, p: Prepared): string {
    if setup.timestamps then ChunkOutput(p.owed, p.chunk.bytes, p.chunk.prefix) else p.chunk.bytes
  }

  function Texts(setup: Setup, prepared: seq<Prepared>): (texts: seq<string>)
    ensures |texts| == |prepared| && forall i :: 0 <= i < |texts| ==> texts[i] == Text(setup, prepared[i])
  {
    seq(|prepared|, i requires 0 <= i < |prepared| => Text(setup, prepared[i]))
  }

  /** What writers and Finalize leave alone: they touch nothing of the reader. */
  predicate SameReader(s: State, s': State) {
    && s'.reader == s.reader && s'.batches == s.batches && s'.storedOutput == s.storedOutput
    && s'.delivered == s.delivered && s'.erroredChunks == s.erroredChunks
  }

  function DoPrepare(setup: Setup, s: State, w: int, chunk: Chunk): (s': State)
    ensures SameReader(s, s') && s'.queue == s.queue && s'.accepted == s.accepted && s'.closed == s.closed
  {
    if chunk.bytes == "" || w in s.ready || w in s.writers then s
    else
      var p := Prepared(|s.prepared|, chunk, s.owe);
      s.(prepared := s.prepared + [p], ready := s.ready[w := p],
         owe := if setup.timestamps then OweAfter(chunk.bytes) else s.owe)
  }

  function DoEnter(s: State, w: int): (s': State)
    ensures SameReader(s, s') && s'.prepared == s.prepared && s'.queue == s.queue && s'.accepted == s.accepted
  {
    if w !in s.ready || w in s.writers then s
    else if s.closed then s.(ready := s.ready - {w})
    else s.(ready := s.ready - {w}, writers := s.writers[w := s.ready[w]])
  }

  function DoSend(setup: Setup, s: State, w: int): (s': State)
    ensures SameReader(s, s') && s'.prepared == s.prepared
  {
    if w !in s.writers then s
    else if s.closed then s.(panicked := true)
    else if |s.queue| >= CHANNEL_CAPACITY then s
    else
      var p := s.writers[w];
      s.(queue := s.queue + [Text(setup, p)], accepted := s.accepted + [p], writers := s.writers - {w})
  }

  /** What reader and Finalize leave alone: they touch nothing of the writers. */
  predicate SameWriters(s: State, s': State) {
    && s'.owe == s.owe && s'.prepared == s.prepared && s'.accepted == s.accepted
    && s'.ready == s.ready && s'.writers == s.writers
  }

  function DoFinalize(s: State): (s': State)
    ensures SameWriters(s, s') && SameReader(s, s') && s'.queue == s.queue
  {
    if s.writers != map[] then s
    else if s.closed then s.(reclosed := true)
    else s.(closed := true)
  }

  function DoReceive(s: State): (s': State)
    ensures s'.batches == s.batches && s'.storedOutput == s.storedOutput
    ensures s'.delivered == s.delivered && s'.erroredChunks == s.erroredChunks
    ensures s'.closed == s.closed
    ensures SameWriters(s, s') && (s'.queue == s.queue || (s.queue != [] && s'.queue == s.queue[1..]))
  {
    match s.reader
    case Waiting =>
      if s.queue != [] then s.(reader := Collecting(s.queue[0]), queue := s.queue[1..])
      else if s.closed then s.(reader := Collecting(""))
      else s
    case Collecting(result) =>
      if s.queue != [] then
        var more := result + s.queue[0];
        s.(reader := if |more| > MAX_BYTES_PER_INVOCATION then Returning(more, false) else Collecting(more),
           queue := s.queue[1..])
      else if s.closed then s.(reader := Returning(result, true))
      else s
    case _ => s
  }

  function DoDefault(s: State): (s': State)
    ensures s'.batches == s.batches && s'.storedOutput == s.storedOutput
    ensures s'.delivered == s.delivered && s'.erroredChunks == s.erroredChunks
    ensures SameWriters(s, s') && s'.queue == s.queue
  {
    if s.reader.Collecting? && s.queue == [] && !s.closed then s.(reader := Returning(s.reader.result, false)) else s
  }

  /** The reader is rid of its batch. */
  function HandOver(s: State): (s': State)
    requires s.reader.Returning?
    ensures SameWriters(s, s') && s'.queue == s.queue && s'.closed == s.closed
  {
    s.(reader := if s.reader.finished then Stopped else Waiting, batches := s.batches + [s.reader.batch])
  }

  function DoWriteChunk(setup: Setup, s: State, sent: bool): (s': State)
    ensures SameWriters(s, s') && s'.queue == s.queue && s'.closed == s.closed
    ensures s.reader.Returning? ==>
      s'.batches == s.batches + [s.reader.batch] && s'.reader == if s.reader.finished then Stopped else Waiting
    ensures !s.reader.Returning? ==> s' == s
  {
    if !s.reader.Returning? then s
    else if s.reader.batch == "" then HandOver(s)
    else
      var masked := setup.mask(s.reader.batch);
      if sent then HandOver(s).(storedOutput := s.storedOutput + masked, delivered := s.delivered + [masked])
      else HandOver(s).(storedOutput := s.storedOutput + masked, erroredChunks := s.erroredChunks + 1)
  }

  function Do(setup: Setup, s: State, step: Step): State {
    match step
    case Prepare(w, chunk) => DoPrepare(setup, s, w, chunk)
    case Enter(w) => DoEnter(s, w)
    case Send(w) => DoSend(setup, s, w)
    case Finalize => DoFinalize(s)
    case Receive => DoReceive(s)
    case Default => DoDefault(s)
    case WriteChunk(sent) => DoWriteChunk(setup, s, sent)
  }

  function Replay(setup: Setup, steps: seq<Step>): State {
    if steps == [] then INITIAL else Do(setup, Replay(setup, steps[..|steps| - 1]), steps[|steps| - 1])
  }

  lemma ReplaySnoc(setup: Setup, steps: seq<Step>, step: Step)
    ensures Replay(setup, steps + [step]) == Do(setup, Replay(setup, steps), step)
  {
    assert (steps + [step])[..|steps|] == steps;
  }

  // ---------- invariants ----------

  /** What the reader holds but has not handed on. */
  function InFlight(r: Reader): string {
    match r
    case Waiting => ""
    case Collecting(result) => result
    case Returning(batch, _) => batch
    case Stopped => ""
  }

  /** The masked, non-empty batches. */
  function Masked(mask: string -> string, batches: seq<string>): string {
    if batches == [] then ""
    else
      var last := batches[|batches| - 1];
      Masked(mask, batches[..|batches| - 1]) + (if last == "" then "" else mask(last))
  }

  function NonEmptyCount(batches: seq<string>): nat {
    if batches == [] then 0
    else NonEmptyCount(batches[..|batches| - 1]) + (if batches[|batches| - 1] == "" then 0 else 1)
  }

  /** Every accepted byte is in a batch, with the reader or in the channel, in order. */
  ghost predicate Conserved(setup: Setup, s: State) {
    Concat(s.batches) + InFlight(s.reader) + Concat(s.queue) == Concat(Texts(setup, s.accepted))
  }

  /**
   The reader finishes only after the channel was closed and drained, and the lock keeps senders
   out of a closed channel.
   */
  ghost predicate Orderly(s: State) {
    && (s.reader.Stopped? || (s.reader.Returning? && s.reader.finished) ==> s.closed && s.queue == [])
    && (s.closed ==> s.writers == map[])
    && !s.panicked
    && |s.queue| <= CHANNEL_CAPACITY
  }

  /** Everything handed on is stored, whether or not it could be sent. */
  ghost predicate StoredAll(setup: Setup, s: State) {
    && s.storedOutput == Masked(setup.mask, s.batches)
    && |s.delivered| + s.erroredChunks == NonEmptyCount(s.batches)
  }

  /** A timestamp is owed to the first byte ever, and to the first byte after a newline. */
  predicate OwedAt(chunks: seq<Prepared>, i: nat)
    requires i <= |chunks|
  {
    i == 0 || OweAfter(chunks[i - 1].chunk.bytes)
  }

  /** Prepared chunks are numbered and non-empty, and each was stamped as its predecessor in this order asks for. */
  ghost predicate Chained(setup: Setup, s: State) {
    && (forall i :: 0 <= i < |s.prepared| ==> s.prepared[i].index == i && s.prepared[i].chunk.bytes != "")
    && (setup.timestamps ==> forall i :: 0 <= i < |s.prepared| ==> s.prepared[i].owed == OwedAt(s.prepared, i))
    && (setup.timestamps ==> s.owe == OwedAt(s.prepared, |s.prepared|))
  }

  ghost predicate Genuine(s: State, p: Prepared) {
    p.index < |s.prepared| && s.prepared[p.index] == p
  }

  /** Whatever a writer holds or has sent was prepared. */
  ghost predicate Traced(s: State) {
    && (forall w :: w in s.ready ==> Genuine(s, s.ready[w]))
    && (forall w :: w in s.writers ==> Genuine(s, s.writers[w]))
    && (forall j :: 0 <= j < |s.accepted| ==> Genuine(s, s.accepted[j]))
  }

  ghost predicate NothingEmpty(s: State) {
    forall i :: 0 <= i < |s.queue| ==> s.queue[i] != ""
  }

  ghost predicate Inv(setup: Setup, s: State) {
    && Conserved(setup, s) && Orderly(s) && StoredAll(setup, s)
    && Chained(setup, s) && Traced(s) && NothingEmpty(s)
  }

  lemma {:induction false} ConcatSnoc(parts: seq<string>, x: string)
    ensures Concat(parts + [x]) == Concat(parts) + x
  {
    ConcatAppend(parts, [x]);
    assert Concat([x]) == x;
  }

  lemma {:induction false} ConservedSend(setup: Setup, s: State, w: int)
    requires Conserved(setup, s)
    ensures Conserved(setup, DoSend(setup, s, w))
  {
    var s' := DoSend(setup, s, w);
    if s'.accepted != s.accepted {
      var p := s.writers[w];
      SentAppends(setup, s.accepted, s.queue, p, Concat(s.batches) + InFlight(s.reader));
    }
  }

  lemma TextsSnoc(setup: Setup, accepted: seq<Prepared>, p: Prepared)
    ensures Texts(setup, accepted + [p]) == Texts(setup, accepted) + [Text(setup, p)]
  {
  }

  lemma AppendRight(front: string, queue: string, all: string, text: string)
    requires front + queue == all
    ensures front + (queue + text) == all + text
  {
    assert front + (queue + text) == front + queue + text;
  }

  lemma {:induction false} SentAppends(
    setup: Setup, accepted: seq<Prepared>, queue: seq<string>, p: Prepared, front: string)
    requires front + Concat(queue) == Concat(Texts(setup, accepted))
    ensures front + Concat(queue + [Text(setup, p)]) == Concat(Texts(setup, accepted + [p]))
  {
    ConcatSnoc(queue, Text(setup, p));
    ConcatSnoc(Texts(setup, accepted), Text(setup, p));
    TextsSnoc(setup, accepted, p);
    AppendRight(front, Concat(queue), Concat(Texts(setup, accepted)), Text(setup, p));
  }

  lemma Regroup(a: string, b: string, c: string, d: string)
    ensures a + b + (c + d) == a + (b + c) + d
  {
  }

  lemma ConservedReceive(setup: Setup, s: State)
    requires Conserved(setup, s)
    ensures Conserved(setup, DoReceive(s))
  {
    if s.queue != [] && (s.reader.Waiting? || s.reader.Collecting?) {
      var result, chunk, rest := InFlight(s.reader), s.queue[0], s.queue[1..];
      assert Concat(s.queue) == chunk + Concat(rest);
      assert InFlight(DoReceive(s).reader) == result + chunk;
      Regroup(Concat(s.batches), result, chunk, Concat(rest));
    }
  }

  lemma {:induction false} ConservedWriteChunk(setup: Setup, s: State, sent: bool)
    requires Conserved(setup, s)
    ensures Conserved(setup, DoWriteChunk(setup, s, sent))
  {
    if s.reader.Returning? {
      ConcatSnoc(s.batches, s.reader.batch);
      HandedOver(Concat(s.batches), s.reader.batch, Concat(s.queue));
    }
  }

  lemma HandedOver(done: string, batch: string, queue: string)
    ensures done + batch + "" + queue == done + batch + queue
  {
  }

  lemma ConservedStep(setup: Setup, s: State, step: Step)
    requires Conserved(setup, s)
    ensures Conserved(setup, Do(setup, s, step))
  {
    match step
    case Send(w) => ConservedSend(setup, s, w);
    case Receive => ConservedReceive(setup, s);
    case WriteChunk(sent) => ConservedWriteChunk(setup, s, sent);
    case _ =>
  }

  lemma OrderlyStep(setup: Setup, s: State, step: Step)
    requires Orderly(s)
    ensures Orderly(Do(setup, s, step))
  {
  }

  lemma MaskedSnoc(mask: string -> string, batches: seq<string>, batch: string)
    ensures Masked(mask, batches + [batch]) == Masked(mask, batches) + if batch == "" then "" else mask(batch)
    ensures NonEmptyCount(batches + [batch]) == NonEmptyCount(batches) + if batch == "" then 0 else 1
  {
    assert (batches + [batch])[..|batches|] == batches;
  }

  lemma StoredWriteChunk(setup: Setup, s: State, sent: bool)
    requires StoredAll(setup, s)
    ensures StoredAll(setup, DoWriteChunk(setup, s, sent))
  {
    if s.reader.Returning? {
      MaskedSnoc(setup.mask, s.batches, s.reader.batch);
    }
  }

  lemma StoredStep(setup: Setup, s: State, step: Step)
    requires StoredAll(setup, s)
    ensures StoredAll(setup, Do(setup, s, step))
  {
    if step.WriteChunk? {
      StoredWriteChunk(setup, s, step.sent);
    }
  }

  lemma ChainedPrepare(setup: Setup, s: State, w: int, chunk: Chunk)
    requires Chained(setup, s)
    ensures Chained(setup, DoPrepare(setup, s, w, chunk))
  {
    var p := Prepared(|s.prepared|, chunk, s.owe);
    forall i | 0 <= i <= |s.prepared| ensures OwedAt(s.prepared + [p], i) == OwedAt(s.prepared, i) {
      assert i > 0 ==> (s.prepared + [p])[i - 1] == s.prepared[i - 1];
    }
  }

  lemma ChainedStep(setup: Setup, s: State, step: Step)
    requires Chained(setup, s)
    ensures Chained(setup, Do(setup, s, step))
  {
    if step.Prepare? {
      ChainedPrepare(setup, s, step.w, step.chunk);
    } else {
      var s' := Do(setup, s, step);
      assert s'.prepared == s.prepared && s'.owe == s.owe;
    }
  }

  lemma TracedPrepare(setup: Setup, s: State, w: int, chunk: Chunk)
    requires Traced(s)
    ensures Traced(DoPrepare(setup, s, w, chunk))
  {
    var s' := DoPrepare(setup, s, w, chunk);
    forall p: Prepared | Genuine(s, p) ensures Genuine(s', p) {}
  }

  lemma TracedSend(setup: Setup, s: State, w: int)
    requires Traced(s)
    ensures Traced(DoSend(setup, s, w))
  {
    var s' := DoSend(setup, s, w);
    forall p: Prepared | Genuine(s, p) ensures Genuine(s', p) {}
  }

  lemma TracedStep(setup: Setup, s: State, step: Step)
    requires Traced(s)
    ensures Traced(Do(setup, s, step))
  {
    match step
    case Prepare(w, chunk) => TracedPrepare(setup, s, w, chunk);
    case Enter(w) => TracedEnter(s, w);
    case Send(w) => TracedSend(setup, s, w);
    case Finalize => TracedSame(s, DoFinalize(s));
    case Receive => TracedSame(s, DoReceive(s));
    case Default => TracedSame(s, DoDefault(s));
    case WriteChunk(sent) => TracedSame(s, DoWriteChunk(setup, s, sent));
  }

  lemma TracedSame(s: State, s': State)
    requires Traced(s)
    requires SameWriters(s, s')
    ensures Traced(s')
  {
    forall p: Prepared | Genuine(s, p) ensures Genuine(s', p) {}
  }

  lemma TracedEnter(s: State, w: int)
    requires Traced(s)
    ensures Traced(DoEnter(s, w))
  {
    var s' := DoEnter(s, w);
    forall p: Prepared | Genuine(s, p) ensures Genuine(s', p) {}
  }

  lemma NothingEmptyStep(setup: Setup, s: State, step: Step)
    requires NothingEmpty(s) && Chained(setup, s) && Traced(s)
    ensures NothingEmpty(Do(setup, s, step))
  {
    if step.Send? && step.w in s.writers {
      assert Genuine(s, s.writers[step.w]);
      assert Text(setup, s.writers[step.w]) != "";
    }
  }

  /** Every step keeps conservation, orderly shutdown, complete storage and the order of stamping. */
  lemma InvStep(setup: Setup, s: State, step: Step)
    requires Inv(setup, s)
    ensures Inv(setup, Do(setup, s, step))
  {
    ConservedStep(setup, s, step);
    OrderlyStep(setup, s, step);
    StoredStep(setup, s, step);
    ChainedStep(setup, s, step);
    TracedStep(setup, s, step);
    NothingEmptyStep(setup, s, step);
  }

  /** All that holds in every interleaving. */
  lemma {:induction false} RunInvariant(setup: Setup, steps: seq<Step>)
    ensures Inv(setup, Replay(setup, steps))
  {
    if steps != [] {
      RunInvariant(setup, steps[..|steps| - 1]);
      InvStep(setup, Replay(setup, steps[..|steps| - 1]), steps[|steps| - 1]);
    }
  }

  /** When the reader has stopped, the batches are the accepted chunks, all of them and in order. */
  lemma NothingIsLost(setup: Setup, steps: seq<Step>)
    requires Replay(setup, steps).reader.Stopped?
    ensures
      var s := Replay(setup, steps);
      s.closed && s.queue == [] && s.writers == map[] && Concat(s.batches) == Concat(Texts(setup, s.accepted))
  {
    RunInvariant(setup, steps);
  }

  /** A writer never sends on the closed channel. */
  lemma NoSendOnClosed(setup: Setup, steps: seq<Step>, w: int)
    ensures !Replay(setup, steps).panicked && |Replay(setup, steps).queue| <= 128
    ensures w in Replay(setup, steps).writers ==> !Replay(setup, steps).closed
  {
    RunInvariant(setup, steps);
  }

  /** Whether each batch handed on could be sent, in order. */
  function Sends(setup: Setup, steps: seq<Step>): seq<bool> {
    if steps == [] then []
    else
      var init, last := steps[..|steps| - 1], steps[|steps| - 1];
      if last.WriteChunk? && Replay(setup, init).reader.Returning? then Sends(setup, init) + [last.sent]
      else Sends(setup, init)
  }

  /** The masked batches, those that are not empty and were sent. */
  function SentBatches(mask: string -> string, batches: seq<string>, sends: seq<bool>): seq<string>
    requires |sends| == |batches|
  {
    if batches == [] then []
    else
      var n := |batches| - 1;
      var before := SentBatches(mask, batches[..n], sends[..n]);
      if batches[n] != "" && sends[n] then before + [mask(batches[n])] else before
  }

  function FailedCount(batches: seq<string>, sends: seq<bool>): nat
    requires |sends| == |batches|
  {
    if batches == [] then 0
    else
      var n := |batches| - 1;
      FailedCount(batches[..n], sends[..n]) + if batches[n] != "" && !sends[n] then 1 else 0
  }

  ghost predicate DeliveredAll(setup: Setup, s: State, sends: seq<bool>) {
    && |sends| == |s.batches|
    && s.delivered == SentBatches(setup.mask, s.batches, sends) && s.erroredChunks == FailedCount(s.batches, sends)
  }

  lemma SentSnoc(mask: string -> string, batches: seq<string>, sends: seq<bool>, batch: string, sent: bool)
    requires |sends| == |batches|
    ensures SentBatches(mask, batches + [batch], sends + [sent]) ==
      SentBatches(mask, batches, sends) + if batch != "" && sent then [mask(batch)] else []
    ensures FailedCount(batches + [batch], sends + [sent]) ==
      FailedCount(batches, sends) + if batch != "" && !sent then 1 else 0
  {
    assert (batches + [batch])[..|batches|] == batches && (sends + [sent])[..|sends|] == sends;
  }

  lemma DeliveredWriteChunk(setup: Setup, s: State, sends: seq<bool>, sent: bool)
    requires DeliveredAll(setup, s, sends) && s.reader.Returning?
    ensures DeliveredAll(setup, DoWriteChunk(setup, s, sent), sends + [sent])
  {
    SentSnoc(setup.mask, s.batches, sends, s.reader.batch, sent);
  }

  lemma DeliveredSame(setup: Setup, s: State, sends: seq<bool>, step: Step)
    requires DeliveredAll(setup, s, sends) && !(step.WriteChunk? && s.reader.Returning?)
    ensures DeliveredAll(setup, Do(setup, s, step), sends)
  {
    var s' := Do(setup, s, step);
    assert s'.batches == s.batches && s'.delivered == s.delivered && s'.erroredChunks == s.erroredChunks;
  }

  /** In every run, the server has got the masked batches that were sent, all of them and in order. */
  lemma {:induction false} DeliveredExactly(setup: Setup, steps: seq<Step>)
    ensures DeliveredAll(setup, Replay(setup, steps), Sends(setup, steps))
  {
    if steps != [] {
      var init, last := steps[..|steps| - 1], steps[|steps| - 1];
      DeliveredExactly(setup, init);
      if last.WriteChunk? && Replay(setup, init).reader.Returning? {
        DeliveredWriteChunk(setup, Replay(setup, init), Sends(setup, init), last.sent);
      } else {
        DeliveredSame(setup, Replay(setup, init), Sends(setup, init), last);
      }
    }
  }

  lemma {:induction false} NoneFailed(mask: string -> string, batches: seq<string>, sends: seq<bool>)
    requires |sends| == |batches| && FailedCount(batches, sends) == 0
    ensures Concat(SentBatches(mask, batches, sends)) == Masked(mask, batches)
  {
    if batches != [] {
      var n := |batches| - 1;
      NoneFailed(mask, batches[..n], sends[..n]);
      if batches[n] != "" {
        ConcatSnoc(SentBatches(mask, batches[..n], sends[..n]), mask(batches[n]));
      }
    }
  }

  /** If no send failed, the server has got exactly the stored output. */
  lemma ServerHasStoredOutput(setup: Setup, steps: seq<Step>)
    requires Replay(setup, steps).erroredChunks == 0
    ensures Concat(Replay(setup, steps).delivered) == Replay(setup, steps).storedOutput
  {
    RunInvariant(setup, steps);
    DeliveredExactly(setup, steps);
    NoneFailed(setup.mask, Replay(setup, steps).batches, Sends(setup, steps));
  }

  function Finalizations(steps: seq<Step>): nat {
    if steps == [] then 0
    else Finalizations(steps[..|steps| - 1]) + if steps[|steps| - 1].Finalize? then 1 else 0
  }

  /** Closing panics in a run only if Finalize was called twice. */
  lemma {:induction false} OneFinalizeClosesOnce(setup: Setup, steps: seq<Step>)
    ensures Replay(setup, steps).closed ==> Finalizations(steps) >= 1
    ensures Replay(setup, steps).reclosed ==> Finalizations(steps) >= 2
  {
    if steps != [] {
      OneFinalizeClosesOnce(setup, steps[..|steps| - 1]);
      CloseStep(setup, Replay(setup, steps[..|steps| - 1]), steps[|steps| - 1]);
    }
  }

  lemma CloseStep(setup: Setup, s: State, step: Step)
    ensures Do(setup, s, step).closed ==> s.closed || step.Finalize?
    ensures Do(setup, s, step).reclosed ==> s.reclosed || (s.closed && step.Finalize?)
  {
  }

  // ---------- the log as it was stamped ----------

  function ChunksOf(prepared: seq<Prepared>): (chunks: seq<Chunk>)
    ensures |chunks| == |prepared| && forall i :: 0 <= i < |chunks| ==> chunks[i] == prepared[i].chunk
  {
    seq(|prepared|, i requires 0 <= i < |prepared| => prepared[i].chunk)
  }

  /** The owed timestamps are those that the order of the chunks in the channel asks for. */
  ghost predicate InOrder(accepted: seq<Prepared>) {
    forall j :: 0 <= j < |accepted| ==> accepted[j].owed == OwedAt(accepted, j)
  }

  lemma {:induction false} TextsAreOutputs(setup: Setup, owe: bool, accepted: seq<Prepared>)
    requires setup.timestamps && (accepted != [] ==> accepted[0].owed == owe)
    requires forall j :: 0 <= j < |accepted| - 1 ==> accepted[j + 1].owed == OweAfter(accepted[j].chunk.bytes)
    ensures Concat(Texts(setup, accepted)) == Outputs(owe, ChunksOf(accepted))
    decreases |accepted|
  {
    if accepted != [] {
      var rest := accepted[1..];
      assert Texts(setup, accepted)[1..] == Texts(setup, rest) && ChunksOf(accepted)[1..] == ChunksOf(rest);
      TextsAreOutputs(setup, OweAfter(accepted[0].chunk.bytes), rest);
    }
  }

  lemma InOrderIsStamped(setup: Setup, accepted: seq<Prepared>)
    requires setup.timestamps && InOrder(accepted)
    requires forall j :: 0 <= j < |accepted| ==> accepted[j].chunk.bytes != ""
    ensures Concat(Texts(setup, accepted)) == Stamp(true, Flatten(ChunksOf(accepted)))
  {
    forall j | 0 <= j < |accepted| - 1 ensures accepted[j + 1].owed == OweAfter(accepted[j].chunk.bytes) {
      assert accepted[j + 1].owed == OwedAt(accepted, j + 1);
    }
    TextsAreOutputs(setup, true, accepted);
    OutputsAreStamped(true, ChunksOf(accepted));
  }

  /**
   In every run whose channel order asks for the timestamps that were put, the channel carries the
   stamped log, and once the reader has stopped, so do the batches.
   */
  lemma StampedLog(setup: Setup, steps: seq<Step>)
    requires setup.timestamps && InOrder(Replay(setup, steps).accepted)
    ensures
      var s := Replay(setup, steps);
      && Concat(Texts(setup, s.accepted)) == Stamp(true, Flatten(ChunksOf(s.accepted)))
      && (s.reader.Stopped? ==> Concat(s.batches) == Stamp(true, Flatten(ChunksOf(s.accepted))))
  {
    RunInvariant(setup, steps);
    var s := Replay(setup, steps);
    forall j | 0 <= j < |s.accepted| ensures s.accepted[j].chunk.bytes != "" {
      assert Genuine(s, s.accepted[j]);
    }
    InOrderIsStamped(setup, s.accepted);
    if s.reader.Stopped? {
      NothingIsLost(setup, steps);
    }
  }

  /** The chunk stamped before and the chunk sent before both end a line, or neither does. */
  ghost predicate PredecessorsAgree(s: State, j: nat)
    requires j < |s.accepted|
  {
    var i := s.accepted[j].index;
    i <= |s.prepared| && OwedAt(s.prepared, i) == OwedAt(s.accepted, j)
  }

  /**
   Writers stamp before they queue up, so the two orders can differ. In every run, each chunk
   carries the timestamps that its place in the channel asks for if and only if its predecessors
   in both orders agree on ending a line, unless its timestamp is empty.
   */
  lemma ChannelOrderExactly(setup: Setup, steps: seq<Step>, j: nat)
    requires setup.timestamps && j < |Replay(setup, steps).accepted|
    ensures
      var s := Replay(setup, steps);
      var p := s.accepted[j];
      Text(setup, p) == ChunkOutput(OwedAt(s.accepted, j), p.chunk.bytes, p.chunk.prefix) <==>
      p.chunk.prefix == "" || PredecessorsAgree(s, j)
  {
    RunInvariant(setup, steps);
    var s := Replay(setup, steps);
    var p := s.accepted[j];
    assert Genuine(s, p);
    OwedMatters(p.chunk);
  }

  lemma OwedMatters(chunk: Chunk)
    ensures
      ChunkOutput(true, chunk.bytes, chunk.prefix) == ChunkOutput(false, chunk.bytes, chunk.prefix) <==>
      chunk.prefix == ""
  {
    var text := ReplaceNewlines(chunk.bytes, chunk.prefix, NumTimestamps(chunk.bytes));
    assert |chunk.prefix + text| == |chunk.prefix| + |text|;
  }

  function Overtaking(prefix: string): seq<Step> {
    [Prepare(1, Chunk("a\n", prefix)), Prepare(2, Chunk("b", prefix)), Enter(2), Send(2), Enter(1), Send(1)]
  }

  lemma PreparesNext(setup: Setup, s: State, w: int, chunk: Chunk)
    requires setup.timestamps && chunk.bytes != "" && w !in s.ready && w !in s.writers
    ensures
      var p := Prepared(|s.prepared|, chunk, s.owe);
      DoPrepare(setup, s, w, chunk) ==
      s.(prepared := s.prepared + [p], ready := s.ready[w := p], owe := OweAfter(chunk.bytes))
  {
  }

  lemma OvertakingStamps(setup: Setup, prefix: string, a: Prepared, b: Prepared)
    requires setup.timestamps
    requires a == Prepared(0, Chunk("a\n", prefix), true) && b == Prepared(1, Chunk("b", prefix), true)
    ensures
      Replay(setup, [Prepare(1, a.chunk), Prepare(2, b.chunk)]) ==
      INITIAL.(owe := false, prepared := [a, b], ready := map[1 := a, 2 := b])
  {
    var run: seq<Step>, step := [Prepare(1, a.chunk)], Prepare(2, b.chunk);
    ReplaySnoc(setup, [], run[0]);
    assert [] + [run[0]] == run;
    PreparesNext(setup, INITIAL, 1, a.chunk);
    var s1 := Replay(setup, run);
    assert s1.prepared == [a] && s1.ready == map[1 := a] && s1.owe;
    ReplaySnoc(setup, run, step);
    PreparesNext(setup, s1, 2, b.chunk);
    assert run + [step] == [Prepare(1, a.chunk), Prepare(2, b.chunk)];
  }

  lemma SendsNext(setup: Setup, s: State, w: int, p: Prepared)
    requires w in s.ready && s.ready[w] == p && s.writers == map[] && !s.closed && |s.queue| < CHANNEL_CAPACITY
    ensures
      DoSend(setup, DoEnter(s, w), w) ==
      s.(ready := s.ready - {w}, accepted := s.accepted + [p], queue := s.queue + [Text(setup, p)])
  {
    assert map[w := p] - {w} == map[];
  }

  /** Two writers, the second overtaking the first between stamping and sending: a timestamp ends up inside a line. */
  lemma OvertakingMisplacesTimestamp(setup: Setup, prefix: string)
    requires setup.timestamps && prefix != ""
    ensures
      var s := Replay(setup, Overtaking(prefix));
      && |s.accepted| == 2 && !PredecessorsAgree(s, 1)
      && Text(setup, s.accepted[1]) != ChunkOutput(OwedAt(s.accepted, 1), "a\n", prefix)
  {
    var a, b := Prepared(0, Chunk("a\n", prefix), true), Prepared(1, Chunk("b", prefix), true);
    var run0 := [Prepare(1, a.chunk), Prepare(2, b.chunk)];
    var s0 := Replay(setup, run0);
    OvertakingStamps(setup, prefix, a, b);
    ReplaySnoc(setup, run0, Enter(2));
    ReplaySnoc(setup, run0 + [Enter(2)], Send(2));
    SendsNext(setup, s0, 2, b);
    var run1 := run0 + [Enter(2)] + [Send(2)];
    var s1 := Replay(setup, run1);
    assert 1 in s1.ready && s1.ready[1] == a;
    ReplaySnoc(setup, run1, Enter(1));
    ReplaySnoc(setup, run1 + [Enter(1)], Send(1));
    SendsNext(setup, s1, 1, a);
    assert run1 + [Enter(1)] + [Send(1)] == Overtaking(prefix);
    var s2 := Replay(setup, Overtaking(prefix));
    assert s2.accepted == [b, a];
    ChannelOrderExactly(setup, Overtaking(prefix), 1);
  }

  // ---------- a single writer ----------

  ghost predicate ByWriter(steps: seq<Step>, w: int) {
    forall i :: 0 <= i < |steps| && (steps[i].Prepare? || steps[i].Enter? || steps[i].Send?) ==> steps[i].w == w
  }

  /** How many chunks the writer has stamped and not sent: at most the last one. */
  function Unsent(s: State, w: int): nat {
    if w in s.ready || w in s.writers then 1 else 0
  }

  ghost predicate LastPrepared(s: State, p: Prepared) {
    s.prepared != [] && p == s.prepared[|s.prepared| - 1]
  }

  /** Only `w` writes, and what it has sent are the first chunks it stamped: all but the one at hand until closing. */
  ghost predicate Alone(s: State, w: int) {
    && s.ready.Keys <= {w} && s.writers.Keys <= {w} && !(w in s.ready && w in s.writers)
    && (w in s.ready ==> LastPrepared(s, s.ready[w]))
    && (w in s.writers ==> LastPrepared(s, s.writers[w]) && !s.closed)
    && s.accepted <= s.prepared
    && (!s.closed ==> |s.accepted| + Unsent(s, w) == |s.prepared|)
  }

  lemma AloneSend(setup: Setup, s: State, w: int)
    requires Alone(s, w)
    ensures Alone(DoSend(setup, s, w), w)
  {
    if w in s.writers {
      assert s.accepted + [s.writers[w]] == s.prepared;
    }
  }

  lemma AlonePrepare(setup: Setup, s: State, w: int, chunk: Chunk)
    requires Alone(s, w)
    ensures Alone(DoPrepare(setup, s, w, chunk), w)
  {
  }

  lemma AloneEnter(s: State, w: int)
    requires Alone(s, w)
    ensures Alone(DoEnter(s, w), w)
  {
  }

  lemma AloneReader(s: State, s': State, w: int)
    requires Alone(s, w) && SameWriters(s, s') && (s'.closed == s.closed || (s'.closed && s.writers == map[]))
    ensures Alone(s', w)
  {
  }

  lemma AloneStep(setup: Setup, s: State, step: Step, w: int)
    requires Alone(s, w) && (step.Prepare? || step.Enter? || step.Send? ==> step.w == w)
    ensures Alone(Do(setup, s, step), w)
  {
    match step
    case Prepare(_, chunk) => AlonePrepare(setup, s, w, chunk);
    case Enter(_) => AloneEnter(s, w);
    case Send(_) => AloneSend(setup, s, w);
    case Finalize => AloneReader(s, DoFinalize(s), w);
    case Receive => AloneReader(s, DoReceive(s), w);
    case Default => AloneReader(s, DoDefault(s), w);
    case WriteChunk(sent) => AloneReader(s, DoWriteChunk(setup, s, sent), w);
  }

  lemma {:induction false} AloneRun(setup: Setup, steps: seq<Step>, w: int)
    requires ByWriter(steps, w)
    ensures Alone(Replay(setup, steps), w)
  {
    if steps != [] {
      AloneRun(setup, steps[..|steps| - 1], w);
      AloneStep(setup, Replay(setup, steps[..|steps| - 1]), steps[|steps| - 1], w);
    }
  }

  /**
   In every run with a single writer, what was sent are the first chunks it wrote, all of them but
   the one at hand until the channel is closed, and the channel carries the stamped log of these
   chunks, as do the batches once the reader has stopped.
   */
  lemma SingleWriterLog(setup: Setup, steps: seq<Step>, w: int)
    requires setup.timestamps && ByWriter(steps, w)
    ensures
      var s := Replay(setup, steps);
      && s.accepted <= s.prepared && (!s.closed ==> |s.prepared| <= |s.accepted| + 1)
      && Concat(Texts(setup, s.accepted)) == Stamp(true, Flatten(ChunksOf(s.accepted)))
      && (s.reader.Stopped? ==> Concat(s.batches) == Stamp(true, Flatten(ChunksOf(s.accepted))))
  {
    AloneRun(setup, steps, w);
    RunInvariant(setup, steps);
    var s := Replay(setup, steps);
    forall j | 0 <= j < |s.accepted| ensures s.accepted[j].owed == OwedAt(s.accepted, j) {
      assert s.prepared[j].owed == OwedAt(s.prepared, j);
    }
    StampedLog(setup, steps);
  }

  // ---------- batch sizes ----------

  ghost predicate ChunksWithin(setup: Setup, s: State, limit: nat) {
    && (forall i :: 0 <= i < |s.queue| ==> |s.queue[i]| <= limit)
    && (forall w :: w in s.ready ==> |Text(setup, s.ready[w])| <= limit)
    && (forall w :: w in s.writers ==> |Text(setup, s.writers[w])| <= limit)
  }

  function Larger(a: nat, b: nat): nat { if a >= b then a else b }

  ghost predicate BatchesWithin(s: State, limit: nat) {
    && (s.reader.Collecting? ==> |s.reader.result| <= Larger(limit, MAX_BYTES_PER_INVOCATION))
    && (s.reader.Returning? ==> |s.reader.batch| <= Larger(limit, MAX_BYTES_PER_INVOCATION) + limit)
    && (forall i :: 0 <= i < |s.batches| ==> |s.batches[i]| <= Larger(limit, MAX_BYTES_PER_INVOCATION) + limit)
  }

  /** The chunk stays within the limit even if a timestamp is put in front of it. */
  ghost predicate Within(setup: Setup, chunk: Chunk, limit: nat) {
    |Text(setup, Prepared(0, chunk, true))| <= limit
  }

  ghost predicate WritesWithin(setup: Setup, steps: seq<Step>, limit: nat) {
    forall i :: 0 <= i < |steps| && steps[i].Prepare? ==> Within(setup, steps[i].chunk, limit)
  }

  lemma ChunksPrepare(setup: Setup, s: State, w: int, chunk: Chunk, limit: nat)
    requires ChunksWithin(setup, s, limit) && Within(setup, chunk, limit)
    ensures ChunksWithin(setup, DoPrepare(setup, s, w, chunk), limit)
  {
    assert |Text(setup, Prepared(|s.prepared|, chunk, s.owe))| <= limit;
  }

  lemma ChunksSend(setup: Setup, s: State, w: int, limit: nat)
    requires ChunksWithin(setup, s, limit)
    ensures ChunksWithin(setup, DoSend(setup, s, w), limit)
    ensures ChunksWithin(setup, DoEnter(s, w), limit)
  {
  }

  lemma ChunksFewer(setup: Setup, s: State, s': State, limit: nat)
    requires ChunksWithin(setup, s, limit) && SameWriters(s, s')
    requires s'.queue == s.queue || (s.queue != [] && s'.queue == s.queue[1..])
    ensures ChunksWithin(setup, s', limit)
  {
  }

  lemma ChunksStep(setup: Setup, s: State, step: Step, limit: nat)
    requires ChunksWithin(setup, s, limit)
    requires step.Prepare? ==> Within(setup, step.chunk, limit)
    ensures ChunksWithin(setup, Do(setup, s, step), limit)
  {
    match step
    case Prepare(w, chunk) => ChunksPrepare(setup, s, w, chunk, limit);
    case Enter(w) => ChunksSend(setup, s, w, limit);
    case Send(w) => ChunksSend(setup, s, w, limit);
    case Finalize => ChunksFewer(setup, s, DoFinalize(s), limit);
    case Receive => ChunksFewer(setup, s, DoReceive(s), limit);
    case Default => ChunksFewer(setup, s, DoDefault(s), limit);
    case WriteChunk(sent) => ChunksFewer(setup, s, DoWriteChunk(setup, s, sent), limit);
  }

  lemma BatchesReceive(s: State, limit: nat)
    requires (forall i :: 0 <= i < |s.queue| ==> |s.queue[i]| <= limit) && BatchesWithin(s, limit)
    ensures BatchesWithin(DoReceive(s), limit)
  {
  }

  lemma BatchesSame(s: State, s': State, limit: nat)
    requires BatchesWithin(s, limit) && SameReader(s, s')
    ensures BatchesWithin(s', limit)
  {
  }

  lemma BatchesHandedOn(setup: Setup, s: State, sent: bool, limit: nat)
    requires BatchesWithin(s, limit)
    ensures BatchesWithin(DoWriteChunk(setup, s, sent), limit)
  {
    var s' := DoWriteChunk(setup, s, sent);
    if s.reader.Returning? {
      assert s'.batches == s.batches + [s.reader.batch] && !s'.reader.Collecting? && !s'.reader.Returning?;
    }
  }

  lemma BatchesDefault(s: State, limit: nat)
    requires BatchesWithin(s, limit)
    ensures BatchesWithin(DoDefault(s), limit)
  {
  }

  lemma BatchesStep(setup: Setup, s: State, step: Step, limit: nat)
    requires ChunksWithin(setup, s, limit) && BatchesWithin(s, limit)
    ensures BatchesWithin(Do(setup, s, step), limit)
  {
    match step
    case Receive => BatchesReceive(s, limit);
    case Prepare(w, chunk) => BatchesSame(s, DoPrepare(setup, s, w, chunk), limit);
    case Enter(w) => BatchesSame(s, DoEnter(s, w), limit);
    case Send(w) => BatchesSame(s, DoSend(setup, s, w), limit);
    case Finalize => BatchesSame(s, DoFinalize(s), limit);
    case Default => BatchesDefault(s, limit);
    case WriteChunk(sent) => BatchesHandedOn(setup, s, sent, limit);
  }

  lemma {:induction false} RunSizes(setup: Setup, steps: seq<Step>, limit: nat)
    requires WritesWithin(setup, steps, limit)
    ensures ChunksWithin(setup, Replay(setup, steps), limit) && BatchesWithin(Replay(setup, steps), limit)
  {
    if steps != [] {
      var init := steps[..|steps| - 1];
      RunSizes(setup, init, limit);
      ChunksStep(setup, Replay(setup, init), steps[|steps| - 1], limit);
      BatchesStep(setup, Replay(setup, init), steps[|steps| - 1], limit);
    }
  }

  /** With chunks of at most one MiB, a batch has at most one MiB plus the size of one chunk. */
  lemma BatchSizeBound(setup: Setup, steps: seq<Step>, limit: nat, i: nat)
    requires WritesWithin(setup, steps, limit) && limit <= 1048576
    requires i < |Replay(setup, steps).batches|
    ensures |Replay(setup, steps).batches[i]| <= 1048576 + limit
  {
    RunSizes(setup, steps, limit);
  }
}
