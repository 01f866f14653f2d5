/** The LogUploader object of internal/agent/executor/logs.go, whose methods take the steps of the log pipeline. */
module LogUploader {
  import opened Common
  import opened Timestamps
  import opened LogStream

  datatype World = World(
    prepared: seq<Prepared>, ready: map<int, Prepared>, writers: map<int, Prepared>, reader: Reader,
    accepted: seq<Prepared>, batches: seq<string>, delivered: seq<string>,
    panicked: bool, reclosed: bool)

  class LogUploader {
    const setup: Setup
    var OweTimestamp: bool
    var logsChannel: seq<string>
    var closed: bool
    var storedOutput: string
    var erroredChunks: nat

    // The world around the object: the writers, the reader and what they have done so far.
    var world: World
    ghost var history: seq<Step>

    function St(): State
      reads this
    {
      State(OweTimestamp, world.prepared, world.ready, world.writers, logsChannel, closed, world.reader,
            world.accepted, world.batches, storedOutput, world.delivered, erroredChunks, world.panicked,
            world.reclosed)
    }

    /** The fields are what the steps taken so far make of the initial state. */
    ghost predicate Valid()
      reads this
    {
      St() == Replay(setup, history)
    }

    constructor (logTimestamps: bool, mask: string -> string)
      ensures Valid() && history == [] && St() == INITIAL && setup == Setup(logTimestamps, mask)
    {
      setup := Setup(logTimestamps, mask);
      OweTimestamp, logsChannel, closed, storedOutput, erroredChunks := true, [], false, "", 0;
      world, history := World([], map[], map[], Waiting, [], [], [], false, false), [];
    }

    lemma ValidInv()
      requires Valid()
      ensures Inv(setup, St())
    {
      RunInvariant(setup, history);
    }

    method Become(s: State)
      modifies this
      ensures St() == s && history == old(history)
    {
      OweTimestamp, logsChannel, closed := s.owe, s.queue, s.closed;
      storedOutput, erroredChunks := s.storedOutput, s.erroredChunks;
      world := World(
        s.prepared, s.ready, s.writers, s.reader, s.accepted, s.batches, s.delivered, s.panicked, s.reclosed);
    }

    /** Another goroutine takes a step. */
    method Take(step: Step)
      requires Valid()
      modifies this
      ensures Valid() && history == old(history) + [step] && St() == Do(setup, old(St()), step)
    {
      ReplaySnoc(setup, history, step);
      Become(Do(setup, St(), step));
      history := history + [step];
    }

    // ---------- writing ----------

    method WithTimestamps(input: string, timestampPrefix: string) returns (result: string)
      modifies this`OweTimestamp
      ensures result == ChunkOutput(old(OweTimestamp), input, timestampPrefix)
      ensures input != [] ==> result == Stamp(old(OweTimestamp), Tag(input, timestampPrefix))
      ensures OweTimestamp == OweAfter(input)
    {
      result := [];
      if OweTimestamp {
        result := result + timestampPrefix;
        OweTimestamp := false;
      }
      var numTimestamps: int := CountNewlines(input);
      if EndsWithNewline(input) {
        numTimestamps := numTimestamps - 1;
        OweTimestamp := true;
      }
      result := result + ReplaceNewlines(input, timestampPrefix, numTimestamps);
      if input != [] {
        ChunkIsStamp(old(OweTimestamp), input, timestampPrefix);
      }
    }

    /** The first half of Write: the bytes are stamped before the lock is taken. */
    method Prepare(w: int, bytes: string, timestampPrefix: string) returns (chunk: string)
      requires Valid() && bytes != "" && w !in world.ready && w !in world.writers
      modifies this`OweTimestamp, this`world, this`history
      ensures Valid() && history == old(history) + [LogStream.Prepare(w, Chunk(bytes, timestampPrefix))]
      ensures w in world.ready && world.ready == old(world.ready)[w := world.ready[w]]
      ensures chunk == Text(setup, world.ready[w])
      ensures chunk == if setup.timestamps then Stamp(old(OweTimestamp), Tag(bytes, timestampPrefix)) else bytes
      ensures OweTimestamp == if setup.timestamps then OweAfter(bytes) else old(OweTimestamp)
    {
      var p := Prepared(|world.prepared|, Chunk(bytes, timestampPrefix), OweTimestamp);
      ReplaySnoc(setup, history, LogStream.Prepare(w, p.chunk));
      chunk := bytes;
      if setup.timestamps {
        chunk := WithTimestamps(bytes, timestampPrefix);
      }
      world := world.(prepared := world.prepared + [p], ready := world.ready[w := p]);
      history := history + [LogStream.Prepare(w, p.chunk)];
    }

    /** The second half of Write: with the lock held, the chunk is sent unless the channel is closed. */
    method Submit(w: int, chunk: string)
      requires Valid() && w in world.ready && w !in world.writers && chunk == Text(setup, world.ready[w])
      requires closed || |logsChannel| < CHANNEL_CAPACITY
      modifies this`world, this`logsChannel, this`history
      ensures Valid() && history == old(history) + [Enter(w), Send(w)]
      ensures world.ready == old(world.ready) - {w}
      ensures logsChannel == old(logsChannel) + if closed then [] else [chunk]
      ensures world.accepted == old(world.accepted) + if closed then [] else [old(world.ready)[w]]
    {
      ReplaySnoc(setup, history, Enter(w));
      ReplaySnoc(setup, history + [Enter(w)], Send(w));
      assert history + [Enter(w)] + [Send(w)] == history + [Enter(w), Send(w)];
      ghost var p := world.ready[w];
      assert world.writers[w := p] - {w} == world.writers;
      if !closed {
        logsChannel, world := logsChannel + [chunk], world.(accepted := world.accepted + [world.ready[w]]);
      }
      world, history := world.(ready := world.ready - {w}), history + [Enter(w), Send(w)];
    }

    /**
     Writer w stamps one chunk and sends it unless the channel is closed, at a moment when the
     channel has room; always reports the original length.
     */
    method Write(w: int, bytes: string, timestampPrefix: string) returns (n: nat)
      requires Valid() && w !in world.ready && w !in world.writers
      requires closed || |logsChannel| < CHANNEL_CAPACITY
      modifies this`OweTimestamp, this`world, this`logsChannel, this`history
      ensures Valid() && n == |bytes| && world.ready == old(world.ready)
      ensures bytes == "" ==> St() == old(St()) && history == old(history)
      ensures bytes != "" ==>
        history == old(history) + [LogStream.Prepare(w, Chunk(bytes, timestampPrefix)), Enter(w), Send(w)]
      ensures bytes != "" ==>
        var chunk := if setup.timestamps then Stamp(old(OweTimestamp), Tag(bytes, timestampPrefix)) else bytes;
        && logsChannel == old(logsChannel) + (if closed then [] else [chunk])
        && Texts(setup, world.accepted) == Texts(setup, old(world.accepted)) + (if closed then [] else [chunk])
        && OweTimestamp == if setup.timestamps then OweAfter(bytes) else old(OweTimestamp)
    {
      n := |bytes|;
      if |bytes| == 0 {
        return;
      }
      var chunk := Prepare(w, bytes, timestampPrefix);
      Submit(w, chunk);
    }

    /**
     Closes the channel, at a moment when no writer holds the lock, and waits for the reader to stop;
     a second call panics. After it, everything ever accepted has been handed on in order.
     */
    method Finalize() returns (panics: bool)
      requires Valid() && world.writers == map[]
      modifies this
      ensures Valid() && closed && old(history) + [LogStream.Finalize] <= history
      ensures panics <==> old(closed)
      ensures world.accepted == old(world.accepted)
      ensures !panics ==> world.reader.Stopped? && Concat(world.batches) == Concat(Texts(setup, world.accepted))
    {
      ReplaySnoc(setup, history, LogStream.Finalize);
      panics := closed;
      closed, world := true, world.(reclosed := world.reclosed || closed);
      history := history + [LogStream.Finalize];
      if !panics {
        AwaitReader();
      }
    }

    /** Once the channel is closed, the reader drains it and stops, whatever writers still try. */
    method AwaitReader()
      requires Valid() && closed
      modifies this
      ensures Valid() && closed && old(history) <= history && world.reader.Stopped?
      ensures world.accepted == old(world.accepted)
      ensures Concat(world.batches) == Concat(Texts(setup, world.accepted))
    {
      while !world.reader.Stopped?
        invariant Valid() && closed && old(history) <= history && world.accepted == old(world.accepted)
        decreases |logsChannel|, Phase(world.reader)
      {
        Interfere();
        var sent: bool := *;
        ReaderAdvances(setup, St(), sent);
        Take(ReaderStep(world.reader, sent));
      }
      NothingIsLost(setup, history);
    }

    // ---------- reading ----------

    /** While the reader is between two receives, writers may take steps and Finalize may close the channel. */
    method Interfere()
      requires Valid()
      modifies this
      ensures Valid() && old(history) <= history
      ensures world.reader == old(world.reader) && world.batches == old(world.batches)
      ensures old(world.accepted) <= world.accepted
      ensures |logsChannel| >= |old(logsChannel)|
      ensures old(closed) ==> closed && logsChannel == old(logsChannel) && world.accepted == old(world.accepted)
    {
      var steps: nat := *;
      while steps > 0
        invariant Valid() && old(history) <= history
        invariant world.reader == old(world.reader) && world.batches == old(world.batches)
        invariant old(world.accepted) <= world.accepted
        invariant |logsChannel| >= |old(logsChannel)|
        invariant old(closed) ==> closed && logsChannel == old(logsChannel) && world.accepted == old(world.accepted)
      {
        ValidInv();
        var step: Step := *;
        if step.Prepare? || step.Enter? || step.Send? || step.Finalize? {
          Take(step);
        }
        steps := steps - 1;
      }
    }

    /** The reader takes one chunk off the channel, or learns that the channel is closed and drained. */
    method ReceiveOne()
      requires Valid() && (logsChannel != [] || closed) && (world.reader.Waiting? || world.reader.Collecting?)
      modifies this`world, this`logsChannel, this`history
      ensures Valid() && history == old(history) + [Receive] && St() == DoReceive(old(St()))
    {
      ReplaySnoc(setup, history, Receive);
      if logsChannel == [] {
        world := world.(reader :=
          if world.reader.Waiting? then Collecting("") else Returning(world.reader.result, true));
      } else if world.reader.Waiting? {
        world, logsChannel := world.(reader := Collecting(logsChannel[0])), logsChannel[1..];
      } else {
        var result := world.reader.result + logsChannel[0];
        world := world.(reader :=
          if |result| > MAX_BYTES_PER_INVOCATION then Returning(result, false) else Collecting(result));
        logsChannel := logsChannel[1..];
      }
      assert St() == DoReceive(old(St()));
      history := history + [Receive];
    }

    /**
     Collects chunks until the channel is empty, closed or the batch is large enough; it starts
     when there is something to receive. Whatever the writers do meanwhile, the batch takes the
     bytes off the front of what was and is sent, it says "finished" only for a closed and drained
     channel, and otherwise it has emptied the channel or exceeded a MiB.
     */
    method ReadAvailableChunks() returns (result: string, finished: bool)
      requires Valid() && world.reader.Waiting? && (logsChannel != [] || closed)
      modifies this
      ensures Valid() && old(history) <= history
      ensures old(world.accepted) <= world.accepted && world.batches == old(world.batches)
      ensures world.reader == Returning(result, finished)
      ensures
        Concat(old(logsChannel)) + Concat(Texts(setup, world.accepted[|old(world.accepted)|..])) ==
        result + Concat(logsChannel)
      ensures finished ==> closed && logsChannel == []
      ensures !finished ==> logsChannel == [] || |result| > 1048576
      ensures !finished && old(logsChannel) != [] ==> result != ""
    {
      ValidInv();
      ghost var before := St();
      ReceiveOne();
      while !world.reader.Returning?
        invariant Valid() && old(history) <= history
        invariant old(world.accepted) <= world.accepted && world.batches == old(world.batches)
        invariant Progressing(world.reader, closed, logsChannel)
        invariant old(logsChannel) != [] ==> InFlight(world.reader) != ""
        decreases Remaining(world.reader)
      {
        SelectOne();
      }
      ValidInv();
      BatchIsFront(setup, before, St());
      result, finished := world.reader.batch, world.reader.finished;
    }

    /** One turn of the select loop: receives a chunk or the news of the closed channel, or else gives up waiting. */
    method SelectOne()
      requires Valid() && world.reader.Collecting?
      modifies this
      ensures Valid() && old(history) <= history
      ensures old(world.accepted) <= world.accepted && world.batches == old(world.batches)
      ensures Progressing(world.reader, closed, logsChannel) && Remaining(world.reader) < Remaining(old(world.reader))
      ensures old(world.reader).result != "" ==> InFlight(world.reader) != ""
    {
      Interfere();
      ValidInv();
      if logsChannel != [] || closed {
        ReceiveProgresses(St());
        ReceiveOne();
      } else {
        GiveUp();
      }
    }

    /** The select finds nothing to receive. */
    method GiveUp()
      requires Valid() && world.reader.Collecting? && logsChannel == [] && !closed
      modifies this`world, this`history
      ensures Valid() && history == old(history) + [Default]
      ensures world == old(world).(reader := Returning(old(world.reader).result, false))
    {
      ReplaySnoc(setup, history, Default);
      world := world.(reader := Returning(world.reader.result, false));
      history := history + [Default];
    }

    /** Masks and stores a non-empty batch, then sends it. */
    method StoreAndSend(bytes: string, sent: bool) returns (n: nat)
      requires bytes != ""
      modifies this`storedOutput, this`erroredChunks, this`world
      ensures storedOutput == old(storedOutput) + setup.mask(bytes)
      ensures sent ==> world == old(world).(delivered := old(world).delivered + [setup.mask(bytes)])
      ensures sent ==> erroredChunks == old(erroredChunks) && n == |setup.mask(bytes)|
      ensures !sent ==> world == old(world) && erroredChunks == old(erroredChunks) + 1 && n == 0
    {
      var masked := setup.mask(bytes);
      storedOutput := storedOutput + masked;
      if !sent {
        erroredChunks := erroredChunks + 1;
        return 0;
      }
      world := world.(delivered := world.delivered + [masked]);
      n := |masked|;
    }

    /** Everything WriteChunk does to the fields. */
    method HandOn(bytes: string, sent: bool) returns (n: nat)
      requires world.reader.Returning? && world.reader.batch == bytes
      modifies this`storedOutput, this`erroredChunks, this`world
      ensures St() == DoWriteChunk(setup, old(St()), sent)
      ensures storedOutput == old(storedOutput) + if bytes == "" then "" else setup.mask(bytes)
      ensures erroredChunks == old(erroredChunks) + if bytes == "" || sent then 0 else 1
      ensures n == if bytes == "" || !sent then 0 else |setup.mask(bytes)|
      ensures world.delivered == old(world.delivered) + if bytes == "" || !sent then [] else [setup.mask(bytes)]
      ensures world.batches == old(world.batches) + [bytes]
      ensures world.reader.Stopped? <==> old(world.reader).finished
    {
      n := 0;
      if |bytes| != 0 {
        n := StoreAndSend(bytes, sent);
      }
      world := world.(
        reader := if world.reader.finished then Stopped else Waiting, batches := world.batches + [bytes]);
    }

    /**
     Masks and stores a batch, then sends it; a failed send costs neither the stored output nor
     later batches. After the last batch, the batches are all that was ever accepted.
     */
    method WriteChunk(bytesToWrite: string, sent: bool) returns (n: nat, failed: bool)
      requires Valid() && world.reader.Returning? && world.reader.batch == bytesToWrite
      modifies this`storedOutput, this`erroredChunks, this`world, this`history
      ensures Valid() && history == old(history) + [LogStream.WriteChunk(sent)]
      ensures storedOutput == old(storedOutput) + if bytesToWrite == "" then "" else setup.mask(bytesToWrite)
      ensures failed <==> bytesToWrite != "" && !sent
      ensures erroredChunks == old(erroredChunks) + if failed then 1 else 0
      ensures n == if bytesToWrite == "" || failed then 0 else |setup.mask(bytesToWrite)|
      ensures world.delivered == old(world.delivered) +
        if bytesToWrite == "" || failed then [] else [setup.mask(bytesToWrite)]
      ensures world.batches == old(world.batches) + [bytesToWrite]
      ensures world.reader.Stopped? <==> old(world.reader).finished
      ensures world.reader.Stopped? ==> Concat(world.batches) == Concat(Texts(setup, world.accepted))
    {
      ReplaySnoc(setup, history, LogStream.WriteChunk(sent));
      n := HandOn(bytesToWrite, sent);
      failed := bytesToWrite != "" && !sent;
      history := history + [LogStream.WriteChunk(sent)];
      if world.reader.Stopped? {
        NothingIsLost(setup, history);
      }
    }
  }

  /** A batch is the last only for a closed and drained channel; else the channel is empty or the batch large. */
  ghost predicate Progressing(reader: Reader, closed: bool, channel: seq<string>) {
    match reader
    case Collecting(_) => true
    case Returning(batch, finished) =>
      if finished then closed && channel == [] else channel == [] || |batch| > MAX_BYTES_PER_INVOCATION
    case _ => false
  }

  /** How many more chunks the reader can take. */
  ghost function Remaining(reader: Reader): nat {
    if !reader.Collecting? then 0
    else if |reader.result| >= MAX_BYTES_PER_INVOCATION then 1
    else 1 + MAX_BYTES_PER_INVOCATION - |reader.result|
  }

  function ReaderStep(reader: Reader, sent: bool): Step {
    if reader.Returning? then LogStream.WriteChunk(sent) else Receive
  }

  /** On a closed channel, every step of the reader takes a chunk or brings it closer to stopping. */
  lemma ReaderAdvances(setup: Setup, s: State, sent: bool)
    requires s.closed && !s.reader.Stopped?
    ensures
      var s' := Do(setup, s, ReaderStep(s.reader, sent));
      && s'.closed && s'.accepted == s.accepted
      && (|s'.queue| < |s.queue| || (|s'.queue| == |s.queue| && Phase(s'.reader) < Phase(s.reader)))
  {
    if !s.reader.Returning? {
      ReceiveAdvances(s);
    }
  }

  /** Receiving fills the batch, or ends it for a reason. */
  lemma ReceiveProgresses(s: State)
    requires s.reader.Collecting? && (s.queue != [] || s.closed) && NothingEmpty(s)
    ensures
      var s' := DoReceive(s);
      && Progressing(s'.reader, s'.closed, s'.queue) && Remaining(s'.reader) < Remaining(s.reader)
      && (s.reader.result != "" ==> InFlight(s'.reader) != "")
  {
  }

  lemma ReceiveAdvances(s: State)
    requires s.closed && (s.reader.Waiting? || s.reader.Collecting?)
    ensures
      var s' := DoReceive(s);
      |s'.queue| < |s.queue| || (|s'.queue| == |s.queue| && Phase(s'.reader) < Phase(s.reader))
  {
  }

  /** How far the reader of a closed channel is from stopping. */
  ghost function Phase(reader: Reader): nat {
    match reader
    case Returning(_, finished) => if finished then 1 else 4
    case Waiting => 3
    case Collecting(_) => 2
    case Stopped => 0
  }

  lemma {:induction false} TextsConcat(setup: Setup, a: seq<Prepared>, b: seq<Prepared>)
    requires a <= b
    ensures Concat(Texts(setup, b)) == Concat(Texts(setup, a)) + Concat(Texts(setup, b[|a|..]))
  {
    assert Texts(setup, b) == Texts(setup, a) + Texts(setup, b[|a|..]);
    ConcatAppend(Texts(setup, a), Texts(setup, b[|a|..]));
  }

  lemma FrontOf(done: string, queue: string, more: string, taken: string, queue': string)
    requires done + "" + queue + more == done + taken + queue'
    ensures queue + more == taken + queue'
  {
    assert done + "" + queue + more == done + (queue + more);
    assert done + taken + queue' == done + (taken + queue');
    Cancel(done, queue + more, taken + queue');
  }

  lemma Cancel(a: string, b: string, c: string)
    requires a + b == a + c
    ensures b == c
  {
    assert (a + b)[|a|..] == b && (a + c)[|a|..] == c;
  }

  /** Between two states of a run, what the reader took is what left the front of the channel. */
  lemma BatchIsFront(setup: Setup, s: State, s': State)
    requires Conserved(setup, s) && Conserved(setup, s') && s.reader.Waiting?
    requires s'.batches == s.batches && s.accepted <= s'.accepted
    ensures
      Concat(s.queue) + Concat(Texts(setup, s'.accepted[|s.accepted|..])) == InFlight(s'.reader) + Concat(s'.queue)
  {
    TextsConcat(setup, s.accepted, s'.accepted);
    FrontOf(Concat(s.batches), Concat(s.queue), Concat(Texts(setup, s'.accepted[|s.accepted|..])),
            InFlight(s'.reader), Concat(s'.queue));
  }
}
