/**
 * The query log writer (src/core/log/query_log.rs): senders push into a bounded channel, and one
 * writer moves events into a buffer that it flushes when full and on every timer tick.  A batch
 * handed to `flush` is the observable output.
 */
module QueryLog {
  import opened Prelude

  const CHANNEL_CAPACITY: nat := 1024

  datatype QueryEvent = QueryEvent(ts: nat, qname: string, qtype: nat, client: string, rcode: nat,
                                   answers: nat, latencyMs: nat, fromCache: bool, blocked: bool)

  datatype State = State(bufferSize: nat, queue: seq<QueryEvent>, buffer: seq<QueryEvent>, batches: seq<seq<QueryEvent>>)

  /** The three things that can happen next: some caller logs, the writer receives, the timer fires. */
  datatype Step = Send(event: QueryEvent) | Receive | Tick

  function Flushed(s: State): State {
    s.(batches := s.batches + [s.buffer], buffer := [])
  }

  function Next(s: State, step: Step): State {
    match step
    case Send(event) => if |s.queue| < CHANNEL_CAPACITY then s.(queue := s.queue + [event]) else s
    case Receive =>
      if s.queue == [] then s
      else
        var t := s.(queue := s.queue[1..], buffer := s.buffer + [s.queue[0]]);
        if |t.buffer| >= t.bufferSize then Flushed(t) else t
    case Tick => if s.buffer != [] then Flushed(s) else s
  }

  function Run(s: State, trace: seq<Step>): State {
    if trace == [] then s else Next(Run(s, trace[..|trace| - 1]), trace[|trace| - 1])
  }

  function Start(bufferSize: nat): State {
    State(bufferSize, [], [], [])
  }

  /** The events the channel took during a run: those sent while it had room. */
  function Accepted(s: State, trace: seq<Step>): seq<QueryEvent> {
    if trace == [] then []
    else
      var n := |trace| - 1;
      Accepted(s, trace[..n]) +
      (if trace[n].Send? && |Run(s, trace[..n]).queue| < 1024 then [trace[n].event] else [])
  }

  /** Everything the writer has taken off the channel, in order. */
  function Taken(s: State): seq<QueryEvent> {
    Flatten(s.batches) + s.buffer
  }

  function Content(s: State): seq<QueryEvent> {
    Taken(s) + s.queue
  }

  ghost predicate Bounded(s: State) {
    && |s.queue| <= 1024
    && |s.buffer| < Max(1, s.bufferSize)
    && forall i :: 0 <= i < |s.batches| ==> 1 <= |s.batches[i]| <= Max(1, s.bufferSize)
  }

  lemma FlushKeepsTaken(s: State)
    ensures Taken(Flushed(s)) == Taken(s)
  {
    FlattenSnoc(s.batches, s.buffer);
  }

  lemma NextContent(s: State, step: Step)
    ensures Content(Next(s, step)) ==
      Content(s) + (if step.Send? && |s.queue| < CHANNEL_CAPACITY then [step.event] else [])
    ensures |Taken(Next(s, step))| == |Taken(s)| + (if step.Receive? && s.queue != [] then 1 else 0)
  {
    match step
    case Send(event) =>
      if |s.queue| < CHANNEL_CAPACITY {
        assert Taken(Next(s, step)) == Taken(s);
      }
    case Receive =>
      if s.queue != [] {
        var t := s.(queue := s.queue[1..], buffer := s.buffer + [s.queue[0]]);
        FlushKeepsTaken(t);
        assert s.queue == [s.queue[0]] + t.queue;
        assert Taken(t) == Taken(s) + [s.queue[0]];
      }
    case Tick => FlushKeepsTaken(s);
  }

  /**
   * Conservation over every interleaving: flushed batches, buffer and channel together are exactly
   * the accepted events in order, none lost or repeated; batches are never empty and never
   * larger than `max(1, buffer_size)`.
   */
  lemma {:induction false} Conservation(bufferSize: nat, trace: seq<Step>)
    ensures var s := Run(Start(bufferSize), trace);
      && Flatten(s.batches) + s.buffer + s.queue == Accepted(Start(bufferSize), trace)
      && s.bufferSize == bufferSize && Bounded(s)
  {
    if trace != [] {
      var n := |trace| - 1;
      Conservation(bufferSize, trace[..n]);
      NextContent(Run(Start(bufferSize), trace[..n]), trace[n]);
    }
  }

  /**
   * When a batch is handed over, and what is in it: on a tick whatever is buffered, and on a receive the
   * buffer and the event that fills it, never before it is full.
   */
  lemma FlushExactly(s: State, step: Step)
    requires Bounded(s)
    ensures Next(s, step).batches ==
      if step.Tick? && s.buffer != [] then s.batches + [s.buffer]
      else if step.Receive? && s.queue != [] && |s.buffer| + 1 >= s.bufferSize then s.batches + [s.buffer + [s.queue[0]]]
      else s.batches
    ensures Next(s, step).batches != s.batches ==> Next(s, step).buffer == []
  {
  }

  function Ticks(trace: seq<Step>): nat {
    if trace == [] then 0 else Ticks(trace[..|trace| - 1]) + (if trace[|trace| - 1].Tick? then 1 else 0)
  }

  /** The number of batches that were not full. */
  function ShortBatches(batches: seq<seq<QueryEvent>>, bufferSize: nat): nat {
    if batches == [] then 0
    else
      var n := |batches| - 1;
      ShortBatches(batches[..n], bufferSize) + (if |batches[n]| == Max(1, bufferSize) then 0 else 1)
  }

  lemma ShortBatchesSnoc(batches: seq<seq<QueryEvent>>, batch: seq<QueryEvent>, bufferSize: nat)
    ensures ShortBatches(batches + [batch], bufferSize) ==
      ShortBatches(batches, bufferSize) + (if |batch| == Max(1, bufferSize) then 0 else 1)
  {
    assert (batches + [batch])[..|batches|] == batches;
  }

  /** Only the timer cuts a batch short: in every run there are at most as many short batches as ticks. */
  lemma {:induction false} ShortBatchesNeedTicks(bufferSize: nat, trace: seq<Step>)
    ensures ShortBatches(Run(Start(bufferSize), trace).batches, bufferSize) <= Ticks(trace)
  {
    if trace != [] {
      var n := |trace| - 1;
      var s := Run(Start(bufferSize), trace[..n]);
      ShortBatchesNeedTicks(bufferSize, trace[..n]);
      Conservation(bufferSize, trace[..n]);
      FlushExactly(s, trace[n]);
      ShortBatchesSnoc(s.batches, s.buffer, bufferSize);
      if s.queue != [] {
        ShortBatchesSnoc(s.batches, s.buffer + [s.queue[0]], bufferSize);
      }
    }
  }

  function Receives(trace: seq<Step>): nat {
    if trace == [] then 0 else Receives(trace[..|trace| - 1]) + (if trace[|trace| - 1].Receive? then 1 else 0)
  }

  lemma {:induction false} ReceivesTake(s: State, trace: seq<Step>)
    ensures Content(s) <= Content(Run(s, trace))
    ensures |Taken(Run(s, trace))| >= Min(|Taken(s)| + Receives(trace), |Content(s)|)
  {
    if trace != [] {
      var n := |trace| - 1;
      ReceivesTake(s, trace[..n]);
      NextContent(Run(s, trace[..n]), trace[n]);
    }
  }

  /**
   * Everything logged gets flushed: from any state, after any further steps with at least as many
   * receives as events were queued, one tick has handed over all that had been logged, and in order.
   */
  lemma QueuedEventsAreFlushed(s: State, trace: seq<Step>)
    requires |s.queue| <= Receives(trace)
    ensures Content(s) <= Flatten(Run(s, trace + [Tick]).batches)
  {
    var t := Run(s, trace);
    ReceivesTake(s, trace);
    assert (trace + [Tick])[..|trace|] == trace;
    assert Content(t) == Taken(t) + t.queue;
    assert Content(s) <= Taken(t);
    FlushKeepsTaken(t);
    assert Taken(Next(t, Tick)) == Flatten(Next(t, Tick).batches);
  }

  class QueryLogWriter {
    const bufferSize: nat
    var channel: seq<QueryEvent>
    var buffer: seq<QueryEvent>
    var batches: seq<seq<QueryEvent>>

    ghost function View(): State
      reads this
    {
      State(bufferSize, channel, buffer, batches)
    }

    constructor (bufferSize: nat)
      ensures this.bufferSize == bufferSize && View() == Start(bufferSize)
    {
      this.bufferSize := bufferSize;
      channel, buffer, batches := [], [], [];
    }

    /** `try_send`: drops the event when the channel is full. */
    method Log(event: QueryEvent)
      modifies this
      ensures View() == Next(old(View()), Send(event))
    {
      if |channel| < CHANNEL_CAPACITY {
        channel := channel + [event];
      }
    }

    method Flush()
      modifies this
      ensures View() == Flushed(old(View()))
    {
      batches := batches + [buffer];
      buffer := [];
    }

    /** The receive arm of the loop; it waits while the channel is empty. */
    method OnReceive()
      requires channel != []
      modifies this
      ensures View() == Next(old(View()), Receive)
    {
      buffer := buffer + [channel[0]];
      channel := channel[1..];
      if |buffer| >= bufferSize {
        Flush();
      }
    }

    /** The timer arm of the loop. */
    method OnTick()
      modifies this
      ensures View() == Next(old(View()), Tick)
    {
      if buffer != [] {
        Flush();
      }
    }
  }
}
