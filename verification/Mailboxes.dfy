/** The outgoing side of one connection: a bounded queue filled by Send and drained by the write pump. */
module Mailboxes {
  import opened Outcomes

  const SEND_BUFFER_SIZE := 64

  datatype Mailbox<M> = Mailbox(
    queue: seq<M>,         // accepted, not yet picked up by the pump
    closed: bool,          // the client's context is cancelled
    pumping: bool,         // the pump has not returned
    taken: Option<M>,      // picked up, not written (for good, if the write failed)
    written: seq<M>,       // what reached the transport, oldest first
    accepted: seq<M>,      // every message Send ever accepted, oldest first
    refused: bool)         // some Send was refused

  function NewMailbox<M>(): Mailbox<M> {
    Mailbox([], false, true, None, [], [], false)
  }

  predicate Open<M>(b: Mailbox<M>) {
    !b.closed && |b.queue| < SEND_BUFFER_SIZE
  }

  /** Send never blocks: it enqueues, or refuses when the context is done or the buffer full. */
  function Send<M>(b: Mailbox<M>, m: M): Mailbox<M> {
    if Open(b) then b.(queue := b.queue + [m], accepted := b.accepted + [m]) else b.(refused := true)
  }

  function SendOutcome<M>(b: Mailbox<M>): Result<()> {
    if b.closed then Err(ClientClosed) else if |b.queue| >= SEND_BUFFER_SIZE then Err(BufferFull) else Ok(())
  }

  datatype Event<M> = Sent(m: M) | Closed | Picked | WriteDone(ok: bool) | PumpStopped(pingFailed: bool)

  /** What can happen next. The pump's select may pick a queued message even after the context is done. */
  predicate Possible<M>(b: Mailbox<M>, e: Event<M>) {
    match e
    case Sent(_) => true
    case Closed => true
    case Picked => b.pumping && b.taken.None? && b.queue != []
    case WriteDone(_) => b.pumping && b.taken.Some?
    case PumpStopped(pingFailed) => b.pumping && b.taken.None? && (pingFailed || b.closed)
  }

  /** The pump closes the client whenever it returns. */
  function After<M>(b: Mailbox<M>, e: Event<M>): Mailbox<M>
    requires Possible(b, e)
  {
    match e
    case Sent(m) => Send(b, m)
    case Closed => b.(closed := true)
    case Picked => b.(queue := b.queue[1..], taken := Some(b.queue[0]))
    case WriteDone(ok) =>
      if ok then b.(written := b.written + [b.taken.value], taken := None)
      else b.(pumping := false, closed := true)
    case PumpStopped(_) => b.(pumping := false, closed := true)
  }

  function InHand<M>(b: Mailbox<M>): seq<M> {
    if b.taken.Some? then [b.taken.value] else []
  }

  /** Nothing accepted is lost, duplicated or reordered, and the buffer keeps its bound. */
  ghost predicate Fifo<M>(b: Mailbox<M>) {
    && |b.queue| <= SEND_BUFFER_SIZE
    && b.accepted == b.written + InHand(b) + b.queue
    && (!b.pumping ==> b.closed)
  }

  /** Send says Ok exactly if the message is the newest accepted one from now on; otherwise nothing was accepted, and
      the context was done or 64 messages were waiting. */
  lemma OutcomeIffAccepted<M>(b: Mailbox<M>, m: M)
    requires Fifo(b)
    ensures SendOutcome(b) == Ok(()) <==> Send(b, m).accepted == b.accepted + [m]
    ensures SendOutcome(b) == Ok(()) <==> Send(b, m).accepted != b.accepted
    ensures SendOutcome(b).Ok? ==> Send(b, m).queue == b.queue + [m] && Send(b, m).refused == b.refused
    ensures SendOutcome(b).Err? ==> Send(b, m).refused && Send(b, m).queue == b.queue
    ensures SendOutcome(b) == Err(ClientClosed) <==> b.closed
    ensures SendOutcome(b) == Err(BufferFull) <==> !b.closed && |b.queue| == 64
  {
    assert b.accepted + [m] != b.accepted by {
      assert |b.accepted + [m]| == |b.accepted| + 1;
    }
  }

  lemma EventKeepsFifo<M>(b: Mailbox<M>, e: Event<M>)
    requires Fifo(b) && Possible(b, e)
    ensures Fifo(After(b, e))
    ensures b.written <= After(b, e).written && b.accepted <= After(b, e).accepted
    ensures b.closed ==> After(b, e).closed && After(b, e).accepted == b.accepted
    ensures !b.pumping ==> !After(b, e).pumping && After(b, e).written == b.written
  {
  }

  /** Closing closes at once; a failed write or ping ends the pump and closes the client; a write that succeeds puts out
      the message that was picked. */
  lemma EventEnds<M>(b: Mailbox<M>, e: Event<M>)
    requires Fifo(b) && Possible(b, e)
    ensures e.Closed? ==> After(b, e).closed
    ensures e == WriteDone(false) || e.PumpStopped? ==> !After(b, e).pumping && After(b, e).written == b.written
    ensures e == WriteDone(true) ==> After(b, e).written == b.written + [b.accepted[|b.written|]]
    ensures After(b, e).pumping <==> b.pumping && e != WriteDone(false) && !e.PumpStopped?
  {
  }

  predicate ValidHistory<M>(b: Mailbox<M>, events: seq<Event<M>>)
    decreases |events|
  {
    events == [] || (Possible(b, events[0]) && ValidHistory(After(b, events[0]), events[1..]))
  }

  function Replay<M>(b: Mailbox<M>, events: seq<Event<M>>): Mailbox<M>
    requires ValidHistory(b, events)
    decreases |events|
  {
    if events == [] then b else Replay(After(b, events[0]), events[1..])
  }

  /** Bounded FIFO over every history: never more than 64 queued, what was written is a prefix of what was accepted,
      after a close nothing more is accepted, and once the pump has returned nothing more is written. */
  lemma {:induction false} HistoryIsFifo<M>(b: Mailbox<M>, events: seq<Event<M>>)
    requires Fifo(b) && ValidHistory(b, events)
    ensures Fifo(Replay(b, events))
    ensures b.written <= Replay(b, events).written <= Replay(b, events).accepted
    ensures b.accepted <= Replay(b, events).accepted
    ensures b.closed ==> Replay(b, events).closed && Replay(b, events).accepted == b.accepted
    ensures !b.pumping ==> !Replay(b, events).pumping && Replay(b, events).written == b.written
    decreases |events|
  {
    if events != [] {
      EventKeepsFifo(b, events[0]);
      HistoryIsFifo(After(b, events[0]), events[1..]);
    }
  }
}
