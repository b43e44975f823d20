/**
 One event-stream connection: the hub's bounded buffer, the dispatching goroutine and the HTTP
 handler, in every order their steps can happen (db/db_sql.go, handlers/event_stream_handler.go).
 */
module EventStream {
  import opened RouteTable

  /** A hub event: its type and the JSON of the route. */
  datatype HubEvent = HubEvent(kind: EventType, value: string)

  /** What is written to the client. */
  datatype ServerSentEvent = ServerSentEvent(id: nat, name: string, data: string)

  /** The wire name of an event type. */
  function Name(kind: EventType): (s: string)
    ensures s == "Upsert" <==> kind == CreateEvent || kind == UpdateEvent
    ensures s == "Delete" <==> kind == DeleteEvent || kind == ExpireEvent
    ensures s == "Invalid" <==> kind == InvalidEvent
  {
    match kind
    case CreateEvent => "Upsert"
    case UpdateEvent => "Upsert"
    case DeleteEvent => "Delete"
    case ExpireEvent => "Delete"
    case InvalidEvent => "Invalid"
  }

  const BUFFER_SIZE := 1024

  datatype Dispatcher = Reading | Sending(event: HubEvent) | Exited

  /**
   `emitted` is everything the hub emitted since the subscription; `received` counts what the handler
   took from its channel; `chosen` says which emitted events the written ones are.
   */
  datatype Connection =
    Connection(emitted: seq<HubEvent>, subscribed: bool, buffer: seq<HubEvent>, closed: bool,
               dispatcher: Dispatcher, serving: bool, received: nat, eventId: nat,
               written: seq<ServerSentEvent>, chosen: seq<nat>, writeFailed: bool)

  datatype Action =
    | Emit(event: HubEvent)
    | CloseHub
    | Next
    | Deliver(writeFails: bool)
    | SeeClosedChannel
    | ClientLeaves

  function Subscribed(): Connection {
    Connection([], true, [], false, Reading, true, 0, 0, [], [], false)
  }

  ghost predicate Enabled(c: Connection, a: Action) {
    match a
    case Emit(_) => true
    case CloseHub => true
    case Next => c.dispatcher.Reading? && (c.buffer != [] || c.closed)
    case Deliver(_) => c.dispatcher.Sending? && c.serving
    case SeeClosedChannel => c.dispatcher.Exited? && c.serving
    case ClientLeaves => c.serving
  }

  /** The hub sends to a subscriber that can take the event, and drops one that is closed or full. */
  ghost function Offered(c: Connection, e: HubEvent): Connection {
    var c' := c.(emitted := c.emitted + [e]);
    if !c.subscribed then c'
    else if c.closed then c'.(subscribed := false)
    else if |c.buffer| < BUFFER_SIZE then c'.(buffer := c.buffer + [e])
    else c'.(closed := true, subscribed := false)
  }

  /** The handler's turn with one event from its channel: an invalid one ends it, a failed write is skipped over. */
  ghost function Handled(c: Connection, e: HubEvent, writeFails: bool): Connection {
    var c' := c.(received := c.received + 1);
    if e.kind == InvalidEvent then c'.(serving := false)
    else if writeFails then c'.(writeFailed := true)
    else c'.(written := c.written + [ServerSentEvent(c.eventId, Name(e.kind), e.value)],
             chosen := c.chosen + [c.received], eventId := c.eventId + 1)
  }

  ghost function Act(c: Connection, a: Action): Connection
    requires Enabled(c, a)
  {
    match a
    case Emit(e) => Offered(c, e)
    case CloseHub => if c.subscribed then c.(closed := true, subscribed := false) else c
    case Next =>
      if c.buffer != [] then c.(dispatcher := Sending(c.buffer[0]), buffer := c.buffer[1..])
      else c.(dispatcher := Exited)
    case Deliver(writeFails) => Handled(c, c.dispatcher.event, writeFails).(dispatcher := Reading)
    case SeeClosedChannel => c.(serving := false)
    case ClientLeaves => c.(closed := true, serving := false)
  }

  function InHand(c: Connection): seq<HubEvent> {
    if c.dispatcher.Sending? then [c.dispatcher.event] else []
  }

  /** The events on their way to the handler. */
  function Queue(c: Connection): seq<HubEvent> {
    InHand(c) + c.buffer
  }

  /** `q` is the part of `all` that starts at `from`. */
  ghost predicate Segment(q: seq<HubEvent>, all: seq<HubEvent>, from: nat) {
    from + |q| <= |all| && all[from..from + |q|] == q
  }

  lemma SegmentGrows(q: seq<HubEvent>, all: seq<HubEvent>, from: nat, e: HubEvent)
    requires Segment(q, all, from)
    ensures Segment(q, all + [e], from)
    ensures from + |q| == |all| ==> Segment(q + [e], all + [e], from)
  {
  }

  lemma SegmentMoves(q: seq<HubEvent>, all: seq<HubEvent>, from: nat)
    requires Segment(q, all, from) && q != []
    ensures Segment(q[1..], all, from + 1) && all[from] == q[0]
  {
    assert all[from..from + |q|][1..] == all[from + 1..from + |q|];
    assert all[from..from + |q|][0] == all[from];
  }

  /**
   Nothing is reordered or lost on the way: received, in hand and buffered make up the beginning of what was
   emitted.
   */
  ghost predicate PipeOk(c: Connection) {
    && Segment(Queue(c), c.emitted, c.received)
    && (c.subscribed && !c.closed ==> c.received + |Queue(c)| == |c.emitted|)
  }

  /** The written events are numbered from 0, are emitted events in their order, and skip none unless a write failed. */
  ghost predicate OutputOk(c: Connection) {
    && c.eventId == |c.written| == |c.chosen| && c.received <= |c.emitted|
    && (forall i :: 0 <= i < |c.chosen| ==> c.chosen[i] < c.received)
    && (forall i, j :: 0 <= i < j < |c.chosen| ==> c.chosen[i] < c.chosen[j])
    && (forall i :: 0 <= i < |c.written| ==>
          && c.emitted[c.chosen[i]].kind != InvalidEvent
          && c.written[i] == ServerSentEvent(i, Name(c.emitted[c.chosen[i]].kind), c.emitted[c.chosen[i]].value))
    && (!c.writeFailed ==> forall i :: 0 <= i < |c.chosen| ==> c.chosen[i] == i)
    && (!c.writeFailed && c.serving ==> |c.written| == c.received)
  }

  /** The hub drops only subscribers that are closed, and never holds more for one than the buffer takes. */
  ghost predicate HubOk(c: Connection) {
    (c.subscribed || c.closed) && |c.buffer| <= 1024
  }

  ghost predicate Inv(c: Connection) {
    PipeOk(c) && OutputOk(c) && HubOk(c)
  }

  /** Output depends on what the handler did and on the beginning of the log only. */
  lemma SameOutput(c: Connection, c': Connection)
    requires OutputOk(c) && c.emitted <= c'.emitted
    requires c'.written == c.written && c'.chosen == c.chosen && c'.received == c.received && c'.eventId == c.eventId
    requires c'.writeFailed == c.writeFailed && (c'.serving ==> c.serving)
    ensures OutputOk(c')
  {
    assert forall k :: 0 <= k < |c.emitted| ==> c'.emitted[k] == c.emitted[k];
  }

  lemma SamePipe(c: Connection, c': Connection)
    requires PipeOk(c) && Queue(c') == Queue(c) && c'.emitted == c.emitted && c'.received == c.received
    requires c'.subscribed && !c'.closed ==> c.subscribed && !c.closed
    ensures PipeOk(c')
  {
  }

  lemma EmitKeepsPipe(c: Connection, e: HubEvent)
    requires PipeOk(c)
    ensures PipeOk(Offered(c, e))
  {
    SegmentGrows(Queue(c), c.emitted, c.received, e);
    if c.subscribed && !c.closed && |c.buffer| < BUFFER_SIZE {
      assert Queue(Offered(c, e)) == Queue(c) + [e];
    }
  }

  /** Taking an event in hand changes nothing about what is on its way. */
  lemma NextQueue(c: Connection)
    requires Enabled(c, Next)
    ensures Queue(Act(c, Next)) == Queue(c)
  {
    if c.buffer != [] { assert [c.buffer[0]] + c.buffer[1..] == c.buffer; }
  }

  lemma DeliverKeepsPipe(c: Connection, writeFails: bool)
    requires PipeOk(c) && Enabled(c, Deliver(writeFails))
    ensures PipeOk(Act(c, Deliver(writeFails)))
    ensures c.received < |c.emitted| && c.emitted[c.received] == c.dispatcher.event
  {
    assert Queue(c)[0] == c.dispatcher.event;
    assert Queue(Act(c, Deliver(writeFails))) == Queue(c)[1..];
    SegmentMoves(Queue(c), c.emitted, c.received);
  }

  lemma WriteKeepsOutput(c: Connection, e: HubEvent)
    requires OutputOk(c) && c.serving && e.kind != InvalidEvent
    requires c.received < |c.emitted| && c.emitted[c.received] == e
    ensures OutputOk(Handled(c, e, false))
  {
    var c' := Handled(c, e, false);
    var n := |c.written|;
    assert c'.chosen[n] == c.received && c'.written[n] == ServerSentEvent(n, Name(e.kind), e.value);
    forall i | 0 <= i < n ensures c'.chosen[i] == c.chosen[i] && c'.written[i] == c.written[i] {}
  }

  lemma DeliverKeepsOutput(c: Connection, writeFails: bool)
    requires OutputOk(c) && Enabled(c, Deliver(writeFails))
    requires c.received < |c.emitted| && c.emitted[c.received] == c.dispatcher.event
    ensures OutputOk(Act(c, Deliver(writeFails)))
  {
    if c.dispatcher.event.kind != InvalidEvent && !writeFails { WriteKeepsOutput(c, c.dispatcher.event); }
  }

  /** Steps that neither emit nor deliver leave the log, the queue and the output alone. */
  lemma QuietStep(c: Connection, a: Action)
    requires Enabled(c, a) && !a.Emit? && !a.Deliver?
    ensures var c' := Act(c, a);
            && Queue(c') == Queue(c) && c'.emitted == c.emitted && c'.received == c.received
            && (c'.subscribed && !c'.closed ==> c.subscribed && !c.closed)
            && c'.written == c.written && c'.chosen == c.chosen && c'.eventId == c.eventId
            && c'.writeFailed == c.writeFailed
            && (c'.serving ==> c.serving)
            && (HubOk(c) ==> HubOk(c'))
  {
    if a.Next? { NextQueue(c); }
  }

  lemma ActKeepsInv(c: Connection, a: Action)
    requires Inv(c) && Enabled(c, a)
    ensures Inv(Act(c, a))
  {
    if a.Emit? {
      EmitKeepsPipe(c, a.event);
      SameOutput(c, Act(c, a));
    } else if a.Deliver? {
      DeliverKeepsPipe(c, a.writeFails);
      DeliverKeepsOutput(c, a.writeFails);
    } else {
      QuietStep(c, a);
      SamePipe(c, Act(c, a));
      SameOutput(c, Act(c, a));
    }
  }

  ghost predicate History(h: seq<Action>)
    decreases |h|, 0
  {
    h == [] || (History(h[..|h| - 1]) && Enabled(At(h[..|h| - 1]), h[|h| - 1]))
  }

  /** The connection after a history; every one satisfies the invariant. */
  ghost function At(h: seq<Action>): (c: Connection)
    requires History(h)
    ensures Inv(c)
    decreases |h|, 1
  {
    if h == [] then Subscribed() else
    ActKeepsInv(At(h[..|h| - 1]), h[|h| - 1]);
    Act(At(h[..|h| - 1]), h[|h| - 1])
  }

  /**
   In every interleaving an open subscriber is dropped by the hub exactly when 1024 events are waiting for it; otherwise
   the event waits behind the others. One that is gone gets nothing more.
   */
  lemma DroppedIff(h: seq<Action>, e: HubEvent)
    requires History(h)
    ensures var c, c' := At(h), Act(At(h), Emit(e));
            && |c.buffer| <= 1024 && c'.emitted == c.emitted + [e]
            && (c.subscribed && !c.closed ==>
                  (c'.closed <==> |c.buffer| == 1024) && (c'.subscribed <==> |c.buffer| < 1024)
                  && c'.buffer == if |c.buffer| < 1024 then c.buffer + [e] else c.buffer)
            && (!c.subscribed || c.closed ==> !c'.subscribed && c'.closed && c'.buffer == c.buffer)
  {
    assert Inv(At(h));
  }

  /**
   What the handler does with the next event there is: an invalid one makes it return, any other is written under the
   next id unless the write fails, and then it goes on serving.
   */
  lemma DeliveredHow(h: seq<Action>, writeFails: bool)
    requires History(h) && Enabled(At(h), Deliver(writeFails))
    ensures var c, c' := At(h), Act(At(h), Deliver(writeFails));
            && c.received < |c.emitted| && c'.received == c.received + 1
            && var e := c.emitted[c.received];
               && (c'.serving <==> e.kind != InvalidEvent)
               && c'.written == if e.kind == InvalidEvent || writeFails then c.written
                                else c.written + [ServerSentEvent(|c.written|, Name(e.kind), e.value)]
  {
    DeliverKeepsPipe(At(h), writeFails);
  }

  /** Written event `i` has id `i`, and is emitted event `chosen[i]` under its wire name, which is not "Invalid". */
  ghost predicate Faithful(written: seq<ServerSentEvent>, chosen: seq<nat>, emitted: seq<HubEvent>) {
    && |chosen| == |written|
    && (forall i :: 0 <= i < |chosen| ==> chosen[i] < |emitted|)
    && (forall i, j :: 0 <= i < j < |chosen| ==> chosen[i] < chosen[j])
    && (forall i :: 0 <= i < |written| ==>
          && written[i].name != "Invalid"
          && written[i] == ServerSentEvent(i, Name(emitted[chosen[i]].kind), emitted[chosen[i]].value))
  }

  lemma OutputIsFaithful(c: Connection)
    requires OutputOk(c)
    ensures Faithful(c.written, c.chosen, c.emitted)
  {
    forall i | 0 <= i < |c.written| ensures c.written[i].name != "Invalid" {
      assert c.emitted[c.chosen[i]].kind != InvalidEvent;
    }
  }

  /**
   In every interleaving, whatever is emitted: ids without gaps, never an event named "Invalid", and the
   emitted events in their order, from the first on and without omission unless a write failed.
   */
  lemma StreamIsFaithful(h: seq<Action>)
    requires History(h)
    ensures Faithful(At(h).written, At(h).chosen, At(h).emitted)
    ensures !At(h).writeFailed ==> forall i :: 0 <= i < |At(h).chosen| ==> At(h).chosen[i] == i
  {
    OutputIsFaithful(At(h));
  }

  /** Open, with nothing on the way, and no write failed so far. */
  ghost predicate CaughtUp(c: Connection) {
    c.serving && c.subscribed && !c.closed && c.dispatcher.Reading? && c.buffer == [] && !c.writeFailed
  }

  /** A connection that has kept up and has failed no write has been sent everything there is. */
  lemma NothingOutstanding(h: seq<Action>)
    requires History(h)
    requires CaughtUp(At(h))
    ensures |At(h).written| == |At(h).emitted|
  {
    assert Queue(At(h)) == [];
  }

  // ---------------------------------------------------------------- the dispatcher after the handler

  /** Nobody takes what the dispatcher has to send. */
  ghost predicate Stuck(c: Connection) {
    !c.serving && !c.dispatcher.Exited? && Queue(c) != []
  }

  lemma StuckStep(c: Connection, a: Action)
    requires Enabled(c, a) && Stuck(c)
    ensures Stuck(Act(c, a)) && (c.dispatcher.Sending? ==> Act(c, a).dispatcher == c.dispatcher)
  {
    if a.Next? { NextQueue(c); }
  }

  /** Once the handler has returned, a dispatcher with anything left to send never exits. */
  lemma {:induction false} DispatcherIsStuck(h: seq<Action>, end: seq<Action>)
    requires History(h) && History(end) && h <= end && Stuck(At(h))
    ensures Stuck(At(end))
    ensures At(h).dispatcher.Sending? ==> At(end).dispatcher == At(h).dispatcher
    decreases |end|
  {
    if |end| == |h| {
      assert end == h;
    } else {
      var before := end[..|end| - 1];
      DispatcherIsStuck(h, before);
      StuckStep(At(before), end[|end| - 1]);
    }
  }

  /** `end` continues `h`, and by then the dispatcher has exited. */
  ghost predicate ExitsBy(h: seq<Action>, end: seq<Action>) {
    h <= end && History(end) && At(end).dispatcher.Exited?
  }

  lemma Extended(h: seq<Action>, a: Action)
    requires History(h) && Enabled(At(h), a)
    ensures History(h + [a]) && At(h + [a]) == Act(At(h), a)
  {
    assert (h + [a])[..|h + [a]| - 1] == h;
  }

  lemma ClosedExits(h: seq<Action>)
    requires History(h) && At(h).dispatcher.Reading? && At(h).buffer == [] && At(h).closed
    ensures ExitsBy(h, h + [Next])
  {
    Extended(h, Next);
  }

  /** With nothing left to send it exits once its source is closed, which the hub can do at any time. */
  lemma IdleExits(h: seq<Action>) returns (end: seq<Action>)
    requires History(h) && At(h).dispatcher.Reading? && At(h).buffer == []
    ensures ExitsBy(h, end)
  {
    if At(h).closed {
      ClosedExits(h);
      end := h + [Next];
    } else {
      Extended(h, CloseHub);
      ClosedExits(h + [CloseHub]);
      end := h + [CloseHub] + [Next];
    }
  }

  /** A client that leaves with nothing on its way takes the dispatcher along: its next step is to exit. */
  lemma LeavingExits(h: seq<Action>)
    requires History(h) && At(h).serving && At(h).dispatcher.Reading? && At(h).buffer == []
    ensures ExitsBy(h, h + [ClientLeaves] + [Next])
  {
    Extended(h, ClientLeaves);
    ClosedExits(h + [ClientLeaves]);
  }

  lemma ReturnedStep(c: Connection, a: Action)
    requires Enabled(c, a) && !c.serving
    ensures !Act(c, a).serving && Act(c, a).written == c.written
  {
  }

  lemma {:induction false} ReturnedStays(h: seq<Action>, end: seq<Action>)
    requires History(h) && History(end) && h <= end && !At(h).serving
    ensures !At(end).serving && At(end).written == At(h).written
    decreases |end|
  {
    if |end| == |h| {
      assert end == h;
    } else {
      var before := end[..|end| - 1];
      ReturnedStays(h, before);
      ReturnedStep(At(before), end[|end| - 1]);
    }
  }

  /** What makes the handler return: its channel is closed, its client is gone, or the event in hand is invalid. */
  ghost predicate Ends(c: Connection, a: Action) {
    || a == SeeClosedChannel || a == ClientLeaves
    || (a.Deliver? && c.dispatcher.Sending? && c.dispatcher.event.kind == InvalidEvent)
  }

  /** Whichever it is, the handler never writes again. */
  lemma {:induction false} HandlerReturns(h: seq<Action>, a: Action, end: seq<Action>)
    requires History(h) && Enabled(At(h), a) && Ends(At(h), a)
    requires History(end) && h + [a] <= end
    ensures !At(end).serving && At(end).written == At(h).written
  {
    Extended(h, a);
    ReturnedStays(h + [a], end);
  }

  /** After the handler's return the dispatcher can still exit exactly when it has, or has nothing left to send. */
  lemma ExitsIff(h: seq<Action>)
    requires History(h) && !At(h).serving
    ensures (exists end :: ExitsBy(h, end)) <==> At(h).dispatcher.Exited? || Queue(At(h)) == []
  {
    if At(h).dispatcher.Exited? {
      assert ExitsBy(h, h);
    } else if Queue(At(h)) == [] {
      var end := IdleExits(h);
    } else {
      forall end ensures !ExitsBy(h, end) {
        if h <= end && History(end) { DispatcherIsStuck(h, end); }
      }
    }
  }
}
