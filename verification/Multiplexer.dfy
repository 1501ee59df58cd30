/** The WebSocket subscription multiplexer of crates/client/src/ws.rs as a transition system. */
module Multiplexer {
  import opened Wrappers
  import opened Numerals

  type Payload = string

  datatype ServerMessage =
    | ConnectionError(payload: Payload)
    | ConnectionAck
    | Data(id: string, payload: Payload)
    | Error(id: string, payload: Payload)
    | Complete(id: string)
    | ConnectionKeepAlive

  datatype ClientMessage = Start(id: string, request: Payload) | Stop(id: string) | Terminate

  /** What the stream of a subscription yields. */
  datatype Item = Value(payload: Payload) | ServerError(payload: Payload)

  // ----- Ids -----

  function IdText(id: nat): string {
    Numeral(id, 16)
  }

  /** `ServerMessage::id`: lenient, so that several texts may stand for one id. */
  function IdOf(m: ServerMessage): Option<nat> {
    match m
    case Data(id, _) => ParseUnsigned(id, 16, U64_MAX)
    case Error(id, _) => ParseUnsigned(id, 16, U64_MAX)
    case Complete(id) => ParseUnsigned(id, 16, U64_MAX)
    case _ => None
  }

  /** An id is written in upper case without leading zeros; the text is read back as that id, and as no other. */
  lemma IdTextIsUnique(id: nat, other: nat)
    requires id <= U64_MAX
    ensures ParseUnsigned(IdText(id), 16, U64_MAX) == Some(id)
    ensures other <= U64_MAX && IdText(other) == IdText(id) ==> other == id
    ensures IdText(id)[0] == '0' ==> id == 0
    ensures forall i | 0 <= i < |IdText(id)| :: '0' <= IdText(id)[i] <= '9' || 'A' <= IdText(id)[i] <= 'F'
  {
    NumeralIsUpperCase(id, 16);
    NumeralRoundTrip(id, 16, U64_MAX);
    NumeralRoundTrip(other, 16, U64_MAX);
  }

  /**
   The id `text` stands for if it is not written as the client writes it: signs, zeros and
   lower case are let through.
   */
  lemma LenientIds()
    ensures ParseUnsigned("+1", 16, U64_MAX) == ParseUnsigned("01", 16, U64_MAX) == Some(1)
    ensures ParseUnsigned("1", 16, U64_MAX) == Some(1)
    ensures ParseUnsigned("a", 16, U64_MAX) == ParseUnsigned("A", 16, U64_MAX) == Some(10)
  {
    assert "+1"[1..] == "1" && "01"[..1] == "0" && "1"[..0] == "";
    assert DigitsValue("1", 16) == Some(1) && DigitsValue("0", 16) == Some(0) && DigitsValue("01", 16) == Some(1);
    assert DigitsValue("a", 16) == Some(10) && DigitsValue("A", 16) == Some(10);
  }

  // ----- States -----

  datatype Status =
    | Starting   // `subscribe` is between its two lock sections
    | Unpolled   // the subscription is with its user, whose stream has not been polled
    | Running    // the stream was polled, so the subscription is with its task
    | Returned   // the task has ended
    | Dropped    // the user dropped the subscription before polling it
    | Abandoned  // `subscribe` did not get to its end

  datatype Consumer = Consumer(queue: seq<ServerMessage>, yielded: seq<Item>, status: Status) {
    /** The receiving end of the handle's channel is still there. */
    predicate Live() {
      status == Starting || status == Unpolled || status == Running
    }

    /** There was a subscription, and it is gone. */
    predicate Gone() {
      status == Returned || status == Dropped
    }
  }

  /** The channel to the sender task of a connection: open while that task runs, and what was put into it. */
  datatype Connection = Connection(open: bool, sent: seq<ClientMessage>)

  /**
   `subscriptions` maps ids to their requests; the channel of a handle is the queue of the
   consumer with the same id.  `connections` are all that were ever installed, the last one
   being the current one, and `senders` says to which of them a subscription will send its
   Stop.  `cleanup` is the id that the receiving task is about to remove.  `log` and
   `registered` record what messages have been processed, and how many when each
   subscription was made.
   */
  datatype State = State(
    subscriptions: map<nat, Payload>,
    idCount: nat,
    starting: Option<Payload>,
    connections: seq<Connection>,
    senders: map<nat, nat>,
    consumers: map<nat, Consumer>,
    cleanup: Option<nat>,
    log: seq<ServerMessage>,
    registered: map<nat, nat>)

  const Init: State := State(map[], 0, None, [Connection(true, [])], map[], map[], None, [], map[])

  /**
   Every event is one atomic section of the tasks: the two lock sections of `subscribe`, the
   two lock sections of `process_server_message`, one turn of a subscription task, the end
   of a sender task, and the installation of a new connection.  A user may stop waiting for
   `subscribe`, poll a stream, or drop a subscription.  Events of different tasks interleave
   freely.
   */
  datatype Event =
    | Register(request: Payload)
    | SendStart
    | Cancel
    | Poll(id: nat)
    | Drop(id: nat)
    | Process(msg: ServerMessage)
    | Remove
    | Turn(id: nat)
    | EndSender(connection: nat)
    | Install

  // ----- Steps -----

  /** `tx.send`: a message reaches a channel as long as its receiver is there. */
  function Push(c: Consumer, m: ServerMessage): Consumer {
    if c.Live() then c.(queue := c.queue + [m]) else c
  }

  function Accept(c: Connection, m: ClientMessage): Connection {
    if c.open then c.(sent := c.sent + [m]) else c
  }

  predicate EndsSubscription(m: ServerMessage) {
    m.Error? || m.Complete?
  }

  /** What steps rely on; every state that is reached has it. */
  predicate Sane(s: State) {
    && s.connections != []
    && s.subscriptions.Keys <= s.consumers.Keys
    && (s.starting.Some? ==> s.idCount in s.consumers && s.consumers[s.idCount].status == Starting)
    && (forall id | id in s.consumers && (s.consumers[id].status == Unpolled || s.consumers[id].status == Running) ::
          id in s.senders && s.senders[id] < |s.connections|)
  }

  /** The first lock section of `process_server_message`. */
  function ProcessMessage(s: State, m: ServerMessage): State
    requires s.subscriptions.Keys <= s.consumers.Keys
  {
    var s1 := s.(log := s.log + [m]);
    match IdOf(m)
    case None =>
      s1.(consumers := map id | id in s.consumers ::
        if id in s.subscriptions then Push(s.consumers[id], m) else s.consumers[id])
    case Some(id) =>
      if id in s.subscriptions then
        var failed := !s.consumers[id].Live();
        s1.(consumers := s.consumers[id := Push(s.consumers[id], m)],
            cleanup := if failed || EndsSubscription(m) then Some(id) else None)
      else s1
  }

  /** One turn of a subscription task on the message `m` from its channel. */
  function Consume(id: nat, c: Consumer): Consumer
    requires c.queue != []
  {
    var m, c1 := c.queue[0], c.(queue := c.queue[1..]);
    match m
    case Data(text, payload) => if text == IdText(id) then c1.(yielded := c.yielded + [Value(payload)]) else c1
    case Complete(text) => if text == IdText(id) then c1.(status := Returned) else c1
    case ConnectionError(payload) => c1.(yielded := c.yielded + [ServerError(payload)], status := Returned)
    case Error(text, payload) =>
      if text == IdText(id) then c1.(yielded := c.yielded + [ServerError(payload)]) else c1
    case ConnectionAck => c1
    case ConnectionKeepAlive => c1
  }

  function AfterTurn(id: nat, c: Consumer): Consumer {
    if c.queue == [] then c.(status := Returned) else Consume(id, c)
  }

  predicate Enabled(s: State, e: Event) {
    && Sane(s)
    && match e
       case Register(_) => s.starting == None && s.idCount < U64_MAX
       case SendStart => s.starting.Some?
       case Cancel => s.starting.Some?
       case Poll(id) => id in s.consumers && s.consumers[id].status == Unpolled
       case Drop(id) => id in s.consumers && s.consumers[id].status == Unpolled
       case Process(m) => s.cleanup == None && m != ConnectionKeepAlive
       case Remove => s.cleanup.Some?
       case Turn(id) =>
         // A message is there, or the sender is gone.
         id in s.consumers && s.consumers[id].status == Running
         && (s.consumers[id].queue != [] || id !in s.subscriptions)
       case EndSender(k) => k < |s.connections| && s.connections[k].open
       case Install => true
  }

  function Current(s: State): nat
    requires s.connections != []
  {
    |s.connections| - 1
  }

  function Apply(s: State, e: Event): State
    requires Enabled(s, e)
  {
    match e
    case Register(request) =>
      var id := s.idCount + 1;
      s.(idCount := id,
         subscriptions := s.subscriptions[id := request],
         consumers := s.consumers[id := Consumer([], [], Starting)],
         registered := s.registered[id := |s.log|],
         starting := Some(request))
    case SendStart =>
      if s.connections[Current(s)].open then
        WithStatus(Sent(s, Current(s), Start(IdText(s.idCount), s.starting.value)), s.idCount, Unpolled)
          .(starting := None, senders := s.senders[s.idCount := Current(s)])
      else WithStatus(s, s.idCount, Abandoned).(starting := None)   // the panic of `unwrap`
    case Cancel => WithStatus(s, s.idCount, Abandoned).(starting := None)
    case Poll(id) => WithStatus(s, id, Running)
    case Drop(id) => WithConsumer(s, id, s.consumers[id].(status := Dropped))
    case Process(m) => ProcessMessage(s, m)
    case Remove => s.(subscriptions := s.subscriptions - {s.cleanup.value}, cleanup := None)
    case Turn(id) => WithConsumer(s, id, AfterTurn(id, s.consumers[id]))
    case EndSender(k) => s.(connections := s.connections[k := s.connections[k].(open := false)])
    case Install =>
      var s1 := Sent(s, Current(s), Terminate);   // the old connection is dropped
      s1.(connections := s1.connections + [Connection(true, [])])
  }

  function WithStatus(s: State, id: nat, status: Status): State
    requires id in s.consumers
  {
    s.(consumers := s.consumers[id := s.consumers[id].(status := status)])
  }

  function Sent(s: State, k: nat, m: ClientMessage): State
    requires k < |s.connections|
  {
    s.(connections := s.connections[k := Accept(s.connections[k], m)])
  }

  /** A subscription that ends, either way, tries to send a Stop when it is dropped. */
  function WithConsumer(s: State, id: nat, c: Consumer): State
    requires id in s.senders && s.senders[id] < |s.connections|
  {
    (if c.Gone() then Sent(s, s.senders[id], Stop(IdText(id))) else s).(consumers := s.consumers[id := c])
  }

  /** The state after a run of events, if each of them is enabled in its turn. */
  function After(events: seq<Event>): Option<State> {
    if events == [] then Some(Init)
    else
      match After(events[..|events| - 1])
      case None => None
      case Some(s) =>
        var e := events[|events| - 1];
        if Enabled(s, e) then Some(Apply(s, e)) else None
  }

  // ----- What a stream should yield, from the message log alone -----

  predicate RoutedTo(id: nat, m: ServerMessage) {
    IdOf(m) == Some(id)
  }

  /** The message ends the stream of `id`: it is routed there and final, or it is a connection error. */
  predicate Ends(id: nat, m: ServerMessage) {
    m.ConnectionError? || (RoutedTo(id, m) && EndsSubscription(m))
  }

  /** What one message adds to the stream of `id`. */
  function Yields(id: nat, m: ServerMessage): seq<Item> {
    match m
    case Data(text, payload) => if text == IdText(id) then [Value(payload)] else []
    case Error(text, payload) => if text == IdText(id) then [ServerError(payload)] else []
    case ConnectionError(payload) => [ServerError(payload)]
    case _ => []
  }

  /** The stream of a subscription registered just before `msgs`. */
  function Expected(id: nat, msgs: seq<ServerMessage>): seq<Item> {
    if msgs == [] then []
    else if Ended(id, msgs[..|msgs| - 1]) then Expected(id, msgs[..|msgs| - 1])
    else Expected(id, msgs[..|msgs| - 1]) + Yields(id, msgs[|msgs| - 1])
  }

  predicate Ended(id: nat, msgs: seq<ServerMessage>) {
    exists i :: 0 <= i < |msgs| && Ends(id, msgs[i])
  }

  /** No message so far has made the multiplexer forget the subscription. */
  predicate Closed(id: nat, msgs: seq<ServerMessage>) {
    exists i :: 0 <= i < |msgs| && RoutedTo(id, msgs[i]) && EndsSubscription(msgs[i])
  }

  // ----- What a subscription task makes of its queue -----

  /** The task returns on this message. */
  predicate Stops(id: nat, m: ServerMessage) {
    m.ConnectionError? || m == Complete(IdText(id))
  }

  predicate WillStop(id: nat, queue: seq<ServerMessage>) {
    exists i :: 0 <= i < |queue| && Stops(id, queue[i])
  }

  /** What the task yields on a queue of messages. */
  function Played(id: nat, queue: seq<ServerMessage>): seq<Item> {
    if queue == [] then []
    else if Stops(id, queue[0]) then Yields(id, queue[0])
    else Yields(id, queue[0]) + Played(id, queue[1..])
  }

  // ----- The invariant -----

  /** The messages processed since the subscription was made. */
  function Since(s: State, id: nat): seq<ServerMessage>
    requires id in s.registered && s.registered[id] <= |s.log|
  {
    s.log[s.registered[id]..]
  }

  predicate Forgotten(s: State, id: nat) {
    id !in s.subscriptions || s.cleanup == Some(id)
  }

  /**
   A consumer in step with the messages since its subscription was made; `forgotten` says
   that the multiplexer routes no further messages to it.
   */
  ghost predicate Follows(id: nat, c: Consumer, msgs: seq<ServerMessage>, forgotten: bool) {
    match c.status
    case Returned => c.yielded == Expected(id, msgs) && Ended(id, msgs)
    case Dropped => c.yielded == []
    case Abandoned => c.yielded == []
    case _ =>
      && c.yielded + Played(id, c.queue) == Expected(id, msgs)
      && (Closed(id, msgs) <==> forgotten)
      && (WillStop(id, c.queue) ==> Ended(id, msgs))
      && (!Closed(id, msgs) ==> (WillStop(id, c.queue) <==> Ended(id, msgs)))
      && (c.status != Running ==> c.yielded == [])
  }

  ghost predicate ConsumerInv(s: State, id: nat)
    requires id in s.consumers && id in s.registered && s.registered[id] <= |s.log|
  {
    Follows(id, s.consumers[id], Since(s, id), Forgotten(s, id))
  }

  ghost predicate Inv(s: State) {
    && Sane(s)
    && s.consumers.Keys == s.registered.Keys
    && s.idCount <= U64_MAX
    && (forall id | id in s.consumers :: id <= s.idCount)
    && (forall id | id in s.consumers :: s.registered[id] <= |s.log|)
    && (s.cleanup.Some? ==> s.cleanup.value in s.subscriptions)
    && (forall id | id in s.consumers :: s.consumers[id].status == Starting ==> s.starting.Some? && id == s.idCount)
    && (forall id | id in s.consumers :: ConsumerInv(s, id))
  }

  // ----- One message more -----

  lemma SinceMore(id: nat, msgs: seq<ServerMessage>, m: ServerMessage)
    ensures Expected(id, msgs + [m]) ==
            if Ended(id, msgs) then Expected(id, msgs) else Expected(id, msgs) + Yields(id, m)
    ensures Ended(id, msgs + [m]) <==> Ended(id, msgs) || Ends(id, m)
    ensures Closed(id, msgs + [m]) <==> Closed(id, msgs) || (RoutedTo(id, m) && EndsSubscription(m))
  {
    var all := msgs + [m];
    assert all[..|all| - 1] == msgs;
    assert forall i | 0 <= i < |msgs| :: all[i] == msgs[i];
    assert all[|msgs|] == m;
  }

  lemma {:induction false} PlayedMore(id: nat, queue: seq<ServerMessage>, m: ServerMessage)
    ensures Played(id, queue + [m]) ==
            if WillStop(id, queue) then Played(id, queue) else Played(id, queue) + Yields(id, m)
    ensures WillStop(id, queue + [m]) <==> WillStop(id, queue) || Stops(id, m)
  {
    hide Yields, Stops, WillStop;
    WillStopMore(id, queue, m);
    if queue == [] {
      assert !WillStop(id, queue) by { NothingStops(id); }
      assert queue + [m] == [m];
      assert Played(id, [m][1..]) == [];
    } else {
      assert (queue + [m])[1..] == queue[1..] + [m];
      PlayedMore(id, queue[1..], m);
      WillStopTail(id, queue);
    }
  }

  lemma NothingStops(id: nat)
    ensures !WillStop(id, [])
  {
  }

  lemma WillStopMore(id: nat, queue: seq<ServerMessage>, m: ServerMessage)
    ensures WillStop(id, queue + [m]) <==> WillStop(id, queue) || Stops(id, m)
  {
    assert forall i | 0 <= i < |queue| :: (queue + [m])[i] == queue[i];
    assert (queue + [m])[|queue|] == m;
  }

  lemma WillStopTail(id: nat, queue: seq<ServerMessage>)
    requires queue != []
    ensures WillStop(id, queue) <==> Stops(id, queue[0]) || WillStop(id, queue[1..])
  {
    assert forall i | 0 <= i < |queue| - 1 :: queue[1..][i] == queue[i + 1];
    if WillStop(id, queue) && !Stops(id, queue[0]) {
      var i :| 0 <= i < |queue| && Stops(id, queue[i]);
      assert queue[1..][i - 1] == queue[i];
    }
  }

  /** A message that is not delivered to `id` adds nothing to its stream. */
  lemma NotDelivered(id: nat, m: ServerMessage)
    requires id <= U64_MAX && IdOf(m).Some? && !RoutedTo(id, m)
    ensures Yields(id, m) == [] && !Ends(id, m) && !Stops(id, m)
  {
    IdTextIsUnique(id, id);
  }

  /** A message under any other text for the id is routed to the subscription, but adds nothing to its stream. */
  lemma LenientIdsAreDiscarded(id: nat, m: ServerMessage)
    requires id <= U64_MAX && RoutedTo(id, m) && m.id != IdText(id)
    ensures Yields(id, m) == [] && !Stops(id, m)
  {
  }

  /** The task returns on a delivered message only if the message ends the stream. */
  lemma StopsIsEnds(id: nat, m: ServerMessage)
    requires id <= U64_MAX
    ensures Stops(id, m) ==> Ends(id, m)
    ensures Ends(id, m) && !Stops(id, m) ==> RoutedTo(id, m) && EndsSubscription(m)
  {
    IdTextIsUnique(id, id);
  }

  lemma DeliveredFollows(id: nat, c: Consumer, msgs: seq<ServerMessage>, m: ServerMessage)
    requires id <= U64_MAX && Follows(id, c, msgs, false) && (RoutedTo(id, m) || IdOf(m).None?)
    ensures Follows(id, Push(c, m), msgs + [m], c.Live() && RoutedTo(id, m) && EndsSubscription(m))
    ensures Push(c, m).Live() == c.Live()
  {
    hide Expected, Played, IdOf, Ended, Closed, WillStop, Yields, Stops, Ends;
    SinceMore(id, msgs, m);
    PlayedMore(id, c.queue, m);
    StopsIsEnds(id, m);
    ClosedIsEnded(id, msgs);
    assert c.yielded + (Played(id, c.queue) + Yields(id, m)) == c.yielded + Played(id, c.queue) + Yields(id, m);
  }

  /** A message routed to another subscription, or to none because this one is forgotten. */
  lemma UndeliveredFollows(id: nat, c: Consumer, msgs: seq<ServerMessage>, m: ServerMessage, forgotten: bool)
    requires id <= U64_MAX && Follows(id, c, msgs, forgotten)
    requires forgotten || (IdOf(m).Some? && !RoutedTo(id, m))
    ensures Follows(id, c, msgs + [m], forgotten)
  {
    hide Expected, Played, IdOf, Ended, Closed, WillStop, Yields, Stops, Ends;
    SinceMore(id, msgs, m);
    ClosedIsEnded(id, msgs);
    if IdOf(m).Some? && !RoutedTo(id, m) {
      NotDelivered(id, m);
      assert Expected(id, msgs) + [] == Expected(id, msgs);
    }
  }

  lemma ClosedIsEnded(id: nat, msgs: seq<ServerMessage>)
    ensures Closed(id, msgs) ==> Ended(id, msgs)
  {
    if Closed(id, msgs) {
      var i :| 0 <= i < |msgs| && RoutedTo(id, msgs[i]) && EndsSubscription(msgs[i]);
      assert Ends(id, msgs[i]);
    }
  }

  // ----- Every event keeps the invariant -----

  /** The message goes into the channel of `id`. */
  predicate GoesTo(s: State, m: ServerMessage, id: nat) {
    id in s.subscriptions && (IdOf(m).None? || RoutedTo(id, m))
  }

  /** What processing a message does, handle by handle. */
  lemma ProcessedIs(s: State, m: ServerMessage)
    requires Enabled(s, Process(m))
    ensures var s' := ProcessMessage(s, m);
            && s' == s.(log := s.log + [m], consumers := s'.consumers, cleanup := s'.cleanup)
            && s'.consumers.Keys == s.consumers.Keys
            && (forall id | id in s.consumers ::
                  s'.consumers[id] == if GoesTo(s, m, id) then Push(s.consumers[id], m) else s.consumers[id])
            && (s'.cleanup.Some? ==> s'.cleanup.value in s.subscriptions)
            && (forall id | id in s.consumers ::
                  s'.cleanup == Some(id) <==>
                  GoesTo(s, m, id) && RoutedTo(id, m) && (!s.consumers[id].Live() || EndsSubscription(m)))
  {
    hide IdOf, EndsSubscription, Push, Consumer.Live;
  }

  lemma ProcessKeepsConsumer(s: State, m: ServerMessage, id: nat)
    requires Inv(s) && Enabled(s, Process(m)) && id in s.consumers
    ensures var s' := ProcessMessage(s, m);
            s'.consumers.Keys == s.consumers.Keys && s'.registered == s.registered && ConsumerInv(s', id)
  {
    hide Inv, Sane, Follows, IdOf, EndsSubscription, ProcessMessage, RoutedTo, Push, Consumer.Live;
    InvOf(s, id);
    ProcessedIs(s, m);
    var s' := ProcessMessage(s, m);
    var c, msgs := s.consumers[id], Since(s, id);
    assert Since(s', id) == msgs + [m];
    if GoesTo(s, m, id) {
      DeliveredFollows(id, c, msgs, m);
      DeadFollows(id, Push(c, m), msgs + [m]);
    } else {
      UndeliveredFollows(id, c, msgs, m, Forgotten(s, id));
    }
  }

  lemma InvOf(s: State, id: nat)
    requires Inv(s) && id in s.consumers
    ensures id in s.registered && s.registered[id] <= |s.log| && ConsumerInv(s, id)
    ensures id <= U64_MAX && s.subscriptions.Keys <= s.consumers.Keys
  {
    hide ConsumerInv;
  }

  /** Whether a consumer without a receiver is forgotten makes no difference. */
  lemma DeadFollows(id: nat, c: Consumer, msgs: seq<ServerMessage>)
    ensures !c.Live() ==> (Follows(id, c, msgs, true) <==> Follows(id, c, msgs, false))
  {
  }

  lemma ProcessKeepsInv(s: State, m: ServerMessage)
    requires Inv(s) && Enabled(s, Process(m))
    ensures Inv(ProcessMessage(s, m))
  {
    hide ConsumerInv, ProcessMessage, GoesTo, IdOf, EndsSubscription, RoutedTo;
    ProcessedIs(s, m);
    var s' := ProcessMessage(s, m);
    forall id | id in s.consumers ensures s'.consumers[id].status == s.consumers[id].status {
    }
    hide Push;
    forall id | id in s'.consumers ensures ConsumerInv(s', id) {
      ProcessKeepsConsumer(s, m, id);
    }
  }

  lemma RegisterKeepsInv(s: State, request: Payload)
    requires Inv(s) && Enabled(s, Register(request))
    ensures Inv(Apply(s, Register(request)))
  {
    hide Follows;
    var s' := Apply(s, Register(request));
    var newId := s.idCount + 1;
    assert Since(s', newId) == [];
    FreshFollows(newId);
    forall id | id in s'.consumers ensures ConsumerInv(s', id) {
      if id != newId {
        assert Since(s', id) == Since(s, id);
        assert ConsumerInv(s, id);
      }
    }
  }

  lemma FreshFollows(id: nat)
    ensures Follows(id, Consumer([], [], Starting), [], false)
  {
  }

  /** The log stays as it is, and so do the consumers but for the one of `id`, which still follows it. */
  lemma OneKeepsInv(s: State, s': State, id: nat)
    requires Inv(s) && Sane(s') && id in s.consumers
    requires s'.log == s.log && s'.registered == s.registered && s'.cleanup == s.cleanup
    requires s'.subscriptions == s.subscriptions && s'.idCount == s.idCount
    requires s'.consumers.Keys == s.consumers.Keys
    requires forall other | other in s.consumers && other != id :: s'.consumers[other] == s.consumers[other]
    requires s'.consumers[id].status == Starting ==> s'.starting.Some? && id == s.idCount
    requires s'.starting == s.starting || (s'.starting == None && id == s.idCount)
    requires Follows(id, s'.consumers[id], Since(s, id), Forgotten(s, id))
    ensures Inv(s')
  {
    hide Follows, Sane;
    forall other | other in s'.consumers ensures ConsumerInv(s', other) {
      assert Since(s', other) == Since(s, other);
      assert ConsumerInv(s, other);
    }
  }

  /** Nothing about subscriptions changes. */
  lemma NoneKeepsInv(s: State, s': State)
    requires Inv(s) && Sane(s')
    requires s' == s.(connections := s'.connections)
    ensures Inv(s')
  {
    hide Follows, Sane;
    forall id | id in s'.consumers ensures ConsumerInv(s', id) {
      assert Since(s', id) == Since(s, id);
      assert ConsumerInv(s, id);
    }
  }

  lemma {:induction false} RemoveKeepsInv(s: State)
    requires Inv(s) && Enabled(s, Remove)
    ensures Inv(Apply(s, Remove))
  {
    hide Follows;
    var s' := Apply(s, Remove);
    forall id | id in s'.consumers ensures ConsumerInv(s', id) {
      assert Since(s', id) == Since(s, id);
      assert ConsumerInv(s, id);
      assert Forgotten(s', id) <==> Forgotten(s, id);
    }
  }

  /** Starting to run, or being given up, before anything was yielded. */
  lemma StatusFollows(id: nat, c: Consumer, msgs: seq<ServerMessage>, forgotten: bool, status: Status)
    requires Follows(id, c, msgs, forgotten) && (c.status == Starting || c.status == Unpolled)
    requires status != Returned
    ensures Follows(id, c.(status := status), msgs, forgotten)
  {
  }

  /** One turn moves the front of the queue into what has been yielded. */
  lemma TurnMovesOn(id: nat, c: Consumer)
    requires c.status == Running && c.queue != []
    ensures var c' := Consume(id, c);
            && c'.yielded == c.yielded + Yields(id, c.queue[0])
            && c'.queue == c.queue[1..]
            && c'.status == (if Stops(id, c.queue[0]) then Returned else Running)
  {
  }

  /** What has been yielded and what is still to be played stay the same together. */
  lemma {:induction false} TurnBalances(id: nat, c: Consumer)
    requires c.status == Running && c.queue != []
    ensures var c' := Consume(id, c);
            && c'.yielded + (if c'.status == Running then Played(id, c'.queue) else []) ==
               c.yielded + Played(id, c.queue)
            && (c'.status == Running ==> (WillStop(id, c'.queue) <==> WillStop(id, c.queue)))
            && (c'.status == Returned ==> WillStop(id, c.queue))
            && (c'.status == Running || c'.status == Returned)
  {
    hide Yields, Stops, WillStop, Consume;
    TurnMovesOn(id, c);
    WillStopTail(id, c.queue);
    assert c.yielded + (Yields(id, c.queue[0]) + Played(id, c.queue[1..])) ==
           c.yielded + Yields(id, c.queue[0]) + Played(id, c.queue[1..]);
  }

  lemma TurnFollows(id: nat, c: Consumer, msgs: seq<ServerMessage>, forgotten: bool)
    requires Follows(id, c, msgs, forgotten) && c.status == Running && (c.queue != [] || forgotten)
    ensures Follows(id, AfterTurn(id, c), msgs, forgotten)
    ensures AfterTurn(id, c).status == Running || AfterTurn(id, c).status == Returned
  {
    hide Expected, Ended, Closed, WillStop, Consume;
    if c.queue == [] {
      ClosedIsEnded(id, msgs);
      assert c.yielded + [] == c.yielded;
    } else {
      var c' := Consume(id, c);
      TurnBalances(id, c);
      assert c'.yielded + [] == c'.yielded;
    }
  }

  /** Steps that concern one subscription only. */
  predicate Concerns(s: State, e: Event, id: nat) {
    match e
    case Turn(n) => n == id
    case Poll(n) => n == id
    case Drop(n) => n == id
    case SendStart => id == s.idCount
    case Cancel => id == s.idCount
    case _ => false
  }

  lemma StepOfOne(s: State, e: Event, id: nat)
    requires Enabled(s, e) && Concerns(s, e, id)
    ensures var s' := Apply(s, e);
            && id in s.consumers
            && s' == s.(consumers := s'.consumers, connections := s'.connections, senders := s'.senders,
                        starting := s'.starting)
            && |s'.connections| == |s.connections|
            && s'.consumers.Keys == s.consumers.Keys
            && (forall other | other in s.consumers && other != id :: s'.consumers[other] == s.consumers[other])
            && (s'.starting == s.starting || (s'.starting == None && id == s.idCount))
    ensures var c, c' := s.consumers[id], Apply(s, e).consumers[id];
            && c'.status != Starting
            && (if e.Turn? then
                  && c.status == Running && c' == AfterTurn(id, c)
                  && (c.queue != [] || id !in s.subscriptions)
                else
                  && c' == c.(status := c'.status) && c'.status != Returned
                  && (c.status == Starting || c.status == Unpolled))
  {
    hide AfterTurn, IdText;
    if e.Turn? {
      TurnStatus(id, s.consumers[id]);
    }
  }

  lemma StaysSane(s: State, e: Event, id: nat)
    requires Enabled(s, e) && Concerns(s, e, id)
    ensures Sane(Apply(s, e))
  {
    hide AfterTurn, IdText;
    if e.Turn? {
      TurnStatus(id, s.consumers[id]);
    }
  }

  lemma TurnStatus(id: nat, c: Consumer)
    requires c.status == Running
    ensures AfterTurn(id, c).status == Running || AfterTurn(id, c).status == Returned
  {
  }

  lemma OneStepKeepsInv(s: State, e: Event, id: nat)
    requires Inv(s) && Enabled(s, e) && Concerns(s, e, id)
    ensures Inv(Apply(s, e))
  {
    hide Inv, Follows, AfterTurn, Apply, Sane, Concerns;
    StepOfOne(s, e, id);
    StaysSane(s, e, id);
    InvOf(s, id);
    var s' := Apply(s, e);
    if e.Turn? {
      TurnFollows(id, s.consumers[id], Since(s, id), Forgotten(s, id));
    } else {
      StatusFollows(id, s.consumers[id], Since(s, id), Forgotten(s, id), s'.consumers[id].status);
    }
    OneKeepsInv(s, s', id);
  }

  lemma {:induction false} StepKeepsInv(s: State, e: Event)
    requires Inv(s) && Enabled(s, e)
    ensures Inv(Apply(s, e))
  {
    hide ConsumerInv, Inv;
    match e
    case Register(request) => RegisterKeepsInv(s, request);
    case SendStart => OneStepKeepsInv(s, e, s.idCount);
    case Cancel => OneStepKeepsInv(s, e, s.idCount);
    case Poll(id) => OneStepKeepsInv(s, e, id);
    case Drop(id) => OneStepKeepsInv(s, e, id);
    case Process(m) => ProcessKeepsInv(s, m);
    case Remove => RemoveKeepsInv(s);
    case Turn(id) => OneStepKeepsInv(s, e, id);
    case EndSender(_) => NoneKeepsInv(s, Apply(s, e));
    case Install => NoneKeepsInv(s, Apply(s, e));
  }

  lemma {:induction false} EveryRunKeepsInv(events: seq<Event>)
    requires After(events).Some?
    ensures Inv(After(events).value)
  {
    if events != [] {
      EveryRunKeepsInv(events[..|events| - 1]);
      StepKeepsInv(After(events[..|events| - 1]).value, events[|events| - 1]);
    }
  }

  /**
   The streams are pure functions of the message log, whatever the interleaving and however
   often the connection is replaced: while its receiver is there, what a subscription has
   yielded and what its queue will still make it yield is `Expected` of the messages
   processed since it was registered; when its task has returned it has yielded exactly
   that; dropped or abandoned before, it has yielded nothing.
   */
  lemma {:induction false} StreamsFollowTheLog(events: seq<Event>, id: nat)
    requires After(events).Some? && id in After(events).value.consumers
    ensures var s := After(events).value;
            var c := s.consumers[id];
            && id in s.registered && s.registered[id] <= |s.log|
            && var all := Expected(id, s.log[s.registered[id]..]);
            && (c.Live() ==> c.yielded + Played(id, c.queue) == all)
            && (c.status == Returned ==> c.yielded == all)
            && (c.status != Running && c.status != Returned ==> c.yielded == [])
  {
    EveryRunKeepsInv(events);
    assert ConsumerInv(After(events).value, id);
  }

  /** Nothing reaches a stream that is over: no event of any later run changes its queue, its items or its status. */
  lemma {:induction false} NothingReachesTheGone(events: seq<Event>, id: nat, n: nat)
    requires After(events).Some? && n <= |events| && After(events[..n]).Some?
    requires id in After(events[..n]).value.consumers
    requires After(events[..n]).value.consumers[id].status in {Returned, Dropped, Abandoned}
    ensures id in After(events).value.consumers
    ensures After(events).value.consumers[id] == After(events[..n]).value.consumers[id]
    decreases |events|
  {
    if n == |events| {
      assert events[..n] == events;
    } else {
      var init, e := events[..|events| - 1], events[|events| - 1];
      assert init[..n] == events[..n];
      NothingReachesTheGone(init, id, n);
      EveryRunKeepsInv(init);
      assert !After(init).value.consumers[id].Live();
      StepLeavesTheGone(After(init).value, e, id);
    }
  }

  lemma MessageLeavesTheGone(s: State, m: ServerMessage, id: nat)
    requires Enabled(s, Process(m)) && id in s.consumers && !s.consumers[id].Live()
    ensures id in ProcessMessage(s, m).consumers && ProcessMessage(s, m).consumers[id] == s.consumers[id]
  {
    ProcessedIs(s, m);
    hide Enabled, ProcessMessage, GoesTo, RoutedTo, EndsSubscription;
    assert Push(s.consumers[id], m) == s.consumers[id];
  }

  /** One event changes at most one consumer, or sends a message to all. */
  lemma StepChangesOne(s: State, e: Event, id: nat)
    requires Enabled(s, e) && id in s.consumers
    requires match e
             case Register(_) => id != s.idCount + 1
             case SendStart | Cancel => id != s.idCount
             case Poll(other) => id != other
             case Drop(other) => id != other
             case Turn(other) => id != other
             case Process(_) => false
             case _ => true
    ensures id in Apply(s, e).consumers && Apply(s, e).consumers[id] == s.consumers[id]
  {
    match e
    case Turn(other) => ConsumerIs(s, other, AfterTurn(other, s.consumers[other]));
    case Drop(other) => ConsumerIs(s, other, s.consumers[other].(status := Dropped));
    case SendStart => ConsumersStay(s, Current(s), Start(IdText(s.idCount), s.starting.value));
    case Install => ConsumersStay(s, Current(s), Terminate);
    case _ =>
    hide Sane, AfterTurn, Sent, WithConsumer, IdText;
  }

  lemma StepLeavesTheGone(s: State, e: Event, id: nat)
    requires Inv(s) && Enabled(s, e) && id in s.consumers && !s.consumers[id].Live()
    ensures id in Apply(s, e).consumers && Apply(s, e).consumers[id] == s.consumers[id]
  {
    assert id <= s.idCount && (s.starting.Some? ==> s.consumers[s.idCount].Live());
    hide Apply, Inv, Sane, ProcessMessage;
    if e.Process? {
      MessageLeavesTheGone(s, e.msg, id);
      assert Apply(s, e) == ProcessMessage(s, e.msg) by { ProcessIs(s, e.msg); }
    } else {
      StepChangesOne(s, e, id);
    }
  }

  lemma ProcessIs(s: State, m: ServerMessage)
    requires Enabled(s, Process(m))
    ensures Apply(s, Process(m)) == ProcessMessage(s, m)
  {
  }

  lemma ConsumersStay(s: State, k: nat, m: ClientMessage)
    requires k < |s.connections|
    ensures Sent(s, k, m).consumers == s.consumers
  {
  }

  lemma ConsumerIs(s: State, id: nat, c: Consumer)
    requires id in s.senders && s.senders[id] < |s.connections|
    ensures WithConsumer(s, id, c).consumers == s.consumers[id := c]
  {
  }

  /** A stream that has ended by itself is final: no further message could have added to it. */
  lemma {:induction false} EndedStreamsAreFinal(events: seq<Event>, id: nat, more: seq<ServerMessage>)
    requires After(events).Some? && id in After(events).value.consumers
    requires After(events).value.consumers[id].status == Returned
    ensures var s := After(events).value;
            && id in s.registered && s.registered[id] <= |s.log|
            && Expected(id, s.log[s.registered[id]..] + more) == s.consumers[id].yielded
  {
    EveryRunKeepsInv(events);
    var s := After(events).value;
    assert ConsumerInv(s, id);
    FinalWithMore(id, Since(s, id), more);
  }

  lemma {:induction false} FinalWithMore(id: nat, msgs: seq<ServerMessage>, more: seq<ServerMessage>)
    requires Ended(id, msgs)
    ensures Expected(id, msgs + more) == Expected(id, msgs) && Ended(id, msgs + more)
  {
    hide Expected, Ended, Ends, Yields;
    if more == [] {
      assert msgs + more == msgs;
    } else {
      var init := more[..|more| - 1];
      FinalWithMore(id, msgs, init);
      assert msgs + more == (msgs + init) + [more[|more| - 1]];
      SinceMore(id, msgs + init, more[|more| - 1]);
    }
  }
}
