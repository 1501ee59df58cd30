/** Which messages the client of crates/client/src/ws.rs puts into the channels of its connections. */
module ClientMessages {
  import opened Wrappers
  import opened Numerals
  import opened Multiplexer

  function StopCount(sent: seq<ClientMessage>, text: string): nat {
    if sent == [] then 0
    else StopCount(sent[..|sent| - 1], text) + if sent[|sent| - 1] == Stop(text) then 1 else 0
  }

  function StartCount(sent: seq<ClientMessage>, text: string): nat {
    if sent == [] then 0
    else
      var last := sent[|sent| - 1];
      StartCount(sent[..|sent| - 1], text) + if last.Start? && last.id == text then 1 else 0
  }

  lemma CountMore(sent: seq<ClientMessage>, m: ClientMessage, text: string)
    ensures StopCount(sent + [m], text) == StopCount(sent, text) + if m == Stop(text) then 1 else 0
    ensures StartCount(sent + [m], text) == StartCount(sent, text) + if m.Start? && m.id == text then 1 else 0
  {
    assert (sent + [m])[..|sent|] == sent;
  }

  // ----- What a step sends -----

  /** The message that a step tries to send, and on which connection. */
  function Emits(s: State, e: Event): Option<(nat, ClientMessage)>
    requires Enabled(s, e)
  {
    match e
    case SendStart => Some((Current(s), Start(IdText(s.idCount), s.starting.value)))
    case Drop(id) => Some((s.senders[id], Stop(IdText(id))))
    case Turn(id) =>
      if AfterTurn(id, s.consumers[id]).status == Returned then Some((s.senders[id], Stop(IdText(id)))) else None
    case Install => Some((Current(s), Terminate))
    case _ => None
  }

  /** What is sent ends up in the channel if that is open, and is lost otherwise; nothing else changes what was sent. */
  lemma StepSends(s: State, e: Event)
    requires Enabled(s, e)
    ensures var s' := Apply(s, e);
            && |s'.connections| == |s.connections| + (if e == Install then 1 else 0)
            && (forall c: nat | c < |s.connections| ::
                  s'.connections[c].sent ==
                  if Emits(s, e).Some? && Emits(s, e).value.0 == c && s.connections[c].open
                  then s.connections[c].sent + [Emits(s, e).value.1] else s.connections[c].sent)
            && (e == Install ==> s'.connections[|s.connections|] == Connection(true, []))
  {
    hide AfterTurn, IdText, ProcessMessage;
    match e
    case Turn(id) => TurnStatus(id, s.consumers[id]);
    case Process(m) => ProcessedIs(s, m);
    case _ =>
  }

  /** A subscription was made, whether or not it is still there. */
  predicate Made(c: Consumer) {
    c.status != Starting && c.status != Abandoned
  }

  /** A subscription has a sender from when it is made, and for good. */
  predicate Traced(s: State, id: nat) {
    if id in s.consumers then id <= s.idCount && (id in s.senders <==> Made(s.consumers[id])) else id !in s.senders
  }

  predicate IsGone(s: State, id: nat) {
    id in s.consumers && s.consumers[id].Gone()
  }

  /** How the subscription `id` may move on in one step. */
  predicate MovesOn(s: State, e: Event, s': State, id: nat)
    requires Enabled(s, e)
  {
    && Traced(s', id)
    && (id in s.senders ==> id in s'.senders && s'.senders[id] == s.senders[id])
    && (id in s'.senders && id !in s.senders ==>
          && e == SendStart && id == s.idCount && s'.senders[id] == Current(s) && s.connections[Current(s)].open
          && !IsGone(s', id))
    && (IsGone(s, id) ==> IsGone(s', id))
    && (IsGone(s', id) && !IsGone(s, id) ==>
          id in s.senders && s.senders[id] < |s.connections| && Emits(s, e) == Some((s.senders[id], Stop(IdText(id)))))
  }

  lemma StepMovesOn(s: State, e: Event, id: nat)
    requires Enabled(s, e) && Traced(s, id) && (e.Register? ==> s.idCount + 1 !in s.consumers)
    ensures MovesOn(s, e, Apply(s, e), id)
  {
    if e.Process? {
      ProcessMovesOn(s, e.msg, id);
    } else if e.Turn? {
      TurnMovesOnTo(s, e.id, id);
    } else if e.SendStart? || e.Cancel? {
      SubscribeMovesOn(s, e, id);
    } else {
      hide AfterTurn, IdText, ProcessMessage;
    }
  }

  lemma SubscribeMovesOn(s: State, e: Event, id: nat)
    requires Enabled(s, e) && Traced(s, id) && (e.SendStart? || e.Cancel?)
    ensures MovesOn(s, e, Apply(s, e), id)
  {
    hide AfterTurn, IdText, ProcessMessage;
  }

  lemma ProcessMovesOn(s: State, m: ServerMessage, id: nat)
    requires Enabled(s, Process(m)) && Traced(s, id)
    ensures MovesOn(s, Process(m), ProcessMessage(s, m), id)
  {
    hide ProcessMessage, IdText, IdOf;
    ProcessedIs(s, m);
  }

  lemma TurnMovesOnTo(s: State, n: nat, id: nat)
    requires Enabled(s, Turn(n)) && Traced(s, id)
    ensures MovesOn(s, Turn(n), Apply(s, Turn(n)), id)
  {
    hide AfterTurn, IdText;
    TurnStatus(n, s.consumers[n]);
  }

  // ----- Channels after every run -----

  /**
   In the channel of connection `c` there is a Start for the subscription `id` exactly if it
   was subscribed on that connection, and then one; and at most one Stop, and none unless the
   subscription is gone.
   */
  predicate ChannelInv(s: State, c: nat, id: nat)
    requires c < |s.connections|
  {
    var own := id in s.senders && s.senders[id] == c;
    && StartCount(s.connections[c].sent, IdText(id)) == (if own then 1 else 0)
    && StopCount(s.connections[c].sent, IdText(id)) <= (if own && IsGone(s, id) then 1 else 0)
  }

  ghost predicate ChannelsInv(s: State) {
    && (forall id: nat :: Traced(s, id))
    && (forall id | id in s.senders :: s.senders[id] < |s.connections|)
    && (forall c: nat, id: nat | c < |s.connections| && id <= U64_MAX :: ChannelInv(s, c, id))
  }

  /** The message sent is a Start or Stop of the subscription `id` only if the step makes or ends it. */
  lemma EmittedMeans(s: State, e: Event, id: nat)
    requires Enabled(s, e) && Emits(s, e).Some? && id <= U64_MAX && s.idCount <= U64_MAX
    requires forall n: nat :: Traced(s, n)
    ensures var (k, m) := Emits(s, e).value;
            && k < |s.connections|
            && (m.Start? && m.id == IdText(id) ==> e == SendStart && id == s.idCount)
            && (e == SendStart ==> m.Start? && m.id == IdText(s.idCount) && k == Current(s) && s.idCount !in s.senders)
            && (m == Stop(IdText(id)) ==>
                  id in s.senders && s.senders[id] == k && !IsGone(s, id) && (e == Turn(id) || e == Drop(id)))
  {
    hide IdText, AfterTurn;
    var text := Emits(s, e).value.1;
    match e
    case SendStart =>
      assert Traced(s, s.idCount);
      IdTextIsUnique(id, s.idCount);
    case Turn(n) =>
      assert Traced(s, n);
      IdTextIsUnique(id, n);
    case Drop(n) =>
      assert Traced(s, n);
      IdTextIsUnique(id, n);
    case _ =>
  }

  lemma StartedOrEnded(s: State, e: Event, id: nat)
    requires Enabled(s, e) && id in s.consumers
    ensures e == SendStart && id == s.idCount && s.connections[Current(s)].open ==>
              id in Apply(s, e).senders && Apply(s, e).senders[id] == Current(s)
    ensures Emits(s, e).Some? && (e == Turn(id) || e == Drop(id)) ==> IsGone(Apply(s, e), id)
  {
    hide IdText, AfterTurn, ProcessMessage;
  }

  lemma SentOnOne(s: State, e: Event, c: nat, id: nat)
    requires Enabled(s, e) && s.idCount <= U64_MAX && id <= U64_MAX && c < |s.connections|
    requires forall n: nat :: Traced(s, n)
    requires MovesOn(s, e, Apply(s, e), id) && ChannelInv(s, c, id) && (id in s.senders ==> id in s.consumers)
    ensures c < |Apply(s, e).connections| && ChannelInv(Apply(s, e), c, id)
  {
    hide StopCount, StartCount, Apply, IdText, Enabled, Emits, IsGone, Traced;
    StepSends(s, e);
    assert e == SendStart ==> s.idCount in s.consumers && Emits(s, e).Some? by { StartEmits(s, e); }
    var emitted := Emits(s, e);
    if emitted.Some? {
      EmittedMeans(s, e, id);
      CountMore(s.connections[c].sent, emitted.value.1, IdText(id));
    }
    if id in s.consumers {
      StartedOrEnded(s, e, id);
    }
  }

  lemma StartEmits(s: State, e: Event)
    requires Enabled(s, e)
    ensures e == SendStart ==> s.idCount in s.consumers && Emits(s, e).Some?
  {
  }

  lemma AllMoveOn(s: State, e: Event)
    requires Inv(s) && Enabled(s, e) && forall id: nat :: Traced(s, id)
    ensures forall id: nat :: Traced(Apply(s, e), id) && MovesOn(s, e, Apply(s, e), id)
  {
    NewIdIsNew(s);
    hide Apply, Inv, Enabled, Traced, MovesOn;
    forall id: nat ensures Traced(Apply(s, e), id) && MovesOn(s, e, Apply(s, e), id) {
      assert Traced(s, id);
      StepMovesOn(s, e, id);
      MovedIsTraced(s, e, id);
    }
  }

  lemma KeepsChannel(s: State, e: Event, c: nat, id: nat)
    requires Inv(s) && ChannelsInv(s) && Enabled(s, e) && id <= U64_MAX && c < |Apply(s, e).connections|
    requires MovesOn(s, e, Apply(s, e), id)
    ensures ChannelInv(Apply(s, e), c, id)
  {
    NewIdIsNew(s);
    SenderKnown(s, id);
    hide ChannelInv, Apply, Inv, Enabled, MovesOn, IdText, Traced;
    if c < |s.connections| {
      SentOnOne(s, e, c, id);
    } else {
      NewChannel(s, e, c, id);
    }
  }

  lemma SenderKnown(s: State, id: nat)
    requires ChannelsInv(s)
    ensures id in s.senders ==> id in s.consumers && s.senders[id] < |s.connections|
  {
    assert Traced(s, id);
  }

  lemma StepKeepsChannels(s: State, e: Event)
    requires Inv(s) && ChannelsInv(s) && Enabled(s, e)
    ensures ChannelsInv(Apply(s, e))
  {
    AllMoveOn(s, e);
    SendersStay(s, e);
    hide ChannelInv, Apply, Inv, Enabled, Traced, MovesOn;
    var s' := Apply(s, e);
    forall c: nat, id: nat | c < |s'.connections| && id <= U64_MAX ensures ChannelInv(s', c, id) {
      KeepsChannel(s, e, c, id);
    }
  }

  lemma NewIdIsNew(s: State)
    requires Inv(s)
    ensures s.idCount + 1 !in s.consumers && s.idCount <= U64_MAX
  {
    hide ConsumerInv;
  }

  lemma SendersStay(s: State, e: Event)
    requires Enabled(s, e) && forall id | id in s.senders :: s.senders[id] < |s.connections|
    ensures forall id | id in Apply(s, e).senders :: Apply(s, e).senders[id] < |Apply(s, e).connections|
  {
    hide IdText, AfterTurn;
  }

  lemma MovedIsTraced(s: State, e: Event, id: nat)
    requires Enabled(s, e) && MovesOn(s, e, Apply(s, e), id)
    ensures Traced(Apply(s, e), id)
  {
    hide Apply, IdText;
  }

  /** Nothing is in the channel of a new connection, and no subscription sends there. */
  lemma NewChannel(s: State, e: Event, c: nat, id: nat)
    requires Enabled(s, e) && |s.connections| <= c < |Apply(s, e).connections| && MovesOn(s, e, Apply(s, e), id)
    requires id in s.senders ==> s.senders[id] < |s.connections|
    ensures ChannelInv(Apply(s, e), c, id)
  {
    StepSends(s, e);
    hide Apply, IdText, Emits;
  }

  lemma {:induction false} EveryRunKeepsChannels(events: seq<Event>)
    requires After(events).Some?
    ensures Inv(After(events).value) && ChannelsInv(After(events).value)
  {
    hide Inv, ChannelsInv, Enabled;
    if events == [] {
      NothingSent();
    } else {
      EveryRunKeepsChannels(events[..|events| - 1]);
      StepKeepsChannels(After(events[..|events| - 1]).value, events[|events| - 1]);
    }
    EveryRunKeepsInv(events);
  }

  lemma NothingSent()
    ensures ChannelsInv(Init)
  {
    assert |Init.connections| == 1;
  }

  // ----- Runs, step by step -----

  lemma {:induction false} RunAt(events: seq<Event>, i: nat)
    requires After(events).Some? && i <= |events|
    ensures After(events[..i]).Some?
    ensures i < |events| ==>
              && Enabled(After(events[..i]).value, events[i])
              && After(events[..i + 1]) == Some(Apply(After(events[..i]).value, events[i]))
    decreases |events|
  {
    hide Enabled, Apply;
    if i < |events| {
      var init := events[..|events| - 1];
      if i == |events| - 1 {
        assert events[..i + 1] == events;
      } else {
        assert init[..i] == events[..i] && init[..i + 1] == events[..i + 1];
        RunAt(init, i);
      }
    } else {
      assert events[..i] == events;
    }
  }

  /** The step number `i` of the run ends the subscription `id`: its task returns, or its user drops it. */
  predicate EndsAt(events: seq<Event>, i: nat, id: nat) {
    && i < |events| && After(events[..i]).Some? && After(events[..i + 1]).Some?
    && id in After(events[..i]).value.senders
    && !IsGone(After(events[..i]).value, id) && IsGone(After(events[..i + 1]).value, id)
  }

  function StopsOn(s: State, c: nat, id: nat): nat
    requires c < |s.connections|
  {
    StopCount(s.connections[c].sent, IdText(id))
  }

  /** The step that ends a subscription puts a Stop into its own channel, if that is open. */
  lemma EndingStep(s: State, e: Event, c: nat, id: nat)
    requires Inv(s) && ChannelsInv(s) && Enabled(s, e) && c < |s.connections| && id <= U64_MAX
    requires id in s.senders && !IsGone(s, id) && IsGone(Apply(s, e), id)
    ensures c < |Apply(s, e).connections|
    ensures StopsOn(Apply(s, e), c, id) == if s.senders[id] == c && s.connections[c].open then 1 else 0
  {
    NewIdIsNew(s);
    assert Traced(s, id) && ChannelInv(s, c, id);
    StepMovesOn(s, e, id);
    hide StopCount, IdText, Apply, Enabled, Inv, ChannelsInv;
    StepSends(s, e);
    CountMore(s.connections[c].sent, Stop(IdText(id)), IdText(id));
  }

  /** Once a subscription is gone, no step sends a Stop for it. */
  lemma GoneStaysSilent(s: State, e: Event, c: nat, id: nat)
    requires Inv(s) && ChannelsInv(s) && Enabled(s, e) && IsGone(s, id) && id <= U64_MAX
    requires c < |Apply(s, e).connections|
    ensures IsGone(Apply(s, e), id)
    ensures StopsOn(Apply(s, e), c, id) == if c < |s.connections| then StopsOn(s, c, id) else 0
  {
    NewIdIsNew(s);
    assert Traced(s, id) && forall n: nat :: Traced(s, n);
    StepMovesOn(s, e, id);
    hide StopCount, IdText, Apply, Enabled, Inv, ChannelsInv, Traced, IsGone;
    StepSends(s, e);
    if Emits(s, e).Some? {
      EmittedMeans(s, e, id);
      if c < |s.connections| {
        CountMore(s.connections[c].sent, Emits(s, e).value.1, IdText(id));
      }
    }
    NoStops(IdText(id));
  }

  lemma NoStops(text: string)
    ensures StopCount([], text) == 0
  {
  }

  /**
   For every subscription that ends in a run there is exactly one Stop, in the channel of the
   connection it was subscribed on, if the sender task of that connection is still running
   then; otherwise there is none.  There is none in any other channel, then or later.
   */
  lemma {:induction false} StopsAreSentOnce(events: seq<Event>, i: nat, c: nat, id: nat)
    requires After(events).Some? && EndsAt(events, i, id) && c < |After(events).value.connections|
    ensures var s := After(events[..i]).value;
            StopsOn(After(events).value, c, id) ==
            if s.senders[id] == c && c < |s.connections| && s.connections[c].open then 1 else 0
    ensures IsGone(After(events).value, id)
    decreases |events|
  {
    hide Apply, Enabled, Inv, ChannelsInv, StopsOn, IsGone;
    var n := |events| - 1;
    var init, s := events[..n], After(events[..i]).value;
    RunAt(events, n);
    EveryRunKeepsChannels(init);
    IdKnown(s, id, events[..i]);
    assert events[..n + 1] == events;
    var before := After(init).value;
    StepKeepsConnections(before, events[n]);
    if i == n {
      if c < |before.connections| {
        EndingStep(before, events[n], c, id);
      } else {
        EndingIsNoInstall(before, events[n], id);
      }
    } else {
      assert init[..i] == events[..i] && init[..i + 1] == events[..i + 1];
      GoneAtEnd(init, i, id);
      GoneStaysSilent(before, events[n], c, id);
      if c < |before.connections| {
        StopsAreSentOnce(init, i, c, id);
      } else {
        ConnectionsGrow(init, i);
      }
    }
  }

  lemma IdKnown(s: State, id: nat, events: seq<Event>)
    requires After(events) == Some(s) && id in s.senders
    ensures id <= U64_MAX && id in s.consumers && s.senders[id] < |s.connections|
  {
    EveryRunKeepsChannels(events);
    assert Traced(s, id);
  }

  lemma StepKeepsConnections(s: State, e: Event)
    requires Enabled(s, e)
    ensures |s.connections| <= |Apply(s, e).connections| <= |s.connections| + 1
    ensures |Apply(s, e).connections| > |s.connections| ==> e == Install
  {
    StepSends(s, e);
    hide Apply;
  }

  lemma EndingIsNoInstall(s: State, e: Event, id: nat)
    requires Enabled(s, e) && !IsGone(s, id) && IsGone(Apply(s, e), id)
    ensures e != Install
  {
  }

  lemma {:induction false} GoneAtEnd(events: seq<Event>, i: nat, id: nat)
    requires After(events).Some? && EndsAt(events, i, id)
    ensures IsGone(After(events).value, id)
    decreases |events|
  {
    hide Apply, Enabled, Inv, ChannelsInv, IsGone;
    var n := |events| - 1;
    RunAt(events, n);
    assert events[..n + 1] == events;
    if i < n {
      var init := events[..n];
      assert init[..i] == events[..i] && init[..i + 1] == events[..i + 1];
      GoneAtEnd(init, i, id);
      EveryRunKeepsChannels(init);
      OnceGone(After(init).value, events[n], id);
    }
  }

  lemma OnceGone(s: State, e: Event, id: nat)
    requires Inv(s) && ChannelsInv(s) && Enabled(s, e) && IsGone(s, id)
    ensures IsGone(Apply(s, e), id)
  {
    NewIdIsNew(s);
    assert Traced(s, id);
    StepMovesOn(s, e, id);
    hide Apply, Enabled, IdText;
  }

  lemma {:induction false} ConnectionsGrow(events: seq<Event>, i: nat)
    requires After(events).Some? && i <= |events|
    ensures After(events[..i]).Some? && |After(events[..i]).value.connections| <= |After(events).value.connections|
    decreases |events|
  {
    hide Apply, Enabled;
    if i == |events| {
      assert events[..i] == events;
    } else {
      var init := events[..|events| - 1];
      RunAt(events, |events| - 1);
      assert init[..i] == events[..i];
      ConnectionsGrow(init, i);
      assert events[..|events| - 1 + 1] == events;
      StepKeepsConnections(After(init).value, events[|events| - 1]);
    }
  }

  // ----- Reaching the live connection -----

  function Installs(events: seq<Event>): nat {
    if events == [] then 0
    else Installs(events[..|events| - 1]) + if events[|events| - 1] == Install then 1 else 0
  }

  lemma {:induction false} InstallsOfBoth(first: seq<Event>, second: seq<Event>)
    ensures Installs(first + second) == Installs(first) + Installs(second)
  {
    if second == [] {
      assert first + second == first;
    } else {
      var init := second[..|second| - 1];
      InstallsOfBoth(first, init);
      assert (first + second)[..|first + second| - 1] == first + init;
    }
  }

  lemma {:induction false} ConnectionsAreCounted(events: seq<Event>)
    requires After(events).Some?
    ensures |After(events).value.connections| == 1 + Installs(events)
  {
    hide Apply, Enabled;
    if events != [] {
      var n := |events| - 1;
      RunAt(events, n);
      assert events[..n + 1] == events;
      ConnectionsAreCounted(events[..n]);
      ExactlyOneMore(After(events[..n]).value, events[n]);
    }
  }

  lemma ExactlyOneMore(s: State, e: Event)
    requires Enabled(s, e)
    ensures |Apply(s, e).connections| == |s.connections| + if e == Install then 1 else 0
  {
    StepSends(s, e);
    hide Apply;
  }

  /** Step number `j` of the run sends the Start of the subscription `id`, and the channel takes it. */
  predicate StartsAt(events: seq<Event>, j: nat, id: nat) {
    && j < |events| && events[j] == SendStart && After(events[..j]).Some?
    && var s := After(events[..j]).value;
       s.idCount == id && s.connections != [] && s.connections[Current(s)].open
  }

  /** A subscription keeps the sender of the connection that was current when its Start was sent. */
  lemma {:induction false} SenderIsThatOfStart(events: seq<Event>, j: nat, id: nat)
    requires After(events).Some? && StartsAt(events, j, id)
    ensures id in After(events).value.senders && After(events).value.senders[id] == Installs(events[..j])
    decreases |events|
  {
    hide Apply, Enabled, Inv, ChannelsInv;
    var n := |events| - 1;
    RunAt(events, n);
    assert events[..n + 1] == events;
    var init := events[..n];
    EveryRunKeepsChannels(init);
    if j == n {
      ConnectionsAreCounted(init);
      StartGivesSender(After(init).value, id);
    } else {
      assert init[..j] == events[..j];
      SenderIsThatOfStart(init, j, id);
      SenderStays(After(init).value, events[n], id);
    }
  }

  lemma StartGivesSender(s: State, id: nat)
    requires Enabled(s, SendStart) && s.idCount == id && s.connections[Current(s)].open
    ensures var s' := Apply(s, SendStart);
            id in s'.senders && s'.senders[id] == Current(s)
  {
    StartedOrEnded(s, SendStart, id);
    hide Apply;
  }

  lemma SenderStays(s: State, e: Event, id: nat)
    requires Inv(s) && ChannelsInv(s) && Enabled(s, e) && id in s.senders
    ensures id in Apply(s, e).senders && Apply(s, e).senders[id] == s.senders[id]
  {
    NewIdIsNew(s);
    assert Traced(s, id);
    StepMovesOn(s, e, id);
    hide Apply, Enabled, IdText;
  }

  /** When the subscription ends, connections installed since its Start come after its own. */
  lemma OwnAndCurrent(events: seq<Event>, j: nat, i: nat, id: nat)
    requires After(events).Some? && i < |events| && j < i && StartsAt(events, j, id) && EndsAt(events, i, id)
    ensures var s, s' := After(events[..i]).value, After(events[..i + 1]).value;
            && id in s.senders && |s'.connections| == |s.connections|
            && |s.connections| == s.senders[id] + 1 + Installs(events[j..i])
  {
    hide Apply, Enabled, IsGone;
    RunAt(events, i);
    var before := events[..i];
    assert before[..j] == events[..j];
    EndingIsNoInstall(After(before).value, events[i], id);
    ExactlyOneMore(After(before).value, events[i]);
    hide After;
    ConnectionsAreCounted(before);
    SenderIsThatOfStart(before, j, id);
    assert events[..j] + events[j..i] == before;
    InstallsOfBoth(events[..j], events[j..i]);
  }

  lemma StopAtEnd(events: seq<Event>, i: nat, id: nat)
    requires After(events).Some? && EndsAt(events, i, id)
    ensures var s, s' := After(events[..i]).value, After(events[..i + 1]).value;
            && s.connections != [] && |s'.connections| == |s.connections|
            && StopsOn(s', Current(s), id) ==
               (if s.senders[id] == Current(s) && s.connections[Current(s)].open then 1 else 0)
  {
    RunAt(events, i);
    EveryRunKeepsChannels(events[..i]);
    hide After, Apply, StopsOn, IsGone, Inv, ChannelsInv;
    var s := After(events[..i]).value;
    IdKnown(s, id, events[..i]);
    EndingIsNoInstall(s, events[i], id);
    ExactlyOneMore(s, events[i]);
    EndingStep(s, events[i], Current(s), id);
  }

  /**
   When a subscription ends, its Stop reaches the connection in use exactly if no connection
   was installed since its Start was sent and the sender task of that connection still runs.
   */
  lemma {:induction false} StopReachesLiveConnectionExactlyWhen(events: seq<Event>, j: nat, i: nat, id: nat)
    requires After(events).Some? && i < |events| && j < i && StartsAt(events, j, id) && EndsAt(events, i, id)
    ensures var s, s' := After(events[..i]).value, After(events[..i + 1]).value;
            && s.connections != [] && |s'.connections| == |s.connections|
            && (StopsOn(s', Current(s'), id) == 1 ==> Installs(events[j..i]) == 0 && s.connections[Current(s)].open)
            && (Installs(events[j..i]) == 0 && s.connections[Current(s)].open ==> StopsOn(s', Current(s'), id) == 1)
  {
    hide After, Apply, Enabled, StopsOn, IsGone, Installs, StartsAt;
    OwnAndCurrent(events, j, i, id);
    StopAtEnd(events, i, id);
  }

  // ----- A Stop that is lost -----

  lemma AfterOne(events: seq<Event>, e: Event)
    requires After(events).Some? && Enabled(After(events).value, e)
    ensures After(events + [e]) == Some(Apply(After(events).value, e))
  {
    assert (events + [e])[..|events|] == events;
  }

  /** The states of the run below: the one subscription there is, and the connections. */
  function LosingState(request: Payload, known: bool, starting: bool, connections: seq<Connection>, c: Consumer,
                       log: seq<ServerMessage>): State {
    State(if known then map[1 := request] else map[], 1, if starting then Some(request) else None, connections,
          if starting then map[] else map[1 := 0], map[1 := c],
          if known && log != [] then Some(1) else None, log, map[1 := 0])
  }

  lemma Registering(request: Payload)
    ensures Enabled(Init, Register(request))
    ensures Apply(Init, Register(request)) ==
            LosingState(request, true, true, [Connection(true, [])], Consumer([], [], Starting), [])
  {
  }

  lemma Starts(request: Payload)
    ensures var s := LosingState(request, true, true, [Connection(true, [])], Consumer([], [], Starting), []);
            && Enabled(s, SendStart)
            && Apply(s, SendStart) ==
               LosingState(request, true, false, [Connection(true, [Start(IdText(1), request)])],
                           Consumer([], [], Unpolled), [])
  {
    hide IdText;
    var s := LosingState(request, true, true, [Connection(true, [])], Consumer([], [], Starting), []);
    var s' := Apply(s, SendStart);
    assert s'.connections[0].sent == [Start(IdText(1), request)];
    assert s'.senders == map[1 := 0] && s'.consumers == map[1 := Consumer([], [], Unpolled)];
  }

  lemma Polling(request: Payload, cs: seq<Connection>)
    requires cs != []
    ensures var s := LosingState(request, true, false, cs, Consumer([], [], Unpolled), []);
            && Enabled(s, Poll(1))
            && Apply(s, Poll(1)) == LosingState(request, true, false, cs, Consumer([], [], Running), [])
  {
  }

  lemma Reconnecting(request: Payload, sent: seq<ClientMessage>)
    ensures var c := Consumer([], [], Running);
            var s := LosingState(request, true, false, [Connection(true, sent)], c, []);
            var s' := LosingState(request, true, false, [Connection(false, sent)], c, []);
            && Enabled(s, EndSender(0)) && Apply(s, EndSender(0)) == s'
            && Enabled(s', Install)
            && Apply(s', Install) ==
               LosingState(request, true, false, [Connection(false, sent), Connection(true, [])], c, [])
  {
  }

  lemma Completing(request: Payload, cs: seq<Connection>)
    requires cs != []
    ensures var m := Complete(IdText(1));
            var s := LosingState(request, true, false, cs, Consumer([], [], Running), []);
            var s' := LosingState(request, true, false, cs, Consumer([m], [], Running), [m]);
            && Enabled(s, Process(m)) && Apply(s, Process(m)) == s'
            && Enabled(s', Remove)
            && Apply(s', Remove) == LosingState(request, false, false, cs, Consumer([m], [], Running), [m])
  {
    IdTextIsUnique(1, 1);
    hide IdText;
    var m := Complete(IdText(1));
    var s := LosingState(request, true, false, cs, Consumer([], [], Running), []);
    var s' := Apply(s, Process(m));
    assert s'.log == [m] && s'.consumers[1].queue == [m] && s'.consumers == map[1 := Consumer([m], [], Running)];
    assert Apply(s', Remove).subscriptions == map[];
  }

  lemma Returning(request: Payload, sent: seq<ClientMessage>)
    ensures var m := Complete(IdText(1));
            var cs := [Connection(false, sent), Connection(true, [])];
            var s := LosingState(request, false, false, cs, Consumer([m], [], Running), [m]);
            && Enabled(s, Turn(1))
            && Apply(s, Turn(1)) == LosingState(request, false, false, cs, Consumer([], [], Returned), [m])
  {
    hide IdText;
    var m := Complete(IdText(1));
    var cs := [Connection(false, sent), Connection(true, [])];
    var s' := Apply(LosingState(request, false, false, cs, Consumer([m], [], Running), [m]), Turn(1));
    assert s'.consumers[1].queue == [] && s'.consumers == map[1 := Consumer([], [], Returned)];
    assert s'.connections == cs;
  }

  /**
   A subscription is made; the sender task of its connection ends; a new connection is
   installed; Complete arrives; the task returns.
   */
  function LosingRun(request: Payload): seq<Event> {
    [Register(request)] + [SendStart] + [Poll(1)] + [EndSender(0)] + [Install] + [Process(Complete(IdText(1)))] +
    [Remove] + [Turn(1)]
  }

  /** The subscription is gone, and no Stop was sent for it, although a connection is open. */
  lemma StopCanBeLost(request: Payload)
    ensures var r := After(LosingRun(request));
            && r.Some? && IsGone(r.value, 1)
            && r.value.connections == [Connection(false, [Start(IdText(1), request)]), Connection(true, [])]
  {
    var sent := [Start(IdText(1), request)];
    var cs := [Connection(false, sent), Connection(true, [])];
    Registering(request);
    Starts(request);
    Polling(request, [Connection(true, sent)]);
    Reconnecting(request, sent);
    Completing(request, cs);
    Returning(request, sent);
    hide Apply, Enabled, IdText, LosingState;
    AfterOne([], Register(request));
    assert [] + [Register(request)] == [Register(request)];
    var run := [Register(request)];
    AfterOne(run, SendStart);
    run := run + [SendStart];
    AfterOne(run, Poll(1));
    run := run + [Poll(1)];
    AfterOne(run, EndSender(0));
    run := run + [EndSender(0)];
    AfterOne(run, Install);
    run := run + [Install];
    AfterOne(run, Process(Complete(IdText(1))));
    run := run + [Process(Complete(IdText(1)))];
    AfterOne(run, Remove);
    run := run + [Remove];
    AfterOne(run, Turn(1));
    run := run + [Turn(1)];
    LosingEnd(request, cs);
  }

  lemma LosingEnd(request: Payload, cs: seq<Connection>)
    ensures var s := LosingState(request, false, false, cs, Consumer([], [], Returned), [Complete(IdText(1))]);
            IsGone(s, 1) && s.connections == cs
  {
  }
}
