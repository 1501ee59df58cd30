/**
 How often the server is asked to start a subscription: the multiplexer and the resubscribe
 passes of crates/client/src/ws.rs running together.
 */
module StartCounts {
  import opened Wrappers
  import opened Numerals
  import M = Multiplexer
  import C = ClientMessages
  import R = Reconnect

  /** `madeOn` records which connection was in use when each subscription got its handle. */
  datatype State = State(client: M.State, tags: R.State, madeOn: map<nat, nat>)

  const Init: State := State(M.Init, R.Init, map[])

  /** What the client does, and a connection being opened or making its pass before it is installed or after. */
  datatype Event = Client(e: M.Event) | Connect | Pass

  /** What an event means for the handles and their tags. */
  function TagEvent(s: State, e: Event): Option<R.Event> {
    match e
    case Connect => Some(R.Connect)
    case Pass => Some(R.Pass)
    case Client(Register(request)) => Some(R.Insert(s.client.idCount + 1, request))
    case Client(Remove) => if s.client.cleanup.Some? then Some(R.Remove(s.client.cleanup.value)) else None
    case Client(Install) => Some(R.Install)
    case Client(_) => None
  }

  predicate Enabled(s: State, e: Event) {
    && (e.Client? ==> M.Enabled(s.client, e.e))
    && (TagEvent(s, e).Some? ==> R.Enabled(s.tags, TagEvent(s, e).value))
  }

  function Apply(s: State, e: Event): State
    requires Enabled(s, e)
  {
    State(
      if e.Client? then M.Apply(s.client, e.e) else s.client,
      if TagEvent(s, e).Some? then R.Apply(s.tags, TagEvent(s, e).value) else s.tags,
      if e.Client? && e.e.Register? then s.madeOn[s.client.idCount + 1 := s.tags.installed] else s.madeOn)
  }

  function After(events: seq<Event>): Option<State> {
    if events == [] then Some(Init)
    else
      match After(events[..|events| - 1])
      case None => None
      case Some(s) =>
        var e := events[|events| - 1];
        if Enabled(s, e) then Some(Apply(s, e)) else None
  }

  // ----- Each part runs as it does alone -----

  function ClientRun(events: seq<Event>): seq<M.Event> {
    if events == [] then []
    else
      var e := events[|events| - 1];
      ClientRun(events[..|events| - 1]) + if e.Client? then [e.e] else []
  }

  function TagRun(events: seq<Event>): seq<R.Event>
    requires After(events).Some?
  {
    if events == [] then []
    else
      var init := events[..|events| - 1];
      var e := TagEvent(After(init).value, events[|events| - 1]);
      TagRun(init) + if e.Some? then [e.value] else []
  }

  lemma {:induction false} PartsRunAlone(events: seq<Event>)
    requires After(events).Some?
    ensures M.After(ClientRun(events)) == Some(After(events).value.client)
    ensures R.After(TagRun(events)) == Some(After(events).value.tags)
  {
    hide M.Apply, M.Enabled, R.Apply, R.Enabled;
    if events != [] {
      var init, e := events[..|events| - 1], events[|events| - 1];
      PartsRunAlone(init);
      if e.Client? {
        C.AfterOne(ClientRun(init), e.e);
      } else {
        assert ClientRun(init) + [] == ClientRun(init);
      }
      var t := TagEvent(After(init).value, e);
      if t.Some? {
        R.AfterOne(TagRun(init), t.value);
      } else {
        assert TagRun(init) + [] == TagRun(init);
      }
    }
  }

  // ----- How the two parts stay together -----

  /** Both parts know the same handles, with the same requests, and the same connection in use. */
  predicate Together(s: State) {
    && s.tags.handles.Keys == s.client.subscriptions.Keys
    && (forall id | id in s.tags.handles :: s.tags.handles[id].request == s.client.subscriptions[id])
    && s.tags.installed + 1 == |s.client.connections|
  }

  /** Where and when Starts may have been asked for. */
  predicate Ordered(tags: R.State, madeOn: map<nat, nat>, senders: map<nat, nat>) {
    && (forall id | id in madeOn :: madeOn[id] <= tags.installed)
    && (forall id | id in senders :: id in madeOn && madeOn[id] <= senders[id])
    && (forall id | id in tags.tagged :: id in madeOn && madeOn[id] <= tags.tagged[id])
    && (!tags.passed ==> forall id | id in tags.tagged && tags.tagged[id] == tags.newest :: madeOn[id] == tags.newest)
    && (forall a | a in tags.attempts :: tags.attempts[a] == 1 && a.id in madeOn && madeOn[a.id] < a.connection)
  }

  ghost predicate Inv(s: State) {
    M.Inv(s.client) && C.ChannelsInv(s.client) && R.Inv(s.tags)
    && Together(s)
    && s.madeOn.Keys == s.client.consumers.Keys && Ordered(s.tags, s.madeOn, s.client.senders)
  }

  /** What a step of the client does to its handles, its connections and its senders. */
  lemma ClientStep(s: M.State, e: M.Event)
    requires M.Enabled(s, e)
    ensures var s' := M.Apply(s, e);
            && s'.subscriptions == (if e.Register? then s.subscriptions[s.idCount + 1 := e.request]
                                    else if e.Remove? then s.subscriptions - {s.cleanup.value} else s.subscriptions)
            && s'.consumers.Keys == s.consumers.Keys + (if e.Register? then {s.idCount + 1} else {})
            && |s'.connections| == |s.connections| + (if e == M.Install then 1 else 0)
            && (s'.senders == s.senders
                || (e == M.SendStart && s.idCount in s.consumers
                    && s'.senders == s.senders[s.idCount := |s.connections| - 1]))
  {
    hide M.AfterTurn, M.IdText, M.ProcessMessage;
    if e.Process? {
      M.ProcessedIs(s, e.msg);
    } else if e.Turn? {
      M.TurnStatus(e.id, s.consumers[e.id]);
    }
  }

  /** What a step of the tags does to the handles. */
  lemma TagHandles(tags: R.State, e: R.Event)
    requires R.Inv(tags) && R.Enabled(tags, e)
    ensures var tags' := R.Apply(tags, e);
            && tags'.handles.Keys == (match e case Insert(id, _) => tags.handles.Keys + {id}
                                              case Remove(id) => tags.handles.Keys - {id}
                                              case _ => tags.handles.Keys)
            && (forall id | id in tags'.handles ::
                  tags'.handles[id].request == if e.Insert? && id == e.id then e.request else tags.handles[id].request)
            && tags'.installed == tags.installed + (if e.Install? then 1 else 0)
  {
  }

  lemma StepKeepsTogether(s: State, e: Event)
    requires Inv(s) && Enabled(s, e)
    ensures Together(Apply(s, e))
  {
    hide M.Apply, M.Inv, C.ChannelsInv, M.Enabled, M.Sane, R.Apply, R.Inv, R.Enabled, Ordered;
    if e.Client? {
      ClientStep(s.client, e.e);
      RemovesSomething(s.client, e.e);
    }
    if TagEvent(s, e).Some? {
      TagHandles(s.tags, TagEvent(s, e).value);
    }
  }

  lemma RemovesSomething(s: M.State, e: M.Event)
    requires M.Enabled(s, e)
    ensures e.Remove? ==> s.cleanup.Some?
    ensures M.Sane(s)
  {
  }

  lemma PassKeepsOrdered(tags: R.State, madeOn: map<nat, nat>, senders: map<nat, nat>)
    requires R.Inv(tags) && Ordered(tags, madeOn, senders) && R.Enabled(tags, R.Pass)
    ensures Ordered(R.Apply(tags, R.Pass), madeOn, senders)
  {
    var tags' := R.Apply(tags, R.Pass);
    var started := set id | id in R.Stale(tags) :: R.Attempt(tags.newest, id);
    forall a | a in tags'.attempts
      ensures tags'.attempts[a] == 1 && a.id in madeOn && madeOn[a.id] < a.connection
    {
      if a in started {
        assert a !in tags.attempts;
        assert tags.tagged[a.id] != tags.newest;
      }
    }
  }

  lemma TagStepKeepsOrdered(tags: R.State, madeOn: map<nat, nat>, senders: map<nat, nat>, e: R.Event)
    requires R.Inv(tags) && Ordered(tags, madeOn, senders) && R.Enabled(tags, e)
    requires e.Insert? ==> e.id !in madeOn
    ensures Ordered(R.Apply(tags, e), if e.Insert? then madeOn[e.id := tags.installed] else madeOn, senders)
  {
    if e.Pass? {
      PassKeepsOrdered(tags, madeOn, senders);
    }
  }

  lemma StartKeepsOrdered(tags: R.State, madeOn: map<nat, nat>, senders: map<nat, nat>, id: nat)
    requires Ordered(tags, madeOn, senders) && id in madeOn
    ensures Ordered(tags, madeOn, senders[id := tags.installed])
  {
  }

  lemma StepKeepsOrdered(s: State, e: Event)
    requires Inv(s) && Enabled(s, e)
    ensures var s' := Apply(s, e);
            s'.madeOn.Keys == s'.client.consumers.Keys && Ordered(s'.tags, s'.madeOn, s'.client.senders)
  {
    hide M.Apply, M.Inv, C.ChannelsInv, M.Enabled, R.Apply, R.Inv, R.Enabled, Ordered;
    if e.Client? {
      C.NewIdIsNew(s.client);
      ClientStep(s.client, e.e);
    }
    var t := TagEvent(s, e);
    if t.Some? {
      TagStepKeepsOrdered(s.tags, s.madeOn, s.client.senders, t.value);
    } else if e == Client(M.SendStart) && s.client.idCount in s.madeOn {
      StartKeepsOrdered(s.tags, s.madeOn, s.client.senders, s.client.idCount);
    }
  }

  lemma StepKeepsInv(s: State, e: Event)
    requires Inv(s) && Enabled(s, e)
    ensures Inv(Apply(s, e))
  {
    StepKeepsTogether(s, e);
    StepKeepsOrdered(s, e);
    hide M.Inv, C.ChannelsInv, R.Inv, Together, Ordered, M.Apply, M.Enabled, R.Apply, R.Enabled;
    if e.Client? {
      M.StepKeepsInv(s.client, e.e);
      C.StepKeepsChannels(s.client, e.e);
    }
    var t := TagEvent(s, e);
    if t.Some? {
      R.StepKeepsInv(s.tags, t.value);
    }
  }

  lemma {:induction false} EveryRunKeepsInv(events: seq<Event>)
    requires After(events).Some?
    ensures Inv(After(events).value)
  {
    hide Enabled, Apply;
    if events == [] {
      C.EveryRunKeepsChannels([]);
    } else {
      EveryRunKeepsInv(events[..|events| - 1]);
      StepKeepsInv(After(events[..|events| - 1]).value, events[|events| - 1]);
    }
  }

  /** Tags hold back nothing that the client does but installing a connection before it is opened. */
  lemma TagsHoldNothingBack(s: State, e: M.Event)
    requires Inv(s) && M.Enabled(s.client, e)
    ensures Enabled(s, Client(e)) <==> e != M.Install || s.tags.newest == |s.client.connections|
  {
    hide M.ConsumerInv, C.ChannelsInv;
  }

  // ----- How often the server is asked to start a subscription -----

  /** The Starts for the subscription `id` that connection `c` gets, through its channel and in its pass. */
  function Starts(s: State, c: nat, id: nat): nat {
    (if c < |s.client.connections| then C.StartCount(s.client.connections[c].sent, M.IdText(id)) else 0)
    + s.tags.attempts[R.Attempt(c, id)]
  }

  predicate SubscribedOn(s: State, c: nat, id: nat) {
    id in s.client.senders && s.client.senders[id] == c
  }

  /**
   The connection that `subscribe` sent its Start to has one Start from there, and every
   connection installed later than the one in use when the handle was made may have one more,
   from its pass.  None gets more, and no other gets any.
   */
  lemma StartsAre(events: seq<Event>, c: nat, id: nat)
    requires After(events).Some? && id <= U64_MAX
    ensures var s := After(events).value;
            && Starts(s, c, id) == (if SubscribedOn(s, c, id) then 1 else 0) + s.tags.attempts[R.Attempt(c, id)]
            && s.tags.attempts[R.Attempt(c, id)] <= 1
            && (s.tags.attempts[R.Attempt(c, id)] == 1 ==> id in s.madeOn && s.madeOn[id] < c)
            && (SubscribedOn(s, c, id) ==> id in s.madeOn && s.madeOn[id] <= c)
  {
    EveryRunKeepsInv(events);
    var s := After(events).value;
    hide After, M.Inv, R.Inv, M.IdText, C.StartCount, C.Traced;
    if c < |s.client.connections| {
      assert C.ChannelInv(s.client, c, id);
    }
  }

  /** If no connection was installed while `subscribe` was between its lock sections, there is one Start on its own. */
  lemma OneStartOnItsOwn(events: seq<Event>, id: nat)
    requires After(events).Some? && id <= U64_MAX && id in After(events).value.client.senders
    ensures var s := After(events).value;
            && id in s.madeOn
            && (s.madeOn[id] == s.client.senders[id] ==> Starts(s, s.client.senders[id], id) == 1)
  {
    hide After, Starts;
    StartsAre(events, After(events).value.client.senders[id], id);
  }

  // ----- Which passes start what -----

  lemma {:induction false} RunAt(events: seq<Event>, i: nat)
    requires After(events).Some? && i <= |events|
    ensures After(events[..i]).Some?
    ensures i < |events| ==>
              && Enabled(After(events[..i]).value, events[i])
              && After(events[..i + 1]) == Some(Apply(After(events[..i]).value, events[i]))
    decreases |events|
  {
    hide Enabled, Apply;
    if i < |events| {
      var init := events[..|events| - 1];
      if i == |events| - 1 {
        assert events[..i + 1] == events;
      } else {
        assert init[..i] == events[..i] && init[..i + 1] == events[..i + 1];
        RunAt(init, i);
      }
    } else {
      assert events[..i] == events;
    }
  }

  /** Step number `i` of the run is the pass of connection `c`. */
  predicate PassesAt(events: seq<Event>, i: nat, c: nat) {
    i < |events| && events[i] == Pass && After(events[..i]).Some? && After(events[..i]).value.tags.newest == c
  }

  lemma TagStep(tags: R.State, e: R.Event, c: nat, id: nat)
    requires R.Inv(tags) && R.Enabled(tags, e)
    ensures var tags' := R.Apply(tags, e);
            && tags.newest <= tags'.newest
            && tags'.attempts[R.Attempt(c, id)] ==
               (if e == R.Pass && tags.newest == c then if id in R.Stale(tags) then 1 else 0
                else tags.attempts[R.Attempt(c, id)])
            && (tags.newest == tags'.newest && tags.passed ==> tags'.passed)
            && (e == R.Pass ==> tags'.passed && !tags.passed && tags'.newest == tags.newest)
  {
    if e.Pass? {
      var started := set other | other in R.Stale(tags) :: R.Attempt(tags.newest, other);
      assert R.Attempt(c, id) in started <==> c == tags.newest && id in R.Stale(tags);
      assert c == tags.newest ==> R.Attempt(c, id) !in tags.attempts;
    }
  }

  lemma StepOfTags(s: State, e: Event, c: nat, id: nat)
    requires Inv(s) && Enabled(s, e)
    ensures var s' := Apply(s, e);
            && s.tags.newest <= s'.tags.newest
            && s'.tags.attempts[R.Attempt(c, id)] ==
               (if e == Pass && s.tags.newest == c then if id in R.Stale(s.tags) then 1 else 0
                else s.tags.attempts[R.Attempt(c, id)])
            && (s.tags.newest == s'.tags.newest && s.tags.passed ==> s'.tags.passed)
            && (e == Pass ==> s'.tags.passed && !s.tags.passed && s'.tags.newest == s.tags.newest)
  {
    hide M.Apply, M.Inv, C.ChannelsInv, M.Enabled, R.Apply, R.Inv, R.Enabled, R.Stale, Ordered;
    if TagEvent(s, e).Some? {
      TagStep(s.tags, TagEvent(s, e).value, c, id);
    }
  }

  lemma {:induction false} PassDecides(events: seq<Event>, i: nat, c: nat, id: nat)
    requires After(events).Some? && PassesAt(events, i, c)
    ensures var s := After(events).value;
            && s.tags.attempts[R.Attempt(c, id)] == (if id in R.Stale(After(events[..i]).value.tags) then 1 else 0)
            && c <= s.tags.newest && (c == s.tags.newest ==> s.tags.passed)
    decreases |events|
  {
    hide Apply, Enabled, Inv, R.Stale;
    var n := |events| - 1;
    var init := events[..n];
    RunAt(events, n);
    assert events[..n + 1] == events;
    EveryRunKeepsInv(init);
    StepOfTags(After(init).value, events[n], c, id);
    if i < n {
      assert init[..i] == events[..i];
      PassDecides(init, i, c, id);
    }
  }

  lemma {:induction false} NoPassNoAttempt(events: seq<Event>, c: nat, id: nat)
    requires After(events).Some? && forall i: nat :: !PassesAt(events, i, c)
    ensures After(events).value.tags.attempts[R.Attempt(c, id)] == 0
  {
    if events != [] {
      hide Apply, Enabled, Inv, R.Stale;
      var n := |events| - 1;
      var init := events[..n];
      RunAt(events, n);
      assert events[..n + 1] == events;
      EveryRunKeepsInv(init);
      forall i: nat ensures !PassesAt(init, i, c) {
        assert i < n ==> init[..i] == events[..i];
        assert !PassesAt(events, i, c);
      }
      NoPassNoAttempt(init, c, id);
      assert !PassesAt(events, n, c);
      StepOfTags(After(init).value, events[n], c, id);
    }
  }

  /** No connection is replaced before its pass, as far as opening the next one goes. */
  predicate EveryPassRuns(events: seq<Event>)
    requires After(events).Some?
  {
    R.EveryPassRuns(TagRun(events))
  }

  /**
   Exactly how many Starts a connection gets in a run: one through its channel if `subscribe`
   sent it there, and one in its pass if the handle was there then with another tag.  When
   every connection gets to its pass, that is if the handle was made while an earlier
   connection was in use.  So there are two if the connection was installed while `subscribe`
   was between its lock sections, and the handle was there for its pass.
   */
  lemma StartsExactly(events: seq<Event>, i: nat, c: nat, id: nat)
    requires After(events).Some? && id <= U64_MAX && PassesAt(events, i, c)
    ensures var s, at := After(events).value, After(events[..i]).value;
            && Starts(s, c, id) == (if SubscribedOn(s, c, id) then 1 else 0) + (if id in R.Stale(at.tags) then 1 else 0)
            && (EveryPassRuns(events[..i]) ==>
                  (id in R.Stale(at.tags) <==> id in at.tags.handles && id in at.madeOn && at.madeOn[id] < c))
  {
    var at := After(events[..i]).value;
    StartsAre(events, c, id);
    PassDecides(events, i, c, id);
    StaleAtPass(events, i, id);
  }

  lemma StaleMeans(s: State, id: nat)
    requires Inv(s) && Enabled(s, Pass) && id in s.tags.handles
    ensures id in s.tags.tagged && id in s.madeOn
    ensures s.tags.tagged[id] == s.tags.newest <==> s.madeOn[id] >= s.tags.newest
  {
    hide M.Inv, C.ChannelsInv;
  }

  lemma StaleAtPass(events: seq<Event>, i: nat, id: nat)
    requires After(events).Some? && i < |events| && events[i] == Pass
    ensures After(events[..i]).Some?
    ensures EveryPassRuns(events[..i]) ==>
              var at := After(events[..i]).value;
              (id in R.Stale(at.tags) <==> id in at.tags.handles && id in at.madeOn && at.madeOn[id] < at.tags.newest)
  {
    hide After, Apply, R.After, R.EveryPassRuns, Inv, TagRun;
    RunAt(events, i);
    var before := events[..i];
    var at := After(before).value;
    if EveryPassRuns(before) && id in at.tags.handles {
      EveryRunKeepsInv(before);
      PartsRunAlone(before);
      StaleMeans(at, id);
      R.NothingIsSkipped(TagRun(before), id);
    }
  }

  /** A connection that makes no pass in a run gets the Start from `subscribe` at most. */
  lemma StartsWithoutPass(events: seq<Event>, c: nat, id: nat)
    requires After(events).Some? && id <= U64_MAX && forall i: nat :: !PassesAt(events, i, c)
    ensures var s := After(events).value;
            Starts(s, c, id) == if SubscribedOn(s, c, id) then 1 else 0
  {
    hide After, Starts, PassesAt;
    StartsAre(events, c, id);
    NoPassNoAttempt(events, c, id);
  }

  // ----- A subscription that is started twice on one connection -----

  lemma AfterOne(events: seq<Event>, e: Event)
    requires After(events).Some? && Enabled(After(events).value, e)
    ensures After(events + [e]) == Some(Apply(After(events).value, e))
  {
    assert (events + [e])[..|events|] == events;
  }

  /** The connection is replaced while `subscribe` is between its lock sections. */
  function Overtaking(request: M.Payload): seq<Event> {
    [Client(M.Register(request)), Connect, Client(M.Install), Pass, Client(M.SendStart)]
  }

  /** The state of the client between the two lock sections. */
  function BetweenLocks(request: M.Payload, connections: seq<M.Connection>): M.State {
    C.LosingState(request, true, true, connections, M.Consumer([], [], M.Starting), [])
  }

  const REPLACED: seq<M.Connection> := [M.Connection(true, [M.Terminate]), M.Connection(true, [])]

  lemma Installed(request: M.Payload)
    ensures var s := BetweenLocks(request, [M.Connection(true, [])]);
            M.Enabled(s, M.Install) && M.Apply(s, M.Install) == BetweenLocks(request, REPLACED)
  {
    var s := BetweenLocks(request, [M.Connection(true, [])]);
    assert M.Accept(s.connections[0], M.Terminate).sent == [M.Terminate];
    assert M.Apply(s, M.Install).connections == REPLACED;
  }

  lemma StartedLate(request: M.Payload)
    ensures var s := BetweenLocks(request, REPLACED);
            && M.Enabled(s, M.SendStart)
            && M.Apply(s, M.SendStart).senders == map[1 := 1]
  {
    hide M.IdText;
  }

  /** One subscription, and two Starts for it on one connection. */
  lemma StartedTwice(request: M.Payload)
    ensures var s := After(Overtaking(request));
            s.Some? && SubscribedOn(s.value, 1, 1) && Starts(s.value, 1, 1) == 2
  {
    var events := Overtaking(request);
    C.Registering(request);
    Installed(request);
    StartedLate(request);
    RunOvertaking(request);
    hide After;
    StartsAre(events, 1, 1);
  }

  lemma RunOvertaking(request: M.Payload)
    requires M.Enabled(M.Init, M.Register(request))
    requires M.Apply(M.Init, M.Register(request)) == BetweenLocks(request, [M.Connection(true, [])])
    requires var s := BetweenLocks(request, [M.Connection(true, [])]);
             M.Enabled(s, M.Install) && M.Apply(s, M.Install) == BetweenLocks(request, REPLACED)
    requires M.Enabled(BetweenLocks(request, REPLACED), M.SendStart)
    ensures var s := After(Overtaking(request));
            && s.Some?
            && s.value.client == M.Apply(BetweenLocks(request, REPLACED), M.SendStart)
            && s.value.tags.attempts == multiset{R.Attempt(1, 1)}
  {
    hide M.Apply, M.Enabled, After, C.LosingState;
    var events := Overtaking(request);
    var e0, e1, e2, e3, e4 := events[0], events[1], events[2], events[3], events[4];
    assert events == [] + [e0] + [e1] + [e2] + [e3] + [e4];
    assert After([]) == Some(Init) by { NothingRun(); }
    AfterOne([], e0);
    var s0 := Apply(Init, e0);
    assert s0.client == BetweenLocks(request, [M.Connection(true, [])]);
    assert s0.tags == R.State(map[1 := R.Handle(request, 0)], 0, 0, false, 0, 0, map[1 := 0], multiset{}) by {
      assert M.Init.idCount == 0;
    }
    AfterOne([] + [e0], e1);
    AfterOne([] + [e0] + [e1], e2);
    var s2 := Apply(Apply(s0, e1), e2);
    assert s2.tags == R.State(map[1 := R.Handle(request, 0)], 1, 1, false, 1, 1, map[1 := 0], multiset{});
    AfterOne([] + [e0] + [e1] + [e2], e3);
    AfterOne([] + [e0] + [e1] + [e2] + [e3], e4);
    var started := set other | other in R.Stale(s2.tags) :: R.Attempt(1, other);
    assert 1 in R.Stale(s2.tags);
    assert started == {R.Attempt(1, 1)};
  }

  lemma NothingRun()
    ensures After([]) == Some(Init)
  {
  }

  // ----- The text of the id in a pass -----

  /** A pass writes ids in decimal. */
  function PassText(id: nat): string {
    Numeral(id, 10)
  }

  lemma {:induction false} DecimalAsHex(id: nat)
    ensures var v := DigitsValue(PassText(id), 16);
            v.Some? && (if id < 10 then v.value == id else v.value > id)
  {
    if id >= 10 {
      DivMod(id, 10);
      DecimalAsHex(id / 10);
      var text := PassText(id);
      assert text[..|text| - 1] == PassText(id / 10);
    }
  }

  /**
   What the server sends for a subscription started in a pass carries the text of the pass.
   It comes to that subscription exactly if its id is below ten, and is then under the text
   that the subscription knows.
   */
  lemma AnswersToPassArriveExactlyWhen(id: nat, payload: M.Payload)
    requires id <= U64_MAX
    ensures M.RoutedTo(id, M.Data(PassText(id), payload)) <==> id < 10
    ensures PassText(id) == M.IdText(id) <==> id < 10
  {
    DecimalAsHex(id);
    M.IdTextIsUnique(id, id);
  }

  /** Subscription 10 is started again as "10", which is how the client writes 16. */
  lemma TenIsTakenForSixteen(payload: M.Payload)
    ensures PassText(10) == M.IdText(16)
    ensures M.RoutedTo(16, M.Data(PassText(10), payload))
            && M.Yields(16, M.Data(PassText(10), payload)) == [M.Value(payload)]
  {
    assert PassText(10) == Numeral(1, 10) + Numeral(0, 10);
    assert M.IdText(16) == Numeral(1, 16) + Numeral(0, 16);
    M.IdTextIsUnique(16, 16);
  }
}
