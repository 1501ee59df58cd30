/** What streams hold after a run of the multiplexer, and what can still happen then. */
module Progress {
  import opened Wrappers
  import opened Numerals
  import opened Multiplexer

  // ----- What streams hold -----

  /** The text is read as the id: in hexadecimal digits of either case, with a plus sign and zeros in front or not. */
  predicate Means(text: string, id: nat) {
    ParseUnsigned(text, 16, 0xFFFF_FFFF_FFFF_FFFF) == Some(id)
  }

  predicate IsFinal(id: nat, m: ServerMessage) {
    match m
    case ConnectionError(_) => true
    case Error(text, _) => Means(text, id)
    case Complete(text) => Means(text, id)
    case _ => false
  }

  /** What one message puts into the stream of `id`. */
  function ItemsOf(id: nat, m: ServerMessage): seq<Item> {
    match m
    case ConnectionError(payload) => [ServerError(payload)]
    case Data(text, payload) => if text == IdText(id) then [Value(payload)] else []
    case Error(text, payload) => if text == IdText(id) then [ServerError(payload)] else []
    case _ => []
  }

  /** What the messages put into it, from the first on and up to one that is final. */
  function Items(id: nat, msgs: seq<ServerMessage>): seq<Item> {
    if msgs == [] then []
    else ItemsOf(id, msgs[0]) + if IsFinal(id, msgs[0]) then [] else Items(id, msgs[1..])
  }

  predicate HoldsFinal(id: nat, msgs: seq<ServerMessage>) {
    exists i | 0 <= i < |msgs| :: IsFinal(id, msgs[i])
  }

  lemma FinalFirstOrLater(id: nat, msgs: seq<ServerMessage>)
    requires msgs != []
    ensures HoldsFinal(id, msgs) <==> IsFinal(id, msgs[0]) || HoldsFinal(id, msgs[1..])
  {
    hide IsFinal;
    assert forall i | 0 < i < |msgs| :: msgs[i] == msgs[1..][i - 1];
  }

  lemma {:induction false} ItemsMore(id: nat, msgs: seq<ServerMessage>, m: ServerMessage)
    ensures Items(id, msgs + [m]) == Items(id, msgs) + if HoldsFinal(id, msgs) then [] else ItemsOf(id, m)
  {
    hide IsFinal, HoldsFinal, ItemsOf;
    var all := msgs + [m];
    if msgs == [] {
      assert all == [m] && all[1..] == [];
      NoneIsFinal(id);
    } else {
      ItemsMore(id, msgs[1..], m);
      FinalFirstOrLater(id, msgs);
      assert all[1..] == msgs[1..] + [m] && all[0] == msgs[0];
    }
  }

  lemma NoneIsFinal(id: nat)
    ensures !HoldsFinal(id, [])
  {
  }

  lemma FinalEnds(id: nat, m: ServerMessage)
    ensures Ends(id, m) <==> IsFinal(id, m)
    ensures Yields(id, m) == ItemsOf(id, m)
  {
  }

  lemma {:induction false} ExpectedIs(id: nat, msgs: seq<ServerMessage>)
    ensures Expected(id, msgs) == Items(id, msgs)
    ensures Ended(id, msgs) <==> HoldsFinal(id, msgs)
  {
    hide Yields, Ends, Items, ItemsOf, IsFinal;
    forall i | 0 <= i < |msgs| ensures Ends(id, msgs[i]) <==> IsFinal(id, msgs[i]) { FinalEnds(id, msgs[i]); }
    if msgs == [] {
      assert Items(id, msgs) == [] by { NoItems(id); }
    } else {
      var init, m := msgs[..|msgs| - 1], msgs[|msgs| - 1];
      assert msgs == init + [m];
      ExpectedIs(id, init);
      ItemsMore(id, init, m);
      FinalEnds(id, m);
    }
  }

  lemma NoItems(id: nat)
    ensures Items(id, []) == []
  {
  }

  /**
   Once its task has returned, a stream has yielded these items of the messages processed since the
   subscription was made; while the task runs, as many of them as it has come to.
   */
  lemma StreamsHoldItems(events: seq<Event>, id: nat)
    requires After(events).Some? && id in After(events).value.consumers
    ensures var s := After(events).value;
            && id in s.registered && s.registered[id] <= |s.log|
            && var items := Items(id, s.log[s.registered[id]..]);
            && s.consumers[id].yielded <= items
            && (s.consumers[id].status == Returned ==> s.consumers[id].yielded == items)
  {
    StreamsFollowTheLog(events, id);
    var s := After(events).value;
    ExpectedIs(id, s.log[s.registered[id]..]);
    hide After, Expected, Items;
  }

  // ----- What can happen -----

  /** After any run, an event can happen exactly in these cases. */
  lemma PossibleExactlyWhen(events: seq<Event>, e: Event)
    requires After(events).Some?
    ensures var s := After(events).value;
            After(events + [e]).Some? <==>
            match e
            case Register(_) => s.starting == None && s.idCount < 0xFFFF_FFFF_FFFF_FFFF
            case SendStart => s.starting.Some?
            case Cancel => s.starting.Some?
            case Poll(id) => id in s.consumers && s.consumers[id].status == Unpolled
            case Drop(id) => id in s.consumers && s.consumers[id].status == Unpolled
            case Process(m) => s.cleanup == None && m != ConnectionKeepAlive
            case Remove => s.cleanup.Some?
            case Turn(id) =>
              && id in s.consumers && s.consumers[id].status == Running
              && (|s.consumers[id].queue| > 0 || id !in s.subscriptions)
            case EndSender(k) => k < |s.connections| && s.connections[k].open
            case Install => true
  {
    EveryRunKeepsInv(events);
    assert (events + [e])[..|events|] == events;
    assert Sane(After(events).value);
    hide Sane, Apply, Inv;
  }

  /** The task of a polled stream can yield all that the messages so far call for, by turns of its own. */
  lemma {:induction false} QueueCanBeYielded(events: seq<Event>, id: nat) returns (turns: seq<Event>)
    requires After(events).Some? && id in After(events).value.consumers
    requires After(events).value.consumers[id].status == Running
    ensures forall t | t in turns :: t == Turn(id)
    ensures After(events + turns).Some?
    ensures var s, s' := After(events).value, After(events + turns).value;
            && id in s.registered && s.registered[id] <= |s.log|
            && id in s'.consumers && s'.consumers[id].yielded == Items(id, s.log[s.registered[id]..])
            && (s'.consumers[id].queue == [] || s'.consumers[id].status == Returned)
    decreases |After(events).value.consumers[id].queue|
  {
    hide After, Items;
    turns := [];
    if After(events).value.consumers[id].queue == [] {
      NothingIsLeft(events, id);
      assert events + turns == events;
    } else {
      var t := Turn(id);
      TurnIs(events, id);
      if After(events + [t]).value.consumers[id].status == Running {
        turns := QueueCanBeYielded(events + [t], id);
        assert events + ([t] + turns) == events + [t] + turns;
      } else {
        NothingIsLeft(events + [t], id);
        assert [t] + turns == [t];
      }
      turns := [t] + turns;
    }
  }

  lemma NothingIsLeft(events: seq<Event>, id: nat)
    requires After(events).Some? && id in After(events).value.consumers
    requires var c := After(events).value.consumers[id]; c.status == Returned || (c.status == Running && c.queue == [])
    ensures var s := After(events).value;
            && id in s.registered && s.registered[id] <= |s.log|
            && s.consumers[id].yielded == Items(id, s.log[s.registered[id]..])
  {
    StreamsFollowTheLog(events, id);
    ExpectedIs(id, After(events).value.log[After(events).value.registered[id]..]);
    hide After, Expected, Items;
  }

  lemma TurnIs(events: seq<Event>, id: nat)
    requires After(events).Some? && id in After(events).value.consumers
    requires After(events).value.consumers[id].status == Running && After(events).value.consumers[id].queue != []
    ensures After(events + [Turn(id)]).Some?
    ensures var s, s' := After(events).value, After(events + [Turn(id)]).value;
            && s'.log == s.log && s'.registered == s.registered && id in s'.consumers
            && s'.consumers[id].queue == s.consumers[id].queue[1..]
            && (s'.consumers[id].status == Running || s'.consumers[id].status == Returned)
  {
    PossibleExactlyWhen(events, Turn(id));
    assert (events + [Turn(id)])[..|events|] == events;
    hide IdText;
  }
}
