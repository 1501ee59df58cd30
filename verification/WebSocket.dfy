/**
 The shared state of crates/client/src/ws.rs and the atomic sections that update it.  Each
 method is proved to be one step of the transition system in `Multiplexer.dfy`.
 */
module WebSocket {
  import opened Wrappers
  import opened Numerals
  import opened Multiplexer

  class GraphQLWebSocket {
    var subscriptions: map<nat, Payload>
    var idCount: nat
    /** The request `subscribe` still has to send, between its two lock sections. */
    var starting: Option<Payload>
    /** The channels to the sender tasks; the last one is that of the current connection. */
    var connections: seq<Connection>
    /** The sender that each subscription was given. */
    var senders: map<nat, nat>
    /** The channels of the handles, and what is at their other ends. */
    var consumers: map<nat, Consumer>
    var cleanup: Option<nat>
    ghost var log: seq<ServerMessage>
    ghost var registered: map<nat, nat>

    ghost function Abs(): State
      reads this
    {
      State(subscriptions, idCount, starting, connections, senders, consumers, cleanup, log, registered)
    }

    constructor ()
      ensures Abs() == Init
    {
      subscriptions, idCount, starting := map[], 0, None;
      connections, senders := [Connection(true, [])], map[];
      consumers, cleanup := map[], None;
      log, registered := [], map[];
    }

    /** `tx.send` on the channel of a connection: fails when its sender task has ended. */
    method SendOn(k: nat, msg: ClientMessage) returns (ok: bool)
      requires k < |connections|
      modifies `connections
      ensures ok == old(connections)[k].open
      ensures connections == old(connections)[k := Accept(old(connections)[k], msg)]
    {
      ok := connections[k].open;
      if ok {
        connections := connections[k := connections[k].(sent := connections[k].sent + [msg])];
      }
    }

    /** `subscribe`, first section: the handle is inserted under a new id. */
    method SubscribeRegister(payload: Payload) returns (id: string)
      requires Enabled(Abs(), Register(payload))
      modifies this
      ensures Abs() == Apply(old(Abs()), Register(payload))
      ensures id == IdText(idCount)
    {
      idCount := idCount + 1;
      id := Numeral(idCount, 16);
      subscriptions := subscriptions[idCount := payload];
      consumers := consumers[idCount := Consumer([], [], Starting)];
      registered := registered[idCount := |log|];
      starting := Some(payload);
    }

    /**
     `subscribe`, second section: the Start message goes to the connection, and the
     subscription is made with a sender to it; or the `unwrap` panics, and there is none.
     */
    method SubscribeSendStart() returns (ok: bool)
      requires Enabled(Abs(), SendStart)
      modifies this
      ensures Abs() == Apply(old(Abs()), SendStart)
      ensures ok == old(connections)[|old(connections)| - 1].open
      ensures ok ==> senders == old(senders)[idCount := |connections| - 1]
    {
      var current := |connections| - 1;
      ok := SendOn(current, Start(IdText(idCount), starting.value));
      starting := None;
      if ok {
        senders := senders[idCount := current];
        consumers := consumers[idCount := consumers[idCount].(status := Unpolled)];
      } else {
        consumers := consumers[idCount := consumers[idCount].(status := Abandoned)];
      }
    }

    /** `channel.send`: fails when the receiver is gone. */
    method Send(id: nat, msg: ServerMessage) returns (ok: bool)
      requires id in consumers
      modifies `consumers
      ensures ok == old(consumers)[id].Live()
      ensures consumers == old(consumers)[id := Push(old(consumers)[id], msg)]
    {
      var c := consumers[id];
      ok := c.Live();
      if ok {
        consumers := consumers[id := c.(queue := c.queue + [msg])];
      }
    }

    /** `process_server_message`, under the read lock. */
    method RouteMessage(msg: ServerMessage)
      requires Enabled(Abs(), Process(msg))
      modifies this
      ensures Abs() == Apply(old(Abs()), Process(msg))
    {
      log := log + [msg];
      var target := IdOf(msg);
      if target.Some? {
        if target.value in subscriptions {
          var requiresCleanup := match msg case Error(_, _) => true case Complete(_) => true case _ => false;
          var ok := Send(target.value, msg);
          cleanup := if !ok || requiresCleanup then target else None;
        }
      } else {
        Broadcast(msg);
      }
    }

    /** The loop over all handles, in no particular order. */
    method Broadcast(msg: ServerMessage)
      requires subscriptions.Keys <= consumers.Keys
      modifies `consumers
      ensures consumers == map id | id in old(consumers) ::
                if id in subscriptions then Push(old(consumers)[id], msg) else old(consumers)[id]
    {
      hide Push;
      var todo := subscriptions.Keys;
      while todo != {}
        invariant todo <= subscriptions.Keys
        invariant consumers.Keys == old(consumers).Keys
        invariant forall id | id in consumers :: consumers[id] ==
                    if id in subscriptions && id !in todo then Push(old(consumers)[id], msg) else old(consumers)[id]
        decreases |todo|
      {
        var id :| id in todo;
        var _ := Send(id, msg);
        todo := todo - {id};
      }
    }

    /** `process_server_message`, under the write lock. */
    method RemoveSubscription()
      requires Enabled(Abs(), Remove)
      modifies this
      ensures Abs() == Apply(old(Abs()), Remove)
    {
      subscriptions := subscriptions - {cleanup.value};
      cleanup := None;
    }

    /** The subscription is dropped by its user, whose stream was not polled yet. */
    method DropSubscription(id: nat)
      requires Enabled(Abs(), Drop(id))
      modifies this
      ensures Abs() == Apply(old(Abs()), Drop(id))
    {
      consumers := consumers[id := consumers[id].(status := Dropped)];
      var _ := SendOn(senders[id], Stop(IdText(id)));
    }

    /** One turn of the loop in `spawn_task`; when the task returns, its subscription is dropped. */
    method SubscriptionTurn(id: nat)
      requires Enabled(Abs(), Turn(id))
      modifies this
      ensures Abs() == Apply(old(Abs()), Turn(id))
    {
      var c := consumers[id];
      if c.queue == [] {
        c := c.(status := Returned);
      } else {
        var msg, own := c.queue[0], IdText(id);
        c := c.(queue := c.queue[1..]);
        match msg {
          case Data(text, payload) =>
            if text == own {
              c := c.(yielded := c.yielded + [Value(payload)]);
            }
          case Complete(text) =>
            if text == own {
              c := c.(status := Returned);
            }
          case ConnectionError(payload) =>
            c := c.(yielded := c.yielded + [ServerError(payload)], status := Returned);
          case Error(text, payload) =>
            if text == own {
              c := c.(yielded := c.yielded + [ServerError(payload)]);
            }
          case ConnectionAck =>
          case ConnectionKeepAlive =>
        }
      }
      assert c == AfterTurn(id, consumers[id]);
      hide AfterTurn, IdText;
      consumers := consumers[id := c];
      if c.status == Returned {
        var _ := SendOn(senders[id], Stop(IdText(id)));
      }
      TurnStatus(id, old(consumers)[id]);
    }

    /** The reconnecter puts a new connection in place of the old one, which says goodbye as it is dropped. */
    method InstallConnection()
      requires Enabled(Abs(), Install)
      modifies this
      ensures Abs() == Apply(old(Abs()), Install)
    {
      var _ := SendOn(|connections| - 1, Terminate);
      connections := connections + [Connection(true, [])];
    }
  }
}
