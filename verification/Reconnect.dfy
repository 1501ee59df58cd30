/** The one-byte liveness tags of crates/client/src/ws.rs, by which reconnecting starts subscriptions again. */
module Reconnect {
  import opened Wrappers

  datatype Handle = Handle(request: string, liveness: nat)

  /** An attempt to send Start for the subscription `id` on connection number `connection`. */
  datatype Attempt = Attempt(connection: nat, id: nat)

  /**
   Connections are numbered from 0.  `newest` is the last one opened and `liveness` its tag;
   `installed` is the one new subscriptions use.  `tagged` records which connection gave
   each handle its tag, and `attempts` what the resubscribe passes have tried to send.
   */
  datatype State = State(
    handles: map<nat, Handle>,
    newest: nat,
    liveness: nat,
    passed: bool,
    installed: nat,
    installedLiveness: nat,
    tagged: map<nat, nat>,
    attempts: multiset<Attempt>)

  const Init: State := State(map[], 0, 0, false, 0, 0, map[], multiset{})

  datatype Event = Connect | Pass | Install | Insert(id: nat, request: string) | Remove(id: nat)

  function WrappingIncrement(n: nat): nat {
    (n + 1) % 256
  }

  predicate Enabled(s: State, e: Event) {
    match e
    case Connect => s.installed == s.newest
    case Pass => !s.passed
    case Install => s.installed != s.newest
    case Insert(id, _) => id !in s.handles
    case Remove(id) => id in s.handles
  }

  /** The handles that a pass with tag `liveness` starts. */
  function Differing(handles: map<nat, Handle>, liveness: nat): set<nat> {
    set id | id in handles && handles[id].liveness != liveness
  }

  function Retagged(handles: map<nat, Handle>, liveness: nat): map<nat, Handle> {
    map id | id in handles :: handles[id].(liveness := liveness)
  }

  function Stale(s: State): set<nat> {
    Differing(s.handles, s.liveness)
  }

  function Apply(s: State, e: Event): State {
    match e
    case Connect => s.(newest := s.newest + 1, liveness := WrappingIncrement(s.liveness), passed := false)
    case Pass =>
      s.(handles := Retagged(s.handles, s.liveness),
         tagged := map id | id in s.tagged :: if id in Stale(s) then s.newest else s.tagged[id],
         passed := true,
         attempts := s.attempts + multiset(set id | id in Stale(s) :: Attempt(s.newest, id)))
    case Install => s.(installed := s.newest, installedLiveness := s.liveness)
    case Insert(id, request) =>
      s.(handles := s.handles[id := Handle(request, s.installedLiveness)], tagged := s.tagged[id := s.installed])
    case Remove(id) => s.(handles := s.handles - {id}, tagged := s.tagged - {id})
  }

  function After(events: seq<Event>): Option<State> {
    if events == [] then Some(Init)
    else
      match After(events[..|events| - 1])
      case None => None
      case Some(s) =>
        var e := events[|events| - 1];
        if Enabled(s, e) then Some(Apply(s, e)) else None
  }

  /** Connection number `e` carries tag `e mod 256`, and so do the handles it tagged. */
  ghost predicate Inv(s: State) {
    && s.liveness == s.newest % 256
    && s.installedLiveness == s.installed % 256
    && s.installed <= s.newest <= s.installed + 1
    && s.handles.Keys == s.tagged.Keys
    && (forall id | id in s.handles :: s.tagged[id] <= s.newest && s.handles[id].liveness == s.tagged[id] % 256)
    && (forall a | a in s.attempts :: a.connection <= s.newest && (a.connection == s.newest ==> s.passed))
  }

  lemma StepKeepsInv(s: State, e: Event)
    requires Inv(s) && Enabled(s, e)
    ensures Inv(Apply(s, e))
  {
  }

  lemma {:induction false} EveryRunKeepsInv(events: seq<Event>)
    requires After(events).Some?
    ensures Inv(After(events).value)
  {
    if events != [] {
      EveryRunKeepsInv(events[..|events| - 1]);
      StepKeepsInv(After(events[..|events| - 1]).value, events[|events| - 1]);
    }
  }

  /**
   A pass, after any run: it attempts Start once for exactly the handles whose tag differs
   from its own, and these are the ones last tagged a number of connections earlier that is
   not a multiple of 256.  Afterwards every handle carries the tag of the pass.
   */
  lemma {:induction false} PassStartsExactlyTheStale(events: seq<Event>, id: nat)
    requires After(events).Some? && Enabled(After(events).value, Pass)
    requires id in After(events).value.handles
    ensures var s := After(events).value;
            var s' := Apply(s, Pass);
            && id in s.tagged && s.tagged[id] <= s.newest
            && s.attempts[Attempt(s.newest, id)] == 0
            && s'.attempts[Attempt(s.newest, id)] == (if s.handles[id].liveness != s.liveness then 1 else 0)
            && (s.handles[id].liveness == s.liveness <==> (s.newest - s.tagged[id]) % 256 == 0)
            && s'.handles[id] == s.handles[id].(liveness := s.liveness)
  {
    EveryRunKeepsInv(events);
    var s := After(events).value;
    SameTag(s.newest, s.tagged[id]);
    var started := set other | other in Stale(s) :: Attempt(s.newest, other);
    assert Attempt(s.newest, id) in started <==> id in Stale(s);
  }

  /** A handle was tagged by a connection that attempted its Start, or by the one it was made on. */
  lemma {:induction false} TagsAreEarned(events: seq<Event>, id: nat)
    requires After(events).Some? && id in After(events).value.tagged
    ensures var s := After(events).value;
            || s.attempts[Attempt(s.tagged[id], id)] > 0
            || exists i | 0 <= i < |events| ::
                 && events[i].Insert? && events[i].id == id
                 && After(events[..i]).Some? && After(events[..i]).value.installed == s.tagged[id]
  {
    var init, e := events[..|events| - 1], events[|events| - 1];
    var before := After(init).value;
    if e.Insert? && e.id == id {
      assert events[|events| - 1].Insert?;
    } else if e.Pass? && id in Stale(before) {
      var started := set other | other in Stale(before) :: Attempt(before.newest, other);
      assert Attempt(before.newest, id) in started;
    } else {
      TagsAreEarned(init, id);
      assert forall i | 0 <= i < |init| :: events[i] == init[i] && events[..i] == init[..i];
    }
  }

  lemma SameTag(a: nat, b: nat)
    requires b <= a
    ensures a % 256 == b % 256 <==> (a - b) % 256 == 0
  {
  }

  // ----- Connections that are replaced before their pass -----

  /** `n` connections opened and installed one after the other, without a pass in between. */
  function Replaced(n: nat): seq<Event> {
    if n == 0 then [] else Replaced(n - 1) + [Connect, Install]
  }

  lemma AfterOne(events: seq<Event>, e: Event)
    requires After(events).Some? && Enabled(After(events).value, e)
    ensures After(events + [e]) == Some(Apply(After(events).value, e))
  {
    assert (events + [e])[..|events|] == events;
  }

  /** A subscription made on the first connection keeps the tag of that one through all of them. */
  lemma {:induction false} TagSurvives(id: nat, request: string, n: nat)
    ensures var s := After([Insert(id, request)] + Replaced(n));
            && s.Some? && !s.value.passed && s.value.installed == s.value.newest == n
            && s.value.handles == map[id := Handle(request, 0)] && s.value.attempts == multiset{}
            && s.value.liveness == n % 256
  {
    var start := [Insert(id, request)];
    if n == 0 {
      AfterOne([], start[0]);
      assert [] + start == start == start + Replaced(0);
    } else {
      TagSurvives(id, request, n - 1);
      var before := start + Replaced(n - 1);
      assert start + Replaced(n) == before + [Connect] + [Install];
      hide After, Replaced;
      AfterOne(before, Connect);
      AfterOne(before + [Connect], Install);
    }
  }

  /**
   When `n` connections follow one another and only the last gets to its resubscribe pass, that
   pass starts a subscription made before them, unless `n` is a multiple of 256: with 256 of
   them no Start is ever attempted for it on any of them.
   */
  lemma SkippedAfter256(id: nat, request: string, n: nat)
    ensures var s := After([Insert(id, request)] + Replaced(n) + [Pass]);
            && s.Some? && s.value.installed == s.value.newest == n
            && s.value.attempts == if n % 256 == 0 then multiset{} else multiset{Attempt(n, id)}
  {
    var events := [Insert(id, request)] + Replaced(n);
    TagSurvives(id, request, n);
    AfterOne(events, Pass);
    var s := After(events).value;
    var started := set other | other in Stale(s) :: Attempt(s.newest, other);
    assert started == if n % 256 == 0 then {} else {Attempt(n, id)} by {
      assert n % 256 != 0 ==> id in Stale(s);
    }
  }

  // ----- When every connection gets to its pass -----

  /** No connection is replaced before its resubscribe pass. */
  predicate EveryPassRuns(events: seq<Event>) {
    forall i | 0 <= i < |events| && events[i].Connect? && After(events[..i]).Some? :: After(events[..i]).value.passed
  }

  ghost predicate Recent(s: State) {
    forall id | id in s.tagged :: s.newest <= s.tagged[id] + (if s.passed then 1 else 2)
  }

  lemma {:induction false} TagsStayRecent(events: seq<Event>)
    requires After(events).Some? && EveryPassRuns(events)
    ensures Recent(After(events).value)
  {
    if events != [] {
      var n := |events| - 1;
      var init := events[..n];
      assert forall i | 0 <= i < n :: init[i] == events[i] && init[..i] == events[..i];
      TagsStayRecent(init);
      EveryRunKeepsInv(init);
      var s, e := After(init).value, events[n];
      if e == Pass {
        forall id | id in s.tagged && id !in Stale(s) ensures s.tagged[id] + 1 >= s.newest {
          SameTag(s.newest, s.tagged[id]);
        }
      }
    }
  }

  /**
   If every connection gets to its pass, tags never wrap: each pass starts exactly the
   handles that its own connection has not tagged yet.
   */
  lemma {:induction false} NothingIsSkipped(events: seq<Event>, id: nat)
    requires After(events).Some? && EveryPassRuns(events) && Enabled(After(events).value, Pass)
    requires id in After(events).value.handles
    ensures var s := After(events).value;
            id in s.tagged && (id in Stale(s) <==> s.tagged[id] != s.newest)
  {
    hide After, EveryPassRuns;
    EveryRunKeepsInv(events);
    TagsStayRecent(events);
    var s := After(events).value;
    SameTag(s.newest, s.tagged[id]);
  }

  // ----- The pass as the sender task runs it -----

  class Subscriptions {
    var handles: map<nat, Handle>

    constructor ()
      ensures handles == map[]
    {
      handles := map[];
    }

    /** Goes through the handles in no particular order, under the read lock. */
    method ResubscribePass(liveness: nat) returns (started: seq<nat>)
      modifies this
      ensures handles == Retagged(old(handles), liveness)
      ensures forall id :: id in started <==> id in Differing(old(handles), liveness)
      ensures forall i, j | 0 <= i < j < |started| :: started[i] != started[j]
    {
      started := [];
      var todo := handles.Keys;
      while todo != {}
        invariant todo <= old(handles).Keys
        invariant handles == map id | id in old(handles) ::
                    if id in todo then old(handles)[id] else old(handles)[id].(liveness := liveness)
        invariant forall id :: id in started <==> id in Differing(old(handles), liveness) && id !in todo
        invariant forall i, j | 0 <= i < j < |started| :: started[i] != started[j]
        decreases |todo|
      {
        var id :| id in todo;
        todo := todo - {id};
        if liveness != handles[id].liveness {
          handles := handles[id := handles[id].(liveness := liveness)];
          assert id !in started;
          started := started + [id];
        }
      }
    }
  }
}
