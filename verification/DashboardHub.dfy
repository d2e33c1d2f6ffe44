/**
 * The hub and its subscribers as one system: a publisher records an event under the lock and then
 * schedules it for each subscriber of its snapshot, while loops run callbacks and consumers read.
 */
module DashboardHub {
  import opened Prelude
  import opened Dashboard
  import opened DashboardSubscriber

  datatype Flight<K(==), B> = Flight(recorded: map<Scope<K>, Event<B>>, pending: seq<nat>)

  /** `history` records every body ever published per scope; the rest is the hub's real state. */
  datatype System<K(==), B> = System(
    queueSize: int, replaySize: nat,
    history: map<Scope<K>, seq<B>>, sequences: map<Scope<K>, nat>, rings: map<Scope<K>, seq<Event<B>>>,
    registered: set<nat>, subs: map<nat, Sub<K, B>>, flight: Option<Flight<K, B>>)

  datatype Step<K, B> =
    | Publish(public: B, owner: Option<(K, B)>, snapshot: seq<nat>) // the locked part
    | Schedule                                                      // call_soon_threadsafe for one subscriber
    | RunCallback(id: nat)
    | Consume(id: nat)
    | Subscribe(id: nat, scope: Scope<K>, last: Option<int>)
    | Unsubscribe(id: nat)

  ghost function Get<K, V>(m: map<K, V>, k: K, default: V): V {
    if k in m then m[k] else default
  }

  ghost function HistoryOf<K, B>(sys: System<K, B>, c: Scope<K>): seq<B> {
    Get(sys.history, c, [])
  }

  ghost function NumberOf<K, B>(sys: System<K, B>, c: Scope<K>): nat {
    Get(sys.sequences, c, 0)
  }

  ghost function RingOf<K, B>(sys: System<K, B>, c: Scope<K>): seq<Event<B>> {
    Get(sys.rings, c, [])
  }

  ghost function Record<K, B>(sys: System<K, B>, c: Scope<K>, body: B): System<K, B> {
    var n := NumberOf(sys, c) + 1;
    sys.(history := sys.history[c := HistoryOf(sys, c) + [body]], sequences := sys.sequences[c := n],
         rings := sys.rings[c := Push(RingOf(sys, c), Event(n, body), sys.replaySize)])
  }

  ghost function RecordBoth<K, B>(sys: System<K, B>, public: B, owner: Option<(K, B)>): System<K, B> {
    var t := Record(sys, Operator, public);
    if owner.Some? then Record(t, Private(owner.value.0), owner.value.1) else t
  }

  ghost function Recorded<K, B>(sys: System<K, B>, public: B, owner: Option<(K, B)>): map<Scope<K>, Event<B>> {
    var m := map[Operator := Event(NumberOf(sys, Operator) + 1, public)];
    if owner.Some? then
      m[Private(owner.value.0) := Event(NumberOf(sys, Private(owner.value.0)) + 1, owner.value.1)]
    else m
  }

  ghost function NewSub<K, B>(sys: System<K, B>, scope: Scope<K>, last: Option<int>): Sub<K, B> {
    var ring := RingOf(sys, scope);
    var n := NumberOf(sys, scope);
    var queue := InitialQueue(ring, n, last, sys.queueSize);
    var resync := last.Some? && MustResync(ring, n, last.value, sys.queueSize);
    Sub(scope, queue, [], queue, [], 0, if resync || |queue| > n then n else n - |queue|, resync, 0)
  }

  ghost function WithSub<K, B>(sys: System<K, B>, id: nat, s: Sub<K, B>): System<K, B> {
    sys.(subs := sys.subs[id := s])
  }

  ghost predicate Listed(ids: seq<nat>, s: set<nat>) {
    NoDup(ids) && forall id :: id in ids <==> id in s
  }

  ghost function PublishStep<K, B>(
      sys: System<K, B>, public: B, owner: Option<(K, B)>, snapshot: seq<nat>): System<K, B> {
    RecordBoth(sys, public, owner).(flight := Some(Flight(Recorded(sys, public, owner), snapshot)))
  }

  ghost function ScheduleStep<K, B>(sys: System<K, B>): System<K, B>
    requires sys.flight.Some?
  {
    var f := sys.flight.value;
    if f.pending == [] then sys.(flight := None)
    else
      var id := f.pending[0];
      sys.(flight := Some(f.(pending := f.pending[1..])),
           subs := if id in sys.subs && sys.subs[id].scope in f.recorded then
                     sys.subs[id := sys.subs[id].(
                       scheduled := sys.subs[id].scheduled + [f.recorded[sys.subs[id].scope]])]
                   else sys.subs)
  }

  ghost function SubscribeStep<K, B>(sys: System<K, B>, id: nat, s: Sub<K, B>): System<K, B> {
    sys.(subs := sys.subs[id := s], registered := sys.registered + {id})
  }

  /** A publication starts only when the previous one has been fully scheduled. */
  ghost function Next<K, B>(sys: System<K, B>, step: Step<K, B>): System<K, B> {
    match step
    case Publish(public, owner, snapshot) =>
      if sys.flight.None? && Listed(snapshot, sys.registered) then PublishStep(sys, public, owner, snapshot) else sys
    case Schedule => if sys.flight.Some? then ScheduleStep(sys) else sys
    case RunCallback(id) =>
      if id in sys.subs then WithSub(sys, id, Deliver(sys.subs[id], sys.queueSize)) else sys
    case Consume(id) =>
      if id in sys.subs && |sys.subs[id].queue| <= |sys.subs[id].offered| then
        WithSub(sys, id, Read(sys.subs[id]))
      else sys
    case Subscribe(id, scope, last) =>
      if id in sys.subs then sys else SubscribeStep(sys, id, NewSub(sys, scope, last))
    case Unsubscribe(id) => sys.(registered := sys.registered - {id})
  }

  /** The event in flight that still has to be scheduled for this subscriber. */
  ghost function FlightFor<K, B>(sys: System<K, B>, id: nat): seq<Event<B>>
    requires id in sys.subs
  {
    if sys.flight.Some? && id in sys.flight.value.pending && sys.subs[id].scope in sys.flight.value.recorded then
      [sys.flight.value.recorded[sys.subs[id].scope]]
    else []
  }

  ghost predicate RingsExact<K(!new), B>(sys: System<K, B>) {
    forall c :: RingExact(HistoryOf(sys, c), NumberOf(sys, c), RingOf(sys, c), sys.replaySize)
  }

  ghost predicate SubAt<K, B>(sys: System<K, B>, id: nat)
    requires id in sys.subs
  {
    SubSound(sys.subs[id], sys.queueSize, HistoryOf(sys, sys.subs[id].scope), FlightFor(sys, id), id in sys.registered)
  }

  ghost predicate Sound<K(!new), B>(sys: System<K, B>) {
    && RingsExact(sys)
    && (forall id :: id in sys.registered ==> id in sys.subs)
    && (forall id :: id in sys.subs ==> SubAt(sys, id))
    && (sys.flight.Some? ==>
          NoDup(sys.flight.value.pending) && forall id :: id in sys.flight.value.pending ==> id in sys.subs)
  }

  // ---------------------------------------------------------------- every step keeps it

  lemma RecordKeepsRings<K(!new), B>(sys: System<K, B>, c: Scope<K>, body: B)
    requires RingsExact(sys)
    ensures RingsExact(Record(sys, c, body))
  {
    assert RingExact(HistoryOf(sys, c), NumberOf(sys, c), RingOf(sys, c), sys.replaySize);
    PushKeepsRing(HistoryOf(sys, c), RingOf(sys, c), sys.replaySize, body);
    forall d
      ensures var t := Record(sys, c, body);
              RingExact(HistoryOf(t, d), NumberOf(t, d), RingOf(t, d), t.replaySize)
    {
      assert RingExact(HistoryOf(sys, d), NumberOf(sys, d), RingOf(sys, d), sys.replaySize);
    }
  }

  /** A newly recorded event extends the target of a scope by exactly the event now in flight. */
  lemma PublishExtends<K, B>(s: Sub<K, B>, size: int, history: seq<B>, body: B, registered: bool)
    requires SubSound(s, size, history, [], registered)
    ensures registered ==> SubSound(s, size, history + [body], [Event(|history| + 1, body)], true)
    ensures !registered ==> SubSound(s, size, history + [body], [], false)
  {
    var h := history + [body];
    var e := Event(|history| + 1, body);
    assert Events(h, s.base) == Events(history, s.base) + [e];
    ItemsConcat(Events(history, s.base), [e]);
    assert Target(s, h) == Target(s, history) + Items([e]);
    assert Items<B>([]) == [];
    assert Stream(s, [e]) == Stream(s, []) + Items([e]);
    hide QueueSound, SeenSound;
  }

  lemma PublishRecords<K(!new), B>(sys: System<K, B>, public: B, owner: Option<(K, B)>, c: Scope<K>)
    requires RingsExact(sys)
    ensures var t := RecordBoth(sys, public, owner);
            var m := Recorded(sys, public, owner);
            && t.queueSize == sys.queueSize && t.replaySize == sys.replaySize && RingsExact(t)
            && t.subs == sys.subs && t.registered == sys.registered
            && (c in m ==> HistoryOf(t, c) == HistoryOf(sys, c) + [m[c].body] && m[c].seqNo == |HistoryOf(sys, c)| + 1)
            && (c !in m ==> HistoryOf(t, c) == HistoryOf(sys, c))
  {
    var t := Record(sys, Operator, public);
    RecordKeepsRings(sys, Operator, public);
    if owner.Some? {
      RecordKeepsRings(t, Private(owner.value.0), owner.value.1);
    }
    assert RingExact(HistoryOf(sys, c), NumberOf(sys, c), RingOf(sys, c), sys.replaySize);
    hide RingExact, Push;
  }

  /** What a publication does to the state around one subscriber. */
  lemma PublishView<K(!new), B>(sys: System<K, B>, public: B, owner: Option<(K, B)>, snapshot: seq<nat>, id: nat)
    requires RingsExact(sys) && id in sys.subs
    ensures var t := PublishStep(sys, public, owner, snapshot);
            var m, c := Recorded(sys, public, owner), sys.subs[id].scope;
            && t.subs == sys.subs && t.registered == sys.registered && t.queueSize == sys.queueSize
            && FlightFor(t, id) == (if id in snapshot && c in m then [m[c]] else [])
            && HistoryOf(t, c) == HistoryOf(sys, c) + (if c in m then [m[c].body] else [])
            && (c in m ==> m[c] == Event(|HistoryOf(sys, c)| + 1, m[c].body))
  {
    PublishRecords(sys, public, owner, sys.subs[id].scope);
    hide RingsExact, Recorded, RecordBoth;
  }

  lemma NothingInFlight<K, B>(sys: System<K, B>, id: nat)
    requires sys.flight.None? && id in sys.subs && SubAt(sys, id)
    ensures var s := sys.subs[id];
            SubSound(s, sys.queueSize, HistoryOf(sys, s.scope), [], id in sys.registered)
  {
    hide SubSound, HistoryOf;
  }

  /** One subscriber's view of a publication: at most one more event, in flight if it is listed. */
  lemma PublishedSub<K, B>(s: Sub<K, B>, size: int, history: seq<B>, more: seq<B>, registered: bool)
    requires SubSound(s, size, history, [], registered) && |more| <= 1
    ensures SubSound(s, size, history + more,
                     if registered && more != [] then [Event(|history| + 1, more[0])] else [], registered)
  {
    hide SubSound;
    if more == [] {
      assert history + more == history;
    } else {
      assert more == [more[0]];
      PublishExtends(s, size, history, more[0], registered);
    }
  }

  lemma PublishSub<K(!new), B>(sys: System<K, B>, public: B, owner: Option<(K, B)>, snapshot: seq<nat>, id: nat)
    requires RingsExact(sys) && sys.flight.None? && Listed(snapshot, sys.registered)
    requires id in sys.subs && SubAt(sys, id)
    ensures SubAt(PublishStep(sys, public, owner, snapshot), id)
  {
    hide SubSound, RingsExact, Recorded, RecordBoth, PublishStep, FlightFor, HistoryOf, NoDup;
    var s := sys.subs[id];
    var m := Recorded(sys, public, owner);
    NothingInFlight(sys, id);
    PublishView(sys, public, owner, snapshot, id);
    PublishedSub(s, sys.queueSize, HistoryOf(sys, s.scope), if s.scope in m then [m[s.scope].body] else [],
                 id in sys.registered);
  }

  lemma PublishSound<K(!new), B>(sys: System<K, B>, public: B, owner: Option<(K, B)>, snapshot: seq<nat>)
    requires Sound(sys) && sys.flight.None? && Listed(snapshot, sys.registered)
    ensures Sound(PublishStep(sys, public, owner, snapshot))
  {
    var t := PublishStep(sys, public, owner, snapshot);
    PublishRecords(sys, public, owner, Operator);
    forall id | id in t.subs ensures SubAt(t, id) { PublishSub(sys, public, owner, snapshot, id); }
    RingsExactFrame(RecordBoth(sys, public, owner), t);
    hide SubAt, RingsExact, Recorded, RecordBoth;
  }

  lemma RingsExactFrame<K(!new), B>(sys: System<K, B>, t: System<K, B>)
    requires RingsExact(sys) && t.replaySize == sys.replaySize
    requires t.history == sys.history && t.sequences == sys.sequences && t.rings == sys.rings
    ensures RingsExact(t)
  {
    forall c ensures RingExact(HistoryOf(t, c), NumberOf(t, c), RingOf(t, c), t.replaySize) {
      assert RingExact(HistoryOf(sys, c), NumberOf(sys, c), RingOf(sys, c), sys.replaySize);
    }
  }

  lemma ScheduleOne<K, B>(s: Sub<K, B>, size: int, history: seq<B>, e: Event<B>, registered: bool)
    requires SubSound(s, size, history, [e], registered)
    ensures SubSound(s.(scheduled := s.scheduled + [e]), size, history, [], registered)
  {
    ItemsConcat(s.scheduled, [e]);
    assert Items<B>([]) == [];
    assert Stream(s.(scheduled := s.scheduled + [e]), []) == Stream(s, [e]);
    assert Target(s.(scheduled := s.scheduled + [e]), history) == Target(s, history);
  }

  lemma ScheduleSub<K, B>(sys: System<K, B>, id: nat)
    requires sys.flight.Some? && NoDup(sys.flight.value.pending) && id in sys.subs && SubAt(sys, id)
    ensures id in ScheduleStep(sys).subs && SubAt(ScheduleStep(sys), id)
  {
    hide SubSound;
    var pending := sys.flight.value.pending;
    var s := sys.subs[id];
    if pending != [] {
      assert forall x :: x in pending <==> x == pending[0] || x in pending[1..];
      assert pending[0] !in pending[1..];
      hide NoDup;
      if id == pending[0] && s.scope in sys.flight.value.recorded {
        ScheduleOne(s, sys.queueSize, HistoryOf(sys, s.scope), FlightFor(sys, id)[0], id in sys.registered);
      }
    }
  }

  lemma PendingTail<K, B>(sys: System<K, B>)
    requires sys.flight.Some? && NoDup(sys.flight.value.pending)
    requires forall id :: id in sys.flight.value.pending ==> id in sys.subs
    ensures var t := ScheduleStep(sys);
            && (t.flight.Some? ==>
                  NoDup(t.flight.value.pending) && forall id :: id in t.flight.value.pending ==> id in t.subs)
            && t.subs.Keys == sys.subs.Keys
  {
  }

  lemma ScheduleSound<K(!new), B>(sys: System<K, B>)
    requires Sound(sys) && sys.flight.Some?
    ensures Sound(ScheduleStep(sys))
  {
    hide SubAt, RingsExact, NoDup;
    var t := ScheduleStep(sys);
    RingsExactFrame(sys, t);
    PendingTail(sys);
    forall id | id in t.subs ensures SubAt(t, id) { ScheduleSub(sys, id); }
  }

  /** Changing one subscriber, or adding it, leaves the others as they were. */
  lemma OtherSub<K(!new), B>(sys: System<K, B>, id: nat, s: Sub<K, B>, registered: set<nat>, x: nat)
    requires x in sys.subs && x != id && SubAt(sys, x)
    requires x in registered <==> x in sys.registered
    ensures SubAt(sys.(subs := sys.subs[id := s], registered := registered), x)
  {
    hide SubSound;
  }

  lemma ThisSub<K(!new), B>(sys: System<K, B>, id: nat, s: Sub<K, B>, registered: set<nat>, flight: seq<Event<B>>)
    requires SubSound(s, sys.queueSize, HistoryOf(sys, s.scope), flight, id in registered)
    requires flight == FlightFor(sys.(subs := sys.subs[id := s], registered := registered), id)
    ensures SubAt(sys.(subs := sys.subs[id := s], registered := registered), id)
  {
    hide SubSound;
  }

  /** The whole system, once the changed or added subscriber is sound. */
  lemma OneSubSound<K(!new), B>(sys: System<K, B>, id: nat, s: Sub<K, B>, registered: set<nat>, flight: seq<Event<B>>)
    requires Sound(sys)
    requires forall x :: x in registered ==> x == id || x in sys.registered
    requires forall x :: x in sys.registered && x != id ==> x in registered
    requires SubSound(s, sys.queueSize, HistoryOf(sys, s.scope), flight, id in registered)
    requires flight == FlightFor(sys.(subs := sys.subs[id := s], registered := registered), id)
    ensures Sound(sys.(subs := sys.subs[id := s], registered := registered))
  {
    var t := sys.(subs := sys.subs[id := s], registered := registered);
    RingsExactFrame(sys, t);
    hide RingsExact, SubAt, SubSound, HistoryOf, FlightFor, NoDup;
    ThisSub(sys, id, s, registered, flight);
    forall x | x in t.subs
      ensures SubAt(t, x)
    {
      if x != id {
        OtherSub(sys, id, s, registered, x);
      }
    }
  }

  lemma SubStepSound<K(!new), B>(sys: System<K, B>, id: nat, s: Sub<K, B>)
    requires Sound(sys) && id in sys.subs && s.scope == sys.subs[id].scope
    requires SubSound(s, sys.queueSize, HistoryOf(sys, s.scope), FlightFor(sys, id), id in sys.registered)
    ensures Sound(WithSub(sys, id, s))
  {
    hide Sound, SubSound, HistoryOf;
    OneSubSound(sys, id, s, sys.registered, FlightFor(sys, id));
  }

  lemma ReplayQueue<K(!new), B>(sys: System<K, B>, scope: Scope<K>, last: int)
    requires RingsExact(sys)
    requires !MustResync(RingOf(sys, scope), NumberOf(sys, scope), last, sys.queueSize)
    ensures var pending, h := Pending(RingOf(sys, scope), last), HistoryOf(sys, scope);
            && |pending| <= |h| && pending == Events(h, |h| - |pending|)
            && |pending| <= sys.queueSize && NumberOf(sys, scope) == |h|
  {
    var h := HistoryOf(sys, scope);
    assert RingExact(h, NumberOf(sys, scope), RingOf(sys, scope), sys.replaySize);
    PendingOfEvents(h, |h| - Min(|h|, sys.replaySize), last);
    hide RingsExact, Pending;
  }

  /** A new subscriber without replay is served from here on. */
  lemma NewSubPlain<K, B>(sys: System<K, B>, scope: Scope<K>, last: Option<int>)
    requires last.Some? ==> MustResync(RingOf(sys, scope), NumberOf(sys, scope), last.value, sys.queueSize)
    ensures var s := NewSub(sys, scope, last);
            s.queue == Prefix(s) && s.base == NumberOf(sys, scope)
  {
    hide MustResync, RingOf, NumberOf;
  }

  lemma NewSubReplays<K, B>(sys: System<K, B>, scope: Scope<K>, last: int)
    requires !MustResync(RingOf(sys, scope), NumberOf(sys, scope), last, sys.queueSize)
    ensures var s, pending := NewSub(sys, scope, Some(last)), Pending(RingOf(sys, scope), last);
            && s.queue == Items(pending) && Prefix(s) == []
            && (|pending| <= NumberOf(sys, scope) ==> s.base == NumberOf(sys, scope) - |pending|)
  {
    hide MustResync, RingOf, NumberOf, Pending;
  }

  lemma NewSubQueue<K(!new), B>(sys: System<K, B>, scope: Scope<K>, last: Option<int>)
    requires RingsExact(sys)
    ensures var s := NewSub(sys, scope, last);
            var h := HistoryOf(sys, scope);
            && s.base <= |h|
            && s.queue == Prefix(s) + Items(Events(h, s.base))
            && (sys.queueSize > 0 ==> |s.queue| <= sys.queueSize)
  {
    var h := HistoryOf(sys, scope);
    assert RingExact(h, NumberOf(sys, scope), RingOf(sys, scope), sys.replaySize);
    var s := NewSub(sys, scope, last);
    assert Events(h, |h|) == [];
    assert Items<B>([]) == [];
    hide RingsExact, RingExact, Pending, MustResync, Events, HistoryOf, RingOf, NumberOf, NewSub;
    if last.Some? && !MustResync(RingOf(sys, scope), NumberOf(sys, scope), last.value, sys.queueSize) {
      ReplayQueue(sys, scope, last.value);
      NewSubReplays(sys, scope, last.value);
      assert s.queue == [] + Items(Events(h, s.base));
    } else {
      NewSubPlain(sys, scope, last);
      assert s.queue == Prefix(s) + [];
    }
  }

  /**
   * What a new subscriber's queue holds, from the history of its scope: nothing if it names no
   * position; the demand to resynchronise if its position lies ahead, or the ring has lost an event
   * after it, or more events follow it than the queue takes; and otherwise those events, in order,
   * as far as there is a ring.
   */
  ghost predicate FirstItems<B>(history: seq<B>, size: nat, queueSize: int, last: Option<int>, items: seq<Item<B>>) {
    match last
    case None => items == []
    case Some(n) =>
      if size >= 1 && history != [] then
        if n > |history| || n < |history| - Min(|history|, size) || |history| - n > queueSize then items == [Resync]
        else items == Items(Events(history, FromZero(n)))
      else items == if n > |history| || queueSize < 0 then [Resync] else []
  }

  lemma NewSubGets<K(!new), B>(sys: System<K, B>, scope: Scope<K>, last: Option<int>)
    requires RingsExact(sys)
    ensures FirstItems(HistoryOf(sys, scope), sys.replaySize, sys.queueSize, last, NewSub(sys, scope, last).queue)
  {
    var h, ring := HistoryOf(sys, scope), RingOf(sys, scope);
    assert RingExact(h, NumberOf(sys, scope), ring, sys.replaySize);
    if last.Some? {
      ResyncExact(h, ring, sys.replaySize, last.value, sys.queueSize);
      if !MustResync(ring, |h|, last.value, sys.queueSize) {
        HandoverExact(h, ring, sys.replaySize, last.value, sys.queueSize);
        assert h == [] ==> Pending(ring, last.value) == [];
      }
    }
    hide RingsExact, RingExact, Pending, MustResync, HistoryOf, RingOf, NumberOf;
    assert Items<B>([]) == [];
  }

  lemma FreshSubSound<K, B>(s: Sub<K, B>, size: int, history: seq<B>)
    requires s.base <= |history| && s.queue == s.offered == Prefix(s) + Items(Events(history, s.base))
    requires s.scheduled == [] && s.seen == [] && s.read == 0 && s.drops == 0
    requires size > 0 ==> |s.queue| <= size
    requires forall i :: 0 <= i < |s.queue| ==> Strip(s.queue[i]) == s.queue[i]
    ensures SubSound(s, size, history, [], true)
  {
    assert Items<B>([]) == [];
    assert Stream(s, []) == s.queue;
  }

  /** The snapshot of ring and number taken under the lock makes the new subscriber sound. */
  lemma NewSubSound<K(!new), B>(sys: System<K, B>, scope: Scope<K>, last: Option<int>)
    requires RingsExact(sys)
    ensures SubSound(NewSub(sys, scope, last), sys.queueSize, HistoryOf(sys, scope), [], true)
    ensures NewSub(sys, scope, last).scope == scope
  {
    NewSubQueue(sys, scope, last);
    var s := NewSub(sys, scope, last);
    hide RingsExact, InitialQueue, SubSound, MustResync, HistoryOf, RingOf, NumberOf;
    FreshSubSound(s, sys.queueSize, HistoryOf(sys, scope));
  }

  lemma SubscribeSound<K(!new), B>(sys: System<K, B>, id: nat, s: Sub<K, B>)
    requires Sound(sys) && id !in sys.subs
    requires SubSound(s, sys.queueSize, HistoryOf(sys, s.scope), [], true)
    ensures Sound(SubscribeStep(sys, id, s))
  {
    assert FlightFor(SubscribeStep(sys, id, s), id) == [];
    hide Sound, SubSound, HistoryOf, FlightFor;
    OneSubSound(sys, id, s, sys.registered + {id}, []);
  }

  lemma UnregisteredSound<K, B>(s: Sub<K, B>, size: int, history: seq<B>, flight: seq<Event<B>>, was: bool, now: bool)
    requires SubSound(s, size, history, flight, was) && (now ==> was)
    ensures SubSound(s, size, history, flight, now)
  {
    hide QueueSound, SeenSound, Announced, Stream, Target;
  }

  lemma UnregisteredSub<K, B>(sys: System<K, B>, registered: set<nat>, x: nat)
    requires x in sys.subs && SubAt(sys, x) && (x in registered ==> x in sys.registered)
    ensures SubAt(sys.(registered := registered), x)
  {
    hide SubSound;
    var s := sys.subs[x];
    UnregisteredSound(s, sys.queueSize, HistoryOf(sys, s.scope), FlightFor(sys, x), x in sys.registered,
        x in registered);
  }

  lemma UnsubscribeSound<K(!new), B>(sys: System<K, B>, id: nat)
    requires Sound(sys)
    ensures Sound(Next(sys, Step.Unsubscribe(id)))
  {
    var registered := sys.registered - {id};
    var t := sys.(registered := registered);
    RingsExactFrame(sys, t);
    hide RingsExact, NoDup, SubAt;
    forall x | x in t.subs
      ensures SubAt(t, x)
    {
      UnregisteredSub(sys, registered, x);
    }
  }

  lemma StepSound<K(!new), B>(sys: System<K, B>, step: Step<K, B>)
    requires Sound(sys)
    ensures Sound(Next(sys, step))
  {
    hide SubSound, RingsExact, NewSub, RecordBoth, Recorded;
    match step
    case Publish(_, _, snapshot) =>
      if sys.flight.None? && Listed(snapshot, sys.registered) { PublishSound(sys, step.public, step.owner, snapshot); }
    case Schedule => if sys.flight.Some? { ScheduleSound(sys); }
    case RunCallback(id) =>
      if id in sys.subs {
        assert SubAt(sys, id);
        var s := sys.subs[id];
        DeliverSound(s, sys.queueSize, HistoryOf(sys, s.scope), FlightFor(sys, id), id in sys.registered);
        SubStepSound(sys, id, Deliver(s, sys.queueSize));
      }
    case Consume(id) =>
      if id in sys.subs && |sys.subs[id].queue| <= |sys.subs[id].offered| {
        assert SubAt(sys, id);
        var s := sys.subs[id];
        ReadSound(s, sys.queueSize, HistoryOf(sys, s.scope), FlightFor(sys, id), id in sys.registered);
        SubStepSound(sys, id, Read(s));
      }
    case Subscribe(id, scope, last) => if id !in sys.subs {
        NewSubSound(sys, scope, last);
        SubscribeSound(sys, id, NewSub(sys, scope, last));
      }
    case Unsubscribe(id) => UnsubscribeSound(sys, id);
  }
}
