/** Who is called with what when an event is published, and that the callbacks deliver exactly that. */
module DashboardFanout {
  import opened Prelude
  import opened Dashboard
  import opened DashboardSubscriber
  import opened DashboardHub
  import opened Dedup

  datatype Subscriber<K> = Subscriber(id: nat, scope: Scope<K>)

  /** A subscriber receives exactly the event recorded in its own scope. */
  ghost function Callbacks<K, B>(
      subscribers: seq<Subscriber<K>>, recorded: map<Scope<K>, Event<B>>): seq<(nat, Event<B>)> {
    if subscribers == [] then []
    else
      (if subscribers[0].scope in recorded then [(subscribers[0].id, recorded[subscribers[0].scope])] else [])
      + Callbacks(subscribers[1..], recorded)
  }

  /** Operators see the public event; the owner's own subscribers see the private one; nobody else sees any. */
  ghost predicate Sees<K, B>(s: Subscriber<K>, owner: Option<(K, B)>) {
    s.scope == Operator || (owner.Some? && s.scope == Private(owner.value.0))
  }

  /** The event for one subscriber, from what is published and the numbers that its scope has reached. */
  ghost function EventFor<K, B>(sys: System<K, B>, s: Subscriber<K>, public: B, owner: Option<(K, B)>): Event<B>
    requires Sees(s, owner)
  {
    if s.scope == Operator then Event(NumberOf(sys, Operator) + 1, public)
    else Event(NumberOf(sys, Private(owner.value.0)) + 1, owner.value.1)
  }

  /** A callback made for the subscriber in position `k`. */
  ghost predicate CallAt<K, B>(
      sys: System<K, B>, subscribers: seq<Subscriber<K>>, public: B, owner: Option<(K, B)>,
      call: (nat, Event<B>), k: nat)
  {
    && k < |subscribers| && Sees(subscribers[k], owner)
    && call == (subscribers[k].id, EventFor(sys, subscribers[k], public, owner))
  }

  /** Exactly the positions of subscribers that see the publication, in order. */
  ghost predicate Seers<K, B>(subscribers: seq<Subscriber<K>>, owner: Option<(K, B)>, keep: seq<nat>) {
    Exactly(subscribers, keep, (s: Subscriber<K>) => Sees(s, owner))
  }

  /** The callbacks of a publication: one per subscriber that sees it, in order, each with its own event. */
  ghost predicate CallsExactly<K, B>(
      sys: System<K, B>, subscribers: seq<Subscriber<K>>, public: B, owner: Option<(K, B)>,
      calls: seq<(nat, Event<B>)>, keep: seq<nat>)
  {
    && Seers(subscribers, owner, keep) && |keep| == |calls|
    && forall j :: 0 <= j < |calls| ==> CallAt(sys, subscribers, public, owner, calls[j], keep[j])
  }

  lemma RecordedFor<K, B>(sys: System<K, B>, s: Subscriber<K>, public: B, owner: Option<(K, B)>)
    ensures s.scope in Recorded(sys, public, owner) <==> Sees(s, owner)
    ensures Sees(s, owner) ==> Recorded(sys, public, owner)[s.scope] == EventFor(sys, s, public, owner)
  {
  }

  lemma ConsMembers<K, B>(subscribers: seq<Subscriber<K>>, owner: Option<(K, B)>, rest: seq<nat>)
    requires subscribers != [] && Seers(subscribers[1..], owner, rest)
    ensures Seers(subscribers, owner, (if Sees(subscribers[0], owner) then [0] else []) + ShiftUp(rest))
  {
    hide Sees, Exactly;
    ExactlyCons(subscribers, rest, (s: Subscriber<K>) => Sees(s, owner));
    assert [] + ShiftUp(rest) == ShiftUp(rest);
  }

  lemma ConsCalls<K, B>(
      sys: System<K, B>, subscribers: seq<Subscriber<K>>, public: B, owner: Option<(K, B)>,
      calls: seq<(nat, Event<B>)>, rest: seq<nat>)
    requires subscribers != [] && |calls| == |rest|
    requires forall j :: 0 <= j < |calls| ==> CallAt(sys, subscribers[1..], public, owner, calls[j], rest[j])
    ensures forall j :: 0 <= j < |calls| ==> CallAt(sys, subscribers, public, owner, calls[j], ShiftUp(rest)[j])
  {
    hide Sees, EventFor;
    assert forall j :: 0 <= j < |rest| ==> subscribers[1..][rest[j]] == subscribers[ShiftUp(rest)[j]];
  }

  lemma FirstCall<K, B>(sys: System<K, B>, subscribers: seq<Subscriber<K>>, public: B, owner: Option<(K, B)>)
    requires subscribers != [] && Sees(subscribers[0], owner)
    ensures CallAt(sys, subscribers, public, owner,
                   (subscribers[0].id, EventFor(sys, subscribers[0], public, owner)), 0)
  {
  }

  lemma CallsCons<K, B>(
      sys: System<K, B>, subscribers: seq<Subscriber<K>>, public: B, owner: Option<(K, B)>,
      calls: seq<(nat, Event<B>)>, rest: seq<nat>) returns (keep: seq<nat>)
    requires subscribers != [] && CallsExactly(sys, subscribers[1..], public, owner, calls, rest)
    ensures CallsExactly(sys, subscribers, public, owner,
                         (if Sees(subscribers[0], owner)
                          then [(subscribers[0].id, EventFor(sys, subscribers[0], public, owner))] else []) + calls,
                         keep)
  {
    hide CallAt, Seers, Increasing, Sees, EventFor, ShiftUp;
    ConsMembers(subscribers, owner, rest);
    ConsCalls(sys, subscribers, public, owner, calls, rest);
    if Sees(subscribers[0], owner) {
      FirstCall(sys, subscribers, public, owner);
      keep := [0] + ShiftUp(rest);
    } else {
      keep := ShiftUp(rest);
      assert [] + calls == calls && [] + ShiftUp(rest) == ShiftUp(rest);
    }
  }

  /** A publication calls exactly the subscribers that may see it, with the event made for them. */
  lemma {:induction false} CallbacksExact<K, B>(
      sys: System<K, B>, subscribers: seq<Subscriber<K>>, public: B, owner: Option<(K, B)>) returns (keep: seq<nat>)
    ensures CallsExactly(sys, subscribers, public, owner, Callbacks(subscribers, Recorded(sys, public, owner)), keep)
  {
    keep := [];
    if subscribers != [] {
      hide CallsExactly, Recorded, EventFor, Sees;
      var rest := CallbacksExact(sys, subscribers[1..], public, owner);
      RecordedFor(sys, subscribers[0], public, owner);
      var calls := Callbacks(subscribers[1..], Recorded(sys, public, owner));
      keep := CallsCons(sys, subscribers, public, owner, calls, rest);
    }
  }

  /** The histories after a publication: the public body for operators, the owner's for the owner, no other change. */
  lemma PublishedHistories<K(!new), B>(sys: System<K, B>, public: B, owner: Option<(K, B)>, c: Scope<K>)
    requires RingsExact(sys)
    ensures var t := RecordBoth(sys, public, owner);
            && RingsExact(t) && t.replaySize == sys.replaySize && t.registered == sys.registered && t.subs == sys.subs
            && HistoryOf(t, c) == HistoryOf(sys, c) +
                 (if c == Operator then [public]
                  else if owner.Some? && c == Private(owner.value.0) then [owner.value.1]
                  else [])
            && NumberOf(t, c) == |HistoryOf(t, c)|
  {
    PublishRecords(sys, public, owner, c);
    assert RingExact(HistoryOf(RecordBoth(sys, public, owner), c), NumberOf(RecordBoth(sys, public, owner), c),
                     RingOf(RecordBoth(sys, public, owner), c), sys.replaySize);
    hide RingsExact, Push;
  }

  // ---------------------------------------------------------------- what scheduling delivers

  function Ids<K>(subscribers: seq<Subscriber<K>>): (r: seq<nat>)
    ensures |r| == |subscribers| && forall i :: 0 <= i < |r| ==> r[i] == subscribers[i].id
  {
    seq(|subscribers|, i requires 0 <= i < |subscribers| => subscribers[i].id)
  }

  /** The events among the callbacks that are meant for one subscriber. */
  function CallsTo<B>(calls: seq<(nat, Event<B>)>, id: nat): seq<Event<B>> {
    if calls == [] then []
    else (if calls[0].0 == id then [calls[0].1] else []) + CallsTo(calls[1..], id)
  }

  lemma {:induction false} CallsToOthers<K, B>(
      subscribers: seq<Subscriber<K>>, recorded: map<Scope<K>, Event<B>>, id: nat)
    requires id !in Ids(subscribers)
    ensures CallsTo(Callbacks(subscribers, recorded), id) == []
  {
    if subscribers != [] {
      var s := subscribers[0];
      assert Ids(subscribers)[0] == s.id;
      assert Ids(subscribers)[1..] == Ids(subscribers[1..]);
      CallsToOthers(subscribers[1..], recorded, id);
      var rest := Callbacks(subscribers[1..], recorded);
      assert s.scope in recorded ==> ([(s.id, recorded[s.scope])] + rest)[1..] == rest;
      assert [] + rest == rest;
    }
  }

  /** What the callbacks mean for the first subscriber and for the others. */
  lemma CallsToCons<K, B>(subscribers: seq<Subscriber<K>>, recorded: map<Scope<K>, Event<B>>, id: nat)
    requires subscribers != []
    ensures CallsTo(Callbacks(subscribers, recorded), id) ==
            (if subscribers[0].id == id && subscribers[0].scope in recorded
             then [recorded[subscribers[0].scope]] else [])
            + CallsTo(Callbacks(subscribers[1..], recorded), id)
  {
    var s, rest := subscribers[0], Callbacks(subscribers[1..], recorded);
    assert s.scope in recorded ==> ([(s.id, recorded[s.scope])] + rest)[1..] == rest;
    assert [] + rest == rest;
  }

  ghost function Schedules<K, B>(sys: System<K, B>, n: nat): System<K, B>
    decreases n
  {
    if n == 0 || sys.flight.None? then sys else Schedules(ScheduleStep(sys), n - 1)
  }

  /** The hub's state knows these subscribers under their ids and scopes. */
  ghost predicate Knows<K, B>(sys: System<K, B>, subscribers: seq<Subscriber<K>>) {
    forall i :: 0 <= i < |subscribers| ==>
      subscribers[i].id in sys.subs && sys.subs[subscribers[i].id].scope == subscribers[i].scope
  }

  lemma ScheduleHead<K, B>(
      sys: System<K, B>, subscribers: seq<Subscriber<K>>, recorded: map<Scope<K>, Event<B>>)
    requires subscribers != [] && Knows(sys, subscribers)
    requires sys.flight == Some(Flight(recorded, Ids(subscribers)))
    ensures var t, s := ScheduleStep(sys), subscribers[0];
            && t.flight == Some(Flight(recorded, Ids(subscribers[1..]))) && t.subs.Keys == sys.subs.Keys
            && Knows(t, subscribers[1..])
            && forall id :: id in sys.subs ==>
                 t.subs[id] == sys.subs[id].(
                   scheduled := sys.subs[id].scheduled +
                                (if s.id == id && s.scope in recorded then [recorded[s.scope]] else []))
  {
    assert Ids(subscribers)[1..] == Ids(subscribers[1..]);
    assert Ids(subscribers)[0] == subscribers[0].id;
    var t, s := ScheduleStep(sys), subscribers[0];
    forall id | id in sys.subs
      ensures t.subs[id] == sys.subs[id].(
                scheduled := sys.subs[id].scheduled +
                             (if s.id == id && s.scope in recorded then [recorded[s.scope]] else []))
    {
      assert sys.subs[id].scheduled + [] == sys.subs[id].scheduled;
    }
  }

  /**
   * Scheduling the snapshot of a publication subscriber by subscriber appends to each of them
   * exactly the callbacks meant for it, and changes nothing else about it.
   */
  lemma {:induction false} SchedulingDelivers<K, B>(
      sys: System<K, B>, subscribers: seq<Subscriber<K>>, recorded: map<Scope<K>, Event<B>>, id: nat)
    requires Knows(sys, subscribers) && id in sys.subs
    requires sys.flight == Some(Flight(recorded, Ids(subscribers)))
    ensures var t := Schedules(sys, |subscribers|);
            && id in t.subs && t.flight == Some(Flight(recorded, []))
            && t.subs[id] == sys.subs[id].(
                 scheduled := sys.subs[id].scheduled + CallsTo(Callbacks(subscribers, recorded), id))
    decreases |subscribers|
  {
    hide Knows, ScheduleStep, Callbacks;
    if subscribers == [] {
      assert Ids(subscribers) == [];
      NoCallbacks<K, B>(recorded);
      assert sys.subs[id].scheduled + [] == sys.subs[id].scheduled;
    } else {
      ScheduleHead(sys, subscribers, recorded);
      CallsToCons(subscribers, recorded, id);
      SchedulingDelivers(ScheduleStep(sys), subscribers[1..], recorded, id);
      var s := subscribers[0];
      var head := if s.id == id && s.scope in recorded then [recorded[s.scope]] else [];
      var rest := CallsTo(Callbacks(subscribers[1..], recorded), id);
      assert sys.subs[id].scheduled + head + rest == sys.subs[id].scheduled + (head + rest);
    }
  }

  lemma NoCallbacks<K, B>(recorded: map<Scope<K>, Event<B>>)
    ensures Callbacks<K, B>([], recorded) == []
  {
  }

  /**
   * End to end: with distinct ids, after a publication has been recorded and scheduled for the
   * subscribers of its snapshot, an operator's queue of callbacks has grown by the public event,
   * the owner's by the private one, and every other subscriber's not at all.
   */
  lemma PublicationReaches<K, B>(
      sys: System<K, B>, subscribers: seq<Subscriber<K>>, public: B, owner: Option<(K, B)>, i: nat)
    requires Knows(sys, subscribers) && NoDup(Ids(subscribers)) && i < |subscribers|
    ensures var t := Schedules(PublishStep(sys, public, owner, Ids(subscribers)), |subscribers|);
            var s := subscribers[i];
            && s.id in t.subs
            && t.subs[s.id] == sys.subs[s.id].(
                 scheduled := sys.subs[s.id].scheduled +
                              (if Sees(s, owner) then [EventFor(sys, s, public, owner)] else []))
  {
    var recorded := Recorded(sys, public, owner);
    var start := PublishStep(sys, public, owner, Ids(subscribers));
    PublishKeepsSubs(sys, public, owner, Ids(subscribers));
    assert Knows(start, subscribers);
    RecordedFor(sys, subscribers[i], public, owner);
    hide Knows, Recorded, PublishStep, EventFor, Sees;
    SchedulingDelivers(start, subscribers, recorded, subscribers[i].id);
    CallsToOne(subscribers, recorded, i);
  }

  lemma PublishKeepsSubs<K, B>(sys: System<K, B>, public: B, owner: Option<(K, B)>, snapshot: seq<nat>)
    ensures var t := PublishStep(sys, public, owner, snapshot);
            t.subs == sys.subs && t.flight == Some(Flight(Recorded(sys, public, owner), snapshot))
  {
  }

  lemma {:induction false} CallsToOne<K, B>(
      subscribers: seq<Subscriber<K>>, recorded: map<Scope<K>, Event<B>>, i: nat)
    requires NoDup(Ids(subscribers)) && i < |subscribers|
    ensures CallsTo(Callbacks(subscribers, recorded), subscribers[i].id) ==
            if subscribers[i].scope in recorded then [recorded[subscribers[i].scope]] else []
  {
    var rest := subscribers[1..];
    assert forall j :: 0 <= j < |rest| ==> Ids(rest)[j] == Ids(subscribers)[j + 1];
    CallsToCons(subscribers, recorded, subscribers[i].id);
    assert Ids(subscribers)[0] == subscribers[0].id && Ids(subscribers)[i] == subscribers[i].id;
    if i == 0 {
      assert subscribers[0].id !in Ids(rest);
      CallsToOthers(rest, recorded, subscribers[0].id);
    } else {
      assert rest[i - 1] == subscribers[i];
      CallsToOne(rest, recorded, i - 1);
    }
  }
}
