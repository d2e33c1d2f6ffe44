/** The hub object and the subscriber queue, updated in place. */
module DashboardObject {
  import opened Prelude
  import opened Dashboard
  import opened DashboardSubscriber
  import opened DashboardHub
  import opened DashboardRuns
  import opened DashboardFanout

  /** An asyncio queue: a maximum of zero or less means unbounded. */
  class EventQueue<B> {
    const size: int
    var items: seq<Item<B>>

    constructor (size: int, initial: seq<Item<B>>)
      ensures this.size == size && items == initial
    {
      this.size := size;
      items := initial;
    }

    method Put(e: Event<B>)
      modifies this
      ensures items == Enqueue(old(items), size, e)
      ensures size > 0 && |old(items)| >= size ==> items == old(items)[1..] + [Item(e, true)]
      ensures size <= 0 || |old(items)| < size ==> items == old(items) + [Item(e, false)]
    {
      var gap := false;
      if size > 0 && |items| >= size {
        items := items[1..];
        gap := true;
      }
      items := items + [Item(e, gap)];
    }

    method Get() returns (item: Option<Item<B>>)
      modifies this
      ensures old(items) == [] ==> item == None && items == []
      ensures old(items) != [] ==> item == Some(old(items[0])) && items == old(items)[1..]
    {
      if items == [] {
        return None;
      }
      item := Some(items[0]);
      items := items[1..];
    }
  }

  class LiveDashboardHub<K(==,!new), B> {
    const queueSize: int
    const replaySize: nat
    var sequences: map<Scope<K>, nat>
    var rings: map<Scope<K>, seq<Event<B>>>
    var subscribers: seq<Subscriber<K>>
    ghost var history: map<Scope<K>, seq<B>>

    ghost function View(): System<K, B>
      reads this
    {
      System(queueSize, replaySize, history, sequences, rings, set s | s in subscribers :: s.id, map[], None)
    }

    ghost predicate Valid()
      reads this
    {
      RingsExact(View())
    }

    constructor (queueSize: int, replaySize: nat)
      ensures Valid() && View() == Empty(queueSize, replaySize)
    {
      this.queueSize, this.replaySize := queueSize, replaySize;
      sequences, rings, subscribers, history := map[], map[], [], map[];
      new;
      EmptySound<K, B>(queueSize, replaySize);
    }

    /** Numbers an event and keeps it in its scope's ring; called with the lock held. */
    method Record(scope: Scope<K>, body: B) returns (e: Event<B>)
      requires Valid()
      modifies this`sequences, this`rings, this`history
      ensures Valid() && View() == DashboardHub.Record(old(View()), scope, body)
      ensures e == Event(NumberOf(old(View()), scope) + 1, body)
          == EventAt(HistoryOf(View(), scope), |HistoryOf(View(), scope)| - 1)
    {
      RecordedLast(View(), scope, body);
      RecordKeepsRings(View(), scope, body);
      hide RingsExact, RingExact, Push, EventAt;
      var number := (if scope in sequences then sequences[scope] else 0) + 1;
      var ring := if scope in rings then rings[scope] else [];
      e := Event(number, body);
      history := history[scope := (if scope in history then history[scope] else []) + [body]];
      sequences := sequences[scope := number];
      rings := rings[scope := Push(ring, e, replaySize)];
    }

    /** `id` is the fresh identifier the source draws at random. */
    method Subscribe(id: nat, scope: Scope<K>, last: Option<int>) returns (queue: EventQueue<B>, current: nat)
      requires Valid() && forall s :: s in subscribers ==> s.id != id
      modifies this`subscribers
      ensures Valid() && fresh(queue) && queue.size == queueSize
      ensures subscribers == old(subscribers) + [Subscriber(id, scope)]
      ensures current == |HistoryOf(View(), scope)|
      ensures var s := NewSub(old(View()), scope, last);
              queue.items == s.queue && SubSound(s, queueSize, HistoryOf(View(), scope), [], true)
      ensures FirstItems(HistoryOf(View(), scope), replaySize, queueSize, last, queue.items)
    {
      NewSubSound(View(), scope, last);
      CurrentIsLength(View(), scope);
      NewSubGets(View(), scope, last);
      ghost var before := View();
      subscribers := subscribers + [Subscriber(id, scope)];
      RingsExactFrame(before, View());
      hide RingsExact, SubSound, InitialQueue, FirstItems;
      var ring := if scope in rings then rings[scope] else [];
      current := if scope in sequences then sequences[scope] else 0;
      var initial := Replay(ring, current, last, queueSize);
      queue := new EventQueue(queueSize, initial);
    }

    method Unsubscribe(id: nat)
      requires Valid()
      modifies this`subscribers
      ensures Valid() && subscribers == Without(old(subscribers), id)
    {
      ghost var before := View();
      var kept := WithoutId(subscribers, id);
      subscribers := kept;
      RingsExactFrame(before, View());
    }

    /** The locked part of a publication. */
    method RecordAll(public: B, owner: Option<(K, B)>) returns (recorded: map<Scope<K>, Event<B>>)
      requires Valid()
      modifies this`sequences, this`rings, this`history
      ensures Valid() && View() == RecordBoth(old(View()), public, owner)
      ensures recorded == Recorded(old(View()), public, owner)
    {
      hide RingsExact;
      var e := Record(Operator, public);
      recorded := map[Operator := e];
      if owner.Some? {
        var p := Record(Private(owner.value.0), owner.value.1);
        recorded := recorded[Private(owner.value.0) := p];
      }
    }

    /** The callbacks to schedule: one per subscriber that may see the event, in snapshot order. */
    method Fanout(recorded: map<Scope<K>, Event<B>>) returns (calls: seq<(nat, Event<B>)>)
      ensures calls == Callbacks(subscribers, recorded)
    {
      calls := [];
      var i := 0;
      while i < |subscribers|
        invariant 0 <= i <= |subscribers|
        invariant calls + Callbacks(subscribers[i..], recorded) == Callbacks(subscribers, recorded)
      {
        var s := subscribers[i];
        assert subscribers[i..] == [s] + subscribers[i + 1..];
        if s.scope in recorded {
          calls := calls + [(s.id, recorded[s.scope])];
        }
        i := i + 1;
      }
    }

    method Publish(public: B, owner: Option<(K, B)>) returns (calls: seq<(nat, Event<B>)>)
      requires Valid()
      modifies this`sequences, this`rings, this`history
      ensures Valid() && View() == RecordBoth(old(View()), public, owner)
      ensures calls == Callbacks(subscribers, Recorded(old(View()), public, owner))
      ensures exists keep :: CallsExactly(old(View()), subscribers, public, owner, calls, keep)
    {
      hide RingsExact, RecordBoth, Recorded, CallsExactly;
      ghost var before := View();
      var recorded := RecordAll(public, owner);
      calls := Fanout(recorded);
      ghost var keep := CallbacksExact(before, subscribers, public, owner);
    }
  }

  /** The subscribers but for `id`, in order. */
  ghost function Without<K>(subscribers: seq<Subscriber<K>>, id: nat): seq<Subscriber<K>>
  {
    if subscribers == [] then []
    else (if subscribers[0].id != id then [subscribers[0]] else []) + Without(subscribers[1..], id)
  }

  method WithoutId<K>(all: seq<Subscriber<K>>, id: nat) returns (kept: seq<Subscriber<K>>)
    ensures kept == Without(all, id)
  {
    kept := [];
    for i := 0 to |all|
      invariant kept + Without(all[i..], id) == Without(all, id)
    {
      assert all[i..] == [all[i]] + all[i + 1..];
      if all[i].id != id {
        kept := kept + [all[i]];
      }
    }
  }

  /** The replay, put to the new queue outside the lock. */
  method Replay<B>(ring: seq<Event<B>>, current: nat, last: Option<int>, queueSize: int) returns (initial: seq<Item<B>>)
    ensures initial == InitialQueue(ring, current, last, queueSize)
  {
    initial := [];
    if last.Some? {
      var pending := Pending(ring, last.value);
      if last.value > current || (ring != [] && last.value < ring[0].seqNo - 1) || |pending| > queueSize {
        initial := [Resync];
      } else {
        initial := Items(pending);
      }
    }
  }

  lemma RecordedLast<K(!new), B>(sys: System<K, B>, scope: Scope<K>, body: B)
    requires RingsExact(sys)
    ensures var h := HistoryOf(DashboardHub.Record(sys, scope, body), scope);
            h != [] && EventAt(h, |h| - 1) == Event(NumberOf(sys, scope) + 1, body)
  {
    CurrentIsLength(sys, scope);
    hide RingsExact, Push;
  }

  lemma CurrentIsLength<K(!new), B>(sys: System<K, B>, scope: Scope<K>)
    requires RingsExact(sys)
    ensures NumberOf(sys, scope) == |HistoryOf(sys, scope)|
  {
    assert RingExact(HistoryOf(sys, scope), NumberOf(sys, scope), RingOf(sys, scope), sys.replaySize);
  }
}
