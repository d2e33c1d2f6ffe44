/**
 * The live event hub: per-scope sequence numbers, a bounded replay ring, and one drop-oldest
 * queue per subscriber, fed through callbacks that the subscriber's event loop runs in order.
 */
module Dashboard {
  import opened Prelude

  datatype Scope<K> = Operator | Private(key: K)

  /** A recorded event. `gap` is set on the copy put into a queue that had to drop its oldest item. */
  datatype Event<B> = Event(seqNo: nat, body: B)
  datatype Item<B> = Resync | Item(event: Event<B>, gap: bool)

  // ---------------------------------------------------------------- recording

  /** The event that a scope's history holds at index `i`. */
  function EventAt<B>(history: seq<B>, i: nat): Event<B>
    requires i < |history|
  {
    Event(i + 1, history[i])
  }

  function Events<B>(history: seq<B>, start: nat): (es: seq<Event<B>>)
    requires start <= |history|
    ensures |es| == |history| - start
    ensures forall i :: 0 <= i < |es| ==> es[i] == EventAt(history, start + i)
  {
    seq(|history| - start, i requires 0 <= i < |history| - start => EventAt(history, start + i))
  }

  /** Appending to a ring that keeps at most `size` elements, the oldest going first. */
  function Push<T>(ring: seq<T>, x: T, size: nat): seq<T> {
    var all := ring + [x];
    if |all| <= size then all else all[|all| - size..]
  }

  function Min(a: nat, b: nat): nat {
    if a <= b then a else b
  }

  /** The ring is the contiguous last min(n, size) events, ending at the current sequence number. */
  ghost predicate RingExact<B>(history: seq<B>, current: nat, ring: seq<Event<B>>, size: nat) {
    current == |history| && ring == Events(history, |history| - Min(|history|, size))
  }

  lemma PushKeepsRing<B>(history: seq<B>, ring: seq<Event<B>>, size: nat, body: B)
    requires RingExact(history, |history|, ring, size)
    ensures RingExact(history + [body], |history| + 1, Push(ring, Event(|history| + 1, body), size), size)
  {
    var h := history + [body];
    var e := Event(|history| + 1, body);
    var r := Push(ring, e, size);
    var goal := Events(h, |h| - Min(|h|, size));
    assert |r| == |goal|;
    assert (ring + [e])[|ring|] == e == EventAt(h, |history|);
    forall i | 0 <= i < |goal| ensures r[i] == goal[i] {
      var j := if |ring| + 1 <= size then i else i + (|ring| + 1 - size);
      assert r[i] == (ring + [e])[j];
    }
  }

  // ---------------------------------------------------------------- subscribing

  /** Events in the ring that the subscriber has not seen. */
  function Pending<B>(ring: seq<Event<B>>, last: int): seq<Event<B>> {
    if ring == [] then []
    else (if ring[0].seqNo > last then [ring[0]] else []) + Pending(ring[1..], last)
  }

  predicate MustResync<B>(ring: seq<Event<B>>, current: nat, last: int, queueSize: int) {
    || last > current
    || (ring != [] && last < ring[0].seqNo - 1)
    || |Pending(ring, last)| > queueSize
  }

  function Items<B>(es: seq<Event<B>>): (items: seq<Item<B>>)
    ensures |items| == |es|
    ensures forall i :: 0 <= i < |es| ==> items[i] == Item(es[i], false)
  {
    seq(|es|, i requires 0 <= i < |es| => Item(es[i], false))
  }

  /** What a new subscriber's queue holds. */
  function InitialQueue<B>(ring: seq<Event<B>>, current: nat, last: Option<int>, queueSize: int): seq<Item<B>> {
    if last.None? then []
    else if MustResync(ring, current, last.value, queueSize) then [Resync]
    else Items(Pending(ring, last.value))
  }

  lemma {:induction false} PendingOfEvents<B>(history: seq<B>, start: nat, last: int)
    requires start <= |history|
    ensures var from := if last < start then start else if last > |history| then |history| else last;
            Pending(Events(history, start), last) == Events(history, from)
    decreases |history| - start
  {
    if start < |history| {
      var es := Events(history, start);
      assert es[1..] == Events(history, start + 1);
      PendingOfEvents(history, start + 1, last);
      if last <= start {
        assert [es[0]] + Events(history, start + 1) == es;
      }
    }
  }

  function FromZero(last: int): nat {
    if last < 0 then 0 else last
  }

  /**
   * A subscriber that names `last` is told to resynchronise exactly when `last` lies in the
   * future, a later event is no longer in the ring, or the backlog exceeds the queue. A hub
   * without a ring knows of no lost event and sees no backlog.
   */
  lemma ResyncExact<B>(history: seq<B>, ring: seq<Event<B>>, size: nat, last: int, queueSize: int)
    requires RingExact(history, |history|, ring, size)
    ensures size >= 1 && history != [] ==>
              (MustResync(ring, |history|, last, queueSize) <==>
                 || last > |history|
                 || last < |history| - Min(|history|, size)
                 || |history| - last > queueSize)
    ensures size == 0 || history == [] ==>
              (MustResync(ring, |history|, last, queueSize) <==> last > |history| || queueSize < 0)
  {
    var start := |history| - Min(|history|, size);
    PendingOfEvents(history, start, last);
    if size >= 1 && history != [] {
      assert ring[0] == EventAt(history, start);
    } else {
      assert ring == [];
    }
  }

  /**
   * A subscriber that is not told to resynchronise is served every later event, once and in
   * order, if and only if the hub keeps a replay ring at all or nothing was missed. With a ring
   * size of zero the missed events are lost without notice.
   */
  lemma HandoverExact<B>(history: seq<B>, ring: seq<Event<B>>, size: nat, last: int, queueSize: int)
    requires RingExact(history, |history|, ring, size)
    requires !MustResync(ring, |history|, last, queueSize)
    ensures FromZero(last) <= |history|
    ensures Pending(ring, last) == Events(history, FromZero(last)) <==> size >= 1 || FromZero(last) == |history|
    ensures size == 0 ==> Pending(ring, last) == []
  {
    var start := |history| - Min(|history|, size);
    PendingOfEvents(history, start, last);
    if history != [] && size >= 1 {
      assert ring[0] == EventAt(history, start);
    }
    assert |Events(history, FromZero(last))| == |history| - FromZero(last);
  }
}
