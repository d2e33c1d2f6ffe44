/**
 * One subscriber: its drop-oldest queue, the callbacks scheduled for it, and what its consumer
 * has read, against the history of its scope.
 */
module DashboardSubscriber {
  import opened Prelude
  import opened Dashboard

  /** `_enqueue`: a full queue drops its oldest item and marks the new one. */
  function Enqueue<B>(queue: seq<Item<B>>, size: int, e: Event<B>): seq<Item<B>> {
    if size > 0 && |queue| >= size then queue[1..] + [Item(e, true)] else queue + [Item(e, false)]
  }

  /**
   * A subscriber. `queue` and `scheduled` are its real state. The rest records its history:
   * everything ever put to its queue, everything read, how much of `offered` has been read or
   * skipped, the history index it is served from, and the number of drops.
   */
  datatype Sub<K, B> = Sub(
    scope: Scope<K>, queue: seq<Item<B>>, scheduled: seq<Event<B>>,
    offered: seq<Item<B>>, seen: seq<Item<B>>, read: nat, base: nat, resync: bool, drops: nat)

  function Strip<B>(item: Item<B>): Item<B> {
    if item.Resync? then Resync else Item(item.event, false)
  }

  function Prefix<K, B>(s: Sub<K, B>): seq<Item<B>> {
    if s.resync then [Resync] else []
  }

  /** Everything this subscriber has been, or is certain to be, offered. */
  function Stream<K, B>(s: Sub<K, B>, flight: seq<Event<B>>): seq<Item<B>> {
    s.offered + Items(s.scheduled) + Items(flight)
  }

  /** What it should be offered: every event of its scope from `base` on. */
  function Target<K, B>(s: Sub<K, B>, history: seq<B>): seq<Item<B>>
    requires s.base <= |history|
  {
    Prefix(s) + Items(Events(history, s.base))
  }

  ghost predicate StreamSound<K, B>(s: Sub<K, B>, history: seq<B>, flight: seq<Event<B>>, registered: bool) {
    && s.base <= |history|
    && Stream(s, flight) <= Target(s, history)
    && (registered ==> Stream(s, flight) == Target(s, history))
  }

  ghost predicate HasGap<B>(queue: seq<Item<B>>) {
    exists i :: 0 <= i < |queue| && queue[i].Item? && queue[i].gap
  }

  /** The queue is the end of what was offered; anything skipped is announced inside the queue. */
  ghost predicate QueueSound<K, B>(s: Sub<K, B>, size: int) {
    && |s.queue| <= |s.offered|
    && (forall i :: 0 <= i < |s.queue| ==> Strip(s.queue[i]) == s.offered[|s.offered| - |s.queue| + i])
    && s.read <= |s.offered| - |s.queue|
    && (s.read < |s.offered| - |s.queue| ==> HasGap(s.queue))
    && (size > 0 ==> |s.queue| <= size)
    && (s.drops == 0 ==> s.seen + s.queue == s.offered)
  }

  /** The sequence number right after the first `k` offered items. */
  function NumberAt<K, B>(s: Sub<K, B>, k: nat): int {
    s.base + k - |Prefix(s)|
  }

  /** Where the consumer stands after `i` reads: at the last event read, or where it is served from. */
  function Position<K, B>(s: Sub<K, B>, i: nat): int
    requires i <= |s.seen|
  {
    if i == 0 || s.seen[i - 1].Resync? then s.base else s.seen[i - 1].event.seqNo
  }

  /** What has been read never repeats and never goes back, and `read` is where the last item stands. */
  ghost predicate SeenSound<K, B>(s: Sub<K, B>) {
    && (forall i :: 0 <= i < |s.seen| && s.seen[i].Item? ==> s.seen[i].event.seqNo <= NumberAt(s, s.read))
    && (forall i, j :: 0 <= i < j < |s.seen| && s.seen[i].Item? && s.seen[j].Item? ==>
          s.seen[i].event.seqNo < s.seen[j].event.seqNo)
    && (s.seen == [] ==> s.read == 0)
    && (s.seen != [] && s.seen[|s.seen| - 1].Item? ==> s.seen[|s.seen| - 1].event.seqNo == NumberAt(s, s.read))
    && (s.seen != [] && s.seen[|s.seen| - 1].Resync? ==> s.resync && s.read == 1)
  }

  /** The `i`-th read does not directly follow the one before. */
  predicate Jumps<K, B>(s: Sub<K, B>, i: nat)
    requires i < |s.seen|
  {
    s.seen[i].Item? && s.seen[i].event.seqNo != Position(s, i) + 1
  }

  /** Every jump is marked: on the item that jumped, on a later one that was read, or inside the queue. */
  ghost predicate Announced<K, B>(s: Sub<K, B>) {
    forall i :: 0 <= i < |s.seen| && Jumps(s, i) ==> HasGap(s.seen[i..] + s.queue)
  }

  ghost predicate SubSound<K, B>(s: Sub<K, B>, size: int, history: seq<B>, flight: seq<Event<B>>, registered: bool) {
    StreamSound(s, history, flight, registered) && QueueSound(s, size) && SeenSound(s) && Announced(s)
  }

  // ---------------------------------------------------------------- one subscriber, one step

  function Deliver<K, B>(s: Sub<K, B>, size: int): Sub<K, B> {
    if s.scheduled == [] then s
    else
      s.(queue := Enqueue(s.queue, size, s.scheduled[0]), scheduled := s.scheduled[1..],
         offered := s.offered + [Item(s.scheduled[0], false)],
         drops := s.drops + (if size > 0 && |s.queue| >= size then 1 else 0))
  }

  function Read<K, B>(s: Sub<K, B>): Sub<K, B>
    requires |s.queue| <= |s.offered|
  {
    if s.queue == [] then s
    else s.(queue := s.queue[1..], seen := s.seen + [s.queue[0]], read := |s.offered| - |s.queue| + 1)
  }

  lemma ItemsCons<B>(es: seq<Event<B>>)
    requires es != []
    ensures Items(es) == [Item(es[0], false)] + Items(es[1..])
  {
  }

  lemma ItemsConcat<B>(a: seq<Event<B>>, b: seq<Event<B>>)
    ensures Items(a + b) == Items(a) + Items(b)
  {
  }

  lemma DeliverStream<K, B>(s: Sub<K, B>, size: int, flight: seq<Event<B>>)
    ensures Stream(Deliver(s, size), flight) == Stream(s, flight)
  {
    if s.scheduled != [] {
      ItemsCons(s.scheduled);
    }
  }

  lemma DeliverGap<K, B>(s: Sub<K, B>, size: int)
    requires s.scheduled != []
    ensures var t := Deliver(s, size);
            (t.drops != s.drops || HasGap(s.queue) ==> HasGap(t.queue))
  {
    var t := Deliver(s, size);
    var last := |t.queue| - 1;
    if t.drops != s.drops {
      assert t.queue[last].gap;
    } else if HasGap(s.queue) {
      var i :| 0 <= i < |s.queue| && s.queue[i].Item? && s.queue[i].gap;
      assert t.queue[i].gap;
    }
  }

  lemma DeliverQueue<K, B>(s: Sub<K, B>, size: int)
    requires QueueSound(s, size)
    ensures QueueSound(Deliver(s, size), size)
  {
    if s.scheduled != [] {
      DeliverGap(s, size);
      hide HasGap;
      var t := Deliver(s, size);
      if t.drops == 0 {
        assert t.seen + t.queue == s.seen + s.queue + [Item(s.scheduled[0], false)];
      }
    }
  }

  lemma GapEither<B>(a: seq<Item<B>>, b: seq<Item<B>>)
    ensures HasGap(a + b) <==> HasGap(a) || HasGap(b)
  {
    if HasGap(a) {
      var i :| 0 <= i < |a| && a[i].Item? && a[i].gap;
      assert (a + b)[i].gap;
    }
    if HasGap(b) {
      var i :| 0 <= i < |b| && b[i].Item? && b[i].gap;
      assert (a + b)[|a| + i].gap;
    }
  }

  /** A mark that is dropped from the queue is replaced by a new one. */
  lemma DeliverAnnounced<K, B>(s: Sub<K, B>, size: int)
    requires Announced(s)
    ensures Announced(Deliver(s, size))
  {
    if s.scheduled != [] {
      var t := Deliver(s, size);
      DeliverGap(s, size);
      hide HasGap, Enqueue;
      forall i | 0 <= i < |t.seen| && Jumps(t, i)
        ensures HasGap(t.seen[i..] + t.queue)
      {
        assert Jumps(s, i);
        GapEither(s.seen[i..], s.queue);
        GapEither(t.seen[i..], t.queue);
      }
    }
  }

  lemma DeliverSound<K, B>(s: Sub<K, B>, size: int, history: seq<B>, flight: seq<Event<B>>, registered: bool)
    requires SubSound(s, size, history, flight, registered)
    ensures SubSound(Deliver(s, size), size, history, flight, registered)
  {
    DeliverStream(s, size, flight);
    DeliverQueue(s, size);
    DeliverAnnounced(s, size);
    hide Announced, QueueSound, Stream;
  }

  /** The sequence numbers of what was offered are consecutive from `base`. */
  lemma OfferedNumbers<K, B>(s: Sub<K, B>, history: seq<B>, flight: seq<Event<B>>, registered: bool, k: nat)
    requires StreamSound(s, history, flight, registered) && k < |s.offered|
    ensures s.offered[k].Resync? <==> k < |Prefix(s)|
    ensures s.offered[k].Item? ==> s.offered[k] == Item(EventAt(history, NumberAt(s, k)), false)
    ensures s.offered[k].Item? ==> s.offered[k].event.seqNo == NumberAt(s, k) + 1
  {
    assert Stream(s, flight)[k] == s.offered[k];
    assert Target(s, history)[k] == s.offered[k];
  }

  lemma ReadSeen<K, B>(s: Sub<K, B>, size: int, history: seq<B>, flight: seq<Event<B>>, registered: bool)
    requires SubSound(s, size, history, flight, registered)
    ensures SeenSound(Read(s))
  {
    if s.queue != [] {
      var t := Read(s);
      var k := |s.offered| - |s.queue|;
      OfferedNumbers(s, history, flight, registered, k);
      assert Strip(s.queue[0]) == s.offered[k];
    }
  }

  lemma SplitHead<T>(seen: seq<T>, queue: seq<T>)
    requires queue != []
    ensures (seen + [queue[0]]) + queue[1..] == seen + queue
  {
  }

  lemma ReadQueue<K, B>(s: Sub<K, B>, size: int)
    requires QueueSound(s, size)
    ensures QueueSound(Read(s), size)
  {
    if s.queue != [] {
      var t := Read(s);
      SplitHead(s.seen, s.queue);
      hide HasGap;
      assert forall i :: 0 <= i < |t.queue| ==> t.queue[i] == s.queue[i + 1];
    }
  }

  lemma ReadAnnounced<K, B>(s: Sub<K, B>, size: int, history: seq<B>, flight: seq<Event<B>>, registered: bool)
    requires SubSound(s, size, history, flight, registered)
    ensures Announced(Read(s))
  {
    if s.queue != [] {
      var t := Read(s);
      NoSilentLoss(s, size, history, flight, registered);
      ReadShape(s, 0);
      hide HasGap, StreamSound, QueueSound, SeenSound, Read, Position;
      forall i | 0 <= i < |t.seen| && Jumps(t, i)
        ensures HasGap(t.seen[i..] + t.queue)
      {
        ReadShape(s, i);
      }
    }
  }

  /** Reading moves one item from the queue to the end of what was seen, and nothing else. */
  lemma ReadShape<K, B>(s: Sub<K, B>, i: nat)
    requires s.queue != [] && |s.queue| <= |s.offered| && i <= |s.seen|
    ensures var t := Read(s);
            && |t.seen| == |s.seen| + 1
            && t.seen[i..] + t.queue == s.seen[i..] + s.queue
            && (i < |s.seen| ==> (Jumps(t, i) <==> Jumps(s, i)))
            && (i == |s.seen| ==> t.seen[i] == s.queue[0] && Position(t, i) == Position(s, i))
            && s.seen[|s.seen|..] + s.queue == s.queue
  {
    assert Read(s).seen[i..] == s.seen[i..] + [s.queue[0]];
    SplitHead(s.seen[i..], s.queue);
  }

  lemma ReadSound<K, B>(s: Sub<K, B>, size: int, history: seq<B>, flight: seq<Event<B>>, registered: bool)
    requires SubSound(s, size, history, flight, registered)
    ensures SubSound(Read(s), size, history, flight, registered)
  {
    ReadSeen(s, size, history, flight, registered);
    ReadQueue(s, size);
    ReadAnnounced(s, size, history, flight, registered);
    hide QueueSound, SeenSound, Announced;
  }

  /** The numbers of queued events, counted from the end of what was offered. */
  lemma QueuedNumber<K, B>(s: Sub<K, B>, size: int, history: seq<B>, flight: seq<Event<B>>, registered: bool, i: nat)
    requires StreamSound(s, history, flight, registered) && QueueSound(s, size) && i < |s.queue|
    ensures s.queue[i].Item? ==> s.queue[i].event.seqNo == NumberAt(s, |s.offered| - |s.queue| + i) + 1
    ensures s.queue[i].Item? ==> |s.offered| - |s.queue| + i >= |Prefix(s)|
  {
    OfferedNumbers(s, history, flight, registered, |s.offered| - |s.queue| + i);
    assert Strip(s.queue[i]) == s.offered[|s.offered| - |s.queue| + i];
  }

  /**
   * No silent loss: when the event about to be read does not directly follow the last one read
   * (or the point the subscriber is served from), that event or one still queued behind it carries
   * the gap mark; so it does when a demand to resynchronise was dropped unread. Queued numbers
   * are contiguous.
   */
  lemma NoSilentLoss<K, B>(s: Sub<K, B>, size: int, history: seq<B>, flight: seq<Event<B>>, registered: bool)
    requires SubSound(s, size, history, flight, registered) && s.queue != []
    ensures s.queue[0].Item? && s.queue[0].event.seqNo != Position(s, |s.seen|) + 1 ==> HasGap(s.queue)
    ensures s.resync && s.seen == [] && s.queue[0].Item? ==> HasGap(s.queue)
    ensures forall i :: 0 < i < |s.queue| && s.queue[i - 1].Item? && s.queue[i].Item? ==>
              s.queue[i].event.seqNo == s.queue[i - 1].event.seqNo + 1
  {
    hide HasGap, StreamSound, Announced;
    forall i | 0 <= i < |s.queue|
      ensures s.queue[i].Item? ==> s.queue[i].event.seqNo == NumberAt(s, |s.offered| - |s.queue| + i) + 1
      ensures s.queue[i].Item? ==> |s.offered| - |s.queue| + i >= |Prefix(s)|
    {
      QueuedNumber(s, size, history, flight, registered, i);
    }
  }

  /**
   * Until its first drop, what a registered subscriber has read, holds, and has coming is exactly
   * the history of its scope from `base` on: every event once, in order, unmarked.
   */
  lemma ExactlyOnce<K, B>(s: Sub<K, B>, size: int, history: seq<B>, flight: seq<Event<B>>)
    requires SubSound(s, size, history, flight, true) && s.drops == 0
    ensures s.seen + s.queue + Items(s.scheduled) + Items(flight) == Prefix(s) + Items(Events(history, s.base))
    ensures forall k :: |Prefix(s)| <= k < |s.seen| ==>
              var i := s.base + k - |Prefix(s)|;
              i < |history| && s.seen[k] == Item(Event(i + 1, history[i]), false)
  {
    forall k | |Prefix(s)| <= k < |s.seen|
      ensures var i := s.base + k - |Prefix(s)|;
              i < |history| && s.seen[k] == Item(Event(i + 1, history[i]), false)
    {
      assert s.seen[k] == (s.seen + s.queue)[k] == s.offered[k];
      OfferedNumbers(s, history, flight, true, k);
    }
  }
}
