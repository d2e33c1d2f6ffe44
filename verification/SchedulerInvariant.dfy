/** What every locked region of the scheduler keeps. */
module SchedulerInvariant {
  import opened Prelude
  import opened Scheduler

  ghost predicate LimitsPositive(s: State) {
    s.limits.capacity >= 1 && s.limits.perKey >= 1 && s.limits.total >= 1
  }

  /** The rotation lists exactly the keys with waiting requests, once each. */
  ghost predicate RotationExact(s: State) {
    && NoDup(s.rotation)
    && (forall k :: k in s.rotation <==> k in s.queues)
    && (forall k :: k in s.queues ==> s.queues[k] != [])
  }

  /** One key's queue holds that key's requests in arrival order, within the per-key limit. */
  ghost predicate FifoOf(s: State, k: Key)
    requires k in s.queues
  {
    var q := s.queues[k];
    && |q| <= s.limits.perKey
    && (forall i :: 0 <= i < |q| ==> q[i].apiKeyId == k && 1 <= q[i].ticket <= s.tickets)
    && (forall i, j :: 0 <= i < j < |q| ==> q[i].ticket < q[j].ticket)
  }

  ghost predicate Fifo(s: State) {
    forall k :: k in s.queues ==> FifoOf(s, k)
  }

  ghost predicate TicketsUnique(q: Queues) {
    forall d, e :: Waits(q, d) && Waits(q, e) && d.ticket == e.ticket ==> d == e
  }

  ghost predicate RequestsUnique(q: Queues) {
    forall d, e :: Waits(q, d) && Waits(q, e) && d.requestId == e.requestId ==> d == e
  }

  /** Owners are in order of their epochs, and each is the pin of its request. */
  ghost predicate OwnersPinned(s: State) {
    && (forall i, j :: 0 <= i < j < |s.owners| ==> s.owners[i].epoch < s.owners[j].epoch)
    && (forall o :: o in s.owners ==>
          && 1 <= o.epoch <= s.epoch && o.leaseState == Acquired && o.selected == LocalPrimary
          && o.leaseOwner == Some(o.apiKeyId)
          && o.requestId in s.pins && s.pins[o.requestId] == o)
  }

  ghost predicate WaitersPinned(s: State) {
    forall e :: Waits(s.queues, e) ==>
      && e.requestId in s.pins && s.pins[e.requestId].leaseState == Queued
      && s.pins[e.requestId].selected == LocalPrimary
      && s.pins[e.requestId].apiKeyId == e.apiKeyId
  }

  /** Each pin is exactly one of: an owner, a queued request, a remote overflow. */
  ghost predicate PinBacked(s: State, r: RequestId)
    requires r in s.pins
  {
    var p := s.pins[r];
    && p.requestId == r
    && (p.leaseState == Acquired ==> p in s.owners)
    && (p.leaseState == Queued ==> HasEntry(s.queues, p.apiKeyId, r))
    && (p.leaseState == Overflow <==> p.selected == RemoteOverflow)
  }

  ghost predicate PinsBacked(s: State) {
    forall r :: r in s.pins ==> PinBacked(s, r)
  }

  /** Everything except work conservation: holds in the middle of a release as well. */
  ghost predicate Core(s: State) {
    && LimitsPositive(s) && RotationExact(s) && Fifo(s)
    && TicketsUnique(s.queues) && RequestsUnique(s.queues)
    && OwnersPinned(s) && WaitersPinned(s) && PinsBacked(s)
    && |s.owners| <= s.limits.capacity && Total(s.queues) <= s.limits.total
  }

  /** Nobody waits while a slot is free. */
  ghost predicate WorkConserving(s: State) {
    s.queues != map[] ==> |s.owners| == s.limits.capacity
  }

  ghost predicate Inv(s: State) {
    Core(s) && WorkConserving(s)
  }

  lemma InvImpliesCanPromote(s: State)
    requires Core(s)
    ensures CanPromote(s)
  {
  }

  lemma OwnersDistinct(s: State)
    requires Core(s)
    ensures forall i, j :: 0 <= i < j < |s.owners| ==> s.owners[i].requestId != s.owners[j].requestId
  {
    forall i, j | 0 <= i < j < |s.owners|
      ensures s.owners[i].requestId != s.owners[j].requestId
    {
      assert s.owners[i] in s.owners && s.owners[j] in s.owners;
    }
  }

  // ---------------------------------------------------------------- pins and owners

  lemma PinFreshKeeps(s: State, t: State, p: Admission)
    requires PinsBacked(s) && p.requestId !in s.pins
    requires t.pins == s.pins[p.requestId := p]
    requires forall o :: o in s.owners ==> o in t.owners
    requires forall k, r :: HasEntry(s.queues, k, r) ==> HasEntry(t.queues, k, r)
    requires PinBacked(t, p.requestId)
    ensures PinsBacked(t)
  {
    forall r | r in t.pins ensures PinBacked(t, r) {
      assert r != p.requestId ==> PinBacked(s, r);
    }
  }

  lemma PinOverflowKeeps(s: State, p: Admission)
    requires Inv(s) && p.requestId !in s.pins
    requires p.leaseState == Overflow && p.selected == RemoteOverflow
    ensures Inv(Pin(s, p))
  {
    var t := Pin(s, p);
    PinFreshKeeps(s, t, p);
    OwnersPinnedFrame(s, t);
    WaitersPinnedFrame(s, t);
    FifoFrame(s, t);
  }

  lemma OwnersPinnedFrame(s: State, t: State)
    requires OwnersPinned(s) && t.owners == s.owners && t.epoch == s.epoch
    requires forall r :: r in s.pins && s.pins[r].leaseState == Acquired ==> r in t.pins && t.pins[r] == s.pins[r]
    ensures OwnersPinned(t)
  {
  }

  lemma WaitersPinnedFrame(s: State, t: State)
    requires WaitersPinned(s)
    requires forall e :: Waits(t.queues, e) ==> Waits(s.queues, e) && e.requestId in t.pins &&
                                                t.pins[e.requestId] == s.pins[e.requestId]
    ensures WaitersPinned(t)
  {
  }

  lemma FifoFrame(s: State, t: State)
    requires Fifo(s) && t.queues == s.queues && t.limits == s.limits && t.tickets == s.tickets
    ensures Fifo(t)
  {
    forall k | k in t.queues ensures FifoOf(t, k) { assert FifoOf(s, k); }
  }

  lemma OccupyOwners(s: State, p: Admission)
    requires OwnersPinned(s) && p.epoch == s.epoch + 1
    requires p.requestId in s.pins ==> s.pins[p.requestId].leaseState != Acquired
    requires p.leaseState == Acquired && p.selected == LocalPrimary && p.leaseOwner == Some(p.apiKeyId)
    ensures OwnersPinned(Occupy(s, p))
  {
    var t := Occupy(s, p);
    forall o | o in t.owners
      ensures o.requestId in t.pins && t.pins[o.requestId] == o && 1 <= o.epoch <= t.epoch
      ensures o.leaseState == Acquired && o.selected == LocalPrimary && o.leaseOwner == Some(o.apiKeyId)
    {
      assert o in s.owners || o == p;
    }
    forall i, j | 0 <= i < j < |t.owners|
      ensures t.owners[i].epoch < t.owners[j].epoch
    {
      assert t.owners[i] == s.owners[i] && s.owners[i] in s.owners;
    }
  }

  lemma OccupyPins(s: State, p: Admission)
    requires PinsBacked(s) && WaitersPinned(s) && p.requestId !in s.pins
    requires p.leaseState == Acquired && p.selected == LocalPrimary
    ensures PinsBacked(Occupy(s, p)) && WaitersPinned(Occupy(s, p))
  {
    var t := Occupy(s, p);
    assert t.owners[|s.owners|] == p;
    PinFreshKeeps(s, t, p);
  }

  lemma OccupyKeeps(s: State, p: Admission)
    requires Core(s) && |s.owners| < s.limits.capacity && p.requestId !in s.pins
    requires p.leaseState == Acquired && p.selected == LocalPrimary && p.epoch == s.epoch + 1
    requires p.leaseOwner == Some(p.apiKeyId)
    ensures Core(Occupy(s, p))
  {
    var t := Occupy(s, p);
    OccupyOwners(s, p);
    OccupyPins(s, p);
    FifoFrame(s, t);
  }

  lemma VacateOwners(s: State, i: nat)
    requires OwnersPinned(s) && i < |s.owners|
    ensures var t := Vacate(Unpin(s, s.owners[i].requestId), i);
            && OwnersPinned(t)
            && forall o :: o in t.owners <==> o in s.owners && o != s.owners[i]
  {
    var o := s.owners[i];
    var t := Vacate(Unpin(s, o.requestId), i);
    assert o in s.owners;
    DropAtMembers(s.owners, i);
    forall p | p in t.owners
      ensures p.requestId in t.pins && t.pins[p.requestId] == p
    {
      assert p in s.owners && p != o;
    }
  }

  lemma VacatePins(s: State, i: nat)
    requires OwnersPinned(s) && PinsBacked(s) && i < |s.owners|
    ensures PinsBacked(Vacate(Unpin(s, s.owners[i].requestId), i))
  {
    var t := Vacate(Unpin(s, s.owners[i].requestId), i);
    VacateOwners(s, i);
    forall r | r in t.pins
      ensures PinBacked(t, r)
    {
      assert PinBacked(s, r);
      assert s.owners[i] in s.owners;
    }
  }

  lemma VacateWaiters(s: State, i: nat)
    requires OwnersPinned(s) && WaitersPinned(s) && i < |s.owners|
    ensures WaitersPinned(Vacate(Unpin(s, s.owners[i].requestId), i))
  {
    assert s.owners[i] in s.owners;
    WaitersPinnedFrame(s, Vacate(Unpin(s, s.owners[i].requestId), i));
  }

  lemma VacateKeeps(s: State, i: nat)
    requires Core(s) && i < |s.owners|
    ensures Core(Vacate(Unpin(s, s.owners[i].requestId), i))
  {
    VacateOwners(s, i);
    VacatePins(s, i);
    VacateWaiters(s, i);
    FifoFrame(s, Vacate(Unpin(s, s.owners[i].requestId), i));
  }

  // ---------------------------------------------------------------- queues

  function Shrink(q: Queues, k: Key, i: nat): Queues
    requires k in q && i < |q[k]|
  {
    var rest := q[k][..i] + q[k][i + 1..];
    if rest == [] then q - {k} else q[k := rest]
  }


  lemma ShrinkWaits(s: State, k: Key, i: nat)
    requires k in s.queues && i < |s.queues[k]| && FifoOf(s, k)
    ensures forall d :: Waits(Shrink(s.queues, k, i), d) <==> Waits(s.queues, d) && d != s.queues[k][i]
  {
    DropAtMembers(s.queues[k], i);
  }

  lemma ShrinkTotal(q: Queues, k: Key, i: nat)
    requires k in q && i < |q[k]|
    ensures Total(Shrink(q, k, i)) == Total(q) - 1
  {
    if q[k][..i] + q[k][i + 1..] == [] {
      TotalWithout(q, k);
      assert |q[k]| == 1;
    } else {
      TotalUpdate(q, k, q[k][..i] + q[k][i + 1..]);
    }
  }

  lemma ShrinkFifo(s: State, t: State, k: Key, i: nat)
    requires Fifo(s) && k in s.queues && i < |s.queues[k]|
    requires t.queues == Shrink(s.queues, k, i) && t.limits == s.limits && t.tickets == s.tickets
    ensures Fifo(t)
  {
    forall x | x in t.queues ensures FifoOf(t, x) { assert FifoOf(s, x); }
  }

  lemma WaitsGivesEntry(q: Queues, d: Entry)
    requires Waits(q, d)
    ensures HasEntry(q, d.apiKeyId, d.requestId)
  {
    var i :| 0 <= i < |q[d.apiKeyId]| && q[d.apiKeyId][i] == d;
    assert q[d.apiKeyId][i].requestId == d.requestId;
  }

  lemma EntryGivesWaits(s: State, k: Key, r: RequestId) returns (e: Entry)
    requires Fifo(s) && HasEntry(s.queues, k, r)
    ensures Waits(s.queues, e) && e.requestId == r && e.apiKeyId == k
  {
    assert FifoOf(s, k);
    var i :| 0 <= i < |s.queues[k]| && s.queues[k][i].requestId == r;
    e := s.queues[k][i];
  }

  lemma ShrinkPins(s: State, t: State, k: Key, i: nat)
    requires Fifo(s) && PinsBacked(s) && k in s.queues && i < |s.queues[k]|
    requires t.queues == Shrink(s.queues, k, i) && t.owners == s.owners
    requires t.pins == s.pins - {s.queues[k][i].requestId}
    ensures PinsBacked(t)
  {
    assert FifoOf(s, k);
    ShrinkWaits(s, k, i);
    forall r | r in t.pins
      ensures PinBacked(t, r)
    {
      assert PinBacked(s, r);
      var p := s.pins[r];
      if p.leaseState == Queued {
        var d := EntryGivesWaits(s, p.apiKeyId, r);
        WaitsGivesEntry(t.queues, d);
      }
    }
  }

  lemma ShrinkWaiters(s: State, t: State, k: Key, i: nat)
    requires Fifo(s) && WaitersPinned(s) && RequestsUnique(s.queues) && TicketsUnique(s.queues)
    requires k in s.queues && i < |s.queues[k]|
    requires t.queues == Shrink(s.queues, k, i) && t.pins == s.pins - {s.queues[k][i].requestId}
    ensures WaitersPinned(t) && RequestsUnique(t.queues) && TicketsUnique(t.queues)
  {
    var e := s.queues[k][i];
    assert FifoOf(s, k);
    assert Waits(s.queues, e);
    ShrinkWaits(s, k, i);
    WaitersPinnedFrame(s, t);
  }

  /** Taking one request out of its queue, wherever it stands in it. */
  lemma RemoveEntryKeeps(s: State, t: State, k: Key, i: nat)
    requires Core(s) && k in s.queues && i < |s.queues[k]|
    requires t == s.(queues := Shrink(s.queues, k, i), rotation := t.rotation,
                     pins := s.pins - {s.queues[k][i].requestId})
    requires NoDup(t.rotation) && forall x :: x in t.rotation <==> x in t.queues
    ensures Core(t) && Total(t.queues) == Total(s.queues) - 1
  {
    var e := s.queues[k][i];
    assert FifoOf(s, k);
    assert Waits(s.queues, e) && s.pins[e.requestId].leaseState == Queued;
    ShrinkTotal(s.queues, k, i);
    ShrinkFifo(s, t, k, i);
    ShrinkPins(s, t, k, i);
    ShrinkWaiters(s, t, k, i);
    OwnersPinnedFrame(s, t);
  }

  lemma NoDupMove<T>(xs: seq<T>, x: T)
    requires NoDup([x] + xs)
    ensures NoDup(xs) && NoDup(xs + [x]) && x !in xs
  {
    assert forall i :: 0 <= i < |xs| ==> xs[i] == ([x] + xs)[i + 1];
    assert ([x] + xs)[0] == x;
    forall i | 0 <= i < |xs| ensures xs[i] != x {
      assert ([x] + xs)[0] != ([x] + xs)[i + 1];
    }
  }

  lemma TurnExact(rot: seq<Key>, last: Key)
    requires NoDup(rot)
    ensures NoDup(Turn(rot, last)) && forall k :: k in Turn(rot, last) <==> k in rot
  {
    if |rot| > 1 && rot[0] == last {
      assert rot == [rot[0]] + rot[1..];
      NoDupMove(rot[1..], rot[0]);
      assert forall k :: k in rot <==> k in [rot[0]] + rot[1..];
    }
  }

  /** The served key goes to the back of the rotation, or leaves it when it has no more requests. */
  lemma DropHeadRotation(s: State, last: Key)
    requires RotationExact(s) && s.rotation != []
    ensures var order := Turn(s.rotation, last);
            && order[0] in s.queues && s.queues[order[0]] != []
            && var t := DropHead(s, order);
               && t.queues == Shrink(s.queues, order[0], 0)
               && NoDup(t.rotation) && forall x :: x in t.rotation <==> x in t.queues
  {
    var order := Turn(s.rotation, last);
    TurnExact(s.rotation, last);
    var k := order[0];
    assert order == [k] + order[1..];
    NoDupMove(order[1..], k);
    assert forall x :: x in order <==> x == k || x in order[1..];
    assert s.queues[k][..0] + s.queues[k][1..] == s.queues[k][1..];
  }

  lemma PromoteKeeps(s: State, last: Key, now: string)
    requires Core(s) && |s.owners| < s.limits.capacity
    ensures var (t, grant) := Promote(s, last, now);
            && Core(t)
            && (s.rotation == [] ==> t == s && grant == None)
            && (s.rotation != [] ==>
                  && grant.Some? && |t.owners| == |s.owners| + 1
                  && Total(t.queues) == Total(s.queues) - 1)
  {
    hide TicketsUnique, RequestsUnique, OwnersPinned, WaitersPinned, PinsBacked, Total;
    if s.rotation != [] {
      var order := Turn(s.rotation, last);
      DropHeadRotation(s, last);
      var k := order[0];
      assert FifoOf(s, k);
      var e := s.queues[k][0];
      var mid := Unpin(DropHead(s, order), e.requestId);
      RemoveEntryKeeps(s, mid, k, 0);
      var pin := Promoted(e.(apiKeyId := k), s.epoch + 1, now);
      OccupyKeeps(mid, pin);
      assert mid.pins[e.requestId := pin] == s.pins[e.requestId := pin];
      assert Occupy(DropHead(s, order), pin) == Occupy(mid, pin);
    }
  }

  lemma OwnerOrNot(s: State, r: RequestId)
    requires OwnersPinned(s) && PinsBacked(s) && r in s.pins
    ensures var i := OwnerAt(s.owners, r);
            if i >= 0 then s.pins[r] == s.owners[i] else s.pins[r].leaseState != Acquired
  {
    assert PinBacked(s, r);
    var i := OwnerAt(s.owners, r);
    if i >= 0 {
      assert s.owners[i] in s.owners;
    }
  }

  lemma EntryUnique(s: State, k: Key, r: RequestId) returns (i: nat)
    requires k in s.queues && FifoOf(s, k) && RequestsUnique(s.queues) && HasEntry(s.queues, k, r)
    ensures i < |s.queues[k]| && s.queues[k][i].requestId == r
    ensures forall j :: 0 <= j < |s.queues[k]| && j != i ==> s.queues[k][j].requestId != r
  {
    var q := s.queues[k];
    i :| 0 <= i < |q| && q[i].requestId == r;
    forall j | 0 <= j < |q| && j != i
      ensures q[j].requestId != r
    {
      assert Waits(s.queues, q[j]) && Waits(s.queues, q[i]);
    }
  }

  lemma WithdrawIsShrink(s: State, r: RequestId) returns (i: nat)
    requires Fifo(s) && PinsBacked(s) && RequestsUnique(s.queues)
    requires r in s.pins && s.pins[r].leaseState == Queued
    ensures var k := s.pins[r].apiKeyId;
            && k in s.queues && i < |s.queues[k]| && s.queues[k][i].requestId == r
            && Withdraw(Unpin(s, r), k, r).queues == Shrink(s.queues, k, i)
  {
    var k := s.pins[r].apiKeyId;
    assert PinBacked(s, r);
    assert FifoOf(s, k);
    hide RequestsUnique, FifoOf, Fifo, PinsBacked;
    i := EntryUnique(s, k, r);
    WithoutRequestAt(s.queues[k], r, i);
  }

  lemma WithdrawRotation(s: State, k: Key, r: RequestId)
    requires RotationExact(s) && k in s.queues
    ensures var t := Withdraw(s, k, r);
            NoDup(t.rotation) && forall x :: x in t.rotation <==> x in t.queues
  {
    var j := IndexOf(s.rotation, k);
    ExceptAt(s.rotation, j);
    DropAtMembers(s.rotation, j);
    hide NoDup;
  }

  lemma WithdrawKeeps(s: State, r: RequestId)
    requires Inv(s) && r in s.pins && s.pins[r].leaseState == Queued
    ensures var t := Withdraw(Unpin(s, r), s.pins[r].apiKeyId, r);
            Inv(t) && Total(t.queues) == Total(s.queues) - 1 && t.owners == s.owners
  {
    var k := s.pins[r].apiKeyId;
    var i := WithdrawIsShrink(s, r);
    WithdrawRotation(Unpin(s, r), k, r);
    RemoveEntryKeeps(s, Withdraw(Unpin(s, r), k, r), k, i);
  }

  lemma UnpinOverflowKeeps(s: State, r: RequestId)
    requires Inv(s) && r in s.pins && s.pins[r].leaseState == Overflow
    ensures Inv(Unpin(s, r))
  {
    var t := Unpin(s, r);
    UnpinBacked(s, r);
    hide FifoOf, TicketsUnique, RequestsUnique, PinBacked;
    OwnersPinnedFrame(s, t);
    WaitersPinnedFrame(s, t);
    FifoFrame(s, t);
    hide Fifo, OwnersPinned, WaitersPinned, PinsBacked;
  }

  lemma UnpinBacked(s: State, r: RequestId)
    requires PinsBacked(s)
    ensures PinsBacked(Unpin(s, r))
  {
    forall x | x in Unpin(s, r).pins ensures PinBacked(Unpin(s, r), x) { assert PinBacked(s, x); }
  }

  lemma EnqueueWaits(s: State, e: Entry)
    requires Fifo(s)
    ensures forall d :: Waits(Enqueue(s, e).queues, d) <==> Waits(s.queues, d) || d == e
  {
    var q := QueueOf(s.queues, e.apiKeyId);
    assert forall d :: d in q + [e] <==> d in q || d == e;
  }

  lemma EnqueueFifo(s: State, e: Entry)
    requires Fifo(s) && e.ticket == s.tickets + 1
    requires |QueueOf(s.queues, e.apiKeyId)| < s.limits.perKey
    ensures Fifo(Enqueue(s, e))
  {
    var t := Enqueue(s, e);
    forall x | x in t.queues
      ensures FifoOf(t, x)
    {
      if x in s.queues { assert FifoOf(s, x); }
    }
  }

  lemma OldTickets(s: State, d: Entry)
    requires Fifo(s) && Waits(s.queues, d)
    ensures 1 <= d.ticket <= s.tickets
  {
    assert FifoOf(s, d.apiKeyId);
    var i :| 0 <= i < |s.queues[d.apiKeyId]| && s.queues[d.apiKeyId][i] == d;
  }

  lemma EnqueueUnique(s: State, e: Entry)
    requires Fifo(s) && WaitersPinned(s) && RequestsUnique(s.queues) && TicketsUnique(s.queues)
    requires e.ticket == s.tickets + 1 && e.requestId !in s.pins
    ensures RequestsUnique(Enqueue(s, e).queues) && TicketsUnique(Enqueue(s, e).queues)
  {
    EnqueueWaits(s, e);
    forall d | Waits(s.queues, d)
      ensures d.ticket < e.ticket && d.requestId != e.requestId
    {
      OldTickets(s, d);
    }
  }

  lemma EnqueueEntry(s: State, e: Entry, k: Key, r: RequestId)
    requires HasEntry(s.queues, k, r)
    ensures HasEntry(Enqueue(s, e).queues, k, r)
  {
    var i :| 0 <= i < |s.queues[k]| && s.queues[k][i].requestId == r;
    assert Enqueue(s, e).queues[k][i].requestId == r;
  }

  lemma EnqueuePins(s: State, e: Entry, pin: Admission)
    requires Fifo(s) && PinsBacked(s) && WaitersPinned(s) && e.requestId !in s.pins
    requires pin.requestId == e.requestId && pin.apiKeyId == e.apiKeyId
    requires pin.leaseState == Queued && pin.selected == LocalPrimary
    ensures PinsBacked(Pin(Enqueue(s, e), pin)) && WaitersPinned(Pin(Enqueue(s, e), pin))
  {
    var t := Pin(Enqueue(s, e), pin);
    EnqueueWaits(s, e);
    forall k, r | HasEntry(s.queues, k, r) ensures HasEntry(t.queues, k, r) { EnqueueEntry(s, e, k, r); }
    WaitsGivesEntry(t.queues, e);
    PinFreshKeeps(s, t, pin);
  }

  lemma EnqueueKeeps(s: State, e: Entry, pin: Admission)
    requires Inv(s) && e.requestId !in s.pins && e.ticket == s.tickets + 1
    requires |QueueOf(s.queues, e.apiKeyId)| < s.limits.perKey && Total(s.queues) < s.limits.total
    requires |s.owners| == s.limits.capacity
    requires pin.requestId == e.requestId && pin.apiKeyId == e.apiKeyId
    requires pin.leaseState == Queued && pin.selected == LocalPrimary
    ensures var t := Pin(Enqueue(s, e), pin);
            Inv(t) && Total(t.queues) == Total(s.queues) + 1
  {
    var t := Pin(Enqueue(s, e), pin);
    TotalUpdate(s.queues, e.apiKeyId, QueueOf(s.queues, e.apiKeyId) + [e]);
    hide FifoOf, TicketsUnique, RequestsUnique, OwnersPinned, WaitersPinned, PinBacked;
    EnqueueFifo(s, e);
    FifoFrame(Enqueue(s, e), t);
    EnqueueUnique(s, e);
    EnqueuePins(s, e, pin);
    OwnersPinnedFrame(s, t);
    assert NoDup(t.rotation);
  }

  // ---------------------------------------------------------------- the locked regions

  lemma InitialInv(limits: Limits)
    requires limits.capacity >= 1 && limits.perKey >= 1 && limits.total >= 1
    ensures Inv(Initial(limits))
  {
  }

  lemma AdmitKeepsInv(s: State, a: Ask)
    requires Inv(s)
    ensures Inv(Admit(s, a).0)
  {
    var (t, out) := Admit(s, a);
    if out.Waiting? {
      EnqueueKeeps(s, out.entry, out.queued);
    } else if t != s {
      var pin := out.admission;
      if pin.leaseState == Overflow {
        PinOverflowKeeps(s, pin);
      } else {
        OccupyKeeps(s, pin);
      }
    }
  }

  lemma NoRotationNoQueue(s: State)
    requires RotationExact(s)
    ensures s.rotation == [] <==> s.queues == map[]
  {
    if s.rotation != [] {
      assert s.rotation[0] in s.queues;
    }
  }

  /** A freed slot is taken over at once when anybody waits. */
  lemma ReleaseOwnerKeeps(s: State, r: RequestId, now: string)
    requires Inv(s) && r in s.pins && OwnerAt(s.owners, r) >= 0
    ensures var (t, ok, grant) := Release(s, r, now);
            && ok && Inv(t) && (grant.Some? <==> s.queues != map[])
            && |t.owners| == |s.owners| - (if grant.Some? then 0 else 1)
            && Total(t.queues) == Total(s.queues) - (if grant.Some? then 1 else 0)
  {
    OwnerOrNot(s, r);
    NoRotationNoQueue(s);
    hide RotationExact, Fifo, TicketsUnique, RequestsUnique, PinsBacked, OwnersPinned, WaitersPinned, Promote, Total;
    var i := OwnerAt(s.owners, r);
    VacateKeeps(s, i);
    PromoteKeeps(Vacate(Unpin(s, r), i), s.owners[i].apiKeyId, now);
  }

  lemma ReleaseKeepsInv(s: State, r: RequestId, now: string)
    requires Inv(s)
    ensures Inv(Release(s, r, now).0)
  {
    hide FifoOf, TicketsUnique, RequestsUnique, PinBacked, Promote, Withdraw;
    if r in s.pins {
      OwnerOrNot(s, r);
      if OwnerAt(s.owners, r) >= 0 {
        ReleaseOwnerKeeps(s, r, now);
      } else if s.pins[r].leaseState == Queued {
        WithdrawKeeps(s, r);
      } else {
        UnpinOverflowKeeps(s, r);
      }
    }
  }
}
