/** The scheduler object: its methods update the fields in place, each inside one lock. */
module SchedulerObject {
  import opened Prelude
  import opened Scheduler
  import opened SchedulerInvariant
  import opened SchedulerDrain

  datatype Snapshot = Snapshot(
    ownerKey: Option<Key>, ownerRequest: Option<RequestId>, acquiredAt: Option<string>,
    leaseState: Option<LeaseState>, active: nat, capacity: nat, queued: nat, epoch: nat)

  class ExecutorScheduler {
    const limits: Limits
    var owners: seq<Admission>
    var queues: Queues
    var rotation: seq<Key>
    var pins: map<RequestId, Admission>
    var tickets: nat
    var epoch: nat
    var localEnabled: bool

    ghost function View(): State
      reads this
    {
      State(limits, owners, queues, rotation, pins, tickets, epoch, localEnabled)
    }

    ghost predicate Valid()
      reads this
    {
      Inv(View())
    }

    constructor (limits: Limits)
      requires limits.capacity >= 1 && limits.perKey >= 1 && limits.total >= 1
      ensures Valid() && View() == Initial(limits)
    {
      this.limits := limits;
      owners, queues, rotation, pins := [], map[], [], map[];
      tickets, epoch, localEnabled := 0, 0, true;
      new;
      InitialInv(limits);
    }

    /** The source's constructor raises ValueError for any limit below one. */
    static method Create(capacity: int, perKey: int, total: int, timeoutSeconds: real)
      returns (r: Option<ExecutorScheduler>)
      ensures r.Some? <==> capacity >= 1 && perKey >= 1 && total >= 1 && timeoutSeconds > 0.0
      ensures r.Some? ==> fresh(r.value) && r.value.View() == Initial(Limits(capacity, perKey, total))
    {
      if capacity < 1 || perKey < 1 || total < 1 || timeoutSeconds <= 0.0 {
        return None;
      }
      var s := new ExecutorScheduler(Limits(capacity, perKey, total));
      r := Some(s);
    }

    method SetLocalEnabled(enabled: bool)
      requires Valid()
      modifies this`localEnabled
      ensures Valid() && View() == old(View()).(localEnabled := enabled)
    {
      localEnabled := enabled;
      OwnersPinnedFrame(old(View()), View());
      WaitersPinnedFrame(old(View()), View());
      FifoFrame(old(View()), View());
      assert forall r :: r in pins ==> PinBacked(old(View()), r);
    }

    method TotalDepth() returns (depth: nat)
      ensures depth == Total(queues)
    {
      depth := 0;
      var rest := queues;
      while rest != map[]
        invariant depth + Total(rest) == Total(queues)
        decreases |rest|
      {
        var k :| k in rest;
        TotalWithout(rest, k);
        depth := depth + |rest[k]|;
        assert (rest - {k}).Keys == rest.Keys - {k};
        rest := rest - {k};
      }
    }

    /** All waiting requests, sorted by ticket. */
    method Waiting() returns (waiting: seq<Entry>)
      requires QueuesOrdered(View())
      ensures Listing(queues, waiting)
    {
      var all := [];
      var rest := queues.Keys;
      while rest != {}
        invariant rest <= queues.Keys
        invariant DistinctTickets(all)
        invariant forall e :: e in all <==> Waits(queues, e) && e.apiKeyId !in rest
        decreases |rest|
      {
        var k :| k in rest;
        GatherQueue(View(), rest, k, all);
        all := all + queues[k];
        rest := rest - {k};
      }
      SortSorts(all);
      waiting := SortByTicket(all);
    }

    method QueuePosition(r: RequestId) returns (p: nat)
      requires QueuesOrdered(View())
      ensures p == Position(queues, r)
    {
      var waiting := Waiting();
      p := 0;
      while p < |waiting| && waiting[p].requestId != r
        invariant p <= |waiting|
        invariant forall i :: 0 <= i < p ==> waiting[i].requestId != r
      {
        p := p + 1;
      }
      if p == |waiting| {
        return 0;
      }
      PositionIsSortedIndex(View(), waiting, p);
      p := p + 1;
    }

    method Pinned(r: RequestId) returns (pin: Option<Admission>)
      requires Valid()
      ensures pin == CurrentPin(View(), r)
    {
      if r !in pins || pins[r].leaseState != Queued {
        return if r in pins then Some(pins[r]) else None;
      }
      var p := QueuePosition(r);
      pin := Some(pins[r].(leaseOwner := FirstOwner(owners), queuePosition := p, epoch := epoch));
    }

    method TakeSnapshot() returns (snap: Snapshot)
      ensures snap.active == |owners| && snap.capacity == limits.capacity
      ensures snap.queued == Total(queues) && snap.epoch == epoch
      ensures snap.ownerKey == FirstOwner(owners)
      ensures snap.ownerRequest == (if owners == [] then None else Some(owners[0].requestId))
      ensures (snap.ownerRequest == None && snap.queued == 0) <==> Drained(View())
    {
      var depth := TotalDepth();
      if owners == [] {
        snap := Snapshot(None, None, None, None, 0, limits.capacity, depth, epoch);
      } else {
        var o := owners[0];
        snap := Snapshot(Some(o.apiKeyId), Some(o.requestId), o.acquiredAt, Some(o.leaseState), |owners|,
                         limits.capacity, depth, epoch);
      }
    }

    /** The locked part of `acquire`. The caller awaits the future named by a `Waiting` entry. */
    method Admit(ask: Ask) returns (out: Outcome)
      requires Valid()
      modifies this
      ensures Valid() && (View(), out) == Scheduler.Admit(old(View()), ask)
    {
      AdmitKeepsInv(View(), ask);
      hide Inv, Total, Position, Enqueue, ValidKey, IsHighRisk;
      if !ValidKey(ask.key) {
        return Refused(InvalidKey);
      }
      if !ValidRequest(ask.request) {
        return Refused(InvalidRequest);
      }
      if ask.request in pins {
        var pin := pins[ask.request];
        return if pin.apiKeyId != ask.key then Refused(BelongsToAnotherKey)
               else if pin.leaseState == Queued then Refused(AlreadyQueued)
               else Admitted(pin);
      }
      if !(ask.local && localEnabled) {
        if !ask.flash {
          return Refused(LocalIsUnavailable);
        }
        out := Overflow(ask, LocalUnavailable);
        return;
      }
      out := AdmitLocally(ask);
    }

    /** A new request while the local executor is available: a slot, an overflow, a place, or refusal. */
    method AdmitLocally(ask: Ask) returns (out: Outcome)
      requires Valid() && ask.request !in pins && ask.local && localEnabled
      requires ValidKey(ask.key) && ValidRequest(ask.request)
      modifies this
      ensures (View(), out) == Scheduler.Admit(old(View()), ask)
    {
      hide Inv, Total, Position, Enqueue, ValidKey, IsHighRisk;
      if |owners| < limits.capacity && queues == map[] {
        epoch := epoch + 1;
        var pin := Admission(ask.request, ask.key, LocalPrimary, Some(ask.key), Some(ask.now), Acquired, 0,
                             epoch, LocalIdle);
        owners := owners + [pin];
        pins := pins[ask.request := pin];
        return Admitted(pin);
      }
      var depth := TotalDepth();
      if !IsHighRisk(ask.risk) && ask.flash && depth >= limits.total {
        out := Overflow(ask, if OwnsSlot(owners, ask.key) then SameKeyOverflow else CrossKeyOverflow);
        return;
      }
      if |QueueOf(queues, ask.key)| >= limits.perKey || depth >= limits.total {
        return Refused(if IsHighRisk(ask.risk) then HighRiskQueueFull else LocalQueueFull);
      }
      out := JoinQueue(ask);
    }

    method Overflow(ask: Ask, why: Reason) returns (out: Outcome)
      modifies this`pins
      ensures var pin := OverflowPin(old(View()), ask.key, ask.request, ask.now, why);
              out == Admitted(pin) && View() == Pin(old(View()), pin)
    {
      var pin := Admission(ask.request, ask.key, RemoteOverflow, FirstOwner(owners), Some(ask.now),
                           LeaseState.Overflow, 0, epoch, why);
      pins := pins[ask.request := pin];
      out := Admitted(pin);
    }

    method JoinQueue(ask: Ask) returns (out: Outcome)
      requires Valid() && ask.request !in pins
      requires |QueueOf(queues, ask.key)| < limits.perKey
      modifies this`tickets, this`queues, this`rotation, this`pins
      ensures var s := old(View());
              var e := Ticketed(ask.request, ask.key, s.tickets + 1);
              var t := Enqueue(s, e);
              var pin := Admission(ask.request, ask.key, LocalPrimary, FirstOwner(s.owners), None, Queued,
                                   Position(t.queues, ask.request), s.epoch,
                                   if IsHighRisk(ask.risk) then HighRiskLocalOnly else LocalBusyQueue);
              View() == Pin(t, pin) && out == Outcome.Waiting(pin, e)
    {
      var e := Ticketed(ask.request, ask.key, tickets + 1);
      EnqueueOrdered(View(), e);
      AppendEntry(e);
      hide Inv, Enqueue, QueuesOrdered, Position;
      var position := QueuePosition(ask.request);
      var pin := Admission(ask.request, ask.key, LocalPrimary, FirstOwner(owners), None, Queued, position, epoch,
                           if IsHighRisk(ask.risk) then HighRiskLocalOnly else LocalBusyQueue);
      pins := pins[ask.request := pin];
      out := Outcome.Waiting(pin, e);
    }

    /** The next ticket goes to the end of its key's queue; a new key goes to the end of the rotation. */
    method AppendEntry(e: Entry)
      requires e.ticket == tickets + 1
      modifies this`tickets, this`queues, this`rotation
      ensures View() == Enqueue(old(View()), e)
    {
      if e.apiKeyId !in queues {
        rotation := rotation + [e.apiKeyId];
      }
      tickets := tickets + 1;
      queues := queues[e.apiKeyId := QueueOf(queues, e.apiKeyId) + [e]];
    }

    /** Hands a freed slot to the next key in the rotation. */
    method PromoteNext(last: Key, now: string) returns (grant: Option<Grant>)
      requires CanPromote(View())
      modifies this
      ensures (View(), grant) == Promote(old(View()), last, now)
    {
      if rotation == [] {
        return None;
      }
      if |rotation| > 1 && rotation[0] == last {
        rotation := rotation[1..] + [rotation[0]];
      }
      var key := rotation[0];
      rotation := rotation[1..];
      assert key in old(rotation);
      var entry := queues[key][0];
      var rest := queues[key][1..];
      if rest != [] {
        queues := queues[key := rest];
        rotation := rotation + [key];
      } else {
        queues := queues - {key};
      }
      epoch := epoch + 1;
      var pin := Admission(entry.requestId, key, LocalPrimary, Some(key), Some(now), Acquired, 0, epoch,
                           RoundRobinPromoted);
      owners := owners + [pin];
      pins := pins[entry.requestId := pin];
      grant := Some(Grant(entry, pin));
    }

    /** Releases any pin; `grant` is the promotion whose future the caller must then resolve. */
    method Release(r: RequestId, now: string) returns (released: bool, grant: Option<Grant>)
      requires Valid()
      modifies this
      ensures Valid() && (View(), released, grant) == Scheduler.Release(old(View()), r, now)
    {
      ReleaseKeepsInv(View(), r, now);
      InvImpliesCanPromote(View());
      hide Inv, Scheduler.Release;
      released, grant := ReleasePin(r, now);
    }

    method ReleasePin(r: RequestId, now: string) returns (released: bool, grant: Option<Grant>)
      requires CanPromote(View())
      modifies this
      ensures (View(), released, grant) == Scheduler.Release(old(View()), r, now)
    {
      hide WithoutRequest, Except, Promote, Withdraw;
      grant := None;
      released := r in pins;
      if released {
        var pin := pins[r];
        pins := pins - {r};
        assert View() == Unpin(old(View()), r);
        var i := OwnerAt(owners, r);
        if i >= 0 {
          grant := PassSlotOn(i, now);
        } else if pin.leaseState == Queued {
          LeaveQueue(pin.apiKeyId, r);
        }
      }
    }

    method PassSlotOn(i: nat, now: string) returns (grant: Option<Grant>)
      requires i < |owners| && CanPromote(View())
      modifies this
      ensures (View(), grant) == Promote(Vacate(old(View()), i), old(owners[i].apiKeyId), now)
    {
      var last := owners[i].apiKeyId;
      owners := owners[..i] + owners[i + 1..];
      grant := PromoteNext(last, now);
    }

    method LeaveQueue(key: Key, r: RequestId)
      modifies this`queues, this`rotation
      ensures View() == Withdraw(old(View()), key, r)
    {
      if key in queues {
        queues := queues[key := WithoutRequest(queues[key], r)];
        if queues[key] == [] {
          queues := queues - {key};
          rotation := Except(rotation, key);
        }
      }
    }
  }

  ghost predicate QueuesOrdered(s: State) {
    Fifo(s) && TicketsUnique(s.queues) && RequestsUnique(s.queues)
  }

  lemma EnqueueOrdered(s: State, e: Entry)
    requires Inv(s) && e.requestId !in s.pins && e.ticket == s.tickets + 1
    requires |QueueOf(s.queues, e.apiKeyId)| < s.limits.perKey
    ensures QueuesOrdered(Enqueue(s, e))
  {
    EnqueueFifo(s, e);
    EnqueueUnique(s, e);
    hide Inv, Fifo, TicketsUnique, RequestsUnique, Enqueue;
  }

  ghost predicate DistinctTickets(xs: seq<Entry>) {
    forall i, j :: 0 <= i < j < |xs| ==> xs[i].ticket != xs[j].ticket
  }

  lemma GatherQueue(s: State, rest: set<Key>, k: Key, all: seq<Entry>)
    requires Fifo(s) && TicketsUnique(s.queues) && k in rest && k in s.queues
    requires DistinctTickets(all)
    requires forall e :: e in all <==> Waits(s.queues, e) && e.apiKeyId !in rest
    ensures DistinctTickets(all + s.queues[k])
    ensures forall e :: e in all + s.queues[k] <==> Waits(s.queues, e) && e.apiKeyId !in rest - {k}
  {
    var q := s.queues[k];
    assert FifoOf(s, k);
    forall i, j | 0 <= i < |all| && 0 <= j < |q|
      ensures all[i].ticket != q[j].ticket
    {
      assert all[i] in all && Waits(s.queues, q[j]);
    }
    forall e
      ensures e in all + q <==> Waits(s.queues, e) && e.apiKeyId !in rest - {k}
    {
      assert e in all + q <==> e in all || e in q;
    }
  }

  ghost predicate Ascending(xs: seq<Entry>) {
    forall i, j :: 0 <= i < j < |xs| ==> xs[i].ticket < xs[j].ticket
  }

  function InsertByTicket(e: Entry, xs: seq<Entry>): seq<Entry> {
    if xs == [] || e.ticket < xs[0].ticket then [e] + xs else [xs[0]] + InsertByTicket(e, xs[1..])
  }

  function SortByTicket(xs: seq<Entry>): seq<Entry> {
    if xs == [] then [] else InsertByTicket(xs[0], SortByTicket(xs[1..]))
  }

  lemma {:induction false} InsertMembers(e: Entry, xs: seq<Entry>, d: Entry)
    ensures d in InsertByTicket(e, xs) <==> d == e || d in xs
  {
    if !(xs == [] || e.ticket < xs[0].ticket) {
      InsertMembers(e, xs[1..], d);
      assert d in xs <==> d == xs[0] || d in xs[1..];
    }
  }

  lemma {:induction false} InsertAscends(e: Entry, xs: seq<Entry>)
    requires Ascending(xs) && forall i :: 0 <= i < |xs| ==> xs[i].ticket != e.ticket
    ensures Ascending(InsertByTicket(e, xs))
  {
    if !(xs == [] || e.ticket < xs[0].ticket) {
      InsertAscends(e, xs[1..]);
      var rest := InsertByTicket(e, xs[1..]);
      forall j | 0 <= j < |rest|
        ensures xs[0].ticket < rest[j].ticket
      {
        InsertMembers(e, xs[1..], rest[j]);
      }
    }
  }

  lemma {:induction false} SortSorts(xs: seq<Entry>)
    requires DistinctTickets(xs)
    ensures Ascending(SortByTicket(xs))
    ensures forall d :: d in SortByTicket(xs) <==> d in xs
  {
    if xs != [] {
      var rest := SortByTicket(xs[1..]);
      SortSorts(xs[1..]);
      forall j | 0 <= j < |rest|
        ensures rest[j].ticket != xs[0].ticket
      {
        assert rest[j] in xs[1..];
      }
      InsertAscends(xs[0], rest);
      forall d
        ensures d in SortByTicket(xs) <==> d in xs
      {
        InsertMembers(xs[0], rest, d);
        assert d in xs <==> d == xs[0] || d in xs[1..];
      }
    }
  }
}
