/**
 * What one call of the scheduler answers and changes, written out case by case: which requests
 * get a slot, overflow, wait or are refused, and with which admission.
 */
module SchedulerAdmission {
  import opened Prelude
  import opened Scheduler
  import opened SchedulerInvariant
  import opened SchedulerRuns
  import opened SchedulerDrain

  /** A well-formed question about a request that has no pin. */
  ghost predicate Fresh(s: State, a: Scheduler.Ask) {
    && 1 <= |a.key| <= 32 && 'a' <= a.key[0] <= 'z'
    && (forall i :: 1 <= i < |a.key| ==>
          'a' <= a.key[i] <= 'z' || '0' <= a.key[i] <= '9' || a.key[i] == '_' || a.key[i] == '-')
    && 1 <= |a.request| <= 256 && a.request !in s.pins
  }

  /** Nothing but the pin of the request differs. */
  ghost predicate OnlyPin(s: State, t: State, r: RequestId, pin: Admission) {
    && t.pins == s.pins[r := pin]
    && t.limits == s.limits && t.owners == s.owners && t.queues == s.queues && t.rotation == s.rotation
    && t.tickets == s.tickets && t.epoch == s.epoch && t.localEnabled == s.localEnabled
  }

  lemma FreshIsValid(s: State, a: Scheduler.Ask)
    ensures Fresh(s, a) <==> ValidKey(a.key) && ValidRequest(a.request) && a.request !in s.pins
  {
  }

  /**
   * Without the local executor, whether the caller says so or the gate is closed, a new request
   * goes elsewhere if it may and is refused otherwise; slots and queues are left alone.
   */
  lemma NotLocal(s: State, a: Scheduler.Ask)
    requires Fresh(s, a) && (!a.local || !s.localEnabled)
    ensures var (t, out) := Admit(s, a);
            && (out.Admitted? <==> a.flash)
            && (a.flash ==>
                  && OnlyPin(s, t, a.request, out.admission)
                  && out.admission.requestId == a.request && out.admission.apiKeyId == a.key
                  && out.admission.selected == RemoteOverflow && out.admission.leaseState == Overflow
                  && out.admission.reason == LocalUnavailable
                  && out.admission.leaseOwner == (if s.owners == [] then None else Some(s.owners[0].apiKeyId))
                  && out.admission.acquiredAt == Some(a.now) && out.admission.queuePosition == 0
                  && out.admission.epoch == s.epoch)
            && (!a.flash ==> t == s && out == Refused(LocalIsUnavailable))
  {
  }

  /** While a slot is free, a new request gets it, whatever its risk, with the next epoch. */
  lemma FreeSlot(s: State, a: Scheduler.Ask)
    requires Inv(s) && Fresh(s, a) && a.local && s.localEnabled && |s.owners| < s.limits.capacity
    ensures var (t, out) := Admit(s, a);
            && out.Admitted?
            && out.admission == Admission(a.request, a.key, LocalPrimary, Some(a.key), Some(a.now), Acquired, 0,
                                          s.epoch + 1, LocalIdle)
            && t == s.(owners := s.owners + [out.admission], epoch := s.epoch + 1,
                       pins := s.pins[a.request := out.admission])
  {
    WithinTotal(s);
    hide Inv;
  }

  /** All slots taken and the queue full: a request of low risk goes elsewhere if it may. */
  lemma FullOverflow(s: State, a: Scheduler.Ask)
    requires Inv(s) && Fresh(s, a) && a.local && s.localEnabled && |s.owners| == s.limits.capacity
    requires a.risk != High && a.risk != Critical && a.flash && Total(s.queues) == s.limits.total
    ensures var (t, out) := Admit(s, a);
            && out.Admitted? && OnlyPin(s, t, a.request, out.admission)
            && out.admission.requestId == a.request && out.admission.apiKeyId == a.key
            && out.admission.selected == RemoteOverflow && out.admission.leaseState == Overflow
            && out.admission.leaseOwner == Some(s.owners[0].apiKeyId)
            && out.admission.acquiredAt == Some(a.now) && out.admission.queuePosition == 0
            && out.admission.epoch == s.epoch
            && (out.admission.reason == SameKeyOverflow <==> exists o :: o in s.owners && o.apiKeyId == a.key)
            && (out.admission.reason == CrossKeyOverflow <==> forall o :: o in s.owners ==> o.apiKeyId != a.key)
  {
    Basics(s);
    hide Inv;
    if OwnsSlot(s.owners, a.key) {
      var i :| 0 <= i < |s.owners| && s.owners[i].apiKeyId == a.key;
      assert s.owners[i] in s.owners;
    }
  }

  /** All slots taken, no room in the queue, and no other place to go. */
  lemma FullRefused(s: State, a: Scheduler.Ask)
    requires Inv(s) && Fresh(s, a) && a.local && s.localEnabled && |s.owners| == s.limits.capacity
    requires (a.key in s.queues && |s.queues[a.key]| >= s.limits.perKey) || Total(s.queues) == s.limits.total
    requires a.risk == High || a.risk == Critical || !a.flash || Total(s.queues) < s.limits.total
    ensures Admit(s, a) ==
            (s, Refused(if a.risk == High || a.risk == Critical then HighRiskQueueFull else LocalQueueFull))
  {
    Basics(s);
    hide Inv;
  }

  // ---------------------------------------------------------------- joining the queue

  lemma {:induction false} DistinctCount(xs: seq<Entry>)
    requires forall i, j :: 0 <= i < j < |xs| ==> xs[i].ticket < xs[j].ticket
    ensures |set e | e in xs| == |xs|
  {
    if xs != [] {
      var n := |xs| - 1;
      DistinctCount(xs[..n]);
      assert (set e | e in xs) == (set e | e in xs[..n]) + {xs[n]};
      assert forall e :: e in xs[..n] ==> e.ticket < xs[n].ticket;
    } else {
      assert (set e | e in xs) == {};
    }
  }

  lemma WaitingSplit(q: Queues, k: Key)
    requires k in q && forall i :: 0 <= i < |q[k]| ==> q[k][i].apiKeyId == k
    ensures WaitingSet(q) == WaitingSet(q - {k}) + set e | e in q[k]
    ensures WaitingSet(q - {k}) !! set e | e in q[k]
  {
    var rest, own := q - {k}, set e | e in q[k];
    forall e
      ensures e in WaitingSet(q) <==> e in WaitingSet(rest) || e in own
    {
      assert e in WaitingSet(q) <==> e.apiKeyId in q && e in q[e.apiKeyId];
      assert e in WaitingSet(rest) <==> e.apiKeyId in rest && e in rest[e.apiKeyId];
    }
  }

  /** There are as many waiting requests as the queues are long. */
  lemma {:induction false} WaitingCount(q: Queues)
    requires forall k, i :: k in q && 0 <= i < |q[k]| ==> q[k][i].apiKeyId == k
    requires forall k, i, j :: k in q && 0 <= i < j < |q[k]| ==> q[k][i].ticket < q[k][j].ticket
    ensures |WaitingSet(q)| == Total(q)
    decreases |q|
  {
    if q == map[] {
      assert WaitingSet(q) == {};
    } else {
      var k :| k in q;
      var rest := q - {k};
      assert rest.Keys == q.Keys - {k};
      TotalWithout(q, k);
      WaitingCount(rest);
      DistinctCount(q[k]);
      WaitingSplit(q, k);
      hide WaitingSet, Total;
    }
  }

  lemma FifoCount(s: State)
    requires Fifo(s)
    ensures |WaitingSet(s.queues)| == Total(s.queues)
  {
    forall k, i | k in s.queues && 0 <= i < |s.queues[k]|
      ensures s.queues[k][i].apiKeyId == k
    {
      assert FifoOf(s, k);
    }
    forall k, i, j | k in s.queues && 0 <= i < j < |s.queues[k]|
      ensures s.queues[k][i].ticket < s.queues[k][j].ticket
    {
      assert FifoOf(s, k);
    }
    WaitingCount(s.queues);
  }

  /** Whoever has the newest ticket is shown at the last position. */
  lemma NewestIsLast(t: State, e: Entry)
    requires Fifo(t) && RequestsUnique(t.queues) && Waits(t.queues, e) && e.ticket == t.tickets
    ensures Position(t.queues, e.requestId) == Total(t.queues)
  {
    FifoCount(t);
    var d :| Waits(t.queues, d) && d.requestId == e.requestId && Position(t.queues, e.requestId) == Rank(t.queues, d);
    assert d == e;
    forall x | x in WaitingSet(t.queues)
      ensures x.ticket <= e.ticket
    {
      assert FifoOf(t, x.apiKeyId);
    }
    assert (set x | x in WaitingSet(t.queues) && x.ticket <= e.ticket) == WaitingSet(t.queues);
  }

  /**
   * All slots taken and room in the queue: the request waits at the end of its key's queue with
   * the next ticket, is shown behind everybody who waits, and a new key comes last in the rotation.
   */
  lemma JoinsQueue(s: State, a: Scheduler.Ask)
    requires Inv(s) && Fresh(s, a) && a.local && s.localEnabled && |s.owners| == s.limits.capacity
    requires Total(s.queues) < s.limits.total && (a.key in s.queues ==> |s.queues[a.key]| < s.limits.perKey)
    ensures var (t, out) := Admit(s, a);
            && out.Waiting? && out.entry == Ticketed(a.request, a.key, s.tickets + 1)
            && out.queued == Admission(a.request, a.key, LocalPrimary, Some(s.owners[0].apiKeyId), None, Queued,
                                       Total(s.queues) + 1, s.epoch,
                                       if a.risk == High || a.risk == Critical then HighRiskLocalOnly
                                       else LocalBusyQueue)
            && t.queues == s.queues[a.key := (if a.key in s.queues then s.queues[a.key] else []) + [out.entry]]
            && t.rotation == (if a.key in s.queues then s.rotation else s.rotation + [a.key])
            && t.tickets == s.tickets + 1 && t.pins == s.pins[a.request := out.queued]
            && t.owners == s.owners && t.epoch == s.epoch && t.localEnabled == s.localEnabled
  {
    Basics(s);
    QueuedLast(s, a);
    hide Inv, Fifo, FifoOf, RotationExact, CanPromote, Position, Total, LimitsPositive, WorkConserving;
  }

  lemma QueuedLast(s: State, a: Scheduler.Ask)
    requires Inv(s) && a.request !in s.pins && Total(s.queues) < s.limits.total
    requires |QueueOf(s.queues, a.key)| < s.limits.perKey
    ensures Position(Enqueue(s, Ticketed(a.request, a.key, s.tickets + 1)).queues, a.request) == Total(s.queues) + 1
  {
    var e := Ticketed(a.request, a.key, s.tickets + 1);
    var t := Enqueue(s, e);
    EnqueueFifo(s, e);
    EnqueueUnique(s, e);
    TotalUpdate(s.queues, a.key, QueueOf(s.queues, a.key) + [e]);
    assert t.queues[a.key][|t.queues[a.key]| - 1] == e;
    hide Inv, Fifo, FifoOf, RequestsUnique, TicketsUnique, Position, Total;
    NewestIsLast(t, e);
  }

  // ---------------------------------------------------------------- pinned and malformed requests

  /** What is asked about a request that has a pin, and about malformed ones, never changes anything. */
  lemma NotFresh(s: State, a: Scheduler.Ask)
    requires !Fresh(s, a)
    ensures Admit(s, a).0 == s
    ensures !ValidKey(a.key) ==> Admit(s, a).1 == Refused(InvalidKey)
    ensures ValidKey(a.key) && !(1 <= |a.request| <= 256) ==> Admit(s, a).1 == Refused(InvalidRequest)
    ensures ValidKey(a.key) && 1 <= |a.request| <= 256 ==>
              && a.request in s.pins
              && var pin := s.pins[a.request];
                 && (pin.apiKeyId != a.key ==> Admit(s, a).1 == Refused(BelongsToAnotherKey))
                 && (pin.apiKeyId == a.key && pin.leaseState == Queued ==> Admit(s, a).1 == Refused(AlreadyQueued))
                 && (pin.apiKeyId == a.key && pin.leaseState != Queued ==> Admit(s, a).1 == Outcome.Admitted(pin))
  {
    FreshIsValid(s, a);
  }

  // ---------------------------------------------------------------- release

  /** The answer of a release says whether the request was pinned, and an unknown one changes nothing. */
  lemma ReleaseAnswers(s: State, r: RequestId, now: string)
    requires Inv(s) && CanPromote(s)
    ensures var (t, released, grant) := Release(s, r, now);
            && (released <==> r in s.pins)
            && (r !in s.pins ==> t == s && grant == None)
            && r !in t.pins
            && t.limits == s.limits && t.localEnabled == s.localEnabled && t.tickets == s.tickets
  {
    if r in s.pins { OwnerOrNot(s, r); }
    Basics(s);
    hide Inv, Withdraw, Turn;
    if r in s.pins && OwnerAt(s.owners, r) >= 0 {
      ReleasePins(s, r, now);
    }
  }

  lemma ReleasePins(s: State, r: RequestId, now: string)
    requires Inv(s) && r in s.pins && OwnerAt(s.owners, r) >= 0
    ensures CanPromote(s) && r !in Release(s, r, now).0.pins
  {
    GrantIs(s, r, now);
    if s.queues != map[] {
      var e := Release(s, r, now).2.value.entry;
      hide Release;
      assert e.requestId != r;
    }
    hide Inv;
  }

  lemma HeadFacts(s: State, k: Key)
    requires Inv(s) && k in s.rotation
    ensures k in s.queues && s.queues[k] != []
    ensures s.queues[k][0].apiKeyId == k && s.queues[k][0].requestId in s.pins
    ensures s.pins[s.queues[k][0].requestId].leaseState == Queued
  {
    assert FifoOf(s, k);
    assert Waits(s.queues, s.queues[k][0]);
  }

  lemma PromoteShape(s: State, last: Key, now: string)
    requires CanPromote(s)
    ensures s.rotation == [] ==> Promote(s, last, now) == (s, None)
    ensures s.rotation != [] ==>
              var k := if |s.rotation| > 1 && s.rotation[0] == last then s.rotation[1] else s.rotation[0];
              && k in s.rotation && k in s.queues && s.queues[k] != []
              && var (t, grant) := Promote(s, last, now);
                 var pin := Promoted(s.queues[k][0].(apiKeyId := k), s.epoch + 1, now);
                 && grant == Some(Grant(s.queues[k][0], pin))
                 && t.owners == s.owners + [pin] && t.epoch == s.epoch + 1 && t.pins == s.pins[pin.requestId := pin]
  {
  }

  lemma ReleaseIsPromote(s: State, r: RequestId, now: string)
    requires CanPromote(s) && r in s.pins && OwnerAt(s.owners, r) >= 0
    ensures var i := OwnerAt(s.owners, r);
            var v := Vacate(Unpin(s, r), i);
            && CanPromote(v) && v.rotation == s.rotation && v.queues == s.queues && v.epoch == s.epoch
            && v.owners == s.owners[..i] + s.owners[i + 1..] && v.pins == s.pins - {r}
            && var (t, grant) := Promote(v, s.owners[i].apiKeyId, now); Release(s, r, now) == (t, true, grant)
  {
    hide Promote;
  }

  lemma GrantBasics(s: State, r: RequestId)
    requires Inv(s) && OwnerAt(s.owners, r) >= 0
    ensures CanPromote(s) && OwnerAt(s.owners, r) < |s.owners| && (s.rotation == [] <==> s.queues == map[])
  {
    Basics(s);
    NoRotationNoQueue(s);
    hide Inv;
  }

  lemma PromotedHead(e: Entry, k: Key, epoch: nat, now: string)
    requires e.apiKeyId == k
    ensures Promoted(e.(apiKeyId := k), epoch, now) ==
            Admission(e.requestId, e.apiKeyId, LocalPrimary, Some(e.apiKeyId), Some(now), Acquired, 0, epoch,
                      RoundRobinPromoted)
  {
    assert e.(apiKeyId := k) == e;
  }

  /**
   * The admission that a released slot is handed over with: the oldest request of the served key
   * gets the next epoch, and the other owners keep their slots. The served key is the first of the
   * rotation, or the second if the first is the one that releases and another key waits.
   */
  lemma GrantIs(s: State, r: RequestId, now: string)
    requires Inv(s) && r in s.pins && OwnerAt(s.owners, r) >= 0
    ensures CanPromote(s)
    ensures var (t, released, grant) := Release(s, r, now);
            var i := OwnerAt(s.owners, r);
            var others := s.owners[..i] + s.owners[i + 1..];
            && (s.queues == map[] ==>
                  grant == None && t.owners == others && t.epoch == s.epoch && t.pins == s.pins - {r})
            && (s.queues != map[] ==>
                  && grant.Some? && s.rotation != []
                  && var e := grant.value.entry;
                     && e.apiKeyId == (if |s.rotation| > 1 && s.rotation[0] == s.owners[i].apiKeyId
                                       then s.rotation[1] else s.rotation[0])
                     && e.apiKeyId in s.queues && s.queues[e.apiKeyId] != [] && e == s.queues[e.apiKeyId][0]
                     && e.requestId in s.pins && s.pins[e.requestId].leaseState == Queued
                     && grant.value.admission ==
                        Admission(e.requestId, e.apiKeyId, LocalPrimary, Some(e.apiKeyId), Some(now), Acquired, 0,
                                  s.epoch + 1, RoundRobinPromoted)
                     && t.owners == others + [grant.value.admission] && t.epoch == s.epoch + 1
                     && t.pins == (s.pins - {r})[e.requestId := grant.value.admission])
  {
    GrantBasics(s, r);
    hide Inv, Fifo, RotationExact, CanPromote, Promote, Release, Vacate, Unpin, OwnerAt, Promoted;
    var i := OwnerAt(s.owners, r);
    ReleaseIsPromote(s, r, now);
    PromoteShape(Vacate(Unpin(s, r), i), s.owners[i].apiKeyId, now);
    if s.rotation != [] {
      var k := if |s.rotation| > 1 && s.rotation[0] == s.owners[i].apiKeyId then s.rotation[1] else s.rotation[0];
      HeadFacts(s, k);
      PromotedHead(s.queues[k][0], k, s.epoch + 1, now);
    }
  }

  // ---------------------------------------------------------------- looking up a pin

  /** What is shown for a pin: a queued request with the present owner, its place in line and the present epoch. */
  lemma PinShown(s: State, r: RequestId)
    requires Inv(s)
    ensures r !in s.pins ==> CurrentPin(s, r) == None
    ensures r in s.pins && s.pins[r].leaseState != Queued ==> CurrentPin(s, r) == Some(s.pins[r])
    ensures r in s.pins && s.pins[r].leaseState == Queued ==>
              exists e :: Waits(s.queues, e) && e.requestId == r &&
                CurrentPin(s, r) ==
                Some(s.pins[r].(leaseOwner := if s.owners == [] then None else Some(s.owners[0].apiKeyId),
                                queuePosition := |set x | x in WaitingSet(s.queues) && x.ticket <= e.ticket|,
                                epoch := s.epoch))
  {
    if r in s.pins && s.pins[r].leaseState == Queued {
      assert PinBacked(s, r);
      var k := s.pins[r].apiKeyId;
      var i :| 0 <= i < |s.queues[k]| && s.queues[k][i].requestId == r;
      assert FifoOf(s, k);
      assert Waits(s.queues, s.queues[k][i]);
      hide Inv;
      var e :| Waits(s.queues, e) && e.requestId == r && Position(s.queues, r) == Rank(s.queues, e);
    }
  }
}
