/**
 * The asynchronous half of `acquire`: calls that wait on a future, give up, or are handed their
 * admission, interleaved with other callers' releases in any order.
 */
module SchedulerWaiters {
  import opened Prelude
  import opened Scheduler
  import opened SchedulerInvariant
  import opened SchedulerRuns
  import opened HandoverLedger

  type Calls = map<nat, Waiter<RequestId, Key, Admission>>

  type Holders = map<nat, Holder<RequestId, Admission>>

  /** `held` are the callers that received an admission and have not yet released it, by number. */
  datatype System = System(s: State, waiters: Calls, held: Holders, handed: nat)

  datatype Event =
    | Call(ask: Scheduler.Ask)
    | ResolveFuture(ticket: nat)
    | ReturnAdmission(ticket: nat)
    | GiveUp(ticket: nat, now: string)        // timeout or cancellation, in any phase
    | Finish(holder: nat, now: string)        // a caller releases the request it holds
    | ForeignRelease(request: RequestId, now: string) // `release` by anybody else
    | CallbackRaises(ticket: nat)             // `on_queued` fails before the wait begins

  function AwardOf(grant: Option<Grant>): Option<Award<RequestId, Key, Admission>> {
    if grant.Some? then Some(Award(grant.value.entry, grant.value.admission)) else None
  }

  ghost function React(sys: System, ev: Event): System
    requires Inv(sys.s)
  {
    match ev
    case Call(a) =>
      var (t, out) := Admit(sys.s, a);
      (match out
       case Admitted(pin) => HandedOut(sys.(s := t), a.request, pin)
       case Waiting(_, e) => sys.(s := t, waiters := sys.waiters[e.ticket := Waiter(e, Pending)])
       case Refused(_) => sys.(s := t))
    case ResolveFuture(n) =>
      sys.(waiters := ResolveCall(sys.waiters, n))
    case ReturnAdmission(n) =>
      if n in sys.waiters && sys.waiters[n].phase.Resolved? then
        HandedOut(sys.(waiters := sys.waiters - {n}), sys.waiters[n].place.requestId, sys.waiters[n].phase.grant)
      else sys
    case GiveUp(n, now) =>
      if n in sys.waiters then
        Freed(sys.(waiters := sys.waiters - {n}), sys.waiters[n].place.requestId, now)
      else sys
    case Finish(c, now) =>
      if c in sys.held then Freed(sys.(held := sys.held - {c}), sys.held[c].request, now) else sys
    case ForeignRelease(r, now) => Freed(sys, r, now)
    case CallbackRaises(n) => sys.(waiters := sys.waiters - {n})
  }

  ghost function HandedOut(sys: System, r: RequestId, pin: Admission): System {
    sys.(held := sys.held[sys.handed := Holder(r, pin)], handed := sys.handed + 1)
  }

  /** `release(r)`, and the promotion it causes reaches the promoted call. */
  ghost function Freed(sys: System, r: RequestId, now: string): System
    requires Inv(sys.s)
  {
    var (t, _, grant) := Release(sys.s, r, now);
    sys.(s := t, waiters := AwardWaiters(sys.waiters, AwardOf(grant)))
  }

  ghost function LedgerOf(sys: System): Ledger<RequestId, Key, Admission> {
    Ledger(sys.s.pins, WaitingSet(sys.s.queues), sys.s.tickets, sys.waiters, sys.held, sys.handed)
  }

  /** Every pin, hence every occupied slot, is in the hands of one caller or of one live call. */
  ghost predicate Accounted(sys: System) {
    Inv(sys.s) && Balanced(LedgerOf(sys))
  }

  /** The request is pinned for this key and is not queued, so `acquire` hands its admission out again. */
  ghost predicate Readmits(s: State, a: Scheduler.Ask) {
    && ValidKey(a.key) && ValidRequest(a.request)
    && a.request in s.pins && s.pins[a.request].apiKeyId == a.key && s.pins[a.request].leaseState != Queued
  }

  /**
   * What callers owe the scheduler: none asks again for a request that is already admitted, none
   * releases a pinned request that it does not hold, and `on_queued` does not fail.
   */
  ghost predicate Disciplined(sys: System, ev: Event) {
    match ev
    case Call(a) => !Readmits(sys.s, a)
    case ForeignRelease(r, _) => r !in sys.s.pins
    case CallbackRaises(n) => n !in sys.waiters
    case _ => true
  }

  lemma ReadmitsIff(s: State, a: Scheduler.Ask)
    ensures Readmits(s, a) <==> Admit(s, a).1.Admitted? && a.request in s.pins
  {
  }

  // ---------------------------------------------------------------- what the regions do to the ledger

  lemma ReleaseOwnersAndQueues(s: State, r: RequestId, now: string)
    requires Inv(s) && r in s.pins && OwnerAt(s.owners, r) >= 0
    ensures var (t, ok, grant) := Release(s, r, now);
            && (grant.Some? ==>
                  && Waits(s.queues, grant.value.entry)
                  && grant.value.admission == Promoted(grant.value.entry, s.epoch + 1, now))
            && (forall d :: Waits(t.queues, d) <==>
                  Waits(s.queues, d) && (grant.Some? ==> d != grant.value.entry))
            && t.tickets == s.tickets
            && t.pins == if grant.Some?
                         then (s.pins - {r})[grant.value.entry.requestId := grant.value.admission]
                         else s.pins - {r}
  {
    hide Inv;
    Basics(s);
    OwnerReleaseShape(s, r, now);
    if s.queues != map[] {
      var k := Turn(s.rotation, s.owners[OwnerAt(s.owners, r)].apiKeyId)[0];
      assert FifoOf(s, k);
      ShrinkWaits(s, k, 0);
      var e := s.queues[k][0];
      assert e.(apiKeyId := k) == e;
    }
    hide Fifo, FifoOf, RotationExact, CanPromote, Shrink;
  }

  lemma WaitsPinned(s: State, e: Entry)
    requires Inv(s) && Waits(s.queues, e)
    ensures e.requestId in s.pins && s.pins[e.requestId].leaseState == Queued
    ensures e.ticket <= s.tickets
  {
    OldTickets(s, e);
  }

  lemma ReleaseIsWithdraw(s: State, r: RequestId, now: string)
    requires Inv(s) && r in s.pins && s.pins[r].leaseState == Queued
    ensures CanPromote(s)
    ensures Release(s, r, now) == (Withdraw(Unpin(s, r), s.pins[r].apiKeyId, r), true, None)
  {
    OwnerOrNot(s, r);
    assert forall j :: 0 <= j < |s.owners| ==> s.owners[j] in s.owners && s.owners[j].leaseState == Acquired;
    Basics(s);
    hide Inv, Withdraw, CanPromote, RotationExact, Fifo;
  }

  lemma WithdrawWaits(s: State, r: RequestId)
    requires Inv(s) && r in s.pins && s.pins[r].leaseState == Queued
    ensures var t := Withdraw(Unpin(s, r), s.pins[r].apiKeyId, r);
            && t.pins == s.pins - {r} && t.tickets == s.tickets
            && forall d :: Waits(t.queues, d) <==> Waits(s.queues, d) && d.requestId != r
  {
    var i := WithdrawIsShrink(s, r);
    var k := s.pins[r].apiKeyId;
    assert FifoOf(s, k);
    ShrinkWaits(s, k, i);
    assert Waits(s.queues, s.queues[k][i]);
    assert RequestsUnique(s.queues);
    hide Inv, FifoOf, Fifo, Shrink;
  }

  lemma ReleaseQueued(s: State, r: RequestId, now: string)
    requires Inv(s) && r in s.pins && s.pins[r].leaseState == Queued
    ensures var (t, ok, grant) := Release(s, r, now);
            && grant == None && t.pins == s.pins - {r} && t.tickets == s.tickets
            && forall d :: Waits(t.queues, d) <==> Waits(s.queues, d) && d.requestId != r
  {
    ReleaseIsWithdraw(s, r, now);
    WithdrawWaits(s, r);
    hide Inv, Release, Withdraw, Waits;
  }

  /** All effects of a release on pins and queues. */
  lemma ReleaseFacts(s: State, r: RequestId, now: string)
    requires Inv(s)
    ensures var (t, ok, grant) := Release(s, r, now);
            && Inv(t) && t.tickets == s.tickets
            && (grant.Some? ==>
                  && Waits(s.queues, grant.value.entry) && grant.value.entry.requestId != r
                  && grant.value.admission == Promoted(grant.value.entry, s.epoch + 1, now))
            && t.pins == (if grant.Some?
                          then (s.pins - {r})[grant.value.entry.requestId := grant.value.admission]
                          else s.pins - {r})
            && (forall d :: Waits(t.queues, d) <==>
                  Waits(s.queues, d) && d.requestId != r && (grant.Some? ==> d != grant.value.entry))
  {
    ReleaseKeepsInv(s, r, now);
    forall d | Waits(s.queues, d)
      ensures d.requestId in s.pins && s.pins[d.requestId].leaseState == Queued
    {
      WaitsPinned(s, d);
    }
    if r in s.pins {
      OwnerOrNot(s, r);
      assert PinBacked(s, r);
      if OwnerAt(s.owners, r) >= 0 {
        ReleaseOwnersAndQueues(s, r, now);
        assert s.owners[OwnerAt(s.owners, r)] in s.owners;
        assert s.pins[r].leaseState == Acquired;
        hide Inv, Release;
      } else if s.pins[r].leaseState == Queued {
        ReleaseQueued(s, r, now);
        hide Inv, Release;
      } else {
        hide Inv;
      }
    } else {
      assert s.pins - {r} == s.pins;
      hide Inv;
    }
  }

  lemma AdmitFacts(s: State, a: Scheduler.Ask)
    requires Inv(s)
    ensures var (t, out) := Admit(s, a);
            && Inv(t)
            && match out
               case Refused(_) => t == s
               case Admitted(pin) =>
                 && t.queues == s.queues && t.tickets == s.tickets
                 && t.pins == s.pins[a.request := pin]
                 && (a.request in s.pins ==> s.pins[a.request] == pin)
               case Waiting(pin, e) =>
                 && a.request !in s.pins && t.pins == s.pins[a.request := pin]
                 && e.requestId == a.request && e.ticket == s.tickets + 1 == t.tickets
                 && forall d :: Waits(t.queues, d) <==> Waits(s.queues, d) || d == e
  {
    AdmitKeepsInv(s, a);
    Basics(s);
    hide Inv;
    var (t, out) := Admit(s, a);
    if out.Waiting? {
      EnqueueWaits(s, out.entry);
      hide Enqueue;
    } else if out.Admitted? && a.request in s.pins {
      assert s.pins[a.request := out.admission] == s.pins;
    }
  }

  // ---------------------------------------------------------------- the ledger follows the scheduler

  lemma WaitingSetMembers(s: State)
    ensures forall e :: e in WaitingSet(s.queues) <==> Waits(s.queues, e)
  {
  }

  lemma ReleaseLedger(sys: System, r: RequestId, now: string)
    requires Inv(sys.s)
    ensures var award := AwardOf(Release(sys.s, r, now).2);
            && Inv(Freed(sys, r, now).s)
            && AwardFits(LedgerOf(sys), r, award)
            && LedgerOf(Freed(sys, r, now)) == Released(LedgerOf(sys), r, award)
  {
    var s := sys.s;
    var t := Release(s, r, now).0;
    ReleaseFacts(s, r, now);
    WaitingSetMembers(s);
    WaitingSetMembers(t);
    hide Inv, Release, Waits, WaitingSet, AwardWaiters;
    assert WaitingSet(t.queues) == QueueLeft(WaitingSet(s.queues), r, AwardOf(Release(s, r, now).2));
  }

  lemma ReactCall(sys: System, a: Scheduler.Ask)
    requires Inv(sys.s)
    ensures var (t, out) := Admit(sys.s, a);
            React(sys, Call(a)) ==
            match out
            case Admitted(pin) => HandedOut(sys.(s := t), a.request, pin)
            case Waiting(_, e) => sys.(s := t, waiters := sys.waiters[e.ticket := Waiter(e, Pending)])
            case Refused(_) => sys.(s := t)
  {
    hide Inv, Admit;
  }

  lemma WaitsInSet(s: State, t: State, e: Entry)
    requires forall d :: Waits(t.queues, d) <==> Waits(s.queues, d) || d == e
    ensures WaitingSet(t.queues) == WaitingSet(s.queues) + {e}
  {
    WaitingSetMembers(s);
    WaitingSetMembers(t);
    hide Waits, WaitingSet;
  }

  lemma CallLedger(sys: System, a: Scheduler.Ask)
    requires Inv(sys.s)
    ensures var (t, out) := Admit(sys.s, a);
            var after := LedgerOf(React(sys, Call(a)));
            var before := LedgerOf(sys);
            && Inv(React(sys, Call(a)).s)
            && match out
               case Refused(_) => after == before
               case Admitted(pin) =>
                 && after == HandoverLedger.Admitted(before, a.request, pin)
                 && (a.request in before.pins ==> before.pins[a.request] == pin)
               case Waiting(pin, e) =>
                 && after == Enqueued(before, e, pin)
                 && e.requestId !in before.pins && e.ticket == before.tickets + 1
  {
    AdmitFacts(sys.s, a);
    ReactCall(sys, a);
    hide Inv, Admit, Waits, WaitingSet, React;
    var (t, out) := Admit(sys.s, a);
    if out.Waiting? {
      WaitsInSet(sys.s, t, out.entry);
    }
  }

  lemma CallBalance(sys: System, a: Scheduler.Ask)
    requires Accounted(sys)
    ensures Accounted(React(sys, Call(a))) <==> Disciplined(sys, Call(a))
  {
    var before := LedgerOf(sys);
    var out := Admit(sys.s, a).1;
    CallLedger(sys, a);
    ReadmitsIff(sys.s, a);
    LedgerFields(sys);
    hide Inv, Admit, Balanced, LedgerOf, Readmits;
    match out
    case Refused(_) =>
    case Admitted(pin) => AdmittedBalance(before, a.request, pin);
    case Waiting(pin, e) => EnqueuedBalance(before, e, pin);
  }

  lemma LedgerFields(sys: System)
    ensures var b := LedgerOf(sys);
            b.waiters == sys.waiters && b.held == sys.held && b.pins == sys.s.pins && b.handed == sys.handed
  {
  }

  lemma ReactGiveUp(sys: System, n: nat, now: string)
    requires Inv(sys.s) && n in sys.waiters
    ensures React(sys, GiveUp(n, now)) ==
            Freed(sys.(waiters := sys.waiters - {n}), sys.waiters[n].place.requestId, now)
    ensures LedgerOf(sys.(waiters := sys.waiters - {n})) == Leave(LedgerOf(sys), n)
  {
    hide Inv, Freed, WaitingSet;
  }

  lemma ReactFinish(sys: System, c: nat, now: string)
    requires Inv(sys.s) && c in sys.held
    ensures React(sys, Finish(c, now)) == Freed(sys.(held := sys.held - {c}), sys.held[c].request, now)
    ensures LedgerOf(sys.(held := sys.held - {c})) == Relinquish(LedgerOf(sys), c)
  {
    hide Inv, Freed, WaitingSet;
  }

  lemma ReactForeign(sys: System, r: RequestId, now: string)
    requires Inv(sys.s)
    ensures React(sys, ForeignRelease(r, now)) == Freed(sys, r, now)
  {
    hide Inv, Freed;
  }

  /** Once its caller is out of the way, a release keeps everything else accounted for. */
  lemma FreedBalance(sys: System, gone: System, r: RequestId, now: string)
    requires Accounted(sys) && gone.s == sys.s && LedgerOf(gone) == Forgotten(LedgerOf(sys), r)
    ensures Accounted(Freed(gone, r, now))
  {
    var award := AwardOf(Release(sys.s, r, now).2);
    hide Inv, Release, Balanced, LedgerOf, Forgotten, Freed, CanPromote, Fifo, RotationExact;
    ReleaseLedger(gone, r, now);
    ReleaseLedger(sys, r, now);
    ReleaseBalance(LedgerOf(sys), r, award);
  }

  /** Timeouts and cancellations are always safe, before, during and after a promotion. */
  lemma GiveUpBalance(sys: System, n: nat, now: string)
    requires Accounted(sys)
    ensures Accounted(React(sys, GiveUp(n, now)))
  {
    hide Inv, Balanced, LedgerOf, Freed, Forgotten;
    if n in sys.waiters {
      hide React;
      LedgerFields(sys);
      CallerIsAll(LedgerOf(sys), n);
      ReactGiveUp(sys, n, now);
      FreedBalance(sys, sys.(waiters := sys.waiters - {n}), sys.waiters[n].place.requestId, now);
    }
  }

  /** So is the release by a caller that holds its request. */
  lemma FinishBalance(sys: System, c: nat, now: string)
    requires Accounted(sys)
    ensures Accounted(React(sys, Finish(c, now)))
  {
    hide Inv, Balanced, LedgerOf, Freed, Forgotten;
    if c in sys.held {
      hide React;
      LedgerFields(sys);
      HolderIsAll(LedgerOf(sys), c);
      ReactFinish(sys, c, now);
      FreedBalance(sys, sys.(held := sys.held - {c}), sys.held[c].request, now);
    }
  }

  lemma ForeignBalance(sys: System, r: RequestId, now: string)
    requires Accounted(sys)
    ensures Accounted(React(sys, ForeignRelease(r, now))) <==> Disciplined(sys, ForeignRelease(r, now))
  {
    var award := AwardOf(Release(sys.s, r, now).2);
    LedgerFields(sys);
    ReactForeign(sys, r, now);
    hide Inv, Balanced, LedgerOf, React, CanPromote, Fifo, RotationExact;
    if r in sys.s.pins {
      hide Release, Freed;
      ReleaseLedger(sys, r, now);
      ForeignReleaseBreaks(LedgerOf(sys), r, award);
    } else {
      assert Freed(sys, r, now) == sys;
    }
  }

  lemma ResolveAccounted(sys: System, n: nat)
    requires Accounted(sys)
    ensures Accounted(React(sys, ResolveFuture(n)))
  {
    hide Inv, Balanced, WaitingSet;
    ResolveBalance(LedgerOf(sys), n);
  }

  lemma ReturnAccounted(sys: System, n: nat)
    requires Accounted(sys)
    ensures Accounted(React(sys, ReturnAdmission(n)))
  {
    hide Inv, Balanced, WaitingSet;
    ReturnBalance(LedgerOf(sys), n);
  }

  lemma RaiseBalance(sys: System, n: nat)
    requires Accounted(sys)
    ensures Accounted(React(sys, CallbackRaises(n))) <==> n !in sys.waiters
  {
    hide Inv, Balanced, WaitingSet;
    if n in sys.waiters {
      LeaveBreaks(LedgerOf(sys), n);
    } else {
      assert sys.waiters - {n} == sys.waiters;
    }
  }

  /**
   * The exact contract between the scheduler and its callers: an event keeps every pin and slot
   * accounted for if and only if it is disciplined.
   */
  lemma AccountedIffDisciplined(sys: System, ev: Event)
    requires Accounted(sys)
    ensures Accounted(React(sys, ev)) <==> Disciplined(sys, ev)
  {
    hide Inv, Balanced, LedgerOf, React, Readmits, Accounted;
    AccountedInv(sys);
    match ev
    case Call(a) => CallBalance(sys, a);
    case ResolveFuture(n) => ResolveAccounted(sys, n);
    case ReturnAdmission(n) => ReturnAccounted(sys, n);
    case GiveUp(n, now) => GiveUpBalance(sys, n, now);
    case Finish(c, now) => FinishBalance(sys, c, now);
    case ForeignRelease(r, now) => ForeignBalance(sys, r, now);
    case CallbackRaises(n) => RaiseBalance(sys, n);
  }

  lemma AccountedInv(sys: System)
    requires Accounted(sys)
    ensures Inv(sys.s)
  {
  }

  // ---------------------------------------------------------------- whole runs

  ghost function Start(limits: Limits): System {
    System(Initial(limits), map[], map[], 0)
  }

  /** All events of the run are disciplined in the state they happen in. */
  ghost predicate DisciplinedRun(sys: System, evs: seq<Event>)
    requires Accounted(sys)
    decreases |evs|
  {
    evs == [] ||
    (Disciplined(sys, evs[0]) &&
     (AccountedIffDisciplined(sys, evs[0]); DisciplinedRun(React(sys, evs[0]), evs[1..])))
  }

  ghost function After(sys: System, evs: seq<Event>): (t: System)
    requires Accounted(sys) && DisciplinedRun(sys, evs)
    ensures Accounted(t)
    decreases |evs|
  {
    if evs == [] then sys
    else AccountedIffDisciplined(sys, evs[0]); After(React(sys, evs[0]), evs[1..])
  }

  lemma StartAccounted(limits: Limits)
    requires limits.capacity >= 1 && limits.perKey >= 1 && limits.total >= 1
    ensures Accounted(Start(limits))
  {
    InitialInv(limits);
    hide Inv;
  }

  function OwnerSet(owners: seq<Admission>): (r: set<Admission>)
    ensures |r| <= |owners|
    ensures forall o :: o in owners ==> o in r
  {
    if owners == [] then {} else {owners[0]} + OwnerSet(owners[1..])
  }

  ghost predicate HoldsSlot(sys: System, c: nat) {
    c in sys.held && sys.held[c].admission.leaseState == Acquired
  }

  lemma HolderOwns(sys: System, c: nat)
    requires Accounted(sys) && HoldsSlot(sys, c)
    ensures sys.held[c].admission in sys.s.owners && sys.held[c].admission.requestId == sys.held[c].request
  {
    assert HeldSound(LedgerOf(sys));
    assert PinBacked(sys.s, sys.held[c].request);
  }

  /** At most `capacity` callers hold a local admission, and each of them owns a slot of its own. */
  lemma NoOverAdmission(sys: System)
    requires Accounted(sys)
    ensures forall c :: HoldsSlot(sys, c) ==> sys.held[c].admission in sys.s.owners
    ensures forall c, d :: HoldsSlot(sys, c) && HoldsSlot(sys, d) && c != d ==>
              sys.held[c].admission != sys.held[d].admission
    ensures |set c | c in sys.held && HoldsSlot(sys, c)| <= sys.s.limits.capacity
  {
    var holders := set c | c in sys.held && HoldsSlot(sys, c);
    forall c | HoldsSlot(sys, c)
      ensures sys.held[c].admission in sys.s.owners && sys.held[c].admission.requestId == sys.held[c].request
    {
      HolderOwns(sys, c);
    }
    assert OneHolderEach(LedgerOf(sys).held);
    Basics(sys.s);
    hide Inv, Balanced, Fifo, RotationExact, CanPromote;
    DistinctImages(holders, sys.held, OwnerSet(sys.s.owners));
  }

  lemma {:induction false} DistinctImages(cs: set<nat>, held: Holders, images: set<Admission>)
    requires forall c :: c in cs ==> c in held && held[c].admission in images
    requires forall c, d :: c in cs && d in cs && c != d ==> held[c].admission != held[d].admission
    ensures |cs| <= |images|
  {
    if cs != {} {
      var c :| c in cs;
      DistinctImages(cs - {c}, held, images - {held[c].admission});
    }
  }

  /** Once every call has returned or given up and every holder has released, the scheduler is idle. */
  lemma IdleWhenQuiet(sys: System)
    requires Accounted(sys) && sys.waiters == map[] && sys.held == map[]
    ensures sys.s.pins == map[] && sys.s.owners == [] && sys.s.queues == map[]
  {
    Quiescent(LedgerOf(sys));
    OwnersHavePins(sys.s);
    NoOwnerQueue(sys.s);
    hide Inv, Balanced;
  }

  lemma OwnersHavePins(s: State)
    requires Inv(s)
    ensures s.owners != [] ==> s.owners[0].requestId in s.pins
  {
    assert s.owners != [] ==> s.owners[0] in s.owners;
  }

  lemma NoOwnerQueue(s: State)
    requires Inv(s)
    ensures s.owners == [] ==> s.queues == map[]
  {
  }

  // ---------------------------------------------------------------- what a breach costs

  ghost predicate Names(sys: System, ev: Event, r: RequestId) {
    match ev
    case Call(a) => a.request == r
    case Finish(c, _) => c in sys.held && sys.held[c].request == r
    case ForeignRelease(x, _) => x == r
    case GiveUp(n, _) => n in sys.waiters && sys.waiters[n].place.requestId == r
    case _ => false
  }

  ghost predicate Abandoned(sys: System, r: RequestId) {
    r in sys.s.pins && !HeldBy(sys.held, r) && !AwaitedIn(sys.waiters, r)
  }

  /** If `on_queued` raises, the request stays pinned although nobody is left to release it. */
  lemma CallbackFailureAbandons(sys: System, n: nat)
    requires Accounted(sys) && n in sys.waiters
    ensures Abandoned(React(sys, CallbackRaises(n)), sys.waiters[n].place.requestId)
  {
    var b := LedgerOf(sys);
    var r := sys.waiters[n].place.requestId;
    assert Awaited(b, r);
    AwaitedPinned(b, r);
    NotHeldTwice(b, n);
    LeaveAwaited(b.waiters, n, r);
    hide Inv;
  }

  ghost predicate Spares(sys: System, evs: seq<Event>, r: RequestId)
    requires Inv(sys.s)
    decreases |evs|
  {
    evs == [] || (!Names(sys, evs[0], r) && (ReactKeepsInv(sys, evs[0]); Spares(React(sys, evs[0]), evs[1..], r)))
  }

  lemma ReactKeepsInv(sys: System, ev: Event)
    requires Inv(sys.s)
    ensures Inv(React(sys, ev).s)
  {
    match ev
    case Call(a) => AdmitKeepsInv(sys.s, a); hide Inv, Admit;
    case GiveUp(n, now) => if n in sys.waiters { ReleaseKeepsInv(sys.s, sys.waiters[n].place.requestId, now); }
    case Finish(c, now) => if c in sys.held { ReleaseKeepsInv(sys.s, sys.held[c].request, now); }
    case ForeignRelease(r, now) => ReleaseKeepsInv(sys.s, r, now);
    case _ =>
  }

  ghost function Continue(sys: System, evs: seq<Event>): (t: System)
    requires Inv(sys.s)
    ensures Inv(t.s)
    decreases |evs|
  {
    if evs == [] then sys else ReactKeepsInv(sys, evs[0]); Continue(React(sys, evs[0]), evs[1..])
  }

  lemma PinSurvives(sys: System, ev: Event, r: RequestId)
    requires Inv(sys.s) && r in sys.s.pins && !Names(sys, ev, r)
    ensures r in React(sys, ev).s.pins
    ensures sys.s.pins[r].leaseState == Acquired ==> React(sys, ev).s.pins[r] == sys.s.pins[r]
  {
    match ev
    case Call(a) => AdmitFacts(sys.s, a); hide Inv, Admit;
    case GiveUp(n, now) =>
      if n in sys.waiters { ReleaseSpares(sys.s, sys.waiters[n].place.requestId, r, now); }
    case Finish(c, now) =>
      if c in sys.held { ReleaseSpares(sys.s, sys.held[c].request, r, now); }
    case ForeignRelease(x, now) => ReleaseSpares(sys.s, x, r, now);
    case _ =>
  }

  lemma ReleaseSpares(s: State, x: RequestId, r: RequestId, now: string)
    requires Inv(s) && r in s.pins && x != r
    ensures var t := Release(s, x, now).0;
            r in t.pins && (s.pins[r].leaseState == Acquired ==> t.pins[r] == s.pins[r])
  {
    ReleaseFacts(s, x, now);
    var grant := Release(s, x, now).2;
    if grant.Some? { WaitsPinned(s, grant.value.entry); }
    hide Inv, Release, Waits;
  }

  /** An abandoned request never goes away; once it has been promoted, its slot is lost for good. */
  lemma {:induction false} AbandonedForever(sys: System, evs: seq<Event>, r: RequestId)
    requires Inv(sys.s) && r in sys.s.pins && Spares(sys, evs, r)
    ensures r in Continue(sys, evs).s.pins
    ensures sys.s.pins[r].leaseState == Acquired ==>
              sys.s.pins[r] in Continue(sys, evs).s.owners
    decreases |evs|
  {
    assert PinBacked(sys.s, r);
    hide Inv, React;
    if evs != [] {
      PinSurvives(sys, evs[0], r);
      ReactKeepsInv(sys, evs[0]);
      AbandonedForever(React(sys, evs[0]), evs[1..], r);
    }
  }

  /** A call whose request has been released by somebody else; its future will never resolve. */
  ghost predicate Stale(sys: System, n: nat) {
    n in sys.waiters && sys.waiters[n].place.requestId !in sys.s.pins
  }

  lemma ForeignReleaseLeavesStale(sys: System, n: nat, now: string)
    requires Accounted(sys) && n in sys.waiters
    ensures Stale(React(sys, ForeignRelease(sys.waiters[n].place.requestId, now)), n)
  {
    var r := sys.waiters[n].place.requestId;
    hide Balanced, LedgerOf, React;
    ReactForeign(sys, r, now);
    FreedPinGone(sys, r, now);
    hide Inv, Freed;
  }

  lemma AwardPlaces(ws: Calls, award: Option<Award<RequestId, Key, Admission>>)
    ensures AwardWaiters(ws, award).Keys == ws.Keys
    ensures forall n :: n in ws ==> AwardWaiters(ws, award)[n].place == ws[n].place
  {
  }

  lemma FreedPinGone(sys: System, r: RequestId, now: string)
    requires Inv(sys.s)
    ensures var t := Freed(sys, r, now);
            && Inv(t.s) && r !in t.s.pins && t.held == sys.held && t.handed == sys.handed
            && t.waiters.Keys == sys.waiters.Keys
            && forall n :: n in sys.waiters ==> t.waiters[n].place == sys.waiters[n].place
  {
    ReleasedPinGone(sys.s, r, now);
    AwardPlaces(sys.waiters, AwardOf(Release(sys.s, r, now).2));
    hide Inv, Release, CanPromote, Fifo, RotationExact, AwardWaiters, AwardOf;
  }

  lemma ReleasedPinGone(s: State, r: RequestId, now: string)
    requires Inv(s)
    ensures CanPromote(s) && r !in Release(s, r, now).0.pins && Inv(Release(s, r, now).0)
  {
    Basics(s);
    ReleaseFacts(s, r, now);
    hide Inv, Release, Waits, CanPromote, RotationExact, Fifo;
  }

  lemma AdmittedIsPinned(s: State, a: Scheduler.Ask)
    requires Inv(s) && Admit(s, a).1.Admitted?
    ensures a.request in Admit(s, a).0.pins && Inv(Admit(s, a).0)
  {
    AdmitFacts(s, a);
    hide Inv, Admit;
  }

  lemma AdmittedCall(sys: System, a: Scheduler.Ask)
    requires Inv(sys.s) && Admit(sys.s, a).1.Admitted?
    ensures React(sys, Call(a)) == HandedOut(sys.(s := Admit(sys.s, a).0), a.request, Admit(sys.s, a).1.admission)
  {
    hide Inv, Admit;
  }

  /** If the same request is admitted anew, the stale call's timeout takes that admission away. */
  lemma StaleTimeoutTakesLease(sys: System, n: nat, a: Scheduler.Ask, now: string)
    requires Inv(sys.s) && Stale(sys, n) && a.request == sys.waiters[n].place.requestId
    requires Admit(sys.s, a).1.Admitted?
    ensures var t := React(sys, Call(a));
            && Inv(t.s) && HoldsFrom(sys, t, a.request) && a.request in t.s.pins
            && var u := React(t, GiveUp(n, now));
               HoldsFrom(sys, u, a.request) && a.request !in u.s.pins
  {
    AdmittedIsPinned(sys.s, a);
    AdmittedCall(sys, a);
    hide Admit;
    var t := React(sys, Call(a));
    ReactGiveUp(t, n, now);
    FreedPinGone(t.(waiters := t.waiters - {n}), a.request, now);
    hide Inv, React, Freed;
  }

  /** The caller that was handed something next after `sys` holds `r`. */
  ghost predicate HoldsFrom(sys: System, t: System, r: RequestId) {
    sys.handed in t.held && t.held[sys.handed].request == r
  }

  /**
   * Asking again for a held request gives two callers one slot; when the first of them releases
   * it, the second still holds an admission that owns nothing.
   */
  lemma SecondHolderLosesSlot(sys: System, c: nat, a: Scheduler.Ask, now: string)
    requires Accounted(sys) && c in sys.held && a.request == sys.held[c].request && Readmits(sys.s, a)
    ensures Inv(sys.s)
    ensures var t := React(sys, Call(a));
            && Inv(t.s) && t.s == sys.s && HoldsFrom(sys, t, a.request)
            && c in t.held && t.held[sys.handed].admission == t.held[c].admission
            && var u := React(t, Finish(c, now));
               HoldsFrom(sys, u, a.request) && a.request !in u.s.pins
  {
    HolderPinned(sys, c);
    ReadmitsIff(sys.s, a);
    AdmittedCall(sys, a);
    ReadmittedSame(sys.s, a);
    hide Balanced, LedgerOf, Readmits, Admit, Accounted;
    var t := React(sys, Call(a));
    ReactFinish(t, c, now);
    FreedPinGone(t.(held := t.held - {c}), a.request, now);
    hide Inv, Release, React, Freed;
  }

  lemma ReadmittedSame(s: State, a: Scheduler.Ask)
    requires Readmits(s, a)
    ensures Admit(s, a) == (s, Outcome.Admitted(s.pins[a.request]))
  {
  }

  lemma HolderPinned(sys: System, c: nat)
    requires Accounted(sys) && c in sys.held
    ensures c < sys.handed && sys.held[c].request in sys.s.pins
    ensures sys.s.pins[sys.held[c].request] == sys.held[c].admission
  {
    hide Inv;
    assert HeldSound(LedgerOf(sys));
  }
}
