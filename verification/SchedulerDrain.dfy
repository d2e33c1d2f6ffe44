/** Manual draining (set_executor_enabled), the published queue position, and risk routing. */
module SchedulerDrain {
  import opened Prelude
  import opened Scheduler
  import opened SchedulerInvariant
  import opened SchedulerRuns

  /** Requests that hold or wait for a local slot. */
  ghost function Local(s: State): nat {
    |s.owners| + Total(s.queues)
  }

  /** What the drain task polls for: the snapshot shows no owner and nothing queued. */
  ghost predicate Drained(s: State) {
    s.owners == [] && Total(s.queues) == 0
  }

  /** A release that concerns an owner or a queued request, as opposed to a remote pin or nothing. */
  ghost predicate IsLocalRelease(s: State, step: Step) {
    step.Drop? && step.request in s.pins && s.pins[step.request].selected == LocalPrimary
  }

  ghost predicate StaysDisabled(steps: seq<Step>) {
    forall i :: 0 <= i < |steps| ==> steps[i] != Gate(true)
  }

  ghost function LocalReleases(s: State, steps: seq<Step>): nat
    requires Inv(s)
    decreases |steps|
  {
    if steps == [] then 0
    else (if IsLocalRelease(s, steps[0]) then 1 else 0) + LocalReleases(Next(s, steps[0]), steps[1..])
  }

  /** While local admission is off, an attempt leaves owners and queues alone and is never local. */
  lemma DisabledAdmit(s: State, a: Scheduler.Ask)
    requires !s.localEnabled
    ensures var (t, out) := Admit(s, a);
            && t.owners == s.owners && t.queues == s.queues && t.localEnabled == s.localEnabled
            && !out.Waiting?
            && (out.Admitted? && a.request !in s.pins ==> out.admission.selected == RemoteOverflow)
  {
  }

  lemma LocalDrop(s: State, r: RequestId, now: string)
    requires Inv(s)
    ensures Local(Release(s, r, now).0)
         == Local(s) - (if r in s.pins && s.pins[r].selected == LocalPrimary then 1 else 0)
    ensures Release(s, r, now).0.localEnabled == s.localEnabled
  {
    if r in s.pins {
      OwnerOrNot(s, r);
      assert PinBacked(s, r);
      if OwnerAt(s.owners, r) >= 0 {
        ReleaseOwnerKeeps(s, r, now);
        assert s.owners[OwnerAt(s.owners, r)] in s.owners;
        hide Inv, Total, Promote;
      } else if s.pins[r].leaseState == Queued {
        WithdrawKeeps(s, r);
        hide Inv, Total;
      }
    }
  }

  /** One step of a drain: exactly the local releases make progress, and nothing undoes it. */
  lemma DrainStep(s: State, step: Step)
    requires Inv(s) && !s.localEnabled && step != Gate(true)
    ensures var t := Next(s, step);
            && !t.localEnabled
            && Local(t) + (if IsLocalRelease(s, step) then 1 else 0) == Local(s)
  {
    hide Inv;
    match step
    case Ask(a) => DisabledAdmit(s, a); hide Admit;
    case Drop(r, now) => LocalDrop(s, r, now); hide Release;
    case Gate(_) =>
  }

  lemma {:induction false} DrainRun(s: State, steps: seq<Step>)
    requires Inv(s) && !s.localEnabled && StaysDisabled(steps)
    ensures var t := Run(s, steps);
            !t.localEnabled && Local(t) + LocalReleases(s, steps) == Local(s)
    decreases |steps|
  {
    hide Inv, Next, Local;
    if steps != [] {
      DrainStep(s, steps[0]);
      DrainRun(Next(s, steps[0]), steps[1..]);
    }
  }

  /** An empty owner list already means an empty queue. */
  lemma NoOwnerNothingQueued(s: State)
    requires Inv(s)
    ensures s.owners == [] ==> s.queues == map[] && Drained(s)
    ensures Drained(s) <==> Local(s) == 0
  {
  }

  /**
   * The drain condition is reached exactly when every request that held or awaited a slot at
   * the moment of disabling has been released.
   */
  lemma DrainTerminates(s: State, steps: seq<Step>)
    requires Inv(s) && !s.localEnabled && StaysDisabled(steps)
    ensures LocalReleases(s, steps) <= Local(s)
    ensures Drained(Run(s, steps)) <==> LocalReleases(s, steps) == Local(s)
  {
    DrainRun(s, steps);
    NoOwnerNothingQueued(Run(s, steps));
    hide Inv;
  }

  /** A drain keeps serving: releasing an owner while somebody waits grants that slot at once. */
  lemma DrainStillPromotes(s: State, step: Step)
    requires Inv(s) && IsOwnerRelease(s, step) && s.queues != map[]
    ensures exists e :: PromotedBy(s, step, e)
  {
    Basics(s);
    OwnerReleaseQueues(s, step);
    hide Inv, PromotedBy;
    assert PromotedBy(s, step, s.queues[Served(s, step)][0]);
  }

  // ---------------------------------------------------------------- queue position

  ghost predicate Listing(q: Queues, waiting: seq<Entry>) {
    && (forall e :: e in waiting <==> Waits(q, e))
    && (forall i, j :: 0 <= i < j < |waiting| ==> waiting[i].ticket < waiting[j].ticket)
  }

  lemma RankInListing(s: State, waiting: seq<Entry>, i: nat)
    requires Fifo(s) && Listing(s.queues, waiting) && i < |waiting|
    ensures Rank(s.queues, waiting[i]) == i + 1
  {
    var before := set x | x in WaitingSet(s.queues) && x.ticket <= waiting[i].ticket;
    var first := waiting[..i + 1];
    assert forall x :: x in WaitingSet(s.queues) <==> Waits(s.queues, x);
    forall x
      ensures x in before <==> x in first
    {
      if x in before {
        var j :| 0 <= j < |waiting| && waiting[j] == x;
        assert j <= i;
        assert first[j] == x;
      }
    }
    SetSize(first, before);
  }

  /** The position is the 1-based index among all waiting requests sorted by ticket. */
  lemma PositionIsSortedIndex(s: State, waiting: seq<Entry>, i: nat)
    requires Fifo(s) && RequestsUnique(s.queues) && Listing(s.queues, waiting) && i < |waiting|
    ensures Position(s.queues, waiting[i].requestId) == i + 1
  {
    assert Waits(s.queues, waiting[i]);
    RankInListing(s, waiting, i);
  }

  // ---------------------------------------------------------------- routing

  /**
   * With the local executor open, a new high-risk request is never sent away: it takes a slot,
   * waits, or is refused, and it is refused exactly when a queue limit is reached.
   */
  lemma HighRiskStaysLocal(s: State, a: Scheduler.Ask)
    requires Inv(s) && ValidKey(a.key) && ValidRequest(a.request) && a.request !in s.pins
    requires a.local && s.localEnabled && IsHighRisk(a.risk)
    ensures var (t, out) := Admit(s, a);
            && (out.Admitted? ==> out.admission.selected == LocalPrimary && out.admission in t.owners)
            && (out.Admitted? <==> |s.owners| < s.limits.capacity)
            && (out.Refused? <==> (|s.owners| == s.limits.capacity &&
                   (|QueueOf(s.queues, a.key)| >= s.limits.perKey || Total(s.queues) >= s.limits.total)))
  {
    var (t, out) := Admit(s, a);
    Basics(s);
    hide Inv;
    if out.Admitted? {
      assert t.owners[|s.owners|] == out.admission;
    }
  }

  ghost predicate Full(s: State) {
    |s.owners| == s.limits.capacity
  }

  ghost predicate QueueHasRoom(s: State, k: Key) {
    |QueueOf(s.queues, k)| < s.limits.perKey && Total(s.queues) < s.limits.total
  }

  /**
   * With the local executor open, a new request takes a slot exactly while one is free. Once all
   * are taken, a request of low risk that may go elsewhere overflows exactly when the whole queue
   * is full; any other request waits exactly when both queue limits leave room.
   */
  lemma NewRequestRouting(s: State, a: Scheduler.Ask)
    requires Inv(s) && ValidKey(a.key) && ValidRequest(a.request) && a.request !in s.pins
    requires a.local && s.localEnabled
    ensures var out := Admit(s, a).1;
            var elsewhere := Full(s) && !IsHighRisk(a.risk) && a.flash && Total(s.queues) == s.limits.total;
            && (out.Admitted? && out.admission.selected == LocalPrimary <==> !Full(s))
            && (out.Admitted? && out.admission.selected == RemoteOverflow <==> elsewhere)
            && (out.Waiting? <==> Full(s) && QueueHasRoom(s, a.key))
            && (out.Refused? <==> Full(s) && !QueueHasRoom(s, a.key) && !elsewhere)
  {
    Basics(s);
    WithinTotal(s);
    hide Inv;
  }

  lemma WithinTotal(s: State)
    requires Inv(s)
    ensures Total(s.queues) <= s.limits.total && |s.owners| <= s.limits.capacity
    ensures !Full(s) ==> s.queues == map[]
  {
  }

  /** Asking again for an admitted request changes nothing: its key gets the same admission, others are refused. */
  lemma AcquireTwice(s: State, a: Scheduler.Ask, b: Scheduler.Ask)
    requires Inv(s) && Admit(s, a).1.Admitted?
    requires b.request == a.request && ValidKey(b.key)
    ensures var (t, out) := Admit(s, a);
            && Admit(t, b).0 == t
            && Admit(t, b).1 == (if b.key == a.key then out else Refused(BelongsToAnotherKey))
  {
    hide Inv;
  }
}
