/** Properties of whole runs: slot accounting, bounded bypass, draining. */
module SchedulerRuns {
  import opened Prelude
  import opened Scheduler
  import opened SchedulerInvariant

  /**
   * One locked region. A waiter's timeout or cancellation is a `Drop` of its request at any
   * later moment, whether or not it has been promoted meanwhile.
   */
  datatype Step =
    | Ask(ask: Scheduler.Ask)
    | Drop(request: RequestId, now: string)
    | Gate(enabled: bool)

  ghost function Next(s: State, step: Step): (t: State)
    requires Inv(s)
    ensures Inv(t) && t.limits == s.limits
  {
    match step
    case Ask(a) => AdmitKeepsInv(s, a); Admit(s, a).0
    case Drop(r, now) => ReleaseKeepsInv(s, r, now); Release(s, r, now).0
    case Gate(b) => GateKeepsInv(s, b); s.(localEnabled := b)
  }

  lemma GateKeepsInv(s: State, b: bool)
    requires Inv(s)
    ensures Inv(s.(localEnabled := b))
  {
    var t := s.(localEnabled := b);
    OwnersPinnedFrame(s, t);
    WaitersPinnedFrame(s, t);
    FifoFrame(s, t);
    forall r | r in t.pins ensures PinBacked(t, r) { assert PinBacked(s, r); }
    hide Fifo, OwnersPinned, WaitersPinned, PinBacked, TicketsUnique, RequestsUnique;
  }

  ghost function Run(s: State, steps: seq<Step>): (t: State)
    requires Inv(s)
    ensures Inv(t) && t.limits == s.limits
    decreases |steps|
  {
    if steps == [] then s else Run(Next(s, steps[0]), steps[1..])
  }

  ghost predicate IsOwnerRelease(s: State, step: Step) {
    step.Drop? && step.request in s.pins && OwnerAt(s.owners, step.request) >= 0
  }

  ghost function OwnerReleases(s: State, steps: seq<Step>): nat
    requires Inv(s)
    decreases |steps|
  {
    if steps == [] then 0
    else (if IsOwnerRelease(s, steps[0]) then 1 else 0) + OwnerReleases(Next(s, steps[0]), steps[1..])
  }

  // ---------------------------------------------------------------- slot accounting

  /** Admission changes the owners only by a fresh grant, and then nobody was waiting. */
  lemma AdmitShape(s: State, a: Scheduler.Ask)
    ensures var (t, out) := Admit(s, a);
            || (t.owners == s.owners && t.epoch == s.epoch && t.queues == s.queues && t.rotation == s.rotation &&
                t.tickets == s.tickets)
            || (out.Admitted? && s.queues == map[] && out.admission.epoch == t.epoch == s.epoch + 1 &&
                t.owners == s.owners + [out.admission] && t.queues == s.queues && t.rotation == s.rotation &&
                t.tickets == s.tickets)
            || (out.Waiting? && t.owners == s.owners && t.epoch == s.epoch &&
                out.entry.ticket == s.tickets + 1 == t.tickets &&
                t.queues == Enqueue(s, out.entry).queues && t.rotation == Enqueue(s, out.entry).rotation)
  {
  }

  lemma OwnerReleaseShape(s: State, r: RequestId, now: string)
    requires CanPromote(s) && RotationExact(s) && r in s.pins && OwnerAt(s.owners, r) >= 0
    ensures var (t, ok, grant) := Release(s, r, now);
            var i := OwnerAt(s.owners, r);
            var order := Turn(s.rotation, s.owners[i].apiKeyId);
            var left := s.owners[..i] + s.owners[i + 1..];
            && t.tickets == s.tickets
            && if s.queues == map[] then
                 t.queues == s.queues && t.rotation == s.rotation && t.owners == left && t.epoch == s.epoch
                     && grant == None
               else
                 && s.rotation != [] && order[0] in s.queues && s.queues[order[0]] != []
                 && var e := s.queues[order[0]][0];
                    var pin := Promoted(e.(apiKeyId := order[0]), s.epoch + 1, now);
                    && t.owners == left + [pin] && t.epoch == s.epoch + 1 && grant == Some(Grant(e, pin))
                    && t.queues == Shrink(s.queues, order[0], 0) && t.rotation == DropHead(s, order).rotation
  {
    NoRotationNoQueue(s);
    if s.rotation != [] {
      DropHeadRotation(s, s.owners[OwnerAt(s.owners, r)].apiKeyId);
    }
  }

  lemma DropShape(s: State, r: RequestId, now: string)
    requires CanPromote(s) && (r in s.pins ==> OwnerAt(s.owners, r) < 0)
    ensures var t := Release(s, r, now).0;
            && t.owners == s.owners && t.epoch == s.epoch && t.tickets == s.tickets
  {
  }

  lemma Basics(s: State)
    requires Inv(s)
    ensures LimitsPositive(s) && RotationExact(s) && CanPromote(s) && Fifo(s)
    ensures |s.owners| <= s.limits.capacity && Total(s.queues) <= s.limits.total && WorkConserving(s)
  {
  }

  /** Each grant takes a fresh epoch; each owner release gives one slot back. */
  lemma StepEpoch(s: State, step: Step)
    requires Inv(s)
    ensures var t := Next(s, step);
            && s.epoch <= t.epoch <= s.epoch + 1
            && |t.owners| + (if IsOwnerRelease(s, step) then 1 else 0) == |s.owners| + (t.epoch - s.epoch)
            && (forall o :: o in t.owners && o !in s.owners ==> o.epoch == s.epoch + 1 == t.epoch)
  {
    hide Inv;
    Basics(s);
    match step
    case Ask(a) => AdmitShape(s, a); hide Admit;
    case Drop(r, now) =>
      if IsOwnerRelease(s, step) {
        OwnerReleaseShape(s, r, now);
        hide Release, DropHead, Shrink, CanPromote, RotationExact, Fifo;
      } else {
        DropShape(s, r, now);
        hide Release;
      }
    case Gate(b) =>
  }

  /** Over any run from the start: epoch - owner releases = slots in use, and epochs never repeat. */
  lemma {:induction false} SlotConservation(s: State, steps: seq<Step>)
    requires Inv(s)
    ensures var t := Run(s, steps);
            && t.epoch >= s.epoch
            && |t.owners| + OwnerReleases(s, steps) == |s.owners| + (t.epoch - s.epoch)
            && (forall o :: o in t.owners && o !in s.owners ==> s.epoch < o.epoch <= t.epoch)
    decreases |steps|
  {
    hide Inv, Next;
    if steps != [] {
      StepEpoch(s, steps[0]);
      SlotConservation(Next(s, steps[0]), steps[1..]);
    }
  }

  lemma EpochsFromStart(limits: Limits, steps: seq<Step>)
    requires limits.capacity >= 1 && limits.perKey >= 1 && limits.total >= 1
    ensures Inv(Initial(limits))
    ensures var t := Run(Initial(limits), steps);
            && t.epoch - OwnerReleases(Initial(limits), steps) == |t.owners| <= limits.capacity
            && (forall i, j :: 0 <= i < j < |t.owners| ==> t.owners[i].epoch < t.owners[j].epoch)
  {
    InitialInv(limits);
    SlotConservation(Initial(limits), steps);
  }

  // ---------------------------------------------------------------- how a queued request leaves

  ghost predicate WithdrawnBy(step: Step, e: Entry) {
    step.Drop? && step.request == e.requestId
  }

  /** `e` is granted a slot by this step: the release hands it to the served key's oldest request. */
  ghost predicate PromotedBy(s: State, step: Step, e: Entry)
    requires Inv(s)
  {
    && IsOwnerRelease(s, step)
    && Release(s, step.request, step.now).2 == Some(Grant(e, Promoted(e, s.epoch + 1, step.now)))
    && Promoted(e, s.epoch + 1, step.now) in Next(s, step).owners
    && Waits(s.queues, e) && s.queues[e.apiKeyId][0] == e
  }

  ghost function Served(s: State, step: Step): Key
    requires Inv(s) && IsOwnerRelease(s, step) && s.queues != map[]
  {
    NoRotationNoQueue(s);
    Turn(s.rotation, s.owners[OwnerAt(s.owners, step.request)].apiKeyId)[0]
  }

  lemma OwnerReleaseQueues(s: State, step: Step)
    requires Inv(s) && IsOwnerRelease(s, step)
    ensures var t := Next(s, step);
            var last := s.owners[OwnerAt(s.owners, step.request)].apiKeyId;
            if s.queues == map[] then t.queues == map[]
            else
              var order := Turn(s.rotation, last);
              var k := order[0];
              && k == Served(s, step) && k in s.queues && s.queues[k] != []
              && t.queues == Shrink(s.queues, k, 0)
              && t.rotation == DropHead(s, order).rotation
              && PromotedBy(s, step, s.queues[k][0])
  {
    hide Inv;
    Basics(s);
    OwnerReleaseShape(s, step.request, step.now);
    hide Release, DropHead, Shrink, CanPromote, RotationExact;
    if s.queues != map[] {
      var k := Served(s, step);
      assert FifoOf(s, k);
      var e := s.queues[k][0];
      assert e.(apiKeyId := k) == e;
      var t := Next(s, step);
      assert t.owners[|t.owners| - 1] == Promoted(e, s.epoch + 1, step.now);
    }
  }

  lemma DropQueues(s: State, step: Step) returns (i: nat)
    requires Inv(s) && step.Drop? && !IsOwnerRelease(s, step)
    ensures var t := Next(s, step);
            && t.owners == s.owners
            && if step.request in s.pins && s.pins[step.request].leaseState == Queued then
                 var k := s.pins[step.request].apiKeyId;
                 && k in s.queues && i < |s.queues[k]| && s.queues[k][i].requestId == step.request
                 && t.queues == Shrink(s.queues, k, i)
                 && t.rotation == (if k in t.queues then s.rotation else Except(s.rotation, k))
               else t.queues == s.queues && t.rotation == s.rotation
  {
    i := 0;
    if step.request in s.pins && s.pins[step.request].leaseState == Queued {
      i := WithdrawIsShrink(s, step.request);
    }
    hide Inv;
  }


  lemma QueueAsk(s: State, a: Scheduler.Ask, e: Entry)
    requires Fifo(s)
    ensures var t := Admit(s, a).0;
            && s.tickets <= t.tickets
            && (Waits(s.queues, e) ==> Waits(t.queues, e))
            && (Waits(t.queues, e) && e.ticket <= s.tickets ==> Waits(s.queues, e))
  {
    AdmitShape(s, a);
    var out := Admit(s, a).1;
    if out.Waiting? {
      EnqueueWaits(s, out.entry);
    }
    hide Admit, Enqueue, Fifo;
  }

  lemma QueueOwnerRelease(s: State, step: Step, e: Entry)
    requires Inv(s) && IsOwnerRelease(s, step)
    ensures var t := Next(s, step);
            && s.tickets == t.tickets
            && (Waits(s.queues, e) && !Waits(t.queues, e) ==> PromotedBy(s, step, e))
            && (Waits(t.queues, e) ==> Waits(s.queues, e))
  {
    hide Inv;
    Basics(s);
    OwnerReleaseShape(s, step.request, step.now);
    OwnerReleaseQueues(s, step);
    if s.queues != map[] {
      assert FifoOf(s, Served(s, step));
      ShrinkWaits(s, Served(s, step), 0);
    }
    hide Release, Shrink, DropHead, PromotedBy, Fifo, FifoOf, RotationExact, CanPromote;
  }

  lemma QueueDrop(s: State, step: Step, e: Entry)
    requires Inv(s) && step.Drop? && !IsOwnerRelease(s, step)
    ensures var t := Next(s, step);
            && s.tickets == t.tickets
            && (Waits(s.queues, e) && !Waits(t.queues, e) ==> WithdrawnBy(step, e))
            && (Waits(t.queues, e) ==> Waits(s.queues, e))
  {
    hide Inv;
    Basics(s);
    DropShape(s, step.request, step.now);
    var i := DropQueues(s, step);
    if Next(s, step).queues != s.queues {
      var k := s.pins[step.request].apiKeyId;
      assert FifoOf(s, k);
      ShrinkWaits(s, k, i);
    }
    hide Release, Shrink, Fifo, FifoOf, RotationExact, CanPromote;
  }

  /** A request leaves its queue only by its own withdrawal or by promotion, and never comes back. */
  lemma QueueStep(s: State, step: Step, e: Entry)
    requires Inv(s)
    ensures var t := Next(s, step);
            && s.tickets <= t.tickets
            && (Waits(s.queues, e) && !Waits(t.queues, e) ==> WithdrawnBy(step, e) || PromotedBy(s, step, e))
            && (Waits(t.queues, e) && e.ticket <= s.tickets ==> Waits(s.queues, e))
  {
    hide Inv, PromotedBy;
    Basics(s);
    match step
    case Gate(_) =>
    case Ask(a) => QueueAsk(s, a, e);
    case Drop(_, _) =>
      if IsOwnerRelease(s, step) {
        QueueOwnerRelease(s, step, e);
      } else {
        QueueDrop(s, step, e);
      }
  }
}
