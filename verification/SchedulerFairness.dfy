/** Bounded bypass: how long a queued request can wait, counted in releases of owned slots. */
module SchedulerFairness {
  import opened Prelude
  import opened Scheduler
  import opened SchedulerInvariant
  import opened SchedulerRuns

  /** How many slots a key holds. */
  function Slots(owners: seq<Admission>, k: Key): (n: nat)
    ensures n <= |owners|
  {
    if owners == [] then 0
    else (if owners[0].apiKeyId == k then 1 else 0) + Slots(owners[1..], k)
  }

  lemma {:induction false} SlotsConcat(a: seq<Admission>, b: seq<Admission>, k: Key)
    ensures Slots(a + b, k) == Slots(a, k) + Slots(b, k)
  {
    if a == [] {
      assert a + b == b;
    } else {
      assert (a + b)[1..] == a[1..] + b;
      SlotsConcat(a[1..], b, k);
    }
  }

  lemma SlotsWithout(owners: seq<Admission>, i: nat, k: Key)
    requires i < |owners|
    ensures Slots(owners[..i] + owners[i + 1..], k)
         == Slots(owners, k) - (if owners[i].apiKeyId == k then 1 else 0)
  {
    assert owners == owners[..i] + ([owners[i]] + owners[i + 1..]);
    SlotsConcat(owners[..i], [owners[i]] + owners[i + 1..], k);
    SlotsConcat([owners[i]], owners[i + 1..], k);
    SlotsConcat(owners[..i], owners[i + 1..], k);
  }

  /** Bound on the owner releases before a waiting key is served next. */
  ghost function Turns(s: State, k: Key): nat
    requires k in s.rotation
  {
    Slots(s.owners, k) * s.limits.total + IndexOf(s.rotation, k)
  }

  ghost function Depth(s: State, e: Entry): nat
    requires Waits(s.queues, e)
  {
    IndexOf(s.queues[e.apiKeyId], e)
  }

  function Period(s: State): nat {
    (s.limits.capacity + 1) * s.limits.total
  }

  /** Bound on the owner releases before `e` itself is granted a slot. */
  ghost function Patience(s: State, e: Entry): nat
    requires Inv(s) && Waits(s.queues, e)
  {
    assert RotationExact(s);
    Depth(s, e) * Period(s) + Turns(s, e.apiKeyId)
  }

  lemma RotationWithinTotal(s: State)
    requires RotationExact(s)
    ensures |s.rotation| <= Total(s.queues)
  {
    SetSize(s.rotation, s.queues.Keys);
    assert |s.queues| == |s.queues.Keys|;
    TotalCoversKeys(s.queues);
  }

  lemma MulMono(a: nat, b: nat, c: nat)
    requires a <= b
    ensures a * c <= b * c
  {
  }

  lemma TurnsBound(s: State, k: Key)
    requires Inv(s) && k in s.rotation
    ensures Turns(s, k) < Period(s)
  {
    Basics(s);
    RotationWithinTotal(s);
    hide *;
    MulMono(Slots(s.owners, k), s.limits.capacity, s.limits.total);
    assert (s.limits.capacity + 1) * s.limits.total == s.limits.capacity * s.limits.total + s.limits.total;
    TurnsUnfold(s, k);
  }

  lemma TurnsUnfold(s: State, k: Key)
    requires k in s.rotation
    ensures Turns(s, k) == Slots(s.owners, k) * s.limits.total + IndexOf(s.rotation, k)
    ensures Period(s) == (s.limits.capacity + 1) * s.limits.total
  {
  }

  /** When another key is served, `k` moves up, or pays one of its own slots to go to the back. */
  lemma ServeOther(rot: seq<Key>, last: Key, k: Key, back: seq<Key>)
    requires NoDup(rot) && k in rot && k != Turn(rot, last)[0]
    ensures var after := Turn(rot, last)[1..] + back;
            && k in after
            && IndexOf(after, k) < |rot| - 1
            && (k != last ==> IndexOf(after, k) < IndexOf(rot, k))
  {
    var order := Turn(rot, last);
    var after := order[1..] + back;
    var i := IndexOf(rot, k);
    if |rot| > 1 && rot[0] == last {
      if i == 0 {
        FirstIndex(after, k, |rot| - 2);
      } else {
        assert order[i - 1] == k;
        FirstIndex(after, k, i - 2);
      }
    } else {
      FirstIndex(after, k, i - 1);
    }
  }

  lemma {:induction false} FirstIndex<T>(xs: seq<T>, x: T, i: nat)
    requires i < |xs| && xs[i] == x
    ensures IndexOf(xs, x) <= i
  {
    if xs[0] != x {
      FirstIndex(xs[1..], x, i - 1);
    }
  }

  lemma TurnsArithmetic(n: nat, n': nat, i: nat, i': nat, total: nat)
    requires (n' == n && i' < i) || (n' + 1 == n && i' < total)
    ensures n' * total + i' < n * total + i
  {
    if n' + 1 == n {
      assert n * total == n' * total + total;
    }
  }

  lemma OwnerReleaseSlots(s: State, step: Step, k: Key)
    requires Inv(s) && IsOwnerRelease(s, step) && k in s.rotation && k != Served(s, step)
    ensures Slots(Next(s, step).owners, k)
         == Slots(s.owners, k) - (if s.owners[OwnerAt(s.owners, step.request)].apiKeyId == k then 1 else 0)
  {
    hide Inv;
    Basics(s);
    OwnerReleaseShape(s, step.request, step.now);
    hide Release, RotationExact, CanPromote, Fifo;
    var i := OwnerAt(s.owners, step.request);
    var t := Next(s, step);
    SlotsWithout(s.owners, i, k);
    var left := s.owners[..i] + s.owners[i + 1..];
    assert t.owners == left + t.owners[|left|..];
    SlotsConcat(left, t.owners[|left|..], k);
  }

  lemma OwnerReleaseIndex(s: State, step: Step, k: Key)
    requires Inv(s) && IsOwnerRelease(s, step) && k in s.rotation && k != Served(s, step)
    ensures var after := Next(s, step).rotation;
            && k in after && IndexOf(after, k) < |s.rotation| - 1
            && (s.owners[OwnerAt(s.owners, step.request)].apiKeyId != k ==>
                  IndexOf(after, k) < IndexOf(s.rotation, k))
  {
    hide Inv;
    Basics(s);
    OwnerReleaseQueues(s, step);
    hide Release, CanPromote, Fifo;
    var last := s.owners[OwnerAt(s.owners, step.request)].apiKeyId;
    var order := Turn(s.rotation, last);
    var t := Next(s, step);
    assert s.queues != map[];
    var back := t.rotation[|order| - 1..];
    assert t.rotation == order[1..] + back;
    ServeOther(s.rotation, last, k, back);
  }

  /** One owner release that serves another key strictly shortens the wait of `k`. */
  lemma OwnerReleaseTurns(s: State, step: Step, k: Key)
    requires Inv(s) && IsOwnerRelease(s, step) && k in s.rotation && k != Served(s, step)
    ensures k in Next(s, step).rotation
    ensures Turns(Next(s, step), k) < Turns(s, k)
  {
    Basics(s);
    RotationWithinTotal(s);
    OwnerReleaseSlots(s, step, k);
    OwnerReleaseIndex(s, step, k);
    var t := Next(s, step);
    hide *;
    TurnsUnfold(s, k);
    TurnsUnfold(t, k);
    TurnsArithmetic(Slots(s.owners, k), Slots(t.owners, k), IndexOf(s.rotation, k), IndexOf(t.rotation, k),
                    s.limits.total);
  }

  lemma FifoNoDup(s: State, k: Key)
    requires Fifo(s) && k in s.queues
    ensures NoDup(s.queues[k])
  {
    assert FifoOf(s, k);
  }

  lemma ShrinkIndex<T>(xs: seq<T>, i: nat, x: T)
    requires NoDup(xs) && i < |xs| && x in xs && x != xs[i]
    ensures var ys := xs[..i] + xs[i + 1..];
            && x in ys
            && IndexOf(ys, x) == IndexOf(xs, x) - (if i < IndexOf(xs, x) then 1 else 0)
  {
    var ys := xs[..i] + xs[i + 1..];
    var j := IndexOf(xs, x);
    DropAtMembers(xs, i);
    assert ys[if j < i then j else j - 1] == x;
    IndexUnique(ys, if j < i then j else j - 1);
  }

  /** A request only moves forward in its own queue. */
  lemma DepthShrink(s: State, t: State, k: Key, i: nat, e: Entry)
    requires Fifo(s) && k in s.queues && i < |s.queues[k]|
    requires t.queues == Shrink(s.queues, k, i)
    requires Waits(s.queues, e) && e != s.queues[k][i]
    ensures Waits(t.queues, e) && Depth(t, e) <= Depth(s, e)
    ensures e.apiKeyId == k && i < Depth(s, e) ==> Depth(t, e) == Depth(s, e) - 1
  {
    if e.apiKeyId == k {
      FifoNoDup(s, k);
      ShrinkIndex(s.queues[k], i, e);
    }
  }

  lemma WaitsInRotation(s: State, e: Entry)
    requires Inv(s) && Waits(s.queues, e)
    ensures e.apiKeyId in s.rotation
  {
  }

  lemma PatienceUnfold(s: State, e: Entry)
    requires Inv(s) && Waits(s.queues, e) && e.apiKeyId in s.rotation
    ensures Patience(s, e) == Depth(s, e) * Period(s) + Turns(s, e.apiKeyId)
  {
  }

  lemma ServedQueue(s: State, step: Step, e: Entry)
    requires Inv(s) && IsOwnerRelease(s, step)
    requires Waits(s.queues, e) && Waits(Next(s, step).queues, e)
    ensures Depth(Next(s, step), e) <= Depth(s, e)
    ensures e.apiKeyId == Served(s, step) ==> Depth(Next(s, step), e) == Depth(s, e) - 1
  {
    hide Inv;
    Basics(s);
    OwnerReleaseQueues(s, step);
    var k := Served(s, step);
    assert FifoOf(s, k);
    ShrinkWaits(s, k, 0);
    hide Fifo, RotationExact, CanPromote, Next;
    DepthShrink(s, Next(s, step), k, 0, e);
  }

  lemma ServeArithmetic(d: nat, d': nat, p: nat, t: nat, t': nat)
    requires (d' + 1 == d && t' < p) || (d' <= d && t' < t)
    ensures d' * p + t' < d * p + t
  {
    if d' + 1 == d {
      assert d * p == d' * p + p;
    } else {
      MulMono(d', d, p);
    }
  }

  lemma PatienceOwnerRelease(s: State, step: Step, e: Entry)
    requires Inv(s) && IsOwnerRelease(s, step)
    requires Waits(s.queues, e) && Waits(Next(s, step).queues, e)
    ensures Patience(Next(s, step), e) < Patience(s, e)
  {
    var t := Next(s, step);
    var k := e.apiKeyId;
    WaitsInRotation(s, e);
    WaitsInRotation(t, e);
    hide *;
    ServedQueue(s, step, e);
    if k != Served(s, step) { OwnerReleaseTurns(s, step, k); }
    PatienceUnfold(s, e);
    PatienceUnfold(t, e);
    PeriodStep(s, step);
    TurnsBound(t, k);
    ServeArithmetic(Depth(s, e), Depth(t, e), Period(s), Turns(s, k), Turns(t, k));
  }

  lemma PeriodStep(s: State, step: Step)
    requires Inv(s)
    ensures Period(Next(s, step)) == Period(s)
  {
    hide Inv, Next;
  }

  lemma PatienceDrop(s: State, step: Step, e: Entry)
    requires Inv(s) && step.Drop? && !IsOwnerRelease(s, step)
    requires Waits(s.queues, e) && Waits(Next(s, step).queues, e)
    ensures var t := Next(s, step);
            && e.apiKeyId in s.rotation && e.apiKeyId in t.rotation
            && Depth(t, e) <= Depth(s, e) && t.owners == s.owners
            && IndexOf(t.rotation, e.apiKeyId) <= IndexOf(s.rotation, e.apiKeyId)
  {
    var t := Next(s, step);
    WaitsInRotation(s, e);
    WaitsInRotation(t, e);
    hide Inv;
    Basics(s);
    var i := DropQueues(s, step);
    hide Next, CanPromote;
    if t.queues != s.queues {
      var k := s.pins[step.request].apiKeyId;
      assert FifoOf(s, k);
      ShrinkWaits(s, k, i);
      DepthShrink(s, t, k, i, e);
      hide Fifo, FifoOf, Shrink, Depth;
      if t.rotation != s.rotation {
        var j := IndexOf(s.rotation, k);
        ExceptAt(s.rotation, j);
        ShrinkIndex(s.rotation, j, e.apiKeyId);
      }
    }
  }

  lemma PatienceAsk(s: State, step: Step, e: Entry)
    requires Inv(s) && step.Ask? && Waits(s.queues, e)
    ensures var t := Next(s, step);
            && Waits(t.queues, e)
            && e.apiKeyId in s.rotation && e.apiKeyId in t.rotation
            && Depth(t, e) == Depth(s, e) && t.owners == s.owners
            && IndexOf(t.rotation, e.apiKeyId) == IndexOf(s.rotation, e.apiKeyId)
  {
    WaitsInRotation(s, e);
    hide Inv;
    AdmitShape(s, step.ask);
    var out := Admit(s, step.ask).1;
    hide Admit;
    if out.Waiting? {
      AppendKeepsPlace(s, out.entry, e);
    }
  }

  lemma AppendKeepsPlace(s: State, d: Entry, e: Entry)
    requires Waits(s.queues, e) && e.apiKeyId in s.rotation
    ensures var t := Enqueue(s, d);
            && Waits(t.queues, e) && Depth(t, e) == Depth(s, e)
            && e.apiKeyId in t.rotation
            && IndexOf(t.rotation, e.apiKeyId) == IndexOf(s.rotation, e.apiKeyId)
  {
    IndexOfAppend(s.queues[e.apiKeyId], [d], e);
    IndexOfAppend(s.rotation, [d.apiKeyId], e.apiKeyId);
  }

  /** Any step that releases no owned slot leaves `e` no worse placed. */
  lemma PatienceOther(s: State, step: Step, e: Entry)
    requires Inv(s) && !IsOwnerRelease(s, step)
    requires Waits(s.queues, e) && Waits(Next(s, step).queues, e)
    ensures var t := Next(s, step);
            && e.apiKeyId in s.rotation && e.apiKeyId in t.rotation
            && Depth(t, e) <= Depth(s, e) && t.owners == s.owners
            && IndexOf(t.rotation, e.apiKeyId) <= IndexOf(s.rotation, e.apiKeyId)
  {
    match step
    case Ask(_) => PatienceAsk(s, step, e);
    case Drop(_, _) => PatienceDrop(s, step, e);
    case Gate(_) =>
      WaitsInRotation(s, e);
      hide Inv;
  }

  /**
   * The bounded bypass: while `e` waits, no step lengthens its wait and every release of an
   * owned slot shortens it by at least one.
   */
  lemma PatienceStep(s: State, step: Step, e: Entry)
    requires Inv(s) && Waits(s.queues, e) && Waits(Next(s, step).queues, e)
    ensures Patience(Next(s, step), e) + (if IsOwnerRelease(s, step) then 1 else 0) <= Patience(s, e)
  {
    var t := Next(s, step);
    var k := e.apiKeyId;
    hide *;
    if IsOwnerRelease(s, step) {
      PatienceOwnerRelease(s, step, e);
    } else {
      PatienceOther(s, step, e);
      PatienceUnfold(s, e);
      PatienceUnfold(t, e);
      TurnsUnfold(s, k);
      TurnsUnfold(t, k);
      PeriodStep(s, step);
      MulMono(Depth(t, e), Depth(s, e), Period(s));
    }
  }

  lemma BoundArithmetic(d: nat, p: nat, t: nat)
    requires t < p
    ensures d * p + t < (d + 1) * p
  {
  }

  lemma PatienceBound(s: State, e: Entry)
    requires Inv(s) && Waits(s.queues, e)
    ensures Patience(s, e) < (Depth(s, e) + 1) * Period(s)
  {
    WaitsInRotation(s, e);
    hide *;
    PatienceUnfold(s, e);
    TurnsBound(s, e.apiKeyId);
    BoundArithmetic(Depth(s, e), Period(s), Turns(s, e.apiKeyId));
  }

  /** If `e` still waits at the end of a run, it waited throughout, and few slots were released. */
  lemma {:induction false} GoneStaysGone(s: State, steps: seq<Step>, e: Entry)
    requires Inv(s) && e.ticket <= s.tickets && !Waits(s.queues, e)
    ensures !Waits(Run(s, steps).queues, e)
    decreases |steps|
  {
    if steps != [] {
      QueueStep(s, steps[0], e);
      hide *;
      RunUnfold(s, steps);
      GoneStaysGone(Next(s, steps[0]), steps[1..], e);
    }
  }

  lemma RunUnfold(s: State, steps: seq<Step>)
    requires Inv(s) && steps != []
    ensures Run(s, steps) == Run(Next(s, steps[0]), steps[1..])
    ensures OwnerReleases(s, steps)
         == (if IsOwnerRelease(s, steps[0]) then 1 else 0) + OwnerReleases(Next(s, steps[0]), steps[1..])
  {
    hide Inv, Next;
  }

  /** The first step at which `e` leaves its queue. */
  lemma {:induction false} LeavesWithin(s: State, steps: seq<Step>, e: Entry) returns (i: nat)
    requires Inv(s) && Waits(s.queues, e) && OwnerReleases(s, steps) > Patience(s, e)
    ensures i < |steps|
    ensures var u := Run(s, steps[..i]);
            && Waits(u.queues, e) && !Waits(Next(u, steps[i]).queues, e)
            && OwnerReleases(s, steps[..i]) <= Patience(s, e)
    decreases |steps|
  {
    hide *;
    RunEmpty(s);
    assert steps != [];
    var t := Next(s, steps[0]);
    RunUnfold(s, steps);
    if !Waits(t.queues, e) {
      i := 0;
      assert steps[..0] == [];
    } else {
      PatienceStep(s, steps[0], e);
      var j := LeavesWithin(t, steps[1..], e);
      i := j + 1;
      assert steps[..i][1..] == steps[1..][..j];
      RunUnfold(s, steps[..i]);
    }
  }

  lemma RunEmpty(s: State)
    requires Inv(s)
    ensures Run(s, []) == s && OwnerReleases(s, []) == 0
  {
  }

  /**
   * No starvation: once (depth + 1) * (capacity + 1) * total-limit owned slots have been
   * released, `e` has left its queue, either withdrawn by its own release or granted a slot.
   */
  lemma NoStarvation(s: State, steps: seq<Step>, e: Entry) returns (i: nat)
    requires Inv(s) && Waits(s.queues, e)
    requires OwnerReleases(s, steps) >= (Depth(s, e) + 1) * ((s.limits.capacity + 1) * s.limits.total)
    ensures i < |steps|
    ensures var u := Run(s, steps[..i]);
            && OwnerReleases(s, steps[..i]) < (Depth(s, e) + 1) * ((s.limits.capacity + 1) * s.limits.total)
            && (WithdrawnBy(steps[i], e) || PromotedBy(u, steps[i], e))
            && !Waits(Run(s, steps).queues, e)
  {
    hide *;
    PeriodUnfold(s);
    PatienceBound(s, e);
    i := LeavesWithin(s, steps, e);
    LeavesHow(s, steps, i, e);
  }

  lemma PeriodUnfold(s: State)
    ensures Period(s) == (s.limits.capacity + 1) * s.limits.total
  {
  }

  lemma LeavesHow(s: State, steps: seq<Step>, i: nat, e: Entry)
    requires Inv(s) && i < |steps| && Waits(s.queues, e)
    requires var u := Run(s, steps[..i]); Waits(u.queues, e) && !Waits(Next(u, steps[i]).queues, e)
    ensures WithdrawnBy(steps[i], e) || PromotedBy(Run(s, steps[..i]), steps[i], e)
    ensures !Waits(Run(s, steps).queues, e)
  {
    hide *;
    var u := Run(s, steps[..i]);
    QueueStep(u, steps[i], e);
    TicketsStep(s, steps[..i], e);
    GoneStaysGone(Next(u, steps[i]), steps[i + 1..], e);
    RunSplit(s, steps, i);
  }

  lemma {:induction false} TicketsStep(s: State, steps: seq<Step>, e: Entry)
    requires Inv(s) && Waits(s.queues, e)
    ensures e.ticket <= Run(s, steps).tickets
    decreases |steps|
  {
    OldEntry(s, e);
    TicketsGrow(s, steps);
  }

  lemma OldEntry(s: State, e: Entry)
    requires Inv(s) && Waits(s.queues, e)
    ensures e.ticket <= s.tickets
  {
    Basics(s);
    OldTickets(s, e);
  }

  lemma {:induction false} TicketsGrow(s: State, steps: seq<Step>)
    requires Inv(s)
    ensures s.tickets <= Run(s, steps).tickets
    decreases |steps|
  {
    if steps != [] {
      QueueStep(s, steps[0], Ticketed("", "", 0));
      hide Inv, Next;
      TicketsGrow(Next(s, steps[0]), steps[1..]);
    }
  }

  lemma {:induction false} RunSplit(s: State, steps: seq<Step>, i: nat)
    requires Inv(s) && i < |steps|
    ensures Run(s, steps) == Run(Next(Run(s, steps[..i]), steps[i]), steps[i + 1..])
    decreases i
  {
    hide Inv, Next;
    if i > 0 {
      RunSplit(Next(s, steps[0]), steps[1..], i - 1);
      assert steps[..i][1..] == steps[1..][..i - 1];
    }
  }

  /** With two or more keys waiting, the key that releases a slot is not the one served. */
  lemma ServedDiffers(s: State, step: Step)
    requires Inv(s) && IsOwnerRelease(s, step) && |s.queues| >= 2
    ensures Served(s, step) != s.owners[OwnerAt(s.owners, step.request)].apiKeyId
    ensures PromotedBy(s, step, s.queues[Served(s, step)][0])
  {
    Basics(s);
    OwnerReleaseQueues(s, step);
    hide Inv, PromotedBy, Next;
    SetSize(s.rotation, s.queues.Keys);
    assert |s.queues| == |s.queues.Keys|;
    assert s.rotation[0] != s.rotation[1];
  }
}
