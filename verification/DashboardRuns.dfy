/**
 * Delivery over whole runs: one publisher at a time, and subscribers that come, read and go in
 * any interleaving.
 */
module DashboardRuns {
  import opened Prelude
  import opened Dashboard
  import opened DashboardSubscriber
  import opened DashboardHub

  ghost function Empty<K, B>(queueSize: int, replaySize: nat): System<K, B> {
    System(queueSize, replaySize, map[], map[], map[], {}, map[], None)
  }

  ghost function Run<K(!new), B>(sys: System<K, B>, steps: seq<Step<K, B>>): (t: System<K, B>)
    requires Sound(sys)
    ensures Sound(t) && t.queueSize == sys.queueSize
    decreases |steps|
  {
    if steps == [] then sys else StepSound(sys, steps[0]); SizeKept(sys, steps[0]); Run(Next(sys, steps[0]), steps[1..])
  }

  lemma SizeKept<K, B>(sys: System<K, B>, step: Step<K, B>)
    ensures Next(sys, step).queueSize == sys.queueSize
  {
  }

  lemma EmptySound<K(!new), B>(queueSize: int, replaySize: nat)
    ensures Sound(Empty<K, B>(queueSize, replaySize))
  {
    var sys := Empty<K, B>(queueSize, replaySize);
    assert Events<B>([], 0) == [];
    forall c: Scope<K> ensures RingExact(HistoryOf(sys, c), NumberOf(sys, c), RingOf(sys, c), replaySize) { }
  }

  // ---------------------------------------------------------------- handover over whole runs

  ghost predicate Serves<K, B>(sys: System<K, B>, id: nat, scope: Scope<K>, base: nat, resync: bool) {
    id in sys.subs && id in sys.registered &&
    sys.subs[id].scope == scope && sys.subs[id].base == base && sys.subs[id].resync == resync
  }

  lemma ServesStep<K, B>(sys: System<K, B>, step: Step<K, B>, id: nat, scope: Scope<K>, base: nat, resync: bool)
    requires Serves(sys, id, scope, base, resync) && step != Step.Unsubscribe(id)
    ensures Serves(Next(sys, step), id, scope, base, resync)
  {
    hide RecordBoth, Recorded;
    if step.Publish? { RecordKeepsSubs(sys, step.public, step.owner); }
  }

  lemma RecordKeepsSubs<K, B>(sys: System<K, B>, public: B, owner: Option<(K, B)>)
    ensures RecordBoth(sys, public, owner).subs == sys.subs
    ensures RecordBoth(sys, public, owner).registered == sys.registered
  {
  }

  lemma {:induction false} ServesRun<K(!new), B>(
      sys: System<K, B>, steps: seq<Step<K, B>>, id: nat, scope: Scope<K>, base: nat, resync: bool)
    requires Sound(sys) && Serves(sys, id, scope, base, resync)
    requires forall i :: 0 <= i < |steps| ==> steps[i] != Step.Unsubscribe(id)
    ensures Serves(Run(sys, steps), id, scope, base, resync)
    decreases |steps|
  {
    hide Sound, Next, Serves;
    if steps != [] {
      StepSound(sys, steps[0]);
      ServesStep(sys, steps[0], id, scope, base, resync);
      ServesRun(Next(sys, steps[0]), steps[1..], id, scope, base, resync);
    }
  }

  /** Where a new subscriber that is not told to resynchronise is served from. */
  lemma NewSubServes<K(!new), B>(sys: System<K, B>, id: nat, scope: Scope<K>, last: int)
    requires Sound(sys) && id !in sys.subs
    requires !MustResync(RingOf(sys, scope), NumberOf(sys, scope), last, sys.queueSize)
    ensures FromZero(last) <= |HistoryOf(sys, scope)|
    ensures Serves(Next(sys, Step.Subscribe(id, scope, Some(last))), id, scope,
                   if sys.replaySize >= 1 then FromZero(last) else |HistoryOf(sys, scope)|, false)
  {
    assert RingExact(HistoryOf(sys, scope), NumberOf(sys, scope), RingOf(sys, scope), sys.replaySize);
    HandoverExact(HistoryOf(sys, scope), RingOf(sys, scope), sys.replaySize, last, sys.queueSize);
    hide RingExact, RingsExact, Sound, MustResync, Pending;
  }

  /**
   * The handover theorem. A subscriber that names `last` and is not told to resynchronise gets,
   * in any continuation in which its queue never overflows, from replay and live delivery
   * together, exactly once and in order, every event of its scope after the point it is served
   * from. That point is the one it named if and only if there is a ring or it had missed nothing.
   */
  lemma HandoverDelivers<K(!new), B>(sys: System<K, B>, id: nat, scope: Scope<K>, last: int, steps: seq<Step<K, B>>)
    requires Sound(sys) && id !in sys.subs
    requires !MustResync(RingOf(sys, scope), NumberOf(sys, scope), last, sys.queueSize)
    requires forall i :: 0 <= i < |steps| ==> steps[i] != Step.Unsubscribe(id)
    ensures var start := Next(sys, Step.Subscribe(id, scope, Some(last)));
            && Sound(start)
            && var t := Run(start, steps);
               && id in t.subs
               && var s, h, n := t.subs[id], HistoryOf(t, scope), |HistoryOf(sys, scope)|;
                  var from := if sys.replaySize >= 1 then FromZero(last) else n;
                  && FromZero(last) <= from <= |h|
                  && (s.drops == 0 ==>
                        var got := s.seen + s.queue + Items(s.scheduled) + Items(FlightFor(t, id));
                        && got == Items(Events(h, from))
                        && (got == Items(Events(h, FromZero(last))) <==> sys.replaySize >= 1 || FromZero(last) == n))
  {
    var subscribe := Step.Subscribe(id, scope, Some(last));
    var start := Next(sys, subscribe);
    var from := if sys.replaySize >= 1 then FromZero(last) else |HistoryOf(sys, scope)|;
    StepSound(sys, subscribe);
    NewSubServes(sys, id, scope, last);
    hide RingExact, RingsExact, Next, MustResync, NewSub;
    ServesRun(start, steps, id, scope, from, false);
    var t := Run(start, steps);
    assert SubAt(t, id);
    hide Sound, SubSound, Run;
    BaseInHistory(t, id);
    if t.subs[id].drops == 0 {
      ExactlyOnce(t.subs[id], t.queueSize, HistoryOf(t, scope), FlightFor(t, id));
      assert |Events(HistoryOf(t, scope), from)| == |HistoryOf(t, scope)| - from;
      assert |Events(HistoryOf(t, scope), FromZero(last))| == |HistoryOf(t, scope)| - FromZero(last);
    }
  }

  lemma BaseInHistory<K(!new), B>(sys: System<K, B>, id: nat)
    requires id in sys.subs && SubAt(sys, id)
    ensures sys.subs[id].base <= |HistoryOf(sys, sys.subs[id].scope)|
  {
  }

  /**
   * Over any run: every jump in what any consumer has read so far is marked on that item, on a
   * later one it has read, or on one that its queue still holds; and so is the jump it is about
   * to make.
   */
  lemma NoSilentLossInRuns<K(!new), B>(sys: System<K, B>, steps: seq<Step<K, B>>, id: nat)
    requires Sound(sys) && id in Run(sys, steps).subs
    ensures var s := Run(sys, steps).subs[id];
            && Announced(s)
            && (s.queue != [] && s.queue[0].Item? && s.queue[0].event.seqNo != Position(s, |s.seen|) + 1 ==>
                  HasGap(s.queue))
  {
    var t := Run(sys, steps);
    assert SubAt(t, id);
    var s := t.subs[id];
    hide Run, Sound, StreamSound, QueueSound, SeenSound, HasGap;
    if s.queue != [] {
      NoSilentLoss(s, t.queueSize, HistoryOf(t, s.scope), FlightFor(t, id), id in t.registered);
    }
  }
}
