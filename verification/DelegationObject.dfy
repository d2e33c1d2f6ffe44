/** The runtime object, whose methods update handles, counts and launch times in place. */
module DelegationObject {
  import opened Prelude
  import opened Delegation
  import opened Reconciliation

  /** Handle names of obsolete work, in launch order. */
  function ObsoleteIds(hs: seq<Handle>, current: Snapshot): seq<string> {
    if hs == [] then []
    else
      var h := hs[|hs| - 1];
      ObsoleteIds(hs[..|hs| - 1], current) + (if Obsolete(h, current) then [h.id] else [])
  }

  /** The first occurrences of a list, in order. */
  method KeepFirst(xs: seq<string>) returns (ys: seq<string>)
    ensures FirstSeen(xs, ys)
  {
    hide FirstSeen;
    ys := [];
    NothingSeen<string>();
    for i := 0 to |xs|
      invariant FirstSeen(xs[..i], ys)
    {
      FirstSeenNext(xs[..i], ys, xs[i]);
      assert xs[..i + 1] == xs[..i] + [xs[i]];
      if xs[i] !in ys {
        ys := ys + [xs[i]];
      }
    }
    assert xs[..|xs|] == xs;
  }

  class AsyncMoARuntime {
    const cfg: Config
    var handles: seq<Handle>
    var counts: map<Role, nat>
    var recent: map<string, real>
    var launched: nat
    var free: int

    ghost function Value(): State
      reads this
    {
      State(handles, counts, recent, launched, free)
    }

    ghost predicate Valid()
      reads this
    {
      Inv(cfg, Value())
    }

    constructor (cfg: Config)
      ensures this.cfg == cfg && Value() == Initial(cfg) && Valid()
    {
      this.cfg := cfg;
      handles, counts, recent, launched := [], map[], map[], 0;
      free := Permits(cfg);
    }

    method ShouldActivate(role: Role, signal: int) returns (r: bool)
      ensures r == Activates(cfg, Value(), role, signal)
    {
      r := cfg.effort != Fast && signal >= cfg.threshold(role) && launched < cfg.delegations &&
      (if role in counts then counts[role] else 0) < cfg.roleBudget(role);
    }

    /** A refused call changes nothing; an admitted one is recorded and gets a new last handle. */
    method Spawn(c: Call) returns (r: Option<Handle>)
      requires Valid()
      modifies this
      ensures Valid()
      ensures r.Some? <==> Admits(cfg, old(Value()), c)
      ensures r.None? ==> Value() == old(Value())
      ensures r.Some? ==>
                && r.value == NewHandle(cfg, old(Value()), c)
                && handles == old(handles) + [r.value]
                && counts == old(counts)[c.role := Count(old(counts), c.role) + 1]
                && recent == old(recent)[MarkOf(cfg, c) := c.recorded]
                && launched == old(launched) + 1 && free == old(free)
    {
      hide Activates, Inv, Name, Put;
      ghost var before := Value();
      var active := ShouldActivate(c.role, c.signal);
      if !active {
        return None;
      }
      if c.depth > cfg.maxDepth || (c.role == Frontier && c.depth != 1) {
        return None;
      }
      var mark := MarkOf(cfg, c);
      if mark in recent && c.checked - recent[mark] < cfg.cooldown {
        return None;
      }
      assert Admits(cfg, before, c);
      LaunchKeeps(cfg, before, c);
      NamedByInv(cfg, before);
      LaunchAppends(cfg, before, c);
      launched := launched + 1;
      counts := counts[c.role := Count(counts, c.role) + 1];
      recent := recent[mark := c.recorded];
      var handle := Handle(Name(launched, mark), c.role, c.from, mark, c.depth, c.relevant, false, Waiting);
      handles := Put(handles, handle);
      assert Value() == Launch(cfg, before, c);
      return Some(handle);
    }

    /** A worker passes the semaphore. */
    method Enter(at: nat)
      requires Valid() && Enabled(Value(), Begin(at))
      modifies this
      ensures Valid() && Value() == Apply(cfg, old(Value()), Begin(at))
    {
      hide Inv;
      StepKeeps(cfg, Value(), Begin(at));
      handles, free := handles[at := handles[at].(task := Working)], free - 1;
    }

    /** A task ends and gives back its permit if it had one. */
    method Leave(at: nat, outcome: Outcome)
      requires Valid() && Enabled(Value(), End(at, outcome))
      modifies this
      ensures Valid() && Value() == Apply(cfg, old(Value()), End(at, outcome))
    {
      hide Inv;
      StepKeeps(cfg, Value(), End(at, outcome));
      if handles[at].task == Working {
        free := free + 1;
      }
      handles := handles[at := handles[at].(task := Ended(outcome))];
    }

    /** Every obsolete task is asked to cancel, and nothing else changes. */
    method CancelStale(current: Snapshot) returns (cancelled: seq<string>)
      requires Valid()
      modifies this
      ensures Valid()
      ensures Value() == Apply(cfg, old(Value()), CancelObsolete(current))
      ensures cancelled == ObsoleteIds(old(handles), current)
    {
      hide Inv, Obsolete, MarkedTo, MarkedAll, Apply, Marked, Enabled;
      ghost var before, was := Value(), handles;
      cancelled := [];
      MarkedEnds(was, current);
      for i := 0 to |handles|
        invariant counts == old(counts) && recent == old(recent) && launched == old(launched) && free == old(free)
        invariant |handles| == |was| && handles == MarkedTo(was, i, current)
        invariant cancelled == ObsoleteIds(was[..i], current)
      {
        MarkedNext(was, current, i);
        assert was[..i + 1][..i] == was[..i];
        if Obsolete(handles[i], current) {
          cancelled := cancelled + [handles[i].id];
          handles := handles[i := handles[i].(cancelling := true)];
        }
      }
      assert was[..|was|] == was;
      CancelApplied(cfg, before, current);
    }

    /** Waits for the relevant tasks, in the way given by `await`, and reports what they found. */
    method Finalize(current: Snapshot, await: string -> Outcome) returns (r: Report)
      ensures Reports(handles, current, await, r)
    {
      hide OutcomeOf, ResultOf, FirstSeen, Classify;
      var results, decisions, reloop, actions := [], [], false, [];
      for i := 0 to |handles|
        invariant results == Results(handles[..i], current, await)
        invariant decisions == Decisions(handles[..i], current, await)
        invariant actions == Requested(handles[..i], await)
        invariant reloop <==> exists j :: 0 <= j < i && Corrective(handles[j], current, await)
      {
        var h := handles[i];
        assert handles[..i + 1][..i] == handles[..i];
        if h.relevant {
          results := results + [ResultOf(h, current, await)];
          var outcome := OutcomeOf(h, await);
          if outcome.Found? {
            actions := actions + outcome.finding.actions;
            if outcome.finding.corrective && Classify(h.from, current) != Stale {
              reloop := true;
              decisions := decisions + [DecisionOf(h, outcome.finding)];
            }
          }
        }
      }
      assert handles[..|handles|] == handles;
      var distinct := KeepFirst(actions);
      r := Report(results, decisions, reloop, reloop, distinct);
    }
  }

  lemma NamedByInv(cfg: Config, s: State)
    requires Inv(cfg, s)
    ensures Named(cfg, s)
  {
  }

  /** The handles when the loop has passed the first `n`. */
  function MarkedTo(hs: seq<Handle>, n: nat, current: Snapshot): (r: seq<Handle>)
    ensures |r| == |hs|
  {
    seq(|hs|, i requires 0 <= i < |hs| => if i < n then Marked(hs[i], current) else hs[i])
  }

  lemma MarkedEnds(hs: seq<Handle>, current: Snapshot)
    ensures MarkedTo(hs, 0, current) == hs
    ensures MarkedTo(hs, |hs|, current) == MarkedAll(hs, current)
  {
  }

  lemma CancelApplied(cfg: Config, s: State, current: Snapshot)
    requires Inv(cfg, s)
    ensures Enabled(s, CancelObsolete(current))
    ensures Apply(cfg, s, CancelObsolete(current)) == s.(handles := MarkedAll(s.handles, current))
    ensures Inv(cfg, s.(handles := MarkedAll(s.handles, current)))
  {
    hide Inv;
    StepKeeps(cfg, s, CancelObsolete(current));
  }

  lemma MarkedNext(hs: seq<Handle>, current: Snapshot, n: nat)
    requires n < |hs|
    ensures MarkedTo(hs, n, current)[n] == hs[n]
    ensures MarkedTo(hs, n + 1, current) ==
            if Obsolete(hs[n], current)
            then MarkedTo(hs, n, current)[n := hs[n].(cancelling := true)]
            else MarkedTo(hs, n, current)
  {
    hide Obsolete;
  }

  /** The reported names are those of exactly the unfinished, out-of-date handles, in launch order. */
  lemma {:induction false} ObsoleteIdsExactly(hs: seq<Handle>, current: Snapshot) returns (keep: seq<nat>)
    ensures Increasing(keep, |hs|) && |keep| == |ObsoleteIds(hs, current)|
    ensures forall i :: 0 <= i < |hs| ==>
              (i in keep <==>
                 !hs[i].task.Ended? && (hs[i].from.head != current.head || hs[i].from.tree != current.tree))
    ensures forall j :: 0 <= j < |keep| ==> ObsoleteIds(hs, current)[j] == hs[keep[j]].id
  {
    keep := [];
    if hs != [] {
      var n := |hs| - 1;
      keep := ObsoleteIdsExactly(hs[..n], current);
      assert forall i :: 0 <= i < n ==> hs[..n][i] == hs[i];
      if Obsolete(hs[n], current) {
        keep := keep + [n];
      }
    }
  }
}
