/** Whole runs of the delegate runtime. */
module DelegationRuns {
  import opened Delegation

  ghost predicate IsRun(cfg: Config, states: seq<State>, steps: seq<Step>) {
    && |states| == |steps| + 1
    && states[0] == Initial(cfg)
    && forall i :: 0 <= i < |steps| ==> Enabled(states[i], steps[i]) && states[i + 1] == Apply(cfg, states[i], steps[i])
  }

  lemma {:induction false} RunKeeps(cfg: Config, states: seq<State>, steps: seq<Step>, k: nat)
    requires IsRun(cfg, states, steps) && k <= |steps|
    ensures k < |states| && Inv(cfg, states[k])
  {
    hide Inv, Apply, Enabled;
    if k == 0 {
      InitialSound(cfg);
    } else {
      RunKeeps(cfg, states, steps, k - 1);
      StepKeeps(cfg, states[k - 1], steps[k - 1]);
    }
  }

  lemma InitialSound(cfg: Config)
    ensures Inv(cfg, Initial(cfg))
  {
  }

  lemma {:induction false} RolesPartition(hs: seq<Handle>)
    ensures Tally(hs, HasRole(Reasoner)) + Tally(hs, HasRole(Planner)) +
            Tally(hs, HasRole(Reviewer)) + Tally(hs, HasRole(Frontier)) == |hs|
  {
    if hs != [] {
      RolesPartition(hs[1..]);
    }
  }

  /** Launches, handles and role counts agree and stay in budget; workers stay within the permits. */
  lemma Budgets(cfg: Config, states: seq<State>, steps: seq<Step>, k: nat)
    requires IsRun(cfg, states, steps) && k <= |steps|
    ensures var s := states[k];
            && s.launched == |s.handles|
            && s.launched == Count(s.counts, Reasoner) + Count(s.counts, Planner) +
                             Count(s.counts, Reviewer) + Count(s.counts, Frontier)
            && (s.launched == 0 || s.launched <= cfg.delegations)
            && (forall role :: Count(s.counts, role) == 0 || Count(s.counts, role) <= cfg.roleBudget(role))
            && (cfg.effort == Fast ==> s.launched == 0)
            && 0 <= s.free
            && Tally(s.handles, IsWorking()) <= (if cfg.concurrent > 1 then cfg.concurrent else 1)
  {
    hide IsRun, Tally;
    RunKeeps(cfg, states, steps, k);
    var s := states[k];
    RolesPartition(s.handles);
    assert forall role :: Count(s.counts, role) == Tally(s.handles, HasRole(role));
  }

  lemma HandlesDistinct(cfg: Config, states: seq<State>, steps: seq<Step>, k: nat, i: nat, j: nat)
    requires IsRun(cfg, states, steps) && k <= |steps| && i < j < |states[k].handles|
    ensures states[k].handles[i].id != states[k].handles[j].id
  {
    hide IsRun, Counted, Permitted, Name;
    RunKeeps(cfg, states, steps, k);
    var hs := states[k].handles;
    assert Sound(cfg, hs[i], i) && Sound(cfg, hs[j], j);
    NameDistinct(i + 1, j + 1, hs[i].mark, hs[j].mark);
  }

  // ---------------------------------------------------------------- cooldown

  ghost predicate Launches(cfg: Config, states: seq<State>, steps: seq<Step>, i: nat) {
    && i < |steps| && i < |states| && steps[i].Spawn? && Admits(cfg, states[i], steps[i].call)
  }

  /** Clock readings never go back. */
  ghost predicate Monotone(steps: seq<Step>) {
    && (forall i :: 0 <= i < |steps| && steps[i].Spawn? ==> steps[i].call.checked <= steps[i].call.recorded)
    && (forall i, j :: 0 <= i < j < |steps| && steps[i].Spawn? && steps[j].Spawn? ==>
          steps[i].call.recorded <= steps[j].call.checked)
  }

  /** From a launch on, its digest has a time on record that is no earlier than the launch. */
  lemma {:induction false} OnRecord(cfg: Config, states: seq<State>, steps: seq<Step>, i: nat, k: nat)
    requires IsRun(cfg, states, steps) && Monotone(steps)
    requires Launches(cfg, states, steps, i) && i < k <= |steps|
    ensures var m := MarkOf(cfg, steps[i].call);
            m in states[k].recent && states[k].recent[m] >= steps[i].call.recorded
  {
    hide MarkOf, Put, NewHandle, Admits;
    if k > i + 1 {
      OnRecord(cfg, states, steps, i, k - 1);
    }
    assert states[k] == Apply(cfg, states[k - 1], steps[k - 1]);
  }

  /** Two launches with the same digest are at least the cooldown apart. */
  lemma Spaced(cfg: Config, states: seq<State>, steps: seq<Step>, i: nat, j: nat)
    requires IsRun(cfg, states, steps) && Monotone(steps) && i < j
    requires Launches(cfg, states, steps, i) && Launches(cfg, states, steps, j)
    requires MarkOf(cfg, steps[i].call) == MarkOf(cfg, steps[j].call)
    ensures steps[j].call.recorded - steps[i].call.recorded >= cfg.cooldown
  {
    hide MarkOf, IsRun;
    OnRecord(cfg, states, steps, i, j);
  }

  // ---------------------------------------------------------------- one call, written out

  /**
   * A call launches exactly when effort is not fast, the signal reaches the role's threshold, total
   * and role budget have room, the depth is allowed, and the same digest is cool; it then adds one
   * waiting handle under a new name, and otherwise nothing changes.
   */
  lemma LaunchesExactly(cfg: Config, s: State, c: Call)
    requires Inv(cfg, s)
    ensures var t := Spawned(cfg, s, c);
            var mark := cfg.mark(c.role, c.key, c.from);
            var used := Tally(s.handles, HasRole(c.role));
            var launches :=
              && cfg.effort != Fast && c.signal >= cfg.threshold(c.role)
              && |s.handles| < cfg.delegations && used < cfg.roleBudget(c.role)
              && c.depth <= cfg.maxDepth && (c.role == Frontier ==> c.depth == 1)
              && (mark in s.recent ==> c.checked - s.recent[mark] >= cfg.cooldown);
            && (!launches ==> t == s)
            && (launches ==>
                  && t.handles == s.handles + [Handle(Name(|s.handles| + 1, mark), c.role, c.from, mark, c.depth,
                                                      c.relevant, false, Waiting)]
                  && t.launched == s.launched + 1 && t.free == s.free
                  && t.recent == s.recent[mark := c.recorded]
                  && t.counts == s.counts[c.role := used + 1])
  {
    LaunchAppends(cfg, s, c);
    assert Count(s.counts, c.role) == Tally(s.handles, HasRole(c.role));
    hide Name, Put, Tally, Permitted, Sound;
  }

  /** A cancellation marks exactly the unfinished handles whose head or working tree is out of date. */
  lemma CancelsExactly(cfg: Config, s: State, current: Snapshot, i: nat)
    requires i < |s.handles|
    ensures var t, h := Apply(cfg, s, CancelObsolete(current)), s.handles[i];
            && |t.handles| == |s.handles|
            && t.handles[i] ==
               (if !h.task.Ended? && (h.from.head != current.head || h.from.tree != current.tree)
                then h.(cancelling := true) else h)
            && t.counts == s.counts && t.recent == s.recent && t.launched == s.launched && t.free == s.free
  {
  }
}
