/** Whole runs of the evolution registry: terminal rejection, the active version, and its lineage. */
module EvolutionRuns {
  import opened Prelude
  import opened Evolution

  datatype Step<B> =
    | DoGenerate(signal: Signal<B>, id: string, author: string, now: string)
    | DoEvaluate(id: string, version: int, evaluation: Evaluation, author: string, now: string)
    | DoStartCanary(id: string, version: int, target: string, approval: string, author: string, now: string)
    | DoRecordCanary(id: string, version: int, verdict: Verdict, evidence: seq<string>)
    | DoPromote(id: string, version: int, approval: string, author: string, now: string)
    | DoRollback(id: string, current: int, goal: int, approval: string, author: string, now: string)

  function Perform<B(==)>(r: Registry<B>, step: Step<B>): Result<B> {
    match step
    case DoGenerate(s, id, author, now) => Generate(r, s, id, author, now)
    case DoEvaluate(id, v, e, author, now) => Evaluate(r, id, v, e, author, now)
    case DoStartCanary(id, v, target, approval, author, now) => StartCanary(r, id, v, target, approval, author, now)
    case DoRecordCanary(id, v, verdict, evidence) => RecordCanary(r, id, v, verdict, evidence)
    case DoPromote(id, v, approval, author, now) => Promote(r, id, v, approval, author, now)
    case DoRollback(id, current, target, approval, author, now) =>
        Rollback(r, id, current, target, approval, author, now)
  }

  /** A failed operation leaves the table alone. */
  function Next<B(==)>(r: Registry<B>, step: Step<B>): Registry<B> {
    var out := Perform(r, step);
    if out.Ok? then out.registry else r
  }

  lemma StepKeeps<B>(r: Registry<B>, step: Step<B>)
    requires Disciplined(r)
    ensures Disciplined(Next(r, step))
  {
    hide Disciplined, Generate, Evaluate, StartCanary, RecordCanary, Promote, Rollback;
    match step
    case DoGenerate(s, id, author, now) => GenerateKeeps(r, s, id, author, now);
    case DoEvaluate(id, v, e, author, now) => EvaluateKeeps(r, id, v, e, author, now);
    case DoStartCanary(id, v, target, approval, author, now) =>
        StartCanaryKeeps(r, id, v, target, approval, author, now);
    case DoRecordCanary(id, v, verdict, evidence) => RecordCanaryKeeps(r, id, v, verdict, evidence);
    case DoPromote(id, v, approval, author, now) => PromoteKeeps(r, id, v, approval, author, now);
    case DoRollback(id, current, target, approval, author, now) =>
        RollbackKeeps(r, id, current, target, approval, author, now);
  }

  ghost predicate Grows<B>(r: Registry<B>, t: Registry<B>) {
    forall k :: k in r.rows ==> k in t.rows && t.rows[k] == r.rows[k]
  }

  /** No step changes or removes a row. */
  lemma StepGrows<B>(r: Registry<B>, step: Step<B>)
    ensures Grows(r, Next(r, step))
  {
  }

  ghost function Empty<B>(): Registry<B> {
    Registry(map[], [], map[], map[])
  }

  ghost function Run<B>(r: Registry<B>, steps: seq<Step<B>>): (t: Registry<B>)
    requires Disciplined(r)
    ensures Disciplined(t)
    decreases |steps|
  {
    if steps == [] then r else StepKeeps(r, steps[0]); Run(Next(r, steps[0]), steps[1..])
  }

  lemma {:induction false} AppendOnly<B>(r: Registry<B>, steps: seq<Step<B>>)
    requires Disciplined(r)
    ensures Grows(r, Run(r, steps))
    decreases |steps|
  {
    hide Disciplined, Next;
    if steps != [] {
      StepKeeps(r, steps[0]);
      StepGrows(r, steps[0]);
      AppendOnly(Next(r, steps[0]), steps[1..]);
    }
  }

  lemma EmptyDisciplined<B>()
    ensures Disciplined(Empty<B>())
  {
  }

  /** A rejected candidate never gets another version, in any continuation. */
  lemma RejectedIsTerminal<B>(r: Registry<B>, id: string, steps: seq<Step<B>>)
    requires Disciplined(r) && (id, 2) in r.rows && r.rows[(id, 2)].stage.Rejected?
    ensures var t := Run(r, steps);
            && id in t.tops && t.tops[id] == 2
            && forall v: int :: (id, v) in t.rows ==> !t.rows[(id, v)].stage.Active?
  {
    AppendOnly(r, steps);
    var t := Run(r, steps);
    assert (id, 2) in t.rows && t.rows[(id, 2)].stage.Rejected?;
    RowRange(t, id, 2);
    assert History(t, id);
    forall v: int | (id, v) in t.rows ensures !t.rows[(id, v)].stage.Active? {
      RowRange(t, id, v);
      assert RowFits(t, id, v);
    }
  }

  /** What `active` returns: the active row with the greatest version, if there is one. */
  ghost predicate IsActive<B>(r: Registry<B>, id: string, a: Option<Artifact<B>>) {
    match a
    case None => forall v: int :: (id, v) in r.rows ==> !r.rows[(id, v)].stage.Active?
    case Some(x) =>
      && (id, x.version) in r.rows && r.rows[(id, x.version)] == x && x.stage.Active?
      && forall v: int :: (id, v) in r.rows && r.rows[(id, v)].stage.Active? ==> v <= x.version
  }

  /** An artifact has an active version exactly from its fourth version on, and it is the newest. */
  lemma ActiveIsNewest<B>(r: Registry<B>, id: string)
    requires Disciplined(r)
    ensures IsActive(r, id, if id in r.tops && r.tops[id] >= 4 then Newest(r, id) else None)
  {
    forall v: int | (id, v) in r.rows
      ensures RowFits(r, id, v) && id in r.tops && 1 <= v <= r.tops[id]
    {
      RowRange(r, id, v);
    }
    if id in r.tops {
      RowRange(r, id, r.tops[id]);
    }
    hide Disciplined, Contiguous;
  }

  /**
   * Every active version, rollbacks included, descends from a candidate with the same content,
   * a passed evaluation (approved by the judge if high impact, as every policy is), and a
   * canary with a helpful record; and it carries an approval and a rollback target.
   */
  lemma ActiveLineage<B>(r: Registry<B>, id: string, v: int)
    requires Disciplined(r) && (id, v) in r.rows && r.rows[(id, v)].stage.Active?
    ensures v >= 4 && (id, 1) in r.rows && (id, 2) in r.rows && (id, 3) in r.rows
    ensures var a := r.rows[(id, v)];
            && a.id == id && a.kind == r.rows[(id, 1)].kind && a.payload == r.rows[(id, 1)].payload
            && a.highImpact == r.rows[(id, 1)].highImpact && a.sources == r.rows[(id, 1)].sources
            && a.approval.Some? && a.approval.value != "" && a.rollbackTarget.Some? && a.rollbackTarget.value != ""
            && r.rows[(id, 1)].stage.Candidate? && r.rows[(id, 2)].stage.Evaluated? && r.rows[(id, 3)].stage.Canary?
            && id in r.judged
            && var e := r.judged[id];
               && e.schemaValid && e.replayed && e.regressionPassed && e.reviewerApproved && e.evidence != []
               && (a.highImpact || a.kind.Policy? ==> e.judgeApproved)
               && e.evidence == r.rows[(id, 2)].evaluations
    ensures HelpfulCanary(r, id, 3)
    ensures exists i :: 0 <= i < |r.canaries| && r.canaries[i].id == id && r.canaries[i].version == 3 &&
                        r.canaries[i].verdict == Helpful
  {
    assert RowFits(r, id, v);
    RowRange(r, id, v);
    RowRange(r, id, 1);
    RowRange(r, id, 2);
    RowRange(r, id, 3);
    assert RowFits(r, id, 1) && RowFits(r, id, 2) && RowFits(r, id, 3);
    assert History(r, id);
    hide Disciplined, Contiguous;
  }

  /** A walk along parent references: each row names the next one among its parents. */
  ghost predicate ParentPath<B>(r: Registry<B>, path: seq<(string, int)>) {
    && path != []
    && (forall i :: 0 <= i < |path| ==> path[i] in r.rows)
    && forall i :: 0 <= i < |path| - 1 ==> path[i + 1] in r.rows[path[i]].parents
  }

  lemma PathCons<B>(r: Registry<B>, p: (string, int), rest: seq<(string, int)>)
    requires ParentPath(r, rest) && p in r.rows && rest[0] in r.rows[p].parents
    ensures ParentPath(r, [p] + rest)
  {
    var path := [p] + rest;
    assert forall i :: 0 < i < |path| ==> path[i] == rest[i - 1];
  }

  lemma ParentBefore<B>(r: Registry<B>, id: string, v: int)
    requires Disciplined(r) && (id, v) in r.rows && v > 1
    ensures (id, v - 1) in r.rows && (id, v - 1) in r.rows[(id, v)].parents
  {
    RowIs(r, id, v);
    RowRange(r, id, v - 1);
    hide Disciplined, Contiguous, History;
  }

  /** Every version reaches every earlier one along parent references. */
  lemma {:induction false} ReachesEarlier<B>(
      r: Registry<B>, id: string, v: int, u: int) returns (path: seq<(string, int)>)
    requires Disciplined(r) && (id, v) in r.rows && 1 <= u <= v
    ensures ParentPath(r, path) && path[0] == (id, v) && path[|path| - 1] == (id, u)
    decreases v - u
  {
    hide Disciplined;
    if u == v {
      path := [(id, v)];
    } else {
      ParentBefore(r, id, v);
      var rest := ReachesEarlier(r, id, v - 1, u);
      PathCons(r, (id, v), rest);
      path := [(id, v)] + rest;
    }
  }

  /** References lead only to existing earlier versions of the same artifact. */
  lemma ParentsEarlier<B>(r: Registry<B>, id: string, v: int, p: (string, int))
    requires Disciplined(r) && (id, v) in r.rows && p in r.rows[(id, v)].parents
    ensures p in r.rows && p.0 == id && 1 <= p.1 < v
  {
    RowIs(r, id, v);
    RowRange(r, p.0, p.1);
    assert p == (p.0, p.1);
    hide Disciplined, Contiguous, History;
  }

  /**
   * Following parents from any active row, rollbacks included, leads to the canary that was found
   * helpful, to the evaluation that passed, and to the candidate.
   */
  lemma ActiveDescends<B>(r: Registry<B>, id: string, v: int)
    returns (toCanary: seq<(string, int)>, toEvaluated: seq<(string, int)>, toCandidate: seq<(string, int)>)
    requires Disciplined(r) && (id, v) in r.rows && r.rows[(id, v)].stage.Active?
    ensures ParentPath(r, toCanary) && toCanary[0] == (id, v) && toCanary[|toCanary| - 1] == (id, 3)
    ensures ParentPath(r, toEvaluated) && toEvaluated[0] == (id, v) && toEvaluated[|toEvaluated| - 1] == (id, 2)
    ensures ParentPath(r, toCandidate) && toCandidate[0] == (id, v) && toCandidate[|toCandidate| - 1] == (id, 1)
    ensures r.rows[(id, 3)].stage.Canary? && HelpfulCanary(r, id, 3)
    ensures r.rows[(id, 2)].stage.Evaluated? && r.rows[(id, 1)].stage.Candidate?
  {
    ActiveLineage(r, id, v);
    hide Disciplined, ParentPath, HelpfulCanary;
    toCanary := ReachesEarlier(r, id, v, 3);
    toEvaluated := ReachesEarlier(r, id, v, 2);
    toCandidate := ReachesEarlier(r, id, v, 1);
  }
}
