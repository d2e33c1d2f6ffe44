/**
 * What each operation of the registry does on a disciplined table, written out: exactly when it
 * succeeds, which failure it reports otherwise, and the row it writes.
 */
module EvolutionOperations {
  import opened Prelude
  import opened Evolution
  import opened EvolutionRuns

  /** The place is free, or holds the very row that is to be written. */
  ghost predicate Writable<B>(r: Registry<B>, a: Artifact<B>) {
    (a.id, a.version) in r.rows ==> r.rows[(a.id, a.version)] == a
  }

  /** The table with one more row; nothing else but bookkeeping differs. */
  ghost predicate Wrote<B>(r: Registry<B>, t: Registry<B>, a: Artifact<B>) {
    t.rows == r.rows[(a.id, a.version) := a] && t.canaries == r.canaries
  }

  /** The fields that no operation after generation ever changes. */
  ghost predicate SameContent<B>(a: Artifact<B>, b: Artifact<B>) {
    && a.id == b.id && a.kind == b.kind && a.payload == b.payload && a.highImpact == b.highImpact
    && a.sources == b.sources
  }

  lemma PutExactly<B>(r: Registry<B>, a: Artifact<B>)
    ensures Put(r, a).Ok? <==> Writable(r, a)
    ensures Put(r, a).Ok? ==> Put(r, a).artifact == a && Wrote(r, Put(r, a).registry, a)
    ensures Put(r, a).Err? ==> Put(r, a).failure == Immutable
  {
    assert (a.id, a.version) in r.rows && r.rows[(a.id, a.version)] == a ==> r.rows == r.rows[(a.id, a.version) := a];
  }

  lemma GetExactly<B>(r: Registry<B>, id: string, v: int)
    requires Disciplined(r)
    ensures Get(r, id, v) == if (id, v) in r.rows then Ok(r, r.rows[(id, v)]) else Err(NotFound)
    ensures (id, v) in r.rows ==> r.rows[(id, v)].id == id
  {
    if (id, v) in r.rows { ReadsValidate(r, id, v); }
    hide Disciplined, Validates;
  }

  // ---------------------------------------------------------------- evaluation

  /** All that an evaluation has to show. */
  ghost predicate Convincing(e: Evaluation, highImpact: bool) {
    && e.schemaValid && e.replayed && e.regressionPassed && e.reviewerApproved
    && (highImpact ==> e.judgeApproved) && |e.evidence| > 0
  }

  /** Version two says whether the evaluation was convincing. */
  lemma EvaluateExactly<B>(r: Registry<B>, id: string, v: int, e: Evaluation, author: string, now: string)
    requires Disciplined(r)
    ensures var out := Evaluate(r, id, v, e, author, now);
            && ((id, v) !in r.rows ==> out == Err(NotFound))
            && ((id, v) in r.rows && r.rows[(id, v)].stage != Candidate ==> out == Err(WrongStage))
            && ((id, v) in r.rows && r.rows[(id, v)].stage == Candidate ==>
                  var before, a := r.rows[(id, v)], EvaluatedRow(r.rows[(id, v)], id, v, e, author, now);
                  && (out.Ok? <==> Writable(r, a)) && (out.Err? ==> out.failure == Immutable)
                  && (out.Ok? ==> out.artifact == a && Wrote(r, out.registry, a))
                  && SameContent(a, before) && a.version == v + 1 && a.parents == [(id, v)]
                  && a.approval == before.approval && a.rollbackTarget == before.rollbackTarget
                  && a.evaluations == e.evidence && a.createdBy == author && a.createdAt == now
                  && (a.stage == Evaluated <==> Convincing(e, before.highImpact))
                  && (a.stage == Rejected <==> !Convincing(e, before.highImpact)))
  {
    GetExactly(r, id, v);
    if (id, v) in r.rows {
      PutExactly(r, EvaluatedRow(r.rows[(id, v)], id, v, e, author, now));
    }
    hide Disciplined, Get, Put;
  }

  /** The stored verdict of every artifact that has one, by the fields of the evaluation that judged it. */
  lemma VerdictIs<B>(r: Registry<B>, id: string)
    requires Disciplined(r) && (id, 2) in r.rows
    ensures id in r.judged && (id, 1) in r.rows
    ensures r.rows[(id, 2)].stage ==
            if Convincing(r.judged[id], r.rows[(id, 1)].highImpact) then Evaluated else Rejected
    ensures r.rows[(id, 2)].evaluations == r.judged[id].evidence
  {
    RowIs(r, id, 2);
    hide Disciplined, Contiguous, Validates, ParentsFit, Same;
  }

  // ---------------------------------------------------------------- canary

  lemma StartCanaryExactly<B>(
      r: Registry<B>, id: string, v: int, target: string, approval: string, author: string, now: string)
    requires Disciplined(r)
    ensures var out := StartCanary(r, id, v, target, approval, author, now);
            && ((id, v) !in r.rows ==> out == Err(NotFound))
            && ((id, v) in r.rows && r.rows[(id, v)].stage != Evaluated ==> out == Err(WrongStage))
            && ((id, v) in r.rows && r.rows[(id, v)].stage == Evaluated && (approval == "" || target == "") ==>
                  out == Err(NotPermitted))
            && ((id, v) in r.rows && r.rows[(id, v)].stage == Evaluated && approval != "" && target != "" ==>
                  var a := r.rows[(id, v)].(version := v + 1, stage := Canary, parents := [(id, v)],
                                            rollbackTarget := Some(target), approval := Some(approval),
                                            createdBy := author, createdAt := now);
                  && (out.Ok? <==> Writable(r, a)) && (out.Err? ==> out.failure == Immutable)
                  && (out.Ok? ==> out.artifact == a && Wrote(r, out.registry, a)))
  {
    GetExactly(r, id, v);
    if (id, v) in r.rows {
      if r.rows[(id, v)].stage == Evaluated { EvaluatedHasEvidence(r, id, v); }
      PutExactly(r, r.rows[(id, v)].(version := v + 1, stage := Canary, parents := [(id, v)],
                                     rollbackTarget := Some(target), approval := Some(approval),
                                     createdBy := author, createdAt := now));
    }
    hide Disciplined, Get, Put;
  }

  lemma EvaluatedHasEvidence<B>(r: Registry<B>, id: string, v: int)
    requires Disciplined(r) && (id, v) in r.rows && r.rows[(id, v)].stage == Evaluated
    ensures r.rows[(id, v)].evaluations != []
  {
    RowIs(r, id, v);
    assert v == 2;
    VerdictIs(r, id);
    hide Disciplined, Contiguous, Validates, ParentsFit, Same;
  }

  /** A canary record is added, as it is, exactly to a canary and exactly with evidence. */
  lemma RecordCanaryExactly<B>(r: Registry<B>, id: string, v: int, verdict: Verdict, evidence: seq<string>)
    requires Disciplined(r)
    ensures var out := RecordCanary(r, id, v, verdict, evidence);
            && (out.Ok? <==> (id, v) in r.rows && r.rows[(id, v)].stage == Canary && |evidence| > 0)
            && (out.Ok? ==> out.registry == r.(canaries := r.canaries + [CanaryRecord(id, v, verdict, evidence)]))
            && ((id, v) !in r.rows ==> out == Err(NotFound))
            && ((id, v) in r.rows && out.Err? ==> out == Err(WrongStage))
  {
    GetExactly(r, id, v);
    hide Disciplined, Get;
  }

  // ---------------------------------------------------------------- promotion and rollback

  /** Somebody found this canary helpful. */
  ghost predicate FoundHelpful<B>(r: Registry<B>, id: string, v: int) {
    exists c :: c in r.canaries && c.id == id && c.version == v && c.verdict == Helpful
  }

  lemma FoundHelpfulIs<B>(r: Registry<B>, id: string, v: int)
    ensures HelpfulCanary(r, id, v) <==> FoundHelpful(r, id, v)
  {
    if FoundHelpful(r, id, v) {
      var c :| c in r.canaries && c.id == id && c.version == v && c.verdict == Helpful;
      var i :| 0 <= i < |r.canaries| && r.canaries[i] == c;
    }
    if HelpfulCanary(r, id, v) {
      var i :| 0 <= i < |r.canaries| && r.canaries[i].id == id && r.canaries[i].version == v &&
        r.canaries[i].verdict.Helpful?;
      assert r.canaries[i] in r.canaries;
    }
  }

  lemma PromoteExactly<B>(r: Registry<B>, id: string, v: int, approval: string, author: string, now: string)
    requires Disciplined(r)
    ensures var out := Promote(r, id, v, approval, author, now);
            && ((id, v) !in r.rows ==> out == Err(NotFound))
            && ((id, v) in r.rows && !(r.rows[(id, v)].stage == Canary && FoundHelpful(r, id, v) && approval != "") ==>
                  out == Err(NotPermitted))
            && ((id, v) in r.rows && r.rows[(id, v)].stage == Canary && FoundHelpful(r, id, v) && approval != "" ==>
                  var a := r.rows[(id, v)].(version := v + 1, stage := Active, parents := [(id, v)],
                                            approval := Some(approval), createdBy := author, createdAt := now);
                  && (out.Ok? <==> Writable(r, a)) && (out.Err? ==> out.failure == Immutable)
                  && (out.Ok? ==> out.artifact == a && Wrote(r, out.registry, a)))
  {
    GetExactly(r, id, v);
    FoundHelpfulIs(r, id, v);
    if (id, v) in r.rows {
      if r.rows[(id, v)].stage == Canary { CanaryHasTarget(r, id, v); }
      PutExactly(r, r.rows[(id, v)].(version := v + 1, stage := Active, parents := [(id, v)],
                                     approval := Some(approval), createdBy := author, createdAt := now));
    }
    hide Disciplined, Get, Put, HelpfulCanary, FoundHelpful;
  }

  lemma CanaryHasTarget<B>(r: Registry<B>, id: string, v: int)
    requires Disciplined(r) && (id, v) in r.rows && r.rows[(id, v)].stage == Canary
    ensures r.rows[(id, v)].rollbackTarget.Some? && r.rows[(id, v)].rollbackTarget.value != ""
  {
    RowIs(r, id, v);
    assert v == 3;
    hide Disciplined, Contiguous, Validates, ParentsFit, Same, History;
  }

  lemma RollbackExactly<B>(
      r: Registry<B>, id: string, current: int, target: int, approval: string, author: string, now: string)
    requires Disciplined(r)
    ensures var out := Rollback(r, id, current, target, approval, author, now);
            && ((id, current) !in r.rows || (id, target) !in r.rows ==> out == Err(NotFound))
            && ((id, current) in r.rows && (id, target) in r.rows
                && (r.rows[(id, current)].stage != Active || approval == "") ==>
                  out == Err(NotPermitted))
            && ((id, current) in r.rows && (id, target) in r.rows
                && r.rows[(id, current)].stage == Active && approval != "" ==>
                  var a := r.rows[(id, target)].(
                    version := current + 1, stage := Active, parents := [(id, current), (id, target)],
                    rollbackTarget := Some(Reference(id, current)), approval := Some(approval),
                    createdBy := author, createdAt := now);
                  && (out.Ok? <==> Writable(r, a)) && (out.Err? ==> out.failure == Immutable)
                  && (out.Ok? ==> out.artifact == a && Wrote(r, out.registry, a)))
  {
    GetExactly(r, id, current);
    GetExactly(r, id, target);
    if (id, target) in r.rows {
      PutExactly(r, r.rows[(id, target)].(
                      version := current + 1, stage := Active, parents := [(id, current), (id, target)],
                      rollbackTarget := Some(Reference(id, current)), approval := Some(approval),
                      createdBy := author, createdAt := now));
    }
    hide Disciplined, Get, Put, Reference;
  }

  // ---------------------------------------------------------------- generation and reading

  lemma GenerateExactly<B>(r: Registry<B>, s: Signal<B>, id: string, author: string, now: string)
    requires Disciplined(r)
    ensures var out := Generate(r, s, id, author, now);
            var good := s.allowed && s.payload.complete &&
                        ((s.kind == Prompt || s.kind == JudgePrompt) ==> s.payload.promptOk);
            && (!good ==> out == Err(BadSignal))
            && (good && (id, 1) in r.rows ==> out.Ok? && out.registry == r && Some(out.artifact) == Newest(r, id))
            && (good && (id, 1) !in r.rows ==>
                  var a := Artifact(id, s.kind, 1, Candidate, s.payload, s.highImpact || s.kind == Policy, s.evidence,
                                    [], [], None, None, author, now);
                  out.Ok? && out.artifact == a && Wrote(r, out.registry, a))
  {
    NewestExists(r, id);
    PutExactly(r, Artifact(id, s.kind, 1, Candidate, s.payload, s.highImpact || s.kind == Policy, s.evidence,
                           [], [], None, None, author, now));
    hide Disciplined, Newest, Put;
  }

  lemma NewestExists<B>(r: Registry<B>, id: string)
    requires Disciplined(r)
    ensures Newest(r, id).Some? <==> (id, 1) in r.rows
  {
    RowRange(r, id, 1);
    if id in r.tops { RowRange(r, id, r.tops[id]); }
    hide Disciplined;
  }

  /** What every stored row satisfies. */
  lemma RowsAreValid<B>(r: Registry<B>, id: string, v: int)
    requires Disciplined(r) && (id, v) in r.rows
    ensures var a := r.rows[(id, v)];
            && a.id == id && a.version == v && v >= 1
            && (a.kind == Prompt || a.kind == JudgePrompt ==> a.payload.promptOk)
            && (a.kind == Policy ==> a.highImpact)
            && (a.stage == Active ==>
                  a.approval.Some? && a.approval.value != "" && a.rollbackTarget.Some? && a.rollbackTarget.value != "")
  {
    RowIs(r, id, v);
    hide Disciplined, Contiguous, History;
  }

  // ---------------------------------------------------------------- a whole life

  /** The last version of an artifact, in a given stage. */
  ghost predicate Reached<B>(r: Registry<B>, id: string, v: int, stage: Stage) {
    (id, v) in r.rows && r.rows[(id, v)].stage == stage && (id, v + 1) !in r.rows
  }

  lemma Advanced<B>(r: Registry<B>, t: Registry<B>, id: string, v: int, a: Artifact<B>)
    requires Disciplined(r) && (id, v) in r.rows && (id, v + 1) !in r.rows
    requires Wrote(r, t, a) && a.id == id && a.version == v + 1
    ensures Reached(t, id, v + 1, a.stage) && t.rows[(id, v + 1)] == a
  {
    NextIsTop(r, id, v);
    RowRange(r, id, v + 2);
    hide Disciplined, Contiguous;
  }

  lemma FirstReached<B>(r: Registry<B>, t: Registry<B>, id: string, a: Artifact<B>)
    requires Disciplined(r) && (id, 1) !in r.rows && Wrote(r, t, a) && a.id == id && a.version == 1
    ensures Reached(t, id, 1, a.stage) && t.rows[(id, 1)] == a
  {
    RowRange(r, id, 1);
    RowRange(r, id, 2);
    hide Disciplined;
  }

  lemma GeneratedStep<B>(r: Registry<B>, s: Signal<B>, id: string, author: string, now: string)
    requires Disciplined(r) && (id, 1) !in r.rows && s.allowed && s.payload.complete
    requires s.kind == Prompt || s.kind == JudgePrompt ==> s.payload.promptOk
    ensures var t := Next(r, DoGenerate(s, id, author, now));
            && Disciplined(t) && Reached(t, id, 1, Candidate)
            && t.rows[(id, 1)].highImpact == (s.highImpact || s.kind == Policy)
  {
    StepKeeps(r, DoGenerate(s, id, author, now));
    GenerateExactly(r, s, id, author, now);
    hide Disciplined, Generate;
    FirstReached(r, Next(r, DoGenerate(s, id, author, now)), id, Generate(r, s, id, author, now).artifact);
  }

  lemma EvaluatedStep<B>(r: Registry<B>, id: string, e: Evaluation, author: string, now: string)
    requires Disciplined(r) && Reached(r, id, 1, Candidate) && Convincing(e, r.rows[(id, 1)].highImpact)
    ensures var t := Next(r, DoEvaluate(id, 1, e, author, now));
            Disciplined(t) && Reached(t, id, 2, Evaluated)
  {
    StepKeeps(r, DoEvaluate(id, 1, e, author, now));
    EvaluateExactly(r, id, 1, e, author, now);
    hide Disciplined, Evaluate, EvaluatedRow, Convincing;
    Advanced(r, Next(r, DoEvaluate(id, 1, e, author, now)), id, 1, Evaluate(r, id, 1, e, author, now).artifact);
  }

  lemma CanaryStep<B>(r: Registry<B>, id: string, target: string, approval: string, author: string, now: string)
    requires Disciplined(r) && Reached(r, id, 2, Evaluated) && target != "" && approval != ""
    ensures var t := Next(r, DoStartCanary(id, 2, target, approval, author, now));
            Disciplined(t) && Reached(t, id, 3, Canary)
  {
    StepKeeps(r, DoStartCanary(id, 2, target, approval, author, now));
    StartCanaryExactly(r, id, 2, target, approval, author, now);
    hide Disciplined, StartCanary;
    Advanced(r, Next(r, DoStartCanary(id, 2, target, approval, author, now)), id, 2,
             StartCanary(r, id, 2, target, approval, author, now).artifact);
  }

  lemma HelpfulStep<B>(r: Registry<B>, id: string, evidence: seq<string>)
    requires Disciplined(r) && Reached(r, id, 3, Canary) && evidence != []
    ensures var t := Next(r, DoRecordCanary(id, 3, Helpful, evidence));
            Disciplined(t) && Reached(t, id, 3, Canary) && FoundHelpful(t, id, 3)
  {
    StepKeeps(r, DoRecordCanary(id, 3, Helpful, evidence));
    RecordCanaryExactly(r, id, 3, Helpful, evidence);
    hide Disciplined, RecordCanary;
    var t := Next(r, DoRecordCanary(id, 3, Helpful, evidence));
    var c := CanaryRecord(id, 3, Helpful, evidence);
    assert t.canaries[|r.canaries|] == c;
    assert c in t.canaries;
  }

  lemma PromotedStep<B>(r: Registry<B>, id: string, approval: string, author: string, now: string)
    requires Disciplined(r) && Reached(r, id, 3, Canary) && FoundHelpful(r, id, 3) && approval != ""
    ensures var t := Next(r, DoPromote(id, 3, approval, author, now));
            Disciplined(t) && Reached(t, id, 4, Active)
  {
    StepKeeps(r, DoPromote(id, 3, approval, author, now));
    PromoteExactly(r, id, 3, approval, author, now);
    hide Disciplined, Promote, FoundHelpful;
    Advanced(r, Next(r, DoPromote(id, 3, approval, author, now)), id, 3,
             Promote(r, id, 3, approval, author, now).artifact);
  }

  /** The discipline is not a dead end: a good signal with good evidence gets all the way to an active version. */
  lemma LifeReachesActive<B>(
      r: Registry<B>, s: Signal<B>, id: string, e: Evaluation, target: string, approval: string,
      evidence: seq<string>, author: string, now: string) returns (steps: seq<Step<B>>)
    requires Disciplined(r) && (id, 1) !in r.rows && s.allowed && s.payload.complete
    requires s.kind == Prompt || s.kind == JudgePrompt ==> s.payload.promptOk
    requires Convincing(e, s.highImpact || s.kind == Policy) && target != "" && approval != "" && evidence != []
    ensures Reached(Run(r, steps), id, 4, Active)
  {
    var g, v := DoGenerate(s, id, author, now), DoEvaluate(id, 1, e, author, now);
    var c := DoStartCanary(id, 2, target, approval, author, now);
    var h, p := DoRecordCanary(id, 3, Helpful, evidence), DoPromote(id, 3, approval, author, now);
    hide Disciplined, Next, Reached, Convincing, FoundHelpful;
    GeneratedStep(r, s, id, author, now);
    var r1 := Next(r, g);
    EvaluatedStep(r1, id, e, author, now);
    var r2 := Next(r1, v);
    CanaryStep(r2, id, target, approval, author, now);
    var r3 := Next(r2, c);
    HelpfulStep(r3, id, evidence);
    var r4 := Next(r3, h);
    PromotedStep(r4, id, approval, author, now);
    steps := [g, v, c, h, p];
    RunStep(r, steps);
    RunStep(r1, steps[1..]);
    RunStep(r2, steps[2..]);
    RunStep(r3, steps[3..]);
    RunStep(r4, steps[4..]);
    assert steps[5..] == [];
  }

  lemma RunStep<B>(r: Registry<B>, steps: seq<Step<B>>)
    requires Disciplined(r) && steps != []
    ensures Disciplined(Next(r, steps[0])) && Run(r, steps) == Run(Next(r, steps[0]), steps[1..])
    ensures forall t: Registry<B> :: Disciplined(t) ==> Run(t, []) == t
  {
    StepKeeps(r, steps[0]);
    hide Disciplined, Next;
  }
}
