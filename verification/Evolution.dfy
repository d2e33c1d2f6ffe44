/**
 * The evolution registry: an append-only table of artifact versions whose operations together
 * keep a promotion discipline. Rows are copied with changed fields and are not re-validated on
 * writing, so the discipline has to come from the operations themselves.
 */
module Evolution {
  import opened Prelude

  datatype Kind = Prompt | Policy | Routing | FailureHandling | JudgePrompt
  datatype Stage = Candidate | Evaluated | Canary | Active | Deprecated | Rejected

  /** `promptOk`: has a supported role and a string template; `complete`: passes the generator's check. */
  datatype Payload<B> = Payload(promptOk: bool, complete: bool, body: B)

  datatype Artifact<B> = Artifact(
    id: string, kind: Kind, version: int, stage: Stage, payload: Payload<B>, highImpact: bool,
    sources: seq<string>, evaluations: seq<string>, parents: seq<(string, int)>,
    rollbackTarget: Option<string>, approval: Option<string>, createdBy: string, createdAt: string)

  datatype Evaluation = Evaluation(
    schemaValid: bool, replayed: bool, regressionPassed: bool, reviewerApproved: bool, judgeApproved: bool,
    evidence: seq<string>)

  datatype Verdict = Helpful | Neutral | Harmful
  datatype CanaryRecord = CanaryRecord(id: string, version: int, verdict: Verdict, evidence: seq<string>)

  datatype Signal<B> = Signal(
    kind: Kind, allowed: bool, payload: Payload<B>, evidence: seq<string>, highImpact: bool)

  datatype Failure = NotFound | InvalidRow | Immutable | WrongStage | NotPermitted | BadSignal

  /** `tops` and `judged` record, per artifact, how many versions exist and how version 2 was judged. */
  datatype Registry<B> = Registry(
    rows: map<(string, int), Artifact<B>>, canaries: seq<CanaryRecord>,
    tops: map<string, nat>, judged: map<string, Evaluation>)

  datatype Result<B> = Ok(registry: Registry<B>, artifact: Artifact<B>) | Err(failure: Failure)

  predicate Truthy(s: Option<string>) {
    s.Some? && s.value != ""
  }

  predicate Passed(e: Evaluation, highImpact: bool) {
    e.schemaValid && e.replayed && e.regressionPassed && e.reviewerApproved
    && (!highImpact || e.judgeApproved) && e.evidence != []
  }

  /** The row validator that runs whenever a row is read. */
  predicate Validates<B>(a: Artifact<B>) {
    && a.version >= 1
    && (a.kind.Prompt? || a.kind.JudgePrompt? ==> a.payload.promptOk)
    && (a.stage.Active? ==> Truthy(a.approval) && Truthy(a.rollbackTarget))
  }

  function Reference(id: string, version: int): (s: string)
    ensures s != ""
  {
    id + "@" + (if version < 0 then "-" + Digits(-version) else Digits(version))
  }

  // ---------------------------------------------------------------- operations

  function Insert<B>(r: Registry<B>, a: Artifact<B>): Registry<B> {
    r.(rows := r.rows[(a.id, a.version) := a], tops := r.tops[a.id := if a.version >= 0 then a.version else 0])
  }

  /** A version is written once; writing the identical row again changes nothing. */
  function Put<B(==)>(r: Registry<B>, a: Artifact<B>): Result<B> {
    if (a.id, a.version) !in r.rows then Ok(Insert(r, a), a)
    else if r.rows[(a.id, a.version)] == a then Ok(r, a)
    else Err(Immutable)
  }

  function Get<B>(r: Registry<B>, id: string, version: int): Result<B> {
    if (id, version) !in r.rows then Err(NotFound)
    else if !Validates(r.rows[(id, version)]) then Err(InvalidRow)
    else Ok(r, r.rows[(id, version)])
  }

  /** The newest version of an artifact, if it has any. */
  function Newest<B>(r: Registry<B>, id: string): Option<Artifact<B>> {
    if id in r.tops && (id, r.tops[id]) in r.rows then Some(r.rows[(id, r.tops[id])]) else None
  }

  /** `id` is the digest of kind, scope, payload and evidence, which the source computes. */
  function Generate<B(==)>(r: Registry<B>, s: Signal<B>, id: string, author: string, now: string): Result<B> {
    if !s.allowed || !s.payload.complete || ((s.kind.Prompt? || s.kind.JudgePrompt?) && !s.payload.promptOk) then
      Err(BadSignal)
    else if Newest(r, id).Some? then Ok(r, Newest(r, id).value)
    else
      Put(r, Artifact(id, s.kind, 1, Candidate, s.payload, s.highImpact || s.kind.Policy?, s.evidence, [], [],
                      None, None, author, now))
  }

  function EvaluatedRow<B>(
      a: Artifact<B>, id: string, version: int, e: Evaluation, author: string, now: string): Artifact<B> {
    a.(version := version + 1, stage := if Passed(e, a.highImpact) then Evaluated else Rejected,
       evaluations := e.evidence, parents := [(id, version)], createdBy := author, createdAt := now)
  }

  function Judged<B>(r: Registry<B>, id: string, e: Evaluation): Registry<B> {
    r.(judged := r.judged[id := e])
  }

  function Evaluate<B(==)>(
      r: Registry<B>, id: string, version: int, e: Evaluation, author: string, now: string): Result<B> {
    var got := Get(r, id, version);
    if got.Err? then got
    else if !got.artifact.stage.Candidate? then Err(WrongStage)
    else
      var put := Put(r, EvaluatedRow(got.artifact, id, version, e, author, now));
      if put.Ok? && put.registry != r then Ok(Judged(put.registry, id, e), put.artifact) else put
  }

  function StartCanary<B(==)>(
      r: Registry<B>, id: string, version: int, target: string, approval: string, author: string,
      now: string): Result<B> {
    var got := Get(r, id, version);
    if got.Err? then got
    else if !got.artifact.stage.Evaluated? || got.artifact.evaluations == [] then Err(WrongStage)
    else if approval == "" || target == "" then Err(NotPermitted)
    else
      Put(r, got.artifact.(version := version + 1, stage := Canary, parents := [(id, version)],
                           rollbackTarget := Some(target), approval := Some(approval), createdBy := author,
                               createdAt := now))
  }

  function RecordCanary<B>(
      r: Registry<B>, id: string, version: int, verdict: Verdict, evidence: seq<string>): Result<B> {
    var got := Get(r, id, version);
    if got.Err? then got
    else if !got.artifact.stage.Canary? || evidence == [] then Err(WrongStage)
    else Ok(r.(canaries := r.canaries + [CanaryRecord(id, version, verdict, evidence)]), got.artifact)
  }

  predicate HelpfulCanary<B>(r: Registry<B>, id: string, version: int) {
    exists i :: 0 <= i < |r.canaries| && r.canaries[i].id == id && r.canaries[i].version == version
        && r.canaries[i].verdict.Helpful?
  }

  function Promote<B(==)>(
      r: Registry<B>, id: string, version: int, approval: string, author: string, now: string): Result<B> {
    var got := Get(r, id, version);
    if got.Err? then got
    else if !got.artifact.stage.Canary? || !HelpfulCanary(r, id, version) || approval == ""
        || !Truthy(got.artifact.rollbackTarget) then
      Err(NotPermitted)
    else
      Put(r, got.artifact.(version := version + 1, stage := Active, parents := [(id, version)],
                           approval := Some(approval), createdBy := author, createdAt := now))
  }

  function Rollback<B(==)>(
      r: Registry<B>, id: string, current: int, target: int, approval: string, author: string, now: string): Result<B> {
    var got := Get(r, id, current);
    var goal := Get(r, id, target);
    if got.Err? then got
    else if goal.Err? then goal
    else if !got.artifact.stage.Active? || approval == "" then Err(NotPermitted)
    else
      Put(r, goal.artifact.(version := current + 1, stage := Active, parents := [(id, current), (id, target)],
                            rollbackTarget := Some(Reference(id, current)),
                            approval := Some(approval), createdBy := author, createdAt := now))
  }

  // ---------------------------------------------------------------- the discipline

  ghost predicate StageFits(v: int, stage: Stage) {
    && (v == 1 ==> stage == Candidate)
    && (v == 2 ==> stage == Evaluated || stage == Rejected)
    && (v == 3 ==> stage == Canary)
    && (v >= 4 ==> stage == Active)
  }

  ghost predicate Same<B>(a: Artifact<B>, b: Artifact<B>) {
    a.id == b.id && a.kind == b.kind && a.payload == b.payload && a.highImpact == b.highImpact && a.sources == b.sources
  }

  /** Every version but the first names the one before it first, and only earlier versions of its artifact. */
  ghost predicate ParentsFit<B>(a: Artifact<B>) {
    && (a.version == 1 ==> a.parents == [])
    && (a.version > 1 ==> a.parents != [] && a.parents[0] == (a.id, a.version - 1))
    && forall i :: 0 <= i < |a.parents| ==> a.parents[i].0 == a.id && 1 <= a.parents[i].1 < a.version
  }

  /** Versions are exactly 1..n. */
  ghost predicate Contiguous<B>(r: Registry<B>) {
    && (forall id, v: int :: (id, v) in r.rows <==> id in r.tops && 1 <= v <= r.tops[id])
    && (forall id :: id in r.tops ==> r.tops[id] >= 1)
  }

  /** One row: right key, right stage for its version, valid, and with its first version's content. */
  ghost predicate RowFits<B>(r: Registry<B>, id: string, v: int)
    requires Contiguous(r) && (id, v) in r.rows
  {
    var a := r.rows[(id, v)];
    && a.id == id && a.version == v && StageFits(v, a.stage) && Validates(a) && ParentsFit(a)
    && Same(a, r.rows[(id, 1)]) && (a.kind.Policy? ==> a.highImpact)
    && (v == 3 ==> Truthy(a.rollbackTarget))
  }

  /** How an artifact got as far as it did. */
  ghost predicate History<B>(r: Registry<B>, id: string)
    requires Contiguous(r) && id in r.tops
  {
    && (r.tops[id] >= 2 ==>
          && id in r.judged && r.rows[(id, 2)].evaluations == r.judged[id].evidence
          && (r.rows[(id, 2)].stage.Evaluated? <==> Passed(r.judged[id], r.rows[(id, 1)].highImpact)))
    && (r.tops[id] >= 3 ==> r.rows[(id, 2)].stage.Evaluated?)
    && (r.tops[id] >= 4 ==> HelpfulCanary(r, id, 3))
  }

  ghost predicate Disciplined<B>(r: Registry<B>) {
    && Contiguous(r)
    && (forall id, v: int :: (id, v) in r.rows ==> RowFits(r, id, v))
    && (forall id :: id in r.tops ==> History(r, id))
  }

  ghost function Top<B>(r: Registry<B>, id: string): nat {
    if id in r.tops then r.tops[id] else 0
  }

  /** What a new row has to satisfy to extend its artifact's history by one version. */
  ghost predicate Extends<B>(r: Registry<B>, a: Artifact<B>)
    requires Contiguous(r)
  {
    && a.version == Top(r, a.id) + 1
    && StageFits(a.version, a.stage) && Validates(a) && ParentsFit(a) && (a.kind.Policy? ==> a.highImpact)
    && (a.version > 1 ==> Same(a, r.rows[(a.id, 1)]))
    && (a.version == 3 ==> Truthy(a.rollbackTarget))
  }

  ghost predicate HistoryExtends<B>(r: Registry<B>, a: Artifact<B>, judged: map<string, Evaluation>)
    requires Contiguous(r) && Extends(r, a)
  {
    && (forall id :: id in r.judged && (id != a.id || a.version > 2) ==> id in judged && judged[id] == r.judged[id])
    && (a.version == 2 ==>
          && a.id in judged && a.evaluations == judged[a.id].evidence
          && (a.stage.Evaluated? <==> Passed(judged[a.id], r.rows[(a.id, 1)].highImpact)))
    && (a.version == 3 ==> r.rows[(a.id, 2)].stage.Evaluated?)
    && (a.version == 4 ==> HelpfulCanary(r, a.id, 3))
  }

  lemma InsertContiguous<B>(r: Registry<B>, a: Artifact<B>)
    requires Contiguous(r) && a.version == Top(r, a.id) + 1
    ensures Contiguous(Insert(r, a)) && (a.id, a.version) !in r.rows
    ensures Top(Insert(r, a), a.id) == a.version
  {
  }

  lemma InsertRows<B>(r: Registry<B>, a: Artifact<B>, id: string, v: int)
    requires Contiguous(r) && Extends(r, a) && Contiguous(Insert(r, a))
    requires (id, v) in Insert(r, a).rows && ((id, v) in r.rows ==> RowFits(r, id, v))
    ensures RowFits(Insert(r, a), id, v)
  {
    InsertContiguous(r, a);
  }

  lemma InsertHistory<B>(r: Registry<B>, a: Artifact<B>, judged: map<string, Evaluation>, id: string)
    requires Contiguous(r) && Extends(r, a) && HistoryExtends(r, a, judged)
        && Contiguous(Insert(r, a).(judged := judged))
    requires id in r.tops || id == a.id
    requires id in r.tops ==> History(r, id)
    ensures History(Insert(r, a).(judged := judged), id)
  {
    InsertContiguous(r, a);
  }

  lemma InsertKeeps<B>(r: Registry<B>, a: Artifact<B>, judged: map<string, Evaluation>)
    requires Disciplined(r) && Extends(r, a) && HistoryExtends(r, a, judged)
    ensures Disciplined(Insert(r, a).(judged := judged))
    ensures (a.id, a.version) !in r.rows
  {
    var t := Insert(r, a).(judged := judged);
    InsertContiguous(r, a);
    ContiguousFrame(Insert(r, a), t);
    forall id, v: int | (id, v) in t.rows ensures RowFits(t, id, v) {
      InsertRows(r, a, id, v);
    }
    forall id | id in t.tops ensures History(t, id) { InsertHistory(r, a, judged, id); }
    hide RowFits, History;
  }

  lemma ContiguousFrame<B>(r: Registry<B>, t: Registry<B>)
    requires Contiguous(r) && t.rows == r.rows && t.tops == r.tops
    ensures Contiguous(t)
  {
  }

  /** With a disciplined table every read succeeds: no stored row ever fails validation. */
  lemma ReadsValidate<B>(r: Registry<B>, id: string, v: int)
    requires Disciplined(r) && (id, v) in r.rows
    ensures Get(r, id, v) == Ok(r, r.rows[(id, v)])
    ensures r.rows[(id, v)].id == id && r.rows[(id, v)].version == v
  {
    assert RowFits(r, id, v);
  }

  /** Rows are stored under their own id and version. */
  lemma KeysMatch<B>(r: Registry<B>)
    requires Disciplined(r)
    ensures Contiguous(r) && forall k :: k in r.rows ==> r.rows[k].id == k.0 && r.rows[k].version == k.1
  {
    forall k | k in r.rows
      ensures r.rows[k].id == k.0 && r.rows[k].version == k.1
    {
      ReadsValidate(r, k.0, k.1);
    }
    hide RowFits, History;
  }

  lemma NextIsTop<B>(r: Registry<B>, id: string, v: int)
    requires Contiguous(r) && (id, v) in r.rows && (id, v + 1) !in r.rows
    ensures id in r.tops && v == r.tops[id]
  {
    RowRange(r, id, v);
    RowRange(r, id, v + 1);
  }

  lemma RowRange<B>(r: Registry<B>, id: string, v: int)
    requires Contiguous(r)
    ensures (id, v) in r.rows <==> id in r.tops && 1 <= v <= r.tops[id]
  {
  }

  /** What is known about one row of a disciplined table. */
  lemma RowIs<B>(r: Registry<B>, id: string, v: int)
    requires Disciplined(r) && (id, v) in r.rows
    ensures Contiguous(r) && id in r.tops && 1 <= v <= r.tops[id] && (id, 1) in r.rows
    ensures RowFits(r, id, v) && History(r, id)
  {
    RowRange(r, id, v);
    RowRange(r, id, 1);
    hide RowFits, History;
  }

  /** The next version of an artifact, with the content of any of its rows, extends its history. */
  lemma SuccessorExtends<B>(r: Registry<B>, id: string, v: int, source: int, a: Artifact<B>)
    requires Disciplined(r) && (id, v) in r.rows && (id, source) in r.rows && (id, v + 1) !in r.rows
    requires a.id == id && a.version == v + 1 && Same(a, r.rows[(id, source)])
    requires StageFits(a.version, a.stage) && Validates(a) && ParentsFit(a)
    requires a.version == 3 ==> Truthy(a.rollbackTarget)
    ensures Contiguous(r) && Extends(r, a)
  {
    RowIs(r, id, v);
    RowIs(r, id, source);
    NextIsTop(r, id, v);
    hide Disciplined, Contiguous, History, Validates, ParentsFit, StageFits;
  }

  lemma GenerateKeeps<B>(r: Registry<B>, s: Signal<B>, id: string, author: string, now: string)
    requires Disciplined(r)
    ensures var out := Generate(r, s, id, author, now); out.Ok? ==> Disciplined(out.registry)
  {
    if id in r.tops { RowRange(r, id, r.tops[id]); }
    var out := Generate(r, s, id, author, now);
    if out.Ok? && out.registry != r {
      InsertKeeps(r, out.artifact, r.judged);
    }
  }

  lemma EvaluateWrites<B>(r: Registry<B>, id: string, v: int, e: Evaluation, author: string, now: string)
    requires (id, v) in r.rows ==> r.rows[(id, v)].id == id
    ensures var out := Evaluate(r, id, v, e, author, now);
            out.Ok? && out.registry != r ==>
              && (id, v) in r.rows && (id, v + 1) !in r.rows && Validates(r.rows[(id, v)])
              && r.rows[(id, v)].stage.Candidate?
              && out.registry == Insert(r, out.artifact).(judged := r.judged[id := e])
              && out.artifact == EvaluatedRow(r.rows[(id, v)], id, v, e, author, now)
  {
  }

  lemma EvaluateKeeps<B>(r: Registry<B>, id: string, v: int, e: Evaluation, author: string, now: string)
    requires Disciplined(r)
    ensures var out := Evaluate(r, id, v, e, author, now); out.Ok? ==> Disciplined(out.registry)
  {
    if (id, v) in r.rows { RowIs(r, id, v); }
    EvaluateWrites(r, id, v, e, author, now);
    var out := Evaluate(r, id, v, e, author, now);
    hide Evaluate, Insert, Disciplined, Contiguous, History, Passed;
    if out.Ok? && out.registry != r {
      assert v == 1;
      SuccessorExtends(r, id, v, v, out.artifact);
      InsertKeeps(r, out.artifact, r.judged[id := e]);
    }
  }

  lemma StartCanaryWrites<B>(
      r: Registry<B>, id: string, v: int, target: string, approval: string, author: string, now: string)
    requires (id, v) in r.rows ==> r.rows[(id, v)].id == id
    ensures var out := StartCanary(r, id, v, target, approval, author, now);
            out.Ok? && out.registry != r ==>
              && (id, v) in r.rows && (id, v + 1) !in r.rows && Validates(r.rows[(id, v)])
              && r.rows[(id, v)].stage.Evaluated? && approval != "" && target != ""
              && out.registry == Insert(r, out.artifact)
              && out.artifact == r.rows[(id, v)].(
                   version := v + 1, stage := Canary, parents := [(id, v)], rollbackTarget := Some(target),
                   approval := Some(approval), createdBy := author, createdAt := now)
  {
    hide Insert;
  }

  lemma StartCanaryKeeps<B>(
      r: Registry<B>, id: string, v: int, target: string, approval: string, author: string, now: string)
    requires Disciplined(r)
    ensures var out := StartCanary(r, id, v, target, approval, author, now); out.Ok? ==> Disciplined(out.registry)
  {
    if (id, v) in r.rows { RowIs(r, id, v); }
    StartCanaryWrites(r, id, v, target, approval, author, now);
    var out := StartCanary(r, id, v, target, approval, author, now);
    hide StartCanary, Insert, Disciplined, Contiguous, History, HelpfulCanary;
    if out.Ok? && out.registry != r {
      assert v == 2;
      SuccessorExtends(r, id, v, v, out.artifact);
      InsertKeeps(r, out.artifact, r.judged);
      InsertJudged(r, out.artifact);
    }
  }

  lemma PromoteWrites<B>(r: Registry<B>, id: string, v: int, approval: string, author: string, now: string)
    requires (id, v) in r.rows ==> r.rows[(id, v)].id == id
    ensures var out := Promote(r, id, v, approval, author, now);
            out.Ok? && out.registry != r ==>
              && (id, v) in r.rows && (id, v + 1) !in r.rows && Validates(r.rows[(id, v)])
              && r.rows[(id, v)].stage.Canary? && HelpfulCanary(r, id, v) && approval != ""
              && Truthy(r.rows[(id, v)].rollbackTarget)
              && out.registry == Insert(r, out.artifact)
              && out.artifact == r.rows[(id, v)].(
                   version := v + 1, stage := Active, parents := [(id, v)],
                   approval := Some(approval), createdBy := author, createdAt := now)
  {
    hide Insert;
  }

  lemma PromoteKeeps<B>(r: Registry<B>, id: string, v: int, approval: string, author: string, now: string)
    requires Disciplined(r)
    ensures var out := Promote(r, id, v, approval, author, now); out.Ok? ==> Disciplined(out.registry)
  {
    if (id, v) in r.rows { RowIs(r, id, v); }
    PromoteWrites(r, id, v, approval, author, now);
    var out := Promote(r, id, v, approval, author, now);
    hide Promote, Insert, Disciplined, Contiguous, History, HelpfulCanary;
    if out.Ok? && out.registry != r {
      assert v == 3;
      SuccessorExtends(r, id, v, v, out.artifact);
      InsertKeeps(r, out.artifact, r.judged);
      InsertJudged(r, out.artifact);
    }
  }

  /** The row that a successful rollback writes. */
  lemma RollbackWrites<B>(
      r: Registry<B>, id: string, current: int, target: int, approval: string, author: string, now: string)
    requires (id, target) in r.rows ==> r.rows[(id, target)].id == id
    ensures var out := Rollback(r, id, current, target, approval, author, now);
            out.Ok? && out.registry != r ==>
              && (id, current) in r.rows && (id, target) in r.rows && (id, current + 1) !in r.rows
              && r.rows[(id, current)].stage.Active? && Validates(r.rows[(id, target)]) && approval != ""
              && out.registry == Insert(r, out.artifact)
              && out.artifact == r.rows[(id, target)].(
                   version := current + 1, stage := Active, parents := [(id, current), (id, target)],
                   rollbackTarget := Some(Reference(id, current)),
                   approval := Some(approval), createdBy := author, createdAt := now)
  {
    hide Insert;
  }

  /** The row that a rollback copies stays valid, although nothing validates it again. */
  lemma RolledBackFits<B>(b: Artifact<B>, a: Artifact<B>, current: int, target: int, approval: string)
    requires current >= 4 && 1 <= target <= current && Validates(b) && approval != ""
    requires a.id == b.id && a.kind == b.kind && a.payload == b.payload && a.highImpact == b.highImpact
    requires a.sources == b.sources && a.version == current + 1 && a.stage == Active
    requires a.parents == [(b.id, current), (b.id, target)]
    requires a.rollbackTarget == Some(Reference(b.id, current)) && a.approval == Some(approval)
    ensures Same(a, b) && StageFits(a.version, a.stage) && Validates(a) && ParentsFit(a)
  {
  }

  lemma RollbackKeeps<B>(
      r: Registry<B>, id: string, current: int, target: int, approval: string, author: string, now: string)
    requires Disciplined(r)
    ensures var out := Rollback(r, id, current, target, approval, author, now); out.Ok? ==> Disciplined(out.registry)
  {
    if (id, target) in r.rows { RowIs(r, id, target); }
    if (id, current) in r.rows { RowIs(r, id, current); }
    RollbackWrites(r, id, current, target, approval, author, now);
    var out := Rollback(r, id, current, target, approval, author, now);
    hide Rollback, Insert, Disciplined, Contiguous, History, Reference;
    if out.Ok? && out.registry != r {
      var a := out.artifact;
      assert current >= 4;
      hide Validates, Same, ParentsFit, RowFits;
      NextIsTop(r, id, current);
      RolledBackFits(r.rows[(id, target)], a, current, target, approval);
      hide StageFits;
      SuccessorExtends(r, id, current, target, a);
      hide Extends;
      InsertKeeps(r, a, r.judged);
      InsertJudged(r, a);
    }
  }

  lemma InsertJudged<B>(r: Registry<B>, a: Artifact<B>)
    ensures Insert(r, a).judged == r.judged
  {
  }

  lemma RecordCanaryKeeps<B>(r: Registry<B>, id: string, v: int, verdict: Verdict, evidence: seq<string>)
    requires Disciplined(r)
    ensures var out := RecordCanary(r, id, v, verdict, evidence); out.Ok? ==> Disciplined(out.registry)
  {
    var out := RecordCanary(r, id, v, verdict, evidence);
    if out.Ok? {
      var t := out.registry;
      ContiguousFrame(r, t);
      forall x, v: int | (x, v) in t.rows ensures RowFits(t, x, v) { assert RowFits(r, x, v); }
      forall x | x in t.tops ensures History(t, x) {
        assert History(r, x);
        if HelpfulCanary(r, x, 3) { MoreCanaries(r, t, x, 3); }
      }
      hide RowFits, History;
    }
  }

  lemma MoreCanaries<B>(r: Registry<B>, t: Registry<B>, id: string, v: int)
    requires HelpfulCanary(r, id, v) && r.canaries <= t.canaries
    ensures HelpfulCanary(t, id, v)
  {
    var i :| 0 <= i < |r.canaries| && r.canaries[i].id == id && r.canaries[i].version == v
        && r.canaries[i].verdict.Helpful?;
    assert t.canaries[i] == r.canaries[i];
  }
}
