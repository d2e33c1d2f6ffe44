/** The registry object: its methods read rows, append rows, and append canary records. */
module EvolutionObject {
  import opened Prelude
  import opened Evolution
  import opened EvolutionRuns

  datatype Answer<B> = Answered(artifact: Artifact<B>) | Failed(failure: Failure)

  /** The outcome and the new table are those of the specification. */
  ghost predicate Did<B>(spec: Result<B>, before: Registry<B>, after: Registry<B>, out: Answer<B>) {
    match spec
    case Ok(r, a) => after == r && out == Answered(a)
    case Err(f) => after == before && out == Failed(f)
  }

  class EvolutionRegistry<B(==,!new)> {
    var rows: map<(string, int), Artifact<B>>
    var canaries: seq<CanaryRecord>
    ghost var tops: map<string, nat>
    ghost var judged: map<string, Evaluation>

    ghost function View(): Registry<B>
      reads this
    {
      Registry(rows, canaries, tops, judged)
    }

    ghost predicate Valid()
      reads this
    {
      Disciplined(View())
    }

    constructor ()
      ensures Valid() && View() == Empty<B>()
    {
      rows, canaries, tops, judged := map[], [], map[], map[];
      new;
      EmptyDisciplined<B>();
    }

    method Write(a: Artifact<B>) returns (out: Answer<B>)
      modifies this`rows, this`tops
      ensures Did(Put(old(View()), a), old(View()), View(), out)
    {
      if (a.id, a.version) in rows {
        return if rows[(a.id, a.version)] == a then Answered(a) else Failed(Immutable);
      }
      rows := rows[(a.id, a.version) := a];
      tops := tops[a.id := if a.version >= 0 then a.version else 0];
      out := Answered(a);
    }

    /** Reading re-validates the row; on a disciplined table that never fails. */
    method Read(id: string, version: int) returns (out: Answer<B>)
      ensures match Get(View(), id, version)
              case Ok(_, a) => out == Answered(a)
              case Err(f) => out == Failed(f)
      ensures Valid() ==> out != Failed(InvalidRow)
    {
      if (id, version) !in rows {
        return Failed(NotFound);
      }
      if Valid() {
        ReadsValidate(View(), id, version);
      }
      var a := rows[(id, version)];
      out := if Validates(a) then Answered(a) else Failed(InvalidRow);
    }

    method EvaluateVersion(
        id: string, version: int, e: Evaluation, author: string, now: string) returns (out: Answer<B>)
      requires Valid()
      modifies this
      ensures Valid() && Did(Evaluate(old(View()), id, version, e, author, now), old(View()), View(), out)
    {
      EvaluateKeeps(View(), id, version, e, author, now);
      hide Disciplined, Validates, Insert, EvaluatedRow;
      out := Read(id, version);
      if out.Failed? {
        return;
      }
      var a := out.artifact;
      if !a.stage.Candidate? {
        return Failed(WrongStage);
      }
      ghost var before := View();
      out := Write(EvaluatedRow(a, id, version, e, author, now));
      hide Put, Get;
      if out.Answered? && View() != before {
        judged := judged[id := e];
        assert View() == Judged(Put(before, EvaluatedRow(a, id, version, e, author, now)).registry, id, e);
      }
    }

    method BeginCanary(id: string, version: int, target: string, approval: string, author: string, now: string)
      returns (out: Answer<B>)
      requires Valid()
      modifies this
      ensures Valid() && Did(StartCanary(old(View()), id, version, target, approval, author, now), old(View()),
          View(), out)
    {
      StartCanaryKeeps(View(), id, version, target, approval, author, now);
      hide Disciplined, Validates, Insert;
      out := Read(id, version);
      if out.Failed? {
        return;
      }
      var a := out.artifact;
      if !a.stage.Evaluated? || a.evaluations == [] {
        return Failed(WrongStage);
      }
      if approval == "" || target == "" {
        return Failed(NotPermitted);
      }
      out := Write(a.(version := version + 1, stage := Canary, parents := [(id, version)],
                      rollbackTarget := Some(target), approval := Some(approval), createdBy := author,
                          createdAt := now));
    }

    method NoteCanary(id: string, version: int, verdict: Verdict, evidence: seq<string>) returns (out: Answer<B>)
      requires Valid()
      modifies this
      ensures Valid() && Did(RecordCanary(old(View()), id, version, verdict, evidence), old(View()), View(), out)
    {
      RecordCanaryKeeps(View(), id, version, verdict, evidence);
      hide Disciplined;
      out := Read(id, version);
      if out.Failed? {
        return;
      }
      if !out.artifact.stage.Canary? || evidence == [] {
        return Failed(WrongStage);
      }
      canaries := canaries + [CanaryRecord(id, version, verdict, evidence)];
    }

    method HasHelpfulCanary(id: string, version: int) returns (found: bool)
      ensures found <==> HelpfulCanary(View(), id, version)
    {
      var i := 0;
      while i < |canaries|
        invariant 0 <= i <= |canaries|
        invariant forall j :: 0 <= j < i ==>
                    !(canaries[j].id == id && canaries[j].version == version && canaries[j].verdict.Helpful?)
      {
        if canaries[i].id == id && canaries[i].version == version && canaries[i].verdict.Helpful? {
          return true;
        }
        i := i + 1;
      }
      found := false;
    }

    method PromoteVersion(
        id: string, version: int, approval: string, author: string, now: string) returns (out: Answer<B>)
      requires Valid()
      modifies this
      ensures Valid() && Did(Promote(old(View()), id, version, approval, author, now), old(View()), View(), out)
    {
      PromoteKeeps(View(), id, version, approval, author, now);
      hide Disciplined;
      out := Read(id, version);
      if out.Failed? {
        return;
      }
      var a := out.artifact;
      var helpful := HasHelpfulCanary(id, version);
      if !a.stage.Canary? || !helpful || approval == "" || !Truthy(a.rollbackTarget) {
        return Failed(NotPermitted);
      }
      out := Write(a.(version := version + 1, stage := Active, parents := [(id, version)],
                      approval := Some(approval), createdBy := author, createdAt := now));
    }

    method RollbackTo(id: string, current: int, target: int, approval: string, author: string, now: string)
      returns (out: Answer<B>)
      requires Valid()
      modifies this
      ensures Valid() && Did(Rollback(old(View()), id, current, target, approval, author, now), old(View()), View(),
          out)
    {
      RollbackKeeps(View(), id, current, target, approval, author, now);
      hide Disciplined;
      out := Read(id, current);
      if out.Failed? {
        return;
      }
      var stage := out.artifact.stage;
      out := Read(id, target);
      if out.Failed? {
        return;
      }
      var goal := out.artifact;
      if !stage.Active? || approval == "" {
        return Failed(NotPermitted);
      }
      out := Write(goal.(version := current + 1, stage := Active, parents := [(id, current), (id, target)],
                         rollbackTarget := Some(Reference(id, current)),
                         approval := Some(approval), createdBy := author, createdAt := now));
    }

    /** The row of `id` with the greatest version among those the filter admits. */
    method Greatest(id: string, activeOnly: bool) returns (best: Option<Artifact<B>>)
      requires Valid()
      ensures activeOnly ==> IsActive(View(), id, best)
      ensures !activeOnly ==> best == Newest(View(), id)
    {
      KeysMatch(View());
      best := GreatestRow(rows, id, activeOnly);
      BestOfAll(View(), id, activeOnly, best);
    }

    method GenerateCandidate(s: Signal<B>, id: string, author: string, now: string) returns (out: Answer<B>)
      requires Valid()
      modifies this
      ensures Valid() && Did(Generate(old(View()), s, id, author, now), old(View()), View(), out)
    {
      GenerateKeeps(View(), s, id, author, now);
      if !s.allowed || !s.payload.complete || ((s.kind.Prompt? || s.kind.JudgePrompt?) && !s.payload.promptOk) {
        return Failed(BadSignal);
      }
      var existing := Greatest(id, false);
      hide Disciplined;
      if existing.Some? {
        return Answered(existing.value);
      }
      out := Write(Artifact(id, s.kind, 1, Candidate, s.payload, s.highImpact || s.kind.Policy?, s.evidence, [], [],
                            None, None, author, now));
    }
  }

  method GreatestRow<B>(rows: map<(string, int), Artifact<B>>, id: string, activeOnly: bool)
    returns (best: Option<Artifact<B>>)
    requires forall k :: k in rows ==> rows[k].version == k.1
    ensures BestOf(rows, rows.Keys, id, activeOnly, best)
  {
    hide BestOf;
    best := None;
    var rest := rows.Keys;
    BestOfNothing(rows, id, activeOnly);
    while rest != {}
      invariant rest <= rows.Keys && BestOf(rows, rows.Keys - rest, id, activeOnly, best)
      decreases |rest|
    {
      var k :| k in rest;
      BestNext(rows, rows.Keys - rest, id, activeOnly, best, k);
      assert rows.Keys - (rest - {k}) == rows.Keys - rest + {k};
      rest := rest - {k};
      if k.0 == id && (activeOnly ==> rows[k].stage.Active?) && (best.None? || rows[k].version > best.value.version) {
        best := Some(rows[k]);
      }
    }
    assert rows.Keys - rest == rows.Keys;
  }

  /** `best` has the greatest version of `id` among the rows seen that the filter admits. */
  ghost predicate BestOf<B>(
      rows: map<(string, int), Artifact<B>>, seen: set<(string, int)>, id: string, activeOnly: bool,
      best: Option<Artifact<B>>)
    requires seen <= rows.Keys
  {
    match best
    case None => forall k :: k in seen && k.0 == id ==> activeOnly && !rows[k].stage.Active?
    case Some(x) =>
      && (id, x.version) in seen && rows[(id, x.version)] == x && (activeOnly ==> x.stage.Active?)
      && forall k :: k in seen && k.0 == id && (activeOnly ==> rows[k].stage.Active?) ==> k.1 <= x.version
  }

  lemma BestOfNothing<B>(rows: map<(string, int), Artifact<B>>, id: string, activeOnly: bool)
    ensures BestOf(rows, rows.Keys - rows.Keys, id, activeOnly, None)
  {
  }

  lemma BestNext<B>(
      rows: map<(string, int), Artifact<B>>, seen: set<(string, int)>, id: string, activeOnly: bool,
      best: Option<Artifact<B>>, k: (string, int))
    requires seen <= rows.Keys && k in rows && rows[k].version == k.1
    requires BestOf(rows, seen, id, activeOnly, best)
    ensures BestOf(rows, seen + {k}, id, activeOnly,
                   if k.0 == id && (activeOnly ==> rows[k].stage.Active?) &&
                      (best.None? || rows[k].version > best.value.version)
                   then Some(rows[k]) else best)
  {
    assert k == (k.0, k.1);
  }

  lemma BestOfAll<B>(r: Registry<B>, id: string, activeOnly: bool, best: Option<Artifact<B>>)
    requires Contiguous(r) && BestOf(r.rows, r.rows.Keys, id, activeOnly, best)
    ensures activeOnly ==> IsActive(r, id, best)
    ensures !activeOnly ==> best == Newest(r, id)
  {
    if id in r.tops {
      RowRange(r, id, r.tops[id]);
    }
    if best.Some? {
      RowRange(r, id, best.value.version);
    }
    hide Contiguous;
    assert forall v: int :: (id, v) in r.rows ==> (id, v) in r.rows.Keys;
  }
}
