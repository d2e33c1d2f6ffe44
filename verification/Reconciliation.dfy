/** How finished delegates become results, decisions and requested actions. */
module Reconciliation {
  import opened Prelude
  import opened Delegation
  import opened Dedup

  datatype Result = Result(
    id: string, role: Role, from: Snapshot, staleness: Staleness, finding: Option<Finding>,
    failure: Option<string>, message: Option<string>)

  datatype Decision = Decision(
    oldAssumptions: seq<string>, newEvidence: seq<string>, direction: string, affected: seq<string>,
    role: Role, from: Snapshot)

  datatype Report = Report(
    results: seq<Result>, decisions: seq<Decision>, reloop: bool, notified: bool, actions: seq<string>)

  /** What a task ends with: what it has ended with, or what waiting for it brings. */
  function OutcomeOf(h: Handle, await: string -> Outcome): Outcome {
    if h.task.Ended? then h.task.outcome else await(h.id)
  }

  function ResultOf(h: Handle, current: Snapshot, await: string -> Outcome): Result {
    var staleness := Classify(h.from, current);
    match OutcomeOf(h, await)
    case Found(finding) => Result(h.id, h.role, h.from, staleness, Some(finding), None, None)
    case Broke(kind, message) =>
      Result(h.id, h.role, h.from, staleness, None, Some(kind),
          Some(if |message| > 256 then message[..256] else message))
    case Cancelled => Result(h.id, h.role, h.from, staleness, None, Some("CancelledError"), None)
  }

  predicate Corrective(h: Handle, current: Snapshot, await: string -> Outcome) {
    && h.relevant
    && OutcomeOf(h, await).Found?
    && OutcomeOf(h, await).finding.corrective
    && Classify(h.from, current) != Stale
  }

  function Statements(claims: seq<Claim>): seq<string> {
    if claims == [] then []
    else (if claims[0].evidential then [claims[0].statement] else []) + Statements(claims[1..])
  }

  function DecisionOf(h: Handle, f: Finding): Decision {
    Decision(f.invalidates, Statements(f.claims), f.direction, f.actions, h.role, h.from)
  }

  function Results(hs: seq<Handle>, current: Snapshot, await: string -> Outcome): seq<Result> {
    if hs == [] then []
    else
      var h := hs[|hs| - 1];
      Results(hs[..|hs| - 1], current, await) + (if h.relevant then [ResultOf(h, current, await)] else [])
  }

  function Decisions(hs: seq<Handle>, current: Snapshot, await: string -> Outcome): seq<Decision> {
    if hs == [] then []
    else
      var h := hs[|hs| - 1];
      Decisions(hs[..|hs| - 1], current, await) +
      (if Corrective(h, current, await) then [DecisionOf(h, OutcomeOf(h, await).finding)] else [])
  }

  /** All actions that relevant findings ask for, stale ones included, in launch order. */
  function Requested(hs: seq<Handle>, await: string -> Outcome): seq<string> {
    if hs == [] then []
    else
      var h := hs[|hs| - 1];
      Requested(hs[..|hs| - 1], await) +
      (if h.relevant && OutcomeOf(h, await).Found? then OutcomeOf(h, await).finding.actions else [])
  }

  /** A loop over relevant handles is a report of `hs` under these conditions. */
  ghost predicate Reports(hs: seq<Handle>, current: Snapshot, await: string -> Outcome, r: Report) {
    && r.results == Results(hs, current, await)
    && r.decisions == Decisions(hs, current, await)
    && (r.reloop <==> exists i :: 0 <= i < |hs| && Corrective(hs[i], current, await))
    && r.notified == r.reloop
    && FirstSeen(Requested(hs, await), r.actions)
  }

  // ---------------------------------------------------------------- launch order

  /** Exactly the positions of relevant handles, in launch order. */
  ghost predicate RelevantAt(hs: seq<Handle>, keep: seq<nat>) {
    && Increasing(keep, |hs|)
    && forall i: nat :: i in keep <==> i < |hs| && hs[i].relevant
  }

  /** Results come once per relevant handle, in launch order. */
  lemma {:induction false} ResultsInOrder(hs: seq<Handle>, current: Snapshot, await: string -> Outcome)
      returns (keep: seq<nat>)
    ensures RelevantAt(hs, keep) && |keep| == |Results(hs, current, await)|
    ensures forall j :: 0 <= j < |keep| ==> Results(hs, current, await)[j] == ResultOf(hs[keep[j]], current, await)
  {
    hide ResultOf;
    keep := [];
    if hs != [] {
      var n := |hs| - 1;
      var front := hs[..n];
      keep := ResultsInOrder(front, current, await);
      if hs[n].relevant {
        keep := keep + [n];
      }
    }
  }

  lemma {:induction false} DecisionsIff(hs: seq<Handle>, current: Snapshot, await: string -> Outcome)
    ensures Decisions(hs, current, await) != [] <==> exists i :: 0 <= i < |hs| && Corrective(hs[i], current, await)
  {
    hide Corrective;
    if hs != [] {
      var n := |hs| - 1;
      DecisionsIff(hs[..n], current, await);
      if i :| 0 <= i < |hs| && Corrective(hs[i], current, await) {
        assert i < n ==> hs[..n][i] == hs[i];
      }
    }
  }

  // ---------------------------------------------------------------- cancelling obsolete work

  /** Two ways of waiting that agree on every pending handle that is not obsolete. */
  ghost predicate AgreeOnFresh(hs: seq<Handle>, current: Snapshot, a: string -> Outcome, b: string -> Outcome) {
    forall i :: 0 <= i < |hs| && Pending(hs[i]) && !Obsolete(hs[i], current) ==> a(hs[i].id) == b(hs[i].id)
  }

  lemma FrontAgrees(hs: seq<Handle>, current: Snapshot, a: string -> Outcome, b: string -> Outcome)
    requires AgreeOnFresh(hs, current, a, b) && |hs| > 0
    ensures AgreeOnFresh(hs[..|hs| - 1], current, a, b)
    ensures MarkedAll(hs, current)[..|hs| - 1] == MarkedAll(hs[..|hs| - 1], current)
  {
  }

  /** Cancelled tasks may end in any way: no decision depends on them. */
  lemma {:induction false} SameDecisions(hs: seq<Handle>, current: Snapshot, a: string -> Outcome, b: string -> Outcome)
    requires AgreeOnFresh(hs, current, a, b)
    ensures Decisions(MarkedAll(hs, current), current, b) == Decisions(hs, current, a)
  {
    if hs != [] {
      var n := |hs| - 1;
      FrontAgrees(hs, current, a, b);
      SameDecisions(hs[..n], current, a, b);
      assert MarkedAll(hs, current)[n] == Marked(hs[n], current);
    }
  }

  /** Only results of stale handles can differ, and only in how they ended. */
  lemma {:induction false} SameFreshResults(
      hs: seq<Handle>, current: Snapshot, a: string -> Outcome, b: string -> Outcome)
    requires AgreeOnFresh(hs, current, a, b)
    ensures var before, after := Results(hs, current, a), Results(MarkedAll(hs, current), current, b);
            && |before| == |after|
            && forall j :: 0 <= j < |before| ==>
                 && after[j].id == before[j].id && after[j].role == before[j].role
                 && after[j].from == before[j].from && after[j].staleness == before[j].staleness
                 && (before[j].staleness != Stale ==> after[j] == before[j])
  {
    if hs != [] {
      var n := |hs| - 1;
      FrontAgrees(hs, current, a, b);
      SameFreshResults(hs[..n], current, a, b);
      SameResult(hs[n], current, a, b);
      assert MarkedAll(hs, current)[n] == Marked(hs[n], current);
    }
  }

  lemma SameResult(h: Handle, current: Snapshot, a: string -> Outcome, b: string -> Outcome)
    requires AgreeOnFresh([h], current, a, b)
    ensures var before, after := ResultOf(h, current, a), ResultOf(Marked(h, current), current, b);
            && after.id == before.id && after.role == before.role
            && after.from == before.from && after.staleness == before.staleness
            && (before.staleness != Stale ==> after == before)
  {
    assert [h][0] == h;
  }

  /** Cancelling obsolete work first leaves the verdict of finalisation as it was. */
  lemma CancelPreserves(
      hs: seq<Handle>, current: Snapshot, a: string -> Outcome, b: string -> Outcome, r: Report, q: Report)
    requires AgreeOnFresh(hs, current, a, b)
    requires Reports(hs, current, a, r) && Reports(MarkedAll(hs, current), current, b, q)
    ensures q.reloop == r.reloop && q.notified == r.notified && q.decisions == r.decisions
  {
    SameDecisions(hs, current, a, b);
    DecisionsIff(hs, current, a);
    DecisionsIff(MarkedAll(hs, current), current, b);
  }

  /** Requested actions are not protected in the same way: a stale finding still counts for them. */
  lemma CancelCanLoseActions(h: Handle, current: Snapshot, f: Finding)
    requires h.relevant && Obsolete(h, current) && f.actions != []
    ensures Requested([h], _ => Found(f)) == f.actions
    ensures Requested(MarkedAll([h], current), _ => Cancelled) == []
  {
    var gs := MarkedAll([h], current);
    assert gs[0] == Marked(h, current) && gs[..0] == [] && [h][..0] == [];
    assert Requested([], _ => Found(f)) == [];
  }

  // ---------------------------------------------------------------- when actions survive

  ghost predicate NamesDistinct(hs: seq<Handle>) {
    forall i, j :: 0 <= i < j < |hs| ==> hs[i].id != hs[j].id
  }

  /** Some handle that counts for the report is about to be cancelled. */
  ghost predicate LosesRelevant(hs: seq<Handle>, current: Snapshot) {
    exists i :: 0 <= i < |hs| && hs[i].relevant && Obsolete(hs[i], current)
  }

  /** Whatever the tasks end with, finalising after the cancellation asks for the same actions. */
  ghost predicate ActionsSurvive(hs: seq<Handle>, current: Snapshot) {
    forall a, b, r: Report, q: Report ::
      AgreeOnFresh(hs, current, a, b) && Reports(hs, current, a, r)
          && Reports(MarkedAll(hs, current), current, b, q) ==>
        q.actions == r.actions
  }

  lemma {:induction false} SameRequested(hs: seq<Handle>, current: Snapshot, a: string -> Outcome, b: string -> Outcome)
    requires AgreeOnFresh(hs, current, a, b) && !LosesRelevant(hs, current)
    ensures Requested(MarkedAll(hs, current), b) == Requested(hs, a)
  {
    if hs != [] {
      var n := |hs| - 1;
      FrontAgrees(hs, current, a, b);
      assert forall i :: 0 <= i < n ==> hs[..n][i] == hs[i];
      SameRequested(hs[..n], current, a, b);
      assert MarkedAll(hs, current)[n] == Marked(hs[n], current);
    }
  }

  lemma {:induction false} RequestedHas(hs: seq<Handle>, await: string -> Outcome, i: nat, x: string)
    requires i < |hs| && hs[i].relevant && OutcomeOf(hs[i], await).Found?
    requires x in OutcomeOf(hs[i], await).finding.actions
    ensures x in Requested(hs, await)
  {
    hide OutcomeOf;
    var n := |hs| - 1;
    if i < n {
      RequestedHas(hs[..n], await, i, x);
    }
  }

  /** A text longer than all of `xs` is not among them. */
  lemma {:induction false} NewText(xs: seq<string>) returns (x: string)
    ensures |x| > 0 && forall y :: y in xs ==> |y| < |x|
  {
    if xs == [] {
      x := "x";
    } else {
      var y := NewText(xs[1..]);
      x := y + xs[0];
    }
  }

  lemma ReportExists(hs: seq<Handle>, current: Snapshot, await: string -> Outcome) returns (r: Report)
    ensures Reports(hs, current, await, r)
  {
    hide FirstSeen;
    var actions := FirstSeenExists(Requested(hs, await));
    var reloop := exists i :: 0 <= i < |hs| && Corrective(hs[i], current, await);
    r := Report(Results(hs, current, await), Decisions(hs, current, await), reloop, reloop, actions);
  }

  lemma ActionsDiffer(
      hs: seq<Handle>, current: Snapshot, a: string -> Outcome, b: string -> Outcome, x: string)
    requires AgreeOnFresh(hs, current, a, b)
    requires x in Requested(hs, a) && x !in Requested(MarkedAll(hs, current), b)
    ensures !ActionsSurvive(hs, current)
  {
    var gs := MarkedAll(hs, current);
    hide Requested, FirstSeen, Results, Decisions, MarkedAll, Corrective, AgreeOnFresh;
    var r := ReportExists(hs, current, a);
    var q := ReportExists(gs, current, b);
    FirstSeenMembers(Requested(hs, a), r.actions, x);
    FirstSeenMembers(Requested(gs, b), q.actions, x);
  }

  /** One relevant obsolete handle is enough: it could have asked for something nobody else asks for. */
  lemma LossIsPossible(hs: seq<Handle>, current: Snapshot)
    requires NamesDistinct(hs) && LosesRelevant(hs, current)
    ensures !ActionsSurvive(hs, current)
  {
    var i :| 0 <= i < |hs| && hs[i].relevant && Obsolete(hs[i], current);
    var b := (id: string) => Cancelled;
    var lost := Requested(MarkedAll(hs, current), b);
    var x := NewText(lost);
    assert x !in lost;
    var a := (id: string) => if id == hs[i].id then Found(Finding([], false, [], "", [x])) else Cancelled;
    assert AgreeOnFresh(hs, current, a, b);
    RequestedHas(hs, a, i, x);
    hide ActionsSurvive, Requested;
    ActionsDiffer(hs, current, a, b, x);
  }

  /** Requested actions survive the cancellation for sure if and only if no relevant handle is obsolete. */
  lemma ActionsSurviveIff(hs: seq<Handle>, current: Snapshot)
    requires NamesDistinct(hs)
    ensures ActionsSurvive(hs, current) <==> !LosesRelevant(hs, current)
  {
    if LosesRelevant(hs, current) {
      LossIsPossible(hs, current);
    } else {
      forall a, b, r: Report, q: Report
        | AgreeOnFresh(hs, current, a, b) && Reports(hs, current, a, r)
            && Reports(MarkedAll(hs, current), current, b, q)
        ensures q.actions == r.actions
      {
        SameRequested(hs, current, a, b);
        FirstSeenUnique(Requested(hs, a), r.actions, q.actions);
      }
    }
  }

  // ---------------------------------------------------------------- what a report contains

  /** A finding that calls for a change of direction, from work that is not stale. */
  ghost predicate Decides(h: Handle, current: Snapshot, await: string -> Outcome) {
    && h.relevant && h.from.head == current.head && h.from.tree == current.tree
    && OutcomeOf(h, await).Found? && OutcomeOf(h, await).finding.corrective
  }

  /** `d` is the decision that handle `h` leads to. */
  ghost predicate DecidedBy(d: Decision, h: Handle, await: string -> Outcome) {
    && OutcomeOf(h, await).Found?
    && var f := OutcomeOf(h, await).finding;
       && d.oldAssumptions == f.invalidates && d.direction == f.direction && d.affected == f.actions
       && d.role == h.role && d.from == h.from
       && exists keep :: Evidential(f.claims, d.newEvidence, keep)
  }

  /** The statements of exactly the facts and observations among the claims, in order. */
  ghost predicate Evidential(claims: seq<Claim>, statements: seq<string>, keep: seq<nat>) {
    && Exactly(claims, keep, (c: Claim) => c.evidential)
    && |keep| == |statements| && SaysAt(claims, statements, keep)
  }

  ghost predicate SaysAt(claims: seq<Claim>, statements: seq<string>, keep: seq<nat>)
    requires |keep| == |statements|
  {
    forall j :: 0 <= j < |keep| ==> keep[j] < |claims| && statements[j] == claims[keep[j]].statement
  }

  lemma SaysShifted(claims: seq<Claim>, statements: seq<string>, rest: seq<nat>)
    requires claims != [] && |rest| == |statements|
    requires SaysAt(claims[1..], statements, rest)
    ensures SaysAt(claims, statements, ShiftUp(rest))
    ensures SaysAt(claims, [claims[0].statement] + statements, [0] + ShiftUp(rest))
  {
    assert forall j :: 0 <= j < |rest| ==> claims[1..][rest[j]] == claims[ShiftUp(rest)[j]];
  }

  lemma EvidentialCons(claims: seq<Claim>, statements: seq<string>, rest: seq<nat>)
    requires claims != [] && Evidential(claims[1..], statements, rest)
    ensures claims[0].evidential ==>
              Evidential(claims, [claims[0].statement] + statements, [0] + ShiftUp(rest))
    ensures !claims[0].evidential ==> Evidential(claims, statements, ShiftUp(rest))
  {
    SaysShifted(claims, statements, rest);
    ExactlyCons(claims, rest, (c: Claim) => c.evidential);
    hide SaysAt, Exactly, ShiftUp;
  }

  lemma {:induction false} StatementsExact(claims: seq<Claim>) returns (keep: seq<nat>)
    ensures Evidential(claims, Statements(claims), keep)
  {
    if claims == [] {
      keep := [];
    } else {
      hide Evidential, ShiftUp;
      var rest := StatementsExact(claims[1..]);
      EvidentialCons(claims, Statements(claims[1..]), rest);
      keep := if claims[0].evidential then [0] + ShiftUp(rest) else ShiftUp(rest);
      assert [] + Statements(claims[1..]) == Statements(claims[1..]);
    }
  }

  lemma CorrectiveDecides(h: Handle, current: Snapshot, await: string -> Outcome)
    ensures Corrective(h, current, await) <==> Decides(h, current, await)
    ensures Decides(h, current, await) ==> DecidedBy(DecisionOf(h, OutcomeOf(h, await).finding), h, await)
  {
    if OutcomeOf(h, await).Found? {
      var keep := StatementsExact(OutcomeOf(h, await).finding.claims);
    }
  }

  /** One decision for every handle that decides, in launch order, and no other. */
  lemma {:induction false} DecisionsExactly(hs: seq<Handle>, current: Snapshot, await: string -> Outcome)
      returns (keep: seq<nat>)
    ensures Increasing(keep, |hs|) && |keep| == |Decisions(hs, current, await)|
    ensures forall i :: 0 <= i < |hs| ==> (i in keep <==> Decides(hs[i], current, await))
    ensures forall j :: 0 <= j < |keep| ==> DecidedBy(Decisions(hs, current, await)[j], hs[keep[j]], await)
  {
    hide Corrective, Decides, DecidedBy, DecisionOf;
    keep := [];
    if hs != [] {
      var n := |hs| - 1;
      keep := DecisionsExactly(hs[..n], current, await);
      CorrectiveDecides(hs[n], current, await);
      assert forall i :: 0 <= i < n ==> hs[..n][i] == hs[i];
      if Corrective(hs[n], current, await) {
        keep := keep + [n];
      }
    }
  }

  /** A report asks for a new loop exactly when some handle decides. */
  lemma ReloopExactly(hs: seq<Handle>, current: Snapshot, await: string -> Outcome, r: Report)
    requires Reports(hs, current, await, r)
    ensures r.reloop <==> exists i :: 0 <= i < |hs| && Decides(hs[i], current, await)
    ensures r.notified <==> r.reloop
  {
    hide Corrective, Decides, FirstSeen;
    forall i | 0 <= i < |hs|
      ensures Corrective(hs[i], current, await) <==> Decides(hs[i], current, await)
    {
      CorrectiveDecides(hs[i], current, await);
    }
  }

  /** What is reported about a handle, by how its task ended. */
  lemma ResultExactly(h: Handle, current: Snapshot, await: string -> Outcome)
    ensures var r, end := ResultOf(h, current, await), OutcomeOf(h, await);
            && r.id == h.id && r.role == h.role && r.from == h.from
            && (r.staleness == Stale <==> h.from.head != current.head || h.from.tree != current.tree)
            && (r.staleness == Current <==> h.from == current)
            && (end.Found? ==> r.finding == Some(end.finding) && r.failure == None && r.message == None)
            && (end.Cancelled? ==> r.finding == None && r.failure == Some("CancelledError") && r.message == None)
            && (end.Broke? ==>
                  && r.finding == None && r.failure == Some(end.kind) && r.message.Some?
                  && r.message.value <= end.message
                  && (if |end.message| > 256 then |r.message.value| == 256 else r.message.value == end.message))
  {
  }

  /** Which actions are requested: those of every finding of a relevant handle, stale ones included. */
  lemma {:induction false} RequestedExactly(hs: seq<Handle>, await: string -> Outcome, x: string)
    ensures x in Requested(hs, await) <==>
            exists i :: 0 <= i < |hs| && hs[i].relevant && OutcomeOf(hs[i], await).Found? &&
                        x in OutcomeOf(hs[i], await).finding.actions
  {
    hide OutcomeOf;
    if hs != [] {
      var n := |hs| - 1;
      RequestedExactly(hs[..n], await, x);
      assert forall i :: 0 <= i < n ==> hs[..n][i] == hs[i];
    }
  }
}
