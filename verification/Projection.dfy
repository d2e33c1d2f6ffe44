/**
 * Projecting a snapshot into one role's context: retention keys, selection by policy, eviction,
 * and the accounting of what was included and excluded.
 */
module Projection {
  import opened Prelude
  import opened Eviction
  import opened Dedup

  datatype Kind = Tool | Diff | Test | Build | Failure | Policy | Checkpoint

  /** `status` is the lower-cased resolution status; `exitFailed` a present, non-zero exit code. */
  datatype Evidence<P> = Evidence(id: string, kind: Kind, status: string, exitFailed: bool, payload: P)
  datatype Contribution<P> = Contribution(id: string, role: string, attempt: string, payload: P)
  datatype Input<P> = Input(id: string, role: string, payload: P)

  // ---------------------------------------------------------------- retention keys

  /** Order of strings by code point. */
  predicate Less(s: string, t: string) {
    if t == [] then false
    else if s == [] then true
    else s[0] < t[0] || (s[0] == t[0] && Less(s[1..], t[1..]))
  }

  lemma {:induction false} LessTotal(s: string, t: string)
    ensures (s == t && !Less(s, t) && !Less(t, s)) || (s != t && (Less(s, t) <==> !Less(t, s)))
  {
    if s != [] && t != [] {
      LessTotal(s[1..], t[1..]);
      assert s == [s[0]] + s[1..] && t == [t[0]] + t[1..];
    }
  }

  lemma {:induction false} LessTransitive(s: string, t: string, u: string)
    requires Less(s, t) && Less(t, u)
    ensures Less(s, u)
  {
    if s != [] && s[0] == t[0] && t[0] == u[0] {
      LessTransitive(s[1..], t[1..], u[1..]);
    }
  }

  function EvidencePriority<P>(e: Evidence<P>): nat {
    if e.kind == Policy then 0
    else if e.kind == Test && (e.status in {"failed", "failure", "error"} || e.exitFailed) then 1
    else if e.kind == Failure && e.status !in {"resolved", "passed", "success", "completed"} then 2
    else if e.kind == Diff then 3
    else if e.kind in {Tool, Test, Build} then 4
    else if e.kind == Checkpoint then 5
    else 6
  }

  /** `a` has the greater retention key, so it goes first. */
  predicate EvidenceBefore<P>(a: Evidence<P>, b: Evidence<P>) {
    EvidencePriority(a) > EvidencePriority(b) ||
    (EvidencePriority(a) == EvidencePriority(b) && Less(b.id, a.id))
  }

  ghost predicate DistinctIds<P(!new)>(xs: seq<Evidence<P>>) {
    forall i, j :: 0 <= i < j < |xs| ==> xs[i].id != xs[j].id
  }

  lemma EvidenceOrder<P(!new)>(xs: seq<Evidence<P>>)
    requires DistinctIds(xs)
    ensures StrictTotal(xs, (a, b) => EvidenceBefore(a, b))
  {
    var o := (a: Evidence<P>, b: Evidence<P>) => EvidenceBefore(a, b);
    forall i, j | 0 <= i < |xs| && 0 <= j < |xs| && i != j
      ensures o(xs[i], xs[j]) <==> !o(xs[j], xs[i])
    {
      LessTotal(xs[i].id, xs[j].id);
      assert xs[i].id != xs[j].id;
    }
    forall a, b, c | o(a, b) && o(b, c)
      ensures o(a, c)
    {
      if Less(c.id, b.id) && Less(b.id, a.id) { LessTransitive(c.id, b.id, a.id); }
    }
  }

  const METADATA: string := "request-metadata"

  function InputPriority<P>(x: Input<P>): nat {
    if x.role in {"system", "developer"} || x.id == METADATA then 0
    else if x.role == "user" then 2
    else 1
  }

  datatype Placed<P> = Placed(index: nat, input: Input<P>)

  /** The source's key is (priority, -index): a lower priority number stays, then the newer item. */
  predicate InputBefore<P>(a: Placed<P>, b: Placed<P>) {
    InputPriority(a.input) > InputPriority(b.input) ||
    (InputPriority(a.input) == InputPriority(b.input) && a.index < b.index)
  }

  ghost predicate Ascending<P>(xs: seq<Placed<P>>) {
    forall i, j :: 0 <= i < j < |xs| ==> xs[i].index < xs[j].index
  }

  lemma InputOrder<P(!new)>(xs: seq<Placed<P>>)
    requires Ascending(xs)
    ensures StrictTotal(xs, (a, b) => InputBefore(a, b))
  {
  }

  function Number<P>(xs: seq<Input<P>>): (r: seq<Placed<P>>)
    ensures |r| == |xs| && forall i :: 0 <= i < |xs| ==> r[i] == Placed(i, xs[i])
  {
    seq(|xs|, i requires 0 <= i < |xs| => Placed(i, xs[i]))
  }

  function Strip<P>(xs: seq<Placed<P>>): (r: seq<Input<P>>)
    ensures |r| == |xs| && forall i :: 0 <= i < |xs| ==> r[i] == xs[i].input
  {
    seq(|xs|, i requires 0 <= i < |xs| => xs[i].input)
  }

  /**
   * The source recomputes indices after every drop. Renumbering an ascending list leaves its
   * worst item where it was.
   */
  lemma {:induction false} RenumberingHarmless<P(!new)>(xs: seq<Placed<P>>, ys: seq<Placed<P>>)
    requires xs != [] && |xs| == |ys| && Ascending(xs) && Ascending(ys)
    requires forall i :: 0 <= i < |xs| ==> xs[i].input == ys[i].input
    ensures Worst(xs, (a, b) => InputBefore(a, b)) == Worst(ys, (a, b) => InputBefore(a, b))
  {
    if |xs| > 1 {
      RenumberingHarmless(xs[1..], ys[1..]);
      var w := 1 + Worst(xs[1..], (a, b) => InputBefore(a, b));
      assert xs[w].index > xs[0].index && ys[w].index > ys[0].index;
    }
  }

  /** The source's own loop: every drop looks at the inputs numbered anew. */
  ghost function EvictRenumbered<P>(xs: seq<Input<P>>, k: nat): seq<Input<P>>
    requires k <= |xs|
    decreases k
  {
    if k == 0 then xs
    else EvictRenumbered(DropAt(xs, Worst(Number(xs), (a, b) => InputBefore(a, b))), k - 1)
  }

  lemma DropAscends<P(!new)>(xs: seq<Placed<P>>, w: nat)
    requires w < |xs| && Ascending(xs)
    ensures Ascending(DropAt(xs, w)) && Strip(DropAt(xs, w)) == DropAt(Strip(xs), w)
  {
    assert forall i :: 0 <= i < |xs| - 1 ==> DropAt(xs, w)[i] == xs[if i < w then i else i + 1];
  }

  ghost function WorstInput<P>(xs: seq<Placed<P>>): nat
    requires xs != []
  {
    Worst(xs, (a, b) => InputBefore(a, b))
  }

  ghost function EvictInputs<P>(xs: seq<Placed<P>>, k: nat): seq<Placed<P>>
    requires k <= |xs|
  {
    Evict(xs, (a, b) => InputBefore(a, b), k)
  }

  lemma EvictInputsStep<P(!new)>(xs: seq<Placed<P>>, k: nat)
    requires k <= |xs|
    ensures k == 0 ==> EvictInputs(xs, k) == xs
    ensures k > 0 ==> WorstInput(xs) < |xs| && EvictInputs(xs, k) == EvictInputs(DropAt(xs, WorstInput(xs)), k - 1)
  {
  }

  /** One drop by the source's loop and one drop by the positions fixed at the start hit the same input. */
  lemma RenumberedStep<P(!new)>(xs: seq<Placed<P>>, k: nat)
    requires 0 < k <= |xs| && Ascending(xs) && WorstInput(xs) < |xs|
    ensures EvictRenumbered(Strip(xs), k) == EvictRenumbered(Strip(DropAt(xs, WorstInput(xs))), k - 1)
  {
    RenumberingHarmless(Number(Strip(xs)), xs);
    DropAscends(xs, WorstInput(xs));
    hide Worst, DropAt, Strip, Number, Ascending;
  }

  lemma {:induction false} RenumberedFrom<P(!new)>(xs: seq<Placed<P>>, k: nat)
    requires k <= |xs| && Ascending(xs)
    ensures EvictRenumbered(Strip(xs), k) == Strip(EvictInputs(xs, k))
    decreases k
  {
    hide WorstInput, EvictInputs, DropAt, Ascending, Strip;
    EvictInputsStep(xs, k);
    if k > 0 {
      hide EvictRenumbered;
      RenumberedStep(xs, k);
      DropAscends(xs, WorstInput(xs));
      RenumberedFrom(DropAt(xs, WorstInput(xs)), k - 1);
    }
  }

  /** Recomputing the indices after every drop leaves the same inputs as numbering them once. */
  lemma RenumberedEviction<P(!new)>(xs: seq<Input<P>>, k: nat)
    requires k <= |xs|
    ensures EvictRenumbered(xs, k) == Strip(Evict(Number(xs), (a, b) => InputBefore(a, b), k))
  {
    assert Strip(Number(xs)) == xs;
    RenumberedFrom(Number(xs), k);
  }

  // ---------------------------------------------------------------- who survives

  /** Whatever evidence was dropped has a greater retention key than all that remains. */
  lemma EvidenceSurvivors<P(!new)>(xs: seq<Evidence<P>>, k: nat) returns (keep: seq<nat>)
    requires DistinctIds(xs) && k <= |xs|
    ensures Selects(xs, Evict(xs, (a, b) => EvidenceBefore(a, b), k), keep) && |keep| == |xs| - k
    ensures forall p, i :: 0 <= p < |xs| && p !in keep && 0 <= i < |keep| ==> EvidenceBefore(xs[p], xs[keep[i]])
  {
    EvidenceOrder(xs);
    keep := EvictKeepsBest(xs, (a, b) => EvidenceBefore(a, b), k);
  }

  /**
   * System, developer and metadata inputs outlive all others, other roles outlive user inputs,
   * and within one class newer inputs outlive older ones.
   */
  lemma InputSurvivors<P(!new)>(xs: seq<Input<P>>, k: nat) returns (keep: seq<nat>)
    requires k <= |xs|
    ensures Selects(xs, Strip(Evict(Number(xs), (a, b) => InputBefore(a, b), k)), keep)
    ensures forall p, i :: 0 <= p < |xs| && p !in keep && 0 <= i < |keep| ==>
              InputPriority(xs[p]) > InputPriority(xs[keep[i]]) ||
              (InputPriority(xs[p]) == InputPriority(xs[keep[i]]) && p < keep[i])
  {
    InputOrder(Number(xs));
    keep := EvictKeepsBest(Number(xs), (a, b) => InputBefore(a, b), k);
    assert forall p :: 0 <= p < |xs| ==> Number(xs)[p] == Placed(p, xs[p]);
    forall p, i | 0 <= p < |xs| && p !in keep && 0 <= i < |keep|
      ensures InputPriority(xs[p]) > InputPriority(xs[keep[i]]) ||
              (InputPriority(xs[p]) == InputPriority(xs[keep[i]]) && p < keep[i])
    {
      assert InputBefore(Number(xs)[p], Number(xs)[keep[i]]);
    }
  }

  // ---------------------------------------------------------------- accounting

  function Filter<T(!new)>(xs: seq<T>, p: T -> bool): (r: seq<T>)
    ensures forall x :: x in r <==> x in xs && p(x)
  {
    if xs == [] then [] else (if p(xs[0]) then [xs[0]] else []) + Filter(xs[1..], p)
  }

  function EvidenceIds<P>(xs: seq<Evidence<P>>): (r: seq<string>)
    ensures |r| == |xs| && forall i :: 0 <= i < |xs| ==> r[i] == xs[i].id
  {
    seq(|xs|, i requires 0 <= i < |xs| => xs[i].id)
  }

  function ContributionIds<P>(xs: seq<Contribution<P>>): (r: seq<string>)
    ensures |r| == |xs| && forall i :: 0 <= i < |xs| ==> r[i] == xs[i].id
  {
    seq(|xs|, i requires 0 <= i < |xs| => xs[i].id)
  }

  function ExcludedEvidence<P(==,!new)>(all: seq<Evidence<P>>, kept: seq<Evidence<P>>): seq<string> {
    EvidenceIds(Filter(all, (x: Evidence<P>) => x !in kept))
  }

  function ExcludedContributions<P(==,!new)>(
      all: seq<Contribution<P>>, kept: seq<Contribution<P>>, roles: set<string>): seq<string> {
    ContributionIds(Filter(all, (x: Contribution<P>) => x.role in roles && x !in kept))
  }

  ghost predicate DistinctContributions<P(!new)>(xs: seq<Contribution<P>>) {
    forall i, j :: 0 <= i < j < |xs| ==> xs[i].id != xs[j].id
  }

  lemma SameId<P(!new)>(xs: seq<Contribution<P>>, c: Contribution<P>, d: Contribution<P>)
    requires DistinctContributions(xs) && c in xs && d in xs && c.id == d.id
    ensures c == d
  {
    var i :| 0 <= i < |xs| && xs[i] == c;
    var j :| 0 <= j < |xs| && xs[j] == d;
  }

  /** Included and excluded contributions partition those the policy allows, at every stage. */
  lemma ContributionPartition<P(!new)>(
      all: seq<Contribution<P>>, kept: seq<Contribution<P>>, roles: set<string>, c: Contribution<P>)
    requires DistinctContributions(all) && c in all
    requires forall x :: x in kept ==> x in all && x.role in roles
    ensures c.role in roles ==> (c.id in ContributionIds(kept) <==> c.id !in ExcludedContributions(all, kept, roles))
    ensures c.role !in roles ==> c.id !in ContributionIds(kept) && c.id !in ExcludedContributions(all, kept, roles)
  {
    var out := Filter(all, (x: Contribution<P>) => x.role in roles && x !in kept);
    if c.id in ContributionIds(kept) {
      var i :| 0 <= i < |kept| && ContributionIds(kept)[i] == c.id;
      assert kept[i] in kept;
      SameId(all, kept[i], c);
    }
    if c in kept {
      var i :| 0 <= i < |kept| && kept[i] == c;
      assert ContributionIds(kept)[i] == c.id;
    }
    if c.id in ContributionIds(out) {
      var i :| 0 <= i < |out| && ContributionIds(out)[i] == c.id;
      assert out[i] in out;
      SameId(all, out[i], c);
    }
    if c in out {
      var i :| 0 <= i < |out| && out[i] == c;
      assert ContributionIds(out)[i] == c.id;
    }
  }

  lemma SameEvidence<P(!new)>(xs: seq<Evidence<P>>, c: Evidence<P>, d: Evidence<P>)
    requires DistinctIds(xs) && c in xs && d in xs && c.id == d.id
    ensures c == d
  {
    var i :| 0 <= i < |xs| && xs[i] == c;
    var j :| 0 <= j < |xs| && xs[j] == d;
  }

  lemma IdMember<P(!new)>(xs: seq<Evidence<P>>, all: seq<Evidence<P>>, e: Evidence<P>)
    requires DistinctIds(all) && e in all && forall x :: x in xs ==> x in all
    ensures e.id in EvidenceIds(xs) <==> e in xs
  {
    if e.id in EvidenceIds(xs) {
      var i :| 0 <= i < |xs| && EvidenceIds(xs)[i] == e.id;
      assert xs[i] in xs;
      SameEvidence(all, xs[i], e);
    }
    if e in xs {
      var i :| 0 <= i < |xs| && xs[i] == e;
      assert EvidenceIds(xs)[i] == e.id;
    }
  }

  /** Each retained item is the rewritten form of a snapshot item with the same id. */
  ghost predicate Rewritten<P(!new)>(
      all: seq<Evidence<P>>, kept: seq<Evidence<P>>, rewrite: Evidence<P> -> Evidence<P>) {
    forall x :: x in kept ==> exists y :: y in all && x == rewrite(y) && x.id == y.id
  }

  /**
   * Every snapshot item is listed as included or excluded. It is listed as both exactly when it
   * was retained in a rewritten form, so the two lists partition the snapshot if and only if no
   * retained item was rewritten.
   */
  lemma EvidenceAccounting<P(!new)>(
      all: seq<Evidence<P>>, kept: seq<Evidence<P>>, rewrite: Evidence<P> -> Evidence<P>, e: Evidence<P>)
    requires DistinctIds(all) && e in all && Rewritten(all, kept, rewrite)
    ensures e.id in EvidenceIds(kept) || e.id in ExcludedEvidence(all, kept)
    ensures (e.id in EvidenceIds(kept) && e.id in ExcludedEvidence(all, kept))
            <==> (e.id in EvidenceIds(kept) && rewrite(e) != e)
  {
    var out := Filter(all, (x: Evidence<P>) => x !in kept);
    IdMember(out, all, e);
    IdListed(kept, e);
    assert e in out <==> e !in kept;
    if e.id in EvidenceIds(kept) {
      var i :| 0 <= i < |kept| && EvidenceIds(kept)[i] == e.id;
      var x := kept[i];
      assert x in kept;
      var y :| y in all && x == rewrite(y) && x.id == y.id;
      SameEvidence(all, y, e);
      assert x == rewrite(e);
      if e in kept {
        var z :| z in all && e == rewrite(z) && e.id == z.id;
        SameEvidence(all, z, e);
      }
    }
  }

  lemma IdListed<P(!new)>(xs: seq<Evidence<P>>, e: Evidence<P>)
    ensures e in xs ==> e.id in EvidenceIds(xs)
  {
    if e in xs {
      var i :| 0 <= i < |xs| && xs[i] == e;
      assert EvidenceIds(xs)[i] == e.id;
    }
  }

  // ---------------------------------------------------------------- the whole projection

  datatype Projected<P> = Projected(
    evidence: seq<Evidence<P>>, contributions: seq<Contribution<P>>, inputs: seq<Input<P>>,
    excludedEvidence: seq<string>, excludedContributions: seq<string>)

  /** The context after the first `n` evictions. */
  ghost function Stage<P>(
      start: Context<Evidence<P>, Contribution<P>, Placed<P>>, n: nat): Context<Evidence<P>, Contribution<P>, Placed<P>>
    requires n <= |start.evidence| + |start.contributions| + |start.inputs|
  {
    AfterAttempt(start, (a, b) => EvidenceBefore(a, b), (a, b) => InputBefore(a, b), n)
  }

  /** The contributions that the role's policy admits. */
  function Allowed<P(!new)>(xs: seq<Contribution<P>>, roles: set<string>, attempts: set<string>): seq<Contribution<P>> {
    Filter(xs, (x: Contribution<P>) => x.role in roles && (attempts == {} || x.attempt in attempts))
  }

  /** The evidence that the role's policy admits, as the executor's summary rewrites it. */
  function Chosen<P(!new)>(
      xs: seq<Evidence<P>>, kinds: set<Kind>, rewrite: Evidence<P> -> Evidence<P>): seq<Evidence<P>> {
    Rewrites(Filter(xs, (x: Evidence<P>) => x.kind in kinds), rewrite)
  }

  /**
   * Selection, de-duplication, the executor's rewriting, and eviction. `rewrite` is the identity
   * for every role but the executor; `size` is the byte size of the projection built so far.
   */
  method Project<P(==,!new), F(==,!new)>(
      evidence: seq<Evidence<P>>, contributions: seq<Contribution<P>>, inputs: seq<Input<P>>,
      kinds: set<Kind>, roles: set<string>, attempts: set<string>,
      fingerprint: Input<P> -> F, rewrite: Evidence<P> -> Evidence<P>,
      size: Context<Evidence<P>, Contribution<P>, Input<P>> -> nat, target: nat)
    returns (r: Projected<P>, ghost n: nat)
    requires forall e :: rewrite(e).id == e.id
    ensures var allowed := Allowed(contributions, roles, attempts);
            var start := Context(Chosen(evidence, kinds, rewrite), allowed,
                                 Number(LastOf(inputs, fingerprint)));
            && n <= |start.evidence| + |start.contributions| + |start.inputs|
            && var end := Stage(start, n);
               && r.evidence == end.evidence && r.contributions == end.contributions && r.inputs == Strip(end.inputs)
               && (forall j :: 0 <= j < n ==> size(Plain(Stage(start, j))) > target)
               && (size(Plain(end)) <= target || (r.evidence == [] && r.contributions == [] && r.inputs == []))
    ensures r.excludedEvidence == ExcludedEvidence(evidence, r.evidence)
    ensures r.excludedContributions == ExcludedContributions(contributions, r.contributions, roles)
  {
    var unique := KeepLast(inputs, fingerprint);
    var start := Context(Chosen(evidence, kinds, rewrite),
                         Allowed(contributions, roles, attempts),
                         Number(unique));
    var end;
    end, n := Fit(start, (a, b) => EvidenceBefore(a, b), (a, b) => InputBefore(a, b), c => size(Plain(c)), target);
    r := Projected(end.evidence, end.contributions, Strip(end.inputs),
                   ExcludedEvidence(evidence, end.evidence),
                   ExcludedContributions(contributions, end.contributions, roles));
  }

  function Plain<P>(
      c: Context<Evidence<P>, Contribution<P>, Placed<P>>): Context<Evidence<P>, Contribution<P>, Input<P>> {
    Context(c.evidence, c.contributions, Strip(c.inputs))
  }

  function Rewrites<P>(xs: seq<Evidence<P>>, rewrite: Evidence<P> -> Evidence<P>): (r: seq<Evidence<P>>)
    ensures |r| == |xs| && forall i :: 0 <= i < |xs| ==> r[i] == rewrite(xs[i])
  {
    seq(|xs|, i requires 0 <= i < |xs| => rewrite(xs[i]))
  }

  /** At every stage of the eviction the accounting above applies to what is left. */
  lemma StagesAccounted<P(!new)>(
      evidence: seq<Evidence<P>>, contributions: seq<Contribution<P>>, kinds: set<Kind>, roles: set<string>,
      attempts: set<string>, rewrite: Evidence<P> -> Evidence<P>,
      start: Context<Evidence<P>, Contribution<P>, Placed<P>>, n: nat)
    requires forall e :: rewrite(e).id == e.id
    requires start.evidence == Chosen(evidence, kinds, rewrite)
    requires start.contributions == Allowed(contributions, roles, attempts)
    requires n <= |start.evidence| + |start.contributions| + |start.inputs|
    ensures Rewritten(evidence, Stage(start, n).evidence, rewrite)
    ensures forall x :: x in Stage(start, n).contributions ==> x in contributions && x.role in roles
  {
    var end := Stage(start, n);
    var chosen := Filter(evidence, (x: Evidence<P>) => x.kind in kinds);
    forall x | x in end.evidence
      ensures exists y :: y in evidence && x == rewrite(y) && x.id == y.id
    {
      EvictMembers(start.evidence, (a, b) => EvidenceBefore(a, b), Attempt(start, n).evidence, x);
      var i :| 0 <= i < |start.evidence| && start.evidence[i] == x;
      assert chosen[i] in chosen && x == rewrite(chosen[i]);
    }
    forall x | x in end.contributions
      ensures x in contributions && x.role in roles
    {
      assert x in start.contributions;
    }
  }

  // ---------------------------------------------------------------- what the result consists of

  lemma {:induction false} FilterDistinct<P(!new)>(xs: seq<Evidence<P>>, p: Evidence<P> -> bool)
    requires DistinctIds(xs)
    ensures DistinctIds(Filter(xs, p))
  {
    if xs != [] {
      assert forall i, j :: 0 <= i < j < |xs[1..]| ==> xs[1..][i] == xs[i + 1] && xs[1..][j] == xs[j + 1];
      FilterDistinct(xs[1..], p);
      var rest := Filter(xs[1..], p);
      forall j | 0 <= j < |rest|
        ensures rest[j].id != xs[0].id
      {
        assert rest[j] in rest;
        var i :| 0 <= i < |xs[1..]| && xs[1..][i] == rest[j];
      }
    }
  }

  lemma ChosenDistinct<P(!new)>(evidence: seq<Evidence<P>>, kinds: set<Kind>, rewrite: Evidence<P> -> Evidence<P>)
    requires DistinctIds(evidence) && forall e :: rewrite(e).id == e.id
    ensures DistinctIds(Chosen(evidence, kinds, rewrite))
  {
    FilterDistinct(evidence, (x: Evidence<P>) => x.kind in kinds);
  }

  /**
   * What a projection keeps, whatever the number of evictions: of the evidence the policy selects
   * from a snapshot with distinct ids, the items with the smallest retention keys; of the
   * de-duplicated inputs, those that outrank all that went; each in the original order.
   */
  lemma ProjectionSurvivors<P(!new), F>(
      evidence: seq<Evidence<P>>, inputs: seq<Input<P>>, kinds: set<Kind>, fingerprint: Input<P> -> F,
      rewrite: Evidence<P> -> Evidence<P>, start: Context<Evidence<P>, Contribution<P>, Placed<P>>, n: nat)
    returns (kept: seq<nat>, left: seq<nat>)
    requires DistinctIds(evidence) && forall e :: rewrite(e).id == e.id
    requires start.evidence == Chosen(evidence, kinds, rewrite)
    requires start.inputs == Number(LastOf(inputs, fingerprint))
    requires n <= |start.evidence| + |start.contributions| + |start.inputs|
    ensures Selects(start.evidence, Stage(start, n).evidence, kept)
    ensures forall p, i :: 0 <= p < |start.evidence| && p !in kept && 0 <= i < |kept| ==>
              EvidenceBefore(start.evidence[p], start.evidence[kept[i]])
    ensures Selects(LastOf(inputs, fingerprint), Strip(Stage(start, n).inputs), left)
    ensures forall p, i :: 0 <= p < |start.inputs| && p !in left && 0 <= i < |left| ==>
              InputBefore(start.inputs[p], start.inputs[left[i]])
    ensures Stage(start, n).contributions <= start.contributions
  {
    ChosenDistinct(evidence, kinds, rewrite);
    var d := Attempt(start, n);
    kept := EvidenceSurvivors(start.evidence, d.evidence);
    var unique := LastOf(inputs, fingerprint);
    left := InputSurvivors(unique, d.inputs);
    hide EvidenceBefore, Evict, Number;
    forall p, i | 0 <= p < |start.inputs| && p !in left && 0 <= i < |left|
      ensures InputBefore(start.inputs[p], start.inputs[left[i]])
    {
      assert start.inputs[p] == Placed(p, unique[p]) && start.inputs[left[i]] == Placed(left[i], unique[left[i]]);
    }
  }

  /** Over the whole projection, evidence is accounted for as above and contributions are partitioned. */
  lemma ProjectionAccounted<P(!new)>(
      evidence: seq<Evidence<P>>, contributions: seq<Contribution<P>>, kinds: set<Kind>, roles: set<string>,
      attempts: set<string>, rewrite: Evidence<P> -> Evidence<P>,
      start: Context<Evidence<P>, Contribution<P>, Placed<P>>, n: nat, e: Evidence<P>, c: Contribution<P>)
    requires DistinctIds(evidence) && DistinctContributions(contributions) && forall x :: rewrite(x).id == x.id
    requires start.evidence == Chosen(evidence, kinds, rewrite)
    requires start.contributions == Allowed(contributions, roles, attempts)
    requires n <= |start.evidence| + |start.contributions| + |start.inputs|
    requires e in evidence && c in contributions && c.role in roles
    ensures var end := Stage(start, n);
            && (e.id in EvidenceIds(end.evidence) || e.id in ExcludedEvidence(evidence, end.evidence))
            && (e.id in EvidenceIds(end.evidence) && e.id in ExcludedEvidence(evidence, end.evidence)
                <==> e.id in EvidenceIds(end.evidence) && rewrite(e) != e)
            && (c.id in ContributionIds(end.contributions) <==>
                  c.id !in ExcludedContributions(contributions, end.contributions, roles))
  {
    StagesAccounted(evidence, contributions, kinds, roles, attempts, rewrite, start, n);
    var end := Stage(start, n);
    hide Stage, ExcludedEvidence, ExcludedContributions, Filter, Rewrites;
    EvidenceAccounting(evidence, end.evidence, rewrite, e);
    ContributionPartition(contributions, end.contributions, roles, c);
  }
}
