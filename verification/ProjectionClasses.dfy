/** What the retention keys and the role's policy mean, in roles, kinds and ids. */
module ProjectionClasses {
  import opened Prelude
  import opened Dedup
  import opened Eviction
  import opened Projection

  // ---------------------------------------------------------------- inputs

  /** Instructions: what the system or the developer says, and the request's metadata. */
  ghost predicate Instruction<P>(x: Input<P>) {
    x.role == "system" || x.role == "developer" || x.id == "request-metadata"
  }

  ghost predicate Said<P>(x: Input<P>) {
    !Instruction(x) && x.role == "user"
  }

  ghost predicate SameClass<P>(x: Input<P>, y: Input<P>) {
    (Instruction(x) <==> Instruction(y)) && (Said(x) <==> Said(y))
  }

  /**
   * Whoever is dropped, at any number of drops: an instruction goes only when nothing but
   * instructions is kept; an input that is neither instruction nor user message goes only when no
   * user message is kept; and within one class the older ones go first.
   */
  ghost predicate ClassesRespected<P>(xs: seq<Input<P>>, keep: seq<nat>) {
    forall p, i :: 0 <= p < |xs| && p !in keep && 0 <= i < |keep| && keep[i] < |xs| ==>
      && (Instruction(xs[p]) ==> Instruction(xs[keep[i]]))
      && (!Instruction(xs[p]) && !Said(xs[p]) ==> !Said(xs[keep[i]]))
      && (SameClass(xs[p], xs[keep[i]]) ==> p < keep[i])
  }

  lemma InputClasses<P(!new)>(xs: seq<Input<P>>, k: nat) returns (keep: seq<nat>)
    requires k <= |xs|
    ensures Selects(xs, Strip(Evict(Number(xs), (a, b) => InputBefore(a, b), k)), keep) && |keep| == |xs| - k
    ensures ClassesRespected(xs, keep)
  {
    keep := InputSurvivors(xs, k);
  }

  /** The same for the source's loop, which numbers the inputs anew before each drop. */
  lemma LoopClasses<P(!new)>(xs: seq<Input<P>>, k: nat) returns (keep: seq<nat>)
    requires k <= |xs|
    ensures Selects(xs, EvictRenumbered(xs, k), keep) && |keep| == |xs| - k
    ensures ClassesRespected(xs, keep)
  {
    RenumberedEviction(xs, k);
    keep := InputClasses(xs, k);
  }

  // ---------------------------------------------------------------- evidence

  ghost predicate FailedTest<P>(e: Evidence<P>) {
    e.kind == Test && (e.status == "failed" || e.status == "failure" || e.status == "error" || e.exitFailed)
  }

  ghost predicate OpenFailure<P>(e: Evidence<P>) {
    && e.kind == Failure && e.status != "resolved" && e.status != "passed"
    && e.status != "success" && e.status != "completed"
  }

  /** Policy, then failed tests, then open failures, then diffs, then tool output, then checkpoints. */
  ghost predicate Outranks<P>(a: Evidence<P>, b: Evidence<P>) {
    || (a.kind == Policy && b.kind != Policy)
    || (FailedTest(a) && b.kind != Policy && !FailedTest(b))
    || (OpenFailure(a) && b.kind != Policy && !FailedTest(b) && !OpenFailure(b))
    || (a.kind == Diff && b.kind != Policy && !FailedTest(b) && !OpenFailure(b) && b.kind != Diff)
    || ((a.kind == Tool || a.kind == Build || (a.kind == Test && !FailedTest(a))) &&
          (b.kind == Checkpoint || (b.kind == Failure && !OpenFailure(b))))
    || (a.kind == Checkpoint && b.kind == Failure && !OpenFailure(b))
  }

  /** The retention key is that ranking, and within one rank the smaller id stays. */
  lemma EvidenceRanking<P>(a: Evidence<P>, b: Evidence<P>)
    requires a.id != b.id
    ensures EvidenceBefore(b, a) <==> Outranks(a, b) || (!Outranks(b, a) && Less(a.id, b.id))
  {
    LessTotal(a.id, b.id);
  }

  /** `s` ends, or is smaller, at position `n`, before which it agrees with `t`. */
  ghost predicate SmallerAt(s: string, t: string, n: nat) {
    n <= |s| && n < |t| && s[..n] == t[..n] && (n == |s| || s[n] < t[n])
  }

  /** `Less` is the order of strings: a proper prefix, or the smaller character at the first difference. */
  lemma {:induction false} LessMeans(s: string, t: string)
    ensures Less(s, t) <==> exists n: nat :: SmallerAt(s, t, n)
  {
    if s != [] && t != [] && s[0] == t[0] {
      LessMeans(s[1..], t[1..]);
      if n: nat :| SmallerAt(s[1..], t[1..], n) {
        assert s[..n + 1] == [s[0]] + s[1..][..n] && t[..n + 1] == [t[0]] + t[1..][..n];
        assert SmallerAt(s, t, n + 1);
      }
      if n: nat :| SmallerAt(s, t, n) {
        assert n > 0;
        assert s[1..][..n - 1] == s[..n][1..] && t[1..][..n - 1] == t[..n][1..];
        assert SmallerAt(s[1..], t[1..], n - 1);
      }
    } else if Less(s, t) {
      assert s[..0] == t[..0];
      assert SmallerAt(s, t, 0);
    } else if n: nat :| SmallerAt(s, t, n) {
      if n > 0 {
        FirstAgrees(s, t, n);
      }
    }
  }

  lemma FirstAgrees(s: string, t: string, n: nat)
    requires 0 < n <= |s| && n < |t| && s[..n] == t[..n]
    ensures s[0] == t[0]
  {
    assert s[..n][0] == t[..n][0];
  }

  /** What is dropped from the evidence never outranks what is kept. */
  lemma EvidenceClasses<P(!new)>(xs: seq<Evidence<P>>, k: nat) returns (keep: seq<nat>)
    requires DistinctIds(xs) && k <= |xs|
    ensures Selects(xs, Evict(xs, (a, b) => EvidenceBefore(a, b), k), keep) && |keep| == |xs| - k
    ensures forall p, i :: 0 <= p < |xs| && p !in keep && 0 <= i < |keep| ==>
              Outranks(xs[keep[i]], xs[p]) || (!Outranks(xs[p], xs[keep[i]]) && Less(xs[keep[i]].id, xs[p].id))
  {
    keep := EvidenceSurvivors(xs, k);
    hide EvidenceBefore, Outranks, Less;
    forall p, i | 0 <= p < |xs| && p !in keep && 0 <= i < |keep|
      ensures Outranks(xs[keep[i]], xs[p]) || (!Outranks(xs[p], xs[keep[i]]) && Less(xs[keep[i]].id, xs[p].id))
    {
      assert p != keep[i];
      EvidenceRanking(xs[keep[i]], xs[p]);
    }
  }

  // ---------------------------------------------------------------- policy

  /** Filtering keeps exactly the wanted items, in order. */
  lemma {:induction false} FilterExact<T(!new)>(xs: seq<T>, p: T -> bool) returns (keep: seq<nat>)
    ensures Selects(xs, Filter(xs, p), keep) && Exactly(xs, keep, p)
  {
    if xs == [] {
      keep := [];
    } else {
      hide Selects, Exactly, ShiftUp;
      var rest := FilterExact(xs[1..], p);
      ShiftSelects(xs, Filter(xs[1..], p), rest);
      ExactlyCons(xs, rest, p);
      keep := if p(xs[0]) then [0] + ShiftUp(rest) else ShiftUp(rest);
      assert [] + Filter(xs[1..], p) == Filter(xs[1..], p);
    }
  }

  /** Contributions are admitted by role and, if causal parents are named, by their attempt. */
  lemma AllowedExact<P(!new)>(xs: seq<Contribution<P>>, roles: set<string>, attempts: set<string>)
    returns (keep: seq<nat>)
    ensures Selects(xs, Allowed(xs, roles, attempts), keep)
    ensures forall i :: 0 <= i < |xs| ==>
              (i in keep <==> xs[i].role in roles && (attempts == {} || xs[i].attempt in attempts))
  {
    keep := FilterExact(xs, (x: Contribution<P>) => x.role in roles && (attempts == {} || x.attempt in attempts));
  }

  /** Evidence is admitted by kind alone, and rewritten one by one. */
  lemma ChosenExact<P(!new)>(xs: seq<Evidence<P>>, kinds: set<Kind>, rewrite: Evidence<P> -> Evidence<P>)
    returns (keep: seq<nat>)
    ensures Increasing(keep, |xs|) && |keep| == |Chosen(xs, kinds, rewrite)|
    ensures forall i :: 0 <= i < |xs| ==> (i in keep <==> xs[i].kind in kinds)
    ensures forall j :: 0 <= j < |keep| ==> Chosen(xs, kinds, rewrite)[j] == rewrite(xs[keep[j]])
  {
    keep := FilterExact(xs, (x: Evidence<P>) => x.kind in kinds);
  }

  // ---------------------------------------------------------------- the projection

  /**
   * At any number of evictions, what a projection keeps and drops of the de-duplicated inputs and
   * of the admitted evidence respects these classes.
   */
  lemma ProjectionRespectsClasses<P(!new), F>(
      evidence: seq<Evidence<P>>, inputs: seq<Input<P>>, kinds: set<Kind>, fingerprint: Input<P> -> F,
      rewrite: Evidence<P> -> Evidence<P>, start: Context<Evidence<P>, Contribution<P>, Placed<P>>, n: nat)
    returns (kept: seq<nat>, left: seq<nat>)
    requires DistinctIds(evidence) && forall e :: rewrite(e).id == e.id
    requires start.evidence == Chosen(evidence, kinds, rewrite)
    requires start.inputs == Number(LastOf(inputs, fingerprint))
    requires n <= |start.evidence| + |start.contributions| + |start.inputs|
    ensures Selects(LastOf(inputs, fingerprint), Strip(Stage(start, n).inputs), left)
    ensures ClassesRespected(LastOf(inputs, fingerprint), left)
    ensures Selects(start.evidence, Stage(start, n).evidence, kept)
    ensures forall p, i :: 0 <= p < |start.evidence| && p !in kept && 0 <= i < |kept| ==>
              !Outranks(start.evidence[p], start.evidence[kept[i]])
  {
    ChosenDistinct(evidence, kinds, rewrite);
    var d := Attempt(start, n);
    left := InputClasses(LastOf(inputs, fingerprint), d.inputs);
    kept := EvidenceClasses(start.evidence, d.evidence);
    hide Evict, ClassesRespected, Outranks, Less;
    forall p, i | 0 <= p < |start.evidence| && p !in kept && 0 <= i < |kept|
      ensures !Outranks(start.evidence[p], start.evidence[kept[i]])
    {
      OutranksAsymmetric(start.evidence[kept[i]], start.evidence[p]);
    }
  }

  lemma OutranksAsymmetric<P>(a: Evidence<P>, b: Evidence<P>)
    ensures Outranks(a, b) ==> !Outranks(b, a)
  {
  }
}
