/** De-duplication that keeps the last occurrence, by scanning backwards with a set of fingerprints. */
module Dedup {
  import opened Prelude

  ghost predicate Occurs<T, F>(xs: seq<T>, f: T -> F, from: nat, p: F) {
    exists j :: from <= j < |xs| && f(xs[j]) == p
  }

  lemma OccursStep<T, F>(xs: seq<T>, f: T -> F, i: nat, q: F)
    requires i < |xs|
    ensures Occurs(xs, f, i, q) <==> Occurs(xs, f, i + 1, q) || q == f(xs[i])
  {
  }

  ghost predicate Repeats<T, F>(xs: seq<T>, f: T -> F, i: nat)
    requires i < |xs|
  {
    Occurs(xs, f, i + 1, f(xs[i]))
  }

  ghost function LastOf<T, F>(xs: seq<T>, f: T -> F): seq<T> {
    if xs == [] then []
    else (if Repeats(xs, f, 0) then [] else [xs[0]]) + LastOf(xs[1..], f)
  }

  function Reversed<T>(xs: seq<T>): (r: seq<T>)
    ensures |r| == |xs|
  {
    if xs == [] then [] else Reversed(xs[1..]) + [xs[0]]
  }

  lemma {:induction false} ReversedAppend<T>(xs: seq<T>, x: T)
    ensures Reversed(xs + [x]) == [x] + Reversed(xs)
  {
    if xs == [] {
      assert xs + [x] == [x];
    } else {
      assert (xs + [x])[1..] == xs[1..] + [x];
      ReversedAppend(xs[1..], x);
    }
  }

  method KeepLast<T, F(==,!new)>(xs: seq<T>, f: T -> F) returns (r: seq<T>)
    ensures r == LastOf(xs, f)
  {
    var seen := {};
    var backwards := [];
    var i := |xs|;
    assert xs[i..] == [];
    while i > 0
      invariant 0 <= i <= |xs|
      invariant forall p :: p in seen <==> Occurs(xs, f, i, p)
      invariant Reversed(backwards) == LastOf(xs[i..], f)
    {
      i := i - 1;
      var p := f(xs[i]);
      LastOfStep(xs, f, i);
      assert p in seen <==> Repeats(xs, f, i);
      forall q ensures Occurs(xs, f, i, q) <==> Occurs(xs, f, i + 1, q) || q == p { OccursStep(xs, f, i, q); }
      if p !in seen {
        seen := seen + {p};
        ReversedAppend(backwards, xs[i]);
        backwards := backwards + [xs[i]];
      }
    }
    assert xs[i..] == xs;
    r := Reversed(backwards);
  }

  lemma RepeatsSuffix<T, F>(xs: seq<T>, f: T -> F, i: nat)
    requires i < |xs|
    ensures Repeats(xs[i..], f, 0) <==> Repeats(xs, f, i)
  {
    if Repeats(xs, f, i) {
      var j :| i < j < |xs| && f(xs[j]) == f(xs[i]);
      assert xs[i..][j - i] == xs[j];
    }
  }

  function ShiftUp(keep: seq<nat>): (r: seq<nat>)
    ensures |r| == |keep| && forall i :: 0 <= i < |keep| ==> r[i] == keep[i] + 1
  {
    seq(|keep|, i requires 0 <= i < |keep| => keep[i] + 1)
  }

  lemma ShiftUpMembers(keep: seq<nat>, p: nat)
    ensures p + 1 in ShiftUp(keep) <==> p in keep
    ensures 0 !in ShiftUp(keep)
  {
    if p in keep {
      var j :| 0 <= j < |keep| && keep[j] == p;
      assert ShiftUp(keep)[j] == p + 1;
    }
  }

  lemma LastOfStep<T, F>(xs: seq<T>, f: T -> F, i: nat)
    requires i < |xs|
    ensures LastOf(xs[i..], f) == (if Repeats(xs, f, i) then [] else [xs[i]]) + LastOf(xs[i + 1..], f)
  {
    assert xs[i..][1..] == xs[i + 1..];
    RepeatsSuffix(xs, f, i);
  }

  lemma KeepMembers<T, F>(xs: seq<T>, f: T -> F, rest: seq<nat>)
    requires xs != []
    requires forall i :: 0 <= i < |xs| - 1 ==> (i in rest <==> !Repeats(xs[1..], f, i))
    ensures var keep := (if Repeats(xs, f, 0) then [] else [0]) + ShiftUp(rest);
            forall i :: 0 <= i < |xs| ==> (i in keep <==> !Repeats(xs, f, i))
  {
    var keep := (if Repeats(xs, f, 0) then [] else [0]) + ShiftUp(rest);
    hide Repeats, ShiftUp;
    forall i | 0 <= i < |xs|
      ensures i in keep <==> !Repeats(xs, f, i)
    {
      ShiftUpMembers(rest, if i > 0 then i - 1 else 0);
      if i > 0 {
        TailRepeats(xs, f, i);
      }
    }
  }

  lemma ShiftSelects<T>(xs: seq<T>, ys: seq<T>, rest: seq<nat>)
    requires xs != [] && Selects(xs[1..], ys, rest)
    ensures Selects(xs, ys, ShiftUp(rest)) && Selects(xs, [xs[0]] + ys, [0] + ShiftUp(rest))
  {
  }

  /** Exactly the items whose fingerprint does not occur later survive, in order. */
  lemma {:induction false} LastOfExact<T, F>(xs: seq<T>, f: T -> F) returns (keep: seq<nat>)
    ensures Selects(xs, LastOf(xs, f), keep)
    ensures forall i :: 0 <= i < |xs| ==> (i in keep <==> !Repeats(xs, f, i))
  {
    keep := [];
    if xs != [] {
      hide Repeats, Selects, ShiftUp;
      var rest := LastOfExact(xs[1..], f);
      keep := (if Repeats(xs, f, 0) then [] else [0]) + ShiftUp(rest);
      KeepMembers(xs, f, rest);
      ShiftSelects(xs, LastOf(xs[1..], f), rest);
      assert [] + ShiftUp(rest) == ShiftUp(rest) && [] + LastOf(xs[1..], f) == LastOf(xs[1..], f);
    }
  }

  lemma TailRepeats<T, F>(xs: seq<T>, f: T -> F, i: nat)
    requires 0 < i < |xs|
    ensures Repeats(xs[1..], f, i - 1) <==> Repeats(xs, f, i)
  {
    if Repeats(xs, f, i) {
      var j :| i < j < |xs| && f(xs[j]) == f(xs[i]);
      assert xs[1..][j - 1] == xs[j];
    }
  }

  /** No fingerprint survives twice, and every fingerprint survives. */
  lemma LastOfDistinct<T, F>(xs: seq<T>, f: T -> F)
    ensures var r := LastOf(xs, f);
            && (forall i, j :: 0 <= i < j < |r| ==> f(r[i]) != f(r[j]))
            && (forall i :: 0 <= i < |xs| ==> exists k :: 0 <= k < |r| && f(r[k]) == f(xs[i]))
  {
    var r := LastOf(xs, f);
    var keep := LastOfExact(xs, f);
    forall i, j | 0 <= i < j < |r| ensures f(r[i]) != f(r[j]) {
      assert keep[i] in keep && !Repeats(xs, f, keep[i]);
    }
    forall i | 0 <= i < |xs| ensures exists k :: 0 <= k < |r| && f(r[k]) == f(xs[i]) {
      var last := LastIndex(xs, f, i);
      assert last in keep;
      var k :| 0 <= k < |keep| && keep[k] == last;
      assert f(r[k]) == f(xs[i]);
    }
  }

  lemma {:induction false} LastIndex<T, F>(xs: seq<T>, f: T -> F, i: nat) returns (j: nat)
    requires i < |xs|
    ensures i <= j < |xs| && f(xs[j]) == f(xs[i]) && !Repeats(xs, f, j)
    decreases |xs| - i
  {
    if Repeats(xs, f, i) {
      var m :| i < m < |xs| && f(xs[m]) == f(xs[i]);
      j := LastIndex(xs, f, m);
    } else {
      j := i;
    }
  }

  /** An item whose fingerprint does not occur later is itself in the result. */
  lemma LastSurvives<T, F>(xs: seq<T>, f: T -> F, i: nat)
    requires i < |xs| && !Repeats(xs, f, i)
    ensures xs[i] in LastOf(xs, f)
  {
    var keep := LastOfExact(xs, f);
    assert i in keep;
    var k :| 0 <= k < |keep| && keep[k] == i;
    assert LastOf(xs, f)[k] == xs[i];
  }

  /** The positions of exactly the wanted items, in order. */
  ghost predicate Exactly<T>(xs: seq<T>, keep: seq<nat>, wanted: T -> bool) {
    && Increasing(keep, |xs|)
    && forall i :: 0 <= i < |xs| ==> (i in keep <==> wanted(xs[i]))
  }

  lemma ExactlyCons<T>(xs: seq<T>, rest: seq<nat>, wanted: T -> bool)
    requires xs != [] && Exactly(xs[1..], rest, wanted)
    ensures wanted(xs[0]) ==> Exactly(xs, [0] + ShiftUp(rest), wanted)
    ensures !wanted(xs[0]) ==> Exactly(xs, ShiftUp(rest), wanted)
  {
    var first := if wanted(xs[0]) then [0] else [];
    var keep := first + ShiftUp(rest);
    assert first == [] ==> keep == ShiftUp(rest);
    forall i | 0 <= i < |xs|
      ensures i in keep <==> wanted(xs[i])
    {
      ShiftUpMembers(rest, if i > 0 then i - 1 else 0);
      assert i > 0 ==> xs[1..][i - 1] == xs[i];
    }
  }
}
