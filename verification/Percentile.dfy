/**
 * Percentiles by linear interpolation and the paired bootstrap built on them, over the reals:
 * rounding of floating-point numbers is not modelled.
 */
module Percentile {

  // ---------------------------------------------------------------- sorting

  function Insert(x: real, s: seq<real>): (r: seq<real>)
    ensures |r| == |s| + 1
  {
    if s == [] || x <= s[0] then [x] + s else [s[0]] + Insert(x, s[1..])
  }

  function Sort(s: seq<real>): (r: seq<real>)
    ensures |r| == |s|
  {
    if s == [] then [] else Insert(s[0], Sort(s[1..]))
  }

  ghost predicate Sorted(s: seq<real>) {
    forall i, j :: 0 <= i < j < |s| ==> s[i] <= s[j]
  }

  ghost predicate Below(s: seq<real>, t: seq<real>) {
    |s| == |t| && forall i :: 0 <= i < |s| ==> s[i] <= t[i]
  }

  lemma {:induction false} InsertMultiset(x: real, s: seq<real>)
    ensures multiset(Insert(x, s)) == multiset(s) + multiset{x}
  {
    if !(s == [] || x <= s[0]) {
      InsertMultiset(x, s[1..]);
      assert s == [s[0]] + s[1..];
    }
  }

  lemma {:induction false} InsertSorted(x: real, s: seq<real>)
    requires Sorted(s)
    ensures Sorted(Insert(x, s))
  {
    if !(s == [] || x <= s[0]) {
      InsertSorted(x, s[1..]);
      InsertMultiset(x, s[1..]);
      var rest := Insert(x, s[1..]);
      forall j | 0 <= j < |rest| ensures s[0] <= rest[j] {
        assert rest[j] in multiset(rest);
        assert rest[j] == x || rest[j] in s[1..];
      }
    }
  }

  lemma {:induction false} SortSorts(s: seq<real>)
    ensures Sorted(Sort(s)) && multiset(Sort(s)) == multiset(s)
  {
    if s != [] {
      SortSorts(s[1..]);
      InsertSorted(s[0], Sort(s[1..]));
      InsertMultiset(s[0], Sort(s[1..]));
      assert s == [s[0]] + s[1..];
    }
  }

  /** There is only one way to sort, so any library sort returns this list. */
  lemma {:induction false} SortedUnique(s: seq<real>, t: seq<real>)
    requires Sorted(s) && Sorted(t) && multiset(s) == multiset(t)
    ensures s == t
  {
    assert |t| == |s| by { assert |multiset(s)| == |s| && |multiset(t)| == |t|; }
    if s != [] {
      assert s[0] == t[0] by { SortedHead(s, t); SortedHead(t, s); }
      MultisetTail(s);
      MultisetTail(t);
      SortedUnique(s[1..], t[1..]);
    }
  }

  lemma SortedHead(s: seq<real>, t: seq<real>)
    requires Sorted(s) && s != [] && t != [] && multiset(s) == multiset(t)
    ensures s[0] <= t[0]
  {
    assert t[0] in multiset(s);
  }

  lemma MultisetTail(s: seq<real>)
    requires s != []
    ensures multiset(s[1..]) == multiset(s) - multiset{s[0]}
  {
    assert s == [s[0]] + s[1..];
  }

  /** An element of an insertion is the median of its neighbours and the inserted value. */
  lemma {:induction false} InsertAt(x: real, s: seq<real>, k: nat)
    requires Sorted(s) && k <= |s|
    ensures var upper := if k < |s| && s[k] <= x then s[k] else x;
            Insert(x, s)[k] == if k > 0 && s[k - 1] > upper then s[k - 1] else upper
  {
    if !(s == [] || x <= s[0]) && k > 0 {
      InsertAt(x, s[1..], k - 1);
    }
  }

  lemma InsertDominates(x: real, y: real, s: seq<real>, t: seq<real>)
    requires x <= y && Sorted(s) && Sorted(t) && Below(s, t)
    ensures Below(Insert(x, s), Insert(y, t))
  {
    forall k | 0 <= k <= |s| ensures Insert(x, s)[k] <= Insert(y, t)[k] {
      InsertAt(x, s, k);
      InsertAt(y, t, k);
    }
  }

  /** Raising values pointwise raises the order statistics pointwise. */
  lemma {:induction false} SortDominates(s: seq<real>, t: seq<real>)
    requires Below(s, t)
    ensures Below(Sort(s), Sort(t))
  {
    if s != [] {
      SortDominates(s[1..], t[1..]);
      SortSorts(s[1..]);
      SortSorts(t[1..]);
      InsertDominates(s[0], t[0], Sort(s[1..]), Sort(t[1..]));
    }
  }

  // ---------------------------------------------------------------- interpolation

  function Ceil(x: real): int {
    -((-x).Floor)
  }

  lemma CeilFacts(x: real)
    ensures x.Floor <= Ceil(x) <= x.Floor + 1
    ensures Ceil(x) == x.Floor <==> x == x.Floor as real
    ensures x <= Ceil(x) as real < x + 1.0
  {
  }

  function Lerp(a: real, b: real, f: real): real {
    a + (b - a) * f
  }

  function Times(x: real, y: real): real {
    x * y
  }

  lemma TimesScale(d: real, f: real, g: real)
    requires d >= 0.0 && f <= g
    ensures Times(d, f) <= Times(d, g)
  {
    Scale(d, f, g);
  }

  lemma Scale(d: real, f: real, g: real)
    requires d >= 0.0 && f <= g
    ensures d * f <= d * g
  {
    assert d * (g - f) >= 0.0;
    assert d * (g - f) == d * g - d * f;
  }

  lemma LerpBetween(a: real, b: real, f: real)
    requires a <= b && 0.0 <= f <= 1.0
    ensures a <= Lerp(a, b, f) <= b
  {
    Scale(b - a, 0.0, f);
    Scale(b - a, f, 1.0);
  }

  lemma LerpDominates(a: real, b: real, c: real, d: real, f: real)
    requires a <= c && b <= d && 0.0 <= f <= 1.0
    ensures Lerp(a, b, f) <= Lerp(c, d, f)
  {
    hide Lerp, Times;
    LerpWeights(a, b, f);
    LerpWeights(c, d, f);
    TimesScale(f, b, d);
    TimesScale(1.0 - f, a, c);
  }

  lemma LerpWeights(a: real, b: real, f: real)
    ensures Lerp(a, b, f) == Times(1.0 - f, a) + Times(f, b)
  {
  }

  lemma LerpMonotone(a: real, b: real, f: real, g: real)
    requires a <= b && f <= g
    ensures Lerp(a, b, f) <= Lerp(a, b, g)
  {
    Scale(b - a, f, g);
  }

  predicate InRange(n: nat, p: real) {
    0.0 <= p <= (n - 1) as real
  }

  /** The value at a fractional position of a sorted list. */
  function At(s: seq<real>, p: real): real
    requires s != [] && InRange(|s|, p)
  {
    CeilFacts(p);
    var lower := p.Floor;
    var upper := Ceil(p);
    if lower == upper then s[lower] else Lerp(s[lower], s[upper], p - lower as real)
  }

  lemma AtBetween(s: seq<real>, p: real)
    requires s != [] && InRange(|s|, p) && Sorted(s)
    ensures 0 <= p.Floor <= Ceil(p) < |s|
    ensures s[p.Floor] <= At(s, p) <= s[Ceil(p)]
  {
    CeilFacts(p);
    if p.Floor != Ceil(p) {
      LerpBetween(s[p.Floor], s[Ceil(p)], p - p.Floor as real);
    }
  }

  lemma AtMonotone(s: seq<real>, p: real, q: real)
    requires s != [] && InRange(|s|, p) && InRange(|s|, q) && Sorted(s) && p <= q
    ensures At(s, p) <= At(s, q)
  {
    CeilFacts(p);
    CeilFacts(q);
    AtBetween(s, p);
    AtBetween(s, q);
    if Ceil(p) > q.Floor {
      assert p.Floor == q.Floor && Ceil(p) == p.Floor + 1;
      assert p < q.Floor as real + 1.0;
      LerpMonotone(s[p.Floor], s[Ceil(p)], p - p.Floor as real, q - q.Floor as real);
    }
  }

  lemma AtDominates(s: seq<real>, t: seq<real>, p: real)
    requires s != [] && Below(s, t) && InRange(|s|, p)
    ensures At(s, p) <= At(t, p)
  {
    CeilFacts(p);
    if p.Floor != Ceil(p) {
      LerpDominates(s[p.Floor], s[Ceil(p)], t[p.Floor], t[Ceil(p)], p - p.Floor as real);
    }
  }

  // ---------------------------------------------------------------- percentiles

  function Position(n: nat, q: real): real {
    (n as real - 1.0) * q
  }

  lemma PositionInRange(n: nat, q: real)
    requires n >= 1 && 0.0 <= q <= 1.0
    ensures InRange(n, Position(n, q))
  {
    assert 0.0 <= (n as real - 1.0) * q <= (n as real - 1.0) * 1.0;
  }

  lemma PositionMonotone(n: nat, q: real, r: real)
    requires n >= 1 && q <= r
    ensures Position(n, q) <= Position(n, r)
  {
    Scale(n as real - 1.0, q, r);
  }

  function Of(values: seq<real>, q: real): real
    requires values != [] && 0.0 <= q <= 1.0
  {
    PositionInRange(|values|, q);
    At(Sort(values), Position(|values|, q))
  }

  /** The variant that clamps the upper index instead of taking the ceiling. */
  function Clamped(values: seq<real>, q: real): real
    requires values != [] && 0.0 <= q <= 1.0
  {
    PositionInRange(|values|, q);
    var ordered := Sort(values);
    var p := Position(|values|, q);
    var lower := p.Floor;
    var upper := if lower + 1 < |ordered| then lower + 1 else |ordered| - 1;
    Lerp(ordered[lower], ordered[upper], p - lower as real)
  }

  /** The variant that interpolates between floor and ceiling without a special case. */
  function Unbranched(values: seq<real>, q: real): real
    requires values != [] && 0.0 <= q <= 1.0
  {
    PositionInRange(|values|, q);
    var ordered := Sort(values);
    var p := Position(|values|, q);
    CeilFacts(p);
    Lerp(ordered[p.Floor], ordered[Ceil(p)], p - p.Floor as real)
  }

  lemma VariantsAgree(values: seq<real>, q: real)
    requires values != [] && 0.0 <= q <= 1.0
    ensures Of(values, q) == Clamped(values, q) == Unbranched(values, q)
  {
    PositionInRange(|values|, q);
    var p := Position(|values|, q);
    CeilFacts(p);
    if p.Floor == Ceil(p) {
      assert p - p.Floor as real == 0.0;
    }
  }

  lemma PercentileDominates(s: seq<real>, t: seq<real>, q: real)
    requires s != [] && Below(s, t) && 0.0 <= q <= 1.0
    ensures Of(s, q) <= Of(t, q)
  {
    PositionInRange(|s|, q);
    SortDominates(s, t);
    AtDominates(Sort(s), Sort(t), Position(|s|, q));
  }

  lemma PercentileMonotone(s: seq<real>, q: real, r: real)
    requires s != [] && 0.0 <= q <= r <= 1.0
    ensures Of(s, q) <= Of(s, r)
  {
    PositionInRange(|s|, q);
    PositionInRange(|s|, r);
    PositionMonotone(|s|, q, r);
    SortSorts(s);
    AtMonotone(Sort(s), Position(|s|, q), Position(|s|, r));
  }

  lemma PercentileWithin(s: seq<real>, q: real, lo: real, hi: real)
    requires s != [] && 0.0 <= q <= 1.0
    requires forall i :: 0 <= i < |s| ==> lo <= s[i] <= hi
    ensures lo <= Of(s, q) <= hi
  {
    PositionInRange(|s|, q);
    SortSorts(s);
    var t := Sort(s);
    var p := Position(|s|, q);
    AtBetween(t, p);
    assert t[p.Floor] in multiset(t) && t[Ceil(p)] in multiset(t);
    assert t[p.Floor] in multiset(s) && t[Ceil(p)] in multiset(s);
  }

  // ---------------------------------------------------------------- mirror image

  function Negate(s: seq<real>): (r: seq<real>)
    ensures |r| == |s|
  {
    if s == [] then [] else [-s[0]] + Negate(s[1..])
  }

  lemma {:induction false} NegateAt(s: seq<real>, i: nat)
    requires i < |s|
    ensures Negate(s)[i] == -s[i]
  {
    if i > 0 {
      NegateAt(s[1..], i - 1);
    }
  }

  function Mirror(s: seq<real>): (r: seq<real>)
    ensures |r| == |s|
  {
    if s == [] then [] else Mirror(s[1..]) + [-s[0]]
  }

  lemma {:induction false} MirrorAt(s: seq<real>, i: nat)
    requires i < |s|
    ensures Mirror(s)[|s| - 1 - i] == -s[i]
  {
    if i > 0 {
      MirrorAt(s[1..], i - 1);
    }
  }

  lemma MirrorSorted(s: seq<real>)
    requires Sorted(s)
    ensures Sorted(Mirror(s))
  {
    forall i, j | 0 <= i < j < |s| ensures Mirror(s)[i] <= Mirror(s)[j] {
      MirrorAt(s, |s| - 1 - i);
      MirrorAt(s, |s| - 1 - j);
    }
  }

  lemma {:induction false} MirrorMultiset(s: seq<real>)
    ensures multiset(Mirror(s)) == multiset(Negate(s))
  {
    if s != [] {
      MirrorMultiset(s[1..]);
    }
  }

  function Count(s: seq<real>, x: real): nat {
    if s == [] then 0 else (if s[0] == x then 1 else 0) + Count(s[1..], x)
  }

  lemma {:induction false} CountIs(s: seq<real>, x: real)
    ensures multiset(s)[x] == Count(s, x)
  {
    if s != [] {
      CountIs(s[1..], x);
      assert s == [s[0]] + s[1..];
      assert multiset(s) == multiset{s[0]} + multiset(s[1..]);
    }
  }

  lemma {:induction false} NegateCount(s: seq<real>, x: real)
    ensures Count(Negate(s), x) == Count(s, -x)
  {
    if s != [] {
      NegateCount(s[1..], x);
    }
  }

  lemma NegateMultiset(s: seq<real>, x: real)
    ensures multiset(Negate(s))[x] == multiset(s)[-x]
  {
    CountIs(Negate(s), x);
    CountIs(s, -x);
    NegateCount(s, x);
    hide Negate, Count;
  }

  /** Sorting the negated values gives the mirror image of the sorted values. */
  lemma SortMirror(s: seq<real>)
    ensures Sort(Negate(s)) == Mirror(Sort(s))
  {
    SortSorts(s);
    SortSorts(Negate(s));
    MirrorMultiset(Sort(s));
    assert multiset(Negate(Sort(s))) == multiset(Negate(s)) by {
      forall x ensures multiset(Negate(Sort(s)))[x] == multiset(Negate(s))[x] {
        NegateMultiset(Sort(s), x);
        NegateMultiset(s, x);
      }
    }
    MirrorSorted(Sort(s));
    SortedUnique(Sort(Negate(s)), Mirror(Sort(s)));
  }

  lemma LerpMirror(a: real, b: real, f: real)
    ensures Lerp(-b, -a, 1.0 - f) == -Lerp(a, b, f)
  {
    assert (-a - (-b)) * (1.0 - f) == (b - a) - (b - a) * f;
  }

  lemma AtIs(s: seq<real>, p: real, lower: nat, upper: nat)
    requires s != [] && InRange(|s|, p) && lower == p.Floor && upper == Ceil(p)
    ensures lower <= upper < |s|
    ensures At(s, p) == if lower == upper then s[lower] else Lerp(s[lower], s[upper], p - lower as real)
  {
    CeilFacts(p);
  }

  lemma AtMirror(s: seq<real>, p: real)
    requires s != [] && InRange(|s|, p)
    ensures InRange(|s|, (|s| - 1) as real - p)
    ensures At(Mirror(s), (|s| - 1) as real - p) == -At(s, p)
  {
    hide At, Lerp, Ceil, Mirror;
    var n := |s| - 1;
    var m := n as real - p;
    CeilFacts(p);
    FloorMirror(n, p);
    var lower, upper := p.Floor, Ceil(p);
    AtIs(s, p, lower, upper);
    AtIs(Mirror(s), m, n - upper, n - lower);
    MirrorAt(s, lower);
    MirrorAt(s, upper);
    LerpMirror(s[lower], s[upper], p - lower as real);
    assert upper == lower + 1 ==> m - (n - upper) as real == 1.0 - (p - lower as real);
  }

  lemma FloorMirror(n: int, p: real)
    ensures (n as real - p).Floor == n - Ceil(p)
    ensures Ceil(n as real - p) == n - p.Floor
  {
  }

  lemma PositionMirror(n: nat, q: real)
    requires n >= 1
    ensures Position(n, 1.0 - q) == (n - 1) as real - Position(n, q)
  {
  }

  /** Exchanging the two sides of every comparison mirrors every percentile. */
  lemma PercentileMirror(s: seq<real>, q: real)
    requires s != [] && 0.0 <= q <= 1.0
    ensures Of(Negate(s), 1.0 - q) == -Of(s, q)
  {
    hide Position, Sort, Negate, Mirror, At;
    PositionInRange(|s|, q);
    PositionInRange(|s|, 1.0 - q);
    SortMirror(s);
    PositionMirror(|s|, q);
    AtMirror(Sort(s), Position(|s|, q));
  }

  // ---------------------------------------------------------------- what a percentile is

  /** How many values are at most, or below, a given one. */
  function AtMost(s: seq<real>, x: real): nat {
    if s == [] then 0 else (if s[0] <= x then 1 else 0) + AtMost(s[1..], x)
  }

  function Under(s: seq<real>, x: real): nat {
    if s == [] then 0 else (if s[0] < x then 1 else 0) + Under(s[1..], x)
  }

  lemma {:induction false} InsertCounts(y: real, s: seq<real>, x: real)
    ensures AtMost(Insert(y, s), x) == AtMost(s, x) + (if y <= x then 1 else 0)
    ensures Under(Insert(y, s), x) == Under(s, x) + (if y < x then 1 else 0)
  {
    if s == [] || y <= s[0] {
      assert ([y] + s)[1..] == s;
    } else {
      InsertCounts(y, s[1..], x);
      assert ([s[0]] + Insert(y, s[1..]))[1..] == Insert(y, s[1..]);
    }
  }

  lemma {:induction false} SortCounts(s: seq<real>, x: real)
    ensures AtMost(Sort(s), x) == AtMost(s, x) && Under(Sort(s), x) == Under(s, x)
  {
    if s != [] {
      SortCounts(s[1..], x);
      InsertCounts(s[0], Sort(s[1..]), x);
    }
  }

  lemma {:induction false} SortedCounts(s: seq<real>, k: nat, x: real)
    requires Sorted(s) && k < |s|
    ensures s[k] <= x ==> AtMost(s, x) >= k + 1
    ensures s[k] >= x ==> Under(s, x) <= k
  {
    assert Sorted(s[1..]);
    if k > 0 {
      assert s[0] <= s[k] && s[1..][k - 1] == s[k];
      SortedCounts(s[1..], k - 1, x);
    } else if s[0] >= x {
      NoneUnder(s, x);
    }
  }

  lemma {:induction false} NoneUnder(s: seq<real>, x: real)
    requires Sorted(s) && s != [] && s[0] >= x
    ensures Under(s, x) == 0
  {
    if |s| > 1 {
      assert s[1] >= s[0];
      NoneUnder(s[1..], x);
    }
  }

  /** `b` divides the values in the ratio q, up to the rounding of one position. */
  ghost predicate Divides(values: seq<real>, b: real, q: real)
    requires values != []
  {
    && Under(values, b) <= Ceil((|values| as real - 1.0) * q)
    && AtMost(values, b) >= ((|values| as real - 1.0) * q).Floor + 1
  }

  /**
   * What the q-th percentile of n values is: no more than (n - 1)q of them, rounded up, lie below
   * it, and at least one more than (n - 1)q of them, rounded down, do not lie above it.
   */
  lemma PercentileRank(values: seq<real>, q: real)
    requires values != [] && 0.0 <= q <= 1.0
    ensures Divides(values, Of(values, q), q)
  {
    var s, p := Sort(values), Position(|values|, q);
    PositionInRange(|values|, q);
    SortSorts(values);
    AtBetween(s, p);
    SortCounts(values, Of(values, q));
    SortedCounts(s, p.Floor, Of(values, q));
    SortedCounts(s, Ceil(p), Of(values, q));
  }

  lemma AtValue(s: seq<real>, p: real, i: nat, f: real)
    requires s != [] && InRange(|s|, p) && p == i as real + f && 0.0 <= f < 1.0
    ensures i < |s| && (f == 0.0 ==> At(s, p) == s[i])
    ensures f > 0.0 ==> i + 1 < |s| && At(s, p) == s[i] + Times(s[i + 1] - s[i], f)
  {
    CeilFacts(p);
    assert p.Floor == i;
    assert Ceil(p) == if f == 0.0 then i else i + 1;
  }

  lemma PositionIs(n: nat, q: real)
    ensures Position(n, q) == Times(n as real - 1.0, q)
  {
  }

  lemma OfIs(values: seq<real>, q: real)
    requires values != [] && 0.0 <= q <= 1.0
    ensures InRange(|values|, Position(|values|, q))
    ensures Of(values, q) == At(Sort(values), Position(|values|, q))
  {
    PositionInRange(|values|, q);
    hide At, Position, Sort;
  }

  /** The value itself: between two neighbours of the sorted list, in proportion to the position. */
  lemma PercentileValue(values: seq<real>, q: real, i: nat, f: real)
    requires values != [] && 0.0 <= q <= 1.0 && 0.0 <= f < 1.0
    requires Times(|values| as real - 1.0, q) == i as real + f
    ensures i < |values| && (f == 0.0 ==> Of(values, q) == Sort(values)[i])
    ensures f > 0.0 ==>
              && i + 1 < |values|
              && Of(values, q) == Sort(values)[i] + Times(Sort(values)[i + 1] - Sort(values)[i], f)
  {
    hide Of, Sort, Position, Times, At;
    OfIs(values, q);
    PositionIs(|values|, q);
    AtValue(Sort(values), Position(|values|, q), i, f);
  }
}
