/** Small shared vocabulary: optional values and duplicate-free sequences. */
module Prelude {

  datatype Option<+T> = None | Some(value: T)

  ghost predicate NoDup<T>(xs: seq<T>) {
    forall i, j :: 0 <= i < j < |xs| ==> xs[i] != xs[j]
  }

  /** `xs` without any element equal to `x`; the order of the others is kept. */
  function Except<T(==,!new)>(xs: seq<T>, x: T): (r: seq<T>)
    ensures |r| <= |xs|
    ensures forall y :: y in r <==> y in xs && y != x
  {
    if xs == [] then []
    else if xs[0] == x then Except(xs[1..], x)
    else [xs[0]] + Except(xs[1..], x)
  }

  lemma {:induction false} ExceptAbsent<T(!new)>(xs: seq<T>, x: T)
    requires x !in xs
    ensures Except(xs, x) == xs
  {
    if xs != [] {
      ExceptAbsent(xs[1..], x);
    }
  }

  /** Without duplicates, exactly one position disappears. */
  lemma {:induction false} ExceptAt<T(!new)>(xs: seq<T>, i: nat)
    requires NoDup(xs) && i < |xs|
    ensures Except(xs, xs[i]) == xs[..i] + xs[i + 1..]
  {
    if i == 0 {
      ExceptAbsent(xs[1..], xs[0]);
    } else {
      ExceptAt(xs[1..], i - 1);
    }
  }

  lemma {:induction false} SetSize<T(!new)>(xs: seq<T>, s: set<T>)
    requires NoDup(xs)
    requires forall x :: x in s <==> x in xs
    ensures |s| == |xs|
  {
    if xs != [] {
      var t := s - {xs[0]};
      assert forall x :: x in t <==> x in xs[1..];
      SetSize(xs[1..], t);
    } else {
      assert s == {};
    }
  }

  lemma DropAtMembers<T>(xs: seq<T>, i: nat)
    requires NoDup(xs) && i < |xs|
    ensures NoDup(xs[..i] + xs[i + 1..])
    ensures forall y :: y in xs[..i] + xs[i + 1..] <==> y in xs && y != xs[i]
  {
    var ys := xs[..i] + xs[i + 1..];
    assert forall j :: 0 <= j < |ys| ==> ys[j] == xs[if j < i then j else j + 1];
    forall y | y in xs && y != xs[i]
      ensures y in ys
    {
      var j :| 0 <= j < |xs| && xs[j] == y;
      assert ys[if j < i then j else j - 1] == y;
    }
  }

  function IndexOf<T(==)>(xs: seq<T>, x: T): (i: nat)
    requires x in xs
    ensures i < |xs| && xs[i] == x && x !in xs[..i]
  {
    if xs[0] == x then 0 else 1 + IndexOf(xs[1..], x)
  }

  lemma IndexUnique<T>(xs: seq<T>, i: nat)
    requires NoDup(xs) && i < |xs|
    ensures IndexOf(xs, xs[i]) == i
  {
  }

  ghost predicate Increasing(keep: seq<nat>, n: nat) {
    && (forall i, j :: 0 <= i < j < |keep| ==> keep[i] < keep[j])
    && (forall i :: 0 <= i < |keep| ==> keep[i] < n)
  }

  /** `ys` is what `xs` has at the positions `keep`, in the original order. */
  ghost predicate Selects<T>(xs: seq<T>, ys: seq<T>, keep: seq<nat>) {
    && Increasing(keep, |xs|) && |keep| == |ys|
    && forall i :: 0 <= i < |ys| ==> ys[i] == xs[keep[i]]
  }

  /** `ys` lists the members of `xs` once each, in the order of their first appearance. */
  ghost predicate FirstSeen<T(!new)>(xs: seq<T>, ys: seq<T>) {
    && NoDup(ys)
    && (forall x :: x in xs <==> x in ys)
    && forall i, j :: 0 <= i < j < |ys| ==> IndexOf(xs, ys[i]) < IndexOf(xs, ys[j])
  }

  lemma {:induction false} IndexOfAppend<T>(xs: seq<T>, zs: seq<T>, x: T)
    requires x in xs
    ensures IndexOf(xs + zs, x) == IndexOf(xs, x)
  {
    if xs[0] != x {
      assert (xs + zs)[1..] == xs[1..] + zs;
      IndexOfAppend(xs[1..], zs, x);
    }
  }

  lemma FirstSeenMembers<T(!new)>(xs: seq<T>, ys: seq<T>, x: T)
    requires FirstSeen(xs, ys)
    ensures NoDup(ys) && (x in xs <==> x in ys)
  {
  }

  lemma FirstSeenNext<T(!new)>(xs: seq<T>, ys: seq<T>, x: T)
    requires FirstSeen(xs, ys)
    ensures FirstSeen(xs + [x], if x in ys then ys else ys + [x])
  {
    hide IndexOf;
    var zs := if x in ys then ys else ys + [x];
    forall y | y in xs
      ensures IndexOf(xs + [x], y) == IndexOf(xs, y)
    {
      IndexOfAppend(xs, [x], y);
    }
    if x !in ys {
      assert (xs + [x])[IndexOf(xs + [x], x)] == x;
      assert IndexOf(xs + [x], x) >= |xs|;
    }
  }

  ghost predicate InOrderOf<T>(xs: seq<T>, ys: seq<T>) {
    && (forall y :: y in ys ==> y in xs)
    && forall i, j :: 0 <= i < j < |ys| ==> IndexOf(xs, ys[i]) < IndexOf(xs, ys[j])
  }

  lemma SomeMember<T>(xs: seq<T>)
    ensures xs != [] ==> exists x :: x in xs
  {
    if xs != [] {
      assert xs[0] in xs;
    }
  }

  lemma {:induction false} SameOrder<T(!new)>(xs: seq<T>, ys: seq<T>, zs: seq<T>)
    requires InOrderOf(xs, ys) && InOrderOf(xs, zs)
    requires forall x :: x in ys <==> x in zs
    ensures ys == zs
  {
    hide IndexOf;
    SomeMember(ys);
    SomeMember(zs);
    if ys != [] && zs != [] {
      assert ys[0] in zs && zs[0] in ys;
      var j :| 0 <= j < |zs| && zs[j] == ys[0];
      var k :| 0 <= k < |ys| && ys[k] == zs[0];
      assert j == 0;
      var u, v := ys[1..], zs[1..];
      forall x
        ensures x in u <==> x in v
      {
        assert x in u <==> x in ys && x != ys[0];
        assert x in v <==> x in zs && x != zs[0];
      }
      SameOrder(xs, u, v);
    }
  }

  /** There is one such list. */
  lemma FirstSeenUnique<T(!new)>(xs: seq<T>, ys: seq<T>, zs: seq<T>)
    requires FirstSeen(xs, ys) && FirstSeen(xs, zs)
    ensures ys == zs
  {
    hide IndexOf, NoDup;
    SameOrder(xs, ys, zs);
  }

  lemma NothingSeen<T(!new)>()
    ensures FirstSeen<T>([], [])
  {
  }

  lemma {:induction false} FirstSeenExists<T(!new)>(xs: seq<T>) returns (ys: seq<T>)
    ensures FirstSeen(xs, ys)
  {
    hide FirstSeen;
    if xs == [] {
      NothingSeen<T>();
      ys := [];
    } else {
      var n := |xs| - 1;
      var zs := FirstSeenExists(xs[..n]);
      FirstSeenNext(xs[..n], zs, xs[n]);
      assert xs[..n] + [xs[n]] == xs;
      ys := if xs[n] in zs then zs else zs + [xs[n]];
    }
  }

  /** Decimal digits. */
  function Digits(n: nat): (r: string)
    ensures |r| > 0 && forall i :: 0 <= i < |r| ==> '0' <= r[i] <= '9'
  {
    if n < 10 then ['0' + n as char] else Digits(n / 10) + ['0' + (n % 10) as char]
  }
}
