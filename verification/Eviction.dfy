/**
 * Fitting a role context into its byte target: drop items by priority until the projection
 * fits. The size of a projection is an arbitrary function: nothing is assumed about how it
 * changes when an item goes.
 */
module Eviction {
  import opened Prelude

  // ---------------------------------------------------------------- dropping the worst

  /** `o(a, b)` says that `a` is evicted before `b`. */
  ghost predicate StrictTotal<T(!new)>(xs: seq<T>, o: (T, T) -> bool) {
    && (forall i, j :: 0 <= i < |xs| && 0 <= j < |xs| && i != j ==> (o(xs[i], xs[j]) <==> !o(xs[j], xs[i])))
    && (forall a, b, c :: o(a, b) && o(b, c) ==> o(a, c))
  }

  /** The position of the item with the greatest key. */
  function Worst<T>(xs: seq<T>, o: (T, T) -> bool): (w: nat)
    requires xs != []
    ensures w < |xs|
  {
    if |xs| == 1 then 0
    else
      var w := 1 + Worst(xs[1..], o);
      if o(xs[w], xs[0]) then w else 0
  }

  function DropAt<T>(xs: seq<T>, i: nat): (ys: seq<T>)
    requires i < |xs|
    ensures |ys| == |xs| - 1
  {
    xs[..i] + xs[i + 1..]
  }

  function Evict<T>(xs: seq<T>, o: (T, T) -> bool, k: nat): (ys: seq<T>)
    requires k <= |xs|
    ensures |ys| == |xs| - k
    decreases k
  {
    if k == 0 then xs else Evict(DropAt(xs, Worst(xs, o)), o, k - 1)
  }

  lemma {:induction false} EvictOneMore<T>(xs: seq<T>, o: (T, T) -> bool, k: nat)
    requires k < |xs|
    ensures Evict(xs, o, k + 1) == DropAt(Evict(xs, o, k), Worst(Evict(xs, o, k), o))
    decreases k
  {
    if k > 0 {
      EvictOneMore(DropAt(xs, Worst(xs, o)), o, k - 1);
    }
  }

  lemma {:induction false} WorstOutranks<T(!new)>(xs: seq<T>, o: (T, T) -> bool)
    requires xs != [] && StrictTotal(xs, o)
    ensures forall j :: 0 <= j < |xs| && j != Worst(xs, o) ==> o(xs[Worst(xs, o)], xs[j])
  {
    if |xs| > 1 {
      var rest := xs[1..];
      WorstOutranks(rest, o);
      var w := 1 + Worst(rest, o);
      forall j | 1 <= j < |xs| && j != w ensures o(xs[w], xs[j]) {
        assert xs[j] == rest[j - 1];
      }
    }
  }

  lemma DropAtTotal<T(!new)>(xs: seq<T>, o: (T, T) -> bool, i: nat)
    requires StrictTotal(xs, o) && i < |xs|
    ensures StrictTotal(DropAt(xs, i), o)
  {
    var ys := DropAt(xs, i);
    assert forall j :: 0 <= j < |ys| ==> ys[j] == xs[if j < i then j else j + 1];
  }

  function Lift(keep: seq<nat>, w: nat): (r: seq<nat>)
    ensures |r| == |keep|
    ensures forall i :: 0 <= i < |keep| ==> r[i] == if keep[i] < w then keep[i] else keep[i] + 1
  {
    seq(|keep|, i requires 0 <= i < |keep| => if keep[i] < w then keep[i] else keep[i] + 1)
  }

  /** A position other than `w`, before and after `w` is dropped. */
  lemma LiftMember<T>(xs: seq<T>, w: nat, inner: seq<nat>, p: nat)
    requires w < |xs| && p < |xs| && p != w && p !in Lift(inner, w)
    ensures var q := if p < w then p else p - 1;
            q < |xs| - 1 && q !in inner && DropAt(xs, w)[q] == xs[p]
  {
    assert forall j :: 0 <= j < |inner| ==> Lift(inner, w)[j] in Lift(inner, w);
  }

  lemma LiftOutranks<T(!new)>(xs: seq<T>, o: (T, T) -> bool, inner: seq<nat>)
    requires xs != [] && StrictTotal(xs, o)
    requires var ys := DropAt(xs, Worst(xs, o));
             && (forall i :: 0 <= i < |inner| ==> inner[i] < |ys|)
             && forall p, i :: 0 <= p < |ys| && p !in inner && 0 <= i < |inner| ==> o(ys[p], ys[inner[i]])
    ensures var keep := Lift(inner, Worst(xs, o));
            forall p, i :: 0 <= p < |xs| && p !in keep && 0 <= i < |keep| ==> keep[i] < |xs| && o(xs[p], xs[keep[i]])
  {
    var w := Worst(xs, o);
    var ys, keep := DropAt(xs, w), Lift(inner, w);
    WorstOutranks(xs, o);
    assert forall i :: 0 <= i < |inner| ==> keep[i] < |xs| && keep[i] != w && xs[keep[i]] == ys[inner[i]];
    hide StrictTotal, Worst, Lift, DropAt;
    forall p, i | 0 <= p < |xs| && p !in keep && 0 <= i < |keep|
      ensures keep[i] < |xs| && o(xs[p], xs[keep[i]])
    {
      if p != w {
        LiftMember(xs, w, inner, p);
      }
    }
  }

  /**
   * Dropping the worst item k times leaves exactly the n - k items that are evicted last, in
   * their original order.
   */
  lemma {:induction false} EvictKeepsBest<T(!new)>(xs: seq<T>, o: (T, T) -> bool, k: nat) returns (keep: seq<nat>)
    requires k <= |xs| && StrictTotal(xs, o)
    ensures Selects(xs, Evict(xs, o, k), keep)
    ensures forall p, i :: 0 <= p < |xs| && p !in keep && 0 <= i < |keep| ==> o(xs[p], xs[keep[i]])
    decreases k
  {
    if k == 0 {
      keep := seq(|xs|, i => i);
      assert forall p :: 0 <= p < |xs| ==> keep[p] == p;
    } else {
      hide StrictTotal, Worst, Lift;
      var w := Worst(xs, o);
      DropAtTotal(xs, o, w);
      var inner := EvictKeepsBest(DropAt(xs, w), o, k - 1);
      keep := Lift(inner, w);
      LiftSelects(xs, w, Evict(DropAt(xs, w), o, k - 1), inner);
      LiftOutranks(xs, o, inner);
    }
  }

  lemma LiftSelects<T>(xs: seq<T>, w: nat, zs: seq<T>, inner: seq<nat>)
    requires w < |xs| && Selects(DropAt(xs, w), zs, inner)
    ensures Selects(xs, zs, Lift(inner, w)) && w !in Lift(inner, w)
  {
  }

  // ---------------------------------------------------------------- the three eviction loops

  datatype Context<E, C, I> = Context(evidence: seq<E>, contributions: seq<C>, inputs: seq<I>)

  /** The drop counts reached by the loops: how many of each list went. */
  datatype Dropped = Dropped(evidence: nat, contributions: nat, inputs: nat)

  ghost function After<E, C, I>(
      c: Context<E, C, I>, eo: (E, E) -> bool, io: (I, I) -> bool, d: Dropped): Context<E, C, I>
    requires d.evidence <= |c.evidence| && d.contributions <= |c.contributions| && d.inputs <= |c.inputs|
  {
    Context(Evict(c.evidence, eo, d.evidence), c.contributions[..|c.contributions| - d.contributions],
            Evict(c.inputs, io, d.inputs))
  }

  /** The order in which drop counts are tried: evidence, then contributions, then inputs. */
  ghost function Attempt<E, C, I>(c: Context<E, C, I>, n: nat): Dropped
    requires n <= |c.evidence| + |c.contributions| + |c.inputs|
  {
    var e := |c.evidence|;
    var m := |c.contributions|;
    if n <= e then Dropped(n, 0, 0)
    else if n <= e + m then Dropped(e, n - e, 0)
    else Dropped(e, m, n - e - m)
  }

  ghost function AfterAttempt<E, C, I>(
      c: Context<E, C, I>, eo: (E, E) -> bool, io: (I, I) -> bool, n: nat): Context<E, C, I>
    requires n <= |c.evidence| + |c.contributions| + |c.inputs|
  {
    After(c, eo, io, Attempt(c, n))
  }

  lemma AttemptShape<E, C, I>(c: Context<E, C, I>, eo: (E, E) -> bool, io: (I, I) -> bool, n: nat)
    requires n <= |c.evidence| + |c.contributions| + |c.inputs|
    ensures var r := AfterAttempt(c, eo, io, n);
            var d := Attempt(c, n);
            && |r.evidence| == |c.evidence| - d.evidence && |r.contributions| == |c.contributions| - d.contributions
            && |r.inputs| == |c.inputs| - d.inputs
            && (n <= |c.evidence| ==> r.contributions == c.contributions)
            && (n <= |c.evidence| + |c.contributions| ==> r.inputs == c.inputs)
    ensures n == 0 ==> AfterAttempt(c, eo, io, n) == c
  {
  }

  /** One more attempt drops one more item, from the first list that still has any. */
  lemma AttemptStep<E, C, I>(c: Context<E, C, I>, eo: (E, E) -> bool, io: (I, I) -> bool, n: nat)
    requires n < |c.evidence| + |c.contributions| + |c.inputs|
    ensures var r := AfterAttempt(c, eo, io, n);
            AfterAttempt(c, eo, io, n + 1) ==
            if r.evidence != [] then r.(evidence := DropAt(r.evidence, Worst(r.evidence, eo)))
            else if r.contributions != [] then r.(contributions := r.contributions[..|r.contributions| - 1])
            else if r.inputs != [] then r.(inputs := DropAt(r.inputs, Worst(r.inputs, io)))
            else r
  {
    AttemptShape(c, eo, io, n);
    var e, m := |c.evidence|, |c.contributions|;
    if n < e {
      EvictOneMore(c.evidence, eo, n);
    } else if n >= e + m {
      EvictOneMore(c.inputs, io, n - e - m);
    }
  }

  /**
   * The loops stop at the first attempt that fits. Contributions are touched only once there is
   * no evidence left, inputs only once both are gone, and if nothing fits everything is dropped.
   */
  method Fit<E, C, I>(c: Context<E, C, I>, eo: (E, E) -> bool, io: (I, I) -> bool,
                      size: Context<E, C, I> -> nat, target: nat)
    returns (r: Context<E, C, I>, ghost n: nat)
    ensures n <= |c.evidence| + |c.contributions| + |c.inputs|
    ensures r == AfterAttempt(c, eo, io, n)
    ensures forall j :: 0 <= j < n ==> size(AfterAttempt(c, eo, io, j)) > target
    ensures size(r) <= target || r == Context([], [], [])
    ensures r.contributions != c.contributions ==> r.evidence == []
    ensures r.inputs != c.inputs ==> r.evidence == [] && r.contributions == []
  {
    hide AfterAttempt, Worst;
    r := c;
    n := 0;
    AttemptShape(c, eo, io, n);
    while size(r) > target && r.evidence != []
      invariant n <= |c.evidence| && r == AfterAttempt(c, eo, io, n) && |r.evidence| == |c.evidence| - n
      invariant forall j :: 0 <= j < n ==> size(AfterAttempt(c, eo, io, j)) > target
      decreases |r.evidence|
    {
      AttemptStep(c, eo, io, n);
      r := r.(evidence := DropAt(r.evidence, Worst(r.evidence, eo)));
      n := n + 1;
    }
    AttemptShape(c, eo, io, n);
    while size(r) > target && r.contributions != []
      invariant n <= |c.evidence| + |c.contributions| && r == AfterAttempt(c, eo, io, n)
      invariant size(r) > target || n > |c.evidence| ==> r.evidence == []
      invariant r.inputs == c.inputs && (r.evidence != [] ==> r.contributions == c.contributions)
      invariant r.evidence == [] ==> |r.contributions| == |c.evidence| + |c.contributions| - n
      invariant forall j :: 0 <= j < n ==> size(AfterAttempt(c, eo, io, j)) > target
      decreases |r.contributions|
    {
      AttemptStep(c, eo, io, n);
      r := r.(contributions := r.contributions[..|r.contributions| - 1]);
      n := n + 1;
    }
    while size(r) > target && r.inputs != []
      invariant n <= |c.evidence| + |c.contributions| + |c.inputs| && r == AfterAttempt(c, eo, io, n)
      invariant size(r) > target || r.inputs != c.inputs ==> r.evidence == [] && r.contributions == []
      invariant r.evidence != [] ==> r.contributions == c.contributions
      invariant r.evidence == [] && r.contributions == [] ==>
                  |r.inputs| == |c.evidence| + |c.contributions| + |c.inputs| - n
      invariant forall j :: 0 <= j < n ==> size(AfterAttempt(c, eo, io, j)) > target
      decreases |r.inputs|
    {
      AttemptStep(c, eo, io, n);
      r := r.(inputs := DropAt(r.inputs, Worst(r.inputs, io)));
      n := n + 1;
    }
  }

  lemma {:induction false} EvictMembers<T>(xs: seq<T>, o: (T, T) -> bool, k: nat, y: T)
    requires k <= |xs| && y in Evict(xs, o, k)
    ensures y in xs
    decreases k
  {
    if k > 0 {
      EvictMembers(DropAt(xs, Worst(xs, o)), o, k - 1, y);
    }
  }
}
