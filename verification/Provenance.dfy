/** Validation of evidence provenance: the recursive search for a cycle among parents. */
module Provenance {
  import opened Prelude

  ghost predicate Closed<I>(parents: map<I, set<I>>) {
    forall k :: k in parents ==> parents[k] <= parents.Keys
  }

  /** A walk from an item to its parent, that parent's parent, and so on. */
  ghost predicate Walk<I>(parents: map<I, set<I>>, w: seq<I>) {
    && (forall i :: 0 <= i < |w| ==> w[i] in parents)
    && (forall i {:trigger parents[w[i]]} :: 0 <= i < |w| - 1 ==> w[i + 1] in parents[w[i]])
  }

  ghost predicate Cycle<I>(parents: map<I, set<I>>, w: seq<I>) {
    |w| >= 2 && w[0] == w[|w| - 1] && Walk(parents, w)
  }

  ghost predicate Acyclic<I(!new)>(parents: map<I, set<I>>) {
    forall w :: !Cycle(parents, w)
  }

  /** Every item comes after all of its parents. */
  ghost predicate Topological<I>(parents: map<I, set<I>>, order: seq<I>) {
    && NoDup(order)
    && (forall i :: 0 <= i < |order| ==> order[i] in parents)
    && (forall i, p :: 0 <= i < |order| && p in parents[order[i]] ==> p in order[..i])
  }

  lemma {:induction false} WalkDescends<I>(parents: map<I, set<I>>, order: seq<I>, w: seq<I>)
    requires Topological(parents, order) && Walk(parents, w) && w != []
    requires forall k :: k in parents ==> k in order
    ensures IndexOf(order, w[|w| - 1]) + |w| - 1 <= IndexOf(order, w[0])
  {
    if |w| > 1 {
      var i := IndexOf(order, w[0]);
      assert w[1] in parents[order[i]];
      assert w[1] in order[..i];
      var j :| 0 <= j < i && order[j] == w[1];
      IndexUnique(order, j);
      forall m | 0 <= m < |w| - 2 ensures w[1..][m + 1] in parents[w[1..][m]] {
        assert w[(m + 1) + 1] in parents[w[m + 1]];
      }
      WalkDescends(parents, order, w[1..]);
    }
  }

  /** A topological order of everything rules out cycles. */
  lemma TopologicalAcyclic<I(!new)>(parents: map<I, set<I>>, order: seq<I>)
    requires Topological(parents, order) && forall k :: k in parents ==> k in order
    ensures Acyclic(parents)
  {
    forall w ensures !Cycle(parents, w) {
      if Cycle(parents, w) {
        WalkDescends(parents, order, w);
      }
    }
  }

  class Search<I(==,!new)> {
    const parents: map<I, set<I>>
    var visiting: set<I>
    var visited: set<I>
    ghost var path: seq<I>   // the items being visited, outermost first
    ghost var order: seq<I>  // the visited items in the order they were finished

    ghost predicate Valid()
      reads this
    {
      && Closed(parents)
      && Walk(parents, path) && (forall k :: k in path <==> k in visiting)
      && Topological(parents, order) && (forall k :: k in order <==> k in visited)
      && visiting !! visited
    }

    constructor (parents: map<I, set<I>>)
      requires Closed(parents)
      ensures Valid() && this.parents == parents && visiting == {} && visited == {} && path == [] && order == []
    {
      this.parents := parents;
      visiting, visited, path, order := {}, {}, [], [];
    }

    /** The source raises where `cycle` is returned. */
    method Visit(id: I) returns (cycle: bool)
      requires Valid() && id in parents
      requires path != [] ==> id in parents[path[|path| - 1]]
      modifies this
      ensures cycle ==> exists w :: Cycle(parents, w)
      ensures !cycle ==> Valid() && path == old(path) && visiting == old(visiting)
      ensures !cycle ==> old(visited) <= visited && id in visited
      decreases parents.Keys - visiting
    {
      if id in visiting {
        CloseCycle(parents, path, id);
        return true;
      }
      if id in visited {
        return false;
      }
      ghost var outer := path;
      visiting := visiting + {id};
      path := path + [id];
      var rest := parents[id];
      while rest != {}
        invariant rest <= parents[id] && Valid()
        invariant path == outer + [id] && visiting == old(visiting) + {id}
        invariant old(visited) <= visited && parents[id] - rest <= visited
        decreases |rest|
      {
        var parent :| parent in rest;
        cycle := Visit(parent);
        if cycle {
          return;
        }
        rest := rest - {parent};
      }
      Finish(parents, order, id);
      visiting := visiting - {id};
      visited := visited + {id};
      path := outer;
      order := order + [id];
      cycle := false;
    }

    /** Visits every item; the order is arbitrary. */
    method Run() returns (cycle: bool)
      requires Valid() && path == [] && visiting == {} && visited == {}
      modifies this
      ensures cycle <==> !Acyclic(parents)
      ensures !cycle ==> Topological(parents, order) && forall k :: k in parents <==> k in order
    {
      var rest := parents.Keys;
      while rest != {}
        invariant rest <= parents.Keys && Valid() && path == [] && visiting == {}
        invariant parents.Keys - rest <= visited
        decreases |rest|
      {
        var id :| id in rest;
        cycle := Visit(id);
        if cycle {
          return;
        }
        rest := rest - {id};
      }
      TopologicalAcyclic(parents, order);
      cycle := false;
    }
  }

  lemma CloseCycle<I>(parents: map<I, set<I>>, path: seq<I>, id: I)
    requires Walk(parents, path) && id in path && id in parents && id in parents[path[|path| - 1]]
    ensures exists w :: Cycle(parents, w)
  {
    var j :| 0 <= j < |path| && path[j] == id;
    var w := path[j..] + [id];
    forall i | 0 <= i < |w| - 1 ensures w[i + 1] in parents[w[i]] {
      assert w[i] == path[j + i];
      if i + 1 < |w| - 1 { assert w[i + 1] == path[j + i + 1]; }
    }
    assert Cycle(parents, w);
  }

  lemma Finish<I>(parents: map<I, set<I>>, order: seq<I>, id: I)
    requires Topological(parents, order) && id in parents && id !in order
    requires forall p :: p in parents[id] ==> p in order
    ensures Topological(parents, order + [id])
  {
    var next := order + [id];
    forall i, p | 0 <= i < |next| && p in parents[next[i]]
      ensures p in next[..i]
    {
      if i < |order| {
        assert p in order[..i] && next[..i] == order[..i];
      } else {
        assert next[..i] == order;
      }
    }
  }

  // ---------------------------------------------------------------- the snapshot validator

  datatype Evidence<I> = Evidence(id: I, parents: seq<I>)

  datatype Rejection =
    | DuplicateInput | DuplicateEvidence | DuplicateContribution
    | OwnParent | UnknownParent | ProvenanceCycle | UnknownEvidence

  function Ids<I>(items: seq<Evidence<I>>): (ids: seq<I>)
    ensures |ids| == |items| && forall i :: 0 <= i < |items| ==> ids[i] == items[i].id
  {
    seq(|items|, i requires 0 <= i < |items| => items[i].id)
  }

  function Elements<T(==)>(xs: seq<T>): set<T> {
    set x | x in xs
  }

  /** The last entry wins, as in the source's dictionary; without duplicates there is one per id. */
  ghost function ParentsOf<I(!new)>(items: seq<Evidence<I>>): map<I, set<I>> {
    if items == [] then map[]
    else ParentsOf(items[..|items| - 1])[items[|items| - 1].id := Elements(items[|items| - 1].parents)]
  }

  /** The first item whose parents are not in order. */
  ghost predicate FirstUnknown<I>(items: seq<Evidence<I>>, i: nat) {
    i < |items| && !ItemKnown(items, i) && forall j :: 0 <= j < i ==> ItemKnown(items, j)
  }

  ghost predicate ParentsKnown<I>(items: seq<Evidence<I>>) {
    forall i :: 0 <= i < |items| ==> ItemKnown(items, i)
  }

  ghost predicate ItemKnown<I>(items: seq<Evidence<I>>, i: nat)
    requires i < |items|
  {
    items[i].id !in items[i].parents && forall p :: p in items[i].parents ==> p in Ids(items)
  }

  ghost predicate CitesKnown<I>(items: seq<Evidence<I>>, cites: seq<seq<I>>) {
    forall i, p :: 0 <= i < |cites| && p in cites[i] ==> p in Ids(items)
  }

  lemma {:induction false} ParentsOfKeys<I(!new)>(items: seq<Evidence<I>>)
    ensures forall k :: k in ParentsOf(items) <==> k in Ids(items)
    ensures forall k :: k in ParentsOf(items) ==>
              exists i :: 0 <= i < |items| && items[i].id == k && ParentsOf(items)[k] == Elements(items[i].parents)
  {
    if items != [] {
      var front := items[..|items| - 1];
      var last := items[|items| - 1];
      ParentsOfKeys(front);
      assert Ids(items) == Ids(front) + [last.id];
      forall k | k in ParentsOf(items)
        ensures exists i :: 0 <= i < |items| && items[i].id == k && ParentsOf(items)[k] == Elements(items[i].parents)
      {
        if k == last.id {
          assert items[|items| - 1].id == k;
        } else {
          assert k in ParentsOf(front);
          var i :| 0 <= i < |front| && front[i].id == k && ParentsOf(front)[k] == Elements(front[i].parents);
          assert items[i] == front[i];
        }
      }
    }
  }

  lemma ParentsOfClosed<I(!new)>(items: seq<Evidence<I>>)
    requires ParentsKnown(items)
    ensures Closed(ParentsOf(items))
  {
    ParentsOfKeys(items);
    forall k, p | k in ParentsOf(items) && p in ParentsOf(items)[k]
      ensures p in ParentsOf(items)
    {
      var i :| 0 <= i < |items| && items[i].id == k && ParentsOf(items)[k] == Elements(items[i].parents);
      assert ItemKnown(items, i) && p in items[i].parents;
    }
  }

  method HasDuplicates<T(==)>(xs: seq<T>) returns (found: bool)
    ensures found <==> !NoDup(xs)
  {
    var seen := {};
    var i := 0;
    while i < |xs|
      invariant 0 <= i <= |xs| && NoDup(xs[..i])
      invariant forall x :: x in seen <==> x in xs[..i]
    {
      if xs[i] in seen {
        var j :| 0 <= j < i && xs[..i][j] == xs[i];
        assert xs[j] == xs[i];
        return true;
      }
      assert xs[..i + 1] == xs[..i] + [xs[i]];
      seen := seen + {xs[i]};
      i := i + 1;
    }
    assert xs[..i] == xs;
    found := false;
  }

  /** The per-item checks, in the order of the items. */
  method CheckParents<I(==)>(items: seq<Evidence<I>>) returns (r: Option<Rejection>)
    ensures r == None <==> ParentsKnown(items)
    ensures r == None || r == Some(OwnParent) || r == Some(UnknownParent)
    ensures r.Some? ==>
              exists i: nat :: FirstUnknown(items, i) && (r == Some(OwnParent) <==> items[i].id in items[i].parents)
  {
    var known := Elements(Ids(items));
    var i := 0;
    while i < |items|
      invariant 0 <= i <= |items|
      invariant forall j :: 0 <= j < i ==> ItemKnown(items, j)
    {
      if items[i].id in items[i].parents {
        assert !ItemKnown(items, i);
        assert FirstUnknown(items, i);
        return Some(OwnParent);
      }
      if !(Elements(items[i].parents) <= known) {
        var p :| p in Elements(items[i].parents) && p !in known;
        assert p in items[i].parents && p !in Ids(items);
        assert !ItemKnown(items, i);
        assert FirstUnknown(items, i);
        return Some(UnknownParent);
      }
      forall p | p in items[i].parents ensures p in Ids(items) {
        assert p in Elements(items[i].parents) && p in known;
      }
      i := i + 1;
    }
    r := None;
  }

  /**
   * Acceptance is exact: unique ids, known parents, no cycle, known citations. A cycle is
   * reported exactly when everything before it is in order and the parents do form a cycle.
   */
  method Validate<I(==,!new)>(inputs: seq<I>, items: seq<Evidence<I>>, contributions: seq<I>, cites: seq<seq<I>>)
    returns (r: Option<Rejection>)
    ensures r == None <==>
              && NoDup(inputs) && NoDup(Ids(items)) && NoDup(contributions)
              && ParentsKnown(items) && Acyclic(ParentsOf(items)) && CitesKnown(items, cites)
    ensures r == Some(ProvenanceCycle) <==>
              && NoDup(inputs) && NoDup(Ids(items)) && NoDup(contributions)
              && ParentsKnown(items) && !Acyclic(ParentsOf(items))
    ensures r == Some(DuplicateInput) <==> !NoDup(inputs)
    ensures r == Some(DuplicateEvidence) <==> NoDup(inputs) && !NoDup(Ids(items))
    ensures r == Some(DuplicateContribution) <==> NoDup(inputs) && NoDup(Ids(items)) && !NoDup(contributions)
    ensures r == Some(OwnParent) || r == Some(UnknownParent) <==>
              NoDup(inputs) && NoDup(Ids(items)) && NoDup(contributions) && !ParentsKnown(items)
    ensures r == Some(OwnParent) || r == Some(UnknownParent) ==>
              exists i: nat :: FirstUnknown(items, i) && (r == Some(OwnParent) <==> items[i].id in items[i].parents)
    ensures r == Some(UnknownEvidence) <==>
              && NoDup(inputs) && NoDup(Ids(items)) && NoDup(contributions)
              && ParentsKnown(items) && Acyclic(ParentsOf(items)) && !CitesKnown(items, cites)
  {
    var bad := HasDuplicates(inputs);
    if bad { return Some(DuplicateInput); }
    bad := HasDuplicates(Ids(items));
    if bad { return Some(DuplicateEvidence); }
    bad := HasDuplicates(contributions);
    if bad { return Some(DuplicateContribution); }
    r := CheckParents(items);
    if r.Some? { return; }
    var parents := map[];
    var i := 0;
    while i < |items|
      invariant 0 <= i <= |items| && parents == ParentsOf(items[..i])
    {
      assert items[..i + 1][..i] == items[..i];
      parents := parents[items[i].id := Elements(items[i].parents)];
      i := i + 1;
    }
    assert items[..i] == items;
    ParentsOfClosed(items);
    var search := new Search(parents);
    bad := search.Run();
    if bad { return Some(ProvenanceCycle); }
    i := 0;
    while i < |cites|
      invariant 0 <= i <= |cites|
      invariant forall j, p :: 0 <= j < i && p in cites[j] ==> p in Ids(items)
    {
      if !(Elements(cites[i]) <= Elements(Ids(items))) {
        var p :| p in Elements(cites[i]) && p !in Elements(Ids(items));
        assert p in cites[i] && p !in Ids(items);
        return Some(UnknownEvidence);
      }
      forall p | p in cites[i] ensures p in Ids(items) {
        assert p in Elements(cites[i]) && p in Elements(Ids(items));
      }
      i := i + 1;
    }
    r := None;
  }
}
