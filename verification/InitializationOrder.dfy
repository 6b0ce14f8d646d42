/**
 The order in which carried libraries are initialized (runtime/GuestLink.c,
 `initialize_after` and `gl_initialization_order`): a depth-first walk that
 puts a library after its dependencies and cuts cycles at libraries already
 seen. `links[i]` lists, in load order, the carried libraries that library `i`
 names; names that resolve to no carried library are not in it.
 */
module InitializationOrder {

  type Links = seq<seq<nat>>

  ghost predicate Closed(links: Links) {
    forall i, k :: 0 <= i < |links| && 0 <= k < |links[i]| ==> links[i][k] < |links|
  }

  ghost predicate Edge(links: Links, a: nat, b: nat) {
    a < |links| && b in links[a]
  }

  ghost predicate Path(links: Links, p: seq<nat>) {
    p != [] && forall k :: 0 <= k < |p| - 1 ==> Edge(links, p[k], p[k + 1])
  }

  /** A chain of links, possibly empty, leads from `a` to `b`. */
  ghost predicate Reaches(links: Links, a: nat, b: nat) {
    exists p :: Path(links, p) && p[0] == a && p[|p| - 1] == b
  }

  lemma ReachesItself(links: Links, a: nat)
    ensures Reaches(links, a, a)
  {
    assert Path(links, [a]);
  }

  lemma ReachesFurther(links: Links, a: nat, b: nat, c: nat)
    requires Reaches(links, a, b) && Edge(links, b, c)
    ensures Reaches(links, a, c)
  {
    var p :| Path(links, p) && p[0] == a && p[|p| - 1] == b;
    var q := p + [c];
    forall k | 0 <= k < |q| - 1 ensures Edge(links, q[k], q[k + 1]) {
      if k < |p| - 1 { assert Edge(links, p[k], p[k + 1]); }
    }
    assert Path(links, q);
  }

  ghost predicate Distinct(order: seq<nat>) {
    forall k, l :: 0 <= k < l < |order| ==> order[k] != order[l]
  }

  /** Every link of a placed library leads to one placed earlier, or to one that leads back to it. */
  ghost predicate Respects(links: Links, order: seq<nat>) {
    forall k, j :: 0 <= k < |order| && Edge(links, order[k], j) ==> j in order[..k] || Reaches(links, j, order[k])
  }

  /** No library is reachable from one it links. */
  ghost predicate Acyclic(links: Links) {
    forall i, j :: Edge(links, i, j) ==> !Reaches(links, j, i)
  }

  ghost predicate Topological(links: Links, order: seq<nat>) {
    forall k, j :: 0 <= k < |order| && Edge(links, order[k], j) ==> j in order[..k]
  }

  /** Without cycles every library comes after all it links. */
  lemma AcyclicTopological(links: Links, order: seq<nat>)
    requires Respects(links, order) && Acyclic(links)
    ensures Topological(links, order)
  {
    forall k, j | 0 <= k < |order| && Edge(links, order[k], j) ensures j in order[..k] {
      assert !Reaches(links, j, order[k]);
    }
  }

  /** The converse: an order of all libraries in which each follows its links leaves no cycle. */
  lemma TopologicalAcyclic(links: Links, order: seq<nat>)
    requires Distinct(order) && Topological(links, order) && forall i :: 0 <= i < |links| ==> i in order
    ensures Acyclic(links)
  {
    forall i, j | Edge(links, i, j) ensures !Reaches(links, j, i) {
      forall p | Path(links, p) && p[0] == j ensures p[|p| - 1] != i {
        assert i in order;
        var k :| 0 <= k < |order| && order[k] == i;
        assert j in order[..k];
        var l := PathDescends(links, order, p, k);
      }
    }
  }

  /** Along a path positions only go down. */
  lemma {:induction false} PathDescends(links: Links, order: seq<nat>, p: seq<nat>, k: nat) returns (l: nat)
    requires Distinct(order) && Topological(links, order) && Path(links, p) && k <= |order| && p[0] in order[..k]
    ensures l < k && order[l] == p[|p| - 1]
    decreases |p|
  {
    if |p| == 1 {
      l :| 0 <= l < k && order[..k][l] == p[0];
    } else {
      assert Edge(links, p[0], p[1]);
      var m :| 0 <= m < k && order[m] == p[0];
      assert p[1] in order[..m];
      assert Path(links, p[1..]) by {
        forall i | 0 <= i < |p[1..]| - 1 ensures Edge(links, p[1..][i], p[1..][i + 1]) {
          assert Edge(links, p[i + 1], p[i + 2]);
        }
      }
      l := PathDescends(links, order, p[1..], m);
    }
  }

  class Initializer {
    const links: Links
    var seen: set<nat>
    var order: seq<nat>

    /** Libraries being visited: seen, but not placed yet. */
    ghost function Visiting(): set<nat>
      reads this
    {
      set i | i in seen && i !in order
    }

    ghost predicate Valid()
      reads this
    {
      && Closed(links) && Distinct(order) && Respects(links, order)
      && (forall i :: i in order ==> i in seen) && (forall i :: i in seen ==> i < |links|)
    }

    constructor (links: Links)
      requires Closed(links)
      ensures Valid() && this.links == links && seen == {} && order == []
    {
      this.links := links;
      seen, order := {}, [];
    }

    /** `initialize_after`: place a library once its dependencies are in the order; `seen` cuts cycles. */
    method Visit(index: nat)
      requires Valid() && index < |links|
      requires forall g :: g in Visiting() ==> Reaches(links, g, index)
      modifies this
      ensures Valid() && index in seen && old(seen) <= seen
      ensures Visiting() == old(Visiting()) && old(order) <= order
      decreases |links| - |seen|
    {
      hide Reaches, Respects, Distinct;
      if index in seen {
        return;
      }
      SeenFits(seen, index, |links|);
      ghost var visiting, placed := Visiting(), order;
      seen := seen + {index};
      assert Visiting() == visiting + {index};
      var i := 0;
      while i < |links[index]|
        invariant Valid() && 0 <= i <= |links[index]| && old(seen) + {index} <= seen
        invariant Visiting() == visiting + {index} && placed <= order
        invariant forall k :: 0 <= k < i ==> links[index][k] in seen
      {
        var needed := links[index][i];
        ReachesItself(links, index);
        forall g | g in Visiting() ensures Reaches(links, g, needed) { ReachesFurther(links, g, index, needed); }
        SeenGrows(old(seen) + {index}, seen);
        Visit(needed);
        i := i + 1;
      }
      Place(links, seen, order, index, visiting);
      order := order + [index];
      assert Visiting() == visiting;
    }

    /** `gl_initialization_order`: the executable's libraries first, then any that are left. */
    method Order(roots: seq<nat>)
      requires Valid() && seen == {} && order == [] && forall k :: 0 <= k < |roots| ==> roots[k] < |links|
      modifies this
      ensures Valid()
      ensures Distinct(order) && Respects(links, order)
      ensures forall i :: i in order <==> 0 <= i < |links|
      ensures |order| == |links|
    {
      hide Reaches, Respects;
      assert Visiting() == {};
      for k := 0 to |roots|
        invariant Valid() && Visiting() == {}
      {
        Visit(roots[k]);
      }
      for i := 0 to |links|
        invariant Valid() && Visiting() == {}
        invariant forall j :: 0 <= j < i ==> j in seen
      {
        Visit(i);
      }
      forall i | 0 <= i < |links| ensures i in order {
        assert i !in Visiting();
      }
      OrderLength(order, |links|);
    }
  }

  lemma SeenGrows(s: set<nat>, t: set<nat>)
    requires s <= t
    ensures |s| <= |t|
  {
    assert t == s + (t - s);
  }

  lemma SeenFits(seen: set<nat>, index: nat, n: nat)
    requires (forall i :: i in seen ==> i < n) && index < n && index !in seen
    ensures |seen| < n && |seen + {index}| == |seen| + 1
  {
    SeenGrows(seen + {index}, Below(n));
  }

  ghost function Below(n: nat): (s: set<nat>)
    ensures |s| == n && forall k: nat :: k in s <==> k < n
  {
    if n == 0 then {} else Below(n - 1) + {n - 1}
  }

  /**
   Placing the library last keeps the order respectful: what it links is placed, or is
   being visited and leads to it.
   */
  lemma Place(links: Links, seen: set<nat>, order: seq<nat>, index: nat, visiting: set<nat>)
    requires Distinct(order) && Respects(links, order) && index < |links| && index !in order
    requires forall k :: 0 <= k < |links[index]| ==> links[index][k] in seen
    requires forall i :: i in seen && i !in order ==> i in visiting + {index}
    requires forall g :: g in visiting ==> Reaches(links, g, index)
    ensures Distinct(order + [index]) && Respects(links, order + [index])
  {
    hide Reaches;
    var out := order + [index];
    ReachesItself(links, index);
    forall k, j | 0 <= k < |out| && Edge(links, out[k], j) ensures j in out[..k] || Reaches(links, j, out[k]) {
      if k < |order| {
        assert out[..k] == order[..k];
        assert Edge(links, order[k], j);
      } else {
        assert out[..k] == order;
      }
    }
  }

  lemma OrderLength(order: seq<nat>, n: nat)
    requires Distinct(order) && forall i :: i in order <==> 0 <= i < n
    ensures |order| == n
  {
    var s := set k | 0 <= k < |order| :: order[k];
    DistinctCount(order, s);
    forall x: nat ensures x in s <==> x in Below(n) {
      assert x in s <==> x in order;
    }
    assert s == Below(n);
  }

  lemma {:induction false} DistinctCount(order: seq<nat>, s: set<nat>)
    requires Distinct(order) && s == set k | 0 <= k < |order| :: order[k]
    ensures |s| == |order|
  {
    if order != [] {
      var last := |order| - 1;
      var t := set k | 0 <= k < last :: order[..last][k];
      DistinctCount(order[..last], t);
      assert s == t + {order[last]};
    }
  }
}
