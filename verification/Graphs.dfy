/** Cycles in a directed graph, and when added edges create one. */
module Graphs {

  type Graph<T(==)> = set<(T, T)>

  ghost predicate Path<T>(g: Graph<T>, p: seq<T>) {
    p != [] && forall i :: 0 <= i < |p| - 1 ==> (p[i], p[i + 1]) in g
  }

  /** There is a path, of one node at least, from `a` to `b`. */
  ghost predicate Reaches<T(!new)>(g: Graph<T>, a: T, b: T) {
    exists p :: Path(g, p) && p[0] == a && p[|p| - 1] == b
  }

  ghost predicate Acyclic<T(!new)>(g: Graph<T>) {
    forall p :: Path(g, p) && 2 <= |p| ==> p[0] != p[|p| - 1]
  }

  /** `h` is `g` with an edge from every node of `from` to every node of `to`. */
  ghost predicate Joins<T(!new)>(g: Graph<T>, h: Graph<T>, from: set<T>, to: set<T>) {
    forall a, b :: (a, b) in h <==> (a, b) in g || (a in from && b in to)
  }

  lemma FewerEdgesKeepAcyclic<T(!new)>(g: Graph<T>, h: Graph<T>)
    requires Acyclic(g) && h <= g
    ensures Acyclic(h)
  {
    forall p | Path(h, p) && 2 <= |p| ensures p[0] != p[|p| - 1] {
      assert Path(g, p);
    }
  }

  lemma PathPart<T(!new)>(g: Graph<T>, p: seq<T>, i: int, j: int)
    requires 0 <= i < j <= |p| && forall k :: i <= k < j - 1 ==> (p[k], p[k + 1]) in g
    ensures Path(g, p[i..j])
  {
    var q := p[i..j];
    forall k | 0 <= k < |q| - 1 ensures (q[k], q[k + 1]) in g {
      assert q[k] == p[i + k] && q[k + 1] == p[i + k + 1];
    }
  }

  lemma PathsMeet<T(!new)>(g: Graph<T>, p: seq<T>, q: seq<T>)
    requires Path(g, p) && Path(g, q) && p[|p| - 1] == q[0]
    ensures Reaches(g, p[0], q[|q| - 1])
  {
    var r := p + q[1..];
    forall k | 0 <= k < |r| - 1 ensures (r[k], r[k + 1]) in g {
      if k < |p| - 1 {
        assert r[k] == p[k] && r[k + 1] == p[k + 1];
      } else {
        var l := k - (|p| - 1);
        assert r[k] == q[l] && r[k + 1] == q[l + 1];
      }
    }
    assert Path(g, r) && r[0] == p[0] && r[|r| - 1] == q[|q| - 1];
  }

  /** The first and the last step of a path of `h` that are not steps of `g`. */
  lemma NewSteps<T(!new)>(g: Graph<T>, p: seq<T>) returns (first: int, last: int)
    requires p != [] && !Path(g, p)
    ensures 0 <= first <= last < |p| - 1
    ensures (p[first], p[first + 1]) !in g && (p[last], p[last + 1]) !in g
    ensures forall k :: 0 <= k < first ==> (p[k], p[k + 1]) in g
    ensures forall k :: last < k < |p| - 1 ==> (p[k], p[k + 1]) in g
  {
    var any :| 0 <= any < |p| - 1 && (p[any], p[any + 1]) !in g;
    first := 0;
    while (p[first], p[first + 1]) in g
      invariant 0 <= first <= any
      invariant forall k :: 0 <= k < first ==> (p[k], p[k + 1]) in g
      decreases any - first
    {
      first := first + 1;
    }
    last := |p| - 2;
    while (p[last], p[last + 1]) in g
      invariant any <= last < |p| - 1
      invariant forall k :: last < k < |p| - 1 ==> (p[k], p[k + 1]) in g
      decreases last
    {
      last := last - 1;
    }
  }

  /** A cycle of the larger graph leads, without its new edges, from some `b` in `to` back to some `a` in `from`. */
  lemma CycleComesBack<T(!new)>(g: Graph<T>, h: Graph<T>, from: set<T>, to: set<T>, p: seq<T>) returns (a: T, b: T)
    requires Acyclic(g) && Joins(g, h, from, to)
    requires Path(h, p) && 2 <= |p| && p[0] == p[|p| - 1]
    ensures a in from && b in to && Reaches(g, b, a)
  {
    var first, last := NewSteps(g, p);
    a, b := p[first], p[last + 1];
    assert (p[first], p[first + 1]) in h && (p[last], p[last + 1]) in h;
    PathPart(g, p, last + 1, |p|);
    PathPart(g, p, 0, first + 1);
    var back, on := p[last + 1..|p|], p[0..first + 1];
    PathsMeet(g, back, on);
  }

  lemma WayBackMakesCycle<T(!new)>(g: Graph<T>, h: Graph<T>, from: set<T>, to: set<T>, a: T, b: T)
    requires Joins(g, h, from, to) && a in from && b in to && Reaches(g, b, a)
    ensures !Acyclic(h)
  {
    var p :| Path(g, p) && p[0] == b && p[|p| - 1] == a;
    var cycle := [a] + p;
    forall k | 0 <= k < |cycle| - 1 ensures (cycle[k], cycle[k + 1]) in h {
      if k > 0 {
        assert cycle[k] == p[k - 1] && cycle[k + 1] == p[k - 1 + 1];
      }
    }
    assert Path(h, cycle) && cycle[0] == cycle[|cycle| - 1];
  }

  /** New edges create a cycle exactly if a target of theirs already reaches a source. */
  lemma JoinsKeepsAcyclicIff<T(!new)>(g: Graph<T>, h: Graph<T>, from: set<T>, to: set<T>)
    requires Acyclic(g) && Joins(g, h, from, to)
    ensures Acyclic(h) <==> forall a, b :: a in from && b in to ==> !Reaches(g, b, a)
  {
    if a, b :| a in from && b in to && Reaches(g, b, a) {
      WayBackMakesCycle(g, h, from, to, a, b);
    } else {
      forall p | Path(h, p) && 2 <= |p| ensures p[0] != p[|p| - 1] {
        if p[0] == p[|p| - 1] {
          var a, b := CycleComesBack(g, h, from, to, p);
        }
      }
    }
  }
}
