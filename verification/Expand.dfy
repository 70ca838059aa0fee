/** Depth-bounded walks over a resource tree: which resources are visited, in
which order, and where the depth bound cut children off. */
module Expand {
  import KeyedLists

  const MAX_DEPTH := 8

  datatype Depth = NoDepth | Levels(n: nat) | All {
    function Effective(): nat {
      match this case NoDepth => 0 case Levels(n) => n case All => MAX_DEPTH
    }
  }

  /** No depth is the resource alone, a number is that many hops, everything is eight. */
  lemma DepthInHops(n: nat)
    ensures NoDepth.Effective() == 0 && Levels(n).Effective() == n && All.Effective() == 8
  {}

  datatype Tree<S> = Tree(segment: S, children: seq<Tree<S>>)

  /** A resource together with its chain of parents, itself last. */
  datatype Visit<S> = Visit(path: seq<S>, tree: Tree<S>)

  // ---- What a walk should report: the whole traversal, filtered --------

  /** The whole tree in preorder, below the chain `above`. */
  ghost function Preorder<S>(above: seq<S>, t: Tree<S>): seq<Visit<S>>
    decreases t, 0
  {
    [Visit(above + [t.segment], t)] + PreorderAll(above + [t.segment], t.children)
  }

  ghost function PreorderAll<S>(above: seq<S>, ts: seq<Tree<S>>): seq<Visit<S>>
    decreases ts
  {
    if ts == [] then []
    else PreorderAll(above, ts[..|ts| - 1]) + Preorder(above, ts[|ts| - 1])
  }

  /** The visits whose chain is at most `n` long, in the same order. */
  ghost function UpTo<S>(vs: seq<Visit<S>>, n: nat): seq<Visit<S>> {
    if vs == [] then []
    else UpTo(vs[..|vs| - 1], n) + (if |vs[|vs| - 1].path| <= n then [vs[|vs| - 1]] else [])
  }

  /** The chains of exactly length `n` whose resource has children. */
  ghost function CutAt<S>(vs: seq<Visit<S>>, n: nat): seq<seq<S>> {
    if vs == [] then []
    else
      var v := vs[|vs| - 1];
      CutAt(vs[..|vs| - 1], n) + (if |v.path| == n && v.tree.children != [] then [v.path] else [])
  }

  lemma {:induction false} UpToConcat<S>(a: seq<Visit<S>>, b: seq<Visit<S>>, n: nat)
    ensures UpTo(a + b, n) == UpTo(a, n) + UpTo(b, n)
  {
    if b == [] {
      assert a + b == a;
    } else {
      UpToConcat(a, b[..|b| - 1], n);
      assert (a + b)[..|a + b| - 1] == a + b[..|b| - 1];
    }
  }

  lemma {:induction false} CutAtConcat<S>(a: seq<Visit<S>>, b: seq<Visit<S>>, n: nat)
    ensures CutAt(a + b, n) == CutAt(a, n) + CutAt(b, n)
  {
    if b == [] {
      assert a + b == a;
    } else {
      CutAtConcat(a, b[..|b| - 1], n);
      assert (a + b)[..|a + b| - 1] == a + b[..|b| - 1];
    }
  }

  /** The visits within reach, in traversal order. */
  lemma UpToInOrder<S(!new)>(vs: seq<Visit<S>>, n: nat)
    ensures KeyedLists.Filtered(UpTo(vs, n), vs, (v: Visit<S>) => |v.path| <= n)
  {
    var near := (v: Visit<S>) => |v.path| <= n;
    UpToFilters(vs, n, near);
    KeyedLists.FilteredIff(UpTo(vs, n), vs, near);
  }

  lemma {:induction false} UpToFilters<S(!new)>(vs: seq<Visit<S>>, n: nat, near: Visit<S> -> bool)
    requires forall v :: near(v) <==> |v.path| <= n
    ensures UpTo(vs, n) == KeyedLists.Retain(vs, near)
  {
    if vs != [] { UpToFilters(vs[..|vs| - 1], n, near); }
  }

  /** The chains cut off, in traversal order: those of the visits at the bound that have
      children. */
  lemma CutAtInOrder<S(!new)>(vs: seq<Visit<S>>, n: nat) returns (cut: seq<Visit<S>>)
    ensures KeyedLists.Filtered(cut, vs, (v: Visit<S>) => |v.path| == n && v.tree.children != [])
    ensures |CutAt(vs, n)| == |cut| && forall i :: 0 <= i < |cut| ==> CutAt(vs, n)[i] == cut[i].path
  {
    var atBound := (v: Visit<S>) => |v.path| == n && v.tree.children != [];
    cut := KeyedLists.Retain(vs, atBound);
    CutAtFilters(vs, n, atBound);
    KeyedLists.FilteredIff(cut, vs, atBound);
  }

  lemma {:induction false} CutAtFilters<S(!new)>(vs: seq<Visit<S>>, n: nat, atBound: Visit<S> -> bool)
    requires forall v :: atBound(v) <==> |v.path| == n && v.tree.children != []
    ensures var cut := KeyedLists.Retain(vs, atBound);
      |CutAt(vs, n)| == |cut| && forall i :: 0 <= i < |cut| ==> CutAt(vs, n)[i] == cut[i].path
  {
    if vs != [] { CutAtFilters(vs[..|vs| - 1], n, atBound); }
  }

  /** `v` is the resource `t` below the chain `above`, or lies below one of its children. */
  ghost predicate Reached<S>(above: seq<S>, t: Tree<S>, v: Visit<S>)
    decreases t
  {
    || v == Visit(above + [t.segment], t)
    || exists i :: 0 <= i < |t.children| && Reached(above + [t.segment], t.children[i], v)
  }

  /** The traversal visits exactly the resources reached from the root. */
  lemma {:induction false} PreorderReaches<S>(above: seq<S>, t: Tree<S>, v: Visit<S>)
    ensures v in Preorder(above, t) <==> Reached(above, t, v)
    decreases t, 0
  {
    PreorderAllReaches(above + [t.segment], t.children, v);
  }

  lemma {:induction false} PreorderAllReaches<S>(above: seq<S>, ts: seq<Tree<S>>, v: Visit<S>)
    ensures v in PreorderAll(above, ts) <==> exists i :: 0 <= i < |ts| && Reached(above, ts[i], v)
    decreases ts
  {
    if ts != [] {
      var k := |ts| - 1;
      PreorderAllReaches(above, ts[..k], v);
      PreorderReaches(above, ts[k], v);
      if i :| 0 <= i < k && Reached(above, ts[..k][i], v) { assert Reached(above, ts[i], v); }
      if i :| 0 <= i < |ts| && Reached(above, ts[i], v) { assert i < k ==> Reached(above, ts[..k][i], v); }
    }
  }

  /** Everything below a chain has a longer chain that extends it. */
  lemma {:induction false} PathsExtend<S>(above: seq<S>, t: Tree<S>, v: Visit<S>)
    requires v in Preorder(above, t)
    ensures above < v.path
    decreases t, 0
  {
    if v in PreorderAll(above + [t.segment], t.children) {
      PathsExtendAll(above + [t.segment], t.children, v);
    }
  }

  lemma {:induction false} PathsExtendAll<S>(above: seq<S>, ts: seq<Tree<S>>, v: Visit<S>)
    requires v in PreorderAll(above, ts)
    ensures above < v.path
    decreases ts
  {
    var k := |ts| - 1;
    if v in Preorder(above, ts[k]) {
      PathsExtend(above, ts[k], v);
    } else {
      PathsExtendAll(above, ts[..k], v);
    }
  }

  lemma {:induction false} NoneUpTo<S>(vs: seq<Visit<S>>, n: nat)
    requires forall v :: v in vs ==> |v.path| > n
    ensures UpTo(vs, n) == [] && CutAt(vs, n) == []
  {
    if vs != [] { NoneUpTo(vs[..|vs| - 1], n); }
  }

  /** With no hops left only the resource itself is within reach. */
  lemma OnlyRoot<S>(above: seq<S>, t: Tree<S>)
    ensures UpTo(Preorder(above, t), |above| + 1) == [Visit(above + [t.segment], t)]
    ensures CutAt(Preorder(above, t), |above| + 1) == if t.children != [] then [above + [t.segment]] else []
  {
    var root, below := [Visit(above + [t.segment], t)], PreorderAll(above + [t.segment], t.children);
    forall v | v in below ensures |v.path| > |above| + 1 { PathsExtendAll(above + [t.segment], t.children, v); }
    NoneUpTo(below, |above| + 1);
    UpToConcat(root, below, |above| + 1);
    CutAtConcat(root, below, |above| + 1);
  }

  lemma BelowRoot<S>(above: seq<S>, t: Tree<S>, n: nat)
    requires n > |above| + 1
    ensures UpTo(Preorder(above, t), n) ==
            [Visit(above + [t.segment], t)] + UpTo(PreorderAll(above + [t.segment], t.children), n)
    ensures CutAt(Preorder(above, t), n) == CutAt(PreorderAll(above + [t.segment], t.children), n)
  {
    UpToConcat([Visit(above + [t.segment], t)], PreorderAll(above + [t.segment], t.children), n);
    CutAtConcat([Visit(above + [t.segment], t)], PreorderAll(above + [t.segment], t.children), n);
  }

  /** One more child, appended to what a walk has already reported. */
  lemma NextChild<S>(above: seq<S>, ts: seq<Tree<S>>, i: nat, n: nat, entered: seq<Visit<S>>, truncated: seq<seq<S>>)
    requires i < |ts|
    ensures entered + UpTo(PreorderAll(above, ts[..i + 1]), n) ==
            entered + UpTo(PreorderAll(above, ts[..i]), n) + UpTo(Preorder(above, ts[i]), n)
    ensures truncated + CutAt(PreorderAll(above, ts[..i + 1]), n) ==
            truncated + CutAt(PreorderAll(above, ts[..i]), n) + CutAt(Preorder(above, ts[i]), n)
  {
    OneMoreChild(above, ts, i);
    ReportJoin(PreorderAll(above, ts[..i]), Preorder(above, ts[i]), n, entered, truncated);
  }

  lemma OneMoreChild<S>(above: seq<S>, ts: seq<Tree<S>>, i: nat)
    requires i < |ts|
    ensures PreorderAll(above, ts[..i + 1]) == PreorderAll(above, ts[..i]) + Preorder(above, ts[i])
  {
    assert ts[..i + 1][..i] == ts[..i];
  }

  lemma ReportJoin<S>(a: seq<Visit<S>>, b: seq<Visit<S>>, n: nat, entered: seq<Visit<S>>, truncated: seq<seq<S>>)
    ensures entered + UpTo(a + b, n) == entered + UpTo(a, n) + UpTo(b, n)
    ensures truncated + CutAt(a + b, n) == truncated + CutAt(a, n) + CutAt(b, n)
  {
    UpToConcat(a, b, n);
    CutAtConcat(a, b, n);
  }

  /** What a walk reports for a resource: itself, then what its children report. */
  lemma ReportBelow<S>(above: seq<S>, t: Tree<S>, n: nat, entered: seq<Visit<S>>, truncated: seq<seq<S>>)
    requires n > |above| + 1
    ensures entered + UpTo(Preorder(above, t), n) ==
            entered + [Visit(above + [t.segment], t)] + UpTo(PreorderAll(above + [t.segment], t.children), n)
    ensures truncated + CutAt(Preorder(above, t), n) ==
      truncated + CutAt(PreorderAll(above + [t.segment], t.children), n)
  {
    BelowRoot(above, t, n);
  }

  lemma ReportRoot<S>(above: seq<S>, t: Tree<S>, n: nat, entered: seq<Visit<S>>, truncated: seq<seq<S>>)
    requires n == |above| + 1
    ensures entered + UpTo(Preorder(above, t), n) == entered + [Visit(above + [t.segment], t)]
    ensures truncated + CutAt(Preorder(above, t), n) ==
      if t.children != [] then truncated + [above + [t.segment]] else truncated
  {
    OnlyRoot(above, t);
  }

  // ---- The walk -------------------------------------------------------

  class Walker<S(==)> {
    var path: seq<S>
    var entered: seq<Visit<S>>
    var truncated: seq<seq<S>>

    constructor ()
      ensures path == [] && entered == [] && truncated == []
    {
      path, entered, truncated := [], [], [];
    }

    method WalkInner(node: Tree<S>, remaining: nat)
      modifies this
      ensures path == old(path)
      ensures entered == old(entered) + UpTo(Preorder(old(path), node), |old(path)| + 1 + remaining)
      ensures truncated == old(truncated) + CutAt(Preorder(old(path), node), |old(path)| + 1 + remaining)
      decreases node
    {
      ghost var n := |path| + 1 + remaining;
      path := path + [node.segment];
      entered := entered + [Visit(path, node)];
      if remaining == 0 {
        var hasChild := HasChild(node);
        if hasChild { truncated := truncated + [path]; }
        ReportRoot(old(path), node, n, old(entered), old(truncated));
      } else {
        WalkChildren(node.children, remaining - 1, n);
        ReportBelow(old(path), node, n, old(entered), old(truncated));
      }
      path := path[..|path| - 1];
    }

    /** The probe at the depth bound: passes over every child. */
    method HasChild(node: Tree<S>) returns (hasChild: bool)
      ensures hasChild <==> node.children != []
    {
      hasChild := false;
      for i := 0 to |node.children|
        invariant hasChild <==> i > 0
      {
        hasChild := true;
      }
    }

    method WalkChildren(children: seq<Tree<S>>, remaining: nat, ghost n: nat)
      requires n == |path| + 1 + remaining
      modifies this
      ensures path == old(path)
      ensures entered == old(entered) + UpTo(PreorderAll(path, children), n)
      ensures truncated == old(truncated) + CutAt(PreorderAll(path, children), n)
      decreases children
    {
      ghost var above, e, t := path, entered, truncated;
      for i := 0 to |children|
        invariant path == above
        invariant entered == e + UpTo(PreorderAll(above, children[..i]), n)
        invariant truncated == t + CutAt(PreorderAll(above, children[..i]), n)
      {
        NextChild(above, children, i, n, e, t);
        WalkInner(children[i], remaining);
      }
      assert children[..|children|] == children;
    }
  }

  /** A walk of depth d enters, in preorder, exactly the resources within d hops of
      the root and reports exactly those d hops away that have children. */
  method Walk<S(==)>(root: Tree<S>, depth: Depth) returns (entered: seq<Visit<S>>, truncated: seq<seq<S>>)
    ensures entered == UpTo(Preorder([], root), 1 + depth.Effective())
    ensures truncated == CutAt(Preorder([], root), 1 + depth.Effective())
  {
    var w := new Walker();
    w.WalkInner(root, depth.Effective());
    return w.entered, w.truncated;
  }

  // ---- Pruned views ---------------------------------------------------

  /** The tree cut off `d` hops below its root. */
  ghost function Prune<S>(t: Tree<S>, d: nat): Tree<S>
    decreases t, 0
  {
    Tree(t.segment, if d == 0 then [] else PruneAll(t.children, d - 1))
  }

  ghost function PruneAll<S>(ts: seq<Tree<S>>, d: nat): (r: seq<Tree<S>>)
    ensures |r| == |ts|
    decreases ts
  {
    if ts == [] then [] else PruneAll(ts[..|ts| - 1], d) + [Prune(ts[|ts| - 1], d)]
  }

  ghost function Chains<S>(vs: seq<Visit<S>>): seq<seq<S>> {
    if vs == [] then [] else Chains(vs[..|vs| - 1]) + [vs[|vs| - 1].path]
  }

  lemma {:induction false} ChainsConcat<S>(a: seq<Visit<S>>, b: seq<Visit<S>>)
    ensures Chains(a + b) == Chains(a) + Chains(b)
  {
    if b == [] {
      assert a + b == a;
    } else {
      ChainsConcat(a, b[..|b| - 1]);
      assert (a + b)[..|a + b| - 1] == a + b[..|b| - 1];
    }
  }

  lemma ChainsOfRoot<S>(above: seq<S>, t: Tree<S>)
    ensures Chains(Preorder(above, t)) == [above + [t.segment]] + Chains(PreorderAll(above + [t.segment], t.children))
  {
    var here := [Visit(above + [t.segment], t)];
    ChainsConcat(here, PreorderAll(above + [t.segment], t.children));
    assert here[..0] == [] && Chains(here) == [above + [t.segment]];
  }

  lemma ChainsUpTo<S>(above: seq<S>, t: Tree<S>, n: nat)
    requires n > |above| + 1
    ensures Chains(UpTo(Preorder(above, t), n)) ==
            [above + [t.segment]] + Chains(UpTo(PreorderAll(above + [t.segment], t.children), n))
  {
    var here := [Visit(above + [t.segment], t)];
    BelowRoot(above, t, n);
    ChainsConcat(here, UpTo(PreorderAll(above + [t.segment], t.children), n));
    assert here[..0] == [] && Chains(here) == [above + [t.segment]];
  }

  lemma ShownJoin<S>(a: seq<Visit<S>>, a': seq<Visit<S>>, b: seq<Visit<S>>, b': seq<Visit<S>>, n: nat)
    requires Chains(a) == Chains(UpTo(a', n)) && Chains(b) == Chains(UpTo(b', n))
    ensures Chains(a + b) == Chains(UpTo(a' + b', n))
  {
    ChainsConcat(a, b);
    UpToConcat(a', b', n);
    ChainsConcat(UpTo(a', n), UpTo(b', n));
  }

  lemma PruneLast<S>(above: seq<S>, ts: seq<Tree<S>>, d: nat)
    requires ts != []
    ensures PreorderAll(above, PruneAll(ts, d)) ==
            PreorderAll(above, PruneAll(ts[..|ts| - 1], d)) + Preorder(above, Prune(ts[|ts| - 1], d))
    ensures PreorderAll(above, ts) == PreorderAll(above, ts[..|ts| - 1]) + Preorder(above, ts[|ts| - 1])
  {
    assert PruneAll(ts, d)[..|ts| - 1] == PruneAll(ts[..|ts| - 1], d);
  }

  lemma ShownAtRoot<S>(above: seq<S>, t: Tree<S>, n: nat)
    requires n == |above| + 1
    ensures Chains(Preorder(above, Prune(t, 0))) == Chains(UpTo(Preorder(above, t), n))
  {
    ChainsOfRoot(above, Prune(t, 0));
    OnlyRoot(above, t);
    var here := [Visit(above + [t.segment], t)];
    assert here[..0] == [] && Chains(here) == [above + [t.segment]];
  }

  lemma ShownBelowRoot<S>(above: seq<S>, t: Tree<S>, d: nat, n: nat)
    requires d > 0 && n > |above| + 1
    requires Chains(PreorderAll(above + [t.segment], PruneAll(t.children, d - 1))) ==
             Chains(UpTo(PreorderAll(above + [t.segment], t.children), n))
    ensures Chains(Preorder(above, Prune(t, d))) == Chains(UpTo(Preorder(above, t), n))
  {
    ChainsOfRoot(above, Prune(t, d));
    ChainsUpTo(above, t, n);
  }

  /** A pruned view shows exactly the chains a walk of the full view enters. */
  lemma {:induction false} PrunedShowsAll<S>(above: seq<S>, t: Tree<S>, d: nat, n: nat)
    requires n == |above| + 1 + d
    ensures Chains(Preorder(above, Prune(t, d))) == Chains(UpTo(Preorder(above, t), n))
    decreases t, 0
  {
    if d == 0 {
      ShownAtRoot(above, t, n);
    } else {
      PrunedShowsAllBelow(above + [t.segment], t.children, d - 1, n);
      ShownBelowRoot(above, t, d, n);
    }
  }

  lemma {:induction false} PrunedShowsAllBelow<S>(above: seq<S>, ts: seq<Tree<S>>, d: nat, n: nat)
    requires n == |above| + 1 + d
    ensures Chains(PreorderAll(above, PruneAll(ts, d))) == Chains(UpTo(PreorderAll(above, ts), n))
    decreases ts
  {
    if ts != [] {
      var k := |ts| - 1;
      PrunedShowsAllBelow(above, ts[..k], d, n);
      PrunedShowsAll(above, ts[k], d, n);
      PruneLast(above, ts, d);
      ShownJoin(PreorderAll(above, PruneAll(ts[..k], d)), PreorderAll(above, ts[..k]), Preorder(above, Prune(ts[k], d)),
                Preorder(above, ts[k]), n);
    }
  }

  /** But a walk of the pruned view can no longer tell where children were cut off. */
  lemma {:induction false} PrunedHidesCuts<S>(above: seq<S>, t: Tree<S>, d: nat, n: nat)
    requires n == |above| + 1 + d
    ensures CutAt(Preorder(above, Prune(t, d)), n) == []
    decreases t, 0
  {
    if d == 0 {
      OnlyRoot(above, Prune(t, 0));
    } else {
      BelowRoot(above, Prune(t, d), n);
      PrunedHidesCutsBelow(above + [t.segment], t.children, d - 1, n);
    }
  }

  lemma {:induction false} PrunedHidesCutsBelow<S>(above: seq<S>, ts: seq<Tree<S>>, d: nat, n: nat)
    requires n == |above| + 1 + d
    ensures CutAt(PreorderAll(above, PruneAll(ts, d)), n) == []
    decreases ts
  {
    if ts != [] {
      var k := |ts| - 1;
      PrunedHidesCutsBelow(above, ts[..k], d, n);
      PrunedHidesCuts(above, ts[k], d, n);
      PruneLast(above, ts, d);
      CutAtConcat(PreorderAll(above, PruneAll(ts[..k], d)), Preorder(above, Prune(ts[k], d)), n);
    }
  }
}
