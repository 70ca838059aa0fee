/** The physical tree (rack, node, store, group) built to a bounded depth, with the
places where the bound cut children off recorded on the way down. */
module PhysicalView {
  import opened Expand
  import KeyedLists
  import opened Options

  datatype Segment = Rack(id: nat) | Node(id: nat) | Store(id: nat) | Group(id: nat)

  datatype NodeEntry = NodeEntry(id: nat, rackId: nat)

  datatype StoreRecord = StoreRecord(storeId: nat, groups: seq<nat>)

  datatype StoreView = StoreView(storeId: nat, groups: Option<seq<nat>>)

  datatype NodeView = NodeView(id: nat, rackId: nat, stores: Option<seq<StoreView>>)

  datatype RackView = RackView(id: nat, nodes: Option<seq<NodeView>>)

  function Mapped<A, B>(s: seq<A>, f: A -> B): (r: seq<B>)
    ensures |r| == |s| && forall i :: 0 <= i < |s| ==> r[i] == f(s[i])
  {
    seq(|s|, i requires 0 <= i < |s| => f(s[i]))
  }

  // ---- The views as resources to walk ---------------------------------

  function OfGroup(group: nat): Tree<Segment> {
    Tree(Group(group), [])
  }

  function OfStore(v: StoreView): Tree<Segment> {
    Tree(Store(v.storeId), if v.groups.Some? then Mapped(v.groups.value, OfGroup) else [])
  }

  function OfNode(v: NodeView): Tree<Segment> {
    Tree(Node(v.id), if v.stores.Some? then Mapped(v.stores.value, OfStore) else [])
  }

  function OfRack(v: RackView): Tree<Segment> {
    Tree(Rack(v.id), if v.nodes.Some? then Mapped(v.nodes.value, OfNode) else [])
  }

  // ---- The fully inflated view ----------------------------------------

  function FullStore(s: StoreRecord): StoreView {
    StoreView(s.storeId, Some(s.groups))
  }

  function StoresOn(snap: map<nat, seq<StoreRecord>>, node: nat): seq<StoreRecord> {
    if node in snap then snap[node] else []
  }

  function FullNode(snap: map<nat, seq<StoreRecord>>, node: NodeEntry): NodeView {
    NodeView(node.id, node.rackId, Some(Mapped(StoresOn(snap, node.id), FullStore)))
  }

  function FullNodes(snap: map<nat, seq<StoreRecord>>, nodes: seq<NodeEntry>): (r: seq<NodeView>)
    ensures |r| == |nodes| && forall i :: 0 <= i < |nodes| ==> r[i] == FullNode(snap, nodes[i])
  {
    Mapped(nodes, (n: NodeEntry) => FullNode(snap, n))
  }

  function NodesIn(nodes: seq<NodeEntry>, rack: nat): seq<NodeEntry> {
    if nodes == [] then []
    else NodesIn(nodes[..|nodes| - 1], rack) + (if nodes[|nodes| - 1].rackId == rack then [nodes[|nodes| - 1]] else [])
  }

  /** The nodes of a rack are exactly the listed nodes that name it. */
  lemma {:induction false} NodesInRack(nodes: seq<NodeEntry>, rack: nat, n: NodeEntry)
    ensures multiset(NodesIn(nodes, rack))[n] == if n.rackId == rack then multiset(nodes)[n] else 0
  {
    if nodes != [] {
      var k := |nodes| - 1;
      NodesInRack(nodes[..k], rack, n);
      assert nodes == nodes[..k] + [nodes[k]];
    }
  }

  /** They stay in order. */
  lemma NodesInOrder(nodes: seq<NodeEntry>, rack: nat)
    ensures Residents(NodesIn(nodes, rack), nodes, rack)
  {
    var here := (n: NodeEntry) => n.rackId == rack;
    NodesFilter(nodes, rack, here);
    KeyedLists.FilteredIff(NodesIn(nodes, rack), nodes, here);
  }

  lemma {:induction false} NodesFilter(nodes: seq<NodeEntry>, rack: nat, here: NodeEntry -> bool)
    requires forall n :: here(n) <==> n.rackId == rack
    ensures NodesIn(nodes, rack) == KeyedLists.Retain(nodes, here)
  {
    if nodes != [] { NodesFilter(nodes[..|nodes| - 1], rack, here); }
  }

  // ---- What a view shows ----------------------------------------------

  /** The store, with its groups if there is a hop left. */
  ghost predicate StoreShown(v: StoreView, s: StoreRecord, remaining: nat) {
    v.storeId == s.storeId && v.groups == if remaining >= 1 then Some(s.groups) else None
  }

  ghost predicate StoresShown(vs: seq<StoreView>, stores: seq<StoreRecord>, remaining: nat) {
    |vs| == |stores| && forall i :: 0 <= i < |stores| ==> StoreShown(vs[i], stores[i], remaining)
  }

  /** The node with its rack and, if there is a hop left, the stores recorded for it. */
  ghost predicate NodeShown(v: NodeView, snap: map<nat, seq<StoreRecord>>, node: NodeEntry, remaining: nat) {
    && v.id == node.id && v.rackId == node.rackId && (v.stores.Some? <==> remaining >= 1)
    && (remaining >= 1 && node.id in snap ==> StoresShown(v.stores.value, snap[node.id], remaining - 1))
    && (remaining >= 1 && node.id !in snap ==> v.stores.value == [])
  }

  ghost predicate NodesShown(vs: seq<NodeView>, snap: map<nat, seq<StoreRecord>>, nodes: seq<NodeEntry>,
                             remaining: nat)
  {
    |vs| == |nodes| && forall i :: 0 <= i < |nodes| ==> NodeShown(vs[i], snap, nodes[i], remaining)
  }

  /** The rack and, if there is a hop left, exactly the nodes that name it, in order. */
  ghost predicate RackShown(v: RackView, nodes: seq<NodeEntry>, snap: map<nat, seq<StoreRecord>>, rack: nat,
                            remaining: nat)
  {
    && v.id == rack && (v.nodes.Some? <==> remaining >= 1)
    && (remaining >= 1 ==>
          exists here :: Residents(here, nodes, rack) && NodesShown(v.nodes.value, snap, here, remaining - 1))
  }

  /** The nodes that name the rack, in order. */
  ghost predicate Residents(here: seq<NodeEntry>, nodes: seq<NodeEntry>, rack: nat) {
    KeyedLists.Filtered(here, nodes, (n: NodeEntry) => n.rackId == rack)
  }

  function ShownStore(s: StoreRecord, remaining: nat): StoreView {
    StoreView(s.storeId, if remaining >= 1 then Some(s.groups) else None)
  }

  function ShownStores(stores: seq<StoreRecord>, remaining: nat): seq<StoreView> {
    if stores == [] then []
    else ShownStores(stores[..|stores| - 1], remaining) + [ShownStore(stores[|stores| - 1], remaining)]
  }

  function ShownNode(snap: map<nat, seq<StoreRecord>>, node: NodeEntry, remaining: nat): NodeView {
    NodeView(node.id, node.rackId,
             if remaining >= 1 then Some(ShownStores(StoresOn(snap, node.id), remaining - 1)) else None)
  }

  function ShownNodes(snap: map<nat, seq<StoreRecord>>, nodes: seq<NodeEntry>, remaining: nat): seq<NodeView> {
    if nodes == [] then []
    else ShownNodes(snap, nodes[..|nodes| - 1], remaining) + [ShownNode(snap, nodes[|nodes| - 1], remaining)]
  }

  lemma {:induction false} StoresAreShown(stores: seq<StoreRecord>, remaining: nat)
    ensures StoresShown(ShownStores(stores, remaining), stores, remaining)
  {
    if stores != [] { StoresAreShown(stores[..|stores| - 1], remaining); }
  }

  lemma NodeIsShown(snap: map<nat, seq<StoreRecord>>, node: NodeEntry, remaining: nat)
    ensures NodeShown(ShownNode(snap, node, remaining), snap, node, remaining)
  {
    if remaining >= 1 { StoresAreShown(StoresOn(snap, node.id), remaining - 1); }
  }

  lemma {:induction false} NodesAreShown(snap: map<nat, seq<StoreRecord>>, nodes: seq<NodeEntry>, remaining: nat)
    ensures NodesShown(ShownNodes(snap, nodes, remaining), snap, nodes, remaining)
  {
    if nodes != [] {
      NodesAreShown(snap, nodes[..|nodes| - 1], remaining);
      NodeIsShown(snap, nodes[|nodes| - 1], remaining);
    }
  }

  function ShownRack(nodes: seq<NodeEntry>, snap: map<nat, seq<StoreRecord>>, rack: nat, remaining: nat): RackView {
    RackView(rack, if remaining >= 1 then Some(ShownNodes(snap, NodesIn(nodes, rack), remaining - 1)) else None)
  }

  /** What the builder returns, in full. */
  lemma RackIsShown(nodes: seq<NodeEntry>, snap: map<nat, seq<StoreRecord>>, rack: nat, remaining: nat)
    ensures RackShown(ShownRack(nodes, snap, rack, remaining), nodes, snap, rack, remaining)
  {
    if remaining >= 1 {
      NodesInOrder(nodes, rack);
      NodesAreShown(snap, NodesIn(nodes, rack), remaining - 1);
    }
  }

  function FullRack(nodes: seq<NodeEntry>, snap: map<nat, seq<StoreRecord>>, rack: nat): RackView {
    RackView(rack, Some(FullNodes(snap, NodesIn(nodes, rack))))
  }

  // ---- Lists of views, one more at a time -----------------------------

  lemma MappedNext<A, B>(s: seq<A>, a: A, f: A -> B)
    ensures Mapped(s + [a], f) == Mapped(s, f) + [f(a)]
  {}

  lemma {:induction false} PruneLeaves(groups: seq<nat>, d: nat)
    ensures PruneAll(Mapped(groups, OfGroup), d) == Mapped(groups, OfGroup)
  {
    if groups != [] {
      var k := |groups| - 1;
      PruneLeaves(groups[..k], d);
      assert Mapped(groups, OfGroup) == Mapped(groups[..k], OfGroup) + [OfGroup(groups[k])];
      assert Mapped(groups, OfGroup)[..k] == Mapped(groups[..k], OfGroup);
    }
  }

  /** Groups have nothing below them, so nothing is ever cut off there. */
  lemma {:induction false} LeavesUncut(above: seq<Segment>, groups: seq<nat>, n: nat)
    ensures CutAt(PreorderAll(above, Mapped(groups, OfGroup)), n) == []
  {
    if groups != [] {
      var k, trees := |groups| - 1, Mapped(groups, OfGroup);
      LeavesUncut(above, groups[..k], n);
      assert trees[..k] == Mapped(groups[..k], OfGroup);
      CutAtConcat(PreorderAll(above, trees[..k]), Preorder(above, trees[k]), n);
      assert Preorder(above, trees[k]) == [Visit(above + [trees[k].segment], trees[k])];
    }
  }

  /** A resource pruned: alone at the bound, else with what is left below it. */
  lemma {:induction false} PrunedTo(t: Tree<Segment>, remaining: nat, below: seq<Tree<Segment>>)
    requires below == if remaining >= 1 then PruneAll(t.children, remaining - 1) else []
    ensures Prune(t, remaining) == Tree(t.segment, below)
  {}

  lemma {:induction false} LeavesArePruned(segment: Segment, groups: seq<nat>, leaves: seq<Tree<Segment>>,
                                           remaining: nat)
    requires leaves == Mapped(groups, OfGroup)
    ensures Prune(Tree(segment, leaves), remaining) == Tree(segment, if remaining >= 1 then leaves else [])
  {
    if remaining >= 1 { PruneLeaves(groups, remaining - 1); }
    PrunedTo(Tree(segment, leaves), remaining, if remaining >= 1 then leaves else []);
  }

  /** What is shown of a store is the whole of it, pruned; and so for the others. */
  lemma {:induction false} StoreIsPruned(s: StoreRecord, remaining: nat)
    ensures OfStore(ShownStore(s, remaining)) == Prune(OfStore(FullStore(s)), remaining)
  {
    var leaves := Mapped(s.groups, OfGroup);
    LeavesArePruned(Store(s.storeId), s.groups, leaves, remaining);
    assert OfStore(FullStore(s)) == Tree(Store(s.storeId), leaves);
  }

  lemma {:induction false} StoresArePruned(stores: seq<StoreRecord>, remaining: nat)
    ensures Mapped(ShownStores(stores, remaining), OfStore) ==
            PruneAll(Mapped(Mapped(stores, FullStore), OfStore), remaining)
  {
    var ts := Mapped(Mapped(stores, FullStore), OfStore);
    if stores != [] {
      var k := |stores| - 1;
      StoresArePruned(stores[..k], remaining);
      StoreIsPruned(stores[k], remaining);
      MappedNext(ShownStores(stores[..k], remaining), ShownStore(stores[k], remaining), OfStore);
      assert ts[..k] == Mapped(Mapped(stores[..k], FullStore), OfStore);
    }
  }

  lemma {:induction false} NodeIsPruned(snap: map<nat, seq<StoreRecord>>, node: NodeEntry, remaining: nat)
    ensures OfNode(ShownNode(snap, node, remaining)) == Prune(OfNode(FullNode(snap, node)), remaining)
  {
    if remaining >= 1 { StoresArePruned(StoresOn(snap, node.id), remaining - 1); }
    PrunedTo(OfNode(FullNode(snap, node)), remaining, OfNode(ShownNode(snap, node, remaining)).children);
  }

  lemma {:induction false} NodesArePruned(snap: map<nat, seq<StoreRecord>>, nodes: seq<NodeEntry>, remaining: nat)
    ensures Mapped(ShownNodes(snap, nodes, remaining), OfNode) ==
            PruneAll(Mapped(FullNodes(snap, nodes), OfNode), remaining)
  {
    var ts := Mapped(FullNodes(snap, nodes), OfNode);
    if nodes != [] {
      var k := |nodes| - 1;
      NodesArePruned(snap, nodes[..k], remaining);
      NodeIsPruned(snap, nodes[k], remaining);
      MappedNext(ShownNodes(snap, nodes[..k], remaining), ShownNode(snap, nodes[k], remaining), OfNode);
      assert ts[..k] == Mapped(FullNodes(snap, nodes[..k]), OfNode);
    }
  }

  lemma {:induction false} RackIsPruned(nodes: seq<NodeEntry>, snap: map<nat, seq<StoreRecord>>, rack: nat,
                                        remaining: nat)
    ensures OfRack(ShownRack(nodes, snap, rack, remaining)) == Prune(OfRack(FullRack(nodes, snap, rack)), remaining)
  {
    var full, shown := OfRack(FullRack(nodes, snap, rack)), OfRack(ShownRack(nodes, snap, rack, remaining));
    if remaining >= 1 { NodesArePruned(snap, NodesIn(nodes, rack), remaining - 1); }
    PrunedTo(full, remaining, shown.children);
  }

  /** The chains a depth-bounded walk of `t` reports as cut off, below `above`. */
  ghost function Cut(above: seq<Segment>, t: Tree<Segment>, remaining: nat): seq<seq<Segment>> {
    CutAt(Preorder(above, t), |above| + 1 + remaining)
  }

  ghost function CutBelow(above: seq<Segment>, ts: seq<Tree<Segment>>, remaining: nat): seq<seq<Segment>> {
    CutAt(PreorderAll(above, ts), |above| + 1 + remaining)
  }

  /** At the depth bound: the resource itself is cut off if it has children. */
  lemma BuiltHere(above: seq<Segment>, s: Segment, below: seq<Tree<Segment>>, before: seq<seq<Segment>>)
    ensures before + Cut(above, Tree(s, below), 0) == if below != [] then before + [above + [s]] else before
  {
    OnlyRoot(above, Tree(s, below));
  }

  /** Above it: whatever is cut off is cut off below the children. */
  lemma BuiltBelow(above: seq<Segment>, s: Segment, below: seq<Tree<Segment>>, remaining: nat,
                   before: seq<seq<Segment>>)
    requires remaining >= 1
    ensures before + Cut(above, Tree(s, below), remaining) == before + CutBelow(above + [s], below, remaining - 1)
  {
    BelowRoot(above, Tree(s, below), |above| + 1 + remaining);
  }

  lemma CutNext(above: seq<Segment>, ts: seq<Tree<Segment>>, i: nat, remaining: nat, before: seq<seq<Segment>>)
    requires i < |ts|
    ensures before + CutBelow(above, ts[..i + 1], remaining) ==
            before + CutBelow(above, ts[..i], remaining) + Cut(above, ts[i], remaining)
  {
    NextChild(above, ts, i, |above| + 1 + remaining, [], before);
  }

  // ---- The builder ----------------------------------------------------

  class PhysicalBuilder {
    const nodes: seq<NodeEntry>
    const snap: map<nat, seq<StoreRecord>>
    var truncation: seq<seq<Segment>>
    var path: seq<Segment>

    constructor (nodes: seq<NodeEntry>, snap: map<nat, seq<StoreRecord>>)
      ensures this.nodes == nodes && this.snap == snap && truncation == [] && path == []
    {
      this.nodes, this.snap := nodes, snap;
      truncation, path := [], [];
    }

    method BuildStore(s: StoreRecord, remaining: nat) returns (v: StoreView)
      modifies this
      ensures path == old(path)
      ensures truncation == old(truncation) + Cut(path, OfStore(FullStore(s)), remaining)
      ensures v == ShownStore(s, remaining)
    {
      ghost var below := Mapped(s.groups, OfGroup);
      path := path + [Store(s.storeId)];
      var groups := None;
      if remaining >= 1 {
        BuiltBelow(old(path), Store(s.storeId), below, remaining, truncation);
        LeavesUncut(path, s.groups, |path| + remaining);
        assert truncation == truncation + [];
        groups := Some(s.groups);
      } else {
        BuiltHere(old(path), Store(s.storeId), below, truncation);
        if s.groups != [] { truncation := truncation + [path]; }
      }
      path := path[..|path| - 1];
      v := StoreView(s.storeId, groups);
    }

    method BuildStores(stores: seq<StoreRecord>, remaining: nat) returns (vs: seq<StoreView>)
      modifies this
      ensures path == old(path)
      ensures truncation == old(truncation) + CutBelow(path, Mapped(Mapped(stores, FullStore), OfStore), remaining)
      ensures vs == ShownStores(stores, remaining)
    {
      ghost var ts, above, before := Mapped(Mapped(stores, FullStore), OfStore), path, truncation;
      vs := [];
      for i := 0 to |stores|
        invariant path == above && |vs| == i
        invariant truncation == before + CutBelow(above, ts[..i], remaining)
        invariant vs == ShownStores(stores[..i], remaining)
      {
        CutNext(above, ts, i, remaining, before);
        assert stores[..i + 1][..i] == stores[..i];
        var v := BuildStore(stores[i], remaining);
        vs := vs + [v];
      }
      assert ts[..|stores|] == ts && stores[..|stores|] == stores;
    }

    method BuildNode(node: NodeEntry, remaining: nat) returns (v: NodeView)
      modifies this
      ensures path == old(path)
      ensures truncation == old(truncation) + Cut(path, OfNode(FullNode(snap, node)), remaining)
      ensures v == ShownNode(snap, node, remaining)
    {
      var list := StoresOn(snap, node.id);
      ghost var below := Mapped(Mapped(list, FullStore), OfStore);
      assert OfNode(FullNode(snap, node)) == Tree(Node(node.id), below);
      path := path + [Node(node.id)];
      var stores := None;
      if remaining >= 1 {
        BuiltBelow(old(path), Node(node.id), below, remaining, truncation);
        var vs := BuildStores(list, remaining - 1);
        stores := Some(vs);
      } else {
        BuiltHere(old(path), Node(node.id), below, truncation);
        if list != [] { truncation := truncation + [path]; }
      }
      path := path[..|path| - 1];
      v := NodeView(node.id, node.rackId, stores);
    }

    method BuildNodes(children: seq<NodeEntry>, remaining: nat) returns (vs: seq<NodeView>)
      modifies this
      ensures path == old(path)
      ensures truncation == old(truncation) + CutBelow(path, Mapped(FullNodes(snap, children), OfNode), remaining)
      ensures vs == ShownNodes(snap, children, remaining)
    {
      ghost var ts, above, before := Mapped(FullNodes(snap, children), OfNode), path, truncation;
      vs := [];
      for i := 0 to |children|
        invariant path == above && |vs| == i
        invariant truncation == before + CutBelow(above, ts[..i], remaining)
        invariant vs == ShownNodes(snap, children[..i], remaining)
      {
        CutNext(above, ts, i, remaining, before);
        assert children[..i + 1][..i] == children[..i];
        var v := BuildNode(children[i], remaining);
        vs := vs + [v];
      }
      assert ts[..|children|] == ts && children[..|children|] == children;
    }

    /** The builder reports exactly the chains a walk of the fully inflated rack
        reports at the same depth, in the same order, leaves its path as it was, and
        its view is that rack pruned at the depth. */
    method BuildRack(rack: nat, remaining: nat) returns (v: RackView)
      modifies this
      ensures path == old(path)
      ensures truncation == old(truncation) + Cut(path, OfRack(FullRack(nodes, snap, rack)), remaining)
      ensures v == ShownRack(nodes, snap, rack, remaining)
    {
      var children := NodesIn(nodes, rack);
      ghost var below := Mapped(FullNodes(snap, children), OfNode);
      assert OfRack(FullRack(nodes, snap, rack)) == Tree(Rack(rack), below);
      path := path + [Rack(rack)];
      var inlined := None;
      if remaining >= 1 {
        BuiltBelow(old(path), Rack(rack), below, remaining, truncation);
        var vs := BuildNodes(children, remaining - 1);
        inlined := Some(vs);
      } else {
        BuiltHere(old(path), Rack(rack), below, truncation);
        if children != [] { truncation := truncation + [path]; }
      }
      path := path[..|path| - 1];
      v := RackView(rack, inlined);
    }
  }

  method WalkFull(full: Tree<Segment>, depth: Depth)
    returns (entered: seq<Visit<Segment>>, walked: seq<seq<Segment>>)
    ensures walked == Cut([], full, depth.Effective())
    ensures entered == UpTo(Preorder([], full), 1 + depth.Effective())
    ensures Chains(Preorder([], Prune(full, depth.Effective()))) == Chains(entered)
  {
    entered, walked := Walk(full, depth);
    PrunedShowsAll([], full, depth.Effective(), 1 + depth.Effective());
  }

  /** Builder and walk side by side, from an empty path: the same chains cut off,
      and the built view shows what the walk entered. */
  method BuildAgreesWithWalk(nodes: seq<NodeEntry>, snap: map<nat, seq<StoreRecord>>, rack: nat, depth: Depth)
    returns (v: RackView, built: seq<seq<Segment>>, walked: seq<seq<Segment>>, entered: seq<Visit<Segment>>)
    ensures RackShown(v, nodes, snap, rack, depth.Effective())
    ensures built == walked && Chains(Preorder([], OfRack(v))) == Chains(entered)
    ensures entered == UpTo(Preorder([], OfRack(FullRack(nodes, snap, rack))), 1 + depth.Effective())
    ensures walked == Cut([], OfRack(FullRack(nodes, snap, rack)), depth.Effective())
  {
    var full := OfRack(FullRack(nodes, snap, rack));
    var b := new PhysicalBuilder(nodes, snap);
    v := b.BuildRack(rack, depth.Effective());
    built := b.truncation;
    RackIsShown(nodes, snap, rack, depth.Effective());
    RackIsPruned(nodes, snap, rack, depth.Effective());
    assert built == Cut([], full, depth.Effective());
    entered, walked := WalkFull(full, depth);
  }
}
