/** The console's registry of racks, nodes, servers, stores, groups, disk groups and
disks, changed in place by its mutators. */
module ConsoleConfig {
  import opened KeyedLists
  import opened Options
  import opened ConfigRecords
  import ConfigPersist

  datatype Outcome = Ok | Conflict | Validation | NotFound

  function Same(n: nat): nat { n }

  // ---- List steps the mutators are made of ----------------------------

  lemma WithoutUnique<E, K>(s: seq<E>, i: nat, key: E -> K)
    requires UniqueKeys(s, key) && i < |s|
    ensures UniqueKeys(Without(s, i), key)
  {}

  lemma WithoutEntries<E(!new), K>(s: seq<E>, i: nat, key: E -> K)
    requires UniqueKeys(s, key) && i < |s|
    ensures forall e :: e in Without(s, i) <==> e in s && key(e) != key(s[i])
  {
    forall e | e in s && key(e) != key(s[i]) ensures e in Without(s, i) {
      var j :| 0 <= j < |s| && s[j] == e;
      assert j < i ==> Without(s, i)[j] == e;
      assert j > i ==> Without(s, i)[j - 1] == e;
    }
  }

  /** `e` was the first entry with the key, and `now` is the list without it. */
  ghost predicate TakenOut<E, K>(before: seq<E>, now: seq<E>, key: E -> K, k: K, e: E) {
    exists i :: 0 <= i < |before| && before[i] == e && key(e) == k && now == before[..i] + before[i + 1..] &&
                forall j :: 0 <= j < i ==> key(before[j]) != k
  }

  function Upsert<E>(s: seq<E>, i: nat, e: E): seq<E> {
    if i < |s| then s[i := e] else s + [e]
  }

  /** Replacing the entry with a key, or adding one where there is none. */
  lemma UpsertEntries<E(!new), K>(s: seq<E>, i: nat, e: E, key: E -> K)
    requires UniqueKeys(s, key) && if i < |s| then key(s[i]) == key(e) else !Has(s, key, key(e))
    ensures UniqueKeys(Upsert(s, i, e), key)
    ensures forall x :: x in Upsert(s, i, e) <==> (x in s && key(x) != key(e)) || x == e
  {
    var r := Upsert(s, i, e);
    forall x | x in s && key(x) != key(e) ensures x in r {
      var j :| 0 <= j < |s| && s[j] == x;
      assert r[j] == x;
    }
    assert r[if i < |s| then i else |s|] == e;
    forall x | x in r && x != e ensures x in s && key(x) != key(e) {
      var j :| 0 <= j < |r| && r[j] == x;
      assert s[j] == x;
    }
  }

  lemma AscendingIsUnique<E, K(!new)>(s: seq<E>, key: E -> K, less: (K, K) -> bool)
    requires StrictOrder(less) && Ascending(s, key, less)
    ensures UniqueKeys(s, key)
  {}

  /** Drops repeats that stand next to each other. */
  function Dedup(s: seq<nat>): seq<nat> {
    if |s| < 2 then s
    else
      var r := Dedup(s[..|s| - 1]);
      if s[|s| - 1] == s[|s| - 2] then r else r + [s[|s| - 1]]
  }

  lemma {:induction false} DedupAscends(s: seq<nat>)
    requires Ordered(s, Same, NatLess)
    ensures Ascending(Dedup(s), Same, NatLess) && SameEntries(Dedup(s), s)
    ensures s != [] ==> Dedup(s) != [] && Dedup(s)[|Dedup(s)| - 1] == s[|s| - 1]
  {
    if |s| >= 2 {
      var k := |s| - 1;
      DedupAscends(s[..k]);
      assert s == s[..k] + [s[k]];
      assert !NatLess(Same(s[k]), Same(s[k - 1]));
      if s[k] == s[k - 1] { assert s[..k][k - 1] == s[k]; }
      var r := Dedup(s[..k]);
      assert forall i :: 0 <= i < |r| - 1 ==> NatLess(Same(r[i]), Same(r[|r| - 1]));
    }
  }

  function Nodeset(nodes: seq<nat>): seq<nat> {
    Dedup(SortBy(nodes, Same, NatLess))
  }

  lemma NodesetAscends(nodes: seq<nat>)
    ensures Ascending(Nodeset(nodes), Same, NatLess) && SameEntries(Nodeset(nodes), nodes)
  {
    NatOrder();
    SortOrders(nodes, Same, NatLess);
    SortSameEntries(nodes, Same, NatLess);
    DedupAscends(SortBy(nodes, Same, NatLess));
  }

  // ---- What holds of the registry at all times ------------------------

  ghost predicate NodesPlaced(racks: seq<RackEntry>, nodes: seq<NodeEntry>) {
    forall n :: n in nodes ==> Has(racks, RackId, n.rackId)
  }

  ghost predicate DisksPlaced(diskGroups: seq<DiskGroupEntry>, disks: seq<DiskEntry>) {
    forall d :: d in disks ==> Has(diskGroups, DiskGroupId, d.diskGroupId)
  }

  ghost predicate DiskGroupsPlaced(nodes: seq<NodeEntry>, diskGroups: seq<DiskGroupEntry>) {
    forall g :: g in diskGroups ==> Has(nodes, NodeId, g.nodeId)
  }

  ghost predicate StoresSorted(stores: seq<StoreEntry>) {
    Ascending(stores, StoreId, NatLess) && forall s :: s in stores ==> Ascending(s.nodes, Same, NatLess)
  }

  ghost predicate GroupsSorted(groups: seq<GroupEntry>) {
    Ascending(groups, GroupId, PairLess) && forall g :: g in groups ==> Ordered(g.replicas, ReplicaId, NatLess)
  }

  /** Lists keep every placement when nothing placed there is lost. */
  lemma WithoutPlaced<E, K>(s: seq<E>, i: nat, key: E -> K, k: K)
    requires i < |s| && Has(s, key, k) && key(s[i]) != k
    ensures Has(Without(s, i), key, k)
  {
    var j :| 0 <= j < |s| && key(s[j]) == k;
    assert Without(s, i)[if j < i then j else j - 1] == s[j];
  }

  lemma PushPlaced<E, K>(s: seq<E>, e: E, key: E -> K, k: K)
    requires Has(s, key, k)
    ensures Has(s + [e], key, k)
  {
    var j :| 0 <= j < |s| && key(s[j]) == k;
    assert (s + [e])[j] == s[j];
  }

  /** A sorted store list with one entry put in place. */
  lemma StoresAfter(stores: seq<StoreEntry>, i: nat, e: StoreEntry)
    requires StoresSorted(stores) && Ascending(e.nodes, Same, NatLess)
    requires if i < |stores| then stores[i].storeId == e.storeId else !Has(stores, StoreId, e.storeId)
    ensures StoresSorted(SortBy(Upsert(stores, i, e), StoreId, NatLess))
    ensures forall x :: x in SortBy(Upsert(stores, i, e), StoreId, NatLess) <==>
                        (x in stores && x.storeId != e.storeId) || x == e
  {
    NatOrder();
    AscendingIsUnique(stores, StoreId, NatLess);
    UpsertEntries(stores, i, e, StoreId);
    SortAscends(Upsert(stores, i, e), StoreId, NatLess);
  }

  lemma GroupsAfter(groups: seq<GroupEntry>, i: nat, e: GroupEntry)
    requires GroupsSorted(groups) && Ordered(e.replicas, ReplicaId, NatLess)
    requires if i < |groups| then GroupId(groups[i]) == GroupId(e) else !Has(groups, GroupId, GroupId(e))
    ensures GroupsSorted(SortBy(Upsert(groups, i, e), GroupId, PairLess))
    ensures forall x :: x in SortBy(Upsert(groups, i, e), GroupId, PairLess) <==>
                        (x in groups && GroupId(x) != GroupId(e)) || x == e
  {
    PairOrder();
    AscendingIsUnique(groups, GroupId, PairLess);
    UpsertEntries(groups, i, e, GroupId);
    SortAscends(Upsert(groups, i, e), GroupId, PairLess);
  }

  lemma StoresInPlace(stores: seq<StoreEntry>, i: nat, e: StoreEntry)
    requires StoresSorted(stores) && Ascending(e.nodes, Same, NatLess) && i < |stores| && stores[i].storeId == e.storeId
    ensures StoresSorted(stores[i := e])
    ensures forall x :: x in stores[i := e] <==> (x in stores && x.storeId != e.storeId) || x == e
  {
    NatOrder();
    AscendingIsUnique(stores, StoreId, NatLess);
    UpsertEntries(stores, i, e, StoreId);
  }

  lemma GroupsInPlace(groups: seq<GroupEntry>, i: nat, e: GroupEntry)
    requires GroupsSorted(groups) && Ordered(e.replicas, ReplicaId, NatLess) && i < |groups| &&
      GroupId(groups[i]) == GroupId(e)
    ensures GroupsSorted(groups[i := e])
    ensures forall x :: x in groups[i := e] <==> (x in groups && GroupId(x) != GroupId(e)) || x == e
  {
    PairOrder();
    AscendingIsUnique(groups, GroupId, PairLess);
    UpsertEntries(groups, i, e, GroupId);
  }

  ghost predicate Joined(r: seq<nat>, nodes: seq<nat>, node: nat) {
    forall n :: n in r <==> n in nodes || n == node
  }

  /** The same replicas, leaving aside those with one id. */
  ghost predicate SameOthers(r: seq<ReplicaEntry>, s: seq<ReplicaEntry>, replicaId: nat) {
    forall x: ReplicaEntry :: x.replicaId != replicaId ==> (x in r <==> x in s)
  }

  /** The list with the replica in place of the first one with its id, or added where
      there is none. */
  ghost predicate ReplicaPut(r: seq<ReplicaEntry>, list: seq<ReplicaEntry>, replica: ReplicaEntry) {
    if Has(list, ReplicaId, replica.replicaId) then
      exists j :: 0 <= j < |list| && r == list[j := replica] && list[j].replicaId == replica.replicaId &&
                  forall i :: 0 <= i < j ==> list[i].replicaId != replica.replicaId
    else
      multiset(r) == multiset(list) + multiset{replica}
  }

  /** Whether a server is the key-value server of a node. */
  predicate ServesKv(node: nat, e: ServerEntry) {
    e.nodeId == Some(node) && e.serviceType == Kv
  }

  class ConsoleConfig {
    var racks: seq<RackEntry>
    var nodes: seq<NodeEntry>
    var servers: seq<ServerEntry>
    var stores: seq<StoreEntry>
    var groups: seq<GroupEntry>
    var diskGroups: seq<DiskGroupEntry>
    var disks: seq<DiskEntry>

    ghost predicate Valid()
      reads this
    {
      && UniqueKeys(racks, RackId) && UniqueKeys(nodes, NodeId) && NodesPlaced(racks, nodes)
      && UniqueKeys(servers, ServerId) && UniqueKeys(servers, ServerUrl)
      && UniqueKeys(diskGroups, DiskGroupId) && UniqueKeys(disks, DiskId) && DisksPlaced(diskGroups, disks)
      && StoresSorted(stores) && GroupsSorted(groups)
    }

    constructor ()
      ensures Valid() && racks == [] && nodes == [] && servers == [] && stores == [] && groups == []
      ensures diskGroups == [] && disks == []
    {
      racks, nodes, servers, stores, groups, diskGroups, disks := [], [], [], [], [], [], [];
    }

    function Snapshot(): Config
      reads this
    {
      Config(racks, nodes, servers, stores, groups, diskGroups, disks)
    }

    // ---- Servers -----------------------------------------------------

    method AddServer(entry: ServerEntry) returns (r: Outcome)
      requires Valid()
      modifies this`servers
      ensures Valid()
      ensures r == (if Has(old(servers), ServerId, entry.id) then Conflict
                    else if Has(old(servers), ServerUrl, entry.url) then Validation else Ok)
      ensures servers == if r == Ok then old(servers) + [entry] else old(servers)
    {
      var i := Find(servers, ServerId, entry.id);
      if i < |servers| { return Conflict; }
      i := Find(servers, ServerUrl, entry.url);
      if i < |servers| { return Validation; }
      AppendUnique(servers, entry, ServerId);
      AppendUnique(servers, entry, ServerUrl);
      servers := servers + [entry];
      r := Ok;
    }

    method RemoveServer(id: string) returns (r: Outcome, removed: Option<ServerEntry>)
      requires Valid()
      modifies this`servers
      ensures Valid()
      ensures r == if Has(old(servers), ServerId, id) then Ok else NotFound
      ensures forall e :: e in servers <==> e in old(servers) && e.id != id
      ensures removed.Some? <==> r == Ok
      ensures r == Ok ==> TakenOut(old(servers), servers, ServerId, id, removed.value)
      ensures r != Ok ==> servers == old(servers)
    {
      var i := Find(servers, ServerId, id);
      if i == |servers| {
        forall e | e in servers ensures e.id != id { var j :| 0 <= j < |servers| && servers[j] == e; }
        return NotFound, None;
      }
      WithoutUnique(servers, i, ServerId);
      WithoutUnique(servers, i, ServerUrl);
      WithoutEntries(servers, i, ServerId);
      r, removed := Ok, Some(servers[i]);
      servers := Without(servers, i);
    }

    method RemoveServerForNode(node: nat) returns (r: Outcome, removed: Option<ServerEntry>)
      requires Valid()
      modifies this`servers
      ensures Valid()
      ensures r == Ok <==> removed.Some?
      ensures removed.Some? ==> exists i ::
        && 0 <= i < |old(servers)| && old(servers)[i] == removed.value && ServesKv(node, removed.value)
        && (forall j :: 0 <= j < i ==> !ServesKv(node, old(servers)[j]))
        && servers == old(servers)[..i] + old(servers)[i + 1..]
      ensures removed.Some? ==> forall e :: e in servers <==> e in old(servers) && e.id != removed.value.id
      ensures removed == None ==>
        r == NotFound && servers == old(servers) && forall e :: e in servers ==> !ServesKv(node, e)
    {
      var i := Find(servers, (e: ServerEntry) => ServesKv(node, e), true);
      if i == |servers| {
        forall e | e in servers ensures !ServesKv(node, e) { var j :| 0 <= j < |servers| && servers[j] == e; }
        return NotFound, None;
      }
      WithoutUnique(servers, i, ServerId);
      WithoutUnique(servers, i, ServerUrl);
      WithoutEntries(servers, i, ServerId);
      removed := Some(servers[i]);
      servers := Without(servers, i);
      r := Ok;
    }

    // ---- Racks and nodes ---------------------------------------------

    method AddRack(entry: RackEntry) returns (r: Outcome)
      requires Valid()
      modifies this`racks
      ensures Valid()
      ensures r == if Has(old(racks), RackId, entry.id) then Conflict else Ok
      ensures racks == if r == Ok then old(racks) + [entry] else old(racks)
    {
      var i := Find(racks, RackId, entry.id);
      if i < |racks| { return Conflict; }
      AppendUnique(racks, entry, RackId);
      forall n | n in nodes ensures Has(racks + [entry], RackId, n.rackId) {
        PushPlaced(racks, entry, RackId, n.rackId);
      }
      racks := racks + [entry];
      r := Ok;
    }

    method RemoveRack(id: nat) returns (r: Outcome, removed: Option<RackEntry>)
      requires Valid()
      modifies this`racks
      ensures Valid()
      ensures r == (if exists n :: n in nodes && n.rackId == id then Conflict
                    else if Has(old(racks), RackId, id) then Ok else NotFound)
      ensures r == Ok ==> forall e :: e in racks <==> e in old(racks) && e.id != id
      ensures r != Ok ==> racks == old(racks)
      ensures removed.Some? <==> r == Ok
      ensures r == Ok ==> TakenOut(old(racks), racks, RackId, id, removed.value)
    {
      var u := Find(nodes, (n: NodeEntry) => n.rackId, id);
      if u < |nodes| {
        assert nodes[u] in nodes;
        return Conflict, None;
      }
      forall n | n in nodes ensures n.rackId != id { var j :| 0 <= j < |nodes| && nodes[j] == n; }
      var i := Find(racks, RackId, id);
      if i == |racks| { return NotFound, None; }
      WithoutUnique(racks, i, RackId);
      WithoutEntries(racks, i, RackId);
      forall n | n in nodes ensures Has(Without(racks, i), RackId, n.rackId) {
        WithoutPlaced(racks, i, RackId, n.rackId);
      }
      r, removed := Ok, Some(racks[i]);
      racks := Without(racks, i);
    }

    method AddNode(entry: NodeEntry) returns (r: Outcome)
      requires Valid()
      modifies this`nodes
      ensures Valid()
      ensures r == (if Has(old(nodes), NodeId, entry.id) then Conflict
                    else if !Has(racks, RackId, entry.rackId) then Validation else Ok)
      ensures nodes == if r == Ok then old(nodes) + [entry] else old(nodes)
    {
      var i := Find(nodes, NodeId, entry.id);
      if i < |nodes| { return Conflict; }
      i := Find(racks, RackId, entry.rackId);
      if i == |racks| { return Validation; }
      AppendUnique(nodes, entry, NodeId);
      nodes := nodes + [entry];
      r := Ok;
    }

    /** Refused while a server is deployed on the node. Disk groups are not looked at:
        every one of them still has its node afterwards exactly when each of them
        had one before and none was on the node removed. */
    method RemoveNode(id: nat) returns (r: Outcome, removed: Option<NodeEntry>)
      requires Valid()
      modifies this`nodes
      ensures Valid()
      ensures r == (if exists s :: s in servers && s.nodeId == Some(id) then Conflict
                    else if Has(old(nodes), NodeId, id) then Ok else NotFound)
      ensures r == Ok ==> forall e :: e in nodes <==> e in old(nodes) && e.id != id
      ensures r != Ok ==> nodes == old(nodes)
      ensures r == Ok ==>
        (DiskGroupsPlaced(nodes, diskGroups) <==>
         DiskGroupsPlaced(old(nodes), diskGroups) && forall g :: g in diskGroups ==> g.nodeId != id)
      ensures removed.Some? <==> r == Ok
      ensures r == Ok ==> TakenOut(old(nodes), nodes, NodeId, id, removed.value)
    {
      var u := Find(servers, (s: ServerEntry) => s.nodeId, Some(id));
      if u < |servers| {
        assert servers[u] in servers;
        return Conflict, None;
      }
      forall s | s in servers ensures s.nodeId != Some(id) { var j :| 0 <= j < |servers| && servers[j] == s; }
      var i := Find(nodes, NodeId, id);
      if i == |nodes| { return NotFound, None; }
      WithoutUnique(nodes, i, NodeId);
      WithoutEntries(nodes, i, NodeId);
      WithoutStillPlaced(nodes, i, diskGroups);
      r, removed := Ok, Some(nodes[i]);
      nodes := Without(nodes, i);
    }

    // ---- Disk groups and disks ---------------------------------------

    method AddDiskGroup(entry: DiskGroupEntry) returns (r: Outcome)
      requires Valid()
      modifies this`diskGroups
      ensures Valid()
      ensures r == (if Has(old(diskGroups), DiskGroupId, entry.id) then Conflict
                    else if !Has(nodes, NodeId, entry.nodeId) then Validation else Ok)
      ensures diskGroups == if r == Ok then old(diskGroups) + [entry] else old(diskGroups)
      ensures DiskGroupsPlaced(nodes, old(diskGroups)) ==> DiskGroupsPlaced(nodes, diskGroups)
    {
      var i := Find(diskGroups, DiskGroupId, entry.id);
      if i < |diskGroups| { return Conflict; }
      i := Find(nodes, NodeId, entry.nodeId);
      if i == |nodes| { return Validation; }
      AppendUnique(diskGroups, entry, DiskGroupId);
      forall d | d in disks ensures Has(diskGroups + [entry], DiskGroupId, d.diskGroupId) {
        PushPlaced(diskGroups, entry, DiskGroupId, d.diskGroupId);
      }
      diskGroups := diskGroups + [entry];
      r := Ok;
    }

    method RemoveDiskGroup(id: nat) returns (r: Outcome, removed: Option<DiskGroupEntry>)
      requires Valid()
      modifies this`diskGroups
      ensures Valid()
      ensures r == (if exists d :: d in disks && d.diskGroupId == id then Conflict
                    else if Has(old(diskGroups), DiskGroupId, id) then Ok else NotFound)
      ensures r == Ok ==> forall e :: e in diskGroups <==> e in old(diskGroups) && e.id != id
      ensures r != Ok ==> diskGroups == old(diskGroups)
      ensures removed.Some? <==> r == Ok
      ensures r == Ok ==> TakenOut(old(diskGroups), diskGroups, DiskGroupId, id, removed.value)
    {
      var u := Find(disks, (d: DiskEntry) => d.diskGroupId, id);
      if u < |disks| {
        assert disks[u] in disks;
        return Conflict, None;
      }
      forall d | d in disks ensures d.diskGroupId != id { var j :| 0 <= j < |disks| && disks[j] == d; }
      var i := Find(diskGroups, DiskGroupId, id);
      if i == |diskGroups| { return NotFound, None; }
      WithoutUnique(diskGroups, i, DiskGroupId);
      WithoutEntries(diskGroups, i, DiskGroupId);
      forall d | d in disks ensures Has(Without(diskGroups, i), DiskGroupId, d.diskGroupId) {
        WithoutPlaced(diskGroups, i, DiskGroupId, d.diskGroupId);
      }
      r, removed := Ok, Some(diskGroups[i]);
      diskGroups := Without(diskGroups, i);
    }

    method AddDisk(entry: DiskEntry) returns (r: Outcome)
      requires Valid()
      modifies this`disks
      ensures Valid()
      ensures r == (if Has(old(disks), DiskId, entry.diskId) then Conflict
                    else if !Has(diskGroups, DiskGroupId, entry.diskGroupId) then Validation else Ok)
      ensures disks == if r == Ok then old(disks) + [entry] else old(disks)
    {
      var i := Find(disks, DiskId, entry.diskId);
      if i < |disks| { return Conflict; }
      i := Find(diskGroups, DiskGroupId, entry.diskGroupId);
      if i == |diskGroups| { return Validation; }
      AppendUnique(disks, entry, DiskId);
      disks := disks + [entry];
      r := Ok;
    }

    method RemoveDisk(id: string) returns (r: Outcome, removed: Option<DiskEntry>)
      requires Valid()
      modifies this`disks
      ensures Valid()
      ensures r == if Has(old(disks), DiskId, id) then Ok else NotFound
      ensures forall e :: e in disks <==> e in old(disks) && e.diskId != id
      ensures removed.Some? <==> r == Ok
      ensures r == Ok ==> TakenOut(old(disks), disks, DiskId, id, removed.value)
      ensures r != Ok ==> disks == old(disks)
    {
      var i := Find(disks, DiskId, id);
      if i == |disks| {
        forall e | e in disks ensures e.diskId != id { var j :| 0 <= j < |disks| && disks[j] == e; }
        return NotFound, None;
      }
      WithoutUnique(disks, i, DiskId);
      WithoutEntries(disks, i, DiskId);
      r, removed := Ok, Some(disks[i]);
      disks := Without(disks, i);
    }

    // ---- Stores ------------------------------------------------------

    /** Afterwards the store has exactly the nodes given, each once and in order. */
    method RecordStore(storeId: nat, list: seq<nat>)
      requires Valid()
      modifies this`stores
      ensures Valid()
      ensures SameEntries(Nodeset(list), list)
      ensures forall x :: x in stores <==>
        (x in old(stores) && x.storeId != storeId) || x == StoreEntry(storeId, Nodeset(list))
    {
      NodesetAscends(list);
      var entry := StoreEntry(storeId, Nodeset(list));
      var i := Find(stores, StoreId, storeId);
      StoresAfter(stores, i, entry);
      stores := SortBy(Upsert(stores, i, entry), StoreId, NatLess);
    }

    /** Adds the node to the store, and the store when it is new. */
    method EnsureStoreNode(storeId: nat, node: nat) returns (ghost entry: StoreEntry)
      requires Valid()
      modifies this`stores
      ensures Valid()
      ensures forall x :: x in stores <==> (x in old(stores) && x.storeId != storeId) || x == entry
      ensures entry.storeId == storeId
      ensures Has(old(stores), StoreId, storeId) ==>
        exists o :: o in old(stores) && o.storeId == storeId && Joined(entry.nodes, o.nodes, node)
      ensures !Has(old(stores), StoreId, storeId) ==> entry.nodes == [node]
    {
      var i := Find(stores, StoreId, storeId);
      if i < |stores| {
        var s := stores[i];
        assert s in stores;
        var list := NodesWith(s.nodes, node);
        entry := StoreEntry(storeId, list);
        StoresInPlace(stores, i, entry);
        stores := stores[i := StoreEntry(storeId, list)];
        assert s in old(stores) && s.storeId == storeId && Joined(list, s.nodes, node);
      } else {
        entry := StoreEntry(storeId, [node]);
        StoresAfter(stores, i, entry);
        stores := SortBy(stores + [StoreEntry(storeId, [node])], StoreId, NatLess);
      }
    }

    static method NodesWith(nodes: seq<nat>, node: nat) returns (r: seq<nat>)
      requires Ascending(nodes, Same, NatLess)
      ensures Ascending(r, Same, NatLess) && Joined(r, nodes, node)
    {
      if node in nodes { return nodes; }
      NatOrder();
      AscendingIsUnique(nodes, Same, NatLess);
      SortAscends(nodes + [node], Same, NatLess);
      r := SortBy(nodes + [node], Same, NatLess);
    }

    method RemoveStoreRecord(storeId: nat)
      requires Valid()
      modifies this`stores, this`groups
      ensures Valid()
      ensures forall x :: x in stores <==> x in old(stores) && x.storeId != storeId
      ensures forall x :: x in groups <==> x in old(groups) && x.storeId != storeId
    {
      var keepStore, keepGroup := (s: StoreEntry) => s.storeId != storeId, (g: GroupEntry) => g.storeId != storeId;
      RetainStores(stores, keepStore);
      RetainGroups(groups, keepGroup);
      stores := Retain(stores, keepStore);
      groups := Retain(groups, keepGroup);
    }

    // ---- Groups ------------------------------------------------------

    method RecordGroup(storeId: nat, groupId: nat, list: seq<ReplicaEntry>)
      requires Valid()
      modifies this`groups
      ensures Valid()
      ensures forall x :: x in groups <==>
        || (x in old(groups) && GroupId(x) != (storeId, groupId))
        || x == GroupEntry(storeId, groupId, SortBy(list, ReplicaId, NatLess))
    {
      NatOrder();
      SortOrders(list, ReplicaId, NatLess);
      var entry := GroupEntry(storeId, groupId, SortBy(list, ReplicaId, NatLess));
      var i := Find(groups, GroupId, (storeId, groupId));
      GroupsAfter(groups, i, entry);
      groups := SortBy(Upsert(groups, i, entry), GroupId, PairLess);
    }

    method RemoveGroupRecord(storeId: nat, groupId: nat)
      requires Valid()
      modifies this`groups
      ensures Valid()
      ensures forall x :: x in groups <==> x in old(groups) && GroupId(x) != (storeId, groupId)
    {
      var keep := (g: GroupEntry) => !(g.storeId == storeId && g.groupId == groupId);
      RetainGroups(groups, keep);
      groups := Retain(groups, keep);
    }

    /** Adds the replica to its group, in place of one with the same id, and the group
        when it is new. */
    method AddGroupReplica(storeId: nat, groupId: nat, replica: ReplicaEntry) returns (ghost entry: GroupEntry)
      requires Valid()
      modifies this`groups
      ensures Valid()
      ensures forall x :: x in groups <==> (x in old(groups) && GroupId(x) != (storeId, groupId)) || x == entry
      ensures GroupId(entry) == (storeId, groupId) && replica in entry.replicas
      ensures Has(old(groups), GroupId, (storeId, groupId)) ==>
        exists o :: o in old(groups) && GroupId(o) == (storeId, groupId) &&
                  SameOthers(entry.replicas, o.replicas, replica.replicaId) &&
                  ReplicaPut(entry.replicas, o.replicas, replica)
      ensures !Has(old(groups), GroupId, (storeId, groupId)) ==> entry.replicas == [replica]
    {
      var i := Find(groups, GroupId, (storeId, groupId));
      if i < |groups| {
        var g := groups[i];
        assert g in groups;
        var list := PutReplica(g.replicas, replica);
        entry := GroupEntry(storeId, groupId, list);
        GroupsInPlace(groups, i, entry);
        groups := groups[i := GroupEntry(storeId, groupId, list)];
        assert g in old(groups) && GroupId(g) == (storeId, groupId) && ReplicaPut(list, g.replicas, replica);
      } else {
        entry := GroupEntry(storeId, groupId, [replica]);
        GroupsAfter(groups, i, entry);
        groups := SortBy(groups + [GroupEntry(storeId, groupId, [replica])], GroupId, PairLess);
      }
    }

    static method PutReplica(list: seq<ReplicaEntry>, replica: ReplicaEntry) returns (r: seq<ReplicaEntry>)
      requires Ordered(list, ReplicaId, NatLess)
      ensures Ordered(r, ReplicaId, NatLess) && replica in r && SameOthers(r, list, replica.replicaId)
      ensures ReplicaPut(r, list, replica)
    {
      var j := Find(list, ReplicaId, replica.replicaId);
      if j < |list| {
        r := list[j := replica];
        assert r[j] == replica;
        forall x | x in list && x.replicaId != replica.replicaId ensures x in r {
          var k :| 0 <= k < |list| && list[k] == x;
          assert r[k] == x;
        }
      } else {
        r := SortBy(list + [replica], ReplicaId, NatLess);
        NatOrder();
        SortOrders(list + [replica], ReplicaId, NatLess);
        SortSameEntries(list + [replica], ReplicaId, NatLess);
      }
    }

    /** Drops the replica, and the group when that leaves none. */
    method RemoveGroupReplica(storeId: nat, groupId: nat, replicaId: nat)
      requires Valid()
      modifies this`groups
      ensures Valid()
      ensures forall x :: x in groups <==>
        || (x in old(groups) && GroupId(x) != (storeId, groupId))
        || (x.replicas != [] && GroupId(x) == (storeId, groupId) &&
            exists o :: o in old(groups) && GroupLosesReplica(x, o, replicaId))
    {
      var i := Find(groups, GroupId, (storeId, groupId));
      if i < |groups| {
        assert groups[i] in groups;
        RetainKeepsOrdered(groups[i].replicas, (r: ReplicaEntry) => r.replicaId != replicaId, ReplicaId, NatLess);
        var entry := GroupLosing(groups[i], replicaId);
        GroupsInPlace(groups, i, entry);
        groups := groups[i := entry];
      } else {
        forall x | x in groups ensures GroupId(x) != (storeId, groupId) {
          var j :| 0 <= j < |groups| && groups[j] == x;
        }
      }
      var keep := (g: GroupEntry) => !(g.storeId == storeId && g.groupId == groupId && g.replicas == []);
      RetainGroups(groups, keep);
      groups := Retain(groups, keep);
      if i < |old(groups)| {
        OnlyOne(old(groups), i);
      }
      forall x, o ensures GroupLosesReplica(x, o, replicaId) <==> x == GroupLosing(o, replicaId) {
        ReplicaLosesIff(x, o, replicaId);
      }
    }

    // ---- Purging a node ----------------------------------------------

    /** Takes the node out of every store and group, and drops those left empty. */
    method PurgeNodeTopology(node: nat)
      requires Valid()
      modifies this`stores, this`groups
      ensures Valid()
      ensures forall s :: s in stores ==> node !in s.nodes && s.nodes != []
      ensures forall g :: g in groups ==> g.replicas != []
      ensures forall g, r :: g in groups && r in g.replicas ==> r.nodeId != node
      ensures StoresPurged(old(stores), stores, node) && GroupsPurged(old(groups), groups, node)
    {
      PurgeStores(node);
      PurgeGroups(node);
    }

    method PurgeStores(node: nat)
      requires StoresSorted(stores)
      modifies this`stores
      ensures StoresSorted(stores) && StoresPurged(old(stores), stores, node)
      ensures forall s :: s in stores ==> node !in s.nodes && s.nodes != []
    {
      StripStores(node);
      var nonEmpty := (s: StoreEntry) => s.nodes != [];
      RetainStores(stores, nonEmpty);
      stores := Retain(stores, nonEmpty);
      StoresLeft(old(stores), stores, node);
    }

    method StripStores(node: nat)
      requires StoresSorted(stores)
      modifies this`stores
      ensures StoresSorted(stores)
      ensures forall s :: s in stores ==> node !in s.nodes
      ensures forall s :: s in stores <==> exists o :: o in old(stores) && s == StoreWithout(o, node)
    {
      for i := 0 to |stores|
        invariant |stores| == |old(stores)|
        invariant forall j :: 0 <= j < i ==> stores[j] == StoreWithout(old(stores)[j], node)
        invariant forall j :: i <= j < |stores| ==> stores[j] == old(stores)[j]
      {
        stores := stores[i := StoreWithout(stores[i], node)];
      }
      PurgedStores(old(stores), stores, node);
    }

    method PurgeGroups(node: nat)
      requires GroupsSorted(groups)
      modifies this`groups
      ensures GroupsSorted(groups) && GroupsPurged(old(groups), groups, node)
      ensures forall g :: g in groups ==> g.replicas != []
      ensures forall g, r :: g in groups && r in g.replicas ==> r.nodeId != node
    {
      StripGroups(node);
      var peopled := (g: GroupEntry) => g.replicas != [];
      RetainGroups(groups, peopled);
      groups := Retain(groups, peopled);
      GroupsLeft(old(groups), groups, node);
    }

    method StripGroups(node: nat)
      requires GroupsSorted(groups)
      modifies this`groups
      ensures GroupsSorted(groups)
      ensures forall g, r :: g in groups && r in g.replicas ==> r.nodeId != node
      ensures forall g :: g in groups <==> exists o :: o in old(groups) && g == GroupWithout(o, node)
    {
      for i := 0 to |groups|
        invariant |groups| == |old(groups)|
        invariant forall j :: 0 <= j < i ==> groups[j] == GroupWithout(old(groups)[j], node)
        invariant forall j :: i <= j < |groups| ==> groups[j] == old(groups)[j]
      {
        groups := groups[i := GroupWithout(groups[i], node)];
      }
      PurgedGroups(old(groups), groups, node);
    }
  }

  // ---- Whole runs -----------------------------------------------------

  datatype Edit =
    | AddServer(server: ServerEntry) | RemoveServer(serverId: string) | RemoveServerForNode(node: nat)
    | AddRack(rack: RackEntry) | RemoveRack(rackId: nat) | AddNode(entry: NodeEntry) | RemoveNode(nodeId: nat)
    | AddDiskGroup(diskGroup: DiskGroupEntry) | RemoveDiskGroup(diskGroupId: nat)
    | AddDisk(disk: DiskEntry) | RemoveDisk(diskId: string)
    | RecordStore(storeId: nat, nodes: seq<nat>) | EnsureStoreNode(storeId: nat, node: nat)
    | RemoveStoreRecord(storeId: nat)
    | RecordGroup(storeId: nat, groupId: nat, replicas: seq<ReplicaEntry>)
    | RemoveGroupRecord(storeId: nat, groupId: nat)
    | AddGroupReplica(storeId: nat, groupId: nat, replica: ReplicaEntry)
    | RemoveGroupReplica(storeId: nat, groupId: nat, replicaId: nat)
    | PurgeNodeTopology(node: nat)
  {
    predicate OfHosts() {
      AddServer? || RemoveServer? || RemoveServerForNode? || AddRack? || RemoveRack? || AddNode? || RemoveNode?
    }

    predicate OfDisks() {
      AddDiskGroup? || RemoveDiskGroup? || AddDisk? || RemoveDisk?
    }
  }

  /** The first server of the node's KV service is gone, if there was one. */
  ghost predicate FirstServerOut(before: seq<ServerEntry>, now: seq<ServerEntry>, node: nat) {
    if forall x :: x in before ==> !ServesKv(node, x) then now == before
    else exists i ::
      && 0 <= i < |before| && ServesKv(node, before[i]) && (forall j :: 0 <= j < i ==> !ServesKv(node, before[j]))
      && now == before[..i] + before[i + 1..]
  }

  /** The store has the node too, and is there. */
  ghost predicate NodeEnsured(before: seq<StoreEntry>, now: seq<StoreEntry>, storeId: nat, node: nat) {
    exists entry: StoreEntry ::
      && (forall x :: x in now <==> (x in before && x.storeId != storeId) || x == entry)
      && entry.storeId == storeId
      && if Has(before, StoreId, storeId)
         then exists o :: o in before && o.storeId == storeId && Joined(entry.nodes, o.nodes, node)
         else entry.nodes == [node]
  }

  /** The group has the replica, and is there. */
  ghost predicate ReplicaAdded(before: seq<GroupEntry>, now: seq<GroupEntry>, storeId: nat, groupId: nat,
                               replica: ReplicaEntry)
  {
    exists entry ::
      && (forall x :: x in now <==> (x in before && GroupId(x) != (storeId, groupId)) || x == entry)
      && GroupId(entry) == (storeId, groupId) && replica in entry.replicas
      && if Has(before, GroupId, (storeId, groupId))
         then exists o :: o in before && GroupId(o) == (storeId, groupId) &&
                          ReplicaPut(entry.replicas, o.replicas, replica)
         else entry.replicas == [replica]
  }

  /** What an edit of racks, nodes, servers, disk groups or disks does. */
  ghost predicate PlantEdited(e: Edit, b: Config, a: Config) {
    match e
    case AddServer(s) =>
      var refused := Has(b.servers, ServerId, s.id) || Has(b.servers, ServerUrl, s.url);
      a == b.(servers := if refused then b.servers else b.servers + [s])
    case RemoveServer(id) =>
      a == b.(servers := a.servers) && forall x :: x in a.servers <==> x in b.servers && x.id != id
    case RemoveServerForNode(node) => a == b.(servers := a.servers) && FirstServerOut(b.servers, a.servers, node)
    case AddRack(r) => a == b.(racks := if Has(b.racks, RackId, r.id) then b.racks else b.racks + [r])
    case RemoveRack(id) =>
      && a == b.(racks := a.racks)
      && if exists n :: n in b.nodes && n.rackId == id then a.racks == b.racks
         else forall x :: x in a.racks <==> x in b.racks && x.id != id
    case AddNode(n) =>
      var refused := Has(b.nodes, NodeId, n.id) || !Has(b.racks, RackId, n.rackId);
      a == b.(nodes := if refused then b.nodes else b.nodes + [n])
    case RemoveNode(id) =>
      && a == b.(nodes := a.nodes)
      && if exists s :: s in b.servers && s.nodeId == Some(id) then a.nodes == b.nodes
         else forall x :: x in a.nodes <==> x in b.nodes && x.id != id
    case AddDiskGroup(g) =>
      var refused := Has(b.diskGroups, DiskGroupId, g.id) || !Has(b.nodes, NodeId, g.nodeId);
      a == b.(diskGroups := if refused then b.diskGroups else b.diskGroups + [g])
    case RemoveDiskGroup(id) =>
      && a == b.(diskGroups := a.diskGroups)
      && if exists d :: d in b.disks && d.diskGroupId == id then a.diskGroups == b.diskGroups
         else forall x :: x in a.diskGroups <==> x in b.diskGroups && x.id != id
    case AddDisk(d) =>
      var refused := Has(b.disks, DiskId, d.diskId) || !Has(b.diskGroups, DiskGroupId, d.diskGroupId);
      a == b.(disks := if refused then b.disks else b.disks + [d])
    case RemoveDisk(id) =>
      a == b.(disks := a.disks) && forall x :: x in a.disks <==> x in b.disks && x.diskId != id
    case _ => false
  }

  /** What an edit of stores or groups does. */
  ghost predicate TopologyEdited(e: Edit, b: Config, a: Config) {
    match e
    case RecordStore(id, nodes) =>
      && a == b.(stores := a.stores)
      && forall x :: x in a.stores <==> (x in b.stores && x.storeId != id) || x == StoreEntry(id, Nodeset(nodes))
    case EnsureStoreNode(id, node) => a == b.(stores := a.stores) && NodeEnsured(b.stores, a.stores, id, node)
    case RemoveStoreRecord(id) =>
      && a == b.(stores := a.stores, groups := a.groups)
      && (forall x :: x in a.stores <==> x in b.stores && x.storeId != id)
      && (forall x :: x in a.groups <==> x in b.groups && x.storeId != id)
    case RecordGroup(store, id, replicas) =>
      && a == b.(groups := a.groups)
      && forall x :: x in a.groups <==>
           || (x in b.groups && GroupId(x) != (store, id))
           || x == GroupEntry(store, id, SortBy(replicas, ReplicaId, NatLess))
    case RemoveGroupRecord(store, id) =>
      a == b.(groups := a.groups) && forall x :: x in a.groups <==> x in b.groups && GroupId(x) != (store, id)
    case AddGroupReplica(store, id, replica) =>
      a == b.(groups := a.groups) && ReplicaAdded(b.groups, a.groups, store, id, replica)
    case RemoveGroupReplica(store, id, replica) =>
      && a == b.(groups := a.groups)
      && forall x :: x in a.groups <==>
           || (x in b.groups && GroupId(x) != (store, id))
           || (x.replicas != [] && GroupId(x) == (store, id) &&
               exists o :: o in b.groups && GroupLosesReplica(x, o, replica))
    case PurgeNodeTopology(node) =>
      && a == b.(stores := a.stores, groups := a.groups)
      && StoresPurged(b.stores, a.stores, node) && GroupsPurged(b.groups, a.groups, node)
    case _ => false
  }

  ghost predicate Edited(e: Edit, b: Config, a: Config) {
    PlantEdited(e, b, a) || TopologyEdited(e, b, a)
  }

  method ApplyToHosts(c: ConsoleConfig, e: Edit)
    requires c.Valid() && e.OfHosts()
    modifies c
    ensures c.Valid() && PlantEdited(e, old(c.Snapshot()), c.Snapshot())
  {
    match e {
      case AddServer(entry) => var _ := c.AddServer(entry);
      case RemoveServer(id) => var _, _ := c.RemoveServer(id);
      case RemoveServerForNode(node) => var _, _ := c.RemoveServerForNode(node);
      case AddRack(entry) => var _ := c.AddRack(entry);
      case RemoveRack(id) => var _, _ := c.RemoveRack(id);
      case AddNode(entry) => var _ := c.AddNode(entry);
      case RemoveNode(id) => var _, _ := c.RemoveNode(id);
    }
  }

  method ApplyToDisks(c: ConsoleConfig, e: Edit)
    requires c.Valid() && e.OfDisks()
    modifies c
    ensures c.Valid() && PlantEdited(e, old(c.Snapshot()), c.Snapshot())
  {
    match e {
      case AddDiskGroup(entry) => var _ := c.AddDiskGroup(entry);
      case RemoveDiskGroup(id) => var _, _ := c.RemoveDiskGroup(id);
      case AddDisk(entry) => var _ := c.AddDisk(entry);
      case RemoveDisk(id) => var _, _ := c.RemoveDisk(id);
    }
  }

  method ApplyToTopology(c: ConsoleConfig, e: Edit)
    requires c.Valid() && !e.OfHosts() && !e.OfDisks()
    modifies c
    ensures c.Valid() && TopologyEdited(e, old(c.Snapshot()), c.Snapshot())
  {
    match e {
      case RecordStore(id, nodes) => c.RecordStore(id, nodes);
      case EnsureStoreNode(id, node) => var _ := c.EnsureStoreNode(id, node);
      case RemoveStoreRecord(id) => c.RemoveStoreRecord(id);
      case RecordGroup(store, id, replicas) => c.RecordGroup(store, id, replicas);
      case RemoveGroupRecord(store, id) => c.RemoveGroupRecord(store, id);
      case AddGroupReplica(store, id, replica) => var _ := c.AddGroupReplica(store, id, replica);
      case RemoveGroupReplica(store, id, replica) => c.RemoveGroupReplica(store, id, replica);
      case PurgeNodeTopology(node) => c.PurgeNodeTopology(node);
    }
  }

  method Apply(c: ConsoleConfig, e: Edit)
    requires c.Valid()
    modifies c
    ensures c.Valid() && Edited(e, old(c.Snapshot()), c.Snapshot())
  {
    if e.OfHosts() {
      ApplyToHosts(c, e);
    } else if e.OfDisks() {
      ApplyToDisks(c, e);
    } else {
      ApplyToTopology(c, e);
    }
  }

  /** Every edit of a run did what it does to the configuration before it. */
  ghost predicate AllEdited(edits: seq<Edit>, configs: seq<Config>) {
    |configs| == |edits| + 1 && forall i :: 0 <= i < |edits| ==> Edited(edits[i], configs[i], configs[i + 1])
  }

  lemma OneMoreEdit(edits: seq<Edit>, n: nat, configs: seq<Config>, c: Config)
    requires n < |edits| && AllEdited(edits[..n], configs) && Edited(edits[n], configs[n], c)
    ensures AllEdited(edits[..n + 1], configs + [c])
  {
    var now := configs + [c];
    assert forall i :: 0 <= i <= n ==> now[i] == configs[i];
    assert forall i :: 0 <= i < n ==> edits[..n + 1][i] == edits[..n][i];
  }

  /** Every run of edits from an empty registry makes them one by one and keeps the
      registry valid, and what it leaves behind survives a save and a load with its lists
      sorted. */
  method EditAndReload(edits: seq<Edit>) returns (c: ConsoleConfig, loaded: Option<Config>, ghost configs: seq<Config>)
    ensures c.Valid()
    ensures AllEdited(edits, configs) && configs[0] == Config([], [], [], [], [], [], [])
    ensures configs[|edits|] == c.Snapshot()
    ensures ConfigPersist.Wide(c.Snapshot()) ==> loaded.Some? && SortedCopy(loaded.value, c.Snapshot())
  {
    c := new ConsoleConfig();
    configs := [c.Snapshot()];
    for i := 0 to |edits|
      invariant c.Valid()
      invariant AllEdited(edits[..i], configs) && configs[0] == Config([], [], [], [], [], [], [])
      invariant configs[i] == c.Snapshot()
    {
      Apply(c, edits[i]);
      OneMoreEdit(edits, i, configs, c.Snapshot());
      configs := configs + [c.Snapshot()];
    }
    assert edits[..|edits|] == edits;
    loaded := None;
    ValidIsUnique(c);
    if ConfigPersist.Wide(c.Snapshot()) { loaded := ConfigPersist.SaveAndLoad(c.Snapshot()); }
  }

  lemma ValidIsUnique(c: ConsoleConfig)
    requires c.Valid()
    ensures UniqueIds(c.Snapshot())
  {
    NatOrder();
    PairOrder();
    AscendingIsUnique(c.stores, StoreId, NatLess);
    AscendingIsUnique(c.groups, GroupId, PairLess);
  }

  lemma OnlyOne(groups: seq<GroupEntry>, i: nat)
    requires GroupsSorted(groups) && i < |groups|
    ensures forall o :: o in groups && GroupId(o) == GroupId(groups[i]) ==> o == groups[i]
  {
    PairOrder();
    AscendingIsUnique(groups, GroupId, PairLess);
  }

  lemma WithoutStillPlaced(nodes: seq<NodeEntry>, i: nat, diskGroups: seq<DiskGroupEntry>)
    requires UniqueKeys(nodes, NodeId) && i < |nodes|
    ensures DiskGroupsPlaced(Without(nodes, i), diskGroups) <==>
            DiskGroupsPlaced(nodes, diskGroups) && forall g :: g in diskGroups ==> g.nodeId != nodes[i].id
  {
    var rest := Without(nodes, i);
    forall g | g in diskGroups
      ensures Has(rest, NodeId, g.nodeId) <==> Has(nodes, NodeId, g.nodeId) && g.nodeId != nodes[i].id
    {
      if Has(rest, NodeId, g.nodeId) {
        var j :| 0 <= j < |rest| && NodeId(rest[j]) == g.nodeId;
        assert nodes[if j < i then j else j + 1] == rest[j];
      } else if Has(nodes, NodeId, g.nodeId) && g.nodeId != nodes[i].id {
        WithoutPlaced(nodes, i, NodeId, g.nodeId);
      }
    }
  }

  lemma RetainStores(stores: seq<StoreEntry>, keep: StoreEntry -> bool)
    requires StoresSorted(stores)
    ensures StoresSorted(Retain(stores, keep))
    ensures forall x :: x in Retain(stores, keep) <==> x in stores && keep(x)
  {
    RetainKeepsAscending(stores, keep, StoreId, NatLess);
    forall x ensures x in Retain(stores, keep) <==> x in stores && keep(x) { RetainEntries(stores, keep, x); }
  }

  lemma RetainGroups(groups: seq<GroupEntry>, keep: GroupEntry -> bool)
    requires GroupsSorted(groups)
    ensures GroupsSorted(Retain(groups, keep))
    ensures forall x :: x in Retain(groups, keep) <==> x in groups && keep(x)
  {
    RetainKeepsAscending(groups, keep, GroupId, PairLess);
    forall x ensures x in Retain(groups, keep) <==> x in groups && keep(x) { RetainEntries(groups, keep, x); }
  }

  /** `s` is `o` with exactly its nodes other than `node`, in order. */
  ghost predicate StoreLosesNode(s: StoreEntry, o: StoreEntry, node: nat) {
    s.storeId == o.storeId && Filtered(s.nodes, o.nodes, (n: nat) => n != node)
  }

  /** `g` is `o` with exactly its replicas on other nodes, in order. */
  ghost predicate GroupLosesNode(g: GroupEntry, o: GroupEntry, node: nat) {
    && g.storeId == o.storeId && g.groupId == o.groupId
    && Filtered(g.replicas, o.replicas, (r: ReplicaEntry) => r.nodeId != node)
  }

  /** `g` is `o` with exactly its replicas of other ids, in order. */
  ghost predicate GroupLosesReplica(g: GroupEntry, o: GroupEntry, replicaId: nat) {
    && g.storeId == o.storeId && g.groupId == o.groupId
    && Filtered(g.replicas, o.replicas, (r: ReplicaEntry) => r.replicaId != replicaId)
  }

  /** A store that one of these leaves. */
  ghost predicate StoreLeft(s: StoreEntry, before: seq<StoreEntry>, node: nat) {
    s.nodes != [] && exists o :: o in before && StoreLosesNode(s, o, node)
  }

  ghost predicate GroupLeft(g: GroupEntry, before: seq<GroupEntry>, node: nat) {
    g.replicas != [] && exists o :: o in before && GroupLosesNode(g, o, node)
  }

  ghost predicate OtherNode(s: StoreEntry, node: nat) {
    exists n :: n in s.nodes && n != node
  }

  ghost predicate OtherReplica(g: GroupEntry, node: nat) {
    exists r :: r in g.replicas && r.nodeId != node
  }

  /** A store stays exactly when it had another node, and then with exactly its other
      nodes. */
  ghost predicate StoresPurged(before: seq<StoreEntry>, now: seq<StoreEntry>, node: nat) {
    && (forall s :: s in now <==> StoreLeft(s, before, node))
    && (forall o :: o in before ==> (Has(now, StoreId, o.storeId) <==> OtherNode(o, node)))
  }

  /** A group stays exactly when it had a replica on another node, and then with exactly
      those. */
  ghost predicate GroupsPurged(before: seq<GroupEntry>, now: seq<GroupEntry>, node: nat) {
    && (forall g :: g in now <==> GroupLeft(g, before, node))
    && (forall o :: o in before ==> (Has(now, GroupId, GroupId(o)) <==> OtherReplica(o, node)))
  }

  lemma StoreLosesIff(s: StoreEntry, o: StoreEntry, node: nat)
    ensures StoreLosesNode(s, o, node) <==> s == StoreWithout(o, node)
    ensures StoreWithout(o, node).nodes != [] <==> OtherNode(o, node)
  {
    FilteredIff(s.nodes, o.nodes, (n: nat) => n != node);
    var kept := StoreWithout(o, node).nodes;
    forall n ensures n in kept <==> n in o.nodes && n != node { RetainEntries(o.nodes, (n: nat) => n != node, n); }
    assert kept != [] ==> kept[0] in kept;
  }

  lemma GroupLosesIff(g: GroupEntry, o: GroupEntry, node: nat)
    ensures GroupLosesNode(g, o, node) <==> g == GroupWithout(o, node)
    ensures GroupWithout(o, node).replicas != [] <==> OtherReplica(o, node)
  {
    FilteredIff(g.replicas, o.replicas, (r: ReplicaEntry) => r.nodeId != node);
    var kept := GroupWithout(o, node).replicas;
    forall r ensures r in kept <==> r in o.replicas && r.nodeId != node {
      RetainEntries(o.replicas, (r: ReplicaEntry) => r.nodeId != node, r);
    }
    assert kept != [] ==> kept[0] in kept;
  }

  lemma ReplicaLosesIff(g: GroupEntry, o: GroupEntry, replicaId: nat)
    ensures GroupLosesReplica(g, o, replicaId) <==> g == GroupLosing(o, replicaId)
  {
    FilteredIff(g.replicas, o.replicas, (r: ReplicaEntry) => r.replicaId != replicaId);
  }

  function StoreWithout(s: StoreEntry, node: nat): StoreEntry {
    s.(nodes := Retain(s.nodes, n => n != node))
  }

  function GroupLosing(g: GroupEntry, replicaId: nat): GroupEntry {
    g.(replicas := Retain(g.replicas, (r: ReplicaEntry) => r.replicaId != replicaId))
  }

  function GroupWithout(g: GroupEntry, node: nat): GroupEntry {
    g.(replicas := Retain(g.replicas, (r: ReplicaEntry) => r.nodeId != node))
  }

  /** Which stores are left, and with what. */
  lemma StoresLeft(before: seq<StoreEntry>, stores: seq<StoreEntry>, node: nat)
    requires StoresSorted(before)
    requires forall s :: s in stores <==> s.nodes != [] && exists o :: o in before && s == StoreWithout(o, node)
    ensures StoresPurged(before, stores, node)
  {
    forall s, o ensures StoreLosesNode(s, o, node) <==> s == StoreWithout(o, node) { StoreLosesIff(s, o, node); }
    forall o | o in before ensures Has(stores, StoreId, o.storeId) <==> OtherNode(o, node) {
      StoreStaysIff(before, stores, node, o);
    }
  }

  lemma StoreStaysIff(before: seq<StoreEntry>, stores: seq<StoreEntry>, node: nat, o: StoreEntry)
    requires StoresSorted(before) && o in before
    requires forall s :: s in stores <==> s.nodes != [] && exists p :: p in before && s == StoreWithout(p, node)
    ensures Has(stores, StoreId, o.storeId) <==> OtherNode(o, node)
  {
    var left := StoreWithout(o, node);
    StoreLosesIff(left, o, node);
    if i :| 0 <= i < |stores| && StoreId(stores[i]) == o.storeId {
      assert stores[i] in stores;
      var p :| p in before && stores[i] == StoreWithout(p, node);
      SameStore(before, p, o);
    }
    if left.nodes != [] {
      assert left in stores;
      var i :| 0 <= i < |stores| && stores[i] == left;
      assert StoreId(stores[i]) == o.storeId;
    }
  }

  lemma SameStore(stores: seq<StoreEntry>, p: StoreEntry, o: StoreEntry)
    requires StoresSorted(stores) && p in stores && o in stores && p.storeId == o.storeId
    ensures p == o
  {
    NatOrder();
    AscendingIsUnique(stores, StoreId, NatLess);
  }

  lemma GroupsLeft(before: seq<GroupEntry>, groups: seq<GroupEntry>, node: nat)
    requires GroupsSorted(before)
    requires forall g :: g in groups <==> g.replicas != [] && exists o :: o in before && g == GroupWithout(o, node)
    ensures GroupsPurged(before, groups, node)
  {
    forall g, o ensures GroupLosesNode(g, o, node) <==> g == GroupWithout(o, node) { GroupLosesIff(g, o, node); }
    forall o | o in before ensures Has(groups, GroupId, GroupId(o)) <==> OtherReplica(o, node) {
      GroupStaysIff(before, groups, node, o);
    }
  }

  lemma GroupStaysIff(before: seq<GroupEntry>, groups: seq<GroupEntry>, node: nat, o: GroupEntry)
    requires GroupsSorted(before) && o in before
    requires forall g :: g in groups <==> g.replicas != [] && exists p :: p in before && g == GroupWithout(p, node)
    ensures Has(groups, GroupId, GroupId(o)) <==> OtherReplica(o, node)
  {
    var left := GroupWithout(o, node);
    GroupLosesIff(left, o, node);
    if i :| 0 <= i < |groups| && GroupId(groups[i]) == GroupId(o) {
      assert groups[i] in groups;
      var p :| p in before && groups[i] == GroupWithout(p, node);
      SameGroup(before, p, o);
    }
    if left.replicas != [] {
      assert left in groups;
      var i :| 0 <= i < |groups| && groups[i] == left;
      assert GroupId(groups[i]) == GroupId(o);
    }
  }

  lemma SameGroup(groups: seq<GroupEntry>, p: GroupEntry, o: GroupEntry)
    requires GroupsSorted(groups) && p in groups && o in groups && GroupId(p) == GroupId(o)
    ensures p == o
  {
    PairOrder();
    AscendingIsUnique(groups, GroupId, PairLess);
  }

  lemma PurgedStores(stores: seq<StoreEntry>, purged: seq<StoreEntry>, node: nat)
    requires StoresSorted(stores) && |purged| == |stores|
    requires forall j :: 0 <= j < |stores| ==> purged[j] == StoreWithout(stores[j], node)
    ensures StoresSorted(purged)
    ensures forall s :: s in purged <==> exists o :: o in stores && s == StoreWithout(o, node)
    ensures forall s :: s in purged ==> node !in s.nodes
  {
    forall s | s in purged
      ensures Ascending(s.nodes, Same, NatLess) && node !in s.nodes
      ensures exists o :: o in stores && s == StoreWithout(o, node)
    {
      var j :| 0 <= j < |purged| && purged[j] == s;
      assert stores[j] in stores;
      RetainKeepsAscending(stores[j].nodes, n => n != node, Same, NatLess);
      RetainEntries(stores[j].nodes, n => n != node, node);
    }
    forall o | o in stores ensures StoreWithout(o, node) in purged {
      var j :| 0 <= j < |stores| && stores[j] == o;
      assert purged[j] == StoreWithout(o, node);
    }
  }

  lemma PurgedGroups(groups: seq<GroupEntry>, purged: seq<GroupEntry>, node: nat)
    requires GroupsSorted(groups) && |purged| == |groups|
    requires forall j :: 0 <= j < |groups| ==> purged[j] == GroupWithout(groups[j], node)
    ensures GroupsSorted(purged)
    ensures forall g :: g in purged <==> exists o :: o in groups && g == GroupWithout(o, node)
    ensures forall g, r :: g in purged && r in g.replicas ==> r.nodeId != node
  {
    forall g | g in purged
      ensures Ordered(g.replicas, ReplicaId, NatLess) && exists o :: o in groups && g == GroupWithout(o, node)
    {
      var j :| 0 <= j < |purged| && purged[j] == g;
      assert groups[j] in groups;
      RetainKeepsOrdered(groups[j].replicas, (r: ReplicaEntry) => r.nodeId != node, ReplicaId, NatLess);
    }
    forall g, r | g in purged && r in g.replicas ensures r.nodeId != node {
      var j :| 0 <= j < |purged| && purged[j] == g;
      RetainEntries(groups[j].replicas, (r: ReplicaEntry) => r.nodeId != node, r);
    }
    forall o | o in groups ensures GroupWithout(o, node) in purged {
      var j :| 0 <= j < |groups| && groups[j] == o;
      assert purged[j] == GroupWithout(o, node);
    }
  }
}
