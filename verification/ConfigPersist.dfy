/** Saving a configuration as keyed records and reading it back. */
module ConfigPersist {
  import opened Decimal
  import opened KeyedLists
  import opened Options
  import opened ConfigRecords

  const U64_MAX := 0xffff_ffff_ffff_ffff

  datatype PersistedRack = PersistedRack(name: string)

  datatype PersistedNode = PersistedNode(rackId: nat, host: string, sshPort: nat, sshUser: string,
                                         sshKey: Option<string>,
                                         sshPassword: Option<string>)

  datatype PersistedServer = PersistedServer(nodeId: Option<nat>, url: string, rpcUrl: Option<string>,
                                             restPort: Option<nat>,
                                             rpcPort: Option<nat>, autoStart: bool, binary: Option<string>,
                                             electionProfile: Option<string>, serviceType: ServiceType,
                                             rpcWorkers: Option<nat>, noFsync: bool, pid: Option<nat>)

  /** Racks and nodes are keyed by number; the other records carry their own id and
      sit under a text key. */
  datatype Persisted = Persisted(rack: map<nat, PersistedRack>, node: map<nat, PersistedNode>,
                                 server: map<string, PersistedServer>, store: map<string, StoreEntry>,
                                 group: map<string, GroupEntry>, diskGroup: map<string, DiskGroupEntry>,
                                 disk: map<string, DiskEntry>)

  // ---- Entry to record and back ---------------------------------------

  function RackRecord(e: RackEntry): PersistedRack { PersistedRack(e.name) }

  function RackFrom(id: nat, p: PersistedRack): RackEntry { RackEntry(id, p.name) }

  function NodeRecord(e: NodeEntry): PersistedNode {
    PersistedNode(e.rackId, e.host, e.sshPort, e.sshUser, e.sshKey, e.sshPassword)
  }

  function NodeFrom(id: nat, p: PersistedNode): NodeEntry {
    NodeEntry(id, p.rackId, p.host, p.sshPort, p.sshUser, p.sshKey, p.sshPassword)
  }

  function ServerRecord(e: ServerEntry): PersistedServer {
    PersistedServer(e.nodeId, e.url, e.rpcUrl, e.restPort, e.rpcPort, e.autoStart, e.binary, e.electionProfile,
                    e.serviceType,
                    e.rpcWorkers, e.noFsync, e.pid)
  }

  function ServerFrom(id: string, p: PersistedServer): ServerEntry {
    ServerEntry(id, p.url, p.nodeId, p.rpcUrl, p.restPort, p.rpcPort, p.autoStart, p.binary, p.electionProfile, p.pid,
                p.serviceType, p.rpcWorkers, p.noFsync)
  }

  function Itself<E>(e: E): E { e }

  function ValueOf<E>(text: string, e: E): E { e }

  function StoreText(e: StoreEntry): string { Print(e.storeId) }

  function GroupText(e: GroupEntry): string { PrintPair(e.storeId, e.groupId) }

  function DiskGroupText(e: DiskGroupEntry): string { Print(e.id) }

  function ToPersisted(c: Config): Persisted {
    Persisted(Collect(c.racks, RackId, RackRecord), Collect(c.nodes, NodeId, NodeRecord),
              Collect(c.servers, ServerId, ServerRecord), Collect(c.stores, StoreText, Itself<StoreEntry>),
              Collect(c.groups, GroupText, Itself<GroupEntry>),
              Collect(c.diskGroups, DiskGroupText, Itself<DiskGroupEntry>),
              Collect(c.disks, DiskId, Itself<DiskEntry>))
  }

  ghost predicate ReadBack(c: Config, p: Persisted) {
    && Restored(c.racks, p.rack, RackFrom, RackId, NatLess)
    && Restored(c.nodes, p.node, NodeFrom, NodeId, NatLess)
    && Restored(c.servers, p.server, ServerFrom, ServerId, TextLess)
    && Restored(c.stores, p.store, ValueOf<StoreEntry>, StoreId, NatLess)
    && Restored(c.groups, p.group, ValueOf<GroupEntry>, GroupId, PairLess)
    && Restored(c.diskGroups, p.diskGroup, ValueOf<DiskGroupEntry>, DiskGroupId, NatLess)
    && Restored(c.disks, p.disk, ValueOf<DiskEntry>, DiskId, TextLess)
  }

  method FromPersisted(p: Persisted) returns (c: Config)
    ensures ReadBack(c, p)
  {
    NatOrder();
    PairOrder();
    TextOrder();
    var racks := Restore(p.rack, RackFrom, RackId, NatLess);
    var nodes := Restore(p.node, NodeFrom, NodeId, NatLess);
    var servers := Restore(p.server, ServerFrom, ServerId, TextLess);
    var stores := Restore(p.store, ValueOf<StoreEntry>, StoreId, NatLess);
    var groups := Restore(p.group, ValueOf<GroupEntry>, GroupId, PairLess);
    var diskGroups := Restore(p.diskGroup, ValueOf<DiskGroupEntry>, DiskGroupId, NatLess);
    var disks := Restore(p.disk, ValueOf<DiskEntry>, DiskId, TextLess);
    c := Config(racks, nodes, servers, stores, groups, diskGroups, disks);
  }

  lemma TextKeysStandForIds()
    ensures forall e, f :: StoreText(e) == StoreText(f) ==> StoreId(e) == StoreId(f)
    ensures forall e, f :: GroupText(e) == GroupText(f) ==> GroupId(e) == GroupId(f)
    ensures forall e, f :: DiskGroupText(e) == DiskGroupText(f) ==> DiskGroupId(e) == DiskGroupId(f)
  {
    forall e, f | StoreText(e) == StoreText(f) ensures StoreId(e) == StoreId(f) {
      PrintInjective(e.storeId, f.storeId);
    }
    forall e, f | GroupText(e) == GroupText(f) ensures GroupId(e) == GroupId(f) {
      PairInjective(e.storeId, e.groupId, f.storeId, f.groupId);
    }
    forall e, f | DiskGroupText(e) == DiskGroupText(f) ensures DiskGroupId(e) == DiskGroupId(f) {
      PrintInjective(e.id, f.id);
    }
  }

  /** Reading back what was written gives the configuration with its lists sorted. */
  lemma RoundTrip(c: Config, r: Config)
    requires UniqueIds(c) && ReadBack(r, ToPersisted(c))
    ensures SortedCopy(r, c)
  {
    RoundTripNumbered(c, r);
    RoundTripNamed(c, r);
  }

  lemma RoundTripNumbered(c: Config, r: Config)
    requires UniqueIds(c) && ReadBack(r, ToPersisted(c))
    ensures SameEntries(r.racks, c.racks) && Ascending(r.racks, RackId, NatLess)
    ensures SameEntries(r.nodes, c.nodes) && Ascending(r.nodes, NodeId, NatLess)
    ensures SameEntries(r.stores, c.stores) && Ascending(r.stores, StoreId, NatLess)
    ensures SameEntries(r.diskGroups, c.diskGroups) && Ascending(r.diskGroups, DiskGroupId, NatLess)
  {
    NatOrder();
    TextKeysStandForIds();
    RestoredIsSorted(c.racks, r.racks, RackId, RackRecord, RackFrom, RackId, NatLess);
    RestoredIsSorted(c.nodes, r.nodes, NodeId, NodeRecord, NodeFrom, NodeId, NatLess);
    RestoredIsSorted(c.stores, r.stores, StoreText, Itself<StoreEntry>, ValueOf<StoreEntry>, StoreId, NatLess);
    RestoredIsSorted(c.diskGroups, r.diskGroups, DiskGroupText, Itself<DiskGroupEntry>, ValueOf<DiskGroupEntry>,
                     DiskGroupId, NatLess);
  }

  lemma RoundTripNamed(c: Config, r: Config)
    requires UniqueIds(c) && ReadBack(r, ToPersisted(c))
    ensures SameEntries(r.servers, c.servers) && Ascending(r.servers, ServerId, TextLess)
    ensures SameEntries(r.groups, c.groups) && Ascending(r.groups, GroupId, PairLess)
    ensures SameEntries(r.disks, c.disks) && Ascending(r.disks, DiskId, TextLess)
  {
    PairOrder();
    TextOrder();
    TextKeysStandForIds();
    RestoredIsSorted(c.servers, r.servers, ServerId, ServerRecord, ServerFrom, ServerId, TextLess);
    RestoredIsSorted(c.groups, r.groups, GroupText, Itself<GroupEntry>, ValueOf<GroupEntry>, GroupId, PairLess);
    RestoredIsSorted(c.disks, r.disks, DiskId, Itself<DiskEntry>, ValueOf<DiskEntry>, DiskId, TextLess);
  }

  // ---- Number keys as text --------------------------------------------

  function ParseU64(s: string): Option<nat> {
    Parse(s, U64_MAX)
  }

  /** The text map holds every record of `m` under its printed key, and nothing else. */
  ghost predicate TextOf<V>(t: map<string, V>, m: map<nat, V>, shown: nat -> string) {
    && (forall k :: k in m ==> shown(k) in t && t[shown(k)] == m[k])
    && (forall s :: s in t ==> exists k :: k in m && shown(k) == s)
  }

  method SerializeKeys<V>(m: map<nat, V>) returns (t: map<string, V>)
    ensures TextOf(t, m, Print)
  {
    t := map[];
    var todo := m.Keys;
    ghost var done: set<nat> := {};
    while todo != {}
      invariant done + todo == m.Keys
      invariant forall k :: k in done ==> k in m && Print(k) in t && t[Print(k)] == m[k]
      invariant forall s :: s in t ==> exists k :: k in done && Print(k) == s
    {
      var k :| k in todo;
      forall l | l in done && Print(l) == Print(k) ensures l == k { PrintInjective(l, k); }
      t := t[Print(k) := m[k]];
      todo, done := todo - {k}, done + {k};
    }
  }

  /** The number map holds, for every text key, a record of some text key that reads
      as the same number. */
  ghost predicate ReadFrom<V>(m: map<nat, V>, t: map<string, V>, parse: string -> Option<nat>) {
    && (forall s :: s in t ==> parse(s).Some? && parse(s).value in m)
    && (forall k :: k in m ==> exists s :: s in t && parse(s) == Some(k) && m[k] == t[s])
  }

  /** Fails exactly when some key is not a number of 64 bits. */
  method DeserializeKeys<V>(t: map<string, V>) returns (r: Option<map<nat, V>>)
    ensures r.Some? <==> forall s :: s in t ==> ParseU64(s).Some?
    ensures r.Some? ==> ReadFrom(r.value, t, ParseU64)
  {
    var m: map<nat, V> := map[];
    var todo := t.Keys;
    ghost var done: set<string> := {};
    while todo != {}
      invariant done + todo == t.Keys && done !! todo
      invariant forall s :: s in done ==> ParseU64(s).Some? && ParseU64(s).value in m
      invariant forall k :: k in m ==> exists s :: s in done && ParseU64(s) == Some(k) && m[k] == t[s]
    {
      var s :| s in todo;
      var k := ParseU64(s);
      if k == None { return None; }
      m := m[k.value := t[s]];
      todo, done := todo - {s}, done + {s};
    }
    r := Some(m);
  }

  /** Where reading inverts printing, the text of a map reads back as that map. */
  lemma TextReadsBack<V>(t: map<string, V>, m: map<nat, V>, r: map<nat, V>, shown: nat -> string,
                         parse: string -> Option<nat>)
    requires TextOf(t, m, shown) && ReadFrom(r, t, parse)
    requires forall k :: k in m ==> parse(shown(k)) == Some(k)
    ensures r == m
  {
    forall k | k in m ensures k in r {
      assert shown(k) in t;
    }
    forall k | k in r ensures k in m && r[k] == m[k] {
      var s :| s in t && parse(s) == Some(k) && r[k] == t[s];
      var l :| l in m && shown(l) == s;
    }
  }

  method KeysThroughText<V>(m: map<nat, V>) returns (r: Option<map<nat, V>>)
    requires forall k :: k in m ==> k <= U64_MAX
    ensures r == Some(m)
  {
    var t := SerializeKeys(m);
    r := DeserializeKeys(t);
    forall k | k in m ensures ParseU64(Print(k)) == Some(k) { ParsesPrinted(k, U64_MAX); }
    forall s | s in t ensures ParseU64(s).Some? {
      var k :| k in m && Print(k) == s;
    }
    TextReadsBack(t, m, r.value, Print, ParseU64);
  }

  // ---- Save and load --------------------------------------------------

  predicate Wide(c: Config) {
    (forall e :: e in c.racks ==> e.id <= U64_MAX) && (forall e :: e in c.nodes ==> e.id <= U64_MAX)
  }

  lemma WideKeys(c: Config)
    requires Wide(c)
    ensures forall k :: k in ToPersisted(c).rack ==> k <= U64_MAX
    ensures forall k :: k in ToPersisted(c).node ==> k <= U64_MAX
  {
    KeysBounded(c.racks, RackId, RackRecord, U64_MAX);
    KeysBounded(c.nodes, NodeId, NodeRecord, U64_MAX);
  }

  lemma KeysBounded<E, V>(s: seq<E>, key: E -> nat, value: E -> V, max: nat)
    requires forall e :: e in s ==> key(e) <= max
    ensures forall k :: k in Collect(s, key, value) ==> k <= max
  {
    forall k: nat | k in Collect(s, key, value) ensures k <= max {
      var i := CollectOnly(s, key, value, k);
      assert s[i] in s;
    }
  }

  lemma RoundTripOfSorted(c: Config, r: Config)
    requires UniqueIds(c) && ReadBack(r, ToPersisted(c))
    ensures SortedCopy(r, c) && (SortedCopy(c, c) ==> r == c)
  {
    RoundTrip(c, r);
    if SortedCopy(c, c) { SortedCopyUnique(r, c, c); }
  }

  /** The whole trip, through text keys: what is loaded is what was saved, sorted;
      a sorted configuration comes back as it was. */
  method SaveAndLoad(c: Config) returns (r: Option<Config>)
    requires UniqueIds(c) && Wide(c)
    ensures r.Some? && SortedCopy(r.value, c) && (SortedCopy(c, c) ==> r.value == c)
  {
    var p := ToPersisted(c);
    WideKeys(c);
    var rack := KeysThroughText(p.rack);
    var node := KeysThroughText(p.node);
    var back := FromPersisted(p.(rack := rack.value, node := node.value));
    assert p.(rack := rack.value, node := node.value) == p;
    RoundTripOfSorted(c, back);
    r := Some(back);
  }
}
