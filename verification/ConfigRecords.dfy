/** The console configuration as lists of entries, as keyed records, and as records
under text keys. */
module ConfigRecords {
  import opened KeyedLists
  import opened Lexical
  import opened Options

  datatype ServiceType = Kv | Diskdb | Rpc

  datatype RackEntry = RackEntry(id: nat, name: string)

  datatype NodeEntry = NodeEntry(id: nat, rackId: nat, host: string, sshPort: nat, sshUser: string,
                                 sshKey: Option<string>, sshPassword: Option<string>)

  datatype ServerEntry = ServerEntry(id: string, url: string, nodeId: Option<nat>, rpcUrl: Option<string>,
                                     restPort: Option<nat>, rpcPort: Option<nat>, autoStart: bool,
                                     binary: Option<string>,
                                     electionProfile: Option<string>, pid: Option<nat>, serviceType: ServiceType,
                                     rpcWorkers: Option<nat>, noFsync: bool)

  datatype StoreEntry = StoreEntry(storeId: nat, nodes: seq<nat>)

  datatype ReplicaEntry = ReplicaEntry(replicaId: nat, nodeId: nat)

  datatype GroupEntry = GroupEntry(storeId: nat, groupId: nat, replicas: seq<ReplicaEntry>)

  datatype DiskGroupEntry = DiskGroupEntry(id: nat, rackId: nat, nodeId: nat, name: string)

  datatype DiskEntry = DiskEntry(diskId: string, diskGroupId: nat, rackId: nat, nodeId: nat, diskType: string,
                                 capacityBytes: nat, zoneSizeBytes: nat, unitSizeBytes: nat, devicePath: string)

  datatype Config = Config(racks: seq<RackEntry>, nodes: seq<NodeEntry>, servers: seq<ServerEntry>,
                           stores: seq<StoreEntry>,
                           groups: seq<GroupEntry>, diskGroups: seq<DiskGroupEntry>, disks: seq<DiskEntry>)

  // ---- Keys and their orders ------------------------------------------

  function RackId(e: RackEntry): nat { e.id }

  function NodeId(e: NodeEntry): nat { e.id }

  function ServerId(e: ServerEntry): string { e.id }

  function ServerUrl(e: ServerEntry): string { e.url }

  function StoreId(e: StoreEntry): nat { e.storeId }

  function GroupId(e: GroupEntry): (nat, nat) { (e.storeId, e.groupId) }

  function ReplicaId(e: ReplicaEntry): nat { e.replicaId }

  function DiskGroupId(e: DiskGroupEntry): nat { e.id }

  function DiskId(e: DiskEntry): string { e.diskId }

  predicate NatLess(a: nat, b: nat) {
    a < b
  }

  predicate PairLess(a: (nat, nat), b: (nat, nat)) {
    a.0 < b.0 || (a.0 == b.0 && a.1 < b.1)
  }

  function Codes(s: string): (r: seq<int>)
    ensures |r| == |s| && forall i :: 0 <= i < |s| ==> r[i] == s[i] as int
  {
    seq(|s|, i requires 0 <= i < |s| => s[i] as int)
  }

  /** Text compared character by character. */
  predicate TextLess(a: string, b: string) {
    LexLess(Codes(a), Codes(b))
  }

  lemma NatOrder()
    ensures StrictOrder(NatLess)
  {}

  lemma PairOrder()
    ensures StrictOrder(PairLess)
  {
    forall a: (nat, nat), b: (nat, nat) ensures a == b || PairLess(a, b) || PairLess(b, a) {}
  }

  lemma TextOrder()
    ensures StrictOrder(TextLess)
  {
    forall a, b | TextLess(a, b) ensures !TextLess(b, a) { LexAsymmetric(Codes(a), Codes(b)); }
    forall a, b, c | TextLess(a, b) && TextLess(b, c) ensures TextLess(a, c) {
      LexTransitive(Codes(a), Codes(b), Codes(c));
    }
    forall a, b ensures a == b || TextLess(a, b) || TextLess(b, a) {
      LexTotal(Codes(a), Codes(b));
      if Codes(a) == Codes(b) {
        forall i | 0 <= i < |a| ensures a[i] == b[i] { assert Codes(a)[i] == Codes(b)[i]; }
      }
    }
  }

  // ---- Lists of entries -----------------------------------------------

  ghost predicate UniqueIds(c: Config) {
    && UniqueKeys(c.racks, RackId) && UniqueKeys(c.nodes, NodeId) && UniqueKeys(c.servers, ServerId)
    && UniqueKeys(c.stores, StoreId) && UniqueKeys(c.groups, GroupId) && UniqueKeys(c.diskGroups, DiskGroupId)
    && UniqueKeys(c.disks, DiskId)
  }

  /** The same entries in every list, each list ascending by its id. */
  ghost predicate SortedCopy(r: Config, c: Config) {
    && SameEntries(r.racks, c.racks) && Ascending(r.racks, RackId, NatLess)
    && SameEntries(r.nodes, c.nodes) && Ascending(r.nodes, NodeId, NatLess)
    && SameEntries(r.servers, c.servers) && Ascending(r.servers, ServerId, TextLess)
    && SameEntries(r.stores, c.stores) && Ascending(r.stores, StoreId, NatLess)
    && SameEntries(r.groups, c.groups) && Ascending(r.groups, GroupId, PairLess)
    && SameEntries(r.diskGroups, c.diskGroups) && Ascending(r.diskGroups, DiskGroupId, NatLess)
    && SameEntries(r.disks, c.disks) && Ascending(r.disks, DiskId, TextLess)
  }

  /** There is only one sorted copy; of a sorted configuration it is the configuration itself. */
  lemma SortedCopyUnique(r: Config, r': Config, c: Config)
    requires SortedCopy(r, c) && SortedCopy(r', c)
    ensures r == r'
  {
    NatOrder();
    PairOrder();
    TextOrder();
    AscendingDetermined(r.racks, r'.racks, RackId, NatLess);
    AscendingDetermined(r.nodes, r'.nodes, NodeId, NatLess);
    AscendingDetermined(r.servers, r'.servers, ServerId, TextLess);
    AscendingDetermined(r.stores, r'.stores, StoreId, NatLess);
    AscendingDetermined(r.groups, r'.groups, GroupId, PairLess);
    AscendingDetermined(r.diskGroups, r'.diskGroups, DiskGroupId, NatLess);
    AscendingDetermined(r.disks, r'.disks, DiskId, TextLess);
  }
}
