/** The rows the migration reads from the legacy IP-management tables and the rows it
    writes to the target tables, and the pure conversions between them. A query
    (`session.query(...).filter_by(...).all()`) is the filter of an input sequence. */
module Rows {
  import opened Common
  import opened Addressing

  type Id = string

  /** A `created_at` or `deallocated_at` value, compared only for identity. */
  type Timestamp = int

  // ---------------------------------------------------------------------
  // Legacy rows
  // ---------------------------------------------------------------------

  datatype IpBlock = IpBlock(id: Id, tenantId: Id, networkId: Id, networkName: string,
                             cidr: string, createdAt: Timestamp)

  datatype IpRoute = IpRoute(id: Id, sourceBlockId: Id, netmask: string, gateway: string)

  datatype IpAddress = IpAddress(id: Id, ipBlockId: Id, address: IpLiteral,
                                 interfaceId: Option<Id>, markedForDeallocation: int,
                                 deallocatedAt: Option<Timestamp>, createdAt: Timestamp)

  /** A row of the legacy table of allocatable addresses. */
  datatype AllocatableIp = AllocatableIp(id: Id, ipBlockId: Id, address: IpLiteral, createdAt: Timestamp)

  datatype Interface = Interface(id: Id, deviceId: Id, tenantId: Id, createdAt: Timestamp)

  datatype MacAddressRange = MacAddressRange(id: Id, cidr: string, createdAt: Timestamp)

  datatype MacAddress = MacAddress(interfaceId: Option<Id>, address: int, createdAt: Timestamp)

  /** The legacy tables, each in the order its query returns it. */
  datatype SourceDb = SourceDb(blocks: seq<IpBlock>, routes: seq<IpRoute>,
                               addresses: seq<IpAddress>, interfaces: seq<Interface>,
                               macRanges: seq<MacAddressRange>, macs: seq<MacAddress>)

  // ---------------------------------------------------------------------
  // Target rows
  // ---------------------------------------------------------------------

  datatype Network = Network(id: Id, tenantId: Id, name: string)

  datatype Subnet = Subnet(id: Id, networkId: Id, cidr: string)

  datatype Route = Route(id: Id, cidr: string, tenantId: Id, gateway: string,
                         createdAt: Timestamp, subnetId: Id)

  datatype IpRecord = IpRecord(id: Id, createdAt: Timestamp, tenantId: Id, networkId: Id,
                               subnetId: Id, version: int, addressReadable: string,
                               deallocatedAt: Option<Timestamp>, deallocated: bool,
                               address: nat)

  datatype MacRangeRecord = MacRangeRecord(id: Id, cidr: string, createdAt: Timestamp,
                                           firstAddress: nat, nextAutoAssignMac: nat,
                                           lastAddress: nat)

  datatype MacRecord = MacRecord(tenantId: Id, createdAt: Timestamp, macAddressRangeId: Id,
                                 address: int)

  /** The backend key every migrated port is given. */
  const TempBackendKey: string := "NVP_TEMP_KEY"

  /** A target port; its MAC and its IP list are filled in by later stages. */
  class Port {
    const id: Id
    const deviceId: Id
    const tenantId: Id
    const createdAt: Timestamp
    const backendKey: string
    const networkId: Id
    var macAddress: Option<int>
    var ipAddresses: seq<IpRecord>

    /** The port `migrate_interfaces` builds for `iface` on network `networkId`
        (obligate/obligate.py:181-187): its fields copied from the interface and the
        temporary backend key. */
    predicate BuiltFrom(iface: Interface, networkId: Id)
    {
      && id == iface.id && deviceId == iface.deviceId && tenantId == iface.tenantId
      && createdAt == iface.createdAt && backendKey == TempBackendKey
      && this.networkId == networkId
    }

    /** A new port has no MAC and no IP yet. */
    constructor (iface: Interface, networkId: Id)
      ensures BuiltFrom(iface, networkId)
      ensures macAddress == None && ipAddresses == []
    {
      id := iface.id;
      deviceId := iface.deviceId;
      tenantId := iface.tenantId;
      createdAt := iface.createdAt;
      backendKey := TempBackendKey;
      this.networkId := networkId;
      macAddress := None;
      ipAddresses := [];
    }

    /** The inner loop of `associate_ips_with_ports` (obligate/obligate.py:197-198):
        appends every record of `ips` once, in the set's unspecified iteration order. */
    method AppendIps(ips: set<IpRecord>) returns (ghost added: seq<IpRecord>)
      modifies this
      ensures ipAddresses == old(ipAddresses) + added
      ensures Enumerates(added, ips)
      ensures macAddress == old(macAddress)
    {
      var left := ips;
      added := [];
      while left != {}
        invariant left <= ips
        invariant ipAddresses == old(ipAddresses) + added
        invariant NoDuplicates(added)
        invariant forall x :: x in added <==> x in ips && x !in left
        invariant macAddress == old(macAddress)
        decreases |left|
      {
        var ip :| ip in left;
        AppendAssoc(old(ipAddresses), added, [ip]);
        NoDuplicatesSnoc(added, ip);
        ipAddresses := ipAddresses + [ip];
        added := added + [ip];
        left := left - {ip};
      }
    }
  }

  /** A row handed to `session.add`. */
  datatype Row =
    | NetworkRow(network: Network)
    | SubnetRow(subnet: Subnet)
    | RouteRow(route: Route)
    | IpRow(ip: IpRecord)
    | PortRow(port: Port)
    | MacRangeRow(range: MacRangeRecord)
    | MacRow(mac: MacRecord)

  // ---------------------------------------------------------------------
  // Queries
  // ---------------------------------------------------------------------

  /** `query(IpAddresses).filter_by(ip_block_id=blockId)`. */
  function AddressesOf(addresses: seq<IpAddress>, blockId: Id): (r: seq<IpAddress>)
    ensures forall a :: a in r <==> a in addresses && a.ipBlockId == blockId
    ensures |r| <= |addresses|
    decreases |addresses|
  {
    if |addresses| == 0 then []
    else
      var rest := AddressesOf(addresses[..|addresses| - 1], blockId);
      var last := addresses[|addresses| - 1];
      if last.ipBlockId == blockId then rest + [last] else rest
  }

  /** `query(IpRoutes).filter_by(source_block_id=blockId)`. */
  function RoutesOf(routes: seq<IpRoute>, blockId: Id): (r: seq<IpRoute>)
    ensures forall t :: t in r <==> t in routes && t.sourceBlockId == blockId
    ensures |r| <= |routes|
    decreases |routes|
  {
    if |routes| == 0 then []
    else
      var rest := RoutesOf(routes[..|routes| - 1], blockId);
      var last := routes[|routes| - 1];
      if last.sourceBlockId == blockId then rest + [last] else rest
  }

  /** `query(AllocatableIPs).filter_by(ip_block_id=blockId)`. */
  function AllocatableOf(ips: seq<AllocatableIp>, blockId: Id): (r: seq<AllocatableIp>)
    ensures forall a :: a in r <==> a in ips && a.ipBlockId == blockId
    ensures |r| <= |ips|
    decreases |ips|
  {
    if |ips| == 0 then []
    else
      var rest := AllocatableOf(ips[..|ips| - 1], blockId);
      var last := ips[|ips| - 1];
      if last.ipBlockId == blockId then rest + [last] else rest
  }

  // ---------------------------------------------------------------------
  // Row conversions
  // ---------------------------------------------------------------------

  /** The subnet of a block (obligate/obligate.py:97-99): keyed by the block's id, on
      its network, with its CIDR. */
  function SubnetOf(block: IpBlock): (s: Subnet)
    ensures s.id == block.id && s.networkId == block.networkId && s.cidr == block.cidr
  {
    Subnet(block.id, block.networkId, block.cidr)
  }

  /** The target route of a legacy route of `block` (obligate/obligate.py:109-114): the
      route's id, netmask (as the CIDR) and gateway, and the block's tenant, creation
      time and id (as the subnet). */
  function RouteOf(block: IpBlock, route: IpRoute): (t: Route)
    ensures t.id == route.id && t.cidr == route.netmask && t.gateway == route.gateway
    ensures t.tenantId == block.tenantId && t.createdAt == block.createdAt && t.subnetId == block.id
  {
    Route(route.id, route.netmask, block.tenantId, route.gateway, block.createdAt, block.id)
  }

  /** The target IP record of an address of `block` (obligate/obligate.py:143-164). It
      belongs to the block's subnet, network and tenant; it is deallocated exactly when
      the address was marked for deallocation, and only then carries a deallocation
      time, the address's own; it keeps the literal's text and version and stores the
      IPv6 form of its value. */
  function IpRecordOf(block: IpBlock, a: IpAddress): (r: IpRecord)
    ensures r.id == a.id && r.createdAt == a.createdAt
    ensures r.subnetId == block.id && r.networkId == block.networkId && r.tenantId == block.tenantId
    ensures r.deallocated <==> a.markedForDeallocation == 1
    ensures r.deallocatedAt.Some? ==> r.deallocated
    ensures r.deallocated ==> r.deallocatedAt == a.deallocatedAt
    ensures r.addressReadable == a.address.text
    ensures (r.version == 4 <==> a.address.version == V4) && (r.version == 6 <==> a.address.version == V6)
    ensures ValidLiteral(a.address) && a.address.version == V4 ==>
              IsIpv4Mapped(r.address) && Ipv4OfMapped(r.address) == a.address.value
    ensures a.address.version == V6 ==> r.address == a.address.value
  {
    var deallocated := a.markedForDeallocation == 1;
    IpRecord(a.id, a.createdAt, block.tenantId, block.networkId, block.id,
             VersionNumber(a.address.version), a.address.text,
             if deallocated then a.deallocatedAt else None, deallocated,
             Ipv6Value(a.address))
  }

  /** The target IP record of an allocatable address of `block`
      (obligate/obligate.py:208-219): exactly the record of an address of the same block
      that is marked for deallocation, has no deallocation time and no interface, so it
      is deallocated and carries no deallocation time. */
  function AllocatableIpRecordOf(block: IpBlock, a: AllocatableIp): (r: IpRecord)
    ensures r == IpRecordOf(block, IpAddress(a.id, a.ipBlockId, a.address, None, 1, None, a.createdAt))
    ensures r.deallocated && r.deallocatedAt.None?
  {
    IpRecord(a.id, a.createdAt, block.tenantId, block.networkId, block.id,
             VersionNumber(a.address.version), a.address.text, None, true, Ipv6Value(a.address))
  }

  /** Two addresses of one block with different ids give different records. */
  lemma IpRecordOfDistinct(block: IpBlock, a: IpAddress, b: IpAddress)
    requires a.id != b.id
    ensures IpRecordOf(block, a) != IpRecordOf(block, b)
  {
  }

  /** The distinct `network_id`s of the blocks. */
  function NetworkIds(blocks: seq<IpBlock>): set<Id>
  {
    set b | b in blocks :: b.networkId
  }
}
