/** The migration stages of obligate/obligate.py as methods of one state object: the
    five module-level dictionaries (obligate/obligate.py:24-28, the unused `interfaces`
    one aside) are its fields, and `session.add` appends to `pending`. */
module Migration {
  import opened Common
  import opened Addressing
  import opened Rows
  import opened MacRange
  import opened MigrationSpec
  import opened PortSpec

  /** Why a run stops: the exception each stage can raise. */
  datatype MigrationError =
    | NetworkTenantConflict(networkId: Id)   // `raise Exception` (obligate/obligate.py:86-88)
    | NoMacRange                             // `.first()` found no range row (obligate/obligate.py:255-256)
    | BadMacRange(reason: RangeError)        // `_to_mac_range` raised (obligate/obligate.py:257)
    | UnknownInterface(interfaceId: Id)      // `interface_tenant[...]` KeyError (obligate/obligate.py:273)

  class MigrationState {
    /** `interface_network`: interface id to the network of its first address's block. */
    var interfaceNetwork: map<Id, Id>
    /** `interface_ip`: interface reference (None included) to its IP records. */
    var interfaceIp: map<Option<Id>, set<IpRecord>>
    /** `interface_tenant`: interface id to the tenant of its port. */
    var interfaceTenant: map<Id, Id>
    /** `port_cache`: interface id to its port. */
    var portCache: map<Id, Port>
    /** The rows handed to `session.add`, in order. */
    var pending: seq<Row>

    /** The caches agree with each other: every interface with a network has an IP set,
        and the ports are exactly the interfaces with a tenant, each keyed by its own id
        and carrying the cached tenant and network. */
    ghost predicate Valid()
      reads this
    {
      CachesAgree(interfaceNetwork, interfaceIp, interfaceTenant, portCache)
    }

    /** The dictionaries as the module starts: all empty, nothing pending. */
    constructor ()
      ensures interfaceNetwork == map[] && interfaceIp == map[] && interfaceTenant == map[]
      ensures portCache == map[] && pending == []
      ensures Valid()
    {
      interfaceNetwork := map[];
      interfaceIp := map[];
      interfaceTenant := map[];
      portCache := map[];
      pending := [];
    }

    // -------------------------------------------------------------------
    // migrate_networks (obligate/obligate.py:65-102)
    // -------------------------------------------------------------------

    /** The first loop of `migrate_networks`: groups the blocks by network, keeping the
        tenant and name of the first block of each, and fails on the first block whose
        tenant differs from the one recorded for its network. */
    static method GroupNetworks(blocks: seq<IpBlock>) returns (r: Result<map<Id, NetworkInfo>, MigrationError>)
      ensures r.Success? <==> !TenantConflict(blocks)
      ensures r.Success? ==> FirstSeenGrouping(blocks, r.value)
      ensures r.Failure? ==> r.error.NetworkTenantConflict? && r.error.networkId in NetworkIds(blocks)
    {
      var networks: map<Id, NetworkInfo> := map[];
      for k := 0 to |blocks|
        invariant GroupedUpTo(blocks, k, networks)
      {
        var block := blocks[k];
        if block.networkId !in networks {
          GroupNewNetwork(blocks, k, networks);
          networks := networks[block.networkId := InfoOf(block)];
        } else if networks[block.networkId].tenantId != block.tenantId {
          GroupConflict(blocks, k, networks);
          return Failure(NetworkTenantConflict(block.networkId));
        } else {
          GroupKnownNetwork(blocks, k, networks);
        }
      }
      GroupedAll(blocks, networks);
      return Success(networks);
    }

    /** The second loop of `migrate_networks`: one Network per grouped network, in the
        dictionary's iteration order, which Python leaves unspecified. */
    method AddNetworks(networks: map<Id, NetworkInfo>) returns (ghost order: seq<Id>)
      modifies this
      ensures NoDuplicates(order) && Elements(order) == networks.Keys
      ensures pending == old(pending) + NetworkRows(networks, order)
      ensures interfaceNetwork == old(interfaceNetwork) && interfaceIp == old(interfaceIp)
      ensures interfaceTenant == old(interfaceTenant) && portCache == old(portCache)
    {
      var left := networks.Keys;
      order := [];
      while left != {}
        invariant left <= networks.Keys
        invariant forall m :: m in order <==> m in networks && m !in left
        invariant NoDuplicates(order)
        invariant pending == old(pending) + NetworkRows(networks, order)
        invariant interfaceNetwork == old(interfaceNetwork) && interfaceIp == old(interfaceIp)
        invariant interfaceTenant == old(interfaceTenant) && portCache == old(portCache)
        decreases |left|
      {
        var n :| n in left;
        ghost var row := NetworkRow(Network(n, networks[n].tenantId, networks[n].name));
        AppendAssoc(old(pending), NetworkRows(networks, order), [row]);
        pending := pending + [NetworkRow(Network(n, networks[n].tenantId, networks[n].name))];
        NetworkRowsSnoc(networks, order, n);
        NoDuplicatesSnoc(order, n);
        order := order + [n];
        left := left - {n};
      }
      assert Elements(order) == networks.Keys;
    }

    /** The body of `migrate_ips` for one address (obligate/obligate.py:134-170). */
    method MigrateIp(block: IpBlock, address: IpAddress)
      modifies this
      ensures var iface := address.interfaceId;
        interfaceNetwork == if iface.Some? && iface.value !in old(interfaceNetwork)
                            then old(interfaceNetwork)[iface.value := block.networkId]
                            else old(interfaceNetwork)
      ensures interfaceIp == old(interfaceIp)[address.interfaceId :=
                CachedIps(old(interfaceIp), address.interfaceId) + {IpRecordOf(block, address)}]
      ensures pending == old(pending) + [IpRow(IpRecordOf(block, address))]
      ensures interfaceTenant == old(interfaceTenant) && portCache == old(portCache)
    {
      var iface := address.interfaceId;
      if iface.Some? && iface.value !in interfaceNetwork {
        interfaceNetwork := interfaceNetwork[iface.value := block.networkId];
      }
      var ip := IpRecordOf(block, address);
      if iface !in interfaceIp {
        interfaceIp := interfaceIp[iface := {}];
      }
      interfaceIp := interfaceIp[iface := interfaceIp[iface] + {ip}];
      pending := pending + [IpRow(ip)];
    }

    /** `migrate_ips` for one block: each of its addresses becomes an IP record; an
        interface not yet cached is given the block's network (first seen wins, a
        different network later is only reported, obligate/obligate.py:138-141), and the
        record joins the IP set of its interface reference. */
    method MigrateIps(block: IpBlock, addresses: seq<IpAddress>)
      modifies this
      ensures interfaceNetwork == CacheNetworks(old(interfaceNetwork), block.networkId, AddressesOf(addresses, block.id))
      ensures interfaceIp == CacheIps(old(interfaceIp), block, AddressesOf(addresses, block.id))
      ensures pending == old(pending) + IpRows(block, AddressesOf(addresses, block.id))
      ensures interfaceTenant == old(interfaceTenant) && portCache == old(portCache)
    {
      var addrs := AddressesOf(addresses, block.id);
      ghost var networks0, ips0, pending0 := interfaceNetwork, interfaceIp, pending;
      CacheNetworksEmpty(networks0, block.networkId);
      CacheIpsEmpty(ips0, block);
      for i := 0 to |addrs|
        invariant interfaceNetwork == CacheNetworks(networks0, block.networkId, addrs[..i])
        invariant interfaceIp == CacheIps(ips0, block, addrs[..i])
        invariant pending == pending0 + IpRows(block, addrs[..i])
        invariant interfaceTenant == old(interfaceTenant) && portCache == old(portCache)
      {
        IpRowsStep(block, addrs, i);
        AppendAssoc(pending0, IpRows(block, addrs[..i]), [IpRow(IpRecordOf(block, addrs[i]))]);
        CacheNetworksStep(networks0, block.networkId, addrs, i);
        CacheIpsStep(ips0, block, addrs, i);
        MigrateIp(block, addrs[i]);
      }
      assert addrs[..|addrs|] == addrs;
    }

    /** `migrate_routes` for one block: one Route per route of the block. */
    method MigrateRoutes(block: IpBlock, routes: seq<IpRoute>)
      modifies this
      ensures pending == old(pending) + RouteRows(block, RoutesOf(routes, block.id))
      ensures interfaceNetwork == old(interfaceNetwork) && interfaceIp == old(interfaceIp)
      ensures interfaceTenant == old(interfaceTenant) && portCache == old(portCache)
    {
      var own := RoutesOf(routes, block.id);
      ghost var pending0 := pending;
      for i := 0 to |own|
        invariant pending == pending0 + RouteRows(block, own[..i])
        invariant interfaceNetwork == old(interfaceNetwork) && interfaceIp == old(interfaceIp)
        invariant interfaceTenant == old(interfaceTenant) && portCache == old(portCache)
      {
        RouteRowsStep(block, own, i);
        AppendAssoc(pending0, RouteRows(block, own[..i]), [RouteRow(RouteOf(block, own[i]))]);
        pending := pending + [RouteRow(RouteOf(block, own[i]))];
      }
      assert own[..|own|] == own;
    }

    /** `migrate_allocatable_ips` for one block: one deallocated IP record per allocatable
        address of the block. `migrate_networks` never calls it. */
    method MigrateAllocatableIps(block: IpBlock, ips: seq<AllocatableIp>)
      modifies this
      ensures pending == old(pending) + AllocatableRows(block, AllocatableOf(ips, block.id))
      ensures interfaceNetwork == old(interfaceNetwork) && interfaceIp == old(interfaceIp)
      ensures interfaceTenant == old(interfaceTenant) && portCache == old(portCache)
    {
      var own := AllocatableOf(ips, block.id);
      ghost var pending0 := pending;
      for i := 0 to |own|
        invariant pending == pending0 + AllocatableRows(block, own[..i])
        invariant interfaceNetwork == old(interfaceNetwork) && interfaceIp == old(interfaceIp)
        invariant interfaceTenant == old(interfaceTenant) && portCache == old(portCache)
      {
        AllocatableRowsStep(block, own, i);
        AppendAssoc(pending0, AllocatableRows(block, own[..i]), [IpRow(AllocatableIpRecordOf(block, own[i]))]);
        pending := pending + [IpRow(AllocatableIpRecordOf(block, own[i]))];
      }
      assert own[..|own|] == own;
    }

    /** One iteration of the third loop of `migrate_networks`: the block's Subnet, then
        `migrate_ips` and `migrate_routes` for it (obligate/obligate.py:96-102). */
    method MigrateBlock(block: IpBlock, routes: seq<IpRoute>, addresses: seq<IpAddress>)
      modifies this
      ensures pending == old(pending) + BlockRows(block, routes, addresses)
      ensures interfaceNetwork == CacheNetworks(old(interfaceNetwork), block.networkId, AddressesOf(addresses, block.id))
      ensures interfaceIp == CacheIps(old(interfaceIp), block, AddressesOf(addresses, block.id))
      ensures interfaceTenant == old(interfaceTenant) && portCache == old(portCache)
    {
      ghost var p0 := pending;
      ghost var ips := IpRows(block, AddressesOf(addresses, block.id));
      ghost var rts := RouteRows(block, RoutesOf(routes, block.id));
      AppendAssoc3(p0, [SubnetRow(SubnetOf(block))], ips, rts);
      pending := pending + [SubnetRow(SubnetOf(block))];
      MigrateIps(block, addresses);
      MigrateRoutes(block, routes);
    }

    /** The third loop of `migrate_networks`, over all blocks in order. */
    method MigrateBlocks(blocks: seq<IpBlock>, routes: seq<IpRoute>, addresses: seq<IpAddress>)
      modifies this
      ensures pending == old(pending) + AllBlockRows(blocks, routes, addresses)
      ensures interfaceNetwork == NetworkCacheAfter(old(interfaceNetwork), blocks, addresses)
      ensures interfaceIp == IpCacheAfter(old(interfaceIp), blocks, addresses)
      ensures interfaceTenant == old(interfaceTenant) && portCache == old(portCache)
    {
      ghost var pending0, networks0, ips0 := pending, interfaceNetwork, interfaceIp;
      for k := 0 to |blocks|
        invariant pending == pending0 + AllBlockRows(blocks[..k], routes, addresses)
        invariant interfaceNetwork == NetworkCacheAfter(networks0, blocks[..k], addresses)
        invariant interfaceIp == IpCacheAfter(ips0, blocks[..k], addresses)
        invariant interfaceTenant == old(interfaceTenant) && portCache == old(portCache)
      {
        AllBlockRowsStep(blocks, k, routes, addresses);
        AppendAssoc(pending0, AllBlockRows(blocks[..k], routes, addresses), BlockRows(blocks[k], routes, addresses));
        NetworkCacheStep(networks0, blocks, k, addresses);
        IpCacheStep(ips0, blocks, k, addresses);
        MigrateBlock(blocks[k], routes, addresses);
      }
      assert blocks[..|blocks|] == blocks;
    }

    /** `migrate_networks`: on a tenant conflict nothing has been added and nothing
        changes; otherwise the grouped Networks are added, then for each block in order
        its Subnet, its IPs and its Routes. */
    method MigrateNetworks(blocks: seq<IpBlock>, routes: seq<IpRoute>, addresses: seq<IpAddress>)
      returns (err: Option<MigrationError>, ghost networks: map<Id, NetworkInfo>, ghost order: seq<Id>)
      requires Valid()
      modifies this
      ensures Valid()
      ensures err.Some? <==> TenantConflict(blocks)
      ensures err.Some? ==> err.value.NetworkTenantConflict?
      ensures err.Some? ==> pending == old(pending) && interfaceNetwork == old(interfaceNetwork)
                            && interfaceIp == old(interfaceIp)
      ensures err.None? ==>
        && FirstSeenGrouping(blocks, networks)
        && NoDuplicates(order) && Elements(order) == NetworkIds(blocks)
        && pending == old(pending) + NetworkRows(networks, order) + AllBlockRows(blocks, routes, addresses)
        && interfaceNetwork == NetworkCacheAfter(old(interfaceNetwork), blocks, addresses)
        && interfaceIp == IpCacheAfter(old(interfaceIp), blocks, addresses)
      ensures interfaceTenant == old(interfaceTenant) && portCache == old(portCache)
    {
      var grouped := GroupNetworks(blocks);
      if grouped.Failure? {
        return Some(grouped.error), map[], [];
      }
      err := None;
      var grouping := grouped.value;
      networks := grouping;
      order := AddNetworks(grouping);
      ghost var networks0, ips0 := interfaceNetwork, interfaceIp;
      CachesAgreeAfterBlocks(networks0, ips0, interfaceTenant, portCache, blocks, addresses);
      MigrateBlocks(blocks, routes, addresses);
    }

    // -------------------------------------------------------------------
    // migrate_interfaces (obligate/obligate.py:173-191)
    // -------------------------------------------------------------------

    /** The body of `migrate_interfaces` for an interface with a cached network
        (obligate/obligate.py:179-188). */
    method AddPort(iface: Interface) returns (port: Port)
      requires iface.id in interfaceNetwork
      modifies this
      ensures interfaceNetwork == old(interfaceNetwork) && interfaceIp == old(interfaceIp)
      ensures fresh(port) && port.BuiltFrom(iface, interfaceNetwork[iface.id])
      ensures port.macAddress == None && port.ipAddresses == []
      ensures interfaceTenant == old(interfaceTenant)[iface.id := iface.tenantId]
      ensures portCache == old(portCache)[iface.id := port]
      ensures pending == old(pending) + [PortRow(port)]
    {
      var networkId := interfaceNetwork[iface.id];
      interfaceTenant := interfaceTenant[iface.id := iface.tenantId];
      port := new Port(iface, networkId);
      portCache := portCache[iface.id := port];
      pending := pending + [PortRow(port)];
    }

    /** `migrate_interfaces`: an interface without a cached network is only counted;
        every other one records its tenant and gets a new port on the cached network,
        which replaces any earlier port of that id and is handed to the session. */
    method MigrateInterfaces(interfaces: seq<Interface>) returns (orphans: nat, ghost created: seq<Port>)
      requires Valid()
      modifies this
      ensures Valid()
      ensures interfaceNetwork == old(interfaceNetwork) && interfaceIp == old(interfaceIp)
      ensures orphans == NoNetworkCount(interfaces, interfaceNetwork)
      ensures AllBuiltFrom(created, WithNetwork(interfaces, interfaceNetwork), interfaceNetwork)
      ensures forall p :: p in created ==> fresh(p) && p.macAddress == None && p.ipAddresses == []
      ensures interfaceTenant == TenantsAfter(old(interfaceTenant), WithNetwork(interfaces, interfaceNetwork))
      ensures portCache == PortCacheAfter(old(portCache), WithNetwork(interfaces, interfaceNetwork), created)
      ensures pending == old(pending) + PortRows(created)
    {
      ghost var tenants0, ports0, pending0 := interfaceTenant, portCache, pending;
      ghost var attached: seq<Interface> := [];
      orphans := 0;
      created := [];
      for i := 0 to |interfaces|
        invariant interfaceNetwork == old(interfaceNetwork) && interfaceIp == old(interfaceIp)
        invariant InterfacesUpTo(interfaces, i, interfaceNetwork, tenants0, ports0, pending0, attached, created,
                                 orphans, interfaceTenant, portCache, pending)
        invariant forall p :: p in created ==> fresh(p) && p.macAddress == None && p.ipAddresses == []
      {
        var iface := interfaces[i];
        if iface.id !in interfaceNetwork {
          InterfacesSkip(interfaces, i, interfaceNetwork, tenants0, ports0, pending0, attached, created,
                         orphans, interfaceTenant, portCache, pending);
          orphans := orphans + 1;
        } else {
          ghost var tenants, ports, rows := interfaceTenant, portCache, pending;
          var port := AddPort(iface);
          InterfacesAdd(interfaces, i, interfaceNetwork, tenants0, ports0, pending0, attached, created,
                        orphans, tenants, ports, rows, port);
          attached := attached + [iface];
          created := created + [port];
        }
      }
      assert interfaces[..|interfaces|] == interfaces;
      CachesAgreeAfterInterfaces(interfaceNetwork, interfaceIp, tenants0, ports0, attached, created);
    }

    // -------------------------------------------------------------------
    // associate_ips_with_ports (obligate/obligate.py:194-198)
    // -------------------------------------------------------------------

    /** `associate_ips_with_ports`: every cached port, visited in the dictionary's
        unspecified order, gets each IP record of its interface appended once. */
    method AssociateIpsWithPorts()
      requires Valid()
      modifies portCache.Values
      ensures forall k :: k in portCache ==>
        ExtendsWith(old(portCache[k].ipAddresses), portCache[k].ipAddresses, interfaceIp[Some(k)])
      ensures forall k :: k in portCache ==> portCache[k].macAddress == old(portCache[k].macAddress)
    {
      var left := portCache.Keys;
      while left != {}
        invariant left <= portCache.Keys
        invariant forall k :: k in portCache && k !in left ==>
          ExtendsWith(old(portCache[k].ipAddresses), portCache[k].ipAddresses, interfaceIp[Some(k)])
        invariant forall k :: k in left ==> portCache[k].ipAddresses == old(portCache[k].ipAddresses)
        invariant forall k :: k in portCache ==> portCache[k].macAddress == old(portCache[k].macAddress)
        decreases |left|
      {
        var k :| k in left;
        var port := portCache[k];
        ghost var before := port.ipAddresses;
        ghost var added := port.AppendIps(interfaceIp[Some(k)]);
        assert port.ipAddresses[..|before|] == before;
        assert port.ipAddresses[|before|..] == added;
        left := left - {k};
      }
    }

    // -------------------------------------------------------------------
    // migrate_macs (obligate/obligate.py:249-282)
    // -------------------------------------------------------------------

    /** The body of the MAC loop of `migrate_macs` for a MAC whose interface has a
        tenant (obligate/obligate.py:273-280). */
    method AssignMac(mac: MacAddress, rangeId: Id)
      requires Valid() && mac.interfaceId.Some? && mac.interfaceId.value in interfaceTenant
      modifies this, portCache[mac.interfaceId.value]
      ensures Valid()
      ensures interfaceNetwork == old(interfaceNetwork) && interfaceIp == old(interfaceIp)
      ensures interfaceTenant == old(interfaceTenant) && portCache == old(portCache)
      ensures pending == old(pending) + [MacRow(MacRecordOf(mac, interfaceTenant, rangeId))]
      ensures forall k :: k in portCache ==>
        portCache[k].macAddress == if Some(k) == mac.interfaceId then Some(mac.address) else old(portCache[k].macAddress)
      ensures forall k :: k in portCache ==> portCache[k].ipAddresses == old(portCache[k].ipAddresses)
    {
      var k := mac.interfaceId.value;
      var record := MacRecord(interfaceTenant[k], mac.createdAt, rangeId, mac.address);
      var port := portCache[k];
      port.macAddress := Some(record.address);
      pending := pending + [MacRow(record)];
    }

    /** One iteration of the MAC loop of `migrate_macs` (obligate/obligate.py:269-280)
        for a MAC that does not stop the run: a MAC without a cached network is counted,
        any other one is assigned. */
    method MigrateMac(macs: seq<MacAddress>, i: nat, rangeId: Id, ghost pending0: seq<Row>, skipped: nat)
      returns (skippedAfter: nat)
      requires i < |macs| && Valid() && !UnknownInterfaceOf(macs[i], interfaceNetwork, interfaceTenant)
      requires MacsUpTo(macs, i, interfaceNetwork, interfaceTenant, rangeId, pending0, skipped, pending)
      modifies this, portCache.Values
      ensures Valid()
      ensures interfaceNetwork == old(interfaceNetwork) && interfaceIp == old(interfaceIp)
      ensures interfaceTenant == old(interfaceTenant) && portCache == old(portCache)
      ensures MacsUpTo(macs, i + 1, interfaceNetwork, interfaceTenant, rangeId, pending0, skippedAfter, pending)
      ensures forall k :: k in portCache ==> portCache[k].ipAddresses == old(portCache[k].ipAddresses)
      ensures forall k :: k in portCache ==>
        portCache[k].macAddress == if macs[i].interfaceId == Some(k) then Some(macs[i].address) else old(portCache[k].macAddress)
    {
      var mac := macs[i];
      if !OnNetwork(mac, interfaceNetwork) {
        MacsSkip(macs, i, interfaceNetwork, interfaceTenant, rangeId, pending0, skipped, pending);
        skippedAfter := skipped + 1;
      } else {
        MacsAssign(macs, i, interfaceNetwork, interfaceTenant, rangeId, pending0, skipped, pending);
        AssignMac(mac, rangeId);
        skippedAfter := skipped;
      }
    }

    /** The MAC loop of `migrate_macs` (obligate/obligate.py:268-280). It handles the
        MACs in order up to `done`: all of them on success, otherwise up to the first
        one whose interface has a network but no tenant, where it stops. */
    method MigrateMacList(macs: seq<MacAddress>, rangeId: Id) returns (r: Result<nat, MigrationError>, ghost done: nat)
      requires Valid()
      modifies this, portCache.Values
      ensures Valid()
      ensures interfaceNetwork == old(interfaceNetwork) && interfaceIp == old(interfaceIp)
      ensures interfaceTenant == old(interfaceTenant) && portCache == old(portCache)
      ensures forall k :: k in portCache ==> portCache[k].ipAddresses == old(portCache[k].ipAddresses)
      ensures done <= |macs| && MacsKnown(macs[..done], interfaceNetwork, interfaceTenant)
      ensures pending == old(pending) + MacRows(macs[..done], interfaceNetwork, interfaceTenant, rangeId)
      ensures forall k :: k in portCache ==>
        portCache[k].macAddress == MacAfter(old(portCache[k].macAddress), macs[..done], k)
      ensures r.Success? <==> done == |macs|
      ensures r.Success? ==> r.value == SkippedMacs(macs, interfaceNetwork)
      ensures r.Failure? ==>
        && UnknownInterfaceOf(macs[done], interfaceNetwork, interfaceTenant)
        && r.error == UnknownInterface(macs[done].interfaceId.value)
    {
      ghost var pending0 := pending;
      var skipped := 0;
      for i := 0 to |macs|
        invariant interfaceNetwork == old(interfaceNetwork) && interfaceIp == old(interfaceIp)
        invariant interfaceTenant == old(interfaceTenant) && portCache == old(portCache)
        invariant Valid()
        invariant MacsUpTo(macs, i, interfaceNetwork, interfaceTenant, rangeId, pending0, skipped, pending)
        invariant forall k :: k in portCache ==>
          portCache[k].macAddress == MacAfter(old(portCache[k].macAddress), macs[..i], k)
        invariant forall k :: k in portCache ==> portCache[k].ipAddresses == old(portCache[k].ipAddresses)
      {
        var mac := macs[i];
        if UnknownInterfaceOf(mac, interfaceNetwork, interfaceTenant) {
          return Failure(UnknownInterface(mac.interfaceId.value)), i;
        }
        forall k | k in portCache
          ensures MacAfter(old(portCache[k].macAddress), macs[..i + 1], k)
               == if mac.interfaceId == Some(k) then Some(mac.address) else MacAfter(old(portCache[k].macAddress), macs[..i], k)
        {
          MacAfterStep(old(portCache[k].macAddress), macs, i, k);
        }
        skipped := MigrateMac(macs, i, rangeId, pending0, skipped);
      }
      assert macs[..|macs|] == macs;
      return Success(skipped), |macs|;
    }

    /** `migrate_macs`: only the first legacy range is migrated. Its absence and a range
        text `_to_mac_range` cannot convert stop the run before anything is added. Then
        every MAC whose interface has a cached network gives a MAC row with the
        interface's tenant and becomes its port's MAC, the last one winning; the others
        are counted. A MAC whose interface has a network but no tenant stops the run. */
    method MigrateMacs(ranges: seq<MacAddressRange>, macs: seq<MacAddress>)
      returns (r: Result<nat, MigrationError>, ghost done: nat)
      requires Valid()
      modifies this, portCache.Values
      ensures Valid()
      ensures interfaceNetwork == old(interfaceNetwork) && interfaceIp == old(interfaceIp)
      ensures interfaceTenant == old(interfaceTenant) && portCache == old(portCache)
      ensures forall k :: k in portCache ==> portCache[k].ipAddresses == old(portCache[k].ipAddresses)
      ensures (r.Failure? && r.error.NoMacRange?) <==> |ranges| == 0
      ensures (r.Failure? && r.error.BadMacRange?) <==> |ranges| > 0 && ToMacRange(ranges[0].cidr).Failure?
      ensures r.Failure? && r.error.BadMacRange? ==> r.error.reason == ToMacRange(ranges[0].cidr).error
      ensures r.Failure? && (r.error.NoMacRange? || r.error.BadMacRange?) ==>
        pending == old(pending) && forall k :: k in portCache ==> portCache[k].macAddress == old(portCache[k].macAddress)
      ensures r.Failure? ==> !r.error.NetworkTenantConflict?
      ensures |ranges| > 0 && ToMacRange(ranges[0].cidr).Success? ==>
        && done <= |macs| && MacsKnown(macs[..done], interfaceNetwork, interfaceTenant)
        && pending == old(pending) + [MacRangeRow(MacRangeRecordOf(ranges[0], ToMacRange(ranges[0].cidr).value))]
                      + MacRows(macs[..done], interfaceNetwork, interfaceTenant, ranges[0].id)
        && (forall k :: k in portCache ==>
              portCache[k].macAddress == MacAfter(old(portCache[k].macAddress), macs[..done], k))
        && (r.Success? <==> done == |macs|)
        && (r.Success? ==> r.value == SkippedMacs(macs, interfaceNetwork))
        && (r.Failure? ==>
              && UnknownInterfaceOf(macs[done], interfaceNetwork, interfaceTenant)
              && r.error == UnknownInterface(macs[done].interfaceId.value))
    {
      done := 0;
      if |ranges| == 0 {
        return Failure(NoMacRange), 0;
      }
      var range := ranges[0];
      var bounds := ToMacRange(range.cidr);
      if bounds.Failure? {
        return Failure(BadMacRange(bounds.error)), 0;
      }
      pending := pending + [MacRangeRow(MacRangeRecordOf(range, bounds.value))];
      r, done := MigrateMacList(macs, range.id);
    }
  }
}
