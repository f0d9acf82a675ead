/** `migrate` (obligate/obligate.py:290-304): the four stages in order on fresh, empty
    caches, stopping at the first exception. Committing the session is not modelled:
    the rows handed to `session.add` are the result. */
module Pipeline {
  import opened Common
  import opened Rows
  import opened MacRange
  import opened MigrationSpec
  import opened PortSpec
  import opened Migration

  /** What the stages report: the interfaces without a network and the MACs skipped. */
  datatype Counts = Counts(orphanInterfaces: nat, skippedMacs: nat)

  /** `interface_network` once `migrate_networks` has run on the legacy tables. */
  function InterfaceNetworks(db: SourceDb): map<Id, Id>
  {
    NetworkCacheAfter(map[], db.blocks, db.addresses)
  }

  /** `interface_ip` once `migrate_networks` has run on the legacy tables. */
  function InterfaceIps(db: SourceDb): map<Option<Id>, set<IpRecord>>
  {
    IpCacheAfter(map[], db.blocks, db.addresses)
  }

  /** `interface_tenant` once `migrate_interfaces` has run on the legacy tables. */
  function InterfaceTenants(db: SourceDb): map<Id, Id>
  {
    TenantsAfter(map[], WithNetwork(db.interfaces, InterfaceNetworks(db)))
  }

  /** After `migrate_networks`, the cached set of an interface reference holds exactly
      the records created for the addresses on it, in every block. */
  lemma InterfaceIpsExactly(db: SourceDb, k: Option<Id>, r: IpRecord)
    ensures r in CachedIps(InterfaceIps(db), k)
        <==> exists j, a :: 0 <= j < |db.blocks| && a in AddressesOf(db.addresses, db.blocks[j].id)
                            && a.interfaceId == k && r == IpRecordOf(db.blocks[j], a)
  {
    if r in CachedIps(InterfaceIps(db), k) {
      IpCacheHoldsOnlyCreated(map[], db.blocks, db.addresses, k, r);
    }
    if exists j, a :: 0 <= j < |db.blocks| && a in AddressesOf(db.addresses, db.blocks[j].id)
                      && a.interfaceId == k && r == IpRecordOf(db.blocks[j], a) {
      var j, a :| 0 <= j < |db.blocks| && a in AddressesOf(db.addresses, db.blocks[j].id)
                  && a.interfaceId == k && r == IpRecordOf(db.blocks[j], a);
      IpCacheHoldsCreated(map[], db.blocks, db.addresses, j, a);
    }
  }

  /** After `migrate_networks`, an interface gets the network of the first block with an
      address on it, and an interface no address is on gets none. */
  lemma InterfaceNetworksFirstSeen(db: SourceDb, k: Id)
    ensures (exists j :: 0 <= j < |db.blocks| && k in AttachedIds(AddressesOf(db.addresses, db.blocks[j].id)))
            <==> k in InterfaceNetworks(db)
    ensures forall j :: 0 <= j < |db.blocks| && k in AttachedIds(AddressesOf(db.addresses, db.blocks[j].id))
                        && (forall i :: 0 <= i < j ==> k !in AttachedIds(AddressesOf(db.addresses, db.blocks[i].id)))
                        ==> k in InterfaceNetworks(db) && InterfaceNetworks(db)[k] == db.blocks[j].networkId
  {
    forall j | 0 <= j < |db.blocks| && k in AttachedIds(AddressesOf(db.addresses, db.blocks[j].id))
                && (forall i :: 0 <= i < j ==> k !in AttachedIds(AddressesOf(db.addresses, db.blocks[i].id)))
      ensures k in InterfaceNetworks(db) && InterfaceNetworks(db)[k] == db.blocks[j].networkId
    {
      NetworkCacheFirstWins(map[], db.blocks, db.addresses, k, j);
    }
    if exists j :: 0 <= j < |db.blocks| && k in AttachedIds(AddressesOf(db.addresses, db.blocks[j].id)) {
      var j := FirstAttaching(db, k);
      NetworkCacheFirstWins(map[], db.blocks, db.addresses, k, j);
    } else {
      NetworkCacheAbsent(map[], db.blocks, db.addresses, k);
    }
  }

  /** The first block with an address on `k`. */
  function FirstAttaching(db: SourceDb, k: Id): (j: int)
    requires exists j :: 0 <= j < |db.blocks| && k in AttachedIds(AddressesOf(db.addresses, db.blocks[j].id))
    ensures 0 <= j < |db.blocks| && k in AttachedIds(AddressesOf(db.addresses, db.blocks[j].id))
    ensures forall i :: 0 <= i < j ==> k !in AttachedIds(AddressesOf(db.addresses, db.blocks[i].id))
  {
    FirstAttachingFrom(db, k, 0)
  }

  function FirstAttachingFrom(db: SourceDb, k: Id, from: nat): (j: int)
    requires from <= |db.blocks|
    requires forall i :: 0 <= i < from ==> k !in AttachedIds(AddressesOf(db.addresses, db.blocks[i].id))
    requires exists j :: from <= j < |db.blocks| && k in AttachedIds(AddressesOf(db.addresses, db.blocks[j].id))
    ensures from <= j < |db.blocks| && k in AttachedIds(AddressesOf(db.addresses, db.blocks[j].id))
    ensures forall i :: 0 <= i < j ==> k !in AttachedIds(AddressesOf(db.addresses, db.blocks[i].id))
    decreases |db.blocks| - from
  {
    if k in AttachedIds(AddressesOf(db.addresses, db.blocks[from].id)) then from
    else FirstAttachingFrom(db, k, from + 1)
  }

  /** An interface with a network in the interface table always gets a tenant. */
  lemma InterfaceTenantsCover(db: SourceDb, iface: Interface)
    requires iface in db.interfaces && iface.id in InterfaceNetworks(db)
    ensures iface.id in InterfaceTenants(db)
  {
    assert iface in WithNetwork(db.interfaces, InterfaceNetworks(db));
  }

  /** `migrate_interfaces` then `associate_ips_with_ports` on a state with no tenant
      and no port yet: every cached port is new, has no MAC and holds each IP record of
      its interface exactly once. */
  method AttachPorts(state: MigrationState, interfaces: seq<Interface>)
    returns (orphans: nat, ghost created: seq<Port>)
    requires state.Valid() && state.interfaceTenant == map[] && state.portCache == map[]
    modifies state
    ensures state.Valid()
    ensures state.interfaceNetwork == old(state.interfaceNetwork) && state.interfaceIp == old(state.interfaceIp)
    ensures orphans == NoNetworkCount(interfaces, state.interfaceNetwork)
    ensures AllBuiltFrom(created, WithNetwork(interfaces, state.interfaceNetwork), state.interfaceNetwork)
    ensures state.interfaceTenant == TenantsAfter(map[], WithNetwork(interfaces, state.interfaceNetwork))
    ensures state.portCache == PortCacheAfter(map[], WithNetwork(interfaces, state.interfaceNetwork), created)
    ensures state.pending == old(state.pending) + PortRows(created)
    ensures forall k :: k in state.portCache ==>
      && fresh(state.portCache[k]) && state.portCache[k].macAddress == None
      && Enumerates(state.portCache[k].ipAddresses, state.interfaceIp[Some(k)])
  {
    orphans, created := state.MigrateInterfaces(interfaces);
    forall k | k in state.portCache
      ensures state.portCache[k] in created
    {
      CachedPortIsCreated(WithNetwork(interfaces, state.interfaceNetwork), created, k);
    }
    state.AssociateIpsWithPorts();
    forall k | k in state.portCache
      ensures Enumerates(state.portCache[k].ipAddresses, state.interfaceIp[Some(k)])
    {
      assert state.portCache[k].ipAddresses[0..] == state.portCache[k].ipAddresses;
    }
  }

  /** The first three stages on fresh, empty caches: `migrate_networks`, then
      `migrate_interfaces` and `associate_ips_with_ports`. A tenant conflict stops the run
      before any row is added. Otherwise the rows are the Networks, then per block its
      Subnet, IPs and Routes, then the Ports, and every port is new, has no MAC and holds
      each IP record of its interface exactly once. */
  method MigratePorts(db: SourceDb)
    returns (err: Option<MigrationError>, state: MigrationState, orphans: nat,
             ghost grouping: map<Id, NetworkInfo>, ghost order: seq<Id>, ghost created: seq<Port>)
    ensures fresh(state) && state.Valid()
    ensures err.Some? <==> TenantConflict(db.blocks)
    ensures err.Some? ==> err.value.NetworkTenantConflict? && state.pending == []
    ensures err.None? ==>
      && state.interfaceNetwork == InterfaceNetworks(db) && state.interfaceIp == InterfaceIps(db)
      && state.interfaceTenant == InterfaceTenants(db)
      && FirstSeenGrouping(db.blocks, grouping)
      && NoDuplicates(order) && Elements(order) == NetworkIds(db.blocks)
      && orphans == NoNetworkCount(db.interfaces, InterfaceNetworks(db))
      && AllBuiltFrom(created, WithNetwork(db.interfaces, InterfaceNetworks(db)), InterfaceNetworks(db))
      && state.portCache == PortCacheAfter(map[], WithNetwork(db.interfaces, InterfaceNetworks(db)), created)
      && state.pending == NetworkRows(grouping, order) + AllBlockRows(db.blocks, db.routes, db.addresses)
                          + PortRows(created)
    ensures forall k :: k in state.portCache ==>
      && fresh(state.portCache[k]) && state.portCache[k].macAddress == None
      && Enumerates(state.portCache[k].ipAddresses, state.interfaceIp[Some(k)])
  {
    state := new MigrationState();
    orphans := 0;
    err, grouping, order := state.MigrateNetworks(db.blocks, db.routes, db.addresses);
    if err.Some? {
      return err, state, 0, grouping, order, [];
    }
    AppendToEmpty(NetworkRows(grouping, order), AllBlockRows(db.blocks, db.routes, db.addresses));
    orphans, created := AttachPorts(state, db.interfaces);
  }

  /** The whole migration: the port stages, then `migrate_macs`. Beyond a tenant
      conflict it fails exactly when there is no MAC range, the first range cannot be
      converted, or a MAC names an interface that has a network, from its addresses, but
      is missing from the interface table. On success the MAC range row and the MAC rows
      follow the port rows, and every port holds the last MAC of its interface. */
  method Migrate(db: SourceDb)
    returns (r: Result<Counts, MigrationError>, state: MigrationState,
             ghost grouping: map<Id, NetworkInfo>, ghost order: seq<Id>, ghost created: seq<Port>)
    ensures fresh(state) && state.Valid()
    ensures (r.Failure? && r.error.NetworkTenantConflict?) <==> TenantConflict(db.blocks)
    ensures TenantConflict(db.blocks) ==> state.pending == []
    ensures !TenantConflict(db.blocks) ==>
      && state.interfaceNetwork == InterfaceNetworks(db) && state.interfaceIp == InterfaceIps(db)
      && state.interfaceTenant == InterfaceTenants(db)
      && FirstSeenGrouping(db.blocks, grouping)
      && NoDuplicates(order) && Elements(order) == NetworkIds(db.blocks)
      && AllBuiltFrom(created, WithNetwork(db.interfaces, InterfaceNetworks(db)), InterfaceNetworks(db))
      && state.portCache == PortCacheAfter(map[], WithNetwork(db.interfaces, InterfaceNetworks(db)), created)
    ensures (r.Failure? && r.error.NoMacRange?) <==> !TenantConflict(db.blocks) && |db.macRanges| == 0
    ensures (r.Failure? && r.error.BadMacRange?) <==>
      !TenantConflict(db.blocks) && |db.macRanges| > 0 && ToMacRange(db.macRanges[0].cidr).Failure?
    ensures r.Success? <==>
      && !TenantConflict(db.blocks) && |db.macRanges| > 0 && ToMacRange(db.macRanges[0].cidr).Success?
      && MacsKnown(db.macs, InterfaceNetworks(db), InterfaceTenants(db))
    ensures r.Failure? && r.error.UnknownInterface? ==>
      && r.error.interfaceId in InterfaceNetworks(db)
      && forall i :: i in db.interfaces ==> i.id != r.error.interfaceId
    ensures r.Success? ==>
      && r.value == Counts(NoNetworkCount(db.interfaces, InterfaceNetworks(db)),
                           SkippedMacs(db.macs, InterfaceNetworks(db)))
      && state.pending == NetworkRows(grouping, order) + AllBlockRows(db.blocks, db.routes, db.addresses)
                          + PortRows(created)
                          + [MacRangeRow(MacRangeRecordOf(db.macRanges[0], ToMacRange(db.macRanges[0].cidr).value))]
                          + MacRows(db.macs, InterfaceNetworks(db), InterfaceTenants(db), db.macRanges[0].id)
    ensures r.Success? ==> forall k :: k in state.portCache ==>
      && Enumerates(state.portCache[k].ipAddresses, state.interfaceIp[Some(k)])
      && state.portCache[k].macAddress == MacAfter(None, db.macs, k)
  {
    var err, orphans;
    err, state, orphans, grouping, order, created := MigratePorts(db);
    if err.Some? {
      return Failure(err.value), state, grouping, order, created;
    }
    var macs, done := state.MigrateMacs(db.macRanges, db.macs);
    if |db.macRanges| > 0 && ToMacRange(db.macRanges[0].cidr).Success? {
      MacsKnownUpTo(db.macs, state.interfaceNetwork, state.interfaceTenant, done);
    }
    if macs.Failure? {
      if macs.error.UnknownInterface? {
        forall i | i in db.interfaces && i.id in InterfaceNetworks(db)
          ensures i.id in InterfaceTenants(db)
        {
          InterfaceTenantsCover(db, i);
        }
      }
      return Failure(macs.error), state, grouping, order, created;
    }
    assert db.macs[..done] == db.macs;
    r := Success(Counts(orphans, macs.value));
  }
}
