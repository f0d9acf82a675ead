/** What each migration stage computes, stated on values: the network grouping of
    `migrate_networks`, the cache contents `migrate_ips` leaves behind, the rows each
    stage hands to the session, and the counters it reports. The stages themselves,
    which work by mutating the caches, are in module Migration and are proved against
    these functions. */
module MigrationSpec {
  import opened Common
  import opened Addressing
  import opened Rows

  // ---------------------------------------------------------------------
  // Grouping blocks into networks (obligate/obligate.py:76-94)
  // ---------------------------------------------------------------------

  /** The tenant and name recorded for a network. */
  datatype NetworkInfo = NetworkInfo(tenantId: Id, name: string)

  function InfoOf(b: IpBlock): NetworkInfo
  {
    NetworkInfo(b.tenantId, b.networkName)
  }

  /** Two blocks of one network belong to different tenants. */
  predicate TenantConflict(blocks: seq<IpBlock>)
  {
    exists i, j :: 0 <= i < |blocks| && 0 <= j < |blocks| && blocks[i].networkId == blocks[j].networkId
      && blocks[i].tenantId != blocks[j].tenantId
  }

  /** Block `i` is the first block of its network. */
  predicate FirstOfNetwork(blocks: seq<IpBlock>, i: int)
  {
    0 <= i < |blocks| && forall j :: 0 <= j < i ==> blocks[j].networkId != blocks[i].networkId
  }

  /** `networks` has one entry per distinct network id of the blocks, holding the tenant
      and name of the first block of that network. */
  predicate FirstSeenGrouping(blocks: seq<IpBlock>, networks: map<Id, NetworkInfo>)
  {
    && networks.Keys == NetworkIds(blocks)
    && forall i :: 0 <= i < |blocks| && FirstOfNetwork(blocks, i) ==> networks[blocks[i].networkId] == InfoOf(blocks[i])
  }

  /** Every network of the blocks has a first block. */
  lemma {:induction false} FirstOfNetworkExists(blocks: seq<IpBlock>, n: Id)
    requires n in NetworkIds(blocks)
    ensures exists i :: FirstOfNetwork(blocks, i) && blocks[i].networkId == n
    decreases |blocks|
  {
    var k := |blocks| - 1;
    var prefix := blocks[..k];
    if n in NetworkIds(prefix) {
      FirstOfNetworkExists(prefix, n);
      var i :| FirstOfNetwork(prefix, i) && prefix[i].networkId == n;
      assert FirstOfNetwork(blocks, i);
    } else {
      forall j | 0 <= j < k ensures blocks[j].networkId != n {
        assert prefix[j] == blocks[j];
      }
      var b :| b in blocks && b.networkId == n;
      var j :| 0 <= j < |blocks| && blocks[j] == b;
      assert j == k;
      assert FirstOfNetwork(blocks, k);
    }
  }

  /** There is only one first-seen grouping of a sequence of blocks. */
  lemma FirstSeenGroupingUnique(blocks: seq<IpBlock>, g: map<Id, NetworkInfo>, h: map<Id, NetworkInfo>)
    requires FirstSeenGrouping(blocks, g) && FirstSeenGrouping(blocks, h)
    ensures g == h
  {
    forall n | n in g ensures g[n] == h[n] {
      FirstOfNetworkExists(blocks, n);
    }
  }

  /** Without a conflict, every block of a network carries the tenant recorded for it. */
  lemma GroupingTenant(blocks: seq<IpBlock>, networks: map<Id, NetworkInfo>, i: int)
    requires FirstSeenGrouping(blocks, networks) && !TenantConflict(blocks)
    requires 0 <= i < |blocks|
    ensures blocks[i].networkId in networks && networks[blocks[i].networkId].tenantId == blocks[i].tenantId
  {
    assert blocks[i] in blocks;
    FirstOfNetworkExists(blocks, blocks[i].networkId);
  }

  /** The grouping loop's state after the first `k` blocks: the networks seen so far,
      from their first blocks, and every block so far agreeing with its network's tenant. */
  predicate GroupedUpTo(blocks: seq<IpBlock>, k: int, networks: map<Id, NetworkInfo>)
    requires 0 <= k <= |blocks|
  {
    && networks.Keys == NetworkIds(blocks[..k])
    && (forall i :: 0 <= i < k && FirstOfNetwork(blocks, i) ==> networks[blocks[i].networkId] == InfoOf(blocks[i]))
    && (forall i :: 0 <= i < k ==> networks[blocks[i].networkId].tenantId == blocks[i].tenantId)
  }

  lemma NetworkIdsPrefix(blocks: seq<IpBlock>, k: int)
    requires 0 <= k < |blocks|
    ensures NetworkIds(blocks[..k + 1]) == NetworkIds(blocks[..k]) + {blocks[k].networkId}
  {
    assert blocks[..k + 1] == blocks[..k] + [blocks[k]];
  }

  /** The first `k` blocks include one of network `n` when `n` is among their ids. */
  lemma EarlierOfNetwork(blocks: seq<IpBlock>, k: int, n: Id) returns (j: int)
    requires 0 <= k <= |blocks| && n in NetworkIds(blocks[..k])
    ensures 0 <= j < k && blocks[j].networkId == n
  {
    var b :| b in blocks[..k] && b.networkId == n;
    j :| 0 <= j < k && blocks[..k][j] == b;
  }

  /** A block of a network not seen before is the first of its network. */
  lemma GroupNewNetwork(blocks: seq<IpBlock>, k: int, networks: map<Id, NetworkInfo>)
    requires 0 <= k < |blocks| && GroupedUpTo(blocks, k, networks)
    requires blocks[k].networkId !in networks
    ensures GroupedUpTo(blocks, k + 1, networks[blocks[k].networkId := InfoOf(blocks[k])])
  {
    GroupNewKeys(blocks, k, networks);
    GroupNewFirsts(blocks, k, networks);
    GroupNewTenants(blocks, k, networks);
  }

  lemma GroupNewKeys(blocks: seq<IpBlock>, k: int, networks: map<Id, NetworkInfo>)
    requires 0 <= k < |blocks| && GroupedUpTo(blocks, k, networks)
    requires blocks[k].networkId !in networks
    ensures networks[blocks[k].networkId := InfoOf(blocks[k])].Keys == NetworkIds(blocks[..k+1])
  {
    NetworkIdsPrefix(blocks, k);
  }
  lemma GroupNewFirsts(blocks: seq<IpBlock>, k: int, networks: map<Id, NetworkInfo>)
    requires 0 <= k < |blocks| && GroupedUpTo(blocks, k, networks)
    requires blocks[k].networkId !in networks
    ensures var grown := networks[blocks[k].networkId := InfoOf(blocks[k])];
      forall i :: 0 <= i < k + 1 && FirstOfNetwork(blocks, i) ==> grown[blocks[i].networkId] == InfoOf(blocks[i])
  {
    NewNetworkIsFirst(blocks, k, networks);
    var n := blocks[k].networkId;
    var grown := networks[n := InfoOf(blocks[k])];
    forall i | 0 <= i < k + 1 && FirstOfNetwork(blocks, i) ensures grown[blocks[i].networkId] == InfoOf(blocks[i]) {
      if i < k { NewNetworkKeepsOthers(blocks, k, networks, i); }
    }
  }
  lemma GroupNewTenants(blocks: seq<IpBlock>, k: int, networks: map<Id, NetworkInfo>)
    requires 0 <= k < |blocks| && GroupedUpTo(blocks, k, networks)
    requires blocks[k].networkId !in networks
    ensures var grown := networks[blocks[k].networkId := InfoOf(blocks[k])];
      forall i :: 0 <= i < k + 1 ==> grown[blocks[i].networkId].tenantId == blocks[i].tenantId
  {
    var n := blocks[k].networkId;
    var grown := networks[n := InfoOf(blocks[k])];
    forall i | 0 <= i < k + 1 ensures grown[blocks[i].networkId].tenantId == blocks[i].tenantId {
      if i < k { NewNetworkKeepsOthers(blocks, k, networks, i); }
    }
  }

  lemma NewNetworkIsFirst(blocks: seq<IpBlock>, k: int, networks: map<Id, NetworkInfo>)
    requires 0 <= k < |blocks| && networks.Keys == NetworkIds(blocks[..k])
    requires blocks[k].networkId !in networks
    ensures FirstOfNetwork(blocks, k)
  {
    forall j | 0 <= j < k ensures blocks[j].networkId != blocks[k].networkId {
      assert blocks[..k][j] in blocks[..k];
    }
  }

  lemma NewNetworkKeepsOthers(blocks: seq<IpBlock>, k: int, networks: map<Id, NetworkInfo>, i: int)
    requires 0 <= k < |blocks| && networks.Keys == NetworkIds(blocks[..k])
    requires blocks[k].networkId !in networks
    requires 0 <= i < k
    ensures blocks[i].networkId in networks && blocks[i].networkId != blocks[k].networkId
  {
    assert blocks[..k][i] in blocks[..k];
  }

  /** A block agreeing with its already recorded network adds nothing. */
  lemma GroupKnownNetwork(blocks: seq<IpBlock>, k: int, networks: map<Id, NetworkInfo>)
    requires 0 <= k < |blocks| && GroupedUpTo(blocks, k, networks)
    requires blocks[k].networkId in networks && networks[blocks[k].networkId].tenantId == blocks[k].tenantId
    ensures GroupedUpTo(blocks, k + 1, networks)
  {
    NetworkIdsPrefix(blocks, k);
    var j := EarlierOfNetwork(blocks, k, blocks[k].networkId);
    assert !FirstOfNetwork(blocks, k);
  }

  /** A block disagreeing with its recorded network's tenant is a conflict. */
  lemma GroupConflict(blocks: seq<IpBlock>, k: int, networks: map<Id, NetworkInfo>)
    requires 0 <= k < |blocks| && GroupedUpTo(blocks, k, networks)
    requires blocks[k].networkId in networks && networks[blocks[k].networkId].tenantId != blocks[k].tenantId
    ensures TenantConflict(blocks) && blocks[k].networkId in NetworkIds(blocks)
  {
    var j := EarlierOfNetwork(blocks, k, blocks[k].networkId);
    assert blocks[k] in blocks;
  }

  /** After all blocks without a conflict, the grouping is the first-seen one. */
  lemma GroupedAll(blocks: seq<IpBlock>, networks: map<Id, NetworkInfo>)
    requires GroupedUpTo(blocks, |blocks|, networks)
    ensures FirstSeenGrouping(blocks, networks) && !TenantConflict(blocks)
  {
    assert blocks[..|blocks|] == blocks;
    forall i, j | 0 <= i < |blocks| && 0 <= j < |blocks| && blocks[i].networkId == blocks[j].networkId
      ensures blocks[i].tenantId == blocks[j].tenantId
    {
    }
  }

  /** The Network rows for the grouped networks, in the order `order` visits them. */
  function NetworkRows(networks: map<Id, NetworkInfo>, order: seq<Id>): (rows: seq<Row>)
    requires forall n :: n in order ==> n in networks
    ensures |rows| == |order|
    decreases |order|
  {
    if |order| == 0 then []
    else
      var n := order[|order| - 1];
      NetworkRows(networks, order[..|order| - 1])
        + [NetworkRow(Network(n, networks[n].tenantId, networks[n].name))]
  }

  /** Visiting one more id adds its Network after the others. */
  lemma NetworkRowsSnoc(networks: map<Id, NetworkInfo>, order: seq<Id>, n: Id)
    requires forall m :: m in order ==> m in networks
    requires n in networks
    ensures NetworkRows(networks, order + [n])
         == NetworkRows(networks, order) + [NetworkRow(Network(n, networks[n].tenantId, networks[n].name))]
  {
    assert (order + [n])[..|order|] == order;
  }

  /** Row `i` is the Network of the `i`-th visited id. */
  lemma {:induction false} NetworkRowsAt(networks: map<Id, NetworkInfo>, order: seq<Id>, i: int)
    requires forall n :: n in order ==> n in networks
    requires 0 <= i < |order|
    ensures NetworkRows(networks, order)[i]
         == NetworkRow(Network(order[i], networks[order[i]].tenantId, networks[order[i]].name))
    decreases |order|
  {
    if i < |order| - 1 {
      var prefix := order[..|order| - 1];
      NetworkRowsAt(networks, prefix, i);
    }
  }

  // ---------------------------------------------------------------------
  // One block's addresses (obligate/obligate.py:130-170)
  // ---------------------------------------------------------------------

  /** The interfaces the addresses are attached to (`interface_id` not None). */
  function AttachedIds(addrs: seq<IpAddress>): set<Id>
  {
    set a | a in addrs && a.interfaceId.Some? :: a.interfaceId.value
  }

  /** The `interface_id` values of the addresses, None included. */
  function InterfaceRefs(addrs: seq<IpAddress>): set<Option<Id>>
  {
    set a | a in addrs :: a.interfaceId
  }

  /** The `interface_network` cache after one block's addresses: an interface already
      cached keeps its network, and every newly seen interface gets the block's network. */
  function CacheNetworks(cache: map<Id, Id>, networkId: Id, addrs: seq<IpAddress>): map<Id, Id>
  {
    map k | k in cache.Keys + AttachedIds(addrs) :: if k in cache then cache[k] else networkId
  }

  /** The records of `block`'s addresses on interface reference `k`. */
  function IpsFor(block: IpBlock, addrs: seq<IpAddress>, k: Option<Id>): set<IpRecord>
  {
    set a | a in addrs && a.interfaceId == k :: IpRecordOf(block, a)
  }

  /** The cached set of a reference, empty when it has none. */
  function CachedIps(cache: map<Option<Id>, set<IpRecord>>, k: Option<Id>): set<IpRecord>
  {
    if k in cache then cache[k] else {}
  }

  /** The `interface_ip` cache after one block's addresses: every referenced interface,
      None included, gains the records of its addresses. */
  function CacheIps(cache: map<Option<Id>, set<IpRecord>>, block: IpBlock, addrs: seq<IpAddress>)
    : map<Option<Id>, set<IpRecord>>
  {
    map k | k in cache.Keys + InterfaceRefs(addrs) :: CachedIps(cache, k) + IpsFor(block, addrs, k)
  }

  /** The IP rows of one block's addresses, in query order. */
  function IpRows(block: IpBlock, addrs: seq<IpAddress>): (rows: seq<Row>)
    ensures |rows| == |addrs|
    decreases |addrs|
  {
    if |addrs| == 0 then []
    else IpRows(block, addrs[..|addrs| - 1]) + [IpRow(IpRecordOf(block, addrs[|addrs| - 1]))]
  }

  /** One more address adds its record after the others. */
  lemma IpRowsStep(block: IpBlock, addrs: seq<IpAddress>, i: int)
    requires 0 <= i < |addrs|
    ensures IpRows(block, addrs[..i + 1]) == IpRows(block, addrs[..i]) + [IpRow(IpRecordOf(block, addrs[i]))]
  {
    assert addrs[..i + 1][..i] == addrs[..i];
  }

  /** Row `j` of a block's IPs is the record of its `j`-th address. */
  lemma {:induction false} IpRowsAt(block: IpBlock, addrs: seq<IpAddress>, j: int)
    requires 0 <= j < |addrs|
    ensures IpRows(block, addrs)[j] == IpRow(IpRecordOf(block, addrs[j]))
    decreases |addrs|
  {
    if j < |addrs| - 1 {
      IpRowsAt(block, addrs[..|addrs| - 1], j);
    }
  }

  /** One more address: the network cache gains its interface when that is new. */
  lemma CacheNetworksSnoc(cache: map<Id, Id>, networkId: Id, addrs: seq<IpAddress>, a: IpAddress)
    ensures var m := CacheNetworks(cache, networkId, addrs);
      CacheNetworks(cache, networkId, addrs + [a])
        == if a.interfaceId.Some? && a.interfaceId.value !in m then m[a.interfaceId.value := networkId] else m
  {
    var m := CacheNetworks(cache, networkId, addrs);
    var s := addrs + [a];
    assert AttachedIds(s) == AttachedIds(addrs) + (if a.interfaceId.Some? then {a.interfaceId.value} else {}) by {
      forall x | x in s ensures x in addrs || x == a { }
    }
  }

  lemma InterfaceRefsSnoc(addrs: seq<IpAddress>, a: IpAddress)
    ensures InterfaceRefs(addrs + [a]) == InterfaceRefs(addrs) + {a.interfaceId}
  {
    var s := addrs + [a];
    forall x | x in s ensures x in addrs || x == a { }
  }

  lemma IpsForSnoc(block: IpBlock, addrs: seq<IpAddress>, a: IpAddress, k: Option<Id>)
    ensures IpsFor(block, addrs + [a], k)
         == IpsFor(block, addrs, k) + (if k == a.interfaceId then {IpRecordOf(block, a)} else {})
  {
    var s := addrs + [a];
    forall x | x in s ensures x in addrs || x == a { }
  }

  /** One more address: the IP cache gains its record under its reference. */
  lemma CacheIpsSnoc(cache: map<Option<Id>, set<IpRecord>>, block: IpBlock, addrs: seq<IpAddress>, a: IpAddress)
    ensures var m := CacheIps(cache, block, addrs);
      CacheIps(cache, block, addrs + [a])
        == m[a.interfaceId := CachedIps(m, a.interfaceId) + {IpRecordOf(block, a)}]
  {
    var m := CacheIps(cache, block, addrs);
    var n := CacheIps(cache, block, addrs + [a]);
    var want := m[a.interfaceId := CachedIps(m, a.interfaceId) + {IpRecordOf(block, a)}];
    InterfaceRefsSnoc(addrs, a);
    assert n.Keys == want.Keys;
    forall k | k in n ensures n[k] == want[k] {
      CacheIpsSnocAt(cache, block, addrs, a, k);
    }
  }

  /** `CacheNetworksSnoc` and `CacheIpsSnoc` for the prefixes of one sequence. */
  lemma CacheNetworksStep(cache: map<Id, Id>, networkId: Id, addrs: seq<IpAddress>, i: int)
    requires 0 <= i < |addrs|
    ensures var m := CacheNetworks(cache, networkId, addrs[..i]);
      var a := addrs[i];
      CacheNetworks(cache, networkId, addrs[..i + 1])
        == if a.interfaceId.Some? && a.interfaceId.value !in m then m[a.interfaceId.value := networkId] else m
  {
    assert addrs[..i + 1] == addrs[..i] + [addrs[i]];
    CacheNetworksSnoc(cache, networkId, addrs[..i], addrs[i]);
  }

  lemma CacheIpsStep(cache: map<Option<Id>, set<IpRecord>>, block: IpBlock, addrs: seq<IpAddress>, i: int)
    requires 0 <= i < |addrs|
    ensures var m := CacheIps(cache, block, addrs[..i]);
      var a := addrs[i];
      CacheIps(cache, block, addrs[..i + 1])
        == m[a.interfaceId := CachedIps(m, a.interfaceId) + {IpRecordOf(block, a)}]
  {
    assert addrs[..i + 1] == addrs[..i] + [addrs[i]];
    CacheIpsSnoc(cache, block, addrs[..i], addrs[i]);
  }

  lemma CacheIpsSnocAt(cache: map<Option<Id>, set<IpRecord>>, block: IpBlock, addrs: seq<IpAddress>,
                       a: IpAddress, k: Option<Id>)
    requires k in CacheIps(cache, block, addrs + [a])
    ensures var m := CacheIps(cache, block, addrs);
      CacheIps(cache, block, addrs + [a])[k]
        == if k == a.interfaceId then CachedIps(m, k) + {IpRecordOf(block, a)} else m[k]
  {
    var m := CacheIps(cache, block, addrs);
    InterfaceRefsSnoc(addrs, a);
    IpsForSnoc(block, addrs, a, k);
    if k == a.interfaceId && k !in m {
      IpsForUnreferenced(block, addrs, k);
    }
  }

  /** A reference no address carries has no records. */
  lemma IpsForUnreferenced(block: IpBlock, addrs: seq<IpAddress>, k: Option<Id>)
    requires k !in InterfaceRefs(addrs)
    ensures IpsFor(block, addrs, k) == {}
  {
    forall x | x in addrs ensures x.interfaceId != k {
      assert x.interfaceId in InterfaceRefs(addrs);
    }
  }

  // ---------------------------------------------------------------------
  // One block's routes (obligate/obligate.py:106-115)
  // ---------------------------------------------------------------------

  /** The Route rows of one block's routes, in query order. */
  function RouteRows(block: IpBlock, routes: seq<IpRoute>): (rows: seq<Row>)
    ensures |rows| == |routes|
    decreases |routes|
  {
    if |routes| == 0 then []
    else RouteRows(block, routes[..|routes| - 1]) + [RouteRow(RouteOf(block, routes[|routes| - 1]))]
  }

  /** One more route adds its row after the others. */
  lemma RouteRowsStep(block: IpBlock, routes: seq<IpRoute>, i: int)
    requires 0 <= i < |routes|
    ensures RouteRows(block, routes[..i + 1]) == RouteRows(block, routes[..i]) + [RouteRow(RouteOf(block, routes[i]))]
  {
    assert routes[..i + 1][..i] == routes[..i];
  }

  /** Row `j` of a block's routes is the target route of its `j`-th route. */
  lemma {:induction false} RouteRowsAt(block: IpBlock, routes: seq<IpRoute>, j: int)
    requires 0 <= j < |routes|
    ensures RouteRows(block, routes)[j] == RouteRow(RouteOf(block, routes[j]))
    decreases |routes|
  {
    if j < |routes| - 1 {
      RouteRowsAt(block, routes[..|routes| - 1], j);
    }
  }

  // ---------------------------------------------------------------------
  // migrate_allocatable_ips (obligate/obligate.py:201-220)
  // ---------------------------------------------------------------------

  /** The rows `migrate_allocatable_ips` adds for the allocatable addresses of a block. */
  function AllocatableRows(block: IpBlock, ips: seq<AllocatableIp>): (rows: seq<Row>)
    ensures |rows| == |ips|
    decreases |ips|
  {
    if |ips| == 0 then []
    else AllocatableRows(block, ips[..|ips| - 1]) + [IpRow(AllocatableIpRecordOf(block, ips[|ips| - 1]))]
  }

  lemma AllocatableRowsStep(block: IpBlock, ips: seq<AllocatableIp>, i: int)
    requires 0 <= i < |ips|
    ensures AllocatableRows(block, ips[..i + 1]) == AllocatableRows(block, ips[..i]) + [IpRow(AllocatableIpRecordOf(block, ips[i]))]
  {
    assert ips[..i + 1][..i] == ips[..i];
  }

  /** Row `j` is the deallocated record of the `j`-th allocatable address. */
  lemma {:induction false} AllocatableRowsAt(block: IpBlock, ips: seq<AllocatableIp>, j: int)
    requires 0 <= j < |ips|
    ensures AllocatableRows(block, ips)[j] == IpRow(AllocatableIpRecordOf(block, ips[j]))
    ensures AllocatableRows(block, ips)[j].ip.deallocated
    decreases |ips|
  {
    if j < |ips| - 1 {
      AllocatableRowsAt(block, ips[..|ips| - 1], j);
    }
  }

  // ---------------------------------------------------------------------
  // All blocks (obligate/obligate.py:96-102)
  // ---------------------------------------------------------------------

  /** The rows one block adds: its subnet, then its IPs, then its routes. */
  function BlockRows(block: IpBlock, routes: seq<IpRoute>, addresses: seq<IpAddress>): seq<Row>
  {
    [SubnetRow(SubnetOf(block))] + IpRows(block, AddressesOf(addresses, block.id))
      + RouteRows(block, RoutesOf(routes, block.id))
  }

  /** The rows of all blocks, block by block. */
  function AllBlockRows(blocks: seq<IpBlock>, routes: seq<IpRoute>, addresses: seq<IpAddress>): seq<Row>
    decreases |blocks|
  {
    if |blocks| == 0 then []
    else AllBlockRows(blocks[..|blocks| - 1], routes, addresses) + BlockRows(blocks[|blocks| - 1], routes, addresses)
  }

  /** The `interface_network` cache after all blocks. */
  function NetworkCacheAfter(cache: map<Id, Id>, blocks: seq<IpBlock>, addresses: seq<IpAddress>): map<Id, Id>
    decreases |blocks|
  {
    if |blocks| == 0 then cache
    else
      var last := blocks[|blocks| - 1];
      CacheNetworks(NetworkCacheAfter(cache, blocks[..|blocks| - 1], addresses), last.networkId,
                    AddressesOf(addresses, last.id))
  }

  /** The `interface_ip` cache after all blocks. */
  function IpCacheAfter(cache: map<Option<Id>, set<IpRecord>>, blocks: seq<IpBlock>, addresses: seq<IpAddress>)
    : map<Option<Id>, set<IpRecord>>
    decreases |blocks|
  {
    if |blocks| == 0 then cache
    else
      var last := blocks[|blocks| - 1];
      CacheIps(IpCacheAfter(cache, blocks[..|blocks| - 1], addresses), last, AddressesOf(addresses, last.id))
  }

  /** One more block adds its rows after those of the earlier blocks. */
  lemma AllBlockRowsStep(blocks: seq<IpBlock>, k: int, routes: seq<IpRoute>, addresses: seq<IpAddress>)
    requires 0 <= k < |blocks|
    ensures AllBlockRows(blocks[..k + 1], routes, addresses)
         == AllBlockRows(blocks[..k], routes, addresses) + BlockRows(blocks[k], routes, addresses)
  {
    assert blocks[..k + 1][..k] == blocks[..k];
  }

  /** One more block updates the interface networks from its own addresses. */
  lemma NetworkCacheStep(cache: map<Id, Id>, blocks: seq<IpBlock>, k: int, addresses: seq<IpAddress>)
    requires 0 <= k < |blocks|
    ensures NetworkCacheAfter(cache, blocks[..k + 1], addresses)
         == CacheNetworks(NetworkCacheAfter(cache, blocks[..k], addresses), blocks[k].networkId,
                          AddressesOf(addresses, blocks[k].id))
  {
    assert blocks[..k + 1][..k] == blocks[..k];
  }

  /** One more block adds the records of its own addresses to the IP sets. */
  lemma IpCacheStep(cache: map<Option<Id>, set<IpRecord>>, blocks: seq<IpBlock>, k: int, addresses: seq<IpAddress>)
    requires 0 <= k < |blocks|
    ensures IpCacheAfter(cache, blocks[..k + 1], addresses)
         == CacheIps(IpCacheAfter(cache, blocks[..k], addresses), blocks[k], AddressesOf(addresses, blocks[k].id))
  {
    assert blocks[..k + 1][..k] == blocks[..k];
  }

  lemma CacheNetworksEmpty(cache: map<Id, Id>, networkId: Id)
    ensures CacheNetworks(cache, networkId, []) == cache
  {
    assert AttachedIds([]) == {};
  }

  lemma CacheIpsEmpty(cache: map<Option<Id>, set<IpRecord>>, block: IpBlock)
    ensures CacheIps(cache, block, []) == cache
  {
    var n := CacheIps(cache, block, []);
    assert InterfaceRefs([]) == {};
    assert n.Keys == cache.Keys;
    forall k | k in n ensures n[k] == cache[k] {
      assert IpsFor(block, [], k) == {};
    }
  }

  // ---------------------------------------------------------------------
  // What the caches hold after all blocks
  // ---------------------------------------------------------------------

  /** Every interface cached with a network has an IP set. */
  predicate KeysCovered(networks: map<Id, Id>, ips: map<Option<Id>, set<IpRecord>>)
  {
    forall k :: k in networks ==> Some(k) in ips
  }

  /** One block keeps every cached interface's IP set in place and gives every interface it
      newly caches a network and an IP set. */
  lemma KeysCoveredStep(networks: map<Id, Id>, ips: map<Option<Id>, set<IpRecord>>, block: IpBlock,
                        addrs: seq<IpAddress>)
    requires KeysCovered(networks, ips)
    ensures KeysCovered(CacheNetworks(networks, block.networkId, addrs), CacheIps(ips, block, addrs))
  {
    forall k | k in AttachedIds(addrs) ensures Some(k) in InterfaceRefs(addrs) {
      var a :| a in addrs && a.interfaceId.Some? && a.interfaceId.value == k;
    }
  }

  /** After all blocks, every interface with a network has an IP set. */
  lemma {:induction false} KeysCoveredAfter(networks: map<Id, Id>, ips: map<Option<Id>, set<IpRecord>>,
                                            blocks: seq<IpBlock>, addresses: seq<IpAddress>)
    requires KeysCovered(networks, ips)
    ensures KeysCovered(NetworkCacheAfter(networks, blocks, addresses), IpCacheAfter(ips, blocks, addresses))
    decreases |blocks|
  {
    if |blocks| > 0 {
      var prefix := blocks[..|blocks| - 1];
      var last := blocks[|blocks| - 1];
      KeysCoveredAfter(networks, ips, prefix, addresses);
      KeysCoveredStep(NetworkCacheAfter(networks, prefix, addresses), IpCacheAfter(ips, prefix, addresses),
                      last, AddressesOf(addresses, last.id));
    }
  }

  /** First seen wins: an interface already cached keeps its network through all blocks. */
  lemma {:induction false} NetworkCacheKeeps(cache: map<Id, Id>, blocks: seq<IpBlock>, addresses: seq<IpAddress>, k: Id)
    requires k in cache
    ensures k in NetworkCacheAfter(cache, blocks, addresses)
    ensures NetworkCacheAfter(cache, blocks, addresses)[k] == cache[k]
    decreases |blocks|
  {
    if |blocks| > 0 {
      NetworkCacheKeeps(cache, blocks[..|blocks| - 1], addresses, k);
    }
  }

  /** An interface no block's addresses are attached to, and not cached before, gets no
      network. */
  lemma {:induction false} NetworkCacheAbsent(cache: map<Id, Id>, blocks: seq<IpBlock>, addresses: seq<IpAddress>, k: Id)
    requires k !in cache
    requires forall i :: 0 <= i < |blocks| ==> k !in AttachedIds(AddressesOf(addresses, blocks[i].id))
    ensures k !in NetworkCacheAfter(cache, blocks, addresses)
    decreases |blocks|
  {
    if |blocks| > 0 {
      NetworkCacheAbsent(cache, blocks[..|blocks| - 1], addresses, k);
    }
  }

  /** First seen wins across blocks: an interface not cached before gets the network of
      the first block with an address attached to it. */
  lemma {:induction false} NetworkCacheFirstWins(cache: map<Id, Id>, blocks: seq<IpBlock>, addresses: seq<IpAddress>,
                                                 k: Id, j: int)
    requires k !in cache && 0 <= j < |blocks|
    requires k in AttachedIds(AddressesOf(addresses, blocks[j].id))
    requires forall i :: 0 <= i < j ==> k !in AttachedIds(AddressesOf(addresses, blocks[i].id))
    ensures k in NetworkCacheAfter(cache, blocks, addresses)
    ensures NetworkCacheAfter(cache, blocks, addresses)[k] == blocks[j].networkId
    decreases |blocks|
  {
    var n := |blocks| - 1;
    var prefix := blocks[..n];
    if j < n {
      NetworkCacheFirstWins(cache, prefix, addresses, k, j);
    } else {
      NetworkCacheAbsent(cache, prefix, addresses, k);
    }
  }

  /** One block adds to each reference's cached set exactly the records of its addresses
      on that reference. */
  lemma CachedIpsAfterBlock(cache: map<Option<Id>, set<IpRecord>>, block: IpBlock, addrs: seq<IpAddress>, k: Option<Id>)
    ensures CachedIps(CacheIps(cache, block, addrs), k) == CachedIps(cache, k) + IpsFor(block, addrs, k)
  {
    if k !in cache.Keys + InterfaceRefs(addrs) {
      IpsForUnreferenced(block, addrs, k);
    }
  }

  /** The record of an address is among the records of its own reference. */
  lemma IpsForHas(block: IpBlock, addrs: seq<IpAddress>, a: IpAddress)
    requires a in addrs
    ensures IpRecordOf(block, a) in IpsFor(block, addrs, a.interfaceId)
  {
  }

  /** Every IP record created for an interface reference, in any block, is in that
      reference's cached set after all blocks. */
  lemma {:induction false} IpCacheHoldsCreated(cache: map<Option<Id>, set<IpRecord>>, blocks: seq<IpBlock>,
                                               addresses: seq<IpAddress>, j: int, a: IpAddress)
    requires 0 <= j < |blocks| && a in AddressesOf(addresses, blocks[j].id)
    ensures IpRecordOf(blocks[j], a) in CachedIps(IpCacheAfter(cache, blocks, addresses), a.interfaceId)
    decreases |blocks|
  {
    var n := |blocks| - 1;
    var prefix := blocks[..n];
    CachedIpsAfterBlock(IpCacheAfter(cache, prefix, addresses), blocks[n], AddressesOf(addresses, blocks[n].id),
                        a.interfaceId);
    if j < n {
      IpCacheHoldsCreated(cache, prefix, addresses, j, a);
      assert prefix[j] == blocks[j];
    } else {
      assert j == n;
      IpsForHas(blocks[n], AddressesOf(addresses, blocks[n].id), a);
    }
  }

  /** A reference's cached set after all blocks holds nothing but what it held before
      and records created, in some block, for an address on that reference. */
  lemma {:induction false} IpCacheHoldsOnlyCreated(cache: map<Option<Id>, set<IpRecord>>, blocks: seq<IpBlock>,
                                                   addresses: seq<IpAddress>, k: Option<Id>, r: IpRecord)
    requires r in CachedIps(IpCacheAfter(cache, blocks, addresses), k) && r !in CachedIps(cache, k)
    ensures exists j, a :: 0 <= j < |blocks| && a in AddressesOf(addresses, blocks[j].id) && a.interfaceId == k
                           && r == IpRecordOf(blocks[j], a)
    decreases |blocks|
  {
    var n := |blocks| - 1;
    var prefix := blocks[..n];
    var addrs := AddressesOf(addresses, blocks[n].id);
    CachedIpsAfterBlock(IpCacheAfter(cache, prefix, addresses), blocks[n], addrs, k);
    if r in IpsFor(blocks[n], addrs, k) {
      var a :| a in addrs && a.interfaceId == k && r == IpRecordOf(blocks[n], a);
      assert 0 <= n < |blocks| && a in AddressesOf(addresses, blocks[n].id);
    } else {
      IpCacheHoldsOnlyCreated(cache, prefix, addresses, k, r);
      var j, a :| 0 <= j < |prefix| && a in AddressesOf(addresses, prefix[j].id) && a.interfaceId == k
                  && r == IpRecordOf(prefix[j], a);
      assert prefix[j] == blocks[j];
    }
  }
}
