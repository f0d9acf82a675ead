# obligate: the legacy-IPAM to network-backend migration, modelled in Dafny

`obligate/obligate.py` migrates the tables of a legacy IP-management service into a
network backend. The source tables are IP blocks, routes, IP addresses, interfaces,
MAC address ranges and MAC addresses. The target rows are Networks, Subnets, Routes,
IP addresses, Ports, a MAC address range and MACs.

`migrate` (lines 290-304) runs four stages in order:

- `migrate_networks` groups the blocks by network. It aborts on a tenant conflict.
  Otherwise it adds one Network per network, then for every block a Subnet, its IP
  records (`migrate_ips`) and its Routes (`migrate_routes`). Along the way it fills two
  caches: `interface_network`, where the first block seen for an interface wins, and
  `interface_ip`, the IP records of each interface reference.
- `migrate_interfaces` adds a Port for every interface that has a cached network. It
  records the tenant in `interface_tenant` and the port in `port_cache`. It counts the
  interfaces that have no network.
- `associate_ips_with_ports` appends to each cached port the IP records of its
  interface.
- `migrate_macs` converts the first MAC address range with the codec `_to_mac_range`.
  It then adds one MAC per MAC address whose interface has a network, sets that port's
  MAC, and counts the MACs it skips.

How the model is built:

- Each query is a filter over an input sequence: `Rows.AddressesOf`, `Rows.RoutesOf`,
  `Rows.AllocatableOf`.
- The module-level dictionaries are the fields of `Migration.MigrationState`, a class
  whose methods are the stages.
- `session.add` appends a `Rows.Row` to the `pending` field.
- Ports are objects (`Rows.Port`) whose MAC and IP list later stages update in place.
- Each stage is proved against a value-level specification. `MigrationSpec` covers the
  networks, IPs and routes. `PortSpec` covers the interfaces, the port association and
  the MACs. Lemmas about those specifications carry the properties: first-seen
  grouping, first-seen and last-wins caches, partition counts, and the codec round
  trip.
- `Pipeline.Migrate` composes the stages on fresh caches.
- Every exception the modelled inputs can raise is an error value,
  `Migration.MigrationError`. Address literals arrive already parsed, and the shift's
  interpreter limits are not modelled; see the netaddr and shift lines under
  "Left out". The error values are:
  - the tenant conflict;
  - a missing MAC range;
  - a range text the codec rejects;
  - the `KeyError` of `interface_tenant[...]` for a MAC whose interface has a network
    but no interface row.

  The model proves that the other dictionary lookups, `interface_ip[port]` and
  `port_cache[...]`, cannot fail. `MigrationState.Valid` is the invariant that keeps the
  caches in agreement.
- The codec `_to_mac_range` is pure and is modelled as functions (`MacRange`) over the
  string operations it uses (`Text`).

Modules: `Common`, `Text`, `Addressing`, `MacRange`, `MacRangeProperties`,
`MacRangeExamples`, `Rows`, `MigrationSpec`, `PortSpec`, `Migration`, `Pipeline`.

## Model

| member | source | states |
|---|---|---|
| Text.Split | obligate/obligate.py:224 | `val.split("/")` gives at least one piece |
| Text.SplitPiecesHaveNoSeparator | obligate/obligate.py:224 | no piece of a split contains the separator |
| Text.JoinSplit | obligate/obligate.py:224 | joining the pieces with the separator gives back the text, so splitting loses nothing |
| Text.SplitWithoutSeparator | obligate/obligate.py:224-225 | a text without `/` is its own single piece |
| Text.SplitAtFirstSeparator | obligate/obligate.py:224-235 | `a + "/" + b` with no `/` in `a` splits into `a` and then the pieces of `b` |
| Text.DeleteChar | obligate/obligate.py:226-227 | `replace(c, '')` leaves no `c` and never lengthens the text |
| Text.DeleteCharAbsent | obligate/obligate.py:226-227 | removing a character that does not occur changes nothing |
| Text.DeleteCharMembers | obligate/obligate.py:226-227 | the result holds exactly the text's characters other than the removed one |
| Text.DeleteCharConcat | obligate/obligate.py:226-227 | removal distributes over concatenation |
| Text.HexDigitValue | obligate/obligate.py:245 | a hex digit is worth less than 16 |
| Text.HexValue | obligate/obligate.py:245 | `int(prefix, 16)` of n digits is below 16^n |
| Text.Zeros | obligate/obligate.py:239 | `"0" * n` is n hex digits |
| Text.HexValuePadded | obligate/obligate.py:239-245 | padding with n zero digits multiplies the value by 16^n |
| Text.UpperHexDigit | obligate/obligate.py:241 | upper-casing keeps a hex digit's value and only changes lower-case letters |
| Text.UpperHexValue | obligate/obligate.py:241 | upper-casing a digit string keeps its value and is idempotent |
| Text.OctetsMembers | obligate/obligate.py:241 | printing the digits in colon-separated pairs adds only colons |
| Text.OctetsDeleteColons | obligate/obligate.py:241 | removing the colons from the paired form gives back the digits |
| Text.DecimalDigits | obligate/obligate.py:241 | `str(n)` of a natural number is decimal digits |
| Text.DecimalText | obligate/obligate.py:241 | `str(mask)` contains neither `/` nor `:` |
| Text.DecimalDigitsValue | obligate/obligate.py:235 | reading the decimal digits of n gives n |
| Text.ParseDecimalText | obligate/obligate.py:235-241 | `int(str(m)) == m` for every integer, negative ones included |
| Text.ParseInt | obligate/obligate.py:235 | `int` of the empty text raises |
| Addressing.VersionNumber | obligate/obligate.py:152-153 | the stored version is 4 exactly for IPv4 and 6 exactly for IPv6 |
| Addressing.Ipv4OfMapped | obligate/obligate.py:154 | the IPv4 value carried by a mapped address fits 32 bits |
| Addressing.Ipv6Value | obligate/obligate.py:152-164 | `int(IPAddress(a).ipv6())`: the stored integer is a 128-bit value; for IPv4 it is the IPv4-mapped address carrying the literal's value, for IPv6 the value itself |
| Addressing.Ipv6ValueInjective | obligate/obligate.py:154-164 | for literals of one family, equal stored integers exactly when equal values |
| Addressing.MappedIsStoredForm | obligate/obligate.py:154 | every IPv4-mapped value is the stored form of the IPv4 address it carries |
| Addressing.DottedQuad | obligate/obligate.py:152 | a dotted quad fits 32 bits |
| Addressing.TenDotOneExample | obligate/obligate.py:152-164 | `10.0.0.1` is stored as `0xffff0a000001` with version 4 |
| MacRange.CanonicalCidr | obligate/obligate.py:241 | the printed CIDR reads back, through the same splitting and stripping, as the digits upper-cased and the mask it was printed with |
| MacRange.CanonicalCidrSplit | obligate/obligate.py:224-241 | the canonical CIDR splits at its one `/` into the paired digits and the mask |
| MacRange.CanonicalCidrPrefix | obligate/obligate.py:224-241 | reading the canonical CIDR back gives the digits it was printed from |
| MacRange.CanonicalCidrMask | obligate/obligate.py:234-241 | reading the canonical CIDR back gives the mask it was printed with |
| MacRange.StripSeparators | obligate/obligate.py:226-227 | the stripped prefix holds no `:` and no `-` |
| MacRange.PrefixDigits | obligate/obligate.py:224-227 | the prefix digits, the text before the first `/`, hold no separator |
| MacRange.MaskOf | obligate/obligate.py:233-237 | without `/` the mask is four bits per prefix digit (`48 - diff * 4`); with `/` it is `int` of the second `/`-separated piece (`cidr_parts[1]`), `None` where `int` raises |
| MacRange.RangeOf | obligate/obligate.py:233-246 | an accepted range starts at the prefix scaled past its padding, starts in the 48-bit space and holds `1 << (48 - mask)` MACs; its end may pass 2^48, as in the source |
| MacRange.ToMacRange | obligate/obligate.py:223-246 | a converted range is non-empty and starts in the 48-bit space (the body checks, in this order, a bad mask text, a mask over 48, and a prefix that is not at most twelve hex digits; the contract states only the success case) |
| MacRangeProperties.UnmaskedPrefix | obligate/obligate.py:224-227 | without `/` the prefix digits are the whole text, separators removed |
| MacRangeProperties.UnmaskedMask | obligate/obligate.py:233-237 | without `/` the mask is four bits per prefix digit |
| MacRangeProperties.UnmaskedCidr | obligate/obligate.py:233-241 | without `/` the CIDR is the padded prefix with four mask bits per digit |
| MacRangeProperties.UnmaskedIsRangeOf | obligate/obligate.py:233-246 | without `/` the codec accepts with the range of the stripped digits at four bits per digit |
| MacRangeProperties.NibbleRangeSize | obligate/obligate.py:237-238 | at four bits per digit, L digits leave 16^(12-L) MACs |
| MacRangeProperties.NibbleRangeMembers | obligate/obligate.py:237-246 | at four bits per digit, a MAC is in the range exactly when its leading digits are the prefix |
| MacRangeProperties.UnmaskedRangeIsPrefixBlock | obligate/obligate.py:233-246 | without `/` the range starts at the prefix scaled by 16^(12-L) and holds 16^(12-L) MACs |
| MacRangeProperties.UnmaskedRangeMembers | obligate/obligate.py:237-246 | without `/`, a MAC is in the range exactly when its leading hex digits are the prefix |
| MacRangeProperties.MaskedRangeSize | obligate/obligate.py:234-246 | with `/mask` the range starts at the padded prefix and holds 2^(48-mask) MACs, and the CIDR carries that mask |
| MacRangeProperties.CanonicalCidrIsFixedPoint | obligate/obligate.py:223-246 | converting the returned CIDR again gives the same range |
| MacRangeExamples.PlainPrefix | obligate/obligate.py:224-237 | a prefix without separators is taken as written, with four mask bits per digit |
| MacRangeExamples.PlainPrefixWithMask | obligate/obligate.py:224-235 | a plain prefix with `/mask` is taken as written, with `int` of the mask |
| MacRangeExamples.RangeOfTwelve | obligate/obligate.py:238-246 | twelve upper-case digits give their own pairs as CIDR and start at their own value |
| MacRangeExamples.FullAddressExample | obligate/obligate.py:223-246 | `AABBCCDDEEFF` is the single MAC `AA:BB:CC:DD:EE:FF/48`, accepted though longer than the inert length check allows |
| MacRangeExamples.MaskedExample | obligate/obligate.py:223-246 | `AABBCC/24` is the 2^24 MACs from `0xaabbcc000000`, printed `AA:BB:CC:00:00:00/24` |
| MacRangeExamples.ZeroMaskPassesSpace | obligate/obligate.py:238-246 | `AABBCC/0` is accepted and its end passes 2^48: the code does not bound the end |
| MacRangeExamples.OverlongPrefixExample | obligate/obligate.py:233-238 | thirteen digits without a mask give mask 52 and fail on the negative shift |
| MacRangeExamples.MalformedHexExample | obligate/obligate.py:240-245 | a non-hex digit fails the prefix parse |
| MacRangeExamples.MalformedMaskExample | obligate/obligate.py:234-235 | mask text `int` rejects fails the conversion |
| Common.EnumerationSize | obligate/obligate.py:197-198 | appending each element of a set once appends as many records as the set holds |
| Rows.AddressesOf | obligate/obligate.py:130-131 | the query returns exactly the addresses of the block |
| Rows.RoutesOf | obligate/obligate.py:106-107 | the query returns exactly the routes of the block |
| Rows.AllocatableOf | obligate/obligate.py:202-203 | the query returns exactly the allocatable addresses of the block |
| Rows.SubnetOf | obligate/obligate.py:97-99 | a Subnet takes the block's id, network and CIDR |
| Rows.RouteOf | obligate/obligate.py:109-114 | a target Route takes the route's id, netmask (as its CIDR) and gateway, and the block's tenant, creation time and id (as its subnet) |
| Rows.IpRecordOf | obligate/obligate.py:143-164 | an IP record belongs to its block's subnet, network and tenant; it is deallocated exactly when marked, with the address's deallocation time only then; it keeps text and version and stores the IPv6 form |
| Rows.IpRecordOfDistinct | obligate/obligate.py:155-164 | addresses with different ids give different records, so a set never merges two of them |
| Rows.AllocatableIpRecordOf | obligate/obligate.py:208-219 | an allocatable address becomes the record of the same address marked deallocated without deallocation time, so it is deallocated and has no deallocation time |
| Rows.Port.constructor | obligate/obligate.py:182-187 | a new port copies the interface's fields, takes the temporary backend key and the cached network, and has no MAC and no IP |
| Rows.Port.AppendIps | obligate/obligate.py:197-198 | the port's IP list grows by each record of the set exactly once, in some order |
| MigrationSpec.FirstOfNetworkExists | obligate/obligate.py:80-85 | every network of the blocks has a first block |
| MigrationSpec.FirstSeenGroupingUnique | obligate/obligate.py:80-85 | the first-seen grouping of the blocks is unique |
| MigrationSpec.GroupingTenant | obligate/obligate.py:80-88 | without a conflict every block's tenant is its network's recorded tenant |
| MigrationSpec.NetworkRowsAt | obligate/obligate.py:90-94 | the i-th Network row carries the i-th network id with its recorded tenant and name |
| MigrationSpec.IpRowsAt | obligate/obligate.py:132-170 | the j-th IP row of a block is the record of its j-th address |
| MigrationSpec.RouteRowsAt | obligate/obligate.py:108-115 | the j-th Route row of a block is the target route of its j-th route |
| MigrationSpec.AllocatableRowsAt | obligate/obligate.py:204-220 | the j-th allocatable row is the deallocated record of the j-th allocatable address |
| MigrationSpec.KeysCoveredAfter | obligate/obligate.py:134-137 | every interface in `interface_network` also has an `interface_ip` entry after any blocks |
| MigrationSpec.NetworkCacheKeeps | obligate/obligate.py:135-137 | an interface already cached keeps its network through later blocks |
| MigrationSpec.NetworkCacheAbsent | obligate/obligate.py:134-137 | an interface no address is on is never given a network |
| MigrationSpec.NetworkCacheFirstWins | obligate/obligate.py:134-141 | an interface gets the network of the first block with an address on it |
| MigrationSpec.CachedIpsAfterBlock | obligate/obligate.py:165-168 | one block adds to each reference's set exactly the records of its addresses on that reference |
| MigrationSpec.IpCacheHoldsCreated | obligate/obligate.py:165-168 | every record created for an interface reference is in that reference's set after all blocks |
| MigrationSpec.IpCacheHoldsOnlyCreated | obligate/obligate.py:165-168 | a reference's set holds nothing but records created for addresses on it |
| PortSpec.WithNetwork | obligate/obligate.py:176-179 | the interfaces that get a port are exactly those with a cached network |
| PortSpec.InterfacesPartition | obligate/obligate.py:175-179 | ports plus counted interfaces are all the interfaces, with none in both |
| PortSpec.LastWithId | obligate/obligate.py:181-188 | the last interface carrying an id |
| PortSpec.TenantsAfter | obligate/obligate.py:181 | `interface_tenant[interface.id] = ...` over the interfaces: an id has a tenant exactly when it had one or one of the interfaces carries it |
| PortSpec.TenantsAfterLastWins | obligate/obligate.py:181 | the recorded tenant is that of the last interface carrying the id |
| PortSpec.TenantsAfterKeeps | obligate/obligate.py:181 | an id no interface carries keeps its recorded tenant |
| PortSpec.PortCacheAfter | obligate/obligate.py:188 | `port_cache[interface.id] = q_port` over the interfaces: ids cached before stay cached and every interface's id is added |
| PortSpec.PortCacheAfterKeys | obligate/obligate.py:188 | an id has a cached port exactly when it had one or one of the interfaces carries it |
| PortSpec.PortCacheAfterLastWins | obligate/obligate.py:188 | the cached port is the one created for the last interface carrying the id |
| PortSpec.PortCacheAfterKeeps | obligate/obligate.py:188 | an id no interface carries keeps its cached port |
| PortSpec.CachedPortIsCreated | obligate/obligate.py:181-188 | from empty caches, every id with a tenant has a cached port, one of those created |
| PortSpec.CachesAgreeAddPort | obligate/obligate.py:180-188 | adding a port keeps every cache in agreement |
| PortSpec.CachesAgreeAfterInterfaces | obligate/obligate.py:176-188 | `migrate_interfaces` keeps the caches in agreement, so `interface_ip[port]` and `port_cache[...]` never miss |
| PortSpec.CachesAgreeAfterBlocks | obligate/obligate.py:132-168 | `migrate_networks` keeps the caches in agreement |
| PortSpec.PortRows | obligate/obligate.py:189 | one Port row per created port |
| PortSpec.MacRangeRecordOf | obligate/obligate.py:259-264 | the range row takes the legacy range's id and creation time and the converted CIDR, first address (also the next MAC to assign) and last address |
| PortSpec.MacRangeRecordOfBounds | obligate/obligate.py:257-264 | the range row carries the range's id, date and converted CIDR; it is non-empty, starts in the 48-bit space and assigns from its first MAC |
| PortSpec.MacsKnownUpTo | obligate/obligate.py:269-273 | a MAC loop that stops at the first unknown interface reaches the end exactly when no MAC names one |
| PortSpec.MacsPartition | obligate/obligate.py:269-280 | MAC rows plus skipped MACs are all the MACs, with none in both |
| PortSpec.MacRecordOf | obligate/obligate.py:273-277 | a MAC row takes the tenant recorded for its interface, the MAC's creation time and address, and the range id |
| PortSpec.LastMacFor | obligate/obligate.py:278-279 | the last MAC attached to an interface |
| PortSpec.MacAfter | obligate/obligate.py:278-279 | `q_port.mac_address = q_mac.address` over the MACs: a port keeps its MAC when no MAC is on it, takes the last one on it otherwise, and any new value is the address of a MAC on it |
| Migration.MigrationState.constructor | obligate/obligate.py:24-28 | the module starts with empty caches and nothing pending |
| Migration.MigrationState.GroupNetworks | obligate/obligate.py:76-88 | succeeds exactly when no network has two tenants, with the first-seen tenant and name of each network; otherwise fails naming a network of the blocks |
| Migration.MigrationState.AddNetworks | obligate/obligate.py:90-94 | adds one Network row per grouped network, each exactly once, caches unchanged |
| Migration.MigrationState.MigrateIp | obligate/obligate.py:134-170 | an uncached interface gets the block's network, the record joins its reference's set, and one IP row is added |
| Migration.MigrationState.MigrateIps | obligate/obligate.py:118-170 | the caches of one block follow the first-seen and set-union specification and the block's IP rows are added in query order |
| Migration.MigrationState.MigrateRoutes | obligate/obligate.py:105-115 | the block's Route rows are added in query order, caches unchanged |
| Migration.MigrationState.MigrateAllocatableIps | obligate/obligate.py:201-220 | the block's deallocated allocatable rows are added in query order, caches unchanged |
| Migration.MigrationState.MigrateBlock | obligate/obligate.py:96-102 | a block adds its Subnet, then its IP rows, then its Route rows |
| Migration.MigrationState.MigrateBlocks | obligate/obligate.py:96-102 | all blocks in order add their rows and the caches follow their specification |
| Migration.MigrationState.MigrateNetworks | obligate/obligate.py:65-102 | a tenant conflict fails before anything is added; otherwise the first-seen Networks, then each block's rows, and the caches stay in agreement |
| Migration.MigrationState.AddPort | obligate/obligate.py:180-189 | records the tenant and caches a new port built from the interface, adding its row |
| Migration.MigrationState.MigrateInterfaces | obligate/obligate.py:173-191 | counts the interfaces without a network; each other one gets a new port, last-wins in both caches, with its row added |
| Migration.MigrationState.AssociateIpsWithPorts | obligate/obligate.py:194-198 | every cached port's IP list grows by each record of its interface exactly once, its MAC unchanged |
| Migration.MigrationState.AssignMac | obligate/obligate.py:273-280 | adds the MAC row with the interface's tenant and sets exactly that port's MAC |
| Migration.MigrationState.MigrateMac | obligate/obligate.py:269-280 | one MAC is either skipped and counted or assigned to its port with its row |
| Migration.MigrationState.MigrateMacList | obligate/obligate.py:267-282 | handles the MACs in order, last MAC wins per port; it succeeds with the skipped count exactly when no MAC names an interface without a tenant, else stops at the first such MAC |
| Migration.MigrationState.MigrateMacs | obligate/obligate.py:249-282 | no range row or an unconvertible first range fails before anything is added; otherwise the range row and then the MAC loop's rows |
| Pipeline.InterfaceIpsExactly | obligate/obligate.py:165-168 | after `migrate_networks` an interface's IP set holds exactly the records of the addresses on it, over all blocks |
| Pipeline.InterfaceNetworksFirstSeen | obligate/obligate.py:134-137 | an interface has a network exactly when some address is on it, and that network is the first such block's |
| Pipeline.FirstAttaching | obligate/obligate.py:134-137 | the first block with an address on an interface |
| Pipeline.InterfaceTenantsCover | obligate/obligate.py:176-181 | every interface row with a network gets a tenant |
| Pipeline.AttachPorts | obligate/obligate.py:173-198 | every cached port is new, has no MAC and holds each IP record of its interface exactly once |
| Pipeline.MigratePorts | obligate/obligate.py:290-301 | the rows of the first three stages in order, or nothing on a tenant conflict |
| Pipeline.Migrate | obligate/obligate.py:290-304 | fails exactly on a tenant conflict, a missing or unconvertible range, or a MAC of a networked interface with no interface row; on success reports the two counts, the full row sequence, and each port's IPs and last MAC |

## Left out

- Printing and timing (`do_and_time`, `do_and_time_quietly`, the warnings and the total) are left out. They have no effect on the rows.
- `loadSession`, `flush_db`, `migrate_commit`, `exit` and the `__main__` block are left out. They are database I/O; the model's result is the `pending` sequence that the commit would persist.
- The partial state after an exception is left out. The stages run inside one uncommitted session, so an aborted run persists nothing. The model states the pending rows only on the paths the code completes, plus the empty rows on a tenant conflict.
- SQLAlchemy queries are input sequences in the order the query returns them. `.first()` on the MAC range query (line 255) is the head of that sequence, not the earliest-created range. The query has no ordering, and the model does not invent one.
- Python 2 dictionary and set iteration order is unspecified. The model picks an arbitrary element each step (`:|`) when it adds Networks (lines 90-94), visits ports (line 195) and appends IPs (line 197). Its results hold for every such order.
- netaddr parsing of IP literals is not modelled. An `IpLiteral` arrives already parsed into its family and value, and its text is kept verbatim. Rejection of malformed address text is not modelled.
- MacRange.ToMacRange: twelve hex digits are what netaddr's EUI-48 parse accepts here. A longer prefix that fits another EUI format, such as sixteen digits with an explicit mask, is reported as `MalformedPrefix`, although netaddr may accept it as EUI-64.
- MacRange.CanonicalCidr: the printed CIDR is netaddr's default EUI-48 dialect, upper case and `-`-separated, with `-` then replaced by `:`. The dialect is taken as fixed.
- Text.ParseInt: Python 2's `int()` also accepts surrounding whitespace. The model accepts an optionally signed plain decimal string only.
- The shift `1 << (48 - mask)` at line 238 is unbounded in the model. For a huge negative mask such as `AABBCC/-99999999999999999999`, Python raises `OverflowError` or `MemoryError` there, while `MacRange.ToMacRange` returns a range. The interpreter's resource limits are not modelled.
- The length check of lines 229-231 is not an error in the model. Its body is `pass` and has no effect.
- The module-level `interfaces` dictionary (line 25) is never read or written: `migrate_interfaces` shadows it with a local. It is left out.
- `interface_ip` holds sets of `IpRecord` values. Python holds sets of ORM objects, compared by identity. `Rows.IpRecordOfDistinct` shows that records with different ids never merge, so the two agree whenever address ids are distinct.
- `migrate_allocatable_ips` is never called by `migrate`. It is modelled standalone (`MigrateAllocatableIps`) and is not part of `Pipeline.Migrate`.
- A block's rows follow the code: its Subnet, then its IP records (`migrate_ips`, line 101), then its Routes (`migrate_routes`, line 102). The stage label at line 296 names routes before IPs; the model follows the calls.
- `associate_ips_with_ports` reads `interface_ip[port]` without a default. `MigrationState.Valid` proves that this lookup (and `port_cache[...]` in `migrate_macs`) never misses, so the associator's failure path is unreachable rather than modelled.
