/** The inventory records, as the domain packages and the validation engine declare them. Only
    the fields that some modelled rule reads are kept. */
module InventoryModel {
  import opened Wrappers
  import opened Keyed

  datatype Family = V4 | V6

  datatype Tenant = Tenant(id: string)
  datatype Vrf = Vrf(id: string)
  datatype Site = Site(id: string, slug: string, name: string, tenantId: Option<string>)
  datatype Rack = Rack(id: string, siteId: string, name: string, totalUnits: int)
  datatype RackPosition = RackPosition(rackId: string, face: string, startingUnit: int, heightUnits: int)
  datatype Device = Device(
    id: string,
    siteId: string,
    rackPosition: Option<RackPosition>,
    name: string,
    role: string,
    status: string
  )
  datatype Interface = Interface(id: string, deviceId: string)
  datatype Connection = Connection(
    id: string,
    fromDeviceId: string,
    fromInterfaceId: string,
    toDeviceId: string,
    toInterfaceId: string
  )
  datatype Prefix = Prefix(
    id: string,
    vrfId: Option<string>,
    parentPrefixId: Option<string>,
    cidr: string,
    family: Family,
    status: string,
    allocationMode: string,
    tenantId: Option<string>
  )
  datatype IpAddress = IpAddress(
    id: string,
    vrfId: Option<string>,
    address: string,
    family: Family,
    status: string,
    role: string,
    prefixId: Option<string>,
    interfaceId: Option<string>
  )

  datatype Snapshot = Snapshot(
    tenants: seq<Tenant>,
    vrfs: seq<Vrf>,
    sites: seq<Site>,
    racks: seq<Rack>,
    devices: seq<Device>,
    interfaces: seq<Interface>,
    connections: seq<Connection>,
    prefixes: seq<Prefix>,
    ipAddresses: seq<IpAddress>
  )

  function SiteId(x: Site): string { x.id }

  function RackId(x: Rack): string { x.id }

  function DeviceId(x: Device): string { x.id }

  function PrefixId(x: Prefix): string { x.id }

  function AddressId(x: IpAddress): string { x.id }

  function InterfaceId(x: Interface): string { x.id }

  ghost predicate UniquePrefixes(s: seq<Prefix>) {
    UniqueKeys(s, PrefixId)
  }

  function PrefixIndex(s: seq<Prefix>): (m: map<string, Prefix>)
    ensures forall id :: id in m ==> m[id] in s && m[id].id == id
    ensures forall x :: x in s ==> x.id in m
  {
    Index(s, PrefixId)
  }

  function RackIndex(s: seq<Rack>): (m: map<string, Rack>)
    ensures forall id :: id in m ==> m[id] in s && m[id].id == id
    ensures forall x :: x in s ==> x.id in m
  {
    Index(s, RackId)
  }

  function InterfaceIndex(s: seq<Interface>): (m: map<string, Interface>)
    ensures forall id :: id in m ==> m[id] in s && m[id].id == id
    ensures forall x :: x in s ==> x.id in m
  {
    Index(s, InterfaceId)
  }

  lemma PrefixIndexUnique(s: seq<Prefix>)
    requires UniquePrefixes(s)
    ensures forall x :: x in s ==> PrefixIndex(s)[x.id] == x
  {
    IndexUnique(s, PrefixId);
  }

  lemma RackIndexUnique(s: seq<Rack>)
    requires UniqueKeys(s, RackId)
    ensures forall x :: x in s ==> RackIndex(s)[x.id] == x
  {
    IndexUnique(s, RackId);
  }

  predicate HasTenant(tenants: seq<Tenant>, id: string) {
    exists t :: t in tenants && t.id == id
  }

  predicate HasVrf(vrfs: seq<Vrf>, id: string) {
    exists v :: v in vrfs && v.id == id
  }

  predicate HasSite(sites: seq<Site>, id: string) {
    exists s :: s in sites && s.id == id
  }

  predicate HasDevice(devices: seq<Device>, id: string) {
    exists d :: d in devices && d.id == id
  }

  predicate HasInterface(interfaces: seq<Interface>, id: string) {
    exists n :: n in interfaces && n.id == id
  }
}
