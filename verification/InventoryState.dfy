/** The stored inventory, the records around it, and the names its requests use. */
module InventoryState {
  import opened InventoryModel
  import opened Keyed

  datatype State = State(
    sites: seq<Site>,
    racks: seq<Rack>,
    devices: seq<Device>,
    prefixes: seq<Prefix>,
    ipAddresses: seq<IpAddress>
  )

  /** The records the API only reads. */
  datatype Context = Context(
    tenants: seq<Tenant>,
    vrfs: seq<Vrf>,
    interfaces: seq<Interface>,
    connections: seq<Connection>
  )

  datatype Resource = Sites | Racks | Devices | Prefixes | IpAddresses

  datatype Record =
    | SiteRecord(site: Site)
    | RackRecord(rack: Rack)
    | DeviceRecord(device: Device)
    | PrefixRecord(prefix: Prefix)
    | AddressRecord(address: IpAddress)

  /** The field an error is reported on. */
  datatype FieldName =
    | OnId
    | OnName
    | OnSlug
    | OnTenantId
    | OnSiteId
    | OnTotalUnits
    | OnRole
    | OnStatus
    | OnRackId
    | OnRackPosition
    | OnCidr
    | OnVrfId
    | OnAllocationMode
    | OnParentPrefixId
    | OnAddress
    | OnPrefixId
    | OnInterfaceId

  function SnapshotOf(ctx: Context, st: State): Snapshot {
    Snapshot(ctx.tenants, ctx.vrfs, st.sites, st.racks, st.devices, ctx.interfaces, ctx.connections,
             st.prefixes, st.ipAddresses)
  }

  /** Every resource holds each id once. */
  ghost predicate UniqueIds(st: State) {
    && UniqueKeys(st.sites, SiteId) && UniqueKeys(st.racks, RackId) && UniqueKeys(st.devices, DeviceId)
    && UniquePrefixes(st.prefixes) && UniqueKeys(st.ipAddresses, AddressId)
  }
}
