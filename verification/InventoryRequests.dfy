/** What the inventory API makes of a request, told without the code that does it: the fields of an
    accepted record, the faults of a refused one, and the change each answer stands for. */
module InventoryRequests {
  import opened Wrappers
  import opened JsText
  import opened Payload
  import opened InventoryModel
  import opened InventoryState
  import opened Keyed
  import opened RackPlacement
  import opened PrefixHierarchy

  // ----- what a payload says

  function FirstOf(a: Option<string>, b: Option<string>): Option<string> {
    if a.Some? then a else b
  }

  /** The id a payload gives a record: the one it names, or the updated record's, or one made from the
      record's own text, in canonical form; the kind and the clock where nothing is left of it. */
  ghost function IdGiven(kind: string, payload: Fields, existingId: Option<string>, fallback: Option<string>,
                         now: nat): string {
    var candidate := FirstOf(AsNullableString(Field(payload, "id")), FirstOf(existingId, fallback));
    if candidate.Some? && SanitizeId(candidate.value) != "" then SanitizeId(candidate.value)
    else kind + "-" + Decimal(now)
  }

  ghost predicate SiteReads(payload: Fields, existingId: Option<string>, now: nat, x: Site) {
    && Some(x.name) == AsString(Field(payload, "name"))
    && Some(x.slug) == AsString(Field(payload, "slug"))
    && x.tenantId == AsNullableString(Field(payload, "tenantId"))
    && x.id == IdGiven("site", payload, existingId, Some(x.name), now)
  }

  ghost predicate RackReads(payload: Fields, existingId: Option<string>, now: nat, x: Rack) {
    && Some(x.name) == AsString(Field(payload, "name"))
    && Some(x.siteId) == AsString(Field(payload, "siteId"))
    && Some(x.totalUnits) == AsInteger(Field(payload, "totalUnits"))
    && x.id == IdGiven("rack", payload, existingId, Some(x.name), now)
  }

  /** What the placement keys of a payload ask for: no position at all, or exactly this one. */
  predicate NamesPlacement(payload: Fields, position: Option<RackPosition>) {
    var rackId := AsNullableString(Field(payload, "rackId"));
    var startUnit, heightUnits := AsInteger(Field(payload, "startUnit")), AsInteger(Field(payload, "heightUnits"));
    match position
    case None => !Truthy(rackId) && startUnit.None? && heightUnits.None?
    case Some(p) =>
      && rackId == Some(p.rackId)
      && OrElse(AsNullableString(Field(payload, "rackFace")), "front") == p.face
      && startUnit == Some(p.startingUnit) && heightUnits == Some(p.heightUnits)
  }

  ghost predicate DeviceReads(payload: Fields, existingId: Option<string>, now: nat, x: Device) {
    && Some(x.name) == AsString(Field(payload, "name"))
    && Some(x.siteId) == AsString(Field(payload, "siteId"))
    && Some(x.role) == AsString(Field(payload, "role"))
    && Some(x.status) == AsString(Field(payload, "status"))
    && NamesPlacement(payload, x.rackPosition)
    && x.id == IdGiven("device", payload, existingId, Some(x.name), now)
  }

  /** A 6 under "family" or a colon in the text makes the record an IPv6 one. */
  ghost function FamilyGiven(payload: Fields, text: string): Family {
    if AsInteger(Field(payload, "family")) == Some(6) || ':' in text then V6 else V4
  }

  ghost predicate PrefixReads(payload: Fields, existingId: Option<string>, now: nat, x: Prefix) {
    && Some(x.cidr) == AsString(Field(payload, "cidr"))
    && x.vrfId == AsNullableString(Field(payload, "vrfId"))
    && x.parentPrefixId == AsNullableString(Field(payload, "parentPrefixId"))
    && x.family == FamilyGiven(payload, x.cidr)
    && Some(x.status) == AsString(Field(payload, "status"))
    && x.allocationMode == OrElse(AsString(Field(payload, "allocationMode")), "pool")
    && x.tenantId == AsNullableString(Field(payload, "tenantId"))
    && x.id == IdGiven("prefix", payload, existingId, Some(x.cidr), now)
  }

  ghost predicate AddressReads(payload: Fields, existingId: Option<string>, now: nat, x: IpAddress) {
    && Some(x.address) == AsString(Field(payload, "address"))
    && x.vrfId == AsNullableString(Field(payload, "vrfId"))
    && x.family == FamilyGiven(payload, x.address)
    && Some(x.status) == AsString(Field(payload, "status"))
    && Some(x.role) == AsString(Field(payload, "role"))
    && x.prefixId == AsNullableString(Field(payload, "prefixId"))
    && x.interfaceId == AsNullableString(Field(payload, "interfaceId"))
    && x.id == IdGiven("ip", payload, existingId, Some(x.address), now)
  }

  /** The record is the one the payload describes. */
  ghost predicate Reads(resource: Resource, payload: Fields, existingId: Option<string>, now: nat, record: Record) {
    match resource
    case Sites => record.SiteRecord? && SiteReads(payload, existingId, now, record.site)
    case Racks => record.RackRecord? && RackReads(payload, existingId, now, record.rack)
    case Devices => record.DeviceRecord? && DeviceReads(payload, existingId, now, record.device)
    case Prefixes => record.PrefixRecord? && PrefixReads(payload, existingId, now, record.prefix)
    case IpAddresses => record.AddressRecord? && AddressReads(payload, existingId, now, record.address)
  }

  // ----- a stored record as a payload: what an update starts from

  function OptionalText(o: Option<string>): Json {
    if o.Some? then Text(o.value) else Null
  }

  function SiteFields(x: Site): Fields {
    map["id" := Text(x.id), "slug" := Text(x.slug), "name" := Text(x.name), "tenantId" := OptionalText(x.tenantId)]
  }

  function RackFields(x: Rack): Fields {
    map["id" := Text(x.id), "siteId" := Text(x.siteId), "name" := Text(x.name), "totalUnits" := Integer(x.totalUnits)]
  }

  /** The stored position is one nested field; no reader looks at it. */
  function DeviceFields(x: Device): Fields {
    map["id" := Text(x.id), "siteId" := Text(x.siteId),
        "rackPosition" := if x.rackPosition.Some? then Other else Null,
        "name" := Text(x.name), "role" := Text(x.role), "status" := Text(x.status)]
  }

  function FamilyNumber(f: Family): int { if f == V4 then 4 else 6 }

  function PrefixFields(x: Prefix): Fields {
    map["id" := Text(x.id), "vrfId" := OptionalText(x.vrfId), "parentPrefixId" := OptionalText(x.parentPrefixId),
        "cidr" := Text(x.cidr), "family" := Integer(FamilyNumber(x.family)), "status" := Text(x.status),
        "allocationMode" := Text(x.allocationMode), "tenantId" := OptionalText(x.tenantId), "vlanId" := Null]
  }

  function AddressFields(x: IpAddress): Fields {
    map["id" := Text(x.id), "vrfId" := OptionalText(x.vrfId), "address" := Text(x.address),
        "family" := Integer(FamilyNumber(x.family)), "status" := Text(x.status), "role" := Text(x.role),
        "prefixId" := OptionalText(x.prefixId), "interfaceId" := OptionalText(x.interfaceId)]
  }

  /** Text as the readers return it. */
  predicate Plain(s: string) {
    s != "" && Trimmed(s)
  }

  predicate PlainOrNone(o: Option<string>) {
    o.Some? ==> Plain(o.value)
  }

  /** The record is one the API itself stores: canonical id, trimmed texts, a family that fits. */
  predicate Settled(record: Record) {
    match record
    case SiteRecord(x) => IsSlug(x.id) && Plain(x.name) && Plain(x.slug) && PlainOrNone(x.tenantId)
    case RackRecord(x) => IsSlug(x.id) && Plain(x.name) && Plain(x.siteId)
    case DeviceRecord(x) => IsSlug(x.id) && Plain(x.name) && Plain(x.siteId) && Plain(x.role) && Plain(x.status)
    case PrefixRecord(x) =>
      && IsSlug(x.id) && Plain(x.cidr) && Plain(x.status) && Plain(x.allocationMode)
      && PlainOrNone(x.vrfId) && PlainOrNone(x.parentPrefixId) && PlainOrNone(x.tenantId)
      && (':' in x.cidr ==> x.family == V6)
    case AddressRecord(x) =>
      && IsSlug(x.id) && Plain(x.address) && Plain(x.status) && Plain(x.role)
      && PlainOrNone(x.vrfId) && PlainOrNone(x.prefixId) && PlainOrNone(x.interfaceId)
      && (':' in x.address ==> x.family == V6)
  }

  ghost predicate AllSettled(st: State) {
    && (forall x :: x in st.sites ==> Settled(SiteRecord(x)))
    && (forall x :: x in st.racks ==> Settled(RackRecord(x)))
    && (forall x :: x in st.devices ==> Settled(DeviceRecord(x)))
    && (forall x :: x in st.prefixes ==> Settled(PrefixRecord(x)))
    && (forall x :: x in st.ipAddresses ==> Settled(AddressRecord(x)))
  }

  // ----- what an update keeps: every field whose key the request leaves out

  ghost predicate KeepsSite(payload: Fields, was: Site, x: Site) {
    && ("id" !in payload ==> x.id == was.id)
    && ("slug" !in payload ==> x.slug == was.slug)
    && ("name" !in payload ==> x.name == was.name)
    && ("tenantId" !in payload ==> x.tenantId == was.tenantId)
  }

  ghost predicate KeepsRack(payload: Fields, was: Rack, x: Rack) {
    && ("id" !in payload ==> x.id == was.id)
    && ("siteId" !in payload ==> x.siteId == was.siteId)
    && ("name" !in payload ==> x.name == was.name)
    && ("totalUnits" !in payload ==> x.totalUnits == was.totalUnits)
  }

  /** All but the position, which is what the request alone names. */
  ghost predicate KeepsDevice(payload: Fields, was: Device, x: Device) {
    && ("id" !in payload ==> x.id == was.id)
    && ("siteId" !in payload ==> x.siteId == was.siteId)
    && ("name" !in payload ==> x.name == was.name)
    && ("role" !in payload ==> x.role == was.role)
    && ("status" !in payload ==> x.status == was.status)
    && NamesPlacement(payload, x.rackPosition)
  }

  ghost predicate KeepsPrefix(payload: Fields, was: Prefix, x: Prefix) {
    && ("id" !in payload ==> x.id == was.id)
    && ("vrfId" !in payload ==> x.vrfId == was.vrfId)
    && ("parentPrefixId" !in payload ==> x.parentPrefixId == was.parentPrefixId)
    && ("cidr" !in payload ==> x.cidr == was.cidr)
    && ("family" !in payload ==> (x.family == V6 <==> was.family == V6 || ':' in x.cidr))
    && ("status" !in payload ==> x.status == was.status)
    && ("allocationMode" !in payload ==> x.allocationMode == was.allocationMode)
    && ("tenantId" !in payload ==> x.tenantId == was.tenantId)
  }

  ghost predicate KeepsAddress(payload: Fields, was: IpAddress, x: IpAddress) {
    && ("id" !in payload ==> x.id == was.id)
    && ("vrfId" !in payload ==> x.vrfId == was.vrfId)
    && ("address" !in payload ==> x.address == was.address)
    && ("family" !in payload ==> (x.family == V6 <==> was.family == V6 || ':' in x.address))
    && ("status" !in payload ==> x.status == was.status)
    && ("role" !in payload ==> x.role == was.role)
    && ("prefixId" !in payload ==> x.prefixId == was.prefixId)
    && ("interfaceId" !in payload ==> x.interfaceId == was.interfaceId)
  }

  ghost predicate Keeps(st: State, payload: Fields, id: string, record: Record) {
    match record
    case SiteRecord(x) => forall was :: was in st.sites && was.id == id ==> KeepsSite(payload, was, x)
    case RackRecord(x) => forall was :: was in st.racks && was.id == id ==> KeepsRack(payload, was, x)
    case DeviceRecord(x) => forall was :: was in st.devices && was.id == id ==> KeepsDevice(payload, was, x)
    case PrefixRecord(x) => forall was :: was in st.prefixes && was.id == id ==> KeepsPrefix(payload, was, x)
    case AddressRecord(x) => forall was :: was in st.ipAddresses && was.id == id ==> KeepsAddress(payload, was, x)
  }

  // ----- what is wrong with a payload

  predicate DeviceRole(s: string) {
    s == "server" || s == "switch" || s == "router" || s == "pdu" || s == "appliance"
  }

  predicate DeviceStatus(s: string) {
    s == "active" || s == "planned" || s == "offline" || s == "decommissioned"
  }

  predicate IpamStatus(s: string) {
    s == "active" || s == "reserved" || s == "deprecated"
  }

  predicate AllocationMode(s: string) {
    s == "hierarchical" || s == "pool" || s == "static"
  }

  predicate AddressRole(s: string) {
    s == "loopback" || s == "primary" || s == "secondary" || s == "vip"
  }

  ghost predicate SiteFault(ctx: Context, st: State, payload: Fields, existingId: Option<string>, now: nat,
                            f: FieldName) {
    var name, tenantId := AsString(Field(payload, "name")), AsNullableString(Field(payload, "tenantId"));
    var id := IdGiven("site", payload, existingId, name, now);
    match f
    case OnName => name.None?
    case OnSlug => AsString(Field(payload, "slug")).None?
    case OnTenantId => Truthy(tenantId) && !HasTenant(ctx.tenants, tenantId.value)
    case OnId => Taken(st.sites, SiteId, id, existingId)
    case _ => false
  }

  ghost predicate RackFault(ctx: Context, st: State, payload: Fields, existingId: Option<string>, now: nat,
                            f: FieldName) {
    var name, siteId := AsString(Field(payload, "name")), AsString(Field(payload, "siteId"));
    var units := AsInteger(Field(payload, "totalUnits"));
    var id := IdGiven("rack", payload, existingId, name, now);
    match f
    case OnName => name.None?
    case OnSiteId => siteId.None? || !HasSite(st.sites, siteId.value)
    case OnTotalUnits => units.None? || units.value < 1
    case OnId => Taken(st.racks, RackId, id, existingId)
    case _ => false
  }

  /** The position lies inside the rack and clashes with no other device. */
  ghost predicate RoomFor(st: State, existingId: Option<string>, rack: Rack, p: RackPosition) {
    && 1 <= p.startingUnit && 1 <= p.heightUnits && p.startingUnit + p.heightUnits - 1 <= rack.totalUnits
    && forall d :: d in st.devices && Some(d.id) != existingId && d.rackPosition.Some? ==>
                     !Clashes(p, d.rackPosition.value)
  }

  /** The payload names a placement, but no rack by its id, or no position with room for the device. */
  ghost predicate PlacementFault(st: State, payload: Fields, existingId: Option<string>, f: FieldName) {
    var rackId := AsNullableString(Field(payload, "rackId"));
    var rack := if rackId.Some? then First(st.racks, RackId, rackId.value) else None;
    && !NamesPlacement(payload, None)
    && match f
       case OnRackId => rack.None?
       case OnRackPosition =>
         rack.Some? && !exists p :: NamesPlacement(payload, Some(p)) && RoomFor(st, existingId, rack.value, p)
       case _ => false
  }

  ghost predicate DeviceFault(ctx: Context, st: State, payload: Fields, existingId: Option<string>, now: nat,
                              f: FieldName) {
    var name, siteId := AsString(Field(payload, "name")), AsString(Field(payload, "siteId"));
    var role, status := AsString(Field(payload, "role")), AsString(Field(payload, "status"));
    var id := IdGiven("device", payload, existingId, name, now);
    || PlacementFault(st, payload, existingId, f)
    || match f
       case OnName => name.None?
       case OnSiteId => siteId.None? || !HasSite(st.sites, siteId.value)
       case OnRole => role.None? || !DeviceRole(role.value)
       case OnStatus => status.None? || !DeviceStatus(status.value)
       case OnId => Taken(st.devices, DeviceId, id, existingId)
       case _ => false
  }

  /** The record a prefix payload describes, with the defaults for what it leaves out. */
  ghost function PrefixDescribed(payload: Fields, existingId: Option<string>, now: nat, cidr: string): Prefix {
    Prefix(IdGiven("prefix", payload, existingId, Some(cidr), now),
           AsNullableString(Field(payload, "vrfId")),
           AsNullableString(Field(payload, "parentPrefixId")),
           cidr,
           FamilyGiven(payload, cidr),
           OrElse(AsString(Field(payload, "status")), "active"),
           OrElse(AsString(Field(payload, "allocationMode")), "pool"),
           AsNullableString(Field(payload, "tenantId")))
  }

  /** The hierarchy validator accepts the list. */
  ghost predicate HierarchyAccepts(prefixes: seq<Prefix>) {
    HierarchyOk(prefixes) && forall p :: p in prefixes ==> !ChainRepeats(prefixes, p)
  }

  /** A prefix other than the one being updated has this id. */
  predicate HasOtherPrefix(prefixes: seq<Prefix>, id: string, existingId: Option<string>) {
    exists p :: p in prefixes && p.id == id && Some(p.id) != existingId
  }

  ghost predicate PrefixFieldFault(ctx: Context, st: State, payload: Fields, existingId: Option<string>, now: nat,
                              f: FieldName) {
    var cidr, status := AsString(Field(payload, "cidr")), AsString(Field(payload, "status"));
    var vrfId, tenantId := AsNullableString(Field(payload, "vrfId")), AsNullableString(Field(payload, "tenantId"));
    var parentId := AsNullableString(Field(payload, "parentPrefixId"));
    var shaped := cidr.Some? && ValidCidrShape(FamilyGiven(payload, cidr.value), cidr.value);
    var id := IdGiven("prefix", payload, existingId, cidr, now);
    match f
    case OnCidr => !shaped
    case OnVrfId => Truthy(vrfId) && !HasVrf(ctx.vrfs, vrfId.value)
    case OnStatus => status.None? || !IpamStatus(status.value)
    case OnAllocationMode => !AllocationMode(OrElse(AsString(Field(payload, "allocationMode")), "pool"))
    case OnTenantId => Truthy(tenantId) && !HasTenant(ctx.tenants, tenantId.value)
    case OnParentPrefixId =>
      Truthy(parentId) && !HasOtherPrefix(st.prefixes, parentId.value, existingId)
    case OnId => Taken(st.prefixes, PrefixId, id, existingId)
    case _ => false
  }

  /** A prefix of the right shape is also checked in its hierarchy, in the list with the record last. */
  ghost predicate PrefixFault(ctx: Context, st: State, payload: Fields, existingId: Option<string>, now: nat,
                              f: FieldName) {
    var cidr := AsString(Field(payload, "cidr"));
    || PrefixFieldFault(ctx, st, payload, existingId, now, f)
    || (f == OnParentPrefixId && cidr.Some? && ValidCidrShape(FamilyGiven(payload, cidr.value), cidr.value)
        && !HierarchyAccepts(Without(st.prefixes, PrefixId, existingId) +
                             [PrefixDescribed(payload, existingId, now, cidr.value)]))
  }

  ghost predicate AddressFault(ctx: Context, st: State, payload: Fields, existingId: Option<string>, now: nat,
                               f: FieldName) {
    var address, status := AsString(Field(payload, "address")), AsString(Field(payload, "status"));
    var role := AsString(Field(payload, "role"));
    var vrfId, prefixId := AsNullableString(Field(payload, "vrfId")), AsNullableString(Field(payload, "prefixId"));
    var interfaceId := AsNullableString(Field(payload, "interfaceId"));
    var prefix := if Truthy(prefixId) then First(st.prefixes, PrefixId, prefixId.value) else None;
    var id := IdGiven("ip", payload, existingId, address, now);
    match f
    case OnAddress =>
      address.None? || '/' !in address.value || !ValidCidrShape(FamilyGiven(payload, address.value), address.value)
    case OnVrfId =>
      (Truthy(vrfId) && !HasVrf(ctx.vrfs, vrfId.value)) || (prefix.Some? && prefix.value.vrfId != vrfId)
    case OnPrefixId => Truthy(prefixId) && prefix.None?
    case OnInterfaceId => Truthy(interfaceId) && !HasInterface(ctx.interfaces, interfaceId.value)
    case OnStatus => status.None? || !IpamStatus(status.value)
    case OnRole => role.None? || !AddressRole(role.value)
    case OnId => Taken(st.ipAddresses, AddressId, id, existingId)
    case _ => false
  }

  /** The field is one the payload fills wrongly. */
  ghost predicate Fault(ctx: Context, st: State, resource: Resource, payload: Fields, existingId: Option<string>,
                        now: nat, f: FieldName) {
    match resource
    case Sites => SiteFault(ctx, st, payload, existingId, now, f)
    case Racks => RackFault(ctx, st, payload, existingId, now, f)
    case Devices => DeviceFault(ctx, st, payload, existingId, now, f)
    case Prefixes => PrefixFault(ctx, st, payload, existingId, now, f)
    case IpAddresses => AddressFault(ctx, st, payload, existingId, now, f)
  }

  // ----- what an answer changes

  ghost predicate Stored(st: State, resource: Resource, id: string) {
    match resource
    case Sites => exists x :: x in st.sites && x.id == id
    case Racks => exists x :: x in st.racks && x.id == id
    case Devices => exists x :: x in st.devices && x.id == id
    case Prefixes => exists x :: x in st.prefixes && x.id == id
    case IpAddresses => exists x :: x in st.ipAddresses && x.id == id
  }

  /** The record comes last in its list, and nothing else changes. */
  ghost predicate Added(before: State, after: State, record: Record) {
    match record
    case SiteRecord(x) => after == before.(sites := before.sites + [x])
    case RackRecord(x) => after == before.(racks := before.racks + [x])
    case DeviceRecord(x) => after == before.(devices := before.devices + [x])
    case PrefixRecord(x) => after == before.(prefixes := before.prefixes + [x])
    case AddressRecord(x) => after == before.(ipAddresses := before.ipAddresses + [x])
  }

  /** The record takes the place of the one with the id, and nothing else changes. */
  ghost predicate Changed(before: State, after: State, id: string, record: Record) {
    match record
    case SiteRecord(x) =>
      exists k :: 0 <= k < |before.sites| && before.sites[k].id == id
                  && after == before.(sites := before.sites[k := x])
    case RackRecord(x) =>
      exists k :: 0 <= k < |before.racks| && before.racks[k].id == id
                  && after == before.(racks := before.racks[k := x])
    case DeviceRecord(x) =>
      exists k :: 0 <= k < |before.devices| && before.devices[k].id == id
                  && after == before.(devices := before.devices[k := x])
    case PrefixRecord(x) =>
      exists k :: 0 <= k < |before.prefixes| && before.prefixes[k].id == id
                  && after == before.(prefixes := before.prefixes[k := x])
    case AddressRecord(x) =>
      exists k :: 0 <= k < |before.ipAddresses| && before.ipAddresses[k].id == id
                  && after == before.(ipAddresses := before.ipAddresses[k := x])
  }

  /** The record with the id is gone, the others stay in order, and nothing else changes. */
  ghost predicate Removed(before: State, after: State, resource: Resource, id: string) {
    match resource
    case Sites => CutOut(before.sites, after.sites, SiteId, id) && after == before.(sites := after.sites)
    case Racks => CutOut(before.racks, after.racks, RackId, id) && after == before.(racks := after.racks)
    case Devices => CutOut(before.devices, after.devices, DeviceId, id) && after == before.(devices := after.devices)
    case Prefixes =>
      CutOut(before.prefixes, after.prefixes, PrefixId, id) && after == before.(prefixes := after.prefixes)
    case IpAddresses =>
      && CutOut(before.ipAddresses, after.ipAddresses, AddressId, id)
      && after == before.(ipAddresses := after.ipAddresses)
  }

  /** The record a create or an update stores, and how. */
  ghost predicate Written(before: State, after: State, existingId: Option<string>, record: Record) {
    if existingId.None? then Added(before, after, record) else Changed(before, after, existingId.value, record)
  }
}
