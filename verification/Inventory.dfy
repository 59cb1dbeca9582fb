/** The inventory API: payload validation per resource, the next state of a create or update, and
    the reference guards of a delete. */
module Inventory {
  import opened Wrappers
  import opened Payload
  import opened InventoryModel
  import opened InventoryRequests
  import opened InventoryState
  import opened Keyed
  import opened RackPlacement
  import Hierarchy = PrefixHierarchy
  import Snapshots = SnapshotValidation

  // ----- payloads

  /** One more error, when something is wrong. */
  function Noted(errors: seq<FieldName>, wrong: bool, field: FieldName): (r: seq<FieldName>)
    ensures forall f :: f in r <==> f in errors || (wrong && f == field)
    ensures r == [] <==> errors == [] && !wrong
  {
    if wrong then errors + [field] else errors
  }

  function NewId(kind: string, payload: Fields, existingId: Option<string>, fallback: Option<string>,
                 now: nat): string {
    var requested := AsNullableString(Field(payload, "id"));
    CreateId(kind, if requested.Some? then requested else if existingId.Some? then existingId else fallback, now)
  }

  lemma NewIdGiven(kind: string, payload: Fields, existingId: Option<string>, fallback: Option<string>, now: nat)
    ensures NewId(kind, payload, existingId, fallback, now) == IdGiven(kind, payload, existingId, fallback, now)
  {
    assert SanitizeId("") == "";
    hide AsNullableString, SanitizeId;
  }

  /** The site a payload asks for, or None when some field is refused. */
  function ProposedSite(ctx: Context, st: State, payload: Fields, existingId: Option<string>, now: nat): Option<Site> {
    var name := AsString(Field(payload, "name"));
    var slug := AsString(Field(payload, "slug"));
    var tenantId := AsNullableString(Field(payload, "tenantId"));
    var id := NewId("site", payload, existingId, name, now);
    if name.Some? && slug.Some? && (Truthy(tenantId) ==> HasTenant(ctx.tenants, tenantId.value))
       && !Taken(st.sites, SiteId, id, existingId)
    then Some(Site(id, slug.value, name.value, tenantId))
    else None
  }

  lemma ProposedSiteReads(ctx: Context, st: State, payload: Fields, existingId: Option<string>, now: nat)
    ensures var r := ProposedSite(ctx, st, payload, existingId, now);
            r.Some? ==> SiteReads(payload, existingId, now, r.value)
  {
    NewIdGiven("site", payload, existingId, AsString(Field(payload, "name")), now);
    hide AsString, AsNullableString, NewId, IdGiven, HasTenant, Taken;
  }

  method ValidateSitePayload(ctx: Context, st: State, payload: Fields, existingId: Option<string>, now: nat)
    returns (errors: seq<FieldName>, record: Option<Site>)
    ensures record == ProposedSite(ctx, st, payload, existingId, now)
    ensures record.Some? <==> errors == []
    ensures record.Some? ==> SiteReads(payload, existingId, now, record.value)
    ensures forall f :: f in errors <==> SiteFault(ctx, st, payload, existingId, now, f)
  {
    ProposedSiteReads(ctx, st, payload, existingId, now);
    hide SiteReads, AsString, AsNullableString, NewId, IdGiven, Noted;
    NewIdGiven("site", payload, existingId, AsString(Field(payload, "name")), now);
    errors := [];
    var name := AsString(Field(payload, "name"));
    var slug := AsString(Field(payload, "slug"));
    var tenantId := AsNullableString(Field(payload, "tenantId"));
    var id := NewId("site", payload, existingId, name, now);
    errors := Noted(errors, name.None?, OnName);
    errors := Noted(errors, slug.None?, OnSlug);
    errors := Noted(errors, Truthy(tenantId) && !HasTenant(ctx.tenants, tenantId.value), OnTenantId);
    errors := Noted(errors, Taken(st.sites, SiteId, id, existingId), OnId);
    record := if |errors| == 0 then Some(Site(id, slug.value, name.value, tenantId)) else None;
  }

  function ProposedRack(ctx: Context, st: State, payload: Fields, existingId: Option<string>, now: nat): Option<Rack> {
    var name := AsString(Field(payload, "name"));
    var siteId := AsString(Field(payload, "siteId"));
    var totalUnits := AsInteger(Field(payload, "totalUnits"));
    var id := NewId("rack", payload, existingId, name, now);
    if name.Some? && siteId.Some? && HasSite(st.sites, siteId.value) && totalUnits.Some? && totalUnits.value >= 1
       && !Taken(st.racks, RackId, id, existingId)
    then Some(Rack(id, siteId.value, name.value, totalUnits.value))
    else None
  }

  lemma ProposedRackReads(ctx: Context, st: State, payload: Fields, existingId: Option<string>, now: nat)
    ensures var r := ProposedRack(ctx, st, payload, existingId, now);
            r.Some? ==> RackReads(payload, existingId, now, r.value)
  {
    NewIdGiven("rack", payload, existingId, AsString(Field(payload, "name")), now);
    hide AsString, AsInteger, NewId, IdGiven, HasSite, Taken;
  }

  method ValidateRackPayload(ctx: Context, st: State, payload: Fields, existingId: Option<string>, now: nat)
    returns (errors: seq<FieldName>, record: Option<Rack>)
    ensures record == ProposedRack(ctx, st, payload, existingId, now)
    ensures record.Some? <==> errors == []
    ensures record.Some? ==> RackReads(payload, existingId, now, record.value)
    ensures forall f :: f in errors <==> RackFault(ctx, st, payload, existingId, now, f)
  {
    ProposedRackReads(ctx, st, payload, existingId, now);
    hide RackReads, AsString, AsInteger, NewId, IdGiven, Noted;
    NewIdGiven("rack", payload, existingId, AsString(Field(payload, "name")), now);
    errors := [];
    var name := AsString(Field(payload, "name"));
    var siteId := AsString(Field(payload, "siteId"));
    var totalUnits := AsInteger(Field(payload, "totalUnits"));
    var id := NewId("rack", payload, existingId, name, now);
    errors := Noted(errors, name.None?, OnName);
    errors := Noted(errors, siteId.None? || !HasSite(st.sites, siteId.value), OnSiteId);
    errors := Noted(errors, totalUnits.None? || totalUnits.value < 1, OnTotalUnits);
    errors := Noted(errors, Taken(st.racks, RackId, id, existingId), OnId);
    record := if |errors| == 0 then Some(Rack(id, siteId.value, name.value, totalUnits.value)) else None;
  }

  const ROLES: set<string> := {"server", "switch", "router", "pdu", "appliance"}
  const DEVICE_STATUSES: set<string> := {"active", "planned", "offline", "decommissioned"}
  const IPAM_STATUSES: set<string> := {"active", "reserved", "deprecated"}
  const ALLOCATION_MODES: set<string> := {"hierarchical", "pool", "static"}
  const ADDRESS_ROLES: set<string> := {"loopback", "primary", "secondary", "vip"}

  lemma AllowedValues(s: string)
    ensures s in ROLES <==> DeviceRole(s)
    ensures s in DEVICE_STATUSES <==> DeviceStatus(s)
    ensures s in IPAM_STATUSES <==> IpamStatus(s)
    ensures s in ALLOCATION_MODES <==> AllocationMode(s)
    ensures s in ADDRESS_ROLES <==> AddressRole(s)
  {
  }

  /** The positions in the rack of all devices but the one being updated. */
  function OccupiedIn(devices: seq<Device>, existingId: Option<string>, rackId: string): (r: seq<RackPosition>)
    ensures forall d :: (d in devices && Some(d.id) != existingId && d.rackPosition.Some?
                         && d.rackPosition.value.rackId == rackId) ==> d.rackPosition.value in r
  {
    if devices == [] then []
    else
      var rest := OccupiedIn(devices[..|devices| - 1], existingId, rackId);
      var d := devices[|devices| - 1];
      if Some(d.id) != existingId && d.rackPosition.Some? && d.rackPosition.value.rackId == rackId
      then rest + [d.rackPosition.value] else rest
  }

  datatype Placement = Unplaced | Placed(position: RackPosition) | Refused(field: FieldName)

  function ProposedPlacement(st: State, payload: Fields, existingId: Option<string>): Placement {
    var rackId := AsNullableString(Field(payload, "rackId"));
    var rackFace := OrElse(AsNullableString(Field(payload, "rackFace")), "front");
    var startUnit := AsInteger(Field(payload, "startUnit"));
    var heightUnits := AsInteger(Field(payload, "heightUnits"));
    if !Truthy(rackId) && startUnit.None? && heightUnits.None? then Unplaced
    else
      var rack := if rackId.Some? then First(st.racks, RackId, rackId.value) else None;
      if rack.None? then Refused(OnRackId)
      else if startUnit.None? || heightUnits.None? then Refused(OnRackPosition)
      else
        var candidate := RackPosition(rack.value.id, rackFace, startUnit.value, heightUnits.value);
        var occupied := OccupiedIn(st.devices, existingId, rack.value.id);
        if CanOccupyRackPosition(rack.value, candidate, occupied) != Fits then Refused(OnRackPosition)
        else Placed(candidate)
  }

  /** The position lies in the rack of its id and shares no unit with another device. */
  ghost predicate Admissible(st: State, existingId: Option<string>, p: RackPosition) {
    && p.heightUnits >= 1
    && First(st.racks, RackId, p.rackId).Some? && InBounds(First(st.racks, RackId, p.rackId).value, p)
    && forall d :: d in st.devices && Some(d.id) != existingId && d.rackPosition.Some? ==>
                     !ShareUnit(p, d.rackPosition.value)
  }

  ghost predicate HeightsPositive(devices: seq<Device>) {
    forall d :: d in devices && d.rackPosition.Some? ==> d.rackPosition.value.heightUnits >= 1
  }

  lemma PlacementIff(st: State, payload: Fields, existingId: Option<string>)
    ensures ProposedPlacement(st, payload, existingId).Unplaced? <==> NamesPlacement(payload, None)
  {
    hide AsInteger;
    hide CanOccupyRackPosition;
  }

  lemma {:induction false} OccupiedFrom(devices: seq<Device>, existingId: Option<string>, rackId: string,
                                        p: RackPosition)
    requires p in OccupiedIn(devices, existingId, rackId)
    ensures exists d :: d in devices && Some(d.id) != existingId && d.rackPosition == Some(p)
  {
    var front, last := devices[..|devices| - 1], devices[|devices| - 1];
    if p in OccupiedIn(front, existingId, rackId) {
      OccupiedFrom(front, existingId, rackId, p);
    } else {
      assert last in devices && last.rackPosition == Some(p);
    }
  }

  /** A position is accepted exactly when the payload names it and it is admissible, for stored
      positions at least one unit high, as all accepted ones are. */
  lemma PlacedIff(st: State, payload: Fields, existingId: Option<string>, p: RackPosition)
    ensures var placement := ProposedPlacement(st, payload, existingId);
            && (placement == Placed(p) ==> NamesPlacement(payload, Some(p)) && Admissible(st, existingId, p))
            && (HeightsPositive(st.devices) && NamesPlacement(payload, Some(p)) && Admissible(st, existingId, p) ==>
                  placement == Placed(p))
  {
    hide AsNullableString, AsInteger, CanOccupyRackPosition, ShareUnit, InBounds;
    if NamesPlacement(payload, Some(p)) && First(st.racks, RackId, p.rackId).Some? {
      var rack := First(st.racks, RackId, p.rackId).value;
      var occupied := OccupiedIn(st.devices, existingId, rack.id);
      if CanOccupyRackPosition(rack, p, occupied) == Fits {
        FitsIsInBounds(rack, p, occupied);
        FreeElsewhere(st.devices, existingId, p);
      } else if Admissible(st, existingId, p) && HeightsPositive(st.devices) {
        AdmissibleFits(st, existingId, p);
      }
    }
  }

  lemma {:induction false} FreeElsewhere(devices: seq<Device>, existingId: Option<string>, p: RackPosition)
    requires forall q :: q in OccupiedIn(devices, existingId, p.rackId) ==> !ShareUnit(p, q)
    ensures forall d :: d in devices && Some(d.id) != existingId && d.rackPosition.Some? ==>
                          !ShareUnit(p, d.rackPosition.value)
  {
  }

  lemma {:induction false} AdmissibleFits(st: State, existingId: Option<string>, p: RackPosition)
    requires Admissible(st, existingId, p) && HeightsPositive(st.devices)
    ensures CanOccupyRackPosition(First(st.racks, RackId, p.rackId).value, p,
                                  OccupiedIn(st.devices, existingId, p.rackId)) == Fits
  {
    hide First, ShareUnit, Clashes;
    forall q | q in OccupiedIn(st.devices, existingId, p.rackId) ensures !Clashes(p, q) {
      OccupiedFrom(st.devices, existingId, p.rackId, q);
      ClashIsSharedUnit(p, q);
    }
  }

  function ProposedDevice(ctx: Context, st: State, payload: Fields, existingId: Option<string>,
                          now: nat): Option<Device> {
    var name := AsString(Field(payload, "name"));
    var siteId := AsString(Field(payload, "siteId"));
    var role := AsString(Field(payload, "role"));
    var status := AsString(Field(payload, "status"));
    var id := NewId("device", payload, existingId, name, now);
    var placement := ProposedPlacement(st, payload, existingId);
    if name.Some? && siteId.Some? && HasSite(st.sites, siteId.value)
       && role.Some? && role.value in ROLES && status.Some? && status.value in DEVICE_STATUSES
       && !placement.Refused? && !Taken(st.devices, DeviceId, id, existingId)
    then Some(Device(id, siteId.value, if placement.Placed? then Some(placement.position) else None,
                     name.value, role.value, status.value))
    else None
  }

  lemma ProposedDeviceReads(ctx: Context, st: State, payload: Fields, existingId: Option<string>, now: nat)
    ensures var r := ProposedDevice(ctx, st, payload, existingId, now);
            r.Some? ==> DeviceReads(payload, existingId, now, r.value)
  {
    NewIdGiven("device", payload, existingId, AsString(Field(payload, "name")), now);
    PlacementIff(st, payload, existingId);
    var placement := ProposedPlacement(st, payload, existingId);
    if placement.Placed? {
      PlacedIff(st, payload, existingId, placement.position);
    }
    hide AsString, NewId, IdGiven, HasSite, Taken, NamesPlacement, ProposedPlacement, ROLES, DEVICE_STATUSES;
    hide Admissible, HeightsPositive;
  }

  /** The faults of a device payload, in the order they are looked for. */
  lemma DeviceFaultIff(ctx: Context, st: State, payload: Fields, existingId: Option<string>, now: nat, f: FieldName)
    ensures var name, siteId := AsString(Field(payload, "name")), AsString(Field(payload, "siteId"));
            var role, status := AsString(Field(payload, "role")), AsString(Field(payload, "status"));
            DeviceFault(ctx, st, payload, existingId, now, f) <==>
            || (name.None? && f == OnName)
            || ((siteId.None? || !HasSite(st.sites, siteId.value)) && f == OnSiteId)
            || ((role.None? || role.value !in ROLES) && f == OnRole)
            || ((status.None? || status.value !in DEVICE_STATUSES) && f == OnStatus)
            || PlacementFault(st, payload, existingId, f)
            || (Taken(st.devices, DeviceId, NewId("device", payload, existingId, name, now), existingId) && f == OnId)
  {
    NewIdGiven("device", payload, existingId, AsString(Field(payload, "name")), now);
    AllowedValues(OrElse(AsString(Field(payload, "role")), ""));
    AllowedValues(OrElse(AsString(Field(payload, "status")), ""));
    hide PlacementFault, AsString, NewId, IdGiven, HasSite, Taken, DeviceRole, DeviceStatus, ROLES, DEVICE_STATUSES;
  }

  method ValidateDevicePayload(ctx: Context, st: State, payload: Fields, existingId: Option<string>, now: nat)
    returns (errors: seq<FieldName>, record: Option<Device>)
    ensures record == ProposedDevice(ctx, st, payload, existingId, now)
    ensures record.Some? <==> errors == []
    ensures record.Some? ==> DeviceReads(payload, existingId, now, record.value)
    ensures forall f :: f in errors <==> DeviceFault(ctx, st, payload, existingId, now, f)
  {
    ProposedDeviceReads(ctx, st, payload, existingId, now);
    forall f {
      DeviceFaultIff(ctx, st, payload, existingId, now, f);
    }
    hide DeviceReads, DeviceFault, ProposedPlacement, PlacementFault, AsString, AsNullableString, AsInteger, NewId;
    hide NamesPlacement, Noted, HasSite, Taken, Admissible, HeightsPositive, ROLES, DEVICE_STATUSES;
    errors := [];
    var name := AsString(Field(payload, "name"));
    var siteId := AsString(Field(payload, "siteId"));
    var role := AsString(Field(payload, "role"));
    var status := AsString(Field(payload, "status"));
    var id := NewId("device", payload, existingId, name, now);
    errors := Noted(errors, name.None?, OnName);
    errors := Noted(errors, siteId.None? || !HasSite(st.sites, siteId.value), OnSiteId);
    errors := Noted(errors, role.None? || role.value !in ROLES, OnRole);
    errors := Noted(errors, status.None? || status.value !in DEVICE_STATUSES, OnStatus);
    var refused, rackPosition := PlaceDevice(st, payload, existingId);
    errors := errors + refused;
    errors := Noted(errors, Taken(st.devices, DeviceId, id, existingId), OnId);
    record := if |errors| == 0
              then Some(Device(id, siteId.value, rackPosition, name.value, role.value, status.value)) else None;
  }

  lemma PlacementFaultIff(st: State, payload: Fields, existingId: Option<string>, f: FieldName)
    ensures PlacementFault(st, payload, existingId, f) <==> ProposedPlacement(st, payload, existingId) == Refused(f)
  {
    PlacementIff(st, payload, existingId);
    hide AsNullableString, AsInteger, CanOccupyRackPosition, RoomFor, First;
    var rackId := AsNullableString(Field(payload, "rackId"));
    var rack := if rackId.Some? then First(st.racks, RackId, rackId.value) else None;
    var startUnit, heightUnits := AsInteger(Field(payload, "startUnit")), AsInteger(Field(payload, "heightUnits"));
    if rack.Some? && startUnit.Some? && heightUnits.Some? {
      var rackFace := OrElse(AsNullableString(Field(payload, "rackFace")), "front");
      var p := RackPosition(rack.value.id, rackFace, startUnit.value, heightUnits.value);
      assert NamesPlacement(payload, Some(p));
      assert forall q :: NamesPlacement(payload, Some(q)) ==> q == p;
      RoomIff(st, existingId, rack.value, p);
    }
  }

  /** The placement check finds exactly the positions there is room for. */
  lemma {:induction false} RoomIff(st: State, existingId: Option<string>, rack: Rack, p: RackPosition)
    requires p.rackId == rack.id
    ensures RoomFor(st, existingId, rack, p) <==>
            CanOccupyRackPosition(rack, p, OccupiedIn(st.devices, existingId, rack.id)) == Fits
  {
    forall q | q in OccupiedIn(st.devices, existingId, rack.id)
      ensures exists d :: d in st.devices && Some(d.id) != existingId && d.rackPosition == Some(q)
    {
      OccupiedFrom(st.devices, existingId, rack.id, q);
    }
  }

  /** The placement part of a device payload: at most one error, or the new position. */
  method PlaceDevice(st: State, payload: Fields, existingId: Option<string>)
    returns (errors: seq<FieldName>, rackPosition: Option<RackPosition>)
    ensures match ProposedPlacement(st, payload, existingId)
            case Unplaced => errors == [] && rackPosition == None
            case Placed(position) => errors == [] && rackPosition == Some(position)
            case Refused(field) => errors == [field] && rackPosition == None
    ensures errors == [] && rackPosition == None <==> NamesPlacement(payload, None)
    ensures forall f :: f in errors <==> PlacementFault(st, payload, existingId, f)
    ensures rackPosition.Some? ==>
              NamesPlacement(payload, rackPosition) && Admissible(st, existingId, rackPosition.value)
    ensures HeightsPositive(st.devices) ==>
              forall p :: NamesPlacement(payload, Some(p)) && Admissible(st, existingId, p) ==> rackPosition == Some(p)
  {
    PlacementIff(st, payload, existingId);
    ghost var placement := ProposedPlacement(st, payload, existingId);
    forall f ensures PlacementFault(st, payload, existingId, f) <==> placement == Refused(f) {
      PlacementFaultIff(st, payload, existingId, f);
    }
    forall p: RackPosition
      ensures placement == Placed(p) ==> NamesPlacement(payload, Some(p)) && Admissible(st, existingId, p)
      ensures HeightsPositive(st.devices) && NamesPlacement(payload, Some(p)) && Admissible(st, existingId, p) ==>
                placement == Placed(p)
    {
      PlacedIff(st, payload, existingId, p);
    }
    hide CanOccupyRackPosition, Admissible, HeightsPositive, NamesPlacement, PlacementFault;
    errors, rackPosition := [], None;
    var rackId := AsNullableString(Field(payload, "rackId"));
    var rackFace := OrElse(AsNullableString(Field(payload, "rackFace")), "front");
    var startUnit := AsInteger(Field(payload, "startUnit"));
    var heightUnits := AsInteger(Field(payload, "heightUnits"));
    if Truthy(rackId) || startUnit.Some? || heightUnits.Some? {
      var rack := if rackId.Some? then First(st.racks, RackId, rackId.value) else None;
      if rack.None? {
        errors := [OnRackId];
      } else if startUnit.None? || heightUnits.None? {
        errors := [OnRackPosition];
      } else {
        var candidate := RackPosition(rack.value.id, rackFace, startUnit.value, heightUnits.value);
        var occupied := OccupiedIn(st.devices, existingId, rack.value.id);
        if CanOccupyRackPosition(rack.value, candidate, occupied) != Fits {
          errors := [OnRackPosition];
        } else {
          rackPosition := Some(candidate);
        }
      }
    }
  }

  function FamilyOf(payload: Fields, text: Option<string>): Family {
    if AsInteger(Field(payload, "family")) == Some(6) || (text.Some? && ':' in text.value) then V6 else V4
  }

  function CandidatePrefix(payload: Fields, existingId: Option<string>, now: nat): Prefix {
    var cidr := AsString(Field(payload, "cidr"));
    Prefix(NewId("prefix", payload, existingId, cidr, now),
           AsNullableString(Field(payload, "vrfId")),
           AsNullableString(Field(payload, "parentPrefixId")),
           OrElse(cidr, ""),
           FamilyOf(payload, cidr),
           OrElse(AsString(Field(payload, "status")), "active"),
           OrElse(AsString(Field(payload, "allocationMode")), "pool"),
           AsNullableString(Field(payload, "tenantId")))
  }

  ghost predicate PrefixFieldsOk(ctx: Context, st: State, payload: Fields, existingId: Option<string>,
                                 candidate: Prefix) {
    && AsString(Field(payload, "cidr")).Some?
    && (Truthy(candidate.vrfId) ==> HasVrf(ctx.vrfs, candidate.vrfId.value))
    && AsString(Field(payload, "status")).Some? && candidate.status in IPAM_STATUSES
    && candidate.allocationMode in ALLOCATION_MODES
    && (Truthy(candidate.tenantId) ==> HasTenant(ctx.tenants, candidate.tenantId.value))
    && (Truthy(candidate.parentPrefixId) ==>
          HasOtherPrefix(st.prefixes, candidate.parentPrefixId.value, existingId))
    && !Taken(st.prefixes, PrefixId, candidate.id, existingId)
    && Hierarchy.ValidCidrShape(candidate.family, candidate.cidr)
  }

  /** The prefix a payload asks for: the hierarchy is checked with the record moved to the end. */
  ghost function ProposedPrefix(ctx: Context, st: State, payload: Fields, existingId: Option<string>,
                                now: nat): Option<Prefix> {
    var candidate := CandidatePrefix(payload, existingId, now);
    if PrefixFieldsOk(ctx, st, payload, existingId, candidate)
       && Hierarchy.HierarchyOk(Without(st.prefixes, PrefixId, existingId) + [candidate])
    then Some(candidate) else None
  }

  /** The record of a payload without faults reads the payload. */
  lemma CandidateReads(ctx: Context, st: State, payload: Fields, existingId: Option<string>, now: nat)
    ensures var candidate := CandidatePrefix(payload, existingId, now);
            PrefixFieldsOk(ctx, st, payload, existingId, candidate) ==> PrefixReads(payload, existingId, now, candidate)
  {
    CandidateDescribed(payload, existingId, now);
    hide AsString, AsNullableString, AsInteger, NewId, IdGiven, HasVrf, HasTenant, Taken, Hierarchy.ValidCidrShape;
    hide IPAM_STATUSES, ALLOCATION_MODES;
  }

  method ValidatePrefixPayload(ctx: Context, st: State, payload: Fields, existingId: Option<string>, now: nat)
    returns (errors: seq<FieldName>, record: Option<Prefix>)
    requires UniquePrefixes(st.prefixes)
    ensures record == ProposedPrefix(ctx, st, payload, existingId, now)
    ensures record.Some? <==> errors == []
    ensures record.Some? ==> PrefixReads(payload, existingId, now, record.value)
    ensures forall f :: f in errors <==> PrefixFault(ctx, st, payload, existingId, now, f)
  {
    CandidateReads(ctx, st, payload, existingId, now);
    hide Hierarchy.HierarchyOk, Hierarchy.ChainRepeats, Hierarchy.ValidCidrShape, CandidatePrefix, PrefixFieldsOk;
    hide PrefixReads, PrefixFieldFault, AsString, FamilyGiven, IdGiven, Noted;
    CandidateDescribed(payload, existingId, now);
    var candidate := CandidatePrefix(payload, existingId, now);
    var shapeValid;
    errors, shapeValid := CheckPrefixFields(ctx, st, payload, existingId, now, candidate);
    if shapeValid {
      var hierarchy := Without(st.prefixes, PrefixId, existingId) + [candidate];
      if !Taken(st.prefixes, PrefixId, candidate.id, existingId) {
        AppendedIsUnique(st.prefixes, existingId, candidate);
      }
      var verdict := Hierarchy.ValidatePrefixHierarchy(hierarchy);
      errors := Noted(errors, !verdict.Accepted?, OnParentPrefixId);
    }
    record := if |errors| == 0 then Some(candidate) else None;
  }

  lemma {:induction false} AppendedIsUnique(ps: seq<Prefix>, existingId: Option<string>, candidate: Prefix)
    requires UniquePrefixes(ps) && !Taken(ps, PrefixId, candidate.id, existingId)
    ensures UniquePrefixes(Without(ps, PrefixId, existingId) + [candidate])
  {
    var kept := Without(ps, PrefixId, existingId);
    assert forall i :: 0 <= i < |kept| ==> kept[i] in kept;
  }

  /** The candidate is what the payload describes; with no CIDR it has no valid shape. */
  lemma CandidateDescribed(payload: Fields, existingId: Option<string>, now: nat)
    ensures var cidr, candidate := AsString(Field(payload, "cidr")), CandidatePrefix(payload, existingId, now);
            && candidate.id == IdGiven("prefix", payload, existingId, cidr, now)
            && (cidr.Some? ==> candidate == PrefixDescribed(payload, existingId, now, cidr.value))
            && (cidr.None? ==> !Hierarchy.ValidCidrShape(candidate.family, candidate.cidr))
  {
    NewIdGiven("prefix", payload, existingId, AsString(Field(payload, "cidr")), now);
    hide AsString, AsNullableString, AsInteger, NewId, IdGiven;
  }

  /** The faults of a prefix payload outside its hierarchy, in the order they are looked for. */
  lemma PrefixFieldFaultIff(ctx: Context, st: State, payload: Fields, existingId: Option<string>, now: nat,
                            f: FieldName)
    ensures var cidr, p := AsString(Field(payload, "cidr")), CandidatePrefix(payload, existingId, now);
            var status := AsString(Field(payload, "status"));
            PrefixFieldFault(ctx, st, payload, existingId, now, f) <==>
            || (cidr.None? && f == OnCidr)
            || (Truthy(p.vrfId) && !HasVrf(ctx.vrfs, p.vrfId.value) && f == OnVrfId)
            || ((status.None? || p.status !in IPAM_STATUSES) && f == OnStatus)
            || (p.allocationMode !in ALLOCATION_MODES && f == OnAllocationMode)
            || (Truthy(p.tenantId) && !HasTenant(ctx.tenants, p.tenantId.value) && f == OnTenantId)
            || (Truthy(p.parentPrefixId) && f == OnParentPrefixId
                && !HasOtherPrefix(st.prefixes, p.parentPrefixId.value, existingId))
            || (Taken(st.prefixes, PrefixId, p.id, existingId) && f == OnId)
            || (!Hierarchy.ValidCidrShape(p.family, p.cidr) && f == OnCidr)
  {
    CandidateDescribed(payload, existingId, now);
    AllowedValues(OrElse(AsString(Field(payload, "status")), "active"));
    AllowedValues(OrElse(AsString(Field(payload, "allocationMode")), "pool"));
    hide Hierarchy.ValidCidrShape, AsString, AsNullableString, AsInteger, NewId, IdGiven;
    hide Taken, IPAM_STATUSES, ALLOCATION_MODES, IpamStatus, AllocationMode, HasVrf, HasTenant;
  }

  method CheckPrefixFields(ctx: Context, st: State, payload: Fields, existingId: Option<string>, now: nat,
                           candidate: Prefix)
    returns (errors: seq<FieldName>, shapeValid: bool)
    requires candidate == CandidatePrefix(payload, existingId, now)
    ensures errors == [] <==> PrefixFieldsOk(ctx, st, payload, existingId, candidate)
    ensures errors == [] ==> shapeValid && !Taken(st.prefixes, PrefixId, candidate.id, existingId)
    ensures shapeValid <==> Hierarchy.ValidCidrShape(candidate.family, candidate.cidr)
    ensures forall f :: f in errors <==> PrefixFieldFault(ctx, st, payload, existingId, now, f)
  {
    hide Hierarchy.ValidCidrShape, AsString, AsNullableString, AsInteger, NewId, IdGiven, Noted;
    hide FamilyGiven, FamilyOf, OrElse, HasVrf, HasTenant, HasOtherPrefix, Taken;
    hide IPAM_STATUSES, ALLOCATION_MODES, PrefixFieldFault;
    CandidateDescribed(payload, existingId, now);
    forall f {
      PrefixFieldFaultIff(ctx, st, payload, existingId, now, f);
    }
    errors := [];
    var cidr := AsString(Field(payload, "cidr"));
    var status := AsString(Field(payload, "status"));
    errors := Noted(errors, cidr.None?, OnCidr);
    errors := Noted(errors, Truthy(candidate.vrfId) && !HasVrf(ctx.vrfs, candidate.vrfId.value), OnVrfId);
    errors := Noted(errors, status.None? || candidate.status !in IPAM_STATUSES, OnStatus);
    errors := Noted(errors, candidate.allocationMode !in ALLOCATION_MODES, OnAllocationMode);
    errors := Noted(errors,
                    Truthy(candidate.tenantId) && !HasTenant(ctx.tenants, candidate.tenantId.value),
                    OnTenantId);
    var orphan := Truthy(candidate.parentPrefixId)
                  && !HasOtherPrefix(st.prefixes, candidate.parentPrefixId.value, existingId);
    errors := Noted(errors, orphan, OnParentPrefixId);
    errors := Noted(errors, Taken(st.prefixes, PrefixId, candidate.id, existingId), OnId);
    shapeValid := Hierarchy.ValidCidrShape(candidate.family, candidate.cidr);
    errors := Noted(errors, !shapeValid, OnCidr);
  }

  function CandidateAddress(payload: Fields, existingId: Option<string>, now: nat): IpAddress {
    var address := AsString(Field(payload, "address"));
    IpAddress(NewId("ip", payload, existingId, address, now),
              AsNullableString(Field(payload, "vrfId")),
              OrElse(address, ""),
              FamilyOf(payload, address),
              OrElse(AsString(Field(payload, "status")), "active"),
              OrElse(AsString(Field(payload, "role")), "primary"),
              AsNullableString(Field(payload, "prefixId")),
              AsNullableString(Field(payload, "interfaceId")))
  }

  function ProposedAddress(ctx: Context, st: State, payload: Fields, existingId: Option<string>,
                           now: nat): Option<IpAddress> {
    var candidate := CandidateAddress(payload, existingId, now);
    var prefix := if Truthy(candidate.prefixId) then First(st.prefixes, PrefixId, candidate.prefixId.value) else None;
    if && AsString(Field(payload, "address")).Some?
       && (Truthy(candidate.vrfId) ==> HasVrf(ctx.vrfs, candidate.vrfId.value))
       && (Truthy(candidate.prefixId) ==> prefix.Some?)
       && (Truthy(candidate.interfaceId) ==> HasInterface(ctx.interfaces, candidate.interfaceId.value))
       && AsString(Field(payload, "status")).Some? && candidate.status in IPAM_STATUSES
       && AsString(Field(payload, "role")).Some? && candidate.role in ADDRESS_ROLES
       && !Taken(st.ipAddresses, AddressId, candidate.id, existingId)
       && '/' in candidate.address && Hierarchy.ValidCidrShape(candidate.family, candidate.address)
       && (prefix.Some? ==> prefix.value.vrfId == candidate.vrfId)
    then Some(candidate) else None
  }

  lemma ProposedAddressReads(ctx: Context, st: State, payload: Fields, existingId: Option<string>, now: nat)
    ensures var r := ProposedAddress(ctx, st, payload, existingId, now);
            r.Some? ==> AddressReads(payload, existingId, now, r.value)
  {
    NewIdGiven("ip", payload, existingId, AsString(Field(payload, "address")), now);
    hide AsString, AsNullableString, AsInteger, NewId, IdGiven, HasVrf, Taken, First, IPAM_STATUSES, ADDRESS_ROLES;
  }

  /** The faults of an address payload, in the order they are looked for. */
  lemma AddressFaultIff(ctx: Context, st: State, payload: Fields, existingId: Option<string>, now: nat, f: FieldName)
    ensures var address, a := AsString(Field(payload, "address")), CandidateAddress(payload, existingId, now);
            var status, role := AsString(Field(payload, "status")), AsString(Field(payload, "role"));
            var prefix := if Truthy(a.prefixId) then First(st.prefixes, PrefixId, a.prefixId.value) else None;
            AddressFault(ctx, st, payload, existingId, now, f) <==>
            || (address.None? && f == OnAddress)
            || (Truthy(a.vrfId) && !HasVrf(ctx.vrfs, a.vrfId.value) && f == OnVrfId)
            || (Truthy(a.prefixId) && prefix.None? && f == OnPrefixId)
            || (Truthy(a.interfaceId) && !HasInterface(ctx.interfaces, a.interfaceId.value) && f == OnInterfaceId)
            || ((status.None? || status.value !in IPAM_STATUSES) && f == OnStatus)
            || ((role.None? || role.value !in ADDRESS_ROLES) && f == OnRole)
            || (Taken(st.ipAddresses, AddressId, a.id, existingId) && f == OnId)
            || (('/' !in a.address || !Hierarchy.ValidCidrShape(a.family, a.address)) && f == OnAddress)
            || (prefix.Some? && prefix.value.vrfId != a.vrfId && f == OnVrfId)
  {
    NewIdGiven("ip", payload, existingId, AsString(Field(payload, "address")), now);
    AllowedValues(OrElse(AsString(Field(payload, "role")), ""));
    AllowedValues(OrElse(AsString(Field(payload, "status")), ""));
    hide Hierarchy.ValidCidrShape, AsString, AsNullableString, AsInteger, NewId, IdGiven, First, HasVrf;
    hide Taken, IPAM_STATUSES, ADDRESS_ROLES, IpamStatus, AddressRole;
  }

  /** An address payload is accepted exactly when it has no fault. */
  lemma ProposedAddressIff(ctx: Context, st: State, payload: Fields, existingId: Option<string>, now: nat)
    ensures var r := ProposedAddress(ctx, st, payload, existingId, now);
            && (r.Some? <==> forall f :: !AddressFault(ctx, st, payload, existingId, now, f))
            && (r.Some? ==> r.value == CandidateAddress(payload, existingId, now))
  {
    forall f {
      AddressFaultIff(ctx, st, payload, existingId, now, f);
    }
    hide Hierarchy.ValidCidrShape, AsString, AsNullableString, AsInteger, NewId, First, HasVrf, FamilyOf;
    hide Taken, IPAM_STATUSES, ADDRESS_ROLES, AddressFault;
    if forall f :: !AddressFault(ctx, st, payload, existingId, now, f) {
      assert !AddressFault(ctx, st, payload, existingId, now, OnAddress);
      assert !AddressFault(ctx, st, payload, existingId, now, OnVrfId);
      assert !AddressFault(ctx, st, payload, existingId, now, OnPrefixId);
      assert !AddressFault(ctx, st, payload, existingId, now, OnInterfaceId);
      assert !AddressFault(ctx, st, payload, existingId, now, OnStatus);
      assert !AddressFault(ctx, st, payload, existingId, now, OnRole);
      assert !AddressFault(ctx, st, payload, existingId, now, OnId);
    }
  }

  /** The address is there and what it names exists. */
  method CheckAddressReferences(ctx: Context, st: State, address: Option<string>, candidate: IpAddress)
    returns (errors: seq<FieldName>, prefix: Option<Prefix>)
    ensures prefix == if Truthy(candidate.prefixId) then First(st.prefixes, PrefixId, candidate.prefixId.value)
                      else None
    ensures forall f :: f in errors <==>
              || (address.None? && f == OnAddress)
              || (Truthy(candidate.vrfId) && !HasVrf(ctx.vrfs, candidate.vrfId.value) && f == OnVrfId)
              || (Truthy(candidate.prefixId) && prefix.None? && f == OnPrefixId)
              || (Truthy(candidate.interfaceId) && !HasInterface(ctx.interfaces, candidate.interfaceId.value)
                  && f == OnInterfaceId)
  {
    hide First, HasVrf, HasInterface, Noted;
    errors := Noted([], address.None?, OnAddress);
    errors := Noted(errors, Truthy(candidate.vrfId) && !HasVrf(ctx.vrfs, candidate.vrfId.value), OnVrfId);
    prefix := if Truthy(candidate.prefixId) then First(st.prefixes, PrefixId, candidate.prefixId.value) else None;
    errors := Noted(errors, Truthy(candidate.prefixId) && prefix.None?, OnPrefixId);
    var loose := Truthy(candidate.interfaceId) && !HasInterface(ctx.interfaces, candidate.interfaceId.value);
    errors := Noted(errors, loose, OnInterfaceId);
  }

  method ValidateIpAddressPayload(ctx: Context, st: State, payload: Fields, existingId: Option<string>, now: nat)
    returns (errors: seq<FieldName>, record: Option<IpAddress>)
    ensures record == ProposedAddress(ctx, st, payload, existingId, now)
    ensures record.Some? <==> errors == []
    ensures record.Some? ==> AddressReads(payload, existingId, now, record.value)
    ensures forall f :: f in errors <==> AddressFault(ctx, st, payload, existingId, now, f)
  {
    ProposedAddressIff(ctx, st, payload, existingId, now);
    ProposedAddressReads(ctx, st, payload, existingId, now);
    hide Hierarchy.ValidCidrShape, AsString, First, HasVrf, HasInterface, Noted, CandidateAddress;
    hide Taken, IPAM_STATUSES, ADDRESS_ROLES, AddressFault, AddressReads, ProposedAddress;
    var status := AsString(Field(payload, "status"));
    var role := AsString(Field(payload, "role"));
    var candidate := CandidateAddress(payload, existingId, now);
    var prefix;
    errors, prefix := CheckAddressReferences(ctx, st, AsString(Field(payload, "address")), candidate);
    errors := Noted(errors, status.None? || status.value !in IPAM_STATUSES, OnStatus);
    errors := Noted(errors, role.None? || role.value !in ADDRESS_ROLES, OnRole);
    errors := Noted(errors, Taken(st.ipAddresses, AddressId, candidate.id, existingId), OnId);
    errors := Noted(errors,
                    '/' !in candidate.address || !Hierarchy.ValidCidrShape(candidate.family, candidate.address),
                    OnAddress);
    errors := Noted(errors, prefix.Some? && prefix.value.vrfId != candidate.vrfId, OnVrfId);
    forall f ensures f in errors <==> AddressFault(ctx, st, payload, existingId, now, f) {
      AddressFaultIff(ctx, st, payload, existingId, now, f);
    }
    if errors != [] {
      assert errors[0] in errors;
    }
    record := if |errors| == 0 then Some(candidate) else None;
  }

  // ----- the next state of a create (no existing id) or an update

  function NextState(st: State, record: Record, existingId: Option<string>): State {
    match record
    case SiteRecord(site) =>
      st.(sites := if existingId.None? then st.sites + [site] else Replace(st.sites, SiteId, existingId.value, site))
    case RackRecord(rack) =>
      st.(racks := if existingId.None? then st.racks + [rack] else Replace(st.racks, RackId, existingId.value, rack))
    case DeviceRecord(device) =>
      st.(devices := if existingId.None? then st.devices + [device]
                     else Replace(st.devices, DeviceId, existingId.value, device))
    case PrefixRecord(prefix) =>
      st.(prefixes := if existingId.None? then st.prefixes + [prefix]
                      else Replace(st.prefixes, PrefixId, existingId.value, prefix))
    case AddressRecord(address) =>
      st.(ipAddresses := if existingId.None? then st.ipAddresses + [address]
                         else Replace(st.ipAddresses, AddressId, existingId.value, address))
  }

  ghost function Proposed(ctx: Context, st: State, resource: Resource, payload: Fields,
                          existingId: Option<string>, now: nat): Option<Record> {
    match resource
    case Sites =>
      var r := ProposedSite(ctx, st, payload, existingId, now); if r.Some? then Some(SiteRecord(r.value)) else None
    case Racks =>
      var r := ProposedRack(ctx, st, payload, existingId, now); if r.Some? then Some(RackRecord(r.value)) else None
    case Devices =>
      var r := ProposedDevice(ctx, st, payload, existingId, now); if r.Some? then Some(DeviceRecord(r.value)) else None
    case Prefixes =>
      var r := ProposedPrefix(ctx, st, payload, existingId, now); if r.Some? then Some(PrefixRecord(r.value)) else None
    case IpAddresses =>
      var r := ProposedAddress(ctx, st, payload, existingId, now);
      if r.Some? then Some(AddressRecord(r.value)) else None
  }

  /** A mutation takes effect when the record is acceptable and the next snapshot has no conflict. */
  ghost function AfterMutation(ctx: Context, st: State, resource: Resource, payload: Fields,
                               existingId: Option<string>, now: nat): State {
    match Proposed(ctx, st, resource, payload, existingId, now)
    case None => st
    case Some(record) =>
      var next := NextState(st, record, existingId);
      if Snapshots.ConflictFree(SnapshotOf(ctx, next)) then next else st
  }

  datatype Outcome =
    | Applied(record: Record)
    | Refusal(fields: seq<FieldName>)
    | Conflicting(conflicts: seq<Snapshots.Conflict>)
    | NotFound
    | Blocked
    | Deleted

  /** A new record, or one that is stored exactly once. */
  ghost predicate Locatable(st: State, resource: Resource, existingId: Option<string>) {
    existingId.Some? ==> UniqueIds(st) && Stored(st, resource, existingId.value)
  }

  /** The payload describes a record that would leave the snapshot with these conflicts. */
  ghost predicate WouldConflict(ctx: Context, st: State, resource: Resource, payload: Fields,
                                existingId: Option<string>, now: nat, conflicts: seq<Snapshots.Conflict>) {
    exists next, record ::
      && Reads(resource, payload, existingId, now, record) && Written(st, next, existingId, record)
      && conflicts == Snapshots.ConflictsOf(SnapshotOf(ctx, next))
  }

  lemma {:induction false} NextIsWritten(st: State, resource: Resource, payload: Fields, existingId: Option<string>,
                                         now: nat, record: Record)
    requires Reads(resource, payload, existingId, now, record) && Locatable(st, resource, existingId)
    ensures Written(st, NextState(st, record, existingId), existingId, record)
  {
    hide SiteReads, RackReads, DeviceReads, PrefixReads, AddressReads, UniqueKeys, Replace;
    if existingId.Some? {
      var id := existingId.value;
      match record {
        case SiteRecord(x) => ReplacedOnce(st.sites, SiteId, id, x);
        case RackRecord(x) => ReplacedOnce(st.racks, RackId, id, x);
        case DeviceRecord(x) => ReplacedOnce(st.devices, DeviceId, id, x);
        case PrefixRecord(x) => ReplacedOnce(st.prefixes, PrefixId, id, x);
        case AddressRecord(x) => ReplacedOnce(st.ipAddresses, AddressId, id, x);
      }
    }
  }

  method ValidatePayload(ctx: Context, st: State, resource: Resource, payload: Fields,
                         existingId: Option<string>, now: nat)
    returns (errors: seq<FieldName>, record: Option<Record>)
    requires UniquePrefixes(st.prefixes)
    ensures record == Proposed(ctx, st, resource, payload, existingId, now)
    ensures record.Some? <==> errors == []
    ensures record.Some? ==> Reads(resource, payload, existingId, now, record.value)
    ensures forall f :: f in errors <==> Fault(ctx, st, resource, payload, existingId, now, f)
  {
    hide ProposedSite, ProposedRack, ProposedDevice, ProposedPrefix, ProposedAddress;
    hide SiteReads, RackReads, DeviceReads, PrefixReads, AddressReads;
    hide SiteFault, RackFault, DeviceFault, PrefixFault, AddressFault;
    record := None;
    match resource {
      case Sites =>
        var r;
        errors, r := ValidateSitePayload(ctx, st, payload, existingId, now);
        record := if r.Some? then Some(SiteRecord(r.value)) else None;
      case Racks =>
        var r;
        errors, r := ValidateRackPayload(ctx, st, payload, existingId, now);
        record := if r.Some? then Some(RackRecord(r.value)) else None;
      case Devices =>
        var r;
        errors, r := ValidateDevicePayload(ctx, st, payload, existingId, now);
        record := if r.Some? then Some(DeviceRecord(r.value)) else None;
      case Prefixes =>
        var r;
        errors, r := ValidatePrefixPayload(ctx, st, payload, existingId, now);
        record := if r.Some? then Some(PrefixRecord(r.value)) else None;
      case IpAddresses =>
        var r;
        errors, r := ValidateIpAddressPayload(ctx, st, payload, existingId, now);
        record := if r.Some? then Some(AddressRecord(r.value)) else None;
    }
  }

  method ValidateMutation(ctx: Context, st: State, resource: Resource, payload: Fields,
                          existingId: Option<string>, now: nat) returns (outcome: Outcome, nextState: State)
    requires UniquePrefixes(st.prefixes)
    ensures nextState == AfterMutation(ctx, st, resource, payload, existingId, now)
    ensures outcome.Applied? || outcome.Refusal? || outcome.Conflicting?
    ensures outcome.Applied? ==>
              && Reads(resource, payload, existingId, now, outcome.record)
              && nextState == NextState(st, outcome.record, existingId)
              && Snapshots.ConflictFree(SnapshotOf(ctx, nextState))
              && (Locatable(st, resource, existingId) ==> Written(st, nextState, existingId, outcome.record))
    ensures outcome.Refusal? <==> exists f :: Fault(ctx, st, resource, payload, existingId, now, f)
    ensures outcome.Refusal? ==>
              && nextState == st
              && forall f :: f in outcome.fields <==> Fault(ctx, st, resource, payload, existingId, now, f)
    ensures outcome.Conflicting? ==>
              && nextState == st && outcome.conflicts != []
              && (Locatable(st, resource, existingId) ==>
                    WouldConflict(ctx, st, resource, payload, existingId, now, outcome.conflicts))
  {
    hide Proposed, NextState, Reads, Fault, Locatable, Written, Snapshots.ConflictFree, Snapshots.ConflictsOf;
    var errors, record := ValidatePayload(ctx, st, resource, payload, existingId, now);
    if record.None? {
      assert errors[0] in errors;
      return Refusal(errors), st;
    }
    nextState := NextState(st, record.value, existingId);
    if Locatable(st, resource, existingId) {
      NextIsWritten(st, resource, payload, existingId, now, record.value);
    }
    var valid, conflicts, _ := Snapshots.ValidateSnapshot(SnapshotOf(ctx, nextState));
    if valid {
      outcome := Applied(record.value);
    } else {
      outcome, nextState := Conflicting(conflicts), st;
    }
  }

  function StoredFields(st: State, resource: Resource, id: string): Option<Fields> {
    match resource
    case Sites => var r := First(st.sites, SiteId, id); if r.Some? then Some(SiteFields(r.value)) else None
    case Racks => var r := First(st.racks, RackId, id); if r.Some? then Some(RackFields(r.value)) else None
    case Devices => var r := First(st.devices, DeviceId, id); if r.Some? then Some(DeviceFields(r.value)) else None
    case Prefixes => var r := First(st.prefixes, PrefixId, id); if r.Some? then Some(PrefixFields(r.value)) else None
    case IpAddresses =>
      var r := First(st.ipAddresses, AddressId, id); if r.Some? then Some(AddressFields(r.value)) else None
  }

  // ----- deletes

  /** The reference guards: what blocks the deletion of a stored record. */
  predicate DeleteBlocked(ctx: Context, st: State, resource: Resource, id: string) {
    match resource
    case Sites => (exists r :: r in st.racks && r.siteId == id) || (exists d :: d in st.devices && d.siteId == id)
    case Racks => exists d :: d in st.devices && d.rackPosition.Some? && d.rackPosition.value.rackId == id
    case Devices =>
      || (exists n :: n in ctx.interfaces && n.deviceId == id)
      || (exists c :: c in ctx.connections && (c.fromDeviceId == id || c.toDeviceId == id))
    case Prefixes =>
      || (exists p :: p in st.prefixes && p.parentPrefixId == Some(id))
      || (exists a :: a in st.ipAddresses && a.prefixId == Some(id))
    case IpAddresses => false
  }

  function AfterDelete(ctx: Context, st: State, resource: Resource, id: string): State {
    if StoredFields(st, resource, id).None? || DeleteBlocked(ctx, st, resource, id) then st
    else
      match resource
      case Sites => st.(sites := Without(st.sites, SiteId, Some(id)))
      case Racks => st.(racks := Without(st.racks, RackId, Some(id)))
      case Devices => st.(devices := Without(st.devices, DeviceId, Some(id)))
      case Prefixes => st.(prefixes := Without(st.prefixes, PrefixId, Some(id)))
      case IpAddresses => st.(ipAddresses := Without(st.ipAddresses, AddressId, Some(id)))
  }
}
