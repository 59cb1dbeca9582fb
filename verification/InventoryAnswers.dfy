/** What a delete leaves, what a stored record reads back as, and what an update keeps of it. */
module InventoryAnswers {
  import opened Wrappers
  import opened JsText
  import opened Payload
  import opened InventoryModel
  import opened InventoryState
  import opened InventoryRequests
  import opened Keyed
  import opened Inventory

  lemma StoredIff(st: State, resource: Resource, id: string)
    ensures StoredFields(st, resource, id).Some? <==> Stored(st, resource, id)
  {
    hide SiteFields, RackFields, DeviceFields, PrefixFields, AddressFields;
  }

  /** An unguarded delete cuts the one record out of its list. */
  lemma {:induction false} DeleteRemoves(ctx: Context, st: State, resource: Resource, id: string)
    requires UniqueIds(st) && Stored(st, resource, id) && !DeleteBlocked(ctx, st, resource, id)
    ensures Removed(st, AfterDelete(ctx, st, resource, id), resource, id)
  {
    StoredIff(st, resource, id);
    hide StoredFields, DeleteBlocked, UniqueKeys, Without, CutOut;
    match resource {
      case Sites => WithoutCutsOut(st.sites, SiteId, id);
      case Racks => WithoutCutsOut(st.racks, RackId, id);
      case Devices => WithoutCutsOut(st.devices, DeviceId, id);
      case Prefixes => WithoutCutsOut(st.prefixes, PrefixId, id);
      case IpAddresses => WithoutCutsOut(st.ipAddresses, AddressId, id);
    }
  }

  // ----- the records of accepted payloads

  lemma ProposedReads(ctx: Context, st: State, resource: Resource, payload: Fields, existingId: Option<string>,
                      now: nat)
    ensures var r := Proposed(ctx, st, resource, payload, existingId, now);
            r.Some? ==> Reads(resource, payload, existingId, now, r.value)
  {
    ProposedSiteReads(ctx, st, payload, existingId, now);
    ProposedRackReads(ctx, st, payload, existingId, now);
    ProposedDeviceReads(ctx, st, payload, existingId, now);
    CandidateReads(ctx, st, payload, existingId, now);
    ProposedAddressReads(ctx, st, payload, existingId, now);
    hide ProposedSite, ProposedRack, ProposedDevice, ProposedAddress, CandidatePrefix, PrefixFieldsOk;
    hide SiteReads, RackReads, DeviceReads, PrefixReads, AddressReads;
  }

  // ----- accepted records are settled, and a settled record reads back as itself

  lemma StringsAreSettled(value: Option<Json>)
    ensures AsString(value).Some? ==> Plain(AsString(value).value)
    ensures PlainOrNone(AsNullableString(value))
  {
    if value.Some? && value.value.Text? {
      TrimFacts(value.value.text);
    }
    hide Trim, Trimmed;
  }

  lemma GivenIdIsSlug(kind: string, payload: Fields, existingId: Option<string>, fallback: Option<string>, now: nat)
    requires IsSlug(kind)
    ensures IsSlug(IdGiven(kind, payload, existingId, fallback, now))
  {
    var candidate := FirstOf(AsNullableString(Field(payload, "id")), FirstOf(existingId, fallback));
    hide AsNullableString, IsSlug, SanitizeId;
    if candidate.Some? {
      SanitizeGivesSlug(candidate.value);
    }
    ClockIdIsSlug(kind, Decimal(now));
  }

  lemma KindsAreSlugs()
    ensures IsSlug("site") && IsSlug("rack") && IsSlug("device") && IsSlug("prefix") && IsSlug("ip")
  {
  }

  /** Whatever a payload says, the record it describes is settled. */
  lemma ReadsSettled(resource: Resource, payload: Fields, existingId: Option<string>, now: nat, record: Record)
    requires Reads(resource, payload, existingId, now, record)
    ensures Settled(record)
  {
    KindsAreSlugs();
    assert Plain("pool");
    hide AsString, AsNullableString, AsInteger, IsSlug, Plain, PlainOrNone, IdGiven, NamesPlacement;
    match record {
      case SiteRecord(x) =>
        GivenIdIsSlug("site", payload, existingId, Some(x.name), now);
        StringsAreSettled(Field(payload, "name"));
        StringsAreSettled(Field(payload, "slug"));
        StringsAreSettled(Field(payload, "tenantId"));
      case RackRecord(x) =>
        GivenIdIsSlug("rack", payload, existingId, Some(x.name), now);
        StringsAreSettled(Field(payload, "name"));
        StringsAreSettled(Field(payload, "siteId"));
      case DeviceRecord(x) =>
        GivenIdIsSlug("device", payload, existingId, Some(x.name), now);
        StringsAreSettled(Field(payload, "name"));
        StringsAreSettled(Field(payload, "siteId"));
        StringsAreSettled(Field(payload, "role"));
        StringsAreSettled(Field(payload, "status"));
      case PrefixRecord(x) =>
        GivenIdIsSlug("prefix", payload, existingId, Some(x.cidr), now);
        StringsAreSettled(Field(payload, "cidr"));
        StringsAreSettled(Field(payload, "status"));
        StringsAreSettled(Field(payload, "allocationMode"));
        StringsAreSettled(Field(payload, "vrfId"));
        StringsAreSettled(Field(payload, "parentPrefixId"));
        StringsAreSettled(Field(payload, "tenantId"));
      case AddressRecord(x) =>
        GivenIdIsSlug("ip", payload, existingId, Some(x.address), now);
        StringsAreSettled(Field(payload, "address"));
        StringsAreSettled(Field(payload, "status"));
        StringsAreSettled(Field(payload, "role"));
        StringsAreSettled(Field(payload, "vrfId"));
        StringsAreSettled(Field(payload, "prefixId"));
        StringsAreSettled(Field(payload, "interfaceId"));
    }
  }

  lemma PlainReads(value: Option<Json>, text: string)
    requires value == Some(Text(text)) && Plain(text)
    ensures AsString(value) == Some(text) && AsNullableString(value) == Some(text)
  {
    TrimFacts(text);
    hide Trim;
  }

  lemma OptionalReads(value: Option<Json>, text: Option<string>)
    requires value == Some(OptionalText(text)) && PlainOrNone(text)
    ensures AsNullableString(value) == text
  {
    if text.Some? {
      PlainReads(value, text.value);
    }
    hide AsString;
  }

  lemma StoredIdReads(kind: string, payload: Fields, id: string, existingId: Option<string>, fallback: Option<string>,
                      now: nat)
    requires Field(payload, "id") == Some(Text(id)) && IsSlug(id)
    ensures IdGiven(kind, payload, existingId, fallback, now) == id
  {
    PlainReads(Field(payload, "id"), id);
    SlugStays(id);
    hide AsNullableString, SanitizeId;
  }

  /** An update that sends nothing describes the stored record again. */
  lemma SiteReadsBack(x: Site, now: nat)
    requires Settled(SiteRecord(x))
    ensures SiteReads(SiteFields(x), Some(x.id), now, x)
  {
    var fields := SiteFields(x);
    StoredIdReads("site", fields, x.id, Some(x.id), Some(x.name), now);
    PlainReads(Field(fields, "name"), x.name);
    PlainReads(Field(fields, "slug"), x.slug);
    OptionalReads(Field(fields, "tenantId"), x.tenantId);
    hide AsString, AsNullableString, IdGiven, IsSlug, Plain, SiteFields;
  }

  lemma RackReadsBack(x: Rack, now: nat)
    requires Settled(RackRecord(x))
    ensures RackReads(RackFields(x), Some(x.id), now, x)
  {
    var fields := RackFields(x);
    StoredIdReads("rack", fields, x.id, Some(x.id), Some(x.name), now);
    PlainReads(Field(fields, "name"), x.name);
    PlainReads(Field(fields, "siteId"), x.siteId);
    assert Field(fields, "totalUnits") == Some(Integer(x.totalUnits));
    hide AsString, AsNullableString, IdGiven, IsSlug, Plain, RackFields;
  }

  lemma DeviceFieldsHold(x: Device)
    ensures Field(DeviceFields(x), "id") == Some(Text(x.id))
    ensures Field(DeviceFields(x), "name") == Some(Text(x.name))
    ensures Field(DeviceFields(x), "siteId") == Some(Text(x.siteId))
    ensures Field(DeviceFields(x), "role") == Some(Text(x.role))
    ensures Field(DeviceFields(x), "status") == Some(Text(x.status))
  {
  }

  lemma DeviceReadsBack(x: Device, now: nat)
    requires Settled(DeviceRecord(x))
    ensures DeviceReads(DeviceFields(x), Some(x.id), now, x.(rackPosition := None))
  {
    var fields := DeviceFields(x);
    DeviceFieldsHold(x);
    SamePlacementKeys(x, map[], None);
    assert fields + map[] == fields;
    assert NamesPlacement(map[], None);
    hide AsString, AsNullableString, AsInteger, IdGiven, IsSlug, Plain, Field, DeviceFields, NamesPlacement;
    StoredIdReads("device", fields, x.id, Some(x.id), Some(x.name), now);
    PlainReads(Field(fields, "name"), x.name);
    PlainReads(Field(fields, "siteId"), x.siteId);
    PlainReads(Field(fields, "role"), x.role);
    PlainReads(Field(fields, "status"), x.status);
  }

  lemma PrefixFieldsHold(x: Prefix)
    ensures Field(PrefixFields(x), "id") == Some(Text(x.id))
    ensures Field(PrefixFields(x), "cidr") == Some(Text(x.cidr))
    ensures Field(PrefixFields(x), "family") == Some(Integer(FamilyNumber(x.family)))
    ensures Field(PrefixFields(x), "status") == Some(Text(x.status))
    ensures Field(PrefixFields(x), "allocationMode") == Some(Text(x.allocationMode))
    ensures Field(PrefixFields(x), "vrfId") == Some(OptionalText(x.vrfId))
    ensures Field(PrefixFields(x), "parentPrefixId") == Some(OptionalText(x.parentPrefixId))
    ensures Field(PrefixFields(x), "tenantId") == Some(OptionalText(x.tenantId))
  {
  }

  lemma PrefixReadsBack(x: Prefix, now: nat)
    requires Settled(PrefixRecord(x))
    ensures PrefixReads(PrefixFields(x), Some(x.id), now, x)
  {
    var fields := PrefixFields(x);
    PrefixFieldsHold(x);
    hide AsString, AsNullableString, IdGiven, IsSlug, Plain, Field, PrefixFields;
    StoredIdReads("prefix", fields, x.id, Some(x.id), Some(x.cidr), now);
    PlainReads(Field(fields, "cidr"), x.cidr);
    PlainReads(Field(fields, "status"), x.status);
    PlainReads(Field(fields, "allocationMode"), x.allocationMode);
    OptionalReads(Field(fields, "vrfId"), x.vrfId);
    OptionalReads(Field(fields, "parentPrefixId"), x.parentPrefixId);
    OptionalReads(Field(fields, "tenantId"), x.tenantId);
  }

  lemma AddressFieldsHold(x: IpAddress)
    ensures Field(AddressFields(x), "id") == Some(Text(x.id))
    ensures Field(AddressFields(x), "address") == Some(Text(x.address))
    ensures Field(AddressFields(x), "family") == Some(Integer(FamilyNumber(x.family)))
    ensures Field(AddressFields(x), "status") == Some(Text(x.status))
    ensures Field(AddressFields(x), "role") == Some(Text(x.role))
    ensures Field(AddressFields(x), "vrfId") == Some(OptionalText(x.vrfId))
    ensures Field(AddressFields(x), "prefixId") == Some(OptionalText(x.prefixId))
    ensures Field(AddressFields(x), "interfaceId") == Some(OptionalText(x.interfaceId))
  {
  }

  lemma AddressReadsBack(x: IpAddress, now: nat)
    requires Settled(AddressRecord(x))
    ensures AddressReads(AddressFields(x), Some(x.id), now, x)
  {
    var fields := AddressFields(x);
    AddressFieldsHold(x);
    hide AsString, AsNullableString, IdGiven, IsSlug, Plain, Field, AddressFields;
    StoredIdReads("ip", fields, x.id, Some(x.id), Some(x.address), now);
    PlainReads(Field(fields, "address"), x.address);
    PlainReads(Field(fields, "status"), x.status);
    PlainReads(Field(fields, "role"), x.role);
    OptionalReads(Field(fields, "vrfId"), x.vrfId);
    OptionalReads(Field(fields, "prefixId"), x.prefixId);
    OptionalReads(Field(fields, "interfaceId"), x.interfaceId);
  }

  // ----- so an update keeps what the request leaves out

  lemma KeyLeftOut(fields: Fields, payload: Fields, key: string)
    ensures key !in payload ==> Field(fields + payload, key) == Field(fields, key)
  {
  }

  lemma SiteKept(was: Site, payload: Fields, now: nat, x: Site)
    requires Settled(SiteRecord(was)) && SiteReads(SiteFields(was) + payload, Some(was.id), now, x)
    ensures KeepsSite(payload, was, x)
  {
    var fields := SiteFields(was);
    SiteReadsBack(was, now);
    KeyLeftOut(fields, payload, "id");
    KeyLeftOut(fields, payload, "name");
    KeyLeftOut(fields, payload, "slug");
    KeyLeftOut(fields, payload, "tenantId");
    SameId("site", fields, payload, was.id, Some(x.name), now);
    hide Field, AsString, AsNullableString, IdGiven, IsSlug, Plain, SiteFields;
  }

  /** An id the request leaves out stays, whatever else the record's text becomes. */
  lemma SameId(kind: string, fields: Fields, payload: Fields, id: string, fallback: Option<string>, now: nat)
    requires Field(fields, "id") == Some(Text(id)) && IsSlug(id)
    ensures "id" !in payload ==> IdGiven(kind, fields + payload, Some(id), fallback, now) == id
  {
    KeyLeftOut(fields, payload, "id");
    if "id" !in payload {
      StoredIdReads(kind, fields + payload, id, Some(id), fallback, now);
    }
    hide IdGiven, IsSlug;
  }

  /** No stored field of a device is a placement key. */
  lemma SamePlacementKeys(d: Device, payload: Fields, position: Option<RackPosition>)
    ensures NamesPlacement(DeviceFields(d) + payload, position) <==> NamesPlacement(payload, position)
  {
    var merged := DeviceFields(d) + payload;
    assert Field(merged, "rackId") == Field(payload, "rackId");
    assert Field(merged, "rackFace") == Field(payload, "rackFace");
    assert Field(merged, "startUnit") == Field(payload, "startUnit");
    assert Field(merged, "heightUnits") == Field(payload, "heightUnits");
  }

  lemma RackKept(was: Rack, payload: Fields, now: nat, x: Rack)
    requires Settled(RackRecord(was))
    requires RackReads(RackFields(was) + payload, Some(was.id), now, x)
    ensures KeepsRack(payload, was, x)
  {
    var fields := RackFields(was);
    RackReadsBack(was, now);
    KeyLeftOut(fields, payload, "id");
    KeyLeftOut(fields, payload, "name");
    KeyLeftOut(fields, payload, "siteId");
    KeyLeftOut(fields, payload, "totalUnits");
    SameId("rack", fields, payload, was.id, Some(x.name), now);
    hide Field, AsString, AsNullableString, AsInteger, IdGiven, IsSlug, Plain, RackFields;
  }

  lemma DeviceKept(was: Device, payload: Fields, now: nat, x: Device)
    requires Settled(DeviceRecord(was))
    requires DeviceReads(DeviceFields(was) + payload, Some(was.id), now, x)
    ensures KeepsDevice(payload, was, x)
  {
    var fields := DeviceFields(was);
    DeviceFieldsHold(was);
    hide AsString, AsNullableString, AsInteger, IdGiven, IsSlug, Plain, Field, DeviceFields, NamesPlacement;
    DeviceReadsBack(was, now);
    KeyLeftOut(fields, payload, "id");
    KeyLeftOut(fields, payload, "name");
    KeyLeftOut(fields, payload, "siteId");
    KeyLeftOut(fields, payload, "role");
    KeyLeftOut(fields, payload, "status");
    SameId("device", fields, payload, was.id, Some(x.name), now);
    SamePlacementKeys(was, payload, x.rackPosition);
  }

  lemma PrefixKept(was: Prefix, payload: Fields, now: nat, x: Prefix)
    requires Settled(PrefixRecord(was))
    requires PrefixReads(PrefixFields(was) + payload, Some(was.id), now, x)
    ensures KeepsPrefix(payload, was, x)
  {
    var fields := PrefixFields(was);
    PrefixFieldsHold(was);
    hide AsString, AsNullableString, IdGiven, IsSlug, Plain, Field, PrefixFields;
    PrefixReadsBack(was, now);
    KeyLeftOut(fields, payload, "id");
    KeyLeftOut(fields, payload, "cidr");
    KeyLeftOut(fields, payload, "vrfId");
    KeyLeftOut(fields, payload, "parentPrefixId");
    KeyLeftOut(fields, payload, "family");
    KeyLeftOut(fields, payload, "status");
    KeyLeftOut(fields, payload, "allocationMode");
    KeyLeftOut(fields, payload, "tenantId");
    SameId("prefix", fields, payload, was.id, Some(x.cidr), now);
  }

  lemma AddressKept(was: IpAddress, payload: Fields, now: nat, x: IpAddress)
    requires Settled(AddressRecord(was))
    requires AddressReads(AddressFields(was) + payload, Some(was.id), now, x)
    ensures KeepsAddress(payload, was, x)
  {
    var fields := AddressFields(was);
    AddressFieldsHold(was);
    hide AsString, AsNullableString, IdGiven, IsSlug, Plain, Field, AddressFields;
    AddressReadsBack(was, now);
    KeyLeftOut(fields, payload, "id");
    KeyLeftOut(fields, payload, "address");
    KeyLeftOut(fields, payload, "vrfId");
    KeyLeftOut(fields, payload, "family");
    KeyLeftOut(fields, payload, "status");
    KeyLeftOut(fields, payload, "role");
    KeyLeftOut(fields, payload, "prefixId");
    KeyLeftOut(fields, payload, "interfaceId");
    SameId("ip", fields, payload, was.id, Some(x.address), now);
  }

  /** In a settled inventory an accepted update keeps every field whose key the request leaves out, and
      mounts a device exactly where the request says. */
  lemma {:induction false} UpdateKeeps(st: State, resource: Resource, id: string, payload: Fields, now: nat,
                                       record: Record)
    requires UniqueIds(st) && AllSettled(st) && StoredFields(st, resource, id).Some?
    requires Reads(resource, StoredFields(st, resource, id).value + payload, Some(id), now, record)
    ensures Keeps(st, payload, id, record)
  {
    hide SiteReads, RackReads, DeviceReads, PrefixReads, AddressReads, Settled, UniqueKeys;
    hide SiteFields, RackFields, DeviceFields, PrefixFields, AddressFields;
    hide KeepsSite, KeepsRack, KeepsDevice, KeepsPrefix, KeepsAddress;
    match record {
      case SiteRecord(x) =>
        OnlyHolder(st.sites, SiteId, id);
        SiteKept(First(st.sites, SiteId, id).value, payload, now, x);
      case RackRecord(x) =>
        OnlyHolder(st.racks, RackId, id);
        RackKept(First(st.racks, RackId, id).value, payload, now, x);
      case DeviceRecord(x) =>
        OnlyHolder(st.devices, DeviceId, id);
        DeviceKept(First(st.devices, DeviceId, id).value, payload, now, x);
      case PrefixRecord(x) =>
        OnlyHolder(st.prefixes, PrefixId, id);
        PrefixKept(First(st.prefixes, PrefixId, id).value, payload, now, x);
      case AddressRecord(x) =>
        OnlyHolder(st.ipAddresses, AddressId, id);
        AddressKept(First(st.ipAddresses, AddressId, id).value, payload, now, x);
    }
  }
}
