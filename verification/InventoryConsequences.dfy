/** Consequences of whole-run safety, and the edges of what the steps keep. */
module InventoryConsequences {
  import opened Wrappers
  import opened JsText
  import opened Payload
  import opened InventoryModel
  import opened InventoryRequests
  import opened InventoryState
  import opened Keyed
  import opened RackPlacement
  import opened SnapshotValidation
  import opened PrefixHierarchy
  import opened Inventory
  import opened InventoryAnswers
  import opened InventoryRuns
  import Space = AddressSpace

  // ----- canonical ids

  ghost predicate SlugIds(st: State) {
    && (forall x :: x in st.sites ==> IsSlug(x.id))
    && (forall x :: x in st.racks ==> IsSlug(x.id))
    && (forall x :: x in st.devices ==> IsSlug(x.id))
    && (forall x :: x in st.prefixes ==> IsSlug(x.id))
    && (forall x :: x in st.ipAddresses ==> IsSlug(x.id))
  }

  function RecordId(record: Record): string {
    match record
    case SiteRecord(x) => x.id
    case RackRecord(x) => x.id
    case DeviceRecord(x) => x.id
    case PrefixRecord(x) => x.id
    case AddressRecord(x) => x.id
  }

  lemma NewIdIsSlug(kind: string, payload: Fields, existingId: Option<string>, fallback: Option<string>, now: nat)
    requires IsSlug(kind)
    ensures IsSlug(NewId(kind, payload, existingId, fallback, now))
  {
    hide AsNullableString;
    var requested := AsNullableString(Field(payload, "id"));
    CreatedIdIsSlug(
      kind, if requested.Some? then requested else if existingId.Some? then existingId else fallback, now);
  }

  ghost function KindOf(resource: Resource): string {
    match resource
    case Sites => "site"
    case Racks => "rack"
    case Devices => "device"
    case Prefixes => "prefix"
    case IpAddresses => "ip"
  }

  /** What the id is made from when neither the payload nor the update names one. */
  ghost function FallbackOf(resource: Resource, payload: Fields): Option<string> {
    AsString(Field(payload, match resource case Prefixes => "cidr" case IpAddresses => "address" case _ => "name"))
  }

  lemma ProposedIdIsNew(ctx: Context, st: State, resource: Resource, payload: Fields,
                        existingId: Option<string>, now: nat)
    ensures var r := Proposed(ctx, st, resource, payload, existingId, now);
            r.Some? ==>
              RecordId(r.value) == NewId(KindOf(resource), payload, existingId, FallbackOf(resource, payload), now)
  {
    hide NewId;
    hide AsString;
    hide AsNullableString;
    hide AsInteger;
    hide ProposedPlacement;
    hide HierarchyOk;
    hide ValidCidrShape;
    hide FamilyOf;
  }

  lemma ProposedIdIsSlug(ctx: Context, st: State, resource: Resource, payload: Fields,
                         existingId: Option<string>, now: nat)
    ensures var r := Proposed(ctx, st, resource, payload, existingId, now);
            r.Some? ==> IsSlug(RecordId(r.value))
  {
    var r := Proposed(ctx, st, resource, payload, existingId, now);
    ProposedIdIsNew(ctx, st, resource, payload, existingId, now);
    KindsAreSlugs();
    hide Proposed;
    hide NewId;
    hide IsSlug;
    if r.Some? {
      NewIdIsSlug(KindOf(resource), payload, existingId, FallbackOf(resource, payload), now);
    }
  }

  lemma NextKeepsSlugs(st: State, record: Record, existingId: Option<string>)
    requires SlugIds(st) && IsSlug(RecordId(record))
    ensures SlugIds(NextState(st, record, existingId))
  {
    hide IsSlug;
  }

  lemma StepKeepsSlugs(ctx: Context, st: State, command: Command)
    requires SlugIds(st)
    ensures SlugIds(Step(ctx, st, command))
  {
    hide IsSlug;
    hide Proposed;
    hide ConflictFree;
    hide StoredFields;
    hide NextState;
    match command {
      case Create(resource, payload, now) =>
        MutationKeepsSlugs(ctx, st, resource, payload, None, now);
      case Update(resource, recordId, payload, now) =>
        var stored := StoredFields(st, resource, recordId);
        if stored.Some? {
          MutationKeepsSlugs(ctx, st, resource, stored.value + payload, Some(recordId), now);
        }
      case Delete(resource, recordId) =>
    }
  }

  lemma MutationKeepsSlugs(ctx: Context, st: State, resource: Resource, payload: Fields,
                           existingId: Option<string>, now: nat)
    requires SlugIds(st)
    ensures SlugIds(AfterMutation(ctx, st, resource, payload, existingId, now))
  {
    hide *;
    ProposedIdIsSlug(ctx, st, resource, payload, existingId, now);
    MutationResult(ctx, st, resource, payload, existingId, now);
    var r := Proposed(ctx, st, resource, payload, existingId, now);
    if r.Some? {
      NextKeepsSlugs(st, r.value, existingId);
    }
  }

  lemma {:induction false} RunKeepsSlugs(ctx: Context, st: State, commands: seq<Command>)
    requires SlugIds(st)
    ensures SlugIds(Run(ctx, st, commands))
    decreases |commands|
  {
    hide SlugIds;
    hide Step;
    if commands != [] {
      StepKeepsSlugs(ctx, st, commands[0]);
      RunKeepsSlugs(ctx, Step(ctx, st, commands[0]), commands[1..]);
    }
  }

  lemma SafeIsAccepted(ctx: Context, st: State)
    requires Safe(ctx, st) && SlugIds(st)
    ensures Space.Accepted(st.prefixes)
  {
    hide Ranged;
    hide InsideParent;
    hide OverlapsDeclared;
    hide HierarchyOk;
    hide NoSharedUnits;
    forall p | p in st.prefixes && Ranged(p) ensures InsideParent(st.prefixes, p) {
      assert PrefixAgrees(SnapshotOf(ctx, st), p);
    }
  }

  /** In every state a run reaches, no address is covered by more than two prefixes of one VRF. */
  lemma {:induction false} ReachableAddressSpace(ctx: Context, st: State, commands: seq<Command>,
                                                 vrfId: Option<string>, x: int)
    requires Safe(ctx, st) && SlugIds(st)
    ensures |set p | p in Run(ctx, st, commands).prefixes && Space.Covers(p, vrfId, x)| <= 2
  {
    hide *;
    RunKeepsSafe(ctx, st, commands);
    RunKeepsSlugs(ctx, st, commands);
    SafeIsAccepted(ctx, Run(ctx, st, commands));
    Space.AtMostTwoCover(Run(ctx, st, commands).prefixes, vrfId, x);
  }

  // ----- rack bounds are not an invariant

  ghost predicate MountedInBounds(racks: seq<Rack>, d: Device) {
    d.rackPosition.Some? ==>
      && d.rackPosition.value.rackId in RackIndex(racks)
      && InBounds(RackIndex(racks)[d.rackPosition.value.rackId], d.rackPosition.value)
  }

  ghost predicate AllInBounds(st: State) {
    forall d :: d in st.devices ==> MountedInBounds(st.racks, d)
  }

  /** An accepted device record lies inside its rack. */
  lemma ProposedDeviceInBounds(ctx: Context, st: State, payload: Fields, existingId: Option<string>, now: nat)
    requires UniqueKeys(st.racks, RackId)
    ensures var r := ProposedDevice(ctx, st, payload, existingId, now);
            r.Some? ==> MountedInBounds(st.racks, r.value)
  {
    var r := ProposedDevice(ctx, st, payload, existingId, now);
    RackIndexUnique(st.racks);
    if r.Some? && r.value.rackPosition.Some? {
      assert ProposedPlacement(st, payload, existingId) == Placed(r.value.rackPosition.value);
      hide ProposedDevice, ProposedPlacement, UniqueKeys, NamesPlacement, RackIndex, ShareUnit;
      PlacedIff(st, payload, existingId, r.value.rackPosition.value);
    }
  }

  lemma DeviceMutationKeepsBounds(ctx: Context, st: State, payload: Fields, existingId: Option<string>, now: nat)
    requires UniqueIds(st) && AllInBounds(st)
    ensures AllInBounds(AfterMutation(ctx, st, Devices, payload, existingId, now))
  {
    ProposedDeviceInBounds(ctx, st, payload, existingId, now);
    hide ProposedDevice;
    hide MountedInBounds;
    hide ConflictFree;
  }

  lemma NewRackKeepsBounds(st: State, rack: Rack)
    requires UniqueKeys(st.racks, RackId) && AllInBounds(st) && !Taken(st.racks, RackId, rack.id, None)
    ensures AllInBounds(NextState(st, RackRecord(rack), None))
  {
    hide InBounds;
    assert (st.racks + [rack])[..|st.racks|] == st.racks;
  }

  lemma DeleteKeepsBounds(ctx: Context, st: State, resource: Resource, id: string)
    requires UniqueIds(st) && AllInBounds(st)
    ensures AllInBounds(AfterDelete(ctx, st, resource, id))
  {
    hide InBounds;
    hide StoredFields;
    if resource.Racks? && !DeleteBlocked(ctx, st, resource, id) {
      var rest := Without(st.racks, RackId, Some(id));
      RackIndexUnique(st.racks);
      RackIndexUnique(rest);
      forall d | d in st.devices ensures MountedInBounds(rest, d) {
        assert MountedInBounds(st.racks, d);
        if d.rackPosition.Some? {
          assert RackIndex(st.racks)[d.rackPosition.value.rackId] in rest;
        }
      }
    }
  }

  lemma MutationKeepsBounds(ctx: Context, st: State, resource: Resource, payload: Fields,
                            existingId: Option<string>, now: nat)
    requires UniqueIds(st) && AllInBounds(st) && (resource.Racks? ==> existingId.None?)
    ensures AllInBounds(AfterMutation(ctx, st, resource, payload, existingId, now))
  {
    MutationResult(ctx, st, resource, payload, existingId, now);
    ProposedIdIsFresh(ctx, st, resource, payload, existingId, now);
    var r := Proposed(ctx, st, resource, payload, existingId, now);
    var after := AfterMutation(ctx, st, resource, payload, existingId, now);
    if resource.Devices? {
      DeviceMutationKeepsBounds(ctx, st, payload, existingId, now);
    } else if after != st {
      if resource.Racks? {
        assert r.value.RackRecord?;
        NewRackKeepsBounds(st, r.value.rack);
      } else {
        assert !r.value.RackRecord? && !r.value.DeviceRecord?;
      }
    }
  }

  /** Only a rack update can leave a device outside its rack. */
  lemma OtherStepsKeepBounds(ctx: Context, st: State, command: Command)
    requires UniqueIds(st) && AllInBounds(st)
    requires !(command.Update? && command.resource.Racks?)
    ensures AllInBounds(Step(ctx, st, command))
  {
    hide AllInBounds;
    hide AfterMutation;
    hide AfterDelete;
    match command {
      case Create(resource, payload, now) =>
        MutationKeepsBounds(ctx, st, resource, payload, None, now);
      case Update(resource, recordId, payload, now) =>
        var stored := StoredFields(st, resource, recordId);
        if stored.Some? {
          MutationKeepsBounds(ctx, st, resource, stored.value + payload, Some(recordId), now);
        }
      case Delete(resource, recordId) =>
        DeleteKeepsBounds(ctx, st, resource, recordId);
    }
  }

  lemma {:induction false} NextRackLookup(racks: seq<Rack>, id: string, rack: Rack)
    requires UniqueKeys(racks, RackId) && !Taken(racks, RackId, rack.id, Some(id))
    requires exists r :: r in racks && r.id == id
    ensures rack.id in RackIndex(Replace(racks, RackId, id, rack))
    ensures RackIndex(Replace(racks, RackId, id, rack))[rack.id] == rack
    ensures forall other :: other != id && other != rack.id && other in RackIndex(racks) ==>
              other in RackIndex(Replace(racks, RackId, id, rack))
              && RackIndex(Replace(racks, RackId, id, rack))[other] == RackIndex(racks)[other]
  {
    var next := Replace(racks, RackId, id, rack);
    ReplacedUnique(racks, RackId, id, rack);
    RackIndexUnique(racks);
    RackIndexUnique(next);
    var k :| 0 <= k < |racks| && racks[k].id == id;
    assert next[k] == rack && rack in next;
    forall other | other != id && other != rack.id && other in RackIndex(racks)
      ensures other in RackIndex(next) && RackIndex(next)[other] == RackIndex(racks)[other]
    {
      var j :| 0 <= j < |racks| && racks[j] == RackIndex(racks)[other];
      assert next[j] == racks[j] && next[j] in next;
    }
  }

  /** An applied rack update keeps every device in bounds exactly when the new height still reaches
      the topmost unit taken in that rack. */
  lemma RackUpdateKeepsBoundsIff(ctx: Context, st: State, id: string, rack: Rack)
    requires Safe(ctx, st) && AllInBounds(st) && exists r :: r in st.racks && r.id == id
    requires !Taken(st.racks, RackId, rack.id, Some(id))
    requires ConflictFree(SnapshotOf(ctx, NextState(st, RackRecord(rack), Some(id))))
    ensures AllInBounds(NextState(st, RackRecord(rack), Some(id))) <==>
            forall d :: d in st.devices && d.rackPosition.Some? && d.rackPosition.value.rackId == rack.id ==>
                          d.rackPosition.value.startingUnit + d.rackPosition.value.heightUnits - 1 <= rack.totalUnits
  {
    var next := NextState(st, RackRecord(rack), Some(id));
    NextRackLookup(st.racks, id, rack);
    assert forall d :: d in next.devices ==> DeviceAgrees(SnapshotOf(ctx, next), d);
    hide PrefixAgrees;
    hide AddressAgrees;
    hide OverlapDeclared;
    hide SameHost;
    hide HierarchyOk;
    hide NoSharedUnits;
    forall d | d in st.devices && d.rackPosition.Some?
      ensures MountedInBounds(next.racks, d) <==>
              (d.rackPosition.value.rackId == rack.id ==>
                 d.rackPosition.value.startingUnit + d.rackPosition.value.heightUnits - 1 <= rack.totalUnits)
    {
      assert MountedInBounds(st.racks, d);
      MountedElsewhere(ctx, st, id, rack, d);
    }
  }

  /** A device mounted in another rack than the new record's is not mounted in the replaced one. */
  lemma MountedElsewhere(ctx: Context, st: State, id: string, rack: Rack, d: Device)
    requires UniqueKeys(st.racks, RackId) && exists r :: r in st.racks && r.id == id
    requires !Taken(st.racks, RackId, rack.id, Some(id))
    requires d in st.devices && d.rackPosition.Some?
    requires DeviceAgrees(SnapshotOf(ctx, NextState(st, RackRecord(rack), Some(id))), d)
    ensures d.rackPosition.value.rackId == rack.id || d.rackPosition.value.rackId != id
  {
    var next := Replace(st.racks, RackId, id, rack);
    if d.rackPosition.value.rackId == id {
      var found := RackIndex(next)[id];
      var k :| 0 <= k < |next| && next[k] == found;
    }
  }

  // ----- every accepted position is at least one unit high

  lemma ProposedHeight(ctx: Context, st: State, payload: Fields, existingId: Option<string>, now: nat)
    ensures var r := ProposedDevice(ctx, st, payload, existingId, now);
            r.Some? && r.value.rackPosition.Some? ==> r.value.rackPosition.value.heightUnits >= 1
  {
    var r := ProposedDevice(ctx, st, payload, existingId, now);
    if r.Some? && r.value.rackPosition.Some? {
      PlacedIff(st, payload, existingId, r.value.rackPosition.value);
    }
  }

  lemma MutationKeepsHeights(ctx: Context, st: State, resource: Resource, payload: Fields,
                             existingId: Option<string>, now: nat)
    requires HeightsPositive(st.devices)
    ensures HeightsPositive(AfterMutation(ctx, st, resource, payload, existingId, now).devices)
  {
    MutationResult(ctx, st, resource, payload, existingId, now);
    OtherMutationsKeepDevices(ctx, st, resource, payload, existingId, now);
    if resource.Devices? {
      ProposedHeight(ctx, st, payload, existingId, now);
    }
    hide ProposedDevice, AfterMutation, ConflictFree;
  }

  /** So `Inventory.PlacedIff` applies to every state a run reaches. */
  lemma {:induction false} RunKeepsHeights(ctx: Context, st: State, commands: seq<Command>)
    requires HeightsPositive(st.devices)
    ensures HeightsPositive(Run(ctx, st, commands).devices)
    decreases |commands|
  {
    if commands != [] {
      StepKeepsHeights(ctx, st, commands[0]);
      hide HeightsPositive, Step;
      RunKeepsHeights(ctx, Step(ctx, st, commands[0]), commands[1..]);
    }
  }

  lemma StepKeepsHeights(ctx: Context, st: State, command: Command)
    requires HeightsPositive(st.devices)
    ensures HeightsPositive(Step(ctx, st, command).devices)
  {
    hide AfterMutation, StoredFields;
    match command {
      case Create(resource, payload, now) =>
        MutationKeepsHeights(ctx, st, resource, payload, None, now);
      case Update(resource, recordId, payload, now) =>
        var stored := StoredFields(st, resource, recordId);
        if stored.Some? {
          MutationKeepsHeights(ctx, st, resource, stored.value + payload, Some(recordId), now);
        }
      case Delete(resource, recordId) =>
    }
  }

  // ----- which device records a payload yields, and where they are mounted

  /** An accepted device record is mounted exactly where its payload says. */
  lemma AcceptedPositionIff(ctx: Context, st: State, payload: Fields, existingId: Option<string>, now: nat,
                            position: Option<RackPosition>)
    ensures var r := ProposedDevice(ctx, st, payload, existingId, now);
            r.Some? ==> (r.value.rackPosition == position <==> NamesPlacement(payload, position))
  {
    hide AsString;
    hide AsInteger;
    hide NewId;
    hide CanOccupyRackPosition;
  }

  /** The stored position is one nested field and is not read back: an accepted update keeps the
      position of the device exactly when the request names that very position again. */
  lemma UpdateKeepsPositionIff(ctx: Context, st: State, d: Device, payload: Fields, now: nat)
    requires First(st.devices, DeviceId, d.id) == Some(d)
    ensures StoredFields(st, Devices, d.id) == Some(DeviceFields(d))
    ensures var r := ProposedDevice(ctx, st, DeviceFields(d) + payload, Some(d.id), now);
            r.Some? ==> (r.value.rackPosition == d.rackPosition <==> NamesPlacement(payload, d.rackPosition))
  {
    assert StoredFields(st, Devices, d.id) == Some(DeviceFields(d));
    AcceptedPositionIff(ctx, st, DeviceFields(d) + payload, Some(d.id), now, d.rackPosition);
    hide *;
    SamePlacementKeys(d, payload, d.rackPosition);
  }

  /** So an update that names no rack, start unit or height, by leaving them out or by sending null
      or blank, takes the device out of its rack. */
  lemma UpdateWithoutPlacementUnmounts(ctx: Context, st: State, recordId: string, payload: Fields, now: nat)
    requires NamesPlacement(payload, None)
    requires StoredFields(st, Devices, recordId).Some?
    ensures var r := ProposedDevice(ctx, st, StoredFields(st, Devices, recordId).value + payload, Some(recordId), now);
            r.Some? ==> r.value.rackPosition == None
  {
    var d := First(st.devices, DeviceId, recordId).value;
    AcceptedPositionIff(ctx, st, DeviceFields(d) + payload, Some(recordId), now, None);
    hide *;
    SamePlacementKeys(d, payload, None);
  }

  // ----- both happen in every safe state

  lemma PlainText(payload: Fields, key: string, text: string)
    requires Field(payload, key) == Some(Text(text)) && text != "" && Trimmed(text)
    ensures AsString(Field(payload, key)) == Some(text)
    ensures AsNullableString(Field(payload, key)) == Some(text)
  {
    TrimFacts(text);
    hide Trim;
  }

  /** A request that names its own canonical id keeps it. */
  lemma IdKept(kind: string, payload: Fields, id: string, fallback: Option<string>, now: nat)
    requires Field(payload, "id") == Some(Text(id)) && IsSlug(id)
    ensures NewId(kind, payload, Some(id), fallback, now) == id
  {
    PlainText(payload, "id", id);
    SlugStays(id);
    hide SanitizeId;
    hide AsNullableString;
  }

  lemma AppliedUpdate(ctx: Context, st: State, resource: Resource, recordId: string, payload: Fields, now: nat,
                      stored: Fields, record: Record)
    requires StoredFields(st, resource, recordId) == Some(stored)
    requires Proposed(ctx, st, resource, stored + payload, Some(recordId), now) == Some(record)
    requires ConflictFree(SnapshotOf(ctx, NextState(st, record, Some(recordId))))
    ensures Step(ctx, st, Update(resource, recordId, payload, now)) == NextState(st, record, Some(recordId))
  {
    hide StoredFields;
    hide Proposed;
    hide ConflictFree;
    hide NextState;
  }

  /** The device record is one that the API itself stores. */
  predicate StorableDevice(d: Device) {
    && IsSlug(d.id) && d.siteId != "" && Trimmed(d.siteId) && d.name != "" && Trimmed(d.name)
    && d.role in ROLES && d.status in DEVICE_STATUSES
  }

  predicate StorableRack(r: Rack) {
    IsSlug(r.id) && r.siteId != "" && Trimmed(r.siteId) && r.name != "" && Trimmed(r.name)
  }

  function Renamed(d: Device, name: string): Device {
    d.(name := name, rackPosition := None)
  }

  lemma RolesArePlain(d: Device)
    requires StorableDevice(d)
    ensures d.role != "" && Trimmed(d.role) && d.status != "" && Trimmed(d.status)
  {
    hide IsSlug;
  }

  lemma NamesNothing(name: string)
    ensures NamesPlacement(map["name" := Text(name)], None)
  {
  }

  /** What the fields of a payload must be for a device record to be proposed without a position. */
  lemma ProposedUnmounted(ctx: Context, st: State, payload: Fields, existingId: string, now: nat, d: Device)
    requires AsString(Field(payload, "name")) == Some(d.name) && AsString(Field(payload, "siteId")) == Some(d.siteId)
    requires AsString(Field(payload, "role")) == Some(d.role) && AsString(Field(payload, "status")) == Some(d.status)
    requires HasSite(st.sites, d.siteId) && d.role in ROLES && d.status in DEVICE_STATUSES
    requires NewId("device", payload, Some(existingId), Some(d.name), now) == d.id && d.id == existingId
    requires ProposedPlacement(st, payload, Some(existingId)).Unplaced? && d.rackPosition == None
    ensures ProposedDevice(ctx, st, payload, Some(existingId), now) == Some(d)
  {
    hide AsString, NewId, ProposedPlacement, HasSite, ROLES, DEVICE_STATUSES;
  }

  lemma RenameIsProposed(ctx: Context, st: State, d: Device, payload: Fields, name: string, now: nat)
    requires StorableDevice(d) && name != "" && Trimmed(name) && HasSite(st.sites, d.siteId)
    requires payload == DeviceFields(d) + map["name" := Text(name)]
    ensures ProposedDevice(ctx, st, payload, Some(d.id), now) == Some(Renamed(d, name))
  {
    hide AsString, AsNullableString, NewId, ProposedPlacement, ProposedDevice, NamesPlacement, IsSlug, Trimmed, HasSite;
    IdKept("device", payload, d.id, Some(name), now);
    PlainText(payload, "name", name);
    PlainText(payload, "siteId", d.siteId);
    RolesArePlain(d);
    PlainText(payload, "role", d.role);
    PlainText(payload, "status", d.status);
    NamesNothing(name);
    SamePlacementKeys(d, map["name" := Text(name)], None);
    PlacementIff(st, payload, Some(d.id));
    ProposedUnmounted(ctx, st, payload, d.id, now, Renamed(d, name));
  }

  /** Unmounting a device in place leaves the snapshot free of conflicts. */
  lemma {:induction false} UnmountedIsConflictFree(ctx: Context, st: State, d: Device)
    requires ConflictFree(SnapshotOf(ctx, st)) && HasSite(st.sites, d.siteId) && d.rackPosition == None
    ensures ConflictFree(SnapshotOf(ctx, st.(devices := Replace(st.devices, DeviceId, d.id, d))))
  {
    var s, s' := SnapshotOf(ctx, st), SnapshotOf(ctx, st.(devices := Replace(st.devices, DeviceId, d.id, d)));
    hide PrefixAgrees, OverlapDeclared, SameHost, InsidePrefix, Hosted, HostIn;
    SamePrefixRules(s, s');
    forall id | HasDevice(s.devices, id) ensures HasDevice(s'.devices, id) {
      var k :| 0 <= k < |s.devices| && s.devices[k].id == id;
      assert s'.devices[k] in s'.devices;
    }
    forall x | x in s'.devices ensures DeviceAgrees(s', x) {
      assert x == d || DeviceAgrees(s, x);
    }
    forall c | c in s'.connections ensures ConnectionAgrees(s', c) {
      assert ConnectionAgrees(s, c);
    }
    forall a | a in s'.ipAddresses ensures AddressAgrees(s', a) {
      assert AddressAgrees(s, a);
    }
  }

  /** In every safe state, renaming a device and nothing else is applied, and takes the device out of
      its rack. */
  lemma {:induction false} RenameUnmounts(ctx: Context, st: State, d: Device, name: string, now: nat)
    requires Safe(ctx, st) && d in st.devices && StorableDevice(d) && name != "" && Trimmed(name)
    ensures Step(ctx, st, Update(Devices, d.id, map["name" := Text(name)], now)) ==
            st.(devices := Replace(st.devices, DeviceId, d.id, Renamed(d, name)))
  {
    var payload: Fields := map["name" := Text(name)];
    var record := DeviceRecord(Renamed(d, name));
    FirstOfUnique(st, d);
    assert DeviceAgrees(SnapshotOf(ctx, st), d);
    RenameIsProposed(ctx, st, d, DeviceFields(d) + payload, name, now);
    UnmountedIsConflictFree(ctx, st, Renamed(d, name));
    hide ProposedDevice, ConflictFree, DeviceFields, Step, StorableDevice;
    AppliedUpdate(ctx, st, Devices, d.id, payload, now, DeviceFields(d), record);
  }

  lemma FirstOfUnique(st: State, d: Device)
    requires UniqueKeys(st.devices, DeviceId) && d in st.devices
    ensures StoredFields(st, Devices, d.id) == Some(DeviceFields(d))
  {
    var found := First(st.devices, DeviceId, d.id).value;
    var i :| 0 <= i < |st.devices| && st.devices[i] == d;
    var j :| 0 <= j < |st.devices| && st.devices[j] == found;
  }

  lemma FirstRackOfUnique(st: State, rack: Rack)
    requires UniqueKeys(st.racks, RackId) && rack in st.racks
    ensures StoredFields(st, Racks, rack.id) == Some(RackFields(rack))
  {
    var found := First(st.racks, RackId, rack.id).value;
    var i :| 0 <= i < |st.racks| && st.racks[i] == rack;
    var j :| 0 <= j < |st.racks| && st.racks[j] == found;
  }

  lemma HeightIsProposed(ctx: Context, st: State, rack: Rack, payload: Fields, units: int, now: nat)
    requires StorableRack(rack) && HasSite(st.sites, rack.siteId) && units >= 1
    requires payload == RackFields(rack) + map["totalUnits" := Integer(units)]
    ensures ProposedRack(ctx, st, payload, Some(rack.id), now) == Some(rack.(totalUnits := units))
  {
    IdKept("rack", payload, rack.id, Some(rack.name), now);
    PlainText(payload, "name", rack.name);
    PlainText(payload, "siteId", rack.siteId);
    hide AsString, AsNullableString, NewId, IsSlug;
  }

  lemma {:induction false} ResizedKeepsSites(racks: seq<Rack>, rack: Rack, units: int)
    requires UniqueKeys(racks, RackId) && rack in racks
    ensures var next := RackIndex(Replace(racks, RackId, rack.id, rack.(totalUnits := units)));
            forall id :: id in RackIndex(racks) ==> id in next && next[id].siteId == RackIndex(racks)[id].siteId
  {
    NextRackLookup(racks, rack.id, rack.(totalUnits := units));
    RackIndexUnique(racks);
    hide RackIndex, UniqueKeys, Replace;
  }

  /** A new height leaves the snapshot free of conflicts: no rule looks at it. */
  lemma {:induction false} ResizedIsConflictFree(ctx: Context, st: State, rack: Rack, units: int)
    requires UniqueKeys(st.racks, RackId) && ConflictFree(SnapshotOf(ctx, st)) && rack in st.racks
    ensures ConflictFree(SnapshotOf(ctx, st.(racks := Replace(st.racks, RackId, rack.id, rack.(totalUnits := units)))))
  {
    var resized := rack.(totalUnits := units);
    var s, s' := SnapshotOf(ctx, st), SnapshotOf(ctx, st.(racks := Replace(st.racks, RackId, rack.id, resized)));
    assert forall x :: x in s'.racks ==> x == resized || x in s.racks;
    hide PrefixAgrees, AddressAgrees, OverlapDeclared, SameHost, RackIndex, UniqueKeys, Replace;
    SamePrefixRules(s, s');
    SameAddressRules(s, s');
    ResizedKeepsSites(st.racks, rack, units);
    assert RackAgrees(s, rack);
    forall x | x in s'.racks ensures RackAgrees(s', x) {
      assert x == resized || RackAgrees(s, x);
    }
    forall x | x in s'.devices ensures DeviceAgrees(s', x) {
      assert DeviceAgrees(s, x);
    }
  }

  /** In every safe state, changing the height of a rack and nothing else is applied, whatever stands
      in the rack. */
  lemma {:induction false} HeightUpdateApplies(ctx: Context, st: State, rack: Rack, units: int, now: nat)
    requires Safe(ctx, st) && rack in st.racks && StorableRack(rack) && units >= 1
    ensures Step(ctx, st, Update(Racks, rack.id, map["totalUnits" := Integer(units)], now)) ==
            st.(racks := Replace(st.racks, RackId, rack.id, rack.(totalUnits := units)))
  {
    var payload: Fields := map["totalUnits" := Integer(units)];
    var record := RackRecord(rack.(totalUnits := units));
    FirstRackOfUnique(st, rack);
    assert RackAgrees(SnapshotOf(ctx, st), rack);
    HeightIsProposed(ctx, st, rack, RackFields(rack) + payload, units, now);
    ResizedIsConflictFree(ctx, st, rack, units);
    hide ProposedRack, ConflictFree, RackFields, Step, StorableRack;
    AppliedUpdate(ctx, st, Racks, rack.id, payload, now, RackFields(rack), record);
  }

  // ----- a safe state with a mounted device

  const NOTHING := Context([], [], [], [])

  const TEN_UNITS := Rack("rack", "site", "Rack", 10)

  const SERVER := Device("server", "site", Some(RackPosition("rack", "front", 5, 1)), "Server", "server", "active")

  /** One device on unit 5 of a rack of ten. */
  const MOUNTED := State([Site("site", "site", "Site", None)], [TEN_UNITS], [SERVER], [], [])

  lemma ServerIsStorable()
    ensures StorableDevice(SERVER)
  {
  }

  lemma MountedIsConflictFree()
    ensures ConflictFree(SnapshotOf(NOTHING, MOUNTED)) && AllInBounds(MOUNTED)
  {
    assert [TEN_UNITS][..0] == [];
    assert MOUNTED.sites[0] in MOUNTED.sites;
  }

  lemma MountedIsSafe()
    ensures Safe(NOTHING, MOUNTED) && AllInBounds(MOUNTED)
    ensures SERVER in MOUNTED.devices && StorableDevice(SERVER)
    ensures TEN_UNITS in MOUNTED.racks && StorableRack(TEN_UNITS)
  {
    ServerIsStorable();
    MountedIsConflictFree();
    hide StorableDevice, ConflictFree;
    assert MOUNTED.devices[0] == SERVER && MOUNTED.racks[0] == TEN_UNITS;
  }

  /** From there a rename takes the mounted device out of its rack, and lowering the rack to four
      units leaves the device above it. */
  lemma {:induction false} MountedFindings()
    ensures Safe(NOTHING, MOUNTED) && AllInBounds(MOUNTED) && SERVER.rackPosition.Some?
    ensures Step(NOTHING, MOUNTED, Update(Devices, "server", map["name" := Text("db")], 0)).devices ==
            [Renamed(SERVER, "db")]
    ensures !AllInBounds(Step(NOTHING, MOUNTED, Update(Racks, "rack", map["totalUnits" := Integer(4)], 0)))
  {
    MountedIsSafe();
    RenameUnmounts(NOTHING, MOUNTED, SERVER, "db", 0);
    HeightUpdateApplies(NOTHING, MOUNTED, TEN_UNITS, 4, 0);
    hide Safe, Step, StorableDevice, StorableRack;
    var lowered := [TEN_UNITS.(totalUnits := 4)];
    assert lowered[..0] == [];
    assert Replace(MOUNTED.racks, RackId, "rack", lowered[0]) == lowered;
    assert !MountedInBounds(lowered, SERVER);
  }
}
