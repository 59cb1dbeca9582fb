/** The inventory as a state machine: what every create, update and delete keeps. */
module InventoryRuns {
  import opened Wrappers
  import opened Payload
  import opened InventoryModel
  import opened InventoryRequests
  import opened InventoryState
  import opened Keyed
  import opened RackPlacement
  import opened SnapshotValidation
  import opened PrefixHierarchy
  import opened Inventory
  import opened InventoryAnswers
  import opened Ipv4

  datatype Command =
    | Create(resource: Resource, payload: Fields, now: nat)
    | Update(resource: Resource, recordId: string, payload: Fields, now: nat)
    | Delete(resource: Resource, recordId: string)

  ghost function Step(ctx: Context, st: State, command: Command): State {
    match command
    case Create(resource, payload, now) => AfterMutation(ctx, st, resource, payload, None, now)
    case Update(resource, recordId, payload, now) =>
      var stored := StoredFields(st, resource, recordId);
      if stored.None? then st
      else AfterMutation(ctx, st, resource, stored.value + payload, Some(recordId), now)
    case Delete(resource, recordId) => AfterDelete(ctx, st, resource, recordId)
  }

  ghost function Run(ctx: Context, st: State, commands: seq<Command>): State
    decreases |commands|
  {
    if commands == [] then st else Run(ctx, Step(ctx, st, commands[0]), commands[1..])
  }

  /** The integrity of the stored inventory. */
  ghost predicate Safe(ctx: Context, st: State) {
    && UniqueIds(st)
    && ConflictFree(SnapshotOf(ctx, st))
    && HierarchyOk(st.prefixes)
    && NoSharedUnits(st.devices)
  }

  // ----- the persisted store: every handler runs as one locked section

  class InventoryStore {
    const context: Context
    var state: State

    ghost predicate Valid()
      reads this
    {
      UniqueIds(state)
    }

    constructor (context: Context, state: State)
      requires UniqueIds(state)
      ensures Valid() && this.context == context && this.state == state
    {
      this.context := context;
      this.state := state;
    }

    /** A create is applied, refused for the faults of its payload, or turned down for the conflicts the
        new record would bring. */
    method HandleCreate(resource: Resource, payload: Fields, now: nat) returns (outcome: Outcome)
      requires Valid()
      modifies this
      ensures Valid()
      ensures state == Step(context, old(state), Create(resource, payload, now))
      ensures outcome.Applied? || outcome.Refusal? || outcome.Conflicting?
      ensures outcome.Applied? ==>
                && Reads(resource, payload, None, now, outcome.record)
                && Added(old(state), state, outcome.record)
                && ConflictFree(SnapshotOf(context, state))
      ensures !outcome.Applied? ==> state == old(state)
      ensures outcome.Refusal? <==> exists f :: Fault(context, old(state), resource, payload, None, now, f)
      ensures outcome.Refusal? ==>
                forall f :: f in outcome.fields <==> Fault(context, old(state), resource, payload, None, now, f)
      ensures outcome.Conflicting? ==>
                && outcome.conflicts != []
                && WouldConflict(context, old(state), resource, payload, None, now, outcome.conflicts)
    {
      hide *;
      ValidMeansUnique(this);
      StepKeepsUniqueIds(context, state, Create(resource, payload, now));
      CreateStep(context, state, resource, payload, now);
      AnyNewIsLocatable(state, resource);
      var next;
      outcome, next := ValidateMutation(context, state, resource, payload, None, now);
      if outcome.Applied? {
        WrittenNew(state, next, outcome.record);
      }
      state := next;
      UniqueMeansValid(this);
    }

    /** An update reads the request over the fields of the stored record; in a settled inventory it keeps
        every field the request leaves out. */
    method HandleUpdate(resource: Resource, recordId: string, payload: Fields, now: nat) returns (outcome: Outcome)
      requires Valid()
      modifies this
      ensures Valid()
      ensures state == Step(context, old(state), Update(resource, recordId, payload, now))
      ensures outcome.NotFound? || outcome.Applied? || outcome.Refusal? || outcome.Conflicting?
      ensures outcome.NotFound? <==> !Stored(old(state), resource, recordId)
      ensures !outcome.Applied? ==> state == old(state)
      ensures !outcome.NotFound? ==>
                && StoredFields(old(state), resource, recordId).Some?
                && Answers(context, old(state), state, resource, recordId,
                           StoredFields(old(state), resource, recordId).value + payload, now, outcome)
      ensures outcome.Applied? && AllSettled(old(state)) ==> Keeps(old(state), payload, recordId, outcome.record)
    {
      hide *;
      ValidMeansUnique(this);
      StepKeepsUniqueIds(context, state, Update(resource, recordId, payload, now));
      UpdateStep(context, state, resource, recordId, payload, now);
      StoredIff(state, resource, recordId);
      var existing := StoredFields(state, resource, recordId);
      if existing.None? {
        outcome := NotFound;
      } else {
        StoredIsLocatable(state, resource, recordId);
        var next;
        outcome, next := ValidateMutation(context, state, resource, existing.value + payload, Some(recordId), now);
        if outcome.Applied? {
          WrittenOver(state, next, recordId, outcome.record);
          if AllSettled(state) {
            UpdateKeeps(state, resource, recordId, payload, now, outcome.record);
          }
        }
        AnswersIff(context, state, next, resource, recordId, existing.value + payload, now, outcome);
        state := next;
      }
      UniqueMeansValid(this);
    }

    /** A delete cuts out exactly the one record, unless it is not there or something still refers to it. */
    method HandleDelete(resource: Resource, recordId: string) returns (outcome: Outcome)
      requires Valid()
      modifies this
      ensures Valid()
      ensures state == Step(context, old(state), Delete(resource, recordId))
      ensures outcome.NotFound? || outcome.Blocked? || outcome.Deleted?
      ensures outcome.NotFound? <==> !Stored(old(state), resource, recordId)
      ensures outcome.Blocked? <==>
              Stored(old(state), resource, recordId) && DeleteBlocked(context, old(state), resource, recordId)
      ensures outcome.Deleted? ==>
                Removed(old(state), state, resource, recordId) && !Stored(state, resource, recordId)
      ensures !outcome.Deleted? ==> state == old(state)
    {
      hide *;
      ValidMeansUnique(this);
      StepKeepsUniqueIds(context, state, Delete(resource, recordId));
      DeleteStep(context, state, resource, recordId);
      StoredIff(state, resource, recordId);
      if StoredFields(state, resource, recordId).None? {
        outcome := NotFound;
      } else if DeleteBlocked(context, state, resource, recordId) {
        outcome := Blocked;
      } else {
        outcome := Deleted;
        DeletedIsGone(context, state, resource, recordId);
        DeleteRemoves(context, state, resource, recordId);
        state := AfterDelete(context, state, resource, recordId);
        StoredIff(state, resource, recordId);
      }
      UniqueMeansValid(this);
    }
  }

  /** What an update answers about the request merged with the stored record. */
  ghost predicate Answers(ctx: Context, before: State, after: State, resource: Resource, recordId: string,
                          merged: Fields, now: nat, outcome: Outcome) {
    && (outcome.Applied? ==>
          && Reads(resource, merged, Some(recordId), now, outcome.record)
          && Changed(before, after, recordId, outcome.record)
          && ConflictFree(SnapshotOf(ctx, after)))
    && (outcome.Refusal? <==> exists f :: Fault(ctx, before, resource, merged, Some(recordId), now, f))
    && (outcome.Refusal? ==>
          forall f :: f in outcome.fields <==> Fault(ctx, before, resource, merged, Some(recordId), now, f))
    && (outcome.Conflicting? ==>
          && outcome.conflicts != []
          && WouldConflict(ctx, before, resource, merged, Some(recordId), now, outcome.conflicts))
  }

  lemma AnswersIff(ctx: Context, before: State, after: State, resource: Resource, recordId: string,
                   merged: Fields, now: nat, outcome: Outcome)
    requires outcome.Applied? ==>
               && Reads(resource, merged, Some(recordId), now, outcome.record)
               && Changed(before, after, recordId, outcome.record)
               && ConflictFree(SnapshotOf(ctx, after))
    requires outcome.Refusal? <==> exists f :: Fault(ctx, before, resource, merged, Some(recordId), now, f)
    requires outcome.Refusal? ==>
               forall f :: f in outcome.fields <==> Fault(ctx, before, resource, merged, Some(recordId), now, f)
    requires outcome.Conflicting? ==>
               && outcome.conflicts != []
               && WouldConflict(ctx, before, resource, merged, Some(recordId), now, outcome.conflicts)
    ensures Answers(ctx, before, after, resource, recordId, merged, now, outcome)
  {
    hide Reads, Changed, Fault, WouldConflict, ConflictFree;
  }

  lemma AnyNewIsLocatable(st: State, resource: Resource)
    ensures Locatable(st, resource, None)
  {
  }

  lemma StoredIsLocatable(st: State, resource: Resource, id: string)
    requires UniqueIds(st) && Stored(st, resource, id)
    ensures Locatable(st, resource, Some(id))
  {
  }

  lemma WrittenNew(before: State, after: State, record: Record)
    requires Written(before, after, None, record)
    ensures Added(before, after, record)
  {
  }

  lemma WrittenOver(before: State, after: State, id: string, record: Record)
    requires Written(before, after, Some(id), record)
    ensures Changed(before, after, id, record)
  {
  }

  lemma ValidMeansUnique(store: InventoryStore)
    ensures store.Valid() ==> UniqueIds(store.state) && UniquePrefixes(store.state.prefixes)
  {
  }

  lemma UniqueMeansValid(store: InventoryStore)
    ensures UniqueIds(store.state) ==> store.Valid()
  {
  }

  lemma CreateStep(ctx: Context, st: State, resource: Resource, payload: Fields, now: nat)
    ensures Step(ctx, st, Create(resource, payload, now)) == AfterMutation(ctx, st, resource, payload, None, now)
  {
  }

  lemma UpdateStep(ctx: Context, st: State, resource: Resource, recordId: string, payload: Fields, now: nat)
    ensures Step(ctx, st, Update(resource, recordId, payload, now)) ==
            if StoredFields(st, resource, recordId).None? then st
            else AfterMutation(ctx, st, resource, StoredFields(st, resource, recordId).value + payload,
                               Some(recordId), now)
  {
  }

  lemma DeleteStep(ctx: Context, st: State, resource: Resource, recordId: string)
    ensures Step(ctx, st, Delete(resource, recordId)) == AfterDelete(ctx, st, resource, recordId)
    ensures StoredFields(st, resource, recordId).None? || DeleteBlocked(ctx, st, resource, recordId) ==>
              AfterDelete(ctx, st, resource, recordId) == st
  {
  }

  lemma DeletedIsGone(ctx: Context, st: State, resource: Resource, id: string)
    requires !DeleteBlocked(ctx, st, resource, id) && StoredFields(st, resource, id).Some?
    ensures StoredFields(AfterDelete(ctx, st, resource, id), resource, id).None?
  {
    hide SiteFields;
    hide RackFields;
    hide DeviceFields;
    hide PrefixFields;
    hide AddressFields;
  }

  // ----- unique ids

  /** The id of an accepted record is not taken by another record. */
  ghost predicate FreshId(st: State, record: Record, existingId: Option<string>) {
    match record
    case SiteRecord(x) => !Taken(st.sites, SiteId, x.id, existingId)
    case RackRecord(x) => !Taken(st.racks, RackId, x.id, existingId)
    case DeviceRecord(x) => !Taken(st.devices, DeviceId, x.id, existingId)
    case PrefixRecord(x) => !Taken(st.prefixes, PrefixId, x.id, existingId)
    case AddressRecord(x) => !Taken(st.ipAddresses, AddressId, x.id, existingId)
  }

  lemma ProposedIdIsFresh(ctx: Context, st: State, resource: Resource, payload: Fields,
                          existingId: Option<string>, now: nat)
    ensures var r := Proposed(ctx, st, resource, payload, existingId, now);
            r.Some? ==> FreshId(st, r.value, existingId)
  {
    hide NewId;
    hide ProposedPlacement;
    hide HierarchyOk;
    hide ValidCidrShape;
    hide FamilyOf;
  }

  lemma NextKeepsUniqueIds(st: State, record: Record, existingId: Option<string>)
    requires UniqueIds(st) && FreshId(st, record, existingId)
    ensures UniqueIds(NextState(st, record, existingId))
  {
    match record {
      case SiteRecord(x) =>
        if existingId.None? { AppendedUnique(st.sites, SiteId, x); }
        else { ReplacedUnique(st.sites, SiteId, existingId.value, x); }
      case RackRecord(x) =>
        if existingId.None? { AppendedUnique(st.racks, RackId, x); }
        else { ReplacedUnique(st.racks, RackId, existingId.value, x); }
      case DeviceRecord(x) =>
        if existingId.None? { AppendedUnique(st.devices, DeviceId, x); }
        else { ReplacedUnique(st.devices, DeviceId, existingId.value, x); }
      case PrefixRecord(x) =>
        if existingId.None? { AppendedUnique(st.prefixes, PrefixId, x); }
        else { ReplacedUnique(st.prefixes, PrefixId, existingId.value, x); }
      case AddressRecord(x) =>
        if existingId.None? { AppendedUnique(st.ipAddresses, AddressId, x); }
        else { ReplacedUnique(st.ipAddresses, AddressId, existingId.value, x); }
    }
  }

  lemma MutationKeepsUniqueIds(ctx: Context, st: State, resource: Resource, payload: Fields,
                               existingId: Option<string>, now: nat)
    requires UniqueIds(st)
    ensures UniqueIds(AfterMutation(ctx, st, resource, payload, existingId, now))
  {
    ProposedIdIsFresh(ctx, st, resource, payload, existingId, now);
    var r := Proposed(ctx, st, resource, payload, existingId, now);
    hide *;
    if r.Some? {
      NextKeepsUniqueIds(st, r.value, existingId);
    }
    MutationResult(ctx, st, resource, payload, existingId, now);
  }

  /** A mutation either changes nothing or moves to the conflict-free next state of its record. */
  lemma MutationResult(ctx: Context, st: State, resource: Resource, payload: Fields,
                       existingId: Option<string>, now: nat)
    ensures var after := AfterMutation(ctx, st, resource, payload, existingId, now);
            var r := Proposed(ctx, st, resource, payload, existingId, now);
            || after == st
            || (r.Some? && after == NextState(st, r.value, existingId) && ConflictFree(SnapshotOf(ctx, after)))
  {
    hide Proposed;
    hide NextState;
    hide ConflictFree;
  }

  lemma DeleteKeepsUniqueIds(ctx: Context, st: State, resource: Resource, id: string)
    requires UniqueIds(st)
    ensures UniqueIds(AfterDelete(ctx, st, resource, id))
  {
  }

  lemma StepKeepsUniqueIds(ctx: Context, st: State, command: Command)
    requires UniqueIds(st)
    ensures UniqueIds(Step(ctx, st, command))
  {
    match command {
      case Create(resource, payload, now) =>
        MutationKeepsUniqueIds(ctx, st, resource, payload, None, now);
      case Update(resource, recordId, payload, now) =>
        var stored := StoredFields(st, resource, recordId);
        if stored.Some? {
          MutationKeepsUniqueIds(ctx, st, resource, stored.value + payload, Some(recordId), now);
        }
      case Delete(resource, recordId) =>
        DeleteKeepsUniqueIds(ctx, st, resource, recordId);
    }
  }

  // ----- the hierarchy

  /** The check ran on the list with the record moved to the end; the verdict carries over to the
      record in its old place. */
  lemma {:induction false} ReplacedHierarchy(ps: seq<Prefix>, id: string, x: Prefix)
    requires UniquePrefixes(ps) && !Taken(ps, PrefixId, x.id, Some(id))
    requires exists p :: p in ps && p.id == id
    requires HierarchyOk(Without(ps, PrefixId, Some(id)) + [x])
    ensures HierarchyOk(Replace(ps, PrefixId, id, x))
  {
    hide HierarchyOk;
    var moved, replaced := Without(ps, PrefixId, Some(id)) + [x], Replace(ps, PrefixId, id, x);
    AppendedIsUnique(ps, Some(id), x);
    ReplacedUnique(ps, PrefixId, id, x);
    forall p ensures p in moved <==> p in replaced {
      if p in replaced {
        var i :| 0 <= i < |ps| && replaced[i] == p;
        assert ps[i] in ps;
      }
      if p in moved && p != x {
        var i :| 0 <= i < |ps| && ps[i] == p;
        assert replaced[i] == p;
      }
      if p == x {
        var i :| 0 <= i < |ps| && ps[i].id == id;
        assert replaced[i] == x;
      }
    }
    VerdictIgnoresOrder(moved, replaced);
  }

  lemma MutationKeepsHierarchy(ctx: Context, st: State, resource: Resource, payload: Fields,
                               existingId: Option<string>, now: nat)
    requires UniqueIds(st) && HierarchyOk(st.prefixes)
    requires existingId.Some? ==> StoredFields(st, resource, existingId.value).Some?
    ensures HierarchyOk(AfterMutation(ctx, st, resource, payload, existingId, now).prefixes)
  {
    MutationResult(ctx, st, resource, payload, existingId, now);
    var after := AfterMutation(ctx, st, resource, payload, existingId, now);
    var r := Proposed(ctx, st, resource, payload, existingId, now);
    if after != st {
      if r.value.PrefixRecord? {
        PrefixMutationKeepsHierarchy(ctx, st, payload, existingId, now);
      }
      OtherMutationsKeepPrefixes(ctx, st, resource, payload, existingId, now);
    }
  }

  lemma OtherMutationsKeepPrefixes(ctx: Context, st: State, resource: Resource, payload: Fields,
                                   existingId: Option<string>, now: nat)
    ensures var r := Proposed(ctx, st, resource, payload, existingId, now);
            && (r.Some? && !r.value.PrefixRecord? ==> NextState(st, r.value, existingId).prefixes == st.prefixes)
            && (r.Some? ==> (r.value.PrefixRecord? <==> resource.Prefixes?))
  {
    hide ProposedSite;
    hide ProposedRack;
    hide ProposedDevice;
    hide ProposedPrefix;
    hide ProposedAddress;
  }

  lemma PrefixMutationKeepsHierarchy(ctx: Context, st: State, payload: Fields, existingId: Option<string>, now: nat)
    requires UniqueIds(st)
    requires existingId.Some? ==> exists p :: p in st.prefixes && p.id == existingId.value
    ensures var r := ProposedPrefix(ctx, st, payload, existingId, now);
            r.Some? ==> HierarchyOk(NextState(st, PrefixRecord(r.value), existingId).prefixes)
  {
    hide CandidatePrefix;
    hide HierarchyOk;
    hide ValidCidrShape;
    var r := ProposedPrefix(ctx, st, payload, existingId, now);
    if r.Some? {
      if existingId.None? {
        WithoutNothing(st.prefixes, PrefixId);
      } else {
        ReplacedHierarchy(st.prefixes, existingId.value, r.value);
      }
    }
  }

  /** Without a prefix that no other prefix declares as parent, the hierarchy stays accepted. */
  lemma {:induction false} DeletedHierarchy(ps: seq<Prefix>, id: string)
    requires UniquePrefixes(ps) && HierarchyOk(ps)
    requires forall p :: p in ps ==> p.parentPrefixId != Some(id)
    ensures HierarchyOk(Without(ps, PrefixId, Some(id)))
  {
    hide ParseCidr;
    hide Length;
    PrefixIndexUnique(ps);
    var rest := Without(ps, PrefixId, Some(id));
    PrefixIndexUnique(rest);
    forall p | p in rest ensures EdgeOk(rest, p) {
      assert EdgeOk(ps, p);
      if Truthy(p.parentPrefixId) {
        var parent := PrefixIndex(ps)[p.parentPrefixId.value];
        assert parent in rest;
      }
    }
  }

  // ----- rack units

  lemma AppendedUnits(devices: seq<Device>, x: Device)
    requires NoSharedUnits(devices)
    requires x.rackPosition.Some? ==>
               forall d :: d in devices && d.rackPosition.Some? ==>
                             !ShareUnit(x.rackPosition.value, d.rackPosition.value)
    ensures NoSharedUnits(devices + [x])
  {
    hide ShareUnit;
    var next := devices + [x];
    forall i, j | 0 <= i < j < |next| && next[i].rackPosition.Some? && next[j].rackPosition.Some?
      ensures !ShareUnit(next[i].rackPosition.value, next[j].rackPosition.value)
    {
      if j == |devices| {
        assert devices[i] in devices;
        ShareUnitSymmetric(next[i].rackPosition.value, next[j].rackPosition.value);
      }
    }
  }

  lemma ReplacedUnits(devices: seq<Device>, id: string, x: Device)
    requires UniqueKeys(devices, DeviceId) && NoSharedUnits(devices)
    requires x.rackPosition.Some? ==>
               forall d :: d in devices && d.id != id && d.rackPosition.Some? ==>
                             !ShareUnit(x.rackPosition.value, d.rackPosition.value)
    ensures NoSharedUnits(Replace(devices, DeviceId, id, x))
  {
    hide ShareUnit;
    var next := Replace(devices, DeviceId, id, x);
    forall i, j | 0 <= i < j < |next| && next[i].rackPosition.Some? && next[j].rackPosition.Some?
      ensures !ShareUnit(next[i].rackPosition.value, next[j].rackPosition.value)
    {
      assert devices[i] in devices && devices[j] in devices;
      ShareUnitSymmetric(next[i].rackPosition.value, next[j].rackPosition.value);
    }
  }

  /** An accepted placement shares no unit with any device but the one being updated, in any rack. */
  lemma PlacementIsFree(st: State, payload: Fields, existingId: Option<string>)
    ensures var placement := ProposedPlacement(st, payload, existingId);
            placement.Placed? ==>
              forall d :: d in st.devices && Some(d.id) != existingId && d.rackPosition.Some? ==>
                !ShareUnit(placement.position, d.rackPosition.value)
  {
    var placement := ProposedPlacement(st, payload, existingId);
    if placement.Placed? {
      PlacedIff(st, payload, existingId, placement.position);
    }
  }

  lemma MutationKeepsUnits(ctx: Context, st: State, resource: Resource, payload: Fields,
                           existingId: Option<string>, now: nat)
    requires UniqueIds(st) && NoSharedUnits(st.devices)
    ensures NoSharedUnits(AfterMutation(ctx, st, resource, payload, existingId, now).devices)
  {
    MutationResult(ctx, st, resource, payload, existingId, now);
    var r := Proposed(ctx, st, resource, payload, existingId, now);
    if r.Some? && r.value.DeviceRecord? {
      DeviceMutationKeepsUnits(ctx, st, payload, existingId, now);
    }
    OtherMutationsKeepDevices(ctx, st, resource, payload, existingId, now);
  }

  lemma OtherMutationsKeepDevices(ctx: Context, st: State, resource: Resource, payload: Fields,
                                  existingId: Option<string>, now: nat)
    ensures var r := Proposed(ctx, st, resource, payload, existingId, now);
            && (r.Some? && !r.value.DeviceRecord? ==> NextState(st, r.value, existingId).devices == st.devices)
            && (r.Some? ==> (r.value.DeviceRecord? <==> resource.Devices?))
  {
    hide ProposedSite;
    hide ProposedRack;
    hide ProposedDevice;
    hide ProposedPrefix;
    hide ProposedAddress;
  }

  lemma DeviceMutationKeepsUnits(ctx: Context, st: State, payload: Fields, existingId: Option<string>, now: nat)
    requires UniqueIds(st) && NoSharedUnits(st.devices)
    ensures var r := ProposedDevice(ctx, st, payload, existingId, now);
            r.Some? ==> NoSharedUnits(NextState(st, DeviceRecord(r.value), existingId).devices)
  {
    PlacementIsFree(st, payload, existingId);
    hide ProposedPlacement;
    hide NoSharedUnits;
    hide ShareUnit;
    var r := ProposedDevice(ctx, st, payload, existingId, now);
    if r.Some? {
      if existingId.None? {
        AppendedUnits(st.devices, r.value);
      } else {
        ReplacedUnits(st.devices, existingId.value, r.value);
      }
    }
  }

  lemma {:induction false} DeletedUnits(devices: seq<Device>, id: string)
    requires NoSharedUnits(devices)
    ensures NoSharedUnits(Without(devices, DeviceId, Some(id)))
  {
    if devices != [] {
      var front, last := devices[..|devices| - 1], devices[|devices| - 1];
      DeletedUnits(front, id);
      var rest := Without(front, DeviceId, Some(id));
      if last.rackPosition.Some? {
        forall d | d in rest && d.rackPosition.Some?
          ensures !ShareUnit(last.rackPosition.value, d.rackPosition.value)
        {
          var k :| 0 <= k < |front| && front[k] == d;
          ShareUnitSymmetric(last.rackPosition.value, d.rackPosition.value);
        }
      }
      AppendedUnits(rest, last);
    }
  }

  // ----- deletes keep the snapshot free of conflicts through their guards

  lemma {:induction false} DeletedSite(ctx: Context, st: State, id: string)
    requires ConflictFree(SnapshotOf(ctx, st)) && !DeleteBlocked(ctx, st, Sites, id)
    ensures ConflictFree(SnapshotOf(ctx, st.(sites := Without(st.sites, SiteId, Some(id)))))
  {
    var s, s' := SnapshotOf(ctx, st), SnapshotOf(ctx, st.(sites := Without(st.sites, SiteId, Some(id))));
    hide PrefixAgrees, AddressAgrees, OverlapsDeclared, HostsDistinct, RackIndex, InterfaceIndex, HasDevice;
    assert forall other :: other != id && HasSite(s.sites, other) ==> HasSite(s'.sites, other);
    SamePrefixRules(s, s');
    SameAddressRules(s, s');
  }

  lemma SamePrefixRules(s: Snapshot, s': Snapshot)
    requires s'.vrfs == s.vrfs && s'.prefixes == s.prefixes
    ensures forall x :: PrefixAgrees(s', x) <==> PrefixAgrees(s, x)
  {
    hide ParseRange;
    hide InsideParent;
  }

  lemma SameAddressRules(s: Snapshot, s': Snapshot)
    requires s'.vrfs == s.vrfs && s'.prefixes == s.prefixes && s'.interfaces == s.interfaces
    requires s'.devices == s.devices
    ensures forall x :: AddressAgrees(s', x) <==> AddressAgrees(s, x)
  {
    hide ParseRange;
    hide InsidePrefix;
  }

  /** A device left in place does not stand in the deleted rack. */
  lemma {:induction false} DeletedRackDevice(ctx: Context, st: State, id: string, d: Device)
    requires UniqueKeys(st.racks, RackId) && !DeleteBlocked(ctx, st, Racks, id) && d in st.devices
    requires DeviceAgrees(SnapshotOf(ctx, st), d)
    ensures DeviceAgrees(SnapshotOf(ctx, st.(racks := Without(st.racks, RackId, Some(id)))), d)
  {
    var s, s' := SnapshotOf(ctx, st), SnapshotOf(ctx, st.(racks := Without(st.racks, RackId, Some(id))));
    RackIndexUnique(st.racks);
    RackIndexUnique(s'.racks);
    if d.rackPosition.Some? {
      var rack := RackIndex(s.racks)[d.rackPosition.value.rackId];
      assert rack in s'.racks;
    }
  }

  lemma {:induction false} DeletedRack(ctx: Context, st: State, id: string)
    requires ConflictFree(SnapshotOf(ctx, st)) && UniqueKeys(st.racks, RackId) && !DeleteBlocked(ctx, st, Racks, id)
    ensures ConflictFree(SnapshotOf(ctx, st.(racks := Without(st.racks, RackId, Some(id)))))
  {
    var s, s' := SnapshotOf(ctx, st), SnapshotOf(ctx, st.(racks := Without(st.racks, RackId, Some(id))));
    hide PrefixAgrees, AddressAgrees, OverlapDeclared, SameHost, DeviceAgrees, DeleteBlocked, UniqueKeys;
    forall d | d in s'.devices ensures DeviceAgrees(s', d) {
      assert DeviceAgrees(s, d);
      DeletedRackDevice(ctx, st, id, d);
    }
    SamePrefixRules(s, s');
    SameAddressRules(s, s');
  }

  lemma {:induction false} DeletedDevice(ctx: Context, st: State, id: string)
    requires ConflictFree(SnapshotOf(ctx, st)) && !DeleteBlocked(ctx, st, Devices, id)
    ensures ConflictFree(SnapshotOf(ctx, st.(devices := Without(st.devices, DeviceId, Some(id)))))
  {
    var s, s' := SnapshotOf(ctx, st), SnapshotOf(ctx, st.(devices := Without(st.devices, DeviceId, Some(id))));
    hide PrefixAgrees;
    hide OverlapDeclared;
    hide SameHost;
    hide InsidePrefix;
    hide ParseRange;
    assert forall other :: other != id && HasDevice(s.devices, other) ==> HasDevice(s'.devices, other);
    SamePrefixRules(s, s');
    forall d | d in s'.devices ensures DeviceAgrees(s', d) {
      assert DeviceAgrees(s, d);
    }
    forall c | c in s'.connections ensures ConnectionAgrees(s', c) {
      assert ConnectionAgrees(s, c);
    }
    forall a | a in s'.ipAddresses ensures AddressAgrees(s', a) {
      assert AddressAgrees(s, a);
    }
  }

  lemma DeletedPrefix(ctx: Context, st: State, id: string)
    requires ConflictFree(SnapshotOf(ctx, st)) && UniquePrefixes(st.prefixes) && !DeleteBlocked(ctx, st, Prefixes, id)
    ensures ConflictFree(SnapshotOf(ctx, st.(prefixes := Without(st.prefixes, PrefixId, Some(id)))))
  {
    var s, s' := SnapshotOf(ctx, st), SnapshotOf(ctx, st.(prefixes := Without(st.prefixes, PrefixId, Some(id))));
    hide PrefixAgrees;
    hide AddressAgrees;
    hide OverlapDeclared;
    hide SameHost;
    forall p | p in s'.prefixes ensures PrefixAgrees(s', p) {
      PrefixStillAgrees(s, s', id, p);
    }
    forall a | a in s'.ipAddresses ensures AddressAgrees(s', a) {
      AddressStillAgrees(s, s', id, a);
    }
  }

  lemma PrefixStillAgrees(s: Snapshot, s': Snapshot, id: string, p: Prefix)
    requires UniquePrefixes(s.prefixes) && s' == s.(prefixes := Without(s.prefixes, PrefixId, Some(id)))
    requires PrefixAgrees(s, p) && p.parentPrefixId != Some(id)
    ensures PrefixAgrees(s', p)
  {
    hide ParseRange;
    SamePrefixLookups(s.prefixes, id);
  }

  lemma AddressStillAgrees(s: Snapshot, s': Snapshot, id: string, a: IpAddress)
    requires UniquePrefixes(s.prefixes) && s' == s.(prefixes := Without(s.prefixes, PrefixId, Some(id)))
    requires AddressAgrees(s, a) && a.prefixId != Some(id)
    ensures AddressAgrees(s', a)
  {
    hide ParseRange;
    SamePrefixLookups(s.prefixes, id);
  }

  /** Removing a prefix leaves the lookups of all other ids as they were. */
  lemma {:induction false} SamePrefixLookups(ps: seq<Prefix>, id: string)
    requires UniquePrefixes(ps)
    ensures var m, n := PrefixIndex(ps), PrefixIndex(Without(ps, PrefixId, Some(id)));
            forall other :: other != id && other in m ==> other in n && n[other] == m[other]
  {
    var rest := Without(ps, PrefixId, Some(id));
    PrefixIndexUnique(ps);
    PrefixIndexUnique(rest);
    forall other | other != id && other in PrefixIndex(ps)
      ensures other in PrefixIndex(rest) && PrefixIndex(rest)[other] == PrefixIndex(ps)[other]
    {
      assert PrefixIndex(ps)[other] in rest;
    }
  }

  lemma {:induction false} DeletedAddress(ctx: Context, st: State, id: string)
    requires ConflictFree(SnapshotOf(ctx, st))
    ensures ConflictFree(SnapshotOf(ctx, st.(ipAddresses := Without(st.ipAddresses, AddressId, Some(id)))))
  {
    var s, s' := SnapshotOf(ctx, st), SnapshotOf(ctx, st.(ipAddresses := Without(st.ipAddresses, AddressId, Some(id))));
    hide PrefixAgrees;
    hide AddressAgrees;
    hide OverlapDeclared;
    hide SameHost;
    SamePrefixRules(s, s');
    SameAddressRules(s, s');
  }

  lemma DeleteKeepsConflictFree(ctx: Context, st: State, resource: Resource, id: string)
    requires UniqueIds(st) && ConflictFree(SnapshotOf(ctx, st))
    ensures ConflictFree(SnapshotOf(ctx, AfterDelete(ctx, st, resource, id)))
  {
    hide ConflictFree;
    hide StoredFields;
    hide DeleteBlocked;
    if StoredFields(st, resource, id).Some? && !DeleteBlocked(ctx, st, resource, id) {
      match resource {
        case Sites => DeletedSite(ctx, st, id);
        case Racks => DeletedRack(ctx, st, id);
        case Devices => DeletedDevice(ctx, st, id);
        case Prefixes => DeletedPrefix(ctx, st, id);
        case IpAddresses => DeletedAddress(ctx, st, id);
      }
    }
  }

  lemma DeleteKeepsSafe(ctx: Context, st: State, resource: Resource, id: string)
    requires Safe(ctx, st)
    ensures Safe(ctx, AfterDelete(ctx, st, resource, id))
  {
    DeleteKeepsUniqueIds(ctx, st, resource, id);
    DeleteKeepsConflictFree(ctx, st, resource, id);
    hide ConflictFree;
    hide StoredFields;
    hide UniqueIds;
    hide HierarchyOk;
    hide NoSharedUnits;
    if StoredFields(st, resource, id).Some? && !DeleteBlocked(ctx, st, resource, id) {
      if resource.Prefixes? {
        PrefixesUnique(st);
        DeletedHierarchy(st.prefixes, id);
      } else if resource.Devices? {
        DeletedUnits(st.devices, id);
      }
    }
  }

  lemma PrefixesUnique(st: State)
    requires UniqueIds(st)
    ensures UniquePrefixes(st.prefixes)
  {
  }

  lemma MutationKeepsSafe(ctx: Context, st: State, resource: Resource, payload: Fields,
                          existingId: Option<string>, now: nat)
    requires Safe(ctx, st)
    requires existingId.Some? ==> StoredFields(st, resource, existingId.value).Some?
    ensures Safe(ctx, AfterMutation(ctx, st, resource, payload, existingId, now))
  {
    hide UniqueIds;
    hide ConflictFree;
    hide HierarchyOk;
    hide NoSharedUnits;
    hide StoredFields;
    hide AfterMutation;
    MutationKeepsUniqueIds(ctx, st, resource, payload, existingId, now);
    MutationKeepsHierarchy(ctx, st, resource, payload, existingId, now);
    MutationKeepsUnits(ctx, st, resource, payload, existingId, now);
    MutationResult(ctx, st, resource, payload, existingId, now);
  }

  lemma StepKeepsSafe(ctx: Context, st: State, command: Command)
    requires Safe(ctx, st)
    ensures Safe(ctx, Step(ctx, st, command))
  {
    hide Safe;
    hide AfterMutation;
    hide AfterDelete;
    match command {
      case Create(resource, payload, now) =>
        MutationKeepsSafe(ctx, st, resource, payload, None, now);
      case Update(resource, recordId, payload, now) =>
        var stored := StoredFields(st, resource, recordId);
        if stored.Some? {
          MutationKeepsSafe(ctx, st, resource, stored.value + payload, Some(recordId), now);
        }
      case Delete(resource, recordId) =>
        DeleteKeepsSafe(ctx, st, resource, recordId);
    }
  }

  /** Whole-run safety: every sequence of creates, updates (id renames included) and deletes keeps
      ids unique, the snapshot free of conflicts, the prefix hierarchy accepted and rack units
      exclusive. */
  lemma {:induction false} RunKeepsSafe(ctx: Context, st: State, commands: seq<Command>)
    requires Safe(ctx, st)
    ensures Safe(ctx, Run(ctx, st, commands))
    decreases |commands|
  {
    hide Safe;
    hide Step;
    if commands != [] {
      StepKeepsSafe(ctx, st, commands[0]);
      RunKeepsSafe(ctx, Step(ctx, st, commands[0]), commands[1..]);
    }
  }
}
