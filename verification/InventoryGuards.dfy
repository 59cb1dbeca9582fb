/** The guards of a delete are exact: they stop precisely the deletes that would leave a reference
    behind. */
module InventoryGuards {
  import opened Wrappers
  import opened InventoryModel
  import opened InventoryState
  import opened InventoryRequests
  import opened Keyed
  import opened PrefixHierarchy
  import opened Inventory

  /** The id is stored, or stands for nothing. */
  ghost predicate Refers(st: State, resource: Resource, id: Option<string>) {
    Truthy(id) ==> Stored(st, resource, id.value)
  }

  function RackOf(d: Device): Option<string> {
    if d.rackPosition.Some? then Some(d.rackPosition.value.rackId) else None
  }

  /** Every reference to a stored record resolves. */
  ghost predicate Closed(ctx: Context, st: State) {
    && (forall r :: r in st.racks ==> Refers(st, Sites, Some(r.siteId)))
    && (forall d :: d in st.devices ==> Refers(st, Sites, Some(d.siteId)) && Refers(st, Racks, RackOf(d)))
    && (forall n :: n in ctx.interfaces ==> Refers(st, Devices, Some(n.deviceId)))
    && (forall c :: c in ctx.connections ==>
          Refers(st, Devices, Some(c.fromDeviceId)) && Refers(st, Devices, Some(c.toDeviceId)))
    && (forall p :: p in st.prefixes ==> Refers(st, Prefixes, p.parentPrefixId))
    && (forall a :: a in st.ipAddresses ==> Refers(st, Prefixes, a.prefixId))
  }

  /** After the cut, exactly the id is no longer stored. */
  lemma StoredAfter(before: State, after: State, resource: Resource, id: string)
    requires UniqueIds(before) && Removed(before, after, resource, id)
    ensures forall other, x :: Stored(after, other, x) <==> Stored(before, other, x) && (other != resource || x != id)
    ensures forall x :: x in after.racks <==> x in before.racks && (!resource.Racks? || x.id != id)
    ensures forall x :: x in after.devices <==> x in before.devices && (!resource.Devices? || x.id != id)
    ensures forall x :: x in after.prefixes <==> x in before.prefixes && (!resource.Prefixes? || x.id != id)
    ensures forall x :: x in after.ipAddresses <==> x in before.ipAddresses && (!resource.IpAddresses? || x.id != id)
  {
    hide UniqueKeys, CutOut;
    match resource {
      case Sites => CutLeaves(before.sites, after.sites, SiteId, id);
      case Racks => CutLeaves(before.racks, after.racks, RackId, id);
      case Devices => CutLeaves(before.devices, after.devices, DeviceId, id);
      case Prefixes => CutLeaves(before.prefixes, after.prefixes, PrefixId, id);
      case IpAddresses => CutLeaves(before.ipAddresses, after.ipAddresses, AddressId, id);
    }
  }

  /** In an accepted hierarchy no prefix is its own parent. */
  lemma NoOwnParent(ps: seq<Prefix>, p: Prefix)
    requires UniquePrefixes(ps) && HierarchyOk(ps) && p in ps && p.id != ""
    ensures p.parentPrefixId != Some(p.id)
  {
    PrefixIndexUnique(ps);
    assert EdgeOk(ps, p);
    hide ParseCidr, Length, UniquePrefixes, PrefixIndex;
  }

  /** In an inventory whose references all resolve, a delete is blocked exactly when taking the record out
      would leave a reference to it behind. */
  lemma {:induction false} GuardIsExact(ctx: Context, st: State, after: State, resource: Resource, id: string)
    requires UniqueIds(st) && HierarchyOk(st.prefixes) && Closed(ctx, st)
    requires Removed(st, after, resource, id) && id != ""
    ensures DeleteBlocked(ctx, st, resource, id) <==> !Closed(ctx, after)
  {
    StoredAfter(st, after, resource, id);
    forall p | p in st.prefixes && p.id != "" ensures p.parentPrefixId != Some(p.id) {
      NoOwnParent(st.prefixes, p);
    }
    hide Removed, UniqueIds, HierarchyOk, Stored;
  }
}
