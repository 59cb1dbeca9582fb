/** Which interfaces and connections the inventory can be written under at all: every create and every
    update is checked together with all connections, which no request can change. */
module InventoryWiring {
  import opened Wrappers
  import opened JsText
  import opened Payload
  import opened InventoryModel
  import opened InventoryState
  import opened Keyed
  import opened RackPlacement
  import opened SnapshotValidation
  import opened Inventory
  import opened InventoryRuns
  import Consequences = InventoryConsequences

  /** The interface is there and belongs to the device. */
  predicate End(interfaces: seq<Interface>, interfaceId: string, deviceId: string) {
    interfaceId in InterfaceIndex(interfaces) && InterfaceIndex(interfaces)[interfaceId].deviceId == deviceId
  }

  /** Both ends are interfaces of the devices the connection names. */
  predicate Wired(ctx: Context, c: Connection) {
    && End(ctx.interfaces, c.fromInterfaceId, c.fromDeviceId)
    && End(ctx.interfaces, c.toInterfaceId, c.toDeviceId)
  }

  predicate AllWired(ctx: Context) {
    forall c :: c in ctx.connections ==> Wired(ctx, c)
  }

  // ----- a connection that is not wired stops everything

  lemma ConflictFreeIsWired(ctx: Context, st: State)
    requires ConflictFree(SnapshotOf(ctx, st))
    ensures AllWired(ctx)
  {
    hide SiteAgrees, RackAgrees, DeviceAgrees, InterfaceAgrees, PrefixAgrees, AddressAgrees, OverlapsDeclared;
    hide HostsDistinct, InterfaceIndex;
    forall c | c in ctx.connections ensures Wired(ctx, c) {
      assert ConnectionAgrees(SnapshotOf(ctx, st), c);
    }
  }

  /** While some connection is not wired, every mutation is refused or reported as a conflict, in every
      state. */
  lemma UnwiredBlocks(ctx: Context, st: State, resource: Resource, payload: Fields, existingId: Option<string>,
                      now: nat)
    requires !AllWired(ctx)
    ensures AfterMutation(ctx, st, resource, payload, existingId, now) == st
  {
    hide *;
    MutationResult(ctx, st, resource, payload, existingId, now);
    var r := Proposed(ctx, st, resource, payload, existingId, now);
    if r.Some? && ConflictFree(SnapshotOf(ctx, NextState(st, r.value, existingId))) {
      ConflictFreeIsWired(ctx, NextState(st, r.value, existingId));
    }
  }

  // ----- under wired connections there is a safe state to write to

  function DeviceNamed(id: string): Device {
    Device(id, "site", None, "", "", "")
  }

  /** One device for every device id that an interface names. */
  function DevicesOf(interfaces: seq<Interface>): (ds: seq<Device>)
    ensures UniqueKeys(ds, DeviceId)
    ensures forall d :: d in ds ==> d == DeviceNamed(d.id)
    ensures forall n :: n in interfaces ==> DeviceNamed(n.deviceId) in ds
  {
    if interfaces == [] then []
    else
      var rest, last := DevicesOf(interfaces[..|interfaces| - 1]), DeviceNamed(interfaces[|interfaces| - 1].deviceId);
      if last in rest then rest else rest + [last]
  }

  /** One site with a device for every interface, and nothing else. */
  function Wiring(ctx: Context): State {
    State([Site("site", "", "", None)], [], DevicesOf(ctx.interfaces), [], [])
  }

  lemma EndsHaveDevices(ctx: Context, interfaceId: string, deviceId: string)
    requires End(ctx.interfaces, interfaceId, deviceId)
    ensures OwnedBy(SnapshotOf(ctx, Wiring(ctx)), interfaceId, deviceId)
  {
    var n := InterfaceIndex(ctx.interfaces)[interfaceId];
    assert DeviceNamed(n.deviceId) in DevicesOf(ctx.interfaces);
  }

  lemma {:induction false} WiringIsConflictFree(ctx: Context)
    requires AllWired(ctx)
    ensures ConflictFree(SnapshotOf(ctx, Wiring(ctx)))
  {
    var s := SnapshotOf(ctx, Wiring(ctx));
    assert Wiring(ctx).sites[0] in s.sites;
    forall n | n in s.interfaces ensures InterfaceAgrees(s, n) {
      assert DeviceNamed(n.deviceId) in s.devices;
    }
    hide DevicesOf, OwnedBy, End;
    forall c | c in s.connections ensures ConnectionAgrees(s, c) {
      assert Wired(ctx, c);
      EndsHaveDevices(ctx, c.fromInterfaceId, c.fromDeviceId);
      EndsHaveDevices(ctx, c.toInterfaceId, c.toDeviceId);
    }
  }

  lemma {:induction false} WiringIsSafe(ctx: Context)
    requires AllWired(ctx)
    ensures Safe(ctx, Wiring(ctx))
  {
    WiringIsConflictFree(ctx);
    hide ConflictFree, ShareUnit, AllWired;
    var ds := DevicesOf(ctx.interfaces);
    forall i | 0 <= i < |ds| ensures ds[i].rackPosition == None {
      assert ds[i] in ds;
    }
  }

  // ----- a new site is always accepted where the snapshot is free of conflicts

  lemma SiteIsProposed(ctx: Context, st: State, name: string, now: nat)
    requires IsSlug(name) && !Taken(st.sites, SiteId, name, None)
    ensures ProposedSite(ctx, st, map["name" := Text(name), "slug" := Text(name)], None, now)
         == Some(Site(name, name, name, None))
  {
    var payload: Fields := map["name" := Text(name), "slug" := Text(name)];
    assert Trimmed(name);
    Consequences.PlainText(payload, "name", name);
    Consequences.PlainText(payload, "slug", name);
    CreatedIdIsSlug("site", Some(name), now);
    hide AsString, IsSlug, CreateId, Taken;
  }

  lemma {:induction false} NewSiteIsConflictFree(ctx: Context, st: State, site: Site)
    requires ConflictFree(SnapshotOf(ctx, st)) && site.tenantId == None
    ensures ConflictFree(SnapshotOf(ctx, st.(sites := st.sites + [site])))
  {
    var s, s' := SnapshotOf(ctx, st), SnapshotOf(ctx, st.(sites := st.sites + [site]));
    hide PrefixAgrees, AddressAgrees, OverlapsDeclared, HostsDistinct, RackIndex;
    SamePrefixRules(s, s');
    SameAddressRules(s, s');
    assert forall id :: HasSite(s.sites, id) ==> HasSite(s'.sites, id);
  }

  lemma {:induction false} NewSiteApplies(ctx: Context, st: State, name: string, now: nat)
    requires ConflictFree(SnapshotOf(ctx, st)) && IsSlug(name) && !Taken(st.sites, SiteId, name, None)
    ensures AfterMutation(ctx, st, Sites, map["name" := Text(name), "slug" := Text(name)], None, now)
         == st.(sites := st.sites + [Site(name, name, name, None)])
  {
    SiteIsProposed(ctx, st, name, now);
    NewSiteIsConflictFree(ctx, st, Site(name, name, name, None));
    hide ProposedSite, ConflictFree, IsSlug, Taken;
  }

  // ----- the exact condition

  ghost predicate Applies(ctx: Context, st: State, resource: Resource, payload: Fields, existingId: Option<string>,
                          now: nat)
  {
    AfterMutation(ctx, st, resource, payload, existingId, now) != st
  }

  lemma {:induction false} WiredApplies(ctx: Context)
    requires AllWired(ctx)
    ensures Safe(ctx, Wiring(ctx))
    ensures Applies(ctx, Wiring(ctx), Sites, map["name" := Text("a"), "slug" := Text("a")], None, 0)
  {
    WiringIsSafe(ctx);
    assert IsSlug("a") && !Taken(Wiring(ctx).sites, SiteId, "a", None);
    hide AllWired, AfterMutation, ConflictFree, IsSlug, Taken, Wiring;
    NewSiteApplies(ctx, Wiring(ctx), "a", 0);
  }

  /** Some create or update can ever be applied exactly when every connection is wired; and exactly then
      there is a safe state at all. */
  lemma {:induction false} MutationsApplyIff(ctx: Context)
    ensures (exists st, resource, payload, existingId, now :: Applies(ctx, st, resource, payload, existingId, now)) <==>
            AllWired(ctx)
    ensures (exists st :: Safe(ctx, st)) <==> AllWired(ctx)
  {
    if AllWired(ctx) {
      WiredApplies(ctx);
    } else {
      forall st, resource, payload, existingId, now
        ensures !Applies(ctx, st, resource, payload, existingId, now)
      {
        UnwiredBlocks(ctx, st, resource, payload, existingId, now);
      }
      forall st ensures !Safe(ctx, st) {
        if Safe(ctx, st) {
          ConflictFreeIsWired(ctx, st);
        }
      }
    }
    hide AllWired, AfterMutation, Safe, Wiring;
  }

  // ----- the built-in records

  /** The built-in interfaces. */
  const INTERFACES := [
    Interface("iface-leaf-sw1-uplink", "device-leaf-sw1"),
    Interface("iface-leaf-sw1-server", "device-leaf-sw1"),
    Interface("iface-leaf-sw1-mgmt", "device-leaf-sw1"),
    Interface("iface-leaf-sw2-uplink", "device-leaf-sw2"),
    Interface("iface-leaf-sw2-storage", "device-leaf-sw2"),
    Interface("iface-leaf-sw2-mgmt", "device-leaf-sw2"),
    Interface("iface-compute-01-eth0", "device-compute-01"),
    Interface("iface-compute-02-eth0", "device-compute-02"),
    Interface("iface-storage-01-eth0", "device-storage-01")
  ]

  /** The first of the built-in connections. */
  const SPINE_UPLINK := Connection("conn-spine-leaf1", "device-spine-sw1", "iface-spine-sw1-leaf1",
                                   "device-leaf-sw1", "iface-leaf-sw1-uplink")

  /** Over the built-in interfaces and connections no create and no update is ever applied. */
  lemma BuiltInConnectionsBlock(ctx: Context, st: State, resource: Resource, payload: Fields,
                                existingId: Option<string>, now: nat)
    requires ctx.interfaces == INTERFACES && SPINE_UPLINK in ctx.connections
    ensures AfterMutation(ctx, st, resource, payload, existingId, now) == st
  {
    assert forall n :: n in INTERFACES ==> n.id != SPINE_UPLINK.fromInterfaceId;
    assert !Wired(ctx, SPINE_UPLINK);
    hide AfterMutation;
    UnwiredBlocks(ctx, st, resource, payload, existingId, now);
  }

  /** An interface of another device blocks as well as a missing one. */
  lemma ForeignInterfaceBlocks(ctx: Context, st: State, resource: Resource, payload: Fields,
                               existingId: Option<string>, now: nat)
    requires ctx.interfaces == [Interface("i", "d")] && Connection("c", "other", "i", "d", "i") in ctx.connections
    ensures AfterMutation(ctx, st, resource, payload, existingId, now) == st
  {
    assert !Wired(ctx, Connection("c", "other", "i", "d", "i"));
    hide AfterMutation;
    UnwiredBlocks(ctx, st, resource, payload, existingId, now);
  }
}
