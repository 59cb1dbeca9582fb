/** Which conflicts the snapshot validator reports: for every code the records it names and when. */
module SnapshotReports {
  import opened Wrappers
  import opened Ipv4
  import opened InventoryModel
  import opened SnapshotValidation

  // ----- what each code says

  ghost predicate SiteSays(s: Snapshot, x: Site, c: Conflict) {
    && c.code == SiteMissingTenant && c.recordId == x.id
    && x.tenantId == Some(c.relatedId) && c.relatedId != "" && !HasTenant(s.tenants, c.relatedId)
  }

  ghost predicate RackSays(s: Snapshot, x: Rack, c: Conflict) {
    && c.code == RackMissingSite && c.recordId == x.id
    && c.relatedId == x.siteId && !HasSite(s.sites, x.siteId)
  }

  ghost predicate DeviceSays(s: Snapshot, x: Device, c: Conflict) {
    var racks := RackIndex(s.racks);
    && c.recordId == x.id
    && match c.code
       case DeviceMissingSite => c.relatedId == x.siteId && !HasSite(s.sites, x.siteId)
       case DeviceMissingRack =>
         x.rackPosition.Some? && c.relatedId == x.rackPosition.value.rackId && c.relatedId !in racks
       case DeviceRackSiteMismatch =>
         && x.rackPosition.Some? && c.relatedId == x.rackPosition.value.rackId
         && c.relatedId in racks && racks[c.relatedId].siteId != x.siteId
       case _ => false
  }

  ghost predicate InterfaceSays(s: Snapshot, x: Interface, c: Conflict) {
    && c.code == InterfaceMissingDevice && c.recordId == x.id
    && c.relatedId == x.deviceId && !HasDevice(s.devices, x.deviceId)
  }

  /** An interface that another device owns; the report names the owner. */
  ghost predicate OwnedElsewhere(s: Snapshot, interfaceId: string, deviceId: string, owner: string) {
    && interfaceId in InterfaceIndex(s.interfaces)
    && InterfaceIndex(s.interfaces)[interfaceId].deviceId == owner && owner != deviceId
  }

  ghost predicate ConnectionSays(s: Snapshot, x: Connection, c: Conflict) {
    && c.recordId == x.id
    && match c.code
       case ConnectionMissingFromDevice => c.relatedId == x.fromDeviceId && !HasDevice(s.devices, x.fromDeviceId)
       case ConnectionMissingToDevice => c.relatedId == x.toDeviceId && !HasDevice(s.devices, x.toDeviceId)
       case ConnectionMissingFromInterface =>
         c.relatedId == x.fromInterfaceId && x.fromInterfaceId !in InterfaceIndex(s.interfaces)
       case ConnectionFromInterfaceMismatch => OwnedElsewhere(s, x.fromInterfaceId, x.fromDeviceId, c.relatedId)
       case ConnectionMissingToInterface =>
         c.relatedId == x.toInterfaceId && x.toInterfaceId !in InterfaceIndex(s.interfaces)
       case ConnectionToInterfaceMismatch => OwnedElsewhere(s, x.toInterfaceId, x.toDeviceId, c.relatedId)
       case _ => false
  }

  /** Only IPv4 prefixes that denote a range are looked at. */
  ghost predicate PrefixSays(s: Snapshot, x: Prefix, c: Conflict) {
    var index := PrefixIndex(s.prefixes);
    && Ranged(x) && c.recordId == x.id && c.relatedId != ""
    && match c.code
       case PrefixMissingVrf => x.vrfId == Some(c.relatedId) && !HasVrf(s.vrfs, c.relatedId)
       case PrefixMissingParent => x.parentPrefixId == Some(c.relatedId) && c.relatedId !in index
       case PrefixParentScopeMismatch =>
         && x.parentPrefixId == Some(c.relatedId) && c.relatedId in index
         && (index[c.relatedId].family != V4 || index[c.relatedId].vrfId != x.vrfId)
       case PrefixOutsideParent =>
         && x.parentPrefixId == Some(c.relatedId) && c.relatedId in index
         && index[c.relatedId].vrfId == x.vrfId && Ranged(index[c.relatedId])
         && !Contains(RangeIn(index[c.relatedId]), RangeIn(x))
       case _ => false
  }

  /** Two overlapping prefixes of one VRF that are no declared parent and child. */
  ghost predicate PairSays(p: Prefix, q: Prefix, c: Conflict) {
    && c.code == PrefixUndeclaredContainment && c.recordId == p.id && c.relatedId == q.id
    && Ranged(p) && Ranged(q) && p.id != q.id && p.vrfId == q.vrfId
    && RangeIn(p).start <= RangeIn(q).end && RangeIn(q).start <= RangeIn(p).end
    && !ContainedByDeclaredRelationship(p, q, RangeIn(p), RangeIn(q))
  }

  /** Only IPv4 addresses that denote a host are looked at. */
  ghost predicate AddressSays(s: Snapshot, x: IpAddress, c: Conflict) {
    var index, interfaces := PrefixIndex(s.prefixes), InterfaceIndex(s.interfaces);
    && Hosted(x) && c.recordId == x.id
    && match c.code
       case IpMissingVrf => x.vrfId == Some(c.relatedId) && c.relatedId != "" && !HasVrf(s.vrfs, c.relatedId)
       case IpMissingPrefix => x.prefixId == Some(c.relatedId) && c.relatedId != "" && c.relatedId !in index
       case IpPrefixScopeMismatch =>
         && x.prefixId == Some(c.relatedId) && c.relatedId != "" && c.relatedId in index
         && (index[c.relatedId].vrfId != x.vrfId || index[c.relatedId].family != V4)
       case IpOutsidePrefix =>
         && x.prefixId == Some(c.relatedId) && c.relatedId != "" && c.relatedId in index
         && index[c.relatedId].vrfId == x.vrfId && Ranged(index[c.relatedId])
         && !(RangeIn(index[c.relatedId]).start <= HostIn(x) <= RangeIn(index[c.relatedId]).end)
       case IpMissingInterface => x.interfaceId == Some(c.relatedId) && c.relatedId != "" && c.relatedId !in interfaces
       case IpInterfaceMissingDevice =>
         && Truthy(x.interfaceId) && x.interfaceId.value in interfaces
         && c.relatedId == interfaces[x.interfaceId.value].deviceId && !HasDevice(s.devices, c.relatedId)
       case _ => false
  }

  /** The `i`th address is the first of the list with the same host. */
  ghost predicate FirstSame(xs: seq<IpAddress>, a: IpAddress, i: nat)
    requires i < |xs|
  {
    SameHost(xs[i], a) && forall k :: 0 <= k < i ==> !SameHost(xs[k], a)
  }

  /** The `j`th address repeats the host of an earlier one, the first that holds it. */
  ghost predicate RepeatSays(xs: seq<IpAddress>, i: nat, j: nat, c: Conflict)
    requires i < j < |xs|
  {
    c == Conflict(IpOverlap, xs[j].id, xs[i].id) && xs[i].id != xs[j].id && FirstSame(xs, xs[j], i)
  }

  /** The conflict is one that some record, pair of prefixes or repeated host stands for. */
  ghost predicate Reported(s: Snapshot, c: Conflict) {
    || (exists x :: x in s.sites && SiteSays(s, x, c))
    || (exists x :: x in s.racks && RackSays(s, x, c))
    || (exists x :: x in s.devices && DeviceSays(s, x, c))
    || (exists x :: x in s.interfaces && InterfaceSays(s, x, c))
    || (exists x :: x in s.connections && ConnectionSays(s, x, c))
    || (exists x :: x in s.prefixes && PrefixSays(s, x, c))
    || (exists i, j :: 0 <= i < j < |s.prefixes| && PairSays(s.prefixes[i], s.prefixes[j], c))
    || (exists x :: x in s.ipAddresses && AddressSays(s, x, c))
    || (exists i: nat, j: nat :: i < j < |s.ipAddresses| && RepeatSays(s.ipAddresses, i, j, c))
  }

  // ----- one record

  lemma SiteReport(s: Snapshot, x: Site, c: Conflict)
    ensures c in SiteConflicts(s, x) <==> SiteSays(s, x, c)
  {
    hide HasTenant;
  }

  lemma RackReport(s: Snapshot, x: Rack, c: Conflict)
    ensures c in RackConflicts(s, x) <==> RackSays(s, x, c)
  {
    hide HasSite;
  }

  lemma DeviceReport(s: Snapshot, x: Device, c: Conflict)
    ensures c in DeviceConflicts(s, x) <==> DeviceSays(s, x, c)
  {
    hide HasSite, RackIndex;
  }

  lemma InterfaceReport(s: Snapshot, x: Interface, c: Conflict)
    ensures c in InterfaceConflicts(s, x) <==> InterfaceSays(s, x, c)
  {
    hide HasDevice;
  }

  lemma ConnectionReport(s: Snapshot, x: Connection, c: Conflict)
    ensures c in ConnectionConflicts(s, x) <==> ConnectionSays(s, x, c)
  {
    hide HasDevice, InterfaceIndex;
  }

  lemma PrefixReport(s: Snapshot, x: Prefix, c: Conflict)
    requires x.family == V4
    ensures c in PrefixConflicts(s, x) <==> PrefixSays(s, x, c)
  {
    hide HasVrf, PrefixIndex, ParseRange, Contains;
  }

  lemma PairReport(p: Prefix, q: Prefix, c: Conflict)
    requires p.family == V4 && q.family == V4
    ensures c in OverlapConflicts(p, q) <==> PairSays(p, q, c)
  {
    OverlapsAreContainments(p, q);
    hide ParseRange, ContainedByDeclaredRelationship;
  }

  lemma AddressReport(s: Snapshot, x: IpAddress, c: Conflict)
    requires x.family == V4
    ensures c in AddressConflicts(s, x) <==> AddressSays(s, x, c)
  {
    hide HasVrf, HasDevice, PrefixIndex, InterfaceIndex, ParseRange;
  }

  // ----- the lists of records

  lemma {:induction false} InGather(n: nat, at: nat -> seq<Conflict>, c: Conflict)
    ensures c in Gather(n, at) <==> exists i: nat :: i < n && c in at(i)
  {
    if n > 0 {
      InGather(n - 1, at, c);
    }
  }

  lemma SiteReportsAre(s: Snapshot, c: Conflict)
    ensures c in Gather(|s.sites|, SiteAt(s)) <==> exists x :: x in s.sites && SiteSays(s, x, c)
  {
    InGather(|s.sites|, SiteAt(s), c);
    forall i: nat | i < |s.sites| ensures c in SiteAt(s)(i) <==> SiteSays(s, s.sites[i], c) {
      SiteReport(s, s.sites[i], c);
    }
    hide SiteConflicts, SiteSays;
  }

  lemma RackReportsAre(s: Snapshot, c: Conflict)
    ensures c in Gather(|s.racks|, RackAt(s)) <==> exists x :: x in s.racks && RackSays(s, x, c)
  {
    InGather(|s.racks|, RackAt(s), c);
    forall i: nat | i < |s.racks| ensures c in RackAt(s)(i) <==> RackSays(s, s.racks[i], c) {
      RackReport(s, s.racks[i], c);
    }
    hide RackConflicts, RackSays;
  }

  lemma DeviceReportsAre(s: Snapshot, c: Conflict)
    ensures c in Gather(|s.devices|, DeviceAt(s)) <==> exists x :: x in s.devices && DeviceSays(s, x, c)
  {
    InGather(|s.devices|, DeviceAt(s), c);
    forall i: nat | i < |s.devices| ensures c in DeviceAt(s)(i) <==> DeviceSays(s, s.devices[i], c) {
      DeviceReport(s, s.devices[i], c);
    }
    hide DeviceConflicts, DeviceSays;
  }

  lemma InterfaceReportsAre(s: Snapshot, c: Conflict)
    ensures c in Gather(|s.interfaces|, InterfaceAt(s)) <==> exists x :: x in s.interfaces && InterfaceSays(s, x, c)
  {
    InGather(|s.interfaces|, InterfaceAt(s), c);
    forall i: nat | i < |s.interfaces| ensures c in InterfaceAt(s)(i) <==> InterfaceSays(s, s.interfaces[i], c) {
      InterfaceReport(s, s.interfaces[i], c);
    }
    hide InterfaceConflicts, InterfaceSays;
  }

  lemma ConnectionReportsAre(s: Snapshot, c: Conflict)
    ensures c in Gather(|s.connections|, ConnectionAt(s)) <==> exists x :: x in s.connections && ConnectionSays(s, x, c)
  {
    InGather(|s.connections|, ConnectionAt(s), c);
    forall i: nat | i < |s.connections| ensures c in ConnectionAt(s)(i) <==> ConnectionSays(s, s.connections[i], c) {
      ConnectionReport(s, s.connections[i], c);
    }
    hide ConnectionConflicts, ConnectionSays;
  }

  lemma PrefixReportsAre(s: Snapshot, c: Conflict)
    ensures c in PrefixReports(s, V4Prefixes(s.prefixes)) <==> exists x :: x in s.prefixes && PrefixSays(s, x, c)
  {
    var ps := V4Prefixes(s.prefixes);
    InGather(|ps|, PrefixAt(s, ps), c);
    forall i: nat | i < |ps| ensures c in PrefixAt(s, ps)(i) <==> PrefixSays(s, ps[i], c) {
      assert ps[i] in ps;
      PrefixReport(s, ps[i], c);
    }
    assert forall x :: x in s.prefixes && PrefixSays(s, x, c) ==> x in ps;
    hide PrefixConflicts, PrefixSays;
  }

  // ----- pairs of prefixes

  ghost predicate PairIn(ps: seq<Prefix>, c: Conflict) {
    exists i, j :: 0 <= i < j < |ps| && PairSays(ps[i], ps[j], c)
  }

  lemma PairInMore(front: seq<Prefix>, last: Prefix, c: Conflict)
    ensures PairIn(front + [last], c) <==> PairIn(front, c) || exists x :: x in front && PairSays(x, last, c)
  {
    hide PairSays;
    var ps := front + [last];
    if i, j :| 0 <= i < j < |front| && PairSays(front[i], front[j], c) {
      assert ps[i] == front[i] && ps[j] == front[j];
    }
    if x :| x in front && PairSays(x, last, c) {
      var i :| 0 <= i < |front| && front[i] == x;
      assert ps[i] == x && ps[|front|] == last;
    }
    if i, j :| 0 <= i < j < |ps| && PairSays(ps[i], ps[j], c) {
      assert ps[i] in front;
      if j < |front| {
        assert PairSays(front[i], front[j], c);
      }
    }
  }

  /** Leaving out the prefixes that are not IPv4 loses no pair and changes no order. */
  lemma {:induction false} PairsOfV4(ps: seq<Prefix>, c: Conflict)
    ensures PairIn(V4Prefixes(ps), c) <==> PairIn(ps, c)
  {
    hide PairIn;
    if ps == [] {
      assert V4Prefixes(ps) == ps;
    } else {
      var front, last := ps[..|ps| - 1], ps[|ps| - 1];
      PairsOfV4(front, c);
      PairInMore(front, last, c);
      assert front + [last] == ps;
      if last.family == V4 {
        PairInMore(V4Prefixes(front), last, c);
      } else {
        assert V4Prefixes(ps) == V4Prefixes(front);
      }
    }
  }

  lemma {:induction false} OverlapReportsAre(s: Snapshot, c: Conflict)
    ensures c in OverlapReports(V4Prefixes(s.prefixes)) <==> PairIn(s.prefixes, c)
  {
    var ps := V4Prefixes(s.prefixes);
    PairsOfV4(s.prefixes, c);
    InGather(|ps|, OverlapAt(ps), c);
    forall i: nat | i < |ps| ensures c in OverlapAt(ps)(i) <==> exists j :: i < j < |ps| && PairSays(ps[i], ps[j], c) {
      InGather(|ps|, PairAt(ps, i), c);
      forall j: nat | j < |ps| ensures c in PairAt(ps, i)(j) <==> i < j && PairSays(ps[i], ps[j], c) {
        assert ps[i] in ps && ps[j] in ps;
        PairReport(ps[i], ps[j], c);
      }
    }
    hide PairSays, OverlapConflicts;
  }

  // ----- repeated hosts

  ghost predicate RepeatIn(xs: seq<IpAddress>, c: Conflict) {
    exists i: nat, j: nat :: i < j < |xs| && RepeatSays(xs, i, j, c)
  }

  /** The address repeats the host of one of the list, the first that holds it. */
  ghost predicate Repeats(xs: seq<IpAddress>, a: IpAddress, c: Conflict) {
    && c.code == IpOverlap && c.recordId == a.id && c.recordId != c.relatedId
    && exists i: nat :: i < |xs| && FirstSame(xs, a, i) && c.relatedId == xs[i].id
  }

  lemma RepeatInMore(front: seq<IpAddress>, last: IpAddress, c: Conflict)
    ensures RepeatIn(front + [last], c) <==> RepeatIn(front, c) || Repeats(front, last, c)
  {
    hide SameHost;
    var xs := front + [last];
    assert xs[|front|] == last && forall k :: 0 <= k < |front| ==> xs[k] == front[k];
    if i: nat, j: nat :| i < j < |front| && RepeatSays(front, i, j, c) {
      assert RepeatSays(xs, i, j, c);
    }
    if i: nat :| i < |front| && FirstSame(front, last, i) && c.relatedId == front[i].id {
      assert Repeats(front, last, c) ==> RepeatSays(xs, i, |front|, c);
    }
    if i: nat, j: nat :| i < j < |xs| && RepeatSays(xs, i, j, c) {
      if j < |front| {
        assert RepeatSays(front, i, j, c);
      } else {
        assert FirstSame(front, last, i);
      }
    }
  }

  lemma RepeatsMore(front: seq<IpAddress>, last: IpAddress, a: IpAddress, c: Conflict)
    ensures Repeats(front + [last], a, c) <==>
            || Repeats(front, a, c)
            || (&& c.code == IpOverlap && c.recordId == a.id && c.recordId != c.relatedId && c.relatedId == last.id
                && SameHost(last, a) && forall x :: x in front ==> !SameHost(x, a))
  {
    hide SameHost;
    var xs := front + [last];
    assert xs[|front|] == last && forall k :: 0 <= k < |front| ==> xs[k] == front[k];
    forall i: nat | i < |front| ensures FirstSame(xs, a, i) <==> FirstSame(front, a, i) {
    }
    assert FirstSame(xs, a, |front|) <==> SameHost(last, a) && forall x :: x in front ==> !SameHost(x, a);
  }

  lemma {:induction false} RepeatsOfV4(xs: seq<IpAddress>, a: IpAddress, c: Conflict)
    ensures Repeats(V4Addresses(xs), a, c) <==> Repeats(xs, a, c)
  {
    hide Repeats;
    if xs == [] {
      assert V4Addresses(xs) == xs;
    } else {
      var front, last := xs[..|xs| - 1], xs[|xs| - 1];
      RepeatsOfV4(front, a, c);
      RepeatsMore(front, last, a, c);
      assert front + [last] == xs;
      assert forall x :: x in front && x !in V4Addresses(front) ==> !SameHost(x, a);
      if last.family == V4 {
        RepeatsMore(V4Addresses(front), last, a, c);
      } else {
        assert V4Addresses(xs) == V4Addresses(front);
      }
    }
  }

  lemma {:induction false} RepeatInV4(xs: seq<IpAddress>, c: Conflict)
    ensures RepeatIn(V4Addresses(xs), c) <==> RepeatIn(xs, c)
  {
    hide RepeatIn;
    if xs == [] {
      assert V4Addresses(xs) == xs;
    } else {
      var front, last := xs[..|xs| - 1], xs[|xs| - 1];
      RepeatInV4(front, c);
      RepeatInMore(front, last, c);
      assert front + [last] == xs;
      RepeatsOfV4(front, last, c);
      if last.family == V4 {
        RepeatInMore(V4Addresses(front), last, c);
      } else {
        assert V4Addresses(xs) == V4Addresses(front);
      }
    }
  }

  /** The keys of the scan tell which hosts are the same. */
  lemma SameKeys(xs: seq<IpAddress>, j: nat)
    requires j < |xs| && forall a :: a in xs ==> a.family == V4
    ensures forall i: nat :: i < j ==>
              (SameHost(xs[i], xs[j]) <==> AddressKeys(xs)[j].Some? && AddressKeys(xs)[i] == AddressKeys(xs)[j])
  {
    forall i: nat | i < j
      ensures SameHost(xs[i], xs[j]) <==> AddressKeys(xs)[j].Some? && AddressKeys(xs)[i] == AddressKeys(xs)[j]
    {
      assert xs[i] in xs && xs[j] in xs;
      SameHostSameKey(xs[i], xs[j]);
    }
    hide SameHost, AddressKey;
  }

  /** The scan finds the first holder of the host, if there is one. */
  lemma {:induction false} FirstHolderIs(xs: seq<IpAddress>, j: nat, i: nat)
    requires i < j < |xs| && forall a :: a in xs ==> a.family == V4
    ensures FirstSame(xs, xs[j], i) <==>
            AddressKeys(xs)[j].Some? && i == FirstHolder(AddressKeys(xs), AddressKeys(xs)[j], j)
  {
    var keys := AddressKeys(xs);
    FirstHolderFacts(keys, keys[j], j);
    SameKeys(xs, j);
    hide SameHost, AddressKeys, FirstHolder;
    var k := FirstHolder(keys, keys[j], j);
    assert k < i && keys[j].Some? ==> SameHost(xs[k], xs[j]);
  }

  lemma {:induction false} DuplicateReport(xs: seq<IpAddress>, j: nat, c: Conflict)
    requires j < |xs| && forall a :: a in xs ==> a.family == V4
    ensures c in DuplicateConflicts(xs, j) <==> exists i: nat :: i < j && RepeatSays(xs, i, j, c)
  {
    forall i: nat | i < j
      ensures FirstSame(xs, xs[j], i) <==>
              AddressKeys(xs)[j].Some? && i == FirstHolder(AddressKeys(xs), AddressKeys(xs)[j], j)
    {
      FirstHolderIs(xs, j, i);
    }
    hide FirstSame, AddressKeys, FirstHolder;
    var k := FirstHolder(AddressKeys(xs), AddressKeys(xs)[j], j);
    if k < j {
      assert RepeatSays(xs, k, j, c) <==> c in DuplicateConflicts(xs, j);
    }
  }

  ghost predicate AddressReported(s: Snapshot, xs: seq<IpAddress>, j: nat, c: Conflict)
    requires j < |xs|
  {
    AddressSays(s, xs[j], c) || exists i: nat :: i < j && RepeatSays(xs, i, j, c)
  }

  lemma OneAddressReported(s: Snapshot, xs: seq<IpAddress>, j: nat, c: Conflict)
    requires j < |xs| && forall a :: a in xs ==> a.family == V4
    ensures c in AddressAt(s, xs)(j) <==> AddressReported(s, xs, j, c)
  {
    assert xs[j] in xs;
    AddressReport(s, xs[j], c);
    DuplicateReport(xs, j, c);
    hide AddressConflicts, AddressSays, DuplicateConflicts, RepeatSays;
  }

  lemma {:induction false} AddressReportsAre(s: Snapshot, c: Conflict)
    ensures c in AddressReports(s, V4Addresses(s.ipAddresses)) <==>
            (exists x :: x in s.ipAddresses && AddressSays(s, x, c)) || RepeatIn(s.ipAddresses, c)
  {
    var xs := V4Addresses(s.ipAddresses);
    RepeatInV4(s.ipAddresses, c);
    V4Says(s, c);
    hide AddressAt, AddressSays, RepeatSays, AddressReported;
    InGather(|xs|, AddressAt(s, xs), c);
    forall j: nat | j < |xs| ensures c in AddressAt(s, xs)(j) <==> AddressReported(s, xs, j, c) {
      OneAddressReported(s, xs, j, c);
    }
    ReportedAnywhere(s, xs, c);
  }

  lemma ReportedAnywhere(s: Snapshot, xs: seq<IpAddress>, c: Conflict)
    ensures (exists j: nat :: j < |xs| && AddressReported(s, xs, j, c)) <==>
            (exists x :: x in xs && AddressSays(s, x, c)) || RepeatIn(xs, c)
  {
    hide AddressSays, RepeatSays;
    if x :| x in xs && AddressSays(s, x, c) {
      var j: nat :| j < |xs| && xs[j] == x;
      assert AddressReported(s, xs, j, c);
    }
    if i: nat, j: nat :| i < j < |xs| && RepeatSays(xs, i, j, c) {
      assert AddressReported(s, xs, j, c);
    }
  }

  lemma V4Says(s: Snapshot, c: Conflict)
    ensures forall x :: x in s.ipAddresses && AddressSays(s, x, c) ==> x in V4Addresses(s.ipAddresses)
  {
    hide PrefixIndex, InterfaceIndex, ParseRange, HasVrf, HasDevice;
  }

  /** The validator reports exactly the conflicts that some record, pair or repeated host stands for. */
  lemma {:induction false} ReportsAre(s: Snapshot, c: Conflict)
    ensures c in ConflictsOf(s) <==> Reported(s, c)
  {
    SiteReportsAre(s, c);
    RackReportsAre(s, c);
    DeviceReportsAre(s, c);
    InterfaceReportsAre(s, c);
    ConnectionReportsAre(s, c);
    PrefixReportsAre(s, c);
    OverlapReportsAre(s, c);
    AddressReportsAre(s, c);
    hide SiteSays, RackSays, DeviceSays, InterfaceSays, ConnectionSays, PrefixSays, PairSays, AddressSays, RepeatSays;
    hide Gather, PrefixReports, OverlapReports, AddressReports;
  }
}
