/** The whole-snapshot validator of the validation package, and the declarative predicate it decides. */
module SnapshotValidation {
  import opened Wrappers
  import opened JsText
  import opened Ipv4
  import opened InventoryModel

  /** A conflict code fixes the resource, field and related resource of the reported record. */
  datatype Code =
    | SiteMissingTenant
    | RackMissingSite
    | DeviceMissingSite
    | DeviceMissingRack
    | DeviceRackSiteMismatch
    | InterfaceMissingDevice
    | ConnectionMissingFromDevice
    | ConnectionMissingToDevice
    | ConnectionMissingFromInterface
    | ConnectionFromInterfaceMismatch
    | ConnectionMissingToInterface
    | ConnectionToInterfaceMismatch
    | PrefixMissingVrf
    | PrefixMissingParent
    | PrefixParentScopeMismatch
    | PrefixOutsideParent
    | PrefixUndeclaredContainment
    | PrefixOverlap
    | IpMissingVrf
    | IpMissingPrefix
    | IpPrefixScopeMismatch
    | IpOutsidePrefix
    | IpMissingInterface
    | IpInterfaceMissingDevice
    | IpOverlap

  datatype Conflict = Conflict(code: Code, recordId: string, relatedId: string)

  datatype Warning = Ipv6PrefixOverlapNotEnabled | Ipv6IpOverlapNotEnabled

  /** One conflict when the condition holds. */
  function Report(condition: bool, code: Code, recordId: string, relatedId: string): seq<Conflict> {
    if condition then [Conflict(code, recordId, relatedId)] else []
  }

  // ----- what one record contributes

  function SiteConflicts(s: Snapshot, site: Site): seq<Conflict> {
    if Truthy(site.tenantId) && !HasTenant(s.tenants, site.tenantId.value)
    then [Conflict(SiteMissingTenant, site.id, site.tenantId.value)] else []
  }

  function RackConflicts(s: Snapshot, rack: Rack): seq<Conflict> {
    Report(!HasSite(s.sites, rack.siteId), RackMissingSite, rack.id, rack.siteId)
  }

  function DeviceConflicts(s: Snapshot, device: Device): seq<Conflict> {
    Report(!HasSite(s.sites, device.siteId), DeviceMissingSite, device.id, device.siteId) +
    match device.rackPosition
    case None => []
    case Some(position) =>
      var racks := RackIndex(s.racks);
      if position.rackId !in racks then [Conflict(DeviceMissingRack, device.id, position.rackId)]
      else Report(racks[position.rackId].siteId != device.siteId, DeviceRackSiteMismatch, device.id, position.rackId)
  }

  function InterfaceConflicts(s: Snapshot, entry: Interface): seq<Conflict> {
    Report(!HasDevice(s.devices, entry.deviceId), InterfaceMissingDevice, entry.id, entry.deviceId)
  }

  function EndpointConflicts(s: Snapshot, id: string, deviceId: string, interfaceId: string,
                             missing: Code, mismatch: Code): seq<Conflict> {
    var interfaces := InterfaceIndex(s.interfaces);
    if interfaceId !in interfaces then [Conflict(missing, id, interfaceId)]
    else Report(interfaces[interfaceId].deviceId != deviceId, mismatch, id, interfaces[interfaceId].deviceId)
  }

  function ConnectionConflicts(s: Snapshot, c: Connection): seq<Conflict> {
    Report(!HasDevice(s.devices, c.fromDeviceId), ConnectionMissingFromDevice, c.id, c.fromDeviceId) +
    Report(!HasDevice(s.devices, c.toDeviceId), ConnectionMissingToDevice, c.id, c.toDeviceId) +
    EndpointConflicts(s, c.id, c.fromDeviceId, c.fromInterfaceId,
                      ConnectionMissingFromInterface, ConnectionFromInterfaceMismatch) +
    EndpointConflicts(s, c.id, c.toDeviceId, c.toInterfaceId,
                      ConnectionMissingToInterface, ConnectionToInterfaceMismatch)
  }

  function PrefixConflicts(s: Snapshot, p: Prefix): seq<Conflict> {
    match ParseRange(p.cidr)
    case None => []
    case Some(parsed) =>
      (if Truthy(p.vrfId) && !HasVrf(s.vrfs, p.vrfId.value)
       then [Conflict(PrefixMissingVrf, p.id, p.vrfId.value)] else []) +
      if !Truthy(p.parentPrefixId) then []
      else
        var index := PrefixIndex(s.prefixes);
        var parentId := p.parentPrefixId.value;
        if parentId !in index then [Conflict(PrefixMissingParent, p.id, parentId)]
        else if index[parentId].family != p.family || index[parentId].vrfId != p.vrfId
        then [Conflict(PrefixParentScopeMismatch, p.id, parentId)]
        else
          match ParseRange(index[parentId].cidr)
          case None => []
          case Some(outer) => Report(!Contains(outer, parsed), PrefixOutsideParent, p.id, parentId)
  }

  predicate DeclaredParent(parent: Prefix, child: Prefix) {
    child.parentPrefixId == Some(parent.id)
  }

  predicate ContainedByDeclaredRelationship(left: Prefix, right: Prefix, l: Ipv4Range, r: Ipv4Range) {
    || (DeclaredParent(left, right) && Contains(l, r))
    || (DeclaredParent(right, left) && Contains(r, l))
  }

  function OverlapConflicts(left: Prefix, right: Prefix): seq<Conflict> {
    match (ParseRange(left.cidr), ParseRange(right.cidr))
    case (Some(l), Some(r)) =>
      if left.vrfId != right.vrfId || left.family != right.family then []
      else if !Overlap(l, r) then []
      else if left.id == right.id then []
      else if ContainedByDeclaredRelationship(left, right, l, r) then []
      else
        var code := if Contains(l, r) || Contains(r, l) then PrefixUndeclaredContainment else PrefixOverlap;
        [Conflict(code, left.id, right.id)]
    case _ => []
  }

  function AddressConflicts(s: Snapshot, a: IpAddress): seq<Conflict> {
    match ParseRange(a.address)
    case None => []
    case Some(parsed) =>
      (if Truthy(a.vrfId) && !HasVrf(s.vrfs, a.vrfId.value)
       then [Conflict(IpMissingVrf, a.id, a.vrfId.value)] else []) +
      (if !Truthy(a.prefixId) then []
       else
         var index := PrefixIndex(s.prefixes);
         var prefixId := a.prefixId.value;
         if prefixId !in index then [Conflict(IpMissingPrefix, a.id, prefixId)]
         else if index[prefixId].vrfId != a.vrfId || index[prefixId].family != a.family
         then [Conflict(IpPrefixScopeMismatch, a.id, prefixId)]
         else
           match ParseRange(index[prefixId].cidr)
           case None => []
           case Some(block) =>
             Report(parsed.host < block.start || parsed.host > block.end, IpOutsidePrefix, a.id, prefixId)) +
      (if !Truthy(a.interfaceId) then []
       else
         var interfaces := InterfaceIndex(s.interfaces);
         var interfaceId := a.interfaceId.value;
         if interfaceId !in interfaces then [Conflict(IpMissingInterface, a.id, interfaceId)]
         else Report(!HasDevice(s.devices, interfaces[interfaceId].deviceId),
                     IpInterfaceMissingDevice, a.id, interfaces[interfaceId].deviceId))
  }

  /** The text under which a host is remembered: VRF (or "global") and host number. */
  function HostKey(vrfId: Option<string>, host: nat): string {
    OrElse(vrfId, "global") + ":" + Decimal(host)
  }

  function AddressKey(a: IpAddress): Option<string> {
    match ParseRange(a.address)
    case None => None
    case Some(parsed) => Some(HostKey(a.vrfId, parsed.host))
  }

  function AddressKeys(xs: seq<IpAddress>): (keys: seq<Option<string>>)
    ensures |keys| == |xs|
  {
    seq(|xs|, i requires 0 <= i < |xs| => AddressKey(xs[i]))
  }

  /** The first of the first `n` positions that holds the key, or `n`. */
  function FirstHolder(keys: seq<Option<string>>, key: Option<string>, n: nat): (k: nat)
    requires n <= |keys|
    ensures k <= n
  {
    if n == 0 then 0
    else
      var k := FirstHolder(keys, key, n - 1);
      if k < n - 1 || keys[n - 1] == key then k else n
  }

  lemma {:induction false} FirstHolderFacts(keys: seq<Option<string>>, key: Option<string>, n: nat)
    requires n <= |keys|
    ensures var k := FirstHolder(keys, key, n);
            && (k < n ==> keys[k] == key)
            && (forall i :: 0 <= i < k ==> keys[i] != key)
  {
    if n > 0 {
      FirstHolderFacts(keys, key, n - 1);
    }
  }

  /** The first holder does not change as the scan goes on. */
  lemma {:induction false} FirstHolderStays(keys: seq<Option<string>>, i: nat, j: nat)
    requires i < j <= |keys|
    ensures FirstHolder(keys, keys[i], j) == FirstHolder(keys, keys[i], i)
  {
    if i + 1 < j {
      FirstHolderStays(keys, i, j - 1);
    }
  }

  /** An address repeats a host when the first address with its key is another record. */
  function DuplicateConflicts(xs: seq<IpAddress>, i: nat): seq<Conflict>
    requires i < |xs|
  {
    var keys := AddressKeys(xs);
    var k := FirstHolder(keys, keys[i], i);
    if keys[i].Some? && k < i && xs[k].id != xs[i].id then [Conflict(IpOverlap, xs[i].id, xs[k].id)] else []
  }

  function V4Prefixes(ps: seq<Prefix>): (r: seq<Prefix>)
    ensures forall p :: p in r <==> p in ps && p.family == V4
  {
    if ps == [] then []
    else
      V4Prefixes(ps[..|ps| - 1]) + (if ps[|ps| - 1].family == V4 then [ps[|ps| - 1]] else [])
  }

  function V4Addresses(xs: seq<IpAddress>): (r: seq<IpAddress>)
    ensures forall a :: a in r <==> a in xs && a.family == V4
  {
    if xs == [] then []
    else
      V4Addresses(xs[..|xs| - 1]) + (if xs[|xs| - 1].family == V4 then [xs[|xs| - 1]] else [])
  }

  // ----- all reports, in the order they are pushed

  function Gather(n: nat, at: nat -> seq<Conflict>): seq<Conflict> {
    if n == 0 then [] else Gather(n - 1, at) + at(n - 1)
  }

  function SiteAt(s: Snapshot): nat -> seq<Conflict> {
    (i: nat) => if i < |s.sites| then SiteConflicts(s, s.sites[i]) else []
  }

  function RackAt(s: Snapshot): nat -> seq<Conflict> {
    (i: nat) => if i < |s.racks| then RackConflicts(s, s.racks[i]) else []
  }

  function DeviceAt(s: Snapshot): nat -> seq<Conflict> {
    (i: nat) => if i < |s.devices| then DeviceConflicts(s, s.devices[i]) else []
  }

  function InterfaceAt(s: Snapshot): nat -> seq<Conflict> {
    (i: nat) => if i < |s.interfaces| then InterfaceConflicts(s, s.interfaces[i]) else []
  }

  function ConnectionAt(s: Snapshot): nat -> seq<Conflict> {
    (i: nat) => if i < |s.connections| then ConnectionConflicts(s, s.connections[i]) else []
  }

  function PrefixAt(s: Snapshot, ps: seq<Prefix>): nat -> seq<Conflict> {
    (i: nat) => if i < |ps| then PrefixConflicts(s, ps[i]) else []
  }

  function PairAt(ps: seq<Prefix>, i: nat): nat -> seq<Conflict> {
    (j: nat) => if i < j < |ps| then OverlapConflicts(ps[i], ps[j]) else []
  }

  function OverlapAt(ps: seq<Prefix>): nat -> seq<Conflict> {
    (i: nat) => Gather(|ps|, PairAt(ps, i))
  }

  function AddressAt(s: Snapshot, xs: seq<IpAddress>): nat -> seq<Conflict> {
    (i: nat) => if i < |xs| then AddressConflicts(s, xs[i]) + DuplicateConflicts(xs, i) else []
  }

  function PrefixReports(s: Snapshot, ps: seq<Prefix>): seq<Conflict> {
    Gather(|ps|, PrefixAt(s, ps))
  }

  function OverlapReports(ps: seq<Prefix>): seq<Conflict> {
    Gather(|ps|, OverlapAt(ps))
  }

  function AddressReports(s: Snapshot, xs: seq<IpAddress>): seq<Conflict> {
    Gather(|xs|, AddressAt(s, xs))
  }

  function ConflictsOf(s: Snapshot): seq<Conflict> {
    var ps, xs := V4Prefixes(s.prefixes), V4Addresses(s.ipAddresses);
    Gather(|s.sites|, SiteAt(s)) +
    Gather(|s.racks|, RackAt(s)) +
    Gather(|s.devices|, DeviceAt(s)) +
    Gather(|s.interfaces|, InterfaceAt(s)) +
    Gather(|s.connections|, ConnectionAt(s)) +
    PrefixReports(s, ps) + OverlapReports(ps) + AddressReports(s, xs)
  }

  lemma GatherStarts(at: nat -> seq<Conflict>)
    ensures Gather(0, at) == []
  {
  }

  lemma GatherStep(n: nat, at: nat -> seq<Conflict>)
    ensures Gather(n + 1, at) == Gather(n, at) + at(n)
  {
  }

  lemma {:induction false} GatherEmpty(n: nat, at: nat -> seq<Conflict>)
    ensures Gather(n, at) == [] <==> forall i: nat :: i < n ==> at(i) == []
  {
    if n > 0 {
      GatherEmpty(n - 1, at);
    }
  }

  // ----- the declarative predicate

  ghost predicate SiteAgrees(s: Snapshot, x: Site) {
    Truthy(x.tenantId) ==> HasTenant(s.tenants, x.tenantId.value)
  }

  ghost predicate RackAgrees(s: Snapshot, x: Rack) {
    HasSite(s.sites, x.siteId)
  }

  ghost predicate DeviceAgrees(s: Snapshot, x: Device) {
    && HasSite(s.sites, x.siteId)
    && (x.rackPosition.Some? ==>
          && x.rackPosition.value.rackId in RackIndex(s.racks)
          && RackIndex(s.racks)[x.rackPosition.value.rackId].siteId == x.siteId)
  }

  ghost predicate InterfaceAgrees(s: Snapshot, x: Interface) {
    HasDevice(s.devices, x.deviceId)
  }

  ghost predicate OwnedBy(s: Snapshot, interfaceId: string, deviceId: string) {
    && HasDevice(s.devices, deviceId)
    && interfaceId in InterfaceIndex(s.interfaces)
    && InterfaceIndex(s.interfaces)[interfaceId].deviceId == deviceId
  }

  ghost predicate ConnectionAgrees(s: Snapshot, x: Connection) {
    OwnedBy(s, x.fromInterfaceId, x.fromDeviceId) && OwnedBy(s, x.toInterfaceId, x.toDeviceId)
  }

  /** An IPv4 prefix whose CIDR denotes a range. */
  predicate Ranged(p: Prefix) {
    p.family == V4 && ParseRange(p.cidr).Some?
  }

  function RangeIn(p: Prefix): Ipv4Range
    requires Ranged(p)
  {
    ParseRange(p.cidr).value
  }

  /** An IPv4 address whose text denotes a host. */
  predicate Hosted(a: IpAddress) {
    a.family == V4 && ParseRange(a.address).Some?
  }

  function HostIn(a: IpAddress): nat
    requires Hosted(a)
  {
    ParseRange(a.address).value.host
  }

  ghost predicate InsideParent(prefixes: seq<Prefix>, p: Prefix)
    requires Ranged(p)
  {
    Truthy(p.parentPrefixId) ==>
      && p.parentPrefixId.value in PrefixIndex(prefixes)
      && var parent := PrefixIndex(prefixes)[p.parentPrefixId.value];
      && parent.family == V4 && parent.vrfId == p.vrfId
      && (Ranged(parent) ==> Contains(RangeIn(parent), RangeIn(p)))
  }

  ghost predicate PrefixAgrees(s: Snapshot, p: Prefix) {
    Ranged(p) ==> (Truthy(p.vrfId) ==> HasVrf(s.vrfs, p.vrfId.value)) && InsideParent(s.prefixes, p)
  }

  /** Two overlapping prefixes of one VRF are a declared parent and its contained child. */
  ghost predicate OverlapDeclared(p: Prefix, q: Prefix) {
    (Ranged(p) && Ranged(q) && p.id != q.id && p.vrfId == q.vrfId && Overlap(RangeIn(p), RangeIn(q))) ==>
      ContainedByDeclaredRelationship(p, q, RangeIn(p), RangeIn(q))
  }

  ghost predicate OverlapsDeclared(prefixes: seq<Prefix>) {
    forall p, q :: p in prefixes && q in prefixes ==> OverlapDeclared(p, q)
  }

  ghost predicate AddressAgrees(s: Snapshot, a: IpAddress) {
    Hosted(a) ==>
      && (Truthy(a.vrfId) ==> HasVrf(s.vrfs, a.vrfId.value))
      && InsidePrefix(s.prefixes, a)
      && (Truthy(a.interfaceId) ==>
            && a.interfaceId.value in InterfaceIndex(s.interfaces)
            && HasDevice(s.devices, InterfaceIndex(s.interfaces)[a.interfaceId.value].deviceId))
  }

  ghost predicate InsidePrefix(prefixes: seq<Prefix>, a: IpAddress)
    requires Hosted(a)
  {
    Truthy(a.prefixId) ==>
      && a.prefixId.value in PrefixIndex(prefixes)
      && var prefix := PrefixIndex(prefixes)[a.prefixId.value];
      && prefix.vrfId == a.vrfId && prefix.family == V4
      && (Ranged(prefix) ==> RangeIn(prefix).start <= HostIn(a) <= RangeIn(prefix).end)
  }

  /** The same host of the same VRF; no VRF counts as the VRF "global". */
  ghost predicate SameHost(a: IpAddress, b: IpAddress) {
    && Hosted(a) && Hosted(b)
    && OrElse(a.vrfId, "global") == OrElse(b.vrfId, "global") && HostIn(a) == HostIn(b)
  }

  ghost predicate HostsDistinct(xs: seq<IpAddress>) {
    forall a, b :: a in xs && b in xs && SameHost(a, b) ==> a.id == b.id
  }

  ghost predicate ConflictFree(s: Snapshot) {
    && (forall x :: x in s.sites ==> SiteAgrees(s, x))
    && (forall x :: x in s.racks ==> RackAgrees(s, x))
    && (forall x :: x in s.devices ==> DeviceAgrees(s, x))
    && (forall x :: x in s.interfaces ==> InterfaceAgrees(s, x))
    && (forall x :: x in s.connections ==> ConnectionAgrees(s, x))
    && (forall x :: x in s.prefixes ==> PrefixAgrees(s, x))
    && OverlapsDeclared(s.prefixes)
    && (forall x :: x in s.ipAddresses ==> AddressAgrees(s, x))
    && HostsDistinct(s.ipAddresses)
  }

  // ----- the reports are empty exactly when the predicate holds

  lemma SiteReportsDecide(s: Snapshot)
    ensures Gather(|s.sites|, SiteAt(s)) == [] <==> forall x :: x in s.sites ==> SiteAgrees(s, x)
  {
    GatherEmpty(|s.sites|, SiteAt(s));
    assert forall i: nat :: i < |s.sites| ==> (SiteAt(s)(i) == [] <==> SiteAgrees(s, s.sites[i]));
  }

  lemma RackReportsDecide(s: Snapshot)
    ensures Gather(|s.racks|, RackAt(s)) == [] <==> forall x :: x in s.racks ==> RackAgrees(s, x)
  {
    GatherEmpty(|s.racks|, RackAt(s));
    assert forall i: nat :: i < |s.racks| ==> (RackAt(s)(i) == [] <==> RackAgrees(s, s.racks[i]));
  }

  lemma DeviceReportsDecide(s: Snapshot)
    ensures Gather(|s.devices|, DeviceAt(s)) == [] <==> forall x :: x in s.devices ==> DeviceAgrees(s, x)
  {
    GatherEmpty(|s.devices|, DeviceAt(s));
    assert forall i: nat :: i < |s.devices| ==> (DeviceAt(s)(i) == [] <==> DeviceAgrees(s, s.devices[i]));
  }

  lemma InterfaceReportsDecide(s: Snapshot)
    ensures Gather(|s.interfaces|, InterfaceAt(s)) == [] <==> forall x :: x in s.interfaces ==> InterfaceAgrees(s, x)
  {
    GatherEmpty(|s.interfaces|, InterfaceAt(s));
    assert forall i: nat :: i < |s.interfaces| ==> (InterfaceAt(s)(i) == [] <==> InterfaceAgrees(s, s.interfaces[i]));
  }

  lemma ConnectionDecides(s: Snapshot, c: Connection)
    ensures ConnectionConflicts(s, c) == [] <==> ConnectionAgrees(s, c)
  {
  }

  lemma ConnectionReportsDecide(s: Snapshot)
    ensures Gather(|s.connections|, ConnectionAt(s)) == []
            <==> forall x :: x in s.connections ==> ConnectionAgrees(s, x)
  {
    GatherEmpty(|s.connections|, ConnectionAt(s));
    forall i: nat | i < |s.connections|
      ensures ConnectionAt(s)(i) == [] <==> ConnectionAgrees(s, s.connections[i])
    {
      ConnectionDecides(s, s.connections[i]);
    }
  }

  lemma PrefixDecides(s: Snapshot, p: Prefix)
    requires p.family == V4
    ensures PrefixConflicts(s, p) == [] <==> PrefixAgrees(s, p)
  {
  }

  lemma PrefixReportsDecide(s: Snapshot)
    ensures var ps := V4Prefixes(s.prefixes);
            Gather(|ps|, PrefixAt(s, ps)) == [] <==> forall x :: x in s.prefixes ==> PrefixAgrees(s, x)
  {
    var ps := V4Prefixes(s.prefixes);
    GatherEmpty(|ps|, PrefixAt(s, ps));
    forall i: nat | i < |ps|
      ensures PrefixAt(s, ps)(i) == [] <==> PrefixAgrees(s, ps[i])
    {
      PrefixDecides(s, ps[i]);
    }
    assert forall x :: x in s.prefixes && x !in ps ==> PrefixAgrees(s, x);
  }

  lemma OverlapDecides(p: Prefix, q: Prefix)
    requires p.family == V4 && q.family == V4
    ensures OverlapConflicts(p, q) == [] <==> OverlapDeclared(p, q)
  {
  }

  lemma OverlapSymmetric(p: Prefix, q: Prefix)
    ensures OverlapDeclared(p, q) <==> OverlapDeclared(q, p)
  {
  }

  lemma PairReportsDecide(ps: seq<Prefix>, i: nat)
    requires i < |ps| && forall p :: p in ps ==> p.family == V4
    ensures OverlapAt(ps)(i) == [] <==> forall j :: i < j < |ps| ==> OverlapDeclared(ps[i], ps[j])
  {
    GatherEmpty(|ps|, PairAt(ps, i));
    forall j: nat | i < j < |ps|
      ensures PairAt(ps, i)(j) == [] <==> OverlapDeclared(ps[i], ps[j])
    {
      OverlapDecides(ps[i], ps[j]);
    }
  }

  /** The scan of pairs in list order misses no pair: the rule is symmetric. */
  lemma PairsInOrderSuffice(ps: seq<Prefix>)
    requires forall i, j :: 0 <= i < j < |ps| ==> OverlapDeclared(ps[i], ps[j])
    ensures OverlapsDeclared(ps)
  {
    forall p, q | p in ps && q in ps
      ensures OverlapDeclared(p, q)
    {
      var i :| 0 <= i < |ps| && ps[i] == p;
      var j :| 0 <= j < |ps| && ps[j] == q;
      OverlapSymmetric(p, q);
    }
  }

  lemma {:induction false} PairScanDecides(ps: seq<Prefix>)
    requires forall p :: p in ps ==> p.family == V4
    ensures Gather(|ps|, OverlapAt(ps)) == []
            <==> forall i, j :: 0 <= i < j < |ps| ==> OverlapDeclared(ps[i], ps[j])
  {
    GatherEmpty(|ps|, OverlapAt(ps));
    forall i: nat | i < |ps|
      ensures OverlapAt(ps)(i) == [] <==> forall j :: i < j < |ps| ==> OverlapDeclared(ps[i], ps[j])
    {
      PairReportsDecide(ps, i);
    }
  }

  lemma {:induction false} OverlapReportsDecide(prefixes: seq<Prefix>)
    ensures var ps := V4Prefixes(prefixes); Gather(|ps|, OverlapAt(ps)) == [] <==> OverlapsDeclared(prefixes)
  {
    var ps := V4Prefixes(prefixes);
    PairScanDecides(ps);
    OnlyV4Matters(prefixes);
    if forall i, j :: 0 <= i < j < |ps| ==> OverlapDeclared(ps[i], ps[j]) {
      PairsInOrderSuffice(ps);
    }
  }

  lemma {:induction false} OnlyV4Matters(prefixes: seq<Prefix>)
    ensures OverlapsDeclared(V4Prefixes(prefixes)) <==> OverlapsDeclared(prefixes)
  {
    var ps := V4Prefixes(prefixes);
    forall p, q | p in prefixes && q in prefixes && !(p in ps && q in ps)
      ensures OverlapDeclared(p, q)
    {
    }
  }

  /** Remembering hosts under one text key keeps VRFs and hosts apart. */
  lemma HostKeyInjective(v: Option<string>, h: nat, w: Option<string>, k: nat)
    ensures HostKey(v, h) == HostKey(w, k) <==> OrElse(v, "global") == OrElse(w, "global") && h == k
  {
    if HostKey(v, h) == HostKey(w, k) {
      LastColon(OrElse(v, "global"), Decimal(h), OrElse(w, "global"), Decimal(k));
      DecimalInjective(h, k);
    }
  }

  /** Digits hold no colon, so the last colon splits the key. */
  lemma LastColon(a: string, x: string, b: string, y: string)
    requires IsDigits(x) && IsDigits(y) && a + ":" + x == b + ":" + y
    ensures a == b && x == y
  {
    ColonNotLater(a, x, b, y);
    ColonNotLater(b, y, a, x);
    var s := a + ":" + x;
    assert s[..|a|] == a && s[|a| + 1..] == x;
    assert (b + ":" + y)[..|b|] == b && (b + ":" + y)[|b| + 1..] == y;
  }

  lemma ColonNotLater(a: string, x: string, b: string, y: string)
    requires IsDigits(x) && a + ":" + x == b + ":" + y
    ensures |b| <= |a|
  {
    assert (b + ":" + y)[|b|] == ':';
  }

  /** Looking only at the first holder of each key finds a repeat exactly when two records repeat. */
  lemma {:induction false} DuplicateReportsDecide(addresses: seq<IpAddress>)
    ensures var xs := V4Addresses(addresses);
            (forall i :: 0 <= i < |xs| ==> DuplicateConflicts(xs, i) == []) <==> HostsDistinct(addresses)
  {
    var xs := V4Addresses(addresses);
    if forall i :: 0 <= i < |xs| ==> DuplicateConflicts(xs, i) == [] {
      forall a, b | a in addresses && b in addresses && SameHost(a, b)
        ensures a.id == b.id
      {
        var i :| 0 <= i < |xs| && xs[i] == a;
        var j :| 0 <= j < |xs| && xs[j] == b;
        SameHostSameKey(a, b);
        SameKeySameId(xs, i, j);
      }
    }
    if HostsDistinct(addresses) {
      forall i | 0 <= i < |xs|
        ensures DuplicateConflicts(xs, i) == []
      {
        NoReport(addresses, xs, i);
      }
    }
  }

  lemma SameHostSameKey(a: IpAddress, b: IpAddress)
    requires a.family == V4 && b.family == V4
    ensures SameHost(a, b) <==> AddressKey(a).Some? && AddressKey(a) == AddressKey(b)
  {
    if Hosted(a) && Hosted(b) {
      HostKeyInjective(a.vrfId, HostIn(a), b.vrfId, HostIn(b));
    }
  }

  lemma {:induction false} NoReport(addresses: seq<IpAddress>, xs: seq<IpAddress>, i: nat)
    requires xs == V4Addresses(addresses) && i < |xs| && HostsDistinct(addresses)
    ensures DuplicateConflicts(xs, i) == []
  {
    var keys := AddressKeys(xs);
    var k := FirstHolder(keys, keys[i], i);
    FirstHolderFacts(keys, keys[i], i);
    assert xs[i] in xs;
    if k < i {
      assert xs[k] in xs;
      SameHostSameKey(xs[k], xs[i]);
    }
  }

  lemma SameKeySameId(xs: seq<IpAddress>, i: nat, j: nat)
    requires forall i :: 0 <= i < |xs| ==> DuplicateConflicts(xs, i) == []
    requires i < |xs| && j < |xs| && AddressKey(xs[i]).Some? && AddressKey(xs[i]) == AddressKey(xs[j])
    ensures xs[i].id == xs[j].id
  {
    if j < i {
      SameKeySameId(xs, j, i);
    } else if i < j {
      var keys := AddressKeys(xs);
      assert DuplicateConflicts(xs, i) == [] && DuplicateConflicts(xs, j) == [];
      FirstHolderStays(keys, i, j);
      FirstHolderFacts(keys, keys[i], i);
    }
  }

  lemma AddressDecides(s: Snapshot, a: IpAddress)
    requires a.family == V4
    ensures AddressConflicts(s, a) == [] <==> AddressAgrees(s, a)
  {
  }

  lemma {:induction false} AddressScanDecides(s: Snapshot, xs: seq<IpAddress>)
    requires forall a :: a in xs ==> a.family == V4
    ensures Gather(|xs|, AddressAt(s, xs)) == []
            <==> (forall x :: x in xs ==> AddressAgrees(s, x))
                 && (forall i :: 0 <= i < |xs| ==> DuplicateConflicts(xs, i) == [])
  {
    hide AddressConflicts;
    hide AddressAgrees;
    hide DuplicateConflicts;
    GatherEmpty(|xs|, AddressAt(s, xs));
    forall i: nat | i < |xs|
      ensures AddressAt(s, xs)(i) == [] <==> AddressAgrees(s, xs[i]) && DuplicateConflicts(xs, i) == []
    {
      AddressDecides(s, xs[i]);
    }
  }

  lemma OnlyV4AddressesMatter(s: Snapshot)
    ensures (forall x :: x in V4Addresses(s.ipAddresses) ==> AddressAgrees(s, x))
            <==> forall x :: x in s.ipAddresses ==> AddressAgrees(s, x)
  {
    hide InsidePrefix;
    hide ParseRange;
  }

  lemma AddressReportsDecide(s: Snapshot)
    ensures var xs := V4Addresses(s.ipAddresses);
            Gather(|xs|, AddressAt(s, xs)) == []
            <==> (forall x :: x in s.ipAddresses ==> AddressAgrees(s, x)) && HostsDistinct(s.ipAddresses)
  {
    hide AddressAgrees;
    hide DuplicateConflicts;
    hide HostsDistinct;
    AddressScanDecides(s, V4Addresses(s.ipAddresses));
    OnlyV4AddressesMatter(s);
    DuplicateReportsDecide(s.ipAddresses);
  }

  /** The validator reports nothing exactly for the snapshots that satisfy the predicate. */
  lemma ConflictsDecide(s: Snapshot)
    ensures ConflictsOf(s) == [] <==> ConflictFree(s)
  {
    SiteReportsDecide(s);
    RackReportsDecide(s);
    DeviceReportsDecide(s);
    InterfaceReportsDecide(s);
    ConnectionReportsDecide(s);
    PrefixReportsDecide(s);
    OverlapReportsDecide(s.prefixes);
    AddressReportsDecide(s);
  }

  /** The code for partial overlap is never used: CIDR ranges overlap only by containment. */
  lemma OverlapsAreContainments(p: Prefix, q: Prefix)
    ensures forall c :: c in OverlapConflicts(p, q) ==> c.code == PrefixUndeclaredContainment
  {
    if ParseRange(p.cidr).Some? && ParseRange(q.cidr).Some? {
      OverlapIsContainment(p.cidr, q.cidr);
    }
  }

  // ----- the validator, loop by loop

  method CheckSites(s: Snapshot) returns (conflicts: seq<Conflict>)
    ensures conflicts == Gather(|s.sites|, SiteAt(s))
  {
    conflicts := [];
    for i := 0 to |s.sites|
      invariant conflicts == Gather(i, SiteAt(s))
    {
      var site := s.sites[i];
      if Truthy(site.tenantId) && !HasTenant(s.tenants, site.tenantId.value) {
        conflicts := conflicts + [Conflict(SiteMissingTenant, site.id, site.tenantId.value)];
      }
    }
  }

  method CheckRacks(s: Snapshot) returns (conflicts: seq<Conflict>)
    ensures conflicts == Gather(|s.racks|, RackAt(s))
  {
    conflicts := [];
    for i := 0 to |s.racks|
      invariant conflicts == Gather(i, RackAt(s))
    {
      var rack := s.racks[i];
      if !HasSite(s.sites, rack.siteId) {
        conflicts := conflicts + [Conflict(RackMissingSite, rack.id, rack.siteId)];
      }
    }
  }

  method CheckDevice(s: Snapshot, rackIndex: map<string, Rack>, device: Device) returns (pushed: seq<Conflict>)
    requires rackIndex == RackIndex(s.racks)
    ensures pushed == DeviceConflicts(s, device)
  {
    pushed := [];
    if !HasSite(s.sites, device.siteId) {
      pushed := pushed + [Conflict(DeviceMissingSite, device.id, device.siteId)];
    }
    if device.rackPosition.Some? {
      var rackId := device.rackPosition.value.rackId;
      if rackId !in rackIndex {
        pushed := pushed + [Conflict(DeviceMissingRack, device.id, rackId)];
      } else if rackIndex[rackId].siteId != device.siteId {
        pushed := pushed + [Conflict(DeviceRackSiteMismatch, device.id, rackId)];
      }
    }
  }

  method CheckDevices(s: Snapshot) returns (conflicts: seq<Conflict>)
    ensures conflicts == Gather(|s.devices|, DeviceAt(s))
  {
    conflicts := [];
    var rackIndex := RackIndex(s.racks);
    for i := 0 to |s.devices|
      invariant conflicts == Gather(i, DeviceAt(s))
    {
      var pushed := CheckDevice(s, rackIndex, s.devices[i]);
      conflicts := conflicts + pushed;
    }
  }

  method CheckInterfaces(s: Snapshot) returns (conflicts: seq<Conflict>)
    ensures conflicts == Gather(|s.interfaces|, InterfaceAt(s))
  {
    conflicts := [];
    for i := 0 to |s.interfaces|
      invariant conflicts == Gather(i, InterfaceAt(s))
    {
      var entry := s.interfaces[i];
      if !HasDevice(s.devices, entry.deviceId) {
        conflicts := conflicts + [Conflict(InterfaceMissingDevice, entry.id, entry.deviceId)];
      }
    }
  }

  method CheckConnections(s: Snapshot) returns (conflicts: seq<Conflict>)
    ensures conflicts == Gather(|s.connections|, ConnectionAt(s))
  {
    conflicts := [];
    for i := 0 to |s.connections|
      invariant conflicts == Gather(i, ConnectionAt(s))
    {
      conflicts := conflicts + ConnectionConflicts(s, s.connections[i]);
    }
  }

  method CheckPrefixes(s: Snapshot, ps: seq<Prefix>) returns (conflicts: seq<Conflict>)
    ensures conflicts == PrefixReports(s, ps)
  {
    GatherStarts(PrefixAt(s, ps));
    hide PrefixConflicts, Gather;
    conflicts := [];
    for i := 0 to |ps|
      invariant conflicts == Gather(i, PrefixAt(s, ps))
    {
      GatherStep(i, PrefixAt(s, ps));
      conflicts := conflicts + PrefixConflicts(s, ps[i]);
    }
  }

  method ComparePrefix(ps: seq<Prefix>, i: nat) returns (conflicts: seq<Conflict>)
    requires i < |ps|
    ensures conflicts == OverlapAt(ps)(i)
  {
    hide OverlapConflicts;
    conflicts := [];
    GatherEmpty(i + 1, PairAt(ps, i));
    for j := i + 1 to |ps|
      invariant conflicts == Gather(j, PairAt(ps, i))
    {
      conflicts := conflicts + OverlapConflicts(ps[i], ps[j]);
    }
  }

  method CheckOverlaps(ps: seq<Prefix>) returns (conflicts: seq<Conflict>)
    ensures conflicts == OverlapReports(ps)
  {
    conflicts := [];
    for i := 0 to |ps|
      invariant conflicts == Gather(i, OverlapAt(ps))
    {
      var pushed := ComparePrefix(ps, i);
      conflicts := conflicts + pushed;
    }
  }

  /** The map of hosts seen at the first `n` positions: each key names its first holder's id. */
  ghost predicate Remembers(seen: map<string, string>, keys: seq<Option<string>>, ids: seq<string>, n: nat)
    requires n <= |keys| == |ids|
  {
    forall key ::
      && (key in seen <==> FirstHolder(keys, Some(key), n) < n)
      && (key in seen ==> seen[key] == ids[FirstHolder(keys, Some(key), n)])
  }

  lemma NothingSeen(keys: seq<Option<string>>, ids: seq<string>)
    requires |keys| == |ids|
    ensures Remembers(map[], keys, ids, 0)
  {
  }

  function AddressIds(xs: seq<IpAddress>): seq<string> {
    seq(|xs|, i requires 0 <= i < |xs| => xs[i].id)
  }

  method CheckAddress(s: Snapshot, xs: seq<IpAddress>, keys: seq<Option<string>>, ids: seq<string>, i: nat,
                      seen: map<string, string>) returns (pushed: seq<Conflict>, seenHosts: map<string, string>)
    requires i < |xs| && keys == AddressKeys(xs) && ids == AddressIds(xs)
    requires Remembers(seen, keys, ids, i)
    ensures pushed == AddressConflicts(s, xs[i]) + DuplicateConflicts(xs, i)
    ensures Remembers(seenHosts, keys, ids, i + 1)
  {
    hide AddressConflicts;
    hide AddressKeys;
    hide Remembers;
    pushed := AddressConflicts(s, xs[i]);
    var existing;
    existing, seenHosts := RememberHost(keys, ids, i, seen);
    if existing.Some? {
      pushed := pushed + [Conflict(IpOverlap, xs[i].id, existing.value)];
    }
  }

  method CheckAddresses(s: Snapshot, xs: seq<IpAddress>) returns (conflicts: seq<Conflict>)
    ensures conflicts == AddressReports(s, xs)
  {
    hide AddressConflicts;
    hide DuplicateConflicts;
    hide AddressKeys;
    hide Remembers;
    hide Gather;
    GatherStarts(AddressAt(s, xs));
    conflicts := [];
    NothingSeen(AddressKeys(xs), AddressIds(xs));
    var keys, ids := AddressKeys(xs), AddressIds(xs);
    var seenHosts: map<string, string> := map[];
    for i := 0 to |xs|
      invariant conflicts == Gather(i, AddressAt(s, xs))
      invariant Remembers(seenHosts, keys, ids, i)
    {
      var pushed;
      pushed, seenHosts := CheckAddress(s, xs, keys, ids, i, seenHosts);
      GatherStep(i, AddressAt(s, xs));
      conflicts := conflicts + pushed;
    }
  }

  /** Look the key up and remember it unless another record holds it already. */
  method RememberHost(keys: seq<Option<string>>, ids: seq<string>, i: nat, seen: map<string, string>)
    returns (existing: Option<string>, seenHosts: map<string, string>)
    requires i < |keys| == |ids| && Remembers(seen, keys, ids, i)
    ensures var k := FirstHolder(keys, keys[i], i);
            existing == if keys[i].Some? && k < i && ids[k] != ids[i] then Some(ids[k]) else None
    ensures Remembers(seenHosts, keys, ids, i + 1)
  {
    existing, seenHosts := None, seen;
    if keys[i].Some? {
      var key := keys[i].value;
      if key in seen && seen[key] != ids[i] {
        existing := Some(seen[key]);
      } else {
        seenHosts := seen[key := ids[i]];
      }
    }
  }

  /** The validator accepts exactly the snapshots without conflicts, and reports every conflict. */
  method ValidateSnapshot(s: Snapshot) returns (valid: bool, conflicts: seq<Conflict>, warnings: seq<Warning>)
    ensures valid <==> ConflictFree(s)
    ensures valid <==> conflicts == []
    ensures conflicts == ConflictsOf(s)
    ensures Ipv6PrefixOverlapNotEnabled in warnings <==> exists p :: p in s.prefixes && p.family == V6
    ensures Ipv6IpOverlapNotEnabled in warnings <==> exists a :: a in s.ipAddresses && a.family == V6
  {
    warnings := [];
    conflicts := CheckSites(s);
    var part := CheckRacks(s);
    conflicts := conflicts + part;
    part := CheckDevices(s);
    conflicts := conflicts + part;
    part := CheckInterfaces(s);
    conflicts := conflicts + part;
    part := CheckConnections(s);
    conflicts := conflicts + part;
    var parsedPrefixes := V4Prefixes(s.prefixes);
    if exists p :: p in s.prefixes && p.family == V6 {
      warnings := warnings + [Ipv6PrefixOverlapNotEnabled];
    }
    part := CheckPrefixes(s, parsedPrefixes);
    conflicts := conflicts + part;
    part := CheckOverlaps(parsedPrefixes);
    conflicts := conflicts + part;
    part := CheckAddresses(s, V4Addresses(s.ipAddresses));
    conflicts := conflicts + part;
    if exists a :: a in s.ipAddresses && a.family == V6 {
      warnings := warnings + [Ipv6IpOverlapNotEnabled];
    }
    valid := |conflicts| == 0;
    ConflictsDecide(s);
  }
}
