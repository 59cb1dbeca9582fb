/** The backup store: create, read, preview, restore with rollback, delete. */
module BackupStore {
  import opened Wrappers
  import opened Sorting
  import opened InventoryModel
  import opened Backup
  import Inventory = InventoryState
  import Ipv4
  import Snapshots = SnapshotValidation
  import Keyed
  import JsText

  /** How a file operation that throws leaves the files it was working on: the files of a section
      that a failed recursive delete did not reach, and what a failed write left at its target. */
  datatype Damage = Damage(left: set<string>, torn: Option<string>)

  /** Which file operations of a restore throw, by position: first one delete per section, then
      one write per entry. */
  type Faults = nat -> Option<Damage>

  // ----- what a restore is meant to do

  /** The named sections hold exactly the archived files; every other path is as before. */
  function RestoredFiles(before: Files, sections: seq<Section>, entries: seq<Entry>): Files {
    Without(before, sections) + EntryMap(entries)
  }

  predicate AllPathsSafe(entries: seq<Entry>) {
    forall e :: e in entries ==> SafePath(e.path)
  }

  ghost predicate NoFault(faults: Faults, n: nat) {
    forall k: nat :: k < n ==> faults(k).None?
  }

  /** Entries of an archive lie in the sections it names. */
  ghost predicate Contained(archive: Archive) {
    DistinctPaths(archive.entries) && forall e :: e in archive.entries ==> InSections(e.path, archive.record.sections)
  }

  /** Two file trees agree at a path. */
  ghost predicate AgreeAt(a: Files, b: Files, p: string) {
    (p in a <==> p in b) && (p in a ==> a[p] == b[p])
  }

  ghost predicate AgreeOutside(a: Files, b: Files, sections: seq<Section>) {
    forall p :: !InSections(p, sections) ==> AgreeAt(a, b, p)
  }

  // ----- single file operations

  /** A recursive delete of a section's directory, which may throw half-way. */
  method RemoveSection(files: Files, section: Section, fault: Option<Damage>) returns (ok: bool, after: Files)
    ensures ok <==> fault.None?
    ensures ok ==> after == map p | p in files && !InSection(p, section) :: files[p]
    ensures forall p :: !InSection(p, section) ==> AgreeAt(files, after, p)
  {
    match fault {
      case None =>
        return true, map p | p in files && !InSection(p, section) :: files[p];
      case Some(damage) =>
        return false, map p | p in files && (!InSection(p, section) || p in damage.left) :: files[p];
    }
  }

  /** A write of one entry: the path check first, then the write, which may throw half-way. */
  method WriteEntry(files: Files, entry: Entry, fault: Option<Damage>) returns (ok: bool, after: Files)
    ensures ok <==> fault.None? && SafePath(entry.path)
    ensures ok ==> after == files[entry.path := entry.content]
    ensures forall p :: p != entry.path ==> AgreeAt(files, after, p)
  {
    if !SafePath(entry.path) {
      return false, files;
    }
    match fault {
      case None =>
        return true, files[entry.path := entry.content];
      case Some(damage) =>
        return false, if damage.torn.Some? then files[entry.path := damage.torn.value] else files - {entry.path};
    }
  }

  // ----- the guarded part of a restore

  /** Delete the sections, then write the entries; stop at the first operation that throws. */
  method ReplaceSections(files: Files, sections: seq<Section>, entries: seq<Entry>, faults: Faults)
    returns (ok: bool, after: Files)
    requires forall e :: e in entries ==> InSections(e.path, sections)
    ensures ok <==> AllPathsSafe(entries) && NoFault(faults, |sections| + |entries|)
    ensures ok ==> after == RestoredFiles(files, sections, entries)
    ensures AgreeOutside(files, after, sections)
  {
    ok, after := DeleteSections(files, sections, faults);
    if ok {
      var removed := after;
      ok, after := WriteEntries(removed, sections, entries, faults);
      WithoutAgrees(files, sections);
    }
  }

  lemma WithoutAgrees(files: Files, sections: seq<Section>)
    ensures AgreeOutside(files, Without(files, sections), sections)
  {
  }

  method DeleteSections(files: Files, sections: seq<Section>, faults: Faults) returns (ok: bool, after: Files)
    ensures ok <==> NoFault(faults, |sections|)
    ensures ok ==> after == Without(files, sections)
    ensures AgreeOutside(files, after, sections)
  {
    ok, after := true, files;
    assert Without(files, []) == files;
    for i := 0 to |sections|
      invariant ok && NoFault(faults, i)
      invariant after == Without(files, sections[..i])
    {
      ghost var before := after;
      ok, after := RemoveSection(after, sections[i], faults(i));
      WithoutOneMore(files, sections, i);
      if !ok {
        FailedDeleteAgrees(files, before, after, sections, i);
        return;
      }
    }
    assert sections[..|sections|] == sections;
    WithoutAgrees(files, sections);
  }

  lemma WithoutOneMore(files: Files, sections: seq<Section>, i: nat)
    requires i < |sections|
    ensures var before := Without(files, sections[..i]);
            Without(files, sections[..i + 1]) == map p | p in before && !InSection(p, sections[i]) :: before[p]
  {
    hide InSection;
    hide InSections;
    assert sections[..i + 1] == sections[..i] + [sections[i]];
    forall p ensures InSections(p, sections[..i + 1]) <==> InSections(p, sections[..i]) || InSection(p, sections[i]) {
      OneMoreSection(p, sections[..i], sections[i]);
    }
  }

  lemma FailedDeleteAgrees(files: Files, before: Files, after: Files, sections: seq<Section>, i: nat)
    requires i < |sections| && before == Without(files, sections[..i])
    requires forall p :: !InSection(p, sections[i]) ==> AgreeAt(before, after, p)
    ensures AgreeOutside(files, after, sections)
  {
    hide InSection;
    forall p | !InSections(p, sections) ensures AgreeAt(files, after, p) {
      assert sections[i] in sections;
      assert !InSections(p, sections[..i]);
    }
  }

  lemma NoEntryYet(files: Files, entries: seq<Entry>)
    ensures files + EntryMap(entries[..0]) == files
  {
  }

  lemma OneMoreEntry(files: Files, entries: seq<Entry>, j: nat)
    requires j < |entries|
    ensures files + EntryMap(entries[..j + 1])
         == (files + EntryMap(entries[..j]))[entries[j].path := entries[j].content]
  {
    assert entries[..j + 1][..j] == entries[..j];
  }

  method WriteEntries(files: Files, sections: seq<Section>, entries: seq<Entry>, faults: Faults)
    returns (ok: bool, after: Files)
    requires forall e :: e in entries ==> InSections(e.path, sections)
    requires NoFault(faults, |sections|)
    ensures ok <==> AllPathsSafe(entries) && NoFault(faults, |sections| + |entries|)
    ensures ok ==> after == files + EntryMap(entries)
    ensures AgreeOutside(files, after, sections)
  {
    hide SafePath, InSections, EntryMap;
    ok, after := true, files;
    NoEntryYet(files, entries);
    for j := 0 to |entries|
      invariant ok && NoFault(faults, |sections| + j)
      invariant forall k :: 0 <= k < j ==> SafePath(entries[k].path)
      invariant after == files + EntryMap(entries[..j])
      invariant AgreeOutside(files, after, sections)
    {
      assert entries[j] in entries;
      OneMoreEntry(files, entries, j);
      ghost var before := after;
      var k := |sections| + j;
      ok, after := WriteEntry(after, entries[j], faults(k));
      forall p | !InSections(p, sections) ensures AgreeAt(files, after, p) {
        assert AgreeAt(files, before, p) && AgreeAt(before, after, p);
      }
      if !ok {
        assert !SafePath(entries[j].path) || !NoFault(faults, |sections| + |entries|);
        return;
      }
    }
    assert entries[..|entries|] == entries;
    assert AllPathsSafe(entries);
  }

  /** Put the saved copy of each section back, whatever state the failure left. */
  method RollBack(files: Files, saved: Files, sections: seq<Section>, ghost original: Files) returns (after: Files)
    requires saved == Within(original, sections)
    requires AgreeOutside(original, files, sections)
    ensures after == original
  {
    after := files;
    for i := 0 to |sections|
      invariant AgreeOutside(original, after, sections)
      invariant forall p :: InSections(p, sections[..i]) ==> AgreeAt(original, after, p)
    {
      var section := sections[i];
      var removed := map p | p in after && !InSection(p, section) :: after[p];
      ghost var before := after;
      after := removed + (map p | p in saved && InSection(p, section) :: saved[p]);
      OneSectionBack(original, before, after, saved, sections, i);
    }
    assert sections[..|sections|] == sections;
    forall p ensures AgreeAt(original, after, p) {
      assert InSections(p, sections) || !InSections(p, sections);
    }
    AgreeingIsEqual(original, after);
  }

  lemma AgreeingIsEqual(a: Files, b: Files)
    requires forall p :: AgreeAt(a, b, p)
    ensures a == b
  {
    assert forall p :: p in a ==> AgreeAt(a, b, p);
    assert forall p :: p in b ==> AgreeAt(a, b, p);
  }

  lemma OneSectionBack(original: Files, before: Files, after: Files, saved: Files, sections: seq<Section>, i: nat)
    requires i < |sections| && saved == Within(original, sections)
    requires AgreeOutside(original, before, sections)
    requires forall p :: InSections(p, sections[..i]) ==> AgreeAt(original, before, p)
    requires after == (map p | p in before && !InSection(p, sections[i]) :: before[p])
                      + (map p | p in saved && InSection(p, sections[i]) :: saved[p])
    ensures AgreeOutside(original, after, sections)
    ensures forall p :: InSections(p, sections[..i + 1]) ==> AgreeAt(original, after, p)
  {
    hide InSection;
    assert sections[..i + 1] == sections[..i] + [sections[i]];
    forall p | !InSections(p, sections) || InSections(p, sections[..i + 1]) ensures AgreeAt(original, after, p) {
      OneMoreSection(p, sections[..i], sections[i]);
      assert sections[i] in sections;
      if InSection(p, sections[i]) {
        assert InSections(p, sections);
      }
    }
  }

  // ----- the preview of a restore

  const STATE_PATH: string := "inventory/state.json"

  /** The preview checks the archived inventory against the built-in tenants and VRFs, with no
      interfaces and no connections. */
  function PreviewSnapshot(st: Inventory.State): Snapshot {
    Snapshot([Tenant("tenant-ops"), Tenant("tenant-net")], [Vrf("vrf-global"), Vrf("vrf-campus")],
             st.sites, st.racks, st.devices, [], [], st.prefixes, st.ipAddresses)
  }

  function FindEntry(entries: seq<Entry>, path: string): (r: Option<Entry>)
    ensures r.Some? ==> r.value in entries && r.value.path == path
    ensures r.None? ==> forall e :: e in entries ==> e.path != path
  {
    if entries == [] then None else if entries[0].path == path then Some(entries[0]) else FindEntry(entries[1..], path)
  }

  ghost predicate PreviewAccepts(entries: seq<Entry>, parse: string -> Option<Inventory.State>) {
    match FindEntry(entries, STATE_PATH)
    case None => true
    case Some(entry) =>
      match parse(entry.content)
      case None => false
      case Some(st) => Snapshots.ConflictFree(PreviewSnapshot(st))
  }

  /** The preview looks at the archived inventory alone, under the built-in tenants and VRFs. */
  lemma PreviewReads(entries: seq<Entry>, parse: string -> Option<Inventory.State>, e: Entry, st: Inventory.State)
    ensures (forall x :: x in entries ==> x.path != "inventory/state.json") ==> PreviewAccepts(entries, parse)
    ensures var s := Snapshot([Tenant("tenant-ops"), Tenant("tenant-net")], [Vrf("vrf-global"), Vrf("vrf-campus")],
                              st.sites, st.racks, st.devices, [], [], st.prefixes, st.ipAddresses);
            DistinctPaths(entries) && e in entries && e.path == "inventory/state.json" ==>
              && (parse(e.content).None? ==> !PreviewAccepts(entries, parse))
              && (parse(e.content) == Some(st) ==> (PreviewAccepts(entries, parse) <==> Snapshots.ConflictFree(s)))
  {
    hide Snapshots.ConflictFree;
    var found := FindEntry(entries, STATE_PATH);
    if DistinctPaths(entries) && e in entries && e.path == STATE_PATH {
      var i :| 0 <= i < |entries| && entries[i] == e;
      var j :| 0 <= j < |entries| && entries[j] == found.value;
    }
  }

  /** The inventory with no address bound to an interface. */
  function Unbound(st: Inventory.State): Inventory.State {
    st.(ipAddresses := seq(|st.ipAddresses|, i requires 0 <= i < |st.ipAddresses| =>
                                               st.ipAddresses[i].(interfaceId := None)))
  }

  ghost predicate NoHostBound(xs: seq<IpAddress>) {
    forall a :: a in xs && Snapshots.Hosted(a) ==> !Truthy(a.interfaceId)
  }

  lemma UnboundAddresses(st: Inventory.State)
    ensures forall a :: a in st.ipAddresses ==> a.(interfaceId := None) in Unbound(st).ipAddresses
    ensures forall b :: b in Unbound(st).ipAddresses ==>
                          exists a :: a in st.ipAddresses && a.(interfaceId := None) == b
  {
    var xs, ys := st.ipAddresses, Unbound(st).ipAddresses;
    forall a | a in xs ensures a.(interfaceId := None) in ys {
      var i :| 0 <= i < |xs| && xs[i] == a;
      assert ys[i] == a.(interfaceId := None);
    }
    forall b | b in ys ensures exists a :: a in xs && a.(interfaceId := None) == b {
      var i :| 0 <= i < |ys| && ys[i] == b;
      assert xs[i] in xs;
    }
  }

  lemma UnboundHosts(st: Inventory.State)
    ensures Snapshots.HostsDistinct(Unbound(st).ipAddresses) <==> Snapshots.HostsDistinct(st.ipAddresses)
  {
    UnboundAddresses(st);
    hide Ipv4.ParseRange, Unbound;
    var xs, ys := st.ipAddresses, Unbound(st).ipAddresses;
    if Snapshots.HostsDistinct(xs) {
      forall b, b' | b in ys && b' in ys && Snapshots.SameHost(b, b') ensures b.id == b'.id {
        var a :| a in xs && a.(interfaceId := None) == b;
        var a' :| a' in xs && a'.(interfaceId := None) == b';
        assert Snapshots.SameHost(a, a');
      }
    }
    if Snapshots.HostsDistinct(ys) {
      forall a, a' | a in xs && a' in xs && Snapshots.SameHost(a, a') ensures a.id == a'.id {
        assert Snapshots.SameHost(a.(interfaceId := None), a'.(interfaceId := None));
      }
    }
  }

  /** What the preview asks of one address: it hosts on no interface, and its record without the
      interface agrees. */
  lemma PreviewedAddress(st: Inventory.State, a: IpAddress)
    ensures Snapshots.AddressAgrees(PreviewSnapshot(st), a) <==>
            && Snapshots.AddressAgrees(PreviewSnapshot(Unbound(st)), a.(interfaceId := None))
            && (Snapshots.Hosted(a) ==> !Truthy(a.interfaceId))
  {
  }

  /** On every inventory: the preview accepts exactly when no IPv4 address is bound to an interface and
      the inventory with all bindings taken away has no conflict. The preview knows no interfaces. */
  lemma PreviewAcceptsIff(st: Inventory.State)
    ensures Snapshots.ConflictFree(PreviewSnapshot(st)) <==>
            Snapshots.ConflictFree(PreviewSnapshot(Unbound(st))) && NoHostBound(st.ipAddresses)
  {
    UnboundHosts(st);
    UnboundAddresses(st);
    hide Snapshots.AddressAgrees, Snapshots.HostsDistinct, Snapshots.PrefixAgrees, Snapshots.Hosted;
    var s, s' := PreviewSnapshot(st), PreviewSnapshot(Unbound(st));
    forall a | a in st.ipAddresses
      ensures Snapshots.AddressAgrees(s, a) <==>
              Snapshots.AddressAgrees(s', a.(interfaceId := None)) && (Snapshots.Hosted(a) ==> !Truthy(a.interfaceId))
    {
      PreviewedAddress(st, a);
    }
    SamePrefixRules(s, s');
  }

  lemma SamePrefixRules(s: Snapshot, s': Snapshot)
    requires s'.vrfs == s.vrfs && s'.prefixes == s.prefixes
    ensures forall p :: Snapshots.PrefixAgrees(s', p) <==> Snapshots.PrefixAgrees(s, p)
  {
    hide Snapshots.Ranged, Snapshots.InsideParent;
  }

  /** Without its bindings every inventory that is free of conflicts under the built-in tenants and
      VRFs passes the preview, whatever its interfaces and connections are. */
  lemma LivePassesUnbound(ctx: Inventory.Context, st: Inventory.State)
    requires Snapshots.ConflictFree(Inventory.SnapshotOf(ctx, st))
    requires forall id :: HasTenant(ctx.tenants, id) <==> id == "tenant-ops" || id == "tenant-net"
    requires forall id :: HasVrf(ctx.vrfs, id) <==> id == "vrf-global" || id == "vrf-campus"
    ensures Snapshots.ConflictFree(PreviewSnapshot(Unbound(st)))
    ensures Snapshots.ConflictFree(PreviewSnapshot(st)) <==> NoHostBound(st.ipAddresses)
  {
    PreviewAcceptsIff(st);
    UnboundHosts(st);
    var s, s' := Inventory.SnapshotOf(ctx, st), PreviewSnapshot(Unbound(st));
    PreviewReferences(s'.tenants, s'.vrfs);
    hide HasTenant, HasVrf, Snapshots.Hosted, Snapshots.PrefixAgrees, Snapshots.AddressAgrees, Snapshots.SiteAgrees;
    hide Snapshots.HostsDistinct, Snapshots.OverlapsDeclared, Unbound, NoHostBound;
    SameReferences(s, s');
    UnboundAllAgree(s, s', st);
  }

  lemma UnboundAllAgree(s: Snapshot, s': Snapshot, st: Inventory.State)
    requires s.ipAddresses == st.ipAddresses && s'.ipAddresses == Unbound(st).ipAddresses
    requires s'.prefixes == s.prefixes && forall id :: HasVrf(s.vrfs, id) <==> HasVrf(s'.vrfs, id)
    requires forall a :: a in s.ipAddresses ==> Snapshots.AddressAgrees(s, a)
    ensures forall b :: b in s'.ipAddresses ==> Snapshots.AddressAgrees(s', b)
  {
    UnboundAddresses(st);
    hide HasVrf, Snapshots.AddressAgrees, Unbound;
    forall b | b in s'.ipAddresses ensures Snapshots.AddressAgrees(s', b) {
      var a :| a in st.ipAddresses && a.(interfaceId := None) == b;
      UnboundAgrees(s, s', a);
    }
  }

  lemma SameReferences(s: Snapshot, s': Snapshot)
    requires s'.prefixes == s.prefixes
    requires forall id :: HasTenant(s.tenants, id) <==> HasTenant(s'.tenants, id)
    requires forall id :: HasVrf(s.vrfs, id) <==> HasVrf(s'.vrfs, id)
    ensures forall p :: Snapshots.PrefixAgrees(s', p) <==> Snapshots.PrefixAgrees(s, p)
    ensures forall x :: Snapshots.SiteAgrees(s', x) <==> Snapshots.SiteAgrees(s, x)
  {
    hide HasTenant, HasVrf, Snapshots.Ranged, Snapshots.InsideParent;
  }

  lemma UnboundAgrees(s: Snapshot, s': Snapshot, a: IpAddress)
    requires s'.prefixes == s.prefixes && Snapshots.AddressAgrees(s, a)
    requires forall id :: HasVrf(s.vrfs, id) <==> HasVrf(s'.vrfs, id)
    ensures Snapshots.AddressAgrees(s', a.(interfaceId := None))
  {
    hide HasVrf, Ipv4.ParseRange;
  }

  /** The first address of the built-in inventory. */
  const SEED_ADDRESS := IpAddress("ip-leaf-sw1-mgmt", Some("vrf-global"), "10.40.0.10/24", V4, "active", "primary",
                                  Some("prefix-global-apps"), Some("iface-leaf-sw1-mgmt"))

  /** So no backup of an inventory that holds it, as the built-in one does, can ever be restored. */
  lemma SeedIsRejected(st: Inventory.State)
    requires SEED_ADDRESS in st.ipAddresses
    ensures !Snapshots.ConflictFree(PreviewSnapshot(st))
  {
    SeedIsHosted();
    PreviewAcceptsIff(st);
    hide Snapshots.ConflictFree, PreviewSnapshot, Snapshots.Hosted;
  }

  lemma SeedIsHosted()
    ensures Snapshots.Hosted(SEED_ADDRESS)
  {
    SeedText();
    Ipv4.RangeTextReads(10, 40, 0, 10, 24);
    hide Ipv4.ParseRange, Ipv4.RangeText;
  }

  lemma SeedText()
    ensures Ipv4.RangeText(10, 40, 0, 10, 24) == "10.40.0.10/24"
  {
    assert JsText.Decimal(10) == "10" && JsText.Decimal(40) == "40" && JsText.Decimal(0) == "0";
    assert JsText.Decimal(24) == "24";
    var parts := ["10", "40", "0", "10"];
    assert JsText.Join(parts[3..], ".") == "10";
    assert JsText.Join(parts[2..], ".") == "0.10";
    assert JsText.Join(parts[1..], ".") == "40.0.10";
  }

  const BUILT_IN := Inventory.Context([Tenant("tenant-ops"), Tenant("tenant-net")],
                                      [Vrf("vrf-global"), Vrf("vrf-campus")],
                                      [Interface("iface-leaf-sw1-mgmt", "device-leaf-sw1")], [])

  /** One switch with one bound address, no prefixes and no connections. */
  const BOUND := Inventory.State([Site("site-dal1", "dal1", "Dallas One", Some("tenant-ops"))], [],
                                 [Device("device-leaf-sw1", "site-dal1", None, "leaf-sw1", "switch", "active")], [],
                                 [SEED_ADDRESS.(prefixId := None)])

  /** A conflict-free inventory that the preview rejects only for its binding. */
  lemma {:induction false} BoundSample()
    ensures Snapshots.ConflictFree(Inventory.SnapshotOf(BUILT_IN, BOUND))
    ensures Snapshots.ConflictFree(PreviewSnapshot(Unbound(BOUND)))
    ensures !Snapshots.ConflictFree(PreviewSnapshot(BOUND))
  {
    BoundIsConflictFree();
    PreviewReferences(BUILT_IN.tenants, BUILT_IN.vrfs);
    SeedIsHosted();
    assert BOUND.ipAddresses[0] in BOUND.ipAddresses;
    hide Snapshots.ConflictFree, PreviewSnapshot, Inventory.SnapshotOf, Ipv4.ParseRange;
    LivePassesUnbound(BUILT_IN, BOUND);
  }

  lemma BoundIsConflictFree()
    ensures Snapshots.ConflictFree(Inventory.SnapshotOf(BUILT_IN, BOUND))
  {
    PreviewReferences(BUILT_IN.tenants, BUILT_IN.vrfs);
    hide HasTenant, HasVrf, Snapshots.Hosted;
    assert BOUND.sites[0] in BOUND.sites && BOUND.devices[0] in BOUND.devices;
    assert BUILT_IN.interfaces[0] in BUILT_IN.interfaces;
    assert "iface-leaf-sw1-mgmt" in InterfaceIndex(BUILT_IN.interfaces);
    assert InterfaceIndex(BUILT_IN.interfaces)["iface-leaf-sw1-mgmt"] == BUILT_IN.interfaces[0];
  }

  lemma PreviewReferences(tenants: seq<Tenant>, vrfs: seq<Vrf>)
    requires tenants == [Tenant("tenant-ops"), Tenant("tenant-net")]
    requires vrfs == [Vrf("vrf-global"), Vrf("vrf-campus")]
    ensures forall id :: HasTenant(tenants, id) <==> id == "tenant-ops" || id == "tenant-net"
    ensures forall id :: HasVrf(vrfs, id) <==> id == "vrf-global" || id == "vrf-campus"
  {
    assert Tenant("tenant-ops") in tenants && Tenant("tenant-net") in tenants;
    assert Vrf("vrf-global") in vrfs && Vrf("vrf-campus") in vrfs;
  }

  // ----- the store

  function BackupId(record: Record): string { record.id }

  /** The checksum leaves out the two fields that are filled in later. */
  function ComputeChecksum(hash: Archive -> string, archive: Archive): string {
    hash(archive.(record := archive.record.(checksum := "", sizeBytes := 0)))
  }

  function ReadArchiveFrom(hash: Archive -> string, backups: seq<Record>, archives: map<string, Archive>,
                           id: string): Result<Archive> {
    match Keyed.First(backups, BackupId, id)
    case None => Failure(BackupNotFound)
    case Some(record) =>
      if record.archivePath !in archives then Failure(ArchiveMissing)
      else
        var archive := archives[record.archivePath];
        if ComputeChecksum(hash, archive) != record.checksum then Failure(ChecksumMismatch) else Success(archive)
  }

  /** Size and checksum are not hashed, so filling them in later leaves the checksum as it is. */
  lemma LateFieldsNotHashed(hash: Archive -> string, record: Record, finished: Record, entries: seq<Entry>)
    requires record.checksum == "" && record.sizeBytes == 0
    requires finished.(checksum := "", sizeBytes := 0) == record
    ensures ComputeChecksum(hash, Archive(finished, entries)) == ComputeChecksum(hash, Archive(record, entries))
  {
  }

  lemma {:induction false} FindAppended(backups: seq<Record>, record: Record)
    requires forall b :: b in backups ==> b.id != record.id
    ensures Keyed.First(backups + [record], BackupId, record.id) == Some(record)
    ensures forall id :: id != record.id ==>
              Keyed.First(backups + [record], BackupId, id) == Keyed.First(backups, BackupId, id)
  {
    if backups != [] {
      FindAppended(backups[1..], record);
      assert (backups + [record])[1..] == backups[1..] + [record];
    }
  }

  function ArchivePath(directory: string, id: string): string {
    directory + "/" + id + ".json.gz"
  }

  lemma ArchivePathInjective(directory: string, a: string, b: string)
    ensures ArchivePath(directory, a) == ArchivePath(directory, b) ==> a == b
  {
    var p, q := ArchivePath(directory, a), ArchivePath(directory, b);
    if p == q {
      assert p[|directory| + 1..][..|a|] == a;
      assert q[|directory| + 1..][..|b|] == b;
    }
  }

  /** A listed backup's archive is stored under its own path, holds its record, and its checksum
      verifies. */
  ghost predicate Intact(directory: string, hash: Archive -> string, archives: map<string, Archive>, b: Record) {
    && b.archivePath == ArchivePath(directory, b.id)
    && b.archivePath in archives
    && archives[b.archivePath].record == b
    && ComputeChecksum(hash, archives[b.archivePath]) == b.checksum
  }

  ghost predicate Durable(directory: string, hash: Archive -> string, backups: seq<Record>,
                          archives: map<string, Archive>)
  {
    Keyed.UniqueKeys(backups, BackupId) && forall b :: b in backups ==> Intact(directory, hash, archives, b)
  }

  /** Of a durable store every listed backup reads back, with the archive stored for it. */
  lemma {:induction false} ListedReads(directory: string, hash: Archive -> string, backups: seq<Record>,
                                       archives: map<string, Archive>, b: Record)
    requires Durable(directory, hash, backups, archives) && b in backups
    ensures ReadArchiveFrom(hash, backups, archives, b.id) == Success(archives[b.archivePath])
    ensures archives[b.archivePath].record == b
  {
    hide ComputeChecksum;
    assert Intact(directory, hash, archives, b);
  }

  /** What reading answers: the archive stored for the first record with the id, where its hash without
      size and checksum is the recorded one. A tampered archive is refused. */
  lemma {:induction false} ReadsIff(hash: Archive -> string, backups: seq<Record>, archives: map<string, Archive>,
                                    k: nat)
    requires k < |backups| && forall j :: 0 <= j < k ==> backups[j].id != backups[k].id
    ensures var path := backups[k].archivePath;
            ReadArchiveFrom(hash, backups, archives, backups[k].id) ==
            if path !in archives then Failure(ArchiveMissing)
            else if HashedPart(hash, archives[path]) == backups[k].checksum then Success(archives[path])
            else Failure(ChecksumMismatch)
  {
    var id := backups[k].id;
    assert backups[k] in backups && BackupId(backups[k]) == id;
    hide Keyed.First;
    Keyed.FirstAt(backups, BackupId, id);
    var i :| 0 <= i < |backups| && Some(backups[i]) == Keyed.First(backups, BackupId, id)
             && BackupId(backups[i]) == id && forall j :: 0 <= j < i ==> BackupId(backups[j]) != id;
    assert i == k;
  }

  /** The hash of everything but the two late fields, field by field. */
  function HashedPart(hash: Archive -> string, archive: Archive): string {
    var r := archive.record;
    hash(Archive(Record(r.id, r.mode, r.engine, r.sections, r.archivePath, "", 0, r.createdBy, r.createdAt),
                 archive.entries))
  }

  lemma {:induction false} AddingKeepsDurable(directory: string, hash: Archive -> string, backups: seq<Record>,
                                              archives: map<string, Archive>, record: Record, archive: Archive)
    requires Durable(directory, hash, backups, archives) && forall b :: b in backups ==> b.id != record.id
    requires archive.record == record && record.archivePath == ArchivePath(directory, record.id)
    requires ComputeChecksum(hash, archive) == record.checksum
    ensures Durable(directory, hash, backups + [record], archives[record.archivePath := archive])
    ensures forall id :: id != record.id ==>
              ReadArchiveFrom(hash, backups + [record], archives[record.archivePath := archive], id)
              == ReadArchiveFrom(hash, backups, archives, id)
  {
    hide ComputeChecksum, ArchivePath;
    FindAppended(backups, record);
    forall b | b in backups ensures b.archivePath != record.archivePath && Intact(directory, hash, archives, b) {
      ArchivePathInjective(directory, b.id, record.id);
    }
  }

  lemma {:induction false} RemovingKeepsDurable(directory: string, hash: Archive -> string, backups: seq<Record>,
                                                archives: map<string, Archive>, record: Record)
    requires Durable(directory, hash, backups, archives) && record in backups
    ensures Durable(directory, hash, Keyed.Without(backups, BackupId, Some(record.id)), archives - {record.archivePath})
    ensures forall id :: id != record.id ==>
              ReadArchiveFrom(hash, Keyed.Without(backups, BackupId, Some(record.id)),
                              archives - {record.archivePath}, id)
              == ReadArchiveFrom(hash, backups, archives, id)
  {
    hide ComputeChecksum, ArchivePath;
    var rest, left := Keyed.Without(backups, BackupId, Some(record.id)), archives - {record.archivePath};
    forall b | b in rest ensures Intact(directory, hash, left, b) && archives[b.archivePath] == left[b.archivePath] {
      assert Intact(directory, hash, archives, b) && Intact(directory, hash, archives, record);
      ArchivePathInjective(directory, b.id, record.id);
    }
    forall id | id != record.id
      ensures ReadArchiveFrom(hash, rest, left, id) == ReadArchiveFrom(hash, backups, archives, id)
    {
      FindAfterRemoval(backups, record.id, id);
      if Keyed.First(backups, BackupId, id).Some? {
        assert Intact(directory, hash, archives, Keyed.First(backups, BackupId, id).value);
      }
    }
  }

  /** The records that stay are found as before. */
  lemma {:induction false} FindAfterRemoval(backups: seq<Record>, gone: string, id: string)
    requires Keyed.UniqueKeys(backups, BackupId) && id != gone
    ensures Keyed.First(Keyed.Without(backups, BackupId, Some(gone)), BackupId, id)
         == Keyed.First(backups, BackupId, id)
  {
    var found := Keyed.First(backups, BackupId, id);
    var after := Keyed.First(Keyed.Without(backups, BackupId, Some(gone)), BackupId, id);
    if found.Some? && after.Some? {
      var i :| 0 <= i < |backups| && backups[i] == found.value;
      var j :| 0 <= j < |backups| && backups[j] == after.value;
    }
  }

  /** One record with the id is gone, and its archive; everything else stays, in order. */
  ghost predicate Dropped(backups: seq<Record>, rest: seq<Record>, archives: map<string, Archive>,
                          left: map<string, Archive>, id: string) {
    && Keyed.CutOut(backups, rest, BackupId, id)
    && exists b :: b in backups && b.id == id && left == archives - {b.archivePath}
  }

  class FileBackedBackupStore {
    const archiveDirectory: string
    const hash: Archive -> string
    const sizeOf: Archive -> nat
    const parse: string -> Option<Inventory.State>
    var backups: seq<Record>
    var logs: seq<Log>
    var archives: map<string, Archive>
    var source: Files

    /** Stored archives were made by createBackup: their entries lie in their sections, and every
        listed backup is intact. */
    ghost predicate Valid()
      reads this
    {
      && (forall path :: path in archives ==> Contained(archives[path]))
      && Durable(archiveDirectory, hash, backups, archives)
    }

    constructor (archiveDirectory: string, hash: Archive -> string, sizeOf: Archive -> nat,
                 parse: string -> Option<Inventory.State>, source: Files)
      ensures Valid()
      ensures this.archiveDirectory == archiveDirectory && this.hash == hash && this.sizeOf == sizeOf
      ensures this.parse == parse && this.source == source
      ensures backups == [] && logs == [] && archives == map[]
    {
      this.archiveDirectory, this.hash, this.sizeOf, this.parse := archiveDirectory, hash, sizeOf, parse;
      this.source := source;
      backups, logs, archives := [], [], map[];
    }

    function ReadArchive(backupId: string): Result<Archive>
      reads this
    {
      ReadArchiveFrom(hash, backups, archives, backupId)
    }

    /** The stored archive holds exactly the files of its sections, and its checksum verifies
        although size and checksum are filled in after hashing. */
    method CreateBackup(mode: Mode, sections: seq<Section>, engine: Engine, createdBy: string,
                        backupId: string, createdAt: string, collate: (string, string) -> int)
      returns (result: Result<Record>)
      requires Valid()
      requires forall b :: b in backups ==> b.id != backupId
      modifies this`backups, this`archives, this`logs
      ensures Valid()
      ensures result.Success? <==> ValidateBackupRequest(mode, sections, engine).Success?
      ensures result.Success? <==> mode != OtherMode && (mode == Full || sections != []) && engine != OtherEngine
      ensures result.Failure? ==>
                result.error == if mode == OtherMode then InvalidMode
                                else if mode != Full && sections == [] then NoSections else UnsupportedEngine
      ensures result.Failure? ==> backups == old(backups) && archives == old(archives) && logs == old(logs)
      ensures result.Success? ==>
                && backups == old(backups) + [result.value]
                && result.value.id == backupId
                && result.value.sections == ResolveSections(mode, sections)
                && result.value.mode == mode && result.value.engine == engine
                && result.value.createdBy == createdBy && result.value.createdAt == createdAt
                && result.value.archivePath == archiveDirectory + "/" + backupId + ".json.gz"
                && result.value.archivePath in archives
                && result.value.sizeBytes ==
                   sizeOf(archives[result.value.archivePath].(record := result.value.(sizeBytes := 0)))
                && archives == old(archives)[result.value.archivePath := archives[result.value.archivePath]]
                && archives[result.value.archivePath].record == result.value
                && Captures(archives[result.value.archivePath].entries, source, result.value.sections)
                && Archived(mode, sections, source, archives[result.value.archivePath].entries)
                && InOrder(archives[result.value.archivePath].entries, collate)
                && (mode == Full ==> forall s: Section :: s in result.value.sections)
                && (mode != Full ==> forall s :: s in result.value.sections <==> s in sections)
                && ReadArchive(backupId) == Success(archives[result.value.archivePath])
                && logs == old(logs) + [Created(backupId)]
      ensures forall id :: id != backupId ==> ReadArchive(id) == old(ReadArchive(id))
    {
      RequestIff(mode, sections, engine);
      hide Captures, Archived, InOrder, Durable, ComputeChecksum, ValidateBackupRequest, ResolveSections;
      var validation := ValidateBackupRequest(mode, sections, engine);
      if validation.Failure? {
        return Failure(validation.error);
      }
      ResolvedIsDistinct(mode, sections);
      SectionsCovered(mode, sections, "");
      var entries := CollectEntries(source, validation.value, collate);
      var record := Record(backupId, mode, engine, validation.value,
                           ArchivePath(archiveDirectory, backupId), "", 0, createdBy, createdAt);
      var finalChecksum := ComputeChecksum(hash, Archive(record, entries));
      var finalizedRecord := record.(checksum := finalChecksum);
      var sizedRecord := finalizedRecord.(sizeBytes := sizeOf(Archive(finalizedRecord, entries)));
      var sizedArchive := Archive(sizedRecord, entries);
      CapturedIsContained(sizedArchive, source);
      CapturedIsArchived(mode, sections, source, entries);
      LateFieldsNotHashed(hash, record, sizedRecord, entries);
      AddingKeepsDurable(archiveDirectory, hash, backups, archives, sizedRecord, sizedArchive);
      archives := archives[record.archivePath := sizedArchive];
      FindAppended(backups, sizedRecord);
      backups := backups + [sizedRecord];
      logs := logs + [Created(backupId)];
      result := Success(sizedRecord);
    }

    method ValidateRestore(backupId: string) returns (result: Result<bool>)
      ensures match ReadArchive(backupId)
              case Failure(error) => result == Failure(error)
              case Success(archive) => result.Success? && (result.value <==> PreviewAccepts(archive.entries, parse))
    {
      var archive := ReadArchive(backupId);
      if archive.Failure? {
        return Failure(archive.error);
      }
      var entry := FindEntry(archive.value.entries, STATE_PATH);
      if entry.None? {
        return Success(true);
      }
      var parsed := parse(entry.value.content);
      if parsed.None? {
        return Success(false);
      }
      var valid, _, _ := Snapshots.ValidateSnapshot(PreviewSnapshot(parsed.value));
      result := Success(valid);
    }

    /** A restore is all or nothing. It succeeds exactly when the archive reads back, the preview
        accepts it, every path is safe and no file operation throws. */
    method RestoreBackup(backupId: string, faults: Faults) returns (result: Result<seq<Section>>)
      requires Valid()
      modifies this`source, this`logs
      ensures Valid()
      ensures result.Success? ==>
                && ReadArchive(backupId).Success?
                && var archive := ReadArchive(backupId).value;
                && result.value == archive.record.sections
                && source == RestoredFiles(old(source), archive.record.sections, archive.entries)
                && logs == old(logs) + [Restored(backupId)]
      ensures result.Failure? ==> source == old(source) && logs == old(logs)
      ensures result.Failure? ==>
                result.error == match old(ReadArchive(backupId))
                                case Failure(error) => error
                                case Success(archive) =>
                                  if PreviewAccepts(archive.entries, parse) then RestoreFailed else PreviewInvalid
      ensures result.Success? <==>
              && old(ReadArchive(backupId)).Success?
              && var archive := old(ReadArchive(backupId)).value;
              && PreviewAccepts(archive.entries, parse)
              && AllPathsSafe(archive.entries)
              && NoFault(faults, |archive.record.sections| + |archive.entries|)
    {
      hide PreviewAccepts;
      hide InSections;
      var preview := ValidateRestore(backupId);
      if preview.Failure? {
        return Failure(preview.error);
      }
      if !preview.value {
        return Failure(PreviewInvalid);
      }
      var archive := ReadArchive(backupId).value;
      assert Contained(archive) by {
        ReadIsStored(hash, backups, archives, backupId);
      }
      var sections := archive.record.sections;
      var rollback := Within(source, sections);
      var ok, after := ReplaceSections(source, sections, archive.entries, faults);
      if !ok {
        after := RollBack(after, rollback, sections, source);
        source := after;
        return Failure(RestoreFailed);
      }
      source := after;
      logs := logs + [Restored(backupId)];
      result := Success(sections);
    }

    method DeleteBackup(backupId: string) returns (deleted: bool)
      requires Valid()
      modifies this`backups, this`archives, this`logs
      ensures Valid()
      ensures deleted <==> Keyed.First(old(backups), BackupId, backupId).Some?
      ensures deleted <==> exists b :: b in old(backups) && b.id == backupId
      ensures !deleted ==> backups == old(backups) && archives == old(archives) && logs == old(logs)
      ensures deleted ==>
                && Dropped(old(backups), backups, old(archives), archives, backupId)
                && (forall b :: b in backups <==> b in old(backups) && b.id != backupId)
                && ReadArchive(backupId) == Failure(BackupNotFound)
                && logs == old(logs) + [Removed(backupId)]
      ensures forall id :: id != backupId ==> ReadArchive(id) == old(ReadArchive(id))
    {
      hide ComputeChecksum, Intact, Keyed.UniqueKeys;
      var backup := Keyed.First(backups, BackupId, backupId);
      if backup.None? {
        return false;
      }
      RemovingKeepsDurable(archiveDirectory, hash, backups, archives, backup.value);
      Keyed.WithoutCutsOut(backups, BackupId, backupId);
      archives := archives - {backup.value.archivePath};
      backups := Keyed.Without(backups, BackupId, Some(backupId));
      logs := logs + [Removed(backupId)];
      deleted := true;
    }
  }

  /** What is asked of a request, and what it is refused for. */
  lemma RequestIff(mode: Mode, sections: seq<Section>, engine: Engine)
    ensures var r := ValidateBackupRequest(mode, sections, engine);
            && (r.Success? <==> mode != OtherMode && (mode == Full || sections != []) && engine != OtherEngine)
            && (r.Success? ==> r.value == ResolveSections(mode, sections))
            && (r.Failure? ==> r.error == if mode == OtherMode then InvalidMode
                                          else if mode != Full && sections == [] then NoSections
                                          else UnsupportedEngine)
  {
    if sections != [] {
      assert sections[0] in sections;
    }
  }

  lemma ResolvedIsDistinct(mode: Mode, sections: seq<Section>)
    ensures NoDuplicates(ResolveSections(mode, sections))
  {
  }

  lemma CapturedIsContained(archive: Archive, files: Files)
    requires Captures(archive.entries, files, archive.record.sections)
    ensures Contained(archive)
  {
    hide InSections;
  }

  lemma ReadIsStored(hash: Archive -> string, backups: seq<Record>, archives: map<string, Archive>, id: string)
    requires ReadArchiveFrom(hash, backups, archives, id).Success?
    ensures exists path :: path in archives && archives[path] == ReadArchiveFrom(hash, backups, archives, id).value
  {
  }

  // ----- round trip

  /** Restoring a backup after arbitrary changes of the sources brings the backed-up sections back
      and leaves everything else as it was changed. */
  lemma RestoreUndoesChanges(entries: seq<Entry>, backedUp: Files, changed: Files, sections: seq<Section>)
    requires Captures(entries, backedUp, sections)
    ensures var restored := RestoredFiles(changed, sections, entries);
            && Within(restored, sections) == Within(backedUp, sections)
            && Without(restored, sections) == Without(changed, sections)
  {
    CapturedRebuilds(entries, backedUp, sections);
    hide EntryMap;
    hide InSections;
  }

  /** The preview and the path check, told from the files instead of the archive. */
  ghost predicate Restorable(files: Files, parse: string -> Option<Inventory.State>) {
    && (forall p :: p in files ==> SafePath(p))
    && (STATE_PATH in files ==>
          parse(files[STATE_PATH]).Some? && Snapshots.ConflictFree(PreviewSnapshot(parse(files[STATE_PATH]).value)))
  }

  lemma RestorableFromFiles(entries: seq<Entry>, files: Files, sections: seq<Section>,
                            parse: string -> Option<Inventory.State>)
    requires Captures(entries, files, sections)
    ensures Restorable(Within(files, sections), parse) <==> AllPathsSafe(entries) && PreviewAccepts(entries, parse)
  {
    hide SafePath;
    hide Snapshots.ConflictFree;
    hide InSections;
    var part := Within(files, sections);
    assert forall p :: p in part ==> Entry(p, files[p]) in entries;
    assert AllPathsSafe(entries) <==> forall p :: p in part ==> SafePath(p);
    var found := FindEntry(entries, STATE_PATH);
    if STATE_PATH in part {
      assert Entry(STATE_PATH, files[STATE_PATH]) in entries;
    }
  }
}
