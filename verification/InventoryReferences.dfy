/** The prefix references of addresses: which steps keep them resolving. The validator skips addresses that
    denote no IPv4 host, so for those only the guards of the handlers speak. */
module InventoryReferences {
  import opened Wrappers
  import opened JsText
  import opened Payload
  import opened InventoryModel
  import opened InventoryRequests
  import opened InventoryState
  import opened Keyed
  import opened SnapshotValidation
  import opened PrefixHierarchy
  import opened Inventory
  import opened InventoryRuns
  import Consequences = InventoryConsequences
  import Space = AddressSpace

  predicate HasPrefix(prefixes: seq<Prefix>, id: string) {
    exists p :: p in prefixes && p.id == id
  }

  predicate Resolves(prefixes: seq<Prefix>, a: IpAddress) {
    Truthy(a.prefixId) ==> HasPrefix(prefixes, a.prefixId.value)
  }

  predicate AllResolve(st: State) {
    forall a :: a in st.ipAddresses ==> Resolves(st.prefixes, a)
  }

  // ----- all steps but the update of a prefix

  lemma ProposedAddressResolves(ctx: Context, st: State, payload: Fields, existingId: Option<string>, now: nat)
    ensures var r := ProposedAddress(ctx, st, payload, existingId, now);
            r.Some? ==> Resolves(st.prefixes, r.value)
  {
    hide AsString, AsNullableString, NewId, FamilyOf, ValidCidrShape, HasVrf, Taken;
  }

  lemma MutationKeepsReferences(ctx: Context, st: State, resource: Resource, payload: Fields,
                                existingId: Option<string>, now: nat)
    requires AllResolve(st) && (resource.Prefixes? ==> existingId.None?)
    ensures AllResolve(AfterMutation(ctx, st, resource, payload, existingId, now))
  {
    MutationResult(ctx, st, resource, payload, existingId, now);
    OtherMutationsKeepPrefixes(ctx, st, resource, payload, existingId, now);
    RecordOfResource(ctx, st, resource, payload, existingId, now);
    ProposedAddressResolves(ctx, st, payload, existingId, now);
    hide AfterMutation, Proposed, ProposedAddress, ConflictFree;
    var r := Proposed(ctx, st, resource, payload, existingId, now);
    if r.Some? {
      NextResolves(st, r.value, existingId);
    }
  }

  lemma RecordOfResource(ctx: Context, st: State, resource: Resource, payload: Fields,
                         existingId: Option<string>, now: nat)
    ensures var r := Proposed(ctx, st, resource, payload, existingId, now);
            r.Some? && r.value.AddressRecord? ==>
              ProposedAddress(ctx, st, payload, existingId, now) == Some(r.value.address)
  {
    hide ProposedSite, ProposedRack, ProposedDevice, ProposedPrefix, ProposedAddress;
  }

  lemma NextResolves(st: State, record: Record, existingId: Option<string>)
    requires AllResolve(st) && (record.PrefixRecord? ==> existingId.None?)
    requires record.AddressRecord? ==> Resolves(st.prefixes, record.address)
    ensures AllResolve(NextState(st, record, existingId))
  {
    var next := NextState(st, record, existingId);
    assert forall p :: p in st.prefixes ==> p in next.prefixes;
    forall a | a in next.ipAddresses ensures Resolves(next.prefixes, a) {
      assert Resolves(st.prefixes, a);
    }
  }

  lemma DeleteKeepsReferences(ctx: Context, st: State, resource: Resource, id: string)
    requires AllResolve(st)
    ensures AllResolve(AfterDelete(ctx, st, resource, id))
  {
    hide StoredFields;
    var after := AfterDelete(ctx, st, resource, id);
    forall a | a in after.ipAddresses ensures Resolves(after.prefixes, a) {
      assert a in st.ipAddresses && Resolves(st.prefixes, a);
    }
  }

  /** Every step but the update of a prefix keeps all prefix references resolving, hosted or not. */
  lemma OtherStepsKeepReferences(ctx: Context, st: State, command: Command)
    requires AllResolve(st) && !(command.Update? && command.resource.Prefixes?)
    ensures AllResolve(Step(ctx, st, command))
  {
    hide AllResolve, AfterMutation, AfterDelete, StoredFields;
    match command {
      case Create(resource, payload, now) =>
        MutationKeepsReferences(ctx, st, resource, payload, None, now);
      case Update(resource, recordId, payload, now) =>
        var stored := StoredFields(st, resource, recordId);
        if stored.Some? {
          MutationKeepsReferences(ctx, st, resource, stored.value + payload, Some(recordId), now);
        }
      case Delete(resource, recordId) =>
        DeleteKeepsReferences(ctx, st, resource, recordId);
    }
  }

  // ----- the update of a prefix

  lemma {:induction false} AfterReplacement(ps: seq<Prefix>, id: string, prefix: Prefix)
    requires UniquePrefixes(ps) && HasPrefix(ps, id)
    ensures var next := Replace(ps, PrefixId, id, prefix);
            forall other :: HasPrefix(next, other) <==> other == prefix.id || (other != id && HasPrefix(ps, other))
  {
    var next := Replace(ps, PrefixId, id, prefix);
    var k :| 0 <= k < |ps| && ps[k].id == id;
    assert next[k] == prefix;
    forall other ensures HasPrefix(next, other) <==> other == prefix.id || (other != id && HasPrefix(ps, other)) {
      if HasPrefix(ps, other) {
        var j :| 0 <= j < |ps| && ps[j].id == other;
        assert next[j] == if other == id then prefix else ps[j];
      }
    }
  }

  /** The validator lets no hosted address name a prefix that is gone. */
  lemma HostedResolves(ctx: Context, st: State, a: IpAddress)
    requires ConflictFree(SnapshotOf(ctx, st)) && a in st.ipAddresses && Hosted(a)
    ensures Resolves(st.prefixes, a)
  {
    assert AddressAgrees(SnapshotOf(ctx, st), a);
    hide ConflictFree, Hosted, HostIn, Ranged, RangeIn;
  }

  /** An applied prefix update keeps all references resolving exactly when the id stays or every address on
      the old id denotes an IPv4 host: those the validator guards, the others it skips. */
  lemma {:induction false} PrefixUpdateKeepsReferencesIff(ctx: Context, st: State, id: string, prefix: Prefix)
    requires UniqueIds(st) && AllResolve(st) && HasPrefix(st.prefixes, id)
    requires ConflictFree(SnapshotOf(ctx, NextState(st, PrefixRecord(prefix), Some(id))))
    ensures AllResolve(NextState(st, PrefixRecord(prefix), Some(id))) <==>
            || prefix.id == id
            || forall a :: a in st.ipAddresses && Truthy(a.prefixId) && a.prefixId.value == id ==> Hosted(a)
  {
    hide ConflictFree, Hosted, HasPrefix, UniqueKeys;
    var next := NextState(st, PrefixRecord(prefix), Some(id));
    AfterReplacement(st.prefixes, id, prefix);
    forall a | a in st.ipAddresses
      ensures Resolves(next.prefixes, a) <==>
              prefix.id == id || !Truthy(a.prefixId) || a.prefixId.value != id || a.prefixId.value == prefix.id
      ensures Hosted(a) ==> Resolves(next.prefixes, a)
    {
      assert Resolves(st.prefixes, a);
      if Hosted(a) {
        HostedResolves(ctx, next, a);
      }
    }
  }

  // ----- a rename that leaves an address behind

  function Lone(id: string, cidr: string): Prefix {
    Prefix(id, None, None, cidr, V6, "active", "pool", None)
  }

  function Holder(id: string): IpAddress {
    IpAddress("ip", None, "2001:db8::1/128", V6, "active", "primary", Some(id), None)
  }

  /** An IPv6 prefix and one address that names it by the second id. */
  function Pair(id: string, cidr: string, named: string): State {
    State([], [], [], [Lone(id, cidr)], [Holder(named)])
  }

  function Rename(id: string): Fields {
    map["id" := Text(id)]
  }

  predicate V6Text(cidr: string) {
    cidr != "" && Trimmed(cidr) && ':' in cidr && ValidCidrShape(V6, cidr)
  }

  lemma MergedFields(id: string, cidr: string, newId: string, payload: Fields)
    requires payload == PrefixFields(Lone(id, cidr)) + Rename(newId)
    ensures Field(payload, "id") == Some(Text(newId)) && Field(payload, "cidr") == Some(Text(cidr))
    ensures Field(payload, "vrfId") == Field(payload, "parentPrefixId") == Field(payload, "tenantId") == Some(Null)
    ensures Field(payload, "status") == Some(Text("active"))
    ensures Field(payload, "allocationMode") == Some(Text("pool"))
  {
  }

  lemma NewIdTaken(kind: string, payload: Fields, existingId: Option<string>, fallback: Option<string>, now: nat,
                   newId: string)
    requires Field(payload, "id") == Some(Text(newId)) && IsSlug(newId)
    ensures NewId(kind, payload, existingId, fallback, now) == newId
  {
    Consequences.PlainText(payload, "id", newId);
    SlugStays(newId);
    hide AsNullableString, SanitizeId;
  }

  lemma NullField(payload: Fields, key: string)
    requires Field(payload, key) == Some(Null)
    ensures AsNullableString(Field(payload, key)) == None
  {
  }

  lemma RenamedFields(id: string, cidr: string, newId: string, payload: Fields, now: nat)
    requires payload == PrefixFields(Lone(id, cidr)) + Rename(newId) && V6Text(cidr) && IsSlug(newId)
    ensures CandidatePrefix(payload, Some(id), now) == Lone(newId, cidr)
    ensures AsString(Field(payload, "cidr")) == Some(cidr) && AsString(Field(payload, "status")) == Some("active")
  {
    hide Field, PrefixFields, Rename, AsString, AsNullableString, IsSlug, NewId, AsInteger, ValidCidrShape, Trimmed;
    MergedFields(id, cidr, newId, payload);
    PlainWords();
    Consequences.PlainText(payload, "cidr", cidr);
    Consequences.PlainText(payload, "status", "active");
    Consequences.PlainText(payload, "allocationMode", "pool");
    NullField(payload, "vrfId");
    NullField(payload, "parentPrefixId");
    NullField(payload, "tenantId");
    NewIdTaken("prefix", payload, Some(id), Some(cidr), now, newId);
  }

  lemma PlainWords()
    ensures Trimmed("active") && Trimmed("pool")
  {
  }

  lemma RenameIsProposed(ctx: Context, id: string, cidr: string, newId: string, payload: Fields, now: nat)
    requires payload == PrefixFields(Lone(id, cidr)) + Rename(newId) && V6Text(cidr) && IsSlug(newId) && newId != id
    ensures ProposedPrefix(ctx, Pair(id, cidr, id), payload, Some(id), now) == Some(Lone(newId, cidr))
  {
    RenamedFields(id, cidr, newId, payload, now);
    assert Without([Lone(id, cidr)], PrefixId, Some(id)) == [];
    assert [] + [Lone(newId, cidr)] == [Lone(newId, cidr)];
    hide AsString, CandidatePrefix, ValidCidrShape, PrefixIndex, Without, IsSlug, PrefixFields, Rename, Field;
    assert HierarchyOk([Lone(newId, cidr)]);
  }

  lemma PairIsSafe(ctx: Context, id: string, cidr: string, named: string)
    requires ctx.interfaces == [] && ctx.connections == []
    ensures Safe(ctx, Pair(id, cidr, named))
    ensures named != "" ==> (AllResolve(Pair(id, cidr, named)) <==> named == id)
  {
    assert Pair(id, cidr, named).prefixes[0] == Lone(id, cidr);
    assert Pair(id, cidr, named).ipAddresses[0] == Holder(named);
    assert AllResolve(Pair(id, cidr, named)) <==> Resolves([Lone(id, cidr)], Holder(named));
    hide PrefixIndex;
  }

  /** Renaming a prefix is applied although an IPv6 address still names it by the old id. */
  lemma {:induction false} RenameLeavesBehind(ctx: Context, id: string, cidr: string, newId: string, now: nat)
    requires ctx.interfaces == [] && ctx.connections == []
    requires V6Text(cidr) && IsSlug(newId) && newId != id && id != ""
    ensures Safe(ctx, Pair(id, cidr, id)) && AllResolve(Pair(id, cidr, id))
    ensures Step(ctx, Pair(id, cidr, id), Update(Prefixes, id, Rename(newId), now)) == Pair(newId, cidr, id)
    ensures Safe(ctx, Pair(newId, cidr, id)) && !AllResolve(Pair(newId, cidr, id))
  {
    hide *;
    PairIsSafe(ctx, id, cidr, id);
    PairIsSafe(ctx, newId, cidr, id);
    SlugIsNamed(newId);
    SafeIsConflictFree(ctx, Pair(newId, cidr, id));
    RenameIsProposed(ctx, id, cidr, newId, PrefixFields(Lone(id, cidr)) + Rename(newId), now);
    RenamedPair(ctx, id, cidr, newId);
    AppliedPrefixUpdate(ctx, Pair(id, cidr, id), id, Rename(newId), now, PrefixFields(Lone(id, cidr)),
                        Lone(newId, cidr));
  }

  lemma SlugIsNamed(id: string)
    requires IsSlug(id)
    ensures id != ""
  {
  }

  lemma SafeIsConflictFree(ctx: Context, st: State)
    requires Safe(ctx, st)
    ensures ConflictFree(SnapshotOf(ctx, st))
  {
    hide ConflictFree;
  }

  lemma AppliedPrefixUpdate(ctx: Context, st: State, id: string, payload: Fields, now: nat, stored: Fields,
                            prefix: Prefix)
    requires StoredFields(st, Prefixes, id) == Some(stored)
    requires ProposedPrefix(ctx, st, stored + payload, Some(id), now) == Some(prefix)
    requires ConflictFree(SnapshotOf(ctx, NextState(st, PrefixRecord(prefix), Some(id))))
    ensures Step(ctx, st, Update(Prefixes, id, payload, now)) == NextState(st, PrefixRecord(prefix), Some(id))
  {
    hide ProposedPrefix, StoredFields, ConflictFree, NextState, Step;
    Consequences.AppliedUpdate(ctx, st, Prefixes, id, payload, now, stored, PrefixRecord(prefix));
  }

  lemma RenamedPair(ctx: Context, id: string, cidr: string, newId: string)
    ensures StoredFields(Pair(id, cidr, id), Prefixes, id) == Some(PrefixFields(Lone(id, cidr)))
    ensures NextState(Pair(id, cidr, id), PrefixRecord(Lone(newId, cidr)), Some(id)) == Pair(newId, cidr, id)
  {
    hide PrefixFields;
    assert Replace([Lone(id, cidr)], PrefixId, id, Lone(newId, cidr)) == [Lone(newId, cidr)];
  }

  lemma SampleParses()
    ensures ParseCidr("2001:db8::/32") == Some(Cidr("2001:db8::", 32))
  {
    hide *;
    ThreeAndTwo();
    Space.CidrSplits("2001:db8::", "32");
    Space.TwoDigits('3', '2');
    assert "2001:db8::" + "/" + "32" == "2001:db8::/32";
    Space.FromParts("2001:db8::/32", "2001:db8::", "32", 32);
  }

  lemma ThreeAndTwo()
    ensures IsDigit('3') && IsDigit('2') && DigitValue('3') == 3 && DigitValue('2') == 2
  {
  }

  lemma SampleText()
    ensures V6Text("2001:db8::/32") && IsSlug("q")
  {
    SampleParses();
    hide ParseCidr;
    assert "2001:db8::/32"[4] == ':';
  }

  /** A concrete run of one step that leaves an address without its prefix. */
  lemma {:induction false} RenameLeavesBehindSample()
    ensures var st := Pair("p", "2001:db8::/32", "p");
            && Safe(Consequences.NOTHING, st) && AllResolve(st)
            && !AllResolve(Step(Consequences.NOTHING, st, Update(Prefixes, "p", Rename("q"), 0)))
  {
    SampleText();
    hide V6Text, Safe, Step, AllResolve, IsSlug, Pair, Rename;
    RenameLeavesBehind(Consequences.NOTHING, "p", "2001:db8::/32", "q", 0);
  }
}
