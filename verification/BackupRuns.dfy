/** Runs of the backup store: what every sequence of commands makes of the source tree and of the backups. */
module BackupRuns {
  import opened Wrappers
  import opened Backup
  import opened BackupStore
  import Inventory = InventoryState

  datatype Command =
    | Create(mode: Mode, sections: seq<Section>, engine: Engine, createdBy: string, backupId: string, createdAt: string)
    | Delete(backupId: string)
    | Restore(backupId: string, faults: Faults)
    | Change(files: Files)

  // ----- the meaning of the commands

  /** The source tree and the backups that read back, by id. */
  datatype Shelf = Shelf(source: Files, held: map<string, Archive>)

  ghost predicate CanRestore(parse: string -> Option<Inventory.State>, archive: Archive, faults: Faults) {
    && PreviewAccepts(archive.entries, parse)
    && AllPathsSafe(archive.entries)
    && NoFault(faults, |archive.record.sections| + |archive.entries|)
  }

  /** The archive of a new backup holds the files its sections have in the source tree. */
  ghost predicate TakenFrom(source: Files, id: string, sections: seq<Section>, archive: Archive) {
    archive.record.id == id && archive.record.sections == sections && Captures(archive.entries, source, sections)
  }

  /** A refused request changes nothing; a create adds a backup of the source tree as it is; a restore puts
      the files of a held backup in the place of its sections if everything goes well. */
  ghost predicate Step(parse: string -> Option<Inventory.State>, before: Shelf, command: Command, after: Shelf) {
    match command
    case Create(mode, sections, engine, _, id, _) =>
      if ValidateBackupRequest(mode, sections, engine).Failure? then after == before
      else exists archive :: TakenFrom(before.source, id, ResolveSections(mode, sections), archive)
                             && after == before.(held := before.held[id := archive])
    case Delete(id) => after == before.(held := before.held - {id})
    case Restore(id, faults) =>
      if id in before.held && CanRestore(parse, before.held[id], faults) then
        var archive := before.held[id];
        after == before.(source := RestoredFiles(before.source, archive.record.sections, archive.entries))
      else after == before
    case Change(files) => after == before.(source := files)
  }

  /** The commands, one after another, lead from one shelf to the other. */
  ghost predicate Leads(parse: string -> Option<Inventory.State>, before: Shelf, commands: seq<Command>, after: Shelf)
    decreases |commands|
  {
    if commands == [] then after == before
    else
      var n := |commands| - 1;
      exists mid :: Leads(parse, before, commands[..n], mid) && Step(parse, mid, commands[n], after)
  }

  lemma {:induction false} LeadsOn(parse: string -> Option<Inventory.State>, before: Shelf, commands: seq<Command>,
                                   i: nat, mid: Shelf, after: Shelf)
    requires i < |commands| && Leads(parse, before, commands[..i], mid) && Step(parse, mid, commands[i], after)
    ensures Leads(parse, before, commands[..i + 1], after)
  {
    hide Step;
    assert commands[..i + 1][..i] == commands[..i];
  }

  lemma {:induction false} OneThenMore(parse: string -> Option<Inventory.State>, before: Shelf, first: Command,
                                       mid: Shelf, rest: seq<Command>, after: Shelf)
    requires Step(parse, before, first, mid) && Leads(parse, mid, rest, after)
    ensures Leads(parse, before, [first] + rest, after)
    decreases |rest|
  {
    hide Step;
    var all := [first] + rest;
    if rest == [] {
      assert all[..0] == [] && Leads(parse, before, all[..0], before);
    } else {
      var n := |rest| - 1;
      var last :| Leads(parse, mid, rest[..n], last) && Step(parse, last, rest[n], after);
      OneThenMore(parse, before, first, mid, rest[..n], last);
      assert all[..n + 1] == [first] + rest[..n];
    }
  }

  // ----- the store has that meaning

  function IdsOf(backups: seq<Record>): (ids: set<string>)
    ensures forall b :: b in backups ==> b.id in ids
  {
    set i | 0 <= i < |backups| :: backups[i].id
  }

  ghost function HeldIn(hash: Archive -> string, backups: seq<Record>, archives: map<string, Archive>):
    (held: map<string, Archive>)
  {
    map id | id in IdsOf(backups) && ReadArchiveFrom(hash, backups, archives, id).Success? ::
      ReadArchiveFrom(hash, backups, archives, id).value
  }

  ghost function ShelfOf(store: FileBackedBackupStore): Shelf
    reads store
  {
    Shelf(store.source, HeldIn(store.hash, store.backups, store.archives))
  }

  /** The held backups are exactly those that read back. */
  lemma HeldIff(hash: Archive -> string, backups: seq<Record>, archives: map<string, Archive>, id: string)
    ensures var held, read := HeldIn(hash, backups, archives), ReadArchiveFrom(hash, backups, archives, id);
            (id in held <==> read.Success?) && (id in held ==> held[id] == read.value)
  {
    hide ComputeChecksum;
  }

  /** What is held is told by what reads back. */
  lemma SameHeld(hash: Archive -> string, backups: seq<Record>, archives: map<string, Archive>,
                 held: map<string, Archive>)
    requires forall id :: id in held <==> ReadArchiveFrom(hash, backups, archives, id).Success?
    requires forall id :: id in held ==> held[id] == ReadArchiveFrom(hash, backups, archives, id).value
    ensures HeldIn(hash, backups, archives) == held
  {
    forall id ensures id in HeldIn(hash, backups, archives) <==> id in held {
      HeldIff(hash, backups, archives, id);
    }
    hide ReadArchiveFrom;
  }

  /** One id now reads as some archive, or not at all, and the others as before. */
  lemma HeldAfter(hash: Archive -> string, backups: seq<Record>, archives: map<string, Archive>,
                  backups': seq<Record>, archives': map<string, Archive>, id: string)
    requires forall other :: other != id ==>
               ReadArchiveFrom(hash, backups', archives', other) == ReadArchiveFrom(hash, backups, archives, other)
    ensures var held, now := HeldIn(hash, backups, archives), ReadArchiveFrom(hash, backups', archives', id);
            HeldIn(hash, backups', archives') == if now.Success? then held[id := now.value] else held - {id}
  {
    hide ReadArchiveFrom, IdsOf;
    var held, now := HeldIn(hash, backups, archives), ReadArchiveFrom(hash, backups', archives', id);
    forall other ensures other in held <==> ReadArchiveFrom(hash, backups, archives, other).Success? {
      HeldIff(hash, backups, archives, other);
    }
    SameHeld(hash, backups', archives', if now.Success? then held[id := now.value] else held - {id});
  }

  lemma HeldNow(store: FileBackedBackupStore, before: Shelf, backups: seq<Record>, archives: map<string, Archive>,
                id: string)
    requires before.held == HeldIn(store.hash, backups, archives)
    requires forall other :: other != id ==>
               store.ReadArchive(other) == ReadArchiveFrom(store.hash, backups, archives, other)
    ensures var now := store.ReadArchive(id);
            ShelfOf(store).held == if now.Success? then before.held[id := now.value] else before.held - {id}
  {
    hide ReadArchiveFrom, HeldIn;
    forall other | other != id
      ensures ReadArchiveFrom(store.hash, store.backups, store.archives, other)
           == ReadArchiveFrom(store.hash, backups, archives, other)
    {
      assert store.ReadArchive(other) == ReadArchiveFrom(store.hash, backups, archives, other);
    }
    HeldAfter(store.hash, backups, archives, store.backups, store.archives, id);
  }

  lemma Unlisted(hash: Archive -> string, backups: seq<Record>, archives: map<string, Archive>, id: string)
    requires forall b :: b in backups ==> b.id != id
    ensures ReadArchiveFrom(hash, backups, archives, id).Failure?
  {
  }

  /** Every command does to the store what it means. */
  method RunCommand(store: FileBackedBackupStore, command: Command, collate: (string, string) -> int)
    requires store.Valid()
    requires command.Create? ==> forall b :: b in store.backups ==> b.id != command.backupId
    modifies store
    ensures store.Valid()
    ensures forall b :: b in store.backups ==> b in old(store.backups) || (command.Create? && b.id == command.backupId)
    ensures forall id :: !(command.Delete? && command.backupId == id) && old(store.ReadArchive(id)).Success? ==>
              store.ReadArchive(id) == old(store.ReadArchive(id))
    ensures Step(store.parse, old(ShelfOf(store)), command, ShelfOf(store))
  {
    hide Durable, HeldIn, RestoredFiles, Captures, ResolveSections, ReadArchiveFrom;
    ghost var before, backups, archives := ShelfOf(store), store.backups, store.archives;
    match command {
      case Create(mode, sections, engine, createdBy, backupId, createdAt) =>
        Unlisted(store.hash, store.backups, store.archives, backupId);
        var created := store.CreateBackup(mode, sections, engine, createdBy, backupId, createdAt, collate);
        HeldNow(store, before, backups, archives, backupId);
        if created.Failure? {
          assert ShelfOf(store) == old(ShelfOf(store));
        } else {
          RequestResolves(mode, sections, engine);
          assert TakenFrom(store.source, backupId, ResolveSections(mode, sections),
                           store.ReadArchive(backupId).value);
        }
      case Delete(backupId) =>
        var deleted := store.DeleteBackup(backupId);
        Unlisted(store.hash, store.backups, store.archives, backupId);
        HeldNow(store, before, backups, archives, backupId);
      case Restore(backupId, faults) =>
        HeldIff(store.hash, store.backups, store.archives, backupId);
        var restored := store.RestoreBackup(backupId, faults);
      case Change(files) =>
        store.source := files;
    }
  }

  lemma RequestResolves(mode: Mode, sections: seq<Section>, engine: Engine)
    requires ValidateBackupRequest(mode, sections, engine).Success?
    ensures ValidateBackupRequest(mode, sections, engine).value == ResolveSections(mode, sections)
  {
  }

  /** Every creation takes an id that no backup has had before. */
  predicate FreshCreates(commands: seq<Command>, ids: set<string>) {
    if commands == [] then true
    else if commands[0].Create? then
      commands[0].backupId !in ids && FreshCreates(commands[1..], ids + {commands[0].backupId})
    else FreshCreates(commands[1..], ids)
  }

  /** Over every run of creates, deletes, restores with any failures and changes of the sources, the source
      tree and the backups become what the commands lead to, and a backup that is not deleted reads back as
      it was stored. */
  method RunCommands(store: FileBackedBackupStore, commands: seq<Command>, keep: string,
                     collate: (string, string) -> int)
    requires store.Valid() && store.ReadArchive(keep).Success?
    requires FreshCreates(commands, IdsOf(store.backups))
    requires forall c :: c in commands && c.Delete? ==> c.backupId != keep
    modifies store
    ensures store.Valid()
    ensures store.ReadArchive(keep) == old(store.ReadArchive(keep))
    ensures Leads(store.parse, old(ShelfOf(store)), commands, ShelfOf(store))
  {
    hide Durable, IdsOf, Step, ShelfOf, ReadArchiveFrom;
    ghost var ids := IdsOf(store.backups);
    assert commands[0..] == commands;
    for i := 0 to |commands|
      invariant store.Valid()
      invariant store.ReadArchive(keep) == old(store.ReadArchive(keep))
      invariant forall b :: b in store.backups ==> b.id in ids
      invariant FreshCreates(commands[i..], ids)
      invariant Leads(store.parse, old(ShelfOf(store)), commands[..i], ShelfOf(store))
    {
      assert commands[i..][1..] == commands[i + 1..] && commands[i] in commands;
      ghost var mid := ShelfOf(store);
      RunCommand(store, commands[i], collate);
      LeadsOn(store.parse, old(ShelfOf(store)), commands, i, mid, ShelfOf(store));
      if commands[i].Create? {
        ids := ids + {commands[i].backupId};
      }
    }
    assert commands[..|commands|] == commands;
  }

  // ----- round trip

  /** The whole round trip on one store: back up in any mode and with any engine, run any commands that
      do not delete the backup, restore without faults. It succeeds exactly when the request is valid
      and the backed-up files were restorable, and then brings the sections back and keeps everything
      else as the run left it: `changed` is the source tree that the commands lead to. */
  method RoundTrip(store: FileBackedBackupStore, mode: Mode, sections: seq<Section>, engine: Engine,
                   createdBy: string, backupId: string, createdAt: string, commands: seq<Command>,
                   collate: (string, string) -> int)
    returns (result: Result<seq<Section>>, changed: Files)
    requires store.Valid()
    requires backupId !in IdsOf(store.backups) && FreshCreates(commands, IdsOf(store.backups) + {backupId})
    requires forall c :: c in commands && c.Delete? ==> c.backupId != backupId
    modifies store
    ensures result.Success? <==>
            && ValidateBackupRequest(mode, sections, engine).Success?
            && Restorable(Within(old(store.source), ResolveSections(mode, sections)), store.parse)
    ensures result.Success? ==>
              && result.value == ResolveSections(mode, sections)
              && Within(store.source, result.value) == Within(old(store.source), result.value)
              && Without(store.source, result.value) == Without(changed, result.value)
    ensures result.Success? ==>
              forall path ::
                if Requested(mode, sections, path) then AgreeAt(old(store.source), store.source, path)
                else AgreeAt(changed, store.source, path)
    ensures result.Failure? ==> store.source == changed
    ensures if ValidateBackupRequest(mode, sections, engine).Failure? then changed == old(store.source)
            else LeadsToSource(store.parse, old(ShelfOf(store)),
                               [Create(mode, sections, engine, createdBy, backupId, createdAt)] + commands, changed)
  {
    hide PreviewAccepts, AllPathsSafe, Captures, Restorable, InSections, RestoredFiles, ComputeChecksum, Durable;
    hide ResolveSections, Leads, HeldIn, IdsOf, RuntimeFile, AgreeAt, Archived, InOrder;
    ghost var start, backups, archives := ShelfOf(store), store.backups, store.archives;
    var created := store.CreateBackup(mode, sections, engine, createdBy, backupId, createdAt, collate);
    if created.Failure? {
      return Failure(created.error), store.source;
    }
    RequestResolves(mode, sections, engine);
    HeldNow(store, start, backups, archives, backupId);
    ghost var archive := store.archives[created.value.archivePath];
    ghost var backedUp, mid := store.source, ShelfOf(store);
    ghost var first := Create(mode, sections, engine, createdBy, backupId, createdAt);
    assert TakenFrom(backedUp, backupId, ResolveSections(mode, sections), archive);
    assert Step(store.parse, start, first, mid);
    RestorableFromFiles(archive.entries, store.source, created.value.sections, store.parse);
    IdsAppended(old(store.backups), created.value);
    RunCommands(store, commands, backupId, collate);
    changed := store.source;
    OneThenMore(store.parse, start, first, mid, commands, ShelfOf(store));
    RestoreUndoesChanges(archive.entries, backedUp, changed, created.value.sections);
    result := store.RestoreBackup(backupId, (k: nat) => None);
    if result.Success? {
      RequestedAgree(mode, sections, backedUp, changed, store.source);
    }
  }

  /** The request covers the file: a full one every runtime file, a partial one those of its sections. */
  ghost predicate Requested(mode: Mode, sections: seq<Section>, path: string) {
    if mode == Full then RuntimeFile(path) else InSections(path, sections)
  }

  lemma RequestedAgree(mode: Mode, sections: seq<Section>, backedUp: Files, changed: Files, restored: Files)
    requires Within(restored, ResolveSections(mode, sections)) == Within(backedUp, ResolveSections(mode, sections))
    requires Without(restored, ResolveSections(mode, sections)) == Without(changed, ResolveSections(mode, sections))
    ensures forall path ::
              if Requested(mode, sections, path) then AgreeAt(backedUp, restored, path)
              else AgreeAt(changed, restored, path)
  {
    var resolved := ResolveSections(mode, sections);
    forall path
      ensures if Requested(mode, sections, path) then AgreeAt(backedUp, restored, path)
              else AgreeAt(changed, restored, path)
    {
      SectionsCovered(mode, sections, path);
      SameSections(path, resolved, sections);
      hide RuntimeFile, InSections, ResolveSections;
      assert path in Within(restored, resolved) <==> path in Within(backedUp, resolved);
      assert path in Without(restored, resolved) <==> path in Without(changed, resolved);
      if InSections(path, resolved) && path in restored {
        assert Within(restored, resolved)[path] == Within(backedUp, resolved)[path];
      } else if path in restored {
        assert Without(restored, resolved)[path] == Without(changed, resolved)[path];
      }
    }
  }

  lemma SameSections(path: string, a: seq<Section>, b: seq<Section>)
    ensures (forall s :: s in a <==> s in b) ==> (InSections(path, a) <==> InSections(path, b))
  {
    hide InSection;
  }

  ghost predicate LeadsToSource(parse: string -> Option<Inventory.State>, before: Shelf, commands: seq<Command>,
                                source: Files)
  {
    exists after :: Leads(parse, before, commands, after) && after.source == source
  }

  lemma IdsAppended(backups: seq<Record>, record: Record)
    ensures IdsOf(backups + [record]) == IdsOf(backups) + {record.id}
  {
    var longer := backups + [record];
    assert longer[|backups|] == record;
    forall i | 0 <= i < |backups| ensures longer[i] == backups[i] {
    }
    forall id ensures id in IdsOf(longer) <==> id in IdsOf(backups) + {record.id} {
      if id in IdsOf(backups) {
        var i :| 0 <= i < |backups| && backups[i].id == id;
        assert longer[i].id == id;
      }
    }
  }
}
