/** Backup and restore of the file-backed runtime state. */
module Backup {
  import opened JsText
  import opened Sorting

  datatype Section = Auth | Audit | Events | InventoryData | Jobs | Media | Scheduler | Transfers | Webhooks | Workflows

  const ALL_SECTIONS: seq<Section> :=
    [Auth, Audit, Events, InventoryData, Jobs, Media, Scheduler, Transfers, Webhooks, Workflows]

  function Directory(s: Section): string {
    match s
    case Auth => "auth"
    case Audit => "audit"
    case Events => "events"
    case InventoryData => "inventory"
    case Jobs => "jobs"
    case Media => "media"
    case Scheduler => "scheduler"
    case Transfers => "transfers"
    case Webhooks => "webhooks"
    case Workflows => "workflows"
  }

  datatype Mode = Full | Partial | OtherMode
  datatype Engine = FileStore | Postgres | Mssql | Mariadb | OtherEngine

  /** The files below the source root, by path relative to it. */
  type Files = map<string, string>

  datatype Entry = Entry(path: string, content: string)

  datatype Record = Record(
    id: string,
    mode: Mode,
    engine: Engine,
    sections: seq<Section>,
    archivePath: string,
    checksum: string,
    sizeBytes: nat,
    createdBy: string,
    createdAt: string
  )

  datatype Archive = Archive(record: Record, entries: seq<Entry>)

  datatype Log = Created(backupId: string) | Restored(backupId: string) | Removed(backupId: string)

  datatype Error =
    | InvalidMode
    | NoSections
    | UnsupportedEngine
    | BackupNotFound
    | ArchiveMissing
    | ChecksumMismatch
    | PreviewInvalid
    | RestoreFailed

  datatype Result<+T> = Success(value: T) | Failure(error: Error)

  // ----- sections and paths

  function FirstSegment(path: string): string {
    Split(path, '/')[0]
  }

  /** The path is the section's directory or lies below it. */
  predicate InSection(path: string, s: Section) {
    FirstSegment(path) == Directory(s)
  }

  predicate InSections(path: string, sections: seq<Section>) {
    exists s :: s in sections && InSection(path, s)
  }

  lemma SectionsApart(path: string, s: Section, t: Section)
    requires InSection(path, s) && InSection(path, t)
    ensures s == t
  {
  }

  /** The path is that name or lies below it. */
  predicate Below(path: string, name: string) {
    path == name || name + "/" <= path
  }

  lemma FirstSegmentIff(path: string, name: string)
    requires '/' !in name
    ensures FirstSegment(path) == name <==> Below(path, name)
  {
    if name + "/" <= path {
      SplitFirst(name, '/', path[|name| + 1..]);
      assert path == name + ['/'] + path[|name| + 1..];
    } else if path == name {
      SplitOne(name, '/');
    } else if FirstSegment(path) == name {
      FirstSegmentBelow(path);
    }
  }

  lemma {:induction false} FirstSegmentBelow(path: string)
    ensures Below(path, FirstSegment(path))
  {
    if path != "" && path[0] != '/' {
      FirstSegmentBelow(path[1..]);
      assert path == [path[0]] + path[1..];
    }
  }

  /** The directory of every section, by name. */
  lemma SectionDirectories(path: string)
    ensures InSection(path, Auth) <==> Below(path, "auth")
    ensures InSection(path, Audit) <==> Below(path, "audit")
    ensures InSection(path, Events) <==> Below(path, "events")
    ensures InSection(path, InventoryData) <==> Below(path, "inventory")
    ensures InSection(path, Jobs) <==> Below(path, "jobs")
    ensures InSection(path, Media) <==> Below(path, "media")
    ensures InSection(path, Scheduler) <==> Below(path, "scheduler")
    ensures InSection(path, Transfers) <==> Below(path, "transfers")
    ensures InSection(path, Webhooks) <==> Below(path, "webhooks")
    ensures InSection(path, Workflows) <==> Below(path, "workflows")
  {
    FirstSegmentIff(path, "auth");
    FirstSegmentIff(path, "audit");
    FirstSegmentIff(path, "events");
    FirstSegmentIff(path, "inventory");
    FirstSegmentIff(path, "jobs");
    FirstSegmentIff(path, "media");
    FirstSegmentIff(path, "scheduler");
    FirstSegmentIff(path, "transfers");
    FirstSegmentIff(path, "webhooks");
    FirstSegmentIff(path, "workflows");
    hide FirstSegment, Below;
  }

  /** A file of the runtime state: one below any of the ten directories. */
  predicate RuntimeFile(path: string) {
    || Below(path, "auth") || Below(path, "audit") || Below(path, "events") || Below(path, "inventory")
    || Below(path, "jobs") || Below(path, "media") || Below(path, "scheduler") || Below(path, "transfers")
    || Below(path, "webhooks") || Below(path, "workflows")
  }

  lemma EverySection(s: Section)
    ensures s in ALL_SECTIONS
  {
    var all := ALL_SECTIONS;
    assert all[0] in all && all[1] in all && all[2] in all && all[3] in all && all[4] in all;
    assert all[5] in all && all[6] in all && all[7] in all && all[8] in all && all[9] in all;
  }

  lemma {:induction false} RuntimeFileIff(path: string)
    ensures RuntimeFile(path) <==> exists s :: InSection(path, s)
  {
    SectionDirectories(path);
    hide InSection, Below;
    forall s: Section | InSection(path, s) ensures RuntimeFile(path) {
      assert s == Auth || s == Audit || s == Events || s == InventoryData || s == Jobs || s == Media
          || s == Scheduler || s == Transfers || s == Webhooks || s == Workflows;
    }
    assert RuntimeFile(path) ==>
        || InSection(path, Auth) || InSection(path, Audit) || InSection(path, Events) || InSection(path, InventoryData)
        || InSection(path, Jobs) || InSection(path, Media) || InSection(path, Scheduler) || InSection(path, Transfers)
        || InSection(path, Webhooks) || InSection(path, Workflows);
  }

  /** A full backup covers every section and so every file of the runtime state; a partial one exactly
      the sections asked for. */
  lemma SectionsCovered(mode: Mode, sections: seq<Section>, path: string)
    ensures mode == Full ==> forall s: Section :: s in ResolveSections(mode, sections)
    ensures mode == Full ==> (InSections(path, ResolveSections(mode, sections)) <==> RuntimeFile(path))
    ensures mode != Full ==> forall s :: s in ResolveSections(mode, sections) <==> s in sections
  {
    RuntimeFileIff(path);
    forall s: Section ensures s in ALL_SECTIONS {
      EverySection(s);
    }
    hide InSection, RuntimeFile, ALL_SECTIONS;
  }

  /** `[...new Set(sections)]` */
  function Deduplicate(sections: seq<Section>): (r: seq<Section>)
    ensures NoDuplicates(r) && forall s :: s in r <==> s in sections
  {
    if sections == [] then []
    else
      var rest := Deduplicate(sections[..|sections| - 1]);
      if sections[|sections| - 1] in rest then rest else rest + [sections[|sections| - 1]]
  }

  function ResolveSections(mode: Mode, sections: seq<Section>): seq<Section> {
    if mode == Full then ALL_SECTIONS else Deduplicate(sections)
  }

  function ValidateBackupRequest(mode: Mode, sections: seq<Section>, engine: Engine): Result<seq<Section>> {
    if mode == OtherMode then Failure(InvalidMode)
    else if ResolveSections(mode, sections) == [] then Failure(NoSections)
    else if engine == OtherEngine then Failure(UnsupportedEngine)
    else Success(ResolveSections(mode, sections))
  }

  /** A path that climbs or is absolute is refused. */
  predicate SafePath(path: string) {
    && (forall i :: 0 <= i < |path| - 1 ==> !(path[i] == '.' && path[i + 1] == '.'))
    && (path != "" ==> path[0] != '/' && path[0] != '\\')
  }

  /** A path is safe exactly when ".." stands nowhere in it and it begins with no slash or backslash. */
  lemma SafePathIff(path: string)
    ensures SafePath(path) <==>
            !(exists front, rest :: path == front + ".." + rest) && !("/" <= path) && !("\\" <= path)
  {
    forall i | 0 <= i < |path| - 1 && path[i] == '.' && path[i + 1] == '.'
      ensures path == path[..i] + ".." + path[i + 2..]
    {
    }
    forall front: string, rest: string | path == front + ".." + rest
      ensures path[|front|] == '.' && path[|front| + 1] == '.' && |front| < |path| - 1
    {
    }
  }

  // ----- entries

  function EntryMap(entries: seq<Entry>): Files {
    if entries == [] then map[]
    else EntryMap(entries[..|entries| - 1])[entries[|entries| - 1].path := entries[|entries| - 1].content]
  }

  function Within(files: Files, sections: seq<Section>): Files {
    map p | p in files && InSections(p, sections) :: files[p]
  }

  function Without(files: Files, sections: seq<Section>): Files {
    map p | p in files && !InSections(p, sections) :: files[p]
  }

  ghost predicate DistinctPaths(entries: seq<Entry>) {
    forall i, j :: 0 <= i < j < |entries| ==> entries[i].path != entries[j].path
  }

  /** The entries are exactly the files at the given paths, each path once. */
  ghost predicate Holds(entries: seq<Entry>, files: Files, paths: set<string>) {
    && DistinctPaths(entries)
    && (forall e :: e in entries ==> e.path in paths && e.path in files && files[e.path] == e.content)
    && (forall p :: p in paths ==> p in files && Entry(p, files[p]) in entries)
  }

  /** The entries are exactly the files of the sections. */
  ghost predicate Captures(entries: seq<Entry>, files: Files, sections: seq<Section>) {
    Holds(entries, files, Within(files, sections).Keys)
  }

  /** What a backup of these sections, or a full one, is to hold: exactly those files of the source tree. */
  ghost predicate Archived(mode: Mode, sections: seq<Section>, files: Files, entries: seq<Entry>) {
    && DistinctPaths(entries)
    && forall e :: e in entries <==>
                     && e.path in files && files[e.path] == e.content
                     && if mode == Full then RuntimeFile(e.path) else InSections(e.path, sections)
  }

  lemma {:induction false} CapturedIsArchived(mode: Mode, sections: seq<Section>, files: Files, entries: seq<Entry>)
    requires Captures(entries, files, ResolveSections(mode, sections))
    ensures Archived(mode, sections, files, entries)
  {
    forall path
      ensures InSections(path, ResolveSections(mode, sections)) <==>
              if mode == Full then RuntimeFile(path) else InSections(path, sections)
    {
      SectionsCovered(mode, sections, path);
    }
    hide InSection, RuntimeFile, ResolveSections, DistinctPaths, InSections;
    var resolved := ResolveSections(mode, sections);
    forall e: Entry | e.path in files && files[e.path] == e.content && InSections(e.path, resolved)
      ensures e in entries
    {
      assert Entry(e.path, files[e.path]) == e;
    }
  }

  lemma HoldsOneMore(entries: seq<Entry>, files: Files, paths: set<string>, p: string)
    requires Holds(entries, files, paths) && p in files && p !in paths
    ensures Holds(entries + [Entry(p, files[p])], files, paths + {p})
  {
    var next := entries + [Entry(p, files[p])];
    forall i, j | 0 <= i < j < |next| ensures next[i].path != next[j].path {
      assert i < |entries| ==> next[i] in entries;
    }
    assert forall e :: e in next <==> e in entries || e == Entry(p, files[p]);
  }

  lemma {:induction false} EntryMapFacts(entries: seq<Entry>)
    ensures forall p :: p in EntryMap(entries) <==> exists e :: e in entries && e.path == p
    ensures DistinctPaths(entries) ==> forall e :: e in entries ==> EntryMap(entries)[e.path] == e.content
  {
    if entries != [] {
      var front, last := entries[..|entries| - 1], entries[|entries| - 1];
      EntryMapFacts(front);
      assert forall e :: e in entries <==> e in front || e == last;
      forall p ensures p in EntryMap(entries) <==> exists e :: e in entries && e.path == p {
        if p == last.path {
          assert last in entries;
        }
      }
      if DistinctPaths(entries) {
        forall e | e in entries ensures EntryMap(entries)[e.path] == e.content {
          if e in front {
            var k :| 0 <= k < |front| && front[k] == e;
            assert entries[k].path != entries[|entries| - 1].path;
          }
        }
      }
    }
  }

  /** Captured entries rebuild the sections. */
  lemma {:induction false} CapturedRebuilds(entries: seq<Entry>, files: Files, sections: seq<Section>)
    requires Captures(entries, files, sections)
    ensures EntryMap(entries) == Within(files, sections)
  {
    EntryMapFacts(entries);
    hide EntryMap;
    hide DistinctPaths;
    var part := Within(files, sections);
    forall p ensures p in EntryMap(entries) <==> p in part {
      if p in part {
        assert Entry(p, files[p]) in entries;
      }
    }
    forall p | p in EntryMap(entries) ensures EntryMap(entries)[p] == part[p] {
      assert Entry(p, files[p]) in entries;
    }
  }

  function ByPath(collate: (string, string) -> int): (Entry, Entry) -> bool {
    (left: Entry, right: Entry) => collate(left.path, right.path) <= 0
  }

  /** The entries are sorted by path, where the collation orders their paths at all. */
  ghost predicate InOrder(entries: seq<Entry>, collate: (string, string) -> int) {
    PreorderOn((set e | e in entries), ByPath(collate)) ==>
      forall i, j :: 0 <= i < j < |entries| ==> collate(entries[i].path, entries[j].path) <= 0
  }

  /** Walk the sections' directories, then sort the entries by path. */
  method CollectEntries(files: Files, sections: seq<Section>, collate: (string, string) -> int)
    returns (entries: seq<Entry>)
    requires NoDuplicates(sections)
    ensures Captures(entries, files, sections)
    ensures InOrder(entries, collate)
  {
    var collected: seq<Entry> := [];
    for i := 0 to |sections|
      invariant Captures(collected, files, sections[..i])
    {
      collected := CollectSection(files, sections[..i], sections[i], collected);
      assert sections[..i + 1] == sections[..i] + [sections[i]];
    }
    assert sections[..|sections|] == sections;
    entries := SortBy(collected, ByPath(collate));
    SortKeepsCapture(collected, files, sections, collate);
    SortByFacts(collected, ByPath(collate));
    ghost var all := set e | e in entries;
    if PreorderOn(all, ByPath(collate)) {
      SortBySorts(collected, ByPath(collate), all);
    }
  }

  lemma {:induction false} SortKeepsCapture(collected: seq<Entry>, files: Files, sections: seq<Section>,
                                            collate: (string, string) -> int)
    requires Captures(collected, files, sections)
    ensures Captures(SortBy(collected, ByPath(collate)), files, sections)
  {
    hide Within;
    SortByFacts(collected, ByPath(collate));
    var r := SortBy(collected, ByPath(collate));
    assert NoDuplicates(collected);
    forall i, j | 0 <= i < j < |r| ensures r[i].path != r[j].path {
      assert r[i] in collected && r[j] in collected && r[i] != r[j];
    }
  }

  method CollectSection(files: Files, done: seq<Section>, section: Section, collected: seq<Entry>)
    returns (entries: seq<Entry>)
    requires Captures(collected, files, done) && section !in done
    ensures Captures(entries, files, done + [section])
  {
    entries := collected;
    var pending := set p | p in files && InSection(p, section);
    ghost var total := Within(files, done + [section]).Keys;
    WithinOneMore(files, done, section);
    assert total - pending == Within(files, done).Keys;
    hide InSection;
    hide Holds;
    while pending != {}
      invariant pending <= total && total <= files.Keys
      invariant Holds(entries, files, total - pending)
      decreases pending
    {
      var p :| p in pending;
      HoldsOneMore(entries, files, total - pending, p);
      assert total - pending + {p} == total - (pending - {p});
      entries := entries + [Entry(p, files[p])];
      pending := pending - {p};
    }
    assert total - {} == total;
  }

  lemma WithinOneMore(files: Files, done: seq<Section>, section: Section)
    requires section !in done
    ensures Within(files, done + [section]).Keys ==
            Within(files, done).Keys + (set p | p in files && InSection(p, section))
    ensures Within(files, done).Keys !! (set p | p in files && InSection(p, section))
  {
    forall p | p in Within(files, done) ensures !InSection(p, section) {
      var s :| s in done && InSection(p, s);
      if InSection(p, section) {
        SectionsApart(p, s, section);
      }
    }
    forall p ensures InSections(p, done + [section]) <==> InSections(p, done) || InSection(p, section) {
      OneMoreSection(p, done, section);
    }
  }

  lemma OneMoreSection(p: string, done: seq<Section>, section: Section)
    ensures InSections(p, done + [section]) <==> InSections(p, done) || InSection(p, section)
  {
    assert section in done + [section];
  }
}
