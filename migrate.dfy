/** tools/migrate-to-versions.js: each flat record `modules/{author}/{module}.json` is split
    into `metadata.json`, `{version}.json` and `tags.json` in a directory of its own, and the
    flat file is renamed to `{module}.json.backup`. */
module Migrate {
  import opened Wrappers
  import opened Strings
  import opened Json
  import opened Files

  // ---------------------------------------------------------------------------
  // The three records of one module

  /** The members of the `metadata` literal; `now` stands for `new Date().toISOString()`. */
  function MetadataMembers(m: Json, now: string): seq<(string, Option<Json>)> {
    [("name", Get(m, "name")),
     ("author", Get(m, "author")),
     ("about", Some(Or(Get(m, "about"), JStr("")))),
     ("owners", Some(JArr([OrNull(Get(m, "author"))]))),
     ("maintainers", Some(JArr([]))),
     ("created", Some(Or(Get(m, "publishedAt"), JStr(now)))),
     ("createdBy", Some(Or(Get(m, "publishedBy"), JNull))),
     ("firstPublishPR", Some(JNull))]
  }

  /** The metadata literal names each member once. */
  lemma MetadataNames(m: Json, now: string)
    ensures DistinctNames(MetadataMembers(m, now))
  {
  }

  /** `metadata.json` as written (`undefined` members are dropped). */
  function Metadata(m: Json, now: string): Json {
    JObj(Compact(MetadataMembers(m, now)))
  }

  /** The metadata keeps the record's name and author; the owners are the author alone,
      whatever `ownerGithubUserIds` holds; nobody maintains the module yet and no pull
      request is recorded. */
  lemma MetadataIdentity(m: Json, now: string)
    ensures var md := Metadata(m, now);
            Get(md, "name") == Get(m, "name") && Get(md, "author") == Get(m, "author")
            && Get(md, "owners") == Some(JArr([OrNull(Get(m, "author"))]))
            && Get(md, "maintainers") == Some(JArr([]))
            && Get(md, "firstPublishPR") == Some(JNull)
  {
    var ms := MetadataMembers(m, now);
    MetadataNames(m, now);
    CompactMember(ms, 0);
    CompactMember(ms, 1);
    CompactMember(ms, 3);
    CompactMember(ms, 4);
    CompactMember(ms, 7);
  }

  /** `about` defaults to the empty string, `createdBy` to `null` and `created` to the
      clock; truthy values are kept. */
  lemma MetadataDefaults(m: Json, now: string)
    ensures var md := Metadata(m, now);
            (Truthy(Get(m, "about")) ==> Get(md, "about") == Get(m, "about"))
            && (!Truthy(Get(m, "about")) ==> Get(md, "about") == Some(JStr("")))
            && (Truthy(Get(m, "publishedBy")) ==> Get(md, "createdBy") == Get(m, "publishedBy"))
            && (!Truthy(Get(m, "publishedBy")) ==> Get(md, "createdBy") == Some(JNull))
            && (Truthy(Get(m, "publishedAt")) ==> Get(md, "created") == Get(m, "publishedAt"))
            && (!Truthy(Get(m, "publishedAt")) ==> Get(md, "created") == Some(JStr(now)))
  {
    var ms := MetadataMembers(m, now);
    MetadataNames(m, now);
    CompactMember(ms, 2);
    CompactMember(ms, 5);
    CompactMember(ms, 6);
  }

  /** `moduleData.version || '1.0.0'` */
  function VersionOf(m: Json): (v: Json)
    ensures Truthy(Get(m, "version")) ==> Some(v) == Get(m, "version")
    ensures !Truthy(Get(m, "version")) ==> v == JStr("1.0.0")
  {
    Or(Get(m, "version"), JStr("1.0.0"))
  }

  /** The members of the `versionData` literal. */
  function VersionMembers(m: Json, now: string): seq<(string, Option<Json>)> {
    [("version", Some(VersionOf(m))),
     ("needs", Some(Or(Get(m, "needs"), JArr([])))),
     ("license", Some(Or(Get(m, "license"), JStr("CC0")))),
     ("mlldVersion", Some(Or(Get(m, "mlldVersion"), JStr(">=1.0.0")))),
     ("source", Get(m, "source")),
     ("dependencies", Some(Or(Get(m, "dependencies"), JObj([])))),
     ("keywords", Some(Or(Get(m, "keywords"), JArr([])))),
     ("repo", Get(m, "repo")),
     ("bugs", Get(m, "bugs")),
     ("homepage", Get(m, "homepage")),
     ("publishedAt", Some(Or(Get(m, "publishedAt"), JStr(now)))),
     ("publishedBy", Some(Or(Get(m, "publishedBy"), JNull)))]
  }

  /** The version literal names each member once. */
  lemma VersionNames(m: Json, now: string)
    ensures DistinctNames(VersionMembers(m, now))
  {
  }

  /** `{version}.json` as written. */
  function VersionData(m: Json, now: string): Json {
    JObj(Compact(VersionMembers(m, now)))
  }

  /** The version file copies `source`, `repo`, `bugs` and `homepage` unchanged (absent
      stays absent) and records the migrated version. */
  lemma VersionCopies(m: Json, now: string)
    ensures var vd := VersionData(m, now);
            Get(vd, "version") == Some(VersionOf(m))
            && Get(vd, "source") == Get(m, "source") && Get(vd, "repo") == Get(m, "repo")
            && Get(vd, "bugs") == Get(m, "bugs") && Get(vd, "homepage") == Get(m, "homepage")
  {
    var ms := VersionMembers(m, now);
    VersionNames(m, now);
    CompactMember(ms, 0);
    CompactMember(ms, 4);
    CompactMember(ms, 7);
    CompactMember(ms, 8);
    CompactMember(ms, 9);
  }

  /** Falsy `needs`, `license`, `mlldVersion`, `dependencies` and `keywords` become `[]`,
      `CC0`, `>=1.0.0`, `{}` and `[]`. */
  lemma VersionDefaults(m: Json, now: string)
    ensures var vd := VersionData(m, now);
            (!Truthy(Get(m, "needs")) ==> Get(vd, "needs") == Some(JArr([])))
            && (!Truthy(Get(m, "license")) ==> Get(vd, "license") == Some(JStr("CC0")))
            && (!Truthy(Get(m, "mlldVersion")) ==> Get(vd, "mlldVersion") == Some(JStr(">=1.0.0")))
            && (!Truthy(Get(m, "dependencies")) ==> Get(vd, "dependencies") == Some(JObj([])))
            && (!Truthy(Get(m, "keywords")) ==> Get(vd, "keywords") == Some(JArr([])))
  {
    var ms := VersionMembers(m, now);
    VersionNames(m, now);
    CompactMember(ms, 1);
    CompactMember(ms, 2);
    CompactMember(ms, 3);
    CompactMember(ms, 5);
    CompactMember(ms, 6);
  }

  /** Truthy `needs`, `license`, `mlldVersion`, `dependencies` and `keywords` are kept. */
  lemma VersionKept(m: Json, now: string)
    ensures var vd := VersionData(m, now);
            (Truthy(Get(m, "needs")) ==> Get(vd, "needs") == Get(m, "needs"))
            && (Truthy(Get(m, "license")) ==> Get(vd, "license") == Get(m, "license"))
            && (Truthy(Get(m, "mlldVersion")) ==> Get(vd, "mlldVersion") == Get(m, "mlldVersion"))
            && (Truthy(Get(m, "dependencies")) ==> Get(vd, "dependencies") == Get(m, "dependencies"))
            && (Truthy(Get(m, "keywords")) ==> Get(vd, "keywords") == Get(m, "keywords"))
  {
    var ms := VersionMembers(m, now);
    VersionNames(m, now);
    CompactMember(ms, 1);
    CompactMember(ms, 2);
    CompactMember(ms, 3);
    CompactMember(ms, 5);
    CompactMember(ms, 6);
  }

  /** `tags.json`: the migrated version is both the latest and the stable one. */
  function Tags(version: Json): (t: Json)
    ensures Get(t, "latest") == Some(version) && Get(t, "stable") == Some(version)
  {
    var fs := [("latest", version), ("stable", version)];
    LookupAt(fs, 0);
    LookupAt(fs, 1);
    JObj(fs)
  }

  // ---------------------------------------------------------------------------
  // File names

  /** `file.replace('.json', '')`: the first `.json` is removed. */
  function ModuleName(file: string): string {
    ReplaceFirst(file, ".json", "")
  }

  /** A file `n.json` whose stem has no dot migrates to the module `n`. */
  lemma ModuleNameOfStem(n: string)
    requires '.' !in n
    ensures ModuleName(n + ".json") == n
  {
    var s := n + ".json";
    assert OccursAt(s, ".json", |n|) by { assert s[|n|..|n| + 5] == ".json"; }
    forall j | 0 <= j < |n| ensures !OccursAt(s, ".json", j) {
      assert s[j] == n[j];
    }
    assert s[..|n|] == n && s[|n| + 5..] == "";
  }

  /** `${version}.json`: the version file is named after the version's string form. */
  function VersionFileName(version: Json): (f: string)
    ensures EndsWith(f, ".json") && f[..|f| - 5] == Show(version)
  {
    Show(version) + ".json"
  }

  /** `oldPath + '.backup'`: the backup keeps the file's name in front and no longer ends
      in `.json`, so a later run does not pick it up. */
  function BackupName(file: string): (b: string)
    ensures StartsWith(b, file) && !EndsWith(b, ".json")
  {
    var b := file + ".backup";
    assert b[..|file|] == file;
    assert b[|b| - 1] == 'p';
    b
  }

  // ---------------------------------------------------------------------------
  // One file

  /** What the migration does to the file system, paths relative to `modules/`. */
  datatype Effect =
    | MakeDir(dir: seq<string>)
    | WriteFile(path: seq<string>, content: Json)
    | Rename(from: seq<string>, to: seq<string>)

  /** What makes the migration fail: `readFile` on a directory, text `JSON.parse` rejects,
      or reading a property of a `null` record. */
  datatype Fault = IsDirectory(path: seq<string>) | NotJson(path: seq<string>) | Crash(error: TypeError)

  /** The effects so far, the `migratedCount` counter and the fault that ended the run. */
  datatype Run = Run(effects: seq<Effect>, migrated: nat, fault: Option<Fault>)

  /** The body of the inner loop for a `.json` entry of `author`'s directory. */
  function MigrateFile(author: string, file: Node, now: string): (r: Run)
    ensures r.fault.None? <==> file.File? && file.json.Some? && file.json.value != JNull
    ensures r.migrated == if r.fault.None? then 1 else 0
  {
    var dir := [author, ModuleName(file.name)];
    match file
    case Dir(_, _) => Run([], 0, Some(IsDirectory([author, file.name])))
    case File(_, None) => Run([], 0, Some(NotJson([author, file.name])))
    case File(_, Some(m)) =>
      if m == JNull then Run([MakeDir(dir)], 0, Some(Crash(ReadOfNull("name"))))
      else
        var v := VersionOf(m);
        Run([MakeDir(dir),
             WriteFile(dir + ["metadata.json"], Metadata(m, now)),
             WriteFile(dir + [VersionFileName(v)], VersionData(m, now)),
             WriteFile(dir + ["tags.json"], Tags(v)),
             Rename([author, file.name], [author, BackupName(file.name)])], 1, None)
  }

  // ---------------------------------------------------------------------------
  // The loops of migrateRegistry

  /** The inner loop over the entries `files` of `author`'s directory, from `start`; only
      names ending in `.json` are migrated, and a fault ends the run. */
  function AuthorRun(author: string, files: seq<Node>, start: Run, now: string): Run
    decreases |files|
  {
    if |files| == 0 then start
    else
      var n := |files| - 1;
      var r := AuthorRun(author, files[..n], start, now);
      if r.fault.Some? || !EndsWith(files[n].name, ".json") then r
      else
        var step := MigrateFile(author, files[n], now);
        Run(r.effects + step.effects, r.migrated + step.migrated, step.fault)
  }

  /** The outer loop over the entries of `modules/`; entries that are not directories are
      skipped. */
  function RegistryRun(authors: seq<Node>, now: string): Run
    decreases |authors|
  {
    if |authors| == 0 then Run([], 0, None)
    else
      var n := |authors| - 1;
      var r := RegistryRun(authors[..n], now);
      if r.fault.Some? || !authors[n].Dir? then r
      else AuthorRun(authors[n].name, authors[n].children, r, now)
  }

  /** The `.json` names among `files`. */
  function JsonFiles(files: seq<Node>): nat
    decreases |files|
  {
    if |files| == 0 then 0
    else JsonFiles(files[..|files| - 1]) + (if EndsWith(files[|files| - 1].name, ".json") then 1 else 0)
  }

  /** The `.json` names in the author directories among `authors`. */
  function RegistryJsonFiles(authors: seq<Node>): nat
    decreases |authors|
  {
    if |authors| == 0 then 0
    else
      var d := authors[|authors| - 1];
      RegistryJsonFiles(authors[..|authors| - 1]) + (if d.Dir? then JsonFiles(d.children) else 0)
  }

  /** A fault stays and nothing is added after it. */
  lemma {:induction false} AuthorRunFromFault(author: string, files: seq<Node>, start: Run, now: string)
    requires start.fault.Some?
    ensures AuthorRun(author, files, start, now) == start
    decreases |files|
  {
    if |files| > 0 {
      AuthorRunFromFault(author, files[..|files| - 1], start, now);
    }
  }

  /** A run of the inner loop without a fault counts each `.json` entry once and keeps
      the earlier effects. */
  lemma {:induction false} AuthorRunCounts(author: string, files: seq<Node>, start: Run, now: string)
    requires AuthorRun(author, files, start, now).fault.None?
    ensures var r := AuthorRun(author, files, start, now);
            start.fault.None? && r.migrated == start.migrated + JsonFiles(files)
            && |start.effects| <= |r.effects| && r.effects[..|start.effects|] == start.effects
    decreases |files|
  {
    if |files| > 0 {
      var n := |files| - 1;
      AuthorRunCounts(author, files[..n], start, now);
      var r0 := AuthorRun(author, files[..n], start, now);
      var r := AuthorRun(author, files, start, now);
      assert r.effects[..|r0.effects|] == r0.effects;
      assert r.effects[..|r0.effects|][..|start.effects|] == r.effects[..|start.effects|];
    }
  }

  /** `migratedCount` is the number of `.json` files in author directories when the run
      ends without a fault. */
  lemma {:induction false} MigratedCount(authors: seq<Node>, now: string)
    requires RegistryRun(authors, now).fault.None?
    ensures RegistryRun(authors, now).migrated == RegistryJsonFiles(authors)
    decreases |authors|
  {
    if |authors| > 0 {
      var n := |authors| - 1;
      var r := RegistryRun(authors[..n], now);
      if r.fault.None? {
        MigratedCount(authors[..n], now);
        if authors[n].Dir? {
          AuthorRunCounts(authors[n].name, authors[n].children, r, now);
        }
      }
    }
  }

  /** Once the inner loop has a fault, later entries change nothing. */
  lemma {:induction false} AuthorFaultStays(author: string, files: seq<Node>, start: Run, now: string, k: nat)
    requires k <= |files| && AuthorRun(author, files[..k], start, now).fault.Some?
    ensures AuthorRun(author, files, start, now) == AuthorRun(author, files[..k], start, now)
    decreases |files|
  {
    if k == |files| {
      assert files[..k] == files;
    } else {
      var pre := files[..|files| - 1];
      assert pre[..k] == files[..k];
      AuthorFaultStays(author, pre, start, now, k);
    }
  }

  /** Once the outer loop has a fault, later authors change nothing. */
  lemma {:induction false} RegistryFaultStays(authors: seq<Node>, now: string, k: nat)
    requires k <= |authors| && RegistryRun(authors[..k], now).fault.Some?
    ensures RegistryRun(authors, now) == RegistryRun(authors[..k], now)
    decreases |authors|
  {
    if k < |authors| {
      var n := |authors| - 1;
      assert authors[..n][..k] == authors[..k];
      RegistryFaultStays(authors[..n], now, k);
    } else {
      assert authors[..k] == authors;
    }
  }

  /** The inner loop of `migrateRegistry`. */
  method MigrateAuthor(author: string, files: seq<Node>, start: Run, now: string) returns (run: Run)
    requires start.fault.None?
    ensures run == AuthorRun(author, files, start, now)
  {
    run := start;
    var i := 0;
    while i < |files|
      invariant 0 <= i <= |files|
      invariant run == AuthorRun(author, files[..i], start, now) && run.fault.None?
    {
      assert files[..i + 1][..i] == files[..i];
      if EndsWith(files[i].name, ".json") {
        var step := MigrateFile(author, files[i], now);
        run := Run(run.effects + step.effects, run.migrated + step.migrated, step.fault);
        if step.fault.Some? {
          AuthorFaultStays(author, files, start, now, i + 1);
          return;
        }
      }
      i := i + 1;
    }
    assert files[..|files|] == files;
  }

  /** `migrateRegistry` over the entries of `modules/`. */
  method MigrateRegistry(authors: seq<Node>, now: string) returns (run: Run)
    ensures run == RegistryRun(authors, now)
  {
    run := Run([], 0, None);
    var i := 0;
    while i < |authors|
      invariant 0 <= i <= |authors|
      invariant run == RegistryRun(authors[..i], now) && run.fault.None?
    {
      assert authors[..i + 1][..i] == authors[..i];
      if authors[i].Dir? {
        run := MigrateAuthor(authors[i].name, authors[i].children, run, now);
        if run.fault.Some? {
          RegistryFaultStays(authors, now, i + 1);
          return;
        }
      }
      i := i + 1;
    }
    assert authors[..|authors|] == authors;
  }

  // ---------------------------------------------------------------------------
  // checkDirectory and the script

  /** An author directory already holds a directory whose name does not start with `.`. */
  predicate AlreadyMigrated(authors: seq<Node>) {
    exists i, j :: 0 <= i < |authors| && authors[i].Dir? && 0 <= j < |authors[i].children|
                   && authors[i].children[j].Dir? && !StartsWith(authors[i].children[j].name, ".")
  }

  /** Whether an author directory's entries include a versioned module directory. */
  method HasModuleDir(files: seq<Node>) returns (found: bool)
    ensures found <==> exists j :: 0 <= j < |files| && files[j].Dir? && !StartsWith(files[j].name, ".")
  {
    var j := 0;
    while j < |files|
      invariant 0 <= j <= |files|
      invariant forall j' :: 0 <= j' < j ==> !(files[j'].Dir? && !StartsWith(files[j'].name, "."))
    {
      if files[j].Dir? && !StartsWith(files[j].name, ".") {
        return true;
      }
      j := j + 1;
    }
    return false;
  }

  /** How the script ends before or after `migrateRegistry`. */
  datatype Outcome = NotRegistry | AlreadyDone | Finished(run: Run)

  /** `process.exit(1)` outside a registry or after a failed migration, 0 otherwise. */
  function ExitCode(o: Outcome): int {
    match o
    case NotRegistry => 1
    case AlreadyDone => 0
    case Finished(run) => if run.fault.Some? then 1 else 0
  }

  /** `checkDirectory()` then `migrateRegistry()`; `root` lists the names in the repository
      root. */
  function ScriptOutcome(root: seq<string>, authors: seq<Node>, now: string): (o: Outcome)
    ensures o.Finished? <==> "modules" in root && "tools" in root && !AlreadyMigrated(authors)
    ensures o.NotRegistry? <==> !("modules" in root && "tools" in root)
  {
    if "modules" !in root || "tools" !in root then NotRegistry
    else if AlreadyMigrated(authors) then AlreadyDone
    else Finished(RegistryRun(authors, now))
  }

  /** `checkDirectory`: stops the script when the root is not a registry or when the
      registry is already migrated. */
  method CheckDirectory(root: seq<string>, authors: seq<Node>) returns (o: Option<Outcome>)
    ensures o.Some? <==> "modules" !in root || "tools" !in root || AlreadyMigrated(authors)
    ensures o.Some? ==> o.value == (if "modules" !in root || "tools" !in root then NotRegistry else AlreadyDone)
  {
    if "modules" !in root || "tools" !in root {
      return Some(NotRegistry);
    }
    var i := 0;
    while i < |authors|
      invariant 0 <= i <= |authors|
      invariant forall i', j :: 0 <= i' < i && authors[i'].Dir? && 0 <= j < |authors[i'].children|
                  ==> !(authors[i'].children[j].Dir? && !StartsWith(authors[i'].children[j].name, "."))
    {
      if authors[i].Dir? {
        var found := HasModuleDir(authors[i].children);
        if found {
          return Some(AlreadyDone);
        }
      }
      i := i + 1;
    }
    return None;
  }

  /** The script as a whole. */
  method Script(root: seq<string>, authors: seq<Node>, now: string) returns (o: Outcome)
    ensures o == ScriptOutcome(root, authors, now)
  {
    var stop := CheckDirectory(root, authors);
    if stop.Some? {
      return stop.value;
    }
    var run := MigrateRegistry(authors, now);
    return Finished(run);
  }
}
