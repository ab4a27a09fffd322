/** `buildRegistry` of tools/build-registry.js: the `registry.json` of every user directory
    is read in turn, and each module that passes the checks is added to one combined
    `modules` object; a duplicate id keeps the module added first. */
module BuildRegistry {
  import opened Wrappers
  import opened Strings
  import opened Json
  import opened Files

  // ---------------------------------------------------------------------------
  // One module

  /** `@${username}/` */
  function Prefix(username: string): string {
    "@" + username + "/"
  }

  /** Why a module is skipped with `continue`. */
  datatype Rejection = BadPrefix | Duplicate | InvalidStructure | AuthorMismatch

  /** What the body of the module loop does with one entry. */
  datatype Verdict = Accept | Reject(why: Rejection) | Throw(error: TypeError)

  /** A module as the combined registry may hold it: an object with a truthy `name`,
      `author` and `source`, filed under an id that starts with `@{author.github}/`. */
  predicate Attributed(moduleId: string, moduleData: Json) {
    moduleData.JObj? && Truthy(Get(moduleData, "name")) && Truthy(Get(moduleData, "author"))
    && Truthy(Get(moduleData, "source"))
    && var github := OptGet(Get(moduleData, "author"), "github");
       github.Some? && github.value.JStr? && StartsWith(moduleId, Prefix(github.value.s))
  }

  /** The checks of the module loop, in order, against the modules added so far. Reading
      `name` of a `null` module throws. */
  function VerdictOf(username: string, moduleId: string, moduleData: Json, modules: Fields): (v: Verdict)
    ensures v.Accept? ==> Attributed(moduleId, moduleData) && !Truthy(Lookup(modules, moduleId))
    ensures v.Throw? ==> moduleData == JNull
  {
    if !StartsWith(moduleId, Prefix(username)) then Reject(BadPrefix)
    else if Truthy(Lookup(modules, moduleId)) then Reject(Duplicate)
    else if moduleData == JNull then Throw(ReadOfNull("name"))
    else if !Truthy(Get(moduleData, "name")) || !Truthy(Get(moduleData, "author")) || !Truthy(Get(moduleData, "source"))
    then Reject(InvalidStructure)
    else if OptGet(Get(moduleData, "author"), "github") != Some(JStr(username)) then Reject(AuthorMismatch)
    else Accept
  }

  /** A module is accepted exactly when its id starts with `@{username}/`, no module of that
      id was added before, it has a truthy `name`, `author` and `source`, and its
      `author.github` is the user. */
  lemma AcceptedExactly(username: string, moduleId: string, moduleData: Json, modules: Fields)
    ensures VerdictOf(username, moduleId, moduleData, modules).Accept? <==>
              StartsWith(moduleId, Prefix(username)) && !Truthy(Lookup(modules, moduleId))
              && Truthy(Get(moduleData, "name")) && Truthy(Get(moduleData, "author")) && Truthy(Get(moduleData, "source"))
              && OptGet(Get(moduleData, "author"), "github") == Some(JStr(username))
  {
  }

  /** What the combined registry keeps true: distinct ids, each holding a module filed
      under its author. */
  predicate Stored(modules: Fields) {
    DistinctKeys(modules) && forall i :: 0 <= i < |modules| ==> Attributed(modules[i].0, modules[i].1)
  }

  /** In a stored registry an id is taken exactly when some module has it, so an accepted
      module is a new property, appended at the end. */
  lemma AcceptAppends(username: string, moduleId: string, moduleData: Json, modules: Fields)
    requires Stored(modules) && VerdictOf(username, moduleId, moduleData, modules).Accept?
    ensures Put(modules, moduleId, moduleData) == modules + [(moduleId, moduleData)]
    ensures Stored(modules + [(moduleId, moduleData)])
  {
    if HasKey(modules, moduleId) {
      var i := LookupFound(modules, moduleId);
      assert false;
    }
    forall i | 0 <= i < |modules| ensures modules[i].0 != moduleId {
      if modules[i].0 == moduleId { HasKeyAt(modules, i); }
    }
  }

  // ---------------------------------------------------------------------------
  // One user

  /** The combined modules after the loop over a user's entries, the user's `moduleCount`,
      and the error that ended the loop early, if one did. */
  datatype UserState = UserState(modules: Fields, count: nat, error: Option<TypeError>)

  /** The module loop over `es`, starting from `modules`: once an entry throws, the rest
      of the user's entries are not looked at. */
  function UserFold(username: string, es: Fields, modules: Fields): UserState
    decreases |es|
  {
    if |es| == 0 then UserState(modules, 0, None)
    else
      var s := UserFold(username, es[..|es| - 1], modules);
      if s.error.Some? then s
      else
        var (moduleId, moduleData) := es[|es| - 1];
        match VerdictOf(username, moduleId, moduleData, s.modules)
        case Accept => UserState(Put(s.modules, moduleId, moduleData), s.count + 1, None)
        case Reject(_) => s
        case Throw(e) => s.(error := Some(e))
  }

  /** An error ends the loop: later entries change nothing. */
  lemma {:induction false} ErrorStays(username: string, es: Fields, k: nat, modules: Fields)
    requires k <= |es| && UserFold(username, es[..k], modules).error.Some?
    ensures UserFold(username, es, modules) == UserFold(username, es[..k], modules)
    decreases |es|
  {
    if k < |es| {
      var n := |es| - 1;
      assert es[..n][..k] == es[..k];
      ErrorStays(username, es[..n], k, modules);
    } else {
      assert es[..k] == es;
    }
  }

  /** The loop keeps the registry stored, appends exactly the modules it counts, and never
      changes a module that was there before it; every module it adds is filed under
      `@{username}/`. */
  lemma {:induction false} UserFoldStored(username: string, es: Fields, modules: Fields)
    requires Stored(modules)
    ensures var s := UserFold(username, es, modules);
            Stored(s.modules) && |s.modules| == |modules| + s.count
            && s.modules[..|modules|] == modules
            && forall i :: |modules| <= i < |s.modules| ==> StartsWith(s.modules[i].0, Prefix(username))
    decreases |es|
  {
    if |es| > 0 {
      var pre := es[..|es| - 1];
      UserFoldStored(username, pre, modules);
      var s := UserFold(username, pre, modules);
      if s.error.None? {
        var (moduleId, moduleData) := es[|es| - 1];
        if VerdictOf(username, moduleId, moduleData, s.modules).Accept? {
          AcceptAppends(username, moduleId, moduleData, s.modules);
          assert (s.modules + [(moduleId, moduleData)])[..|modules|] == s.modules[..|modules|];
        }
      }
    }
  }

  /** `moduleCount` counts exactly the modules the loop adds. */
  lemma CountIsAdded(username: string, es: Fields, modules: Fields)
    requires Stored(modules)
    ensures UserFold(username, es, modules).count == |UserFold(username, es, modules).modules| - |modules|
  {
    UserFoldStored(username, es, modules);
  }

  /** The first module accepted for an id stays: whatever the loop meets later (a duplicate
      of it included), it is still there, unchanged, at the end. */
  lemma {:induction false} FirstWins(username: string, es: Fields, k: nat, modules: Fields, moduleId: string)
    requires Stored(modules) && k <= |es|
    requires HasKey(UserFold(username, es[..k], modules).modules, moduleId)
    ensures Lookup(UserFold(username, es, modules).modules, moduleId) == Lookup(UserFold(username, es[..k], modules).modules, moduleId)
    decreases |es|
  {
    if k == |es| {
      assert es[..k] == es;
    } else {
      var n := |es| - 1;
      var pre := es[..n];
      assert pre[..k] == es[..k];
      FirstWins(username, pre, k, modules, moduleId);
      StepKeeps(username, es, modules, moduleId);
    }
  }

  /** One more entry leaves every module already added as it was. */
  lemma StepKeeps(username: string, es: Fields, modules: Fields, moduleId: string)
    requires Stored(modules) && |es| > 0
    requires HasKey(UserFold(username, es[..|es| - 1], modules).modules, moduleId)
    ensures Lookup(UserFold(username, es, modules).modules, moduleId) == Lookup(UserFold(username, es[..|es| - 1], modules).modules, moduleId)
  {
    var s := UserFold(username, es[..|es| - 1], modules);
    UserFoldStored(username, es[..|es| - 1], modules);
    if s.error.None? {
      var (id, data) := es[|es| - 1];
      if VerdictOf(username, id, data, s.modules).Accept? {
        assert id != moduleId by {
          var i := LookupFound(s.modules, moduleId);
          assert Attributed(s.modules[i].0, s.modules[i].1);
        }
      }
    }
  }

  /** The inner loop of `buildRegistry` over `Object.entries(userRegistry.modules)`. */
  method AddUserModules(username: string, entries: Fields, modules0: Fields) returns (modules: Fields, moduleCount: nat, error: Option<TypeError>)
    ensures UserState(modules, moduleCount, error) == UserFold(username, entries, modules0)
  {
    modules, moduleCount, error := modules0, 0, None;
    var i := 0;
    while i < |entries|
      invariant 0 <= i <= |entries|
      invariant UserFold(username, entries[..i], modules0) == UserState(modules, moduleCount, None)
    {
      assert entries[..i + 1][..i] == entries[..i];
      var (moduleId, moduleData) := entries[i];
      var verdict := VerdictOf(username, moduleId, moduleData, modules);
      if verdict.Throw? {
        error := Some(verdict.error);
        ErrorStays(username, entries, i + 1, modules0);
        return;
      }
      if verdict.Accept? {
        modules := Put(modules, moduleId, moduleData);
        moduleCount := moduleCount + 1;
      }
      i := i + 1;
    }
    assert entries[..|entries|] == entries;
  }

  /** What became of one user directory. */
  datatype Fault = ParseError | Thrown(error: TypeError)

  datatype UserResult =
    | NoRegistry
    | InvalidFormat
    | WrongAuthor(author: Json)
    | Added(count: nat)
    | Failed(fault: Fault)

  /** One iteration of the user loop: a missing `registry.json` is skipped, an unparsable one
      or a `null` one is caught, one without a truthy `author` and `modules` or with an
      author other than the directory name is skipped, and the modules of the others are
      added. A caught error keeps the modules added before it. */
  function UserStep(username: string, file: Read, modules: Fields): (r: (UserResult, Fields))
    ensures !r.0.Added? && !r.0.Failed? ==> r.1 == modules
    ensures r.0.Failed? && r.0.fault.ParseError? ==> r.1 == modules
  {
    match file
    case Absent => (NoRegistry, modules)
    case Unreadable => (Failed(ParseError), modules)
    case Parsed(registry) =>
      if registry == JNull then (Failed(Thrown(ReadOfNull("author"))), modules)
      else if !Truthy(Get(registry, "author")) || !Truthy(Get(registry, "modules")) then (InvalidFormat, modules)
      else if Get(registry, "author") != Some(JStr(username)) then (WrongAuthor(Get(registry, "author").value), modules)
      else
        var s := UserFold(username, Entries(Get(registry, "modules").value), modules);
        if s.error.Some? then (Failed(Thrown(s.error.value)), s.modules) else (Added(s.count), s.modules)
  }

  /** The user loop keeps the registry stored and only appends to it; whatever a user
      contributes is filed under `@{username}/`. */
  lemma UserStepStored(username: string, file: Read, modules: Fields)
    requires Stored(modules)
    ensures var (res, after) := UserStep(username, file, modules);
            Stored(after) && |after| >= |modules| && after[..|modules|] == modules
            && (forall i :: |modules| <= i < |after| ==> StartsWith(after[i].0, Prefix(username)))
            && (res.Added? ==> res.count == |after| - |modules|)
  {
    if file.Parsed? && file.value != JNull && Truthy(Get(file.value, "modules")) {
      UserFoldStored(username, Entries(Get(file.value, "modules").value), modules);
    }
  }

  /** One iteration of the user loop as a method: the file checks, then the module loop. */
  method ProcessUser(username: string, file: Read, modules0: Fields) returns (result: UserResult, modules: Fields)
    ensures (result, modules) == UserStep(username, file, modules0)
  {
    modules := modules0;
    if file.Absent? {
      return NoRegistry, modules;
    }
    if file.Unreadable? {
      return Failed(ParseError), modules;
    }
    var userRegistry := file.value;
    if userRegistry == JNull {
      return Failed(Thrown(ReadOfNull("author"))), modules;
    }
    if !Truthy(Get(userRegistry, "author")) || !Truthy(Get(userRegistry, "modules")) {
      return InvalidFormat, modules;
    }
    if Get(userRegistry, "author") != Some(JStr(username)) {
      return WrongAuthor(Get(userRegistry, "author").value), modules;
    }
    var moduleCount, error;
    modules, moduleCount, error := AddUserModules(username, Entries(Get(userRegistry, "modules").value), modules0);
    if error.Some? {
      return Failed(Thrown(error.value)), modules;
    }
    return Added(moduleCount), modules;
  }

  // ---------------------------------------------------------------------------
  // All users

  /** `readdirSync(modulesDir).filter(d => d.isDirectory())`, in order. */
  function UserDirs(entries: seq<Node>): (r: seq<Node>)
    ensures |r| <= |entries|
    ensures forall i :: 0 <= i < |r| ==> r[i].Dir? && r[i] in entries
    ensures forall i :: 0 <= i < |entries| && entries[i].Dir? ==> entries[i] in r
    decreases |entries|
  {
    if |entries| == 0 then []
    else
      var rest := UserDirs(entries[1..]);
      assert forall x :: x in entries[1..] ==> x in entries;
      if entries[0].Dir? then [entries[0]] + rest else rest
  }

  /** The user loop over `dirs`, starting from no modules: the combined modules and what
      became of each user, in order. */
  function Build(dirs: seq<Node>): (r: (Fields, seq<(string, UserResult)>))
    ensures |r.1| == |dirs| && forall i :: 0 <= i < |dirs| ==> r.1[i].0 == dirs[i].name
    decreases |dirs|
  {
    if |dirs| == 0 then ([], [])
    else
      var n := |dirs| - 1;
      var (modules, results) := Build(dirs[..n]);
      var d := dirs[n];
      var (result, after) := UserStep(d.name, RegistryFile(d), modules);
      (after, results + [(d.name, result)])
  }

  /** `modules/{username}/registry.json` */
  function RegistryFile(d: Node): Read {
    if d.Dir? then ReadJson(d.children, "registry.json") else Absent
  }

  /** The combined registry is always stored. */
  lemma {:induction false} BuildStored(dirs: seq<Node>)
    ensures Stored(Build(dirs).0)
    decreases |dirs|
  {
    if |dirs| > 0 {
      var n := |dirs| - 1;
      BuildStored(dirs[..n]);
      UserStepStored(dirs[n].name, RegistryFile(dirs[n]), Build(dirs[..n]).0);
    }
  }

  /** A later user never changes or removes a module an earlier user contributed: what the
      first `k` users built is a prefix of the result. */
  lemma {:induction false} BuildExtends(dirs: seq<Node>, k: nat)
    requires k <= |dirs|
    ensures var built := Build(dirs[..k]).0;
            |built| <= |Build(dirs).0| && built == Build(dirs).0[..|built|]
    decreases |dirs|
  {
    if k == |dirs| {
      assert dirs[..k] == dirs;
    } else {
      var n := |dirs| - 1;
      assert dirs[..n][..k] == dirs[..k];
      BuildExtends(dirs[..n], k);
      BuildStored(dirs[..n]);
      var before := Build(dirs[..n]).0;
      UserStepStored(dirs[n].name, RegistryFile(dirs[n]), before);
      var after := Build(dirs).0;
      var built := Build(dirs[..k]).0;
      assert after[..|before|] == before;
      assert after[..|built|] == before[..|built|];
    }
  }

  /** The registry `buildRegistry` writes to modules.json; `updated` stands for the clock. */
  function RegistryJson(modules: Fields, updated: string): Json {
    JObj([("version", JStr("1.0.0")), ("updated", JStr(updated)), ("modules", JObj(modules))])
  }

  /** `buildRegistry`: the user loop over the user directories of `modules/`. */
  method BuildRegistry(entries: seq<Node>, updated: string) returns (registry: Json, report: seq<(string, UserResult)>)
    ensures registry == RegistryJson(Build(UserDirs(entries)).0, updated)
    ensures report == Build(UserDirs(entries)).1
  {
    var userDirs := UserDirs(entries);
    var modules: Fields := [];
    report := [];
    var i := 0;
    while i < |userDirs|
      invariant 0 <= i <= |userDirs|
      invariant Build(userDirs[..i]) == (modules, report)
    {
      assert userDirs[..i + 1][..i] == userDirs[..i];
      var d := userDirs[i];
      var result;
      result, modules := ProcessUser(d.name, RegistryFile(d), modules);
      report := report + [(d.name, result)];
      i := i + 1;
    }
    assert userDirs[..|userDirs|] == userDirs;
    registry := RegistryJson(modules, updated);
  }
}
