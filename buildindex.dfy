/** `buildIndexes` of scripts/build-index.js: every user directory's `registry.json` and
    `advisories.json` are gathered into a module index, a server index, an advisory list and
    a search index that projects the two indexes. */
module BuildIndex {
  import opened Wrappers
  import opened Strings
  import opened Json
  import opened Files

  // ---------------------------------------------------------------------------
  // Entries of the module and server indexes

  /** The entries of the root directory the loop skips with `continue`. */
  predicate Skipped(entry: Node) {
    !entry.Dir? || StartsWith(entry.name, ".") || entry.name == "_index" || entry.name == "scripts"
  }

  /** `${username}/${name}` */
  function Key(username: string, name: string): string {
    username + "/" + name
  }

  /** Keys of users without `/` in their names tell the user and the name apart, so two
      users never write the same key. */
  lemma KeyInjective(u1: string, n1: string, u2: string, n2: string)
    requires '/' !in u1 && '/' !in u2 && Key(u1, n1) == Key(u2, n2)
    ensures u1 == u2 && n1 == n2
  {
    IndexOfAfterSegment(u1, '/', n1);
    IndexOfAfterSegment(u2, '/', n2);
    assert Key(u1, n1) == u1 + ['/'] + n1 && Key(u2, n2) == u2 + ['/'] + n2;
    assert u1 == Key(u1, n1)[..|u1|];
    assert n1 == Key(u1, n1)[|u1| + 1..];
  }

  /** `{...item, author: username, fullName: key}`: the record's own properties, with the
      directory's user as author whatever the record says, and its key as full name. */
  function IndexEntry(username: string, name: string, item: Json): (r: Json)
    ensures Get(r, "author") == Some(JStr(username)) && Get(r, "fullName") == Some(JStr(Key(username, name)))
    ensures forall k :: k != "author" && k != "fullName" ==> Get(r, k) == Lookup(Entries(item), k)
  {
    JObj(Spread(Some(item), "author", JStr(username), "fullName", JStr(Key(username, name))))
  }

  /** An index entry as the indexes hold it: its full name is its key, and its author is
      the part of the key before `/`. */
  predicate Indexed(key: string, entry: Json) {
    Get(entry, "fullName") == Some(JStr(key))
    && match Get(entry, "author")
       case Some(JStr(a)) => StartsWith(key, a + "/")
       case _ => false
  }

  /** Every key of an index holds an entry filed under it, and no key is there twice. */
  ghost predicate WellKeyed(all: Fields) {
    DistinctKeys(all) && forall k :: HasKey(all, k) ==> Indexed(k, Lookup(all, k).value)
  }

  /** The loop `for (const [name, x] of Object.entries(...)) all[key] = entry` over `es`. */
  function AddEntries(username: string, es: Fields, all: Fields): Fields
    decreases |es|
  {
    if |es| == 0 then all
    else
      var n := |es| - 1;
      Put(AddEntries(username, es[..n], all), Key(username, es[n].0), IndexEntry(username, es[n].0, es[n].1))
  }

  /** An entry is filed under its own key. */
  lemma EntryIndexed(username: string, name: string, item: Json)
    ensures Indexed(Key(username, name), IndexEntry(username, name, item))
  {
    var key := Key(username, name);
    assert key[..|username + "/"|] == username + "/";
  }

  /** Assigning an entry filed under its key keeps an index well keyed. */
  lemma PutWellKeyed(all: Fields, key: string, entry: Json)
    requires WellKeyed(all) && Indexed(key, entry)
    ensures WellKeyed(Put(all, key, entry))
  {
    PutDistinct(all, key, entry);
    var r := Put(all, key, entry);
    forall k | HasKey(r, k) ensures Indexed(k, Lookup(r, k).value) {
      if k != key {
        assert Lookup(r, k) == Lookup(all, k);
      }
    }
  }

  /** The loops keep an index well keyed. */
  lemma {:induction false} AddEntriesWellKeyed(username: string, es: Fields, all: Fields)
    requires WellKeyed(all)
    ensures WellKeyed(AddEntries(username, es, all))
    decreases |es|
  {
    if |es| > 0 {
      var n := |es| - 1;
      AddEntriesWellKeyed(username, es[..n], all);
      EntryIndexed(username, es[n].0, es[n].1);
      PutWellKeyed(AddEntries(username, es[..n], all), Key(username, es[n].0), IndexEntry(username, es[n].0, es[n].1));
    }
  }

  /** One user's keys differ when the names differ. */
  lemma KeyNameInjective(username: string, n1: string, n2: string)
    requires Key(username, n1) == Key(username, n2)
    ensures n1 == n2
  {
    assert n1 == Key(username, n1)[|username| + 1..];
    assert n2 == Key(username, n2)[|username| + 1..];
  }

  /** Each record of a user is in the index under `{username}/{name}`, as its entry, when
      the names of the user's records are distinct. */
  lemma {:induction false} EntryStored(username: string, es: Fields, all: Fields, i: nat)
    requires DistinctKeys(es) && i < |es|
    ensures Lookup(AddEntries(username, es, all), Key(username, es[i].0)) == Some(IndexEntry(username, es[i].0, es[i].1))
    decreases |es|
  {
    var n := |es| - 1;
    var before := AddEntries(username, es[..n], all);
    var key := Key(username, es[n].0);
    assert AddEntries(username, es, all) == Put(before, key, IndexEntry(username, es[n].0, es[n].1));
    if i < n {
      DistinctPrefix(es, n);
      assert es[..n][i] == es[i];
      EntryStored(username, es[..n], all, i);
      if key == Key(username, es[i].0) {
        KeyNameInjective(username, es[n].0, es[i].0);
        assert false;
      }
    }
  }

  /** Keys outside `{username}/...` are not touched by the user's loop: one user's records
      never replace another's. */
  lemma {:induction false} OtherKeysKept(username: string, es: Fields, all: Fields, k: string)
    requires !StartsWith(k, username + "/")
    ensures Lookup(AddEntries(username, es, all), k) == Lookup(all, k)
    decreases |es|
  {
    if |es| > 0 {
      var n := |es| - 1;
      OtherKeysKept(username, es[..n], all, k);
      var key := Key(username, es[n].0);
      assert key[..|username + "/"|] == username + "/";
    }
  }

  // ---------------------------------------------------------------------------
  // Advisories

  /** Why `buildIndexes` stops: `JSON.parse` rejecting a file, a property read on `null`,
      or `for...of` over a value that is not iterable. */
  datatype Fault = InvalidJson(file: string) | Crash(error: TypeError) | NotIterable(value: Json)

  /** `for (const advisory of data.advisories || [])`: an array gives its elements and a
      string its characters; any other truthy value is not iterable. */
  function AdvisoryItems(o: Option<Json>): (r: Result<seq<Json>, Fault>)
    ensures !Truthy(o) ==> r == Success([])
    ensures Truthy(o) && o.value.JArr? ==> r == Success(o.value.items)
    ensures Truthy(o) && o.value.JStr? ==> r.Success? && |r.value| == |o.value.s|
    ensures r.Failure? <==> Truthy(o) && !o.value.JArr? && !o.value.JStr?
  {
    if !Truthy(o) then Success([])
    else if o.value.JArr? then Success(o.value.items)
    else if o.value.JStr? then Success(seq(|o.value.s|, i requires 0 <= i < |o.value.s| => JStr([o.value.s[i]])))
    else Failure(NotIterable(o.value))
  }

  /** `{...advisory, author: username}` for each advisory, in order. */
  function Tagged(username: string, items: seq<Json>): (r: seq<Json>)
    ensures |r| == |items|
    ensures forall i :: 0 <= i < |r| ==> Get(r[i], "author") == Some(JStr(username))
    ensures forall i, k :: 0 <= i < |r| && k != "author" ==> Get(r[i], k) == Lookup(Entries(items[i]), k)
  {
    seq(|items|, i requires 0 <= i < |items| => JObj(Put(Entries(items[i]), "author", JStr(username))))
  }

  /** Pushing tagged advisories keeps the earlier ones and adds one per item, each by the
      user. */
  lemma AppendTagged(before: seq<Json>, username: string, items: seq<Json>)
    ensures var after := before + Tagged(username, items);
            |after| == |before| + |items| && after[..|before|] == before
            && forall i :: |before| <= i < |after| ==> Get(after[i], "author") == Some(JStr(username))
  {
    var tagged := Tagged(username, items);
    var after := before + tagged;
    assert after[..|before|] == before;
    assert forall i :: |before| <= i < |after| ==> after[i] == tagged[i - |before|];
  }

  // ---------------------------------------------------------------------------
  // The directory loop

  /** What the directory loop has gathered so far. */
  datatype Collected = Collected(modules: Fields, servers: Fields, advisories: seq<Json>)

  /** The `registry.json` part of one iteration: the modules and the servers it lists. */
  function AddRegistry(d: Node, c: Collected): (r: Result<Collected, Fault>)
    requires d.Dir?
    ensures r.Success? ==> r.value.advisories == c.advisories
    ensures ReadJson(d.children, "registry.json").Absent? ==> r == Success(c)
  {
    match ReadJson(d.children, "registry.json")
    case Absent => Success(c)
    case Unreadable => Failure(InvalidJson("registry.json"))
    case Parsed(data) =>
      if data == JNull then Failure(Crash(ReadOfNull("modules")))
      else Success(c.(modules := AddEntries(d.name, EntriesOr(Get(data, "modules")), c.modules),
                      servers := AddEntries(d.name, EntriesOr(Get(data, "servers")), c.servers)))
  }

  /** The `registry.json` part keeps both indexes well keyed. */
  lemma AddRegistryWellKeyed(d: Node, c: Collected)
    requires d.Dir? && AddRegistry(d, c).Success? && WellKeyed(c.modules) && WellKeyed(c.servers)
    ensures WellKeyed(AddRegistry(d, c).value.modules) && WellKeyed(AddRegistry(d, c).value.servers)
  {
    var file := ReadJson(d.children, "registry.json");
    if file.Parsed? {
      AddEntriesWellKeyed(d.name, EntriesOr(Get(file.value, "modules")), c.modules);
      AddEntriesWellKeyed(d.name, EntriesOr(Get(file.value, "servers")), c.servers);
    }
  }

  /** The `advisories.json` part of one iteration: the advisories are appended, all tagged
      with the user, as many as the file lists. */
  function AddAdvisories(d: Node, c: Collected): (r: Result<Collected, Fault>)
    requires d.Dir?
    ensures r.Success? ==> r.value.modules == c.modules && r.value.servers == c.servers
    ensures r.Success? ==> |c.advisories| <= |r.value.advisories| && r.value.advisories[..|c.advisories|] == c.advisories
    ensures r.Success? ==> forall i :: |c.advisories| <= i < |r.value.advisories| ==> Get(r.value.advisories[i], "author") == Some(JStr(d.name))
    ensures ReadJson(d.children, "advisories.json").Absent? ==> r == Success(c)
    ensures r.Success? && ReadJson(d.children, "advisories.json").Parsed? ==>
              AdvisoryItems(Get(ReadJson(d.children, "advisories.json").value, "advisories")).Success?
              && |r.value.advisories| == |c.advisories| + |AdvisoryItems(Get(ReadJson(d.children, "advisories.json").value, "advisories")).value|
  {
    match ReadJson(d.children, "advisories.json")
    case Absent => Success(c)
    case Unreadable => Failure(InvalidJson("advisories.json"))
    case Parsed(data) =>
      if data == JNull then Failure(Crash(ReadOfNull("advisories")))
      else
        match AdvisoryItems(Get(data, "advisories"))
        case Failure(f) => Failure(f)
        case Success(items) =>
          AppendTagged(c.advisories, d.name, items);
          Success(c.(advisories := c.advisories + Tagged(d.name, items)))
  }

  /** One iteration of the directory loop: skipped entries change nothing; otherwise the
      modules and servers of `registry.json`, then the advisories of `advisories.json`,
      appended after the earlier users' ones and all tagged with the user. */
  function UserStep(d: Node, c: Collected): (r: Result<Collected, Fault>)
    ensures Skipped(d) ==> r == Success(c)
    ensures r.Success? ==> |c.advisories| <= |r.value.advisories| && r.value.advisories[..|c.advisories|] == c.advisories
    ensures r.Success? ==> forall i :: |c.advisories| <= i < |r.value.advisories| ==> Get(r.value.advisories[i], "author") == Some(JStr(d.name))
  {
    if Skipped(d) then Success(c)
    else
      match AddRegistry(d, c)
      case Failure(f) => Failure(f)
      case Success(c1) => AddAdvisories(d, c1)
  }

  /** One iteration keeps both indexes well keyed. */
  lemma UserStepWellKeyed(d: Node, c: Collected)
    requires UserStep(d, c).Success? && WellKeyed(c.modules) && WellKeyed(c.servers)
    ensures WellKeyed(UserStep(d, c).value.modules) && WellKeyed(UserStep(d, c).value.servers)
  {
    if !Skipped(d) {
      AddRegistryWellKeyed(d, c);
    }
  }

  /** The directory loop over `entries`; the first error ends the whole build. */
  function Collect(entries: seq<Node>): Result<Collected, Fault>
    decreases |entries|
  {
    if |entries| == 0 then Success(Collected([], [], []))
    else
      match Collect(entries[..|entries| - 1])
      case Failure(f) => Failure(f)
      case Success(c) => UserStep(entries[|entries| - 1], c)
  }

  /** An error ends the loop: later entries change nothing. */
  lemma {:induction false} FaultStays(entries: seq<Node>, k: nat)
    requires k <= |entries| && Collect(entries[..k]).Failure?
    ensures Collect(entries) == Collect(entries[..k])
    decreases |entries|
  {
    if k < |entries| {
      var n := |entries| - 1;
      assert entries[..n][..k] == entries[..k];
      FaultStays(entries[..n], k);
    } else {
      assert entries[..k] == entries;
    }
  }

  /** Advisories are kept in directory order: those of the first `k` entries come first,
      none dropped. */
  lemma {:induction false} AdvisoriesInOrder(entries: seq<Node>, k: nat)
    requires k <= |entries| && Collect(entries).Success?
    ensures Collect(entries[..k]).Success?
    ensures var early := Collect(entries[..k]).value.advisories;
            var all := Collect(entries).value.advisories;
            |early| <= |all| && all[..|early|] == early
    decreases |entries|
  {
    if k == |entries| {
      assert entries[..k] == entries;
    } else {
      var n := |entries| - 1;
      assert entries[..n][..k] == entries[..k];
      AdvisoriesInOrder(entries[..n], k);
      var early := Collect(entries[..k]).value.advisories;
      var mid := Collect(entries[..n]).value.advisories;
      var all := Collect(entries).value.advisories;
      assert all[..|mid|][..|early|] == all[..|early|];
    }
  }

  /** Both indexes the loop gathers are well keyed. */
  lemma {:induction false} CollectWellKeyed(entries: seq<Node>)
    requires Collect(entries).Success?
    ensures WellKeyed(Collect(entries).value.modules) && WellKeyed(Collect(entries).value.servers)
    decreases |entries|
  {
    if |entries| > 0 {
      var n := |entries| - 1;
      CollectWellKeyed(entries[..n]);
      UserStepWellKeyed(entries[n], Collect(entries[..n]).value);
    }
  }

  // ---------------------------------------------------------------------------
  // The search index

  /** The search entry of a module (`description`, `tags`, `author`) or of a server (also
      `capabilities`); properties the record lacks are left out of the JSON. */
  function Summary(item: Json, server: bool): Json {
    var base := [("description", Get(item, "description")), ("tags", Get(item, "tags")), ("author", Get(item, "author"))];
    JObj(Compact(if server then base + [("capabilities", Get(item, "capabilities"))] else base))
  }

  /** The loop `for (const [name, x] of Object.entries(all)) search[name] = summary` over
      `all`. */
  function Project(all: Fields, server: bool): Fields
    decreases |all|
  {
    if |all| == 0 then []
    else
      var n := |all| - 1;
      Put(Project(all[..n], server), all[n].0, Summary(all[n].1, server))
  }

  /** Over an index with distinct keys, the search index has the same keys in the same
      order, each with the summary of its entry. */
  lemma {:induction false} ProjectSameKeys(all: Fields, server: bool)
    requires DistinctKeys(all)
    ensures var r := Project(all, server);
            |r| == |all| && forall i :: 0 <= i < |all| ==> r[i] == (all[i].0, Summary(all[i].1, server))
    decreases |all|
  {
    if |all| > 0 {
      var n := |all| - 1;
      var pre := all[..n];
      DistinctPrefix(all, n);
      ProjectSameKeys(pre, server);
      var acc := Project(pre, server);
      if HasKey(acc, all[n].0) {
        var i := LookupFound(acc, all[n].0);
        assert false;
      }
      var r := Project(all, server);
      assert r == acc + [(all[n].0, Summary(all[n].1, server))];
      forall i | 0 <= i < |all| ensures r[i] == (all[i].0, Summary(all[i].1, server)) {
        if i < n {
          assert r[i] == acc[i] && pre[i] == all[i];
        }
      }
    }
  }

  // ---------------------------------------------------------------------------
  // The written files

  datatype Indexes = Indexes(modules: Json, servers: Json, search: Json, advisories: Json)

  /** The four files `buildIndexes` writes under `_index/`; `generated` stands for the clock. */
  function IndexFiles(c: Collected, generated: string): Indexes {
    Indexes(
      JObj([("version", JStr("1.0.0")), ("generated", JStr(generated)), ("count", JNum(|c.modules|)), ("modules", JObj(c.modules))]),
      JObj([("version", JStr("1.0.0")), ("generated", JStr(generated)), ("count", JNum(|c.servers|)), ("servers", JObj(c.servers))]),
      JObj([("version", JStr("1.0.0")), ("generated", JStr(generated)),
            ("modules", JObj(Project(c.modules, false))), ("servers", JObj(Project(c.servers, true)))]),
      JObj([("version", JStr("1.0.0")), ("generated", JStr(generated)), ("count", JNum(|c.advisories|)), ("advisories", JArr(c.advisories))]))
  }

  /** Each `count` is the number of keys (all distinct) or elements of what it counts. */
  lemma CountsAreSizes(entries: seq<Node>, generated: string)
    requires Collect(entries).Success?
    ensures var c := Collect(entries).value;
            var ix := IndexFiles(c, generated);
            DistinctKeys(c.modules) && DistinctKeys(c.servers)
            && Get(ix.modules, "count") == Some(JNum(|KeyList(c.modules)|))
            && Get(ix.servers, "count") == Some(JNum(|KeyList(c.servers)|))
            && Get(ix.advisories, "count") == Some(JNum(|c.advisories|))
  {
    CollectWellKeyed(entries);
    var ix := IndexFiles(Collect(entries).value, generated);
    LookupAt(ix.modules.fields, 2);
    LookupAt(ix.servers.fields, 2);
    LookupAt(ix.advisories.fields, 2);
  }

  /** The search index has exactly the module and server keys of the full indexes. */
  lemma SearchMatchesIndex(entries: seq<Node>)
    requires Collect(entries).Success?
    ensures var c := Collect(entries).value;
            KeyList(Project(c.modules, false)) == KeyList(c.modules)
            && KeyList(Project(c.servers, true)) == KeyList(c.servers)
  {
    var c := Collect(entries).value;
    CollectWellKeyed(entries);
    ProjectSameKeys(c.modules, false);
    ProjectSameKeys(c.servers, true);
  }

  /** `buildIndexes`: the files it writes, or the error that stops it before it writes any. */
  function BuildIndexesOf(entries: seq<Node>, generated: string): Result<Indexes, Fault> {
    match Collect(entries)
    case Failure(f) => Failure(f)
    case Success(c) => Success(IndexFiles(c, generated))
  }

  // ---------------------------------------------------------------------------
  // The loops

  /** The loop over the entries of `data.modules || {}` (or of servers). */
  method AddEntriesLoop(username: string, es: Fields, all0: Fields) returns (all: Fields)
    ensures all == AddEntries(username, es, all0)
  {
    all := all0;
    var i := 0;
    while i < |es|
      invariant 0 <= i <= |es|
      invariant all == AddEntries(username, es[..i], all0)
    {
      assert es[..i + 1][..i] == es[..i];
      var (name, item) := es[i];
      all := Put(all, Key(username, name), IndexEntry(username, name, item));
      i := i + 1;
    }
    assert es[..|es|] == es;
  }

  /** The loop that pushes the tagged advisories. */
  method PushAdvisories(username: string, items: seq<Json>, advisories0: seq<Json>) returns (advisories: seq<Json>)
    ensures advisories == advisories0 + Tagged(username, items)
  {
    advisories := advisories0;
    var i := 0;
    while i < |items|
      invariant 0 <= i <= |items|
      invariant advisories == advisories0 + Tagged(username, items[..i])
    {
      assert Tagged(username, items[..i + 1]) == Tagged(username, items[..i]) + [Tagged(username, items)[i]];
      advisories := advisories + [JObj(Put(Entries(items[i]), "author", JStr(username)))];
      i := i + 1;
    }
    assert items[..|items|] == items;
  }

  /** One iteration of the directory loop. */
  method ProcessEntry(d: Node, c: Collected) returns (r: Result<Collected, Fault>)
    ensures r == UserStep(d, c)
  {
    if Skipped(d) {
      return Success(c);
    }
    var modules, servers := c.modules, c.servers;
    var registryFile := ReadJson(d.children, "registry.json");
    if registryFile.Unreadable? {
      return Failure(InvalidJson("registry.json"));
    }
    if registryFile.Parsed? {
      var data := registryFile.value;
      if data == JNull {
        return Failure(Crash(ReadOfNull("modules")));
      }
      modules := AddEntriesLoop(d.name, EntriesOr(Get(data, "modules")), modules);
      servers := AddEntriesLoop(d.name, EntriesOr(Get(data, "servers")), servers);
    }
    var advisoriesFile := ReadJson(d.children, "advisories.json");
    var advisories := c.advisories;
    if advisoriesFile.Unreadable? {
      return Failure(InvalidJson("advisories.json"));
    }
    if advisoriesFile.Parsed? {
      var data := advisoriesFile.value;
      if data == JNull {
        return Failure(Crash(ReadOfNull("advisories")));
      }
      var items := AdvisoryItems(Get(data, "advisories"));
      if items.Failure? {
        return Failure(items.error);
      }
      advisories := PushAdvisories(d.name, items.value, advisories);
    }
    return Success(Collected(modules, servers, advisories));
  }

  /** The search-index loop over module or server entries. */
  method ProjectLoop(all: Fields, server: bool) returns (search: Fields)
    ensures search == Project(all, server)
  {
    search := [];
    var i := 0;
    while i < |all|
      invariant 0 <= i <= |all|
      invariant search == Project(all[..i], server)
    {
      assert all[..i + 1][..i] == all[..i];
      search := Put(search, all[i].0, Summary(all[i].1, server));
      i := i + 1;
    }
    assert all[..|all|] == all;
  }

  /** `buildIndexes` over the entries of the root directory. */
  method BuildIndexes(entries: seq<Node>, generated: string) returns (r: Result<Indexes, Fault>)
    ensures r == BuildIndexesOf(entries, generated)
  {
    var c := Collected([], [], []);
    var i := 0;
    while i < |entries|
      invariant 0 <= i <= |entries|
      invariant Collect(entries[..i]) == Success(c)
    {
      assert entries[..i + 1][..i] == entries[..i];
      var step := ProcessEntry(entries[i], c);
      if step.Failure? {
        FaultStays(entries, i + 1);
        return Failure(step.error);
      }
      c := step.value;
      i := i + 1;
    }
    assert entries[..|entries|] == entries;
    var searchModules := ProjectLoop(c.modules, false);
    var searchServers := ProjectLoop(c.servers, true);
    r := Success(Indexes(
      JObj([("version", JStr("1.0.0")), ("generated", JStr(generated)), ("count", JNum(|c.modules|)), ("modules", JObj(c.modules))]),
      JObj([("version", JStr("1.0.0")), ("generated", JStr(generated)), ("count", JNum(|c.servers|)), ("servers", JObj(c.servers))]),
      JObj([("version", JStr("1.0.0")), ("generated", JStr(generated)),
            ("modules", JObj(searchModules)), ("servers", JObj(searchServers))]),
      JObj([("version", JStr("1.0.0")), ("generated", JStr(generated)), ("count", JNum(|c.advisories|)), ("advisories", JArr(c.advisories))])));
  }
}
