/** The decision logic of tools/auto-publish.js: a source URL is classified, resolved to a
    raw URL pinned to a commit (from fetched gist or repository data passed in), turned into a
    module record and added to the user's registry object. */
module AutoPublish {
  import opened Wrappers
  import opened Strings
  import opened Json
  import opened Files
  import opened Patterns
  import Publish

  // ---------------------------------------------------------------------------
  // parseSourceUrl

  /** What `parseSourceUrl` returns: the capture groups of the one pattern that matched. */
  datatype Source =
    | Raw(raw: RawGist, url: string)
    | Gist(ref: GistRef)
    | Repo(file: RepoFile)

  function UnsupportedMessage(url: string): string {
    "Unsupported URL format: " + url
  }

  /** The raw gist pattern is tried first, then the friendly gist pattern, then the
      repository file pattern; anything else is rejected. */
  function ParseSourceUrl(url: string): (r: Result<Source, string>)
    ensures r.Success? && r.value.Raw? ==> RawGistWellFormed(r.value.raw) && RawGistUrl(r.value.raw) == url && r.value.url == url
    ensures r.Success? && r.value.Gist? ==> GistRefWellFormed(r.value.ref) && GistRefUrl(r.value.ref) == url
    ensures r.Success? && r.value.Repo? ==> RepoFileWellFormed(r.value.file) && RepoFileUrl(r.value.file) == url
    ensures r.Failure? <==> ParseRawGistUrl(url).None? && ParseGistRefUrl(url).None? && ParseRepoFileUrl(url).None?
    ensures r.Failure? ==> r.error == UnsupportedMessage(url)
  {
    match ParseRawGistUrl(url)
    case Some(p) => Success(Raw(p, url))
    case None =>
      match ParseGistRefUrl(url)
      case Some(g) => Success(Gist(g))
      case None =>
        match ParseRepoFileUrl(url)
        case Some(f) => Success(Repo(f))
        case None => Failure(UnsupportedMessage(url))
  }

  /** Every raw gist URL is classified `raw`, with its own parts and the URL unchanged. */
  lemma RawClassified(p: RawGist)
    requires RawGistWellFormed(p)
    ensures ParseSourceUrl(RawGistUrl(p)) == Success(Raw(p, RawGistUrl(p)))
  {
    RawGistRoundTrip(p);
  }

  /** Every friendly gist URL is classified `gist`; a missing commit or file stays missing. */
  lemma GistClassified(g: GistRef)
    requires GistRefWellFormed(g)
    ensures ParseSourceUrl(GistRefUrl(g)) == Success(Gist(g))
  {
    GistRefRoundTrip(g);
    UrlShapesExclusive(GistRefUrl(g));
  }

  /** Every repository file URL is classified `repo`. */
  lemma RepoClassified(f: RepoFile)
    requires RepoFileWellFormed(f)
    ensures ParseSourceUrl(RepoFileUrl(f)) == Success(Repo(f))
  {
    RepoFileRoundTrip(f);
    UrlShapesExclusive(RepoFileUrl(f));
  }

  // ---------------------------------------------------------------------------
  // resolveGistUrl and resolveRepoUrl

  /** The parts of the fetched gist that `resolveGistUrl` reads: the `version` of each
      `history` entry (newest first), the keys of `files` and `owner?.name`. */
  datatype GistData = GistData(history: seq<string>, files: seq<string>, ownerName: Option<Json>)

  /** A source resolved to a pinned raw URL. A raw source passes through as parsed. */
  datatype Resolved =
    | FromRaw(raw: RawGist, url: string)
    | FromGist(gist: RawGist, url: string, ownerName: Option<Json>)
    | FromRepo(file: RepoFile, commitHash: string, url: string)

  const NoCommitsMessage := "No commits found in gist"
  const NoMldFilesMessage := "No .mld files found in gist"

  function MultipleMldMessage(mld: seq<string>): string {
    "Multiple .mld files found: " + Join(mld, ", ") + ". Please specify which one to use."
  }

  function FileNotInGistMessage(f: string, files: seq<string>): string {
    "File " + f + " not found in gist. Available files: " + Join(files, ", ")
  }

  function FileNotInRepoMessage(path: string): string {
    "File " + path + " not found in repository"
  }

  /** `files.filter(f => f.endsWith('.mld'))`, in order. */
  function MldFiles(files: seq<string>): (r: seq<string>)
    ensures |r| <= |files|
    ensures forall f :: f in r <==> f in files && EndsWith(f, ".mld")
    decreases |files|
  {
    if |files| == 0 then []
    else
      var rest := MldFiles(files[1..]);
      assert forall f :: f in files <==> f == files[0] || f in files[1..];
      if EndsWith(files[0], ".mld") then [files[0]] + rest else rest
  }

  /** `!gist.files[filename]`: a file is there when it is one of the keys. */
  function CheckFile(files: seq<string>, f: string): (r: Result<string, string>)
    ensures r.Success? <==> f in files
    ensures r.Success? ==> r.value == f
    ensures r.Failure? ==> r.error == FileNotInGistMessage(f, files)
  {
    if f in files then Success(f) else Failure(FileNotInGistMessage(f, files))
  }

  /** The file a gist URL refers to: the named one, or else the only `.mld` file. */
  function SelectFile(files: seq<string>, filename: Option<string>): (r: Result<string, string>)
    ensures r.Success? ==> r.value in files
  {
    if filename.None? || filename.value == "" then
      var mld := MldFiles(files);
      if |mld| == 0 then Failure(NoMldFilesMessage)
      else if |mld| > 1 then Failure(MultipleMldMessage(mld))
      else CheckFile(files, mld[0])
    else CheckFile(files, filename.value)
  }

  /** A named file is taken exactly when the gist has it, and a missing one is reported
      with the list of the gist's files. */
  lemma NamedFileSelected(files: seq<string>, f: string)
    requires f != ""
    ensures SelectFile(files, Some(f)) == if f in files then Success(f) else Failure(FileNotInGistMessage(f, files))
  {
  }

  /** Without a file name: no `.mld` file and more than one are errors (the latter naming
      them all), and otherwise the one `.mld` file of the gist is taken. */
  lemma UnnamedFileSelected(files: seq<string>)
    ensures var r := SelectFile(files, None);
            (|MldFiles(files)| == 0 <==> r == Failure(NoMldFilesMessage))
            && (|MldFiles(files)| > 1 <==> r == Failure(MultipleMldMessage(MldFiles(files))))
            && (r.Success? ==> EndsWith(r.value, ".mld")
                               && forall i :: 0 <= i < |files| && EndsWith(files[i], ".mld") ==> files[i] == r.value)
            && (|MldFiles(files)| == 1 <==> r.Success?)
  {
    var mld := MldFiles(files);
    if |mld| == 1 {
      assert mld[0] in mld;
      forall i | 0 <= i < |files| && EndsWith(files[i], ".mld") ensures files[i] == mld[0] {
        assert files[i] in mld;
      }
    }
    if |mld| > 1 {
      assert MultipleMldMessage(mld) != NoMldFilesMessage by {
        assert MultipleMldMessage(mld)[..9] == "Multiple ";
      }
    }
  }

  /** `resolveGistUrl` on the fetched gist: the newest commit and the selected file make the
      raw URL; the commit of the friendly URL, if any, is not used. */
  function ResolveGistUrl(g: GistRef, gist: GistData): (r: Result<Resolved, string>)
    ensures |gist.history| == 0 ==> r == Failure(NoCommitsMessage)
    ensures |gist.history| > 0 ==> (r.Success? <==> SelectFile(gist.files, g.filename).Success?)
    ensures r.Success? ==> r.value.FromGist? && r.value.ownerName == gist.ownerName
                           && r.value.gist.username == g.username && r.value.gist.gistId == g.gistId
                           && r.value.gist.commitHash == gist.history[0]
                           && r.value.gist.filename in gist.files
                           && r.value.url == RawGistUrl(r.value.gist)
  {
    if |gist.history| == 0 then Failure(NoCommitsMessage)
    else
      var commitSha := gist.history[0];
      match SelectFile(gist.files, g.filename)
      case Failure(e) => Failure(e)
      case Success(f) =>
        var p := RawGist(g.username, g.gistId, commitSha, f);
        Success(FromGist(p, RawGistUrl(p), gist.ownerName))
  }

  /** The URL a gist resolves to is itself a raw URL that `parseSourceUrl` reads back with
      the same user, gist, commit and file, when the commit is 40 hex digits and the file
      name a `.mld` path. */
  lemma GistResolvedReparses(g: GistRef, gist: GistData)
    requires GistRefWellFormed(g)
    requires ResolveGistUrl(g, gist).Success?
    requires IsCommitHash(gist.history[0]) && IsMldPath(ResolveGistUrl(g, gist).value.gist.filename)
    ensures var res := ResolveGistUrl(g, gist).value;
            ParseSourceUrl(res.url) == Success(Raw(res.gist, res.url))
  {
    RawClassified(ResolveGistUrl(g, gist).value.gist);
  }

  /** `resolveRepoUrl`, given the outcome of the lookup of the ref's commit and of the
      contents lookup of the file. */
  function ResolveRepoUrl(f: RepoFile, refSha: Result<string, string>, fileFound: bool): (r: Result<Resolved, string>)
    ensures r.Success? <==> refSha.Success? && fileFound
    ensures refSha.Failure? ==> r == Failure(refSha.error)
    ensures refSha.Success? && !fileFound ==> r == Failure(FileNotInRepoMessage(f.filepath))
    ensures r.Success? ==> r.value.FromRepo? && r.value.file == f && r.value.commitHash == refSha.value
                           && r.value.url == RawGithubUrl(RawGithub(f.owner, f.repo, refSha.value, f.filepath))
  {
    match refSha
    case Failure(e) => Failure(e)
    case Success(sha) =>
      if !fileFound then Failure(FileNotInRepoMessage(f.filepath))
      else Success(FromRepo(f, sha, RawGithubUrl(RawGithub(f.owner, f.repo, sha, f.filepath))))
  }

  /** The raw URL of a repository file is pinned to the commit looked up for the ref: read
      back as a raw GitHub URL, its commit is that SHA and its other parts are the file's. */
  lemma RepoPinned(f: RepoFile, sha: string)
    requires RepoFileWellFormed(f) && IsCommitHash(sha)
    ensures var r := ResolveRepoUrl(f, Success(sha), true);
            r.Success? && ParseRawGithubUrl(r.value.url) == Some(RawGithub(f.owner, f.repo, sha, f.filepath))
  {
    RawGithubRoundTrip(RawGithub(f.owner, f.repo, sha, f.filepath));
  }

  /** The resolution step of `autoPublish`: gists and repository files are resolved from
      their fetched data, raw URLs pass through. */
  function Resolve(s: Source, gist: Result<GistData, string>, refSha: Result<string, string>, fileFound: bool): (r: Result<Resolved, string>)
    ensures s.Raw? ==> r == Success(FromRaw(s.raw, s.url))
    ensures s.Gist? && gist.Failure? ==> r == Failure(gist.error)
    ensures s.Gist? && gist.Success? ==> r == ResolveGistUrl(s.ref, gist.value)
    ensures s.Repo? ==> r == ResolveRepoUrl(s.file, refSha, fileFound)
  {
    match s
    case Raw(p, url) => Success(FromRaw(p, url))
    case Gist(g) => if gist.Failure? then Failure(gist.error) else ResolveGistUrl(g, gist.value)
    case Repo(f) => ResolveRepoUrl(f, refSha, fileFound)
  }

  // ---------------------------------------------------------------------------
  // createModuleMetadata

  /** `resolvedSource.username || resolvedSource.owner` */
  function Username(s: Resolved): string {
    match s
    case FromRaw(p, _) => p.username
    case FromGist(p, _, _) => p.username
    case FromRepo(f, _, _) => f.owner
  }

  /** The `author` object. A raw source gets the one a gist gets, with the default name
      (the source has no branch for it; see `CreateModuleMetadata`). */
  function AuthorOf(s: Resolved): Json {
    match s
    case FromGist(p, _, ownerName) => JObj([("name", Or(ownerName, JStr("Module Author"))), ("github", JStr(p.username))])
    case FromRepo(f, _, _) => JObj([("name", JStr("Module Author")), ("github", JStr(f.owner))])
    case FromRaw(p, _) => JObj([("name", JStr("Module Author")), ("github", JStr(p.username))])
  }

  /** The `source` object. A raw source is a gist at the commit of its URL. */
  function SourceObject(s: Resolved): Json {
    match s
    case FromGist(p, url, _) => JObj([("type", JStr("gist")), ("id", JStr(p.gistId)), ("hash", JStr(p.commitHash)), ("url", JStr(url))])
    case FromRaw(p, url) => JObj([("type", JStr("gist")), ("id", JStr(p.gistId)), ("hash", JStr(p.commitHash)), ("url", JStr(url))])
    case FromRepo(f, sha, url) => JObj([("type", JStr("github")), ("repo", JStr(f.owner + "/" + f.repo)), ("hash", JStr(sha)), ("url", JStr(url))])
  }

  /** The commit a resolved source is pinned to. */
  function CommitOf(s: Resolved): string {
    match s
    case FromRaw(p, _) => p.commitHash
    case FromGist(p, _, _) => p.commitHash
    case FromRepo(_, sha, _) => sha
  }

  /** The module record: the id, the description or a default, author, source, no
      dependencies, the keywords or none, the mlld version and the publication time. */
  function Metadata(moduleId: string, author: Json, source: Json, description: Option<Json>, keywords: Option<Json>, publishedAt: string): Json {
    JObj([
      ("name", JStr(moduleId)),
      ("description", Or(description, JStr("Module description"))),
      ("author", author),
      ("source", source),
      ("dependencies", JObj([])),
      ("keywords", Or(keywords, JArr([]))),
      ("mlldVersion", JStr(">=0.5.0")),
      ("publishedAt", JStr(publishedAt))])
  }

  /** `createModuleMetadata` as written: only the `gist` and `repo` branches set `author`
      and `sourceObj`, so for a raw source both stay `undefined` and the written record has
      neither property. */
  function CreateModuleMetadata(moduleId: string, s: Resolved, description: Option<Json>, keywords: Option<Json>, publishedAt: string): (r: Json)
    ensures !s.FromRaw? ==> r == ModuleMetadata(moduleId, s, description, keywords, publishedAt)
  {
    match s
    case FromRaw(_, _) =>
      JObj([
        ("name", JStr(moduleId)),
        ("description", Or(description, JStr("Module description"))),
        ("dependencies", JObj([])),
        ("keywords", Or(keywords, JArr([]))),
        ("mlldVersion", JStr(">=0.5.0")),
        ("publishedAt", JStr(publishedAt))])
    case _ => Metadata(moduleId, AuthorOf(s), SourceObject(s), description, keywords, publishedAt)
  }

  /** A record made as written from a raw source has no author and no source. */
  lemma RawRecordIncomplete(moduleId: string, p: RawGist, url: string, description: Option<Json>, keywords: Option<Json>, publishedAt: string)
    ensures var m := CreateModuleMetadata(moduleId, FromRaw(p, url), description, keywords, publishedAt);
            Get(m, "author") == None && Get(m, "source") == None
  {
    var fs := CreateModuleMetadata(moduleId, FromRaw(p, url), description, keywords, publishedAt).fields;
    LookupAbsent(fs, "author");
    LookupAbsent(fs, "source");
  }

  /** `createModuleMetadata` with the raw source treated like the gist it names. */
  function ModuleMetadata(moduleId: string, s: Resolved, description: Option<Json>, keywords: Option<Json>, publishedAt: string): Json {
    Metadata(moduleId, AuthorOf(s), SourceObject(s), description, keywords, publishedAt)
  }

  /** Every record is named after the module, credits the user or owner of the source on
      GitHub and carries the source object. */
  lemma MetadataIdentity(moduleId: string, s: Resolved, description: Option<Json>, keywords: Option<Json>, publishedAt: string)
    ensures var m := ModuleMetadata(moduleId, s, description, keywords, publishedAt);
            Get(m, "name") == Some(JStr(moduleId))
            && OptGet(Get(m, "author"), "github") == Some(JStr(Username(s)))
            && Get(m, "source") == Some(SourceObject(s))
  {
    var fs := ModuleMetadata(moduleId, s, description, keywords, publishedAt).fields;
    LookupAt(fs, 0);
    LookupAt(fs, 2);
    LookupAt(AuthorOf(s).fields, 1);
    LookupAt(fs, 3);
  }

  /** Every record has no dependencies and asks for mlld `>=0.5.0`. */
  lemma MetadataDefaults(moduleId: string, s: Resolved, description: Option<Json>, keywords: Option<Json>, publishedAt: string)
    ensures var m := ModuleMetadata(moduleId, s, description, keywords, publishedAt);
            Get(m, "dependencies") == Some(JObj([])) && Get(m, "mlldVersion") == Some(JStr(">=0.5.0"))
  {
    var fs := ModuleMetadata(moduleId, s, description, keywords, publishedAt).fields;
    LookupAt(fs, 4);
    LookupAt(fs, 6);
  }

  /** A gist source (raw or resolved) is `{type: gist, id, hash, url}`; a repository source
      is `{type: github, repo: owner/repo, hash, url}`; the hash is the pinned commit and the
      url the resolved URL. */
  lemma SourceObjectFields(s: Resolved)
    ensures var o := SourceObject(s);
            Get(o, "hash") == Some(JStr(CommitOf(s))) && Get(o, "url") == Some(JStr(s.url))
            && (s.FromRepo? ==> Get(o, "type") == Some(JStr("github")) && Get(o, "repo") == Some(JStr(s.file.owner + "/" + s.file.repo)))
            && (!s.FromRepo? ==> Get(o, "type") == Some(JStr("gist")) && Get(o, "id") == Some(JStr(if s.FromRaw? then s.raw.gistId else s.gist.gistId)))
  {
    var fs := SourceObject(s).fields;
    LookupAt(fs, 0);
    LookupAt(fs, 1);
    LookupAt(fs, 2);
    LookupAt(fs, 3);
  }

  // ---------------------------------------------------------------------------
  // autoPublish

  const TokenRequiredMessage := "GitHub token required for auto-publishing. Set GITHUB_TOKEN or use --token"

  function DuplicateMessage(moduleId: string): string {
    "Module " + moduleId + " already exists. Use update command instead."
  }

  /** Why `autoPublish` stops: an error it throws, `JSON.parse` rejecting the registry file,
      a property read on `null`/`undefined`, or an assignment to a property of a primitive
      (a `TypeError` in a module, which runs in strict mode). */
  datatype Fault =
    | Error(message: string)
    | InvalidJson
    | Crash(error: TypeError)
    | CannotCreateProperty(key: string, on: Json)

  /** What `autoPublish` leaves behind: with `dryRun` the registry and entry it would write;
      otherwise also the user whose fork it goes on to use and the branch it pushes to. */
  datatype Outcome =
    | DryRun(registry: Json, entry: Json)
    | Submit(registry: Json, entry: Json, username: string, branchName: string)

  /** `if (!token)` */
  predicate HasToken(token: Option<string>) {
    token.Some? && token.value != ""
  }

  /** `add-module-${username}-${moduleId.replace('@', '').replace('/', '-')}` */
  function BranchName(username: string, moduleId: string): string {
    "add-module-" + username + "-" + Dashed(moduleId)
  }

  /** The branch of `@u/n` is `add-module-{username}-u-n`. */
  lemma BranchOfModuleId(username: string, u: string, n: string)
    requires IsSlug(u)
    ensures BranchName(username, "@" + u + "/" + n) == "add-module-" + username + "-" + u + "-" + n
  {
    SlugHasNoSlash(u);
    DashedUserName(u, n);
  }

  /** The user registry after `userRegistry.modules[moduleId] = moduleData`: a new one when
      the file does not exist, otherwise the parsed one, unless it already has the module. */
  function AddModule(file: Read, username: string, moduleId: string, data: Json): (r: Result<Json, Fault>)
    ensures file.Absent? ==> r == Success(JObj([("author", JStr(username)), ("modules", JObj([(moduleId, data)]))]))
    ensures file.Unreadable? ==> r == Failure(InvalidJson)
  {
    match file
    case Absent => Success(JObj([("author", JStr(username)), ("modules", JObj(Put([], moduleId, data)))]))
    case Unreadable => Failure(InvalidJson)
    case Parsed(registry) =>
      if registry == JNull then Failure(Crash(ReadOfNull("modules")))
      else
        match Get(registry, "modules")
        case None => Failure(Crash(ReadOfUndefined(moduleId)))
        case Some(modules) =>
          match modules
          case JNull => Failure(Crash(ReadOfNull(moduleId)))
          case JObj(fs) =>
            if Truthy(Lookup(fs, moduleId)) then Failure(Error(DuplicateMessage(moduleId)))
            else Success(JObj(Put(registry.fields, "modules", JObj(Put(fs, moduleId, data)))))
          // A property set on an array is not an element: the file's JSON keeps the array.
          case JArr(_) => Success(registry)
          case _ => Failure(CannotCreateProperty(moduleId, modules))
  }

  /** An existing registry whose `modules` object already has a truthy entry for the id is
      refused; otherwise the entry is set, and every other module and every other property
      of the registry is left as it was. */
  lemma AddToExistingRegistry(registry: Fields, username: string, moduleId: string, data: Json)
    requires Lookup(registry, "modules").Some? && Lookup(registry, "modules").value.JObj?
    ensures var modules := Lookup(registry, "modules").value.fields;
            var r := AddModule(Parsed(JObj(registry)), username, moduleId, data);
            (Truthy(Lookup(modules, moduleId)) <==> r == Failure(Error(DuplicateMessage(moduleId))))
            && (!Truthy(Lookup(modules, moduleId)) ==>
                  r.Success? && r.value.JObj?
                  && OptGet(Get(r.value, "modules"), moduleId) == Some(data)
                  && (forall k :: k != moduleId ==> OptGet(Get(r.value, "modules"), k) == Lookup(modules, k))
                  && (forall k :: k != "modules" ==> Get(r.value, k) == Lookup(registry, k)))
  {
  }

  /** The whole of `autoPublish` up to the network steps, over the fetched gist (or the
      failure of that request), the ref lookup and contents lookup of a repository file,
      the user's registry file and the clock. The record is the corrected one of
      `ModuleMetadata`. */
  function AutoPublishOutcome(moduleId: string, sourceUrl: string, token: Option<string>,
                              description: Option<Json>, keywords: Option<Json>, dryRun: bool,
                              gist: Result<GistData, string>, refSha: Result<string, string>, fileFound: bool,
                              registryFile: Read, publishedAt: string): Result<Outcome, Fault>
  {
    if !HasToken(token) then Failure(Error(TokenRequiredMessage))
    else
      match ParseSourceUrl(sourceUrl)
      case Failure(e) => Failure(Error(e))
      case Success(s) =>
        match Resolve(s, gist, refSha, fileFound)
        case Failure(e) => Failure(Error(e))
        case Success(res) =>
          var data := ModuleMetadata(moduleId, res, description, keywords, publishedAt);
          var username := Username(res);
          match AddModule(registryFile, username, moduleId, data)
          case Failure(f) => Failure(f)
          case Success(registry) =>
            if dryRun then Success(DryRun(registry, data))
            else Success(Submit(registry, data, username, BranchName(username, moduleId)))
  }

  /** `autoPublish`: each step in turn, the first failure ending it. */
  method AutoPublish(moduleId: string, sourceUrl: string, token: Option<string>,
                     description: Option<Json>, keywords: Option<Json>, dryRun: bool,
                     gist: Result<GistData, string>, refSha: Result<string, string>, fileFound: bool,
                     registryFile: Read, publishedAt: string) returns (r: Result<Outcome, Fault>)
    ensures r == AutoPublishOutcome(moduleId, sourceUrl, token, description, keywords, dryRun,
                                    gist, refSha, fileFound, registryFile, publishedAt)
  {
    if !HasToken(token) {
      return Failure(Error(TokenRequiredMessage));
    }
    var parsed := ParseSourceUrl(sourceUrl);
    if parsed.Failure? {
      return Failure(Error(parsed.error));
    }
    var resolvedSource := Resolve(parsed.value, gist, refSha, fileFound);
    if resolvedSource.Failure? {
      return Failure(Error(resolvedSource.error));
    }
    var moduleData := ModuleMetadata(moduleId, resolvedSource.value, description, keywords, publishedAt);
    var username := Username(resolvedSource.value);
    var userRegistry := AddModule(registryFile, username, moduleId, moduleData);
    if userRegistry.Failure? {
      return Failure(userRegistry.error);
    }
    if dryRun {
      return Success(DryRun(userRegistry.value, moduleData));
    }
    var branchName := BranchName(username, moduleId);
    return Success(Submit(userRegistry.value, moduleData, username, branchName));
  }

  /** Nothing happens without a token, and a URL of no known shape is refused next. */
  lemma TokenThenUrl(moduleId: string, sourceUrl: string, token: Option<string>,
                     description: Option<Json>, keywords: Option<Json>, dryRun: bool,
                     gist: Result<GistData, string>, refSha: Result<string, string>, fileFound: bool,
                     registryFile: Read, publishedAt: string)
    ensures var r := AutoPublishOutcome(moduleId, sourceUrl, token, description, keywords, dryRun,
                                        gist, refSha, fileFound, registryFile, publishedAt);
            (!HasToken(token) ==> r == Failure(Error(TokenRequiredMessage)))
            && (HasToken(token) && ParseSourceUrl(sourceUrl).Failure? ==> r == Failure(Error(UnsupportedMessage(sourceUrl))))
  {
  }

  /** Publishing a raw gist URL for a new user: the registry file is created with the user
      as author and the module as its only entry, whose source is pinned to the URL's commit;
      the branch is named after the user and the module. */
  lemma RawUrlFirstModule(u: string, n: string, p: RawGist, token: string,
                          description: Option<Json>, keywords: Option<Json>,
                          gist: Result<GistData, string>, refSha: Result<string, string>, fileFound: bool,
                          publishedAt: string)
    requires IsSlug(u) && RawGistWellFormed(p) && token != ""
    ensures var moduleId := "@" + u + "/" + n;
            var data := ModuleMetadata(moduleId, FromRaw(p, RawGistUrl(p)), description, keywords, publishedAt);
            AutoPublishOutcome(moduleId, RawGistUrl(p), Some(token), description, keywords, false,
                               gist, refSha, fileFound, Absent, publishedAt)
            == Success(Submit(JObj([("author", JStr(p.username)), ("modules", JObj([(moduleId, data)]))]),
                              data, p.username, "add-module-" + p.username + "-" + u + "-" + n))
  {
    RawClassified(p);
    BranchOfModuleId(p.username, u, n);
  }

  // ---------------------------------------------------------------------------
  // main

  /** `main`: the module id is checked before `autoPublish` runs. */
  function Command(moduleId: string, sourceUrl: string, token: Option<string>,
                   description: Option<Json>, keywords: Option<Json>, dryRun: bool,
                   gist: Result<GistData, string>, refSha: Result<string, string>, fileFound: bool,
                   registryFile: Read, publishedAt: string): Result<Outcome, Fault>
  {
    if !IsModuleId(moduleId) then Failure(Error(Publish.InvalidModuleIdMessage))
    else AutoPublishOutcome(moduleId, sourceUrl, token, description, keywords, dryRun,
                            gist, refSha, fileFound, registryFile, publishedAt)
  }

  /** The branch of a submission is named after its user and the module. */
  lemma SubmitBranch(moduleId: string, sourceUrl: string, token: Option<string>,
                     description: Option<Json>, keywords: Option<Json>, dryRun: bool,
                     gist: Result<GistData, string>, refSha: Result<string, string>, fileFound: bool,
                     registryFile: Read, publishedAt: string)
    ensures var r := AutoPublishOutcome(moduleId, sourceUrl, token, description, keywords, dryRun,
                                        gist, refSha, fileFound, registryFile, publishedAt);
            r.Success? && r.value.Submit? ==> !dryRun && r.value.branchName == BranchName(r.value.username, moduleId)
  {
  }

  /** An id outside `@user/name` is refused whatever else is given; a submission for `@u/n`
      goes to the branch `add-module-{username}-u-n`. */
  lemma ModuleIdCheckedFirst(moduleId: string, sourceUrl: string, token: Option<string>,
                             description: Option<Json>, keywords: Option<Json>, dryRun: bool,
                             gist: Result<GistData, string>, refSha: Result<string, string>, fileFound: bool,
                             registryFile: Read, publishedAt: string)
    ensures var r := Command(moduleId, sourceUrl, token, description, keywords, dryRun,
                             gist, refSha, fileFound, registryFile, publishedAt);
            (!IsModuleId(moduleId) ==> r == Failure(Error(Publish.InvalidModuleIdMessage)))
            && (r.Success? && r.value.Submit? ==>
                  var i := IndexOf(moduleId, '/').value;
                  r.value.branchName == "add-module-" + r.value.username + "-" + moduleId[1..i] + "-" + moduleId[i + 1..])
  {
    var r := Command(moduleId, sourceUrl, token, description, keywords, dryRun,
                     gist, refSha, fileFound, registryFile, publishedAt);
    if r.Success? && r.value.Submit? {
      SubmitBranch(moduleId, sourceUrl, token, description, keywords, dryRun,
                   gist, refSha, fileFound, registryFile, publishedAt);
      ModuleIdParts(moduleId);
      var i := IndexOf(moduleId, '/').value;
      BranchOfModuleId(r.value.username, moduleId[1..i], moduleId[i + 1..]);
    }
  }
}
