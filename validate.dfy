/** `validateMetadata` of tools/validate.js: every check of a registry entry, each adding its
    own errors to one list, in the order the script runs them. The list is built by a method
    with one loop per list-valued field (`ValidateMetadata`), proved equal to the function
    `MetadataErrors`, and the lemmas at the end state what each check reports. */
module Validate {
  import opened Wrappers
  import opened Strings
  import opened Json
  import opened Patterns

  const RequiredFields: seq<string> :=
    ["name", "about", "author", "source", "publishedAt", "mlldVersion", "ownerGithubUserIds"]
  const ValidCategories: seq<string> :=
    ["prompts", "utilities", "when", "filters", "formatters", "commands", "apis", "clis", "templates",
     "integrations", "generators", "validators", "transformers", "workflows", "dev", "tests", "context"]
  const RequiredSourceFields: seq<string> := ["type", "hash", "url"]
  const ValidSourceTypes: seq<string> := ["gist", "github", "external"]
  /** The runtimes accepted both as dependency keys and as `needs` entries. */
  const ValidRuntimes: seq<string> := ["js", "py", "sh", "node", "python", "bash"]
  /** The runtimes whose dependency record is read for `packages`. */
  const PackageRuntimes: seq<string> := ["js", "node", "py", "python"]
  /** The runtimes whose dependency record is read for `commands`. */
  const CommandRuntimes: seq<string> := ["sh", "bash"]

  /** One error of validateMetadata; `Message` gives the text the script pushes. The errors of
      the blocks that can report several kinds are grouped under one constructor per block.
      Values that the script interpolates with `${...}` are kept as JSON and rendered by `Show`. */
  datatype MetaError =
    | InvalidModuleName(id: string)
    | MissingField(field: string)
    | NameMismatch(name: Json, id: string)
    | Author(authorError: AuthorError)
    | Source(sourceError: SourceError)
    | Dependency(dependencyError: DependencyError)
    | Keyword(keywordError: ListError)
    | InvalidMlldVersion(mlldVersion: string)
    | InvalidPublishedAt(publishedAt: Json)
    | InvalidCategory(category: Json)
    | InvalidVersion(version: string)
    | LicenseNotString
    | Need(needError: ListError)
    | Owner(ownerError: ListError)
    /** The second report of a missing `ownerGithubUserIds`, from the else branch of its own block. */
    | OwnersMissing

  datatype AuthorError = AuthorNotString | InvalidAuthor(author: string)

  datatype SourceError =
    | SourceNotObject
    | MissingSourceField(field: string)
    | InvalidSourceType(sourceType: Option<Json>)
    | InvalidGistId(gistId: Json)
    | InvalidContentHash(contentHash: string)
    | InvalidCommitHash(hash: Json)
    | InvalidGistUrl(url: string)
    | GistIdMismatch(urlGistId: string, gistId: Json)
    | CommitHashMismatch(urlHash: string, hash: Json)
    | InvalidRepo(repo: string)
    | MissingRepositoryUrl
    | MissingRepositoryCommit
    | InvalidRepositoryCommit(commit: Json)
    | MissingRepositoryPath
    | InvalidGithubUrl(url: string)
    | InvalidExternalUrl(url: string)

  datatype DependencyError =
    | DependenciesNotObject
    | InvalidRuntime(runtime: string)
    | RuntimeDepsNotObject(runtime: string)
    | PackagesNotArray(runtime: string)
    | CommandsNotArray(runtime: string)

  /** The errors of a block that checks an array field element by element. */
  datatype ListError = NotArray | InvalidElement(element: Json)

  function Message(e: MetaError): string {
    match e
    case InvalidModuleName(id) => "Invalid module name format: " + id + ". Must be @username/module-name"
    case MissingField(f) => "Missing required field: " + f
    case NameMismatch(n, id) => "Module name mismatch: " + Show(n) + " !== " + id
    case Author(AuthorNotString) => "Author must be a string"
    case Author(InvalidAuthor(a)) => "Invalid author format: " + a + ". Must be lowercase alphanumeric with hyphens"
    case Source(se) => SourceMessage(se)
    case Dependency(de) => DependencyMessage(de)
    case Keyword(NotArray) => "Keywords must be an array"
    case Keyword(InvalidElement(k)) => "Invalid keyword: " + Show(k) + ". Must be lowercase alphanumeric with hyphens"
    case InvalidMlldVersion(v) => "Invalid mlldVersion format: " + v
    case InvalidPublishedAt(d) => "Invalid publishedAt date: " + Show(d)
    case InvalidCategory(c) => "Invalid category: " + Show(c) + ". Must be one of: " + Join(ValidCategories, ", ")
    case InvalidVersion(v) => "Invalid version format: " + v + ". Must be semver (x.y.z)"
    case LicenseNotString => "License must be a string"
    case Need(NotArray) => "Needs must be an array"
    case Need(InvalidElement(n)) => "Invalid need: " + Show(n) + ". Must be one of: " + Join(ValidRuntimes, ", ")
    case Owner(NotArray) => "ownerGithubUserIds must be an array"
    case Owner(InvalidElement(u)) => "Invalid GitHub user ID: " + Show(u) + ". Must be a positive integer"
    case OwnersMissing => "Missing required field: ownerGithubUserIds"
  }

  function SourceMessage(e: SourceError): string {
    match e
    case SourceNotObject => "Source must be an object"
    case MissingSourceField(f) => "Missing required source field: " + f
    case InvalidSourceType(t) => "Invalid source type: " + Display(t) + ". Must be one of: " + Join(ValidSourceTypes, ", ")
    case InvalidGistId(g) => "Invalid gist ID format: " + Show(g)
    case InvalidContentHash(h) => "Invalid content hash format: " + h
    case InvalidCommitHash(h) => "Invalid commit hash format: " + Show(h)
    case InvalidGistUrl(u) => "Invalid gist URL format: " + u
    case GistIdMismatch(ug, g) => "Gist ID mismatch in URL: " + ug + " !== " + Show(g)
    case CommitHashMismatch(uh, h) => "Commit hash mismatch in URL: " + uh + " !== " + Show(h)
    case InvalidRepo(r) => "Invalid repo format: " + r + ". Must be owner/repo"
    case MissingRepositoryUrl => "Missing repository.url"
    case MissingRepositoryCommit => "Missing repository.commit"
    case InvalidRepositoryCommit(c) => "Invalid repository commit hash: " + Show(c)
    case MissingRepositoryPath => "Missing repository.path"
    case InvalidGithubUrl(u) => "Invalid GitHub raw URL format: " + u
    case InvalidExternalUrl(u) => "Invalid external URL format: " + u
  }

  function DependencyMessage(e: DependencyError): string {
    match e
    case DependenciesNotObject => "Dependencies must be an object"
    case InvalidRuntime(r) => "Invalid dependency runtime: " + r + ". Must be one of: " + Join(ValidRuntimes, ", ")
    case RuntimeDepsNotObject(r) => "Dependencies for " + r + " must be an object"
    case PackagesNotArray(r) => "Dependencies." + r + ".packages must be an array"
    case CommandsNotArray(r) => "Dependencies." + r + ".commands must be an array"
  }

  type Errors = seq<MetaError>

  /** The error list, or the `TypeError` that ends validateMetadata early. */
  type Checked = Result<Errors, TypeError>

  predicate AllSource(es: Errors) { forall e :: e in es ==> e.Source? }
  predicate AllDependency(es: Errors) { forall e :: e in es ==> e.Dependency? }
  /** The errors that only the checks for one `source.type` report. */
  predicate AllTypeSpecific(es: Errors) {
    forall e :: e in es ==> e.Source? && !e.sourceError.SourceNotObject? && !e.sourceError.MissingSourceField?
                            && !e.sourceError.InvalidSourceType?
  }

  /** Running two blocks one after the other: the first exception wins. */
  function Then(a: Checked, b: Checked): (r: Checked)
    ensures r.Success? <==> a.Success? && b.Success?
    ensures r.Success? ==> r.value == a.value + b.value
    ensures a.Failure? ==> r == a
  {
    if a.Failure? then a else if b.Failure? then b else Success(a.value + b.value)
  }

  /** `String(x)` is a string only for strings: `.match` is missing on every other value. */
  predicate NonStringTruthy(o: Option<Json>) {
    Truthy(o) && !o.value.JStr?
  }

  /** `if (x && !x.match(re)) errors.push(...)`: `callee` names the `.match` that throws. */
  function MatchCheck(o: Option<Json>, callee: string, ok: string -> bool, err: string -> MetaError): (r: Checked)
    ensures r.Failure? <==> NonStringTruthy(o)
    ensures r.Success? ==> r.value == if Truthy(o) && !ok(o.value.s) then [err(o.value.s)] else []
  {
    if !Truthy(o) then Success([])
    else if !o.value.JStr? then Failure(NotAFunction(callee))
    else if ok(o.value.s) then Success([])
    else Success([err(o.value.s)])
  }

  /** `list.includes(x)` for a list of strings: strict equality, so `x` must be a string. */
  predicate IsOneOf(o: Option<Json>, names: seq<string>) {
    o.Some? && o.value.JStr? && o.value.s in names
  }

  // ---------------------------------------------------------------------------
  // The checks, one function each

  function NameFormatErrors(id: string): Errors {
    if IsModuleId(id) then [] else [InvalidModuleName(id)]
  }

  /** `for (const field of fields) if (!m[field]) errors.push(...)` */
  function MissingFields(m: Json, fields: seq<string>): (r: Errors)
    ensures forall f :: MissingField(f) in r <==> f in fields && !Truthy(Get(m, f))
    ensures forall e :: e in r ==> e.MissingField?
    decreases |fields|
  {
    if |fields| == 0 then []
    else
      var n := |fields| - 1;
      assert fields == fields[..n] + [fields[n]];
      MissingFields(m, fields[..n]) + (if Truthy(Get(m, fields[n])) then [] else [MissingField(fields[n])])
  }

  function NameMismatchErrors(id: string, m: Json): Errors {
    var name := Get(m, "name");
    if Truthy(name) && name != Some(JStr(id)) then [NameMismatch(name.value, id)] else []
  }

  function AuthorErrors(m: Json): Errors {
    var a := Get(m, "author");
    if !Truthy(a) then []
    else if !a.value.JStr? then [Author(AuthorNotString)]
    else if IsSlug(a.value.s) then []
    else [Author(InvalidAuthor(a.value.s))]
  }

  function MissingSourceFields(s: Json, fields: seq<string>): (r: Errors)
    ensures forall f :: Source(MissingSourceField(f)) in r <==> f in fields && !Truthy(Get(s, f))
    ensures forall e :: e in r ==> e.Source? && e.sourceError.MissingSourceField?
    decreases |fields|
  {
    if |fields| == 0 then []
    else
      var n := |fields| - 1;
      assert fields == fields[..n] + [fields[n]];
      MissingSourceFields(s, fields[..n])
      + (if Truthy(Get(s, fields[n])) then [] else [Source(MissingSourceField(fields[n]))])
  }

  function SourceTypeErrors(t: Option<Json>): Errors {
    if IsOneOf(t, ValidSourceTypes) then [] else [Source(InvalidSourceType(t))]
  }

  function AsContentHash(h: string): MetaError { Source(InvalidContentHash(h)) }
  function AsRepo(r: string): MetaError { Source(InvalidRepo(r)) }
  function AsGithubUrl(u: string): MetaError { Source(InvalidGithubUrl(u)) }
  function AsExternalUrl(u: string): MetaError { Source(InvalidExternalUrl(u)) }

  /** The URL's gist id and commit hash against `source.id` and `source.hash`. */
  function UrlMismatchErrors(p: RawGist, id: Option<Json>, hash: Option<Json>): (r: Errors)
    ensures AllTypeSpecific(r)
    ensures forall e :: e in r ==> e.Source? && (e.sourceError.GistIdMismatch? || e.sourceError.CommitHashMismatch?)
  {
    (if Truthy(id) && id != Some(JStr(p.gistId)) then [Source(GistIdMismatch(p.gistId, id.value))] else [])
    + (if Truthy(hash) && hash != Some(JStr(p.commitHash)) then [Source(CommitHashMismatch(p.commitHash, hash.value))] else [])
  }

  function GistUrlErrors(url: Option<Json>, id: Option<Json>, hash: Option<Json>): (r: Checked)
    ensures r.Failure? <==> NonStringTruthy(url)
    ensures r.Success? ==> AllTypeSpecific(r.value)
  {
    if !Truthy(url) then Success([])
    else if !url.value.JStr? then Failure(NotAFunction("metadata.source.url.match"))
    else
      match ParseRawGistUrl(url.value.s)
      case None => Success([Source(InvalidGistUrl(url.value.s))])
      case Some(p) => Success(UrlMismatchErrors(p, id, hash))
  }

  function GistSourceErrors(s: Json): (r: Checked)
    ensures r.Failure? <==> NonStringTruthy(Get(s, "contentHash")) || NonStringTruthy(Get(s, "url"))
    ensures r.Success? ==> AllTypeSpecific(r.value)
  {
    var id := Get(s, "id");
    var hash := Get(s, "hash");
    var idErrors := if Truthy(id) && !IsGistId(Display(id)) then [Source(InvalidGistId(id.value))] else [];
    var hashErrors := if Truthy(hash) && !IsCommitHash(Display(hash)) then [Source(InvalidCommitHash(hash.value))] else [];
    var contentHash := MatchCheck(Get(s, "contentHash"), "metadata.source.contentHash.match", IsContentHash, AsContentHash);
    var url := GistUrlErrors(Get(s, "url"), id, hash);
    ThenTypeSpecific(Success(hashErrors), url);
    ThenTypeSpecific(contentHash, Then(Success(hashErrors), url));
    ThenTypeSpecific(Success(idErrors), Then(contentHash, Then(Success(hashErrors), url)));
    Then(Success(idErrors), Then(contentHash, Then(Success(hashErrors), url)))
  }

  function RepositoryErrors(repository: Option<Json>): (r: Errors)
    ensures AllTypeSpecific(r)
  {
    if !Truthy(repository) then []
    else
      var rep := repository.value;
      var commit := Get(rep, "commit");
      (if Truthy(Get(rep, "url")) then [] else [Source(MissingRepositoryUrl)])
      + (if !Truthy(commit) then [Source(MissingRepositoryCommit)]
         else if !IsCommitHash(Display(commit)) then [Source(InvalidRepositoryCommit(commit.value))]
         else [])
      + (if Truthy(Get(rep, "path")) then [] else [Source(MissingRepositoryPath)])
  }

  predicate IsGithubRawUrl(u: string) {
    ParseRawGithubUrl(u).Some?
  }

  function GithubSourceErrors(s: Json): (r: Checked)
    ensures r.Failure? <==> NonStringTruthy(Get(s, "repo")) || NonStringTruthy(Get(s, "contentHash"))
                            || NonStringTruthy(Get(s, "url"))
    ensures r.Success? ==> AllTypeSpecific(r.value)
  {
    var hash := Get(s, "hash");
    var hashErrors := if Truthy(hash) && !IsCommitHash(Display(hash)) then [Source(InvalidCommitHash(hash.value))] else [];
    var repo := MatchCheck(Get(s, "repo"), "metadata.source.repo.match", IsOwnerRepo, AsRepo);
    var contentHash := MatchCheck(Get(s, "contentHash"), "metadata.source.contentHash.match", IsContentHash, AsContentHash);
    var middle: Checked := Success(RepositoryErrors(Get(s, "repository")) + hashErrors);
    var url := MatchCheck(Get(s, "url"), "metadata.source.url.match", IsGithubRawUrl, AsGithubUrl);
    ThenTypeSpecific(middle, url);
    ThenTypeSpecific(contentHash, Then(middle, url));
    ThenTypeSpecific(repo, Then(contentHash, Then(middle, url)));
    Then(repo, Then(contentHash, Then(middle, url)))
  }

  lemma ThenTypeSpecific(a: Checked, b: Checked)
    requires a.Success? ==> AllTypeSpecific(a.value)
    requires b.Success? ==> AllTypeSpecific(b.value)
    ensures Then(a, b).Success? ==> AllTypeSpecific(Then(a, b).value)
  {
  }

  /** Where `.match` meets a truthy non-string in the checks for the source's type. */
  predicate TypeSpecificThrows(s: Json) {
    var t := Get(s, "type");
    var url := NonStringTruthy(Get(s, "url"));
    var contentHash := NonStringTruthy(Get(s, "contentHash"));
    (t == Some(JStr("gist")) && (contentHash || url))
    || (t == Some(JStr("github")) && (NonStringTruthy(Get(s, "repo")) || contentHash || url))
    || (t == Some(JStr("external")) && url)
  }

  /** The checks that depend on `source.type`. */
  function TypeSpecificErrors(s: Json): (r: Checked)
    ensures r.Success? ==> AllTypeSpecific(r.value)
    ensures r.Failure? <==> TypeSpecificThrows(s)
  {
    var t := Get(s, "type");
    if t == Some(JStr("gist")) then GistSourceErrors(s)
    else if t == Some(JStr("github")) then GithubSourceErrors(s)
    else if t == Some(JStr("external")) then
      MatchCheck(Get(s, "url"), "metadata.source.url.match", IsExternalUrl, AsExternalUrl)
    else Success([])
  }

  function SourceErrors(src: Option<Json>): (r: Checked)
    ensures r.Success? ==> AllSource(r.value)
  {
    if !Truthy(src) then Success([])
    else if !IsObjectType(src) then Success([Source(SourceNotObject)])
    else
      var s := src.value;
      Then(Success(MissingSourceFields(s, RequiredSourceFields) + SourceTypeErrors(Get(s, "type"))),
           TypeSpecificErrors(s))
  }

  /** `typeof null === 'object'`, so a `null` record passes the object test and reading its
      `packages` or `commands` throws. */
  predicate RuntimeThrows(runtime: string, deps: Json) {
    deps.JNull? && (runtime in PackageRuntimes || runtime in CommandRuntimes)
  }

  /** The checks on one `[runtime, deps]` entry of `dependencies`. */
  function RuntimeErrors(runtime: string, deps: Json): (r: Checked)
    ensures r.Success? ==> AllDependency(r.value)
    ensures r.Failure? <==> RuntimeThrows(runtime, deps)
  {
    var head := if runtime in ValidRuntimes then [] else [Dependency(InvalidRuntime(runtime))];
    if !(deps.JNull? || deps.JArr? || deps.JObj?) then Success(head + [Dependency(RuntimeDepsNotObject(runtime))])
    else if runtime in PackageRuntimes then
      if deps.JNull? then Failure(ReadOfNull("packages"))
      else
        var p := Get(deps, "packages");
        Success(head + if Truthy(p) && !IsArray(p) then [Dependency(PackagesNotArray(runtime))] else [])
    else if runtime in CommandRuntimes then
      if deps.JNull? then Failure(ReadOfNull("commands"))
      else
        var c := Get(deps, "commands");
        Success(head + if Truthy(c) && !IsArray(c) then [Dependency(CommandsNotArray(runtime))] else [])
    else Success(head)
  }

  function EntriesErrors(es: Fields): (r: Checked)
    ensures r.Success? ==> AllDependency(r.value)
    ensures r.Failure? <==> exists i :: 0 <= i < |es| && RuntimeThrows(es[i].0, es[i].1)
    decreases |es|
  {
    if |es| == 0 then Success([])
    else
      var n := |es| - 1;
      var pre := es[..n];
      assert forall i :: 0 <= i < n ==> pre[i] == es[i];
      Then(EntriesErrors(pre), RuntimeErrors(es[n].0, es[n].1))
  }

  function DependencyErrors(d: Option<Json>): (r: Checked)
    ensures r.Success? ==> AllDependency(r.value)
  {
    if !Truthy(d) then Success([])
    else if !IsObjectType(d) then Success([Dependency(DependenciesNotObject)])
    else EntriesErrors(Entries(d.value))
  }

  /** `for (const x of xs) if (!ok(x)) errors.push(wrap(x))` for the array fields. */
  function ElementErrors(xs: seq<Json>, ok: Json -> bool): (r: seq<ListError>)
    ensures forall x :: InvalidElement(x) in r <==> x in xs && !ok(x)
    ensures NotArray !in r
    decreases |xs|
  {
    if |xs| == 0 then []
    else
      var n := |xs| - 1;
      assert xs == xs[..n] + [xs[n]];
      ElementErrors(xs[..n], ok) + (if ok(xs[n]) then [] else [InvalidElement(xs[n])])
  }

  /** `^[a-z0-9-]+$` on a string. */
  predicate ValidKeyword(k: Json) {
    k.JStr? && IsSlug(k.s)
  }

  /** One of the runtimes, as a string. */
  predicate ValidNeed(n: Json) {
    n.JStr? && n.s in ValidRuntimes
  }

  /** `Number.isInteger(u) && u > 0` */
  predicate ValidUserId(u: Json) {
    u.JNum? && u.n > 0
  }

  /** A block over an array field: nothing when the field is falsy, one error when it is not
      an array, otherwise one error per failing element. */
  function ListErrors(o: Option<Json>, ok: Json -> bool): (r: seq<ListError>)
    ensures !Truthy(o) ==> r == []
    ensures Truthy(o) && !IsArray(o) ==> r == [NotArray]
    ensures IsArray(o) ==> forall x :: InvalidElement(x) in r <==> x in o.value.items && !ok(x)
    ensures IsArray(o) ==> NotArray !in r
  {
    if !Truthy(o) then []
    else if !IsArray(o) then [NotArray]
    else ElementErrors(o.value.items, ok)
  }

  function Wrap(es: seq<ListError>, wrap: ListError -> MetaError): (r: Errors)
    ensures |r| == |es| && forall i :: 0 <= i < |es| ==> r[i] == wrap(es[i])
  {
    seq(|es|, i requires 0 <= i < |es| => wrap(es[i]))
  }

  function AsKeyword(e: ListError): MetaError { Keyword(e) }
  function AsMlldVersion(v: string): MetaError { InvalidMlldVersion(v) }
  function AsVersion(v: string): MetaError { InvalidVersion(v) }
  function AsNeed(e: ListError): MetaError { Need(e) }
  function AsOwner(e: ListError): MetaError { Owner(e) }

  function PublishedAtErrors(o: Option<Json>, dateValid: Json -> bool): Errors {
    if Truthy(o) && !dateValid(o.value) then [InvalidPublishedAt(o.value)] else []
  }

  function CategoryErrors(o: Option<Json>): Errors {
    if Truthy(o) && !IsOneOf(o, ValidCategories) then [InvalidCategory(o.value)] else []
  }

  function LicenseErrors(o: Option<Json>): Errors {
    if Truthy(o) && !o.value.JStr? then [LicenseNotString] else []
  }

  function OwnersErrors(o: Option<Json>): Errors {
    if Truthy(o) then Wrap(ListErrors(o, ValidUserId), AsOwner) else [OwnersMissing]
  }

  /** The blocks before `source`: module id format, required fields, name, author. */
  function HeadErrors(moduleId: string, m: Json): Errors {
    NameFormatErrors(moduleId) + MissingFields(m, RequiredFields) + NameMismatchErrors(moduleId, m) + AuthorErrors(m)
  }

  /** The blocks after `version`: license, needs, ownerGithubUserIds. */
  function TailErrors(m: Json): Errors {
    LicenseErrors(Get(m, "license")) + Wrap(ListErrors(Get(m, "needs"), ValidNeed), AsNeed)
    + OwnersErrors(Get(m, "ownerGithubUserIds"))
  }

  /** The errors validateMetadata returns for `metadata` under `moduleId`, or the
      `TypeError` it throws. `dateValid` stands for `!isNaN(new Date(x).getTime())`. */
  function MetadataErrors(moduleId: string, metadata: Json, dateValid: Json -> bool): Checked {
    if metadata.JNull? then Failure(ReadOfNull("name"))
    else
      var m := metadata;
      var head := HeadErrors(moduleId, m);
      var keywords := Wrap(ListErrors(Get(m, "keywords"), ValidKeyword), AsKeyword);
      var middle := PublishedAtErrors(Get(m, "publishedAt"), dateValid) + CategoryErrors(Get(m, "category"));
      var tail := TailErrors(m);
      var afterSource := Then(Success(head), SourceErrors(Get(m, "source")));
      var afterDependencies := Then(afterSource, DependencyErrors(Get(m, "dependencies")));
      var afterMlldVersion := Then(Then(afterDependencies, Success(keywords)),
                                   MatchCheck(Get(m, "mlldVersion"), "metadata.mlldVersion.match", IsVersionRange, AsMlldVersion));
      var afterVersion := Then(Then(afterMlldVersion, Success(middle)),
                               MatchCheck(Get(m, "version"), "metadata.version.match", IsSemver, AsVersion));
      Then(afterVersion, Success(tail))
  }

  // ---------------------------------------------------------------------------
  // validateMetadata, statement by statement

  /** The loop over REQUIRED_FIELDS. */
  method CheckRequiredFields(m: Json) returns (errors: Errors)
    ensures errors == MissingFields(m, RequiredFields)
  {
    errors := [];
    var i := 0;
    while i < |RequiredFields|
      invariant 0 <= i <= |RequiredFields|
      invariant errors == MissingFields(m, RequiredFields[..i])
    {
      var field := RequiredFields[i];
      if !Truthy(Get(m, field)) {
        errors := errors + [MissingField(field)];
      }
      assert RequiredFields[..i + 1][..i] == RequiredFields[..i];
      i := i + 1;
    }
    assert RequiredFields[..i] == RequiredFields;
  }

  /** The loop over REQUIRED_SOURCE_FIELDS. */
  method CheckSourceFields(s: Json) returns (errors: Errors)
    ensures errors == MissingSourceFields(s, RequiredSourceFields)
  {
    errors := [];
    var i := 0;
    while i < |RequiredSourceFields|
      invariant 0 <= i <= |RequiredSourceFields|
      invariant errors == MissingSourceFields(s, RequiredSourceFields[..i])
    {
      var field := RequiredSourceFields[i];
      if !Truthy(Get(s, field)) {
        errors := errors + [Source(MissingSourceField(field))];
      }
      assert RequiredSourceFields[..i + 1][..i] == RequiredSourceFields[..i];
      i := i + 1;
    }
    assert RequiredSourceFields[..i] == RequiredSourceFields;
  }

  /** The loop over `Object.entries(metadata.dependencies)`; a `TypeError` ends it. */
  method CheckEntries(es: Fields) returns (r: Checked)
    ensures r == EntriesErrors(es)
  {
    var errors: Errors := [];
    var i := 0;
    while i < |es|
      invariant 0 <= i <= |es|
      invariant EntriesErrors(es[..i]) == Success(errors)
    {
      assert es[..i + 1][..i] == es[..i];
      var entry := RuntimeErrors(es[i].0, es[i].1);
      if entry.Failure? {
        assert EntriesErrors(es[..i + 1]) == entry;
        ThenFailureStays(es[..i + 1], es);
        return entry;
      }
      errors := errors + entry.value;
      i := i + 1;
    }
    assert es[..i] == es;
    return Success(errors);
  }

  /** A `TypeError` in the first entries is the outcome for the whole list. */
  lemma {:induction false} ThenFailureStays(pre: Fields, es: Fields)
    requires pre <= es && EntriesErrors(pre).Failure?
    ensures EntriesErrors(es) == EntriesErrors(pre)
    decreases |es|
  {
    if |es| > |pre| {
      var n := |es| - 1;
      assert pre <= es[..n];
      ThenFailureStays(pre, es[..n]);
    } else {
      assert pre == es;
    }
  }

  /** The loop over an array field's elements. */
  method CheckElements(xs: seq<Json>, ok: Json -> bool) returns (errors: seq<ListError>)
    ensures errors == ElementErrors(xs, ok)
  {
    errors := [];
    var i := 0;
    while i < |xs|
      invariant 0 <= i <= |xs|
      invariant errors == ElementErrors(xs[..i], ok)
    {
      if !ok(xs[i]) {
        errors := errors + [InvalidElement(xs[i])];
      }
      assert xs[..i + 1][..i] == xs[..i];
      i := i + 1;
    }
    assert xs[..i] == xs;
  }

  /** The array-field blocks (keywords, needs, ownerGithubUserIds). */
  method CheckList(o: Option<Json>, ok: Json -> bool) returns (errors: seq<ListError>)
    ensures errors == ListErrors(o, ok)
  {
    errors := [];
    if Truthy(o) {
      if !IsArray(o) {
        errors := [NotArray];
      } else {
        errors := CheckElements(o.value.items, ok);
      }
    }
  }

  /** The `source` block. */
  method CheckSource(src: Option<Json>) returns (r: Checked)
    ensures r == SourceErrors(src)
  {
    if !Truthy(src) {
      return Success([]);
    }
    if !IsObjectType(src) {
      return Success([Source(SourceNotObject)]);
    }
    var s := src.value;
    var errors := CheckSourceFields(s);
    var t := Get(s, "type");
    if !IsOneOf(t, ValidSourceTypes) {
      errors := errors + [Source(InvalidSourceType(t))];
    }
    assert errors == MissingSourceFields(s, RequiredSourceFields) + SourceTypeErrors(t);
    var specific := TypeSpecificErrors(s);
    assert SourceErrors(src) == Then(Success(errors), specific);
    if specific.Failure? {
      return specific;
    }
    return Success(errors + specific.value);
  }

  /** The module id, required-field, name and author blocks. */
  method CheckHead(moduleId: string, m: Json) returns (errors: Errors)
    ensures errors == HeadErrors(moduleId, m)
  {
    errors := [];
    if !IsModuleId(moduleId) {
      errors := [InvalidModuleName(moduleId)];
    }
    var missing := CheckRequiredFields(m);
    errors := errors + missing;
    var name := Get(m, "name");
    if Truthy(name) && name != Some(JStr(moduleId)) {
      errors := errors + [NameMismatch(name.value, moduleId)];
    }
    assert errors == NameFormatErrors(moduleId) + MissingFields(m, RequiredFields) + NameMismatchErrors(moduleId, m);
    var author := Get(m, "author");
    if Truthy(author) {
      if !author.value.JStr? {
        errors := errors + [Author(AuthorNotString)];
      } else if !IsSlug(author.value.s) {
        errors := errors + [Author(InvalidAuthor(author.value.s))];
      }
    }
  }

  /** The `dependencies` block. */
  method CheckDependencies(deps: Option<Json>) returns (r: Checked)
    ensures r == DependencyErrors(deps)
  {
    if !Truthy(deps) {
      return Success([]);
    }
    if !IsObjectType(deps) {
      return Success([Dependency(DependenciesNotObject)]);
    }
    r := CheckEntries(Entries(deps.value));
  }

  /** `if (x && !x.match(re)) errors.push(err(x))`, where `.match` throws on a non-string. */
  method CheckMatch(o: Option<Json>, callee: string, ok: string -> bool, err: string -> MetaError) returns (r: Checked)
    ensures r == MatchCheck(o, callee, ok, err)
  {
    var errors: Errors := [];
    if Truthy(o) {
      if !o.value.JStr? {
        return Failure(NotAFunction(callee));
      }
      if !ok(o.value.s) {
        errors := [err(o.value.s)];
      }
    }
    return Success(errors);
  }

  /** The license, needs and ownerGithubUserIds blocks. */
  method CheckTail(m: Json) returns (errors: Errors)
    ensures errors == TailErrors(m)
  {
    errors := [];
    var license := Get(m, "license");
    if Truthy(license) && !license.value.JStr? {
      errors := errors + [LicenseNotString];
    }
    var needs := CheckList(Get(m, "needs"), ValidNeed);
    errors := errors + Wrap(needs, AsNeed);
    var owners := Get(m, "ownerGithubUserIds");
    if Truthy(owners) {
      var ownerErrors := CheckList(owners, ValidUserId);
      errors := errors + Wrap(ownerErrors, AsOwner);
    } else {
      errors := errors + [OwnersMissing];
    }
  }

  /** The `publishedAt` and `category` blocks. */
  method CheckDateAndCategory(publishedAt: Option<Json>, category: Option<Json>, dateValid: Json -> bool) returns (middle: Errors)
    ensures middle == PublishedAtErrors(publishedAt, dateValid) + CategoryErrors(category)
  {
    middle := [];
    if Truthy(publishedAt) && !dateValid(publishedAt.value) {
      middle := [InvalidPublishedAt(publishedAt.value)];
    }
    if Truthy(category) && !IsOneOf(category, ValidCategories) {
      middle := middle + [InvalidCategory(category.value)];
    }
  }

  /** validateMetadata: the blocks run in order, each appending to `errors`; a `TypeError`
      from `.match` on a non-string, or from reading a property of `null`, ends it. */
  method ValidateMetadata(moduleId: string, metadata: Json, dateValid: Json -> bool) returns (r: Checked)
    ensures r == MetadataErrors(moduleId, metadata, dateValid)
  {
    if metadata.JNull? {
      return Failure(ReadOfNull("name"));
    }
    var m := metadata;
    var errors := CheckHead(moduleId, m);
    var source := CheckSource(Get(m, "source"));
    ghost var spec := Then(Success(errors), source);
    if source.Failure? {
      return source;
    }
    errors := errors + source.value;
    assert spec == Success(errors);
    var deps := CheckDependencies(Get(m, "dependencies"));
    spec := Then(spec, deps);
    if deps.Failure? {
      return deps;
    }
    errors := errors + deps.value;
    assert spec == Success(errors);
    var keywords := CheckList(Get(m, "keywords"), ValidKeyword);
    errors := errors + Wrap(keywords, AsKeyword);
    spec := Then(spec, Success(Wrap(keywords, AsKeyword)));
    var mlldVersion := CheckMatch(Get(m, "mlldVersion"), "metadata.mlldVersion.match", IsVersionRange, AsMlldVersion);
    spec := Then(spec, mlldVersion);
    if mlldVersion.Failure? {
      return mlldVersion;
    }
    errors := errors + mlldVersion.value;
    assert spec == Success(errors);
    var middle := CheckDateAndCategory(Get(m, "publishedAt"), Get(m, "category"), dateValid);
    errors := errors + middle;
    spec := Then(spec, Success(middle));
    var version := CheckMatch(Get(m, "version"), "metadata.version.match", IsSemver, AsVersion);
    spec := Then(spec, version);
    if version.Failure? {
      return version;
    }
    errors := errors + version.value;
    assert spec == Success(errors);
    var tail := CheckTail(m);
    spec := Then(spec, Success(tail));
    assert spec == MetadataErrors(moduleId, metadata, dateValid);
    assert spec == Success(errors + tail);
    return Success(errors + tail);
  }
}
