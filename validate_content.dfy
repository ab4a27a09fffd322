/** `validateSourceContent`, `validateModule` and the counting part of `validateRegistry`
    of tools/validate.js. The network fetch and the two digests are parameters. */
module ValidateContent {
  import opened Wrappers
  import opened Strings
  import opened Json
  import opened Files
  import opened Frontmatter
  import Validate

  /** Outcome of `await fetchUrl(url)`: the body, or the message of the error it rejects with. */
  datatype Fetch = Fetched(content: string) | FetchFailed(message: string)

  /** One error of `validateSourceContent`. */
  datatype ContentError =
    | ContentHashMismatch(expected: Json, actual: string)
    | LegacyHashMismatch(expected: Json, actual: string)
    | MissingFrontmatter
    | AuthorMismatch(frontmatterAuthor: Option<string>, author: Option<Json>)
    | NameMismatch(frontmatterName: Option<string>, name: Option<string>)
    | MissingDirectives
    | FetchError(message: string)

  /** `${x}` for a value that is a string or `undefined`. */
  function ShowOpt(o: Option<string>): string {
    if o.Some? then o.value else "undefined"
  }

  function ContentMessage(e: ContentError): string {
    match e
    case ContentHashMismatch(x, a) => "Content hash mismatch: expected " + Show(x) + ", got " + a
    case LegacyHashMismatch(x, a) => "Legacy hash mismatch: expected " + Show(x) + ", got " + a
    case MissingFrontmatter => "Gist content missing required frontmatter"
    case AuthorMismatch(f, a) => "Frontmatter author mismatch: " + ShowOpt(f) + " !== " + Display(a)
    case NameMismatch(f, n) => "Frontmatter name mismatch: " + ShowOpt(f) + " !== " + ShowOpt(n)
    case MissingDirectives => "Gist content appears to be missing mlld directives"
    case FetchError(m) => "Failed to fetch gist content: " + m
  }

  // ---------------------------------------------------------------------------
  // The steps of validateSourceContent

  /** `metadata.source`, read for `metadata.source.url`: reading `url` of a missing or `null`
      source throws. */
  function SourceOf(metadata: Json): (r: Result<Json, TypeError>)
    ensures r.Success? <==> !metadata.JNull? && Get(metadata, "source").Some? && !Get(metadata, "source").value.JNull?
    ensures r.Success? ==> Some(r.value) == Get(metadata, "source")
  {
    if metadata.JNull? then Failure(ReadOfNull("source"))
    else
      match Get(metadata, "source")
      case None => Failure(ReadOfUndefined("url"))
      case Some(s) => if s.JNull? then Failure(ReadOfNull("url")) else Success(s)
  }

  /** `metadata.name.split('/')[1]`: `undefined` when the name has no `/`, a `TypeError`
      when the name is not a string. */
  function SecondNamePart(name: Option<Json>): (r: Result<Option<string>, TypeError>)
    ensures r.Success? <==> IsString(name)
    ensures r.Success? ==> (r.value.Some? <==> '/' in name.value.s)
    ensures r.Success? && r.value.Some? ==> '/' !in r.value.value
  {
    match name
    case None => Failure(ReadOfUndefined("split"))
    case Some(v) =>
      match v
      case JNull => Failure(ReadOfNull("split"))
      case JStr(s) =>
        var parts := Split(s, '/');
        SplitHasSeparator(s, '/');
        Success(if |parts| > 1 then Some(parts[1]) else None)
      case _ => Failure(NotAFunction("metadata.name.split"))
  }

  /** A string splits into more than one piece exactly when it contains the separator. */
  lemma SplitHasSeparator(s: string, c: char)
    ensures |Split(s, c)| > 1 <==> c in s
  {
    match IndexOf(s, c)
    case None =>
    case Some(i) =>
      assert s[i] == c;
  }

  /** `f === j` for a frontmatter value (a string or `undefined`) and a metadata value. */
  predicate SameString(f: Option<string>, j: Option<Json>) {
    if f.Some? then j == Some(JStr(f.value)) else j.None?
  }

  /** `frontmatter[k]`: a string, or `undefined` when no line assigned `k`. */
  function Field(fm: map<string, string>, k: string): (r: Option<string>)
    ensures r.Some? <==> k in fm
    ensures r.Some? ==> r.value == fm[k]
  {
    if k in fm then Some(fm[k]) else None
  }

  /** The SHA-256 check when `contentHash` is set, then the SHA-1 check of a legacy gist. */
  function HashErrors(source: Json, content: string, sha256: string -> string, sha1: string -> string): (r: seq<ContentError>)
    ensures forall e :: e in r ==> e.ContentHashMismatch? || e.LegacyHashMismatch?
  {
    var contentHash := Get(source, "contentHash");
    var hash := Get(source, "hash");
    var actual := sha256(content);
    var legacy := sha1(content);
    (if Truthy(contentHash) && contentHash != Some(JStr(actual)) then [ContentHashMismatch(contentHash.value, actual)] else [])
    + (if Get(source, "type") == Some(JStr("gist")) && Truthy(hash) && !Truthy(contentHash) && hash != Some(JStr(legacy))
       then [LegacyHashMismatch(hash.value, legacy)] else [])
  }

  /** The frontmatter checks: the errors pushed, and the `TypeError` that ends them when
      the name cannot be split. */
  function FrontmatterErrors(metadata: Json, content: string): (r: (seq<ContentError>, Option<TypeError>))
    ensures forall e :: e in r.0 ==> e.MissingFrontmatter? || e.AuthorMismatch? || e.NameMismatch?
  {
    CompareFrontmatter(metadata, FrontmatterOf(content))
  }

  /** The same checks, given the parsed frontmatter (`None` when there is no block). */
  function CompareFrontmatter(metadata: Json, frontmatter: Option<map<string, string>>): (r: (seq<ContentError>, Option<TypeError>))
    ensures forall e :: e in r.0 ==> e.MissingFrontmatter? || e.AuthorMismatch? || e.NameMismatch?
  {
    match frontmatter
    case None => ([MissingFrontmatter], None)
    case Some(fm) =>
      var author := Field(fm, "author");
      var authorErrors := if SameString(author, Get(metadata, "author")) then [] else [AuthorMismatch(author, Get(metadata, "author"))];
      match SecondNamePart(Get(metadata, "name"))
      case Failure(t) => (authorErrors, Some(t))
      case Success(n) =>
        var name := Field(fm, "name");
        (authorErrors + (if name == n then [] else [NameMismatch(name, n)]), None)
  }

  /** What `validateSourceContent` returns once the content is fetched. */
  function FetchedErrors(metadata: Json, source: Json, content: string, sha256: string -> string, sha1: string -> string): (r: seq<ContentError>)
  {
    var f := FrontmatterErrors(metadata, content);
    var before := HashErrors(source, content, sha256, sha1) + f.0;
    if f.1.Some? then before + [FetchError(TypeErrorMessage(f.1.value))]
    else before + (if '@' in content then [] else [MissingDirectives])
  }

  /** What `validateSourceContent` returns: every exception inside it becomes the last error. */
  function ContentErrors(metadata: Json, fetch: Option<Json> -> Fetch, sha256: string -> string, sha1: string -> string): (r: seq<ContentError>)
  {
    match SourceOf(metadata)
    case Failure(t) => [FetchError(TypeErrorMessage(t))]
    case Success(source) =>
      match fetch(Get(source, "url"))
      case FetchFailed(message) => [FetchError(message)]
      case Fetched(content) => FetchedErrors(metadata, source, content, sha256, sha1)
  }

  /** `validateSourceContent`, pushing onto its error list step by step. */
  method ValidateSourceContent(metadata: Json, fetch: Option<Json> -> Fetch, sha256: string -> string, sha1: string -> string)
    returns (errors: seq<ContentError>)
    ensures errors == ContentErrors(metadata, fetch, sha256, sha1)
  {
    var src := SourceOf(metadata);
    if src.Failure? {
      return [FetchError(TypeErrorMessage(src.error))];
    }
    var source := src.value;
    var fetched := fetch(Get(source, "url"));
    if fetched.FetchFailed? {
      return [FetchError(fetched.message)];
    }
    var content := fetched.content;
    errors := CheckHashes(source, content, sha256, sha1);
    var frontmatterErrors, thrown := CheckFrontmatter(metadata, content);
    errors := errors + frontmatterErrors;
    if thrown.Some? {
      errors := errors + [FetchError(TypeErrorMessage(thrown.value))];
      return;
    }
    if '@' !in content {
      errors := errors + [MissingDirectives];
    }
  }

  /** The two digest comparisons of `validateSourceContent`. */
  method CheckHashes(source: Json, content: string, sha256: string -> string, sha1: string -> string)
    returns (errors: seq<ContentError>)
    ensures errors == HashErrors(source, content, sha256, sha1)
  {
    errors := [];
    var contentHash := Get(source, "contentHash");
    if Truthy(contentHash) {
      var actual := sha256(content);
      if contentHash != Some(JStr(actual)) {
        errors := errors + [ContentHashMismatch(contentHash.value, actual)];
      }
    }
    var hash := Get(source, "hash");
    if Get(source, "type") == Some(JStr("gist")) && Truthy(hash) && !Truthy(contentHash) {
      var actual := sha1(content);
      if hash != Some(JStr(actual)) {
        errors := errors + [LegacyHashMismatch(hash.value, actual)];
      }
    }
  }

  /** The frontmatter comparisons of `validateSourceContent`, and the `TypeError` that
      `metadata.name.split` can throw. */
  method CheckFrontmatter(metadata: Json, content: string) returns (errors: seq<ContentError>, thrown: Option<TypeError>)
    ensures errors == FrontmatterErrors(metadata, content).0
    ensures thrown == FrontmatterErrors(metadata, content).1
  {
    var frontmatter := ParseFrontmatter(content);
    errors, thrown := CompareWithMetadata(metadata, frontmatter);
  }

  /** The comparisons themselves, once the frontmatter is parsed. */
  method CompareWithMetadata(metadata: Json, frontmatter: Option<map<string, string>>)
    returns (errors: seq<ContentError>, thrown: Option<TypeError>)
    ensures errors == CompareFrontmatter(metadata, frontmatter).0
    ensures thrown == CompareFrontmatter(metadata, frontmatter).1
  {
    errors := [];
    thrown := None;
    if frontmatter.None? {
      errors := errors + [MissingFrontmatter];
      return;
    }
    var fm := frontmatter.value;
    var author := Field(fm, "author");
    if !SameString(author, Get(metadata, "author")) {
      errors := errors + [AuthorMismatch(author, Get(metadata, "author"))];
    }
    var second := SecondNamePart(Get(metadata, "name"));
    if second.Failure? {
      return errors, Some(second.error);
    }
    var name := Field(fm, "name");
    if name != second.value {
      errors := errors + [NameMismatch(name, second.value)];
    }
  }

  // ---------------------------------------------------------------------------
  // What validateSourceContent promises

  /** A failed fetch is reported as one error, not thrown. */
  lemma FetchFailureOneError(metadata: Json, fetch: Option<Json> -> Fetch, sha256: string -> string, sha1: string -> string)
    requires SourceOf(metadata).Success?
    requires fetch(Get(SourceOf(metadata).value, "url")).FetchFailed?
    ensures ContentErrors(metadata, fetch, sha256, sha1)
            == [FetchError(fetch(Get(SourceOf(metadata).value, "url")).message)]
  {
  }

  /** The content hash is compared only when `contentHash` is set, and a mismatch is reported
      with both digests. */
  lemma ContentHashChecked(metadata: Json, source: Json, content: string, sha256: string -> string, sha1: string -> string, x: Json, a: string)
    ensures ContentHashMismatch(x, a) in FetchedErrors(metadata, source, content, sha256, sha1)
            <==> Truthy(Get(source, "contentHash")) && Get(source, "contentHash") == Some(x)
                 && a == sha256(content) && x != JStr(a)
  {
    var f := FrontmatterErrors(metadata, content);
    var e := ContentHashMismatch(x, a);
    assert e !in f.0;
    InEitherPart(e, HashErrors(source, content, sha256, sha1), f.0, f.1, content);
  }

  /** The SHA-1 digest is compared only for a gist source with `hash` and no `contentHash`. */
  lemma LegacyHashChecked(metadata: Json, source: Json, content: string, sha256: string -> string, sha1: string -> string, x: Json, b: string)
    ensures LegacyHashMismatch(x, b) in FetchedErrors(metadata, source, content, sha256, sha1)
            <==> Get(source, "type") == Some(JStr("gist")) && Truthy(Get(source, "hash"))
                 && !Truthy(Get(source, "contentHash")) && Get(source, "hash") == Some(x)
                 && b == sha1(content) && x != JStr(b)
  {
    var f := FrontmatterErrors(metadata, content);
    var e := LegacyHashMismatch(x, b);
    assert e !in f.0;
    InEitherPart(e, HashErrors(source, content, sha256, sha1), f.0, f.1, content);
  }

  /** A frontmatter error is one of the errors the frontmatter checks push. */
  lemma InEitherPart(e: ContentError, h: seq<ContentError>, f: seq<ContentError>, t: Option<TypeError>, content: string)
    requires !e.FetchError? && !e.MissingDirectives?
    ensures e in (if t.Some? then h + f + [FetchError(TypeErrorMessage(t.value))]
                  else h + f + (if '@' in content then [] else [MissingDirectives]))
            <==> e in h || e in f
  {
  }

  /** Content without a frontmatter block gets "missing frontmatter" and no comparison
      with the metadata. */
  lemma FrontmatterRequired(metadata: Json, source: Json, content: string, sha256: string -> string, sha1: string -> string)
    ensures MissingFrontmatter in FetchedErrors(metadata, source, content, sha256, sha1) <==> FrontmatterOf(content).None?
    ensures FrontmatterOf(content).None? ==>
              forall e :: e in FetchedErrors(metadata, source, content, sha256, sha1) ==> !e.AuthorMismatch? && !e.NameMismatch?
  {
    var f := FrontmatterErrors(metadata, content);
    var fo := FrontmatterOf(content);
    assert f == CompareFrontmatter(metadata, fo);
    if fo.None? {
      assert f == ([MissingFrontmatter], None);
    }
    InEitherPart(MissingFrontmatter, HashErrors(source, content, sha256, sha1), f.0, f.1, content);
  }

  /** The frontmatter author must equal `metadata.author` exactly. */
  lemma AuthorChecked(metadata: Json, source: Json, content: string, sha256: string -> string, sha1: string -> string)
    requires FrontmatterOf(content).Some?
    ensures var author := Field(FrontmatterOf(content).value, "author");
            AuthorMismatch(author, Get(metadata, "author")) in FetchedErrors(metadata, source, content, sha256, sha1)
            <==> !SameString(author, Get(metadata, "author"))
  {
    var f := FrontmatterErrors(metadata, content);
    var author := Field(FrontmatterOf(content).value, "author");
    InEitherPart(AuthorMismatch(author, Get(metadata, "author")), HashErrors(source, content, sha256, sha1), f.0, f.1, content);
  }

  /** The frontmatter name must equal the part of `metadata.name` after its first `/`. */
  lemma NameChecked(metadata: Json, source: Json, content: string, sha256: string -> string, sha1: string -> string)
    requires FrontmatterOf(content).Some? && IsString(Get(metadata, "name"))
    ensures var name := Field(FrontmatterOf(content).value, "name");
            var second := SecondNamePart(Get(metadata, "name")).value;
            NameMismatch(name, second) in FetchedErrors(metadata, source, content, sha256, sha1)
            <==> name != second
  {
    var f := FrontmatterErrors(metadata, content);
    var name := Field(FrontmatterOf(content).value, "name");
    var second := SecondNamePart(Get(metadata, "name")).value;
    InEitherPart(NameMismatch(name, second), HashErrors(source, content, sha256, sha1), f.0, f.1, content);
  }

  /** A name that is not a string makes `split` throw inside the `try`: the `TypeError` is
      reported as a fetch failure and the `@` check is skipped. */
  lemma NameNotStringCaught(metadata: Json, source: Json, content: string, sha256: string -> string, sha1: string -> string)
    requires FrontmatterOf(content).Some? && !IsString(Get(metadata, "name"))
    ensures var r := FetchedErrors(metadata, source, content, sha256, sha1);
            |r| > 0 && r[|r| - 1] == FetchError(TypeErrorMessage(SecondNamePart(Get(metadata, "name")).error))
            && MissingDirectives !in r
  {
    var f := FrontmatterErrors(metadata, content);
    assert f == CompareFrontmatter(metadata, FrontmatterOf(content));
    assert f.1 == Some(SecondNamePart(Get(metadata, "name")).error);
    var h := HashErrors(source, content, sha256, sha1);
    assert MissingDirectives !in h + f.0;
  }

  /** Content without `@` is an error, unless the name check threw before that step. */
  lemma DirectivesChecked(metadata: Json, source: Json, content: string, sha256: string -> string, sha1: string -> string)
    ensures MissingDirectives in FetchedErrors(metadata, source, content, sha256, sha1)
            <==> '@' !in content && (FrontmatterOf(content).None? || IsString(Get(metadata, "name")))
  {
    var f := FrontmatterErrors(metadata, content);
    var h := HashErrors(source, content, sha256, sha1);
    assert MissingDirectives !in h + f.0;
  }

  /** Fetched content passes exactly when both digests that are checked match, the block is
      there, its author and name agree with the metadata and the content has an `@`. */
  lemma ContentValid(metadata: Json, source: Json, content: string, sha256: string -> string, sha1: string -> string)
    ensures FetchedErrors(metadata, source, content, sha256, sha1) == []
            <==> HashErrors(source, content, sha256, sha1) == []
                 && FrontmatterOf(content).Some?
                 && SameString(Field(FrontmatterOf(content).value, "author"), Get(metadata, "author"))
                 && IsString(Get(metadata, "name"))
                 && Field(FrontmatterOf(content).value, "name") == SecondNamePart(Get(metadata, "name")).value
                 && '@' in content
  {
  }

  // ---------------------------------------------------------------------------
  // validateModule

  function Messages(es: Validate.Errors): (r: seq<string>)
    ensures |r| == |es| && forall i :: 0 <= i < |es| ==> r[i] == Validate.Message(es[i])
  {
    seq(|es|, i requires 0 <= i < |es| => Validate.Message(es[i]))
  }

  function ContentMessages(es: seq<ContentError>): (r: seq<string>)
    ensures |r| == |es| && forall i :: 0 <= i < |es| ==> r[i] == ContentMessage(es[i])
  {
    seq(|es|, i requires 0 <= i < |es| => ContentMessage(es[i]))
  }

  /** The content step runs unless `skipContent` is set or `metadata.source?.url` is falsy. */
  predicate ChecksContent(metadata: Json, skipContent: bool) {
    !skipContent && Truthy(OptGet(Get(metadata, "source"), "url"))
  }

  /** What `validateModule` returns: the metadata errors, then the content errors; a
      `TypeError` of validateMetadata is not caught. */
  function ModuleErrors(moduleId: string, metadata: Json, skipContent: bool, dateValid: Json -> bool,
                        fetch: Option<Json> -> Fetch, sha256: string -> string, sha1: string -> string): (r: Result<seq<string>, TypeError>)
  {
    match Validate.MetadataErrors(moduleId, metadata, dateValid)
    case Failure(t) => Failure(t)
    case Success(es) =>
      if ChecksContent(metadata, skipContent)
      then Success(Messages(es) + ContentMessages(ContentErrors(metadata, fetch, sha256, sha1)))
      else Success(Messages(es))
  }

  /** `validateModule` */
  method ValidateModule(moduleId: string, metadata: Json, skipContent: bool, dateValid: Json -> bool,
                        fetch: Option<Json> -> Fetch, sha256: string -> string, sha1: string -> string)
    returns (r: Result<seq<string>, TypeError>)
    ensures r == ModuleErrors(moduleId, metadata, skipContent, dateValid, fetch, sha256, sha1)
  {
    var metadataErrors := Validate.ValidateMetadata(moduleId, metadata, dateValid);
    if metadataErrors.Failure? {
      return Failure(metadataErrors.error);
    }
    var allErrors := Messages(metadataErrors.value);
    if !skipContent && Truthy(OptGet(Get(metadata, "source"), "url")) {
      var contentErrors := ValidateSourceContent(metadata, fetch, sha256, sha1);
      allErrors := allErrors + ContentMessages(contentErrors);
    }
    return Success(allErrors);
  }

  /** With `skipContent`, or without a source URL, nothing is fetched: the errors are the
      metadata errors alone. */
  lemma ContentSkipped(moduleId: string, metadata: Json, skipContent: bool, dateValid: Json -> bool,
                       fetch: Option<Json> -> Fetch, sha256: string -> string, sha1: string -> string)
    requires Validate.MetadataErrors(moduleId, metadata, dateValid).Success?
    requires skipContent || !Truthy(OptGet(Get(metadata, "source"), "url"))
    ensures ModuleErrors(moduleId, metadata, skipContent, dateValid, fetch, sha256, sha1)
            == Success(Messages(Validate.MetadataErrors(moduleId, metadata, dateValid).value))
  {
  }

  /** The content step is skipped exactly when `skipContent` is set or the URL is absent. */
  lemma ContentCheckedWithUrl(metadata: Json, skipContent: bool)
    ensures ChecksContent(metadata, skipContent)
            <==> !skipContent && SourceOf(metadata).Success? && Truthy(Get(SourceOf(metadata).value, "url"))
  {
  }

  // ---------------------------------------------------------------------------
  // validateRegistry

  /** `{valid, errors}` of one module. */
  datatype ModuleResult = ModuleResult(valid: bool, errors: seq<string>)

  /** The validation report without its timestamp. */
  datatype Report = Report(modules: nat, valid: nat, invalid: nat, totalErrors: nat, results: seq<(string, ModuleResult)>)

  /** Why no report is produced: `modules.json` is missing, is not JSON, or a `TypeError`
      escaped. */
  datatype Stop = NotFound | NotJson | Thrown(error: TypeError)

  /** What one module's validation gives: its error messages, or the error it throws. */
  type Check = (string, Json) -> Result<seq<string>, TypeError>

  /** `validateModule` with the command-line options and the outside world fixed. */
  function ModuleCheck(skipContent: bool, dateValid: Json -> bool,
                       fetch: Option<Json> -> Fetch, sha256: string -> string, sha1: string -> string): Check
  {
    (id, m) => ModuleErrors(id, m, skipContent, dateValid, fetch, sha256, sha1)
  }

  function ResultOf(errors: seq<string>): (r: ModuleResult)
    ensures r.valid <==> |r.errors| == 0
    ensures r.errors == errors
  {
    ModuleResult(|errors| == 0, errors)
  }

  /** The module results in order, or the first `TypeError`. */
  function Results(es: Fields, check: Check): Result<seq<(string, ModuleResult)>, TypeError>
    decreases |es|
  {
    if |es| == 0 then Success([])
    else
      var n := |es| - 1;
      match Results(es[..n], check)
      case Failure(t) => Failure(t)
      case Success(rs) =>
        match check(es[n].0, es[n].1)
        case Failure(t) => Failure(t)
        case Success(errors) => Success(rs + [(es[n].0, ResultOf(errors))])
  }

  function CountValid(rs: seq<(string, ModuleResult)>): nat
    decreases |rs|
  {
    if |rs| == 0 then 0 else CountValid(rs[..|rs| - 1]) + (if rs[|rs| - 1].1.valid then 1 else 0)
  }

  function CountInvalid(rs: seq<(string, ModuleResult)>): nat
    decreases |rs|
  {
    if |rs| == 0 then 0 else CountInvalid(rs[..|rs| - 1]) + (if rs[|rs| - 1].1.valid then 0 else 1)
  }

  function TotalErrors(rs: seq<(string, ModuleResult)>): nat
    decreases |rs|
  {
    if |rs| == 0 then 0 else TotalErrors(rs[..|rs| - 1]) + |rs[|rs| - 1].1.errors|
  }

  /** The modules of the registry file, `Object.entries(registry.modules || {})`, or why
      there are none to count. */
  function RegistryModules(file: Read): Result<Fields, Stop> {
    match file
    case Absent => Failure(NotFound)
    case Unreadable => Failure(NotJson)
    case Parsed(registry) =>
      if registry.JNull? then Failure(Thrown(ReadOfNull("modules")))
      else Success(EntriesOr(Get(registry, "modules")))
  }

  /** The report `validateRegistry` builds from `modules.json`. */
  function RegistryReport(file: Read, check: Check): Result<Report, Stop> {
    match RegistryModules(file)
    case Failure(stop) => Failure(stop)
    case Success(es) =>
      match Results(es, check)
      case Failure(t) => Failure(Thrown(t))
      case Success(rs) => Success(Report(|es|, CountValid(rs), CountInvalid(rs), TotalErrors(rs), rs))
  }

  /** The process exit code: 1 when the registry cannot be read or a module is invalid. */
  function ExitCode(r: Result<Report, Stop>): (code: int)
    ensures code == 0 <==> r.Success? && r.value.invalid == 0
  {
    if r.Failure? || r.value.invalid > 0 then 1 else 0
  }

  /** `validateRegistry`: the module loop, run with `validateModule` under the given options. */
  method ValidateRegistry(file: Read, skipContent: bool, dateValid: Json -> bool,
                          fetch: Option<Json> -> Fetch, sha256: string -> string, sha1: string -> string)
    returns (r: Result<Report, Stop>)
    ensures r == RegistryReport(file, ModuleCheck(skipContent, dateValid, fetch, sha256, sha1))
  {
    r := ReportLoop(file, ModuleCheck(skipContent, dateValid, fetch, sha256, sha1));
  }

  /** The loop of `validateRegistry` over the modules, for any per-module check. */
  method ReportLoop(file: Read, check: Check) returns (r: Result<Report, Stop>)
    ensures r == RegistryReport(file, check)
  {
    var found := RegistryModules(file);
    if found.Failure? {
      return Failure(found.error);
    }
    var modules := found.value;
    var totalErrors := 0;
    var results: seq<(string, ModuleResult)> := [];
    var i := 0;
    while i < |modules|
      invariant 0 <= i <= |modules|
      invariant Results(modules[..i], check) == Success(results)
      invariant totalErrors == TotalErrors(results)
    {
      assert modules[..i + 1][..i] == modules[..i];
      var errors := check(modules[i].0, modules[i].1);
      if errors.Failure? {
        FailureStays(modules, i + 1, check);
        return Failure(Thrown(errors.error));
      }
      var entry := (modules[i].0, ResultOf(errors.value));
      assert (results + [entry])[..|results|] == results;
      results := results + [entry];
      totalErrors := totalErrors + |errors.value|;
      i := i + 1;
    }
    assert modules[..|modules|] == modules;
    return Success(Report(|modules|, CountValid(results), CountInvalid(results), totalErrors, results));
  }

  /** `validateModule` is the check the report is built from. */
  method CheckModule(moduleId: string, metadata: Json, skipContent: bool, dateValid: Json -> bool,
                     fetch: Option<Json> -> Fetch, sha256: string -> string, sha1: string -> string)
    returns (r: Result<seq<string>, TypeError>)
    ensures r == ModuleCheck(skipContent, dateValid, fetch, sha256, sha1)(moduleId, metadata)
  {
    r := ValidateModule(moduleId, metadata, skipContent, dateValid, fetch, sha256, sha1);
  }

  /** Once a prefix of the modules throws, so does the whole registry, with the same error. */
  lemma {:induction false} FailureStays(es: Fields, k: nat, check: Check)
    requires k <= |es| && Results(es[..k], check).Failure?
    ensures Results(es, check) == Results(es[..k], check)
    decreases |es| - k
  {
    if k < |es| {
      assert es[..k + 1][..k] == es[..k];
      FailureStays(es, k + 1, check);
    } else {
      assert es[..k] == es;
    }
  }

  // ---------------------------------------------------------------------------
  // What the report promises

  /** Each module is counted once, as valid or as invalid. */
  lemma {:induction false} ValidPlusInvalid(rs: seq<(string, ModuleResult)>)
    ensures CountValid(rs) + CountInvalid(rs) == |rs|
    decreases |rs|
  {
    if |rs| > 0 { ValidPlusInvalid(rs[..|rs| - 1]); }
  }

  /** No module is invalid exactly when no module has an error, and then the total is 0. */
  lemma {:induction false} NoInvalid(rs: seq<(string, ModuleResult)>)
    requires forall i :: 0 <= i < |rs| ==> (rs[i].1.valid <==> |rs[i].1.errors| == 0)
    ensures CountInvalid(rs) == 0 <==> TotalErrors(rs) == 0
    ensures CountInvalid(rs) == 0 <==> forall i :: 0 <= i < |rs| ==> rs[i].1.valid
    decreases |rs|
  {
    if |rs| > 0 {
      var pre := rs[..|rs| - 1];
      assert forall i :: 0 <= i < |pre| ==> pre[i] == rs[i];
      NoInvalid(pre);
    }
  }

  /** The results are the modules in order, each valid exactly when its error list is empty. */
  lemma {:induction false} ResultsWellFormed(es: Fields, check: Check)
    requires Results(es, check).Success?
    ensures var rs := Results(es, check).value;
            |rs| == |es| && forall i :: 0 <= i < |rs| ==> rs[i].0 == es[i].0 && (rs[i].1.valid <==> |rs[i].1.errors| == 0)
    decreases |es|
  {
    if |es| > 0 {
      var n := |es| - 1;
      ResultsWellFormed(es[..n], check);
    }
  }

  /** The result of module `i` is what its validation returns. */
  lemma {:induction false} ResultOfModule(es: Fields, check: Check, i: nat)
    requires Results(es, check).Success? && i < |es|
    ensures |Results(es, check).value| == |es|
    ensures check(es[i].0, es[i].1) == Success(Results(es, check).value[i].1.errors)
    decreases |es|
  {
    ResultsWellFormed(es, check);
    var n := |es| - 1;
    var pre := es[..n];
    if i < n {
      assert pre[i] == es[i];
      ResultsWellFormed(pre, check);
      ResultOfModule(pre, check, i);
    }
  }

  /** The registry fails exactly when some module's validation throws. */
  lemma {:induction false} ResultsFail(es: Fields, check: Check)
    ensures Results(es, check).Failure? <==> exists i :: 0 <= i < |es| && check(es[i].0, es[i].1).Failure?
    decreases |es|
  {
    if |es| > 0 {
      var n := |es| - 1;
      var pre := es[..n];
      assert forall i :: 0 <= i < n ==> pre[i] == es[i];
      ResultsFail(pre, check);
    }
  }

  /** A report has one result per module, valid and invalid add up to the modules, the
      error total is the sum of the error lists, and the exit code is 0 exactly when no
      module has an error. */
  lemma ReportConsistent(file: Read, check: Check)
    requires RegistryReport(file, check).Success?
    ensures var report := RegistryReport(file, check).value;
            report.modules == |report.results| == report.valid + report.invalid
            && report.totalErrors == TotalErrors(report.results)
            && (ExitCode(Success(report)) == 0 <==> forall i :: 0 <= i < |report.results| ==> |report.results[i].1.errors| == 0)
  {
    var report := RegistryReport(file, check).value;
    var rs := report.results;
    ValidPlusInvalid(rs);
    ResultsWellFormed(RegistryModules(file).value, check);
    NoInvalid(rs);
  }
}
