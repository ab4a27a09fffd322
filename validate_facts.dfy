/** What validateMetadata reports, stated about the whole error list: each block of the
    script contributes exactly its own errors, whatever the other blocks find, and the
    lemmas below say when each block reports what. */
module ValidateFacts {
  import opened Wrappers
  import opened Strings
  import opened Json
  import opened Patterns
  import opened Validate

  /** The errors a block adds, or none when it throws. */
  function Value(c: Checked): Errors {
    if c.Success? then c.value else []
  }

  lemma WrapOf(es: seq<ListError>, wrap: ListError -> MetaError, e: MetaError)
    requires e in Wrap(es, wrap)
    ensures exists x :: e == wrap(x)
  {
    var r := Wrap(es, wrap);
    var i :| 0 <= i < |r| && r[i] == e;
    assert e == wrap(es[i]);
  }

  /** A completed run's list is the blocks' lists, one after the other. */
  lemma MetadataChain(moduleId: string, m: Json, dateValid: Json -> bool)
    requires MetadataErrors(moduleId, m, dateValid).Success?
    ensures MetadataErrors(moduleId, m, dateValid).value
            == HeadErrors(moduleId, m) + Value(SourceErrors(Get(m, "source")))
               + Value(DependencyErrors(Get(m, "dependencies")))
               + Wrap(ListErrors(Get(m, "keywords"), ValidKeyword), AsKeyword)
               + Value(MatchCheck(Get(m, "mlldVersion"), "metadata.mlldVersion.match", IsVersionRange, AsMlldVersion))
               + (PublishedAtErrors(Get(m, "publishedAt"), dateValid) + CategoryErrors(Get(m, "category")))
               + Value(MatchCheck(Get(m, "version"), "metadata.version.match", IsSemver, AsVersion))
               + TailErrors(m)
  {
  }

  predicate HeadKind(e: MetaError) {
    e.InvalidModuleName? || e.MissingField? || e.NameMismatch? || e.Author?
  }

  predicate TailKind(e: MetaError) {
    e.LicenseNotString? || e.Need? || e.Owner? || e.OwnersMissing?
  }

  lemma HeadKinds(moduleId: string, m: Json, e: MetaError)
    requires e in HeadErrors(moduleId, m)
    ensures HeadKind(e)
  {
  }

  lemma TailKinds(m: Json, e: MetaError)
    requires e in TailErrors(m)
    ensures TailKind(e)
  {
    var o := ListErrors(Get(m, "ownerGithubUserIds"), ValidUserId);
    if e in Wrap(o, AsOwner) { WrapOf(o, AsOwner, e); }
    var n := ListErrors(Get(m, "needs"), ValidNeed);
    if e in Wrap(n, AsNeed) { WrapOf(n, AsNeed, e); }
  }

  /** The blocks between `dependencies` and `license`. */
  function MiddleErrors(m: Json, dateValid: Json -> bool): Errors {
    Wrap(ListErrors(Get(m, "keywords"), ValidKeyword), AsKeyword)
    + Value(MatchCheck(Get(m, "mlldVersion"), "metadata.mlldVersion.match", IsVersionRange, AsMlldVersion))
    + (PublishedAtErrors(Get(m, "publishedAt"), dateValid) + CategoryErrors(Get(m, "category")))
    + Value(MatchCheck(Get(m, "version"), "metadata.version.match", IsSemver, AsVersion))
  }

  predicate MiddleKind(e: MetaError) {
    e.Keyword? || e.InvalidMlldVersion? || e.InvalidPublishedAt? || e.InvalidCategory? || e.InvalidVersion?
  }

  lemma MiddleKinds(m: Json, dateValid: Json -> bool, e: MetaError)
    requires e in MiddleErrors(m, dateValid)
    ensures MiddleKind(e)
  {
    var keywords := ListErrors(Get(m, "keywords"), ValidKeyword);
    if e in Wrap(keywords, AsKeyword) { WrapOf(keywords, AsKeyword, e); }
  }

  /** A completed run's list, grouped. */
  lemma MetadataGroups(moduleId: string, m: Json, dateValid: Json -> bool)
    requires MetadataErrors(moduleId, m, dateValid).Success?
    ensures MetadataErrors(moduleId, m, dateValid).value
            == HeadErrors(moduleId, m) + Value(SourceErrors(Get(m, "source")))
               + Value(DependencyErrors(Get(m, "dependencies"))) + MiddleErrors(m, dateValid) + TailErrors(m)
  {
    MetadataChain(moduleId, m, dateValid);
    var before := HeadErrors(moduleId, m) + Value(SourceErrors(Get(m, "source")))
                  + Value(DependencyErrors(Get(m, "dependencies")));
    var keywords := Wrap(ListErrors(Get(m, "keywords"), ValidKeyword), AsKeyword);
    var mlldVersion := Value(MatchCheck(Get(m, "mlldVersion"), "metadata.mlldVersion.match", IsVersionRange, AsMlldVersion));
    var dateCategory := PublishedAtErrors(Get(m, "publishedAt"), dateValid) + CategoryErrors(Get(m, "category"));
    var version := Value(MatchCheck(Get(m, "version"), "metadata.version.match", IsSemver, AsVersion));
    Regroup(before, keywords, mlldVersion, dateCategory, version);
  }

  lemma Regroup(a: Errors, b: Errors, c: Errors, d: Errors, e: Errors)
    ensures a + b + c + d + e == a + (b + c + d + e)
  {
  }

  /** Where a completed run's error `e` comes from: its own group of blocks, whatever the
      other groups report. */
  lemma ReportedInOwnGroup(moduleId: string, m: Json, dateValid: Json -> bool, e: MetaError)
    requires MetadataErrors(moduleId, m, dateValid).Success?
    ensures var v := MetadataErrors(moduleId, m, dateValid).value;
            && (HeadKind(e) ==> (e in v <==> e in HeadErrors(moduleId, m)))
            && (e.Source? ==> (e in v <==> e in Value(SourceErrors(Get(m, "source")))))
            && (e.Dependency? ==> (e in v <==> e in Value(DependencyErrors(Get(m, "dependencies")))))
            && (MiddleKind(e) ==> (e in v <==> e in MiddleErrors(m, dateValid)))
            && (TailKind(e) ==> (e in v <==> e in TailErrors(m)))
  {
    MetadataGroups(moduleId, m, dateValid);
    var source := Value(SourceErrors(Get(m, "source")));
    var dependencies := Value(DependencyErrors(Get(m, "dependencies")));
    var head := HeadErrors(moduleId, m);
    var middle := MiddleErrors(m, dateValid);
    var tail := TailErrors(m);
    if e in head { HeadKinds(moduleId, m, e); }
    if e in middle { MiddleKinds(m, dateValid, e); }
    if e in tail { TailKinds(m, e); }
    InOwnGroup(e, head, source, dependencies, middle, tail);
  }

  /** Five groups that report disjoint kinds of error. */
  lemma InOwnGroup(e: MetaError, head: Errors, source: Errors, dependencies: Errors, middle: Errors, tail: Errors)
    requires e in head ==> HeadKind(e)
    requires e in source ==> e.Source?
    requires e in dependencies ==> e.Dependency?
    requires e in middle ==> MiddleKind(e)
    requires e in tail ==> TailKind(e)
    ensures var v := head + source + dependencies + middle + tail;
            && (HeadKind(e) ==> (e in v <==> e in head))
            && (e.Source? ==> (e in v <==> e in source))
            && (e.Dependency? ==> (e in v <==> e in dependencies))
            && (MiddleKind(e) ==> (e in v <==> e in middle))
            && (TailKind(e) ==> (e in v <==> e in tail))
  {
  }

  // ---------------------------------------------------------------------------
  // What each block reports

  /** What the head blocks report, by kind of error. */
  lemma HeadReports(moduleId: string, m: Json, e: MetaError)
    ensures var name := Get(m, "name");
            && (e.InvalidModuleName? ==> (e in HeadErrors(moduleId, m) <==> e.id == moduleId && !IsModuleId(moduleId)))
            && (e.MissingField? ==> (e in HeadErrors(moduleId, m) <==> e.field in RequiredFields && !Truthy(Get(m, e.field))))
            && (e.NameMismatch? ==>
                  (e in HeadErrors(moduleId, m) <==> e.id == moduleId && name == Some(e.name) && Truthy(name) && e.name != JStr(moduleId)))
  {
    InChainedFour(e, NameFormatErrors(moduleId), MissingFields(m, RequiredFields), NameMismatchErrors(moduleId, m), AuthorErrors(m));
  }

  /** `wrap(x)` is among the wrapped errors exactly when `x` is among the errors, for a `wrap`
      that is a constructor. */
  lemma WrapIn(es: seq<ListError>, wrap: ListError -> MetaError, x: ListError)
    requires forall a, b :: wrap(a) == wrap(b) ==> a == b
    ensures wrap(x) in Wrap(es, wrap) <==> x in es
  {
    var r := Wrap(es, wrap);
    if wrap(x) in r {
      var i :| 0 <= i < |r| && r[i] == wrap(x);
      assert wrap(es[i]) == wrap(x);
    }
    if x in es {
      var i :| 0 <= i < |es| && es[i] == x;
      assert r[i] == wrap(x);
    }
  }

  /** What the tail blocks report, by kind of error. */
  lemma TailReports(m: Json, e: MetaError)
    ensures var license := Get(m, "license");
            var owners := Get(m, "ownerGithubUserIds");
            && (e.LicenseNotString? ==> (e in TailErrors(m) <==> Truthy(license) && !license.value.JStr?))
            && (e.OwnersMissing? ==> (e in TailErrors(m) <==> !Truthy(owners)))
            && (e.Need? ==> (e in TailErrors(m) <==> e.needError in ListErrors(Get(m, "needs"), ValidNeed)))
            && (e.Owner? ==> (e in TailErrors(m) <==> Truthy(owners) && e.ownerError in ListErrors(owners, ValidUserId)))
  {
    var needs := ListErrors(Get(m, "needs"), ValidNeed);
    var owners := ListErrors(Get(m, "ownerGithubUserIds"), ValidUserId);
    if e in Wrap(needs, AsNeed) { WrapOf(needs, AsNeed, e); }
    if e in Wrap(owners, AsOwner) { WrapOf(owners, AsOwner, e); }
    if e.Need? { WrapIn(needs, AsNeed, e.needError); }
    if e.Owner? { WrapIn(owners, AsOwner, e.ownerError); }
  }

  /** The module id format is reported whatever else the record holds. */
  lemma ModuleIdFormatReported(moduleId: string, m: Json, dateValid: Json -> bool)
    requires MetadataErrors(moduleId, m, dateValid).Success?
    ensures var v := MetadataErrors(moduleId, m, dateValid).value;
            && (InvalidModuleName(moduleId) in v <==> !IsModuleId(moduleId))
            && (forall x :: InvalidModuleName(x) in v ==> x == moduleId)
  {
    var v := MetadataErrors(moduleId, m, dateValid).value;
    ReportedInOwnGroup(moduleId, m, dateValid, InvalidModuleName(moduleId));
    HeadReports(moduleId, m, InvalidModuleName(moduleId));
    forall x | InvalidModuleName(x) in v ensures x == moduleId {
      ReportedInOwnGroup(moduleId, m, dateValid, InvalidModuleName(x));
      HeadReports(moduleId, m, InvalidModuleName(x));
    }
  }

  /** A truthy `name` other than the module id is reported, whether or not the id itself is
      well formed. */
  lemma NameMismatchReported(moduleId: string, m: Json, dateValid: Json -> bool)
    requires MetadataErrors(moduleId, m, dateValid).Success?
    ensures var v := MetadataErrors(moduleId, m, dateValid).value;
            var name := Get(m, "name");
            && (Truthy(name) && name != Some(JStr(moduleId)) ==> NameMismatch(name.value, moduleId) in v)
            && (forall n, x :: NameMismatch(n, x) in v ==> x == moduleId && name == Some(n) && Truthy(name) && n != JStr(moduleId))
  {
    var v := MetadataErrors(moduleId, m, dateValid).value;
    var name := Get(m, "name");
    if Truthy(name) && name != Some(JStr(moduleId)) {
      ReportedInOwnGroup(moduleId, m, dateValid, NameMismatch(name.value, moduleId));
      HeadReports(moduleId, m, NameMismatch(name.value, moduleId));
    }
    forall n, x | NameMismatch(n, x) in v ensures x == moduleId && name == Some(n) && Truthy(name) && n != JStr(moduleId) {
      ReportedInOwnGroup(moduleId, m, dateValid, NameMismatch(n, x));
      HeadReports(moduleId, m, NameMismatch(n, x));
    }
  }

  /** One "Missing required field" error per falsy required field, and the second report of a
      missing `ownerGithubUserIds` exactly when that field is falsy. */
  lemma RequiredFieldsReported(moduleId: string, m: Json, dateValid: Json -> bool)
    requires MetadataErrors(moduleId, m, dateValid).Success?
    ensures var v := MetadataErrors(moduleId, m, dateValid).value;
            && (forall f :: MissingField(f) in v <==> f in RequiredFields && !Truthy(Get(m, f)))
            && (OwnersMissing in v <==> !Truthy(Get(m, "ownerGithubUserIds")))
  {
    var v := MetadataErrors(moduleId, m, dateValid).value;
    forall f ensures MissingField(f) in v <==> f in RequiredFields && !Truthy(Get(m, f)) {
      ReportedInOwnGroup(moduleId, m, dateValid, MissingField(f));
      HeadReports(moduleId, m, MissingField(f));
    }
    ReportedInOwnGroup(moduleId, m, dateValid, OwnersMissing);
    TailReports(m, OwnersMissing);
  }

  /** A missing `ownerGithubUserIds` is reported twice, by the required-field loop and by its
      own block, with the same text. */
  lemma OwnersMissingReportedTwice(moduleId: string, m: Json, dateValid: Json -> bool)
    requires MetadataErrors(moduleId, m, dateValid).Success?
    requires !Truthy(Get(m, "ownerGithubUserIds"))
    ensures var v := MetadataErrors(moduleId, m, dateValid).value;
            MissingField("ownerGithubUserIds") in v && OwnersMissing in v
    ensures Message(MissingField("ownerGithubUserIds")) == Message(OwnersMissing)
  {
    RequiredFieldsReported(moduleId, m, dateValid);
    assert "ownerGithubUserIds" in RequiredFields;
    SameOwnersText();
  }

  lemma SameOwnersText()
    ensures Message(MissingField("ownerGithubUserIds")) == Message(OwnersMissing)
  {
  }

  // ---------------------------------------------------------------------------
  // The source block

  predicate GeneralSourceKind(e: MetaError) {
    e.Source? && (e.sourceError.SourceNotObject? || e.sourceError.MissingSourceField? || e.sourceError.InvalidSourceType?)
  }

  /** What the source block reports, before the checks for its type. */
  lemma SourceReports(src: Option<Json>, e: MetaError)
    requires SourceErrors(src).Success?
    ensures !Truthy(src) ==> Value(SourceErrors(src)) == []
    ensures Truthy(src) && !IsObjectType(src) ==> Value(SourceErrors(src)) == [Source(SourceNotObject)]
    ensures Truthy(src) && IsObjectType(src) ==>
              var s := src.value;
              && Source(SourceNotObject) !in Value(SourceErrors(src))
              && (e.Source? && e.sourceError.MissingSourceField? ==>
                    (e in Value(SourceErrors(src)) <==> e.sourceError.field in RequiredSourceFields && !Truthy(Get(s, e.sourceError.field))))
              && (e.Source? && e.sourceError.InvalidSourceType? ==>
                    (e in Value(SourceErrors(src)) <==> e.sourceError.sourceType == Get(s, "type") && !IsOneOf(Get(s, "type"), ValidSourceTypes)))
              && (e.Source? && !GeneralSourceKind(e) ==> (e in Value(SourceErrors(src)) <==> e in TypeSpecificErrors(s).value))
  {
  }

  /** A falsy source adds nothing; a source that is not an object adds only "Source must be
      an object"; an object source gets one error per missing `type`, `hash` or `url`, and
      one for a `type` outside gist, github and external. */
  lemma SourceShapeRules(moduleId: string, m: Json, dateValid: Json -> bool, e: MetaError)
    requires MetadataErrors(moduleId, m, dateValid).Success?
    requires e.Source?
    ensures var v := MetadataErrors(moduleId, m, dateValid).value;
            var src := Get(m, "source");
            && (!Truthy(src) ==> e !in v)
            && (Truthy(src) && !IsObjectType(src) ==> (e in v <==> e == Source(SourceNotObject)))
            && (Truthy(src) && IsObjectType(src) ==>
                  match e.sourceError
                  case SourceNotObject => e !in v
                  case MissingSourceField(f) => e in v <==> f in RequiredSourceFields && !Truthy(Get(src.value, f))
                  case InvalidSourceType(t) => e in v <==> t == Get(src.value, "type") && !IsOneOf(t, ValidSourceTypes)
                  case _ => true)
  {
    ReportedInOwnGroup(moduleId, m, dateValid, e);
    SourceReports(Get(m, "source"), e);
  }

  /** The raw gist URL held in `url`, when it is a non-empty string the pattern accepts. */
  function GistUrlOf(url: Option<Json>): Option<RawGist> {
    if Truthy(url) && url.value.JStr? then ParseRawGistUrl(url.value.s) else None
  }

  /** What the gist URL check reports, by kind of error. */
  lemma GistUrlReports(url: Option<Json>, id: Option<Json>, hash: Option<Json>, e: MetaError)
    requires GistUrlErrors(url, id, hash).Success?
    ensures var r := GistUrlErrors(url, id, hash).value;
            e.Source? ==>
            match e.sourceError
            case InvalidGistUrl(u) => e in r <==> url == Some(JStr(u)) && u != "" && ParseRawGistUrl(u).None?
            case GistIdMismatch(ug, g) =>
              e in r <==> GistUrlOf(url).Some? && ug == GistUrlOf(url).value.gistId && Truthy(id) && id == Some(g) && g != JStr(ug)
            case CommitHashMismatch(uh, h) =>
              e in r <==> GistUrlOf(url).Some? && uh == GistUrlOf(url).value.commitHash && Truthy(hash) && hash == Some(h) && h != JStr(uh)
            case _ => e !in r
  {
    GistUrlKinds(url, id, hash);
    var r := GistUrlErrors(url, id, hash).value;
    if Truthy(url) {
      var u := url.value.s;
      match ParseRawGistUrl(u)
      case None =>
        assert r == [Source(InvalidGistUrl(u))];
      case Some(p) =>
        assert GistUrlOf(url) == Some(p);
        assert r == UrlMismatchErrors(p, id, hash);
        UrlMismatchReports(p, id, hash, e);
    }
  }

  /** The comparison of a parsed raw gist URL with `id` and `hash`. */
  lemma UrlMismatchReports(p: RawGist, id: Option<Json>, hash: Option<Json>, e: MetaError)
    ensures var r := UrlMismatchErrors(p, id, hash);
            e.Source? ==>
            match e.sourceError
            case GistIdMismatch(ug, g) => e in r <==> ug == p.gistId && Truthy(id) && id == Some(g) && g != JStr(ug)
            case CommitHashMismatch(uh, h) => e in r <==> uh == p.commitHash && Truthy(hash) && hash == Some(h) && h != JStr(uh)
            case _ => e !in r
  {
  }

  /** The gist URL check reports only errors about the URL. */
  lemma GistUrlKinds(url: Option<Json>, id: Option<Json>, hash: Option<Json>)
    requires GistUrlErrors(url, id, hash).Success?
    ensures forall e :: e in GistUrlErrors(url, id, hash).value ==>
              e.Source? && (e.sourceError.InvalidGistUrl? || e.sourceError.GistIdMismatch? || e.sourceError.CommitHashMismatch?)
  {
    if Truthy(url) {
      match ParseRawGistUrl(url.value.s)
      case None =>
      case Some(p) =>
        assert GistUrlErrors(url, id, hash).value == UrlMismatchErrors(p, id, hash);
    }
  }

  /** What the checks for a gist source report, by kind of error. */
  lemma GistReports(s: Json, e: MetaError)
    requires Get(s, "type") == Some(JStr("gist")) && TypeSpecificErrors(s).Success?
    ensures var r := TypeSpecificErrors(s).value;
            var id := Get(s, "id");
            var hash := Get(s, "hash");
            var contentHash := Get(s, "contentHash");
            var url := Get(s, "url");
            e.Source? ==>
            match e.sourceError
            case InvalidGistId(g) => e in r <==> Truthy(id) && id == Some(g) && !IsGistId(Display(id))
            case InvalidContentHash(h) => e in r <==> contentHash == Some(JStr(h)) && h != "" && !IsContentHash(h)
            case InvalidCommitHash(h) => e in r <==> Truthy(hash) && hash == Some(h) && !IsCommitHash(Display(hash))
            case InvalidGistUrl(_) | GistIdMismatch(_, _) | CommitHashMismatch(_, _) => e in r <==> e in GistUrlErrors(url, id, hash).value
            case _ => e !in r
  {
    var id := Get(s, "id");
    var hash := Get(s, "hash");
    var url := Get(s, "url");
    var idErrors := if Truthy(id) && !IsGistId(Display(id)) then [Source(InvalidGistId(id.value))] else [];
    var hashErrors := if Truthy(hash) && !IsCommitHash(Display(hash)) then [Source(InvalidCommitHash(hash.value))] else [];
    var contentHash := MatchCheck(Get(s, "contentHash"), "metadata.source.contentHash.match", IsContentHash, AsContentHash);
    var urlErrors := GistUrlErrors(url, id, hash);
    assert TypeSpecificErrors(s) == GistSourceErrors(s);
    assert TypeSpecificErrors(s).value == idErrors + (contentHash.value + (hashErrors + urlErrors.value));
    InNestedFour(e, idErrors, contentHash.value, hashErrors, urlErrors.value);
    GistUrlKinds(url, id, hash);
  }

  lemma InNestedFour(e: MetaError, a: Errors, b: Errors, c: Errors, d: Errors)
    ensures e in a + (b + (c + d)) <==> e in a || e in b || e in c || e in d
  {
  }

  /** A source whose checks depend on its type: an error of those checks is in a completed
      run's list exactly when they report it. */
  lemma ReportedBySpecificChecks(moduleId: string, m: Json, dateValid: Json -> bool, e: MetaError)
    requires MetadataErrors(moduleId, m, dateValid).Success?
    requires Truthy(Get(m, "source")) && IsObjectType(Get(m, "source"))
    requires e.Source? && !GeneralSourceKind(e)
    ensures TypeSpecificErrors(Get(m, "source").value).Success?
    ensures e in MetadataErrors(moduleId, m, dateValid).value <==> e in TypeSpecificErrors(Get(m, "source").value).value
  {
    MetadataGroups(moduleId, m, dateValid);
    ReportedInOwnGroup(moduleId, m, dateValid, e);
    SourceReports(Get(m, "source"), e);
  }

  /** The rules for a gist source, one error at a time: `id` is 32 lowercase hex digits,
      `contentHash` 64 and `hash` 40; `url` is a raw gist URL, and its gist id and commit hash
      agree with `id` and `hash` where those are given. */
  lemma GistSourceRules(moduleId: string, m: Json, dateValid: Json -> bool, e: MetaError)
    requires MetadataErrors(moduleId, m, dateValid).Success?
    requires Truthy(Get(m, "source")) && IsObjectType(Get(m, "source"))
    requires Get(Get(m, "source").value, "type") == Some(JStr("gist"))
    requires e.Source?
    ensures var v := MetadataErrors(moduleId, m, dateValid).value;
            var s := Get(m, "source").value;
            var id := Get(s, "id");
            var hash := Get(s, "hash");
            var contentHash := Get(s, "contentHash");
            var url := Get(s, "url");
            match e.sourceError
            case InvalidGistId(g) => e in v <==> Truthy(id) && id == Some(g) && !IsGistId(Display(id))
            case InvalidContentHash(h) => e in v <==> contentHash == Some(JStr(h)) && h != "" && !IsContentHash(h)
            case InvalidCommitHash(h) => e in v <==> Truthy(hash) && hash == Some(h) && !IsCommitHash(Display(hash))
            case InvalidGistUrl(u) => e in v <==> url == Some(JStr(u)) && u != "" && ParseRawGistUrl(u).None?
            case GistIdMismatch(ug, g) =>
              e in v <==> GistUrlOf(url).Some? && ug == GistUrlOf(url).value.gistId && Truthy(id) && id == Some(g) && g != JStr(ug)
            case CommitHashMismatch(uh, h) =>
              e in v <==> GistUrlOf(url).Some? && uh == GistUrlOf(url).value.commitHash && Truthy(hash) && hash == Some(h) && h != JStr(uh)
            case _ => true
  {
    var s := Get(m, "source").value;
    if !GeneralSourceKind(e) {
      ReportedBySpecificChecks(moduleId, m, dateValid, e);
      GistReports(s, e);
      var url := Get(s, "url");
      var id := Get(s, "id");
      var hash := Get(s, "hash");
      if e.sourceError.InvalidGistUrl? || e.sourceError.GistIdMismatch? || e.sourceError.CommitHashMismatch? {
        assert GistUrlErrors(url, id, hash).Success?;
        GistUrlReports(url, id, hash, e);
      }
    }
  }

  /** What the checks for a GitHub source report, by kind of error. */
  lemma GithubReports(s: Json, e: MetaError)
    requires Get(s, "type") == Some(JStr("github")) && TypeSpecificErrors(s).Success?
    ensures var errors := TypeSpecificErrors(s).value;
            var repo := Get(s, "repo");
            var hash := Get(s, "hash");
            var contentHash := Get(s, "contentHash");
            var repository := Get(s, "repository");
            var commit := OptGet(repository, "commit");
            var url := Get(s, "url");
            e.Source? ==>
            match e.sourceError
            case InvalidRepo(x) => e in errors <==> repo == Some(JStr(x)) && x != "" && !IsOwnerRepo(x)
            case InvalidContentHash(h) => e in errors <==> contentHash == Some(JStr(h)) && h != "" && !IsContentHash(h)
            case MissingRepositoryUrl => e in errors <==> Truthy(repository) && !Truthy(OptGet(repository, "url"))
            case MissingRepositoryCommit => e in errors <==> Truthy(repository) && !Truthy(commit)
            case InvalidRepositoryCommit(c) =>
              e in errors <==> Truthy(repository) && Truthy(commit) && commit == Some(c) && !IsCommitHash(Display(commit))
            case MissingRepositoryPath => e in errors <==> Truthy(repository) && !Truthy(OptGet(repository, "path"))
            case InvalidCommitHash(h) => e in errors <==> Truthy(hash) && hash == Some(h) && !IsCommitHash(Display(hash))
            case InvalidGithubUrl(u) => e in errors <==> url == Some(JStr(u)) && u != "" && !IsGithubRawUrl(u)
            case _ => e !in errors
  {
    var hash := Get(s, "hash");
    var hashErrors := if Truthy(hash) && !IsCommitHash(Display(hash)) then [Source(InvalidCommitHash(hash.value))] else [];
    var repo := MatchCheck(Get(s, "repo"), "metadata.source.repo.match", IsOwnerRepo, AsRepo);
    var contentHash := MatchCheck(Get(s, "contentHash"), "metadata.source.contentHash.match", IsContentHash, AsContentHash);
    var url := MatchCheck(Get(s, "url"), "metadata.source.url.match", IsGithubRawUrl, AsGithubUrl);
    var repository := RepositoryErrors(Get(s, "repository"));
    assert TypeSpecificErrors(s) == GithubSourceErrors(s);
    assert TypeSpecificErrors(s).value == repo.value + (contentHash.value + (repository + hashErrors + url.value));
    InNestedFive(e, repo.value, contentHash.value, repository, hashErrors, url.value);
    RepositoryReports(Get(s, "repository"), e);
  }

  lemma InNestedFive(e: MetaError, a: Errors, b: Errors, c: Errors, d: Errors, f: Errors)
    ensures e in a + (b + (c + d + f)) <==> e in a || e in b || e in c || e in d || e in f
  {
  }

  /** The checks on `source.repository`, by kind of error. */
  lemma RepositoryReports(repository: Option<Json>, e: MetaError)
    ensures var errors := RepositoryErrors(repository);
            var commit := OptGet(repository, "commit");
            e.Source? ==>
            match e.sourceError
            case MissingRepositoryUrl => e in errors <==> Truthy(repository) && !Truthy(OptGet(repository, "url"))
            case MissingRepositoryCommit => e in errors <==> Truthy(repository) && !Truthy(commit)
            case InvalidRepositoryCommit(c) =>
              e in errors <==> Truthy(repository) && Truthy(commit) && commit == Some(c) && !IsCommitHash(Display(commit))
            case MissingRepositoryPath => e in errors <==> Truthy(repository) && !Truthy(OptGet(repository, "path"))
            case _ => e !in errors
  {
  }

  /** The rules for a GitHub source, one error at a time: `repo` is `owner/repo`; a
      `repository` object needs `url`, `path` and a 40-hex-digit `commit`; `url` is a raw
      GitHub URL pinned to a 40-hex-digit commit and ending in `.mld`. */
  lemma GithubSourceRules(moduleId: string, m: Json, dateValid: Json -> bool, e: MetaError)
    requires MetadataErrors(moduleId, m, dateValid).Success?
    requires Truthy(Get(m, "source")) && IsObjectType(Get(m, "source"))
    requires Get(Get(m, "source").value, "type") == Some(JStr("github"))
    requires e.Source?
    ensures var v := MetadataErrors(moduleId, m, dateValid).value;
            var s := Get(m, "source").value;
            var repo := Get(s, "repo");
            var hash := Get(s, "hash");
            var contentHash := Get(s, "contentHash");
            var repository := Get(s, "repository");
            var commit := OptGet(repository, "commit");
            var url := Get(s, "url");
            match e.sourceError
            case InvalidRepo(x) => e in v <==> repo == Some(JStr(x)) && x != "" && !IsOwnerRepo(x)
            case InvalidContentHash(h) => e in v <==> contentHash == Some(JStr(h)) && h != "" && !IsContentHash(h)
            case MissingRepositoryUrl => e in v <==> Truthy(repository) && !Truthy(OptGet(repository, "url"))
            case MissingRepositoryCommit => e in v <==> Truthy(repository) && !Truthy(commit)
            case InvalidRepositoryCommit(c) =>
              e in v <==> Truthy(repository) && Truthy(commit) && commit == Some(c) && !IsCommitHash(Display(commit))
            case MissingRepositoryPath => e in v <==> Truthy(repository) && !Truthy(OptGet(repository, "path"))
            case InvalidCommitHash(h) => e in v <==> Truthy(hash) && hash == Some(h) && !IsCommitHash(Display(hash))
            case InvalidGithubUrl(u) => e in v <==> url == Some(JStr(u)) && u != "" && !IsGithubRawUrl(u)
            case SourceNotObject | MissingSourceField(_) | InvalidSourceType(_) => true
            case _ => e !in v
  {
    if !GeneralSourceKind(e) {
      ReportedBySpecificChecks(moduleId, m, dateValid, e);
      GithubReports(Get(m, "source").value, e);
    }
  }

  /** An external source is checked only for an `http://` or `https://` URL; a source of any
      other type gets no type-specific error. */
  lemma OtherSourceRules(moduleId: string, m: Json, dateValid: Json -> bool, e: MetaError)
    requires MetadataErrors(moduleId, m, dateValid).Success?
    requires Truthy(Get(m, "source")) && IsObjectType(Get(m, "source"))
    requires Get(Get(m, "source").value, "type") !in {Some(JStr("gist")), Some(JStr("github"))}
    requires e.Source? && !GeneralSourceKind(e)
    ensures var v := MetadataErrors(moduleId, m, dateValid).value;
            var s := Get(m, "source").value;
            var url := Get(s, "url");
            if Get(s, "type") == Some(JStr("external")) then
              e in v <==> e.sourceError.InvalidExternalUrl? && url == Some(JStr(e.sourceError.url)) && e.sourceError.url != ""
                          && !IsExternalUrl(e.sourceError.url)
            else e !in v
  {
    ReportedBySpecificChecks(moduleId, m, dateValid, e);
    OtherReports(Get(m, "source").value, e);
  }

  lemma OtherReports(s: Json, e: MetaError)
    requires Get(s, "type") !in {Some(JStr("gist")), Some(JStr("github"))}
    requires TypeSpecificErrors(s).Success?
    ensures var r := TypeSpecificErrors(s).value;
            var url := Get(s, "url");
            if Get(s, "type") == Some(JStr("external")) then
              e in r <==> e.Source? && e.sourceError.InvalidExternalUrl? && url == Some(JStr(e.sourceError.url))
                          && e.sourceError.url != "" && !IsExternalUrl(e.sourceError.url)
            else e !in r
  {
  }

  // ---------------------------------------------------------------------------
  // Author, format and list fields

  /** What the author block reports: a truthy `author` must be a string matching `^[a-z0-9-]+$`. */
  lemma AuthorRules(moduleId: string, m: Json, dateValid: Json -> bool, e: MetaError)
    requires MetadataErrors(moduleId, m, dateValid).Success?
    requires e.Author?
    ensures var v := MetadataErrors(moduleId, m, dateValid).value;
            var a := Get(m, "author");
            match e.authorError
            case AuthorNotString => e in v <==> Truthy(a) && !a.value.JStr?
            case InvalidAuthor(x) => e in v <==> a == Some(JStr(x)) && x != "" && !IsSlug(x)
  {
    ReportedInOwnGroup(moduleId, m, dateValid, e);
    AuthorInHead(moduleId, m, e);
    AuthorReports(m, e);
  }

  lemma AuthorInHead(moduleId: string, m: Json, e: MetaError)
    requires e.Author?
    ensures e in HeadErrors(moduleId, m) <==> e in AuthorErrors(m)
  {
  }

  lemma AuthorReports(m: Json, e: MetaError)
    requires e.Author?
    ensures var a := Get(m, "author");
            match e.authorError
            case AuthorNotString => e in AuthorErrors(m) <==> Truthy(a) && !a.value.JStr?
            case InvalidAuthor(x) => e in AuthorErrors(m) <==> a == Some(JStr(x)) && x != "" && !IsSlug(x)
  {
  }

  /** What the blocks between `dependencies` and `license` report, by kind of error. */
  lemma MiddleReports(m: Json, dateValid: Json -> bool, e: MetaError)
    ensures var r := MiddleErrors(m, dateValid);
            var mlldVersion := Get(m, "mlldVersion");
            var publishedAt := Get(m, "publishedAt");
            var category := Get(m, "category");
            var version := Get(m, "version");
            match e
            case Keyword(k) => e in r <==> k in ListErrors(Get(m, "keywords"), ValidKeyword)
            case InvalidMlldVersion(x) => e in r <==> mlldVersion == Some(JStr(x)) && x != "" && !IsVersionRange(x)
            case InvalidPublishedAt(d) => e in r <==> Truthy(publishedAt) && publishedAt == Some(d) && !dateValid(d)
            case InvalidCategory(c) => e in r <==> Truthy(category) && category == Some(c) && !IsOneOf(category, ValidCategories)
            case InvalidVersion(x) => e in r <==> version == Some(JStr(x)) && x != "" && !IsSemver(x)
            case _ => e !in r
  {
    var keywords := ListErrors(Get(m, "keywords"), ValidKeyword);
    var wrapped := Wrap(keywords, AsKeyword);
    var mlldVersion := Value(MatchCheck(Get(m, "mlldVersion"), "metadata.mlldVersion.match", IsVersionRange, AsMlldVersion));
    var dateCategory := PublishedAtErrors(Get(m, "publishedAt"), dateValid) + CategoryErrors(Get(m, "category"));
    var version := Value(MatchCheck(Get(m, "version"), "metadata.version.match", IsSemver, AsVersion));
    InChainedFour(e, wrapped, mlldVersion, dateCategory, version);
    if e in wrapped { WrapOf(keywords, AsKeyword, e); }
    if e.Keyword? { WrapIn(keywords, AsKeyword, e.keywordError); }
  }

  lemma InChainedFour(e: MetaError, a: Errors, b: Errors, c: Errors, d: Errors)
    ensures e in a + b + c + d <==> e in a || e in b || e in c || e in d
  {
  }

  /** `mlldVersion` and `version`, when they are non-empty strings, must be a version range
      and a semantic version; a truthy `publishedAt` must be a date and a truthy `category`
      one of the seventeen categories; a truthy `license` must be a string. */
  lemma FormatRules(moduleId: string, m: Json, dateValid: Json -> bool, e: MetaError)
    requires MetadataErrors(moduleId, m, dateValid).Success?
    ensures var v := MetadataErrors(moduleId, m, dateValid).value;
            var mlldVersion := Get(m, "mlldVersion");
            var publishedAt := Get(m, "publishedAt");
            var category := Get(m, "category");
            var version := Get(m, "version");
            var license := Get(m, "license");
            match e
            case InvalidMlldVersion(x) => e in v <==> mlldVersion == Some(JStr(x)) && x != "" && !IsVersionRange(x)
            case InvalidPublishedAt(d) => e in v <==> Truthy(publishedAt) && publishedAt == Some(d) && !dateValid(d)
            case InvalidCategory(c) => e in v <==> Truthy(category) && category == Some(c) && !IsOneOf(category, ValidCategories)
            case InvalidVersion(x) => e in v <==> version == Some(JStr(x)) && x != "" && !IsSemver(x)
            case LicenseNotString => e in v <==> Truthy(license) && !license.value.JStr?
            case _ => true
  {
    ReportedInOwnGroup(moduleId, m, dateValid, e);
    MiddleReports(m, dateValid, e);
    TailReports(m, e);
  }

  /** An array field's block, one error at a time. */
  lemma ListReports(o: Option<Json>, ok: Json -> bool, x: ListError)
    ensures match x
            case NotArray => x in ListErrors(o, ok) <==> Truthy(o) && !IsArray(o)
            case InvalidElement(y) => x in ListErrors(o, ok) <==> IsArray(o) && y in o.value.items && !ok(y)
  {
  }

  /** `keywords`: a truthy value that is not an array is reported once; in an array, every
      element that is not a string matching `^[a-z0-9-]+$` is reported. */
  lemma KeywordRules(moduleId: string, m: Json, dateValid: Json -> bool, k: ListError)
    requires MetadataErrors(moduleId, m, dateValid).Success?
    ensures var v := MetadataErrors(moduleId, m, dateValid).value;
            var keywords := Get(m, "keywords");
            match k
            case NotArray => Keyword(k) in v <==> Truthy(keywords) && !IsArray(keywords)
            case InvalidElement(x) => Keyword(k) in v <==> IsArray(keywords) && x in keywords.value.items && !ValidKeyword(x)
  {
    ReportedInOwnGroup(moduleId, m, dateValid, Keyword(k));
    MiddleReports(m, dateValid, Keyword(k));
    ListReports(Get(m, "keywords"), ValidKeyword, k);
  }

  /** `needs`: a truthy value that is not an array is reported once; in an array, every
      element that is not one of the runtime names is reported. */
  lemma NeedsRules(moduleId: string, m: Json, dateValid: Json -> bool, k: ListError)
    requires MetadataErrors(moduleId, m, dateValid).Success?
    ensures var v := MetadataErrors(moduleId, m, dateValid).value;
            var needs := Get(m, "needs");
            match k
            case NotArray => Need(k) in v <==> Truthy(needs) && !IsArray(needs)
            case InvalidElement(x) => Need(k) in v <==> IsArray(needs) && x in needs.value.items && !ValidNeed(x)
  {
    ReportedInOwnGroup(moduleId, m, dateValid, Need(k));
    TailReports(m, Need(k));
    ListReports(Get(m, "needs"), ValidNeed, k);
  }

  /** `ownerGithubUserIds`: a truthy value that is not an array is reported once; in an
      array, every element that is not a positive integer is reported. */
  lemma OwnersRules(moduleId: string, m: Json, dateValid: Json -> bool, k: ListError)
    requires MetadataErrors(moduleId, m, dateValid).Success?
    ensures var v := MetadataErrors(moduleId, m, dateValid).value;
            var owners := Get(m, "ownerGithubUserIds");
            match k
            case NotArray => Owner(k) in v <==> Truthy(owners) && !IsArray(owners)
            case InvalidElement(x) => Owner(k) in v <==> IsArray(owners) && x in owners.value.items && !ValidUserId(x)
  {
    ReportedInOwnGroup(moduleId, m, dateValid, Owner(k));
    TailReports(m, Owner(k));
    ListReports(Get(m, "ownerGithubUserIds"), ValidUserId, k);
  }

  // ---------------------------------------------------------------------------
  // The dependencies block

  /** When the checks on one `[runtime, deps]` entry report `d`: an unknown runtime, a record
      that is not an object, or a truthy `packages` (for js, node, py, python) or `commands`
      (for sh, bash) that is not an array. */
  predicate RuntimeReported(runtime: string, deps: Json, d: DependencyError) {
    var record := IsObjectType(Some(deps));
    match d
    case DependenciesNotObject => false
    case InvalidRuntime(x) => x == runtime && runtime !in ValidRuntimes
    case RuntimeDepsNotObject(x) => x == runtime && !record
    case PackagesNotArray(x) =>
      x == runtime && record && runtime in PackageRuntimes
      && Truthy(Get(deps, "packages")) && !IsArray(Get(deps, "packages"))
    case CommandsNotArray(x) =>
      x == runtime && record && runtime !in PackageRuntimes && runtime in CommandRuntimes
      && Truthy(Get(deps, "commands")) && !IsArray(Get(deps, "commands"))
  }

  lemma RuntimeReports(runtime: string, deps: Json, e: MetaError)
    requires RuntimeErrors(runtime, deps).Success?
    requires e.Dependency?
    ensures e in RuntimeErrors(runtime, deps).value <==> RuntimeReported(runtime, deps, e.dependencyError)
  {
  }

  /** An error of one entry's checks is among the entries' errors. */
  lemma {:induction false} EntryReported(es: Fields, i: nat, e: MetaError)
    requires EntriesErrors(es).Success?
    requires i < |es| && e in Value(RuntimeErrors(es[i].0, es[i].1))
    ensures e in EntriesErrors(es).value
    decreases |es|
  {
    var n := |es| - 1;
    var pre := es[..n];
    assert EntriesErrors(es).value == EntriesErrors(pre).value + RuntimeErrors(es[n].0, es[n].1).value;
    if i < n {
      assert pre[i] == es[i];
      EntryReported(pre, i, e);
    }
  }

  /** Each of the entries' errors comes from the checks of one entry. */
  lemma {:induction false} ReportingEntry(es: Fields, e: MetaError) returns (i: nat)
    requires EntriesErrors(es).Success?
    requires e in EntriesErrors(es).value
    ensures i < |es| && e in Value(RuntimeErrors(es[i].0, es[i].1))
    decreases |es|
  {
    var n := |es| - 1;
    var pre := es[..n];
    assert EntriesErrors(es).value == EntriesErrors(pre).value + RuntimeErrors(es[n].0, es[n].1).value;
    if e in EntriesErrors(pre).value {
      i := ReportingEntry(pre, e);
      assert pre[i] == es[i];
    } else {
      i := n;
    }
  }

  /** A falsy `dependencies` adds nothing; one that is not an object adds only "Dependencies
      must be an object"; otherwise an error is in the list exactly when the checks of one of
      its entries report it. */
  lemma DependencyRules(moduleId: string, m: Json, dateValid: Json -> bool, e: MetaError)
    requires MetadataErrors(moduleId, m, dateValid).Success?
    requires e.Dependency?
    ensures var v := MetadataErrors(moduleId, m, dateValid).value;
            var d := Get(m, "dependencies");
            && (!Truthy(d) ==> e !in v)
            && (Truthy(d) && !IsObjectType(d) ==> (e in v <==> e == Dependency(DependenciesNotObject)))
            && (Truthy(d) && IsObjectType(d) ==>
                  var es := Entries(d.value);
                  (e in v <==> exists i :: 0 <= i < |es| && RuntimeReported(es[i].0, es[i].1, e.dependencyError)))
  {
    var d := Get(m, "dependencies");
    ReportedInOwnGroup(moduleId, m, dateValid, e);
    if Truthy(d) && IsObjectType(d) {
      var es := Entries(d.value);
      assert DependencyErrors(d) == EntriesErrors(es);
      forall i | 0 <= i < |es|
        ensures e in Value(RuntimeErrors(es[i].0, es[i].1)) <==> RuntimeReported(es[i].0, es[i].1, e.dependencyError)
      {
        RuntimeReports(es[i].0, es[i].1, e);
      }
      if e in EntriesErrors(es).value {
        var i := ReportingEntry(es, e);
      }
      if exists i :: 0 <= i < |es| && RuntimeReported(es[i].0, es[i].1, e.dependencyError) {
        var i :| 0 <= i < |es| && RuntimeReported(es[i].0, es[i].1, e.dependencyError);
        EntryReported(es, i, e);
      }
    }
  }

  // ---------------------------------------------------------------------------
  // When validateMetadata throws

  /** The source block throws when the checks for its type call `.match` on a truthy
      non-string. */
  predicate SourceThrows(src: Option<Json>) {
    Truthy(src) && IsObjectType(src) && TypeSpecificThrows(src.value)
  }

  /** The dependencies block throws when an entry for a runtime whose record is read has a
      `null` record. */
  predicate DependenciesThrow(d: Option<Json>) {
    Truthy(d) && IsObjectType(d)
    && var es := Entries(d.value);
       exists i :: 0 <= i < |es| && RuntimeThrows(es[i].0, es[i].1)
  }

  /** Every way validateMetadata can end in a `TypeError` instead of returning a list. */
  predicate MetadataThrows(m: Json) {
    m.JNull? || SourceThrows(Get(m, "source")) || DependenciesThrow(Get(m, "dependencies"))
    || NonStringTruthy(Get(m, "mlldVersion")) || NonStringTruthy(Get(m, "version"))
  }

  lemma SourceThrowsExactly(src: Option<Json>)
    ensures SourceErrors(src).Failure? <==> SourceThrows(src)
  {
  }

  lemma DependenciesThrowExactly(d: Option<Json>)
    ensures DependencyErrors(d).Failure? <==> DependenciesThrow(d)
  {
  }

  /** validateMetadata throws exactly in the cases `MetadataThrows` lists; otherwise it
      returns its list, however malformed the record is. */
  lemma ThrowsExactly(moduleId: string, m: Json, dateValid: Json -> bool)
    ensures MetadataErrors(moduleId, m, dateValid).Failure? <==> MetadataThrows(m)
  {
    if !m.JNull? {
      SourceThrowsExactly(Get(m, "source"));
      DependenciesThrowExactly(Get(m, "dependencies"));
    }
  }
}
