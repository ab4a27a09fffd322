/** The regular expressions of the registry scripts, each written out as a predicate or as a
    parser that returns the capture groups. Every parser comes with its reference reading:
    `Parse(url) == Some(p)` exactly when `p` is well formed and `url` is the URL built from
    `p` (soundness in the parser's `ensures`, completeness in a lemma), so the capture groups
    are determined by the URL. */
module Patterns {
  import opened Wrappers
  import opened Strings

  /** `^@[a-z0-9-]+\/[a-z0-9-]+$` (MODULE_NAME_REGEX, used by validate.js, publish.js and
      auto-publish.js alike). */
  predicate IsModuleId(s: string) {
    |s| > 0 && s[0] == '@' &&
    match IndexOf(s, '/')
    case None => false
    case Some(i) => IsSlug(s[1..i]) && IsSlug(s[i + 1..])
  }

  lemma SlugHasNoSlash(s: string)
    requires IsSlug(s)
    ensures '/' !in s
  {
    assert forall i :: 0 <= i < |s| ==> IsSlugChar(s[i]);
  }

  /** The reference reading of the module id pattern: `@`, a slug, `/`, a slug. */
  lemma ModuleIdIsUserSlashName(u: string, n: string)
    ensures IsModuleId("@" + u + "/" + n) <==> IsSlug(u) && IsSlug(n)
  {
    if '/' in u {
      SlashInUser(u, n);
      assert !IsSlug(u) by { if IsSlug(u) { SlugHasNoSlash(u); } }
    } else {
      SlashAfterUser(u, n);
    }
  }

  lemma SlashInUser(u: string, n: string)
    requires '/' in u
    ensures !IsModuleId("@" + u + "/" + n)
  {
    var s := "@" + u + "/" + n;
    assert s == ("@" + u) + ['/'] + n;
    var i := IndexOf(s, '/');
    assert s[1..|u| + 1] == u;
    assert i.Some? && i.value <= |u|;
    assert s[i.value + 1..][|u| - i.value] == '/';
    assert '/' in s[i.value + 1..];
    assert !IsSlug(s[i.value + 1..]) by {
      if IsSlug(s[i.value + 1..]) { SlugHasNoSlash(s[i.value + 1..]); }
    }
  }

  lemma SlashAfterUser(u: string, n: string)
    requires '/' !in u
    ensures IsModuleId("@" + u + "/" + n) <==> IsSlug(u) && IsSlug(n)
  {
    var s := "@" + u + "/" + n;
    assert s == ("@" + u) + (['/'] + n);
    assert '/' !in "@" + u;
    IndexOfAfterSegment("@" + u, '/', n);
    assert s[1..|u| + 1] == u && s[|u| + 2..] == n;
  }

  /** `moduleId.replace('@', '').replace('/', '-')`: the first `@` dropped and the first `/`
      turned into `-` (the branch name of auto-publish.js and the DNS name of dns-sync.js). */
  function Dashed(moduleId: string): string {
    ReplaceFirst(ReplaceFirst(moduleId, "@", ""), "/", "-")
  }

  /** `@user/name` becomes `user-name` when the user part has no `/`. */
  lemma DashedUserName(u: string, n: string)
    requires '/' !in u
    ensures Dashed("@" + u + "/" + n) == u + "-" + n
  {
    assert "@" + u + "/" + n == "@" + (u + "/" + n);
    ReplaceFirstAtStart("@", u + "/" + n, "");
    assert "" + (u + "/" + n) == u + ['/'] + n;
    FindAfterSegment(u, '/', n);
    var s := u + ['/'] + n;
    assert s[..|u|] == u && s[|u| + 1..] == n;
  }

  /** A module id is `@`, its user part, `/` and its name part. */
  lemma ModuleIdParts(s: string)
    requires IsModuleId(s)
    ensures var i := IndexOf(s, '/').value;
            1 <= i && s == "@" + s[1..i] + "/" + s[i + 1..] && IsSlug(s[1..i])
  {
    var i := IndexOf(s, '/').value;
    assert s == s[..1] + s[1..i] + [s[i]] + s[i + 1..];
  }

  /** `^[a-f0-9]{32}$` (GIST_ID_REGEX) */
  predicate IsGistId(s: string) { IsHex(s, 32) }

  /** `^[a-f0-9]{40}$` (COMMIT_HASH_REGEX) */
  predicate IsCommitHash(s: string) { IsHex(s, 40) }

  /** `^[a-f0-9]{64}$` (a SHA-256 content hash) */
  predicate IsContentHash(s: string) { IsHex(s, 64) }

  /** `^\d+\.\d+\.\d+$` */
  predicate IsSemver(s: string) {
    match IndexOf(s, '.')
    case None => false
    case Some(i) =>
      IsDigits(s[..i]) &&
      var t := s[i + 1..];
      match IndexOf(t, '.')
      case None => false
      case Some(j) => IsDigits(t[..j]) && IsDigits(t[j + 1..])
  }

  lemma SemverOfParts(a: string, b: string, c: string)
    requires IsDigits(a) && IsDigits(b) && IsDigits(c)
    ensures IsSemver(a + "." + b + "." + c)
  {
    assert '.' !in a by { assert forall i :: 0 <= i < |a| ==> IsDigit(a[i]); }
    assert '.' !in b by { assert forall i :: 0 <= i < |b| ==> IsDigit(b[i]); }
    var s := a + "." + b + "." + c;
    IndexOfAfterSegment(a, '.', b + "." + c);
    assert s == a + ['.'] + (b + "." + c);
    assert s[..|a|] == a && s[|a| + 1..] == b + "." + c;
    IndexOfAfterSegment(b, '.', c);
    assert b + "." + c == b + ['.'] + c;
    assert (b + "." + c)[..|b|] == b && (b + "." + c)[|b| + 1..] == c;
  }

  /** `^(>=|>|=|<|<=)?\d+\.\d+\.\d+$` (the mlldVersion range) */
  predicate IsVersionRange(s: string) {
    IsSemver(s)
    || (|s| >= 1 && (s[0] == '>' || s[0] == '=' || s[0] == '<') && IsSemver(s[1..]))
    || (|s| >= 2 && (s[..2] == ">=" || s[..2] == "<=") && IsSemver(s[2..]))
  }

  lemma VersionRangeOfSemver(op: string, v: string)
    requires op in {"", ">=", ">", "=", "<", "<="} && IsSemver(v)
    ensures IsVersionRange(op + v)
  {
    var s := op + v;
    if |op| == 1 { assert s[1..] == v; }
    if |op| == 2 { assert s[..2] == op && s[2..] == v; }
    if op == "" { assert s == v; }
  }

  /** `^[^\/]+\/[^\/]+$` (the legacy `owner/repo` form) */
  predicate IsOwnerRepo(s: string) {
    match IndexOf(s, '/')
    case None => false
    case Some(i) => i > 0 && IsSegment(s[i + 1..])
  }

  lemma OwnerRepoOfSegments(o: string, r: string)
    requires IsSegment(o) && IsSegment(r)
    ensures IsOwnerRepo(o + "/" + r)
  {
    IndexOfAfterSegment(o, '/', r);
    assert (o + "/" + r) == o + ['/'] + r;
    assert (o + "/" + r)[|o| + 1..] == r;
  }

  /** `.+\.mld` at the end of a URL: at least one character before `.mld`, no line terminator. */
  predicate IsMldPath(f: string) {
    IsDotPlus(f) && |f| >= 5 && EndsWith(f, ".mld")
  }

  /** `^https?:\/\/.+` (the external-source URL; it is not anchored at the end, so one
      character that is not a line terminator after `://` is enough). */
  predicate IsExternalUrl(s: string) {
    (StartsWith(s, "https://") && |s| > 8 && !IsLineTerminator(s[8]))
    || (StartsWith(s, "http://") && |s| > 7 && !IsLineTerminator(s[7]))
  }

  // ---------------------------------------------------------------------------
  // Raw gist URL:
  // ^https:\/\/gist\.githubusercontent\.com\/([^\/]+)\/([a-f0-9]{32})\/raw\/([a-f0-9]{40})\/(.+\.mld)$

  const GistRawHost := "https://gist.githubusercontent.com/"

  datatype RawGist = RawGist(username: string, gistId: string, commitHash: string, filename: string)

  predicate RawGistWellFormed(p: RawGist) {
    IsSegment(p.username) && IsGistId(p.gistId) && IsCommitHash(p.commitHash) && IsMldPath(p.filename)
  }

  /** The URL the pattern describes; auto-publish.js builds exactly this one. */
  function RawGistUrl(p: RawGist): string {
    GistRawHost + (p.username + ("/" + (p.gistId + ("/raw/" + (p.commitHash + ("/" + p.filename))))))
  }

  /** The capture groups of the raw gist pattern, or `None` when it does not match. */
  function ParseRawGistUrl(url: string): (r: Option<RawGist>)
    ensures r.Some? ==> RawGistWellFormed(r.value) && RawGistUrl(r.value) == url
  {
    match StripPrefix(url, GistRawHost)
    case None => None
    case Some(r1) =>
      match SplitAtFirst(r1, '/')
      case None => None
      case Some((user, r2)) =>
        if user == "" || |r2| < 32 then None
        else
          var (gistId, r3) := TakeN(r2, 32);
          match StripPrefix(r3, "/raw/")
          case None => None
          case Some(r4) =>
            if |r4| < 40 then None
            else
              var (commit, r5) := TakeN(r4, 40);
              match StripPrefix(r5, "/")
              case None => None
              case Some(file) =>
                if IsGistId(gistId) && IsCommitHash(commit) && IsMldPath(file)
                then Some(RawGist(user, gistId, commit, file))
                else None
  }

  lemma RawGistRoundTrip(p: RawGist)
    requires RawGistWellFormed(p)
    ensures ParseRawGistUrl(RawGistUrl(p)) == Some(p)
  {
    var r5 := "/" + p.filename;
    var r3 := "/raw/" + (p.commitHash + r5);
    var r2 := p.gistId + r3;
    StripPrefixOf(GistRawHost, p.username + ("/" + r2));
    SplitAtFirstOf(p.username, '/', r2);
    TakeNOf(p.gistId, r3);
    StripPrefixOf("/raw/", p.commitHash + r5);
    TakeNOf(p.commitHash, r5);
    StripPrefixOf("/", p.filename);
  }

  // ---------------------------------------------------------------------------
  // GitHub raw URL (validate.js):
  // ^https:\/\/raw\.githubusercontent\.com\/[^\/]+\/[^\/]+\/[a-f0-9]{40}\/.+\.mld$

  const GithubRawHost := "https://raw.githubusercontent.com/"

  datatype RawGithub = RawGithub(owner: string, repo: string, commit: string, path: string)

  predicate RawGithubWellFormed(p: RawGithub) {
    IsSegment(p.owner) && IsSegment(p.repo) && IsCommitHash(p.commit) && IsMldPath(p.path)
  }

  function RawGithubUrl(p: RawGithub): string {
    GithubRawHost + (p.owner + ("/" + (p.repo + ("/" + (p.commit + ("/" + p.path))))))
  }

  function ParseRawGithubUrl(url: string): (r: Option<RawGithub>)
    ensures r.Some? ==> RawGithubWellFormed(r.value) && RawGithubUrl(r.value) == url
  {
    match StripPrefix(url, GithubRawHost)
    case None => None
    case Some(r1) =>
      match SplitOwnerRepo(r1)
      case None => None
      case Some((owner, repo, r3)) =>
        match ParseCommitPath(r3)
        case None => None
        case Some((commit, path)) => Some(RawGithub(owner, repo, commit, path))
  }

  /** `([^\/]+)\/([^\/]+)\/(...)`: two non-empty path segments and the rest. */
  function SplitOwnerRepo(t: string): (r: Option<(string, string, string)>)
    ensures r.Some? ==> IsSegment(r.value.0) && IsSegment(r.value.1)
                        && t == r.value.0 + ("/" + (r.value.1 + ("/" + r.value.2)))
  {
    match SplitAtFirst(t, '/')
    case None => None
    case Some((owner, t2)) =>
      match SplitAtFirst(t2, '/')
      case None => None
      case Some((repo, rest)) =>
        if owner != "" && repo != "" then Some((owner, repo, rest)) else None
  }

  /** `[a-f0-9]{40}\/(.+\.mld)$` */
  function ParseCommitPath(t: string): (r: Option<(string, string)>)
    ensures r.Some? ==> IsCommitHash(r.value.0) && IsMldPath(r.value.1) && t == r.value.0 + ("/" + r.value.1)
  {
    if |t| < 40 then None
    else
      var (commit, t1) := TakeN(t, 40);
      match StripPrefix(t1, "/")
      case None => None
      case Some(path) => if IsCommitHash(commit) && IsMldPath(path) then Some((commit, path)) else None
  }

  lemma SplitOwnerRepoOf(o: string, r: string, rest: string)
    requires IsSegment(o) && IsSegment(r)
    ensures SplitOwnerRepo(o + ("/" + (r + ("/" + rest)))) == Some((o, r, rest))
  {
    SplitAtFirstOf(o, '/', r + ("/" + rest));
    SplitAtFirstOf(r, '/', rest);
  }

  lemma RawGithubRoundTrip(p: RawGithub)
    requires RawGithubWellFormed(p)
    ensures ParseRawGithubUrl(RawGithubUrl(p)) == Some(p)
  {
    var r3 := p.commit + ("/" + p.path);
    StripPrefixOf(GithubRawHost, p.owner + ("/" + (p.repo + ("/" + r3))));
    SplitOwnerRepoOf(p.owner, p.repo, r3);
    CommitPathOf(p.commit, p.path);
  }

  lemma CommitPathOf(commit: string, path: string)
    requires IsCommitHash(commit) && IsMldPath(path)
    ensures ParseCommitPath(commit + ("/" + path)) == Some((commit, path))
  {
    TakeNOf(commit, "/" + path);
    StripPrefixOf("/", path);
  }

  // ---------------------------------------------------------------------------
  // Friendly gist URL (auto-publish.js):
  // ^https:\/\/gist\.github\.com\/([^\/]+)\/([a-f0-9]{32})(?:\/([a-f0-9]{40}))?(?:#file-(.+))?$

  const GistHost := "https://gist.github.com/"

  datatype GistRef = GistRef(username: string, gistId: string, commitHash: Option<string>, filename: Option<string>)

  predicate GistRefWellFormed(p: GistRef) {
    IsSegment(p.username) && IsGistId(p.gistId)
    && (p.commitHash.Some? ==> IsCommitHash(p.commitHash.value))
    && (p.filename.Some? ==> IsDotPlus(p.filename.value))
  }

  function FilePart(f: Option<string>): string {
    if f.Some? then "#file-" + f.value else ""
  }

  /** What follows the gist id: `/` and the commit hash when there is one, then the file part. */
  function TailPart(c: Option<string>, f: Option<string>): string {
    if c.Some? then "/" + (c.value + FilePart(f)) else FilePart(f)
  }

  function GistRefUrl(p: GistRef): string {
    GistHost + (p.username + ("/" + (p.gistId + TailPart(p.commitHash, p.filename))))
  }

  /** `(?:#file-(.+))?$`: nothing, or `#file-` and the file fragment. */
  function ParseFilePart(t: string): (r: Option<Option<string>>)
    ensures r.Some? ==> FilePart(r.value) == t && (r.value.Some? ==> IsDotPlus(r.value.value))
  {
    if t == "" then Some(None)
    else
      match StripPrefix(t, "#file-")
      case None => None
      case Some(f) => if IsDotPlus(f) then Some(Some(f)) else None
  }

  lemma ParseFilePartOf(f: Option<string>)
    requires f.Some? ==> IsDotPlus(f.value)
    ensures ParseFilePart(FilePart(f)) == Some(f)
  {
    if f.Some? { StripPrefixOf("#file-", f.value); }
  }

  /** `(?:\/([a-f0-9]{40}))?(?:#file-(.+))?$`: a `/` can only start the commit hash, since the
      file part starts with `#`. */
  function ParseAfterGistId(t: string): (r: Option<(Option<string>, Option<string>)>)
    ensures r.Some? ==> TailPart(r.value.0, r.value.1) == t
                        && (r.value.0.Some? ==> IsCommitHash(r.value.0.value))
                        && (r.value.1.Some? ==> IsDotPlus(r.value.1.value))
  {
    match StripPrefix(t, "/")
    case Some(t1) =>
      if |t1| < 40 then None
      else
        var (commit, t2) := TakeN(t1, 40);
        (match ParseFilePart(t2)
         case None => None
         case Some(file) => if IsCommitHash(commit) then Some((Some(commit), file)) else None)
    case None =>
      match ParseFilePart(t)
      case None => None
      case Some(file) => Some((None, file))
  }

  lemma ParseAfterGistIdOf(c: Option<string>, f: Option<string>)
    requires c.Some? ==> IsCommitHash(c.value)
    requires f.Some? ==> IsDotPlus(f.value)
    ensures ParseAfterGistId(TailPart(c, f)) == Some((c, f))
  {
    ParseFilePartOf(f);
    if c.Some? {
      StripPrefixOf("/", c.value + FilePart(f));
      TakeNOf(c.value, FilePart(f));
    } else {
      FilePartHasNoSlash(f);
    }
  }

  lemma FilePartHasNoSlash(f: Option<string>)
    ensures StripPrefix(FilePart(f), "/").None?
  {
    if f.Some? {
      assert FilePart(f)[0] == '#';
    }
  }

  function ParseGistRefUrl(url: string): (r: Option<GistRef>)
    ensures r.Some? ==> GistRefWellFormed(r.value) && GistRefUrl(r.value) == url
  {
    match StripPrefix(url, GistHost)
    case None => None
    case Some(r1) =>
      match SplitAtFirst(r1, '/')
      case None => None
      case Some((user, r2)) =>
        if user == "" || |r2| < 32 then None
        else
          var (gistId, t) := TakeN(r2, 32);
          match ParseAfterGistId(t)
          case None => None
          case Some((commit, file)) =>
            if IsGistId(gistId) then Some(GistRef(user, gistId, commit, file)) else None
  }

  lemma GistRefRoundTrip(p: GistRef)
    requires GistRefWellFormed(p)
    ensures ParseGistRefUrl(GistRefUrl(p)) == Some(p)
  {
    var t := TailPart(p.commitHash, p.filename);
    var r2 := p.gistId + t;
    StripPrefixOf(GistHost, p.username + ("/" + r2));
    SplitAtFirstOf(p.username, '/', r2);
    TakeNOf(p.gistId, t);
    ParseAfterGistIdOf(p.commitHash, p.filename);
  }

  // ---------------------------------------------------------------------------
  // GitHub repository file URL (auto-publish.js):
  // ^https:\/\/github\.com\/([^\/]+)\/([^\/]+)\/blob\/([^\/]+)\/(.+\.mld)$

  const GithubHost := "https://github.com/"

  datatype RepoFile = RepoFile(owner: string, repo: string, ref: string, filepath: string)

  predicate RepoFileWellFormed(p: RepoFile) {
    IsSegment(p.owner) && IsSegment(p.repo) && IsSegment(p.ref) && IsMldPath(p.filepath)
  }

  function RepoFileUrl(p: RepoFile): string {
    GithubHost + (p.owner + ("/" + (p.repo + ("/" + ("blob/" + (p.ref + ("/" + p.filepath)))))))
  }

  function ParseRepoFileUrl(url: string): (r: Option<RepoFile>)
    ensures r.Some? ==> RepoFileWellFormed(r.value) && RepoFileUrl(r.value) == url
  {
    match StripPrefix(url, GithubHost)
    case None => None
    case Some(r1) =>
      match SplitOwnerRepo(r1)
      case None => None
      case Some((owner, repo, r3)) =>
        match ParseBlobPath(r3)
        case None => None
        case Some((ref, path)) => Some(RepoFile(owner, repo, ref, path))
  }

  /** `blob\/([^\/]+)\/(.+\.mld)$` */
  function ParseBlobPath(t: string): (r: Option<(string, string)>)
    ensures r.Some? ==> IsSegment(r.value.0) && IsMldPath(r.value.1) && t == "blob/" + (r.value.0 + ("/" + r.value.1))
  {
    match StripPrefix(t, "blob/")
    case None => None
    case Some(t1) =>
      match SplitAtFirst(t1, '/')
      case None => None
      case Some((ref, path)) => if ref != "" && IsMldPath(path) then Some((ref, path)) else None
  }

  lemma BlobPathOf(ref: string, path: string)
    requires IsSegment(ref) && IsMldPath(path)
    ensures ParseBlobPath("blob/" + (ref + ("/" + path))) == Some((ref, path))
  {
    StripPrefixOf("blob/", ref + ("/" + path));
    SplitAtFirstOf(ref, '/', path);
  }

  lemma RepoFileRoundTrip(p: RepoFile)
    requires RepoFileWellFormed(p)
    ensures ParseRepoFileUrl(RepoFileUrl(p)) == Some(p)
  {
    var r3 := "blob/" + (p.ref + ("/" + p.filepath));
    StripPrefixOf(GithubHost, p.owner + ("/" + (p.repo + ("/" + r3))));
    SplitOwnerRepoOf(p.owner, p.repo, r3);
    BlobPathOf(p.ref, p.filepath);
  }

  /** The three URL shapes of auto-publish.js start with different hosts, so at most one of
      them matches. */
  lemma UrlShapesExclusive(url: string)
    ensures ParseRawGistUrl(url).Some? ==> ParseGistRefUrl(url).None? && ParseRepoFileUrl(url).None?
    ensures ParseGistRefUrl(url).Some? ==> ParseRepoFileUrl(url).None?
  {
    if StartsWith(url, GistRawHost) && StartsWith(url, GistHost) {
      PrefixesAgree(url, GistRawHost, GistHost, 19);
      assert false;
    }
    if StartsWith(url, GistRawHost) && StartsWith(url, GithubHost) {
      PrefixesAgree(url, GistRawHost, GithubHost, 10);
      assert false;
    }
    if StartsWith(url, GistHost) && StartsWith(url, GithubHost) {
      PrefixesAgree(url, GistHost, GithubHost, 10);
      assert false;
    }
  }
}
