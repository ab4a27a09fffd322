/** `generateModuleTemplate` and the module-id check of `main` in tools/publish.js: a raw
    gist URL pinned to a commit becomes the skeleton of a registry record. */
module Publish {
  import opened Wrappers
  import opened Strings
  import opened Json
  import opened Patterns

  const InvalidUrlMessage := "Invalid gist URL format. URL must be the raw content URL with commit hash."
  const InvalidModuleIdMessage := "Error: Invalid module ID format. Must be @username/module-name"

  /** The `source` object of a template: the URL as given, with its gist id and commit. */
  function TemplateSource(p: RawGist, gistUrl: string): Json {
    JObj([("type", JStr("gist")), ("id", JStr(p.gistId)), ("hash", JStr(p.commitHash)), ("url", JStr(gistUrl))])
  }

  /** The object literal of `generateModuleTemplate` for the capture groups `p`. */
  function Template(moduleId: string, p: RawGist, gistUrl: string, publishedAt: string): Json {
    JObj([
      ("name", JStr(moduleId)),
      ("description", JStr("Brief description of what your module does")),
      ("author", JObj([("name", JStr("Your Name")), ("github", JStr(p.username))])),
      ("source", TemplateSource(p, gistUrl)),
      ("dependencies", JObj([])),
      ("keywords", JArr([])),
      ("mlldVersion", JStr(">=0.5.0")),
      ("publishedAt", JStr(publishedAt)),
      ("stats", JObj([("installs", JNum(0)), ("stars", JNum(0))]))])
  }

  /** `generateModuleTemplate(moduleId, gistUrl)`; `publishedAt` stands for the clock. */
  function GenerateModuleTemplate(moduleId: string, gistUrl: string, publishedAt: string): (r: Result<Json, string>)
    ensures r.Failure? <==> ParseRawGistUrl(gistUrl).None?
    ensures r.Failure? ==> r.error == InvalidUrlMessage
  {
    match ParseRawGistUrl(gistUrl)
    case None => Failure(InvalidUrlMessage)
    case Some(p) => Success(Template(moduleId, p, gistUrl, publishedAt))
  }

  /** A template names the module after the id, credits the user of the URL and points
      at the gist the URL pins. */
  lemma TemplateIdentity(moduleId: string, p: RawGist, gistUrl: string, publishedAt: string)
    ensures var t := Template(moduleId, p, gistUrl, publishedAt);
            Get(t, "name") == Some(JStr(moduleId))
            && OptGet(Get(t, "author"), "github") == Some(JStr(p.username))
            && Get(t, "source") == Some(TemplateSource(p, gistUrl))
  {
    var fs := Template(moduleId, p, gistUrl, publishedAt).fields;
    LookupAt(fs, 0);
    LookupAt(fs, 2);
    LookupAt(fs[2].1.fields, 1);
    LookupAt(fs, 3);
  }

  /** The rest of a template: nothing depends on anything, there are no keywords and the
      mlld version is `>=0.5.0`. */
  lemma TemplateDefaults(moduleId: string, p: RawGist, gistUrl: string, publishedAt: string)
    ensures var t := Template(moduleId, p, gistUrl, publishedAt);
            Get(t, "dependencies") == Some(JObj([]))
            && Get(t, "keywords") == Some(JArr([]))
            && Get(t, "mlldVersion") == Some(JStr(">=0.5.0"))
  {
    var fs := Template(moduleId, p, gistUrl, publishedAt).fields;
    LookupAt(fs, 4);
    LookupAt(fs, 5);
    LookupAt(fs, 6);
  }

  /** The install and star counters of a template start at 0. */
  lemma TemplateStats(moduleId: string, p: RawGist, gistUrl: string, publishedAt: string)
    ensures var t := Template(moduleId, p, gistUrl, publishedAt);
            OptGet(Get(t, "stats"), "installs") == Some(JNum(0))
            && OptGet(Get(t, "stats"), "stars") == Some(JNum(0))
  {
    var fs := Template(moduleId, p, gistUrl, publishedAt).fields;
    LookupAt(fs, 8);
    LookupAt(fs[8].1.fields, 0);
    LookupAt(fs[8].1.fields, 1);
  }

  /** A template is made exactly for the raw URL of a well-formed gist file, and it carries
      that gist's user, id and commit hash. */
  lemma TemplateOfRawUrl(moduleId: string, p: RawGist, publishedAt: string)
    requires RawGistWellFormed(p)
    ensures GenerateModuleTemplate(moduleId, RawGistUrl(p), publishedAt) == Success(Template(moduleId, p, RawGistUrl(p), publishedAt))
  {
    RawGistRoundTrip(p);
  }

  /** The properties of a template's source. */
  lemma SourceFields(p: RawGist, gistUrl: string)
    ensures var s := TemplateSource(p, gistUrl);
            Get(s, "type") == Some(JStr("gist")) && Get(s, "id") == Some(JStr(p.gistId))
            && Get(s, "hash") == Some(JStr(p.commitHash)) && Get(s, "url") == Some(JStr(gistUrl))
            && Get(s, "contentHash") == None
  {
    var fs := TemplateSource(p, gistUrl).fields;
    LookupAt(fs, 0);
    LookupAt(fs, 1);
    LookupAt(fs, 2);
    LookupAt(fs, 3);
    LookupAbsent(fs, "contentHash");
  }

  /** `main`: the module id is checked before anything is generated, and a failure of
      `generateModuleTemplate` is reported with its message. */
  function PublishCommand(moduleId: string, gistUrl: string, publishedAt: string): (r: Result<Json, string>) {
    if !IsModuleId(moduleId) then Failure(InvalidModuleIdMessage)
    else
      match GenerateModuleTemplate(moduleId, gistUrl, publishedAt)
      case Failure(e) => Failure("Error: " + e)
      case Success(t) => Success(t)
  }

  /** An id outside `@user/name` is rejected whatever the URL; a valid id gets a template
      exactly for a raw gist URL, named after the id. */
  lemma ModuleIdCheckedFirst(moduleId: string, gistUrl: string, publishedAt: string)
    ensures !IsModuleId(moduleId) ==> PublishCommand(moduleId, gistUrl, publishedAt) == Failure(InvalidModuleIdMessage)
    ensures IsModuleId(moduleId) ==>
              var r := PublishCommand(moduleId, gistUrl, publishedAt);
              (r.Success? <==> ParseRawGistUrl(gistUrl).Some?)
              && (r.Success? ==> Get(r.value, "name") == Some(JStr(moduleId)))
              && (r.Failure? ==> r.error == "Error: " + InvalidUrlMessage)
  {
    if IsModuleId(moduleId) && ParseRawGistUrl(gistUrl).Some? {
      TemplateIdentity(moduleId, ParseRawGistUrl(gistUrl).value, gistUrl, publishedAt);
    }
  }
}
