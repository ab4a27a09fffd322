# mlld module registry scripts, modelled in Dafny

The mlld registry is a git repository of module records and the Node scripts that maintain it. This project models those scripts.

- A module is named `@user/name`. Its record lives in the per-user file `modules/{user}/registry.json`.
- `build-registry` merges the per-user files into one `modules.json`.
- `validate` checks every record of `modules.json` field by field, and optionally checks the module's published content against its digests and frontmatter.
- `publish` and `auto-publish` turn a source URL into a new record.
  - A source URL is a raw gist URL, a friendly gist URL or a GitHub file URL.
  - `auto-publish` also resolves gist and repository references to a pinned commit and prepares the submission branch.
- `build-index` writes the `_index/` files: full indexes, search indexes and advisories.
- `migrate-to-versions` rewrites every per-user `.json` record into a versioned directory.
- `dns-sync` plans the DNS TXT records (`v=mlld1;url=...`) that point at each module's source.
- `manage-allowlist` keeps the sorted list of trusted authors.

The model is split into these modules:

- `Wrappers`: Option and Result.
- `Strings`: the string primitives the scripts use, such as `indexOf`, `replace`, `split`, `trim` and `toLowerCase`, and the sort order of `Array.prototype.sort`.
- `Json`: JSON values with ordered properties, JavaScript truthiness, `o?.k` and `x || d`, object spread, and what `JSON.stringify` drops.
- `Files`: a directory tree of file contents.
- `Patterns`: the scripts' regular expressions as predicates and parsers, with round-trip lemmas.
- `Validate`, `ValidateFacts` and `ValidateContent`: `validate.js`.
- `Frontmatter`: `parseFrontmatter`.
- `Publish`, `AutoPublish`, `BuildRegistry`, `BuildIndex`, `Migrate` and `DnsSync`: one script each.
- `ManageAllowlist`: a class over the parsed `allowlist.json`.

The form of each part follows the script it models:

- An expression or a block of checks becomes a function.
- Each loop that accumulates becomes a method with a `while` loop. Its invariants tie the loop's state to a fold over a prefix of the input, and the method is proved equal to that fold.
- The allowlist, which `addAuthor`/`removeAuthor` update in place, is a class with `modifies` clauses.
- Its sort is an in-place insertion sort on an array.
- Exceptions are `Failure` values. JavaScript's `TypeError` on `.match` of a non-string is modelled where the scripts can raise it.

## Model

| member | source | states |
|---|---|---|
| Strings.IndexOf | tools/dns-sync.js:67-68 | the first position holding the character, or none when the string lacks it |
| Strings.Find | tools/validate.js:45 | the first position where the pattern occurs, or none exactly when it occurs nowhere |
| Strings.ReplaceFirst | tools/dns-sync.js:66-68 | a string `replace` touches only the first occurrence: before it, then the replacement, then the rest unchanged |
| Strings.StripPrefix | tools/dns-sync.js:107 | the remainder after a prefix, defined exactly when the string starts with it |
| Strings.SplitAtFirst | tools/validate.js:54 | the parts before and after the first separator, the first part free of it |
| Strings.Split | tools/validate.js:51 | the pieces contain no separator |
| Strings.SplitJoin | tools/validate.js:51 | joining the pieces of `split` with the separator gives the string back |
| Strings.Trim | tools/validate.js:56 | the result is a contiguous part of the input with no whitespace at either end, and only whitespace was removed |
| Strings.ToLower | tools/dns-sync.js:69 | same length; every character is lower-cased one by one |
| Strings.NatToString | tools/migrate-to-versions.js:97 | decimal digits, at least one, with no leading zero, whose value is the number |
| Strings.NatToStringInjective | tools/migrate-to-versions.js:97 | different numbers are written differently |
| Strings.LessTotal | tools/manage-allowlist.js:38 | any two different strings are ordered one way or the other |
| Strings.LessTransitive | tools/manage-allowlist.js:38 | the sort order is transitive |
| Strings.LessAsymmetric | tools/manage-allowlist.js:38 | the sort order is asymmetric |
| Json.Lookup | tools/validate.js:74 | a property is found exactly when some property carries the name |
| Json.LookupAt | scripts/build-index.js:40-46 | a property with no earlier namesake is the one found for its name |
| Json.LookupAbsent | tools/build-registry.js:64 | a name absent from the keys is not found |
| Json.LookupFound | tools/build-registry.js:64 | a found value sits at the first position carrying its name |
| Json.Put | tools/build-registry.js:81 | after `obj[k] = v` the name `k` gives `v` and every other name gives what it gave before |
| Json.PutKeys | tools/build-registry.js:81 | the key list is unchanged when `k` was present, and gains `k` at the end otherwise |
| Json.PutKeepsNames | tools/build-registry.js:81 | overwriting keeps every position's name |
| Json.PutDistinct | tools/build-registry.js:81 | assigning keeps the property names pairwise distinct |
| Json.Get | tools/validate.js:74 | `o[k]` on anything but an object is undefined |
| Json.Or | tools/migrate-to-versions.js:57 | `x \|\| d` is `x` when truthy and `d` otherwise |
| Json.Display | tools/validate.js:113 | a string displays as itself |
| Json.Entries | tools/validate.js:193 | `Object.entries` of an object is its properties in order, of an array its items under their decimal indices, of a string each character under its decimal index, and of `null`, a boolean or a number nothing |
| Json.Spread | scripts/build-index.js:41-45 | `{...o, k1: v1, k2: v2}` maps `k1` and `k2` to the new values and every other name as `o` does |
| Json.Compact | tools/migrate-to-versions.js:91-99 | writing never produces more properties than the literal has members |
| Json.CompactAbsent | tools/migrate-to-versions.js:91-99 | a name that no member carries is not written |
| Json.CompactLookup | tools/migrate-to-versions.js:91-99 | a member whose name no other member carries is written with its value, and is not written when undefined |
| Json.CompactMember | tools/migrate-to-versions.js:91-99 | with distinct names, each defined member is found under its name |
| Json.OrNull | tools/migrate-to-versions.js:55-60 | a defined array element is written as itself |
| Files.ReadJson | tools/build-registry.js:33-39 | a file reads as absent exactly when no entry of the directory has its name |
| Patterns.ModuleIdIsUserSlashName | tools/validate.js:11 | the module id pattern holds exactly for `@`, a slug, `/`, a slug |
| Patterns.ModuleIdParts | tools/validate.js:11 | a module id is `@`, a slug user part up to its first `/`, that `/`, and the rest |
| Patterns.DashedUserName | tools/dns-sync.js:65-70 | `@u/n` with no `/` in `u` becomes `u-n` |
| Patterns.SemverOfParts | tools/validate.js:255 | three digit strings joined by dots satisfy the version pattern |
| Patterns.VersionRangeOfSemver | tools/validate.js:235 | a version with or without a comparison prefix satisfies the mlldVersion pattern |
| Patterns.OwnerRepoOfSegments | tools/validate.js:145 | two non-empty slash-free segments joined by `/` satisfy the owner/repo pattern |
| Patterns.ParseRawGistUrl | tools/validate.js:14 | a match yields well-formed parts (user, 32-digit id, 40-digit commit, `.mld` path) that rebuild exactly the URL |
| Patterns.RawGistRoundTrip | tools/auto-publish.js:130 | parsing the URL built from well-formed parts gives those parts back |
| Patterns.ParseRawGithubUrl | tools/validate.js:175 | a match yields well-formed parts (owner, repo, 40-digit commit, `.mld` path) that rebuild exactly the URL |
| Patterns.RawGithubRoundTrip | tools/auto-publish.js:158 | parsing the raw GitHub URL built from well-formed parts gives those parts back |
| Patterns.ParseGistRefUrl | tools/auto-publish.js:74-84 | a match yields well-formed parts (user, id, optional commit, optional file) that rebuild exactly the URL |
| Patterns.GistRefRoundTrip | tools/auto-publish.js:74-84 | parsing a friendly gist URL built from its parts gives them back |
| Patterns.ParseRepoFileUrl | tools/auto-publish.js:87-97 | a match yields well-formed parts (owner, repo, ref, `.mld` path) that rebuild exactly the URL |
| Patterns.RepoFileRoundTrip | tools/auto-publish.js:87-97 | parsing a blob URL built from its parts gives them back |
| Patterns.UrlShapesExclusive | tools/auto-publish.js:58-99 | no URL has two of the three shapes, so the order of the tests does not matter |
| Frontmatter.BlockOf | tools/validate.js:45 | a block exists only for content opening with `---` and a newline; it holds no `\n---`, and a `\n---` follows it |
| Frontmatter.BlockAbsent | tools/validate.js:45-48 | there is no frontmatter exactly when the content does not start with `---` and a newline or has no closing `\n---` |
| Frontmatter.FencedBlock | tools/validate.js:45 | content built as `---`, newline, a block, `\n---` yields that block |
| Frontmatter.ValueGroup | tools/validate.js:54 | the `(.+)` group is a non-empty tail of the text after the colon, what `\s*` leaves of it |
| Frontmatter.AfterColon | tools/validate.js:54-56 | a line with a non-empty key before its first colon assigns the trimmed value group, or nothing when the text after the colon is empty or not a `.+` run |
| Frontmatter.NoColonSkipped | tools/validate.js:54-55 | a line without a colon assigns nothing |
| Frontmatter.EmptyPartSkipped | tools/validate.js:54-55 | a line with nothing before or after its colon assigns nothing |
| Frontmatter.KeyValueParsed | tools/validate.js:54-56 | `k: v` with a non-empty key and value assigns the trimmed value to the trimmed key |
| Frontmatter.CarriageReturnSkipped | tools/validate.js:54 | a line ending in a carriage return assigns nothing, since `.` does not match it |
| Frontmatter.Parsed | tools/validate.js:51-58 | one assignment or none per line, in order |
| Frontmatter.AssignedKeys | tools/validate.js:53-58 | a key is present exactly when some line assigns it |
| Frontmatter.LastAssignmentWins | tools/validate.js:53-58 | a key holds the value of the last line that assigns it |
| Frontmatter.FencedFrontmatter | tools/validate.js:44-61 | fenced content has the frontmatter of its block's lines |
| Frontmatter.ParseFrontmatter | tools/validate.js:44-61 | the line loop computes the object the assignments describe, or none when there is no block |
| Frontmatter.AssignLines | tools/validate.js:53-58 | the loop's object is the fold of the assignments of all lines |
| Validate.Then | tools/validate.js:64-294 | running two blocks in turn: the first exception wins, otherwise the lists are concatenated |
| Validate.MatchCheck | tools/validate.js:235-237 | `x && !x.match(re)`: a TypeError exactly for a truthy non-string, one error for a non-matching non-empty string, none otherwise |
| Validate.MissingFields | tools/validate.js:73-77 | a field is reported exactly when it is listed and falsy, and nothing else is reported |
| Validate.MissingSourceFields | tools/validate.js:98-102 | a source field is reported exactly when it is listed and falsy, and nothing else is reported |
| Validate.UrlMismatchErrors | tools/validate.js:134-140 | only gist id and commit hash mismatches, which the checks for gists alone report |
| Validate.GistUrlErrors | tools/validate.js:128-142 | throws exactly when the URL is a truthy non-string, and otherwise reports only gist-specific errors |
| Validate.GistSourceErrors | tools/validate.js:111-142 | throws exactly when contentHash or url is a truthy non-string, and otherwise reports only type-specific errors |
| Validate.RepositoryErrors | tools/validate.js:155-167 | the repository object checks report only type-specific errors |
| Validate.GithubSourceErrors | tools/validate.js:143-177 | throws exactly when repo, contentHash or url is a truthy non-string, and otherwise reports only type-specific errors |
| Validate.TypeSpecificErrors | tools/validate.js:111-183 | throws exactly in the type-specific throwing cases, and otherwise reports only type-specific errors |
| Validate.SourceErrors | tools/validate.js:94-185 | the source block reports only source errors |
| Validate.RuntimeErrors | tools/validate.js:194-216 | one dependency entry reports only dependency errors, and throws exactly in its throwing cases |
| Validate.EntriesErrors | tools/validate.js:193-217 | throws exactly when some entry throws, and otherwise reports only dependency errors |
| Validate.DependencyErrors | tools/validate.js:188-219 | the dependencies block reports only dependency errors |
| Validate.ElementErrors | tools/validate.js:226-230 | an element is reported exactly when it fails the test, and the list is never reported as not an array |
| Validate.ListErrors | tools/validate.js:222-232 | nothing for a falsy field, only "not an array" for a non-array, and for an array each element exactly when it fails |
| Validate.CheckRequiredFields | tools/validate.js:73-77 | the loop computes MissingFields |
| Validate.CheckSourceFields | tools/validate.js:98-102 | the loop computes MissingSourceFields |
| Validate.CheckEntries | tools/validate.js:193-217 | the dependency loop computes EntriesErrors, stopping at a TypeError |
| Validate.ThenFailureStays | tools/validate.js:193-217 | a TypeError in the first entries is the outcome for the whole object |
| Validate.CheckElements | tools/validate.js:226-230 | the loop computes ElementErrors |
| Validate.CheckList | tools/validate.js:222-232 | the array-field block computes ListErrors |
| Validate.CheckSource | tools/validate.js:94-185 | the source block computes SourceErrors |
| Validate.CheckHead | tools/validate.js:67-91 | the module id, required-field, name and author blocks compute HeadErrors |
| Validate.CheckDependencies | tools/validate.js:188-219 | the dependencies block computes DependencyErrors |
| Validate.CheckMatch | tools/validate.js:235-237 | one `.match` block computes MatchCheck |
| Validate.CheckDateAndCategory | tools/validate.js:240-252 | the publishedAt and category blocks, with date parsing as a parameter |
| Validate.CheckTail | tools/validate.js:259-291 | the license, needs and owners blocks compute TailErrors |
| Validate.ValidateMetadata | tools/validate.js:64-294 | validateMetadata returns MetadataErrors: the blocks' errors in order, or the TypeError that ends it |
| ValidateFacts.MetadataChain | tools/validate.js:64-294 | a completed run's list is every block's list, block after block |
| ValidateFacts.MetadataGroups | tools/validate.js:64-294 | the same list in five groups: head, source, dependencies, middle, tail |
| ValidateFacts.ReportedInOwnGroup | tools/validate.js:64-294 | an error of a given kind is reported exactly when its own group reports it |
| ValidateFacts.HeadReports | tools/validate.js:67-91 | what the head blocks report, kind by kind |
| ValidateFacts.TailReports | tools/validate.js:259-291 | what the tail blocks report, kind by kind |
| ValidateFacts.ModuleIdFormatReported | tools/validate.js:68-70 | the id format error appears exactly when the id fails the pattern, and only for that id |
| ValidateFacts.NameMismatchReported | tools/validate.js:80-82 | a truthy name different from the id is reported, and every report carries that name and id |
| ValidateFacts.RequiredFieldsReported | tools/validate.js:73-77 | a field is reported missing exactly when it is required and falsy; missing owners likewise |
| ValidateFacts.OwnersMissingReportedTwice | tools/validate.js:279-291 | falsy owners are reported as a missing field and again by the owners block, with the same text |
| ValidateFacts.SourceReports | tools/validate.js:94-108 | what the source block reports before the type checks |
| ValidateFacts.SourceShapeRules | tools/validate.js:94-108 | no source error for a falsy source; only "not an object" for a non-object; otherwise missing fields and an unknown type exactly |
| ValidateFacts.GistUrlReports | tools/validate.js:128-142 | the gist URL check, by kind of error |
| ValidateFacts.UrlMismatchReports | tools/validate.js:134-140 | the id and hash comparisons with a parsed URL, by kind |
| ValidateFacts.GistUrlKinds | tools/validate.js:128-142 | the URL check reports only URL errors |
| ValidateFacts.GistReports | tools/validate.js:111-142 | what the gist checks report, by kind |
| ValidateFacts.ReportedBySpecificChecks | tools/validate.js:111-183 | a type-specific error is in the list exactly when the checks for the source's type report it |
| ValidateFacts.GistSourceRules | tools/validate.js:111-142 | for a gist source, each bad id, content hash, commit hash, URL or mismatch is reported exactly when the record has it |
| ValidateFacts.GithubReports | tools/validate.js:143-177 | what the GitHub checks report, by kind |
| ValidateFacts.RepositoryReports | tools/validate.js:155-167 | the repository object checks, by kind |
| ValidateFacts.GithubSourceRules | tools/validate.js:143-177 | for a GitHub source, each repo, hash, repository or URL error is reported exactly when the record has it, and no gist error is |
| ValidateFacts.OtherSourceRules | tools/validate.js:178-183 | an external source can only get a bad URL error; any other type gets no type-specific error |
| ValidateFacts.OtherReports | tools/validate.js:178-183 | what the external check reports |
| ValidateFacts.AuthorRules | tools/validate.js:85-91 | a truthy non-string author and a non-slug string author are reported exactly |
| ValidateFacts.AuthorReports | tools/validate.js:85-91 | the author block reports at most one error, and only about the author |
| ValidateFacts.MiddleReports | tools/validate.js:222-257 | what the keyword, mlldVersion, publishedAt, category and version blocks report, by kind |
| ValidateFacts.FormatRules | tools/validate.js:235-262 | bad mlldVersion, date, category, version and non-string license are reported exactly when the record has them |
| ValidateFacts.ListReports | tools/validate.js:222-232 | an array field's block, one error at a time |
| ValidateFacts.KeywordRules | tools/validate.js:222-232 | a non-array keywords field and each bad keyword are reported exactly |
| ValidateFacts.NeedsRules | tools/validate.js:265-276 | a non-array needs field and each unknown need are reported exactly |
| ValidateFacts.OwnersRules | tools/validate.js:279-291 | a non-array owners field and each id that is not a positive integer are reported exactly |
| ValidateFacts.RuntimeReports | tools/validate.js:194-216 | what one dependency entry's checks report, by kind |
| ValidateFacts.EntryReported | tools/validate.js:193-217 | an error of one entry's checks is among the entries' errors |
| ValidateFacts.ReportingEntry | tools/validate.js:193-217 | each of the entries' errors comes from one entry's checks |
| ValidateFacts.DependencyRules | tools/validate.js:188-219 | no dependency error for falsy dependencies; only "not an object" for a non-object; otherwise exactly what some entry reports |
| ValidateFacts.SourceThrowsExactly | tools/validate.js:111-183 | the source block throws exactly when `.match` meets a truthy non-string |
| ValidateFacts.DependenciesThrowExactly | tools/validate.js:197-215 | the dependencies block throws exactly when some entry's deps reach a TypeError |
| ValidateFacts.ThrowsExactly | tools/validate.js:64-294 | validateMetadata throws exactly in the listed cases |
| ValidateContent.SourceOf | tools/validate.js:301-302 | succeeds exactly when metadata is not null and its source is defined and not null, and then gives that source |
| ValidateContent.SecondNamePart | tools/validate.js:329 | succeeds exactly for a string name; the part after the first `/` exists exactly when the name has a `/`, and holds no `/` |
| ValidateContent.Field | tools/validate.js:326 | a frontmatter value is defined exactly when some line assigned the key, and is then that value |
| ValidateContent.HashErrors | tools/validate.js:304-318 | the digest step reports only digest mismatches |
| ValidateContent.FrontmatterErrors | tools/validate.js:320-332 | the frontmatter step reports only missing-frontmatter, author and name errors |
| ValidateContent.CompareFrontmatter | tools/validate.js:322-332 | the comparisons report only missing-frontmatter, author and name errors |
| ValidateContent.ValidateSourceContent | tools/validate.js:297-344 | the method computes ContentErrors: every exception becomes the last error |
| ValidateContent.CheckHashes | tools/validate.js:304-318 | the digest comparisons compute HashErrors |
| ValidateContent.CheckFrontmatter | tools/validate.js:320-332 | the frontmatter step computes FrontmatterErrors |
| ValidateContent.CompareWithMetadata | tools/validate.js:322-332 | the comparisons compute CompareFrontmatter |
| ValidateContent.FetchFailureOneError | tools/validate.js:339-341 | a failed fetch gives exactly one error carrying its message |
| ValidateContent.ContentHashChecked | tools/validate.js:305-310 | a SHA-256 mismatch is reported exactly when contentHash is set and differs from the digest |
| ValidateContent.LegacyHashChecked | tools/validate.js:313-318 | a SHA-1 mismatch only for a gist with hash, no contentHash, and a different digest |
| ValidateContent.FrontmatterRequired | tools/validate.js:321-323 | no frontmatter exactly when the error says so, and then no author or name comparison |
| ValidateContent.AuthorChecked | tools/validate.js:326-328 | the author mismatch is reported exactly when the frontmatter author is not `metadata.author` |
| ValidateContent.NameChecked | tools/validate.js:329-331 | the name mismatch is reported exactly when the frontmatter name is not the part after `/` |
| ValidateContent.NameNotStringCaught | tools/validate.js:329-341 | a non-string name ends the check with its TypeError as the last error, before the `@` check |
| ValidateContent.DirectivesChecked | tools/validate.js:335-337 | content without `@` is reported, unless the name step threw first |
| ValidateContent.ContentValid | tools/validate.js:297-344 | no error exactly when the digests match, the frontmatter exists and agrees, and the content has `@` |
| ValidateContent.Messages | tools/validate.js:354 | one message per metadata error, in order |
| ValidateContent.ContentMessages | tools/validate.js:359 | one message per content error, in order |
| ValidateContent.ValidateModule | tools/validate.js:347-370 | the metadata errors, then the content errors when the content step runs |
| ValidateContent.ContentSkipped | tools/validate.js:357-360 | with skipContent or no URL, only the metadata messages |
| ValidateContent.ContentCheckedWithUrl | tools/validate.js:357 | the content step runs exactly when not skipped and the source has a truthy URL |
| ValidateContent.ResultOf | tools/validate.js:391-394 | a result is valid exactly when its error list is empty |
| ValidateContent.ExitCode | tools/validate.js:423-425 | exit code 0 exactly when a report exists and no module is invalid |
| ValidateContent.ValidateRegistry | tools/validate.js:373-426 | the report the module loop builds with validateModule as the per-module check |
| ValidateContent.ReportLoop | tools/validate.js:389-396 | the loop computes Results over the modules in order |
| ValidateContent.CheckModule | tools/validate.js:390 | validateModule is the check the report uses |
| ValidateContent.FailureStays | tools/validate.js:389-396 | a throwing prefix makes the whole registry throw, with the same error |
| ValidateContent.ValidPlusInvalid | tools/validate.js:402-403 | each module counts once, as valid or invalid |
| ValidateContent.NoInvalid | tools/validate.js:402-404 | no invalid module exactly when no module has an error, and then no errors in total |
| ValidateContent.ResultsWellFormed | tools/validate.js:389-396 | one result per module, in order, valid exactly when its list is empty |
| ValidateContent.ResultOfModule | tools/validate.js:389-396 | result `i` is what module `i`'s validation returns |
| ValidateContent.ResultsFail | tools/validate.js:389-396 | the registry fails exactly when some module's validation throws |
| ValidateContent.ReportConsistent | tools/validate.js:399-406 | counts add up, the total is the sum of error counts, and exit 0 exactly when no module has errors |
| Publish.GenerateModuleTemplate | tools/publish.js:12-43 | a template exactly when the raw gist pattern matches, else the invalid-URL error |
| Publish.TemplateIdentity | tools/publish.js:21-33 | the template has the module id as name, the gist's user as author, and the URL's source |
| Publish.TemplateDefaults | tools/publish.js:21-42 | no dependencies, no keywords, mlldVersion `>=0.5.0` |
| Publish.TemplateStats | tools/publish.js:38-41 | install and star counts start at 0 |
| Publish.TemplateOfRawUrl | tools/publish.js:13-19 | a well-formed raw gist URL always gives a template |
| Publish.SourceFields | tools/publish.js:28-33 | the source is a gist with the URL's id and commit and the URL as given, and no contentHash |
| Publish.ModuleIdCheckedFirst | tools/publish.js:187-198 | a bad id is refused first; otherwise success exactly for a raw gist URL, named after the id |
| AutoPublish.ParseSourceUrl | tools/auto-publish.js:58-100 | a classified URL is rebuilt exactly from well-formed parts of its shape; refusal, with the unsupported message, exactly when no shape matches |
| AutoPublish.RawClassified | tools/auto-publish.js:60-71 | every raw gist URL is classified raw, with its parts and URL unchanged |
| AutoPublish.GistClassified | tools/auto-publish.js:74-84 | every friendly gist URL is classified gist, keeping a missing commit or file missing |
| AutoPublish.RepoClassified | tools/auto-publish.js:87-97 | every repository file URL is classified repo |
| AutoPublish.MldFiles | tools/auto-publish.js:116 | exactly the `.mld` names among the files |
| AutoPublish.CheckFile | tools/auto-publish.js:126-128 | accepts exactly a file of the gist, and otherwise fails with the not-in-gist message |
| AutoPublish.SelectFile | tools/auto-publish.js:112-128 | a selected file is always one of the gist's files |
| AutoPublish.NamedFileSelected | tools/auto-publish.js:126-128 | a named file is selected exactly when the gist has it |
| AutoPublish.UnnamedFileSelected | tools/auto-publish.js:115-124 | no `.mld` file, several, or exactly one, which is then selected |
| AutoPublish.ResolveGistUrl | tools/auto-publish.js:103-141 | fails without history; otherwise succeeds exactly when a file is selected, pinned to the latest commit whatever commit the URL names, with the raw URL of those parts |
| AutoPublish.GistResolvedReparses | tools/auto-publish.js:130-140 | the resolved URL classifies back as the raw source it names |
| AutoPublish.ResolveRepoUrl | tools/auto-publish.js:144-169 | succeeds exactly when the ref resolves and the file exists, pinned to the ref's commit with the raw GitHub URL of the parts |
| AutoPublish.RepoPinned | tools/auto-publish.js:158 | the resolved raw GitHub URL parses back to the owner, repo, commit and path |
| AutoPublish.Resolve | tools/auto-publish.js:228-239 | each source shape goes to its resolver; a raw source is kept as given |
| AutoPublish.CreateModuleMetadata | tools/auto-publish.js:172-209 | for gist and repo sources the record as written is the corrected record |
| AutoPublish.RawRecordIncomplete | tools/auto-publish.js:175-197 | a record made as written from a raw source has no author and no source |
| AutoPublish.MetadataIdentity | tools/auto-publish.js:175-203 | the corrected record names the module, its author and its pinned source |
| AutoPublish.MetadataDefaults | tools/auto-publish.js:199-206 | every record has no dependencies and asks for `>=0.5.0` |
| AutoPublish.SourceObjectFields | tools/auto-publish.js:180-196 | the source has the commit and URL, and the gist id or `owner/repo` of its type |
| AutoPublish.BranchOfModuleId | tools/auto-publish.js:287 | the branch of `@u/n` is `add-module-{user}-u-n` |
| AutoPublish.AddModule | tools/auto-publish.js:248-273 | a missing registry file becomes a new one holding the module; an unreadable one is refused |
| AutoPublish.AddToExistingRegistry | tools/auto-publish.js:251-273 | a duplicate is refused exactly when already present; otherwise the module is added and nothing else changes |
| AutoPublish.AutoPublish | tools/auto-publish.js:212-279 | auto-publish's steps in turn, the first failure ending it; the record built is the corrected ModuleMetadata |
| AutoPublish.TokenThenUrl | tools/auto-publish.js:220-239 | without a token nothing happens; an unknown URL shape is refused next |
| AutoPublish.RawUrlFirstModule | tools/auto-publish.js:235-287 | a raw URL for a user's first module submits a new registry file on the expected branch, holding the corrected record with author and pinned source (as written the record has neither) |
| AutoPublish.SubmitBranch | tools/auto-publish.js:275-287 | a submission is never a dry run, and its branch is named after the user and module |
| AutoPublish.ModuleIdCheckedFirst | tools/auto-publish.js:403-406 | the command refuses a bad id before anything else |
| BuildRegistry.VerdictOf | tools/build-registry.js:56-80 | an accepted module is complete, filed under its author's prefix and not yet present; only a null record throws |
| BuildRegistry.AcceptedExactly | tools/build-registry.js:58-80 | accepted exactly when prefixed, new, complete and by the file's user |
| BuildRegistry.AcceptAppends | tools/build-registry.js:81 | an accepted module is appended under its id |
| BuildRegistry.ErrorStays | tools/build-registry.js:87-89 | an error ends the loop and later entries change nothing |
| BuildRegistry.UserFoldStored | tools/build-registry.js:56-83 | the loop keeps earlier modules, adds only the user's prefixed ids, and counts them |
| BuildRegistry.CountIsAdded | tools/build-registry.js:81-82 | moduleCount is exactly the number added |
| BuildRegistry.FirstWins | tools/build-registry.js:63-67 | a module id already present keeps its first record |
| BuildRegistry.StepKeeps | tools/build-registry.js:56-82 | one more entry leaves every added module as it was |
| BuildRegistry.AddUserModules | tools/build-registry.js:56-83 | the inner loop computes the fold over the modules |
| BuildRegistry.UserStep | tools/build-registry.js:31-89 | a skipped user, or one whose file does not parse, leaves the registry unchanged |
| BuildRegistry.UserStepStored | tools/build-registry.js:31-89 | a user step keeps earlier modules, adds only prefixed ids, and reports their number |
| BuildRegistry.ProcessUser | tools/build-registry.js:31-89 | one iteration of the user loop computes UserStep |
| BuildRegistry.UserDirs | tools/build-registry.js:23-25 | exactly the directories among the entries |
| BuildRegistry.Build | tools/build-registry.js:30-90 | one outcome per user directory, named after it, in order |
| BuildRegistry.BuildStored | tools/build-registry.js:30-90 | the combined registry holds distinct ids, each a complete module filed under its author's prefix |
| BuildRegistry.BuildExtends | tools/build-registry.js:30-90 | later users never change what earlier users added |
| BuildRegistry.BuildRegistry | tools/build-registry.js:16-99 | the method computes Build and the registry it writes |
| BuildIndex.KeyInjective | scripts/build-index.js:41 | `user/name` keys differ when user or name differ and neither user has a slash |
| BuildIndex.IndexEntry | scripts/build-index.js:41-45 | the entry has the user as author and the key as fullName, and every other property from the data |
| BuildIndex.EntryIndexed | scripts/build-index.js:41-45 | an entry is filed under its own key |
| BuildIndex.PutWellKeyed | scripts/build-index.js:41-45 | assigning an entry under its key keeps the index well keyed |
| BuildIndex.AddEntriesWellKeyed | scripts/build-index.js:40-55 | the loops keep an index well keyed |
| BuildIndex.KeyNameInjective | scripts/build-index.js:41 | one user's keys differ when the names differ |
| BuildIndex.EntryStored | scripts/build-index.js:40-46 | after the loop every listed name is indexed under its key with its entry |
| BuildIndex.OtherKeysKept | scripts/build-index.js:40-55 | keys of other users are left as they were |
| BuildIndex.AdvisoryItems | scripts/build-index.js:62 | nothing for a falsy value, the items of an array, one item per character of a string, and an error for anything else |
| BuildIndex.Tagged | scripts/build-index.js:62-67 | each advisory, in order, gets the user as author and keeps its other properties |
| BuildIndex.AppendTagged | scripts/build-index.js:58-68 | appending keeps earlier advisories and tags only the new ones |
| BuildIndex.AddRegistry | scripts/build-index.js:34-56 | the registry part leaves the advisories alone, and a missing `registry.json` changes nothing |
| BuildIndex.AddRegistryWellKeyed | scripts/build-index.js:34-56 | it keeps both indexes well keyed |
| BuildIndex.AddAdvisories | scripts/build-index.js:58-68 | the advisory part: keeps the indexes, extends the list with tagged items only |
| BuildIndex.UserStep | scripts/build-index.js:26-69 | a skipped entry changes nothing; otherwise advisories only grow, the new ones tagged with the user |
| BuildIndex.UserStepWellKeyed | scripts/build-index.js:26-69 | an iteration keeps both indexes well keyed |
| BuildIndex.FaultStays | scripts/build-index.js:26-69 | an error ends the loop and later entries change nothing |
| BuildIndex.AdvisoriesInOrder | scripts/build-index.js:58-68 | advisories of earlier directories come first, in directory order |
| BuildIndex.CollectWellKeyed | scripts/build-index.js:26-69 | both gathered indexes are well keyed |
| BuildIndex.ProjectSameKeys | scripts/build-index.js:94-118 | the search index has one summary per entry, in order, under the same key |
| BuildIndex.CountsAreSizes | scripts/build-index.js:72-91 | each count is the number of distinct keys or of advisories |
| BuildIndex.SearchMatchesIndex | scripts/build-index.js:94-118 | the search indexes have exactly the keys of the full ones |
| BuildIndex.AddEntriesLoop | scripts/build-index.js:40-46 | the entry loop computes AddEntries |
| BuildIndex.PushAdvisories | scripts/build-index.js:62-67 | the push loop appends the tagged advisories |
| BuildIndex.ProcessEntry | scripts/build-index.js:26-69 | one iteration as a method computes UserStep |
| BuildIndex.ProjectLoop | scripts/build-index.js:94-118 | the search loop computes Project |
| BuildIndex.BuildIndexes | scripts/build-index.js:26-134 | the files written, or the error that stops the build before any are written |
| Migrate.MetadataNames | tools/migrate-to-versions.js:54-65 | the metadata literal names each member once |
| Migrate.MetadataIdentity | tools/migrate-to-versions.js:54-65 | name and author kept, the author as sole owner, no maintainers, no first PR |
| Migrate.MetadataDefaults | tools/migrate-to-versions.js:54-65 | about, createdBy and created come from the record when truthy and defaults otherwise |
| Migrate.VersionOf | tools/migrate-to-versions.js:68 | the record's version when truthy, else `1.0.0` |
| Migrate.VersionNames | tools/migrate-to-versions.js:69-82 | the version literal names each member once |
| Migrate.VersionCopies | tools/migrate-to-versions.js:69-82 | version, source, repo, bugs and homepage are carried over |
| Migrate.VersionDefaults | tools/migrate-to-versions.js:69-82 | falsy needs, license, mlldVersion, dependencies and keywords get their defaults |
| Migrate.VersionKept | tools/migrate-to-versions.js:69-82 | truthy ones are kept |
| Migrate.Tags | tools/migrate-to-versions.js:85-88 | the migrated version is both latest and stable |
| Migrate.ModuleNameOfStem | tools/migrate-to-versions.js:41 | a file `n.json` with a dot-free stem migrates to module `n` |
| Migrate.VersionFileName | tools/migrate-to-versions.js:96-99 | the version file is named after the version's string form |
| Migrate.BackupName | tools/migrate-to-versions.js:107 | the backup name starts with the file name and no longer ends in `.json` |
| Migrate.MigrateFile | tools/migrate-to-versions.js:41-116 | a record migrates exactly when it parses to a non-null value, and then counts one |
| Migrate.AuthorRunFromFault | tools/migrate-to-versions.js:38-117 | a fault stays and nothing is added after it |
| Migrate.AuthorRunCounts | tools/migrate-to-versions.js:38-117 | a clean run migrates every `.json` file and keeps earlier effects as a prefix |
| Migrate.MigratedCount | tools/migrate-to-versions.js:28-117 | a clean migration counts every `.json` record in the author directories |
| Migrate.AuthorFaultStays | tools/migrate-to-versions.js:38-117 | once the inner loop has a fault, later entries change nothing |
| Migrate.RegistryFaultStays | tools/migrate-to-versions.js:30-118 | once the outer loop has a fault, later authors change nothing |
| Migrate.MigrateAuthor | tools/migrate-to-versions.js:38-117 | the inner loop computes AuthorRun |
| Migrate.MigrateRegistry | tools/migrate-to-versions.js:21-130 | the outer loop computes the migration's effects, count and fault |
| Migrate.HasModuleDir | tools/migrate-to-versions.js:148-169 | a directory is already migrated exactly when it holds a directory whose name does not start with a dot |
| Migrate.ScriptOutcome | tools/migrate-to-versions.js:133-180 | the script finishes exactly inside a registry not yet migrated, and refuses exactly outside a registry |
| Migrate.CheckDirectory | tools/migrate-to-versions.js:133-175 | the checks stop the script exactly outside a registry or when already migrated, saying which |
| Migrate.Script | tools/migrate-to-versions.js:179-180 | the script migrates only when the check passes |
| DnsSync.ToLowerSlug | tools/dns-sync.js:69 | lower-casing leaves a slug unchanged |
| DnsSync.SlugsJoined | tools/dns-sync.js:66-68 | two slugs joined by `-` are slug characters with `-` at the join |
| DnsSync.DnsNameOfModuleId | tools/dns-sync.js:63-70 | `@u/n` becomes `u-n`, made of slug characters |
| DnsSync.CreateMlldRecord | tools/dns-sync.js:79-81 | the content starts with `v=mlld1;` and with `v=mlld1;url=` |
| DnsSync.ParseMlldRecord | tools/dns-sync.js:73-76 | a parsed URL is a `.+` run whose record is exactly the content, and content without `v=mlld1;url=` parses to nothing |
| DnsSync.RecordRoundTrip | tools/dns-sync.js:73-81 | parsing a created record gives its URL back exactly when the URL is a `.+` run |
| DnsSync.CreatedNotRecognised | tools/dns-sync.js:106-117 | the name `{dns}.public` never starts with `public.` |
| DnsSync.Existing | tools/dns-sync.js:104-110 | under either filter (as written: `public.` prefix, `public.` and `.mlld.ai` removed; corrected: `.public` suffix), every record kept passes the filter and is filed under its key |
| DnsSync.ExistingLastWins | tools/dns-sync.js:104-110 | under either filter, a key is present exactly when some recognised record has it, and holds the last such record |
| DnsSync.SourceUrl | tools/dns-sync.js:118 | succeeds only for a defined non-null source, and gives its `url` |
| DnsSync.ModuleStep | tools/dns-sync.js:115-159 | created with a POST when absent, updated with a PATCH when the content differs, unchanged otherwise |
| DnsSync.OneEntryPerModule | tools/dns-sync.js:115-160 | one manifest entry per module |
| DnsSync.PlanPrefix | tools/dns-sync.js:115-160 | the plan of a prefix of the modules is a prefix of the plan |
| DnsSync.EntryOfModule | tools/dns-sync.js:115-160 | entry `i` is module `i`'s step |
| DnsSync.RequestPerChange | tools/dns-sync.js:120-159 | one request exactly per module that is not unchanged |
| DnsSync.RecreatedAsWritten | tools/dns-sync.js:104-159 | as written, a record the sync created is not found on the next run and is created again |
| DnsSync.CreatedFoundAgain | tools/dns-sync.js:104-159 | with the corrected loop, a created record is found again and left unchanged |
| DnsSync.UpdateManifest | tools/dns-sync.js:162-165 | an object manifest gets the timestamp and the entries in order |
| DnsSync.BuildExisting | tools/dns-sync.js:104-110 | the record loop computes Existing |
| DnsSync.ProcessModules | tools/dns-sync.js:112-160 | the module loop computes the plan |
| DnsSync.PlanFaultStays | tools/dns-sync.js:115-118 | a failing prefix of the modules is the outcome of the whole module loop |
| DnsSync.StoppedAfterPrefix | tools/dns-sync.js:113-160 | a failed module loop stopped at some module `k`: the requests it reports as sent are exactly those of modules `0..k-1`, and the fault is module `k`'s |
| DnsSync.SyncSent | tools/dns-sync.js:113-166 | the requests of a run are those of the modules before the first failing one, or of all modules; the manifest is written only when no module failed |
| DnsSync.SyncNothingSent | tools/dns-sync.js:97-113 | an unparsable file or an unlistable `modules.modules` ends the run with no request sent and nothing written |
| DnsSync.SyncDnsRecords | tools/dns-sync.js:83-171 | under either record filter, the requests sent and the manifest written, or the requests sent before the error that stopped it |
| ManageAllowlist.LessEqTransitive | tools/manage-allowlist.js:38 | the sort order with equality is transitive |
| ManageAllowlist.LessEqAntisymmetric | tools/manage-allowlist.js:38 | and antisymmetric |
| ManageAllowlist.IndexOfName | tools/manage-allowlist.js:48 | the first position holding the name, or -1 exactly when absent |
| ManageAllowlist.RemoveFirstIsWithout | tools/manage-allowlist.js:54 | removing by position agrees with dropping the first occurrence |
| ManageAllowlist.RemoveFirstCounts | tools/manage-allowlist.js:48-54 | a present name loses exactly one copy; an absent name changes nothing |
| ManageAllowlist.RemoveKeepsOrder | tools/manage-allowlist.js:54 | the remaining names keep their order |
| ManageAllowlist.RemoveKeepsSorted | tools/manage-allowlist.js:54 | removing from a sorted list leaves it sorted |
| ManageAllowlist.InsertSorted | tools/manage-allowlist.js:37-38 | inserting into a sorted list keeps it sorted and adds one copy of the name |
| ManageAllowlist.SortedUnique | tools/manage-allowlist.js:38 | a sorted order of a multiset of names is unique |
| ManageAllowlist.InsertThenRemove | tools/manage-allowlist.js:29-59 | adding an absent name and removing it again gives the sorted list back |
| ManageAllowlist.DatePart | tools/manage-allowlist.js:39 | a prefix of the timestamp with no `T` in it |
| ManageAllowlist.SinkDown | tools/manage-allowlist.js:38 | one insertion step: the prefix up to `i` becomes sorted, same elements |
| ManageAllowlist.SortAuthors | tools/manage-allowlist.js:38 | the array is sorted in place and is a permutation of what it held |
| ManageAllowlist.Allowlist.constructor | tools/manage-allowlist.js:10-17 | the list holds the loaded authors and date, in a fresh array |
| ManageAllowlist.Allowlist.Includes | tools/manage-allowlist.js:32 | whether the name is among the trusted authors |
| ManageAllowlist.Allowlist.IndexOf | tools/manage-allowlist.js:48 | the first position of the name, or -1 |
| ManageAllowlist.Allowlist.Add | tools/manage-allowlist.js:29-43 | adds exactly when absent, keeps the list sorted with one more copy, and stamps the date; nothing changes otherwise |
| ManageAllowlist.Allowlist.Remove | tools/manage-allowlist.js:45-59 | removes exactly when present, dropping the first copy, and stamps the date; nothing changes otherwise |
| ManageAllowlist.Allowlist.Check | tools/manage-allowlist.js:72-83 | exit code 0 exactly when the name is trusted |

## Left out

- The network is not modelled.
  - HTTP fetches (`fetchUrl`, the GitHub API calls of auto-publish, the DNSimple requests) are parameters: a fetched value or a fetch error.
  - After building the record and the registry file, the network steps of auto-publish (tools/auto-publish.js:281-361) are left out. These are the fork, branch, commit and pull request calls.
  - dns-sync's requests are returned as a list of planned requests, not sent. An API failure is not modelled.
- Digests, the clock and date parsing are parameters. SHA-256 and SHA-1 are functions passed in. `new Date().toISOString()` is a string passed in as `now`, `generated`, `updated` or `publishedAt`. `new Date(x).getTime()` validity is a `dateValid` predicate.
- File system errors other than a missing or unparsable file are not modelled. Neither are console output, help text and command-line parsing (tools/manage-allowlist.js:85-134, the argument handling of publish.js and auto-publish.js), nor the printing of `listAuthors`.
- JSON parsing and serialisation are not modelled. Files hold parsed values or nothing, and duplicate keys in a JSON text (where the last one wins) are not represented.
- `Object.entries` lists integer-like keys first in JavaScript. The model keeps insertion order for all keys.
- `generatePRTemplate`, `showPublishInstructions` and the registry report's `saveReport` file write are output-only and are not modelled. The report's timestamp is not modelled either.
- A gist whose `history[0].version` is undefined, and a reference whose `object.sha` is undefined, are not modelled. The model assumes the API returns those fields.
- A gist file named after an `Object.prototype` member is not modelled. The model treats `gist.files` as having exactly the listed keys.
- The `--keywords` comma split of auto-publish's command line is not modelled. Keywords arrive as a JSON value.
- ManageAllowlist.SortAuthors: this orders strings by character code. JavaScript's default sort compares UTF-16 code units, so the two differ only above U+FFFF.
- ManageAllowlist.Allowlist.Add: the model allocates a fresh array for `push` and `sort`, where the source mutates the one array in place.
- ManageAllowlist.Allowlist.Remove: the model allocates a fresh array for `splice`, where the source mutates in place.
- Non-string entries in `trustedAuthors`, a missing or non-array `trustedAuthors`, and a missing `metadata` object are not modelled. In the script these throw a TypeError and nothing is saved (tools/manage-allowlist.js:32, 39, 48, 55, 74). The model loads a list of strings and a date.
- Strings.ToLower: lower-cases only ASCII letters, where JavaScript's `toLowerCase` follows Unicode.
- Publish.GenerateModuleTemplate only produces the template. Checking it against the validator's rules is not modelled.
- DnsSync.SyncDnsRecords takes the record filter as a parameter: `AsWritten` is the script, `Corrected` the fix of the findings below.
- AutoPublish.AutoPublish: builds the record with the corrected ModuleMetadata of the findings below. The as-written CreateModuleMetadata is modelled next to it.
- AutoPublish.RawUrlFirstModule: states the submitted record of the corrected ModuleMetadata. As written, a raw URL gives a record without `author` and `source` (AutoPublish.RawRecordIncomplete).
- One clock reading stands for every `new Date()` of a run. The scripts read the clock at each call (tools/migrate-to-versions.js:62, 80; scripts/build-index.js:76, 87, 96, 130), so their timestamps may differ by a few milliseconds. No property here depends on them being equal.

## Findings

| source | as written | input that shows it | evidently intended | confidence | as-written member | corrected member |
|---|---|---|---|---|---|---|
| tools/dns-sync.js:106-117 | existing records are recognised when their name starts with `public.`, but created records are named `{dns}.public` | a module `@alice/utils` whose record `alice-utils.public` was created by the previous run | a created record is recognised again on the next run and left unchanged | not executed | DnsSync.RecreatedAsWritten | DnsSync.CreatedFoundAgain |
| tools/auto-publish.js:172-209 | `createModuleMetadata` fills `author` and `source` only for `gist` and `repo` sources, so a raw gist URL gives a record without them | `auto-publish @alice/utils https://gist.githubusercontent.com/alice/<32 hex>/raw/<40 hex>/utils.mld` | a raw source is recorded like the gist it names, with its author and pinned source | not executed | AutoPublish.RawRecordIncomplete | AutoPublish.MetadataIdentity |
