/** tools/dns-sync.js: every module of `modules.json` gets a TXT record
    `v=mlld1;url={source.url}` named `{user}-{name}.public` in the `mlld.ai` zone; the sync
    creates missing records, patches stale ones and writes what it did to
    `dns/records.json`. */
module DnsSync {
  import opened Wrappers
  import opened Strings
  import opened Json
  import opened Patterns

  const Domain := "mlld.ai"
  const Subdomain := "public"
  const RecordPrefix := "v=mlld1;"
  const UrlPrefix := "v=mlld1;url="
  /** The `ttl` of created records, in seconds. */
  const CreatedTtl := 300

  // ---------------------------------------------------------------------------
  // Names and record contents

  /** `moduleToDnsName`: the first `@` removed, the first `/` made `-`, lower-cased. */
  function ModuleToDnsName(moduleId: string): string {
    ToLower(Dashed(moduleId))
  }

  /** Lower-casing leaves the characters of a slug alone. */
  lemma ToLowerSlug(s: string)
    requires forall i :: 0 <= i < |s| ==> IsSlugChar(s[i])
    ensures ToLower(s) == s
  {
  }

  /** Two slugs joined by `-` are made of slug characters, with a `-` at the join. */
  lemma SlugsJoined(u: string, n: string)
    requires IsSlug(u) && IsSlug(n)
    ensures var s := u + "-" + n;
            (forall i :: 0 <= i < |s| ==> IsSlugChar(s[i])) && s[|u|] == '-'
  {
    var s := u + "-" + n;
    forall i | 0 <= i < |s| ensures IsSlugChar(s[i]) {
      if i < |u| { assert s[i] == u[i]; }
      else if i > |u| { assert s[i] == n[i - |u| - 1]; }
    }
  }

  /** `@alice/utils` becomes `alice-utils`: a module id's DNS name is its user, `-` and its
      name, all in slug characters. */
  lemma DnsNameOfModuleId(moduleId: string)
    requires IsModuleId(moduleId)
    ensures var i := IndexOf(moduleId, '/').value;
            var dns := ModuleToDnsName(moduleId);
            dns == moduleId[1..i] + "-" + moduleId[i + 1..]
            && (forall j :: 0 <= j < |dns| ==> IsSlugChar(dns[j])) && '-' in dns
  {
    ModuleIdParts(moduleId);
    var i := IndexOf(moduleId, '/').value;
    var u, n := moduleId[1..i], moduleId[i + 1..];
    DashedUserName(u, n);
    SlugsJoined(u, n);
    ToLowerSlug(u + "-" + n);
  }

  /** `${dnsName}.${SUBDOMAIN}`, the name created records get. */
  function FullDnsName(dnsName: string): string {
    dnsName + "." + Subdomain
  }

  /** `createMlldRecord` */
  function CreateMlldRecord(url: string): (c: string)
    ensures StartsWith(c, RecordPrefix) && StartsWith(c, UrlPrefix)
  {
    var c := UrlPrefix + url;
    assert c[..|UrlPrefix|] == UrlPrefix;
    assert c[..|RecordPrefix|] == RecordPrefix;
    c
  }

  /** `parseMlldRecord`: `/^v=mlld1;url=(.+)$/` matches when the content is the prefix and
      a non-empty rest without line terminators, which it returns. */
  function ParseMlldRecord(content: string): (r: Option<string>)
    ensures r.Some? ==> IsDotPlus(r.value) && content == CreateMlldRecord(r.value)
    ensures !StartsWith(content, UrlPrefix) ==> r.None?
  {
    if StartsWith(content, UrlPrefix) && IsDotPlus(content[|UrlPrefix|..]) then
      assert content == UrlPrefix + content[|UrlPrefix|..];
      Some(content[|UrlPrefix|..])
    else None
  }

  /** The round trip: a record made for a non-empty URL on one line gives the URL back, and
      no other URL. */
  lemma RecordRoundTrip(url: string)
    ensures ParseMlldRecord(CreateMlldRecord(url)) == if IsDotPlus(url) then Some(url) else None
  {
    var c := CreateMlldRecord(url);
    assert c[|UrlPrefix|..] == url;
  }

  // ---------------------------------------------------------------------------
  // Existing records

  /** A TXT record as the DNS API lists it: its id, its name relative to the zone, and its
      content. */
  datatype DnsRecord = DnsRecord(id: nat, name: string, content: string)

  /** Which record filter the sync applies: the one written in the record loop, which keeps
      names starting with `public.`, or the corrected one, which keeps names ending in
      `.public` as the records the sync creates are named. */
  datatype Filter = AsWritten | Corrected

  /** The condition of the record loop, as written: the name starts with `public.`. */
  predicate RecognisedAsWritten(r: DnsRecord) {
    StartsWith(r.name, Subdomain + ".") && StartsWith(r.content, RecordPrefix)
  }

  /** The key of a recognised record, as written: `public.` and `.mlld.ai` removed. */
  function KeyAsWritten(r: DnsRecord): string {
    ReplaceFirst(ReplaceFirst(r.name, Subdomain + ".", ""), "." + Domain, "")
  }

  /** Past the end of a short name comes the `.` of `.public`. */
  lemma ShortPrefixed(dns: string)
    requires |dns| <= 6 && StartsWith(FullDnsName(dns), Subdomain + ".")
    ensures dns == Subdomain
  {
    var name := FullDnsName(dns);
    assert name[..7][|dns|] == name[|dns|];
    assert name[..|dns|] == dns;
    assert dns == name[..7][..|dns|];
  }

  /** A slug character of the name is where the prefix `public.` would have its `.`. */
  lemma LongPrefixed(dns: string)
    requires |dns| > 6 && StartsWith(FullDnsName(dns), Subdomain + ".")
    ensures dns[6] == '.'
  {
    var name := FullDnsName(dns);
    assert name[..7][6] == name[6];
  }

  /** A name of slug characters with a `-` in it, followed by `.public`, does not start
      with `public.`. */
  lemma SuffixedNotPrefixed(dns: string)
    requires (forall j :: 0 <= j < |dns| ==> IsSlugChar(dns[j])) && '-' in dns
    ensures !StartsWith(FullDnsName(dns), Subdomain + ".")
  {
    if StartsWith(FullDnsName(dns), Subdomain + ".") {
      if |dns| > 6 {
        LongPrefixed(dns);
        assert false;
      } else {
        ShortPrefixed(dns);
        assert false;
      }
    }
  }

  /** The name a created record gets never starts with `public.` for a module id, so the
      loop as written never recognises a record the sync itself created. */
  lemma CreatedNotRecognised(moduleId: string, id: nat, url: string)
    requires IsModuleId(moduleId)
    ensures !RecognisedAsWritten(DnsRecord(id, FullDnsName(ModuleToDnsName(moduleId)), CreateMlldRecord(url)))
  {
    DnsNameOfModuleId(moduleId);
    SuffixedNotPrefixed(ModuleToDnsName(moduleId));
  }

  /** A record is recognised when its name ends in `.public` and its content is an mlld
      record; its key is the name without that suffix. */
  predicate Recognised(r: DnsRecord) {
    EndsWith(r.name, "." + Subdomain) && StartsWith(r.content, RecordPrefix)
  }

  function Key(r: DnsRecord): string
    requires Recognised(r)
  {
    r.name[..|r.name| - |"." + Subdomain|]
  }

  /** The condition of the record loop under `filter`. */
  predicate Recognises(filter: Filter, r: DnsRecord) {
    match filter
    case AsWritten => RecognisedAsWritten(r)
    case Corrected => Recognised(r)
  }

  /** The key a recognised record is filed under. */
  function KeyBy(filter: Filter, r: DnsRecord): string
    requires Recognises(filter, r)
  {
    match filter
    case AsWritten => KeyAsWritten(r)
    case Corrected => Key(r)
  }

  /** The record loop: recognised records by key, a later record replacing an earlier one
      (`Map.set`). */
  function Existing(filter: Filter, records: seq<DnsRecord>): (m: map<string, DnsRecord>)
    ensures forall k :: k in m ==> Recognises(filter, m[k]) && KeyBy(filter, m[k]) == k
    decreases |records|
  {
    if |records| == 0 then map[]
    else
      var n := |records| - 1;
      var m := Existing(filter, records[..n]);
      if Recognises(filter, records[n]) then m[KeyBy(filter, records[n]) := records[n]] else m
  }

  /** A key is in the map exactly when a recognised record has it, and it holds the last
      such record; for either filter. */
  lemma {:induction false} ExistingLastWins(filter: Filter, records: seq<DnsRecord>, k: string)
    ensures k in Existing(filter, records) <==>
              exists i :: 0 <= i < |records| && Recognises(filter, records[i]) && KeyBy(filter, records[i]) == k
    ensures k in Existing(filter, records) ==>
              exists i :: 0 <= i < |records| && records[i] == Existing(filter, records)[k]
                          && forall j :: i < j < |records| ==> !(Recognises(filter, records[j]) && KeyBy(filter, records[j]) == k)
  {
    ExistingKeys(filter, records, k);
    if k in Existing(filter, records) { ExistingLast(filter, records, k); }
  }

  lemma {:induction false} ExistingKeys(filter: Filter, records: seq<DnsRecord>, k: string)
    ensures k in Existing(filter, records) <==>
              exists i :: 0 <= i < |records| && Recognises(filter, records[i]) && KeyBy(filter, records[i]) == k
    decreases |records|
  {
    if |records| > 0 {
      var n := |records| - 1;
      var pre := records[..n];
      ExistingKeys(filter, pre, k);
      assert forall i :: 0 <= i < n ==> pre[i] == records[i];
    }
  }

  /** No record after the `i`-th is recognised under `k`. */
  ghost predicate NoLaterKey(filter: Filter, records: seq<DnsRecord>, k: string, i: nat) {
    forall j :: i < j < |records| ==> !(Recognises(filter, records[j]) && KeyBy(filter, records[j]) == k)
  }

  lemma {:induction false} ExistingLast(filter: Filter, records: seq<DnsRecord>, k: string)
    requires k in Existing(filter, records)
    ensures exists i :: 0 <= i < |records| && records[i] == Existing(filter, records)[k] && NoLaterKey(filter, records, k, i)
    decreases |records|
  {
    var n := |records| - 1;
    var pre := records[..n];
    var m := Existing(filter, pre);
    if Recognises(filter, records[n]) && KeyBy(filter, records[n]) == k {
      assert NoLaterKey(filter, records, k, n);
    } else {
      assert Existing(filter, records) == if Recognises(filter, records[n]) then m[KeyBy(filter, records[n]) := records[n]] else m;
      assert k in m && Existing(filter, records)[k] == m[k];
      ExistingLast(filter, pre, k);
      var i :| 0 <= i < n && pre[i] == Existing(filter, pre)[k] && NoLaterKey(filter, pre, k, i);
      forall j | i < j < |records|
        ensures !(Recognises(filter, records[j]) && KeyBy(filter, records[j]) == k)
      {
        if j < n { assert records[j] == pre[j]; }
      }
      assert records[i] == pre[i];
    }
  }

  // ---------------------------------------------------------------------------
  // The per-module plan

  datatype Action = Created | Updated | Unchanged

  function ActionName(a: Action): string {
    match a
    case Created => "created"
    case Updated => "updated"
    case Unchanged => "unchanged"
  }

  /** The requests the sync sends: `POST` a new record or `PATCH` an existing one. */
  datatype Request = Post(name: string, content: string, ttl: nat) | Patch(id: nat, content: string)

  /** One entry of `updatedRecords`; `url` is `undefined` when the source has none. */
  datatype Entry = Entry(moduleId: string, dns: string, action: Action, url: Option<Json>)

  /** `{module, dns, action, url}` as `JSON.stringify` writes it. */
  function EntryJson(e: Entry): Json {
    JObj(Compact([("module", Some(JStr(e.moduleId))), ("dns", Some(JStr(e.dns))),
                  ("action", Some(JStr(ActionName(e.action)))), ("url", e.url)]))
  }

  /** What stops the sync: a file `JSON.parse` rejects, a property read the data does not
      support, `Object.entries` of `null` or `undefined`, or (the script is a module, so in
      strict mode) an assignment of a property to a string, number or boolean. */
  datatype Fault =
    | InvalidJson(file: string)
    | Crash(error: TypeError)
    | NotConvertible
    | CannotCreateProperty(prop: string)

  /** `moduleData.source.url` */
  function SourceUrl(moduleData: Json): (r: Result<Option<Json>, Fault>)
    ensures r.Success? ==> Get(moduleData, "source").Some? && Get(moduleData, "source").value != JNull
                           && r.value == Get(Get(moduleData, "source").value, "url")
  {
    if moduleData == JNull then Failure(Crash(ReadOfNull("source")))
    else
      match Get(moduleData, "source")
      case None => Failure(Crash(ReadOfUndefined("url")))
      case Some(src) => if src == JNull then Failure(Crash(ReadOfNull("url"))) else Success(Get(src, "url"))
  }

  /** One module: no existing record under its DNS name means `created` and a `POST` of a
      `{dns}.public` record; an existing record with other content means `updated` and a
      `PATCH` of that record; the same content means `unchanged` and no request. */
  function ModuleStep(existing: map<string, DnsRecord>, moduleId: string, moduleData: Json): (r: Result<(Option<Request>, Entry), Fault>)
    ensures r.Success? <==> SourceUrl(moduleData).Success?
    ensures r.Success? ==>
              var dns := ModuleToDnsName(moduleId);
              var content := CreateMlldRecord(Display(SourceUrl(moduleData).value));
              var (req, e) := r.value;
              e.moduleId == moduleId && e.dns == FullDnsName(dns) && e.url == SourceUrl(moduleData).value
              && (e.action == Created <==> dns !in existing)
              && (e.action == Unchanged <==> dns in existing && existing[dns].content == content)
              && (e.action == Updated <==> dns in existing && existing[dns].content != content)
              && (req.None? <==> e.action == Unchanged)
              && (e.action == Created ==> req == Some(Post(FullDnsName(dns), content, CreatedTtl)))
              && (e.action == Updated ==> req == Some(Patch(existing[dns].id, content)))
  {
    match SourceUrl(moduleData)
    case Failure(f) => Failure(f)
    case Success(url) =>
      var dns := ModuleToDnsName(moduleId);
      var full := FullDnsName(dns);
      var content := CreateMlldRecord(Display(url));
      if dns in existing then
        if existing[dns].content != content then
          Success((Some(Patch(existing[dns].id, content)), Entry(moduleId, full, Updated, url)))
        else Success((None, Entry(moduleId, full, Unchanged, url)))
      else Success((Some(Post(full, content, CreatedTtl)), Entry(moduleId, full, Created, url)))
  }

  /** The requests sent and the entries gathered so far. */
  datatype Plan = Plan(requests: seq<Request>, entries: seq<Entry>)

  /** One turn of the module loop: the request and the entry for one module. */
  type Step = (string, Json) -> Result<(Option<Request>, Entry), Fault>

  /** The turn the sync takes once it knows the existing records. */
  function StepWith(existing: map<string, DnsRecord>): Step {
    (moduleId, moduleData) => ModuleStep(existing, moduleId, moduleData)
  }

  /** Where the module loop stopped: the requests already sent for the modules before the
      one whose turn failed, and that turn's fault. */
  datatype Stop = Stop(sent: seq<Request>, fault: Fault)

  /** The module loop over `es`, the entries of `modules.modules`: it stops at the first
      module whose turn fails, after the requests of the modules before it were sent. */
  function PlanOf(step: Step, es: Fields): (r: Result<Plan, Stop>)
    decreases |es|
  {
    if |es| == 0 then Success(Plan([], []))
    else
      var n := |es| - 1;
      match PlanOf(step, es[..n])
      case Failure(stop) => Failure(stop)
      case Success(p) =>
        match step(es[n].0, es[n].1)
        case Failure(f) => Failure(Stop(p.requests, f))
        case Success((req, e)) =>
          Success(Plan(if req.Some? then p.requests + [req.value] else p.requests, p.entries + [e]))
  }

  /** The last module's entry comes after those of the others. */
  lemma PlanLast(step: Step, es: Fields)
    requires PlanOf(step, es).Success? && |es| > 0
    ensures var n := |es| - 1;
            PlanOf(step, es[..n]).Success? && step(es[n].0, es[n].1).Success?
            && PlanOf(step, es).value.entries == PlanOf(step, es[..n]).value.entries + [step(es[n].0, es[n].1).value.1]
  {
  }

  /** As many entries as modules. */
  lemma {:induction false} OneEntryPerModule(step: Step, es: Fields)
    requires PlanOf(step, es).Success?
    ensures |PlanOf(step, es).value.entries| == |es|
    decreases |es|
  {
    if |es| > 0 {
      PlanLast(step, es);
      OneEntryPerModule(step, es[..|es| - 1]);
    }
  }

  /** The plan of a prefix of the modules is the prefix of the plan. */
  lemma {:induction false} PlanPrefix(step: Step, es: Fields, k: nat)
    requires PlanOf(step, es).Success? && k <= |es|
    ensures |PlanOf(step, es).value.entries| == |es| && PlanOf(step, es[..k]).Success?
            && PlanOf(step, es[..k]).value.entries == PlanOf(step, es).value.entries[..k]
    decreases |es|
  {
    OneEntryPerModule(step, es);
    if k == |es| {
      assert es[..k] == es;
    } else {
      var n := |es| - 1;
      var pre := es[..n];
      PlanLast(step, es);
      OneEntryPerModule(step, pre);
      PlanPrefix(step, pre, k);
      assert pre[..k] == es[..k];
    }
  }

  /** The entry at `i` is the one the `i`-th module's turn produced; with
      `StepWith(existing)` that is its id and `source.url`, classified as `ModuleStep`
      says. */
  lemma EntryOfModule(step: Step, es: Fields, i: nat)
    requires PlanOf(step, es).Success? && i < |es|
    ensures |PlanOf(step, es).value.entries| == |es|
            && step(es[i].0, es[i].1).Success?
            && PlanOf(step, es).value.entries[i] == step(es[i].0, es[i].1).value.1
  {
    OneEntryPerModule(step, es);
    PlanPrefix(step, es, i + 1);
    var upto := es[..i + 1];
    PlanLast(step, upto);
    assert upto[|upto| - 1] == es[i];
  }

  /** One request per module that is not `unchanged`. */
  function Changed(entries: seq<Entry>): nat
    decreases |entries|
  {
    if |entries| == 0 then 0
    else Changed(entries[..|entries| - 1]) + (if entries[|entries| - 1].action == Unchanged then 0 else 1)
  }

  lemma {:induction false} RequestPerChange(existing: map<string, DnsRecord>, es: Fields)
    requires PlanOf(StepWith(existing), es).Success?
    ensures |PlanOf(StepWith(existing), es).value.requests| == Changed(PlanOf(StepWith(existing), es).value.entries)
    decreases |es|
  {
    if |es| > 0 {
      var n := |es| - 1;
      RequestPerChange(existing, es[..n]);
      var p := PlanOf(StepWith(existing), es).value;
      assert p.entries[..|p.entries| - 1] == PlanOf(StepWith(existing), es[..n]).value.entries;
    }
  }

  // ---------------------------------------------------------------------------
  // Creating, then syncing again

  /** As written, a module whose record the sync created is planned as `created` again on
      the next run, whatever the record holds. */
  lemma RecreatedAsWritten(moduleId: string, moduleData: Json, id: nat)
    requires IsModuleId(moduleId) && SourceUrl(moduleData).Success?
    ensures var url := SourceUrl(moduleData).value;
            var rec := DnsRecord(id, FullDnsName(ModuleToDnsName(moduleId)), CreateMlldRecord(Display(url)));
            Existing(AsWritten, [rec]) == map[]
            && ModuleStep(Existing(AsWritten, [rec]), moduleId, moduleData).value.1.action == Created
  {
    var url := SourceUrl(moduleData).value;
    CreatedNotRecognised(moduleId, id, Display(url));
    var rec := DnsRecord(id, FullDnsName(ModuleToDnsName(moduleId)), CreateMlldRecord(Display(url)));
    assert [rec][..0] == [];
  }

  /** A record the sync created is found again under the module's DNS name, so the next
      run leaves it `unchanged` while the URL stays the same. */
  lemma CreatedFoundAgain(moduleId: string, moduleData: Json, id: nat)
    requires SourceUrl(moduleData).Success?
    ensures var url := SourceUrl(moduleData).value;
            var dns := ModuleToDnsName(moduleId);
            var rec := DnsRecord(id, FullDnsName(dns), CreateMlldRecord(Display(url)));
            Existing(Corrected, [rec]) == map[dns := rec]
            && ModuleStep(Existing(Corrected, [rec]), moduleId, moduleData).value == (None, Entry(moduleId, FullDnsName(dns), Unchanged, url))
  {
    var url := SourceUrl(moduleData).value;
    var dns := ModuleToDnsName(moduleId);
    var content := CreateMlldRecord(Display(url));
    RecordFoundUnder(dns, id, content);
  }

  /** A record named `{dns}.public` is the corrected filter's entry for `dns`. */
  lemma RecordFoundUnder(dns: string, id: nat, content: string)
    requires StartsWith(content, RecordPrefix)
    ensures var rec := DnsRecord(id, FullDnsName(dns), content);
            Existing(Corrected, [rec]) == map[dns := rec]
  {
    var rec := DnsRecord(id, FullDnsName(dns), content);
    assert rec.name[|rec.name| - |"." + Subdomain|..] == "." + Subdomain;
    assert Key(rec) == dns;
    assert [rec][..0] == [];
  }

  // ---------------------------------------------------------------------------
  // syncDnsRecords

  /** What the sync leaves behind: the requests it sent, and the manifest it writes or the
      fault that ended the run before anything was written. */
  datatype Outcome = Outcome(requests: seq<Request>, manifest: Result<Json, Fault>)

  /** `recordsManifest.updated = ...; recordsManifest.records = ...` in a module (strict
      mode): assignments to a primitive throw, an array keeps them out of its JSON. */
  function UpdateManifest(manifest: Json, updated: string, entries: seq<Entry>): (r: Result<Json, Fault>)
    ensures manifest.JObj? ==> r.Success? && Get(r.value, "updated") == Some(JStr(updated))
                               && Get(r.value, "records") == Some(JArr(seq(|entries|, i requires 0 <= i < |entries| => EntryJson(entries[i]))))
  {
    match manifest
    case JObj(fs) =>
      var records := JArr(seq(|entries|, i requires 0 <= i < |entries| => EntryJson(entries[i])));
      Success(JObj(Put(Put(fs, "updated", JStr(updated)), "records", records)))
    case JArr(_) => Success(manifest)
    case JNull => Failure(Crash(ReadOfNull("updated")))
    case _ => Failure(CannotCreateProperty("updated"))
  }

  /** `existingRecordsResponse.data || []` */
  function RecordsOf(data: Option<seq<DnsRecord>>): seq<DnsRecord> {
    if data.Some? then data.value else []
  }

  /** `syncDnsRecords` under `filter`: `modules` and `manifest` are the parsed files (`None`
      when `JSON.parse` rejects one), `data` the `data` of the record listing, `updated` the
      clock. A module whose `source.url` cannot be read ends the run after the requests of
      the modules before it were sent. */
  function SyncOf(filter: Filter, modules: Option<Json>, manifest: Option<Json>, data: Option<seq<DnsRecord>>, updated: string): (o: Outcome)
    ensures o.manifest.Success? ==> manifest.Some? && (manifest.value.JObj? || manifest.value.JArr?)
  {
    if modules.None? then Outcome([], Failure(InvalidJson("modules.json")))
    else if manifest.None? then Outcome([], Failure(InvalidJson("records.json")))
    else if modules.value == JNull then Outcome([], Failure(Crash(ReadOfNull("modules"))))
    else
      var list := Get(modules.value, "modules");
      if list.None? || list.value == JNull then Outcome([], Failure(NotConvertible))
      else
        var existing := Existing(filter, RecordsOf(data));
        match PlanOf(StepWith(existing), Entries(list.value))
        case Failure(stop) => Outcome(stop.sent, Failure(stop.fault))
        case Success(p) => Outcome(p.requests, UpdateManifest(manifest.value, updated, p.entries))
  }

  /** The requests of a run are those of the modules before the first failing one (all
      modules when none fails); the manifest is written only when every module was
      processed. */
  lemma SyncSent(filter: Filter, modules: Option<Json>, manifest: Option<Json>, data: Option<seq<DnsRecord>>, updated: string)
    requires modules.Some? && manifest.Some? && modules.value != JNull
    requires Get(modules.value, "modules").Some? && Get(modules.value, "modules").value != JNull
    ensures exists k :: 0 <= k <= |Entries(Get(modules.value, "modules").value)|
                        && SentBy(StepWith(Existing(filter, RecordsOf(data))), Entries(Get(modules.value, "modules").value), k,
                                  SyncOf(filter, modules, manifest, data, updated))
  {
    var es := Entries(Get(modules.value, "modules").value);
    var step := StepWith(Existing(filter, RecordsOf(data)));
    var o := SyncOf(filter, modules, manifest, data, updated);
    var list := Get(modules.value, "modules").value;
    assert o == match PlanOf(step, es)
                case Failure(stop) => Outcome(stop.sent, Failure(stop.fault))
                case Success(p) => Outcome(p.requests, UpdateManifest(manifest.value, updated, p.entries));
    if PlanOf(step, es).Success? {
      assert es[..|es|] == es;
      assert SentBy(step, es, |es|, o);
    } else {
      StoppedAfterPrefix(step, es);
    }
  }

  /** After the turns of the first `k` modules, `o` holds their requests; when `k` is not
      the end, module `k`'s fault ended the run with nothing written. */
  ghost predicate SentBy(step: Step, es: Fields, k: nat, o: Outcome)
    requires k <= |es|
  {
    PlanOf(step, es[..k]).Success? && o.requests == PlanOf(step, es[..k]).value.requests
    && (k < |es| ==> step(es[k].0, es[k].1).Failure? && o.manifest == Failure(step(es[k].0, es[k].1).error))
  }

  /** Nothing is sent when a file cannot be parsed or `modules.modules` cannot be listed. */
  lemma SyncNothingSent(filter: Filter, modules: Option<Json>, manifest: Option<Json>, data: Option<seq<DnsRecord>>, updated: string)
    requires modules.None? || manifest.None? || modules.value == JNull
             || Get(modules.value, "modules").None? || Get(modules.value, "modules").value == JNull
    ensures SyncOf(filter, modules, manifest, data, updated).requests == []
    ensures SyncOf(filter, modules, manifest, data, updated).manifest.Failure?
  {
  }

  /** The record loop. */
  method BuildExisting(filter: Filter, records: seq<DnsRecord>) returns (m: map<string, DnsRecord>)
    ensures m == Existing(filter, records)
  {
    m := map[];
    var i := 0;
    while i < |records|
      invariant 0 <= i <= |records|
      invariant m == Existing(filter, records[..i])
    {
      assert records[..i + 1][..i] == records[..i];
      var r := records[i];
      if Recognises(filter, r) {
        m := m[KeyBy(filter, r) := r];
      }
      i := i + 1;
    }
    assert records[..|records|] == records;
  }

  /** The module loop, taking `step` for each module in turn. */
  method ProcessModules(step: Step, es: Fields) returns (r: Result<Plan, Stop>)
    ensures r == PlanOf(step, es)
  {
    var requests: seq<Request> := [];
    var entries: seq<Entry> := [];
    var i := 0;
    while i < |es|
      invariant 0 <= i <= |es|
      invariant PlanOf(step, es[..i]) == Success(Plan(requests, entries))
    {
      assert es[..i + 1][..i] == es[..i];
      var turn := step(es[i].0, es[i].1);
      if turn.Failure? {
        PlanFaultStays(step, es, i + 1);
        return Failure(Stop(requests, turn.error));
      }
      var (req, e) := turn.value;
      if req.Some? {
        requests := requests + [req.value];
      }
      entries := entries + [e];
      i := i + 1;
    }
    assert es[..|es|] == es;
    return Success(Plan(requests, entries));
  }

  lemma {:induction false} PlanFaultStays(step: Step, es: Fields, k: nat)
    requires k <= |es| && PlanOf(step, es[..k]).Failure?
    ensures PlanOf(step, es) == PlanOf(step, es[..k])
    decreases |es|
  {
    if k == |es| {
      assert es[..k] == es;
    } else {
      var pre := es[..|es| - 1];
      assert pre[..k] == es[..k];
      PlanFaultStays(step, pre, k);
    }
  }

  /** A failed loop stopped at some module `k`: the modules before it all took their turn,
      and the requests it reports as sent are theirs. */
  lemma {:induction false} StoppedAfterPrefix(step: Step, es: Fields)
    requires PlanOf(step, es).Failure?
    ensures exists k :: 0 <= k < |es| && SentBy(step, es, k, Outcome(PlanOf(step, es).error.sent, Failure(PlanOf(step, es).error.fault)))
    decreases |es|
  {
    var n := |es| - 1;
    var pre := es[..n];
    var o := Outcome(PlanOf(step, es).error.sent, Failure(PlanOf(step, es).error.fault));
    if PlanOf(step, pre).Failure? {
      StoppedAfterPrefix(step, pre);
      var k :| 0 <= k < |pre| && SentBy(step, pre, k, o);
      assert pre[..k] == es[..k] && pre[k] == es[k];
      assert SentBy(step, es, k, o);
    } else {
      assert SentBy(step, es, n, o);
    }
  }

  /** `syncDnsRecords` under `filter` (the script as written is `AsWritten`). */
  method SyncDnsRecords(filter: Filter, modules: Option<Json>, manifest: Option<Json>, data: Option<seq<DnsRecord>>, updated: string)
    returns (r: Outcome)
    ensures r == SyncOf(filter, modules, manifest, data, updated)
  {
    if modules.None? {
      return Outcome([], Failure(InvalidJson("modules.json")));
    }
    if manifest.None? {
      return Outcome([], Failure(InvalidJson("records.json")));
    }
    if modules.value == JNull {
      return Outcome([], Failure(Crash(ReadOfNull("modules"))));
    }
    var list := Get(modules.value, "modules");
    if list.None? || list.value == JNull {
      return Outcome([], Failure(NotConvertible));
    }
    var existing := BuildExisting(filter, RecordsOf(data));
    var plan := ProcessModules(StepWith(existing), Entries(list.value));
    if plan.Failure? {
      return Outcome(plan.error.sent, Failure(plan.error.fault));
    }
    var m := UpdateManifest(manifest.value, updated, plan.value.entries);
    return Outcome(plan.value.requests, m);
  }
}
