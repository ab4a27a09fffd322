/** Parsed JSON values and the parts of JavaScript's semantics the scripts rely on when they
    read them: property access (`undefined` is `None`), truthiness (`if (!x)`, `x || d`),
    `typeof`, `Array.isArray`, string coercion in template literals and `regex.test`,
    `Object.entries`, object spread and property assignment. */
module Json {
  import opened Wrappers
  import opened Strings

  /** The value `JSON.parse` can produce. Numbers are split by `Number.isInteger`: `JNum`
      holds an integral number, `JFrac` a number with a fractional part, kept as the text
      that `String(x)` gives it. An object is its list of properties in insertion order. */
  datatype Json =
    | JNull
    | JBool(b: bool)
    | JNum(n: int)
    | JFrac(text: string)
    | JStr(s: string)
    | JArr(items: seq<Json>)
    | JObj(fields: seq<(string, Json)>)

  type Fields = seq<(string, Json)>

  predicate HasKey(fs: Fields, k: string)
    decreases |fs|
  {
    |fs| > 0 && (fs[0].0 == k || HasKey(fs[1..], k))
  }

  lemma {:induction false} HasKeyAt(fs: Fields, i: nat)
    requires i < |fs|
    ensures HasKey(fs, fs[i].0)
    decreases i
  {
    if i > 0 { HasKeyAt(fs[1..], i - 1); }
  }

  /** The first property named `k`. */
  function Lookup(fs: Fields, k: string): (r: Option<Json>)
    ensures r.Some? <==> HasKey(fs, k)
    decreases |fs|
  {
    if |fs| == 0 then None
    else if fs[0].0 == k then Some(fs[0].1)
    else Lookup(fs[1..], k)
  }

  /** The property at `i` is the one found when no earlier property has its name. */
  lemma {:induction false} LookupAt(fs: Fields, i: nat)
    requires i < |fs| && forall j :: 0 <= j < i ==> fs[j].0 != fs[i].0
    ensures Lookup(fs, fs[i].0) == Some(fs[i].1)
    decreases i
  {
    if i > 0 {
      assert forall j :: 0 <= j < i - 1 ==> fs[1..][j] == fs[j + 1];
      LookupAt(fs[1..], i - 1);
    }
  }

  /** A name no property carries is not found. */
  lemma {:induction false} LookupAbsent(fs: Fields, k: string)
    requires forall i :: 0 <= i < |fs| ==> fs[i].0 != k
    ensures Lookup(fs, k) == None
    decreases |fs|
  {
    if |fs| > 0 {
      assert forall i :: 0 <= i < |fs| - 1 ==> fs[1..][i] == fs[i + 1];
      LookupAbsent(fs[1..], k);
    }
  }

  /** Where a found property sits: the first position carrying its name. */
  lemma {:induction false} LookupFound(fs: Fields, k: string) returns (i: nat)
    requires HasKey(fs, k)
    ensures i < |fs| && fs[i].0 == k && Lookup(fs, k) == Some(fs[i].1)
    decreases |fs|
  {
    if fs[0].0 == k {
      i := 0;
    } else {
      var j := LookupFound(fs[1..], k);
      i := j + 1;
    }
  }

  function KeyList(fs: Fields): (ks: seq<string>)
    ensures |ks| == |fs| && forall i :: 0 <= i < |fs| ==> ks[i] == fs[i].0
  {
    seq(|fs|, i requires 0 <= i < |fs| => fs[i].0)
  }

  /** Property names are pairwise distinct, as in every object `JSON.parse` returns. */
  predicate DistinctKeys(fs: Fields) {
    forall i, j :: 0 <= i < j < |fs| ==> fs[i].0 != fs[j].0
  }

  /** `obj[k] = v`: an existing property keeps its position and gets the new value; a new
      one is appended. */
  function Put(fs: Fields, k: string, v: Json): (r: Fields)
    ensures HasKey(fs, k) ==> |r| == |fs|
    ensures !HasKey(fs, k) ==> r == fs + [(k, v)]
    ensures Lookup(r, k) == Some(v)
    ensures forall k' :: k' != k ==> Lookup(r, k') == Lookup(fs, k')
    decreases |fs|
  {
    if |fs| == 0 then [(k, v)]
    else if fs[0].0 == k then [(k, v)] + fs[1..]
    else
      var rest := Put(fs[1..], k, v);
      var r := [fs[0]] + rest;
      assert r[1..] == rest;
      assert !HasKey(fs, k) ==> r == fs + [(k, v)] by {
        if !HasKey(fs, k) { assert fs == [fs[0]] + fs[1..]; }
      }
      r
  }

  /** `obj[k] = v` keeps the property names in order and adds `k` at the end when it is new. */
  lemma {:induction false} PutKeys(fs: Fields, k: string, v: Json)
    ensures KeyList(Put(fs, k, v)) == if HasKey(fs, k) then KeyList(fs) else KeyList(fs) + [k]
  {
    var r := Put(fs, k, v);
    if HasKey(fs, k) {
      PutKeepsNames(fs, k, v);
      assert forall i :: 0 <= i < |r| ==> KeyList(r)[i] == KeyList(fs)[i];
    } else {
      assert forall i :: 0 <= i < |r| ==> KeyList(r)[i] == (KeyList(fs) + [k])[i];
    }
  }

  /** Overwriting an existing property leaves every position's name as it was. */
  lemma {:induction false} PutKeepsNames(fs: Fields, k: string, v: Json)
    requires HasKey(fs, k)
    ensures |Put(fs, k, v)| == |fs| && forall i :: 0 <= i < |fs| ==> Put(fs, k, v)[i].0 == fs[i].0
    decreases |fs|
  {
    if fs[0].0 != k {
      PutKeepsNames(fs[1..], k, v);
      var rest := Put(fs[1..], k, v);
      assert Put(fs, k, v) == [fs[0]] + rest;
    }
  }

  /** `obj[k] = v` on an object with distinct property names keeps them distinct. */
  lemma PutDistinct(fs: Fields, k: string, v: Json)
    requires DistinctKeys(fs)
    ensures DistinctKeys(Put(fs, k, v))
  {
    PutKeys(fs, k, v);
    var r := Put(fs, k, v);
    assert forall i :: 0 <= i < |r| ==> r[i].0 == KeyList(r)[i];
    if !HasKey(fs, k) {
      forall i | 0 <= i < |fs| ensures fs[i].0 != k {
        if fs[i].0 == k { HasKeyAt(fs, i); }
      }
    }
  }

  /** The first `n` properties of an object with distinct property names have distinct names. */
  lemma DistinctPrefix(fs: Fields, n: nat)
    requires DistinctKeys(fs) && n <= |fs|
    ensures DistinctKeys(fs[..n])
  {
    assert forall i :: 0 <= i < n ==> fs[..n][i] == fs[i];
  }

  // ---------------------------------------------------------------------------
  // Reading values

  /** `v.k` on a value that is not `null`: only objects carry the property names the
      scripts read (arrays and strings have none of them). */
  function Get(v: Json, k: string): (r: Option<Json>)
    ensures !v.JObj? ==> r == None
  {
    if v.JObj? then Lookup(v.fields, k) else None
  }

  /** `o?.k`: `undefined` when `o` is `null` or `undefined`. */
  function OptGet(o: Option<Json>, k: string): Option<Json> {
    if o.Some? then Get(o.value, k) else None
  }

  /** JavaScript truthiness: `undefined`, `null`, `false`, `0` and `""` are falsy. */
  predicate Truthy(o: Option<Json>) {
    match o
    case None => false
    case Some(v) =>
      match v
      case JNull => false
      case JBool(b) => b
      case JNum(n) => n != 0
      case JFrac(_) => true
      case JStr(s) => s != ""
      case JArr(_) => true
      case JObj(_) => true
  }

  /** `x || d` */
  function Or(o: Option<Json>, d: Json): (r: Json)
    ensures Truthy(o) ==> Some(r) == o
    ensures !Truthy(o) ==> r == d
  {
    if Truthy(o) then o.value else d
  }

  /** `typeof x === 'object'`, which holds for `null` and for arrays as well. */
  predicate IsObjectType(o: Option<Json>) {
    o.Some? && (o.value.JNull? || o.value.JArr? || o.value.JObj?)
  }

  predicate IsArray(o: Option<Json>) {
    o.Some? && o.value.JArr?
  }

  predicate IsString(o: Option<Json>) {
    o.Some? && o.value.JStr?
  }

  // ---------------------------------------------------------------------------
  // String coercion

  /** `String(v)` for a defined value: arrays are joined with commas (their `null`
      elements become empty), every object is `[object Object]`. */
  function Show(v: Json): string
    decreases v
  {
    match v
    case JNull => "null"
    case JBool(b) => if b then "true" else "false"
    case JNum(n) => IntToString(n)
    case JFrac(t) => t
    case JStr(s) => s
    case JArr(items) =>
      Join(seq(|items|, i requires 0 <= i < |items| => if items[i].JNull? then "" else Show(items[i])), ",")
    case JObj(_) => "[object Object]"
  }

  /** `${o}` in a template literal, and the argument conversion of `regex.test(o)`. */
  function Display(o: Option<Json>): (r: string)
    ensures o.Some? && o.value.JStr? ==> r == o.value.s
  {
    if o.None? then "undefined" else Show(o.value)
  }

  // ---------------------------------------------------------------------------
  // Enumeration

  /** `Object.entries(v)` (and likewise the properties `{...v}` copies): an object's own
      properties, an array's or a string's indices, nothing for other values. */
  function Entries(v: Json): (r: Fields)
    ensures v.JObj? ==> r == v.fields
    ensures v.JArr? ==> |r| == |v.items| && forall i :: 0 <= i < |r| ==> r[i] == (NatToString(i), v.items[i])
    ensures v.JStr? ==> |r| == |v.s| && forall i :: 0 <= i < |r| ==> r[i] == (NatToString(i), JStr([v.s[i]]))
    ensures v.JNull? || v.JBool? || v.JNum? || v.JFrac? ==> r == []
    ensures !v.JObj? ==> forall i :: 0 <= i < |r| ==> IsDigits(r[i].0)
  {
    match v
    case JObj(fs) => fs
    case JArr(items) => seq(|items|, i requires 0 <= i < |items| => (NatToString(i), items[i]))
    case JStr(s) => seq(|s|, i requires 0 <= i < |s| => (NatToString(i), JStr([s[i]])))
    case _ => []
  }

  /** `Object.entries(o || {})` */
  function EntriesOr(o: Option<Json>): Fields {
    if Truthy(o) then Entries(o.value) else []
  }

  /** `{...o, k1: v1, k2: v2}`: the properties of `o`, then two assignments. */
  function Spread(o: Option<Json>, k1: string, v1: Json, k2: string, v2: Json): (r: Fields)
    requires k1 != k2
    ensures Lookup(r, k1) == Some(v1) && Lookup(r, k2) == Some(v2)
    ensures forall k :: k != k1 && k != k2 ==> Lookup(r, k) == (if o.Some? then Lookup(Entries(o.value), k) else None)
  {
    var base := if o.Some? then Entries(o.value) else [];
    Put(Put(base, k1, v1), k2, v2)
  }

  // ---------------------------------------------------------------------------
  // Exceptions

  /** The `TypeError`s the scripts can raise on ill-typed input, with V8's message text. */
  datatype TypeError =
    | NotAFunction(callee: string)
    | ReadOfNull(prop: string)
    | ReadOfUndefined(prop: string)

  function TypeErrorMessage(e: TypeError): string {
    match e
    case NotAFunction(f) => f + " is not a function"
    case ReadOfNull(p) => "Cannot read properties of null (reading '" + p + "')"
    case ReadOfUndefined(p) => "Cannot read properties of undefined (reading '" + p + "')"
  }

  /** An object literal whose `undefined` members are dropped, as `JSON.stringify` does. */
  function Compact(members: seq<(string, Option<Json>)>): (r: Fields)
    ensures |r| <= |members|
    decreases |members|
  {
    if |members| == 0 then []
    else
      var rest := Compact(members[1..]);
      match members[0].1
      case None => rest
      case Some(v) => [(members[0].0, v)] + rest
  }

  /** A name no member carries is not among the written properties. */
  lemma {:induction false} CompactAbsent(members: seq<(string, Option<Json>)>, k: string)
    requires forall j :: 0 <= j < |members| ==> members[j].0 != k
    ensures Lookup(Compact(members), k) == None
    decreases |members|
  {
    if |members| > 0 {
      assert forall j :: 0 <= j < |members| - 1 ==> members[1..][j] == members[j + 1];
      CompactAbsent(members[1..], k);
    }
  }

  /** A member whose name no other member carries is read back as its value, `undefined`
      when it was dropped. */
  lemma {:induction false} CompactLookup(members: seq<(string, Option<Json>)>, i: nat)
    requires i < |members| && forall j :: 0 <= j < |members| && j != i ==> members[j].0 != members[i].0
    ensures Lookup(Compact(members), members[i].0) == members[i].1
    decreases i
  {
    assert forall j :: 0 <= j < |members| - 1 ==> members[1..][j] == members[j + 1];
    if i == 0 {
      if members[0].1.None? {
        CompactAbsent(members[1..], members[0].0);
      }
    } else {
      CompactLookup(members[1..], i - 1);
    }
  }

  /** No two members of an object literal share a name. */
  predicate DistinctNames(members: seq<(string, Option<Json>)>) {
    forall i, j :: 0 <= i < j < |members| ==> members[i].0 != members[j].0
  }

  /** `CompactLookup` for a literal whose names are all distinct. */
  lemma CompactMember(members: seq<(string, Option<Json>)>, i: nat)
    requires DistinctNames(members) && i < |members|
    ensures Lookup(Compact(members), members[i].0) == members[i].1
  {
    assert forall j :: 0 <= j < |members| && j != i ==> members[j].0 != members[i].0 by {
      forall j | 0 <= j < |members| && j != i ensures members[j].0 != members[i].0 {
        if j < i { assert members[j].0 != members[i].0; } else { assert members[i].0 != members[j].0; }
      }
    }
    CompactLookup(members, i);
  }

  /** An array element that is `undefined` is written as `null` by `JSON.stringify`. */
  function OrNull(o: Option<Json>): (r: Json)
    ensures o.Some? ==> r == o.value
  {
    if o.Some? then o.value else JNull
  }
}

/** Directory trees as the scripts see them through `readdir`, `stat` and `readFile`. */
module Files {
  import opened Wrappers
  import opened Json

  /** A file holds either a JSON document (`Some`) or text `JSON.parse` rejects (`None`). */
  datatype Node =
    | File(name: string, json: Option<Json>)
    | Dir(name: string, children: seq<Node>)

  /** Outcome of `existsSync(path)` then `JSON.parse(readFileSync(path))`. */
  datatype Read = Absent | Unreadable | Parsed(value: Json)

  /** Reads the entry called `name`: a directory of that name exists but cannot be read as a
      file, and a file that is not JSON makes `JSON.parse` throw. */
  function ReadJson(entries: seq<Node>, name: string): (r: Read)
    ensures r.Absent? <==> forall i :: 0 <= i < |entries| ==> entries[i].name != name
    decreases |entries|
  {
    if |entries| == 0 then Absent
    else if entries[0].name == name then
      match entries[0]
      case Dir(_, _) => Unreadable
      case File(_, j) => if j.Some? then Parsed(j.value) else Unreadable
    else ReadJson(entries[1..], name)
  }
}
