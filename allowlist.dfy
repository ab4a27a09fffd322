// The allowlist manager: the trusted-author list of `allowlist.json`, kept sorted by
// `add`, edited by `remove` and queried by `check`. Loading and saving the file is left
// to the caller: an `Allowlist` object holds the parsed `trustedAuthors` array and the
// `metadata.lastUpdated` date.

module ManageAllowlist {
  import opened Strings

  // ---------------------------------------------------------------------------
  // Order and the list operations, on values

  /** Ascending in the order of `Array.prototype.sort` on strings. */
  ghost predicate Sorted(s: seq<string>) {
    forall k, l :: 0 <= k < l < |s| ==> LessEq(s[k], s[l])
  }

  lemma LessEqTransitive(a: string, b: string, c: string)
    requires LessEq(a, b) && LessEq(b, c)
    ensures LessEq(a, c)
  {
    if a != b && b != c { LessTransitive(a, b, c); }
  }

  lemma LessEqAntisymmetric(a: string, b: string)
    requires LessEq(a, b) && LessEq(b, a)
    ensures a == b
  {
    if a != b { LessAsymmetric(a, b); }
  }

  /** `s.indexOf(u)`: the first position holding `u`, or -1. */
  function IndexOfName(s: seq<string>, u: string): (r: int)
    ensures -1 <= r < |s|
    ensures r == -1 <==> u !in s
    ensures r >= 0 ==> s[r] == u && forall k :: 0 <= k < r ==> s[k] != u
    decreases |s|
  {
    if |s| == 0 then -1
    else if s[0] == u then 0
    else
      var k := IndexOfName(s[1..], u);
      if k == -1 then -1 else k + 1
  }

  /** `s.splice(s.indexOf(u), 1)` when `u` is present; `s` otherwise. */
  function RemoveFirst(s: seq<string>, u: string): seq<string> {
    var i := IndexOfName(s, u);
    if i == -1 then s else s[..i] + s[i + 1..]
  }

  /** An independent reading of the removal: walk the list and drop the first `u`. */
  function Without(s: seq<string>, u: string): seq<string>
    decreases |s|
  {
    if |s| == 0 then []
    else if s[0] == u then s[1..]
    else [s[0]] + Without(s[1..], u)
  }

  /** Where a new name lands in a sorted list. */
  function Insert(s: seq<string>, u: string): seq<string>
    decreases |s|
  {
    if |s| == 0 then [u]
    else if LessEq(u, s[0]) then [u] + s
    else [s[0]] + Insert(s[1..], u)
  }

  /** Removing by position agrees with the walk. */
  lemma {:induction false} RemoveFirstIsWithout(s: seq<string>, u: string)
    ensures RemoveFirst(s, u) == Without(s, u)
    decreases |s|
  {
    if |s| > 0 && s[0] != u {
      RemoveFirstIsWithout(s[1..], u);
      var k := IndexOfName(s[1..], u);
      if k != -1 {
        assert s[1..][..k] == s[1..k + 1];
        assert s[..k + 1] == [s[0]] + s[1..k + 1];
        assert s[1..][k + 1..] == s[k + 2..];
      }
    }
  }

  /** Removing a present name drops exactly one copy of it; an absent name changes nothing. */
  lemma RemoveFirstCounts(s: seq<string>, u: string)
    ensures u !in s ==> RemoveFirst(s, u) == s
    ensures u in s ==> |RemoveFirst(s, u)| == |s| - 1
                       && multiset(RemoveFirst(s, u)) == multiset(s) - multiset{u}
  {
    if u in s {
      var i := IndexOfName(s, u);
      assert s == s[..i] + [u] + s[i + 1..];
    }
  }

  /** The names that stay keep their relative order: the result is `s` with the single
      position `i` taken out, `i` being the first holding `u`. */
  lemma RemoveKeepsOrder(s: seq<string>, u: string, i: nat)
    requires i < |s| && s[i] == u && u !in s[..i]
    ensures RemoveFirst(s, u) == s[..i] + s[i + 1..]
  {
    assert forall k :: 0 <= k < i ==> s[..i][k] == s[k];
  }

  lemma SortedTail(s: seq<string>)
    requires Sorted(s) && |s| > 0
    ensures Sorted(s[1..])
  {
    assert forall k, l :: 0 <= k < l < |s| - 1 ==> s[1..][k] == s[k + 1] && s[1..][l] == s[l + 1];
  }

  /** Removing from a sorted list leaves it sorted. */
  lemma RemoveKeepsSorted(s: seq<string>, u: string)
    requires Sorted(s)
    ensures Sorted(RemoveFirst(s, u))
  {
    var i := IndexOfName(s, u);
    if i != -1 {
      var r := s[..i] + s[i + 1..];
      forall k, l | 0 <= k < l < |r|
        ensures LessEq(r[k], r[l])
      {
        var k' := if k < i then k else k + 1;
        var l' := if l < i then l else l + 1;
        assert r[k] == s[k'] && r[l] == s[l'] && k' < l';
      }
    }
  }

  /** `Insert` keeps a sorted list sorted and adds one copy of the name. */
  lemma {:induction false} InsertSorted(s: seq<string>, u: string)
    requires Sorted(s)
    ensures Sorted(Insert(s, u)) && multiset(Insert(s, u)) == multiset(s) + multiset{u}
    decreases |s|
  {
    if |s| > 0 {
      if LessEq(u, s[0]) {
        var r := [u] + s;
        forall k, l | 0 <= k < l < |r|
          ensures LessEq(r[k], r[l])
        {
          if k == 0 && l > 1 { LessEqTransitive(u, s[0], s[l - 1]); }
        }
      } else {
        SortedTail(s);
        InsertSorted(s[1..], u);
        var t := Insert(s[1..], u);
        LessTotal(u, s[0]);
        forall l | 0 <= l < |t|
          ensures LessEq(s[0], t[l])
        {
          assert t[l] in multiset(t);
          BelowTail(s, u, t[l]);
        }
        ConsSorted(s[0], t);
        assert s == [s[0]] + s[1..];
      }
    }
  }

  lemma BelowTail(s: seq<string>, u: string, y: string)
    requires Sorted(s) && |s| > 0 && LessEq(s[0], u) && y in multiset(s[1..]) + multiset{u}
    ensures LessEq(s[0], y)
  {
    if y != u {
      var m :| 0 <= m < |s[1..]| && s[1..][m] == y;
      assert s[m + 1] == y;
    }
  }

  lemma ConsSorted(x: string, t: seq<string>)
    requires Sorted(t) && forall l :: 0 <= l < |t| ==> LessEq(x, t[l])
    ensures Sorted([x] + t)
  {
    var r := [x] + t;
    assert forall k, l :: 0 < k < l < |r| ==> r[k] == t[k - 1] && r[l] == t[l - 1];
  }

  lemma SortedFirst(s: seq<string>, x: string)
    requires Sorted(s) && x in s
    ensures LessEq(s[0], x)
  {
    var i :| 0 <= i < |s| && s[i] == x;
    assert LessEq(s[0], s[i]);
  }

  lemma SameFirst(a: seq<string>, b: seq<string>)
    requires Sorted(a) && Sorted(b) && multiset(a) == multiset(b) && |a| > 0
    ensures |b| > 0 && a[0] == b[0] && multiset(a[1..]) == multiset(b[1..])
  {
    assert a == [a[0]] + a[1..];
    assert a[0] in multiset(b);
    assert b == [b[0]] + b[1..];
    assert b[0] in multiset(a);
    SortedFirst(a, b[0]);
    SortedFirst(b, a[0]);
    LessEqAntisymmetric(a[0], b[0]);
    assert multiset(a[1..]) == multiset(a) - multiset{a[0]};
    assert multiset(b[1..]) == multiset(b) - multiset{b[0]};
  }

  /** A sorted order of a multiset of names is unique. */
  lemma {:induction false} SortedUnique(a: seq<string>, b: seq<string>)
    requires Sorted(a) && Sorted(b) && multiset(a) == multiset(b)
    ensures a == b
    decreases |a|
  {
    if |a| > 0 {
      SameFirst(a, b);
      SortedTail(a);
      SortedTail(b);
      SortedUnique(a[1..], b[1..]);
    }
  }

  /** Adding a name and removing it again gives back the sorted list. */
  lemma {:induction false} InsertThenRemove(s: seq<string>, u: string)
    requires u !in s
    ensures RemoveFirst(Insert(s, u), u) == s
    decreases |s|
  {
    RemoveFirstIsWithout(Insert(s, u), u);
    if |s| > 0 && !LessEq(u, s[0]) {
      var t := Insert(s[1..], u);
      InsertThenRemove(s[1..], u);
      RemoveFirstIsWithout(t, u);
      assert ([s[0]] + t)[1..] == t;
      assert s == [s[0]] + s[1..];
    }
  }

  /** `new Date().toISOString().split('T')[0]`, given the timestamp. */
  function DatePart(now: string): (d: string)
    ensures 'T' !in d && StartsWith(now, d)
  {
    var i := IndexOf(now, 'T');
    match i
    case None => now
    case Some(k) => now[..k]
  }

  // ---------------------------------------------------------------------------
  // Sorting in place

  /** All pairs are ordered except those involving position `j`, whose element is below
      everything after it: the state of one pass of insertion sort. */
  ghost predicate SortedExcept(s: seq<string>, j: nat) {
    && (forall k, l :: 0 <= k < l < |s| && k != j && l != j ==> LessEq(s[k], s[l]))
    && (forall l :: j < l < |s| ==> LessEq(s[j], s[l]))
  }

  lemma SwapDown(s: seq<string>, j: nat)
    requires 0 < j < |s| && SortedExcept(s, j) && Less(s[j], s[j - 1])
    ensures SortedExcept(s[j - 1 := s[j]][j := s[j - 1]], j - 1)
  {
  }

  lemma Settle(s: seq<string>, j: nat)
    requires j < |s| && SortedExcept(s, j) && (j == 0 || LessEq(s[j - 1], s[j]))
    ensures Sorted(s)
  {
    forall k, l | 0 <= k < l < |s|
      ensures LessEq(s[k], s[l])
    {
      if l == j && k < j - 1 { LessEqTransitive(s[k], s[j - 1], s[j]); }
    }
  }

  /** One pass of insertion sort: moves `a[i]` down past the larger names before it. */
  method SinkDown(a: array<string>, i: nat)
    requires i < a.Length && Sorted(a[..i])
    modifies a
    ensures Sorted(a[..i + 1]) && multiset(a[..]) == multiset(old(a[..]))
  {
    var j := i;
    assert a[..i + 1][..i] == a[..i];
    while j > 0 && Less(a[j], a[j - 1])
      invariant 0 <= j <= i
      invariant SortedExcept(a[..i + 1], j)
      invariant multiset(a[..]) == multiset(old(a[..]))
    {
      ghost var s := a[..i + 1];
      SwapDown(s, j);
      a[j - 1], a[j] := a[j], a[j - 1];
      assert a[..i + 1] == s[j - 1 := s[j]][j := s[j - 1]];
      j := j - 1;
    }
    if j > 0 { LessTotal(a[j], a[j - 1]); }
    Settle(a[..i + 1], j);
  }

  /** `authors.sort()`: insertion sort by adjacent swaps. */
  method SortAuthors(a: array<string>)
    modifies a
    ensures Sorted(a[..]) && multiset(a[..]) == multiset(old(a[..]))
  {
    var i := 0;
    while i < a.Length
      invariant 0 <= i <= a.Length
      invariant Sorted(a[..i])
      invariant multiset(a[..]) == multiset(old(a[..]))
    {
      SinkDown(a, i);
      i := i + 1;
    }
    assert a[..a.Length] == a[..];
  }

  // ---------------------------------------------------------------------------
  // The allowlist file's contents

  class Allowlist {
    var trustedAuthors: array<string>
    var lastUpdated: string

    /** The parsed `allowlist.json`. */
    constructor(authors: seq<string>, date: string)
      ensures fresh(trustedAuthors) && trustedAuthors[..] == authors && lastUpdated == date
    {
      trustedAuthors := new string[|authors|](i requires 0 <= i < |authors| => authors[i]);
      lastUpdated := date;
    }

    /** `trustedAuthors.includes(username)`. */
    method Includes(username: string) returns (found: bool)
      ensures found <==> username in trustedAuthors[..]
    {
      var index := IndexOf(username);
      found := index != -1;
    }

    /** `trustedAuthors.indexOf(username)`. */
    method IndexOf(username: string) returns (index: int)
      ensures index == IndexOfName(trustedAuthors[..], username)
    {
      var a := trustedAuthors;
      var i := 0;
      while i < a.Length
        invariant 0 <= i <= a.Length
        invariant username !in a[..i]
      {
        if a[i] == username {
          assert forall k :: 0 <= k < i ==> a[..i][k] == a[k];
          return i;
        }
        assert a[..i + 1] == a[..i] + [a[i]];
        i := i + 1;
      }
      assert a[..i] == a[..];
      return -1;
    }

    /** `addAuthor`: a name already present changes nothing; a new one is pushed, the
        list sorted and the date stamped. */
    method Add(username: string, now: string) returns (added: bool)
      modifies this
      ensures added <==> username !in old(trustedAuthors[..])
      ensures !added ==> trustedAuthors == old(trustedAuthors) && lastUpdated == old(lastUpdated)
      ensures added ==> fresh(trustedAuthors) && lastUpdated == DatePart(now)
                        && Sorted(trustedAuthors[..])
                        && multiset(trustedAuthors[..]) == multiset(old(trustedAuthors[..])) + multiset{username}
      ensures added && Sorted(old(trustedAuthors[..])) ==> trustedAuthors[..] == Insert(old(trustedAuthors[..]), username)
    {
      var found := Includes(username);
      if found {
        return false;
      }
      var a := trustedAuthors;
      var b := new string[a.Length + 1](i requires 0 <= i <= a.Length reads a => if i < a.Length then a[i] else username);
      assert b[..] == a[..] + [username];
      SortAuthors(b);
      if Sorted(a[..]) {
        InsertSorted(a[..], username);
        SortedUnique(b[..], Insert(a[..], username));
      }
      trustedAuthors := b;
      lastUpdated := DatePart(now);
      return true;
    }

    /** `removeAuthor`: an absent name changes nothing; otherwise its first occurrence is
        spliced out and the date stamped. */
    method Remove(username: string, now: string) returns (removed: bool)
      modifies this
      ensures removed <==> username in old(trustedAuthors[..])
      ensures !removed ==> trustedAuthors == old(trustedAuthors) && lastUpdated == old(lastUpdated)
      ensures removed ==> fresh(trustedAuthors) && lastUpdated == DatePart(now)
                          && trustedAuthors[..] == RemoveFirst(old(trustedAuthors[..]), username)
    {
      var index := IndexOf(username);
      if index == -1 {
        return false;
      }
      var a := trustedAuthors;
      var b := new string[a.Length - 1];
      ghost var rest := a[..index] + a[index + 1..];
      var k := 0;
      while k < b.Length
        invariant 0 <= k <= b.Length
        invariant forall m :: 0 <= m < k ==> b[m] == rest[m]
      {
        b[k] := if k < index then a[k] else a[k + 1];
        k := k + 1;
      }
      assert b[..] == rest;
      trustedAuthors := b;
      lastUpdated := DatePart(now);
      return true;
    }

    /** `checkAuthor`: exit code 0 exactly when the name is trusted, 1 otherwise. */
    method Check(username: string) returns (exitCode: int)
      ensures exitCode == 0 <==> username in trustedAuthors[..]
      ensures exitCode == 0 || exitCode == 1
    {
      var trusted := Includes(username);
      exitCode := if trusted then 0 else 1;
    }
  }
}
