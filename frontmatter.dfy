/** `parseFrontmatter` of tools/validate.js: the block between an opening `---` line and the
    first closing `\n---`, read line by line as `key: value` assignments into an object. */
module Frontmatter {
  import opened Wrappers
  import opened Strings

  const Fence := "---\n"
  const Closing := "\n---"

  // ---------------------------------------------------------------------------
  // The block: `^---\n([\s\S]*?)\n---`

  /** The lazy group of the block pattern: everything after the opening fence up to the
      first `\n---` that starts after it. */
  function BlockOf(content: string): (r: Option<string>)
    ensures r.Some? ==> StartsWith(content, Fence) && Find(r.value, Closing).None?
                        && OccursAt(content, Closing, |Fence| + |r.value|)
                        && content[..|Fence| + |r.value|] == Fence + r.value
  {
    if !StartsWith(content, Fence) then None
    else
      match FindFrom(content, Closing, |Fence|)
      case None => None
      case Some(j) =>
        var b := content[|Fence|..j];
        assert content[..j] == Fence + b;
        forall p | 0 <= p <= |b| ensures !OccursAt(b, Closing, p) {
          if OccursAt(b, Closing, p) {
            assert content[|Fence| + p..|Fence| + p + |Closing|] == b[p..p + |Closing|];
            assert OccursAt(content, Closing, |Fence| + p);
          }
        }
        Some(b)
  }

  /** `parseFrontmatter` returns `null` exactly when the content does not open with `---\n`
      or has no `\n---` after that. */
  lemma BlockAbsent(content: string)
    ensures BlockOf(content).None? <==>
              !StartsWith(content, Fence) || forall j :: |Fence| <= j <= |content| ==> !OccursAt(content, Closing, j)
  {
  }

  /** A block is read back exactly: the fence, a text without `\n---`, the closing fence and
      anything after it. */
  lemma FencedBlock(b: string, rest: string)
    requires Find(b, Closing).None?
    ensures BlockOf(Fence + b + Closing + rest) == Some(b)
  {
    var c := Fence + b + Closing + rest;
    var j := |Fence| + |b|;
    assert c[..|Fence|] == Fence;
    assert c[j..j + |Closing|] == Closing;
    assert c[|Fence|..j] == b;
    forall k | |Fence| <= k < j ensures !OccursAt(c, Closing, k) {
      var p := k - |Fence|;
      if p + |Closing| <= |b| {
        assert c[k..k + |Closing|] == b[p..p + |Closing|];
        assert !OccursAt(b, Closing, p);
      } else {
        assert c[j] == '\n';
        NoStraddle(c, k, j);
      }
    }
    assert OccursAt(c, Closing, j);
    assert FindFrom(c, Closing, |Fence|) == Some(j);
  }

  /** An occurrence of `\n---` cannot run into a newline: its last three characters are dashes. */
  lemma NoStraddle(c: string, k: nat, j: nat)
    requires k < j < k + |Closing| && j < |c| && c[j] == '\n'
    ensures !OccursAt(c, Closing, k)
  {
    if k + |Closing| <= |c| {
      assert c[k..k + |Closing|][j - k] == c[j];
    }
  }

  // ---------------------------------------------------------------------------
  // One line: `^([^:]+):\s*(.+)$`

  /** The second group of the line pattern, given the text `a` after the first colon: `\s*`
      is greedy, and gives back a character only when nothing else is left for `(.+)`. */
  function ValueGroup(a: string): (v: string)
    requires a != ""
    ensures 0 < |v| <= |a| && v == a[|a| - |v|..]
  {
    var w := LeadingWhitespace(a);
    if w < |a| then a[w..] else a[|a| - 1..]
  }

  /** The trimmed key and value a line assigns, or `None` when it does not match: the key
      is the text before the first colon (not empty), the value group must be a non-empty
      run without line terminators up to the end of the line. */
  function ParseLine(line: string): Option<(string, string)> {
    match SplitAtFirst(line, ':')
    case None => None
    case Some((k, a)) =>
      if k == "" || a == "" then None
      else
        var v := ValueGroup(a);
        if IsDotPlus(v) then Some((Trim(k), Trim(v))) else None
  }

  /** A line with a non-empty key before its first colon is read from what follows the colon. */
  lemma AfterColon(k: string, a: string)
    requires ':' !in k && k != ""
    ensures ParseLine(k + ([':'] + a))
            == if a == "" || !IsDotPlus(ValueGroup(a)) then None else Some((Trim(k), Trim(ValueGroup(a))))
  {
    SplitAtFirstOf(k, ':', a);
  }

  /** A line without a colon is skipped. */
  lemma NoColonSkipped(line: string)
    requires ':' !in line
    ensures ParseLine(line).None?
  {
  }

  /** A line whose colon has nothing after it is skipped, and so is one that starts with a colon. */
  lemma EmptyPartSkipped(k: string, a: string)
    requires ':' !in k
    ensures ParseLine(k + ":").None?
    ensures ParseLine(":" + a).None?
  {
    SplitAtFirstOf(k, ':', "");
    assert k + ":" == k + ([':'] + "");
    SplitAtFirstOf("", ':', a);
    assert ":" + a == "" + ([':'] + a);
  }

  /** `key: value` with a value that does not start with white space and has no line
      terminator assigns the trimmed value to the trimmed key. */
  lemma KeyValueParsed(k: string, v: string)
    requires ':' !in k && k != ""
    requires IsDotPlus(v) && !IsWhitespace(v[0])
    ensures ParseLine(k + ": " + v) == Some((Trim(k), Trim(v)))
  {
    var a := " " + v;
    assert k + ": " + v == k + ([':'] + a);
    AfterColon(k, a);
    assert a[1..] == v;
    assert LeadingWhitespace(a[1..]) == 0;
  }

  /** A line that ends in a carriage return never matches, since `.` stops at it: in a file
      with CRLF line ends every assignment is skipped. */
  lemma CarriageReturnSkipped(k: string, a: string)
    requires ':' !in k
    ensures ParseLine(k + ":" + a + "\r").None?
  {
    var rest := a + "\r";
    assert k + ":" + a + "\r" == k + ([':'] + rest);
    if k != "" {
      AfterColon(k, rest);
      var v := ValueGroup(rest);
      assert v[|v| - 1] == rest[|rest| - 1] == '\r';
    } else {
      EmptyPartSkipped(k, a + "\r");
      assert k + ":" + a + "\r" == ":" + (a + "\r");
    }
  }

  // ---------------------------------------------------------------------------
  // The lines

  /** What each line assigns, in order. */
  function Parsed(lines: seq<string>): (r: seq<Option<(string, string)>>)
    ensures |r| == |lines| && forall i :: 0 <= i < |lines| ==> r[i] == ParseLine(lines[i])
  {
    seq(|lines|, i requires 0 <= i < |lines| => ParseLine(lines[i]))
  }

  /** The assignment `a` sets the key `k`. */
  predicate Assigns(a: Option<(string, string)>, k: string) {
    a.Some? && a.value.0 == k
  }

  /** The frontmatter object after the assignments `xs`, in order. */
  function Assignments(xs: seq<Option<(string, string)>>): map<string, string>
    decreases |xs|
  {
    if |xs| == 0 then map[]
    else
      var n := |xs| - 1;
      var fm := Assignments(xs[..n]);
      match xs[n]
      case None => fm
      case Some((k, v)) => fm[k := v]
  }

  /** A key is present exactly when some line assigns it. */
  lemma {:induction false} AssignedKeys(xs: seq<Option<(string, string)>>, k: string)
    ensures k in Assignments(xs) <==> exists i :: 0 <= i < |xs| && Assigns(xs[i], k)
    decreases |xs|
  {
    if |xs| > 0 {
      var n := |xs| - 1;
      var pre := xs[..n];
      assert forall i :: 0 <= i < n ==> pre[i] == xs[i];
      AssignedKeys(pre, k);
    }
  }

  /** A key holds the value of the last line that assigns it: a later duplicate overwrites
      an earlier one. */
  lemma {:induction false} LastAssignmentWins(xs: seq<Option<(string, string)>>, k: string, i: nat)
    requires i < |xs| && Assigns(xs[i], k)
    requires forall j :: i < j < |xs| ==> !Assigns(xs[j], k)
    ensures k in Assignments(xs) && Assignments(xs)[k] == xs[i].value.1
    decreases |xs|
  {
    var n := |xs| - 1;
    if i < n {
      var pre := xs[..n];
      assert pre[i] == xs[i];
      assert forall j :: i < j < n ==> pre[j] == xs[j];
      LastAssignmentWins(pre, k, i);
    }
  }

  /** What `parseFrontmatter` returns: `null` without a block, otherwise the assignments of
      the block's lines. */
  function FrontmatterOf(content: string): Option<map<string, string>> {
    match BlockOf(content)
    case None => None
    case Some(b) => Some(Assignments(Parsed(Split(b, '\n'))))
  }

  /** The content `---\n{block}\n---...` has the frontmatter of the block's lines. */
  lemma FencedFrontmatter(b: string, rest: string)
    requires Find(b, Closing).None?
    ensures FrontmatterOf(Fence + b + Closing + rest) == Some(Assignments(Parsed(Split(b, '\n'))))
  {
    FencedBlock(b, rest);
  }

  /** `parseFrontmatter`: the block, then its lines. */
  method ParseFrontmatter(content: string) returns (fm: Option<map<string, string>>)
    ensures fm == FrontmatterOf(content)
  {
    var block := BlockOf(content);
    if block.None? {
      return None;
    }
    var frontmatter := AssignLines(Split(block.value, '\n'));
    return Some(frontmatter);
  }

  /** The line loop of `parseFrontmatter`: each line that matches assigns its key. */
  method AssignLines(lines: seq<string>) returns (frontmatter: map<string, string>)
    ensures frontmatter == Assignments(Parsed(lines))
  {
    ghost var parsed := Parsed(lines);
    frontmatter := map[];
    var i := 0;
    while i < |lines|
      invariant 0 <= i <= |lines|
      invariant frontmatter == Assignments(parsed[..i])
    {
      AssignmentsStep(parsed, i);
      var line := ParseLine(lines[i]);
      if line.Some? {
        frontmatter := frontmatter[line.value.0 := line.value.1];
      }
      i := i + 1;
    }
    assert parsed[..|lines|] == parsed;
  }

  /** One more line: the frontmatter after it is the one before, with its assignment. */
  lemma AssignmentsStep(xs: seq<Option<(string, string)>>, i: nat)
    requires i < |xs|
    ensures Assignments(xs[..i + 1]) == if xs[i].Some? then Assignments(xs[..i])[xs[i].value.0 := xs[i].value.1] else Assignments(xs[..i])
  {
    assert xs[..i + 1][..i] == xs[..i];
  }
}
