/** The string operations the Mermaid dialect is read and written with. */
module Text {
  import opened Names

  /** Unicode white space, as trimming sees it. */
  predicate White(c: char) {
    || '\t' <= c <= '\r' || c == ' ' || c == '\U{85}' || c == '\U{A0}' || c == '\U{1680}'
    || '\U{2000}' <= c <= '\U{200A}' || c == '\U{2028}' || c == '\U{2029}' || c == '\U{202F}' || c == '\U{205F}'
    || c == '\U{3000}'
  }

  function TrimStart(s: string): string {
    if s != [] && White(s[0]) then TrimStart(s[1..]) else s
  }

  function TrimEnd(s: string): string {
    if s != [] && White(s[|s| - 1]) then TrimEnd(s[..|s| - 1]) else s
  }

  function Trim(s: string): string {
    TrimEnd(TrimStart(s))
  }

  function StripStart(s: string, c: char): string {
    if s != [] && s[0] == c then StripStart(s[1..], c) else s
  }

  function StripEnd(s: string, c: char): string {
    if s != [] && s[|s| - 1] == c then StripEnd(s[..|s| - 1], c) else s
  }

  /** `trim_matches` of one character. */
  function StripBoth(s: string, c: char): string {
    StripEnd(StripStart(s, c), c)
  }

  predicate StartsWith(s: string, prefix: string) {
    |prefix| <= |s| && s[..|prefix|] == prefix
  }

  predicate EndsWith(s: string, suffix: string) {
    |suffix| <= |s| && s[|s| - |suffix|..] == suffix
  }

  predicate OccursAt(s: string, pat: string, i: nat) {
    i + |pat| <= |s| && s[i..i + |pat|] == pat
  }

  function FindFrom(s: string, pat: string, i: nat): (r: Option<nat>)
    requires i <= |s|
    ensures r.Some? ==> i <= r.value && OccursAt(s, pat, r.value)
    ensures forall j :: i <= j <= |s| && OccursAt(s, pat, j) ==> r.Some? && r.value <= j
    decreases |s| - i
  {
    if OccursAt(s, pat, i) then Some(i)
    else if i == |s| then None
    else FindFrom(s, pat, i + 1)
  }

  /** Where a pattern first occurs. */
  function Find(s: string, pat: string): (r: Option<nat>)
    ensures r.Some? ==> OccursAt(s, pat, r.value)
    ensures forall j :: 0 <= j <= |s| && OccursAt(s, pat, j) ==> r.Some? && r.value <= j
  {
    FindFrom(s, pat, 0)
  }

  predicate Contains(s: string, pat: string) {
    Find(s, pat).Some?
  }

  /** The two sides of the first occurrence. */
  function SplitOnce(s: string, sep: string): Option<(string, string)> {
    match Find(s, sep)
    case None => None
    case Some(i) => Some((s[..i], s[i + |sep|..]))
  }

  function Split(s: string, sep: string): seq<string>
    requires sep != []
    decreases |s|
  {
    match Find(s, sep)
    case None => [s]
    case Some(i) => [s[..i]] + Split(s[i + |sep|..], sep)
  }

  function Join(values: seq<string>, sep: string): string {
    if values == [] then ""
    else if |values| == 1 then values[0]
    else values[0] + sep + Join(values[1..], sep)
  }

  function LowerChar(c: char): char {
    if 'A' <= c <= 'Z' then (c as int + 32) as char else c
  }

  function Lower(s: string): (r: string)
    ensures |r| == |s| && forall i :: 0 <= i < |s| ==> r[i] == LowerChar(s[i])
  {
    seq(|s|, i requires 0 <= i < |s| => LowerChar(s[i]))
  }

  function Replace(s: string, a: char, b: char): (r: string)
    ensures |r| == |s| && forall i :: 0 <= i < |s| ==> r[i] == if s[i] == a then b else s[i]
  {
    seq(|s|, i requires 0 <= i < |s| => if s[i] == a then b else s[i])
  }

  /** Only the characters the test accepts. */
  function Filter(s: string, keep: char -> bool): string {
    if s == [] then []
    else Filter(s[..|s| - 1], keep) + if keep(s[|s| - 1]) then [s[|s| - 1]] else []
  }

  lemma {:induction false} FilterKeepsAll(s: string, keep: char -> bool)
    requires forall i :: 0 <= i < |s| ==> keep(s[i])
    ensures Filter(s, keep) == s
  {
    if s != [] {
      FilterKeepsAll(s[..|s| - 1], keep);
    }
  }

  /** Lines without their ends; a carriage return before the newline goes with it. */
  function Lines(s: string): seq<string>
    decreases |s|
  {
    if s == [] then []
    else
      match Find(s, "\n")
      case None => [s]
      case Some(i) => [if i > 0 && s[i - 1] == '\r' then s[..i - 1] else s[..i]] + Lines(s[i + 1..])
  }

  function Unlines(lines: seq<string>): string {
    if lines == [] then [] else lines[0] + "\n" + Unlines(lines[1..])
  }

  /** Lexicographic order, character by character. */
  predicate NotAfter(a: string, b: string)
    decreases |a|
  {
    a == "" || (b != "" && (a[0] < b[0] || (a[0] == b[0] && NotAfter(a[1..], b[1..]))))
  }

  // ---- laws ------------------------------------------------------------------

  lemma FindIs(s: string, pat: string, i: nat)
    requires OccursAt(s, pat, i) && forall j :: 0 <= j < i ==> !OccursAt(s, pat, j)
    ensures Find(s, pat) == Some(i)
  {
  }

  /** Where a pattern occurs, each of its characters does. */
  lemma OccursNeeds(s: string, pat: string, i: nat, k: nat)
    requires k < |pat| && i + k < |s|
    ensures OccursAt(s, pat, i) ==> s[i + k] == pat[k]
  {
    assert OccursAt(s, pat, i) ==> s[i..i + |pat|][k] == s[i + k];
  }

  /** A pattern with a character the string lacks is not found. */
  lemma FindNeeds(s: string, pat: string, k: nat)
    requires k < |pat|
    ensures Find(s, pat).Some? ==> pat[k] in s
  {
    if Find(s, pat).Some? {
      var j := Find(s, pat).value;
      assert s[j..j + |pat|][k] == s[j + k];
    }
  }

  lemma FindChar(a: string, c: char, b: string)
    requires c !in a
    ensures Find(a + [c] + b, [c]) == Some(|a|)
  {
    var s := a + [c] + b;
    assert s[|a|..|a| + 1] == [c] && OccursAt(s, [c], |a|);
    forall j | 0 <= j < |a| ensures !OccursAt(s, [c], j) {
      assert s[j..j + 1][0] == a[j] && a[j] in a;
    }
    FindIs(s, [c], |a|);
  }

  lemma SplitOnceChar(a: string, c: char, b: string)
    requires c !in a
    ensures SplitOnce(a + [c] + b, [c]) == Some((a, b))
  {
    FindChar(a, c, b);
    var s := a + [c] + b;
    assert s[..|a|] == a && s[|a| + 1..] == b;
  }

  /** A line that ends where its newline does: none inside, and no carriage return before it. */
  ghost predicate IsLine(line: string) {
    '\n' !in line && (line != "" ==> line[|line| - 1] != '\r')
  }

  lemma {:induction false} LinesOfUnlines(lines: seq<string>)
    requires forall i :: 0 <= i < |lines| ==> IsLine(lines[i])
    ensures Lines(Unlines(lines)) == lines
  {
    if lines != [] {
      assert IsLine(lines[0]);
      FirstLine(lines[0], Unlines(lines[1..]));
      LinesOfUnlines(lines[1..]);
    }
  }

  lemma FirstLine(line: string, rest: string)
    requires IsLine(line)
    ensures Lines(line + "\n" + rest) == [line] + Lines(rest)
  {
    var s := line + "\n" + rest;
    FindChar(line, '\n', rest);
    assert "\n" == ['\n'];
    assert s[..|line|] == line && s[|line| + 1..] == rest;
    assert |line| > 0 ==> s[|line| - 1] == line[|line| - 1];
  }

  /** Before its first occurrence a character does not occur. */
  lemma NotBeforeFirst(s: string, c: char)
    ensures Find(s, [c]).Some? ==> c !in s[..Find(s, [c]).value]
    ensures Find(s, [c]).None? ==> c !in s
  {
    var r := Find(s, [c]);
    var end := if r.Some? then r.value else |s|;
    forall j: nat | j < end ensures s[j] != c {
      assert s[j..j + 1] == [s[j]];
      assert OccursAt(s, [s[j]], j);
    }
  }

  /** No line holds a newline. */
  lemma {:induction false} LinesAreLines(s: string, line: string)
    requires line in Lines(s)
    ensures '\n' !in line
    decreases |s|
  {
    NotBeforeFirst(s, '\n');
    assert ['\n'] == "\n";
    var r := Find(s, "\n");
    if r.Some? {
      var i := r.value;
      var first := if i > 0 && s[i - 1] == '\r' then s[..i - 1] else s[..i];
      assert forall c :: c in first ==> c in s[..i];
      if line != first {
        LinesAreLines(s[i + 1..], line);
      }
    }
  }

  // ---- parts of a string ---------------------------------------------------------

  /** Every character of the one is a character of the other. */
  ghost predicate Within(a: string, b: string) {
    forall c :: c in a ==> c in b
  }

  lemma {:induction false} TrimStartWithin(s: string)
    ensures Within(TrimStart(s), s) && |TrimStart(s)| <= |s|
    ensures TrimStart(s) != "" ==> !White(TrimStart(s)[0])
    ensures s != "" && !White(s[0]) ==> TrimStart(s) == s
    ensures s != "" && White(s[0]) ==> |TrimStart(s)| < |s|
    ensures s != "" && TrimStart(s) != "" ==> TrimStart(s)[|TrimStart(s)| - 1] == s[|s| - 1]
  {
    if s != "" && White(s[0]) {
      TrimStartWithin(s[1..]);
      if s[1..] != "" && TrimStart(s[1..]) != "" {
        assert s[1..][|s[1..]| - 1] == s[|s| - 1];
      }
    }
  }

  lemma {:induction false} TrimEndWithin(s: string)
    ensures Within(TrimEnd(s), s) && |TrimEnd(s)| <= |s|
    ensures TrimEnd(s) != "" ==> !White(TrimEnd(s)[|TrimEnd(s)| - 1]) && TrimEnd(s)[0] == s[0]
    ensures s != "" && White(s[|s| - 1]) ==> |TrimEnd(s)| < |s|
    ensures s != "" && !White(s[0]) ==> TrimEnd(s) != ""
  {
    if s != "" && White(s[|s| - 1]) {
      TrimEndWithin(s[..|s| - 1]);
    }
  }

  /** What is trimmed is part of the string and needs no more trimming; what is not shortened was solid. */
  lemma TrimWithin(s: string)
    ensures Within(Trim(s), s) && |Trim(s)| <= |s| && Solid(Trim(s)) && Trim(Trim(s)) == Trim(s)
    ensures Trim(s) == s <==> Solid(s)
    ensures s != "" && !White(s[0]) ==> Trim(s) != ""
  {
    var u := TrimStart(s);
    TrimStartWithin(s);
    TrimEndWithin(u);
    TrimSolid(Trim(s));
    if Solid(s) {
      TrimSolid(s);
    }
  }

  /** After a solid part only the rest is trimmed. */
  lemma {:induction false} TrimEndAfter(x: string, s: string)
    requires x != "" && !White(x[|x| - 1])
    ensures TrimEnd(x + s) == x + TrimEnd(s)
    decreases |s|
  {
    var all := x + s;
    if s == "" {
      assert all == x;
    } else {
      assert all[|all| - 1] == s[|s| - 1] && all[..|all| - 1] == x + s[..|s| - 1];
      if White(s[|s| - 1]) {
        TrimEndAfter(x, s[..|s| - 1]);
      }
    }
  }

  ghost predicate Solid(s: string) {
    s != [] ==> !White(s[0]) && !White(s[|s| - 1])
  }

  lemma TrimSolid(s: string)
    requires Solid(s)
    ensures Trim(s) == s
  {
  }

  lemma TrimIndent(s: string)
    requires Solid(s) && s != []
    ensures Trim("  " + s) == s
  {
    var t := "  " + s;
    assert t[1..] == " " + s && (" " + s)[1..] == s;
    assert TrimStart(t) == TrimStart(t[1..]) == TrimStart(s) == s;
  }

  lemma TrimSpace(s: string)
    requires Solid(s) && s != []
    ensures TrimStart(" " + s) == s && Trim(" " + s) == s
  {
    assert (" " + s)[1..] == s;
  }

  lemma StripQuotes(s: string)
    requires '"' !in s
    ensures StripBoth("\"" + s + "\"", '"') == s
  {
    var t := "\"" + s + "\"";
    assert t[1..] == s + "\"";
    if s == [] {
      assert t[1..] == "\"" && "\""[1..] == [];
      assert StripStart(t, '"') == StripStart("\"", '"') == StripStart([], '"');
    } else {
      var u := s + "\"";
      assert s[0] in s && s[|s| - 1] in s;
      assert StripStart(t, '"') == StripStart(u, '"') == u;
      assert u[..|u| - 1] == s && u[|u| - 1] == '"';
      assert StripEnd(u, '"') == StripEnd(s, '"') == s;
    }
  }

  lemma {:induction false} NotAfterTotal(a: string, b: string)
    ensures NotAfter(a, b) || NotAfter(b, a)
    decreases |a|
  {
    if a != "" && b != "" {
      NotAfterTotal(a[1..], b[1..]);
    }
  }

  lemma {:induction false} NotAfterTransitive(a: string, b: string, c: string)
    requires NotAfter(a, b) && NotAfter(b, c)
    ensures NotAfter(a, c)
    decreases |a|
  {
    if a != "" && a[0] == b[0] == c[0] {
      NotAfterTransitive(a[1..], b[1..], c[1..]);
    }
  }

  lemma {:induction false} NotAfterAntisymmetric(a: string, b: string)
    requires NotAfter(a, b) && NotAfter(b, a)
    ensures a == b
    decreases |a|
  {
    if a != "" && b != "" {
      NotAfterAntisymmetric(a[1..], b[1..]);
      assert a == [a[0]] + a[1..] && b == [b[0]] + b[1..];
    }
  }
}
