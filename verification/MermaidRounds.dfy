/** Printing and reading a topology again and again. */
module MermaidRounds {
  import opened Names
  import opened Text
  import opened TopologyModel
  import opened Mermaid
  import opened MermaidIn
  import opened MermaidLines
  import opened MermaidTags
  import opened MermaidRoundTrip

  /** A condition printed and read once, and so many times. */
  function Next(c: TagCondition): TagCondition {
    Tags(Trim(EdgeLabel(c)))
  }

  function Iterate<T>(f: T -> T, x: T, n: nat): T {
    if n == 0 then x else f(Iterate(f, x, n - 1))
  }

  function Rounds(c: TagCondition, n: nat): TagCondition {
    Iterate(Next, c, n)
  }

  /** After `n` rounds every further one gives the same. */
  ghost predicate Steady<T>(f: T -> T, x: T, n: nat) {
    f(Iterate(f, x, n)) == Iterate(f, x, n)
  }

  lemma SteadyLater<T>(f: T -> T, x: T, n: nat)
    requires Steady(f, f(x), n)
    ensures Steady(f, x, n + 1)
  {
    IterateShift(f, x, n);
  }

  lemma {:induction false} IterateShift<T>(f: T -> T, x: T, n: nat)
    ensures Iterate(f, x, n + 1) == Iterate(f, f(x), n)
  {
    if n > 0 {
      IterateShift(f, x, n - 1);
    }
  }

  lemma {:induction false} IterateStays<T>(f: T -> T, x: T, m: nat, n: nat)
    requires m <= n && f(Iterate(f, x, m)) == Iterate(f, x, m)
    ensures Iterate(f, x, n) == Iterate(f, x, m)
    decreases n - m
  {
    if m < n {
      IterateStays(f, x, m, n - 1);
    }
  }

  // ---- what reading gives --------------------------------------------------------

  lemma OccursInSlice(s: string, i: nat, j: nat, pat: string, k: nat)
    requires i <= j <= |s| && OccursAt(s[i..j], pat, k)
    ensures OccursAt(s, pat, i + k)
  {
    var t := s[i..j];
    forall m | 0 <= m < |pat| ensures s[i + k..i + k + |pat|][m] == pat[m] {
      assert t[k..k + |pat|][m] == t[k + m] == s[i + k + m];
    }
    assert s[i + k..i + k + |pat|] == pat;
  }

  lemma NotInSlice(s: string, pat: string, i: nat, j: nat)
    requires i <= j <= |s| && !Contains(s, pat)
    ensures !Contains(s[i..j], pat)
  {
    var r := Find(s[i..j], pat);
    if r.Some? {
      OccursInSlice(s, i, j, pat, r.value);
    }
  }

  lemma {:induction false} NotInTrimStart(s: string, pat: string)
    requires !Contains(s, pat)
    ensures !Contains(TrimStart(s), pat)
  {
    if s != "" && White(s[0]) {
      NotInSlice(s, pat, 1, |s|);
      assert s[1..|s|] == s[1..];
      NotInTrimStart(s[1..], pat);
    }
  }

  lemma {:induction false} NotInTrimEnd(s: string, pat: string)
    requires !Contains(s, pat)
    ensures !Contains(TrimEnd(s), pat)
  {
    if s != "" && White(s[|s| - 1]) {
      NotInSlice(s, pat, 0, |s| - 1);
      assert s[0..|s| - 1] == s[..|s| - 1];
      NotInTrimEnd(s[..|s| - 1], pat);
    }
  }

  lemma NotInTrim(s: string, pat: string)
    requires !Contains(s, pat)
    ensures !Contains(Trim(s), pat)
  {
    NotInTrimStart(s, pat);
    NotInTrimEnd(TrimStart(s), pat);
  }

  lemma {:induction false} NotInSplit(s: string, sep: string, pat: string, part: string)
    requires sep != "" && !Contains(s, pat) && part in Split(s, sep)
    ensures !Contains(part, pat)
    decreases |s|
  {
    var r := Find(s, sep);
    if r.Some? {
      var from := r.value + |sep|;
      NotInSlice(s, pat, 0, r.value);
      NotInSlice(s, pat, from, |s|);
      assert s[0..r.value] == s[..r.value] && s[from..|s|] == s[from..];
      if part != s[..r.value] {
        NotInSplit(s[from..], sep, pat, part);
      }
    }
  }

  lemma LeftPair(a: string, b: string, pat: string, j: nat)
    requires OccursAt(a + b, pat, j) && j + |pat| <= |a|
    ensures OccursAt(a, pat, j)
  {
    assert (a + b)[j..j + |pat|] == a[j..j + |pat|];
  }

  lemma RightPair(a: string, b: string, pat: string, j: nat)
    requires OccursAt(a + b, pat, j) && j >= |a|
    ensures OccursAt(b, pat, j - |a|)
  {
    assert (a + b)[j..j + |pat|] == b[j - |a|..j - |a| + |pat|];
  }

  lemma NoPairInSum(a: string, sep: string, b: string)
    requires sep != "" && '%' !in sep && !Contains(a, "%%") && !Contains(b, "%%")
    ensures !Contains(a + sep + b, "%%")
  {
    var r := Find(a + sep + b, "%%");
    if r.Some? {
      var j := r.value;
      OccursNeeds(a + sep + b, "%%", j, 0);
      OccursNeeds(a + sep + b, "%%", j, 1);
      NotInSeparator(a, sep, b, j);
      NotInSeparator(a, sep, b, j + 1);
      if j + 1 < |a| {
        assert a + sep + b == a + (sep + b);
        LeftPair(a, sep + b, "%%", j);
      } else {
        RightPair(a + sep, b, "%%", j);
      }
    }
  }

  lemma NotInSeparator(a: string, sep: string, b: string, j: nat)
    requires '%' !in sep && j < |a + sep + b| && (a + sep + b)[j] == '%'
    ensures j < |a| || j >= |a| + |sep|
  {
    forall k | |a| <= k < |a| + |sep| ensures (a + sep + b)[k] != '%' {
      assert (a + sep + b)[k] == sep[k - |a|];
    }
  }

  ghost predicate NoPairs(values: seq<string>) {
    forall i :: 0 <= i < |values| ==> !Contains(values[i], "%%")
  }

  lemma {:induction false} NoPairJoin(values: seq<string>, sep: string)
    requires sep != "" && '%' !in sep && NoPairs(values)
    ensures !Contains(Join(values, sep), "%%")
  {
    if values == [] {
      FindNeeds("", "%%", 0);
    } else if |values| > 1 {
      NoPairJoin(values[1..], sep);
      NoPairInSum(values[0], sep, Join(values[1..], sep));
    }
  }

  /** A condition as reading leaves it: its values are clean, and so is its label. */
  ghost predicate IsRead(c: TagCondition) {
    && AreValues(c.values) && NoPairs(c.values)
    && (c.operator != And ==> Lack(c.values, ','))
    && (c.operator == And ==> |c.values| > 1)
  }

  lemma ReadLabel(c: TagCondition)
    requires IsRead(c)
    ensures IsLabel(EdgeLabel(c)) && Solid(Joined(c)) && (Joined(c) == "" <==> c.values == [])
    ensures EdgeLabel(c) == if c.operator == Not then "not " + Joined(c) else Joined(c)
  {
    NoPairJoin(c.values, Separator(c.operator));
    LabelIs(c);
  }

  // ---- splitting and joining -----------------------------------------------------------

  lemma {:induction false} JoinSplit(s: string, sep: string)
    requires sep != ""
    ensures Join(Split(s, sep), sep) == s && Split(s, sep) != []
    decreases |s|
  {
    var r := Find(s, sep);
    if r.Some? {
      var rest := s[r.value + |sep|..];
      JoinSplit(rest, sep);
      var parts := [s[..r.value]] + Split(rest, sep);
      assert parts[1..] == Split(rest, sep);
      assert s == s[..r.value] + sep + rest;
    }
  }

  /** Trimming the parts and dropping the empty ones makes the whole shorter, or changes nothing. */
  lemma {:induction false} TrimmedIsShorter(parts: seq<string>, sep: string)
    requires sep != "" && parts != []
    ensures |Join(TrimEach(parts), sep)| <= |Join(parts, sep)|
    ensures TrimEach(parts) == [] ==> |Join(TrimEach(parts), sep)| == 0
    ensures |Join(TrimEach(parts), sep)| == |Join(parts, sep)| ==> Join(TrimEach(parts), sep) == Join(parts, sep)
  {
    var first := Trim(parts[0]);
    TrimWithin(parts[0]);
    TrimIsSame(parts[0]);
    if |parts| == 1 {
      TrimEachOnly(parts[0]);
    } else {
      var more := TrimEach(parts[1..]);
      TrimmedIsShorter(parts[1..], sep);
      if first != "" {
        JoinFirst(first, more, sep);
        assert TrimEach(parts) == [first] + more;
      } else {
        assert TrimEach(parts) == more;
      }
    }
  }

  lemma JoinFirst(first: string, more: seq<string>, sep: string)
    ensures Join([first] + more, sep) == if more == [] then first else first + sep + Join(more, sep)
  {
    assert ([first] + more)[1..] == more;
  }

  lemma TrimIsSame(s: string)
    ensures |Trim(s)| == |s| ==> Trim(s) == s
  {
    TrimStartWithin(s);
    TrimEndWithin(TrimStart(s));
  }

  // ---- one round ---------------------------------------------------------------------

  lemma {:induction false} TrimStartNotEmpty(s: string)
    requires s != "" && !White(s[|s| - 1])
    ensures TrimStart(s) != "" && TrimStart(s)[|TrimStart(s)| - 1] == s[|s| - 1]
  {
    if White(s[0]) {
      assert |s| > 1 && s[1..][|s[1..]| - 1] == s[|s| - 1];
      TrimStartNotEmpty(s[1..]);
    }
  }

  lemma TrimNotEmpty(s: string)
    requires s != "" && !White(s[|s| - 1])
    ensures Trim(s) != ""
  {
    TrimStartNotEmpty(s);
  }

  /** A text that ends solid has something after its last ampersand. */
  lemma {:induction false} SplitNotEmpty(s: string)
    requires s != "" && !White(s[|s| - 1])
    ensures TrimEach(Split(s, " & ")) != []
    decreases |s|
  {
    var r := Find(s, " & ");
    if r.None? {
      TrimNotEmpty(s);
      TrimEachOnly(s);
    } else {
      AmpersandBeforeEnd(s);
      SplitNotEmpty(s[r.value + 3..]);
      var parts := [s[..r.value]] + Split(s[r.value + 3..], " & ");
      assert parts[1..] == Split(s[r.value + 3..], " & ");
    }
  }

  lemma AmpersandBeforeEnd(s: string)
    requires s != "" && !White(s[|s| - 1]) && Find(s, " & ").Some?
    ensures var rest := s[Find(s, " & ").value + 3..]; rest != "" && rest[|rest| - 1] == s[|s| - 1]
  {
    OccursNeeds(s, " & ", Find(s, " & ").value, 2);
  }

  lemma FirstPart(s: string)
    requires s != "" && Solid(s) && Find(s, " & ").Some?
    ensures var i := Find(s, " & ").value;
            && Trim(s[..i]) != ""
            && TrimEach(Split(s, " & ")) == [Trim(s[..i])] + TrimEach(Split(s[i + 3..], " & "))
  {
    var i := Find(s, " & ").value;
    OccursNeeds(s, " & ", i, 0);
    assert i > 0 && s[..i][0] == s[0];
    TrimWithin(s[..i]);
    TrimEachFirst(s[..i], Split(s[i + 3..], " & "));
  }

  lemma AndHasTwo(text: string)
    requires Solid(text) && Tags(text).operator == And
    ensures |Tags(text).values| > 1
  {
    FindNeeds("", " & ", 0);
    FirstPart(text);
    AmpersandBeforeEnd(text);
    SplitNotEmpty(text[Find(text, " & ").value + 3..]);
  }

  lemma TagHasNoPair(text: string, v: string)
    requires v in Tags(text).values && !Contains(text, "%%")
    ensures !Contains(v, "%%")
  {
    var body := if StartsWith(text, "not ") then text[4..] else text;
    var sep := if Tags(text).operator == And then " & " else ",";
    if StartsWith(text, "not ") {
      NotInSlice(text, "%%", 4, |text|);
      assert text[4..|text|] == text[4..];
    }
    var part := TrimEachParts(Split(body, sep), v);
    NotInSplit(body, sep, "%%", part);
    NotInTrim(part, "%%");
  }

  lemma TextIsRead(text: string)
    requires Solid(text) && IsLabel(text)
    ensures IsRead(Tags(text))
  {
    var c := Tags(text);
    forall i | 0 <= i < |c.values|
      ensures IsValue(c.values[i]) && !Contains(c.values[i], "%%") && (c.operator != And ==> ',' !in c.values[i]) {
      TagParts(text, c.values[i]);
      TagHasNoPair(text, c.values[i]);
    }
    if c.operator == And {
      AndHasTwo(text);
    }
  }

  lemma TrimmedLabel(c: TagCondition)
    requires IsLabel(EdgeLabel(c))
    ensures Solid(Trim(EdgeLabel(c))) && IsLabel(Trim(EdgeLabel(c))) && |Trim(EdgeLabel(c))| <= |EdgeLabel(c)|
  {
    TrimWithin(EdgeLabel(c));
    NotInTrim(EdgeLabel(c), "%%");
  }

  /** What comes back from a label that stays on its line has a label that does, too. */
  lemma NextIsRead(c: TagCondition)
    requires IsLabel(EdgeLabel(c))
    ensures IsRead(Next(c)) && IsLabel(EdgeLabel(Next(c)))
  {
    TrimmedLabel(c);
    TextIsRead(Trim(EdgeLabel(c)));
    ReadLabel(Next(c));
  }

  lemma ReadNext(c: TagCondition)
    requires IsRead(c) && c.operator != Not
    ensures Next(c) == Tags(Joined(c))
  {
    ReadLabel(c);
    TrimSolid(Joined(c));
  }

  lemma JoinedIsValue(values: seq<string>)
    requires AreValues(values) && values != []
    ensures IsValue(Join(values, " & "))
  {
    JoinIsSolid(values, " & ");
    JoinLacks(values, " & ", '|');
    JoinLacks(values, " & ", '"');
    JoinLacks(values, " & ", '\n');
  }

  lemma OneIsCarried(v: string)
    requires IsValue(v) && ',' !in v && !Contains(v, "%%")
    ensures Carries(TagCondition(Not, [v]))
  {
    assert Joined(TagCondition(Not, [v])) == v;
  }

  /** A Not becomes a Not of one value, or an Or of the word itself. */
  lemma NextOfNot(c: TagCondition)
    requires IsRead(c) && c.operator == Not
    ensures Carries(Next(c))
  {
    if c.values == [] {
      ReadLabel(c);
      assert "not " + "" == "not ";
      BareNotIsOr();
      WordIsCarried();
    } else {
      NotIsOne(c);
      JoinedIsValue(c.values);
      JoinLacks(c.values, " & ", ',');
      NoPairJoin(c.values, " & ");
      OneIsCarried(Joined(c));
    }
  }

  lemma NotIsOne(c: TagCondition)
    requires IsRead(c) && c.operator == Not && c.values != []
    ensures Next(c) == TagCondition(Not, [Joined(c)])
  {
    ReadLabel(c);
    var body := Joined(c);
    var text := "not " + body;
    JoinLacks(c.values, " & ", ',');
    assert text[|text| - 1] == body[|body| - 1];
    TrimSolid(text);
    assert text[..4] == "not " && text[4..] == body;
    FindNeeds(body, ",", 0);
    TrimSolid(body);
    TrimEachOnly(body);
  }

  lemma BareNotIsOr()
    ensures Tags(Trim("not ")) == TagCondition(Or, ["not"])
  {
    var text := "not ";
    assert TrimStart(text) == text;
    assert text[..3] == "not" && text[3] == ' ';
    assert Trim(text) == TrimEnd("not") == "not";
    FindNeeds("not", " & ", 1);
    FindNeeds("not", ",", 0);
    TrimSolid("not");
    TrimEachOnly("not");
  }

  lemma WordIsCarried()
    ensures Carries(TagCondition(Or, ["not"]))
  {
    var c := TagCondition(Or, ["not"]);
    FindNeeds("not", "%%", 0);
    FindNeeds("not", " & ", 0);
    assert Joined(c) == "not" && |"not"| == 3;
    assert c.values[0] == "not" && IsValue("not") && ',' !in "not";
  }

  /** An Or comes back as itself, or as another operator. */
  lemma NextOfOr(c: TagCondition)
    requires IsRead(c) && c.operator == Or
    ensures Carries(c) || Next(c).operator != Or
  {
    ReadLabel(c);
    ReadNext(c);
    OrIsRead(c);
  }

  lemma SplitIsShorter(text: string)
    requires Tags(text).operator == And
    ensures |Joined(Tags(text))| <= |text| && (|Joined(Tags(text))| == |text| ==> Joined(Tags(text)) == text)
  {
    JoinSplit(text, " & ");
    TrimmedIsShorter(Split(text, " & "), " & ");
  }

  lemma CarriedIsSteady(c: TagCondition)
    requires Carries(c)
    ensures Steady(Next, c, 0)
  {
    TagsAreRead(c);
  }

  /** An And becomes a Not, or an And with a shorter label, or one that comes back as itself. */
  lemma NextOfAnd(c: TagCondition)
    requires IsRead(c) && c.operator == And
    ensures IsRead(Next(c)) && Next(c).operator != Or
    ensures Next(c).operator == And ==> |Joined(Next(c))| < |Joined(c)| || Next(Next(c)) == Next(c)
  {
    ReadLabel(c);
    ReadNext(c);
    NextIsRead(c);
    JoinHasSeparator(c.values);
    if Next(c).operator == And {
      SplitIsShorter(Joined(c));
      if Joined(Next(c)) == Joined(c) {
        ReadNext(Next(c));
      }
    }
  }

  // ---- settling --------------------------------------------------------------------------

  lemma NotSettles(c: TagCondition)
    requires IsRead(c) && c.operator == Not
    ensures Steady(Next, c, 1)
  {
    NextOfNot(c);
    CarriedIsSteady(Next(c));
    SteadyLater(Next, c, 0);
  }

  /** Where an And goes, in terms that say nothing of its values. */
  lemma AndStep(c: TagCondition) returns (d: TagCondition, longer: nat, shorter: nat)
    requires IsRead(c) && c.operator == And
    ensures d == Next(c) && IsRead(d) && longer == |Joined(c)| && shorter == |Joined(d)|
    ensures Steady(Next, d, 1) || (d.operator == And && shorter < longer)
  {
    d, longer, shorter := Next(c), |Joined(c)|, |Joined(Next(c))|;
    NextOfAnd(c);
    if d.operator == Not {
      NotSettles(d);
    } else if Next(d) == d {
      SteadyLater(Next, d, 0);
    }
  }

  lemma {:induction false} AndSettles(c: TagCondition, size: nat) returns (n: nat)
    requires IsRead(c) && c.operator == And && size == |Joined(c)|
    ensures n <= size + 2 && Steady(Next, c, n)
    decreases size
  {
    var d, longer, shorter := AndStep(c);
    if Steady(Next, d, 1) {
      n := 1;
    } else {
      n := AndSettles(d, shorter);
    }
    SteadyLater(Next, c, n);
    n := n + 1;
  }

  lemma {:induction false} WiderCommas(values: seq<string>)
    ensures |Join(values, ", ")| <= 2 * |Join(values, ",")|
  {
    if |values| > 1 {
      WiderCommas(values[1..]);
    }
  }

  lemma OrIsNotMuchLonger(text: string)
    requires Tags(text).operator == Or
    ensures |Joined(Tags(text))| <= 2 * |text|
  {
    JoinSplit(text, ",");
    TrimmedIsShorter(Split(text, ","), ",");
    WiderCommas(Tags(text).values);
  }

  /** Where an Or goes. */
  lemma OrStep(c: TagCondition) returns (d: TagCondition, longer: nat, shorter: nat)
    requires IsRead(c) && c.operator == Or
    ensures d == Next(c) && IsRead(d) && longer == |Joined(c)| && shorter == |Joined(d)|
    ensures Steady(Next, d, 1) || (d.operator == And && shorter <= longer)
  {
    d, longer, shorter := Next(c), |Joined(c)|, |Joined(Next(c))|;
    ReadLabel(c);
    NextIsRead(c);
    NextOfOr(c);
    if Carries(c) {
      CarriedIsSteady(c);
      SteadyLater(Next, d, 0);
    } else if d.operator == Not {
      NotSettles(d);
    } else {
      ReadNext(c);
      SplitIsShorter(Joined(c));
    }
  }

  lemma OrSettles(c: TagCondition, size: nat) returns (n: nat)
    requires IsRead(c) && c.operator == Or && size == |Joined(c)|
    ensures n <= size + 3 && Steady(Next, c, n)
  {
    var d, longer, shorter := OrStep(c);
    if Steady(Next, d, 1) {
      n := 1;
    } else {
      n := AndSettles(d, shorter);
    }
    SteadyLater(Next, c, n);
    n := n + 1;
  }

  /** How long the first label read back can be. */
  lemma NextIsShort(c: TagCondition)
    requires IsLabel(EdgeLabel(c)) && Next(c).operator != Not
    ensures |Joined(Next(c))| <= 2 * |EdgeLabel(c)|
  {
    TrimmedLabel(c);
    if Next(c).operator == And {
      SplitIsShorter(Trim(EdgeLabel(c)));
    } else {
      OrIsNotMuchLonger(Trim(EdgeLabel(c)));
    }
  }

  /** What is read first, and that it settles one round earlier. */
  lemma FirstStep(c: TagCondition, bound: nat) returns (d: TagCondition, size: nat)
    requires IsLabel(EdgeLabel(c)) && bound == 2 * |EdgeLabel(c)|
    ensures IsRead(d) && size == |Joined(d)| && (d.operator != Not ==> size <= bound)
    ensures forall m: nat :: Steady(Next, d, m) ==> Steady(Next, c, m + 1)
  {
    d, size := Next(c), |Joined(Next(c))|;
    NextIsRead(c);
    if d.operator != Not {
      NextIsShort(c);
    }
    forall m: nat | Steady(Next, d, m) ensures Steady(Next, c, m + 1) {
      SteadyLater(Next, c, m);
    }
  }

  lemma SettlesAfter(c: TagCondition, d: TagCondition, size: nat, bound: nat) returns (n: nat)
    requires IsRead(d) && size == |Joined(d)| && (d.operator != Not ==> size <= bound)
    requires forall m: nat :: Steady(Next, d, m) ==> Steady(Next, c, m + 1)
    ensures n <= bound + 4 && Steady(Next, c, n)
  {
    match d.operator
    case Not =>
      NotSettles(d);
      n := 2;
    case And =>
      n := AndSettles(d, size);
      n := n + 1;
    case Or =>
      n := OrSettles(d, size);
      n := n + 1;
  }

  /**
   * Printed and read again and again, a condition whose label stays on its line settles: after a number of
   * rounds that its label's length bounds, it comes back as itself.
   */
  lemma Settles(c: TagCondition) returns (n: nat)
    requires IsLabel(EdgeLabel(c))
    ensures n <= 2 * |EdgeLabel(c)| + 4 && Steady(Next, c, n)
  {
    var bound := 2 * |EdgeLabel(c)|;
    var d, size := FirstStep(c, bound);
    n := SettlesAfter(c, d, size, bound);
  }

  // ---- labels whose only white space is the blank ---------------------------------------------

  ghost predicate BlankOnly(s: string) {
    forall i :: 0 <= i < |s| && White(s[i]) ==> s[i] == ' '
  }

  /** Trimming the end leaves the start, and white space after it. */
  lemma {:induction false} TrimEndPlace(s: string)
    ensures |TrimEnd(s)| <= |s| && s[..|TrimEnd(s)|] == TrimEnd(s)
    ensures forall i :: |TrimEnd(s)| <= i < |s| ==> White(s[i])
  {
    if s != "" && White(s[|s| - 1]) {
      var t := s[..|s| - 1];
      TrimEndPlace(t);
      assert forall i :: 0 <= i < |t| ==> t[i] == s[i];
      assert s[..|TrimEnd(t)|] == t[..|TrimEnd(t)|];
    } else {
      assert s[..|s|] == s;
    }
  }

  lemma {:induction false} TrimStartPlace(s: string) returns (o: nat)
    ensures o <= |s| && s[o..] == TrimStart(s)
  {
    if s != "" && White(s[0]) {
      o := TrimStartPlace(s[1..]);
      assert s[1..][o..] == s[o + 1..];
      o := o + 1;
    } else {
      o := 0;
    }
  }

  /** Blanks after a part that ends in an ampersand make an earlier separator. */
  lemma NoAmpersandEnd(s: string, i: nat)
    requires BlankOnly(s) && Find(s, " & ") == Some(i)
    ensures !EndsWith(Trim(s[..i]), " &")
  {
    var p := s[..i];
    var o := TrimStartPlace(p);
    var q := TrimStart(p);
    TrimEndPlace(q);
    var v := Trim(p);
    OccursNeeds(s, " & ", i, 0);
    if EndsWith(v, " &") {
      var e := o + |v|;
      assert q[..|v|] == v && v[|v| - 2..] == " &";
      assert s[e - 2] == p[e - 2] == q[|v| - 2] == v[|v| - 2] == v[|v| - 2..][0];
      assert s[e - 1] == p[e - 1] == q[|v| - 1] == v[|v| - 1] == v[|v| - 2..][1];
      assert s[e] == ' ' by {
        if e < i {
          assert s[e] == p[e] == q[|v|];
        }
      }
      assert s[e - 2..e + 1] == " & ";
      assert OccursAt(s, " & ", e - 2);
    }
  }

  /** The part before the first separator holds none. */
  lemma FirstHasNone(s: string, i: nat)
    requires Find(s, " & ") == Some(i)
    ensures !Contains(s[..i], " & ")
  {
    var r := Find(s[..i], " & ");
    if r.Some? {
      assert s[0..i] == s[..i];
      OccursInSlice(s, 0, i, " & ", r.value);
    }
  }

  lemma BlankTail(s: string, i: nat)
    requires BlankOnly(s) && i <= |s|
    ensures BlankOnly(s[i..])
  {
  }

  /** Split at its ampersands, such a text gives values that stay apart. */
  lemma {:induction false} BlankApart(s: string)
    requires s != "" && !White(s[|s| - 1]) && BlankOnly(s)
    ensures Apart(TrimEach(Split(s, " & ")))
    decreases |s|
  {
    var r := Find(s, " & ");
    if r.None? {
      TrimNotEmpty(s);
      TrimEachOnly(s);
      NotInTrim(s, " & ");
    } else {
      var i := r.value;
      var rest := s[i + 3..];
      AmpersandBeforeEnd(s);
      BlankTail(s, i + 3);
      BlankApart(rest);
      FirstHasNone(s, i);
      NotInTrim(s[..i], " & ");
      NoAmpersandEnd(s, i);
      ApartFirst(Trim(s[..i]), TrimEach(Split(rest, " & ")));
      SplitTrimmed(s);
    }
  }

  lemma SplitTrimmed(s: string)
    requires Find(s, " & ").Some?
    ensures var i := Find(s, " & ").value;
            var first, more := Trim(s[..i]), TrimEach(Split(s[i + 3..], " & "));
            TrimEach(Split(s, " & ")) == if first == "" then more else [first] + more
  {
    var i := Find(s, " & ").value;
    var parts := [s[..i]] + Split(s[i + 3..], " & ");
    assert parts[1..] == Split(s[i + 3..], " & ");
  }

  lemma ApartFirst(v: string, more: seq<string>)
    requires Apart(more) && ApartFrom(v, true)
    ensures Apart([v] + more)
  {
    assert ([v] + more)[1..] == more;
    ApartTail([v] + more);
  }

  /** Its first value begins it, so the word `not` is no first word afterwards either. */
  lemma BlankNotStart(text: string)
    requires Solid(text) && BlankOnly(text) && Tags(text).operator == And
    ensures !StartsWith(Joined(Tags(text)), "not ")
  {
    var i := Find(text, " & ").value;
    FindNeeds("", " & ", 0);
    FirstPart(text);
    AndHasTwo(text);
    OccursNeeds(text, " & ", i, 0);
    var p := text[..i];
    var v := Trim(p);
    assert i > 0 && p[0] == text[0] && TrimStart(p) == p;
    TrimEndPlace(p);
    assert text[|v|] == ' ' by {
      if |v| < i {
        assert text[|v|] == p[|v|];
      }
    }
    assert text[..|v|] == p[..|v|] == v;
    var more := TrimEach(Split(text[i + 3..], " & "));
    JoinFirst(v, more, " & ");
    StartIsNotNot(v, text, Joined(Tags(text)));
  }

  lemma StartsNot(s: string)
    ensures StartsWith(s, "not ") <==> |s| >= 4 && s[0] == 'n' && s[1] == 'o' && s[2] == 't' && s[3] == ' '
  {
    if |s| >= 4 {
      assert s[..4] == [s[0], s[1], s[2], s[3]];
    }
  }

  lemma StartIsNotNot(v: string, text: string, joined: string)
    requires v < text && text[|v|] == ' ' && v < joined && joined[|v|] == ' ' && !StartsWith(text, "not ")
    requires v != ""
    ensures !StartsWith(joined, "not ")
  {
    StartsNot(text);
    StartsNot(joined);
    assert forall m :: 0 <= m < |v| ==> text[m] == v[m] == joined[m];
  }

  lemma BlankAndIsCarried(text: string)
    requires Solid(text) && IsLabel(text) && BlankOnly(text) && Tags(text).operator == And
    ensures Steady(Next, Tags(text), 0)
  {
    var c := Tags(text);
    TextIsRead(text);
    ReadLabel(c);
    FindNeeds("", " & ", 0);
    BlankApart(text);
    BlankNotStart(text);
    CarriedIsSteady(c);
  }

  lemma {:induction false} JoinBlank(values: seq<string>, sep: string)
    requires BlankOnly(sep) && forall i :: 0 <= i < |values| ==> BlankOnly(values[i])
    ensures BlankOnly(Join(values, sep))
  {
    if |values| > 1 {
      JoinBlank(values[1..], sep);
      assert BlankOnly(values[0]);
    }
  }

  lemma BlankWithin(a: string, b: string)
    requires Within(a, b) && BlankOnly(b)
    ensures BlankOnly(a)
  {
    forall i | 0 <= i < |a| && White(a[i]) ensures a[i] == ' ' {
      assert a[i] in a;
    }
  }

  lemma BlankNext(c: TagCondition)
    requires IsLabel(EdgeLabel(c)) && BlankOnly(EdgeLabel(c))
    ensures BlankOnly(Trim(EdgeLabel(c))) && BlankOnly(Joined(Next(c)))
  {
    var text := Trim(EdgeLabel(c));
    TrimWithin(EdgeLabel(c));
    BlankWithin(text, EdgeLabel(c));
    forall i | 0 <= i < |Next(c).values| ensures BlankOnly(Next(c).values[i]) {
      TagParts(text, Next(c).values[i]);
      BlankWithin(Next(c).values[i], text);
    }
    JoinBlank(Next(c).values, Separator(Next(c).operator));
  }

  lemma BlankOrStep(c: TagCondition)
    requires IsRead(c) && c.operator == Or && BlankOnly(Joined(c))
    ensures Steady(Next, c, 2)
  {
    ReadLabel(c);
    NextIsRead(c);
    NextOfOr(c);
    ReadNext(c);
    if Carries(c) {
      CarriedIsSteady(c);
      SteadyLater(Next, c, 0);
    } else if Next(c).operator == Not {
      NotSettles(Next(c));
    } else {
      BlankAndIsCarried(Joined(c));
      SteadyLater(Next, Next(c), 0);
    }
    SteadyLater(Next, c, 1);
  }

  /** Where a label's only white space is the blank, three rounds settle its condition. */
  lemma BlankSettles(c: TagCondition)
    requires IsLabel(EdgeLabel(c)) && BlankOnly(EdgeLabel(c))
    ensures Steady(Next, c, 3)
  {
    var d := Next(c);
    TrimmedLabel(c);
    NextIsRead(c);
    BlankNext(c);
    match d.operator
    case Not =>
      NotSettles(d);
      SteadyStays(Next, d, 1, 2);
    case And =>
      BlankAndIsCarried(Trim(EdgeLabel(c)));
      SteadyStays(Next, d, 0, 2);
    case Or =>
      BlankOrStep(d);
    SteadyLater(Next, c, 2);
  }

  lemma SteadyStays<T>(f: T -> T, x: T, m: nat, n: nat)
    requires m <= n && Steady(f, x, m)
    ensures Steady(f, x, n) && Iterate(f, x, n) == Iterate(f, x, m)
  {
    IterateStays(f, x, m, n);
  }

  // ---- whole topologies ------------------------------------------------------------------------

  /** A topology printed and read so many times. */
  function Redraws(t: Topology, n: nat): Topology {
    Iterate(Redraw, t, n)
  }

  lemma RedrawsNext(t: Topology, n: nat)
    ensures Redraws(t, 0) == t && Redraws(t, n + 1) == Redraw(Redraws(t, n))
  {
  }

  /** An edge after so many rounds. */
  function After(e: Edge, n: nat): Edge {
    Edge(e.from, e.to, if e.conditions.None? then None else Some(Rounds(e.conditions.value, n)), RetryUntilSuccess)
  }

  lemma AfterNext(e: Edge, n: nat)
    ensures Reread(After(e, n)) == After(e, n + 1) && Reread(e) == After(e, 1)
  {
    if e.conditions.Some? {
      assert Iterate(Next, e.conditions.value, 1) == Next(Iterate(Next, e.conditions.value, 0));
    }
  }

  lemma {:induction false} EdgeAfter(t: Topology, n: nat, k: nat) returns (i: nat)
    requires n > 0 && k < |Redraws(t, n).edges|
    ensures i < |t.edges| && Survives(t.edges[i]) && Redraws(t, n).edges[k] == After(t.edges[i], n)
  {
    RedrawsNext(t, n - 1);
    var j := KeptComesFrom(Redraws(t, n - 1).edges, Survives, k);
    if n == 1 {
      RedrawsNext(t, 0);
      AfterNext(t.edges[j], 0);
      i := j;
    } else {
      i := EdgeAfter(t, n - 1, j);
      AfterNext(t.edges[i], n - 1);
    }
  }

  lemma {:induction false} IterateKeeps<T(!new)>(f: T -> T, good: T -> bool, x: T, n: nat)
    requires good(x) && forall y :: good(y) ==> good(f(y))
    ensures good(Iterate(f, x, n))
  {
    if n > 0 {
      IterateKeeps(f, good, x, n - 1);
    }
  }

  ghost predicate Labelled(c: TagCondition) {
    IsLabel(EdgeLabel(c))
  }

  lemma NextIsLabelled()
    ensures forall c :: Labelled(c) ==> Labelled(Next(c))
  {
    forall c | Labelled(c) ensures Labelled(Next(c)) {
      NextIsRead(c);
    }
  }

  lemma LabelStays(c: TagCondition, n: nat)
    requires IsLabel(EdgeLabel(c))
    ensures IsLabel(EdgeLabel(Rounds(c, n)))
  {
    NextIsLabelled();
    IterateKeeps(Next, Labelled, c, n);
    assert Labelled(Iterate(Next, c, n));
  }

  lemma RoundIsClean(t: Topology, n: nat)
    requires CleanLabels(t.edges) && !Opens(t.edges)
    ensures CleanLabels(Redraws(t, n).edges) && !Opens(Redraws(t, n).edges)
  {
    if n > 0 {
      forall k | 0 <= k < |Redraws(t, n).edges|
        ensures CleanEdge(Redraws(t, n).edges[k]) && Redraws(t, n).edges[k].from != "subgraph" {
        var i := EdgeAfter(t, n, k);
        assert CleanEdge(t.edges[i]);
        if t.edges[i].conditions.Some? {
          LabelStays(t.edges[i].conditions.value, n);
        }
      }
    }
  }

  lemma {:induction false} RoundIsValid(t: Topology, n: nat)
    requires Valid(t)
    ensures Valid(Redraws(t, n))
  {
    if n > 0 {
      RoundIsValid(t, n - 1);
      RedrawIsValid(Redraws(t, n - 1));
    }
  }

  /** Each round is one printing and one reading. */
  lemma RoundIsRedraw(t: Topology, dir: Direction, n: nat)
    requires Valid(t) && CleanLabels(t.edges) && !Opens(t.edges)
    ensures Imported(Unlines(Flowchart(Redraws(t, n), dir))) == Ok([("pipeline", Redraws(t, n + 1))])
  {
    RoundIsValid(t, n);
    RoundIsClean(t, n);
    RoundTrip(Redraws(t, n), dir);
    RedrawsNext(t, n);
  }

  lemma {:induction false} AllKept(edges: seq<Edge>)
    requires forall k :: 0 <= k < |edges| ==> Survives(edges[k]) && Reread(edges[k]) == edges[k]
    ensures Kept(edges) == edges
  {
    if edges != [] {
      var n := |edges| - 1;
      AllKept(edges[..n]);
      assert edges == edges[..n] + [edges[n]];
    }
  }

  ghost predicate SteadyEdge(e: Edge, n: nat) {
    e.conditions.Some? ==> Steady(Next, e.conditions.value, n)
  }

  /** A round in which every condition comes back as itself changes nothing. */
  lemma SteadyRound(t: Topology, n: nat)
    requires n > 0 && forall i :: 0 <= i < |t.edges| ==> SteadyEdge(t.edges[i], n)
    ensures Redraw(Redraws(t, n)) == Redraws(t, n)
  {
    var edges := Redraws(t, n).edges;
    forall k | 0 <= k < |edges| ensures Survives(edges[k]) && Reread(edges[k]) == edges[k] {
      var i := EdgeAfter(t, n, k);
      AfterNext(t.edges[i], n);
      assert SteadyEdge(t.edges[i], n);
    }
    AllKept(edges);
    RedrawsNext(t, n - 1);
    assert RedrawnAll(Redraws(t, n).vertices) == Redraws(t, n).vertices;
  }

  /** Rounds enough for the condition: a few where blanks are the only white space, else as its label is long. */
  ghost predicate Enough(e: Edge, n: nat) {
    TextOf(e).Some? ==> n >= 2 * |TextOf(e).value| + 4 || (BlankOnly(TextOf(e).value) && n >= 3)
  }

  lemma EnoughIsSteady(e: Edge, n: nat)
    requires CleanEdge(e) && Enough(e, n)
    ensures SteadyEdge(e, n)
  {
    if e.conditions.Some? {
      var c := e.conditions.value;
      if BlankOnly(EdgeLabel(c)) && n >= 3 {
        BlankSettles(c);
        SteadyStays(Next, c, 3, n);
      } else {
        var m := Settles(c);
        SteadyStays(Next, c, m, n);
      }
    }
  }

  /**
   * Printed and read again and again, a topology settles: each round takes it to the next, and after rounds
   * enough for every condition the diagram says all of it and every further round gives it back exactly.
   */
  lemma PrintingSettles(t: Topology, dir: Direction, n: nat)
    requires Valid(t) && CleanLabels(t.edges) && !Opens(t.edges)
    requires n > 0 && forall i :: 0 <= i < |t.edges| ==> Enough(t.edges[i], n)
    ensures forall k: nat :: Imported(Unlines(Flowchart(Redraws(t, k), dir))) == Ok([("pipeline", Redraws(t, k + 1))])
    ensures Plain(Redraws(t, n)) && forall k: nat :: k >= n ==> Redraws(t, k) == Redraws(t, n)
  {
    forall k: nat ensures Imported(Unlines(Flowchart(Redraws(t, k), dir))) == Ok([("pipeline", Redraws(t, k + 1))]) {
      RoundIsRedraw(t, dir, k);
    }
    forall i | 0 <= i < |t.edges| ensures SteadyEdge(t.edges[i], n) {
      assert CleanEdge(t.edges[i]) && Enough(t.edges[i], n);
      EnoughIsSteady(t.edges[i], n);
    }
    SteadyRound(t, n);
    RoundIsClean(t, n);
    PlainMeans(Redraws(t, n));
    forall k: nat | k >= n ensures Redraws(t, k) == Redraws(t, n) {
      IterateStays(Redraw, t, n, k);
    }
  }

  /** One round is not enough: an Or of `not a` and `b` becomes a Not of two, and that a Not of one. */
  lemma TwoRoundsDiffer()
    ensures Next(TagCondition(Or, ["not a", "b"])) == TagCondition(Not, ["a", "b"])
    ensures Next(TagCondition(Not, ["a", "b"])) == TagCondition(Not, ["a & b"])
  {
    Literals();
    TwoAreRead(Or, "not a", "b");
    TwoAreRead(Not, "a", "b");
    ReadNext(TagCondition(Or, ["not a", "b"]));
    TwoTags();
    NotIsOne(TagCondition(Not, ["a", "b"]));
  }

  lemma Literals()
    ensures forall v :: v in ["not a", "a", "b"] ==> IsValue(v) && '%' !in v && ',' !in v
    ensures "not a" + ", " + "b" == "not a, b" && "a" + " & " + "b" == "a & b"
  {
  }

  lemma TwoAreRead(operator: TagOperator, a: string, b: string)
    requires operator != And && IsValue(a) && IsValue(b) && '%' !in a && '%' !in b && ',' !in a && ',' !in b
    ensures IsRead(TagCondition(operator, [a, b]))
    ensures Joined(TagCondition(operator, [a, b])) == a + Separator(operator) + b
  {
    FindNeeds(a, "%%", 0);
    FindNeeds(b, "%%", 0);
    var values, sep := [a, b], Separator(operator);
    assert values[1..] == [b] && Join([b], sep) == b;
    assert Join(values, sep) == values[0] + sep + Join(values[1..], sep);
  }

  lemma TwoTags()
    ensures Tags("not a, b") == TagCondition(Not, ["a", "b"])
  {
    var text := "not a, b";
    assert text[..4] == "not " && text[4..] == "a, b";
    assert Join(["a", "b"], ", ") == "a, b" by {
      assert ["a", "b"][1..] == ["b"];
    }
    CommasAreUndone(["a", "b"], "");
    assert "" + "a, b" == "a, b";
  }
}
