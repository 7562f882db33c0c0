/** Edge conditions through a label and back. */
module MermaidTags {
  import opened Names
  import opened Text
  import opened TopologyModel
  import opened Mermaid
  import opened MermaidIn
  import opened MermaidLines

  /** A value that splitting and trimming can give back. */
  ghost predicate IsTrimmed(v: string) {
    v != "" && Solid(v)
  }

  ghost predicate AreTrimmed(values: seq<string>) {
    forall i :: 0 <= i < |values| ==> IsTrimmed(values[i])
  }

  /** And one that a label keeps on its line. */
  ghost predicate IsValue(v: string) {
    IsTrimmed(v) && '|' !in v && '"' !in v && '\n' !in v
  }

  ghost predicate AreValues(values: seq<string>) {
    forall i :: 0 <= i < |values| ==> IsValue(values[i])
  }

  ghost predicate Lack(values: seq<string>, c: char) {
    forall i :: 0 <= i < |values| ==> c !in values[i]
  }

  function Separator(operator: TagOperator): string {
    if operator == Or then ", " else " & "
  }

  function Joined(c: TagCondition): string {
    Join(c.values, Separator(c.operator))
  }

  lemma {:induction false} JoinLacks(values: seq<string>, sep: string, c: char)
    requires Lack(values, c) && c !in sep
    ensures c !in Join(values, sep)
  {
    if |values| > 1 {
      JoinLacks(values[1..], sep, c);
      assert c !in values[0];
    }
  }

  lemma {:induction false} JoinIsSolid(values: seq<string>, sep: string)
    requires AreTrimmed(values) && values != []
    ensures Join(values, sep) != "" && Solid(Join(values, sep))
  {
    assert IsTrimmed(values[0]);
    if |values| > 1 {
      JoinIsSolid(values[1..], sep);
      var more := Join(values[1..], sep);
      var s := values[0] + sep + more;
      assert s[0] == values[0][0] && s[|s| - 1] == more[|more| - 1];
    }
  }

  /** A label keeps a text whole exactly when it holds neither bar nor quote. */
  lemma TextKeepsAll(s: string)
    ensures EdgeText(s) == s <==> '|' !in s && '"' !in s
  {
    LabelHasNoQuote(s);
    if '|' !in s && '"' !in s {
      forall i | 0 <= i < |s| ensures Printable(s[i]) {
        assert s[i] in s;
      }
      FilterKeepsAll(s, Printable);
    }
  }

  lemma JoinedIsPlain(c: TagCondition)
    requires AreValues(c.values)
    ensures '|' !in Joined(c) && '"' !in Joined(c) && '\n' !in Joined(c)
    ensures Solid(Joined(c)) && (Joined(c) == "" <==> c.values == [])
  {
    JoinLacks(c.values, Separator(c.operator), '|');
    JoinLacks(c.values, Separator(c.operator), '"');
    JoinLacks(c.values, Separator(c.operator), '\n');
    if c.values != [] {
      JoinIsSolid(c.values, Separator(c.operator));
    }
  }

  lemma NotIsLabel(s: string)
    requires '|' !in s && '"' !in s && '\n' !in s
    ensures IsLabel("not " + s) <==> !Contains(s, "%%")
  {
    assert "not " + s + "" == "not " + s;
    FirstPair("not ", s, "");
  }

  /** Values of this kind are printed whole. */
  lemma LabelIs(c: TagCondition)
    requires AreValues(c.values)
    ensures EdgeLabel(c) == if c.operator == Not then "not " + Joined(c) else Joined(c)
    ensures IsLabel(EdgeLabel(c)) <==> !Contains(Joined(c), "%%")
    ensures Solid(Joined(c)) && (Joined(c) == "" <==> c.values == [])
  {
    JoinedIsPlain(c);
    TextKeepsAll(Joined(c));
    NotIsLabel(Joined(c));
  }

  // ---- splitting ---------------------------------------------------------------

  lemma SplitAt(v: string, sep: string, rest: string)
    requires sep != "" && Find(v + sep + rest, sep) == Some(|v|)
    ensures Split(v + sep + rest, sep) == [v] + Split(rest, sep)
  {
    var s := v + sep + rest;
    assert s[..|v|] == v && s[|v| + |sep|..] == rest;
  }

  lemma TrimEachFirst(v: string, rest: seq<string>)
    requires Trim(v) != ""
    ensures TrimEach([v] + rest) == [Trim(v)] + TrimEach(rest)
  {
    assert ([v] + rest)[1..] == rest;
  }

  lemma TrimEachOnly(v: string)
    ensures TrimEach([v]) == if Trim(v) == "" then [] else [Trim(v)]
  {
    assert TrimEach([v][1..]) == [];
  }

  lemma LeadIsTrimmed(lead: string, v: string)
    requires IsTrimmed(v) && (lead == "" || lead == " ")
    ensures Trim(lead + v) == v
  {
    if lead == "" {
      assert lead + v == v;
      TrimSolid(v);
    } else {
      TrimSpace(v);
    }
  }

  lemma CommaRegroup(lead: string, v: string, rest: string)
    ensures lead + (v + ", " + rest) == (lead + v) + "," + (" " + rest)
  {
  }

  lemma {:induction false} CommasAreUndone(values: seq<string>, lead: string)
    requires AreTrimmed(values) && Lack(values, ',') && values != [] && (lead == "" || lead == " ")
    ensures TrimEach(Split(lead + Join(values, ", "), ",")) == values
    decreases |values|
  {
    var v := lead + values[0];
    assert IsTrimmed(values[0]) && ',' !in v;
    LeadIsTrimmed(lead, values[0]);
    if |values| == 1 {
      FindNeeds(v, ",", 0);
      TrimEachOnly(v);
    } else {
      var rest := Join(values[1..], ", ");
      CommaRegroup(lead, values[0], rest);
      FindChar(v, ',', " " + rest);
      assert [','] == ",";
      SplitAt(v, ",", " " + rest);
      CommasAreUndone(values[1..], " ");
      TrimEachFirst(v, Split(" " + rest, ","));
    }
  }

  /** No value holds the separator of an And, and none but the last ends as if it began one. */
  ghost predicate Apart(values: seq<string>) {
    forall i :: 0 <= i < |values| ==> ApartFrom(values[i], i + 1 < |values|)
  }

  ghost predicate ApartFrom(v: string, more: bool) {
    !Contains(v, " & ") && (more ==> !EndsWith(v, " &"))
  }

  lemma ApartTail(values: seq<string>)
    requires values != []
    ensures Apart(values) <==> ApartFrom(values[0], |values| > 1) && Apart(values[1..])
  {
    var rest := values[1..];
    if ApartFrom(values[0], |values| > 1) && Apart(rest) {
      forall i | 0 < i < |values| ensures ApartFrom(values[i], i + 1 < |values|) {
        assert ApartFrom(rest[i - 1], i < |rest|);
      }
    }
    if Apart(values) {
      forall i | 0 <= i < |rest| ensures ApartFrom(rest[i], i + 1 < |rest|) {
        assert ApartFrom(values[i + 1], i + 2 < |values|);
      }
    }
  }

  /** An earlier occurrence of the separator is inside the value or begun by its end. */
  lemma EarlierAmpersand(v: string, rest: string, j: nat)
    requires v != "" && Solid(v) && j < |v|
    ensures OccursAt(v + " & " + rest, " & ", j) <==> OccursAt(v, " & ", j) || (EndsWith(v, " &") && j + 2 == |v|)
  {
    var s := v + " & " + rest;
    assert s[j..j + 3] == [s[j], s[j + 1], s[j + 2]];
    if j + 3 <= |v| {
      assert s[j..j + 3] == v[j..j + 3];
    } else if j + 2 == |v| {
      assert v[|v| - 2..] == [v[j], v[j + 1]];
      assert s[j] == v[j] && s[j + 1] == v[j + 1] && s[j + 2] == ' ';
    } else {
      assert s[j] == v[|v| - 1] != ' ';
    }
  }

  /** The separator after a value is found there exactly when the value is apart from it. */
  lemma AmpersandIsFound(v: string, rest: string)
    requires v != "" && Solid(v)
    ensures Find(v + " & " + rest, " & ") == Some(|v|) <==> ApartFrom(v, true)
    ensures Find(v + " & " + rest, " & ").Some? && Find(v + " & " + rest, " & ").value <= |v|
  {
    var s := v + " & " + rest;
    assert s[|v|..|v| + 3] == " & ";
    assert OccursAt(s, " & ", |v|);
    if Find(s, " & ") == Some(|v|) {
      if Contains(v, " & ") {
        EarlierAmpersand(v, rest, Find(v, " & ").value);
      }
      if EndsWith(v, " &") {
        EarlierAmpersand(v, rest, |v| - 2);
      }
    }
    if ApartFrom(v, true) {
      forall j: nat | j < |v| ensures !OccursAt(s, " & ", j) {
        EarlierAmpersand(v, rest, j);
      }
      FindIs(s, " & ", |v|);
    }
  }

  /** A text cut before its end does not start with all of a solid value. */
  lemma CutIsOther(s: string, i: nat, v: string)
    requires IsTrimmed(v) && |v| <= |s| && s[..|v|] == v && 0 < i < |v|
    ensures Trim(s[..i]) != "" && Trim(s[..i]) != v
  {
    assert s[..i][0] == v[0];
    TrimWithin(s[..i]);
  }

  lemma FirstIsCut(s: string, v: string, more: seq<string>)
    requires IsTrimmed(v) && |v| <= |s| && s[..|v|] == v && Find(s, " & ").Some? && Find(s, " & ").value < |v|
    ensures TrimEach(Split(s, " & ")) != [v] + more
  {
    var i := Find(s, " & ").value;
    OccursNeeds(s, " & ", i, 0);
    assert s[0] == v[0] && i > 0;
    CutIsOther(s, i, v);
    TrimEachFirst(s[..i], Split(s[i + 3..], " & "));
    assert ([v] + more)[0] == v;
  }

  lemma LastAmpersand(v: string)
    requires IsTrimmed(v)
    ensures TrimEach(Split(v, " & ")) == [v] <==> !Contains(v, " & ")
  {
    TrimSolid(v);
    if Contains(v, " & ") {
      assert v[..|v|] == v && [v] + [] == [v];
      FirstIsCut(v, v, []);
    } else {
      TrimEachOnly(v);
    }
  }

  lemma {:induction false} AmpersandsAreUndone(values: seq<string>)
    requires AreTrimmed(values) && values != []
    ensures TrimEach(Split(Join(values, " & "), " & ")) == values <==> Apart(values)
    decreases |values|
  {
    var v, rest := values[0], Join(values[1..], " & ");
    assert IsTrimmed(v) && values == [v] + values[1..];
    ApartTail(values);
    if |values| == 1 {
      LastAmpersand(v);
    } else {
      var s := v + " & " + rest;
      AmpersandIsFound(v, rest);
      AmpersandsAreUndone(values[1..]);
      if ApartFrom(v, true) {
        SplitAt(v, " & ", rest);
        TrimSolid(v);
        TrimEachFirst(v, Split(rest, " & "));
      } else {
        assert s[..|v|] == v;
        FirstIsCut(s, v, values[1..]);
      }
    }
  }

  // ---- what reading a label can give ---------------------------------------------

  lemma {:induction false} SplitParts(s: string, sep: string, part: string)
    requires sep != "" && part in Split(s, sep)
    ensures Within(part, s) && (|sep| == 1 ==> sep[0] !in part)
    decreases |s|
  {
    var r := Find(s, sep);
    if |sep| == 1 {
      NotBeforeFirst(s, sep[0]);
      assert [sep[0]] == sep;
    }
    if r.Some? && part != s[..r.value] {
      SplitParts(s[r.value + |sep|..], sep, part);
    }
  }

  lemma {:induction false} TrimEachParts(parts: seq<string>, v: string) returns (part: string)
    requires v in TrimEach(parts)
    ensures part in parts && v == Trim(part) && v != ""
  {
    if v == Trim(parts[0]) && v != "" {
      part := parts[0];
    } else {
      part := TrimEachParts(parts[1..], v);
    }
  }

  lemma ReadParts(s: string, sep: string, i: nat)
    requires sep != "" && i < |TrimEach(Split(s, sep))|
    ensures var v := TrimEach(Split(s, sep))[i]; IsTrimmed(v) && (|sep| == 1 ==> sep[0] !in v)
  {
    var part := TrimEachParts(Split(s, sep), TrimEach(Split(s, sep))[i]);
    SplitParts(s, sep, part);
    TrimWithin(part);
  }

  /** Splitting at commas undoes joining with a comma and a blank exactly for trimmed values without commas. */
  lemma CommasAreRead(values: seq<string>)
    ensures TrimEach(Split(Join(values, ", "), ",")) == values <==> AreTrimmed(values) && Lack(values, ',')
  {
    var read := TrimEach(Split(Join(values, ", "), ","));
    forall i | 0 <= i < |read| ensures IsTrimmed(read[i]) && ',' !in read[i] {
      ReadParts(Join(values, ", "), ",", i);
    }
    if values == [] {
      FindNeeds("", ",", 0);
      TrimEachOnly("");
    } else if AreTrimmed(values) && Lack(values, ',') {
      CommasAreUndone(values, "");
      assert "" + Join(values, ", ") == Join(values, ", ");
    }
  }

  /** Splitting at ampersands undoes joining with them exactly for trimmed values that are apart. */
  lemma AmpersandsAreRead(values: seq<string>)
    ensures TrimEach(Split(Join(values, " & "), " & ")) == values <==> AreTrimmed(values) && Apart(values)
  {
    var read := TrimEach(Split(Join(values, " & "), " & "));
    forall i | 0 <= i < |read| ensures IsTrimmed(read[i]) {
      ReadParts(Join(values, " & "), " & ", i);
    }
    if values == [] {
      FindNeeds("", " & ", 0);
      TrimEachOnly("");
    } else if AreTrimmed(values) {
      AmpersandsAreUndone(values);
    }
  }

  /** Where a text that holds a condition's values begins. */
  lemma TagParts(text: string, v: string)
    requires v in Tags(text).values
    ensures v != "" && Solid(v) && Within(v, text) && (Tags(text).operator != And ==> ',' !in v)
  {
    var body := if StartsWith(text, "not ") then text[4..] else text;
    var sep := if Tags(text).operator == And then " & " else ",";
    var part := TrimEachParts(Split(body, sep), v);
    SplitParts(body, sep, part);
    TrimWithin(part);
  }

  // ---- the reader's choice of operator -----------------------------------------

  /** The conditions a label carries whole. */
  ghost predicate Carries(c: TagCondition) {
    && AreValues(c.values)
    && !Contains(Joined(c), "%%")
    && match c.operator
       case Or => Lack(c.values, ',') && !StartsWith(Joined(c), "not ") && !Contains(Joined(c), " & ")
       case And => |c.values| > 1 && !StartsWith(Joined(c), "not ") && Apart(c.values)
       case Not => |c.values| == 1 && ',' !in c.values[0]
  }

  lemma EmptyLabel()
    ensures Tags("") == TagCondition(Or, [])
  {
    FindNeeds("", " & ", 1);
    FindNeeds("", ",", 0);
    TrimEachOnly("");
  }

  lemma OrIsRead(c: TagCondition)
    requires c.operator == Or && AreValues(c.values)
    ensures Tags(Joined(c)) == c && Lack(c.values, ',') <==>
            Lack(c.values, ',') && !StartsWith(Joined(c), "not ") && !Contains(Joined(c), " & ")
  {
    if c.values == [] {
      EmptyLabel();
      FindNeeds("", " & ", 1);
    } else if Lack(c.values, ',') {
      CommasAreRead(c.values);
    }
  }

  lemma JoinHasSeparator(values: seq<string>)
    requires |values| > 1
    ensures Contains(Join(values, " & "), " & ")
  {
    var s := values[0] + " & " + Join(values[1..], " & ");
    assert s[|values[0]|..|values[0]| + 3] == " & ";
    assert OccursAt(s, " & ", |values[0]|);
  }

  lemma AndIsRead(c: TagCondition)
    requires c.operator == And && AreValues(c.values)
    ensures Tags(Joined(c)) == c <==> |c.values| > 1 && !StartsWith(Joined(c), "not ") && Apart(c.values)
  {
    if c.values == [] {
      EmptyLabel();
    } else {
      AmpersandsAreRead(c.values);
      if |c.values| > 1 {
        JoinHasSeparator(c.values);
      } else if Apart(c.values) {
        assert ApartFrom(c.values[0], false);
      }
    }
  }

  lemma BareNotIsRead()
    ensures Tags(Trim("not ")).operator == Or
  {
    var text := "not ";
    assert TrimStart(text) == text;
    assert text[..3] == "not" && text[3] == ' ';
    assert Trim(text) == TrimEnd("not") == "not";
    FindNeeds("not", " & ", 1);
  }

  /** After `not ` commas separate, so only a single value comes back. */
  lemma NotIsRead(c: TagCondition)
    requires c.operator == Not && AreValues(c.values) && Lack(c.values, ',') && Solid(Joined(c))
    ensures Tags(Trim("not " + Joined(c))) == c <==> |c.values| == 1
  {
    var body := Joined(c);
    if c.values == [] {
      assert "not " + "" == "not ";
      BareNotIsRead();
    } else {
      var text := "not " + body;
      JoinIsSolid(c.values, " & ");
      JoinLacks(c.values, " & ", ',');
      assert text[|text| - 1] == body[|body| - 1];
      TrimSolid(text);
      assert text[..4] == "not " && text[4..] == body;
      FindNeeds(body, ",", 0);
      TrimSolid(body);
      TrimEachOnly(body);
    }
  }

  /** What comes back from a label that stays on its line is made of values of the right kind. */
  lemma ReadBackAreValues(c: TagCondition)
    requires IsLabel(EdgeLabel(c)) && Tags(Trim(EdgeLabel(c))) == c
    ensures AreValues(c.values) && (c.operator != And ==> Lack(c.values, ','))
  {
    var text := Trim(EdgeLabel(c));
    TrimWithin(EdgeLabel(c));
    forall i | 0 <= i < |c.values| ensures IsValue(c.values[i]) && (c.operator != And ==> ',' !in c.values[i]) {
      TagParts(text, c.values[i]);
    }
  }

  lemma TagsOfValues(c: TagCondition)
    requires AreValues(c.values) && (c.operator != And ==> Lack(c.values, ','))
    ensures IsLabel(EdgeLabel(c)) && Tags(Trim(EdgeLabel(c))) == c <==> Carries(c)
  {
    LabelIs(c);
    TrimSolid(Joined(c));
    match c.operator
    case Or => OrIsRead(c);
    case And => AndIsRead(c);
    case Not => NotIsRead(c);
  }

  /** A condition survives its label exactly when the label carries it. */
  lemma TagsAreRead(c: TagCondition)
    ensures IsLabel(EdgeLabel(c)) && Tags(Trim(EdgeLabel(c))) == c <==> Carries(c)
  {
    if IsLabel(EdgeLabel(c)) && Tags(Trim(EdgeLabel(c))) == c {
      ReadBackAreValues(c);
      TagsOfValues(c);
    }
    if Carries(c) {
      if c.operator == Not {
        assert Lack(c.values, ',');
      }
      TagsOfValues(c);
    }
  }
}
