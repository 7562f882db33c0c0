/** Tags that carry a shard's index, and what collapses because of them. */
module ShardTags {
  import opened Names
  import opened Text
  import opened TopologyModel
  import opened Shards
  import opened ViewGraphs
  import opened Collapse
  import opened ShardGroups

  // ---- decimals ------------------------------------------------------------

  /** The number in decimal digits, without leading zeros. */
  predicate IsDecimal(s: string, n: nat) {
    s != "" && AllDigits(s) && DigitsValue(s) == n && (|s| > 1 ==> s[0] != '0')
  }

  lemma {:induction false} PositiveDigits(s: string)
    requires s != "" && AllDigits(s) && s[0] != '0'
    ensures DigitsValue(s) > 0
  {
    var n := |s| - 1;
    if n > 0 {
      PositiveDigits(s[..n]);
    } else {
      assert s[..0] == "";
    }
  }

  lemma TenTimes(m: nat, d: nat, n: nat)
    requires d < 10 && n == 10 * m + d
    ensures n / 10 == m && n % 10 == d
  {
  }

  lemma {:induction false} DecimalIsNatString(s: string, n: nat)
    requires IsDecimal(s, n)
    ensures s == NatString(n)
    decreases |s|
  {
    var k := |s| - 1;
    var d := s[k] as int - '0' as int;
    assert s == s[..k] + [s[k]] && DigitsValue(s) == 10 * DigitsValue(s[..k]) + d;
    if k == 0 {
      assert s[..k] == "" && DigitsValue(s[..k]) == 0;
    } else {
      PositiveDigits(s[..k]);
      var m := DigitsValue(s[..k]);
      assert n == 10 * m + d && 0 <= d < 10;
      TenTimes(m, d, n);
      DecimalIsNatString(s[..k], m);
      assert DigitChar(d) == s[k];
    }
  }

  lemma {:induction false} NatStringIsDecimal(n: nat)
    ensures IsDecimal(NatString(n), n)
  {
    if n >= 10 {
      NatStringIsDecimal(n / 10);
      var s := NatString(n / 10);
      assert NatString(n) == s + [DigitChar(n % 10)];
      if |s| == 1 {
        assert s[..0] == "" && DigitsValue(s) == s[0] as int - '0' as int;
      }
    }
  }

  // ---- one tag ----------------------------------------------------------------

  /** What the view makes of a tag on an edge of the shard with this index. */
  ghost predicate Starred(tag: string, index: nat, shown: string) {
    || (exists stem, digits :: IsDecimal(digits, index) && tag == stem + "-" + digits && shown == stem + "-*")
    || (shown == tag && forall stem, digits :: IsDecimal(digits, index) ==> tag != stem + "-" + digits)
  }

  lemma EndsWithDigits(tag: string, stem: string, digits: string)
    requires tag == stem + "-" + digits
    ensures EndsWith(tag, "-" + digits) && tag[..|tag| - |"-" + digits|] == stem
  {
    assert tag == stem + ("-" + digits);
  }

  lemma NormTagIsStarred(tag: string, index: nat)
    ensures Starred(tag, index, NormTag(tag, "-" + NatString(index)))
  {
    var own := NatString(index);
    var suffix := "-" + own;
    NatStringIsDecimal(index);
    if EndsWith(tag, suffix) {
      var stem := tag[..|tag| - |suffix|];
      assert tag == stem + suffix == stem + "-" + own;
      assert Starred(tag, index, stem + "-*");
    } else {
      forall stem, digits | IsDecimal(digits, index) ensures tag != stem + "-" + digits {
        DecimalIsNatString(digits, index);
        if tag == stem + "-" + digits {
          EndsWithDigits(tag, stem, digits);
        }
      }
    }
  }

  lemma StemAndDigits(tag: string, digits: string)
    ensures EndsWith(tag, "-" + digits) ==> tag == tag[..|tag| - |"-" + digits|] + "-" + digits
  {
  }

  lemma StarredIsNormTag(tag: string, index: nat, shown: string)
    requires Starred(tag, index, shown)
    ensures shown == NormTag(tag, "-" + NatString(index))
  {
    var own := NatString(index);
    NatStringIsDecimal(index);
    StemAndDigits(tag, own);
    if stem, digits :| IsDecimal(digits, index) && tag == stem + "-" + digits && shown == stem + "-*" {
      DecimalIsNatString(digits, index);
      EndsWithDigits(tag, stem, digits);
    }
  }

  lemma {:induction false} NormEachAt(tags: seq<string>, suffix: string, k: nat)
    requires k < |tags|
    ensures NormEach(tags, suffix)[k] == NormTag(tags[k], suffix)
  {
    if k > 0 {
      NormEachAt(tags[1..], suffix, k - 1);
    }
  }

  /** A shard's own index in decimal at the end of a tag, behind a dash, becomes a star; every other tag is kept. */
  lemma TagsAreStarred(tags: seq<string>, index: nat)
    ensures |NormTags(tags, Some(index))| == |tags| && NormTags(tags, None) == tags
    ensures forall k :: 0 <= k < |tags| ==> Starred(tags[k], index, NormTags(tags, Some(index))[k])
  {
    forall k | 0 <= k < |tags| ensures Starred(tags[k], index, NormTags(tags, Some(index))[k]) {
      NormEachAt(tags, "-" + NatString(index), k);
      NormTagIsStarred(tags[k], index);
    }
  }

  /** The tag of shard 2 and another. */
  lemma OwnIndexIsStarred()
    ensures NormTags(["route-2", "route-12", "2"], Some(2)) == ["route-*", "route-12", "2"]
  {
    var tags := ["route-2", "route-12", "2"];
    assert NatString(2) == "2" && "-" + "2" == "-2";
    assert tags[1..] == ["route-12", "2"] && tags[1..][1..] == ["2"] && tags[1..][1..][1..] == [];
    assert "route-2"[5..] == "-2" && "route-2"[..5] == "route" && "route" + "-*" == "route-*";
    assert "route-12"[6..] == "12" && "12"[0] != "-2"[0];
  }

  // ---- shards fed by one vertex --------------------------------------------------

  /** One edge from `x` to the shard, its tag `r` and the shard's index, and no other edge at the shard. */
  ghost predicate FedBy(t: Topology, x: VertexName, r: string, m: VertexName, e: Edge) {
    && e in t.edges && e.from == x && e.to == m
    && (exists digits :: IsDecimal(digits, IndexKey(m)) && e.conditions == Some(TagCondition(Or, [r + "-" + digits])))
    && (forall f :: f in t.edges && f.to == m ==> f == e)
    && (forall f :: f in t.edges ==> f.from != m)
  }

  /** Two or more shards of one stem, kind and number of partitions, each fed by `x` alone, and `x` itself no shard. */
  ghost predicate Fan(t: Topology, stem: string, x: VertexName, r: string) {
    var ms := Candidates(t.vertices, stem);
    && |ms| >= 2 && Declared(t.vertices, x) && !IsCandidate(t.vertices, x)
    && (forall m :: m in ms ==> exists e :: FedBy(t, x, r, m, e))
    && (forall v, w :: v in t.vertices && w in t.vertices && v.name in ms && w.name in ms ==>
          v.kind == w.kind && v.partitions == w.partitions)
  }

  lemma OneTagStarred(tag: string, index: nat, r: string, digits: string)
    requires IsDecimal(digits, index) && tag == r + "-" + digits
    ensures NormTags([tag], Some(index)) == [r + "-*"]
  {
    assert Starred(tag, index, r + "-*");
    StarredIsNormTag(tag, index, r + "-*");
    assert [tag][1..] == [];
  }

  lemma FedTags(t: Topology, x: VertexName, r: string, stem: string, m: VertexName, e: Edge)
    requires FedBy(t, x, r, m, e) && HasStem(m, stem)
    ensures TagsFor(m, e) == [r + "-*"]
  {
    var digits :| IsDecimal(digits, IndexKey(m)) && e.conditions == Some(TagCondition(Or, [r + "-" + digits]));
    OneTagStarred(r + "-" + digits, IndexKey(m), r, digits);
  }

  lemma FedSignature(t: Topology, stem: string, x: VertexName, r: string, m: VertexName)
    requires Valid(t) && Fan(t, stem, x, r) && m in Candidates(t.vertices, stem)
    ensures SignatureOf(t, m).ins == {(Outside(t.vertices, x), [r + "-*"])} && SignatureOf(t, m).outs == {}
    ensures Declared(t.vertices, m) && HasStem(m, stem)
  {
    CandidateIffStem(t.vertices, stem, m);
    var e :| FedBy(t, x, r, m, e);
    FedTags(t, x, r, stem, m, e);
    LoneIn(t, m, e);
  }

  lemma VertexNamed(vertices: seq<Vertex>, name: VertexName) returns (v: Vertex)
    requires DistinctNames(vertices) && Declared(vertices, name)
    ensures v in vertices && v.name == name && Lookup(vertices, name) == Some(v)
  {
    var i :| 0 <= i < |vertices| && vertices[i].name == name;
    v := vertices[i];
    LookupIsUnique(vertices, v);
  }

  lemma FedAlike(t: Topology, stem: string, x: VertexName, r: string, m: VertexName, n: VertexName)
    requires Valid(t) && Fan(t, stem, x, r)
    requires m in Candidates(t.vertices, stem) && n in Candidates(t.vertices, stem)
    ensures SignatureOf(t, m) == SignatureOf(t, n)
  {
    FedSignature(t, stem, x, r, m);
    FedSignature(t, stem, x, r, n);
    var v := VertexNamed(t.vertices, m);
    var w := VertexNamed(t.vertices, n);
    assert v.name in Candidates(t.vertices, stem) && w.name in Candidates(t.vertices, stem);
  }

  /** Such shards collapse. */
  lemma FanCollapses(t: Topology, stem: string, x: VertexName, r: string)
    requires Valid(t) && Fan(t, stem, x, r)
    ensures Collapses(t, stem)
  {
    var ms := Candidates(t.vertices, stem);
    forall i | 0 <= i < |ms| ensures SignatureOf(t, ms[i]) == SignatureOf(t, ms[0]) {
      FedAlike(t, stem, x, r, ms[i], ms[0]);
    }
  }

  /** The node of an accepted stem. */
  lemma NodeOfStem(t: Topology, accepted: Groups, g: ViewGraph, place: map<VertexName, nat>, heads: seq<nat>,
    firsts: seq<nat>, stem: string, m: VertexName) returns (gi: nat)
    requires IsView(t, accepted, g, place, heads, firsts) && stem in accepted
    requires Declared(t.vertices, m) && HasStem(m, stem)
    ensures gi < |g.nodes| && g.nodes[gi].members == accepted[stem] && g.nodes[gi].IsGroup()
    ensures g.nodes[gi].title == stem + " ×" + NatString(|accepted[stem]|)
  {
    EachVertexOnce(t, accepted, g, place, heads, firsts, m);
    gi := place[m];
    NodeMember(t, accepted, g.nodes, heads, gi, m);
    var head := t.vertices[heads[gi]];
    assert HomeOf(accepted, m) == Shared(stem);
    assert g.nodes[gi] == NodeFor(accepted, head);
  }

  lemma SameNumber(a: seq<VertexName>, b: seq<VertexName>)
    requires multiset(a) == multiset(b)
    ensures |a| == |b|
  {
    assert |multiset(a)| == |a| && |multiset(b)| == |b|;
  }

  lemma NoShardIsAlone(t: Topology, accepted: Groups, g: ViewGraph, place: map<VertexName, nat>, heads: seq<nat>,
    firsts: seq<nat>, x: VertexName)
    requires AcceptsAll(t, accepted) && IsView(t, accepted, g, place, heads, firsts)
    requires Declared(t.vertices, x) && !IsCandidate(t.vertices, x)
    ensures Alone(g, place, x)
  {
    EachVertexOnce(t, accepted, g, place, heads, firsts, x);
    MembersShareHome(t.vertices, accepted, t.vertices[heads[place[x]]], x);
    assert HomeOf(accepted, x) == Own(x);
  }

  lemma FedTaggedAlike(t: Topology, stem: string, x: VertexName, r: string, members: seq<VertexName>)
    requires Valid(t) && Fan(t, stem, x, r) && multiset(members) == multiset(Candidates(t.vertices, stem))
    ensures TaggedAlike(t, x, members, true)
    ensures forall m :: m in members ==> TagsBetween(t, x, m, true) == {[r + "-*"]}
  {
    forall m | m in members ensures TagsBetween(t, x, m, true) == {[r + "-*"]} {
      SameElements(members, Candidates(t.vertices, stem), m);
      CandidateIffStem(t.vertices, stem, m);
      var e :| FedBy(t, x, r, m, e);
      FedTags(t, x, r, stem, m, e);
      OneTagging(t, x, m, true, e);
    }
  }

  lemma TaggedIsNotApart(t: Topology, g: ViewGraph, place: map<VertexName, nat>, x: VertexName, gi: nat, m: VertexName,
    tags: seq<string>)
    requires x in place && gi < |g.nodes| && m in g.nodes[gi].members && tags in TagsBetween(t, x, m, true)
    ensures !Apart(t, g, place, x, gi, true)
  {
  }

  /**
   * They become one node, which lists them in order of index, and one view edge tagged with a star for the
   * index leads there from `x`: the only one between the two, with exactly one edge for every shard.
   */
  lemma FanIsOneEdge(t: Topology, accepted: Groups, g: ViewGraph, place: map<VertexName, nat>, heads: seq<nat>,
    firsts: seq<nat>, stem: string, x: VertexName, r: string) returns (gi: nat, i: nat)
    requires Valid(t) && AcceptsAll(t, accepted) && IsView(t, accepted, g, place, heads, firsts) && Fan(t, stem, x, r)
    ensures gi < |g.nodes| && g.nodes[gi].members == SortByIndex(Candidates(t.vertices, stem))
    ensures g.nodes[gi].title == stem + " ×" + NatString(|Candidates(t.vertices, stem)|)
    ensures Alone(g, place, x) && i < |g.edges| && OnlyAndWhole(g, place, x, gi, true, i)
    ensures g.edges[i].tags == [r + "-*"]
  {
    var m := Candidates(t.vertices, stem)[0];
    FanCollapses(t, stem, x, r);
    CandidateIffStem(t.vertices, stem, m);
    gi := NodeOfStem(t, accepted, g, place, heads, firsts, stem, m);
    NoShardIsAlone(t, accepted, g, place, heads, firsts, x);
    FedTaggedAlike(t, stem, x, r, accepted[stem]);
    SameElements(accepted[stem], Candidates(t.vertices, stem), m);
    SameNumber(accepted[stem], Candidates(t.vertices, stem));
    TaggedIsNotApart(t, g, place, x, gi, m, [r + "-*"]);
    StandsForAllExact(t, accepted, g, place, heads, firsts, x, gi, true);
    i :| 0 <= i < |g.edges| && OnlyAndWhole(g, place, x, gi, true, i);
    MemberEdge(t, accepted, g, place, heads, firsts, x, gi, true, i, m);
    OneOfOne([r + "-*"], g.edges[i].tags);
  }

  lemma OneOfOne(a: seq<string>, b: seq<string>)
    requires {a} == {b}
    ensures a == b
  {
    assert a in {b};
  }

  /** A source that routes to two workers by tags with their indices. */
  ghost predicate RoutedWorkers(t: Topology) {
    && |t.vertices| == 3 && |t.edges| == 2
    && t.vertices[0].name == "in" && t.vertices[1].name == "worker-0" && t.vertices[2].name == "worker-1"
    && t.vertices[1].kind == t.vertices[2].kind == Sink && t.vertices[1].partitions == t.vertices[2].partitions
    && t.edges[0] == Edge("in", "worker-0", Some(TagCondition(Or, ["route-0"])), RetryUntilSuccess)
    && t.edges[1] == Edge("in", "worker-1", Some(TagCondition(Or, ["route-1"])), RetryUntilSuccess)
  }

  lemma WorkersSplit()
    ensures ShardSplit("in") == None && ShardSplit("worker-0") == Some(("worker", 0))
    ensures ShardSplit("worker-1") == Some(("worker", 1))
    ensures !HasStem("in", "worker") && HasStem("worker-0", "worker") && HasStem("worker-1", "worker")
  {
    OneDigit("worker", '0');
    OneDigit("worker", '1');
    assert "worker" + "-" + "0" == "worker-0" && "worker" + "-" + "1" == "worker-1";
  }

  lemma WorkerCandidates(t: Topology)
    requires RoutedWorkers(t)
    ensures Candidates(t.vertices, "worker") == ["worker-0", "worker-1"]
  {
    WorkersSplit();
    var vs := t.vertices;
    NotTaken(vs, 0, "worker");
    TakenFirst(vs, 1, "worker");
    TakenSecond(vs, 2, "worker", "worker-0");
    assert vs[..0] == [] && vs[..3] == vs;
  }

  lemma OneOfTwo<T>(s: seq<T>, x: T)
    requires |s| == 2 && x in s
    ensures x == s[0] || x == s[1]
  {
  }

  lemma WorkerFed(t: Topology, k: nat, m: VertexName, digits: string)
    requires RoutedWorkers(t) && k < 2 && m == t.edges[k].to && IsDecimal(digits, IndexKey(m)) && m[0] == 'w'
    requires t.edges[k].conditions == Some(TagCondition(Or, ["route" + "-" + digits])) && t.edges[1 - k].to != m
    ensures FedBy(t, "in", "route", m, t.edges[k])
  {
    forall f | f in t.edges ensures f == t.edges[0] || f == t.edges[1] {
      OneOfTwo(t.edges, f);
    }
    assert "in"[0] != m[0];
  }

  /** The workers are such a fan, so they become one node and one view edge tagged `route-*` leads there. */
  lemma RoutedWorkersFan(t: Topology)
    requires Valid(t) && RoutedWorkers(t)
    ensures Fan(t, "worker", "in", "route")
  {
    WorkersSplit();
    WorkerCandidates(t);
    assert "route" + "-" + "0" == "route-0" && "route" + "-" + "1" == "route-1";
    assert DigitsValue("0") == 0 && DigitsValue("1") == 1 by {
      assert "0"[..0] == "" && "1"[..0] == "";
    }
    assert "worker-0"[7] != "worker-1"[7];
    WorkerFed(t, 0, "worker-0", "0");
    WorkerFed(t, 1, "worker-1", "1");
    assert t.vertices[0].name == "in";
    WorkersAlike(t);
  }

  lemma WorkersAlike(t: Topology)
    requires RoutedWorkers(t)
    ensures forall v :: v in t.vertices && v.name in ["worker-0", "worker-1"] ==>
              v.kind == Sink && v.partitions == t.vertices[1].partitions
  {
    assert forall v :: v in t.vertices ==> v == t.vertices[0] || v == t.vertices[1] || v == t.vertices[2];
    assert "in"[0] != "worker-0"[0] && "in"[0] != "worker-1"[0];
  }

  // ---- exactly what collapses -----------------------------------------------------

  /** One of two or more vertices that are this stem, a dash and digits. */
  ghost predicate IsShard(vertices: seq<Vertex>, a: VertexName, stem: string) {
    && (exists digits :: IsShardOf(a, stem, digits))
    && exists v, digits :: v in vertices && v.name != a && IsShardOf(v.name, stem, digits)
  }

  /** What a neighbour goes by: the stem it shares with others, or its own name. */
  ghost predicate GoesBy(vertices: seq<Vertex>, a: VertexName, s: string) {
    IsShard(vertices, a, s) || (a == s && forall stem :: !IsShard(vertices, a, stem))
  }

  ghost predicate GoTogether(vertices: seq<Vertex>, a: VertexName, b: VertexName) {
    exists s :: GoesBy(vertices, a, s) && GoesBy(vertices, b, s)
  }

  /** Two edges' tags, each starred for the shard at its end, are the same. */
  ghost predicate SameTags(e: Edge, m: VertexName, f: Edge, n: VertexName) {
    var a, b := TagStrings(e.conditions), TagStrings(f.conditions);
    |a| == |b| && forall k :: 0 <= k < |a| ==> ShownAlike(a[k], IndexKey(m), b[k], IndexKey(n))
  }

  /** The two edges lead to vertices that go by one name, tagged alike. */
  ghost predicate Matches(t: Topology, m: VertexName, e: Edge, n: VertexName, f: Edge, into: bool) {
    && f in t.edges && Inner(f, into) == n && SameTags(e, m, f, n)
    && GoTogether(t.vertices, Outer(e, into), Outer(f, into))
  }

  ghost predicate Mirrors(t: Topology, m: VertexName, n: VertexName, into: bool) {
    forall e :: e in t.edges && Inner(e, into) == m ==> exists f :: Matches(t, m, e, n, f, into)
  }

  /** Two vertices of one kind and one number of partitions, whose edges match each other's on both sides. */
  ghost predicate LooksLike(t: Topology, m: VertexName, n: VertexName) {
    && SameSort(t.vertices, m, n)
    && Mirrors(t, m, n, true) && Mirrors(t, m, n, false)
  }

  lemma {:induction false} TwoCandidates(vertices: seq<Vertex>, stem: string, a: VertexName)
    requires DistinctNames(vertices) && Declared(vertices, a) && HasStem(a, stem)
    ensures |Candidates(vertices, stem)| >= 2 <==> exists v :: v in vertices && v.name != a && HasStem(v.name, stem)
  {
    CandidateIffStem(vertices, stem, a);
    var cs := Candidates(vertices, stem);
    CandidatesDistinct(vertices, stem);
    if |cs| >= 2 {
      var b := if cs[0] == a then cs[1] else cs[0];
      CandidateIffStem(vertices, stem, b);
      var i :| 0 <= i < |vertices| && vertices[i].name == b;
      assert vertices[i] in vertices;
    }
    if v :| v in vertices && v.name != a && HasStem(v.name, stem) {
      CandidateIffStem(vertices, stem, v.name);
      assert Declared(vertices, v.name);
    }
  }

  lemma {:induction false} CandidatesDistinct(vertices: seq<Vertex>, stem: string)
    requires DistinctNames(vertices)
    ensures forall i, j :: 0 <= i < j < |Candidates(vertices, stem)| ==>
        Candidates(vertices, stem)[i] != Candidates(vertices, stem)[j]
  {
    if vertices != [] {
      var n := |vertices| - 1;
      CandidatesDistinct(vertices[..n], stem);
      CandidateIffStem(vertices[..n], stem, vertices[n].name);
    }
  }

  lemma StemIsSplit(name: VertexName, stem: string)
    ensures HasStem(name, stem) <==> exists digits :: IsShardOf(name, stem, digits)
  {
    ShardSplitExact(name);
  }

  lemma ShardIsCandidate(vertices: seq<Vertex>, a: VertexName, stem: string)
    requires DistinctNames(vertices) && Declared(vertices, a)
    ensures IsShard(vertices, a, stem) <==> IsCandidate(vertices, a) && HasStem(a, stem)
  {
    StemIsSplit(a, stem);
    if HasStem(a, stem) {
      TwoCandidates(vertices, stem, a);
      forall v | v in vertices ensures HasStem(v.name, stem) <==> exists digits :: IsShardOf(v.name, stem, digits) {
        StemIsSplit(v.name, stem);
      }
    }
  }

  lemma GoesByOutside(vertices: seq<Vertex>, a: VertexName, s: string)
    requires DistinctNames(vertices) && Declared(vertices, a)
    ensures GoesBy(vertices, a, s) <==> Outside(vertices, a) == s
  {
    forall stem ensures IsShard(vertices, a, stem) <==> IsCandidate(vertices, a) && HasStem(a, stem) {
      ShardIsCandidate(vertices, a, stem);
    }
    if IsCandidate(vertices, a) {
      var own := ShardSplit(a).value.0;
      assert HasStem(a, own) && IsShard(vertices, a, own) && Outside(vertices, a) == own;
      assert IsShard(vertices, a, s) <==> s == own;
    }
  }

  lemma OwnIndex(m: VertexName, stem: string)
    requires HasStem(m, stem)
    ensures ShardIndex(m) == Some(IndexKey(m))
  {
  }

  /** One thing shown for both. */
  ghost predicate ShownAlike(a: string, i: nat, b: string, j: nat) {
    exists shown :: Starred(a, i, shown) && Starred(b, j, shown)
  }

  lemma ShownAlikeMeans(a: string, i: nat, b: string, j: nat)
    ensures ShownAlike(a, i, b, j) <==> NormTag(a, "-" + NatString(i)) == NormTag(b, "-" + NatString(j))
  {
    NormTagIsStarred(a, i);
    NormTagIsStarred(b, j);
    if shown :| Starred(a, i, shown) && Starred(b, j, shown) {
      StarredIsNormTag(a, i, shown);
      StarredIsNormTag(b, j, shown);
    }
  }

  lemma NormTagsAt(tags: seq<string>, index: nat)
    ensures |NormTags(tags, Some(index))| == |tags|
    ensures forall k :: 0 <= k < |tags| ==> NormTags(tags, Some(index))[k] == NormTag(tags[k], "-" + NatString(index))
  {
    forall k | 0 <= k < |tags| ensures NormTags(tags, Some(index))[k] == NormTag(tags[k], "-" + NatString(index)) {
      NormEachAt(tags, "-" + NatString(index), k);
    }
  }

  lemma SameShown(a: seq<string>, i: nat, b: seq<string>, j: nat)
    ensures NormTags(a, Some(i)) == NormTags(b, Some(j)) <==>
        |a| == |b| && forall k :: 0 <= k < |a| ==> ShownAlike(a[k], i, b[k], j)
  {
    NormTagsAt(a, i);
    NormTagsAt(b, j);
    forall k | 0 <= k < |a| && |a| == |b|
      ensures ShownAlike(a[k], i, b[k], j) <==> NormTags(a, Some(i))[k] == NormTags(b, Some(j))[k] {
      ShownAlikeMeans(a[k], i, b[k], j);
    }
  }

  lemma SameTagsMeans(e: Edge, m: VertexName, f: Edge, n: VertexName)
    requires ShardIndex(m) == Some(IndexKey(m)) && ShardIndex(n) == Some(IndexKey(n))
    ensures SameTags(e, m, f, n) <==> TagsFor(m, e) == TagsFor(n, f)
  {
    SameShown(TagStrings(e.conditions), IndexKey(m), TagStrings(f.conditions), IndexKey(n));
  }

  lemma TogetherMeans(vertices: seq<Vertex>, a: VertexName, b: VertexName)
    requires DistinctNames(vertices) && Declared(vertices, a) && Declared(vertices, b)
    ensures GoTogether(vertices, a, b) <==> Outside(vertices, a) == Outside(vertices, b)
  {
    if s :| GoesBy(vertices, a, s) && GoesBy(vertices, b, s) {
      GoesByOutside(vertices, a, s);
      GoesByOutside(vertices, b, s);
    }
    if Outside(vertices, a) == Outside(vertices, b) {
      GoesByOutside(vertices, a, Outside(vertices, a));
      GoesByOutside(vertices, b, Outside(vertices, a));
    }
  }

  lemma MatchesMeans(t: Topology, m: VertexName, e: Edge, n: VertexName, f: Edge, into: bool)
    requires Valid(t) && e in t.edges && f in t.edges && Inner(f, into) == n
    requires ShardIndex(m) == Some(IndexKey(m)) && ShardIndex(n) == Some(IndexKey(n))
    ensures Matches(t, m, e, n, f, into) <==>
            && TagsFor(m, e) == TagsFor(n, f)
            && Outside(t.vertices, Outer(e, into)) == Outside(t.vertices, Outer(f, into))
  {
    SameTagsMeans(e, m, f, n);
    TogetherMeans(t.vertices, Outer(e, into), Outer(f, into));
  }

  /** Every neighbour of the one is a neighbour of the other. */
  lemma MirrorsMeans(t: Topology, m: VertexName, n: VertexName, into: bool)
    requires Valid(t) && ShardIndex(m) == Some(IndexKey(m)) && ShardIndex(n) == Some(IndexKey(n))
    ensures Mirrors(t, m, n, into) <==> NeighboursOf(SignatureOf(t, m), into) <= NeighboursOf(SignatureOf(t, n), into)
  {
    if Mirrors(t, m, n, into) {
      forall p | p in NeighboursOf(SignatureOf(t, m), into) ensures p in NeighboursOf(SignatureOf(t, n), into) {
        var e := FromNeighbours(t, m, into, p.0, p.1);
        var f :| Matches(t, m, e, n, f, into);
        MatchesMeans(t, m, e, n, f, into);
        InNeighbours(t, n, f, into);
      }
    }
    if NeighboursOf(SignatureOf(t, m), into) <= NeighboursOf(SignatureOf(t, n), into) {
      forall e | e in t.edges && Inner(e, into) == m ensures exists f :: Matches(t, m, e, n, f, into) {
        InNeighbours(t, m, e, into);
        var f := FromNeighbours(t, n, into, Outside(t.vertices, Outer(e, into)), TagsFor(m, e));
        MatchesMeans(t, m, e, n, f, into);
      }
    }
  }

  /** Of one kind and with as many partitions. */
  ghost predicate SameSort(vertices: seq<Vertex>, m: VertexName, n: VertexName) {
    forall v, w :: v in vertices && w in vertices && v.name == m && w.name == n ==>
      v.kind == w.kind && v.partitions == w.partitions
  }

  lemma SameSortMeans(t: Topology, m: VertexName, n: VertexName)
    requires Valid(t) && Declared(t.vertices, m) && Declared(t.vertices, n)
    ensures SameSort(t.vertices, m, n) <==>
            && SignatureOf(t, m).kind == SignatureOf(t, n).kind
            && SignatureOf(t, m).partitions == SignatureOf(t, n).partitions
  {
    var v := VertexNamed(t.vertices, m);
    var w := VertexNamed(t.vertices, n);
    forall u | u in t.vertices && u.name == m ensures u == v {
      LookupIsUnique(t.vertices, u);
    }
    forall u | u in t.vertices && u.name == n ensures u == w {
      LookupIsUnique(t.vertices, u);
    }
  }

  lemma SameSignature(a: Signature, b: Signature)
    ensures a == b <==>
              && a.kind == b.kind && a.partitions == b.partitions
              && NeighboursOf(a, true) <= NeighboursOf(b, true) && NeighboursOf(b, true) <= NeighboursOf(a, true)
              && NeighboursOf(a, false) <= NeighboursOf(b, false) && NeighboursOf(b, false) <= NeighboursOf(a, false)
  {
  }

  lemma LooksLikeMeans(t: Topology, m: VertexName, n: VertexName)
    requires Valid(t) && Declared(t.vertices, m) && Declared(t.vertices, n)
    requires ShardIndex(m) == Some(IndexKey(m)) && ShardIndex(n) == Some(IndexKey(n))
    ensures SignatureOf(t, m) == SignatureOf(t, n) <==> LooksLike(t, m, n) && LooksLike(t, n, m)
  {
    SameSortMeans(t, m, n);
    SameSortMeans(t, n, m);
    MirrorsMeans(t, m, n, true);
    MirrorsMeans(t, m, n, false);
    MirrorsMeans(t, n, m, true);
    MirrorsMeans(t, n, m, false);
    SameSignature(SignatureOf(t, m), SignatureOf(t, n));
  }

  lemma CandidatesLookLike(t: Topology, stem: string, m: VertexName, n: VertexName)
    requires Valid(t) && m in Candidates(t.vertices, stem) && n in Candidates(t.vertices, stem)
    ensures SignatureOf(t, m) == SignatureOf(t, n) <==> LooksLike(t, m, n) && LooksLike(t, n, m)
  {
    CandidateIffStem(t.vertices, stem, m);
    CandidateIffStem(t.vertices, stem, n);
    OwnIndex(m, stem);
    OwnIndex(n, stem);
    LooksLikeMeans(t, m, n);
  }

  /** Everyone has the first one's signature exactly when everyone looks like everyone. */
  ghost predicate AllLookAlike(t: Topology, ms: seq<VertexName>) {
    forall m, n :: m in ms && n in ms ==> LooksLike(t, m, n)
  }

  lemma AlikeLookAlike(t: Topology, stem: string)
    requires Valid(t) && Collapses(t, stem)
    ensures AllLookAlike(t, Candidates(t.vertices, stem))
  {
    var ms := Candidates(t.vertices, stem);
    forall m, n | m in ms && n in ms ensures LooksLike(t, m, n) {
      AlikeCandidates(t, stem, m, n);
      CandidatesLookLike(t, stem, m, n);
    }
  }

  /**
   * A stem collapses if and only if two or more vertices have it and each looks like each from outside: kind,
   * partitions, and edges to the same neighbours, shards by their stem, tagged alike but for the shard's index.
   */
  lemma CollapsesExactly(t: Topology, stem: string)
    requires Valid(t)
    ensures var ms := Candidates(t.vertices, stem); Collapses(t, stem) <==> |ms| >= 2 && AllLookAlike(t, ms)
  {
    var ms := Candidates(t.vertices, stem);
    if Collapses(t, stem) {
      AlikeLookAlike(t, stem);
    } else if |ms| >= 2 {
      var i :| 0 <= i < |ms| && SignatureOf(t, ms[i]) != SignatureOf(t, ms[0]);
      assert ms[i] in ms && ms[0] in ms;
      CandidatesLookLike(t, stem, ms[i], ms[0]);
    }
  }
}
