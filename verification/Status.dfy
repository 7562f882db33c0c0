/** Which vertex a buffer belongs to, and what the fused view makes of the daemon's buffers. */
module BufferFusion {
  import opened Names
  import opened Text
  import opened TopologyModel
  import opened Shards
  import opened Sorting

  const I64_MAX: int := 0x7FFF_FFFF_FFFF_FFFF

  const UNKNOWN: VertexName := "unknown"

  /** A buffer as the daemon reports it. */
  datatype Report = Report(bufferName: string, pendingCount: Option<int>, ackPendingCount: Option<int>)

  datatype BufferInfo = BufferInfo(name: string, sources: seq<VertexName>, to: VertexName, pending: Option<int>,
    ackPending: Option<int>)

  datatype EdgeView = EdgeView(from: VertexName, to: VertexName, buffers: seq<BufferInfo>)

  // ---- attribution -------------------------------------------------------------

  /** A buffer name without its last part, the partition. */
  function Stem(buffer: string): string {
    match LastDash(buffer)
    case None => buffer
    case Some(i) => buffer[..i]
  }

  /** The longest vertex name that ends the stem, the last of equals. */
  function Owner(vertices: seq<Vertex>, stem: string): Option<VertexName> {
    if vertices == [] then None
    else
      var n := |vertices| - 1;
      var best, name := Owner(vertices[..n], stem), vertices[n].name;
      if EndsWith(stem, name) && (best.None? || |best.value| <= |name|) then Some(name) else best
  }

  /** The sources of the edges into a vertex, in spec order. */
  function EdgesInto(edges: seq<Edge>, to: VertexName): seq<VertexName> {
    if edges == [] then []
    else
      var n := |edges| - 1;
      EdgesInto(edges[..n], to) + if edges[n].to == to then [edges[n].from] else []
  }

  /** A buffer's sources and owner; unknown where the topology does not tell. */
  function EndsFor(topology: Option<Topology>, buffer: string): (seq<VertexName>, VertexName) {
    if topology.None? then ([UNKNOWN], UNKNOWN)
    else
      match Owner(topology.value.vertices, Stem(buffer))
      case None => ([UNKNOWN], UNKNOWN)
      case Some(to) =>
        var sources := EdgesInto(topology.value.edges, to);
        (if sources == [] then [UNKNOWN] else sources, to)
  }

  ghost predicate EndsStem(vertices: seq<Vertex>, stem: string, name: VertexName) {
    Declared(vertices, name) && EndsWith(stem, name)
  }

  /** The owner is the longest vertex name ending the stem, and there is none only when no name does. */
  lemma {:induction false} OwnerIsLongest(vertices: seq<Vertex>, stem: string)
    ensures var o := Owner(vertices, stem);
            && (o.Some? ==> EndsStem(vertices, stem, o.value))
            && (forall name :: EndsStem(vertices, stem, name) ==> o.Some? && |name| <= |o.value|)
  {
    if vertices != [] {
      var n := |vertices| - 1;
      OwnerIsLongest(vertices[..n], stem);
      forall name ensures Declared(vertices, name) <==> Declared(vertices[..n], name) || vertices[n].name == name {
        DeclaredSnoc(vertices, name);
      }
    }
  }

  lemma OwnerCovers(vertices: seq<Vertex>, others: seq<Vertex>, stem: string)
    requires forall name :: Declared(vertices, name) ==> Declared(others, name)
    ensures var a, b := Owner(vertices, stem), Owner(others, stem);
            a.Some? ==> b.Some? && |a.value| <= |b.value| && EndsWith(stem, a.value)
  {
    OwnerIsLongest(vertices, stem);
    OwnerIsLongest(others, stem);
    var a := Owner(vertices, stem);
    if a.Some? {
      assert EndsStem(others, stem, a.value);
    }
  }

  /** Two endings of one string that are as long are the same, so the order of the vertices does not matter. */
  lemma OrderDoesNotMatter(vertices: seq<Vertex>, others: seq<Vertex>, stem: string)
    requires forall name :: Declared(vertices, name) <==> Declared(others, name)
    ensures Owner(vertices, stem) == Owner(others, stem)
  {
    OwnerCovers(vertices, others, stem);
    OwnerCovers(others, vertices, stem);
    var a, b := Owner(vertices, stem), Owner(others, stem);
    if a.Some? {
      SameEnding(stem, a.value, b.value);
    }
  }

  lemma SameEnding(s: string, a: string, b: string)
    requires EndsWith(s, a) && EndsWith(s, b) && |a| == |b|
    ensures a == b
  {
  }

  function BufferName(isb: string, pipeline: string, to: string, partition: string): string {
    isb + "-" + pipeline + "-" + to + "-" + partition
  }

  /**
   * A well-formed buffer name is given to its true owner exactly when no longer vertex name ends
   * `<isb>-<pipeline>-<to>`.
   */
  lemma TrueOwner(vertices: seq<Vertex>, isb: string, pipeline: string, to: VertexName, partition: string)
    requires Declared(vertices, to) && '-' !in partition
    ensures var stem := isb + "-" + pipeline + "-" + to;
            Owner(vertices, Stem(BufferName(isb, pipeline, to, partition))) == Some(to)
            <==> forall name :: EndsStem(vertices, stem, name) ==> |name| <= |to|
  {
    var stem := isb + "-" + pipeline + "-" + to;
    LastDashIs(stem, partition);
    assert (stem + "-" + partition)[..|stem|] == stem;
    assert stem[|stem| - |to|..] == to;
    OwnerIsLongest(vertices, stem);
    assert EndsStem(vertices, stem, to);
  }

  lemma TwoDeclared(a: Vertex, b: Vertex, name: VertexName)
    ensures Declared([a, b], name) <==> a.name == name || b.name == name
  {
    var vertices := [a, b];
    assert vertices[0].name == a.name && vertices[1].name == b.name;
  }

  /** A vertex whose name ends pipeline and owner takes the owner's buffers. */
  lemma LongerNameTakesIt(cat: Vertex, other: Vertex)
    requires cat.name == "cat" && other.name == "p-cat"
    ensures Owner([cat, other], Stem("isb-p-cat-0")) == Some("p-cat")
  {
    var stem := "isb-p-cat";
    LastDashIs(stem, "0");
    assert stem + "-" + "0" == "isb-p-cat-0" && "isb-p-cat-0"[..9] == stem;
    LongerEndIsOwner(cat, other, stem);
  }

  lemma LongerEndIsOwner(cat: Vertex, other: Vertex, stem: string)
    requires cat.name == "cat" && other.name == "p-cat" && stem == "isb-p-cat"
    ensures Owner([cat, other], stem) == Some("p-cat")
  {
    assert stem[4..] == "p-cat";
    OwnerIsLongest([cat, other], stem);
    forall name: VertexName ensures Declared([cat, other], name) <==> cat.name == name || other.name == name {
      TwoDeclared(cat, other, name);
    }
    assert EndsStem([cat, other], stem, "p-cat");
  }

  // ---- the daemon's list -------------------------------------------------------

  predicate ByName(a: VertexName, b: VertexName) {
    NotAfter(a, b)
  }

  /** Neighbours that repeat each other, once. */
  function Dedup(names: seq<VertexName>): seq<VertexName> {
    if |names| < 2 then names
    else if names[0] == names[1] then Dedup(names[1..])
    else [names[0]] + Dedup(names[1..])
  }

  /** Sorted, each once. */
  function SortedOnce(names: seq<VertexName>): seq<VertexName> {
    Dedup(Sort(names, ByName))
  }

  lemma {:induction false} DedupHas(names: seq<VertexName>, x: VertexName)
    ensures x in Dedup(names) <==> x in names
    ensures names != [] ==> Dedup(names) != [] && Dedup(names)[0] == names[0]
  {
    if |names| >= 2 {
      DedupHas(names[1..], x);
      assert names == [names[0]] + names[1..];
    }
  }

  /** Sorting and removing repeats keeps every source. */
  lemma SortedHas(names: seq<VertexName>, x: VertexName)
    ensures x in SortedOnce(names) <==> x in names
  {
    SortKeeps(names, ByName);
    DedupHas(Sort(names, ByName), x);
    assert x in multiset(Sort(names, ByName)) <==> x in multiset(names);
    assert x in Sort(names, ByName) <==> x in multiset(Sort(names, ByName));
    assert x in names <==> x in multiset(names);
  }

  /** In order of name, and no two the same. */
  ghost predicate Ascending(names: seq<VertexName>) {
    forall i, j :: 0 <= i < j < |names| ==> names[i] != names[j] && NotAfter(names[i], names[j])
  }

  lemma FirstOfAscending(name: VertexName, names: seq<VertexName>)
    requires Ascending(names) && (names != [] ==> name != names[0] && NotAfter(name, names[0]))
    ensures Ascending([name] + names)
  {
    forall j | 0 <= j < |names| ensures name != names[j] && NotAfter(name, names[j]) {
      if j > 0 {
        NotAfterTransitive(name, names[0], names[j]);
        if name == names[j] {
          NotAfterAntisymmetric(name, names[0]);
        }
      }
    }
  }

  lemma {:induction false} DedupAscends(names: seq<VertexName>)
    requires Ascends(names, ByName)
    ensures Ascending(Dedup(names))
  {
    if |names| >= 2 {
      DedupAscends(names[1..]);
      DedupHas(names[1..], names[0]);
      if names[0] != names[1] {
        assert ByName(names[0], names[1]);
        FirstOfAscending(names[0], Dedup(names[1..]));
      }
    }
  }

  lemma ByNameIsOrder()
    ensures IsOrder(ByName)
  {
    forall a: VertexName, b: VertexName ensures ByName(a, b) || ByName(b, a) {
      NotAfterTotal(a, b);
    }
    forall a: VertexName, b: VertexName, c: VertexName | ByName(a, b) && ByName(b, c) ensures ByName(a, c) {
      NotAfterTransitive(a, b, c);
    }
  }

  /** Sources ascend, each once. */
  lemma SortedAscends(names: seq<VertexName>)
    ensures Ascending(SortedOnce(names))
  {
    ByNameIsOrder();
    SortAscends(names, ByName);
    DedupAscends(Sort(names, ByName));
  }

  function NonNegative(v: Option<int>): Option<int> {
    if v.Some? && v.value < 0 then None else v
  }

  function BufferFrom(topology: Option<Topology>, d: Report): BufferInfo {
    var (sources, to) := EndsFor(topology, d.bufferName);
    BufferInfo(d.bufferName, SortedOnce(sources), to, NonNegative(d.pendingCount), NonNegative(d.ackPendingCount))
  }

  /** The first name that is not a DNS label of at most 253 characters. */
  function FirstBadName(reports: seq<Report>): (r: Option<string>)
    ensures r.None? <==> forall i :: 0 <= i < |reports| ==> IsDnsLabel(reports[i].bufferName, 253)
  {
    if reports == [] then None
    else if !IsDnsLabel(reports[0].bufferName, 253) then Some(reports[0].bufferName)
    else FirstBadName(reports[1..])
  }

  function Infos(topology: Option<Topology>, reports: seq<Report>): (r: seq<BufferInfo>)
    ensures |r| == |reports| && forall i :: 0 <= i < |r| ==> r[i] == BufferFrom(topology, reports[i])
  {
    seq(|reports|, i requires 0 <= i < |reports| => BufferFrom(topology, reports[i]))
  }

  /** The daemon's buffers in its order; one bad name spoils the list. */
  function BuffersFrom(topology: Option<Topology>, reports: seq<Report>): Result<seq<BufferInfo>, string> {
    match FirstBadName(reports)
    case Some(name) => Err(name)
    case None => Ok(Infos(topology, reports))
  }

  // ---- fusion ------------------------------------------------------------------

  /** The buffers an edge is shown with, in the daemon's order. */
  function EdgeBuffers(buffers: seq<BufferInfo>, from: VertexName, to: VertexName): seq<BufferInfo> {
    if buffers == [] then []
    else
      var n := |buffers| - 1;
      EdgeBuffers(buffers[..n], from, to)
        + if from in buffers[n].sources && buffers[n].to == to then [buffers[n]] else []
  }

  /** The edges of the fused view. */
  function Assemble(t: Topology, buffers: seq<BufferInfo>): (r: seq<EdgeView>)
    ensures |r| == |t.edges|
  {
    seq(|t.edges|, i requires 0 <= i < |t.edges| =>
      EdgeView(t.edges[i].from, t.edges[i].to, EdgeBuffers(buffers, t.edges[i].from, t.edges[i].to)))
  }

  /** The buffer is owned by the edge's target; a buffer nobody owns falls to a loop on a vertex named `unknown`. */
  predicate FallsTo(t: Topology, b: BufferInfo, from: VertexName, to: VertexName) {
    var o := Owner(t.vertices, Stem(b.name));
    o == Some(to) || (o == None && from == to == UNKNOWN)
  }

  function Falling(t: Topology, buffers: seq<BufferInfo>, from: VertexName, to: VertexName): seq<BufferInfo> {
    if buffers == [] then []
    else
      var n := |buffers| - 1;
      Falling(t, buffers[..n], from, to) + if FallsTo(t, buffers[n], from, to) then [buffers[n]] else []
  }

  ghost predicate Flows(edges: seq<Edge>, to: VertexName, x: VertexName) {
    exists i :: 0 <= i < |edges| && edges[i].to == to && edges[i].from == x
  }

  lemma FlowsMore(edges: seq<Edge>, to: VertexName, x: VertexName)
    requires edges != []
    ensures var n := |edges| - 1;
            Flows(edges, to, x) <==> Flows(edges[..n], to, x) || (edges[n].to == to && edges[n].from == x)
  {
    var n := |edges| - 1;
    var before := edges[..n];
    if i :| 0 <= i < |edges| && edges[i].to == to && edges[i].from == x {
      assert i < n ==> before[i].to == to && before[i].from == x;
    }
    if i :| 0 <= i < n && before[i].to == to && before[i].from == x {
      assert edges[i].to == to;
    }
  }

  lemma {:induction false} IntoHas(edges: seq<Edge>, to: VertexName, x: VertexName)
    ensures x in EdgesInto(edges, to) <==> Flows(edges, to, x)
  {
    if edges != [] {
      IntoHas(edges[..|edges| - 1], to, x);
      FlowsMore(edges, to, x);
    }
  }

  /** Filtering by source and target finds exactly the buffers the target owns. */
  lemma MatchIsOwner(t: Topology, d: Report, i: nat)
    requires i < |t.edges|
    ensures var b, e := BufferFrom(Some(t), d), t.edges[i];
            e.from in b.sources && b.to == e.to <==> FallsTo(t, b, e.from, e.to)
  {
    var e := t.edges[i];
    var (sources, to) := EndsFor(Some(t), d.bufferName);
    SortedHas(sources, e.from);
    IntoHas(t.edges, to, e.from);
  }

  lemma {:induction false} BuffersFall(t: Topology, reports: seq<Report>, buffers: seq<BufferInfo>, i: nat)
    requires i < |t.edges| && |buffers| <= |reports|
    requires forall k :: 0 <= k < |buffers| ==> buffers[k] == BufferFrom(Some(t), reports[k])
    ensures EdgeBuffers(buffers, t.edges[i].from, t.edges[i].to) == Falling(t, buffers, t.edges[i].from, t.edges[i].to)
    decreases |buffers|
  {
    if buffers != [] {
      var n := |buffers| - 1;
      BuffersFall(t, reports, buffers[..n], i);
      MatchIsOwner(t, reports[n], i);
    }
  }

  /** Every edge is shown with exactly its target's buffers, in the daemon's order. */
  lemma EdgeShowsItsBuffers(t: Topology, reports: seq<Report>, i: nat)
    requires i < |t.edges|
    ensures var e, buffers := t.edges[i], Infos(Some(t), reports);
            Assemble(t, buffers)[i] == EdgeView(e.from, e.to, Falling(t, buffers, e.from, e.to))
  {
    BuffersFall(t, reports, Infos(Some(t), reports), i);
  }

  // ---- drained -----------------------------------------------------------------

  predicate IsEmpty(b: BufferInfo) {
    b.pending == Some(0) && b.ackPending == Some(0)
  }

  predicate AllEmpty(buffers: seq<BufferInfo>) {
    forall i :: 0 <= i < |buffers| ==> IsEmpty(buffers[i])
  }

  /** The verdict a pause reports, from the daemon's own list. */
  function Verdict(buffers: seq<BufferInfo>): Option<bool> {
    if buffers == [] then None else Some(AllEmpty(buffers))
  }

  /** The verdict of the view, from the buffers its edges show. */
  function Drained(edges: seq<EdgeView>): Option<bool> {
    if forall i :: 0 <= i < |edges| ==> edges[i].buffers == [] then None
    else Some(forall i :: 0 <= i < |edges| ==> AllEmpty(edges[i].buffers))
  }

  /** Some edge shows the buffer. */
  ghost predicate Shown(t: Topology, b: BufferInfo) {
    exists i :: 0 <= i < |t.edges| && t.edges[i].from in b.sources && b.to == t.edges[i].to
  }

  lemma {:induction false} EdgeBuffersHas(buffers: seq<BufferInfo>, from: VertexName, to: VertexName, b: BufferInfo)
    ensures b in EdgeBuffers(buffers, from, to) <==> b in buffers && from in b.sources && b.to == to
  {
    if buffers != [] {
      var n := |buffers| - 1;
      EdgeBuffersHas(buffers[..n], from, to, b);
      assert buffers == buffers[..n] + [buffers[n]];
    }
  }

  lemma ShownSomewhere(t: Topology, buffers: seq<BufferInfo>, b: BufferInfo)
    ensures b in buffers && Shown(t, b) <==> exists i :: 0 <= i < |t.edges| && b in Assemble(t, buffers)[i].buffers
  {
    forall i | 0 <= i < |t.edges|
      ensures b in Assemble(t, buffers)[i].buffers <==>
          b in buffers && t.edges[i].from in b.sources && b.to == t.edges[i].to {
      EdgeBuffersHas(buffers, t.edges[i].from, t.edges[i].to, b);
    }
  }

  lemma AllEmptyHas(buffers: seq<BufferInfo>)
    ensures AllEmpty(buffers) <==> forall b :: b in buffers ==> IsEmpty(b)
  {
  }

  lemma ShownByEdge(t: Topology, buffers: seq<BufferInfo>, i: nat)
    requires i < |t.edges|
    ensures var shown := Assemble(t, buffers)[i].buffers;
            && (shown == [] <==> forall b :: b !in shown)
            && (shown != [] ==> exists b :: b in buffers && Shown(t, b))
            && (AllEmpty(shown) <==> forall b :: b in shown ==> IsEmpty(b))
  {
    var shown := Assemble(t, buffers)[i].buffers;
    AllEmptyHas(shown);
    if shown != [] {
      assert shown[0] in shown;
      ShownSomewhere(t, buffers, shown[0]);
    }
  }

  /** What the view's verdict says: about the shown buffers only. */
  lemma DrainedMeans(t: Topology, buffers: seq<BufferInfo>)
    ensures Drained(Assemble(t, buffers)).None? <==> forall b :: b in buffers ==> !Shown(t, b)
    ensures Drained(Assemble(t, buffers)) == Some(true) ==> forall b :: b in buffers && Shown(t, b) ==> IsEmpty(b)
    ensures Drained(Assemble(t, buffers)) == Some(false) ==> exists b :: b in buffers && Shown(t, b) && !IsEmpty(b)
  {
    var edges := Assemble(t, buffers);
    forall b ensures b in buffers && Shown(t, b) <==> exists i :: 0 <= i < |edges| && b in edges[i].buffers {
      ShownSomewhere(t, buffers, b);
    }
    forall i | 0 <= i < |edges|
      ensures edges[i].buffers == [] <==> forall b :: b !in edges[i].buffers
      ensures edges[i].buffers != [] ==> exists b :: b in buffers && Shown(t, b)
      ensures AllEmpty(edges[i].buffers) <==> forall b :: b in edges[i].buffers ==> IsEmpty(b) {
      ShownByEdge(t, buffers, i);
    }
  }

  /** Some shown buffer settles the view's verdict, and the hidden ones would not change it. */
  ghost predicate HiddenAgree(t: Topology, buffers: seq<BufferInfo>) {
    && (exists b :: b in buffers && Shown(t, b))
    && ((forall b :: b in buffers && !Shown(t, b) ==> IsEmpty(b)) ||
      (exists b :: b in buffers && Shown(t, b) && !IsEmpty(b)))
  }

  lemma ShownVerdict(t: Topology, buffers: seq<BufferInfo>)
    ensures Drained(Assemble(t, buffers)) == Verdict(buffers) <==> buffers == [] || HiddenAgree(t, buffers)
  {
    DrainedMeans(t, buffers);
    AllEmptyHas(buffers);
    if buffers != [] {
      assert buffers[0] in buffers;
    }
  }

  /** Without a topology the buffers have other ends but the same counts. */
  lemma TopologyDoesNotCount(t: Topology, reports: seq<Report>)
    ensures Verdict(Infos(None, reports)) == Verdict(Infos(Some(t), reports))
  {
    var raw, own := Infos(None, reports), Infos(Some(t), reports);
    assert forall i :: 0 <= i < |reports| ==> IsEmpty(raw[i]) == IsEmpty(own[i]);
  }

  /** What a pause reports: it asks without a topology, and an error counts as not knowing. */
  function PauseVerdict(reports: seq<Report>): Option<bool> {
    match BuffersFrom(None, reports)
    case Err(_) => None
    case Ok(buffers) => Verdict(buffers)
  }

  /** What the fused view reports; after an error it has no buffers. */
  function ViewVerdict(t: Topology, reports: seq<Report>): Option<bool> {
    match BuffersFrom(Some(t), reports)
    case Err(_) => Drained(Assemble(t, []))
    case Ok(buffers) => Drained(Assemble(t, buffers))
  }

  /**
   * The view and a pause agree exactly when the list cannot be read, there is no buffer at all, or some
   * buffer is shown and the hidden ones do not change the answer.
   */
  lemma VerdictsAgree(t: Topology, reports: seq<Report>)
    ensures ViewVerdict(t, reports) == PauseVerdict(reports) <==>
            FirstBadName(reports).Some? || reports == [] || HiddenAgree(t, Infos(Some(t), reports))
  {
    TopologyDoesNotCount(t, reports);
    ShownVerdict(t, Infos(Some(t), reports));
    DrainedMeans(t, []);
  }

  /** An owner with an incoming edge is all it takes for a buffer to be shown. */
  lemma OwnedIsShown(t: Topology, d: Report, i: nat)
    requires i < |t.edges| && Owner(t.vertices, Stem(d.bufferName)) == Some(t.edges[i].to)
    ensures Shown(t, BufferFrom(Some(t), d))
  {
    MatchIsOwner(t, d, i);
    var b := BufferFrom(Some(t), d);
    assert t.edges[i].from in b.sources && b.to == t.edges[i].to;
  }

  ghost predicate AllOwned(t: Topology, reports: seq<Report>) {
    forall k :: 0 <= k < |reports| ==>
      exists i :: 0 <= i < |t.edges| && Owner(t.vertices, Stem(reports[k].bufferName)) == Some(t.edges[i].to)
  }

  /** When every buffer's owner has an incoming edge, the view and the pause give the same verdict. */
  lemma OwnedVerdictsAgree(t: Topology, reports: seq<Report>)
    requires AllOwned(t, reports)
    ensures ViewVerdict(t, reports) == PauseVerdict(reports)
  {
    var own := Infos(Some(t), reports);
    VerdictsAgree(t, reports);
    forall k | 0 <= k < |reports| ensures Shown(t, own[k]) {
      var i :| 0 <= i < |t.edges| && Owner(t.vertices, Stem(reports[k].bufferName)) == Some(t.edges[i].to);
      OwnedIsShown(t, reports[k], i);
    }
    if reports != [] {
      assert own[0] in own;
      assert forall b :: b in own ==> Shown(t, b);
    }
  }

  lemma NobodyOwns(a: Vertex, b: Vertex, stem: string)
    requires a.name == "in" && b.name == "out" && stem == "isb-p-old"
    ensures Owner([a, b], stem) == None
  {
    OwnerIsLongest([a, b], stem);
    forall name: VertexName ensures Declared([a, b], name) <==> a.name == name || b.name == name {
      TwoDeclared(a, b, name);
    }
    assert stem[6..] == "old" && stem[7..] == "ld";
  }

  /** A hidden buffer that is not empty, when every shown one is, divides the two verdicts. */
  lemma HiddenDecides(t: Topology, reports: seq<Report>, k: nat)
    requires FirstBadName(reports).None? && k < |reports|
    requires var own := Infos(Some(t), reports);
             !Shown(t, own[k]) && !IsEmpty(own[k]) && forall j :: 0 <= j < |own| && Shown(t, own[j]) ==> IsEmpty(own[j])
    ensures ViewVerdict(t, reports) != PauseVerdict(reports)
  {
    var own := Infos(Some(t), reports);
    assert own[k] in own;
    VerdictsAgree(t, reports);
  }

  lemma UnownedIsHidden(t: Topology, d: Report)
    requires Owner(t.vertices, Stem(d.bufferName)) == None
    requires forall i :: 0 <= i < |t.edges| ==> t.edges[i].to != UNKNOWN
    ensures !Shown(t, BufferFrom(Some(t), d))
  {
  }

  lemma OldStem()
    ensures Stem("isb-p-old-0") == "isb-p-old"
  {
    LastDashIs("isb-p-old", "0");
    assert "isb-p-old" + "-" + "0" == "isb-p-old-0" && "isb-p-old-0"[..9] == "isb-p-old";
  }

  /** Messages left in a buffer of a vertex that is gone: the view calls the pipeline drained, the pause does not. */
  lemma HiddenBufferDisagrees(t: Topology, a: Vertex, b: Vertex, left: int)
    requires t.vertices == [a, b] && a.name == "in" && b.name == "out" && left > 0
    requires forall i :: 0 <= i < |t.edges| ==> t.edges[i].to != UNKNOWN
    ensures ViewVerdict(t, [Report("isb-p-out-0", Some(0), Some(0)), Report("isb-p-old-0", Some(left), Some(0))])
         != PauseVerdict([Report("isb-p-out-0", Some(0), Some(0)), Report("isb-p-old-0", Some(left), Some(0))])
  {
    OldStem();
    NobodyOwns(a, b, "isb-p-old");
    LeftOverDecides(t, Report("isb-p-out-0", Some(0), Some(0)), Report("isb-p-old-0", Some(left), Some(0)), left);
  }

  lemma LeftOverDecides(t: Topology, empty: Report, stale: Report, left: int)
    requires Owner(t.vertices, Stem(stale.bufferName)) == None
    requires forall i :: 0 <= i < |t.edges| ==> t.edges[i].to != UNKNOWN
    requires IsDnsLabel(empty.bufferName, 253) && empty.pendingCount == empty.ackPendingCount == Some(0)
    requires IsDnsLabel(stale.bufferName, 253) && stale.pendingCount == Some(left) && left > 0
    ensures ViewVerdict(t, [empty, stale]) != PauseVerdict([empty, stale])
  {
    UnownedIsHidden(t, stale);
    HiddenDecides(t, [empty, stale], 1);
  }

  // ---- totals ------------------------------------------------------------------

  /** The pending counts so far; nothing once a count is unknown, negative or too much for 64 bits. */
  function PendingFrom(buffers: seq<BufferInfo>, k: nat, total: int): Option<int>
    requires k <= |buffers|
    decreases |buffers| - k
  {
    if k == |buffers| then Some(total)
    else
      var pending := buffers[k].pending;
      if pending.None? || pending.value < 0 || total + pending.value > I64_MAX then None
      else PendingFrom(buffers, k + 1, total + pending.value)
  }

  function TotalPending(buffers: seq<BufferInfo>): Option<int> {
    PendingFrom(buffers, 0, 0)
  }

  ghost predicate Known(buffers: seq<BufferInfo>) {
    forall i :: 0 <= i < |buffers| ==> buffers[i].pending.Some? && buffers[i].pending.value >= 0
  }

  ghost function PendingSum(buffers: seq<BufferInfo>): int {
    if buffers == [] then 0
    else PendingSum(buffers[1..]) + if buffers[0].pending.Some? then buffers[0].pending.value else 0
  }

  lemma {:induction false} SumIsNonNegative(buffers: seq<BufferInfo>)
    requires Known(buffers)
    ensures PendingSum(buffers) >= 0
  {
    if buffers != [] {
      SumIsNonNegative(buffers[1..]);
    }
  }

  lemma {:induction false} PendingFromMeans(buffers: seq<BufferInfo>, k: nat, total: int)
    requires k <= |buffers| && 0 <= total <= I64_MAX
    ensures PendingFrom(buffers, k, total) ==
            if Known(buffers[k..]) && total + PendingSum(buffers[k..]) <= I64_MAX
            then Some(total + PendingSum(buffers[k..])) else None
    decreases |buffers| - k
  {
    var rest := buffers[k..];
    if k < |buffers| {
      assert rest[0] == buffers[k] && rest[1..] == buffers[k + 1..];
      assert Known(rest) <==> Known([rest[0]]) && Known(rest[1..]) by {
        assert rest == [rest[0]] + rest[1..];
        assert forall i :: 0 <= i < |rest[1..]| ==> rest[1..][i] == rest[i + 1];
      }
      if Known(rest[1..]) {
        SumIsNonNegative(rest[1..]);
      }
      var pending := buffers[k].pending;
      if pending.Some? && pending.value >= 0 && total + pending.value <= I64_MAX {
        PendingFromMeans(buffers, k + 1, total + pending.value);
      }
    }
  }

  /** The total is never partial: it is there exactly when every count is known and the sum fits. */
  lemma TotalIsWhole(buffers: seq<BufferInfo>)
    ensures TotalPending(buffers)
         == if Known(buffers) && PendingSum(buffers) <= I64_MAX then Some(PendingSum(buffers)) else None
  {
    PendingFromMeans(buffers, 0, 0);
    assert buffers[0..] == buffers;
  }
}
