# nfctl, modelled and proved in Dafny

nfctl is a command-line and terminal tool for Numaflow pipelines. This project models the parts of it
that compute something hard to get right and proves what they promise, for all inputs and all runs:

- **Topology and layering** (`Topology`, `Graphs`, `SearchOrder`, `Layering`, `LayerOrder`): validating a
  pipeline, and laying out a directed graph that may contain cycles. The depth-first search runs on arrays
  with a ghost recursion path; the result is that the edges the layout ignores are exactly the back edges of
  that search, told from the order in which it enters vertices, that what remains is a maximal acyclic part
  of the graph, that depths and ranks are longest walks in it, and so that a topology has one layout.
- **Following logs** (`LogTail`, `LogDelivery`, `LogEnding`): one container's log, reopened from an inclusive
  time stamp and stripped of replays. Exactly-once delivery in order over any number of cut sessions, and
  when a tail returns.
- **Supervising tails** (`Supervisor`, `SupervisorHistory`): a keyed set of tasks under pod events,
  resyncs and task completions, characterised by the history of events alone.
- **Mermaid, out and in** (`Text`, `Mermaid`, `MermaidIn`, `MermaidLines`, `MermaidTags`,
  `MermaidRoundTrip`, `MermaidRounds`, `MermaidGroups`, `MermaidGroupText`, `MermaidReading`): the printer and
  the line parser at character level, what comes back from a topology, for every valid one exactly when it is
  the topology that was printed, how many rounds of printing and reading it takes until it is, and what comes
  back from a text of several topologies, each in a subgraph.
- **Collapsed views** (`Sorting`, `Shards`, `View`, `Collapse`, `Groups`, `ShardTags`): shard groups as a
  quotient of the graph, what the quotient conserves, what a collapsed edge stands for, and which shards
  collapse, told from their edges and tags.
- **The edge canvas** (`Canvas`, `CanvasLaws`, `CanvasOrder`): grid cells updated in place by routes,
  the bridges drawn over crossings, and what of it depends on the painting order.
- **Smaller algorithms** (`Badges`, `Table`, `LogsPanel`, `Pods`, `Lifecycle`, `RollEnding`, `Status`): greedy
  packing, exact proportional column widths in 16 bits, a bounded ring with a pinned view, a rolling restart
  against a cluster that moves on its own with how it ends, and the attribution of buffers to vertices.

Code that works step by step in the original is a method or a class here, proved equal to a specification
function (or to a predicate over the final state); the lemmas are about those specifications. Names are
DNS labels as in section 2.1 of RFC 1123, lower case only.

The cluster, the log server and the daemon are parameters: a script of answers, an arbitrary list of
sessions, a list of reports. `select!` is an arbitrary sequence of events. Clocks, sleeps and the network
are not modelled.

Where code and comments disagree, the model follows the code:

- `crates/nfctl-core/src/service/lifecycle.rs:169-170` says a timed-out roll reports the pods deleted so
  far; the error carries only the timeout, and so does `RollingRestart.Restart`.
- `crates/nfctl-core/src/service/status.rs:29` says a shared buffer is attached once, to the first source;
  `assemble` shows it on every edge into its owner, and so does `BufferFusion.Assemble`.
- `crates/nfctl-core/src/service/logs.rs:204-208` forgets a finished task's tail by its key. A task that
  returns after its successor was spawned takes the successor's handle with it: one live tail per key holds
  over a run exactly when that never happens (`SupervisorHistory.RunOneLive`, with a concrete run in
  `SupervisorHistory.TwoTailsForOneKey`).
- `crates/nfctl-graph/src/view.rs:96-97` says members of a group have identical outside neighbourhoods; a
  vertex named like the stem of others counts as one of them there (`ShardGroups.NamesakeStandsForOne`).

Run `dafny verify dfyconfig.toml` in this directory to check everything.

## Model

| member | source | states |
|---|---|---|
| TopologyModel.New | crates/nfctl-core/src/model/topology.rs:151-184 | validation, one insertion into the seen sets at a time, comes to `Checked` |
| TopologyModel.CheckedMeans | crates/nfctl-core/src/model/topology.rs:97-101 | exactly the topologies with unique names, resolved and unrepeated edges, nothing into a source or out of a sink are accepted, unchanged; a refusal blames the earliest violation in the order of the checks |
| TopologyModel.BlameIsUnique | crates/nfctl-core/src/model/topology.rs:152-182 | at most one error can be that earliest violation |
| Layering.Depth | crates/nfctl-core/src/model/topology.rs:133-147 | one call of the search keeps the search invariant over memo, stack and the followed and cut edges, and enters vertices in the order `Visit` says: itself, then what its successors lead to, one after another; it restores the stack, records the depth of its vertex and leaves finished depths alone; it terminates though the graph may be cyclic |
| Layering.CutsGoBack | crates/nfctl-core/src/model/topology.rs:139-143 | when the search is over, an edge (a, b) has been cut if and only if b, when it was entered, reached a through vertices not yet entered |
| Layering.Depths | crates/nfctl-core/src/model/topology.rs:225-229 | searching from every vertex in turn over one memo ends with every depth settled and exactly the edges cut that lead back in that order; on an acyclic graph each depth is the length of a longest walk |
| Layering.HonouredIsNotCut | crates/nfctl-core/src/model/topology.rs:237-238 | the filter `to_sink[a] > to_sink[b]` keeps exactly the edges the search did not cut; every cut edge (a, b) has a walk of kept edges from b to a; the kept edges are a maximal acyclic subgraph |
| Layering.AcyclicKeepsAll | crates/nfctl-core/src/model/topology.rs:206-207 | no edge is ignored if and only if the graph has no cycle |
| Layering.DepthIsLongest | crates/nfctl-core/src/model/topology.rs:224-229 | the depth of a vertex is the length of its longest walk along kept edges |
| Layering.OutEdges | crates/nfctl-core/src/model/topology.rs:218-223 | the list of a vertex is the targets of its edges in spec order, and the lists together hold exactly the topology's edges |
| Layering.Relax | crates/nfctl-core/src/model/topology.rs:231-245 | the `while changed` loop terminates; at its end every rank is reached by an honoured walk, rank plus depth never exceeds the largest depth, and every honoured edge rises |
| Layering.RelaxedIsLongest | crates/nfctl-core/src/model/topology.rs:231-245 | a relaxed rank is the length of the longest honoured walk into the vertex |
| Layering.EveryRankTaken | crates/nfctl-core/src/model/topology.rs:246-251 | every rank from 0 to the largest depth is taken, so no layer is empty |
| Layering.Buckets | crates/nfctl-core/src/model/topology.rs:246-249 | pushing vertices into buckets gives each layer its vertices in spec order when ranks do not exceed the maximum |
| Layering.LayersAreFull | crates/nfctl-core/src/model/topology.rs:248-250 | `min(max)` never clamps and `retain` drops nothing |
| Layering.SourcesRankZero | crates/nfctl-core/src/model/topology.rs:206-207 | every source is in layer 0 |
| Layering.Ranks | crates/nfctl-core/src/model/topology.rs:209-252 | for every valid topology the ignored edges are those the search in spec order meets going back, and no more than needed; depth and rank are longest walks out and in, there are exactly max + 1 non-empty layers by rank, and sources rank 0; so every vertex is in exactly one layer and every edge that lies on no cycle leads to a later one |
| LayerOrder.OneAnswer | crates/nfctl-core/src/model/topology.rs:206-252 | that determines the layers: a topology has one layout, cycles or none |
| LayerOrder.CycleInSpecOrder | crates/nfctl-core/src/model/topology.rs:219-229 | between a source and a sink `a` and `b` feed each other: the edge back from `b` is the one ignored, and the layers are the four vertices in spec order |
| Layering.OneLayerEach | crates/nfctl-core/src/model/topology.rs:246-249 | every vertex is in the layer of its rank and in no other |
| Layering.UncutEdgesRise | crates/nfctl-core/src/model/topology.rs:206-207 | every edge that is not ignored leads to a later layer |
| LogTail.TailTask.TrySend | crates/nfctl-core/src/service/logs.rs:344-346 | a line is taken while the consumer has room, and refused without effect afterwards |
| LogTail.TailTask.Drain | crates/nfctl-core/src/service/logs.rs:313-347 | one open stream, line by line, does what `Deliver` says to what was sent, the newest stamp and the boundary counts |
| LogTail.TailTask.Follow | crates/nfctl-core/src/service/logs.rs:286-355 | the whole tail, over any script of failed opens and cut sessions, does what `Run` says, giving up after five failures in a row |
| LogDelivery.RunTracks | crates/nfctl-core/src/service/logs.rs:327-343 | on every run, whatever the server does, the newest stamp is the maximum stamp sent and the boundary counts the texts sent with it, while the tail follows and when it has given up; only a line the consumer refused as the tail ended may be noted and not sent |
| LogDelivery.SessionConserves | crates/nfctl-core/src/service/logs.rs:316-347 | every line received in a session is sent or suppressed, copy for copy |
| LogDelivery.SuppressedWereSent | crates/nfctl-core/src/service/logs.rs:318-326 | no line is suppressed more often than it had been sent before the session |
| LogDelivery.SessionCounts | crates/nfctl-core/src/service/logs.rs:314-343 | after a session the copies sent of a line at the reopen stamp are the larger of those sent before and those received; of any other line, their sum |
| LogDelivery.RunKeepsTrack | crates/nfctl-core/src/service/logs.rs:290-354 | over any further visits to an append-only ordered log what was sent stays the log from one fixed line on, in order, without gap or repeat |
| LogDelivery.ExactlyOnce | crates/nfctl-core/src/service/logs.rs:286-355 | with an append-only log of non-decreasing stamps and arbitrarily cut sessions, the lines sent are a prefix of the log from the original bound on; a task that gave up has added its one failure line |
| LogDelivery.UncutSessionCatchesUp | crates/nfctl-core/src/service/logs.rs:312-352 | one uncut session after any such run brings the consumer the whole log from the bound on, and the tail goes on, if it has room for it; if not the tail returns |
| LogDelivery.BoundInLog | crates/nfctl-core/src/model/pods.rs:155-157 | what bound and backlog limit let through of a first backlog is a piece of the ordered final log, `Skipped` lines after where the bound starts it |
| LogDelivery.TailLinesOnce | crates/nfctl-core/src/service/logs.rs:286-355 | after any number of failed opens short of giving up, a first backlog limited by `tail_lines` and started cleanly, and any further visits: the lines sent are a prefix of the log since the bound without the lines the limit left out |
| LogDelivery.TailLinesExact | crates/nfctl-core/src/service/logs.rs:286-355 | failed opens, a limited first stream cut anywhere, then an uncut one: the whole log since the bound but the lines the limit left out is sent if and only if nothing was left out, or the first stream was not empty and did not end on the stamp of the last line left out |
| LogDelivery.LeftOutLineReturns | crates/nfctl-core/src/service/logs.rs:291-314 | with two lines of one stamp and a backlog of one, the line left out is sent after the one that was not |
| LogEnding.SessionSends | crates/nfctl-core/src/service/logs.rs:312-347 | on any session of any server a tail sends what had not been sent before, in order, and returns if and only if that is more than the consumer takes |
| LogEnding.TailEnds | crates/nfctl-core/src/service/logs.rs:286-355 | over any script of opens: the tail has returned if and only if at some moment more was wanted than the consumer takes or the last five opens had failed; until then it has sent exactly what was wanted, and after that it sends no more |
| LogEnding.TailAsks | crates/nfctl-core/src/service/logs.rs:288-297 | while it goes on it next asks for the newest stamp it has sent, and for the backlog limit only until it was connected once |
| LogEnding.EmptySessionGoesOn | crates/nfctl-core/src/service/logs.rs:348-352 | a container without output whose first connection drops is followed on, and its first line sent |
| LogSupervisor.SelectContainers | crates/nfctl-core/src/service/logs.rs:61-87 | the chosen names are exactly the non-init containers, the named ones the pod has, or by default the main one and the annotated default |
| LogSupervisor.Supervisor.StopPod | crates/nfctl-core/src/service/logs.rs:247-256 | exactly the pod's tails are dropped and their tasks aborted |
| LogSupervisor.Supervisor.SpawnTail | crates/nfctl-core/src/service/logs.rs:258-270 | a new live task whose handle its key maps to |
| LogSupervisor.Supervisor.OnApplied | crates/nfctl-core/src/service/logs.rs:217-230 | a live pod gets a tail for each selected running container without one; a finished pod loses its tails |
| LogSupervisor.Supervisor.OnResyncDone | crates/nfctl-core/src/service/logs.rs:233-243 | stopping the unmentioned pods one after another, in any order, is stopping them all at once |
| LogSupervisor.Supervisor.OnEvent | crates/nfctl-core/src/service/logs.rs:197-209 | one turn of the loop does what `Step` says |
| LogSupervisor.Supervisor.Loop | crates/nfctl-core/src/service/logs.rs:196-213 | the loop does what `Run` says and leaves every task aborted |
| SupervisorHistory.SeenFollowsHistory | crates/nfctl-core/src/service/logs.rs:191-192 | after any run a pod is in `seen` if and only if it was applied since the latest resync began |
| SupervisorHistory.TailsFollowHistory | crates/nfctl-core/src/service/logs.rs:196-256 | after any run a key has a tail if and only if some non-terminal apply with the container selected and running has had no later deletion, terminal apply, completion of that key, or resync end that did not mention the pod |
| SupervisorHistory.StepOneLive | crates/nfctl-core/src/service/logs.rs:204-208 | a step keeps one live task per key if and only if it is not the join of a task whose key a successor holds |
| SupervisorHistory.RunOneLive | crates/nfctl-core/src/service/logs.rs:196-213 | over whole runs there is one live task per key at every moment if and only if no join was of that kind |
| SupervisorHistory.StopLeavesNone | crates/nfctl-core/src/service/logs.rs:217-256 | with one live task per key, after a deletion, a terminal apply or the end of a resync exactly the un-aborted tasks of the pods it does not stop remain, unchanged |
| SupervisorHistory.AppliedTwice | crates/nfctl-core/src/service/logs.rs:223-229 | a repeated apply of the same live pod changes nothing and spawns nothing |
| SupervisorHistory.TwoTailsForOneKey | crates/nfctl-core/src/service/logs.rs:204-208 | a run of five events after which two live tasks share one key |
| Mermaid.ToMermaid | crates/nfctl-graph/src/mermaid.rs:78-95 | the text is the header, the vertices in spec order and the edges in spec order, one line each |
| MermaidIn.StripComment | crates/nfctl-graph/src/mermaid_in.rs:205-215 | the line up to the first two percent signs outside quotes |
| MermaidIn.NoOverlap | crates/nfctl-graph/src/mermaid_in.rs:259-267 | an opening delimiter found in a token and a closing one at its end never overlap, so taking the label between them is safe |
| MermaidIn.Parse | crates/nfctl-graph/src/mermaid_in.rs:52-139 | the loop over lines, with nodes, order, links, groups and the subgraph stack updated in place, comes to `ReadLines` |
| MermaidIn.NameFrom | crates/nfctl-graph/src/mermaid_in.rs:275-289 | the two removal loops strip exactly the leading and trailing dashes |
| MermaidIn.Build | crates/nfctl-graph/src/mermaid_in.rs:141-203 | one topology per group, in order, up to the first error; `MermaidGroups.GroupsComeBack` says which |
| MermaidIn.FromMermaid | crates/nfctl-graph/src/mermaid_in.rs:48-50 | parsing and building come to `Imported` |
| MermaidLines.NodeIdInjective | crates/nfctl-graph/src/mermaid.rs:33-37 | node ids of different vertex names differ |
| MermaidLines.NodeIsRead | crates/nfctl-graph/src/mermaid_in.rs:250-272 | every printed shape is read as its own kind, id and name, in spite of the delimiters the shapes share |
| MermaidLines.NodeLineIsRead | crates/nfctl-graph/src/mermaid_in.rs:129-130 | a printed node line declares its node and changes nothing else, whatever the vertex is called |
| MermaidLines.StatementIsRead | crates/nfctl-graph/src/mermaid_in.rs:228-246 | a printed edge is read as its two ends, its arrow and its trimmed label, also when the label contains arrows |
| MermaidLines.TokensAreRead | crates/nfctl-graph/src/mermaid_in.rs:227-246 | so is an edge whose ends are declared in place |
| MermaidLines.EdgeLineIsRead | crates/nfctl-graph/src/mermaid_in.rs:91-128 | a printed edge line adds its link, unless it leaves a vertex named `subgraph`, which opens a group, or one named like a directive, which makes the line vanish |
| MermaidLines.BrokenLine | crates/nfctl-graph/src/mermaid_in.rs:205-215 | an edge line whose label holds two percent signs side by side loses its closing bar and target to the comment, and adds no link |
| MermaidTags.TextKeepsAll | crates/nfctl-graph/src/mermaid.rs:44-48 | a label keeps a text whole if and only if it holds neither bar nor quote |
| MermaidTags.CommasAreRead | crates/nfctl-graph/src/mermaid_in.rs:302-310 | splitting at commas and trimming undoes joining with a comma and a blank if and only if every value is non-empty, trimmed and without commas |
| MermaidTags.AmpersandsAreRead | crates/nfctl-graph/src/mermaid_in.rs:302-310 | splitting at ampersands and trimming undoes joining with them if and only if every value is non-empty and trimmed, none holds the separator, and none but the last ends in a blank and an ampersand |
| MermaidTags.TagsAreRead | crates/nfctl-graph/src/mermaid_in.rs:291-311 | a condition, whatever its values, survives its label if and only if every value is non-empty and trimmed, holds no bar, quote or newline, the text holds no `%%`, and it is an Or without commas, without ` & ` and not starting with `not `, an And of two or more values apart from each other and not starting with `not `, or a Not of exactly one value without commas |
| MermaidRoundTrip.FlowchartIsRead | crates/nfctl-graph/src/mermaid_in.rs:74-131 | a printed flowchart whose labels stay on their lines parses to one node per vertex in order and one link per edge whose line is not a keyword, inside no group |
| MermaidRoundTrip.NameIsKept | crates/nfctl-graph/src/mermaid_in.rs:274-289 | making a vertex name of a vertex name gives it back |
| MermaidRoundTrip.RedrawIsValid | crates/nfctl-graph/src/mermaid_in.rs:198-199 | what is left of a valid topology is valid, so building never fails on printed text |
| MermaidRoundTrip.RoundTrip | crates/nfctl-graph/src/mermaid_in.rs:1-3 | for every valid topology whose labels stay on their lines (no newline, no `%%`), in either direction: what comes back has the same vertices and the edges that are neither lossy nor from a keyword-named vertex, each with its condition as the label reads; nothing comes back if some edge leaves a vertex named `subgraph` |
| MermaidRoundTrip.RoundTripExact | crates/nfctl-graph/tests/corpus.rs:20-22 | for every valid topology, whatever its tag values: reading the printed text gives exactly the topology if and only if partitions, scale and image are the defaults, no edge is lossy or leaves a keyword-named vertex, and every condition is one that survives its label |
| MermaidRoundTrip.BrokenIsLost | crates/nfctl-graph/src/mermaid_in.rs:74-75 | no topology with a newline in a label is ever imported, from any text |
| MermaidRoundTrip.CommentIsLost | crates/nfctl-graph/src/mermaid_in.rs:205-215 | a label that starts a comment costs an edge, so the topology does not come back |
| MermaidRoundTrip.LoneAndIsLost | crates/nfctl-graph/src/mermaid_in.rs:291-301 | an And of one value comes back as an Or |
| MermaidRounds.Settles | crates/nfctl-graph/src/mermaid_in.rs:291-311 | a condition printed and read again and again settles after at most twice its label's length and four rounds, if its first label stays on its line |
| MermaidRounds.BlankSettles | crates/nfctl-graph/src/mermaid_in.rs:291-311 | where the label's only white space is the blank, three rounds are enough |
| MermaidRounds.TwoRoundsDiffer | crates/nfctl-graph/src/mermaid_in.rs:291-311 | one round is not: an Or of `not a` and `b` becomes a Not of `a` and `b`, and that a Not of `a & b` |
| MermaidRounds.PrintingSettles | crates/nfctl-graph/tests/corpus.rs:20-22 | for every valid topology whose labels stay on their lines and none of whose edges leaves a vertex named `subgraph`: every round gives the redrawn topology, and after rounds enough for each condition every further one gives back exactly what was printed |
| MermaidGroups.GroupIsRead | crates/nfctl-graph/src/mermaid_in.rs:91-130 | a subgraph with its nodes and links is parsed to exactly those, in its own group, and is closed again |
| MermaidGroups.GroupIsBuilt | crates/nfctl-graph/src/mermaid_in.rs:158-201 | among any groups with ids of their own, one group's topology has its own nodes and its own undotted links and nothing of the others |
| MermaidGroups.GroupsComeBack | crates/nfctl-graph/src/mermaid_in.rs:45-50 | whatever the comments and indents, a text of subgraphs is imported as exactly the topologies inside them, each redrawn, in order and under their labels; statements outside them that join no two nodes of one group leave no trace |
| MermaidGroups.TitleIsId | crates/nfctl-graph/src/mermaid_in.rs:217-225 | a subgraph that has only a title, quoted or bare, has it for its id, too |
| MermaidGroupText.TextComesBack | crates/nfctl-graph/src/mermaid_in.rs:45-50 | the same of the text itself, one statement to a line behind any blanks, with percent signs allowed in the quoted labels |
| MermaidGroupText.CrossLinkIsStray | crates/nfctl-graph/src/mermaid_in.rs:46-47 | a link from one group to another is such a statement |
| MermaidGroupText.ExternalLinkIsStray | crates/nfctl-graph/src/mermaid_in.rs:46-47 | so is a link to or from an external node declared in place |
| MermaidGroupText.ClustersComeBack | crates/nfctl-graph/src/mermaid_in.rs:317-338 | clusters named as in the sample, by a prefix to each topology, satisfy all this; every vertex comes back and every edge that is not lossy |
| MermaidGroupText.GroupAsPrinted | crates/nfctl-graph/src/mermaid.rs:33-37 | with the printer's ids a group comes back as the topology printed alone does |
| MermaidReading.RefusedByItsHead | crates/nfctl-graph/src/mermaid_in.rs:79-90 | a text is refused as no flowchart if and only if its first statement begins with a word other than `graph` and `flowchart` |
| MermaidReading.OthersAreDropped | crates/nfctl-graph/src/mermaid_in.rs:274-282 | whatever is no letter, digit, dash, underscore or blank is dropped from a label |
| MermaidReading.EndsAreStripped | crates/nfctl-graph/src/mermaid_in.rs:283-288 | dashes, underscores and blanks at the ends of a label are stripped |
| MermaidReading.LabelIsSpelled | crates/nfctl-graph/src/mermaid_in.rs:274-282 | the rest is spelled letter for letter in lower case, with a dash for every underscore and blank |
| MermaidReading.FirstLinkCounts | crates/nfctl-graph/src/mermaid_in.rs:178-197 | there is an edge for a pair if and only if some undotted link joins it, and the edge carries the label of the first one |
| MermaidReading.LinksAreOnce | crates/nfctl-graph/src/mermaid_in.rs:187-189 | no two edges share their ends |
| Shards.NatString | crates/nfctl-graph/src/view.rs:72 | the digits written for an index read back as that index |
| Shards.LastDash | crates/nfctl-graph/src/view.rs:83 | the last dash and no other |
| Shards.ShardSplitExact | crates/nfctl-graph/src/view.rs:82-87 | a name splits if and only if it is a non-empty stem, a dash and digits of a value within 32 bits, and then into that stem and that value |
| ShardTags.TagsAreStarred | crates/nfctl-graph/src/view.rs:68-80 | a tag that ends in a dash and the shard's own index in decimal has that ending replaced by `-*`; every other tag is kept |
| ShardTags.OwnIndexIsStarred | crates/nfctl-graph/src/view.rs:68-80 | for shard 2 `route-2` becomes `route-*`, `route-12` and `2` stay |
| ViewGraphs.BuildNodes | crates/nfctl-graph/src/view.rs:157-177 | one node per home (own name or accepted stem), in the order homes are first met, and a placement that agrees with the members |
| ViewGraphs.BuildEdges | crates/nfctl-graph/src/view.rs:178-208 | one view edge per route, in the order routes are first taken, listing exactly the edges that take it and lossy if and only if one of them discards |
| Collapse.Build | crates/nfctl-graph/src/view.rs:153-210 | nodes and edges together are the quotient by the accepted groups: every vertex is in exactly one node, and every view edge stands for edges between members of the nodes it joins |
| Collapse.EachVertexOnce | crates/nfctl-graph/src/view.rs:157-177 | a name is in exactly one node if it is a vertex and in none otherwise |
| Collapse.DroppedIffInside | crates/nfctl-graph/src/view.rs:189-191 | an edge is dropped if and only if it joins two different vertices of one node |
| Collapse.EachEdgeOnce | crates/nfctl-graph/src/view.rs:178-208 | every other edge is listed exactly once, in one view edge, between the nodes of its ends; a dropped one is listed nowhere |
| Collapse.Expanded | crates/nfctl-graph/src/view.rs:92-94 | expanding is the quotient by no group |
| Collapse.ExpandedNodes | crates/nfctl-graph/src/view.rs:90-94 | one node per vertex, in spec order, with its own kind and partitions |
| Collapse.ExpandedEdges | crates/nfctl-tui/src/panels/detail.rs:581-590 | one view edge per topology edge, in the same order, with its own tags and lossiness, which the edge table zips on |
| ShardGroups.ByStem | crates/nfctl-graph/src/view.rs:100-106 | the candidates of every stem in spec order |
| ShardGroups.MembersAscend | crates/nfctl-graph/src/view.rs:143 | members ascend by shard index |
| ShardGroups.Accept | crates/nfctl-graph/src/view.rs:135-146 | a stem is accepted if and only if it has two or more vertices and all of them have one signature, with its members in order of index |
| ShardGroups.Collapsed | crates/nfctl-graph/src/view.rs:99-151 | exactly the stems with two or more vertices of one signature are accepted, and the view is the quotient by them |
| ShardGroups.MembersAlike | crates/nfctl-graph/src/view.rs:96-97 | all members of a group share kind, partitions and both neighbourhoods, and the node shows that kind and those partitions |
| ShardGroups.AllOrNothing | crates/nfctl-graph/src/view.rs:136-146 | the vertices of one stem share one node, or each has its own |
| ShardGroups.CollapsedStandsForAll | crates/nfctl-graph/src/view.rs:96-151 | between a vertex that is neither a candidate nor named like a candidate stem and a group, in either direction: no edge at all, or exactly one view edge whose members are exactly one edge per member of the group |
| ShardGroups.StandsForAllExact | crates/nfctl-graph/src/view.rs:96-151 | between any vertex alone in its node and a group, in either direction: no edge at all, or exactly one view edge with exactly one edge per member, if and only if the edges between the vertex and the members carry the same tags, shard indices aside |
| ShardGroups.NamesakeStandsForOne | crates/nfctl-graph/src/view.rs:108-116 | a pair collapses though `s` feeds one of it and `s-0`, with a sibling `s-1`, the other: both go by the stem `s` in the signatures, so the edge from `s` stands for one shard |
| ShardGroups.GroupsJoinTotally | crates/nfctl-graph/src/view.rs:96-151 | when no vertex is named like either stem, one edge from a group into another means that every member of the first has one into the second and every member of the second has one from the first |
| ShardTags.CollapsesExactly | crates/nfctl-graph/src/view.rs:96-146 | a stem collapses if and only if two or more vertices have it and any two agree in kind, partitions and, each way, in their edges: to the same neighbours, shards by their stem, tagged alike when each shard's own index is starred |
| ShardTags.FanCollapses | crates/nfctl-graph/src/view.rs:66-80 | two or more shards of one stem, kind and partitions, each with one edge from `x` tagged `r-<own index>` and no other, collapse |
| ShardTags.FanIsOneEdge | crates/nfctl-graph/src/view.rs:96-151 | their node is titled with their stem and number, and the one view edge from `x` is tagged `r-*` and stands for exactly one edge to each |
| ShardTags.RoutedWorkersFan | crates/nfctl-graph/src/view.rs:66-80 | `worker-0` and `worker-1`, fed by `in` with `route-0` and `route-1`, are such shards |
| EdgeCanvas.Canvas.constructor | crates/nfctl-tui/src/cards.rs:286-301 | a blank canvas |
| EdgeCanvas.Canvas.IndexIsPosition | crates/nfctl-tui/src/cards.rs:303-309 | positions inside the canvas and cells correspond one to one |
| EdgeCanvas.Canvas.Set | crates/nfctl-tui/src/cards.rs:311-327 | the one cell at the position is painted and every other stays |
| EdgeCanvas.Canvas.HLine | crates/nfctl-tui/src/cards.rs:339-345 | a level line adds its stroke to every cell it covers, in or out of the canvas |
| EdgeCanvas.Canvas.VLine | crates/nfctl-tui/src/cards.rs:347-353 | an upright line likewise, with its length as reach |
| EdgeCanvas.Canvas.Path | crates/nfctl-tui/src/cards.rs:356-366 | the path adds exactly the strokes between its corner points, for its edge |
| EdgeCanvas.Canvas.Head | crates/nfctl-tui/src/cards.rs:329-337 | the first heading at a cell stays; a second colour mixes; other cells stay |
| EdgeCanvas.Canvas.BridgeCell | crates/nfctl-tui/src/cards.rs:378-411 | one cell's turn changes at most it and its two neighbours in the row |
| EdgeCanvas.Canvas.Bridge | crates/nfctl-tui/src/cards.rs:374-413 | only the overlay changes; in the end every cell carries the vertical at a bridged crossing, a cut beside one, or what it had, whatever order cells are visited in |
| CanvasLaws.BitsMeanStrokes | docs/rendering.md:38-41 | after any strokes a cell has a side if and only if some stroke covers it and its neighbour on that side |
| CanvasLaws.NeighboursAgree | docs/rendering.md:38-41 | right of a cell is left of the next, and down of a cell is up of the one below |
| CanvasLaws.RunMeansEdge | crates/nfctl-tui/src/cards.rs:277-279 | an edge's entry in a cell is what that edge alone would have painted there |
| CanvasLaws.BitsAreRuns | crates/nfctl-tui/src/cards.rs:313-325 | a cell's bits are the union of its runs, and no edge has two |
| CanvasLaws.InkMeansColours | crates/nfctl-tui/src/cards.rs:314-318 | unset, one colour or mixed says which colours cover the cell |
| CanvasLaws.MixedHasTwo | crates/nfctl-tui/src/cards.rs:314-318 | a mixed cell is covered by two strokes of different colours |
| CanvasLaws.TurnIsLongest | crates/nfctl-tui/src/cards.rs:271-274 | the turn of a cell is the colour of a longest upright stroke that turns there |
| CanvasLaws.OrderIrrelevant | docs/rendering.md:38-41 | bits and ink do not depend on the order of the strokes |
| CanvasLaws.RoutesInAnyOrder | docs/rendering.md:38-41 | two canvases painted with the same routes in different orders agree on cells and ink |
| CanvasOrder.CrossesInAnyOrder | crates/nfctl-tui/src/cards.rs:374-393 | whether a cell is a crossing to bridge is the same for every order of the routes if and only if all pairs of an edge straight across and one straight down in it are one line, or none is |
| CanvasOrder.OrderDecidesBridge | crates/nfctl-tui/src/cards.rs:378-393 | two edges along one row and one down through both, where the order of the first two decides the bridge |
| CanvasOrder.TurnInAnyOrder | crates/nfctl-tui/src/cards.rs:319-321 | the colour a bridge takes is the same for every order of the routes if and only if all longest upright strokes that turn in the cell have one colour |
| CanvasOrder.OverlayInAnyOrder | crates/nfctl-tui/src/cards.rs:374-413 | where both hold in every cell, two canvases given the same routes in different orders are bridged alike |
| CanvasLaws.BridgedByTwo | crates/nfctl-tui/src/cards.rs:368-393 | a bridged cell is crossed by two different edges, one alone straight across and one alone straight down, that are unrelated or of different colour |
| CanvasLaws.BridgesKeepCuts | crates/nfctl-tui/src/cards.rs:394-411 | no bridge is overwritten by a neighbour's cut; where the run beside it was to be cut, on the left or on the right in the same row, the overlay has the cut, and one side at least was |
| CanvasLaws.CutsBesideBridges | crates/nfctl-tui/src/cards.rs:400-411 | cuts appear only on plain level runs beside a bridge in the same row |
| Badges.BadgeRows | crates/nfctl-tui/src/cards.rs:212-230 | the loop over `start` and `used` comes to `Packed`, nothing for no labels or no width |
| Badges.PackedIsLeast | crates/nfctl-tui/src/cards.rs:207-230 | whatever the labels, the rows are consecutive non-empty ranges that cover them all, and no split into rows that fit has fewer |
| Badges.FitsExactly | crates/nfctl-tui/src/cards.rs:207-230 | the rows fit at every width, with single-space gaps or as a row of one label, if and only if empty labels come only at the end, two at most |
| Badges.EmptyLabelOverflows | crates/nfctl-tui/src/cards.rs:220-226 | an empty label at the start of a row leaves out its gap: with `["", "reading-sensors"]` in the 15 columns of the narrowest card the one row is 16 wide |
| Badges.GreedyIsLeast | crates/nfctl-tui/src/cards.rs:207-210 | a split whose rows could not take one more label has the fewest rows |
| TableColumns.Fit | crates/nfctl-tui/src/table.rs:8-27 | each column as wide as its widest cell, at most 16 bits, the last one a minimum |
| TableColumns.WidestMeans | crates/nfctl-tui/src/table.rs:10-15 | a fitted width holds every cell of its column and is one of them |
| TableColumns.Fill | crates/nfctl-tui/src/table.rs:31-62 | the loop over `grow` with its running total comes to `Filled`, or to nothing where 16-bit arithmetic over- or underflows |
| TableColumns.FillIsExact | crates/nfctl-tui/src/table.rs:29-30 | whatever columns grow, no column shrinks, the others keep their width, and with the last one in range the total is exactly the larger of `width` and the fitted width; for distinct growing columns it succeeds if and only if the fitted width and the products of the shares fit 16 bits (so `leftover - given` never underflows), and each but the last gets its proportional share |
| TableColumns.WideColumnOverflows | crates/nfctl-tui/src/table.rs:52-58 | the edge table with a first column of 130 in 700 columns: the product of its share leaves 16 bits |
| TableColumns.NextShare | crates/nfctl-tui/src/table.rs:52-58 | rounding every share down never hands out more than there is |
| LogView.LogsPanel.ScrollBy | crates/nfctl-tui/src/panels/logs.rs:41-46 | for any page size, in absolute line numbers the top line moves by `delta`, stops at the oldest held line and follows again at the last page |
| LogView.LogsPanel.Receive | crates/nfctl-tui/src/panels/logs.rs:59-68 | the panel holds the last 5000 lines received, and a pinned view stays on its line unless that line is dropped |
| LogView.LogsPanel.Update | crates/nfctl-tui/src/panels/logs.rs:57-106 | every event and key changes the absolute view as `Seen` says, and asks for the right action |
| LogView.AlwaysGood | crates/nfctl-tui/src/panels/logs.rs:22-23 | over any run a pinned view is on a held line that is not the last, and every line received is accounted for |
| LogView.TopLine | crates/nfctl-tui/src/panels/logs.rs:22-23 | the line shown at the top is the line the view is pinned to |
| LogView.PinStaysPut | crates/nfctl-tui/src/panels/logs.rs:59-68 | between key presses a pinned view stays put until its line is dropped, then shows the oldest held line |
| LogView.UpAndDown | crates/nfctl-tui/src/panels/logs.rs:41-46 | scrolling up and down by the same amount changes nothing if and only if the view was following or the oldest line did not stop it |
| RollingRestart.Cluster.List | crates/nfctl-core/src/service/lifecycle.rs:190 | a listing takes the cluster's own moves, adds them and the pods of that instant to the log, and ends the deletion of a pod it no longer shows |
| RollingRestart.Cluster.Delete | crates/nfctl-core/src/service/lifecycle.rs:183 | a deletion takes the cluster's own moves and then dooms the pod it names and is logged; a dry run does neither |
| RollingRestart.OneDoomed | crates/nfctl-core/src/service/lifecycle.rs:160-165 | with distinct names one deletion costs at most one running pod |
| RollingRestart.AwaitRecovery | crates/nfctl-core/src/service/lifecycle.rs:188-200 | world, log and answer after the polling loop are what `Awaited` says; the log only grows |
| RollingRestart.AwaitedKeeps | crates/nfctl-core/src/service/lifecycle.rs:188-200 | polling keeps the log orderly however it ends, and ends well only with the deleted pod seen gone, the target running and nothing pending |
| RollEnding.WaitEndsWell | crates/nfctl-core/src/service/lifecycle.rs:188-200 | a wait ends well if and only if some listing before the first call that fails shows the pod gone and the target running; otherwise its error is that call's, or a timeout when the cluster answers no more |
| RollingRestart.RollOne | crates/nfctl-core/src/service/lifecycle.rs:182-201 | world, log and answer after one pod's turn are what `RolledOne` says |
| RollingRestart.Roll | crates/nfctl-core/src/service/lifecycle.rs:181-202 | world, log and answer after the loop over the pods are what `Rolled` says; the names come back on success alone |
| RollingRestart.RollKeeps | crates/nfctl-core/src/service/lifecycle.rs:181-202 | a roll is orderly however it ends; its deletions are a prefix of the given pods, and all of them, none pending and the target running, when it ends well |
| RollingRestart.Restart | crates/nfctl-core/src/service/lifecycle.rs:171-203 | world, log and answer of the whole call are what `Restarted` says: one listing, then the roll over its names in order; the log grows by exactly the instants of the run |
| RollingRestart.RestartIsOrderly | crates/nfctl-core/src/service/lifecycle.rs:167-203 | against any cluster that on its own never lowers the number of other running pods: the log of the run is that of the opening list, which deletes nothing, and a rest that is orderly for the number running in that list; its deletions are a prefix of the listed names in ascending order, all of them with none pending on success, and none in a dry run |
| RollEnding.RestartEnds | crates/nfctl-core/src/service/lifecycle.rs:171-203 | the answer is the sorted names if and only if the opening list and every deletion are answered and every wait so ends well, and otherwise the first failure |
| RollEnding.SecondPollSees | crates/nfctl-core/src/service/lifecycle.rs:189-197 | a pod still shown at the first poll and replaced at the second is waited for |
| RollingRestart.OrderlyCounts | crates/nfctl-core/src/service/lifecycle.rs:167-170 | in an orderly log at least target minus one run at every instant and at least the target at every deletion |
| RollingRestart.OrderlyReplaces | crates/nfctl-core/src/service/lifecycle.rs:167-170 | in an orderly log every deleted pod is seen gone, with the target running, before the next deletion, and before the end if none is pending |
| RollingRestart.SortMeans | crates/nfctl-core/src/service/lifecycle.rs:179 | sorting gives the same pods in ascending order of name |
| BufferFusion.OwnerIsLongest | crates/nfctl-daemon/src/client.rs:249-256 | the owner of a buffer is the longest vertex name that ends its stem, and there is none only when no name does |
| BufferFusion.OrderDoesNotMatter | crates/nfctl-daemon/src/client.rs:250-256 | the owner does not depend on the order of the vertices |
| BufferFusion.TrueOwner | crates/nfctl-daemon/src/client.rs:248-256 | a buffer named by convention is given to its true owner if and only if no longer vertex name ends the part before the partition |
| BufferFusion.LongerNameTakesIt | crates/nfctl-daemon/src/client.rs:248-256 | `isb-p-cat-0` goes to a vertex `p-cat` and not to `cat` |
| BufferFusion.SortedHas | crates/nfctl-daemon/src/dto.rs:248-249 | sorting and removing repeats keeps every source and adds none |
| BufferFusion.SortedAscends | crates/nfctl-daemon/src/dto.rs:248-249 | the sources ascend, each once |
| BufferFusion.MatchIsOwner | crates/nfctl-core/src/service/status.rs:286-290 | a buffer matches an edge by source and target if and only if the edge's target owns it, or nobody does and the edge is a loop on a vertex named `unknown` |
| BufferFusion.EdgeShowsItsBuffers | crates/nfctl-core/src/service/status.rs:280-296 | every edge is shown with exactly its target's buffers, in the daemon's order |
| BufferFusion.DrainedMeans | crates/nfctl-core/src/service/status.rs:112-122 | the view's verdict is about the shown buffers: none shown, all empty, or some not |
| BufferFusion.VerdictsAgree | crates/nfctl-core/src/service/lifecycle.rs:76-82 | the view and a pause give one verdict if and only if the list cannot be read, is empty, or some buffer is shown and the hidden ones would not change the answer |
| BufferFusion.HiddenBufferDisagrees | crates/nfctl-core/src/service/status.rs:110-122 | messages left in the buffer of a vertex that is gone make the two verdicts differ |
| BufferFusion.OwnedVerdictsAgree | crates/nfctl-core/src/service/status.rs:110-122 | they always agree when every buffer's owner has an incoming edge |
| BufferFusion.TotalIsWhole | crates/nfctl-core/src/service/status.rs:64-74 | there is a total if and only if every count is known and non-negative and the sum fits 64 bits, and then it is the sum |

## Left out

- Kubernetes, HTTP, TLS, port-forwarding, retries and the caches around them; only what they answer is a parameter.
- Async scheduling, sleeps and real timeouts: a timeout is an answer of the environment, and a call with no answer left in the script ends in one.
- Overflow of 32-bit node ids and signed coordinates, and of machine-word counts and ranks.
- `Topology::diff`, DOT output, `view_to_mermaid` (collapsed node ids are not injective in general), the layout and routing crate, and the widgets and panels around the modelled state.
- `Canvas::glyph` and the drawing of text lines, the MonoVertex card, and the colours given to edges.
- Named containers are checked against existing pods before following; that check is a single membership test.
- Buffer usage, watermarks, health and vertex metrics in the fused view: copied, not computed.
- MermaidRoundTrip.RoundTrip: does not say what else comes back when a label holds a newline or `%%`; that the topology does not is part of `RoundTripExact`, which is stated for every label.
- MermaidRoundTrip.FlowchartIsRead: like `RoundTrip`, for labels that stay on their lines.
- MermaidGroups.GroupsComeBack: for subgraphs side by side, each holding its nodes and then its links, with whatever else the text says after them; a subgraph inside another is parsed by the same stack but no law is about it.
- TableColumns.FillIsExact: success and proportion are stated for distinct growing columns, because a repeated column's second share is taken of its grown width; its one caller names each column once.
- TableColumns.Fit: cell texts are given by their display widths.
- Collapse.Build: the closure that names a vertex's group is the map of accepted groups.
- RollingRestart.Cluster.Turn: a cluster that loses other pods on its own is outside the model (such a move does not happen), because then no pace of deletion keeps the count.
