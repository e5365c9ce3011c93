# View Crate Graph — a Dafny model

rust-analyzer's "View Crate Graph" feature draws the crate graph of the loaded
workspace. It works in three steps:

1. It selects the workspace crates. A crate is kept when its root file's source
   root is not a library root, so crates.io dependencies and sysroot crates are
   dropped.
2. It presents the selected crates to the DOT writer as a graph. The nodes are
   the selected crates. The edges are the dependency records between two
   selected crates.
3. It labels the graph with a fixed graph id and each node with
   `<display name>_<crate id>`. A crate without a display name uses the
   placeholder `_missing_name_`.

This project models steps 1 to 3 as pure functions and proves what they
guarantee:

- the selection is exact;
- no edge dangles, and no edge is missing;
- each crate's edges are its own dependency list, filtered, in stored order;
- node ids are never empty and never collide.

Files:

- `wrappers.dfy`: the `Option` type.
- `base_db.dfy`: crate ids, dependency records, crate data, the crate graph
  and the two database lookups.
- `decimal.dfy`: the decimal rendering of a crate id, and its inverse.
- `view_crate_graph.dfy`: the selection, the graph walk and the labeller.
- `view_crate_graph_properties.dfy`: the lemmas about them.

Hash-map and hash-set iteration order is unspecified. So each function that
iterates one takes the order as a parameter: a sequence that lists each element
exactly once (`Enumerates`). Examples are the crate graph's `iter()` and the
`crates_to_render` set in `nodes()` and `edges()`. No sorting is added.

The two database queries, `file_source_root` and `source_root(..)`, are total
function fields of `BaseDb.Database`. The crate graph is an immutable
`map<CrateId, CrateData>`.

## Model

| member | source | states |
|---|---|---|
| `CrateGraphView.CollectWorkspaceCrates` | crates/ide/src/view_crate_graph.rs:29-36 | a crate is collected exactly when it is among the iterated ids and its root file's source root is not a library root |
| `CrateGraphView.ViewCrateGraph` | crates/ide/src/view_crate_graph.rs:27-37 | the graph handed to the DOT writer keeps the whole crate graph, and a crate is in `crates_to_render` exactly when it is a crate of the graph whose source root is not a library root; every such crate can be looked up |
| `CrateGraphViewProperties.SelectionIndependentOfOrder` | crates/ide/src/view_crate_graph.rs:29-36 | the selected set is the same whatever order the crate graph is iterated in |
| `CrateGraphView.EnumerationLength` | crates/ide/src/view_crate_graph.rs:68-70 | iterating a set yields exactly as many elements as the set has |
| `CrateGraphView.Nodes` | crates/ide/src/view_crate_graph.rs:68-70 | `nodes()` lists every crate to render exactly once and nothing else, so it has the set's size |
| `CrateGraphView.DependencyEdges` | crates/ide/src/view_crate_graph.rs:75-81 | one crate's edges all have that crate as source and one of its own dependency records whose target is rendered; every such record gives an edge; there are no more edges than records |
| `CrateGraphView.FlatMapEdges` | crates/ide/src/view_crate_graph.rs:73-82 | over a list of rendered crates, every edge comes from a listed crate along one of its dependency records to a rendered crate, and every such pair is an edge |
| `CrateGraphView.Edges` | crates/ide/src/view_crate_graph.rs:72-83 | no dangling edges: both ends of every edge are rendered and the edge is a dependency record of its source; completeness: every dependency record between two rendered crates is an edge |
| `CrateGraphViewProperties.EdgeMembership` | crates/ide/src/view_crate_graph.rs:72-83 | a pair is an edge if and only if its source is rendered, it is one of the source's dependency records and its target is rendered |
| `CrateGraphViewProperties.EdgeEndpoints` | crates/ide/src/view_crate_graph.rs:85-91 | for every edge, `source` is a node, `target` is a node, and the edge's record is among the source's dependencies |
| `CrateGraphViewProperties.DependencyEdgesAppend` | crates/ide/src/view_crate_graph.rs:76-80 | the filter keeps stored order: the edges of a concatenated dependency list are the edges of the first part followed by those of the second |
| `CrateGraphViewProperties.DependencyEdgesSingle` | crates/ide/src/view_crate_graph.rs:79-80 | a single dependency record gives the edge `(crate, record)` exactly when its target is rendered, and nothing otherwise |
| `CrateGraphViewProperties.EdgesFromAppend` | crates/ide/src/view_crate_graph.rs:73-82 | picking the edges of one source out of a concatenation picks them out of each part, in order |
| `CrateGraphViewProperties.EdgesFromDependencyEdges` | crates/ide/src/view_crate_graph.rs:80 | all edges one crate contributes have that crate as source |
| `CrateGraphViewProperties.EdgesFromFlatMap` | crates/ide/src/view_crate_graph.rs:73-82 | over a list that names each crate once, the edges with source `k` are exactly `k`'s filtered dependency edges when `k` is listed, and none otherwise |
| `CrateGraphViewProperties.EdgesOfCrate` | crates/ide/src/view_crate_graph.rs:73-82 | for every crate, the emitted edges with it as source are exactly its own dependency list filtered by membership, in stored order; a crate that is not rendered has none |
| `CrateGraphViewProperties.RenderedGraphIsWorkspaceOnly` | crates/ide/src/view_crate_graph.rs:27-92 | every node is a workspace crate; both ends of every edge are nodes and workspace crates; no library crate appears |
| `CrateGraphViewProperties.ThreeCrateExample` | crates/ide/src/view_crate_graph.rs:29-83 | when workspace crate 0 depends on workspace crate 1 and on library crate 2, there are exactly two nodes and exactly the one edge from 0 to 1, in every iteration order |
| `CrateGraphView.GraphId` | crates/ide/src/view_crate_graph.rs:95-97 | the graph id is `rust_analyzer_crate_graph` whatever the graph holds, and it is a plain DOT identifier |
| `CrateGraphView.NodeId` | crates/ide/src/view_crate_graph.rs:99-102 | a node id is longer than the crate's label, so it is never empty; when the label is a plain DOT identifier, so is the node id |
| `CrateGraphViewProperties.NodeIdParses` | crates/ide/src/view_crate_graph.rs:99-101 | the crate id is recovered from a node id as the decimal after its last underscore, whatever the display name contains |
| `CrateGraphViewProperties.NodeIdsInjective` | crates/ide/src/view_crate_graph.rs:99-101 | distinct crates get distinct node ids, even when their display names coincide |
| `CrateGraphViewProperties.NodeIdsDistinct` | crates/ide/src/view_crate_graph.rs:68-70 | within one walk, the node ids of all nodes are pairwise distinct |
| `CrateGraphViewProperties.UnnamedCrateNodeId` | crates/ide/src/view_crate_graph.rs:100-101 | a crate without a display name gets `_missing_name__<id>`, which is a plain DOT identifier |
| `CrateGraphViewProperties.SameNameExample` | crates/ide/src/view_crate_graph.rs:101 | two crates named `util` with ids 3 and 7 get `util_3` and `util_7` |
| `Decimal.ToDecimal` | crates/ide/src/view_crate_graph.rs:101 | a crate id is written as a non-empty string of decimal digits with no leading zero, so id 0 is exactly `0` |
| `Decimal.FromToDecimal` | crates/ide/src/view_crate_graph.rs:101 | reading back the decimal form of a crate id gives that id |
| `Decimal.ToDecimalInjective` | crates/ide/src/view_crate_graph.rs:101 | distinct crate ids have distinct decimal forms |

Some members have no contract of their own and so no row. Each is listed here
with the source lines it models and the lemma that states its property:

- `CrateGraphView.IsWorkspaceCrate` is the filter closure
  (crates/ide/src/view_crate_graph.rs:31-35). Its property is stated by
  `CrateGraphView.CollectWorkspaceCrates`, `CrateGraphView.ViewCrateGraph` and
  `CrateGraphViewProperties.RenderedGraphIsWorkspaceOnly`.
- `CrateGraphView.Source` and `CrateGraphView.Target` are `source` and `target`
  (crates/ide/src/view_crate_graph.rs:85-91). Their property is stated by
  `CrateGraphViewProperties.EdgeEndpoints` and
  `CrateGraphViewProperties.RenderedGraphIsWorkspaceOnly`.
- `CrateGraphView.DotCrateGraph` with its `Valid()` predicate is the struct
  (crates/ide/src/view_crate_graph.rs:60-63). `CrateGraphView.ViewCrateGraph`
  proves that the graph it builds is valid.
- `CrateGraphView.DisplayLabel` is the `map_or` fallback to the placeholder
  (crates/ide/src/view_crate_graph.rs:100). Its property is stated by
  `CrateGraphViewProperties.UnnamedCrateNodeId` and
  `CrateGraphViewProperties.SameNameExample`.

Three more members exist only to state the lemmas and model no source line:
`CrateGraphView.ParseNodeId` (a node-id decoder), `CrateGraphView.LastIndexOf`
(used by the decoder) and `CrateGraphView.EdgesFrom` (a filter of edges by
source). `CrateGraphView.Enumerates` describes an iteration order, and
`Decimal.FromDecimal`, `Decimal.DigitChar` and `Decimal.DigitValue` are helpers
of the decimal form.

## Left out

- `render_svg` (crates/ide/src/view_crate_graph.rs:45-58): it spawns the external `dot -Tsvg` process and pipes data through it. That is process and pipe I/O. Its two error kinds, spawn failure and I/O error, come from the operating system.
- `dot::render` and the DOT text it writes (crates/ide/src/view_crate_graph.rs:39-40): serialisation is done by the foreign `dot` crate, which is not part of this model.
- The `.unwrap()` calls on `dot::Id::new` (crates/ide/src/view_crate_graph.rs:96, 101): the identifier rules of the `dot` crate are not part of this model. `IsPlainId` is the DOT language's unquoted identifier, restricted to ASCII. The model assumes that rule and only proves when it holds. `NodeId` returns the string even when the display name breaks the rule, where the code would panic.
- The database (`RootDatabase`, `SourceDatabase`) and the shared `Arc<CrateGraph>` are replaced by an immutable map and two total lookup functions. A missing crate is only ever looked up by the code for ids it got from the graph. The model's `requires` on that lookup says the same.
- `CrateId` is a `nat`. The source's `u32` bound is not modelled, because the code does no arithmetic on the id.
- The crate data fields that the view does not read are not modelled. These are edition, cfg options, environment and proc macros.
- Hash-set iteration order is not modelled: it is a parameter. So the model claims nothing about determinism or sorting of the output order. The code promises neither.
- Escaping of display names, a concurrent pipe write and read, and timeouts are not in the code and are not modelled.
- src/test/ui/generic-associated-types/bugs/issue-88526.rs and src/test/ui/higher-rank-trait-bounds/issue-88586-hr-self-outlives-in-trait-def.rs are compiler type-checker test inputs with no logic to model.
