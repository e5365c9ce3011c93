/**
 * The "View Crate Graph" feature: select the workspace crates of the crate
 * graph, and present them, with the dependency edges between them, to the
 * DOT writer through its graph-walk (`nodes`, `edges`, `source`, `target`)
 * and labeller (`graph_id`, `node_id`) interfaces.
 *
 * Hash-map and hash-set iteration order is unspecified, so every walk that
 * iterates one takes that order as a parameter: a sequence that lists each
 * element exactly once. Nothing below depends on which order it is, except
 * the order of the output sequences themselves.
 */
module CrateGraphView {
  import opened Wrappers
  import opened BaseDb
  import opened Decimal

  /** `order` lists every element of `s` exactly once, and nothing else. */
  predicate Enumerates(order: seq<CrateId>, s: set<CrateId>) {
    && (forall i, j :: 0 <= i < j < |order| ==> order[i] != order[j])
    && (forall k :: k in order ==> k in s)
    && (forall k :: k in s ==> k in order)
  }

  /** A set is enumerated by a sequence as long as the set is large. */
  lemma {:induction false} EnumerationLength(order: seq<CrateId>, s: set<CrateId>)
    requires Enumerates(order, s)
    ensures |order| == |s|
    decreases |order|
  {
    if order == [] {
      assert s == {};
    } else {
      var head := order[0];
      var tail := order[1..];
      var rest := s - {head};
      forall i, j | 0 <= i < j < |tail| ensures tail[i] != tail[j] {
        assert tail[i] == order[i + 1] && tail[j] == order[j + 1];
      }
      forall k | k in tail ensures k in rest {
        var j :| 0 <= j < |tail| && tail[j] == k;
        assert order[j + 1] == k;
      }
      forall k | k in rest ensures k in tail {
        assert k in order;
        var j :| 0 <= j < |order| && order[j] == k;
        assert tail[j - 1] == k;
      }
      EnumerationLength(tail, rest);
    }
  }

  // ----------------------------------------------------------------------
  // Workspace crate selection
  // ----------------------------------------------------------------------

  /** The filter closure: the crate's root file lies in a source root that is not a library root. */
  predicate IsWorkspaceCrate(db: Database, krate: CrateId)
    requires krate in db.crateGraph
  {
    var rootId := db.fileSourceRoot(db.crateGraph[krate].rootFileId);
    !db.sourceRoot(rootId).isLibrary
  }

  /** `ids.filter(is workspace crate).collect()` into a set. */
  function CollectWorkspaceCrates(db: Database, ids: seq<CrateId>): (r: set<CrateId>)
    requires forall k :: k in ids ==> k in db.crateGraph
    ensures forall k :: k in r <==> k in ids && IsWorkspaceCrate(db, k)
    decreases |ids|
  {
    if ids == [] then {}
    else
      var rest := CollectWorkspaceCrates(db, ids[1..]);
      if IsWorkspaceCrate(db, ids[0]) then {ids[0]} + rest else rest
  }

  /** The graph handed to the DOT writer: the whole crate graph and the crates to render. */
  datatype DotCrateGraph = DotCrateGraph(graph: CrateGraph, cratesToRender: set<CrateId>) {
    /** Every crate to render is a crate of the graph, so looking it up cannot fail. */
    predicate Valid() {
      forall k :: k in cratesToRender ==> k in graph
    }
  }

  /**
   * `view_crate_graph` up to the point where the graph is serialised.
   * `ids` is the crate graph's iteration order.
   */
  function ViewCrateGraph(db: Database, ids: seq<CrateId>): (dg: DotCrateGraph)
    requires Enumerates(ids, db.crateGraph.Keys)
    ensures dg.graph == db.crateGraph
    ensures dg.Valid()
    ensures forall k :: k in dg.cratesToRender <==> k in db.crateGraph && IsWorkspaceCrate(db, k)
  {
    DotCrateGraph(db.crateGraph, CollectWorkspaceCrates(db, ids))
  }

  // ----------------------------------------------------------------------
  // Graph walk
  // ----------------------------------------------------------------------

  /** An edge is the depending crate together with one of its dependency records. */
  type Edge = (CrateId, Dependency)

  /** `nodes()`: the crates to render, copied out in the set's iteration order `order`. */
  function Nodes(dg: DotCrateGraph, order: seq<CrateId>): (r: seq<CrateId>)
    requires Enumerates(order, dg.cratesToRender)
    ensures |r| == |dg.cratesToRender|
    ensures forall k :: k in r <==> k in dg.cratesToRender
    ensures forall i, j :: 0 <= i < j < |r| ==> r[i] != r[j]
  {
    EnumerationLength(order, dg.cratesToRender);
    order
  }

  /** The edges that one crate `krate` contributes: its dependencies that are rendered, paired with it. */
  function DependencyEdges(krate: CrateId, deps: seq<Dependency>, render: set<CrateId>): (r: seq<Edge>)
    ensures |r| <= |deps|
    ensures forall e :: e in r ==> e.0 == krate && e.1 in deps && e.1.crateId in render
    ensures forall d :: d in deps && d.crateId in render ==> (krate, d) in r
    decreases |deps|
  {
    if deps == [] then []
    else
      var rest := DependencyEdges(krate, deps[1..], render);
      if deps[0].crateId in render then [(krate, deps[0])] + rest else rest
  }

  /** The `flat_map` of `edges()` over the crates `ks`, in that order. */
  function FlatMapEdges(dg: DotCrateGraph, ks: seq<CrateId>): (r: seq<Edge>)
    requires dg.Valid()
    requires forall k :: k in ks ==> k in dg.cratesToRender
    ensures forall e :: e in r ==>
      && e.0 in ks
      && e.1 in dg.graph[e.0].dependencies
      && e.1.crateId in dg.cratesToRender
    ensures forall k, d :: k in ks && d in dg.graph[k].dependencies && d.crateId in dg.cratesToRender ==> (k, d) in r
    decreases |ks|
  {
    if ks == [] then []
    else
      DependencyEdges(ks[0], dg.graph[ks[0]].dependencies, dg.cratesToRender) + FlatMapEdges(dg, ks[1..])
  }

  /**
   * `edges()`: for each crate to render, in the set's iteration order `order`,
   * its dependency records whose target is also rendered.
   */
  function Edges(dg: DotCrateGraph, order: seq<CrateId>): (r: seq<Edge>)
    requires dg.Valid()
    requires Enumerates(order, dg.cratesToRender)
    ensures forall e :: e in r ==>
      && e.0 in dg.cratesToRender
      && e.1 in dg.graph[e.0].dependencies
      && e.1.crateId in dg.cratesToRender
    ensures forall k, d :: k in dg.cratesToRender && d in dg.graph[k].dependencies && d.crateId in dg.cratesToRender ==> (k, d) in r
  {
    FlatMapEdges(dg, order)
  }

  /** `source(edge)`: the depending crate. */
  function Source(e: Edge): CrateId {
    e.0
  }

  /** `target(edge)`: the crate depended on. */
  function Target(e: Edge): CrateId {
    e.1.crateId
  }

  /** The edges of `edges` whose source is `krate`, in their order. */
  function EdgesFrom(edges: seq<Edge>, krate: CrateId): seq<Edge>
    decreases |edges|
  {
    if edges == [] then []
    else (if Source(edges[0]) == krate then [edges[0]] else []) + EdgesFrom(edges[1..], krate)
  }

  // ----------------------------------------------------------------------
  // Labelling
  // ----------------------------------------------------------------------

  const CrateGraphId: string := "rust_analyzer_crate_graph"

  /** The placeholder used when a crate has no display name. */
  const MissingName: string := "_missing_name_"

  predicate IsIdChar(c: char) {
    'a' <= c <= 'z' || 'A' <= c <= 'Z' || IsDigit(c) || c == '_'
  }

  /**
   * A plain (unquoted) DOT identifier, restricted to ASCII: letters, digits
   * and underscores, not starting with a digit. This is the rule the model
   * assumes `dot::Id::new` applies.
   */
  predicate IsPlainId(s: string) {
    |s| > 0 && !IsDigit(s[0]) && forall i :: 0 <= i < |s| ==> IsIdChar(s[i])
  }

  /** `graph_id()`: one fixed name, whatever the graph holds, and one that `Id::new` accepts. */
  function GraphId(dg: DotCrateGraph): (r: string)
    ensures r == CrateGraphId
    ensures IsPlainId(r)
  {
    CrateGraphId
  }

  /** The crate's display name, or the placeholder when it has none. */
  function DisplayLabel(data: CrateData): string {
    data.displayName.GetOr(MissingName)
  }

  /** `node_id(n)`: `<display name or placeholder>_<decimal id>`. */
  function NodeId(dg: DotCrateGraph, n: CrateId): (r: string)
    requires n in dg.graph
    ensures |r| > |DisplayLabel(dg.graph[n])|
    ensures IsPlainId(DisplayLabel(dg.graph[n])) ==> IsPlainId(r)
  {
    DisplayLabel(dg.graph[n]) + "_" + ToDecimal(n)
  }

  /** The last position of `c` in `s`, if any. */
  function LastIndexOf(s: string, c: char): (r: Option<nat>)
    ensures r.Some? ==> r.value < |s| && s[r.value] == c && forall j :: r.value < j < |s| ==> s[j] != c
    ensures r.None? ==> forall j :: 0 <= j < |s| ==> s[j] != c
    decreases |s|
  {
    if s == [] then None
    else if s[|s| - 1] == c then Some(|s| - 1)
    else LastIndexOf(s[..|s| - 1], c)
  }

  /** Recovers the crate id from a node id: the decimal number after its last underscore. */
  function ParseNodeId(s: string): Option<CrateId> {
    match LastIndexOf(s, '_')
    case None => None
    case Some(i) =>
      var digits := s[i + 1..];
      if |digits| > 0 && AllDigits(digits) then Some(FromDecimal(digits)) else None
  }
}
