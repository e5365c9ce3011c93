/**
 * What the crate-graph view guarantees: exact selection of workspace crates,
 * no dangling edges, complete edge lists kept in stored order, and node ids
 * that identify their crate.
 */
module CrateGraphViewProperties {
  import opened Wrappers
  import opened BaseDb
  import opened Decimal
  import opened CrateGraphView

  // ----------------------------------------------------------------------
  // Selection
  // ----------------------------------------------------------------------

  /** The selected set does not depend on the order in which the crate graph is iterated. */
  lemma SelectionIndependentOfOrder(db: Database, ids1: seq<CrateId>, ids2: seq<CrateId>)
    requires Enumerates(ids1, db.crateGraph.Keys)
    requires Enumerates(ids2, db.crateGraph.Keys)
    ensures ViewCrateGraph(db, ids1) == ViewCrateGraph(db, ids2)
  {
  }

  /**
   * Everything handed to the DOT writer is a workspace crate: every node, and
   * both ends of every edge, which are also nodes. No library crate appears.
   */
  lemma RenderedGraphIsWorkspaceOnly(db: Database, ids: seq<CrateId>, order: seq<CrateId>)
    requires Enumerates(ids, db.crateGraph.Keys)
    requires Enumerates(order, ViewCrateGraph(db, ids).cratesToRender)
    ensures var dg := ViewCrateGraph(db, ids);
      && (forall n :: n in Nodes(dg, order) ==> n in db.crateGraph && IsWorkspaceCrate(db, n))
      && (forall e :: e in Edges(dg, order) ==>
            && Source(e) in Nodes(dg, order)
            && Target(e) in Nodes(dg, order)
            && Target(e) in db.crateGraph && IsWorkspaceCrate(db, Target(e)))
  {
  }

  // ----------------------------------------------------------------------
  // Edges
  // ----------------------------------------------------------------------

  /** No dangling edges: each edge runs from a node to a node, along a dependency of its source. */
  lemma EdgeEndpoints(dg: DotCrateGraph, order: seq<CrateId>, e: Edge)
    requires dg.Valid()
    requires Enumerates(order, dg.cratesToRender)
    requires e in Edges(dg, order)
    ensures Source(e) in Nodes(dg, order)
    ensures Target(e) in Nodes(dg, order)
    ensures e.1 in dg.graph[Source(e)].dependencies
  {
  }

  /**
   * An edge is emitted exactly when its source is rendered, it is one of the
   * source's dependency records, and the target is rendered. Dependencies on
   * crates that are not rendered never appear.
   */
  lemma EdgeMembership(dg: DotCrateGraph, order: seq<CrateId>, k: CrateId, d: Dependency)
    requires dg.Valid()
    requires Enumerates(order, dg.cratesToRender)
    ensures (k, d) in Edges(dg, order) <==>
      k in dg.cratesToRender && d in dg.graph[k].dependencies && d.crateId in dg.cratesToRender
  {
  }

  /** A crate's edges for a concatenation of dependency lists are those of the parts, in order. */
  lemma {:induction false} DependencyEdgesAppend(krate: CrateId, a: seq<Dependency>, b: seq<Dependency>, render: set<CrateId>)
    ensures DependencyEdges(krate, a + b, render) == DependencyEdges(krate, a, render) + DependencyEdges(krate, b, render)
    decreases |a|
  {
    if a == [] {
      assert a + b == b;
    } else {
      assert (a + b)[0] == a[0];
      assert (a + b)[1..] == a[1..] + b;
      DependencyEdgesAppend(krate, a[1..], b, render);
    }
  }

  /** A single dependency record gives an edge exactly when its target is rendered. */
  lemma DependencyEdgesSingle(krate: CrateId, d: Dependency, render: set<CrateId>)
    ensures DependencyEdges(krate, [d], render) == if d.crateId in render then [(krate, d)] else []
  {
  }

  /** Selecting by source distributes over concatenation. */
  lemma {:induction false} EdgesFromAppend(a: seq<Edge>, b: seq<Edge>, krate: CrateId)
    ensures EdgesFrom(a + b, krate) == EdgesFrom(a, krate) + EdgesFrom(b, krate)
    decreases |a|
  {
    if a == [] {
      assert a + b == b;
    } else {
      assert (a + b)[0] == a[0];
      assert (a + b)[1..] == a[1..] + b;
      EdgesFromAppend(a[1..], b, krate);
    }
  }

  /** The edges one crate contributes all have that crate as their source. */
  lemma {:induction false} EdgesFromDependencyEdges(owner: CrateId, deps: seq<Dependency>, render: set<CrateId>, krate: CrateId)
    ensures EdgesFrom(DependencyEdges(owner, deps, render), krate) ==
      if krate == owner then DependencyEdges(owner, deps, render) else []
    decreases |deps|
  {
    if deps != [] {
      var rest := DependencyEdges(owner, deps[1..], render);
      EdgesFromDependencyEdges(owner, deps[1..], render, krate);
      if deps[0].crateId in render {
        var r := [(owner, deps[0])] + rest;
        assert r[0] == (owner, deps[0]) && r[1..] == rest;
      }
    }
  }

  lemma {:induction false} EdgesFromFlatMap(dg: DotCrateGraph, ks: seq<CrateId>, krate: CrateId)
    requires dg.Valid()
    requires forall k :: k in ks ==> k in dg.cratesToRender
    requires forall i, j :: 0 <= i < j < |ks| ==> ks[i] != ks[j]
    ensures EdgesFrom(FlatMapEdges(dg, ks), krate) ==
      if krate in ks then DependencyEdges(krate, dg.graph[krate].dependencies, dg.cratesToRender) else []
    decreases |ks|
  {
    if ks != [] {
      var head := DependencyEdges(ks[0], dg.graph[ks[0]].dependencies, dg.cratesToRender);
      var tail := ks[1..];
      assert forall i, j :: 0 <= i < j < |tail| ==> tail[i] != tail[j] by {
        forall i, j | 0 <= i < j < |tail| ensures tail[i] != tail[j] {
          assert tail[i] == ks[i + 1] && tail[j] == ks[j + 1];
        }
      }
      EdgesFromAppend(head, FlatMapEdges(dg, tail), krate);
      EdgesFromDependencyEdges(ks[0], dg.graph[ks[0]].dependencies, dg.cratesToRender, krate);
      EdgesFromFlatMap(dg, tail, krate);
      if krate == ks[0] {
        assert krate !in tail by {
          forall j | 0 <= j < |tail| ensures tail[j] != krate {
            assert tail[j] == ks[j + 1];
          }
        }
      } else {
        assert krate in ks <==> krate in tail by {
          assert ks == [ks[0]] + tail;
        }
      }
    }
  }

  /**
   * For every crate, the edges emitted with it as source are exactly its own
   * dependency records whose target is rendered, in their stored order, each
   * once; a crate that is not rendered has none.
   */
  lemma EdgesOfCrate(dg: DotCrateGraph, order: seq<CrateId>, krate: CrateId)
    requires dg.Valid()
    requires Enumerates(order, dg.cratesToRender)
    ensures EdgesFrom(Edges(dg, order), krate) ==
      if krate in dg.cratesToRender then DependencyEdges(krate, dg.graph[krate].dependencies, dg.cratesToRender) else []
  {
    EdgesFromFlatMap(dg, order, krate);
  }

  // ----------------------------------------------------------------------
  // Labels
  // ----------------------------------------------------------------------

  /** The crate id can be read back from a node id, whatever the display name contains. */
  lemma NodeIdParses(dg: DotCrateGraph, n: CrateId)
    requires n in dg.graph
    ensures ParseNodeId(NodeId(dg, n)) == Some(n)
  {
    var name := DisplayLabel(dg.graph[n]);
    var digits := ToDecimal(n);
    var s := NodeId(dg, n);
    assert s == name + "_" + digits;
    assert s[|name|] == '_';
    assert forall j :: |name| < j < |s| ==> s[j] == digits[j - |name| - 1];
    var last := LastIndexOf(s, '_');
    assert last.Some?;
    var i := last.value;
    assert i == |name|;
    assert s[i + 1..] == digits;
    FromToDecimal(n);
  }

  /** Distinct crates have distinct node ids, even when their display names coincide. */
  lemma NodeIdsInjective(dg: DotCrateGraph, m: CrateId, n: CrateId)
    requires m in dg.graph && n in dg.graph
    requires m != n
    ensures NodeId(dg, m) != NodeId(dg, n)
  {
    NodeIdParses(dg, m);
    NodeIdParses(dg, n);
  }

  /** Within one walk, the node ids of the nodes are pairwise distinct. */
  lemma NodeIdsDistinct(dg: DotCrateGraph, order: seq<CrateId>)
    requires dg.Valid()
    requires Enumerates(order, dg.cratesToRender)
    ensures var nodes := Nodes(dg, order);
      forall i, j :: 0 <= i < j < |nodes| ==> NodeId(dg, nodes[i]) != NodeId(dg, nodes[j])
  {
    var nodes := Nodes(dg, order);
    forall i, j | 0 <= i < j < |nodes| ensures NodeId(dg, nodes[i]) != NodeId(dg, nodes[j]) {
      NodeIdsInjective(dg, nodes[i], nodes[j]);
    }
  }

  /** A crate without a display name still gets a non-empty node id that `Id::new` accepts. */
  lemma UnnamedCrateNodeId(dg: DotCrateGraph, n: CrateId)
    requires n in dg.graph
    requires dg.graph[n].displayName.None?
    ensures NodeId(dg, n) == MissingName + "_" + ToDecimal(n)
    ensures IsPlainId(NodeId(dg, n))
  {
  }

  // ----------------------------------------------------------------------
  // Worked examples
  // ----------------------------------------------------------------------

  /** Two crates both named `util`, with ids 3 and 7, get the node ids `util_3` and `util_7`. */
  lemma SameNameExample(dg: DotCrateGraph)
    requires 3 in dg.graph && 7 in dg.graph
    requires dg.graph[3].displayName == Some("util") && dg.graph[7].displayName == Some("util")
    ensures NodeId(dg, 3) == "util_3"
    ensures NodeId(dg, 7) == "util_7"
  {
  }

  /**
   * Workspace crate 0 depends on workspace crate 1 and on library crate 2:
   * the walk has the two nodes 0 and 1 and the single edge from 0 to 1,
   * whatever order the sets are iterated in.
   */
  lemma ThreeCrateExample(db: Database, ids: seq<CrateId>, order: seq<CrateId>, toB: Dependency, toC: Dependency)
    requires db.crateGraph.Keys == {0, 1, 2}
    requires toB.crateId == 1 && toC.crateId == 2
    requires db.crateGraph[0].dependencies == [toB, toC]
    requires db.crateGraph[1].dependencies == []
    requires db.crateGraph[2].dependencies == []
    requires IsWorkspaceCrate(db, 0) && IsWorkspaceCrate(db, 1) && !IsWorkspaceCrate(db, 2)
    requires Enumerates(ids, db.crateGraph.Keys)
    requires Enumerates(order, ViewCrateGraph(db, ids).cratesToRender)
    ensures ViewCrateGraph(db, ids).cratesToRender == {0, 1}
    ensures |Nodes(ViewCrateGraph(db, ids), order)| == 2
    ensures Edges(ViewCrateGraph(db, ids), order) == [(0, toB)]
  {
    var dg := ViewCrateGraph(db, ids);
    assert dg.cratesToRender == {0, 1};
    assert 0 in order && 1 in order;
    EnumerationLength(order, dg.cratesToRender);
    assert order[0] in order && order[1] in order;
    assert order == [0, 1] || order == [1, 0];
    var s := dg.cratesToRender;
    DependencyEdgesAppend(0, [toB], [toC], s);
    DependencyEdgesSingle(0, toB, s);
    DependencyEdgesSingle(0, toC, s);
    assert [toB] + [toC] == [toB, toC];
    assert DependencyEdges(0, dg.graph[0].dependencies, s) == [(0, toB)];
    assert DependencyEdges(1, dg.graph[1].dependencies, s) == [];
    assert [1][1..] == [] && [0][1..] == [];
    assert FlatMapEdges(dg, [1]) == [];
    assert FlatMapEdges(dg, [0]) == [(0, toB)];
    if order == [0, 1] {
      assert order[1..] == [1];
    } else {
      assert order[1..] == [0];
    }
  }
}
