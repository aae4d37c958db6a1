/**
 The cycle check of a bag of cells (crates/protocol/onx-state-model/src/boc.rs).
 The cells are an arbitrary map from identifiers to cells: nothing ties a key to the content
 stored under it, references may dangle, and cycles are possible.
 */
module BagsOfCells {
  import opened Wrappers
  import opened Graphs
  import opened Cells

  datatype BocError = RootMissing | CyclicCellReference

  function ReferenceGraph<Id>(cells: map<Id, Cell<Id>>): Graph<Id> {
    map h | h in cells :: cells[h].refs
  }

  ghost predicate OnCycle<Id(!new)>(g: Graph<Id>, v: Id) {
    ReachesProperly(g, v, v)
  }

  ghost predicate CycleReachable<Id(!new)>(g: Graph<Id>, root: Id) {
    exists v :: Reaches(g, root, v) && OnCycle(g, v)
  }

  /** What the visited set of the walk stands for: fully explored nodes, none on a cycle. */
  ghost predicate Explored<Id(!new)>(g: Graph<Id>, visited: set<Id>) {
    Closed(g, visited) && forall v :: v in visited ==> !OnCycle(g, v)
  }

  /** A node that is left after all its successors were explored lies on no cycle. */
  lemma ExploredExtends<Id(!new)>(g: Graph<Id>, visited: set<Id>, node: Id)
    requires Explored(g, visited) && node !in visited
    requires forall w :: Edge(g, node, w) ==> w in visited
    ensures Explored(g, visited + {node})
  {
    if OnCycle(g, node) {
      var w :| Edge(g, node, w) && Reaches(g, w, node);
      ClosedKeepsReachable(g, visited, w);
      assert false;
    }
  }

  lemma ProperThenEdge<Id(!new)>(g: Graph<Id>, u: Id, v: Id, w: Id)
    requires ReachesProperly(g, u, v) && Edge(g, v, w)
    ensures ReachesProperly(g, u, w)
  {
    var x :| Edge(g, u, x) && Reaches(g, x, v);
    ReachesStep(g, x, v, w);
  }

  lemma ExploredHasNoCycle<Id(!new)>(g: Graph<Id>, visited: set<Id>, root: Id)
    requires Explored(g, visited) && root in visited
    ensures !CycleReachable(g, root)
  {
    ClosedKeepsReachable(g, visited, root);
  }

  class BagOfCells<Id(==,!new)> {
    const rootHash: Id
    var cells: map<Id, Cell<Id>>

    ghost function Refs(): Graph<Id>
      reads this
    {
      ReferenceGraph(cells)
    }

    /** Builds a bag; New is the checked way to obtain one. */
    constructor (root: Id, cells: map<Id, Cell<Id>>)
      ensures rootHash == root && this.cells == cells
    {
      this.rootHash := root;
      this.cells := cells;
    }

    /** Rejects a bag without its root, and one whose root reaches a cycle; accepts all others. */
    static method New(root: Id, cells: map<Id, Cell<Id>>) returns (r: Result<BagOfCells<Id>, BocError>)
      ensures r.Ok? <==> root in cells && !CycleReachable(ReferenceGraph(cells), root)
      ensures r.Ok? ==> fresh(r.value) && r.value.rootHash == root && r.value.cells == cells
      ensures r.Err? ==> r.error == if root !in cells then RootMissing else CyclicCellReference
    {
      if root !in cells {
        return Err(RootMissing);
      }
      var boc := new BagOfCells(root, cells);
      var checked := boc.VerifyDag();
      if checked.Err? {
        return Err(checked.error);
      }
      return Ok(boc);
    }

    /** The cell is kept even when the check then fails. */
    method AddCell(hash: Id, cell: Cell<Id>) returns (r: Result<Id, BocError>)
      modifies this
      ensures cells == old(cells)[hash := cell]
      ensures r == if CycleReachable(Refs(), rootHash) then Err(CyclicCellReference) else Ok(hash)
    {
      cells := cells[hash := cell];
      var checked := VerifyDag();
      r := if checked.Err? then Err(checked.error) else Ok(hash);
    }

    method VerifyDag() returns (r: Result<(), BocError>)
      ensures r.Ok? <==> !CycleReachable(Refs(), rootHash)
      ensures r.Err? ==> r.error == CyclicCellReference
    {
      ReachesSelf(Refs(), rootHash);
      var outcome, _, visited := Dfs(rootHash, cells, {}, {}, rootHash);
      r := outcome;
      if r.Ok? {
        ExploredHasNoCycle(Refs(), visited, rootHash);
      }
    }

    /** The depth-first walk.  It descends only from stored cells that are not yet on the
        walk's stack, so it ends on every map. */
    static method Dfs(node: Id, cells: map<Id, Cell<Id>>, visiting: set<Id>, visited: set<Id>, ghost root: Id)
      returns (r: Result<(), BocError>, visiting': set<Id>, visited': set<Id>)
      requires Explored(ReferenceGraph(cells), visited) && visiting !! visited
      requires forall u :: u in visiting ==> ReachesProperly(ReferenceGraph(cells), u, node)
      requires Reaches(ReferenceGraph(cells), root, node)
      ensures r.Ok? ==> visiting' == visiting && visiting !! visited'
      ensures r.Ok? ==> visited <= visited' && node in visited' && Explored(ReferenceGraph(cells), visited')
      ensures r.Err? ==> r.error == CyclicCellReference && CycleReachable(ReferenceGraph(cells), root)
      decreases cells.Keys - visiting, 0
    {
      ghost var g := ReferenceGraph(cells);
      visiting', visited' := visiting, visited;
      if node in visiting' {
        return Err(CyclicCellReference), visiting', visited';
      }
      if node in visited' {
        return Ok(()), visiting', visited';
      }
      visiting' := visiting' + {node};
      if node in cells {
        var refs := cells[node].refs;
        var i := 0;
        while i < |refs|
          invariant 0 <= i <= |refs|
          invariant visiting' == visiting + {node} && visiting' !! visited'
          invariant visited <= visited' && Explored(g, visited')
          invariant forall j :: 0 <= j < i ==> refs[j] in visited'
        {
          assert Edge(g, node, refs[i]);
          forall u | u in visiting'
            ensures ReachesProperly(g, u, refs[i])
          {
            ReachesSelf(g, refs[i]);
            if u != node {
              ProperThenEdge(g, u, node, refs[i]);
            }
          }
          ReachesStep(g, root, node, refs[i]);
          r, visiting', visited' := Dfs(refs[i], cells, visiting', visited', root);
          if r.Err? {
            return;
          }
          i := i + 1;
        }
      }
      ExploredExtends(g, visited', node);
      visiting' := visiting' - {node};
      visited' := visited' + {node};
      r := Ok(());
    }
  }
}
