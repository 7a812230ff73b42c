/**
 * Worked scenarios. First the label-ordering cases of `test/test_labeling.py`,
 * stated on the functions that the beam's methods are specified by and then
 * replayed through the methods themselves: a beam is built at x = 0 and 5
 * with fixed supports labelled A and B, and nodes are added or merged with
 * `addNode`. Then a point load that keeps pointing at its node when a node
 * inserted to its left shifts it.
 *
 * The lemmas take the node lists as parameters pinned by `requires`, so that
 * the verifier reasons about the lists it is given rather than evaluating
 * the sort on constants.
 */
module Scenarios {
  import opened Wrappers
  import opened Fixity
  import opened Permutations
  import opened Nodes
  import opened Builder

  function FixedSupport(): (f: seq<int>) { [1, 1, 1] }

  function A(): (l: Option<string>) { Some("A") }
  function B(): (l: Option<string>) { Some("B") }
  function C(): (l: Option<string>) { Some("C") }
  function D(): (l: Option<string>) { Some("D") }

  /** The fixed support at 0 labelled A, with the given ID. */
  function SupportA(id: nat): (n: Node) { Node(0.0, FixedSupport(), id, A(), [], true) }

  /** The fixed support at 5 labelled B, with the given ID. */
  function SupportB(id: nat): (n: Node) { Node(5.0, FixedSupport(), id, B(), [], true) }

  /** The free node at 3 labelled D, with the given ID. */
  function FreeD(id: nat): (n: Node) { Node(3.0, Zeros(3), id, D(), [], false) }

  /** A coordinate carried by no node is not among the coordinates. */
  lemma Absent(ns: seq<Node>, x: real)
    requires forall j :: 0 <= j < |ns| ==> ns[j].x != x
    ensures x !in Coords(ns) && FindNode(ns, x) == None
  {
  }

  /** `addNodes` on the test's arguments before its sort: the supports at 0 and 5, IDs 1 and 2. */
  lemma InsertSupports(xs: seq<real>, fs: seq<seq<int>>, ls: seq<Option<string>>)
    requires xs == [0.0, 5.0] && fs == [FixedSupport(), FixedSupport()] && ls == [A(), B()]
    ensures UpsertAll([], xs, fs, ls) == [SupportA(1), SupportB(2)]
  {
    assert HasReaction(FixedSupport()) by {
      assert FixedSupport()[0] != 0;
    }
    var n0 := SupportA(1);
    assert UpsertAll([], xs[..1], fs, ls) == [n0] by {
      assert xs[..1][..0] == [];
      Absent([], 0.0);
    }
    Absent([n0], 5.0);
  }

  /** `EulerBeam2D([0, 5], [fixed, fixed], labels=['A', 'B'])`: nodes at 0 and 5, IDs 1 and 2, labels A and B. */
  lemma InitialBeam(xs: seq<real>, fs: seq<seq<int>>, ls: seq<Option<string>>)
    requires xs == [0.0, 5.0] && fs == [FixedSupport(), FixedSupport()] && ls == [A(), B()]
    ensures InitialNodes(xs, fs, ls, Planar) == [SupportA(1), SupportB(2)]
    ensures Labels(InitialNodes(xs, fs, ls, Planar)) == [A(), B()]
  {
    InsertSupports(xs, fs, ls);
    var up := UpsertAll([], xs, fs, ls);
    assert UniqueCoords(up) && SortedByX(up) && IdsAreIndices(up) by {
      assert Xs(up) == [0.0, 5.0];
    }
    ResortSortedIsIdentity(up);
  }

  /** `test_labels_existing`: merging at x = 0 with label C gives labels C, B. */
  lemma LabelsExisting(ns: seq<Node>)
    requires ns == [SupportA(1), SupportB(2)]
    ensures Labels(Upsert(ns, 0.0, FixedSupport(), C())) == [C(), B()]
  {
    assert UniqueCoords(ns) by {
      assert Xs(ns) == [0.0, 5.0];
    }
    FindNodeUnique(ns, 0);
  }

  /** After `addNode(3, label='D')` the nodes are 0, 3, 5 labelled A, D, B with IDs 1, 2, 3. */
  lemma AddD(ns: seq<Node>, free: seq<int>)
    requires ns == [SupportA(1), SupportB(2)] && free == Zeros(3)
    ensures Resort(Upsert(ns, 3.0, free, D())) == [SupportA(1), FreeD(2), SupportB(3)]
  {
    assert !HasReaction(free);
    Absent(ns, 3.0);
    var up := Upsert(ns, 3.0, free, D());
    assert up == [SupportA(1), SupportB(2), FreeD(3)];
    assert Xs(up) == [0.0, 5.0, 3.0];
    var q: seq<nat> := [0, 2, 1];
    assert IsPermutation(q, 3) by {
      assert q[0] == 0 && q[2] == 1 && q[1] == 2;
    }
    ResortBy(up, q);
    var r := Resort(up);
    assert r[0] == SupportA(1) && r[1] == FreeD(2) && r[2] == SupportB(3);
  }

  /** `test_labels_new_node`: adding x = 6 with label C as well gives labels A, D, B, C. */
  lemma LabelsNewNode(ns: seq<Node>, free: seq<int>)
    requires ns == [SupportA(1), FreeD(2), SupportB(3)] && free == Zeros(3)
    ensures Labels(Resort(Upsert(ns, 6.0, free, C()))) == [A(), D(), B(), C()]
  {
    Absent(ns, 6.0);
    var up := Upsert(ns, 6.0, free, C());
    assert up == ns + [NewNode(6.0, free, C()).(id := 4)];
    assert Labels(up) == [A(), D(), B(), C()];
    assert SortedByX(up) && IdsAreIndices(up);
    ResortSortedIsIdentity(up);
  }

  /** `test_labels_new_Existing`: merging at x = 0 with label C after adding D gives labels C, D, B. */
  lemma LabelsNewExisting(ns: seq<Node>, free: seq<int>)
    requires ns == [SupportA(1), FreeD(2), SupportB(3)] && free == Zeros(3)
    ensures Labels(Upsert(ns, 0.0, free, C())) == [C(), D(), B()]
  {
    assert UniqueCoords(ns) by {
      assert Xs(ns) == [0.0, 3.0, 5.0];
    }
    FindNodeUnique(ns, 0);
  }

  /** A freshly built copy of the test's beam, through `EulerBeam`. */
  method BuildTestBeam() returns (beam: Beam)
    ensures fresh(beam) && beam.Valid() && beam.dim == Planar
    ensures beam.nodes == [SupportA(1), SupportB(2)]
  {
    var xs := [0.0, 5.0];
    var fs := [FixedSupport(), FixedSupport()];
    var ls := [A(), B()];
    var built := EulerBeam(xs, fs, ls, Planar);
    beam := built.value;
    InitialBeam(xs, fs, ls);
  }

  /** The test's beam after `addNode(3, label='D')`, through `Beam.AddNode`. */
  method BuildBeamWithD() returns (beam: Beam)
    ensures fresh(beam) && beam.Valid() && beam.dim == Planar
    ensures beam.nodes == [SupportA(1), FreeD(2), SupportB(3)]
  {
    beam := BuildTestBeam();
    ghost var before := beam.nodes;
    Absent(before, 3.0);
    var flag := beam.AddNode(3.0, None, D(), true);
    assert beam.nodes == [SupportA(1), FreeD(2), SupportB(3)] by {
      AddD(before, FixityOrZeros(None, beam.dim));
    }
  }

  /** `test_labels_existing` replayed through `Beam.AddNode`. */
  method ReplayLabelsExisting() returns (labels: seq<Option<string>>)
    ensures labels == [C(), B()]
  {
    var beam := BuildTestBeam();
    ghost var before := beam.nodes;
    assert before[0].x == 0.0;
    var flag := beam.AddNode(0.0, Some(FixedSupport()), C(), true);
    LabelsExisting(before);
    labels := Labels(beam.nodes);
  }

  /** `test_labels_new_node` replayed through `Beam.AddNode`. */
  method ReplayLabelsNewNode() returns (labels: seq<Option<string>>)
    ensures labels == [A(), D(), B(), C()]
  {
    var beam := BuildBeamWithD();
    ghost var before := beam.nodes;
    Absent(before, 6.0);
    var flag := beam.AddNode(6.0, None, C(), true);
    LabelsNewNode(before, FixityOrZeros(None, beam.dim));
    labels := Labels(beam.nodes);
  }

  /** `test_labels_new_Existing` replayed through `Beam.AddNode`. */
  method ReplayLabelsNewExisting() returns (labels: seq<Option<string>>)
    ensures labels == [C(), D(), B()]
  {
    var beam := BuildBeamWithD();
    ghost var before := beam.nodes;
    assert before[0].x == 0.0;
    var flag := beam.AddNode(0.0, None, C(), true);
    LabelsNewExisting(before, FixityOrZeros(None, beam.dim));
    labels := Labels(beam.nodes);
  }

  /** A free, unlabelled node at `x` with the given ID. */
  function Free(x: real, id: nat): (n: Node) { Node(x, Zeros(3), id, None, [], false) }

  /** `addNodes` on three free coordinates before its sort: nodes at 0, 2.5 and 5 with IDs 1, 2, 3. */
  lemma InsertFree(xs: seq<real>, fs: seq<seq<int>>, ls: seq<Option<string>>)
    requires xs == [0.0, 2.5, 5.0] && fs == AllFree(Planar, 3) && ls == NoLabels(3)
    ensures UpsertAll([], xs, fs, ls) == [Free(0.0, 1), Free(2.5, 2), Free(5.0, 3)]
  {
    assert !HasReaction(Zeros(3));
    assert UpsertAll([], xs[..1], fs, ls) == [Free(0.0, 1)] by {
      assert xs[..1][..0] == [];
      Absent([], 0.0);
    }
    assert UpsertAll([], xs[..2], fs, ls) == [Free(0.0, 1), Free(2.5, 2)] by {
      assert xs[..2][..1] == xs[..1];
      Absent([Free(0.0, 1)], 2.5);
    }
    assert xs[..2] == xs[..|xs| - 1];
    Absent([Free(0.0, 1), Free(2.5, 2)], 5.0);
  }

  /** `EulerBeam2D([0, 2.5, 5])`: free, unlabelled nodes at 0, 2.5 and 5 with IDs 1, 2, 3. */
  lemma FreeBeam(xs: seq<real>)
    requires xs == [0.0, 2.5, 5.0]
    ensures InitialNodes(xs, [], [], Planar) == [Free(0.0, 1), Free(2.5, 2), Free(5.0, 3)]
  {
    InsertFree(xs, AllFree(Planar, 3), NoLabels(3));
    var up := UpsertAll([], xs, AllFree(Planar, 3), NoLabels(3));
    assert SortedByX(up) && IdsAreIndices(up);
    ResortSortedIsIdentity(up);
  }

  /**
   * The load at 2.5 on nodes 0, 2.5, 5 follows its node when a node is added
   * at 1.0: after the resort the node at 2.5 is the third, and the load names it.
   */
  lemma LoadFollowsNode(ns: seq<Node>, loads: seq<PointLoad>, free: seq<int>)
    requires Xs(ns) == [0.0, 2.5, 5.0] && IdsAreIndices(ns) && LoadsAnchored(ns, loads)
    requires |loads| == 1 && loads[0].x == 2.5
    ensures var up := Upsert(ns, 1.0, free, Some(""));
      && UniqueCoords(up) && IdsAreIndices(up) && LoadsAnchored(up, loads)
      && ResortLoads(up, loads)[0].nodeId == 3
  {
    assert UniqueCoords(ns);
    Absent(ns, 1.0);
    UpsertKeepsRegistry(ns, 1.0, free, Some(""), loads);
    var up := Upsert(ns, 1.0, free, Some(""));
    assert Xs(up) == [0.0, 2.5, 5.0, 1.0];
    var q: seq<nat> := [0, 3, 1, 2];
    assert IsPermutation(q, 4) by {
      assert q[0] == 0 && q[2] == 1 && q[3] == 2 && q[1] == 3;
    }
    ResortBy(up, q);
    ResortAscending(up);
    var r := ResortLoads(up, loads);
    assert Resort(up)[2].x == 2.5 && Resort(up)[r[0].nodeId - 1].x == 2.5;
  }

  /** A beam with free nodes at 0, 2.5 and 5, through `EulerBeam`. */
  method BuildFreeBeam() returns (beam: Beam)
    ensures fresh(beam) && beam.Valid() && beam.dim == Planar
    ensures beam.nodes == [Free(0.0, 1), Free(2.5, 2), Free(5.0, 3)] && beam.pointLoads == []
  {
    var xs := [0.0, 2.5, 5.0];
    var built := EulerBeam(xs, [], [], Planar);
    beam := built.value;
    FreeBeam(xs);
  }

  /** A beam with nodes at 0, 2.5 and 5 and one vertical load at 2.5, which acts on node 2. */
  method BuildLoadedBeam() returns (beam: Beam)
    ensures fresh(beam) && beam.Valid() && Xs(beam.nodes) == [0.0, 2.5, 5.0]
    ensures |beam.pointLoads| == 1 && beam.pointLoads[0].x == 2.5 && beam.pointLoads[0].nodeId == 2
  {
    beam := BuildFreeBeam();
    ghost var ns := beam.nodes;
    assert UniqueCoords(ns) && ns[1].x == 2.5;
    FindNodeUnique(ns, 1);
    beam.AddVerticalLoad(2.5, 10.0, Some(""));
  }

  /**
   * Adding a node at 1.0 to that beam resorts it; the load then names node 3,
   * the node that is still at 2.5.
   */
  method ReplayLoadSurvivesResort() returns (before: nat, after: nat)
    ensures before == 2 && after == 3
  {
    var beam := BuildLoadedBeam();
    ghost var ns := beam.nodes;
    ghost var loads := beam.pointLoads;
    before := beam.pointLoads[0].nodeId;
    Absent(ns, 1.0);
    var flag := beam.AddNode(1.0, None, Some(""), true);
    LoadFollowsNode(ns, loads, FixityOrZeros(None, beam.dim));
    after := beam.pointLoads[0].nodeId;
  }
}
