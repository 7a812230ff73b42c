/**
 * The values kept by a beam's node registry (nodes, point loads, element
 * loads) and the pure functions that say what the registry's operations do
 * to its node list: find a coordinate, insert or merge a node, resort and
 * renumber, and carry point loads and labels across a resort.
 */
module Nodes {
  import opened Wrappers
  import opened Fixity
  import opened Permutations

  /**
   * A node: its coordinate, fixity, ID, label (`None` is Python's None),
   * the IDs of the point loads attached to it, and whether it has a reaction.
   * The analysis results (`disp`, `rFrc`, `Fint`) are not part of this model.
   */
  datatype Node = Node(
    x: real,
    fixity: seq<int>,
    id: nat,
    name: Option<string>,
    pointLoadIds: seq<nat>,
    hasReaction: bool)

  /** A point load: its force vector, its coordinate and the ID of the node it acts on. */
  datatype PointLoad = PointLoad(p: seq<real>, x: real, nodeId: nat)

  /** A distributed load between two coordinates; it refers to no node ID. */
  datatype EleLoad = EleLoad(x1: real, x2: real, p: seq<real>, name: string)

  /** `Node.__init__`: no ID yet (0 stands for None), no loads, a reaction iff some DOF is restrained. */
  function NewNode(x: real, fixity: seq<int>, name: Option<string>): (n: Node) {
    Node(x, fixity, 0, name, [], HasReaction(fixity))
  }

  /** A node renumbered by `_setID`. */
  function WithId(n: Node, id: nat): (r: Node) {
    n.(id := id)
  }

  /** Python's truthiness of a label: present and non-empty. */
  predicate Truthy(name: Option<string>) {
    name.Some? && name.value != ""
  }

  function Xs(ns: seq<Node>): (xs: seq<real>)
    ensures |xs| == |ns| && forall i :: 0 <= i < |ns| ==> xs[i] == ns[i].x
  {
    seq(|ns|, i requires 0 <= i < |ns| => ns[i].x)
  }

  /** The coordinate set `nodeCoords` mirrors. */
  function Coords(ns: seq<Node>): (s: set<real>) {
    set i | 0 <= i < |ns| :: ns[i].x
  }

  /** `getNodeIDs`: the nodes' IDs in list order. */
  function NodeIds(ns: seq<Node>): (ids: seq<nat>)
    ensures |ids| == |ns| && forall i :: 0 <= i < |ns| ==> ids[i] == ns[i].id
  {
    seq(|ns|, i requires 0 <= i < |ns| => ns[i].id)
  }

  /** The nodes' labels in list order. */
  function Labels(ns: seq<Node>): (ls: seq<Option<string>>)
    ensures |ls| == |ns| && forall i :: 0 <= i < |ns| ==> ls[i] == ns[i].name
  {
    seq(|ns|, i requires 0 <= i < |ns| => ns[i].name)
  }

  /** No two nodes share a coordinate. */
  predicate UniqueCoords(ns: seq<Node>) {
    Distinct(Xs(ns))
  }

  /** Each node's ID is its list index plus one. */
  predicate IdsAreIndices(ns: seq<Node>) {
    forall i :: 0 <= i < |ns| ==> ns[i].id == i + 1
  }

  /** The nodes are strictly ascending in x. */
  predicate SortedByX(ns: seq<Node>) {
    forall a, b :: 0 <= a < b < |ns| ==> ns[a].x < ns[b].x
  }

  /** Every point load names, by ID, a node that sits at the load's own coordinate. */
  predicate LoadsAnchored(ns: seq<Node>, loads: seq<PointLoad>) {
    forall j :: 0 <= j < |loads| ==>
      1 <= loads[j].nodeId <= |ns| && ns[loads[j].nodeId - 1].x == loads[j].x
  }

  /** `_findNode`: the first index whose coordinate equals `x` exactly, or None. */
  function FindNode(ns: seq<Node>, x: real): (r: Option<nat>)
    ensures r.Some? ==> r.value < |ns| && ns[r.value].x == x
    ensures r.Some? ==> forall j :: 0 <= j < r.value ==> ns[j].x != x
    ensures r.None? <==> x !in Coords(ns)
  {
    if ns == [] then None
    else if ns[0].x == x then Some(0)
    else
      match FindNode(ns[1..], x)
      case None =>
        assert forall i :: 1 <= i < |ns| ==> ns[i].x == ns[1..][i - 1].x;
        None
      case Some(i) => Some(i + 1)
  }

  /** The first index holding `v`: the `np.where(s == v)[0][0]` of `_remapPointLoads`. */
  function FirstIndex(s: seq<nat>, v: nat): (r: Option<nat>)
    ensures r.Some? ==> r.value < |s| && s[r.value] == v
    ensures r.Some? ==> forall j :: 0 <= j < r.value ==> s[j] != v
    ensures r.None? <==> v !in s
  {
    if s == [] then None
    else if s[0] == v then Some(0)
    else
      match FirstIndex(s[1..], v)
      case None =>
        assert s == [s[0]] + s[1..];
        None
      case Some(i) => Some(i + 1)
  }

  /** With unique coordinates, the node at any index is the one `FindNode` finds for its coordinate. */
  lemma FindNodeUnique(ns: seq<Node>, i: nat)
    requires UniqueCoords(ns) && i < |ns|
    ensures FindNode(ns, ns[i].x) == Some(i)
  {
    assert ns[i].x in Coords(ns);
    var k := FindNode(ns, ns[i].x).value;
    assert Xs(ns)[k] == Xs(ns)[i];
  }

  // ---------------------------------------------------------------------------
  // Insert or merge: `addNode` on the node list (builder.py:377-396, 435-438)

  /**
   * The node list after `addNode(x, fixity, name)` before any resort: at an
   * existing coordinate a brand-new node replaces the old one and takes over
   * its ID; at a new coordinate a node with ID `len + 1` is appended.
   */
  function Upsert(ns: seq<Node>, x: real, fixity: seq<int>, name: Option<string>): (r: seq<Node>) {
    match FindNode(ns, x)
    case Some(i) => ns[i := NewNode(x, fixity, name).(id := ns[i].id)]
    case None => ns + [NewNode(x, fixity, name).(id := |ns| + 1)]
  }

  /** A new coordinate appends one node with the next ID and keeps every existing node. */
  lemma UpsertNew(ns: seq<Node>, x: real, fixity: seq<int>, name: Option<string>)
    requires x !in Coords(ns)
    ensures var r := Upsert(ns, x, fixity, name);
      && |r| == |ns| + 1 && r[..|ns|] == ns
      && r[|ns|].x == x && r[|ns|].id == |ns| + 1
      && r[|ns|].fixity == fixity && r[|ns|].name == name && r[|ns|].pointLoadIds == []
  {
  }

  /**
   * An existing coordinate keeps the list length, the node's index and its
   * ID, replaces fixity and label by the supplied ones, empties the node's
   * point-load list, and leaves every other node alone.
   */
  lemma UpsertMerge(ns: seq<Node>, x: real, fixity: seq<int>, name: Option<string>, i: nat)
    requires UniqueCoords(ns) && i < |ns| && ns[i].x == x
    ensures var r := Upsert(ns, x, fixity, name);
      && |r| == |ns|
      && r[i].x == x && r[i].id == ns[i].id
      && r[i].fixity == fixity && r[i].name == name && r[i].pointLoadIds == []
      && r[i].hasReaction == HasReaction(fixity)
      && forall j :: 0 <= j < |ns| && j != i ==> r[j] == ns[j]
  {
    FindNodeUnique(ns, i);
  }

  /** Insert-or-merge keeps coordinates unique, IDs equal to index + 1, and every point load anchored. */
  lemma UpsertKeepsRegistry(ns: seq<Node>, x: real, fixity: seq<int>, name: Option<string>, loads: seq<PointLoad>)
    requires UniqueCoords(ns) && IdsAreIndices(ns) && LoadsAnchored(ns, loads)
    ensures var r := Upsert(ns, x, fixity, name);
      && UniqueCoords(r) && IdsAreIndices(r) && LoadsAnchored(r, loads)
      && Coords(r) == Coords(ns) + {x}
      && |r| == |ns| + (if x in Coords(ns) then 0 else 1)
  {
    var r := Upsert(ns, x, fixity, name);
    match FindNode(ns, x)
    case Some(i) =>
      assert forall j :: 0 <= j < |ns| ==> r[j].x == ns[j].x;
      assert Xs(r) == Xs(ns);
      assert Coords(r) == Coords(ns) by {
        assert forall j :: 0 <= j < |ns| ==> r[j].x in Coords(r) && ns[j].x in Coords(ns);
      }
    case None =>
      assert r == ns + [NewNode(x, fixity, name).(id := |ns| + 1)];
      forall a, b | 0 <= a < b < |r| ensures Xs(r)[a] != Xs(r)[b] {
        if b == |ns| {
          assert ns[a].x in Coords(ns);
        } else {
          assert Xs(ns)[a] != Xs(ns)[b];
        }
      }
      assert Coords(r) == Coords(ns) + {x} by {
        forall v | v in Coords(r) ensures v in Coords(ns) + {x} {
          var j :| 0 <= j < |r| && r[j].x == v;
          if j < |ns| {
            assert ns[j].x == v;
          }
        }
        forall v | v in Coords(ns) + {x} ensures v in Coords(r) {
          if v == x {
            assert r[|ns|].x == v;
          } else {
            var j :| 0 <= j < |ns| && ns[j].x == v;
            assert r[j].x == v;
          }
        }
      }
  }

  /** The coordinates of a batch, as a set. */
  function Elements(xs: seq<real>): (s: set<real>)
    ensures forall v :: v in s <==> v in xs
  {
    if xs == [] then {}
    else
      var m := |xs| - 1;
      assert xs == xs[..m] + [xs[m]];
      Elements(xs[..m]) + {xs[m]}
  }

  /** `addNodes` without its final sort: insert-or-merge every coordinate in order. */
  function UpsertAll(ns: seq<Node>, xs: seq<real>, fixities: seq<seq<int>>, names: seq<Option<string>>): (r: seq<Node>)
    requires |fixities| >= |xs| && |names| >= |xs|
  {
    if xs == [] then ns
    else
      var m := |xs| - 1;
      Upsert(UpsertAll(ns, xs[..m], fixities, names), xs[m], fixities[m], names[m])
  }

  /** A batch insert keeps the registry's invariants and adds exactly the batch's coordinates. */
  lemma {:induction false} UpsertAllKeepsRegistry(
    ns: seq<Node>, xs: seq<real>, fixities: seq<seq<int>>, names: seq<Option<string>>, loads: seq<PointLoad>)
    requires |fixities| >= |xs| && |names| >= |xs|
    requires UniqueCoords(ns) && IdsAreIndices(ns) && LoadsAnchored(ns, loads)
    ensures var r := UpsertAll(ns, xs, fixities, names);
      && UniqueCoords(r) && IdsAreIndices(r) && LoadsAnchored(r, loads)
      && Coords(r) == Coords(ns) + Elements(xs)
  {
    if xs != [] {
      var m := |xs| - 1;
      UpsertAllKeepsRegistry(ns, xs[..m], fixities, names, loads);
      var prev := UpsertAll(ns, xs[..m], fixities, names);
      UpsertKeepsRegistry(prev, xs[m], fixities[m], names[m], loads);
    }
  }


  // ---------------------------------------------------------------------------
  // Resort and renumber: `_sortNodes` with `_resetNodeID` (builder.py:273-287, 308-314)

  /** The node list after `_sortNodes`: permuted by `argsort` of the coordinates, node k given ID k + 1. */
  function Resort(ns: seq<Node>): (r: seq<Node>)
    ensures |r| == |ns|
  {
    var p := ArgSort(Xs(ns));
    seq(|ns|, k requires 0 <= k < |ns| => WithId(ns[p[k]], k + 1))
  }

  /** After a resort the nodes are strictly ascending in x and node k has ID k + 1. */
  lemma ResortAscending(ns: seq<Node>)
    requires UniqueCoords(ns)
    ensures SortedByX(Resort(ns)) && IdsAreIndices(Resort(ns)) && UniqueCoords(Resort(ns))
  {
    var r := Resort(ns);
    var p := ArgSort(Xs(ns));
    ArgSortCorrect(Xs(ns));
    forall a, b | 0 <= a < b < |r| ensures r[a].x < r[b].x {
      ResortAt(ns, a);
      ResortAt(ns, b);
      assert Xs(ns)[p[a]] < Xs(ns)[p[b]];
    }
    forall a, b | 0 <= a < b < |r| ensures Xs(r)[a] != Xs(r)[b] {
      assert r[a].x < r[b].x;
    }
  }

  /** Position k of the resorted list holds node `argsort[k]`, renumbered. */
  lemma ResortAt(ns: seq<Node>, k: nat)
    requires k < |ns|
    ensures ArgSort(Xs(ns))[k] < |ns| && Resort(ns)[k] == WithId(ns[ArgSort(Xs(ns))[k]], k + 1)
  {
  }

  /** A resort keeps exactly the previous nodes (IDs aside), each once. */
  lemma ResortPermutes(ns: seq<Node>)
    requires UniqueCoords(ns)
    ensures forall k :: 0 <= k < |ns| ==> exists i :: 0 <= i < |ns| && Resort(ns)[k] == WithId(ns[i], k + 1)
    ensures forall i :: 0 <= i < |ns| ==> exists k :: 0 <= k < |ns| && Resort(ns)[k] == WithId(ns[i], k + 1)
  {
    var p := ArgSort(Xs(ns));
    forall k | 0 <= k < |ns| ensures exists i :: 0 <= i < |ns| && Resort(ns)[k] == WithId(ns[i], k + 1) {
      ResortAt(ns, k);
    }
    forall i | 0 <= i < |ns| ensures exists k :: 0 <= k < |ns| && Resort(ns)[k] == WithId(ns[i], k + 1) {
      assert i in p;
      var k :| 0 <= k < |p| && p[k] == i;
      ResortAt(ns, k);
    }
  }

  /** A resort keeps the coordinate set. */
  lemma ResortCoords(ns: seq<Node>)
    requires UniqueCoords(ns)
    ensures Coords(Resort(ns)) == Coords(ns)
  {
    var r := Resort(ns);
    var p := ArgSort(Xs(ns));
    forall v | v in Coords(ns) ensures v in Coords(r) {
      var i :| 0 <= i < |ns| && ns[i].x == v;
      assert i in p;
      var k :| 0 <= k < |p| && p[k] == i;
      ResortAt(ns, k);
      assert r[k].x == v;
    }
    forall v | v in Coords(r) ensures v in Coords(ns) {
      var k :| 0 <= k < |r| && r[k].x == v;
      ResortAt(ns, k);
      assert ns[p[k]].x == v;
    }
  }

  /** Resorting a list that is already sorted with IDs 1..N changes nothing. */
  lemma ResortSortedIsIdentity(ns: seq<Node>)
    requires SortedByX(ns) && IdsAreIndices(ns)
    ensures Resort(ns) == ns
  {
    ArgSortOfAscending(Xs(ns), |ns|);
    assert forall k :: 0 <= k < |ns| ==> Resort(ns)[k] == ns[k];
  }

  // ---------------------------------------------------------------------------
  // Point-load remap: `_remapPointLoads` (builder.py:280, 316-326)

  /** `np.array(oldIDs)[sortedInd]`: the pre-sort IDs in the new order. */
  function SortedIds(oldIds: seq<nat>, p: seq<nat>): (r: seq<nat>)
    requires InRange(p, |oldIds|)
    ensures |r| == |p| && forall k :: 0 <= k < |p| ==> r[k] == oldIds[p[k]]
  {
    seq(|p|, k requires 0 <= k < |p| => oldIds[p[k]])
  }

  /** One load after the remap: one plus the first new position whose old ID is the load's. */
  function RemapLoad(l: PointLoad, sortedIds: seq<nat>): (r: PointLoad)
    requires l.nodeId in sortedIds
  {
    l.(nodeId := FirstIndex(sortedIds, l.nodeId).value + 1)
  }

  /** What the loop of `_remapPointLoads` leaves in `pointLoads`. */
  function RemapLoads(loads: seq<PointLoad>, sortedIds: seq<nat>): (r: seq<PointLoad>)
    requires forall j :: 0 <= j < |loads| ==> loads[j].nodeId in sortedIds
    ensures |r| == |loads|
  {
    seq(|loads|, j requires 0 <= j < |loads| => RemapLoad(loads[j], sortedIds))
  }

  /**
   * With IDs equal to index + 1, every anchored load's ID occurs among the
   * sorted IDs, so the `[0][0]` lookup never fails.
   */
  lemma AnchoredIdsFound(ns: seq<Node>, loads: seq<PointLoad>)
    requires IdsAreIndices(ns) && UniqueCoords(ns) && LoadsAnchored(ns, loads)
    ensures forall j :: 0 <= j < |loads| ==> loads[j].nodeId in SortedIds(NodeIds(ns), ArgSort(Xs(ns)))
  {
    var p := ArgSort(Xs(ns));
    var sortedIds := SortedIds(NodeIds(ns), p);
    forall j | 0 <= j < |loads| ensures loads[j].nodeId in sortedIds {
      var o := loads[j].nodeId;
      assert o - 1 in p;
      var k :| 0 <= k < |p| && p[k] == o - 1;
      assert sortedIds[k] == o;
    }
  }

  /**
   * After the remap every load names the node that now sits at the load's
   * coordinate: the same node as before.
   */
  lemma RemapLoadsTracksNodes(ns: seq<Node>, loads: seq<PointLoad>)
    requires IdsAreIndices(ns) && UniqueCoords(ns) && LoadsAnchored(ns, loads)
    ensures var sortedIds := SortedIds(NodeIds(ns), ArgSort(Xs(ns)));
      && (forall j :: 0 <= j < |loads| ==> loads[j].nodeId in sortedIds)
      && LoadsAnchored(Resort(ns), RemapLoads(loads, sortedIds))
  {
    AnchoredIdsFound(ns, loads);
    var p := ArgSort(Xs(ns));
    var sortedIds := SortedIds(NodeIds(ns), p);
    var r := RemapLoads(loads, sortedIds);
    forall j | 0 <= j < |r|
      ensures 1 <= r[j].nodeId <= |ns| && Resort(ns)[r[j].nodeId - 1].x == r[j].x
    {
      var k := FirstIndex(sortedIds, loads[j].nodeId).value;
      assert r[j].nodeId == k + 1;
      assert p[k] + 1 == loads[j].nodeId;
      ResortAt(ns, k);
    }
  }

  /**
   * The point loads after `_sortNodes`: the same loads in the same order, each
   * still acting on the node at its coordinate, only the node ID rewritten.
   */
  function ResortLoads(ns: seq<Node>, loads: seq<PointLoad>): (r: seq<PointLoad>)
    requires IdsAreIndices(ns) && UniqueCoords(ns) && LoadsAnchored(ns, loads)
    ensures |r| == |loads| && LoadsAnchored(Resort(ns), r)
    ensures SameLoads(loads, r)
  {
    RemapLoadsTracksNodes(ns, loads);
    RemapLoads(loads, SortedIds(NodeIds(ns), ArgSort(Xs(ns))))
  }

  /**
   * A resort keeps the registry: the resorted list is ascending, numbered by
   * position, with the same coordinates, and the remapped loads stay anchored.
   * The remap's lookups all succeed.
   */
  lemma ResortKeepsRegistry(ns: seq<Node>, loads: seq<PointLoad>)
    requires IdsAreIndices(ns) && UniqueCoords(ns) && LoadsAnchored(ns, loads)
    ensures forall j :: 0 <= j < |loads| ==> loads[j].nodeId in SortedIds(NodeIds(ns), ArgSort(Xs(ns)))
    ensures ResortLoads(ns, loads) == RemapLoads(loads, SortedIds(NodeIds(ns), ArgSort(Xs(ns))))
    ensures SortedByX(Resort(ns)) && IdsAreIndices(Resort(ns)) && UniqueCoords(Resort(ns))
    ensures Coords(Resort(ns)) == Coords(ns)
    ensures LoadsAnchored(Resort(ns), ResortLoads(ns, loads))
  {
    RemapLoadsTracksNodes(ns, loads);
    ResortAscending(ns);
    ResortCoords(ns);
  }

  /** Picking the nodes in `argsort` order and numbering them by position is the resort. */
  lemma RenumberedIsResort(ns: seq<Node>, p: seq<nat>, r: seq<Node>)
    requires p == ArgSort(Xs(ns)) && |r| == |ns|
    requires forall k :: 0 <= k < |r| ==> r[k] == WithId(ns[p[k]], k + 1)
    ensures r == Resort(ns)
  {
    forall k | 0 <= k < |r| ensures r[k] == Resort(ns)[k] {
      ResortAt(ns, k);
    }
  }

  /**
   * `argsort` is pinned down by what it promises: any permutation that makes
   * the coordinates strictly ascending describes the resort.
   */
  lemma ResortBy(ns: seq<Node>, q: seq<nat>)
    requires UniqueCoords(ns) && IsPermutation(q, |ns|) && AscendingBy(q, Xs(ns))
    ensures forall k :: 0 <= k < |ns| ==> Resort(ns)[k] == WithId(ns[q[k]], k + 1)
  {
    ArgSortCorrect(Xs(ns));
    ArgSortUnique(Xs(ns), ArgSort(Xs(ns)), q);
    forall k | 0 <= k < |ns| ensures Resort(ns)[k] == WithId(ns[q[k]], k + 1) {
      ResortAt(ns, k);
    }
  }

  /** The coordinates of the first `k` nodes. */
  function PrefixCoords(ns: seq<Node>, k: nat): (s: set<real>)
    requires k <= |ns|
  {
    set j | 0 <= j < k :: ns[j].x
  }

  /** The beam's coordinates strictly left of `x`. */
  function CoordsBelow(ns: seq<Node>, x: real): (s: set<real>) {
    set v | v in Coords(ns) && v < x
  }

  /** In a strictly ascending list the first `k` nodes carry `k` distinct coordinates. */
  lemma {:induction false} PrefixCoordsCount(ns: seq<Node>, k: nat)
    requires SortedByX(ns) && k <= |ns|
    ensures |PrefixCoords(ns, k)| == k
  {
    if k > 0 {
      PrefixCoordsCount(ns, k - 1);
      assert PrefixCoords(ns, k) == PrefixCoords(ns, k - 1) + {ns[k - 1].x};
      assert ns[k - 1].x !in PrefixCoords(ns, k - 1);
    }
  }

  /** After a sort, a node's ID is one plus the number of coordinates left of it: its rank. */
  lemma SortedIdIsRank(ns: seq<Node>, i: nat)
    requires SortedByX(ns) && IdsAreIndices(ns) && i < |ns|
    ensures ns[i].id == |CoordsBelow(ns, ns[i].x)| + 1
  {
    PrefixCoordsCount(ns, i);
    assert CoordsBelow(ns, ns[i].x) == PrefixCoords(ns, i) by {
      forall v | v in CoordsBelow(ns, ns[i].x) ensures v in PrefixCoords(ns, i) {
        var j :| 0 <= j < |ns| && ns[j].x == v;
        assert j < i;
      }
    }
  }

  /**
   * On a sorted list every anchored load names its node by rank: one plus the
   * number of coordinates left of the load.
   */
  lemma AnchoredLoadRank(ns: seq<Node>, loads: seq<PointLoad>, j: nat)
    requires SortedByX(ns) && IdsAreIndices(ns) && LoadsAnchored(ns, loads) && j < |loads|
    ensures loads[j].nodeId == |CoordsBelow(ns, loads[j].x)| + 1
  {
    SortedIdIsRank(ns, loads[j].nodeId - 1);
  }

  /** On a list that is already sorted with IDs 1..N the remap leaves every load reference as it was. */
  lemma ResortLoadsSortedIsIdentity(ns: seq<Node>, loads: seq<PointLoad>)
    requires SortedByX(ns) && IdsAreIndices(ns) && UniqueCoords(ns) && LoadsAnchored(ns, loads)
    ensures ResortLoads(ns, loads) == loads
  {
    var r := ResortLoads(ns, loads);
    ResortSortedIsIdentity(ns);
    forall j | 0 <= j < |loads| ensures r[j] == loads[j] {
      FindNodeUnique(ns, r[j].nodeId - 1);
      FindNodeUnique(ns, loads[j].nodeId - 1);
    }
  }

  /** A load anchored in a list with unique coordinates names the node `FindNode` finds for its x. */
  lemma AnchoredLoadNode(ns: seq<Node>, loads: seq<PointLoad>, j: nat)
    requires UniqueCoords(ns) && LoadsAnchored(ns, loads) && j < |loads|
    ensures FindNode(ns, loads[j].x) == Some(loads[j].nodeId - 1)
  {
    FindNodeUnique(ns, loads[j].nodeId - 1);
  }

  // ---------------------------------------------------------------------------
  // Label remap: `_remapLabels` (builder.py:328-337)

  /** `_remapLabels` as written: each label's old index is used as a position in `sortedInd`. */
  function RemapLabelsAsWritten(names: map<string, nat>, p: seq<nat>): (r: map<string, nat>)
    requires forall l :: l in names ==> names[l] < |p|
  {
    map l | l in names :: p[names[l]]
  }

  /** The remap the label map needs: each label moves to the new position of its old index. */
  function RemapLabelsIntended(names: map<string, nat>, p: seq<nat>): (r: map<string, nat>)
    requires forall l :: l in names ==> names[l] in p
    ensures r.Keys == names.Keys
    ensures forall l :: l in r ==> r[l] < |p| && p[r[l]] == names[l]
  {
    map l | l in names :: FirstIndex(p, names[l]).value
  }

  /** After a resort, each corrected label position holds the node the label was given to. */
  lemma RemapLabelsTracksNodes(ns: seq<Node>, names: map<string, nat>)
    requires UniqueCoords(ns)
    requires forall l :: l in names ==> names[l] < |ns|
    ensures var p := ArgSort(Xs(ns));
      && (forall l :: l in names ==> names[l] in p)
      && forall l :: l in names ==>
           RemapLabelsIntended(names, p)[l] < |ns| && Resort(ns)[RemapLabelsIntended(names, p)[l]].x == ns[names[l]].x
  {
    ArgSortCorrect(Xs(ns));
  }

  /** With no labels recorded, which is the only state the builder ever reaches, the two remaps agree. */
  lemma RemapLabelsAgreeWhenEmpty(p: seq<nat>)
    ensures RemapLabelsAsWritten(map[], p) == RemapLabelsIntended(map[], p) == map[]
  {
  }

  /**
   * The remap as written loses track of a label: nodes at 2, 0, 1 sort by
   * [1, 2, 0]; a label on the node at 2 (old index 0) is sent to index 1,
   * where the node at 1 now sits, instead of index 2.
   */
  lemma RemapLabelsAsWrittenMisplaces(ns: seq<Node>)
    requires ns == [NewNode(2.0, [], None), NewNode(0.0, [], None), NewNode(1.0, [], None)]
    ensures var p := ArgSort(Xs(ns));
      && RemapLabelsAsWritten(map["L" := 0], p)["L"] == 1
      && Resort(ns)[1].x != ns[0].x
      && RemapLabelsIntended(map["L" := 0], p)["L"] == 2
  {
    var xs := Xs(ns);
    assert xs == [2.0, 0.0, 1.0];
    var q: seq<nat> := [1, 2, 0];
    assert AscendingBy(q, xs);
    assert IsPermutation(q, 3) by {
      assert q[2] == 0 && q[0] == 1 && q[1] == 2;
    }
    ArgSortCorrect(xs);
    ArgSortUnique(xs, ArgSort(xs), q);
    ResortAt(ns, 1);
  }


  // ---------------------------------------------------------------------------
  // Anchors created by `addPointLoad` and `addDistLoad` (builder.py:580-584, 716-719)

  /**
   * An in-place update of one node that keeps its coordinate and its ID (a
   * relabel, a new fixity, an attached load) keeps every registry invariant.
   */
  lemma ReplaceKeepsRegistry(ns: seq<Node>, i: nat, n: Node, loads: seq<PointLoad>)
    requires i < |ns| && n.x == ns[i].x && n.id == ns[i].id
    ensures Xs(ns[i := n]) == Xs(ns) && Coords(ns[i := n]) == Coords(ns)
    ensures IdsAreIndices(ns[i := n]) == IdsAreIndices(ns)
    ensures LoadsAnchored(ns[i := n], loads) == LoadsAnchored(ns, loads)
    ensures SortedByX(ns[i := n]) == SortedByX(ns)
  {
    var r := ns[i := n];
    assert forall j :: 0 <= j < |ns| ==> r[j].x == ns[j].x && r[j].id == ns[j].id;
    assert Coords(r) == Coords(ns) by {
      assert forall j :: 0 <= j < |ns| ==> r[j].x in Coords(r) && ns[j].x in Coords(ns);
    }
  }

  /**
   * The node list after `addNode(x, fixity)` is called only when `x` is absent
   * (which sorts): afterwards `x` is present, and nothing else is added.
   */
  function EnsureNode(ns: seq<Node>, x: real, fixity: seq<int>): (r: seq<Node>)
    requires UniqueCoords(ns) && IdsAreIndices(ns)
    ensures UniqueCoords(r) && IdsAreIndices(r)
    ensures Coords(r) == Coords(ns) + {x}
    ensures |r| == |ns| + (if x in Coords(ns) then 0 else 1)
    ensures x !in Coords(ns) ==> SortedByX(r)
  {
    UpsertKeepsRegistry(ns, x, fixity, Some(""), []);
    if x in Coords(ns) then ns
    else
      var up := Upsert(ns, x, fixity, Some(""));
      ResortAscending(up);
      ResortCoords(up);
      Resort(up)
  }

  /** The point loads after `EnsureNode`: the same loads, still anchored, renumbered only by a resort. */
  function EnsureNodeLoads(ns: seq<Node>, loads: seq<PointLoad>, x: real, fixity: seq<int>): (r: seq<PointLoad>)
    requires UniqueCoords(ns) && IdsAreIndices(ns) && LoadsAnchored(ns, loads)
    ensures LoadsAnchored(EnsureNode(ns, x, fixity), r) && SameLoads(loads, r)
  {
    UpsertKeepsRegistry(ns, x, fixity, Some(""), loads);
    if x in Coords(ns) then loads else ResortLoads(Upsert(ns, x, fixity, Some("")), loads)
  }

  /** Appending a load that names the node at its coordinate keeps every load anchored. */
  lemma AppendAnchored(ns: seq<Node>, loads: seq<PointLoad>, l: PointLoad)
    requires LoadsAnchored(ns, loads)
    requires 1 <= l.nodeId <= |ns| && ns[l.nodeId - 1].x == l.x
    ensures LoadsAnchored(ns, loads + [l])
  {
    assert forall j :: 0 <= j < |loads| ==> (loads + [l])[j] == loads[j];
  }

  /**
   * Attaching a load to node `i` in place and appending the load, which names
   * node `i` by index + 1, keeps every registry invariant.
   */
  lemma AttachKeepsRegistry(ns: seq<Node>, loads: seq<PointLoad>, i: nat, n: Node, l: PointLoad)
    requires UniqueCoords(ns) && IdsAreIndices(ns) && LoadsAnchored(ns, loads)
    requires i < |ns| && n.x == ns[i].x && n.id == ns[i].id && l.nodeId == i + 1 && l.x == ns[i].x
    ensures UniqueCoords(ns[i := n]) && IdsAreIndices(ns[i := n]) && LoadsAnchored(ns[i := n], loads + [l])
    ensures Coords(ns[i := n]) == Coords(ns) && SortedByX(ns[i := n]) == SortedByX(ns)
  {
    ReplaceKeepsRegistry(ns, i, n, loads);
    AppendAnchored(ns[i := n], loads, l);
  }

  /** `setFixity` on an existing node: new fixity, `hasReaction` forced on, label replaced only by a truthy one. */
  function Refix(n: Node, fixity: seq<int>, name: Option<string>): (r: Node) {
    n.(fixity := fixity, hasReaction := true, name := if Truthy(name) then name else n.name)
  }

  /** A node with a point load attached: the load's ID appended, the label replaced only by a truthy one. */
  function Attach(n: Node, loadId: nat, name: Option<string>): (r: Node) {
    n.(pointLoadIds := n.pointLoadIds + [loadId], name := if Truthy(name) then name else n.name)
  }

  /** A point load with its node reference rewritten. */
  function WithNodeId(l: PointLoad, nodeId: nat): (r: PointLoad) {
    l.(nodeId := nodeId)
  }

  /** `after` holds the loads of `before`, in the same order, differing at most in their node IDs. */
  predicate SameLoads(before: seq<PointLoad>, after: seq<PointLoad>) {
    |after| == |before| && forall j :: 0 <= j < |after| ==> after[j] == WithNodeId(before[j], after[j].nodeId)
  }
}
