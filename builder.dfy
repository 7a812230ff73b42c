/**
 * The beam's node registry: `Beam`/`EulerBeam` of `planesections/builder.py`
 * as a class whose methods update its node list, coordinate set, label map
 * and load lists in place. `Valid()` is what holds between public calls:
 * each node's ID is its list index plus one (it equals the node's rank by x
 * only once the list has been sorted), coordinates are unique, the coordinate
 * set mirrors the list, the label map is empty (nothing in the builder writes
 * it), and every point load names the node at its own coordinate.
 */
module Builder {
  import opened Wrappers
  import opened Fixity
  import opened Permutations
  import opened Nodes

  /** A load vector as `addPointLoad` receives it: something iterable, or a bare number. */
  datatype LoadInput = Vector(values: seq<real>) | Scalar(value: real)

  /** The exception `addPointLoad` raises for a load vector that is not iterable. */
  datatype LoadError = NotIterable

  /** The exceptions `EulerBeam.__init__` raises: a fixity count that is not the node count, too few labels. */
  datatype BuildError = FixityCountMismatch | TooFewLabels

  /** The three directions of the point-load wrappers. */
  datatype Direction = Horizontal | Vertical | Moment

  /** The load-vector component each wrapper sets: Fx, Fy, or the in-plane moment (last component). */
  function LoadComponent(dim: Dimension, dir: Direction): (k: nat) {
    match dir
    case Horizontal => 0
    case Vertical => 1
    case Moment => Ndf(dim) - 1
  }

  /** The zero-padded vector `addHorizontalLoad`, `addVerticalLoad` and `addMoment` build. */
  function DirectionalLoad(dim: Dimension, dir: Direction, magnitude: real): (v: seq<real>)
    ensures |v| == Ndf(dim)
    ensures forall i :: 0 <= i < |v| ==> v[i] == if i == LoadComponent(dim, dir) then magnitude else 0.0
  {
    match (dim, dir)
    case (Planar, Horizontal) => [magnitude, 0.0, 0.0]
    case (Planar, Vertical) => [0.0, magnitude, 0.0]
    case (Planar, Moment) => [0.0, 0.0, magnitude]
    case (Spatial, Horizontal) => [magnitude, 0.0, 0.0, 0.0, 0.0, 0.0]
    case (Spatial, Vertical) => [0.0, magnitude, 0.0, 0.0, 0.0, 0.0]
    case (Spatial, Moment) => [0.0, 0.0, 0.0, 0.0, 0.0, magnitude]
  }

  /** The exception a too-short fixity or label list raises part-way through `addNodes`. */
  datatype BatchError = IndexOutOfRange

  /** The fixity `addNode` uses: the one supplied, or all zeros when it is None. */
  function FixityOrZeros(fixity: Option<seq<int>>, dim: Dimension): (f: seq<int>)
    ensures fixity.Some? ==> f == fixity.value
    ensures fixity.None? ==> |f| == Ndf(dim) && !HasReaction(f)
  {
    if fixity.None? then Zeros(Ndf(dim)) else fixity.value
  }

  /** One all-free fixity for each of `n` nodes. */
  function AllFree(dim: Dimension, n: nat): (fs: seq<seq<int>>)
    ensures |fs| == n && forall i :: 0 <= i < n ==> fs[i] == Zeros(Ndf(dim))
  {
    seq(n, _ => Zeros(Ndf(dim)))
  }

  /** No label (Python's None) for each of `n` nodes. */
  function NoLabels(n: nat): (ls: seq<Option<string>>)
    ensures |ls| == n && forall i :: 0 <= i < n ==> ls[i] == None
  {
    seq(n, _ => None)
  }

  /** The fixity list `addNodes` uses: the one supplied, or one all-free fixity per coordinate. */
  function FixitiesOrZeros(fixities: Option<seq<seq<int>>>, dim: Dimension, n: nat): (fs: seq<seq<int>>)
    ensures fixities.Some? ==> fs == fixities.value
    ensures fixities.None? ==> |fs| == n && forall i :: 0 <= i < n ==> |fs[i]| == Ndf(dim) && !HasReaction(fs[i])
  {
    if fixities.None? then AllFree(dim, n) else fixities.value
  }

  /** The label list `addNodes` uses: the one supplied, or None for every coordinate. */
  function NamesOrNone(names: Option<seq<Option<string>>>, n: nat): (ls: seq<Option<string>>)
    ensures names.Some? ==> ls == names.value
    ensures names.None? ==> |ls| == n && forall i :: 0 <= i < n ==> ls[i].None?
  {
    if names.None? then NoLabels(n) else names.value
  }

  /** How many coordinates `addNodes` gets through before a shorter list runs out. */
  function Shortest(n: nat, a: nat, b: nat): (k: nat)
    ensures k <= n && k <= a && k <= b && (k == n || k == a || k == b)
  {
    if n <= a && n <= b then n else if a <= b then a else b
  }

  /** The node list of a freshly built `EulerBeam` whose arguments were accepted. */
  function InitialNodes(xs: seq<real>, fixities: seq<seq<int>>, names: seq<Option<string>>, dim: Dimension): (r: seq<Node>)
    requires |fixities| == 0 || |fixities| == |xs|
    requires |names| == 0 || |names| >= |xs|
  {
    var fs := if |fixities| == 0 then AllFree(dim, |xs|) else fixities;
    var ls := if |names| == 0 then NoLabels(|xs|) else names;
    if |xs| == 0 then [] else Resort(UpsertAll([], xs, fs, ls))
  }

  class Beam {
    const dim: Dimension
    var nodes: seq<Node>
    var nNodes: nat
    var nodeCoords: set<real>
    var nodeLabels: map<string, nat>
    var pointLoads: seq<PointLoad>
    var eleLoads: seq<EleLoad>

    ghost predicate Valid()
      reads this
    {
      && |nodes| == nNodes
      && IdsAreIndices(nodes)
      && UniqueCoords(nodes)
      && nodeCoords == Coords(nodes)
      && nodeLabels == map[]
      && LoadsAnchored(nodes, pointLoads)
    }

    /** `_initArrays` and `_initDimensionVariables`: an empty beam of the given dimension. */
    constructor (dim: Dimension)
      ensures Valid() && this.dim == dim
      ensures nodes == [] && pointLoads == [] && eleLoads == []
    {
      this.dim := dim;
      nodes := [];
      nNodes := 0;
      nodeCoords := {};
      nodeLabels := map[];
      pointLoads := [];
      eleLoads := [];
    }

    /** `getLength`: last minus first coordinate; an empty beam raises, a single node gives 0. */
    function GetLength(): (r: Option<real>)
      reads this
      ensures r.Some? <==> |nodes| > 0
      ensures r.Some? && SortedByX(nodes) ==>
        r.value >= 0.0 && forall i :: 0 <= i < |nodes| ==> nodes[0].x <= nodes[i].x <= nodes[0].x + r.value
      ensures r.Some? ==> nodes[0].x + r.value in Coords(nodes)
    {
      if |nodes| == 0 then None else Some(nodes[|nodes| - 1].x - nodes[0].x)
    }

    /** `getxLims`: the first and the last coordinate; an empty beam raises. */
    function GetXLims(): (r: Option<(real, real)>)
      reads this
      ensures r.Some? <==> |nodes| > 0
      ensures r.Some? && SortedByX(nodes) ==>
        r.value.0 <= r.value.1 && forall i :: 0 <= i < |nodes| ==> r.value.0 <= nodes[i].x <= r.value.1
      ensures r.Some? ==> r.value.0 in Coords(nodes) && r.value.1 in Coords(nodes)
    {
      if |nodes| == 0 then None else Some((nodes[0].x, nodes[|nodes| - 1].x))
    }

    /** `getNodeIDs`: between public calls the IDs are always 1 .. Nnodes in list order. */
    function GetNodeIds(): (ids: seq<nat>)
      reads this
      requires Valid()
      ensures |ids| == nNodes && forall i :: 0 <= i < |ids| ==> ids[i] == i + 1
    {
      NodeIds(nodes)
    }

    /** `_resetNodeID`: node i gets ID i + 1. */
    method ResetNodeIds()
      modifies this`nodes
      ensures |nodes| == |old(nodes)|
      ensures forall i :: 0 <= i < |nodes| ==> nodes[i] == WithId(old(nodes)[i], i + 1)
    {
      for ii := 0 to |nodes|
        invariant |nodes| == |old(nodes)|
        invariant forall k :: 0 <= k < ii ==> nodes[k] == WithId(old(nodes)[k], k + 1)
        invariant forall k :: ii <= k < |nodes| ==> nodes[k] == old(nodes)[k]
      {
        nodes := nodes[ii := WithId(nodes[ii], ii + 1)];
      }
    }

    /** `_remapPointLoads`: each load's node ID becomes one plus the new position of its old ID. */
    method RemapPointLoads(oldIds: seq<nat>, sortedInd: seq<nat>)
      requires InRange(sortedInd, |oldIds|)
      requires forall j :: 0 <= j < |pointLoads| ==> pointLoads[j].nodeId in SortedIds(oldIds, sortedInd)
      modifies this`pointLoads
      ensures pointLoads == RemapLoads(old(pointLoads), SortedIds(oldIds, sortedInd))
    {
      var sortedIds := SortedIds(oldIds, sortedInd);
      for j := 0 to |pointLoads|
        invariant |pointLoads| == |old(pointLoads)|
        invariant forall k :: 0 <= k < j ==> pointLoads[k] == RemapLoad(old(pointLoads)[k], sortedIds)
        invariant forall k :: j <= k < |pointLoads| ==> pointLoads[k] == old(pointLoads)[k]
      {
        var newInd := FirstIndex(sortedIds, pointLoads[j].nodeId).value + 1;
        pointLoads := pointLoads[j := WithNodeId(pointLoads[j], newInd)];
      }
    }

    /** `_remapLabels`, as written: each label's old index is looked up as a position in `sortedInd`. */
    method RemapLabels(sortedInd: seq<nat>)
      requires forall l :: l in nodeLabels ==> nodeLabels[l] < |sortedInd|
      modifies this`nodeLabels
      ensures nodeLabels == RemapLabelsAsWritten(old(nodeLabels), sortedInd)
    {
      var oldLabels := nodeLabels;
      var newLabel: map<string, nat> := map[];
      var todo := oldLabels.Keys;
      while todo != {}
        invariant todo <= oldLabels.Keys
        invariant newLabel == map l | l in oldLabels.Keys - todo :: sortedInd[oldLabels[l]]
        decreases todo
      {
        var l :| l in todo;
        newLabel := newLabel[l := sortedInd[oldLabels[l]]];
        todo := todo - {l};
      }
      nodeLabels := newLabel;
    }

    /** The loop at the head of `_sortNodes`: the nodes' coordinates in list order. */
    method CollectXs() returns (xcoords: seq<real>)
      ensures xcoords == Xs(nodes)
    {
      xcoords := [];
      for ii := 0 to |nodes|
        invariant |xcoords| == ii && forall k :: 0 <= k < ii ==> xcoords[k] == nodes[k].x
      {
        xcoords := xcoords + [nodes[ii].x];
      }
    }

    /** The reordering in `_sortNodes`: the nodes taken in `argsort` order, then renumbered. */
    method Reorder(sortedInd: seq<nat>)
      requires sortedInd == ArgSort(Xs(nodes))
      modifies this`nodes
      ensures nodes == Resort(old(nodes))
    {
      var before := nodes;
      nodes := seq(|before|, k requires 0 <= k < |before| => before[sortedInd[k]]);
      ResetNodeIds();
      RenumberedIsResort(before, sortedInd, nodes);
    }

    /**
     * `_sortNodes`: reorders the nodes by `argsort` of their coordinates,
     * renumbers them, and carries the labels and point loads over using the
     * IDs captured before the sort.
     */
    method SortNodes()
      requires Valid()
      modifies this`nodes, this`nodeLabels, this`pointLoads
      ensures Valid() && SortedByX(nodes)
      ensures nodes == Resort(old(nodes))
      ensures pointLoads == ResortLoads(old(nodes), old(pointLoads))
    {
      var xcoords := CollectXs();
      var oldInd := GetNodeIds();
      var sortedInd := ArgSort(xcoords);
      ResortKeepsRegistry(nodes, pointLoads);
      Reorder(sortedInd);
      RemapLabelsAgreeWhenEmpty(sortedInd);
      RemapLabels(sortedInd);
      RemapPointLoads(oldInd, sortedInd);
    }

    /** `_addNewNode`: counts the node, gives it ID Nnodes, appends it, and resorts if asked. */
    method AddNewNode(newNode: Node, sort: bool)
      requires Valid() && newNode.x !in nodeCoords
      requires newNode == NewNode(newNode.x, newNode.fixity, newNode.name)
      modifies this`nodes, this`nNodes, this`nodeCoords, this`nodeLabels, this`pointLoads
      ensures Valid()
      ensures nNodes == old(nNodes) + 1 && nodeCoords == old(nodeCoords) + {newNode.x}
      ensures var up := Upsert(old(nodes), newNode.x, newNode.fixity, newNode.name);
        && IdsAreIndices(up) && UniqueCoords(up) && LoadsAnchored(up, old(pointLoads))
        && nodes == (if sort then Resort(up) else up)
        && pointLoads == (if sort then ResortLoads(up, old(pointLoads)) else old(pointLoads))
      ensures sort ==> SortedByX(nodes)
    {
      UpsertKeepsRegistry(nodes, newNode.x, newNode.fixity, newNode.name, pointLoads);
      nNodes := nNodes + 1;
      nodes := nodes + [WithId(newNode, nNodes)];
      nodeCoords := nodeCoords + {newNode.x};
      if sort {
        SortNodes();
      }
    }

    /**
     * `addNode`: 1 and a new node at a new coordinate (resorted when `sort`);
     * 0 and a brand-new node in the old one's place, with its ID, at an existing
     * coordinate (never resorted).
     */
    method AddNode(x: real, fixity: Option<seq<int>>, name: Option<string>, sort: bool) returns (flag: int)
      requires Valid()
      modifies this`nodes, this`nNodes, this`nodeCoords, this`nodeLabels, this`pointLoads
      ensures Valid()
      ensures flag == if x in old(nodeCoords) then 0 else 1
      ensures nNodes == old(nNodes) + flag && nodeCoords == old(nodeCoords) + {x}
      ensures var up := Upsert(old(nodes), x, FixityOrZeros(fixity, dim), name);
        && IdsAreIndices(up) && UniqueCoords(up) && LoadsAnchored(up, old(pointLoads))
        && nodes == (if flag == 1 && sort then Resort(up) else up)
        && pointLoads == (if flag == 1 && sort then ResortLoads(up, old(pointLoads)) else old(pointLoads))
      ensures flag == 1 && sort ==> SortedByX(nodes)
    {
      var f := FixityOrZeros(fixity, dim);
      var newNode := NewNode(x, f, name);
      if x in nodeCoords {
        UpsertKeepsRegistry(nodes, x, f, name, pointLoads);
        var index := FindNode(nodes, x).value;
        var nodeId := nodes[index].id;
        newNode := WithId(newNode, nodeId);
        if name.Some? {
          newNode := newNode.(name := name);
        }
        nodes := nodes[index := newNode];
        flag := 0;
      } else {
        AddNewNode(newNode, sort);
        flag := 1;
      }
    }

    /** `addLabel`: relabels the node at an existing coordinate in place, or adds a free node there. */
    method AddLabel(x: real, name: Option<string>, sort: bool) returns (flag: int)
      requires Valid()
      modifies this`nodes, this`nNodes, this`nodeCoords, this`nodeLabels, this`pointLoads
      ensures Valid()
      ensures flag == if x in old(nodeCoords) then 0 else 1
      ensures nNodes == old(nNodes) + flag && nodeCoords == old(nodeCoords) + {x}
      ensures flag == 0 ==>
        var i := FindNode(old(nodes), x).value;
        nodes == old(nodes)[i := old(nodes)[i].(name := name)] && pointLoads == old(pointLoads)
      ensures flag == 1 ==>
        var up := Upsert(old(nodes), x, Zeros(Ndf(dim)), name);
        && IdsAreIndices(up) && UniqueCoords(up) && LoadsAnchored(up, old(pointLoads))
        && nodes == (if sort then Resort(up) else up)
        && pointLoads == (if sort then ResortLoads(up, old(pointLoads)) else old(pointLoads))
    {
      var fixity := Zeros(Ndf(dim));
      var newNode := NewNode(x, fixity, name);
      if x in nodeCoords {
        var index := FindNode(nodes, x).value;
        ReplaceKeepsRegistry(nodes, index, nodes[index].(name := name), pointLoads);
        nodes := nodes[index := nodes[index].(name := name)];
        flag := 0;
      } else {
        AddNewNode(newNode, sort);
        flag := 1;
      }
    }

    /**
     * The loop of `addNodes`: `addNode` without sorting for each coordinate,
     * until a fixity or label list runs out; `k` is how far it got.
     */
    method AddEach(xs: seq<real>, fs: seq<seq<int>>, ls: seq<Option<string>>) returns (k: nat)
      requires Valid()
      modifies this`nodes, this`nNodes, this`nodeCoords, this`nodeLabels, this`pointLoads
      ensures Valid() && k == Shortest(|xs|, |fs|, |ls|)
      ensures var up := UpsertAll(old(nodes), xs[..k], fs, ls);
        && UniqueCoords(up) && IdsAreIndices(up) && LoadsAnchored(up, old(pointLoads))
        && nodes == up && pointLoads == old(pointLoads)
        && nodeCoords == old(nodeCoords) + Elements(xs[..k])
    {
      k := Shortest(|xs|, |fs|, |ls|);
      ghost var ns := nodes;
      ghost var loads := pointLoads;
      UpsertAllKeepsRegistry(ns, xs[..k], fs, ls, loads);
      for ii := 0 to k
        invariant Valid() && pointLoads == loads
        invariant nodes == UpsertAll(ns, xs[..ii], fs, ls)
      {
        var flag := AddNode(xs[ii], Some(fs[ii]), ls[ii], false);
        assert xs[..ii + 1][..ii] == xs[..ii];
      }
    }

    /**
     * `addNodes`: inserts every coordinate without sorting, then sorts once.
     * A missing fixity list means all free, a missing label list no labels.
     * A fixity or label list shorter than the coordinates raises part-way,
     * with the nodes inserted so far kept and unsorted.
     */
    method AddNodes(xs: seq<real>, fixities: Option<seq<seq<int>>>, names: Option<seq<Option<string>>>)
      returns (r: Outcome<BatchError>)
      requires Valid()
      modifies this`nodes, this`nNodes, this`nodeCoords, this`nodeLabels, this`pointLoads
      ensures Valid()
      ensures var fs := FixitiesOrZeros(fixities, dim, |xs|);
        var ls := NamesOrNone(names, |xs|);
        var k := Shortest(|xs|, |fs|, |ls|);
        && (r.Pass? <==> k == |xs|)
        && var up := UpsertAll(old(nodes), xs[..k], fs, ls);
        && UniqueCoords(up) && IdsAreIndices(up) && LoadsAnchored(up, old(pointLoads))
        && nodeCoords == old(nodeCoords) + Elements(xs[..k])
        && (r.Pass? ==> nodes == Resort(up) && pointLoads == ResortLoads(up, old(pointLoads)) && SortedByX(nodes))
        && (r.Fail? ==> nodes == up && pointLoads == old(pointLoads))
    {
      var fs := FixitiesOrZeros(fixities, dim, |xs|);
      var ls := NamesOrNone(names, |xs|);
      var k := AddEach(xs, fs, ls);
      if k < |xs| {
        return Fail(IndexOutOfRange);
      }
      SortNodes();
      r := Pass;
    }

    /**
     * `setFixity`: the fixity is normalised and validated before anything
     * changes; an existing node takes it in place (with `hasReaction` forced
     * on), otherwise `addNode` creates the node and sorts.
     */
    method SetFixity(x: real, fixity: FixityInput, name: Option<string>) returns (r: Outcome<FixityError>)
      requires Valid()
      modifies this`nodes, this`nNodes, this`nodeCoords, this`nodeLabels, this`pointLoads
      ensures Valid()
      ensures r == CheckFixityInput(ConvertFixityInput(fixity, dim), dim)
      ensures r.Fail? ==> nodes == old(nodes) && nodeCoords == old(nodeCoords) && pointLoads == old(pointLoads)
      ensures r.Pass? ==> nodeCoords == old(nodeCoords) + {x}
      ensures r.Pass? && x in old(nodeCoords) ==>
        var i := FindNode(old(nodes), x).value;
        nodes == old(nodes)[i := Refix(old(nodes)[i], ConvertFixityInput(fixity, dim), name)]
        && pointLoads == old(pointLoads)
      ensures r.Pass? && x !in old(nodeCoords) ==>
        var up := Upsert(old(nodes), x, ConvertFixityInput(fixity, dim), name);
        && IdsAreIndices(up) && UniqueCoords(up) && LoadsAnchored(up, old(pointLoads))
        && nodes == Resort(up) && pointLoads == ResortLoads(up, old(pointLoads))
    {
      var f := ConvertFixityInput(fixity, dim);
      r := CheckFixityInput(f, dim);
      if r.Fail? {
        return;
      }
      if x in nodeCoords {
        var index := FindNode(nodes, x).value;
        ReplaceKeepsRegistry(nodes, index, Refix(nodes[index], f, name), pointLoads);
        nodes := nodes[index := Refix(nodes[index], f, name)];
      } else {
        var flag := AddNode(x, Some(f), name, true);
      }
    }

    /**
     * The state `addPointLoad` leaves: the anchor node exists (created with
     * zero fixity and an empty label, and the list resorted, if `x` was
     * absent), the new load's ID is attached to it, and one load naming it
     * by index + 1 is appended.
     */
    ghost predicate PointLoadAdded(ns0: seq<Node>, loads0: seq<PointLoad>, x: real, values: seq<real>, name: Option<string>)
      reads this
      requires UniqueCoords(ns0) && IdsAreIndices(ns0) && LoadsAnchored(ns0, loads0)
    {
      var base := EnsureNode(ns0, x, Zeros(Ndf(dim)));
      var i := FindNode(base, x).value;
      && nodes == base[i := Attach(base[i], |loads0| + 1, name)]
      && pointLoads == EnsureNodeLoads(ns0, loads0, x, Zeros(Ndf(dim))) + [PointLoad(values, x, i + 1)]
    }

    /**
     * The anchor step of `addPointLoad` and `addDistLoad`: when no node sits
     * at `x`, `addNode` adds a free node with an empty label there and sorts.
     */
    method AddNodeIfAbsent(x: real)
      requires Valid()
      modifies this`nodes, this`nNodes, this`nodeCoords, this`nodeLabels, this`pointLoads
      ensures Valid()
      ensures nodes == EnsureNode(old(nodes), x, Zeros(Ndf(dim)))
      ensures pointLoads == EnsureNodeLoads(old(nodes), old(pointLoads), x, Zeros(Ndf(dim)))
      ensures nodeCoords == old(nodeCoords) + {x}
      ensures SortedByX(old(nodes)) ==> SortedByX(nodes)
    {
      var base := EnsureNode(nodes, x, Zeros(Ndf(dim)));
      var prior := EnsureNodeLoads(nodes, pointLoads, x, Zeros(Ndf(dim)));
      if x !in nodeCoords {
        var flag := AddNode(x, Some(Zeros(Ndf(dim))), Some(""), true);
      }
      assert nodes == base && pointLoads == prior;
    }

    /**
     * The attachment step of `addPointLoad`, once a node sits at `x`: the load
     * gets the next load ID, the node records it (and a truthy label), and the
     * load names the node by its index plus one.
     */
    method AttachPointLoad(x: real, values: seq<real>, name: Option<string>)
      requires Valid() && x in nodeCoords
      modifies this`nodes, this`pointLoads
      ensures Valid()
      ensures var i := FindNode(old(nodes), x).value;
        && nodes == old(nodes)[i := Attach(old(nodes)[i], |old(pointLoads)| + 1, name)]
        && pointLoads == old(pointLoads) + [PointLoad(values, x, i + 1)]
      ensures SortedByX(old(nodes)) ==> SortedByX(nodes)
    {
      var loadId := |pointLoads| + 1;
      var nodeIndex := FindNode(nodes, x).value;
      var nodeId := nodeIndex + 1;
      var newLoad := PointLoad(values, x, nodeId);
      AttachKeepsRegistry(nodes, pointLoads, nodeIndex, Attach(nodes[nodeIndex], loadId, name), newLoad);
      nodes := nodes[nodeIndex := Attach(nodes[nodeIndex], loadId, name)];
      pointLoads := pointLoads + [newLoad];
    }

    /** `addPointLoad`: a bare number is rejected before anything changes. */
    method AddPointLoad(x: real, load: LoadInput, name: Option<string>) returns (r: Outcome<LoadError>)
      requires Valid()
      modifies this`nodes, this`nNodes, this`nodeCoords, this`nodeLabels, this`pointLoads
      ensures Valid()
      ensures r.Fail? <==> load.Scalar?
      ensures r.Fail? ==> nodes == old(nodes) && nodeCoords == old(nodeCoords) && pointLoads == old(pointLoads)
      ensures r.Pass? ==> PointLoadAdded(old(nodes), old(pointLoads), x, load.values, name)
      ensures SortedByX(old(nodes)) ==> SortedByX(nodes)
      ensures r.Pass? ==> nodeCoords == old(nodeCoords) + {x} && |pointLoads| == |old(pointLoads)| + 1
      ensures r.Pass? ==>
        var l := pointLoads[|pointLoads| - 1];
        && l.x == x && l.p == load.values
        && nodes[l.nodeId - 1].x == x && |pointLoads| in nodes[l.nodeId - 1].pointLoadIds
    {
      if load.Scalar? {
        return Fail(NotIterable);
      }
      AddNodeIfAbsent(x);
      AttachPointLoad(x, load.values, name);
      r := Pass;
    }

    /** `addHorizontalLoad`: a point load with only its Fx component set. */
    method AddHorizontalLoad(x: real, px: real, name: Option<string>)
      requires Valid()
      modifies this`nodes, this`nNodes, this`nodeCoords, this`nodeLabels, this`pointLoads
      ensures Valid()
      ensures PointLoadAdded(old(nodes), old(pointLoads), x, DirectionalLoad(dim, Horizontal, px), name)
      ensures nodeCoords == old(nodeCoords) + {x}
      ensures SortedByX(old(nodes)) ==> SortedByX(nodes)
    {
      var r := AddPointLoad(x, Vector(DirectionalLoad(dim, Horizontal, px)), name);
    }

    /** `addVerticalLoad`: a point load with only its Fy component set. */
    method AddVerticalLoad(x: real, py: real, name: Option<string>)
      requires Valid()
      modifies this`nodes, this`nNodes, this`nodeCoords, this`nodeLabels, this`pointLoads
      ensures Valid()
      ensures PointLoadAdded(old(nodes), old(pointLoads), x, DirectionalLoad(dim, Vertical, py), name)
      ensures nodeCoords == old(nodeCoords) + {x}
      ensures SortedByX(old(nodes)) ==> SortedByX(nodes)
    {
      var r := AddPointLoad(x, Vector(DirectionalLoad(dim, Vertical, py)), name);
    }

    /** `addMoment`: a point load with only its last (moment) component set. */
    method AddMoment(x: real, m: real, name: Option<string>)
      requires Valid()
      modifies this`nodes, this`nNodes, this`nodeCoords, this`nodeLabels, this`pointLoads
      ensures Valid()
      ensures PointLoadAdded(old(nodes), old(pointLoads), x, DirectionalLoad(dim, Moment, m), name)
      ensures nodeCoords == old(nodeCoords) + {x}
      ensures SortedByX(old(nodes)) ==> SortedByX(nodes)
    {
      var r := AddPointLoad(x, Vector(DirectionalLoad(dim, Moment, m)), name);
    }

    /**
     * `addDistLoad`: creates free, unlabelled nodes at both ends when absent
     * (each creation sorts) and appends the element load; no node records it.
     */
    method AddDistLoad(x1: real, x2: real, p: seq<real>, name: string)
      requires Valid()
      modifies this`nodes, this`nNodes, this`nodeCoords, this`nodeLabels, this`pointLoads, this`eleLoads
      ensures Valid()
      ensures nodeCoords == old(nodeCoords) + {x1, x2}
      ensures var z := Zeros(Ndf(dim));
        var mid := EnsureNode(old(nodes), x1, z);
        && nodes == EnsureNode(mid, x2, z)
        && pointLoads == EnsureNodeLoads(mid, EnsureNodeLoads(old(nodes), old(pointLoads), x1, z), x2, z)
      ensures eleLoads == old(eleLoads) + [EleLoad(x1, x2, p, name)]
    {
      AddNodeIfAbsent(x1);
      AddNodeIfAbsent(x2);
      eleLoads := eleLoads + [EleLoad(x1, x2, p, name)];
    }
  }

  /**
   * `EulerBeam.__init__`: an empty beam, then `addNodes` over the given
   * coordinates. An empty fixity list means all free; any other count that
   * is not the node count raises; a non-empty label list shorter than the
   * coordinates makes `addNodes` raise.
   */
  method EulerBeam(xs: seq<real>, fixities: seq<seq<int>>, names: seq<Option<string>>, dim: Dimension)
    returns (r: Result<Beam, BuildError>)
    ensures r.Failure? <==> (|fixities| != 0 && |fixities| != |xs|) || (0 < |names| < |xs|)
    ensures r.Failure? ==> r.error == if |fixities| != 0 && |fixities| != |xs| then FixityCountMismatch else TooFewLabels
    ensures r.Success? ==>
      && fresh(r.value) && r.value.Valid() && r.value.dim == dim
      && r.value.nodes == InitialNodes(xs, fixities, names, dim)
      && r.value.nodeCoords == Elements(xs) && SortedByX(r.value.nodes)
      && r.value.pointLoads == [] && r.value.eleLoads == []
  {
    var fs := fixities;
    if |fs| == 0 {
      fs := AllFree(dim, |xs|);
    }
    if |fs| != |xs| {
      return Failure(FixityCountMismatch);
    }
    var ls := names;
    if |ls| == 0 {
      ls := NoLabels(|xs|);
    }
    var beam := new Beam(dim);
    if |xs| != 0 {
      var added := beam.AddNodes(xs, Some(fs), Some(ls));
      if added.Fail? {
        return Failure(TooFewLabels);
      }
      assert Shortest(|xs|, |fs|, |ls|) == |xs| && xs[..|xs|] == xs;
      assert beam.nodes == Resort(UpsertAll([], xs, fs, ls));
    }
    r := Success(beam);
  }
}
