# Beam node registry of planesections, in Dafny

planesections describes a beam as an ordered list of nodes, one per distinct
x coordinate. Supports, labels and point loads hang off those nodes, and
distributed loads run between two coordinates. This project models the
bookkeeping that `Beam`/`EulerBeam` in `doc/readthedocs/planesections/builder.py`
does on that list, and proves what it keeps true:

- adding a node, either as a new coordinate or merged into an existing one;
- adding a batch of nodes and sorting once;
- labelling a node and setting its fixity, with validation;
- attaching point loads and creating the end nodes of distributed loads;
- the sort, which permutes the list by `argsort`, renumbers the nodes and
  carries the point-load and label references across;
- the read-only lookups.

Files and modules:

- `wrappers.dfy` (`Wrappers`): `Option`, `Result` and `Outcome`. Python's
  `None` and raised exceptions become values.
- `fixity.dfy` (`Fixity`): fixity vectors, and how they are normalised,
  validated and classified.
- `permutations.dfy` (`Permutations`): `ArgSort`, an insertion-sort model of
  `np.argsort`, proved to be the unique permutation that makes distinct
  coordinates strictly ascending.
- `nodes.dfy` (`Nodes`): the node and load records, plus the pure functions
  that specify the registry: find, insert-or-merge, resort, load remap and
  label remap. The lemmas about them are here too.
- `builder.dfy` (`Builder`): the `Beam` class. Its fields are the ones the
  source mutates (`nodes`, `nNodes`, `nodeCoords`, `nodeLabels`,
  `pointLoads`, `eleLoads`). Each public method is proved against the
  functions of `Nodes` and keeps `Valid()`; the steps of the sort
  (`CollectXs`, `Reorder`, `ResetNodeIds`, `RemapLabels`, `RemapPointLoads`)
  are stated on the fields they change, and `Valid()` holds again once
  `SortNodes` has run them all. `EulerBeam` is the constructor function.
- `scenarios.dfy` (`Scenarios`): the cases of `test/test_labeling.py`, plus a
  point load followed by a node inserted to its left. Each is stated on the
  functions and replayed through the methods.

`Valid()` is the registry invariant:

- the list length is `Nnodes`;
- coordinates are unique;
- `nodeCoords` is exactly the set of coordinates in the list;
- each node's ID is its list index plus one;
- the label map is empty;
- every point load names, by ID, the node at its own coordinate.

The source keeps the ID equal to index plus one at all times, not only after
a sort:

- a new node gets `Nnodes` when it is appended;
- a merge reuses the old node's ID in place;
- a sort renumbers every node.

The ID equals the node's rank by x only after a sort (`Nodes.SortedIdIsRank`).

Where the code and the prose documentation differ, the model follows the code:

- `getLength` of a one-node beam is 0. Only an empty beam raises.
- A merge in `addNode` builds a fresh node. That node takes over the old
  ID, replaces the label even with `''` or `None`, and drops the node's
  point-load IDs.
- `setFixity` on an existing node sets `hasReaction` even for an all-zero
  fixity.

## Model

| member | source | states |
|---|---|---|
| Fixity.ConvertFixityInput | doc/readthedocs/planesections/builder.py:501-509 | an integer fixity becomes `ndf` copies of itself; a vector is returned unchanged |
| Fixity.CheckFixityInput | doc/readthedocs/planesections/builder.py:485-498 | passes exactly when every entry is 0 or 1, the length is not 2 and not above `ndf`; the value error is reported exactly when some entry is outside {0, 1} (it is checked first) |
| Fixity.UniformFixityAccepted | doc/readthedocs/planesections/builder.py:485-509 | an integer fixity passes validation exactly when it is 0 or 1 |
| Fixity.HasReactionPlanar | doc/readthedocs/planesections/builder.py:70-72 | for a 3-entry fixity, "some DOF restrained" is the code's comparison against `[0,0,0]` |
| Fixity.PlanarFixityTypeRoundTrip | doc/readthedocs/planesections/builder.py:147-162 | the four named kinds and the patterns `[0,0,0]`, `[0,1,0]`, `[1,1,0]`, `[1,1,1]` are inverse; every other vector is unsupported |
| Fixity.PlanarFixityTypeReaction | doc/readthedocs/planesections/builder.py:147-162 | a supported planar support has a reaction exactly when it is not free |
| Fixity.NodeFixityType | doc/readthedocs/planesections/builder.py:195-200 | classification fails exactly for a spatial node, and is the planar classification otherwise |
| Permutations.ArgSortCorrect | doc/readthedocs/planesections/builder.py:282-283 | for distinct coordinates `argsort` is a permutation of the indices that makes them strictly ascending |
| Permutations.ArgSortUnique | doc/readthedocs/planesections/builder.py:282-283 | two permutations that both make distinct coordinates strictly ascending are equal |
| Permutations.ArgSortOfAscending | doc/readthedocs/planesections/builder.py:282-283 | on already ascending coordinates `argsort` is the identity |
| Nodes.FindNode | doc/readthedocs/planesections/builder.py:666-686 | returns the first index whose x equals the input, or None exactly when no node has that x |
| Nodes.FindNodeUnique | doc/readthedocs/planesections/builder.py:683-686 | with unique coordinates the search finds each node at its own index |
| Nodes.UpsertNew | doc/readthedocs/planesections/builder.py:394-396 | a new coordinate appends one node with ID `len + 1`, the supplied fixity and label, no loads, and keeps every existing node |
| Nodes.UpsertMerge | doc/readthedocs/planesections/builder.py:377-393 | an existing coordinate keeps the length, the node's index and ID, replaces fixity and label, empties its load IDs, and leaves every other node alone |
| Nodes.UpsertKeepsRegistry | doc/readthedocs/planesections/builder.py:377-396 | insert-or-merge keeps coordinates unique, IDs equal to index + 1 and loads anchored, adds exactly `x` to the coordinates, and grows the list only for a new coordinate |
| Nodes.UpsertAllKeepsRegistry | doc/readthedocs/planesections/builder.py:479-481 | inserting a batch keeps the invariants and adds exactly the batch's coordinates |
| Nodes.ResortAscending | doc/readthedocs/planesections/builder.py:282-287 | after the sort the list is strictly ascending in x and node i has ID i + 1 |
| Nodes.ResortPermutes | doc/readthedocs/planesections/builder.py:282-285 | every sorted node is a renumbered old node and every old node appears, renumbered, in the sorted list |
| Nodes.ResortCoords | doc/readthedocs/planesections/builder.py:282-285 | the sort keeps the set of coordinates |
| Nodes.ResortSortedIsIdentity | doc/readthedocs/planesections/builder.py:268-289 | sorting a list that is already ascending with IDs 1..N changes nothing |
| Nodes.ResortBy | doc/readthedocs/planesections/builder.py:282-285 | any permutation that makes the coordinates ascending describes the sort |
| Nodes.ResortKeepsRegistry | doc/readthedocs/planesections/builder.py:268-289 | the sorted list is ascending, numbered by position, has the same coordinates, and the remapped loads are anchored in it |
| Nodes.RenumberedIsResort | doc/readthedocs/planesections/builder.py:283-287 | taking the nodes in `argsort` order and numbering them by position gives the sorted list |
| Nodes.AnchoredIdsFound | doc/readthedocs/planesections/builder.py:316-326 | with IDs equal to index + 1 every anchored load's ID is among the sorted IDs, so the lookup at line 325 cannot fail |
| Nodes.RemapLoadsTracksNodes | doc/readthedocs/planesections/builder.py:316-326 | after the remap each load names the node that now sits at its coordinate |
| Nodes.ResortLoads | doc/readthedocs/planesections/builder.py:316-326 | the remapped loads are the same loads in the same order, only their node IDs rewritten, each anchored in the sorted list |
| Nodes.ResortLoadsSortedIsIdentity | doc/readthedocs/planesections/builder.py:316-326 | on an already sorted list the remap changes no load reference |
| Nodes.SortedIdIsRank | doc/readthedocs/planesections/builder.py:308-314 | on a sorted list a node's ID is one plus the number of coordinates to its left |
| Nodes.AnchoredLoadRank | doc/readthedocs/planesections/builder.py:316-326 | on a sorted list each load's node ID is one plus the number of coordinates left of the load |
| Nodes.AnchoredLoadNode | doc/readthedocs/planesections/builder.py:586-591 | an anchored load names the node that the search finds at the load's coordinate |
| Nodes.RemapLabelsIntended | doc/readthedocs/planesections/builder.py:328-337 | corrected label remap: keeps the label set, and each label's new index is where its old index went |
| Nodes.RemapLabelsTracksNodes | doc/readthedocs/planesections/builder.py:328-337 | after the sort, the corrected remap sends each label to the node it was given to |
| Nodes.RemapLabelsAgreeWhenEmpty | doc/readthedocs/planesections/builder.py:235-241 | with the label map empty, as the builder always leaves it, the remap as written and the corrected one agree |
| Nodes.RemapLabelsAsWrittenMisplaces | doc/readthedocs/planesections/builder.py:336 | on nodes at 2, 0, 1 the remap as written moves a label to the node at 1, while the corrected one keeps it on the node at 2 |
| Nodes.ReplaceKeepsRegistry | doc/readthedocs/planesections/builder.py:427-429 | an in-place update that keeps a node's x and ID keeps every invariant, the coordinates and the order |
| Nodes.EnsureNode | doc/readthedocs/planesections/builder.py:580-584 | afterwards `x` is present, nothing else is added, the invariants hold, and a created node leaves the list sorted |
| Nodes.EnsureNodeLoads | doc/readthedocs/planesections/builder.py:580-584 | creating the anchor keeps the same loads, all anchored in the new list |
| Nodes.AppendAnchored | doc/readthedocs/planesections/builder.py:590-593 | appending a load that names the node at its coordinate keeps all loads anchored |
| Nodes.AttachKeepsRegistry | doc/readthedocs/planesections/builder.py:586-593 | attaching a load to a node and appending it by index + 1 keeps every invariant, the coordinates and the order |
| Builder.DirectionalLoad | doc/readthedocs/planesections/builder.py:595-664 | the wrapper vector has `ndf` entries, the magnitude at Fx, Fy or the last (moment) entry, zeros elsewhere |
| Builder.Beam.constructor | doc/readthedocs/planesections/builder.py:235-241 | an empty beam satisfies the invariant |
| Builder.Beam.GetLength | doc/readthedocs/planesections/builder.py:243-253 | defined exactly for a non-empty beam; the first coordinate plus the length is a node's coordinate, and on a sorted beam it is non-negative and spans every node, so it is the largest minus the smallest coordinate |
| Builder.Beam.GetXLims | doc/readthedocs/planesections/builder.py:255-266 | defined exactly for a non-empty beam; both ends are node coordinates, and on a sorted beam they bound every node, so they are the smallest and the largest coordinate |
| Builder.Beam.GetNodeIds | doc/readthedocs/planesections/builder.py:291-306 | between calls the IDs are 1 .. Nnodes in list order |
| Builder.Beam.ResetNodeIds | doc/readthedocs/planesections/builder.py:308-314 | node i gets ID i + 1 and nothing else changes |
| Builder.Beam.RemapPointLoads | doc/readthedocs/planesections/builder.py:316-326 | each load's node ID becomes one plus the first position of its old ID among the sorted IDs |
| Builder.Beam.RemapLabels | doc/readthedocs/planesections/builder.py:328-337 | the label map becomes the remap as written |
| Builder.Beam.CollectXs | doc/readthedocs/planesections/builder.py:273-277 | the collected coordinates are the nodes' x values in list order |
| Builder.Beam.Reorder | doc/readthedocs/planesections/builder.py:283-287 | the nodes taken in `argsort` order and renumbered are the sorted list |
| Builder.Beam.SortNodes | doc/readthedocs/planesections/builder.py:268-289 | the list becomes the sorted, renumbered list and the loads their remap; the invariant holds and the list is ascending |
| Builder.Beam.AddNewNode | doc/readthedocs/planesections/builder.py:435-441 | increments Nnodes, appends the node with ID Nnodes, adds its x, and sorts only when asked |
| Builder.Beam.AddNode | doc/readthedocs/planesections/builder.py:343-397 | returns 1 for a new coordinate and 0 for a merge; Nnodes grows by the flag; the list is the insert-or-merge, sorted only for a new node with `sort`; the invariant holds |
| Builder.Beam.AddLabel | doc/readthedocs/planesections/builder.py:399-433 | relabels an existing node in place (returns 0), or adds a free labelled node (returns 1, sorted when asked) |
| Builder.Beam.AddEach | doc/readthedocs/planesections/builder.py:471-481 | runs `addNode` without sorting over the coordinates until a list runs out; the nodes are the batch insert-or-merge of that prefix, the invariant holds and the loads are untouched |
| Builder.Beam.AddNodes | doc/readthedocs/planesections/builder.py:443-483 | inserts every coordinate without sorting and then sorts once; a short fixity or label list stops it part-way, with the nodes inserted so far kept and unsorted |
| Builder.Beam.SetFixity | doc/readthedocs/planesections/builder.py:511-545 | the result is the validation of the normalised fixity; on failure nothing changes; an existing node takes the fixity with `hasReaction` on and a truthy label only; otherwise a node is added and the list sorted |
| Builder.Beam.AddNodeIfAbsent | doc/readthedocs/planesections/builder.py:580-584 | afterwards a node sits at `x`; one is created (free, label `''`, list sorted) only when absent, and the loads stay anchored |
| Builder.Beam.AttachPointLoad | doc/readthedocs/planesections/builder.py:577-593 | the node found at `x` records the next load ID (and a truthy label); one load naming that node by index + 1 is appended; the invariant and the order hold |
| Builder.Beam.AddPointLoad | doc/readthedocs/planesections/builder.py:547-593 | a scalar is rejected with nothing changed; otherwise the load gets ID `len + 1`, is attached to the node at `x`, and is appended naming that node |
| Builder.Beam.AddHorizontalLoad | doc/readthedocs/planesections/builder.py:645-664 | a point load with only Fx set |
| Builder.Beam.AddVerticalLoad | doc/readthedocs/planesections/builder.py:595-617 | a point load with only Fy set |
| Builder.Beam.AddMoment | doc/readthedocs/planesections/builder.py:619-643 | a point load with only the moment set |
| Builder.Beam.AddDistLoad | doc/readthedocs/planesections/builder.py:688-722 | free end nodes are created where absent, each creation sorting; one element load is appended |
| Builder.EulerBeam | doc/readthedocs/planesections/builder.py:936-979 | fails exactly for a fixity count other than 0 or the node count, or a non-empty label list shorter than the coordinates; otherwise the beam is valid, sorted, and its coordinates are the inputs |
| Scenarios.InsertSupports | test/test_labeling.py:15-27 | inserting 0 and 5 with fixed supports labelled A, B gives nodes with IDs 1 and 2 before the sort |
| Scenarios.InitialBeam | test/test_labeling.py:15-33 | a beam built at 0 and 5 with labels A, B has those labels in that order, IDs 1 and 2 |
| Scenarios.LabelsExisting | test/test_labeling.py:35-50 | merging at 0 with label C gives labels C, B |
| Scenarios.AddD | test/test_labeling.py:53-58 | adding 3 with label D gives nodes 0, 3, 5 labelled A, D, B with IDs 1, 2, 3 |
| Scenarios.LabelsNewNode | test/test_labeling.py:53-69 | adding 6 with label C as well gives labels A, D, B, C |
| Scenarios.LabelsNewExisting | test/test_labeling.py:71-87 | merging at 0 with label C after adding D gives labels C, D, B |
| Scenarios.BuildBeamWithD | test/test_labeling.py:53-58 | the test beam after `addNode(3, label='D')` through the methods holds nodes 0, 3, 5 labelled A, D, B |
| Scenarios.ReplayLabelsExisting | test/test_labeling.py:35-50 | the merge case replayed through the methods yields labels C, B |
| Scenarios.ReplayLabelsNewNode | test/test_labeling.py:53-69 | the two insertions replayed through the methods yield labels A, D, B, C |
| Scenarios.ReplayLabelsNewExisting | test/test_labeling.py:71-87 | the insertion and merge replayed through the methods yield labels C, D, B |
| Scenarios.InsertFree | doc/readthedocs/planesections/builder.py:471-481 | inserting 0, 2.5 and 5 with no fixities or labels gives free nodes with IDs 1, 2, 3 |
| Scenarios.FreeBeam | doc/readthedocs/planesections/builder.py:936-979 | a beam built at 0, 2.5 and 5 holds free, unlabelled nodes with IDs 1, 2, 3 |
| Scenarios.LoadFollowsNode | doc/readthedocs/planesections/builder.py:316-326 | with a load at 2.5 on nodes 0, 2.5, 5, adding a node at 1.0 and resorting makes the load name node 3 |
| Scenarios.BuildFreeBeam | doc/readthedocs/planesections/builder.py:936-979 | `EulerBeam` at 0, 2.5 and 5 through the methods yields free nodes with IDs 1, 2, 3 and no loads |
| Scenarios.BuildLoadedBeam | doc/readthedocs/planesections/builder.py:586-592 | a load at 2.5 on nodes 0, 2.5, 5 names node 2 |
| Scenarios.ReplayLoadSurvivesResort | doc/readthedocs/planesections/builder.py:316-326 | after a node is added at 1.0 the same load names node 3, still the node at 2.5 |

## Left out

- The analysis is not modelled. That covers OpenSees, the result fields
  (`disp`, `rFrc`, `Fint`), `Fmax`, `getInternalForce`, `getBMD`, `getSFD`,
  `reactions` and `reactionDict`, all of which read floating-point output of
  an external solver.
- Section objects are not modelled: `SectionBasic`, `getMaterialPropreties`,
  and the `section`, `plotter`, `d` and `EleType` attributes. They come from
  a file that is not part of this model.
- The mesh builders are not modelled (`newEulerBeam`, `newSimpleEulerBeam`
  and their 2D aliases). They interpolate with `np.linspace` in floating
  point.
- `addDistLoadVertical` and `addDistLoadHorizontal` are not modelled. They
  only build a vector and call `addDistLoad`, which is modelled.
- Console output and deprecation wrappers are not modelled: the print
  helper, `Beam2D`, `EulerBeam2D`, `getMoment` and the `__post_init__`
  hooks.
- `_parseCoords` is not modelled. It returns nothing and nothing calls it.
- The `distLoads` list is not modelled. It is created empty and never used;
  distributed loads go to `eleLoads`.
- Several node and load fields are not modelled: a point load's `label`
  (always `''` here) and `loadPattern`, and a node's `labelIsPlotted`.
- Nodes are modelled as values, not shared objects. In the source the list
  holds each node object exactly once, so in-place updates are modelled as
  replacing one element. A single fixity array shared by all nodes of a
  batch is never mutated in place, so sharing it does not matter.
- Coordinates are exact reals, so NaN and the signed zeros of floating point
  are not modelled. Without NaN, equality and order are Python's.
- A node's ID before `_setID` is `None` in the source; `NewNode` uses 0
  until the registry sets it.
- Fixity.HasReaction: stated as "some entry is nonzero". The source compares
  against a length-3 zero vector with numpy broadcasting, which matches only
  for lengths 1 and 3. Other lengths, including spatial 6-entry fixities,
  are not modelled.
- The `-1` return of `addNode` and `addLabel` is unreachable code and is not
  modelled.
- Builder.Beam.RemapPointLoads: requires every load's ID to occur among the
  sorted IDs. The IndexError raised otherwise cannot happen under `Valid()`,
  as `Nodes.RemapLoadsTracksNodes` proves.
- Builder.Beam.RemapLabels: requires every stored index to be in range. The
  label map is always empty, so the indexing error cannot happen.
- Builder.Beam.GetNodeIds: requires `Valid()`. Its result is stated only for
  states that keep the invariant.
- Builder.Beam.AddNewNode: requires a freshly built node at a new
  coordinate, which is how every caller uses it.
- The dimension strings '2D' and '3D' are a datatype. An unknown dimension
  string, which raises a KeyError in the source, is not modelled.
- `EulerBeam`'s default fixities are float zeros (`np.zeros(ndf)`). They are
  modelled as integer zeros, which compare equal.
- Fixity vectors are not validated by `addNode` or `addNodes`, and the model
  does not validate them there either. Only `setFixity` validates.
- Fixity.ConvertFixityInput: a fixity is either a Python `int` or a vector.
  A float or numpy-integer scalar such as `1.0` or `np.int64(1)` is not
  expanded by `_convertFixityInput` (builder.py:506 tests for `int`), and
  the later `set(fixity)` then raises a TypeError. `FixityInput` cannot
  express such a scalar, so that path is not modelled.

## Findings

| source | as written | input that shows it | evidently intended | confidence | as-written member | corrected member |
|---|---|---|---|---|---|---|
| doc/readthedocs/planesections/builder.py:336 | `_remapLabels` stores `sortedInd[oldIndex]`, which uses the old index as a position in the sorted order | nodes at x = 2, 0, 1 with a label on index 0 (x = 2): `argsort` is [1, 2, 0], so the label moves to index 1, where the node at x = 1 now sits | the label moves to the position of its old index in `sortedInd` (index 2, the node at x = 2) | not executed; latent, since nothing in the builder ever stores a label in `nodeLabels` (`Nodes.RemapLabelsAgreeWhenEmpty`) | Nodes.RemapLabelsAsWrittenMisplaces | Nodes.RemapLabelsIntended |

`Builder.Beam.RemapLabels` keeps the code as written, so the class matches
the source step for step. Its only input is the always-empty label map, and
on that map the as-written and corrected remaps agree. The class therefore
already behaves as intended.
