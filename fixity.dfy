/**
 * Support conditions of a beam node: the fixity vector, its validation and
 * normalisation (`Beam._checkfixityInput`, `Beam._convertFixityInput`), the
 * reaction flag computed by `Node.__init__`, and the planar classification
 * `Node2D.getFixityType`. A fixity entry is 1 for a restrained degree of
 * freedom and 0 for a free one.
 */
module Fixity {
  import opened Wrappers

  /** The beam's dimension: '2D' (planar) or '3D' (spatial). */
  datatype Dimension = Planar | Spatial

  /** Degrees of freedom per node, `_ndf`: 3 for a planar beam, 6 for a spatial one. */
  function Ndf(dim: Dimension): (n: nat) {
    if dim == Planar then 3 else 6
  }

  /** The all-free fixity, `np.zeros(ndf, int)`. */
  function Zeros(n: nat): (z: seq<int>)
    ensures |z| == n && forall i :: 0 <= i < n ==> z[i] == 0
  {
    seq(n, _ => 0)
  }

  /** A fixity as a caller may supply it to `setFixity`: one integer for every DOF, or a vector. */
  datatype FixityInput = Uniform(value: int) | PerDof(values: seq<int>)

  /** The two `ValueError`s of `_checkfixityInput`. */
  datatype FixityError = NotZeroOrOne | BadLength

  /** `_convertFixityInput`: an integer becomes `ndf` copies of itself; a vector is kept. */
  function ConvertFixityInput(f: FixityInput, dim: Dimension): (r: seq<int>)
    ensures f.Uniform? ==> |r| == Ndf(dim) && forall i :: 0 <= i < |r| ==> r[i] == f.value
    ensures f.PerDof? ==> r == f.values
  {
    match f
    case Uniform(v) => seq(Ndf(dim), _ => v)
    case PerDof(vs) => vs
  }

  /**
   * `_checkfixityInput`: the values must be a subset of {0, 1} (checked first),
   * and the length must be neither 2 nor more than `ndf`.
   */
  function CheckFixityInput(f: seq<int>, dim: Dimension): (r: Outcome<FixityError>)
    ensures r == Pass <==>
              (forall i :: 0 <= i < |f| ==> f[i] == 0 || f[i] == 1) && |f| != 2 && |f| <= Ndf(dim)
    ensures r == Fail(NotZeroOrOne) <==> exists i :: 0 <= i < |f| && f[i] != 0 && f[i] != 1
  {
    var values := set i | 0 <= i < |f| :: f[i];
    ValuesWithinZeroOne(f);
    if !(values <= {0, 1}) then Fail(NotZeroOrOne)
    else if |f| == 2 || |f| > Ndf(dim) then Fail(BadLength)
    else Pass
  }

  /** The subset test on the set of values is the per-index test. */
  lemma ValuesWithinZeroOne(f: seq<int>)
    ensures (set i | 0 <= i < |f| :: f[i]) <= {0, 1} <==> forall i :: 0 <= i < |f| ==> f[i] == 0 || f[i] == 1
  {
    var values := set i | 0 <= i < |f| :: f[i];
    if forall i :: 0 <= i < |f| ==> f[i] == 0 || f[i] == 1 {
      forall v | v in values ensures v == 0 || v == 1 {
        var i :| 0 <= i < |f| && f[i] == v;
      }
    } else {
      var i :| 0 <= i < |f| && f[i] != 0 && f[i] != 1;
      assert f[i] in values;
    }
  }

  /** An integer fixity passes validation exactly when it is 0 or 1, for either dimension. */
  lemma UniformFixityAccepted(v: int, dim: Dimension)
    ensures CheckFixityInput(ConvertFixityInput(Uniform(v), dim), dim) == Pass <==> v == 0 || v == 1
  {
    var f := ConvertFixityInput(Uniform(v), dim);
    assert f[0] == v;
  }

  /** `hasReaction` as `Node.__init__` computes it: some DOF is restrained. */
  predicate HasReaction(f: seq<int>) {
    exists i :: 0 <= i < |f| && f[i] != 0
  }

  /** For a planar fixity this is the code's comparison against `[0,0,0]`. */
  lemma HasReactionPlanar(f: seq<int>)
    requires |f| == 3
    ensures HasReaction(f) <==> f != [0, 0, 0]
  {
    if f != [0, 0, 0] {
      assert f[0] != 0 || f[1] != 0 || f[2] != 0;
    }
  }

  /** The display classification of a planar support. */
  datatype FixityKind = Free | Roller | Pinned | Fixed | Unsupported

  /** `Node2D.getFixityType`: exactly four bit patterns are named, every other vector is unsupported. */
  function PlanarFixityType(f: seq<int>): (k: FixityKind) {
    if f == [0, 0, 0] then Free
    else if f == [0, 1, 0] then Roller
    else if f == [1, 1, 0] then Pinned
    else if f == [1, 1, 1] then Fixed
    else Unsupported
  }

  /** The fixity vector each supported kind stands for. */
  function Pattern(k: FixityKind): (f: seq<int>)
    requires k != Unsupported
    ensures |f| == 3
  {
    match k
    case Free => [0, 0, 0]
    case Roller => [0, 1, 0]
    case Pinned => [1, 1, 0]
    case Fixed => [1, 1, 1]
  }

  /** Classification and pattern are inverse to each other on the supported kinds. */
  lemma PlanarFixityTypeRoundTrip(f: seq<int>, k: FixityKind)
    ensures k != Unsupported ==> PlanarFixityType(Pattern(k)) == k
    ensures PlanarFixityType(f) != Unsupported ==> Pattern(PlanarFixityType(f)) == f
  {
  }

  /** A supported planar support reacts exactly when it is not free. */
  lemma PlanarFixityTypeReaction(f: seq<int>)
    requires PlanarFixityType(f) != Unsupported
    ensures HasReaction(f) <==> PlanarFixityType(f) != Free
  {
    HasReactionPlanar(f);
  }

  /** `getFixityType` dispatched on the node variant: a spatial node always raises. */
  function NodeFixityType(dim: Dimension, f: seq<int>): (r: Result<FixityKind, string>)
    ensures r.Failure? <==> dim == Spatial
    ensures dim == Planar ==> r == Success(PlanarFixityType(f))
  {
    match dim
    case Planar => Success(PlanarFixityType(f))
    case Spatial => Failure("Plotting for 3D beams not yet supported")
  }
}
