/**
  MultiHopFeatureTransform (galileo/framework/tf/python/transforms/multi_hop_feature.py):
  validates and normalises the dense and sparse feature configuration, and
  turns a sampled multi-hop id table into the output dict of ids, dense and
  sparse features and edge weights.

  `sample_multi_hop` (MultiHopNeighborTransform) is not part of this model: its
  result is a parameter of `Transform`. `get_pod_feature` is a parameter
  `pod(vertex, name, dim)` giving the feature of one vertex under one name.
 */
module MultiHopFeature {
  import opened Wrappers
  import opened TensorOps

  /** A `*_feature_dims` argument: None, an int, or a list of ints. */
  datatype Dims = NoDims | IntDim(dim: int) | DimList(dims: seq<int>)

  /** The exceptions the constructor raises. */
  datatype Error =
    | NoFeatureNames        // ValueError: neither dense nor sparse names
    | DenseDimsMissing      // assert dense_feature_dims: None, 0 or []
    | DenseLengthMismatch   // assert len(dense names) == len(dense dims)
    | SparseDimNotOne       // ValueError: a sparse dim other than 1
    | SparseLengthMismatch  // assert len(sparse names) == len(sparse dims)

  /** The configuration the constructor hands on to MultiHopNeighborTransform. */
  datatype FeatureConfig = FeatureConfig(
    metapath: seq<seq<int>>,
    fanouts: seq<int>,
    edgeWeight: bool,
    denseNames: Option<seq<string>>,
    denseDims: Dims,
    sparseNames: Option<seq<string>>,
    sparseDims: Dims)
  {
    /** What a successfully constructed configuration satisfies. */
    predicate Valid()
    {
      && (denseNames.Some? || sparseNames.Some?)
      && (denseNames.Some? ==> denseDims.DimList? && |denseDims.dims| == |denseNames.value|)
      && (sparseNames.Some? ==>
            && sparseDims.DimList? && |sparseDims.dims| == |sparseNames.value|
            && forall k :: 0 <= k < |sparseDims.dims| ==> sparseDims.dims[k] == 1)
    }
  }

  /** Python truthiness of a dims argument. */
  predicate Truthy(d: Dims)
  {
    match d
    case NoDims => false
    case IntDim(x) => x != 0
    case DimList(ds) => ds != []
  }

  /** An int dim becomes one copy per name; anything else is left as it is. */
  function Broadcast(d: Dims, count: nat): Dims
  {
    if d.IntDim? then DimList(Repeat(d.dim, count)) else d
  }

  /** Lines 64-70: the dense dims must be given, are broadcast, and must match the names. */
  function NormaliseDense(names: seq<string>, dims: Dims): (r: Result<seq<int>, Error>)
    ensures !Truthy(dims) ==> r == Failure(DenseDimsMissing)
    ensures dims.IntDim? && dims.dim != 0 ==> r == Success(Repeat(dims.dim, |names|))
    ensures dims.DimList? && dims.dims != [] ==>
      r == if |dims.dims| == |names| then Success(dims.dims) else Failure(DenseLengthMismatch)
  {
    if !Truthy(dims) then Failure(DenseDimsMissing)
    else
      var ds := Broadcast(dims, |names|).dims;
      if |ds| != |names| then Failure(DenseLengthMismatch) else Success(ds)
  }

  /** Lines 71-80: the sparse dims default to 1, are broadcast, must all be 1 and must match the names. */
  function NormaliseSparse(names: seq<string>, dims: Dims): (r: Result<seq<int>, Error>)
    ensures r.Success? ==> |r.value| == |names| && forall k :: 0 <= k < |r.value| ==> r.value[k] == 1
    ensures dims.NoDims? || dims == IntDim(1) ==> r == Success(Repeat(1, |names|))
    ensures dims.IntDim? && dims.dim != 1 ==> r == if names == [] then Success([]) else Failure(SparseDimNotOne)
    ensures dims.DimList? ==>
      r == if exists k :: 0 <= k < |dims.dims| && dims.dims[k] != 1 then Failure(SparseDimNotOne)
           else if |dims.dims| != |names| then Failure(SparseLengthMismatch)
           else Success(dims.dims)
  {
    var ds := Broadcast(if dims.NoDims? then IntDim(1) else dims, |names|).dims;
    assert dims.IntDim? && names != [] ==> ds[0] == dims.dim;
    if exists k :: 0 <= k < |ds| && ds[k] != 1 then Failure(SparseDimNotOne)
    else if |ds| != |names| then Failure(SparseLengthMismatch)
    else Success(ds)
  }

  /** `MultiHopFeatureTransform.__init__`. */
  function NewMultiHopFeatureTransform(
    metapath: seq<seq<int>>, fanouts: seq<int>, edgeWeight: bool,
    denseNames: Option<seq<string>>, denseDims: Dims,
    sparseNames: Option<seq<string>>, sparseDims: Dims
  ): (r: Result<FeatureConfig, Error>)
    ensures r.Success? ==> r.value.Valid()
    ensures r.Success? ==>
      && r.value.metapath == metapath && r.value.fanouts == fanouts && r.value.edgeWeight == edgeWeight
      && r.value.denseNames == denseNames && r.value.sparseNames == sparseNames
      && (denseNames.None? ==> r.value.denseDims == denseDims)
      && (sparseNames.None? ==> r.value.sparseDims == sparseDims)
    ensures denseNames.None? && sparseNames.None? ==> r == Failure(NoFeatureNames)
    ensures denseNames.Some? && NormaliseDense(denseNames.value, denseDims).Failure? ==>
      r == Failure(NormaliseDense(denseNames.value, denseDims).error)
    ensures ((denseNames.None? || NormaliseDense(denseNames.value, denseDims).Success?)
             && sparseNames.Some? && NormaliseSparse(sparseNames.value, sparseDims).Failure?) ==>
      r == Failure(NormaliseSparse(sparseNames.value, sparseDims).error)
    ensures ((denseNames.Some? || sparseNames.Some?)
             && (denseNames.None? || NormaliseDense(denseNames.value, denseDims).Success?)
             && (sparseNames.None? || NormaliseSparse(sparseNames.value, sparseDims).Success?)) ==>
      r.Success?
    ensures denseNames.Some? && r.Success? ==>
      r.value.denseDims.DimList? && NormaliseDense(denseNames.value, denseDims) == Success(r.value.denseDims.dims)
    ensures sparseNames.Some? && r.Success? ==>
      r.value.sparseDims.DimList? && NormaliseSparse(sparseNames.value, sparseDims) == Success(r.value.sparseDims.dims)
  {
    if denseNames.None? && sparseNames.None? then Failure(NoFeatureNames)
    else
      var dense := if denseNames.Some? then NormaliseDense(denseNames.value, denseDims) else Success([]);
      if dense.Failure? then Failure(dense.error)
      else
        var sparse := if sparseNames.Some? then NormaliseSparse(sparseNames.value, sparseDims) else Success([]);
        if sparse.Failure? then Failure(sparse.error)
        else
          Success(FeatureConfig(
            metapath, fanouts, edgeWeight,
            denseNames, if denseNames.Some? then DimList(dense.value) else denseDims,
            sparseNames, if sparseNames.Some? then DimList(sparse.value) else sparseDims))
  }

  /** `get_pod_feature` returns for every name a feature of the requested dim. */
  ghost predicate Honours<F>(pod: (int, string, int) -> seq<F>, names: seq<string>, dims: seq<int>)
  {
    |names| == |dims| && forall v: int, i :: 0 <= i < |names| ==> |pod(v, names[i], dims[i])| == dims[i]
  }

  /** The features of one vertex, `tf.concat(features, axis=-1)` of the per-name features. */
  function FeatureRow<F>(pod: (int, string, int) -> seq<F>, names: seq<string>, dims: seq<int>, v: int): seq<F>
    requires |names| == |dims|
  {
    if names == [] then [] else pod(v, names[0], dims[0]) + FeatureRow(pod, names[1..], dims[1..], v)
  }

  /** A feature row is `sum(feature_dims)` wide. */
  lemma {:induction false} FeatureRowLength<F>(pod: (int, string, int) -> seq<F>, names: seq<string>, dims: seq<int>, v: int)
    requires Honours(pod, names, dims)
    ensures Sum(dims) >= 0 && |FeatureRow(pod, names, dims, v)| == Sum(dims)
  {
    if names != [] {
      assert |pod(v, names[0], dims[0])| == dims[0];
      assert Honours(pod, names[1..], dims[1..]) by {
        forall u: int, i | 0 <= i < |names| - 1 ensures |pod(u, names[1..][i], dims[1..][i])| == dims[1..][i] {
          assert |pod(u, names[i + 1], dims[i + 1])| == dims[i + 1];
        }
      }
      FeatureRowLength(pod, names[1..], dims[1..], v);
    }
  }

  lemma {:induction false} ProductAppend(shape: seq<nat>, w: nat)
    ensures Product(shape + [w]) == Product(shape) * w
  {
    if shape != [] {
      assert (shape + [w])[1..] == shape[1..] + [w];
      ProductAppend(shape[1..], w);
      assert Product(shape + [w]) == shape[0] * (Product(shape[1..]) * w);
    } else {
      ProductOfShort(w, 0);
    }
  }

  /** The rows `get_pod_feature` returns for the unique vertices. */
  function UniqueRows<F>(vertices: seq<int>, pod: (int, string, int) -> seq<F>, names: seq<string>, dims: seq<int>)
    : (rows: seq<seq<F>>)
    requires Honours(pod, names, dims)
    ensures Sum(dims) >= 0 && |rows| == |vertices| && Rectangular(rows, Sum(dims))
  {
    FeatureRowLength(pod, names, dims, 0);
    var rows := seq(|vertices|, k requires 0 <= k < |vertices| => FeatureRow(pod, names, dims, vertices[k]));
    assert Rectangular(rows, Sum(dims)) by {
      forall k | 0 <= k < |vertices| ensures |rows[k]| == Sum(dims) {
        FeatureRowLength(pod, names, dims, vertices[k]);
      }
    }
    rows
  }

  /**
    `get_feature`: None without names; otherwise the features of the unique
    vertices, gathered back to every position when `indices` is given, and
    then reshaped to `origin_shape` followed by `sum(feature_dims)`.
   */
  function GetFeature<F>(
    vertices: seq<int>, names: Option<seq<string>>, dims: Dims, pod: (int, string, int) -> seq<F>,
    indices: Option<seq<nat>>, originShape: Option<seq<nat>>
  ): (r: Option<Tensor<F>>)
    requires names.Some? ==> dims.DimList? && Honours(pod, names.value, dims.dims)
    requires indices.Some? ==> InRange(indices.value, |vertices|)
    requires indices.Some? && originShape.Some? ==> Product(originShape.value) == |indices.value|
    ensures r.None? <==> names.None?
    ensures r.Some? ==> Sum(dims.dims) >= 0
    ensures r.Some? && indices.None? ==> r.value.shape == [|vertices|, Sum(dims.dims)]
    ensures r.Some? && indices.Some? && originShape.None? ==> r.value.shape == [|indices.value|, Sum(dims.dims)]
    ensures r.Some? && indices.Some? && originShape.Some? ==> r.value.shape == originShape.value + [Sum(dims.dims)]
  {
    if names.None? then None
    else
      var rows := UniqueRows(vertices, pod, names.value, dims.dims);
      var width: nat := Sum(dims.dims);
      if indices.None? then
        FlattenLength(rows, width);
        ProductOfShort(|vertices|, width);
        Some(Shaped([|vertices|, width], Flatten(rows)))
      else
        var gathered := Gather(rows, indices.value);
        assert Rectangular(gathered, width);
        FlattenLength(gathered, width);
        if originShape.None? then
          ProductOfShort(|indices.value|, width);
          Some(Shaped([|indices.value|, width], Flatten(gathered)))
        else
          ProductAppend(originShape.value, width);
          Some(Shaped(originShape.value + [width], Flatten(gathered)))
  }

  /** The feature rows of a sequence of vertices, one per position. */
  function RowsOf<F>(ids: seq<int>, pod: (int, string, int) -> seq<F>, names: seq<string>, dims: seq<int>): seq<seq<F>>
    requires |names| == |dims|
  {
    seq(|ids|, i requires 0 <= i < |ids| => FeatureRow(pod, names, dims, ids[i]))
  }

  /**
    After `tf.unique`, gathering the unique vertices' features at `indices`
    gives, position by position, the features of the flattened ids: the
    feature at position i belongs to vertex `vertices_flat[i]`. Any pair
    that gathers back to the ids will do, `Unique(flat)` among them.
   */
  lemma FeaturesFollowIds<F>(
    flat: seq<int>, vertices: seq<int>, indices: seq<nat>,
    pod: (int, string, int) -> seq<F>, names: seq<string>, dims: seq<int>, originShape: seq<nat>)
    requires Honours(pod, names, dims) && Product(originShape) == |flat|
    requires InRange(indices, |vertices|) && Gather(vertices, indices) == flat
    ensures var r := GetFeature(vertices, Some(names), DimList(dims), pod, Some(indices), Some(originShape));
      r.Some? && r.value.data == Flatten(RowsOf(flat, pod, names, dims))
  {
    var rows := UniqueRows(vertices, pod, names, dims);
    assert Gather(rows, indices) == RowsOf(flat, pod, names, dims) by {
      forall i | 0 <= i < |flat| ensures Gather(rows, indices)[i] == RowsOf(flat, pod, names, dims)[i] {
        assert Gather(vertices, indices)[i] == flat[i];
      }
    }
  }

  /** One entry of the output dict. */
  datatype Output<D, S, E> =
    | Ids(ids: Tensor<int>)
    | DenseFeatures(dense: Tensor<D>)
    | SparseFeatures(sparse: Tensor<S>)
    | EdgeWeights(weights: E)

  /**
    `MultiHopFeatureTransform.transform`: `multiHops` is what `sample_multi_hop`
    returned (the id table and its edge weights); the output dict is built up
    one key at a time.
   */
  method Transform<D, S, E>(
    cfg: FeatureConfig, multiHops: (Tensor<int>, E),
    densePod: (int, string, int) -> seq<D>, sparsePod: (int, string, int) -> seq<S>
  ) returns (outputs: map<string, Output<D, S, E>>)
    requires cfg.Valid()
    requires cfg.denseNames.Some? ==> Honours(densePod, cfg.denseNames.value, cfg.denseDims.dims)
    requires cfg.sparseNames.Some? ==> Honours(sparsePod, cfg.sparseNames.value, cfg.sparseDims.dims)
    ensures "ids" in outputs && outputs["ids"] == Ids(multiHops.0)
    ensures "dense" in outputs <==> cfg.denseNames.Some?
    ensures "sparse" in outputs <==> cfg.sparseNames.Some?
    ensures "edge_weight" in outputs <==> cfg.edgeWeight
    ensures outputs.Keys <= {"ids", "dense", "sparse", "edge_weight"}
    ensures "dense" in outputs ==>
      && outputs["dense"].DenseFeatures?
      && outputs["dense"].dense.shape == multiHops.0.shape + [Sum(cfg.denseDims.dims)]
      && outputs["dense"].dense.data == Flatten(RowsOf(multiHops.0.data, densePod, cfg.denseNames.value, cfg.denseDims.dims))
    ensures "sparse" in outputs ==>
      && outputs["sparse"].SparseFeatures?
      && outputs["sparse"].sparse.shape == multiHops.0.shape + [Sum(cfg.sparseDims.dims)]
      && outputs["sparse"].sparse.data == Flatten(RowsOf(multiHops.0.data, sparsePod, cfg.sparseNames.value, cfg.sparseDims.dims))
    ensures "edge_weight" in outputs ==> outputs["edge_weight"] == EdgeWeights(multiHops.1)
  {
    var ids := multiHops.0;
    outputs := map["ids" := Ids(ids)];
    var verticesFlat := ids.data;
    var (vertices, indices) := Unique(verticesFlat);
    var dense := GetFeature(vertices, cfg.denseNames, cfg.denseDims, densePod, Some(indices), Some(ids.shape));
    if dense.Some? {
      FeaturesFollowIds(verticesFlat, vertices, indices, densePod, cfg.denseNames.value, cfg.denseDims.dims, ids.shape);
      outputs := outputs["dense" := DenseFeatures(dense.value)];
    }
    assert outputs.Keys == {"ids"} + (if cfg.denseNames.Some? then {"dense"} else {});
    var sparse := GetFeature(vertices, cfg.sparseNames, cfg.sparseDims, sparsePod, Some(indices), Some(ids.shape));
    if sparse.Some? {
      FeaturesFollowIds(verticesFlat, vertices, indices, sparsePod, cfg.sparseNames.value, cfg.sparseDims.dims, ids.shape);
      outputs := outputs["sparse" := SparseFeatures(sparse.value)];
    }
    if cfg.edgeWeight {
      outputs := outputs["edge_weight" := EdgeWeights(multiHops.1)];
    }
  }

  /**
    The class docstring's example: one dense feature named "feature" of dim
    5 over a two-hop sample with fanouts [2, 3], so every one of 2 inputs
    has 1 + 2 + 2*3 = 9 ids.
   */
  lemma DocumentedConfig()
    ensures var r := NewMultiHopFeatureTransform([[0], [0]], [2, 3], false, Some(["feature"]), IntDim(5), None, NoDims);
      r.Success? && r.value.denseDims == DimList([5]) && r.value.sparseNames.None? && !r.value.edgeWeight
  {
    assert Repeat(5, 1) == [5];
  }

  /** The example's outputs: keys `ids` and `dense`, and dense of shape [2, 9, 5]. */
  method DocumentedExample<D, E>(hops: (Tensor<int>, E), densePod: (int, string, int) -> seq<D>)
    returns (outputs: map<string, Output<D, int, E>>)
    requires hops.0.shape == [2, 9] && Honours(densePod, ["feature"], [5])
    ensures outputs.Keys == {"ids", "dense"}
    ensures outputs["ids"].Ids? && outputs["ids"].ids.shape == [2, 9]
    ensures outputs["dense"].DenseFeatures? && outputs["dense"].dense.shape == [2, 9, 5]
  {
    DocumentedConfig();
    var cfg := NewMultiHopFeatureTransform([[0], [0]], [2, 3], false, Some(["feature"]), IntDim(5), None, NoDims).value;
    var noPod: (int, string, int) -> seq<int> := (v, name, dim) => [];
    outputs := Transform(cfg, hops, densePod, noPod);
    assert Sum([5]) == 5;
  }
}
