/**
  RandomWalkNegTransform (galileo/framework/pytorch/python/transforms/rw_neg.py):
  random-walk (target, context) pairs with negative samples per pair.

  The two samplers, `sample_pairs_by_random_walk` and `sample_vertices`, are
  parameters of `Transform`; `walk_p` and `walk_q` are carried as opaque values.
 */
module RwNeg {
  import opened Wrappers
  import opened TensorOps

  /** The exceptions the transform raises. */
  datatype Error =
    | WalkUnspecified        // ValueError: neither walk_length nor metapath
    | PairSampleFailed       // ValueError: the pair sampler returned None
    | PairNotTwoColumns      // torch.split of a table that is not P x 2
    | NegativeSampleFailed   // sample_vertices returned nothing to index
    | NegativeViewMismatch   // view(P, negative_num) of a tensor of another size

  /** The config dict the constructor stores. */
  datatype RwNegConfig<P> = RwNegConfig(
    vertexType: seq<int>,
    edgeTypes: seq<int>,
    negativeNum: int,
    contextSize: int,
    repetition: int,
    walkP: P,
    walkQ: P,
    walkLength: Option<int>,
    metapath: seq<seq<int>>)

  /** `RandomWalkNegTransform.__init__`. */
  function NewRandomWalkNegTransform<P>(
    vertexType: seq<int>, edgeTypes: seq<int>, negativeNum: int, contextSize: int, repetition: int,
    walkP: P, walkQ: P, walkLength: Option<int>, metapath: Option<seq<seq<int>>>
  ): (r: Result<RwNegConfig<P>, Error>)
    ensures r.Failure? <==> walkLength.None? && metapath.None?
    ensures r.Failure? ==> r.error == WalkUnspecified
    ensures metapath.Some? ==> r.Success? && r.value.metapath == metapath.value
    ensures metapath.None? && walkLength.Some? ==>
      && r.Success?
      && |r.value.metapath| == (if walkLength.value <= 0 then 0 else walkLength.value)
      && forall k :: 0 <= k < |r.value.metapath| ==> r.value.metapath[k] == edgeTypes
    ensures r.Success? ==>
      && r.value.vertexType == vertexType && r.value.edgeTypes == edgeTypes
      && r.value.negativeNum == negativeNum && r.value.contextSize == contextSize
      && r.value.repetition == repetition && r.value.walkP == walkP && r.value.walkQ == walkQ
      && r.value.walkLength == walkLength
  {
    if walkLength.None? && metapath.None? then Failure(WalkUnspecified)
    else
      var path := if metapath.None? then Repeat(edgeTypes, walkLength.value) else metapath.value;
      Success(RwNegConfig(vertexType, edgeTypes, negativeNum, contextSize, repetition, walkP, walkQ, walkLength, path))
  }

  /** The dict `transform` returns. */
  datatype RwNegOutput = RwNegOutput(target: Tensor<int>, context: Tensor<int>, negative: Tensor<int>)

  /** Column `c` of a P x 2 table, as a P x 1 tensor (one half of `torch.split(pair, [1, 1], dim=-1)`). */
  function PairColumn(pair: Tensor<int>, c: nat): (col: Tensor<int>)
    requires |pair.shape| == 2 && pair.shape[1] == 2 && c < 2
    ensures col.shape == [pair.shape[0], 1]
  {
    var p := pair.shape[0];
    ProductOfShort(p, 2);
    ProductOfShort(p, 1);
    assert pair.shape == [p, 2];
    assert |pair.data| == 2 * p;
    Shaped([p, 1], seq(p, i requires 0 <= i < p => pair.data[2 * i + c]))
  }

  /**
    `RandomWalkNegTransform.transform`: `samplePairs(vertices, metapath,
    repetition, context_size, p, q)` and `sampleVertices(types, count)` stand
    for the two sampling ops.
   */
  function Transform<P>(
    cfg: RwNegConfig<P>, inputs: Tensor<int>,
    samplePairs: (seq<int>, seq<seq<int>>, int, int, P, P) -> Option<Tensor<int>>,
    sampleVertices: (seq<int>, int) -> Option<seq<Tensor<int>>>
  ): (r: Result<RwNegOutput, Error>)
    ensures
      var pair := samplePairs(inputs.data, cfg.metapath, cfg.repetition, cfg.contextSize, cfg.walkP, cfg.walkQ);
      && (pair.None? ==> r == Failure(PairSampleFailed))
      && (pair.Some? && (|pair.value.shape| != 2 || pair.value.shape[1] != 2) ==> r == Failure(PairNotTwoColumns))
      && (pair.Some? && |pair.value.shape| == 2 && pair.value.shape[1] == 2 ==>
            var count := pair.value.shape[0];
            var sampled := sampleVertices(cfg.vertexType, cfg.negativeNum * count);
            && (sampled.None? || |sampled.value| == 0 ==> r == Failure(NegativeSampleFailed))
            && (sampled.Some? && |sampled.value| > 0 ==>
                  if cfg.negativeNum >= 0 && |sampled.value[0].data| == count * cfg.negativeNum then r.Success?
                  else r == Failure(NegativeViewMismatch)))
    ensures r.Success? ==>
      var pair := samplePairs(inputs.data, cfg.metapath, cfg.repetition, cfg.contextSize, cfg.walkP, cfg.walkQ);
      && pair.Some? && |pair.value.shape| == 2 && pair.value.shape[1] == 2
      && var count := pair.value.shape[0];
      && r.value.target.shape == [count, 1]
      && r.value.context.shape == [count, 1]
      && cfg.negativeNum >= 0
      && r.value.negative.shape == [count, cfg.negativeNum]
      && var sampled := sampleVertices(cfg.vertexType, cfg.negativeNum * count);
      && sampled.Some? && |sampled.value| > 0
      && r.value.negative.data == sampled.value[0].data
  {
    var vertices := inputs.data;
    var pair := samplePairs(vertices, cfg.metapath, cfg.repetition, cfg.contextSize, cfg.walkP, cfg.walkQ);
    if pair.None? then Failure(PairSampleFailed)
    else if |pair.value.shape| != 2 || pair.value.shape[1] != 2 then Failure(PairNotTwoColumns)
    else
      var count := pair.value.shape[0];
      var target := PairColumn(pair.value, 0);
      var context := PairColumn(pair.value, 1);
      var sampled := sampleVertices(cfg.vertexType, cfg.negativeNum * count);
      if sampled.None? || |sampled.value| == 0 then Failure(NegativeSampleFailed)
      else
        var negative := sampled.value[0];
        if cfg.negativeNum < 0 || |negative.data| != count * cfg.negativeNum then Failure(NegativeViewMismatch)
        else
          ProductOfShort(count, cfg.negativeNum);
          Success(RwNegOutput(target, context, Shaped([count, cfg.negativeNum], negative.data)))
  }

  /**
    `target` and `context` hold columns 0 and 1 of the pair table: zipped
    back together, row i of them is row i of the sampled pairs.
   */
  lemma PairsSplitIntoColumns<P>(
    cfg: RwNegConfig<P>, inputs: Tensor<int>,
    samplePairs: (seq<int>, seq<seq<int>>, int, int, P, P) -> Option<Tensor<int>>,
    sampleVertices: (seq<int>, int) -> Option<seq<Tensor<int>>>, i: nat)
    requires Transform(cfg, inputs, samplePairs, sampleVertices).Success?
    ensures
      var pair := samplePairs(inputs.data, cfg.metapath, cfg.repetition, cfg.contextSize, cfg.walkP, cfg.walkQ).value;
      var out := Transform(cfg, inputs, samplePairs, sampleVertices).value;
      i < pair.shape[0] ==>
        && |pair.data| == pair.shape[0] * 2
        && i < |out.target.data| && i < |out.context.data|
        && [out.target.data[i], out.context.data[i]] == Reshape(pair.data, pair.shape[0], 2)[i]
  {
    var pair := samplePairs(inputs.data, cfg.metapath, cfg.repetition, cfg.contextSize, cfg.walkP, cfg.walkQ).value;
    var count := pair.shape[0];
    ProductOfShort(count, 2);
    assert pair.shape == [count, 2];
    if i < count {
      ReshapeAt(pair.data, count, 2, i, 0);
      ReshapeAt(pair.data, count, 2, i, 1);
    }
  }

  /**
    Row j of `negative` is the j-th block of `negative_num` vertices the
    sampler returned, and the rows together are all of them, in order.
   */
  lemma NegativesPerPair<P>(
    cfg: RwNegConfig<P>, inputs: Tensor<int>,
    samplePairs: (seq<int>, seq<seq<int>>, int, int, P, P) -> Option<Tensor<int>>,
    sampleVertices: (seq<int>, int) -> Option<seq<Tensor<int>>>, j: nat)
    requires Transform(cfg, inputs, samplePairs, sampleVertices).Success?
    ensures
      var out := Transform(cfg, inputs, samplePairs, sampleVertices).value;
      var count := out.negative.shape[0];
      var n := cfg.negativeNum;
      var sampled := sampleVertices(cfg.vertexType, n * count).value[0].data;
      var rows := Reshape(out.negative.data, count, n);
      && |rows| == count && Rectangular(rows, n) && Flatten(rows) == sampled
      && (j < count ==> Offset(j, n, n) <= |sampled| && rows[j] == sampled[Offset(j, n, 0)..Offset(j, n, n)])
  {
    var out := Transform(cfg, inputs, samplePairs, sampleVertices).value;
    var count := out.negative.shape[0];
    ProductOfShort(count, cfg.negativeNum);
    FlattenReshape(out.negative.data, count, cfg.negativeNum);
    if j < count {
      ReshapeRow(out.negative.data, count, cfg.negativeNum, j);
    }
  }

  /**
    The class docstring's example: vertex type [0], edge types [0], 3
    negatives, context size 2, walk length 3. With 30 sampled pairs the
    outputs are 30 x 1, 30 x 1 and 30 x 3.
   */
  lemma DocumentedExample(
    samplePairs: (seq<int>, seq<seq<int>>, int, int, real, real) -> Option<Tensor<int>>,
    sampleVertices: (seq<int>, int) -> Option<seq<Tensor<int>>>)
    requires forall v: seq<int> :: var p := samplePairs(v, [[0], [0], [0]], 1, 2, 1.0, 1.0); p.Some? && p.value.shape == [30, 2]
    requires var s := sampleVertices([0], 90); s.Some? && |s.value| > 0 && |s.value[0].data| == 90
    ensures var cfg := NewRandomWalkNegTransform([0], [0], 3, 2, 1, 1.0, 1.0, Some(3), None);
      && cfg.Success? && cfg.value.metapath == [[0], [0], [0]]
      && var r := Transform(cfg.value, Shaped([3], [2, 4, 6]), samplePairs, sampleVertices);
      && r.Success?
      && r.value.target.shape == [30, 1] && r.value.context.shape == [30, 1] && r.value.negative.shape == [30, 3]
  {
    var cfg := NewRandomWalkNegTransform([0], [0], 3, 2, 1, 1.0, 1.0, Some(3), None);
    assert cfg.value.metapath == [[0], [0], [0]];
    assert Product([3]) == 3 by { ProductOfShort(3, 0); }
    var p := samplePairs([2, 4, 6], [[0], [0], [0]], 1, 2, 1.0, 1.0);
    assert p.Some? && p.value.shape == [30, 2];
  }
}
