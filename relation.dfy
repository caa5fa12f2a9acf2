/**
  RelationTransform (galileo/framework/tf/python/transforms/relation.py):
  turns a batch of multi-hop neighbour tables into a relation graph, that is
  the target vertex of every row, a 2 x E list of edges gathered from column
  pairs of the table, and the edge weights with the target column dropped.

  The helpers `get_fanouts_list` and `get_fanouts_indices` are not part of
  this model: their results are parameters of the constructor. Edge weights
  are opaque payloads of type W.
 */
module Relation {
  import opened Wrappers
  import opened TensorOps

  /** The exceptions the constructor and `transform` raise. */
  datatype Error =
    | FanoutsMissing       // `assert fanouts` fails on None or an empty list
    | NotEnoughValues      // `inputs[:2]` of a list or tuple with fewer than two items
    | IndicesKeyMissing    // `inputs['indices']` of a dict without that key
    | IndicesNotIds        // the indices are None or a weight tensor
    | ReshapeFailed        // the number of indices is not a multiple of fanouts_dim
    | TargetReshapeFailed  // rank > 2 and the leading dimensions do not hold the rows
    | WeightRankTooLow     // `edge_weight[:, 1:]` of a tensor of rank 0 or 1
    | WeightNotWeights     // an id tensor where the edge weights belong

  /** A Python value the transform may receive: None, an id tensor or a weight tensor. */
  datatype Value<W> = NoneValue | IdTensor(ids: Tensor<int>) | WeightTensor(weights: Tensor<W>)

  /** The argument of `transform`, by its Python type. */
  datatype Inputs<W> =
    | ListOrTuple(items: seq<Value<W>>)
    | Dict(entries: map<string, Value<W>>)
    | Other(value: Value<W>)

  /** The output dict; `relationWeight` is None when no edge weight was given. */
  datatype RelationGraph<W> = RelationGraph(
    relationIndices: seq<seq<int>>,
    relationWeight: Option<Tensor<W>>,
    targetIndices: Tensor<int>)

  /** What `get_fanouts_indices` is relied on to return: column pairs of a fanouts_dim wide table. */
  predicate FanoutsIndicesShape(fanoutsDim: nat, fanoutsIndices: seq<nat>)
  {
    fanoutsDim > 0 && |fanoutsIndices| >= 2 && |fanoutsIndices| % 2 == 0 && InRange(fanoutsIndices, fanoutsDim)
  }

  /** The fields the constructor sets. */
  datatype RelationTransform = RelationTransform(
    fanouts: seq<int>,
    fanoutsList: seq<nat>,
    fanoutsDim: nat,
    fanoutsIndices: seq<nat>,
    sortIndices: bool)
  {
    predicate Valid()
    {
      fanouts != [] && fanoutsDim == Sum(fanoutsList) && FanoutsIndicesShape(fanoutsDim, fanoutsIndices)
    }

    /** Number of edges each row of the table contributes. */
    function EdgesPerRow(): nat
    {
      |fanoutsIndices| / 2
    }
  }

  /**
    `RelationTransform.__init__`: rejects a missing or empty `fanouts`, otherwise
    stores it with the hop widths, their sum and the column pairs.
   */
  function NewRelationTransform(
    fanouts: Option<seq<int>>, fanoutsList: seq<nat>, fanoutsIndices: seq<nat>, sortIndices: bool
  ): (r: Result<RelationTransform, Error>)
    requires Sum(fanoutsList) >= 0 && FanoutsIndicesShape(Sum(fanoutsList), fanoutsIndices)
    ensures r.Success? <==> fanouts.Some? && fanouts.value != []
    ensures r.Failure? ==> r.error == FanoutsMissing
    ensures r.Success? ==>
      && r.value.Valid() && r.value.fanouts == fanouts.value
      && r.value.fanoutsDim == Sum(fanoutsList) && r.value.fanoutsIndices == fanoutsIndices
      && r.value.sortIndices == sortIndices
  {
    if fanouts.None? || fanouts.value == [] then Failure(FanoutsMissing)
    else Success(RelationTransform(fanouts.value, fanoutsList, Sum(fanoutsList), fanoutsIndices, sortIndices))
  }

  /**
    Picks `(indices, edge_weight)` out of the argument according to its type:
    the first two items of a list or tuple, the two keys of a dict (a missing
    `edge_weight` reads as None), or the whole argument with no weights.
   */
  function Dispatch<W>(inputs: Inputs<W>): (r: Result<(Value<W>, Value<W>), Error>)
    ensures r.Failure? <==>
      (inputs.ListOrTuple? && |inputs.items| < 2) || (inputs.Dict? && "indices" !in inputs.entries)
    ensures r.Failure? ==> r.error == if inputs.ListOrTuple? then NotEnoughValues else IndicesKeyMissing
    ensures inputs.ListOrTuple? && r.Success? ==> r.value == (inputs.items[0], inputs.items[1])
    ensures inputs.Dict? && r.Success? ==>
      && r.value.0 == inputs.entries["indices"]
      && ("edge_weight" in inputs.entries ==> r.value.1 == inputs.entries["edge_weight"])
      && ("edge_weight" !in inputs.entries ==> r.value.1 == NoneValue)
    ensures inputs.Other? ==> r == Success((inputs.value, NoneValue))
  {
    match inputs
    case ListOrTuple(items) =>
      if |items| < 2 then Failure(NotEnoughValues) else Success((items[0], items[1]))
    case Dict(entries) =>
      if "indices" !in entries then Failure(IndicesKeyMissing)
      else Success((entries["indices"], if "edge_weight" in entries then entries["edge_weight"] else NoneValue))
    case Other(v) => Success((v, NoneValue))
  }

  /** `tf.reshape(indices, [-1, fanouts_dim])`: the indices as rows of the multi-hop table. */
  function IndexTable(rt: RelationTransform, ids: Tensor<int>): (rows: seq<seq<int>>)
    requires rt.Valid() && |ids.data| % rt.fanoutsDim == 0
    ensures |rows| == |ids.data| / rt.fanoutsDim && Rectangular(rows, rt.fanoutsDim)
  {
    Reshape(ids.data, |ids.data| / rt.fanoutsDim, rt.fanoutsDim)
  }

  /** Column 0 of the table, shaped like the indices without their last axis when their rank exceeds 2. */
  function TargetIndices(shape: seq<nat>, column: seq<int>): Result<Tensor<int>, Error>
  {
    if |shape| > 2 then
      var leading := shape[..|shape| - 1];
      if Product(leading) == |column| then Success(Shaped(leading, column)) else Failure(TargetReshapeFailed)
    else
      ProductOfShort(|column|, 0);
      Success(Shaped([|column|], column))
  }

  predicate HalfSplitOk(n: nat)
  {
    n / 2 > 0 && n % (n / 2) == 0 && n / (n / 2) == 2
  }

  lemma HalfSplit(n: nat)
    requires n >= 2 && n % 2 == 0
    ensures HalfSplitOk(n)
  {
    var k := n / 2;
    assert n == k * 2;
  }

  /**
    Gathers the rows of the transposed table named by `fanoutsIndices`, splits
    them into pairs of rows and concatenates the pairs side by side.
   */
  function RelationIndices(indicesT: seq<seq<int>>, fanoutsIndices: seq<nat>, m: nat): seq<seq<int>>
    requires Rectangular(indicesT, m) && InRange(fanoutsIndices, |indicesT|)
    requires |fanoutsIndices| >= 2 && |fanoutsIndices| % 2 == 0
  {
    var gathered := Gather(indicesT, fanoutsIndices);
    HalfSplit(|fanoutsIndices|);
    var pieces := Split(gathered, |fanoutsIndices| / 2);
    ConcatAxis1(pieces, 2)
  }

  /** `tf.gather(t, idx, axis=1)`: the columns of a table picked by `idx`. */
  function GatherColumns(t: seq<seq<int>>, cols: nat, idx: seq<nat>): (r: seq<seq<int>>)
    requires Rectangular(t, cols) && InRange(idx, cols)
    ensures |r| == |t| && Rectangular(r, |idx|)
  {
    seq(|t|, i requires 0 <= i < |t| => Gather(t[i], idx))
  }

  /** Reorders the columns of a 2 x E edge list by `tf.argsort` of its first row. */
  function SortByFirstRow(relation: seq<seq<int>>): seq<seq<int>>
    requires |relation| == 2 && |relation[0]| == |relation[1]|
  {
    GatherColumns(relation, |relation[0]|, Argsort(relation[0]))
  }

  /** The edges of a 2 x E edge list, one (source, destination) pair per column. */
  function Columns(relation: seq<seq<int>>): seq<(int, int)>
    requires |relation| == 2 && |relation[0]| == |relation[1]|
  {
    seq(|relation[0]|, c requires 0 <= c < |relation[0]| => (relation[0][c], relation[1][c]))
  }

  /** Number of elements `edge_weight[:, 1:]` keeps of each leading block. */
  function Keep(blockSize: nat, inner: nat): nat
  {
    if inner <= blockSize then blockSize - inner else 0
  }

  /** `tf.reshape(edge_weight[:, 1:], [-1, 1])`: every row without its first entry, as one column. */
  function DropFirstColumn<W>(w: Tensor<W>): (r: Tensor<W>)
    requires |w.shape| >= 2
    ensures |r.shape| == 2 && r.shape[1] == 1
  {
    var n := w.shape[0];
    var blockSize := Product(w.shape[1..]);
    var inner := Product(w.shape[2..]);
    var blocks := Reshape(w.data, n, blockSize);
    var kept := seq(n, i requires 0 <= i < n => blocks[i][blockSize - Keep(blockSize, inner)..]);
    assert Rectangular(kept, Keep(blockSize, inner));
    FlattenLength(kept, Keep(blockSize, inner));
    var flat := Flatten(kept);
    ProductOfShort(|flat|, 1);
    Shaped([|flat|, 1], flat)
  }

  /**
    For any rank of at least 2, each of the N leading rows keeps all but the
    first slice of axis 1, that is `Keep(D * inner, inner)` entries.
   */
  lemma DropFirstColumnRows<W>(w: Tensor<W>)
    requires |w.shape| >= 2
    ensures DropFirstColumn(w).shape[0] == w.shape[0] * Keep(Product(w.shape[1..]), Product(w.shape[2..]))
  {
    var n := w.shape[0];
    var blockSize := Product(w.shape[1..]);
    var keep := Keep(blockSize, Product(w.shape[2..]));
    var blocks := Reshape(w.data, n, blockSize);
    var kept := seq(n, i requires 0 <= i < n => blocks[i][blockSize - keep..]);
    assert Rectangular(kept, keep);
    FlattenLength(kept, keep);
    assert DropFirstColumn(w).data == Flatten(kept);
  }

  /** For a rank-2 N x D weight table, entry `n * (D-1) + j` of the result is row `n`, column `j + 1`. */
  lemma DropFirstColumnAt<W>(w: Tensor<W>, n: nat, j: nat)
    requires |w.shape| == 2 && w.shape[1] >= 1
    ensures DropFirstColumn(w).shape == [w.shape[0] * (w.shape[1] - 1), 1]
    ensures n < w.shape[0] && j < w.shape[1] - 1 ==>
      && Offset(n, w.shape[1] - 1, j) < |DropFirstColumn(w).data| && Offset(n, w.shape[1], j + 1) < |w.data|
      && DropFirstColumn(w).data[Offset(n, w.shape[1] - 1, j)] == w.data[Offset(n, w.shape[1], j + 1)]
  {
    var rows := w.shape[0];
    var d := w.shape[1];
    assert w.shape[1..] == [d] && w.shape[2..] == [];
    ProductOfShort(d, 0);
    assert Keep(d, 1) == d - 1;
    DropFirstColumnRows(w);
    if n < rows && j < d - 1 {
      var blocks := Reshape(w.data, rows, d);
      var kept := seq(rows, i requires 0 <= i < rows => blocks[i][1..]);
      assert Rectangular(kept, d - 1) by {
        forall i | 0 <= i < rows ensures |kept[i]| == d - 1 {
          assert |blocks[i]| == d;
        }
      }
      assert DropFirstColumn(w).data == Flatten(kept);
      FlattenAt(kept, d - 1, n, j);
      ReshapeAt(w.data, rows, d, n, j + 1);
    }
  }

  /** The `relation_weight` entry: None without edge weights, else the dropped-column weights. */
  function RelationWeight<W>(edgeWeight: Value<W>): Result<Option<Tensor<W>>, Error>
  {
    match edgeWeight
    case NoneValue => Success(None)
    case IdTensor(_) => Failure(WeightNotWeights)
    case WeightTensor(w) =>
      if |w.shape| < 2 then Failure(WeightRankTooLow) else Success(Some(DropFirstColumn(w)))
  }

  /** The unsorted 2 x E edge list of an id tensor. */
  function UnsortedRelation(rt: RelationTransform, ids: Tensor<int>): seq<seq<int>>
    requires rt.Valid() && |ids.data| % rt.fanoutsDim == 0
  {
    var rows := IndexTable(rt, ids);
    RelationIndices(Transpose(rows, rt.fanoutsDim), rt.fanoutsIndices, |rows|)
  }

  /**
    The dispatched `(indices, edge_weight)` the transform accepts: an id
    tensor whose size is a multiple of fanouts_dim, whose leading axes hold
    exactly the rows of the table when its rank exceeds 2, and no weights or
    a weight tensor of rank at least 2.
   */
  predicate Transformable<W>(rt: RelationTransform, indices: Value<W>, edgeWeight: Value<W>)
    requires rt.Valid()
  {
    && indices.IdTensor? && |indices.ids.data| % rt.fanoutsDim == 0
    && (|indices.ids.shape| > 2 ==>
          Product(indices.ids.shape[..|indices.ids.shape| - 1]) == |indices.ids.data| / rt.fanoutsDim)
    && (edgeWeight.NoneValue? || (edgeWeight.WeightTensor? && |edgeWeight.weights.shape| >= 2))
  }

  /**
    `RelationTransform.transform`: succeeds exactly on transformable inputs,
    and then gives a 2 x (edges per row * N) edge list and a weight column
    exactly when weights were given.
   */
  function Transform<W>(rt: RelationTransform, inputs: Inputs<W>): (r: Result<RelationGraph<W>, Error>)
    requires rt.Valid()
    ensures Dispatch(inputs).Failure? ==> r == Failure(Dispatch(inputs).error)
    ensures r.Success? <==>
      Dispatch(inputs).Success? && Transformable(rt, Dispatch(inputs).value.0, Dispatch(inputs).value.1)
    ensures r.Success? ==>
      && |r.value.relationIndices| == 2
      && |r.value.relationIndices[0]| == |r.value.relationIndices[1]|
           == rt.EdgesPerRow() * (|Dispatch(inputs).value.0.ids.data| / rt.fanoutsDim)
      && (r.value.relationWeight.None? <==> Dispatch(inputs).value.1.NoneValue?)
  {
    match Dispatch(inputs)
    case Failure(e) => Failure(e)
    case Success((indices, edgeWeight)) =>
      if !indices.IdTensor? then Failure(IndicesNotIds)
      else if |indices.ids.data| % rt.fanoutsDim != 0 then Failure(ReshapeFailed)
      else
        var rows := IndexTable(rt, indices.ids);
        var indicesT := Transpose(rows, rt.fanoutsDim);
        match TargetIndices(indices.ids.shape, indicesT[0])
        case Failure(e) => Failure(e)
        case Success(target) =>
          var relation := UnsortedRelation(rt, indices.ids);
          RelationIndicesShape(rt, indices.ids);
          var relation' := if rt.sortIndices then SortByFirstRow(relation) else relation;
          match RelationWeight(edgeWeight)
          case Failure(e) => Failure(e)
          case Success(weight) => Success(RelationGraph(relation', weight, target))
  }

  // ---------------------------------------------------------------------------
  // Properties
  // ---------------------------------------------------------------------------

  /** Piece `k` of the split holds the rows of columns `fanoutsIndices[2k]` and `fanoutsIndices[2k+1]`. */
  lemma {:induction false} PiecesAre(indicesT: seq<seq<int>>, fanoutsIndices: seq<nat>, m: nat)
    requires Rectangular(indicesT, m) && InRange(fanoutsIndices, |indicesT|)
    requires |fanoutsIndices| >= 2 && |fanoutsIndices| % 2 == 0
    ensures HalfSplitOk(|fanoutsIndices|)
    ensures var pieces := Split(Gather(indicesT, fanoutsIndices), |fanoutsIndices| / 2);
      forall k, i :: 0 <= k < |pieces| && 0 <= i < 2 ==>
        |pieces[k]| == 2 && 2 * k + i < |fanoutsIndices| && pieces[k][i] == indicesT[fanoutsIndices[2 * k + i]]
  {
    HalfSplit(|fanoutsIndices|);
    var parts := |fanoutsIndices| / 2;
    var gathered := Gather(indicesT, fanoutsIndices);
    var pieces := Split(gathered, parts);
    forall k, i | 0 <= k < |pieces| && 0 <= i < 2
      ensures |pieces[k]| == 2 && 2 * k + i < |fanoutsIndices| && pieces[k][i] == indicesT[fanoutsIndices[2 * k + i]]
    {
      SplitByAt(gathered, 2, parts, k, i);
      assert k * 2 + i == 2 * k + i;
    }
  }

  /** Both rows of the edge list hold `|fanoutsIndices| / 2 * m` entries. */
  lemma RelationIndicesLength(indicesT: seq<seq<int>>, fanoutsIndices: seq<nat>, m: nat)
    requires Rectangular(indicesT, m) && InRange(fanoutsIndices, |indicesT|)
    requires |fanoutsIndices| >= 2 && |fanoutsIndices| % 2 == 0
    ensures var r := RelationIndices(indicesT, fanoutsIndices, m);
      |r| == 2 && |r[0]| == |fanoutsIndices| / 2 * m && |r[1]| == |fanoutsIndices| / 2 * m
  {
    PiecesAre(indicesT, fanoutsIndices, m);
    var pieces := Split(Gather(indicesT, fanoutsIndices), |fanoutsIndices| / 2);
    ConcatRowLength(pieces, 0, m);
    ConcatRowLength(pieces, 1, m);
  }

  /** Entry `n` of row `i` of piece `k` of the edge list comes from column `fanoutsIndices[2k+i]`. */
  lemma RelationIndicesAt(indicesT: seq<seq<int>>, fanoutsIndices: seq<nat>, m: nat, i: nat, k: nat, n: nat)
    requires Rectangular(indicesT, m) && InRange(fanoutsIndices, |indicesT|)
    requires |fanoutsIndices| >= 2 && |fanoutsIndices| % 2 == 0
    requires i < 2 && k < |fanoutsIndices| / 2 && n < m
    ensures |RelationIndices(indicesT, fanoutsIndices, m)| == 2
    ensures |RelationIndices(indicesT, fanoutsIndices, m)[i]| == |fanoutsIndices| / 2 * m
    ensures 2 * k + i < |fanoutsIndices| && k * m + n < |fanoutsIndices| / 2 * m
    ensures RelationIndices(indicesT, fanoutsIndices, m)[i][k * m + n] == indicesT[fanoutsIndices[2 * k + i]][n]
  {
    PiecesAre(indicesT, fanoutsIndices, m);
    var pieces := Split(Gather(indicesT, fanoutsIndices), |fanoutsIndices| / 2);
    ConcatRowAt(pieces, i, m, k, n);
  }

  /** The unsorted edge list has two rows of `EdgesPerRow() * N` entries each. */
  lemma RelationIndicesShape(rt: RelationTransform, ids: Tensor<int>)
    requires rt.Valid() && |ids.data| % rt.fanoutsDim == 0
    ensures |UnsortedRelation(rt, ids)| == 2
    ensures |UnsortedRelation(rt, ids)[0]| == |UnsortedRelation(rt, ids)[1]|
      == rt.EdgesPerRow() * (|ids.data| / rt.fanoutsDim)
  {
    var rows := IndexTable(rt, ids);
    RelationIndicesLength(Transpose(rows, rt.fanoutsDim), rt.fanoutsIndices, |rows|);
  }

  /** What a successful `transform` is made of, for an id tensor `ids` and edge weight `w`. */
  lemma TransformParts<W>(rt: RelationTransform, inputs: Inputs<W>, ids: Tensor<int>, w: Value<W>)
    requires rt.Valid() && Dispatch(inputs) == Success((IdTensor(ids), w))
    requires Transform(rt, inputs).Success?
    ensures |ids.data| % rt.fanoutsDim == 0
    ensures var g := Transform(rt, inputs).value;
      var unsorted := UnsortedRelation(rt, ids);
      && |unsorted| == 2 && |unsorted[0]| == |unsorted[1]|
      && g.relationIndices == (if rt.sortIndices then SortByFirstRow(unsorted) else unsorted)
      && TargetIndices(ids.shape, Transpose(IndexTable(rt, ids), rt.fanoutsDim)[0]) == Success(g.targetIndices)
      && RelationWeight(w) == Success(g.relationWeight)
  {
    RelationIndicesShape(rt, ids);
  }

  /** The three forms of argument are interchangeable: a list or tuple and a dict with the same two entries agree. */
  lemma InputFormsAgree<W>(rt: RelationTransform, items: seq<Value<W>>, entries: map<string, Value<W>>, v: Value<W>)
    requires rt.Valid()
    ensures |items| < 2 ==> Transform(rt, ListOrTuple(items)) == Failure(NotEnoughValues)
    ensures |items| >= 2 ==>
      Transform(rt, ListOrTuple(items)) == Transform(rt, Dict(map["indices" := items[0], "edge_weight" := items[1]]))
    ensures "indices" !in entries ==> Transform(rt, Dict(entries)) == Failure(IndicesKeyMissing)
    ensures Transform(rt, Dict(map["indices" := v])) == Transform(rt, Dict(map["indices" := v, "edge_weight" := NoneValue]))
    ensures Transform(rt, Other(v)) == Transform(rt, Dict(map["indices" := v]))
  {
  }

  /** Only an id tensor whose size is a multiple of fanouts_dim can be transformed. */
  lemma IndicesMustFit<W>(rt: RelationTransform, inputs: Inputs<W>)
    requires rt.Valid() && Dispatch(inputs).Success?
    ensures var indices := Dispatch(inputs).value.0;
      !indices.IdTensor? ==> Transform(rt, inputs) == Failure(IndicesNotIds)
    ensures var indices := Dispatch(inputs).value.0;
      indices.IdTensor? && |indices.ids.data| % rt.fanoutsDim != 0 ==> Transform(rt, inputs) == Failure(ReshapeFailed)
  {
  }

  /** An N x fanouts_dim tensor is viewed as the table it flattens. */
  lemma IndexTableOfTable(rt: RelationTransform, ids: Tensor<int>, rows: seq<seq<int>>)
    requires rt.Valid() && Rectangular(rows, rt.fanoutsDim) && ids.data == Flatten(rows)
    ensures |ids.data| % rt.fanoutsDim == 0 && IndexTable(rt, ids) == rows
  {
    ReshapeFlatten(rows, rt.fanoutsDim);
    MulDivCancel(|rows|, rt.fanoutsDim);
  }

  /** `target_indices` is column 0 of the table, one entry per row. */
  lemma TargetIndicesAreColumnZero<W>(rt: RelationTransform, inputs: Inputs<W>, ids: Tensor<int>, w: Value<W>)
    requires rt.Valid() && Dispatch(inputs) == Success((IdTensor(ids), w))
    requires Transform(rt, inputs).Success?
    ensures |ids.data| % rt.fanoutsDim == 0
    ensures var rows := IndexTable(rt, ids);
      var t := Transform(rt, inputs).value.targetIndices;
      && |t.data| == |rows|
      && (forall n :: 0 <= n < |rows| ==> t.data[n] == rows[n][0])
      && (|ids.shape| <= 2 ==> t.shape == [|rows|])
      && (|ids.shape| > 2 ==> t.shape == ids.shape[..|ids.shape| - 1])
  {
    TransformParts(rt, inputs, ids, w);
  }

  /**
    Without sorting, column `k * N + n` of `relation_indices` is the pair of
    entries of row `n` in columns `fanoutsIndices[2k]` and `fanoutsIndices[2k+1]`.
   */
  lemma RelationIndicesLayout<W>(
    rt: RelationTransform, inputs: Inputs<W>, ids: Tensor<int>, w: Value<W>, i: nat, k: nat, n: nat)
    requires rt.Valid() && !rt.sortIndices && Dispatch(inputs) == Success((IdTensor(ids), w))
    requires Transform(rt, inputs).Success?
    requires i < 2 && k < rt.EdgesPerRow() && n < |ids.data| / rt.fanoutsDim
    ensures |ids.data| % rt.fanoutsDim == 0
    ensures var rows := IndexTable(rt, ids);
      var rel := Transform(rt, inputs).value.relationIndices;
      && |rel| == 2 && |rel[i]| == rt.EdgesPerRow() * |rows|
      && k * |rows| + n < |rel[i]|
      && rel[i][k * |rows| + n] == rows[n][rt.fanoutsIndices[2 * k + i]]
  {
    TransformParts(rt, inputs, ids, w);
    var rows := IndexTable(rt, ids);
    var indicesT := Transpose(rows, rt.fanoutsDim);
    RelationIndicesAt(indicesT, rt.fanoutsIndices, |rows|, i, k, n);
  }

  /** Every entry of the index table is an entry of the indices. */
  lemma IndexTableEntry(rt: RelationTransform, ids: Tensor<int>, n: nat, col: nat)
    requires rt.Valid() && |ids.data| % rt.fanoutsDim == 0
    requires n < |ids.data| / rt.fanoutsDim && col < rt.fanoutsDim
    ensures IndexTable(rt, ids)[n][col] in ids.data
  {
    DivExact(|ids.data|, rt.fanoutsDim);
    ReshapeAt(ids.data, |ids.data| / rt.fanoutsDim, rt.fanoutsDim, n, col);
  }

  /** Entry `e = k * N + n` of row `i` of the unsorted edge list is an entry of the indices. */
  lemma UnsortedEntryAt(rt: RelationTransform, ids: Tensor<int>, i: nat, e: nat, k: nat, n: nat)
    requires rt.Valid() && |ids.data| % rt.fanoutsDim == 0
    requires i < 2 && k < rt.EdgesPerRow() && n < |ids.data| / rt.fanoutsDim
    requires e == k * (|ids.data| / rt.fanoutsDim) + n
    ensures |UnsortedRelation(rt, ids)| == 2 && e < |UnsortedRelation(rt, ids)[i]|
    ensures UnsortedRelation(rt, ids)[i][e] in ids.data
  {
    var rows := IndexTable(rt, ids);
    var indicesT := Transpose(rows, rt.fanoutsDim);
    RelationIndicesAt(indicesT, rt.fanoutsIndices, |rows|, i, k, n);
    var col := rt.fanoutsIndices[2 * k + i];
    assert indicesT[col][n] == rows[n][col];
    IndexTableEntry(rt, ids, n, col);
  }

  /** Every entry of the unsorted edge list is an entry of the indices. */
  lemma UnsortedEntriesFromInput(rt: RelationTransform, ids: Tensor<int>, i: nat, e: nat)
    requires rt.Valid() && |ids.data| % rt.fanoutsDim == 0
    requires i < 2 && e < |UnsortedRelation(rt, ids)[i]|
    ensures UnsortedRelation(rt, ids)[i][e] in ids.data
  {
    RelationIndicesShape(rt, ids);
    var k, n := PositionSplit(e, |ids.data| / rt.fanoutsDim, rt.EdgesPerRow());
    UnsortedEntryAt(rt, ids, i, e, k, n);
  }

  /** Every entry of `relation_indices` is an entry of the indices: the edge list is only gathered, never computed. */
  lemma RelationEntriesFromInput<W>(rt: RelationTransform, inputs: Inputs<W>, ids: Tensor<int>, w: Value<W>)
    requires rt.Valid() && Dispatch(inputs) == Success((IdTensor(ids), w))
    requires Transform(rt, inputs).Success?
    ensures var rel := Transform(rt, inputs).value.relationIndices;
      |rel| == 2 && forall i, e :: 0 <= i < 2 && 0 <= e < |rel[i]| ==> rel[i][e] in ids.data
  {
    TransformParts(rt, inputs, ids, w);
    var unsorted := UnsortedRelation(rt, ids);
    var rel := Transform(rt, inputs).value.relationIndices;
    forall i, e | 0 <= i < 2 && 0 <= e < |rel[i]| ensures rel[i][e] in ids.data {
      if rt.sortIndices {
        var idx := Argsort(unsorted[0]);
        assert rel[i][e] == unsorted[i][idx[e]];
        UnsortedEntriesFromInput(rt, ids, i, idx[e]);
      } else {
        UnsortedEntriesFromInput(rt, ids, i, e);
      }
    }
  }

  /** Sorting by the first row orders the sources and only permutes the columns. */
  lemma SortByFirstRowSortsAndPermutes(relation: seq<seq<int>>)
    requires |relation| == 2 && |relation[0]| == |relation[1]|
    ensures var sorted := SortByFirstRow(relation);
      && |sorted| == 2 && |sorted[0]| == |sorted[1]| == |relation[0]|
      && Sorted(sorted[0])
      && multiset(Columns(sorted)) == multiset(Columns(relation))
  {
    var idx := Argsort(relation[0]);
    var sorted := SortByFirstRow(relation);
    assert sorted[0] == Gather(relation[0], idx);
    assert Columns(sorted) == Gather(Columns(relation), idx);
    ArgsortPermutes(relation[0], Columns(relation));
  }

  /**
    With `sort_indices`, row 0 of `relation_indices` is non-decreasing and its
    columns are a permutation of those produced without sorting; the target
    indices and the weights are the same either way.
   */
  lemma SortedRelationIsPermutation<W>(rt: RelationTransform, inputs: Inputs<W>)
    requires rt.Valid() && rt.sortIndices && Transform(rt, inputs).Success?
    ensures Transform(rt.(sortIndices := false), inputs).Success?
    ensures var sorted := Transform(rt, inputs).value;
      var plain := Transform(rt.(sortIndices := false), inputs).value;
      && |sorted.relationIndices| == 2 && |plain.relationIndices| == 2
      && |sorted.relationIndices[0]| == |sorted.relationIndices[1]| == |plain.relationIndices[0]|
      && |plain.relationIndices[0]| == |plain.relationIndices[1]|
      && Sorted(sorted.relationIndices[0])
      && multiset(Columns(sorted.relationIndices)) == multiset(Columns(plain.relationIndices))
      && sorted.targetIndices == plain.targetIndices
      && sorted.relationWeight == plain.relationWeight
  {
    var plainRt := rt.(sortIndices := false);
    var (indices, w) := Dispatch(inputs).value;
    TransformParts(rt, inputs, indices.ids, w);
    TransformParts(plainRt, inputs, indices.ids, w);
    assert UnsortedRelation(plainRt, indices.ids) == UnsortedRelation(rt, indices.ids);
    SortByFirstRowSortsAndPermutes(UnsortedRelation(rt, indices.ids));
  }

  /**
    `relation_weight` is None exactly when no edge weight was given; for a
    weight table it is that table with column 0 dropped, as one column (see
    `DropFirstColumnAt` for the entry-by-entry layout).
   */
  lemma RelationWeightPresence<W>(rt: RelationTransform, inputs: Inputs<W>, ids: Tensor<int>, w: Value<W>)
    requires rt.Valid() && Dispatch(inputs) == Success((IdTensor(ids), w))
    requires Transform(rt, inputs).Success?
    ensures Transform(rt, inputs).value.relationWeight.None? <==> w.NoneValue?
    ensures w.WeightTensor? ==>
      |w.weights.shape| >= 2 && Transform(rt, inputs).value.relationWeight == Some(DropFirstColumn(w.weights))
  {
    TransformParts(rt, inputs, ids, w);
  }

  /**
    The documented example: fanouts [2, 3] (hop widths [1, 2, 6], so 9 columns
    and 8 edges per row), 45 indices and a 5 x 9 weight table give a 2 x 40
    edge list, a 40 x 1 weight column and 5 target indices.
   */
  lemma DocumentedExample<W>(fanoutsIndices: seq<nat>, sortIndices: bool, ids: Tensor<int>, w: Tensor<W>)
    requires FanoutsIndicesShape(9, fanoutsIndices) && |fanoutsIndices| == 16
    requires ids.shape == [45] && w.shape == [5, 9]
    ensures Sum([1, 2, 6]) == 9
    ensures NewRelationTransform(Some([2, 3]), [1, 2, 6], fanoutsIndices, sortIndices).Success?
    ensures var rt := NewRelationTransform(Some([2, 3]), [1, 2, 6], fanoutsIndices, sortIndices).value;
      var r := Transform(rt, Dict(map["indices" := IdTensor(ids), "edge_weight" := WeightTensor(w)]));
      && r.Success?
      && |r.value.relationIndices| == 2
      && |r.value.relationIndices[0]| == |r.value.relationIndices[1]| == 40
      && r.value.relationWeight.Some? && r.value.relationWeight.value.shape == [40, 1]
      && r.value.targetIndices.shape == [5]
  {
    assert Sum([1, 2, 6]) == 9;
    ProductOfShort(45, 0);
    ProductOfShort(5, 9);
    var rt := NewRelationTransform(Some([2, 3]), [1, 2, 6], fanoutsIndices, sortIndices).value;
    var inputs := Dict(map["indices" := IdTensor(ids), "edge_weight" := WeightTensor(w)]);
    assert Dispatch(inputs) == Success((IdTensor(ids), WeightTensor(w)));
    assert |ids.data| == 45;
    assert 45 % 9 == 0 && 45 / 9 == 5;
    assert Transform(rt, inputs).Success?;
    DropFirstColumnAt(w, 0, 0);
    TransformParts(rt, inputs, ids, WeightTensor(w));
  }
}
