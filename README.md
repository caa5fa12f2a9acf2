# Galileo graph transforms and entity collection, in Dafny

This project models four data-preparation steps of the Galileo graph-learning
framework and proves what they promise.

- **RelationTransform** (`relation.dfy`) takes a batch of multi-hop
  neighbour tables. It builds a relation graph from them:
  - the target vertex of every row;
  - a 2 × E edge list gathered from pairs of table columns, sorted by source
    on request;
  - the edge weights with the target column dropped.
- **MultiHopFeatureTransform** (`multi_hop_feature.dfy`) validates and
  normalises its dense and sparse feature configuration. Its `Transform`
  builds the output dict one key at a time: ids, dense and sparse features
  fetched once per unique vertex and gathered back to every position, and
  edge weights.
- **RandomWalkNegTransform** (`rw_neg.dfy`) defaults the metapath. It then
  splits sampled random-walk pairs into target and context columns and
  shapes `negative_num` negatives per pair.
- **CollectEntity** (`entity_ops.dfy`) is the PyTorch kernel. It guards its
  parameters, builds the column dtypes per category step by step, asks the
  global graph client once, and keeps the result only when the return code
  matches the number of columns.

`tensor_ops.dfy` holds the tensor operations these use, stated on
row-major data:
- reshape, flatten, transpose and gather;
- split and concat;
- argsort, and unique in order of first occurrence.

`wrappers.dfy` holds `Option` and `Result`. Raised exceptions become
`Failure` values with one error constructor per raise or failing assertion.

Abstract inputs become parameters:
- `get_fanouts_list` and `get_fanouts_indices` (their results);
- `sample_multi_hop` (its result);
- `get_pod_feature`, `sample_pairs_by_random_walk` and `sample_vertices`
  (functions);
- the global graph client (an optional function);
- float weights and `walk_p`/`walk_q` (opaque type parameters).

## Model

| member | source | states |
|---|---|---|
| `Relation.NewRelationTransform` | galileo/framework/tf/python/transforms/relation.py:64-77 | Construction succeeds exactly when `fanouts` is present and non-empty, and fails with the assertion otherwise. The stored fanouts_dim is the sum of the hop widths. |
| `Relation.Dispatch` | galileo/framework/tf/python/transforms/relation.py:93-99 | A list or tuple gives its first two items and fails when shorter. A dict gives `indices` and `edge_weight`, a missing weight reading as None, and fails without `indices`. Anything else is the indices with no weights. |
| `Relation.Transform` | galileo/framework/tf/python/transforms/relation.py:79-128 | Fails with the dispatch error when dispatch fails. Otherwise it succeeds exactly when the indices are an id tensor whose size is a multiple of fanouts_dim, whose leading axes hold the N rows when the rank exceeds 2, and the weights are None or of rank at least 2. A success has a 2 × (edges per row · N) edge list and a weight column exactly when weights were given. |
| `Relation.IndexTable` | galileo/framework/tf/python/transforms/relation.py:103-104 | Reshaping to `[-1, fanouts_dim]` gives size / fanouts_dim rows of fanouts_dim entries each. |
| `Relation.IndexTableOfTable` | galileo/framework/tf/python/transforms/relation.py:103-104 | An N × fanouts_dim table, flattened, is viewed as exactly that table again. |
| `Relation.IndexTableEntry` | galileo/framework/tf/python/transforms/relation.py:103-104 | Every cell of the reshaped index table is one of the input indices. |
| `Relation.InputFormsAgree` | galileo/framework/tf/python/transforms/relation.py:93-99 | A list or tuple and a dict with the same `indices`/`edge_weight` give the same result. A missing `edge_weight` key acts as None, and any other value is the indices with no weights. A short list and a dict without `indices` raise. |
| `Relation.IndicesMustFit` | galileo/framework/tf/python/transforms/relation.py:93-104 | Indices that are not an id tensor, or whose size is not a multiple of fanouts_dim, make the transform fail. |
| `Relation.GatherColumns` | galileo/framework/tf/python/transforms/relation.py:118 | Gathering columns keeps the rows and gives each row one entry per index. |
| `Relation.PiecesAre` | galileo/framework/tf/python/transforms/relation.py:110-113 | Splitting the gathered rows into len(fanouts_indices)/2 pieces gives pieces of two rows. Piece k holds columns `fanouts_indices[2k]` and `fanouts_indices[2k+1]`. |
| `Relation.RelationIndicesLength` | galileo/framework/tf/python/transforms/relation.py:110-114 | The concatenated edge list has two rows of (pairs × N) entries. |
| `Relation.RelationIndicesAt` | galileo/framework/tf/python/transforms/relation.py:110-114 | Entry k·N + n of row i comes from row n of column `fanouts_indices[2k+i]`. |
| `Relation.RelationIndicesShape` | galileo/framework/tf/python/transforms/relation.py:103-114 | The unsorted edge list is 2 × (edges per row · N). |
| `Relation.TargetIndicesAreColumnZero` | galileo/framework/tf/python/transforms/relation.py:103-109 | `target_indices` holds column 0 of every row. Its shape is the indices' shape without its last axis when the rank exceeds 2, and [N] otherwise. |
| `Relation.RelationIndicesLayout` | galileo/framework/tf/python/transforms/relation.py:103-114 | Without sorting, column k·N + n of the edge list is row n's pair of entries in columns `fanouts_indices[2k]` and `fanouts_indices[2k+1]`. |
| `Relation.UnsortedEntriesFromInput` | galileo/framework/tf/python/transforms/relation.py:110-114 | Every entry of the unsorted edge list occurs in the input indices. |
| `Relation.UnsortedEntryAt` | galileo/framework/tf/python/transforms/relation.py:110-114 | Entry k·N+n of either side of the unsorted edge list (N rows, k below the edges per row) exists and is one of the input indices. |
| `Relation.RelationEntriesFromInput` | galileo/framework/tf/python/transforms/relation.py:110-118 | Sorted or not, every entry of `relation_indices` occurs in the input indices. |
| `Relation.SortByFirstRowSortsAndPermutes` | galileo/framework/tf/python/transforms/relation.py:116-118 | Sorting by the first row makes it non-decreasing. The (source, destination) columns are a permutation of the input's. |
| `Relation.SortedRelationIsPermutation` | galileo/framework/tf/python/transforms/relation.py:116-118 | With `sort_indices`, the edge list is sorted by source and is a column permutation of the unsorted one. Targets and weights are unchanged. |
| `Relation.DropFirstColumn` | galileo/framework/tf/python/transforms/relation.py:122 | `reshape(edge_weight[:, 1:], [-1, 1])` is a single column, for any rank of at least 2. |
| `Relation.DropFirstColumnRows` | galileo/framework/tf/python/transforms/relation.py:121-122 | For any rank of at least 2, each of the N rows keeps all of axis 1 but its first slice, so the column has N · Keep(D·inner, inner) entries. |
| `Relation.DropFirstColumnAt` | galileo/framework/tf/python/transforms/relation.py:122 | An N × D weight table becomes N·(D−1) × 1. Entry n·(D−1)+j is row n, column j+1. |
| `Relation.RelationWeightPresence` | galileo/framework/tf/python/transforms/relation.py:120-122 | `relation_weight` is None exactly when no edge weight was given. A given weight table has rank at least 2, and `relation_weight` is that table without its first column, as `Relation.DropFirstColumnAt` lays out entry by entry. |
| `Relation.DocumentedExample` | galileo/framework/tf/python/transforms/relation.py:48-61 | Fanouts [2, 3] with 45 indices and 5 × 9 weights give a 2 × 40 edge list, 40 × 1 weights and 5 targets. |
| `TensorOps.Argsort` | galileo/framework/tf/python/transforms/relation.py:117 | The argsort is a permutation of the positions, and gathering by it gives a non-decreasing sequence. |
| `TensorOps.ArgsortPermutes` | galileo/framework/tf/python/transforms/relation.py:117-118 | Gathering any same-length sequence by the argsort permutes it. |
| `TensorOps.ReshapeFlatten` | galileo/framework/tf/python/transforms/relation.py:103-104 | Reshaping a flattened rectangular table to its width gives the table back. |
| `TensorOps.Unique` | galileo/framework/tf/python/transforms/multi_hop_feature.py:105 | `tf.unique` gives distinct values, the same set as the input, and indices that gather back to the input. |
| `TensorOps.Repeat` | galileo/framework/pytorch/python/transforms/rw_neg.py:70 | `[x] * n` has max(n, 0) copies of x. |
| `TensorOps.FlattenReshape` | galileo/framework/pytorch/python/transforms/rw_neg.py:113 | Viewing a sequence as a table and flattening it gives the sequence back. |
| `TensorOps.ReshapeRow` | galileo/framework/pytorch/python/transforms/rw_neg.py:113 | Row i of a sequence viewed as a rows × cols table is its slice from i·cols to (i+1)·cols. |
| `MultiHopFeature.NormaliseDense` | galileo/framework/tf/python/transforms/multi_hop_feature.py:64-70 | Missing, zero or empty dense dims fail. An int is broadcast to one per name. A list is kept only when its length equals the number of names. |
| `MultiHopFeature.NormaliseSparse` | galileo/framework/tf/python/transforms/multi_hop_feature.py:71-80 | Sparse dims default to 1 and an int is broadcast. Any dim other than 1 fails before the length check. A success is all ones, one per name. |
| `MultiHopFeature.NewMultiHopFeatureTransform` | galileo/framework/tf/python/transforms/multi_hop_feature.py:61-88 | No names at all fails first, then dense errors, then sparse errors. A configuration with some names whose given dims both normalise is accepted. A success is `Valid` (equal lengths, sparse dims all 1) and stores the normalised dims. |
| `MultiHopFeature.FeatureRowLength` | galileo/framework/tf/python/transforms/multi_hop_feature.py:141-143 | The concatenated features of one vertex are sum(feature_dims) wide. |
| `MultiHopFeature.UniqueRows` | galileo/framework/tf/python/transforms/multi_hop_feature.py:141-143 | The feature table of the unique vertices has one sum(dims)-wide row per vertex. |
| `MultiHopFeature.GetFeature` | galileo/framework/tf/python/transforms/multi_hop_feature.py:130-150 | None exactly when the names are None. Otherwise the shape is origin_shape + [sum(dims)], or [len(indices), sum(dims)] without an origin shape, or [len(vertices), sum(dims)] without indices. |
| `MultiHopFeature.FeaturesFollowIds` | galileo/framework/tf/python/transforms/multi_hop_feature.py:104-149 | For any unique vertices and indices that gather back to the flat ids (`tf.unique`'s among them), the gathered features are, position by position, those of `vertices_flat[i]`, laid out row-major. |
| `MultiHopFeature.Transform` | galileo/framework/tf/python/transforms/multi_hop_feature.py:90-128 | The dict always has `ids`. It has `dense`/`sparse` exactly when those names are configured, and `edge_weight` exactly when the flag is set. Features have the ids' shape followed by sum(dims) and follow the ids position by position. |
| `MultiHopFeature.DocumentedConfig` | galileo/framework/tf/python/transforms/multi_hop_feature.py:29-31 | The docstring's configuration is accepted and its dense dim 5 becomes [5]. |
| `MultiHopFeature.DocumentedExample` | galileo/framework/tf/python/transforms/multi_hop_feature.py:29-38 | A [2, 9] id table gives keys `ids` and `dense`, with dense of shape [2, 9, 5]. |
| `RwNeg.NewRandomWalkNegTransform` | galileo/framework/pytorch/python/transforms/rw_neg.py:65-83 | Fails exactly when both walk_length and metapath are missing. A given metapath is stored unchanged. Otherwise the metapath is edge_types repeated walk_length times. |
| `RwNeg.PairColumn` | galileo/framework/pytorch/python/transforms/rw_neg.py:110 | Each half of the split of a P × 2 table is P × 1. |
| `RwNeg.Transform` | galileo/framework/pytorch/python/transforms/rw_neg.py:85-118 | A None pair sample raises, and so does a pair table that is not P × 2. A missing negative sample raises. A negative tensor of exactly P·negative_num elements (negative_num ≥ 0) succeeds and any other size raises in `view`. On success target and context are P × 1, negative is P × negative_num, and its data is exactly what `sample_vertices` returned. |
| `RwNeg.PairsSplitIntoColumns` | galileo/framework/pytorch/python/transforms/rw_neg.py:110 | Zipping target and context back together gives row i of the pair table: they are columns 0 and 1. |
| `RwNeg.NegativesPerPair` | galileo/framework/pytorch/python/transforms/rw_neg.py:111-113 | Row j of `negative` is the j-th block of negative_num sampled vertices, and the P rows together are all the sampled vertices in order. |
| `RwNeg.DocumentedExample` | galileo/framework/pytorch/python/transforms/rw_neg.py:29-40 | Walk length 3 gives metapath [[0],[0],[0]]. 30 pairs and 90 negatives give 30 × 1, 30 × 1 and 30 × 3. |
| `EntityOps.ToUint32` | galileo/framework/pytorch/kernel/entity_ops.cc:57 | The unsigned cast keeps the value modulo 2^32 and is the identity on non-negative counts. |
| `EntityOps.ColumnTypes` | galileo/framework/pytorch/kernel/entity_ops.cc:46-53 | "vertex" asks for one long column. "edge" asks for long, long, byte, in that order. |
| `EntityOps.CollectEntity` | galileo/framework/pytorch/kernel/entity_ops.cc:29-66 | With no graph, or a non-1-D `types`, a count ≤ 0 or an unknown category, the result is empty and the graph is never asked. Otherwise it is asked once, with the count unchanged and the category's dtypes. The columns are returned only when the return code equals the number of dtypes. |

## Left out

- `get_fanouts_list`, `get_fanouts_indices` and `BaseTransform` are not part of this model. The hop widths and column pairs are constructor parameters. The pairs are required to be an even, non-empty list of columns below fanouts_dim.
- `Relation.DropFirstColumnAt`: the entry-by-entry layout is stated for rank-2 weight tables only. For higher ranks `DropFirstColumn` and `DropFirstColumnRows` state the single column and its length, but not which entries it holds.
- No alignment between `relation_weight[e]` and edge column e is claimed. Weights are row-major per sample while index columns are pair-major, and sorting permutes the columns but not the weights.
- `TensorOps.Argsort`: `tf.argsort` is not stable and gives no order among equal keys. The model fixes one insertion argsort and proves only what any argsort gives: sorted keys and a permutation.
- Python's dynamic typing is narrowed to None, an id tensor or a weight tensor. `IndicesNotIds` and `WeightNotWeights` are deliberate departures from the source: TensorFlow reshapes, gathers, splits and argsorts tensors of any dtype, so a float tensor as indices or an int tensor as weights would go through there. Other Python types are not modelled.
- `MultiHopNeighborTransform.sample_multi_hop` is not part of this model. `MultiHopFeature.Transform` takes its result, the id table and its weights.
- `get_pod_feature` and the `feature_type` argument are a function parameter and the element type parameters of `MultiHopFeature.Transform`.
- `MultiHopFeature.GetFeature` and `MultiHopFeature.Transform`: an empty list of feature names gives a width-0 feature tensor. The source then calls `tf.concat` on an empty list of features, which raises. This depends on what the unseen `get_pod_feature` returns, so that error is not modelled.
- `MultiHopFeature.GetFeature` and `MultiHopFeature.Transform` require `Honours`: `get_pod_feature` is assumed to return, for every name, a feature of the requested dim. The error the reshape at line 149 of multi_hop_feature.py raises on a width mismatch is not modelled.
- `RwNeg.Transform`: a pair table of rank other than 2 is treated as a split error, although `torch.split` accepts any rank whose last axis is 2.
- `RwNeg.Transform`: a negative `negative_num` is a view error, although `view(P, -1)` would infer the width.
- `sample_vertices` returning None or an empty list is an error value, where Python raises TypeError or IndexError.
- `walk_length` is an integer. A non-integer length, which raises in `[edge_types] * walk_length`, is not modelled.
- The conversion of `inputs` with `torch.tensor` and `flatten` becomes the tensor's row-major data.
- `EntityOps.CollectEntity`: `types` holds bytes by its type. The run-time dtype check of `data_ptr<uint8_t>` is not modelled.
- The allocator's internals and what the graph client computes are a function parameter. Log lines are not modelled.
- Float edge weights and `walk_p`/`walk_q` are opaque values. No floating-point arithmetic is done on them.
- `neighbor_neg.py` repeats the negative reshape rule of `RwNeg`. `range_dataset.py` is a wrapper over `tf.data`. `edge_worker.cc` only forwards errors of unseen helpers. The example training scripts are I/O and training loops. None of them is modelled.
