/**
  `CollectEntity` (galileo/framework/pytorch/kernel/entity_ops.cc): asks the
  global graph client for the vertices or edges of the given types and
  returns the columns it allocated.

  The global `gDGraph` is an optional parameter, and its `CollectEntity` is
  a function from the request to a return code and the tensors it wrote
  through the allocator. Log lines are not modelled.
 */
module EntityOps {
  import opened Wrappers
  import opened TensorOps

  newtype int32 = x: int | -0x8000_0000 <= x < 0x8000_0000
  newtype uint8 = x: int | 0 <= x < 0x100

  /** `static_cast<uint32_t>`: the value modulo 2^32. */
  function ToUint32(x: int32): (r: nat)
    ensures r < 0x1_0000_0000 && (r - x as int) % 0x1_0000_0000 == 0
    ensures x >= 0 ==> r == x as int
  {
    (x as int) % 0x1_0000_0000
  }

  /** Element types of the columns the graph fills. */
  datatype Dtype = Long | Byte

  /** One column the graph wrote through the allocator. */
  datatype Column = Column(dtype: Dtype, data: seq<int>)

  /** What `gDGraph->CollectEntity` is asked for. */
  datatype Request = Request(category: string, types: seq<uint8>, count: nat, dtypes: seq<Dtype>)

  /** The graph client: a return code and the columns it allocated. */
  type Graph = Request -> (int, seq<Column>)

  /** Lines 37-38: a one-dimensional `types`, a positive count and a known category. */
  predicate ParamsOk(types: Tensor<uint8>, count: int32, category: string)
  {
    |types.shape| == 1 && count > 0 && (category == "vertex" || category == "edge")
  }

  /** The column types requested for a category. */
  function ColumnTypes(category: string): (d: seq<Dtype>)
    ensures category == "vertex" ==> d == [Long]
    ensures category == "edge" ==> d == [Long, Long, Byte]
    ensures category != "vertex" && category != "edge" ==> d == []
  {
    if category == "vertex" then [Long]
    else if category == "edge" then [Long, Long, Byte]
    else []
  }

  /**
    `CollectEntity(types, count, category)`. `requests` lists the calls made
    to the graph client, so that "the graph is never consulted" can be stated.
   */
  method CollectEntity(graph: Option<Graph>, types: Tensor<uint8>, count: int32, category: string)
    returns (tens: seq<Column>, requests: seq<Request>)
    ensures graph.None? || !ParamsOk(types, count, category) ==> tens == [] && requests == []
    ensures graph.Some? && ParamsOk(types, count, category) ==>
      && requests == [Request(category, types.data, count as int, ColumnTypes(category))]
      && var (res, written) := graph.value(requests[0]);
      && tens == if res == |ColumnTypes(category)| then written else []
  {
    requests := [];
    tens := [];
    if graph.None? {
      return;
    }
    if |types.shape| != 1 || count <= 0 || (category != "vertex" && category != "edge") {
      return;
    }
    var dtypes: seq<Dtype> := [];
    if category == "vertex" {
      dtypes := dtypes + [Long];
    } else if category == "edge" {
      dtypes := dtypes + [Long];
      dtypes := dtypes + [Long];
      dtypes := dtypes + [Byte];
    }
    assert dtypes == ColumnTypes(category);
    var request := Request(category, types.data, ToUint32(count), dtypes);
    requests := requests + [request];
    var (res, written) := graph.value(request);
    if res != |dtypes| {
      return;
    }
    tens := written;
  }
}
