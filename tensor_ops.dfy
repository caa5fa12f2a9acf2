/**
  The tensor operations the transform adapters are composed of: reshape,
  transpose, gather, split, concat, argsort and unique. A tensor is its shape
  and its elements listed in row-major order; a two-dimensional result that is
  read row by row is given as a table (a sequence of equally long rows).
 */
module TensorOps {

  /** Number of elements of a tensor of the given shape (1 for a scalar). */
  function Product(shape: seq<nat>): nat
  {
    if |shape| == 0 then 1 else shape[0] * Product(shape[1..])
  }

  datatype Shaped<T> = Shaped(shape: seq<nat>, data: seq<T>)

  /** A tensor always holds exactly as many elements as its shape says. */
  type Tensor<T> = t: Shaped<T> | |t.data| == Product(t.shape) witness Shaped([0], [])

  lemma ProductOfShort(a: nat, b: nat)
    ensures Product([a]) == a
    ensures Product([a, b]) == a * b
  {
    assert [a][1..] == [];
    assert [a, b][1..] == [b];
    assert Product([b]) == b;
  }

  /** Python's `sum` over a list of integers. */
  function Sum(xs: seq<int>): (r: int)
    ensures (forall k :: 0 <= k < |xs| ==> xs[k] >= 0) ==> r >= 0
  {
    if xs == [] then 0 else xs[0] + Sum(xs[1..])
  }

  /** Python's `[x] * n`: a negative or zero count gives the empty list. */
  function Repeat<T>(x: T, n: int): (r: seq<T>)
    ensures |r| == if n <= 0 then 0 else n
    ensures forall k :: 0 <= k < |r| ==> r[k] == x
  {
    if n <= 0 then [] else seq(n, _ => x)
  }

  /** Every row of the table has `cols` entries. */
  predicate Rectangular<T>(rows: seq<seq<T>>, cols: nat)
  {
    forall i :: 0 <= i < |rows| ==> |rows[i]| == cols
  }

  lemma MulAtLeast(x: int, b: int)
    requires b > 0
    ensures x >= 1 ==> x * b >= b
    ensures x <= -1 ==> x * b <= -b
  {
    if x >= 1 {
      assert x * b == (x - 1) * b + b;
      assert (x - 1) * b >= 0;
    } else if x <= -1 {
      assert x * b == (x + 1) * b - b;
      assert (x + 1) * b <= 0;
    }
  }

  lemma MulBelowIsZero(x: int, b: int, y: int)
    requires b > 0 && x * b == y && -b < y < b
    ensures x == 0
  {
    MulAtLeast(x, b);
  }

  /** Euclidean division is determined by quotient and remainder. */
  lemma DivModUnique(n: int, b: nat, q: int, r: int)
    requires b > 0 && n == q * b + r && 0 <= r < b
    ensures n / b == q && n % b == r
  {
    var q', r' := n / b, n % b;
    assert n == q' * b + r' && 0 <= r' < b;
    assert (q - q') * b == r' - r;
    MulBelowIsZero(q - q', b, r' - r);
  }

  lemma MulDivCancel(a: nat, b: nat)
    requires b > 0
    ensures (a * b) % b == 0 && (a * b) / b == a
  {
    DivModUnique(a * b, b, a, 0);
  }

  lemma DivExact(n: nat, b: nat)
    requires b > 0 && n % b == 0
    ensures n == n / b * b
  {
  }

  /** A position below `parts * m` is piece `e / m`, offset `e % m`. */
  lemma DivModBelow(e: nat, m: nat, parts: nat)
    requires m > 0 && e < parts * m
    ensures e == e / m * m + e % m && e % m < m && e / m < parts
  {
    var k := e / m;
    assert e == k * m + e % m;
    assert (parts - k) * m == parts * m - k * m;
    assert (parts - k) * m > 0;
  }

  /** A position below `parts * m` is entry `n` of piece `k`. */
  lemma PositionSplit(e: nat, m: nat, parts: nat) returns (k: nat, n: nat)
    requires e < parts * m
    ensures k < parts && n < m && e == k * m + n
  {
    assert m > 0;
    DivModBelow(e, m, parts);
    k, n := e / m, e % m;
  }

  /** `tf.reshape(s, [rows, cols])` (or `view`), read as a table of rows. */
  function Reshape<T>(s: seq<T>, rows: nat, cols: nat): (r: seq<seq<T>>)
    requires |s| == rows * cols
    ensures |r| == rows && Rectangular(r, cols)
  {
    if rows == 0 then [] else [s[..cols]] + Reshape(s[cols..], rows - 1, cols)
  }

  /** Row-major position of entry `j` of row `i` in a table `cols` wide. */
  function Offset(i: nat, cols: nat, j: nat): nat
  {
    i * cols + j
  }

  /** Entry `j` of row `i` of the reshaped table is element `i * cols + j`. */
  lemma {:induction false} ReshapeAt<T>(s: seq<T>, rows: nat, cols: nat, i: nat, j: nat)
    requires |s| == rows * cols && i < rows && j < cols
    ensures Offset(i, cols, j) < |s| && Reshape(s, rows, cols)[i][j] == s[Offset(i, cols, j)]
  {
    if i > 0 {
      ReshapeAt(s[cols..], rows - 1, cols, i - 1, j);
      assert i * cols + j == cols + ((i - 1) * cols + j);
    }
  }

  /** Row `i` of the reshaped table is the slice of `cols` elements starting at `i * cols`. */
  lemma {:induction false} ReshapeRow<T>(s: seq<T>, rows: nat, cols: nat, i: nat)
    requires |s| == rows * cols && i < rows
    ensures Offset(i, cols, cols) <= |s| && Reshape(s, rows, cols)[i] == s[Offset(i, cols, 0)..Offset(i, cols, cols)]
  {
    if i > 0 {
      ReshapeRow(s[cols..], rows - 1, cols, i - 1);
      assert Offset(i, cols, 0) == cols + Offset(i - 1, cols, 0);
      assert Offset(i, cols, cols) == cols + Offset(i - 1, cols, cols);
    }
  }

  /** `tf.reshape(t, [-1])` of a table: its rows one after the other. */
  function Flatten<T>(rows: seq<seq<T>>): seq<T>
  {
    if rows == [] then [] else rows[0] + Flatten(rows[1..])
  }

  lemma {:induction false} FlattenLength<T>(rows: seq<seq<T>>, cols: nat)
    requires Rectangular(rows, cols)
    ensures |Flatten(rows)| == |rows| * cols
  {
    if rows != [] {
      FlattenLength(rows[1..], cols);
      assert |Flatten(rows)| == cols + (|rows| - 1) * cols;
    }
  }

  /** Reshaping the flattened table back to its own width gives the table again. */
  lemma {:induction false} ReshapeFlatten<T>(rows: seq<seq<T>>, cols: nat)
    requires Rectangular(rows, cols)
    ensures |Flatten(rows)| == |rows| * cols
    ensures Reshape(Flatten(rows), |rows|, cols) == rows
  {
    FlattenLength(rows, cols);
    if rows != [] {
      ReshapeFlatten(rows[1..], cols);
      var flat := Flatten(rows);
      assert flat[..cols] == rows[0];
      assert flat[cols..] == Flatten(rows[1..]);
    }
  }

  /** Flattening a reshaped sequence gives the sequence back. */
  lemma {:induction false} FlattenReshape<T>(s: seq<T>, rows: nat, cols: nat)
    requires |s| == rows * cols
    ensures Flatten(Reshape(s, rows, cols)) == s
  {
    if rows > 0 {
      assert |s[cols..]| == (rows - 1) * cols;
      FlattenReshape(s[cols..], rows - 1, cols);
      assert s == s[..cols] + s[cols..];
    }
  }

  /** Flattening a rectangular table lays its entries out row-major. */
  lemma FlattenAt<T>(rows: seq<seq<T>>, cols: nat, i: nat, j: nat)
    requires Rectangular(rows, cols) && i < |rows| && j < cols
    ensures |Flatten(rows)| == |rows| * cols
    ensures Offset(i, cols, j) < |Flatten(rows)| && Flatten(rows)[Offset(i, cols, j)] == rows[i][j]
  {
    ReshapeFlatten(rows, cols);
    ReshapeAt(Flatten(rows), |rows|, cols, i, j);
  }

  /** `tf.transpose` of a table whose rows have `cols` entries. */
  function Transpose<T>(rows: seq<seq<T>>, cols: nat): (r: seq<seq<T>>)
    requires Rectangular(rows, cols)
    ensures |r| == cols && Rectangular(r, |rows|)
    ensures forall j, n :: 0 <= j < cols && 0 <= n < |rows| ==> r[j][n] == rows[n][j]
  {
    seq(cols, j requires 0 <= j < cols => seq(|rows|, n requires 0 <= n < |rows| => rows[n][j]))
  }

  /** Every index is a valid position in a sequence of length `n`. */
  predicate InRange(idx: seq<nat>, n: nat)
  {
    forall k :: 0 <= k < |idx| ==> idx[k] < n
  }

  /** `tf.gather(xs, idx)` along the first axis. */
  function Gather<T>(xs: seq<T>, idx: seq<nat>): (r: seq<T>)
    requires InRange(idx, |xs|)
    ensures |r| == |idx|
    ensures forall k :: 0 <= k < |idx| ==> r[k] == xs[idx[k]]
  {
    seq(|idx|, k requires 0 <= k < |idx| => xs[idx[k]])
  }

  /** Cuts `rows` into `parts` consecutive pieces of `size` elements. */
  function SplitBy<T>(rows: seq<T>, size: nat, parts: nat): (r: seq<seq<T>>)
    requires |rows| == parts * size
    ensures |r| == parts && Rectangular(r, size)
  {
    if parts == 0 then [] else [rows[..size]] + SplitBy(rows[size..], size, parts - 1)
  }

  /** `tf.split(rows, parts)` along the first axis into equally long pieces. */
  function Split<T>(rows: seq<T>, parts: nat): (r: seq<seq<T>>)
    requires parts > 0 && |rows| % parts == 0
    ensures |r| == parts && Rectangular(r, |rows| / parts)
  {
    SplitBy(rows, |rows| / parts, parts)
  }

  /** Element `i` of piece `k` is element `k * size + i` of what was split. */
  lemma {:induction false} SplitByAt<T>(rows: seq<T>, size: nat, parts: nat, k: nat, i: nat)
    requires |rows| == parts * size && k < parts && i < size
    ensures k * size + i < |rows| && SplitBy(rows, size, parts)[k][i] == rows[k * size + i]
  {
    if k > 0 {
      SplitByAt(rows[size..], size, parts - 1, k - 1, i);
      assert k * size + i == size + ((k - 1) * size + i);
    }
  }

  /** Row `i` of `tf.concat(parts, axis=1)`: row `i` of each piece, one after the other. */
  function ConcatRow<T>(parts: seq<seq<seq<T>>>, i: nat): seq<T>
    requires forall k :: 0 <= k < |parts| ==> i < |parts[k]|
  {
    if parts == [] then [] else parts[0][i] + ConcatRow(parts[1..], i)
  }

  lemma {:induction false} ConcatRowLength<T>(parts: seq<seq<seq<T>>>, i: nat, m: nat)
    requires forall k :: 0 <= k < |parts| ==> i < |parts[k]| && |parts[k][i]| == m
    ensures |ConcatRow(parts, i)| == |parts| * m
  {
    if parts != [] {
      ConcatRowLength(parts[1..], i, m);
      assert |ConcatRow(parts, i)| == m + (|parts| - 1) * m;
    }
  }

  /** Concatenating pieces whose row `i` has `m` entries puts entry `n` of piece `k` at `k * m + n`. */
  lemma {:induction false} ConcatRowAt<T>(parts: seq<seq<seq<T>>>, i: nat, m: nat, k: nat, n: nat)
    requires forall k :: 0 <= k < |parts| ==> i < |parts[k]| && |parts[k][i]| == m
    requires k < |parts| && n < m
    ensures |ConcatRow(parts, i)| == |parts| * m
    ensures k * m + n < |parts| * m && ConcatRow(parts, i)[k * m + n] == parts[k][i][n]
  {
    ConcatRowLength(parts, i, m);
    if k > 0 {
      ConcatRowAt(parts[1..], i, m, k - 1, n);
      assert k * m + n == m + ((k - 1) * m + n);
    }
  }

  /** `tf.concat(parts, axis=1)` of pieces that all have `height` rows. */
  function ConcatAxis1<T>(parts: seq<seq<seq<T>>>, height: nat): (r: seq<seq<T>>)
    requires forall k :: 0 <= k < |parts| ==> |parts[k]| == height
    ensures |r| == height
  {
    seq(height, i requires 0 <= i < height => ConcatRow(parts, i))
  }

  /** The entries are non-decreasing. */
  predicate Sorted(s: seq<int>)
  {
    forall a, b :: 0 <= a < b < |s| ==> s[a] <= s[b]
  }

  /** The positions `0 .. n-1` in order. */
  function Range(n: nat): (r: seq<nat>)
    ensures |r| == n && InRange(r, n)
  {
    seq(n, i requires 0 <= i < n => i)
  }

  /** Inserts position `i` into a list of positions that is ordered by key. */
  function InsertByKey(keys: seq<int>, i: nat, s: seq<nat>): (r: seq<nat>)
    requires i < |keys| && InRange(s, |keys|)
    ensures |r| == |s| + 1 && InRange(r, |keys|)
  {
    if s == [] || keys[i] <= keys[s[0]] then [i] + s
    else
      assert s == [s[0]] + s[1..];
      [s[0]] + InsertByKey(keys, i, s[1..])
  }

  /** The positions select non-decreasing keys. */
  predicate SortedBy(keys: seq<int>, s: seq<nat>)
    requires InRange(s, |keys|)
  {
    forall a, b :: 0 <= a < b < |s| ==> keys[s[a]] <= keys[s[b]]
  }

  /** Inserting a position whose key is at least `lo` among keys at least `lo` keeps them so. */
  lemma {:induction false} InsertByKeyBound(keys: seq<int>, i: nat, s: seq<nat>, lo: int)
    requires i < |keys| && InRange(s, |keys|) && keys[i] >= lo
    requires forall k :: 0 <= k < |s| ==> keys[s[k]] >= lo
    ensures forall k :: 0 <= k < |InsertByKey(keys, i, s)| ==> keys[InsertByKey(keys, i, s)[k]] >= lo
  {
    var r := InsertByKey(keys, i, s);
    if s == [] || keys[i] <= keys[s[0]] {
      assert r == [i] + s;
    } else {
      var rest := InsertByKey(keys, i, s[1..]);
      InsertByKeyBound(keys, i, s[1..], lo);
      assert r == [s[0]] + rest;
      forall k | 0 < k < |r| ensures keys[r[k]] >= lo {
        assert r[k] == rest[k - 1];
        assert keys[rest[k - 1]] >= lo;
      }
    }
  }

  lemma {:induction false} InsertByKeySorted(keys: seq<int>, i: nat, s: seq<nat>)
    requires i < |keys| && InRange(s, |keys|)
    requires SortedBy(keys, s)
    ensures SortedBy(keys, InsertByKey(keys, i, s))
  {
    var r := InsertByKey(keys, i, s);
    if s == [] || keys[i] <= keys[s[0]] {
      assert r == [i] + s;
      forall b | 0 < b < |r| ensures keys[r[0]] <= keys[r[b]] {
        assert keys[s[0]] <= keys[s[b - 1]];
      }
    } else {
      var rest := InsertByKey(keys, i, s[1..]);
      assert r == [s[0]] + rest;
      InsertByKeySorted(keys, i, s[1..]);
      InsertByKeyBound(keys, i, s[1..], keys[s[0]]);
      forall a, b | 0 <= a < b < |r| ensures keys[r[a]] <= keys[r[b]] {
        assert r[b] == rest[b - 1];
        assert keys[s[0]] <= keys[rest[b - 1]];
        if a > 0 {
          assert r[a] == rest[a - 1];
          assert keys[rest[a - 1]] <= keys[rest[b - 1]];
        }
      }
    }
  }

  /** Gathering through an inserted position adds exactly that position's element. */
  lemma {:induction false} GatherInsertByKey<T>(xs: seq<T>, keys: seq<int>, i: nat, s: seq<nat>)
    requires |xs| == |keys| && i < |keys| && InRange(s, |keys|)
    ensures multiset(Gather(xs, InsertByKey(keys, i, s))) == multiset(Gather(xs, s)) + multiset{xs[i]}
  {
    var r := InsertByKey(keys, i, s);
    if s == [] || keys[i] <= keys[s[0]] {
      assert r == [i] + s;
      GatherCons(xs, i, s);
    } else {
      var rest := InsertByKey(keys, i, s[1..]);
      assert r == [s[0]] + rest;
      GatherInsertByKey(xs, keys, i, s[1..]);
      GatherCons(xs, s[0], rest);
      assert s == [s[0]] + s[1..];
      GatherCons(xs, s[0], s[1..]);
    }
  }

  /** Gathering through a position put in front puts its element in front. */
  lemma GatherCons<T>(xs: seq<T>, p: nat, s: seq<nat>)
    requires p < |xs| && InRange(s, |xs|)
    ensures InRange([p] + s, |xs|) && Gather(xs, [p] + s) == [xs[p]] + Gather(xs, s)
  {
    assert InRange([p] + s, |xs|);
    assert Gather(xs, [p] + s) == [xs[p]] + Gather(xs, s);
  }

  /** The positions `0 .. n-1` ordered by their keys (insertion order among equal keys). */
  function ArgsortPrefix(keys: seq<int>, n: nat): (r: seq<nat>)
    requires n <= |keys|
    ensures |r| == n && InRange(r, |keys|)
  {
    if n == 0 then [] else InsertByKey(keys, n - 1, ArgsortPrefix(keys, n - 1))
  }

  lemma {:induction false} ArgsortPrefixSorted(keys: seq<int>, n: nat)
    requires n <= |keys|
    ensures SortedBy(keys, ArgsortPrefix(keys, n))
  {
    if n > 0 {
      var prev := ArgsortPrefix(keys, n - 1);
      ArgsortPrefixSorted(keys, n - 1);
      InsertByKeySorted(keys, n - 1, prev);
      assert ArgsortPrefix(keys, n) == InsertByKey(keys, n - 1, prev);
    }
  }

  lemma {:induction false} GatherArgsortPrefix<T>(xs: seq<T>, keys: seq<int>, n: nat)
    requires |xs| == |keys| && n <= |keys|
    ensures multiset(Gather(xs, ArgsortPrefix(keys, n))) == multiset(xs[..n])
  {
    if n > 0 {
      assert xs[..n] == xs[..n - 1] + [xs[n - 1]];
      var prev := ArgsortPrefix(keys, n - 1);
      assert ArgsortPrefix(keys, n) == InsertByKey(keys, n - 1, prev);
      GatherArgsortPrefix(xs, keys, n - 1);
      GatherInsertByKey(xs, keys, n - 1, prev);
    }
  }

  /**
    `tf.argsort(keys)` in ascending order. The operation is not stable; this
    model fixes one valid answer, and only what every valid answer satisfies is
    proved about it: every position is chosen exactly once and the keys it
    selects are in order.
   */
  function Argsort(keys: seq<int>): (idx: seq<nat>)
    ensures |idx| == |keys| && InRange(idx, |keys|)
    ensures multiset(idx) == multiset(Range(|keys|))
    ensures Sorted(Gather(keys, idx))
  {
    ArgsortPrefixSorted(keys, |keys|);
    var idx := ArgsortPrefix(keys, |keys|);
    assert multiset(idx) == multiset(Range(|keys|)) by {
      var positions := Range(|keys|);
      GatherArgsortPrefix(positions, keys, |keys|);
      assert Gather(positions, idx) == idx;
      assert positions[..|keys|] == positions;
    }
    assert Sorted(Gather(keys, idx)) by {
      forall a, b | 0 <= a < b < |idx| ensures Gather(keys, idx)[a] <= Gather(keys, idx)[b] {
        assert keys[idx[a]] <= keys[idx[b]];
      }
    }
    idx
  }

  /** Gathering any sequence as long as the keys through their argsort permutes it. */
  lemma ArgsortPermutes<T>(keys: seq<int>, xs: seq<T>)
    requires |xs| == |keys|
    ensures multiset(Gather(xs, Argsort(keys))) == multiset(xs)
  {
    GatherArgsortPrefix(xs, keys, |keys|);
    assert xs[..|keys|] == xs;
  }

  /** The elements are pairwise different. */
  predicate Distinct<T(==)>(s: seq<T>)
  {
    forall a, b :: 0 <= a < b < |s| ==> s[a] != s[b]
  }

  /** Position of an element of a sequence. */
  function IndexOf<T(==)>(s: seq<T>, x: T): (k: nat)
    requires x in s
    ensures k < |s| && s[k] == x
  {
    if s[0] == x then 0 else 1 + IndexOf(s[1..], x)
  }

  /**
    `tf.unique(xs)`: the distinct values in order of first occurrence, and for
    every position the index of its value among them.
   */
  function Unique(xs: seq<int>): (r: (seq<int>, seq<nat>))
    ensures Distinct(r.0)
    ensures |r.1| == |xs| && InRange(r.1, |r.0|)
    ensures Gather(r.0, r.1) == xs
    ensures forall v :: v in r.0 <==> v in xs
  {
    if xs == [] then ([], [])
    else
      var prefix := xs[..|xs| - 1];
      var x := xs[|xs| - 1];
      var (u, idx) := Unique(prefix);
      assert xs == prefix + [x];
      if x in u then (u, idx + [IndexOf(u, x)])
      else (u + [x], idx + [|u|])
  }
}
