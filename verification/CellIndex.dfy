/** Indexing cell and struct arrays by start, stride and edge: the odometers that carry from one
    dimension to the next agree with the linear index of the subscripts they stand for. */
module CellIndex {
  import opened Common
  import opened Subscripts

  /** The subscripts in the array of the element whose subscripts in the result are `c`. */
  function Picked(start: seq<int>, stride: seq<int>, c: seq<int>): (r: seq<int>)
    requires |start| == |stride| == |c|
    ensures |r| == |c| && forall k | 0 <= k < |c| :: r[k] == start[k] + stride[k] * c[k]
  {
    seq(|c|, k requires 0 <= k < |c| => start[k] + stride[k] * c[k])
  }

  /** The request stays within the array, by its first and its last element in each dimension. */
  ghost predicate InBounds(dims: seq<nat>, start: seq<int>, stride: seq<int>, edge: seq<nat>) {
    && |dims| == |start| == |stride| == |edge|
    && forall k | 0 <= k < |dims| ::
         0 <= start[k] < dims[k] && 0 <= start[k] + stride[k] * ((edge[k] as int) - 1) < dims[k]
  }

  lemma PickedInRange(dims: seq<nat>, start: seq<int>, stride: seq<int>, edge: seq<nat>, c: seq<int>)
    requires InBounds(dims, start, stride, edge) && InRange(edge, c)
    ensures InRange(dims, Picked(start, stride, c))
  {
    forall k | 0 <= k < |dims|
      ensures 0 <= start[k] + stride[k] * c[k] < dims[k]
    {
      Between(start[k], stride[k], c[k], edge[k] - 1, dims[k]);
    }
  }

  lemma Between(a: int, s: int, c: int, last: int, d: int)
    requires 0 <= c <= last && 0 <= a < d && 0 <= a + s * last < d
    ensures 0 <= a + s * c < d
  {
    if s >= 0 {
      NonNegative(s, last - c);
      NonNegative(s, c);
    } else {
      NonNegative(-s, last - c);
      NonNegative(-s, c);
    }
  }

  /** Element `c` of the result is the element of the array that the request means. */
  ghost predicate CellAt<T>(cells: seq<T>, data: seq<T>, dims: seq<nat>, start: seq<int>, stride: seq<int>, edge: seq<nat>, c: seq<int>)
    requires |dims| == |start| == |stride| == |edge| == |c|
  {
    var p, q := Linear(edge, c), Linear(dims, Picked(start, stride, c));
    0 <= p < |cells| && 0 <= q < |data| && cells[p] == data[q]
  }

  /** The odometer: `cnt` counts in each dimension but the first, `idx` holds the subscripts. */
  ghost predicate Odometer(start: seq<int>, stride: seq<int>, c: seq<int>, cnt: seq<int>, idx: seq<int>) {
    && 1 <= |start| == |stride| == |c| <= 9
    && |cnt| == |idx| == 10
    && c[0] == 0
    && (forall k | 1 <= k < |c| :: cnt[k] == c[k])
    && (forall k | 0 <= k < |c| :: idx[k] == start[k] + stride[k] * c[k])
  }

  ghost predicate Dimp(dims: seq<nat>, dimp: seq<int>) {
    |dimp| == 10 && |dims| <= 9 && forall k | 1 <= k <= |dims| :: dimp[k - 1] == Prod(dims[..k])
  }

  /** Odometer, with dimension `j` allowed to be one too far. */
  ghost predicate Carrying(edge: seq<nat>, c: seq<int>, j: nat) {
    && |c| == |edge|
    && (forall k | 0 <= k < |c| :: 0 < edge[k])
    && (forall k | 0 <= k < |c| && k != j :: 0 <= c[k] < edge[k])
    && (j < |c| ==> 0 <= c[j] <= edge[j])
  }

  /** Moves the digit that is one too far on to the next dimension, without changing the index. */
  lemma CarryOne(edge: seq<nat>, c: seq<int>, j: nat)
    requires j + 1 < |edge| == |c| && Carrying(edge, c, j) && c[j] == edge[j]
    ensures var c' := c[j := 0][j + 1 := c[j + 1] + 1];
            Carrying(edge, c', j + 1) && Linear(edge, c') == Linear(edge, c)
  {
    hide Linear, Prod;
    var c1 := c[j := 0];
    LinearUpdate(edge, c, j, 0);
    LinearUpdate(edge, c1, j + 1, c[j + 1] + 1);
    ProdStep(edge, j);
    CancelCarry(edge[j], Prod(edge[..j]));
  }

  lemma CancelCarry(d: int, p: int)
    ensures (0 - d) * p + p * d == 0
  {
  }

  /** A last digit that is one too far puts the index past the end. */
  lemma CarryOut(edge: seq<nat>, c: seq<int>)
    requires 1 <= |edge| == |c| && Carrying(edge, c, |edge| - 1) && c[|edge| - 1] == edge[|edge| - 1]
    ensures Linear(edge, c) >= Prod(edge)
  {
    var n := |edge| - 1;
    LinearBound(edge[..n], c[..n]);
  }

  /** One dimension of the carry. */
  method Carry(start: seq<int>, stride: seq<int>, edge: seq<nat>, j: nat,
               cnt: seq<int>, idx: seq<int>, ghost c: seq<int>)
      returns (cnt': seq<int>, idx': seq<int>, ghost c': seq<int>)
    requires Odometer(start, stride, c, cnt, idx) && 1 <= j < |edge| == |start|
    requires Carrying(edge, c, j)
    ensures Odometer(start, stride, c', cnt', idx') && Carrying(edge, c', j + 1)
    ensures Linear(edge, c') == Linear(edge, c) || (j == |edge| - 1 && Prod(edge) <= Linear(edge, c))
    ensures idx'[..j] == idx[..j]
  {
    cnt', idx', c' := cnt, idx, c;
    if cnt[j] == edge[j] {
      if j < |edge| - 1 {
        CarryOne(edge, c, j);
      } else {
        CarryOut(edge, c);
      }
      cnt' := cnt'[j := 0];
      idx' := idx'[j := start[j]];
      c' := c'[j := 0];
      if j < |edge| - 1 {
        cnt' := cnt'[j + 1 := cnt'[j + 1] + 1];
        idx' := idx'[j + 1 := idx'[j + 1] + stride[j + 1]];
        c' := c'[j + 1 := c'[j + 1] + 1];
        NextStride(stride[j + 1], c[j + 1]);
      }
    }
  }

  lemma NextStride(s: int, x: int)
    ensures s * (x + 1) == s * x + s
  {
  }

  /** The step of the odometer: the next column of the result, and the index it starts at. */
  method Advance(dims: seq<nat>, start: seq<int>, stride: seq<int>, edge: seq<nat>, dimp: seq<int>,
                 cnt: seq<int>, idx: seq<int>, ghost c: seq<int>)
      returns (cnt': seq<int>, idx': seq<int>, I: int, ghost c': seq<int>)
    requires |dims| == |edge| == |start| && Odometer(start, stride, c, cnt, idx) && Dimp(dims, dimp)
    requires InRange(edge, c)
    ensures |cnt'| == |idx'| == 10
    ensures Linear(edge, c) + edge[0] < Prod(edge) ==>
      && InRange(edge, c') && Odometer(start, stride, c', cnt', idx')
      && Linear(edge, c') == Linear(edge, c) + edge[0]
      && I == Linear(dims, idx'[..|dims|])
  {
    hide Linear, Prod;
    var n := |dims|;
    cnt', idx', c' := cnt, idx, c;
    idx' := idx'[0 := start[0]];
    I := idx'[0];
    cnt' := cnt'[1 := cnt'[1] + 1];
    if n == 1 {
      OneDimension(edge, c);
      return;
    }
    idx' := idx'[1 := idx'[1] + stride[1]];
    c' := c[1 := c[1] + 1];
    NextStride(stride[1], c[1]);
    LinearUpdate(edge, c, 1, c[1] + 1);
    OneColumn(edge);
    ghost var over := false;
    var j := 1;
    FirstTerm(dims, idx'[..n]);
    assert idx'[..n][..1] == idx'[..1];
    while j < n
      invariant 1 <= j <= n
      invariant Odometer(start, stride, c', cnt', idx')
      invariant Carrying(edge, c', j)
      invariant if over then Prod(edge) <= Linear(edge, c) + edge[0] else Linear(edge, c') == Linear(edge, c) + edge[0]
      invariant over ==> j == n
      invariant I == Linear(dims[..j], idx'[..j])
    {
      ghost var before := c';
      cnt', idx', c' := Carry(start, stride, edge, j, cnt', idx', c');
      over := Linear(edge, c') != Linear(edge, before);
      LinearStep(dims, idx'[..n], j);
      assert idx'[..n][..j] == idx'[..j] && idx'[..n][..j + 1] == idx'[..j + 1];
      I := I + idx'[j] * dimp[j - 1];
      j := j + 1;
    }
    assert dims[..n] == dims;
  }

  lemma FirstTerm(dims: seq<nat>, s: seq<int>)
    requires 1 <= |dims| == |s|
    ensures Linear(dims[..1], s[..1]) == s[0]
  {
    assert dims[..1][..0] == [] && s[..1][..0] == [];
  }

  lemma OneColumn(edge: seq<nat>)
    requires 1 <= |edge|
    ensures Prod(edge[..1]) == edge[0]
  {
    assert edge[..1][..0] == [];
  }

  lemma OneDimension(edge: seq<nat>, c: seq<int>)
    requires |edge| == |c| == 1 && c[0] == 0
    ensures Prod(edge) == edge[0] && Linear(edge, c) == 0
  {
    assert edge[..0] == [] && c[..0] == [];
  }

  // ----- The walk -----

  /** Everything in the result before position `p` is in place. */
  ghost predicate FilledTo<T>(cells: seq<T>, p: int, data: seq<T>, dims: seq<nat>, start: seq<int>, stride: seq<int>, edge: seq<nat>)
    requires |dims| == |start| == |stride| == |edge|
  {
    forall c | InRange(edge, c) && Linear(edge, c) < p :: CellAt(cells, data, dims, start, stride, edge, c)
  }

  /** The first `j` rows of a column. */
  lemma ColumnElement(dims: seq<nat>, start: seq<int>, stride: seq<int>, edge: seq<nat>, c: seq<int>, idx: seq<int>, j: nat)
    requires InBounds(dims, start, stride, edge) && 1 <= |dims| <= |idx|
    requires InRange(edge, c) && c[0] == 0 && j < edge[0]
    requires forall k | 0 <= k < |c| :: idx[k] == start[k] + stride[k] * c[k]
    ensures var cj := c[0 := j];
            && InRange(edge, cj)
            && Linear(edge, cj) == Linear(edge, c) + j < Prod(edge)
            && Linear(dims, Picked(start, stride, cj)) == Linear(dims, idx[..|dims|]) + j * stride[0]
            && 0 <= Linear(dims, idx[..|dims|]) + j * stride[0] < Prod(dims)
  {
    var n := |dims|;
    var cj := c[0 := j];
    assert edge[..0] == [] && dims[..0] == [];
    LinearUpdate(edge, c, 0, j);
    LinearBound(edge, cj);
    var s := idx[..n];
    var v := start[0] + stride[0] * j;
    LinearUpdate(dims, s, 0, v);
    assert Picked(start, stride, cj) == s[0 := v];
    PickedInRange(dims, start, stride, edge, cj);
    LinearBound(dims, Picked(start, stride, cj));
    FromStart(idx[0], start[0], stride[0], j);
  }

  lemma FromStart(i: int, a: int, s: int, j: int)
    requires i == a + s * 0
    ensures (a + s * j - i) * 1 == j * s
  {
  }

  lemma FillOne<T>(cells: seq<T>, x: T, data: seq<T>, dims: seq<nat>, start: seq<int>, stride: seq<int>, edge: seq<nat>, c: seq<int>)
    requires InBounds(dims, start, stride, edge) && InRange(edge, c)
    requires FilledTo(cells, |cells|, data, dims, start, stride, edge)
    requires |cells| == Linear(edge, c)
    requires var q := Linear(dims, Picked(start, stride, c)); 0 <= q < |data| && x == data[q]
    ensures FilledTo(cells + [x], |cells| + 1, data, dims, start, stride, edge)
  {
    forall d | InRange(edge, d) && Linear(edge, d) < |cells| + 1
      ensures CellAt(cells + [x], data, dims, start, stride, edge, d)
    {
      if Linear(edge, d) < |cells| {
        assert CellAt(cells, data, dims, start, stride, edge, d);
      } else {
        LinearInjective(edge, d, c);
      }
    }
  }

  /** One column of the result, copied from index `I` on by steps of the first stride. */
  method CopyColumn<T>(data: seq<T>, cells: seq<T>, I: int, dims: seq<nat>, start: seq<int>, stride: seq<int>, edge: seq<nat>,
                       idx: seq<int>, ghost c: seq<int>)
      returns (cells': seq<T>)
    requires InBounds(dims, start, stride, edge) && 1 <= |dims| <= |idx| && |data| == Prod(dims)
    requires InRange(edge, c) && c[0] == 0 && |cells| == Linear(edge, c)
    requires forall k | 0 <= k < |c| :: idx[k] == start[k] + stride[k] * c[k]
    requires I == Linear(dims, idx[..|dims|])
    requires FilledTo(cells, |cells|, data, dims, start, stride, edge)
    ensures |cells'| == |cells| + edge[0] <= Prod(edge)
    ensures FilledTo(cells', |cells'|, data, dims, start, stride, edge)
  {
    hide Linear, Prod, FilledTo;
    cells' := cells;
    var at := I;
    ColumnElement(dims, start, stride, edge, c, idx, edge[0] - 1);
    for j := 0 to edge[0]
      invariant |cells'| == |cells| + j
      invariant at == I + j * stride[0]
      invariant FilledTo(cells', |cells'|, data, dims, start, stride, edge)
    {
      ColumnElement(dims, start, stride, edge, c, idx, j);
      FillOne(cells', data[at], data, dims, start, stride, edge, c[0 := j]);
      cells' := cells' + [data[at]];
      NextStride(stride[0], j);
      at := at + stride[0];
    }
  }

  /** Mat_VarGetCells. None: the rank is more than 9. */
  method GetCells<T>(dims: seq<nat>, data: seq<T>, start: seq<int>, stride: seq<int>, edge: seq<nat>)
      returns (r: Option<seq<T>>)
    requires 1 <= |dims| == |start| == |stride| == |edge| && |data| == Prod(dims)
    requires 0 < Prod(edge) ==> InBounds(dims, start, stride, edge)
    ensures r.None? <==> |dims| > 9
    ensures r.Some? ==>
      && |r.value| == Prod(edge)
      && forall c | InRange(edge, c) :: CellAt(r.value, data, dims, start, stride, edge, c)
  {
    hide Linear, Prod, FilledTo;
    if |dims| > 9 {
      return None;
    }
    var n := |dims|;
    var dimp, idx, N, I := Prepare(dims, start, edge);
    var cnt: seq<int> := seq(10, _ => 0);
    var cells: seq<T> := [];
    var i := 0;
    ghost var c: seq<int> := seq(n, _ => 0);
    ZeroStart(edge, start, stride, idx);
    NothingYet(data, dims, start, stride, edge);
    while i < N
      invariant 0 <= i == |cells| <= N == Prod(edge)
      invariant 0 < N ==> FilledTo(cells, |cells|, data, dims, start, stride, edge)
      invariant i < N ==>
        && InRange(edge, c) && Odometer(start, stride, c, cnt, idx)
        && Linear(edge, c) == i
        && I == Linear(dims, idx[..n])
      decreases N - i
    {
      cells := CopyColumn(data, cells, I, dims, start, stride, edge, idx, c);
      cnt, idx, I, c := Advance(dims, start, stride, edge, dimp, cnt, idx, c);
      i := i + edge[0];
    }
    AllFilled(cells, data, dims, start, stride, edge);
    return Some(cells);
  }

  lemma NothingYet<T>(data: seq<T>, dims: seq<nat>, start: seq<int>, stride: seq<int>, edge: seq<nat>)
    requires |dims| == |start| == |stride| == |edge|
    ensures FilledTo([], 0, data, dims, start, stride, edge)
  {
    forall c | InRange(edge, c)
      ensures 0 <= Linear(edge, c)
    {
      LinearBound(edge, c);
    }
  }

  lemma AllFilled<T>(cells: seq<T>, data: seq<T>, dims: seq<nat>, start: seq<int>, stride: seq<int>, edge: seq<nat>)
    requires |dims| == |start| == |stride| == |edge| && |cells| == Prod(edge)
    requires 0 < Prod(edge) ==> FilledTo(cells, |cells|, data, dims, start, stride, edge)
    ensures forall c | InRange(edge, c) :: CellAt(cells, data, dims, start, stride, edge, c)
  {
    forall c | InRange(edge, c)
      ensures CellAt(cells, data, dims, start, stride, edge, c)
    {
      LinearBound(edge, c);
    }
  }

  /** Before the walk: the products of the dims, and the index of the first element. */
  method Prepare(dims: seq<nat>, start: seq<int>, edge: seq<nat>)
      returns (dimp: seq<int>, idx: seq<int>, N: nat, I: int)
    requires 1 <= |dims| == |start| == |edge| <= 9
    ensures Dimp(dims, dimp) && |idx| == 10 && idx[..|dims|] == start
    ensures N == Prod(edge) && I == Linear(dims, start)
  {
    dimp, idx := seq(10, _ => 0), seq(10, _ => 0);
    dimp := dimp[0 := dims[0]];
    N := edge[0];
    I := start[0];
    idx := idx[0 := start[0]];
    OneColumn(dims);
    OneColumn(edge);
    FirstTerm(dims, start);
    var i := 1;
    while i < |dims|
      invariant 1 <= i <= |dims|
      invariant |dimp| == |idx| == 10 && idx[..i] == start[..i]
      invariant forall k | 1 <= k <= i :: dimp[k - 1] == Prod(dims[..k])
      invariant N == Prod(edge[..i]) && I == Linear(dims[..i], start[..i])
    {
      idx := idx[i := start[i]];
      ProdStep(dims, i);
      ProdStep(edge, i);
      LinearStep(dims, start, i);
      dimp := dimp[i := dimp[i - 1] * dims[i]];
      N := N * edge[i];
      I := I + start[i] * dimp[i - 1];
      i := i + 1;
    }
    assert dims[..i] == dims && edge[..i] == edge && start[..i] == start;
  }

  lemma ZeroStart(edge: seq<nat>, start: seq<int>, stride: seq<int>, idx: seq<int>)
    requires 1 <= |edge| == |start| == |stride| <= 9 && |idx| == 10 && idx[..|edge|] == start
    ensures var c: seq<int> := seq(|edge|, _ => 0);
            && (0 < Prod(edge) ==> InRange(edge, c))
            && Odometer(start, stride, c, seq(10, _ => 0), idx)
            && Linear(edge, c) == 0
  {
    var c: seq<int> := seq(|edge|, _ => 0);
    LinearZero(edge, c);
    if 0 < Prod(edge) {
      PositiveDims(edge);
    }
    forall k | 0 <= k < |edge|
      ensures idx[k] == start[k] + stride[k] * c[k]
    {
      assert idx[k] == idx[..|edge|][k];
    }
  }

  lemma {:induction false} LinearZero(dims: seq<nat>, s: seq<int>)
    requires |s| == |dims| && forall k | 0 <= k < |s| :: s[k] == 0
    ensures Linear(dims, s) == 0
  {
    if dims != [] {
      LinearZero(dims[..|dims| - 1], s[..|dims| - 1]);
    }
  }

  lemma {:induction false} PositiveDims(dims: seq<nat>)
    requires 0 < Prod(dims)
    ensures forall k | 0 <= k < |dims| :: 0 < dims[k]
  {
    if dims != [] {
      var n := |dims| - 1;
      var p, d := Prod(dims[..n]), dims[n];
      PositiveFactors(p, d);
      PositiveDims(dims[..n]);
      assert dims == dims[..n] + [d];
    }
  }

  lemma PositiveFactors(p: nat, d: nat)
    requires 0 < p * d
    ensures 0 < p && 0 < d
  {
  }
}
