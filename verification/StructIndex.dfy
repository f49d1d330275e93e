/** Indexing a struct array: its elements are rows of fields, copied field by field. */
module StructIndex {
  import opened Common
  import opened Subscripts
  import opened CellIndex

  /** Where row `q` begins when each row has `n` fields. */
  function Row(q: int, n: nat): int {
    q * n
  }

  lemma RowBounds(q: int, count: int, n: nat)
    requires 0 <= q < count
    ensures 0 <= Row(q, n) && Row(q, n) + n == Row(q + 1, n) <= Row(count, n)
  {
    NonNegative(q, n);
    NonNegative(count - q - 1, n);
  }

  ghost function RowOf<T>(data: seq<T>, q: int, n: nat): seq<T> {
    if 0 <= Row(q, n) && Row(q, n) + n <= |data| then data[Row(q, n)..Row(q, n) + n] else []
  }

  /** The array as a sequence of rows. */
  ghost function Grouped<T>(data: seq<T>, count: nat, n: nat): (g: seq<seq<T>>)
    ensures |g| == count && forall q | 0 <= q < count :: g[q] == RowOf(data, q, n)
  {
    seq(count, q requires 0 <= q => RowOf(data, q, n))
  }

  ghost function Flat<T>(rows: seq<seq<T>>): seq<T> {
    if rows == [] then [] else Flat(rows[..|rows| - 1]) + rows[|rows| - 1]
  }

  ghost predicate Rows<T>(rows: seq<seq<T>>, n: nat) {
    forall p | 0 <= p < |rows| :: |rows[p]| == n
  }

  lemma FlatAppend<T>(rows: seq<seq<T>>, row: seq<T>)
    ensures Flat(rows + [row]) == Flat(rows) + row
  {
    assert (rows + [row])[..|rows|] == rows;
  }

  lemma {:induction false} FlatLength<T>(rows: seq<seq<T>>, n: nat)
    requires Rows(rows, n)
    ensures |Flat(rows)| == Row(|rows|, n)
  {
    if rows != [] {
      FlatLength(rows[..|rows| - 1], n);
      RowBounds(|rows| - 1, |rows|, n);
    }
  }

  lemma {:induction false} FlatRow<T>(rows: seq<seq<T>>, n: nat, p: nat)
    requires Rows(rows, n) && p < |rows|
    ensures 0 <= Row(p, n) <= Row(p, n) + n <= |Flat(rows)|
    ensures Flat(rows)[Row(p, n)..Row(p, n) + n] == rows[p]
  {
    var m := |rows| - 1;
    FlatLength(rows, n);
    FlatLength(rows[..m], n);
    RowBounds(p, |rows|, n);
    if p < m {
      FlatRow(rows[..m], n, p);
      assert Flat(rows)[..Row(m, n)] == Flat(rows[..m]);
      RowBounds(p, m, n);
      assert Flat(rows)[Row(p, n)..Row(p, n) + n] == Flat(rows[..m])[Row(p, n)..Row(p, n) + n];
    }
  }

  /** The row of the result at subscripts `c` is the row of the array that the request means. */
  ghost predicate StructAt<T>(fields: seq<T>, data: seq<T>, n: nat, dims: seq<nat>, start: seq<int>, stride: seq<int>, edge: seq<nat>, c: seq<int>)
    requires |dims| == |start| == |stride| == |edge| == |c|
  {
    var p, q := Row(Linear(edge, c), n), Row(Linear(dims, Picked(start, stride, c)), n);
    && 0 <= p <= p + n <= |fields|
    && 0 <= q <= q + n <= |data|
    && fields[p..p + n] == data[q..q + n]
  }

  /** One row, field by field. */
  method CopyRow<T>(data: seq<T>, fields: seq<T>, I: int, n: nat) returns (fields': seq<T>, I': int)
    requires 0 <= I <= I + n <= |data|
    ensures fields' == fields + data[I..I + n] && I' == I + n
  {
    fields', I' := fields, I;
    for field := 0 to n
      invariant I' == I + field && fields' == fields + data[I..I']
    {
      fields' := fields' + [data[I']];
      I' := I' + 1;
    }
  }

  method CopyStructColumn<T>(data: seq<T>, fields: seq<T>, I: int, n: nat, dims: seq<nat>, start: seq<int>, stride: seq<int>, edge: seq<nat>,
                             idx: seq<int>, ghost c: seq<int>, ghost rows: seq<seq<T>>)
      returns (fields': seq<T>, ghost rows': seq<seq<T>>)
    requires InBounds(dims, start, stride, edge) && 1 <= |dims| <= |idx| && |data| == Row(Prod(dims), n)
    requires InRange(edge, c) && c[0] == 0 && |rows| == Linear(edge, c)
    requires forall k | 0 <= k < |c| :: idx[k] == start[k] + stride[k] * c[k]
    requires I == Row(Linear(dims, idx[..|dims|]), n)
    requires Rows(rows, n) && fields == Flat(rows)
    requires FilledTo(rows, |rows|, Grouped(data, Prod(dims), n), dims, start, stride, edge)
    ensures |rows'| == |rows| + edge[0] <= Prod(edge)
    ensures Rows(rows', n) && fields' == Flat(rows')
    ensures FilledTo(rows', |rows'|, Grouped(data, Prod(dims), n), dims, start, stride, edge)
  {
    hide Linear, Prod, FilledTo, Row, Flat, RowOf;
    fields', rows' := fields, rows;
    var at := I;
    ghost var q := Linear(dims, idx[..|dims|]);
    ghost var grouped := Grouped(data, Prod(dims), n);
    ColumnElement(dims, start, stride, edge, c, idx, edge[0] - 1);
    for j := 0 to edge[0]
      invariant |rows'| == |rows| + j
      invariant q == Linear(dims, idx[..|dims|]) + j * stride[0] && at == Row(q, n)
      invariant Rows(rows', n) && fields' == Flat(rows')
      invariant FilledTo(rows', |rows'|, grouped, dims, start, stride, edge)
    {
      AddRow(data, rows', n, dims, start, stride, edge, idx, c, j, q);
      rows' := rows' + [RowOf(data, q, n)];
      fields', at := CopyRow(data, fields', at, n);
      NextRow(q, stride[0], n);
      at := at + (stride[0] - 1) * n;
      NextStride(stride[0], j);
      q := q + stride[0];
    }
  }

  lemma AddRow<T>(data: seq<T>, rows: seq<seq<T>>, n: nat, dims: seq<nat>, start: seq<int>, stride: seq<int>, edge: seq<nat>,
                  idx: seq<int>, c: seq<int>, j: nat, q: int)
    requires InBounds(dims, start, stride, edge) && 1 <= |dims| <= |idx| && |data| == Row(Prod(dims), n)
    requires InRange(edge, c) && c[0] == 0 && j < edge[0] && |rows| == Linear(edge, c) + j
    requires forall k | 0 <= k < |c| :: idx[k] == start[k] + stride[k] * c[k]
    requires q == Linear(dims, idx[..|dims|]) + j * stride[0]
    requires FilledTo(rows, |rows|, Grouped(data, Prod(dims), n), dims, start, stride, edge)
    ensures 0 <= Row(q, n) <= Row(q, n) + n <= |data|
    ensures RowOf(data, q, n) == data[Row(q, n)..Row(q, n) + n]
    ensures var more := rows + [RowOf(data, q, n)];
            && Flat(more) == Flat(rows) + RowOf(data, q, n)
            && FilledTo(more, |more|, Grouped(data, Prod(dims), n), dims, start, stride, edge)
  {
    hide Linear, Prod, FilledTo, Row, Flat, RowOf;
    ColumnElement(dims, start, stride, edge, c, idx, j);
    RowInData(data, q, Prod(dims), n);
    var row := RowOf(data, q, n);
    FillOne(rows, row, Grouped(data, Prod(dims), n), dims, start, stride, edge, c[0 := j]);
    FlatAppend(rows, row);
  }

  lemma RowInData<T>(data: seq<T>, q: int, count: nat, n: nat)
    requires 0 <= q < count && |data| == Row(count, n)
    ensures 0 <= Row(q, n) <= Row(q, n) + n <= |data|
    ensures RowOf(data, q, n) == data[Row(q, n)..Row(q, n) + n]
  {
    hide Row;
    RowBounds(q, count, n);
  }

  lemma NextRow(q: int, s: int, n: nat)
    ensures Row(q, n) + n + (s - 1) * n == Row(q + s, n)
  {
  }

  /** Mat_VarGetStructs: the dims and the fields of the new struct array. None: the rank is more
      than 9, or the variable is not a struct. */
  method GetStructs<T>(isStruct: bool, dims: seq<nat>, n: nat, data: seq<T>, start: seq<int>, stride: seq<int>, edge: seq<nat>)
      returns (r: Option<(seq<nat>, seq<T>)>)
    requires 1 <= |dims| == |start| == |stride| == |edge| && |data| == Row(Prod(dims), n)
    requires 0 < Prod(edge) ==> InBounds(dims, start, stride, edge)
    ensures r.None? <==> |dims| > 9 || !isStruct
    ensures r.Some? ==>
      && r.value.0 == edge
      && |r.value.1| == Row(Prod(edge), n)
      && forall c | InRange(edge, c) :: StructAt(r.value.1, data, n, dims, start, stride, edge, c)
  {
    hide Linear, Prod, FilledTo, Row, Flat;
    if |dims| > 9 || !isStruct {
      return None;
    }
    var m := |dims|;
    var dimp, idx, N, I := Prepare(dims, start, edge);
    I := I * n;
    var cnt: seq<int> := seq(10, _ => 0);
    var fields: seq<T> := [];
    var i := 0;
    ghost var c: seq<int> := seq(m, _ => 0);
    ghost var rows: seq<seq<T>> := [];
    ghost var grouped := Grouped(data, Prod(dims), n);
    ZeroStart(edge, start, stride, idx);
    NothingYet(grouped, dims, start, stride, edge);
    RowIs(Linear(dims, idx[..m]), n);
    FlatNothing<T>();
    while i < N
      invariant 0 <= i == |rows| <= N == Prod(edge)
      invariant Rows(rows, n) && fields == Flat(rows)
      invariant 0 < N ==> FilledTo(rows, |rows|, grouped, dims, start, stride, edge)
      invariant i < N ==>
        && InRange(edge, c) && Odometer(start, stride, c, cnt, idx)
        && Linear(edge, c) == i
        && I == Row(Linear(dims, idx[..m]), n)
      decreases N - i
    {
      fields, rows := CopyStructColumn(data, fields, I, n, dims, start, stride, edge, idx, c, rows);
      cnt, idx, I, c := Advance(dims, start, stride, edge, dimp, cnt, idx, c);
      I := I * n;
      RowIs(Linear(dims, idx[..m]), n);
      i := i + edge[0];
    }
    AllFilled(rows, grouped, dims, start, stride, edge);
    FlatLength(rows, n);
    AllRows(rows, fields, data, n, dims, start, stride, edge);
    return Some((edge, fields));
  }

  lemma RowIs(q: int, n: nat)
    ensures Row(q, n) == q * n
  {
  }

  lemma FlatNothing<T>()
    ensures Flat<T>([]) == []
  {
  }

  lemma AllRows<T>(rows: seq<seq<T>>, fields: seq<T>, data: seq<T>, n: nat, dims: seq<nat>, start: seq<int>, stride: seq<int>, edge: seq<nat>)
    requires |dims| == |start| == |stride| == |edge|
    requires |data| == Row(Prod(dims), n) && Rows(rows, n) && fields == Flat(rows)
    requires forall c | InRange(edge, c) :: CellAt(rows, Grouped(data, Prod(dims), n), dims, start, stride, edge, c)
    ensures forall c | InRange(edge, c) :: StructAt(fields, data, n, dims, start, stride, edge, c)
  {
    hide Linear, Prod, Row, RowOf, Flat;
    forall c | InRange(edge, c)
      ensures StructAt(fields, data, n, dims, start, stride, edge, c)
    {
      var p, q := Linear(edge, c), Linear(dims, Picked(start, stride, c));
      assert CellAt(rows, Grouped(data, Prod(dims), n), dims, start, stride, edge, c);
      FlatRow(rows, n, p);
      RowInData(data, q, Prod(dims), n);
      assert rows[p] == RowOf(data, q, n);
    }
  }
}
