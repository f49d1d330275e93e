/** Reading a slab of a matrix straight from a file, uncompressed and compressed. */
module Slab2 {
  import opened Common
  import opened Subscripts
  import opened CellIndex

  /** All at once: whole columns, one after the other. */
  predicate AtOnce(dims: seq<nat>, stride: seq<int>, edge: seq<nat>)
    requires |dims| == |stride| == |edge| == 2
  {
    stride[0] == 1 && edge[0] == dims[0] && stride[1] == 1
  }

  /** The place of the element in row `j` and column `i` of the result. */
  function Place(edge: seq<nat>, i: nat, j: nat): nat
    requires |edge| == 2
  {
    i * edge[0] + j
  }

  /** The address of this element in the matrix. */
  function Address(dims: seq<nat>, start: seq<int>, stride: seq<int>, i: nat, j: nat): int
    requires |dims| == |start| == |stride| == 2
  {
    (start[1] + stride[1] * i) * dims[0] + (start[0] + stride[0] * j)
  }

  /** It is the linear index of the subscripts the request means. */
  lemma AddressIsLinear(dims: seq<nat>, start: seq<int>, stride: seq<int>, i: nat, j: nat)
    requires |dims| == |start| == |stride| == 2
    ensures Linear(dims, Picked(start, stride, [j, i])) == Address(dims, start, stride, i, j)
  {
    var s := Picked(start, stride, [j, i]);
    FirstTerm(dims, s);
    OneColumn(dims);
    LinearStep(dims, s, 1);
    assert dims[..2] == dims && s[..2] == s;
  }

  lemma AddressInside(dims: seq<nat>, start: seq<int>, stride: seq<int>, edge: seq<nat>, i: nat, j: nat)
    requires |dims| == |start| == |stride| == |edge| == 2 && InBounds(dims, start, stride, edge) && i < edge[1] && j < edge[0]
    ensures 0 <= Address(dims, start, stride, i, j) < Prod(dims)
  {
    PickedInRange(dims, start, stride, edge, [j, i]);
    LinearBound(dims, Picked(start, stride, [j, i]));
    AddressIsLinear(dims, start, stride, i, j);
  }

  lemma PlaceInside(edge: seq<nat>, i: nat, j: nat)
    requires |edge| == 2 && i < edge[1] && j < edge[0]
    ensures 0 <= Place(edge, i, j) < edge[0] * edge[1]
  {
    ScaleBound(edge[0], edge[1], i);
  }

  /** Element (i, j) of the result is the one at this address. */
  ghost predicate Column<T>(out: seq<T>, file: seq<T>, cursor: nat, dims: seq<nat>, start: seq<int>, stride: seq<int>, edge: seq<nat>, i: nat)
    requires |dims| == |start| == |stride| == |edge| == 2
  {
    forall j | 0 <= j < edge[0] :: ElementAt(out, file, cursor, dims, start, stride, edge, i, j)
  }

  ghost predicate ElementAt<T>(out: seq<T>, file: seq<T>, cursor: nat, dims: seq<nat>, start: seq<int>, stride: seq<int>, edge: seq<nat>, i: nat, j: nat)
    requires |dims| == |start| == |stride| == |edge| == 2
  {
    && Place(edge, i, j) < |out|
    && 0 <= cursor + Address(dims, start, stride, i, j) < |file|
    && out[Place(edge, i, j)] == file[cursor + Address(dims, start, stride, i, j)]
  }

  lemma ColumnKept<T>(out: seq<T>, longer: seq<T>, file: seq<T>, cursor: nat, dims: seq<nat>, start: seq<int>, stride: seq<int>, edge: seq<nat>, i: nat)
    requires |dims| == |start| == |stride| == |edge| == 2
    requires out <= longer && Column(out, file, cursor, dims, start, stride, edge, i)
    ensures Column(longer, file, cursor, dims, start, stride, edge, i)
  {
    hide Place, Address;
    forall j | 0 <= j < edge[0]
      ensures ElementAt(longer, file, cursor, dims, start, stride, edge, i, j)
    {
      assert ElementAt(out, file, cursor, dims, start, stride, edge, i, j);
    }
  }

  /** One column, element by element. */
  method ReadColumn<T>(file: seq<T>, cursor: nat, pos: int, dims: seq<nat>, start: seq<int>, stride: seq<int>, edge: seq<nat>, i: nat, out: seq<T>)
      returns (out': seq<T>, pos': int)
    requires |dims| == |start| == |stride| == |edge| == 2 && InBounds(dims, start, stride, edge) && cursor + Prod(dims) <= |file|
    requires i < edge[1] && |out| == Place(edge, i, 0) && pos == cursor + (start[1] + stride[1] * i) * dims[0] + start[0]
    ensures pos' == pos + stride[0] * edge[0]
    ensures out <= out' && |out'| == |out| + edge[0]
    ensures Column(out', file, cursor, dims, start, stride, edge, i)
  {
    hide Prod, InBounds;
    out', pos' := out, pos;
    for j := 0 to edge[0]
      invariant pos' == pos + stride[0] * j
      invariant |out'| == |out| + j && out <= out'
      invariant forall k | 0 <= k < j :: ElementAt(out', file, cursor, dims, start, stride, edge, i, k)
    {
      AddressInside(dims, start, stride, edge, i, j);
      ghost var before := out';
      out' := out' + [file[pos']];
      pos' := pos' + 1 + (stride[0] - 1);
      NextStride(stride[0], j);
      forall k | 0 <= k < j + 1
        ensures ElementAt(out', file, cursor, dims, start, stride, edge, i, k)
      {
        if k < j {
          assert ElementAt(before, file, cursor, dims, start, stride, edge, i, k);
        }
      }
    }
  }

  lemma PlaceStep(edge: seq<nat>, i: nat)
    requires |edge| == 2
    ensures Place(edge, i + 1, 0) == Place(edge, i, 0) + edge[0] && Place(edge, 0, 0) == 0
    ensures Place(edge, edge[1], 0) == edge[0] * edge[1]
  {
  }

  lemma NextColumnAt(a: int, s: int, i: nat, d: nat)
    ensures (a + s * (i + 1)) * d == (a + s * i) * d + s * d
  {
  }

  /** ReadDataSlab2, with the elements of the file as units. When whole columns are read at once, this
      begins at the cursor, wherever the request starts. */
  method ReadDataSlab2<T>(file: seq<T>, cursor: nat, dims: seq<nat>, start: seq<int>, stride: seq<int>, edge: seq<nat>) returns (out: seq<T>)
    requires |dims| == |start| == |stride| == |edge| == 2
    requires 0 < edge[0] && 0 < edge[1] ==> InBounds(dims, start, stride, edge)
    requires cursor + Prod(dims) <= |file|
    ensures |out| == edge[0] * edge[1]
    ensures if AtOnce(dims, stride, edge) then cursor + |out| <= |file| && out == file[cursor..cursor + |out|]
            else forall i | 0 <= i < edge[1] :: Column(out, file, cursor, dims, start, stride, edge, i)
  {
    hide Prod, InBounds, Column, Place;
    NonNegative(edge[0], edge[1]);
    if AtOnce(dims, stride, edge) {
      WholeFits(file[cursor..], dims, start, stride, edge);
      return file[cursor..cursor + edge[0] * edge[1]];
    }
    if edge[0] == 0 || edge[1] == 0 {
      EmptyColumns<T>([], file, cursor, dims, start, stride, edge);
      return [];
    }
    out := [];
    var pos := cursor + start[1] * dims[0];
    PlaceStep(edge, 0);
    for i := 0 to edge[1]
      invariant pos == cursor + (start[1] + stride[1] * i) * dims[0]
      invariant |out| == Place(edge, i, 0)
      invariant forall k | 0 <= k < i :: Column(out, file, cursor, dims, start, stride, edge, k)
    {
      var columnStart := pos;
      pos := pos + start[0];
      ghost var before := out;
      out, pos := ReadColumn(file, cursor, pos, dims, start, stride, edge, i, out);
      Earlier(before, out, file, cursor, dims, start, stride, edge, i);
      pos := pos + (columnStart + stride[1] * dims[0] - pos);
      NextColumnAt(start[1], stride[1], i, dims[0]);
      PlaceStep(edge, i);
    }
    PlaceStep(edge, 0);
  }

  lemma EmptyColumns<T>(out: seq<T>, file: seq<T>, cursor: nat, dims: seq<nat>, start: seq<int>, stride: seq<int>, edge: seq<nat>)
    requires |dims| == |start| == |stride| == |edge| == 2 && (edge[0] == 0 || edge[1] == 0)
    ensures edge[0] * edge[1] == 0
    ensures forall i | 0 <= i < edge[1] :: Column(out, file, cursor, dims, start, stride, edge, i)
  {
  }

  lemma Earlier<T>(out: seq<T>, longer: seq<T>, file: seq<T>, cursor: nat, dims: seq<nat>, start: seq<int>, stride: seq<int>, edge: seq<nat>, n: nat)
    requires |dims| == |start| == |stride| == |edge| == 2
    requires out <= longer && forall k | 0 <= k < n :: Column(out, file, cursor, dims, start, stride, edge, k)
    ensures forall k | 0 <= k < n :: Column(longer, file, cursor, dims, start, stride, edge, k)
  {
    hide Column;
    forall k | 0 <= k < n
      ensures Column(longer, file, cursor, dims, start, stride, edge, k)
    {
      ColumnKept(out, longer, file, cursor, dims, start, stride, edge, k);
    }
  }

  /** The address from which element (i, j) of the result comes. */
  function ReadFrom(dims: seq<nat>, start: seq<int>, stride: seq<int>, edge: seq<nat>, i: nat, j: nat): int
    requires |dims| == |start| == |stride| == |edge| == 2
  {
    if AtOnce(dims, stride, edge) then Place(edge, i, j) else Address(dims, start, stride, i, j)
  }

  /** Everything comes from where the request says, but for whole columns that do not start with the
      first one. */
  lemma RightUnlessLaterColumns(dims: seq<nat>, start: seq<int>, stride: seq<int>, edge: seq<nat>)
    requires |dims| == |start| == |stride| == |edge| == 2 && InBounds(dims, start, stride, edge) && 0 < edge[0] && 0 < edge[1]
    ensures (forall i, j | 0 <= i < edge[1] && 0 <= j < edge[0] ::
               ReadFrom(dims, start, stride, edge, i, j) == Address(dims, start, stride, i, j))
       <==> !(AtOnce(dims, stride, edge) && start[1] != 0)
  {
    if AtOnce(dims, stride, edge) {
      assert start[0] == 0;
      forall i, j | 0 <= i < edge[1] && 0 <= j < edge[0]
        ensures Address(dims, start, stride, i, j) == ReadFrom(dims, start, stride, edge, i, j) + start[1] * dims[0]
      {
        Distance(start[1], i, dims[0]);
      }
      if start[1] != 0 {
        PositiveTimes(start[1], dims[0]);
        assert ReadFrom(dims, start, stride, edge, 0, 0) != Address(dims, start, stride, 0, 0);
      }
    }
  }

  /** The last two of three columns: the first two are read. */
  lemma LaterColumnsMiss()
    ensures var dims, start, stride, edge := [2, 3], [0, 1], [1, 1], [2, 2];
            && InBounds(dims, start, stride, edge)
            && Address(dims, start, stride, 0, 0) == 2
            && ReadFrom(dims, start, stride, edge, 0, 0) == 0
  {
  }

  lemma Distance(a: int, i: int, d: int)
    ensures (a + 1 * i) * d == i * d + a * d
  {
  }

  lemma WholeColumns<T>(stream: seq<T>, dims: seq<nat>, start: seq<int>, stride: seq<int>, edge: seq<nat>)
    requires |dims| == |start| == |stride| == |edge| == 2 && InBounds(dims, start, stride, edge) && Prod(dims) <= |stream| && 0 < edge[0] && 0 < edge[1]
    requires AtOnce(dims, stride, edge)
    ensures var pos := start[1] * dims[0];
            && 0 <= pos && pos + edge[0] * edge[1] <= |stream| && 0 <= edge[0] * edge[1]
            && var out := stream[pos..pos + edge[0] * edge[1]];
               forall i | 0 <= i < edge[1] :: Column(out, stream, 0, dims, start, stride, edge, i)
  {
    hide Prod, Column, ElementAt;
    var pos := start[1] * dims[0];
    assert start[0] == 0;
    NonNegative(start[1], dims[0]);
    NonNegative(edge[0], edge[1]);
    AddressInside(dims, start, stride, edge, edge[1] - 1, edge[0] - 1);
    Distance(start[1], edge[1] - 1, dims[0]);
    TimesLast(edge[1], dims[0]);
    var out := stream[pos..pos + edge[0] * edge[1]];
    forall i | 0 <= i < edge[1]
      ensures Column(out, stream, 0, dims, start, stride, edge, i)
    {
      WholeColumn(stream, dims, start, stride, edge, i, out);
    }
  }

  lemma WholeColumn<T>(stream: seq<T>, dims: seq<nat>, start: seq<int>, stride: seq<int>, edge: seq<nat>, i: nat, out: seq<T>)
    requires |dims| == |start| == |stride| == |edge| == 2 && InBounds(dims, start, stride, edge) && Prod(dims) <= |stream|
    requires AtOnce(dims, stride, edge) && start[0] == 0 && i < edge[1]
    requires var pos := start[1] * dims[0];
      && 0 <= pos && pos + edge[0] * edge[1] <= |stream| && 0 <= edge[0] * edge[1]
      && out == stream[pos..pos + edge[0] * edge[1]]
    ensures Column(out, stream, 0, dims, start, stride, edge, i)
  {
    hide Prod, InBounds;
    forall j | 0 <= j < edge[0]
      ensures ElementAt(out, stream, 0, dims, start, stride, edge, i, j)
    {
      PlaceInside(edge, i, j);
      AddressInside(dims, start, stride, edge, i, j);
      Distance(start[1], i, dims[0]);
    }
  }

  lemma WholeFits<T>(stream: seq<T>, dims: seq<nat>, start: seq<int>, stride: seq<int>, edge: seq<nat>)
    requires |dims| == |start| == |stride| == |edge| == 2 && AtOnce(dims, stride, edge) && Prod(dims) <= |stream|
    requires 0 < edge[0] && 0 < edge[1] ==> InBounds(dims, start, stride, edge)
    ensures edge[0] * edge[1] <= |stream|
  {
    hide Prod;
    if 0 < edge[0] && 0 < edge[1] {
      WholeColumns(stream, dims, start, stride, edge);
      NonNegative(start[1], dims[0]);
    } else {
      EmptyColumns<T>([], stream, 0, dims, start, stride, edge);
    }
  }

  lemma TimesLast(e: nat, d: nat)
    requires 0 < e
    ensures (e - 1) * d + d == d * e
  {
  }

  // ----- Compressed -----

  /** InflateSkipData: the stream goes forward, or not at all. */
  function Skipped(pos: nat, n: int): nat {
    if n < 1 then pos else pos + n
  }

  /** By how much the stream has gone on from one element of a column to the next. */
  function RowStep(stride: seq<int>): nat
    requires |stride| == 2
  {
    Skipped(1, stride[0] - 1)
  }

  /** And from the beginning of one column to that of the next. */
  function ColumnStep(dims: seq<nat>, start: seq<int>, stride: seq<int>, edge: seq<nat>): nat
    requires |dims| == |start| == |stride| == |edge| == 2 && 0 <= start[0] && 0 < edge[0]
  {
    NonNegative(edge[0] - 1, RowStep(stride));
    var behind: nat := start[0] + (edge[0] - 1) * RowStep(stride) + 1;
    Skipped(behind, BehindColumn(dims, start, stride, edge))
  }

  /** What is skipped behind the last element of a column. */
  function BehindColumn(dims: seq<nat>, start: seq<int>, stride: seq<int>, edge: seq<nat>): int
    requires |dims| == |start| == |stride| == |edge| == 2
  {
    dims[0] - (edge[0] - 1) * stride[0] - 1 - start[0] + (stride[1] - 1) * dims[0]
  }

  /** Where element (i, j) of the result is in the stream. */
  function Visited(dims: seq<nat>, start: seq<int>, stride: seq<int>, edge: seq<nat>, i: nat, j: nat): int
    requires |dims| == |start| == |stride| == |edge| == 2 && 0 <= start[0] && 0 < edge[0]
  {
    start[1] * dims[0] + i * ColumnStep(dims, start, stride, edge) + start[0] + j * RowStep(stride)
  }

  /** None: the stream has ended, and what the result has there is left as it was. */
  function At<T>(stream: seq<T>, pos: int): Option<T> {
    if 0 <= pos < |stream| then Some(stream[pos]) else None
  }

  /** Column `i` of the result. */
  ghost predicate ColumnRead<T>(out: seq<Option<T>>, stream: seq<T>, dims: seq<nat>, start: seq<int>, stride: seq<int>, edge: seq<nat>, i: nat)
    requires |dims| == |start| == |stride| == |edge| == 2 && 0 <= start[0] && 0 < edge[0]
  {
    forall j | 0 <= j < edge[0] ::
      Place(edge, i, j) < |out| && out[Place(edge, i, j)] == At(stream, Visited(dims, start, stride, edge, i, j))
  }

  function Taken<T>(stream: seq<T>, pos: int, n: nat): (r: seq<Option<T>>)
    ensures |r| == n && forall k | 0 <= k < n :: r[k] == At(stream, pos + k)
  {
    seq(n, k requires 0 <= k => At(stream, pos + k))
  }

  /** One column, element by element, with nothing passed over behind the last. */
  method InflateColumn<T>(stream: seq<T>, pos: nat, stride: seq<int>, edge: seq<nat>) returns (column: seq<Option<T>>, pos': nat)
    requires |stride| == |edge| == 2 && 0 < edge[0]
    ensures |column| == edge[0] && forall j | 0 <= j < edge[0] :: column[j] == At(stream, pos + j * RowStep(stride))
    ensures pos' == pos + (edge[0] - 1) * RowStep(stride) + 1
  {
    hide At;
    column, pos' := [], pos;
    for j := 0 to edge[0] - 1
      invariant pos' == pos + j * RowStep(stride)
      invariant |column| == j && forall k | 0 <= k < j :: column[k] == At(stream, pos + k * RowStep(stride))
    {
      column := column + [At(stream, pos')];
      pos' := Skipped(pos' + 1, stride[0] - 1);
      OneMoreStep(j, RowStep(stride));
    }
    column := column + [At(stream, pos')];
    pos' := pos' + 1;
  }

  lemma OneMoreStep(j: int, r: int)
    ensures (j + 1) * r == j * r + r
  {
  }

  /** ReadCompressedDataSlab2, on its three paths: what is in the stream where it goes. */
  method ReadCompressedDataSlab2<T>(stream: seq<T>, dims: seq<nat>, start: seq<int>, stride: seq<int>, edge: seq<nat>) returns (out: seq<Option<T>>)
    requires |dims| == |start| == |stride| == |edge| == 2 && InBounds(dims, start, stride, edge) && 0 < edge[0]
    ensures |out| == edge[0] * edge[1]
    ensures forall i | 0 <= i < edge[1] :: ColumnRead(out, stream, dims, start, stride, edge, i)
  {
    hide Prod, ColumnRead, ColumnStep, RowStep;
    var pos: nat := 0;
    NonNegative(start[1], dims[0]);
    pos := Skipped(pos, start[1] * dims[0]);
    NonNegative(edge[0], edge[1]);
    PlaceStep(edge, 0);
    if AtOnce(dims, stride, edge) {
      out := Taken(stream, pos, edge[0] * edge[1]);
      AllAtOnce(stream, dims, start, stride, edge, out);
      return;
    }
    out := [];
    for i := 0 to edge[1]
      invariant pos == start[1] * dims[0] + i * ColumnStep(dims, start, stride, edge)
      invariant |out| == Place(edge, i, 0)
      invariant forall k | 0 <= k < i :: ColumnRead(out, stream, dims, start, stride, edge, k)
    {
      ghost var from_ := pos;
      var column;
      pos := Skipped(pos, start[0]);
      if stride[0] == 1 {
        column := Taken(stream, pos, edge[0]);
        pos := pos + edge[0];
      } else {
        column, pos := InflateColumn(stream, pos, stride, edge);
      }
      Consecutive(stride, edge);
      AddColumn(out, column, stream, dims, start, stride, edge, i);
      out := out + column;
      pos := Skipped(pos, BehindColumn(dims, start, stride, edge));
      StepOf(dims, start, stride, edge, from_);
      OneMoreStep(i, ColumnStep(dims, start, stride, edge));
      PlaceStep(edge, i);
    }
    PlaceStep(edge, 0);
  }

  lemma Consecutive(stride: seq<int>, edge: seq<nat>)
    requires |stride| == |edge| == 2
    ensures stride[0] == 1 ==> RowStep(stride) == 1 && (edge[0] - 1) * RowStep(stride) + 1 == edge[0]
  {
  }

  lemma StepOf(dims: seq<nat>, start: seq<int>, stride: seq<int>, edge: seq<nat>, pos: nat)
    requires |dims| == |start| == |stride| == |edge| == 2 && 0 <= start[0] && 0 < edge[0]
    ensures 0 <= (edge[0] - 1) * RowStep(stride)
    ensures Skipped(Skipped(pos, start[0]) + (edge[0] - 1) * RowStep(stride) + 1, BehindColumn(dims, start, stride, edge))
         == pos + ColumnStep(dims, start, stride, edge)
  {
    hide RowStep, BehindColumn;
    NonNegative(edge[0] - 1, RowStep(stride));
  }

  lemma AddColumn<T>(out: seq<Option<T>>, column: seq<Option<T>>, stream: seq<T>, dims: seq<nat>, start: seq<int>, stride: seq<int>, edge: seq<nat>, i: nat)
    requires |dims| == |start| == |stride| == |edge| == 2 && 0 <= start[0] && 0 < edge[0]
    requires |out| == Place(edge, i, 0) && |column| == edge[0]
    requires forall j | 0 <= j < edge[0] ::
      column[j] == At(stream, start[1] * dims[0] + i * ColumnStep(dims, start, stride, edge) + start[0] + j * RowStep(stride))
    requires forall k | 0 <= k < i :: ColumnRead(out, stream, dims, start, stride, edge, k)
    ensures forall k | 0 <= k < i + 1 :: ColumnRead(out + column, stream, dims, start, stride, edge, k)
  {
    hide ColumnStep, RowStep, At;
    forall k | 0 <= k < i + 1
      ensures ColumnRead(out + column, stream, dims, start, stride, edge, k)
    {
      if k < i {
        assert ColumnRead(out, stream, dims, start, stride, edge, k);
      } else {
        forall j | 0 <= j < edge[0]
          ensures Place(edge, i, j) < |out + column|
          ensures (out + column)[Place(edge, i, j)] == At(stream, Visited(dims, start, stride, edge, i, j))
        {
          assert (out + column)[|out| + j] == column[j];
        }
      }
    }
  }

  lemma AllAtOnce<T>(stream: seq<T>, dims: seq<nat>, start: seq<int>, stride: seq<int>, edge: seq<nat>, out: seq<Option<T>>)
    requires |dims| == |start| == |stride| == |edge| == 2 && InBounds(dims, start, stride, edge) && 0 < edge[0]
    requires AtOnce(dims, stride, edge) && 0 <= edge[0] * edge[1] && out == Taken(stream, start[1] * dims[0], edge[0] * edge[1])
    ensures forall i | 0 <= i < edge[1] :: ColumnRead(out, stream, dims, start, stride, edge, i)
  {
    hide At;
    assert start[0] == 0 && RowStep(stride) == 1;
    assert ColumnStep(dims, start, stride, edge) == edge[0];
    forall i | 0 <= i < edge[1]
      ensures ColumnRead(out, stream, dims, start, stride, edge, i)
    {
      forall j | 0 <= j < edge[0]
        ensures Place(edge, i, j) < |out|
        ensures out[Place(edge, i, j)] == At(stream, Visited(dims, start, stride, edge, i, j))
      {
        PlaceInside(edge, i, j);
      }
    }
  }

  /** Every element comes from its address, if and only if neither stride that is needed is below 1. */
  lemma CompressedRightIff(dims: seq<nat>, start: seq<int>, stride: seq<int>, edge: seq<nat>)
    requires |dims| == |start| == |stride| == |edge| == 2 && InBounds(dims, start, stride, edge) && 0 < edge[0] && 0 < edge[1]
    ensures (forall i, j | 0 <= i < edge[1] && 0 <= j < edge[0] ::
               Visited(dims, start, stride, edge, i, j) == Address(dims, start, stride, i, j))
       <==> (edge[0] == 1 || stride[0] >= 1) && (edge[1] == 1 || stride[1] >= 1)
  {
    if edge[0] > 1 && stride[0] < 1 {
      RowAhead(dims, start, stride, edge);
    } else if edge[1] > 1 && stride[1] < 1 {
      ColumnAhead(dims, start, stride, edge);
    } else {
      forall i, j | 0 <= i < edge[1] && 0 <= j < edge[0]
        ensures Visited(dims, start, stride, edge, i, j) == Address(dims, start, stride, i, j)
      {
        RightAddress(dims, start, stride, edge, i, j);
      }
    }
  }

  lemma RowAhead(dims: seq<nat>, start: seq<int>, stride: seq<int>, edge: seq<nat>)
    requires |dims| == |start| == |stride| == |edge| == 2 && 0 <= start[0] && 1 < edge[0] && stride[0] < 1
    ensures Visited(dims, start, stride, edge, 0, 1) != Address(dims, start, stride, 0, 1)
  {
    hide ColumnStep;
    assert RowStep(stride) == 1;
  }

  lemma ColumnAhead(dims: seq<nat>, start: seq<int>, stride: seq<int>, edge: seq<nat>)
    requires |dims| == |start| == |stride| == |edge| == 2 && 0 <= start[0] && 0 < edge[0] && stride[1] < 1
    ensures Visited(dims, start, stride, edge, 1, 0) != Address(dims, start, stride, 1, 0)
  {
    hide RowStep, BehindColumn;
    NonNegative(edge[0] - 1, RowStep(stride));
    assert ColumnStep(dims, start, stride, edge) >= 1;
    NonNegative(-stride[1], dims[0]);
    Negated(start[1], stride[1], dims[0]);
  }

  lemma Negated(a: int, s: int, d: int)
    ensures (a + s * 1) * d == a * d - (-s) * d
  {
  }

  lemma RightAddress(dims: seq<nat>, start: seq<int>, stride: seq<int>, edge: seq<nat>, i: nat, j: nat)
    requires |dims| == |start| == |stride| == |edge| == 2 && InBounds(dims, start, stride, edge)
    requires (edge[0] == 1 || stride[0] >= 1) && (edge[1] == 1 || stride[1] >= 1)
    requires i < edge[1] && j < edge[0]
    ensures Visited(dims, start, stride, edge, i, j) == Address(dims, start, stride, i, j)
  {
    hide ColumnStep;
    assert j * RowStep(stride) == stride[0] * j;
    if i > 0 {
      ColumnStepIs(dims, start, stride, edge);
    }
    Unfolded(start[1], stride[1], i, dims[0]);
  }

  lemma Unfolded(a: int, s: int, i: int, d: int)
    ensures (a + s * i) * d == a * d + i * (s * d)
  {
  }

  lemma ColumnStepIs(dims: seq<nat>, start: seq<int>, stride: seq<int>, edge: seq<nat>)
    requires |dims| == |start| == |stride| == |edge| == 2 && InBounds(dims, start, stride, edge)
    requires (edge[0] == 1 || stride[0] >= 1) && stride[1] >= 1 && 0 < edge[0]
    ensures ColumnStep(dims, start, stride, edge) == stride[1] * dims[0]
  {
    assert (edge[0] - 1) * RowStep(stride) == (edge[0] - 1) * stride[0];
    NonNegative(edge[0] - 1, RowStep(stride));
    NonNegative(stride[1] - 1, dims[0]);
    Last(stride[0], edge[0], stride[1], dims[0]);
  }

  lemma Last(s: int, e: nat, t: int, d: nat)
    ensures (e - 1) * s == s * (e - 1) && (t - 1) * d == t * d - d
  {
  }

  /** A request that goes backwards gets the element behind the first one instead of that before it. */
  lemma BackwardsMisses()
    ensures var dims, start, stride, edge := [3, 1], [1, 0], [-1, 1], [2, 1];
            && InBounds(dims, start, stride, edge)
            && Address(dims, start, stride, 0, 1) == 0
            && Visited(dims, start, stride, edge, 0, 1) == 2
  {
    hide ColumnStep;
  }
}
