/** Reading a slab of an N-dimensional array straight from a file: the file cursor goes along with the
    index of the walk, as far as it can. A seek to before the beginning of the file fails, and nobody
    asks whether it did. */
module SlabFile {
  import opened Common
  import opened Subscripts
  import opened CellIndex
  import opened Slab
  import opened SlabRank4

  // ----- The cursor -----

  /** Seeking from where the cursor is. In units of elements: the cursor is the number of whole
      elements before it. */
  function Sought(pos: nat, n: int): nat {
    if pos + n < 0 then pos else pos + n
  }

  /** Row `k` of a column whose first row is at `pos`. */
  function RowAt(pos: nat, stride: int, k: nat): nat {
    if k == 0 then pos else Sought(RowAt(pos, stride, k - 1) + 1, stride - 1)
  }

  /** The cursor behind a column. */
  function ColumnPassed(pos: nat, dim: nat, start: int, stride: int, edge: nat): nat {
    Sought(RowAt(Sought(pos, start), stride, edge), dim - edge * stride - start)
  }

  /** The cursor after the rank loop. */
  function RankSeek(n: nat, start: seq<int>, edge: seq<nat>, dimp: seq<nat>, inc: seq<int>, cnt: seq<int>, I: int, pos: nat, j: nat): nat
    requires n <= |start| && n <= |edge| && n <= |dimp| && n <= |inc| && n <= |cnt| && 1 <= j
    requires forall k | 0 <= k < n :: 0 < edge[k] && 0 < dimp[k]
    decreases n - j
  {
    if j >= n then pos
    else if (cnt[j] + 1) % edge[j] != 0 then Sought(pos, inc[j])
    else
      var I' := UpTo(I, dimp[j]) + dimp[j - 1] * start[j];
      RankSeek(n, start, edge, dimp, inc, cnt[j := 0], I', Sought(pos, I' - I), j + 1)
  }

  /** The cursor at the beginning of column `m`, in an array that begins at `cursor`. */
  function ColumnAt(cursor: nat, dims: seq<nat>, start: seq<int>, stride: seq<int>, edge: seq<nat>, m: nat): nat
    requires Nonempty(dims, start, stride, edge)
  {
    if m == 0 then Sought(cursor, Offset(dims, start, |dims|))
    else
      var (cnt, I) := Walk(dims, start, stride, edge, m - 1);
      var pos := ColumnPassed(ColumnAt(cursor, dims, start, stride, edge, m - 1), dims[0], start[0], stride[0], edge[0]);
      RankSeek(|dims|, start, edge, Blocks(dims), Steps(dims, stride), cnt, I + dims[0], pos, 1)
  }

  /** The place in the file that element `p` of the result is read from. */
  function PlaceRead(cursor: nat, dims: seq<nat>, start: seq<int>, stride: seq<int>, edge: seq<nat>, p: nat): nat
    requires Nonempty(dims, start, stride, edge)
  {
    RowAt(Sought(ColumnAt(cursor, dims, start, stride, edge, p / edge[0]), start[0]), stride[0], p % edge[0])
  }

  function Places(cursor: nat, dims: seq<nat>, start: seq<int>, stride: seq<int>, edge: seq<nat>): seq<int>
    requires Nonempty(dims, start, stride, edge)
  {
    seq(Prod(edge), p requires 0 <= p => PlaceRead(cursor, dims, start, stride, edge, p))
  }

  // ----- Reading -----

  /** Rows one by one. */
  method ReadRows<T>(file: seq<T>, pos: nat, I: int, stride: int, edge: nat) returns (column: seq<T>, pos': nat, I': int)
    requires forall k: nat | k < edge :: RowAt(pos, stride, k) < |file|
    ensures |column| == edge && forall k: nat | k < edge :: column[k] == file[RowAt(pos, stride, k)]
    ensures pos' == RowAt(pos, stride, edge) && I' == I + edge * stride
  {
    hide RowAt, Sought;
    column, pos', I' := [], pos, I;
    RowStep(pos, stride, 0);
    for j := 0 to edge
      invariant |column| == j && pos' == RowAt(pos, stride, j) && I' == I + j * stride
      invariant forall k: nat | k < j :: column[k] == file[RowAt(pos, stride, k)]
    {
      column := column + [file[pos']];
      pos' := pos' + 1;
      pos' := Sought(pos', stride - 1);
      RowStep(pos, stride, j);
      OneMore(j, stride);
      I' := I' + stride;
    }
  }

  /** One column: in one piece when its rows are consecutive, otherwise element by element. */
  method ReadColumn<T>(file: seq<T>, pos: nat, I: int, dim: nat, start: int, stride: int, edge: nat)
      returns (column: seq<T>, pos': nat, I': int)
    requires 0 < edge && forall k: nat | k < edge :: RowAt(Sought(pos, start), stride, k) < |file|
    ensures |column| == edge && forall k: nat | k < edge :: column[k] == file[RowAt(Sought(pos, start), stride, k)]
    ensures pos' == ColumnPassed(pos, dim, start, stride, edge) && I' == I + dim
  {
    pos', I' := pos, I;
    if start != 0 {
      pos' := Sought(pos', start);
      I' := I' + start;
    }
    ghost var first := pos';
    assert first == Sought(pos, start);
    hide Sought, RowAt;
    if stride == 1 {
      Consecutive(first);
      assert RowAt(first, 1, edge - 1) < |file|;
      column := file[pos'..pos' + edge];
      pos' := pos' + edge;
      I' := I' + dim - start;
      pos' := Sought(pos', dim - edge - start);
    } else {
      column, pos', I' := ReadRows(file, pos', I', stride, edge);
      I' := I' + (dim - edge * stride - start);
      pos' := Sought(pos', dim - edge * stride - start);
    }
  }

  lemma RowStep(pos: nat, stride: int, k: nat)
    ensures RowAt(pos, stride, 0) == pos
    ensures RowAt(pos, stride, k + 1) == Sought(RowAt(pos, stride, k) + 1, stride - 1)
  {
  }

  lemma Consecutive(pos: nat)
    ensures forall k: nat :: RowAt(pos, 1, k) == pos + k
  {
    forall k: nat
      ensures RowAt(pos, 1, k) == pos + k
    {
      RowIs(pos, 1, k);
    }
  }

  /** The rank loop, with the file cursor moving along. */
  method SeekColumn(n: nat, start: seq<int>, edge: seq<nat>, dimp: seq<nat>, inc: seq<int>, cnt: seq<int>, I: int, pos: nat)
      returns (cnt': seq<int>, I': int, pos': nat)
    requires n <= |start| && n <= |edge| && n <= |dimp| && n <= |inc| && n <= |cnt|
    requires forall k | 0 <= k < n :: 0 < edge[k] && 0 < dimp[k]
    ensures (cnt', I') == RankLoop(n, start, edge, dimp, inc, cnt, I, 1)
    ensures pos' == RankSeek(n, start, edge, dimp, inc, cnt, I, pos, 1)
  {
    cnt', I', pos' := cnt, I, pos;
    var j := 1;
    while j < n
      invariant 1 <= j && |cnt'| == |cnt|
      invariant RankLoop(n, start, edge, dimp, inc, cnt', I', j) == RankLoop(n, start, edge, dimp, inc, cnt, I, 1)
      invariant RankSeek(n, start, edge, dimp, inc, cnt', I', pos', j) == RankSeek(n, start, edge, dimp, inc, cnt, I, pos, 1)
    {
      var upward := cnt'[j] + 1;
      if upward % edge[j] == 0 {
        cnt' := cnt'[j := 0];
        if I' % dimp[j] != 0 {
          pos' := Sought(pos', dimp[j] - I' % dimp[j] + dimp[j - 1] * start[j]);
          I' := I' + (dimp[j] - I' % dimp[j] + dimp[j - 1] * start[j]);
        } else if start[j] != 0 {
          pos' := Sought(pos', dimp[j - 1] * start[j]);
          I' := I' + dimp[j - 1] * start[j];
        }
      } else {
        cnt' := cnt'[j := upward];
        I' := I' + inc[j];
        pos' := Sought(pos', inc[j]);
        return;
      }
      j := j + 1;
    }
  }

  /** ReadDataSlabN, with the file cursor at the first element of the array. None: the rank is more
      than 10. */
  method ReadDataSlabN<T>(file: seq<T>, cursor: nat, dims: seq<nat>, start: seq<int>, stride: seq<int>, edge: seq<nat>)
      returns (r: Option<seq<T>>)
    requires 1 <= |dims| == |start| == |stride| == |edge|
    requires 0 < Prod(edge) ==> InBounds(dims, start, stride, edge)
    requires Nonempty(dims, start, stride, edge) ==>
      forall i | 0 <= i < Prod(edge) :: Places(cursor, dims, start, stride, edge)[i] < |file|
    ensures r.None? <==> |dims| > 10
    ensures r.Some? ==> |r.value| == Prod(edge)
    ensures r.Some? && Nonempty(dims, start, stride, edge) ==>
      forall i | 0 <= i < Prod(edge) ::
        0 <= Places(cursor, dims, start, stride, edge)[i] && r.value[i] == file[Places(cursor, dims, start, stride, edge)[i]]
  {
    hide Linear, Prod, Block, Offset, RankLoop, RankSeek, PlaceRead, RowAt, Sought, InBounds;
    var n := |dims|;
    if n > 10 {
      return None;
    }
    var inc, dimp, N, I := Setup(dims, start, stride, edge);
    if N == 0 {
      NoEdge(dims, start, stride, edge);
      return Some([]);
    }
    Asked(dims, start, stride, edge);
    ProdFront(edge);
    ghost var at := Places(cursor, dims, start, stride, edge);
    var cnt: seq<int> := seq(n, _ => 0);
    var pos := Sought(cursor, I);
    var out: seq<T> := [];
    var i := 0;
    ghost var m := 0;
    while i < N
      invariant 0 <= i == |out| == m * edge[0] && i <= N
      invariant (cnt, I) == Walk(dims, start, stride, edge, m) && pos == ColumnAt(cursor, dims, start, stride, edge, m)
      invariant forall p | 0 <= p < i :: 0 <= at[p] && out[p] == file[at[p]]
      decreases N - i
    {
      WholeColumn(m, edge[0], Prod(edge[1..]));
      forall k: nat | k < edge[0]
        ensures at[i + k] == RowAt(Sought(pos, start[0]), stride[0], k) < |file|
      {
        PlaceOf(cursor, dims, start, stride, edge, m, k);
        assert at[i + k] == PlaceRead(cursor, dims, start, stride, edge, i + k);
      }
      var column;
      column, pos, I := ReadColumn(file, pos, I, dims[0], start[0], stride[0], edge[0]);
      forall p | 0 <= p < i + edge[0]
        ensures 0 <= at[p] && (out + column)[p] == file[at[p]]
      {
        if p >= i {
          assert (out + column)[p] == column[p - i];
          assert at[i + (p - i)] == at[p];
        }
      }
      out := out + column;
      cnt, I, pos := SeekColumn(n, start, edge, dimp, inc, cnt, I, pos);
      i := i + edge[0];
      m := m + 1;
    }
    return Some(out);
  }

  lemma PlaceOf(cursor: nat, dims: seq<nat>, start: seq<int>, stride: seq<int>, edge: seq<nat>, m: nat, k: nat)
    requires Nonempty(dims, start, stride, edge) && k < edge[0]
    ensures 0 <= m * edge[0]
    ensures PlaceRead(cursor, dims, start, stride, edge, m * edge[0] + k)
            == RowAt(Sought(ColumnAt(cursor, dims, start, stride, edge, m), start[0]), stride[0], k)
  {
    hide ColumnAt, RowAt, Sought;
    ColumnAndRow(m, edge[0], k);
  }

  // ----- Where seeks fail -----

  /** Rows are where they should be as long as no seek goes too far back. */
  lemma {:induction false} RowIs(pos: nat, stride: int, k: nat)
    requires 0 <= pos + k * stride
    ensures RowAt(pos, stride, k) == pos + k * stride
  {
    if k > 0 {
      OneMore(k - 1, stride);
      if stride >= 0 {
        NonNegative(k - 1, stride);
      }
      RowIs(pos, stride, k - 1);
    }
  }

  /** Behind a column the cursor is `dim` further, unless the skip behind the last row is lost. */
  lemma ColumnPassedIs(pos: nat, dim: nat, start: int, stride: int, edge: nat)
    requires 0 <= start < dim && 0 < edge && 0 <= pos + start + (edge - 1) * stride
    ensures ColumnPassed(pos, dim, start, stride, edge)
            == pos + dim + if pos + start + edge * stride < 0 then 1 - stride else 0
  {
    var first := pos + start;
    OneMore(edge - 1, stride);
    RowIs(first, stride, edge - 1);
    if first + edge * stride >= 0 {
      RowIs(first, stride, edge);
    }
  }

  /** The rank loop takes the cursor as far as the index, unless that is before the beginning of the
      file. */
  lemma {:induction false} RankSeekIs(n: nat, start: seq<int>, edge: seq<nat>, dimp: seq<nat>, inc: seq<int>, cnt: seq<int>, I: int, pos: nat, j: nat)
    requires n <= |start| && n <= |edge| && n <= |dimp| && n <= |inc| && n <= |cnt| && 1 <= j
    requires forall k | 0 <= k < n :: 0 < edge[k] && 0 < dimp[k] && 0 <= start[k]
    ensures var I' := RankLoop(n, start, edge, dimp, inc, cnt, I, j).1;
            0 <= pos + (I' - I) ==> RankSeek(n, start, edge, dimp, inc, cnt, I, pos, j) == pos + (I' - I)
    decreases n - j
  {
    hide UpTo;
    if j < n && (cnt[j] + 1) % edge[j] == 0 {
      Upward(I, dimp[j], dimp[j - 1], start[j]);
      var I' := UpTo(I, dimp[j]) + dimp[j - 1] * start[j];
      RankSeekIs(n, start, edge, dimp, inc, cnt[j := 0], I', Sought(pos, I' - I), j + 1);
    }
  }

  lemma Upward(I: int, d: nat, p: nat, s: int)
    requires 0 < d && 0 <= s
    ensures I + p * s <= UpTo(I, d) + p * s && 0 <= p * s
  {
    NonNegative(p, s);
  }

  /** The starts of the dimensions that carry are counted in full. */
  predicate Placed(dims: seq<nat>, start: seq<int>)
    requires |dims| == |start|
  {
    forall j | 1 <= j < |dims| - 1 :: Blocks(dims)[j - 1] == Prod(dims[..j]) || start[j] == 0
  }

  lemma PlacedUpToRank4(dims: seq<nat>, start: seq<int>)
    requires |dims| == |start| && (|dims| <= 4 || Straight(dims, start))
    ensures Placed(dims, start)
  {
    hide Block, Prod;
    forall j | 1 <= j < |dims| - 1
      ensures Blocks(dims)[j - 1] == Prod(dims[..j])
    {
      BlockIs(dims, start, j - 1);
    }
  }

  /** If the last seek of the rank loop fails, the cursor is behind where the next column begins. */
  lemma {:induction false} LostInRankLoop(cursor: nat, dims: seq<nat>, start: seq<int>, stride: seq<int>, edge: seq<nat>, cnt: seq<int>, I: int, pos: nat, c: seq<int>, j: nat, target: int)
      returns (c': seq<int>)
    requires Nonempty(dims, start, stride, edge) && InBounds(dims, start, stride, edge) && Placed(dims, start)
    requires Counting(edge, cnt, c, j, target) && target < Prod(edge)
    requires cursor + Linear(dims, Origin(start, stride, c)) < pos
    ensures InRange(edge, c') && Linear(edge, c') == target
    ensures var I' := RankLoop(|dims|, start, edge, Blocks(dims), Steps(dims, stride), cnt, I, j).1;
            pos + (I' - I) < 0 ==>
              cursor + Linear(dims, Origin(start, stride, c'))
              < RankSeek(|dims|, start, edge, Blocks(dims), Steps(dims, stride), cnt, I, pos, j)
    decreases |dims| - j
  {
    hide Linear, Prod, UpTo, Origin, Block, Placed, InBounds;
    if j == |dims| {
      AllZero(edge, c, target);
      assert false;
    } else {
      AtEdge(cnt[j], edge[j]);
      if c[j] + 1 < edge[j] {
        MoveCount(edge, cnt, c, j, target);
        c' := c[j := c[j] + 1];
        StepBack(dims, start, stride, c, j);
      } else if j < |dims| - 1 {
        CarryCount(edge, cnt, c, j, target);
        var I' := UpTo(I, Blocks(dims)[j]) + Blocks(dims)[j - 1] * start[j];
        CarryBack(dims, start, stride, edge, I, c, j);
        c' := LostInRankLoop(cursor, dims, start, stride, edge, cnt[j := 0], I', Sought(pos, I' - I), c[j := 0], j + 1, target);
      } else {
        LastCount(edge, cnt, c, j, target);
        assert false;
      }
    }
  }

  lemma StepBack(dims: seq<nat>, start: seq<int>, stride: seq<int>, c: seq<int>, j: nat)
    requires 1 <= j < |dims| == |start| == |stride| == |c|
    ensures Steps(dims, stride)[j] < 0 ==>
      Linear(dims, Origin(start, stride, c[j := c[j] + 1])) <= Linear(dims, Origin(start, stride, c))
  {
    hide Linear, Prod;
    var s := Origin(start, stride, c);
    NextStride(stride[j], c[j]);
    assert Origin(start, stride, c[j := c[j] + 1]) == s[j := s[j] + stride[j]];
    LinearUpdate(dims, s, j, s[j] + stride[j]);
    NotUpward(stride[j], Prod(dims[..j]));
  }

  lemma NotUpward(s: int, p: nat)
    ensures (s - 1) * p < 0 ==> s * p <= 0
  {
    if s >= 1 {
      NonNegative(s - 1, p);
    } else {
      NonNegative(-s, p);
      Negated(s, p);
    }
  }

  lemma Negated(s: int, p: int)
    ensures (-s) * p == -(s * p)
  {
  }

  lemma CarryBack(dims: seq<nat>, start: seq<int>, stride: seq<int>, edge: seq<nat>, I: int, c: seq<int>, j: nat)
    requires Nonempty(dims, start, stride, edge) && InBounds(dims, start, stride, edge) && Placed(dims, start)
    requires InRange(edge, c) && 1 <= j < |dims| - 1
    ensures var I' := UpTo(I, Blocks(dims)[j]) + Blocks(dims)[j - 1] * start[j];
            I <= I' && Linear(dims, Origin(start, stride, c[j := 0])) <= Linear(dims, Origin(start, stride, c)) + (I' - I)
  {
    hide Linear, Prod, Block, UpTo, InBounds, Origin, Picked;
    var s := Origin(start, stride, c);
    BackToStart(start, stride, c, j);
    LinearUpdate(dims, s, j, start[j]);
    NotBelow(dims, start, stride, edge, c, j);
    FullStart(I, Blocks(dims)[j], Blocks(dims)[j - 1], Prod(dims[..j]), start[j], s[j]);
  }

  lemma BackToStart(start: seq<int>, stride: seq<int>, c: seq<int>, j: nat)
    requires 1 <= j < |start| == |stride| == |c|
    ensures Origin(start, stride, c[j := 0]) == Origin(start, stride, c)[j := start[j]]
  {
  }

  lemma NotBelow(dims: seq<nat>, start: seq<int>, stride: seq<int>, edge: seq<nat>, c: seq<int>, j: nat)
    requires InBounds(dims, start, stride, edge) && InRange(edge, c) && 1 <= j < |dims|
    ensures 0 <= Origin(start, stride, c)[j] && 0 <= start[j]
  {
    hide Picked;
    PickedInRange(dims, start, stride, edge, c);
  }

  lemma FullStart(I: int, d: nat, size: nat, p: nat, first: nat, x: nat)
    requires 0 < d && (size == p || first == 0)
    ensures I <= UpTo(I, d) + size * first && (first - x) * p <= UpTo(I, d) + size * first - I
  {
    Upward(I, d, size, first);
    Distribute(first, x, p);
    NonNegative(x, p);
    Same(first, p);
  }

  // ----- What is lost -----

  /** The skip behind the last row of column `m` goes to before the beginning of the file. */
  predicate Lost(cursor: nat, dims: seq<nat>, start: seq<int>, stride: seq<int>, edge: seq<nat>, m: nat)
    requires Nonempty(dims, start, stride, edge)
  {
    cursor + Begin(dims, start, stride, edge, m) + start[0] + edge[0] * stride[0] < 0
  }

  function LostBefore(cursor: nat, dims: seq<nat>, start: seq<int>, stride: seq<int>, edge: seq<nat>, m: nat): nat
    requires Nonempty(dims, start, stride, edge)
  {
    if m == 0 then 0
    else LostBefore(cursor, dims, start, stride, edge, m - 1) + if Lost(cursor, dims, start, stride, edge, m - 1) then 1 else 0
  }

  /** How far the cursor is ahead of the index: a lost skip leaves it behind the row just read. */
  function Ahead(cursor: nat, dims: seq<nat>, start: seq<int>, stride: seq<int>, edge: seq<nat>, m: nat): int
    requires Nonempty(dims, start, stride, edge)
  {
    LostBefore(cursor, dims, start, stride, edge, m) * (1 - stride[0])
  }

  /** The index of column `m` is wrong by just as much as the cursor is ahead. */
  predicate MadeUp(cursor: nat, dims: seq<nat>, start: seq<int>, stride: seq<int>, edge: seq<nat>, m: nat)
    requires Nonempty(dims, start, stride, edge)
  {
    Walk(dims, start, stride, edge, m).1 + Ahead(cursor, dims, start, stride, edge, m) == Begin(dims, start, stride, edge, m)
  }

  predicate ColumnPlaced(cursor: nat, dims: seq<nat>, start: seq<int>, stride: seq<int>, edge: seq<nat>, m: nat)
    requires Nonempty(dims, start, stride, edge)
  {
    ColumnAt(cursor, dims, start, stride, edge, m) == cursor + Begin(dims, start, stride, edge, m)
  }

  lemma BeginInArray(dims: seq<nat>, start: seq<int>, stride: seq<int>, edge: seq<nat>, m: nat)
    requires Nonempty(dims, start, stride, edge) && InBounds(dims, start, stride, edge) && m * edge[0] < Prod(edge)
    ensures 0 <= start[0] < dims[0] && forall k | 0 <= k < |start| :: 0 <= start[k]
    ensures 0 <= Begin(dims, start, stride, edge, m)
    ensures forall k: nat | k < edge[0] :: 0 <= Begin(dims, start, stride, edge, m) + start[0] + k * stride[0]
  {
    hide Linear, Prod, Column;
    ColumnIs(edge, m);
    var c := Column(edge, m);
    var s := Origin(start, stride, c);
    PickedInRange(dims, start, stride, edge, c);
    LinearBound(dims, s);
    forall k: nat | k < edge[0]
      ensures 0 <= Begin(dims, start, stride, edge, m) + start[0] + k * stride[0]
    {
      ColumnRow(dims, start, stride, edge, c, k);
    }
  }

  /** From column to column: where the cursor is right and the index as far behind as it should be,
      the cursor is right again if the index is, and otherwise wrong. */
  lemma NextPlaced(cursor: nat, dims: seq<nat>, start: seq<int>, stride: seq<int>, edge: seq<nat>, m: nat)
    requires Nonempty(dims, start, stride, edge) && InBounds(dims, start, stride, edge) && (m + 1) * edge[0] < Prod(edge)
    requires ColumnPlaced(cursor, dims, start, stride, edge, m) && MadeUp(cursor, dims, start, stride, edge, m)
    ensures MadeUp(cursor, dims, start, stride, edge, m + 1) ==> ColumnPlaced(cursor, dims, start, stride, edge, m + 1)
    ensures Placed(dims, start) && ColumnPlaced(cursor, dims, start, stride, edge, m + 1) ==> MadeUp(cursor, dims, start, stride, edge, m + 1)
  {
    hide Linear, Prod, Column, RankLoop, RankSeek, ColumnPassed, Sought, Placed, InBounds, Begin, Ahead;
    OneMore(m, edge[0]);
    BeginInArray(dims, start, stride, edge, m);
    BeginInArray(dims, start, stride, edge, m + 1);
    var (cnt, I) := Walk(dims, start, stride, edge, m);
    var pos := ColumnPassed(ColumnAt(cursor, dims, start, stride, edge, m), dims[0], start[0], stride[0], edge[0]);
    BehindColumn(cursor, dims, start, stride, edge, m);
    RankSeekIs(|dims|, start, edge, Blocks(dims), Steps(dims, stride), cnt, I + dims[0], pos, 1);
    if Placed(dims, start) {
      BehindNext(cursor, dims, start, stride, edge, m, pos);
    }
  }

  lemma BehindColumn(cursor: nat, dims: seq<nat>, start: seq<int>, stride: seq<int>, edge: seq<nat>, m: nat)
    requires Nonempty(dims, start, stride, edge) && InBounds(dims, start, stride, edge) && m * edge[0] < Prod(edge)
    requires ColumnPlaced(cursor, dims, start, stride, edge, m) && MadeUp(cursor, dims, start, stride, edge, m)
    ensures var pos := ColumnPassed(ColumnAt(cursor, dims, start, stride, edge, m), dims[0], start[0], stride[0], edge[0]);
            && pos == cursor + Walk(dims, start, stride, edge, m).1 + dims[0] + Ahead(cursor, dims, start, stride, edge, m + 1)
            && cursor + Begin(dims, start, stride, edge, m) < pos
  {
    hide Prod, Walk, ColumnAt, ColumnPassed, InBounds, Begin, Ahead;
    BeginInArray(dims, start, stride, edge, m);
    OneMore(edge[0] - 1, stride[0]);
    assert 0 <= Begin(dims, start, stride, edge, m) + start[0] + (edge[0] - 1) * stride[0];
    ColumnPassedIs(ColumnAt(cursor, dims, start, stride, edge, m), dims[0], start[0], stride[0], edge[0]);
    OneLost(cursor, dims, start, stride, edge, m);
  }

  lemma OneLost(cursor: nat, dims: seq<nat>, start: seq<int>, stride: seq<int>, edge: seq<nat>, m: nat)
    requires Nonempty(dims, start, stride, edge)
    ensures Ahead(cursor, dims, start, stride, edge, m + 1)
            == Ahead(cursor, dims, start, stride, edge, m) + if Lost(cursor, dims, start, stride, edge, m) then 1 - stride[0] else 0
  {
    OneMore(LostBefore(cursor, dims, start, stride, edge, m), 1 - stride[0]);
  }

  lemma BehindNext(cursor: nat, dims: seq<nat>, start: seq<int>, stride: seq<int>, edge: seq<nat>, m: nat, pos: nat)
    requires Nonempty(dims, start, stride, edge) && InBounds(dims, start, stride, edge) && Placed(dims, start)
    requires (m + 1) * edge[0] < Prod(edge) && cursor + Begin(dims, start, stride, edge, m) < pos
    ensures var (cnt, I) := Walk(dims, start, stride, edge, m);
            pos + Walk(dims, start, stride, edge, m + 1).1 - (I + dims[0]) < 0 ==>
              cursor + Begin(dims, start, stride, edge, m + 1)
              < RankSeek(|dims|, start, edge, Blocks(dims), Steps(dims, stride), cnt, I + dims[0], pos, 1)
  {
    hide Linear, Prod, Column, RankLoop, RankSeek, Placed, InBounds, Origin;
    OneMore(m, edge[0]);
    CountersAt(dims, start, stride, edge, m);
    ColumnIs(edge, m);
    OneColumn(edge);
    var (cnt, I) := Walk(dims, start, stride, edge, m);
    var c' := LostInRankLoop(cursor, dims, start, stride, edge, cnt, I + dims[0], pos, Column(edge, m), 1, (m + 1) * edge[0]);
    ColumnUnique(edge, m + 1, c');
  }

  // ----- When the file is read right -----

  /** The elements read are the ones the request means. */
  ghost predicate FileRight(cursor: nat, dims: seq<nat>, start: seq<int>, stride: seq<int>, edge: seq<nat>)
    requires Nonempty(dims, start, stride, edge)
  {
    Meant(Places(cursor, dims, start, stride, edge), cursor, dims, start, stride, edge)
  }

  lemma RowsPlaced(cursor: nat, dims: seq<nat>, start: seq<int>, stride: seq<int>, edge: seq<nat>, m: nat, k: nat)
    requires Nonempty(dims, start, stride, edge) && InBounds(dims, start, stride, edge)
    requires m * edge[0] < Prod(edge) && k < edge[0]
    ensures ColumnPlaced(cursor, dims, start, stride, edge, m) ==>
      RowMeant(Places(cursor, dims, start, stride, edge), cursor, dims, start, stride, edge, m, k)
    ensures RowMeant(Places(cursor, dims, start, stride, edge), cursor, dims, start, stride, edge, m, 0) ==>
      ColumnPlaced(cursor, dims, start, stride, edge, m)
  {
    hide Linear, Prod, ColumnAt, Begin, PlaceRead, InBounds;
    ProdFront(edge);
    WholeColumn(m, edge[0], Prod(edge[1..]));
    BeginInArray(dims, start, stride, edge, m);
    var at := Places(cursor, dims, start, stride, edge);
    PlaceOf(cursor, dims, start, stride, edge, m, 0);
    PlaceOf(cursor, dims, start, stride, edge, m, k);
    assert at[m * edge[0] + 0] == PlaceRead(cursor, dims, start, stride, edge, m * edge[0] + 0);
    assert at[m * edge[0] + k] == PlaceRead(cursor, dims, start, stride, edge, m * edge[0] + k);
    if ColumnPlaced(cursor, dims, start, stride, edge, m) {
      RowIs(ColumnAt(cursor, dims, start, stride, edge, m) + start[0], stride[0], k);
    }
  }

  lemma FileByColumns(cursor: nat, dims: seq<nat>, start: seq<int>, stride: seq<int>, edge: seq<nat>)
    requires Nonempty(dims, start, stride, edge) && InBounds(dims, start, stride, edge)
    ensures FileRight(cursor, dims, start, stride, edge)
            <==> forall m: nat | m * edge[0] < Prod(edge) :: ColumnPlaced(cursor, dims, start, stride, edge, m)
  {
    hide Linear, Prod, Begin, RowMeant, Meant, ColumnPlaced, Places, InBounds;
    var at := Places(cursor, dims, start, stride, edge);
    MeantByRows(at, cursor, dims, start, stride, edge);
    forall m: nat, k: nat | m * edge[0] < Prod(edge) && k < edge[0]
      ensures ColumnPlaced(cursor, dims, start, stride, edge, m) ==> RowMeant(at, cursor, dims, start, stride, edge, m, k)
    {
      RowsPlaced(cursor, dims, start, stride, edge, m, k);
    }
    if FileRight(cursor, dims, start, stride, edge) {
      forall m: nat | m * edge[0] < Prod(edge)
        ensures ColumnPlaced(cursor, dims, start, stride, edge, m)
      {
        RowsPlaced(cursor, dims, start, stride, edge, m, 0);
        assert RowMeant(at, cursor, dims, start, stride, edge, m, 0);
      }
    }
  }

  lemma FirstPlaced(cursor: nat, dims: seq<nat>, start: seq<int>, stride: seq<int>, edge: seq<nat>)
    requires Nonempty(dims, start, stride, edge) && InBounds(dims, start, stride, edge)
    ensures ColumnPlaced(cursor, dims, start, stride, edge, 0) <==> MadeUp(cursor, dims, start, stride, edge, 0)
  {
    hide Linear, Prod, Begin;
    OffsetForward(dims, start, |dims|);
  }

  lemma {:induction false} OffsetForward(dims: seq<nat>, start: seq<int>, i: nat)
    requires 1 <= i <= |dims| == |start| && forall k | 0 <= k < |start| :: 0 <= start[k]
    ensures 0 <= Offset(dims, start, i)
  {
    hide Block;
    if i > 1 {
      OffsetForward(dims, start, i - 1);
      NonNegative(Block(dims, i - 2), start[i - 1]);
    }
  }

  lemma {:induction false} PlacedColumns(cursor: nat, dims: seq<nat>, start: seq<int>, stride: seq<int>, edge: seq<nat>, m: nat)
    requires Nonempty(dims, start, stride, edge) && InBounds(dims, start, stride, edge) && m * edge[0] < Prod(edge)
    requires (forall i: nat | i * edge[0] < Prod(edge) :: MadeUp(cursor, dims, start, stride, edge, i))
             || (Placed(dims, start) && forall i: nat | i * edge[0] < Prod(edge) :: ColumnPlaced(cursor, dims, start, stride, edge, i))
    ensures ColumnPlaced(cursor, dims, start, stride, edge, m) && MadeUp(cursor, dims, start, stride, edge, m)
  {
    hide Prod, MadeUp, ColumnPlaced, Placed, InBounds;
    if m == 0 {
      FirstPlaced(cursor, dims, start, stride, edge);
    } else {
      OneMore(m - 1, edge[0]);
      PlacedColumns(cursor, dims, start, stride, edge, m - 1);
      NextPlaced(cursor, dims, start, stride, edge, m - 1);
    }
  }

  /** The file is read right if and only if at every column the index makes up for the skips lost
      before, as they do when none is lost and no index is wrong. */
  lemma FileRightIff(cursor: nat, dims: seq<nat>, start: seq<int>, stride: seq<int>, edge: seq<nat>)
    requires Nonempty(dims, start, stride, edge) && InBounds(dims, start, stride, edge) && Placed(dims, start)
    ensures FileRight(cursor, dims, start, stride, edge)
            <==> forall m: nat | m * edge[0] < Prod(edge) :: MadeUp(cursor, dims, start, stride, edge, m)
  {
    hide Prod, MadeUp, ColumnPlaced, Placed, FileRight, InBounds;
    FileByColumns(cursor, dims, start, stride, edge);
    if FileRight(cursor, dims, start, stride, edge) || forall m: nat | m * edge[0] < Prod(edge) :: MadeUp(cursor, dims, start, stride, edge, m) {
      forall m: nat | m * edge[0] < Prod(edge)
        ensures ColumnPlaced(cursor, dims, start, stride, edge, m) && MadeUp(cursor, dims, start, stride, edge, m)
      {
        PlacedColumns(cursor, dims, start, stride, edge, m);
      }
    }
  }

  /** At any rank it is enough. */
  lemma MadeUpIsRight(cursor: nat, dims: seq<nat>, start: seq<int>, stride: seq<int>, edge: seq<nat>)
    requires Nonempty(dims, start, stride, edge) && InBounds(dims, start, stride, edge)
    requires forall m: nat | m * edge[0] < Prod(edge) :: MadeUp(cursor, dims, start, stride, edge, m)
    ensures FileRight(cursor, dims, start, stride, edge)
  {
    hide Prod, MadeUp, ColumnPlaced, FileRight, InBounds;
    FileByColumns(cursor, dims, start, stride, edge);
    forall m: nat | m * edge[0] < Prod(edge)
      ensures ColumnPlaced(cursor, dims, start, stride, edge, m)
    {
      PlacedColumns(cursor, dims, start, stride, edge, m);
    }
  }

  /** The skip behind every column but the last stays in the file. */
  ghost predicate Reaches(cursor: nat, dims: seq<nat>, start: seq<int>, stride: seq<int>, edge: seq<nat>)
    requires Nonempty(dims, start, stride, edge)
  {
    forall m: nat | (m + 1) * edge[0] < Prod(edge) :: !Lost(cursor, dims, start, stride, edge, m)
  }

  lemma {:induction false} NothingLost(cursor: nat, dims: seq<nat>, start: seq<int>, stride: seq<int>, edge: seq<nat>, m: nat)
    requires Nonempty(dims, start, stride, edge)
    requires Reaches(cursor, dims, start, stride, edge) && m * edge[0] < Prod(edge)
    ensures Ahead(cursor, dims, start, stride, edge, m) == 0
  {
    hide Prod, Lost;
    if m > 0 {
      OneMore(m - 1, edge[0]);
      NothingLost(cursor, dims, start, stride, edge, m - 1);
      OneLost(cursor, dims, start, stride, edge, m - 1);
    }
  }

  /** A skip that is lost puts the cursor ahead, and it stays so as far as the index is right. */
  lemma SomethingLost(cursor: nat, dims: seq<nat>, start: seq<int>, stride: seq<int>, edge: seq<nat>)
    requires Nonempty(dims, start, stride, edge) && InBounds(dims, start, stride, edge)
    requires !Reaches(cursor, dims, start, stride, edge)
    ensures exists m: nat :: m * edge[0] < Prod(edge) && 0 < Ahead(cursor, dims, start, stride, edge, m)
  {
    hide Prod, Begin, InBounds;
    var m: nat :| (m + 1) * edge[0] < Prod(edge) && Lost(cursor, dims, start, stride, edge, m);
    OneMore(m, edge[0]);
    BeginInArray(dims, start, stride, edge, m);
    OneMore(edge[0] - 1, stride[0]);
    assert stride[0] < 0;
    PositiveTimes(LostBefore(cursor, dims, start, stride, edge, m + 1), 1 - stride[0]);
    assert 0 < Ahead(cursor, dims, start, stride, edge, m + 1);
  }

  /** Where no skip is lost the file is read right if the index is; and where the index is right, if
      and only if no skip is lost. */
  lemma RightAndReaches(cursor: nat, dims: seq<nat>, start: seq<int>, stride: seq<int>, edge: seq<nat>)
    requires Nonempty(dims, start, stride, edge) && InBounds(dims, start, stride, edge) && Placed(dims, start)
    ensures Reaches(cursor, dims, start, stride, edge) ==>
      (FileRight(cursor, dims, start, stride, edge) <==> AllRight(dims, start, stride, edge))
    ensures AllRight(dims, start, stride, edge) ==>
      (FileRight(cursor, dims, start, stride, edge) <==> Reaches(cursor, dims, start, stride, edge))
  {
    hide Prod, Begin, Ahead, Walk, Reaches, FileRight, AllRight, Placed, InBounds;
    FileRightIff(cursor, dims, start, stride, edge);
    RightByColumns(dims, start, stride, edge);
    if Reaches(cursor, dims, start, stride, edge) {
      forall m: nat | m * edge[0] < Prod(edge)
        ensures MadeUp(cursor, dims, start, stride, edge, m) <==> BeginsRight(dims, start, stride, edge, m)
      {
        NothingLost(cursor, dims, start, stride, edge, m);
      }
    } else if AllRight(dims, start, stride, edge) {
      SomethingLost(cursor, dims, start, stride, edge);
      var m: nat :| m * edge[0] < Prod(edge) && 0 < Ahead(cursor, dims, start, stride, edge, m);
      assert BeginsRight(dims, start, stride, edge, m) && !MadeUp(cursor, dims, start, stride, edge, m);
    }
  }

  /** Nothing is lost when the first stride is not negative, or not larger than what is before the array. */
  lemma EnoughBefore(cursor: nat, dims: seq<nat>, start: seq<int>, stride: seq<int>, edge: seq<nat>)
    requires Nonempty(dims, start, stride, edge) && InBounds(dims, start, stride, edge)
    requires 0 <= stride[0] || 0 <= cursor + stride[0]
    ensures Reaches(cursor, dims, start, stride, edge)
  {
    hide Prod, Begin, InBounds;
    forall m: nat | (m + 1) * edge[0] < Prod(edge)
      ensures !Lost(cursor, dims, start, stride, edge, m)
    {
      OneMore(m, edge[0]);
      BeginInArray(dims, start, stride, edge, m);
      OneMore(edge[0] - 1, stride[0]);
      assert 0 <= Begin(dims, start, stride, edge, m) + start[0] + (edge[0] - 1) * stride[0];
    }
  }

  /** Up to rank 3, and for straight requests, the file is read right if and only if no skip is lost. */
  lemma StraightFileRight(cursor: nat, dims: seq<nat>, start: seq<int>, stride: seq<int>, edge: seq<nat>)
    requires Nonempty(dims, start, stride, edge) && InBounds(dims, start, stride, edge) && Straight(dims, start)
    ensures FileRight(cursor, dims, start, stride, edge) <==> Reaches(cursor, dims, start, stride, edge)
  {
    hide FileRight, Reaches, AllRight, Straight, Placed, InBounds;
    PlacedUpToRank4(dims, start);
    StraightIsRight(dims, start, stride, edge);
    RightAndReaches(cursor, dims, start, stride, edge);
  }

  /** At rank 4 it is read right if and only if the condition on dims and request holds and no skip is
      lost, or both fail and make up for each other. */
  lemma FileRightAtRank4(cursor: nat, dims: seq<nat>, start: seq<int>, stride: seq<int>, edge: seq<nat>)
    requires |dims| == 4 && Nonempty(dims, start, stride, edge) && InBounds(dims, start, stride, edge)
    ensures var walk, reach := RightAtRank4(dims, start, stride, edge), Reaches(cursor, dims, start, stride, edge);
            FileRight(cursor, dims, start, stride, edge) <==>
              || (walk && reach)
              || (!walk && !reach && forall m: nat | m * edge[0] < Prod(edge) :: MadeUp(cursor, dims, start, stride, edge, m))
  {
    hide Prod, FileRight, Reaches, AllRight, RightAtRank4, Placed, MadeUp, InBounds;
    PlacedUpToRank4(dims, start);
    RightAtRank4Iff(dims, start, stride, edge);
    RightAndReaches(cursor, dims, start, stride, edge);
    FileRightIff(cursor, dims, start, stride, edge);
  }

  /** They can do so only when the first skip that is lost is the one before the third dimension is
      left, and the rounding there does not land. */
  lemma FirstLoss(cursor: nat, dims: seq<nat>, start: seq<int>, stride: seq<int>, edge: seq<nat>, m: nat)
    requires |dims| == 4 && Nonempty(dims, start, stride, edge) && InBounds(dims, start, stride, edge)
    requires FileRight(cursor, dims, start, stride, edge) && (m + 1) * edge[0] < Prod(edge)
    requires Lost(cursor, dims, start, stride, edge, m) && LostBefore(cursor, dims, start, stride, edge, m) == 0
    ensures var c := Column(edge, m);
            && c[1] + 1 == edge[1] && c[2] + 1 == edge[2]
            && !Lands(dims, start[1], start[2] + stride[2] * (edge[2] - 1), start[3] + stride[3] * c[3])
  {
    hide Prod, FileRight, Lands, Placed, Begin, Column, Walk, InBounds;
    OneMore(m, edge[0]);
    PlacedUpToRank4(dims, start);
    FileRightIff(cursor, dims, start, stride, edge);
    assert MadeUp(cursor, dims, start, stride, edge, m) && MadeUp(cursor, dims, start, stride, edge, m + 1);
    OneLost(cursor, dims, start, stride, edge, m);
    BeginInArray(dims, start, stride, edge, m);
    OneMore(edge[0] - 1, stride[0]);
    assert 0 <= Begin(dims, start, stride, edge, m) + start[0] + (edge[0] - 1) * stride[0];
    NextBegins(dims, start, stride, edge, m);
  }

  /** With the first two dims equal. */
  lemma FileRightEqualDims(cursor: nat, dims: seq<nat>, start: seq<int>, stride: seq<int>, edge: seq<nat>)
    requires |dims| == 4 && Nonempty(dims, start, stride, edge) && InBounds(dims, start, stride, edge)
    requires dims[0] == dims[1]
    ensures Reaches(cursor, dims, start, stride, edge) ==>
      (FileRight(cursor, dims, start, stride, edge) <==> edge[3] <= 1 || start[1] == 0)
    ensures edge[3] <= 1 || start[1] == 0 ==>
      (FileRight(cursor, dims, start, stride, edge) <==> Reaches(cursor, dims, start, stride, edge))
  {
    hide FileRight, Reaches, AllRight, Placed, InBounds;
    PlacedUpToRank4(dims, start);
    EqualDims(dims, start, stride, edge);
    RightAndReaches(cursor, dims, start, stride, edge);
  }

  // ----- Two requests -----

  /** With 24 elements before the array, the skip behind the first column would go to -76. The second
      column is read from element 302 on, of an array that has 202, where 201 is meant. From memory
      the request is right. */
  lemma SkipLost()
    ensures var dims, start, stride, edge := [101, 2, 1], [100, 0, 0], [-100, 1, 1], [2, 2, 1];
            && InBounds(dims, start, stride, edge) && Nonempty(dims, start, stride, edge)
            && AllRight(dims, start, stride, edge) && !FileRight(24, dims, start, stride, edge)
            && PlaceRead(24, dims, start, stride, edge, 2) == 24 + 302
            && Linear(dims, Picked(start, stride, [0, 1, 0])) == 201
  {
    var dims: seq<nat>, start, stride, edge: seq<nat> := [101, 2, 1], [100, 0, 0], [-100, 1, 1], [2, 2, 1];
    hide Linear, Prod, PlaceRead, AllRight, FileRight, Begin, InBounds, Lost, Reaches, Straight, Picked;
    SkipRequest();
    StraightIsRight(dims, start, stride, edge);
    StraightFileRight(24, dims, start, stride, edge);
    SkipBack();
    BehindArray();
  }

  lemma SkipRequest()
    ensures var dims, start, stride, edge := [101, 2, 1], [100, 0, 0], [-100, 1, 1], [2, 2, 1];
            InBounds(dims, start, stride, edge) && Nonempty(dims, start, stride, edge) && Straight(dims, start)
  {
  }

  lemma SkipBack()
    ensures !Reaches(24, [101, 2, 1], [100, 0, 0], [-100, 1, 1], [2, 2, 1])
    ensures Linear([101, 2, 1], Picked([100, 0, 0], [-100, 1, 1], [0, 1, 0])) == 201
  {
    var dims: seq<nat>, start, stride, edge: seq<nat> := [101, 2, 1], [100, 0, 0], [-100, 1, 1], [2, 2, 1];
    hide Linear, Prod, Begin;
    Products3(101, 2, 1);
    Products3(2, 2, 1);
    BeginFirst(dims, start, stride, edge);
    Address3(dims, start[0 := 0]);
    Address3(dims, Picked(start, stride, [0, 1, 0]));
    assert (0 + 1) * edge[0] < Prod(edge);
    assert Lost(24, dims, start, stride, edge, 0);
  }

  lemma BehindArray()
    ensures PlaceRead(24, [101, 2, 1], [100, 0, 0], [-100, 1, 1], [2, 2, 1], 2) == 24 + 302
  {
    var dims: seq<nat>, start, stride, edge: seq<nat> := [101, 2, 1], [100, 0, 0], [-100, 1, 1], [2, 2, 1];
    hide Linear, Prod, RankLoop, RankSeek, ColumnPassed, RowAt, Block, Offset;
    StraightFirst(dims, start);
    Products3(101, 2, 1);
    Address3(dims, start[0 := 0]);
    ColumnPassedIs(24, 101, 100, -100, 2);
    NoCarry(3, start, edge, Blocks(dims), Steps(dims, stride), [0, 0, 0], 101, 226);
    assert seq(3, _ => 0) == [0, 0, 0];
    assert ColumnAt(24, dims, start, stride, edge, 0) == 24;
    assert ColumnAt(24, dims, start, stride, edge, 1) == 226;
    RowIs(326, -100, 0);
  }

  lemma NoCarry(n: nat, start: seq<int>, edge: seq<nat>, dimp: seq<nat>, inc: seq<int>, cnt: seq<int>, I: int, pos: nat)
    requires 2 <= n == |start| == |edge| == |dimp| == |inc| == |cnt|
    requires forall k | 0 <= k < n :: 0 < edge[k] && 0 < dimp[k]
    requires (cnt[1] + 1) % edge[1] != 0
    ensures RankSeek(n, start, edge, dimp, inc, cnt, I, pos, 1) == Sought(pos, inc[1])
  {
  }

  lemma Products3(a: nat, b: nat, c: nat)
    ensures Prod([a, b, c]) == a * b * c && Prod([a, b, c][..1]) == a && Prod([a, b, c][..2]) == a * b
  {
    Two(a, b);
    Three(a, b, c);
    assert [a, b, c][..1] == [a] && [a, b, c][..2] == [a, b];
  }

  lemma Address3(dims: seq<nat>, s: seq<int>)
    requires |dims| == |s| == 3
    ensures Linear(dims, s) == s[0] + s[1] * Prod(dims[..1]) + s[2] * Prod(dims[..2])
  {
    hide Linear, Prod;
    FirstTerm(dims, s);
    LinearStep(dims, s, 1);
    LinearStep(dims, s, 2);
    assert dims[..3] == dims && s[..3] == s;
  }

  /** Here the index falls short by 102 when it should leave the third dimension, and the skip lost
      before puts the cursor ahead by 102: the elements read are the ones meant, from this file only. */
  lemma LossMadeUp()
    ensures var dims, start, stride, edge := [102, 1, 2, 2], [101, 0, 0, 0], [-101, 1, 1, 1], [2, 1, 1, 2];
            && InBounds(dims, start, stride, edge) && Nonempty(dims, start, stride, edge)
            && FileRight(24, dims, start, stride, edge)
            && !RightAtRank4(dims, start, stride, edge) && !Reaches(24, dims, start, stride, edge)
  {
    var dims: seq<nat>, start, stride, edge: seq<nat> := [102, 1, 2, 2], [101, 0, 0, 0], [-101, 1, 1, 1], [2, 1, 1, 2];
    hide Linear, Prod, Walk, FileRight, Placed, RightAtRank4, InBounds, Nonempty, Begin, Reaches;
    LossRequest();
    LossColumns();
    TwoColumns(24, dims, start, stride, edge);
  }

  /** Two columns, of which the first ends in a skip that is lost. */
  lemma TwoColumns(cursor: nat, dims: seq<nat>, start: seq<int>, stride: seq<int>, edge: seq<nat>)
    requires Nonempty(dims, start, stride, edge) && InBounds(dims, start, stride, edge)
    requires Prod(edge) == 2 * edge[0] && cursor + start[0] + edge[0] * stride[0] < 0
    requires Walk(dims, start, stride, edge, 0).1 == Begin(dims, start, stride, edge, 0) == 0
    requires Walk(dims, start, stride, edge, 1).1 + 1 - stride[0] == Begin(dims, start, stride, edge, 1)
    ensures !Reaches(cursor, dims, start, stride, edge) && FileRight(cursor, dims, start, stride, edge)
  {
    hide Linear, Prod, Walk, FileRight, Begin, InBounds;
    assert Lost(cursor, dims, start, stride, edge, 0);
    assert LostBefore(cursor, dims, start, stride, edge, 1) == 1;
    assert (0 + 1) * edge[0] < Prod(edge);
    forall m: nat | m * edge[0] < Prod(edge)
      ensures MadeUp(cursor, dims, start, stride, edge, m)
    {
      OneOfTwo(m, edge[0]);
    }
    MadeUpIsRight(cursor, dims, start, stride, edge);
  }

  lemma OneOfTwo(m: nat, e: nat)
    requires m * e < 2 * e
    ensures m == 0 || m == 1
  {
    if m >= 2 {
      Monotone(e, 2, m);
    }
  }

  lemma LossRequest()
    ensures var dims, start, stride, edge := [102, 1, 2, 2], [101, 0, 0, 0], [-101, 1, 1, 1], [2, 1, 1, 2];
            && InBounds(dims, start, stride, edge) && Nonempty(dims, start, stride, edge)
            && !RightAtRank4(dims, start, stride, edge)
  {
  }

  lemma LossColumns()
    ensures var dims, start, stride, edge := [102, 1, 2, 2], [101, 0, 0, 0], [-101, 1, 1, 1], [2, 1, 1, 2];
            && Prod(edge) == 4
            && Walk(dims, start, stride, edge, 0).1 == Begin(dims, start, stride, edge, 0) == 0
            && Walk(dims, start, stride, edge, 1).1 == 102 && Begin(dims, start, stride, edge, 1) == 204
  {
    hide Linear, Prod, Walk, Begin;
    ProductsOf([2, 1, 1, 2]);
    BeginFirst([102, 1, 2, 2], [101, 0, 0, 0], [-101, 1, 1, 1], [2, 1, 1, 2]);
    Address([102, 1, 2, 2], [0, 0, 0, 0]);
    assert [101, 0, 0, 0][0 := 0] == [0, 0, 0, 0];
    SecondBegin();
    SecondIndex();
  }

  lemma ProductsOf(dims: seq<nat>)
    requires |dims| == 4
    ensures Prod(dims) == dims[0] * dims[1] * dims[2] * dims[3]
  {
    ThirdBlock(dims);
    ProdStep(dims, 3);
    assert dims[..4] == dims;
  }

  lemma SecondBegin()
    ensures Begin([102, 1, 2, 2], [101, 0, 0, 0], [-101, 1, 1, 1], [2, 1, 1, 2], 1) == 204
  {
    var dims: seq<nat>, edge: seq<nat>, c: seq<int> := [102, 1, 2, 2], [2, 1, 1, 2], [0, 0, 0, 1];
    hide Linear, Prod, Column;
    Address(edge, c);
    ThirdBlock(edge);
    ColumnUnique(edge, 1, c);
    Address(dims, Origin([101, 0, 0, 0], [-101, 1, 1, 1], c));
    ThirdBlock(dims);
  }

  lemma SecondIndex()
    ensures Walk([102, 1, 2, 2], [101, 0, 0, 0], [-101, 1, 1, 1], [2, 1, 1, 2], 0).1 == 0
    ensures Walk([102, 1, 2, 2], [101, 0, 0, 0], [-101, 1, 1, 1], [2, 1, 1, 2], 1).1 == 102
  {
    var dims: seq<nat>, start, stride, edge: seq<nat> := [102, 1, 2, 2], [101, 0, 0, 0], [-101, 1, 1, 1], [2, 1, 1, 2];
    hide Linear, Prod, RankLoop, Block, Offset;
    OffsetAtRank4(dims, start);
    ThirdBlock(dims);
    BlockIs(dims, start, 0);
    BlockIs(dims, start, 1);
    assert seq(4, _ => 0) == [0, 0, 0, 0];
    SecondLoop(Blocks(dims), Steps(dims, stride));
  }

  lemma SecondLoop(dimp: seq<nat>, inc: seq<int>)
    requires |dimp| == |inc| == 4 && dimp[0] == dimp[1] == 102 && dimp[2] == 2 && 0 < dimp[3] && inc[3] == 0
    ensures RankLoop(4, [101, 0, 0, 0], [2, 1, 1, 2], dimp, inc, [0, 0, 0, 0], 102, 1).1 == 102
  {
    var start, edge: seq<nat>, zero := [101, 0, 0, 0], [2, 1, 1, 2], [0, 0, 0, 0];
    hide RankLoop, UpTo;
    Multiples();
    LoopStep(start, edge, dimp, inc, zero, 102, 1);
    LoopStep(start, edge, dimp, inc, zero, 102, 2);
    LoopStep(start, edge, dimp, inc, zero, 102, 3);
  }

  lemma Multiples()
    ensures UpTo(102, 102) == 102 && UpTo(102, 2) == 102
  {
  }

  /** One dimension of the rank loop. */
  lemma LoopStep(start: seq<int>, edge: seq<nat>, dimp: seq<nat>, inc: seq<int>, cnt: seq<int>, I: int, j: nat)
    requires |start| == |edge| == |dimp| == |inc| == |cnt| == 4 && 1 <= j < 4
    requires (forall k | 0 <= k < 4 :: 0 < edge[k] && 0 < dimp[k]) && cnt[j] == 0
    ensures edge[j] == 1 ==>
      RankLoop(4, start, edge, dimp, inc, cnt, I, j)
      == RankLoop(4, start, edge, dimp, inc, cnt, UpTo(I, dimp[j]) + dimp[j - 1] * start[j], j + 1)
    ensures edge[j] == 2 ==> RankLoop(4, start, edge, dimp, inc, cnt, I, j).1 == I + inc[j]
  {
    assert cnt[j := 0] == cnt;
  }
}
