/** When the walk over an array of rank 4 is right. */
module SlabRank4 {
  import opened Subscripts
  import opened CellIndex
  import opened Slab

  // ----- Addresses and blocks -----

  lemma Two(a: nat, b: nat)
    ensures Prod([a]) == a && Prod([a, b]) == a * b
  {
    NoElements();
    assert [a][..0] == [] && [a, b][..1] == [a];
  }

  lemma Three(a: nat, b: nat, c: nat)
    ensures Prod([a, b, c]) == a * b * c
  {
    Two(a, b);
    assert [a, b, c][..2] == [a, b];
  }

  /** The third block size is made of the second dimension where the first should be. */
  lemma ThirdBlock(dims: seq<nat>)
    requires |dims| == 4
    ensures Blocks(dims)[2] == dims[1] * (dims[1] * dims[2])
    ensures Prod(dims[..1]) == dims[0] && Prod(dims[..2]) == dims[0] * dims[1] && Prod(dims[..3]) == dims[0] * dims[1] * dims[2]
  {
    Two(dims[1], dims[2]);
    Two(dims[0], dims[1]);
    Three(dims[0], dims[1], dims[2]);
    assert dims[1..3] == [dims[1], dims[2]];
    assert dims[..1] == [dims[0]] && dims[..2] == [dims[0], dims[1]] && dims[..3] == [dims[0], dims[1], dims[2]];
  }

  lemma Address(dims: seq<nat>, s: seq<int>)
    requires |dims| == |s| == 4
    ensures Linear(dims, s) == s[0] + s[1] * dims[0] + s[2] * Prod(dims[..2]) + s[3] * Prod(dims[..3])
  {
    hide Linear, Prod;
    FirstTerm(dims, s);
    LinearStep(dims, s, 1);
    LinearStep(dims, s, 2);
    LinearStep(dims, s, 3);
    OneColumn(dims);
    assert dims[..4] == dims && s[..4] == s;
  }

  /** Where the walk should be when it leaves subscript `x` of the fourth dimension. */
  function Target(d: seq<nat>, start1: int, x: int): int
    requires |d| == 4
  {
    d[0] * start1 + d[0] * (d[1] * d[2]) * (x + 1)
  }

  /** Rounding up from the end of the last column read, to a multiple of the third block size, comes
      out there. */
  predicate Lands(d: seq<nat>, start1: int, last2: int, x: int)
    requires |d| == 4 && 0 < d[1] && 0 < d[2]
  {
    PositiveTimes(d[1], d[2]);
    PositiveTimes(d[1], d[1] * d[2]);
    && (d[2] - 1 - last2) * d[0] < d[1] * d[2]
    && Target(d, start1, x) % (d[1] * (d[1] * d[2])) == 0
  }

  lemma UpToIs(I: int, b: nat, t: int)
    requires 0 < b
    ensures UpTo(I, b) == t <==> t % b == 0 && 0 <= t - I < b
  {
    Quotient(I, b);
    Quotient(t, b);
    var q, r := I / b, I % b;
    OneMore(q, b);
    if r != 0 {
      ModOf(UpTo(I, b), b, q + 1, 0);
      if t % b == 0 && 0 <= t - I < b {
        SameMultiple(t / b, q + 1, b, t - UpTo(I, b));
      }
    } else if t % b == 0 && 0 <= t - I < b {
      SameMultiple(t / b, q, b, t - I);
    }
  }

  lemma SameMultiple(q: int, q': int, b: int, gap: int)
    requires 0 < b && q * b - q' * b == gap && -b < gap < b
    ensures gap == 0
  {
    if q < q' {
      StepApart(b, q, q');
    } else if q' < q {
      StepApart(b, q', q);
    }
  }

  lemma LandsIff(d: seq<nat>, start1: int, last2: int, x: int, I: int, t: int, b: nat)
    requires |d| == 4 && (forall k | 0 <= k < 4 :: 0 < d[k]) && 0 <= last2 < d[2]
    requires t == Target(d, start1, x) && t - I == (d[2] - 1 - last2) * d[0] * d[1]
    requires b == d[1] * (d[1] * d[2])
    ensures 0 < b && (UpTo(I, b) == t <==> Lands(d, start1, last2, x))
  {
    hide UpTo, Target;
    PositiveTimes(d[1], d[2]);
    PositiveTimes(d[1], d[1] * d[2]);
    NonNegative(d[2] - 1 - last2, d[0]);
    NonNegative((d[2] - 1 - last2) * d[0], d[1]);
    Cancel(d[1], (d[2] - 1 - last2) * d[0], d[1] * d[2]);
    UpToIs(I, b, t);
  }

  lemma TargetIs(d: seq<nat>, start1: int, x: int, p: int)
    requires |d| == 4 && p == d[0] * d[1] * d[2]
    ensures start1 * d[0] + x * p + p == Target(d, start1, x)
  {
    Associate(d[0], d[1], d[2]);
    OneMore(x, p);
  }

  lemma GapIs(a: int, b: int, c: int, last: int)
    ensures a * b * c - (last * (a * b) + a * b) == (c - 1 - last) * a * b
  {
  }

  lemma Cancel(p: int, x: int, y: int)
    requires 0 < p
    ensures x * p < p * y <==> x < y
  {
    if x < y {
      StepApart(p, x, y);
    } else {
      Monotone(p, y, x);
    }
  }

  /** The third dimension is left for the fourth: right exactly when the rounding lands. */
  lemma LeaveThird(dims: seq<nat>, start: seq<int>, stride: seq<int>, edge: seq<nat>, cnt: seq<int>, I: int, c: seq<int>, target: int)
    requires |dims| == 4 && InBounds(dims, start, stride, edge) && Nonempty(dims, start, stride, edge)
    requires Due(dims, start, stride, edge, cnt, I, c, 2, target) && c[2] + 1 == edge[2]
    ensures var next := UpTo(I, Blocks(dims)[2]) + Blocks(dims)[1] * start[2];
            next == Linear(dims, Origin(start, stride, c[2 := 0])) + Prod(dims[..3])
            <==> Lands(dims, start[1], start[2] + stride[2] * (edge[2] - 1), start[3] + stride[3] * c[3])
  {
    hide Linear, Prod, UpTo, Lands, Target, Block, InBounds;
    var s, s' := Origin(start, stride, c), Origin(start, stride, c[2 := 0]);
    assert s[1] == start[1] && s'[2] == start[2] by {
      FromStart(start[1], start[1], stride[1], 0);
      FromStart(start[2], start[2], stride[2], 0);
    }
    assert s' == s[2 := start[2]];
    Address(dims, s);
    Address(dims, s');
    ThirdBlock(dims);
    BlockIs(dims, start, 1);
    assert 0 <= s[2] < dims[2] by { LastInRange(dims, start, stride, edge); }
    var t := start[1] * dims[0] + s[3] * Prod(dims[..3]) + Prod(dims[..3]);
    TargetIs(dims, start[1], s[3], Prod(dims[..3]));
    GapIs(dims[0], dims[1], dims[2], s[2]);
    LandsIff(dims, start[1], s[2], s[3], I, t, Blocks(dims)[2]);
    Same(start[2], Prod(dims[..2]));
  }

  lemma Same(x: int, p: int)
    ensures x * p == p * x
  {
  }

  lemma LastInRange(dims: seq<nat>, start: seq<int>, stride: seq<int>, edge: seq<nat>)
    requires |dims| == 4 && InBounds(dims, start, stride, edge) && 0 < edge[2]
    ensures 0 <= start[1] < dims[1] && 0 <= start[2] + stride[2] * (edge[2] - 1) < dims[2]
  {
  }

  // ----- From column to column -----

  /** From one column to the next: right but for leaving the third dimension. */
  lemma Advance4(dims: seq<nat>, start: seq<int>, stride: seq<int>, edge: seq<nat>, cnt: seq<int>, I: int, c: seq<int>)
      returns (c': seq<int>)
    requires |dims| == 4 && InBounds(dims, start, stride, edge) && Nonempty(dims, start, stride, edge)
    requires Ready(dims, start, stride, edge, cnt, I, c) && Linear(edge, c) + edge[0] < Prod(edge)
    ensures var (cnt', I') := RankLoop(4, start, edge, Blocks(dims), Steps(dims, stride), cnt, I + dims[0], 1);
            && Counted(edge, cnt', c') && Linear(edge, c') == Linear(edge, c) + edge[0]
            && (I' == Linear(dims, Origin(start, stride, c'))
                <==> (c[1] + 1 == edge[1] && c[2] + 1 == edge[2]
                      ==> Lands(dims, start[1], start[2] + stride[2] * (edge[2] - 1), start[3] + stride[3] * c[3])))
  {
    hide Linear, Prod, UpTo, Lands, Origin, Block;
    var target := Linear(edge, c) + edge[0];
    ColumnDone(dims, start, stride, edge, cnt, I, c);
    AtEdge(cnt[1], edge[1]);
    if c[1] + 1 < edge[1] {
      MoveDue(dims, start, stride, edge, Steps(dims, stride), cnt, I + dims[0], c, 1, target);
      c' := c[1 := c[1] + 1];
    } else {
      BlockIs(dims, start, 0);
      BlockIs(dims, start, 1);
      CarryDue(dims, start, stride, edge, Blocks(dims), cnt, I + dims[0], c, 1, target);
      c' := FromThird(dims, start, stride, edge, cnt[1 := 0], UpTo(I + dims[0], Blocks(dims)[1]) + Blocks(dims)[0] * start[1], c[1 := 0], target);
    }
  }

  lemma FromThird(dims: seq<nat>, start: seq<int>, stride: seq<int>, edge: seq<nat>, cnt: seq<int>, I: int, c: seq<int>, target: int)
      returns (c': seq<int>)
    requires |dims| == 4 && InBounds(dims, start, stride, edge) && Nonempty(dims, start, stride, edge)
    requires Due(dims, start, stride, edge, cnt, I, c, 2, target) && target < Prod(edge)
    ensures var (cnt', I') := RankLoop(4, start, edge, Blocks(dims), Steps(dims, stride), cnt, I, 2);
            && Counted(edge, cnt', c') && Linear(edge, c') == target
            && (I' == Linear(dims, Origin(start, stride, c'))
                <==> (c[2] + 1 == edge[2]
                      ==> Lands(dims, start[1], start[2] + stride[2] * (edge[2] - 1), start[3] + stride[3] * c[3])))
  {
    hide Linear, Prod, UpTo, Lands, Origin, Block;
    AtEdge(cnt[2], edge[2]);
    if c[2] + 1 < edge[2] {
      MoveDue(dims, start, stride, edge, Steps(dims, stride), cnt, I, c, 2, target);
      c' := c[2 := c[2] + 1];
    } else {
      CarryCount(edge, cnt, c, 2, target);
      LeaveThird(dims, start, stride, edge, cnt, I, c, target);
      c' := InFourth(dims, start, stride, edge, cnt[2 := 0], UpTo(I, Blocks(dims)[2]) + Blocks(dims)[1] * start[2], c[2 := 0], target);
    }
  }

  lemma InFourth(dims: seq<nat>, start: seq<int>, stride: seq<int>, edge: seq<nat>, cnt: seq<int>, I: int, c: seq<int>, target: int)
      returns (c': seq<int>)
    requires |dims| == 4 && InBounds(dims, start, stride, edge) && Nonempty(dims, start, stride, edge)
    requires Counting(edge, cnt, c, 3, target) && target < Prod(edge)
    ensures var (cnt', I') := RankLoop(4, start, edge, Blocks(dims), Steps(dims, stride), cnt, I, 3);
            && Counted(edge, cnt', c') && Linear(edge, c') == target
            && (I' == Linear(dims, Origin(start, stride, c')) <==> I == Linear(dims, Origin(start, stride, c)) + Prod(dims[..3]))
  {
    hide Linear, Prod, UpTo, Origin, Block;
    if c[3] + 1 == edge[3] {
      LastCount(edge, cnt, c, 3, target);
      assert false;
    } else {
      AtEdge(cnt[3], edge[3]);
      var right := Linear(dims, Origin(start, stride, c)) + Prod(dims[..3]);
      MoveDue(dims, start, stride, edge, Steps(dims, stride), cnt, right, c, 3, target);
      c' := c[3 := c[3] + 1];
    }
  }

  // ----- The condition -----

  /** The condition: nothing is asked for beyond the start of the fourth dimension, or the block sizes
      lead to it. */
  predicate RightAtRank4(dims: seq<nat>, start: seq<int>, stride: seq<int>, edge: seq<nat>)
    requires |dims| == 4 && Nonempty(dims, start, stride, edge)
  {
    && (start[3] == 0 || dims[0] == dims[1])
    && (edge[3] >= 2 ==> Lands(dims, start[1], start[2] + stride[2] * (edge[2] - 1), start[3]))
    && (edge[3] >= 3 ==> (stride[3] * dims[0]) % dims[1] == 0)
  }

  /** At the start, the last block size is that of the fourth dimension or is not used. */
  lemma FirstRight(dims: seq<nat>, start: seq<int>)
    requires |dims| == |start| == 4 && forall k | 0 <= k < 4 :: 0 < dims[k]
    ensures Offset(dims, start, 4) == Linear(dims, start[0 := 0]) <==> start[3] == 0 || dims[0] == dims[1]
  {
    hide Linear, Prod, Block;
    Address(dims, start[0 := 0]);
    ThirdBlock(dims);
    OffsetAtRank4(dims, start);
    Same(start[1], dims[0]);
    Same(start[2], Prod(dims[..2]));
    SameBlock(dims[0], dims[1], dims[2], start[3]);
  }

  lemma OffsetAtRank4(dims: seq<nat>, start: seq<int>)
    requires |dims| == |start| == 4
    ensures Offset(dims, start, 4) == dims[0] * start[1] + Prod(dims[..2]) * start[2] + Blocks(dims)[2] * start[3]
  {
    hide Prod, Block;
    BlockIs(dims, start, 0);
    OneColumn(dims);
    BlockIs(dims, start, 1);
    assert Offset(dims, start, 1) == 0;
    assert Offset(dims, start, 2) == Block(dims, 0) * start[1];
    assert Offset(dims, start, 3) == Offset(dims, start, 2) + Block(dims, 1) * start[2];
    assert Offset(dims, start, 4) == Offset(dims, start, 3) + Block(dims, 2) * start[3];
  }

  lemma SameBlock(a: int, b: int, c: int, s: int)
    requires 0 < b && 0 < c
    ensures b * (b * c) * s == s * (a * b * c) <==> s == 0 || a == b
  {
    PositiveTimes(b, c);
    FactorOut(a, b, b * c, s);
    Associate(a, b, c);
  }

  lemma FactorOut(a: int, b: int, p: int, s: int)
    requires 0 < p
    ensures b * p * s == s * (a * p) <==> s == 0 || a == b
  {
    assert b * p * s - s * (a * p) == (b - a) * s * p;
    if s != 0 && a != b {
      assert (b - a) * s != 0;
    }
  }

  /** The rounding lands on every step of the fourth dimension when it does on the first, and the
      further steps are whole blocks. */
  lemma LandsEverywhere(d: seq<nat>, start1: int, last2: int, x: int, stride3: int, edge3: nat)
    requires |d| == 4 && 0 < d[1] && 0 < d[2]
    ensures (forall y: nat | y + 1 < edge3 :: Lands(d, start1, last2, x + stride3 * y))
            <==> (edge3 >= 2 ==> Lands(d, start1, last2, x)) && (edge3 >= 3 ==> (stride3 * d[0]) % d[1] == 0)
  {
    var p := d[1] * d[2];
    PositiveTimes(d[1], d[2]);
    PositiveTimes(d[1], p);
    if forall y: nat | y + 1 < edge3 :: Lands(d, start1, last2, x + stride3 * y) {
      if edge3 >= 2 {
        assert Lands(d, start1, last2, x + stride3 * 0);
      }
      if edge3 >= 3 {
        assert Lands(d, start1, last2, x + stride3 * 1);
        TargetMoves(d, start1, x, stride3, 1);
        WholeBlocks(Target(d, start1, x), Target(d, start1, x + stride3 * 1), stride3 * d[0], d[1], p);
      }
    }
    if (edge3 >= 2 ==> Lands(d, start1, last2, x)) && (edge3 >= 3 ==> (stride3 * d[0]) % d[1] == 0) {
      forall y: nat | y + 1 < edge3
        ensures Lands(d, start1, last2, x + stride3 * y)
      {
        if y > 0 {
          TargetMoves(d, start1, x, stride3, y);
          StillWhole(Target(d, start1, x), stride3 * d[0], d[1], p, y);
        } else {
          assert x + stride3 * y == x;
        }
      }
    }
  }

  lemma TargetMoves(d: seq<nat>, start1: int, x: int, s: int, y: int)
    requires |d| == 4
    ensures Target(d, start1, x + s * y) == Target(d, start1, x) + (s * d[0]) * (d[1] * d[2]) * y
  {
    Moved(d[0], d[1] * d[2], x, s, y);
  }

  lemma Moved(a: int, p: int, x: int, s: int, y: int)
    ensures a * p * (x + s * y + 1) == a * p * (x + 1) + (s * a) * p * y
  {
    assert a * p * (s * y) == (s * a) * p * y;
  }

  lemma WholeBlocks(t: int, t': int, n: int, d: nat, p: nat)
    requires 0 < d && 0 < p && 0 < d * p && t % (d * p) == 0 && t' % (d * p) == 0 && t' == t + n * p * 1
    ensures n % d == 0
  {
    var b := d * p;
    Quotient(t, b);
    Quotient(t', b);
    var k := t' / b - t / b;
    SubtractMultiples(t' / b, t / b, b);
    assert n * p == k * b;
    Regroup(k, p, d);
    DivideOut(n, k * d, p);
    ModOf(n, d, k, 0);
  }

  lemma SubtractMultiples(x: int, y: int, b: int)
    ensures x * b - y * b == (x - y) * b
  {
  }

  lemma DivideOut(x: int, y: int, p: int)
    requires 0 < p && x * p == y * p
    ensures x == y
  {
  }

  lemma StillWhole(t: int, n: int, d: nat, p: nat, y: int)
    requires 0 < d && 0 < p && 0 < d * p && t % (d * p) == 0 && n % d == 0
    ensures (t + n * p * y) % (d * p) == 0
  {
    var b, q, k := d * p, t / (d * p), n / d;
    Quotient(t, b);
    Quotient(n, d);
    ManyBlocks(k, d, p, y);
    SubtractMultiples(q, -(k * y), b);
    ModOf(t + n * p * y, b, q + k * y, 0);
  }

  lemma ManyBlocks(k: int, d: int, p: int, y: int)
    ensures k * d * p * y == (k * y) * (d * p) == -(-(k * y) * (d * p))
  {
    assert k * d * p == k * (d * p);
    assert k * (d * p) * y == (k * y) * (d * p);
  }

  ghost predicate AllLand(dims: seq<nat>, start: seq<int>, stride: seq<int>, edge: seq<nat>)
    requires |dims| == 4 && Nonempty(dims, start, stride, edge)
  {
    forall y: nat | y + 1 < edge[3] ::
      Lands(dims, start[1], start[2] + stride[2] * (edge[2] - 1), start[3] + stride[3] * y)
  }

  /** What the step from one column to the next needs. */
  ghost predicate StepLands(dims: seq<nat>, start: seq<int>, stride: seq<int>, edge: seq<nat>, c: seq<int>)
    requires |dims| == |c| == 4 && Nonempty(dims, start, stride, edge)
  {
    (c[1] + 1 == edge[1] && c[2] + 1 == edge[2])
      ==> Lands(dims, start[1], start[2] + stride[2] * (edge[2] - 1), start[3] + stride[3] * c[3])
  }

  /** A column that begins right is followed by one that does, if and only if the step lands. */
  lemma NextBegins(dims: seq<nat>, start: seq<int>, stride: seq<int>, edge: seq<nat>, m: nat)
    requires |dims| == 4 && InBounds(dims, start, stride, edge) && Nonempty(dims, start, stride, edge)
    requires BeginsRight(dims, start, stride, edge, m) && (m + 1) * edge[0] < Prod(edge)
    ensures BeginsRight(dims, start, stride, edge, m + 1)
            <==> StepLands(dims, start, stride, edge, Column(edge, m))
  {
    hide Linear, Prod, Column, Origin, RankLoop, InBounds, Lands;
    OneMore(m, edge[0]);
    ReadyColumn(dims, start, stride, edge, m);
    var (cnt, I) := Walk(dims, start, stride, edge, m);
    var c' := Advance4(dims, start, stride, edge, cnt, I, Column(edge, m));
    ColumnUnique(edge, m + 1, c');
  }

  lemma {:induction false} LandingColumn(dims: seq<nat>, start: seq<int>, stride: seq<int>, edge: seq<nat>, m: nat)
    requires |dims| == 4 && InBounds(dims, start, stride, edge) && Nonempty(dims, start, stride, edge)
    requires Offset(dims, start, 4) == Linear(dims, start[0 := 0]) && AllLand(dims, start, stride, edge)
    requires m * edge[0] < Prod(edge)
    ensures BeginsRight(dims, start, stride, edge, m)
  {
    hide Linear, Prod, Column, Origin, RankLoop, Offset, InBounds, Lands;
    if m == 0 {
      BeginFirst(dims, start, stride, edge);
    } else {
      OneMore(m - 1, edge[0]);
      LandingColumn(dims, start, stride, edge, m - 1);
      NextBegins(dims, start, stride, edge, m - 1);
      ColumnIs(edge, m - 1);
      var c := Column(edge, m - 1);
      if c[1] + 1 == edge[1] && c[2] + 1 == edge[2] {
        InLast(edge, c);
      }
    }
  }

  /** After the last column of the third dimension there is more only in the fourth. */
  lemma InLast(edge: seq<nat>, c: seq<int>)
    requires |edge| == |c| == 4 && InRange(edge, c) && c[0] == 0 && c[1] + 1 == edge[1] && c[2] + 1 == edge[2]
    ensures Linear(edge, c) + edge[0] < Prod(edge) <==> c[3] + 1 < edge[3]
  {
    hide Linear, Prod;
    Address(edge, c);
    ThirdBlock(edge);
    ProdStep(edge, 3);
    assert edge[..4] == edge;
    LastColumn(edge[0], edge[1], edge[2], c[3], edge[3]);
  }

  lemma LastColumn(a: nat, b: nat, c: nat, y: nat, e: nat)
    requires 0 < a && 0 < b && 0 < c && y < e
    ensures (b - 1) * a + (c - 1) * (a * b) + y * (a * b * c) + a == (y + 1) * (a * b * c)
    ensures (y + 1) * (a * b * c) < a * b * c * e <==> y + 1 < e
  {
    PositiveTimes(a, b);
    PositiveTimes(a * b, c);
    OneMore(y, a * b * c);
    Cancel(a * b * c, y + 1, e);
    LastTerms(a, b, c);
  }

  lemma LastTerms(a: int, b: int, c: int)
    ensures (b - 1) * a + (c - 1) * (a * b) + a == a * b * c
  {
    assert (b - 1) * a + a == a * b;
    assert (c - 1) * (a * b) + a * b == a * b * c;
  }

  lemma RightLands(dims: seq<nat>, start: seq<int>, stride: seq<int>, edge: seq<nat>, y: nat)
    requires |dims| == 4 && InBounds(dims, start, stride, edge) && Nonempty(dims, start, stride, edge)
    requires AllRight(dims, start, stride, edge) && y + 1 < edge[3]
    ensures Lands(dims, start[1], start[2] + stride[2] * (edge[2] - 1), start[3] + stride[3] * y)
  {
    hide Linear, Prod, Column, InBounds, Lands, AllRight, BeginsRight;
    var c: seq<int> := [0, edge[1] - 1, edge[2] - 1, y];
    InLast(edge, c);
    var m := ColumnOf(edge, c);
    OneMore(m, edge[0]);
    RightByColumns(dims, start, stride, edge);
    NextBegins(dims, start, stride, edge, m);
  }

  /** At rank 4 every element comes from its place if and only if the condition holds. */
  lemma RightAtRank4Iff(dims: seq<nat>, start: seq<int>, stride: seq<int>, edge: seq<nat>)
    requires |dims| == 4 && InBounds(dims, start, stride, edge) && Nonempty(dims, start, stride, edge)
    ensures AllRight(dims, start, stride, edge) <==> RightAtRank4(dims, start, stride, edge)
  {
    hide Linear, Prod, Lands, AllRight, BeginsRight, Offset, InBounds;
    var last2 := start[2] + stride[2] * (edge[2] - 1);
    FirstRight(dims, start);
    LandsEverywhere(dims, start[1], last2, start[3], stride[3], edge[3]);
    if AllRight(dims, start, stride, edge) {
      FirstIsRight(dims, start, stride, edge);
      forall y: nat | y + 1 < edge[3]
        ensures Lands(dims, start[1], last2, start[3] + stride[3] * y)
      {
        RightLands(dims, start, stride, edge, y);
      }
    }
    if RightAtRank4(dims, start, stride, edge) {
      forall m: nat | m * edge[0] < Prod(edge)
        ensures BeginsRight(dims, start, stride, edge, m)
      {
        LandingColumn(dims, start, stride, edge, m);
      }
      RightByColumns(dims, start, stride, edge);
    }
  }

  lemma FirstIsRight(dims: seq<nat>, start: seq<int>, stride: seq<int>, edge: seq<nat>)
    requires InBounds(dims, start, stride, edge) && Nonempty(dims, start, stride, edge)
    requires AllRight(dims, start, stride, edge)
    ensures Offset(dims, start, |dims|) == Linear(dims, start[0 := 0])
  {
    hide Linear, Prod, Offset, AllRight, Begin, InBounds;
    BeginFirst(dims, start, stride, edge);
    RightByColumns(dims, start, stride, edge);
    assert BeginsRight(dims, start, stride, edge, 0);
  }

  /** With the first two dims equal, only a later start in the second one is lost, and only when the
      request goes on in the fourth. */
  lemma EqualDims(dims: seq<nat>, start: seq<int>, stride: seq<int>, edge: seq<nat>)
    requires |dims| == 4 && InBounds(dims, start, stride, edge) && Nonempty(dims, start, stride, edge)
    requires dims[0] == dims[1]
    ensures AllRight(dims, start, stride, edge) <==> edge[3] <= 1 || start[1] == 0
  {
    hide AllRight, InBounds;
    RightAtRank4Iff(dims, start, stride, edge);
    var d, p := dims[0], dims[0] * dims[2];
    var last2 := start[2] + stride[2] * (edge[2] - 1);
    LastInRange(dims, start, stride, edge);
    ModOf(stride[3] * d, d, stride[3], 0);
    PositiveTimes(d, dims[2]);
    PositiveTimes(d, p);
    SmallGap(dims[2] - 1 - last2, d, dims[2]);
    StartLost(d, p, start[1], start[3]);
  }

  lemma SmallGap(g: int, d: int, e: int)
    requires g < e && 0 < d
    ensures g * d < d * e
  {
    Cancel(d, g, e);
  }

  lemma StartLost(d: nat, p: nat, s: int, x: int)
    requires 0 < d <= p && 0 < d * p && 0 <= s < d
    ensures (d * s + d * p * (x + 1)) % (d * p) == 0 <==> s == 0
  {
    StepApart(d, s, p);
    NonNegative(d, s);
    ModOf(d * s + d * p * (x + 1), d * p, x + 1, d * s);
    if s > 0 {
      PositiveTimes(d, s);
    }
  }

  /** With dims that differ, the third block size is wrong: the second element of this request is
      read at element 4 where it is stored as element 2. */
  lemma DifferentDimsMiss()
    ensures var dims, start, stride, edge := [1, 2, 1, 2], [0, 0, 0, 0], [1, 1, 1, 1], [1, 1, 1, 2];
            && InBounds(dims, start, stride, edge) && Nonempty(dims, start, stride, edge)
            && !AllRight(dims, start, stride, edge)
  {
    hide AllRight;
    RightAtRank4Iff([1, 2, 1, 2], [0, 0, 0, 0], [1, 1, 1, 1], [1, 1, 1, 2]);
  }

  /** Nor does it help that they are equal when the request starts later than at the beginning of
      the second dimension: rounding up to the next block drops that start. */
  lemma LaterStartMisses()
    ensures var dims, start, stride, edge := [2, 2, 1, 2], [0, 1, 0, 0], [1, 1, 1, 1], [2, 1, 1, 2];
            && InBounds(dims, start, stride, edge) && Nonempty(dims, start, stride, edge)
            && !AllRight(dims, start, stride, edge)
  {
    hide AllRight;
    EqualDims([2, 2, 1, 2], [0, 1, 0, 0], [1, 1, 1, 1], [2, 1, 1, 2]);
  }
}
