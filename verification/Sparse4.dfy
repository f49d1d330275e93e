/** Sparse matrices in Level 4 MAT files: a matrix in compressed columns is written as triplets of row,
    column and value, and the column starts are found again from the columns of the triplets. */
module Sparse4 {
  import opened Common

  const UINT_MAX := 0xffff_ffff

  /** A whole number as a double. */
  function Double(n: int): real {
    n as real
  }

  /** Of the row, column and value arrays: entry k is in row ir[k], and those of column i are from jc[i]
      up to jc[i + 1]. */
  datatype Sparse = Sparse(rows: nat, cols: nat, ir: seq<nat>, jc: seq<nat>, re: seq<real>, im: Option<seq<real>>)

  /** A matrix in compressed columns. */
  predicate Csc(s: Sparse) {
    && |s.jc| == s.cols + 1 && s.jc[0] == 0
    && (forall i, j | 0 <= i <= j <= s.cols :: s.jc[i] <= s.jc[j])
    && |s.ir| == |s.re| == s.jc[s.cols]
    && (forall k | 0 <= k < |s.ir| :: s.ir[k] < s.rows)
    && (s.im.Some? ==> |s.im.value| == |s.re|)
    && s.cols < UINT_MAX && |s.ir| < UINT_MAX && s.rows <= UINT_MAX
  }

  // ----- Writing -----

  function RowMarks(ir: seq<nat>): (r: seq<real>)
    ensures |r| == |ir|
  {
    seq(|ir|, k requires 0 <= k < |ir| => Double(ir[k] + 1))
  }

  /** The columns of the entries of the first `i` columns, counted from 1. */
  function ColumnMarks(jc: seq<nat>, i: nat): seq<real>
    requires i < |jc| && forall a, b | 0 <= a <= b < |jc| :: jc[a] <= jc[b]
  {
    if i == 0 then [] else ColumnMarks(jc, i - 1) + seq(jc[i] - jc[i - 1], _ => Double(i))
  }

  lemma {:induction false} ColumnMarksOrdered(jc: seq<nat>, i: nat)
    requires i < |jc| && (forall a, b | 0 <= a <= b < |jc| :: jc[a] <= jc[b]) && jc[0] == 0
    ensures var m := ColumnMarks(jc, i);
            && |m| == jc[i]
            && (forall k | 0 <= k < |m| :: exists c: nat :: 1 <= c <= i && m[k] == Double(c))
            && (forall b, k | 0 <= b <= i && 0 <= k < |m| :: m[k] <= Double(b) <==> k < jc[b])
  {
    if i > 0 {
      ColumnMarksOrdered(jc, i - 1);
      var m, before := ColumnMarks(jc, i), ColumnMarks(jc, i - 1);
      forall k | 0 <= k < |m|
        ensures exists c: nat :: 1 <= c <= i && m[k] == Double(c)
      {
        if k < |before| {
          assert m[k] == before[k];
        } else {
          assert m[k] == Double(i);
        }
      }
      forall b, k | 0 <= b <= i && 0 <= k < |m|
        ensures m[k] <= Double(b) <==> k < jc[b]
      {
        if k < |before| {
          assert m[k] == before[k];
        } else {
          assert m[k] == Double(i);
        }
      }
    }
  }

  /** The numbers behind the header. */
  function Triplets(s: Sparse): seq<real>
    requires Csc(s)
  {
    RowMarks(s.ir) + [Double(s.rows)] + (ColumnMarks(s.jc, s.cols) + [Double(s.cols)])
    + (s.re + [0.0] + if s.im.Some? then s.im.value + [0.0] else [])
  }

  /** One of the loops over columns and their entries. */
  method WriteValues(jc: seq<nat>, ndata: nat, values: seq<real>, out: seq<real>) returns (out': seq<real>)
    requires 1 <= |jc| && (forall a, b | 0 <= a <= b < |jc| :: jc[a] <= jc[b]) && jc[0] == 0
    requires |values| == ndata == jc[|jc| - 1]
    ensures out' == out + values
  {
    out' := out;
    var i := 0;
    while i < |jc| - 1
      invariant 0 <= i <= |jc| - 1
      invariant out' == out + values[..jc[i]]
    {
      var j := jc[i];
      assert jc[i] <= jc[i + 1] <= jc[|jc| - 1];
      while j < jc[i + 1] && j < ndata
        invariant jc[i] <= j <= jc[i + 1]
        invariant out' == out + values[..j]
        decreases jc[i + 1] - j
      {
        out' := out' + [values[j]];
        j := j + 1;
      }
      i := i + 1;
    }
    assert values[..jc[i]] == values;
  }

  method WriteColumns(jc: seq<nat>, ndata: nat, out: seq<real>) returns (out': seq<real>)
    requires 1 <= |jc| && (forall a, b | 0 <= a <= b < |jc| :: jc[a] <= jc[b]) && jc[0] == 0
    requires ndata == jc[|jc| - 1]
    ensures out' == out + ColumnMarks(jc, |jc| - 1)
  {
    out' := out;
    var i := 0;
    while i < |jc| - 1
      invariant 0 <= i <= |jc| - 1
      invariant out' == out + ColumnMarks(jc, i)
    {
      ghost var before := out';
      var j := jc[i];
      assert jc[i] <= jc[i + 1] <= jc[|jc| - 1];
      while j < jc[i + 1] && j < ndata
        invariant jc[i] <= j <= jc[i + 1]
        invariant out' == before + seq(j - jc[i], _ => Double(i + 1))
        decreases jc[i + 1] - j
      {
        out' := out' + [Double(i + 1)];
        j := j + 1;
      }
      i := i + 1;
      assert out' == out + ColumnMarks(jc, i);
    }
  }

  /** The sparse branch of Mat_VarWrite4, for doubles: the number of rows and columns in the header, and
      what follows it. */
  method Write4(s: Sparse) returns (mrows: nat, ncols: nat, out: seq<real>)
    requires Csc(s)
    ensures mrows == |s.ir| + 1 && ncols == (if s.im.Some? then 4 else 3) && out == Triplets(s)
  {
    hide ColumnMarks;
    mrows := s.jc[|s.jc| - 1] + 1;
    ncols := if s.im.Some? then 4 else 3;
    out := WriteValues(s.jc, |s.re|, RowMarks(s.ir), []);
    out := out + [Double(s.rows)];
    out := WriteColumns(s.jc, |s.re|, out);
    out := out + [Double(s.cols)];
    out := WriteValues(s.jc, |s.re|, s.re, out);
    if s.im.Some? {
      out := out + [0.0];
      out := WriteValues(s.jc, |s.re|, s.im.value, out);
    }
    out := out + [0.0];
  }

  // ----- Reading -----

  /** The conversion of a double to a 32-bit number; only meant for numbers that fit. */
  function ToU32(x: real): (n: nat)
    ensures n <= UINT_MAX
  {
    x.Floor % 0x1_0000_0000
  }

  lemma ToU32Of(n: nat)
    requires n <= UINT_MAX
    ensures ToU32(Double(n)) == n
  {
  }

  function ReadU32(file: seq<real>, pos: nat, n: nat): (r: seq<nat>)
    requires pos + n <= |file|
    ensures |r| == n && forall k | 0 <= k < n :: r[k] == ToU32(file[pos + k])
  {
    seq<nat>(n, k requires 0 <= k < n => ToU32(file[pos + k]))
  }

  predicate IsDimension(x: real) {
    0.0 <= x <= Double(UINT_MAX - 1)
  }

  /** The number of entries in front of the first one that lies beyond column `i`. */
  function FirstBeyond(columns: seq<nat>, i: nat): (j: nat)
    ensures j <= |columns|
    ensures forall k | 0 <= k < j :: columns[k] <= i
    ensures j < |columns| ==> columns[j] > i
  {
    if columns == [] || columns[0] > i then 0 else 1 + FirstBeyond(columns[1..], i)
  }

  lemma FirstBeyondIs(columns: seq<nat>, i: nat, j: nat)
    requires j <= |columns| && (forall k | 0 <= k < j :: columns[k] <= i) && (j < |columns| ==> columns[j] > i)
    ensures FirstBeyond(columns, i) == j
  {
  }

  /** The column starts for `cols` columns: from 0 to the number of entries. */
  function Starts(columns: seq<nat>, cols: nat): (jc: seq<nat>)
    ensures |jc| == cols + 1 && jc[cols] == |columns|
    ensures forall i | 0 <= i < cols :: jc[i] == if i == 0 then 0 else FirstBeyond(columns, i)
  {
    seq(cols, i requires 0 <= i < cols => if i == 0 then 0 else FirstBeyond(columns, i)) + [|columns|]
  }

  /** The two indices that move through columns and entries. */
  method Rebuild(columns: seq<nat>, cols: nat) returns (jc: seq<nat>)
    ensures jc == Starts(columns, cols)
  {
    jc := seq(cols + 1, _ => 0);
    var j := 0;
    var i := 1;
    while i < cols
      invariant 1 <= i && (i <= cols || i == 1)
      invariant |jc| == cols + 1 && j <= |columns|
      invariant jc[0] == 0
      invariant forall k | 0 <= k < j :: columns[k] < i
      invariant forall a | 1 <= a < i && a < cols :: jc[a] == FirstBeyond(columns, a)
    {
      while j < |columns| && columns[j] <= i
        invariant j <= |columns|
        invariant forall k | 0 <= k < j :: columns[k] <= i
      {
        j := j + 1;
      }
      FirstBeyondIs(columns, i, j);
      jc := jc[i := j];
      i := i + 1;
    }
    jc := jc[cols := |columns|];
  }

  /** What the sparse branch of Mat_VarRead4 makes of the header and the numbers behind it. None: an error. */
  function Matrix(mrows: nat, ncols: nat, file: seq<real>): Option<Sparse> {
    if mrows < 2 then None else
      var n := mrows - 1;
      if |file| < n then None else
      var marks := ReadU32(file, 0, n);
      if exists k :: 0 <= k < n && marks[k] == 0 then None
      else if |file| < n + 1 || !IsDimension(file[n]) then None
      else if |file| < 2 * n + 2 || !IsDimension(file[2 * n + 1]) then None
      else
        var rows, cols := ToU32(file[n]), ToU32(file[2 * n + 1]);
        var ir := seq(n, k requires 0 <= k < n => if marks[k] == 0 then 0 else marks[k] - 1);
        var jc := Starts(ReadU32(file, n + 1, n), cols);
        var data := 2 * n + 2;
        if |file| < data + n + 1 then None
        else if ncols != 4 then Some(Sparse(rows, cols, ir, jc, file[data..data + n], None))
        else if |file| < data + 2 * n + 2 then None
        else Some(Sparse(rows, cols, ir, jc, file[data..data + n], Some(file[data + n + 1..data + 2 * n + 1])))
  }

  method Read4(mrows: nat, ncols: nat, file: seq<real>) returns (r: Option<Sparse>)
    ensures r == Matrix(mrows, ncols, file)
  {
    if mrows < 2 {
      return None;
    }
    var nir := mrows - 1;
    if |file| < nir {
      return None;
    }
    var ir := ReadU32(file, 0, nir);
    ghost var marks := ir;
    for i := 0 to nir
      invariant |ir| == nir
      invariant forall k | 0 <= k < i :: marks[k] != 0 && ir[k] == marks[k] - 1
      invariant forall k | i <= k < nir :: ir[k] == marks[k]
    {
      if ir[i] == 0 {
        return None;
      }
      ir := ir[i := ir[i] - 1];
    }
    if |file| < nir + 1 || !IsDimension(file[nir]) {
      return None;
    }
    if |file| < 2 * nir + 2 || !IsDimension(file[2 * nir + 1]) {
      return None;
    }
    var cols := ToU32(file[2 * nir + 1]);
    var jc := Rebuild(ReadU32(file, nir + 1, nir), cols);
    var data := 2 * nir + 2;
    if |file| < data + nir + 1 || (ncols == 4 && |file| < data + 2 * nir + 2) {
      return None;
    }
    var im := if ncols == 4 then Some(file[data + nir + 1..data + 2 * nir + 1]) else None;
    assert ir == seq(nir, k requires 0 <= k < nir => if marks[k] == 0 then 0 else marks[k] - 1);
    return Some(Sparse(ToU32(file[nir]), cols, ir, jc, file[data..data + nir], im));
  }

  // ----- Number by number -----

  /** The numbers behind the header by their places: `row` and `col` of the entries from 1 on, each
      followed by the number of rows and columns, then the values, each part followed by a zero. */
  ghost predicate IsTriplets(file: seq<real>, rows: nat, cols: nat, row: seq<nat>, col: seq<nat>, re: seq<real>, im: Option<seq<real>>) {
    var n := |row|;
    && |col| == |re| == n && (im.Some? ==> |im.value| == n)
    && |file| == (if im.Some? then 4 * n + 4 else 3 * n + 3)
    && (forall k | 0 <= k < n :: file[k] == row[k] as real)
    && file[n] == rows as real
    && (forall k | 0 <= k < n :: file[n + 1 + k] == col[k] as real)
    && file[2 * n + 1] == cols as real
    && (forall k | 0 <= k < n :: file[2 * n + 2 + k] == re[k])
    && file[3 * n + 2] == 0.0
    && (im.Some? ==> (forall k | 0 <= k < n :: file[3 * n + 3 + k] == im.value[k]) && file[4 * n + 3] == 0.0)
  }

  /** Entry k is in column c, counted from 1, when the column before starts at k or before it and the
      next one behind it. */
  ghost predicate InColumns(jc: seq<nat>, col: seq<nat>) {
    forall k | 0 <= k < |col| :: 1 <= col[k] < |jc| && jc[col[k] - 1] <= k < jc[col[k]]
  }

  /** What is written for every matrix, and where. */
  lemma WrittenTriplets(s: Sparse) returns (row: seq<nat>, col: seq<nat>)
    requires Csc(s)
    ensures IsTriplets(Triplets(s), s.rows, s.cols, row, col, s.re, s.im)
    ensures |row| == |s.ir| && (forall k | 0 <= k < |row| :: row[k] == s.ir[k] + 1)
    ensures |col| == |s.ir| && InColumns(s.jc, col)
  {
    var n, m := |s.ir|, ColumnMarks(s.jc, s.cols);
    row := seq(n, k requires 0 <= k < n => s.ir[k] + 1);
    col := ColumnsOf(s);
    hide ColumnMarks;
    ColumnMarksOrdered(s.jc, s.cols);
    var file := Triplets(s);
    Parts(file, RowMarks(s.ir), s.rows as real, m, s.cols as real, s.re, s.im);
  }

  lemma {:induction false} ColumnsOf(s: Sparse) returns (col: seq<nat>)
    requires Csc(s)
    ensures |col| == |s.ir| && InColumns(s.jc, col)
    ensures |ColumnMarks(s.jc, s.cols)| == |col| && forall k | 0 <= k < |col| :: ColumnMarks(s.jc, s.cols)[k] == Double(col[k])
  {
    hide ColumnMarks;
    var m := ColumnMarks(s.jc, s.cols);
    ColumnMarksOrdered(s.jc, s.cols);
    col := [];
    for k := 0 to |s.ir|
      invariant |col| == k && InColumns(s.jc, col)
      invariant forall i | 0 <= i < k :: m[i] == Double(col[i])
    {
      var c: nat :| 1 <= c <= s.cols && m[k] == Double(c);
      assert m[k] <= Double(c) && !(m[k] <= Double(c - 1));
      col := col + [c];
    }
  }

  /** Where the parts come to stand. */
  lemma Parts(file: seq<real>, a: seq<real>, x: real, b: seq<real>, y: real, re: seq<real>, im: Option<seq<real>>)
    requires |a| == |b| == |re| && (im.Some? ==> |im.value| == |re|)
    requires file == a + [x] + (b + [y]) + (re + [0.0] + if im.Some? then im.value + [0.0] else [])
    ensures var n := |a|;
            && |file| == (if im.Some? then 4 * n + 4 else 3 * n + 3)
            && (forall k | 0 <= k < n :: file[k] == a[k]) && file[n] == x
            && (forall k | 0 <= k < n :: file[n + 1 + k] == b[k]) && file[2 * n + 1] == y
            && (forall k | 0 <= k < n :: file[2 * n + 2 + k] == re[k]) && file[3 * n + 2] == 0.0
            && (im.Some? ==> (forall k | 0 <= k < n :: file[3 * n + 3 + k] == im.value[k]) && file[4 * n + 3] == 0.0)
  {
  }

  /** Such numbers, with entries column by column, are read as the matrix of these entries. */
  lemma TripletsRead(file: seq<real>, rows: nat, cols: nat, row: seq<nat>, col: seq<nat>, re: seq<real>, im: Option<seq<real>>)
    requires IsTriplets(file, rows, cols, row, col, re, im) && 1 <= |row|
    requires rows < UINT_MAX && cols < UINT_MAX
    requires forall k | 0 <= k < |row| :: 1 <= row[k] <= UINT_MAX
    requires forall k | 0 <= k < |col| :: 1 <= col[k] <= cols
    requires forall i, k | 0 <= i <= k < |col| :: col[i] <= col[k]
    ensures var r := Matrix(|row| + 1, if im.Some? then 4 else 3, file);
            && r.Some? && r.value.rows == rows && r.value.cols == cols && r.value.re == re && r.value.im == im
            && |r.value.ir| == |row| && (forall k | 0 <= k < |row| :: r.value.ir[k] + 1 == row[k])
            && |r.value.jc| == cols + 1 && r.value.jc[0] == 0 && r.value.jc[cols] == |row|
            && InColumns(r.value.jc, col)
  {
    assert 1 <= col[0] <= cols;
    MarksRead(file, rows, cols, row, col, re, im);
    StartsOfColumns(col, cols);
    Assembled(file, rows, cols, row, col, re, im);
    hide *;
  }

  lemma MarksRead(file: seq<real>, rows: nat, cols: nat, row: seq<nat>, col: seq<nat>, re: seq<real>, im: Option<seq<real>>)
    requires IsTriplets(file, rows, cols, row, col, re, im)
    requires rows < UINT_MAX && cols < UINT_MAX
    requires forall k | 0 <= k < |row| :: row[k] <= UINT_MAX
    requires forall k | 0 <= k < |col| :: col[k] <= UINT_MAX
    ensures var n := |row|;
            && ReadU32(file, 0, n) == row && ReadU32(file, n + 1, n) == col
            && ToU32(file[n]) == rows && ToU32(file[2 * n + 1]) == cols
            && IsDimension(file[n]) && IsDimension(file[2 * n + 1])
            && file[2 * n + 2..3 * n + 2] == re && (im.Some? ==> file[3 * n + 3..4 * n + 3] == im.value)
  {
    hide ToU32;
    var n := |row|;
    ToU32Of(rows);
    ToU32Of(cols);
    forall k | 0 <= k < n
      ensures ToU32(file[k]) == row[k] && ToU32(file[n + 1 + k]) == col[k]
    {
      ToU32Of(row[k]);
      ToU32Of(col[k]);
    }
  }

  lemma Assembled(file: seq<real>, rows: nat, cols: nat, row: seq<nat>, col: seq<nat>, re: seq<real>, im: Option<seq<real>>)
    requires |row| == |col| == |re| >= 1 && |file| == (if im.Some? then 4 * |row| + 4 else 3 * |row| + 3)
    requires var n := |row|;
             && ReadU32(file, 0, n) == row && ReadU32(file, n + 1, n) == col
             && ToU32(file[n]) == rows && ToU32(file[2 * n + 1]) == cols
             && IsDimension(file[n]) && IsDimension(file[2 * n + 1])
             && file[2 * n + 2..3 * n + 2] == re && (im.Some? ==> file[3 * n + 3..4 * n + 3] == im.value)
    requires forall k | 0 <= k < |row| :: 1 <= row[k]
    ensures var r := Matrix(|row| + 1, if im.Some? then 4 else 3, file);
            && r.Some? && r.value.rows == rows && r.value.cols == cols && r.value.re == re && r.value.im == im
            && r.value.jc == Starts(col, cols)
            && |r.value.ir| == |row| && (forall k | 0 <= k < |row| :: r.value.ir[k] + 1 == row[k])
  {
    hide ToU32, Starts, IsDimension, ReadU32;
    var n := |row|;
    assert 2 * n + 2 + n == 3 * n + 2 && 2 * n + 2 + n + 1 == 3 * n + 3 && 2 * n + 2 + 2 * n + 1 == 4 * n + 3;
  }

  lemma StartsOfColumns(col: seq<nat>, cols: nat)
    requires 1 <= cols && (forall k | 0 <= k < |col| :: 1 <= col[k] <= cols)
    requires forall i, k | 0 <= i <= k < |col| :: col[i] <= col[k]
    ensures InColumns(Starts(col, cols), col) && Starts(col, cols)[0] == 0
  {
    var jc := Starts(col, cols);
    forall k | 0 <= k < |col|
      ensures jc[col[k] - 1] <= k < jc[col[k]]
    {
      FirstBeyondSorted(col, col[k] - 1, k);
      FirstBeyondSorted(col, col[k], k);
    }
  }

  lemma {:induction false} FirstBeyondSorted(col: seq<nat>, i: nat, k: nat)
    requires k < |col| && forall a, b | 0 <= a <= b < |col| :: col[a] <= col[b]
    ensures k < FirstBeyond(col, i) <==> col[k] <= i
  {
  }

  // ----- The round trip -----

  /** The columns of the triplets give back the column starts, empty columns included. */
  lemma StartsRebuilt(s: Sparse)
    requires Csc(s)
    ensures var m := ColumnMarks(s.jc, s.cols);
            |m| == |s.ir| && Starts(seq(|m|, k requires 0 <= k < |m| => ToU32(m[k])), s.cols) == s.jc
  {
    hide ColumnMarks, ToU32, Double, Starts;
    var m := ColumnMarks(s.jc, s.cols);
    ColumnMarksOrdered(s.jc, s.cols);
    var columns := seq(|m|, k requires 0 <= k < |m| => ToU32(m[k]));
    forall i | 0 <= i < s.cols
      ensures Starts(columns, s.cols)[i] == s.jc[i]
    {
      assert s.jc[i] <= s.jc[s.cols];
      forall k | 0 <= k < |m|
        ensures columns[k] <= i <==> k < s.jc[i]
      {
        var c: nat :| 1 <= c <= s.cols && m[k] == Double(c);
        ToU32Of(c);
        SameOrder(c, i);
      }
      FirstBeyondIs(columns, i, s.jc[i]);
    }
  }

  lemma SameOrder(a: nat, b: nat)
    ensures Double(a) <= Double(b) <==> a <= b
  {
  }

  /** What was written is read back, if and only if there is an entry at all and the number of rows is
      one that is accepted. */
  lemma RoundTrip(s: Sparse)
    requires Csc(s)
    ensures Matrix(|s.ir| + 1, if s.im.Some? then 4 else 3, Triplets(s)) == Some(s)
       <==> |s.ir| >= 1 && s.rows < UINT_MAX
    ensures !(|s.ir| >= 1 && s.rows < UINT_MAX) ==>
      Matrix(|s.ir| + 1, if s.im.Some? then 4 else 3, Triplets(s)) == None
  {
    hide ColumnMarks, Starts, ToU32;
    var n, file := |s.ir|, Triplets(s);
    var m := ColumnMarks(s.jc, s.cols);
    StartsRebuilt(s);
    assert file[..n] == RowMarks(s.ir);
    assert file[n] == Double(s.rows);
    assert file[n + 1..2 * n + 1] == m;
    assert file[2 * n + 1] == Double(s.cols);
    ToU32Of(s.rows);
    ToU32Of(s.cols);
    if n >= 1 {
      forall k | 0 <= k < n
        ensures ToU32(file[k]) == s.ir[k] + 1
      {
        ToU32Of(s.ir[k] + 1);
        assert file[k] == file[..n][k];
      }
      assert ReadU32(file, n + 1, n) == seq(|m|, k requires 0 <= k < |m| => ToU32(m[k])) by {
        forall k | 0 <= k < n
          ensures ToU32(file[n + 1 + k]) == ToU32(m[k])
        {
          assert file[n + 1 + k] == file[n + 1..2 * n + 1][k];
        }
      }
      var marks := ReadU32(file, 0, n);
      assert forall k | 0 <= k < n :: marks[k] == s.ir[k] + 1;
      assert seq(n, k requires 0 <= k < n => if marks[k] == 0 then 0 else marks[k] - 1) == s.ir;
      assert IsDimension(file[n]) <==> s.rows < UINT_MAX;
      assert IsDimension(file[2 * n + 1]);
      var data := 2 * n + 2;
      assert file[data..data + n] == s.re;
      if s.im.Some? {
        assert file[data + n + 1..data + 2 * n + 1] == s.im.value;
      }
    }
  }
}
