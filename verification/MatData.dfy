/** The conversion between the data of the logger's interface and the variables of a file. */
module MatData {
  import opened Common
  import opened Subscripts
  import opened Level5
  import opened Level5RoundTrip
  import L5 = Level5Reader

  /** Doubles are their eight bytes. The fields of a struct are in the order in which they are walked. */
  datatype MatData =
    | Real(value: seq<Byte>)
    | Matrix(rows: nat, cols: nat, elements: seq<Byte>)
    | Characters(text: seq<Byte>)
    | CellArray(elems: seq<MatData>)
    | Structure(fields: seq<(Name, MatData)>)

  ghost predicate Distinct(fields: seq<(Name, MatData)>) {
    forall i, j | 0 <= i < j < |fields| :: fields[i].0 != fields[j].0
  }

  /** What can be handed to the logger: keys of a map, which are C strings, and ASCII text. */
  ghost predicate Valid(d: MatData)
    decreases d
  {
    match d
    case Real(value) => |value| == 8
    case Matrix(rows, cols, elements) => rows < 0x8000_0000 && cols < 0x8000_0000 && |elements| == rows * cols * 8
    case Characters(text) => |text| < 0x8000_0000 && forall k | 0 <= k < |text| :: text[k] < 0x80
    case CellArray(elems) => |elems| < 0x8000_0000 && ValidAll(elems)
    case Structure(fields) => Distinct(fields) && ValidFields(fields)
  }

  ghost predicate ValidAll(elems: seq<MatData>)
    decreases elems
  {
    forall k | 0 <= k < |elems| :: Valid(elems[k])
  }

  ghost predicate ValidFields(fields: seq<(Name, MatData)>)
    decreases fields
  {
    forall k | 0 <= k < |fields| :: ValidField(fields[k])
  }

  ghost predicate ValidField(field: (Name, MatData))
    decreases field
  {
    NulFree(field.0) && Valid(field.1)
  }

  // ----- To a variable -----

  function Plain(cls: nat, dims: seq<nat>): Header {
    Header(cls, false, false, false, 0, dims)
  }

  /** make_matvar. */
  function MakeMatvar(name: Name, d: MatData): MatVar
    decreases d
  {
    match d
    case Real(value) => MatVar(Some(name), Plain(MAT_C_DOUBLE, [1, 1]), Numeric(value, None))
    case Matrix(rows, cols, elements) => MatVar(Some(name), Plain(MAT_C_DOUBLE, [rows, cols]), Numeric(elements, None))
    case Characters(text) => MatVar(Some(name), Plain(MAT_C_CHAR, [1, |text|]), Text(text))
    case CellArray(elems) => MatVar(Some(name), Plain(MAT_C_CELL, [|elems|, 1]), Cells(MakeCells(elems)))
    case Structure(fields) => MatVar(Some(name), Plain(MAT_C_STRUCT, [1, 1]), Struct(Keys(fields), MakeFields(fields)))
  }

  function MakeCells(elems: seq<MatData>): (r: seq<Option<MatVar>>)
    ensures |r| == |elems|
    decreases elems
  {
    if elems == [] then [] else [Some(MakeMatvar([], elems[0]))] + MakeCells(elems[1..])
  }

  function Keys(fields: seq<(Name, MatData)>): (r: seq<Name>)
    ensures |r| == |fields| && forall k | 0 <= k < |fields| :: r[k] == fields[k].0
  {
    seq(|fields|, k requires 0 <= k < |fields| => fields[k].0)
  }

  function MakeFields(fields: seq<(Name, MatData)>): (r: seq<Option<MatVar>>)
    ensures |r| == |fields|
    decreases fields
  {
    if fields == [] then [] else [Some(MakeField(fields[0]))] + MakeFields(fields[1..])
  }

  function MakeField(field: (Name, MatData)): MatVar
    decreases field
  {
    MakeMatvar(field.0, field.1)
  }

  /** The place of the first field with this name. */
  function Find(names: seq<Name>, name: Name): (i: nat)
    ensures i <= |names|
    ensures i < |names| ==> names[i] == name
    ensures forall k | 0 <= k < i :: names[k] != name
  {
    if names == [] || names[0] == name then 0 else 1 + Find(names[1..], name)
  }

  method FindField(names: seq<Name>, name: Name) returns (i: nat)
    ensures i == Find(names, name)
  {
    i := 0;
    while i < |names| && names[i] != name
      invariant i <= |names| && i + Find(names[i..], name) == Find(names, name)
    {
      assert names[i..][1..] == names[i + 1..];
      i := i + 1;
    }
    assert i == |names| ==> names[i..] == [];
  }

  lemma {:induction false} MakeFieldsAt(fields: seq<(Name, MatData)>, k: nat)
    requires k < |fields|
    ensures MakeFields(fields)[k] == Some(MakeField(fields[k]))
    decreases |fields|
  {
    if k > 0 {
      MakeFieldsAt(fields[1..], k - 1);
    }
  }

  /** make_struct_matvar: an empty struct whose fields are then set one by one, by their names. */
  method MakeStructMatvar(name: Name, fields: seq<(Name, MatData)>) returns (v: MatVar)
    requires Distinct(fields)
    ensures v == MakeMatvar(name, Structure(fields))
  {
    hide MakeMatvar;
    var names := Keys(fields);
    var slots: seq<Option<MatVar>> := seq(|fields|, _ => None);
    var i := 0;
    while i < |fields|
      invariant 0 <= i <= |fields| == |slots|
      invariant forall k | 0 <= k < i :: slots[k] == Some(MakeField(fields[k]))
    {
      var at := FindField(names, fields[i].0);
      assert at == i;
      slots := slots[at := Some(MakeField(fields[i]).(name := Some(names[at])))];
      MadeName(fields[i]);
      i := i + 1;
    }
    forall k | 0 <= k < |fields|
      ensures slots[k] == MakeFields(fields)[k]
    {
      MakeFieldsAt(fields, k);
    }
    assert slots == MakeFields(fields);
    v := MatVar(Some(name), Plain(MAT_C_STRUCT, [1, 1]), Struct(names, slots));
    MadeStruct(name, fields);
  }

  lemma MadeName(field: (Name, MatData))
    ensures MakeField(field).name == Some(field.0)
  {
  }

  lemma MadeStruct(name: Name, fields: seq<(Name, MatData)>)
    ensures MakeMatvar(name, Structure(fields))
         == MatVar(Some(name), Plain(MAT_C_STRUCT, [1, 1]), Struct(Keys(fields), MakeFields(fields)))
  {
  }

  // ----- From a variable -----

  /** `ok` is false after an error, and the data are those that could be converted. */
  datatype Outcome = Outcome(ok: bool, d: MatData)

  const Default := Outcome(false, Real([0, 0, 0, 0, 0, 0, 0, 0]))

  /** make_matdata. A missing child counts as an error. */
  function MakeMatdata(v: MatVar): Outcome
    decreases v
  {
    var dims := v.header.dims;
    if |dims| < 2 then Default
    else match v.data
      case Numeric(re, _) =>
        if v.header.cls != MAT_C_DOUBLE then Default
        else Outcome(true, Matrix(dims[0], dims[1] * (if |dims| == 3 then dims[2] else 1), re))
      case Text(text) =>
        if v.header.cls != MAT_C_CHAR || dims[0] != 1 || dims[1] > |text| then Default else Outcome(true, Characters(text[..dims[1]]))
      case Cells(cells) =>
        if v.header.cls != MAT_C_CELL then Default else
          var n := if dims[0] != 1 then dims[0] else dims[1];
          if n > |cells| then Default else
            var (ok, elems) := MakeElems(cells, n);
            Outcome(ok && (dims[0] == 1 || dims[1] == 1), CellArray(elems))
      case Struct(names, fields) =>
        if v.header.cls != MAT_C_STRUCT then Default else
          var (ok, elems) := MakeElems(fields, |fields|);
          var (ok', r) := MakeNamed(names, 0, elems);
          Outcome(ok && ok', Structure(r))
      case _ => Default
  }

  function MakeChild(child: Option<MatVar>): Outcome
    decreases child
  {
    if child.None? then Default else MakeMatdata(child.value)
  }

  /** The first `n` children. */
  function MakeElems(children: seq<Option<MatVar>>, n: nat): (r: (bool, seq<MatData>))
    requires n <= |children|
    ensures |r.1| == n
    decreases children
  {
    if n == 0 then (true, []) else
      var first := MakeChild(children[0]);
      var (ok, rest) := MakeElems(children[1..], n - 1);
      (first.ok && ok, [first.d] + rest)
  }

  /** For each name from `i` on, unless it came before: the first field of that name. */
  function MakeNamed(names: seq<Name>, i: nat, elems: seq<MatData>): (bool, seq<(Name, MatData)>)
    decreases |names| - i
  {
    if i >= |names| then (true, []) else
      var at := Find(names, names[i]);
      var (ok, rest) := MakeNamed(names, i + 1, elems);
      if at < i then (ok, rest)
      else if at >= |elems| then (false, rest)
      else (ok, [(names[i], elems[at])] + rest)
  }

  method MakeNamedFields(names: seq<Name>, elems: seq<MatData>) returns (ok: bool, r: seq<(Name, MatData)>)
    ensures (ok, r) == MakeNamed(names, 0, elems)
  {
    ok, r := true, [];
    var i := 0;
    while i < |names|
      invariant 0 <= i <= |names|
      invariant (ok && MakeNamed(names, i, elems).0) == MakeNamed(names, 0, elems).0
      invariant r + MakeNamed(names, i, elems).1 == MakeNamed(names, 0, elems).1
    {
      var at := FindField(names, names[i]);
      ghost var before, rest := r, MakeNamed(names, i + 1, elems).1;
      if at >= i {
        if at < |elems| {
          r := r + [(names[i], elems[at])];
          assert before + ([(names[i], elems[at])] + rest) == r + rest;
        } else {
          ok := false;
        }
      }
      i := i + 1;
    }
    assert r + [] == r;
  }

  // ----- Element by element -----

  /** Number `p` of an array of doubles. */
  function DoubleAt(bytes: seq<Byte>, p: nat): (r: seq<Byte>)
    requires 8 * p + 8 <= |bytes|
    ensures |r| == 8
  {
    bytes[8 * p..8 * p + 8]
  }

  /** The element of a matrix in row `i` and column `j`: its columns follow each other. */
  function Entry(m: MatData, i: nat, j: nat): seq<Byte>
    requires m.Matrix? && |m.elements| == m.rows * m.cols * 8 && i < m.rows && j < m.cols
  {
    EntryInside(m.rows, m.cols, i, j);
    DoubleAt(m.elements, i + m.rows * j)
  }

  lemma EntryInside(rows: nat, cols: nat, i: nat, j: nat)
    requires i < rows && j < cols
    ensures 0 <= i + rows * j < rows * cols
  {
    NonNegative(rows, j);
    Monotone(rows, j + 1, cols);
  }

  lemma TwoSubscripts(a: nat, b: nat, i: int, j: int)
    ensures Prod([a, b]) == a * b && Linear([a, b], [i, j]) == i + a * j
  {
    TwoDims(a, b);
    assert [a, b][..1] == [a] && [i, j][..1] == [i] && [a][..0] == [] && [i][..0] == [];
    assert Linear([], []) == 0 && Prod([]) == 1 && Prod([a]) == a;
  }

  lemma ThreeSubscripts(a: nat, b: nat, c: nat, i: int, j: int, k: int)
    ensures Prod([a, b, c]) == a * b * c && Linear([a, b, c], [i, j, k]) == i + a * j + a * b * k
  {
    hide Linear, Prod;
    TwoSubscripts(a, b, i, j);
    LinearStep([a, b, c], [i, j, k], 2);
    ProdStep([a, b, c], 2);
    assert [a, b, c][..2] == [a, b] && [a, b, c][..3] == [a, b, c];
    assert [i, j, k][..2] == [i, j] && [i, j, k][..3] == [i, j, k];
  }

  /** Of a variable with these dims, the element with these subscripts. */
  ghost predicate StoredAt(v: MatVar, subs: seq<int>, x: seq<Byte>) {
    && v.data.Numeric? && InRange(v.header.dims, subs)
    && var p := Linear(v.header.dims, subs);
       0 <= p && 8 * p + 8 <= |v.data.re| && DoubleAt(v.data.re, p) == x
  }

  /** A matrix becomes a variable with as many rows and columns, real and of doubles, and every element
      stands at its subscripts. */
  lemma MatrixMade(name: Name, m: MatData)
    requires m.Matrix? && Valid(m)
    ensures var v := MakeMatvar(name, m);
            && v.name == Some(name) && v.data.Numeric? && v.data.im == None
            && v.header == Header(6, false, false, false, 0, [m.rows, m.cols])
            && |v.data.re| == Prod(v.header.dims) * 8
            && forall i: nat, j: nat | i < m.rows && j < m.cols :: StoredAt(v, [i, j], Entry(m, i, j))
  {
    hide Linear, Prod;
    var v := MakeMatvar(name, m);
    TwoDims(m.rows, m.cols);
    TwoSubscripts(m.rows, m.cols, 0, 0);
    forall i: nat, j: nat | i < m.rows && j < m.cols
      ensures StoredAt(v, [i, j], Entry(m, i, j))
    {
      TwoSubscripts(m.rows, m.cols, i, j);
      EntryInside(m.rows, m.cols, i, j);
    }
  }

  /** A single number becomes one of one row and one column. */
  lemma NumberMade(name: Name, value: seq<Byte>)
    requires |value| == 8
    ensures var v := MakeMatvar(name, Real(value));
            && v.name == Some(name) && v.header == Header(6, false, false, false, 0, [1, 1])
            && v.data == Numeric(value, None) && StoredAt(v, [0, 0], value)
  {
    hide Linear, Prod;
    TwoSubscripts(1, 1, 0, 0);
  }

  /** Text becomes a row of characters. */
  lemma TextMade(name: Name, text: seq<Byte>)
    ensures var v := MakeMatvar(name, Characters(text));
            && v.name == Some(name) && v.header == Header(4, false, false, false, 0, [1, |text|]) && v.data == Text(text)
  {
  }

  /** A cell array becomes a column of variables without a name. */
  lemma CellsMade(name: Name, elems: seq<MatData>)
    ensures var v := MakeMatvar(name, CellArray(elems));
            && v.name == Some(name) && v.header == Header(1, false, false, false, 0, [|elems|, 1])
            && v.data.Cells? && |v.data.cells| == |elems|
            && forall k | 0 <= k < |elems| :: v.data.cells[k] == Some(MakeMatvar([], elems[k]))
  {
    hide MakeMatvar;
    CellArrayMade(name, elems);
    forall k | 0 <= k < |elems|
      ensures MakeCells(elems)[k] == Some(MakeMatvar([], elems[k]))
    {
      MakeCellsAt(elems, k);
    }
  }

  lemma CellArrayMade(name: Name, elems: seq<MatData>)
    ensures MakeMatvar(name, CellArray(elems)) == MatVar(Some(name), Plain(MAT_C_CELL, [|elems|, 1]), Cells(MakeCells(elems)))
  {
  }

  lemma {:induction false} MakeCellsAt(elems: seq<MatData>, k: nat)
    requires k < |elems|
    ensures MakeCells(elems)[k] == Some(MakeMatvar([], elems[k]))
    decreases |elems|
  {
    hide MakeMatvar;
    if k > 0 {
      MakeCellsAt(elems[1..], k - 1);
    }
  }

  /** A struct becomes a single struct whose fields have their keys for names. */
  lemma StructMade(name: Name, fields: seq<(Name, MatData)>)
    ensures var v := MakeMatvar(name, Structure(fields));
            && v.name == Some(name) && v.header == Header(2, false, false, false, 0, [1, 1])
            && v.data.Struct? && |v.data.fieldNames| == |v.data.fields| == |fields|
            && forall k | 0 <= k < |fields| ::
                 v.data.fieldNames[k] == fields[k].0 && v.data.fields[k] == Some(MakeMatvar(fields[k].0, fields[k].1))
  {
    hide MakeMatvar;
    MadeStruct(name, fields);
    forall k | 0 <= k < |fields|
      ensures MakeFields(fields)[k] == Some(MakeMatvar(fields[k].0, fields[k].1))
    {
      MakeFieldsAt(fields, k);
    }
  }

  /** A variable of doubles of two dimensions is read as a matrix of as many rows and columns. */
  lemma MatrixRead2(v: MatVar)
    requires v.header.cls == 6 && |v.header.dims| == 2 && v.data.Numeric? && |v.data.re| == Prod(v.header.dims) * 8
    ensures var (r, d) := (MakeMatdata(v), v.header.dims);
            && r.ok && r.d.Matrix? && r.d.rows == d[0] && r.d.cols == d[1] && |r.d.elements| == d[0] * d[1] * 8
            && forall i: nat, j: nat | i < d[0] && j < d[1] :: StoredAt(v, [i, j], Entry(r.d, i, j))
  {
    hide Linear, Prod;
    var d := v.header.dims;
    var m := MakeMatdata(v).d;
    assert d == [d[0], d[1]];
    TwoSubscripts(d[0], d[1], 0, 0);
    forall i: nat, j: nat | i < d[0] && j < d[1]
      ensures StoredAt(v, [i, j], Entry(m, i, j))
    {
      TwoSubscripts(d[0], d[1], i, j);
      EntryInside(d[0], d[1], i, j);
    }
  }

  /** One of three dimensions is read with its slices side by side. */
  lemma MatrixRead3(v: MatVar)
    requires v.header.cls == 6 && |v.header.dims| == 3 && v.data.Numeric? && |v.data.re| == Prod(v.header.dims) * 8
    ensures var (r, d) := (MakeMatdata(v), v.header.dims);
            && r.ok && r.d.Matrix? && r.d.rows == d[0] && r.d.cols == d[1] * d[2] && |r.d.elements| == r.d.rows * r.d.cols * 8
            && forall i: nat, j: nat, k: nat | i < d[0] && j < d[1] && k < d[2] ::
                 0 <= j + d[1] * k < r.d.cols && StoredAt(v, [i, j, k], Entry(r.d, i, j + d[1] * k))
  {
    hide Linear, Prod;
    var d := v.header.dims;
    var m := MakeMatdata(v).d;
    assert d == [d[0], d[1], d[2]];
    ThreeSubscripts(d[0], d[1], d[2], 0, 0, 0);
    Associate(d[0], d[1], d[2]);
    forall i: nat, j: nat, k: nat | i < d[0] && j < d[1] && k < d[2]
      ensures 0 <= j + d[1] * k < m.cols && StoredAt(v, [i, j, k], Entry(m, i, j + d[1] * k))
    {
      ThreeSubscripts(d[0], d[1], d[2], i, j, k);
      EntryInside(d[1], d[2], j, k);
      EntryInside(d[0], d[1] * d[2], i, j + d[1] * k);
      SlicesBeside(d[0], d[1], i, j, k);
    }
  }

  lemma Associate(x: int, y: int, z: int)
    ensures x * y * z == x * (y * z)
  {
  }

  lemma SlicesBeside(a: int, b: int, i: int, j: int, k: int)
    ensures i + a * j + a * b * k == i + a * (j + b * k)
  {
    Associate(a, b, k);
  }

  /** A column or a row of cells is read as the sequence of its cells, and without error if and only if
      each of them is. */
  lemma CellsRead(v: MatVar, n: nat)
    requires v.header.cls == 1 && v.data.Cells? && |v.data.cells| == n
    requires v.header.dims == [n, 1] || v.header.dims == [1, n]
    ensures var r := MakeMatdata(v);
            && r.d.CellArray? && |r.d.elems| == n
            && (forall k | 0 <= k < n :: r.d.elems[k] == MakeChild(v.data.cells[k]).d)
            && (r.ok <==> forall k | 0 <= k < n :: MakeChild(v.data.cells[k]).ok)
  {
    hide MakeMatdata, MakeChild;
    CellsAsRead(v);
    ElemsRead(v.data.cells, n);
  }

  lemma CellsAsRead(v: MatVar)
    requires v.header.cls == 1 && v.data.Cells?
    requires v.header.dims == [|v.data.cells|, 1] || v.header.dims == [1, |v.data.cells|]
    ensures var (ok, elems) := MakeElems(v.data.cells, |v.data.cells|);
            MakeMatdata(v) == Outcome(ok, CellArray(elems))
  {
  }

  lemma {:induction false} ElemsRead(children: seq<Option<MatVar>>, n: nat)
    requires n <= |children|
    ensures var (ok, elems) := MakeElems(children, n);
            && (forall k | 0 <= k < n :: elems[k] == MakeChild(children[k]).d)
            && (ok <==> forall k | 0 <= k < n :: MakeChild(children[k]).ok)
    decreases n
  {
    hide MakeChild;
    if n > 0 {
      ElemsRead(children[1..], n - 1);
      assert forall k | 0 < k < n :: children[k] == children[1..][k - 1];
    }
  }

  /** A struct is read as what its names are first found with. */
  lemma StructRead(v: MatVar)
    requires v.header.cls == 2 && |v.header.dims| >= 2 && v.data.Struct? && |v.data.fields| == |v.data.fieldNames|
    requires forall a, b | 0 <= a < b < |v.data.fieldNames| :: v.data.fieldNames[a] != v.data.fieldNames[b]
    ensures var r := MakeMatdata(v);
            && r.d.Structure? && |r.d.fields| == |v.data.fields|
            && (forall k | 0 <= k < |v.data.fields| :: r.d.fields[k] == (v.data.fieldNames[k], MakeChild(v.data.fields[k]).d))
            && (r.ok <==> forall k | 0 <= k < |v.data.fields| :: MakeChild(v.data.fields[k]).ok)
  {
    hide MakeChild;
    var names, n := v.data.fieldNames, |v.data.fields|;
    var elems := MakeElems(v.data.fields, n).1;
    ElemsRead(v.data.fields, n);
    var pairs := seq(n, k requires 0 <= k < n => (names[k], elems[k]));
    assert Keys(pairs) == names;
    NamedInOrder(pairs, 0, elems);
    var r := MakeNamed(names, 0, elems).1;
    forall k | 0 <= k < n
      ensures r[k] == (names[k], elems[k])
    {
      assert r[k - 0] == (pairs[k].0, elems[k]);
    }
  }

  /** A row of text is read as its characters. */
  lemma TextRead(v: MatVar)
    requires v.header.cls == 4 && |v.header.dims| >= 2 && v.header.dims[0] == 1 && v.data.Text? && v.header.dims[1] <= |v.data.text|
    ensures var r := MakeMatdata(v);
            r.ok && r.d.Characters? && |r.d.text| == v.header.dims[1] && r.d.text <= v.data.text
  {
  }

  // ----- Round trips -----

  /** A single number becomes a matrix of one row and one column. */
  function Widened(d: MatData): MatData
    decreases d
  {
    match d
    case Real(value) => Matrix(1, 1, value)
    case CellArray(elems) => CellArray(WidenedAll(elems))
    case Structure(fields) => Structure(WidenedFields(fields))
    case _ => d
  }

  function WidenedAll(elems: seq<MatData>): (r: seq<MatData>)
    ensures |r| == |elems|
    decreases elems
  {
    if elems == [] then [] else [Widened(elems[0])] + WidenedAll(elems[1..])
  }

  function WidenedFields(fields: seq<(Name, MatData)>): (r: seq<(Name, MatData)>)
    ensures |r| == |fields|
    decreases fields
  {
    if fields == [] then [] else [WidenedField(fields[0])] + WidenedFields(fields[1..])
  }

  function WidenedField(field: (Name, MatData)): (Name, MatData)
    decreases field
  {
    (field.0, Widened(field.1))
  }

  /** Names that differ are found where they are. */
  lemma FindDistinct(names: seq<Name>, i: nat)
    requires i < |names| && forall a, b | 0 <= a < b < |names| :: names[a] != names[b]
    ensures Find(names, names[i]) == i
  {
  }

  lemma {:induction false} NamedInOrder(fields: seq<(Name, MatData)>, i: nat, elems: seq<MatData>)
    requires Distinct(fields) && i <= |fields| == |elems|
    ensures var (ok, r) := MakeNamed(Keys(fields), i, elems);
            && ok && |r| == |fields| - i
            && forall k | i <= k < |fields| :: r[k - i] == (fields[k].0, elems[k])
    decreases |fields| - i
  {
    if i < |fields| {
      FindDistinct(Keys(fields), i);
      NamedInOrder(fields, i + 1, elems);
      var r, rest := MakeNamed(Keys(fields), i, elems).1, MakeNamed(Keys(fields), i + 1, elems).1;
      assert r == [(fields[i].0, elems[i])] + rest;
      forall k | i <= k < |fields|
        ensures r[k - i] == (fields[k].0, elems[k])
      {
        if k > i {
          assert r[k - i] == rest[k - (i + 1)];
        }
      }
    }
  }

  lemma {:induction false} ConvertedBack(name: Name, d: MatData)
    requires Valid(d)
    ensures MakeMatdata(MakeMatvar(name, d)) == Outcome(true, Widened(d))
    decreases d
  {
    match d
    case CellArray(elems) => {
      CellsConvertedBack(elems);
    }
    case Structure(fields) => {
      FieldsConvertedBack(fields);
      var elems := MakeElems(MakeFields(fields), |fields|).1;
      NamedInOrder(fields, 0, elems);
      var r := MakeNamed(Keys(fields), 0, elems).1;
      forall k | 0 <= k < |fields|
        ensures r[k] == WidenedFields(fields)[k]
      {
        assert r[k - 0] == (fields[k].0, elems[k]);
      }
      assert r == WidenedFields(fields);
    }
    case _ =>
  }

  lemma {:induction false} CellsConvertedBack(elems: seq<MatData>)
    requires ValidAll(elems)
    ensures MakeElems(MakeCells(elems), |elems|) == (true, WidenedAll(elems))
    decreases elems
  {
    if elems != [] {
      ConvertedBack([], elems[0]);
      CellsConvertedBack(elems[1..]);
    }
  }

  lemma {:induction false} FieldConvertedBack(field: (Name, MatData))
    requires ValidField(field)
    ensures MakeMatdata(MakeField(field)) == Outcome(true, Widened(field.1))
    decreases field
  {
    ConvertedBack(field.0, field.1);
  }

  lemma {:induction false} FieldsConvertedBack(fields: seq<(Name, MatData)>)
    requires ValidFields(fields)
    ensures var (ok, elems) := MakeElems(MakeFields(fields), |fields|);
            ok && WidenedFields(fields) == seq(|fields|, k requires 0 <= k < |fields| => (fields[k].0, elems[k]))
    decreases fields
  {
    if fields != [] {
      FieldConvertedBack(fields[0]);
      FieldsConvertedBack(fields[1..]);
    }
  }

  // ----- Through a file -----

  lemma TwoDims(a: nat, b: nat)
    ensures MulDims([a, b]) == a * b
  {
    assert [a, b][..1] == [a] && [a][..0] == [];
    assert Prod([]) == 1;
    assert Prod([a]) == a;
  }

  /** Every variable that is made can be stored. */
  lemma {:induction false} MadeIsStorable(name: Name, d: MatData)
    requires Valid(d) && NulFree(name)
    ensures Storable(MakeMatvar(name, d)) && MakeMatvar(name, d).header.cls != MAT_C_EMPTY
    decreases d
  {
    hide Prod;
    match d
    case Real(value) => {
      TwoDims(1, 1);
    }
    case Matrix(rows, cols, elements) => {
      TwoDims(rows, cols);
    }
    case Characters(text) => {
      TwoDims(1, |text|);
    }
    case CellArray(elems) => {
      TwoDims(|elems|, 1);
      CellsAreStorable(elems);
    }
    case Structure(fields) => {
      TwoDims(1, 1);
      FieldsAreStorable(fields);
    }
  }

  lemma {:induction false} CellsAreStorable(elems: seq<MatData>)
    requires ValidAll(elems)
    ensures StorableCells(MakeCells(elems))
    decreases elems
  {
    if elems != [] {
      MadeIsStorable([], elems[0]);
      CellsAreStorable(elems[1..]);
      var cells, rest := MakeCells(elems), MakeCells(elems[1..]);
      forall k | 0 <= k < |cells|
        ensures cells[k].Some? && StorableChild(cells[k])
      {
        if k > 0 {
          assert cells[k] == rest[k - 1];
        }
      }
    }
  }

  lemma {:induction false} FieldIsStorable(field: (Name, MatData))
    requires ValidField(field)
    ensures StorableChild(Some(MakeField(field)))
    decreases field
  {
    MadeIsStorable(field.0, field.1);
  }

  lemma {:induction false} FieldsAreStorable(fields: seq<(Name, MatData)>)
    requires ValidFields(fields)
    ensures StorableFields(MakeFields(fields))
    decreases fields
  {
    hide MakeField, StorableChild;
    if fields != [] {
      FieldIsStorable(fields[0]);
      FieldsAreStorable(fields[1..]);
      var made, rest := MakeFields(fields), MakeFields(fields[1..]);
      forall k | 0 <= k < |made|
        ensures StorableChild(made[k])
      {
        if k > 0 {
          assert made[k] == rest[k - 1];
        }
      }
    }
  }

  /** What reading changes, the names, makes no difference. */
  lemma {:induction false} NamesIgnored(name: Name, d: MatData, other: Option<Name>)
    requires Valid(d)
    ensures MakeMatdata(Normalised(MakeMatvar(name, d), other)) == MakeMatdata(MakeMatvar(name, d))
    decreases d
  {
    hide MakeNamed, MakeElems, NormalisedCells, NormalisedFields, MakeCells, MakeFields, Find;
    match d
    case CellArray(elems) => {
      CellNamesIgnored(elems);
    }
    case Structure(fields) => {
      if fields == [] {
        NoFields();
      } else {
        FieldNamesIgnored(Keys(fields), 0, fields);
      }
    }
    case _ =>
  }

  lemma NoFields()
    ensures NormalisedFields([], 0, []) == [] && MakeFields([]) == []
  {
  }

  lemma {:induction false} CellNamesIgnored(elems: seq<MatData>)
    requires ValidAll(elems)
    ensures MakeElems(NormalisedCells(MakeCells(elems)), |elems|) == MakeElems(MakeCells(elems), |elems|)
    decreases elems
  {
    if elems != [] {
      NamesIgnored([], elems[0], None);
      CellNamesIgnored(elems[1..]);
      assert MakeCells(elems)[1..] == MakeCells(elems[1..]);
      assert NormalisedCells(MakeCells(elems))[1..] == NormalisedCells(MakeCells(elems[1..]));
    }
  }

  lemma {:induction false} FieldNameIgnored(field: (Name, MatData), name: Option<Name>)
    requires ValidField(field)
    ensures MakeMatdata(Normalised(MakeField(field), name)) == MakeMatdata(MakeField(field))
    decreases field
  {
    NamesIgnored(field.0, field.1, name);
  }

  lemma {:induction false} FieldNamesIgnored(names: seq<Name>, i: nat, fields: seq<(Name, MatData)>)
    requires ValidFields(fields) && names != []
    ensures MakeElems(NormalisedFields(names, i, MakeFields(fields)), |fields|) == MakeElems(MakeFields(fields), |fields|)
    decreases fields
  {
    hide MakeField, MakeMatdata, Normalised;
    if fields != [] {
      FieldNameIgnored(fields[0], Some(names[i % |names|]));
      FieldNamesIgnored(names, i + 1, fields[1..]);
      assert MakeFields(fields)[1..] == MakeFields(fields[1..]);
      assert NormalisedFields(names, i, MakeFields(fields))[1..] == NormalisedFields(names, i + 1, MakeFields(fields[1..]));
    }
  }

  /** For a struct without fields there is no memory. */
  predicate HasData(v: MatVar) {
    match v.data
    case NoData => false
    case At(_) => false
    case Struct(_, fields) => fields != []
    case _ => true
  }

  /** MatioBackend::read_container, at the place where the variable is. */
  function ReadContainer(file: seq<Byte>, pos: nat): Outcome {
    var v := L5.ReadVariable(file, pos).0;
    if v.None? || !HasData(v.value) then Default else MakeMatdata(v.value)
  }

  /** What was handed over to be written is read back from the file, single numbers as matrices; and
      only a struct without fields is not. */
  lemma ContainerRoundTrip(file: seq<Byte>, pos: nat, name: Name, d: MatData)
    requires Valid(d) && NulFree(name)
    requires Has(file, pos, Encode(name, MakeMatvar(name, d))) && |Encode(name, MakeMatvar(name, d))| < 0x8000_0000
    ensures var r := ReadContainer(file, pos);
            && (r.ok <==> d != Structure([]))
            && (r.ok ==> r.d == Widened(d))
  {
    hide Has, Encode, Storable, L5.ReadVariable, MakeMatdata;
    var v := MakeMatvar(name, d);
    MadeIsStorable(name, d);
    RoundTrip(file, pos, name, v);
    NamesIgnored(name, d, Some(name));
    ConvertedBack(name, d);
  }
}
