/** The element structure of Level 5 MAT files, uncompressed and in little-endian order: variables, and
    the bytes that stand for them. */
module Level5 {
  import opened Common
  import opened Subscripts

  type Byte = x: int | 0 <= x < 256

  // The data types and the classes.
  const MAT_T_INT8 := 1
  const MAT_T_INT32 := 5
  const MAT_T_UINT32 := 6
  const MAT_T_DOUBLE := 9
  const MAT_T_MATRIX := 14
  const MAT_T_UTF8 := 16

  const MAT_C_EMPTY := 0
  const MAT_C_CELL := 1
  const MAT_C_STRUCT := 2
  const MAT_C_CHAR := 4
  const MAT_C_SPARSE := 5
  const MAT_C_DOUBLE := 6
  const MAT_C_UINT64 := 15
  const MAT_C_OPAQUE := 17

  /** The size of an element of a numeric class. */
  function SizeOfClass(cls: nat): (size: nat)
  {
    match cls
    case 6 => 8
    case 7 => 4
    case 8 => 1
    case 9 => 1
    case 10 => 2
    case 11 => 2
    case 12 => 4
    case 13 => 4
    case 14 => 8
    case 15 => 8
    case _ => 0
  }

  /** The data type in which a numeric class is stored. */
  function TypeOfClass(cls: nat): nat {
    match cls
    case 6 => MAT_T_DOUBLE
    case 7 => 7
    case 8 => 1
    case 9 => 2
    case 10 => 3
    case 11 => 4
    case 12 => MAT_T_INT32
    case 13 => MAT_T_UINT32
    case 14 => 12
    case 15 => 13
    case _ => 0
  }

  predicate IsNumeric(cls: nat) {
    MAT_C_DOUBLE <= cls <= MAT_C_UINT64
  }

  type Name = seq<Byte>

  /** nzmax: the room for entries in a sparse matrix, otherwise 0. */
  datatype Header = Header(cls: nat, complex: bool, global: bool, logical: bool, nzmax: nat, dims: seq<nat>)

  /** At: the data begin at this place in the file and have not been read yet. */
  datatype Data =
    | NoData
    | At(datapos: nat)
    | Numeric(re: seq<Byte>, im: Option<seq<Byte>>)
    | Text(text: seq<Byte>)
    | Sparse(ir: seq<nat>, jc: seq<nat>, values: seq<Byte>, imag: Option<seq<Byte>>)
    | Cells(cells: seq<Option<MatVar>>)
    | Struct(fieldNames: seq<Name>, fields: seq<Option<MatVar>>)

  datatype MatVar = MatVar(name: Option<Name>, header: Header, data: Data)

  /** The number of elements. */
  function MulDims(dims: seq<nat>): nat {
    if dims == [] then 0 else Prod(dims)
  }

  predicate Words32(ws: seq<nat>) {
    forall k | 0 <= k < |ws| :: ws[k] < 0x1_0000_0000
  }

  predicate NzmaxOk(h: Header) {
    h.nzmax < 0x1_0000_0000 && (h.cls != MAT_C_SPARSE ==> h.nzmax == 0)
  }

  predicate NulFree(name: Name) {
    forall k | 0 <= k < |name| :: name[k] != 0
  }

  /** What can be stored, apart from sizes: numeric, text, sparse, cell and struct variables all of whose
      data are present, of as many elements as the dims say. A character of text takes one byte or more.
      Sparse matrices are of doubles and not logical. Fields of a struct may be missing. */
  predicate Storable(v: MatVar)
    decreases v
  {
    && v.header.dims != [] && Words32(v.header.dims) && NzmaxOk(v.header)
    && (v.name.Some? ==> NulFree(v.name.value))
    && var n := MulDims(v.header.dims);
       match v.data
       case Numeric(re, im) =>
         && IsNumeric(v.header.cls)
         && |re| == n * SizeOfClass(v.header.cls)
         && (v.header.complex <==> im.Some?)
         && (im.Some? ==> |im.value| == |re|)
       case Text(text) =>
         && v.header.cls == MAT_C_CHAR
         && !v.header.complex
         && n <= |text|
       case Sparse(ir, jc, values, imag) =>
         && v.header.cls == MAT_C_SPARSE
         && !v.header.logical
         && Words32(ir) && Words32(jc)
         && |values| % 8 == 0
         && (v.header.complex <==> imag.Some?)
         && (imag.Some? ==> |imag.value| == |values|)
       case Cells(cells) =>
         && v.header.cls == MAT_C_CELL
         && |cells| == n
         && StorableCells(cells)
       case Struct(fieldNames, fields) =>
         && v.header.cls == MAT_C_STRUCT
         && |fields| == n * |fieldNames|
         && (forall k | 0 <= k < |fieldNames| :: NulFree(fieldNames[k]))
         && StorableFields(fields)
       case _ => false
  }

  predicate StorableCells(cells: seq<Option<MatVar>>)
    decreases cells
  {
    forall k | 0 <= k < |cells| :: cells[k].Some? && StorableChild(cells[k])
  }

  predicate StorableChild(child: Option<MatVar>)
    decreases child
  {
    child.Some? ==> child.value.header.cls == MAT_C_EMPTY || Storable(child.value)
  }

  predicate StorableFields(fields: seq<Option<MatVar>>)
    decreases fields
  {
    forall k | 0 <= k < |fields| :: StorableChild(fields[k])
  }

  // ----- Bytes -----

  /** A 32-bit number. */
  function Le32(n: nat): (r: seq<Byte>)
    ensures |r| == 4
  {
    [n % 256, n / 256 % 256, n / 65536 % 256, n / 16777216 % 256]
  }

  function U32(b: seq<Byte>): (n: nat)
    requires |b| == 4
    ensures n < 0x1_0000_0000
  {
    (b[0] as int) + (b[1] as int) * 256 + (b[2] as int) * 65536 + (b[3] as int) * 16777216
  }

  lemma U32OfLe32(n: nat)
    requires n < 0x1_0000_0000
    ensures U32(Le32(n)) == n
  {
    var a, b, c := n / 256, n / 65536, n / 16777216;
    assert n == 256 * a + n % 256;
    assert b == a / 256 && a == 256 * b + a % 256;
    assert c == b / 256 && b == 256 * c + b % 256;
  }

  function Zeros(n: nat): (z: seq<Byte>)
    ensures |z| == n
  {
    seq<Byte>(n, _ => 0)
  }

  /** What is missing to a multiple of 8. */
  function Pad8(n: nat): (p: nat)
    ensures (n + p) % 8 == 0 && p < 8
  {
    (8 - n % 8) % 8
  }

  function Tag(datatype_: nat, size: nat): (r: seq<Byte>)
    ensures |r| == 8
  {
    Le32(datatype_) + Le32(size)
  }

  function Block(datatype_: nat, data: seq<Byte>): seq<Byte> {
    Tag(datatype_, |data|) + data + Zeros(Pad8(|data|))
  }

  // ----- The encoding -----

  function Flags(h: Header): nat {
    h.cls % 256 + (if h.complex then 0x800 else 0) + (if h.global then 0x400 else 0) + (if h.logical then 0x200 else 0)
  }

  function Words(dims: seq<nat>): (r: seq<Byte>)
    ensures |r| == 4 * |dims|
  {
    if dims == [] then [] else Le32(dims[0]) + Words(dims[1..])
  }

  /** Array flags, rank and dimensions. */
  function Head(h: Header): seq<Byte> {
    Tag(MAT_T_UINT32, 8) + (Le32(Flags(h)) + Le32(h.nzmax)) + Tag(MAT_T_INT32, 4 * |h.dims|)
      + (Words(h.dims) + Zeros(4 * (|h.dims| % 2)))
  }

  const NoName: seq<Byte> := Tag(MAT_T_INT8, 0)

  /** Up to four characters are packed in the tag. */
  function NameBytes(name: Name): seq<Byte> {
    if |name| <= 4 then Le32(MAT_T_INT8 + |name| * 65536) + (name + Zeros(4 - |name|))
    else Tag(MAT_T_INT8, |name|) + (name + Zeros(Pad8(|name|)))
  }

  function OptionalName(name: Option<Name>): seq<Byte> {
    if name.None? then NoName else NameBytes(name.value)
  }

  function MaxLength(names: seq<Name>): (m: nat)
    ensures forall k | 0 <= k < |names| :: |names[k]| <= m
  {
    if names == [] then 0 else
      var m := MaxLength(names[..|names| - 1]);
      var last := |names[|names| - 1]|;
      if last > m then last else m
  }

  /** The least size from `size` on with which `n` slots fill a multiple of 8 bytes. */
  function SlotSize(n: nat, size: nat): (s: nat)
    ensures size <= s && Fits(n, s)
    ensures forall t | size <= t < s :: !Fits(n, t)
    decreases Pad8(size)
  {
    hide Fits, Pad8;
    if Fits(n, size) then size
    else
      EightFits(n, size);
      PadDown(size);
      SlotSize(n, size + 1)
  }

  lemma PadDown(size: nat)
    ensures size % 8 != 0 ==> Pad8(size + 1) < Pad8(size)
  {
    var r := size % 8;
    assert (size + 1) % 8 == if r == 7 then 0 else r + 1;
    assert r != 0 ==> Pad8(size) == 8 - r;
  }

  predicate Fits(n: nat, size: nat) {
    n * size % 8 == 0
  }

  lemma EightFits(n: nat, size: nat)
    ensures size % 8 == 0 ==> Fits(n, size)
  {
    if size % 8 == 0 {
      var q := size / 8;
      assert n * size == 8 * (n * q) by { ThreeFactors(n, q); }
      TimesEight(n * q);
    }
  }

  lemma ThreeFactors(n: nat, q: nat)
    ensures n * (8 * q) == 8 * (n * q)
  {
  }

  lemma TimesEight(x: int)
    ensures 8 * x % 8 == 0
  {
  }

  function Slots(names: seq<Name>, size: nat): (r: seq<Byte>)
    requires forall k | 0 <= k < |names| :: |names[k]| < size
    ensures |r| == |names| * size
  {
    if names == [] then [] else (names[0] + Zeros(size - |names[0]|)) + Slots(names[1..], size)
  }

  function NamesSize(names: seq<Name>): nat {
    SlotSize(|names|, MaxLength(names) + 1)
  }

  method LongestName(names: seq<Name>) returns (maxlen: nat)
    ensures maxlen == MaxLength(names)
  {
    maxlen := 0;
    for i := 0 to |names|
      invariant maxlen == MaxLength(names[..i])
    {
      assert names[..i + 1][..i] == names[..i];
      if |names[i]| > maxlen {
        maxlen := |names[i]|;
      }
    }
    assert names[..|names|] == names;
  }

  /** The loops with which the slots for field names get their size. */
  method FieldNameSize(names: seq<Name>) returns (size: nat)
    ensures size == NamesSize(names)
    ensures Fits(|names|, size) && forall k | 0 <= k < |names| :: |names[k]| < size
  {
    hide Pad8, Fits, MaxLength;
    size := LongestName(names);
    size := size + 1;
    ghost var least := size;
    while !Fits(|names|, size)
      invariant least <= size && SlotSize(|names|, size) == SlotSize(|names|, least)
      decreases Pad8(size)
    {
      EightFits(|names|, size);
      PadDown(size);
      size := size + 1;
    }
  }

  /** The field names of a struct. */
  function StructHead(names: seq<Name>): seq<Byte> {
    if names == [] then (Le32(4 * 65536 + MAT_T_INT32) + Le32(1)) + Tag(MAT_T_INT8, 0)
    else
      var size := NamesSize(names);
      (Le32(4 * 65536 + MAT_T_INT32) + Le32(size)) + Tag(MAT_T_INT8, |names| * size) + Slots(names, size)
  }

  function Sized(body: seq<Byte>): seq<Byte> {
    Tag(MAT_T_MATRIX, |body|) + body
  }

  /** A field that is missing is stored as an empty double. */
  const EmptyField: MatVar := MatVar(None, Header(MAT_C_DOUBLE, false, false, false, 0, [0, 0]), Numeric([], None))

  function Content(cls: nat, data: Data): seq<Byte>
    decreases data
  {
    match data
    case NoData => []
    case At(_) => []
    case Numeric(re, im) =>
      Block(TypeOfClass(cls), re) + (if im.Some? then Block(TypeOfClass(cls), im.value) else [])
    case Text(text) => Block(MAT_T_UTF8, text)
    case Sparse(ir, jc, values, imag) =>
      Block(MAT_T_UINT32, Words(ir)) + (Block(MAT_T_UINT32, Words(jc))
      + (Block(MAT_T_DOUBLE, values) + if imag.Some? then Block(MAT_T_DOUBLE, imag.value) else []))
    case Cells(cells) => Elements(cells, true)
    case Struct(fieldNames, fields) => StructHead(fieldNames) + Elements(fields, false)
  }

  /** The bytes of a variable behind its tag, with the given bytes for the name. */
  function Body(v: MatVar, name: seq<Byte>): seq<Byte>
    decreases v
  {
    Head(v.header) + (name + Content(v.header.cls, v.data))
  }

  /** An element of a cell array or of a struct. Missing cells are not written at all. */
  function Element(child: Option<MatVar>, inCell: bool): seq<Byte>
    decreases child
  {
    if child.None? then (if inCell then [] else Sized(Head(EmptyField.header) + (NoName + Block(MAT_T_DOUBLE, []))))
    else if child.value.header.cls == MAT_C_EMPTY then Tag(MAT_T_MATRIX, 0)
    else Sized(Body(child.value, ChildName(child.value, inCell)))
  }

  /** Cells are written with the names they have, fields without. */
  function ChildName(v: MatVar, inCell: bool): seq<Byte> {
    if inCell then OptionalName(v.name) else NoName
  }

  function Elements(children: seq<Option<MatVar>>, inCell: bool): seq<Byte>
    decreases children
  {
    if children == [] then [] else Element(children[0], inCell) + Elements(children[1..], inCell)
  }

  /** The bytes of a variable of the file. */
  function Encode(name: Name, v: MatVar): seq<Byte> {
    Sized(Body(v, NameBytes(name)))
  }

  // ----- What reading gives back -----

  const EmptyHeader := Header(MAT_C_EMPTY, false, false, false, 0, [])

  /** The variable as it is read back, under the name it gets there: the children of cells have no
      name, those of structs have the names of the fields, and missing fields are empty doubles. */
  function Normalised(v: MatVar, name: Option<Name>): MatVar
    decreases v
  {
    if v.header.cls == MAT_C_EMPTY then MatVar(name, EmptyHeader, NoData)
    else MatVar(name, v.header, NormalisedData(v.data))
  }

  function NormalisedData(data: Data): Data
    decreases data
  {
    match data
    case Cells(cells) => Cells(NormalisedCells(cells))
    case Struct(fieldNames, fields) => Struct(fieldNames, NormalisedFields(fieldNames, 0, fields))
    case _ => data
  }

  function NormalisedCells(cells: seq<Option<MatVar>>): (r: seq<Option<MatVar>>)
    ensures |r| == |cells|
    decreases cells
  {
    if cells == [] then [] else [NormalisedChild(cells[0], None)] + NormalisedCells(cells[1..])
  }

  function NormalisedChild(child: Option<MatVar>, name: Option<Name>): Option<MatVar>
    decreases child
  {
    if child.None? then None else Some(Normalised(child.value, name))
  }

  /** `i` fields of the struct come before these. */
  function NormalisedFields(names: seq<Name>, i: nat, fields: seq<Option<MatVar>>): (r: seq<Option<MatVar>>)
    ensures |r| == |fields|
    decreases fields
  {
    if fields == [] || names == [] then seq(|fields|, _ => None)
    else
      var name := Some(names[i % |names|]);
      [if fields[0].None? then Some(EmptyField.(name := name)) else NormalisedChild(fields[0], name)]
      + NormalisedFields(names, i + 1, fields[1..])
  }
}
