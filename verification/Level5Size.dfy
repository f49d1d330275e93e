/** The length of a compressed variable has to be known before its bytes are: a second walk over the
    variable predicts it. */
module Level5Size {
  import opened Common
  import opened Level5
  import opened Subscripts

  // ----- The prediction -----

  /** A size with its padding to a multiple of 8. */
  function Padded(n: nat): nat {
    n + Pad8(n)
  }

  /** GetTypeBufSize: from the tag of the dimensions on. None: there is a cell that is missing. An
      empty variable, of unknown data type, is counted with a tag for its data. */
  function TypeBufSize(h: Header, data: Data): Option<nat>
    decreases data
  {
    var dims := 8 + 4 * (|h.dims| % 2) + 4 * |h.dims|;
    if h.cls == MAT_C_EMPTY then Some(dims + 8 + if h.complex then 8 else 0) else
    match data
    case Cells(cells) => Plus(dims, ChildrenBufSize(cells, true))
    case Struct(names, fields) => Plus(dims + 16 + SlotSize(|names|, MaxLength(names) + 1) * |names|, ChildrenBufSize(fields, false))
    case Sparse(ir, jc, values, _) =>
      Some(dims + (8 + Padded(4 * |ir|)) + (8 + Padded(4 * |jc|)) + (8 + Padded(|values|)) + if h.complex then 8 + Padded(|values|) else 0)
    case Text(_) => Some(dims + (8 + Padded(MulDims(h.dims))) + if h.complex then 8 + Padded(MulDims(h.dims)) else 0)
    case _ =>
      var bytes := MulDims(h.dims) * SizeOfClass(h.cls);
      Some(dims + (8 + Padded(bytes)) + if h.complex then 8 + Padded(bytes) else 0)
  }

  function Plus(n: nat, more: Option<nat>): Option<nat> {
    if more.None? then None else Some(n + more.value)
  }

  /** GetCellArrayFieldBufSize and GetStructFieldBufSize: without the tag of the child. */
  function ChildBufSize(child: Option<MatVar>, inCell: bool): Option<nat>
    decreases child
  {
    if child.None? then (if inCell then None else Some(16 + 8 + (8 + 8) + 8))
    else Plus(16 + 8, TypeBufSize(child.value.header, child.value.data))
  }

  function ChildrenBufSize(children: seq<Option<MatVar>>, inCell: bool): Option<nat>
    decreases children
  {
    if children == [] then Some(0) else
      var first, rest := ChildBufSize(children[0], inCell), ChildrenBufSize(children[1..], inCell);
      if first.None? then None else Plus(8 + first.value, rest)
  }

  /** GetMatrixMaxBufSize. */
  function MatrixMaxBufSize(name: Name, v: MatVar): Option<nat> {
    Plus(16 + 8 + (if |name| <= 4 then 0 else Padded(|name|)), TypeBufSize(v.header, v.data))
  }

  // ----- The walk that computes it -----

  /** None: an error. */
  method GetTypeBufSize(h: Header, data: Data) returns (size: Option<nat>)
    ensures size == TypeBufSize(h, data)
    decreases data
  {
    hide SlotSize, MaxLength, Prod, SizeOfClass, Padded;
    var nBytes := 8 + 4 * |h.dims|;
    if |h.dims| % 2 != 0 {
      nBytes := nBytes + 4;
    }
    if h.cls == MAT_C_EMPTY {
      nBytes := nBytes + 8;
      if h.complex {
        nBytes := nBytes + 8;
      }
      return Some(nBytes);
    }
    match data {
      case Struct(names, fields) =>
        var maxlen := FieldNameSize(names);
        size := GetChildrenBufSize(nBytes + 16 + maxlen * |names|, fields, false);
      case Cells(cells) =>
        size := GetChildrenBufSize(nBytes, cells, true);
      case Sparse(ir, jc, values, _) =>
        nBytes := nBytes + 8 + Padded(4 * |ir|);
        nBytes := nBytes + 8 + Padded(4 * |jc|);
        nBytes := nBytes + 8 + Padded(|values|);
        if h.complex {
          nBytes := nBytes + 8 + Padded(|values|);
        }
        size := Some(nBytes);
      case Text(_) =>
        var bytes := Padded(MulDims(h.dims));
        nBytes := nBytes + 8 + bytes;
        if h.complex {
          nBytes := nBytes + 8 + bytes;
        }
        size := Some(nBytes);
      case _ =>
        var bytes := Padded(MulDims(h.dims) * SizeOfClass(h.cls));
        nBytes := nBytes + 8 + bytes;
        if h.complex {
          nBytes := nBytes + 8 + bytes;
        }
        size := Some(nBytes);
    }
  }

  /** The loop over the children, on top of what is there already. */
  method GetChildrenBufSize(start: nat, children: seq<Option<MatVar>>, inCell: bool) returns (size: Option<nat>)
    ensures size == Plus(start, ChildrenBufSize(children, inCell))
    decreases children
  {
    hide ChildBufSize;
    var nBytes := start;
    var i := 0;
    while i < |children|
      invariant 0 <= i <= |children|
      invariant Plus(nBytes, ChildrenBufSize(children[i..], inCell)) == Plus(start, ChildrenBufSize(children, inCell))
    {
      assert children[i..][1..] == children[i + 1..];
      var child := GetChildBufSize(children[i], inCell);
      if child.None? {
        return None;
      }
      nBytes := nBytes + 8 + child.value;
      i := i + 1;
    }
    size := Some(nBytes);
  }

  method GetChildBufSize(child: Option<MatVar>, inCell: bool) returns (size: Option<nat>)
    ensures size == ChildBufSize(child, inCell)
    decreases child
  {
    hide TypeBufSize;
    if child.None? {
      return if inCell then None else Some(16 + 8 + (8 + 8) + 8);
    }
    size := GetTypeBufSize(child.value.header, child.value.data);
    if size.Some? {
      size := Some(16 + 8 + size.value);
    }
  }

  // ----- What is fed to the compressor -----

  /** WriteCompressedTypeArrayFlags. Here cells have no names. */
  function Fed(v: MatVar): seq<Byte>
    decreases v
  {
    if v.header.cls == MAT_C_EMPTY then [] else Head(v.header) + (NoName + FedType(v.header.cls, v.data))
  }

  /** WriteCompressedType. */
  function FedType(cls: nat, data: Data): seq<Byte>
    decreases data
  {
    match data
    case NoData => []
    case At(_) => []
    case Numeric(re, im) =>
      Block(TypeOfClass(cls), re) + (if im.Some? then Block(TypeOfClass(cls), im.value) else [])
    case Text(text) => Block(MAT_T_UTF8, text)
    case Sparse(ir, jc, values, imag) =>
      Block(MAT_T_UINT32, Words(ir)) + (Block(MAT_T_UINT32, Words(jc))
      + (Block(MAT_T_DOUBLE, values) + if imag.Some? then Block(MAT_T_DOUBLE, imag.value) else []))
    case Cells(cells) => FedChildren(cells, true)
    case Struct(fieldNames, fields) => StructHead(fieldNames) + FedChildren(fields, false)
  }

  /** WriteCompressedCellArrayField and WriteCompressedStructField. */
  function FedChild(child: Option<MatVar>, inCell: bool): seq<Byte>
    decreases child
  {
    if child.None? then
      (if inCell then [] else
         Tag(MAT_T_MATRIX, ChildBufSize(None, false).value) + (Head(EmptyField.header) + (NoName + Block(MAT_T_DOUBLE, []))))
    else if child.value.header.cls == MAT_C_EMPTY then Tag(MAT_T_MATRIX, 0)
    else
      var size := ChildBufSize(child, inCell);
      if size.None? then [] else Tag(MAT_T_MATRIX, size.value) + Fed(child.value)
  }

  function FedChildren(children: seq<Option<MatVar>>, inCell: bool): seq<Byte>
    decreases children
  {
    if children == [] then [] else FedChild(children[0], inCell) + FedChildren(children[1..], inCell)
  }

  /** Mat_VarWrite5 with compression: tag, headers, name and content. */
  function Compressed(name: Name, v: MatVar): Option<seq<Byte>> {
    var size := MatrixMaxBufSize(name, v);
    if size.None? then None
    else Some(Tag(MAT_T_MATRIX, size.value) + (Head(v.header) + (NameBytes(name) + FedType(v.header.cls, v.data))))
  }

  // ----- When the prediction is right -----

  /** There is no empty variable anywhere inside. */
  predicate Full(data: Data)
    decreases data
  {
    match data
    case Cells(cells) => FullChildren(cells)
    case Struct(_, fields) => FullChildren(fields)
    case _ => true
  }

  predicate FullChild(child: Option<MatVar>)
    decreases child
  {
    child.Some? ==> child.value.header.cls != MAT_C_EMPTY && Full(child.value.data)
  }

  predicate FullChildren(children: seq<Option<MatVar>>)
    decreases children
  {
    children == [] || (FullChild(children[0]) && FullChildren(children[1..]))
  }

  /** All text has one byte a character; that it may have more is not foreseen by the prediction. */
  predicate OneByteText(v: MatVar)
    decreases v
  {
    match v.data
    case Text(text) => |text| == MulDims(v.header.dims)
    case Cells(cells) => OneByteChildren(cells)
    case Struct(_, fields) => OneByteChildren(fields)
    case _ => true
  }

  predicate OneByteChild(child: Option<MatVar>)
    decreases child
  {
    child.Some? ==> child.value.header.cls == MAT_C_EMPTY || OneByteText(child.value)
  }

  predicate OneByteChildren(children: seq<Option<MatVar>>)
    decreases children
  {
    children == [] || (OneByteChild(children[0]) && OneByteChildren(children[1..]))
  }

  lemma HeadLength(h: Header)
    ensures |Head(h)| == 24 + 4 * |h.dims| + 4 * (|h.dims| % 2)
  {
  }

  lemma NameBytesLength(name: Name)
    ensures |NameBytes(name)| == 8 + if |name| <= 4 then 0 else Padded(|name|)
  {
  }

  lemma BlockLength(t: nat, data: seq<Byte>)
    ensures |Block(t, data)| == 8 + Padded(|data|)
  {
  }

  lemma StructHeadLength(names: seq<Name>)
    ensures |StructHead(names)| == 16 + SlotSize(|names|, MaxLength(names) + 1) * |names|
  {
    hide SlotSize, MaxLength, Slots, Le32;
    Commute(|names|, NamesSize(names));
  }

  lemma Commute(x: int, y: int)
    ensures x * y == y * x
  {
  }

  /** The prediction is never too small, and it is exact if and only if no empty variable is inside. */
  lemma {:induction false} TypePredicted(v: MatVar)
    requires Storable(v) && OneByteText(v)
    ensures var p := TypeBufSize(v.header, v.data);
            && p.Some?
            && 16 + p.value >= |Head(v.header)| + |FedType(v.header.cls, v.data)|
            && (16 + p.value == |Head(v.header)| + |FedType(v.header.cls, v.data)| <==> Full(v.data))
    decreases v
  {
    hide Head, Block, StructHead, Prod, SizeOfClass, Padded, SlotSize;
    HeadLength(v.header);
    match v.data
    case Numeric(re, im) => {
      BlockLength(TypeOfClass(v.header.cls), re);
      if im.Some? {
        BlockLength(TypeOfClass(v.header.cls), im.value);
      }
    }
    case Text(text) => {
      BlockLength(MAT_T_UTF8, text);
    }
    case Sparse(ir, jc, values, imag) => {
      BlockLength(MAT_T_UINT32, Words(ir));
      BlockLength(MAT_T_UINT32, Words(jc));
      BlockLength(MAT_T_DOUBLE, values);
      if imag.Some? {
        BlockLength(MAT_T_DOUBLE, imag.value);
      }
    }
    case Cells(cells) => {
      ChildrenPredicted(cells, true);
    }
    case Struct(names, fields) => {
      StructHeadLength(names);
      ChildrenPredicted(fields, false);
    }
  }

  lemma {:induction false} ChildPredicted(child: Option<MatVar>, inCell: bool)
    requires StorableChild(child) && (inCell ==> child.Some?) && OneByteChild(child)
    ensures var p := ChildBufSize(child, inCell);
            && p.Some?
            && 8 + p.value >= |FedChild(child, inCell)|
            && (8 + p.value == |FedChild(child, inCell)| <==> FullChild(child))
    decreases child
  {
    hide Head, Block, FedType, Storable, Full;
    if child.None? {
      HeadLength(EmptyField.header);
      BlockLength(MAT_T_DOUBLE, []);
    } else if child.value.header.cls == MAT_C_EMPTY {
      EmptyPredicted(child.value);
    } else {
      TypePredicted(child.value);
    }
  }

  lemma EmptyPredicted(v: MatVar)
    requires v.header.cls == MAT_C_EMPTY
    ensures var p := ChildBufSize(Some(v), true); p.Some? && p.value > 0 && p == ChildBufSize(Some(v), false)
  {
  }

  lemma {:induction false} ChildrenPredicted(children: seq<Option<MatVar>>, inCell: bool)
    requires forall k | 0 <= k < |children| :: StorableChild(children[k]) && (inCell ==> children[k].Some?)
    requires OneByteChildren(children)
    ensures var p := ChildrenBufSize(children, inCell);
            && p.Some?
            && p.value >= |FedChildren(children, inCell)|
            && (p.value == |FedChildren(children, inCell)| <==> FullChildren(children))
    decreases children
  {
    hide StorableChild, ChildBufSize, FedChild, FullChild, OneByteChild;
    if children != [] {
      ChildPredicted(children[0], inCell);
      ChildrenPredicted(children[1..], inCell);
    }
  }

  /** The same for a whole variable, as it is announced at the start of the compressed stream. */
  lemma SizeExact(name: Name, v: MatVar)
    requires Storable(v) && OneByteText(v)
    ensures var size, fed := MatrixMaxBufSize(name, v), Compressed(name, v);
            && size.Some? && fed.Some?
            && 8 + size.value >= |fed.value|
            && (8 + size.value == |fed.value| <==> Full(v.data))
  {
    hide Head, NameBytes, FedType, TypeBufSize, Padded;
    TypePredicted(v);
    NameBytesLength(name);
    HeadLength(v.header);
  }

  // ----- The stream and the uncompressed form -----

  /** The variable without names inside of cells. */
  function Unnamed(v: MatVar): MatVar
    decreases v
  {
    MatVar(None, v.header, UnnamedData(v.data))
  }

  function UnnamedData(data: Data): Data
    decreases data
  {
    match data
    case Cells(cells) => Cells(UnnamedChildren(cells))
    case Struct(names, fields) => Struct(names, UnnamedChildren(fields))
    case _ => data
  }

  function UnnamedChild(child: Option<MatVar>): Option<MatVar>
    decreases child
  {
    if child.None? then None else Some(Unnamed(child.value))
  }

  function UnnamedChildren(children: seq<Option<MatVar>>): (r: seq<Option<MatVar>>)
    ensures |r| == |children|
    decreases children
  {
    if children == [] then [] else [UnnamedChild(children[0])] + UnnamedChildren(children[1..])
  }

  lemma {:induction false} TypeIsContent(v: MatVar)
    requires Storable(v) && OneByteText(v) && Full(v.data)
    ensures FedType(v.header.cls, v.data) == Content(v.header.cls, UnnamedData(v.data))
    decreases v
  {
    hide StructHead, Prod, Block;
    match v.data
    case Numeric(_, _) =>
    case Text(_) =>
    case Sparse(_, _, _, _) =>
    case Cells(cells) => {
      ChildrenAreElements(cells, true);
    }
    case Struct(_, fields) => {
      ChildrenAreElements(fields, false);
    }
  }

  lemma {:induction false} ChildIsElement(child: Option<MatVar>, inCell: bool)
    requires StorableChild(child) && (inCell ==> child.Some?) && OneByteChild(child) && FullChild(child)
    ensures FedChild(child, inCell) == Element(UnnamedChild(child), inCell)
    decreases child
  {
    hide Head, Block, FedType, Storable, Full, Content, UnnamedData;
    ChildPredicted(child, inCell);
    if child.Some? {
      TypeIsContent(child.value);
    }
  }

  lemma {:induction false} ChildrenAreElements(children: seq<Option<MatVar>>, inCell: bool)
    requires forall k | 0 <= k < |children| :: StorableChild(children[k]) && (inCell ==> children[k].Some?)
    requires OneByteChildren(children) && FullChildren(children)
    ensures FedChildren(children, inCell) == Elements(UnnamedChildren(children), inCell)
    decreases children
  {
    hide StorableChild, FullChild, FedChild, Element, UnnamedChild, OneByteChild;
    if children != [] {
      ChildIsElement(children[0], inCell);
      ChildrenAreElements(children[1..], inCell);
      assert UnnamedChildren(children)[1..] == UnnamedChildren(children[1..]);
    }
  }

  /** What is compressed is what would have been written without compression, but for the names of cells. */
  lemma CompressedIsEncoded(name: Name, v: MatVar)
    requires Storable(v) && OneByteText(v) && Full(v.data)
    ensures Compressed(name, v) == Some(Encode(name, Unnamed(v)))
  {
    hide Head, NameBytes, FedType, Content, Tag;
    SizeExact(name, v);
    TypeIsContent(v);
  }

  // ----- Alignment -----

  lemma {:induction false} ContentAligned(cls: nat, data: Data)
    ensures |Content(cls, data)| % 8 == 0
    decreases data
  {
    hide Block, StructHead, TypeOfClass, Elements, Words;
    match data
    case NoData =>
    case At(_) =>
    case Numeric(re, im) => {
      BlockAligned(TypeOfClass(cls), re);
      if im.Some? {
        BlockAligned(TypeOfClass(cls), im.value);
        Sum8(|Block(TypeOfClass(cls), re)|, |Block(TypeOfClass(cls), im.value)|);
      }
    }
    case Text(text) => {
      BlockAligned(MAT_T_UTF8, text);
    }
    case Sparse(ir, jc, values, imag) => {
      SparseAligned(ir, jc, values, imag);
    }
    case Cells(cells) => {
      ElementsAligned(cells, true);
    }
    case Struct(names, fields) => {
      StructHeadAligned(names);
      ElementsAligned(fields, false);
      Sum8(|StructHead(names)|, |Elements(fields, false)|);
    }
  }

  lemma SparseAligned(ir: seq<nat>, jc: seq<nat>, values: seq<Byte>, imag: Option<seq<Byte>>)
    ensures |Content(MAT_C_SPARSE, Sparse(ir, jc, values, imag))| % 8 == 0
  {
    hide Block, Words;
    var a, b, c := Block(MAT_T_UINT32, Words(ir)), Block(MAT_T_UINT32, Words(jc)), Block(MAT_T_DOUBLE, values);
    var e := if imag.Some? then Block(MAT_T_DOUBLE, imag.value) else [];
    BlockAligned(MAT_T_UINT32, Words(ir));
    BlockAligned(MAT_T_UINT32, Words(jc));
    BlockAligned(MAT_T_DOUBLE, values);
    if imag.Some? {
      BlockAligned(MAT_T_DOUBLE, imag.value);
    }
    Sum8(|c|, |e|);
    Sum8(|b|, |c + e|);
    Sum8(|a|, |b + (c + e)|);
  }

  lemma BlockAligned(t: nat, data: seq<Byte>)
    ensures |Block(t, data)| % 8 == 0
  {
    hide Block, Padded;
    BlockLength(t, data);
    PaddedAligned(|data|);
    Sum8(8, Padded(|data|));
  }

  lemma PaddedAligned(n: nat)
    ensures Padded(n) % 8 == 0
  {
  }

  lemma StructHeadAligned(names: seq<Name>)
    ensures |StructHead(names)| % 8 == 0
  {
    var n, size := |names|, MaxLength(names) + 1;
    if names == [] {
    } else {
      hide SlotSize;
      StructHeadLength(names);
      SlotsFit(n, size);
    }
  }

  lemma SlotsFit(n: nat, size: nat)
    ensures (16 + SlotSize(n, size) * n) % 8 == 0
  {
    var s := SlotSize(n, size);
    Commute(n, s);
    Sum8(16, s * n);
  }

  lemma Sum8(x: nat, y: nat)
    requires x % 8 == 0 && y % 8 == 0
    ensures (x + y) % 8 == 0
  {
  }

  lemma HeadAligned(h: Header)
    ensures |Head(h)| % 8 == 0
  {
    HeadLength(h);
    var n := |h.dims|;
    assert n == 2 * (n / 2) + n % 2;
  }

  /** Every element of a file takes a multiple of 8 bytes. */
  lemma {:induction false} ElementAligned(child: Option<MatVar>, inCell: bool)
    ensures |Element(child, inCell)| % 8 == 0
    decreases child
  {
    hide Head, Block, Content, OptionalName;
    if child.None? {
      MissingAligned();
    } else if child.value.header.cls != MAT_C_EMPTY {
      var v := child.value;
      var name, content := ChildName(v, inCell), Content(v.header.cls, v.data);
      HeadAligned(v.header);
      ContentAligned(v.header.cls, v.data);
      ChildNameAligned(v, inCell);
      Sum8(|name|, |content|);
      Sum8(|Head(v.header)|, |name + content|);
      Sum8(8, |Body(v, name)|);
    }
  }

  lemma MissingAligned()
    ensures |Element(None, false)| % 8 == 0
  {
    hide Head, Block;
    HeadAligned(EmptyField.header);
    BlockAligned(MAT_T_DOUBLE, []);
    Sum8(8, |Block(MAT_T_DOUBLE, [])|);
    Sum8(|Head(EmptyField.header)|, 8 + |Block(MAT_T_DOUBLE, [])|);
    Sum8(8, |Head(EmptyField.header)| + (8 + |Block(MAT_T_DOUBLE, [])|));
  }

  lemma ChildNameAligned(v: MatVar, inCell: bool)
    ensures |ChildName(v, inCell)| % 8 == 0
  {
    if inCell && v.name.Some? {
      NameAligned(v.name.value);
    }
  }

  lemma NameAligned(name: Name)
    ensures |NameBytes(name)| % 8 == 0
  {
    hide NameBytes, Padded;
    NameBytesLength(name);
    PaddedAligned(|name|);
    Sum8(8, Padded(|name|));
  }

  lemma {:induction false} ElementsAligned(children: seq<Option<MatVar>>, inCell: bool)
    ensures |Elements(children, inCell)| % 8 == 0
    decreases children
  {
    hide Element;
    if children != [] {
      ElementAligned(children[0], inCell);
      ElementsAligned(children[1..], inCell);
    }
  }
}
