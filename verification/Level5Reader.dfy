/** Reading Level 5 variables: first the tree of headers, then the data of the leaves. */
module Level5Reader {
  import opened Common
  import opened Subscripts
  import opened Level5

  // ----- The tree of headers -----

  function Word(file: seq<Byte>, pos: nat): (n: nat)
    requires pos + 4 <= |file|
    ensures n < 0x1_0000_0000
  {
    U32(file[pos..pos + 4])
  }

  function ReadWords(file: seq<Byte>, pos: nat, n: nat): (r: seq<nat>)
    requires pos + 4 * n <= |file|
    ensures |r| == n
    decreases n
  {
    if n == 0 then [] else [Word(file, pos)] + ReadWords(file, pos + 4, n - 1)
  }

  function ClassFromFlags(flags: nat): nat {
    if flags % 256 <= MAT_C_OPAQUE then flags % 256 else MAT_C_EMPTY
  }

  function HeaderFromFlags(flags: nat, nzmax: nat, dims: seq<nat>): Header {
    Header(ClassFromFlags(flags), flags / 0x800 % 2 == 1, flags / 0x400 % 2 == 1, flags / 0x200 % 2 == 1,
           if ClassFromFlags(flags) == MAT_C_SPARSE then nzmax else 0, dims)
  }

  datatype HeadRead = NoHead | HeadRead(header: Header, next: nat)

  /** Array flags, rank and dimensions. At the top level the flags may also be tagged as INT32. */
  function ReadHead(file: seq<Byte>, pos: nat, top: bool): (r: HeadRead)
    ensures r.HeadRead? ==> pos + 24 <= r.next <= |file|
  {
    if pos + 24 > |file| then NoHead else
      var t, flags, dimsType, size := Word(file, pos), Word(file, pos + 8), Word(file, pos + 16), Word(file, pos + 20);
      var known := t == MAT_T_UINT32 || (top && t == MAT_T_INT32);
      var rank := if dimsType == MAT_T_INT32 then size / 4 else 0;
      var next := pos + 24 + 4 * rank + 4 * (rank % 2);
      if next > |file| then NoHead else
        var dims := ReadWords(file, pos + 24, rank);
        HeadRead(if known then HeaderFromFlags(flags, Word(file, pos + 12), dims) else EmptyHeader.(dims := dims), next)
  }

  function Left(file: seq<Byte>, pos: nat): nat {
    if pos < |file| then |file| - pos else 0
  }

  /** Stop: an error, after which the loop over the elements ends. */
  datatype ChildRead = Stop | Child(v: MatVar, next: nat)

  /** What the name of a cell takes behind its tag. None: more than 32 bits can say. */
  function SkipName(t: nat, n: nat): (r: Option<nat>)
  {
    if n == 0 || t != MAT_T_INT8 || n % 8 == 0 then Some(if t == MAT_T_INT8 then n else 0)
    else if n < 0xffff_ffff - 8 + n % 8 then Some(n + 8 - n % 8)
    else None
  }

  /** One element of ReadNextCell or of ReadNextStructField. */
  function ReadChild(file: seq<Byte>, pos: nat, inCell: bool): (r: ChildRead)
    ensures r.Child? ==> pos + 8 <= r.next && pos + 8 <= |file|
    decreases Left(file, pos), 0, 0
  {
    if pos + 8 > |file| then Stop else
      var t, size := Word(file, pos), Word(file, pos + 4);
      if size == 0 && (inCell || t == MAT_T_MATRIX) then Child(MatVar(None, EmptyHeader, NoData), pos + 8)
      else if t != MAT_T_MATRIX then Stop
      else match ReadHead(file, pos + 8, false)
        case NoHead => Stop
        case HeadRead(h, p) =>
          if p + 8 > |file| then Stop else
            match if inCell then SkipName(Word(file, p), Word(file, p + 4)) else Some(0)
            case None => Stop
            case Some(skip) =>
              var datapos := p + 8 + skip;
              Child(MatVar(None, h, ReadBody(file, datapos, h)),
                    datapos + (size - (datapos - (pos + 8))) % 0x1_0000_0000)
  }

  function ReadChildren(file: seq<Byte>, pos: nat, n: nat, inCell: bool): (r: seq<Option<MatVar>>)
    ensures |r| == n
    decreases Left(file, pos), 1, n
  {
    if n == 0 then [] else
      match ReadChild(file, pos, inCell)
      case Stop => seq(n, _ => None)
      case Child(v, next) => [Some(v)] + ReadChildren(file, next, n - 1, inCell)
  }

  function FieldCount(dims: seq<nat>, nfields: nat): nat {
    NonNegative(MulDims(dims), nfields);
    MulDims(dims) * nfields
  }

  /** ReadNextCell and ReadNextStructField; for other classes only the place is noted. */
  function ReadBody(file: seq<Byte>, pos: nat, h: Header): Data
    decreases Left(file, pos), 2, 0
  {
    hide MulDims, Prod, FieldCount;
    if h.cls == MAT_C_CELL then Cells(ReadChildren(file, pos, MulDims(h.dims), true))
    else if h.cls == MAT_C_STRUCT then
      match ReadNames(file, pos)
      case None => Struct([], [])
      case Some((names, nfields, next)) =>
        Struct(names, Named(names, 0, ReadChildren(file, next, FieldCount(h.dims, nfields), false)))
    else At(pos)
  }

  function CString(b: seq<Byte>): (r: Name)
    ensures |r| <= |b|
  {
    if b == [] || b[0] == 0 then [] else [b[0]] + CString(b[1..])
  }

  /** The last byte of a slot is overwritten by a NUL. */
  function SlotNames(file: seq<Byte>, pos: nat, n: nat, size: nat): (r: seq<Name>)
    requires 0 < size && pos + n * size <= |file|
    ensures |r| == n
    decreases n
  {
    if n == 0 then [] else
      OneSlot(n, size);
      [CString(file[pos..pos + size - 1])] + SlotNames(file, pos + size, n - 1, size)
  }

  lemma OneSlot(n: nat, size: nat)
    requires 0 < n
    ensures n * size == size + (n - 1) * size && 0 <= (n - 1) * size
  {
    NonNegative(n - 1, size);
  }

  /** The number of slots in a field of field names. */
  function Count(len: nat, size: nat): nat
    requires 0 < size
  {
    len / size
  }

  /** The field names, their number, and where the fields begin. None: there is no size. */
  function ReadNames(file: seq<Byte>, pos: nat): (r: Option<(seq<Name>, nat, nat)>)
    ensures r.Some? ==> pos < r.value.2 && pos < |file|
  {
    hide Count, Pad8, U32;
    if pos + 16 > |file| || Word(file, pos) % 65536 != MAT_T_INT32 || Word(file, pos + 4) == 0 then None
    else
      var size, t := Word(file, pos + 4), Word(file, pos + 8);
      if t == MAT_T_INT8 then
        var n := Count(Word(file, pos + 12), size);
        ReadSlots(file, pos + 16, n, size)
      else if t % 65536 == MAT_T_INT8 && 0 < t / 65536 <= 4 then
        var n := Count(t / 65536, size);
        Packed(t / 65536, size);
        Some((SlotNames(file, pos + 12, n, size), n, pos + 16))
      else Some(([], 0, pos + 16))
  }

  function ReadSlots(file: seq<Byte>, pos: nat, n: nat, size: nat): (r: Option<(seq<Name>, nat, nat)>)
    requires 0 < size && pos <= |file|
    ensures r.Some? && pos <= r.value.2
  {
    NonNegative(n, size);
    var bytes: nat := n * size;
    if pos + bytes > |file| then Some(([], n, |file| + Pad8(bytes)))
    else Some((SlotNames(file, pos, n, size), n, pos + bytes + Pad8(bytes)))
  }

  lemma Packed(n: nat, size: nat)
    requires 0 < size && n <= 4
    ensures Count(n, size) * size <= 4
  {
    assert n == size * (n / size) + n % size;
  }

  /** The fields get the names of the struct, if those could be read. */
  function Named(names: seq<Name>, i: nat, fields: seq<Option<MatVar>>): (r: seq<Option<MatVar>>)
    ensures |r| == |fields|
    decreases |fields|
  {
    if fields == [] || names == [] then fields
    else [WithName(names, i, fields[0])] + Named(names, i + 1, fields[1..])
  }

  function WithName(names: seq<Name>, i: nat, field: Option<MatVar>): Option<MatVar>
    requires names != []
  {
    if field.None? then None else Some(field.value.(name := Some(names[i % |names|])))
  }

  /** Mat_VarReadNextInfo5, and where it leaves the cursor. */
  function ReadNextInfo(file: seq<Byte>, pos: nat): (Option<MatVar>, nat) {
    if pos + 8 > |file| then (None, |file|) else
      var t, size := Word(file, pos), Word(file, pos + 4);
      if size > 0xffff_ffff - 8 || t != MAT_T_MATRIX then (None, pos + 8)
      else match ReadHead(file, pos + 8, true)
        case NoHead => (None, pos)
        case HeadRead(h, p) =>
          if p + 8 > |file| then (None, pos) else
            match ReadName(file, p)
            case None => (None, pos)
            case Some((name, datapos)) => (Some(MatVar(name, h, ReadBody(file, datapos, h))), size + 8 + pos)
  }

  /** The name of a variable and what is behind it. None: the name is not complete. */
  function ReadName(file: seq<Byte>, p: nat): Option<(Option<Name>, nat)>
    requires p + 8 <= |file|
  {
    var t, n := Word(file, p), Word(file, p + 4);
    if t == MAT_T_INT8 then
      match SkipName(t, n)
      case None => None
      case Some(skip) =>
        if p + 8 + skip > |file| || n > skip then None
        else Some((Some(CString(file[p + 8..p + 8 + n])), p + 8 + skip))
    else
      var len := t / 65536;
      Some((if t % 65536 == MAT_T_INT8 && 0 < len <= 4 then Some(CString(file[p + 4..p + 4 + len])) else None, p + 8))
  }

  // ----- The data -----

  /** Mat_VarReadNumeric5: `n` elements of the class, and what is behind them. None: an error, or data
      of another type than the class, which would be converted. */
  function ReadNumeric(file: seq<Byte>, pos: nat, cls: nat, n: nat): Option<(seq<Byte>, nat)> {
    if pos + 4 > |file| then None else
      var t := Word(file, pos);
      var inTag := t / 65536 != 0;
      if !inTag && pos + 8 > |file| then None else
        var size := if inTag then t / 65536 else Word(file, pos + 4);
        var at := if inTag then pos + 4 else pos + 8;
        var bytes := n * SizeOfClass(cls);
        if size == 0 then (if bytes == 0 then Some(([], at)) else None)
        else if t % 256 != TypeOfClass(cls) || at + bytes > |file| then None
        else Some((file[at..at + bytes], at + bytes + Pad8(bytes + if inTag then 4 else 0)))
  }

  /** The text of a variable of `n` characters in UTF-8. None: an error, text in another encoding, or text
      that is too short for its characters, of which nothing is read. */
  function ReadText(file: seq<Byte>, pos: nat, n: nat): Option<seq<Byte>> {
    if pos + 4 > |file| then None else
      var t := Word(file, pos);
      var inTag := t / 65536 != 0;
      if !inTag && pos + 8 > |file| then None else
        var size := if inTag then t / 65536 else Word(file, pos + 4);
        var at := if inTag then pos + 4 else pos + 8;
        if t % 256 != MAT_T_UTF8 then None
        else if size == 0 && n == 0 then Some([])
        else if size < n || at + size > |file| then None
        else Some(file[at..at + size])
  }

  /** ReadSparse: an array of indices, and what is behind it. None: an error, or another type. */
  function ReadSparse(file: seq<Byte>, pos: nat): Option<(seq<nat>, nat)> {
    if pos + 4 > |file| then None else
      var t := Word(file, pos);
      var inTag := t / 65536 != 0;
      if !inTag && pos + 8 > |file| then None else
        var size := if inTag then t / 65536 else Word(file, pos + 4);
        var at := if inTag then pos + 4 else pos + 8;
        var n := size / 4;
        if size == 0 then Some(([], at))
        else if t % 256 != MAT_T_UINT32 || at + 4 * n > |file| then None
        else Some((ReadWords(file, at, n), at + 4 * n + Pad8(4 * n + if inTag then 4 else 0)))
  }

  /** The number of values of a sparse matrix, by their tag. None: an error, or another type. Doubles of
      a logical matrix are taken for bytes. */
  function ReadCount(file: seq<Byte>, pos: nat, logical: bool): Option<nat> {
    if pos + 4 > |file| then None else
      var t := Word(file, pos);
      var inTag := t / 65536 != 0;
      if !inTag && pos + 8 > |file| then None
      else if t % 256 != MAT_T_DOUBLE then None
      else Some((if inTag then t / 65536 else Word(file, pos + 4)) / (if logical then 1 else 8))
  }

  /** The sparse case of Mat_VarRead5 for a logical matrix that is not complex: indices, and values of
      one byte each. */
  function ReadSparseBytes(file: seq<Byte>, pos: nat): Option<(seq<nat>, seq<nat>, seq<Byte>)> {
    var ir := ReadSparse(file, pos);
    if ir.None? then None else
      var jc := ReadSparse(file, ir.value.1);
      if jc.None? then None else
        var n := ReadCount(file, jc.value.1, true);
        if n.None? then None else
          var at := jc.value.1 + if Word(file, jc.value.1) / 65536 != 0 then 4 else 8;
          if at + n.value > |file| then None else Some((ir.value.0, jc.value.0, file[at..at + n.value]))
  }

  /** The sparse case of Mat_VarRead5 for values that are doubles. None: an error, or a logical matrix
      with values, which are bytes then. */
  function ReadSparseData(file: seq<Byte>, pos: nat, h: Header): Option<Data> {
    var ir := ReadSparse(file, pos);
    if ir.None? then None else
      var jc := ReadSparse(file, ir.value.1);
      if jc.None? then None else
        var n := ReadCount(file, jc.value.1, h.logical);
        if n.None? || (h.logical && (h.complex || n.value > 0)) then None else
          var re := ReadNumeric(file, jc.value.1, MAT_C_DOUBLE, n.value);
          if re.None? then None
          else if !h.complex then Some(Sparse(ir.value.0, jc.value.0, re.value.0, None))
          else
            var im := ReadNumeric(file, re.value.1, MAT_C_DOUBLE, n.value);
            if im.None? then None else Some(Sparse(ir.value.0, jc.value.0, re.value.0, Some(im.value.0)))
  }

  /** Mat_VarRead5. None: an error, or a class that is not part of this model. */
  function ReadData(file: seq<Byte>, v: MatVar): Option<MatVar>
    decreases v
  {
    var h := v.header;
    if h.dims == [] then Some(v)
    else if h.cls == MAT_C_EMPTY then Some(MatVar(v.name, h.(dims := [0, 0]), NoData))
    else match v.data
      case At(pos) =>
        if h.cls == MAT_C_CHAR && !h.complex then
          var text := ReadText(file, pos, MulDims(h.dims));
          if text.None? then None else Some(v.(data := Text(text.value)))
        else if h.cls == MAT_C_SPARSE then
          var sparse := ReadSparseData(file, pos, h);
          if sparse.None? then None else Some(v.(data := sparse.value))
        else if !IsNumeric(h.cls) then None else
          (match ReadNumeric(file, pos, h.cls, MulDims(h.dims))
           case None => None
           case Some((re, next)) =>
             if !h.complex then Some(v.(data := Numeric(re, None))) else
               match ReadNumeric(file, next, h.cls, MulDims(h.dims))
               case None => None
               case Some((im, _)) => Some(v.(data := Numeric(re, Some(im)))))
      case Cells(cells) =>
        var r := ReadAll(file, cells);
        if r.None? then None else Some(v.(data := Cells(r.value)))
      case Struct(names, fields) =>
        var r := ReadAll(file, fields);
        if r.None? then None else Some(v.(data := Struct(names, r.value)))
      case _ => None
  }

  function ReadOne(file: seq<Byte>, child: Option<MatVar>): Option<Option<MatVar>>
    decreases child
  {
    if child.None? then Some(None) else
      var r := ReadData(file, child.value);
      if r.None? then None else Some(r)
  }

  function ReadAll(file: seq<Byte>, children: seq<Option<MatVar>>): (r: Option<seq<Option<MatVar>>>)
    decreases children
  {
    if children == [] then Some([]) else
      var first, rest := ReadOne(file, children[0]), ReadAll(file, children[1..]);
      if first.None? || rest.None? then None else Some([first.value] + rest.value)
  }

  /** The variable at a place in the file, with its data, and where the next one begins. */
  function ReadVariable(file: seq<Byte>, pos: nat): (Option<MatVar>, nat) {
    var (info, next) := ReadNextInfo(file, pos);
    (if info.None? then None else ReadData(file, info.value), next)
  }
}
