/** Writing Level 5 variables to a file: lengths are written as zero first and filled in when the
    content is complete. */
module Level5Writer {
  import opened Common
  import opened Level5

  class MatFile {
    var bytes: seq<Byte>
    var pos: nat

    constructor ()
      ensures bytes == [] && pos == 0
    {
      bytes, pos := [], 0;
    }

    ghost predicate AtEnd()
      reads `bytes, `pos
    {
      pos == |bytes|
    }

    /** fwrite: over what is there, and beyond it. */
    method Write(b: seq<Byte>)
      requires pos <= |bytes|
      modifies `bytes, `pos
      ensures pos == old(pos) + |b| <= |bytes|
      ensures bytes == old(bytes)[..old(pos)] + b + (if pos <= |old(bytes)| then old(bytes)[pos..] else [])
    {
      bytes := bytes[..pos] + b + (if pos + |b| <= |bytes| then bytes[pos + |b|..] else []);
      pos := pos + |b|;
    }

    method Append(b: seq<Byte>)
      requires AtEnd()
      modifies `bytes, `pos
      ensures AtEnd() && bytes == old(bytes) + b
    {
      Write(b);
      assert old(bytes)[..old(pos)] == old(bytes);
    }

    /** fseeko with SEEK_SET, SEEK_CUR and SEEK_END, by the place they lead to. */
    method Seek(to: nat)
      modifies `pos
      ensures pos == to
    {
      pos := to;
    }

    /** Bytes of zero, one by one. */
    method Padding(from_: nat, to: nat)
      requires from_ <= to && AtEnd()
      modifies `bytes, `pos
      ensures AtEnd() && bytes == old(bytes) + Zeros(to - from_)
    {
      var i := from_;
      while i < to
        invariant from_ <= i <= to && AtEnd()
        invariant bytes == old(bytes) + Zeros(i - from_)
      {
        Append([0]);
        i := i + 1;
      }
    }

    method PadTo8(n: nat)
      requires AtEnd()
      modifies `bytes, `pos
      ensures AtEnd() && bytes == old(bytes) + Zeros(Pad8(n))
    {
      if n % 8 != 0 {
        Padding(n % 8, 8);
      }
    }

    /** Fills in the length of what was written since `start`, in the four bytes before it. */
    method CloseLength(start: nat)
      requires AtEnd() && 4 <= start <= |bytes|
      modifies `bytes, `pos
      ensures AtEnd()
      ensures bytes == old(bytes)[..start - 4] + Le32(|old(bytes)| - start) + old(bytes)[start..]
    {
      var end := pos;
      var nBytes := end - start;
      Seek(pos - (nBytes + 4));
      Write(Le32(nBytes));
      Seek(end);
    }

    method WriteDims(dims: seq<nat>)
      requires AtEnd()
      modifies `bytes, `pos
      ensures AtEnd() && bytes == old(bytes) + (Words(dims) + Zeros(4 * (|dims| % 2)))
    {
      hide Le32;
      var i := 0;
      while i < |dims|
        invariant 0 <= i <= |dims| && AtEnd()
        invariant bytes + Words(dims[i..]) == old(bytes) + Words(dims)
      {
        assert dims[i..][1..] == dims[i + 1..];
        ghost var before := bytes;
        Append(Le32(dims[i]));
        assert bytes + Words(dims[i + 1..]) == before + Words(dims[i..]);
        i := i + 1;
      }
      assert bytes == bytes + Words(dims[i..]);
      if |dims| % 2 != 0 {
        Append(Zeros(4));
      }
    }

    method WriteHead(h: Header)
      requires AtEnd()
      modifies `bytes, `pos
      ensures AtEnd() && bytes == old(bytes) + Head(h)
    {
      hide Le32, Flags, Words, Tag;
      var flags := Flags(h);
      Append(Tag(MAT_T_UINT32, 8));
      Append(Le32(flags) + Le32(h.nzmax));
      Append(Tag(MAT_T_INT32, 4 * |h.dims|));
      WriteDims(h.dims);
    }

    method WriteName(name: Option<Name>)
      requires AtEnd()
      modifies `bytes, `pos
      ensures AtEnd() && bytes == old(bytes) + OptionalName(name)
    {
      hide Le32, Pad8;
      if name.None? {
        Append(NoName);
      } else if |name.value| <= 4 {
        Append(Le32(MAT_T_INT8 + |name.value| * 65536));
        Append(name.value);
        Padding(|name.value|, 4);
      } else {
        Append(Tag(MAT_T_INT8, |name.value|));
        Append(name.value);
        PadTo8(|name.value|);
      }
    }

    method WriteData(cls: nat, data: seq<Byte>)
      requires AtEnd()
      modifies `bytes, `pos
      ensures AtEnd() && bytes == old(bytes) + Block(TypeOfClass(cls), data)
    {
      hide Le32, Pad8, TypeOfClass;
      Append(Tag(TypeOfClass(cls), |data|));
      Append(data);
      PadTo8(|data|);
    }

    /** WriteCharData, for text in UTF-8. */
    method WriteCharData(text: seq<Byte>)
      requires AtEnd()
      modifies `bytes, `pos
      ensures AtEnd() && bytes == old(bytes) + Block(MAT_T_UTF8, text)
    {
      hide Le32, Pad8;
      Append(Tag(MAT_T_UTF8, |text|));
      Append(text);
      PadTo8(|text|);
    }

    /** WriteData, for the row and column indices of a sparse matrix. */
    method WriteIndices(ws: seq<nat>)
      requires AtEnd()
      modifies `bytes, `pos
      ensures AtEnd() && bytes == old(bytes) + Block(MAT_T_UINT32, Words(ws))
    {
      hide Le32, Pad8, Words;
      Append(Tag(MAT_T_UINT32, 4 * |ws|));
      Append(Words(ws));
      PadTo8(4 * |ws|);
    }

    method WriteSlots(names: seq<Name>, size: nat)
      requires AtEnd() && forall k | 0 <= k < |names| :: |names[k]| < size
      modifies `bytes, `pos
      ensures AtEnd() && bytes == old(bytes) + Slots(names, size)
    {
      var i := 0;
      while i < |names|
        invariant 0 <= i <= |names| && AtEnd()
        invariant bytes + Slots(names[i..], size) == old(bytes) + Slots(names, size)
      {
        assert names[i..][1..] == names[i + 1..];
        ghost var before := bytes;
        Append(names[i]);
        Append(Zeros(size - |names[i]|));
        assert bytes + Slots(names[i + 1..], size) == before + Slots(names[i..], size);
        i := i + 1;
      }
      assert bytes == bytes + Slots(names[i..], size);
    }

    method WriteFieldNames(names: seq<Name>)
      requires AtEnd()
      modifies `bytes, `pos
      ensures AtEnd() && bytes == old(bytes) + StructHead(names)
    {
      hide Le32, Slots, Tag, SlotSize, MaxLength;
      Append(Le32(4 * 65536 + MAT_T_INT32));
      if names == [] {
        Append(Le32(1));
        Append(Tag(MAT_T_INT8, 0));
      } else {
        var size := FieldNameSize(names);
        Append(Le32(size));
        Append(Tag(MAT_T_INT8, |names| * size));
        WriteSlots(names, size);
      }
    }

    method WriteSparse(data: Data)
      requires AtEnd() && data.Sparse?
      modifies `bytes, `pos
      ensures AtEnd() && bytes == old(bytes) + Content(MAT_C_SPARSE, data)
    {
      hide Block, Words;
      WriteIndices(data.ir);
      WriteIndices(data.jc);
      WriteData(MAT_C_DOUBLE, data.values);
      if data.imag.Some? {
        WriteData(MAT_C_DOUBLE, data.imag.value);
      }
    }

    /** WriteType. */
    method WriteType(cls: nat, data: Data)
      requires AtEnd()
      modifies `bytes, `pos
      ensures AtEnd() && bytes == old(bytes) + Content(cls, data)
      decreases data
    {
      hide Block, StructHead, Elements, Words;
      match data {
        case NoData =>
        case At(_) =>
        case Numeric(re, im) =>
          WriteData(cls, re);
          if im.Some? {
            WriteData(cls, im.value);
          }
        case Text(text) =>
          WriteCharData(text);
        case Sparse(_, _, _, _) =>
          WriteSparse(data);
        case Cells(cells) =>
          WriteCells(cells);
        case Struct(names, fields) =>
          WriteFieldNames(names);
          WriteFields(fields);
      }
    }

    method WriteCells(cells: seq<Option<MatVar>>)
      requires AtEnd()
      modifies `bytes, `pos
      ensures AtEnd() && bytes == old(bytes) + Elements(cells, true)
      decreases cells
    {
      hide Element;
      var i := 0;
      while i < |cells|
        invariant 0 <= i <= |cells| && AtEnd()
        invariant bytes + Elements(cells[i..], true) == old(bytes) + Elements(cells, true)
      {
        assert cells[i..][1..] == cells[i + 1..];
        ghost var before := bytes;
        WriteCellArrayField(cells[i]);
        assert bytes + Elements(cells[i + 1..], true) == before + Elements(cells[i..], true);
        i := i + 1;
      }
      assert bytes == bytes + Elements(cells[i..], true);
    }

    method WriteFields(fields: seq<Option<MatVar>>)
      requires AtEnd()
      modifies `bytes, `pos
      ensures AtEnd() && bytes == old(bytes) + Elements(fields, false)
      decreases fields
    {
      hide Element;
      var i := 0;
      while i < |fields|
        invariant 0 <= i <= |fields| && AtEnd()
        invariant bytes + Elements(fields[i..], false) == old(bytes) + Elements(fields, false)
      {
        assert fields[i..][1..] == fields[i + 1..];
        ghost var before := bytes;
        WriteStructField(fields[i]);
        assert bytes + Elements(fields[i + 1..], false) == before + Elements(fields[i..], false);
        i := i + 1;
      }
      assert bytes == bytes + Elements(fields[i..], false);
    }

    /** The length behind the tag is written as zero. */
    method OpenLength() returns (start: nat)
      requires AtEnd()
      modifies `bytes, `pos
      ensures AtEnd() && bytes == old(bytes) + Tag(MAT_T_MATRIX, 0)
      ensures start == pos
    {
      Append(Le32(MAT_T_MATRIX));
      Append(Le32(0));
      start := pos;
    }

    method WriteCellArrayField(cell: Option<MatVar>)
      requires AtEnd()
      modifies `bytes, `pos
      ensures AtEnd() && bytes == old(bytes) + Element(cell, true)
      decreases cell
    {
      hide Le32, Head, Content, OptionalName;
      if cell.None? {
        return;
      }
      var v := cell.value;
      var start := OpenLength();
      if v.header.cls == MAT_C_EMPTY {
        return;
      }
      WriteHead(v.header);
      WriteName(v.name);
      WriteType(v.header.cls, v.data);
      ghost var body := Body(v, OptionalName(v.name));
      assert bytes == old(bytes) + Tag(MAT_T_MATRIX, 0) + body;
      CloseLength(start);
      FilledIn(old(bytes), body, bytes);
    }

    method WriteStructField(field: Option<MatVar>)
      requires AtEnd()
      modifies `bytes, `pos
      ensures AtEnd() && bytes == old(bytes) + Element(field, false)
      decreases field
    {
      hide Le32, Head, Content;
      if field.None? {
        WriteEmptyVariable5();
        return;
      }
      var v := field.value;
      var start := OpenLength();
      if v.header.cls == MAT_C_EMPTY {
        return;
      }
      WriteHead(v.header);
      Append(NoName);
      WriteType(v.header.cls, v.data);
      ghost var body := Body(v, NoName);
      assert bytes == old(bytes) + Tag(MAT_T_MATRIX, 0) + body;
      CloseLength(start);
      FilledIn(old(bytes), body, bytes);
    }

    /** An empty double, in place of a field that is missing. */
    method WriteEmptyVariable5()
      requires AtEnd()
      modifies `bytes, `pos
      ensures AtEnd() && bytes == old(bytes) + Element(None, false)
    {
      hide Le32, Head;
      var start := OpenLength();
      WriteHead(EmptyField.header);
      Append(NoName);
      WriteData(MAT_C_DOUBLE, []);
      ghost var body := Head(EmptyField.header) + (NoName + Block(MAT_T_DOUBLE, []));
      assert bytes == old(bytes) + Tag(MAT_T_MATRIX, 0) + body;
      CloseLength(start);
      FilledIn(old(bytes), body, bytes);
    }

    /** Mat_VarWrite5 without compression: always at the end of the file. */
    method VarWrite5(name: Name, v: MatVar)
      modifies `bytes, `pos
      ensures AtEnd() && bytes == old(bytes) + Encode(name, v)
    {
      hide Le32, Head, Content, NameBytes;
      Seek(|bytes|);
      var start := OpenLength();
      WriteHead(v.header);
      WriteName(Some(name));
      WriteType(v.header.cls, v.data);
      ghost var body := Body(v, NameBytes(name));
      assert bytes == old(bytes) + Tag(MAT_T_MATRIX, 0) + body;
      CloseLength(start);
      FilledIn(old(bytes), body, bytes);
    }
  }

  lemma FilledIn(before: seq<Byte>, body: seq<Byte>, after: seq<Byte>)
    requires var open := before + Tag(MAT_T_MATRIX, 0) + body;
             after == open[..|before| + 4] + Le32(|body|) + open[|before| + 8..]
    ensures after == before + Sized(body)
  {
  }
}
