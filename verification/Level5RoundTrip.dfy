/** What was written at a place in the file is what is read there. */
module Level5RoundTrip {
  import opened Common
  import opened Subscripts
  import opened Level5
  import opened Level5Reader

  // ----- Bytes -----

  ghost predicate Has(file: seq<Byte>, pos: nat, chunk: seq<Byte>) {
    pos + |chunk| <= |file| && file[pos..pos + |chunk|] == chunk
  }

  lemma HasBoth(file: seq<Byte>, pos: nat, a: seq<Byte>, b: seq<Byte>)
    requires Has(file, pos, a + b)
    ensures Has(file, pos, a) && Has(file, pos + |a|, b)
  {
    var chunk := file[pos..pos + |a + b|];
    assert chunk[..|a|] == a && chunk[|a|..] == b;
  }

  lemma HasWord(file: seq<Byte>, pos: nat, n: nat)
    requires Has(file, pos, Le32(n)) && n < 0x1_0000_0000
    ensures pos + 4 <= |file| && Word(file, pos) == n
  {
    hide Le32, U32;
    U32OfLe32(n);
  }

  lemma HasTag(file: seq<Byte>, pos: nat, t: nat, size: nat)
    requires Has(file, pos, Tag(t, size)) && t < 0x1_0000_0000 && size < 0x1_0000_0000
    ensures pos + 8 <= |file| && Word(file, pos) == t && Word(file, pos + 4) == size
  {
    hide Le32, Word, Has;
    HasBoth(file, pos, Le32(t), Le32(size));
    HasWord(file, pos, t);
    HasWord(file, pos + 4, size);
    assert pos + 8 <= |file| by { WithinFile(file, pos, Tag(t, size)); }
  }

  lemma WithinFile(file: seq<Byte>, pos: nat, chunk: seq<Byte>)
    requires Has(file, pos, chunk)
    ensures pos + |chunk| <= |file| && file[pos..pos + |chunk|] == chunk
  {
  }

  // ----- Headers -----

  lemma {:induction false} WordsAreRead(file: seq<Byte>, pos: nat, dims: seq<nat>)
    requires Has(file, pos, Words(dims)) && Words32(dims)
    ensures pos + 4 * |dims| <= |file| && ReadWords(file, pos, |dims|) == dims
    decreases |dims|
  {
    hide Le32, Word, Has;
    WithinFile(file, pos, Words(dims));
    if dims != [] {
      HasBoth(file, pos, Le32(dims[0]), Words(dims[1..]));
      HasWord(file, pos, dims[0]);
      WordsAreRead(file, pos + 4, dims[1..]);
    }
  }

  lemma FlagsAreRead(h: Header)
    requires h.cls <= MAT_C_OPAQUE && NzmaxOk(h)
    ensures Flags(h) < 0x1_0000_0000 && HeaderFromFlags(Flags(h), h.nzmax, h.dims) == h
  {
    var x, y, z := if h.complex then 1 else 0, if h.global then 1 else 0, if h.logical then 1 else 0;
    Bits(h.cls, x, y, z);
    assert Flags(h) == h.cls + x * 0x800 + y * 0x400 + z * 0x200;
    hide Flags;
  }

  lemma Bits(c: nat, x: nat, y: nat, z: nat)
    requires c < 256 && x <= 1 && y <= 1 && z <= 1
    ensures var f := c + x * 0x800 + y * 0x400 + z * 0x200;
            f % 256 == c && f / 0x800 % 2 == x && f / 0x400 % 2 == y && f / 0x200 % 2 == z
  {
    var f := c + x * 0x800 + y * 0x400 + z * 0x200;
    assert f / 0x800 == x;
    assert f / 0x400 == 2 * x + y;
    assert f / 0x200 == 4 * x + 2 * y + z;
  }

  lemma HeadIsRead(file: seq<Byte>, pos: nat, h: Header, top: bool)
    requires Has(file, pos, Head(h))
    requires h.cls <= MAT_C_OPAQUE && Words32(h.dims) && NzmaxOk(h) && |Head(h)| < 0x1_0000_0000
    ensures |Head(h)| == 24 + 4 * |h.dims| + 4 * (|h.dims| % 2)
    ensures ReadHead(file, pos, top) == HeadRead(h, pos + |Head(h)|)
  {
    hide Le32, Word, Has, Words, Flags, HeaderFromFlags, Words32, ReadWords, Tag;
    var a, b, c, d := Tag(MAT_T_UINT32, 8), Le32(Flags(h)) + Le32(h.nzmax), Tag(MAT_T_INT32, 4 * |h.dims|), Words(h.dims) + Zeros(4 * (|h.dims| % 2));
    FlagsAreRead(h);
    WithinFile(file, pos, Head(h));
    HasBoth(file, pos, a + b + c, d);
    HasBoth(file, pos, a + b, c);
    HasBoth(file, pos, a, b);
    HasTag(file, pos, MAT_T_UINT32, 8);
    HasBoth(file, pos + 8, Le32(Flags(h)), Le32(h.nzmax));
    HasWord(file, pos + 8, Flags(h));
    HasWord(file, pos + 12, h.nzmax);
    HasTag(file, pos + 16, MAT_T_INT32, 4 * |h.dims|);
    HasBoth(file, pos + 24, Words(h.dims), Zeros(4 * (|h.dims| % 2)));
    WordsAreRead(file, pos + 24, h.dims);
  }

  // ----- Names -----

  lemma {:induction false} CStringOf(name: Name, rest: seq<Byte>)
    requires NulFree(name) && (rest != [] ==> rest[0] == 0)
    ensures CString(name + rest) == name
  {
    if name == [] {
      assert name + rest == rest;
    } else {
      assert (name + rest)[1..] == name[1..] + rest;
      CStringOf(name[1..], rest);
    }
  }

  /** The tag in front of a name, as the first word and as the second. */
  lemma NameTag(file: seq<Byte>, pos: nat, name: Name)
    requires Has(file, pos, NameBytes(name)) && |name| < 0x8000_0000
    ensures pos + 8 <= |file| && 8 <= |NameBytes(name)|
    ensures |name| <= 4 ==> Word(file, pos) == MAT_T_INT8 + |name| * 65536
    ensures |name| == 0 ==> Word(file, pos + 4) == 0
    ensures |name| <= 4 ==> |NameBytes(name)| == 8 && Has(file, pos + 4, name)
    ensures |name| > 4 ==> Word(file, pos) == MAT_T_INT8 && Word(file, pos + 4) == |name|
    ensures |name| > 4 ==> |NameBytes(name)| == 8 + |name| + Pad8(|name|) && Has(file, pos + 8, name)
  {
    hide Le32, Word, Has, Tag, Pad8;
    WithinFile(file, pos, NameBytes(name));
    if |name| <= 4 {
      HasBoth(file, pos, Le32(MAT_T_INT8 + |name| * 65536), name + Zeros(4 - |name|));
      HasWord(file, pos, MAT_T_INT8 + |name| * 65536);
      HasBoth(file, pos + 4, name, Zeros(4 - |name|));
      if name == [] {
        ZeroWord();
        assert name + Zeros(4 - |name|) == Le32(0);
        HasWord(file, pos + 4, 0);
      }
    } else {
      HasBoth(file, pos, Tag(MAT_T_INT8, |name|), name + Zeros(Pad8(|name|)));
      HasTag(file, pos, MAT_T_INT8, |name|);
      HasBoth(file, pos + 8, name, Zeros(Pad8(|name|)));
    }
  }

  lemma ZeroWord()
    ensures Le32(0) == Zeros(4)
  {
  }

  lemma SkipIs(n: nat)
    requires n < 0x8000_0000
    ensures SkipName(MAT_T_INT8, n) == Some(n + Pad8(n))
  {
  }

  lemma NameIsRead(file: seq<Byte>, pos: nat, name: Name)
    requires Has(file, pos, NameBytes(name)) && |name| < 0x8000_0000 && NulFree(name)
    ensures pos + 8 <= |file| && ReadName(file, pos) == Some((Some(name), pos + |NameBytes(name)|))
  {
    hide Le32, Word, Has, Pad8, NameBytes, SkipName, CString;
    NameTag(file, pos, name);
    CStringOf(name, []);
    assert name + [] == name;
    SkipIs(|name|);
    WithinFile(file, pos, NameBytes(name));
    if |name| == 0 {
      assert file[pos + 8..pos + 8] == name;
    } else if |name| <= 4 {
      PackedTag(|name|);
      WithinFile(file, pos + 4, name);
    } else {
      WithinFile(file, pos + 8, name);
    }
  }

  lemma PackedTag(n: nat)
    requires n <= 4
    ensures (MAT_T_INT8 + n * 65536) / 65536 == n && (MAT_T_INT8 + n * 65536) % 65536 == MAT_T_INT8
  {
  }

  /** What a cell skips for its name. */
  lemma NameIsSkipped(file: seq<Byte>, pos: nat, name: Option<Name>)
    requires Has(file, pos, OptionalName(name)) && |OptionalName(name)| < 0x8000_0000
    ensures pos + 8 <= |file| && 8 <= |OptionalName(name)|
    ensures SkipName(Word(file, pos), Word(file, pos + 4)) == Some(|OptionalName(name)| - 8)
  {
    hide Le32, Word, Has, Pad8, NameBytes;
    if name.None? {
      HasTag(file, pos, MAT_T_INT8, 0);
    } else {
      var n := |name.value|;
      NameLength(name.value);
      NameTag(file, pos, name.value);
      if n > 4 {
        SkipIs(n);
      } else {
        PackedTag(n);
      }
    }
  }

  lemma NameLength(name: Name)
    ensures |name| <= |NameBytes(name)|
  {
  }

  // ----- Structs -----

  lemma {:induction false} SlotsAreRead(file: seq<Byte>, pos: nat, names: seq<Name>, size: nat)
    requires forall k | 0 <= k < |names| :: |names[k]| < size && NulFree(names[k])
    requires 0 < size && Has(file, pos, Slots(names, size))
    ensures pos + |names| * size <= |file| && SlotNames(file, pos, |names|, size) == names
    decreases |names|
  {
    hide Has, CString;
    WithinFile(file, pos, Slots(names, size));
    if names != [] {
      var slot := names[0] + Zeros(size - |names[0]|);
      HasBoth(file, pos, slot, Slots(names[1..], size));
      SlotsAreRead(file, pos + size, names[1..], size);
      WithinFile(file, pos, slot);
      assert slot[..size - 1] == names[0] + Zeros(size - 1 - |names[0]|);
      assert file[pos..pos + size - 1] == slot[..size - 1];
      CStringOf(names[0], Zeros(size - 1 - |names[0]|));
      OneSlot(|names|, size);
    }
  }

  lemma NamesAreRead(file: seq<Byte>, pos: nat, names: seq<Name>)
    requires forall k | 0 <= k < |names| :: NulFree(names[k])
    requires Has(file, pos, StructHead(names)) && |StructHead(names)| < 0x8000_0000
    ensures ReadNames(file, pos) == Some((names, |names|, pos + |StructHead(names)|))
  {
    hide Le32, Word, Has, Slots, NamesSize, SlotNames, Pad8, Fits, Tag;
    var first := Le32(4 * 65536 + MAT_T_INT32);
    WithinFile(file, pos, StructHead(names));
    if names == [] {
      HasBoth(file, pos, first + Le32(1), Tag(MAT_T_INT8, 0));
      HasBoth(file, pos, first, Le32(1));
      HasWord(file, pos, 4 * 65536 + MAT_T_INT32);
      HasWord(file, pos + 4, 1);
      HasTag(file, pos + 8, MAT_T_INT8, 0);
      NoSlots(file, pos + 16);
    } else {
      var size, n := NamesSize(names), |names|;
      SizeOfNames(names);
      AtLeast(n, size);
      HasBoth(file, pos, first + Le32(size) + Tag(MAT_T_INT8, n * size), Slots(names, size));
      HasBoth(file, pos, first + Le32(size), Tag(MAT_T_INT8, n * size));
      HasBoth(file, pos, first, Le32(size));
      HasWord(file, pos, 4 * 65536 + MAT_T_INT32);
      HasWord(file, pos + 4, size);
      HasTag(file, pos + 8, MAT_T_INT8, n * size);
      SlotsAreRead(file, pos + 16, names, size);
      CountIs(n, size);
    }
  }

  lemma NoSlots(file: seq<Byte>, pos: nat)
    requires pos <= |file|
    ensures Count(0, 1) == 0 && ReadSlots(file, pos, 0, 1) == Some(([], 0, pos))
  {
  }

  lemma SizeOfNames(names: seq<Name>)
    requires names != []
    ensures 0 < NamesSize(names) && Pad8(|names| * NamesSize(names)) == 0
    ensures forall k | 0 <= k < |names| :: |names[k]| < NamesSize(names)
  {
  }

  lemma AtLeast(n: nat, size: nat)
    requires 0 < n
    ensures size <= n * size
  {
    NonNegative(n - 1, size);
  }

  lemma CountIs(n: nat, size: nat)
    requires 0 < size
    ensures Count(n * size, size) == n
  {
    Quotients(n * size / size, n, size, n * size % size);
  }

  lemma Quotients(q: int, n: int, size: int, r: int)
    requires 0 <= r < size && n * size == size * q + r
    ensures q == n
  {
    SameDigit(size, 0, n, r, q);
  }

  // ----- Data -----

  lemma BlockIsRead(file: seq<Byte>, pos: nat, cls: nat, data: seq<Byte>, n: nat)
    requires IsNumeric(cls) && |data| == n * SizeOfClass(cls)
    requires Has(file, pos, Block(TypeOfClass(cls), data)) && |Block(TypeOfClass(cls), data)| < 0x8000_0000
    ensures ReadNumeric(file, pos, cls, n) == Some((data, pos + |Block(TypeOfClass(cls), data)|))
  {
    hide Le32, Word, Has, Pad8, Tag, SizeOfClass, TypeOfClass;
    var t := TypeOfClass(cls);
    TypeIsSmall(cls);
    var tag, pad := Tag(t, |data|), Zeros(Pad8(|data|));
    WithinFile(file, pos, Block(t, data));
    HasBoth(file, pos, tag + data, pad);
    HasBoth(file, pos, tag, data);
    HasTag(file, pos, t, |data|);
    WithinFile(file, pos + 8, data);
    PadOfNothing();
  }

  lemma TextIsRead(file: seq<Byte>, pos: nat, text: seq<Byte>, n: nat)
    requires n <= |text|
    requires Has(file, pos, Block(MAT_T_UTF8, text)) && |Block(MAT_T_UTF8, text)| < 0x8000_0000
    ensures ReadText(file, pos, n) == Some(text)
  {
    hide Le32, Word, Has, Pad8, Tag;
    var tag, pad := Tag(MAT_T_UTF8, |text|), Zeros(Pad8(|text|));
    WithinFile(file, pos, Block(MAT_T_UTF8, text));
    HasBoth(file, pos, tag + text, pad);
    HasBoth(file, pos, tag, text);
    HasTag(file, pos, MAT_T_UTF8, |text|);
    WithinFile(file, pos + 8, text);
  }

  lemma IndicesAreRead(file: seq<Byte>, pos: nat, ws: seq<nat>)
    requires Words32(ws)
    requires Has(file, pos, Block(MAT_T_UINT32, Words(ws))) && |Block(MAT_T_UINT32, Words(ws))| < 0x8000_0000
    ensures ReadSparse(file, pos) == Some((ws, pos + |Block(MAT_T_UINT32, Words(ws))|))
  {
    hide Le32, Word, Has, Pad8, Tag, Words, ReadWords, Words32;
    var tag, pad := Tag(MAT_T_UINT32, 4 * |ws|), Zeros(Pad8(4 * |ws|));
    WithinFile(file, pos, Block(MAT_T_UINT32, Words(ws)));
    HasBoth(file, pos, tag + Words(ws), pad);
    HasBoth(file, pos, tag, Words(ws));
    HasTag(file, pos, MAT_T_UINT32, 4 * |ws|);
    WordsAreRead(file, pos + 8, ws);
    PadOfNothing();
  }

  /** The number of values is found again; in a logical matrix it comes out eight times as large. */
  lemma CountIsRead(file: seq<Byte>, pos: nat, values: seq<Byte>)
    requires Has(file, pos, Block(MAT_T_DOUBLE, values)) && |Block(MAT_T_DOUBLE, values)| < 0x8000_0000
    ensures ReadCount(file, pos, false) == Some(|values| / 8)
    ensures ReadCount(file, pos, true) == Some(|values|)
  {
    hide Le32, Word, Has, Pad8, Tag;
    var tag, pad := Tag(MAT_T_DOUBLE, |values|), Zeros(Pad8(|values|));
    WithinFile(file, pos, Block(MAT_T_DOUBLE, values));
    HasBoth(file, pos, tag + values, pad);
    HasBoth(file, pos, tag, values);
    HasTag(file, pos, MAT_T_DOUBLE, |values|);
  }

  lemma SparseIsRead(file: seq<Byte>, pos: nat, v: MatVar)
    requires Storable(v) && v.data.Sparse?
    requires Has(file, pos, Content(v.header.cls, v.data)) && |Content(v.header.cls, v.data)| < 0x8000_0000
    ensures ReadSparseData(file, pos, v.header) == Some(v.data)
  {
    SparseIsReadIff(file, pos, v.header, v.data);
  }

  /** A sparse matrix of doubles is read as written if and only if it is not logical or has no values.
      The doubles of a logical one are taken for bytes, eight times as many. */
  lemma SparseIsReadIff(file: seq<Byte>, pos: nat, h: Header, d: Data)
    requires d.Sparse? && Words32(d.ir) && Words32(d.jc) && |d.values| % 8 == 0
    requires (h.complex <==> d.imag.Some?) && (h.complex ==> !h.logical && |d.imag.value| == |d.values|)
    requires Has(file, pos, Content(MAT_C_SPARSE, d)) && |Content(MAT_C_SPARSE, d)| < 0x8000_0000
    ensures ReadSparseData(file, pos, h) == Some(d) <==> !h.logical || d.values == []
    ensures h.logical ==> ReadSparseBytes(file, pos) == Some((d.ir, d.jc, d.values))
  {
    hide Has, Block, Words, ReadNumeric, ReadSparse, ReadCount, Word;
    var a, b, c := Block(MAT_T_UINT32, Words(d.ir)), Block(MAT_T_UINT32, Words(d.jc)), Block(MAT_T_DOUBLE, d.values);
    var e := if d.imag.Some? then Block(MAT_T_DOUBLE, d.imag.value) else [];
    HasBoth(file, pos, a, b + (c + e));
    IndicesAreRead(file, pos, d.ir);
    HasBoth(file, pos + |a|, b, c + e);
    IndicesAreRead(file, pos + |a|, d.jc);
    HasBoth(file, pos + |a| + |b|, c, e);
    CountIsRead(file, pos + |a| + |b|, d.values);
    ValuesAt(file, pos + |a| + |b|, d.values);
    BlockIsRead(file, pos + |a| + |b|, MAT_C_DOUBLE, d.values, |d.values| / 8);
    if d.imag.Some? {
      BlockIsRead(file, pos + |a| + |b| + |c|, MAT_C_DOUBLE, d.imag.value, |d.values| / 8);
    }
  }

  lemma ValuesAt(file: seq<Byte>, pos: nat, values: seq<Byte>)
    requires Has(file, pos, Block(MAT_T_DOUBLE, values)) && |Block(MAT_T_DOUBLE, values)| < 0x8000_0000
    ensures pos + 8 + |values| <= |file| && file[pos + 8..pos + 8 + |values|] == values
    ensures Word(file, pos) / 65536 == 0
  {
    hide Le32, Word, Pad8, Tag;
    var tag, pad := Tag(MAT_T_DOUBLE, |values|), Zeros(Pad8(|values|));
    HasBoth(file, pos, tag + values, pad);
    HasBoth(file, pos, tag, values);
    HasTag(file, pos, MAT_T_DOUBLE, |values|);
  }

  lemma TypeIsSmall(cls: nat)
    ensures TypeOfClass(cls) < 256
  {
  }

  lemma PadOfNothing()
    ensures Pad8(0) == 0
  {
  }

  // ----- The tree of headers -----

  /** The data of a variable as reading the headers leaves them. */
  ghost function Placed(data: Data, pos: nat): Data
    decreases data
  {
    match data
    case Cells(cells) => Cells(PlacedChildren(cells, pos, true))
    case Struct(names, fields) => Struct(names, Named(names, 0, PlacedChildren(fields, pos + |StructHead(names)|, false)))
    case _ => At(pos)
  }

  ghost function PlacedChild(child: Option<MatVar>, pos: nat, inCell: bool): MatVar
    decreases child
  {
    if child.None? then MatVar(None, EmptyField.header, At(pos + 8 + |Head(EmptyField.header)| + |NoName|))
    else
      var v := child.value;
      if v.header.cls == MAT_C_EMPTY then MatVar(None, EmptyHeader, NoData)
      else MatVar(None, v.header, Placed(v.data, pos + 8 + |Head(v.header)| + |ChildName(v, inCell)|))
  }

  ghost function PlacedChildren(children: seq<Option<MatVar>>, pos: nat, inCell: bool): (r: seq<Option<MatVar>>)
    ensures |r| == |children|
    decreases children
  {
    if children == [] then []
    else [Some(PlacedChild(children[0], pos, inCell))] + PlacedChildren(children[1..], pos + |Element(children[0], inCell)|, inCell)
  }

  /** The part of an element before its content. */
  lemma ShellIsRead(file: seq<Byte>, pos: nat, h: Header, name: seq<Byte>, content: seq<Byte>, inCell: bool)
    requires var body := Head(h) + (name + content); Has(file, pos, Sized(body)) && |Sized(body)| < 0x8000_0000
    requires 0 < h.cls <= MAT_C_OPAQUE && Words32(h.dims) && NzmaxOk(h)
    requires if inCell then exists n :: name == OptionalName(n) else name == NoName
    ensures var datapos := pos + 8 + |Head(h)| + |name|;
            && Has(file, datapos, content)
            && ReadChild(file, pos, inCell) == Child(MatVar(None, h, ReadBody(file, datapos, h)), pos + |Sized(Head(h) + (name + content))|)
  {
    hide Le32, Word, Has, Tag, Head, OptionalName, ReadHead, ReadBody, Words32, SkipName;
    var body := Head(h) + (name + content);
    WithinFile(file, pos, Sized(body));
    HasBoth(file, pos, Tag(MAT_T_MATRIX, |body|), body);
    HasTag(file, pos, MAT_T_MATRIX, |body|);
    HasBoth(file, pos + 8, Head(h), name + content);
    HeadIsRead(file, pos + 8, h, false);
    HasBoth(file, pos + 8 + |Head(h)|, name, content);
    NoNameIs();
    if inCell {
      var n :| name == OptionalName(n);
      NameIsSkipped(file, pos + 8 + |Head(h)|, n);
    }
    RestOf(|body|, |Head(h)| + |name|);
  }

  lemma NoNameIs()
    ensures |NoName| == 8
  {
  }

  lemma RestOf(size: nat, part: nat)
    requires part <= size < 0x8000_0000
    ensures (size - part) % 0x1_0000_0000 == size - part
  {
  }

  lemma {:induction false} BodyIsRead(file: seq<Byte>, pos: nat, v: MatVar)
    requires Storable(v) && Has(file, pos, Content(v.header.cls, v.data)) && |Content(v.header.cls, v.data)| < 0x8000_0000
    ensures ReadBody(file, pos, v.header) == Placed(v.data, pos)
    decreases v
  {
    hide Has, ReadNames, ReadChildren, StructHead, Elements, PlacedChildren, Prod, Word, Le32, Tag;
    WithinFile(file, pos, Content(v.header.cls, v.data));
    match v.data
    case Cells(cells) => {
      ChildrenAreRead(file, pos, cells, true);
    }
    case Struct(names, fields) => {
      HasBoth(file, pos, StructHead(names), Elements(fields, false));
      NamesAreRead(file, pos, names);
      ChildrenAreRead(file, pos + |StructHead(names)|, fields, false);
    }
    case _ =>
  }

  lemma {:induction false} ChildIsRead(file: seq<Byte>, pos: nat, child: Option<MatVar>, inCell: bool)
    requires StorableChild(child) && (inCell ==> child.Some?)
    requires Has(file, pos, Element(child, inCell)) && |Element(child, inCell)| < 0x8000_0000
    ensures ReadChild(file, pos, inCell) == Child(PlacedChild(child, pos, inCell), pos + |Element(child, inCell)|)
    decreases child
  {
    hide Has, Head, Le32, Word, ReadHead, Block, Content, ReadNames, ReadChildren, SkipName, Storable, Tag, Placed;
    if child.None? {
      MissingFieldIsRead(file, pos);
    } else {
      var v := child.value;
      if v.header.cls == MAT_C_EMPTY {
        HasTag(file, pos, MAT_T_MATRIX, 0);
      } else {
        var name, content := ChildName(v, inCell), Content(v.header.cls, v.data);
        StorableClass(v);
        assert inCell ==> name == OptionalName(v.name);
        ShellIsRead(file, pos, v.header, name, content, inCell);
        BodyIsRead(file, pos + 8 + |Head(v.header)| + |name|, v);
      }
    }
  }

  lemma MissingFieldIsRead(file: seq<Byte>, pos: nat)
    requires Has(file, pos, Element(None, false)) && |Element(None, false)| < 0x8000_0000
    ensures ReadChild(file, pos, false) == Child(PlacedChild(None, pos, false), pos + |Element(None, false)|)
  {
    hide Has, Head, Le32, Word, ReadHead, Block, ReadNames, ReadChildren, ReadChild, Tag;
    ShellIsRead(file, pos, EmptyField.header, NoName, Block(MAT_T_DOUBLE, []), false);
  }

  lemma StorableClass(v: MatVar)
    requires Storable(v)
    ensures 0 < v.header.cls <= MAT_C_OPAQUE && Words32(v.header.dims) && NzmaxOk(v.header)
  {
  }

  lemma {:induction false} ChildrenAreRead(file: seq<Byte>, pos: nat, children: seq<Option<MatVar>>, inCell: bool)
    requires forall k | 0 <= k < |children| :: StorableChild(children[k]) && (inCell ==> children[k].Some?)
    requires Has(file, pos, Elements(children, inCell)) && |Elements(children, inCell)| < 0x8000_0000
    ensures ReadChildren(file, pos, |children|, inCell) == PlacedChildren(children, pos, inCell)
    decreases children
  {
    hide Has, Element, ReadChild, StorableChild;
    if children != [] {
      HasBoth(file, pos, Element(children[0], inCell), Elements(children[1..], inCell));
      ChildIsRead(file, pos, children[0], inCell);
      ChildrenAreRead(file, pos + |Element(children[0], inCell)|, children[1..], inCell);
    }
  }

  // ----- The data of the tree -----

  /** What reading makes of the name a child gets. */
  lemma {:induction false} DataIsRead(file: seq<Byte>, pos: nat, v: MatVar, name: Option<Name>)
    requires Storable(v) && Has(file, pos, Content(v.header.cls, v.data)) && |Content(v.header.cls, v.data)| < 0x8000_0000
    ensures ReadData(file, MatVar(name, v.header, Placed(v.data, pos))) == Some(Normalised(v, name))
    decreases v
  {
    hide Has, StructHead, Elements, PlacedChildren, NormalisedCells, NormalisedFields, Prod, ReadNumeric, ReadText, ReadSparseData, Block, Words;
    match v.data
    case Numeric(re, im) => {
      NumericIsRead(file, pos, v, name);
    }
    case Text(text) => {
      TextIsRead(file, pos, text, MulDims(v.header.dims));
    }
    case Sparse(_, _, _, _) => {
      SparseIsRead(file, pos, v);
    }
    case Cells(cells) => {
      AllCellsAreRead(file, pos, cells);
    }
    case Struct(names, fields) => {
      HasBoth(file, pos, StructHead(names), Elements(fields, false));
      WithinFile(file, pos, Content(v.header.cls, v.data));
      if names == [] {
        assert fields == [];
      }
      AllFieldsAreRead(file, pos + |StructHead(names)|, names, 0, fields);
    }
  }

  lemma NumericIsRead(file: seq<Byte>, pos: nat, v: MatVar, name: Option<Name>)
    requires Storable(v) && v.data.Numeric?
    requires Has(file, pos, Content(v.header.cls, v.data)) && |Content(v.header.cls, v.data)| < 0x8000_0000
    ensures ReadData(file, MatVar(name, v.header, At(pos))) == Some(MatVar(name, v.header, v.data))
  {
    hide Has, Block, ReadNumeric;
    var cls, n := v.header.cls, MulDims(v.header.dims);
    var first := Block(TypeOfClass(cls), v.data.re);
    var second := if v.data.im.Some? then Block(TypeOfClass(cls), v.data.im.value) else [];
    HasBoth(file, pos, first, second);
    BlockIsRead(file, pos, cls, v.data.re, n);
    if v.data.im.Some? {
      BlockIsRead(file, pos + |first|, cls, v.data.im.value, n);
    }
  }

  /** A child, under the name it is given. */
  lemma {:induction false} ChildDataAreRead(file: seq<Byte>, pos: nat, child: Option<MatVar>, name: Option<Name>, inCell: bool)
    requires StorableChild(child) && (inCell ==> child.Some?)
    requires Has(file, pos, Element(child, inCell)) && |Element(child, inCell)| < 0x8000_0000
    ensures ReadData(file, PlacedChild(child, pos, inCell).(name := name))
         == Some(if child.None? then EmptyField.(name := name) else Normalised(child.value, name))
    decreases child
  {
    hide Has, Head, Content, ReadData, Placed, NormalisedData, Tag, Storable, Block;
    if child.None? {
      EmptyFieldStorable();
      ContentOfElement(file, pos, EmptyField, NoName);
      NumericIsRead(file, pos + 8 + |Head(EmptyField.header)| + |NoName|, EmptyField, name);
    } else {
      var v := child.value;
      if v.header.cls == MAT_C_EMPTY {
        EmptyIsRead(file, name);
      } else {
        ContentOfElement(file, pos, v, ChildName(v, inCell));
        DataIsRead(file, pos + 8 + |Head(v.header)| + |ChildName(v, inCell)|, v, name);
      }
    }
  }

  lemma EmptyIsRead(file: seq<Byte>, name: Option<Name>)
    ensures ReadData(file, MatVar(name, EmptyHeader, NoData)) == Some(MatVar(name, EmptyHeader, NoData))
  {
  }

  lemma EmptyFieldStorable()
    ensures Storable(EmptyField)
    ensures Content(EmptyField.header.cls, EmptyField.data) == Block(MAT_T_DOUBLE, [])
  {
    assert [0, 0][..1] == [0];
    assert Prod([0, 0]) == Prod([0]) * 0;
  }

  lemma ContentOfElement(file: seq<Byte>, pos: nat, v: MatVar, name: seq<Byte>)
    requires Has(file, pos, Sized(Body(v, name)))
    ensures var datapos := pos + 8 + |Head(v.header)| + |name|; Has(file, datapos, Content(v.header.cls, v.data))
    ensures |Content(v.header.cls, v.data)| <= |Sized(Body(v, name))|
  {
    hide Has, Head, Tag, Content;
    var content := Content(v.header.cls, v.data);
    HasBoth(file, pos, Tag(MAT_T_MATRIX, |Body(v, name)|), Body(v, name));
    HasBoth(file, pos + 8, Head(v.header), name + content);
    HasBoth(file, pos + 8 + |Head(v.header)|, name, content);
  }

  lemma {:induction false} AllCellsAreRead(file: seq<Byte>, pos: nat, cells: seq<Option<MatVar>>)
    requires StorableCells(cells)
    requires Has(file, pos, Elements(cells, true)) && |Elements(cells, true)| < 0x8000_0000
    ensures ReadAll(file, PlacedChildren(cells, pos, true)) == Some(NormalisedCells(cells))
    decreases cells
  {
    hide Has, Element, PlacedChild, ReadData, Normalised, StorableChild;
    if cells != [] {
      HasBoth(file, pos, Element(cells[0], true), Elements(cells[1..], true));
      ChildDataAreRead(file, pos, cells[0], None, true);
      PlacedCellName(cells[0], pos);
      AllCellsAreRead(file, pos + |Element(cells[0], true)|, cells[1..]);
    }
  }

  lemma PlacedCellName(child: Option<MatVar>, pos: nat)
    ensures PlacedChild(child, pos, true).(name := None) == PlacedChild(child, pos, true)
  {
  }

  lemma {:induction false} AllFieldsAreRead(file: seq<Byte>, pos: nat, names: seq<Name>, i: nat, fields: seq<Option<MatVar>>)
    requires StorableFields(fields) && (fields != [] ==> names != [])
    requires Has(file, pos, Elements(fields, false)) && |Elements(fields, false)| < 0x8000_0000
    ensures ReadAll(file, Named(names, i, PlacedChildren(fields, pos, false))) == Some(NormalisedFields(names, i, fields))
    decreases fields
  {
    hide Has, Element, PlacedChild, ReadData, Normalised, StorableChild;
    if fields != [] {
      HasBoth(file, pos, Element(fields[0], false), Elements(fields[1..], false));
      ChildDataAreRead(file, pos, fields[0], Some(names[i % |names|]), false);
      AllFieldsAreRead(file, pos + |Element(fields[0], false)|, names, i + 1, fields[1..]);
    }
  }

  // ----- The round trip -----

  /** What was written for a variable is read as this variable, and the cursor is at its end. */
  lemma RoundTrip(file: seq<Byte>, pos: nat, name: Name, v: MatVar)
    requires Storable(v) && NulFree(name)
    requires Has(file, pos, Encode(name, v)) && |Encode(name, v)| < 0x8000_0000
    ensures ReadVariable(file, pos) == (Some(Normalised(v, Some(name))), pos + |Encode(name, v)|)
  {
    hide Has, Head, NameBytes, Tag, Content, Le32, Word, ReadHead, ReadName, ReadBody, Storable, ReadData, Normalised;
    var content := Content(v.header.cls, v.data);
    var body := Body(v, NameBytes(name));
    var datapos := pos + 8 + |Head(v.header)| + |NameBytes(name)|;
    StorableClass(v);
    WithinFile(file, pos, Encode(name, v));
    HasBoth(file, pos, Tag(MAT_T_MATRIX, |body|), body);
    HasTag(file, pos, MAT_T_MATRIX, |body|);
    HasBoth(file, pos + 8, Head(v.header), NameBytes(name) + content);
    HeadIsRead(file, pos + 8, v.header, true);
    HasBoth(file, pos + 8 + |Head(v.header)|, NameBytes(name), content);
    NameLength(name);
    NameIsRead(file, pos + 8 + |Head(v.header)|, name);
    BodyIsRead(file, datapos, v);
    DataIsRead(file, datapos, v, Some(name));
  }

  /** The variables of a file, one behind the other. */
  function EncodeAll(vars: seq<(Name, MatVar)>): seq<Byte> {
    if vars == [] then [] else Encode(vars[0].0, vars[0].1) + EncodeAll(vars[1..])
  }

  /** Mat_VarReadNext, `n` times. */
  function ReadVariables(file: seq<Byte>, pos: nat, n: nat): (r: seq<Option<MatVar>>)
    ensures |r| == n
    decreases n
  {
    if n == 0 then [] else
      var (v, next) := ReadVariable(file, pos);
      [v] + ReadVariables(file, next, n - 1)
  }

  lemma {:induction false} AllVariablesAreRead(file: seq<Byte>, pos: nat, vars: seq<(Name, MatVar)>)
    requires forall k | 0 <= k < |vars| ::
      NulFree(vars[k].0) && Storable(vars[k].1) && |Encode(vars[k].0, vars[k].1)| < 0x8000_0000
    requires Has(file, pos, EncodeAll(vars))
    ensures forall k | 0 <= k < |vars| ::
      ReadVariables(file, pos, |vars|)[k] == Some(Normalised(vars[k].1, Some(vars[k].0)))
    decreases |vars|
  {
    hide Has, Encode, ReadVariable, Normalised, Storable, NulFree;
    if vars != [] {
      var first := Encode(vars[0].0, vars[0].1);
      HasBoth(file, pos, first, EncodeAll(vars[1..]));
      RoundTrip(file, pos, vars[0].0, vars[0].1);
      AllVariablesAreRead(file, pos + |first|, vars[1..]);
      forall k | 0 <= k < |vars|
        ensures ReadVariables(file, pos, |vars|)[k] == Some(Normalised(vars[k].1, Some(vars[k].0)))
      {
        if k > 0 {
          assert vars[1..][k - 1] == vars[k];
        }
      }
    }
  }

  // ----- What has been read does not change any more -----

  lemma {:induction false} NormalisedTwice(v: MatVar, name: Option<Name>)
    ensures Normalised(Normalised(v, name), name) == Normalised(v, name)
    decreases v
  {
    match v.data
    case Cells(cells) => {
      CellsTwice(cells);
    }
    case Struct(names, fields) => {
      FieldsTwice(names, 0, fields);
    }
    case _ =>
  }

  lemma {:induction false} ChildTwice(child: Option<MatVar>, name: Option<Name>)
    ensures NormalisedChild(NormalisedChild(child, name), name) == NormalisedChild(child, name)
    decreases child
  {
    if child.Some? {
      NormalisedTwice(child.value, name);
    }
  }

  lemma {:induction false} CellsTwice(cells: seq<Option<MatVar>>)
    ensures NormalisedCells(NormalisedCells(cells)) == NormalisedCells(cells)
    decreases cells
  {
    hide NormalisedChild;
    if cells != [] {
      ChildTwice(cells[0], None);
      CellsTwice(cells[1..]);
      assert NormalisedCells(cells)[1..] == NormalisedCells(cells[1..]);
    }
  }

  lemma {:induction false} FieldsTwice(names: seq<Name>, i: nat, fields: seq<Option<MatVar>>)
    ensures NormalisedFields(names, i, NormalisedFields(names, i, fields)) == NormalisedFields(names, i, fields)
    decreases fields
  {
    if fields != [] && names != [] {
      var name := Some(names[i % |names|]);
      ChildTwice(fields[0], name);
      FieldsTwice(names, i + 1, fields[1..]);
      assert NormalisedFields(names, i, fields)[1..] == NormalisedFields(names, i + 1, fields[1..]);
      FieldTwice(fields[0], name);
    }
  }

  lemma FieldTwice(field: Option<MatVar>, name: Option<Name>)
    requires NormalisedChild(NormalisedChild(field, name), name) == NormalisedChild(field, name)
    ensures field.Some? ==> NormalisedChild(field, name).Some?
    ensures NormalisedChild(Some(EmptyField.(name := name)), name) == Some(EmptyField.(name := name))
  {
    var v := EmptyField.(name := name);
    assert NormalisedData(v.data) == v.data;
    assert Normalised(v, name) == v;
  }

  // ----- What has been read can be written and read again -----

  lemma {:induction false} NormalisedStorable(v: MatVar, name: Option<Name>)
    requires Storable(v) && (name.Some? ==> NulFree(name.value))
    ensures Storable(Normalised(v, name))
    ensures |Content(v.header.cls, Normalised(v, name).data)| <= |Content(v.header.cls, v.data)|
    decreases v
  {
    hide Block, Words, StructHead, Elements, MulDims, NulFree, StorableCells, StorableFields, NormalisedCells, NormalisedFields;
    match v.data
    case Cells(cells) => {
      CellsStorable(cells);
    }
    case Struct(names, fields) => {
      FieldsNeedNames(MulDims(v.header.dims), names, fields);
      FieldsStorable(names, 0, fields);
    }
    case _ =>
  }

  lemma FieldsNeedNames(n: nat, names: seq<Name>, fields: seq<Option<MatVar>>)
    requires |fields| == n * |names|
    ensures fields != [] ==> names != []
  {
  }

  /** An element gets no longer: only names can go. */
  lemma {:induction false} ChildStorable(child: Option<MatVar>, name: Option<Name>, inCell: bool)
    requires StorableChild(child) && (name.Some? ==> NulFree(name.value)) && (inCell ==> name == None)
    ensures StorableChild(NormalisedChild(child, name))
    ensures |Element(NormalisedChild(child, name), inCell)| <= |Element(child, inCell)|
    decreases child, 0
  {
    hide Storable, Content, Head, NulFree, NormalisedData, NameBytes;
    if child.Some? && child.value.header.cls != MAT_C_EMPTY {
      NormalisedStorable(child.value, name);
      ShorterName(child.value, name, inCell);
    }
  }

  lemma ShorterName(v: MatVar, name: Option<Name>, inCell: bool)
    requires inCell ==> name == None
    ensures |ChildName(Normalised(v, name), inCell)| <= |ChildName(v, inCell)|
  {
  }

  lemma {:induction false} CellsStorable(cells: seq<Option<MatVar>>)
    requires StorableCells(cells)
    ensures StorableCells(NormalisedCells(cells))
    ensures |Elements(NormalisedCells(cells), true)| <= |Elements(cells, true)|
    decreases cells
  {
    hide NormalisedChild, Element, StorableChild;
    if cells != [] {
      ChildStorable(cells[0], None, true);
      CellsStorable(cells[1..]);
      var r := NormalisedCells(cells);
      assert r[0] == NormalisedChild(cells[0], None) && r[1..] == NormalisedCells(cells[1..]);
      assert r[0].Some? by { NormalisedSome(cells[0], None); }
      assert forall k | 0 < k < |r| :: r[k] == r[1..][k - 1];
    }
  }

  lemma NormalisedSome(child: Option<MatVar>, name: Option<Name>)
    ensures child.Some? ==> NormalisedChild(child, name).Some?
  {
  }

  lemma {:induction false} FieldsStorable(names: seq<Name>, i: nat, fields: seq<Option<MatVar>>)
    requires StorableFields(fields) && (fields != [] ==> names != [])
    requires forall k | 0 <= k < |names| :: NulFree(names[k])
    ensures StorableFields(NormalisedFields(names, i, fields))
    ensures |Elements(NormalisedFields(names, i, fields), false)| <= |Elements(fields, false)|
    decreases fields
  {
    hide NormalisedChild, Element, StorableChild, NulFree;
    if fields != [] {
      var name := Some(names[i % |names|]);
      FieldStorable(fields[0], name);
      FieldsStorable(names, i + 1, fields[1..]);
      var r := NormalisedFields(names, i, fields);
      assert r[1..] == NormalisedFields(names, i + 1, fields[1..]);
      assert forall k | 0 < k < |r| :: r[k] == r[1..][k - 1];
    }
  }

  lemma {:induction false} FieldStorable(field: Option<MatVar>, name: Option<Name>)
    requires StorableChild(field) && name.Some? && NulFree(name.value)
    ensures var f := if field.None? then Some(EmptyField.(name := name)) else NormalisedChild(field, name);
            StorableChild(f) && |Element(f, false)| <= |Element(field, false)|
    decreases field, 1
  {
    hide NulFree, Element;
    if field.None? {
      EmptyFieldStorable();
      EmptyFieldElement(name);
    } else {
      ChildStorable(field, name, false);
    }
  }

  lemma EmptyFieldElement(name: Option<Name>)
    ensures Element(Some(EmptyField.(name := name)), false) == Element(None, false)
  {
    EmptyFieldStorable();
  }

  /** Written and read once, a variable is written and read any number of times without a change. */
  lemma ReadAgain(file: seq<Byte>, pos: nat, name: Name, v: MatVar)
    requires Storable(v) && NulFree(name) && |Encode(name, v)| < 0x8000_0000
    requires Has(file, pos, Encode(name, Normalised(v, Some(name))))
    ensures ReadVariable(file, pos)
            == (Some(Normalised(v, Some(name))), pos + |Encode(name, Normalised(v, Some(name)))|)
  {
    hide Has, Storable, ReadVariable, Normalised, Content, Head, NameBytes, NulFree;
    var again := Normalised(v, Some(name));
    NormalisedStorable(v, Some(name));
    NormalisedTwice(v, Some(name));
    SameHeader(v, Some(name));
    RoundTrip(file, pos, name, again);
  }

  lemma SameHeader(v: MatVar, name: Option<Name>)
    requires Storable(v)
    ensures Normalised(v, name).header == v.header
  {
  }
}
