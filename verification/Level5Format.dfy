/** The bytes of a Level 5 file by their places and values, as every other program finds and leaves them,
    whatever the writer and the reader here agree on. The position of an element follows from the length
    of the one before it. */
module Level5Format {
  import opened Common
  import opened Subscripts
  import opened Level5
  import opened Level5Reader
  import opened Level5RoundTrip

  // ----- The format -----

  /** Four bytes, the least significant one first. */
  function Number(b: seq<Byte>, p: nat): nat
    requires p + 4 <= |b|
  {
    (b[p] as int) + 256 * (b[p + 1] as int) + 65536 * (b[p + 2] as int) + 16777216 * (b[p + 3] as int)
  }

  ghost predicate IsTag(b: seq<Byte>, p: nat, t: nat, n: nat) {
    p + 8 <= |b| && Number(b, p) == t && Number(b, p + 4) == n
  }

  ghost predicate IsZero(b: seq<Byte>, p: nat, next: nat) {
    p <= next <= |b| && forall k | p <= k < next :: b[k] == 0
  }

  /** Behind `n` bytes of data and their tag, at a multiple of 8 bytes. */
  function Behind(p: nat, n: nat): nat {
    p + 8 + (n + 7) / 8 * 8
  }

  ghost predicate IsBlock(b: seq<Byte>, p: nat, t: nat, data: seq<Byte>) {
    && IsTag(b, p, t, |data|)
    && p + 8 + |data| <= |b| && b[p + 8..p + 8 + |data|] == data
    && IsZero(b, p + 8 + |data|, Behind(p, |data|))
  }

  /** One to four bytes of data in the tag, behind their number. */
  ghost predicate IsPacked(b: seq<Byte>, p: nat, t: nat, data: seq<Byte>) {
    && p + 8 <= |b| && 1 <= |data| <= 4
    && b[p] == t && b[p + 1] == 0 && b[p + 2] == |data| && b[p + 3] == 0
    && b[p + 4..p + 4 + |data|] == data
  }

  /** Programs may pack what is that short; the writer here does so with names only. */
  ghost predicate IsStored(b: seq<Byte>, p: nat, t: nat, data: seq<Byte>, packed: bool) {
    IsBlock(b, p, t, data) || (packed && IsPacked(b, p, t, data))
  }

  /** Behind `n` bytes of data, in the tag or not. */
  function StoredEnd(b: seq<Byte>, p: nat, n: nat): nat {
    if p + 4 <= |b| && b[p + 2] != 0 then p + 8 else Behind(p, n)
  }

  ghost predicate IsWords(b: seq<Byte>, p: nat, ws: seq<nat>) {
    p + 4 * |ws| <= |b| && forall k | 0 <= k < |ws| :: Number(b, p + 4 * k) == ws[k]
  }

  ghost predicate IsWordBlock(b: seq<Byte>, p: nat, ws: seq<nat>, packed: bool) {
    || (IsTag(b, p, 6, 4 * |ws|) && IsWords(b, p + 8, ws) && IsZero(b, p + 8 + 4 * |ws|, Behind(p, 4 * |ws|)))
    || (packed && |ws| == 1 && p + 8 <= |b| && b[p] == 6 && b[p + 1] == 0 && b[p + 2] == 4 && b[p + 3] == 0 && IsWords(b, p + 4, ws))
  }

  function HeaderEnd(p: nat, rank: nat): nat {
    p + 24 + 4 * rank + 4 * (rank % 2)
  }

  /** Class, the bits for complex, global and logical, the room of a sparse matrix, and the dims. */
  ghost predicate IsHeader(b: seq<Byte>, p: nat, h: Header) {
    IsHeaderOf(b, p, h, 6)
  }

  /** The same, with the flags tagged as of type `t`. */
  ghost predicate IsHeaderOf(b: seq<Byte>, p: nat, h: Header, t: nat) {
    var rank := |h.dims|;
    && HeaderEnd(p, rank) <= |b|
    && IsTag(b, p, t, 8)
    && b[p + 8] == h.cls
    && b[p + 9] == (if h.complex then 8 else 0) + (if h.global then 4 else 0) + (if h.logical then 2 else 0)
    && b[p + 10] == b[p + 11] == 0
    && Number(b, p + 12) == h.nzmax
    && IsTag(b, p + 16, 5, 4 * rank) && IsWords(b, p + 24, h.dims)
    && IsZero(b, p + 24 + 4 * rank, HeaderEnd(p, rank))
  }

  /** Up to four characters are in the tag; other programs may also write them behind it. */
  ghost predicate IsName(b: seq<Byte>, p: nat, name: Name, packed: bool) {
    || (|name| > 4 && IsBlock(b, p, 1, name))
    || (packed && IsBlock(b, p, 1, name))
    || (&& |name| <= 4 && p + 8 <= |b|
        && b[p] == 1 && b[p + 1] == 0 && b[p + 2] == |name| && b[p + 3] == 0
        && b[p + 4..p + 4 + |name|] == name
        && IsZero(b, p + 4 + |name|, p + 8))
  }

  /** The data type for the classes from double to unsigned 64-bit. */
  function StoredType(cls: nat): nat
    requires 6 <= cls <= 15
  {
    [9, 7, 1, 2, 3, 4, 5, 6, 12, 13][cls - 6]
  }

  /** Names in slots of `size` bytes, each with a NUL behind it. */
  ghost predicate IsSlots(b: seq<Byte>, p: nat, names: seq<Name>, size: nat)
    decreases |names|
  {
    names == [] || (
      && p + size <= |b| && |names[0]| < size
      && b[p..p + |names[0]|] == names[0]
      && IsZero(b, p + |names[0]|, p + size)
      && IsSlots(b, p + size, names[1..], size))
  }

  ghost predicate IsNames(b: seq<Byte>, p: nat, names: seq<Name>, packed: bool, next: nat) {
    && p + 16 <= |b|
    && b[p] == 5 && b[p + 1] == 0 && b[p + 2] == 4 && b[p + 3] == 0
    && var size := Number(b, p + 4);
       && 1 <= size && 0 <= |names| * size
       && (|| (IsTag(b, p + 8, 1, |names| * size) && IsSlots(b, p + 16, names, size)
               && p + 16 + |names| * size <= |b| && next == Behind(p + 8, |names| * size))
           || (packed && 1 <= |names| * size <= 4 && IsSlots(b, p + 12, names, size) && next == p + 16
               && b[p + 8] == 1 && b[p + 9] == 0 && b[p + 10] == |names| * size && b[p + 11] == 0))
  }

  ghost predicate IsData(b: seq<Byte>, p: nat, cls: nat, data: Data, packed: bool, next: nat)
    decreases data
  {
    match data
    case Numeric(re, im) =>
      var q := StoredEnd(b, p, |re|);
      && 6 <= cls <= 15 && IsStored(b, p, StoredType(cls), re, packed)
      && if im.None? then next == q
         else IsStored(b, q, StoredType(cls), im.value, packed) && next == StoredEnd(b, q, |im.value|)
    case Text(text) => IsStored(b, p, 16, text, packed) && next == StoredEnd(b, p, |text|)
    case Sparse(ir, jc, values, imag) =>
      var q := StoredEnd(b, p, 4 * |ir|);
      var r := StoredEnd(b, q, 4 * |jc|);
      && IsWordBlock(b, p, ir, packed) && IsWordBlock(b, q, jc, packed) && IsBlock(b, r, 9, values)
      && if imag.None? then next == Behind(r, |values|)
         else IsBlock(b, Behind(r, |values|), 9, imag.value) && next == Behind(Behind(r, |values|), |imag.value|)
    case Cells(cells) => IsChildren(b, p, cells, true, packed, next)
    case Struct(names, fields) =>
      exists q: nat :: IsNames(b, p, names, packed, q) && IsChildren(b, q, fields, false, packed, next)
    case _ => false
  }

  ghost predicate IsChildren(b: seq<Byte>, p: nat, children: seq<Option<MatVar>>, inCell: bool, packed: bool, next: nat)
    decreases children
  {
    if children == [] then p == next
    else
      && p + 8 <= |b| && IsChild(b, p, children[0], inCell, packed)
      && IsChildren(b, p + 8 + Number(b, p + 4), children[1..], inCell, packed, next)
  }

  const EmptyDouble: seq<Byte> :=
    [14, 0, 0, 0, 48, 0, 0, 0]
    + ([6, 0, 0, 0, 8, 0, 0, 0, 6, 0, 0, 0, 0, 0, 0, 0, 5, 0, 0, 0, 8, 0, 0, 0, 0, 0, 0, 0, 0, 0, 0, 0]
       + ([1, 0, 0, 0, 0, 0, 0, 0] + [9, 0, 0, 0, 0, 0, 0, 0]))

  /** A field that is missing is an empty double; what is empty itself has no length; names stand with
      cells, but not with fields. */
  ghost predicate IsChild(b: seq<Byte>, p: nat, child: Option<MatVar>, inCell: bool, packed: bool)
    decreases child
  {
    if child.None? then p + 56 <= |b| && b[p..p + 56] == EmptyDouble
    else if child.value.header.cls == 0 then IsTag(b, p, 14, 0)
    else if inCell then IsVariable(b, p, child.value, if child.value.name.Some? then child.value.name.value else [], packed)
    else IsVariable(b, p, child.value, [], packed)
  }

  /** Behind a name, whichever way it is written. */
  function NameEnd(b: seq<Byte>, p: nat, name: Name): nat {
    StoredEnd(b, p, |name|)
  }

  ghost predicate IsVariable(b: seq<Byte>, p: nat, v: MatVar, name: Name, packed: bool)
    decreases v
  {
    && p + 8 <= |b| && Number(b, p) == 14 && p + 8 + Number(b, p + 4) <= |b|
    && var q := HeaderEnd(p + 8, |v.header.dims|);
       && IsHeader(b, p + 8, v.header) && IsName(b, q, name, packed)
       && IsData(b, NameEnd(b, q, name), v.header.cls, v.data, packed, p + 8 + Number(b, p + 4))
  }

  // ----- What is written is in the format -----

  lemma NumberIsWord(b: seq<Byte>, p: nat)
    requires p + 4 <= |b|
    ensures Number(b, p) == Word(b, p)
  {
  }

  lemma TagIs(b: seq<Byte>, p: nat, t: nat, n: nat)
    requires Has(b, p, Tag(t, n)) && t < 0x1_0000_0000 && n < 0x1_0000_0000
    ensures IsTag(b, p, t, n)
  {
    hide Tag, Has, Word, Number;
    HasTag(b, p, t, n);
    NumberIsWord(b, p);
    NumberIsWord(b, p + 4);
  }

  lemma ZerosAre(b: seq<Byte>, p: nat, n: nat)
    requires Has(b, p, Zeros(n))
    ensures IsZero(b, p, p + n)
  {
    forall k | p <= k < p + n
      ensures b[k] == 0
    {
      assert b[k] == b[p..p + n][k - p];
    }
  }

  lemma RoundedUp(n: nat)
    ensures n + Pad8(n) == (n + 7) / 8 * 8
  {
  }

  lemma BlockIs(b: seq<Byte>, p: nat, t: nat, data: seq<Byte>)
    requires Has(b, p, Block(t, data)) && t < 256 && |Block(t, data)| < 0x8000_0000
    ensures IsBlock(b, p, t, data) && Behind(p, |data|) == p + |Block(t, data)| == StoredEnd(b, p, |data|)
  {
    hide Has, Pad8, IsTag, IsZero, Le32;
    var pad := Zeros(Pad8(|data|));
    RoundedUp(|data|);
    HasBoth(b, p, Tag(t, |data|) + data, pad);
    HasBoth(b, p, Tag(t, |data|), data);
    TagIs(b, p, t, |data|);
    WithinFile(b, p + 8, data);
    ZerosAre(b, p + 8 + |data|, Pad8(|data|));
    HasBoth(b, p, Le32(t), Le32(|data|));
    FourBytes(b, p, t);
    SmallNumber(t);
  }

  lemma {:induction false} WordsAre(b: seq<Byte>, p: nat, ws: seq<nat>)
    requires Has(b, p, Words(ws)) && Words32(ws)
    ensures IsWords(b, p, ws)
    decreases |ws|
  {
    hide Le32, Has, Number, Word;
    WithinFile(b, p, Words(ws));
    if ws != [] {
      HasBoth(b, p, Le32(ws[0]), Words(ws[1..]));
      HasWord(b, p, ws[0]);
      NumberIsWord(b, p);
      WordsAre(b, p + 4, ws[1..]);
      forall k | 0 <= k < |ws|
        ensures Number(b, p + 4 * k) == ws[k]
      {
        if k > 0 {
          assert Number(b, p + 4 + 4 * (k - 1)) == ws[1..][k - 1];
        }
      }
    }
  }

  lemma WordBlockIs(b: seq<Byte>, p: nat, ws: seq<nat>)
    requires Has(b, p, Block(MAT_T_UINT32, Words(ws))) && Words32(ws) && |Block(MAT_T_UINT32, Words(ws))| < 0x8000_0000
    ensures IsWordBlock(b, p, ws, false) && StoredEnd(b, p, 4 * |ws|) == p + |Block(MAT_T_UINT32, Words(ws))|
  {
    hide Has, Pad8, IsTag, IsZero, Tag, Words, IsWords, Words32;
    var data := Words(ws);
    HasBoth(b, p, Tag(MAT_T_UINT32, |data|) + data, Zeros(Pad8(|data|)));
    HasBoth(b, p, Tag(MAT_T_UINT32, |data|), data);
    WordsAre(b, p + 8, ws);
    BlockIs(b, p, MAT_T_UINT32, data);
  }

  lemma FlagBytes(h: Header)
    requires h.cls < 256
    ensures Le32(Flags(h))
            == [h.cls, (if h.complex then 8 else 0) + (if h.global then 4 else 0) + (if h.logical then 2 else 0), 0, 0]
  {
    var x, y, z := if h.complex then 1 else 0, if h.global then 1 else 0, if h.logical then 1 else 0;
    SecondByte(h.cls, x, y, z);
    assert Flags(h) == h.cls + x * 0x800 + y * 0x400 + z * 0x200;
    hide Flags;
  }

  lemma SecondByte(c: nat, x: nat, y: nat, z: nat)
    requires c < 256 && x <= 1 && y <= 1 && z <= 1
    ensures var f := c + x * 0x800 + y * 0x400 + z * 0x200;
            f % 256 == c && f / 256 % 256 == 8 * x + 4 * y + 2 * z && f / 65536 % 256 == 0 && f / 16777216 % 256 == 0
  {
    var f := c + x * 0x800 + y * 0x400 + z * 0x200;
    assert f / 256 == 8 * x + 4 * y + 2 * z;
  }

  lemma FourBytes(b: seq<Byte>, p: nat, n: nat)
    requires Has(b, p, Le32(n))
    ensures p + 4 <= |b| && [b[p], b[p + 1], b[p + 2], b[p + 3]] == Le32(n)
  {
    hide Le32;
    WithinFile(b, p, Le32(n));
    assert b[p..p + 4] == [b[p], b[p + 1], b[p + 2], b[p + 3]];
  }

  lemma HeaderIs(b: seq<Byte>, p: nat, h: Header)
    requires Has(b, p, Head(h)) && |Head(h)| < 0x8000_0000
    requires h.cls < 256 && Words32(h.dims) && NzmaxOk(h)
    ensures IsHeader(b, p, h) && HeaderEnd(p, |h.dims|) == p + |Head(h)|
  {
    hide Le32, Word, Number, Has, Words, Flags, Words32, Tag, IsTag, IsZero, IsWords;
    var a, f, c, d := Tag(MAT_T_UINT32, 8), Le32(Flags(h)) + Le32(h.nzmax), Tag(MAT_T_INT32, 4 * |h.dims|), Words(h.dims) + Zeros(4 * (|h.dims| % 2));
    WithinFile(b, p, Head(h));
    HasBoth(b, p, a + f + c, d);
    HasBoth(b, p, a + f, c);
    HasBoth(b, p, a, f);
    TagIs(b, p, MAT_T_UINT32, 8);
    HasBoth(b, p + 8, Le32(Flags(h)), Le32(h.nzmax));
    FlagBytes(h);
    FourBytes(b, p + 8, Flags(h));
    HasWord(b, p + 12, h.nzmax);
    NumberIsWord(b, p + 12);
    TagIs(b, p + 16, MAT_T_INT32, 4 * |h.dims|);
    HasBoth(b, p + 24, Words(h.dims), Zeros(4 * (|h.dims| % 2)));
    WordsAre(b, p + 24, h.dims);
    ZerosAre(b, p + 24 + 4 * |h.dims|, 4 * (|h.dims| % 2));
  }

  lemma PackedName(n: nat)
    requires n <= 4
    ensures Le32(MAT_T_INT8 + n * 65536) == [1, 0, n, 0]
  {
  }

  lemma NameIs(b: seq<Byte>, p: nat, name: Name)
    requires Has(b, p, NameBytes(name)) && |NameBytes(name)| < 0x8000_0000
    ensures IsName(b, p, name, false) && NameEnd(b, p, name) == p + |NameBytes(name)|
  {
    hide Le32, Has, Pad8, IsZero, Tag;
    if |name| <= 4 {
      WithinFile(b, p, NameBytes(name));
      HasBoth(b, p, Le32(MAT_T_INT8 + |name| * 65536), name + Zeros(4 - |name|));
      HasBoth(b, p + 4, name, Zeros(4 - |name|));
      PackedName(|name|);
      FourBytes(b, p, MAT_T_INT8 + |name| * 65536);
      WithinFile(b, p + 4, name);
      ZerosAre(b, p + 4 + |name|, 4 - |name|);
    } else {
      assert NameBytes(name) == Block(MAT_T_INT8, name);
      BlockIs(b, p, MAT_T_INT8, name);
    }
  }

  /** No name is the empty one. */
  lemma NoNameBytes()
    ensures NoName == NameBytes([])
  {
    PackedName(0);
  }

  lemma {:induction false} SlotsAre(b: seq<Byte>, p: nat, names: seq<Name>, size: nat)
    requires (forall k | 0 <= k < |names| :: |names[k]| < size) && Has(b, p, Slots(names, size))
    ensures IsSlots(b, p, names, size)
    decreases |names|
  {
    hide Has, IsZero;
    if names != [] {
      var slot := names[0] + Zeros(size - |names[0]|);
      HasBoth(b, p, slot, Slots(names[1..], size));
      HasBoth(b, p, names[0], Zeros(size - |names[0]|));
      WithinFile(b, p, names[0]);
      ZerosAre(b, p + |names[0]|, size - |names[0]|);
      WithinFile(b, p, slot);
      SlotsAre(b, p + size, names[1..], size);
    }
  }

  lemma NamesAre(b: seq<Byte>, p: nat, names: seq<Name>)
    requires Has(b, p, StructHead(names)) && |StructHead(names)| < 0x8000_0000
    ensures IsNames(b, p, names, false, p + |StructHead(names)|)
  {
    hide Le32, Word, Number, Has, Slots, NamesSize, Pad8, Level5.Fits, Tag, IsTag, IsSlots;
    var size := if names == [] then 1 else NamesSize(names);
    WithinFile(b, p, StructHead(names));
    var first := Le32(4 * 65536 + MAT_T_INT32);
    PackedSize();
    if names == [] {
      HasBoth(b, p, first + Le32(1), Tag(MAT_T_INT8, 0));
    } else {
      SizeOfNames(names);
      AtLeast(|names|, size);
      FitsEight(names);
      HasBoth(b, p, first + Le32(size) + Tag(MAT_T_INT8, |names| * size), Slots(names, size));
      HasBoth(b, p, first + Le32(size), Tag(MAT_T_INT8, |names| * size));
    }
    HasBoth(b, p, first, Le32(size));
    FourBytes(b, p, 4 * 65536 + MAT_T_INT32);
    HasWord(b, p + 4, size);
    NumberIsWord(b, p + 4);
    TagIs(b, p + 8, MAT_T_INT8, |names| * size);
    if names == [] {
      NoSlotsAre(b, p + 16, size);
    } else {
      SlotsAre(b, p + 16, names, size);
    }
  }

  lemma NoSlotsAre(b: seq<Byte>, p: nat, size: nat)
    ensures IsSlots(b, p, [], size)
  {
  }

  lemma FitsEight(names: seq<Name>)
    ensures |names| * NamesSize(names) % 8 == 0
  {
    hide SlotSize, MaxLength;
  }

  lemma PackedSize()
    ensures Le32(4 * 65536 + MAT_T_INT32) == [5, 0, 4, 0]
  {
  }

  lemma TypeIsStored(cls: nat)
    requires IsNumeric(cls)
    ensures TypeOfClass(cls) == StoredType(cls)
  {
  }

  lemma {:induction false} DataAre(b: seq<Byte>, p: nat, v: MatVar)
    requires Storable(v) && Has(b, p, Content(v.header.cls, v.data)) && |Content(v.header.cls, v.data)| < 0x8000_0000
    ensures IsData(b, p, v.header.cls, v.data, false, p + |Content(v.header.cls, v.data)|)
    decreases v, 0
  {
    hide Has, Block, IsBlock, Behind, IsNames, IsChildren, StructHead, Elements, Prod, Words, StoredType, TypeOfClass, IsWordBlock;
    match v.data
    case Numeric(re, im) => {
      NumericAre(b, p, v.header.cls, re, im);
    }
    case Text(text) => {
      BlockIs(b, p, MAT_T_UTF8, text);
    }
    case Sparse(ir, jc, values, imag) => {
      SparseAre(b, p, v);
    }
    case Cells(cells) => {
      ChildrenAre(b, p, cells, true);
    }
    case Struct(names, fields) => {
      HasBoth(b, p, StructHead(names), Elements(fields, false));
      NamesAre(b, p, names);
      ChildrenAre(b, p + |StructHead(names)|, fields, false);
    }
  }

  lemma NumericAre(b: seq<Byte>, p: nat, cls: nat, re: seq<Byte>, im: Option<seq<Byte>>)
    requires IsNumeric(cls)
    requires Has(b, p, Content(cls, Numeric(re, im))) && |Content(cls, Numeric(re, im))| < 0x8000_0000
    ensures IsData(b, p, cls, Numeric(re, im), false, p + |Content(cls, Numeric(re, im))|)
  {
    hide Has, Block, IsBlock, Behind, StoredType, TypeOfClass;
    var t := TypeOfClass(cls);
    TypeIsSmall(cls);
    TypeIsStored(cls);
    HasBoth(b, p, Block(t, re), if im.Some? then Block(t, im.value) else []);
    BlockIs(b, p, t, re);
    if im.Some? {
      BlockIs(b, p + |Block(t, re)|, t, im.value);
    }
  }

  lemma SparseAre(b: seq<Byte>, p: nat, v: MatVar)
    requires Storable(v) && v.data.Sparse?
    requires Has(b, p, Content(v.header.cls, v.data)) && |Content(v.header.cls, v.data)| < 0x8000_0000
    ensures IsData(b, p, v.header.cls, v.data, false, p + |Content(v.header.cls, v.data)|)
  {
    hide Has, Block, Words, IsBlock, Behind, IsWordBlock, Prod;
    var d := v.data;
    var x, y, z := Block(MAT_T_UINT32, Words(d.ir)), Block(MAT_T_UINT32, Words(d.jc)), Block(MAT_T_DOUBLE, d.values);
    var w := if d.imag.Some? then Block(MAT_T_DOUBLE, d.imag.value) else [];
    HasBoth(b, p, x, y + (z + w));
    WordBlockIs(b, p, d.ir);
    HasBoth(b, p + |x|, y, z + w);
    WordBlockIs(b, p + |x|, d.jc);
    HasBoth(b, p + |x| + |y|, z, w);
    BlockIs(b, p + |x| + |y|, MAT_T_DOUBLE, d.values);
    if d.imag.Some? {
      BlockIs(b, p + |x| + |y| + |z|, MAT_T_DOUBLE, d.imag.value);
    }
  }

  lemma {:induction false} ChildrenAre(b: seq<Byte>, p: nat, children: seq<Option<MatVar>>, inCell: bool)
    requires forall k | 0 <= k < |children| :: StorableChild(children[k]) && (inCell ==> children[k].Some?)
    requires Has(b, p, Elements(children, inCell)) && |Elements(children, inCell)| < 0x8000_0000
    ensures IsChildren(b, p, children, inCell, false, p + |Elements(children, inCell)|)
    decreases children
  {
    hide Has, Element, IsChild, StorableChild, Number;
    if children != [] {
      HasBoth(b, p, Element(children[0], inCell), Elements(children[1..], inCell));
      ChildIs(b, p, children[0], inCell);
      ChildrenAre(b, p + |Element(children[0], inCell)|, children[1..], inCell);
    }
  }

  lemma {:induction false} ChildIs(b: seq<Byte>, p: nat, child: Option<MatVar>, inCell: bool)
    requires StorableChild(child) && (inCell ==> child.Some?)
    requires Has(b, p, Element(child, inCell)) && |Element(child, inCell)| < 0x8000_0000
    ensures IsChild(b, p, child, inCell, false)
    ensures p + 8 <= |b| && p + 8 + Number(b, p + 4) == p + |Element(child, inCell)|
    decreases child
  {
    hide Has, Number, Word, Tag, Head, Block, Content, Storable, IsVariable, IsTag, NameBytes;
    if child.None? {
      EmptyDoubleIs();
      WithinFile(b, p, EmptyDouble);
      SizedLength(b, p, Head(EmptyField.header) + (NoName + Block(MAT_T_DOUBLE, [])));
    } else if child.value.header.cls == MAT_C_EMPTY {
      TagIs(b, p, MAT_T_MATRIX, 0);
      assert Tag(MAT_T_MATRIX, 0) + [] == Tag(MAT_T_MATRIX, 0);
      SizedLength(b, p, []);
    } else {
      var v := child.value;
      NoNameBytes();
      VariableIs(b, p, v, if inCell && v.name.Some? then v.name.value else []);
      SizedLength(b, p, Body(v, ChildName(v, inCell)));
    }
  }

  lemma SizedLength(b: seq<Byte>, p: nat, body: seq<Byte>)
    requires Has(b, p, Tag(MAT_T_MATRIX, |body|) + body) && |body| < 0x8000_0000
    ensures p + 8 <= |b| && Number(b, p) == 14 && Number(b, p + 4) == |body|
  {
    hide Has, Tag, Number;
    HasBoth(b, p, Tag(MAT_T_MATRIX, |body|), body);
    TagIs(b, p, MAT_T_MATRIX, |body|);
  }

  lemma SmallNumber(n: nat)
    requires n < 256
    ensures Le32(n) == [n, 0, 0, 0]
  {
  }

  lemma SmallTag(t: nat, n: nat)
    requires t < 256 && n < 256
    ensures Tag(t, n) == [t, 0, 0, 0, n, 0, 0, 0]
  {
    SmallNumber(t);
    SmallNumber(n);
  }

  lemma EmptyDoubleIs()
    ensures Element(None, false) == EmptyDouble
  {
    hide Tag, Head, Pad8;
    EmptyHead();
    SmallTag(MAT_T_INT8, 0);
    SmallTag(MAT_T_DOUBLE, 0);
    SmallTag(MAT_T_MATRIX, 48);
    PadOfNothing();
    assert Zeros(0) == [];
    var head: seq<Byte> := [6, 0, 0, 0, 8, 0, 0, 0, 6, 0, 0, 0, 0, 0, 0, 0, 5, 0, 0, 0, 8, 0, 0, 0, 0, 0, 0, 0, 0, 0, 0, 0];
    var body: seq<Byte> := head + ([1, 0, 0, 0, 0, 0, 0, 0] + [9, 0, 0, 0, 0, 0, 0, 0]);
    assert Head(EmptyField.header) + (NoName + Block(MAT_T_DOUBLE, [])) == body;
    assert |body| == 48;
    assert Element(None, false) == Tag(MAT_T_MATRIX, 48) + body;
    assert EmptyDouble == [14, 0, 0, 0, 48, 0, 0, 0] + body;
  }

  lemma EmptyHead()
    ensures Head(EmptyField.header)
            == [6, 0, 0, 0, 8, 0, 0, 0, 6, 0, 0, 0, 0, 0, 0, 0, 5, 0, 0, 0, 8, 0, 0, 0, 0, 0, 0, 0, 0, 0, 0, 0]
  {
    hide Tag, Flags, Le32;
    var h := EmptyField.header;
    SmallTag(MAT_T_UINT32, 8);
    SmallTag(MAT_T_INT32, 8);
    FlagBytes(h);
    SmallNumber(0);
    TwoWords(0, 0);
    assert Zeros(0) == [];
  }

  lemma TwoWords(x: nat, y: nat)
    ensures Words([x, y]) == Le32(x) + Le32(y)
  {
    assert [x, y][1..] == [y] && [y][1..] == [];
    assert Words([]) == [];
    assert Words([y]) == Le32(y) + [];
  }

  lemma {:induction false} VariableIs(b: seq<Byte>, p: nat, v: MatVar, name: Name)
    requires Storable(v)
    requires Has(b, p, Sized(Body(v, NameBytes(name)))) && |Sized(Body(v, NameBytes(name)))| < 0x8000_0000
    ensures IsVariable(b, p, v, name, false)
    decreases v, 1
  {
    hide Has, Tag, Head, Content, NameBytes, Storable, IsHeader, IsName, IsData, Number;
    var content := Content(v.header.cls, v.data);
    var body := Body(v, NameBytes(name));
    StorableClass(v);
    SizedLength(b, p, body);
    WithinFile(b, p, Sized(body));
    HasBoth(b, p, Tag(MAT_T_MATRIX, |body|), body);
    HasBoth(b, p + 8, Head(v.header), NameBytes(name) + content);
    HeaderIs(b, p + 8, v.header);
    HasBoth(b, p + 8 + |Head(v.header)|, NameBytes(name), content);
    NameIs(b, p + 8 + |Head(v.header)|, name);
    DataAre(b, p + 8 + |Head(v.header)| + |NameBytes(name)|, v);
  }

  /** Every variable is written in the format. */
  lemma EncodedIsVariable(file: seq<Byte>, pos: nat, name: Name, v: MatVar)
    requires Storable(v) && Has(file, pos, Encode(name, v)) && |Encode(name, v)| < 0x8000_0000
    ensures IsVariable(file, pos, v, name, false)
    ensures pos + 8 + Number(file, pos + 4) == pos + |Encode(name, v)|
  {
    hide Storable, Has, Content, NameBytes, Head, Number;
    VariableIs(file, pos, v, name);
    SizedLength(file, pos, Body(v, NameBytes(name)));
  }

  // ----- What is in the format is read -----

  lemma PackedWord(b: seq<Byte>, p: nat, t: nat, n: nat)
    requires p + 4 <= |b| && t < 256 && n <= 4
    requires b[p] == t && b[p + 1] == 0 && b[p + 2] == n && b[p + 3] == 0
    ensures Word(b, p) == t + n * 65536
    ensures (t + n * 65536) / 65536 == n && (t + n * 65536) % 65536 == t && (t + n * 65536) % 256 == t
  {
    NumberIsWord(b, p);
  }

  lemma TagWords(b: seq<Byte>, p: nat, t: nat, n: nat)
    requires IsTag(b, p, t, n) && t < 256
    ensures p + 8 <= |b| && Word(b, p) == t && Word(b, p + 4) == n
    ensures t / 65536 == 0 && t % 256 == t && t % 65536 == t && b[p + 2] == 0
  {
    NumberIsWord(b, p);
    NumberIsWord(b, p + 4);
  }

  lemma NumericStored(b: seq<Byte>, p: nat, cls: nat, data: seq<Byte>, n: nat)
    requires IsNumeric(cls) && |data| == n * SizeOfClass(cls)
    requires IsStored(b, p, StoredType(cls), data, true)
    ensures ReadNumeric(b, p, cls, n) == Some((data, StoredEnd(b, p, |data|)))
  {
    hide Number, Word, Pad8, SizeOfClass, TypeOfClass, StoredType, IsTag, IsZero;
    var t := StoredType(cls);
    TypeIsStored(cls);
    TypeIsSmall(cls);
    RoundedUp(|data|);
    PadOfNothing();
    if IsBlock(b, p, t, data) {
      TagWords(b, p, t, |data|);
    } else {
      PackedWord(b, p, t, |data|);
      PadBehindTag(|data|);
    }
  }

  lemma PadBehindTag(n: nat)
    requires 1 <= n <= 4
    ensures 4 + n + Pad8(n + 4) == 8
  {
  }

  lemma TextStored(b: seq<Byte>, p: nat, text: seq<Byte>, n: nat)
    requires n <= |text| && IsStored(b, p, 16, text, true)
    ensures ReadText(b, p, n) == Some(text)
  {
    hide Number, Word, IsTag, IsZero;
    if IsBlock(b, p, 16, text) {
      TagWords(b, p, 16, |text|);
    } else {
      PackedWord(b, p, 16, |text|);
    }
  }

  lemma {:induction false} WordsRead(b: seq<Byte>, p: nat, ws: seq<nat>)
    requires IsWords(b, p, ws)
    ensures ReadWords(b, p, |ws|) == ws
    decreases |ws|
  {
    hide Number, Word;
    if ws != [] {
      NumberIsWord(b, p + 4 * 0);
      assert Word(b, p) == ws[0];
      forall k | 0 <= k < |ws| - 1
        ensures Number(b, p + 4 + 4 * k) == ws[1..][k]
      {
        assert Number(b, p + 4 * (k + 1)) == ws[k + 1];
      }
      WordsRead(b, p + 4, ws[1..]);
    }
  }

  lemma IndicesStored(b: seq<Byte>, p: nat, ws: seq<nat>)
    requires IsWordBlock(b, p, ws, true)
    ensures ReadSparse(b, p) == Some((ws, StoredEnd(b, p, 4 * |ws|)))
  {
    hide Number, Word, Pad8, IsTag, IsZero, IsWords, ReadWords;
    RoundedUp(4 * |ws|);
    PadOfNothing();
    if IsTag(b, p, 6, 4 * |ws|) {
      TagWords(b, p, 6, 4 * |ws|);
      WordsInside(b, p + 8, ws);
      WordsRead(b, p + 8, ws);
    } else {
      PackedWord(b, p, 6, 4);
      PadBehindTag(4);
      WordsInside(b, p + 4, ws);
      WordsRead(b, p + 4, ws);
    }
  }

  lemma WordsInside(b: seq<Byte>, p: nat, ws: seq<nat>)
    requires IsWords(b, p, ws)
    ensures p + 4 * |ws| <= |b|
  {
  }

  lemma ValuesStored(b: seq<Byte>, p: nat, values: seq<Byte>)
    requires IsBlock(b, p, 9, values) && |values| % 8 == 0
    ensures ReadCount(b, p, false) == Some(|values| / 8)
    ensures ReadNumeric(b, p, MAT_C_DOUBLE, |values| / 8) == Some((values, Behind(p, |values|)))
  {
    hide Number, Word, IsTag, IsZero, ReadNumeric, ReadCount;
    TagWords(b, p, 9, |values|);
    CountStored(b, p, values);
    NumericStored(b, p, MAT_C_DOUBLE, values, |values| / 8);
  }

  /** Values of a logical sparse matrix, tagged as doubles but of one byte each, in the tag or behind it. */
  lemma LogicalStored(b: seq<Byte>, p: nat, ir: seq<nat>, jc: seq<nat>, values: seq<Byte>)
    requires IsWordBlock(b, p, ir, true)
    requires var q := StoredEnd(b, p, 4 * |ir|);
             IsWordBlock(b, q, jc, true) && IsStored(b, StoredEnd(b, q, 4 * |jc|), 9, values, true)
    ensures ReadSparseBytes(b, p) == Some((ir, jc, values))
  {
    hide IsWordBlock, Number, Word, IsTag, IsZero, StoredEnd, ReadSparse;
    var q := StoredEnd(b, p, 4 * |ir|);
    var r := StoredEnd(b, q, 4 * |jc|);
    IndicesStored(b, p, ir);
    IndicesStored(b, q, jc);
    CountStored(b, r, values);
    if IsBlock(b, r, 9, values) {
      TagWords(b, r, 9, |values|);
    } else {
      PackedWord(b, r, 9, |values|);
    }
  }

  /** The number of values by their tag, as bytes and as doubles. */
  lemma CountStored(b: seq<Byte>, p: nat, values: seq<Byte>)
    requires IsStored(b, p, 9, values, true)
    ensures ReadCount(b, p, true) == Some(|values|) && ReadCount(b, p, false) == Some(|values| / 8)
  {
    hide Number, Word, IsTag, IsZero;
    if IsBlock(b, p, 9, values) {
      TagWords(b, p, 9, |values|);
    } else {
      PackedWord(b, p, 9, |values|);
    }
  }

  lemma SparseStored(b: seq<Byte>, p: nat, v: MatVar, next: nat)
    requires Storable(v) && v.data.Sparse? && IsData(b, p, v.header.cls, v.data, true, next)
    ensures ReadSparseData(b, p, v.header) == Some(v.data)
  {
    hide IsWordBlock, IsBlock, StoredEnd, ReadNumeric, ReadSparse, ReadCount, Behind, Prod, Words32;
    var d := v.data;
    var q := StoredEnd(b, p, 4 * |d.ir|);
    var r := StoredEnd(b, q, 4 * |d.jc|);
    IndicesStored(b, p, d.ir);
    IndicesStored(b, q, d.jc);
    ValuesStored(b, r, d.values);
    if d.imag.Some? {
      ValuesStored(b, Behind(r, |d.values|), d.imag.value);
    }
  }

  lemma HeaderRead(b: seq<Byte>, p: nat, h: Header, top: bool)
    requires IsHeader(b, p, h) && h.cls <= MAT_C_OPAQUE && NzmaxOk(h)
    ensures ReadHead(b, p, top) == HeadRead(h, HeaderEnd(p, |h.dims|))
  {
    HeaderReadAs(b, p, h, 6, top);
  }

  /** Flags may also be tagged as signed numbers, but not in cells and fields, where they are as nothing. */
  lemma HeaderReadAs(b: seq<Byte>, p: nat, h: Header, t: nat, top: bool)
    requires IsHeaderOf(b, p, h, t) && t < 256 && h.cls <= MAT_C_OPAQUE && NzmaxOk(h)
    ensures ReadHead(b, p, top)
            == HeadRead(if t == 6 || (top && t == 5) then h else Header(0, false, false, false, 0, h.dims), HeaderEnd(p, |h.dims|))
  {
    hide Number, Word, Flags, HeaderFromFlags, IsTag, IsZero, IsWords, ReadWords;
    TagWords(b, p, t, 8);
    TagWords(b, p + 16, 5, 4 * |h.dims|);
    NumberIsWord(b, p + 12);
    FlagsWord(b, p + 8, h);
    FlagsAreRead(h);
    WordsRead(b, p + 24, h.dims);
  }

  lemma FlagsWord(b: seq<Byte>, p: nat, h: Header)
    requires p + 4 <= |b| && b[p] == h.cls && b[p + 2] == b[p + 3] == 0
    requires b[p + 1] == (if h.complex then 8 else 0) + (if h.global then 4 else 0) + (if h.logical then 2 else 0)
    ensures Word(b, p) == Flags(h)
  {
    NumberIsWord(b, p);
    assert h.cls % 256 == h.cls;
  }

  lemma NameStored(b: seq<Byte>, p: nat, name: Name)
    requires IsName(b, p, name, true) && NulFree(name) && |b| < 0x8000_0000
    ensures p + 8 <= |b| && ReadName(b, p) == Some((Some(name), NameEnd(b, p, name)))
  {
    hide Number, Word, IsTag, IsZero, Pad8, SkipName, CString, NulFree;
    var n := |name|;
    CStringOf(name, []);
    assert name + [] == name;
    if IsBlock(b, p, 1, name) {
      TagWords(b, p, 1, n);
      RoundedUp(n);
      ZeroInside(b, p + 8 + n, Behind(p, n));
      SkipIs(n);
    } else {
      PackedWord(b, p, 1, n);
      if n == 0 {
        NothingPacked(b, p);
        SkipIs(0);
        PadOfNothing();
        assert b[p + 8..p + 8] == name;
      }
    }
  }

  lemma ZeroInside(b: seq<Byte>, p: nat, next: nat)
    requires IsZero(b, p, next)
    ensures p <= next <= |b|
  {
  }

  lemma NothingPacked(b: seq<Byte>, p: nat)
    requires IsZero(b, p + 4, p + 8)
    ensures p + 8 <= |b| && Word(b, p + 4) == 0
  {
    NumberIsWord(b, p + 4);
  }

  /** What a cell skips for its name. */
  lemma NameSkipped(b: seq<Byte>, p: nat, name: Name)
    requires IsName(b, p, name, true) && |b| < 0x8000_0000
    ensures p + 8 <= NameEnd(b, p, name) <= |b|
    ensures SkipName(Word(b, p), Word(b, p + 4)) == Some(NameEnd(b, p, name) - (p + 8))
  {
    hide Number, Word, IsTag, IsZero, Pad8;
    var n := |name|;
    if IsBlock(b, p, 1, name) {
      TagWords(b, p, 1, n);
      RoundedUp(n);
      ZeroInside(b, p + 8 + n, Behind(p, n));
      SkipIs(n);
    } else {
      PackedWord(b, p, 1, n);
      if n == 0 {
        NothingPacked(b, p);
      }
    }
  }

  lemma {:induction false} SlotsStored(b: seq<Byte>, p: nat, names: seq<Name>, size: nat)
    requires IsSlots(b, p, names, size) && 0 < size && (forall k | 0 <= k < |names| :: NulFree(names[k]))
    requires p <= |b|
    ensures 0 <= |names| * size && p + |names| * size <= |b| && SlotNames(b, p, |names|, size) == names
    decreases |names|
  {
    hide CString, NulFree;
    if names != [] {
      SlotsStored(b, p + size, names[1..], size);
      OneSlot(|names|, size);
      SlotIs(b, p, names[0], size);
    }
  }

  lemma SlotIs(b: seq<Byte>, p: nat, name: Name, size: nat)
    requires p + size <= |b| && |name| < size && b[p..p + |name|] == name && IsZero(b, p + |name|, p + size) && NulFree(name)
    ensures CString(b[p..p + size - 1]) == name
  {
    hide CString, NulFree;
    var rest := b[p + |name|..p + size - 1];
    assert b[p..p + size - 1] == name + rest;
    assert rest != [] ==> rest[0] == b[p + |name|];
    CStringOf(name, rest);
  }

  lemma NamesStored(b: seq<Byte>, p: nat, names: seq<Name>, next: nat)
    requires IsNames(b, p, names, true, next) && (forall k | 0 <= k < |names| :: NulFree(names[k]))
    ensures ReadNames(b, p) == Some((names, |names|, next))
  {
    hide Number, Word, IsTag, IsSlots, SlotNames, Pad8, NulFree, Count;
    var size, n := Number(b, p + 4), |names|;
    PackedWord(b, p, 5, 4);
    NumberIsWord(b, p + 4);
    CountIs(n, size);
    RoundedUp(n * size);
    if IsTag(b, p + 8, 1, n * size) && IsSlots(b, p + 16, names, size) && p + 16 + n * size <= |b| && next == Behind(p + 8, n * size) {
      TagWords(b, p + 8, 1, n * size);
      SlotsStored(b, p + 16, names, size);
    } else {
      PackedWord(b, p + 8, 1, n * size);
      SlotsStored(b, p + 12, names, size);
    }
  }

  lemma {:induction false} DataForward(b: seq<Byte>, p: nat, cls: nat, data: Data, next: nat)
    requires IsData(b, p, cls, data, true, next)
    ensures p <= next
    decreases data
  {
    hide IsStored, IsWordBlock, IsBlock, IsNames, IsChildren, StoredType;
    match data
    case Cells(cells) => {
      ChildrenForward(b, p, cells, true, next);
    }
    case Struct(names, fields) => {
      var q: nat :| IsNames(b, p, names, true, q) && IsChildren(b, q, fields, false, true, next);
      NamesForward(b, p, names, q);
      ChildrenForward(b, q, fields, false, next);
    }
    case _ =>
  }

  lemma NamesForward(b: seq<Byte>, p: nat, names: seq<Name>, next: nat)
    requires IsNames(b, p, names, true, next)
    ensures p <= next
  {
    hide IsSlots;
  }

  lemma {:induction false} ChildrenForward(b: seq<Byte>, p: nat, children: seq<Option<MatVar>>, inCell: bool, next: nat)
    requires IsChildren(b, p, children, inCell, true, next)
    ensures p <= next
    decreases children
  {
    hide IsChild, Number;
    if children != [] {
      ChildrenForward(b, p + 8 + Number(b, p + 4), children[1..], inCell, next);
    }
  }

  /** A missing field is a variable like every other. */
  lemma EmptyDoubleVariable(b: seq<Byte>, p: nat)
    requires p + 56 <= |b| && b[p..p + 56] == EmptyDouble
    ensures IsVariable(b, p, EmptyField, [], true)
  {
    hide Has, Encode, NameBytes, Head, Content;
    EmptyDoubleIs();
    EmptyFieldStorable();
    NoNameBytes();
    assert Has(b, p, EmptyDouble) by { HasChunk(b, p, EmptyDouble); }
    assert |EmptyDouble| == 56;
    VariableIs(b, p, EmptyField, []);
    MorePacked(b, p, EmptyField, []);
  }

  lemma HasChunk(b: seq<Byte>, p: nat, chunk: seq<Byte>)
    requires p + |chunk| <= |b| && b[p..p + |chunk|] == chunk
    ensures Has(b, p, chunk)
  {
  }

  lemma MorePacked(b: seq<Byte>, p: nat, v: MatVar, name: Name)
    requires IsVariable(b, p, v, name, false) && v.data.Numeric?
    ensures IsVariable(b, p, v, name, true)
  {
    hide IsHeader, IsBlock, StoredEnd, Number, StoredType;
  }

  /** The data of a variable, whose headers are read first. */
  lemma {:induction false} DataRead(b: seq<Byte>, p: nat, v: MatVar, name: Option<Name>, next: nat)
    requires Storable(v) && IsData(b, p, v.header.cls, v.data, true, next) && |b| < 0x8000_0000
    ensures ReadData(b, MatVar(name, v.header, ReadBody(b, p, v.header))) == Some(Normalised(v, name))
    decreases v, 0
  {
    hide IsStored, IsWordBlock, IsBlock, IsNames, IsChildren, StoredEnd, ReadNames, ReadChildren, Prod, ReadNumeric, ReadText, ReadSparseData, NormalisedCells, NormalisedFields, StoredType, StorableCells, StorableFields;
    match v.data
    case Numeric(re, im) => {
      var n := MulDims(v.header.dims);
      NumericStored(b, p, v.header.cls, re, n);
      if im.Some? {
        NumericStored(b, StoredEnd(b, p, |re|), v.header.cls, im.value, n);
      }
    }
    case Text(text) => {
      TextStored(b, p, text, MulDims(v.header.dims));
    }
    case Sparse(_, _, _, _) => {
      SparseStored(b, p, v, next);
    }
    case Cells(cells) => {
      CellsStored(b, p, cells, next);
    }
    case Struct(names, fields) => {
      var q: nat :| IsNames(b, p, names, true, q) && IsChildren(b, q, fields, false, true, next);
      NamesStored(b, p, names, q);
      FieldsNeedNames(MulDims(v.header.dims), names, fields);
      FieldsStored(b, q, names, 0, fields, next);
    }
  }

  /** The headers of one child, and then its data under any name. */
  lemma {:induction false} ChildStored(b: seq<Byte>, p: nat, child: Option<MatVar>, inCell: bool) returns (c: MatVar)
    requires StorableChild(child) && (inCell ==> child.Some?) && |b| < 0x8000_0000
    requires IsChild(b, p, child, inCell, true)
    ensures p + 8 <= |b| && ReadChild(b, p, inCell) == Child(c, p + 8 + Number(b, p + 4)) && c.name == None
    ensures forall name: Option<Name> ::
      ReadData(b, c.(name := name)) == Some(if child.None? then EmptyField.(name := name) else Normalised(child.value, name))
    decreases child
  {
    hide IsVariable, Number, Storable, ReadChild, ReadData, Normalised, IsTag;
    if child.None? {
      EmptyDoubleVariable(b, p);
      EmptyFieldStorable();
      c := EmptyStored(b, p);
    } else if child.value.header.cls == MAT_C_EMPTY {
      TagWords(b, p, 14, 0);
      NumberIsWord(b, p + 4);
      EmptyChildRead(b, p, inCell);
      c := MatVar(None, EmptyHeader, NoData);
      NormalisedEmpty(child.value);
      forall name: Option<Name>
        ensures ReadData(b, c.(name := name)) == Some(Normalised(child.value, name))
      {
        EmptyIsRead(b, name);
      }
    } else {
      c := VariableStored(b, p, child.value, if inCell && child.value.name.Some? then child.value.name.value else [], inCell);
    }
  }

  lemma NormalisedEmpty(v: MatVar)
    requires v.header.cls == MAT_C_EMPTY
    ensures forall name :: Normalised(v, name) == MatVar(name, EmptyHeader, NoData)
  {
  }

  lemma EmptyChildRead(b: seq<Byte>, p: nat, inCell: bool)
    requires p + 8 <= |b| && Word(b, p) == 14 && Word(b, p + 4) == 0
    ensures ReadChild(b, p, inCell) == Child(MatVar(None, EmptyHeader, NoData), p + 8)
  {
  }

  lemma EmptyStored(b: seq<Byte>, p: nat) returns (c: MatVar)
    requires IsVariable(b, p, EmptyField, [], true) && |b| < 0x8000_0000
    ensures p + 8 <= |b| && ReadChild(b, p, false) == Child(c, p + 8 + Number(b, p + 4)) && c.name == None
    ensures forall name: Option<Name> :: ReadData(b, c.(name := name)) == Some(EmptyField.(name := name))
  {
    hide IsVariable, Number, ReadChild, ReadData, IsData;
    EmptyFieldStorable();
    c := ShellStored(b, p, EmptyField, [], false);
    var q := DataStart(b, p, EmptyField, []);
    forall name: Option<Name>
      ensures ReadData(b, c.(name := name)) == Some(EmptyField.(name := name))
    {
      LeafRead(b, q, name, p + 8 + Number(b, p + 4));
    }
  }

  lemma LeafRead(b: seq<Byte>, q: nat, name: Option<Name>, next: nat)
    requires IsData(b, q, MAT_C_DOUBLE, Numeric([], None), true, next)
    ensures ReadData(b, MatVar(name, EmptyField.header, ReadBody(b, q, EmptyField.header))) == Some(EmptyField.(name := name))
  {
    hide ReadNumeric, IsStored, StoredEnd, Prod;
    NoElementsInEmpty();
    NumericStored(b, q, MAT_C_DOUBLE, [], 0);
  }

  lemma NoElementsInEmpty()
    ensures MulDims([0, 0]) == 0
  {
    assert [0, 0][..1] == [0];
    assert Prod([0, 0]) == Prod([0]) * 0;
  }

  /** Where the data of a variable begin. */
  ghost function DataStart(b: seq<Byte>, p: nat, v: MatVar, name: Name): nat {
    NameEnd(b, HeaderEnd(p + 8, |v.header.dims|), name)
  }

  /** What comes before the data. */
  lemma ShellStored(b: seq<Byte>, p: nat, v: MatVar, name: Name, inCell: bool) returns (c: MatVar)
    requires IsVariable(b, p, v, name, true) && |b| < 0x8000_0000 && (inCell || name == [])
    requires 0 < v.header.cls <= MAT_C_OPAQUE && NzmaxOk(v.header)
    ensures p + 8 <= |b| && IsData(b, DataStart(b, p, v, name), v.header.cls, v.data, true, p + 8 + Number(b, p + 4))
    ensures c == MatVar(None, v.header, ReadBody(b, DataStart(b, p, v, name), v.header))
    ensures ReadChild(b, p, inCell) == Child(c, p + 8 + Number(b, p + 4))
  {
    hide IsHeader, IsName, IsData, Number, Word, ReadHead, ReadBody, SkipName, NameEnd;
    var q := HeaderEnd(p + 8, |v.header.dims|);
    var datapos := DataStart(b, p, v, name);
    NumberIsWord(b, p);
    NumberIsWord(b, p + 4);
    HeaderRead(b, p + 8, v.header, false);
    NameSkipped(b, q, name);
    if !inCell {
      NoNameEnd(b, q);
    }
    DataForward(b, datapos, v.header.cls, v.data, p + 8 + Number(b, p + 4));
    c := MatVar(None, v.header, ReadBody(b, datapos, v.header));
    RestIs(Word(b, p + 4), datapos - (p + 8));
  }

  lemma NoNameEnd(b: seq<Byte>, q: nat)
    requires IsName(b, q, [], true)
    ensures NameEnd(b, q, []) == q + 8
  {
  }

  lemma RestIs(size: nat, part: nat)
    requires part <= size < 0x1_0000_0000
    ensures (size - part) % 0x1_0000_0000 == size - part
  {
  }

  lemma {:induction false} VariableStored(b: seq<Byte>, p: nat, v: MatVar, name: Name, inCell: bool) returns (c: MatVar)
    requires Storable(v) && IsVariable(b, p, v, name, true) && |b| < 0x8000_0000 && (inCell || name == [])
    ensures p + 8 <= |b| && ReadChild(b, p, inCell) == Child(c, p + 8 + Number(b, p + 4)) && c.name == None
    ensures forall name: Option<Name> :: ReadData(b, c.(name := name)) == Some(Normalised(v, name))
    decreases v, 1
  {
    hide IsVariable, Number, Storable, ReadChild, ReadData, Normalised, IsData, ReadBody, DataStart;
    StorableClass(v);
    c := ShellStored(b, p, v, name, inCell);
    forall other: Option<Name>
      ensures ReadData(b, c.(name := other)) == Some(Normalised(v, other))
    {
      DataRead(b, DataStart(b, p, v, name), v, other, p + 8 + Number(b, p + 4));
    }
  }

  lemma {:induction false} CellsStored(b: seq<Byte>, p: nat, cells: seq<Option<MatVar>>, next: nat)
    requires StorableCells(cells) && IsChildren(b, p, cells, true, true, next) && |b| < 0x8000_0000
    ensures ReadAll(b, ReadChildren(b, p, |cells|, true)) == Some(NormalisedCells(cells))
    decreases cells
  {
    hide IsChild, Number, ReadChild, ReadData, Normalised, StorableChild;
    if cells != [] {
      var c := ChildStored(b, p, cells[0], true);
      CellsStored(b, p + 8 + Number(b, p + 4), cells[1..], next);
      assert c.(name := None) == c;
    }
  }

  lemma {:induction false} FieldsStored(b: seq<Byte>, p: nat, names: seq<Name>, i: nat, fields: seq<Option<MatVar>>, next: nat)
    requires StorableFields(fields) && (fields != [] ==> names != []) && |b| < 0x8000_0000
    requires IsChildren(b, p, fields, false, true, next)
    ensures ReadAll(b, Named(names, i, ReadChildren(b, p, |fields|, false))) == Some(NormalisedFields(names, i, fields))
    decreases fields
  {
    hide IsChild, Number, ReadChild, ReadData, Normalised, StorableChild;
    if fields != [] {
      var c := ChildStored(b, p, fields[0], false);
      FieldsStored(b, p + 8 + Number(b, p + 4), names, i + 1, fields[1..], next);
    }
  }

  /** Every variable in the format is read, whichever program wrote it: with data in tags or behind
      them, and with slots of any size. */
  lemma VariableIsRead(file: seq<Byte>, pos: nat, v: MatVar, name: Name)
    requires Storable(v) && NulFree(name) && IsVariable(file, pos, v, name, true) && |file| < 0x8000_0000
    ensures pos + 8 <= |file|
    ensures ReadVariable(file, pos) == (Some(Normalised(v, Some(name))), pos + 8 + Number(file, pos + 4))
  {
    hide Storable, IsHeader, IsName, IsData, Number, Word, ReadHead, ReadBody, ReadName, ReadData, Normalised, NulFree, NameEnd;
    var q := HeaderEnd(pos + 8, |v.header.dims|);
    StorableClass(v);
    NumberIsWord(file, pos);
    NumberIsWord(file, pos + 4);
    DataForward(file, NameEnd(file, q, name), v.header.cls, v.data, pos + 8 + Number(file, pos + 4));
    HeaderRead(file, pos + 8, v.header, true);
    NameStored(file, q, name);
    DataRead(file, NameEnd(file, q, name), v, Some(name), pos + 8 + Number(file, pos + 4));
  }
}
