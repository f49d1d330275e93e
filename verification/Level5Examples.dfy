/** Variables of every kind, byte by byte. */
module Level5Examples {
  import opened Common
  import opened Subscripts
  import opened Level5
  import opened Level5Reader
  import opened Level5RoundTrip
  import opened Level5Format

  lemma SmallHead(h: Header)
    requires h.cls < 256 && h.nzmax < 256 && |h.dims| == 2 && h.dims[0] < 256 && h.dims[1] < 256
    ensures Head(h) ==
      [6, 0, 0, 0, 8, 0, 0, 0]
      + [h.cls, (if h.complex then 8 else 0) + (if h.global then 4 else 0) + (if h.logical then 2 else 0), 0, 0, h.nzmax, 0, 0, 0]
      + [5, 0, 0, 0, 8, 0, 0, 0] + [h.dims[0], 0, 0, 0, h.dims[1], 0, 0, 0]
  {
    hide Le32, Tag, Flags;
    SmallTag(MAT_T_UINT32, 8);
    FlagBytes(h);
    SmallNumber(h.nzmax);
    SmallTag(MAT_T_INT32, 8);
    assert h.dims == [h.dims[0], h.dims[1]];
    TwoWords(h.dims[0], h.dims[1]);
    SmallNumber(h.dims[0]);
    SmallNumber(h.dims[1]);
    assert Zeros(0) == [];
  }

  lemma LetterName(c: Byte)
    ensures NameBytes([c]) == [1, 0, 1, 0, c, 0, 0, 0]
  {
    PackedName(1);
  }

  lemma SmallBlock(t: nat, data: seq<Byte>)
    requires t < 256 && |data| < 256
    ensures Block(t, data) == [t, 0, 0, 0, |data|, 0, 0, 0] + data + Zeros(Pad8(|data|))
  {
    SmallTag(t, |data|);
  }

  lemma SmallSized(body: seq<Byte>)
    requires |body| < 256
    ensures Sized(body) == [14, 0, 0, 0, |body|, 0, 0, 0] + body
  {
    SmallTag(MAT_T_MATRIX, |body|);
  }

  /** Written bytes, from the beginning of a file, are read. */
  lemma ReadFromStart(name: Name, v: MatVar)
    requires Storable(v) && NulFree(name) && |Encode(name, v)| < 0x8000_0000
    ensures ReadVariable(Encode(name, v), 0) == (Some(Normalised(v, Some(name))), |Encode(name, v)|)
  {
    hide Encode, Storable, NulFree, ReadVariable, Normalised, Has;
    HasChunk(Encode(name, v), 0, Encode(name, v));
    RoundTrip(Encode(name, v), 0, name, v);
  }

  lemma ProdTwo(a: nat, b: nat)
    ensures MulDims([a, b]) == a * b
  {
    assert [a, b][..1] == [a] && [a][..0] == [];
    assert Prod([]) == 1 && Prod([a]) == a;
  }

  /** The complex number 1 + 2i. */
  lemma ComplexNumber()
    ensures var v := MatVar(Some([122]), Header(6, true, false, false, 0, [1, 1]), Numeric([0, 0, 0, 0, 0, 0, 240, 63], Some([0, 0, 0, 0, 0, 0, 0, 64])));
            var b: seq<Byte> :=
              [14, 0, 0, 0, 72, 0, 0, 0]
              + ([6, 0, 0, 0, 8, 0, 0, 0] + [6, 8, 0, 0, 0, 0, 0, 0] + [5, 0, 0, 0, 8, 0, 0, 0] + [1, 0, 0, 0, 1, 0, 0, 0]
                 + ([1, 0, 1, 0, 122, 0, 0, 0]
                    + ([9, 0, 0, 0, 8, 0, 0, 0] + [0, 0, 0, 0, 0, 0, 240, 63]
                       + ([9, 0, 0, 0, 8, 0, 0, 0] + [0, 0, 0, 0, 0, 0, 0, 64]))));
            Encode([122], v) == b && ReadVariable(b, 0) == (Some(v), 80)
  {
    hide Head, NameBytes, Block, Tag, Pad8, ReadVariable, Prod, Le32;
    var re: seq<Byte>, im: seq<Byte> := [0, 0, 0, 0, 0, 0, 240, 63], [0, 0, 0, 0, 0, 0, 0, 64];
    var v := MatVar(Some([122]), Header(6, true, false, false, 0, [1, 1]), Numeric(re, Some(im)));
    ProdTwo(1, 1);
    SmallHead(v.header);
    LetterName(122);
    SmallBlock(9, re);
    SmallBlock(9, im);
    PadOfEight();
    assert Block(9, re) == [9, 0, 0, 0, 8, 0, 0, 0] + re && Block(9, im) == [9, 0, 0, 0, 8, 0, 0, 0] + im;
    SmallSized(Body(v, NameBytes([122])));
    ReadFromStart([122], v);
  }

  lemma PadOfEight()
    ensures Pad8(8) == 0 && Zeros(0) == [] && Pad8(2) == 6 && Zeros(6) == [0, 0, 0, 0, 0, 0] && Pad8(4) == 4 && Zeros(4) == [0, 0, 0, 0]
  {
  }

  /** A global text of two characters. */
  lemma GlobalText()
    ensures var v := MatVar(Some([116]), Header(4, false, true, false, 0, [1, 2]), Text([104, 105]));
            var b: seq<Byte> :=
              [14, 0, 0, 0, 56, 0, 0, 0]
              + ([6, 0, 0, 0, 8, 0, 0, 0] + [4, 4, 0, 0, 0, 0, 0, 0] + [5, 0, 0, 0, 8, 0, 0, 0] + [1, 0, 0, 0, 2, 0, 0, 0]
                 + ([1, 0, 1, 0, 116, 0, 0, 0] + ([16, 0, 0, 0, 2, 0, 0, 0] + [104, 105] + [0, 0, 0, 0, 0, 0])));
            Encode([116], v) == b && ReadVariable(b, 0) == (Some(v), 64)
  {
    hide Head, NameBytes, Block, Tag, Pad8, ReadVariable, Prod, Le32;
    var v := MatVar(Some([116]), Header(4, false, true, false, 0, [1, 2]), Text([104, 105]));
    ProdTwo(1, 2);
    SmallHead(v.header);
    LetterName(116);
    SmallBlock(16, [104, 105]);
    PadOfEight();
    SmallSized(Body(v, NameBytes([116])));
    ReadFromStart([116], v);
  }

  /** A logical matrix of two bytes. */
  lemma LogicalBytes()
    ensures var v := MatVar(Some([108]), Header(9, false, false, true, 0, [2, 1]), Numeric([1, 0], None));
            var b: seq<Byte> :=
              [14, 0, 0, 0, 56, 0, 0, 0]
              + ([6, 0, 0, 0, 8, 0, 0, 0] + [9, 2, 0, 0, 0, 0, 0, 0] + [5, 0, 0, 0, 8, 0, 0, 0] + [2, 0, 0, 0, 1, 0, 0, 0]
                 + ([1, 0, 1, 0, 108, 0, 0, 0] + ([2, 0, 0, 0, 2, 0, 0, 0] + [1, 0] + [0, 0, 0, 0, 0, 0])));
            Encode([108], v) == b && ReadVariable(b, 0) == (Some(v), 64)
  {
    hide Head, NameBytes, Block, Tag, Pad8, ReadVariable, Prod, Le32;
    var v := MatVar(Some([108]), Header(9, false, false, true, 0, [2, 1]), Numeric([1, 0], None));
    ProdTwo(2, 1);
    SmallHead(v.header);
    LetterName(108);
    SmallBlock(2, [1, 0]);
    PadOfEight();
    SmallSized(Body(v, NameBytes([108])));
    ReadFromStart([108], v);
  }

  /** A sparse matrix of two rows with one entry, in the second. */
  lemma SparseEntry()
    ensures var v := MatVar(Some([115]), Header(5, false, false, false, 1, [2, 1]), Sparse([1], [0, 1], [0, 0, 0, 0, 0, 0, 240, 63], None));
            var b: seq<Byte> :=
              [14, 0, 0, 0, 88, 0, 0, 0]
              + ([6, 0, 0, 0, 8, 0, 0, 0] + [5, 0, 0, 0, 1, 0, 0, 0] + [5, 0, 0, 0, 8, 0, 0, 0] + [2, 0, 0, 0, 1, 0, 0, 0]
                 + ([1, 0, 1, 0, 115, 0, 0, 0]
                    + ([6, 0, 0, 0, 4, 0, 0, 0] + [1, 0, 0, 0] + [0, 0, 0, 0]
                       + ([6, 0, 0, 0, 8, 0, 0, 0] + [0, 0, 0, 0, 1, 0, 0, 0]
                          + ([9, 0, 0, 0, 8, 0, 0, 0] + [0, 0, 0, 0, 0, 0, 240, 63])))));
            Encode([115], v) == b && ReadVariable(b, 0) == (Some(v), 96)
  {
    hide Head, NameBytes, Block, Tag, Pad8, ReadVariable, Prod, Le32, Words;
    var value: seq<Byte> := [0, 0, 0, 0, 0, 0, 240, 63];
    var v := MatVar(Some([115]), Header(5, false, false, false, 1, [2, 1]), Sparse([1], [0, 1], value, None));
    SmallHead(v.header);
    LetterName(115);
    OneWord(1);
    TwoWords(0, 1);
    SmallNumber(0);
    SmallNumber(1);
    SmallBlock(6, Words([1]));
    SmallBlock(6, Words([0, 1]));
    SmallBlock(9, value);
    PadOfEight();
    assert Block(6, Words([0, 1])) == [6, 0, 0, 0, 8, 0, 0, 0] + [0, 0, 0, 0, 1, 0, 0, 0];
    assert Block(9, value) == [9, 0, 0, 0, 8, 0, 0, 0] + value;
    var rest := Block(9, value) + [];
    assert rest == Block(9, value);
    SmallSized(Body(v, NameBytes([115])));
    ReadFromStart([115], v);
  }

  lemma OneWord(x: nat)
    ensures Words([x]) == Le32(x)
  {
    assert [x][1..] == [] && Words([]) == [] && Le32(x) + [] == Le32(x);
  }

  /** A cell array with one cell that is empty. */
  lemma EmptyCell()
    ensures var v := MatVar(Some([99]), Header(1, false, false, false, 0, [1, 1]), Cells([Some(MatVar(None, EmptyHeader, NoData))]));
            var b: seq<Byte> :=
              [14, 0, 0, 0, 48, 0, 0, 0]
              + ([6, 0, 0, 0, 8, 0, 0, 0] + [1, 0, 0, 0, 0, 0, 0, 0] + [5, 0, 0, 0, 8, 0, 0, 0] + [1, 0, 0, 0, 1, 0, 0, 0]
                 + ([1, 0, 1, 0, 99, 0, 0, 0] + [14, 0, 0, 0, 0, 0, 0, 0]));
            Encode([99], v) == b && ReadVariable(b, 0) == (Some(v), 56)
  {
    hide Head, NameBytes, Tag, Pad8, ReadVariable, Prod, Le32, Elements;
    var cells: seq<Option<MatVar>> := [Some(MatVar(None, EmptyHeader, NoData))];
    var v := MatVar(Some([99]), Header(1, false, false, false, 0, [1, 1]), Cells(cells));
    ProdTwo(1, 1);
    SmallHead(v.header);
    LetterName(99);
    OneEmptyCell(cells);
    assert Content(v.header.cls, v.data) == Elements(cells, true);
    SmallSized(Body(v, NameBytes([99])));
    ReadFromStart([99], v);
  }

  lemma OneEmptyCell(cells: seq<Option<MatVar>>)
    requires cells == [Some(MatVar(None, EmptyHeader, NoData))]
    ensures Elements(cells, true) == [14, 0, 0, 0, 0, 0, 0, 0] && NormalisedCells(cells) == cells
    ensures StorableCells(cells)
  {
    hide Tag;
    SmallTag(14, 0);
    assert cells[1..] == [];
    assert Elements([], true) == [] && NormalisedCells([]) == [];
    assert Element(cells[0], true) == [14, 0, 0, 0, 0, 0, 0, 0];
    assert NormalisedChild(cells[0], None) == cells[0];
  }

  /** A struct with a field `f` that is missing: in slots of 8 bytes, as one slot must fill a multiple of 8. */
  lemma MissingField()
    ensures var v := MatVar(Some([100]), Header(2, false, false, false, 0, [1, 1]), Struct([[102]], [None]));
            var b: seq<Byte> :=
              [14, 0, 0, 0, 120, 0, 0, 0]
              + ([6, 0, 0, 0, 8, 0, 0, 0] + [2, 0, 0, 0, 0, 0, 0, 0] + [5, 0, 0, 0, 8, 0, 0, 0] + [1, 0, 0, 0, 1, 0, 0, 0]
                 + ([1, 0, 1, 0, 100, 0, 0, 0]
                    + ([5, 0, 4, 0, 8, 0, 0, 0] + [1, 0, 0, 0, 8, 0, 0, 0] + [102, 0, 0, 0, 0, 0, 0, 0] + EmptyDouble)));
            Encode([100], v) == b
            && ReadVariable(b, 0) == (Some(v.(data := Struct([[102]], [Some(EmptyField.(name := Some([102])))]))), 128)
  {
    hide Head, NameBytes, Tag, Pad8, ReadVariable, Prod, Le32, StructHead, Element;
    var names: seq<Name>, fields: seq<Option<MatVar>> := [[102]], [None];
    var v := MatVar(Some([100]), Header(2, false, false, false, 0, [1, 1]), Struct(names, fields));
    ProdTwo(1, 1);
    SmallHead(v.header);
    LetterName(100);
    OneFieldName();
    EmptyDoubleIs();
    assert fields[1..] == [];
    assert Elements(fields, false) == EmptyDouble + [];
    assert |EmptyDouble| == 56;
    NormalisedMissing();
    SmallSized(Body(v, NameBytes([100])));
    ReadFromStart([100], v);
  }

  lemma NormalisedMissing()
    ensures NormalisedFields([[102]], 0, [None]) == [Some(EmptyField.(name := Some([102])))]
  {
    var fields: seq<Option<MatVar>> := [None];
    assert fields[1..] == [];
    assert NormalisedFields([[102]], 1, []) == [];
  }

  lemma OneFieldName()
    ensures StructHead([[102]]) == [5, 0, 4, 0, 8, 0, 0, 0] + [1, 0, 0, 0, 8, 0, 0, 0] + [102, 0, 0, 0, 0, 0, 0, 0]
  {
    hide Tag, Le32, SlotSize, MaxLength;
    var names: seq<Name> := [[102]];
    SlotOfEight();
    PackedSize();
    SmallNumber(8);
    SmallTag(1, 8);
    assert names[1..] == [] && Slots([], 8) == [];
    assert Slots(names, 8) == ([102] + Zeros(7)) + Slots(names[1..], 8);
    assert Zeros(7) == [0, 0, 0, 0, 0, 0, 0];
  }

  lemma SlotOfEight()
    ensures NamesSize([[102]]) == 8
  {
    var names: seq<Name> := [[102]];
    assert names[..0] == [] && MaxLength([]) == 0 && MaxLength(names) == 1;
    assert SlotSize(1, 8) == 8;
  }

  /** Two bytes that another program packed into their tag. */
  lemma PackedBytes()
    ensures var v := MatVar(Some([97]), Header(9, false, false, false, 0, [1, 2]), Numeric([5, 7], None));
            var b: seq<Byte> :=
              [14, 0, 0, 0, 48, 0, 0, 0]
              + ([6, 0, 0, 0, 8, 0, 0, 0] + [9, 0, 0, 0, 0, 0, 0, 0] + [5, 0, 0, 0, 8, 0, 0, 0] + [1, 0, 0, 0, 2, 0, 0, 0]
                 + ([1, 0, 1, 0, 97, 0, 0, 0] + [2, 0, 2, 0, 5, 7, 0, 0]));
            ReadVariable(b, 0) == (Some(v), 56)
  {
    hide ReadVariable, Prod, StoredType, Has, Head, NameBytes, IsHeader, IsName, IsData, NameEnd, IsVariable, Number;
    var v := MatVar(Some([97]), Header(9, false, false, false, 0, [1, 2]), Numeric([5, 7], None));
    var head: seq<Byte> := [6, 0, 0, 0, 8, 0, 0, 0] + [9, 0, 0, 0, 0, 0, 0, 0] + [5, 0, 0, 0, 8, 0, 0, 0] + [1, 0, 0, 0, 2, 0, 0, 0];
    var data: seq<Byte> := [2, 0, 2, 0, 5, 7, 0, 0];
    var b: seq<Byte> := [14, 0, 0, 0, 48, 0, 0, 0] + (head + ([1, 0, 1, 0, 97, 0, 0, 0] + data));
    ProdTwo(1, 2);
    SmallHead(v.header);
    LetterName(97);
    HasChunk(b, 0, b);
    HasBoth(b, 0, [14, 0, 0, 0, 48, 0, 0, 0], head + ([1, 0, 1, 0, 97, 0, 0, 0] + data));
    HasBoth(b, 8, head, [1, 0, 1, 0, 97, 0, 0, 0] + data);
    HasBoth(b, 40, [1, 0, 1, 0, 97, 0, 0, 0], data);
    HeaderIs(b, 8, v.header);
    NameIs(b, 40, [97]);
    PackedData(b, 48, data);
    PackedShell(b, v);
    VariableIsRead(b, 0, v, [97]);
  }

  lemma PackedData(b: seq<Byte>, p: nat, data: seq<Byte>)
    requires data == [2, 0, 2, 0, 5, 7, 0, 0] && Has(b, p, data)
    ensures IsData(b, p, 9, Numeric([5, 7], None), true, p + 8)
  {
    EightBytes(b, p, data);
    assert b[p + 4..p + 6] == [5, 7];
  }

  lemma PackedShell(b: seq<Byte>, v: MatVar)
    requires |b| == 56 && b[..8] == [14, 0, 0, 0, 48, 0, 0, 0]
    requires |v.header.dims| == 2 && v.header.cls == 9
    requires IsHeader(b, 8, v.header) && IsName(b, 40, [97], false) && NameEnd(b, 40, [97]) == 48
    requires IsData(b, 48, 9, v.data, true, 56)
    ensures IsVariable(b, 0, v, [97], true) && Number(b, 4) == 48
  {
    hide IsHeader, IsData, NameEnd, Has;
    HasChunk(b, 0, b[..8]);
    EightBytes(b, 0, b[..8]);
  }

  lemma EightBytes(b: seq<Byte>, p: nat, data: seq<Byte>)
    requires Has(b, p, data) && |data| == 8
    ensures p + 8 <= |b| && [b[p], b[p + 1], b[p + 2], b[p + 3], b[p + 4], b[p + 5], b[p + 6], b[p + 7]] == data
  {
    assert b[p..p + 8] == [b[p], b[p + 1], b[p + 2], b[p + 3], b[p + 4], b[p + 5], b[p + 6], b[p + 7]];
  }
}
