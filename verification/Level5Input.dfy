/** The reader of Level 5 headers as it goes through the file, with its cursor. */
module Level5Input {
  import opened Common
  import opened Level5
  import opened Subscripts
  import opened Level5Reader

  /** Subtraction of 32-bit numbers. */
  function Minus32(a: int, b: int): (r: nat)
    ensures r < 0x1_0000_0000
  {
    (a - b) % 0x1_0000_0000
  }

  lemma MinusTwice(a: int, b: int, c: int)
    ensures Minus32(Minus32(a, b), c) == Minus32(a, b + c)
  {
  }

  class MatInput {
    const file: seq<Byte>
    var pos: nat

    constructor (file: seq<Byte>)
      ensures this.file == file && pos == 0
    {
      this.file := file;
      pos := 0;
    }

    /** Two words, or the end of the file. */
    method ReadTag() returns (ok: bool, t: nat, size: nat)
      modifies `pos
      ensures ok <==> old(pos) + 8 <= |file|
      ensures ok ==> t == Word(file, old(pos)) && size == Word(file, old(pos) + 4) && pos == old(pos) + 8
    {
      ok, t, size := false, 0, 0;
      if pos + 8 <= |file| {
        ok, t, size := true, Word(file, pos), Word(file, pos + 4);
        pos := pos + 8;
      } else if pos < |file| {
        pos := |file|;
      }
    }

    /** ReadRankDims. */
    method ReadRankDims(dimsType: nat, size: nat) returns (ok: bool, dims: seq<nat>)
      requires pos <= |file|
      modifies `pos
      ensures var rank := if dimsType == MAT_T_INT32 then size / 4 else 0;
              var next := old(pos) + 4 * rank + 4 * (rank % 2);
              && (ok <==> next <= |file|)
              && (ok ==> dims == ReadWords(file, old(pos), rank) && pos == next)
    {
      hide Word;
      dims := [];
      if dimsType != MAT_T_INT32 {
        return true, [];
      }
      var rank := size / 4;
      if pos + 4 * rank + 4 * (rank % 2) > |file| {
        pos := |file|;
        return false, [];
      }
      ghost var start := pos;
      var i := 0;
      while i < rank
        invariant 0 <= i <= rank && pos == start + 4 * i && pos + 4 * (rank - i) <= |file|
        invariant dims + ReadWords(file, pos, rank - i) == ReadWords(file, start, rank)
      {
        FirstWord(file, pos, rank - i, dims);
        dims := dims + [Word(file, pos)];
        pos := pos + 4;
        i := i + 1;
      }
      assert dims == dims + ReadWords(file, pos, 0);
      if rank % 2 != 0 {
        pos := pos + 4;
      }
      return true, dims;
    }

    /** Array flags, rank and dimensions. */
    method ReadHeader(top: bool) returns (r: Option<Header>)
      modifies `pos
      ensures match ReadHead(file, old(pos), top)
              case NoHead => r.None?
              case HeadRead(h, next) => r == Some(h) && pos == next
    {
      hide Word, HeaderFromFlags, ReadWords;
      if pos + 24 > |file| {
        pos := if pos < |file| then |file| else pos;
        return None;
      }
      var t, flags, nzmax := Word(file, pos), Word(file, pos + 8), Word(file, pos + 12);
      var dimsType, size := Word(file, pos + 16), Word(file, pos + 20);
      pos := pos + 24;
      var ok, dims := ReadRankDims(dimsType, size);
      if !ok {
        return None;
      }
      var h := EmptyHeader.(dims := dims);
      if t == MAT_T_UINT32 || (top && t == MAT_T_INT32) {
        h := HeaderFromFlags(flags, nzmax, dims);
      }
      return Some(h);
    }

    /** One element of a cell array or of a struct. None: an error. */
    method ReadElement(inCell: bool) returns (r: Option<MatVar>)
      modifies `pos
      ensures match ReadChild(file, old(pos), inCell)
              case Stop => r.None?
              case Child(v, next) => r == Some(v) && pos == next
      decreases Left(file, pos), 0, 0
    {
      hide Word, ReadHead, ReadBody, SkipName, Minus32;
      var ok, t, size := ReadTag();
      if !ok {
        return None;
      }
      if size == 0 && (inCell || t == MAT_T_MATRIX) {
        return Some(MatVar(None, EmptyHeader, NoData));
      }
      if t != MAT_T_MATRIX {
        return None;
      }
      var nBytes := size;
      var at := pos;
      var header := ReadHeader(false);
      if header.None? {
        return None;
      }
      var h := header.value;
      var nameType, nameSize;
      nBytes := Minus32(nBytes, pos - at);
      ok, nameType, nameSize := ReadTag();
      if !ok {
        return None;
      }
      MinusTwice(size, pos - 8 - at, 8);
      nBytes := Minus32(nBytes, 8);
      if inCell {
        var skip := SkipName(nameType, nameSize);
        if skip.None? {
          return None;
        }
        MinusTwice(size, pos - at, skip.value);
        nBytes := Minus32(nBytes, skip.value);
        pos := pos + skip.value;
      }
      var datapos := pos;
      WhatRemains(size, datapos - at);
      var data := ReadContent(h);
      pos := datapos + nBytes;
      return Some(MatVar(None, h, data));
    }

    /** The loop over the elements, which ends at the first error. */
    method ReadElements(n: nat, inCell: bool) returns (r: seq<Option<MatVar>>)
      modifies `pos
      ensures r == ReadChildren(file, old(pos), n, inCell)
      decreases Left(file, pos), 1, n
    {
      hide ReadChild, Left, ReadChildren;
      r := [];
      var i := 0;
      while i < n
        invariant 0 <= i <= n && old(pos) <= pos
        invariant r + ReadChildren(file, pos, n - i, inCell) == ReadChildren(file, old(pos), n, inCell)
        decreases n - i
      {
        FirstOfChildren(file, pos, n - i, inCell, r);
        LeftShrinks(file, old(pos), pos);
        var child := ReadElement(inCell);
        if child.None? {
          r := r + seq(n - i, _ => None);
          return;
        }
        r := r + [child];
        i := i + 1;
      }
      NoMoreChildren(file, pos, inCell, r);
    }

    /** What belongs to the class, behind the name. */
    method ReadContent(h: Header) returns (data: Data)
      modifies `pos
      ensures data == ReadBody(file, old(pos), h)
      decreases Left(file, pos), 2, 0
    {
      hide ReadChildren, ReadNames;
      if h.cls == MAT_C_CELL {
        var cells := ReadElements(MulDims(h.dims), true);
        data := Cells(cells);
      } else if h.cls == MAT_C_STRUCT {
        data := ReadNextStructField(h);
      } else {
        data := At(pos);
      }
    }

    method ReadNextStructField(h: Header) returns (data: Data)
      requires h.cls == MAT_C_STRUCT
      modifies `pos
      ensures data == ReadBody(file, old(pos), h)
      decreases Left(file, pos), 1, 1
    {
      hide ReadChildren, ReadNames;
      var names := ReadNames(file, pos);
      if names.None? {
        return Struct([], []);
      }
      LeftLess(file, pos, names.value.2);
      pos := names.value.2;
      var fields := ReadElements(FieldCount(h.dims, names.value.1), false);
      fields := NameFields(names.value.0, fields);
      data := Struct(names.value.0, fields);
    }

    method NameFields(names: seq<Name>, fields: seq<Option<MatVar>>) returns (r: seq<Option<MatVar>>)
      ensures r == Named(names, 0, fields)
    {
      hide WithName;
      if names == [] {
        return fields;
      }
      r := [];
      var i := 0;
      while i < |fields|
        invariant 0 <= i <= |fields|
        invariant r + Named(names, i, fields[i..]) == Named(names, 0, fields)
      {
        FirstNamed(names, i, fields[i..], r);
        assert fields[i..][1..] == fields[i + 1..];
        r := r + [WithName(names, i, fields[i])];
        i := i + 1;
      }
      assert fields[i..] == [];
    }

    // ----- The data -----

    /** Mat_VarReadNumeric5. */
    method VarReadNumeric5(cls: nat, n: nat) returns (r: Option<seq<Byte>>)
      modifies `pos
      ensures r.None? <==> ReadNumeric(file, old(pos), cls, n).None?
      ensures r.Some? ==> ReadNumeric(file, old(pos), cls, n) == Some((r.value, pos))
    {
      hide Word, SizeOfClass, TypeOfClass, Pad8;
      if pos + 4 > |file| {
        return None;
      }
      var t := Word(file, pos);
      pos := pos + 4;
      var dataInTag := t / 65536 != 0;
      var nBytes := t / 65536;
      if !dataInTag {
        if pos + 4 > |file| {
          return None;
        }
        nBytes := Word(file, pos);
        pos := pos + 4;
      }
      NonNegative(n, SizeOfClass(cls));
      var bytes: nat := n * SizeOfClass(cls);
      if nBytes == 0 {
        return if bytes == 0 then Some([]) else None;
      }
      if t % 256 != TypeOfClass(cls) || pos + bytes > |file| {
        return None;
      }
      r := Some(file[pos..pos + bytes]);
      pos := pos + bytes;
      nBytes := bytes;
      if dataInTag {
        nBytes := nBytes + 4;
      }
      pos := pos + Pad8(nBytes);
    }

    /** Mat_VarRead5: goes to where the data begin, and through the children, and comes back. */
    method VarRead5(v: MatVar) returns (r: Option<MatVar>)
      modifies `pos
      ensures r == ReadData(file, v) && pos == old(pos)
      decreases v
    {
      hide ReadNumeric, ReadSparseData, ReadText, MulDims, ReadAll;
      var fpos := pos;
      var h := v.header;
      if h.dims == [] {
        return Some(v);
      }
      if h.cls == MAT_C_EMPTY {
        return Some(MatVar(v.name, h.(dims := [0, 0]), NoData));
      }
      match v.data {
        case At(datapos) =>
          r := ReadLeaf(v);
        case Cells(cells) =>
          var read := ReadEach(cells);
          r := if read.None? then None else Some(v.(data := Cells(read.value)));
        case Struct(names, fields) =>
          var read := ReadEach(fields);
          r := if read.None? then None else Some(v.(data := Struct(names, read.value)));
        case _ =>
          r := None;
      }
      pos := fpos;
    }

    method ReadLeaf(v: MatVar) returns (r: Option<MatVar>)
      requires v.data.At? && v.header.dims != [] && v.header.cls != MAT_C_EMPTY
      modifies `pos
      ensures r == ReadData(file, v)
    {
      hide ReadNumeric, ReadSparseData, ReadText, MulDims;
      var h := v.header;
      pos := v.data.datapos;
      if h.cls == MAT_C_CHAR && !h.complex {
        var text := ReadText(file, pos, MulDims(h.dims));
        r := if text.None? then None else Some(v.(data := Text(text.value)));
      } else if h.cls == MAT_C_SPARSE {
        var sparse := ReadSparseData(file, pos, h);
        r := if sparse.None? then None else Some(v.(data := sparse.value));
      } else if !IsNumeric(h.cls) {
        r := None;
      } else {
        var re := VarReadNumeric5(h.cls, MulDims(h.dims));
        if re.None? {
          return None;
        }
        if !h.complex {
          return Some(v.(data := Numeric(re.value, None)));
        }
        var im := VarReadNumeric5(h.cls, MulDims(h.dims));
        r := if im.None? then None else Some(v.(data := Numeric(re.value, Some(im.value))));
      }
    }

    /** The loop over children, of which those that are missing are passed over. */
    method ReadEach(children: seq<Option<MatVar>>) returns (r: Option<seq<Option<MatVar>>>)
      modifies `pos
      ensures r == ReadAll(file, children)
      decreases children
    {
      hide ReadOne;
      assert children[0..] == children;
      JoinedNothing(ReadAll(file, children));
      var done: seq<Option<MatVar>> := [];
      var i := 0;
      while i < |children|
        invariant 0 <= i <= |children|
        invariant Joined(done, ReadAll(file, children[i..])) == ReadAll(file, children)
      {
        assert children[i..][0] == children[i] && children[i..][1..] == children[i + 1..];
        var child := ReadChildData(children[i]);
        if child.None? {
          return None;
        }
        JoinedMore(done, child.value, ReadAll(file, children[i + 1..]));
        done := done + [child.value];
        i := i + 1;
      }
      assert done + [] == done;
      r := Some(done);
    }

    method ReadChildData(child: Option<MatVar>) returns (r: Option<Option<MatVar>>)
      modifies `pos
      ensures r == ReadOne(file, child)
      decreases child
    {
      hide ReadData;
      if child.None? {
        return Some(None);
      }
      var read := VarRead5(child.value);
      r := if read.None? then None else Some(read);
    }

    /** Mat_VarReadNextInfo5. */
    method VarReadNextInfo5() returns (v: Option<MatVar>)
      modifies `pos
      ensures v == ReadNextInfo(file, old(pos)).0
      ensures v.Some? ==> pos == ReadNextInfo(file, old(pos)).1
    {
      hide Word, ReadHead, ReadBody;
      var fpos := pos;
      var ok, t, nBytes := ReadTag();
      if !ok || nBytes > 0xffff_ffff - 8 || t != MAT_T_MATRIX {
        return None;
      }
      var header := ReadHeader(true);
      if header.None? || pos + 8 > |file| {
        pos := fpos;
        return None;
      }
      var name := ReadName(file, pos);
      if name.None? {
        pos := fpos;
        return None;
      }
      pos := name.value.1;
      var data := ReadContent(header.value);
      pos := nBytes + 8 + fpos;
      return Some(MatVar(name.value.0, header.value, data));
    }

    /** Mat_VarReadNext: the variable at the cursor. If there is none, the cursor is where it was. */
    method VarReadNext() returns (r: Option<MatVar>)
      modifies `pos
      ensures r == ReadVariable(file, old(pos)).0
      ensures pos == if ReadNextInfo(file, old(pos)).0.Some? then ReadVariable(file, old(pos)).1 else old(pos)
    {
      hide ReadNextInfo, ReadData;
      var fpos := pos;
      var info := VarReadNextInfo5();
      if info.None? {
        pos := fpos;
        return None;
      }
      r := VarRead5(info.value);
    }
  }

  lemma FirstWord(file: seq<Byte>, pos: nat, n: nat, before: seq<nat>)
    requires 0 < n && pos + 4 * n <= |file|
    ensures before + ReadWords(file, pos, n) == before + [Word(file, pos)] + ReadWords(file, pos + 4, n - 1)
  {
    hide Word;
  }

  lemma FirstOfChildren(file: seq<Byte>, pos: nat, n: nat, inCell: bool, before: seq<Option<MatVar>>)
    requires 0 < n
    ensures before + ReadChildren(file, pos, n, inCell) ==
      match ReadChild(file, pos, inCell)
      case Stop => before + seq(n, _ => None)
      case Child(v, next) => before + [Some(v)] + ReadChildren(file, next, n - 1, inCell)
  {
    hide ReadChild;
    match ReadChild(file, pos, inCell)
    case Stop =>
    case Child(v, next) =>
      var rest := ReadChildren(file, next, n - 1, inCell);
      assert before + ([Some(v)] + rest) == before + [Some(v)] + rest;
  }

  lemma NoMoreChildren(file: seq<Byte>, pos: nat, inCell: bool, r: seq<Option<MatVar>>)
    ensures r == r + ReadChildren(file, pos, 0, inCell)
  {
  }

  lemma FirstNamed(names: seq<Name>, i: nat, fields: seq<Option<MatVar>>, before: seq<Option<MatVar>>)
    requires names != [] && fields != []
    ensures before + Named(names, i, fields)
         == before + [WithName(names, i, fields[0])] + Named(names, i + 1, fields[1..])
  {
  }

  ghost function Joined(done: seq<Option<MatVar>>, rest: Option<seq<Option<MatVar>>>): Option<seq<Option<MatVar>>> {
    if rest.None? then None else Some(done + rest.value)
  }

  lemma JoinedNothing(rest: Option<seq<Option<MatVar>>>)
    ensures Joined([], rest) == rest
  {
    if rest.Some? {
      assert [] + rest.value == rest.value;
    }
  }

  lemma JoinedMore(done: seq<Option<MatVar>>, child: Option<MatVar>, rest: Option<seq<Option<MatVar>>>)
    ensures Joined(done, if rest.None? then None else Some([child] + rest.value)) == Joined(done + [child], rest)
  {
    if rest.Some? {
      assert done + ([child] + rest.value) == done + [child] + rest.value;
    }
  }

  lemma WhatRemains(size: int, part: int)
    ensures Minus32(size, part) == (size - part) % 0x1_0000_0000
  {
  }

  lemma LeftShrinks(file: seq<Byte>, before: nat, pos: nat)
    requires before <= pos
    ensures Left(file, pos) <= Left(file, before)
  {
  }

  lemma LeftLess(file: seq<Byte>, before: nat, pos: nat)
    requires before < pos && before < |file|
    ensures Left(file, pos) < Left(file, before)
  {
  }
}
