/** 16-bit text as UTF-8 and back, one unit at a time. Masks and shifts are written as remainders and
    quotients. */
module Utf {

  type Byte = x: int | 0 <= x < 256
  type Unit = x: int | 0 <= x < 65536

  // ----- From units to bytes -----

  /** The conversion in Mat_VarPrint. */
  function EncodeUnit(c: Unit): (b: seq<Byte>)
    ensures 1 <= |b| <= 3
  {
    if c <= 0x7F then [c]
    else if c <= 0x7FF then [0xC0 + c / 64, 0x80 + c % 64]
    else [0xE0 + c / 4096, 0x80 + c / 64 % 64, 0x80 + c % 64]
  }

  function Encode(units: seq<Unit>): seq<Byte> {
    if units == [] then [] else EncodeUnit(units[0]) + Encode(units[1..])
  }

  // ----- From bytes to units -----

  /** One character: the unit and how many bytes it takes. NotSupported: more than 16 bits, or not complete. */
  datatype Character = Character(u: Unit, size: nat) | NotSupported

  function DecodeFirst(data: seq<Byte>): (r: Character)
    requires data != []
    ensures r.Character? ==> 1 <= r.size <= 3 && r.size <= |data|
  {
    var c: int := data[0];
    if c <= 0x7F then Character(c, 1)
    else if c < 0xE0 && |data| > 1 then Character(c % 32 * 64 + (data[1] as int) % 64, 2)
    else if c / 16 == 14 && |data| > 2 then
      Character(c % 16 * 4096 + (data[1] as int) / 4 % 16 * 256 + (data[1] as int) % 4 * 64
                + (data[2] as int) / 16 % 4 * 16 + (data[2] as int) % 16, 3)
    else NotSupported
  }

  /** The units up to the end, or up to the first character that is not supported. */
  function Decode(data: seq<Byte>): (seq<Unit>, bool) {
    if data == [] then ([], true)
    else match DecodeFirst(data)
      case NotSupported => ([], false)
      case Character(u, size) =>
        var (rest, ok) := Decode(data[size..]);
        ([u] + rest, ok)
  }

  /** The character at place `i`. */
  method CharacterAt(data: seq<Byte>, i: nat) returns (r: Character)
    requires i < |data|
    ensures r == DecodeFirst(data[i..])
  {
    var c: int := data[i];
    if c <= 0x7F {
      return Character(c, 1);
    } else if c < 0xE0 && i + 1 < |data| {
      return Character(c % 32 * 64 + (data[i + 1] as int) % 64, 2);
    } else if c / 16 == 14 && i + 2 < |data| {
      return Character(c % 16 * 4096 + (data[i + 1] as int) / 4 % 16 * 256 + (data[i + 1] as int) % 4 * 64
                       + (data[i + 2] as int) / 16 % 4 * 16 + (data[i + 2] as int) % 16, 3);
    } else {
      return NotSupported;
    }
  }

  /** The loop of Mat_VarWriteChar73 over bytes and slots. */
  method Convert(data: seq<Byte>, u16: array<Unit>) returns (ok: bool, j: nat)
    requires |Decode(data).0| <= u16.Length
    modifies u16
    ensures ok == Decode(data).1
    ensures j == |Decode(data).0| && u16[..j] == Decode(data).0
    ensures u16[j..] == old(u16[j..])
  {
    hide Decode, DecodeFirst;
    var i := 0;
    ok, j := true, 0;
    assert data[0..] == data;
    while i < |data|
      invariant 0 <= i <= |data| && 0 <= j <= |Decode(data).0|
      invariant u16[..j] + Decode(data[i..]).0 == Decode(data).0
      invariant Decode(data[i..]).1 == Decode(data).1
      invariant forall k | j <= k < u16.Length :: u16[k] == old(u16[k])
    {
      AfterCharacter(data, i);
      ghost var before := u16[..j];
      var r := CharacterAt(data, i);
      if r.NotSupported? {
        assert u16[..j] == u16[..j] + [];
        return false, j;
      }
      u16[j] := r.u;
      i := i + r.size;
      j := j + 1;
      assert u16[..j] == before + [r.u];
    }
    AfterCharacter(data, |data|);
    assert u16[..j] == u16[..j] + [];
  }

  lemma AfterCharacter(data: seq<Byte>, i: nat)
    requires i <= |data|
    ensures i == |data| ==> Decode(data[i..]) == ([], true)
    ensures i < |data| ==>
      match DecodeFirst(data[i..])
      case NotSupported => Decode(data[i..]) == ([], false)
      case Character(u, size) =>
        && Decode(data[i..]).0 == [u] + Decode(data[i + size..]).0
        && Decode(data[i..]).1 == Decode(data[i + size..]).1
  {
    if i < |data| && DecodeFirst(data[i..]).Character? {
      assert data[i..][DecodeFirst(data[i..]).size..] == data[i + DecodeFirst(data[i..]).size..];
    }
  }

  // ----- The number of bytes of so many characters -----

  function LeadSize(c: Byte): nat {
    if c <= 0x7F then 1 else if c / 32 == 6 then 2 else if c / 16 == 14 then 3 else if c / 8 == 30 then 4 else 0
  }

  /** The first byte of a character in UTF-8 says how many bytes it has; others are no first bytes. */
  lemma LeadBytes(c: Byte)
    ensures LeadSize(c) ==
      if c < 0x80 then 1 else if 0xC0 <= c < 0xE0 then 2 else if 0xE0 <= c < 0xF0 then 3 else if 0xF0 <= c < 0xF8 then 4 else 0
  {
  }

  /** The count in Mat_VarCreate: the place behind the next `n` characters from `k` on. A byte that
      begins no character does not move it. */
  function Behind(data: seq<Byte>, k: nat, n: nat): nat
    decreases n
  {
    if n == 0 then k else if k >= |data| then k else Behind(data, k + LeadSize(data[k]), n - 1)
  }

  /** Each of the `nelems` characters is looked at where the count so far says. */
  method CountBytes(data: seq<Byte>, nelems: nat) returns (k: nat)
    requires forall n | 0 <= n < nelems :: Behind(data, 0, n) < |data|
    ensures k == Behind(data, 0, nelems)
  {
    k := 0;
    var i := 0;
    while i < nelems
      invariant 0 <= i <= nelems && k == Behind(data, 0, i)
    {
      BehindOneMore(data, 0, i);
      var c := data[k];
      if c <= 0x7F {
        k := k + 1;
      } else if c / 32 == 6 {
        k := k + 2;
      } else if c / 16 == 14 {
        k := k + 3;
      } else if c / 8 == 30 {
        k := k + 4;
      }
      i := i + 1;
    }
  }

  lemma {:induction false} BehindOneMore(data: seq<Byte>, k: nat, n: nat)
    requires Behind(data, k, n) < |data|
    ensures Behind(data, k, n + 1) == Behind(data, k, n) + LeadSize(data[Behind(data, k, n)])
    decreases n
  {
    if n > 0 && k < |data| {
      BehindOneMore(data, k + LeadSize(data[k]), n - 1);
    }
  }

  lemma {:induction false} BehindStart(data: seq<Byte>, k: nat, n: nat)
    ensures k <= Behind(data, k, n)
    decreases n
  {
    if n > 0 && k < |data| {
      BehindStart(data, k + LeadSize(data[k]), n - 1);
    }
  }

  /** The bytes that the count takes for `n` characters decode to no more than `n` units, whatever
      they are: the slots suffice. */
  lemma {:induction false} SlotsSuffice(data: seq<Byte>, k: nat, n: nat)
    requires k <= Behind(data, k, n) <= |data|
    ensures |Decode(data[k..Behind(data, k, n)]).0| <= n
    decreases n
  {
    hide DecodeFirst;
    var end := Behind(data, k, n);
    if k < end {
      var size := LeadSize(data[k]);
      BehindStart(data, k + size, n - 1);
      SlotsSuffice(data, k + size, n - 1);
      if size > 0 && DecodeFirst(data[k..end]).Character? {
        SameSize(data[k..end]);
        assert data[k..end][size..] == data[k + size..end];
      }
    }
  }

  /** Where the count moves on, the decoder moves on as far or stops. */
  lemma SameSize(data: seq<Byte>)
    requires data != [] && LeadSize(data[0]) != 0 && DecodeFirst(data).Character?
    ensures DecodeFirst(data).size == LeadSize(data[0])
  {
  }

  // ----- Whether the slots suffice -----

  /** The place behind the first `n` characters as they are decoded, or the end. */
  function DecodedTo(data: seq<Byte>, n: nat): (k: nat)
    ensures k <= |data|
    decreases n
  {
    if n == 0 || data == [] || DecodeFirst(data).NotSupported? then 0
    else DecodeFirst(data).size + DecodedTo(data[DecodeFirst(data).size..], n - 1)
  }

  /** Nothing more is decoded behind `n` characters. */
  predicate Fits(data: seq<Byte>, n: nat) {
    var k := DecodedTo(data, n);
    k == |data| || DecodeFirst(data[k..]).NotSupported?
  }

  /** The slots suffice for any bytes if and only if nothing is decoded behind as many characters. */
  lemma {:induction false} FitsIff(data: seq<Byte>, n: nat)
    ensures |Decode(data).0| <= n <==> Fits(data, n)
    decreases n
  {
    hide DecodeFirst;
    assert data[0..] == data;
    if n > 0 && data != [] && DecodeFirst(data).Character? {
      var size := DecodeFirst(data).size;
      FitsIff(data[size..], n - 1);
      assert data[size..][DecodedTo(data[size..], n - 1)..] == data[size + DecodedTo(data[size..], n - 1)..];
    }
  }

  /** For UTF-8 of at most three bytes a character this is the count of Mat_VarCreate. */
  lemma {:induction false} CountFits(data: seq<Byte>, n: nat)
    requires Utf8(data)
    ensures |Decode(data).0| <= n <==> |data| <= Behind(data, 0, n)
    decreases n
  {
    hide DecodeFirst, LeadSize, WellFormed;
    if n > 0 && data != [] {
      var size := DecodeFirst(data).size;
      LeadOfWellFormed(data);
      CountFits(data[size..], n - 1);
      BehindLater(data, size, 0, n - 1);
    }
  }

  lemma LeadOfWellFormed(data: seq<Byte>)
    requires data != [] && WellFormed(data) && DecodeFirst(data).Character?
    ensures LeadSize(data[0]) == DecodeFirst(data).size
  {
  }

  lemma {:induction false} BehindLater(data: seq<Byte>, m: nat, k: nat, n: nat)
    requires m <= |data|
    ensures Behind(data, m + k, n) == m + Behind(data[m..], k, n)
    decreases n
  {
    hide LeadSize;
    if n > 0 && m + k < |data| {
      BehindLater(data, m, k + LeadSize(data[m + k]), n - 1);
    }
  }

  /** Three characters read from a file under dims of 1x2 do not fit. */
  lemma DimsTooSmall()
    ensures !Fits([97, 97, 97], 2) && Decode([97, 97, 97]).0 == [97, 97, 97]
  {
    var data: seq<Byte> := [97, 97, 97];
    assert data[1..] == [97, 97] && data[1..][1..] == [97] && data[1..][1..][1..] == [];
    assert Decode(data[1..][1..]).0 == [97];
    assert Decode(data[1..]).0 == [97, 97];
    FitsIff(data, 2);
  }

  /** Mat_VarWriteChar73 converts all bytes of the variable into `nelems` slots, all zero before, of
      which it fills as many as it needs. */
  method WriteChar(data: seq<Byte>, nelems: nat) returns (ok: bool, u16: array<Unit>)
    requires Fits(data, nelems)
    ensures fresh(u16) && u16.Length == nelems
    ensures var (units, all) := Decode(data);
            && ok == all && |units| <= nelems
            && u16[..] == units + seq(nelems - |units|, _ => 0)
  {
    hide Decode, DecodeFirst;
    FitsIff(data, nelems);
    u16 := new Unit[nelems](_ => 0);
    var j;
    ok, j := Convert(data, u16);
    assert u16[..] == u16[..j] + u16[j..];
  }

  /** From the creation of a variable to its conversion: its bytes are cut behind `nelems` characters. */
  method WriteCreated(data: seq<Byte>, nelems: nat) returns (ok: bool, u16: array<Unit>)
    requires forall n | 0 <= n < nelems :: Behind(data, 0, n) < |data|
    requires Behind(data, 0, nelems) <= |data|
    ensures fresh(u16) && u16.Length == nelems
    ensures var (units, all) := Decode(data[..Behind(data, 0, nelems)]);
            && ok == all && |units| <= nelems
            && u16[..] == units + seq(nelems - |units|, _ => 0)
  {
    hide Decode, DecodeFirst, Fits;
    var nbytes := CountBytes(data, nelems);
    SlotsSuffice(data, 0, nelems);
    assert data[0..nbytes] == data[..nbytes];
    FitsIff(data[..nbytes], nelems);
    ok, u16 := WriteChar(data[..nbytes], nelems);
  }

  // ----- Round trips -----

  lemma UnitDecoded(c: Unit, rest: seq<Byte>)
    ensures DecodeFirst(EncodeUnit(c) + rest) == Character(c, |EncodeUnit(c)|)
    ensures LeadSize(EncodeUnit(c)[0]) == |EncodeUnit(c)|
  {
    if c > 0x7FF {
      ThreeByteUnit(c, rest);
    } else if c > 0x7F {
      assert c == 64 * (c / 64) + c % 64;
      assert (0xC0 + c / 64) % 32 == c / 64;
    }
  }

  lemma ThreeByteUnit(c: Unit, rest: seq<Byte>)
    requires c > 0x7FF
    ensures DecodeFirst(EncodeUnit(c) + rest) == Character(c, 3)
    ensures LeadSize(EncodeUnit(c)[0]) == 3
  {
    var hi, mid, lo := c / 4096, c / 64 % 64, c % 64;
    ThreeBytes(hi, mid, lo);
    ThreeParts(c);
    var data := EncodeUnit(c) + rest;
    assert data[0] == 0xE0 + hi && data[1] == 0x80 + mid && data[2] == 0x80 + lo;
    assert |data| > 2;
  }

  lemma ThreeParts(c: nat)
    ensures c == c / 4096 * 4096 + c / 64 % 64 * 64 + c % 64
  {
    assert c == 64 * (c / 64) + c % 64;
    assert c / 64 == 64 * (c / 4096) + c / 64 % 64;
  }

  lemma ThreeBytes(hi: nat, mid: nat, lo: nat)
    requires hi < 16 && mid < 64 && lo < 64
    ensures (0xE0 + hi) % 16 == hi && (0xE0 + hi) / 16 == 14
    ensures (0x80 + mid) / 4 % 16 * 256 + (0x80 + mid) % 4 * 64 == mid * 64
    ensures (0x80 + lo) / 16 % 4 * 16 + (0x80 + lo) % 16 == lo
  {
    assert (0x80 + mid) / 4 == 32 + mid / 4 && (0x80 + mid) % 4 == mid % 4;
    assert (32 + mid / 4) % 16 == mid / 4;
    assert (0x80 + lo) / 16 == 8 + lo / 16 && (0x80 + lo) % 16 == lo % 16;
    assert (8 + lo / 16) % 4 == lo / 16;
  }

  /** Decoding gives back every text of 16-bit units, with one slot for each. */
  lemma {:induction false} DecodeEncoded(units: seq<Unit>)
    ensures Decode(Encode(units)) == (units, true)
  {
    hide EncodeUnit, DecodeFirst;
    if units != [] {
      var first, rest := EncodeUnit(units[0]), Encode(units[1..]);
      UnitDecoded(units[0], rest);
      DecodeEncoded(units[1..]);
      assert Encode(units) == first + rest;
      assert Encode(units)[|first|..] == rest;
      assert units == [units[0]] + units[1..];
    }
  }

  /** Counting as many characters as there are units finds the end of the bytes, and not before. */
  lemma {:induction false} CountEncoded(before: seq<Byte>, units: seq<Unit>, n: nat)
    requires n <= |units|
    ensures Behind(before + Encode(units), |before|, n) == |before| + |Encode(units[..n])|
    ensures n < |units| ==> Behind(before + Encode(units), |before|, n) < |before + Encode(units)|
    decreases n
  {
    hide EncodeUnit, LeadSize;
    if n == 0 {
      assert units[..0] == [];
    } else {
      var first := EncodeUnit(units[0]);
      UnitDecoded(units[0], []);
      assert before + Encode(units) == (before + first) + Encode(units[1..]);
      CountEncoded(before + first, units[1..], n - 1);
      assert units[..n][1..] == units[1..][..n - 1];
    }
  }

  // ----- Which bytes come from units -----

  predicate IsTail(b: Byte) {
    0x80 <= b <= 0xBF
  }

  /** The first character is one of the forms of UTF-8 with up to three bytes, in the shortest form. */
  predicate WellFormed(data: seq<Byte>)
    requires data != []
  {
    var c: int := data[0];
    || c <= 0x7F
    || (0xC2 <= c <= 0xDF && |data| > 1 && IsTail(data[1]))
    || (c == 0xE0 && |data| > 2 && 0xA0 <= data[1] <= 0xBF && IsTail(data[2]))
    || (0xE1 <= c <= 0xEF && |data| > 2 && IsTail(data[1]) && IsTail(data[2]))
  }

  predicate Utf8(data: seq<Byte>) {
    data != [] ==> WellFormed(data) && DecodeFirst(data).Character? && Utf8(data[DecodeFirst(data).size..])
  }

  lemma FirstEncoded(data: seq<Byte>)
    requires data != []
    ensures WellFormed(data) <==> DecodeFirst(data).Character? && EncodeUnit(DecodeFirst(data).u) == data[..DecodeFirst(data).size]
  {
    var c: int := data[0];
    if c <= 0x7F {
    } else if c < 0xE0 && |data| > 1 {
      TwoBytesEncoded(c, data[1]);
    } else if c / 16 == 14 && |data| > 2 {
      ThreeBytesEncoded(c, data[1], data[2]);
    }
  }

  lemma TwoBytesEncoded(c: Byte, d: Byte)
    requires 0x80 <= c < 0xE0
    ensures EncodeUnit((c as int) % 32 * 64 + (d as int) % 64) == [c, d] <==> 0xC2 <= c && IsTail(d)
  {
    var hi, lo := (c as int) % 32, (d as int) % 64;
    var u := hi * 64 + lo;
    assert u / 64 == hi && u % 64 == lo;
  }

  lemma ThreeBytesEncoded(c: Byte, d: Byte, e: Byte)
    requires (c as int) / 16 == 14
    ensures EncodeUnit((c as int) % 16 * 4096 + (d as int) / 4 % 16 * 256 + (d as int) % 4 * 64 + (e as int) / 16 % 4 * 16 + (e as int) % 16) == [c, d, e]
       <==> IsTail(d) && IsTail(e) && (c == 0xE0 ==> 0xA0 <= d)
  {
    MiddleBits(d);
    LastBits(e);
    FromParts((c as int) % 16, (d as int) % 64, (e as int) % 64);
  }

  lemma FromParts(hi: nat, mid: nat, lo: nat)
    requires hi < 16 && mid < 64 && lo < 64
    ensures var b := EncodeUnit(hi * 4096 + mid * 64 + lo);
            if hi > 0 || mid >= 32 then b == [0xE0 + hi, 0x80 + mid, 0x80 + lo] else |b| < 3
  {
    var u := hi * 4096 + mid * 64 + lo;
    assert u % 64 == lo && u / 64 == hi * 64 + mid;
    assert u / 4096 == hi && u / 64 % 64 == mid;
  }

  lemma MiddleBits(d: Byte)
    ensures (d as int) / 4 % 16 * 256 + (d as int) % 4 * 64 == (d as int) % 64 * 64
  {
    var x: int := d;
    assert x == 4 * (x / 4) + x % 4;
    assert x / 4 == 16 * (x / 64) + x / 4 % 16;
  }

  lemma LastBits(e: Byte)
    ensures (e as int) / 16 % 4 * 16 + (e as int) % 16 == (e as int) % 64
  {
    var x: int := e;
    assert x == 16 * (x / 16) + x % 16;
    assert x / 16 == 4 * (x / 64) + x / 16 % 4;
  }

  /** Which number a character in UTF-8 stands for: the bits below the marks of its bytes, the first byte's
      the highest. */
  lemma DecodedValue(data: seq<Byte>)
    requires data != [] && WellFormed(data)
    ensures var c: int := data[0];
            var r := DecodeFirst(data);
            && r.Character?
            && (c < 0x80 ==> r.size == 1 && r.u == c)
            && (0x80 <= c < 0xE0 ==> r.size == 2 && r.u == (c - 0xC0) * 64 + ((data[1] as int) - 0x80))
            && (0xE0 <= c ==> r.size == 3 && r.u == (c - 0xE0) * 4096 + ((data[1] as int) - 0x80) * 64 + ((data[2] as int) - 0x80))
  {
    var c: int := data[0];
    if 0x80 <= c < 0xE0 {
      assert c % 32 == c - 0xC0;
    } else if c >= 0xE0 {
      MiddleBits(data[1]);
      LastBits(data[2]);
      assert c % 16 == c - 0xE0;
      assert (data[1] as int) % 64 == (data[1] as int) - 0x80 && (data[2] as int) % 64 == (data[2] as int) - 0x80;
    }
  }

  /** Encoding gives back the bytes that were decoded, if and only if these are UTF-8 in the shortest
      form, of at most three bytes a character. */
  lemma {:induction false} EncodeDecoded(data: seq<Byte>)
    ensures Decode(data).1 && Encode(Decode(data).0) == data <==> Utf8(data)
    decreases |data|
  {
    hide EncodeUnit, DecodeFirst, WellFormed;
    if data != [] {
      FirstEncoded(data);
      match DecodeFirst(data)
      case NotSupported =>
      case Character(u, size) =>
        EncodeDecoded(data[size..]);
        var (rest, ok) := Decode(data[size..]);
        assert ([u] + rest)[1..] == rest;
        assert data == data[..size] + data[size..];
        UnitDecoded(u, Encode(rest));
    }
  }
}
