/** Reading many elements through a small buffer, block by block, with a conversion on the way. */
module BlockedRead {
  import opened Subscripts

  function Min(a: nat, b: nat): nat {
    if a <= b then a else b
  }

  /** How many elements of `len` are stored when the stream ends after `available`: a part that is not
      complete is dropped. */
  function Stored(len: nat, block: nat, available: nat): (n: nat)
    requires 0 < block
  {
    if available >= len then len else if len <= block then 0 else available / block * block
  }

  /** All are stored exactly if none is missing, and otherwise whole blocks only, the most there are. */
  lemma StoredIs(len: nat, block: nat, available: nat)
    requires 0 < block
    ensures Stored(len, block, available) <= Min(len, available)
    ensures Stored(len, block, available) == len <==> available >= len
    ensures available < len && len > block ==>
      Stored(len, block, available) % block == 0 && available - Stored(len, block, available) < block
  {
    Whole(available, block);
  }

  lemma Whole(n: nat, block: nat)
    requires 0 < block
    ensures n / block * block <= n < n / block * block + block
    ensures n / block * block % block == 0
  {
    var q := n / block;
    assert n == block * q + n % block;
    assert q * block == block * q;
    assert (q * block + 0) % block == 0 by { Multiple(q, block); }
  }

  lemma Multiple(q: nat, block: nat)
    requires 0 < block
    ensures q * block % block == 0
  {
    ByQuotient(q, block, q * block / block, q * block % block);
  }

  lemma ByQuotient(q: int, block: int, q': int, r: int)
    requires 0 <= r < block && q * block == block * q' + r
    ensures r == 0
  {
    SameDigit(block, 0, q, r, q');
  }

  /** Element k of the stream is at place k, for the first `n`; the others are as they were. */
  twostate predicate Filled<S, T>(data: array<T>, n: nat, stream: seq<S>, convert: S -> T)
    reads data
  {
    && n <= data.Length && n <= |stream|
    && (forall k | 0 <= k < n :: data[k] == convert(stream[k]))
    && (forall k | n <= k < data.Length :: data[k] == old(data[k]))
  }

  /** One block, if it is complete. */
  method StoreBlock<S, T>(data: array<T>, i: nat, v: seq<S>, convert: S -> T)
    requires i + |v| <= data.Length
    modifies data
    ensures forall k | 0 <= k < data.Length ::
      data[k] == if i <= k < i + |v| then convert(v[k - i]) else old(data[k])
  {
    var j := 0;
    while j < |v|
      invariant 0 <= j <= |v|
      invariant forall k | 0 <= k < data.Length ::
        data[k] == if i <= k < i + j then convert(v[k - i]) else old(data[k])
    {
      data[i + j] := convert(v[j]);
      j := j + 1;
    }
  }

  /** fread of `n` elements. */
  function Fread<S>(stream: seq<S>, pos: nat, n: nat): (v: seq<S>)
    requires pos <= |stream|
    ensures |v| == Min(n, |stream| - pos)
  {
    stream[pos..pos + Min(n, |stream| - pos)]
  }

  /** READ_DATA_NOSWAP: the number of elements taken from the stream. */
  method ReadData<S, T>(stream: seq<S>, block: nat, len: nat, data: array<T>, convert: S -> T) returns (readcount: nat)
    requires 0 < block && len <= data.Length
    modifies data
    ensures readcount == Min(len, |stream|)
    ensures Filled(data, Stored(len, block, |stream|), stream, convert)
  {
    if len <= block {
      var v := Fread(stream, 0, len);
      readcount := |v|;
      if readcount == len {
        StoreBlock(data, 0, v, convert);
      }
      return;
    }
    readcount := 0;
    var i, blocks := 0, 0;
    while i < len - block
      invariant i == readcount == blocks * block && i <= |stream| && i < len
      invariant Filled(data, i, stream, convert)
      decreases len - i
    {
      var v := Fread(stream, i, block);
      readcount := readcount + |v|;
      if |v| != block {
        Partial(|stream|, block, blocks);
        return;
      }
      StoreBlock(data, i, v, convert);
      i := i + block;
      blocks := blocks + 1;
    }
    var v := Fread(stream, i, len - i);
    readcount := readcount + |v|;
    if |v| == len - i {
      StoreBlock(data, i, v, convert);
    } else {
      Partial(|stream|, block, blocks);
    }
  }

  lemma Partial(n: nat, block: nat, blocks: nat)
    requires 0 < block && blocks * block <= n < blocks * block + block
    ensures n / block * block == blocks * block
  {
    Whole(n, block);
    var q := n / block;
    if q < blocks {
      Further(q, blocks, block);
      assert false;
    } else if q > blocks {
      Further(blocks, q, block);
      assert false;
    }
  }

  lemma Further(x: nat, y: nat, block: nat)
    requires x < y
    ensures x * block + block <= y * block
  {
    assert y * block == (y - x) * block + x * block;
    assert (y - x) * block == block + (y - x - 1) * block;
  }

  /** READ_COMPRESSED_DATA_NOSWAP, where the length is reused for what is left in the end. The stream is
      inflated and long enough. */
  method ReadCompressedData<S, T>(stream: seq<S>, block: nat, length: nat, data: array<T>, convert: S -> T) returns (tail: nat)
    requires 0 < block && length <= data.Length && length <= |stream|
    modifies data
    ensures Filled(data, length, stream, convert)
    ensures length > 0 ==> 1 <= tail <= block && (length - tail) % block == 0
  {
    var len := length;
    if len <= block {
      StoreBlock(data, 0, stream[..len], convert);
      return len;
    }
    len := len - block;
    var i := 0;
    ghost var blocks := 0;
    while i < len
      invariant i == blocks * block && i < len + block
      invariant Filled(data, i, stream, convert)
      decreases len - i
    {
      StoreBlock(data, i, stream[i..i + block], convert);
      i := i + block;
      blocks := blocks + 1;
    }
    Multiple(blocks, block);
    len := len - (i - block);
    StoreBlock(data, i, stream[i..i + len], convert);
    return len;
  }
}
