/** Writing variables with one class and reading them with the other. */
module Level5Files {
  import opened Common
  import opened Level5
  import opened Level5Reader
  import opened Level5RoundTrip
  import opened Level5Writer
  import opened Level5Input

  lemma EncodeOneMore(vars: seq<(Name, MatVar)>, v: (Name, MatVar))
    ensures EncodeAll(vars + [v]) == EncodeAll(vars) + Encode(v.0, v.1)
  {
    hide Encode;
    if vars == [] {
      assert vars + [v] == [v];
    } else {
      assert (vars + [v])[1..] == vars[1..] + [v];
      EncodeOneMore(vars[1..], v);
    }
  }

  /** One variable after the other. */
  method WriteAll(file: MatFile, vars: seq<(Name, MatVar)>)
    modifies file`bytes, file`pos
    ensures file.bytes == old(file.bytes) + EncodeAll(vars)
  {
    hide Encode, EncodeAll;
    assert vars[..0] == [];
    NoVariables();
    for i := 0 to |vars|
      invariant file.bytes == old(file.bytes) + EncodeAll(vars[..i])
    {
      file.VarWrite5(vars[i].0, vars[i].1);
      EncodeOneMore(vars[..i], vars[i]);
      assert vars[..i + 1] == vars[..i] + [vars[i]];
    }
    assert vars[..|vars|] == vars;
  }

  lemma NoVariables()
    ensures EncodeAll([]) == []
  {
  }

  /** The next `n` variables. */
  method ReadNext(input: MatInput, n: nat) returns (r: seq<Option<MatVar>>)
    requires forall k | 0 <= k < n :: ReadVariables(input.file, input.pos, n)[k].Some?
    modifies input`pos
    ensures r == ReadVariables(input.file, old(input.pos), n)
  {
    hide ReadVariable;
    r := [];
    for i := 0 to n
      invariant |r| == i
      invariant r + ReadVariables(input.file, input.pos, n - i) == ReadVariables(input.file, old(input.pos), n)
    {
      ghost var rest := ReadVariables(input.file, input.pos, n - i);
      assert rest[0] == ReadVariables(input.file, old(input.pos), n)[i];
      InfoOfVariable(input.file, input.pos);
      var v := input.VarReadNext();
      assert r + rest == r + [v] + rest[1..];
      r := r + [v];
    }
  }

  lemma InfoOfVariable(file: seq<Byte>, pos: nat)
    ensures ReadVariable(file, pos).0.Some? ==> ReadNextInfo(file, pos).0.Some?
  {
    hide ReadNextInfo, ReadData;
  }

  /** Variables that are written to a file behind what it holds, and read from there, come back as
      they were, but for the names of cells and the fields that were missing. */
  method WriteAndRead(before: seq<Byte>, vars: seq<(Name, MatVar)>) returns (read: seq<Option<MatVar>>)
    requires forall k | 0 <= k < |vars| ::
      NulFree(vars[k].0) && Storable(vars[k].1) && |Encode(vars[k].0, vars[k].1)| < 0x8000_0000
    ensures |read| == |vars|
    ensures forall k | 0 <= k < |vars| :: read[k] == Some(Normalised(vars[k].1, Some(vars[k].0)))
  {
    hide Encode, EncodeAll, ReadVariables, Normalised, Storable, NulFree;
    var file := new MatFile();
    file.Write(before);
    WriteAll(file, vars);
    var input := new MatInput(file.bytes);
    input.pos := |before|;
    assert Has(input.file, |before|, EncodeAll(vars));
    AllVariablesAreRead(input.file, |before|, vars);
    read := ReadNext(input, |vars|);
  }
}
