/** Subscripts of an N-dimensional array stored column by column, and the linear index they stand for. */
module Subscripts {

  /** The number of elements. */
  function Prod(dims: seq<nat>): nat {
    if dims == [] then 1 else Prod(dims[..|dims| - 1]) * dims[|dims| - 1]
  }

  /** The linear index: the sum over k of subs[k] times the product of the dims before k. */
  function Linear(dims: seq<nat>, subs: seq<int>): int
    requires |subs| == |dims|
  {
    if dims == [] then 0 else
      var n := |dims| - 1;
      Linear(dims[..n], subs[..n]) + subs[n] * Prod(dims[..n])
  }

  ghost predicate InRange(dims: seq<nat>, subs: seq<int>) {
    |subs| == |dims| && forall k | 0 <= k < |dims| :: 0 <= subs[k] < dims[k]
  }

  lemma {:induction false} LinearBound(dims: seq<nat>, subs: seq<int>)
    requires InRange(dims, subs)
    ensures 0 <= Linear(dims, subs) < Prod(dims)
  {
    if dims != [] {
      var n := |dims| - 1;
      LinearBound(dims[..n], subs[..n]);
      var p, d, s := Prod(dims[..n]), dims[n], subs[n];
      ScaleBound(p, d, s);
    }
  }

  lemma NonNegative(x: int, y: int)
    requires 0 <= x && 0 <= y
    ensures 0 <= x * y
  {
  }

  lemma ScaleBound(p: int, d: int, s: int)
    requires 0 <= p && 0 <= s < d
    ensures 0 <= s * p && s * p + p <= p * d
  {
    NonNegative(s, p);
    NonNegative(p, d - s - 1);
  }

  /** Distinct subscripts have distinct indices. */
  lemma {:induction false} LinearInjective(dims: seq<nat>, s: seq<int>, t: seq<int>)
    requires InRange(dims, s) && InRange(dims, t)
    requires Linear(dims, s) == Linear(dims, t)
    ensures s == t
  {
    if dims != [] {
      var n := |dims| - 1;
      var d := dims[..n];
      LinearBound(d, s[..n]);
      LinearBound(d, t[..n]);
      SameDigit(Prod(d), Linear(d, s[..n]), s[n], Linear(d, t[..n]), t[n]);
      LinearInjective(d, s[..n], t[..n]);
      assert s == s[..n] + [s[n]] && t == t[..n] + [t[n]];
    }
  }

  lemma SameDigit(p: int, r: int, s: int, r': int, s': int)
    requires 0 <= r < p && 0 <= r' < p && r + s * p == r' + s' * p
    ensures r == r' && s == s'
  {
    if s < s' {
      StepApart(p, s, s');
      assert false;
    } else if s' < s {
      StepApart(p, s', s);
      assert false;
    }
  }

  lemma StepApart(p: int, x: int, y: int)
    requires 0 < p && x < y
    ensures x * p + p <= y * p
  {
    NonNegative(y - x - 1, p);
  }

  /** Changing one subscript moves the index by a multiple of the elements before it. */
  lemma {:induction false} LinearUpdate(dims: seq<nat>, s: seq<int>, k: nat, v: int)
    requires |s| == |dims| && k < |dims|
    ensures Linear(dims, s[k := v]) == Linear(dims, s) + (v - s[k]) * Prod(dims[..k])
  {
    var n := |dims| - 1;
    if k == n {
      assert s[k := v][..n] == s[..n];
      Distribute(v, s[k], Prod(dims[..n]));
    } else {
      assert s[k := v][..n] == s[..n][k := v];
      assert dims[..n][..k] == dims[..k];
      LinearUpdate(dims[..n], s[..n], k, v);
    }
  }

  lemma Distribute(v: int, w: int, p: int)
    ensures v * p == w * p + (v - w) * p
  {
  }

  lemma ProdStep(dims: seq<nat>, k: nat)
    requires k < |dims|
    ensures Prod(dims[..k + 1]) == Prod(dims[..k]) * dims[k]
  {
    assert dims[..k + 1][..k] == dims[..k];
  }

  lemma LinearStep(dims: seq<nat>, s: seq<int>, k: nat)
    requires k < |dims| == |s|
    ensures Linear(dims[..k + 1], s[..k + 1]) == Linear(dims[..k], s[..k]) + s[k] * Prod(dims[..k])
  {
    assert dims[..k + 1][..k] == dims[..k];
    assert s[..k + 1][..k] == s[..k];
  }

  // ----- From subscripts to the index and back -----

  /** One less in each dimension: the subscripts of the interface are 1-relative. */
  function ZeroBased(subs: seq<nat>): (r: seq<int>)
    ensures |r| == |subs| && forall k | 0 <= k < |subs| :: r[k] + 1 == subs[k]
  {
    seq<int>(|subs|, k requires 0 <= k < |subs| => (subs[k] as int) - 1)
  }

  /** Mat_CalcSingleSubscript2. The index is added to what it was before; an error leaves it at the
      contribution of the subscripts before the first bad one. */
  method CalcSingleSubscript2(dims: seq<nat>, subs: seq<nat>, index: nat) returns (err: bool, result: int)
    requires |subs| == |dims|
    ensures !err <==> InRange(dims, ZeroBased(subs))
    ensures !err ==> result == index + Linear(dims, ZeroBased(subs))
    ensures err ==> exists i: nat ::
      && i < |dims| && !(1 <= subs[i] <= dims[i])
      && (forall k | 0 <= k < i :: 1 <= subs[k] <= dims[k])
      && result == index + Linear(dims[..i], ZeroBased(subs)[..i])
  {
    ghost var zero := ZeroBased(subs);
    result := index;
    var i := 0;
    while i < |dims|
      invariant 0 <= i <= |dims|
      invariant forall k | 0 <= k < i :: 1 <= subs[k] <= dims[k]
      invariant result == index + Linear(dims[..i], zero[..i])
    {
      var k: int := subs[i];
      if k > dims[i] || k < 1 {
        return true, result;
      }
      k := k - 1;
      var j := i;
      while j > 0
        invariant 0 <= j <= i
        invariant k * Prod(dims[..j]) == zero[i] * Prod(dims[..i])
      {
        j := j - 1;
        ProdStep(dims, j);
        Regroup(k, Prod(dims[..j]), dims[j]);
        k := k * dims[j];
      }
      LinearStep(dims, zero, i);
      result := result + k;
      i := i + 1;
    }
    assert dims[..i] == dims && zero[..i] == zero;
    return false, result;
  }

  lemma Regroup(k: int, p: int, d: int)
    ensures k * (p * d) == (k * d) * p
  {
  }

  lemma Remainder(l: nat, k: nat)
    requires 0 < k
    ensures 0 <= l - l / k * k < k
  {
    assert l == k * (l / k) + l % k;
  }

  /** The number of elements before one step of dimension `i`. */
  method Stride(dims: seq<nat>, i: nat) returns (k: nat)
    requires i <= |dims|
    requires forall j | 0 <= j < i :: 0 < dims[j]
    ensures 0 < k == Prod(dims[..i])
  {
    PositiveProd(dims[..i]);
    k := 1;
    var j := i;
    while j > 0
      invariant 0 <= j <= i
      invariant 0 < k && k * Prod(dims[..j]) == Prod(dims[..i])
    {
      j := j - 1;
      ProdStep(dims, j);
      Regroup(k, Prod(dims[..j]), dims[j]);
      PositiveTimes(k, dims[j]);
      k := k * dims[j];
    }
  }

  /** One subscript, and what is left of the index. */
  method Digit(l: nat, k: nat, ghost d: nat) returns (q: nat, rest: nat)
    requires 0 < k
    ensures l == q * k + rest && rest < k
    ensures l < k * d ==> q < d
  {
    if l < k * d {
      DigitBound(l, k, d);
    }
    Remainder(l, k);
    q := l / k;
    rest := l - q * k;
  }

  /** Mat_CalcSubscripts2, with the division of doubles as that of integers. */
  method CalcSubscripts2(dims: seq<nat>, index: nat) returns (subs: seq<nat>)
    requires forall k | 0 <= k < |dims| - 1 :: 0 < dims[k]
    ensures |subs| == |dims|
    ensures forall k | 0 <= k < |dims| - 1 :: 1 <= subs[k] <= dims[k]
    ensures |dims| > 0 ==> 1 <= subs[|dims| - 1] && Linear(dims, ZeroBased(subs)) == index
    ensures index < Prod(dims) ==> InRange(dims, ZeroBased(subs))
  {
    subs := seq(|dims|, _ => 0);
    var l: nat := index;
    var i: nat := |dims|;
    while i > 0
      invariant 0 <= i <= |dims| == |subs|
      invariant i < |dims| ==> l < Prod(dims[..i])
      invariant i == |dims| ==> l == index
      invariant forall k | i <= k < |dims| :: 1 <= subs[k]
      invariant forall k | i <= k < |dims| - 1 :: subs[k] <= dims[k]
      invariant i < |dims| ==> index == l + Above(dims, subs, i)
    {
      i := i - 1;
      var k: nat := Stride(dims, i);
      if i < |dims| - 1 {
        ProdStep(dims, i);
      }
      var q;
      q, l := Digit(l, k, dims[i]);
      ghost var before := subs;
      subs := subs[i := q + 1];
      AboveStep(dims, before, subs, i);
    }
    if |dims| > 0 {
      assert dims[..0] == [];
      AboveAll(dims, subs);
      if index < Prod(dims) {
        LastDigit(dims, subs, index);
      }
    }
  }

  /** The contribution of the subscripts from `i` on. */
  ghost function Above(dims: seq<nat>, subs: seq<nat>, i: nat): int
    requires i <= |dims| == |subs|
    decreases |dims| - i
  {
    if i == |dims| then 0 else (subs[i] - 1) * Prod(dims[..i]) + Above(dims, subs, i + 1)
  }

  lemma {:induction false} AboveStep(dims: seq<nat>, s: seq<nat>, t: seq<nat>, i: nat)
    requires i < |dims| == |s| == |t| && t == s[i := t[i]]
    ensures Above(dims, t, i) == (t[i] - 1) * Prod(dims[..i]) + Above(dims, s, i + 1)
  {
    AboveSame(dims, s, t, i + 1);
  }

  lemma {:induction false} AboveSame(dims: seq<nat>, s: seq<nat>, t: seq<nat>, i: nat)
    requires i <= |dims| == |s| == |t| && forall k | i <= k < |dims| :: s[k] == t[k]
    ensures Above(dims, s, i) == Above(dims, t, i)
    decreases |dims| - i
  {
    if i < |dims| {
      AboveSame(dims, s, t, i + 1);
    }
  }

  lemma AboveAll(dims: seq<nat>, subs: seq<nat>)
    requires |subs| == |dims|
    ensures Above(dims, subs, 0) == Linear(dims, ZeroBased(subs))
  {
    var zero := ZeroBased(subs);
    var i := |dims|;
    while i > 0
      invariant 0 <= i <= |dims|
      invariant Above(dims, subs, i) + Linear(dims[..i], zero[..i]) == Linear(dims[..|dims|], zero[..|dims|])
    {
      i := i - 1;
      LinearStep(dims, zero, i);
    }
    assert dims[..|dims|] == dims && zero[..|dims|] == zero;
  }

  lemma {:induction false} PositiveProd(dims: seq<nat>)
    requires forall k | 0 <= k < |dims| :: 0 < dims[k]
    ensures 0 < Prod(dims)
  {
    if dims != [] {
      var n := |dims| - 1;
      PositiveProd(dims[..n]);
      PositiveTimes(Prod(dims[..n]), dims[n]);
    }
  }

  lemma PositiveTimes(x: int, y: int)
    requires 0 < x && 0 < y
    ensures 0 < x * y
  {
  }

  lemma Monotone(p: int, x: int, y: int)
    requires 0 <= p && x <= y
    ensures p * x <= p * y
  {
    NonNegative(p, y - x);
  }

  lemma DigitBound(l: int, k: int, d: int)
    requires 0 < k && 0 <= l < k * d
    ensures l / k < d
  {
    var q := l / k;
    assert l == k * q + l % k;
    if q >= d {
      Monotone(k, d, q);
      assert false;
    }
  }

  lemma LastDigit(dims: seq<nat>, subs: seq<nat>, index: nat)
    requires |dims| == |subs| > 0
    requires forall k | 0 <= k < |dims| :: 1 <= subs[k]
    requires forall k | 0 <= k < |dims| - 1 :: subs[k] <= dims[k]
    requires Linear(dims, ZeroBased(subs)) == index < Prod(dims)
    ensures subs[|dims| - 1] <= dims[|dims| - 1]
  {
    var n := |dims| - 1;
    var zero := ZeroBased(subs);
    LinearBound(dims[..n], zero[..n]);
    if zero[n] >= dims[n] {
      Monotone(Prod(dims[..n]), dims[n], zero[n]);
      assert false;
    }
  }

  /** The two are inverse to each other: the subscripts of an index are the only ones that have it. */
  lemma SubscriptsOfIndexUnique(dims: seq<nat>, subs: seq<nat>, found: seq<nat>)
    requires InRange(dims, ZeroBased(subs)) && InRange(dims, ZeroBased(found))
    requires Linear(dims, ZeroBased(found)) == Linear(dims, ZeroBased(subs))
    ensures found == subs
  {
    var s, f := ZeroBased(subs), ZeroBased(found);
    LinearInjective(dims, s, f);
    forall k | 0 <= k < |subs|
      ensures found[k] == subs[k]
    {
      assert s[k] == f[k];
    }
  }
}
