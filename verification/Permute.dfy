/** The in-place block exchange at the heart of getopt_long's argument permutation.

    Two neighbouring blocks of `a` and `b` arguments trade places. The code walks
    gcd(a, b) cycles of length (a + b) / gcd(a, b); the proof shows that the cycles
    visit every position exactly once and close, so that the result is the exchange. */
module Permute {

  // ----- Greatest common divisor -----

  ghost function GcdOf(a: nat, b: nat): (g: nat)
    requires 0 < b
    ensures 0 < g
    decreases b
  {
    if a % b == 0 then b else GcdOf(b, a % b)
  }

  ghost predicate Divides(d: int, n: int)
  {
    exists k: int :: Multiple(n, d, k)
  }

  ghost predicate Multiple(n: int, d: int, k: int)
  {
    n == d * k
  }

  ghost predicate IsGcd(g: int, a: int, b: int)
  {
    && 0 < g
    && Divides(g, a)
    && Divides(g, b)
    && forall d :: Divides(d, a) && Divides(d, b) ==> Divides(d, g)
  }

  lemma Scaled(x: int, y: int, z: int)
    requires y == z
    ensures x * y == x * z
  {
  }

  lemma BezoutStep(a: int, b: int, q: int, r: int, g: int, k1: int, k2: int, u: int, v: int)
    requires a == q * b + r && b == g * k1 && r == g * k2 && g == u * b + v * r
    ensures a == g * (q * k1 + k2)
    ensures g == v * a + (u - q * v) * b
  {
    Scaled(q, b, g * k1);
    Scaled(v, a, q * b + r);
  }

  /** Cofactors and Bezout coefficients of the Euclidean algorithm. */
  lemma {:induction false} Bezout(a: nat, b: nat) returns (ka: int, kb: int, u: int, v: int)
    requires 0 < b
    ensures a == GcdOf(a, b) * ka
    ensures b == GcdOf(a, b) * kb
    ensures GcdOf(a, b) == u * a + v * b
    decreases b
  {
    var q, r := a / b, a % b;
    if r == 0 {
      ka, kb, u, v := q, 1, 0, 1;
    } else {
      var k1, k2, u', v' := Bezout(b, r);
      BezoutStep(a, b, q, r, GcdOf(b, r), k1, k2, u', v');
      ka, kb, u, v := q * k1 + k2, k1, v', u' - q * v';
    }
  }

  lemma CommonFactor(d: int, a: int, b: int, x: int, y: int, u: int, v: int)
    requires a == d * x && b == d * y
    ensures u * a + v * b == d * (u * x + v * y)
  {
    Scaled(u, a, d * x);
    Scaled(v, b, d * y);
  }

  lemma GcdOfIsGcd(a: nat, b: nat)
    requires 0 < b
    ensures IsGcd(GcdOf(a, b), a, b)
  {
    var g := GcdOf(a, b);
    var ka, kb, u, v := Bezout(a, b);
    assert Multiple(a, g, ka) && Multiple(b, g, kb);
    forall d | Divides(d, a) && Divides(d, b)
      ensures Divides(d, g)
    {
      var x: int :| Multiple(a, d, x);
      var y: int :| Multiple(b, d, y);
      CommonFactor(d, a, b, x, y, u, v);
      assert Multiple(g, d, u * x + v * y);
    }
  }

  method Gcd(a: nat, b: nat) returns (g: nat)
    requires 0 < b
    ensures IsGcd(g, a, b) && g == GcdOf(a, b)
  {
    var a', b' := a, b;
    var c := a' % b';
    while c != 0
      invariant 0 < b' && c == a' % b'
      invariant GcdOf(a', b') == GcdOf(a, b)
      decreases b'
    {
      a' := b';
      b' := c;
      c := a' % b';
    }
    GcdOfIsGcd(a, b);
    return b';
  }

  // ----- The cycles -----

  /** Where the element at offset `p` of the two blocks must go. */
  ghost function Next(a: nat, b: nat, p: int): int {
    if p >= a then p - a else p + b
  }

  ghost function Orbit(a: nat, b: nat, c: int, j: nat): int {
    if j == 0 then c else Next(a, b, Orbit(a, b, c, j - 1))
  }

  /** The j-th position of a cycle is c + j*b modulo the length n of both blocks. */
  lemma {:induction false} OrbitClosedForm(a: nat, b: nat, n: nat, c: int, j: nat) returns (t: int)
    requires n == a + b && 0 <= c < n
    ensures 0 <= Orbit(a, b, c, j) < n
    ensures Orbit(a, b, c, j) == c + j * b - n * t
  {
    if j == 0 {
      t := 0;
    } else {
      t := OrbitClosedForm(a, b, n, c, j - 1);
      if Orbit(a, b, c, j - 1) >= a {
        t := t + 1;
      }
    }
  }

  lemma PositiveProduct(x: int, y: int)
    requires 0 < x && 0 < y
    ensures x <= x * y && y <= x * y
  {
  }

  lemma NoMultipleWithin(x: int, n: int, k: int)
    requires 0 < n && x == n * k && -n < x < n
    ensures x == 0
  {
    if k >= 1 {
      PositiveProduct(n, k);
      assert false;
    } else if k <= -1 {
      PositiveProduct(n, -k);
      assert false;
    }
  }

  lemma CancelFactor(g: int, x: int, y: int)
    requires 0 < g && g * x == g * y
    ensures x == y
  {
    if x < y {
      PositiveProduct(g, y - x);
      assert false;
    } else if y < x {
      PositiveProduct(g, x - y);
      assert false;
    }
  }

  /** Both block lengths, their sum, the number and length of the cycles, and witnesses that
      b == g * kb and that `len` and `kb` are coprime. */
  datatype Shape = Shape(a: nat, b: nat, n: nat, g: nat, len: nat, kb: int, u: int, w: int) {
    ghost predicate Valid() {
      && 0 < b && n == a + b
      && 0 < g <= b && 0 < len
      && Arithmetic()
    }

    ghost predicate Arithmetic() {
      && n == g * len
      && b == g * kb
      && 1 == u * len + w * kb
    }

    ghost function At(i: nat, j: nat): int {
      Orbit(a, b, a + i, j)
    }
  }

  lemma QuotientIs(n: int, g: int, k: int)
    requires 0 < g && n == g * k
    ensures n / g == k
  {
    var q, r := n / g, n % g;
    assert n == g * q + r;
    NoMultipleWithin(r, g, k - q);
    CancelFactor(g, k, q);
  }

  /** The number and the length of the cycles multiply to the number of positions. */
  lemma CycleLength(a: nat, b: nat) returns (sh: Shape)
    requires 0 < b
    ensures sh.Valid() && sh.a == a && sh.b == b
    ensures sh.g == GcdOf(a, b) && sh.len == (a + b) / GcdOf(a, b)
  {
    var g, n := GcdOf(a, b), a + b;
    var ka, kb, u, v := Bezout(a, b);
    var len := ka + kb;
    assert n == g * len;
    QuotientIs(n, g, len);
    PositiveFactor(g, len);
    CofactorsCoprime(g, a, b, ka, kb, u, v);
    sh := Shape(a, b, n, g, len, kb, u, v - u);
  }

  lemma CofactorsCoprime(g: int, a: int, b: int, ka: int, kb: int, u: int, v: int)
    requires 0 < g && 0 < b && a == g * ka && b == g * kb && g == u * a + v * b
    ensures 1 == u * (ka + kb) + (v - u) * kb
    ensures g <= b
  {
    Scaled(u, a, g * ka);
    Scaled(v, b, g * kb);
    CancelFactor(g, u * ka + v * kb, 1);
    PositiveFactor(g, kb);
    PositiveProduct(g, kb);
  }

  lemma PositiveFactor(g: int, k: int)
    requires 0 < g && 0 < g * k
    ensures 0 < k
  {
    if k < 0 {
      PositiveProduct(g, -k);
      assert false;
    }
  }

  /** Every cycle closes after `len` steps. */
  lemma OrbitCloses(sh: Shape, i: nat)
    requires sh.Valid() && i < sh.g
    ensures sh.At(i, sh.len) == sh.a + i
  {
    var Shape(a, b, n, g, len, kb, u, w) := sh;
    var t := OrbitClosedForm(a, b, n, a + i, len);
    Scaled(len, b, g * kb);
    Scaled(kb, n, g * len);
    NoMultipleWithin(sh.At(i, len) - (a + i), n, kb - t);
  }

  lemma CoprimeDivides(d: int, len: int, kb: int, u: int, w: int, T: int)
    requires d * kb == len * T && 1 == u * len + w * kb
    ensures d == len * (d * u + w * T)
  {
    Scaled(d, 1, u * len + w * kb);
    Scaled(w, d * kb, len * T);
  }

  /** Fewer than `len` steps never advance by a whole number of rounds. */
  lemma EqualOffsets(n: int, b: int, g: int, len: int, kb: int, u: int, w: int, d: int, T: int)
    requires n == g * len && b == g * kb && 1 == u * len + w * kb
    requires 0 < g && 0 < d < len
    ensures d * b != n * T
  {
    if d * b == n * T {
      Scaled(d, b, g * kb);
      Scaled(T, n, g * len);
      CancelFactor(g, d * kb, len * T);
      CoprimeDivides(d, len, kb, u, w, T);
      NoMultipleWithin(d, len, d * u + w * T);
    }
  }

  lemma JumpArithmetic(j: int, k: int, b: int, n: int, tj: int, tk: int)
    requires j * b - n * tj == k * b - n * tk
    ensures (k - j) * b == n * (tk - tj)
  {
  }

  /** No position repeats within a cycle. */
  lemma OrbitInjective(sh: Shape, i: nat, j: nat, k: nat)
    requires sh.Valid() && i < sh.g
    requires j < k < sh.len
    ensures sh.At(i, j) != sh.At(i, k)
  {
    if sh.At(i, j) == sh.At(i, k) {
      var Shape(a, b, n, g, len, kb, u, w) := sh;
      var d := k - j;
      var tj := OrbitClosedForm(a, b, n, a + i, j);
      var tk := OrbitClosedForm(a, b, n, a + i, k);
      JumpArithmetic(j, k, b, n, tj, tk);
      EqualOffsets(n, b, g, len, kb, u, w, d, tk - tj);
    }
  }

  lemma ResidueUnique(x: int, g: nat, s: int, i: nat)
    requires i < g && x == g * s + i
    ensures x % g == i
  {
    var q, r := x / g, x % g;
    assert x == g * q + r;
    NoMultipleWithin(r - i, g, s - q);
  }

  lemma ResidueArithmetic(a: int, b: int, n: int, g: int, len: int, kb: int, i: int, j: int, t: int)
    requires n == a + b && n == g * len && b == g * kb
    ensures a + i + j * b - n * t == g * (len - kb + j * kb - len * t) + i
  {
    Scaled(j, b, g * kb);
    Scaled(t, n, g * len);
  }

  /** A cycle stays in its residue class modulo g. */
  lemma OrbitResidue(sh: Shape, i: nat, j: nat)
    requires sh.Valid() && i < sh.g
    ensures 0 <= sh.At(i, j) < sh.n
    ensures sh.At(i, j) % sh.g == i
  {
    var Shape(a, b, n, g, len, kb, u, w) := sh;
    var t := OrbitClosedForm(a, b, n, a + i, j);
    ResidueArithmetic(a, b, n, g, len, kb, i, j, t);
    ResidueUnique(sh.At(i, j), g, len - kb + j * kb - len * t, i);
  }

  lemma ReachArithmetic(n: int, b: int, g: int, len: int, kb: int, u: int, w: int, s: int, m: int, q: int, j: int)
    requires n == g * len && b == g * kb && 1 == u * len + w * kb
    requires m == s * w && m == len * q + j
    ensures g * s - j * b == n * (s * u + kb * q)
  {
    Scaled(g * s, 1, u * len + w * kb);
    Scaled(s * u, n, g * len);
    Scaled(m, b, g * kb);
    Scaled(g * kb, m, s * w);
    Scaled(b, m, len * q + j);
    Scaled(len * q, b, g * kb);
    Scaled(kb * q, n, g * len);
  }

  /** A cycle reaches every position of its residue class. */
  lemma OrbitSurjective(sh: Shape, i: nat, p: nat) returns (j: nat)
    requires sh.Valid() && i < sh.g
    requires p < sh.n && p % sh.g == i
    ensures j < sh.len && sh.At(i, j) == p
  {
    var Shape(a, b, n, g, len, kb, u, w) := sh;
    var s := p / g - (len - kb);
    ClassOffset(a, b, n, g, len, kb, i, p);
    var q;
    q, j := QuotientAndRest(s * w, len);
    var t := OrbitClosedForm(a, b, n, a + i, j);
    ReachArithmetic(n, b, g, len, kb, u, w, s, s * w, q, j);
    var x := p - sh.At(i, j);
    assert x == n * (s * u + kb * q) + n * t;
    AddMultiples(n, s * u + kb * q, t);
    NoMultipleWithin(x, n, s * u + kb * q + t);
  }

  lemma ClassOffset(a: int, b: int, n: int, g: int, len: int, kb: int, i: int, p: int)
    requires n == a + b && n == g * len && b == g * kb && 0 < g && p % g == i
    ensures p == a + i + g * (p / g - (len - kb))
  {
    assert p == g * (p / g) + i;
  }

  lemma QuotientAndRest(m: int, len: nat) returns (q: int, j: nat)
    requires 0 < len
    ensures m == len * q + j && j < len
  {
    q, j := m / len, m % len;
  }

  lemma AddMultiples(n: int, x: int, y: int)
    ensures n * x + n * y == n * (x + y)
  {
  }

  // ----- The exchange -----

  /** The element that the exchange puts at offset `p`. */
  ghost function Source(a: nat, b: nat, p: int): int {
    if p < b then p + a else p - b
  }

  ghost function Exchanged<T>(s: seq<T>, start: nat, mid: nat, end: nat): seq<T>
    requires start <= mid <= end <= |s|
  {
    s[..start] + s[mid..end] + s[start..mid] + s[end..]
  }

  lemma ExchangedIsPermutation<T>(s: seq<T>, start: nat, mid: nat, end: nat)
    requires start <= mid <= end <= |s|
    ensures multiset(Exchanged(s, start, mid, end)) == multiset(s)
  {
    var x, y, z, w := s[..start], s[start..mid], s[mid..end], s[end..];
    assert s == x + (y + (z + w));
    assert Exchanged(s, start, mid, end) == x + (z + (y + w));
  }

  /** Which element is at offset `p` once the first `i` cycles are done. */
  ghost function After(sh: Shape, i: nat, p: int): int
    requires 0 < sh.g
  {
    if p % sh.g < i then Source(sh.a, sh.b, p) else p
  }

  /** Positions whose cycle is done hold their final value, all others the original one. */
  ghost predicate Progress<T>(now: seq<T>, was: seq<T>, start: nat, sh: Shape, i: nat)
    requires 0 < sh.g && start + sh.n <= |was| == |now| && sh.n == sh.a + sh.b
  {
    && (forall k | 0 <= k < start || start + sh.n <= k < |was| :: now[k] == was[k])
    && forall p | 0 <= p < sh.n ::
         now[start + p] == was[start + After(sh, i, p)]
  }

  ghost predicate InRange(sh: Shape, i: nat)
    requires 0 < sh.g
  {
    forall k: nat :: 0 <= sh.At(i, k) < sh.n && sh.At(i, k) % sh.g == i
  }

  /** Within cycle `i`, after `j` swaps. Position `a + i` is the temporary. */
  ghost predicate CycleProgress<T>(now: seq<T>, was: seq<T>, start: nat, sh: Shape, i: nat, j: nat)
    requires start + sh.n <= |was| == |now| && sh.a + i < sh.n && 0 < sh.len && 0 < sh.g
    requires InRange(sh, i)
  {
    && now[start + sh.a + i] == was[start + sh.At(i, if j < sh.len then j else sh.len - 1)]
    && (forall k: nat | 1 <= k <= j && k < sh.len :: now[start + sh.At(i, k)] == was[start + sh.At(i, k - 1)])
    && (forall k: nat | j < k < sh.len :: now[start + sh.At(i, k)] == was[start + sh.At(i, k)])
  }

  ghost predicate OtherClasses<T>(now: seq<T>, before: seq<T>, start: nat, sh: Shape, i: nat)
    requires 0 < sh.g && start + sh.n <= |before| == |now|
  {
    && (forall k | 0 <= k < start || start + sh.n <= k < |before| :: now[k] == before[k])
    && forall p | 0 <= p < sh.n && p % sh.g != i :: now[start + p] == before[start + p]
  }

  /** One cycle of permute_args: each of its elements moves one step, through position `cstart`. */
  method PermuteCycle<T>(panonoptEnd: nat, nnonopts: nat, nopts: nat, cyclelen: nat, i: nat, nargv: array<T>,
                         ghost start: nat, ghost sh: Shape, ghost was: seq<T>)
    requires sh.Valid() && i < sh.g
    requires sh.a == nnonopts && sh.b == nopts && sh.len == cyclelen && panonoptEnd == start + nnonopts
    requires start + sh.n <= nargv.Length == |was|
    requires Progress(nargv[..], was, start, sh, i)
    modifies nargv
    ensures Progress(nargv[..], was, start, sh, i + 1)
  {
    hide *;
    CycleInRange(sh, i);
    var cstart := panonoptEnd + i;
    var pos := cstart;
    ghost var before := nargv[..];
    CycleStart(before, was, start, sh, i);
    for j := 0 to cyclelen
      invariant pos == start + sh.At(i, j)
      invariant CycleProgress(nargv[..], was, start, sh, i, j)
      invariant OtherClasses(nargv[..], before, start, sh, i)
    {
      NextPosition(sh, i, j);
      ghost var now := nargv[..];
      if pos >= panonoptEnd {
        pos := pos - nnonopts;
      } else {
        pos := pos + nopts;
      }
      var swap := nargv[pos];
      nargv[pos] := nargv[cstart];
      nargv[cstart] := swap;
      assert nargv[..] == now[pos := now[cstart]][cstart := now[pos]];
      CycleStep(now, nargv[..], before, was, start, sh, i, j);
    }
    CycleDone(nargv[..], before, was, start, sh, i);
  }

  /** permute_args: exchanges the block of non-options with the block of options behind it. */
  method PermuteArgs<T>(panonoptStart: nat, panonoptEnd: nat, optEnd: nat, nargv: array<T>)
    requires panonoptStart <= panonoptEnd < optEnd <= nargv.Length
    modifies nargv
    ensures nargv[..] == Exchanged(old(nargv[..]), panonoptStart, panonoptEnd, optEnd)
  {
    var nnonopts := panonoptEnd - panonoptStart;
    var nopts := optEnd - panonoptEnd;
    var ncycle := Gcd(nnonopts, nopts);
    var cyclelen := (optEnd - panonoptStart) / ncycle;
    ghost var sh := CycleLength(nnonopts, nopts);

    ghost var was := nargv[..];
    ExchangeStart(was, panonoptStart, sh);
    hide *;
    for i := 0 to ncycle
      invariant Progress(nargv[..], was, panonoptStart, sh, i)
    {
      PermuteCycle(panonoptEnd, nnonopts, nopts, cyclelen, i, nargv, panonoptStart, sh, was);
    }
    ExchangeDone(nargv[..], was, panonoptStart, panonoptEnd, optEnd, sh);
  }

  lemma ExchangeStart<T>(was: seq<T>, start: nat, sh: Shape)
    requires sh.Valid() && start + sh.n <= |was|
    ensures 0 < sh.g <= sh.b && sh.n == sh.a + sh.b && 0 < sh.len
    ensures Progress(was, was, start, sh, 0)
  {
    forall p | 0 <= p < sh.n
      ensures After(sh, 0, p) == p
    {
    }
  }

  lemma NextPosition(sh: Shape, i: nat, j: nat)
    requires 0 < sh.g && InRange(sh, i)
    ensures 0 <= sh.At(i, j) < sh.n
    ensures 0 <= sh.At(i, j + 1) < sh.n
    ensures sh.At(i, j + 1) == if sh.At(i, j) >= sh.a then sh.At(i, j) - sh.a else sh.At(i, j) + sh.b
  {
  }

  lemma CycleInRange(sh: Shape, i: nat)
    requires sh.Valid() && i < sh.g
    ensures 0 < sh.g <= sh.b && sh.n == sh.a + sh.b && 0 < sh.len
    ensures InRange(sh, i)
    ensures sh.At(i, 0) == sh.a + i
  {
    forall k: nat
      ensures 0 <= sh.At(i, k) < sh.n && sh.At(i, k) % sh.g == i
    {
      OrbitResidue(sh, i, k);
    }
  }

  lemma CycleStart<T>(now: seq<T>, was: seq<T>, start: nat, sh: Shape, i: nat)
    requires sh.n == sh.a + sh.b && 0 < sh.len && i < sh.g <= sh.b && InRange(sh, i)
    requires start + sh.n <= |was| == |now|
    requires Progress(now, was, start, sh, i)
    ensures CycleProgress(now, was, start, sh, i, 0)
    ensures OtherClasses(now, now, start, sh, i)
  {
    forall k: nat
      ensures now[start + sh.At(i, k)] == was[start + sh.At(i, k)]
    {
      var p := sh.At(i, k);
      assert 0 <= p < sh.n && p % sh.g == i;
      assert After(sh, i, p) == p;
    }
    assert sh.At(i, 0) == sh.a + i;
  }

  /** One swap of the inner loop. */
  lemma CycleStep<T>(now: seq<T>, next: seq<T>, before: seq<T>, was: seq<T>, start: nat, sh: Shape, i: nat, j: nat)
    requires sh.Valid() && i < sh.g && InRange(sh, i) && j < sh.len
    requires start + sh.n <= |was| == |now| == |next| == |before|
    requires CycleProgress(now, was, start, sh, i, j)
    requires OtherClasses(now, before, start, sh, i)
    requires var pos := start + sh.At(i, j + 1);
             next == now[pos := now[start + sh.a + i]][start + sh.a + i := now[pos]]
    ensures CycleProgress(next, was, start, sh, i, j + 1)
    ensures OtherClasses(next, before, start, sh, i)
  {
    CycleInRange(sh, i);
    if j + 1 == sh.len {
      OrbitCloses(sh, i);
      assert next == now;
    } else {
      var next' := j + 1;
      forall k: nat | 1 <= k < sh.len && k != next'
        ensures sh.At(i, k) != sh.At(i, next') && sh.At(i, k) != sh.a + i
      {
        OrbitDistinct(sh, i, 0, k);
        OrbitDistinct(sh, i, k, next');
      }
      OrbitDistinct(sh, i, 0, next');
      CycleStepInner(now, next, before, was, start, sh, i, j, next');
    }
  }

  lemma CycleStepInner<T>(now: seq<T>, next: seq<T>, before: seq<T>, was: seq<T>, start: nat, sh: Shape, i: nat, j: nat, j': nat)
    requires 0 < sh.g && InRange(sh, i) && j' == j + 1 < sh.len
    requires start + sh.n <= |was| == |now| == |next| == |before|
    requires sh.At(i, 0) == sh.a + i
    requires CycleProgress(now, was, start, sh, i, j)
    requires OtherClasses(now, before, start, sh, i)
    requires forall k: nat | 1 <= k < sh.len && k != j' :: sh.At(i, k) != sh.At(i, j') && sh.At(i, k) != sh.a + i
    requires sh.At(i, j') != sh.a + i
    requires next == now[start + sh.At(i, j') := now[start + sh.a + i]][start + sh.a + i := now[start + sh.At(i, j')]]
    ensures CycleProgress(next, was, start, sh, i, j')
    ensures OtherClasses(next, before, start, sh, i)
  {
    hide Orbit;
    assert 0 <= sh.At(i, j) < sh.n;
    assert now[start + sh.At(i, j')] == was[start + sh.At(i, j')];
  }

  lemma OrbitDistinct(sh: Shape, i: nat, j: nat, k: nat)
    requires sh.Valid() && i < sh.g
    requires j < sh.len && k < sh.len && j != k
    ensures sh.At(i, j) != sh.At(i, k)
  {
    if j < k {
      OrbitInjective(sh, i, j, k);
    } else {
      OrbitInjective(sh, i, k, j);
    }
  }

  lemma CycleDone<T>(now: seq<T>, before: seq<T>, was: seq<T>, start: nat, sh: Shape, i: nat)
    requires sh.Valid() && i < sh.g && InRange(sh, i)
    requires start + sh.n <= |was| == |now| == |before|
    requires Progress(before, was, start, sh, i)
    requires OtherClasses(now, before, start, sh, i)
    requires CycleProgress(now, was, start, sh, i, sh.len)
    ensures Progress(now, was, start, sh, i + 1)
  {
    var next := i + 1;
    forall p | 0 <= p < sh.n
      ensures now[start + p] == was[start + After(sh, next, p)]
    {
      if p % sh.g != i {
        assert After(sh, i, p) == After(sh, next, p);
      } else {
        DoneAt(now, was, start, sh, i, p);
      }
    }
  }

  lemma DoneAt<T>(now: seq<T>, was: seq<T>, start: nat, sh: Shape, i: nat, p: int)
    requires sh.Valid() && i < sh.g && InRange(sh, i)
    requires start + sh.n <= |was| == |now|
    requires CycleProgress(now, was, start, sh, i, sh.len)
    requires 0 <= p < sh.n && p % sh.g == i
    ensures now[start + p] == was[start + Source(sh.a, sh.b, p)]
  {
    var j := OrbitSurjective(sh, i, p);
    if j == 0 {
      OrbitCloses(sh, i);
      assert Next(sh.a, sh.b, sh.At(i, sh.len - 1)) == p;
    } else {
      assert Next(sh.a, sh.b, sh.At(i, j - 1)) == p;
    }
  }

  lemma ExchangeDone<T>(now: seq<T>, was: seq<T>, start: nat, mid: nat, end: nat, sh: Shape)
    requires start <= mid < end <= |was| == |now|
    requires sh.Valid() && sh.a == mid - start && sh.b == end - mid
    requires Progress(now, was, start, sh, sh.g)
    ensures now == Exchanged(was, start, mid, end)
  {
    var e := Exchanged(was, start, mid, end);
    forall k | start <= k < end
      ensures now[k] == e[k]
    {
      var p := k - start;
      assert After(sh, sh.g, p) == Source(sh.a, sh.b, p);
      assert now[start + p] == was[start + Source(sh.a, sh.b, p)];
    }
  }
}
