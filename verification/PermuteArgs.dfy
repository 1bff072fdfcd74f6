// The in-place block exchange behind getopt's argument permutation: it walks the gcd(m, n)
// cycles of the rotation, each of length (m + n) / gcd(m, n).
module PermuteArgs {

  // ---- greatest common divisors ----

  ghost predicate Divides(d: int, n: int)
    requires d > 0
  {
    exists q: int :: Times(q, d) == n
  }

  function Times(q: int, d: int): int { q * d }

  ghost predicate IsGcd(g: int, a: int, b: int) {
    && g > 0 && Divides(g, a) && Divides(g, b)
    && forall d: int :: d > 0 && Divides(d, a) && Divides(d, b) ==> Divides(d, g)
  }

  // Bezout coefficients witness that g is a combination of a and b.
  ghost predicate Combination(g: int, a: int, b: int) {
    exists x: int, y: int :: Times(x, a) + Times(y, b) == g
  }

  lemma DividesCombination(d: int, a: int, b: int, x: int, y: int)
    requires d > 0 && Divides(d, a) && Divides(d, b)
    ensures Divides(d, x * a + y * b)
  {
    var p: int :| Times(p, d) == a;
    var q: int :| Times(q, d) == b;
    assert x * (p * d) + y * (q * d) == (x * p + y * q) * d;
    assert Times(x * p + y * q, d) == x * a + y * b;
  }

  lemma CombinationIsGcd(g: int, a: int, b: int)
    requires g > 0 && Divides(g, a) && Divides(g, b) && Combination(g, a, b)
    ensures IsGcd(g, a, b)
  {
    var x: int, y: int :| Times(x, a) + Times(y, b) == g;
    forall d: int | d > 0 && Divides(d, a) && Divides(d, b)
      ensures Divides(d, g)
    {
      DividesCombination(d, a, b, x, y);
    }
  }

  // Euclid's step: (a, b) and (b, a mod b) have the same common divisors.
  lemma EuclidDivides(g: int, a: int, b: int)
    requires g > 0 && b > 0 && Divides(g, b) && Divides(g, a % b)
    ensures Divides(g, a)
  {
    DividesCombination(g, b, a % b, a / b, 1);
    assert a == (a / b) * b + a % b;
  }

  lemma EuclidCombination(g: int, a: int, b: int, a0: int, b0: int)
    requires b > 0 && Combination(a, a0, b0) && Combination(b, a0, b0)
    ensures Combination(a % b, a0, b0)
  {
    var x: int, y: int :| Times(x, a0) + Times(y, b0) == a;
    var u: int, v: int :| Times(u, a0) + Times(v, b0) == b;
    var q := a / b;
    assert a % b == a - q * b;
    assert (x - q * u) * a0 + (y - q * v) * b0 == (x * a0 + y * b0) - q * (u * a0 + v * b0);
    assert Times(x - q * u, a0) + Times(y - q * v, b0) == a % b;
  }

  // One round of Euclid's loop keeps the common divisors and the combinations.
  lemma EuclidRound(a: int, b: int, a0: int, b0: int)
    requires a > 0 && b > 0
    requires Combination(a, a0, b0) && Combination(b, a0, b0)
    requires forall d: int :: d > 0 && Divides(d, a) && Divides(d, b) ==> Divides(d, a0) && Divides(d, b0)
    ensures Combination(a % b, a0, b0)
    ensures forall d: int :: d > 0 && Divides(d, b) && Divides(d, a % b) ==> Divides(d, a0) && Divides(d, b0)
  {
    EuclidCombination(1, a, b, a0, b0);
    forall d: int | d > 0 && Divides(d, b) && Divides(d, a % b)
      ensures Divides(d, a0) && Divides(d, b0)
    {
      EuclidDivides(d, a, b);
    }
  }

  lemma Trivial(a: int, b: int)
    ensures Combination(a, a, b) && Combination(b, a, b)
    ensures b > 0 ==> Divides(b, b) && Divides(b, 0)
  {
    assert Times(1, a) + Times(0, b) == a && Times(0, a) + Times(1, b) == b;
    assert Times(0, b) == 0 && Times(1, b) == b;
  }

  method Gcd(a0: int, b0: int) returns (g: int)
    requires a0 > 0 && b0 > 0
    ensures g > 0 && IsGcd(g, a0, b0) && Combination(g, a0, b0)
  {
    hide Combination, Divides;
    var a, b := a0, b0;
    Trivial(a0, b0);
    var c := a % b;
    EuclidRound(a, b, a0, b0);
    while c != 0
      invariant a > 0 && b > 0 && 0 <= c < b
      invariant Combination(b, a0, b0) && Combination(c, a0, b0)
      invariant forall d: int :: d > 0 && Divides(d, b) && Divides(d, c) ==> Divides(d, a0) && Divides(d, b0)
      decreases b
    {
      a := b;
      b := c;
      c := a % b;
      EuclidRound(a, b, a0, b0);
    }
    Trivial(a0, b);
    CombinationIsGcd(b, a0, b0);
    g := b;
  }

  // ---- arithmetic of a rotation ----

  // Two positions that differ by a multiple of the length are the same position.
  lemma SameResidue(a: int, b: int, k: int, n: int)
    requires 0 <= a < n && 0 <= b < n && a - b == k * n
    ensures a == b
  {
    if k >= 1 { MulAtLeast(k, n); } else if k <= -1 { MulAtLeast(-k, n); MulNegate(k, n); }
  }

  lemma MulAtLeast(k: int, n: int)
    requires k >= 1 && n > 0
    ensures k * n >= n
  {
  }

  lemma MulNegate(k: int, n: int)
    ensures (-k) * n == -(k * n)
  {
  }

  lemma MulAssociate(a: int, b: int, c: int)
    ensures a * (b * c) == (a * b) * c == (a * c) * b
  {
  }

  lemma MulSum(a: int, b: int, n: int)
    ensures (a + b) * n == a * n + b * n
    ensures (a - b) * n == a * n - b * n
  {
  }

  lemma CancelFactor(a: int, b: int, n: int)
    requires n > 0 && a * n == b * n
    ensures a == b
  {
    MulSum(a, b, n);
    if a > b { MulAtLeast(a - b, n); } else if a < b { MulAtLeast(b - a, n); MulSum(b, a, n); }
  }

  // Where the element at r belongs: the first block of m elements moves up by o, the second down by m.
  function Step(m: int, o: int, r: int): (t: int)
    requires m > 0 && o > 0 && 0 <= r < m + o
    ensures 0 <= t < m + o
  {
    if r >= m then r - m else r + o
  }

  function Orbit(m: int, o: int, r: int, j: nat): (t: int)
    requires m > 0 && o > 0 && 0 <= r < m + o
    ensures 0 <= t < m + o
  {
    if j == 0 then r else Step(m, o, Orbit(m, o, r, j - 1))
  }

  // A walk along the cycle is addition modulo the total length.
  lemma {:induction false} OrbitIsSum(m: int, o: int, r: int, j: nat) returns (k: int)
    requires m > 0 && o > 0 && 0 <= r < m + o
    ensures Orbit(m, o, r, j) == r + j * o - k * (m + o)
  {
    if j == 0 {
      k := 0;
    } else {
      var before := OrbitIsSum(m, o, r, j - 1);
      MulSum(j - 1, 1, o);
      MulSum(before, 1, m + o);
      k := if Orbit(m, o, r, j - 1) >= m then before + 1 else before;
    }
  }

  // The arithmetic of one rotation: n = m + o elements, g = gcd(m, o), cycles of l elements each, and
  // z with z * o congruent to g modulo n.
  datatype Rotation = Rotation(m: int, o: int, n: int, g: int, l: int, mg: int, og: int, z: int, w: int) {
    ghost predicate Valid() {
      && m > 0 && o > 0 && g > 0 && l > 0 && n == m + o
      && m == mg * g && o == og * g && n == l * g
      && z * o == g + w * n
    }
  }

  lemma QuotientPositive(q: int, g: int)
    requires g > 0 && q * g > 0
    ensures q > 0
  {
    if q <= 0 { MulNegate(q, g); if q < 0 { MulAtLeast(-q, g); } }
  }

  lemma ExactQuotient(q: int, g: int)
    requires g > 0
    ensures (q * g) / g == q
  {
    var n := q * g;
    assert n == (n / g) * g + n % g;
    MulSum(q, n / g, g);
    SameResidue(n % g, 0, q - n / g, g);
    CancelFactor(q, n / g, g);
  }

  lemma MakeRotation(m: int, o: int, g: int) returns (x: Rotation)
    requires m > 0 && o > 0 && IsGcd(g, m, o) && Combination(g, m, o)
    ensures x.Valid() && x.m == m && x.o == o && x.g == g && x.l == (m + o) / g
  {
    var mg: int :| Times(mg, g) == m;
    var og: int :| Times(og, g) == o;
    var a: int, b: int :| Times(a, m) + Times(b, o) == g;
    QuotientPositive(mg, g);
    QuotientPositive(og, g);
    MulSum(mg, og, g);
    ExactQuotient(mg + og, g);
    // a * m + b * o == g gives (b - a) * o == g - a * (m + o)
    MulSum(b, a, o);
    MulNegate(a, m + o);
    BothFactors(a, m, o);
    x := Rotation(m, o, m + o, g, mg + og, mg, og, b - a, -a);
  }

  lemma BothFactors(a: int, m: int, o: int)
    ensures a * (m + o) == a * m + a * o
  {
  }

  // A whole cycle of steps advances by a multiple of the length.
  lemma CycleLength(x: Rotation)
    requires x.Valid()
    ensures x.l * x.o == x.og * x.n
  {
    MulAssociate(x.l, x.og, x.g);
    MulAssociate(x.og, x.l, x.g);
  }

  // After l steps the walk is back where it began.
  lemma OrbitCloses(x: Rotation, r: int)
    requires x.Valid() && 0 <= r < x.n
    ensures Orbit(x.m, x.o, r, x.l) == r
  {
    var k := OrbitIsSum(x.m, x.o, r, x.l);
    CycleLength(x);
    MulSum(x.og, k, x.n);
    SameResidue(Orbit(x.m, x.o, r, x.l), r, x.og - k, x.n);
  }

  // A multiple of o that is a multiple of the total length counts whole cycles.
  lemma WholeCycles(x: Rotation, d: int, q: int) returns (c: int)
    requires x.Valid() && d * x.o == q * x.n
    ensures d == c * x.l
  {
    // d * g == d * (z * o - w * n) == (q * z - d * w) * n == ((q * z - d * w) * l) * g
    c := q * x.z - d * x.w;
    BothFactors(d, x.g, x.w * x.n);
    MulAssociate(d, x.z, x.o);
    MulAssociate(x.z, q, x.n);
    MulAssociate(d, x.w, x.n);
    MulSum(x.z * q, d * x.w, x.n);
    ScaledTwice(x.z, d, x.o, q, x.n);
    MulAssociate(c, x.l, x.g);
    CancelFactor(d, c * x.l, x.g);
  }

  lemma ScaledTwice(z: int, d: int, o: int, q: int, n: int)
    requires d * o == q * n
    ensures d * (z * o) == (z * q) * n
  {
    MulAssociate(d, z, o);
    MulAssociate(z, d, o);
    MulAssociate(z, q, n);
  }

  // Within one cycle no position is visited twice.
  lemma OrbitInjective(x: Rotation, r: int, j: nat, k: nat)
    requires x.Valid() && 0 <= r < x.n && j < k < x.l
    ensures Orbit(x.m, x.o, r, j) != Orbit(x.m, x.o, r, k)
  {
    if Orbit(x.m, x.o, r, j) == Orbit(x.m, x.o, r, k) {
      var a := OrbitIsSum(x.m, x.o, r, j);
      var b := OrbitIsSum(x.m, x.o, r, k);
      MulSum(k, j, x.o);
      MulSum(b, a, x.n);
      var c := WholeCycles(x, k - j, b - a);
      SameResidue(k - j, 0, c, x.l);
      assert false;
    }
  }

  // The walk from r reaches every position that differs from r by a multiple of the gcd.
  lemma OrbitReaches(x: Rotation, r: int, s: int, t: int) returns (j: nat)
    requires x.Valid() && 0 <= r < x.n && 0 <= s < x.n && s - r == t * x.g
    ensures j < x.l && Orbit(x.m, x.o, r, j) == s
  {
    var far := x.z * t;
    j := far % x.l;
    var c := far / x.l;
    // far * o == t * g + (t * w) * n and l * o == og * n
    FarSteps(x, t);
    assert far == c * x.l + j;
    MulSum(c * x.l, j, x.o);
    CycleLength(x);
    MulAssociate(c, x.l, x.o);
    MulAssociate(c, x.og, x.n);
    var k := OrbitIsSum(x.m, x.o, r, j);
    MulSum(t * x.w, c * x.og, x.n);
    MulSum(t * x.w - c * x.og, k, x.n);
    SameResidue(Orbit(x.m, x.o, r, j), s, t * x.w - c * x.og - k, x.n);
  }

  lemma FarSteps(x: Rotation, t: int)
    requires x.Valid()
    ensures (x.z * t) * x.o == t * x.g + (t * x.w) * x.n
  {
    MulAssociate(t, x.z, x.o);
    MulAssociate(x.z, t, x.o);
    BothFactors(t, x.g, x.w * x.n);
    MulAssociate(t, x.w, x.n);
  }

  // ---- the cycles partition the positions ----

  // The cycle is the class of positions with remainder i: it is walked once, without repetition.
  ghost predicate IsCycle(x: Rotation, i: int, path: seq<int>)
    requires x.m > 0 && x.o > 0 && x.g > 0
  {
    && |path| == x.l && |path| > 0 && path[0] == x.m + i
    && (forall t :: 0 <= t < |path| ==> 0 <= path[t] < x.m + x.o && path[t] % x.g == i)
    && (forall t :: 0 <= t < |path| ==> Step(x.m, x.o, path[t]) == path[if t + 1 == |path| then 0 else t + 1])
    && (forall t, u :: 0 <= t < u < |path| ==> path[t] != path[u])
    && (forall s :: 0 <= s < x.m + x.o && s % x.g == i ==> s in path)
  }

  lemma ModOfSum(r: int, q: int, g: int)
    requires g > 0
    ensures (r + q * g) % g == r % g
  {
    var a := r + q * g;
    assert a == (a / g) * g + a % g;
    assert r == (r / g) * g + r % g;
    MulSum(a / g, r / g, g);
    MulSum(a / g - r / g, q, g);
    SameResidue(a % g, r % g, q - (a / g - r / g), g);
  }

  lemma SameClass(r: int, s: int, g: int) returns (t: int)
    requires g > 0 && r % g == s % g
    ensures s - r == t * g
  {
    t := s / g - r / g;
    MulSum(s / g, r / g, g);
  }

  lemma OrbitClass(x: Rotation, r: int, j: nat)
    requires x.Valid() && 0 <= r < x.n
    ensures Orbit(x.m, x.o, r, j) % x.g == r % x.g
  {
    var k := OrbitIsSum(x.m, x.o, r, j);
    MulAssociate(j, x.og, x.g);
    MulAssociate(k, x.l, x.g);
    MulSum(j * x.og, k * x.l, x.g);
    ModOfSum(r, j * x.og - k * x.l, x.g);
  }

  lemma CycleOf(x: Rotation, i: int) returns (path: seq<int>)
    requires x.Valid() && 0 <= i < x.g
    ensures IsCycle(x, i, path)
  {
    var r := x.m + i;
    assert x.g <= x.o by { QuotientPositive(x.og, x.g); MulAtLeast(x.og, x.g); }
    assert r % x.g == i by { ModOfSum(i, x.mg, x.g); SmallMod(i, x.g); }
    path := seq(x.l, j requires 0 <= j < x.l => Orbit(x.m, x.o, r, j));
    forall t | 0 <= t < x.l
      ensures path[t] % x.g == i
      ensures Step(x.m, x.o, path[t]) == path[if t + 1 == x.l then 0 else t + 1]
    {
      OrbitClass(x, r, t);
      if t + 1 == x.l { OrbitCloses(x, r); }
    }
    forall t, u | 0 <= t < u < x.l
      ensures path[t] != path[u]
    {
      OrbitInjective(x, r, t, u);
    }
    forall s | 0 <= s < x.n && s % x.g == i
      ensures s in path
    {
      var q := SameClass(r, s, x.g);
      var j := OrbitReaches(x, r, s, q);
      assert path[j] == s;
    }
  }

  lemma SmallMod(i: int, g: int)
    requires 0 <= i < g
    ensures i % g == i
  {
  }

  // ---- the exchange ----

  // Position r of the two blocks holds its final or its original element.
  ghost predicate Moved<T>(a: seq<T>, was: seq<T>, m: int, o: int, r: int)
    requires m > 0 && o > 0 && 0 <= r < m + o <= |a| == |was|
  {
    a[Step(m, o, r)] == was[r]
  }

  // The classes below i are exchanged, the others untouched.
  ghost predicate Exchanged<T>(a: seq<T>, was: seq<T>, x: Rotation, i: int)
    requires x.m > 0 && x.o > 0 && x.g > 0 && x.m + x.o == |a| == |was|
  {
    && (forall r :: 0 <= r < |a| && r % x.g < i ==> Moved(a, was, x.m, x.o, r))
    && (forall r :: 0 <= r < |a| && r % x.g >= i ==> a[r] == was[r])
  }

  // The state of one cycle after j swaps: the first j elements of the path have moved one on, the cycle's
  // first cell holds the next to be placed, and the rest is untouched.
  ghost predicate Walked<T>(a: seq<T>, was: seq<T>, path: seq<int>, j: int)
    requires 0 <= j <= |path| && |path| > 0 && |a| == |was|
    requires forall t :: 0 <= t < |path| ==> 0 <= path[t] < |a|
  {
    && (forall t :: 0 < t <= j && t < |path| ==> a[path[t]] == was[path[t - 1]])
    && (forall t :: j < t < |path| ==> a[path[t]] == was[path[t]])
    && a[path[0]] == if j < |path| then was[path[j]] else was[path[|path| - 1]]
  }

  // One swap of the loop body: the cell at the next position and the cycle's first cell trade places.
  lemma WalkStep<T>(a: seq<T>, b: seq<T>, was: seq<T>, path: seq<int>, j: int)
    requires 0 <= j < |path| && |a| == |b| == |was|
    requires forall t :: 0 <= t < |path| ==> 0 <= path[t] < |a|
    requires forall t, u :: 0 <= t < u < |path| ==> path[t] != path[u]
    requires Walked(a, was, path, j)
    requires var pos := path[if j + 1 == |path| then 0 else j + 1];
      b == a[pos := a[path[0]]][path[0] := a[pos]]
    ensures Walked(b, was, path, j + 1)
    ensures SameOff(b, a, path)
  {
  }

  lemma CycleMoved<T>(b: seq<T>, was: seq<T>, x: Rotation, i: int, path: seq<int>, r: int)
    requires x.m > 0 && x.o > 0 && x.g > 0 && x.m + x.o == |b| == |was|
    requires IsCycle(x, i, path) && Walked(b, was, path, |path|)
    requires 0 <= r < |b| && r in path
    ensures Moved(b, was, x.m, x.o, r)
  {
    var t :| 0 <= t < |path| && path[t] == r;
    var next := if t + 1 == |path| then 0 else t + 1;
    assert Step(x.m, x.o, path[t]) == path[next];
  }

  // Only cells of the cycle step into the cycle.
  lemma StepsFromCycle(x: Rotation, i: int, path: seq<int>, r: int)
    requires x.m > 0 && x.o > 0 && x.g > 0
    requires IsCycle(x, i, path) && 0 <= r < x.m + x.o && Step(x.m, x.o, r) in path
    ensures r in path
  {
    var t :| 0 <= t < |path| && path[t] == Step(x.m, x.o, r);
    var back := if t == 0 then |path| - 1 else t - 1;
    assert Step(x.m, x.o, path[back]) == path[t];
  }

  lemma CycleIsClass(x: Rotation, i: int, path: seq<int>, r: int)
    requires x.m > 0 && x.o > 0 && x.g > 0
    requires IsCycle(x, i, path) && 0 <= r < x.m + x.o
    ensures r in path <==> r % x.g == i
  {
  }

  // A finished walk has exchanged one more class.
  lemma CycleDone<T>(a: seq<T>, b: seq<T>, was: seq<T>, x: Rotation, i: int, path: seq<int>)
    requires x.m > 0 && x.o > 0 && x.g > 0 && x.m + x.o == |a| == |b| == |was|
    requires IsCycle(x, i, path)
    requires Exchanged(a, was, x, i) && Walked(b, was, path, |path|)
    requires SameOff(b, a, path)
    ensures Exchanged(b, was, x, i + 1)
  {
    hide IsCycle, Walked;
    forall r | 0 <= r < |a|
      ensures r % x.g < i + 1 ==> Moved(b, was, x.m, x.o, r)
      ensures r % x.g >= i + 1 ==> b[r] == was[r]
    {
      CycleIsClass(x, i, path, r);
      if r in path {
        CycleMoved(b, was, x, i, path, r);
      } else if r % x.g < i {
        assert Moved(a, was, x.m, x.o, r);
        if Step(x.m, x.o, r) in path { StepsFromCycle(x, i, path, r); }
      }
    }
  }

  // When every class is exchanged, the two blocks have traded places, each in its own order.
  lemma BlocksExchanged<T>(a: seq<T>, was: seq<T>, x: Rotation)
    requires x.m > 0 && x.o > 0 && x.g > 0 && x.m + x.o == |a| == |was|
    requires Exchanged(a, was, x, x.g)
    ensures a == was[x.m..] + was[..x.m]
  {
    forall k | 0 <= k < |a|
      ensures a[k] == (was[x.m..] + was[..x.m])[k]
    {
      var r := if k < x.o then k + x.m else k - x.o;
      assert r % x.g < x.g;
      assert Moved(a, was, x.m, x.o, r);
    }
  }

  // Exchanges nargv[start..end] with nargv[end..optEnd].
  method PermuteArgs<T>(start: int, end: int, optEnd: int, nargv: array<T>)
    requires 0 <= start < end < optEnd <= nargv.Length
    modifies nargv
    ensures nargv[..] == old(nargv[..start] + nargv[end..optEnd] + nargv[start..end] + nargv[optEnd..])
  {
    hide IsCycle, Walked, Exchanged, Combination, IsGcd, Step;
    var nnonopts := end - start;
    var nopts := optEnd - end;
    var ncycle := Gcd(nnonopts, nopts);
    var cyclelen := (optEnd - start) / ncycle;
    ghost var x := MakeRotation(nnonopts, nopts, ncycle);
    ghost var was := nargv[start..optEnd];
    NoneExchanged(was, x);
    for i := 0 to ncycle
      invariant nargv[..start] == old(nargv[..start]) && nargv[optEnd..] == old(nargv[optEnd..])
      invariant Exchanged(nargv[start..optEnd], was, x, i)
    {
      ghost var path := CycleOf(x, i);
      ghost var before := nargv[start..optEnd];
      WalkStart(before, was, x, i, path);
      WalkCycle(start, end, optEnd, nargv, i, cyclelen, x, path, was);
      CycleDone(before, nargv[start..optEnd], was, x, i, path);
    }
    BlocksExchanged(nargv[start..optEnd], was, x);
    assert nargv[..] == nargv[..start] + nargv[start..optEnd] + nargv[optEnd..];
    assert was[nnonopts..] == old(nargv[end..optEnd]) && was[..nnonopts] == old(nargv[start..end]);
  }

  // The inner loop: one walk along cycle i.
  method WalkCycle<T>(start: int, end: int, optEnd: int, nargv: array<T>, i: int, cyclelen: int,
                      ghost x: Rotation, ghost path: seq<int>, ghost was: seq<T>)
    requires 0 <= start < end < optEnd <= nargv.Length && |was| == optEnd - start
    requires x.m == end - start && x.o == optEnd - end && x.g > 0 && cyclelen == x.l
    requires IsCycle(x, i, path) && Walked(nargv[start..optEnd], was, path, 0)
    modifies nargv
    ensures nargv[..start] == old(nargv[..start]) && nargv[optEnd..] == old(nargv[optEnd..])
    ensures Walked(nargv[start..optEnd], was, path, |path|)
    ensures SameOff(nargv[start..optEnd], old(nargv[start..optEnd]), path)
  {
    hide IsCycle, Walked, Step;
    CycleShape(x, i, path);
    var cstart := end + i;
    var pos := cstart;
    for j := 0 to cyclelen
      invariant nargv[..start] == old(nargv[..start]) && nargv[optEnd..] == old(nargv[optEnd..])
      invariant pos == start + path[if j == |path| then 0 else j]
      invariant Walked(nargv[start..optEnd], was, path, j)
      invariant SameOff(nargv[start..optEnd], old(nargv[start..optEnd]), path)
    {
      ghost var window := nargv[start..optEnd];
      StepCases(x.m, x.o, path[j]);
      if pos >= end {
        pos := pos - (end - start);
      } else {
        pos := pos + (optEnd - end);
      }
      SwapCells(nargv, pos, cstart, start, optEnd);
      WalkStep(window, nargv[start..optEnd], was, path, j);
    }
  }

  // The swap of the loop body, seen on the window that holds both cells.
  method SwapCells<T>(nargv: array<T>, pos: int, cstart: int, ghost lo: int, ghost hi: int)
    requires 0 <= lo <= pos < hi <= nargv.Length && lo <= cstart < hi
    modifies nargv
    ensures nargv[..lo] == old(nargv[..lo]) && nargv[hi..] == old(nargv[hi..])
    ensures nargv[lo..hi] == old(nargv[lo..hi])[pos - lo := old(nargv[cstart])][cstart - lo := old(nargv[pos])]
  {
    var swap := nargv[pos];
    nargv[pos] := nargv[cstart];
    nargv[cstart] := swap;
  }

  ghost predicate SameOff<T>(a: seq<T>, b: seq<T>, path: seq<int>) {
    |a| == |b| && forall r :: 0 <= r < |a| && r !in path ==> a[r] == b[r]
  }

  lemma StepCases(m: int, o: int, r: int)
    requires m > 0 && o > 0 && 0 <= r < m + o
    ensures Step(m, o, r) == if r >= m then r - m else r + o
  {
  }

  lemma NoneExchanged<T>(was: seq<T>, x: Rotation)
    requires x.m > 0 && x.o > 0 && x.g > 0 && x.m + x.o == |was|
    ensures Exchanged(was, was, x, 0)
  {
  }

  lemma CycleShape(x: Rotation, i: int, path: seq<int>)
    requires x.m > 0 && x.o > 0 && x.g > 0 && IsCycle(x, i, path)
    ensures |path| == x.l && |path| > 0 && path[0] == x.m + i
    ensures forall t :: 0 <= t < |path| ==> 0 <= path[t] < x.m + x.o
    ensures forall t :: 0 <= t < |path| ==> Step(x.m, x.o, path[t]) == path[if t + 1 == |path| then 0 else t + 1]
    ensures forall t, u :: 0 <= t < u < |path| ==> path[t] != path[u]
  {
  }

  lemma WalkStart<T>(a: seq<T>, was: seq<T>, x: Rotation, i: int, path: seq<int>)
    requires x.m > 0 && x.o > 0 && x.g > 0 && x.m + x.o == |a| == |was|
    requires IsCycle(x, i, path) && Exchanged(a, was, x, i)
    ensures Walked(a, was, path, 0)
  {
  }
}
