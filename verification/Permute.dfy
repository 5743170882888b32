/** Block exchange by cycle following: `gcd` and `permute_args` of wingetopt. */
module Permute {
  import opened Arithmetic

  /** d divides n. */
  ghost predicate Divides(d: int, n: int) {
    exists q :: n == q * d
  }

  /** g is a common divisor of a and b, and every common divisor divides it. */
  ghost predicate IsGcd(g: int, a: int, b: int) {
    && 0 < g && Divides(g, a) && Divides(g, b)
    && forall d :: Divides(d, a) && Divides(d, b) ==> Divides(d, g)
  }

  /** Euclid's recursion, the specification of the loop below. */
  function GcdOf(a: nat, b: nat): (g: nat)
    requires 0 < b
    ensures 0 < g <= b
    decreases b
  {
    if a % b == 0 then b else GcdOf(b, a % b)
  }

  lemma {:induction false} GcdCofactors(a: nat, b: nat) returns (p: nat, q: nat)
    requires 0 < b
    ensures a == p * GcdOf(a, b) && b == q * GcdOf(a, b)
    decreases b
  {
    var k, r := a / b, a % b;
    assert a == k * b + r;
    if r == 0 {
      p, q := k, 1;
    } else {
      var p', q' := GcdCofactors(b, r);
      p := k * p' + q';
      q := p';
      Assoc(k, p', GcdOf(b, r));
      Dist(k * p', q', GcdOf(b, r));
    }
  }

  lemma {:induction false} Bezout(a: nat, b: nat) returns (x: int, y: int)
    requires 0 < b
    ensures x * a + y * b == GcdOf(a, b)
    decreases b
  {
    var k, r := a / b, a % b;
    if r == 0 {
      x, y := 0, 1;
    } else {
      var x', y' := Bezout(b, r);
      x, y := y', x' - y' * k;
      BezoutStep(x', y', k, r, a, b);
    }
  }

  lemma BezoutStep(x: int, y: int, k: int, r: int, a: int, b: int)
    requires a == k * b + r
    ensures y * a + (x - y * k) * b == x * b + y * r
  {
    Dist(x, y * k, b);
    Assoc(y, k, b);
  }

  lemma Combine(x: int, y: int, u: int, v: int, d: int)
    ensures x * (u * d) + y * (v * d) == (x * u + y * v) * d
  {
    Assoc(x, u, d);
    Assoc(y, v, d);
    Dist(x * u, y * v, d);
  }

  lemma GcdIsGreatest(a: nat, b: nat)
    requires 0 < b
    ensures IsGcd(GcdOf(a, b), a, b)
  {
    var g := GcdOf(a, b);
    var p, q := GcdCofactors(a, b);
    var x, y := Bezout(a, b);
    forall d | Divides(d, a) && Divides(d, b) ensures Divides(d, g) {
      var u :| a == u * d;
      var v :| b == v * d;
      Combine(x, y, u, v, d);
    }
  }

  method Gcd(a: nat, b: nat) returns (g: nat)
    requires 0 < b
    ensures g == GcdOf(a, b)
  {
    var u, v := a, b;
    var c := u % v;
    while c != 0
      invariant 0 < v && c == u % v
      invariant GcdOf(u, v) == GcdOf(a, b)
      decreases v
    {
      u := v;
      v := c;
      c := u % v;
    }
    g := v;
  }

  /** What the exchange is for: q[mid..end) moves in front of q[start..mid). */
  function Exchange<T>(q: seq<T>, start: nat, mid: nat, end: nat): (r: seq<T>)
    requires start <= mid <= end <= |q|
    ensures |r| == |q|
  {
    q[..start] + q[mid..end] + q[start..mid] + q[end..]
  }

  // ---- the orbits the exchange follows -------------------------------------------------
  // Positions are counted from the start of the first block; `a` and `b` are the block lengths.

  /** The position reached from c after t hops; each hop goes where the element belongs. */
  ghost function Orbit(a: nat, b: nat, c: nat, t: nat): (p: nat)
    requires 0 < a && 0 < b && c < a + b
    ensures p < a + b
  {
    if t == 0 then c else Hop(a, b, Orbit(a, b, c, t - 1))
  }

  /** Where the element at p belongs. */
  ghost function Hop(a: nat, b: nat, p: nat): (q: nat)
    requires p < a + b
    ensures q < a + b && Source(a, b, q) == p
  {
    if p >= a then p - a else p + b
  }

  /** Where the element that must end at p comes from. */
  ghost function Source(a: nat, b: nat, p: nat): (q: nat)
    requires p < a + b
    ensures q < a + b
  {
    if p < b then p + a else p - b
  }

  /** Each hop adds b modulo a + b. */
  lemma {:induction false} OrbitLaps(a: nat, b: nat, c: nat, t: nat) returns (laps: nat)
    requires 0 < a && 0 < b && c < a + b
    ensures Orbit(a, b, c, t) == c + t * b - laps * (a + b)
    decreases t
  {
    if t == 0 {
      laps := 0;
    } else {
      var n := OrbitLaps(a, b, c, t - 1);
      laps := if Orbit(a, b, c, t - 1) >= a then n + 1 else n;
      Dist(t, 1, b);
      Dist(n, 1, a + b);
    }
  }

  /** The arithmetic of g = gcd(a, b): cycles have length len = (a + b) / g. */
  ghost predicate CycleFacts(a: nat, b: nat, g: nat, len: nat, kb: nat, x: int, y: int) {
    && 0 < a && 0 < b && 0 < g && 0 < len
    && a + b == len * g
    && b == kb * g
    && x * b + y * (a + b) == g
  }

  lemma CycleFactsHold(a: nat, b: nat) returns (kb: nat, x: int, y: int)
    requires 0 < a && 0 < b
    ensures CycleFacts(a, b, GcdOf(a, b), (a + b) / GcdOf(a, b), kb, x, y)
    ensures a % GcdOf(a, b) == 0
  {
    var g := GcdOf(a, b);
    var ka, k := GcdCofactors(a, b);
    var u, v := Bezout(a, b);
    kb, x, y := k, v - u, u;
    Dist(ka, kb, g);
    QuotientOfMultiple(ka + kb, g);
    QuotientOfMultiple(ka, g);
    BezoutOverSum(u, v, a, b);
    assert ka + kb > 0;
  }

  lemma BezoutOverSum(u: int, v: int, a: int, b: int)
    ensures (v - u) * b + u * (a + b) == u * a + v * b
  {
    Dist(v, u, b);
  }

  /** A cycle closes after len hops. */
  lemma OrbitCloses(a: nat, b: nat, g: nat, len: nat, kb: nat, x: int, y: int, c: nat)
    requires CycleFacts(a, b, g, len, kb, x, y) && c < a + b
    ensures Orbit(a, b, c, len) == c
  {
    var laps := OrbitLaps(a, b, c, len);
    Exchange3(len, kb, g);
    Dist(kb, laps, a + b);
    SameResidue(a + b, Orbit(a, b, c, len), c, kb - laps);
  }

  lemma Exchange3(x: int, y: int, z: int)
    ensures x * (y * z) == y * (x * z)
  {
    Assoc(x, y, z);
    Assoc(y, x, z);
  }

  /** No number of hops below len is a whole number of laps. */
  lemma NoEarlyLap(a: nat, b: nat, g: nat, len: nat, kb: nat, x: int, y: int, d: nat, k: int)
    requires CycleFacts(a, b, g, len, kb, x, y)
    requires 0 < d < len
    ensures d * b != k * (a + b)
  {
    if d * b == k * (a + b) {
      var z := x * k + y * d;
      LapRing(x, y, d, b, k, a + b);
      Assoc(z, len, g);
      Dist(d, z * len, g);
      SmallMultiple(g, d - z * len);
      SmallMultiple(len, z);
    }
  }

  lemma LapRing(x: int, y: int, d: int, b: int, k: int, n: int)
    requires d * b == k * n
    ensures d * (x * b + y * n) == (x * k + y * d) * n
  {
    Exchange3(d, x, b);
    Exchange3(d, y, n);
    Assoc(x, k, n);
    Assoc(y, d, n);
    Dist(x * k, y * d, n);
  }

  /** No cycle closes early, so the hops of one cycle visit distinct positions. */
  lemma OrbitDistinct(a: nat, b: nat, g: nat, len: nat, kb: nat, x: int, y: int, c: nat, s: nat, t: nat)
    requires CycleFacts(a, b, g, len, kb, x, y) && c < a + b
    requires s < t < s + len
    ensures Orbit(a, b, c, s) != Orbit(a, b, c, t)
  {
    var ls := OrbitLaps(a, b, c, s);
    var lt := OrbitLaps(a, b, c, t);
    Dist(t, s, b);
    Dist(lt, ls, a + b);
    if Orbit(a, b, c, s) == Orbit(a, b, c, t) {
      NoEarlyLap(a, b, g, len, kb, x, y, t - s, lt - ls);
    }
  }

  /** Positions in one cycle agree modulo g, so cycles with different starts are disjoint. */
  lemma OrbitClass(a: nat, b: nat, g: nat, len: nat, kb: nat, x: int, y: int, c: nat, t: nat)
    requires CycleFacts(a, b, g, len, kb, x, y) && c < a + b
    ensures Orbit(a, b, c, t) % g == c % g
  {
    var laps := OrbitLaps(a, b, c, t);
    Assoc(t, kb, g);
    Assoc(laps, len, g);
    Dist(t * kb, laps * len, g);
    ShiftByMultiple(c, g, t * kb - laps * len);
  }

  /** Every position of c's residue class is met within len hops. */
  lemma OrbitCovers(a: nat, b: nat, g: nat, len: nat, kb: nat, x: int, y: int, c: nat, p: nat) returns (t: nat)
    requires CycleFacts(a, b, g, len, kb, x, y) && c < a + b && p < a + b
    requires p % g == c % g
    ensures 1 <= t <= len && Orbit(a, b, c, t) == p
  {
    var r := p / g - c / g;
    SameResidueGap(g, p, c);
    var z;
    z, t := HopCount(r * x, len);
    var laps := OrbitLaps(a, b, c, t);
    CoverRing(r, x, y, b, a + b, g, z, len, t, kb);
    Dist(z * kb + r * y, laps, a + b);
    SameResidue(a + b, p, Orbit(a, b, c, t), z * kb + r * y + laps);
  }

  lemma HopCount(m: int, len: nat) returns (z: int, t: nat)
    requires 0 < len
    ensures 1 <= t <= len && m == z * len + t
  {
    z, t := m / len, m % len;
    if t == 0 {
      Dist(z, 1, len);
      z, t := z - 1, len;
    }
  }

  lemma CoverRing(r: int, x: int, y: int, b: int, n: int, g: int, z: int, len: int, t: int, kb: int)
    requires x * b + y * n == g && r * x == z * len + t && b == kb * g && n == len * g
    ensures r * g == t * b + (z * kb + r * y) * n
  {
    Assoc(r, x, b);
    Assoc(r, y, n);
    assert r * g == r * (x * b) + r * (y * n);
    Dist(z * len, t, b);
    Assoc(z, len, b);
    Exchange3(len, kb, g);
    Assoc(z, kb, n);
    Dist(z * kb, r * y, n);
  }

  /** The number of hops after which every cycle closes. */
  ghost function CycleLen(a: nat, b: nat): nat
    requires 0 < b
  {
    (a + b) / GcdOf(a, b)
  }

  /** No cycle meets a position twice before it closes. */
  lemma CycleIsSimple(a: nat, b: nat, c: nat, t: nat)
    requires 0 < a && 0 < b && c < a + b && t < CycleLen(a, b)
    ensures forall s :: 0 <= s < CycleLen(a, b) && s != t ==> Orbit(a, b, c, s) != Orbit(a, b, c, t)
  {
    var g, len := GcdOf(a, b), CycleLen(a, b);
    var kb, x, y := CycleFactsHold(a, b);
    forall s | 0 <= s < len && s != t ensures Orbit(a, b, c, s) != Orbit(a, b, c, t) {
      if s < t {
        OrbitDistinct(a, b, g, len, kb, x, y, c, s, t);
      } else {
        OrbitDistinct(a, b, g, len, kb, x, y, c, t, s);
      }
    }
  }

  /** The cycle entered at c = a + i closes, and meets exactly the positions of residue class i
      modulo the gcd: so there are gcd many cycles, disjoint, and they cover the range. */
  lemma CycleIsClass(a: nat, b: nat, i: nat, c: nat, p: nat) returns (t: nat)
    requires 0 < a && 0 < b && i < GcdOf(a, b) && p < a + b && c == a + i
    ensures t < CycleLen(a, b) && Orbit(a, b, c, CycleLen(a, b)) == c
    ensures p % GcdOf(a, b) == i ==> Orbit(a, b, c, t) == p
    ensures p % GcdOf(a, b) != i ==> forall s: nat :: Orbit(a, b, c, s) != p
  {
    var g, len := GcdOf(a, b), CycleLen(a, b);
    var kb, x, y := CycleFactsHold(a, b);
    StartOfCycle(a, b, i);
    OrbitCloses(a, b, g, len, kb, x, y, c);
    t := 0;
    if p % g == i {
      t := OrbitCovers(a, b, g, len, kb, x, y, c, p);
      t := if t == len then 0 else t;
    } else {
      forall s: nat ensures Orbit(a, b, c, s) != p {
        OrbitClass(a, b, g, len, kb, x, y, c, s);
      }
    }
  }

  // ---- what the swaps of one cycle do --------------------------------------------------

  /** q with the elements at i and j exchanged. */
  ghost function Swapped<T>(q: seq<T>, i: nat, j: nat): (r: seq<T>)
    requires i < |q| && j < |q|
    ensures |r| == |q|
  {
    q[i := q[j]][j := q[i]]
  }

  /** The vector u after the first j swaps of the cycle through c. */
  ghost function AfterHops<T>(u: seq<T>, start: nat, a: nat, b: nat, c: nat, j: nat): (v: seq<T>)
    requires 0 < a && 0 < b && c < a + b && start + a + b <= |u|
    ensures |v| == |u|
  {
    if j == 0 then u else
      Swapped(AfterHops(u, start, a, b, c, j - 1), start + Orbit(a, b, c, j), start + c)
  }

  /** A position that is not hopped on keeps its element. */
  lemma {:induction false} Untouched<T>(u: seq<T>, start: nat, a: nat, b: nat, c: nat, j: nat, k: nat)
    requires 0 < a && 0 < b && c < a + b && start + a + b <= |u|
    requires k < |u| && k != start + c
    requires forall t :: 1 <= t <= j ==> k != start + Orbit(a, b, c, t)
    ensures AfterHops(u, start, a, b, c, j)[k] == u[k]
  {
    if j > 0 {
      Untouched(u, start, a, b, c, j - 1, k);
    }
  }

  /** After j hops the first position holds the element of the j-th. */
  lemma Carried<T>(u: seq<T>, start: nat, a: nat, b: nat, c: nat, j: nat)
    requires 0 < a && 0 < b && c < a + b && start + a + b <= |u|
    requires forall s :: 0 <= s < j ==> Orbit(a, b, c, s) != Orbit(a, b, c, j)
    ensures AfterHops(u, start, a, b, c, j)[start + c] == u[start + Orbit(a, b, c, j)]
  {
    assert Orbit(a, b, c, 0) == c;
    if j > 0 {
      Untouched(u, start, a, b, c, j - 1, start + Orbit(a, b, c, j));
    }
  }

  /** What the t-th hop puts down stays if the cycle does not come back there. */
  lemma {:induction false} Placed<T>(u: seq<T>, start: nat, a: nat, b: nat, c: nat, t: nat, j: nat)
    requires 0 < a && 0 < b && c < a + b && start + a + b <= |u|
    requires 0 < t <= j && Orbit(a, b, c, t) != c
    requires forall s :: t < s <= j ==> Orbit(a, b, c, s) != Orbit(a, b, c, t)
    ensures AfterHops(u, start, a, b, c, j)[start + Orbit(a, b, c, t)] == AfterHops(u, start, a, b, c, t - 1)[start + c]
    decreases j
  {
    if j > t {
      Placed(u, start, a, b, c, t, j - 1);
      assert Orbit(a, b, c, j) != Orbit(a, b, c, t);
    }
  }

  /** After a whole cycle the first position holds the element of the last. */
  lemma CycleEnds<T>(u: seq<T>, start: nat, a: nat, b: nat, c: nat, len: nat)
    requires 0 < a && 0 < b && c < a + b && start + a + b <= |u|
    requires len == CycleLen(a, b) && 0 < len && Orbit(a, b, c, len) == c
    ensures AfterHops(u, start, a, b, c, len)[start + c] == u[start + Source(a, b, c)]
  {
    CycleIsSimple(a, b, c, len - 1);
    Carried(u, start, a, b, c, len - 1);
  }

  /** After a whole cycle the t-th position holds the element of the one before it. */
  lemma CycleShifts<T>(u: seq<T>, start: nat, a: nat, b: nat, c: nat, len: nat, t: nat)
    requires 0 < a && 0 < b && c < a + b && start + a + b <= |u|
    requires len == CycleLen(a, b) && 0 < t < len
    ensures AfterHops(u, start, a, b, c, len)[start + Orbit(a, b, c, t)] == u[start + Orbit(a, b, c, t - 1)]
  {
    CycleIsSimple(a, b, c, t - 1);
    Carried(u, start, a, b, c, t - 1);
    CycleIsSimple(a, b, c, t);
    assert Orbit(a, b, c, 0) == c;
    Placed(u, start, a, b, c, t, len);
  }

  /** Where the element at k comes from once the residue classes below i have been exchanged
      in [start, start + a + b). */
  ghost function From(start: nat, a: nat, b: nat, i: nat, k: nat): (f: nat)
    requires 0 < a && 0 < b
    ensures start <= k < start + a + b <==> start <= f < start + a + b
    ensures !(start <= k < start + a + b) ==> f == k
  {
    if start <= k < start + a + b && (k - start) % GcdOf(a, b) < i then start + Source(a, b, k - start) else k
  }

  lemma OneHopBack(a: nat, b: nat, c: nat, t: nat)
    requires 0 < a && 0 < b && c < a + b
    ensures if t == 0 then Orbit(a, b, c, t) == c else Source(a, b, Orbit(a, b, c, t)) == Orbit(a, b, c, t - 1)
  {
  }

  lemma SourceInClass(a: nat, b: nat, i: nat, p: nat)
    requires 0 < a && 0 < b && i < GcdOf(a, b) && p < a + b && p % GcdOf(a, b) == i
    ensures Source(a, b, p) % GcdOf(a, b) == i
  {
    hide Orbit, Source, GcdOf, CycleLen;
    var t := CycleIsClass(a, b, i, a + i, p);
    OneHopBack(a, b, a + i, 0);
    var k := if t == 0 then CycleLen(a, b) else t;
    OneHopBack(a, b, a + i, k);
    var _ := CycleIsClass(a, b, i, a + i, Source(a, b, p));
  }

  /** The swaps of cycle i bring every element of residue class i to its place ... */
  lemma ClassMoves<T>(u: seq<T>, start: nat, a: nat, b: nat, i: nat, p: nat)
    requires 0 < a && 0 < b && i < GcdOf(a, b) && start + a + b <= |u| && p < a + b
    requires p % GcdOf(a, b) == i
    ensures AfterHops(u, start, a, b, a + i, CycleLen(a, b))[start + p] == u[start + Source(a, b, p)]
  {
    hide Orbit, Source, GcdOf, CycleLen, AfterHops;
    var c, len := a + i, CycleLen(a, b);
    var t := CycleIsClass(a, b, i, c, p);
    OneHopBack(a, b, c, t);
    if t == 0 {
      CycleEnds(u, start, a, b, c, len);
    } else {
      CycleShifts(u, start, a, b, c, len, t);
    }
  }

  /** ... and leave every other position alone. */
  lemma OthersStay<T>(u: seq<T>, start: nat, a: nat, b: nat, i: nat, k: nat)
    requires 0 < a && 0 < b && i < GcdOf(a, b) && start + a + b <= |u| && k < |u|
    requires start <= k < start + a + b ==> (k - start) % GcdOf(a, b) != i
    ensures AfterHops(u, start, a, b, a + i, CycleLen(a, b))[k] == u[k]
  {
    var c, len := a + i, CycleLen(a, b);
    assert Orbit(a, b, c, 0) == c;
    if start <= k < start + a + b {
      var _ := CycleIsClass(a, b, i, c, k - start);
    }
    Untouched(u, start, a, b, c, len, k);
  }

  lemma CycleMoves<T>(o: seq<T>, u: seq<T>, start: nat, a: nat, b: nat, i: nat, k: nat)
    requires 0 < a && 0 < b && i < GcdOf(a, b) && start + a + b <= |o| == |u| && k < |o|
    requires forall m :: 0 <= m < |o| ==> u[m] == o[From(start, a, b, i, m)]
    ensures AfterHops(u, start, a, b, a + i, CycleLen(a, b))[k] == o[From(start, a, b, i + 1, k)]
  {
    if start <= k < start + a + b && (k - start) % GcdOf(a, b) == i {
      ClassMoves(u, start, a, b, i, k - start);
      SourceInClass(a, b, i, k - start);
      assert From(start, a, b, i, start + Source(a, b, k - start)) == start + Source(a, b, k - start);
    } else {
      OthersStay(u, start, a, b, i, k);
    }
  }

  /** The vector v once the residue classes below i have been exchanged in o. */
  ghost predicate ClassesDone<T>(o: seq<T>, v: seq<T>, start: nat, a: nat, b: nat, i: nat) {
    && 0 < a && 0 < b && start + a + b <= |o| == |v|
    && forall m :: 0 <= m < |o| ==> v[m] == o[From(start, a, b, i, m)]
  }

  lemma CycleDone<T>(o: seq<T>, u: seq<T>, start: nat, a: nat, b: nat, i: nat)
    requires ClassesDone(o, u, start, a, b, i) && i < GcdOf(a, b)
    ensures ClassesDone(o, AfterHops(u, start, a, b, a + i, CycleLen(a, b)), start, a, b, i + 1)
  {
    var v := AfterHops(u, start, a, b, a + i, CycleLen(a, b));
    forall m | 0 <= m < |o| ensures v[m] == o[From(start, a, b, i + 1, m)] {
      CycleMoves(o, u, start, a, b, i, m);
    }
  }

  /** The vector o after the first i cycles of len hops each. */
  ghost function AfterCycles<T>(o: seq<T>, start: nat, a: nat, b: nat, len: nat, i: nat): (v: seq<T>)
    requires 0 < a && 0 < b && start + a + b <= |o| && i <= b
    ensures |v| == |o|
  {
    if i == 0 then o else
      AfterHops(AfterCycles(o, start, a, b, len, i - 1), start, a, b, a + (i - 1), len)
  }

  lemma {:induction false} CyclesSettleClasses<T>(o: seq<T>, start: nat, a: nat, b: nat, i: nat)
    requires 0 < a && 0 < b && start + a + b <= |o| && i <= GcdOf(a, b)
    ensures ClassesDone(o, AfterCycles(o, start, a, b, CycleLen(a, b), i), start, a, b, i)
  {
    if i > 0 {
      CyclesSettleClasses(o, start, a, b, i - 1);
      CycleDone(o, AfterCycles(o, start, a, b, CycleLen(a, b), i - 1), start, a, b, i - 1);
    }
  }

  /** gcd many cycles of (a + b) / gcd hops together exchange the blocks. */
  lemma CyclesExchange<T>(o: seq<T>, start: nat, mid: nat, end: nat)
    requires start < mid < end <= |o|
    ensures var a, b := mid - start, end - mid;
            AfterCycles(o, start, a, b, (end - start) / GcdOf(a, b), GcdOf(a, b)) == Exchange(o, start, mid, end)
  {
    var a, b := mid - start, end - mid;
    assert a + b == end - start;
    CyclesSettleClasses(o, start, a, b, GcdOf(a, b));
    SettledIsExchanged(o, AfterCycles(o, start, a, b, CycleLen(a, b), GcdOf(a, b)), start, mid, end);
  }

  lemma SettledIsExchanged<T>(o: seq<T>, v: seq<T>, start: nat, mid: nat, end: nat)
    requires start < mid < end <= |o| && ClassesDone(o, v, start, mid - start, end - mid, GcdOf(mid - start, end - mid))
    ensures v == Exchange(o, start, mid, end)
  {
  }

  /** Number and size of the cycles: as many as the gcd of the block lengths says. */
  method CountCycles<T>(start: nat, mid: nat, end: nat, ghost o: seq<T>) returns (ncycle: nat, cyclelen: nat)
    requires start < mid < end <= |o|
    ensures ncycle <= end - mid
    ensures AfterCycles(o, start, mid - start, end - mid, cyclelen, ncycle) == Exchange(o, start, mid, end)
  {
    ncycle := Gcd(mid - start, end - mid);
    cyclelen := (end - start) / ncycle;
    CyclesExchange(o, start, mid, end);
  }

  /** One cycle of swaps with argv[cstart], entered at relative position c. */
  method FollowCycle<T>(argv: array<T>, start: nat, nnonopts: nat, nopts: nat, c: nat, cyclelen: nat)
    requires 0 < nnonopts <= c < nnonopts + nopts && start + nnonopts + nopts <= argv.Length
    modifies argv
    ensures argv[..] == AfterHops(old(argv[..]), start, nnonopts, nopts, c, cyclelen)
  {
    var cstart := start + c;
    var pos := cstart;
    for j := 0 to cyclelen
      invariant pos == start + Orbit(nnonopts, nopts, c, j)
      invariant argv[..] == AfterHops(old(argv[..]), start, nnonopts, nopts, c, j)
    {
      if pos >= start + nnonopts {
        pos := pos - nnonopts;
      } else {
        pos := pos + nopts;
      }
      var swap := argv[pos];
      argv[pos] := argv[cstart];
      argv[cstart] := swap;
    }
  }

  /** All the cycles, one residue class of positions after the other. */
  method FollowCycles<T>(argv: array<T>, start: nat, nnonopts: nat, nopts: nat, ncycle: nat, cyclelen: nat)
    requires 0 < nnonopts && 0 < nopts && start + nnonopts + nopts <= argv.Length && ncycle <= nopts
    modifies argv
    ensures argv[..] == AfterCycles(old(argv[..]), start, nnonopts, nopts, cyclelen, ncycle)
  {
    for i := 0 to ncycle
      invariant argv[..] == AfterCycles(old(argv[..]), start, nnonopts, nopts, cyclelen, i)
    {
      FollowCycle(argv, start, nnonopts, nopts, nnonopts + i, cyclelen);
    }
  }

  /** Exchange the two adjacent blocks in place. */
  method PermuteArgs<T>(argv: array<T>, start: nat, mid: nat, end: nat)
    requires start < mid < end <= argv.Length
    modifies argv
    ensures argv[..] == Exchange(old(argv[..]), start, mid, end)
  {
    var ncycle, cyclelen := CountCycles(start, mid, end, argv[..]);
    FollowCycles(argv, start, mid - start, end - mid, ncycle, cyclelen);
  }

  /** Cycle i starts in residue class i. */
  lemma StartOfCycle(a: nat, b: nat, i: nat)
    requires 0 < a && 0 < b && i < GcdOf(a, b)
    ensures (a + i) % GcdOf(a, b) == i
  {
    var g := GcdOf(a, b);
    var ka, kb := GcdCofactors(a, b);
    DivModUnique(a + i, g, ka, i);
  }
}
