/** Ring identities and facts about residues, kept apart so that each costs the solver little. */
module Arithmetic {

  lemma Assoc(x: int, y: int, z: int)
    ensures x * (y * z) == (x * y) * z
  {
  }

  lemma Dist(x: int, y: int, z: int)
    ensures (x + y) * z == x * z + y * z
    ensures (x - y) * z == x * z - y * z
  {
  }

  lemma MultipleIsLarge(k: int, n: int)
    requires 1 <= k && 0 <= n
    ensures n <= k * n
  {
    Dist(k - 1, 1, n);
  }

  /** A multiple of n strictly between -n and n is zero. */
  lemma SmallMultiple(n: int, k: int)
    requires -n < k * n < n
    ensures k == 0
  {
    if k >= 1 {
      MultipleIsLarge(k, n);
    } else if k <= -1 {
      MultipleIsLarge(-k, n);
    }
  }

  /** Two positions in range that differ by a multiple of n are the same. */
  lemma SameResidue(n: nat, p: nat, q: nat, k: int)
    requires p < n && q < n && p - q == k * n
    ensures p == q
  {
    SmallMultiple(n, k);
  }

  lemma DivModUnique(p: nat, n: nat, k: int, r: nat)
    requires r < n && p == k * n + r
    ensures p / n == k && p % n == r
  {
    var k', r' := p / n, p % n;
    Dist(k', k, n);
    SameResidue(n, r, r', k' - k);
    SmallMultiple(n, k' - k);
  }

  lemma QuotientOfMultiple(k: nat, g: nat)
    requires 0 < g
    ensures (k * g) / g == k && (k * g) % g == 0
  {
    DivModUnique(k * g, g, k, 0);
  }

  lemma ShiftByMultiple(c: nat, g: nat, z: int)
    requires 0 < g && 0 <= c + z * g
    ensures (c + z * g) % g == c % g
  {
    Dist(c / g, z, g);
    DivModUnique(c + z * g, g, c / g + z, c % g);
  }

  /** Positions with equal residue differ by a multiple of g. */
  lemma SameResidueGap(g: nat, p: nat, c: nat)
    requires 0 < g && p % g == c % g
    ensures p - c == (p / g - c / g) * g
  {
    Dist(p / g, c / g, g);
  }
}
