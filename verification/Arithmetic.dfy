/** Facts about division and remainder. */
module Arithmetic {
  lemma DivisionLaw(n: nat, d: nat)
    requires d > 0
    ensures n == (n / d) * d + n % d && 0 <= n / d && 0 <= n % d < d
    ensures (n / d) * d <= n < (n / d + 1) * d
  {}

  lemma SmallRemainder(x: nat, n: nat)
    requires x <= n && n > 0
    ensures x % n == if x < n then x else 0
  {}
}
