/**
 * Betting arithmetic shared by both scripts: the larger and smaller of two
 * prices and the expected value of a back bet at decimal odds.
 */
module Market {

  function Max(a: real, b: real): (m: real)
    ensures m >= a && m >= b && (m == a || m == b)
  {
    if a >= b then a else b
  }

  function Min(a: real, b: real): (m: real)
    ensures m <= a && m <= b && (m == a || m == b)
  {
    if a <= b then a else b
  }

  /**
   * The EV of backing at decimal `odds` with win probability `p`, per unit
   * staked: win `odds - 1` with probability `p`, lose the unit otherwise.
   * It is the same as `p * odds - 1`.
   */
  function BackEv(p: real, odds: real): (r: real)
    ensures r == p * odds - 1.0
  {
    p * (odds - 1.0) - (1.0 - p)
  }
}
