/** Truncated packet numbers (appendices A.2 and A.3 of RFC 9000). */
module QuicPacketNumber {
  import opened Arithmetic

  const LIMIT := 0x4000_0000_0000_0000

  /** How many numbers n bytes tell apart. */
  function Win(n: nat): nat
    requires 1 <= n <= 4
  {
    if n == 1 then 0x100 else if n == 2 then 0x1_0000 else if n == 3 then 0x100_0000 else 0x1_0000_0000
  }

  /** Numbers from the largest acknowledged one, or from the beginning. */
  function Unacked(pn: nat, largestAcked: int): int { if largestAcked < 0 then pn + 1 else pn - largestAcked }

  /** pnLen: the fewest bytes that tell apart twice as many numbers as are unacknowledged, at most four. */
  function PnLen(pn: nat, largestAcked: int): (n: nat)
    ensures 1 <= n <= 4
    ensures n < 4 ==> 2 * Unacked(pn, largestAcked) < Win(n)
    ensures n > 1 ==> 2 * Unacked(pn, largestAcked) >= Win(n - 1)
  {
    var unacked := Unacked(pn, largestAcked);
    if unacked < 0x80 then 1 else if unacked < 0x8000 then 2 else if unacked < 0x80_0000 then 3 else 4
  }

  /** decodePN on a window of win numbers. */
  function DecodeIn(expected: nat, truncated: nat, win: nat): int
    requires win > 0
  {
    Pick(expected, expected - expected % win + truncated, win)
  }

  function Pick(expected: int, candidate: int, win: int): int {
    var hwin := win / 2;
    if candidate + hwin <= expected && candidate < LIMIT - win then candidate + win
    else if candidate > expected + hwin && candidate >= win then candidate - win
    else candidate
  }

  function DecodePN(largest: int, truncated: nat, n: nat): int
    requires largest >= -1 && 1 <= n <= 4
  {
    DecodeIn(largest + 1, truncated, Win(n))
  }

  /** pn lies within half a window of the number that is expected next. */
  predicate Near(expected: nat, pn: nat, win: nat) { expected - win / 2 < pn <= expected + win / 2 }

  /** At either end of the number space the code does not step over the edge. */
  predicate AtEdge(expected: nat, pn: nat, win: nat) {
    (pn > expected + win / 2 && pn < win) || (pn + win / 2 <= expected < LIMIT && pn >= LIMIT - win)
  }

  /** What it takes to write pn and expected by their windows. */
  lemma Blocks(x: nat, win: nat) returns (q: nat, r: nat)
    requires win > 0
    ensures x == Times(win, q) + r && r < win && r == x % win
  {
    q, r := x / win, x % win;
  }

  /** q windows apart or not. */
  lemma Apart(a: nat, b: nat, win: nat)
    requires win > 0
    ensures a < b ==> Times(win, a) + win <= Times(win, b)
    ensures a + 1 < b ==> Times(win, a) + 2 * win <= Times(win, b)
    ensures b == a + 1 ==> Times(win, b) == Times(win, a) + win
  {
    var d := b - a;
    assert win * d == win * b - win * a;
    assert d >= 1 ==> win * d >= win;
    assert d >= 2 ==> win * d >= 2 * win;
  }

  /** A multiple of win against the end of the number space. */
  predicate Fits(a: int, win: int) { a + win == LIMIT || a + 2 * win <= LIMIT }

  /** With b and q as the multiples of win below expected and pn. */
  lemma PickIff(b: nat, x: nat, q: nat, y: nat, h: nat)
    requires h > 0 && x < 2 * h && y < 2 * h
    requires q == b || q == b + 2 * h || b == q + 2 * h || q >= b + 4 * h || b >= q + 4 * h
    requires Fits(q, 2 * h) && (Fits(b, 2 * h) || (b == LIMIT && x == 0))
    requires (b == 0 || b >= 2 * h) && (q == 0 || q >= 2 * h) && LIMIT >= 4 * h
    ensures Pick(b + x, b + y, 2 * h) == q + y <==> Near(b + x, q + y, 2 * h) || AtEdge(b + x, q + y, 2 * h)
  {
    assert 2 * h / 2 == h;
  }

  /** The full number comes back exactly when it is near the expected one or at an edge. */
  lemma DecodeIff(expected: nat, pn: nat, win: nat, limit: nat)
    requires win > 0 && win % 2 == 0 && pn < LIMIT && expected <= LIMIT && LIMIT == Times(win, limit) && limit >= 2
    ensures DecodeIn(expected, pn % win, win) == pn <==> Near(expected, pn, win) || AtEdge(expected, pn, win)
  {
    var b, x, q, y := Placed(expected, pn, win, limit);
    var h := win / 2;
    PickIff(b, x, q, y, h);
    SameWindow(b, x, q, y, win, h);
    DecodeIs(expected, y, win, b, x);
  }

  lemma SameWindow(b: nat, x: nat, q: nat, y: nat, win: nat, h: nat)
    requires win == 2 * h
    ensures Pick(b + x, b + y, win) == Pick(b + x, b + y, 2 * h)
    ensures Near(b + x, q + y, win) == Near(b + x, q + y, 2 * h)
    ensures AtEdge(b + x, q + y, win) == AtEdge(b + x, q + y, 2 * h)
  {
  }

  /** Where expected and pn lie in the windows. */
  lemma Placed(expected: nat, pn: nat, win: nat, limit: nat) returns (b: nat, x: nat, q: nat, y: nat)
    requires win > 0 && pn < LIMIT && expected <= LIMIT && LIMIT == Times(win, limit) && limit >= 2
    ensures expected == b + x && x == expected % win && x < win && pn == q + y && y == pn % win && y < win
    ensures q == b || q == b + win || b == q + win || q >= b + 2 * win || b >= q + 2 * win
    ensures Fits(q, win) && (Fits(b, win) || (b == LIMIT && x == 0))
    ensures (b == 0 || b >= win) && (q == 0 || q >= win) && LIMIT >= 2 * win
  {
    var e, p;
    e, x := Blocks(expected, win);
    p, y := Blocks(pn, win);
    b, q := Times(win, e), Times(win, p);
    Distance(e, p, win);
    BelowLimit(p, y, win, limit);
    if expected < LIMIT {
      BelowLimit(e, x, win, limit);
    } else {
      AtLimit(e, x, win, limit);
    }
    Apart(0, e, win);
    Apart(0, p, win);
    Apart(1, limit, win);
  }

  lemma DecodeIs(expected: nat, truncated: nat, win: nat, b: nat, x: nat)
    requires win > 0 && expected == b + x && x == expected % win
    ensures DecodeIn(expected, truncated, win) == Pick(b + x, b + truncated, win)
  {
  }

  lemma Distance(e: nat, p: nat, win: nat)
    requires win > 0
    ensures var q, b := Times(win, p), Times(win, e);
            q == b || q == b + win || b == q + win || q >= b + 2 * win || b >= q + 2 * win
  {
    Apart(e, p, win);
    Apart(p, e, win);
  }

  lemma BelowLimit(p: nat, y: nat, win: nat, limit: nat)
    requires win > 0 && Times(win, p) + y < LIMIT && LIMIT == Times(win, limit)
    ensures Fits(Times(win, p), win)
  {
    Apart(p, limit, win);
    Apart(limit, p, win);
  }

  lemma AtLimit(e: nat, x: nat, win: nat, limit: nat)
    requires win > 0 && Times(win, e) + x == LIMIT && LIMIT == Times(win, limit) && x < win
    ensures Times(win, e) == LIMIT && x == 0
  {
    Apart(e, limit, win);
    Apart(limit, e, win);
  }

  /** The windows of one to four bytes divide the number space. */
  lemma WinDivides(n: nat) returns (limit: nat)
    requires 1 <= n <= 4
    ensures Win(n) > 0 && Win(n) % 2 == 0 && LIMIT == Times(Win(n), limit) && limit >= 2
  {
    limit := if n == 1 then 0x40_0000_0000_0000 else if n == 2 then 0x4000_0000_0000
             else if n == 3 then 0x40_0000_0000 else 0x4000_0000;
  }

  /** decodePN recovers pn from its low n bytes exactly when it is near or at an edge. */
  lemma DecodePNIff(largest: int, pn: nat, n: nat)
    requires -1 <= largest < LIMIT && pn < LIMIT && 1 <= n <= 4
    ensures (DecodePN(largest, pn % Win(n), n) == pn)
              == (Near(largest + 1, pn, Win(n)) || AtEdge(largest + 1, pn, Win(n)))
  {
    var limit := WinDivides(n);
    DecodeIff(largest + 1, pn, Win(n), limit);
  }

  /** What pnLen leaves is enough for every receiver that has seen the largest acknowledged number
      and no later one than pn, as long as not too many are unacknowledged. */
  lemma PnRoundTrip(pn: nat, largestAcked: int, largest: int)
    requires pn < LIMIT && -1 <= largestAcked <= largest < pn && Unacked(pn, largestAcked) <= 0x8000_0001
    ensures var n := PnLen(pn, largestAcked); DecodePN(largest, pn % Win(n), n) == pn
  {
    DecodePNIff(largest, pn, PnLen(pn, largestAcked));
  }

  /** One more unacknowledged number is too many for a receiver that has seen no more than was
      acknowledged. */
  lemma PnRoundTripBound(pn: nat, largestAcked: int)
    requires 0x1_0000_0000 <= pn < LIMIT && -1 <= largestAcked && Unacked(pn, largestAcked) == 0x8000_0002
    ensures PnLen(pn, largestAcked) == 4 && DecodePN(largestAcked, pn % Win(4), 4) != pn
  {
    DecodePNIff(largestAcked, pn, 4);
  }
}
