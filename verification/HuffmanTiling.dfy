/** A code whose words, drawn out to 30 bits, cover all of [0, 2^30 - 1) without overlap has the
    shape that the Huffman coder needs. */
module HuffmanTiling {
  import opened Bytes
  import opened Arithmetic
  import opened Bits
  import opened Huffman

  /** place and at number the words from left to right; word k covers left(k)..left(k + 1). */
  datatype Tiling = Tiling(place: byte -> nat, at: nat -> byte, left: nat -> nat)

  ghost predicate Tiled(t: Table, g: Tiling) {
    && g.left(0) == 0 && g.left(256) == Pow2(30) - 1
    && (forall c: byte :: g.place(c) < 256 && g.at(g.place(c)) == c)
    && (forall k: nat :: k < 256 ==> TileOk(t, g, k))
  }

  ghost predicate TileOk(t: Table, g: Tiling, k: nat) {
    var w := t(g.at(k));
    && g.place(g.at(k)) == k && 5 <= w.length <= 30
    && g.left(k) == w.value * Pow2(30 - w.length) && g.left(k + 1) == g.left(k) + Pow2(30 - w.length)
  }

  lemma {:induction false} LeftGrows(t: Table, g: Tiling, a: nat, b: nat)
    requires Tiled(t, g) && a < b <= 256
    ensures g.left(a + 1) <= g.left(b) && g.left(a) < g.left(b)
  {
    assert TileOk(t, g, a) && TileOk(t, g, b - 1);
    if a + 1 < b {
      LeftGrows(t, g, a, b - 1);
    }
  }

  /** The word that covers p. */
  lemma {:induction false} Cover(t: Table, g: Tiling, p: nat, n: nat) returns (k: nat)
    requires Tiled(t, g) && n <= 256 && p < g.left(n)
    ensures k < n && g.left(k) <= p < g.left(k + 1)
  {
    if p >= g.left(n - 1) {
      k := n - 1;
    } else {
      k := Cover(t, g, p, n - 1);
    }
  }

  // Words as numbers.

  /** u without its low k bits. */
  function High(u: nat, k: nat): nat { Quotient(u, Pow2(k)) }

  function Quotient(u: nat, a: nat): nat
    requires a > 0
  {
    u / a
  }

  lemma Parts(u: nat, a: nat) returns (r: nat)
    requires a > 0
    ensures r < a && u == Quotient(u, a) * a + r
  {
    r := u % a;
  }

  /** A start of a word is its number without the low bits. */
  lemma PrefixNumber(u: nat, m: nat, n: nat)
    requires n <= m
    ensures BitsOf(u, m)[..n] == BitsOf(High(u, m - n), n)
  {
    var r := Parts(u, Pow2(m - n));
    BitsJoin(High(u, m - n), r, n, m - n);
  }

  lemma DivBelow(u: nat, m: nat, n: nat)
    requires n <= m && u < Pow2(m)
    ensures High(u, m - n) < Pow2(n)
  {
    PowAdd(n, m - n);
    QuotientBelow(u, Pow2(m - n), Pow2(n));
  }

  lemma QuotientBelow(u: nat, a: nat, b: nat)
    requires a > 0 && u < b * a
    ensures Quotient(u, a) < b
  {
    var q := u / a;
    assert u == a * q + u % a;
    var d := q - b;
    assert a * d == a * q - b * a;
    assert d >= 0 ==> a * d >= 0;
  }

  lemma PrefixSplits(v: nat, n: nat, u: nat, m: nat)
    requires v < Pow2(n) && u < Pow2(m) && BitsOf(v, n) <= BitsOf(u, m)
    ensures n <= m && High(u, m - n) == v
  {
    PrefixNumber(u, m, n);
    DivBelow(u, m, n);
    assert BitsOf(v, n) == BitsOf(u, m)[..n];
    BitsInjective(v, High(u, m - n), n);
  }

  /** Drawn out to 30 bits, a word begins within any start of it. */
  lemma Scale(v: nat, n: nat, u: nat, m: nat)
    requires n <= m <= 30 && High(u, m - n) == v
    ensures v * Pow2(30 - n) <= u * Pow2(30 - m) < v * Pow2(30 - n) + Pow2(30 - n)
  {
    PowAdd(m - n, 30 - m);
    ScaleBy(v, u, Pow2(m - n), Pow2(30 - m));
  }

  lemma ScaleBy(v: nat, u: nat, a: nat, b: nat)
    requires a > 0 && b > 0 && Quotient(u, a) == v
    ensures v * (a * b) <= u * b < v * (a * b) + a * b
  {
    var r := u % a;
    assert u == a * v + r;
    assert u * b == v * (a * b) + r * b;
    assert r * b < a * b;
  }

  // What a tiling shows.

  /** Where the word of c stands. */
  lemma PlaceOf(t: Table, g: Tiling, c: byte) returns (k: nat)
    requires Tiled(t, g)
    ensures k == g.place(c) < 256 && g.at(k) == c && 5 <= t(c).length <= 30
    ensures g.left(k) == t(c).value * Pow2(30 - t(c).length) && g.left(k + 1) == g.left(k) + Pow2(30 - t(c).length)
    ensures g.left(k + 1) <= g.left(256)
  {
    k := g.place(c);
    assert TileOk(t, g, k);
    if k < 255 {
      LeftGrows(t, g, k, 256);
    }
  }

  lemma Cancel(v: nat, a: nat, b: nat)
    requires b > 0 && v * b + b <= a * b
    ensures v < a
  {
    var d := a - v - 1;
    assert d * b == a * b - v * b - b;
    assert d < 0 ==> d * b < 0;
  }

  lemma ValueFits(t: Table, g: Tiling, c: byte)
    requires Tiled(t, g)
    ensures 5 <= t(c).length <= 30 && t(c).value < Pow2(t(c).length)
  {
    var k := PlaceOf(t, g, c);
    var n := t(c).length;
    PowAdd(n, 30 - n);
    Cancel(t(c).value, Pow2(n), Pow2(30 - n));
  }

  lemma NoneStartsAnother(t: Table, g: Tiling, c: byte, d: byte)
    requires Tiled(t, g) && Code(t, c) <= Code(t, d)
    ensures c == d
  {
    var j := PlaceOf(t, g, c);
    var k := PlaceOf(t, g, d);
    ValueFits(t, g, c);
    ValueFits(t, g, d);
    PrefixSplits(t(c).value, t(c).length, t(d).value, t(d).length);
    Scale(t(c).value, t(c).length, t(d).value, t(d).length);
    assert g.left(j) <= g.left(k) < g.left(j + 1);
    if j < k {
      LeftGrows(t, g, j, k);
    } else if k < j {
      LeftGrows(t, g, k, j);
    }
  }

  lemma Unscale(x: nat, v: nat, a: nat, b: nat)
    requires a > 0 && b > 0 && x * (a * b) <= v * b < x * (a * b) + a * b
    ensures Quotient(v, a) == x
  {
    assert x * (a * b) == (x * a) * b;
    assert x * a <= v by {
      var d := v - x * a;
      assert d * b == v * b - (x * a) * b;
      assert d < 0 ==> d * b < 0;
    }
    var r := v - x * a;
    assert r < a by {
      var d := a - r;
      assert r * b == v * b - (x * a) * b;
      assert d * b == a * b - r * b;
      assert d <= 0 ==> d * b <= 0;
    }
    ModIs(v, a, x, r);
  }

  /** The word that covers the begin of a start v, if it is no longer, is a start of v. */
  lemma CoverShort(x: nat, l: nat, v: nat, n: nat)
    requires l <= n <= 30 && x * Pow2(30 - l) <= v * Pow2(30 - n) < x * Pow2(30 - l) + Pow2(30 - l)
    ensures BitsOf(x, l) <= BitsOf(v, n)
  {
    PowAdd(n - l, 30 - n);
    Unscale(x, v, Pow2(n - l), Pow2(30 - n));
    PrefixNumber(v, n, l);
  }

  lemma CoverIsLonger(t: Table, g: Tiling, v: nat, n: nat, c: byte, k: nat, p: nat)
    requires Tiled(t, g) && k < 256 && n < t(c).length <= 30 && BitsOf(v, n) == Code(t, c)[..n]
    requires p == v * Pow2(30 - n) && g.left(k) <= p < g.left(k + 1)
    ensures t(g.at(k)).length > n
  {
    var d := g.at(k);
    assert TileOk(t, g, k);
    if t(d).length <= n {
      CoverShort(t(d).value, t(d).length, v, n);
      assert Code(t, d) <= Code(t, c);
      NoneStartsAnother(t, g, d, c);
    }
  }

  /** A word that begins exactly where a shorter start does goes on from it with zeros. */
  lemma GoesOnWithZero(x: nat, l: nat, v: nat, n: nat)
    requires n < l && x == v * Pow2(l - n)
    ensures BitsOf(v, n) + [false] <= BitsOf(x, l)
  {
    assert x == (2 * v) * Pow2(l - n - 1) + 0;
    BitsJoin(2 * v, 0, n + 1, l - n - 1);
    assert BitsOf(2 * v, n + 1) == BitsOf(v, n) + [false];
  }

  lemma SameLeft(x: nat, y: nat, b: nat)
    requires b > 0 && x * b <= y * b < x * b + b
    ensures x == y
  {
    var d := y - x;
    assert d * b == y * b - x * b;
    assert d < 0 ==> d * b < 0;
    assert d >= 1 ==> d * b >= b;
  }

  lemma TimesPower(v: nat, a: nat, b: nat)
    ensures Times(v, Pow2(a + b)) == Times(Times(v, Pow2(a)), Pow2(b))
  {
    PowAdd(a, b);
  }

  lemma LongerGoesOn(x: nat, l: nat, v: nat, n: nat)
    requires n < l <= 30 && Times(x, Pow2(30 - l)) <= Times(v, Pow2(30 - n)) < Times(x, Pow2(30 - l)) + Pow2(30 - l)
    ensures BitsOf(v, n) + [false] <= BitsOf(x, l)
  {
    assert Times(v, Pow2(30 - n)) == Times(Times(v, Pow2(l - n)), Pow2(30 - l)) by {
      TimesPower(v, l - n, 30 - l);
    }
    SameLeft(x, Times(v, Pow2(l - n)), Pow2(30 - l));
    GoesOnWithZero(x, l, v, n);
  }

  /** Any proper start of a word goes on with a zero. */
  lemma ZeroGoesOn(t: Table, g: Tiling, w: seq<bool>, c: byte)
    requires Tiled(t, g) && w < Code(t, c)
    ensures Starts(t, w + [false])
  {
    var n, m, u := |w|, t(c).length, t(c).value;
    ValueFits(t, g, c);
    var v := High(u, m - n);
    PrefixNumber(u, m, n);
    var j := PlaceOf(t, g, c);
    Scale(v, n, u, m);
    var k := Cover(t, g, Times(v, Pow2(30 - n)), 256);
    CoverGoesOn(t, g, w, v, n, c, k);
  }

  lemma CoverGoesOn(t: Table, g: Tiling, w: seq<bool>, v: nat, n: nat, c: byte, k: nat)
    requires Tiled(t, g) && k < 256 && n < t(c).length <= 30 && w == BitsOf(v, n) == Code(t, c)[..n]
    requires g.left(k) <= Times(v, Pow2(30 - n)) < g.left(k + 1)
    ensures Starts(t, w + [false])
  {
    CoverIsLonger(t, g, v, n, c, k, Times(v, Pow2(30 - n)));
    assert TileOk(t, g, k);
    var d := g.at(k);
    LongerGoesOn(t(d).value, t(d).length, v, n);
    assert w + [false] <= Code(t, d);
  }

  /** A tiled code has the shape that the coder needs. */
  lemma TiledIsShaped(t: Table, g: Tiling, c: byte)
    requires Tiled(t, g) && Ones(7) < Code(t, c)
    ensures Shaped(t)
  {
    forall c: byte ensures 5 <= t(c).length <= 30 && t(c).value < Pow2(t(c).length) {
      ValueFits(t, g, c);
    }
    forall c: byte, d: byte | Code(t, c) <= Code(t, d) ensures c == d {
      NoneStartsAnother(t, g, c, d);
    }
    forall w | Proper(t, w) ensures Starts(t, w + [false]) {
      var c: byte :| w < Code(t, c);
      ZeroGoesOn(t, g, w, c);
    }
  }
}
