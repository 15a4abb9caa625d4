/** Go's 64-bit integers and its zero time. */
module FixedWidth {

  const TWO_63: int := 0x8000_0000_0000_0000
  const TWO_64: int := 0x1_0000_0000_0000_0000

  /** Go's zero time, in nanoseconds from the Unix epoch. */
  const ZERO_TIME: int := -62135596800 * 1_000_000_000

  /** What an int64 keeps of a mathematical integer. */
  function Wrap64(x: int): (r: int)
    ensures -TWO_63 <= r < TWO_63 && (r - x) % TWO_64 == 0
    ensures -TWO_63 <= x < TWO_63 ==> r == x
  {
    (x + TWO_63) % TWO_64 - TWO_63
  }

  predicate Int64(x: int) { -TWO_63 <= x < TWO_63 }

  /** Multiplying before or after wrapping gives the same int64. */
  lemma WrapProduct(a: int, b: int)
    ensures Wrap64(a * Wrap64(b)) == Wrap64(a * b)
  {
    var k := (Wrap64(b) - b) / TWO_64;
    assert Wrap64(b) == b + k * TWO_64;
    assert a * Wrap64(b) == a * b + (a * k) * TWO_64;
    WrapShift(a * b, a * k);
  }

  lemma WrapShift(x: int, k: int)
    ensures Wrap64(x + k * TWO_64) == Wrap64(x)
  {
    WrapUnique(Wrap64(x + k * TWO_64), Wrap64(x), x, k);
  }

  lemma WrapUnique(r: int, s: int, x: int, k: int)
    requires Int64(r) && Int64(s)
    requires (r - (x + k * TWO_64)) % TWO_64 == 0 && (s - x) % TWO_64 == 0
    ensures r == s
  {
    var i, j := (r - (x + k * TWO_64)) / TWO_64, (s - x) / TWO_64;
    assert r == x + (k + i) * TWO_64 && s == x + j * TWO_64;
    assert r - s == (k + i - j) * TWO_64;
  }
}
