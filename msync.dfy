/** The page rounding of TRI_msync (arangod/VocBase/vocbase.c): the flushed
    region is widened to whole pages, computed in `uintptr_t` arithmetic. */
module PageAlign {

  /** 2^64: `uintptr_t` arithmetic wraps modulo this value. */
  const WordRange: nat := 0x1_0000_0000_0000_0000

  /** The region handed to TRI_FlushMMFile: start address and length. */
  datatype FlushRegion = FlushRegion(start: nat, length: int)

  /** `(x / g) * g`: the page boundary at or below `x`. */
  function RoundDown(x: nat, g: nat): (r: nat)
    requires 0 < g
    ensures r % g == 0 && r <= x < r + g
  {
    FloorBounds(x, g);
    MultipleMod(x / g, g);
    (x / g) * g
  }

  /** `b = (p / g) * g` and `e = ((q + g - 1) / g) * g` with the sum taken
      modulo 2^64; the length is `e - b`. */
  function MsyncRegion(begin: nat, end: nat, pageSize: nat): (r: FlushRegion)
    requires begin < WordRange && end < WordRange && 0 < pageSize < WordRange
    ensures r.start % pageSize == 0
    ensures r.start <= begin < r.start + pageSize
  {
    var b := RoundDown(begin, pageSize);
    var e := RoundDown((end + pageSize - 1) % WordRange, pageSize);
    FlushRegion(b, e - b)
  }

  /** The flush starts at the last page boundary at or before `begin`. */
  lemma StartIsLastBoundaryBefore(begin: nat, end: nat, pageSize: nat, m: nat)
    requires begin < WordRange && end < WordRange && 0 < pageSize < WordRange
    requires m % pageSize == 0 && m <= begin
    ensures m <= MsyncRegion(begin, end, pageSize).start
  {
    var b := MsyncRegion(begin, end, pageSize).start;
    if b < m {
      MultiplesAreSpaced(m, b, pageSize);
    }
  }

  /** When `end + pageSize - 1` does not wrap, the flush ends at the first page
      boundary at or after `end`: every byte of `[begin, end)` is covered by
      whole pages, and no further page is added. */
  lemma EndIsFirstBoundaryAfter(begin: nat, end: nat, pageSize: nat, m: nat)
    requires begin < WordRange && end < WordRange && 0 < pageSize < WordRange
    requires end + pageSize - 1 < WordRange
    ensures var r := MsyncRegion(begin, end, pageSize);
            var e := r.start + r.length;
            e % pageSize == 0 && end <= e < end + pageSize
            && (m % pageSize == 0 && end <= m ==> e <= m)
  {
    var r := MsyncRegion(begin, end, pageSize);
    var e := r.start + r.length;
    assert e == RoundDown(end + pageSize - 1, pageSize);
    if m % pageSize == 0 && end <= m && m < e {
      MultiplesAreSpaced(e, m, pageSize);
    }
  }

  /** Without wrap-around the region starts at or before `begin`, ends at or
      after `end`, and its length is a whole number of pages. */
  lemma RegionIsWholePages(begin: nat, end: nat, pageSize: nat)
    requires begin < WordRange && end < WordRange && 0 < pageSize < WordRange
    requires begin <= end && end + pageSize - 1 < WordRange
    ensures var r := MsyncRegion(begin, end, pageSize);
            r.length >= 0 && r.length % pageSize == 0 && r.start + r.length >= end
  {
    var r := MsyncRegion(begin, end, pageSize);
    EndIsFirstBoundaryAfter(begin, end, pageSize, 0);
    DifferenceOfMultiples(r.start + r.length, r.start, pageSize);
  }

  /** The distance between two multiples of `g` is a multiple of `g`. */
  lemma DifferenceOfMultiples(a: nat, b: nat, g: nat)
    requires 0 < g && a % g == 0 && b % g == 0 && b <= a
    ensures (a - b) % g == 0
  {
    var ka := a / g;
    var kb := b / g;
    assert a == ka * g;
    assert b == kb * g;
    if ka < kb {
      MulMono(ka, kb, g);
    }
    assert a - b == (ka - kb) * g;
    MultipleMod(ka - kb, g);
  }

  lemma MulMono(x: int, y: int, g: nat)
    requires x <= y
    ensures x * g <= y * g
  {
    assert y * g - x * g == (y - x) * g;
  }

  lemma FloorBounds(x: nat, g: nat)
    requires 0 < g
    ensures (x / g) * g <= x < (x / g) * g + g
  {
    assert x == (x / g) * g + x % g;
  }

  lemma MultipleMod(k: nat, g: nat)
    requires 0 < g
    ensures (k * g) % g == 0 && (k * g) / g == k
  {
    var x := k * g;
    var q := x / g;
    var r := x % g;
    assert x == q * g + r;
    assert (k - q) * g == r;
    if k - q >= 1 { MulMono(1, k - q, g); }
    if k - q <= -1 { MulMono(k - q, -1, g); }
  }

  /** Two distinct multiples of `g` are at least `g` apart. */
  lemma MultiplesAreSpaced(a: nat, b: nat, g: nat)
    requires 0 < g && a % g == 0 && b % g == 0
    requires b < a
    ensures a >= b + g
  {
    var ka := a / g;
    var kb := b / g;
    assert a == ka * g + a % g;
    assert b == kb * g + b % g;
    if ka <= kb {
      MulMono(ka, kb, g);
    }
    MulMono(kb + 1, ka, g);
    assert (kb + 1) * g == kb * g + g;
  }
}
