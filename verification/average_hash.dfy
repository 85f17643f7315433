/**
 * The fingerprint half of `DuplicateDetector`: the bit emission of
 * `generateHash` over an already resized, already desaturated grid of gray
 * levels, and `hammingDistance` between two fingerprints.
 */
module AverageHash {
  import opened Wrappers

  /** One gray level, as read from one byte of the rendered bitmap. */
  type Byte = b: int | 0 <= b < 256

  /**
   * A fingerprint. Position `i` is `true` where the source emits the
   * character "1" and `false` where it emits "0". A failed fingerprint is
   * the empty string, here the empty sequence.
   */
  type Hash = seq<bool>

  /** A bitmap of `height` rows of `width` gray levels each. */
  datatype Bitmap = Bitmap(width: nat, height: nat, rows: seq<seq<Byte>>)

  predicate Rectangular(b: Bitmap) {
    |b.rows| == b.height && forall y :: 0 <= y < |b.rows| ==> |b.rows[y]| == b.width
  }

  /** The bitmaps a rendered image can produce: every row is `width` long. */
  type Grid = b: Bitmap | Rectangular(b) witness Bitmap(0, 0, [])

  /** Sum of a sequence of integers. */
  function Sum(s: seq<int>): int {
    if |s| == 0 then 0 else Sum(s[..|s| - 1]) + s[|s| - 1]
  }

  /** The rows laid end to end: row-major order. */
  function Flatten(rows: seq<seq<Byte>>): seq<Byte> {
    if |rows| == 0 then [] else Flatten(rows[..|rows| - 1]) + rows[|rows| - 1]
  }

  /**
   * Average-hash bit emission over pixels in scan order. The source compares
   * `p > total / count` in floating point; with exact arithmetic and a
   * positive count that is `count * p > total`.
   */
  function AverageBits(pixels: seq<int>): Hash {
    seq(|pixels|, i requires 0 <= i < |pixels| => |pixels| * pixels[i] > Sum(pixels))
  }

  /** The fingerprint of a grid: its pixels in row-major order, thresholded at the mean. */
  function GridHash(g: Grid): Hash {
    AverageBits(Flatten(g.rows))
  }

  /** The position of pixel (x, y) of a `w` by `h` grid in row-major order. */
  function RowMajor(w: nat, h: nat, y: nat, x: nat): (i: nat)
    requires y < h && x < w
    ensures i < w * h
  {
    MulMonotone(y, h - 1, w);
    y * w + x
  }

  lemma MulMonotone(a: nat, b: nat, w: nat)
    requires a <= b
    ensures a * w <= b * w && b * w + w == (b + 1) * w
  {
  }

  /** The sum of all gray levels of a grid. */
  function GridSum(g: Grid): int {
    Sum(Flatten(g.rows))
  }

  /**
   * The two nested loops of `generateHash`: the gray levels read row by row,
   * together with their running total.
   */
  method ReadPixels(g: Grid) returns (pixels: seq<Byte>, total: int)
    ensures pixels == Flatten(g.rows)
    ensures total == Sum(pixels)
  {
    total := 0;
    pixels := [];
    var y := 0;
    while y < g.height
      invariant 0 <= y <= g.height
      invariant pixels == Flatten(g.rows[..y])
      invariant total == Sum(pixels)
    {
      pixels, total := ReadRow(pixels, total, g.rows[y]);
      assert g.rows[..y + 1][..y] == g.rows[..y];
      y := y + 1;
    }
    assert g.rows[..y] == g.rows;
  }

  /** The inner loop of the pixel scan: one row appended, left to right, to the pixels read so far. */
  method ReadRow(prefix: seq<Byte>, sum: int, row: seq<Byte>) returns (pixels: seq<Byte>, total: int)
    requires sum == Sum(prefix)
    ensures pixels == prefix + row
    ensures total == Sum(pixels)
  {
    pixels, total := prefix, sum;
    var x := 0;
    while x < |row|
      invariant 0 <= x <= |row|
      invariant pixels == prefix + row[..x]
      invariant total == Sum(pixels)
    {
      var gray := row[x];
      assert (pixels + [gray])[..|pixels|] == pixels;
      total := total + gray;
      pixels := pixels + [gray];
      assert row[..x + 1] == row[..x] + [gray];
      x := x + 1;
    }
    assert row[..x] == row;
  }

  /**
   * `generateHash` from the grayscale bitmap on: the pixels are read in
   * row-major order and each is mapped to "1" when it is strictly above the
   * mean, "0" otherwise.
   */
  method GenerateHash(g: Grid) returns (hash: Hash)
    ensures |hash| == g.width * g.height
    ensures forall y, x :: 0 <= y < g.height && 0 <= x < g.width ==>
      (hash[RowMajor(g.width, g.height, y, x)] <==> g.width * g.height * g.rows[y][x] > GridSum(g))
    ensures hash == GridHash(g)
  {
    var pixels, total := ReadPixels(g);
    hash := seq(|pixels|, i requires 0 <= i < |pixels| => |pixels| * pixels[i] > total);
    assert hash == AverageBits(pixels) by {
      forall i | 0 <= i < |pixels|
        ensures hash[i] == AverageBits(pixels)[i]
      {
      }
    }
    GridHashBits(g);
  }

  /**
   * The fingerprint of a `width` by `height` grid has `width * height`
   * symbols, and the symbol for pixel (x, y) is "1" exactly when that pixel
   * is strictly above the mean gray level.
   */
  lemma GridHashBits(g: Grid)
    ensures |GridHash(g)| == g.width * g.height
    ensures forall y, x :: 0 <= y < g.height && 0 <= x < g.width ==>
      (GridHash(g)[RowMajor(g.width, g.height, y, x)] <==> g.width * g.height * g.rows[y][x] > GridSum(g))
  {
    var p := Flatten(g.rows);
    FlattenIndex(g.rows, g.width);
    var n := g.width * g.height;
    forall y, x | 0 <= y < g.height && 0 <= x < g.width
      ensures GridHash(g)[RowMajor(g.width, g.height, y, x)] <==> n * g.rows[y][x] > GridSum(g)
    {
      var i := RowMajor(g.width, g.height, y, x);
      assert p[i] == g.rows[y][x];
      assert GridHash(g)[i] <==> |p| * p[i] > Sum(p);
    }
  }

  /** Row-major layout: pixel (x, y) of a `w`-wide grid sits at `y * w + x`. */
  lemma {:induction false} FlattenIndex(rows: seq<seq<Byte>>, w: nat)
    requires forall y :: 0 <= y < |rows| ==> |rows[y]| == w
    ensures |Flatten(rows)| == |rows| * w
    ensures forall y, x :: 0 <= y < |rows| && 0 <= x < w ==> Flatten(rows)[RowMajor(w, |rows|, y, x)] == rows[y][x]
  {
    if |rows| > 0 {
      var n := |rows| - 1;
      var pre := Flatten(rows[..n]);
      FlattenIndex(rows[..n], w);
      assert Flatten(rows) == pre + rows[n];
      assert |rows| * w == n * w + w;
      forall y, x | 0 <= y < |rows| && 0 <= x < w
        ensures Flatten(rows)[RowMajor(w, |rows|, y, x)] == rows[y][x]
      {
        var i := RowMajor(w, |rows|, y, x);
        if y < n {
          assert i == RowMajor(w, n, y, x);
          assert rows[..n][y] == rows[y];
        } else {
          assert i == |pre| + x;
        }
      }
    }
  }

  /** If every pixel, scaled by `c`, exceeds `s`, so does the scaled sum exceed `|p| * s`. */
  lemma {:induction false} ScaledSumExceeds(p: seq<int>, c: int, s: int)
    requires |p| > 0
    requires forall i :: 0 <= i < |p| ==> c * p[i] > s
    ensures c * Sum(p) > |p| * s
  {
    var n := |p| - 1;
    if n > 0 {
      ScaledSumExceeds(p[..n], c, s);
    }
    assert c * Sum(p) == c * Sum(p[..n]) + c * p[n];
    assert |p| * s == n * s + s;
  }

  /** The sum of `|p|` copies of `c`. */
  lemma {:induction false} SumConstant(p: seq<int>, c: int)
    requires forall i :: 0 <= i < |p| ==> p[i] == c
    ensures Sum(p) == |p| * c
  {
    if |p| > 0 {
      var n := |p| - 1;
      SumConstant(p[..n], c);
      assert |p| * c == n * c + c;
    }
  }

  /**
   * Not every pixel can be strictly above the mean, so a non-empty grid
   * always has at least one "0" in its fingerprint.
   */
  lemma AverageBitsHasZero(pixels: seq<int>)
    requires |pixels| > 0
    ensures exists i :: 0 <= i < |pixels| && !AverageBits(pixels)[i]
  {
    var bits := AverageBits(pixels);
    if forall i :: 0 <= i < |pixels| ==> bits[i] {
      forall i | 0 <= i < |pixels|
        ensures |pixels| * pixels[i] > Sum(pixels)
      {
        assert bits[i];
      }
      ScaledSumExceeds(pixels, |pixels|, Sum(pixels));
    }
  }

  /** A grid with at least one pixel has a "0" somewhere in its fingerprint. */
  lemma GridHashHasZero(g: Grid)
    requires g.width > 0 && g.height > 0
    ensures |GridHash(g)| == g.width * g.height
    ensures exists i :: 0 <= i < |GridHash(g)| && !GridHash(g)[i]
  {
    FlattenIndex(g.rows, g.width);
    AverageBitsHasZero(Flatten(g.rows));
  }

  /** Laying out rows whose every entry is `c` gives a sequence of `c`s. */
  lemma {:induction false} FlattenConstant(rows: seq<seq<Byte>>, c: Byte)
    requires forall y, x :: 0 <= y < |rows| && 0 <= x < |rows[y]| ==> rows[y][x] == c
    ensures forall i :: 0 <= i < |Flatten(rows)| ==> Flatten(rows)[i] == c
  {
    if |rows| > 0 {
      FlattenConstant(rows[..|rows| - 1], c);
    }
  }

  /** A grid whose pixels are all the same gray level hashes to all zeros. */
  lemma ConstantGridHashesToZeros(g: Grid, c: Byte)
    requires forall y, x :: 0 <= y < g.height && 0 <= x < g.width ==> g.rows[y][x] == c
    ensures |GridHash(g)| == g.width * g.height
    ensures forall i :: 0 <= i < |GridHash(g)| ==> !GridHash(g)[i]
  {
    var p := Flatten(g.rows);
    FlattenIndex(g.rows, g.width);
    FlattenConstant(g.rows, c);
    SumConstant(p, c);
  }

  /**
   * `hammingDistance`: the number of positions where the two fingerprints
   * differ, counted only over their common prefix (Swift's `zip` stops at
   * the shorter string). Counting from the back gives the same number as the
   * source's front-to-back filter.
   */
  function Hamming(a: Hash, b: Hash): (d: nat)
    ensures d <= Min(|a|, |b|)
    decreases |a|
  {
    var n := Min(|a|, |b|);
    if n == 0 then 0
    else Hamming(a[..n - 1], b[..n - 1]) + (if a[n - 1] != b[n - 1] then 1 else 0)
  }

  /** Independent reference: the set of common-prefix positions where the fingerprints differ. */
  function Mismatches(a: Hash, b: Hash): set<nat> {
    set i: nat | i < |a| && i < |b| && a[i] != b[i]
  }

  lemma {:induction false} HammingCountsMismatches(a: Hash, b: Hash)
    ensures Hamming(a, b) == |Mismatches(a, b)|
    decreases |a|
  {
    var n := Min(|a|, |b|);
    if n == 0 {
      assert Mismatches(a, b) == {};
    } else {
      HammingCountsMismatches(a[..n - 1], b[..n - 1]);
      MismatchesLast(a, b);
    }
  }

  /** Splitting off the last common position. */
  lemma MismatchesLast(a: Hash, b: Hash)
    requires 0 < |a| && 0 < |b|
    ensures var n := Min(|a|, |b|);
      Mismatches(a, b) == Mismatches(a[..n - 1], b[..n - 1]) + (if a[n - 1] != b[n - 1] then {n - 1} else {})
  {
    var n := Min(|a|, |b|);
    var prev := Mismatches(a[..n - 1], b[..n - 1]);
    forall i: nat | i in Mismatches(a, b) && i < n - 1
      ensures i in prev
    {
      assert a[..n - 1][i] == a[i] && b[..n - 1][i] == b[i];
    }
    forall i: nat | i in prev
      ensures i in Mismatches(a, b)
    {
      assert a[..n - 1][i] == a[i] && b[..n - 1][i] == b[i];
    }
  }

  lemma HammingSymmetric(a: Hash, b: Hash)
    ensures Hamming(a, b) == Hamming(b, a)
  {
    HammingCountsMismatches(a, b);
    HammingCountsMismatches(b, a);
    assert Mismatches(a, b) == Mismatches(b, a);
  }

  /**
   * For fingerprints of the same length the distance is zero exactly when
   * they are equal; in particular every fingerprint is at distance zero
   * from itself.
   */
  lemma HammingZeroIffEqual(a: Hash, b: Hash)
    requires |a| == |b|
    ensures Hamming(a, b) == 0 <==> a == b
  {
    HammingCountsMismatches(a, b);
    if Hamming(a, b) == 0 {
      assert Mismatches(a, b) == {};
      assert forall i :: 0 <= i < |a| ==> a[i] == b[i] by {
        forall i | 0 <= i < |a| ensures a[i] == b[i] {
          assert i !in Mismatches(a, b);
        }
      }
    } else {
      var i :| i in Mismatches(a, b);
    }
  }

  lemma HammingSelf(a: Hash)
    ensures Hamming(a, a) == 0
  {
    HammingZeroIffEqual(a, a);
  }

  /** A failed fingerprint (the empty string) is at distance zero from every fingerprint. */
  lemma HammingEmpty(b: Hash)
    ensures Hamming([], b) == 0 && Hamming(b, []) == 0
  {
  }
}
