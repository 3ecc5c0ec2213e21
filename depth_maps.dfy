/**
 * The single-channel depth image, the pixels the exporter keeps (depth > 0)
 * in the order it visits them, their number, the min/max statistics over
 * the whole buffer and the depth normalisation used for colouring.
 */
module DepthMaps {

  /** A width x height depth image; rows[y][x] is the depth of pixel (x, y). */
  datatype DepthMap = DepthMap(width: nat, height: nat, rows: seq<seq<real>>)
  {
    /** The buffer is rectangular and matches its declared size. */
    predicate Valid()
    {
      |rows| == height && forall y :: 0 <= y < |rows| ==> |rows[y]| == width
    }
  }

  /** The skip test of both scans: a depth <= 0 means "no estimate". */
  predicate Skipped(d: real)
  {
    d <= 0.0
  }

  /** One pixel of the image, with its coordinates and its depth. */
  datatype Pixel = Pixel(x: nat, y: nat, depth: real)

  /** p is a pixel of m, carries m's depth there, and that depth is not skipped. */
  predicate IsValidPixel(m: DepthMap, p: Pixel)
    requires m.Valid()
  {
    p.y < m.height && p.x < m.width && p.depth == m.rows[p.y][p.x] && !Skipped(p.depth)
  }

  /** The valid pixels of row y with x < xEnd, in the order x = 0, 1, ... */
  function RowValidPixels(m: DepthMap, y: nat, xEnd: nat): seq<Pixel>
    requires m.Valid() && y < m.height && xEnd <= m.width
  {
    if xEnd == 0 then []
    else
      var d := m.rows[y][xEnd - 1];
      RowValidPixels(m, y, xEnd - 1) + (if Skipped(d) then [] else [Pixel(xEnd - 1, y, d)])
  }

  /** The valid pixels of the rows y < yEnd, row after row. */
  function ValidPixelsBefore(m: DepthMap, yEnd: nat): seq<Pixel>
    requires m.Valid() && yEnd <= m.height
  {
    if yEnd == 0 then []
    else ValidPixelsBefore(m, yEnd - 1) + RowValidPixels(m, yEnd - 1, m.width)
  }

  /** The valid pixels of the image in the exporter's scan order (y outer, x inner). */
  function ValidPixels(m: DepthMap): seq<Pixel>
    requires m.Valid()
  {
    ValidPixelsBefore(m, m.height)
  }

  /** (x, y) comes strictly before (x', y') in a row-major scan. */
  predicate ScanBefore(p: Pixel, q: Pixel)
  {
    p.y < q.y || (p.y == q.y && p.x < q.x)
  }

  predicate RowMajor(ps: seq<Pixel>)
  {
    forall i, j :: 0 <= i < j < |ps| ==> ScanBefore(ps[i], ps[j])
  }

  // ---------------------------------------------------------------------
  // Which pixels the scan keeps, and in which order

  lemma {:induction false} RowValidPixelsMembers(m: DepthMap, y: nat, xEnd: nat)
    requires m.Valid() && y < m.height && xEnd <= m.width
    ensures forall p :: p in RowValidPixels(m, y, xEnd) <==> IsValidPixel(m, p) && p.y == y && p.x < xEnd
  {
    if xEnd > 0 {
      RowValidPixelsMembers(m, y, xEnd - 1);
    }
  }

  lemma {:induction false} ValidPixelsBeforeMembers(m: DepthMap, yEnd: nat)
    requires m.Valid() && yEnd <= m.height
    ensures forall p :: p in ValidPixelsBefore(m, yEnd) <==> IsValidPixel(m, p) && p.y < yEnd
  {
    if yEnd > 0 {
      ValidPixelsBeforeMembers(m, yEnd - 1);
      RowValidPixelsMembers(m, yEnd - 1, m.width);
    }
  }

  /** A pixel is in the scan exactly when it lies in the image and its depth is > 0. */
  lemma ValidPixelsExact(m: DepthMap)
    requires m.Valid()
    ensures forall p :: p in ValidPixels(m) <==> IsValidPixel(m, p)
  {
    ValidPixelsBeforeMembers(m, m.height);
  }

  lemma RowMajorConcat(a: seq<Pixel>, b: seq<Pixel>)
    requires RowMajor(a) && RowMajor(b)
    requires forall p, q :: p in a && q in b ==> ScanBefore(p, q)
    ensures RowMajor(a + b)
  {
    forall i, j | 0 <= i < j < |a + b|
      ensures ScanBefore((a + b)[i], (a + b)[j])
    {
      if j < |a| {
        assert (a + b)[i] == a[i] && (a + b)[j] == a[j];
      } else if i >= |a| {
        assert (a + b)[i] == b[i - |a|] && (a + b)[j] == b[j - |a|];
      } else {
        assert (a + b)[i] in a && (a + b)[j] in b;
      }
    }
  }

  lemma {:induction false} RowValidPixelsOrdered(m: DepthMap, y: nat, xEnd: nat)
    requires m.Valid() && y < m.height && xEnd <= m.width
    ensures RowMajor(RowValidPixels(m, y, xEnd))
  {
    if xEnd > 0 {
      var d := m.rows[y][xEnd - 1];
      RowValidPixelsOrdered(m, y, xEnd - 1);
      RowValidPixelsMembers(m, y, xEnd - 1);
      RowMajorConcat(RowValidPixels(m, y, xEnd - 1), if Skipped(d) then [] else [Pixel(xEnd - 1, y, d)]);
    }
  }

  lemma {:induction false} ValidPixelsBeforeOrdered(m: DepthMap, yEnd: nat)
    requires m.Valid() && yEnd <= m.height
    ensures RowMajor(ValidPixelsBefore(m, yEnd))
  {
    if yEnd > 0 {
      ValidPixelsBeforeOrdered(m, yEnd - 1);
      ValidPixelsBeforeMembers(m, yEnd - 1);
      RowValidPixelsOrdered(m, yEnd - 1, m.width);
      RowValidPixelsMembers(m, yEnd - 1, m.width);
      RowMajorConcat(ValidPixelsBefore(m, yEnd - 1), RowValidPixels(m, yEnd - 1, m.width));
    }
  }

  /** The scan visits the valid pixels in strictly increasing row-major order. */
  lemma ValidPixelsOrdered(m: DepthMap)
    requires m.Valid()
    ensures RowMajor(ValidPixels(m))
    ensures forall i, j :: 0 <= i < j < |ValidPixels(m)| ==> ValidPixels(m)[i] != ValidPixels(m)[j]
  {
    ValidPixelsBeforeOrdered(m, m.height);
  }

  // ---------------------------------------------------------------------
  // The number of valid pixels, counted independently of the scan

  /** The number of entries of a row that are not skipped. */
  function CountPositive(row: seq<real>): nat
  {
    if row == [] then 0 else (if Skipped(row[0]) then 0 else 1) + CountPositive(row[1..])
  }

  function CountRows(rows: seq<seq<real>>): nat
  {
    if rows == [] then 0 else CountPositive(rows[0]) + CountRows(rows[1..])
  }

  /** The number of pixels of the image with depth > 0. */
  function CountValid(m: DepthMap): nat
  {
    CountRows(m.rows)
  }

  lemma {:induction false} CountPositiveSnoc(row: seq<real>, d: real)
    ensures CountPositive(row + [d]) == CountPositive(row) + (if Skipped(d) then 0 else 1)
  {
    if row != [] {
      assert (row + [d])[1..] == row[1..] + [d];
      CountPositiveSnoc(row[1..], d);
    }
  }

  lemma {:induction false} CountRowsSnoc(rows: seq<seq<real>>, row: seq<real>)
    ensures CountRows(rows + [row]) == CountRows(rows) + CountPositive(row)
  {
    if rows != [] {
      assert (rows + [row])[1..] == rows[1..] + [row];
      CountRowsSnoc(rows[1..], row);
    }
  }

  lemma {:induction false} RowValidPixelsCount(m: DepthMap, y: nat, xEnd: nat)
    requires m.Valid() && y < m.height && xEnd <= m.width
    ensures |RowValidPixels(m, y, xEnd)| == CountPositive(m.rows[y][..xEnd])
  {
    if xEnd == 0 {
      assert m.rows[y][..0] == [];
    } else {
      RowValidPixelsCount(m, y, xEnd - 1);
      assert m.rows[y][..xEnd] == m.rows[y][..xEnd - 1] + [m.rows[y][xEnd - 1]];
      CountPositiveSnoc(m.rows[y][..xEnd - 1], m.rows[y][xEnd - 1]);
    }
  }

  lemma {:induction false} ValidPixelsBeforeCount(m: DepthMap, yEnd: nat)
    requires m.Valid() && yEnd <= m.height
    ensures |ValidPixelsBefore(m, yEnd)| == CountRows(m.rows[..yEnd])
  {
    if yEnd == 0 {
      assert m.rows[..0] == [];
    } else {
      ValidPixelsBeforeCount(m, yEnd - 1);
      RowValidPixelsCount(m, yEnd - 1, m.width);
      assert m.rows[..yEnd] == m.rows[..yEnd - 1] + [m.rows[yEnd - 1]];
      assert m.rows[yEnd - 1][..m.width] == m.rows[yEnd - 1];
      CountRowsSnoc(m.rows[..yEnd - 1], m.rows[yEnd - 1]);
    }
  }

  /** The count pass and the write pass agree: as many pixels are counted as are scanned. */
  lemma CountValidIsScanLength(m: DepthMap)
    requires m.Valid()
    ensures CountValid(m) == |ValidPixels(m)|
  {
    ValidPixelsBeforeCount(m, m.height);
    assert m.rows[..m.height] == m.rows;
  }

  lemma {:induction false} CountPositiveAllSkipped(row: seq<real>)
    requires forall x :: 0 <= x < |row| ==> Skipped(row[x])
    ensures CountPositive(row) == 0
  {
    if row != [] {
      assert Skipped(row[0]);
      CountPositiveAllSkipped(row[1..]);
    }
  }

  lemma {:induction false} CountRowsAllSkipped(rows: seq<seq<real>>)
    requires forall y, x :: 0 <= y < |rows| && 0 <= x < |rows[y]| ==> Skipped(rows[y][x])
    ensures CountRows(rows) == 0
  {
    if rows != [] {
      CountPositiveAllSkipped(rows[0]);
      assert forall y, x :: 0 <= y < |rows[1..]| && 0 <= x < |rows[1..][y]| ==> rows[1..][y][x] == rows[y + 1][x];
      CountRowsAllSkipped(rows[1..]);
    }
  }

  /** An image without a single depth > 0 has no valid pixel. */
  lemma AllSkippedHasNoValidPixel(m: DepthMap)
    requires m.Valid()
    requires forall y, x :: 0 <= y < m.height && 0 <= x < m.width ==> Skipped(m.rows[y][x])
    ensures ValidPixels(m) == [] && CountValid(m) == 0
  {
    CountRowsAllSkipped(m.rows);
    CountValidIsScanLength(m);
  }

  // ---------------------------------------------------------------------
  // Pixel statistics over the whole buffer, sentinels included

  datatype DepthStats = DepthStats(min: real, max: real)

  /** The rows of the image, concatenated. */
  function Flatten(rows: seq<seq<real>>): seq<real>
  {
    if rows == [] then [] else rows[0] + Flatten(rows[1..])
  }

  lemma {:induction false} FlattenMembers(rows: seq<seq<real>>)
    ensures forall y, x :: 0 <= y < |rows| && 0 <= x < |rows[y]| ==> rows[y][x] in Flatten(rows)
    ensures forall v :: v in Flatten(rows) ==> exists y, x :: 0 <= y < |rows| && 0 <= x < |rows[y]| && rows[y][x] == v
  {
    if rows != [] {
      FlattenMembers(rows[1..]);
      forall y, x | 0 <= y < |rows| && 0 <= x < |rows[y]|
        ensures rows[y][x] in Flatten(rows)
      {
        if y > 0 {
          assert rows[y] == rows[1..][y - 1];
        }
      }
      forall v | v in Flatten(rows)
        ensures exists y, x :: 0 <= y < |rows| && 0 <= x < |rows[y]| && rows[y][x] == v
      {
        if v in rows[0] {
          var x :| 0 <= x < |rows[0]| && rows[0][x] == v;
          assert rows[0][x] == v;
        } else {
          assert v in Flatten(rows[1..]);
          var y, x :| 0 <= y < |rows[1..]| && 0 <= x < |rows[1..][y]| && rows[1..][y][x] == v;
          assert rows[y + 1][x] == v;
        }
      }
    }
  }

  lemma {:induction false} FlattenLength(rows: seq<seq<real>>, width: nat)
    requires forall y :: 0 <= y < |rows| ==> |rows[y]| == width
    ensures |Flatten(rows)| == |rows| * width
  {
    if rows != [] {
      FlattenLength(rows[1..], width);
    }
  }

  /** The least value of a non-empty sequence. */
  function MinOf(s: seq<real>): (r: real)
    requires |s| > 0
    ensures r in s
    ensures forall i :: 0 <= i < |s| ==> r <= s[i]
  {
    if |s| == 1 then s[0]
    else
      var rest := MinOf(s[1..]);
      if s[0] <= rest then s[0] else rest
  }

  /** The greatest value of a non-empty sequence. */
  function MaxOf(s: seq<real>): (r: real)
    requires |s| > 0
    ensures r in s
    ensures forall i :: 0 <= i < |s| ==> s[i] <= r
  {
    if |s| == 1 then s[0]
    else
      var rest := MaxOf(s[1..]);
      if s[0] >= rest then s[0] else rest
  }

  /**
   * The minimum and maximum over every pixel of the buffer, sentinel values
   * included. An image without pixels gets zero for both; no vertex reads them.
   */
  function PixelStats(m: DepthMap): (s: DepthStats)
    requires m.Valid()
    ensures m.width > 0 && m.height > 0 ==>
              (forall y, x :: 0 <= y < m.height && 0 <= x < m.width ==> s.min <= m.rows[y][x] <= s.max)
    ensures m.width > 0 && m.height > 0 ==>
              (exists y, x :: 0 <= y < m.height && 0 <= x < m.width && m.rows[y][x] == s.min)
    ensures m.width > 0 && m.height > 0 ==>
              (exists y, x :: 0 <= y < m.height && 0 <= x < m.width && m.rows[y][x] == s.max)
  {
    var all := Flatten(m.rows);
    FlattenMembers(m.rows);
    FlattenLength(m.rows, m.width);
    if |all| == 0 then DepthStats(0.0, 0.0)
    else DepthStats(MinOf(all), MaxOf(all))
  }

  /** The depth mapped to the colour scale: (d - min) / (max - min), or 1 when the range is 0. */
  function NormalizedDepth(d: real, s: DepthStats): real
  {
    var range := s.max - s.min;
    if range != 0.0 then (d - s.min) / range else 1.0
  }

  lemma NormalizedDepthBounds(d: real, s: DepthStats)
    requires s.min <= d <= s.max
    ensures s.max - s.min != 0.0 ==> 0.0 <= NormalizedDepth(d, s) <= 1.0
    ensures d == s.max ==> NormalizedDepth(d, s) == 1.0
    ensures s.max - s.min == 0.0 ==> NormalizedDepth(d, s) == 1.0
  {
    var range := s.max - s.min;
    if range != 0.0 {
      assert range > 0.0;
      assert 0.0 <= d - s.min <= range;
      assert (d - s.min) / range <= range / range;
    }
  }

  /**
   * Every valid pixel of the scan normalises into [0, 1] against the image's
   * statistics when the range is not zero, and to exactly 1 when it is.
   */
  lemma ValidPixelNormalizedInUnitInterval(m: DepthMap, p: Pixel)
    requires m.Valid() && p in ValidPixels(m)
    ensures PixelStats(m).min <= p.depth <= PixelStats(m).max
    ensures PixelStats(m).max - PixelStats(m).min != 0.0 ==> 0.0 <= NormalizedDepth(p.depth, PixelStats(m)) <= 1.0
    ensures PixelStats(m).max - PixelStats(m).min == 0.0 ==> NormalizedDepth(p.depth, PixelStats(m)) == 1.0
  {
    ValidPixelsExact(m);
    assert IsValidPixel(m, p);
    assert m.rows[p.y][p.x] == p.depth;
    NormalizedDepthBounds(p.depth, PixelStats(m));
  }

  /**
   * When every valid pixel holds the same depth c, the buffer maximum is c
   * (sentinels are <= 0 < c), so every valid pixel normalises to 1.
   */
  lemma EqualValidDepthsNormalizeToOne(m: DepthMap, c: real, p: Pixel)
    requires m.Valid()
    requires forall y, x :: 0 <= y < m.height && 0 <= x < m.width && !Skipped(m.rows[y][x]) ==> m.rows[y][x] == c
    requires p in ValidPixels(m)
    ensures NormalizedDepth(p.depth, PixelStats(m)) == 1.0
  {
    ValidPixelsExact(m);
    assert IsValidPixel(m, p);
    assert m.rows[p.y][p.x] == p.depth == c;
    var s := PixelStats(m);
    var y2, x2 :| 0 <= y2 < m.height && 0 <= x2 < m.width && m.rows[y2][x2] == s.max;
    assert s.max >= p.depth;
    assert !Skipped(m.rows[y2][x2]);
    assert s.max == c;
    NormalizedDepthBounds(p.depth, s);
  }
}
