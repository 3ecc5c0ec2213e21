/**
 * The depth-map to PLY exporter: it reads the camera centre and inverse
 * projection from the image's metadata (aborting without output if either
 * is missing), counts the pixels with depth > 0, takes min/max over the
 * buffer, writes the header and then one vertex line per valid pixel in
 * row-major order, each holding the unprojected point and the jet colour of
 * the normalised depth.
 */
module ExportDepthMap {
  import opened Wrappers
  import opened MvsData
  import opened DepthMaps
  import opened Ply

  /** The two camera attributes the image may carry. */
  datatype Metadata = Metadata(cArr: Option<Point3>, iCamArr: Option<Matrix3>)

  /** A depth image as read from disk: its buffer and its attributes. */
  datatype DepthImage = DepthImage(depth: DepthMap, meta: Metadata)

  /** The camera centre and the inverse projection matrix. */
  datatype Camera = Camera(center: Point3, iCam: Matrix3)

  /**
   * The numerics whose definitions are not part of this model: the
   * normalisation of a direction to unit length and the jet colour map.
   */
  datatype Numerics = Numerics(normalize: Point3 -> Point3, jetColor: real -> Rgb)

  /** The point at distance d from the camera centre along the ray through pixel (x, y). */
  function Unproject(cam: Camera, num: Numerics, x: nat, y: nat, d: real): Point3
  {
    Add(cam.center, Scale(num.normalize(MulHomogeneous(cam.iCam, x as real, y as real)), d))
  }

  /** The vertex line written for a valid pixel. */
  function VertexFor(cam: Camera, stats: DepthStats, num: Numerics, p: Pixel): PlyLine
  {
    VertexLine(Unproject(cam, num, p.x, p.y, p.depth), num.jetColor(NormalizedDepth(p.depth, stats)))
  }

  /** The vertex line of each valid pixel, as a function of the pixel. */
  function VertexOf(cam: Camera, stats: DepthStats, num: Numerics): Pixel -> PlyLine
  {
    p => VertexFor(cam, stats, num, p)
  }

  /** The lines written for a sequence of pixels, one vertex line per pixel, in order. */
  function VertexLines(vertex: Pixel -> PlyLine, ps: seq<Pixel>): (ls: seq<PlyLine>)
    ensures |ls| == |ps|
  {
    if |ps| == 0 then []
    else VertexLines(vertex, ps[..|ps| - 1]) + [vertex(ps[|ps| - 1])]
  }

  /** The k-th line written for a sequence of pixels is the line of its k-th pixel. */
  lemma {:induction false} VertexLinesAt(vertex: Pixel -> PlyLine, ps: seq<Pixel>)
    ensures forall k :: 0 <= k < |ps| ==> VertexLines(vertex, ps)[k] == vertex(ps[k])
  {
    if ps != [] {
      VertexLinesAt(vertex, ps[..|ps| - 1]);
    }
  }

  /** One more pixel appends exactly its line. */
  lemma VertexLinesSnoc(vertex: Pixel -> PlyLine, ps: seq<Pixel>, p: Pixel)
    ensures VertexLines(vertex, ps + [p]) == VertexLines(vertex, ps) + [vertex(p)]
  {
    assert (ps + [p])[..|ps|] == ps;
  }

  /** The lines written for two runs of pixels are those of the first followed by those of the second. */
  lemma {:induction false} VertexLinesAppend(vertex: Pixel -> PlyLine, ps: seq<Pixel>, qs: seq<Pixel>)
    ensures VertexLines(vertex, ps + qs) == VertexLines(vertex, ps) + VertexLines(vertex, qs)
  {
    if qs == [] {
      assert ps + qs == ps;
    } else {
      var init := qs[..|qs| - 1];
      var last := qs[|qs| - 1];
      assert qs == init + [last];
      assert ps + qs == (ps + init) + [last];
      VertexLinesAppend(vertex, ps, init);
      VertexLinesSnoc(vertex, ps + init, last);
      VertexLinesSnoc(vertex, init, last);
    }
  }

  /** Appending to the stream regroups freely. */
  lemma AppendAssociative(a: seq<PlyLine>, b: seq<PlyLine>, c: seq<PlyLine>)
    ensures (a + b) + c == a + (b + c)
  {
  }

  /** Scanning one more pixel of a row appends its line, or nothing when its depth is skipped. */
  lemma VertexLinesNextPixel(vertex: Pixel -> PlyLine, m: DepthMap, y: nat, x: nat)
    requires m.Valid() && y < m.height && x < m.width
    ensures Skipped(m.rows[y][x]) ==> VertexLines(vertex, RowValidPixels(m, y, x + 1)) == VertexLines(vertex, RowValidPixels(m, y, x))
    ensures !Skipped(m.rows[y][x]) ==> VertexLines(vertex, RowValidPixels(m, y, x + 1))
                                        == VertexLines(vertex, RowValidPixels(m, y, x)) + [vertex(Pixel(x, y, m.rows[y][x]))]
  {
    if Skipped(m.rows[y][x]) {
      assert RowValidPixels(m, y, x + 1) == RowValidPixels(m, y, x) + [] == RowValidPixels(m, y, x);
    } else {
      VertexLinesSnoc(vertex, RowValidPixels(m, y, x), Pixel(x, y, m.rows[y][x]));
    }
  }

  /** Scanning one more row appends that row's vertex lines. */
  lemma VertexLinesNextRow(vertex: Pixel -> PlyLine, m: DepthMap, y: nat)
    requires m.Valid() && y < m.height
    ensures VertexLines(vertex, ValidPixelsBefore(m, y + 1))
            == VertexLines(vertex, ValidPixelsBefore(m, y)) + VertexLines(vertex, RowValidPixels(m, y, m.width))
  {
    VertexLinesAppend(vertex, ValidPixelsBefore(m, y), RowValidPixels(m, y, m.width));
  }

  /**
   * The file the exporter leaves behind: None when no file is created,
   * otherwise the header declaring the number of valid pixels followed by
   * their vertex lines in scan order.
   */
  function ExportedPly(img: DepthImage, num: Numerics): Option<seq<PlyLine>>
    requires img.depth.Valid()
  {
    match (img.meta.cArr, img.meta.iCamArr)
    case (Some(c), Some(iCam)) =>
      Some(PlyHeader(CountValid(img.depth))
           + VertexLines(VertexOf(Camera(c, iCam), PixelStats(img.depth), num), ValidPixels(img.depth)))
    case _ => None
  }

  /** The output stream, opened (and truncated) on construction; lines are appended. */
  class PlyFile {
    var lines: seq<PlyLine>

    constructor ()
      ensures lines == []
    {
      lines := [];
    }

    method WriteLine(line: PlyLine)
      modifies this
      ensures lines == old(lines) + [line]
    {
      lines := lines + [line];
    }
  }

  /** The first pass: the number of pixels whose depth is not skipped. */
  method CountValidPixels(m: DepthMap) returns (numPoints: nat)
    requires m.Valid()
    ensures numPoints == CountValid(m)
    ensures numPoints == |ValidPixels(m)|
  {
    numPoints := 0;
    var y := 0;
    while y < m.height
      invariant 0 <= y <= m.height
      invariant numPoints == CountRows(m.rows[..y])
    {
      var x := 0;
      while x < m.width
        invariant 0 <= x <= m.width
        invariant numPoints == CountRows(m.rows[..y]) + CountPositive(m.rows[y][..x])
      {
        var depthValue := m.rows[y][x];
        assert m.rows[y][..x + 1] == m.rows[y][..x] + [depthValue];
        CountPositiveSnoc(m.rows[y][..x], depthValue);
        if !Skipped(depthValue) {
          numPoints := numPoints + 1;
        }
        x := x + 1;
      }
      assert m.rows[..y + 1] == m.rows[..y] + [m.rows[y]];
      assert m.rows[y][..m.width] == m.rows[y];
      CountRowsSnoc(m.rows[..y], m.rows[y]);
      y := y + 1;
    }
    assert m.rows[..m.height] == m.rows;
    CountValidIsScanLength(m);
  }

  /** The header, declaring numPoints vertices. */
  method WriteHeader(plyFile: PlyFile, numPoints: int)
    modifies plyFile
    ensures plyFile.lines == old(plyFile.lines) + PlyHeader(numPoints)
  {
    plyFile.WriteLine(HeaderLine("ply"));
    plyFile.WriteLine(HeaderLine("format ascii 1.0"));
    plyFile.WriteLine(VertexCountLine(numPoints));
    plyFile.WriteLine(HeaderLine("property float x"));
    plyFile.WriteLine(HeaderLine("property float y"));
    plyFile.WriteLine(HeaderLine("property float z"));
    plyFile.WriteLine(HeaderLine("property uchar red"));
    plyFile.WriteLine(HeaderLine("property uchar green"));
    plyFile.WriteLine(HeaderLine("property uchar blue"));
    plyFile.WriteLine(HeaderLine("end_header"));
    assert plyFile.lines[|old(plyFile.lines)|..] == PlyHeader(numPoints);
    assert plyFile.lines == old(plyFile.lines) + plyFile.lines[|old(plyFile.lines)|..];
  }

  /**
   * One pixel of the second pass: a skipped depth writes nothing, any other
   * depth writes the pixel's line, so the lines after start grow from those
   * of the row's valid pixels before x to those up to and including x.
   */
  method WritePixel(plyFile: PlyFile, m: DepthMap, x: nat, y: nat, vertex: Pixel -> PlyLine, ghost start: seq<PlyLine>)
    requires m.Valid() && y < m.height && x < m.width
    requires plyFile.lines == start + VertexLines(vertex, RowValidPixels(m, y, x))
    modifies plyFile
    ensures plyFile.lines == start + VertexLines(vertex, RowValidPixels(m, y, x + 1))
  {
    VertexLinesNextPixel(vertex, m, y, x);
    var depthValue := m.rows[y][x];
    if Skipped(depthValue) {
      return;
    }
    plyFile.WriteLine(vertex(Pixel(x, y, depthValue)));
  }

  /**
   * One row of the second pass: the lines of row y's valid pixels, in
   * increasing x; vertex computes each pixel's line.
   */
  method WriteRow(plyFile: PlyFile, m: DepthMap, y: nat, vertex: Pixel -> PlyLine)
    requires m.Valid() && y < m.height
    modifies plyFile
    ensures plyFile.lines == old(plyFile.lines) + VertexLines(vertex, RowValidPixels(m, y, m.width))
  {
    ghost var start := plyFile.lines;
    var x := 0;
    while x < m.width
      invariant 0 <= x <= m.width
      invariant plyFile.lines == start + VertexLines(vertex, RowValidPixels(m, y, x))
    {
      WritePixel(plyFile, m, x, y, vertex, start);
      x := x + 1;
    }
  }

  /** The second pass: one line per valid pixel, appended in row-major order. */
  method WriteVertices(plyFile: PlyFile, m: DepthMap, vertex: Pixel -> PlyLine)
    requires m.Valid()
    modifies plyFile
    ensures plyFile.lines == old(plyFile.lines) + VertexLines(vertex, ValidPixels(m))
  {
    ghost var start := plyFile.lines;
    var y := 0;
    while y < m.height
      invariant 0 <= y <= m.height
      invariant plyFile.lines == start + VertexLines(vertex, ValidPixelsBefore(m, y))
    {
      AppendAssociative(start, VertexLines(vertex, ValidPixelsBefore(m, y)), VertexLines(vertex, RowValidPixels(m, y, m.width)));
      WriteRow(plyFile, m, y, vertex);
      VertexLinesNextRow(vertex, m, y);
      y := y + 1;
    }
  }

  /**
   * The exporter. Returns None when a camera attribute is missing (no file
   * is created), otherwise the lines of the file it wrote.
   */
  method WriteDepthMapToPly(inBuf: DepthImage, num: Numerics) returns (written: Option<seq<PlyLine>>)
    requires inBuf.depth.Valid()
    ensures written.None? <==> inBuf.meta.cArr.None? || inBuf.meta.iCamArr.None?
    ensures written == ExportedPly(inBuf, num)
  {
    if inBuf.meta.cArr.None? {
      return None;
    }
    var cArr := inBuf.meta.cArr.value;
    if inBuf.meta.iCamArr.None? {
      return None;
    }
    var iCamArr := inBuf.meta.iCamArr.value;

    var numPoints := CountValidPixels(inBuf.depth);
    var stats := PixelStats(inBuf.depth);

    var plyFile := new PlyFile();
    WriteHeader(plyFile, numPoints);
    assert plyFile.lines == PlyHeader(numPoints);

    WriteVertices(plyFile, inBuf.depth, VertexOf(Camera(cArr, iCamArr), stats, num));
    written := Some(plyFile.lines);
  }

  // ---------------------------------------------------------------------
  // What the exported file promises

  /**
   * The declared vertex count equals the number of pixels with depth > 0 and
   * the number of vertex lines after the header, so a reader recovers them all.
   */
  lemma ExportedCountMatchesVertexLines(img: DepthImage, num: Numerics)
    requires img.depth.Valid()
    requires ExportedPly(img, num).Some?
    ensures var file := ExportedPly(img, num).value;
            && |file| == HeaderLength + CountValid(img.depth)
            && file[..HeaderLength] == PlyHeader(CountValid(img.depth))
            && file[2] == VertexCountLine(|file| - HeaderLength)
            && ReadPly(file) == Some(file[HeaderLength..])
  {
    var file := ExportedPly(img, num).value;
    var c := img.meta.cArr.value;
    var iCam := img.meta.iCamArr.value;
    var body := VertexLines(VertexOf(Camera(c, iCam), PixelStats(img.depth), num), ValidPixels(img.depth));
    CountValidIsScanLength(img.depth);
    VertexLinesAt(VertexOf(Camera(c, iCam), PixelStats(img.depth), num), ValidPixels(img.depth));
    assert file == PlyHeader(CountValid(img.depth)) + body;
    assert file[..HeaderLength] == PlyHeader(CountValid(img.depth));
    assert file[HeaderLength..] == body;
    ReadPlyOfWritten(CountValid(img.depth), body);
  }

  /**
   * The k-th vertex line is the vertex of the k-th valid pixel of the
   * row-major scan; the scan holds exactly the pixels with depth > 0, each
   * once, in increasing row-major order.
   */
  lemma ExportedVerticesInScanOrder(img: DepthImage, num: Numerics)
    requires img.depth.Valid()
    requires ExportedPly(img, num).Some?
    ensures var file := ExportedPly(img, num).value;
            var ps := ValidPixels(img.depth);
            var cam := Camera(img.meta.cArr.value, img.meta.iCamArr.value);
            && |file| == HeaderLength + |ps|
            && (forall k :: 0 <= k < |ps| ==> file[HeaderLength + k] == VertexFor(cam, PixelStats(img.depth), num, ps[k]))
            && (forall k :: 0 <= k < |ps| ==> IsValidPixel(img.depth, ps[k]))
            && (forall p :: IsValidPixel(img.depth, p) ==> p in ps)
            && RowMajor(ps)
  {
    var file := ExportedPly(img, num).value;
    var ps := ValidPixels(img.depth);
    var cam := Camera(img.meta.cArr.value, img.meta.iCamArr.value);
    var body := VertexLines(VertexOf(cam, PixelStats(img.depth), num), ps);
    CountValidIsScanLength(img.depth);
    assert file == PlyHeader(|ps|) + body;
    VertexLinesAt(VertexOf(cam, PixelStats(img.depth), num), ps);
    forall k | 0 <= k < |ps|
      ensures file[HeaderLength + k] == VertexFor(cam, PixelStats(img.depth), num, ps[k])
    {
      assert file[HeaderLength + k] == body[k];
    }
    ValidPixelsExact(img.depth);
    forall k | 0 <= k < |ps|
      ensures IsValidPixel(img.depth, ps[k])
    {
      assert ps[k] in ps;
    }
    ValidPixelsOrdered(img.depth);
  }

  /** An image whose every depth is <= 0 exports the empty cloud: the header declaring 0 and nothing else. */
  lemma AllSentinelExportsEmptyCloud(img: DepthImage, num: Numerics)
    requires img.depth.Valid()
    requires img.meta.cArr.Some? && img.meta.iCamArr.Some?
    requires forall y, x :: 0 <= y < img.depth.height && 0 <= x < img.depth.width ==> Skipped(img.depth.rows[y][x])
    ensures ExportedPly(img, num) == Some(PlyHeader(0))
  {
    AllSkippedHasNoValidPixel(img.depth);
    var cam := Camera(img.meta.cArr.value, img.meta.iCamArr.value);
    assert VertexLines(VertexOf(cam, PixelStats(img.depth), num), []) == [];
    assert PlyHeader(0) + [] == PlyHeader(0);
  }

  /**
   * Every vertex is coloured by the jet colour of its normalised depth, which
   * lies in [0, 1] when the buffer's range is nonzero and is 1 otherwise.
   */
  lemma ExportedColorsNormalized(img: DepthImage, num: Numerics, k: nat)
    requires img.depth.Valid()
    requires ExportedPly(img, num).Some?
    requires k < |ExportedPly(img, num).value| - HeaderLength
    ensures var file := ExportedPly(img, num).value;
            var s := PixelStats(img.depth);
            exists t :: file[HeaderLength + k].VertexLine? && file[HeaderLength + k].color == num.jetColor(t)
                        && (s.max - s.min != 0.0 ==> 0.0 <= t <= 1.0)
                        && (s.max - s.min == 0.0 ==> t == 1.0)
  {
    var ps := ValidPixels(img.depth);
    VertexLinesAt(VertexOf(Camera(img.meta.cArr.value, img.meta.iCamArr.value), PixelStats(img.depth), num), ps);
    var p := ps[k];
    ValidPixelNormalizedInUnitInterval(img.depth, p);
    var t := NormalizedDepth(p.depth, PixelStats(img.depth));
    assert ExportedPly(img, num).value[HeaderLength + k].color == num.jetColor(t);
  }

  /** When every pixel with depth > 0 holds the same depth, every vertex gets the colour of t = 1. */
  lemma EqualValidDepthsExportUniformColor(img: DepthImage, num: Numerics, c: real)
    requires img.depth.Valid()
    requires ExportedPly(img, num).Some?
    requires forall y, x :: 0 <= y < img.depth.height && 0 <= x < img.depth.width && !Skipped(img.depth.rows[y][x])
                            ==> img.depth.rows[y][x] == c
    ensures var file := ExportedPly(img, num).value;
            forall k :: HeaderLength <= k < |file| ==> file[k].VertexLine? && file[k].color == num.jetColor(1.0)
  {
    var ps := ValidPixels(img.depth);
    VertexLinesAt(VertexOf(Camera(img.meta.cArr.value, img.meta.iCamArr.value), PixelStats(img.depth), num), ps);
    forall j | 0 <= j < |ps|
      ensures NormalizedDepth(ps[j].depth, PixelStats(img.depth)) == 1.0
    {
      EqualValidDepthsNormalizeToOne(img.depth, c, ps[j]);
    }
    var file := ExportedPly(img, num).value;
    forall k | HeaderLength <= k < |file|
      ensures file[k].VertexLine? && file[k].color == num.jetColor(1.0)
    {
      assert file[k] == VertexLines(VertexOf(Camera(img.meta.cArr.value, img.meta.iCamArr.value), PixelStats(img.depth), num), ps)[k - HeaderLength];
    }
  }

  /** With the identity inverse projection and the camera at the origin, pixel (0, 0) at depth d lies at (0, 0, d). */
  lemma UnprojectIdentityAtOrigin(num: Numerics, d: real)
    requires num.normalize(Point3(0.0, 0.0, 1.0)) == Point3(0.0, 0.0, 1.0)
    ensures Unproject(Camera(Origin, Identity), num, 0, 0, d) == Point3(0.0, 0.0, d)
  {
  }

  lemma TwoPixelScan()
    ensures var m := DepthMap(2, 1, [[5.0, -1.0]]);
            m.Valid() && ValidPixels(m) == [Pixel(0, 0, 5.0)] && CountValid(m) == 1
            && PixelStats(m) == DepthStats(-1.0, 5.0)
  {
    var m := DepthMap(2, 1, [[5.0, -1.0]]);
    assert RowValidPixels(m, 0, 1) == [Pixel(0, 0, 5.0)];
    assert RowValidPixels(m, 0, 2) == [Pixel(0, 0, 5.0)];
    assert ValidPixels(m) == [Pixel(0, 0, 5.0)];
    CountValidIsScanLength(m);
    assert Flatten(m.rows) == [5.0, -1.0];
  }

  /** An image whose scan keeps a single pixel p exports the header declaring 1 and p's vertex. */
  lemma SinglePixelExport(img: DepthImage, num: Numerics, p: Pixel)
    requires img.depth.Valid()
    requires img.meta.cArr.Some? && img.meta.iCamArr.Some?
    requires ValidPixels(img.depth) == [p]
    ensures ExportedPly(img, num)
            == Some(PlyHeader(1) + [VertexFor(Camera(img.meta.cArr.value, img.meta.iCamArr.value), PixelStats(img.depth), num, p)])
  {
    var cam := Camera(img.meta.cArr.value, img.meta.iCamArr.value);
    CountValidIsScanLength(img.depth);
    VertexLinesSnoc(VertexOf(cam, PixelStats(img.depth), num), [], p);
    assert [] + [p] == [p];
    assert VertexLines(VertexOf(cam, PixelStats(img.depth), num), []) == [];
    assert VertexLines(VertexOf(cam, PixelStats(img.depth), num), [p]) == [VertexFor(cam, PixelStats(img.depth), num, p)];
    assert CountValid(img.depth) == 1;
  }

  /** The vertex of pixel (0, 0) at depth 5 with the identity camera at the origin and stats (-1, 5). */
  lemma TwoPixelVertex(num: Numerics)
    requires num.normalize(Point3(0.0, 0.0, 1.0)) == Point3(0.0, 0.0, 1.0)
    ensures VertexFor(Camera(Origin, Identity), DepthStats(-1.0, 5.0), num, Pixel(0, 0, 5.0))
            == VertexLine(Point3(0.0, 0.0, 5.0), num.jetColor(1.0))
  {
    assert NormalizedDepth(5.0, DepthStats(-1.0, 5.0)) == 1.0;
    UnprojectIdentityAtOrigin(num, 5.0);
  }

  /**
   * The 2x1 image [[5, -1]] with the identity camera at the origin exports one
   * vertex, (0, 0, 5), coloured jet(1): min is -1 and max is 5, so t = 1.
   */
  lemma TwoPixelExample(num: Numerics)
    requires num.normalize(Point3(0.0, 0.0, 1.0)) == Point3(0.0, 0.0, 1.0)
    ensures var img := DepthImage(DepthMap(2, 1, [[5.0, -1.0]]), Metadata(Some(Origin), Some(Identity)));
            ExportedPly(img, num) == Some(PlyHeader(1) + [VertexLine(Point3(0.0, 0.0, 5.0), num.jetColor(1.0))])
  {
    TwoPixelScan();
    TwoPixelVertex(num);
    SinglePixelExport(DepthImage(DepthMap(2, 1, [[5.0, -1.0]]), Metadata(Some(Origin), Some(Identity))), num, Pixel(0, 0, 5.0));
  }
}
