/**
 * The ASCII PLY point-cloud file, as a sequence of line records: the fixed
 * ten-line header whose third line declares the vertex count, followed by
 * one line per vertex. Text formatting of the numbers is not modelled.
 */
module Ply {
  import opened Wrappers
  import opened MvsData

  datatype PlyLine =
    | HeaderLine(text: string)           // a fixed header line
    | VertexCountLine(count: int)        // "element vertex <count>"
    | VertexLine(position: Point3, color: Rgb)   // "<x> <y> <z> <r> <g> <b>"

  const HeaderLength := 10

  /** The header written before the vertices, declaring n vertices. */
  function PlyHeader(n: int): (h: seq<PlyLine>)
    ensures |h| == HeaderLength
    ensures h[0] == HeaderLine("ply") && h[HeaderLength - 1] == HeaderLine("end_header")
    ensures forall i :: 0 <= i < |h| ==> (h[i].VertexCountLine? <==> i == 2)
    ensures h[2].count == n
    ensures forall i :: 0 <= i < |h| ==> !h[i].VertexLine?
  {
    [ HeaderLine("ply"),
      HeaderLine("format ascii 1.0"),
      VertexCountLine(n),
      HeaderLine("property float x"),
      HeaderLine("property float y"),
      HeaderLine("property float z"),
      HeaderLine("property uchar red"),
      HeaderLine("property uchar green"),
      HeaderLine("property uchar blue"),
      HeaderLine("end_header") ]
  }

  predicate AllVertexLines(ls: seq<PlyLine>)
  {
    forall i :: 0 <= i < |ls| ==> ls[i].VertexLine?
  }

  /**
   * What a reader of the format recovers: the vertex lines, provided the file
   * starts with the header and the declared count matches the lines after it.
   */
  function ReadPly(file: seq<PlyLine>): Option<seq<PlyLine>>
  {
    if |file| < HeaderLength || !file[2].VertexCountLine? then None
    else
      var n := file[2].count;
      if file[..HeaderLength] == PlyHeader(n) && n == |file| - HeaderLength
         && AllVertexLines(file[HeaderLength..])
      then Some(file[HeaderLength..])
      else None
  }

  /** A header declaring exactly the number of vertex lines that follow reads back as those lines. */
  lemma ReadPlyOfWritten(n: int, body: seq<PlyLine>)
    requires AllVertexLines(body)
    ensures ReadPly(PlyHeader(n) + body) == (if n == |body| then Some(body) else None)
  {
    var file := PlyHeader(n) + body;
    assert file[..HeaderLength] == PlyHeader(n);
    assert file[HeaderLength..] == body;
  }

  /** A file that reads back as body is exactly the header declaring |body| vertices followed by body. */
  lemma ReadPlyDeterminesFile(file: seq<PlyLine>, body: seq<PlyLine>)
    requires ReadPly(file) == Some(body)
    ensures file == PlyHeader(|body|) + body
    ensures AllVertexLines(body)
  {
    assert file == file[..HeaderLength] + file[HeaderLength..];
  }
}
