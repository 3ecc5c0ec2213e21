# Depth map to PLY export, modelled in Dafny

This project models `writeDepthMapToPly` of AliceVision's `exportDepthMap` tool. The tool turns a single-channel depth image into an ASCII PLY point cloud for visual debugging. The image carries two camera attributes, the centre `AliceVision:CArr` and the inverse projection `AliceVision:iCamArr`.

The exporter works as follows:
- It aborts without creating a file when either attribute is missing.
- It counts the pixels whose depth is > 0.
- It takes the minimum and maximum over the whole buffer.
- It writes the PLY header, which declares that count.
- It scans the image a second time, row by row. For every pixel with depth > 0 it writes one vertex line: the point `C + normalize(iCam * (x, y, 1)) * depth` and the jet colour of the normalised depth.

## Files
- `wrappers.dfy`: module `Wrappers`, the `Option` type.
- `mvs_data.dfy`: module `MvsData`, the value types `Point3`, `Matrix3` and `Rgb`, and componentwise point arithmetic.
- `depth_maps.dfy`: module `DepthMaps`. It holds the depth buffer and the skip test `depth <= 0`. It defines the valid pixels in row-major scan order (`ValidPixels`) and their number, counted separately (`CountValid`). It also defines the buffer statistics (`PixelStats`) and the depth normalisation (`NormalizedDepth`).
- `ply.dfy`: module `Ply`. The output file is a sequence of line records: header lines, the `element vertex N` line and vertex lines. It also holds the fixed header and a reader (`ReadPly`). The reader accepts a file only when the declared count matches the vertex lines that follow.
- `export_depth_map.dfy`: module `ExportDepthMap`. It holds:
  - the output stream, as class `PlyFile` with a `lines` field that the write method appends to;
  - the counting pass, as a method with nested loops;
  - the writing pass, as three methods: the loop over rows (`WriteVertices`), the loop over one row (`WriteRow`) and the body for one pixel (`WritePixel`). They take the per-pixel line as a function `vertex` and are proved for every such function. The exporter passes `VertexOf(camera, stats, numerics)`, which computes the point and the colour of the source's loop body (`VertexFor`);
  - the exporter method;
  - the specification function `ExportedPly` of the file it leaves;
  - the lemmas about that file.

The exporter returns `None` when no file is created. Otherwise it returns `Some(lines)`, the lines of the file it wrote.

The bodies of `Point3d::normalize` and of `getRGBFromJetColorMap` are not part of this model. They are the two fields of `Numerics`. Every result holds for any choice of them, except `UnprojectIdentityAtOrigin`, `TwoPixelVertex` and `TwoPixelExample`, which require that `normalize` leaves (0, 0, 1) unchanged. `Matrix3x3.hpp` and `Point3d.hpp` are not part of this model either. The product `iCamArr * Point2d(x, y)` is modelled as the homogeneous product with `(x, y, 1)`, with the nine attribute values read row-major; `+` and `*` on points are modelled componentwise.

Three points of the code's behaviour that are easy to misread:
- The header is ten lines (src/software/export/main_exportDepthMap.cpp:97-107 writes `ply`, the format line, the count line, six property lines and `end_header`). The count is on the third line.
- Min and max are taken over every pixel, sentinel values included, so the minimum can be a sentinel. The maximum is still a valid depth whenever one exists, because sentinels are `<= 0` and valid depths `> 0`. So when every valid pixel has the same depth c, the maximum is c and every vertex gets the colour of `t = 1`, with or without sentinels (`EqualValidDepthsExportUniformColor`).
- In the 2x1 example with depths `[5, -1]`, the minimum is -1 and the maximum is 5. The single vertex gets `t = (5 - (-1)) / 6 = 1` because 5 is the maximum, not because the range is zero (`TwoPixelExample`).

## Model
| member | source | states |
|---|---|---|
| `ExportDepthMap.WriteDepthMapToPly` | src/software/export/main_exportDepthMap.cpp:44-133 | No file is created exactly when `CArr` or `iCamArr` is missing. Otherwise the lines written are the header declaring the count of valid pixels, then one vertex per valid pixel in scan order (`ExportedPly`). |
| `ExportDepthMap.CountValidPixels` | src/software/export/main_exportDepthMap.cpp:76-89 | The first pass returns the number of pixels whose depth is not `<= 0`: the independent count `CountValid`, which also equals the number of pixels the second pass keeps. |
| `ExportDepthMap.WriteVertices` | src/software/export/main_exportDepthMap.cpp:109-131 | The second pass appends to the stream exactly the vertex lines of the valid pixels, in y-outer, x-inner order, and nothing else. |
| `ExportDepthMap.WriteRow` | src/software/export/main_exportDepthMap.cpp:112-130 | The inner loop over x for row y appends exactly the vertex lines of that row's valid pixels, in increasing x. |
| `ExportDepthMap.WritePixel` | src/software/export/main_exportDepthMap.cpp:114-129 | One pixel of the inner loop: a depth `<= 0` writes nothing; any other depth writes that pixel's vertex line. So the lines written for the row grow from those of the valid pixels before x to those up to and including x. |
| `ExportDepthMap.WriteHeader` | src/software/export/main_exportDepthMap.cpp:96-106 | The header lines appended to the stream are exactly `PlyHeader(numPoints)`, in order. |
| `ExportDepthMap.PlyFile.constructor` | src/software/export/main_exportDepthMap.cpp:95 | Opening the output stream starts an empty file. |
| `ExportDepthMap.PlyFile.WriteLine` | src/software/export/main_exportDepthMap.cpp:97-107 | Each `<< ... << std::endl` appends exactly one line to the file. |
| `ExportDepthMap.VertexLines` | src/software/export/main_exportDepthMap.cpp:110-131 | One line is written per pixel passed in. |
| `ExportDepthMap.VertexLinesAt` | src/software/export/main_exportDepthMap.cpp:119-129 | The k-th line written is the per-pixel line of the k-th pixel. With `VertexOf`, that is its unprojected point and the jet colour of its normalised depth. |
| `ExportDepthMap.VertexLinesSnoc` | src/software/export/main_exportDepthMap.cpp:129 | Writing one more valid pixel appends exactly its vertex line. |
| `ExportDepthMap.VertexLinesAppend` | src/software/export/main_exportDepthMap.cpp:110-131 | The lines written for two runs of pixels, one after the other, are the lines of the first run followed by those of the second. |
| `ExportDepthMap.VertexLinesNextPixel` | src/software/export/main_exportDepthMap.cpp:112-129 | Scanning one more pixel of a row appends its vertex line when its depth is > 0, and nothing otherwise. |
| `ExportDepthMap.VertexLinesNextRow` | src/software/export/main_exportDepthMap.cpp:110-131 | Scanning one more row appends exactly the lines of that row's valid pixels to those of the earlier rows. |
| `ExportDepthMap.Unproject` | src/software/export/main_exportDepthMap.cpp:119 | The point written for pixel (x, y) at depth d: the camera centre plus the normalised ray `iCam * (x, y, 1)` scaled by d. This is the definition `ExportedPly` uses. |
| `ExportDepthMap.VertexFor` | src/software/export/main_exportDepthMap.cpp:119-129 | The vertex line of a valid pixel: its unprojected point and the jet colour of its normalised depth. This is the definition `ExportedPly` uses, and `VertexOf` is the same computation as a function of the pixel. |
| `ExportDepthMap.ExportedCountMatchesVertexLines` | src/software/export/main_exportDepthMap.cpp:77-129 | The exported file is the header declaring `N = CountValid` followed by exactly N lines. The count line equals the number of vertex lines, and a reader recovers all of them. |
| `ExportDepthMap.ExportedVerticesInScanOrder` | src/software/export/main_exportDepthMap.cpp:110-131 | The k-th vertex line is the vertex of the k-th valid pixel. Every scanned pixel has depth > 0, every pixel with depth > 0 is scanned, and the scan is strictly increasing in row-major order. |
| `ExportDepthMap.AllSentinelExportsEmptyCloud` | src/software/export/main_exportDepthMap.cpp:84-85 | An image whose every depth is `<= 0` exports the header declaring 0 vertices and no vertex line. |
| `ExportDepthMap.ExportedColorsNormalized` | src/software/export/main_exportDepthMap.cpp:125-127 | Every vertex colour is the jet colour of a `t` in [0, 1] when `max - min != 0`, and of `t = 1` otherwise. |
| `ExportDepthMap.EqualValidDepthsExportUniformColor` | src/software/export/main_exportDepthMap.cpp:91-127 | When every pixel with depth > 0 holds the same depth, every vertex colour is the jet colour of 1, whatever the sentinel values are. |
| `ExportDepthMap.UnprojectIdentityAtOrigin` | src/software/export/main_exportDepthMap.cpp:119 | With the centre at the origin and the identity inverse projection, pixel (0, 0) at depth d unprojects to (0, 0, d), given that normalisation keeps (0, 0, 1). |
| `ExportDepthMap.TwoPixelScan` | src/software/export/main_exportDepthMap.cpp:77-92 | For the 2x1 image [5, -1], the scan keeps only pixel (0, 0), the count is 1 and the statistics are min -1, max 5. |
| `ExportDepthMap.SinglePixelExport` | src/software/export/main_exportDepthMap.cpp:77-131 | An image whose scan keeps a single pixel exports the header declaring 1 followed by that pixel's vertex line. |
| `ExportDepthMap.TwoPixelVertex` | src/software/export/main_exportDepthMap.cpp:119-127 | Pixel (0, 0) at depth 5, with the identity camera at the origin and stats (-1, 5), is written as the point (0, 0, 5) coloured jet(1). |
| `ExportDepthMap.TwoPixelExample` | src/software/export/main_exportDepthMap.cpp:44-133 | The 2x1 image [5, -1] with the identity camera at the origin exports the header declaring 1 and the single vertex (0, 0, 5) coloured jet(1). |
| `DepthMaps.ValidPixelsExact` | src/software/export/main_exportDepthMap.cpp:110-117 | A pixel is in the scan if and only if it lies in the image and its depth is > 0. |
| `DepthMaps.ValidPixelsBeforeMembers` | src/software/export/main_exportDepthMap.cpp:110-117 | After the rows y < yEnd, the scan holds exactly the valid pixels of those rows. |
| `DepthMaps.RowValidPixelsMembers` | src/software/export/main_exportDepthMap.cpp:112-117 | After the columns x < xEnd of row y, the row's scan holds exactly the valid pixels of that row with x < xEnd. |
| `DepthMaps.ValidPixelsOrdered` | src/software/export/main_exportDepthMap.cpp:110-112 | The scan is strictly increasing in row-major order (y outer, x inner), so no pixel is written twice. |
| `DepthMaps.CountValidIsScanLength` | src/software/export/main_exportDepthMap.cpp:84-85 | Both passes use the same skip test over the same pixels: the count of depths > 0 equals the number of pixels the write pass keeps. |
| `DepthMaps.AllSkippedHasNoValidPixel` | src/software/export/main_exportDepthMap.cpp:84-85 | An image without any depth > 0 has count 0 and an empty scan. |
| `DepthMaps.CountPositiveSnoc` | src/software/export/main_exportDepthMap.cpp:84-87 | Visiting one more pixel raises the count by one exactly when its depth is not `<= 0`. |
| `DepthMaps.CountRowsSnoc` | src/software/export/main_exportDepthMap.cpp:78-89 | Finishing one more row raises the count by that row's number of valid pixels. |
| `DepthMaps.PixelStats` | src/software/export/main_exportDepthMap.cpp:91-92 | For a non-empty image, min and max bound every pixel, sentinels included, and both are attained by some pixel. |
| `DepthMaps.MinOf` | src/software/export/main_exportDepthMap.cpp:91-92 | The minimum of the pixel values is one of them and is below all of them. |
| `DepthMaps.MaxOf` | src/software/export/main_exportDepthMap.cpp:91-92 | The maximum of the pixel values is one of them and is above all of them. |
| `DepthMaps.NormalizedDepthBounds` | src/software/export/main_exportDepthMap.cpp:125-126 | For a depth between min and max: a nonzero range normalises into [0, 1], the maximum normalises to 1, and a zero range gives 1. |
| `DepthMaps.ValidPixelNormalizedInUnitInterval` | src/software/export/main_exportDepthMap.cpp:91-126 | Every valid pixel's depth lies between the image's min and max. It normalises into [0, 1] for a nonzero range, and to 1 for a zero range. |
| `DepthMaps.EqualValidDepthsNormalizeToOne` | src/software/export/main_exportDepthMap.cpp:91-126 | When every pixel with depth > 0 holds the same depth c, the buffer maximum is c and every valid pixel normalises to 1. |
| `DepthMaps.NormalizedDepth` | src/software/export/main_exportDepthMap.cpp:125-126 | The depth mapped to the colour scale: `(d - min) / (max - min)` when the range is nonzero, 1 otherwise. This is the definition `ExportedPly` uses; its bounds are stated by `NormalizedDepthBounds`. |
| `Ply.PlyHeader` | src/software/export/main_exportDepthMap.cpp:97-107 | The header is ten lines, from `ply` to `end_header`. Its only count line is the third and declares the given count. No header line is a vertex line. |
| `Ply.ReadPlyOfWritten` | src/software/export/main_exportDepthMap.cpp:100-129 | A header followed by vertex lines reads back as those lines if and only if the declared count equals their number. |
| `Ply.ReadPlyDeterminesFile` | src/software/export/main_exportDepthMap.cpp:100-129 | A file that reads back as some vertex lines is exactly the header declaring their number followed by them. |

## Left out
- `aliceVision_main` (src/software/export/main_exportDepthMap.cpp:141-257): command-line parsing, scene loading, depth-map path resolution and image reading are I/O. The model starts from a depth image already read.
- src/samples/robustFundamentalF10/main_robustFundamentalF10.cpp is not part of this model. It is a driver over feature matching, random sampling and solver libraries whose code is not present.
- The bodies of `Point3d::normalize` and `getRGBFromJetColorMap` are not modelled: they are the fields of `Numerics`, and every property holds for any choice of them. This includes the undefined result of normalising a zero ray direction.
- Floating point: depths and coordinates are reals. The source's float/double rounding is not modelled. NaN depths are not modelled either: in floats a NaN passes the `depthValue <= 0.f` skip test and would be counted and written.
- The text formatting of numbers by `ostream <<` is not modelled. Lines are records, and a vertex line holds the point and the colour values.
- Metadata lookup: each attribute is present with a well-formed value or absent. The source looks up `CArr` without a type and copies three doubles from whatever it finds. It looks up `iCamArr` with the type "3x3 double matrix". A present but malformed attribute is not modelled.
- PixelStats: for an image without pixels the model returns 0 for both min and max. The source's values for that case come from the image library and are not modelled; no vertex line reads them.
- The 32-bit `int` vertex counter and pixel coordinates are modelled as unbounded naturals. Overflow past 2^31 - 1 pixels is not modelled.
- Pixels are addressed from (0, 0) to (width - 1, height - 1). An image data window with a nonzero origin, where `getpixel` would return 0 for the visited coordinates, is not modelled.
- Failure to open or write the output file is not modelled. The source does not check the stream, and the model takes every write as succeeding.
- Progress logging to `std::cout` and the commented-out code (lines 120-123 and 135-137) are left out.
