/** The pure computations of marker_tracker.py: the cluster filter of `getPoints`, the search box of
    `set_marker_search_area`, the pattern corners of `assignMarkers` and the image-sequence path of
    `get_frame_image`. */
module MarkerGeometry {
  import opened Common
  import opened Utils
  import opened PyStr

  // ---------------------------------------------------------------------------
  // Cluster filter (getPoints)
  // ---------------------------------------------------------------------------

  /** A Python `slice(start, stop)` over one image axis, as `find_objects` returns them. */
  datatype Span = Span(start: int, stop: int)

  /** One labelled region: its bounding slices (rows first, then columns, as numpy indexes them) and the
      number of non-zero pixels inside that box. Labelling and counting are left to scipy and numpy. */
  datatype Blob = Blob(rows: Span, cols: Span, count: nat)

  /** The centre of a region's box: (column centre, row centre), each a true division by 2. */
  function Centre(b: Blob): Point {
    Point((b.cols.start + b.cols.stop) as real / 2.0, (b.rows.start + b.rows.stop) as real / 2.0)
  }

  /** A region becomes a point when it has more than `thresh` pixels and its centre lies below
      row `height` (rows count from the top, so this ignores a band at the top of the image). */
  predicate Kept(b: Blob, thresh: int, height: real) {
    b.count > thresh && Centre(b).y > height
  }

  /** The points the filter emits for the regions `blobs`, in region order. */
  function KeptCentres(blobs: seq<Blob>, thresh: int, height: real): (r: seq<Point>)
    ensures |r| <= |blobs|
  {
    if blobs == [] then []
    else
      var last := blobs[|blobs| - 1];
      KeptCentres(blobs[..|blobs| - 1], thresh, height) + (if Kept(last, thresh, height) then [Centre(last)] else [])
  }

  /** The positions, in increasing order, of the regions that the filter keeps. */
  function KeptIndices(blobs: seq<Blob>, thresh: int, height: real): (ix: seq<int>)
    ensures forall j :: 0 <= j < |ix| ==> 0 <= ix[j] < |blobs| && Kept(blobs[ix[j]], thresh, height)
    ensures forall j, k :: 0 <= j < k < |ix| ==> ix[j] < ix[k]
    ensures forall i :: 0 <= i < |blobs| && Kept(blobs[i], thresh, height) ==> i in ix
  {
    if blobs == [] then []
    else
      var n := |blobs| - 1;
      var pre := KeptIndices(blobs[..n], thresh, height);
      assert forall i :: 0 <= i < n ==> blobs[..n][i] == blobs[i];
      pre + (if Kept(blobs[n], thresh, height) then [n] else [])
  }

  /** The filter emits exactly one point per kept region, in region order: the `j`-th point is the
      centre of the `j`-th kept region, and a region is kept exactly when the filter's test holds of it. */
  lemma {:induction false} KeptCentresAreKeptRegions(blobs: seq<Blob>, thresh: int, height: real)
    ensures var r, ix := KeptCentres(blobs, thresh, height), KeptIndices(blobs, thresh, height);
      |r| == |ix| && forall j :: 0 <= j < |r| ==> r[j] == Centre(blobs[ix[j]])
  {
    if blobs != [] {
      var n := |blobs| - 1;
      var pre := blobs[..n];
      KeptCentresAreKeptRegions(pre, thresh, height);
      var r0, ix0 := KeptCentres(pre, thresh, height), KeptIndices(pre, thresh, height);
      var tail := if Kept(blobs[n], thresh, height) then [Centre(blobs[n])] else [];
      var itail := if Kept(blobs[n], thresh, height) then [n] else [];
      assert KeptCentres(blobs, thresh, height) == r0 + tail;
      assert KeptIndices(blobs, thresh, height) == ix0 + itail;
      forall j | 0 <= j < |r0|
        ensures (r0 + tail)[j] == Centre(blobs[(ix0 + itail)[j]])
      {
        assert (r0 + tail)[j] == r0[j] && (ix0 + itail)[j] == ix0[j];
        assert pre[ix0[j]] == blobs[ix0[j]];
      }
    }
  }

  /** The loop at marker_tracker.py:121-132: walks the regions and appends the centre of each one that
      passes the count and height tests. */
  method ClusterPoints(blobs: seq<Blob>, thresh: int, height: real) returns (points: seq<Point>)
    ensures points == KeptCentres(blobs, thresh, height)
  {
    points := [];
    var i := 0;
    while i < |blobs|
      invariant 0 <= i <= |blobs|
      invariant points == KeptCentres(blobs[..i], thresh, height)
    {
      var sl := blobs[i];
      if sl.count > thresh {
        var cordx := (sl.cols.start + sl.cols.stop) as real / 2.0;
        var cordy := (sl.rows.start + sl.rows.stop) as real / 2.0;
        if cordy > height {
          points := points + [Point(cordx, cordy)];
        }
      }
      assert blobs[..i + 1][..i] == blobs[..i];
      i := i + 1;
    }
    assert blobs[..i] == blobs;
  }

  // ---------------------------------------------------------------------------
  // Search box (set_marker_search_area)
  // ---------------------------------------------------------------------------

  /** A marker's search area, as offsets from the marker in clip space. */
  datatype SearchBox = SearchBox(min: Point, max: Point)

  /** `set_marker_search_area(marker, sz, img)`: `search_min = (-sz/2/w, -sz/2/h)` and
      `search_max = -search_min`. With the default `img = (0, 0)`, or any zero dimension, it fails. */
  function SearchArea(sz: real, img: Size): (r: Result<SearchBox>)
    ensures r.Err? <==> img.w == 0.0 || img.h == 0.0
    ensures r.Err? ==> r.error == ZeroDivision
    ensures r.Ok? ==> r.value.max == Point(-r.value.min.x, -r.value.min.y)
    ensures r.Ok? ==> r.value.min.x * img.w * 2.0 == -sz && r.value.min.y * img.h * 2.0 == -sz
  {
    if img.w == 0.0 || img.h == 0.0 then Err(ZeroDivision)
    else
      var a := -sz / 2.0 / img.w;
      var b := -sz / 2.0 / img.h;
      Ok(SearchBox(Point(a, b), Point(-a, -b)))
  }

  /** On a real clip and a positive size, the box is centred on the marker and, measured in pixels,
      is `sz` wide and `sz` high. */
  lemma SearchAreaSpansSize(sz: real, img: Size)
    requires img.w > 0.0 && img.h > 0.0 && sz > 0.0
    ensures SearchArea(sz, img).Ok?
    ensures var b := SearchArea(sz, img).value;
      b.min.x < 0.0 < b.max.x && b.min.y < 0.0 < b.max.y
      && (b.max.x - b.min.x) * img.w == sz && (b.max.y - b.min.y) * img.h == sz
  {
    var b := SearchArea(sz, img).value;
    var ax, ay := b.min.x * img.w, b.min.y * img.h;
    assert ax * 2.0 == -sz && ay * 2.0 == -sz;
    assert (b.max.x - b.min.x) * img.w == -2.0 * ax;
    assert (b.max.y - b.min.y) * img.h == -2.0 * ay;
  }

  // ---------------------------------------------------------------------------
  // Pattern corners (assignMarkers)
  // ---------------------------------------------------------------------------

  /** The fixed sign order of the four corners: (-,-), (+,-), (+,+), (-,+). */
  function Sign(i: nat): (s: (int, int))
    requires i < 4
  {
    [(-1, -1), (1, -1), (1, 1), (-1, 1)][i]
  }

  /** `pattern_size / size[0]` and `pattern_size / size[1]`; either dimension being 0 is a ZeroDivisionError,
      raised before any marker is touched. */
  function PatternRatio(patternSize: real, clipSize: Size): (r: Result<Point>)
    ensures r.Err? <==> clipSize.w == 0.0 || clipSize.h == 0.0
    ensures r.Err? ==> r.error == ZeroDivision
    ensures r.Ok? ==> r.value.x * clipSize.w == patternSize && r.value.y * clipSize.h == patternSize
  {
    if clipSize.w == 0.0 || clipSize.h == 0.0 then Err(ZeroDivision)
    else Ok(Point(patternSize / clipSize.w, patternSize / clipSize.h))
  }

  /** The corner that the `i`-th entry of `pattern_corners` gets from the ratios `ratio`. */
  function Corner(ratio: Point, i: nat): Point
    requires i < 4
  {
    Point(ratio.x * Sign(i).0 as real, ratio.y * Sign(i).1 as real)
  }

  /** The loop at marker_tracker.py:232-234 over a marker's four pattern corners, computing the ratios as
      line 221-222 does first. On a zero dimension nothing is written. */
  method PlaceCorners(corners: array<Point>, patternSize: real, clipSize: Size) returns (err: Option<Error>)
    requires corners.Length == 4
    modifies corners
    ensures err.Some? <==> PatternRatio(patternSize, clipSize).Err?
    ensures err.Some? ==> err.value == ZeroDivision && corners[..] == old(corners[..])
    ensures err.None? ==> forall i :: 0 <= i < 4 ==> corners[i] == Corner(PatternRatio(patternSize, clipSize).value, i)
  {
    if clipSize.w == 0.0 || clipSize.h == 0.0 {
      return Some(ZeroDivision);
    }
    var ratioX := patternSize / clipSize.w;
    var ratioY := patternSize / clipSize.h;
    var signs := [(-1, -1), (1, -1), (1, 1), (-1, 1)];
    for i := 0 to 4
      invariant forall k :: 0 <= k < i ==> corners[k] == Corner(Point(ratioX, ratioY), k)
    {
      corners[i] := Point(ratioX * signs[i].0 as real, ratioY * signs[i].1 as real);
    }
    err := None;
  }

  /** For a positive pattern size on a real clip, the corners go counter-clockwise in clip space (y up)
      from the bottom left, the pattern is centred on the marker, and it is `2 * pattern_size` pixels wide
      and high: twice what the search box gets for the same size (see SearchAreaSpansSize). */
  lemma PatternCornersCounterClockwise(patternSize: real, clipSize: Size)
    requires patternSize > 0.0 && clipSize.w > 0.0 && clipSize.h > 0.0
    ensures PatternRatio(patternSize, clipSize).Ok?
    ensures var ratio := PatternRatio(patternSize, clipSize).value;
      var c0, c1, c2, c3 := Corner(ratio, 0), Corner(ratio, 1), Corner(ratio, 2), Corner(ratio, 3);
      && c0.x < 0.0 && c0.y < 0.0 && c1.x > 0.0 && c1.y < 0.0
      && c2.x > 0.0 && c2.y > 0.0 && c3.x < 0.0 && c3.y > 0.0
      && c2 == Point(-c0.x, -c0.y) && c3 == Point(-c1.x, -c1.y)
      && (c1.x - c0.x) * clipSize.w == 2.0 * patternSize
      && (c3.y - c0.y) * clipSize.h == 2.0 * patternSize
  {
    var ratio := PatternRatio(patternSize, clipSize).value;
    assert ratio.x > 0.0 && ratio.y > 0.0;
    var px, py := ratio.x * clipSize.w, ratio.y * clipSize.h;
    assert (Corner(ratio, 1).x - Corner(ratio, 0).x) * clipSize.w == 2.0 * px;
    assert (Corner(ratio, 3).y - Corner(ratio, 0).y) * clipSize.h == 2.0 * py;
  }

  // ---------------------------------------------------------------------------
  // Image-sequence frame path (get_frame_image)
  // ---------------------------------------------------------------------------

  /** The path of frame `frame` of an image-sequence clip whose file is `filepath`: everything before the
      first '0', the frame zero-filled to 5 characters, and everything from the last '.'. */
  function FramePath(filepath: string, frame: int): string {
    Before(filepath, Find(filepath, '0')) + ZFill(IntToStr(frame), 5) + From(filepath, RFind(filepath, '.'))
  }

  /** `find` returns the index of the first occurrence ... */
  lemma FindIsFirst(s: string, c: char, i: int)
    requires 0 <= i < |s| && s[i] == c && c !in s[..i]
    ensures Find(s, c) == i
  {
  }

  /** ... and `rfind` the index of the last. */
  lemma RFindIsLast(s: string, c: char, j: int)
    requires 0 <= j < |s| && s[j] == c && c !in s[j + 1..]
    ensures RFind(s, c) == j
  {
  }

  /** When the file name has a '0' (first at `i`) and a '.' (last at `j`), the path keeps `filepath[..i]` and
      `filepath[j..]` around the frame's digits; for `0 <= frame < 100000` these are exactly 5 and read
      back as `frame`. */
  lemma FramePathSplices(filepath: string, frame: int, i: int, j: int)
    requires 0 <= i < |filepath| && filepath[i] == '0' && '0' !in filepath[..i]
    requires 0 <= j < |filepath| && filepath[j] == '.' && '.' !in filepath[j + 1..]
    ensures FramePath(filepath, frame) == filepath[..i] + ZFill(IntToStr(frame), 5) + filepath[j..]
    ensures 0 <= frame < 100000 ==>
      var z := ZFill(IntToStr(frame), 5); |z| == 5 && AllDigits(z) && DigitsValue(z) == frame
  {
    FindIsFirst(filepath, '0', i);
    RFindIsLast(filepath, '.', j);
    if 0 <= frame < 100000 {
      assert Pow10(5) == 100000;
      ZFillNat(frame, 5);
    }
  }

  /** With no '0' in the file name, `find` gives -1 and `filepath[:-1]` drops only the last character;
      with no '.', `rfind` gives -1 and `filepath[-1:]` keeps only the last character. */
  lemma FramePathMissingMarks(filepath: string, frame: int)
    requires filepath != []
    ensures '0' !in filepath ==>
      FramePath(filepath, frame) == filepath[..|filepath| - 1] + ZFill(IntToStr(frame), 5) + From(filepath, RFind(filepath, '.'))
    ensures '.' !in filepath ==>
      FramePath(filepath, frame) == Before(filepath, Find(filepath, '0')) + ZFill(IntToStr(frame), 5) + [filepath[|filepath| - 1]]
  {
    if '.' !in filepath {
      assert filepath[|filepath| - 1..] == [filepath[|filepath| - 1]];
    }
  }

  /** The first '0' of the whole path is used, so a '0' in a directory name cuts the path there:
      frame 42 of `D:\v10\shot00001.png` is looked for at `D:\v100042.png`. */
  lemma FramePathZeroInDirectory(fp: string)
    requires fp == "D:\\v10\\shot00001.png"
    ensures FramePath(fp, 42) == "D:\\v1" + "00042" + ".png"
  {
    ExamplePathMarks(fp);
    FindIsFirst(fp, '0', 5);
    RFindIsLast(fp, '.', 16);
    ExampleFrameDigits();
    ExamplePathSlices(fp);
    assert FramePath(fp, 42) == Before(fp, 5) + "00042" + From(fp, 16);
  }

  lemma ExamplePathSlices(fp: string)
    requires fp == "D:\\v10\\shot00001.png"
    ensures Before(fp, 5) == "D:\\v1" && From(fp, 16) == ".png"
  {
    assert Before(fp, 5) == fp[..5];
    assert From(fp, 16) == fp[16..];
  }

  lemma ExamplePathMarks(fp: string)
    requires fp == "D:\\v10\\shot00001.png"
    ensures fp[5] == '0' && '0' !in fp[..5] && fp[16] == '.' && '.' !in fp[17..]
  {}

  lemma ExampleFrameDigits()
    ensures ZFill(IntToStr(42), 5) == "00042"
  {
    assert NatToStr(42) == "42";
  }
}
