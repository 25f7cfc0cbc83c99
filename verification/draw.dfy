/**
 * The request handlers of lab3/app.py, `draw` and `draw_circle`, as a dispatcher over a
 * closed set of algorithm tags. Flask routing, JSON decoding, the `int()` coercions and
 * the timing are outside the model; the three floating-point line algorithms are passed
 * in as functions, since this model does not define them.
 */
module Draw {
  import opened Wrappers
  import opened Geometry
  import Line
  import Circle

  datatype Algorithm = StepByStep | Dda | Bresenham | Wu | CastlePitway

  /** The string a request uses to select each algorithm. */
  function Tag(a: Algorithm): string
  {
    match a
    case StepByStep => "step_by_step"
    case Dda => "dda"
    case Bresenham => "bresenham"
    case Wu => "wu"
    case CastlePitway => "castle_pitway"
  }

  /** The algorithm a tag selects; every other string selects none. */
  function ParseAlgorithm(tag: string): (a: Option<Algorithm>)
    ensures a.Some? ==> Tag(a.value) == tag
    ensures a.None? ==> forall b: Algorithm :: Tag(b) != tag
  {
    if tag == "step_by_step" then Some(StepByStep)
    else if tag == "dda" then Some(Dda)
    else if tag == "bresenham" then Some(Bresenham)
    else if tag == "wu" then Some(Wu)
    else if tag == "castle_pitway" then Some(CastlePitway)
    else None
  }

  lemma ParseTag(a: Algorithm)
    ensures ParseAlgorithm(Tag(a)) == Some(a)
  {
  }

  /** A pixel as an algorithm returns it: an (x, y) pair, or for Wu an (x, y, intensity) triple. */
  datatype RawPixel = Pair(x: int, y: int) | Triple(x: int, y: int, intensity: real)

  /** A pixel object of the response; the `intensity` key is present only for triples. */
  datatype PixelJson = PixelJson(x: int, y: int, intensity: Option<real>)

  /** The response body: the drawn pixels and their count, or an error with its HTTP status. */
  datatype Response = Drawn(pixels: seq<PixelJson>, count: int) | Rejected(status: int, error: string)

  /** The floating-point line algorithms `step_by_step_line`, `dda_line` and `wu_line`. */
  datatype FloatLines = FloatLines(
    stepByStep: (int, int, int, int) -> seq<Point>,
    dda: (int, int, int, int) -> seq<Point>,
    wu: (int, int, int, int) -> seq<(int, int, real)>)

  function Pairs(ps: seq<Point>): (r: seq<RawPixel>)
    ensures |r| == |ps| && forall k :: 0 <= k < |ps| ==> r[k] == Pair(ps[k].x, ps[k].y)
  {
    seq(|ps|, k requires 0 <= k < |ps| => Pair(ps[k].x, ps[k].y))
  }

  function Triples(ts: seq<(int, int, real)>): (r: seq<RawPixel>)
    ensures |r| == |ts| && forall k :: 0 <= k < |ts| ==> r[k] == Triple(ts[k].0, ts[k].1, ts[k].2)
  {
    seq(|ts|, k requires 0 <= k < |ts| => Triple(ts[k].0, ts[k].1, ts[k].2))
  }

  /** The pixel list the selected algorithm returns. */
  function Rasterize(a: Algorithm, x1: int, y1: int, x2: int, y2: int, float: FloatLines): (r: seq<RawPixel>)
    ensures forall k :: 0 <= k < |r| ==> (r[k].Triple? <==> a == Wu)
    ensures a == Bresenham || a == CastlePitway ==>
              |r| == Max(Abs(x2 - x1), Abs(y2 - y1)) + 1 && r[0] == Pair(x1, y1)
  {
    match a
    case StepByStep => Pairs(float.stepByStep(x1, y1, x2, y2))
    case Dda => Pairs(float.dda(x1, y1, x2, y2))
    case Bresenham => Pairs(Line.LinePath(x1, y1, x2, y2))
    case Wu => Triples(float.wu(x1, y1, x2, y2))
    case CastlePitway => Pairs(Line.LinePath(x1, y1, x2, y2))
  }

  /** The response object for one pixel: x and y always, intensity exactly for a triple. */
  function ToJson(p: RawPixel): (j: PixelJson)
    ensures j.x == p.x && j.y == p.y
    ensures j.intensity.Some? <==> p.Triple?
    ensures p.Triple? ==> j.intensity.value == p.intensity
  {
    match p
    case Pair(x, y) => PixelJson(x, y, None)
    case Triple(x, y, i) => PixelJson(x, y, Some(i))
  }

  /** `draw`: select the line algorithm by tag, run it, and shape the response. */
  method DrawLine(algorithm: string, x1: int, y1: int, x2: int, y2: int, float: FloatLines)
    returns (resp: Response)
    ensures resp.Rejected? <==> ParseAlgorithm(algorithm).None?
    ensures resp.Rejected? ==> resp.status == 400 && resp.error == "Unknown algorithm"
    ensures resp.Drawn? ==> resp.count == |resp.pixels|
    ensures resp.Drawn? ==>
              var raw := Rasterize(ParseAlgorithm(algorithm).value, x1, y1, x2, y2, float);
              |resp.pixels| == |raw| && forall k :: 0 <= k < |raw| ==> resp.pixels[k] == ToJson(raw[k])
    ensures resp.Drawn? ==>
              forall k :: 0 <= k < |resp.pixels| ==> (resp.pixels[k].intensity.Some? <==> algorithm == "wu")
  {
    var raw: seq<RawPixel>;
    if algorithm == "step_by_step" {
      raw := Pairs(float.stepByStep(x1, y1, x2, y2));
    } else if algorithm == "dda" {
      raw := Pairs(float.dda(x1, y1, x2, y2));
    } else if algorithm == "bresenham" {
      var pixels := Line.BresenhamLine(x1, y1, x2, y2);
      raw := Pairs(pixels);
    } else if algorithm == "wu" {
      raw := Triples(float.wu(x1, y1, x2, y2));
    } else if algorithm == "castle_pitway" {
      var pixels := Line.CastlePitwayLine(x1, y1, x2, y2);
      raw := Pairs(pixels);
    } else {
      return Rejected(400, "Unknown algorithm");
    }
    assert raw == Rasterize(ParseAlgorithm(algorithm).value, x1, y1, x2, y2, float);
    var result: seq<PixelJson> := [];
    for k := 0 to |raw|
      invariant |result| == k
      invariant forall i :: 0 <= i < k ==> result[i] == ToJson(raw[i])
    {
      var pixel := raw[k];
      if pixel.Triple? {
        result := result + [PixelJson(pixel.x, pixel.y, Some(pixel.intensity))];
      } else {
        result := result + [PixelJson(pixel.x, pixel.y, None)];
      }
    }
    resp := Drawn(result, |raw|);
  }

  /**
   * The integer line algorithms answer with the Bresenham path itself: max(|x2-x1|, |y2-y1|) + 1
   * pixels from (x1, y1) to (x2, y2), none with an intensity.
   */
  lemma IntegerLineResponse(tag: string, x1: int, y1: int, x2: int, y2: int, float: FloatLines)
    requires tag == "bresenham" || tag == "castle_pitway"
    ensures var raw := Rasterize(ParseAlgorithm(tag).value, x1, y1, x2, y2, float);
            var path := Line.LinePath(x1, y1, x2, y2);
            && |raw| == Max(Abs(x2 - x1), Abs(y2 - y1)) + 1
            && forall k :: 0 <= k < |raw| ==> ToJson(raw[k]) == PixelJson(path[k].x, path[k].y, None)
  {
  }

  /** `draw_circle`: run the circle rasteriser and report its pixels and their count. */
  method DrawCircle(xc: int, yc: int, r: int) returns (resp: Response)
    ensures resp.Drawn?
    ensures resp.count == |resp.pixels| && resp.count % 8 == 0
    ensures var path := Circle.CirclePath(xc, yc, r);
            |resp.pixels| == |path| &&
            forall k :: 0 <= k < |path| ==> resp.pixels[k] == PixelJson(path[k].x, path[k].y, None)
  {
    var pixels := Circle.BresenhamCircle(xc, yc, r);
    var result := seq(|pixels|, k requires 0 <= k < |pixels| => PixelJson(pixels[k].x, pixels[k].y, None));
    resp := Drawn(result, |pixels|);
  }
}
