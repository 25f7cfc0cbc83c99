/**
 * The integer circle rasteriser of lab3/app.py: `bresenham_circle` with its nested helper
 * `add_circle_points`.
 *
 * The loop walks offsets (x, y) from (0, r) with decision variable d = 3 - 2r; every
 * offset, the first included, is reflected into eight pixels about the centre. The model
 * keeps the source's behaviour exactly: no special case for r = 0, no check on the sign
 * of r, and the last batch is emitted after the step that makes y < x.
 */
module Circle {
  import opened Geometry

  /** The loop variables: the current offset and the decision variable. */
  datatype Octant = Octant(x: int, y: int, d: int)

  /** `add_circle_points`: offset (x, y) about (xc, yc) under sign flips and the x/y swap. */
  function Orbit(xc: int, yc: int, x: int, y: int): (r: seq<Point>)
    ensures |r| == 8
  {
    [ Point(xc + x, yc + y), Point(xc - x, yc + y), Point(xc + x, yc - y), Point(xc - x, yc - y),
      Point(xc + y, yc + x), Point(xc - y, yc + x), Point(xc + y, yc - x), Point(xc - y, yc - x) ]
  }

  /** The eight points of an orbit lie at the same squared distance x^2 + y^2 from the centre. */
  lemma OrbitRadius(xc: int, yc: int, x: int, y: int)
    ensures forall p :: p in Orbit(xc, yc, x, y) ==>
              (p.x - xc) * (p.x - xc) + (p.y - yc) * (p.y - yc) == x * x + y * y
  {
    assert (-x) * (-x) == x * x && (-y) * (-y) == y * y;
  }

  /** Reflection across the vertical line x = xc. */
  function MirrorX(xc: int, p: Point): Point
  {
    Point(2 * xc - p.x, p.y)
  }

  /** Reflection across the horizontal line y = yc. */
  function MirrorY(yc: int, p: Point): Point
  {
    Point(p.x, 2 * yc - p.y)
  }

  /** Reflection across the diagonal through (xc, yc). */
  function Transpose(xc: int, yc: int, p: Point): Point
  {
    Point(xc + (p.y - yc), yc + (p.x - xc))
  }

  /** A set of pixels with the eight symmetries of a circle centred at (xc, yc). */
  ghost predicate Symmetric(xc: int, yc: int, s: set<Point>)
  {
    forall p :: p in s ==> MirrorX(xc, p) in s && MirrorY(yc, p) in s && Transpose(xc, yc, p) in s
  }

  /** Each orbit is closed under the three reflections. */
  lemma OrbitSymmetric(xc: int, yc: int, x: int, y: int)
    ensures Symmetric(xc, yc, set p | p in Orbit(xc, yc, x, y))
  {
    var o := Orbit(xc, yc, x, y);
    // where each reflection sends the pixel at index k
    var mirrorX := [1, 0, 3, 2, 5, 4, 7, 6];
    var mirrorY := [2, 3, 0, 1, 6, 7, 4, 5];
    var swap := [4, 6, 5, 7, 0, 2, 1, 3];
    forall p | p in o
      ensures MirrorX(xc, p) in o && MirrorY(yc, p) in o && Transpose(xc, yc, p) in o
    {
      var k :| 0 <= k < 8 && o[k] == p;
      assert MirrorX(xc, p) == o[mirrorX[k]];
      assert MirrorY(yc, p) == o[mirrorY[k]];
      assert Transpose(xc, yc, p) == o[swap[k]];
    }
  }

  /** One iteration of the loop: x rises by one; y falls by one exactly when d > 0. */
  function Step(s: Octant): (t: Octant)
    ensures t.x == s.x + 1 && s.y - 1 <= t.y <= s.y
    ensures t.y - t.x < s.y - s.x
  {
    var x := s.x + 1;
    if s.d > 0 then Octant(x, s.y - 1, s.d + 4 * (x - (s.y - 1)) + 10)
    else Octant(x, s.y, s.d + 4 * x + 6)
  }

  /** The offsets the loop visits after `s`, in order; the loop runs while y >= x. */
  function Visits(s: Octant): seq<Octant>
    decreases s.y - s.x
  {
    if s.y >= s.x then [Step(s)] + Visits(Step(s)) else []
  }

  /** Every offset whose orbit `bresenham_circle(_, _, r)` emits, the starting one first. */
  function Offsets(r: int): seq<Octant>
  {
    [Octant(0, r, 3 - 2 * r)] + Visits(Octant(0, r, 3 - 2 * r))
  }

  /** The orbits of a sequence of offsets, concatenated in order. */
  function Orbits(xc: int, yc: int, gs: seq<Octant>): seq<Point>
  {
    if gs == [] then [] else Orbit(xc, yc, gs[0].x, gs[0].y) + Orbits(xc, yc, gs[1..])
  }

  /** The pixel list `bresenham_circle(xc, yc, r)` returns. */
  function CirclePath(xc: int, yc: int, r: int): (path: seq<Point>)
    ensures |path| >= 8 && path[..8] == Orbit(xc, yc, 0, r)
  {
    Orbits(xc, yc, Offsets(r))
  }

  /** The orbits occupy consecutive blocks of eight, one block per offset, in order. */
  lemma {:induction false} OrbitsBlocks(xc: int, yc: int, gs: seq<Octant>)
    ensures |Orbits(xc, yc, gs)| == 8 * |gs|
    ensures forall b :: 0 <= b < |gs| ==>
              Orbits(xc, yc, gs)[8 * b .. 8 * b + 8] == Orbit(xc, yc, gs[b].x, gs[b].y)
  {
    if gs != [] {
      OrbitsBlocks(xc, yc, gs[1..]);
      var head, rest := Orbit(xc, yc, gs[0].x, gs[0].y), Orbits(xc, yc, gs[1..]);
      assert Orbits(xc, yc, gs) == head + rest;
      forall b | 0 < b < |gs|
        ensures Orbits(xc, yc, gs)[8 * b .. 8 * b + 8] == Orbit(xc, yc, gs[b].x, gs[b].y)
      {
        assert rest[8 * (b - 1) .. 8 * (b - 1) + 8] == Orbit(xc, yc, gs[1..][b - 1].x, gs[1..][b - 1].y);
        assert (head + rest)[8 * b .. 8 * b + 8] == rest[8 * (b - 1) .. 8 * (b - 1) + 8];
      }
    }
  }

  /** A concatenation of orbits is closed under the three reflections. */
  lemma {:induction false} OrbitsSymmetric(xc: int, yc: int, gs: seq<Octant>)
    ensures Symmetric(xc, yc, set p | p in Orbits(xc, yc, gs))
  {
    if gs != [] {
      OrbitsSymmetric(xc, yc, gs[1..]);
      OrbitSymmetric(xc, yc, gs[0].x, gs[0].y);
      var head, rest := Orbit(xc, yc, gs[0].x, gs[0].y), Orbits(xc, yc, gs[1..]);
      assert (set p | p in head + rest) == (set p | p in head) + (set p | p in rest);
    }
  }

  /** The offsets from `s` on: what each iteration does to x and y, and when the loop stops. */
  lemma {:induction false} RunShape(s: Octant)
    ensures var t := [s] + Visits(s);
            && (forall k :: 0 <= k < |t| ==> t[k].x == s.x + k && t[k].y <= s.y)
            && (forall k :: 0 <= k < |t| - 1 ==>
                  t[k].y >= t[k].x && t[k + 1].y == t[k].y - (if t[k].d > 0 then 1 else 0))
            && t[|t| - 1].y < t[|t| - 1].x
    decreases s.y - s.x
  {
    if s.y >= s.x {
      RunShape(Step(s));
      assert [s] + Visits(s) == [s] + ([Step(s)] + Visits(Step(s)));
    }
  }

  /** The decision variable in closed form, for radius r. */
  function Decision(r: int, x: int, y: int): int
  {
    2 * (x * x + y * y - r * r) + 8 * x - 6 * y + 4 * r + 3
  }

  lemma StepDecision(r: int, s: Octant)
    requires s.d == Decision(r, s.x, s.y)
    ensures Step(s).d == Decision(r, Step(s).x, Step(s).y)
  {
    var x := s.x + 1;
    assert x * x == s.x * s.x + 2 * s.x + 1;
    if s.d > 0 {
      assert (s.y - 1) * (s.y - 1) == s.y * s.y - 2 * s.y + 1;
    }
  }

  lemma {:induction false} VisitsDecision(r: int, s: Octant)
    requires s.d == Decision(r, s.x, s.y)
    ensures forall t :: t in Visits(s) ==> t.d == Decision(r, t.x, t.y)
    decreases s.y - s.x
  {
    if s.y >= s.x {
      StepDecision(r, s);
      VisitsDecision(r, Step(s));
    }
  }

  /**
   * What the loop computes: offset k has x == k; y starts at r, never rises, and falls by
   * one exactly when d > 0; the loop continues while y >= x and stops on the first offset
   * with y < x; d stays equal to 2(x^2 + y^2 - r^2) + 8x - 6y + 4r + 3, so it is exact
   * integer arithmetic with no drift; and there are at most r + 2 offsets (one when r < 0).
   */
  lemma OffsetsShape(r: int)
    ensures var g := Offsets(r);
            && g[0] == Octant(0, r, 3 - 2 * r)
            && (forall k :: 0 <= k < |g| ==> g[k].x == k && g[k].y <= r)
            && (forall k :: 0 <= k < |g| - 1 ==>
                  g[k].y >= g[k].x && g[k + 1].y == g[k].y - (if g[k].d > 0 then 1 else 0))
            && g[|g| - 1].y < g[|g| - 1].x
            && (forall k :: 0 <= k < |g| ==> g[k].d == Decision(r, g[k].x, g[k].y))
            && |g| <= (if r < 0 then 1 else r + 2)
  {
    var s := Octant(0, r, 3 - 2 * r);
    RunShape(s);
    VisitsDecision(r, s);
    var g := Offsets(r);
    forall k | 0 <= k < |g|
      ensures g[k].d == Decision(r, g[k].x, g[k].y)
    {
      if k > 0 {
        assert g[k] in Visits(s);
      }
    }
    if |g| >= 2 {
      assert g[|g| - 2].y >= g[|g| - 2].x;
    }
  }

  /**
   * The output has eight pixels per offset: block b is the orbit of offset b. So its
   * length is a multiple of eight and its pixel set has the circle's symmetries.
   */
  lemma CircleStructure(xc: int, yc: int, r: int)
    ensures |CirclePath(xc, yc, r)| == 8 * |Offsets(r)|
    ensures forall b :: 0 <= b < |Offsets(r)| ==>
              CirclePath(xc, yc, r)[8 * b .. 8 * b + 8] == Orbit(xc, yc, Offsets(r)[b].x, Offsets(r)[b].y)
    ensures Symmetric(xc, yc, set p | p in CirclePath(xc, yc, r))
  {
    OrbitsBlocks(xc, yc, Offsets(r));
    OrbitsSymmetric(xc, yc, Offsets(r));
  }

  lemma CircleLength(xc: int, yc: int, r: int)
    ensures |CirclePath(xc, yc, r)| % 8 == 0
  {
    OrbitsBlocks(xc, yc, Offsets(r));
  }

  /** Radius 0 is not special-cased: eight copies of the centre, then its diagonal neighbours. */
  lemma ZeroRadius(xc: int, yc: int)
    ensures CirclePath(xc, yc, 0)
         == [ Point(xc, yc), Point(xc, yc), Point(xc, yc), Point(xc, yc),
              Point(xc, yc), Point(xc, yc), Point(xc, yc), Point(xc, yc),
              Point(xc + 1, yc - 1), Point(xc - 1, yc - 1), Point(xc + 1, yc + 1), Point(xc - 1, yc + 1),
              Point(xc - 1, yc + 1), Point(xc + 1, yc + 1), Point(xc - 1, yc - 1), Point(xc + 1, yc - 1) ]
  {
    var g := Offsets(0);
    assert g == [Octant(0, 0, 3), Octant(1, -1, 21)];
    assert g[1..][1..] == [];
    assert Orbits(xc, yc, g) == Orbit(xc, yc, 0, 0) + Orbit(xc, yc, 1, -1) + Orbits(xc, yc, []);
  }

  /** A negative radius is not rejected: the loop never runs and one orbit of (0, r) is returned. */
  lemma NegativeRadius(xc: int, yc: int, r: int)
    requires r < 0
    ensures CirclePath(xc, yc, r) == Orbit(xc, yc, 0, r)
  {
    var g := Offsets(r);
    assert g == [Octant(0, r, 3 - 2 * r)];
    assert Orbits(xc, yc, g) == Orbit(xc, yc, 0, r) + Orbits(xc, yc, g[1..]);
  }

  /** One loop iteration emits the orbit of the next offset. */
  lemma OrbitsOfVisits(xc: int, yc: int, s: Octant, done: seq<Point>, path: seq<Point>)
    requires s.y >= s.x && done + Orbits(xc, yc, Visits(s)) == path
    ensures (done + Orbit(xc, yc, Step(s).x, Step(s).y)) + Orbits(xc, yc, Visits(Step(s))) == path
  {
    assert Visits(s) == [Step(s)] + Visits(Step(s));
    assert Visits(s)[1..] == Visits(Step(s));
  }

  lemma OrbitsOfOffsets(xc: int, yc: int, r: int)
    ensures CirclePath(xc, yc, r) == Orbit(xc, yc, 0, r) + Orbits(xc, yc, Visits(Octant(0, r, 3 - 2 * r)))
  {
    assert Offsets(r)[1..] == Visits(Octant(0, r, 3 - 2 * r));
  }

  /** `bresenham_circle`. */
  method BresenhamCircle(xc: int, yc: int, r: int) returns (pixels: seq<Point>)
    ensures pixels == CirclePath(xc, yc, r)
    ensures |pixels| % 8 == 0
  {
    pixels := [];
    var x := 0;
    var y := r;
    var d := 3 - 2 * r;
    pixels := pixels + Orbit(xc, yc, x, y);
    ghost var path := CirclePath(xc, yc, r);
    OrbitsOfOffsets(xc, yc, r);
    ghost var s := Octant(x, y, d);
    while y >= x
      invariant s.x == x && s.y == y && s.d == d
      invariant pixels + Orbits(xc, yc, Visits(s)) == path
      decreases y - x
    {
      x := x + 1;
      if d > 0 {
        y := y - 1;
        d := d + 4 * (x - y) + 10;
      } else {
        d := d + 4 * x + 6;
      }
      assert Octant(x, y, d) == Step(s);
      OrbitsOfVisits(xc, yc, s, pixels, path);
      s := Step(s);
      pixels := pixels + Orbit(xc, yc, x, y);
    }
    assert pixels == path;
    CircleLength(xc, yc, r);
  }
}
