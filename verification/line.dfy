/**
 * The integer line rasteriser of lab3/app.py: `bresenham_line` and its textual twin
 * `castle_pitway_line`. Both run one all-octant Bresenham loop with sign steps sx, sy and
 * a single error term err = dx - dy.
 *
 * The loop is specified by iterating its body: `Step` is one pass on a `Cursor` (the loop
 * variables x, y, err), `After(L, n)` the cursor after n passes, `Drawn(L, n)` the pixels
 * those passes append, and `LinePath` the pixels of max(dx, dy) + 1 passes. `Trace`, a
 * recursive description that runs the same steps until the end point, shows that the loop
 * stops exactly there. Its invariant `Inv`: writing i for the number of x-steps taken and
 * j for the number of y-steps, err == dx*(1+j) - dy*(1+i), 0 <= i <= dx and 0 <= j <= dy,
 * plus two bounds on err that make the dominant axis advance on every iteration.
 */
module Line {
  import opened Geometry

  /** The quantities fixed before the loop starts. */
  datatype Setup = Setup(x1: int, y1: int, x2: int, y2: int, dx: int, dy: int, sx: int, sy: int)

  /** The loop variables. */
  datatype Cursor = Cursor(x: int, y: int, err: int)

  function MakeSetup(x1: int, y1: int, x2: int, y2: int): Setup
  {
    Setup(x1, y1, x2, y2, Abs(x2 - x1), Abs(y2 - y1),
          if x1 < x2 then 1 else -1, if y1 < y2 then 1 else -1)
  }

  function Start(L: Setup): Cursor
  {
    Cursor(L.x1, L.y1, L.dx - L.dy)
  }

  /** Number of x-steps taken so far (each moves x by sx). */
  function XSteps(L: Setup, c: Cursor): int
  {
    if L.sx == 1 then c.x - L.x1 else L.x1 - c.x
  }

  /** Number of y-steps taken so far (each moves y by sy). */
  function YSteps(L: Setup, c: Cursor): int
  {
    if L.sy == 1 then c.y - L.y1 else L.y1 - c.y
  }

  predicate AtEnd(L: Setup, c: Cursor)
  {
    c.x == L.x2 && c.y == L.y2
  }

  /**
   * The invariant on the counters alone: i x-steps and j y-steps taken, neither past its
   * total, the closed form of err, and the bounds that keep the dominant axis moving.
   */
  ghost predicate Counters(dx: int, dy: int, i: int, j: int, err: int)
  {
    && 0 <= i <= dx
    && 0 <= j <= dy
    && err == dx * (1 + j) - dy * (1 + i)
    && (dy <= dx && 0 < dx ==> -dy < 2 * err < 3 * dx - 2 * dy)
    && (dx < dy ==> 2 * err < dx)
  }

  ghost predicate Inv(L: Setup, c: Cursor)
  {
    && L == MakeSetup(L.x1, L.y1, L.x2, L.y2)
    && Counters(L.dx, L.dy, XSteps(L, c), YSteps(L, c), c.err)
  }

  /** Steps still to take on both axes together; the loop's termination measure. */
  ghost function Remaining(L: Setup, c: Cursor): int
  {
    (L.dx - XSteps(L, c)) + (L.dy - YSteps(L, c))
  }

  /** The x half of an iteration: with e2 = 2*err taken before either half, step x when e2 > -dy. */
  function XHalf(L: Setup, e2: int, c: Cursor): Cursor
  {
    if e2 > -L.dy then Cursor(c.x + L.sx, c.y, c.err - L.dy) else c
  }

  /** The y half of an iteration: step y when e2 < dx. */
  function YHalf(L: Setup, e2: int, c: Cursor): Cursor
  {
    if e2 < L.dx then Cursor(c.x, c.y + L.sy, c.err + L.dx) else c
  }

  /** One iteration of the loop after the pixel is appended and the end test fails. */
  function Step(L: Setup, c: Cursor): (r: Cursor)
    ensures r.x == c.x || r.x == c.x + L.sx
    ensures r.y == c.y || r.y == c.y + L.sy
    ensures 0 <= L.dx && 0 <= L.dy && 0 < L.dx + L.dy && L.sx != 0 && L.sy != 0 ==>
              r.x != c.x || r.y != c.y
  {
    YHalf(L, 2 * c.err, XHalf(L, 2 * c.err, c))
  }

  lemma MulMono(a: int, b: int, c: int)
    requires 0 <= a && b <= c
    ensures a * b <= a * c
  {
    assert a * c - a * b == a * (c - b);
  }

  lemma StartInv(L: Setup)
    requires L == MakeSetup(L.x1, L.y1, L.x2, L.y2)
    ensures Inv(L, Start(L))
  {
  }

  /** With all dx x-steps taken and a y-step still to come, err is at most -dy. */
  lemma XExhausted(dx: int, dy: int, j: int, err: int)
    requires 0 <= dx && 0 <= j < dy && err == dx * (1 + j) - dy * (1 + dx)
    ensures 2 * err <= -dy
  {
    MulMono(dx, 1 + j, dy);
    assert dy * (1 + dx) == dy + dx * dy;
  }

  /** With all dy y-steps taken and an x-step still to come, err is at least dx. */
  lemma YExhausted(dx: int, dy: int, i: int, err: int)
    requires 0 <= dy && 0 <= i < dx && err == dx * (1 + dy) - dy * (1 + i)
    ensures 2 * err >= dx
  {
    MulMono(dy, 1 + i, dx);
    assert dx * (1 + dy) == dx + dx * dy;
  }

  /** Once one axis is exhausted, err forbids a further step along it. */
  lemma NoOvershoot(dx: int, dy: int, i: int, j: int, err: int)
    requires Counters(dx, dy, i, j, err) && !(i == dx && j == dy)
    ensures i == dx ==> 2 * err <= -dy
    ensures j == dy ==> 2 * err >= dx
  {
    if i == dx {
      XExhausted(dx, dy, j, err);
    }
    if j == dy {
      YExhausted(dx, dy, i, err);
    }
  }

  /** An x-step subtracts dy and a y-step adds dx, keeping the closed form of err. */
  lemma ClosedFormStep(dx: int, dy: int, i: int, j: int, err: int, xStep: bool, yStep: bool)
    requires err == dx * (1 + j) - dy * (1 + i)
    ensures err - (if xStep then dy else 0) + (if yStep then dx else 0)
         == dx * (1 + (if yStep then j + 1 else j)) - dy * (1 + (if xStep then i + 1 else i))
  {
    if xStep { assert dy * (1 + (i + 1)) == dy * (1 + i) + dy; }
    if yStep { assert dx * (1 + (j + 1)) == dx * (1 + j) + dx; }
  }

  /** The counters after one iteration that did not stop at the end point. */
  lemma CountersStep(dx: int, dy: int, i: int, j: int, err: int)
    requires Counters(dx, dy, i, j, err) && !(i == dx && j == dy)
    ensures var xStep, yStep := 2 * err > -dy, 2 * err < dx;
            && (xStep || yStep)
            && Counters(dx, dy, if xStep then i + 1 else i, if yStep then j + 1 else j,
                        err - (if xStep then dy else 0) + (if yStep then dx else 0))
  {
    var xStep, yStep := 2 * err > -dy, 2 * err < dx;
    NoOvershoot(dx, dy, i, j, err);
    ClosedFormStep(dx, dy, i, j, err, xStep, yStep);
  }

  /** An iteration adds one to the x-step count when it steps x, and likewise for y. */
  lemma StepCounts(L: Setup, c: Cursor)
    requires L.sx == 1 || L.sx == -1
    requires L.sy == 1 || L.sy == -1
    ensures XSteps(L, Step(L, c)) == XSteps(L, c) + (if 2 * c.err > -L.dy then 1 else 0)
    ensures YSteps(L, Step(L, c)) == YSteps(L, c) + (if 2 * c.err < L.dx then 1 else 0)
    ensures Step(L, c).err == c.err - (if 2 * c.err > -L.dy then L.dy else 0) + (if 2 * c.err < L.dx then L.dx else 0)
  {
  }

  /** One iteration keeps the invariant and strictly decreases the remaining steps. */
  lemma StepKeepsInv(L: Setup, c: Cursor)
    requires Inv(L, c) && !AtEnd(L, c)
    ensures Inv(L, Step(L, c))
    ensures Remaining(L, Step(L, c)) < Remaining(L, c)
  {
    var i, j := XSteps(L, c), YSteps(L, c);
    var xStep, yStep := 2 * c.err > -L.dy, 2 * c.err < L.dx;
    CountersStep(L.dx, L.dy, i, j, c.err);
    StepCounts(L, c);
    assert Counters(L.dx, L.dy, if xStep then i + 1 else i, if yStep then j + 1 else j, Step(L, c).err);
  }

  /** The pixels the loop appends, starting from cursor `c`, in order. */
  function Trace(L: Setup, c: Cursor): (r: seq<Point>)
    requires Inv(L, c)
    decreases Remaining(L, c)
  {
    if AtEnd(L, c) then [Point(c.x, c.y)]
    else
      StepKeepsInv(L, c);
      [Point(c.x, c.y)] + Trace(L, Step(L, c))
  }

  /**
   * The pixel list `bresenham_line(x1, y1, x2, y2)` returns: the pixels of the first
   * max(dx, dy) + 1 iterations. `LinePathTrace` shows that the loop stops exactly there.
   */
  function LinePath(x1: int, y1: int, x2: int, y2: int): (r: seq<Point>)
    ensures |r| == Max(Abs(x2 - x1), Abs(y2 - y1)) + 1
    ensures r[0] == Point(x1, y1)
  {
    var L := MakeSetup(x1, y1, x2, y2);
    Drawn(L, Max(L.dx, L.dy) + 1)
  }
  /** A single move of the loop: each coordinate stays or advances by its sign step. */
  predicate Moves(L: Setup, p: Point, q: Point)
  {
    && (q.x == p.x || q.x == p.x + L.sx)
    && (q.y == p.y || q.y == p.y + L.sy)
    && q != p
  }

  lemma {:induction false} TraceEnds(L: Setup, c: Cursor)
    requires Inv(L, c)
    ensures Trace(L, c)[0] == Point(c.x, c.y)
    ensures Trace(L, c)[|Trace(L, c)| - 1] == Point(L.x2, L.y2)
    ensures forall k :: 0 <= k < |Trace(L, c)| - 1 ==> Trace(L, c)[k] != Point(L.x2, L.y2)
    decreases Remaining(L, c)
  {
    if !AtEnd(L, c) {
      StepKeepsInv(L, c);
      TraceEnds(L, Step(L, c));
    }
  }

  /** The dominant axis advances on every iteration, so the trace has one pixel per step left on it. */
  lemma {:induction false} TraceLength(L: Setup, c: Cursor)
    requires Inv(L, c)
    ensures |Trace(L, c)| == 1 + if L.dy <= L.dx then L.dx - XSteps(L, c) else L.dy - YSteps(L, c)
    decreases Remaining(L, c)
  {
    if !AtEnd(L, c) {
      StepKeepsInv(L, c);
      TraceLength(L, Step(L, c));
    }
  }

  lemma {:induction false} TraceMoves(L: Setup, c: Cursor)
    requires Inv(L, c)
    ensures forall k :: 0 <= k < |Trace(L, c)| - 1 ==> Moves(L, Trace(L, c)[k], Trace(L, c)[k + 1])
    decreases Remaining(L, c)
  {
    if !AtEnd(L, c) {
      StepKeepsInv(L, c);
      TraceMoves(L, Step(L, c));
      TraceEnds(L, Step(L, c));
    }
  }

  lemma {:induction false} TraceInBox(L: Setup, c: Cursor)
    requires Inv(L, c)
    ensures forall k :: 0 <= k < |Trace(L, c)| ==>
              Between(L.x1, Trace(L, c)[k].x, L.x2) && Between(L.y1, Trace(L, c)[k].y, L.y2)
    decreases Remaining(L, c)
  {
    assert Between(L.x1, c.x, L.x2) && Between(L.y1, c.y, L.y2);
    if !AtEnd(L, c) {
      StepKeepsInv(L, c);
      TraceInBox(L, Step(L, c));
      var r := Trace(L, c);
      assert r == [Point(c.x, c.y)] + Trace(L, Step(L, c));
      forall k | 0 < k < |r|
        ensures Between(L.x1, r[k].x, L.x2) && Between(L.y1, r[k].y, L.y2)
      {
        assert r[k] == Trace(L, Step(L, c))[k - 1];
      }
    }
  }

  /** The line starts at (x1, y1), ends at (x2, y2), and reaches the end point only once, last. */
  lemma LineEndpoints(x1: int, y1: int, x2: int, y2: int)
    ensures var p := LinePath(x1, y1, x2, y2);
            && |p| >= 1
            && p[0] == Point(x1, y1)
            && p[|p| - 1] == Point(x2, y2)
            && forall k :: 0 <= k < |p| - 1 ==> p[k] != Point(x2, y2)
  {
    var L := MakeSetup(x1, y1, x2, y2);
    LinePathTrace(x1, y1, x2, y2);
    TraceEnds(L, Start(L));
  }

  /**
   * Run until the end test succeeds, the loop appends max(|x2-x1|, |y2-y1|) + 1 pixels:
   * the count is forced by the stopping point, not chosen.
   */
  lemma LineLength(x1: int, y1: int, x2: int, y2: int)
    ensures Inv(MakeSetup(x1, y1, x2, y2), Start(MakeSetup(x1, y1, x2, y2)))
    ensures |Trace(MakeSetup(x1, y1, x2, y2), Start(MakeSetup(x1, y1, x2, y2)))|
            == Max(Abs(x2 - x1), Abs(y2 - y1)) + 1
  {
    var L := MakeSetup(x1, y1, x2, y2);
    StartInv(L);
    TraceLength(L, Start(L));
  }

  /**
   * Consecutive pixels are 8-neighbours and never equal: x moves only by sx (1 if x1 < x2,
   * else -1) and y only by sy (1 if y1 < y2, else -1), each by at most one.
   */
  lemma LineSteps(x1: int, y1: int, x2: int, y2: int)
    ensures var p := LinePath(x1, y1, x2, y2);
            var sx, sy := if x1 < x2 then 1 else -1, if y1 < y2 then 1 else -1;
            forall k :: 0 <= k < |p| - 1 ==>
              && (p[k + 1].x == p[k].x || p[k + 1].x == p[k].x + sx)
              && (p[k + 1].y == p[k].y || p[k + 1].y == p[k].y + sy)
              && p[k + 1] != p[k]
  {
    var L := MakeSetup(x1, y1, x2, y2);
    LinePathTrace(x1, y1, x2, y2);
    TraceMoves(L, Start(L));
    var p := Trace(L, Start(L));
    forall k | 0 <= k < |p| - 1
      ensures && (p[k + 1].x == p[k].x || p[k + 1].x == p[k].x + L.sx)
              && (p[k + 1].y == p[k].y || p[k + 1].y == p[k].y + L.sy)
              && p[k + 1] != p[k]
    {
      assert Moves(L, p[k], p[k + 1]);
    }
  }

  /** No pixel leaves the box spanned by the end points. */
  lemma LineInBox(x1: int, y1: int, x2: int, y2: int)
    ensures forall k :: 0 <= k < |LinePath(x1, y1, x2, y2)| ==>
              && Between(x1, LinePath(x1, y1, x2, y2)[k].x, x2)
              && Between(y1, LinePath(x1, y1, x2, y2)[k].y, y2)
  {
    var L := MakeSetup(x1, y1, x2, y2);
    LinePathTrace(x1, y1, x2, y2);
    TraceInBox(L, Start(L));
  }

  /** The trace from `c` is the single pixel at `c` exactly when `c` is the end point. */
  lemma TraceAtEnd(L: Setup, c: Cursor)
    requires Inv(L, c)
    ensures AtEnd(L, c) <==> |Trace(L, c)| == 1
  {
    if !AtEnd(L, c) {
      StepKeepsInv(L, c);
      assert |Trace(L, c)| == 1 + |Trace(L, Step(L, c))|;
    }
  }

  /** The loop's body: appending the current pixel and stepping keeps the path invariant. */
  lemma TraceStep(L: Setup, c: Cursor, done: seq<Point>, path: seq<Point>)
    requires Inv(L, c) && !AtEnd(L, c) && done + Trace(L, c) == path
    ensures Inv(L, Step(L, c)) && Remaining(L, Step(L, c)) < Remaining(L, c)
    ensures (done + [Point(c.x, c.y)]) + Trace(L, Step(L, c)) == path
  {
    StepKeepsInv(L, c);
    assert Trace(L, c) == [Point(c.x, c.y)] + Trace(L, Step(L, c));
  }

  /** The loop variables after n iterations that did not stop. */
  function After(L: Setup, n: nat): Cursor
  {
    if n == 0 then Start(L) else Step(L, After(L, n - 1))
  }

  /** The pixels appended by the first n iterations. */
  function Drawn(L: Setup, n: nat): (r: seq<Point>)
    ensures |r| == n
    ensures n > 0 ==> r[0] == Point(L.x1, L.y1)
  {
    if n == 0 then [] else Drawn(L, n - 1) + [Point(After(L, n - 1).x, After(L, n - 1).y)]
  }

  /**
   * Up to Max(L.dx, L.dy) iterations, the pixels drawn so far followed by the trace from the current
   * loop variables make up the whole line, and that trace has Max(L.dx, L.dy) + 1 - n pixels left.
   */
  lemma {:induction false} DrawnThenTrace(L: Setup, n: nat)
    requires L == MakeSetup(L.x1, L.y1, L.x2, L.y2) && n <= Max(L.dx, L.dy)
    ensures Inv(L, After(L, n))
    ensures Inv(L, Start(L)) && Drawn(L, n) + Trace(L, After(L, n)) == Trace(L, Start(L))
    ensures |Trace(L, After(L, n))| == Max(L.dx, L.dy) + 1 - n
  {
    StartInv(L);
    TraceLength(L, Start(L));
    if n > 0 {
      DrawnThenTrace(L, n - 1);
      var c := After(L, n - 1);
      TraceAtEnd(L, c);
      TraceStep(L, c, Drawn(L, n - 1), Trace(L, Start(L)));
      assert After(L, n) == Step(L, c);
      assert Drawn(L, n) == Drawn(L, n - 1) + [Point(c.x, c.y)];
    }
  }

  /** Within Max(L.dx, L.dy) iterations the end point is reached exactly at the last one. */
  lemma LoopEnd(L: Setup, n: nat)
    requires L == MakeSetup(L.x1, L.y1, L.x2, L.y2) && n <= Max(L.dx, L.dy)
    ensures AtEnd(L, After(L, n)) <==> n == Max(L.dx, L.dy)
  {
    DrawnThenTrace(L, n);
    TraceAtEnd(L, After(L, n));
  }

  /** The line is the trace from the start: the loop runs until the end point and no further. */
  lemma LinePathTrace(x1: int, y1: int, x2: int, y2: int)
    ensures Inv(MakeSetup(x1, y1, x2, y2), Start(MakeSetup(x1, y1, x2, y2)))
    ensures LinePath(x1, y1, x2, y2) == Trace(MakeSetup(x1, y1, x2, y2), Start(MakeSetup(x1, y1, x2, y2)))
  {
    var L := MakeSetup(x1, y1, x2, y2);
    var n := Max(L.dx, L.dy);
    DrawnThenTrace(L, n);
    var c := After(L, n);
    TraceAtEnd(L, c);
    assert Trace(L, c) == [Point(c.x, c.y)];
    assert Drawn(L, n + 1) == Drawn(L, n) + [Point(c.x, c.y)];
  }

  /** `bresenham_line`: the all-octant integer loop. */
  method BresenhamLine(x1: int, y1: int, x2: int, y2: int) returns (pixels: seq<Point>)
    ensures pixels == LinePath(x1, y1, x2, y2)
    ensures |pixels| == Max(Abs(x2 - x1), Abs(y2 - y1)) + 1
    ensures pixels[0] == Point(x1, y1) && pixels[|pixels| - 1] == Point(x2, y2)
  {
    pixels := [];
    var dx: int := Abs(x2 - x1);
    var dy: int := Abs(y2 - y1);
    var sx := if x1 < x2 then 1 else -1;
    var sy := if y1 < y2 then 1 else -1;
    var err := dx - dy;
    var x, y := x1, y1;
    ghost var L := MakeSetup(x1, y1, x2, y2);
    ghost var n: nat := 0;
    ghost var c := Start(L);
    assert L.dx == dx && L.dy == dy && L.sx == sx && L.sy == sy;
    while true
      invariant n <= Max(L.dx, L.dy) && c == After(L, n)
      invariant c.x == x && c.y == y && c.err == err
      invariant pixels == Drawn(L, n)
      decreases Max(L.dx, L.dy) - n
    {
      pixels := pixels + [Point(x, y)];
      LoopEnd(L, n);
      if x == x2 && y == y2 {
        break;
      }
      var e2 := 2 * err;
      if e2 > -dy {
        err := err - dy;
        x := x + sx;
      }
      if e2 < dx {
        err := err + dx;
        y := y + sy;
      }
      assert Cursor(x, y, err) == Step(L, c);
      c := Step(L, c);
      n := n + 1;
    }
    LineEndpoints(x1, y1, x2, y2);
  }

  /**
   * `castle_pitway_line`: the same loop, written on the parameters themselves; here the
   * moving end is kept in `px`, `py` because Dafny parameters are immutable.
   */
  method CastlePitwayLine(x1: int, y1: int, x2: int, y2: int) returns (pixels: seq<Point>)
    ensures pixels == LinePath(x1, y1, x2, y2)
    ensures |pixels| == Max(Abs(x2 - x1), Abs(y2 - y1)) + 1
    ensures pixels[0] == Point(x1, y1) && pixels[|pixels| - 1] == Point(x2, y2)
  {
    pixels := [];
    var dx: int := Abs(x2 - x1);
    var dy: int := Abs(y2 - y1);
    var sx := if x1 < x2 then 1 else -1;
    var sy := if y1 < y2 then 1 else -1;
    var err := dx - dy;
    var px, py := x1, y1;
    ghost var L := MakeSetup(x1, y1, x2, y2);
    ghost var n: nat := 0;
    ghost var c := Start(L);
    assert L.dx == dx && L.dy == dy && L.sx == sx && L.sy == sy;
    while true
      invariant n <= Max(L.dx, L.dy) && c == After(L, n)
      invariant c.x == px && c.y == py && c.err == err
      invariant pixels == Drawn(L, n)
      decreases Max(L.dx, L.dy) - n
    {
      pixels := pixels + [Point(px, py)];
      LoopEnd(L, n);
      if px == x2 && py == y2 {
        break;
      }
      var e2 := 2 * err;
      if e2 > -dy {
        err := err - dy;
        px := px + sx;
      }
      if e2 < dx {
        err := err + dx;
        py := py + sy;
      }
      assert Cursor(px, py, err) == Step(L, c);
      c := Step(L, c);
      n := n + 1;
    }
    LineEndpoints(x1, y1, x2, y2);
  }

  lemma {:induction false} TraceHorizontal(L: Setup, c: Cursor, k: nat)
    requires Inv(L, c) && L.y1 == L.y2 && k < |Trace(L, c)|
    ensures Trace(L, c)[k] == Point(c.x + L.sx * k, L.y1)
    decreases Remaining(L, c)
  {
    if k > 0 {
      StepKeepsInv(L, c);
      TraceHorizontal(L, Step(L, c), k - 1);
      assert Step(L, c).x == c.x + L.sx;
      assert L.sx * k == L.sx + L.sx * (k - 1);
    }
  }

  /**
   * A horizontal segment walks x one step at a time from x1 to x2: pixel k is (x1 + sx*k, y),
   * so (0, 0) to (5, 0) gives (0, 0), (1, 0), ..., (5, 0).
   */
  lemma HorizontalLine(x1: int, x2: int, y: int)
    ensures |LinePath(x1, y, x2, y)| == Abs(x2 - x1) + 1
    ensures forall k :: 0 <= k < |LinePath(x1, y, x2, y)| ==>
              LinePath(x1, y, x2, y)[k] == Point(x1 + (if x1 < x2 then k else -k), y)
  {
    var L := MakeSetup(x1, y, x2, y);
    LinePathTrace(x1, y, x2, y);
    TraceLength(L, Start(L));
    forall k | 0 <= k < |Trace(L, Start(L))|
      ensures Trace(L, Start(L))[k] == Point(x1 + (if x1 < x2 then k else -k), y)
    {
      TraceHorizontal(L, Start(L), k);
    }
  }

  /**
   * The pixel set depends on the direction of travel: from (0, 0) to (2, 1) the middle
   * pixel is (1, 0), from (2, 1) back to (0, 0) it is (1, 1).
   */
  lemma ReversalChangesPixels()
    ensures LinePath(0, 0, 2, 1) == [Point(0, 0), Point(1, 0), Point(2, 1)]
    ensures LinePath(2, 1, 0, 0) == [Point(2, 1), Point(1, 1), Point(0, 0)]
  {
    var L := MakeSetup(0, 0, 2, 1);
    assert After(L, 1) == Cursor(1, 0, 0);
    assert After(L, 2) == Cursor(2, 1, 1);
    assert Drawn(L, 3) == [Point(0, 0), Point(1, 0), Point(2, 1)];
    var R := MakeSetup(2, 1, 0, 0);
    assert After(R, 1) == Cursor(1, 1, 0);
    assert After(R, 2) == Cursor(0, 0, 1);
    assert Drawn(R, 3) == [Point(2, 1), Point(1, 1), Point(0, 0)];
  }
}
