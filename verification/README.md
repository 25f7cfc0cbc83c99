# Integer rasterisers and hex colour codec, modelled in Dafny

This project models two small cores of a computer-graphics teaching repository.

- **lab3/app.py** is a Flask service that rasterises lines and circles on an integer grid.
  - `bresenham_line` and its textual twin `castle_pitway_line` are the all-octant Bresenham loop. It has sign steps `sx`, `sy` and one error term `err = dx - dy`.
  - `bresenham_circle`, with its nested `add_circle_points`, reflects each offset `(x, y)` into eight pixels.
  - The handlers `draw` and `draw_circle` select an algorithm by name, convert its pixels for the response and report their count.
- **lab1/static/script.js** holds the colour codec: `rgbToHex` (with its inner `toHex`) and `hexToRgb`.

Modules, one per file:

| file | module | contents |
|---|---|---|
| wrappers.dfy | `Wrappers` | `Option` |
| geometry.dfy | `Geometry` | `Point`, `Abs`, `Max`, `Between` |
| line.dfy | `Line` | the line loop as two methods, with its specification and lemmas |
| circle.dfy | `Circle` | the circle loop as a method, with its specification and lemmas |
| draw.dfy | `Draw` | the two request handlers as methods over a closed set of algorithm tags |
| hex_color.dfy | `HexColor` | the codec as functions, with round-trip lemmas |

## How the loops are specified

**Line.** The line loop is specified by iterating the loop step.

- `Line.Step` is one pass of the loop body after the end test has failed.
- `Line.After(L, n)` gives the loop variables after `n` passes, and `Line.Drawn(L, n)` gives the pixels appended by them.
- `Line.LinePath` is `Drawn` over `max(dx, dy) + 1` passes.
- The methods keep `x, y, err == After(L, n)` and `pixels == Drawn(L, n)` as loop invariants. So the methods are proved equal to `LinePath`.

That the loop stops exactly at that pass is proved through a second, recursive description, `Line.Trace`. Its invariant, `Line.Inv`, is the closed form of the error term: with `i` x-steps and `j` y-steps taken, `err == dx*(1+j) - dy*(1+i)`, `0 <= i <= dx` and `0 <= j <= dy`. Two bounds on `err` come with it. They make the dominant axis advance on every pass.

**Circle.** The circle loop is specified by `Circle.Offsets`, the sequence of loop states. `Circle.CirclePath` is the concatenation of their orbits. The decision variable has the closed form `d == 2(x² + y² - r²) + 8x - 6y + 4r + 3`. This is not the textbook one, because the source updates `d` with the already incremented `x` (and decremented `y`).

**Properties one might expect that this code does not have.** The model keeps the code's behaviour and proves the difference.

- Reversing a line's end points keeps the pixel set: false. From (0, 0) to (2, 1) the middle pixel is (1, 0); from (2, 1) to (0, 0) it is (1, 1). See `Line.ReversalChangesPixels`.
- Radius 0 gives one pixel: false. It gives eight copies of the centre, then the four diagonal neighbours twice. See `Circle.ZeroRadius`.
- A negative radius is rejected: false. It gives one orbit of (0, r). See `Circle.NegativeRadius`.

**Definitions without rows of their own.**

- `Draw.Pairs` and `Draw.Triples` convert an algorithm's tuples, in order, into the response's pixel records.
- `HexColor.ToUpper` is ASCII `toUpperCase`, applied character by character.
- What these conversions guarantee is stated by `Draw.DrawLine`, `HexColor.UpperConcat` and `HexColor.RgbToHexParts`.

## Model

| member | source | states |
|---|---|---|
| Line.BresenhamLine | lab3/app.py:76-106 | the loop terminates for all integers and returns `LinePath`: max(\|x2-x1\|, \|y2-y1\|) + 1 pixels, the first (x1, y1), the last (x2, y2) |
| Line.CastlePitwayLine | lab3/app.py:216-242 | the same loop on the parameters returns the same `LinePath`, so it equals `bresenham_line` on every input |
| Line.LineEndpoints | lab3/app.py:88-94 | the line starts at (x1, y1), ends at (x2, y2), and the end point occurs only as the last pixel (the loop stops the first time it is reached) |
| Line.LineLength | lab3/app.py:80-104 | run until its end test succeeds, the loop appends exactly max(\|x2-x1\|, \|y2-y1\|) + 1 pixels |
| Line.LineSteps | lab3/app.py:83-104 | consecutive pixels are never equal; x changes only by sx (1 if x1 < x2, else -1) and y only by sy (1 if y1 < y2, else -1), each by at most one |
| Line.LineInBox | lab3/app.py:83-104 | every pixel lies in the box spanned by the end points, so neither coordinate overshoots its target |
| Line.HorizontalLine | lab3/app.py:80-104 | when y1 == y2, pixel k is (x1 ± k, y); (0,0)→(5,0) is (0,0), (1,0), …, (5,0) |
| Line.ReversalChangesPixels | lab3/app.py:90-104 | (0,0)→(2,1) gives (0,0),(1,0),(2,1) but (2,1)→(0,0) gives (2,1),(1,1),(0,0) |
| Line.Step | lab3/app.py:96-104 | one pass moves x by 0 or sx and y by 0 or sy, and never leaves the cursor in place while some distance remains |
| Line.Drawn | lab3/app.py:90-104 | the pixels of n passes: n of them, the first being (x1, y1) |
| Line.LinePath | lab3/app.py:76-106 | the line: max(\|dx\|, \|dy\|) + 1 pixels starting at (x1, y1); `LinePathTrace` proves the loop stops exactly after them, and `LineEndpoints`, `LineSteps`, `LineInBox` fix their positions |
| Line.StartInv | lab3/app.py:80-88 | the initial state (x1, y1, dx - dy) satisfies the loop invariant with no steps taken |
| Line.StepKeepsInv | lab3/app.py:96-104 | one pass keeps the closed form err == dx(1+j) - dy(1+i) and the bounds, and strictly decreases the steps left |
| Line.CountersStep | lab3/app.py:96-104 | an x-step subtracts dy and a y-step adds dx; at least one step is taken; neither count passes its total |
| Line.NoOvershoot | lab3/app.py:98-104 | once all x-steps are taken, e2 <= -dy forbids another; once all y-steps are taken, e2 >= dx forbids another |
| Line.StepCounts | lab3/app.py:96-104 | a pass adds one x-step exactly when e2 > -dy and one y-step exactly when e2 < dx, updating err accordingly |
| Line.TraceLength | lab3/app.py:90-104 | from any reachable state, the remaining pixels number one plus the steps left on the dominant axis |
| Line.TraceEnds | lab3/app.py:90-94 | from any reachable state, the remaining pixels start at the current point and end at (x2, y2), which occurs only last |
| Line.TraceMoves | lab3/app.py:96-104 | from any reachable state, each move changes x by 0 or sx and y by 0 or sy, and not both by 0 |
| Line.TraceInBox | lab3/app.py:96-104 | from any reachable state, the remaining pixels stay between the end points |
| Line.TraceAtEnd | lab3/app.py:91-94 | a reachable state yields exactly one more pixel iff it is the end point |
| Line.DrawnThenTrace | lab3/app.py:90-104 | after n <= max(dx, dy) passes, the pixels drawn plus those still to come are the whole line |
| Line.LoopEnd | lab3/app.py:93-94 | within max(dx, dy) passes the end test succeeds exactly at the last one |
| Line.LinePathTrace | lab3/app.py:90-104 | the pixels of max(dx, dy) + 1 passes are all the loop appends before it stops |
| Circle.Orbit | lab3/app.py:116-127 | eight pixels per offset; `OrbitRadius` and `OrbitSymmetric` fix where they lie |
| Circle.OrbitRadius | lab3/app.py:116-127 | all eight points of an orbit lie at squared distance x² + y² from the centre |
| Circle.Step | lab3/app.py:132-138 | one pass raises x by exactly one and lowers y by at most one, so y - x strictly falls and the loop ends |
| Circle.CirclePath | lab3/app.py:108-142 | the circle starts with the eight points of offset (0, r); `CircleStructure` gives the rest |
| Circle.OrbitSymmetric | lab3/app.py:116-127 | the eight points of one offset are closed under reflection across x = xc, across y = yc and across the diagonal |
| Circle.BresenhamCircle | lab3/app.py:108-142 | the loop terminates and returns `CirclePath`, the orbits of all offsets in order; its length is a multiple of 8 |
| Circle.OffsetsShape | lab3/app.py:112-140 | offsets start at (0, r, 3-2r); x rises by exactly 1 per pass; y falls by 1 exactly when d > 0, else stays; the loop runs while y >= x and stops on the first offset with y < x; d equals its closed form; at most r + 2 offsets |
| Circle.RunShape | lab3/app.py:131-140 | from any state: x counts up by one, y never rises, y falls exactly when d > 0, and the last state has y < x |
| Circle.StepDecision | lab3/app.py:132-138 | both updates of d keep d == 2(x²+y²-r²) + 8x - 6y + 4r + 3 |
| Circle.VisitsDecision | lab3/app.py:131-138 | every later state keeps the closed form of d |
| Circle.OrbitsBlocks | lab3/app.py:129-140 | the output is 8 pixels per offset, block b being the orbit of offset b |
| Circle.OrbitsSymmetric | lab3/app.py:129-140 | any concatenation of orbits has a pixel set closed under the three reflections |
| Circle.CircleStructure | lab3/app.py:116-140 | the circle is 8 × (number of offsets) pixels in per-offset blocks, and its pixel set has the circle's symmetries |
| Circle.CircleLength | lab3/app.py:129-140 | the output length is a multiple of 8 |
| Circle.ZeroRadius | lab3/app.py:112-141 | r = 0 gives 16 pixels: the centre eight times, then the diagonal neighbours in orbit order |
| Circle.NegativeRadius | lab3/app.py:112-141 | a negative r is not rejected: the loop never runs and the output is the 8 points of offset (0, r) |
| Circle.OrbitsOfVisits | lab3/app.py:131-140 | one pass appends the orbit of the next offset, and the rest of the path follows |
| Circle.OrbitsOfOffsets | lab3/app.py:129 | the path is the orbit of (0, r) followed by the orbits of the later offsets |
| Draw.ParseAlgorithm | lab3/app.py:255-266 | a tag selects an algorithm exactly when it is one of the five names; any other string selects none |
| Draw.ParseTag | lab3/app.py:255-264 | each algorithm's name selects that algorithm |
| Draw.Rasterize | lab3/app.py:255-264 | only Wu's pixels carry an intensity; both integer algorithms give max(\|dx\|, \|dy\|) + 1 pixels starting at (x1, y1) |
| Draw.ToJson | lab3/app.py:273-277 | each response pixel keeps x and y and has an intensity iff the algorithm returned a 3-tuple |
| Draw.DrawLine | lab3/app.py:244-283 | rejected with status 400 and "Unknown algorithm" exactly for an unknown tag; otherwise count == number of pixels, pixel k is the converted k-th pixel of the selected algorithm, and an intensity appears exactly for "wu" |
| Draw.IntegerLineResponse | lab3/app.py:259-264 | "bresenham" and "castle_pitway" answer with the Bresenham path: max(\|dx\|, \|dy\|) + 1 pixels, none with an intensity |
| Draw.DrawCircle | lab3/app.py:285-304 | always answers; count == number of pixels, a multiple of 8; pixel k is the k-th circle pixel without intensity |
| HexColor.HexDigits | lab1/static/script.js:218 | `toString(16)` of a non-negative number: at least one lower-case hex digit; one digit exactly below 16; no leading '0' except for 0 |
| HexColor.ToString16 | lab1/static/script.js:218 | a leading '-' exactly for negative numbers; a single character exactly for 0..15 |
| HexColor.ToHex | lab1/static/script.js:217-220 | at least two characters; starts with '0' exactly for 0..15 (the padded case) and with '-' exactly for negatives |
| HexColor.RgbToHex | lab1/static/script.js:216-222 | starts with '#', has at least 7 characters, and holds no lower-case letter |
| HexColor.ToHexByte | lab1/static/script.js:217-220 | `toHex` of 0..255 is exactly two lower-case digits, high then low, padded with '0' |
| HexColor.UpperByte | lab1/static/script.js:217-221 | a byte's digits, upper-cased, are two upper-case hex digits |
| HexColor.RgbToHexFormat | lab1/static/script.js:216-222 | for components in 0..255 the result is 7 characters: '#' and six upper-case hex digits |
| HexColor.RgbToHexParts | lab1/static/script.js:221 | upper-casing the template string upper-cases each component's digits separately |
| HexColor.MatchHexColor | lab1/static/script.js:226 | the pattern matches exactly six hex digits (either case) with an optional leading '#', and captures those six digits |
| HexColor.ParseByte | lab1/static/script.js:228-230 | two hex digits parse to a value in 0..255 |
| HexColor.HexValue | lab1/static/script.js:228-230 | one hex digit of either case has a value in 0..15 |
| HexColor.HexToRgb | lab1/static/script.js:225-232 | every component is in 0..255, and a string the pattern rejects gives {0, 0, 0} |
| HexColor.DigitRoundTrip | lab1/static/script.js:218 | a digit written by `toString(16)` reads back as its value and upper-cases to an upper-case hex digit |
| HexColor.UpperValue | lab1/static/script.js:226-230 | upper-casing a hex digit keeps it a hex digit with the same value |
| HexColor.ByteRoundTrip | lab1/static/script.js:217-230 | a byte written as two digits and upper-cased parses back to the byte |
| HexColor.PairRoundTrip | lab1/static/script.js:217-230 | a parsed pair written back gives the same two digits in upper case |
| HexColor.EncodeDigits | lab1/static/script.js:216-222 | for bytes the output is '#' and six hex digits whose pairs parse back to r, g, b |
| HexColor.DecodeDigits | lab1/static/script.js:225-231 | six hex digits decode pairwise, with or without the '#' |
| HexColor.HexRoundTrip | lab1/static/script.js:216-232 | `hexToRgb(rgbToHex(r, g, b)) == {r, g, b}` for components in 0..255 |
| HexColor.ReencodeDigits | lab1/static/script.js:221-230 | re-encoding the bytes read from six digits gives '#' and those digits upper-cased |
| HexColor.HexReverseRoundTrip | lab1/static/script.js:221-230 | for a string the pattern accepts, `rgbToHex(hexToRgb(s))` is '#' and its six digits upper-cased |
| HexColor.HexOptionalHash | lab1/static/script.js:226 | for six characters s, "#" + s and s decode to the same colour |
| HexColor.HexCaseInsensitive | lab1/static/script.js:226 | ASCII upper-casing the input never changes the decoded colour (the only case change the `i` flag makes to `[a-f\d]`) |
| HexColor.AllHexUpper | lab1/static/script.js:226 | a string is all hex digits iff its ASCII upper-cased form is |

## Left out

- `step_by_step_line`, `dda_line` and `wu_line` (lab3/app.py:11-74, 144-214) use floating-point accumulation and Python's rounding. `Draw.DrawLine` takes them as function parameters (`Draw.FloatLines`), so nothing is proved about their pixels.
- Flask routing, `request.json`, the `int()` coercions, `jsonify` and the `time.perf_counter` timing (lab3/app.py:246-253, 268-269, 281, 292-302). These are I/O and wall-clock. The model's handlers take integers and omit the `time` field.
- The `int()` coercion can raise on malformed input, which Flask turns into an error response. That path is not modelled.
- HexColor.ToString16 models `Number.prototype.toString(16)` on integers only. NaN, infinities and fractions are not modelled. JavaScript numbers above 2^53 lose precision, and the model does not.
- HexColor.UpperChar raises ASCII letters only. JavaScript's `toUpperCase` also maps non-ASCII letters, some to several characters (U+FB00 becomes "FF"). Neither occurs in `rgbToHex` output.
- HexColor.HexCaseInsensitive and HexColor.AllHexUpper are about ASCII case only. That is all the `i` flag changes for the class `[a-f\d]`. They say nothing about JavaScript's full `toUpperCase` on arbitrary input.
- Line.HorizontalLine: the (0,0)→(5,0) example is this lemma's instance for x1 = 0, x2 = 5, y = 0. It is not stated as a separate lemma.
- The rest of lab1/static/script.js (DOM wiring, clipboard, colour-model conversions) is UI. So are lab1/app.py, lab2 and lab3/static/script.js; these are not part of this model.
