/** The line stepper (kernel/gui/gfx.cpp:139-159) and the pixel it sets (gfx.cpp:11-57). */
module Lines {

  /** The C type `int`; every operation on it is checked to stay in range. */
  newtype int32 = x: int | -0x8000_0000 <= x < 0x8000_0000

  type color = x: int | 0 <= x < 0x1_0000_0000

  datatype Point = Point(x: int, y: int)

  function Channel(c: color, shift: int): (r: int)
    requires shift in {1, 0x100, 0x1_0000, 0x100_0000}
    ensures 0 <= r < 256
  {
    c / shift % 0x100
  }

  function Mix(fg: int, bg: int, alpha: int): (r: int)
    requires 0 <= fg < 256 && 0 <= bg < 256 && 0 <= alpha < 256
    ensures 0 <= r < 256
    ensures bg <= fg ==> bg <= r <= fg
    ensures fg <= bg ==> fg <= r <= bg
  {
    MixBetween(fg, bg, alpha);
    (fg * alpha + bg * (255 - alpha)) / 255
  }

  lemma MixBetween(fg: int, bg: int, alpha: int)
    requires 0 <= alpha < 256
    ensures bg <= fg ==> 255 * bg <= fg * alpha + bg * (255 - alpha) <= 255 * fg
    ensures fg <= bg ==> 255 * fg <= fg * alpha + bg * (255 - alpha) <= 255 * bg
  {
    if bg <= fg {
      Order(bg, fg, alpha);
      Order(bg, fg, 255 - alpha);
    } else {
      Order(fg, bg, alpha);
      Order(fg, bg, 255 - alpha);
    }
    Share(fg, alpha);
    Share(bg, alpha);
  }

  lemma Order(a: int, b: int, n: int)
    requires a <= b && n >= 0
    ensures a * n <= b * n
  {
  }

  lemma Share(a: int, alpha: int)
    ensures a * alpha + a * (255 - alpha) == 255 * a
  {
  }

  /** gfx_alpha_blend */
  function Blend(bg: color, fg: color, alpha: int): color
    requires 0 <= alpha < 256
  {
    if alpha == 255 then fg
    else if alpha == 0 then bg
    else
      0xFF00_0000 + Mix(Channel(fg, 0x1_0000), Channel(bg, 0x1_0000), alpha) * 0x1_0000
      + Mix(Channel(fg, 0x100), Channel(bg, 0x100), alpha) * 0x100 + Mix(Channel(fg, 1), Channel(bg, 1), alpha)
  }

  /** A picture after drawing one pixel: unchanged when the point is outside it. */
  function Drawn(pic: seq<color>, w: nat, h: nat, p: Point, c: color): (r: seq<color>)
    requires |pic| == w * h
    ensures |r| == |pic|
  {
    if 0 <= p.x < w && 0 <= p.y < h then
      IndexInside(w, h, p);
      pic[p.y * w + p.x := Blend(pic[p.y * w + p.x], c, c / 0x100_0000)]
    else pic
  }

  lemma IndexInside(w: nat, h: nat, p: Point)
    requires 0 <= p.x < w && 0 <= p.y < h
    ensures 0 <= p.y * w + p.x < w * h
  {
    assert (p.y + 1) * w <= h * w;
  }

  method DrawPixel(target: array<color>, w: nat, h: nat, x: int, y: int, c: color)
    requires target.Length == w * h
    modifies target
    ensures target[..] == Drawn(old(target[..]), w, h, Point(x, y), c)
  {
    hide Blend;
    if x < 0 || y < 0 || x >= w || y >= h { return; }
    IndexInside(w, h, Point(x, y));
    var idx := y * w + x;
    target[idx] := Blend(target[idx], c, c / 0x100_0000);
  }

  function DrawnAll(pic: seq<color>, w: nat, h: nat, ps: seq<Point>, c: color): (r: seq<color>)
    requires |pic| == w * h
    ensures |r| == |pic|
  {
    if ps == [] then pic else Drawn(DrawnAll(pic, w, h, ps[..|ps| - 1], c), w, h, ps[|ps| - 1], c)
  }

  // ---- what drawing leaves ----

  /** An opaque colour becomes the pixel, a transparent one leaves it. */
  lemma BlendEnds(bg: color, c: color)
    ensures c / 0x100_0000 == 0xFF ==> Blend(bg, c, c / 0x100_0000) == c
    ensures c / 0x100_0000 == 0 ==> Blend(bg, c, c / 0x100_0000) == bg
  {
  }

  /** Anything between mixes each channel with itself, and the result is opaque. */
  lemma BlendChannels(bg: color, fg: color, alpha: int, shift: int)
    requires 0 < alpha < 255 && shift in {1, 0x100, 0x1_0000}
    ensures Blend(bg, fg, alpha) / 0x100_0000 == 0xFF
    ensures Channel(Blend(bg, fg, alpha), shift) == Mix(Channel(fg, shift), Channel(bg, shift), alpha)
  {
    hide Mix, Channel;
    var r, g, b := Mix(Channel(fg, 0x1_0000), Channel(bg, 0x1_0000), alpha),
                   Mix(Channel(fg, 0x100), Channel(bg, 0x100), alpha), Mix(Channel(fg, 1), Channel(bg, 1), alpha);
    Packed(Blend(bg, fg, alpha), r, g, b);
  }

  lemma Packed(c: color, r: int, g: int, b: int)
    requires 0 <= r < 256 && 0 <= g < 256 && 0 <= b < 256 && c == 0xFF00_0000 + r * 0x1_0000 + g * 0x100 + b
    ensures c / 0x100_0000 == 0xFF && Channel(c, 0x1_0000) == r && Channel(c, 0x100) == g && Channel(c, 1) == b
  {
    assert c / 0x100 == 0xFF_0000 + r * 0x100 + g;
    assert c / 0x1_0000 == 0xFF00 + r;
  }

  /** The mix of two channel values is the weighted mean, rounded down. */
  lemma MixIs(fg: int, bg: int, alpha: int)
    requires 0 <= fg < 256 && 0 <= bg < 256 && 0 <= alpha < 256
    ensures var m := 255 * Mix(fg, bg, alpha); m <= bg * 255 + (fg - bg) * alpha < m + 255
  {
    assert fg * alpha + bg * (255 - alpha) == bg * 255 + (fg - bg) * alpha;
  }

  /** After drawing in an opaque colour the points drawn have it and all others are as they were. */
  lemma {:induction false} OpaqueDrawn(pic: seq<color>, w: nat, h: nat, ps: seq<Point>, c: color, q: Point)
    requires |pic| == w * h && c / 0x100_0000 == 0xFF && 0 <= q.x < w && 0 <= q.y < h
    ensures 0 <= q.y * w + q.x < |pic|
    ensures DrawnAll(pic, w, h, ps, c)[q.y * w + q.x] == if q in ps then c else pic[q.y * w + q.x]
    decreases |ps|
  {
    hide Blend;
    IndexInside(w, h, q);
    if ps != [] {
      var n := |ps| - 1;
      OpaqueDrawn(pic, w, h, ps[..n], c, q);
      BlendEnds(DrawnAll(pic, w, h, ps[..n], c)[q.y * w + q.x], c);
      OneMore(ps, q);
      if 0 <= ps[n].x < w && 0 <= ps[n].y < h {
        IndexInside(w, h, ps[n]);
        SameIndex(w, ps[n], q);
      }
    }
  }

  lemma OneMore(ps: seq<Point>, q: Point)
    requires ps != []
    ensures q in ps <==> q in ps[..|ps| - 1] || q == ps[|ps| - 1]
  {
    assert ps == ps[..|ps| - 1] + [ps[|ps| - 1]];
  }

  lemma SameIndex(w: nat, p: Point, q: Point)
    requires 0 <= p.x < w && 0 <= q.x < w && p.y >= 0 && q.y >= 0
    ensures p.y * w + p.x == q.y * w + q.x <==> p == q
  {
    if p.y < q.y {
      Order(p.y + 1, q.y, w);
    } else if q.y < p.y {
      Order(q.y + 1, p.y, w);
    }
  }

  // ---- the steps ----

  /** How far point (a, b) is from the segment, times the longer side: b * dx - a * dy. */
  function Off(dx: int, dy: int, a: int, b: int): int { b * dx - a * dy }

  /** Along the shorter axis, at most half a pixel from the segment, and the half pixel only on one side. */
  predicate Close(dx: int, dy: int, a: int, b: int) {
    if dx >= dy then Within(dx, Off(dx, dy, a, b)) else Within(dy, -Off(dx, dy, a, b))
  }

  /** `off` lies in the half-open interval from -long / 2 to long / 2. */
  predicate Within(long: int, off: int) { -long <= 2 * off && (2 * off < long || long == 0) }

  function Longer(dx: int, dy: int): int { if dx >= dy then dx else dy }

  /** `a` steps along x and `b` along y after `k` turns: one step a turn along the longer axis. */
  ghost predicate After(dx: int, dy: int, k: int, a: int, b: int) {
    0 <= a <= dx && 0 <= b <= dy && (if dx >= dy then a == k else b == k) && Close(dx, dy, a, b)
  }

  lemma OffStep(dx: int, dy: int, a: int, b: int)
    ensures Off(dx, dy, a + 1, b) == Off(dx, dy, a, b) - dy
    ensures Off(dx, dy, a, b + 1) == Off(dx, dy, a, b) + dx
    ensures Off(dx, dy, a + 1, b + 1) == Off(dx, dy, a, b) + dx - dy
  {
  }

  /** Mirroring the axes mirrors the offset. */
  lemma OffMirror(dx: int, dy: int, a: int, b: int)
    ensures Off(dy, dx, b, a) == -Off(dx, dy, a, b)
  {
  }

  /** Along a longer x axis, y never runs past its end, and reaches it exactly when x does. */
  lemma CloseBounds(dx: int, dy: int, a: int, b: int)
    requires dx >= dy >= 0 && dx > 0 && 0 <= a <= dx && 0 <= b <= dy + 1
    requires -dx <= 2 * Off(dx, dy, a, b) <= dx
    ensures b <= dy && (a == dx ==> b == dy)
  {
    Order(a, dx, dy);
    assert (dy + 1) * dx == dy * dx + dx && (dy - 1) * dx == dy * dx - dx;
    if b < dy {
      Order(b, dy - 1, dx);
    }
  }

  /** On a diagonal the line leaves the segment nowhere: the offset is a multiple of the side. */
  lemma DiagonalNone(d: int, a: int, b: int)
    requires d > 0 && Within(d, Off(d, d, a, b))
    ensures Off(d, d, a, b) == 0
  {
    assert Off(d, d, a, b) == (b - a) * d;
    if b - a >= 1 {
      Order(1, b - a, d);
    } else if b - a <= -1 {
      Order(b - a, -1, d);
    }
  }

  /** A turn when x is the longer axis: x moves, y moves when that brings it back within half a pixel. */
  lemma TurnAlongX(dx: int, dy: int, a: int, b: int, off: int)
    requires dx >= dy >= 0 && dx > 0 && 0 <= a < dx && 0 <= b <= dy
    requires off == Off(dx, dy, a, b) && Within(dx, off)
    ensures 2 * (off + dx - dy) > -dy
    ensures var b' := if 2 * (off + dx - dy) < dx then b + 1 else b; b' <= dy && Within(dx, Off(dx, dy, a + 1, b'))
  {
    OffStep(dx, dy, a, b);
    if dx == dy {
      DiagonalNone(dx, a, b);
    }
    var b' := if 2 * (off + dx - dy) < dx then b + 1 else b;
    hide Off;
    CloseBounds(dx, dy, a + 1, b');
  }

  /** One turn of the loop: the test values it computes move exactly one step along the longer axis and stay close. */
  lemma Turn(dx: int, dy: int, k: int, a: int, b: int, e2: int)
    requires After(dx, dy, k, a, b) && (a, b) != (dx, dy) && e2 == 2 * (Off(dx, dy, a, b) + dx - dy)
    ensures After(dx, dy, k + 1, if e2 > -dy then a + 1 else a, if e2 < dx then b + 1 else b)
  {
    hide Off;
    var off := Off(dx, dy, a, b);
    if dx >= dy {
      CloseBounds(dx, dy, a, b);
      TurnAlongX(dx, dy, a, b, off);
    } else {
      OffMirror(dx, dy, a, b);
      OffMirror(dx, dy, a + 1, b + 1);
      OffMirror(dx, dy, a, b + 1);
      CloseBounds(dy, dx, b, a);
      TurnAlongX(dy, dx, b, a, -off);
    }
  }

  /** After a number of turns the line is at one point only. */
  lemma OnePoint(dx: int, dy: int, k: int, a: int, b: int, a': int, b': int)
    requires After(dx, dy, k, a, b) && After(dx, dy, k, a', b')
    ensures a == a' && b == b'
  {
    hide Off;
    if dx >= dy {
      OffApart(dx, dy, a, b, b');
    } else {
      OffMirror(dx, dy, a, b);
      OffMirror(dx, dy, a', b');
      OffApart(dy, dx, b, a, a');
    }
  }

  lemma OffApart(dx: int, dy: int, a: int, b: int, b': int)
    requires dx >= 0
    ensures b < b' ==> Off(dx, dy, a, b) + dx <= Off(dx, dy, a, b')
    ensures b' < b ==> Off(dx, dy, a, b') + dx <= Off(dx, dy, a, b)
  {
    if b < b' {
      Order(1, b' - b, dx);
    } else if b' < b {
      Order(1, b - b', dx);
    }
  }

  // ---- the loop ----

  function Shorter(dx: int, dy: int): int { if dx >= dy then dy else dx }

  function Gcd(a: nat, b: nat): (g: nat)
    ensures a > 0 || b > 0 ==> g > 0
    decreases b
  {
    if b == 0 then a else Gcd(b, a % b)
  }

  /** The greatest common divisor divides both numbers and is a combination of them. */
  lemma {:induction false} Bezout(a: nat, b: nat) returns (n: int, d: int, u: int, v: int)
    ensures n >= 0 && d >= 0 && a == Gcd(a, b) * n && b == Gcd(a, b) * d && Gcd(a, b) == u * a + v * b
    decreases b
  {
    if b == 0 {
      n, d, u, v := 1, 0, 1, 0;
    } else {
      var d', r, u', v' := Bezout(b, a % b);
      var q, g := a / b, Gcd(b, a % b);
      DivisionIs(a, b);
      Reduce(a, b, q, a % b, u', v');
      Distribute(g, d', q, r);
      n, d, u, v := d' * q + r, d', v', u' - v' * q;
      NotNegative(d', q, r);
    }
  }

  lemma NotNegative(d: int, q: int, r: int)
    requires d >= 0 && q >= 0 && r >= 0
    ensures d * q + r >= 0
  {
  }

  lemma DivisionIs(a: nat, b: nat)
    requires b > 0
    ensures a == b * (a / b) + a % b && a / b >= 0
  {
  }

  lemma Reduce(a: int, b: int, q: int, r: int, u: int, v: int)
    requires a == b * q + r
    ensures u * b + v * r == v * a + (u - v * q) * b
  {
  }

  lemma Distribute(g: int, d: int, q: int, r: int)
    ensures g * d * q + g * r == g * (d * q + r)
  {
  }

  /** The multiples of the sides' common divisor in that interval: the largest one. */
  function Largest(long: nat, short: nat): int
    requires long > 0
  {
    Gcd(long, short) * ((long / Gcd(long, short) - 1) / 2)
  }

  /** ... and, with its sign changed, the smallest one. */
  function Smallest(long: nat, short: nat): int
    requires long > 0
  {
    Gcd(long, short) * (long / Gcd(long, short) / 2)
  }

  predicate InInt(v: int) { -0x8000_0000 <= v < 0x8000_0000 }

  /** Every operation of the turn taken at (a, b) stays in the range of `int`. */
  predicate TurnInRange(dx: int, dy: int, a: int, b: int) {
    OperationsInRange(dx, dy, Off(dx, dy, a, b) + dx - dy)
  }

  predicate OperationsInRange(dx: int, dy: int, err: int) {
    var moved := if 2 * err > -dy then err - dy else err;
    InInt(err) && InInt(2 * err) && InInt(moved) && (2 * err < dx ==> InInt(moved + dx))
  }

  /** What a line's extents must meet; a caller can compute it. */
  predicate LineFits(dx: nat, dy: nat) {
    && Longer(dx, dy) < 0x8000_0000
    && (dx > dy ==> 2 * (Largest(dx, dy) + dx - dy) < 0x8000_0000 && dx - 2 * dy - Smallest(dx, dy) >= -0x8000_0000)
    && (dy > dx ==> 2 * (dx - dy - Largest(dy, dx)) >= -0x8000_0000)
    && (dy > dx > 0 ==> Smallest(dy, dx) + Gcd(dy, dx) - 2 * dy >= -0x8000_0000)
  }

  /** An offset within half of the longer side is a multiple between the two. */
  lemma MultipleBetween(long: nat, short: nat, p: int, q: int, off: int) returns (j: int)
    requires long > 0 && off == Off(long, short, p, q) && Within(long, off)
    ensures off == Gcd(long, short) * j && -Smallest(long, short) <= off <= Largest(long, short)
  {
    hide Gcd;
    var n, d, u, v := Bezout(long, short);
    var g := Gcd(long, short);
    j := q * n - p * d;
    Product(g, n, d, p, q);
    Quotient(g, n);
    HalfOf(g, n, j, off);
  }

  lemma HalfOf(g: int, n: int, j: int, off: int)
    requires g > 0 && off == g * j && Within(g * n, off) && g * n > 0
    ensures -(g * (n / 2)) <= off <= g * ((n - 1) / 2)
  {
    Twice(g, j);
    Ordered(g, -n, 2 * j);
    Ordered(g, 2 * j, n);
    Ordered(g, j, (n - 1) / 2);
    Ordered(g, -(n / 2), j);
    Negated(g, n);
    Negated(g, n / 2);
  }

  lemma Twice(g: int, j: int)
    ensures g * (2 * j) == 2 * (g * j)
  {
  }

  lemma Negated(g: int, n: int)
    ensures g * -n == -(g * n)
  {
  }

  lemma Product(g: int, n: int, d: int, p: int, q: int)
    ensures q * (g * n) - p * (g * d) == g * (q * n - p * d)
  {
  }

  lemma Quotient(g: int, n: int)
    requires g > 0
    ensures g * n / g == n
  {
    var q := g * n / g;
    Parts(g * n, g);
    Ordered(g, n, q);
    Ordered(g, n, q + 1);
    assert g * (q + 1) == g * q + g;
  }

  lemma Parts(a: int, g: int)
    requires g > 0
    ensures g * (a / g) <= a < g * (a / g) + g
  {
  }

  lemma Ordered(g: int, a: int, b: int)
    requires g > 0
    ensures a <= b <==> g * a <= g * b
    ensures a < b <==> g * a < g * b
  {
    if a <= b {
      Order(a, b, g);
    } else {
      Order(b + 1, a, g);
    }
  }

  /** Each of those multiples is met: the line passes a point with that offset before its end. */
  lemma MultipleMet(long: nat, short: nat, j: int) returns (p: int, q: int)
    requires long >= short && long > 0 && -(long / Gcd(long, short)) <= 2 * j < long / Gcd(long, short)
    ensures 0 <= p < long && 0 <= q <= short && q * long - p * short == Gcd(long, short) * j
            && Within(long, Gcd(long, short) * j)
  {
    hide Gcd;
    var n, d, u, v := Bezout(long, short);
    var g := Gcd(long, short);
    Quotient(g, n);
    Ordered(g, -n, 2 * j);
    Ordered(g, 2 * j, n);
    var t := (-v * j) / long;
    p, q := (-v * j) % long, j * u - t * short;
    Congruent(long, short, u, v, j, p, t);
    BetweenEnds(long, short, p, q);
  }

  lemma Congruent(long: int, short: int, u: int, v: int, j: int, p: int, t: int)
    requires -v * j == long * t + p
    ensures (j * u - t * short) * long - p * short == (u * long + v * short) * j
  {
  }

  lemma BetweenEnds(long: nat, short: nat, p: int, q: int)
    requires long > 0 && 0 <= p < long && Within(long, q * long - p * short)
    ensures 0 <= q <= short
  {
    Order(p, long, short);
    if q < 0 {
      Order(q, -1, long);
    } else if q > short {
      Order(short + 1, q, long);
    }
  }

  /** The loop draws a line without leaving the range of `int` exactly when its extents fit. */
  lemma LineFitsIff(dx: nat, dy: nat)
    ensures LineFits(dx, dy) <==> InInt(dx) && InInt(dy) && StaysInRange(dx, dy)
  {
    hide After, TurnInRange, Largest, Smallest, Gcd;
    if LineFits(dx, dy) {
      forall k, a, b | After(dx, dy, k, a, b) && (a, b) != (dx, dy)
        ensures TurnInRange(dx, dy, a, b)
      {
        FitIsEnough(dx, dy, k, a, b);
      }
    } else if InInt(dx) && InInt(dy) && StaysInRange(dx, dy) {
      if dx > dy {
        LongXNeeded(dx, dy);
      } else if dy > dx {
        LongYNeeded(dx, dy);
      }
    }
  }

  ghost predicate StaysInRange(dx: nat, dy: nat) {
    forall k, a, b :: After(dx, dy, k, a, b) && (a, b) != (dx, dy) ==> TurnInRange(dx, dy, a, b)
  }

  lemma FitIsEnough(dx: nat, dy: nat, k: int, a: int, b: int)
    requires LineFits(dx, dy) && After(dx, dy, k, a, b) && (a, b) != (dx, dy)
    ensures TurnInRange(dx, dy, a, b)
  {
    hide Largest, Smallest, Gcd, Off, Within, OperationsInRange;
    var off := Off(dx, dy, a, b);
    if dx == dy {
      DiagonalNone(dx, a, b);
      DiagonalFits(dx);
    } else if dx > dy {
      FitAlongX(dx, dy, a, b, off);
    } else {
      FitAlongY(dx, dy, a, b, off);
    }
  }

  lemma DiagonalFits(d: nat)
    requires d < 0x8000_0000
    ensures OperationsInRange(d, d, 0)
  {
  }

  lemma FitAlongX(dx: nat, dy: nat, a: int, b: int, off: int)
    requires LineFits(dx, dy) && dx > dy && off == Off(dx, dy, a, b) && Within(dx, off)
    ensures OperationsInRange(dx, dy, off + dx - dy)
  {
    hide Largest, Smallest, Gcd, Off;
    OffStep(dx, dy, a, b);
    var _ := MultipleBetween(dx, dy, a, b, off);
    if 2 * (off + dx - dy) < dx {
      var _ := MultipleBetween(dx, dy, a + 1, b + 1, off + dx - dy);
    }
  }

  lemma FitAlongY(dx: nat, dy: nat, a: int, b: int, off: int)
    requires LineFits(dx, dy) && dy > dx && off == Off(dx, dy, a, b) && Within(dy, -off)
    ensures OperationsInRange(dx, dy, off + dx - dy)
  {
    hide Largest, Smallest, Gcd, Off;
    OffStep(dx, dy, a, b);
    OffMirror(dx, dy, a, b);
    OffMirror(dx, dy, a + 1, b + 1);
    OffMirror(dx, dy, a, b + 1);
    var j := MultipleBetween(dy, dx, b, a, -off);
    if 2 * (off + dx - dy) > 0 - dy {
      var _ := MultipleBetween(dy, dx, b + 1, a + 1, -(off + dx - dy));
      if dx > 0 {
        SmallestMoved(dx, dy, -off, j);
      }
    } else {
      var _ := MultipleBetween(dy, dx, b + 1, a, -(off + dx));
    }
  }

  /** With y the longer axis, the smallest offset from which x moves. */
  lemma SmallestMoved(dx: nat, dy: nat, off: int, j: int)
    requires dy > dx > 0 && off == Gcd(dy, dx) * j && 2 * (dx - dy - off) > 0 - dy
    ensures dx - off >= Smallest(dy, dx) + Gcd(dy, dx)
  {
    hide Gcd;
    var n, d, u, v := Bezout(dy, dx);
    var g := Gcd(dy, dx);
    Quotient(g, n);
    ScaledSum(g, n, d, j);
    Ordered(g, n, 2 * (d - j));
    Ordered(g, n / 2 + 1, d - j);
  }

  lemma ScaledSum(g: int, n: int, d: int, j: int)
    ensures g * (2 * (d - j)) == 2 * (g * d - g * j) && g * (d - j) == g * d - g * j
            && g * (n / 2 + 1) == g * (n / 2) + g
  {
  }

  /** The turn taken at an offset that is met; the extents may be those along either axis. */
  lemma MetAlongX(dx: nat, dy: nat, j: int, off: int)
    requires dx > dy && -(dx / Gcd(dx, dy)) <= 2 * j < dx / Gcd(dx, dy) && off == Gcd(dx, dy) * j
             && StaysInRange(dx, dy)
    ensures OperationsInRange(dx, dy, off + dx - dy) && Within(dx, off)
  {
    hide Gcd, OperationsInRange;
    var p, q := MultipleMet(dx, dy, j);
    assert After(dx, dy, p, p, q);
  }

  lemma MetAlongY(dx: nat, dy: nat, j: int, off: int)
    requires dy > dx && -(dy / Gcd(dy, dx)) <= 2 * j < dy / Gcd(dy, dx) && off == Gcd(dy, dx) * j
             && StaysInRange(dx, dy)
    ensures OperationsInRange(dx, dy, dx - dy - off) && Within(dy, off)
  {
    hide Gcd, OperationsInRange;
    var p, q := MultipleMet(dy, dx, j);
    assert After(dx, dy, p, q, p);
  }

  /** The largest and the smallest multiple as multiples. */
  lemma Extremes(long: nat, short: nat) returns (i: int, j: int)
    requires long > 0
    ensures Largest(long, short) == Gcd(long, short) * i && -Smallest(long, short) == Gcd(long, short) * j
    ensures -(long / Gcd(long, short)) <= 2 * i < long / Gcd(long, short)
    ensures -(long / Gcd(long, short)) <= 2 * j < long / Gcd(long, short)
  {
    hide Gcd;
    var n, d, u, v := Bezout(long, short);
    Quotient(Gcd(long, short), n);
    Ordered(Gcd(long, short), 0, n);
    i, j := (n - 1) / 2, -(n / 2);
    Negated(Gcd(long, short), n / 2);
  }

  lemma LongXNeeded(dx: nat, dy: nat)
    requires dx > dy && InInt(dx) && StaysInRange(dx, dy)
    ensures LineFits(dx, dy)
  {
    hide Gcd, StaysInRange, Largest, Smallest;
    var i, j := Extremes(dx, dy);
    MetAlongX(dx, dy, i, Largest(dx, dy));
    MetAlongX(dx, dy, j, -Smallest(dx, dy));
  }

  lemma LongYNeeded(dx: nat, dy: nat)
    requires dy > dx && InInt(dy) && StaysInRange(dx, dy)
    ensures LineFits(dx, dy)
  {
    hide Gcd, StaysInRange, Largest, Smallest;
    var i, _ := Extremes(dy, dx);
    MetAlongY(dx, dy, i, Largest(dy, dx));
    if dx > 0 {
      var j, off := MovingMultiple(dx, dy);
      MetAlongY(dx, dy, j, off);
    }
  }

  /** The offset of `SmallestMoved` is one of the multiples, so the line meets it. */
  lemma MovingMultiple(dx: nat, dy: nat) returns (j: int, off: int)
    requires dy > dx > 0
    ensures -(dy / Gcd(dy, dx)) <= 2 * j < dy / Gcd(dy, dx) && off == Gcd(dy, dx) * j
    ensures -off + dx == Smallest(dy, dx) + Gcd(dy, dx) && 2 * (dx - dy - off) > 0 - dy
  {
    hide Gcd;
    var n, d, u, v := Bezout(dy, dx);
    var g := Gcd(dy, dx);
    Quotient(g, n);
    Ordered(g, d, n);
    Ordered(g, 0, d);
    j := d - n / 2 - 1;
    off := g * j;
    ScaledSum(g, n, d, j);
    Ordered(g, n, 2 * (d - j));
  }

  /** Lines that reach the limit: straight up to (0, 2^30) fits, straight right to (2^30, 0) does not. */
  lemma LimitLines()
    ensures LineFits(0, 0x4000_0000) && LineFits(0x4000_0000, 0x2000_0000)
    ensures !LineFits(0x4000_0000, 0)
  {
    assert Gcd(0x4000_0000, 0) == 0x4000_0000 && Gcd(0x2000_0000, 0) == 0x2000_0000;
    assert Gcd(0x4000_0000, 0x2000_0000) == Gcd(0x2000_0000, 0);
  }

  function Distance(p: int, q: int): nat { if q >= p then q - p else p - q }

  /** `n` steps from `p` towards `q`. */
  function Towards(p: int, q: int, n: int): int { if p < q then p + n else p - n }

  /** The points plotted are the ones reached after 0, 1, 2, ... turns. */
  ghost predicate Traced(x0: int, y0: int, x1: int, y1: int, ps: seq<Point>) {
    forall k :: 0 <= k < |ps| ==> Reached(x0, y0, x1, y1, k, ps[k])
  }

  ghost predicate Reached(x0: int, y0: int, x1: int, y1: int, k: int, p: Point) {
    exists a, b :: After(Distance(x0, x1), Distance(y0, y1), k, a, b)
        && p == Point(Towards(x0, x1, a), Towards(y0, y1, b))
  }

  /** Draws from (x0, y0) to (x1, y1): max(dx, dy) + 1 points, each within half a pixel of the segment. */
  method DrawLine(x0: int32, y0: int32, x1: int32, y1: int32, c: color, target: array<color>, w: nat, h: nat)
      returns (ghost ps: seq<Point>)
    requires target.Length == w * h && LineFits(Distance(x0 as int, x1 as int), Distance(y0 as int, y1 as int))
    modifies target
    ensures |ps| == Longer(Distance(x0 as int, x1 as int), Distance(y0 as int, y1 as int)) + 1
    ensures ps[0] == Point(x0 as int, y0 as int) && ps[|ps| - 1] == Point(x1 as int, y1 as int)
    ensures Traced(x0 as int, y0 as int, x1 as int, y1 as int, ps)
    ensures target[..] == DrawnAll(old(target[..]), w, h, ps, c)
  {
    hide After, Close, Off, Drawn, DrawnAll, Reached;
    var dx := if x1 >= x0 then x1 - x0 else x0 - x1;
    var dy := if y1 >= y0 then y1 - y0 else y0 - y1;
    var sx: int32 := if x0 < x1 then 1 else -1;
    var sy: int32 := if y0 < y1 then 1 else -1;
    var err := dx - dy;
    var x, y := x0, y0;
    ghost var a, b := 0, 0;
    ps := [];
    Start(dx as int, dy as int);
    DrawnNone(target[..], w, h, c);
    while true
      invariant After(dx as int, dy as int, |ps|, a, b) && 0 <= a <= dx as int && 0 <= b <= dy as int
      invariant x as int == Towards(x0 as int, x1 as int, a) && y as int == Towards(y0 as int, y1 as int, b)
      invariant err as int == Off(dx as int, dy as int, a, b) + dx as int - dy as int
      invariant Traced(x0 as int, y0 as int, x1 as int, y1 as int, ps)
      invariant |ps| > 0 ==> ps[0] == Point(x0 as int, y0 as int)
      invariant |ps| == 0 ==> a == 0 && b == 0
      invariant target.Length == w * h && target[..] == DrawnAll(old(target[..]), w, h, ps, c)
      decreases dx as int - a + (dy as int - b)
    {
      DrawPixel(target, w, h, x as int, y as int, c);
      DrawnNext(old(target[..]), w, h, ps, Point(x as int, y as int), c);
      ReachedNow(x0 as int, y0 as int, x1 as int, y1 as int, |ps|, a, b);
      ps := ps + [Point(x as int, y as int)];
      AfterBounds(dx as int, dy as int, |ps| - 1, a, b);
      if x == x1 && y == y1 { break; }
      ghost var a', b';
      err, x, y, a', b' := TakeTurn(dx, dy, sx, sy, err, x, y, |ps| - 1, a, b, x0, y0, x1, y1);
      a, b := a', b';
    }
  }

  /** The rest of the loop's body: none of the arithmetic leaves the range of `int`. */
  method TakeTurn(dx: int32, dy: int32, sx: int32, sy: int32, err: int32, x: int32, y: int32, ghost k: int,
                  ghost a: int, ghost b: int, ghost x0: int32, ghost y0: int32, ghost x1: int32, ghost y1: int32)
      returns (err': int32, x': int32, y': int32, ghost a': int, ghost b': int)
    requires After(dx as int, dy as int, k, a, b) && (a, b) != (dx as int, dy as int)
    requires sx == (if x0 < x1 then 1 else -1) && sy == (if y0 < y1 then 1 else -1)
    requires dx as int == Distance(x0 as int, x1 as int) && dy as int == Distance(y0 as int, y1 as int)
    requires dx >= 0 && dy >= 0 && LineFits(dx as int, dy as int)
    requires err as int == Off(dx as int, dy as int, a, b) + dx as int - dy as int
    requires x as int == Towards(x0 as int, x1 as int, a) && y as int == Towards(y0 as int, y1 as int, b)
    ensures After(dx as int, dy as int, k + 1, a', b')
    ensures a <= a' <= dx as int && b <= b' <= dy as int && a' + b' > a + b
    ensures err' as int == Off(dx as int, dy as int, a', b') + dx as int - dy as int
    ensures x' as int == Towards(x0 as int, x1 as int, a') && y' as int == Towards(y0 as int, y1 as int, b')
  {
    hide After, Close, Off, LineFits;
    AfterBounds(dx as int, dy as int, k, a, b);
    FitIsEnough(dx as int, dy as int, k, a, b);
    var e2 := 2 * err;
    Turn(dx as int, dy as int, k, a, b, e2 as int);
    OffStep(dx as int, dy as int, a, b);
    err', x', y', a', b' := err, x, y, a, b;
    AfterBounds(dx as int, dy as int, k + 1, if e2 > -dy then a + 1 else a, if e2 < dx then b + 1 else b);
    if e2 > -dy {
      err' := err' - dy;
      x' := x' + sx;
      a' := a' + 1;
    }
    if e2 < dx {
      err' := err' + dx;
      y' := y' + sy;
      b' := b' + 1;
    }
    AfterMoved(dx as int, dy as int, k, a, b, a', b');
  }

  lemma AfterMoved(dx: int, dy: int, k: int, a: int, b: int, a': int, b': int)
    requires After(dx, dy, k, a, b) && After(dx, dy, k + 1, a', b') && a <= a' && b <= b'
    ensures a' + b' > a + b
  {
  }

  lemma Start(dx: int, dy: int)
    requires dx >= 0 && dy >= 0
    ensures After(dx, dy, 0, 0, 0) && Off(dx, dy, 0, 0) == 0
  {
  }

  lemma DrawnNone(pic: seq<color>, w: nat, h: nat, c: color)
    requires |pic| == w * h
    ensures DrawnAll(pic, w, h, [], c) == pic
  {
  }

  lemma DrawnNext(pic: seq<color>, w: nat, h: nat, ps: seq<Point>, p: Point, c: color)
    requires |pic| == w * h
    ensures DrawnAll(pic, w, h, ps + [p], c) == Drawn(DrawnAll(pic, w, h, ps, c), w, h, p, c)
  {
    assert (ps + [p])[..|ps|] == ps;
  }

  lemma ReachedNow(x0: int, y0: int, x1: int, y1: int, k: int, a: int, b: int)
    requires After(Distance(x0, x1), Distance(y0, y1), k, a, b)
    ensures Reached(x0, y0, x1, y1, k, Point(Towards(x0, x1, a), Towards(y0, y1, b)))
  {
  }

  /** Bounds that keep the arithmetic in range, and the number of turns at the end. */
  lemma AfterBounds(dx: int, dy: int, k: int, a: int, b: int)
    requires After(dx, dy, k, a, b)
    ensures 0 <= a <= dx && 0 <= b <= dy && -Longer(dx, dy) <= 2 * Off(dx, dy, a, b) <= Longer(dx, dy)
    ensures (a, b) == (dx, dy) ==> k == Longer(dx, dy)
    ensures k <= Longer(dx, dy)
  {
  }
}
