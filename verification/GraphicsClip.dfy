/**
 Polygon clipping of graphics.c: four passes over the vertices, one for each side of the rectangle, between
 two buffers. Coordinates are integers and quotients are rounded towards zero, as in C.
 */
module PolygonClipping {
  import opened Basics

  datatype Point = Point(x: int, y: int)

  /** `lu` is the corner with the smallest coordinates, `rl` the one with the largest. */
  datatype Rect = Rect(lu: Point, rl: Point)

  function Abs(a: int): nat {
    if a >= 0 then a else -a
  }

  /** Whether `v` is between `a` and `b`. */
  predicate Between(a: int, v: int, b: int) {
    a <= v <= b || b <= v <= a
  }

  /** `is_inside`. */
  predicate IsInside(p: Point, r: Rect, edge: int) {
    match edge
    case 0 => p.x >= r.lu.x
    case 1 => p.x <= r.rl.x
    case 2 => p.y >= r.lu.y
    case 3 => p.y <= r.rl.y
    case _ => false
  }

  predicate InRect(p: Point, r: Rect) {
    r.lu.x <= p.x <= r.rl.x && r.lu.y <= p.y <= r.rl.y
  }

  /** A line crosses a side of the rectangle, and `p1` is its end outside. */
  predicate Crosses(p1: Point, p2: Point, r: Rect, edge: int) {
    0 <= edge < 4 && !IsInside(p1, r, edge) && IsInside(p2, r, edge)
  }

  /** `poly_intersection`: where the line meets the side. */
  function Intersection(p1: Point, p2: Point, r: Rect, edge: int): Point
    requires Crosses(p1, p2, r, edge)
  {
    var dx, dy := p2.x - p1.x, p2.y - p1.y;
    match edge
    case 0 => Point(r.lu.x, p1.y + CDiv((r.lu.x - p1.x) * dy, dx))
    case 1 => Point(r.rl.x, p1.y + CDiv((r.rl.x - p1.x) * dy, dx))
    case 2 => Point(p1.x + CDiv((r.lu.y - p1.y) * dx, dy), r.lu.y)
    case _ => Point(p1.x + CDiv((r.rl.y - p1.y) * dx, dy), r.rl.y)
  }

  // ----- one quotient

  lemma DivBounds(a: nat, b: nat)
    requires b > 0
    ensures (a / b) * b <= a < (a / b) * b + b
  {
  }

  lemma MulMono(a: nat, b: nat, c: nat)
    requires a <= b
    ensures a * c <= b * c
  {
  }

  lemma QuotientBound(a: nat, n: nat, d: nat)
    requires n > 0 && a <= n * d
    ensures a / n <= d
  {
    if d < a / n {
      MulMono(d + 1, a / n, n);
    }
  }

  /** A non-negative quotient of `t * d` by `n`, for `t` up to `n`, is at most `d`, and exact within one. */
  lemma Share(t: nat, n: nat, d: nat)
    requires t <= n && n > 0
    ensures 0 <= (t * d) / n <= d && 0 <= t * d
    ensures Abs(((t * d) / n) * n - t * d) < n
  {
    MulMono(t, n, d);
    DivBounds(t * d, n);
    QuotientBound(t * d, n, d);
  }

  lemma Signs(t: int, d: int)
    ensures Abs(t * d) == Abs(t) * Abs(d)
    ensures t * d >= 0 <==> t == 0 || d == 0 || (t > 0) == (d > 0)
    ensures t * d == 0 <==> t == 0 || d == 0
  {
  }

  /** A truncated quotient has the size of the quotient of the sizes; the sign is that of `d`. */
  lemma Quotient(t: int, n: int, d: int, q: int)
    requires n != 0 && Between(0, t, n) && q == (Abs(t) * Abs(d)) / Abs(n)
    ensures CDiv(t * d, n) == if d >= 0 then q else -q
  {
    Signs(t, d);
    var a := t * d;
    assert Abs(a) / Abs(n) == q;
  }

  /** Truncation keeps a part `t` of the way `n` between its ends, and off the line by less than one. */
  lemma Part(t: int, n: int, d: int)
    requires n != 0 && Between(0, t, n)
    ensures Between(0, CDiv(t * d, n), d)
    ensures Abs(CDiv(t * d, n) * n - t * d) < Abs(n)
    ensures Abs(t * d) <= Abs(n) * Abs(d)
  {
    var q := (Abs(t) * Abs(d)) / Abs(n);
    Share(Abs(t), Abs(n), Abs(d));
    MulMono(Abs(t), Abs(n), Abs(d));
    Signs(t, d);
    Quotient(t, n, d, q);
    Signs(q, n);
    Signs(-q, n);
  }

  // ----- one crossing

  /** The crossing point is between the ends in both coordinates, and on the side. */
  lemma CrossingBetween(p1: Point, p2: Point, r: Rect, edge: int)
    requires Crosses(p1, p2, r, edge)
    ensures var p := Intersection(p1, p2, r, edge);
      && Between(p1.x, p.x, p2.x) && Between(p1.y, p.y, p2.y) && IsInside(p, r, edge)
      && (edge == 0 ==> p.x == r.lu.x) && (edge == 1 ==> p.x == r.rl.x)
      && (edge == 2 ==> p.y == r.lu.y) && (edge == 3 ==> p.y == r.rl.y)
  {
    var dx, dy := p2.x - p1.x, p2.y - p1.y;
    match edge
    case 0 => Part(r.lu.x - p1.x, dx, dy);
    case 1 => Part(r.rl.x - p1.x, dx, dy);
    case 2 => Part(r.lu.y - p1.y, dy, dx);
    case _ => Part(r.rl.y - p1.y, dy, dx);
  }

  /** Rounding puts the crossing point less than one pixel off the line, measured along the side. */
  lemma CrossingAccuracy(p1: Point, p2: Point, r: Rect, edge: int)
    requires Crosses(p1, p2, r, edge)
    ensures var p, dx, dy := Intersection(p1, p2, r, edge), p2.x - p1.x, p2.y - p1.y;
      if edge < 2 then Abs((p.y - p1.y) * dx - (p.x - p1.x) * dy) < Abs(dx)
      else Abs((p.x - p1.x) * dy - (p.y - p1.y) * dx) < Abs(dy)
  {
    var dx, dy := p2.x - p1.x, p2.y - p1.y;
    match edge
    case 0 => Part(r.lu.x - p1.x, dx, dy);
    case 1 => Part(r.rl.x - p1.x, dx, dy);
    case 2 => Part(r.lu.y - p1.y, dy, dx);
    case _ => Part(r.rl.y - p1.y, dy, dx);
  }

  /** A crossing point is inside any side of any rectangle that both ends are inside of. */
  lemma CrossingStaysInside(p1: Point, p2: Point, r: Rect, edge: int, b: Rect, e: int)
    requires Crosses(p1, p2, r, edge) && IsInside(p1, b, e) && IsInside(p2, b, e)
    ensures IsInside(Intersection(p1, p2, r, edge), b, e)
  {
    CrossingBetween(p1, p2, r, edge);
  }

  // ----- one pass

  /** What a pass writes for vertex `p` behind vertex `s`. */
  function Emit(s: Point, p: Point, r: Rect, edge: int): seq<Point>
    requires 0 <= edge < 4
  {
    if IsInside(p, r, edge) then
      (if IsInside(s, r, edge) then [] else [Intersection(s, p, r, edge)]) + [p]
    else
      if IsInside(s, r, edge) then [Intersection(p, s, r, edge)] else []
  }

  function PassFrom(s: Point, ps: seq<Point>, r: Rect, edge: int): seq<Point>
    requires 0 <= edge < 4
    decreases ps
  {
    if ps == [] then [] else Emit(s, ps[0], r, edge) + PassFrom(ps[0], ps[1..], r, edge)
  }

  /** A pass over a polygon, whose first vertex follows its last one. */
  function Pass(ps: seq<Point>, r: Rect, edge: int): seq<Point>
    requires 0 <= edge < 4
  {
    if ps == [] then [] else PassFrom(ps[|ps| - 1], ps, r, edge)
  }

  /** The first passes, one for each side. */
  function Passes(ps: seq<Point>, r: Rect, n: nat): seq<Point>
    requires n <= 4
  {
    if n == 0 then ps else Pass(Passes(ps, r, n - 1), r, n - 1)
  }

  function Clip(ps: seq<Point>, r: Rect): seq<Point> {
    Passes(ps, r, 4)
  }

  ghost predicate AllInside(ps: seq<Point>, r: Rect, edge: int) {
    forall p :: p in ps ==> IsInside(p, r, edge)
  }

  /** A pass keeps what holds of all vertices, as far as sides of rectangles can say it. */
  lemma {:induction false} PassFromStaysInside(s: Point, ps: seq<Point>, r: Rect, edge: int, b: Rect, e: int)
    requires 0 <= edge < 4 && IsInside(s, b, e) && AllInside(ps, b, e)
    ensures AllInside(PassFrom(s, ps, r, edge), b, e)
    decreases ps
  {
    if ps != [] {
      var p := ps[0];
      assert p in ps;
      PassFromStaysInside(p, ps[1..], r, edge, b, e);
      if Crosses(s, p, r, edge) {
        CrossingStaysInside(s, p, r, edge, b, e);
      } else if Crosses(p, s, r, edge) {
        CrossingStaysInside(p, s, r, edge, b, e);
      }
    }
  }

  /** A pass leaves only vertices inside its own side. */
  lemma {:induction false} PassFromIsInside(s: Point, ps: seq<Point>, r: Rect, edge: int)
    requires 0 <= edge < 4
    ensures AllInside(PassFrom(s, ps, r, edge), r, edge)
    decreases ps
  {
    if ps != [] {
      var p := ps[0];
      PassFromIsInside(p, ps[1..], r, edge);
      if Crosses(s, p, r, edge) {
        CrossingBetween(s, p, r, edge);
      } else if Crosses(p, s, r, edge) {
        CrossingBetween(p, s, r, edge);
      }
    }
  }

  lemma {:induction false} PassesStayInside(ps: seq<Point>, r: Rect, n: nat, b: Rect, e: int)
    requires n <= 4 && AllInside(ps, b, e)
    ensures AllInside(Passes(ps, r, n), b, e)
  {
    if n > 0 {
      PassesStayInside(ps, r, n - 1, b, e);
      var qs := Passes(ps, r, n - 1);
      if qs != [] {
        PassFromStaysInside(qs[|qs| - 1], qs, r, n - 1, b, e);
      }
    }
  }

  /** After a pass all vertices are inside its side and inside those of the passes before. */
  lemma {:induction false} PassesAreInside(ps: seq<Point>, r: Rect, n: nat, e: nat)
    requires e < n <= 4
    ensures AllInside(Passes(ps, r, n), r, e)
  {
    var qs := Passes(ps, r, n - 1);
    if qs != [] {
      if e == n - 1 {
        PassFromIsInside(qs[|qs| - 1], qs, r, e);
      } else {
        PassesAreInside(ps, r, n - 1, e);
        PassFromStaysInside(qs[|qs| - 1], qs, r, n - 1, r, e);
      }
    }
  }

  /** A clipped polygon is inside the rectangle. */
  lemma ClipIsInside(ps: seq<Point>, r: Rect)
    ensures forall p :: p in Clip(ps, r) ==> InRect(p, r)
  {
    PassesAreInside(ps, r, 4, 0);
    PassesAreInside(ps, r, 4, 1);
    PassesAreInside(ps, r, 4, 2);
    PassesAreInside(ps, r, 4, 3);
  }

  /** No pass leaves the polygon's bounding box. */
  lemma PassesKeepBox(ps: seq<Point>, r: Rect, n: nat, b: Rect)
    requires n <= 4 && forall p :: p in ps ==> InRect(p, b)
    ensures forall p :: p in Passes(ps, r, n) ==> InRect(p, b)
  {
    PassesStayInside(ps, r, n, b, 0);
    PassesStayInside(ps, r, n, b, 1);
    PassesStayInside(ps, r, n, b, 2);
    PassesStayInside(ps, r, n, b, 3);
  }

  // ----- what is left alone

  lemma {:induction false} PassFromIdentity(s: Point, ps: seq<Point>, r: Rect, edge: int)
    requires 0 <= edge < 4 && IsInside(s, r, edge) && AllInside(ps, r, edge)
    ensures PassFrom(s, ps, r, edge) == ps
    decreases ps
  {
    if ps != [] {
      assert ps[0] in ps;
      PassFromIdentity(ps[0], ps[1..], r, edge);
    }
  }

  /** A polygon inside the rectangle is not changed. */
  lemma {:induction false} PassesIdentity(ps: seq<Point>, r: Rect, n: nat)
    requires n <= 4 && forall p :: p in ps ==> InRect(p, r)
    ensures Passes(ps, r, n) == ps
  {
    if n > 0 {
      PassesIdentity(ps, r, n - 1);
      if ps != [] {
        assert ps[|ps| - 1] in ps;
        PassFromIdentity(ps[|ps| - 1], ps, r, n - 1);
      }
    }
  }

  /** Clipping twice is clipping once. */
  lemma ClipIsIdempotent(ps: seq<Point>, r: Rect)
    ensures Clip(Clip(ps, r), r) == Clip(ps, r)
  {
    ClipIsInside(ps, r);
    PassesIdentity(Clip(ps, r), r, 4);
  }

  lemma {:induction false} PassFromKeeps(s: Point, ps: seq<Point>, r: Rect, edge: int, v: Point)
    requires 0 <= edge < 4 && v in ps && IsInside(v, r, edge)
    ensures v in PassFrom(s, ps, r, edge)
    decreases ps
  {
    if ps[0] != v {
      PassFromKeeps(ps[0], ps[1..], r, edge, v);
    }
  }

  /** No vertex inside the rectangle is lost. */
  lemma {:induction false} ClipKeepsInside(ps: seq<Point>, r: Rect, n: nat, v: Point)
    requires n <= 4 && v in ps && InRect(v, r)
    ensures v in Passes(ps, r, n)
  {
    if n > 0 {
      ClipKeepsInside(ps, r, n - 1, v);
      var qs := Passes(ps, r, n - 1);
      PassFromKeeps(qs[|qs| - 1], qs, r, n - 1, v);
    }
  }

  ghost predicate OnSide(p: Point, r: Rect) {
    p.x == r.lu.x || p.x == r.rl.x || p.y == r.lu.y || p.y == r.rl.y
  }

  lemma {:induction false} PassFromKnown(s: Point, ps: seq<Point>, r: Rect, edge: int, v: Point)
    requires 0 <= edge < 4 && v in PassFrom(s, ps, r, edge)
    ensures v in ps || OnSide(v, r)
    decreases ps
  {
    var p, rest := ps[0], PassFrom(ps[0], ps[1..], r, edge);
    if v in rest {
      PassFromKnown(p, ps[1..], r, edge, v);
    } else {
      assert v in Emit(s, p, r, edge);
      if Crosses(s, p, r, edge) {
        CrossingBetween(s, p, r, edge);
      } else if Crosses(p, s, r, edge) {
        CrossingBetween(p, s, r, edge);
      }
    }
  }

  /** Every vertex of the result is one of the polygon's or on a side of the rectangle. */
  lemma {:induction false} ClipAddsOnSides(ps: seq<Point>, r: Rect, n: nat, v: Point)
    requires n <= 4 && v in Passes(ps, r, n)
    ensures v in ps || OnSide(v, r)
  {
    if n > 0 {
      var qs := Passes(ps, r, n - 1);
      PassFromKnown(qs[|qs| - 1], qs, r, n - 1, v);
      if v in qs {
        ClipAddsOnSides(ps, r, n - 1, v);
      }
    }
  }

  // ----- how much a pass writes

  function Bit(b: bool): nat {
    if b then 1 else 0
  }

  function InsideCount(ps: seq<Point>, r: Rect, edge: int): (n: nat)
    ensures n <= |ps|
  {
    if ps == [] then 0 else Bit(IsInside(ps[0], r, edge)) + InsideCount(ps[1..], r, edge)
  }

  /** How often the polygon comes inside. */
  function Entries(s: Point, ps: seq<Point>, r: Rect, edge: int): nat
    decreases ps
  {
    if ps == [] then 0 else Bit(!IsInside(s, r, edge) && IsInside(ps[0], r, edge)) + Entries(ps[0], ps[1..], r, edge)
  }

  /** How often it goes outside. */
  function Exits(s: Point, ps: seq<Point>, r: Rect, edge: int): nat
    decreases ps
  {
    if ps == [] then 0 else Bit(IsInside(s, r, edge) && !IsInside(ps[0], r, edge)) + Exits(ps[0], ps[1..], r, edge)
  }

  lemma {:induction false} PassFromCounts(s: Point, ps: seq<Point>, r: Rect, edge: int)
    requires 0 <= edge < 4
    ensures |PassFrom(s, ps, r, edge)| == InsideCount(ps, r, edge) + Entries(s, ps, r, edge) + Exits(s, ps, r, edge)
    ensures Entries(s, ps, r, edge) <= InsideCount(ps, r, edge)
      && Exits(s, ps, r, edge) <= |ps| - InsideCount(ps, r, edge)
    ensures var last := if ps == [] then s else ps[|ps| - 1];
      Entries(s, ps, r, edge) + Bit(IsInside(s, r, edge)) == Exits(s, ps, r, edge) + Bit(IsInside(last, r, edge))
    decreases ps
  {
    if ps != [] {
      PassFromCounts(ps[0], ps[1..], r, edge);
    }
  }

  /** Around a polygon, entries and exits balance, so a pass writes half as much again at most. */
  lemma PassGrowth(ps: seq<Point>, r: Rect, edge: int)
    requires 0 <= edge < 4
    ensures 2 * |Pass(ps, r, edge)| <= 3 * |ps|
  {
    if ps != [] {
      PassFromCounts(ps[|ps| - 1], ps, r, edge);
    }
  }

  /** No pass outgrows the buffers of eight vertices for each one, and one. */
  lemma PassesFit(ps: seq<Point>, r: Rect, n: nat)
    requires n <= 4
    ensures |Passes(ps, r, n)| <= 8 * |ps|
    ensures n == 4 ==> 16 * |Passes(ps, r, n)| <= 81 * |ps|
  {
    PassGrowth(Passes(ps, r, 0), r, 0);
    PassGrowth(Passes(ps, r, 1), r, 1);
    PassGrowth(Passes(ps, r, 2), r, 2);
    PassGrowth(Passes(ps, r, 3), r, 3);
    assert n == 0 || n == 1 || n == 2 || n == 3 || n == 4;
  }

  // ----- 32-bit arithmetic

  /** No step of `poly_intersection` leaves 32 bits. */
  predicate Fits(p1: Point, p2: Point, r: Rect, edge: int) {
    Crosses(p1, p2, r, edge) ==>
      var dx, dy, p := p2.x - p1.x, p2.y - p1.y, Intersection(p1, p2, r, edge);
      && Int32(dx) && Int32(dy) && Int32(p.x) && Int32(p.y)
      && (edge < 2 ==> Int32(p.x - p1.x) && Int32((p.x - p1.x) * dy) && Int32(p.y - p1.y))
      && (edge >= 2 ==> Int32(p.y - p1.y) && Int32((p.y - p1.y) * dx) && Int32(p.x - p1.x))
  }

  /** A box whose corners and whose area are 32-bit numbers. */
  predicate SmallBox(b: Rect) {
    var w, h := b.rl.x - b.lu.x, b.rl.y - b.lu.y;
    && Int32(b.lu.x) && Int32(b.lu.y) && Int32(b.rl.x) && Int32(b.rl.y)
    && 0 <= w < 0x8000_0000 && 0 <= h < 0x8000_0000 && w * h < 0x8000_0000
  }

  lemma ProductFits(a: int, b: int, w: nat, h: nat)
    requires Abs(a) <= w && Abs(b) <= h && w * h < 0x8000_0000
    ensures Int32(a * b)
  {
    MulMono(Abs(a), w, Abs(b));
    MulMono(Abs(b), h, w);
    Signs(a, b);
  }

  lemma CrossingFits(p1: Point, p2: Point, r: Rect, edge: int, b: Rect)
    requires SmallBox(b) && InRect(p1, b) && InRect(p2, b)
    ensures Fits(p1, p2, r, edge)
  {
    if Crosses(p1, p2, r, edge) {
      var w, h := b.rl.x - b.lu.x, b.rl.y - b.lu.y;
      var p := Intersection(p1, p2, r, edge);
      CrossingBetween(p1, p2, r, edge);
      ProductFits(p.x - p1.x, p2.y - p1.y, w, h);
      ProductFits(p2.x - p1.x, p.y - p1.y, w, h);
      assert (p.y - p1.y) * (p2.x - p1.x) == (p2.x - p1.x) * (p.y - p1.y);
    }
  }

  /** The vertex before vertex `i`, around the polygon. */
  function Before(ps: seq<Point>, i: nat): Point
    requires i < |ps|
  {
    if i == 0 then ps[|ps| - 1] else ps[i - 1]
  }

  ghost predicate PairFits(s: Point, p: Point, r: Rect, edge: int) {
    Fits(s, p, r, edge) && Fits(p, s, r, edge)
  }

  ghost predicate PassFits(ps: seq<Point>, r: Rect, edge: int) {
    forall i :: 0 <= i < |ps| ==> PairFits(Before(ps, i), ps[i], r, edge)
  }

  /** Polygons whose bounding box has an area below 2^31 are clipped without overflow, wherever the rectangle is. */
  lemma ClipFits(ps: seq<Point>, r: Rect, n: nat, b: Rect)
    requires n < 4 && SmallBox(b) && forall p :: p in ps ==> InRect(p, b)
    ensures PassFits(Passes(ps, r, n), r, n)
  {
    PassesKeepBox(ps, r, n, b);
    var qs := Passes(ps, r, n);
    forall i | 0 <= i < |qs| ensures PairFits(Before(qs, i), qs[i], r, n) {
      var s := Before(qs, i);
      assert s in qs && qs[i] in qs;
      CrossingFits(s, qs[i], r, n, b);
      CrossingFits(qs[i], s, r, n, b);
    }
  }

  /** All coordinates of a point are C numbers. */
  predicate IntPoint(p: Point) {
    Int32(p.x) && Int32(p.y)
  }

  /** The product that `poly_intersection` divides: how far the side is from `p1`, times the extent along the side. */
  function Product(p1: Point, p2: Point, r: Rect, edge: int): int
    requires 0 <= edge < 4
  {
    match edge
    case 0 => (r.lu.x - p1.x) * (p2.y - p1.y)
    case 1 => (r.rl.x - p1.x) * (p2.y - p1.y)
    case 2 => (r.lu.y - p1.y) * (p2.x - p1.x)
    case _ => (r.rl.y - p1.y) * (p2.x - p1.x)
  }

  /** Exactly when `poly_intersection` stays within 32 bits: the line's extents and the product have to. */
  lemma FitsExactly(p1: Point, p2: Point, r: Rect, edge: int)
    requires IntPoint(p1) && IntPoint(p2) && Crosses(p1, p2, r, edge)
    ensures Fits(p1, p2, r, edge) <==> Int32(p2.x - p1.x) && Int32(p2.y - p1.y) && Int32(Product(p1, p2, r, edge))
  {
    CrossingBetween(p1, p2, r, edge);
  }

  ghost predicate Within(ps: seq<Point>, b: Rect) {
    forall p :: p in ps ==> InRect(p, b)
  }

  /** No step of any of the four passes leaves 32 bits. */
  ghost predicate ClipsIn32(ps: seq<Point>, r: Rect) {
    forall n :: 0 <= n < 4 ==> PassFits(Passes(ps, r, n), r, n)
  }

  lemma LineOverflows(ps: seq<Point>, r: Rect, n: nat)
    requires |ps| == 2 && n < 4 && Passes(ps, r, n) == ps && !Fits(ps[0], ps[1], r, n)
    ensures !ClipsIn32(ps, r)
  {
    assert Before(ps, 1) == ps[0];
    assert !PairFits(Before(ps, 1), ps[1], r, n);
    assert !PassFits(Passes(ps, r, n), r, n);
  }

  lemma WideBoxOverflows(b: Rect)
    requires IntPoint(b.lu) && IntPoint(b.rl) && b.lu.x < b.rl.x && b.lu.y <= b.rl.y && !SmallBox(b)
    ensures !Fits(b.lu, b.rl, Rect(Point(b.rl.x, b.lu.y), b.rl), 0)
  {
    FitsExactly(b.lu, b.rl, Rect(Point(b.rl.x, b.lu.y), b.rl), 0);
  }

  lemma ColumnOverflows(b: Rect)
    requires IntPoint(b.lu) && IntPoint(b.rl) && b.lu.x == b.rl.x && b.lu.y <= b.rl.y && !SmallBox(b)
    ensures !Fits(b.lu, b.rl, Rect(Point(b.lu.x, b.rl.y), b.rl), 2)
  {
    FitsExactly(b.lu, b.rl, Rect(Point(b.lu.x, b.rl.y), b.rl), 2);
  }

  /** The diagonal of a box that is not small overflows against the side at the far corner. */
  lemma DiagonalOverflows(b: Rect) returns (ps: seq<Point>, r: Rect)
    requires IntPoint(b.lu) && IntPoint(b.rl) && b.lu.x <= b.rl.x && b.lu.y <= b.rl.y && !SmallBox(b)
    ensures Within(ps, b) && InRect(r.lu, b) && InRect(r.rl, b) && !ClipsIn32(ps, r)
  {
    ps := [b.lu, b.rl];
    if b.lu.x < b.rl.x {
      r := Rect(Point(b.rl.x, b.lu.y), b.rl);
      WideBoxOverflows(b);
      LineOverflows(ps, r, 0);
    } else {
      r := Rect(Point(b.lu.x, b.rl.y), b.rl);
      ColumnOverflows(b);
      PassKeepsColumn(ps, r, b.lu.x);
      LineOverflows(ps, r, 2);
    }
  }

  /** The passes for the upright sides leave points between those sides alone. */
  lemma PassKeepsColumn(ps: seq<Point>, r: Rect, x: int)
    requires |ps| == 2 && ps[0].x == ps[1].x == x && r.lu.x == r.rl.x == x
    ensures Passes(ps, r, 2) == ps
  {
    PassFromIdentity(ps[1], ps, r, 0);
    assert Passes(ps, r, 1) == Pass(Passes(ps, r, 0), r, 0) == ps;
    PassFromIdentity(ps[1], ps, r, 1);
    assert Passes(ps, r, 2) == Pass(Passes(ps, r, 1), r, 1);
  }

  /**
   Exactly the small boxes are safe: every polygon in them is clipped without overflow against every rectangle,
   wherever that lies.
   */
  lemma SmallBoxIsExact(b: Rect)
    requires IntPoint(b.lu) && IntPoint(b.rl) && b.lu.x <= b.rl.x && b.lu.y <= b.rl.y
    ensures SmallBox(b) <==> forall ps: seq<Point>, r: Rect :: Within(ps, b) ==> ClipsIn32(ps, r)
  {
    if SmallBox(b) {
      forall ps: seq<Point>, r: Rect | Within(ps, b) ensures ClipsIn32(ps, r) {
        forall n | 0 <= n < 4 ensures PassFits(Passes(ps, r, n), r, n) {
          ClipFits(ps, r, n, b);
        }
      }
    } else {
      var ps, r := DiagonalOverflows(b);
    }
  }

  /** A line that overflows, although all its coordinates are small, against a rectangle that starts at the origin. */
  lemma LongLineOverflows()
    ensures !Fits(Point(-65536, 0), Point(1, 65536), Rect(Point(0, 0), Point(65536, 65536)), 0)
  {
    var p1, p2, r := Point(-65536, 0), Point(1, 65536), Rect(Point(0, 0), Point(65536, 65536));
    assert Crosses(p1, p2, r, 0);
    FitsExactly(p1, p2, r, 0);
    assert Product(p1, p2, r, 0) == 65536 * 65536;
  }

  // ----- graphics_draw_polygon_clipped

  /** What is to write from vertex `i` on, behind `s`. */
  lemma PassFromAt(s: Point, ps: seq<Point>, i: nat, r: Rect, edge: int, written: seq<Point>)
    requires 0 <= edge < 4 && i < |ps|
    ensures written + PassFrom(s, ps[i..], r, edge) == written + Emit(s, ps[i], r, edge) + PassFrom(ps[i], ps[i + 1..],
      r, edge)
  {
    assert ps[i..][0] == ps[i] && ps[i..][1..] == ps[i + 1..];
  }

  /** One vertex of a pass. */
  method EmitVertex(s: Point, p: Point, r: Rect, edge: int, pout: array<Point>, count: nat) returns (count': nat)
    requires 0 <= edge < 4 && count + |Emit(s, p, r, edge)| <= pout.Length
    modifies pout
    ensures count' == count + |Emit(s, p, r, edge)| && pout[..count'] == old(pout[..count]) + Emit(s, p, r, edge)
  {
    count' := count;
    if IsInside(p, r, edge) {
      if !IsInside(s, r, edge) {
        var pi := Intersection(s, p, r, edge);
        pout[count'] := pi;
        count' := count' + 1;
      }
      pout[count'] := p;
      count' := count' + 1;
    } else {
      if IsInside(s, r, edge) {
        var pi := Intersection(p, s, r, edge);
        pout[count'] := pi;
        count' := count' + 1;
      }
    }
  }

  /** One pass: from the vertices in one buffer to those in the other. */
  method ClipPass(pin: array<Point>, count: nat, r: Rect, edge: int, pout: array<Point>) returns (out: nat)
    requires 0 <= edge < 4 && pin != pout && count <= pin.Length && |Pass(pin[..count], r, edge)| <= pout.Length
    modifies pout
    ensures out <= pout.Length && pout[..out] == Pass(pin[..count], r, edge)
  {
    ghost var ps := pin[..count];
    out := 0;
    if count == 0 {
      return;
    }
    var s := pin[count - 1];
    var i := 0;
    while i < count
      invariant 0 <= i <= count && out <= pout.Length && pin[..count] == ps
      invariant Pass(ps, r, edge) == pout[..out] + PassFrom(s, ps[i..], r, edge)
    {
      PassFromAt(s, ps, i, r, edge, pout[..out]);
      assert pin[i] == ps[i];
      out := EmitVertex(s, pin[i], r, edge, pout, out);
      s := pin[i];
      i := i + 1;
    }
  }

  /** `graphics_draw_polygon_clipped` up to drawing: what the last pass left. */
  method ClipPolygon(pin: array<Point>, count: nat, r: Rect) returns (p: array<Point>, out: nat)
    requires count <= pin.Length
    ensures out <= p.Length && p[..out] == Clip(pin[..count], r)
  {
    ghost var ps := pin[..count];
    var p1 := new Point[count * 8 + 1](_ => Point(0, 0));
    var p2 := new Point[count * 8 + 1](_ => Point(0, 0));
    var pout := p1;
    p, out := pin, count;
    var edge := 0;
    while edge < 4
      invariant 0 <= edge <= 4 && out <= p.Length && p[..out] == Passes(ps, r, edge)
      invariant p != pout && (pout == p1 || pout == p2) && (p == pin || p == p1 || p == p2)
      invariant edge == 0 <==> p == pin
      invariant edge == 0 ==> pout == p1
    {
      PassesFit(ps, r, edge + 1);
      out := ClipPass(p, out, r, edge, pout);
      if p == p1 {
        p, pout := p2, p1;
      } else {
        p, pout := p1, p2;
      }
      edge := edge + 1;
    }
  }
}
