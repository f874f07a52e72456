/**
 Where a clipped polygon's vertices come from: a pass walks once around the border, line by line, and keeps of
 each line what is inside, in the direction of the line.
 */
module PolygonBorder {
  import opened Basics
  import opened PolygonClipping

  // ----- one crossing

  /** `v` is the way `d` cut at the part `t` of `n`, towards the start. */
  predicate Cut(t: int, n: int, d: int, v: int) {
    Between(0, v, d) && Abs(v) * Abs(n) <= Abs(t) * Abs(d) < Abs(v) * Abs(n) + Abs(n)
  }

  lemma QuotientIs(a: nat, n: nat, q: nat)
    requires n > 0
    ensures q * n <= a < q * n + n <==> q == a / n
  {
    DivBounds(a, n);
    if q < a / n {
      MulMono(q + 1, a / n, n);
    } else if q > a / n {
      MulMono(a / n + 1, q, n);
    }
  }

  lemma CutOnce(t: int, n: int, d: int, v: int)
    requires n != 0 && Between(0, t, n)
    ensures Cut(t, n, d, v) <==> v == CDiv(t * d, n)
  {
    var q := (Abs(t) * Abs(d)) / Abs(n);
    Part(t, n, d);
    Quotient(t, n, d, q);
    Share(Abs(t), Abs(n), Abs(d));
    QuotientIs(Abs(t) * Abs(d), Abs(n), Abs(v));
    QuotientIs(Abs(t) * Abs(d), Abs(n), q);
  }

  /** A point on a side of the rectangle, where the line that comes inside from `p1` meets it, cut to whole pixels. */
  predicate Meets(q: Point, p1: Point, p2: Point, r: Rect, edge: int) {
    && OnEdge(q, r, edge)
    && if edge < 2 then Cut(q.x - p1.x, p2.x - p1.x, p2.y - p1.y, q.y - p1.y)
       else Cut(q.y - p1.y, p2.y - p1.y, p2.x - p1.x, q.x - p1.x)
  }

  predicate OnEdge(q: Point, r: Rect, edge: int) {
    match edge
    case 0 => q.x == r.lu.x
    case 1 => q.x == r.rl.x
    case 2 => q.y == r.lu.y
    case _ => q.y == r.rl.y
  }

  /** There is one such point, and it is what `poly_intersection` computes. */
  lemma CrossingMeets(p1: Point, p2: Point, r: Rect, edge: int, q: Point)
    requires Crosses(p1, p2, r, edge)
    ensures Meets(q, p1, p2, r, edge) <==> q == Intersection(p1, p2, r, edge)
  {
    var dx, dy := p2.x - p1.x, p2.y - p1.y;
    match edge
    case 0 => CutOnce(r.lu.x - p1.x, dx, dy, q.y - p1.y);
    case 1 => CutOnce(r.rl.x - p1.x, dx, dy, q.y - p1.y);
    case 2 => CutOnce(r.lu.y - p1.y, dy, dx, q.x - p1.x);
    case _ => CutOnce(r.rl.y - p1.y, dy, dx, q.x - p1.x);
  }

  // ----- one pass

  /** A vertex is between the ends of a line. */
  predicate OnLine(s: Point, q: Point, p: Point) {
    Between(s.x, q.x, p.x) && Between(s.y, q.y, p.y)
  }

  /**
   Vertex `j` of the result belongs to line `at[j]`: as its last one it is the line's end, or if that is outside,
   where the line leaves; before another one it is where the line comes in.
   */
  ghost predicate Belongs(out: seq<Point>, at: seq<nat>, ps: seq<Point>, r: Rect, edge: int, j: nat)
    requires j < |at| == |out|
  {
    at[j] < |ps| &&
    var s, p, q := Before(ps, at[j]), ps[at[j]], out[j];
    && OnLine(s, q, p)
    && if j + 1 < |at| && at[j + 1] == at[j] then Crosses(s, p, r, edge) && Meets(q, s, p, r, edge)
       else if IsInside(p, r, edge) then q == p && (IsInside(s, r, edge) || (j > 0 && at[j - 1] == at[j]))
       else Crosses(p, s, r, edge) && Meets(q, p, s, r, edge)
  }

  /** The lines do not go back, and none has more than two vertices. */
  ghost predicate Onwards(at: seq<nat>) {
    && (forall j, k :: 0 <= j < k < |at| ==> at[j] <= at[k])
    && (forall j :: 0 <= j < |at| - 2 ==> at[j] < at[j + 2])
  }

  /** From line `i` on, just the lines with an end inside have vertices. */
  ghost predicate Covers(at: seq<nat>, ps: seq<Point>, r: Rect, edge: int, i: nat) {
    forall k :: i <= k < |ps| ==> (k in at <==> IsInside(Before(ps, k), r, edge) || IsInside(ps[k], r, edge))
  }

  ghost predicate AllBelong(out: seq<Point>, at: seq<nat>, ps: seq<Point>, r: Rect, edge: int)
    requires |at| == |out|
  {
    forall j :: 0 <= j < |at| ==> Belongs(out, at, ps, r, edge, j)
  }

  /** The vertices are those that a walk from line `i` on leaves. */
  ghost predicate Walks(out: seq<Point>, at: seq<nat>, ps: seq<Point>, r: Rect, edge: int, i: nat) {
    && |at| == |out| && Onwards(at) && Covers(at, ps, r, edge, i) && (forall j :: 0 <= j < |at| ==> i <= at[j])
    && AllBelong(out, at, ps, r, edge)
  }

  /** The lines of what is written for one vertex. */
  function Lines(s: Point, p: Point, r: Rect, edge: int, i: nat): seq<nat>
    requires 0 <= edge < 4
  {
    if Crosses(s, p, r, edge) then [i, i]
    else if IsInside(s, r, edge) || IsInside(p, r, edge) then [i]
    else []
  }

  lemma OnwardsOn(l: seq<nat>, at: seq<nat>, i: nat)
    requires (l == [] || l == [i] || l == [i, i]) && Onwards(at) && forall j :: 0 <= j < |at| ==> i < at[j]
    ensures Onwards(l + at) && forall j :: 0 <= j < |l + at| ==> i <= (l + at)[j]
  {
    var at' := l + at;
    forall j, k | 0 <= j < k < |at'| ensures at'[j] <= at'[k] {
      if j >= |l| {
        assert at'[j] == at[j - |l|] && at'[k] == at[k - |l|];
      }
    }
    forall j | 0 <= j < |at'| - 2 ensures at'[j] < at'[j + 2] {
      if j >= |l| {
        assert at'[j] == at[j - |l|] && at'[j + 2] == at[j - |l| + 2];
      }
    }
  }

  lemma CoversOn(l: seq<nat>, at: seq<nat>, ps: seq<Point>, r: Rect, edge: int, i: nat)
    requires 0 <= edge < 4 && i < |ps| && Covers(at, ps, r, edge, i + 1) && forall j :: 0 <= j < |at| ==> i < at[j]
    requires l == Lines(Before(ps, i), ps[i], r, edge, i)
    ensures Covers(l + at, ps, r, edge, i)
  {
    assert forall k :: k in l <==> l != [] && k == i;
    forall k | i <= k < |ps|
      ensures k in l + at <==> IsInside(Before(ps, k), r, edge) || IsInside(ps[k], r, edge)
    {
      assert k in l + at <==> k in l || k in at;
      if k == i {
        assert k !in at;
      }
    }
  }

  /** The vertices of a line, in front of those of further lines. */
  lemma BelongsHere(out: seq<Point>, at: seq<nat>, ps: seq<Point>, r: Rect, edge: int, i: nat, j: nat)
    requires 0 <= edge < 4 && i < |ps| && |at| == |out|
    requires var s, p := Before(ps, i), ps[i];
      && (var l := Lines(s, p, r, edge, i); j < |l| <= |at| && at[..|l|] == l && (|at| > |l| ==> at[|l|] != i))
      && (var e := Emit(s, p, r, edge); |e| <= |out| && out[..|e|] == e)
    ensures Belongs(out, at, ps, r, edge, j)
  {
    var s, p := Before(ps, i), ps[i];
    var e, l := Emit(s, p, r, edge), Lines(s, p, r, edge, i);
    assert at[j] == l[j] == i && out[j] == e[j];
    if Crosses(s, p, r, edge) {
      assert at[0] == l[0] && at[1] == l[1];
      CrossingMeets(s, p, r, edge, e[0]);
      CrossingBetween(s, p, r, edge);
    } else if Crosses(p, s, r, edge) {
      CrossingMeets(p, s, r, edge, e[0]);
      CrossingBetween(p, s, r, edge);
    }
  }

  lemma BelongsOn(e: seq<Point>, l: seq<nat>, out: seq<Point>, at: seq<nat>, ps: seq<Point>, r: Rect, edge: int, j: nat)
    requires |e| == |l| && j < |at| == |out| && Belongs(out, at, ps, r, edge, j)
    ensures Belongs(e + out, l + at, ps, r, edge, j + |l|)
  {
    var at' := l + at;
    assert (e + out)[j + |l|] == out[j] && at'[j + |l|] == at[j];
    assert j + 1 < |at| ==> at'[j + |l| + 1] == at[j + 1];
    assert j > 0 ==> at'[j + |l| - 1] == at[j - 1];
  }

  lemma AllBelongOn(e: seq<Point>, l: seq<nat>, out: seq<Point>, at: seq<nat>, ps: seq<Point>, r: Rect, edge: int)
    requires |e| == |l| && |at| == |out| && AllBelong(out, at, ps, r, edge)
    requires forall j :: 0 <= j < |l| ==> Belongs(e + out, l + at, ps, r, edge, j)
    ensures AllBelong(e + out, l + at, ps, r, edge)
  {
    forall j | 0 <= j < |l + at| ensures Belongs(e + out, l + at, ps, r, edge, j) {
      if j >= |l| {
        BelongsOn(e, l, out, at, ps, r, edge, j - |l|);
      }
    }
  }

  /** One line more in front of a walk. */
  lemma WalkOn(out: seq<Point>, at: seq<nat>, ps: seq<Point>, r: Rect, edge: int, i: nat)
    requires 0 <= edge < 4 && i < |ps| && Walks(out, at, ps, r, edge, i + 1)
    ensures var s, p := Before(ps, i), ps[i];
      Walks(Emit(s, p, r, edge) + out, Lines(s, p, r, edge, i) + at, ps, r, edge, i)
  {
    var s, p := Before(ps, i), ps[i];
    var e, l := Emit(s, p, r, edge), Lines(s, p, r, edge, i);
    OnwardsOn(l, at, i);
    CoversOn(l, at, ps, r, edge, i);
    assert (l + at)[..|l|] == l && (e + out)[..|e|] == e;
    forall j | 0 <= j < |l| ensures Belongs(e + out, l + at, ps, r, edge, j) {
      BelongsHere(e + out, l + at, ps, r, edge, i, j);
    }
    AllBelongOn(e, l, out, at, ps, r, edge);
  }

  lemma {:induction false} WalkFrom(ps: seq<Point>, r: Rect, edge: int, i: nat) returns (at: seq<nat>)
    requires 0 <= edge < 4 && i <= |ps| && ps != []
    ensures Walks(PassFrom(if i == 0 then ps[|ps| - 1] else ps[i - 1], ps[i..], r, edge), at, ps, r, edge, i)
    decreases |ps| - i
  {
    if i == |ps| {
      at := [];
    } else {
      at := WalkFrom(ps, r, edge, i + 1);
      var s, p := Before(ps, i), ps[i];
      WalkOn(PassFrom(p, ps[i + 1..], r, edge), at, ps, r, edge, i);
      PassFromAt(s, ps, i, r, edge, []);
      at := Lines(s, p, r, edge, i) + at;
    }
  }

  /** A pass walks along the border. */
  lemma PassWalks(ps: seq<Point>, r: Rect, edge: int) returns (at: seq<nat>)
    requires 0 <= edge < 4
    ensures Walks(Pass(ps, r, edge), at, ps, r, edge, 0)
  {
    if ps == [] {
      at := [];
    } else {
      at := WalkFrom(ps, r, edge, 0);
      assert ps[0..] == ps;
    }
  }

  /** A rectangle over the right half of another one. */
  lemma HalfOfRectangle()
    ensures Clip([Point(-10, 0), Point(10, 0), Point(10, 10), Point(-10, 10)], Rect(Point(0, 0), Point(20, 20)))
      == [Point(0, 0), Point(10, 0), Point(10, 10), Point(0, 10)]
  {
    var ps := [Point(-10, 0), Point(10, 0), Point(10, 10), Point(-10, 10)];
    var qs := [Point(0, 0), Point(10, 0), Point(10, 10), Point(0, 10)];
    var r := Rect(Point(0, 0), Point(20, 20));
    assert Pass(ps, r, 0) == qs;
    assert Passes(ps, r, 1) == Pass(Passes(ps, r, 0), r, 0);
    PassFromIdentity(qs[3], qs, r, 1);
    PassFromIdentity(qs[3], qs, r, 2);
    PassFromIdentity(qs[3], qs, r, 3);
    assert Passes(ps, r, 2) == Pass(qs, r, 1) == qs;
    assert Passes(ps, r, 3) == Pass(qs, r, 2) == qs;
  }
}
