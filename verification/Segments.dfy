/** When two segments touch: the decision by four orientations, and what it decides. */
module Segments {

  datatype Point = Point(x: real, y: real)

  // ---------- the code ----------

  /** Conversion of a double to int drops the fraction. */
  function Truncate(v: real): int { if v >= 0.0 then v.Floor else -(-v).Floor }

  function Cross(p: Point, q: Point, r: Point): real {
    (q.y - p.y) * (r.x - q.x) - (q.x - p.x) * (r.y - q.y)
  }

  /** 0: collinear, 1: clockwise, 2: counterclockwise. */
  function Turn(val: int): int { if val == 0 then 0 else if val > 0 then 1 else 2 }

  function Orientation(p: Point, q: Point, r: Point): int { Turn(Truncate(Cross(p, q, r))) }

  function Max(a: real, b: real): real { if a < b then b else a }

  function Min(a: real, b: real): real { if b < a then b else a }

  predicate OnSegment(p: Point, q: Point, r: Point) {
    q.x <= Max(p.x, r.x) && q.x >= Min(p.x, r.x) && q.y <= Max(p.y, r.y) && q.y >= Min(p.y, r.y)
  }

  predicate DoIntersect(p1: Point, q1: Point, p2: Point, q2: Point) {
    var o1 := Orientation(p1, q1, p2);
    var o2 := Orientation(p1, q1, q2);
    var o3 := Orientation(p2, q2, p1);
    var o4 := Orientation(p2, q2, q1);
    if o1 != o2 && o3 != o4 then true
    else if o1 == 0 && OnSegment(p1, p2, q1) then true
    else if o2 == 0 && OnSegment(p1, q2, q1) then true
    else if o3 == 0 && OnSegment(p2, p1, q2) then true
    else if o4 == 0 && OnSegment(p2, q1, q2) then true
    else false
  }

  // ---------- what it should decide ----------

  function Along(p: Point, q: Point, t: real): Point {
    Point(p.x + t * (q.x - p.x), p.y + t * (q.y - p.y))
  }

  predicate Unit(t: real) { 0.0 <= t <= 1.0 }

  /** r is on the closed segment from p to q. */
  ghost predicate On(p: Point, q: Point, r: Point) {
    exists t: real :: Unit(t) && Along(p, q, t) == r
  }

  ghost predicate Share(p1: Point, q1: Point, p2: Point, q2: Point) {
    exists r: Point :: On(p1, q1, r) && On(p2, q2, r)
  }

  // ---------- orientations without truncation ----------

  function Sign(v: real): int { if v == 0.0 then 0 else if v > 0.0 then 1 else 2 }

  /** The conversion to int does not lose the sign. */
  predicate Kept(v: real) { v == 0.0 || v >= 1.0 || v <= -1.0 }

  lemma TurnIsSign(v: real)
    ensures Turn(Truncate(v)) == Sign(v) <==> Kept(v)
  {
  }

  lemma CrossDifference(p1: Point, q1: Point, p2: Point, q2: Point)
    ensures Cross(p1, q1, p2) - Cross(p1, q1, q2) == Cross(p2, q2, q1) - Cross(p2, q2, p1)
  {
  }

  /** Cross is affine in its last point. */
  lemma CrossAlong(p: Point, q: Point, r: Point, s: Point, t: real)
    ensures Cross(p, q, Along(r, s, t)) == (1.0 - t) * Cross(p, q, r) + t * Cross(p, q, s)
  {
  }

  lemma CrossOnLine(p: Point, q: Point, t: real)
    ensures Cross(p, q, Along(p, q, t)) == 0.0
  {
  }

  // ---------- the lines cross ----------

  lemma CramerX(p1: Point, q1: Point, p2: Point, q2: Point)
    ensures (Cross(p1, q1, p2) - Cross(p1, q1, q2)) * (p2.x - p1.x) ==
            -Cross(p2, q2, p1) * (q1.x - p1.x) - Cross(p1, q1, p2) * (q2.x - p2.x)
  {
  }

  lemma CramerY(p1: Point, q1: Point, p2: Point, q2: Point)
    ensures (Cross(p1, q1, p2) - Cross(p1, q1, q2)) * (p2.y - p1.y) ==
            -Cross(p2, q2, p1) * (q1.y - p1.y) - Cross(p1, q1, p2) * (q2.y - p2.y)
  {
  }

  lemma CancelFactor(d: real, z: real)
    requires d != 0.0 && d * z == 0.0
    ensures z == 0.0
  {
  }

  /** A coordinate of the meeting point is the same along either line. */
  lemma SameCoordinate(d: real, ns: real, nt: real, s: real, t: real, w: real, a: real, b: real)
    requires d != 0.0 && s * d == ns && t * d == nt
    requires d * w == ns * a - nt * b
    ensures s * a == w + t * b
  {
    assert d * (s * a - w - t * b) == (s * d) * a - d * w - (t * d) * b;
    CancelFactor(d, s * a - w - t * b);
  }

  lemma Quotient(n: real, d: real) returns (t: real)
    requires d != 0.0
    ensures t * d == n
  {
    t := n / d;
  }

  lemma Shrinks(u: real, d: real)
    requires u > 0.0
    ensures d > 0.0 ==> u * d > 0.0
    ensures d < 0.0 ==> u * d < 0.0
  {
  }

  lemma Negated(t: real, d: real)
    ensures t * -d == -(t * d) && -t * d == -(t * d)
  {
  }

  lemma LessOne(t: real, d: real)
    ensures (t - 1.0) * d == t * d - d
  {
  }

  /** Two values of different sign have their zero between them. */
  lemma ZeroBetween(v: real, w: real, t: real)
    requires Sign(v) != Sign(w) && t * (v - w) == v
    ensures Unit(t)
  {
    if t < 0.0 { Shrinks(-t, v - w); Negated(t, v - w); }
    if t > 1.0 { Shrinks(t - 1.0, v - w); LessOne(t, v - w); }
  }

  lemma LinesCross(p1: Point, q1: Point, p2: Point, q2: Point)
    requires Sign(Cross(p1, q1, p2)) != Sign(Cross(p1, q1, q2))
    requires Sign(Cross(p2, q2, p1)) != Sign(Cross(p2, q2, q1))
    ensures Share(p1, q1, p2, q2)
  {
    var d1, d2 := Cross(p1, q1, p2), Cross(p1, q1, q2);
    var d3, d4 := Cross(p2, q2, p1), Cross(p2, q2, q1);
    CrossDifference(p1, q1, p2, q2);
    CramerX(p1, q1, p2, q2);
    CramerY(p1, q1, p2, q2);
    hide Cross;
    var d := d1 - d2;
    var s := Quotient(-d3, d);
    var t := Quotient(d1, d);
    assert s * (d3 - d4) == d3;
    ZeroBetween(d3, d4, s);
    ZeroBetween(d1, d2, t);
    SameCoordinate(d, -d3, d1, s, t, p2.x - p1.x, q1.x - p1.x, q2.x - p2.x);
    SameCoordinate(d, -d3, d1, s, t, p2.y - p1.y, q1.y - p1.y, q2.y - p2.y);
    var r := Along(p1, q1, s);
    assert r == Along(p2, q2, t);
    assert On(p1, q1, r) && On(p2, q2, r);
  }

  // ---------- collinear points ----------

  lemma Product(a: real, b: real)
    requires (a >= 0.0 && b >= 0.0) || (a <= 0.0 && b <= 0.0)
    ensures a * b >= 0.0
  {
  }

  lemma BetweenCoordinates(p: real, q: real, t: real, r: real)
    requires Unit(t) && r == p + t * (q - p)
    ensures Min(p, q) <= r <= Max(p, q)
  {
    if p <= q {
      Product(t, q - p);
      Product(1.0 - t, q - p);
    } else {
      Product(t, p - q);
      Product(1.0 - t, p - q);
    }
  }

  lemma Scaled(t: real, d: real)
    requires Unit(t) && d >= 0.0
    ensures 0.0 <= t * d <= d
  {
  }

  lemma OnIsInBox(p: Point, r: Point, q: Point)
    requires On(p, q, r)
    ensures OnSegment(p, r, q) && Cross(p, q, r) == 0.0
  {
    var t :| Unit(t) && Along(p, q, t) == r;
    BetweenCoordinates(p.x, q.x, t, r.x);
    BetweenCoordinates(p.y, q.y, t, r.y);
    CrossOnLine(p, q, t);
    hide Min, Max, Cross, Along;
  }

  /** Where r stands on the line through p and q, measured by one coordinate. */
  lemma Fraction(p: real, q: real, r: real) returns (t: real)
    requires p != q && Min(p, q) <= r <= Max(p, q)
    ensures Unit(t) && t * (q - p) == r - p
  {
    t := Quotient(r - p, q - p);
    if t < 0.0 { Shrinks(-t, q - p); Negated(t, q - p); }
    if t > 1.0 { Shrinks(t - 1.0, q - p); LessOne(t, q - p); }
  }

  lemma OtherCoordinate(t: real, a: real, b: real, u: real, v: real)
    requires a != 0.0 && t * a == u && b * u == a * v
    ensures t * b == v
  {
    assert a * (t * b - v) == b * (t * a) - a * v;
    CancelFactor(a, t * b - v);
  }

  lemma CrossFlat(p: Point, q: Point, r: Point)
    requires Cross(p, q, r) == 0.0
    ensures (q.y - p.y) * (r.x - p.x) == (q.x - p.x) * (r.y - p.y)
  {
  }

  lemma AlongIs(p: Point, q: Point, t: real, r: Point)
    requires t * (q.x - p.x) == r.x - p.x && t * (q.y - p.y) == r.y - p.y
    ensures Along(p, q, t) == r
  {
  }

  /** A collinear point in the bounding box is on the segment, also when the segment is one
    * point. */
  lemma InBoxIsOn(p: Point, r: Point, q: Point)
    requires Cross(p, q, r) == 0.0 && OnSegment(p, r, q)
    ensures On(p, q, r)
  {
    CrossFlat(p, q, r);
    hide Cross;
    if p.x != q.x {
      var t := Fraction(p.x, q.x, r.x);
      OtherCoordinate(t, q.x - p.x, q.y - p.y, r.x - p.x, r.y - p.y);
      AlongIs(p, q, t, r);
    } else if p.y != q.y {
      var t := Fraction(p.y, q.y, r.y);
      OtherCoordinate(t, q.y - p.y, q.x - p.x, r.y - p.y, r.x - p.x);
      AlongIs(p, q, t, r);
    } else {
      assert Along(p, q, 0.0) == r;
    }
  }

  lemma MixtureBelow(u: real, v: real, t: real, b: real)
    requires Unit(t) && u < b && v < b
    ensures (1.0 - t) * u + t * v < b
  {
    if t == 1.0 {
    } else {
      Shrinks(1.0 - t, b - u);
      Scaled(t, b - v);
      assert (1.0 - t) * (b - u) + t * (b - v) == b - ((1.0 - t) * u + t * v);
    }
  }

  /** Two numbers outside the unit interval with a mixture inside it enclose it. */
  lemma Encloses(u: real, v: real, t: real)
    requires Unit(t) && Unit((1.0 - t) * u + t * v) && !Unit(u) && !Unit(v)
    ensures (u < 0.0 && v > 1.0) || (v < 0.0 && u > 1.0)
  {
    if u < 0.0 && v < 0.0 { MixtureBelow(u, v, t, 0.0); }
    if u > 1.0 && v > 1.0 { MixtureBelow(-u, -v, t, -1.0); }
  }

  /** The parameter of a point on the line through two different points. */
  lemma OnLine(p: Point, q: Point, r: Point) returns (u: real)
    requires p != q && Cross(p, q, r) == 0.0
    ensures Along(p, q, u) == r
  {
    CrossFlat(p, q, r);
    hide Cross;
    if p.x != q.x {
      u := Quotient(r.x - p.x, q.x - p.x);
      OtherCoordinate(u, q.x - p.x, q.y - p.y, r.x - p.x, r.y - p.y);
    } else {
      u := Quotient(r.y - p.y, q.y - p.y);
      OtherCoordinate(u, q.y - p.y, q.x - p.x, r.y - p.y, r.x - p.x);
    }
  }

  lemma SameFactor(a: real, u: real, v: real)
    requires a != 0.0 && u * a == v * a
    ensures u == v
  {
    CancelFactor(a, u - v);
  }

  lemma AlongInjective(p: Point, q: Point, u: real, v: real)
    requires p != q && Along(p, q, u) == Along(p, q, v)
    ensures u == v
  {
    if p.x != q.x { SameFactor(q.x - p.x, u, v); } else { SameFactor(q.y - p.y, u, v); }
  }

  lemma MixMix(p: real, d: real, u: real, v: real, t: real)
    ensures (p + u * d) + t * ((p + v * d) - (p + u * d)) == p + ((1.0 - t) * u + t * v) * d
  {
  }

  lemma AlongAlong(p: Point, q: Point, u: real, v: real, t: real)
    ensures Along(Along(p, q, u), Along(p, q, v), t) == Along(p, q, (1.0 - t) * u + t * v)
  {
    MixMix(p.x, q.x - p.x, u, v, t);
    MixMix(p.y, q.y - p.y, u, v, t);
  }

  /** p is between x and y, the points at u and at v on the line from p in direction a. */
  lemma Astride(p: real, a: real, u: real, v: real, x: real, y: real)
    requires u <= 0.0 <= v && x == p + u * a && y == p + v * a
    ensures Min(x, y) <= p <= Max(x, y) && Min(y, x) <= p <= Max(y, x)
  {
    if a >= 0.0 {
      Product(-u, a);
      Product(v, a);
    } else {
      Product(u, a);
      Product(-v, a);
    }
  }

  predicate EndpointTouches(p1: Point, q1: Point, p2: Point, q2: Point) {
    OnSegment(p1, p2, q1) || OnSegment(p1, q2, q1) || OnSegment(p2, p1, q2) || OnSegment(p2, q1, q2)
  }

  lemma AstrideIsOn(p: Point, q: Point, u: real, v: real)
    requires u <= 0.0 <= v
    ensures OnSegment(Along(p, q, u), p, Along(p, q, v))
    ensures OnSegment(Along(p, q, v), p, Along(p, q, u))
  {
    var r, s := Along(p, q, u), Along(p, q, v);
    Astride(p.x, q.x - p.x, u, v, r.x, s.x);
    Astride(p.y, q.y - p.y, u, v, r.y, s.y);
    hide Min, Max, Along;
  }

  lemma CollinearOverlap(p1: Point, q1: Point, p2: Point, q2: Point)
    requires Cross(p1, q1, p2) == 0.0 && Cross(p1, q1, q2) == 0.0 && Share(p1, q1, p2, q2)
    ensures EndpointTouches(p1, q1, p2, q2)
  {
    var r: Point :| On(p1, q1, r) && On(p2, q2, r);
    var s :| Unit(s) && Along(p1, q1, s) == r;
    var t :| Unit(t) && Along(p2, q2, t) == r;
    if p1 == q1 {
      assert r == p1;
      OnIsInBox(p2, p1, q2);
    } else {
      var u := OnLine(p1, q1, p2);
      var v := OnLine(p1, q1, q2);
      AlongAlong(p1, q1, u, v, t);
      AlongInjective(p1, q1, s, (1.0 - t) * u + t * v);
      if Unit(u) {
        assert On(p1, q1, p2);
        OnIsInBox(p1, p2, q1);
      } else if Unit(v) {
        assert On(p1, q1, q2);
        OnIsInBox(p1, q2, q1);
      } else {
        Encloses(u, v, t);
        AstrideIsOn(p1, q1, if u < v then u else v, if u < v then v else u);
      }
    }
  }

  lemma MixtureZero(v: real, w: real, t: real)
    requires Unit(t) && (1.0 - t) * v + t * w == 0.0 && Sign(v) == Sign(w)
    ensures v == 0.0 && w == 0.0
  {
    if v < 0.0 { MixtureBelow(v, w, t, 0.0); }
    if v > 0.0 { MixtureBelow(-v, -w, t, 0.0); }
  }

  /** The decision on exact orientations. */
  predicate Decide(d1: real, d2: real, d3: real, d4: real, p1: Point, q1: Point, p2: Point, q2: Point) {
    || (Sign(d1) != Sign(d2) && Sign(d3) != Sign(d4))
    || (d1 == 0.0 && OnSegment(p1, p2, q1))
    || (d2 == 0.0 && OnSegment(p1, q2, q1))
    || (d3 == 0.0 && OnSegment(p2, p1, q2))
    || (d4 == 0.0 && OnSegment(p2, q1, q2))
  }

  lemma EndsAreOn(p: Point, q: Point)
    ensures On(p, q, p) && On(p, q, q)
  {
    assert Along(p, q, 0.0) == p && Along(p, q, 1.0) == q;
  }

  lemma TouchIsShare(p1: Point, q1: Point, p2: Point, q2: Point)
    requires || (Cross(p1, q1, p2) == 0.0 && OnSegment(p1, p2, q1))
             || (Cross(p1, q1, q2) == 0.0 && OnSegment(p1, q2, q1))
             || (Cross(p2, q2, p1) == 0.0 && OnSegment(p2, p1, q2))
             || (Cross(p2, q2, q1) == 0.0 && OnSegment(p2, q1, q2))
    ensures Share(p1, q1, p2, q2)
  {
    EndsAreOn(p1, q1);
    EndsAreOn(p2, q2);
    if Cross(p1, q1, p2) == 0.0 && OnSegment(p1, p2, q1) {
      InBoxIsOn(p1, p2, q1);
    } else if Cross(p1, q1, q2) == 0.0 && OnSegment(p1, q2, q1) {
      InBoxIsOn(p1, q2, q1);
    } else if Cross(p2, q2, p1) == 0.0 && OnSegment(p2, p1, q2) {
      InBoxIsOn(p2, p1, q2);
    } else {
      InBoxIsOn(p2, q1, q2);
    }
  }

  lemma SameSide(d1: real, d2: real, d3: real, d4: real, s: real, t: real)
    requires Unit(s) && Unit(t) && d1 - d2 == d4 - d3
    requires (1.0 - t) * d1 + t * d2 == 0.0 && (1.0 - s) * d3 + s * d4 == 0.0
    requires Sign(d1) == Sign(d2) || Sign(d3) == Sign(d4)
    ensures d1 == 0.0 && d2 == 0.0 && d3 == 0.0 && d4 == 0.0
  {
    if Sign(d1) == Sign(d2) {
      MixtureZero(d1, d2, t);
      assert (1.0 - s) * d3 + s * d4 == d3;
    } else {
      MixtureZero(d3, d4, s);
    }
  }

  /** Segments that meet without crossing lie on one line. */
  lemma ShareOnSameSide(p1: Point, q1: Point, p2: Point, q2: Point)
    requires Share(p1, q1, p2, q2)
    requires Sign(Cross(p1, q1, p2)) == Sign(Cross(p1, q1, q2)) || Sign(Cross(p2, q2, p1)) == Sign(Cross(p2, q2, q1))
    ensures Cross(p1, q1, p2) == 0.0 && Cross(p1, q1, q2) == 0.0
    ensures Cross(p2, q2, p1) == 0.0 && Cross(p2, q2, q1) == 0.0
  {
    var r: Point :| On(p1, q1, r) && On(p2, q2, r);
    var s :| Unit(s) && Along(p1, q1, s) == r;
    var t :| Unit(t) && Along(p2, q2, t) == r;
    CrossOnLine(p1, q1, s);
    CrossOnLine(p2, q2, t);
    CrossAlong(p1, q1, p2, q2, t);
    CrossAlong(p2, q2, p1, q1, s);
    CrossDifference(p1, q1, p2, q2);
    hide Cross, Along, Sign;
    SameSide(Cross(p1, q1, p2), Cross(p1, q1, q2), Cross(p2, q2, p1), Cross(p2, q2, q1), s, t);
  }

  lemma DecideIsShare(p1: Point, q1: Point, p2: Point, q2: Point)
    ensures Decide(Cross(p1, q1, p2), Cross(p1, q1, q2), Cross(p2, q2, p1), Cross(p2, q2, q1), p1, q1, p2, q2)
            <==> Share(p1, q1, p2, q2)
  {
    var d1, d2 := Cross(p1, q1, p2), Cross(p1, q1, q2);
    var d3, d4 := Cross(p2, q2, p1), Cross(p2, q2, q1);
    if Sign(d1) != Sign(d2) && Sign(d3) != Sign(d4) {
      LinesCross(p1, q1, p2, q2);
    } else if Decide(d1, d2, d3, d4, p1, q1, p2, q2) {
      TouchIsShare(p1, q1, p2, q2);
    } else if Share(p1, q1, p2, q2) {
      ShareOnSameSide(p1, q1, p2, q2);
      CollinearOverlap(p1, q1, p2, q2);
    }
  }

  // ---------- what the code decides ----------

  /** What the conversion to int leaves of a cross product, as far as its sign goes. */
  function Cut(v: real): real { if Kept(v) then v else 0.0 }

  lemma TurnIsCut(v: real)
    ensures Turn(Truncate(v)) == Sign(Cut(v))
  {
  }

  /** One of the four ends has a cross product cut to zero and lies in the other's bounding box. */
  predicate TakenForEnd(p1: Point, q1: Point, p2: Point, q2: Point) {
    || (!Kept(Cross(p1, q1, p2)) && OnSegment(p1, p2, q1))
    || (!Kept(Cross(p1, q1, q2)) && OnSegment(p1, q2, q1))
    || (!Kept(Cross(p2, q2, p1)) && OnSegment(p2, p1, q2))
    || (!Kept(Cross(p2, q2, q1)) && OnSegment(p2, q1, q2))
  }

  /** The exact orientations say no, but cutting tells two of them apart on either side, or
    * puts an end on the other line. */
  predicate WrongHit(p1: Point, q1: Point, p2: Point, q2: Point) {
    var d1, d2 := Cross(p1, q1, p2), Cross(p1, q1, q2);
    var d3, d4 := Cross(p2, q2, p1), Cross(p2, q2, q1);
    && !Decide(d1, d2, d3, d4, p1, q1, p2, q2)
    && ((Sign(Cut(d1)) != Sign(Cut(d2)) && Sign(Cut(d3)) != Sign(Cut(d4))) || TakenForEnd(p1, q1, p2, q2))
  }

  /** The segments cross, both orientations about one of them are cut to zero, and no end that
    * then counts as collinear lies in the other's bounding box. */
  predicate Miss(p1: Point, q1: Point, p2: Point, q2: Point) {
    var d1, d2 := Cross(p1, q1, p2), Cross(p1, q1, q2);
    var d3, d4 := Cross(p2, q2, p1), Cross(p2, q2, q1);
    && Sign(d1) != Sign(d2) && Sign(d3) != Sign(d4)
    && ((Cut(d1) == 0.0 && Cut(d2) == 0.0) || (Cut(d3) == 0.0 && Cut(d4) == 0.0))
    && !(Cut(d1) == 0.0 && OnSegment(p1, p2, q1)) && !(Cut(d2) == 0.0 && OnSegment(p1, q2, q1))
    && !(Cut(d3) == 0.0 && OnSegment(p2, p1, q2)) && !(Cut(d4) == 0.0 && OnSegment(p2, q1, q2))
  }

  lemma DoIntersectIsCut(p1: Point, q1: Point, p2: Point, q2: Point)
    ensures DoIntersect(p1, q1, p2, q2) <==>
      Decide(Cut(Cross(p1, q1, p2)), Cut(Cross(p1, q1, q2)), Cut(Cross(p2, q2, p1)), Cut(Cross(p2, q2, q1)),
        p1, q1, p2, q2)
  {
    TurnIsCut(Cross(p1, q1, p2));
    TurnIsCut(Cross(p1, q1, q2));
    TurnIsCut(Cross(p2, q2, p1));
    TurnIsCut(Cross(p2, q2, q1));
    hide Cross, Turn, Truncate, Cut, OnSegment;
  }

  /** Exactly when the answer is wrong, either way, from the four cross products and bounding
    * boxes. */
  lemma ExactlyWhenWrong(p1: Point, q1: Point, p2: Point, q2: Point)
    ensures DoIntersect(p1, q1, p2, q2) && !Share(p1, q1, p2, q2) <==> WrongHit(p1, q1, p2, q2)
    ensures !DoIntersect(p1, q1, p2, q2) && Share(p1, q1, p2, q2) <==> Miss(p1, q1, p2, q2)
  {
    DoIntersectIsCut(p1, q1, p2, q2);
    DecideIsShare(p1, q1, p2, q2);
    hide Cross, OnSegment, Share, DoIntersect;
  }

  /** In particular the answer is right whenever no orientation loses its sign. */
  lemma DoIntersectIsShare(p1: Point, q1: Point, p2: Point, q2: Point)
    requires Kept(Cross(p1, q1, p2)) && Kept(Cross(p1, q1, q2))
    requires Kept(Cross(p2, q2, p1)) && Kept(Cross(p2, q2, q1))
    ensures DoIntersect(p1, q1, p2, q2) <==> Share(p1, q1, p2, q2)
  {
    ExactlyWhenWrong(p1, q1, p2, q2);
    hide Cross, OnSegment, Share, DoIntersect;
  }

  predicate Whole(p: Point) { p.x == p.x.Floor as real && p.y == p.y.Floor as real }

  lemma WholeProduct(a: int, b: int)
    ensures a as real * b as real == (a * b) as real
  {
  }

  lemma WholeCross(p: Point, q: Point, r: Point)
    requires Whole(p) && Whole(q) && Whole(r)
    ensures Kept(Cross(p, q, r))
  {
    var a, b := q.y.Floor - p.y.Floor, r.x.Floor - q.x.Floor;
    var c, d := q.x.Floor - p.x.Floor, r.y.Floor - q.y.Floor;
    WholeProduct(a, b);
    WholeProduct(c, d);
    assert Cross(p, q, r) == (a * b - c * d) as real;
  }

  /** With integer coordinates the answer is always right: crossing, touching, collinear and
    * one-point segments. */
  lemma WholeCoordinates(p1: Point, q1: Point, p2: Point, q2: Point)
    requires Whole(p1) && Whole(q1) && Whole(p2) && Whole(q2)
    ensures DoIntersect(p1, q1, p2, q2) <==> Share(p1, q1, p2, q2)
  {
    WholeCross(p1, q1, p2);
    WholeCross(p1, q1, q2);
    WholeCross(p2, q2, p1);
    WholeCross(p2, q2, q1);
    DoIntersectIsShare(p1, q1, p2, q2);
  }

  // ---------- the only call ----------

  /** The far end of the ray that isInside casts from p. */
  function RayEnd(p: Point): Point { Point(10000.0, p.y) }

  predicate IsProduct(gap: real, dy: real, dx: real) { gap == dy * dx }

  lemma RayDifference(a: Point, b: Point, p: Point)
    ensures IsProduct(Cross(a, b, RayEnd(p)) - Cross(a, b, p), b.y - a.y, 10000.0 - p.x)
    ensures Cross(p, RayEnd(p), a) - Cross(p, RayEnd(p), b) == Cross(a, b, RayEnd(p)) - Cross(a, b, p)
  {
  }

  lemma FarApart(gap: real, dy: real, dx: real)
    requires (dy == 0.0 || dy >= 1.0 || dy <= -1.0) && dx >= 2.0 && IsProduct(gap, dy, dx)
    ensures gap == 0.0 || gap >= 2.0 || gap <= -2.0
  {
    if dy >= 1.0 { Product(dy - 1.0, dx); } else if dy <= -1.0 { Product(-1.0 - dy, dx); }
  }

  lemma WholeGap(y: real, z: real)
    requires y == y.Floor as real && z == z.Floor as real
    ensures z - y == 0.0 || z - y >= 1.0 || z - y <= -1.0
  {
    assert z - y == (z.Floor - y.Floor) as real;
  }

  /** Vertices on different lines of the grid are far apart as seen from the ray. */
  lemma RayGap(a: Point, b: Point, p: Point) returns (gap: real)
    requires Whole(a) && Whole(b) && p.x <= 9998.0
    ensures gap == Cross(a, b, RayEnd(p)) - Cross(a, b, p) == Cross(p, RayEnd(p), a) - Cross(p, RayEnd(p), b)
    ensures gap == 0.0 || gap >= 2.0 || gap <= -2.0
  {
    WholeGap(a.y, b.y);
    gap := Cross(a, b, RayEnd(p)) - Cross(a, b, p);
    RayDifference(a, b, p);
    hide Cross, IsProduct;
    FarApart(gap, b.y - a.y, 10000.0 - p.x);
  }

  lemma CutTogether(d1: real, d2: real)
    requires Sign(d1) != Sign(d2) && Cut(d1) == 0.0 && Cut(d2) == 0.0
    ensures d1 != d2 && -2.0 < d1 - d2 < 2.0
  {
  }

  /** With polygon vertices at integer coordinates the ray misses no edge, wherever p is. */
  lemma WholeVerticesNeverMiss(a: Point, b: Point, p: Point)
    requires Whole(a) && Whole(b) && p.x <= 9998.0 && Share(a, b, p, Point(10000.0, p.y))
    ensures DoIntersect(a, b, p, Point(10000.0, p.y))
  {
    var gap := RayGap(a, b, p);
    hide Cross, Share, DoIntersect, OnSegment, Cut, Sign, Whole;
    ExactlyWhenWrong(a, b, p, RayEnd(p));
    if Miss(a, b, p, RayEnd(p)) {
      if Cut(Cross(a, b, p)) == 0.0 && Cut(Cross(a, b, RayEnd(p))) == 0.0 {
        CutTogether(Cross(a, b, p), Cross(a, b, RayEnd(p)));
      } else {
        CutTogether(Cross(p, RayEnd(p), a), Cross(p, RayEnd(p), b));
      }
    }
  }

  /** It can hit an edge that is on the other side of p, and with vertices off the grid it can
    * miss one that it crosses. */
  lemma TruncationMisleads()
    ensures var a, b, p := Point(0.0, 0.0), Point(1.0, 1.0), Point(0.7, 0.3);
      Whole(a) && Whole(b) && DoIntersect(a, b, p, Point(10000.0, 0.3)) && !Share(a, b, p, Point(10000.0, 0.3))
    ensures var a, b, p := Point(1.0, -0.00005), Point(1.0, 0.00005), Point(0.0, 0.0);
      !DoIntersect(a, b, p, Point(10000.0, 0.0)) && Share(a, b, p, Point(10000.0, 0.0))
  {
    var p := Point(0.7, 0.3);
    ExactlyWhenWrong(Point(0.0, 0.0), Point(1.0, 1.0), p, RayEnd(p));
    var q := Point(0.0, 0.0);
    ExactlyWhenWrong(Point(1.0, -0.00005), Point(1.0, 0.00005), q, RayEnd(q));
    hide Share, DoIntersect;
  }
}
