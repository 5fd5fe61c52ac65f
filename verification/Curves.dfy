// Space-filling curves (coverage/sfctool/sfctool.cc): where the n-th point lies, and why no two points
// fall on one pixel.

module Powers {

  ghost function Pow2(k: nat): (r: nat)
    ensures r > 0
  {
    if k == 0 then 1 else 2 * Pow2(k - 1)
  }

  ghost function Pow4(k: nat): (r: nat)
    ensures r > 0
  {
    if k == 0 then 1 else 4 * Pow4(k - 1)
  }

  lemma {:induction false} Square(k: nat)
    ensures Pow4(k) == Pow2(k) * Pow2(k)
  {
    if k > 0 {
      Square(k - 1);
    }
  }

  // The digit and the rest of t at place p.
  lemma {:induction false} Split(t: nat, d: nat, r: nat, p: nat)
    requires t == d * p + r && r < p
    ensures t / p == d && t % p == r
  {
    if t / p < d {
      Steps(t / p + 1, d, p);
    } else if t / p > d {
      Steps(d + 1, t / p, p);
    }
  }

  lemma {:induction false} Steps(a: nat, b: nat, p: nat)
    requires a <= b
    ensures a * p <= b * p
  {
  }

  lemma {:induction false} Join(t: nat, p: nat)
    requires p > 0
    ensures t == (t / p) * p + t % p
  {
  }

  lemma {:induction false} Below4(t: nat, p: nat)
    requires p > 0 && t < 4 * p
    ensures t / p < 4
  {
    Join(t, p);
    if t / p >= 4 {
      Steps(4, t / p, p);
    }
  }

  lemma {:induction false} SmallDigit(d: nat)
    requires d < 4
    ensures d % 4 == d
  {
  }

  lemma {:induction false} LeadingDigit(t: nat, p: nat)
    requires p > 0 && t < 4 * p
    ensures t == (t / p % 4) * p + t % p
  {
    Below4(t, p);
    Join(t, p);
    SmallDigit(t / p);
  }

  // Cutting t off one place higher.
  lemma {:induction false} NextPlace(t: nat, p: nat)
    requires p > 0
    ensures var u := t % (4 * p); u / p == t / p % 4 && u % p == t % p && t / p / 4 == t / (4 * p)
  {
    var q, r := t / p, t % p;
    Join(t, p);
    var a, d := q / 4, q % 4;
    assert q == 4 * a + d;
    assert t == a * (4 * p) + (d * p + r);
    Steps(d, 3, p);
    Split(t, a, d * p + r, 4 * p);
    Split(d * p + r, d, r, p);
  }
}

module HilbertCurve {
  import opened Powers

  datatype Point = Point(x: int, y: int)

  // The point p of a curve over a square of side n, as part of quadrant d of the curve over side 2n.
  ghost function Placed(n: int, p: Point, d: int): Point {
    if d == 0 then Point(p.y, p.x)
    else if d == 1 then Point(p.x, p.y + n)
    else if d == 2 then Point(p.x + n, p.y + n)
    else Point(n + n - 1 - p.y, n - 1 - p.x)
  }

  ghost function Quadrant(n: int, q: Point): nat {
    if q.x < n then if q.y < n then 0 else 1 else if q.y < n then 3 else 2
  }

  ghost function Unplaced(n: int, q: Point): Point {
    var d := Quadrant(n, q);
    if d == 0 then Point(q.y, q.x)
    else if d == 1 then Point(q.x, q.y - n)
    else if d == 2 then Point(q.x - n, q.y - n)
    else Point(n - 1 - q.y, n + n - 1 - q.x)
  }

  ghost predicate InSquare(p: Point, n: int) {
    0 <= p.x < n && 0 <= p.y < n
  }

  lemma {:induction false} PlacedBack(n: nat, p: Point, d: nat)
    requires InSquare(p, n) && d < 4
    ensures var q := Placed(n, p, d); InSquare(q, n + n) && Quadrant(n, q) == d && Unplaced(n, q) == p
  {
  }

  lemma {:induction false} UnplacedBack(n: nat, q: Point)
    requires InSquare(q, n + n)
    ensures var p := Unplaced(n, q); InSquare(p, n) && Quadrant(n, q) < 4 && Placed(n, p, Quadrant(n, q)) == q
  {
  }

  // The leading base-four digit of t, of k digits, and the others.
  ghost function Digit(k: nat, t: nat): (d: nat)
    requires k > 0
    ensures d < 4
  {
    t / Pow4(k - 1) % 4
  }

  ghost function Rest(k: nat, t: nat): (r: nat)
    requires k > 0
    ensures r < Pow4(k - 1)
  {
    t % Pow4(k - 1)
  }

  lemma {:induction false} Digits(k: nat, t: nat)
    requires k > 0 && t < Pow4(k)
    ensures t == Digit(k, t) * Pow4(k - 1) + Rest(k, t)
  {
    LeadingDigit(t, Pow4(k - 1));
  }

  lemma {:induction false} FromDigits(k: nat, d: nat, r: nat)
    requires k > 0 && d < 4 && r < Pow4(k - 1)
    ensures var t := d * Pow4(k - 1) + r; t < Pow4(k) && Digit(k, t) == d && Rest(k, t) == r
  {
    Split(d * Pow4(k - 1) + r, d, r, Pow4(k - 1));
    Steps(d, 3, Pow4(k - 1));
  }

  // The point number t of the curve over a square of side 2^k.
  ghost function At(k: nat, t: nat): Point {
    if k == 0 then Point(0, 0) else Placed(Pow2(k - 1), At(k - 1, Rest(k, t)), Digit(k, t))
  }

  // The number of a point: the way back.
  ghost function Number(k: nat, q: Point): nat {
    if k == 0 then 0 else Quadrant(Pow2(k - 1), q) * Pow4(k - 1) + Number(k - 1, Unplaced(Pow2(k - 1), q))
  }

  lemma {:induction false} StaysInside(k: nat, t: nat)
    ensures InSquare(At(k, t), Pow2(k))
  {
    hide Digit, Rest, Placed;
    if k > 0 {
      StaysInside(k - 1, Rest(k, t));
      PlacedBack(Pow2(k - 1), At(k - 1, Rest(k, t)), Digit(k, t));
    }
  }

  lemma {:induction false} NumberBelow(k: nat, q: Point)
    ensures Number(k, q) < Pow4(k)
  {
    hide Unplaced;
    if k > 0 {
      NumberBelow(k - 1, Unplaced(Pow2(k - 1), q));
      FromDigits(k, Quadrant(Pow2(k - 1), q), Number(k - 1, Unplaced(Pow2(k - 1), q)));
    }
  }

  lemma {:induction false} NumberOfPoint(k: nat, t: nat)
    requires t < Pow4(k)
    ensures Number(k, At(k, t)) == t
  {
    hide Digit, Rest, Placed, Unplaced, Quadrant;
    if k > 0 {
      Digits(k, t);
      NumberOfPoint(k - 1, Rest(k, t));
      StaysInside(k - 1, Rest(k, t));
      PlacedBack(Pow2(k - 1), At(k - 1, Rest(k, t)), Digit(k, t));
    }
  }

  lemma {:induction false} PointOfNumber(k: nat, q: Point)
    requires InSquare(q, Pow2(k))
    ensures At(k, Number(k, q)) == q
  {
    hide Digit, Rest, Placed, Unplaced, Quadrant;
    if k > 0 {
      var n := Pow2(k - 1);
      var p := Unplaced(n, q);
      UnplacedBack(n, q);
      NumberBelow(k - 1, p);
      FromDigits(k, Quadrant(n, q), Number(k - 1, p));
      PointOfNumber(k - 1, p);
    }
  }

  lemma {:induction false} Ends(k: nat)
    ensures At(k, 0) == Point(0, 0) && At(k, Pow4(k) - 1) == Point(Pow2(k) - 1, 0)
  {
    hide Digit, Rest;
    if k > 0 {
      Ends(k - 1);
      FromDigits(k, 0, 0);
      FromDigits(k, 3, Pow4(k - 1) - 1);
    }
  }

  ghost predicate Neighbours(p: Point, q: Point) {
    (p.x == q.x && (p.y == q.y + 1 || q.y == p.y + 1)) || (p.y == q.y && (p.x == q.x + 1 || q.x == p.x + 1))
  }

  lemma {:induction false} PlacedNeighbours(n: nat, p: Point, q: Point, d: nat)
    requires Neighbours(p, q)
    ensures Neighbours(Placed(n, p, d), Placed(n, q, d))
  {
  }

  lemma {:induction false} QuadrantsMeet(n: nat, d: nat)
    requires d < 3
    ensures Neighbours(Placed(n, Point(n - 1, 0), d), Placed(n, Point(0, 0), d + 1))
  {
  }

  // Consecutive points are one step apart in one coordinate.
  lemma {:induction false} Continuous(k: nat, t: nat)
    requires t + 1 < Pow4(k)
    ensures Neighbours(At(k, t), At(k, t + 1))
  {
    hide Digit, Rest, Placed, Neighbours;
    if k > 0 {
      var n, d, r := Pow2(k - 1), Digit(k, t), Rest(k, t);
      Digits(k, t);
      if r + 1 < Pow4(k - 1) {
        FromDigits(k, d, r + 1);
        Continuous(k - 1, r);
        PlacedNeighbours(n, At(k - 1, r), At(k - 1, r + 1), d);
      } else {
        FromDigits(k, d, r);
        assert t + 1 == (d + 1) * Pow4(k - 1);
        assert d < 3 by {
          Steps(if d < 3 then 0 else 4, if d < 3 then 0 else d + 1, Pow4(k - 1));
        }
        FromDigits(k, d + 1, 0);
        Ends(k - 1);
        QuadrantsMeet(n, d);
      }
    }
  }
}

module SpiralCurve {
  import opened HilbertCurve

  // A leg of the spiral, its length, and how far along it the walk is.
  datatype Leg = Leg(state: nat, nsteps: nat, step: nat)

  ghost predicate Legal(l: Leg) {
    l.state < 4 && l.step < l.nsteps && l.nsteps % 2 == (if l.state < 2 then 1 else 0)
  }

  // next(), as far as it moves along and turns.
  function Advance(l: Leg): Leg {
    if l.step + 1 < l.nsteps then l.(step := l.step + 1)
    else if l.state == 1 then Leg(2, l.nsteps + 1, 0)
    else if l.state == 3 then Leg(0, l.nsteps + 1, 0)
    else Leg(l.state + 1, l.nsteps, 0)
  }

  ghost function LegAt(i: nat): Leg {
    if i == 0 then Leg(0, 1, 0) else Advance(LegAt(i - 1))
  }

  // Where a leg is, relative to the centre.
  function Spot(l: Leg): Point {
    var m := l.nsteps / 2;
    match l.state
    case 0 => Point(m, m - l.step)
    case 1 => Point(m - l.step, -m - 1)
    case 2 => Point(-m, l.step - m)
    case _ => Point(l.step - m, m)
  }

  function Step(p: Point, state: nat): Point {
    match state
    case 0 => Point(p.x, p.y - 1)
    case 1 => Point(p.x - 1, p.y)
    case 2 => Point(p.x, p.y + 1)
    case _ => Point(p.x + 1, p.y)
  }

  lemma {:induction false} SpotMoves(l: Leg)
    requires Legal(l)
    ensures Legal(Advance(l)) && Spot(Advance(l)) == Step(Spot(l), l.state)
  {
  }

  function Sq(n: nat): nat {
    n * n
  }

  lemma {:induction false} SqNext(n: nat)
    ensures Sq(n + 1) == Sq(n) + n + n + 1 && Sq(n) >= n
  {
  }

  lemma {:induction false} SqOrder(a: nat, b: nat)
    requires a <= b
    ensures Sq(a) <= Sq(b)
  {
  }

  // How many points came before.
  ghost function Index(l: Leg): int {
    if l.state % 2 == 0 then Sq(l.nsteps) - l.nsteps + l.step else Sq(l.nsteps) + l.step
  }

  lemma {:induction false} IndexMoves(l: Leg)
    requires Legal(l)
    ensures Index(Advance(l)) == Index(l) + 1
  {
    hide Sq;
    SqNext(l.nsteps);
  }

  lemma {:induction false} LegAtIndex(i: nat)
    ensures Legal(LegAt(i)) && Index(LegAt(i)) == i
  {
    if i > 0 {
      LegAtIndex(i - 1);
      SpotMoves(LegAt(i - 1));
      IndexMoves(LegAt(i - 1));
    }
  }

  // The leg a point is on.
  function LegOf(p: Point): Leg {
    if p.x >= 0 && -p.x <= p.y <= p.x then Leg(0, 2 * p.x + 1, p.x - p.y)
    else if p.y < 0 && p.y < p.x < -p.y then Leg(1, -2 * p.y - 1, -p.y - 1 - p.x)
    else if p.x < 0 && p.x <= p.y < -p.x then Leg(2, -2 * p.x, p.y - p.x)
    else Leg(3, if p.y > 0 then 2 * p.y else 2, if p.x + p.y >= 0 then p.x + p.y else 0)
  }

  lemma {:induction false} LegOfSpot(l: Leg)
    requires Legal(l)
    ensures LegOf(Spot(l)) == l
  {
  }

  lemma {:induction false} SpotOfLeg(p: Point)
    ensures Legal(LegOf(p)) && Spot(LegOf(p)) == p
  {
  }

  // The first dim * dim points are exactly the square of side dim around the centre, odd or even.
  lemma {:induction false} SquareByIndex(p: Point, dim: nat)
    requires dim > 0
    ensures 0 <= Index(LegOf(p))
    ensures InSquare(Point(p.x + dim / 2, p.y + dim / 2), dim) <==> Index(LegOf(p)) < Sq(dim)
  {
    hide Sq, LegOf, Spot;
    SpotOfLeg(p);
    SqNext(LegOf(p).nsteps);
    if InSquare(Point(p.x + dim / 2, p.y + dim / 2), dim) {
      InsideIsEarly(LegOf(p), dim);
    } else {
      OutsideIsLate(LegOf(p), dim);
    }
  }

  lemma {:induction false} InsideIsEarly(l: Leg, dim: nat)
    requires Legal(l) && InSquare(Point(Spot(l).x + dim / 2, Spot(l).y + dim / 2), dim)
    ensures Index(l) < Sq(dim)
  {
    hide Sq;
    var n := l.nsteps;
    SqNext(n);
    if l.state % 2 == 0 {
      SqOrder(n, dim);
    } else {
      SqOrder(n + 1, dim);
    }
  }

  lemma {:induction false} OutsideIsLate(l: Leg, dim: nat)
    requires Legal(l) && dim > 0 && !InSquare(Point(Spot(l).x + dim / 2, Spot(l).y + dim / 2), dim)
    ensures Index(l) >= Sq(dim)
  {
    hide Sq;
    var n := l.nsteps;
    SqNext(n - 1);
    if l.state % 2 == 0 {
      SqOrder(dim, n - 1);
    } else {
      SqOrder(dim, n);
    }
  }

  // The position number i relative to the centre.
  ghost function SpiralAt(i: nat): Point {
    Spot(LegAt(i))
  }

  lemma {:induction false} IndexTellsLeg(a: Leg, b: Leg)
    requires Legal(a) && Legal(b) && Index(a) == Index(b)
    ensures a == b
  {
    var m, n := a.nsteps, b.nsteps;
    if m < n {
      LaterLeg(a, b);
    } else if n < m {
      LaterLeg(b, a);
    }
  }

  lemma {:induction false} LaterLeg(a: Leg, b: Leg)
    requires Legal(a) && Legal(b) && a.nsteps < b.nsteps
    ensures Index(a) < Index(b)
  {
    hide Sq;
    SqNext(a.nsteps);
    SqNext(b.nsteps - 1);
    SqOrder(a.nsteps, b.nsteps - 1);
  }

  lemma {:induction false} SpiralFills(p: Point, i: nat)
    ensures SpiralAt(i) == p <==> i == Index(LegOf(p))
  {
    LegAtIndex(i);
    SpotOfLeg(p);
    if SpiralAt(i) == p {
      LegOfSpot(LegAt(i));
    }
    if i == Index(LegOf(p)) {
      IndexTellsLeg(LegAt(i), LegOf(p));
    }
  }

  // Odd or even, the first dim * dim points are the pixels of the square, each once.
  lemma {:induction false} SpiralIsSquare(dim: nat, i: nat, j: nat, p: Point)
    requires dim > 0
    ensures InSquare(p, dim) <==>
      exists k: nat :: k < Sq(dim) && SpiralAt(k) == Point(p.x - dim / 2, p.y - dim / 2)
    ensures SpiralAt(i) == SpiralAt(j) ==> i == j
  {
    hide SpiralAt, LegOf, Index, Sq;
    var q := Point(p.x - dim / 2, p.y - dim / 2);
    SquareByIndex(q, dim);
    var k := Index(LegOf(q));
    SpiralFills(q, k);
    forall m: nat | SpiralAt(m) == q
      ensures m == k
    {
      SpiralFills(q, m);
    }
    SpiralFills(SpiralAt(i), i);
    SpiralFills(SpiralAt(i), j);
  }
}
