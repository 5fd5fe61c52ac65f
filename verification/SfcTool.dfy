// The drawing tool (coverage/sfctool/sfctool.cc): three curves as objects with 32-bit state, and the
// image each string of the domain gets one pixel of.

module SfcTool {
  import opened Wrappers
  import opened Powers
  import opened HilbertCurve
  import opened SpiralCurve
  import opened Unsigned

  lemma {:induction false} Wraps(n: int)
    ensures U32(U32(n) + 1) == U32(n + 1) && U32(U32(n) - 1) == U32(n - 1)
  {
    hide U32;
    WrapsBy(n / WORD, n % WORD, 1);
    WrapsBy(n / WORD, n % WORD, -1);
    Remainder(n / WORD, n % WORD, n);
  }

  lemma {:induction false} WrapsBy(q: int, r: int, d: int)
    requires 0 <= r < WORD && -1 <= d <= 1
    ensures U32(r + d) == U32(q * WORD + r + d)
  {
    hide U32;
    var c := if r + d < 0 then -1 else if r + d < WORD then 0 else 1;
    Remainder(c, r + d - c * WORD, r + d);
    Remainder(q + c, r + d - c * WORD, q * WORD + r + d);
  }

  lemma {:induction false} Remainder(q: int, r: int, n: int)
    requires n == q * WORD + r && 0 <= r < WORD
    ensures U32(n) == r
  {
  }

  lemma {:induction false} SpiralMoves(i: nat)
    ensures var l := LegAt(i); l.state < 4 && l.step < l.nsteps && LegAt(i + 1) == Advance(l)
    ensures SpiralAt(i + 1) == Step(SpiralAt(i), LegAt(i).state)
  {
    LegAtIndex(i);
    SpotMoves(LegAt(i));
    hide Spot;
  }

  class Lines {
    const dim: nat
    var pos: nat

    constructor (dim: nat)
      ensures this.dim == dim && pos == 0
    {
      this.dim := dim;
      pos := 0;
    }

    method Reset()
      modifies this
      ensures pos == 0
    {
      pos := 0;
    }

    method GetCoords() returns (x: nat, y: nat)
      requires dim > 0
      ensures x < dim && y * dim + x == pos
    {
      x := pos % dim;
      y := pos / dim;
      Join(pos, dim);
    }

    method Next()
      modifies this
      ensures pos == U32(old(pos) + 1)
    {
      pos := U32(pos + 1);
    }
  }

  class Spiral {
    const dim: nat
    var x: nat
    var y: nat
    var state: nat
    var nsteps: nat
    var step: nat
    ghost var moves: nat

    // After that many moves from the centre.
    ghost predicate Valid()
      reads this
    {
      && Leg(state, nsteps, step) == LegAt(moves)
      && x == U32(SpiralAt(moves).x + dim / 2) && y == U32(SpiralAt(moves).y + dim / 2)
    }

    constructor (dim: nat)
      requires dim < WORD
      ensures Valid() && this.dim == dim && moves == 0
    {
      hide U32;
      Fits(dim / 2);
      this.dim := dim;
      state, nsteps, step, x, y, moves := 0, 1, 0, dim / 2, dim / 2, 0;
    }

    method Reset()
      requires dim < WORD
      modifies this
      ensures Valid() && moves == 0
    {
      hide U32;
      Fits(dim / 2);
      state := 0;
      nsteps := 1;
      step := 0;
      x := dim / 2;
      y := dim / 2;
      moves := 0;
    }

    method GetCoords() returns (x: nat, y: nat)
      requires Valid()
      ensures x == U32(SpiralAt(moves).x + dim / 2) && y == U32(SpiralAt(moves).y + dim / 2)
    {
      x := this.x;
      y := this.y;
    }

    method Next()
      requires Valid()
      modifies this
      ensures Valid() && moves == old(moves) + 1
    {
      hide U32, Spot, Legal, LegAt, SpiralAt;
      SpiralMoves(moves);
      Wraps(SpiralAt(moves).x + dim / 2);
      Wraps(SpiralAt(moves).y + dim / 2);
      match state {
        case 0 => y := U32(y - 1);
        case 1 => x := U32(x - 1);
        case 2 => y := U32(y + 1);
        case _ => x := U32(x + 1);
      }
      step := step + 1;
      if step == nsteps {
        state := state + 1;
        step := 0;
        if state == 2 {
          nsteps := nsteps + 1;
        } else if state == 4 {
          nsteps := nsteps + 1;
          state := 0;
        }
      }
      moves := moves + 1;
    }
  }

  // The number of doublings that make dim fit.
  ghost function Rounds(dim: nat, from: nat): (k: nat)
    ensures from <= k && Pow2(k) >= dim
    decreases dim - Pow2(from)
  {
    if Pow2(from) >= dim then from else Rounds(dim, from + 1)
  }

  // main: the side of the image a Hilbert curve is drawn on
  method RoundUp(imageDim: nat) returns (x: nat)
    requires imageDim <= WORD / 2
    ensures x == Pow2(Rounds(imageDim, 0)) && imageDim <= x && (imageDim > 1 ==> x < 2 * imageDim)
  {
    x := 1;
    ghost var k := 0;
    while x < imageDim
      invariant x == Pow2(k) && Rounds(imageDim, k) == Rounds(imageDim, 0) && (imageDim > 1 ==> x < 2 * imageDim)
      decreases imageDim - x
    {
      x := x * 2;
      k := k + 1;
    }
  }

  lemma {:induction false} NextDigit(i: nat, pos: nat)
    ensures var p := Pow4(i);
      At(i + 1, pos % Pow4(i + 1)) == Placed(Pow2(i), At(i, pos % p), pos / p % 4) && pos / p / 4 == pos / Pow4(i + 1)
  {
    hide Placed, Digit, Rest;
    var p := Pow4(i);
    NextPlace(pos, p);
    DigitsOf(i + 1, pos % Pow4(i + 1));
  }

  lemma {:induction false} DigitsOf(k: nat, u: nat)
    requires k > 0 && u < Pow4(k)
    ensures Digit(k, u) == u / Pow4(k - 1) && Rest(k, u) == u % Pow4(k - 1)
  {
    Below4(u, Pow4(k - 1));
    SmallDigit(u / Pow4(k - 1));
  }

  lemma {:induction false} Bits(t: nat)
    ensures t / 2 % 2 == t % 4 / 2 && t % 2 == t % 4 % 2
  {
    var q, r := t / 4, t % 4;
    if r == 0 {
      assert t == 2 * (2 * q) && t / 2 == 2 * q;
    } else if r == 1 {
      assert t == 2 * (2 * q) + 1 && t / 2 == 2 * q;
    } else if r == 2 {
      assert t == 2 * (2 * q + 1) && t / 2 == 2 * q + 1;
    } else {
      assert t == 2 * (2 * q + 1) + 1 && t / 2 == 2 * q + 1;
    }
  }

  // What the code does with two bits of the position is placing in a quadrant.
  lemma {:induction false} BitsPlace(n: nat, p: Point, t: nat)
    ensures var rx := t / 2 % 2;
      var ry := (t + rx) % 2;
      var q := if ry != 0 then p else if rx == 1 then Point(n - 1 - p.y, n - 1 - p.x) else Point(p.y, p.x);
      Placed(n, p, t % 4) == Point(q.x + n * rx, q.y + n * ry)
  {
    Bits(t);
    var d := t % 4;
    assert d == 0 || d == 1 || d == 2 || d == 3;
  }

  lemma {:induction false} AtStart(dim: nat, pos: nat)
    ensures Pow2(0) == Pow4(0) == 1 && pos / Pow4(0) == pos && At(0, pos % Pow4(0)) == Point(0, 0)
    ensures 1 >= dim ==> Rounds(dim, 0) == 0
  {
  }

  lemma {:induction false} GoOn(dim: nat, i: nat)
    requires Pow2(i) < dim
    ensures Rounds(dim, i + 1) == Rounds(dim, i) && Pow2(i + 1) == 2 * Pow2(i) && Pow4(i) > 0
  {
  }

  lemma {:induction false} Done(dim: nat, i: nat)
    requires Pow2(i) >= dim
    ensures Rounds(dim, i) == i
  {
  }

  class Hilbert {
    const dim: nat
    var pos: nat

    constructor (dim: nat)
      ensures this.dim == dim && pos == 0
    {
      this.dim := dim;
      pos := 0;
    }

    method Reset()
      modifies this
      ensures pos == 0
    {
      pos := 0;
    }

    // Every digit of pos places the square found so far as a quadrant of one twice as large; within 32
    // bits, and without a difference below zero.
    method GetCoords() returns (x: nat, y: nat)
      requires dim <= WORD / 2
      ensures var k := Rounds(dim, 0); Point(x, y) == At(k, pos % Pow4(k))
    {
      hide At, Placed, Pow2, Pow4, Rounds;
      AtStart(dim, pos);
      var s, t := 1, pos;
      x, y := 0, 0;
      ghost var i := 0;
      while s < dim
        invariant s == Pow2(i) < WORD && t == pos / Pow4(i) && Rounds(dim, i) == Rounds(dim, 0)
        invariant Point(x, y) == At(i, pos % Pow4(i))
        decreases dim - s
      {
        var rx := t / 2 % 2;
        var ry := (t + rx) % 2;
        GoOn(dim, i);
        StaysInside(i, pos % Pow4(i));
        BitsPlace(s, Point(x, y), t);
        NextDigit(i, pos);
        x, y := Rot(s, x, y, rx, ry);
        x := x + s * rx;
        y := y + s * ry;
        t := t / 4;
        s := s * 2;
        i := i + 1;
      }
      Done(dim, i);
    }

    method Rot(n: nat, x0: nat, y0: nat, rx: nat, ry: nat) returns (x: nat, y: nat)
      requires x0 < n && y0 < n
      ensures ry != 0 ==> x == x0 && y == y0
      ensures ry == 0 && rx != 1 ==> x == y0 && y == x0
      ensures ry == 0 && rx == 1 ==> x == n - 1 - y0 && y == n - 1 - x0
    {
      x, y := x0, y0;
      if ry == 0 {
        if rx == 1 {
          x := n - 1 - x;
          y := n - 1 - y;
        }
        var t := x;
        x := y;
        y := t;
      }
    }

    method Next()
      modifies this
      ensures pos == U32(old(pos) + 1)
    {
      pos := U32(pos + 1);
    }
  }

  // --curve-type
  datatype Kind = LinesKind | SpiralKind | HilbertKind

  // The side of the image, and the pixel of string number i.
  ghost function Side(kind: Kind, dim: nat): nat {
    if kind.HilbertKind? then Pow2(Rounds(dim, 0)) else dim
  }

  ghost function Pixel(kind: Kind, dim: nat, i: nat): Point
    requires kind.LinesKind? ==> dim > 0
  {
    match kind
    case LinesKind => Point(i % dim, i / dim)
    case SpiralKind => Point(SpiralAt(i).x + dim / 2, SpiralAt(i).y + dim / 2)
    case HilbertKind => At(Rounds(dim, 0), i)
  }

  lemma {:induction false} AreaFits(dim: nat)
    ensures Sq(dim) <= Pow4(Rounds(dim, 0))
  {
    SqOrder(dim, Pow2(Rounds(dim, 0)));
    Square(Rounds(dim, 0));
  }

  // The way back, to a number.
  ghost function Serial(kind: Kind, dim: nat, p: Point): int {
    match kind
    case LinesKind => p.y * dim + p.x
    case SpiralKind => Index(LegOf(Point(p.x - dim / 2, p.y - dim / 2)))
    case HilbertKind => Number(Rounds(dim, 0), p)
  }

  lemma {:induction false} RowsFit(i: nat, dim: nat)
    requires i < Sq(dim)
    ensures dim > 0 && i / dim < dim && i == (i / dim) * dim + i % dim
  {
    Join(i, dim);
    if i / dim >= dim {
      Steps(dim, i / dim, dim);
    }
  }

  // As long as there are no more strings than dim * dim, each has its own pixel, inside the image.
  lemma {:induction false} PixelsApart(kind: Kind, dim: nat, i: nat)
    requires i < Sq(dim)
    ensures dim > 0 && InSquare(Pixel(kind, dim, i), Side(kind, dim)) && Serial(kind, dim, Pixel(kind, dim, i)) == i
  {
    hide Sq, At, LegOf, Number, LegAt, Rounds, Index, Spot;
    RowsFit(i, dim);
    match kind
    case LinesKind =>
    case SpiralKind =>
      SpiralFills(SpiralAt(i), i);
      SquareByIndex(SpiralAt(i), dim);
    case HilbertKind =>
      AreaFits(dim);
      StaysInside(Rounds(dim, 0), i);
      NumberOfPoint(Rounds(dim, 0), i);
  }

  datatype Sfc = OfLines(lines: Lines) | OfSpiral(spiral: Spiral) | OfHilbert(hilbert: Hilbert)

  ghost function Object(c: Sfc): object {
    match c
    case OfLines(l) => l
    case OfSpiral(s) => s
    case OfHilbert(h) => h
  }

  // c is a curve of that kind, i points from its start.
  ghost predicate StandsAt(c: Sfc, kind: Kind, dim: nat, i: nat)
    reads Object(c)
  {
    match c
    case OfLines(l) => kind.LinesKind? && l.dim == dim && l.pos == U32(i)
    case OfSpiral(s) => kind.SpiralKind? && s.dim == dim && s.Valid() && s.moves == i
    case OfHilbert(h) => kind.HilbertKind? && h.dim == dim && h.pos == U32(i)
  }

  lemma {:induction false} NumbersFit(dim: nat, i: nat)
    requires dim <= 0x1_0000 && i < Sq(dim)
    ensures U32(i) == i
  {
    SqOrder(dim, 0x1_0000);
    hide Sq;
    assert Sq(0x1_0000) == WORD by {
      SqWord();
    }
    Fits(i);
  }

  lemma {:induction false} SqWord()
    ensures Sq(0x1_0000) == WORD
  {
  }

  lemma {:induction false} LinesPixel(dim: nat, i: nat, x: nat, y: nat)
    requires x < dim && y * dim + x == i
    ensures Pixel(LinesKind, dim, i) == Point(x, y)
  {
    Split(i, y, x, dim);
  }

  lemma {:induction false} SpiralPixel(dim: nat, i: nat)
    requires dim <= 0x1_0000 && i < Sq(dim)
    ensures Pixel(SpiralKind, dim, i) == Point(U32(SpiralAt(i).x + dim / 2), U32(SpiralAt(i).y + dim / 2))
  {
    hide Sq, SpiralAt, Serial;
    PixelsApart(SpiralKind, dim, i);
    Fits(SpiralAt(i).x + dim / 2);
    Fits(SpiralAt(i).y + dim / 2);
  }

  lemma {:induction false} HilbertPixel(dim: nat, i: nat)
    requires i < Sq(dim)
    ensures Pixel(HilbertKind, dim, i) == At(Rounds(dim, 0), i % Pow4(Rounds(dim, 0)))
  {
    hide Sq, At, Rounds, Pow4;
    AreaFits(dim);
    Split(i, 0, i, Pow4(Rounds(dim, 0)));
  }

  lemma {:induction false} SideNeeded(n: nat, dim: nat)
    requires 0 < n <= Sq(dim)
    ensures dim > 0
  {
  }

  method MakeSfc(kind: Kind, dim: nat) returns (c: Sfc)
    requires dim < WORD
    ensures StandsAt(c, kind, dim, 0) && fresh(Object(c))
  {
    hide U32, Spiral.Valid;
    Fits(0);
    match kind {
      case LinesKind =>
        var l := new Lines(dim);
        c := OfLines(l);
      case SpiralKind =>
        var s := new Spiral(dim);
        c := OfSpiral(s);
      case HilbertKind =>
        var h := new Hilbert(dim);
        c := OfHilbert(h);
    }
  }

  method GetCoords(c: Sfc, ghost kind: Kind, dim: nat, ghost i: nat) returns (x: nat, y: nat)
    requires StandsAt(c, kind, dim, i) && i < Sq(dim) && dim <= 0x1_0000
    ensures dim > 0 && Point(x, y) == Pixel(kind, dim, i)
  {
    hide U32, Sq, At, Rounds, SpiralAt, Pixel, Spiral.Valid;
    NumbersFit(dim, i);
    PixelsApart(kind, dim, i);
    match c {
      case OfLines(l) =>
        x, y := l.GetCoords();
        LinesPixel(dim, i, x, y);
      case OfSpiral(s) =>
        SpiralPixel(dim, i);
        x, y := s.GetCoords();
      case OfHilbert(h) =>
        HilbertPixel(dim, i);
        x, y := h.GetCoords();
    }
  }

  method Next(c: Sfc, ghost kind: Kind, ghost dim: nat, ghost i: nat)
    requires StandsAt(c, kind, dim, i)
    modifies Object(c)
    ensures StandsAt(c, kind, dim, i + 1)
  {
    hide U32, Spiral.Valid;
    Wraps(i);
    match c {
      case OfLines(l) => l.Next();
      case OfSpiral(s) => s.Next();
      case OfHilbert(h) => h.Next();
    }
  }

  datatype Rgb = Rgb(r: nat, g: nat, b: nat)

  // The colour of a string: by whether it is in the input, if the map in question knows it.
  function ColorOf(s: string, input: set<string>, off: map<string, Rgb>, on: map<string, Rgb>): Option<Rgb> {
    if s in input then if s in on then Some(on[s]) else None
    else if s in off then Some(off[s]) else None
  }

  // The image is filled with green and blue of the default colour exchanged: it has that colour exactly
  // when the two are equal.
  function Fill(d: Rgb): (f: Rgb)
    ensures f == d <==> d.g == d.b
    ensures f.r == d.r && f.g + f.b == d.g + d.b
  {
    Rgb(d.r, d.b, d.g)
  }

  lemma {:induction false} BlueComesOutGreen()
    ensures Fill(Rgb(0, 0, 255)) == Rgb(0, 255, 0)
  {
  }

  function Shade(s: string, input: set<string>, off: map<string, Rgb>, on: map<string, Rgb>, d: Rgb): Rgb {
    var c := ColorOf(s, input, off, on);
    if c.Some? then c.value else Fill(d)
  }

  // The map for the string's kind has the colour, or the pixel stays as filled.
  lemma {:induction false} ShadeIs(s: string, input: set<string>, off: map<string, Rgb>, on: map<string, Rgb>, d: Rgb)
    ensures var c := Shade(s, input, off, on, d);
      && (s in input && s in on ==> c == on[s]) && (s !in input && s in off ==> c == off[s])
      && ((s in input && s !in on) || (s !in input && s !in off) ==> c == Fill(d))
  {
  }

  ghost predicate Unused(kind: Kind, dim: nat, n: nat, x: int, y: int)
    requires n > 0 ==> dim > 0
  {
    forall i :: 0 <= i < n ==> Pixel(kind, dim, i) != Point(x, y)
  }

  // main, from the choice of the curve on: the pixel of each string has its shade, the others are as
  // filled.
  method Draw(kind: Kind, dim: nat, domain: seq<string>, input: set<string>, off: map<string, Rgb>,
      on: map<string, Rgb>, d: Rgb)
    returns (image: array2<Rgb>)
    requires |domain| <= Sq(dim) && dim <= 0x1_0000
    ensures fresh(image) && image.Length0 == image.Length1 == Side(kind, dim)
    ensures forall i :: 0 <= i < |domain| ==>
      var p := Pixel(kind, dim, i); InSquare(p, Side(kind, dim)) && image[p.y, p.x] == Shade(domain[i], input, off, on, d)
    ensures forall x, y :: 0 <= x < image.Length1 && 0 <= y < image.Length0 && Unused(kind, dim, |domain|, x, y) ==> image[y, x] == Fill(d)
  {
    hide Pixel, StandsAt, Sq, U32, Rounds, Serial, ColorOf;
    if |domain| > 0 {
      SideNeeded(|domain|, dim);
    }
    var sfc := MakeSfc(kind, dim);
    var side := dim;
    if kind.HilbertKind? {
      side := RoundUp(dim);
    }
    image := new Rgb[side, side]((y, x) => Fill(d));
    for i := 0 to |domain|
      invariant StandsAt(sfc, kind, dim, i) && fresh(image)
      invariant forall j :: 0 <= j < i ==>
        var p := Pixel(kind, dim, j); InSquare(p, side) && image[p.y, p.x] == Shade(domain[j], input, off, on, d)
      invariant forall x, y :: 0 <= x < side && 0 <= y < side && Unused(kind, dim, i, x, y) ==> image[y, x] == Fill(d)
    {
      PixelsApart(kind, dim, i);
      var x, y := GetCoords(sfc, kind, dim, i);
      Next(sfc, kind, dim, i);
      forall j | 0 <= j < i
        ensures Pixel(kind, dim, j) != Point(x, y)
      {
        PixelsApart(kind, dim, j);
      }
      var c := ColorOf(domain[i], input, off, on);
      if c.Some? {
        image[y, x] := c.value;
      }
    }
  }
}
