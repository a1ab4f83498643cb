/**
The pixel buffer of the drawn chart: one filter byte, then three bytes a pixel, for every scanline, written in place.
*/
module PngPixels {

  datatype Rgb = Rgb(r: bv8, g: bv8, b: bv8)

  function Row(width: nat): nat { width * 3 + 1 }

  function Offset(width: nat, x: nat, y: nat): nat { y * Row(width) + 1 + x * 3 }

  lemma RowsBefore(width: nat, y: nat, z: nat)
    requires y < z
    ensures y * Row(width) + Row(width) <= z * Row(width)
  {
    var row := Row(width);
    assert (y + 1) * row == y * row + row;
    MulGrows(y + 1, z, row);
  }

  lemma MulGrows(a: nat, b: nat, row: nat)
    requires a <= b
    ensures a * row <= b * row
  {}

  lemma PixelInBounds(width: nat, height: nat, x: nat, y: nat)
    requires x < width && y < height
    ensures Offset(width, x, y) + 3 <= Row(width) * height
    ensures y * Row(width) < Row(width) * height
  {
    RowsBefore(width, y, height);
    hide Row;
    assert Row(width) == width * 3 + 1;
  }

  lemma FilterInBounds(width: nat, height: nat, y: nat)
    requires y < height
    ensures y * Row(width) < Row(width) * height
  {
    RowsBefore(width, y, height);
  }

  /** Two pixels never share a byte, and no pixel covers a filter byte. */
  lemma Apart(width: nat, x: nat, y: nat, u: nat, v: nat)
    requires x < width && u < width
    ensures (x, y) != (u, v)
            ==> Offset(width, x, y) + 3 <= Offset(width, u, v) || Offset(width, u, v) + 3 <= Offset(width, x, y)
    ensures v * Row(width) < Offset(width, x, y) || Offset(width, x, y) + 3 <= v * Row(width)
  {
    if y < v {
      RowsBefore(width, y, v);
    } else if v < y {
      RowsBefore(width, v, y);
    }
    hide Row;
    assert Row(width) == width * 3 + 1;
  }

  // ---- the picture, pixel by pixel ----

  /**
  The buffer is one scanline after the other: a filter byte, then three bytes for every pixel from left to right.
  */
  lemma ScanlineOrder(width: nat, x: nat, y: nat)
    ensures Offset(width, 0, 0) == 1
    ensures Offset(width, 0, y) == y * Row(width) + 1
    ensures Offset(width, x + 1, y) == Offset(width, x, y) + 3
    ensures (y + 1) * Row(width) == Offset(width, width, y)
  {}

  const GRID := Rgb(228, 231, 236)
  const PAPER := Rgb(250, 250, 250)
  const WICK := Rgb(60, 60, 60)

  function Background(x: nat, y: nat): Rgb {
    if x % 64 == 0 || y % 60 == 0 then GRID else PAPER
  }

  /** The candle level: it falls for twelve candles, then rises. */
  function Level(height: nat, i: nat): real
    decreases i
  {
    if i == 0 then height as real / 2.0 else Level(height, i - 1) + if i - 1 < 12 then -6.0 else 7.0
  }

  /** `Math.round`: halves go up. */
  function Rounded(v: real): int { (v + 0.5).Floor }

  function Top(height: nat, i: nat): int { Rounded(Level(height, i) - 25.0 + (i * 37 % 11) as real) }

  function Bottom(height: nat, i: nat): int { Rounded(Level(height, i) + 12.0) }

  function Left(i: nat): int { 20 + i * 30 }

  function Body(i: nat): Rgb { if i % 3 != 0 then Rgb(22, 150, 92) else Rgb(214, 56, 56) }

  predicate InBox(x: int, y: int, x0: int, x1: int, y0: int, y1: int) { x0 <= x < x1 && y0 <= y < y1 }

  /** The colour of a pixel once n candles are drawn: the body of a candle covers its wick. */
  function Picture(height: nat, n: nat, x: nat, y: nat): Rgb
    decreases n
  {
    if n == 0 then Background(x, y)
    else
      var i := n - 1;
      if InBox(x, y, Left(i), Left(i) + 12, Top(height, i), Bottom(height, i)) then Body(i)
      else if InBox(x, y, Left(i) + 6, Left(i) + 7, Top(height, i) - 8, Bottom(height, i) + 8) then WICK
      else Picture(height, i, x, y)
  }

  class Canvas {
    const width: nat
    const height: nat
    const px: array<bv8>

    ghost predicate Valid() {
      px.Length == Row(width) * height
    }

    function PixelAt(x: nat, y: nat): Rgb
      requires Valid() && x < width && y < height
      reads px
    {
      PixelInBounds(width, height, x, y);
      var at := Offset(width, x, y);
      Rgb(px[at], px[at + 1], px[at + 2])
    }

    function FilterAt(y: nat): bv8
      requires Valid() && y < height
      reads px
    {
      FilterInBounds(width, height, y);
      px[y * Row(width)]
    }

    ghost predicate FiltersZero()
      requires Valid()
      reads px
    {
      forall y | 0 <= y < height :: FilterAt(y) == 0
    }

    constructor (width: nat, height: nat)
      ensures this.width == width && this.height == height && fresh(px)
      ensures Valid() && FiltersZero()
    {
      this.width := width;
      this.height := height;
      px := new bv8[Row(width) * height](_ => 0);
    }

    /** A pixel outside the picture is not written; every other byte of the buffer keeps its value. */
    method Set(x: int, y: int, rgb: Rgb)
      requires Valid()
      modifies px
      ensures forall u, v | 0 <= u < width && 0 <= v < height ::
                PixelAt(u, v) == if u == x && v == y then rgb else old(PixelAt(u, v))
      ensures forall v | 0 <= v < height :: FilterAt(v) == old(FilterAt(v))
    {
      if x >= 0 && y >= 0 && x < width && y < height {
        PixelInBounds(width, height, x, y);
        var at := y * Row(width) + 1 + x * 3;
        px[at], px[at + 1], px[at + 2] := rgb.r, rgb.g, rgb.b;
        forall u, v | 0 <= u < width && 0 <= v < height
          ensures PixelAt(u, v) == if u == x && v == y then rgb else old(PixelAt(u, v))
        {
          hide Row;
          PixelInBounds(width, height, u, v);
          Apart(width, x, y, u, v);
        }
        forall v | 0 <= v < height
          ensures FilterAt(v) == old(FilterAt(v))
        {
          hide Row;
          FilterInBounds(width, height, v);
          Apart(width, x, y, x, v);
        }
      }
    }

    /** `for y ... for x ... set(x, y, rgb)`. */
    method Fill(x0: int, x1: int, y0: int, y1: int, rgb: Rgb)
      requires Valid()
      modifies px
      ensures forall u, v | 0 <= u < width && 0 <= v < height ::
                PixelAt(u, v) == if InBox(u, v, x0, x1, y0, y1) then rgb else old(PixelAt(u, v))
      ensures forall v | 0 <= v < height :: FilterAt(v) == old(FilterAt(v))
    {
      hide Offset;
      hide Row;
      var y := y0;
      while y < y1
        invariant y0 <= y && (y <= y1 || y == y0)
        invariant forall u, v | 0 <= u < width && 0 <= v < height ::
                    PixelAt(u, v) == if InBox(u, v, x0, x1, y0, y) then rgb else old(PixelAt(u, v))
        invariant forall v | 0 <= v < height :: FilterAt(v) == old(FilterAt(v))
      {
        var x := x0;
        while x < x1
          invariant x0 <= x && (x <= x1 || x == x0)
          invariant forall u, v | 0 <= u < width && 0 <= v < height ::
                      PixelAt(u, v) == if InBox(u, v, x0, x1, y0, y) || InBox(u, v, x0, x, y, y + 1) then rgb
                                       else old(PixelAt(u, v))
          invariant forall v | 0 <= v < height :: FilterAt(v) == old(FilterAt(v))
        {
          Set(x, y, rgb);
          x := x + 1;
        }
        y := y + 1;
      }
    }

    method DrawBackground()
      requires Valid()
      modifies px
      ensures forall u, v | 0 <= u < width && 0 <= v < height :: PixelAt(u, v) == Background(u, v)
      ensures forall v | 0 <= v < height :: FilterAt(v) == old(FilterAt(v))
    {
      hide Offset;
      hide Row;
      hide Background;
      for y := 0 to height
        invariant forall u, v | 0 <= u < width && 0 <= v < y :: PixelAt(u, v) == Background(u, v)
        invariant forall v | 0 <= v < height :: FilterAt(v) == old(FilterAt(v))
      {
        for x := 0 to width
          invariant forall u, v | 0 <= u < width && 0 <= v < y :: PixelAt(u, v) == Background(u, v)
          invariant forall u | 0 <= u < x :: PixelAt(u, y) == Background(u, y)
          invariant forall v | 0 <= v < height :: FilterAt(v) == old(FilterAt(v))
        {
          Set(x, y, Background(x, y));
        }
      }
    }

    /** The whole drawing: every pixel as the picture says, every filter byte still zero. */
    method Draw()
      requires Valid() && FiltersZero()
      modifies px
      ensures forall u, v | 0 <= u < width && 0 <= v < height :: PixelAt(u, v) == Picture(height, 20, u, v)
      ensures FiltersZero()
    {
      hide Offset;
      hide Row;
      hide Background;
      hide Rounded;
      hide Level;
      hide Body;
      DrawBackground();
      var level := height as real / 2.0;
      LevelStart(height);
      for i := 0 to 20
        invariant level == Level(height, i)
        invariant forall u, v | 0 <= u < width && 0 <= v < height :: PixelAt(u, v) == Picture(height, i, u, v)
        invariant FiltersZero()
      {
        var x0, top, bottom := 20 + i * 30, Rounded(level - 25.0 + (i * 37 % 11) as real), Rounded(level + 12.0);
        assert x0 == Left(i) && top == Top(height, i) && bottom == Bottom(height, i);
        hide Left;
        hide Top;
        hide Bottom;
        Fill(x0 + 6, x0 + 7, top - 8, bottom + 8, WICK);
        Fill(x0, x0 + 12, top, bottom, Body(i));
        level := level + if i < 12 then -6.0 else 7.0;
        LevelStep(height, i);
      }
    }
  }

  /** Six down for each of the first twelve candles, seven up for each one after. */
  lemma {:induction false} LevelIs(height: nat, i: nat)
    ensures Level(height, i)
            == height as real / 2.0 - (6 * if i <= 12 then i else 12) as real
              + (7 * if i <= 12 then 0 else i - 12) as real
    decreases i
  {
    if i > 0 {
      LevelIs(height, i - 1);
    }
  }

  // ---- the picture, said of real intervals ----

  /** The middle of a candle, in closed form. */
  function Middle(height: nat, i: nat): real {
    height as real / 2.0 + if i <= 12 then -6.0 * i as real else 7.0 * (i - 12) as real - 72.0
  }

  /** The pixel lies on the candle's body: twelve columns, its rows taken at their middles. */
  predicate OnBody(height: nat, i: nat, x: nat, y: nat) {
    && 30 * i + 20 <= x < 30 * i + 32
    && Middle(height, i) - 25.5 + (i * 37 % 11) as real < y as real <= Middle(height, i) + 11.5
  }

  /** The pixel lies on the wick: one column, eight rows longer at both ends. */
  predicate OnWick(height: nat, i: nat, x: nat, y: nat) {
    && x == 30 * i + 26
    && Middle(height, i) - 33.5 + (i * 37 % 11) as real < y as real <= Middle(height, i) + 19.5
  }

  lemma RoundedIs(v: real, k: int)
    ensures k >= Rounded(v) <==> k as real > v - 0.5
    ensures k < Rounded(v) <==> k as real <= v - 0.5
  {}

  lemma OnCandle(height: nat, i: nat, x: nat, y: nat)
    ensures OnBody(height, i, x, y) <==> InBox(x, y, Left(i), Left(i) + 12, Top(height, i), Bottom(height, i))
    ensures OnWick(height, i, x, y)
            <==> InBox(x, y, Left(i) + 6, Left(i) + 7, Top(height, i) - 8, Bottom(height, i) + 8)
  {
    LevelIs(height, i);
    assert Level(height, i) == Middle(height, i);
    var top, bottom := Middle(height, i) - 25.0 + (i * 37 % 11) as real, Middle(height, i) + 12.0;
    RoundedIs(top, y);
    RoundedIs(bottom, y);
    RoundedIs(top, y + 8);
    RoundedIs(bottom, y - 8);
    hide Rounded;
    hide Level;
    hide Middle;
  }

  /**
  Twenty candles side by side, every third one red and the others green, each with a grey wick behind it; elsewhere a
  grid of grey lines, 64 columns and 60 rows apart, on light paper.
  */
  lemma {:induction false} ChartIs(height: nat, n: nat, x: nat, y: nat)
    ensures forall i | 0 <= i < n && OnBody(height, i, x, y) ::
              Picture(height, n, x, y) == if i % 3 == 0 then Rgb(214, 56, 56) else Rgb(22, 150, 92)
    ensures forall i | 0 <= i < n && OnWick(height, i, x, y) && !OnBody(height, i, x, y) ::
              Picture(height, n, x, y) == Rgb(60, 60, 60)
    ensures (forall i | 0 <= i < n :: !OnBody(height, i, x, y) && !OnWick(height, i, x, y)) ==>
              Picture(height, n, x, y)
              == if (exists k: nat :: x == 64 * k) || (exists k: nat :: y == 60 * k) then Rgb(228, 231, 236)
                 else Rgb(250, 250, 250)
    decreases n
  {
    hide Top;
    hide Bottom;
    hide Middle;
    hide Background;
    GridIs(x, y);
    if n > 0 {
      ChartIs(height, n - 1, x, y);
      OnCandle(height, n - 1, x, y);
    }
  }

  lemma GridIs(x: nat, y: nat)
    ensures Background(x, y)
            == if (exists k: nat :: x == 64 * k) || (exists k: nat :: y == 60 * k) then Rgb(228, 231, 236)
               else Rgb(250, 250, 250)
  {
    if x % 64 == 0 {
      assert x == 64 * (x / 64);
    }
    if y % 60 == 0 {
      assert y == 60 * (y / 60);
    }
  }

  lemma LevelStart(height: nat)
    ensures Level(height, 0) == height as real / 2.0
  {}

  lemma LevelStep(height: nat, i: nat)
    ensures Level(height, i + 1) == Level(height, i) + if i < 12 then -6.0 else 7.0
  {}
}
