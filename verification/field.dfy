/** The rgba8 storage images the shaders read and write, and the clipped
    rectangular neighbourhood sums both shaders take over them.

    A pixel holds four channels (GLSL `vec4` x, y, z, w). Channel values are
    reals; the rgba8 quantisation on store is not modelled. An image is a
    width, a height and a map defined exactly on the cells inside it. */
module Field {

  datatype Pixel = Pixel(x: real, y: real, z: real, w: real)

  /** The colour an agent deposits: `vec4(1.0)`. */
  const Ink := Pixel(1.0, 1.0, 1.0, 1.0)

  datatype Cell = Cell(x: int, y: int)

  function Channel(p: Pixel, ch: nat): real
    requires ch < 4
  {
    match ch
    case 0 => p.x
    case 1 => p.y
    case 2 => p.z
    case _ => p.w
  }

  datatype Image = Image(width: nat, height: nat, px: map<Cell, Pixel>) {

    predicate Contains(c: Cell) {
      0 <= c.x < width && 0 <= c.y < height
    }

    ghost predicate Valid() {
      forall c :: c in px <==> Contains(c)
    }

    predicate SameSize(other: Image) {
      width == other.width && height == other.height
    }
  }

  /** Every value of channel `ch` lies in [lo, hi]. */
  ghost predicate ChannelWithin(img: Image, ch: nat, lo: real, hi: real)
    requires ch < 4
  {
    forall c :: c in img.px ==> lo <= Channel(img.px[c], ch) <= hi
  }

  /** Every channel of every pixel lies in [lo, hi]. */
  ghost predicate AllWithin(img: Image, lo: real, hi: real) {
    forall ch :: 0 <= ch < 4 ==> ChannelWithin(img, ch, lo, hi)
  }

  /** Every value of channel `ch` equals v. */
  ghost predicate ChannelUniform(img: Image, ch: nat, v: real)
    requires ch < 4
  {
    forall c :: c in img.px ==> Channel(img.px[c], ch) == v
  }

  /** Channel `ch` of the cell (x, y), or 0 when the cell is outside the
      image: the bounds test both shaders make before `imageLoad`. */
  function Sample(img: Image, ch: nat, x: int, y: int): real
    requires img.Valid() && ch < 4
  {
    if img.Contains(Cell(x, y)) then Channel(img.px[Cell(x, y)], ch) else 0.0
  }

  /** Sum of Sample over the cells (x, y0), ..., (x, y0 + n - 1). */
  function ColumnSum(img: Image, ch: nat, x: int, y0: int, n: nat): real
    requires img.Valid() && ch < 4
  {
    if n == 0 then 0.0 else ColumnSum(img, ch, x, y0, n - 1) + Sample(img, ch, x, y0 + n - 1)
  }

  /** Sum of Sample over the nx-by-ny rectangle whose lowest corner is
      (x0, y0); cells outside the image contribute nothing. */
  function WindowSum(img: Image, ch: nat, x0: int, y0: int, nx: nat, ny: nat): real
    requires img.Valid() && ch < 4
  {
    if nx == 0 then 0.0 else WindowSum(img, ch, x0, y0, nx - 1, ny) + ColumnSum(img, ch, x0 + nx - 1, y0, ny)
  }

  /** How many of lo, ..., lo + n - 1 lie in [0, size). */
  function CountInside(lo: int, n: nat, size: nat): nat {
    if n == 0 then 0 else CountInside(lo, n - 1, size) + (if 0 <= lo + n - 1 < size then 1 else 0)
  }

  lemma {:induction false} CountInsideAll(lo: int, n: nat, size: nat)
    requires 0 <= lo && lo + n <= size
    ensures CountInside(lo, n, size) == n
  {
    if n > 0 {
      CountInsideAll(lo, n - 1, size);
    }
  }

  lemma {:induction false} CountInsideAtMost(lo: int, n: nat, size: nat)
    ensures CountInside(lo, n, size) <= n
  {
    if n > 0 {
      CountInsideAtMost(lo, n - 1, size);
    }
  }

  /** A range that reaches outside [0, size) counts fewer than n. */
  lemma {:induction false} CountInsideMissing(lo: int, n: nat, size: nat)
    requires lo < 0 || lo + n > size
    requires n > 0
    ensures CountInside(lo, n, size) < n
  {
    if lo + n - 1 < 0 || lo + n - 1 >= size {
      CountInsideAtMost(lo, n - 1, size);
    } else {
      assert lo < 0;
      if n > 1 {
        CountInsideMissing(lo, n - 1, size);
      } else {
        assert false;
      }
    }
  }

  /** How many cells of the nx-by-ny window at (x0, y0) lie inside a
      width-by-height image, as a real so that it scales channel values
      directly. */
  function CellsIn(x0: int, y0: int, nx: nat, ny: nat, width: nat, height: nat): real {
    CountInside(x0, nx, width) as real * CountInside(y0, ny, height) as real
  }

  lemma {:induction false} ColumnOutside(img: Image, ch: nat, x: int, y0: int, n: nat)
    requires img.Valid() && ch < 4
    requires !(0 <= x < img.width)
    ensures ColumnSum(img, ch, x, y0, n) == 0.0
  {
    if n > 0 {
      ColumnOutside(img, ch, x, y0, n - 1);
    }
  }

  /** c counted once for every one of lo, ..., lo + n - 1 that lies in
      [0, size): what a run of cells of constant value c sums to. */
  function Repeat(c: real, lo: int, n: nat, size: nat): real {
    if n == 0 then 0.0 else Repeat(c, lo, n - 1, size) + (if 0 <= lo + n - 1 < size then c else 0.0)
  }

  /** What a window of constant v sums to: what a column of constant v
      sums to, once for every column inside the image. */
  function WindowCap(v: real, x0: int, y0: int, nx: nat, ny: nat, width: nat, height: nat): real {
    Repeat(Repeat(v, y0, ny, height), x0, nx, width)
  }

  lemma {:induction false} RepeatIsProduct(c: real, lo: int, n: nat, size: nat)
    ensures Repeat(c, lo, n, size) == c * CountInside(lo, n, size) as real
  {
    if n > 0 {
      RepeatIsProduct(c, lo, n - 1, size);
    }
  }

  /** The cap of a window is v times its in-image cell count. */
  lemma WindowCapIsCells(v: real, x0: int, y0: int, nx: nat, ny: nat, width: nat, height: nat)
    ensures WindowCap(v, x0, y0, nx, ny, width, height) == v * CellsIn(x0, y0, nx, ny, width, height)
  {
    RepeatIsProduct(v, y0, ny, height);
    RepeatIsProduct(Repeat(v, y0, ny, height), x0, nx, width);
    Regroup(WindowCap(v, x0, y0, nx, ny, width, height), Repeat(v, y0, ny, height), v,
            CountInside(x0, nx, width) as real, CountInside(y0, ny, height) as real,
            CellsIn(x0, y0, nx, ny, width, height));
  }

  lemma Regroup(w: real, c: real, v: real, a: real, b: real, cells: real)
    requires w == c * a && c == v * b && cells == a * b
    ensures w == v * cells
  {
  }

  lemma {:induction false} ColumnBelowCap(img: Image, ch: nat, x: int, y0: int, n: nat, m: real)
    requires img.Valid() && ch < 4
    requires ChannelWithin(img, ch, 0.0, m)
    requires 0 <= x < img.width
    ensures 0.0 <= ColumnSum(img, ch, x, y0, n) <= Repeat(m, y0, n, img.height)
  {
    if n > 0 {
      ColumnBelowCap(img, ch, x, y0, n - 1, m);
    }
  }

  lemma {:induction false} WindowBelowCap(img: Image, ch: nat, x0: int, y0: int, nx: nat, ny: nat, m: real)
    requires img.Valid() && ch < 4
    requires ChannelWithin(img, ch, 0.0, m)
    ensures 0.0 <= WindowSum(img, ch, x0, y0, nx, ny) <= WindowCap(m, x0, y0, nx, ny, img.width, img.height)
  {
    if nx > 0 {
      WindowBelowCap(img, ch, x0, y0, nx - 1, ny, m);
      if 0 <= x0 + nx - 1 < img.width {
        ColumnBelowCap(img, ch, x0 + nx - 1, y0, ny, m);
      } else {
        ColumnOutside(img, ch, x0 + nx - 1, y0, ny);
      }
    }
  }

  /** A window over values in [0, m] sums to between 0 and m times the
      number of its cells inside the image. */
  lemma WindowBounds(img: Image, ch: nat, x0: int, y0: int, nx: nat, ny: nat, m: real)
    requires img.Valid() && ch < 4
    requires ChannelWithin(img, ch, 0.0, m)
    ensures 0.0 <= WindowSum(img, ch, x0, y0, nx, ny) <= m * CellsIn(x0, y0, nx, ny, img.width, img.height)
  {
    WindowBelowCap(img, ch, x0, y0, nx, ny, m);
    WindowCapIsCells(m, x0, y0, nx, ny, img.width, img.height);
  }

  lemma {:induction false} ColumnUniform(img: Image, ch: nat, x: int, y0: int, n: nat, v: real)
    requires img.Valid() && ch < 4
    requires ChannelUniform(img, ch, v)
    requires 0 <= x < img.width
    ensures ColumnSum(img, ch, x, y0, n) == Repeat(v, y0, n, img.height)
  {
    if n > 0 {
      ColumnUniform(img, ch, x, y0, n - 1, v);
    }
  }

  lemma {:induction false} WindowUniformCap(img: Image, ch: nat, x0: int, y0: int, nx: nat, ny: nat, v: real)
    requires img.Valid() && ch < 4
    requires ChannelUniform(img, ch, v)
    ensures WindowSum(img, ch, x0, y0, nx, ny) == WindowCap(v, x0, y0, nx, ny, img.width, img.height)
  {
    if nx > 0 {
      WindowUniformCap(img, ch, x0, y0, nx - 1, ny, v);
      if 0 <= x0 + nx - 1 < img.width {
        ColumnUniform(img, ch, x0 + nx - 1, y0, ny, v);
      } else {
        ColumnOutside(img, ch, x0 + nx - 1, y0, ny);
      }
    }
  }

  /** On a field of constant value v a window sums to v times the number of
      its cells inside the image. */
  lemma WindowUniform(img: Image, ch: nat, x0: int, y0: int, nx: nat, ny: nat, v: real)
    requires img.Valid() && ch < 4
    requires ChannelUniform(img, ch, v)
    ensures WindowSum(img, ch, x0, y0, nx, ny) == v * CellsIn(x0, y0, nx, ny, img.width, img.height)
  {
    var cap := WindowCap(v, x0, y0, nx, ny, img.width, img.height);
    assert WindowSum(img, ch, x0, y0, nx, ny) == cap by {
      WindowUniformCap(img, ch, x0, y0, nx, ny, v);
    }
    assert cap == v * CellsIn(x0, y0, nx, ny, img.width, img.height) by {
      WindowCapIsCells(v, x0, y0, nx, ny, img.width, img.height);
    }
  }

  /** Two images of one size that agree on channel `ch` at every cell of
      the window inside them give the same window sum: cells outside the
      window, outside the image, and the other channels are never read. */
  lemma {:induction false} WindowFrame(a: Image, b: Image, ch: nat, x0: int, y0: int, nx: nat, ny: nat)
    requires a.Valid() && b.Valid() && a.SameSize(b) && ch < 4
    requires forall c :: a.Contains(c) && x0 <= c.x < x0 + nx && y0 <= c.y < y0 + ny
                         ==> Channel(a.px[c], ch) == Channel(b.px[c], ch)
    ensures WindowSum(a, ch, x0, y0, nx, ny) == WindowSum(b, ch, x0, y0, nx, ny)
  {
    if nx > 0 {
      WindowFrame(a, b, ch, x0, y0, nx - 1, ny);
      ColumnFrame(a, b, ch, x0 + nx - 1, y0, ny);
    }
  }

  lemma {:induction false} ColumnFrame(a: Image, b: Image, ch: nat, x: int, y0: int, n: nat)
    requires a.Valid() && b.Valid() && a.SameSize(b) && ch < 4
    requires forall c :: a.Contains(c) && c.x == x && y0 <= c.y < y0 + n
                         ==> Channel(a.px[c], ch) == Channel(b.px[c], ch)
    ensures ColumnSum(a, ch, x, y0, n) == ColumnSum(b, ch, x, y0, n)
  {
    if n > 0 {
      ColumnFrame(a, b, ch, x, y0, n - 1);
      assert Sample(a, ch, x, y0 + n - 1) == Sample(b, ch, x, y0 + n - 1);
    }
  }
}
