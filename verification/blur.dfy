/** The `blur_fade_shader`: every output cell is 0.99 times the sum of the
    in-bounds cells of the 3x3 neighbourhood of the input, divided by 9
    (always 9, also at the border), computed channel by channel. One
    invocation per cell, dispatched as 128 x 128 groups of 8 x 8. */
module BlurFade {
  import opened Field

  const BlurDivisor: real := 9.0
  const FadeFactor: real := 0.99
  /** `local_size_x` and `local_size_y` of the blur shader. */
  const LocalSize: nat := 8
  /** The side of the simulation images. */
  const ImageSize: nat := 1024
  /** `1024 / 8` work groups along each axis. */
  const GroupCount: nat := ImageSize / LocalSize

  /** One channel of the blurred, faded cell c. */
  function BlurChannel(img: Image, ch: nat, c: Cell): real
    requires img.Valid() && ch < 4
  {
    WindowSum(img, ch, c.x - 1, c.y - 1, 3, 3) / BlurDivisor * FadeFactor
  }

  /** The value one invocation stores at its own cell c. */
  function BlurPixel(img: Image, c: Cell): Pixel
    requires img.Valid()
  {
    Pixel(BlurChannel(img, 0, c), BlurChannel(img, 1, c), BlurChannel(img, 2, c), BlurChannel(img, 3, c))
  }

  /** The whole pass: every cell of the image replaced by its blurred value,
      read from the unchanged input. */
  function Blur(img: Image): (out: Image)
    requires img.Valid()
    ensures out.Valid() && out.SameSize(img)
    ensures forall c :: img.Contains(c) ==> out.px[c] == BlurPixel(img, c)
  {
    Image(img.width, img.height, map c | c in img.px :: BlurPixel(img, c))
  }

  lemma BlurChannelIs(img: Image, c: Cell, ch: nat)
    requires img.Valid() && ch < 4 && img.Contains(c)
    ensures Channel(Blur(img).px[c], ch) == BlurChannel(img, ch, c)
  {
  }

  function AddPixel(a: Pixel, b: Pixel): Pixel {
    Pixel(a.x + b.x, a.y + b.y, a.z + b.z, a.w + b.w)
  }

  function ScalePixel(p: Pixel, k: real): Pixel {
    Pixel(p.x * k, p.y * k, p.z * k, p.w * k)
  }

  function DividePixel(p: Pixel, d: real): Pixel
    requires d != 0.0
  {
    Pixel(p.x / d, p.y / d, p.z / d, p.w / d)
  }

  /** One invocation as the shader writes it: x outer and y inner from -1 to
      1, adding every in-bounds sample into a four-channel sum, then dividing
      by 9 and multiplying by 0.99. */
  method BlurInvocation(img: Image, gx: int, gy: int) returns (faded: Pixel)
    requires img.Valid()
    ensures faded == BlurPixel(img, Cell(gx, gy))
  {
    var sum := Pixel(0.0, 0.0, 0.0, 0.0);
    var x := -1;
    while x <= 1
      invariant -1 <= x <= 2
      invariant sum.x == WindowSum(img, 0, gx - 1, gy - 1, x + 1, 3)
      invariant sum.y == WindowSum(img, 1, gx - 1, gy - 1, x + 1, 3)
      invariant sum.z == WindowSum(img, 2, gx - 1, gy - 1, x + 1, 3)
      invariant sum.w == WindowSum(img, 3, gx - 1, gy - 1, x + 1, 3)
    {
      var y := -1;
      while y <= 1
        invariant -1 <= y <= 2
        invariant sum.x == WindowSum(img, 0, gx - 1, gy - 1, x + 1, 3) + ColumnSum(img, 0, gx + x, gy - 1, y + 1)
        invariant sum.y == WindowSum(img, 1, gx - 1, gy - 1, x + 1, 3) + ColumnSum(img, 1, gx + x, gy - 1, y + 1)
        invariant sum.z == WindowSum(img, 2, gx - 1, gy - 1, x + 1, 3) + ColumnSum(img, 2, gx + x, gy - 1, y + 1)
        invariant sum.w == WindowSum(img, 3, gx - 1, gy - 1, x + 1, 3) + ColumnSum(img, 3, gx + x, gy - 1, y + 1)
      {
        var sample := Cell(gx + x, gy + y);
        if sample.x >= 0 && sample.x < img.width && sample.y >= 0 && sample.y < img.height {
          sum := AddPixel(sum, img.px[sample]);
        }
        y := y + 1;
      }
      x := x + 1;
    }
    var blurred := DividePixel(sum, BlurDivisor);
    faded := ScalePixel(blurred, FadeFactor);
  }

  /** At most 3 x 3 cells of the neighbourhood lie in the image. */
  lemma CellsInAtMostNine(img: Image, c: Cell)
    ensures 0.0 <= CellsIn(c.x - 1, c.y - 1, 3, 3, img.width, img.height) <= 9.0
  {
    CountInsideAtMost(c.x - 1, 3, img.width);
    CountInsideAtMost(c.y - 1, 3, img.height);
  }

  lemma ScaleAtMostNine(m: real, n: real, w: real)
    requires 0.0 <= m && 0.0 <= n <= 9.0 && 0.0 <= w <= m * n
    ensures 0.0 <= w / BlurDivisor * FadeFactor <= FadeFactor * m
  {
    assert m * n <= m * 9.0;
  }

  /** One blurred channel of values in [0, m] lies in [0, 0.99 m]. */
  lemma BlurChannelBounds(img: Image, ch: nat, c: Cell, m: real)
    requires img.Valid() && ch < 4 && img.Contains(c)
    requires ChannelWithin(img, ch, 0.0, m)
    ensures 0.0 <= BlurChannel(img, ch, c) <= FadeFactor * m
  {
    assert 0.0 <= Channel(img.px[c], ch) <= m;
    WindowBounds(img, ch, c.x - 1, c.y - 1, 3, 3, m);
    CellsInAtMostNine(img, c);
    ScaleAtMostNine(m, CellsIn(c.x - 1, c.y - 1, 3, 3, img.width, img.height), WindowSum(img, ch, c.x - 1, c.y - 1, 3, 3));
  }

  /** Blurring values in [0, m] gives values in [0, 0.99 m]: the pass never
      goes below zero and lowers the maximum by the fade factor. */
  lemma BlurBounds(img: Image, m: real)
    requires img.Valid()
    requires AllWithin(img, 0.0, m)
    ensures AllWithin(Blur(img), 0.0, FadeFactor * m)
  {
    var out := Blur(img);
    forall ch, c | 0 <= ch < 4 && c in out.px
      ensures 0.0 <= Channel(out.px[c], ch) <= FadeFactor * m
    {
      assert ChannelWithin(img, ch, 0.0, m);
      BlurChannelBounds(img, ch, c, m);
      BlurChannelIs(img, c, ch);
    }
  }

  /** An all-zero field is a fixed point of the pass. */
  lemma BlurZeroFixedPoint(img: Image)
    requires img.Valid()
    requires forall c :: c in img.px ==> img.px[c] == Pixel(0.0, 0.0, 0.0, 0.0)
    ensures Blur(img) == img
  {
    forall c | c in img.px
      ensures Blur(img).px[c] == img.px[c]
    {
      forall ch | 0 <= ch < 4
        ensures BlurChannel(img, ch, c) == 0.0
      {
        WindowUniform(img, ch, c.x - 1, c.y - 1, 3, 3, 0.0);
      }
    }
    assert Blur(img).px == img.px;
  }

  predicate Interior(img: Image, c: Cell) {
    1 <= c.x < img.width - 1 && 1 <= c.y < img.height - 1
  }

  /** On a field of constant value v an interior cell becomes 0.99 v. */
  lemma BlurUniformInterior(img: Image, ch: nat, v: real, c: Cell)
    requires img.Valid() && ch < 4
    requires ChannelUniform(img, ch, v)
    requires Interior(img, c)
    ensures Channel(Blur(img).px[c], ch) == FadeFactor * v
  {
    WindowUniform(img, ch, c.x - 1, c.y - 1, 3, 3, v);
    CountInsideAll(c.x - 1, 3, img.width);
    CountInsideAll(c.y - 1, 3, img.height);
    assert CellsIn(c.x - 1, c.y - 1, 3, 3, img.width, img.height) == 9.0;
    assert BlurChannel(img, ch, c) == v * 9.0 / 9.0 * 0.99;
    BlurChannelIs(img, c, ch);
  }

  /** On a field of constant positive value v a border cell becomes strictly
      less than 0.99 v, because the divisor stays 9 while fewer than 9 cells
      are summed. */
  lemma BlurUniformBorder(img: Image, ch: nat, v: real, c: Cell)
    requires img.Valid() && ch < 4
    requires ChannelUniform(img, ch, v) && v > 0.0
    requires img.Contains(c) && !Interior(img, c)
    ensures Channel(Blur(img).px[c], ch) < FadeFactor * v
  {
    WindowUniform(img, ch, c.x - 1, c.y - 1, 3, 3, v);
    var kx := CountInside(c.x - 1, 3, img.width);
    var ky := CountInside(c.y - 1, 3, img.height);
    CountInsideAtMost(c.x - 1, 3, img.width);
    CountInsideAtMost(c.y - 1, 3, img.height);
    if !(1 <= c.x < img.width - 1) {
      CountInsideMissing(c.x - 1, 3, img.width);
      assert kx as real * ky as real <= 2.0 * 3.0;
    } else {
      CountInsideMissing(c.y - 1, 3, img.height);
      assert kx as real * ky as real <= 3.0 * 2.0;
    }
    var w := WindowSum(img, ch, c.x - 1, c.y - 1, 3, 3);
    assert w <= v * 6.0;
    assert w / 9.0 < v;
    assert BlurChannel(img, ch, c) == w / 9.0 * 0.99;
    BlurChannelIs(img, c, ch);
  }

  /** The global invocation coordinate of local id `local` in work group
      `group` along one axis. */
  function InvocationCoordinate(group: nat, local: nat): nat {
    group * LocalSize + local
  }

  /** The cells the 2-D dispatch of `groups` x `groups` work groups visits. */
  function DispatchedCells(groups: nat): set<Cell> {
    set gx: nat, gy: nat, lx: nat, ly: nat
      | gx < groups && gy < groups && lx < LocalSize && ly < LocalSize
      :: Cell(InvocationCoordinate(gx, lx), InvocationCoordinate(gy, ly))
  }

  /** Along one axis the dispatch of 1024 / 8 groups of 8 visits every
      coordinate of [0, 1024) exactly once. */
  lemma DispatchAxisBijective()
    ensures forall g: nat, l: nat :: g < GroupCount && l < LocalSize ==> InvocationCoordinate(g, l) < ImageSize
    ensures forall x: nat :: x < ImageSize ==>
              x / LocalSize < GroupCount && InvocationCoordinate(x / LocalSize, x % LocalSize) == x
    ensures forall g: nat, l: nat, g': nat, l': nat ::
              l < LocalSize && l' < LocalSize && InvocationCoordinate(g, l) == InvocationCoordinate(g', l')
              ==> g == g' && l == l'
  {
    forall g: nat, l: nat, g': nat, l': nat
      | l < LocalSize && l' < LocalSize && InvocationCoordinate(g, l) == InvocationCoordinate(g', l')
      ensures g == g' && l == l'
    {
      var x := InvocationCoordinate(g, l);
      assert g == x / LocalSize && l == x % LocalSize;
      assert g' == x / LocalSize && l' == x % LocalSize;
    }
  }

  /** The blur dispatch covers exactly the cells of a 1024 x 1024 image. */
  lemma DispatchCoversImage(img: Image)
    requires img.Valid() && img.width == ImageSize && img.height == ImageSize
    ensures DispatchedCells(GroupCount) == img.px.Keys
  {
    DispatchAxisBijective();
    forall c | c in img.px
      ensures c in DispatchedCells(GroupCount)
    {
      var gx: nat, lx: nat := c.x / LocalSize, c.x % LocalSize;
      var gy: nat, ly: nat := c.y / LocalSize, c.y % LocalSize;
      assert c == Cell(InvocationCoordinate(gx, lx), InvocationCoordinate(gy, ly));
    }
  }

  /** What the dispatch leaves in `out`: the blurred value at every cell an
      invocation visits; `imageStore` outside the image has no effect. */
  function BlurDispatch(input: Image, out: Image, groups: nat): (r: Image)
    requires input.Valid() && out.Valid() && input.SameSize(out)
    ensures r.Valid() && r.SameSize(out)
  {
    var visited := DispatchedCells(groups);
    Image(out.width, out.height,
          map c | c in out.px :: if c in visited then BlurPixel(input, c) else out.px[c])
  }

  /** With 1024 / 8 groups per axis every cell of the 1024 x 1024 output is
      overwritten, so the old contents of the output image do not matter. */
  lemma BlurDispatchIsBlur(input: Image, out: Image)
    requires input.Valid() && out.Valid() && input.SameSize(out)
    requires input.width == ImageSize && input.height == ImageSize
    ensures BlurDispatch(input, out, GroupCount) == Blur(input)
  {
    DispatchCoversImage(out);
    assert BlurDispatch(input, out, GroupCount).px == Blur(input).px;
  }
}
