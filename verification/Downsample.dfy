/** Block-averaging an icon down to a smaller square. */
module Downsample {
  import opened Wrappers

  /** Sixteen-bit channels, as `RGBA()` delivers them. */
  datatype Pixel = Pixel(r: nat, g: nat, b: nat, a: nat)

  datatype Image = Image(width: nat, height: nat, at: (int, int) -> Pixel)

  datatype Channel = Red | Green | Blue | Alpha

  function Get(p: Pixel, c: Channel): nat {
    match c
    case Red => p.r
    case Green => p.g
    case Blue => p.b
    case Alpha => p.a
  }

  // ----- blocks -----

  /** Where the `i`-th of `size` blocks starts in `n` source positions. */
  function Start(i: nat, n: nat, size: nat): nat
    requires size > 0
  {
    i * n / size
  }

  lemma MulMonotone(x: int, y: int, d: nat)
    requires x <= y
    ensures x * d <= y * d
  {
    assert (y - x) * d >= 0;
    assert y * d == x * d + (y - x) * d;
  }

  lemma Quotient(a: nat, d: nat)
    requires d > 0
    ensures (a / d) * d <= a < (a / d + 1) * d
  {
    assert (a / d + 1) * d == (a / d) * d + d;
  }

  lemma QuotientBelow(a: nat, b: nat, d: nat)
    requires d > 0 && a <= b
    ensures a / d < b / d + 1
  {
    Quotient(a, d);
    Quotient(b, d);
    if b / d + 1 <= a / d {
      MulMonotone(b / d + 1, a / d, d);
      assert false;
    }
  }

  lemma DivMonotone(a: nat, b: nat, size: nat)
    requires 0 < size && a <= b
    ensures a / size <= b / size
  {
    QuotientBelow(a, b, size);
  }

  /** A number between two neighbouring multiples. */
  lemma DivIs(a: nat, d: nat, q: nat)
    requires d > 0 && q * d <= a < (q + 1) * d
    ensures a / d == q
  {
    Quotient(a, d);
    if a / d + 1 <= q {
      MulMonotone(a / d + 1, q, d);
      assert false;
    }
    if q + 1 <= a / d {
      MulMonotone(q + 1, a / d, d);
      assert false;
    }
  }

  lemma NextMultiple(a: nat, d: nat, q: nat)
    requires q * d <= a < (q + 1) * d
    ensures (q + 1) * d <= a + d < (q + 1 + 1) * d
  {
    Next(q, d);
    Next(q + 1, d);
  }

  lemma DivNext(a: nat, d: nat, q: nat)
    requires d > 0 && q * d <= a < (q + 1) * d
    ensures (a + d) / d == q + 1
  {
    NextMultiple(a, d, q);
    DivIs(a + d, d, q + 1);
  }

  lemma DivStep(a: nat, n: nat, size: nat)
    requires 0 < size <= n
    ensures a / size + 1 <= (a + n) / size
  {
    var q := a / size;
    Quotient(a, size);
    DivNext(a, size, q);
    DivMonotone(a + size, a + n, size);
  }

  lemma Next(i: nat, n: nat)
    ensures (i + 1) * n == i * n + n
  {
  }

  /** Blocks are not empty, and each starts where the one before ends. */
  lemma BlockNotEmpty(i: nat, n: nat, size: nat)
    requires 0 < size <= n
    ensures Start(i, n, size) < Start(i + 1, n, size)
  {
    Next(i, n);
    DivStep(i * n, n, size);
  }

  lemma StartEnds(n: nat, size: nat)
    requires 0 < size
    ensures Start(0, n, size) == 0 && Start(size, n, size) == n
  {
    assert size * n / size == n by { MulDiv(n, size); }
  }

  lemma MulDiv(n: nat, size: nat)
    requires size > 0
    ensures size * n / size == n
  {
    Next(n, size);
    Next(size, n);
    assert size * n == n * size;
    DivIs(size * n, size, n);
  }

  lemma {:induction false} StartMonotone(i: nat, j: nat, n: nat, size: nat)
    requires 0 < size <= n && i <= j
    ensures Start(i, n, size) <= Start(j, n, size)
    decreases j - i
  {
    if i < j {
      BlockNotEmpty(i, n, size);
      StartMonotone(i + 1, j, n, size);
    }
  }

  predicate InBlock(p: nat, i: nat, n: nat, size: nat)
    requires size > 0
  {
    Start(i, n, size) <= p < Start(i + 1, n, size)
  }

  /** Every source position lies in exactly one block. */
  lemma BlocksPartition(p: nat, n: nat, size: nat) returns (i: nat)
    requires 0 < size <= n && p < n
    ensures i < size && InBlock(p, i, n, size)
    ensures forall j :: 0 <= j < size && InBlock(p, j, n, size) ==> j == i
  {
    StartEnds(n, size);
    i := FindBlock(p, n, size, size);
    forall j | 0 <= j < size && InBlock(p, j, n, size) ensures j == i {
      if j < i { StartMonotone(j + 1, i, n, size); }
      if i < j { StartMonotone(i + 1, j, n, size); }
    }
  }

  lemma {:induction false} FindBlock(p: nat, n: nat, size: nat, k: nat) returns (i: nat)
    requires 0 < size <= n && p < Start(k, n, size)
    ensures i < k && InBlock(p, i, n, size)
  {
    if k == 0 {
      StartEnds(n, size);
      assert false;
    }
    if Start(k - 1, n, size) <= p {
      i := k - 1;
    } else {
      i := FindBlock(p, n, size, k - 1);
    }
  }

  // ----- sums -----

  function RowSum(im: Image, c: Channel, y: nat, x0: nat, x1: nat): nat
    decreases x1
  {
    if x1 <= x0 then 0 else RowSum(im, c, y, x0, x1 - 1) + Get(im.at(x1 - 1, y), c)
  }

  function BlockSum(im: Image, c: Channel, x0: nat, x1: nat, y0: nat, y1: nat): nat
    decreases y1
  {
    if y1 <= y0 then 0 else BlockSum(im, c, x0, x1, y0, y1 - 1) + RowSum(im, c, y1 - 1, x0, x1)
  }

  /** The mean of one block of one channel, cut to eight bits. */
  function Mean(im: Image, c: Channel, size: nat, x: nat, y: nat): nat
    requires 0 < size <= im.width && size <= im.height
  {
    BlockNotEmpty(x, im.width, size);
    BlockNotEmpty(y, im.height, size);
    var x0, x1, y0, y1 :=
      Start(x, im.width, size), Start(x + 1, im.width, size), Start(y, im.height, size), Start(y + 1, im.height, size);
    CountPositive(x1 - x0, y1 - y0);
    BlockSum(im, c, x0, x1, y0, y1) / ((x1 - x0) * (y1 - y0))
  }

  lemma CountPositive(a: int, b: int)
    requires a > 0 && b > 0
    ensures a * b > 0
  {
  }

  function Averaged(im: Image, size: nat, x: nat, y: nat): Pixel
    requires 0 < size <= im.width && size <= im.height
  {
    Pixel(Mean(im, Red, size, x, y) / 256, Mean(im, Green, size, x, y) / 256,
      Mean(im, Blue, size, x, y) / 256, Mean(im, Alpha, size, x, y) / 256)
  }

  // ----- the program -----

  datatype Sums = Sums(r: nat, g: nat, b: nat, a: nat, n: nat)

  function Add(s: Sums, p: Pixel): Sums {
    Sums(s.r + p.r, s.g + p.g, s.b + p.b, s.a + p.a, s.n + 1)
  }

  ghost predicate SumsAre(s: Sums, im: Image, x0: nat, x1: nat, y0: nat, y: nat, x: nat) {
    && s.r == BlockSum(im, Red, x0, x1, y0, y) + RowSum(im, Red, y, x0, x)
    && s.g == BlockSum(im, Green, x0, x1, y0, y) + RowSum(im, Green, y, x0, x)
    && s.b == BlockSum(im, Blue, x0, x1, y0, y) + RowSum(im, Blue, y, x0, x)
    && s.a == BlockSum(im, Alpha, x0, x1, y0, y) + RowSum(im, Alpha, y, x0, x)
  }

  /** The two inner loops. */
  method SumBlock(im: Image, x0: nat, x1: nat, y0: nat, y1: nat) returns (s: Sums)
    requires x0 < x1 && y0 < y1
    ensures s.r == BlockSum(im, Red, x0, x1, y0, y1) && s.g == BlockSum(im, Green, x0, x1, y0, y1)
    ensures s.b == BlockSum(im, Blue, x0, x1, y0, y1) && s.a == BlockSum(im, Alpha, x0, x1, y0, y1)
    ensures s.n == (x1 - x0) * (y1 - y0)
  {
    s := Sums(0, 0, 0, 0, 0);
    for iy := y0 to y1
      invariant SumsAre(s, im, x0, x1, y0, iy, x0)
      invariant s.n == (x1 - x0) * (iy - y0)
    {
      for ix := x0 to x1
        invariant SumsAre(s, im, x0, x1, y0, iy, ix)
        invariant s.n == (x1 - x0) * (iy - y0) + (ix - x0)
      {
        s := Add(s, im.at(ix, iy));
      }
      MoreRows(x1 - x0, iy - y0);
    }
  }

  lemma MoreRows(w: int, h: int)
    ensures w * (h + 1) == w * h + w
  {
  }

  /** `create`: refuses a source smaller than the target; otherwise every target pixel is the
      mean of its block. */
  method Create(im: Image, size: nat) returns (out: Option<array2<Pixel>>)
    requires size > 0
    ensures out.Some? <==> im.width >= size && im.height >= size
    ensures out.Some? ==> fresh(out.value) && out.value.Length0 == size && out.value.Length1 == size
    ensures out.Some? ==> forall x, y :: 0 <= x < size && 0 <= y < size ==> out.value[x, y] == Averaged(im, size, x, y)
  {
    if im.width < size || im.height < size {
      return None;
    }
    var pixels := new Pixel[size, size];
    for y := 0 to size
      invariant forall v, u :: 0 <= u < size && 0 <= v < y ==> pixels[u, v] == Averaged(im, size, u, v)
    {
      for x := 0 to size
        invariant forall v, u :: 0 <= u < size && 0 <= v < y ==> pixels[u, v] == Averaged(im, size, u, v)
        invariant forall u :: 0 <= u < x ==> pixels[u, y] == Averaged(im, size, u, y)
      {
        var pixel := AveragePixel(im, size, x, y);
        pixels[x, y] := pixel;
      }
    }
    out := Some(pixels);
  }

  method AveragePixel(im: Image, size: nat, x: nat, y: nat) returns (p: Pixel)
    requires 0 < size <= im.width && size <= im.height
    ensures p == Averaged(im, size, x, y)
  {
    hide BlockSum, Start;
    BlockNotEmpty(x, im.width, size);
    BlockNotEmpty(y, im.height, size);
    var x0, x1 := Start(x, im.width, size), Start(x + 1, im.width, size);
    var y0, y1 := Start(y, im.height, size), Start(y + 1, im.height, size);
    CountPositive(x1 - x0, y1 - y0);
    var s := SumBlock(im, x0, x1, y0, y1);
    p := Pixel(s.r / s.n / 256, s.g / s.n / 256, s.b / s.n / 256, s.a / s.n / 256);
  }

  // ----- what the means mean -----

  ghost predicate Bounded(im: Image, c: Channel, x0: nat, x1: nat, y0: nat, y1: nat, least: nat, most: nat) {
    forall x, y :: x0 <= x < x1 && y0 <= y < y1 ==> least <= Get(im.at(x, y), c) <= most
  }

  lemma {:induction false} RowSumBounds(im: Image, c: Channel, y: nat, x0: nat, x1: nat, least: nat, most: nat)
    requires x0 <= x1 && forall x :: x0 <= x < x1 ==> least <= Get(im.at(x, y), c) <= most
    ensures least * (x1 - x0) <= RowSum(im, c, y, x0, x1) <= most * (x1 - x0)
    decreases x1
  {
    if x0 < x1 {
      RowSumBounds(im, c, y, x0, x1 - 1, least, most);
      Scaled(least, x1 - x0);
      Scaled(most, x1 - x0);
    }
  }

  lemma Scaled(k: int, w: int)
    ensures k * w == k * (w - 1) + k
  {
  }

  lemma {:induction false} BlockSumBounds(im: Image, c: Channel, x0: nat, x1: nat, y0: nat, y1: nat, least: nat,
      most: nat)
    requires x0 <= x1 && y0 <= y1 && Bounded(im, c, x0, x1, y0, y1, least, most)
    ensures least * ((x1 - x0) * (y1 - y0)) <= BlockSum(im, c, x0, x1, y0, y1) <= most * ((x1 - x0) * (y1 - y0))
    decreases y1
  {
    if y0 < y1 {
      BlockSumBounds(im, c, x0, x1, y0, y1 - 1, least, most);
      RowSumBounds(im, c, y1 - 1, x0, x1, least, most);
      RowsScaled(least, x1 - x0, y1 - y0);
      RowsScaled(most, x1 - x0, y1 - y0);
    } else {
      NoRows(least, x1 - x0, y1 - y0);
      NoRows(most, x1 - x0, y1 - y0);
    }
  }

  lemma NoRows(k: int, w: int, h: int)
    requires h == 0
    ensures k * (w * h) == 0
  {
  }

  lemma RowsScaled(k: int, w: int, h: int)
    ensures k * (w * h) == k * (w * (h - 1)) + k * w
  {
    assert w * h == w * (h - 1) + w;
    assert k * (w * (h - 1) + w) == k * (w * (h - 1)) + k * w;
  }

  lemma MeanBetween(sum: nat, n: nat, least: nat, most: nat)
    requires n > 0 && least * n <= sum <= most * n
    ensures least <= sum / n <= most
  {
    DivMonotone(least * n, sum, n);
    DivMonotone(sum, most * n, n);
    MulDiv(least, n);
    MulDiv(most, n);
    assert least * n == n * least && most * n == n * most;
  }

  /** A mean lies between the least and the greatest value of its block. */
  lemma MeanBounds(im: Image, c: Channel, size: nat, x: nat, y: nat, least: nat, most: nat)
    requires 0 < size <= im.width && size <= im.height
    requires Bounded(im, c, Start(x, im.width, size), Start(x + 1, im.width, size),
      Start(y, im.height, size), Start(y + 1, im.height, size), least, most)
    ensures least <= Mean(im, c, size, x, y) <= most
  {
    hide BlockSum, Start;
    BlockNotEmpty(x, im.width, size);
    BlockNotEmpty(y, im.height, size);
    var x0, x1, y0, y1 :=
      Start(x, im.width, size), Start(x + 1, im.width, size), Start(y, im.height, size), Start(y + 1, im.height, size);
    CountPositive(x1 - x0, y1 - y0);
    BlockSumBounds(im, c, x0, x1, y0, y1, least, most);
    MeanBetween(BlockSum(im, c, x0, x1, y0, y1), (x1 - x0) * (y1 - y0), least, most);
  }

  /** A target pixel, channel by channel: the sum over its block, divided by the number of its
      pixels, without the low eight bits. */
  lemma AveragedMeaning(im: Image, size: nat, x: nat, y: nat)
    requires 0 < size <= im.width && size <= im.height
    ensures var x0, x1 := x * im.width / size, (x + 1) * im.width / size;
      var y0, y1 := y * im.height / size, (y + 1) * im.height / size;
      var n, p := (x1 - x0) * (y1 - y0), Averaged(im, size, x, y);
      && x0 < x1 && y0 < y1 && n > 0
      && p.r == BlockSum(im, Red, x0, x1, y0, y1) / n / 256
      && p.g == BlockSum(im, Green, x0, x1, y0, y1) / n / 256
      && p.b == BlockSum(im, Blue, x0, x1, y0, y1) / n / 256
      && p.a == BlockSum(im, Alpha, x0, x1, y0, y1) / n / 256
  {
    hide BlockSum;
    BlockNotEmpty(x, im.width, size);
    BlockNotEmpty(y, im.height, size);
    CountPositive((x + 1) * im.width / size - x * im.width / size, (y + 1) * im.height / size - y * im.height / size);
  }

  /** A block of one colour keeps it. */
  lemma OneColour(im: Image, size: nat, x: nat, y: nat, p: Pixel)
    requires 0 < size <= im.width && size <= im.height
    requires forall u: nat, v: nat ::
      (InBlock(u, x, im.width, size) && InBlock(v, y, im.height, size) ==> im.at(u, v) == p)
    ensures Averaged(im, size, x, y) == Pixel(p.r / 256, p.g / 256, p.b / 256, p.a / 256)
  {
    hide Mean, Start;
    MeanBounds(im, Red, size, x, y, p.r, p.r);
    MeanBounds(im, Green, size, x, y, p.g, p.g);
    MeanBounds(im, Blue, size, x, y, p.b, p.b);
    MeanBounds(im, Alpha, size, x, y, p.a, p.a);
  }

  ghost predicate SixteenBit(im: Image) {
    forall x, y, c :: 0 <= x < im.width && 0 <= y < im.height ==> Get(im.at(x, y), c) <= 65535
  }

  ghost predicate Premultiplied(im: Image) {
    forall x, y, c :: 0 <= x < im.width && 0 <= y < im.height ==> Get(im.at(x, y), c) <= im.at(x, y).a
  }

  lemma InsideImage(i: nat, n: nat, size: nat)
    requires 0 < size <= n && i < size
    ensures Start(i + 1, n, size) <= n
  {
    StartMonotone(i + 1, size, n, size);
    StartEnds(n, size);
  }

  /** Sixteen-bit channels average to eight-bit ones. */
  lemma FitsByte(im: Image, size: nat, x: nat, y: nat, c: Channel)
    requires 0 < size <= im.width && size <= im.height && x < size && y < size && SixteenBit(im)
    ensures Get(Averaged(im, size, x, y), c) <= 255
  {
    hide Mean, Start;
    InsideImage(x, im.width, size);
    InsideImage(y, im.height, size);
    MeanBounds(im, c, size, x, y, 0, 65535);
  }

  lemma {:induction false} RowSumBelowAlpha(im: Image, c: Channel, y: nat, x0: nat, x1: nat)
    requires Premultiplied(im) && x1 <= im.width && y < im.height
    ensures RowSum(im, c, y, x0, x1) <= RowSum(im, Alpha, y, x0, x1)
    decreases x1
  {
    if x0 < x1 { RowSumBelowAlpha(im, c, y, x0, x1 - 1); }
  }

  lemma {:induction false} BlockSumBelowAlpha(im: Image, c: Channel, x0: nat, x1: nat, y0: nat, y1: nat)
    requires Premultiplied(im) && x1 <= im.width && y1 <= im.height
    ensures BlockSum(im, c, x0, x1, y0, y1) <= BlockSum(im, Alpha, x0, x1, y0, y1)
    decreases y1
  {
    if y0 < y1 {
      BlockSumBelowAlpha(im, c, x0, x1, y0, y1 - 1);
      RowSumBelowAlpha(im, c, y1 - 1, x0, x1);
    }
  }

  /** Colour does not exceed alpha in the result if it does not in the source. */
  lemma StaysPremultiplied(im: Image, size: nat, x: nat, y: nat, c: Channel)
    requires 0 < size <= im.width && size <= im.height && x < size && y < size && Premultiplied(im)
    ensures Get(Averaged(im, size, x, y), c) <= Averaged(im, size, x, y).a
  {
    hide BlockSum, Start;
    BlockNotEmpty(x, im.width, size);
    BlockNotEmpty(y, im.height, size);
    var x0, x1, y0, y1 :=
      Start(x, im.width, size), Start(x + 1, im.width, size), Start(y, im.height, size), Start(y + 1, im.height, size);
    CountPositive(x1 - x0, y1 - y0);
    InsideImage(x, im.width, size);
    InsideImage(y, im.height, size);
    BlockSumBelowAlpha(im, c, x0, x1, y0, y1);
    DivMonotone(BlockSum(im, c, x0, x1, y0, y1), BlockSum(im, Alpha, x0, x1, y0, y1), (x1 - x0) * (y1 - y0));
    DivMonotone(Mean(im, c, size, x, y), Mean(im, Alpha, size, x, y), 256);
  }

  // ----- nothing is counted twice or left out -----

  /** The sums of the blocks in row `y`, up to block `i`. */
  function StripSum(im: Image, c: Channel, size: nat, y0: nat, y1: nat, i: nat): nat
    requires size > 0
  {
    if i == 0 then 0
    else
      StripSum(im, c, size, y0, y1, i - 1)
        + BlockSum(im, c, Start(i - 1, im.width, size), Start(i, im.width, size), y0, y1)
  }

  function AllBlocks(im: Image, c: Channel, size: nat, j: nat): nat
    requires size > 0
  {
    if j == 0 then 0
    else
      AllBlocks(im, c, size, j - 1)
        + StripSum(im, c, size, Start(j - 1, im.height, size), Start(j, im.height, size), size)
  }

  lemma {:induction false} RowSumSplits(im: Image, c: Channel, y: nat, x0: nat, x1: nat, x2: nat)
    requires x0 <= x1 <= x2
    ensures RowSum(im, c, y, x0, x2) == RowSum(im, c, y, x0, x1) + RowSum(im, c, y, x1, x2)
    decreases x2
  {
    if x1 < x2 { RowSumSplits(im, c, y, x0, x1, x2 - 1); }
  }

  lemma {:induction false} BlockSplitsAcross(im: Image, c: Channel, x0: nat, x1: nat, x2: nat, y0: nat, y1: nat)
    requires x0 <= x1 <= x2
    ensures BlockSum(im, c, x0, x2, y0, y1) == BlockSum(im, c, x0, x1, y0, y1) + BlockSum(im, c, x1, x2, y0, y1)
    decreases y1
  {
    if y0 < y1 {
      BlockSplitsAcross(im, c, x0, x1, x2, y0, y1 - 1);
      RowSumSplits(im, c, y1 - 1, x0, x1, x2);
    }
  }

  lemma {:induction false} BlockSplitsDown(im: Image, c: Channel, x0: nat, x1: nat, y0: nat, y1: nat, y2: nat)
    requires y0 <= y1 <= y2
    ensures BlockSum(im, c, x0, x1, y0, y2) == BlockSum(im, c, x0, x1, y0, y1) + BlockSum(im, c, x0, x1, y1, y2)
    decreases y2
  {
    if y1 < y2 { BlockSplitsDown(im, c, x0, x1, y0, y1, y2 - 1); }
  }

  lemma {:induction false} StripIsBlock(im: Image, c: Channel, size: nat, y0: nat, y1: nat, i: nat)
    requires 0 < size <= im.width
    ensures StripSum(im, c, size, y0, y1, i) == BlockSum(im, c, 0, Start(i, im.width, size), y0, y1)
  {
    hide Start;
    StartEnds(im.width, size);
    if i == 0 {
      EmptyBlock(im, c, y0, y1);
    } else {
      StripIsBlock(im, c, size, y0, y1, i - 1);
      BlockNotEmpty(i - 1, im.width, size);
      BlockSplitsAcross(im, c, 0, Start(i - 1, im.width, size), Start(i, im.width, size), y0, y1);
    }
  }

  lemma {:induction false} EmptyBlock(im: Image, c: Channel, y0: nat, y1: nat)
    ensures BlockSum(im, c, 0, 0, y0, y1) == 0
    decreases y1
  {
    if y0 < y1 { EmptyBlock(im, c, y0, y1 - 1); }
  }

  /** Conservation: the block sums add up to the sum over the whole source. */
  lemma {:induction false} BlocksAddUp(im: Image, c: Channel, size: nat, j: nat)
    requires 0 < size <= im.width && size <= im.height
    ensures AllBlocks(im, c, size, j) == BlockSum(im, c, 0, im.width, 0, Start(j, im.height, size))
  {
    hide Start;
    StartEnds(im.width, size);
    StartEnds(im.height, size);
    if j > 0 {
      BlocksAddUp(im, c, size, j - 1);
      BlockNotEmpty(j - 1, im.height, size);
      StripIsBlock(im, c, size, Start(j - 1, im.height, size), Start(j, im.height, size), size);
      BlockSplitsDown(im, c, 0, im.width, 0, Start(j - 1, im.height, size), Start(j, im.height, size));
    }
  }

  lemma Conservation(im: Image, c: Channel, size: nat)
    requires 0 < size <= im.width && size <= im.height
    ensures AllBlocks(im, c, size, size) == BlockSum(im, c, 0, im.width, 0, im.height)
  {
    hide Start;
    StartEnds(im.height, size);
    BlocksAddUp(im, c, size, size);
  }
}
