/** The two QR bitmap renderers: both paint every dark module as a square of black pixels, the one for the
    BMP file after reversing the module rows in place. */
module QrRender {
  import opened Bytes

  const IMG_MAX_WIDTH: nat := 400
  const WHITE: byte := 0xFF

  /** A pixel buffer: modules per side, pixels per module, bytes per pixel and bytes per row. */
  datatype Grid = Grid(width: nat, scale: nat, pixel: nat, stride: nat) {
    predicate Valid() {
      width > 0 && scale > 0 && pixel > 0 && Times(pixel, Side()) <= stride
    }

    /** Pixels per side. */
    function Side(): nat {
      Times(scale, width)
    }

    function Size(): nat {
      Times(stride, Side())
    }

    /** The first byte of pixel (x, y). */
    function Offset(y: nat, x: nat): nat {
      Times(stride, y) + Times(pixel, x)
    }
  }

  // ----- index arithmetic -----

  /** The product, by repeated addition: index arithmetic needs no more than the lemmas below. */
  function Times(m: nat, n: nat): nat {
    if n == 0 then 0 else Times(m, n - 1) + m
  }

  lemma {:induction false} TimesIs(m: nat, n: nat)
    ensures Times(m, n) == m * n
    decreases n
  {
    if n > 0 {
      TimesIs(m, n - 1);
    }
  }

  lemma {:induction false} Below(a: nat, m: nat, n: nat)
    requires a < n
    ensures Times(m, a) + m <= Times(m, n)
    decreases n
  {
    if a < n - 1 {
      Below(a, m, n - 1);
    }
  }

  lemma {:induction false} Unique(q: nat, r: nat, q': nat, r': nat, m: nat)
    requires r < m && r' < m && Times(m, q) + r == Times(m, q') + r'
    ensures q == q' && r == r'
  {
    if q < q' {
      Below(q, m, q');
      assert false;
    } else if q' < q {
      Below(q', m, q);
      assert false;
    }
  }

  lemma {:induction false} DivMod(y: nat, m: nat)
    requires m > 0
    ensures y % m < m && y == Times(m, y / m) + y % m
  {
    TimesIs(m, y / m);
  }

  lemma {:induction false} Quotient(y: nat, m: nat, n: nat)
    requires m > 0 && y < Times(m, n)
    ensures y / m < n && y == Times(m, y / m) + y % m && y % m < m
  {
    DivMod(y, m);
    if n < y / m {
      Below(n, m, y / m);
      assert false;
    }
  }

  /** A pixel lies in its row and in the buffer. */
  lemma {:induction false} Inside(g: Grid, y: nat, x: nat)
    requires g.Valid() && y < g.Side() && x < g.Side()
    ensures Times(g.pixel, x) + g.pixel <= Times(g.pixel, g.Side()) <= g.stride
    ensures g.Offset(y, x) + g.pixel <= Times(g.stride, y) + g.stride <= g.Size()
  {
    Below(x, g.pixel, g.Side());
    Below(y, g.stride, g.Side());
  }

  /** Byte `k` of pixel (x, y) is no other byte of the buffer. */
  lemma {:induction false} Apart(g: Grid, y: nat, x: nat, k: nat, y': nat, c: nat)
    requires g.Valid() && y < g.Side() && x < g.Side() && k < g.pixel && c < g.stride
    requires g.Offset(y, x) + k == Times(g.stride, y') + c
    ensures y == y' && c == Times(g.pixel, x) + k
  {
    Inside(g, y, x);
    Unique(y, Times(g.pixel, x) + k, y', c, g.stride);
  }

  /** The pixel row or column of sub-pixel `i` of module `m`. */
  function Line(g: Grid, m: nat, i: nat): nat {
    Times(g.scale, m) + i
  }

  lemma LineInside(g: Grid, m: nat, i: nat)
    requires m < g.width && i < g.scale
    ensures Line(g, m, i) < g.Side()
  {
    Below(m, g.scale, g.width);
  }

  lemma LineOf(g: Grid, y: nat)
    requires g.scale > 0 && y < g.Side()
    ensures y / g.scale < g.width && y % g.scale < g.scale && y == Line(g, y / g.scale, y % g.scale)
  {
    Quotient(y, g.scale, g.width);
  }

  lemma LinesApart(g: Grid, m: nat, i: nat, m': nat, i': nat)
    requires i < g.scale && i' < g.scale && Line(g, m, i) == Line(g, m', i')
    ensures m == m' && i == i'
  {
    Unique(m, i, m', i', g.scale);
  }

  /** The position of sub-pixel (i, j) of module (my, mx): row i, column j. */
  function Sub(g: Grid, my: nat, mx: nat, i: nat, j: nat): nat {
    g.Offset(Line(g, my, i), Line(g, mx, j))
  }

  lemma SubInside(g: Grid, my: nat, mx: nat, i: nat, j: nat)
    requires g.Valid() && my < g.width && mx < g.width && i < g.scale && j < g.scale
    ensures Line(g, my, i) < g.Side() && Line(g, mx, j) < g.Side()
    ensures Sub(g, my, mx, i, j) + g.pixel <= g.Size()
  {
    LineInside(g, my, i);
    LineInside(g, mx, j);
    Inside(g, Line(g, my, i), Line(g, mx, j));
  }

  /** Different pixels share no byte. */
  lemma PixelsApart(g: Grid, y: nat, x: nat, y': nat, x': nat, b: nat)
    requires g.Valid() && y < g.Side() && x < g.Side() && y' < g.Side() && x' < g.Side()
    requires g.Offset(y, x) <= b < g.Offset(y, x) + g.pixel
    requires g.Offset(y', x') <= b < g.Offset(y', x') + g.pixel
    ensures y == y' && x == x'
  {
    var k, k' := b - g.Offset(y, x), b - g.Offset(y', x');
    Inside(g, y', x');
    Apart(g, y, x, k, y', Times(g.pixel, x') + k');
    Unique(x, k, x', k', g.pixel);
  }

  /** Different sub-pixels share no byte. */
  lemma SubsApart(g: Grid, my: nat, mx: nat, i: nat, j: nat, my': nat, mx': nat, i': nat, j': nat, b: nat)
    requires g.Valid() && my < g.width && mx < g.width && i < g.scale && j < g.scale
    requires my' < g.width && mx' < g.width && i' < g.scale && j' < g.scale
    requires Sub(g, my, mx, i, j) <= b < Sub(g, my, mx, i, j) + g.pixel
    requires Sub(g, my', mx', i', j') <= b < Sub(g, my', mx', i', j') + g.pixel
    ensures my == my' && mx == mx' && i == i' && j == j'
  {
    SubInside(g, my, mx, i, j);
    SubInside(g, my', mx', i', j');
    PixelsApart(g, Line(g, my, i), Line(g, mx, j), Line(g, my', i'), Line(g, mx', j'), b);
    LinesApart(g, my, i, my', i');
    LinesApart(g, mx, j, mx', j');
  }

  // ----- pictures -----

  /** All bytes of the pixel at `pos` have the value `v`. */
  predicate PixelIs(buffer: seq<byte>, pos: nat, size: nat, v: byte) {
    pos + size <= |buffer| && forall b | pos <= b < pos + size :: buffer[b] == v
  }

  predicate DarkAt(data: seq<byte>, width: nat, my: nat, mx: nat)
    requires my < width && mx < width && |data| == Times(width, width)
  {
    SourceInside(width, my, mx);
    data[Source(width, my, mx)] & 1 == 1
  }

  function Shade(data: seq<byte>, width: nat, my: nat, mx: nat): byte
    requires my < width && mx < width && |data| == Times(width, width)
  {
    if DarkAt(data, width, my, mx) then 0 else WHITE
  }

  /** Every sub-pixel of every module is black if bit 0 of the module is set, else white. */
  ghost predicate Picture(buffer: seq<byte>, g: Grid, data: seq<byte>)
    requires g.Valid()
  {
    && |buffer| == g.Size() && |data| == Times(g.width, g.width)
    && forall my: nat, mx: nat, i: nat, j: nat | my < g.width && mx < g.width && i < g.scale && j < g.scale ::
         PixelIs(buffer, Sub(g, my, mx, i, j), g.pixel, Shade(data, g.width, my, mx))
  }

  /** The bytes behind the last pixel of each row are still white. */
  ghost predicate PaddingWhite(buffer: seq<byte>, g: Grid)
    requires g.Valid()
  {
    forall b | 0 <= b < |buffer| && b % g.stride >= Times(g.pixel, g.Side()) :: buffer[b] == WHITE
  }

  // ----- the painting loops -----

  /** The loops reach sub-pixel (my, mx, i, j) before the point (y, x, l, n). */
  predicate Earlier(my: nat, mx: nat, i: nat, j: nat, y: nat, x: nat, l: nat, n: nat) {
    my < y || (my == y && (mx < x || (mx == x && (i < l || (i == l && j < n)))))
  }

  /** What the buffer shows when the loops have reached the point (y, x, l, n). */
  ghost predicate Shows(buffer: seq<byte>, g: Grid, data: seq<byte>, y: nat, x: nat, l: nat, n: nat)
    requires g.Valid() && |data| == Times(g.width, g.width)
  {
    && |buffer| == g.Size()
    && PaddingWhite(buffer, g)
    && forall my: nat, mx: nat, i: nat, j: nat | my < g.width && mx < g.width && i < g.scale && j < g.scale ::
         PixelIs(buffer, Sub(g, my, mx, i, j), g.pixel,
                 if Earlier(my, mx, i, j, y, x, l, n) then Shade(data, g.width, my, mx) else WHITE)
  }

  /** The buffer with the pixel at `pos` made black. */
  function Paint(buffer: seq<byte>, pos: nat, size: nat): (r: seq<byte>)
    requires pos + size <= |buffer|
  {
    seq(|buffer|, i requires 0 <= i < |buffer| => if pos <= i < pos + size then 0 else buffer[i])
  }

  lemma StartBlank(buffer: seq<byte>, g: Grid, data: seq<byte>)
    requires g.Valid() && |data| == Times(g.width, g.width)
    requires |buffer| == g.Size() && forall b | 0 <= b < |buffer| :: buffer[b] == WHITE
    ensures Shows(buffer, g, data, 0, 0, 0, 0)
  {
    forall my: nat, mx: nat, i: nat, j: nat | my < g.width && mx < g.width && i < g.scale && j < g.scale
      ensures PixelIs(buffer, Sub(g, my, mx, i, j), g.pixel, WHITE)
    {
      SubInside(g, my, mx, i, j);
    }
  }

  lemma PaintPadding(buffer: seq<byte>, g: Grid, y: nat, x: nat)
    requires g.Valid() && |buffer| == g.Size() && PaddingWhite(buffer, g) && y < g.Side() && x < g.Side()
    ensures g.Offset(y, x) + g.pixel <= |buffer| && PaddingWhite(Paint(buffer, g.Offset(y, x), g.pixel), g)
  {
    Inside(g, y, x);
    forall b | g.Offset(y, x) <= b < g.Offset(y, x) + g.pixel ensures b % g.stride < Times(g.pixel, g.Side()) {
      DivMod(b, g.stride);
      Apart(g, y, x, b - g.Offset(y, x), b / g.stride, b % g.stride);
    }
  }

  /** Painting one sub-pixel leaves the others alone. */
  lemma PaintOther(
    buffer: seq<byte>, g: Grid, y: nat, x: nat, l: nat, n: nat, my: nat, mx: nat, i: nat, j: nat, at: nat, v: byte)
    requires g.Valid() && y < g.width && x < g.width && l < g.scale && n < g.scale
    requires my < g.width && mx < g.width && i < g.scale && j < g.scale
    requires at == Sub(g, y, x, l, n) && at + g.pixel <= |buffer|
    requires PixelIs(buffer, Sub(g, my, mx, i, j), g.pixel, v) && !(my == y && mx == x && i == l && j == n)
    ensures PixelIs(Paint(buffer, at, g.pixel), Sub(g, my, mx, i, j), g.pixel, v)
  {
    var pos := Sub(g, my, mx, i, j);
    forall b | pos <= b < pos + g.pixel ensures Paint(buffer, at, g.pixel)[b] == buffer[b] {
      if at <= b < at + g.pixel {
        SubsApart(g, my, mx, i, j, y, x, l, n, b);
      }
    }
  }

  /** Painting one sub-pixel of a dark module. */
  lemma PaintStep(
    buffer: seq<byte>, g: Grid, data: seq<byte>, y: nat, x: nat, l: nat, n: nat, at: nat, buffer': seq<byte>)
    requires g.Valid() && |data| == Times(g.width, g.width) && Shows(buffer, g, data, y, x, l, n)
    requires y < g.width && x < g.width && l < g.scale && n < g.scale && DarkAt(data, g.width, y, x)
    requires at == Sub(g, y, x, l, n) && at + g.pixel <= |buffer| && buffer' == Paint(buffer, at, g.pixel)
    ensures Shows(buffer', g, data, y, x, l, n + 1)
  {
    SubInside(g, y, x, l, n);
    PaintPadding(buffer, g, Line(g, y, l), Line(g, x, n));
    forall my: nat, mx: nat, i: nat, j: nat | my < g.width && mx < g.width && i < g.scale && j < g.scale
      ensures PixelIs(buffer', Sub(g, my, mx, i, j), g.pixel,
                      if Earlier(my, mx, i, j, y, x, l, n + 1) then Shade(data, g.width, my, mx) else WHITE)
    {
      var v := if Earlier(my, mx, i, j, y, x, l, n) then Shade(data, g.width, my, mx) else WHITE;
      assert PixelIs(buffer, Sub(g, my, mx, i, j), g.pixel, v);
      if !(my == y && mx == x && i == l && j == n) {
        PaintOther(buffer, g, y, x, l, n, my, mx, i, j, at, v);
      }
    }
  }

  /** Two points between which the loops have nothing to paint. */
  predicate SamePoint(g: Grid, data: seq<byte>, y: nat, x: nat, l: nat, n: nat, y': nat, x': nat, l': nat, n': nat)
    requires |data| == Times(g.width, g.width)
  {
    || (y' == y && x' == x && l' == l + 1 && n == g.scale && n' == 0)
    || (y' == y && x' == x + 1 && l' == 0 && n' == 0
        && ((l == g.scale && n == 0) || (l == 0 && n == 0 && x < g.width && y < g.width
                && !DarkAt(data, g.width, y, x))))
    || (y' == y + 1 && x == g.width && x' == 0 && l == l' == 0 && n == n' == 0)
  }

  lemma Advance(
    buffer: seq<byte>, g: Grid, data: seq<byte>, y: nat, x: nat, l: nat, n: nat, y': nat, x': nat, l': nat, n': nat)
    requires g.Valid() && |data| == Times(g.width, g.width) && Shows(buffer, g, data, y, x, l, n)
    requires SamePoint(g, data, y, x, l, n, y', x', l', n')
    ensures Shows(buffer, g, data, y', x', l', n')
  {
    forall my: nat, mx: nat, i: nat, j: nat | my < g.width && mx < g.width && i < g.scale && j < g.scale
      ensures PixelIs(buffer, Sub(g, my, mx, i, j), g.pixel,
                      if Earlier(my, mx, i, j, y', x', l', n') then Shade(data, g.width, my, mx) else WHITE)
    {
      var v := if Earlier(my, mx, i, j, y, x, l, n) then Shade(data, g.width, my, mx) else WHITE;
      assert PixelIs(buffer, Sub(g, my, mx, i, j), g.pixel, v);
    }
  }

  lemma AllShown(buffer: seq<byte>, g: Grid, data: seq<byte>)
    requires g.Valid() && |data| == Times(g.width, g.width) && Shows(buffer, g, data, g.width, 0, 0, 0)
    ensures Picture(buffer, g, data) && PaddingWhite(buffer, g)
  {
  }

  // What the bytes of a picture are, by the bits of the code: `s` pixels a module, `pixel` bytes a pixel, `stride`
  // bytes a row.

  /** The byte at `at` is black if bit 0 of module `m` is set, and white if not. */
  predicate ByteShown(buffer: seq<byte>, code: seq<byte>, at: int, m: int) {
    0 <= at < |buffer| && 0 <= m < |code| && buffer[at] == if code[m] & 1 == 1 then 0x00 else 0xFF
  }

  /** Byte `k` of the pixel in column `x` of row `y`, counted from the top, is black if the bit of module
      (x / s, y / s) is set, and white if not.  The buffer holds the top row first, or `up` the bottom row. */
  predicate BitShown(
    buffer: seq<byte>, code: seq<byte>, width: nat, s: nat, pixel: nat, stride: nat, up: bool, y: nat, x: nat, k: nat)
    requires s > 0
  {
    var row: int := if up then width * s - 1 - y else y;
    ByteShown(buffer, code, row * stride + x * pixel + k, (y / s) * width + x / s)
  }

  /** Byte `c` of the buffer's row `row`. */
  predicate ByteIs(buffer: seq<byte>, stride: nat, row: nat, c: nat, v: byte) {
    row * stride + c < |buffer| && buffer[row * stride + c] == v
  }

  /** The buffer shows the code, top row first, or `up` bottom row first, and white behind each row. */
  ghost predicate ShowsCode(buffer: seq<byte>, code: seq<byte>, width: nat, s: nat, pixel: nat, stride: nat, up: bool)
    requires s > 0
  {
    && |buffer| == width * s * stride
    && (forall y: nat, x: nat, k: nat | y < width * s && x < width * s && k < pixel ::
          BitShown(buffer, code, width, s, pixel, stride, up, y, x, k))
    && (forall row: nat, c: nat | row < width * s && width * s * pixel <= c < stride ::
          ByteIs(buffer, stride, row, c, 0xFF))
  }

  lemma Commuted(g: Grid)
    ensures g.Side() == g.width * g.scale && g.Size() == g.width * g.scale * g.stride
    ensures Times(g.pixel, g.Side()) == g.width * g.scale * g.pixel
  {
    TimesIs(g.scale, g.width);
    TimesIs(g.stride, g.Side());
    TimesIs(g.pixel, g.Side());
  }

  lemma {:induction false} ModuleAt(g: Grid, buffer: seq<byte>, data: seq<byte>, y: nat, x: nat)
    returns (my: nat, mx: nat)
    requires g.Valid() && Picture(buffer, g, data) && y < g.Side() && x < g.Side()
    ensures my == y / g.scale < g.width && mx == x / g.scale < g.width
    ensures PixelIs(buffer, g.Offset(y, x), g.pixel, Shade(data, g.width, my, mx))
  {
    my, mx := y / g.scale, x / g.scale;
    LineOf(g, y);
    LineOf(g, x);
    assert PixelIs(buffer, Sub(g, my, mx, y % g.scale, x % g.scale), g.pixel, Shade(data, g.width, my, mx));
  }

  lemma {:induction false} OffsetIs(g: Grid, y: nat, x: nat)
    ensures g.Offset(y, x) == y * g.stride + x * g.pixel
  {
    TimesIs(g.stride, y);
    TimesIs(g.pixel, x);
  }

  lemma {:induction false} ShadeIs(data: seq<byte>, width: nat, my: nat, mx: nat)
    requires my < width && mx < width && |data| == Times(width, width)
    ensures my * width + mx < |data|
    ensures Shade(data, width, my, mx) == if data[my * width + mx] & 1 == 1 then 0x00 else 0xFF
  {
    SourceInside(width, my, mx);
    TimesIs(width, my);
  }

  lemma {:induction false} ByteFrom(buffer: seq<byte>, g: Grid, code: seq<byte>, row: nat, x: nat, my: nat, mx: nat,
      k: nat)
    requires g.Valid() && |code| == Times(g.width, g.width) && k < g.pixel && my < g.width && mx < g.width
    requires PixelIs(buffer, g.Offset(row, x), g.pixel, Shade(code, g.width, my, mx))
    ensures ByteShown(buffer, code, row * g.stride + x * g.pixel + k, my * g.width + mx)
  {
    OffsetIs(g, row, x);
    ShadeIs(code, g.width, my, mx);
    assert buffer[g.Offset(row, x) + k] == Shade(code, g.width, my, mx);
  }

  lemma {:induction false} BitFrom(
    buffer: seq<byte>, g: Grid, code: seq<byte>, up: bool, row: nat, y: nat, x: nat, k: nat, my: nat, mx: nat)
    requires g.scale > 0 && my == y / g.scale && mx == x / g.scale
    requires row == if up then g.width * g.scale - 1 - y else y
    requires ByteShown(buffer, code, row * g.stride + x * g.pixel + k, my * g.width + mx)
    ensures BitShown(buffer, code, g.width, g.scale, g.pixel, g.stride, up, y, x, k)
  {
  }

  /** In a picture, every byte of pixel (x, y) is black if bit 0 of module (x / scale, y / scale) is set, else
      white. */
  lemma {:induction false} PixelShows(buffer: seq<byte>, g: Grid, data: seq<byte>, y: nat, x: nat, k: nat)
    requires g.Valid() && Picture(buffer, g, data) && y < g.Side() && x < g.Side() && k < g.pixel
    ensures BitShown(buffer, data, g.width, g.scale, g.pixel, g.stride, false, y, x, k)
  {
    var my, mx := ModuleAt(g, buffer, data, y, x);
    ByteFrom(buffer, g, data, y, x, my, mx, k);
    BitFrom(buffer, g, data, false, y, y, x, k, my, mx);
  }

  lemma {:induction false} PaddingIs(buffer: seq<byte>, g: Grid, row: nat, c: nat)
    requires g.Valid() && |buffer| == g.Size() && PaddingWhite(buffer, g) && row < g.Side()
    requires Times(g.pixel, g.Side()) <= c < g.stride
    ensures ByteIs(buffer, g.stride, row, c, 0xFF)
  {
    Below(row, g.stride, g.Side());
    TimesIs(g.stride, row);
    var b := row * g.stride + c;
    DivMod(b, g.stride);
    Unique(b / g.stride, b % g.stride, row, c, g.stride);
  }

  lemma {:induction false} PictureDown(buffer: seq<byte>, g: Grid, data: seq<byte>)
    requires g.Valid() && Picture(buffer, g, data) && PaddingWhite(buffer, g)
    ensures ShowsCode(buffer, data, g.width, g.scale, g.pixel, g.stride, false)
  {
    Commuted(g);
    forall y: nat, x: nat, k: nat | y < g.Side() && x < g.Side() && k < g.pixel
      ensures BitShown(buffer, data, g.width, g.scale, g.pixel, g.stride, false, y, x, k)
    {
      PixelShows(buffer, g, data, y, x, k);
    }
    forall row: nat, c: nat | row < g.Side() && Times(g.pixel, g.Side()) <= c < g.stride
      ensures ByteIs(buffer, g.stride, row, c, 0xFF)
    {
      PaddingIs(buffer, g, row, c);
    }
  }

  /** Where the destination pointer is when module (y, x) is painted. */
  function Dest(g: Grid, y: nat, x: nat): nat {
    Sub(g, y, x, 0, 0)
  }

  lemma Distribute(m: nat, a: nat, b: nat)
    ensures Times(m, a + b) == Times(m, a) + Times(m, b)
    decreases b
  {
    if b > 0 {
      Distribute(m, a, b - 1);
    }
  }

  /** The destination pointer plus the offsets of the inner loops leads to the sub-pixel. */
  lemma PointerAt(g: Grid, y: nat, x: nat, l: nat, n: nat, dest: nat)
    requires dest == Dest(g, y, x)
    ensures dest + n * g.pixel + g.stride * l == Sub(g, y, x, l, n)
  {
    Distribute(g.stride, Times(g.scale, y), l);
    Distribute(g.pixel, Times(g.scale, x), n);
    TimesIs(g.stride, l);
    TimesIs(g.pixel, n);
  }

  lemma NextModule(g: Grid, y: nat, x: nat)
    ensures Dest(g, y, x + 1) == Dest(g, y, x) + g.pixel * g.scale
  {
    Distribute(g.pixel, Times(g.scale, x), g.scale);
    TimesIs(g.pixel, g.scale);
  }

  lemma FirstModule(g: Grid, y: nat)
    ensures Dest(g, y, 0) == g.stride * y * g.scale
  {
    TimesIs(g.stride, Times(g.scale, y));
    TimesIs(g.scale, y);
    Associate(g.stride, y, g.scale);
  }

  lemma Associate(a: nat, b: nat, c: nat)
    ensures a * (c * b) == a * b * c
  {
  }

  /** Where the source pointer is. */
  function Source(width: nat, y: nat, x: nat): nat {
    Times(width, y) + x
  }

  lemma {:induction false} SourceInside(width: nat, y: nat, x: nat)
    requires y < width && x < width
    ensures Source(width, y, x) < Times(width, width)
    ensures Source(width, y, x + 1) == Source(width, y, x) + 1 && Source(width, y, width) == Source(width, y + 1, 0)
  {
    Below(y, width, width);
  }

  /** Three byte stores. */
  method Store24(buffer: array<byte>, pos: nat)
    requires pos + 3 <= buffer.Length
    modifies buffer
    ensures buffer[..] == Paint(old(buffer[..]), pos, 3)
  {
    buffer[pos + 0] := 0;
    buffer[pos + 1] := 0;
    buffer[pos + 2] := 0;
  }

  /** One 32-bit store. */
  method Store32(buffer: array<byte>, pos: nat)
    requires pos + 4 <= buffer.Length
    modifies buffer
    ensures buffer[..] == Paint(old(buffer[..]), pos, 4)
  {
    buffer[pos], buffer[pos + 1], buffer[pos + 2], buffer[pos + 3] := 0, 0, 0, 0;
  }

  /** The square of one dark module. */
  method PaintModule(data: array<byte>, buffer: array<byte>, g: Grid, ghost y: nat, ghost x: nat, dest: nat)
    requires g.Valid() && (g.pixel == 3 || g.pixel == 4) && data != buffer && data.Length == Times(g.width, g.width)
    requires y < g.width && x < g.width && DarkAt(data[..], g.width, y, x)
    requires dest == Dest(g, y, x)
    requires Shows(buffer[..], g, data[..], y, x, 0, 0)
    modifies buffer
    ensures Shows(buffer[..], g, data[..], y, x + 1, 0, 0)
  {
    var l := 0;
    while l < g.scale
      invariant l <= g.scale && Shows(buffer[..], g, data[..], y, x, l, 0)
    {
      var n := 0;
      while n < g.scale
        invariant n <= g.scale && Shows(buffer[..], g, data[..], y, x, l, n)
      {
        PointerAt(g, y, x, l, n, dest);
        SubInside(g, y, x, l, n);
        ghost var before, at := buffer[..], Sub(g, y, x, l, n);
        if g.pixel == 3 {
          Store24(buffer, dest + n * g.pixel + g.stride * l);
        } else {
          Store32(buffer, dest + n * g.pixel + g.stride * l);
        }
        PaintStep(before, g, data[..], y, x, l, n, at, buffer[..]);
        n := n + 1;
      }
      Advance(buffer[..], g, data[..], y, x, l, n, y, x, l + 1, 0);
      l := l + 1;
    }
    Advance(buffer[..], g, data[..], y, x, l, 0, y, x + 1, 0, 0);
  }

  /** One row of modules. */
  method PaintLine(data: array<byte>, buffer: array<byte>, g: Grid, y: nat, src0: nat) returns (src: nat)
    requires g.Valid() && (g.pixel == 3 || g.pixel == 4) && data != buffer && data.Length == Times(g.width, g.width)
    requires y < g.width && src0 == Source(g.width, y, 0) && Shows(buffer[..], g, data[..], y, 0, 0, 0)
    modifies buffer
    ensures src == Source(g.width, y + 1, 0) && Shows(buffer[..], g, data[..], y + 1, 0, 0, 0)
  {
    src := src0;
    FirstModule(g, y);
    var dest := g.stride * y * g.scale;
    var x := 0;
    while x < g.width
      invariant x <= g.width && src == Source(g.width, y, x) && dest == Dest(g, y, x)
      invariant Shows(buffer[..], g, data[..], y, x, 0, 0)
    {
      SourceInside(g.width, y, x);
      NextModule(g, y, x);
      if data[src] & 1 == 1 {
        PaintModule(data, buffer, g, y, x, dest);
      } else {
        Advance(buffer[..], g, data[..], y, x, 0, 0, y, x + 1, 0, 0);
      }
      dest := dest + g.pixel * g.scale;
      src := src + 1;
      x := x + 1;
    }
    SourceInside(g.width, y, 0);
    Advance(buffer[..], g, data[..], y, x, 0, 0, y + 1, 0, 0, 0);
  }

  /** The loops over the modules, with the source pointer at index `src`. */
  method PaintModules(data: array<byte>, buffer: array<byte>, g: Grid)
    requires g.Valid() && (g.pixel == 3 || g.pixel == 4) && data != buffer && data.Length == Times(g.width, g.width)
    requires buffer.Length == g.Size() && forall b | 0 <= b < buffer.Length :: buffer[b] == WHITE
    modifies buffer
    ensures Picture(buffer[..], g, data[..]) && PaddingWhite(buffer[..], g)
    ensures ShowsCode(buffer[..], data[..], g.width, g.scale, g.pixel, g.stride, false)
  {
    StartBlank(buffer[..], g, data[..]);
    var src, y := 0, 0;
    while y < g.width
      invariant y <= g.width && src == Source(g.width, y, 0) && Shows(buffer[..], g, data[..], y, 0, 0, 0)
    {
      src := PaintLine(data, buffer, g, y, src);
      y := y + 1;
    }
    AllShown(buffer[..], g, data[..]);
    PictureDown(buffer[..], g, data[..]);
  }

  // ----- the row reversal -----

  function Row(data: seq<byte>, width: nat, r: nat): (t: seq<byte>)
    requires r < width && |data| == Times(width, width)
    ensures |t| == width
  {
    Below(r, width, width);
    data[Times(width, r)..Times(width, r) + width]
  }

  /** The rows of `data` are those of `was` in the opposite order. */
  ghost predicate Reversed(was: seq<byte>, data: seq<byte>, width: nat) {
    |was| == |data| == Times(width, width)
    && forall r | 0 <= r < width :: Row(data, width, r) == Row(was, width, width - 1 - r)
  }

  /** The sequence with `t` written at `at`. */
  function Splice(data: seq<byte>, at: nat, t: seq<byte>): (r: seq<byte>)
    requires at + |t| <= |data|
    ensures |r| == |data|
  {
    data[..at] + t + data[at + |t|..]
  }

  /** memcpy of the bytes `t`. */
  method Copy(dst: array<byte>, d: nat, src: array<byte>, s: nat, n: nat, ghost t: seq<byte>)
    requires d + n <= dst.Length && s + n <= src.Length && (dst == src ==> d + n <= s || s + n <= d)
    requires t == src[s..s + n]
    modifies dst
    ensures dst[..] == Splice(old(dst[..]), d, t)
  {
    forall k | 0 <= k < n {
      dst[d + k] := src[s + k];
    }
  }

  lemma {:induction false} OtherRow(data: seq<byte>, width: nat, r: nat, t: seq<byte>, data': seq<byte>, q: nat,
      at: nat, at': nat)
    requires r < width && q < width && q != r && |data| == |data'| == Times(width, width) && |t| == width
    requires at == Times(width, r) && at' == Times(width, q) && at + width <= |data|
    requires data' == Splice(data, at, t)
    ensures Row(data', width, q) == Row(data, width, q)
  {
    if q < r {
      Below(q, width, r);
    } else {
      Below(r, width, q);
    }
    Below(q, width, width);
    assert data'[at'..at' + width] == data[at'..at' + width];
  }

  /** Writing one row leaves the others alone. */
  lemma {:induction false} WriteRow(data: seq<byte>, width: nat, r: nat, t: seq<byte>, data': seq<byte>)
    requires r < width && |data| == Times(width, width) && |t| == width && Times(width, r) + width <= |data|
    requires data' == Splice(data, Times(width, r), t)
    ensures |data'| == |data| && Row(data', width, r) == t
    ensures forall q | 0 <= q < width && q != r :: Row(data', width, q) == Row(data, width, q)
  {
    forall q | 0 <= q < width && q != r ensures Row(data', width, q) == Row(data, width, q) {
      OtherRow(data, width, r, t, data', q, Times(width, r), Times(width, q));
    }
  }

  /** The first `x` swaps have been done. */
  ghost predicate Swapped(was: seq<byte>, data: seq<byte>, width: nat, x: nat) {
    |was| == |data| == Times(width, width)
    && forall r | 0 <= r < width ::
         Row(data, width, r) == Row(was, width, if r < x || r >= width - x then width - 1 - r else r)
  }

  lemma SwapDone(was: seq<byte>, data: seq<byte>, data': seq<byte>, width: nat, x: nat)
    requires x < width / 2 && Swapped(was, data, width, x) && |data'| == |data|
    requires Row(data', width, x) == Row(data, width, width - 1 - x)
    requires Row(data', width, width - 1 - x) == Row(data, width, x)
    requires forall q | 0 <= q < width && q != x && q != width - 1 - x :: Row(data', width, q) == Row(data, width, q)
    ensures Swapped(was, data', width, x + 1)
  {
    var z := width - 1 - x;
    assert Row(data, width, x) == Row(was, width, x) && Row(data, width, z) == Row(was, width, z);
  }

  /** Swaps rows `x` and `width - 1 - x` through the scratch buffer. */
  method SwapRows(data: array<byte>, scratch: array<byte>, width: nat, x: nat)
    requires data != scratch && data.Length == Times(width, width) && scratch.Length >= width
    requires x < width / 2
    modifies data, scratch
    ensures Row(data[..], width, x) == Row(old(data[..]), width, width - 1 - x)
    ensures Row(data[..], width, width - 1 - x) == Row(old(data[..]), width, x)
    ensures forall q | 0 <= q < width && q != x
            && q != width - 1 - x :: Row(data[..], width, q) == Row(old(data[..]), width, q)
  {
    var z := width - 1 - x;
    TimesIs(width, x);
    TimesIs(width, z);
    SwapBlocks(data, scratch, width, x, z, width * x, width * z);
  }

  /** The three copies, between the rows that start at `atX` and `atZ`. */
  method SwapBlocks(data: array<byte>, scratch: array<byte>, width: nat, x: nat, z: nat, atX: nat, atZ: nat)
    requires data != scratch && data.Length == Times(width, width) && scratch.Length >= width
    requires x < z < width && atX == Times(width, x) && atZ == Times(width, z)
    modifies data, scratch
    ensures Row(data[..], width, x) == Row(old(data[..]), width, z)
    ensures Row(data[..], width, z) == Row(old(data[..]), width, x)
    ensures forall q | 0 <= q < width && q != x && q != z :: Row(data[..], width, q) == Row(old(data[..]), width, q)
  {
    Below(x, width, width);
    Below(z, width, width);
    Below(x, width, z);
    ghost var d0 := data[..];
    ghost var rowX, rowZ := Row(d0, width, x), Row(d0, width, z);
    Copy(scratch, 0, data, atX, width, rowX);
    SpliceStart(old(scratch[..]), rowX);
    Copy(data, atX, data, atZ, width, rowZ);
    ghost var d1 := data[..];
    WriteRow(d0, width, x, rowZ, d1);
    assert scratch[0..width] == rowX;
    Copy(data, atZ, scratch, 0, width, rowX);
    WriteRow(d1, width, z, rowX, data[..]);
  }

  lemma SpliceStart(data: seq<byte>, t: seq<byte>)
    requires |t| <= |data|
    ensures Splice(data, 0, t)[0..|t|] == t
  {
  }

  /** The swap loop. */
  method ReverseRows(data: array<byte>, scratch: array<byte>, width: nat)
    requires data != scratch && data.Length == Times(width, width) && scratch.Length >= width
    modifies data, scratch
    ensures Reversed(old(data[..]), data[..], width)
  {
    ghost var was := data[..];
    var x := 0;
    while x < width / 2
      invariant x <= width / 2 && Swapped(was, data[..], width, x)
    {
      ghost var before := data[..];
      SwapRows(data, scratch, width, x);
      SwapDone(was, before, data[..], width, x);
      x := x + 1;
    }
    SwappedAll(was, data[..], width);
  }

  lemma SwappedAll(was: seq<byte>, data: seq<byte>, width: nat)
    requires Swapped(was, data, width, width / 2)
    ensures Reversed(was, data, width)
  {
  }

  lemma DarkReversed(was: seq<byte>, data: seq<byte>, width: nat, my: nat, mx: nat)
    requires Reversed(was, data, width) && my < width && mx < width
    ensures DarkAt(data, width, my, mx) == DarkAt(was, width, width - 1 - my, mx)
  {
    Below(my, width, width);
    Below(width - 1 - my, width, width);
    assert data[Source(width, my, mx)] == Row(data, width, my)[mx];
    assert was[Source(width, width - 1 - my, mx)] == Row(was, width, width - 1 - my)[mx];
  }

  // ----- the two renderers -----

  /** Pixels per module. */
  function ScaleOf(width: nat): (s: nat)
    requires width > 0
    ensures s >= 1
  {
    if IMG_MAX_WIDTH / width < 1 then 1 else IMG_MAX_WIDTH / width
  }

  /** A row length rounded up to a multiple of four. */
  function RoundUp(n: nat): (r: nat)
    ensures n <= r < n + 4 && r % 4 == 0
  {
    if n % 4 != 0 then (n / 4 + 1) * 4 else n
  }

  function FileGrid(width: nat): (g: Grid)
    requires width > 0
    ensures g.Valid()
  {
    Grid(width, ScaleOf(width), 3, RoundUp(Times(3, Times(ScaleOf(width), width))))
  }

  function BitmapGrid(width: nat): (g: Grid)
    requires width > 0
    ensures g.Valid()
  {
    Grid(width, ScaleOf(width), 4, Times(4, Times(ScaleOf(width), width)))
  }

  lemma GridHoldsRow(g: Grid)
    requires g.Valid()
    ensures g.Size() >= g.width
  {
    TimesIs(g.scale, g.width);
    TimesIs(g.stride, g.Side());
    TimesIs(g.pixel, g.Side());
    Grows(g.scale, g.width);
    Grows(g.pixel, g.Side());
    Grows(g.Side(), g.stride);
  }

  lemma Grows(a: nat, b: nat)
    ensures a > 0 ==> a * b >= b
    ensures b > 0 ==> a * b >= a
  {
  }

  /** The byte counts that the code computes are those of the grid. */
  lemma {:induction false} GridSizes(width: nat, scale: nat, pixel: nat)
    ensures Times(pixel, Times(scale, width)) == width * scale * pixel
  {
    TimesIs(scale, width);
    TimesIs(pixel, Times(scale, width));
    Associate(pixel, scale, width);
  }

  lemma GridBytes(g: Grid)
    ensures g.Size() == g.stride * g.width * g.scale
  {
    TimesIs(g.scale, g.width);
    TimesIs(g.stride, g.Side());
    Associate(g.stride, g.width, g.scale);
  }

  /** Row `i` of module row `my` counted from the top is row `scale - 1 - i` of module row `width - 1 - my`
      counted from the bottom. */
  lemma MirrorLine(g: Grid, my: nat, i: nat)
    requires my < g.width && i < g.scale
    ensures Line(g, my, i) < g.Side()
    ensures g.Side() - 1 - Line(g, my, i) == Line(g, g.width - 1 - my, g.scale - 1 - i)
  {
    LineInside(g, my, i);
    Distribute(g.scale, my + 1, g.width - 1 - my);
  }

  /** Row `y` from the top of the picture of the reversed code is row `y` from the bottom of the code's picture. */
  lemma {:induction false} UpsideDown(
    was: seq<byte>, data: seq<byte>, buffer: seq<byte>, g: Grid, y: nat, x: nat, k: nat)
    requires g.Valid() && Picture(buffer, g, data) && Reversed(was, data, g.width)
    requires y < g.Side() && x < g.Side() && k < g.pixel
    ensures BitShown(buffer, was, g.width, g.scale, g.pixel, g.stride, true, y, x, k)
  {
    var row, my, mx := g.Side() - 1 - y, y / g.scale, x / g.scale;
    LineOf(g, y);
    LineOf(g, x);
    MirrorLine(g, my, y % g.scale);
    LineOf(g, row);
    LinesApart(g, row / g.scale, row % g.scale, g.width - 1 - my, g.scale - 1 - y % g.scale);
    var my', mx' := ModuleAt(g, buffer, data, row, x);
    DarkReversed(was, data, g.width, g.width - 1 - my, mx);
    ByteFrom(buffer, g, was, row, x, my, mx, k);
    Commuted(g);
    BitFrom(buffer, g, was, true, row, y, x, k, my, mx);
  }

  lemma {:induction false} PictureUp(was: seq<byte>, data: seq<byte>, buffer: seq<byte>, g: Grid)
    requires g.Valid() && Picture(buffer, g, data) && PaddingWhite(buffer, g) && Reversed(was, data, g.width)
    ensures ShowsCode(buffer, was, g.width, g.scale, g.pixel, g.stride, true)
  {
    Commuted(g);
    forall y: nat, x: nat, k: nat | y < g.Side() && x < g.Side() && k < g.pixel
      ensures BitShown(buffer, was, g.width, g.scale, g.pixel, g.stride, true, y, x, k)
    {
      UpsideDown(was, data, buffer, g, y, x, k);
    }
    forall row: nat, c: nat | row < g.Side() && Times(g.pixel, g.Side()) <= c < g.stride
      ensures ByteIs(buffer, g.stride, row, c, 0xFF)
    {
      PaddingIs(buffer, g, row, c);
    }
  }

  lemma RoundedUp(n: nat)
    ensures RoundUp(n) == (n + 3) / 4 * 4
  {
  }

  /** The sizes that the code computes, for a code of `width` modules: as many pixels a module as fit in 400, at least
      one, and rows of whole groups of four bytes. */
  lemma {:induction false} GridsAre(width: nat, s: nat)
    requires width > 0 && s == if width > 400 then 1 else 400 / width
    ensures ScaleOf(width) == s && BitmapGrid(width) == Grid(width, s, 4, width * s * 4)
    ensures FileGrid(width) == Grid(width, s, 3, (width * s * 3 + 3) / 4 * 4)
  {
    ScaleIs(width);
    GridSizes(width, s, 3);
    GridSizes(width, s, 4);
    RoundedUp(width * s * 3);
  }

  lemma ScaleIs(width: nat)
    requires width > 0
    ensures ScaleOf(width) == if width > 400 then 1 else 400 / width
  {
  }

  /** generate_qr_code_image_file: the rows of the matrix are reversed, then painted at three bytes a pixel. */
  method RenderFile(data: array<byte>, width: nat) returns (rgb: array<byte>)
    requires width > 0 && data.Length == width * width
    modifies data
    ensures fresh(rgb) && Reversed(old(data[..]), data[..], width)
    ensures Picture(rgb[..], FileGrid(width), data[..]) && PaddingWhite(rgb[..], FileGrid(width))
    ensures var s := if width > 400 then 1 else 400 / width;
      ShowsCode(rgb[..], old(data[..]), width, s, 3, (width * s * 3 + 3) / 4 * 4, true)
  {
    var scale := IMG_MAX_WIDTH / width;
    if scale < 1 {
      scale := 1;
    }
    var stride := width * scale * 3;
    GridSizes(width, scale, 3);
    if stride % 4 != 0 {
      stride := (stride / 4 + 1) * 4;
    }
    var g := Grid(width, scale, 3, stride);
    GridHoldsRow(g);
    GridBytes(g);
    TimesIs(width, width);
    rgb := new byte[stride * width * scale];
    ReverseRows(data, rgb, width);
    ghost var reversed := data[..];
    forall b | 0 <= b < rgb.Length {
      rgb[b] := WHITE;
    }
    PaintModules(data, rgb, g);
    assert data[..] == reversed;
    GridsAre(width, g.scale);
    PictureUp(old(data[..]), data[..], rgb[..], g);
  }

  /** generate_qr_code_image: painted at four bytes a pixel, top row first. */
  method RenderBitmap(data: array<byte>, width: nat) returns (rgb: array<byte>)
    requires width > 0 && data.Length == width * width
    ensures fresh(rgb)
    ensures Picture(rgb[..], BitmapGrid(width), data[..])
    ensures var s := if width > 400 then 1 else 400 / width;
      ShowsCode(rgb[..], data[..], width, s, 4, width * s * 4, false)
  {
    var scale := IMG_MAX_WIDTH / width;
    if scale < 1 {
      scale := 1;
    }
    var stride := width * scale * 4;
    GridSizes(width, scale, 4);
    var g := Grid(width, scale, 4, stride);
    GridBytes(g);
    TimesIs(width, width);
    rgb := new byte[stride * width * scale];
    forall b | 0 <= b < rgb.Length {
      rgb[b] := WHITE;
    }
    PaintModules(data, rgb, g);
    GridsAre(width, g.scale);
  }

  /** Pixel (x, y) of the bitmap and the pixel of the file that is as far from the bottom look the same. */
  ghost predicate SameAt(file: seq<byte>, bitmap: seq<byte>, width: nat, side: nat, y: nat, x: nat)
    requires width > 0 && y < side
  {
    exists v: byte ::
      && PixelIs(bitmap, BitmapGrid(width).Offset(y, x), 4, v)
      && PixelIs(file, FileGrid(width).Offset(side - 1 - y, x), 3, v)
  }

  /** Sub-pixel (i, j) of module (my, mx) in both buffers. */
  lemma SameSub(
    was: seq<byte>, data: seq<byte>, width: nat, file: seq<byte>, bitmap: seq<byte>, f: Grid, b: Grid,
    my: nat, mx: nat, i: nat, j: nat) returns (v: byte)
    requires f.Valid() && b.Valid() && f.width == b.width == width && f.scale == b.scale
    requires Reversed(was, data, width) && Picture(file, f, data) && Picture(bitmap, b, was)
    requires my < width && mx < width && i < b.scale && j < b.scale
    ensures PixelIs(bitmap, b.Offset(Line(b, my, i), Line(b, mx, j)), b.pixel, v)
    ensures PixelIs(file, f.Offset(Line(f, width - 1 - my, f.scale - 1 - i), Line(f, mx, j)), f.pixel, v)
  {
    v := Shade(was, width, my, mx);
    DarkReversed(was, data, width, width - 1 - my, mx);
    assert PixelIs(bitmap, Sub(b, my, mx, i, j), b.pixel, v);
    assert PixelIs(file, Sub(f, width - 1 - my, mx, f.scale - 1 - i, j), f.pixel, v);
  }

  /** The value of pixel (x, y) in both buffers. */
  lemma SamePixel(was: seq<byte>, data: seq<byte>, width: nat, file: seq<byte>, bitmap: seq<byte>, side: nat, y: nat,
      x: nat)
    returns (v: byte)
    requires width > 0 && Reversed(was, data, width) && side == Times(ScaleOf(width), width)
    requires Picture(file, FileGrid(width), data) && Picture(bitmap, BitmapGrid(width), was)
    requires y < side && x < side
    ensures PixelIs(bitmap, BitmapGrid(width).Offset(y, x), 4, v)
    ensures PixelIs(file, FileGrid(width).Offset(side - 1 - y, x), 3, v)
  {
    var f, b := FileGrid(width), BitmapGrid(width);
    LineOf(b, y);
    LineOf(b, x);
    var my, mx, i, j := y / b.scale, x / b.scale, y % b.scale, x % b.scale;
    MirrorLine(f, my, i);
    v := SameSub(was, data, width, file, bitmap, f, b, my, mx, i, j);
  }

  /** Read from the bottom row up, the file shows pixel for pixel the picture of the 32-bit bitmap. */
  lemma {:induction false} SamePicture(was: seq<byte>, data: seq<byte>, width: nat, file: seq<byte>,
      bitmap: seq<byte>, side: nat)
    requires width > 0 && Reversed(was, data, width) && side == Times(ScaleOf(width), width)
    requires Picture(file, FileGrid(width), data) && Picture(bitmap, BitmapGrid(width), was)
    ensures forall y: nat, x: nat | y < side && x < side :: SameAt(file, bitmap, width, side, y, x)
  {
    forall y: nat, x: nat | y < side && x < side ensures SameAt(file, bitmap, width, side, y, x) {
      var v := SamePixel(was, data, width, file, bitmap, side, y, x);
    }
  }

  /** Both renderings of one code: the file, read from the bottom row up, shows what the bitmap shows.  Writing the
      file reverses the matrix, so the bitmap is made first. */
  method RenderBoth(data: array<byte>, width: nat) returns (bitmap: array<byte>, file: array<byte>)
    requires width > 0 && data.Length == width * width
    modifies data
    ensures Picture(bitmap[..], BitmapGrid(width), old(data[..]))
    ensures var s := if width > 400 then 1 else 400 / width;
      && ShowsCode(bitmap[..], old(data[..]), width, s, 4, width * s * 4, false)
      && ShowsCode(file[..], old(data[..]), width, s, 3, (width * s * 3 + 3) / 4 * 4, true)
    ensures var side := Times(ScaleOf(width), width);
      forall y: nat, x: nat | y < side && x < side :: SameAt(file[..], bitmap[..], width, side, y, x)
  {
    ghost var was := data[..];
    bitmap := RenderBitmap(data, width);
    ghost var picture := bitmap[..];
    file := RenderFile(data, width);
    assert bitmap[..] == picture;
    SamePicture(was, data[..], width, file[..], picture, Times(ScaleOf(width), width));
  }
}
