/** EX06-04: draw_rect and capture_to_fb, which fill the frame buffer in place. */
module FrameBuffer {
  import opened Canvas
  import opened Yuyv

  function ColourPixels(depth: int, colour: bv32): Pixels<bv8>
    requires IsDepth(depth)
  {
    (i, j) => ColourBytes(depth, colour)
  }

  function ByteAt(image: seq<bv8>, n: int): int {
    if 0 <= n < |image| then image[n] as int else 0
  }

  // The pixel in row i and column j of a frame of YUYV data: its own luma, and the chroma of
  // the pair of pixels it belongs to.
  function FramePixel(depth: int, image: seq<bv8>, width: nat, i: int, j: int): (s: seq<bv8>)
    requires IsDepth(depth)
    ensures |s| == depth / 8
  {
    var pair := i * width * 2 + j / 2 * 4;
    var y, u, v := ByteAt(image, pair + j % 2 * 2), ByteAt(image, pair + 1), ByteAt(image, pair + 3);
    PixelBytes(depth, Red(y, v), Green(y, u, v), Blue(y, u))
  }

  function FramePixels(depth: int, image: seq<bv8>, width: nat): Pixels<bv8>
    requires IsDepth(depth)
  {
    (i, j) => FramePixel(depth, image, width, i, j)
  }

  method StoreBytes(fb: array<bv8>, at: nat, s: seq<bv8>)
    requires at + |s| <= fb.Length
    modifies fb
    ensures fb[..] == Patched(old(fb[..]), at, s)
  {
    for o := 0 to |s|
      invariant fb[..] == Patched(old(fb[..]), at, s[..o])
    {
      fb[at + o] := s[o];
      assert s[..o + 1] == s[..o] + [s[o]];
    }
    assert s[..|s|] == s;
  }

  /** draw_rect. */
  method DrawRect(x: nat, y: nat, w: nat, h: nat, colour: bv32, depth: int, lineLength: int, fb: array<bv8>)
    requires IsDepth(depth) && 0 < lineLength && (x + w) * (depth / 8) <= lineLength
    requires InBounds(fb.Length, lineLength, depth / 8, Area(x, y, w, h))
    modifies fb
    ensures fb[..] == Paint(old(fb[..]), lineLength, depth / 8, Area(x, y, w, h), ColourPixels(depth, colour))
  {
    ghost var was, size, a, pixels := fb[..], depth / 8, Area(x, y, w, h), ColourPixels(depth, colour);
    DrawNothing(was, lineLength, size, a, pixels);
    for yy := y to y + h
      invariant fb[..] == Drawn(was, lineLength, size, a, pixels, yy - y, 0)
    {
      for xx := x to x + w
        invariant fb[..] == Drawn(was, lineLength, size, a, pixels, yy - y, xx - x)
      {
        PixelInBounds(fb.Length, lineLength, size, a, yy - y, xx - x);
        var location := xx * (depth / 8) + yy * lineLength;
        DrawOne(was, lineLength, size, a, pixels, yy - y, xx - x, location);
        StoreBytes(fb, location, ColourBytes(depth, colour));
      }
      DrawRow(was, lineLength, size, a, pixels, yy - y);
    }
  }

  // The components of one pixel, by the statements of the source: assign, then clamp.
  method Convert(Y: int, U: int, V: int) returns (R: int, G: int, B: int)
    ensures R == Red(Y, V) && G == Green(Y, U, V) && B == Blue(Y, U)
  {
    R := Truncate(Y as real + 1.4075 * (V - 128) as real);
    if R > 255 { R := 255; }
    if R < 0 { R := 0; }
    G := Y - CDiv(3455 * (U - 128), 10000) - CDiv(7169 * (V - 128), 10000);
    if G > 255 { G := 255; }
    if G < 0 { G := 0; }
    B := Y + CDiv(17790 * (U - 128), 10000);
    if B > 255 { B := 255; }
    if B < 0 { B := 0; }
  }

  // The address capture_to_fb computes, row by xres and depth, is the one of draw_rect when a
  // line has no padding.
  lemma Address(row: nat, col: nat, xres: nat, depth: int)
    requires IsDepth(depth)
    ensures (row * xres + col) * depth / 8 == row * (xres * (depth / 8)) + col * (depth / 8)
    ensures (row * xres + col) * depth >= 0
  {
    var size := depth / 8;
    assert depth == 8 * size;
    var n := row * xres + col;
    assert n * depth == 8 * (n * size);
    assert n * size == (row * xres) * size + col * size;
    assert (row * xres) * size == row * (xres * size);
  }

  // Whether the frame's window lies on the screen and the buffers have the sizes the driver
  // and fb_init give them.
  ghost predicate OnScreen(x: nat, y: nat, width: nat, height: nat, xres: nat, yres: nat, depth: int, length: int,
                           frame: int)
  {
    && IsDepth(depth) && 0 < xres
    && x + width <= xres && y + height <= yres
    && length == xres * yres * depth / 8
    && frame >= width * height * 2
  }

  // A store of capture_to_fb for pixel c of row i lies within the bytes that fb_init maps.
  ghost predicate StoreInMap(i: nat, c: nat, x: nat, y: nat, xres: nat, yres: nat, depth: int)
    requires IsDepth(depth)
  {
    ((i + y) * xres + c + x) * depth / 8 + depth / 8 <= xres * yres * depth / 8
  }

  lemma PixelInMap(i: nat, c: nat, x: nat, y: nat, xres: nat, yres: nat, depth: int)
    requires IsDepth(depth)
    ensures StoreInMap(i, c, x, y, xres, yres, depth) <==> (i + y) * xres + c + x < yres * xres
  {
    var size, n, all := depth / 8, (i + y) * xres + c + x, yres * xres;
    Address(0, n, 0, depth);
    Address(0, all, 0, depth);
    assert all == xres * yres;
    if n < all {
      Multiples(n, all, size);
    } else if all < n {
      Multiples(all, n, size);
    }
  }

  /** The position of the window comes from the options and is not checked. The stores of
      capture_to_fb all lie within the mapped bytes exactly when the last pixel of the last row
      does, or there is none. */
  lemma CaptureStaysInMap(x: nat, y: nat, width: nat, height: nat, xres: nat, yres: nat, depth: int)
    requires IsDepth(depth)
    ensures (forall i: nat, c: nat :: i < height && c < width / 2 * 2 ==> StoreInMap(i, c, x, y, xres, yres, depth))
            <==> height == 0 || width < 2 || (y + height - 1) * xres + x + width / 2 * 2 <= yres * xres
  {
    var cols := width / 2 * 2;
    if (y + height - 1) * xres + x + cols <= yres * xres {
      forall i: nat, c: nat | i < height && c < cols
        ensures StoreInMap(i, c, x, y, xres, yres, depth)
      {
        PixelInMap(i, c, x, y, xres, yres, depth);
        if i + y < y + height - 1 {
          Multiples(i + y, y + height - 1, xres);
        }
      }
    } else if 0 < height && 2 <= width {
      PixelInMap(height - 1, cols - 1, x, y, xres, yres, depth);
      assert !StoreInMap(height - 1, cols - 1, x, y, xres, yres, depth);
    }
  }

  // The window drawn: whole pairs of pixels only.
  function Window(x: nat, y: nat, width: nat, height: nat): Area {
    Area(x, y, width / 2 * 2, height)
  }

  lemma WindowFits(x: nat, y: nat, width: nat, height: nat, xres: nat, yres: nat, depth: int, length: int, frame: int)
    requires OnScreen(x, y, width, height, xres, yres, depth, length, frame)
    ensures 0 < xres * (depth / 8) && (x + width / 2 * 2) * (depth / 8) <= xres * (depth / 8)
    ensures InBounds(length, xres * (depth / 8), depth / 8, Window(x, y, width, height))
  {
    var size := depth / 8;
    var stride, cols := xres * size, width / 2 * 2;
    var area := Window(x, y, width, height);
    assert cols <= width;
    if x + cols < xres {
      Multiples(x + cols, xres, size);
    }
    Address(yres, 0, xres, depth);
    assert yres * xres == xres * yres;
    assert length == yres * stride;
    if 0 < height {
      Multiples(y + height - 1, yres, stride);
    }
  }

  lemma PairInFrame(width: nat, height: nat, i: nat, j: nat)
    requires i < height && j < width / 2
    ensures 0 <= i * width * 2 + j * 4 && i * width * 2 + j * 4 + 4 <= width * height * 2
  {
    Multiples(i, height, width);
    assert height * width == width * height;
    assert 0 <= i * width;
  }

  // The word the source packs and stores.
  method Pack(R: int, G: int, B: int, depth: int) returns (bytes: seq<bv8>)
    requires IsDepth(depth) && 0 <= R <= 255 && 0 <= G <= 255 && 0 <= B <= 255
    ensures bytes == PixelBytes(depth, R, G, B)
  {
    hide Bytes32, Bytes16, Word888, Word565;
    if depth == 32 {
      var rgb888: bv32 := Word888(R as bv32, G as bv32, B as bv32);
      bytes := Bytes32(rgb888);
    } else {
      var rgb565: bv16 := Word565(R as bv32, G as bv32, B as bv32);
      bytes := Bytes16(rgb565);
    }
  }

  // One pixel of a pair, converted, packed and stored.
  method StorePixel(fb: array<bv8>, at: nat, Y: int, U: int, V: int, depth: int)
    requires IsDepth(depth) && at + depth / 8 <= fb.Length
    modifies fb
    ensures fb[..] == Patched(old(fb[..]), at, PixelBytes(depth, Red(Y, V), Green(Y, U, V), Blue(Y, U)))
  {
    hide Red, Green, Blue, PixelBytes;
    var R, G, B := Convert(Y, U, V);
    var bytes := Pack(R, G, B, depth);
    StoreBytes(fb, at, bytes);
  }

  // The four bytes at an address of the frame, through one 32-bit load.
  method LoadPair(image: seq<bv8>, at: nat) returns (Y0: int, U: int, Y1: int, V: int)
    requires at + 4 <= |image|
    ensures Y0 == ByteAt(image, at) && U == ByteAt(image, at + 1)
    ensures Y1 == ByteAt(image, at + 2) && V == ByteAt(image, at + 3)
  {
    var yuyv := Load32(image[at], image[at + 1], image[at + 2], image[at + 3]);
    LoadedBytes(image[at], image[at + 1], image[at + 2], image[at + 3]);
    Y0, U := ((yuyv & 0xff) as bv8) as int, (((yuyv >> 8) & 0xff) as bv8) as int;
    Y1, V := (((yuyv >> 16) & 0xff) as bv8) as int, (((yuyv >> 24) & 0xff) as bv8) as int;
  }

  // The two pixels of a pair share its chroma.
  lemma PairPixels(depth: int, image: seq<bv8>, width: nat, i: nat, j: nat)
    requires IsDepth(depth)
    ensures var at := i * width * 2 + j * 4;
            var y0, u, y1, v := ByteAt(image, at), ByteAt(image, at + 1), ByteAt(image, at + 2), ByteAt(image, at + 3);
            && FramePixels(depth, image, width)(i, j * 2) ==
               PixelBytes(depth, Red(y0, v), Green(y0, u, v), Blue(y0, u))
            && FramePixels(depth, image, width)(i, j * 2 + 1) ==
               PixelBytes(depth, Red(y1, v), Green(y1, u, v), Blue(y1, u))
  {
    hide PixelBytes, Red, Green, Blue;
    assert j * 2 / 2 == j && (j * 2 + 1) / 2 == j && j * 2 % 2 == 0 && (j * 2 + 1) % 2 == 1;
  }

  // The state of the drawing at pixel c of row i.
  ghost predicate CapturedTo(fb: seq<bv8>, was: seq<bv8>, image: seq<bv8>, x: nat, y: nat, width: nat, height: nat,
                             xres: nat, depth: int, i: nat, c: nat)
  {
    && IsDepth(depth)
    && Fits(xres * (depth / 8), depth / 8, Window(x, y, width, height), FramePixels(depth, image, width))
    && |was| == |fb|
    && fb == Drawn(was, xres * (depth / 8), depth / 8, Window(x, y, width, height),
                   FramePixels(depth, image, width), i, c)
  }

  // One half of the inner loop's body: pixel c of row i, from its luma and the chroma of its pair.
  method CapturePixel(image: seq<bv8>, x: nat, y: nat, width: nat, height: nat, xres: nat, yres: nat, depth: int,
                      fb: array<bv8>, i: nat, c: nat, Y: int, U: int, V: int, ghost was: seq<bv8>)
    requires OnScreen(x, y, width, height, xres, yres, depth, fb.Length, |image|)
    requires i < height && c < width / 2 * 2
    requires CapturedTo(fb[..], was, image, x, y, width, height, xres, depth, i, c)
    requires FramePixels(depth, image, width)(i, c) == PixelBytes(depth, Red(Y, V), Green(Y, U, V), Blue(Y, U))
    modifies fb
    ensures CapturedTo(fb[..], was, image, x, y, width, height, xres, depth, i, c + 1)
  {
    hide FramePixel, PixelBytes, Red, Green, Blue;
    WindowFits(x, y, width, height, xres, yres, depth, fb.Length, |image|);
    Address(i + y, c + x, xres, depth);
    var at := ((i + y) * xres + c + x) * depth / 8;
    DrawOne(was, xres * (depth / 8), depth / 8, Window(x, y, width, height),
            FramePixels(depth, image, width), i, c, at);
    StorePixel(fb, at, Y, U, V, depth);
  }

  // One round of the inner loop: both pixels of pair j in row i.
  method CapturePair(image: seq<bv8>, x: nat, y: nat, width: nat, height: nat, xres: nat, yres: nat, depth: int,
                     fb: array<bv8>, i: nat, j: nat, ghost was: seq<bv8>)
    requires OnScreen(x, y, width, height, xres, yres, depth, fb.Length, |image|)
    requires i < height && j < width / 2
    requires CapturedTo(fb[..], was, image, x, y, width, height, xres, depth, i, j * 2)
    modifies fb
    ensures CapturedTo(fb[..], was, image, x, y, width, height, xres, depth, i, j * 2 + 2)
  {
    hide CapturedTo, FramePixel, PixelBytes, Red, Green, Blue;
    PairInFrame(width, height, i, j);
    PairPixels(depth, image, width, i, j);
    var Y, U, Y', V := LoadPair(image, i * width * 2 + j * 4);
    CapturePixel(image, x, y, width, height, xres, yres, depth, fb, i, j * 2, Y, U, V, was);
    CapturePixel(image, x, y, width, height, xres, yres, depth, fb, i, j * 2 + 1, Y', U, V, was);
  }

  /** capture_to_fb: no access leaves the buffers, the window shows the frame, and every other
      byte is as before. */
  method CaptureToFb(image: seq<bv8>, x: nat, y: nat, width: nat, height: nat, xres: nat, yres: nat, depth: int,
                     fb: array<bv8>)
    requires OnScreen(x, y, width, height, xres, yres, depth, fb.Length, |image|)
    modifies fb
    ensures Fits(xres * (depth / 8), depth / 8, Window(x, y, width, height), FramePixels(depth, image, width))
    ensures fb[..] == Paint(old(fb[..]), xres * (depth / 8), depth / 8, Window(x, y, width, height),
                            FramePixels(depth, image, width))
  {
    hide FramePixel;
    WindowFits(x, y, width, height, xres, yres, depth, fb.Length, |image|);
    ghost var was, size, a, pixels := fb[..], depth / 8, Window(x, y, width, height), FramePixels(depth, image, width);
    DrawNothing(was, xres * size, size, a, pixels);
    for i := 0 to height
      invariant CapturedTo(fb[..], was, image, x, y, width, height, xres, depth, i, 0)
    {
      for j := 0 to width / 2
        invariant CapturedTo(fb[..], was, image, x, y, width, height, xres, depth, i, j * 2)
      {
        CapturePair(image, x, y, width, height, xres, yres, depth, fb, i, j, was);
      }
      DrawRow(was, xres * size, size, a, pixels, i);
    }
  }

  /** The pixel in row i and column j of a frame is packed from its own luma, two bytes a pixel
      into the row, and from the chroma of the pair it is in. */
  lemma FrameSource(depth: int, image: seq<bv8>, width: nat, height: nat, i: nat, j: nat)
    requires IsDepth(depth) && i < height && j < width / 2 * 2 && |image| >= width * height * 2
    ensures var row := i * width * 2;
            && 0 <= row && row + j * 2 < |image| && row + j / 2 * 4 + 3 < |image|
            && var Y, U, V := image[row + j * 2], image[row + j / 2 * 4 + 1], image[row + j / 2 * 4 + 3];
               FramePixels(depth, image, width)(i, j) ==
               PixelBytes(depth, Red(Y as int, V as int), Green(Y as int, U as int, V as int), Blue(Y as int, U as int))
  {
    hide PixelBytes, Red, Green, Blue;
    PairInFrame(width, height, i, j / 2);
    assert j / 2 * 4 + j % 2 * 2 == j * 2;
  }

  lemma WindowArea(x: nat, y: nat, width: nat, height: nat, xres: nat, yres: nat, depth: int, length: int, frame: int)
    requires OnScreen(x, y, width, height, xres, yres, depth, length, frame)
    ensures IsDepth(depth) && InBounds(length, xres * (depth / 8), depth / 8, Window(x, y, width, height))
    ensures Window(x, y, width, height) == Area(x, y, width / 2 * 2, height)
  {
    WindowFits(x, y, width, height, xres, yres, depth, length, frame);
  }

  lemma WindowPixel(was: seq<bv8>, fb: seq<bv8>, stride: int, size: int, a: Area, pixels: Pixels<bv8>,
                    i: nat, j: nat, row: int, col: int)
    requires Fits(stride, size, a, pixels) && InBounds(|was|, stride, size, a) && i < a.height && j < a.width
    requires fb == Paint(was, stride, size, a, pixels) && row == a.y + i && col == a.x + j
    ensures 0 <= row * stride + col * size <= row * stride + col * size + size <= |fb|
    ensures fb[row * stride + col * size..row * stride + col * size + size] == pixels(i, j)
  {
    PaintedPixel(was, stride, size, a, pixels, i, j);
  }

  /** What a frame leaves on the screen: in the window each pixel of the frame, in its place. */
  lemma WindowShows(was: seq<bv8>, fb: seq<bv8>, image: seq<bv8>, x: nat, y: nat, width: nat, height: nat,
                    xres: nat, yres: nat, depth: int, stride: int, size: int, i: nat, j: nat)
    requires OnScreen(x, y, width, height, xres, yres, depth, |was|, |image|)
    requires size == depth / 8 && stride == xres * size
    requires Fits(stride, size, Window(x, y, width, height), FramePixels(depth, image, width))
    requires fb == Paint(was, stride, size, Window(x, y, width, height), FramePixels(depth, image, width))
    requires i < height && j < width / 2 * 2
    ensures var at := (y + i) * stride + (x + j) * size;
            0 <= at <= at + size <= |fb| && fb[at..at + size] == FramePixels(depth, image, width)(i, j)
  {
    hide *;
    WindowArea(x, y, width, height, xres, yres, depth, |was|, |image|);
    WindowPixel(was, fb, stride, size, Window(x, y, width, height), FramePixels(depth, image, width),
                i, j, y + i, x + j);
  }

  /** Every byte in a row above or below the window, or in a column beside it, is as it was. */
  lemma RestStays(was: seq<bv8>, fb: seq<bv8>, image: seq<bv8>, x: nat, y: nat, width: nat, height: nat,
                  xres: nat, yres: nat, depth: int, k: nat)
    requires OnScreen(x, y, width, height, xres, yres, depth, |was|, |image|) && k < |was|
    requires Fits(xres * (depth / 8), depth / 8, Window(x, y, width, height), FramePixels(depth, image, width))
    requires fb == Paint(was, xres * (depth / 8), depth / 8, Window(x, y, width, height),
                         FramePixels(depth, image, width))
    requires var row, col := k / (xres * (depth / 8)), k % (xres * (depth / 8)) / (depth / 8);
             !(y <= row < y + height && x <= col < x + width)
    ensures fb[k] == was[k]
  {
    OutsideUnchanged(was, xres * (depth / 8), depth / 8, Window(x, y, width, height),
                     FramePixels(depth, image, width), k);
  }
}
