/** What a drawing leaves in a linear buffer.

  A row of the buffer is `stride` elements, a pixel `size` elements. The result of a drawing is
  said element by element: which pixel the element belongs to, and whether that pixel lies in
  the area drawn. The address arithmetic of the drawing loops is checked against that.
 */
module Canvas {

  // ----- Which pixel an element belongs to -----

  ghost function Row(k: int, stride: int): int
    requires stride > 0
  {
    k / stride
  }

  ghost function Column(k: int, stride: int, size: int): int
    requires stride > 0 && size > 0
  {
    (k % stride) / size
  }

  ghost function Offset(k: int, stride: int, size: int): int
    requires stride > 0 && size > 0
  {
    (k % stride) % size
  }

  lemma DivMod(a: int, b: int)
    requires 0 < b
    ensures a == (a / b) * b + a % b && 0 <= a % b < b
  {
  }

  lemma Multiples(x: int, y: int, b: int)
    requires 0 <= b && x < y
    ensures x * b + b <= y * b
  {
    assert (x + 1) * b == x * b + b;
    assert (y - x - 1) * b >= 0;
    assert (y - x - 1) * b == y * b - (x + 1) * b;
  }

  lemma Unique(q: int, r: int, q': int, r': int, b: int)
    requires 0 <= r < b && 0 <= r' < b && q * b + r == q' * b + r'
    ensures q == q' && r == r'
  {
    if q < q' {
      Multiples(q, q', b);
    } else if q' < q {
      Multiples(q', q, b);
    }
  }

  lemma Quotient(a: int, b: int, q: int)
    requires 0 < b
    ensures a / b == q <==> q * b <= a < q * b + b
    ensures a / b == q ==> a % b == a - q * b
  {
    DivMod(a, b);
    if q * b <= a < q * b + b {
      Unique(q, a - q * b, a / b, a % b, b);
    }
  }

  /** The elements of a pixel are the `size` elements from row * stride + column * size. */
  lemma Locate(k: int, stride: int, size: int, row: int, col: int)
    requires 0 < size && 0 < stride && 0 <= col && (col + 1) * size <= stride
    ensures Row(k, stride) == row && Column(k, stride, size) == col
            <==> row * stride + col * size <= k < row * stride + col * size + size
    ensures row * stride + col * size <= k < row * stride + col * size + size ==>
              Offset(k, stride, size) == k - (row * stride + col * size)
  {
    Quotient(k, stride, row);
    Quotient(k % stride, size, col);
    assert 0 <= col * size && (col + 1) * size == col * size + size;
  }

  // ----- What is drawn -----

  datatype Area = Area(x: nat, y: nat, width: nat, height: nat)

  predicate Inside(a: Area, row: int, col: int) {
    a.y <= row < a.y + a.height && a.x <= col < a.x + a.width
  }

  // Row by row, the first i rows and j pixels of the next are done.
  predicate Reached(a: Area, i: int, j: int, row: int, col: int) {
    Inside(a, row, col) && (row < a.y + i || (row == a.y + i && col < a.x + j))
  }

  // The pixels of a picture, by row and column within the picture.
  type Pixels<T> = (int, int) -> seq<T>

  ghost predicate Fits<T(!new)>(stride: int, size: int, a: Area, pixels: Pixels<T>) {
    && 0 < stride && 0 < size && (a.x + a.width) * size <= stride
    && forall i: int, j: int :: |pixels(i, j)| == size
  }

  // The element at k when the drawing has come to (i, j).
  ghost function ElementDrawn<T(!new)>(fb: seq<T>, stride: int, size: int, a: Area, pixels: Pixels<T>,
                                       i: int, j: int, k: nat): T
    requires k < |fb| && Fits(stride, size, a, pixels)
  {
    var row, col := Row(k, stride), Column(k, stride, size);
    DivMod(k % stride, size);
    if Reached(a, i, j, row, col) then pixels(row - a.y, col - a.x)[Offset(k, stride, size)] else fb[k]
  }

  ghost function Drawn<T(!new)>(fb: seq<T>, stride: int, size: int, a: Area, pixels: Pixels<T>,
                                i: int, j: int): (s: seq<T>)
    requires Fits(stride, size, a, pixels)
    ensures |s| == |fb|
  {
    seq(|fb|, k requires 0 <= k < |fb| => ElementDrawn(fb, stride, size, a, pixels, i, j, k))
  }

  /** The buffer after the whole area is drawn: inside, the picture; outside, what was there. */
  ghost function Paint<T(!new)>(fb: seq<T>, stride: int, size: int, a: Area, pixels: Pixels<T>): (s: seq<T>)
    requires Fits(stride, size, a, pixels)
    ensures |s| == |fb|
  {
    Drawn(fb, stride, size, a, pixels, a.height, 0)
  }

  function Patched<T>(fb: seq<T>, at: nat, s: seq<T>): seq<T>
    requires at + |s| <= |fb|
  {
    fb[..at] + s + fb[at + |s|..]
  }

  // Every pixel of the area lies in the buffer.
  ghost predicate InBounds(length: int, stride: int, size: int, a: Area) {
    0 < a.height && 0 < a.width ==> (a.y + a.height - 1) * stride + (a.x + a.width) * size <= length
  }

  lemma PixelInBounds(length: int, stride: int, size: int, a: Area, i: nat, j: nat)
    requires 0 < stride && 0 < size && (a.x + a.width) * size <= stride
    requires InBounds(length, stride, size, a) && i < a.height && j < a.width
    ensures 0 <= (a.y + i) * stride && 0 <= (a.x + j) * size
    ensures (a.y + i) * stride + (a.x + j) * size + size <= length
    ensures (a.x + j + 1) * size == (a.x + j) * size + size <= stride
  {
    Multiples(a.y + i, a.y + a.height, stride);
    Multiples(a.y + a.height - 1, a.y + a.height, stride);
    Multiples(a.x + j, a.x + a.width, size);
    Multiples(-1, a.y + i, stride);
    Multiples(-1, a.x + j, size);
    assert (a.y + a.height - 1) * stride + stride == (a.y + a.height) * stride;
    assert (a.x + j + 1) * size == (a.x + j) * size + size;
  }

  // Storing the next pixel at its address is the next state of the drawing.
  lemma DrawOne<T(!new)>(fb: seq<T>, stride: int, size: int, a: Area, pixels: Pixels<T>, i: nat, j: nat, at: nat)
    requires Fits(stride, size, a, pixels) && InBounds(|fb|, stride, size, a) && i < a.height && j < a.width
    requires at == (a.y + i) * stride + (a.x + j) * size
    ensures at + size <= |fb|
    ensures Drawn(fb, stride, size, a, pixels, i, j + 1) ==
            Patched(Drawn(fb, stride, size, a, pixels, i, j), at, pixels(i, j))
  {
    PixelInBounds(|fb|, stride, size, a, i, j);
    var before, after := Drawn(fb, stride, size, a, pixels, i, j), Drawn(fb, stride, size, a, pixels, i, j + 1);
    var patched := Patched(before, at, pixels(i, j));
    forall k | 0 <= k < |fb|
      ensures after[k] == patched[k]
    {
      Locate(k, stride, size, a.y + i, a.x + j);
    }
  }

  lemma DrawRow<T(!new)>(fb: seq<T>, stride: int, size: int, a: Area, pixels: Pixels<T>, i: nat)
    requires Fits(stride, size, a, pixels) && i < a.height
    ensures Drawn(fb, stride, size, a, pixels, i, a.width) == Drawn(fb, stride, size, a, pixels, i + 1, 0)
  {
  }

  lemma DrawNothing<T(!new)>(fb: seq<T>, stride: int, size: int, a: Area, pixels: Pixels<T>)
    requires Fits(stride, size, a, pixels)
    ensures Drawn(fb, stride, size, a, pixels, 0, 0) == fb
  {
  }

  // ----- Reading a drawing -----

  ghost function PixelAt<T>(fb: seq<T>, stride: int, size: int, row: int, col: int): seq<T>
    requires 0 <= row * stride + col * size && 0 <= size && row * stride + col * size + size <= |fb|
  {
    fb[row * stride + col * size..row * stride + col * size + size]
  }

  /** Each pixel of the area reads back as the picture's pixel. */
  lemma PaintedPixel<T(!new)>(fb: seq<T>, stride: int, size: int, a: Area, pixels: Pixels<T>, i: nat, j: nat)
    requires Fits(stride, size, a, pixels) && InBounds(|fb|, stride, size, a) && i < a.height && j < a.width
    ensures 0 <= (a.y + i) * stride + (a.x + j) * size <= |fb| - size
    ensures PixelAt(Paint(fb, stride, size, a, pixels), stride, size, a.y + i, a.x + j) == pixels(i, j)
  {
    PixelInBounds(|fb|, stride, size, a, i, j);
    var at := (a.y + i) * stride + (a.x + j) * size;
    var painted, pixel := Paint(fb, stride, size, a, pixels), pixels(i, j);
    forall o | 0 <= o < size
      ensures painted[at + o] == pixel[o]
    {
      Locate(at + o, stride, size, a.y + i, a.x + j);
    }
    assert painted[at..at + size] == pixel;
  }

  /** Every element that belongs to no pixel of the area is as before. */
  lemma OutsideUnchanged<T(!new)>(fb: seq<T>, stride: int, size: int, a: Area, pixels: Pixels<T>, k: nat)
    requires Fits(stride, size, a, pixels) && k < |fb|
    requires !Inside(a, Row(k, stride), Column(k, stride, size))
    ensures Paint(fb, stride, size, a, pixels)[k] == fb[k]
  {
  }

  /** Drawing again over the same area leaves only the last picture. */
  lemma PaintTwice<T(!new)>(fb: seq<T>, stride: int, size: int, a: Area, pixels: Pixels<T>, pixels': Pixels<T>)
    requires Fits(stride, size, a, pixels) && Fits(stride, size, a, pixels')
    ensures Paint(Paint(fb, stride, size, a, pixels), stride, size, a, pixels') == Paint(fb, stride, size, a, pixels')
  {
  }
}
