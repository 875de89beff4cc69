/** EX06-04: the loop around the drawing. Buffers travel between the driver and the program;
  each filled buffer is drawn and handed back; the screen is cleared first.
 */
module Camera {
  import opened Canvas
  import opened FrameBuffer
  import opened Yuyv

  // What VIDIOC_DQBUF gives: EAGAIN, another error, or a buffer the driver has filled.
  datatype Dequeue = Again | Broken | Filled(index: nat, image: seq<bv8>)

  // What select gives.
  datatype Event = Interrupted | SelectFailed | TimedOut | Ready(dequeue: Dequeue)

  datatype Outcome = Finished | ExitFailure | StillWaiting

  predicate Fatal(e: Event) {
    e == SelectFailed || e == TimedOut || e == Ready(Broken)
  }

  predicate IsFrame(e: Event) {
    e.Ready? && e.dequeue.Filled?
  }

  // The frames delivered by a sequence of events, in order.
  function Frames(events: seq<Event>): seq<seq<bv8>> {
    if events == [] then []
    else
      var n := |events| - 1;
      Frames(events[..n]) + if IsFrame(events[n]) then [events[n].dequeue.image] else []
  }

  /** The addresses computed by draw_rect and by capture_to_fb agree on the whole screen exactly
      when a line has no padding (or there is only one line). */
  lemma AddressesAgree(xres: nat, yres: nat, depth: int, lineLength: int)
    requires IsDepth(depth) && 0 < xres
    ensures (forall row: nat, col: nat :: row < yres && col < xres ==> SameAddress(row, col, xres, depth, lineLength))
            <==> yres <= 1 || lineLength == xres * (depth / 8)
  {
    forall row: nat, col: nat | row < yres && col < xres
      ensures SameAddress(row, col, xres, depth, lineLength) <==> row * lineLength == row * (xres * (depth / 8))
    {
      Address(row, col, xres, depth);
    }
    if
      && 1 < yres
      && (forall row: nat, col: nat :: row < yres && col < xres ==> SameAddress(row, col, xres, depth, lineLength))
    {
      assert SameAddress(1, 0, xres, depth, lineLength);
    }
  }

  ghost predicate SameAddress(row: nat, col: nat, xres: nat, depth: int, lineLength: int)
    requires IsDepth(depth)
  {
    col * (depth / 8) + row * lineLength == (row * xres + col) * depth / 8
  }

  // A store of draw_rect lies within the bytes that fb_init maps.
  ghost predicate StoreInBounds(row: nat, col: nat, xres: nat, yres: nat, depth: int, lineLength: nat)
    requires IsDepth(depth)
  {
    col * (depth / 8) + row * lineLength + depth / 8 <= xres * yres * depth / 8
  }

  /** Clearing the screen stays within the mapped bytes exactly when a line has no padding (or
      there is at most one line): the map has no room for padding. */
  lemma ClearStaysInBounds(xres: nat, yres: nat, depth: int, lineLength: nat)
    requires IsDepth(depth) && 0 < xres
    ensures (forall row: nat, col: nat :: row < yres && col < xres ==>
               StoreInBounds(row, col, xres, yres, depth, lineLength))
            <==> yres <= 1 || lineLength <= xres * (depth / 8)
    ensures yres <= 1 || lineLength <= xres * (depth / 8) ==>
              InBounds(xres * yres * depth / 8, lineLength, depth / 8, Area(0, 0, xres, yres))
  {
    var size := depth / 8;
    var stride := xres * size;
    ScreenSize(xres, yres, depth);
    if yres <= 1 || lineLength <= stride {
      forall row: nat, col: nat | row < yres && col < xres
        ensures StoreInBounds(row, col, xres, yres, depth, lineLength)
      {
        Multiples(col, xres, size);
        Multiples(row, yres, stride);
        NoLonger(row, lineLength, stride);
      }
      if 0 < yres {
        Multiples(yres - 1, yres, stride);
        NoLonger(yres - 1, lineLength, stride);
      }
    } else {
      Multiples(yres - 1, yres, stride);
      assert (yres - 1) * stride + stride == yres * stride;
      Multiples(xres - 1, xres, size);
      assert (xres - 1) * size + size == stride;
      assert (yres - 1) * lineLength == (yres - 1) * stride + (yres - 1) * (lineLength - stride);
      Multiples(0, yres - 1, lineLength - stride);
      assert !StoreInBounds(yres - 1, xres - 1, xres, yres, depth, lineLength);
    }
  }

  lemma NoLonger(rows: nat, line: nat, stride: nat)
    requires rows == 0 || line <= stride
    ensures rows * line <= rows * stride
  {
  }

  lemma ScreenSize(xres: nat, yres: nat, depth: int)
    requires IsDepth(depth)
    ensures xres * yres * depth / 8 == yres * (xres * (depth / 8))
  {
    Address(yres, 0, xres, depth);
    assert yres * xres == xres * yres;
  }

  // Every byte of the buffer belongs to a pixel of the screen.
  lemma OnSomePixel(k: nat, xres: nat, yres: nat, size: int, stride: int)
    requires 0 < size && 0 < xres && k < yres * (xres * size)
    requires xres * size <= stride && (yres <= 1 || stride == xres * size)
    ensures 0 < stride && Inside(Area(0, 0, xres, yres), Row(k, stride), Column(k, stride, size))
  {
    Multiples(0, xres, size);
    if yres == 1 {
      Quotient(k, stride, 0);
    }
    DivMod(k, stride);
    Within(k, yres, stride);
    DivMod(k % stride, size);
    Within(k % stride, xres, size);
  }

  lemma Within(a: nat, n: nat, b: int)
    requires 0 < b && a < n * b
    ensures 0 <= a / b < n
  {
    DivMod(a, b);
    if n < a / b {
      Multiples(n, a / b, b);
    }
  }

  /** fb_init with zero offsets, where its stores stay within the map, clears the screen to the
      last byte. */
  method ClearScreen(xres: nat, yres: nat, depth: int, lineLength: nat, fb: array<bv8>)
    requires IsDepth(depth) && 0 < xres && fb.Length == xres * yres * depth / 8
    requires xres * (depth / 8) <= lineLength && (yres <= 1 || lineLength == xres * (depth / 8))
    modifies fb
    ensures forall k :: 0 <= k < fb.Length ==> fb[k] == 0
  {
    var size := depth / 8;
    Multiples(0, xres, size);
    ScreenSize(xres, yres, depth);
    ClearStaysInBounds(xres, yres, depth, lineLength);
    DrawRect(0, 0, xres, yres, 0, depth, lineLength, fb);
    forall k | 0 <= k < fb.Length
      ensures fb[..][k] == 0
    {
      OnSomePixel(k, xres, yres, size, lineLength);
      BlackIsZero(depth);
      DivMod(k % lineLength, size);
    }
  }

  // ----- Who owns a buffer -----

  // QBUF hands a buffer to the driver, DQBUF takes one back, and the program reads one.
  datatype Access = Enqueued(index: nat) | Dequeued(index: nat) | Read(index: nat)

  ghost function Handed(held: set<nat>, a: Access): set<nat> {
    if a.Enqueued? then held + {a.index} else if a.Dequeued? then held - {a.index} else held
  }

  // The buffers the driver holds after a history of accesses.
  ghost function WithDriver(trace: seq<Access>): set<nat> {
    if trace == [] then {} else Handed(WithDriver(trace[..|trace| - 1]), trace[|trace| - 1])
  }

  // The program reads and enqueues only buffers the driver does not hold; the driver gives back
  // only buffers it holds.
  ghost predicate Allowed(held: set<nat>, a: Access) {
    a.index in held <==> a.Dequeued?
  }

  ghost predicate OwnedWhenUsed(trace: seq<Access>) {
    forall k :: 0 <= k < |trace| ==> Allowed(WithDriver(trace[..k]), trace[k])
  }

  lemma OneMoreAccess(trace: seq<Access>, a: Access)
    requires OwnedWhenUsed(trace) && Allowed(WithDriver(trace), a)
    ensures OwnedWhenUsed(trace + [a])
    ensures WithDriver(trace + [a]) == Handed(WithDriver(trace), a)
  {
    var longer := trace + [a];
    assert longer[..|trace|] == trace;
    forall k | 0 <= k < |longer|
      ensures Allowed(WithDriver(longer[..k]), longer[k])
    {
      if k < |trace| {
        assert longer[..k] == trace[..k];
      }
    }
  }

  /** The program's globals and the driver's queue. */
  class Capture {
    const fb: array<bv8>
    const xres: nat
    const yres: nat
    const depth: int
    const xpos: nat
    const ypos: nat
    const width: nat
    const height: nat
    var buffers: seq<seq<bv8>>
    var queued: set<nat>
    ghost var trace: seq<Access>

    // The window lies on the screen.
    ghost predicate Valid() {
      OnScreen(xpos, ypos, width, height, xres, yres, depth, fb.Length, width * height * 2)
    }

    // The history of accesses explains who holds what, and nobody used what it did not hold.
    ghost predicate Orderly()
      reads this
    {
      queued == WithDriver(trace) && OwnedWhenUsed(trace)
    }

    // The driver holds every buffer.
    ghost predicate AllQueued()
      reads this
    {
      Orderly() && forall i: nat :: i in queued <==> i < |buffers|
    }

    // The driver fills a buffer it holds, with a whole frame.
    ghost predicate Delivers(d: Dequeue)
      reads this
    {
      d.Filled? ==> d.index in queued && |d.image| >= width * height * 2
    }

    // The screen with a frame in the window.
    ghost function Shown(screen: seq<bv8>, image: seq<bv8>): seq<bv8>
      requires IsDepth(depth) && xres * (depth / 8) > 0
      requires Fits(xres * (depth / 8), depth / 8, Window(xpos, ypos, width, height), FramePixels(depth, image, width))
    {
      Paint(screen, xres * (depth / 8), depth / 8, Window(xpos, ypos, width, height), FramePixels(depth, image, width))
    }

    lemma WindowIsDrawable(image: seq<bv8>)
      requires Valid()
      ensures IsDepth(depth) && xres * (depth / 8) > 0
      ensures Fits(xres * (depth / 8), depth / 8, Window(xpos, ypos, width, height), FramePixels(depth, image, width))
    {
      WindowFits(xpos, ypos, width, height, xres, yres, depth, fb.Length, width * height * 2);
    }

    // The screen after some frames: only the last one shows.
    ghost function After(screen: seq<bv8>, images: seq<seq<bv8>>): seq<bv8>
      requires Valid()
    {
      if images == [] then screen
      else
        var image := images[|images| - 1];
        WindowIsDrawable(image);
        Shown(screen, image)
    }

    lemma OneMore(screen: seq<bv8>, images: seq<seq<bv8>>, image: seq<bv8>)
      requires Valid()
      ensures After(screen, images + [image]) == After(After(screen, images), [image])
    {
      WindowIsDrawable(image);
      if images != [] {
        var last := images[|images| - 1];
        WindowIsDrawable(last);
        PaintTwice(screen, xres * (depth / 8), depth / 8, Window(xpos, ypos, width, height),
                   FramePixels(depth, last, width), FramePixels(depth, image, width));
      }
    }

    function NewFrame(e: Event): seq<seq<bv8>> {
      if IsFrame(e) then [e.dequeue.image] else []
    }

    lemma AfterNone(screen: seq<bv8>)
      requires Valid()
      ensures After(screen, []) == screen
    {
    }

    lemma NextEvent(screen: seq<bv8>, events: seq<Event>, n: nat)
      requires Valid() && n < |events|
      ensures Frames(events[..n + 1]) == Frames(events[..n]) + NewFrame(events[n])
      ensures After(screen, Frames(events[..n + 1])) == After(After(screen, Frames(events[..n])), NewFrame(events[n]))
      ensures !IsFrame(events[n]) ==> After(screen, Frames(events[..n + 1])) == After(screen, Frames(events[..n]))
    {
      hide After;
      assert events[..n + 1][..n] == events[..n];
      AfterNone(After(screen, Frames(events[..n])));
      if IsFrame(events[n]) {
        OneMore(screen, Frames(events[..n]), events[n].dequeue.image);
      } else {
        assert Frames(events[..n]) + [] == Frames(events[..n]);
      }
    }

    constructor (fb: array<bv8>, xres: nat, yres: nat, depth: int, xpos: nat, ypos: nat, width: nat, height: nat,
                 buffers: seq<seq<bv8>>)
      requires OnScreen(xpos, ypos, width, height, xres, yres, depth, fb.Length, width * height * 2)
      ensures Valid() && this.fb == fb && this.buffers == buffers && queued == {} && trace == []
      ensures this.xres == xres && this.yres == yres && this.depth == depth
      ensures this.xpos == xpos && this.ypos == ypos && this.width == width && this.height == height
    {
      this.fb, this.xres, this.yres, this.depth := fb, xres, yres, depth;
      this.xpos, this.ypos, this.width, this.height := xpos, ypos, width, height;
      this.buffers, queued, trace := buffers, {}, [];
    }

    // VIDIOC_QBUF.
    method Enqueue(index: nat)
      requires Orderly() && index !in queued
      modifies this`queued, this`trace
      ensures Orderly() && queued == old(queued) + {index} && trace == old(trace) + [Enqueued(index)]
    {
      OneMoreAccess(trace, Enqueued(index));
      queued, trace := queued + {index}, trace + [Enqueued(index)];
    }

    // VIDIOC_DQBUF that succeeds: the driver has filled the buffer.
    method TakeBack(index: nat, image: seq<bv8>)
      requires Orderly() && index in queued && index < |buffers|
      modifies this`queued, this`trace, this`buffers
      ensures Orderly() && queued == old(queued) - {index} && trace == old(trace) + [Dequeued(index)]
      ensures buffers == old(buffers)[index := image]
    {
      OneMoreAccess(trace, Dequeued(index));
      queued, trace := queued - {index}, trace + [Dequeued(index)];
      buffers := buffers[index := image];
    }

    // process_image on a buffer the driver does not hold.
    method ProcessImage(index: nat)
      requires Valid() && Orderly() && index < |buffers| && index !in queued && |buffers[index]| >= width * height * 2
      modifies this`trace, fb
      ensures Orderly() && trace == old(trace) + [Read(index)]
      ensures fb[..] == After(old(fb[..]), [buffers[index]])
    {
      OneMoreAccess(trace, Read(index));
      trace := trace + [Read(index)];
      CaptureToFb(buffers[index], xpos, ypos, width, height, xres, yres, depth, fb);
    }

    /** start_capturing hands every buffer to the driver. */
    method StartCapturing()
      requires queued == {} && trace == []
      modifies this`queued, this`trace
      ensures AllQueued() && |trace| == |buffers|
      ensures forall j: nat :: j < |buffers| ==> trace[j] == Enqueued(j)
    {
      assert Orderly();
      hide Orderly, OwnedWhenUsed, WithDriver;
      for i := 0 to |buffers|
        invariant Orderly() && |trace| == i
        invariant forall j: nat :: j < i ==> trace[j] == Enqueued(j)
        invariant forall j: nat :: j in queued <==> j < i
      {
        Enqueue(i);
      }
    }

    /** read_frame: the buffer is the program's from DQBUF to QBUF, and it is read once, in
        between. The first result says that a frame was shown, the second that the process
        exits. */
    method ReadFrame(d: Dequeue) returns (shown: bool, exit: bool)
      requires Valid() && AllQueued() && Delivers(d)
      modifies this`buffers, this`queued, this`trace, fb
      ensures AllQueued() && |buffers| == |old(buffers)|
      ensures trace == old(trace) + if d.Filled? then [Dequeued(d.index), Read(d.index), Enqueued(d.index)] else []
      ensures shown == d.Filled? && exit == d.Broken?
      ensures fb[..] == After(old(fb[..]), if d.Filled? then [d.image] else [])
    {
      match d {
      case Again =>
        return false, false;
      case Broken =>
        return false, true;
      case Filled(index, image) =>
        TakeBack(index, image);
        ProcessImage(index);
        Enqueue(index);
        return true, false;
      }
    }

    // The first n events are behind us, none of them fatal.
    ghost predicate Seen(screen: seq<bv8>, events: seq<Event>, n: int)
      reads this, fb
    {
      && Valid() && AllQueued()
      && 0 <= n <= |events|
      && (forall i :: 0 <= i < n ==> !Fatal(events[i]))
      && (forall i :: 0 <= i < |events| && events[i].Ready? ==> Delivers(events[i].dequeue))
      && fb[..] == After(screen, Frames(events[..n]))
    }

    // The inner loop: until read_frame has shown a frame.
    method AwaitFrame(events: seq<Event>, start: nat, ghost screen: seq<bv8>) returns (outcome: Outcome, next: nat)
      requires Seen(screen, events, start)
      modifies this`buffers, this`queued, this`trace, fb
      ensures start <= next <= |events| && fb[..] == After(screen, Frames(events[..next])) && AllQueued()
      ensures |Frames(events[..next])| == |Frames(events[..start])| + if outcome == Finished then 1 else 0
      ensures outcome != ExitFailure ==> Seen(screen, events, next)
      ensures outcome == ExitFailure ==>
                start < next && Fatal(events[next - 1]) && forall i :: 0 <= i < next - 1 ==> !Fatal(events[i])
      ensures outcome == StillWaiting ==> next == |events|
    {
      hide After, Frames;
      next := start;
      while next < |events|
        invariant start <= next && Seen(screen, events, next)
        invariant |Frames(events[..next])| == |Frames(events[..start])|
      {
        var e := events[next];
        NextEvent(screen, events, next);
        next := next + 1;
        if e == SelectFailed || e == TimedOut {
          return ExitFailure, next;
        }
        if e.Ready? {
          var shown, exit := ReadFrame(e.dequeue);
          if exit {
            return ExitFailure, next;
          }
          if shown {
            return Finished, next;
          }
        }
      }
      return StillWaiting, next;
    }

    /** mainloop: `count` frames are shown, one by one, unless select or the driver fails; the
        screen then is as the last of them leaves it. */
    method MainLoop(count: nat, events: seq<Event>) returns (outcome: Outcome, used: nat)
      requires Valid() && AllQueued()
      requires forall i :: 0 <= i < |events| && events[i].Ready? ==> Delivers(events[i].dequeue)
      modifies this`buffers, this`queued, this`trace, fb
      ensures AllQueued() && used <= |events| && |Frames(events[..used])| <= count
      ensures fb[..] == After(old(fb[..]), Frames(events[..used]))
      ensures outcome == Finished <==> |Frames(events[..used])| == count
      ensures outcome == ExitFailure ==>
                used > 0 && (events[used - 1] in {SelectFailed, TimedOut} || events[used - 1] == Ready(Broken))
      ensures outcome == StillWaiting ==> used == |events|
      ensures forall i :: 0 <= i < used && (events[i] in {SelectFailed, TimedOut} || events[i] == Ready(Broken)) ==>
                outcome == ExitFailure && i == used - 1
    {
      ghost var screen := fb[..];
      assert Frames(events[..0]) == [] && After(screen, []) == screen;
      hide After, Frames;
      var left := count;
      used := 0;
      while left > 0
        invariant 0 <= left <= count && used <= |events|
        invariant Seen(screen, events, used)
        invariant |Frames(events[..used])| == count - left
      {
        outcome, used := AwaitFrame(events, used, screen);
        if outcome != Finished {
          return;
        }
        left := left - 1;
      }
      outcome := Finished;
    }
  }

  ghost function ByteOf(pixel: seq<bv8>, o: int): bv8 {
    if 0 <= o < |pixel| then pixel[o] else 0
  }

  // Each byte of the screen belongs to the frame's pixel at its place in the area, or is black.
  ghost predicate Displays(screen: seq<bv8>, stride: int, depth: int, a: Area, image: seq<bv8>, width: nat) {
    && IsDepth(depth) && 0 < stride
    && forall k :: 0 <= k < |screen| ==>
         var row, col := Row(k, stride), Column(k, stride, depth / 8);
         screen[k] == if Inside(a, row, col)
                      then ByteOf(FramePixel(depth, image, width, row - a.y, col - a.x), Offset(k, stride, depth / 8))
                      else 0
  }

  lemma LastFrameShows(black: seq<bv8>, screen: seq<bv8>, stride: int, depth: int, a: Area, image: seq<bv8>, width: nat)
    requires IsDepth(depth) && Fits(stride, depth / 8, a, FramePixels(depth, image, width))
    requires forall k :: 0 <= k < |black| ==> black[k] == 0
    requires screen == Paint(black, stride, depth / 8, a, FramePixels(depth, image, width))
    ensures Displays(screen, stride, depth, a, image, width)
  {
    hide FramePixel;
    forall k | 0 <= k < |screen|
      ensures var row, col := Row(k, stride), Column(k, stride, depth / 8);
              screen[k] == if Inside(a, row, col)
                           then ByteOf(FramePixel(depth, image, width, row - a.y, col - a.x),
                                       Offset(k, stride, depth / 8))
                           else 0
    {
      DivMod(k % stride, depth / 8);
      if !Inside(a, Row(k, stride), Column(k, stride, depth / 8)) {
        OutsideUnchanged(black, stride, depth / 8, a, FramePixels(depth, image, width), k);
      }
    }
  }

  /** main after the set-up, with a screen that can be cleared: once `count` frames are shown
      each pixel of the window is the pixel of the last frame, and every byte that belongs to no
      pixel of the window is black. */
  method CameraMain(fb: array<bv8>, xres: nat, yres: nat, depth: int, lineLength: nat, xpos: nat, ypos: nat,
                    width: nat, height: nat, buffers: seq<seq<bv8>>, count: nat, events: seq<Event>)
    returns (outcome: Outcome, used: nat)
    requires OnScreen(xpos, ypos, width, height, xres, yres, depth, fb.Length, width * height * 2)
    requires xres * (depth / 8) <= lineLength && (yres <= 1 || lineLength == xres * (depth / 8)) && 0 < count
    requires forall i :: 0 <= i < |events| && IsFrame(events[i]) ==>
               events[i].dequeue.index < |buffers| && |events[i].dequeue.image| >= width * height * 2
    modifies fb
    ensures used <= |events|
    ensures outcome == Finished ==>
              && |Frames(events[..used])| == count
              && Displays(fb[..], xres * (depth / 8), depth, Window(xpos, ypos, width, height),
                          Frames(events[..used])[count - 1], width)
  {
    hide FramePixel, Displays;
    var c := new Capture(fb, xres, yres, depth, xpos, ypos, width, height, buffers);
    c.WindowIsDrawable([]);
    ClearScreen(xres, yres, depth, lineLength, fb);
    ghost var black := fb[..];
    c.StartCapturing();
    outcome, used := c.MainLoop(count, events);
    if outcome == Finished {
      ghost var image := Frames(events[..used])[count - 1];
      c.WindowIsDrawable(image);
      LastFrameShows(black, fb[..], xres * (depth / 8), depth, Window(xpos, ypos, width, height), image, width);
    }
  }
}
