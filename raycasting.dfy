/** `RayCasting` of raycast.c (lines 182-246): the camera scan over the
    NULL-terminated object array, then the fill of the image buffer with one
    ray per pixel. */
module RayCasting {
  import opened Wrappers
  import opened Vectors
  import opened Scene
  import opened PixelBuffer

  /** The three ways RayCasting aborts with exit(1) before rendering. */
  datatype ConfigError = NoObjectFound | InvalidCameraSize | CameraNotFound

  /** What the scan hands on: i, the number of objects before the first NULL
      slot, and the last camera's width and height. */
  datatype Setup = Setup(objectCount: nat, width: real, height: real)

  // ---- the camera scan (raycast.c:184-208) ----

  /** Some slot at or after i is NULL, so a scan from i stops. */
  predicate NullAtOrAfter(slots: seq<Option<Object>>, i: int)
  {
    exists j :: 0 <= i <= j < |slots| && slots[j].None?
  }

  /** The first NULL slot at or after i. */
  function FirstNull(slots: seq<Option<Object>>, i: nat): (n: nat)
    requires NullAtOrAfter(slots, i)
    ensures i <= n < |slots| && slots[n].None?
    ensures forall j :: i <= j < n ==> slots[j].Some?
    decreases |slots| - i
  {
    if slots[i].None? then i
    else
      assert NullAtOrAfter(slots, i + 1);
      FirstNull(slots, i + 1)
  }

  predicate BadCamera(o: Object)
  {
    o.Camera? && (o.width <= 0.0 || o.height <= 0.0)
  }

  /** The loop of raycast.c:193-203 from slot i on, with the camera state so
      far, followed by the check of raycast.c:205-208. */
  function ScanFrom(slots: seq<Option<Object>>, i: nat, found: bool, width: real, height: real)
    : Result<Setup, ConfigError>
    requires NullAtOrAfter(slots, i)
    decreases |slots| - i
  {
    if slots[i].None? then
      if found then Success(Setup(i, width, height)) else Failure(CameraNotFound)
    else
      assert NullAtOrAfter(slots, i + 1);
      var o := slots[i].value;
      if o.Camera? then
        if o.width <= 0.0 || o.height <= 0.0 then Failure(InvalidCameraSize)
        else ScanFrom(slots, i + 1, true, o.width, o.height)
      else ScanFrom(slots, i + 1, found, width, height)
  }

  /** The outcome of the checks RayCasting makes before rendering. */
  function Scan(slots: seq<Option<Object>>): Result<Setup, ConfigError>
    requires NullAtOrAfter(slots, 0)
  {
    if slots[0].None? then Failure(NoObjectFound) else ScanFrom(slots, 0, false, 0.0, 0.0)
  }

  /** c is the last camera among the first n objects. */
  predicate IsLastCamera(slots: seq<Option<Object>>, n: int, c: int)
  {
    && 0 <= c < n <= |slots| && IsCamera(slots[c])
    && forall i :: c < i < n ==> !IsCamera(slots[i])
  }

  predicate IsCamera(slot: Option<Object>)
  {
    slot.Some? && slot.value.Camera?
  }

  lemma {:induction false} ScanFromOutcome(slots: seq<Option<Object>>, i: nat, found: bool, width: real, height: real)
    requires NullAtOrAfter(slots, i)
    ensures var n := FirstNull(slots, i); var r := ScanFrom(slots, i, found, width, height);
      && r != Failure(NoObjectFound)
      && (r == Failure(InvalidCameraSize) <==> exists j :: i <= j < n && BadCamera(slots[j].value))
      && (r == Failure(CameraNotFound) <==> !found && forall j :: i <= j < n ==> !slots[j].value.Camera?)
      && (r.Success? ==>
            && r.value.objectCount == n
            && ((exists c :: i <= c && IsLastCamera(slots, n, c)
                   && r.value.width == slots[c].value.width && r.value.height == slots[c].value.height)
                || (found && (forall j :: i <= j < n ==> !slots[j].value.Camera?)
                   && r.value.width == width && r.value.height == height)))
    decreases |slots| - i
  {
    if slots[i].Some? {
      assert NullAtOrAfter(slots, i + 1);
      var o := slots[i].value;
      if o.Camera? && !(o.width <= 0.0 || o.height <= 0.0) {
        ScanFromOutcome(slots, i + 1, true, o.width, o.height);
      } else if !o.Camera? {
        ScanFromOutcome(slots, i + 1, found, width, height);
      }
    }
  }

  /** The scan fails with "no object found" exactly when slot 0 is NULL, with
      "invalid size" exactly when some camera before the first NULL slot has a
      non-positive width or height, with "camera not found" exactly when there
      is no camera there; otherwise it yields the number of objects before the
      first NULL slot and the positive dimensions of the last camera. */
  lemma ScanOutcome(slots: seq<Option<Object>>)
    requires NullAtOrAfter(slots, 0)
    ensures var n := FirstNull(slots, 0); var r := Scan(slots);
      && (r == Failure(NoObjectFound) <==> n == 0)
      && (r == Failure(InvalidCameraSize) <==> n > 0 && exists j :: 0 <= j < n && BadCamera(slots[j].value))
      && (r == Failure(CameraNotFound) <==> n > 0 && forall j :: 0 <= j < n ==> !slots[j].value.Camera?)
      && (r.Success? ==>
            && r.value.objectCount == n
            && r.value.width > 0.0 && r.value.height > 0.0
            && exists c :: IsLastCamera(slots, n, c)
                 && r.value.width == slots[c].value.width && r.value.height == slots[c].value.height)
  {
    if slots[0].Some? {
      var n := FirstNull(slots, 0);
      ScanFromOutcome(slots, 0, false, 0.0, 0.0);
      var r := Scan(slots);
      if r.Success? {
        var c :| IsLastCamera(slots, n, c)
                 && r.value.width == slots[c].value.width && r.value.height == slots[c].value.height;
        assert IsLastCamera(slots, n, c);
        assert 0 <= c < |slots| && IsCamera(slots[c]);
        assert !BadCamera(slots[c].value);
      }
    }
  }

  /** The scan of raycast.c:184-208. */
  method ScanCameras(objects: seq<Option<Object>>) returns (result: Result<Setup, ConfigError>)
    requires NullAtOrAfter(objects, 0)
    ensures result == Scan(objects)
  {
    if objects[0].None? {
      return Failure(NoObjectFound);
    }
    var cameraFound := false;
    var width, height := 0.0, 0.0;
    var i := 0;
    while objects[i].Some?
      invariant 0 <= i <= FirstNull(objects, 0)
      invariant NullAtOrAfter(objects, i)
      invariant ScanFrom(objects, i, cameraFound, width, height) == Scan(objects)
      decreases FirstNull(objects, 0) - i
    {
      var o := objects[i].value;
      if o.Camera? {
        cameraFound := true;
        width, height := o.width, o.height;
        if width <= 0.0 || height <= 0.0 {
          return Failure(InvalidCameraSize);
        }
      }
      assert NullAtOrAfter(objects, i + 1);
      i := i + 1;
    }
    if !cameraFound {
      return Failure(CameraNotFound);
    }
    return Success(Setup(i, width, height));
  }

  // ---- the pixels (raycast.c:217-243) ----

  /** Everything the fill loop reads: the objects, the count i from the scan,
      the camera's dimensions and the output size w x h. */
  datatype Frame = Frame(objects: seq<Option<Object>>, objectCount: nat,
                         cameraWidth: real, cameraHeight: real, w: int, h: int)

  /** The point (vx, vy, 1) of the view plane that pixel (row k, column j)
      looks through (raycast.c:217-226). */
  function ViewPoint(f: Frame, k: int, j: int): Vec3
    requires f.w > 0 && f.h > 0
  {
    Vec3(ViewX(f, j), ViewY(f, k), 1.0)
  }

  /** vx of column j: the centre of the j-th of w equal parts of the camera's width. */
  function ViewX(f: Frame, j: int): real
    requires f.w > 0
  {
    -f.cameraWidth / 2.0 + (f.cameraWidth / (f.w as real)) * (j as real + 0.5)
  }

  /** vy of row k: the centre of the k-th of h equal parts of the camera's height. */
  function ViewY(f: Frame, k: int): real
    requires f.h > 0
  {
    -f.cameraHeight / 2.0 + (f.cameraHeight / (f.h as real)) * (k as real + 0.5)
  }

  /** The normalized ray direction of pixel (k, j) (raycast.c:228). */
  function PixelRay(f: Frame, sqrt: real -> real, k: int, j: int): Vec3
    requires f.w > 0 && f.h > 0 && IsSqrt(sqrt)
  {
    Normalize(ViewPoint(f, k, j), sqrt)
  }

  /** No plane among the scanned objects is parallel to the ray. */
  predicate PlanesFit(f: Frame, rd: Vec3)
    requires f.objectCount <= |f.objects| && forall i :: 0 <= i < f.objectCount ==> f.objects[i].Some?
  {
    forall i :: 0 <= i < f.objectCount ==> RayFits(f.objects[i].value, rd)
  }

  /** What the fill loop needs: a positive output size, objects in the first
      objectCount slots, and no pixel ray of the h x h pixels it visits
      parallel to a plane. */
  ghost predicate FrameOk(f: Frame, sqrt: real -> real)
  {
    && f.w > 0 && f.h > 0 && IsSqrt(sqrt)
    && f.objectCount <= |f.objects|
    && (forall i :: 0 <= i < f.objectCount ==> f.objects[i].Some?)
    && forall k, j :: 0 <= k < f.h && 0 <= j < f.h ==> PlanesFit(f, PixelRay(f, sqrt, k, j))
  }

  /** The colour of pixel (k, j): that of the object `intersect` picks, or black. */
  ghost function PixelColor(f: Frame, sqrt: real -> real, k: int, j: int): Rgb
    requires FrameOk(f, sqrt) && 0 <= k < f.h && 0 <= j < f.h
  {
    var rd := PixelRay(f, sqrt, k, j);
    assert PlanesFit(f, rd);
    var hit := Nearest(f.objects, f.objectCount, rd, sqrt);
    if hit >= 0 then f.objects[hit].value.color else Black
  }

  /** The colours the fill loop visits: rows 0..h-1, columns 0..h-1. */
  ghost function Image(f: Frame, sqrt: real -> real): (image: seq<seq<Rgb>>)
    requires FrameOk(f, sqrt)
    ensures |image| == f.h
    ensures forall k :: 0 <= k < f.h ==> |image[k]| == f.h
    ensures forall k, j {:trigger PixelColor(f, sqrt, k, j)} ::
              0 <= k < f.h && 0 <= j < f.h ==> image[k][j] == PixelColor(f, sqrt, k, j)
  {
    seq(f.h, k requires 0 <= k < f.h =>
      seq(f.h, j requires 0 <= j < f.h => PixelColor(f, sqrt, k, j)))
  }

  /** The body of the inner loop of raycast.c:225-239 up to the stores: the ray
      through (vx, vy, 1), normalized, cast with `intersect`, and the colour of
      the object hit, black when there is none. */
  method TracePixel(f: Frame, sqrt: real -> real, k: int, j: int, vy: real) returns (pixel: Rgb)
    requires FrameOk(f, sqrt) && 0 <= k < f.h && 0 <= j < f.h && vy == ViewY(f, k)
    ensures pixel == PixelColor(f, sqrt, k, j)
  {
    var vx := ViewX(f, j);
    var rd := Normalize(Vec3(vx, vy, 1.0), sqrt);
    assert rd == PixelRay(f, sqrt, k, j);
    assert PlanesFit(f, rd);
    var intersection := Intersect(rd, f.objectCount, f.objects, sqrt);
    if intersection >= 0 {
      pixel := f.objects[intersection].value.color;
    } else {
      pixel := Black;
    }
  }

  /** The three stores `data[count++] = ...` of raycast.c:238-242, each
      narrowed to an unsigned char. */
  method StorePixel(buffer: array<int>, count: int, pixel: Rgb) returns (next: int)
    requires 0 <= count && count + 2 < buffer.Length
    modifies buffer
    ensures next == count + 3
    ensures buffer[..] == Apply(old(buffer[..]), PixelWrites(count, pixel))
  {
    next := count;
    buffer[next] := Byte(pixel.r);
    next := next + 1;
    buffer[next] := Byte(pixel.g);
    next := next + 1;
    buffer[next] := Byte(pixel.b);
    next := next + 1;
    PixelWritesStore(old(buffer[..]), count, pixel);
  }

  /** The inner loop of raycast.c:224-243 for row k: pixel j of the row goes
      to the three bytes from (h-k-1)*w*3 + 3*j on. */
  method FillRow(buffer: array<int>, f: Frame, sqrt: real -> real, k: int, ghost row: seq<Rgb>)
    requires FrameOk(f, sqrt) && 0 <= k < f.h && buffer.Length == f.w * f.h * PixelBytes
    requires |row| == f.h && forall j {:trigger PixelColor(f, sqrt, k, j)} :: 0 <= j < f.h ==> row[j] == PixelColor(f, sqrt, k, j)
    modifies buffer
    ensures buffer[..] == Apply(old(buffer[..]), RowWrites(RowStart(f.w, f.h, k), row))
  {
    ghost var start := RowStart(f.w, f.h, k);
    var count := (f.h - k - 1) * f.w * 3;
    var vy := ViewY(f, k);
    var j := 0;
    while j < f.h
      invariant 0 <= j <= f.h
      invariant count == start + 3 * j
      invariant buffer[..] == Apply(old(buffer[..]), RowWrites(start, row[..j]))
    {
      var pixel := TracePixel(f, sqrt, k, j, vy);
      assert pixel == row[j];
      OffsetInBounds(f.w, f.h, k, j);
      ghost var before := buffer[..];
      count := StorePixel(buffer, count, pixel);
      RowWritesStep(old(buffer[..]), before, buffer[..], start, row, j);
      j := j + 1;
    }
    assert row[..f.h] == row;
  }

  /** The outer loop of raycast.c:221-244, over a buffer of w*h*sizeof(Pixel)
      slots. */
  method Fill(buffer: array<int>, f: Frame, sqrt: real -> real)
    requires FrameOk(f, sqrt) && buffer.Length == f.w * f.h * PixelBytes
    modifies buffer
    ensures buffer[..] == Apply(old(buffer[..]), FrameWrites(f.w, f.h, Image(f, sqrt)))
  {
    ghost var image := Image(f, sqrt);
    var k := 0;
    while k < f.h
      invariant 0 <= k <= f.h
      invariant buffer[..] == Apply(old(buffer[..]), FrameWrites(f.w, f.h, image[..k]))
    {
      ghost var before := buffer[..];
      FillRow(buffer, f, sqrt, k, image[k]);
      ApplyAppend(old(buffer[..]), FrameWrites(f.w, f.h, image[..k]), RowWrites(RowStart(f.w, f.h, k), image[k]));
      FrameWritesStep(f.w, f.h, image, k);
      k := k + 1;
    }
    assert image[..f.h] == image;
  }

  // ---- RayCasting (raycast.c:182-246) ----

  /** The frame the fill loop renders once the scan has succeeded. */
  function FrameOf(objects: seq<Option<Object>>, w: int, h: int): (f: Frame)
    requires NullAtOrAfter(objects, 0) && Scan(objects).Success?
    ensures f.objectCount == FirstNull(objects, 0) && f.w == w && f.h == h
    ensures f.cameraWidth > 0.0 && f.cameraHeight > 0.0
  {
    ScanOutcome(objects);
    var setup := Scan(objects).value;
    Frame(objects, setup.objectCount, setup.width, setup.height, w, h)
  }

  /** `RayCasting`: the scan's error, or a fresh buffer of w*h*sizeof(Pixel)
      slots whose contents are the fill's stores applied to whatever the
      allocation held. */
  method RayCasting(w: int, h: int, objects: seq<Option<Object>>, sqrt: real -> real)
    returns (result: Result<array<int>, ConfigError>, ghost initial: seq<int>)
    requires w > 0 && h > 0 && NullAtOrAfter(objects, 0) && IsSqrt(sqrt)
    requires Scan(objects).Success? ==> FrameOk(FrameOf(objects, w, h), sqrt)
    ensures Scan(objects).Failure? ==> result == Failure(Scan(objects).error)
    ensures Scan(objects).Success? ==>
      && result.Success? && fresh(result.value)
      && result.value.Length == w * h * PixelBytes == |initial|
      && result.value[..] == Apply(initial, FrameWrites(w, h, Image(FrameOf(objects, w, h), sqrt)))
  {
    var setup := ScanCameras(objects);
    if setup.Failure? {
      return Failure(setup.error), [];
    }
    var f := Frame(objects, setup.value.objectCount, setup.value.width, setup.value.height, w, h);
    var buffer := new int[w * h * PixelBytes];
    initial := buffer[..];
    Fill(buffer, f, sqrt);
    result := Success(buffer);
  }

  // ---- what the rendered buffer holds ----

  /** The buffer after the fill, from the allocation's contents. */
  ghost function Rendered(initial: seq<int>, f: Frame, sqrt: real -> real): (buffer: seq<int>)
    requires FrameOk(f, sqrt)
    ensures |buffer| == |initial|
  {
    Apply(initial, FrameWrites(f.w, f.h, Image(f, sqrt)))
  }

  /** When h <= w, pixel (k, j) of the scan is stored, channel by channel and
      narrowed to a byte, at column j of buffer row h-k-1. */
  lemma RenderedPixel(initial: seq<int>, f: Frame, sqrt: real -> real, k: int, j: int, c: int)
    requires FrameOk(f, sqrt) && |initial| == f.w * f.h * PixelBytes && f.h <= f.w
    requires 0 <= k < f.h && 0 <= j < f.h && 0 <= c < 3
    ensures var p := Slot(f.w, f.h, k, j, c);
            0 <= p < |initial| && Rendered(initial, f, sqrt)[p] == Byte(Channel(PixelColor(f, sqrt, k, j), c))
  {
    var image := Image(f, sqrt);
    MulMonotone(0, f.w, f.h);
    assert f.w * f.h * 3 <= |initial|;
    SlotInside(f.w, f.h, k, f.h - 1, 2);
    SlotInside(f.w, f.h, k, j, c);
    assert |image[k]| == f.h;
    assert Slot(f.w, f.h, k, f.h - 1, 2) == RowStart(f.w, f.h, k) + 3 * f.h - 1;
    SlotInside(f.w, f.h, k, 0, 0);
    assert Slot(f.w, f.h, k, 0, 0) == RowStart(f.w, f.h, k);
    assert 0 <= RowStart(f.w, f.h, k) && RowStart(f.w, f.h, k) + 3 * |image[k]| <= |initial|;
    assert forall r :: 0 <= r < |image| ==> |image[r]| <= f.w;
    FrameWritesValue(initial, f.w, f.h, image, k, j, c);
  }

  /** When h < w, columns h..w-1 of every buffer row keep what the allocation
      held: the column loop never reaches them. */
  lemma RenderedSkipsColumns(initial: seq<int>, f: Frame, sqrt: real -> real, k: int, j: int, c: int)
    requires FrameOk(f, sqrt) && |initial| == f.w * f.h * PixelBytes && f.h < f.w
    requires 0 <= k < f.h && f.h <= j < f.w && 0 <= c < 3
    ensures var p := Slot(f.w, f.h, k, j, c);
            0 <= p < |initial| && Rendered(initial, f, sqrt)[p] == initial[p]
  {
    var image := Image(f, sqrt);
    FrameWritesOffsets(f.w, f.h, image, f.h);
    NarrowFrameSkipsColumns(f.w, f.h);
    SlotInside(f.w, f.h, k, j, c);
    MulMonotone(0, f.w, f.h);
    assert f.w * f.h * 3 <= |initial|;
    ApplyUntouched(initial, FrameWrites(f.w, f.h, image), Slot(f.w, f.h, k, j, c));
  }

  /** When h <= w, the slots past the first 3*w*h (nine of every twelve bytes
      initial) keep what the allocation held. */
  lemma RenderedTail(initial: seq<int>, f: Frame, sqrt: real -> real, p: int)
    requires FrameOk(f, sqrt) && |initial| == f.w * f.h * PixelBytes && f.h <= f.w
    requires f.w * f.h * 3 <= p < |initial|
    ensures Rendered(initial, f, sqrt)[p] == initial[p]
  {
    var image := Image(f, sqrt);
    FrameWritesOffsets(f.w, f.h, image, f.h);
    FrameStaysInside(f.w, f.h, f.h);
    ApplyUntouched(initial, FrameWrites(f.w, f.h, image), p);
  }

  /** When h == w, the fill stores each of the first 3*w*h slots exactly once. */
  lemma RenderedSquare(f: Frame, sqrt: real -> real, p: int)
    requires FrameOk(f, sqrt) && f.h == f.w && 0 <= p < f.w * f.h * 3
    ensures TimesWritten(Offsets(FrameWrites(f.w, f.h, Image(f, sqrt))), p) == 1
  {
    FrameWritesOffsets(f.w, f.h, Image(f, sqrt), f.h);
    SquareFrameWritesEachSlotOnce(f.w, f.h);
  }

  /** When h > w, a later row's stores run into the slots of an earlier one:
      the first slot of the last buffer row is stored at least twice. */
  lemma RenderedTallOverlaps(f: Frame, sqrt: real -> real)
    requires FrameOk(f, sqrt) && f.w < f.h
    ensures TimesWritten(Offsets(FrameWrites(f.w, f.h, Image(f, sqrt))), RowStart(f.w, f.h, 0)) >= 2
  {
    FrameWritesOffsets(f.w, f.h, Image(f, sqrt), f.h);
    TallFrameRewritesSlots(f.w, f.h);
  }
}
