# raycast.c — a Dafny model of the ray caster's core

`raycast.c` renders a scene with one ray per pixel. The ray starts at the
origin and passes through a point of a camera plane at z = 1. It is checked
against every sphere and plane of the scene. The colour of the nearest object
hit, or black, is stored in a byte buffer. Rows are stored bottom-up.

This project models that core:

- `sqr` and `normalize`;
- the two intersection tests `sphere_intersection` and `planeIntersection`;
- the nearest-hit scan `intersect`;
- `RayCasting`: the camera scan over the NULL-terminated object array, then
  the nested loops that fill the buffer.

Doubles are modelled as `real`. The square root is a parameter
`sqrt: real -> real` that must return the non-negative root of every
non-negative argument (`Vectors.IsSqrt`). The sphere test takes that root of
its discriminant as a witness argument.

Modules:

- `Vectors` (vectors.dfy): 3-vectors, `Sqr`, `Normalize`.
- `Intersections` (intersections.dfy): the sphere and plane tests, and their
  geometric meaning.
- `Scene` (scene.dfy): the `Object` datatype, the distance dispatch and
  `intersect`.
- `PixelBuffer` (buffer.dfy): the buffer layout, the order of the stores and
  what they leave in the buffer.
- `RayCasting` (raycasting.dfy): the camera scan, the pixel rays, the fill
  loops and `RayCasting`.
- `Wrappers` (wrappers.dfy): `Option` and `Result`.

Representation choices:

- Object array. The `Object**` array is a `seq<Option<Object>>`, where `None`
  is a NULL slot. Callers must supply a NULL slot; the scan in the source runs
  until it meets one.
- Object fields. An `Object` is a camera (type 0), a sphere (type 1) or a
  plane (type 2). The fields follow what raycast.c reads: `camera.width/height`,
  `sphere.position/radius`, `plane.position/normal` and `color`.
  header.h declares a different layout, with type 2 a light and no `plane` or
  `color` fields. The model follows raycast.c.
- Colours. A colour is held as the three integers `(int)(color[c]*255)` that
  the source computes.
- Buffer. The buffer is an `array<int>` of `w*h*sizeof(Pixel)` slots. With
  three 4-byte `unsigned int` fields, `sizeof(Pixel)` is 12.
- Stores. Each store narrows its value to an `unsigned char`, x mod 256.
- Fresh buffer contents. What `malloc` leaves in the buffer is unknown. It is
  the ghost out-parameter `initial` of `RayCasting.RayCasting`.
- Aborts. Each `exit(1)` of the camera scan becomes a `Failure` of a
  `ConfigError`.

Where the code differs from its design text, the model follows the code:

- Ties. The design text says ties go to the first object. `intersect` replaces
  its choice on `t <= closest_t`, so on ties the LAST tied object wins, and
  `Scene.NearestIsLastClosest` states that.
- Column bound. The column loop runs to `h`, not `w`, and the model keeps that
  bound. See "## Findings".

## Model

| member | source | states |
|---|---|---|
| Vectors.Sqr | raycast.c:58-60 | the square of a value is never negative |
| Vectors.Normalize | raycast.c:63-68 | for a non-zero vector, the result has length 1 and is a positive multiple of the input, so it points the same way |
| Intersections.SphereIntersection | raycast.c:71-91 | the result is either exactly -1 or strictly positive, never 0; a negative discriminant gives -1 |
| Intersections.SphereQuadratic | raycast.c:72-76 | a, b and c are the coefficients of the quadratic in t for "the point ro + t*rd has distance r from the centre" |
| Intersections.OffSphere | raycast.c:77-80 | with a negative discriminant, no point of the ray lies on the sphere |
| Intersections.OnSphereAtRoots | raycast.c:81-83 | with a non-negative discriminant, the ray meets the sphere exactly at t1 and t2 |
| Intersections.OnSphereIffRoot | raycast.c:71-91 | both cases together: no hit point when d < 0, otherwise the hit points are exactly t1 and t2 |
| Intersections.SphereRootChoice | raycast.c:81-90 | t1 <= t2; t1 > 0 gives t1; t1 <= 0 < t2 gives t2; t2 <= 0 gives -1 |
| Intersections.SphereIntersectionIsNearestHit | raycast.c:71-91 | a positive result lies on the sphere and is the smallest positive distance that does; if any positive distance lies on the sphere, the result is positive |
| Intersections.PlaneIntersection | raycast.c:93-102 | the result is either exactly -1 or strictly positive |
| Intersections.PlaneLinear | raycast.c:94-96 | the plane equation along the ray is numerator + t*denominator |
| Intersections.PlaneIntersectionIsForwardHit | raycast.c:93-102 | the test returns t exactly when t > 0 and -1 otherwise; t is the only point of the ray in the plane; any positive distance in the plane is the result |
| Scene.Distance | raycast.c:152-166 | the sphere or plane test for a ray from the origin {0,0,0}: -1 or a positive distance |
| Scene.Nearest | raycast.c:145-180 | the index the scan settles on is -1 or an object among the first n that the ray hits |
| Scene.NearestIsLastClosest | raycast.c:145-180 | -1 exactly when no sphere or plane among the first n is hit; otherwise a hit object at minimal distance, strictly nearer than every later hit, so the last of tied objects wins; cameras are never chosen |
| Scene.Intersect | raycast.c:145-180 | the loop returns `Nearest`, with the characterization above; the error branch returning 1 is unreachable, because neither test returns 0 |
| PixelBuffer.Byte | raycast.c:240-242 | the stored byte is in 0..255 and congruent to the channel value mod 256 |
| PixelBuffer.RowCount | raycast.c:224-243 | j pixels from a row start write each slot of their 3j-slot range once and nothing else |
| PixelBuffer.FrameCount | raycast.c:221-243 | with at most w columns per row, the rows write slot p once if it lies in one of them and never otherwise (rows do not overlap) |
| PixelBuffer.RowsCover | raycast.c:222 | the h rows of w pixels, flipped, cover exactly the slots 0 .. 3wh-1 |
| PixelBuffer.RowMajorWritesEachSlotOnce | raycast.c:221-243 | with the column bound w, every one of the first 3wh slots is written exactly once and no other slot is written |
| PixelBuffer.SquareFrameWritesEachSlotOnce | raycast.c:221-243 | with h == w, the loops as written store every one of the first 3wh slots exactly once and nothing outside them |
| PixelBuffer.NarrowFrameSkipsColumns | raycast.c:224 | with h < w, columns h..w-1 of every row are never written |
| PixelBuffer.TallFrameRewritesSlots | raycast.c:224 | with h > w, the first slot of the last buffer row is written at least twice |
| PixelBuffer.FrameStaysInside | raycast.c:210-243 | with at most w columns per row, no store falls outside the first 3wh slots |
| PixelBuffer.SlotInside | raycast.c:222-242 | any channel of a column below w lies in the first 3wh slots |
| PixelBuffer.OffsetInBounds | raycast.c:210-242 | every store the loops make, even a column beyond w when h > w, lies inside the w*h*sizeof(Pixel) allocation |
| PixelBuffer.ApplyAppend | raycast.c:240-242 | performing two runs of stores one after the other is the same as performing their concatenation |
| PixelBuffer.ApplyUntouched | raycast.c:240-242 | a slot no store targets keeps its value |
| PixelBuffer.RowWritesOffsets | raycast.c:224-242 | a row's stores target the offsets start, start+1, ... in order, three per pixel |
| PixelBuffer.FrameWritesOffsets | raycast.c:221-243 | a frame's stores target its rows' offset runs in row order |
| PixelBuffer.PixelWritesStore | raycast.c:240-242 | one pixel's three stores set slots base, base+1, base+2 to its r, g, b bytes |
| PixelBuffer.PixelApply | raycast.c:240-242 | after one pixel's stores, its three slots hold the channel bytes and every other slot is unchanged |
| PixelBuffer.RowWritesValue | raycast.c:224-243 | after a row's stores, slot start+3j+c holds byte c of pixel j |
| PixelBuffer.FrameWritesValue | raycast.c:221-243 | when rows are at most w pixels wide, after the whole fill, slot (h-k-1)*3w + 3j + c holds byte c of pixel (k, j) |
| RayCasting.FirstNull | raycast.c:193 | the first NULL slot: every slot before it holds an object |
| RayCasting.ScanFromOutcome | raycast.c:193-208 | from slot i with camera state (found, width, height): the scan fails "invalid size" iff a camera with a non-positive side lies before the first NULL; it fails "not found" iff no camera was or will be seen; on success, it returns the NULL index and the dimensions of the last camera |
| RayCasting.ScanOutcome | raycast.c:184-208 | "no object" iff slot 0 is NULL; "invalid size" iff some camera before the first NULL has width or height <= 0; "camera not found" iff there is none; otherwise i = the number of objects before the first NULL, and the dimensions are the last camera's and positive |
| RayCasting.ScanCameras | raycast.c:184-208 | the scan loop returns `Scan` of the slots |
| RayCasting.FrameOf | raycast.c:193-218 | the frame the fill renders: object count = the first NULL index, and the camera dimensions are positive |
| RayCasting.TracePixel | raycast.c:225-239 | the colour computed for pixel (k, j) through (vx, vy, 1) is `PixelColor`: that of the object `intersect` picks, else black |
| RayCasting.StorePixel | raycast.c:240-242 | the three `data[count++]` stores: count advances by 3 and the buffer is the old one with that pixel's stores applied |
| RayCasting.FillRow | raycast.c:222-243 | the j loop of row k leaves the buffer as the old one with row k's stores, from (h-k-1)*w*3, applied |
| RayCasting.Fill | raycast.c:221-244 | the nested loops leave the buffer as the old one with the stores of rows 0..h-1, each of h pixels, applied in order |
| RayCasting.RayCasting | raycast.c:182-246 | a scan failure is returned as is; otherwise a fresh buffer of w*h*sizeof(Pixel) slots holding the fill's stores applied to the allocation's contents |
| RayCasting.Rendered | raycast.c:221-244 | the buffer after the fill has the allocation's length |
| RayCasting.RenderedPixel | raycast.c:221-243 | for h <= w, channel c of pixel (k, j) lies inside the allocation at (h-k-1)*3w + 3j + c and holds the byte of that pixel's colour |
| RayCasting.RenderedSkipsColumns | raycast.c:224 | for h < w, columns h..w-1 of every row keep what the allocation held |
| RayCasting.RenderedTail | raycast.c:210-243 | for h <= w, the slots past the first 3wh keep what the allocation held |
| RayCasting.RenderedSquare | raycast.c:221-243 | for h == w, the fill stores each of the first 3wh slots exactly once |
| RayCasting.RenderedTallOverlaps | raycast.c:224 | for h > w, a later row's stores overwrite a slot an earlier row stored |

## Left out

- `main` (raycast.c:25-56): argument parsing, the width/height checks, `read_scene` and the exit codes are command-line plumbing.
- `writeImage` and `writeData` (raycast.c:104-143) are file I/O. This includes the P3 branch's blue-channel index without a `j` term (raycast.c:114).
- parser.c / `read_scene` is not part of this model. The scene reaches `RayCasting` as an already-populated slot sequence.
- Floating point is modelled as exact reals. Rounding, NaN and infinity are not modelled, so `INFINITY` as the initial `closest_t` becomes "no object chosen yet" (`closestObjectNum == -1`).
- `(int)(color*255)` truncation (raycast.c:231-233) is not modelled: colours are the integers it produces.
- `sqrt` is the parameter `sqrt`, required to return exact square roots.
- Vectors.Normalize: modelled on values, returning the unit vector instead of dividing the array `Rd` in place.
- Scene.Intersect: requires that no plane is parallel to the ray, because otherwise `planeIntersection` divides by zero.
- RayCasting.RayCasting: requires that no pixel ray of the loops is parallel to a plane of the scene, for the same reason.
- `malloc` failure and the NULL check of raycast.c:212-215 are not modelled, and neither is the `Image` header allocation of raycast.c:183. Allocation always succeeds.
- Integer overflow of `w*h*sizeof(Pixel)`, of `(h-k-1)*w*3` and of the `int` to `unsigned int` conversion is not modelled: sizes and offsets are unbounded integers.
- Process termination (`exit(1)`) is modelled as a returned `Failure`, so nothing is rendered after a failed scan.
- `sizeof(Pixel)` is taken as 12, for a 4-byte `unsigned int`.
- RayCasting.Fill: the inner loop's body is split into FillRow, TracePixel and StorePixel. This keeps each proof small; the order of computations and stores is the source's.

## Findings

| source | as written | input that shows it | evidently intended | confidence | as-written member | corrected member |
|---|---|---|---|---|---|---|
| raycast.c:224 | the column loop runs `for(j=0; j<h; j++)` | w = 3, h = 2: columns 2 of both rows are never stored and keep whatever `malloc` left; w = 1, h = 2: row 1's second pixel is stored over row 0's first slot | `j<w`, so each of the first 3wh slots is stored exactly once | not executed | PixelBuffer.NarrowFrameSkipsColumns | PixelBuffer.RowMajorWritesEachSlotOnce |

- The as-written behaviour is stated for the whole frame by
  PixelBuffer.NarrowFrameSkipsColumns and PixelBuffer.TallFrameRewritesSlots,
  and for the rendered buffer by
  RayCasting.RenderedSkipsColumns and RayCasting.RenderedTallOverlaps.
- The intended layout is `FrameOffsets(w, h, w, h)`: h rows of w pixels. For it,
  PixelBuffer.RowMajorWritesEachSlotOnce proves the exactly-once property.
- `RayCasting.RayCasting` and `Fill` keep the bound of the code,
  because they model the code as written.
- Because the allocation is 12 bytes per pixel, the wrong bound never makes a
  store fall outside the buffer (PixelBuffer.OffsetInBounds).
