/** The image buffer of raycast.c: `w*h*sizeof(Pixel)` bytes of which the
    fill loop writes three per pixel, row k starting at (h-k-1)*w*3. */
module PixelBuffer {
  import opened Scene

  /** sizeof(Pixel): three 4-byte unsigned ints (raycast.c:9-13, 210). */
  const PixelBytes := 12

  /** The value an `unsigned char` slot receives when an `unsigned int` channel
      is stored into it: the low eight bits. */
  function Byte(x: int): (b: int)
    ensures 0 <= b < 256
    ensures (x - b) % 256 == 0
  {
    x % 256
  }

  /** Channel c (0 red, 1 green, 2 blue) of a colour. */
  function Channel(px: Rgb, c: int): int
  {
    if c == 0 then px.r else if c == 1 then px.g else px.b
  }

  /** The first slot written for row k (raycast.c:222): rows are stored
      bottom-up, so row k of the scan lands in buffer row h-k-1. */
  function RowStart(w: int, h: int, k: int): int
  {
    (h - k - 1) * w * 3
  }

  /** Slot of channel c of pixel (k, j) (raycast.c:222, 240-242). */
  function Slot(w: int, h: int, k: int, j: int, c: int): int
  {
    RowStart(w, h, k) + 3 * j + c
  }

  /** p falls inside the first `cols` pixels written from `start`. */
  predicate InRange(start: int, cols: int, p: int)
  {
    start <= p < start + 3 * cols
  }

  /** p falls inside the first `cols` pixels of buffer row k. */
  predicate InRow(w: int, h: int, cols: int, k: int, p: int)
  {
    InRange(RowStart(w, h, k), cols, p)
  }

  // ---- the order of the writes, offsets only ----

  /** Slots written by columns 0..j-1 of a row that starts at `start`, in order. */
  function RowOffsets(start: int, j: nat): (s: seq<int>)
    ensures |s| == 3 * j
    decreases j
  {
    if j == 0 then []
    else
      var b := start + 3 * (j - 1);
      RowOffsets(start, j - 1) + [b, b + 1, b + 2]
  }

  /** Slots written by rows 0..k-1 when every row runs over `cols` columns. */
  function FrameOffsets(w: int, h: int, cols: nat, k: nat): seq<int>
    decreases k
  {
    if k == 0 then []
    else FrameOffsets(w, h, cols, k - 1) + RowOffsets(RowStart(w, h, k - 1), cols)
  }

  /** How many times slot p occurs in a sequence of written slots. */
  function TimesWritten(s: seq<int>, p: int): nat
    decreases |s|
  {
    if s == [] then 0
    else TimesWritten(s[..|s| - 1], p) + (if s[|s| - 1] == p then 1 else 0)
  }

  lemma {:induction false} TimesWrittenAppend(s: seq<int>, t: seq<int>, p: int)
    ensures TimesWritten(s + t, p) == TimesWritten(s, p) + TimesWritten(t, p)
    decreases |t|
  {
    if t == [] {
      assert s + t == s;
    } else {
      assert (s + t)[..|s + t| - 1] == s + t[..|t| - 1];
      TimesWrittenAppend(s, t[..|t| - 1], p);
    }
  }

  lemma TimesWrittenPixel(b: int, p: int)
    ensures TimesWritten([b, b + 1, b + 2], p) == if b <= p < b + 3 then 1 else 0
  {
    assert [b, b + 1, b + 2][..2] == [b, b + 1];
    assert [b, b + 1][..1] == [b];
    assert [b][..0] == [];
    assert TimesWritten([b], p) == if b == p then 1 else 0;
    assert TimesWritten([b, b + 1], p) == TimesWritten([b], p) + if b + 1 == p then 1 else 0;
  }

  lemma MulMonotone(a: int, b: int, c: int)
    requires a <= b && c >= 0
    ensures a * c <= b * c
  {
  }

  /** Consecutive rows start 3*w slots apart. */
  lemma RowStartStep(w: int, h: int, k: int)
    ensures RowStart(w, h, k) == RowStart(w, h, k + 1) + 3 * w
  {
    assert (h - k - 1) * w == (h - (k + 1) - 1) * w + w;
  }

  /** A row writes each slot of its range once, and nothing else. */
  lemma {:induction false} RowCount(start: int, j: nat, p: int)
    ensures TimesWritten(RowOffsets(start, j), p) == if InRange(start, j, p) then 1 else 0
    decreases j
  {
    if j > 0 {
      RowCount(start, j - 1, p);
      var b := start + 3 * (j - 1);
      TimesWrittenAppend(RowOffsets(start, j - 1), [b, b + 1, b + 2], p);
      TimesWrittenPixel(b, p);
    }
  }

  /** A later row starts at least 3*w slots below an earlier one. */
  lemma RowsApart(w: int, h: int, r1: int, r2: int)
    requires w > 0 && r1 < r2
    ensures RowStart(w, h, r2) + 3 * w <= RowStart(w, h, r1)
  {
    MulMonotone(h - r2, h - r1 - 1, w);
    assert (h - r2) * w * 3 == RowStart(w, h, r2) + 3 * w;
  }

  /** Rows of at most w pixels never overlap. */
  lemma RowsDisjoint(w: int, h: int, cols: int, r1: int, r2: int, p: int)
    requires w > 0 && 0 <= cols <= w
    requires InRow(w, h, cols, r1, p) && InRow(w, h, cols, r2, p)
    ensures r1 == r2
  {
    if r1 < r2 {
      RowsApart(w, h, r1, r2);
      assert false;
    } else if r2 < r1 {
      RowsApart(w, h, r2, r1);
      assert false;
    }
  }

  /** With at most w columns per row, the first k rows write slot p once if it
      lies in one of them and never otherwise. */
  lemma {:induction false} FrameCount(w: int, h: int, cols: nat, k: nat, p: int)
    requires w > 0 && cols <= w
    ensures TimesWritten(FrameOffsets(w, h, cols, k), p)
         == if exists r :: 0 <= r < k && InRow(w, h, cols, r, p) then 1 else 0
    decreases k
  {
    if k > 0 {
      FrameCount(w, h, cols, k - 1, p);
      RowCount(RowStart(w, h, k - 1), cols, p);
      TimesWrittenAppend(FrameOffsets(w, h, cols, k - 1), RowOffsets(RowStart(w, h, k - 1), cols), p);
      if InRow(w, h, cols, k - 1, p) {
        forall r | 0 <= r < k - 1 && InRow(w, h, cols, r, p)
          ensures false
        {
          RowsDisjoint(w, h, cols, r, k - 1, p);
        }
      }
    }
  }

  lemma DivBounds(p: int, d: int)
    requires d > 0
    ensures (p / d) * d <= p < (p / d) * d + d
  {
    assert p == (p / d) * d + p % d;
  }

  /** The slot p of a buffer of h rows of 3*w slots lies in buffer row p/(3w). */
  lemma SlotRow(w: int, h: int, p: int) returns (m: int)
    requires w > 0 && 0 <= p < w * h * 3
    ensures 0 <= m < h && m * w * 3 <= p < m * w * 3 + 3 * w
  {
    var d := 3 * w;
    m := p / d;
    DivBounds(p, d);
    assert m * d == m * w * 3;
    assert w * h * 3 == h * d;
    if m >= h {
      MulMonotone(h, m, d);
      assert false;
    }
    if m < 0 {
      MulMonotone(m, -1, d);
      assert false;
    }
  }

  /** Rows 0..h-1 of w pixels cover exactly the slots 0..3*w*h-1. */
  lemma RowsCover(w: int, h: int, p: int)
    requires w > 0 && h >= 0
    ensures (exists r :: 0 <= r < h && InRow(w, h, w, r, p)) <==> 0 <= p < w * h * 3
  {
    if 0 <= p < w * h * 3 {
      var m := SlotRow(w, h, p);
      assert RowStart(w, h, h - 1 - m) == m * w * 3;
      assert InRow(w, h, w, h - 1 - m, p);
    }
    forall r | 0 <= r < h && InRow(w, h, w, r, p)
      ensures 0 <= p < w * h * 3
    {
      MulMonotone(0, h - r - 1, w);
      MulMonotone(h - r, h, w);
      assert RowStart(w, h, r) + 3 * w == (h - r) * w * 3;
      assert h * w * 3 == w * h * 3;
    }
  }

  /** With w columns per row, h rows write every slot of the first 3*w*h
      exactly once and no slot beyond. */
  lemma RowMajorWritesEachSlotOnce(w: int, h: nat)
    requires w > 0
    ensures forall p :: 0 <= p < w * h * 3 ==> TimesWritten(FrameOffsets(w, h, w, h), p) == 1
    ensures forall p :: (p < 0 || w * h * 3 <= p) ==> TimesWritten(FrameOffsets(w, h, w, h), p) == 0
  {
    forall p
      ensures TimesWritten(FrameOffsets(w, h, w, h), p) == if 0 <= p < w * h * 3 then 1 else 0
    {
      FrameCount(w, h, w, h, p);
      RowsCover(w, h, p);
    }
  }

  /** raycast.c runs the column loop up to h. When h == w that writes every
      slot of the first 3*w*h exactly once. */
  lemma SquareFrameWritesEachSlotOnce(w: int, h: nat)
    requires w > 0 && h == w
    ensures forall p :: 0 <= p < w * h * 3 ==> TimesWritten(FrameOffsets(w, h, h, h), p) == 1
    ensures forall p :: (p < 0 || w * h * 3 <= p) ==> TimesWritten(FrameOffsets(w, h, h, h), p) == 0
  {
    RowMajorWritesEachSlotOnce(w, h);
  }

  /** When h < w, the column loop bound h leaves columns h..w-1 of every row
      unwritten. */
  lemma NarrowFrameSkipsColumns(w: int, h: nat)
    requires 0 < h < w
    ensures forall k, j, c :: 0 <= k < h && h <= j < w && 0 <= c < 3 ==>
              TimesWritten(FrameOffsets(w, h, h, h), Slot(w, h, k, j, c)) == 0
  {
    forall k, j, c | 0 <= k < h && h <= j < w && 0 <= c < 3
      ensures TimesWritten(FrameOffsets(w, h, h, h), Slot(w, h, k, j, c)) == 0
    {
      var p := Slot(w, h, k, j, c);
      FrameCount(w, h, h, h, p);
      forall r | 0 <= r < h && InRow(w, h, h, r, p)
        ensures false
      {
        assert InRow(w, h, w, r, p) && InRow(w, h, w, k, p);
        RowsDisjoint(w, h, w, r, k, p);
      }
    }
  }

  lemma {:induction false} FrameOffsetsGrow(w: int, h: int, cols: nat, k: nat, p: int)
    requires k >= 2
    ensures TimesWritten(FrameOffsets(w, h, cols, k), p) >= TimesWritten(FrameOffsets(w, h, cols, 2), p)
    decreases k
  {
    if k > 2 {
      var previous := FrameOffsets(w, h, cols, k - 1);
      var row := RowOffsets(RowStart(w, h, k - 1), cols);
      assert FrameOffsets(w, h, cols, k) == previous + row;
      FrameOffsetsGrow(w, h, cols, k - 1, p);
      TimesWrittenAppend(previous, row, p);
    }
  }

  /** When h > w, row 1 runs past its w pixels into the slots of row 0: the
      first slot of buffer row h-1 is written twice. */
  lemma TallFrameRewritesSlots(w: int, h: nat)
    requires 0 < w < h
    ensures TimesWritten(FrameOffsets(w, h, h, h), RowStart(w, h, 0)) >= 2
  {
    var p := RowStart(w, h, 0);
    FrameOffsetsGrow(w, h, h, h, p);
    RowCount(RowStart(w, h, 0), h, p);
    RowCount(RowStart(w, h, 1), h, p);
    RowStartStep(w, h, 0);
    assert FrameOffsets(w, h, h, 2) == RowOffsets(RowStart(w, h, 0), h) + RowOffsets(RowStart(w, h, 1), h);
    TimesWrittenAppend(RowOffsets(RowStart(w, h, 0), h), RowOffsets(RowStart(w, h, 1), h), p);
  }

  /** With at most w columns per row, h rows write nothing outside the first
      3*w*h slots (the rest of the w*h*sizeof(Pixel) allocation). */
  lemma FrameStaysInside(w: int, h: nat, cols: nat)
    requires w > 0 && cols <= w
    ensures forall p :: (p < 0 || w * h * 3 <= p) ==> TimesWritten(FrameOffsets(w, h, cols, h), p) == 0
  {
    forall p | p < 0 || w * h * 3 <= p
      ensures TimesWritten(FrameOffsets(w, h, cols, h), p) == 0
    {
      FrameCount(w, h, cols, h, p);
      RowsCover(w, h, p);
      forall r | 0 <= r < h && InRow(w, h, cols, r, p)
        ensures InRow(w, h, w, r, p)
      {
      }
    }
  }

  /** Slot c of column j < w of buffer row h-k-1 lies in the first 3*w*h slots. */
  lemma SlotInside(w: int, h: int, k: int, j: int, c: int)
    requires 0 <= k < h && 0 <= j < w && 0 <= c < 3
    ensures 0 <= Slot(w, h, k, j, c) < w * h * 3
  {
    MulMonotone(0, h - k - 1, w);
    MulMonotone(h - k - 1, h - 1, w);
    assert (h - 1) * w * 3 == w * h * 3 - 3 * w;
  }

  /** Every slot the fill loop writes lies inside the w*h*sizeof(Pixel) bytes
      it allocated, even though the column loop runs to h. */
  lemma OffsetInBounds(w: int, h: int, k: int, j: int)
    requires w > 0 && 0 <= k < h && 0 <= j < h
    ensures 0 <= Slot(w, h, k, j, 0)
    ensures Slot(w, h, k, j, 2) < w * h * PixelBytes
  {
    MulMonotone(0, h - k - 1, w);
    MulMonotone(h - k - 1, h - 1, w);
    MulMonotone(1, w, h);
    assert (h - 1) * w * 3 == w * h * 3 - 3 * w;
    assert w * h * PixelBytes == w * h * 3 + 9 * (w * h);
  }

  // ---- the writes themselves ----

  /** One store `buffer->data[count++] = value`. */
  datatype Write = Write(offset: int, value: int)

  /** The three stores of one pixel (raycast.c:240-242). */
  function PixelWrites(base: int, px: Rgb): seq<Write>
  {
    [Write(base, Byte(px.r)), Write(base + 1, Byte(px.g)), Write(base + 2, Byte(px.b))]
  }

  /** The stores of one row, pixel after pixel from `start`. */
  function RowWrites(start: int, row: seq<Rgb>): seq<Write>
    decreases |row|
  {
    if row == [] then []
    else RowWrites(start, row[..|row| - 1]) + PixelWrites(start + 3 * (|row| - 1), row[|row| - 1])
  }

  /** The stores of the whole fill: row k of `image` from RowStart(w, h, k). */
  function FrameWrites(w: int, h: int, image: seq<seq<Rgb>>): seq<Write>
    decreases |image|
  {
    if image == [] then []
    else FrameWrites(w, h, image[..|image| - 1]) + RowWrites(RowStart(w, h, |image| - 1), image[|image| - 1])
  }

  function Offsets(ws: seq<Write>): (s: seq<int>)
    ensures |s| == |ws| && forall i :: 0 <= i < |ws| ==> s[i] == ws[i].offset
  {
    seq(|ws|, i requires 0 <= i < |ws| => ws[i].offset)
  }

  /** One store into the buffer; a store outside it changes nothing. */
  function ApplyOne(a: seq<int>, wr: Write): (b: seq<int>)
    ensures |b| == |a|
  {
    if 0 <= wr.offset < |a| then a[wr.offset := wr.value] else a
  }

  /** The buffer after the stores, in order. */
  function Apply(a: seq<int>, ws: seq<Write>): (b: seq<int>)
    ensures |b| == |a|
    decreases |ws|
  {
    if ws == [] then a else ApplyOne(Apply(a, ws[..|ws| - 1]), ws[|ws| - 1])
  }

  lemma {:induction false} ApplyAppend(a: seq<int>, xs: seq<Write>, ys: seq<Write>)
    ensures Apply(a, xs + ys) == Apply(Apply(a, xs), ys)
    decreases |ys|
  {
    if ys == [] {
      assert xs + ys == xs;
    } else {
      assert (xs + ys)[..|xs + ys| - 1] == xs + ys[..|ys| - 1];
      ApplyAppend(a, xs, ys[..|ys| - 1]);
    }
  }

  /** A slot no store names keeps its value. */
  lemma {:induction false} ApplyUntouched(a: seq<int>, ws: seq<Write>, p: int)
    requires 0 <= p < |a| && TimesWritten(Offsets(ws), p) == 0
    ensures Apply(a, ws)[p] == a[p]
    decreases |ws|
  {
    if ws != [] {
      assert Offsets(ws)[..|ws| - 1] == Offsets(ws[..|ws| - 1]);
      ApplyUntouched(a, ws[..|ws| - 1], p);
    }
  }

  lemma OffsetsAppend(xs: seq<Write>, ys: seq<Write>)
    ensures Offsets(xs + ys) == Offsets(xs) + Offsets(ys)
  {
  }

  lemma {:induction false} RowWritesOffsets(start: int, row: seq<Rgb>)
    ensures Offsets(RowWrites(start, row)) == RowOffsets(start, |row|)
    decreases |row|
  {
    if row != [] {
      var last := |row| - 1;
      RowWritesOffsets(start, row[..last]);
      OffsetsAppend(RowWrites(start, row[..last]), PixelWrites(start + 3 * last, row[last]));
    }
  }

  /** The stores of the fill hit the slots FrameOffsets lists, in order. */
  lemma {:induction false} FrameWritesOffsets(w: int, h: int, image: seq<seq<Rgb>>, cols: nat)
    requires forall r :: 0 <= r < |image| ==> |image[r]| == cols
    ensures Offsets(FrameWrites(w, h, image)) == FrameOffsets(w, h, cols, |image|)
    decreases |image|
  {
    if image != [] {
      var last := |image| - 1;
      FrameWritesOffsets(w, h, image[..last], cols);
      RowWritesOffsets(RowStart(w, h, last), image[last]);
      OffsetsAppend(FrameWrites(w, h, image[..last]), RowWrites(RowStart(w, h, last), image[last]));
    }
  }

  /** The three stores of a pixel inside the buffer, as sequence updates. */
  lemma PixelWritesStore(a: seq<int>, base: int, px: Rgb)
    requires 0 <= base && base + 2 < |a|
    ensures Apply(a, PixelWrites(base, px))
         == a[base := Byte(px.r)][base + 1 := Byte(px.g)][base + 2 := Byte(px.b)]
  {
    var ws := PixelWrites(base, px);
    assert ws[..2] == [ws[0], ws[1]];
    assert ws[..2][..1] == [ws[0]];
    assert [ws[0]][..0] == [];
    assert Apply(a, [ws[0]]) == ApplyOne(a, ws[0]);
    assert Apply(a, ws[..2]) == ApplyOne(ApplyOne(a, ws[0]), ws[1]);
  }

  /** Storing row k of an image after its first k rows. */
  lemma FrameWritesStep(w: int, h: int, image: seq<seq<Rgb>>, k: nat)
    requires k < |image|
    ensures FrameWrites(w, h, image[..k + 1])
         == FrameWrites(w, h, image[..k]) + RowWrites(RowStart(w, h, k), image[k])
  {
    assert image[..k + 1][..k] == image[..k];
  }

  /** Storing pixel j of a row after its first j pixels. */
  lemma RowWritesStep(a: seq<int>, before: seq<int>, after: seq<int>, start: int, row: seq<Rgb>, j: nat)
    requires j < |row|
    requires before == Apply(a, RowWrites(start, row[..j]))
    requires after == Apply(before, PixelWrites(start + 3 * j, row[j]))
    ensures after == Apply(a, RowWrites(start, row[..j + 1]))
  {
    assert row[..j + 1][..j] == row[..j];
    ApplyAppend(a, RowWrites(start, row[..j]), PixelWrites(start + 3 * j, row[j]));
  }

  lemma PixelApply(a: seq<int>, base: int, px: Rgb, q: int)
    requires 0 <= q < |a|
    ensures base <= q < base + 3 && base + 2 < |a| && base >= 0 ==>
              Apply(a, PixelWrites(base, px))[q] == Byte(Channel(px, q - base))
    ensures (q < base || base + 3 <= q) ==> Apply(a, PixelWrites(base, px))[q] == a[q]
  {
    var ws := PixelWrites(base, px);
    assert ws[..2] == [ws[0], ws[1]];
    assert ws[..2][..1] == [ws[0]];
    assert [ws[0]][..0] == [];
    var a1 := ApplyOne(a, ws[0]);
    var a2 := ApplyOne(a1, ws[1]);
    assert Apply(a, [ws[0]]) == a1;
    assert Apply(a, ws[..2]) == a2;
    assert Apply(a, ws) == ApplyOne(a2, ws[2]);
  }

  /** Within a row, pixel j's channel c holds that channel's byte. */
  lemma {:induction false} RowWritesValue(a: seq<int>, start: int, row: seq<Rgb>, j: int, c: int)
    requires 0 <= j < |row| && 0 <= c < 3
    requires 0 <= start && start + 3 * |row| <= |a|
    ensures Apply(a, RowWrites(start, row))[start + 3 * j + c] == Byte(Channel(row[j], c))
    decreases |row|
  {
    var last := |row| - 1;
    var prev := RowWrites(start, row[..last]);
    ApplyAppend(a, prev, PixelWrites(start + 3 * last, row[last]));
    PixelApply(Apply(a, prev), start + 3 * last, row[last], start + 3 * j + c);
    if j < last {
      RowWritesValue(a, start, row[..last], j, c);
    }
  }

  /** With rows of at most w pixels, pixel j of row k holds its colour. */
  lemma {:induction false} FrameWritesValue(a: seq<int>, w: int, h: int, image: seq<seq<Rgb>>, k: int, j: int, c: int)
    requires w > 0 && forall r :: 0 <= r < |image| ==> |image[r]| <= w
    requires 0 <= k < |image| && 0 <= j < |image[k]| && 0 <= c < 3
    requires 0 <= RowStart(w, h, k) && RowStart(w, h, k) + 3 * |image[k]| <= |a|
    ensures Apply(a, FrameWrites(w, h, image))[Slot(w, h, k, j, c)] == Byte(Channel(image[k][j], c))
    decreases |image|
  {
    var last := |image| - 1;
    var p := Slot(w, h, k, j, c);
    var prev := FrameWrites(w, h, image[..last]);
    var row := RowWrites(RowStart(w, h, last), image[last]);
    ApplyAppend(a, prev, row);
    if k == last {
      RowWritesValue(Apply(a, prev), RowStart(w, h, last), image[last], j, c);
    } else {
      FrameWritesValue(a, w, h, image[..last], k, j, c);
      RowWritesOffsets(RowStart(w, h, last), image[last]);
      RowCount(RowStart(w, h, last), |image[last]|, p);
      if InRange(RowStart(w, h, last), |image[last]|, p) {
        assert InRow(w, h, w, last, p) && InRow(w, h, w, k, p);
        RowsDisjoint(w, h, w, last, k, p);
      }
      ApplyUntouched(Apply(a, prev), row, p);
    }
  }
}
