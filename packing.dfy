/**
 * The frame format of scripts/epaper.py: how a 1304 x 984 grey-level
 * image becomes the 320784 bytes the host sends after the start token.
 *
 * Each grey level is first reduced to one of three inks (black 0, white 2,
 * red 3). The image is cut into four quadrants, one per controller, and
 * each quadrant into two bit planes: the high bit of the ink (white or
 * red versus black) and the low bit (red versus white or black). Each of
 * the eight resulting segments packs eight horizontally adjacent pixels
 * per byte, leftmost pixel in the most significant bit, row after row.
 */
module Packing {

  const Width: nat := 1304
  const Height: nat := 984
  /** The first row of the bottom half, driven by m1 and s1. */
  const HalfHeight: nat := 492
  /** The first column of the right half, driven by s1 and m2. */
  const HalfWidth: nat := 648
  const FrameBytes: nat := 320784

  type Image = seq<seq<bv8>>

  /** A grey-level image of the display's size, as `send` requires of its argument. */
  predicate Shaped(img: Image)
  {
    |img| == Height && forall row :: 0 <= row < Height ==> |img[row]| == Width
  }

  /**
   * The three masked assignments of `send`, one after the other: below 32
   * becomes 0, then above 222 becomes 2, then above 2 becomes 3. A pixel
   * that the second step turned into 2 is not caught by the third.
   */
  function Quantise(v: bv8): (ink: bv8)
    ensures v < 32 ==> ink == 0
    ensures v > 222 ==> ink == 2
    ensures 32 <= v <= 222 ==> ink == 3
  {
    var dark := if v < 32 then 0 else v;
    var light := if dark > 222 then 2 else dark;
    if light > 2 then 3 else light
  }

  /** An ink value: black 0, white 2 or red 3. */
  predicate Ink(v: bv8)
  {
    v == 0 || v == 2 || v == 3
  }

  /** Every pixel of the image is an ink value. */
  predicate Inked(q: Image)
  {
    Shaped(q) && forall row, col :: 0 <= row < Height && 0 <= col < Width ==> Ink(q[row][col])
  }

  /** The image after the three masked assignments. */
  function QuantiseImage(img: Image): (q: Image)
    requires Shaped(img)
    ensures Inked(q)
    ensures forall row, col :: 0 <= row < Height && 0 <= col < Width ==> q[row][col] == Quantise(img[row][col])
  {
    seq(Height, row requires 0 <= row < Height => seq(Width, col requires 0 <= col < Width => Quantise(img[row][col])))
  }

  /** `msb_frame` for even segments, `lsb_frame` for odd ones. */
  function PlaneOf(v: bv8, s: nat): bv8
  {
    if s % 2 == 0 then v >> 1 else v & 1
  }

  /** The two planes of an ink are single bits, and together they give the ink back. */
  lemma PlanesOfInk(v: bv8)
    requires Ink(v)
    ensures PlaneOf(v, 0) <= 1 && PlaneOf(v, 1) <= 1
    ensures v == 2 * PlaneOf(v, 0) + PlaneOf(v, 1)
  {
  }

  /** The number of bytes per row of segment `s`: 648 columns give 81, 656 give 82. */
  function Groups(s: nat): nat
  {
    if 2 <= s < 6 then 82 else 81
  }

  /** The first image row of segment `s`: segments 0 to 3 take the bottom half. */
  function RowBase(s: nat): nat
  {
    if s < 4 then HalfHeight else 0
  }

  /** The first image column of segment `s`: segments 2 to 5 take the right half. */
  function ColBase(s: nat): nat
  {
    if 2 <= s < 6 then HalfWidth else 0
  }

  /** The number of bytes of segment `s`. */
  function SegmentSize(s: nat): nat
  {
    HalfHeight * Groups(s)
  }

  /** The first operand of `numpy.cumsum` in `open.__init__`: 0, then the sizes of the eight segments. */
  const Sizes: seq<nat> := [0, 492 * 81, 492 * 81, 492 * 82, 492 * 82, 492 * 82, 492 * 82, 492 * 81, 492 * 81]

  /** Element `s` of `numpy.cumsum(xs)`: the sum of the first `s + 1` elements. */
  function RunningSum(xs: seq<nat>, s: nat): nat
    requires s < |xs|
  {
    if s == 0 then xs[0] else RunningSum(xs, s - 1) + xs[s]
  }

  /** `self.begins`: where each segment starts in the packed frame, and where the frame ends. */
  function Begins(): (b: seq<nat>)
    ensures |b| == 9
  {
    seq(9, s requires 0 <= s < 9 => RunningSum(Sizes, s))
  }

  lemma BeginsValues()
    ensures Begins() == [0, 39852, 79704, 120048, 160392, 200736, 241080, 280932, 320784]
  {
    assert RunningSum(Sizes, 1) == 39852;
    assert RunningSum(Sizes, 2) == 79704;
    assert RunningSum(Sizes, 3) == 120048;
    assert RunningSum(Sizes, 4) == 160392;
    assert RunningSum(Sizes, 5) == 200736;
    assert RunningSum(Sizes, 6) == 241080;
    assert RunningSum(Sizes, 7) == 280932;
    assert RunningSum(Sizes, 8) == 320784;
  }

  /**
   * Every slice assignment of `send` is well shaped: the slice of the
   * packed frame between two consecutive begins has exactly as many bytes
   * as the flattened plane it receives (492 rows of 81 or 82 groups of
   * eight columns), and the last begin is the packed frame's length,
   * a quarter of the pixel count.
   */
  lemma SegmentsTile(s: nat)
    requires s < 8
    ensures Begins()[s + 1] == Begins()[s] + SegmentSize(s)
    ensures Begins()[8] == FrameBytes == Width * Height / 4
  {
    BeginsValues();
  }

  /** The segment a byte of the packed frame belongs to. */
  function SegmentOf(j: nat): (s: nat)
    requires j < FrameBytes
    ensures s < 8
  {
    if j < 39852 then 0 else if j < 79704 then 1 else if j < 120048 then 2 else if j < 160392 then 3
    else if j < 200736 then 4 else if j < 241080 then 5 else if j < 280932 then 6 else 7
  }

  lemma SegmentOfBounds(j: nat)
    requires j < FrameBytes
    ensures Begins()[SegmentOf(j)] <= j < Begins()[SegmentOf(j) + 1]
  {
    BeginsValues();
  }

  /** The row and column of the pixel whose plane bit goes to bit `7 - b` of byte `k` of segment `s`. */
  function PixelRow(s: nat, k: nat): nat
    requires 0 < Groups(s)
  {
    RowBase(s) + k / Groups(s)
  }

  function PixelCol(s: nat, k: nat, b: nat): nat
    requires 0 < Groups(s)
  {
    ColBase(s) + 8 * (k % Groups(s)) + b
  }

  lemma PixelInside(s: nat, k: nat, b: nat)
    requires s < 8 && k < SegmentSize(s) && b < 8
    ensures PixelRow(s, k) < Height && PixelCol(s, k, b) < Width
  {
    if 2 <= s < 6 {
      assert k / 82 < HalfHeight;
    } else {
      assert k / 81 < HalfHeight;
    }
  }

  /**
   * The plane bit `(msb|lsb)_frame[row, col]` that `send` shifts into bit
   * `7 - b` of byte `k` of segment `s`: the flattened slice runs row by
   * row, `Groups(s)` bytes per row, and byte `c` of a row takes columns
   * `8 c` to `8 c + 7` from the segment's first column.
   */
  function PackedBit(q: Image, s: nat, k: nat, b: nat): bv8
    requires Shaped(q) && s < 8 && k < SegmentSize(s) && b < 8
  {
    PixelInside(s, k, b);
    PlaneOf(q[PixelRow(s, k)][PixelCol(s, k, b)], s)
  }

  /** Byte `k` of segment `s` after the first `n` rounds of the `bit` loop. */
  function OrBits(q: Image, s: nat, k: nat, n: nat): bv8
    requires Shaped(q) && s < 8 && k < SegmentSize(s) && n <= 8
  {
    if n == 0 then 0 else OrBits(q, s, k, n - 1) | Place(PackedBit(q, s, k, n - 1), n - 1)
  }

  /** Byte `j` of the packed frame after the first `n` rounds of the `bit` loop. */
  function PackedAfter(q: Image, j: nat, n: nat): bv8
    requires Shaped(q) && j < FrameBytes && n <= 8
  {
    SegmentOfBounds(j);
    SegmentsTile(SegmentOf(j));
    OrBits(q, SegmentOf(j), j - Begins()[SegmentOf(j)], n)
  }

  /** `packed_frame` once the loop is over, for an image already reduced to inks. */
  function Packed(q: Image): (packed: seq<bv8>)
    requires Shaped(q)
    ensures |packed| == FrameBytes
  {
    seq(FrameBytes, j requires 0 <= j < FrameBytes => PackedAfter(q, j, 8))
  }

  /** The frame `send` writes after the start token. */
  function Encode(img: Image): (packed: seq<bv8>)
    requires Shaped(img)
    ensures |packed| == FrameBytes
  {
    Packed(QuantiseImage(img))
  }

  /** On an image of inks, every plane bit is 0 or 1. */
  lemma PackedBitIsBit(q: Image, s: nat, k: nat, b: nat)
    requires Inked(q) && s < 8 && k < SegmentSize(s) && b < 8
    ensures PackedBit(q, s, k, b) <= 1
  {
    PixelInside(s, k, b);
    PlanesOfInk(q[PixelRow(s, k)][PixelCol(s, k, b)]);
  }

  /**
   * Reading bit `7 - b` of a byte built by `n` rounds of OR-ing single
   * plane bits: the round-`b` bit when round `b` has run, zero otherwise.
   * No round overwrites another's bit.
   */
  lemma {:induction false} OrBitsAt(q: Image, s: nat, k: nat, n: nat, b: nat)
    requires Inked(q) && s < 8 && k < SegmentSize(s) && n <= 8 && b < 8
    ensures BitOf(OrBits(q, s, k, n), b) == if b < n then PackedBit(q, s, k, b) else 0
  {
    if n > 0 {
      PackedBitIsBit(q, s, k, n - 1);
      ShiftedBit(OrBits(q, s, k, n - 1), PackedBit(q, s, k, n - 1), n - 1, b);
      OrBitsAt(q, s, k, n - 1, b);
      if b == n - 1 {
        OrBitsAt(q, s, k, n - 1, n - 1);
      }
    }
  }

  /** Where the high plane bit of a pixel goes: an even segment, a byte of it and a bit position. */
  datatype Spot = Spot(segment: nat, offset: nat, bit: nat)

  /**
   * The inverse of the slicing in `send`: the even segment whose plane
   * covers pixel (`row`, `col`), the byte of that segment, and the bit
   * (counted from the most significant) that carries it.
   */
  function Locate(row: nat, col: nat): (spot: Spot)
    requires row < Height && col < Width
    ensures spot.segment % 2 == 0 && spot.segment < 8
    ensures spot.offset < SegmentSize(spot.segment) && spot.bit < 8
    ensures PixelRow(spot.segment, spot.offset) == row
    ensures PixelCol(spot.segment, spot.offset, spot.bit) == col
  {
    if row >= HalfHeight && col < HalfWidth then
      Spot(0, (row - HalfHeight) * 81 + col / 8, col % 8)
    else if row >= HalfHeight then
      Spot(2, (row - HalfHeight) * 82 + (col - HalfWidth) / 8, (col - HalfWidth) % 8)
    else if col >= HalfWidth then
      Spot(4, row * 82 + (col - HalfWidth) / 8, (col - HalfWidth) % 8)
    else
      Spot(6, row * 81 + col / 8, col % 8)
  }

  /** The bit of the packed frame at bit `7 - b` of byte `k` of segment `s`. */
  function BitAt(packed: seq<bv8>, s: nat, k: nat, b: nat): bv8
    requires |packed| == FrameBytes && s < 8 && k < SegmentSize(s) && b < 8
  {
    SegmentsTile(s);
    BitOf(packed[Begins()[s] + k], b)
  }

  /** The ink of pixel (`row`, `col`) read back from a packed frame: its high plane bit, then its low one. */
  function InkAt(packed: seq<bv8>, row: nat, col: nat): bv8
    requires |packed| == FrameBytes && row < Height && col < Width
  {
    var spot := Locate(row, col);
    2 * BitAt(packed, spot.segment, spot.offset, spot.bit) + BitAt(packed, spot.segment + 1, spot.offset, spot.bit)
  }

  /** The image a packed frame describes, as the display controllers read it. */
  function Unpack(packed: seq<bv8>): (img: Image)
    requires |packed| == FrameBytes
    ensures Shaped(img)
  {
    seq(Height, row requires 0 <= row < Height => seq(Width, col requires 0 <= col < Width => InkAt(packed, row, col)))
  }

  /** Byte `k` of segment `s` is byte `Begins[s] + k` of the frame. */
  lemma SegmentOfAt(s: nat, k: nat)
    requires s < 8 && k < SegmentSize(s)
    ensures Begins()[s] + k < FrameBytes
    ensures SegmentOf(Begins()[s] + k) == s
  {
    BeginsValues();
  }

  /** Reading back one bit of the packed frame gives the plane bit `send` put there. */
  lemma BitAtPacked(q: Image, s: nat, k: nat, b: nat)
    requires Inked(q) && s < 8 && k < SegmentSize(s) && b < 8
    ensures BitAt(Packed(q), s, k, b) == PackedBit(q, s, k, b)
  {
    SegmentOfAt(s, k);
    OrBitsAt(q, s, k, 8, b);
  }

  /** An even segment and the next one cover the same pixels, with the high and the low plane. */
  lemma PlanePair(q: Image, s: nat, k: nat, b: nat)
    requires Shaped(q) && s % 2 == 0 && s < 8 && k < SegmentSize(s) && b < 8
    ensures SegmentSize(s + 1) == SegmentSize(s)
    ensures PixelRow(s, k) < Height && PixelCol(s, k, b) < Width
    ensures PackedBit(q, s, k, b) == PlaneOf(q[PixelRow(s, k)][PixelCol(s, k, b)], 0)
    ensures PackedBit(q, s + 1, k, b) == PlaneOf(q[PixelRow(s, k)][PixelCol(s, k, b)], 1)
  {
    PixelInside(s, k, b);
  }

  /** Reading back one pixel of the packed frame gives its ink. */
  lemma InkAtPacked(q: Image, row: nat, col: nat)
    requires Inked(q) && row < Height && col < Width
    ensures InkAt(Packed(q), row, col) == q[row][col]
  {
    var spot := Locate(row, col);
    PlanePair(q, spot.segment, spot.offset, spot.bit);
    BitAtPacked(q, spot.segment, spot.offset, spot.bit);
    BitAtPacked(q, spot.segment + 1, spot.offset, spot.bit);
    PlanesOfInk(q[row][col]);
  }

  /**
   * No pixel is lost or misplaced: unpacking the packed frame of an
   * image of inks gives that image back.
   */
  lemma UnpackPacked(q: Image)
    requires Inked(q)
    ensures Unpack(Packed(q)) == q
  {
    var back := Unpack(Packed(q));
    forall row | 0 <= row < Height
      ensures back[row] == q[row]
    {
      forall col | 0 <= col < Width
        ensures back[row][col] == q[row][col]
      {
        InkAtPacked(q, row, col);
      }
    }
  }

  /** What the display shows from the frame `send` writes: every pixel's grey level reduced to its ink. */
  lemma UnpackEncode(img: Image)
    requires Shaped(img)
    ensures Unpack(Encode(img)) == QuantiseImage(img)
  {
    UnpackPacked(QuantiseImage(img));
  }

  /** `p << (7 - b)`: a plane bit moved to position `7 - b` of a byte, most significant first. */
  function Place(p: bv8, b: nat): bv8
    requires b < 8
  {
    if b == 0 then p << 7 else if b == 1 then p << 6 else if b == 2 then p << 5 else if b == 3 then p << 4
    else if b == 4 then p << 3 else if b == 5 then p << 2 else if b == 6 then p << 1 else p
  }

  /** `(x >> (7 - b)) & 1`: the bit at position `7 - b` of a byte. */
  function BitOf(x: bv8, b: nat): bv8
    requires b < 8
  {
    if b == 0 then (x >> 7) & 1 else if b == 1 then (x >> 6) & 1 else if b == 2 then (x >> 5) & 1
    else if b == 3 then (x >> 4) & 1 else if b == 4 then (x >> 3) & 1 else if b == 5 then (x >> 2) & 1
    else if b == 6 then (x >> 1) & 1 else x & 1
  }

  /** The two helpers are the shifts they stand for. */
  lemma PlaceBitOf(p: bv8, x: bv8, b: nat)
    requires b < 8
    ensures Place(p, b) == p << (7 - b)
    ensures BitOf(x, b) == (x >> (7 - b)) & 1
  {
  }

  /** OR-ing a single bit into position `7 - m` changes only that position. */
  lemma ShiftedBit(x: bv8, p: bv8, m: nat, b: nat)
    requires p <= 1 && m < 8 && b < 8
    ensures BitOf(x | Place(p, m), b) == if b == m then BitOf(x, b) | p else BitOf(x, b)
  {
  }
}
