/**
 * `open.send` of scripts/epaper.py, step by step on arrays: copy the
 * frame, apply the three masked assignments in place, split the two bit
 * planes, OR each plane bit into the packed frame, then write the start
 * token and the packed frame and check the device's reply.
 *
 * The serial port is a parameter: what `send` writes is returned, and
 * the byte it reads back is `reply`.
 */
module Encoder {
  import opened Wrappers
  import opened Packing

  /** Why `send` gives up: a frame of the wrong shape, or a reply other than 'r'. */
  datatype SendError = BadShape | NotAcknowledged

  /** The handshake token 'r'. */
  const StartToken: bv8 := 0x72

  /** The comparison of a masked assignment `frame[frame < limit]` or `frame[frame > limit]`. */
  datatype Comparison = Below | Above

  predicate Hits(c: Comparison, v: bv8, limit: bv8)
  {
    match c
    case Below => v < limit
    case Above => v > limit
  }

  /** The value of one pixel after a masked assignment. */
  function Masked(c: Comparison, v: bv8, limit: bv8, value: bv8): bv8
  {
    if Hits(c, v, limit) then value else v
  }

  /** The pixels of a two-dimensional array, row by row. */
  function Pixels(a: array2<bv8>): (img: Image)
    reads a
    ensures |img| == a.Length0 && forall row :: 0 <= row < |img| ==> |img[row]| == a.Length1
  {
    seq(a.Length0, row requires 0 <= row < a.Length0 reads a =>
      seq(a.Length1, col requires 0 <= col < a.Length1 reads a => a[row, col]))
  }

  /**
   * `frame[frame < limit] = value` or `frame[frame > limit] = value`:
   * every pixel the comparison selects takes `value`, the others keep
   * theirs.
   */
  method Replace(a: array2<bv8>, c: Comparison, limit: bv8, value: bv8)
    modifies a
    ensures forall row, col :: 0 <= row < a.Length0 && 0 <= col < a.Length1 ==>
      a[row, col] == Masked(c, old(a[row, col]), limit, value)
  {
    for row := 0 to a.Length0
      invariant forall r, col :: 0 <= r < a.Length0 && 0 <= col < a.Length1 ==>
        a[r, col] == if r < row then Masked(c, old(a[r, col]), limit, value) else old(a[r, col])
    {
      for col := 0 to a.Length1
        invariant forall r, k :: 0 <= r < a.Length0 && 0 <= k < a.Length1 ==>
          a[r, k] == if r < row || (r == row && k < col) then Masked(c, old(a[r, k]), limit, value) else old(a[r, k])
      {
        if Hits(c, a[row, col], limit) {
          a[row, col] := value;
        }
      }
    }
  }

  /**
   * Lines 40 to 43 of `send`: a copy of the frame with each pixel reduced
   * to its ink by three masked assignments in a row.
   */
  method Inks(frame: array2<bv8>) returns (inks: array2<bv8>)
    requires frame.Length0 == Height && frame.Length1 == Width
    ensures fresh(inks) && inks.Length0 == Height && inks.Length1 == Width
    ensures Shaped(Pixels(frame))
    ensures forall row, col :: 0 <= row < Height && 0 <= col < Width ==>
      inks[row, col] == QuantiseImage(Pixels(frame))[row][col]
  {
    inks := new bv8[Height, Width]((row, col) requires 0 <= row < Height && 0 <= col < Width reads frame => frame[row, col]);
    Replace(inks, Below, 32, 0);
    Replace(inks, Above, 222, 2);
    Replace(inks, Above, 2, 3);
  }

  /**
   * One step of the loop: round `bit` ORs the plane bit of the pixel at
   * `PixelRow(s, k)`, `PixelCol(s, k, bit)` into bit `7 - bit` of byte
   * `k` of segment `s`, which is byte `Begins()[s] + k` of the frame.
   */
  lemma PackedAfterStep(q: Image, s: nat, k: nat, bit: nat)
    requires Shaped(q) && s < 8 && k < SegmentSize(s) && bit < 8
    ensures Begins()[s] + k < FrameBytes
    ensures PixelRow(s, k) < Height && PixelCol(s, k, bit) < Width
    ensures PackedAfter(q, Begins()[s] + k, bit + 1)
      == PackedAfter(q, Begins()[s] + k, bit) | Place(PlaneOf(q[PixelRow(s, k)][PixelCol(s, k, bit)], s), bit)
  {
    SegmentOfAt(s, k);
    PixelInside(s, k, bit);
  }

  /**
   * The packed frame partway through round `bit` of the loop: the bytes
   * before `next` hold `bit + 1` rounds, the others `bit` rounds.
   */
  ghost predicate RoundReached(q: Image, packed: seq<bv8>, bit: nat, next: nat)
    requires Shaped(q) && bit < 8
  {
    |packed| == FrameBytes &&
    forall j :: 0 <= j < FrameBytes ==> packed[j] == PackedAfter(q, j, if j < next then bit + 1 else bit)
  }

  /** ORing the next plane bit into the next byte of segment `s` moves the round on by one byte. */
  lemma RoundStep(q: Image, packed: seq<bv8>, s: nat, k: nat, bit: nat)
    requires Shaped(q) && s < 8 && k < SegmentSize(s) && bit < 8
    requires RoundReached(q, packed, bit, Begins()[s] + k)
    ensures Begins()[s] + k < FrameBytes
    ensures PixelRow(s, k) < Height && PixelCol(s, k, bit) < Width
    ensures RoundReached(q, packed[Begins()[s] + k := packed[Begins()[s] + k] | Place(PlaneOf(q[PixelRow(s, k)][PixelCol(s, k, bit)], s), bit)],
      bit, Begins()[s] + k + 1)
  {
    PackedAfterStep(q, s, k, bit);
  }

  /**
   * The body of the `segment` loop of `send` for one round: OR bit
   * `7 - bit` of every byte of segment `s` from the segment's plane.
   * Bytes of earlier segments already hold round `bit`; afterwards the
   * bytes of segment `s` do too, and nothing else changes.
   */
  method OrSegment(packed: array<bv8>, plane: array2<bv8>, ghost q: Image, s: nat, bit: nat)
    requires Shaped(q) && s < 8 && bit < 8
    requires plane.Length0 == Height && plane.Length1 == Width
    requires forall row, col :: 0 <= row < Height && 0 <= col < Width ==> plane[row, col] == PlaneOf(q[row][col], s)
    requires RoundReached(q, packed[..], bit, Begins()[s])
    modifies packed
    ensures RoundReached(q, packed[..], bit, Begins()[s + 1])
  {
    var begin := Begins()[s];
    SegmentsTile(s);
    for k := 0 to SegmentSize(s)
      invariant RoundReached(q, packed[..], bit, begin + k)
    {
      RoundStep(q, packed[..], s, k, bit);
      packed[begin + k] := packed[begin + k] | Place(plane[PixelRow(s, k), PixelCol(s, k, bit)], bit);
    }
  }

  /**
   * The loop of `send`: for each of the eight bit positions, for each of
   * the eight segments, OR the plane bit of every pixel that falls on
   * that position into the segment's bytes; even segments take the high
   * plane and odd ones the low plane.
   */
  method Pack(msb: array2<bv8>, lsb: array2<bv8>, ghost q: Image) returns (packed: array<bv8>)
    requires Shaped(q)
    requires msb.Length0 == Height && msb.Length1 == Width && lsb.Length0 == Height && lsb.Length1 == Width
    requires forall row, col :: 0 <= row < Height && 0 <= col < Width ==>
      msb[row, col] == PlaneOf(q[row][col], 0) && lsb[row, col] == PlaneOf(q[row][col], 1)
    ensures fresh(packed)
    ensures packed[..] == Packed(q)
  {
    packed := new bv8[FrameBytes](_ => 0);
    BeginsValues();
    for bit := 0 to 8
      invariant packed.Length == FrameBytes
      invariant forall j :: 0 <= j < FrameBytes ==> packed[j] == PackedAfter(q, j, bit)
    {
      for s := 0 to 8
        invariant RoundReached(q, packed[..], bit, Begins()[s])
      {
        var plane := if s % 2 == 0 then msb else lsb;
        OrSegment(packed, plane, q, s, bit);
      }
    }
    assert packed[..] == Packed(q);
  }

  /**
   * `send`: check the frame's shape, pack it, write 'r' and the packed
   * frame, and check that the device answers 'r'. The frame itself is
   * left unchanged.
   */
  method Send(frame: array2<bv8>, reply: bv8) returns (written: seq<bv8>, error: Option<SendError>)
    ensures !(frame.Length0 == Height && frame.Length1 == Width) ==> written == [] && error == Some(BadShape)
    ensures frame.Length0 == Height && frame.Length1 == Width ==>
      && Shaped(Pixels(frame))
      && written == [StartToken] + Encode(Pixels(frame))
      && error == (if reply == StartToken then None else Some(NotAcknowledged))
  {
    if frame.Length0 != Height || frame.Length1 != Width {
      written, error := [], Some(BadShape);
      return;
    }
    var inks := Inks(frame);
    ghost var q := QuantiseImage(Pixels(frame));
    var lsb := new bv8[Height, Width]((row, col) requires 0 <= row < Height && 0 <= col < Width reads inks => PlaneOf(inks[row, col], 1));
    var msb := new bv8[Height, Width]((row, col) requires 0 <= row < Height && 0 <= col < Width reads inks => PlaneOf(inks[row, col], 0));
    var packed := Pack(msb, lsb, q);
    written := [StartToken] + packed[..];
    error := if reply == StartToken then None else Some(NotAcknowledged);
  }
}
