/**
 * The host and the firmware agree on the frame: the segment table of
 * scripts/epaper.py (`self.begins`) and the phase table of
 * source/epaper.c (`maximum_count`) cut the packed frame at the same
 * places, so the firmware forwards segment `i` of what the host packed as
 * the payload of phase `i`, to the controller and register the segment's
 * pixels and plane belong to.
 */
module Frame {
  import opened Bus
  import opened Phases
  import Packing

  /** Both programs count the same bytes per phase, and so start each phase at the same byte. */
  lemma TablesAgree(i: nat)
    requires i <= DataPhases
    ensures i < DataPhases ==> PhaseCount(i) == Packing.SegmentSize(i)
    ensures PhaseStart(i) == Packing.Begins()[i]
    ensures PhaseStart(DataPhases) == Packing.FrameBytes
  {
    PhaseStartValues();
    Packing.BeginsValues();
  }

  /**
   * The segment of the host's table that phase `i` forwards sits on the
   * display half its target drives: m1 and s1 the bottom half
   * (rows 492 to 983), m2 and s2 the top half; m1 and s2 take the left 648
   * columns, s1 and m2 the right 656. Register 0x10 gets the
   * high plane bit of each ink, register 0x13 the low one.
   */
  lemma PhaseGeometry(i: nat)
    requires i < DataPhases
    ensures Packing.RowBase(i) == (if Target(i) == M1 || Target(i) == S1 then Packing.HalfHeight else 0)
    ensures Packing.ColBase(i) == (if Target(i) == M1 || Target(i) == S2 then 0 else Packing.HalfWidth)
    ensures forall v: bv8 :: Packing.PlaneOf(v, i) == if Command(i) == 0x10 then v >> 1 else v & 1
  {
  }

  /**
   * Byte `k` of phase `i` is byte `PhaseStart(i) + k` of the frame: the
   * phases a stream of bytes fills are determined by the stream, phase
   * `i` taking the bytes from its start in the phase table on.
   */
  lemma {:induction false} FlattenAt(phases: seq<seq<bv8>>, i: nat, k: nat)
    requires Finished(phases) && i < |phases| && k < |phases[i]|
    ensures PhaseStart(i) + k < |Flatten(phases)|
    ensures Flatten(phases)[PhaseStart(i) + k] == phases[i][k]
    decreases |phases|
  {
    var n := |phases|;
    var front, last := phases[..n - 1], phases[n - 1];
    assert phases == front + [last];
    assert Finished(front);
    FlattenSnoc(front, last);
    FlattenLength(front);
    if i < n - 1 {
      FlattenAt(front, i, k);
      assert front[i] == phases[i];
    }
  }

  /**
   * End to end: once the firmware has finished all eight data phases of a
   * frame the host encoded from `img`, bit `7 - b` of byte `k` of phase
   * `i` is the plane bit of the pixel `send` put there; so every pixel's
   * ink reaches the register and controller that display it.
   */
  lemma PhasePixels(img: Packing.Image, phases: seq<seq<bv8>>, i: nat, k: nat, b: nat)
    requires Packing.Shaped(img)
    requires Finished(phases) && |phases| == DataPhases && Flatten(phases) == Packing.Encode(img)
    requires i < DataPhases && k < PhaseCount(i) && b < 8
    ensures k < Packing.SegmentSize(i)
    ensures Packing.BitOf(phases[i][k], b) == Packing.PackedBit(Packing.QuantiseImage(img), i, k, b)
  {
    FlattenAt(phases, i, k);
    TablesAgree(i);
    Packing.BitAtPacked(Packing.QuantiseImage(img), i, k, b);
  }
}
