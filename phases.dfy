/**
 * The firmware's schedule of ten phases (the `switch (state.index)` of
 * source/epaper.c): eight data phases, one per controller and bit plane,
 * then the refresh phase 8 and the idle phase 9 that waits for the host.
 */
module Phases {
  import opened Bus

  const DataPhases: nat := 8
  const RefreshPhase: nat := 8
  const StartPhase: nat := 9

  /** The controller a data phase writes to: m1, m1, s1, s1, m2, m2, s2, s2. */
  function Target(i: nat): Device
    requires i < DataPhases
  {
    if i < 2 then M1 else if i < 4 then S1 else if i < 6 then M2 else S2
  }

  /** Even phases write the first plane register (0x10), odd ones the second (0x13). */
  function Command(i: nat): (c: bv8)
    requires i < DataPhases
    ensures c == 0x10 || c == 0x13
  {
    if i % 2 == 0 then 0x10 else 0x13
  }

  /**
   * `maximum_count` of the phase: the number of payload bytes it forwards,
   * 81 or 82 bytes per row over 492 rows (m1 and s2 drive the left 648
   * columns, s1 and m2 the right 656). With the two sub-states that
   * precede the payload it fits the `uint16_t` counter of the source.
   */
  function PhaseCount(i: nat): (n: nat)
    requires i < DataPhases
    ensures 492 * 81 <= n <= 492 * 82
    ensures n + 2 < 0x1_0000
  {
    if 2 <= i < 6 then 492 * 82 else 492 * 81
  }

  /** Number of payload bytes forwarded by the phases before phase `i`. */
  function PhaseStart(i: nat): (n: nat)
    requires i <= DataPhases
  {
    if i == 0 then 0 else PhaseStart(i - 1) + PhaseCount(i - 1)
  }

  /** Payload bytes of a whole frame: the sum of the eight phase counts. */
  const FrameBytes: nat := 320784

  /** The phase starts, written out; the last one is the length of a frame. */
  lemma PhaseStartValues()
    ensures PhaseStart(0) == 0 && PhaseStart(1) == 39852 && PhaseStart(2) == 79704
    ensures PhaseStart(3) == 120048 && PhaseStart(4) == 160392 && PhaseStart(5) == 200736
    ensures PhaseStart(6) == 241080 && PhaseStart(7) == 280932
    ensures PhaseStart(DataPhases) == FrameBytes
  {
  }

  /** What data phase `i` puts on the bus for the given payload: its command to its target, then the payload. */
  function PhaseTransfers(i: nat, payload: seq<bv8>): (ts: seq<Transfer>)
    requires i < DataPhases
  {
    CommandTransfers(Select(Target(i)), PairOf(Target(i)), Command(i), payload)
  }

  /** The payloads of finished data phases, one per phase in order, each of its phase's length. */
  ghost predicate Finished(phases: seq<seq<bv8>>)
  {
    |phases| <= DataPhases && forall k :: 0 <= k < |phases| ==> |phases[k]| == PhaseCount(k)
  }

  /** Closing the next phase with a payload of its length keeps the phases finished. */
  lemma FinishedSnoc(phases: seq<seq<bv8>>, payload: seq<bv8>)
    requires Finished(phases) && |phases| < DataPhases && |payload| == PhaseCount(|phases|)
    ensures Finished(phases + [payload])
  {
  }

  /** The payloads of the given phases, back to back, as the host sends them. */
  function Flatten(phases: seq<seq<bv8>>): (bytes: seq<bv8>)
  {
    if phases == [] then [] else Flatten(phases[..|phases| - 1]) + phases[|phases| - 1]
  }

  /** Closing a phase appends its payload to the frame's bytes. */
  lemma FlattenSnoc(phases: seq<seq<bv8>>, payload: seq<bv8>)
    ensures Flatten(phases + [payload]) == Flatten(phases) + payload
  {
    assert (phases + [payload])[..|phases|] == phases;
  }

  /** Finished phases hold exactly the bytes the phases before the next one take. */
  lemma {:induction false} FlattenLength(phases: seq<seq<bv8>>)
    requires Finished(phases)
    ensures |Flatten(phases)| == PhaseStart(|phases|)
  {
    if phases != [] {
      assert Finished(phases[..|phases| - 1]);
      FlattenLength(phases[..|phases| - 1]);
    }
  }

  /**
   * The bus traffic of the data phases whose payloads are `phases`, in
   * order: each phase's command to its target, then its payload.
   */
  function FrameTransfers(phases: seq<seq<bv8>>): (ts: seq<Transfer>)
    requires |phases| <= DataPhases
  {
    if phases == [] then []
    else FrameTransfers(phases[..|phases| - 1]) + PhaseTransfers(|phases| - 1, phases[|phases| - 1])
  }

  /** Closing a phase appends its traffic to that of the phases before it. */
  lemma FrameTransfersSnoc(phases: seq<seq<bv8>>, payload: seq<bv8>)
    requires |phases| < DataPhases
    ensures FrameTransfers(phases + [payload]) == FrameTransfers(phases) + PhaseTransfers(|phases|, payload)
  {
    assert (phases + [payload])[..|phases|] == phases;
  }

  /** The status query of the refresh phase's busy poll, addressed to m1 alone. */
  function PollTransfers(polls: nat): (ts: seq<Transfer>)
    ensures |ts| == polls
  {
    if polls == 0 then [] else PollTransfers(polls - 1) + CommandTransfers(Select(M1), PairOf(M1), 0x71, [])
  }

  /** Every transfer of the poll is the status query 0x71 to m1. */
  lemma {:induction false} PollTransfersAt(polls: nat, k: nat)
    requires k < polls
    ensures PollTransfers(polls)[k] == Transfer(Select(M1), PairOf(M1), 0x71)
  {
    if k < polls - 1 {
      PollTransfersAt(polls - 1, k);
    }
  }

  /** A poll resumed after `a` queries and continued for `b` more puts `a + b` queries on the bus. */
  lemma {:induction false} PollTransfersAppend(a: nat, b: nat)
    ensures PollTransfers(a) + PollTransfers(b) == PollTransfers(a + b)
  {
    if b > 0 {
      PollTransfersAppend(a, b - 1);
    }
  }

  /** Commands of the refresh phase before the busy poll: power on both masters (0x04), start the refresh on all (0x12). */
  function RefreshOpening(): seq<Transfer>
  {
    CommandTransfers(Masters, MasterModes, 0x04, []) + CommandTransfers(AllChips, AllModes, 0x12, [])
  }

  /** Commands of the refresh phase after the busy poll: power off (0x02) and deep sleep (0x07 with check byte 0xa5), to all. */
  function RefreshClosing(): seq<Transfer>
  {
    CommandTransfers(AllChips, AllModes, 0x02, []) + CommandTransfers(AllChips, AllModes, 0x07, [0xa5])
  }

  /** The whole refresh phase on the bus when the busy pin read high at the `polls`-th query. */
  function RefreshTransfers(polls: nat): seq<Transfer>
  {
    RefreshOpening() + PollTransfers(polls) + RefreshClosing()
  }
}
