/**
 * The frame-forwarding engine of source/epaper.c: the `state` struct of
 * the main loop and the loop body that runs once per iteration.
 *
 * Hardware status bits are inputs of each step: `rx` is the byte in UDR0
 * when the receive-complete flag RXC0 is set (None when it is clear),
 * `spif` the SPI transfer-complete flag, `busyReads` the successive
 * readings of m1's busy pin during the refresh phase's poll.
 *
 * Ghost fields record what the engine has done since the last restart:
 * `accepted` (every byte stored in the buffer), `phases` (the payloads
 * of the data phases already closed), `payload` (the bytes the current
 * data phase has started on the bus) and `prior` (the bus traffic before
 * the restart) and `polled` (the status queries of the current or last
 * refresh phase's busy poll).
 */
module Engine {
  import opened Wrappers
  import opened Bus
  import opened Phases
  import Ring

  /** The handshake token 'r', in both directions. */
  const StartToken: bv8 := 0x72

  /** Payload bytes a data phase has started when its sub-state counter is `count`. */
  function Streamed(count: nat): nat
  {
    if count <= 2 then 0 else count - 2
  }

  /** The bus traffic of data phase `i` so far: nothing before its command byte, else the command and the payload started. */
  function CurrentTransfers(i: nat, count: nat, payload: seq<bv8>): seq<Transfer>
    requires i < DataPhases
  {
    if count == 0 then [] else PhaseTransfers(i, payload)
  }

  /** The command byte of data phase `i` as it appears on the bus. */
  function CommandTransfer(i: nat): Transfer
    requires i < DataPhases
  {
    Transfer(Select(Target(i)), PairOf(Target(i)), Command(i))
  }

  /** A payload byte of data phase `i` as it appears on the bus. */
  function PayloadTransfer(i: nat, b: bv8): Transfer
    requires i < DataPhases
  {
    Transfer(Select(Target(i)), NoModes, b)
  }

  /** Starting the command byte opens the traffic of data phase `i`. */
  lemma CommandStep(before: seq<Transfer>, prior: seq<Transfer>, phases: seq<seq<bv8>>, i: nat)
    requires |phases| == i < DataPhases
    requires before == prior + FrameTransfers(phases) + CurrentTransfers(i, 0, [])
    ensures before + [CommandTransfer(i)] == prior + FrameTransfers(phases) + CurrentTransfers(i, 1, [])
  {
  }

  /** Starting a payload byte extends the traffic of data phase `i` by that byte. */
  lemma PayloadStep(before: seq<Transfer>, prior: seq<Transfer>, phases: seq<seq<bv8>>, i: nat, count: nat, payload: seq<bv8>, b: bv8)
    requires |phases| == i < DataPhases && 2 <= count
    requires before == prior + FrameTransfers(phases) + CurrentTransfers(i, count, payload)
    ensures before + [PayloadTransfer(i, b)]
         == prior + FrameTransfers(phases) + CurrentTransfers(i, count + 1, payload + [b])
  {
    var current := CurrentTransfers(i, count, payload);
    CommandTransfersSnoc(Select(Target(i)), PairOf(Target(i)), Command(i), payload, b);
    assert before + [PayloadTransfer(i, b)] == prior + FrameTransfers(phases) + (current + [PayloadTransfer(i, b)]);
  }

  /** Once its last payload byte is out, data phase `i` joins the closed phases. */
  lemma PhaseStep(before: seq<Transfer>, prior: seq<Transfer>, phases: seq<seq<bv8>>, i: nat, count: nat, payload: seq<bv8>)
    requires |phases| == i < DataPhases && 0 < count
    requires before == prior + FrameTransfers(phases) + CurrentTransfers(i, count, payload)
    ensures before == prior + FrameTransfers(phases + [payload])
  {
    FrameTransfersSnoc(phases, payload);
    Associative(prior, FrameTransfers(phases), PhaseTransfers(i, payload));
  }

  lemma Associative<T>(a: seq<T>, b: seq<T>, c: seq<T>)
    ensures a + b + c == a + (b + c)
  {
  }

  /** Moving a byte from the buffer's front to the end of the payload keeps the byte order. */
  lemma Shift(front: seq<bv8>, payload: seq<bv8>, b: bv8, rest: seq<bv8>)
    ensures front + payload + ([b] + rest) == front + (payload + [b]) + rest
  {
  }

  /** Queries added to a resumed poll extend the phase-8 traffic by exactly those queries. */
  lemma PollResumes(before: seq<Transfer>, polled: nat, polls: nat)
    ensures before + (RefreshOpening() + PollTransfers(polled)) + PollTransfers(polls)
         == before + (RefreshOpening() + PollTransfers(polled + polls))
  {
    PollTransfersAppend(polled, polls);
  }

  /** The closing commands complete the phase-8 traffic. */
  lemma PollCloses(before: seq<Transfer>, polled: nat)
    ensures before + (RefreshOpening() + PollTransfers(polled)) + RefreshClosing()
         == before + RefreshTransfers(polled)
  {
  }

  class Engine {
    var index: nat
    var count: nat
    const buffer: array<bv8>
    var bufferRead: nat
    var bufferWrite: nat
    const bus: Bus
    const link: Link

    /**
     * Whether phase 8 is inside its busy poll: the firmware never leaves
     * that loop until m1's busy pin reads high, so an iteration whose
     * readings run out resumes the poll on the next one.
     */
    var polling: bool

    ghost var accepted: seq<bv8>
    ghost var phases: seq<seq<bv8>>
    ghost var payload: seq<bv8>
    ghost var prior: seq<Transfer>
    ghost var polled: nat

    ghost predicate Cursors()
      reads this
    {
      buffer.Length == Ring.Capacity && bufferRead < Ring.Capacity && bufferWrite < Ring.Capacity
    }

    /** The bytes waiting in the receive buffer, oldest first. */
    ghost function Contents(): seq<bv8>
      reads this, buffer
      requires Cursors()
    {
      Ring.Contents(buffer[..], bufferRead, bufferWrite)
    }

    /**
     * The line state of the bus within data phase `index`: both lines of
     * the target low while its command byte is shifted, its chip-select
     * low while a payload byte is, all lines high otherwise.
     */
    ghost predicate LinesInPhase()
      reads this, bus
      requires index < DataPhases
    {
      && (count == 1 ==> bus.csLow == Select(Target(index)) && bus.dcLow == PairOf(Target(index)) && bus.inFlight)
      && (count >= 3 ==> bus.csLow == Select(Target(index)) && bus.dcLow == NoModes && bus.inFlight)
      && (count == 0 || count == 2 ==> bus.Idle())
    }

    /**
     * Within data phase `index`: the closed phases and the sub-state
     * counter agree, and the bus carries, since the restart, the closed
     * phases' traffic followed by the current phase's.
     */
    ghost predicate Streaming()
      reads this, bus
      requires index < DataPhases
    {
      && |phases| == index
      && count <= PhaseCount(index) + 2
      && |payload| == Streamed(count)
      && LinesInPhase()
      && bus.trace == prior + FrameTransfers(phases) + CurrentTransfers(index, count, payload)
    }

    /**
     * Phase 8: all eight data phases are closed, and the bus carries,
     * since the restart, their traffic followed by the refresh commands
     * and status queries sent so far.
     */
    ghost predicate Refreshing()
      reads this, bus
    {
      && |phases| == DataPhases
      && bus.trace == prior + FrameTransfers(phases) + (if polling then RefreshOpening() + PollTransfers(polled) else [])
    }

    /**
     * Phase 9: either nothing has been accepted since power-up, or a whole
     * frame and its refresh are on the bus since the restart.
     */
    ghost predicate Waiting()
      reads this, bus
    {
      || (phases == [] && accepted == [] && bus.trace == prior)
      || (|phases| == DataPhases && bus.trace == prior + FrameTransfers(phases) + RefreshTransfers(polled))
    }

    ghost predicate Valid()
      reads this, buffer, bus
    {
      && Cursors()
      && index <= StartPhase
      && Finished(phases)
      && accepted == Flatten(phases) + payload + Contents()
      && (index < DataPhases ==> Streaming())
      && (index >= DataPhases ==> count == 0 && payload == [] && bus.Idle())
      && (index != RefreshPhase ==> !polling)
      && (index == RefreshPhase ==> Refreshing())
      && (index == StartPhase ==> Waiting())
    }

    /**
     * Power-up, after the display is initialised: the state starts in
     * the idle phase 9 with empty cursors, and one 'r' tells the host the
     * device is ready.
     */
    constructor (bus: Bus, link: Link)
      requires bus.Idle()
      modifies link
      ensures Valid() && fresh(buffer)
      ensures this.bus == bus && this.link == link
      ensures index == StartPhase && count == 0 && bufferRead == 0 && bufferWrite == 0
      ensures accepted == [] && Contents() == [] && bus.trace == old(bus.trace)
      ensures link.sent == old(link.sent) + [StartToken]
    {
      index, count, polling := StartPhase, 0, false;
      buffer := new bv8[Ring.Capacity](_ => 0);
      bufferRead, bufferWrite := 0, 0;
      this.bus, this.link := bus, link;
      accepted, phases, payload, prior, polled := [], [], [], bus.trace, 0;
      new;
      link.Transmit(StartToken);
    }

    /**
     * Step 1 of a data phase: take at most one received byte into the
     * buffer. When the buffer is full the byte is left unread in UDR0 and
     * nothing changes.
     */
    method Ingest(rx: Option<bv8>) returns (rxRead: bool)
      requires Valid() && index < DataPhases
      modifies this, buffer
      ensures Valid()
      ensures rxRead == (rx.Some? && !Ring.Full(old(bufferRead), old(bufferWrite)))
      ensures Contents() == if rxRead then old(Contents()) + [rx.value] else old(Contents())
      ensures accepted == if rxRead then old(accepted) + [rx.value] else old(accepted)
      ensures bufferWrite == if rxRead then Ring.Next(old(bufferWrite)) else old(bufferWrite)
      ensures !rxRead ==> buffer[..] == old(buffer[..])
      ensures index == old(index) && count == old(count) && bufferRead == old(bufferRead)
      ensures phases == old(phases) && payload == old(payload) && prior == old(prior)
    {
      rxRead := false;
      if rx.Some? {
        if bufferWrite != (bufferRead + 255) % 256 {
          Ring.PushAppends(buffer[..], bufferRead, bufferWrite, rx.value);
          buffer[bufferWrite] := rx.value;
          bufferWrite := Ring.Next(bufferWrite);
          accepted := accepted + [rx.value];
          rxRead := true;
        }
      }
    }

    /** Start the oldest buffered byte on the bus as the next payload byte. */
    method StreamNext()
      requires Cursors() && bufferRead != bufferWrite && !bus.inFlight
      modifies this, bus
      ensures Cursors() && bus.inFlight
      ensures bufferRead == Ring.Next(old(bufferRead)) && count == old(count) + 1
      ensures old(Contents()) == [old(buffer[bufferRead])] + Contents()
      ensures payload == old(payload) + [old(buffer[bufferRead])]
      ensures bus.trace == old(bus.trace) + [Transfer(bus.csLow, bus.dcLow, old(buffer[bufferRead]))]
      ensures bus.csLow == old(bus.csLow) && bus.dcLow == old(bus.dcLow)
      ensures index == old(index) && bufferWrite == old(bufferWrite) && polling == old(polling)
      ensures accepted == old(accepted) && phases == old(phases) && prior == old(prior)
    {
      Ring.PopRemovesOldest(buffer[..], bufferRead, bufferWrite);
      var b := buffer[bufferRead];
      bus.Start(b);
      bufferRead := Ring.Next(bufferRead);
      count := count + 1;
      payload := payload + [b];
    }

    /** Sub-state 0: select the target with both lines low and start its command byte. */
    method SendCommandByte()
      requires Valid() && index < DataPhases && count == 0
      modifies this, bus
      ensures Valid()
      ensures index == old(index) && count == 1
      ensures bufferRead == old(bufferRead) && bufferWrite == old(bufferWrite)
      ensures accepted == old(accepted) && phases == old(phases) && payload == old(payload) && prior == old(prior)
      ensures bus.trace == old(bus.trace) + [CommandTransfer(index)]
    {
      var target := Target(index);
      bus.Lower(Select(target), PairOf(target));
      bus.Start(Command(index));
      count := 1;
      CommandStep(old(bus.trace), prior, phases, index);
    }

    /** Sub-state 1 with the transfer done: release both lines; the payload follows. */
    method CommandByteDone()
      requires Valid() && index < DataPhases && count == 1
      modifies this, bus
      ensures Valid()
      ensures index == old(index) && count == 2
      ensures bufferRead == old(bufferRead) && bufferWrite == old(bufferWrite)
      ensures accepted == old(accepted) && phases == old(phases) && payload == old(payload) && prior == old(prior)
      ensures bus.trace == old(bus.trace)
    {
      var target := Target(index);
      bus.Complete();
      bus.Raise(Select(target), PairOf(target));
      count := 2;
    }

    /**
     * Sub-states 2 to PhaseCount + 1 with a byte buffered: acknowledge the
     * previous payload byte (none precedes the first, at sub-state 2) and
     * start the oldest buffered byte with the chip-select line pulsed low.
     */
    method SendPayloadByte()
      requires Valid() && index < DataPhases && 2 <= count < PhaseCount(index) + 2
      requires bufferRead != bufferWrite
      modifies this, bus
      ensures Valid()
      ensures index == old(index) && count == old(count) + 1
      ensures bufferWrite == old(bufferWrite) && accepted == old(accepted)
      ensures phases == old(phases) && prior == old(prior)
      ensures old(Contents()) != [] && Contents() == old(Contents())[1..]
      ensures payload == old(payload) + [old(Contents())[0]]
      ensures bus.trace == old(bus.trace) + [PayloadTransfer(index, old(Contents())[0])]
    {
      SelectForPayload();
      StreamNext();
      PayloadStep(old(bus.trace), prior, phases, index, old(count), old(payload), old(buffer[bufferRead]));
      Shift(Flatten(phases), old(payload), old(buffer[bufferRead]), Contents());
    }

    /**
     * Before a payload byte: acknowledge the previous one and release the
     * target's chip-select line (from sub-state 3 on), then drive it low.
     */
    method SelectForPayload()
      requires index < DataPhases && 2 <= count && LinesInPhase()
      modifies bus
      ensures bus.csLow == Select(Target(index)) && bus.dcLow == NoModes && !bus.inFlight
      ensures bus.trace == old(bus.trace)
    {
      var target := Target(index);
      if count > 2 {
        bus.Complete();
        bus.Raise(Select(target), NoModes);
      }
      bus.Lower(Select(target), NoModes);
    }

    /** Sub-state PhaseCount + 2 with the transfer done: release the target and move to the next phase. */
    method FinishPhase()
      requires Valid() && index < DataPhases && count == PhaseCount(index) + 2
      modifies this, bus
      ensures Valid()
      ensures index == old(index) + 1 && count == 0
      ensures bufferRead == old(bufferRead) && bufferWrite == old(bufferWrite)
      ensures accepted == old(accepted) && prior == old(prior)
      ensures phases == old(phases) + [old(payload)] && payload == []
      ensures bus.trace == old(bus.trace)
    {
      bus.Complete();
      bus.Raise(Select(Target(index)), NoModes);
      PhaseStep(bus.trace, prior, phases, index, count, payload);
      FlattenSnoc(phases, payload);
      FinishedSnoc(phases, payload);
      phases, payload := phases + [payload], [];
      count := 0;
      index := index + 1;
      assert bus.trace == prior + FrameTransfers(phases) + [];
    }

    /**
     * Step 2 of a data phase: advance the phase's sub-state by at most
     * one step. Count 0 sends the command byte, count 1 waits for it,
     * counts 2 to PhaseCount + 1 start one payload byte each (the first
     * at once, the others once the previous one is acknowledged) when
     * the buffer holds one, count PhaseCount + 2 waits for the last
     * payload byte and moves to the next phase.
     */
    method Forward(spif: bool)
      requires Valid() && index < DataPhases
      modifies this, bus
      ensures Valid()
      ensures bufferWrite == old(bufferWrite) && accepted == old(accepted) && prior == old(prior)
      ensures old(count) == 0 ==>
        && index == old(index) && count == 1 && phases == old(phases) && payload == old(payload)
        && Contents() == old(Contents()) && bus.trace == old(bus.trace) + [CommandTransfer(index)]
      ensures old(count) == 1 ==>
        && index == old(index) && count == (if spif then 2 else 1)
        && phases == old(phases) && payload == old(payload) && Contents() == old(Contents()) && bus.trace == old(bus.trace)
      ensures old(count) == PhaseCount(old(index)) + 2 ==>
        && Contents() == old(Contents())
        && if spif then
          && index == old(index) + 1 && count == 0
          && phases == old(phases) + [old(payload)] && payload == [] && bus.trace == old(bus.trace)
        else
          && index == old(index) && count == old(count)
          && phases == old(phases) && payload == old(payload) && bus.trace == old(bus.trace)
      ensures 2 <= old(count) < PhaseCount(old(index)) + 2 ==>
        if old(Contents()) == [] || (old(count) > 2 && !spif) then
          && index == old(index) && count == old(count) && Contents() == old(Contents())
          && phases == old(phases) && payload == old(payload) && bus.trace == old(bus.trace)
        else
          && index == old(index) && count == old(count) + 1
          && old(Contents()) != [] && Contents() == old(Contents())[1..]
          && phases == old(phases) && payload == old(payload) + [old(Contents())[0]]
          && bus.trace == old(bus.trace) + [PayloadTransfer(index, old(Contents())[0])]
    {
      if count == 0 {
        SendCommandByte();
      } else if count == 1 {
        if spif {
          CommandByteDone();
        }
      } else if count == PhaseCount(index) + 2 {
        if spif {
          FinishPhase();
        }
      } else if bufferRead != bufferWrite {
        if count == 2 || spif {
          SendPayloadByte();
        }
      }
    }

    /**
     * Phase 8: drop a pending received byte, power on the masters, start
     * the refresh, query m1's status until its busy pin reads high, power
     * off, enter deep sleep, send one 'r' and move to phase 9.
     *
     * The firmware polls without a bound. The readings given run out
     * with `done` false when none of them is high: the firmware is still
     * inside the poll at that point, and the next call resumes it with
     * no byte dropped and no command repeated.
     */
    method Refresh(rx: Option<bv8>, busyReads: seq<bool>) returns (rxRead: bool, polls: nat, done: bool)
      requires Valid() && index == RefreshPhase
      modifies this, bus, link
      ensures Valid()
      ensures rxRead == (!old(polling) && rx.Some?)
      ensures done == (true in busyReads)
      ensures done ==> 0 < polls <= |busyReads| && busyReads[polls - 1]
                       && forall j :: 0 <= j < polls - 1 ==> !busyReads[j]
      ensures !done ==> polls == |busyReads|
      ensures polled == (if old(polling) then old(polled) else 0) + polls
      ensures bus.trace == old(bus.trace) + (if old(polling) then [] else RefreshOpening())
                           + PollTransfers(polls) + (if done then RefreshClosing() else [])
      ensures done ==> index == StartPhase && !polling && link.sent == old(link.sent) + [StartToken]
      ensures !done ==> index == RefreshPhase && polling && link.sent == old(link.sent)
      ensures count == old(count) && bufferRead == old(bufferRead) && bufferWrite == old(bufferWrite)
      ensures accepted == old(accepted) && phases == old(phases) && payload == old(payload) && prior == old(prior)
    {
      rxRead := false;
      if !polling {
        rxRead := BeginRefresh(rx);
      }
      polls, done := ResumePoll(busyReads);
    }

    /** Phase 8 up to its busy poll: drop a pending received byte, power on the masters and start the refresh. */
    method BeginRefresh(rx: Option<bv8>) returns (rxRead: bool)
      requires Valid() && index == RefreshPhase && !polling
      modifies this, bus
      ensures Valid() && index == RefreshPhase && polling && polled == 0
      ensures rxRead == rx.Some?
      ensures bus.trace == old(bus.trace) + RefreshOpening()
      ensures count == old(count) && bufferRead == old(bufferRead) && bufferWrite == old(bufferWrite)
      ensures accepted == old(accepted) && phases == old(phases) && payload == old(payload) && prior == old(prior)
    {
      rxRead := rx.Some?;
      Wake();
      polling, polled := true, 0;
      assert bus.trace == prior + FrameTransfers(phases) + (RefreshOpening() + PollTransfers(polled));
    }

    /**
     * The busy poll of phase 8, from where it stands: query until the pin
     * reads high, then power off, enter deep sleep, send one 'r' and move
     * to phase 9.
     */
    method ResumePoll(busyReads: seq<bool>) returns (polls: nat, done: bool)
      requires Valid() && index == RefreshPhase && polling
      modifies this, bus, link
      ensures Valid()
      ensures done == (true in busyReads)
      ensures done ==> 0 < polls <= |busyReads| && busyReads[polls - 1]
                       && forall j :: 0 <= j < polls - 1 ==> !busyReads[j]
      ensures !done ==> polls == |busyReads|
      ensures polled == old(polled) + polls
      ensures bus.trace == old(bus.trace) + PollTransfers(polls) + (if done then RefreshClosing() else [])
      ensures done ==> index == StartPhase && !polling && link.sent == old(link.sent) + [StartToken]
      ensures !done ==> index == RefreshPhase && polling && link.sent == old(link.sent)
      ensures count == old(count) && bufferRead == old(bufferRead) && bufferWrite == old(bufferWrite)
      ensures accepted == old(accepted) && phases == old(phases) && payload == old(payload) && prior == old(prior)
    {
      polls, done := PollBusy(busyReads);
      PollResumes(prior + FrameTransfers(phases), polled, polls);
      polled := polled + polls;
      if done {
        Sleep();
        link.Transmit(StartToken);
        index, polling := index + 1, false;
        PollCloses(prior + FrameTransfers(phases), polled);
      }
    }

    /** Power on both masters (0x04), then start the refresh on every controller (0x12). */
    method Wake()
      requires bus.Idle()
      modifies bus
      ensures bus.Idle()
      ensures bus.trace == old(bus.trace) + RefreshOpening()
    {
      bus.SendCommand(Masters, MasterModes, 0x04, []);
      bus.SendCommand(AllChips, AllModes, 0x12, []);
      Associative(old(bus.trace), CommandTransfers(Masters, MasterModes, 0x04, []), CommandTransfers(AllChips, AllModes, 0x12, []));
    }

    /** Power off every controller (0x02), then put each in deep sleep (0x07 with check byte 0xa5). */
    method Sleep()
      requires bus.Idle()
      modifies bus
      ensures bus.Idle()
      ensures bus.trace == old(bus.trace) + RefreshClosing()
    {
      bus.SendCommand(AllChips, AllModes, 0x02, []);
      bus.SendCommand(AllChips, AllModes, 0x07, [0xa5]);
      Associative(old(bus.trace), CommandTransfers(AllChips, AllModes, 0x02, []), CommandTransfers(AllChips, AllModes, 0x07, [0xa5]));
    }

    /**
     * The busy poll of phase 8: query m1's status (0x71) and read its
     * busy pin, until the pin reads high or the readings run out.
     */
    method PollBusy(busyReads: seq<bool>) returns (polls: nat, done: bool)
      requires bus.Idle()
      modifies bus
      ensures bus.Idle()
      ensures bus.trace == old(bus.trace) + PollTransfers(polls)
      ensures done == (true in busyReads)
      ensures done ==> 0 < polls <= |busyReads| && busyReads[polls - 1]
                       && forall j :: 0 <= j < polls - 1 ==> !busyReads[j]
      ensures !done ==> polls == |busyReads|
    {
      polls, done := 0, false;
      while polls < |busyReads| && !done
        invariant polls <= |busyReads|
        invariant bus.Idle()
        invariant bus.trace == old(bus.trace) + PollTransfers(polls)
        invariant done ==> 0 < polls && busyReads[polls - 1]
        invariant forall j :: 0 <= j < (if done then polls - 1 else polls) ==> !busyReads[j]
        decreases |busyReads| - polls
      {
        bus.SendCommand(Select(M1), PairOf(M1), 0x71, []);
        done := busyReads[polls];
        polls := polls + 1;
      }
    }

    /**
     * Phase 9: consume a received byte; the start token 'r' begins a new
     * frame from phase 0 with an empty buffer, any other byte is dropped.
     */
    method AwaitStart(rx: Option<bv8>) returns (rxRead: bool)
      requires Valid() && index == StartPhase
      modifies this
      ensures Valid()
      ensures rxRead == rx.Some?
      ensures rx == Some(StartToken) ==>
        && index == 0 && count == 0 && bufferRead == 0 && bufferWrite == 0 && Contents() == []
        && accepted == [] && phases == [] && payload == [] && prior == bus.trace
      ensures rx != Some(StartToken) ==>
        && index == old(index) && count == old(count)
        && bufferRead == old(bufferRead) && bufferWrite == old(bufferWrite) && Contents() == old(Contents())
        && accepted == old(accepted) && phases == old(phases) && prior == old(prior)
    {
      rxRead := rx.Some?;
      if rx.Some? {
        if rx.value == StartToken {
          Restart();
        }
      }
    }

    /** The start token in phase 9: a new frame from phase 0 with an empty buffer. */
    method Restart()
      requires Valid() && index == StartPhase
      modifies this
      ensures Valid()
      ensures index == 0 && count == 0 && bufferRead == 0 && bufferWrite == 0 && Contents() == []
      ensures accepted == [] && phases == [] && payload == [] && prior == bus.trace
    {
      index, count := 0, 0;
      bufferRead, bufferWrite := 0, 0;
      accepted, phases, payload, prior := [], [], [], bus.trace;
      assert Contents() == [] && Flatten(phases) == [];
      assert bus.trace == prior + FrameTransfers(phases) + CurrentTransfers(index, count, payload);
    }

    /**
     * One iteration of the main loop: exactly one phase's step runs.
     *
     * In a data phase, at most one received byte joins the buffer and is
     * accepted, then the phase's sub-state moves by at most one step; a
     * payload byte that goes out is the oldest buffered byte. In phase 8
     * the refresh runs or resumes its busy poll, and sends one 'r' when
     * the busy pin reads high. In phase 9 an 'r' restarts at phase 0 with
     * an empty buffer. The phase index moves forward by at most one, and
     * only phase 9 goes back to phase 0. `polls` counts the status
     * queries of the busy poll in this iteration.
     */
    method Tick(rx: Option<bv8>, spif: bool, busyReads: seq<bool>) returns (rxRead: bool, polls: nat)
      requires Valid()
      modifies this, buffer, bus, link
      ensures Valid()
      ensures index == old(index) || index == old(index) + 1 || (old(index) == StartPhase && index == 0)
      ensures old(index) != RefreshPhase ==> (index == StartPhase <==> old(index) == StartPhase && rx != Some(StartToken))
      ensures old(index) < DataPhases ==>
        var stored := rx.Some? && !Ring.Full(old(bufferRead), old(bufferWrite));
        var received := if stored then old(Contents()) + [rx.value] else old(Contents());
        && rxRead == stored
        && accepted == (if stored then old(accepted) + [rx.value] else old(accepted))
        && prior == old(prior) && link.sent == old(link.sent)
        && (old(count) == 0 ==>
              && index == old(index) && count == 1 && phases == old(phases) && payload == old(payload)
              && Contents() == received && bus.trace == old(bus.trace) + [CommandTransfer(old(index))])
        && (old(count) == 1 ==>
              && index == old(index) && count == (if spif then 2 else 1) && phases == old(phases)
              && payload == old(payload) && Contents() == received && bus.trace == old(bus.trace))
        && (old(count) == PhaseCount(old(index)) + 2 ==>
              && Contents() == received && bus.trace == old(bus.trace)
              && if spif then
                   index == old(index) + 1 && count == 0 && phases == old(phases) + [old(payload)] && payload == []
                 else
                   index == old(index) && count == old(count) && phases == old(phases) && payload == old(payload))
        && (2 <= old(count) < PhaseCount(old(index)) + 2 ==>
              && index == old(index) && phases == old(phases)
              && if received == [] || (old(count) > 2 && !spif) then
                   count == old(count) && payload == old(payload) && Contents() == received && bus.trace == old(bus.trace)
                 else
                   && count == old(count) + 1 && payload == old(payload) + [received[0]] && Contents() == received[1..]
                   && bus.trace == old(bus.trace) + [PayloadTransfer(old(index), received[0])])
      ensures old(index) == RefreshPhase ==>
        && rxRead == (!old(polling) && rx.Some?)
        && count == 0 && Contents() == old(Contents())
        && accepted == old(accepted) && phases == old(phases) && payload == old(payload) && prior == old(prior)
        && polled == (if old(polling) then old(polled) else 0) + polls
        && bus.trace == old(bus.trace) + (if old(polling) then [] else RefreshOpening())
                        + PollTransfers(polls) + (if true in busyReads then RefreshClosing() else [])
        && (true in busyReads ==>
              && index == StartPhase && 0 < polls <= |busyReads| && busyReads[polls - 1]
              && (forall j :: 0 <= j < polls - 1 ==> !busyReads[j])
              && link.sent == old(link.sent) + [StartToken])
        && (!(true in busyReads) ==> index == RefreshPhase && polls == |busyReads| && link.sent == old(link.sent))
      ensures old(index) != RefreshPhase ==> polls == 0
      ensures old(index) == StartPhase ==>
        && rxRead == rx.Some? && bus.trace == old(bus.trace) && link.sent == old(link.sent)
        && if rx == Some(StartToken) then
             index == 0 && count == 0 && Contents() == [] && accepted == [] && phases == [] && payload == [] && prior == bus.trace
           else
             index == StartPhase && Contents() == old(Contents()) && accepted == old(accepted) && phases == old(phases) && prior == old(prior)
    {
      polls := 0;
      if index < DataPhases {
        rxRead := Ingest(rx);
        Forward(spif);
      } else if index == RefreshPhase {
        var done;
        rxRead, polls, done := Refresh(rx, busyReads);
      } else {
        rxRead := AwaitStart(rx);
      }
    }
  }
}
