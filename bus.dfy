/**
 * The display's SPI bus and the USART transmit side, as seen from
 * source/epaper.c: four display controllers (two master/slave pairs), a
 * chip-select line per controller, a data/command line per pair, and the
 * sequence of bytes shifted out with the state of those lines at the time.
 *
 * Port bit manipulation is abstracted to "which lines are driven low";
 * a line is asserted when it is low.
 */
module Bus {

  /** The four controllers of the display, in the firmware's naming. */
  datatype Device = M1 | S1 | M2 | S2

  /** The chip-select lines driven low, one per controller. */
  datatype Chips = Chips(m1: bool, s1: bool, m2: bool, s2: bool)

  /** The data/command lines driven low: one shared by m1 and s1, one by m2 and s2. */
  datatype Modes = Modes(m1s1: bool, m2s2: bool)

  const NoChips := Chips(false, false, false, false)
  const NoModes := Modes(false, false)

  /** The chip-select line of one controller. */
  function Select(d: Device): Chips
  {
    Chips(d == M1, d == S1, d == M2, d == S2)
  }

  /** The data/command line of the pair a controller belongs to. */
  function PairOf(d: Device): Modes
  {
    Modes(d == M1 || d == S1, d == M2 || d == S2)
  }

  /** Both masters, as `send_command_m1m2` selects them. */
  const Masters := Chips(true, false, true, false)
  const MasterModes := Modes(true, true)

  /** Every controller, as `send_command_all` selects them. */
  const AllChips := Chips(true, true, true, true)
  const AllModes := Modes(true, true)

  /**
   * One byte shifted out on the SPI bus, with the chip-select lines and
   * data/command lines that were low while it was shifted.
   */
  datatype Transfer = Transfer(cs: Chips, dc: Modes, value: bv8)

  /**
   * What a command looks like on the bus: the command byte with the lines
   * `cs` and `dc` low, then each payload byte in order with only the
   * chip-select lines low.
   */
  function CommandTransfers(cs: Chips, dc: Modes, value: bv8, data: seq<bv8>): (ts: seq<Transfer>)
    ensures |ts| == |data| + 1
  {
    if data == [] then [Transfer(cs, dc, value)]
    else CommandTransfers(cs, dc, value, data[..|data| - 1]) + [Transfer(cs, NoModes, data[|data| - 1])]
  }

  /**
   * Transfer by transfer: the command byte comes first with both kinds of
   * line low, and payload byte `k` is transfer `k + 1` with only the
   * chip-select lines low.
   */
  lemma {:induction false} CommandTransfersAt(cs: Chips, dc: Modes, value: bv8, data: seq<bv8>, k: nat)
    requires k <= |data|
    ensures CommandTransfers(cs, dc, value, data)[k]
         == if k == 0 then Transfer(cs, dc, value) else Transfer(cs, NoModes, data[k - 1])
  {
    if k < |data| {
      CommandTransfersAt(cs, dc, value, data[..|data| - 1], k);
    }
  }

  /** Appending one payload byte to a command appends one transfer on the bus. */
  lemma CommandTransfersSnoc(cs: Chips, dc: Modes, value: bv8, data: seq<bv8>, b: bv8)
    ensures CommandTransfers(cs, dc, value, data + [b])
         == CommandTransfers(cs, dc, value, data) + [Transfer(cs, NoModes, b)]
  {
    assert (data + [b])[..|data|] == data;
  }

  /**
   * The SPI peripheral and the chip-select and data/command port bits.
   * `inFlight` is true between a write of SPDR and the read of SPDR that
   * follows the transfer-complete flag.
   */
  class Bus {
    var csLow: Chips
    var dcLow: Modes
    var inFlight: bool
    var trace: seq<Transfer>

    /** Every line high and no transfer in progress. */
    predicate Idle()
      reads this
    {
      csLow == NoChips && dcLow == NoModes && !inFlight
    }

    /** The lines as configured at power-up: outputs driven high, nothing sent yet. */
    constructor ()
      ensures Idle() && trace == []
    {
      csLow, dcLow, inFlight, trace := NoChips, NoModes, false, [];
    }

    /** `port &= ~(...)`: drive low the chip-select lines `cs` and the data/command lines `dc`. */
    method Lower(cs: Chips, dc: Modes)
      modifies this
      ensures csLow == Chips(old(csLow).m1 || cs.m1, old(csLow).s1 || cs.s1, old(csLow).m2 || cs.m2, old(csLow).s2 || cs.s2)
      ensures dcLow == Modes(old(dcLow).m1s1 || dc.m1s1, old(dcLow).m2s2 || dc.m2s2)
      ensures inFlight == old(inFlight) && trace == old(trace)
    {
      csLow := Chips(csLow.m1 || cs.m1, csLow.s1 || cs.s1, csLow.m2 || cs.m2, csLow.s2 || cs.s2);
      dcLow := Modes(dcLow.m1s1 || dc.m1s1, dcLow.m2s2 || dc.m2s2);
    }

    /** `port |= (...)`: release high the same lines. */
    method Raise(cs: Chips, dc: Modes)
      modifies this
      ensures csLow == Chips(old(csLow).m1 && !cs.m1, old(csLow).s1 && !cs.s1, old(csLow).m2 && !cs.m2, old(csLow).s2 && !cs.s2)
      ensures dcLow == Modes(old(dcLow).m1s1 && !dc.m1s1, old(dcLow).m2s2 && !dc.m2s2)
      ensures inFlight == old(inFlight) && trace == old(trace)
    {
      csLow := Chips(csLow.m1 && !cs.m1, csLow.s1 && !cs.s1, csLow.m2 && !cs.m2, csLow.s2 && !cs.s2);
      dcLow := Modes(dcLow.m1s1 && !dc.m1s1, dcLow.m2s2 && !dc.m2s2);
    }

    /** `SPDR = value`: start shifting a byte out under the current line state. */
    method Start(value: bv8)
      requires !inFlight
      modifies this
      ensures inFlight
      ensures trace == old(trace) + [Transfer(csLow, dcLow, value)]
      ensures csLow == old(csLow) && dcLow == old(dcLow)
    {
      trace := trace + [Transfer(csLow, dcLow, value)];
      inFlight := true;
    }

    /** `SPDR;` after the transfer-complete flag was seen: acknowledge the transfer. */
    method Complete()
      requires inFlight
      modifies this
      ensures !inFlight
      ensures trace == old(trace) && csLow == old(csLow) && dcLow == old(dcLow)
    {
      inFlight := false;
    }

    /**
     * `spi_transfer`: start a transfer, wait for it to finish and acknowledge
     * it. The busy wait on the flag is taken as one atomic step.
     */
    method Exchange(value: bv8)
      requires !inFlight
      modifies this
      ensures !inFlight
      ensures trace == old(trace) + [Transfer(csLow, dcLow, value)]
      ensures csLow == old(csLow) && dcLow == old(dcLow)
    {
      Start(value);
      Complete();
    }

    /**
     * One transfer with the given lines selected: drive them low, transfer
     * `value`, release them.
     */
    method Pulse(cs: Chips, dc: Modes, value: bv8)
      requires Idle()
      modifies this
      ensures Idle()
      ensures trace == old(trace) + [Transfer(cs, dc, value)]
    {
      Lower(cs, dc);
      Exchange(value);
      Raise(cs, dc);
    }

    /**
     * `send_command` and its broadcast forms `send_command_m1m2` and
     * `send_command_all`: drive low the chip-select lines `cs` and the
     * data/command lines `dc`, transfer the command byte, release them,
     * then transfer each payload byte with only the chip-select lines
     * pulsed low. The bus is idle again afterwards.
     */
    method SendCommand(cs: Chips, dc: Modes, value: bv8, data: seq<bv8>)
      requires Idle()
      requires |data| < 256
      modifies this
      ensures Idle()
      ensures trace == old(trace) + CommandTransfers(cs, dc, value, data)
    {
      Pulse(cs, dc, value);
      assert data[..0] == [];
      var index := 0;
      while index < |data|
        invariant 0 <= index <= |data|
        invariant Idle()
        invariant trace == old(trace) + CommandTransfers(cs, dc, value, data[..index])
      {
        ghost var sent := CommandTransfers(cs, dc, value, data[..index]);
        Pulse(cs, NoModes, data[index]);
        assert trace == old(trace) + (sent + [Transfer(cs, NoModes, data[index])]);
        CommandTransfersSnoc(cs, dc, value, data[..index], data[index]);
        assert data[..index + 1] == data[..index] + [data[index]];
        index := index + 1;
      }
      assert data[..index] == data;
    }
  }

  /**
   * The USART transmitter: `serial_transfer` waits for the data register
   * to be empty (taken as atomic) and sends one byte to the host.
   */
  class Link {
    var sent: seq<bv8>

    constructor ()
      ensures sent == []
    {
      sent := [];
    }

    method Transmit(value: bv8)
      modifies this
      ensures sent == old(sent) + [value]
    {
      sent := sent + [value];
    }
  }
}
