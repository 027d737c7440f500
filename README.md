# epaper: frame forwarding and frame encoding, in Dafny

The epaper project drives a 1304 × 984 three-colour (black, white, red)
ePaper panel. The panel has four display controllers: masters m1 and m2,
and slaves s1 and s2. Two programs take part:

- **The host encoder** (`scripts/epaper.py`, `open.send`).
  - It reduces a grey-level image to three inks, 0 (black), 2 (white) and 3 (red).
  - It splits every ink into a high and a low bit plane.
  - It packs eight horizontally adjacent plane bits, most significant first, into each byte.
  - The packed frame has eight segments: one per controller and plane.
  - It sends the token `'r'`, then the 320784 packed bytes, then waits for an `'r'` back.
- **The firmware** (`source/epaper.c`). It forwards that stream from the USART to the four controllers over SPI.
  - The main loop is a ten-phase state machine.
  - Phases 0 to 7 each send one command byte (0x10 or 0x13) to one controller, then forward that phase's count of payload bytes. They go through a 256-slot receive ring buffer and take one non-blocking step per loop iteration.
  - Phase 8 runs the refresh sequence and answers `'r'`.
  - Phase 9 waits for the next `'r'`.

The model is organised as follows:

- `wrappers.dfy`: `Option`.
- `ring.dfy`: the receive ring buffer as the sequence of bytes it holds.
- `bus.dfy`: the SPI bus, abstracted to which chip-select and data/command lines are low.
  - It records every byte shifted out, together with the line state at the time.
  - It also holds the blocking command emitters (`send_command` and its broadcast forms) and the USART transmitter.
- `phases.dfy`: the firmware's phase table, and what each phase puts on the bus.
- `engine.dfy`: the main loop's `state` as a class with a `buffer` array.
  - There is one method per step of each phase.
  - The invariant `Valid` ties the bus trace since the last restart to the bytes accepted from the host.
  - It also ties that trace to the ring buffer's contents and to the phase sub-state.
- `packing.dfy`: the encoder's specification on sequences.
  - Quantisation, bit planes and the segment table.
  - The packed frame, byte by byte and bit by bit.
  - The decoder that reads a packed frame back into inks, with its round trip.
- `encoder.dfy`: `send` itself, on arrays.
  - The copy, the three masked assignments in place, the two planes, and the triple packing loop.
  - All proved against `packing.dfy`.
- `frame.dfy`: the two programs agree. The firmware forwards encoder segment `i` as phase `i`'s payload, to the controller and register that display it.

Hardware status bits are inputs to each step:

- `rx`: the received byte when RXC0 is set;
- `spif`: the SPI transfer-complete flag;
- `busyReads`: the successive readings of m1's busy pin.

The serial port of the host is a parameter of `Send`: what it writes is returned, and the device's reply is an argument.

## Model

| member | source | states |
|---|---|---|
| Ring.Next | source/epaper.c:102 | a `uint8_t` cursor incremented with `++` wraps from 255 to 0 and otherwise goes up by one |
| Ring.ContentsLength | source/epaper.c:100-102 | the buffer holds exactly `(write - read) mod 256` bytes, never more than 255 |
| Ring.FullIffAtLimit | source/epaper.c:100 | the guard `buffer_write == (buffer_read + 255) % 256` holds exactly when 255 bytes are buffered |
| Ring.PushAppends | source/epaper.c:100-102 | storing at the write cursor and advancing it appends the byte at the end of the buffered bytes, when not full |
| Ring.PopRemovesOldest | source/epaper.c:125-126 | taking the byte at the read cursor and advancing it removes the oldest buffered byte |
| Bus.CommandTransfers | source/epaper.c:54-62 | a command occupies one bus transfer more than its payload has bytes |
| Bus.CommandTransfersAt | source/epaper.c:54-62 | transfer 0 is the command byte with chip-select and data/command low; transfer k+1 is payload byte k with only chip-select low |
| Bus.CommandTransfersSnoc | source/epaper.c:58-62 | one more payload byte adds one transfer at the end, with only chip-select low |
| Bus.Bus.Lower | source/epaper.c:55 | `port &= ~mask` drives the named lines low and leaves the others |
| Bus.Bus.Raise | source/epaper.c:57 | setting the mask bits in the port releases the named lines high and leaves the others |
| Bus.Bus.Start | source/epaper.c:107 | writing SPDR records one transfer under the current line state |
| Bus.Bus.Complete | source/epaper.c:111 | reading SPDR after SPIF ends the transfer and records nothing |
| Bus.Bus.Exchange | source/epaper.c:46-51 | `spi_transfer` records exactly one transfer and leaves the bus free |
| Bus.Bus.Pulse | source/epaper.c:59-61 | lowering lines, one transfer, raising them leaves every line high and records that transfer |
| Bus.Bus.SendCommand | source/epaper.c:54-95 | `send_command`, `send_command_m1m2` and `send_command_all` leave every line high and append exactly the command's transfers, payload in order |
| Bus.Link.Transmit | source/epaper.c:39-43 | `serial_transfer` sends exactly one byte to the host |
| Phases.Command | source/epaper.c:264-280 | every data phase writes register 0x10 or 0x13 |
| Phases.PhaseCount | source/epaper.c:264-280 | each phase forwards 492·81 to 492·82 payload bytes, and count + 2 fits the `uint16_t` counter |
| Phases.PhaseStartValues | source/epaper.c:264-280 | the phases start at bytes 0, 39852, 79704, 120048, 160392, 200736, 241080 and 280932; the frame is 320784 bytes |
| Phases.FinishedSnoc | source/epaper.c:115-121 | closing the next phase with exactly its count of payload bytes keeps all closed phases full |
| Phases.FlattenSnoc | source/epaper.c:115-121 | closing a phase appends its payload to the bytes forwarded so far |
| Phases.FlattenLength | source/epaper.c:264-280 | the closed phases together hold exactly the bytes before the next phase's start |
| Phases.FrameTransfersSnoc | source/epaper.c:105-136 | closing phase i appends its command byte and its payload transfers to the frame's bus traffic |
| Phases.PollTransfers | source/epaper.c:288-293 | n busy polls put exactly n transfers on the bus |
| Phases.PollTransfersAppend | source/epaper.c:288-293 | a poll resumed after a queries and continued for b more has sent exactly the a + b queries of one uninterrupted poll |
| Phases.PollTransfersAt | source/epaper.c:289 | every poll is command 0x71 to m1 with m1's chip-select and data/command lines low |
| Engine.CommandStep | source/epaper.c:105-108 | starting the command byte opens phase i's traffic after the closed phases' traffic |
| Engine.PayloadStep | source/epaper.c:123-135 | starting one more payload byte extends phase i's traffic by exactly that byte |
| Engine.PhaseStep | source/epaper.c:115-121 | once the last payload byte is out, phase i's traffic is that of a closed phase |
| Engine.PollResumes | source/epaper.c:288-293 | queries added by a resumed poll extend phase 8's traffic so far by exactly those queries |
| Engine.PollCloses | source/epaper.c:294-298 | the power-off and deep-sleep commands after the poll complete phase 8's traffic |
| Engine.Engine.constructor | source/epaper.c:249-262 | power-up state: phase 9, count 0, both cursors 0, an untouched bus, an empty buffer, and exactly one `'r'` sent |
| Engine.Engine.Ingest | source/epaper.c:99-104 | a received byte is stored and appended to the buffered bytes exactly when the buffer is not full, the write cursor advancing by one; otherwise UDR0 is not read and the cursors and the buffer array are unchanged |
| Engine.Engine.StreamNext | source/epaper.c:125-127 | the oldest buffered byte leaves the buffer and is started on the bus as the next payload byte |
| Engine.Engine.SendCommandByte | source/epaper.c:105-108 | sub-state 0 puts exactly the phase's command byte on the bus with its target's chip-select and data/command lines low, and moves to sub-state 1 |
| Engine.Engine.CommandByteDone | source/epaper.c:109-114 | sub-state 1 with SPIF releases both lines without new traffic and moves to sub-state 2 |
| Engine.Engine.SelectForPayload | source/epaper.c:123-131 | before a payload byte only the target's chip-select line is low and no transfer is in progress |
| Engine.Engine.SendPayloadByte | source/epaper.c:122-135 | a payload step removes the oldest buffered byte and puts exactly that byte on the bus, with only the target's chip-select low |
| Engine.Engine.FinishPhase | source/epaper.c:115-121 | the final acknowledgement closes the phase with its payload, resets count to 0 and moves to the next phase, leaving the buffer untouched |
| Engine.Engine.Forward | source/epaper.c:105-136 | each sub-state's step: nothing moves while the buffer is empty or SPIF is clear, and count stays within 0 and PhaseCount + 2 |
| Engine.Engine.Refresh | source/epaper.c:282-301 | phase 8 drops any pending byte, sends 0x04 to the masters and 0x12 to all, polls 0x71 until the first high busy reading, sends 0x02 and 0x07 [0xa5] to all, one `'r'`, and moves to phase 9; a call whose readings run out resumes the poll on the next call without dropping a byte or repeating 0x04 and 0x12 |
| Engine.Engine.BeginRefresh | source/epaper.c:282-287 | a pending byte is dropped, 0x04 goes to the masters and 0x12 to all, and the poll starts with no queries |
| Engine.Engine.ResumePoll | source/epaper.c:288-301 | the poll continues from its count of queries, and only a high reading leads to 0x02, 0x07 [0xa5], one `'r'` and phase 9 |
| Engine.Engine.Wake | source/epaper.c:285-287 | power-on of the masters (0x04), then the refresh command (0x12) to every controller |
| Engine.Engine.Sleep | source/epaper.c:295-297 | power-off (0x02), then deep sleep with check byte 0xa5 (0x07), to every controller |
| Engine.Engine.PollBusy | source/epaper.c:288-293 | one status query per reading up to and including the first high one, and `done` exactly when some reading is high |
| Engine.Engine.AwaitStart | source/epaper.c:303-310 | `'r'` restarts at phase 0 with count and both cursors 0 and an empty buffer; any other byte is consumed with nothing else changed |
| Engine.Engine.Restart | source/epaper.c:305-309 | the restart empties the buffer and the record of the frame and keeps the invariant |
| Engine.Engine.Tick | source/epaper.c:263-315 | one loop iteration runs exactly one phase's step. In phases 0-7 a byte is accepted exactly when one arrives and the buffer is not full, and a payload byte that goes out is the oldest buffered one. In phase 8 the refresh runs or resumes its poll, and exactly one `'r'` goes out on a high reading. In phase 9 an `'r'` empties the buffer and restarts at phase 0. The phase moves forward by at most one and only phase 9 returns to phase 0 |
| Packing.Quantise | scripts/epaper.py:41-43 | below 32 becomes 0, above 222 becomes 2, 32 to 222 becomes 3 |
| Packing.QuantiseImage | scripts/epaper.py:40-43 | every pixel of the quantised copy is an ink, the quantisation of the original pixel |
| Packing.PlanesOfInk | scripts/epaper.py:45-46 | both planes of an ink are single bits and `2·msb + lsb` gives the ink back |
| Packing.BeginsValues | scripts/epaper.py:10-19 | the cumulative sum of the segment sizes, from 0 to 320784 |
| Packing.SegmentsTile | scripts/epaper.py:10-44 | each segment spans its size in the packed frame, and the last offset is `width * height // 4`, the frame's length |
| Packing.SegmentOf | scripts/epaper.py:10-19 | every byte of the packed frame belongs to one of the eight segments |
| Packing.SegmentOfBounds | scripts/epaper.py:10-19 | that segment's offsets enclose the byte |
| Packing.PixelInside | scripts/epaper.py:48-63 | every pixel a segment's flattened plane slice reads lies inside the image |
| Packing.Packed | scripts/epaper.py:44 | the packed frame has 320784 bytes |
| Packing.PackedBitIsBit | scripts/epaper.py:45-46 | on inks, every plane bit shifted into the frame is 0 or 1 |
| Packing.OrBitsAt | scripts/epaper.py:47-63 | after n rounds of the bit loop, position 7-b of a byte holds round b's plane bit if round b ran, else 0: no round overwrites another |
| Packing.Locate | scripts/epaper.py:48-63 | every pixel is covered by an even segment, at a byte and bit position whose pixel is that pixel |
| Packing.SegmentOfAt | scripts/epaper.py:48-63 | byte k of segment s is byte `begins[s] + k` of the frame |
| Packing.BitAtPacked | scripts/epaper.py:47-63 | bit 7-b of byte k of segment s is the plane bit of pixel (row base + k div groups, column base + 8·(k mod groups) + b) |
| Packing.PlanePair | scripts/epaper.py:48-63 | an even segment and the next one cover the same pixels, the first with the high plane and the second with the low |
| Packing.InkAtPacked | scripts/epaper.py:45-63 | reading a pixel's two plane bits back from the packed frame gives its ink |
| Packing.UnpackPacked | scripts/epaper.py:45-63 | unpacking the packed frame of an ink image gives that image back: packing loses nothing |
| Packing.UnpackEncode | scripts/epaper.py:40-63 | unpacking the encoded frame gives the quantised image |
| Packing.PlaceBitOf | scripts/epaper.py:49 | the bit helpers are the shifts `<< (7 - bit)` and `(x >> (7 - b)) & 1` |
| Packing.ShiftedBit | scripts/epaper.py:48-49 | OR-ing a single bit into position 7-m changes that position only |
| Encoder.Pixels | scripts/epaper.py:39 | a two-dimensional array read row by row has its dimensions as shape |
| Encoder.Replace | scripts/epaper.py:41-43 | a masked assignment gives every selected pixel the value and leaves the others |
| Encoder.Inks | scripts/epaper.py:39-43 | the fresh copy holds the quantisation of the frame, pixel by pixel |
| Encoder.PackedAfterStep | scripts/epaper.py:47-63 | round `bit` ORs the pixel's plane bit at position 7-bit into its byte |
| Encoder.RoundStep | scripts/epaper.py:47-63 | OR-ing the next byte of a segment advances the round by exactly that byte |
| Encoder.OrSegment | scripts/epaper.py:48-63 | one segment's slice assignment brings exactly that segment's bytes to the next round |
| Encoder.Pack | scripts/epaper.py:44-63 | the packing loop produces exactly the packed frame of the ink image |
| Encoder.Send | scripts/epaper.py:37-68 | a wrong shape is refused before anything is written; otherwise `'r'` followed by the encoded frame is written, the reply must be `'r'`, and the caller's frame is not changed |
| Frame.TablesAgree | source/epaper.c:264-280 | the firmware's per-phase counts equal the host's segment sizes (scripts/epaper.py:10-19), so the phases start where the segments begin |
| Frame.PhaseGeometry | source/epaper.c:264-280 | phase i's segment lies on the panel half its target drives, and register 0x10 gets the high plane while 0x13 gets the low (scripts/epaper.py:45-63) |
| Frame.FlattenAt | source/epaper.c:115-121 | byte k of phase i is byte `start(i) + k` of the forwarded stream, so the stream determines every phase's payload |
| Frame.PhasePixels | source/epaper.c:264-280 | once the eight phases of a frame encoded from an image are closed, bit 7-b of byte k of phase i is the plane bit `send` put there (scripts/epaper.py:47-63) |

## Left out

- Engine.Engine.Refresh: one call sees a finite list of busy-pin readings, while the firmware polls without a bound. When none of them is high the call returns with the poll open (`polling` set) and no `'r'` sent. The next call resumes the poll where it stopped: it drops no byte and does not repeat 0x04 or 0x12. A run of calls is therefore one uninterrupted firmware poll, split at the points where the readings ran out. `polling` stands for the firmware's position inside that loop.
- Engine.Engine.Tick: the default branch for an index above 9 (source/epaper.c:312-313) is excluded by the invariant `index <= 9`.
- Encoder.Send:
  - The type and dtype assertions (scripts/epaper.py:37-38) are enforced by the parameter type, a two-dimensional array of bytes.
  - A failed shape assertion or a missing acknowledgement returns an error value; the source raises an exception and, for the missing acknowledgement, closes the port.
- Encoder.OrSegment: numpy ORs a segment's slice in one vectorised operation. The model ORs it byte by byte in order, which gives the same result because each byte is written once per round.
- Packing.Place and Packing.BitOf write `p << (7 - b)` and `(x >> (7 - b)) & 1` as one case per bit position; `Packing.PlaceBitOf` proves them equal to the shifts.
- Pin, USART, SPI register configuration and baud arithmetic (source/epaper.c:143-166): one-time hardware set-up with no logic.
- Panel initialisation command tables and LUT payloads (source/epaper.c:169-247): configuration data sent before the main loop. The model starts from the state after initialisation.
- `_delay_ms` settle times and the watchdog calls (source/epaper.c:140-141, 286, 294-298): timing is not modelled; they are no-ops.
- The busy waits inside `serial_transfer` and `spi_transfer` (source/epaper.c:39-51) are taken as atomic steps.
- The electrical encoding of PORTC and PORTD bits is abstracted to which controller's chip-select and data/command lines are low.
- Serial port opening, the start-up handshake, PIL image loading and `show` (scripts/epaper.py:20-31, 69-79): I/O and a foreign library.
- The `'s'` sleep exchange of `open.__exit__` (scripts/epaper.py:26-31) has no counterpart in the firmware. Phase 9 consumes a received `'s'` like any byte other than `'r'`, and never answers it.
- scripts/example.py is not part of this model: it is a usage demonstration.
