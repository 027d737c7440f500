/**
 * The firmware's 256-slot circular receive buffer (the `buffer`,
 * `buffer_read` and `buffer_write` members of the main loop's `state`
 * in source/epaper.c), viewed as the sequence of bytes it holds.
 *
 * The cursors are `uint8_t` in the source: every increment wraps
 * modulo 256, which the model writes out as `% Capacity`.
 */
module Ring {

  const Capacity: nat := 256

  /** Cursor arithmetic of a `uint8_t` incremented with `++`. */
  function Next(i: nat): (j: nat)
    requires i < Capacity
    ensures j < Capacity
    ensures j == if i == Capacity - 1 then 0 else i + 1
  {
    (i + 1) % Capacity
  }

  /** The buffer is full when the write cursor sits just behind the read cursor. */
  predicate Full(read: nat, write: nat)
    requires read < Capacity && write < Capacity
  {
    write == (read + 255) % Capacity
  }

  /** Number of bytes between the cursors, modulo the capacity. */
  function Occupancy(read: nat, write: nat): nat
    requires read < Capacity && write < Capacity
  {
    (write - read) % Capacity
  }

  /** The bytes held by the buffer, oldest first: the slots from `read` up to, not including, `write`. */
  function Contents(slots: seq<bv8>, read: nat, write: nat): seq<bv8>
    requires |slots| == Capacity && read < Capacity && write < Capacity
    decreases Occupancy(read, write)
  {
    if read == write then [] else [slots[read]] + Contents(slots, Next(read), write)
  }

  /** The contents have exactly `Occupancy` bytes, so the buffer never holds more than 255. */
  lemma {:induction false} ContentsLength(slots: seq<bv8>, read: nat, write: nat)
    requires |slots| == Capacity && read < Capacity && write < Capacity
    ensures |Contents(slots, read, write)| == Occupancy(read, write) <= Capacity - 1
    decreases Occupancy(read, write)
  {
    if read != write {
      ContentsLength(slots, Next(read), write);
    }
  }

  /** Full exactly when the buffer holds 255 bytes. */
  lemma FullIffAtLimit(slots: seq<bv8>, read: nat, write: nat)
    requires |slots| == Capacity && read < Capacity && write < Capacity
    ensures Full(read, write) <==> |Contents(slots, read, write)| == Capacity - 1
  {
    ContentsLength(slots, read, write);
  }

  /**
   * Storing a byte at the write cursor and advancing it appends that byte,
   * provided the buffer was not full.
   */
  lemma {:induction false} PushAppends(slots: seq<bv8>, read: nat, write: nat, b: bv8)
    requires |slots| == Capacity && read < Capacity && write < Capacity
    requires !Full(read, write)
    ensures Contents(slots[write := b], read, Next(write)) == Contents(slots, read, write) + [b]
    decreases Occupancy(read, write)
  {
    if read == write {
      assert Contents(slots[write := b], Next(read), Next(write)) == [];
    } else {
      PushAppends(slots, Next(read), write, b);
    }
  }

  /** Taking the byte at the read cursor and advancing it removes the oldest byte. */
  lemma PopRemovesOldest(slots: seq<bv8>, read: nat, write: nat)
    requires |slots| == Capacity && read < Capacity && write < Capacity
    requires read != write
    ensures Contents(slots, read, write) == [slots[read]] + Contents(slots, Next(read), write)
  {
  }
}
