/**
 * The circular receive buffer of the AVR driver as a value: 100 byte cells
 * and the cursor the SPI interrupt handler writes at next. `Replay` gives the
 * state after a flush followed by a sequence of interrupt events; the lemmas
 * say which bytes survive and where the cursor ends up.
 */
module ReceiveRing {

  /** BUFFERSIZE. */
  const Capacity: nat := 100

  datatype Ring = Ring(cells: seq<bv8>, cursor: nat)

  /** The shape the driver keeps: exactly `Capacity` cells, cursor on one of them. */
  predicate WellFormed(r: Ring)
  {
    |r.cells| == Capacity && r.cursor < Capacity
  }

  /** The state `spi_flush` leaves: every cell zero, cursor at the start. */
  function Flushed(): (r: Ring)
    ensures WellFormed(r) && r.cursor == 0
    ensures forall i | 0 <= i < Capacity :: r.cells[i] == 0
  {
    Ring(seq(Capacity, _ => 0), 0)
  }

  /**
   * One interrupt: store the byte at the cursor, post-increment it and wrap
   * it to 0 when it reaches the capacity.
   */
  function Store(r: Ring, b: bv8): (r': Ring)
    requires WellFormed(r)
    ensures WellFormed(r')
    ensures r'.cursor == (r.cursor + 1) % Capacity
    ensures r'.cells[r.cursor] == b
    ensures forall i | 0 <= i < Capacity && i != r.cursor :: r'.cells[i] == r.cells[i]
  {
    var next := r.cursor + 1;
    Ring(r.cells[r.cursor := b], if next == Capacity then 0 else next)
  }

  /** The buffer after a flush and then one interrupt per byte of `events`, in order. */
  function Replay(events: seq<bv8>): (r: Ring)
    ensures WellFormed(r)
  {
    if events == [] then Flushed()
    else Store(Replay(events[..|events| - 1]), events[|events| - 1])
  }

  /** Two event indices less than a capacity apart land in different cells. */
  lemma CellsDistinct(j: int, n: int)
    requires 0 <= j < n < j + Capacity
    ensures j % Capacity != n % Capacity
  {
  }

  /** The newest event index at or below `n - 1` that lands in cell `i`. */
  lemma NewestInCell(n: nat, i: nat)
    requires i < Capacity && i < n
    ensures var j := n - 1 - (n - 1 - i) % Capacity;
            i <= j < n && n - Capacity <= j && j % Capacity == i
  {
  }

  /** The cursor after one more event is the event count mod the capacity. */
  lemma CursorStep(n: nat)
    ensures (n % Capacity + 1) % Capacity == (n + 1) % Capacity
  {
  }

  /**
   * After a flush and `k` interrupts the cursor is `k mod 100`; the last (up
   * to) 100 bytes received sit at their index mod 100, and the cells no
   * interrupt has reached yet are still zero.
   */
  lemma {:induction false} ReplayKeepsLastEvents(events: seq<bv8>)
    ensures Replay(events).cursor == |events| % Capacity
    ensures forall j | 0 <= j < |events| && |events| - Capacity <= j ::
              Replay(events).cells[j % Capacity] == events[j]
    ensures forall i | |events| <= i < Capacity :: Replay(events).cells[i] == 0
  {
    if events != [] {
      var n := |events| - 1;
      var prev := events[..n];
      ReplayKeepsLastEvents(prev);
      var r, r' := Replay(prev), Replay(events);
      assert r' == Store(r, events[n]);
      CursorStep(n);
      forall j | 0 <= j < |events| && |events| - Capacity <= j
        ensures r'.cells[j % Capacity] == events[j]
      {
        if j < n {
          CellsDistinct(j, n);
          assert prev[j] == events[j];
        } else {
          assert j % Capacity == r.cursor;
        }
      }
    }
  }

  /**
   * Every cell holds the newest byte whose event index is congruent to it, or
   * zero when no event has reached it: the contents are a function of the
   * event count and the last 100 events only.
   */
  lemma {:induction false} ReplayCell(events: seq<bv8>, i: nat)
    requires i < Capacity
    ensures Replay(events).cells[i] ==
              if i < |events| then events[|events| - 1 - (|events| - 1 - i) % Capacity] else 0
  {
    ReplayKeepsLastEvents(events);
    var n := |events|;
    if i < n {
      NewestInCell(n, i);
      var j := n - 1 - (n - 1 - i) % Capacity;
      assert 0 <= j < n && n - Capacity <= j;
      assert Replay(events).cells[j % Capacity] == events[j];
    }
  }

  /** One instance of `ReplayKeepsLastEvents`: where event `j` sits, and the cursor. */
  lemma {:induction false} ReplayAt(events: seq<bv8>, j: nat)
    requires j < |events| && |events| - Capacity <= j
    ensures Replay(events).cells[j % Capacity] == events[j]
    ensures Replay(events).cursor == |events| % Capacity
  {
    ReplayKeepsLastEvents(events);
  }

  /**
   * 103 interrupts carrying 0, 1, ..., 102 after a flush: the three newest
   * bytes have overwritten cells 0..2, cells 3..99 still hold 3..99, and the
   * cursor is 3.
   */
  lemma {:induction false} OverflowOverwritesOldest(events: seq<bv8>, i: nat)
    requires |events| == Capacity + 3
    requires forall j | 0 <= j < |events| :: events[j] == j as bv8
    requires i < Capacity
    ensures Replay(events).cursor == 3
    ensures Replay(events).cells[i] == if i < 3 then (Capacity + i) as bv8 else i as bv8
  {
    if i < 3 {
      ReplayAt(events, Capacity + i);
      assert (Capacity + i) % Capacity == i;
      assert events[Capacity + i] == (Capacity + i) as bv8;
    } else {
      ReplayAt(events, i);
      assert i % Capacity == i;
      assert events[i] == i as bv8;
    }
  }



}
