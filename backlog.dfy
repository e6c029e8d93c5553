/** The scrollback ring of a terminal (src/bin/backlog.h): `backsize` slots
    in the array `back`, and the cursor `backpos`. BACKLOG_ROW_GET maps a
    backward offset to the slot holding it; offset 0 is the newest saved row
    if rows are written at the cursor. */
module Backlog {
  import opened Types

  /** The slot BACKLOG_ROW_GET computes for offset `y`, with the cursor
      taken from the same terminal as the array and its size. */
  function RowSlot(backsize: nat, backpos: nat, y: nat): (slot: nat)
    requires 0 < backsize && backpos < backsize && y < backsize
    ensures slot < backsize
  {
    (backsize - 1 + backpos - y) % backsize
  }

  /** size_t arithmetic: values wrap modulo 2^64. */
  const SizeModulus: int := 0x1_0000_0000_0000_0000

  /** The macro as C evaluates it, with `backsize` and `backpos` of type
      size_t: the offset is converted to size_t and the difference wraps
      before the remainder is taken. A size of 0 is a division by zero. */
  function RowSlotUnsigned(backsize: nat, backpos: nat, y: int): (slot: nat)
    requires 0 < backsize < SizeModulus && backpos < SizeModulus
    ensures slot < backsize
  {
    ((backsize - 1 + backpos - y) % SizeModulus) % backsize
  }

  /** For every offset inside the ring the unsigned computation does not
      wrap and agrees with RowSlot. */
  lemma UnsignedAgrees(backsize: nat, backpos: nat, y: nat)
    requires 0 < backsize && backpos < backsize && y < backsize
    requires backsize + backpos < SizeModulus
    ensures RowSlotUnsigned(backsize, backpos, y) == RowSlot(backsize, backpos, y)
  {
    var d := backsize - 1 + backpos - y;
    assert d % SizeModulus == d;
  }

  /** Past `backsize - 1 + backpos` the difference wraps: in a ring of 5
      with the cursor at 0, offset 6 reaches slot 4, whereas going round the
      ring (6 = 5 + 1) would give the slot of offset 1, slot 3. */
  lemma UnsignedWraps()
    ensures RowSlotUnsigned(5, 0, 6) == 4
    ensures RowSlot(5, 0, 1) == 3
  {
    assert (5 - 1 + 0 - 6) % SizeModulus == SizeModulus - 2;
  }

  /** The remainder of a number below twice the divisor: the macro's
      difference always lies in that range. */
  lemma ModBelowTwice(x: int, n: int)
    requires 0 < n && 0 <= x < 2 * n
    ensures x % n == if x < n then x else x - n
  {
    if x < n {
      assert x / n == 0;
    } else {
      assert x / n == 1;
    }
  }

  /** RowSlot without the remainder: count back from the slot before the
      cursor, wrapping once past slot 0. */
  lemma RowSlotCases(backsize: nat, backpos: nat, y: nat)
    requires 0 < backsize && backpos < backsize && y < backsize
    ensures RowSlot(backsize, backpos, y) ==
            if y < backpos then backpos - 1 - y else backsize - 1 + backpos - y
  {
    ModBelowTwice(backsize - 1 + backpos - y, backsize);
  }

  /** Offset 0 is the slot just before the cursor, which is the last slot
      when the cursor is at 0: if rows are written at the cursor, it holds
      the newest one. */
  lemma NewestSlot(backsize: nat, backpos: nat)
    requires 0 < backsize && backpos < backsize
    ensures RowSlot(backsize, backpos, 0) == if backpos == 0 then backsize - 1 else backpos - 1
  {
    RowSlotCases(backsize, backpos, 0);
  }

  /** The oldest offset of a full ring is the cursor itself: if rows are
      written at the cursor, the slot the next write replaces. */
  lemma OldestSlot(backsize: nat, backpos: nat)
    requires 0 < backsize && backpos < backsize
    ensures RowSlot(backsize, backpos, backsize - 1) == backpos
  {
    RowSlotCases(backsize, backpos, backsize - 1);
  }

  /** Different offsets name different slots. */
  lemma RowSlotInjective(backsize: nat, backpos: nat, y1: nat, y2: nat)
    requires 0 < backsize && backpos < backsize && y1 < backsize && y2 < backsize
    requires RowSlot(backsize, backpos, y1) == RowSlot(backsize, backpos, y2)
    ensures y1 == y2
  {
    RowSlotCases(backsize, backpos, y1);
    RowSlotCases(backsize, backpos, y2);
  }

  /** The map from offsets to slots is its own inverse: applying it to a
      slot gives back the offset that slot holds. So every slot is addressed
      by exactly one offset, the one RowSlot gives for the slot itself. */
  lemma RowSlotBijective(backsize: nat, backpos: nat, y: nat)
    requires 0 < backsize && backpos < backsize && y < backsize
    ensures RowSlot(backsize, backpos, RowSlot(backsize, backpos, y)) == y
  {
    RowSlotCases(backsize, backpos, y);
    RowSlotCases(backsize, backpos, RowSlot(backsize, backpos, y));
  }

  /** After writing at the cursor and advancing it, the row just written
      is offset 0. */
  lemma AdvanceNewest(backsize: nat, backpos: nat)
    requires 0 < backsize && backpos < backsize
    ensures RowSlot(backsize, (backpos + 1) % backsize, 0) == backpos
  {
    ModBelowTwice(backpos + 1, backsize);
    RowSlotCases(backsize, (backpos + 1) % backsize, 0);
  }

  /** Advancing the cursor moves every row one offset further back. */
  lemma AdvanceShifts(backsize: nat, backpos: nat, y: nat)
    requires 0 < backsize && backpos < backsize && y + 1 < backsize
    ensures RowSlot(backsize, (backpos + 1) % backsize, y + 1) == RowSlot(backsize, backpos, y)
  {
    ModBelowTwice(backpos + 1, backsize);
    RowSlotCases(backsize, (backpos + 1) % backsize, y + 1);
    RowSlotCases(backsize, backpos, y);
  }

  /** A terminal's backlog: the ring of saved rows (None for a slot never
      written) and the cursor. `rows` lists the slots by offset: newest
      first, if rows are written at the cursor as Push does. */
  class Ring<T> {
    var back: array<Option<T>>
    var backsize: nat
    var backpos: nat
    ghost var rows: seq<Option<T>>

    ghost predicate Valid()
      reads this, back
    {
      && back.Length == backsize
      && 0 < backsize
      && backpos < backsize
      && |rows| == backsize
      && forall y :: 0 <= y < backsize ==> rows[y] == back[RowSlot(backsize, backpos, y)]
    }

    /** A ring of `size` empty slots. */
    constructor(size: nat)
      requires 0 < size
      ensures Valid() && fresh(back)
      ensures backsize == size && backpos == 0
      ensures rows == seq(size, _ => None)
    {
      back := new Option<T>[size](_ => None);
      backsize := size;
      backpos := 0;
      rows := seq(size, _ => None);
    }

    /** BACKLOG_ROW_GET: the row `y` saves back. */
    method RowGet(y: nat) returns (row: Option<T>)
      requires Valid() && y < backsize
      ensures row == rows[y]
    {
      row := back[RowSlot(backsize, backpos, y)];
    }

    /** Save a row: write it at the cursor, then advance the cursor. The
        row becomes offset 0, every other row moves one offset back, and
        the oldest one is overwritten. */
    method Push(row: T)
      requires Valid()
      modifies this, back
      ensures Valid()
      ensures back == old(back) && backsize == old(backsize)
      ensures back[old(backpos)] == Some(row)
      ensures forall k :: 0 <= k < back.Length && k != old(backpos) ==> back[k] == old(back[k])
      ensures backpos == (old(backpos) + 1) % backsize
      ensures rows == [Some(row)] + old(rows)[..backsize - 1]
    {
      var pos := backpos;
      back[pos] := Some(row);
      backpos := (backpos + 1) % backsize;
      rows := [Some(row)] + rows[..backsize - 1];
      forall y | 0 <= y < backsize
        ensures rows[y] == back[RowSlot(backsize, backpos, y)]
      {
        if y == 0 {
          AdvanceNewest(backsize, pos);
        } else {
          AdvanceShifts(backsize, pos, y - 1);
          OldestSlot(backsize, pos);
          if RowSlot(backsize, pos, y - 1) == pos {
            RowSlotInjective(backsize, pos, y - 1, backsize - 1);
          }
        }
      }
    }
  }
}
