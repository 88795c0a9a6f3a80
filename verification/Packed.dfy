/** Single bits of a byte, and the numbering of matrix keys that the packed per-key arrays share. */
module Packed {
  import opened Events

  /** `1U << i` on eight bits. */
  function Bit(i: nat): bv8
    requires i < 8
  {
    if i == 0 then 1 else if i == 1 then 2 else if i == 2 then 4 else if i == 3 then 8
    else if i == 4 then 16 else if i == 5 then 32 else if i == 6 then 64 else 128
  }

  predicate BitOf(x: bv8, i: nat)
    requires i < 8
  {
    x & Bit(i) != 0
  }

  lemma {:induction false} OrBit(x: bv8, i: nat, j: nat)
    requires i < 8 && j < 8
    ensures BitOf(x | Bit(i), j) == (BitOf(x, j) || i == j)
  {}

  function WriteBit(x: bv8, i: nat, on: bool): bv8
    requires i < 8
  {
    if on then x | Bit(i) else x & !Bit(i)
  }

  lemma {:induction false} WriteBitSetsOneBit(x: bv8, i: nat, on: bool, j: nat)
    requires i < 8 && j < 8
    ensures BitOf(WriteBit(x, i, on), j) == if i == j then on else BitOf(x, j)
  {}

  lemma {:induction false} SameBits(x: bv8, y: bv8)
    requires forall i :: 0 <= i < 8 ==> BitOf(x, i) == BitOf(y, i)
    ensures x == y
  {
    assert BitOf(x, 0) == BitOf(y, 0) && BitOf(x, 1) == BitOf(y, 1) && BitOf(x, 2) == BitOf(y, 2) &&
           BitOf(x, 3) == BitOf(y, 3);
    assert BitOf(x, 4) == BitOf(y, 4) && BitOf(x, 5) == BitOf(y, 5) && BitOf(x, 6) == BitOf(y, 6) &&
           BitOf(x, 7) == BitOf(y, 7);
  }

  ghost predicate InMatrix(k: Key, rows: nat, cols: nat) {
    k.row < rows && k.col < cols
  }

  function EntryOf(k: Key, cols: nat): nat {
    k.row * cols + k.col
  }

  lemma {:induction false} OneRowMore(r: nat, r': nat, cols: nat)
    requires r < r'
    ensures r * cols + cols <= r' * cols
    decreases r'
  {
    assert r' * cols == (r' - 1) * cols + cols;
    if r < r' - 1 { OneRowMore(r, r' - 1, cols); }
  }

  lemma {:induction false} EntryInRange(k: Key, rows: nat, cols: nat)
    requires InMatrix(k, rows, cols)
    ensures EntryOf(k, cols) < rows * cols
  {
    OneRowMore(k.row, rows, cols);
  }

  lemma {:induction false} RowDecides(k: Key, k': Key, cols: nat)
    requires k.col < cols && k.row < k'.row
    ensures EntryOf(k, cols) < EntryOf(k', cols)
  {
    OneRowMore(k.row, k'.row, cols);
  }

  lemma {:induction false} EntriesDistinct(k: Key, k': Key, rows: nat, cols: nat)
    requires InMatrix(k, rows, cols) && InMatrix(k', rows, cols) && k != k'
    ensures EntryOf(k, cols) != EntryOf(k', cols)
  {
    if k.row < k'.row { RowDecides(k, k', cols); }
    if k'.row < k.row { RowDecides(k', k, cols); }
  }
}
