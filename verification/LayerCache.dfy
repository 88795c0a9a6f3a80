/**
 * The source-layer cache of quantum/action_layer.c: one bit-sliced array that remembers, for every key
 * of the matrix, the layer its last press was resolved on.
 */
module LayerCache {
  import opened Events
  import opened Packed

  // ---------- One slice ----------

  /** The update of one slice, `c ^= (-on ^ c) & bit`. */
  function Blend(c: bv8, on: bool, s: nat): bv8
    requires s < 8
  {
    c ^ (((if on then 0xff else 0) ^ c) & Bit(s))
  }

  lemma {:induction false} BlendSetsOneBit(c: bv8, on: bool, s: nat, t: nat)
    requires s < 8 && t < 8
    ensures BitOf(Blend(c, on, s), t) == if t == s then on else BitOf(c, t)
  {}

  // ---------- One entry, spread over the slices ----------

  ghost predicate Below(l: bv8, bits: nat) {
    forall b :: bits <= b < 8 ==> !BitOf(l, b)
  }

  ghost function Spread(l: bv8, bits: nat): (bs: seq<bool>)
    requires bits <= 8
    ensures |bs| == bits && forall b :: 0 <= b < bits ==> bs[b] == BitOf(l, b)
  {
    seq(bits, b requires 0 <= b < bits => BitOf(l, b))
  }

  /** The layer collected from the first `n` slices. */
  ghost function Collect(bs: seq<bool>, n: nat): bv8
    requires n <= |bs| <= 8
  {
    if n == 0 then 0 else Collect(bs, n - 1) | (if bs[n - 1] then Bit(n - 1) else 0)
  }

  lemma {:induction false} CollectBits(bs: seq<bool>, n: nat, j: nat)
    requires n <= |bs| <= 8 && j < 8
    ensures BitOf(Collect(bs, n), j) == (j < n && bs[j])
  {
    if n > 0 {
      CollectBits(bs, n - 1, j);
      OrBit(Collect(bs, n - 1), n - 1, j);
    }
  }

  /** Spreading a layer over the slices and collecting it again gives it back. */
  lemma {:induction false} CollectSpread(l: bv8, bits: nat)
    requires bits <= 8 && Below(l, bits)
    ensures Collect(Spread(l, bits), bits) == l
  {
    forall j | 0 <= j < 8 ensures BitOf(Collect(Spread(l, bits), bits), j) == BitOf(l, j) {
      CollectBits(Spread(l, bits), bits, j);
    }
    SameBits(Collect(Spread(l, bits), bits), l);
  }

  // ---------- The packed cache ----------

  class Cache {
    const rows: nat
    const cols: nat
    const bits: nat
    const slices: array2<bv8>

    constructor (rows: nat, cols: nat, bits: nat)
      requires bits <= 8
      ensures Valid() && fresh(slices)
      ensures this.rows == rows && this.cols == cols && this.bits == bits
      ensures View() == imap k | InMatrix(k, rows, cols) :: 0
    {
      this.rows, this.cols, this.bits := rows, cols, bits;
      slices := new bv8[(rows * cols + 7) / 8, bits]((_, _) => 0);
      new;
      forall k | InMatrix(k, rows, cols) ensures View()[k] == 0 {
        EntryInRange(k, rows, cols);
        var bs := Entry(EntryOf(k, cols));
        forall j | 0 <= j < 8 ensures BitOf(Collect(bs, bits), j) == BitOf(0, j) { CollectBits(bs, bits, j); }
        SameBits(Collect(bs, bits), 0);
      }
    }

    ghost predicate Valid() {
      bits <= 8 && slices.Length0 == (rows * cols + 7) / 8 && slices.Length1 == bits
    }

    /** The bits of entry `e`, one from each slice. */
    ghost function Entry(e: nat): (bs: seq<bool>)
      requires Valid() && e < rows * cols
      reads slices
      ensures |bs| == bits && forall b :: 0 <= b < bits ==> bs[b] == BitOf(slices[e / 8, b], e % 8)
    {
      seq(bits, b requires 0 <= b < bits reads slices => BitOf(slices[e / 8, b], e % 8))
    }

    ghost function Remembered(k: Key): bv8
      requires Valid() && InMatrix(k, rows, cols)
      reads slices
    {
      EntryInRange(k, rows, cols);
      Collect(Entry(EntryOf(k, cols)), bits)
    }

    /** The plain map this cache stands for. */
    ghost function View(): imap<Key, bv8>
      requires Valid()
      reads slices
    {
      imap k | InMatrix(k, rows, cols) :: Remembered(k)
    }

    method UpdateEntry(layer: bv8, e: nat)
      requires Valid() && e < rows * cols
      modifies slices
      ensures Entry(e) == Spread(layer, bits)
      ensures forall o :: 0 <= o < rows * cols && o != e ==> Entry(o) == old(Entry(o))
    {
      var idx, bit := e / 8, e % 8;
      for n := 0 to bits
        invariant forall b :: 0 <= b < n ==> slices[idx, b] == Blend(old(slices[idx, b]), BitOf(layer, b), bit)
        invariant forall i, b :: 0 <= i < slices.Length0 && 0 <= b < bits && !(i == idx && b < n) ==>
                  slices[i, b] == old(slices[i, b])
      {
        slices[idx, n] := Blend(slices[idx, n], BitOf(layer, n), bit);
      }
      forall o, b | 0 <= o < rows * cols && 0 <= b < bits
        ensures BitOf(slices[o / 8, b], o % 8) == if o == e then BitOf(layer, b)
                else BitOf(old(slices[o / 8, b]), o % 8)
      {
        if o / 8 == idx { BlendSetsOneBit(old(slices[idx, b]), BitOf(layer, b), bit, o % 8); }
      }
    }

    method ReadEntry(e: nat) returns (layer: bv8)
      requires Valid() && e < rows * cols
      ensures layer == Collect(Entry(e), bits)
    {
      layer := 0;
      for n := 0 to bits
        invariant layer == Collect(Entry(e), n)
      {
        layer := layer | (if BitOf(slices[e / 8, n], e % 8) then Bit(n) else 0);
      }
    }

    method UpdateSourceLayersCache(k: Key, layer: bv8)
      requires Valid() && Below(layer, bits)
      modifies slices
      ensures View() == if InMatrix(k, rows, cols) then old(View())[k := layer] else old(View())
    {
      if k.row < rows && k.col < cols {
        EntryInRange(k, rows, cols);
        UpdateEntry(layer, EntryOf(k, cols));
        CollectSpread(layer, bits);
        forall o | InMatrix(o, rows, cols) && o != k ensures Remembered(o) == old(Remembered(o)) {
          EntryInRange(o, rows, cols);
          EntriesDistinct(o, k, rows, cols);
        }
      }
    }

    method ReadSourceLayersCache(k: Key) returns (layer: bv8)
      requires Valid()
      ensures layer == if InMatrix(k, rows, cols) then View()[k] else 0
    {
      if k.row < rows && k.col < cols {
        EntryInRange(k, rows, cols);
        layer := ReadEntry(EntryOf(k, cols));
      } else {
        layer := 0;
      }
    }
  }
}
