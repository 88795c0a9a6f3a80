/**
 * Ghost detection in quantum/keyboard.c. A matrix row is the sequence of its bits, lowest column first,
 * so that every row width is covered at once.
 */
module Ghosting {

  type Row = seq<bool>

  predicate Rectangular(m: seq<Row>, rows: nat, cols: nat) {
    |m| == rows && forall r :: 0 <= r < rows ==> |m[r]| == cols
  }

  function And(x: Row, y: Row): (z: Row)
    requires |x| == |y|
    ensures |z| == |x| && forall i :: 0 <= i < |x| ==> z[i] == (x[i] && y[i])
  {
    seq(|x|, i requires 0 <= i < |x| => x[i] && y[i])
  }

  predicate NonZero(x: Row) {
    exists i :: 0 <= i < |x| && x[i]
  }

  /** `x - 1` with the borrow running upwards; zero wraps to all ones. */
  function Decrement(x: Row): (y: Row)
    ensures |y| == |x|
  {
    if x == [] then []
    else if x[0] then [false] + x[1..]
    else [true] + Decrement(x[1..])
  }

  predicate SetBelow(x: Row, k: nat)
    requires k <= |x|
  {
    exists i :: 0 <= i < k && x[i]
  }

  /** `x & (x - 1)` keeps exactly the one bits that have another one bit below them. */
  lemma {:induction false} DropsLowestBit(x: Row, k: nat)
    requires k < |x|
    ensures And(x, Decrement(x))[k] <==> x[k] && SetBelow(x, k)
  {
    if x[0] {
      if k > 0 { assert Decrement(x)[k] == x[k]; }
    } else if k > 0 {
      DropsLowestBit(x[1..], k - 1);
      assert Decrement(x)[k] == Decrement(x[1..])[k - 1];
      if SetBelow(x[1..], k - 1) {
        var i :| 0 <= i < k - 1 && x[1..][i];
        assert x[i + 1];
      }
      if SetBelow(x, k) {
        var i :| 0 <= i < k && x[i];
        assert x[1..][i - 1];
      }
    }
  }

  predicate TwoKeys(x: Row) {
    exists i, j :: 0 <= i < j < |x| && x[i] && x[j]
  }

  predicate PopcountMoreThanOne(x: Row) {
    NonZero(And(x, Decrement(x)))
  }

  /** The bit trick counts: it holds exactly for rows with two keys or more. */
  lemma {:induction false} PopcountMeansTwoKeys(x: Row)
    ensures PopcountMoreThanOne(x) <==> TwoKeys(x)
  {
    if PopcountMoreThanOne(x) {
      var k :| 0 <= k < |x| && And(x, Decrement(x))[k];
      DropsLowestBit(x, k);
      var i :| 0 <= i < k && x[i];
    }
    if TwoKeys(x) {
      var i, j :| 0 <= i < j < |x| && x[i] && x[j];
      DropsLowestBit(x, j);
      assert And(x, Decrement(x))[j];
    }
  }

  // ---------- The code ----------

  /** `defined[c]` says whether the keymap defines a key in column `c` of this row. */
  method GetRealKeys(defined: Row, rowdata: Row) returns (out: Row)
    requires |defined| == |rowdata|
    ensures out == And(defined, rowdata)
  {
    out := seq(|rowdata|, _ => false);
    for col := 0 to |rowdata|
      invariant |out| == |rowdata|
      invariant forall i :: 0 <= i < |rowdata| ==> out[i] == (i < col && defined[i] && rowdata[i])
    {
      if defined[col] && rowdata[col] { out := out[col := true]; }
    }
  }

  /** Four real keys read as pressed at the crossings of rows `r`, `i` and columns `a`, `b`. */
  predicate GhostSquare(m: seq<Row>, keys: seq<Row>, r: nat, i: nat, a: nat, b: nat)
    requires r < |m| == |keys| && i < |m|
    requires a < |m[r]| == |keys[r]| && a < |m[i]| == |keys[i]| && b < |m[r]| && b < |m[i]|
  {
    && m[r][a] && keys[r][a] && m[r][b] && keys[r][b]
    && m[i][a] && keys[i][a] && m[i][b] && keys[i][b]
  }

  /** Two rows that share two columns of real pressed keys. */
  predicate GhostPair(m: seq<Row>, keys: seq<Row>, rows: nat, cols: nat, r: nat, i: nat)
    requires Rectangular(m, rows, cols) && Rectangular(keys, rows, cols) && r < rows && i < rows
  {
    exists a, b :: 0 <= a < b < cols && GhostSquare(m, keys, r, i, a, b)
  }

  predicate Ghosted(m: seq<Row>, keys: seq<Row>, rows: nat, cols: nat, r: nat)
    requires Rectangular(m, rows, cols) && Rectangular(keys, rows, cols) && r < rows
  {
    exists i :: 0 <= i < rows && i != r && GhostPair(m, keys, rows, cols, r, i)
  }

  lemma {:induction false} SharedColumns(m: seq<Row>, keys: seq<Row>, rows: nat, cols: nat, r: nat, i: nat)
    requires Rectangular(m, rows, cols) && Rectangular(keys, rows, cols) && r < rows && i < rows
    ensures PopcountMoreThanOne(And(And(keys[i], m[i]), And(keys[r], m[r]))) <==> GhostPair(m, keys, rows, cols, r, i)
  {
    var shared := And(And(keys[i], m[i]), And(keys[r], m[r]));
    PopcountMeansTwoKeys(shared);
    if TwoKeys(shared) {
      var a, b :| 0 <= a < b < |shared| && shared[a] && shared[b];
      assert GhostSquare(m, keys, r, i, a, b);
    }
    if GhostPair(m, keys, rows, cols, r, i) {
      var a, b :| 0 <= a < b < cols && GhostSquare(m, keys, r, i, a, b);
      assert shared[a] && shared[b];
    }
  }

  /** A row of fewer than two real keys has no partner. */
  lemma {:induction false} PairNeedsTwoKeys(m: seq<Row>, keys: seq<Row>, rows: nat, cols: nat, r: nat, i: nat)
    requires Rectangular(m, rows, cols) && Rectangular(keys, rows, cols) && r < rows && i < rows
    ensures GhostPair(m, keys, rows, cols, r, i) ==> PopcountMoreThanOne(And(keys[r], m[r]))
  {
    var x := And(keys[r], m[r]);
    PopcountMeansTwoKeys(x);
    if GhostPair(m, keys, rows, cols, r, i) {
      var a, b :| 0 <= a < b < cols && GhostSquare(m, keys, r, i, a, b);
      assert x[a] && x[b];
    }
  }

  method SharesColumns(m: seq<Row>, keys: seq<Row>, rows: nat, cols: nat, r: nat, i: nat, rowdata: Row)
    returns (shared: bool)
    requires Rectangular(m, rows, cols) && Rectangular(keys, rows, cols) && r < rows && i < rows
    requires rowdata == And(keys[r], m[r])
    ensures shared == GhostPair(m, keys, rows, cols, r, i)
  {
    var other := GetRealKeys(keys[i], m[i]);
    SharedColumns(m, keys, rows, cols, r, i);
    return PopcountMoreThanOne(And(other, rowdata));
  }

  /** The detection is exact, for every matrix size and keymap. */
  method HasGhostInRow(m: seq<Row>, keys: seq<Row>, rows: nat, cols: nat, r: nat) returns (ghosted: bool)
    requires Rectangular(m, rows, cols) && Rectangular(keys, rows, cols) && r < rows
    ensures ghosted == Ghosted(m, keys, rows, cols, r)
  {
    var rowdata := GetRealKeys(keys[r], m[r]);
    if !PopcountMoreThanOne(rowdata) {
      forall i | 0 <= i < rows ensures !GhostPair(m, keys, rows, cols, r, i) {
        PairNeedsTwoKeys(m, keys, rows, cols, r, i);
      }
      return false;
    }
    for i := 0 to rows
      invariant forall k :: 0 <= k < i && k != r ==> !GhostPair(m, keys, rows, cols, r, k)
    {
      var shared := SharesColumns(m, keys, rows, cols, r, i, rowdata);
      if i != r && shared { return true; }
    }
    return false;
  }

  /** Being ghosted is symmetric: the partner rows of a ghosted row are found ghosted as well. */
  lemma {:induction false} GhostsComeInPairs(m: seq<Row>, keys: seq<Row>, rows: nat, cols: nat, r: nat)
    requires Rectangular(m, rows, cols) && Rectangular(keys, rows, cols) && r < rows
    ensures Ghosted(m, keys, rows, cols, r) <==>
            exists i :: 0 <= i < rows && i != r && GhostPair(m, keys, rows, cols, i, r)
    ensures forall i :: 0 <= i < rows && i != r && GhostPair(m, keys, rows, cols, r, i) ==>
              Ghosted(m, keys, rows, cols, i)
  {
    forall i | 0 <= i < rows ensures GhostPair(m, keys, rows, cols, r, i) <==> GhostPair(m, keys, rows, cols, i, r) {
      PairSymmetric(m, keys, rows, cols, r, i);
      PairSymmetric(m, keys, rows, cols, i, r);
    }
  }

  lemma {:induction false} PairSymmetric(m: seq<Row>, keys: seq<Row>, rows: nat, cols: nat, r: nat, i: nat)
    requires Rectangular(m, rows, cols) && Rectangular(keys, rows, cols) && r < rows && i < rows
    ensures GhostPair(m, keys, rows, cols, r, i) ==> GhostPair(m, keys, rows, cols, i, r)
  {
    if GhostPair(m, keys, rows, cols, r, i) {
      var a, b :| 0 <= a < b < cols && GhostSquare(m, keys, r, i, a, b);
      assert GhostSquare(m, keys, i, r, a, b);
    }
  }
}
