/**
 * Intel HEX files by their own rules: where the Intel Hexadecimal Object File Format Specification puts each
 * data byte, and when `convert_from_hex_to_uf2` agrees with it.
 */
module HexFormat {
  import opened Bytes
  import opened Uf2
  import opened Hex

  // ---------- The format ----------

  /** RECLEN counts the data bytes; address records have two of them. */
  predicate WellFormed(rec: seq<byte>) {
    |rec| >= 5 && |rec| == rec[0] as int + 5 && (rec[3] == 2 || rec[3] == 4 ==> rec[0] == 2)
  }

  /** The upper linear address, or the upper segment address, in effect. */
  datatype Base = Linear(upper: nat) | Segment(upper: nat)

  /** An address record sets the base for the records after it. */
  function NextBase(b: Base, rec: seq<byte>): Base {
    if |rec| < 6 then b
    else if rec[3] == 4 then Linear(Big16(rec[4], rec[5]))
    else if rec[3] == 2 then Segment(Big16(rec[4], rec[5]))
    else b
  }

  /** Sections 4 and 5: an address record holds until the next one; the linear base is zero at first. */
  function BaseAt(recs: seq<seq<byte>>, k: nat): Base
    requires k <= |recs|
  {
    if k == 0 then Linear(0) else NextBase(BaseAt(recs, k - 1), recs[k - 1])
  }

  /** Data byte `i` of a record: linear addresses wrap at 4G, segment offsets wrap inside their 64K segment. */
  function ByteAddress(b: Base, offset: nat, i: nat): nat {
    match b
    case Linear(u) => (u * 0x1_0000 + offset + i) % 0x1_0000_0000
    case Segment(u) => u * 16 + (offset + i) % 0x1_0000
  }

  function Placed(rec: seq<byte>, b: Base): (ws: seq<Write>)
    requires WellFormed(rec)
    ensures |ws| == |rec| - 5
    ensures forall i :: 0 <= i < |ws| ==> ws[i] == Write(ByteAddress(b, Big16(rec[1], rec[2]), i), rec[4 + i])
  {
    seq(|rec| - 5, i requires 0 <= i < |rec| - 5 => Write(ByteAddress(b, Big16(rec[1], rec[2]), i), rec[4 + i]))
  }

  predicate DataRecord(rec: seq<byte>) { WellFormed(rec) && rec[3] == 0 }

  /** The data bytes of one record. */
  function DataOf(rec: seq<byte>, b: Base): seq<Write> {
    if DataRecord(rec) then Placed(rec, b) else []
  }

  /** The data bytes of the first `n` records. */
  function Contents(recs: seq<seq<byte>>, n: nat): seq<Write>
    requires n <= |recs|
  {
    if n == 0 then [] else Contents(recs, n - 1) + DataOf(recs[n - 1], BaseAt(recs, n - 1))
  }

  /** A file of `n` records that is ended by the record after them, or by the end of the text. */
  predicate FileOf(recs: seq<seq<byte>>, n: nat) {
    && n <= |recs| && (forall i :: 0 <= i < n ==> WellFormed(recs[i]) && recs[i][3] != 1)
    && (n < |recs| ==> |recs[n]| >= 4 && recs[n][3] == 1)
  }

  // ---------- When the code agrees ----------

  /** No byte of the record lies behind the wrap. */
  predicate StaysBelow(rec: seq<byte>, b: Base)
    requires WellFormed(rec)
  {
    var end := Big16(rec[1], rec[2]) + (|rec| - 5);
    |rec| == 5 || (if b.Linear? then b.upper * 0x1_0000 + end <= 0x1_0000_0000 else end <= 0x1_0000)
  }

  predicate NoneWraps(rec: seq<byte>, b: Base) {
    DataRecord(rec) ==> StaysBelow(rec, b)
  }

  /** No data byte of the first `n` records lies behind a wrap. */
  predicate NoWrap(recs: seq<seq<byte>>, n: nat)
    requires n <= |recs|
  {
    n == 0 || (NoWrap(recs, n - 1) && NoneWraps(recs[n - 1], BaseAt(recs, n - 1)))
  }

  function UpperOf(b: Base): nat {
    match b case Linear(u) => u * 0x1_0000 case Segment(u) => u * 16
  }

  lemma {:induction false} RecordAgrees(rec: seq<byte>, b: Base)
    requires WellFormed(rec) && b.upper < 0x1_0000
    ensures DataWrites(rec, UpperOf(b) + Big16(rec[1], rec[2])) == Placed(rec, b) <==> StaysBelow(rec, b)
  {
    var offset := Big16(rec[1], rec[2]);
    var ws, ps := DataWrites(rec, UpperOf(b) + offset), Placed(rec, b);
    forall i | 0 <= i < |ws|
      ensures ws[i] == ps[i] <==> (if b.Linear? then b.upper * 0x1_0000 + offset + i < 0x1_0000_0000
                                   else offset + i < 0x1_0000)
    {
      ByteAgrees(b, offset, i);
    }
    if ws == ps && |ws| > 0 { assert ws[|ws| - 1] == ps[|ws| - 1]; }
  }

  lemma {:induction false} ByteAgrees(b: Base, offset: nat, i: nat)
    requires b.upper < 0x1_0000
    ensures UpperOf(b) + offset + i == ByteAddress(b, offset, i) <==>
            if b.Linear? then b.upper * 0x1_0000 + offset + i < 0x1_0000_0000 else offset + i < 0x1_0000
  {}

  lemma {:induction false} BaseInRange(recs: seq<seq<byte>>, k: nat)
    requires k <= |recs|
    ensures BaseAt(recs, k).upper < 0x1_0000
  {
    if k > 0 { BaseInRange(recs, k - 1); }
  }

  lemma {:induction false} ConcatEqual(a: seq<Write>, b: seq<Write>, a': seq<Write>, b': seq<Write>)
    requires |a| == |a'|
    ensures a + b == a' + b' <==> a == a' && b == b'
  {
    if a + b == a' + b' {
      assert a == (a + b)[..|a|] && a' == (a' + b')[..|a'|];
      assert b == (a + b)[|a|..] && b' == (a' + b')[|a'|..];
    }
  }

  /** One more record, after a scan that is at base `b` and has met as many data bytes as the format. */
  lemma {:induction false} RecordScanned(c: Scan, b: Base, ws: seq<Write>, rec: seq<byte>)
    requires WellFormed(rec) && rec[3] != 1 && b.upper < 0x1_0000
    requires !c.ended && c.upper == UpperOf(b) && |c.writes| == |ws|
    ensures ScanRecord(c, rec).Ok? && Follows(ScanRecord(c, rec).value, NextBase(b, rec), ws + DataOf(rec, b))
    ensures ScanRecord(c, rec).value.writes == ws + DataOf(rec, b) <==> c.writes == ws && NoneWraps(rec, b)
  {
    if rec[3] == 0 {
      RecordAgrees(rec, b);
      ConcatEqual(c.writes, DataWrites(rec, c.upper + Big16(rec[1], rec[2])), ws, Placed(rec, b));
    }
  }

  /** The scan goes on, is at the format's base and has met as many data bytes. */
  ghost predicate Follows(c: Scan, b: Base, ws: seq<Write>) {
    !c.ended && c.upper == UpperOf(b) && |c.writes| == |ws|
  }

  lemma {:induction false} OneMoreAgrees(recs: seq<seq<byte>>, n: nat, c: Scan, b: Base, ws: seq<Write>)
    requires n < |recs| && WellFormed(recs[n]) && recs[n][3] != 1
    requires ScanRecords(recs, n) == Ok(c) && b == BaseAt(recs, n) && ws == Contents(recs, n) && Follows(c, b, ws)
    ensures ScanRecords(recs, n + 1).Ok?
    ensures Follows(ScanRecords(recs, n + 1).value, BaseAt(recs, n + 1), Contents(recs, n + 1))
    ensures ScanRecords(recs, n + 1).value.writes == Contents(recs, n + 1) <==> c.writes == ws && NoneWraps(recs[n], b)
  {
    BaseInRange(recs, n);
    RecordScanned(c, b, ws, recs[n]);
  }

  /** The scan has the format's data bytes at the format's addresses if and only if none wraps. */
  ghost predicate Agrees(recs: seq<seq<byte>>, n: nat)
    requires n <= |recs|
  {
    var r := ScanRecords(recs, n);
    && r.Ok? && Follows(r.value, BaseAt(recs, n), Contents(recs, n))
    && (r.value.writes == Contents(recs, n) <==> NoWrap(recs, n))
  }

  lemma {:induction false} AgreesOn(recs: seq<seq<byte>>, n: nat)
    requires n < |recs| && WellFormed(recs[n]) && recs[n][3] != 1 && Agrees(recs, n)
    ensures Agrees(recs, n + 1)
  {
    OneMoreAgrees(recs, n, ScanRecords(recs, n).value, BaseAt(recs, n), Contents(recs, n));
  }

  /** The scan succeeds on the records of a file, and gives the format's addresses if and only if none wraps. */
  lemma {:induction false} AddressesAgree(recs: seq<seq<byte>>, n: nat)
    requires n <= |recs| && forall i :: 0 <= i < n ==> WellFormed(recs[i]) && recs[i][3] != 1
    ensures Agrees(recs, n)
  {
    if n > 0 {
      AddressesAgree(recs, n - 1);
      AgreesOn(recs, n - 1);
    }
  }

  lemma {:induction false} EndRecord(recs: seq<seq<byte>>, n: nat)
    requires n < |recs| && |recs[n]| >= 4 && recs[n][3] == 1 && ScanRecords(recs, n).Ok?
    ensures ScanRecords(recs, |recs|).Ok?
    ensures ScanRecords(recs, |recs|).value.writes == ScanRecords(recs, n).value.writes
  {
    ScanSettles(recs, n + 1, |recs|);
  }

  /** What the whole conversion sees of a file. */
  lemma {:induction false} FileScanned(recs: seq<seq<byte>>, n: nat)
    requires FileOf(recs, n)
    ensures ScanRecords(recs, |recs|).Ok?
    ensures ScanRecords(recs, |recs|).value.writes == Contents(recs, n) <==> NoWrap(recs, n)
  {
    AddressesAgree(recs, n);
    if n < |recs| { EndRecord(recs, n); }
  }

  /** Two bytes at the end of a segment: the format puts the second one at its start, the code behind it. */
  lemma {:induction false} SegmentWraps(recs: seq<seq<byte>>)
    requires recs == [[2, 0, 0, 2, 0x10, 0, 0xec], [2, 0xff, 0xff, 0, 1, 2, 0xfd]]
    ensures FileOf(recs, 2) && !NoWrap(recs, 2)
    ensures Contents(recs, 2) == [Write(0x1_ffff, 1), Write(0x1_0000, 2)]
    ensures ScanRecords(recs, 2) == Ok(Scan(0x1_0000, [Write(0x1_ffff, 1), Write(0x2_0000, 2)], false))
  {
    assert WellFormed(recs[0]) && WellFormed(recs[1]);
    assert BaseAt(recs, 1) == Segment(0x1000);
    assert !StaysBelow(recs[1], BaseAt(recs, 1));
    assert Contents(recs, 1) == [];
    assert ScanRecords(recs, 1) == Ok(Scan(0x1_0000, [], false));
    assert [] + DataWrites(recs[1], 0x1_ffff) == [Write(0x1_ffff, 1), Write(0x2_0000, 2)];
    assert ScanRecords(recs, 2) == ScanRecord(Scan(0x1_0000, [], false), recs[1]);
  }
}
