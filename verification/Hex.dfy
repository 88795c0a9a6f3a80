/**
 * `convert_from_hex_to_uf2` of util/uf2conv.py, from the bytes of each record on: collecting data records
 * into 256-byte pages.
 */
module Hex {
  import opened Bytes
  import opened Uf2

  datatype Write = Write(addr: nat, value: byte)

  function PageOf(addr: nat): nat { addr - addr % 256 }

  function Filler(): (f: seq<byte>)
    ensures |f| == 256 && forall i :: 0 <= i < 256 ==> f[i] == 0xFF
  {
    seq(256, _ => 0xFF)
  }

  predicate Sized(ps: seq<Page>) {
    forall p :: p in ps ==> |p.data| == 256
  }

  /** One data byte goes into the current page, or opens a new one. */
  function Place(ps: seq<Page>, w: Write): (ps': seq<Page>)
    requires Sized(ps)
    ensures Sized(ps')
  {
    var n := |ps|;
    if n == 0 || PageOf(ps[n - 1].addr) != PageOf(w.addr)
    then ps + [Page(PageOf(w.addr), Filler()[w.addr % 256 := w.value])]
    else ps[n - 1 := ps[n - 1].(data := ps[n - 1].data[w.addr % 256 := w.value])]
  }

  function PlaceAll(ps: seq<Page>, ws: seq<Write>): (ps': seq<Page>)
    requires Sized(ps)
    ensures Sized(ps')
    decreases |ws|
  {
    if ws == [] then ps else Place(PlaceAll(ps, ws[..|ws| - 1]), ws[|ws| - 1])
  }

  lemma {:induction false} PlaceOneMore(ps: seq<Page>, ws: seq<Write>, k: nat)
    requires Sized(ps) && k < |ws|
    ensures PlaceAll(ps, ws[..k + 1]) == Place(PlaceAll(ps, ws[..k]), ws[k])
  {
    assert ws[..k + 1][..k] == ws[..k];
  }

  // ---------- Records ----------

  /** The data bytes of a record, from byte 4 to before the checksum, at consecutive addresses. */
  function DataWrites(rec: seq<byte>, addr: nat): (ws: seq<Write>)
    ensures |ws| == (if |rec| < 5 then 0 else |rec| - 5)
    ensures forall j :: 0 <= j < |ws| ==> ws[j] == Write(addr + j, rec[4 + j])
  {
    seq(if |rec| < 5 then 0 else |rec| - 5, j requires 0 <= j < |rec| - 5 => Write(addr + j, rec[4 + j]))
  }

  function Big16(hi: byte, lo: byte): nat { hi as int * 256 + lo as int }

  /** Upper address bits, data bytes so far, and whether the end record was met. */
  datatype Scan = Scan(upper: nat, writes: seq<Write>, ended: bool)

  /** One record; a record that is too short raises an exception, and nothing counts after the end record. */
  function ScanRecord(c: Scan, rec: seq<byte>): Result<Scan> {
    if c.ended then Ok(c)
    else if |rec| < 4 || ((rec[3] == 4 || rec[3] == 2) && |rec| < 6) then Error
    else if rec[3] == 4 then Ok(c.(upper := Big16(rec[4], rec[5]) * 0x1_0000))
    else if rec[3] == 2 then Ok(c.(upper := Big16(rec[4], rec[5]) * 16))
    else if rec[3] == 1 then Ok(c.(ended := true))
    else if rec[3] == 0 then Ok(c.(writes := c.writes + DataWrites(rec, c.upper + Big16(rec[1], rec[2]))))
    else Ok(c)
  }

  function ScanRecords(recs: seq<seq<byte>>, n: nat): Result<Scan>
    requires n <= |recs|
  {
    if n == 0 then Ok(Scan(0, [], false)) else
    match ScanRecords(recs, n - 1)
    case Error => Error
    case Ok(c) => ScanRecord(c, recs[n - 1])
  }

  // ---------- The code ----------

  method PlaceRecord(ps: seq<Page>, rec: seq<byte>, base: nat) returns (ps': seq<Page>)
    requires Sized(ps)
    ensures ps' == PlaceAll(ps, DataWrites(rec, base))
  {
    ps' := ps;
    var addr, i := base, 4;
    ghost var ws := DataWrites(rec, base);
    while i < |rec| - 1
      invariant 4 <= i && addr == base + (i - 4) && i - 4 <= |ws|
      invariant Sized(ps') && ps' == PlaceAll(ps, ws[..i - 4])
    {
      PlaceOneMore(ps, ws, i - 4);
      ps' := Place(ps', Write(addr, rec[i]));
      addr := addr + 1;
      i := i + 1;
    }
    assert ws[..|ws|] == ws;
  }

  /** One more record; an error or the end record settles the result. */
  lemma {:induction false} ScanStep(recs: seq<seq<byte>>, k: nat, c: Scan)
    requires k < |recs| && ScanRecords(recs, k) == Ok(c)
    ensures var next := ScanRecord(c, recs[k]);
            ScanRecords(recs, k + 1) == next && (next.Error? || next.value.ended ==> ScanRecords(recs, |recs|) == next)
  {
    ScanSettles(recs, k + 1, |recs|);
  }

  method CollectPages(recs: seq<seq<byte>>) returns (r: Result<seq<Page>>)
    ensures match ScanRecords(recs, |recs|)
            case Error => r == Error
            case Ok(c) => r == Ok(PlaceAll([], c.writes))
  {
    var ps: seq<Page>, upper: nat := [], 0;
    ghost var c := Scan(0, [], false);
    for k := 0 to |recs|
      invariant ScanRecords(recs, k) == Ok(c) && c.upper == upper && !c.ended
      invariant Sized(ps) && ps == PlaceAll([], c.writes)
    {
      var rec := recs[k];
      ghost var next := ScanRecord(c, rec);
      ScanStep(recs, k, c);
      if |rec| < 4 { return Error; }
      if rec[3] == 4 {
        if |rec| < 6 { return Error; }
        upper := Big16(rec[4], rec[5]) * 0x1_0000;
      } else if rec[3] == 2 {
        if |rec| < 6 { return Error; }
        upper := Big16(rec[4], rec[5]) * 16;
      } else if rec[3] == 1 {
        return Ok(ps);
      } else if rec[3] == 0 {
        var addr := upper + Big16(rec[1], rec[2]);
        ps := PlaceRecord(ps, rec, addr);
        PlaceConcat([], c.writes, DataWrites(rec, addr));
      }
      c := next.value;
    }
    return Ok(ps);
  }

  const TAG: seq<byte> := [0x08, 0x29, 0xa7, 0xc8]

  /** The style of `Block.encode`: family flag, and a device type in an extension tag (0 means none). */
  function HexStyle(family: nat, device: nat): Style {
    Style((if family != 0 then FLAG_FAMILY else 0) + (if device != 0 then FLAG_TAGS else 0), family,
          if device != 0 then TAG + ToBytes(device, 4) + Zeros(212) else Zeros(220))
  }

  /** The flags of a block, and the device type behind its data, are as asked for. */
  lemma {:induction false} StyleCarries(family: nat, device: nat)
    requires family < WORD_LIMIT && device < WORD_LIMIT
    ensures var y := HexStyle(family, device);
            && StyleOk(y) && y.family == family && !HasFlag(y.flags, FLAG_NO_FLASH)
            && (HasFlag(y.flags, FLAG_FAMILY) <==> family != 0) && (HasFlag(y.flags, FLAG_TAGS) <==> device != 0)
            && y.flags == (if family != 0 then 0x2000 else 0) + (if device != 0 then 0x8000 else 0)
            && (device != 0 ==>
                  y.tail[..4] == [0x08, 0x29, 0xa7, 0xc8] && WordAt(y.tail, 4) == device && y.tail[8..] == Zeros(212))
            && (device == 0 ==> y.tail == Zeros(220))
  {
    if device != 0 {
      var y := HexStyle(family, device);
      assert y.tail[4..8] == ToBytes(device, 4);
      WordRoundTrip(device);
    }
  }

  /** Every word of every header, and the device type, can be packed into 32 bits. */
  predicate Packable(ps: seq<Page>, family: nat, device: nat) {
    ps == [] || (family < WORD_LIMIT && device < WORD_LIMIT && |ps| < WORD_LIMIT
                 && forall i :: 0 <= i < |ps| ==> ps[i].addr < WORD_LIMIT)
  }

  /** One block for each page, or an exception when a word cannot be packed. */
  function EncodedPages(ps: seq<Page>, family: nat, device: nat): Result<seq<byte>>
    requires Sized(ps)
  {
    if ps == [] then Ok([])
    else if !Packable(ps, family, device) then Error
    else
      AllPagesOk(ps);
      Ok(EncodeBlocks(HexStyle(family, device), ps, |ps|))
  }

  /** Pages are refused exactly when the address of one, or a number they share, would be cut short in its field. */
  lemma {:induction false} RefusedExactlyWhenCut(ps: seq<Page>, family: nat, device: nat)
    requires Sized(ps)
    ensures EncodedPages(ps, family, device).Error? <==>
            && ps != []
            && !(Carried(family) && Carried(device) && Carried(|ps|) && forall p :: p in ps ==> Carried(p.addr))
  {
    CarriedExactly(family);
    CarriedExactly(device);
    CarriedExactly(|ps|);
    forall p | p in ps ensures Carried(p.addr) <==> p.addr < WORD_LIMIT { CarriedExactly(p.addr); }
  }

  lemma {:induction false} AllPagesOk(ps: seq<Page>)
    requires Sized(ps) && forall i :: 0 <= i < |ps| ==> ps[i].addr < WORD_LIMIT
    ensures forall p :: p in ps ==> PageOk(p)
  {}

  /** What the whole conversion gives. */
  function HexToUf2(recs: seq<seq<byte>>, family: nat, device: nat): Result<seq<byte>> {
    match ScanRecords(recs, |recs|)
    case Error => Error
    case Ok(c) => EncodedPages(PlaceAll([], c.writes), family, device)
  }

  method WriteBlocks(y: Style, ps: seq<Page>) returns (out: seq<byte>)
    requires StyleOk(y) && forall p :: p in ps ==> PageOk(p)
    ensures out == EncodeBlocks(y, ps, |ps|)
  {
    out := [];
    ghost var blocks := Blocks(y, ps, |ps|);
    for i := 0 to |ps|
      invariant out == Join(blocks[..i])
    {
      JoinStep(blocks, i);
      var block := EncodeBlock(y, ps[i], i, |ps|);
      out := out + block;
    }
    assert blocks[..|ps|] == blocks;
  }

  lemma {:induction false} JoinStep(bs: seq<seq<byte>>, i: nat)
    requires i < |bs|
    ensures Join(bs[..i + 1]) == Join(bs[..i]) + bs[i]
  {
    assert bs[..i + 1][..i] == bs[..i];
  }

  method EncodePages(ps: seq<Page>, family: nat, device: nat) returns (r: Result<seq<byte>>)
    requires Sized(ps)
    ensures r == EncodedPages(ps, family, device) && (r.Ok? <==> Packable(ps, family, device))
  {
    if ps == [] { return Ok([]); }
    if family >= WORD_LIMIT || device >= WORD_LIMIT || |ps| >= WORD_LIMIT { return Error; }
    for i := 0 to |ps|
      invariant forall j :: 0 <= j < i ==> PageOk(ps[j])
    {
      if ps[i].addr >= WORD_LIMIT { return Error; }
    }
    var out := WriteBlocks(HexStyle(family, device), ps);
    return Ok(out);
  }

  /** The whole conversion: collect the pages, then write one block for each. */
  method ConvertFromHexToUf2(recs: seq<seq<byte>>, family: nat, device: nat) returns (r: Result<seq<byte>>)
    ensures r == HexToUf2(recs, family, device)
  {
    var pages := CollectPages(recs);
    if pages.Error? { return Error; }
    r := EncodePages(pages.value, family, device);
  }

  /** An error or the end record decides the whole scan. */
  lemma {:induction false} ScanSettles(recs: seq<seq<byte>>, n: nat, m: nat)
    requires n <= m <= |recs|
    ensures ScanRecords(recs, n).Error? ==> ScanRecords(recs, m).Error?
    ensures ScanRecords(recs, n).Ok? && ScanRecords(recs, n).value.ended ==>
            ScanRecords(recs, m) == ScanRecords(recs, n)
  {
    if n < m { ScanSettles(recs, n, m - 1); }
  }

  lemma {:induction false} PlaceConcat(ps: seq<Page>, a: seq<Write>, b: seq<Write>)
    requires Sized(ps)
    ensures PlaceAll(ps, a + b) == PlaceAll(PlaceAll(ps, a), b)
    decreases |b|
  {
    if b == [] {
      assert a + b == a;
    } else {
      assert (a + b)[..|a + b| - 1] == a + b[..|b| - 1];
      PlaceConcat(ps, a, b[..|b| - 1]);
    }
  }
}
