/**
 * The UF2 container of util/uf2conv.py: 512-byte blocks, written from a flat binary and read back into one.
 */
module Uf2 {
  import opened Bytes

  const MAGIC_START0 := 0x0A324655
  const MAGIC_START1 := 0x9E5D5157
  const MAGIC_END := 0x0AB16F30
  const WORD_LIMIT := 0x1_0000_0000

  const FLAG_NO_FLASH := 1
  const FLAG_FAMILY := 0x2000
  const FLAG_TAGS := 0x8000

  datatype Result<T> = Ok(value: T) | Error

  // ---------- Little-endian words ----------

  function Words(ws: seq<nat>): (bs: seq<byte>)
    ensures |bs| == 4 * |ws|
  {
    if ws == [] then [] else ToBytes(ws[0], 4) + Words(ws[1..])
  }

  function WordAt(bs: seq<byte>, i: nat): nat
    requires i + 4 <= |bs|
  {
    FromBytes(bs[i..i + 4])
  }

  lemma {:induction false} WordRoundTrip(w: nat)
    requires w < WORD_LIMIT
    ensures FromBytes(ToBytes(w, 4)) == w
  {
    assert Pow256(2) == 0x1_0000 && Pow256(4) == 256 * (256 * Pow256(2));
    BytesRoundTrip(w, 4);
  }

  /** Four bytes hold the number. */
  predicate Carried(w: nat) { FromBytes(ToBytes(w, 4)) == w }

  lemma {:induction false} CarriedExactly(w: nat)
    ensures Carried(w) <==> w < WORD_LIMIT
  {
    if w < WORD_LIMIT {
      WordRoundTrip(w);
    } else {
      assert Pow256(2) == 0x1_0000 && Pow256(4) == 256 * (256 * Pow256(2));
      FromBytesBelow(ToBytes(w, 4));
    }
  }

  lemma {:induction false} SliceAfter(a: seq<byte>, b: seq<byte>, i: nat, j: nat)
    requires i <= j <= |b|
    ensures (a + b)[|a| + i..|a| + j] == b[i..j]
  {}

  lemma {:induction false} SliceBefore(a: seq<byte>, b: seq<byte>)
    ensures (a + b)[0..|a|] == a
  {}

  /** The word behind a first word of four bytes `a`. */
  lemma {:induction false} WordAfter(a: seq<byte>, b: seq<byte>, k: nat)
    requires |a| == 4 && 0 < k && 4 * k <= |b|
    ensures WordAt(a + b, 4 * k) == WordAt(b, 4 * (k - 1))
  {
    SliceAfter(a, b, 4 * (k - 1), 4 * k);
  }

  lemma {:induction false} WordsRoundTrip(ws: seq<nat>, k: nat)
    requires k < |ws| && ws[k] < WORD_LIMIT
    ensures WordAt(Words(ws), 4 * k) == ws[k]
  {
    if k == 0 {
      SliceBefore(ToBytes(ws[0], 4), Words(ws[1..]));
      WordRoundTrip(ws[0]);
    } else {
      WordAfter(ToBytes(ws[0], 4), Words(ws[1..]), k);
      WordsRoundTrip(ws[1..], k - 1);
    }
  }

  // ---------- Blocks ----------

  datatype Page = Page(addr: nat, data: seq<byte>)

  predicate PageOk(p: Page) { |p.data| == 256 && p.addr < WORD_LIMIT }

  /** What all blocks of a file share: flags, family and the 220 bytes after the data. */
  datatype Style = Style(flags: nat, family: nat, tail: seq<byte>)

  predicate StyleOk(y: Style) { |y.tail| == 220 && y.flags < WORD_LIMIT && y.family < WORD_LIMIT }

  function Header(y: Style, addr: nat, no: nat, count: nat): (h: seq<byte>)
    ensures |h| == 32
  {
    Words([MAGIC_START0, MAGIC_START1, y.flags, addr, 256, no, count, y.family])
  }

  function EncodeBlock(y: Style, p: Page, no: nat, count: nat): (b: seq<byte>)
    requires PageOk(p) && StyleOk(y)
    ensures |b| == 512
  {
    Header(y, p.addr, no, count) + p.data + y.tail + Words([MAGIC_END])
  }

  function Join(bs: seq<seq<byte>>): seq<byte> {
    if bs == [] then [] else Join(bs[..|bs| - 1]) + bs[|bs| - 1]
  }

  predicate Blocky(bs: seq<seq<byte>>) { forall b :: b in bs ==> |b| == 512 }

  lemma {:induction false} JoinLength(bs: seq<seq<byte>>)
    requires Blocky(bs)
    ensures |Join(bs)| == 512 * |bs|
  {
    if bs != [] { JoinLength(bs[..|bs| - 1]); }
  }

  lemma {:induction false} JoinSlice(bs: seq<seq<byte>>, k: nat)
    requires Blocky(bs) && k < |bs|
    ensures 512 * (k + 1) <= |Join(bs)| && Join(bs)[512 * k..512 * (k + 1)] == bs[k]
    decreases |bs|
  {
    var n := |bs| - 1;
    JoinLength(bs);
    JoinLength(bs[..n]);
    if k < n {
      JoinSlice(bs[..n], k);
      assert Join(bs)[512 * k..512 * (k + 1)] == Join(bs[..n])[512 * k..512 * (k + 1)];
    }
  }

  function Blocks(y: Style, ps: seq<Page>, count: nat): (bs: seq<seq<byte>>)
    requires StyleOk(y) && forall p :: p in ps ==> PageOk(p)
    ensures |bs| == |ps| && Blocky(bs) && forall k :: 0 <= k < |ps| ==> bs[k] == EncodeBlock(y, ps[k], k, count)
  {
    seq(|ps|, k requires 0 <= k < |ps| => EncodeBlock(y, ps[k], k, count))
  }

  function EncodeBlocks(y: Style, ps: seq<Page>, count: nat): (bs: seq<byte>)
    requires StyleOk(y) && forall p :: p in ps ==> PageOk(p)
    ensures |bs| == 512 * |ps|
  {
    JoinLength(Blocks(y, ps, count));
    Join(Blocks(y, ps, count))
  }

  // ---------- Reading ----------

  /** The reader's variables; `address` and `family` are unset before the first block. */
  datatype Reader = Reader(address: Result<nat>, family: Result<nat>, families: set<nat>, out: seq<byte>, start: nat)

  predicate HasFlag(flags: nat, flag: nat)
    requires flag > 0
  {
    flags / flag % 2 == 1
  }

  /** The parts of a block with the right magic numbers that the reader looks at. */
  datatype Parsed = Parsed(flags: nat, addr: nat, payload: seq<byte>, family: nat)

  /**
   * One parsed block. A block before its predecessor's end, and padding that is too long or not a whole
   * number of words, end in an exception.
   */
  function Accept(wanted: nat, d: Reader, b: Parsed, last: bool): Result<Reader> {
    var tagged := HasFlag(b.flags, FLAG_FAMILY);
    var fam0 := if tagged && d.family.Error? then Ok(b.family) else d.family;
    var first := d.address.Error? || (tagged && Ok(b.family) != fam0);
    var fam := if first then Ok(b.family) else fam0;
    var addr := if first then b.addr else d.address.value;
    var start := if first && (wanted == 0 || wanted == b.family) then b.addr else d.start;
    if b.addr < addr || b.addr - addr > 10 * 1024 * 1024 || (b.addr - addr) % 4 != 0 then Error
    else
      var out := d.out + Zeros(b.addr - addr) + if wanted == 0 || (tagged && wanted == b.family) then b.payload else [];
      var families := if tagged then d.families + {b.family} else d.families;
      if last && |families| > 1 && wanted == 0 then Ok(Reader(Ok(b.addr + |b.payload|), fam, families, [], 0))
      else Ok(Reader(Ok(b.addr + |b.payload|), fam, families, out, start))
  }

  /** One block. A wrong magic number and an oversized block end in an exception as well. */
  function ReadBlock(wanted: nat, d: Reader, b: seq<byte>, last: bool): Result<Reader>
    requires |b| == 512
  {
    var flags, len := WordAt(b, 8), WordAt(b, 16);
    if WordAt(b, 0) != MAGIC_START0 || WordAt(b, 4) != MAGIC_START1 then Error
    else if HasFlag(flags, FLAG_NO_FLASH) then Ok(d)
    else if len > 476 then Error
    else Accept(wanted, d, Parsed(flags, WordAt(b, 12), b[32..32 + len], WordAt(b, 28)), last)
  }

  function ReadBlocks(wanted: nat, start: nat, bs: seq<byte>, n: nat): Result<Reader>
    requires n <= |bs| / 512
  {
    if n == 0 then Ok(Reader(Error, Error, {}, [], start)) else
    match ReadBlocks(wanted, start, bs, n - 1)
    case Error => Error
    case Ok(d) => ReadBlock(wanted, d, bs[512 * (n - 1)..512 * n], n == |bs| / 512)
  }

  lemma {:induction false} ReadStopsAtError(wanted: nat, start: nat, bs: seq<byte>, n: nat, m: nat)
    requires n <= m <= |bs| / 512 && ReadBlocks(wanted, start, bs, n).Error?
    ensures ReadBlocks(wanted, start, bs, m).Error?
  {
    if n < m { ReadStopsAtError(wanted, start, bs, n, m - 1); }
  }

  // ---------- A block read back ----------

  lemma {:induction false} BlockFields(y: Style, p: Page, no: nat, count: nat)
    requires PageOk(p) && StyleOk(y)
    ensures var b := EncodeBlock(y, p, no, count);
            && WordAt(b, 0) == MAGIC_START0 && WordAt(b, 4) == MAGIC_START1 && WordAt(b, 8) == y.flags
            && WordAt(b, 12) == p.addr && WordAt(b, 16) == 256 && WordAt(b, 28) == y.family
            && (no < WORD_LIMIT ==> WordAt(b, 20) == no) && (count < WORD_LIMIT ==> WordAt(b, 24) == count)
            && b[32..288] == p.data && b[288..508] == y.tail && WordAt(b, 508) == MAGIC_END
  {
    HeaderFields(y, p.addr, no, count);
    Layout(Header(y, p.addr, no, count), p.data, y.tail, Words([MAGIC_END]));
    WordsRoundTrip([MAGIC_END], 0);
  }

  lemma {:induction false} Layout(h: seq<byte>, data: seq<byte>, tail: seq<byte>, end: seq<byte>)
    requires |h| == 32 && |data| == 256 && |tail| == 220 && |end| == 4
    ensures var b := h + data + tail + end;
            && b[32..288] == data && b[288..508] == tail && WordAt(b, 508) == WordAt(end, 0)
            && forall i :: 0 <= i <= 28 ==> WordAt(b, i) == WordAt(h, i)
  {
    var b := h + data + tail + end;
    assert b[508..512] == end == end[0..4];
    forall i | 0 <= i <= 28 ensures WordAt(b, i) == WordAt(h, i) { Prefix(b, h, i); }
  }

  lemma {:induction false} Prefix(b: seq<byte>, h: seq<byte>, i: nat)
    requires h <= b && i + 4 <= |h|
    ensures WordAt(b, i) == WordAt(h, i)
  {
    assert b[i..i + 4] == h[i..i + 4];
  }

  lemma {:induction false} HeaderFields(y: Style, addr: nat, no: nat, count: nat)
    requires y.flags < WORD_LIMIT && y.family < WORD_LIMIT && addr < WORD_LIMIT
    ensures var h := Header(y, addr, no, count);
            && WordAt(h, 0) == MAGIC_START0 && WordAt(h, 4) == MAGIC_START1 && WordAt(h, 8) == y.flags
            && WordAt(h, 12) == addr && WordAt(h, 16) == 256 && WordAt(h, 28) == y.family
            && (no < WORD_LIMIT ==> WordAt(h, 20) == no) && (count < WORD_LIMIT ==> WordAt(h, 24) == count)
  {
    var ws := [MAGIC_START0, MAGIC_START1, y.flags, addr, 256, no, count, y.family];
    WordsRoundTrip(ws, 0);
    WordsRoundTrip(ws, 1);
    WordsRoundTrip(ws, 2);
    WordsRoundTrip(ws, 3);
    WordsRoundTrip(ws, 4);
    if no < WORD_LIMIT { WordsRoundTrip(ws, 5); }
    if count < WORD_LIMIT { WordsRoundTrip(ws, 6); }
    WordsRoundTrip(ws, 7);
  }

  // ---------- A file read back ----------

  ghost predicate FollowsOn(p: Page, q: Page) {
    p.addr + 256 <= q.addr <= p.addr + 256 + 10 * 1024 * 1024 && (q.addr - p.addr) % 4 == 0
  }

  /** Pages in ascending order with gaps a reader accepts. */
  ghost predicate InOrder(ps: seq<Page>) {
    forall i :: 0 < i < |ps| ==> FollowsOn(ps[i - 1], ps[i])
  }

  /** The memory from the first page on, with zeros in the gaps. */
  function Image(ps: seq<Page>): seq<byte>
    requires forall i :: 0 < i < |ps| ==> ps[i - 1].addr + 256 <= ps[i].addr
  {
    if ps == [] then []
    else if |ps| == 1 then ps[0].data
    else
      var n := |ps| - 1;
      Image(ps[..n]) + Zeros(ps[n].addr - ps[n - 1].addr - 256) + ps[n].data
  }

  /** Blocks are to be flashed and carry the family exactly when there is one. */
  ghost predicate Flashable(y: Style) {
    StyleOk(y) && !HasFlag(y.flags, FLAG_NO_FLASH) && (HasFlag(y.flags, FLAG_FAMILY) <==> y.family != 0)
  }

  ghost predicate Accepts(wanted: nat, y: Style) {
    wanted == 0 || wanted == y.family
  }

  /** The reader after the pages read so far. */
  ghost predicate HasRead(y: Style, ps: seq<Page>, start: nat, d: Reader)
    requires InOrder(ps)
  {
    && d.out == Image(ps)
    && d.families <= Families(y)
    && if ps == [] then d.address == Error && d.family == Error && d.start == start
       else d.address == Ok(ps[|ps| - 1].addr + 256) && d.family == Ok(y.family) && d.start == ps[0].addr
  }

  lemma {:induction false} BlockAccepted(wanted: nat, y: Style, p: Page, no: nat, count: nat, d: Reader, last: bool)
    requires PageOk(p) && Flashable(y)
    ensures ReadBlock(wanted, d, EncodeBlock(y, p, no, count), last) ==
            Accept(wanted, d, Parsed(y.flags, p.addr, p.data, y.family), last)
  {
    BlockFields(y, p, no, count);
  }

  lemma {:induction false} AcceptOne(wanted: nat, y: Style, ps: seq<Page>, start: nat, d: Reader, last: bool)
    requires ps != [] && InOrder(ps) && Flashable(y) && Accepts(wanted, y) && PageOk(ps[|ps| - 1])
    requires HasRead(y, ps[..|ps| - 1], start, d)
    ensures var p := ps[|ps| - 1];
            var r := Accept(wanted, d, Parsed(y.flags, p.addr, p.data, y.family), last);
            r.Ok? && HasRead(y, ps, start, r.value)
  {
    var n := |ps| - 1;
    if n == 0 {
      AcceptFirst(wanted, y, ps[0], d, last);
    } else {
      assert FollowsOn(ps[n - 1], ps[n]);
      AcceptAfter(wanted, y, ps[n], d, ps[n - 1].addr + 256, last);
      ImageGrows(ps);
    }
  }

  lemma {:induction false} ImageGrows(ps: seq<Page>)
    requires InOrder(ps) && |ps| > 1
    ensures var n := |ps| - 1;
            && InOrder(ps[..n])
            && Image(ps) == Image(ps[..n]) + Zeros(ps[n].addr - (ps[n - 1].addr + 256)) + ps[n].data
  {
    assert ps[|ps| - 1].addr - ps[|ps| - 2].addr - 256 == ps[|ps| - 1].addr - (ps[|ps| - 2].addr + 256);
  }

  /** The families a file of this style can show. */
  ghost function Families(y: Style): set<nat> {
    if y.family != 0 then {y.family} else {}
  }

  lemma {:induction false} OneFamily(s: set<nat>, y: Style)
    requires s <= Families(y)
    ensures |s| <= 1
  {
    if s != {} { assert s == {y.family}; }
  }

  lemma {:induction false} AcceptFirst(wanted: nat, y: Style, p: Page, d: Reader, last: bool)
    requires Flashable(y) && Accepts(wanted, y) && |p.data| == 256
    requires d.address == Error && d.family == Error && d.families <= Families(y) && d.out == []
    ensures var r := Accept(wanted, d, Parsed(y.flags, p.addr, p.data, y.family), last);
            r == Ok(Reader(Ok(p.addr + 256), Ok(y.family), d.families + Families(y), p.data, p.addr))
  {
    OneFamily(d.families + Families(y), y);
    assert [] + Zeros(0) + p.data == p.data;
  }

  lemma {:induction false} AcceptAfter(wanted: nat, y: Style, p: Page, d: Reader, end: nat, last: bool)
    requires Flashable(y) && Accepts(wanted, y) && |p.data| == 256
    requires d.address == Ok(end) && d.family == Ok(y.family) && d.families <= Families(y)
    requires end <= p.addr <= end + 10 * 1024 * 1024 && (p.addr - end) % 4 == 0
    ensures var r := Accept(wanted, d, Parsed(y.flags, p.addr, p.data, y.family), last);
            r == Ok(Reader(Ok(p.addr + 256), Ok(y.family), d.families + Families(y),
                           d.out + Zeros(p.addr - end) + p.data, d.start))
  {
    OneFamily(d.families + Families(y), y);
  }

  /** Block `k` of the file is page `k`. */
  ghost predicate BlockIs(bs: seq<byte>, y: Style, ps: seq<Page>, count: nat, k: nat)
    requires |bs| == 512 * |ps| && k < |ps| && StyleOk(y) && PageOk(ps[k])
  {
    bs[512 * k..512 * (k + 1)] == EncodeBlock(y, ps[k], k, count)
  }

  lemma {:induction false} ReadStep(wanted: nat, start: nat, bs: seq<byte>, n: nat, d: Reader, b: seq<byte>)
    requires n < |bs| / 512 && ReadBlocks(wanted, start, bs, n) == Ok(d) && b == bs[512 * n..512 * (n + 1)]
    ensures |b| == 512 && ReadBlocks(wanted, start, bs, n + 1) == ReadBlock(wanted, d, b, n + 1 == |bs| / 512)
  {}

  lemma {:induction false} ReadNext(wanted: nat, y: Style, ps: seq<Page>, start: nat, count: nat, bs: seq<byte>, n: nat)
    requires n < |ps| && InOrder(ps) && Flashable(y) && Accepts(wanted, y) && (forall p :: p in ps ==> PageOk(p))
    requires |bs| == 512 * |ps| && BlockIs(bs, y, ps, count, n)
    requires var r := ReadBlocks(wanted, start, bs, n); r.Ok? && HasRead(y, ps[..n], start, r.value)
    ensures var r := ReadBlocks(wanted, start, bs, n + 1); r.Ok? && HasRead(y, ps[..n + 1], start, r.value)
  {
    var d, last := ReadBlocks(wanted, start, bs, n).value, n + 1 == |bs| / 512;
    var b := EncodeBlock(y, ps[n], n, count);
    ReadStep(wanted, start, bs, n, d, b);
    BlockAccepted(wanted, y, ps[n], n, count, d, last);
    assert ps[..n + 1][..n] == ps[..n];
    AcceptOne(wanted, y, ps[..n + 1], start, d, last);
  }

  lemma {:induction false} ReadPrefix(wanted: nat, y: Style, ps: seq<Page>, start: nat, count: nat, bs: seq<byte>,
                                      n: nat)
    requires n <= |ps| && InOrder(ps) && Flashable(y) && Accepts(wanted, y) && (forall p :: p in ps ==> PageOk(p))
    requires |bs| == 512 * |ps| && forall k :: 0 <= k < |ps| ==> BlockIs(bs, y, ps, count, k)
    ensures var r := ReadBlocks(wanted, start, bs, n); r.Ok? && HasRead(y, ps[..n], start, r.value)
  {
    if n > 0 {
      ReadPrefix(wanted, y, ps, start, count, bs, n - 1);
      ReadNext(wanted, y, ps, start, count, bs, n - 1);
    }
  }

  lemma {:induction false} BlocksArePages(y: Style, ps: seq<Page>, count: nat)
    requires StyleOk(y) && forall p :: p in ps ==> PageOk(p)
    ensures |EncodeBlocks(y, ps, count)| == 512 * |ps|
    ensures forall k :: 0 <= k < |ps| ==> BlockIs(EncodeBlocks(y, ps, count), y, ps, count, k)
  {
    forall k | 0 <= k < |ps| ensures BlockIs(EncodeBlocks(y, ps, count), y, ps, count, k) {
      JoinSlice(Blocks(y, ps, count), k);
    }
  }

  /** Every block of a file carries its own number, the number of blocks, its page and the end magic. */
  lemma {:induction false} BlocksNumbered(y: Style, ps: seq<Page>, k: nat)
    requires StyleOk(y) && (forall p :: p in ps ==> PageOk(p)) && k < |ps| < WORD_LIMIT
    ensures var file := EncodeBlocks(y, ps, |ps|);
            var b := file[512 * k..512 * (k + 1)];
            && |file| == 512 * |ps| && WordAt(b, 20) == k && WordAt(b, 24) == |ps|
            && WordAt(b, 12) == ps[k].addr && b[32..288] == ps[k].data && b[288..508] == y.tail
            && WordAt(b, 508) == MAGIC_END
  {
    BlocksArePages(y, ps, |ps|);
    assert BlockIs(EncodeBlocks(y, ps, |ps|), y, ps, |ps|, k);
    BlockFields(y, ps[k], k, |ps|);
  }

  lemma {:induction false} ReadWhole(wanted: nat, y: Style, ps: seq<Page>, start: nat, count: nat, bs: seq<byte>)
    requires InOrder(ps) && Flashable(y) && Accepts(wanted, y) && (forall p :: p in ps ==> PageOk(p))
    requires |bs| == 512 * |ps| && forall k :: 0 <= k < |ps| ==> BlockIs(bs, y, ps, count, k)
    ensures var r := ReadBlocks(wanted, start, bs, |bs| / 512); r.Ok? && HasRead(y, ps, start, r.value)
  {
    ReadPrefix(wanted, y, ps, start, count, bs, |ps|);
    assert ps[..|ps|] == ps;
  }

  /** Reading back any file of ordered pages gives the memory image those pages describe. */
  lemma {:induction false} ReadsImage(wanted: nat, y: Style, ps: seq<Page>, start: nat, count: nat)
    requires InOrder(ps) && Flashable(y) && Accepts(wanted, y) && forall p :: p in ps ==> PageOk(p)
    ensures var bs := EncodeBlocks(y, ps, count);
            var r := ReadBlocks(wanted, start, bs, |bs| / 512);
            r.Ok? && r.value.out == Image(ps) && (ps != [] ==> r.value.start == ps[0].addr)
  {
    BlocksArePages(y, ps, count);
    ReadWhole(wanted, y, ps, start, count, EncodeBlocks(y, ps, count));
  }
}
