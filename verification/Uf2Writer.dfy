/** `convert_to_uf2` of util/uf2conv.py and its round trip through the reader. */
module Uf2Writer {
  import opened Bytes
  import opened Uf2

  function BlockCount(len: nat): nat { (len + 255) / 256 }

  /** Block `i` of a binary: 256 bytes, the last one filled up with zeros. */
  function Chunk(content: seq<byte>, i: nat): (c: seq<byte>)
    requires i < BlockCount(|content|)
    ensures |c| == 256
  {
    var end := if 256 * (i + 1) <= |content| then 256 * (i + 1) else |content|;
    content[256 * i..end] + Zeros(256 * (i + 1) - end)
  }

  function Pages(content: seq<byte>, base: nat, n: nat): (ps: seq<Page>)
    requires n <= BlockCount(|content|)
    ensures |ps| == n && forall i :: 0 <= i < n ==> ps[i] == Page(base + 256 * i, Chunk(content, i))
  {
    seq(n, i requires 0 <= i < n => Page(base + 256 * i, Chunk(content, i)))
  }

  function PlainStyle(family: nat): Style {
    Style(if family != 0 then FLAG_FAMILY else 0, family, Zeros(220))
  }

  /** Every word of every header can be packed into 32 bits. */
  predicate Packable(content: seq<byte>, base: nat, family: nat) {
    content == [] || Fits(base, family, BlockCount(|content|) - 1)
  }

  /** A binary is refused exactly when the family or the address of one of its blocks would be cut short. */
  lemma {:induction false} RefusedExactlyWhenCut(content: seq<byte>, base: nat, family: nat)
    ensures Packable(content, base, family) <==>
            var ps := Pages(content, base, BlockCount(|content|));
            content == [] || (Carried(family) && forall p :: p in ps ==> Carried(p.addr))
  {
    var ps := Pages(content, base, BlockCount(|content|));
    CarriedExactly(family);
    forall p | p in ps ensures Carried(p.addr) <==> p.addr < WORD_LIMIT { CarriedExactly(p.addr); }
    if content != [] { assert ps[|ps| - 1] in ps; }
  }

  /** The first `n` blocks. */
  function Written(content: seq<byte>, base: nat, family: nat, n: nat): seq<byte>
    requires n <= BlockCount(|content|)
    requires n > 0 ==> Fits(base, family, n - 1)
  {
    if n == 0 then [] else Written(content, base, family, n - 1) + Block(content, base, family, n - 1)
  }

  function Block(content: seq<byte>, base: nat, family: nat, i: nat): (b: seq<byte>)
    requires i < BlockCount(|content|) && Fits(base, family, i)
    ensures |b| == 512
  {
    EncodeBlock(PlainStyle(family), Page(base + 256 * i, Chunk(content, i)), i, BlockCount(|content|))
  }

  lemma {:induction false} FourBytes(w: nat)
    ensures ToBytes(w, 4) == [w % 256, w / 256 % 256, w / 256 / 256 % 256, w / 256 / 256 / 256 % 256]
  {
    assert ToBytes(w / 256 / 256, 2) == [w / 256 / 256 % 256, w / 256 / 256 / 256 % 256];
  }

  /** The magic numbers as the bytes that stand in the file. */
  lemma {:induction false} MagicBytes()
    ensures ToBytes(MAGIC_START0, 4) == [0x55, 0x46, 0x32, 0x0a]
    ensures ToBytes(MAGIC_START1, 4) == [0x57, 0x51, 0x5d, 0x9e]
    ensures ToBytes(MAGIC_END, 4) == [0x30, 0x6f, 0xb1, 0x0a]
  {
    FourBytes(MAGIC_START0);
    FourBytes(MAGIC_START1);
    FourBytes(MAGIC_END);
  }

  /**
   * Every byte of a written block: the magic bytes, bit 13 of the flags for a family, the target address, the
   * block number and the block count, the family, the data, zeros, and the magic bytes at the end.
   */
  lemma {:induction false} BlockOnTheWire(content: seq<byte>, base: nat, family: nat, i: nat)
    requires i < BlockCount(|content|) < WORD_LIMIT && Fits(base, family, i)
    ensures var b := Block(content, base, family, i);
            && b[0..4] == [0x55, 0x46, 0x32, 0x0a] && b[4..8] == [0x57, 0x51, 0x5d, 0x9e]
            && WordAt(b, 8) == (if family != 0 then 0x2000 else 0) && WordAt(b, 12) == base + 256 * i
            && WordAt(b, 16) == 256 && WordAt(b, 20) == i && WordAt(b, 24) == BlockCount(|content|)
            && WordAt(b, 28) == family && b[32..288] == Chunk(content, i) && b[288..508] == Zeros(220)
            && b[508..512] == [0x30, 0x6f, 0xb1, 0x0a]
  {
    var p, y, count := Page(base + 256 * i, Chunk(content, i)), PlainStyle(family), BlockCount(|content|);
    BlockFields(y, p, i, count);
    MagicBytes();
    EndsOfBlock(y, p, i, count);
  }

  lemma {:induction false} EndsOfBlock(y: Style, p: Page, no: nat, count: nat)
    requires PageOk(p) && StyleOk(y)
    ensures var b := EncodeBlock(y, p, no, count);
            && b[0..4] == ToBytes(MAGIC_START0, 4) && b[4..8] == ToBytes(MAGIC_START1, 4)
            && b[508..512] == ToBytes(MAGIC_END, 4)
  {
    SlicedEnds(Header(y, p.addr, no, count), p.data, y.tail, Words([MAGIC_END]));
    HeaderStarts(y, p.addr, no, count);
    assert Words([MAGIC_END]) == ToBytes(MAGIC_END, 4) + [];
  }

  lemma {:induction false} SlicedEnds(h: seq<byte>, data: seq<byte>, tail: seq<byte>, last: seq<byte>)
    requires |h| == 32 && |data| == 256 && |tail| == 220 && |last| == 4
    ensures var b := h + data + tail + last;
            b[0..4] == h[0..4] && b[4..8] == h[4..8] && b[508..512] == last
  {}

  lemma {:induction false} HeaderStarts(y: Style, addr: nat, no: nat, count: nat)
    ensures var h := Header(y, addr, no, count);
            h[0..4] == ToBytes(MAGIC_START0, 4) && h[4..8] == ToBytes(MAGIC_START1, 4)
  {
    var rest := [y.flags, addr, 256, no, count, y.family];
    FirstWords(MAGIC_START0, MAGIC_START1, rest);
    assert [MAGIC_START0, MAGIC_START1] + rest ==
           [MAGIC_START0, MAGIC_START1, y.flags, addr, 256, no, count, y.family];
  }

  lemma {:induction false} FirstWords(a: nat, b: nat, rest: seq<nat>)
    ensures Words([a, b] + rest)[0..4] == ToBytes(a, 4) && Words([a, b] + rest)[4..8] == ToBytes(b, 4)
  {
    assert ([a, b] + rest)[1..] == [b] + rest && ([b] + rest)[1..] == rest;
    assert Words([a, b] + rest) == ToBytes(a, 4) + (ToBytes(b, 4) + Words(rest));
  }

  method PadChunk(content: seq<byte>, no: nat) returns (chunk: seq<byte>)
    requires no < BlockCount(|content|)
    ensures chunk == Chunk(content, no)
  {
    var ptr := 256 * no;
    chunk := content[ptr..if ptr + 256 <= |content| then ptr + 256 else |content|];
    while |chunk| < 256
      invariant |chunk| <= 256
      invariant chunk + Zeros(256 - |chunk|) == Chunk(content, no)
    {
      assert chunk + [0] + Zeros(256 - |chunk| - 1) == chunk + Zeros(256 - |chunk|);
      chunk := chunk + [0];
    }
  }

  predicate Fits(base: nat, family: nat, no: nat) {
    family < WORD_LIMIT && base + 256 * no < WORD_LIMIT
  }

  method WriteBlock(content: seq<byte>, base: nat, family: nat, no: nat) returns (r: Result<seq<byte>>)
    requires no < BlockCount(|content|)
    ensures r.Ok? <==> Fits(base, family, no)
    ensures r.Ok? ==> r.value == Block(content, base, family, no)
  {
    if family >= WORD_LIMIT || base + 256 * no >= WORD_LIMIT { return Error; }
    var chunk := PadChunk(content, no);
    var block := EncodeBlock(PlainStyle(family), Page(base + 256 * no, chunk), no, BlockCount(|content|));
    return Ok(block);
  }

  method ConvertToUf2(content: seq<byte>, base: nat, family: nat) returns (r: Result<seq<byte>>)
    ensures r.Ok? <==> Packable(content, base, family)
    ensures r.Ok? ==> r.value == Written(content, base, family, BlockCount(|content|))
  {
    var count := BlockCount(|content|);
    var out := [];
    for no := 0 to count
      invariant no > 0 ==> Fits(base, family, no - 1)
      invariant out == Written(content, base, family, no)
    {
      var block := WriteBlock(content, base, family, no);
      if block.Error? { return Error; }
      out := out + block.value;
    }
    return Ok(out);
  }

  lemma {:induction false} PagesOk(content: seq<byte>, base: nat, n: nat)
    requires 0 < n <= BlockCount(|content|) && base + 256 * (n - 1) < WORD_LIMIT
    ensures forall p :: p in Pages(content, base, n) ==> PageOk(p)
  {}

  lemma {:induction false} EncodeGrows(y: Style, ps: seq<Page>, count: nat)
    requires StyleOk(y) && ps != [] && forall p :: p in ps ==> PageOk(p)
    ensures var n := |ps| - 1;
            EncodeBlocks(y, ps, count) == EncodeBlocks(y, ps[..n], count) + EncodeBlock(y, ps[n], n, count)
  {
    assert Blocks(y, ps, count)[..|ps| - 1] == Blocks(y, ps[..|ps| - 1], count);
  }

  lemma {:induction false} PagesBefore(content: seq<byte>, base: nat, n: nat)
    requires 0 < n <= BlockCount(|content|)
    ensures Pages(content, base, n)[..n - 1] == Pages(content, base, n - 1)
  {}

  lemma {:induction false} NextBlock(content: seq<byte>, base: nat, family: nat, n: nat)
    requires 0 < n <= BlockCount(|content|) && Fits(base, family, n - 1)
    requires forall p :: p in Pages(content, base, n) ==> PageOk(p)
    requires forall p :: p in Pages(content, base, n - 1) ==> PageOk(p)
    ensures var y, count := PlainStyle(family), BlockCount(|content|);
            EncodeBlocks(y, Pages(content, base, n), count)
            == EncodeBlocks(y, Pages(content, base, n - 1), count) + Block(content, base, family, n - 1)
  {
    PagesBefore(content, base, n);
    EncodeGrows(PlainStyle(family), Pages(content, base, n), BlockCount(|content|));
  }

  lemma {:induction false} WrittenIsEncoded(content: seq<byte>, base: nat, family: nat, n: nat)
    requires n <= BlockCount(|content|) && family < WORD_LIMIT && (n > 0 ==> base + 256 * (n - 1) < WORD_LIMIT)
    ensures forall p :: p in Pages(content, base, n) ==> PageOk(p)
    ensures Written(content, base, family, n) ==
            EncodeBlocks(PlainStyle(family), Pages(content, base, n), BlockCount(|content|))
  {
    if n > 0 {
      WrittenIsEncoded(content, base, family, n - 1);
      PagesOk(content, base, n);
      NextBlock(content, base, family, n);
    }
  }

  /** The binary up to block `n`, filled up with zeros at its end. */
  function Padded(content: seq<byte>, n: nat): seq<byte> {
    if 256 * n <= |content| then content[..256 * n] else content + Zeros(256 * n - |content|)
  }

  lemma {:induction false} PaddedGrows(content: seq<byte>, n: nat)
    requires n < BlockCount(|content|)
    ensures Padded(content, n + 1) == Padded(content, n) + Chunk(content, n)
  {}

  lemma {:induction false} NextPage(content: seq<byte>, base: nat, n: nat)
    requires 0 < n < BlockCount(|content|) && InOrder(Pages(content, base, n))
    ensures InOrder(Pages(content, base, n + 1))
    ensures Image(Pages(content, base, n + 1)) == Image(Pages(content, base, n)) + Chunk(content, n)
  {
    var ps := Pages(content, base, n + 1);
    assert ps[..n] == Pages(content, base, n);
    assert Zeros(0) == [];
  }

  lemma {:induction false} FirstPage(content: seq<byte>, base: nat)
    requires 0 < BlockCount(|content|)
    ensures InOrder(Pages(content, base, 1)) && Image(Pages(content, base, 1)) == Chunk(content, 0)
  {}

  lemma {:induction false} FirstPadded(content: seq<byte>)
    requires 0 < BlockCount(|content|)
    ensures Padded(content, 1) == Chunk(content, 0)
  {}

  lemma {:induction false} ImageOfPages(content: seq<byte>, base: nat, n: nat)
    requires 0 < n <= BlockCount(|content|)
    ensures InOrder(Pages(content, base, n)) && Image(Pages(content, base, n)) == Padded(content, n)
  {
    if n == 1 {
      FirstPage(content, base);
      FirstPadded(content);
    } else {
      ImageOfPages(content, base, n - 1);
      PaddedGrows(content, n - 1);
      NextPage(content, base, n - 1);
    }
  }

  lemma {:induction false} PlainStyleFlashable(family: nat)
    requires family < WORD_LIMIT
    ensures Flashable(PlainStyle(family))
  {}

  lemma {:induction false} PaddedWhole(content: seq<byte>)
    ensures Padded(content, BlockCount(|content|)) == content + Zeros(256 * BlockCount(|content|) - |content|)
  {}

  lemma {:induction false} EncodedReadsPadded(content: seq<byte>, base: nat, family: nat, start: nat, n: nat)
    requires 0 < n <= BlockCount(|content|) && Fits(base, family, n - 1)
    requires forall p :: p in Pages(content, base, n) ==> PageOk(p)
    ensures var bs := EncodeBlocks(PlainStyle(family), Pages(content, base, n), BlockCount(|content|));
            var r := ReadBlocks(family, start, bs, |bs| / 512);
            r.Ok? && r.value.start == base && r.value.out == Padded(content, n)
  {
    var ps := Pages(content, base, n);
    ImageOfPages(content, base, n);
    PlainStyleFlashable(family);
    ReadsImage(family, PlainStyle(family), ps, start, BlockCount(|content|));
    assert ps[0].addr == base;
  }

  /**
   * For every binary, base address and family that fit in 32 bits: reading back what was written gives
   * the binary filled up with zeros to a multiple of 256, at its base address.
   */
  lemma {:induction false} Uf2RoundTrip(content: seq<byte>, base: nat, family: nat, start: nat)
    requires Packable(content, base, family)
    ensures var bs := Written(content, base, family, BlockCount(|content|));
            var r := ReadBlocks(family, start, bs, |bs| / 512);
            && |bs| == 512 * BlockCount(|content|)
            && r.Ok? && (content != [] ==> r.value.start == base)
            && r.value.out == content + Zeros(256 * BlockCount(|content|) - |content|)
  {
    var n := BlockCount(|content|);
    if n > 0 {
      WrittenIsEncoded(content, base, family, n);
      EncodedReadsPadded(content, base, family, start, n);
      PaddedWhole(content);
    }
  }
}
