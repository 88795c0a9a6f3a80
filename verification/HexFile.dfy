/** A whole Intel HEX file through UF2 and back: every byte of the rebuilt binary. */
module HexFile {
  import opened Bytes
  import opened Uf2
  import opened Hex
  import opened HexImage
  import opened HexFormat
  import Uf2Reader

  // ---------- The image a file describes ----------

  /** Some data byte lies in the page. */
  ghost predicate Touched(ws: seq<Write>, page: nat) {
    exists i :: 0 <= i < |ws| && PageOf(ws[i].addr) == page
  }

  /** The byte at an address: as written, filler in a page that is used, zero in a gap. */
  ghost function ImageAt(ws: seq<Write>, a: nat): byte {
    ByteOr(Memory(ws), a, Touched(ws, PageOf(a)))
  }

  ghost function ByteOr(mem: map<nat, byte>, a: nat, used: bool): byte {
    if a in mem then mem[a] else if used then 0xFF else 0
  }

  /** To the same page, or forward over a gap of at most 10 MiB. */
  predicate PageStep(page: nat, next: nat) {
    page <= next <= page + 256 + 10 * 1024 * 1024
  }

  ghost predicate Steps(ws: seq<Write>) {
    forall i :: 0 < i < |ws| ==> PageStep(PageOf(ws[i - 1].addr), PageOf(ws[i].addr))
  }

  ghost predicate Short(ws: seq<Write>) {
    forall i :: 0 <= i < |ws| ==> ws[i].addr < WORD_LIMIT
  }

  // ---------- The pages of the file ----------

  lemma {:induction false} OnePageMore(ws: seq<Write>, w: Write, page: nat)
    ensures Touched(ws + [w], page) <==> Touched(ws, page) || PageOf(w.addr) == page
  {
    var ws' := ws + [w];
    assert ws'[|ws|] == w;
    if Touched(ws, page) {
      var i :| 0 <= i < |ws| && PageOf(ws[i].addr) == page;
      assert ws'[i] == ws[i];
    }
  }

  lemma {:induction false} PlaceHasPage(ps: seq<Page>, w: Write, page: nat)
    requires Sized(ps) && Aligned(ps)
    ensures HasPage(Place(ps, w), page) <==> HasPage(ps, page) || PageOf(w.addr) == page
  {
    var ps' := Place(ps, w);
    if HasPage(ps, page) {
      var i :| 0 <= i < |ps| && ps[i].addr == page;
      assert ps'[i].addr == page;
    }
    if ps != [] { assert PageOf(ps[|ps| - 1].addr) == ps[|ps| - 1].addr; }
    assert ps'[|ps'| - 1].addr == PageOf(w.addr);
    if HasPage(ps', page) {
      var i :| 0 <= i < |ps'| && ps'[i].addr == page;
      assert i < |ps| ==> ps[i].addr == page;
    }
  }

  lemma {:induction false} PagesAreTouched(ws: seq<Write>, page: nat)
    ensures HasPage(PlaceAll([], ws), page) <==> Touched(ws, page)
    decreases |ws|
  {
    if ws != [] {
      var n := |ws| - 1;
      assert ws == ws[..n] + [ws[n]];
      PagesAreTouched(ws[..n], page);
      LastPage(ws[..n]);
      PlaceHasPage(PlaceAll([], ws[..n]), ws[n], page);
      OnePageMore(ws[..n], ws[n], page);
    }
  }

  lemma {:induction false} PlaceReadable(ps: seq<Page>, w: Write)
    requires Sized(ps) && Aligned(ps) && Readable(ps) && w.addr < WORD_LIMIT
    requires ps == [] || PageOf(w.addr) <= ps[|ps| - 1].addr + 256 + 10 * 1024 * 1024
    ensures Readable(Place(ps, w))
  {}

  lemma {:induction false} StepsReadable(ws: seq<Write>)
    requires Steps(ws) && Short(ws)
    ensures Readable(PlaceAll([], ws))
    decreases |ws|
  {
    if ws != [] {
      var n := |ws| - 1;
      StepsReadable(ws[..n]);
      LastPage(ws[..n]);
      PlaceReadable(PlaceAll([], ws[..n]), ws[n]);
    }
  }

  lemma {:induction false} OneMoreStep(ws: seq<Write>, w: Write)
    requires Steps(ws) && (ws == [] || PageStep(PageOf(ws[|ws| - 1].addr), PageOf(w.addr)))
    ensures Steps(ws + [w])
  {}

  lemma {:induction false} PlacedInOrder(ps: seq<Page>, w: Write)
    requires Sized(ps) && Aligned(ps) && InOrder(Place(ps, w))
    ensures InOrder(ps) && (ps == [] || PageStep(ps[|ps| - 1].addr, PageOf(w.addr)))
  {
    var ps', n := Place(ps, w), |ps|;
    forall i | 0 < i < n ensures FollowsOn(ps[i - 1], ps[i]) { assert FollowsOn(ps'[i - 1], ps'[i]); }
    if |ps'| > n > 0 { assert FollowsOn(ps'[n - 1], ps'[n]); }
  }

  /** Pages in order come from writes that go forward. */
  lemma {:induction false} InOrderSteps(ws: seq<Write>)
    requires InOrder(PlaceAll([], ws))
    ensures Steps(ws)
    decreases |ws|
  {
    if ws != [] {
      var n := |ws| - 1;
      LastPage(ws[..n]);
      PlacedInOrder(PlaceAll([], ws[..n]), ws[n]);
      InOrderSteps(ws[..n]);
      OneMoreStep(ws[..n], ws[n]);
      assert ws == ws[..n] + [ws[n]];
    }
  }

  /** Aligned pages in ascending order below 4G: not too many to be counted. */
  lemma {:induction false} PageNumber(ps: seq<Page>, k: nat)
    requires Ascending(ps) && Aligned(ps) && k < |ps|
    ensures ps[k].addr >= 256 * k
  {
    if k > 0 {
      PageNumber(ps, k - 1);
      assert ps[k - 1].addr < ps[k].addr && ps[k - 1].addr % 256 == 0 && ps[k].addr % 256 == 0;
    }
  }

  lemma {:induction false} PagesPackable(ps: seq<Page>, family: nat, device: nat)
    requires Ascending(ps) && Aligned(ps) && Readable(ps) && family < WORD_LIMIT && device < WORD_LIMIT
    ensures Packable(ps, family, device)
  {
    if ps != [] { PageNumber(ps, |ps| - 1); }
  }

  // ---------- Every byte of the image ----------

  /** An address of the image lies in a page or in a gap. */
  lemma {:induction false} Locate(ps: seq<Page>, a: nat) returns (k: nat)
    requires InOrder(ps) && ps != [] && ps[0].addr <= a < ps[|ps| - 1].addr + 256
    ensures k < |ps| && ps[k].addr <= a && (a < ps[k].addr + 256 || (k + 1 < |ps| && a < ps[k + 1].addr))
    decreases |ps|
  {
    var n := |ps| - 1;
    if ps[n].addr <= a {
      k := n;
    } else if a < ps[n - 1].addr + 256 {
      k := Locate(ps[..n], a);
    } else {
      k := n - 1;
    }
  }

  lemma {:induction false} OrderedAddresses(ps: seq<Page>, i: nat, j: nat)
    requires InOrder(ps) && i < j < |ps|
    ensures ps[i].addr + 256 <= ps[j].addr
    decreases j
  {
    assert FollowsOn(ps[j - 1], ps[j]);
    if i < j - 1 { OrderedAddresses(ps, i, j - 1); }
  }

  /** In a gap there is no page, so nothing was written. */
  lemma {:induction false} GapUntouched(ps: seq<Page>, k: nat, a: nat)
    requires InOrder(ps) && Aligned(ps) && k + 1 < |ps| && ps[k].addr + 256 <= a < ps[k + 1].addr
    ensures !HasPage(ps, PageOf(a))
  {
    if HasPage(ps, PageOf(a)) {
      var i :| 0 <= i < |ps| && ps[i].addr == PageOf(a);
      if i < k { OrderedAddresses(ps, i, k); }
      if i > k + 1 { OrderedAddresses(ps, k + 1, i); }
    }
  }

  lemma {:induction false} InPage(ps: seq<Page>, k: nat, a: nat)
    requires Aligned(ps) && k < |ps| && ps[k].addr <= a < ps[k].addr + 256
    ensures HasPage(ps, PageOf(a))
  {
    assert PageOf(a) == ps[k].addr;
  }

  lemma {:induction false} ImageAtAddress(ps: seq<Page>, mem: map<nat, byte>, a: nat)
    requires ps != [] && InOrder(ps) && Aligned(ps) && Faithful(ps, mem)
    requires ps[0].addr <= a < ps[|ps| - 1].addr + 256
    ensures a - ps[0].addr < |Image(ps)| && Image(ps)[a - ps[0].addr] == ByteOr(mem, a, HasPage(ps, PageOf(a)))
  {
    var k := Locate(ps, a);
    if a < ps[k].addr + 256 {
      InPage(ps, k, a);
      ImageByte(ps, mem, k, a - ps[k].addr);
    } else {
      GapUntouched(ps, k, a);
      NothingInGap(ps, mem, a);
      ImageOfGap(ps, k, a);
    }
  }

  lemma {:induction false} NothingInGap(ps: seq<Page>, mem: map<nat, byte>, a: nat)
    requires Covered(ps, mem) && !HasPage(ps, PageOf(a))
    ensures a !in mem
  {}

  /** The rebuilt binary holds exactly the file's image, from the page of the first byte on. */
  ghost predicate HoldsImage(ws: seq<Write>, start: nat, out: seq<byte>) {
    && (forall x :: 0 <= x < |out| ==> out[x] == ImageAt(ws, start + x))
    && (forall a :: a in Memory(ws) ==> start <= a < start + |out|)
  }

  lemma {:induction false} FirstPage(ws: seq<Write>)
    requires ws != []
    ensures var ps := PlaceAll([], ws); ps != [] && ps[0].addr == PageOf(ws[0].addr)
    decreases |ws|
  {
    LastPage(ws);
    var n := |ws| - 1;
    if n > 0 { FirstPage(ws[..n]); } else { assert PlaceAll([], ws[..0]) == []; }
  }

  lemma {:induction false} CoveredInside(ps: seq<Page>, mem: map<nat, byte>, a: nat)
    requires InOrder(ps) && Aligned(ps) && Covered(ps, mem) && a in mem
    ensures ps != [] && ps[0].addr <= a < ps[|ps| - 1].addr + 256
  {
    var i :| 0 <= i < |ps| && ps[i].addr == PageOf(a);
    if i > 0 { OrderedAddresses(ps, 0, i); }
    if i < |ps| - 1 { OrderedAddresses(ps, i, |ps| - 1); }
  }

  /** What is known of the pages of a file, without how they were made. */
  ghost predicate PagesOf(ps: seq<Page>, ws: seq<Write>, mem: map<nat, byte>) {
    && ps != [] && InOrder(ps) && Aligned(ps) && Faithful(ps, mem) && mem == Memory(ws)
    && forall page :: HasPage(ps, page) <==> Touched(ws, page)
  }

  lemma {:induction false} ByteHeld(ws: seq<Write>, ps: seq<Page>, mem: map<nat, byte>, out: seq<byte>, x: nat)
    requires ps != [] && mem == Memory(ws) && x < |out|
    requires out[x] == ByteOr(mem, ps[0].addr + x, HasPage(ps, PageOf(ps[0].addr + x)))
    requires HasPage(ps, PageOf(ps[0].addr + x)) <==> Touched(ws, PageOf(ps[0].addr + x))
    ensures out[x] == ImageAt(ws, ps[0].addr + x)
  {}

  lemma {:induction false} OneByteHeld(ws: seq<Write>, ps: seq<Page>, mem: map<nat, byte>, out: seq<byte>, x: nat)
    requires PagesOf(ps, ws, mem) && out == Image(ps) && x < |out| == ps[|ps| - 1].addr + 256 - ps[0].addr
    ensures out[x] == ImageAt(ws, ps[0].addr + x)
  {
    ImageAtAddress(ps, mem, ps[0].addr + x);
    ByteHeld(ws, ps, mem, out, x);
  }

  lemma {:induction false} ImageHeld(ws: seq<Write>, ps: seq<Page>, mem: map<nat, byte>, out: seq<byte>)
    requires PagesOf(ps, ws, mem) && out == Image(ps) && |out| == ps[|ps| - 1].addr + 256 - ps[0].addr
    ensures HoldsImage(ws, ps[0].addr, out)
  {
    forall x | 0 <= x < |out| ensures out[x] == ImageAt(ws, ps[0].addr + x) { OneByteHeld(ws, ps, mem, out, x); }
    forall a | a in mem ensures ps[0].addr <= a < ps[0].addr + |out| { CoveredInside(ps, mem, a); }
  }

  // ---------- From records to the rebuilt binary ----------

  lemma {:induction false} ByteShort(b: Base, offset: nat, i: nat)
    requires b.upper < 0x1_0000
    ensures ByteAddress(b, offset, i) < WORD_LIMIT
  {}

  lemma {:induction false} DataShort(rec: seq<byte>, b: Base)
    requires b.upper < 0x1_0000
    ensures Short(DataOf(rec, b))
  {
    if DataRecord(rec) {
      var ws := Placed(rec, b);
      forall i | 0 <= i < |ws| ensures ws[i].addr < WORD_LIMIT { ByteShort(b, Big16(rec[1], rec[2]), i); }
    }
  }

  lemma {:induction false} ShortTogether(ws: seq<Write>, more: seq<Write>)
    requires Short(ws) && Short(more)
    ensures Short(ws + more)
  {}

  lemma {:induction false} AddressesShort(recs: seq<seq<byte>>, n: nat)
    requires n <= |recs|
    ensures Short(Contents(recs, n))
  {
    if n > 0 {
      AddressesShort(recs, n - 1);
      BaseInRange(recs, n - 1);
      DataShort(recs[n - 1], BaseAt(recs, n - 1));
      ShortTogether(Contents(recs, n - 1), DataOf(recs[n - 1], BaseAt(recs, n - 1)));
    }
  }

  /** Reading `file` back gives the image of the writes. */
  ghost predicate ReadsBack(ws: seq<Write>, family: nat, start: nat, file: seq<byte>)
    requires ws != []
  {
    var d := ReadBlocks(family, start, file, |file| / 512);
    d.Ok? && d.value.start == PageOf(ws[0].addr) && HoldsImage(ws, d.value.start, d.value.out)
  }

  lemma {:induction false} FilePages(ws: seq<Write>, ps: seq<Page>, family: nat, device: nat)
    requires ws != [] && Steps(ws) && Short(ws) && family < WORD_LIMIT && device < WORD_LIMIT && ps == PlaceAll([], ws)
    ensures ps != [] && ps[0].addr == PageOf(ws[0].addr)
    ensures Ascending(ps) && Aligned(ps) && Readable(ps) && Packable(ps, family, device)
  {
    StepsReadable(ws);
    PagesStrictlyAscend(ws);
    LastPage(ws);
    FirstPage(ws);
    PagesPackable(ps, family, device);
  }

  /** The conversion of writes that go forward. */
  lemma {:induction false} PagesConverted(ws: seq<Write>, ps: seq<Page>, family: nat, device: nat, start: nat)
    requires ws != [] && Steps(ws) && Short(ws) && family < WORD_LIMIT && device < WORD_LIMIT && ps == PlaceAll([], ws)
    ensures var r := EncodedPages(ps, family, device); r.Ok? && ReadsBack(ws, family, start, r.value)
  {
    FilePages(ws, ps, family, device);
    HexImageKept(ws, ps, family, device, start);
    forall page ensures HasPage(ps, page) <==> Touched(ws, page) { PagesAreTouched(ws, page); }
    ImageLength(ps);
    ImageHeld(ws, ps, Memory(ws), Image(ps));
  }

  /** A conversion that is read back comes from writes that go forward. */
  lemma {:induction false} ReadBackSteps(ws: seq<Write>, ps: seq<Page>, family: nat, device: nat, start: nat)
    requires ps == PlaceAll([], ws) && ps != [] && EncodedPages(ps, family, device).Ok?
    requires var file := EncodedPages(ps, family, device).value; ReadBlocks(family, start, file, |file| / 512).Ok?
    ensures Steps(ws)
  {
    AllPagesOk(ps);
    HexStyleFlashable(family, device);
    Uf2Reader.PagesReadExactlyWhen(family, HexStyle(family, device), ps, start, |ps|);
    InOrderSteps(ws);
  }

  /**
   * Intel HEX to UF2 to binary, from the records on: a file whose addresses do not wrap is converted and
   * can be read back if and only if its pages go forward with gaps of at most 10 MiB, and then the rebuilt
   * binary holds every data byte at the address the format gives it, 0xFF in the rest of the pages used and
   * zeros in the gaps.
   */
  lemma {:induction false} HexFileKept(recs: seq<seq<byte>>, n: nat, family: nat, device: nat, start: nat)
    requires FileOf(recs, n) && NoWrap(recs, n) && family < WORD_LIMIT && device < WORD_LIMIT
    requires Contents(recs, n) != []
    ensures var r, ws := HexToUf2(recs, family, device), Contents(recs, n);
            && (r.Ok? && ReadBlocks(family, start, r.value, |r.value| / 512).Ok? <==> Steps(ws))
            && (Steps(ws) ==> ReadsBack(ws, family, start, r.value))
  {
    var r, ws := HexToUf2(recs, family, device), Contents(recs, n);
    FileScanned(recs, n);
    LastPage(ws);
    if Steps(ws) {
      AddressesShort(recs, n);
      PagesConverted(ws, PlaceAll([], ws), family, device, start);
    } else if r.Ok? && ReadBlocks(family, start, r.value, |r.value| / 512).Ok? {
      ReadBackSteps(ws, PlaceAll([], ws), family, device, start);
    }
  }
}
