/** Intel HEX to UF2 to binary keeps the memory image. */
module HexImage {
  import opened Bytes
  import opened Uf2
  import opened Hex

  // ---------- What the data records say ----------

  /** The bytes written, the last write to an address winning. */
  ghost function Memory(ws: seq<Write>): map<nat, byte>
    decreases |ws|
  {
    if ws == [] then map[] else Memory(ws[..|ws| - 1])[ws[|ws| - 1].addr := ws[|ws| - 1].value]
  }

  /** Pages never go back; inside a page the order does not matter. */
  ghost predicate PagesAscend(ws: seq<Write>) {
    forall i :: 0 < i < |ws| ==> PageOf(ws[i - 1].addr) <= PageOf(ws[i].addr)
  }

  // ---------- The pages ----------

  ghost predicate Ascending(ps: seq<Page>) {
    forall i, j :: 0 <= i < j < |ps| ==> ps[i].addr < ps[j].addr
  }

  ghost predicate Aligned(ps: seq<Page>) {
    forall i :: 0 <= i < |ps| ==> ps[i].addr % 256 == 0
  }

  /** The page in use is the page of the last write. */
  lemma {:induction false} LastPage(ws: seq<Write>)
    ensures Aligned(PlaceAll([], ws))
    ensures ws == [] <==> PlaceAll([], ws) == []
    ensures var ps := PlaceAll([], ws); ws != [] ==> ps[|ps| - 1].addr == PageOf(ws[|ws| - 1].addr)
    decreases |ws|
  {
    if ws != [] { LastPage(ws[..|ws| - 1]); }
  }

  /** Emitted pages strictly ascend exactly when the written addresses never go back to an earlier page. */
  lemma {:induction false} PagesStrictlyAscend(ws: seq<Write>)
    ensures Ascending(PlaceAll([], ws)) <==> PagesAscend(ws)
    decreases |ws|
  {
    if ws != [] {
      var n := |ws| - 1;
      var before, w := ws[..n], ws[n];
      assert ws == before + [w];
      PagesStrictlyAscend(before);
      LastPage(before);
      AscendStep(before, w);
      PlaceAscends(PlaceAll([], before), w);
    }
  }

  lemma {:induction false} AscendStep(ws: seq<Write>, w: Write)
    ensures PagesAscend(ws + [w]) <==> PagesAscend(ws) && (ws == [] || PageOf(ws[|ws| - 1].addr) <= PageOf(w.addr))
  {
    var ws' := ws + [w];
    if PagesAscend(ws') {
      forall i | 0 < i < |ws| ensures PageOf(ws[i - 1].addr) <= PageOf(ws[i].addr) {
        assert ws'[i - 1] == ws[i - 1] && ws'[i] == ws[i];
      }
      if ws != [] { assert PageOf(ws'[|ws| - 1].addr) <= PageOf(ws'[|ws|].addr); }
    }
  }

  lemma {:induction false} PlaceAscends(ps: seq<Page>, w: Write)
    requires Sized(ps) && Aligned(ps)
    ensures Ascending(Place(ps, w)) <==> Ascending(ps) && (ps == [] || ps[|ps| - 1].addr <= PageOf(w.addr))
  {
    var ps', n := Place(ps, w), |ps|;
    if Ascending(ps') {
      forall i, j | 0 <= i < j < n ensures ps[i].addr < ps[j].addr {
        assert ps'[i].addr == ps[i].addr && ps'[j].addr == ps[j].addr;
      }
      if n > 0 && |ps'| > n { assert ps'[n - 1].addr < ps'[n].addr; }
    }
  }

  ghost function Expected(mem: map<nat, byte>, a: nat): byte {
    if a in mem then mem[a] else 0xFF
  }

  /** Every byte of every page is what was written there, or filler. */
  ghost predicate Faithful(ps: seq<Page>, mem: map<nat, byte>) {
    Sized(ps) && BytesRight(ps, mem) && Covered(ps, mem)
  }

  ghost predicate BytesRight(ps: seq<Page>, mem: map<nat, byte>)
    requires Sized(ps)
  {
    forall i, o :: 0 <= i < |ps| && 0 <= o < 256 ==> ByteRight(ps[i], mem, o)
  }

  ghost predicate ByteRight(p: Page, mem: map<nat, byte>, o: nat)
    requires o < |p.data|
  {
    p.data[o] == Expected(mem, p.addr + o)
  }

  ghost predicate Covered(ps: seq<Page>, mem: map<nat, byte>) {
    forall a :: a in mem ==> HasPage(ps, PageOf(a))
  }

  ghost predicate HasPage(ps: seq<Page>, addr: nat) {
    exists i :: 0 <= i < |ps| && ps[i].addr == addr
  }

  lemma {:induction false} PagesFaithful(ws: seq<Write>)
    requires PagesAscend(ws)
    ensures Faithful(PlaceAll([], ws), Memory(ws))
    decreases |ws|
  {
    if ws != [] {
      var n := |ws| - 1;
      var before, w := ws[..n], ws[n];
      assert ws == before + [w];
      AscendStep(before, w);
      PagesFaithful(before);
      PagesStrictlyAscend(before);
      LastPage(before);
      PlaceFaithful(PlaceAll([], before), Memory(before), w);
    }
  }

  lemma {:induction false} PlaceFaithful(ps: seq<Page>, mem: map<nat, byte>, w: Write)
    requires Faithful(ps, mem) && Ascending(ps) && Aligned(ps)
    requires ps == [] || ps[|ps| - 1].addr <= PageOf(w.addr)
    ensures Faithful(Place(ps, w), mem[w.addr := w.value])
  {
    if ps != [] && ps[|ps| - 1].addr == PageOf(w.addr) {
      PlaceIntoLast(ps, mem, w);
    } else {
      PlaceIntoNew(ps, mem, w);
    }
  }

  lemma {:induction false} Position(page: nat, o: nat, a: nat)
    requires page % 256 == 0 && o < 256
    ensures page + o == a <==> page == PageOf(a) && o == a % 256
  {}

  lemma {:induction false} ByteInLast(ps: seq<Page>, mem: map<nat, byte>, w: Write, i: nat, o: nat)
    requires Faithful(ps, mem) && Ascending(ps) && Aligned(ps) && i < |ps| && o < 256
    requires ps != [] && ps[|ps| - 1].addr == PageOf(w.addr)
    ensures var ps' := Place(ps, w); |ps'| == |ps| && ByteRight(ps'[i], mem[w.addr := w.value], o)
  {
    assert ByteRight(ps[i], mem, o);
    Position(ps[i].addr, o, w.addr);
    assert PageOf(ps[|ps| - 1].addr) == ps[|ps| - 1].addr;
  }

  lemma {:induction false} PagesCovered(ps: seq<Page>, ps': seq<Page>, mem: map<nat, byte>, w: Write)
    requires Covered(ps, mem) && |ps| <= |ps'| && HasPage(ps', PageOf(w.addr))
    requires forall i :: 0 <= i < |ps| ==> ps'[i].addr == ps[i].addr
    ensures Covered(ps', mem[w.addr := w.value])
  {}

  lemma {:induction false} PlaceIntoLast(ps: seq<Page>, mem: map<nat, byte>, w: Write)
    requires Faithful(ps, mem) && Ascending(ps) && Aligned(ps)
    requires ps != [] && ps[|ps| - 1].addr == PageOf(w.addr)
    ensures Faithful(Place(ps, w), mem[w.addr := w.value])
  {
    PlaceStays(ps, w);
    BytesInLast(ps, mem, w);
    PagesCovered(ps, Place(ps, w), mem, w);
  }

  lemma {:induction false} BytesInLast(ps: seq<Page>, mem: map<nat, byte>, w: Write)
    requires Faithful(ps, mem) && Ascending(ps) && Aligned(ps)
    requires ps != [] && ps[|ps| - 1].addr == PageOf(w.addr)
    ensures BytesRight(Place(ps, w), mem[w.addr := w.value])
  {
    var ps', mem' := Place(ps, w), mem[w.addr := w.value];
    PlaceStays(ps, w);
    forall i, o | 0 <= i < |ps'| && 0 <= o < 256 ensures ByteRight(ps'[i], mem', o) {
      ByteInLast(ps, mem, w, i, o);
    }
  }

  lemma {:induction false} PlaceStays(ps: seq<Page>, w: Write)
    requires Sized(ps) && Aligned(ps) && ps != [] && ps[|ps| - 1].addr == PageOf(w.addr)
    ensures var ps' := Place(ps, w);
            |ps'| == |ps| && (forall i :: 0 <= i < |ps| ==> ps'[i].addr == ps[i].addr) && HasPage(ps', PageOf(w.addr))
  {}

  lemma {:induction false} ByteInNew(ps: seq<Page>, mem: map<nat, byte>, w: Write, i: nat, o: nat)
    requires Faithful(ps, mem) && Ascending(ps) && Aligned(ps) && i <= |ps| && o < 256
    requires ps == [] || ps[|ps| - 1].addr < PageOf(w.addr)
    ensures var ps' := ps + [Page(PageOf(w.addr), Filler()[w.addr % 256 := w.value])];
            ByteRight(ps'[i], mem[w.addr := w.value], o)
  {
    if i < |ps| {
      assert ByteRight(ps[i], mem, o);
      Position(ps[i].addr, o, w.addr);
    } else {
      NotWrittenYet(ps, mem, PageOf(w.addr), o);
      Position(PageOf(w.addr), o, w.addr);
    }
  }

  lemma {:induction false} PlaceOpens(ps: seq<Page>, w: Write)
    requires Sized(ps) && Aligned(ps) && (ps == [] || ps[|ps| - 1].addr < PageOf(w.addr))
    ensures Place(ps, w) == ps + [Page(PageOf(w.addr), Filler()[w.addr % 256 := w.value])]
  {}

  lemma {:induction false} PlaceIntoNew(ps: seq<Page>, mem: map<nat, byte>, w: Write)
    requires Faithful(ps, mem) && Ascending(ps) && Aligned(ps)
    requires ps == [] || ps[|ps| - 1].addr < PageOf(w.addr)
    ensures Faithful(Place(ps, w), mem[w.addr := w.value])
  {
    var page := Page(PageOf(w.addr), Filler()[w.addr % 256 := w.value]);
    PlaceOpens(ps, w);
    NewPageFaithful(ps, mem, w, page);
  }

  lemma {:induction false} NewPageFaithful(ps: seq<Page>, mem: map<nat, byte>, w: Write, p: Page)
    requires Faithful(ps, mem) && Ascending(ps) && Aligned(ps)
    requires ps == [] || ps[|ps| - 1].addr < PageOf(w.addr)
    requires p == Page(PageOf(w.addr), Filler()[w.addr % 256 := w.value])
    ensures Faithful(ps + [p], mem[w.addr := w.value])
  {
    SizedGrows(ps, p);
    BytesInNew(ps, mem, w, p);
    NewPageCovers(ps, mem, w, p);
  }

  lemma {:induction false} SizedGrows(ps: seq<Page>, p: Page)
    requires Sized(ps) && |p.data| == 256
    ensures Sized(ps + [p])
  {}

  lemma {:induction false} BytesInNew(ps: seq<Page>, mem: map<nat, byte>, w: Write, p: Page)
    requires Faithful(ps, mem) && Ascending(ps) && Aligned(ps) && Sized(ps + [p])
    requires ps == [] || ps[|ps| - 1].addr < PageOf(w.addr)
    requires p == Page(PageOf(w.addr), Filler()[w.addr % 256 := w.value])
    ensures BytesRight(ps + [p], mem[w.addr := w.value])
  {
    var ps', mem' := ps + [p], mem[w.addr := w.value];
    forall i, o | 0 <= i < |ps'| && 0 <= o < 256 ensures ByteRight(ps'[i], mem', o) {
      ByteInNew(ps, mem, w, i, o);
    }
  }

  lemma {:induction false} NewPageCovers(ps: seq<Page>, mem: map<nat, byte>, w: Write, p: Page)
    requires Covered(ps, mem) && p.addr == PageOf(w.addr)
    ensures Covered(ps + [p], mem[w.addr := w.value])
  {
    assert (ps + [p])[|ps|] == p;
    PagesCovered(ps, ps + [p], mem, w);
  }

  lemma {:induction false} NotWrittenYet(ps: seq<Page>, mem: map<nat, byte>, addr: nat, o: nat)
    requires Faithful(ps, mem) && Ascending(ps) && addr % 256 == 0 && o < 256
    requires ps == [] || ps[|ps| - 1].addr < addr
    ensures addr + o !in mem
  {
    assert PageOf(addr + o) == addr;
  }

  // ---------- Through the container and back ----------

  lemma {:induction false} HexStyleFlashable(family: nat, device: nat)
    requires family < WORD_LIMIT
    ensures Flashable(HexStyle(family, device))
  {}

  /** Gaps short enough for a reader, addresses short enough for a header. */
  ghost predicate Readable(ps: seq<Page>) {
    && (forall i :: 0 < i < |ps| ==> ps[i].addr - ps[i - 1].addr - 256 <= 10 * 1024 * 1024)
    && forall i :: 0 <= i < |ps| ==> ps[i].addr < WORD_LIMIT
  }

  lemma {:induction false} PagesInOrder(ps: seq<Page>)
    requires Ascending(ps) && Aligned(ps) && Sized(ps) && Readable(ps)
    ensures InOrder(ps) && forall p :: p in ps ==> PageOk(p)
  {
    forall i | 0 < i < |ps| ensures FollowsOn(ps[i - 1], ps[i]) { AlignedFollows(ps[i - 1], ps[i]); }
  }

  lemma {:induction false} AlignedFollows(p: Page, q: Page)
    requires p.addr % 256 == 0 && q.addr % 256 == 0 && p.addr < q.addr && q.addr - p.addr - 256 <= 10 * 1024 * 1024
    ensures FollowsOn(p, q)
  {
    var a, b := p.addr / 256, q.addr / 256;
    assert p.addr == 256 * a && q.addr == 256 * b;
    FourDivides(64 * (b - a));
  }

  lemma {:induction false} FourDivides(n: int)
    ensures 4 * n % 4 == 0
  {}

  lemma {:induction false} ImageLength(ps: seq<Page>)
    requires InOrder(ps) && Sized(ps)
    ensures |Image(ps)| == if ps == [] then 0 else ps[|ps| - 1].addr + 256 - ps[0].addr
    decreases |ps|
  {
    if |ps| > 1 {
      assert FollowsOn(ps[|ps| - 2], ps[|ps| - 1]);
      ImageLength(ps[..|ps| - 1]);
    }
  }

  /** A byte of page `k` is found in the image at its own address. */
  lemma {:induction false} ImageOfPage(ps: seq<Page>, k: nat, o: nat)
    requires InOrder(ps) && Sized(ps) && k < |ps| && o < 256
    ensures var x := ps[k].addr - ps[0].addr + o; 0 <= x < |Image(ps)| && Image(ps)[x] == ps[k].data[o]
    decreases |ps|
  {
    var n := |ps| - 1;
    ImageLength(ps);
    if n > 0 {
      assert FollowsOn(ps[n - 1], ps[n]);
      ImageLength(ps[..n]);
      if k < n { ImageOfPage(ps[..n], k, o); }
    }
  }

  /** Between two pages the image holds zeros. */
  lemma {:induction false} ImageOfGap(ps: seq<Page>, k: nat, a: nat)
    requires InOrder(ps) && Sized(ps) && k + 1 < |ps| && ps[k].addr + 256 <= a < ps[k + 1].addr
    ensures 0 <= a - ps[0].addr < |Image(ps)| && Image(ps)[a - ps[0].addr] == 0
    decreases |ps|
  {
    var n := |ps| - 1;
    if k + 1 < n {
      ImageOfGap(ps[..n], k, a);
      assert Image(ps[..n]) <= Image(ps);
    } else {
      LastGap(ps, a);
    }
  }

  lemma {:induction false} LastGap(ps: seq<Page>, a: nat)
    requires InOrder(ps) && Sized(ps) && |ps| > 1 && ps[|ps| - 2].addr + 256 <= a < ps[|ps| - 1].addr
    ensures 0 <= a - ps[0].addr < |Image(ps)| && Image(ps)[a - ps[0].addr] == 0
  {
    var n := |ps| - 1;
    ImageLength(ps[..n]);
    StartsFirst(ps, n - 1);
  }

  lemma {:induction false} StartsFirst(ps: seq<Page>, k: nat)
    requires InOrder(ps) && k < |ps|
    ensures ps[0].addr <= ps[k].addr
  {
    if k > 0 {
      StartsFirst(ps, k - 1);
      assert FollowsOn(ps[k - 1], ps[k]);
    }
  }

  /** The pages of such a file are in order and hold what was written. */
  lemma {:induction false} HexPages(ws: seq<Write>)
    requires PagesAscend(ws) && Readable(PlaceAll([], ws))
    ensures var ps := PlaceAll([], ws);
            Ascending(ps) && InOrder(ps) && Faithful(ps, Memory(ws)) && (forall p :: p in ps ==> PageOk(p)) &&
            (ws != [] ==> ps != [])
  {
    PagesStrictlyAscend(ws);
    PagesFaithful(ws);
    LastPage(ws);
    PagesInOrder(PlaceAll([], ws));
  }

  /**
   * Hex to UF2 to binary, for records whose pages never go back and whose gaps a reader accepts: the
   * binary rebuilt from the blocks is the image of pages that hold each data byte at its own address.
   */
  lemma {:induction false} HexImageKept(ws: seq<Write>, ps: seq<Page>, family: nat, device: nat, start: nat)
    requires ws != [] && PagesAscend(ws) && family < WORD_LIMIT && device < WORD_LIMIT
    requires ps == PlaceAll([], ws) && Readable(ps)
    ensures InOrder(ps) && Faithful(ps, Memory(ws)) && ps != [] && forall p :: p in ps ==> PageOk(p)
    ensures var bs := EncodeBlocks(HexStyle(family, device), ps, |ps|);
            var r := ReadBlocks(family, start, bs, |bs| / 512);
            r.Ok? && r.value.start == ps[0].addr && r.value.out == Image(ps)
  {
    HexPages(ws);
    HexStyleFlashable(family, device);
    ReadsImage(family, HexStyle(family, device), ps, start, |ps|);
  }

  /** Byte by byte: a written byte is at its address, any other byte of an emitted page is 0xFF. */
  lemma {:induction false} ImageByte(ps: seq<Page>, mem: map<nat, byte>, k: nat, o: nat)
    requires InOrder(ps) && Faithful(ps, mem) && k < |ps| && o < 256
    ensures var a := ps[k].addr + o;
            0 <= a - ps[0].addr < |Image(ps)| && Image(ps)[a - ps[0].addr] == Expected(mem, a)
  {
    assert ByteRight(ps[k], mem, o);
    ImageOfPage(ps, k, o);
  }
}
