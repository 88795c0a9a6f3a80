/**
 * `convert_from_uf2` of util/uf2conv.py: exactly which files it reads, what it reads from them, and how it differs
 * from a reader that skips blocks with a bad magic number.
 */
module Uf2Reader {
  import opened Bytes
  import opened Uf2

  // ---------- Blocks of a file ----------

  function BlockOf(bs: seq<byte>, k: nat): (b: seq<byte>)
    requires k < |bs| / 512
    ensures |b| == 512
  {
    bs[512 * k..512 * (k + 1)]
  }

  /** What the reader sees in a block before it looks at the blocks around it. */
  datatype Info = BadMagic | NotFlashed | TooLong | Flashed(p: Parsed)

  function InfoOf(b: seq<byte>): Info
    requires |b| == 512
  {
    var flags, len := WordAt(b, 8), WordAt(b, 16);
    if WordAt(b, 0) != MAGIC_START0 || WordAt(b, 4) != MAGIC_START1 then BadMagic
    else if HasFlag(flags, FLAG_NO_FLASH) then NotFlashed
    else if len > 476 then TooLong
    else Flashed(Parsed(flags, WordAt(b, 12), b[32..32 + len], WordAt(b, 28)))
  }

  function Infos(bs: seq<byte>): (fs: seq<Info>)
    ensures |fs| == |bs| / 512 && forall k :: 0 <= k < |fs| ==> fs[k] == InfoOf(BlockOf(bs, k))
  {
    seq(|bs| / 512, k requires 0 <= k < |bs| / 512 => InfoOf(BlockOf(bs, k)))
  }

  /** One block, from what was seen in it. */
  function ReadInfo(wanted: nat, d: Reader, f: Info, last: bool): Result<Reader> {
    match f
    case Flashed(p) => Accept(wanted, d, p, last)
    case NotFlashed => Ok(d)
    case _ => Error
  }

  function ReadInfos(wanted: nat, start: nat, fs: seq<Info>, n: nat): Result<Reader>
    requires n <= |fs|
  {
    if n == 0 then Ok(Reader(Error, Error, {}, [], start)) else
    match ReadInfos(wanted, start, fs, n - 1)
    case Error => Error
    case Ok(d) => ReadInfo(wanted, d, fs[n - 1], n == |fs|)
  }

  lemma {:induction false} BlockSeen(wanted: nat, d: Reader, b: seq<byte>, last: bool)
    requires |b| == 512
    ensures ReadBlock(wanted, d, b, last) == ReadInfo(wanted, d, InfoOf(b), last)
  {}

  /** The reader depends on what it sees in the blocks alone. */
  lemma {:induction false} BlocksSeen(wanted: nat, start: nat, bs: seq<byte>, fs: seq<Info>, n: nat)
    requires n <= |bs| / 512 == |fs| && fs == Infos(bs)
    ensures SameRead(wanted, start, bs, fs, n)
  {
    if n > 0 {
      BlocksSeen(wanted, start, bs, fs, n - 1);
      OneMoreSeen(wanted, start, bs, fs, n - 1, n);
    }
  }

  ghost predicate SameRead(wanted: nat, start: nat, bs: seq<byte>, fs: seq<Info>, n: nat)
    requires n <= |bs| / 512 == |fs|
  {
    ReadBlocks(wanted, start, bs, n) == ReadInfos(wanted, start, fs, n)
  }

  lemma {:induction false} OneMoreSeen(wanted: nat, start: nat, bs: seq<byte>, fs: seq<Info>, n: nat, next: nat)
    requires n + 1 == next <= |bs| / 512 == |fs| && fs[n] == InfoOf(BlockOf(bs, n))
    requires SameRead(wanted, start, bs, fs, n)
    ensures SameRead(wanted, start, bs, fs, next)
  {
    match ReadInfos(wanted, start, fs, n)
    case Error =>
    case Ok(d) =>
      ReadStep(wanted, start, bs, n, d, BlockOf(bs, n));
      BlockSeen(wanted, d, BlockOf(bs, n), n + 1 == |fs|);
  }

  // ---------- Which files can be read ----------

  predicate Tagged(p: Parsed) { HasFlag(p.flags, FLAG_FAMILY) }

  /** Where the last flashed block before block `k` ends. */
  function EndBefore(fs: seq<Info>, k: nat): Result<nat>
    requires k <= |fs|
  {
    if k == 0 then Error
    else if fs[k - 1].Flashed? then Ok(fs[k - 1].p.addr + |fs[k - 1].p.payload|)
    else EndBefore(fs, k - 1)
  }

  /** The family of the first flashed block before `k`, or of the last tagged one after it. */
  function FamilyBefore(fs: seq<Info>, k: nat): Result<nat>
    requires k <= |fs|
  {
    if k == 0 then Error
    else
      var f, before := fs[k - 1], FamilyBefore(fs, k - 1);
      if f.Flashed? && (before.Error? || Tagged(f.p)) then Ok(f.p.family) else before
  }

  /** The block starts over: it is the first one, or it changes the family. */
  predicate Restarts(fs: seq<Info>, k: nat)
    requires k < |fs| && fs[k].Flashed?
  {
    EndBefore(fs, k).Error? || (Tagged(fs[k].p) && FamilyBefore(fs, k) != Ok(fs[k].p.family))
  }

  /** Forwards, by a whole number of words, and by no more than 10 MiB. */
  predicate Reaches(end: nat, addr: nat) {
    end <= addr <= end + 10 * 1024 * 1024 && (addr - end) % 4 == 0
  }

  predicate Readable(fs: seq<Info>, k: nat)
    requires k < |fs|
  {
    fs[k].NotFlashed? ||
    (fs[k].Flashed? && (Restarts(fs, k) || Reaches(EndBefore(fs, k).value, fs[k].p.addr)))
  }

  /** Each of the first `n` blocks can be read where it stands. */
  predicate AllReadable(fs: seq<Info>, n: nat)
    requires n <= |fs|
  {
    n == 0 || (AllReadable(fs, n - 1) && Readable(fs, n - 1))
  }

  // ---------- What is read ----------

  predicate Selected(wanted: nat, p: Parsed) {
    wanted == 0 || (Tagged(p) && wanted == p.family)
  }

  /** The zeros put in front of a block, and its data if its family is wanted. */
  function Part(wanted: nat, fs: seq<Info>, k: nat): seq<byte>
    requires k < |fs| && Readable(fs, k)
  {
    if fs[k].NotFlashed? then [] else
    Zeros(if Restarts(fs, k) then 0 else fs[k].p.addr - EndBefore(fs, k).value)
    + if Selected(wanted, fs[k].p) then fs[k].p.payload else []
  }

  function Parts(wanted: nat, fs: seq<Info>, n: nat): seq<byte>
    requires n <= |fs| && AllReadable(fs, n)
  {
    if n == 0 then [] else Parts(wanted, fs, n - 1) + Part(wanted, fs, n - 1)
  }

  /** Where the last block that starts over begins, if its family is wanted. */
  function StartOf(wanted: nat, start: nat, fs: seq<Info>, n: nat): nat
    requires n <= |fs|
  {
    if n == 0 then start
    else if fs[n - 1].Flashed? && Restarts(fs, n - 1) && (wanted == 0 || wanted == fs[n - 1].p.family)
    then fs[n - 1].p.addr
    else StartOf(wanted, start, fs, n - 1)
  }

  function Tags(fs: seq<Info>, n: nat): set<nat>
    requires n <= |fs|
  {
    if n == 0 then {}
    else Tags(fs, n - 1) + if fs[n - 1].Flashed? && Tagged(fs[n - 1].p) then {fs[n - 1].p.family} else {}
  }

  /** Several families and none wanted, which is noticed only at a last block that is to be flashed. */
  predicate Mixed(wanted: nat, fs: seq<Info>, n: nat)
    requires n <= |fs|
  {
    0 < n == |fs| && fs[n - 1].Flashed? && wanted == 0 && |Tags(fs, n)| > 1
  }

  function ReadOut(wanted: nat, start: nat, fs: seq<Info>, n: nat): Reader
    requires n <= |fs| && AllReadable(fs, n)
  {
    var mixed := Mixed(wanted, fs, n);
    Reader(EndBefore(fs, n), FamilyBefore(fs, n), Tags(fs, n),
           if mixed then [] else Parts(wanted, fs, n), if mixed then 0 else StartOf(wanted, start, fs, n))
  }

  lemma {:induction false} UnsetTogether(fs: seq<Info>, k: nat)
    requires k <= |fs|
    ensures EndBefore(fs, k).Error? <==> FamilyBefore(fs, k).Error?
  {
    if k > 0 { UnsetTogether(fs, k - 1); }
  }

  lemma {:induction false} FlashedAccepted(wanted: nat, fs: seq<Info>, n: nat, d: Reader, last: bool)
    requires n < |fs| && fs[n].Flashed? && d.address == EndBefore(fs, n) && d.family == FamilyBefore(fs, n)
    ensures ReadInfo(wanted, d, fs[n], last).Ok? <==> Readable(fs, n)
  {
    UnsetTogether(fs, n);
  }

  /** What a flashed block adds to the reader's variables, if it can be read. */
  lemma {:induction false} FlashedGives(wanted: nat, fs: seq<Info>, n: nat, d: Reader, last: bool)
    requires n < |fs| && fs[n].Flashed? && d.address == EndBefore(fs, n) && d.family == FamilyBefore(fs, n)
    ensures ReadInfo(wanted, d, fs[n], last).Ok? <==> Readable(fs, n)
    ensures Readable(fs, n) ==>
              var p := fs[n].p;
              var tags := d.families + if Tagged(p) then {p.family} else {};
              var mixed := last && |tags| > 1 && wanted == 0;
              var start := if Restarts(fs, n) && (wanted == 0 || wanted == p.family) then p.addr else d.start;
              ReadInfo(wanted, d, fs[n], last) ==
              Ok(Reader(EndBefore(fs, n + 1), FamilyBefore(fs, n + 1), tags,
                        if mixed then [] else d.out + Part(wanted, fs, n), if mixed then 0 else start))
  {
    UnsetTogether(fs, n);
    FlashedAccepted(wanted, fs, n, d, last);
    if Readable(fs, n) {
      var p := fs[n].p;
      var gap := Zeros(if Restarts(fs, n) then 0 else p.addr - EndBefore(fs, n).value);
      var data := if Selected(wanted, p) then p.payload else [];
      assert d.out + gap + data == d.out + (gap + data);
      assert d.families + {} == d.families;
    }
  }

  lemma {:induction false} BlockGives(wanted: nat, start: nat, fs: seq<Info>, n: nat)
    requires n < |fs| && AllReadable(fs, n)
    ensures ReadInfo(wanted, ReadOut(wanted, start, fs, n), fs[n], n + 1 == |fs|) ==
            if Readable(fs, n) then Ok(ReadOut(wanted, start, fs, n + 1)) else Error
  {
    if fs[n].Flashed? { FlashedGives(wanted, fs, n, ReadOut(wanted, start, fs, n), n + 1 == |fs|); }
    if fs[n].NotFlashed? {
      assert Parts(wanted, fs, n) + [] == Parts(wanted, fs, n) && Tags(fs, n) + {} == Tags(fs, n);
    }
  }

  /** What is known of reading the first `n` blocks. */
  ghost predicate ReadAsSeen(wanted: nat, start: nat, fs: seq<Info>, n: nat)
    requires n <= |fs|
  {
    ReadInfos(wanted, start, fs, n) == if AllReadable(fs, n) then Ok(ReadOut(wanted, start, fs, n)) else Error
  }

  lemma {:induction false} OneMoreRead(wanted: nat, start: nat, fs: seq<Info>, n: nat, next: nat)
    requires n + 1 == next <= |fs| && ReadAsSeen(wanted, start, fs, n)
    ensures ReadAsSeen(wanted, start, fs, next)
  {
    if AllReadable(fs, n) { BlockGives(wanted, start, fs, n); }
    ReadStepSeen(wanted, start, fs, n);
  }

  lemma {:induction false} ReadStepSeen(wanted: nat, start: nat, fs: seq<Info>, n: nat)
    requires n < |fs|
    ensures ReadInfos(wanted, start, fs, n + 1) ==
            match ReadInfos(wanted, start, fs, n)
            case Error => Error
            case Ok(d) => ReadInfo(wanted, d, fs[n], n + 1 == |fs|)
  {}

  lemma {:induction false} NoneRead(wanted: nat, start: nat, fs: seq<Info>)
    ensures ReadAsSeen(wanted, start, fs, 0)
  {}

  lemma {:induction false} InfosRead(wanted: nat, start: nat, fs: seq<Info>, n: nat)
    requires n <= |fs|
    ensures ReadAsSeen(wanted, start, fs, n)
  {
    if n == 0 {
      NoneRead(wanted, start, fs);
    } else {
      InfosRead(wanted, start, fs, n - 1);
      OneMoreRead(wanted, start, fs, n - 1, n);
    }
  }

  /** A file is read, whatever the wanted family, if and only if every block can be read where it stands. */
  lemma {:induction false} ReadExactlyWhen(wanted: nat, start: nat, bs: seq<byte>, n: nat)
    requires n <= |bs| / 512
    ensures ReadBlocks(wanted, start, bs, n).Ok? <==> AllReadable(Infos(bs), n)
  {
    BlocksSeen(wanted, start, bs, Infos(bs), n);
    InfosRead(wanted, start, Infos(bs), n);
  }

  /** For any mix of families, exactly the padding and the data of the wanted family are read, in order. */
  lemma {:induction false} ReadsWhatIsWanted(wanted: nat, start: nat, bs: seq<byte>, n: nat)
    requires n <= |bs| / 512 && AllReadable(Infos(bs), n)
    ensures ReadBlocks(wanted, start, bs, n) == Ok(ReadOut(wanted, start, Infos(bs), n))
  {
    BlocksSeen(wanted, start, bs, Infos(bs), n);
    InfosRead(wanted, start, Infos(bs), n);
  }

  method ConvertFromUf2(wanted: nat, start: nat, bs: seq<byte>) returns (r: Result<seq<byte>>, start': nat)
    ensures r.Ok? <==> AllReadable(Infos(bs), |bs| / 512)
    ensures match ReadBlocks(wanted, start, bs, |bs| / 512)
            case Error => r == Error
            case Ok(d) => r == Ok(d.out) && start' == d.start
  {
    ReadExactlyWhen(wanted, start, bs, |bs| / 512);
    var d := Reader(Error, Error, {}, [], start);
    start' := start;
    for n := 0 to |bs| / 512
      invariant ReadBlocks(wanted, start, bs, n) == Ok(d)
    {
      var block := bs[512 * n..512 * (n + 1)];
      ReadStep(wanted, start, bs, n, d, block);
      match ReadBlock(wanted, d, block, n + 1 == |bs| / 512)
      case Error =>
        ReadStopsAtError(wanted, start, bs, n + 1, |bs| / 512);
        return Error, start';
      case Ok(d') => d := d';
    }
    return Ok(d.out), d.start;
  }

  // ---------- Files written page by page ----------

  /** A file of pages, as seen block by block. */
  ghost predicate PageFile(y: Style, ps: seq<Page>, fs: seq<Info>) {
    Flashable(y) && |fs| == |ps|
    && forall k :: 0 <= k < |ps| ==> |ps[k].data| == 256 && fs[k] == PageInfo(y, ps[k])
  }

  ghost function PageInfo(y: Style, p: Page): Info { Flashed(Parsed(y.flags, p.addr, p.data, y.family)) }

  lemma {:induction false} PageSeen(y: Style, p: Page, no: nat, count: nat)
    requires Flashable(y) && PageOk(p)
    ensures InfoOf(EncodeBlock(y, p, no, count)) == PageInfo(y, p)
  {
    BlockFields(y, p, no, count);
  }

  lemma {:induction false} FileSeen(y: Style, ps: seq<Page>, count: nat, bs: seq<byte>)
    requires Flashable(y) && (forall p :: p in ps ==> PageOk(p)) && bs == EncodeBlocks(y, ps, count)
    ensures PageFile(y, ps, Infos(bs))
  {
    BlocksArePages(y, ps, count);
    forall k | 0 <= k < |ps| ensures |ps[k].data| == 256 && Infos(bs)[k] == PageInfo(y, ps[k]) {
      assert ps[k] in ps && BlockIs(bs, y, ps, count, k);
      PageSeen(y, ps[k], k, count);
    }
  }

  lemma {:induction false} AfterPage(y: Style, ps: seq<Page>, fs: seq<Info>, k: nat)
    requires PageFile(y, ps, fs) && k < |ps|
    ensures EndBefore(fs, k + 1) == Ok(ps[k].addr + 256) && FamilyBefore(fs, k + 1) == Ok(y.family)
  {
    if k > 0 { AfterPage(y, ps, fs, k - 1); }
  }

  lemma {:induction false} PageReadable(y: Style, ps: seq<Page>, fs: seq<Info>, k: nat)
    requires PageFile(y, ps, fs) && k < |ps|
    ensures Readable(fs, k) <==> k == 0 || FollowsOn(ps[k - 1], ps[k])
  {
    if k > 0 {
      AfterPage(y, ps, fs, k - 1);
      SameStep(ps[k - 1].addr, ps[k].addr);
    }
  }

  lemma {:induction false} SameStep(from: nat, addr: nat)
    ensures (addr - (from + 256)) % 4 == 0 <==> (addr - from) % 4 == 0
  {
    assert addr - from == addr - (from + 256) + 4 * 64;
  }

  lemma {:induction false} PagesReadable(y: Style, ps: seq<Page>, fs: seq<Info>, n: nat)
    requires PageFile(y, ps, fs) && n <= |ps|
    ensures AllReadable(fs, n) <==> forall k :: 0 < k < n ==> FollowsOn(ps[k - 1], ps[k])
  {
    if n > 0 {
      PagesReadable(y, ps, fs, n - 1);
      PageReadable(y, ps, fs, n - 1);
    }
  }

  /** A file of pages is read back if and only if its pages go forward in steps that a reader takes. */
  lemma {:induction false} PagesReadExactlyWhen(wanted: nat, y: Style, ps: seq<Page>, start: nat, count: nat)
    requires Flashable(y) && forall p :: p in ps ==> PageOk(p)
    ensures var bs := EncodeBlocks(y, ps, count); ReadBlocks(wanted, start, bs, |bs| / 512).Ok? <==> InOrder(ps)
  {
    var bs := EncodeBlocks(y, ps, count);
    FileSeen(y, ps, count, bs);
    PagesReadable(y, ps, Infos(bs), |ps|);
    ReadExactlyWhen(wanted, start, bs, |bs| / 512);
  }

  // ---------- The reader that its message describes ----------

  /** Reading with blocks of bad magic skipped, as the message says. */
  function ReadSkipping(wanted: nat, start: nat, fs: seq<Info>, n: nat): Result<Reader>
    requires n <= |fs|
  {
    if n == 0 then Ok(Reader(Error, Error, {}, [], start)) else
    match ReadSkipping(wanted, start, fs, n - 1)
    case Error => Error
    case Ok(d) => if fs[n - 1].BadMagic? then Ok(d) else ReadInfo(wanted, d, fs[n - 1], n == |fs|)
  }

  predicate AllMagic(fs: seq<Info>, n: nat)
    requires n <= |fs|
  {
    n == 0 || (AllMagic(fs, n - 1) && !fs[n - 1].BadMagic?)
  }

  lemma {:induction false} ReadableHasMagic(fs: seq<Info>, n: nat)
    requires n <= |fs| && AllReadable(fs, n)
    ensures AllMagic(fs, n)
  {
    if n > 0 { ReadableHasMagic(fs, n - 1); }
  }

  lemma {:induction false} SameWithMagic(wanted: nat, start: nat, fs: seq<Info>, n: nat)
    requires n <= |fs| && AllMagic(fs, n)
    ensures ReadInfos(wanted, start, fs, n) == ReadSkipping(wanted, start, fs, n)
  {
    if n > 0 { SameWithMagic(wanted, start, fs, n - 1); }
  }

  /**
   * Where skipping succeeds, the code gives the same result if and only if there was nothing to skip: a
   * single block with a bad magic number makes it raise an exception instead.
   */
  lemma {:induction false} SkipsOnlyWhatIsNotThere(wanted: nat, start: nat, bs: seq<byte>, n: nat)
    requires n <= |bs| / 512 && ReadSkipping(wanted, start, Infos(bs), n).Ok?
    ensures ReadBlocks(wanted, start, bs, n) == ReadSkipping(wanted, start, Infos(bs), n) <==> AllMagic(Infos(bs), n)
    ensures !AllMagic(Infos(bs), n) ==> ReadBlocks(wanted, start, bs, n).Error?
  {
    var fs := Infos(bs);
    ReadExactlyWhen(wanted, start, bs, n);
    BlocksSeen(wanted, start, bs, fs, n);
    if AllMagic(fs, n) { SameWithMagic(wanted, start, fs, n); }
    if AllReadable(fs, n) { ReadableHasMagic(fs, n); }
  }

  /** Such a file: one block of zeros. */
  lemma {:induction false} BadMagicRaises(bs: seq<byte>)
    requires bs == Zeros(512)
    ensures ReadBlocks(0, 0, bs, 1).Error? && ReadSkipping(0, 0, Infos(bs), 1) == Ok(Reader(Error, Error, {}, [], 0))
  {
    var b := BlockOf(bs, 0);
    assert b[0..4] == [0, 0, 0, 0];
    assert FromBytes([0, 0, 0, 0]) == 0;
    assert Infos(bs)[0].BadMagic?;
    SkipsOnlyWhatIsNotThere(0, 0, bs, 1);
  }
}
