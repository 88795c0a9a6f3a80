/**
 * Paged writes of drivers/eeprom/eeprom_spi.c and eeprom_i2c.c against a device whose page writes wrap
 * around inside the page.
 */
module Eeprom {
  import opened Bytes

  // ---------- The device ----------

  /** `data` written at `addr` in a flat memory. */
  function Splice(mem: seq<byte>, addr: nat, data: seq<byte>): (m: seq<byte>)
    requires addr + |data| <= |mem|
    ensures |m| == |mem|
    ensures forall i :: 0 <= i < |mem| ==> m[i] == if addr <= i < addr + |data| then data[i - addr] else mem[i]
  {
    mem[..addr] + data + mem[addr + |data|..]
  }

  ghost predicate Geometry(size: nat, page: nat, width: nat) {
    page > 0 && size % page == 0 && size <= Pow256(width)
  }

  /** Where byte `j` of a write at `addr` lands: the offset wraps inside the page. */
  function Target(page: nat, addr: nat, j: nat): nat
    requires page > 0
  {
    addr - addr % page + (addr % page + j) % page
  }

  /** The device's own write. */
  function PageWrite(mem: seq<byte>, page: nat, addr: nat, data: seq<byte>): (m: seq<byte>)
    requires page > 0 && |mem| % page == 0 && addr < |mem|
    ensures |m| == |mem|
    decreases |data|
  {
    if data == [] then mem else
    var n := |data| - 1;
    var m := PageWrite(mem, page, addr, data[..n]);
    TargetInside(|mem|, page, addr, n);
    m[Target(page, addr, n) := data[n]]
  }

  lemma {:induction false} MulAtLeast(k: nat, p: nat)
    requires k >= 1
    ensures k * p >= p
  {}

  lemma {:induction false} MulGap(a: int, b: int, p: nat)
    ensures a > b ==> a * p >= b * p + p
    ensures a < b ==> a * p + p <= b * p
  {
    if a > b {
      MulAtLeast(a - b, p);
      assert a * p == b * p + (a - b) * p;
    }
    if a < b {
      MulAtLeast(b - a, p);
      assert b * p == a * p + (b - a) * p;
    }
  }

  lemma {:induction false} TargetInside(size: nat, page: nat, addr: nat, j: nat)
    requires page > 0 && size % page == 0 && addr < size
    ensures Target(page, addr, j) < size
  {
    var q, s := addr / page, size / page;
    assert addr == q * page + addr % page && size == s * page;
    MulGap(q, s, page);
  }

  lemma {:induction false} TargetInPage(page: nat, addr: nat, j: nat)
    requires page > 0 && addr % page + j < page
    ensures Target(page, addr, j) == addr + j
  {}

  /** A write that stays inside its page is a flat write. */
  lemma {:induction false} PageWriteIsSplice(mem: seq<byte>, page: nat, addr: nat, data: seq<byte>)
    requires page > 0 && |mem| % page == 0 && addr < |mem| && addr % page + |data| <= page
    ensures addr + |data| <= |mem| && PageWrite(mem, page, addr, data) == Splice(mem, addr, data)
    decreases |data|
  {
    if data != [] {
      var n := |data| - 1;
      PageWriteIsSplice(mem, page, addr, data[..n]);
      TargetInside(|mem|, page, addr, n);
      TargetInPage(page, addr, n);
    }
  }

  // ---------- Addresses on the wire ----------

  function Reverse(bs: seq<byte>): (r: seq<byte>)
    ensures |r| == |bs| && forall i :: 0 <= i < |bs| ==> r[i] == bs[|bs| - 1 - i]
  {
    seq(|bs|, i requires 0 <= i < |bs| => bs[|bs| - 1 - i])
  }

  /** How the device reads an address: most significant byte first. */
  function AddressOf(bs: seq<byte>): nat {
    FromBytes(Reverse(bs))
  }

  lemma {:induction false} AddressRoundTrip(addr: nat, width: nat)
    requires addr < Pow256(width)
    ensures AddressOf(Reverse(ToBytes(addr, width))) == addr
  {
    assert Reverse(Reverse(ToBytes(addr, width))) == ToBytes(addr, width);
    BytesRoundTrip(addr, width);
  }

  /** `fill_target_address`, and the loop of `spi_eeprom_transmit_address`. */
  method FillAddress(buffer: array<byte>, width: nat, addr: nat)
    requires width <= buffer.Length
    modifies buffer
    ensures buffer[..width] == Reverse(ToBytes(addr, width))
    ensures forall i :: width <= i < buffer.Length ==> buffer[i] == old(buffer[i])
  {
    var a := addr;
    ghost var bs := ToBytes(addr, width);
    for i := 0 to width
      invariant ToBytes(a, width - i) == bs[i..]
      invariant forall j :: 0 <= j < i ==> buffer[width - 1 - j] == bs[j]
      invariant forall j :: width <= j < buffer.Length ==> buffer[j] == old(buffer[j])
    {
      assert bs[i..][0] == bs[i] && bs[i..][1..] == bs[i + 1..];
      assert ToBytes(a, width - i)[0] == a % 256 && ToBytes(a, width - i)[1..] == ToBytes(a / 256, width - i - 1);
      buffer[width - 1 - i] := a % 256;
      a := a / 256;
    }
  }

  // ---------- Chunks ----------

  function ChunkLength(page: nat, addr: nat, len: nat): (c: nat)
    requires page > 0
    ensures len > 0 ==> 0 < c <= len
    ensures addr % page + c <= page
  {
    var room := page - addr % page;
    if room > len then len else room
  }

  /** Where an SPI transfer can be given up, chunk by chunk. */
  datatype Fault = NoFault | WhileBusy | BeforeEnable | BeforeWrite

  /** What happens to the first transfers; later ones succeed. */
  type Bus = seq<Fault>

  function FaultAt(bus: Bus, k: nat): Fault {
    if k < |bus| then bus[k] else NoFault
  }

  /** How many bytes get written, from chunk `k` on. */
  function Progress(page: nat, addr: nat, len: nat, bus: Bus, k: nat): (n: nat)
    requires page > 0
    ensures n <= len
    decreases len
  {
    if len == 0 || FaultAt(bus, k) != NoFault then 0 else
    var c := ChunkLength(page, addr, len);
    c + Progress(page, addr + c, len - c, bus, k + 1)
  }

  /** An early return leaves a prefix that is empty or ends at a page boundary. */
  lemma {:induction false} ProgressStopsAtBoundary(page: nat, addr: nat, len: nat, bus: Bus, k: nat)
    requires page > 0
    ensures var n := Progress(page, addr, len, bus, k); n == 0 || n == len || (addr + n) % page == 0
    decreases len
  {
    if len > 0 && FaultAt(bus, k) == NoFault {
      var c := ChunkLength(page, addr, len);
      ProgressStopsAtBoundary(page, addr + c, len - c, bus, k + 1);
      if c < len { PageEnd(page, addr); }
    }
  }

  lemma {:induction false} PageEnd(page: nat, addr: nat)
    requires page > 0
    ensures (addr + (page - addr % page)) % page == 0
  {
    var q := addr / page;
    assert addr + (page - addr % page) == (q + 1) * page;
    MultipleOfPage(page, q + 1);
  }

  lemma {:induction false} MultipleOfPage(page: nat, q: nat)
    requires page > 0
    ensures q * page % page == 0
  {
    var m := q * page;
    assert m == m / page * page + m % page;
    MulGap(q, m / page, page);
  }

  /** Without faults everything is written. */
  lemma {:induction false} ProgressComplete(page: nat, addr: nat, len: nat, bus: Bus, k: nat)
    requires page > 0 && forall i: nat :: FaultAt(bus, i) == NoFault
    ensures Progress(page, addr, len, bus, k) == len
    decreases len
  {
    if len > 0 {
      var c := ChunkLength(page, addr, len);
      ProgressComplete(page, addr + c, len - c, bus, k + 1);
    }
  }

  // ---------- The SPI device and driver ----------

  /** The memory behind the bus, with its write-enable latch. */
  class SpiDevice {
    var mem: seq<byte>
    var enabled: bool
    const page: nat
    const width: nat

    constructor (mem: seq<byte>, page: nat, width: nat)
      requires Geometry(|mem|, page, width)
      ensures this.mem == mem && this.page == page && this.width == width && !enabled
    {
      this.mem, this.page, this.width, enabled := mem, page, width, false;
    }

    ghost predicate Valid()
      reads this
    {
      Geometry(|mem|, page, width)
    }

    method WriteEnable()
      modifies this`enabled
      ensures enabled
    {
      enabled := true;
    }

    method WriteDisable()
      modifies this`enabled
      ensures !enabled
    {
      enabled := false;
    }

    /** A write command; it is ignored unless enabled, and using it up disables writing. */
    method Write(address: seq<byte>, data: seq<byte>)
      requires Valid() && AddressOf(address) < |mem|
      modifies this
      ensures Valid() && |mem| == |old(mem)| && !enabled
      ensures mem == if old(enabled) then PageWrite(old(mem), page, AddressOf(address), data) else old(mem)
    {
      if enabled { mem := PageWrite(mem, page, AddressOf(address), data); }
      enabled := false;
    }
  }

  /** One enabled write that does not leave its page. */
  method WriteInside(dev: SpiDevice, address: seq<byte>, at: nat, data: seq<byte>)
    requires dev.Valid() && dev.enabled && AddressOf(address) == at < |dev.mem|
    requires at % dev.page + |data| <= dev.page
    modifies dev
    ensures dev.Valid() && at + |data| <= |old(dev.mem)| && dev.mem == Splice(old(dev.mem), at, data)
  {
    PageWriteIsSplice(dev.mem, dev.page, at, data);
    dev.Write(address, data);
  }

  lemma {:induction false} SpliceNothing(mem: seq<byte>, addr: nat)
    requires addr <= |mem|
    ensures Splice(mem, addr, []) == mem
  {}

  /** One turn of the loop: the chunk that fits in the page, or nothing when the bus gives up. */
  method WriteChunk(dev: SpiDevice, at: nat, rest: seq<byte>, fault: Fault) returns (n: nat)
    requires dev.Valid() && |rest| > 0 && at + |rest| <= |dev.mem|
    modifies dev
    ensures dev.Valid() && |dev.mem| == |old(dev.mem)|
    ensures n == if fault == NoFault then ChunkLength(dev.page, at, |rest|) else 0
    ensures dev.mem == Splice(old(dev.mem), at, rest[..n])
  {
    var offset := at % dev.page;
    var length := dev.page - offset;
    if length > |rest| { length := |rest|; }
    SpliceNothing(dev.mem, at);
    if fault == WhileBusy || fault == BeforeEnable { return 0; }
    dev.WriteEnable();
    if fault == BeforeWrite { return 0; }
    var buffer := new byte[dev.width];
    FillAddress(buffer, dev.width, at);
    AddressRoundTrip(at, dev.width);
    assert buffer[..] == buffer[..dev.width];
    WriteInside(dev, buffer[..], at, rest[..length]);
    return length;
  }

  lemma {:induction false} NextChunk(mem: seq<byte>, addr: nat, buf: seq<byte>, done: nat, n: nat)
    requires done + n <= |buf| && addr + |buf| <= |mem|
    ensures Splice(Splice(mem, addr, buf[..done]), addr + done, buf[done..][..n]) == Splice(mem, addr, buf[..done + n])
  {}

  /** What a transfer of `len` bytes has reached in the end, seen when `done` bytes are written. */
  function Reached(page: nat, addr: nat, len: nat, bus: Bus, done: nat, k: nat): nat
    requires page > 0 && done <= len
  {
    done + Progress(page, addr + done, len - done, bus, k)
  }

  lemma {:induction false} ReachedStep(page: nat, addr: nat, len: nat, bus: Bus, done: nat, k: nat, n: nat)
    requires page > 0 && done < len
    requires n == if FaultAt(bus, k) == NoFault then ChunkLength(page, addr + done, len - done) else 0
    ensures Reached(page, addr, len, bus, done, k) ==
            if n == 0 then done else Reached(page, addr, len, bus, done + n, k + 1)
  {
    assert addr + done + n == addr + (done + n) && len - done - n == len - (done + n);
  }

  /** The same turn, seen from the start of the transfer. */
  method WriteNext(dev: SpiDevice, buf: seq<byte>, addr: nat, done: nat, bus: Bus, k: nat, ghost mem0: seq<byte>)
    returns (n: nat)
    requires dev.Valid() && |dev.mem| == |mem0| && done < |buf| && addr + |buf| <= |mem0|
    requires dev.mem == Splice(mem0, addr, buf[..done])
    modifies dev
    ensures dev.Valid() && |dev.mem| == |mem0| && done + n <= |buf|
    ensures Reached(dev.page, addr, |buf|, bus, done, k) ==
            if n == 0 then done else Reached(dev.page, addr, |buf|, bus, done + n, k + 1)
    ensures dev.mem == Splice(mem0, addr, buf[..done + n])
  {
    n := WriteChunk(dev, addr + done, buf[done..], FaultAt(bus, k));
    NextChunk(mem0, addr, buf, done, n);
    ReachedStep(dev.page, addr, |buf|, bus, done, k, n);
  }

  /**
   * `eeprom_write_block` over SPI: the memory ends up as a flat write of the part that `Progress` gives,
   * which is everything when the bus never fails.
   */
  method SpiWriteBlock(dev: SpiDevice, buf: seq<byte>, addr: nat, bus: Bus, disable: bool)
    requires dev.Valid() && addr + |buf| <= |dev.mem|
    modifies dev
    ensures dev.Valid() && |dev.mem| == |old(dev.mem)|
    ensures dev.mem == Splice(old(dev.mem), addr, buf[..Progress(dev.page, addr, |buf|, bus, 0)])
  {
    var done, k := 0, 0;
    ghost var mem0, total := dev.mem, Progress(dev.page, addr, |buf|, bus, 0);
    SpliceNothing(mem0, addr);
    while done < |buf|
      invariant dev.Valid() && |dev.mem| == |mem0| && done <= |buf|
      invariant dev.mem == Splice(mem0, addr, buf[..done])
      invariant total == Reached(dev.page, addr, |buf|, bus, done, k)
    {
      var n := WriteNext(dev, buf, addr, done, bus, k, mem0);
      if n == 0 { return; }
      done, k := done + n, k + 1;
    }
    assert done == |buf| && total == done;
    if disable { dev.WriteDisable(); }
  }

  // ---------- The I2C device and driver ----------

  /** A memory that takes one packet at a time: the address, then the data. */
  class I2cDevice {
    var mem: seq<byte>
    const page: nat
    const width: nat

    constructor (mem: seq<byte>, page: nat, width: nat)
      requires Geometry(|mem|, page, width)
      ensures this.mem == mem && this.page == page && this.width == width
    {
      this.mem, this.page, this.width := mem, page, width;
    }

    ghost predicate Valid()
      reads this
    {
      Geometry(|mem|, page, width)
    }

    method Transmit(packet: seq<byte>)
      requires Valid() && |packet| >= width && AddressOf(packet[..width]) < |mem|
      modifies this
      ensures Valid() && |mem| == |old(mem)|
      ensures mem == PageWrite(old(mem), page, AddressOf(packet[..width]), packet[width..])
    {
      mem := PageWrite(mem, page, AddressOf(packet[..width]), packet[width..]);
    }
  }

  /** The counter of the copy loop, an 8-bit variable, after `turns` turns. */
  function CopyIndex(turns: nat): nat {
    turns % 256
  }

  /** The copy loop is left if and only if the chunk is shorter than 256 bytes. */
  lemma {:induction false} CopyLoopEnds(length: nat)
    ensures (exists turns: nat :: CopyIndex(turns) >= length) <==> length < 256
  {
    if length < 256 { assert CopyIndex(length) >= length; }
  }

  /** Every chunk of the write is short enough for the copy loop. */
  predicate ChunksShort(page: nat, addr: nat, len: nat)
    requires page > 0
    decreases len
  {
    len == 0 ||
    var c := ChunkLength(page, addr, len);
    c < 256 && ChunksShort(page, addr + c, len - c)
  }

  /** A page below 256 bytes is enough for that. */
  lemma {:induction false} SmallPagesSuffice(page: nat, addr: nat, len: nat)
    requires 0 < page < 256
    ensures ChunksShort(page, addr, len)
    decreases len
  {
    if len > 0 {
      var c := ChunkLength(page, addr, len);
      SmallPagesSuffice(page, addr + c, len - c);
    }
  }

  /** The packet of one chunk: address, data, and whatever the buffer still held behind them. */
  method FillPacket(packet: array<byte>, width: nat, at: nat, data: seq<byte>)
    requires width + |data| <= packet.Length && |data| < 256
    modifies packet
    ensures packet[..width] == Reverse(ToBytes(at, width))
    ensures packet[width..width + |data|] == data
  {
    FillAddress(packet, width, at);
    ghost var address := packet[..width];
    var i, turns := 0, 0;
    while i < |data|
      invariant i == turns == CopyIndex(turns) && i <= |data|
      invariant packet[..width] == address
      invariant packet[width..width + i] == data[..i]
    {
      packet[width + i] := data[i];
      turns := turns + 1;
      i := CopyIndex(turns);
    }
  }

  lemma {:induction false} PacketParts(packet: seq<byte>, width: nat, n: nat)
    requires width + n <= |packet|
    ensures packet[..width + n][..width] == packet[..width] && packet[..width + n][width..] == packet[width..width + n]
  {}

  /** One turn of the loop: the chunk that fits in the page. */
  method SendChunk(dev: I2cDevice, packet: array<byte>, at: nat, rest: seq<byte>) returns (n: nat)
    requires dev.Valid() && packet.Length == dev.width + dev.page
    requires |rest| > 0 && at + |rest| <= |dev.mem| && ChunkLength(dev.page, at, |rest|) < 256
    modifies dev, packet
    ensures dev.Valid() && |dev.mem| == |old(dev.mem)|
    ensures n == ChunkLength(dev.page, at, |rest|)
    ensures dev.mem == Splice(old(dev.mem), at, rest[..n])
  {
    n := dev.page - at % dev.page;
    if n > |rest| { n := |rest|; }
    FillPacket(packet, dev.width, at, rest[..n]);
    AddressRoundTrip(at, dev.width);
    PacketParts(packet[..], dev.width, n);
    PageWriteIsSplice(dev.mem, dev.page, at, rest[..n]);
    dev.Transmit(packet[..dev.width + n]);
  }

  lemma {:induction false} ShortAfter(page: nat, addr: nat, len: nat, done: nat, n: nat)
    requires page > 0 && done < len && n == ChunkLength(page, addr + done, len - done)
    requires ChunksShort(page, addr + done, len - done)
    ensures n < 256 && ChunksShort(page, addr + (done + n), len - (done + n))
  {
    assert addr + done + n == addr + (done + n) && len - done - n == len - (done + n);
  }

  /** The same turn, seen from the start of the transfer. */
  method SendNext(dev: I2cDevice, packet: array<byte>, buf: seq<byte>, addr: nat, done: nat, ghost mem0: seq<byte>)
    returns (n: nat)
    requires dev.Valid() && packet.Length == dev.width + dev.page && |dev.mem| == |mem0|
    requires done < |buf| && addr + |buf| <= |mem0| && dev.mem == Splice(mem0, addr, buf[..done])
    requires ChunksShort(dev.page, addr + done, |buf| - done)
    modifies dev, packet
    ensures dev.Valid() && |dev.mem| == |mem0| && 0 < n && done + n <= |buf|
    ensures ChunksShort(dev.page, addr + (done + n), |buf| - (done + n))
    ensures dev.mem == Splice(mem0, addr, buf[..done + n])
  {
    ShortAfter(dev.page, addr, |buf|, done, ChunkLength(dev.page, addr + done, |buf| - done));
    n := SendChunk(dev, packet, addr + done, buf[done..]);
    NextChunk(mem0, addr, buf, done, n);
  }

  /** `eeprom_write_block` over I2C is a flat write of the whole buffer. */
  method I2cWriteBlock(dev: I2cDevice, buf: seq<byte>, addr: nat)
    requires dev.Valid() && addr + |buf| <= |dev.mem| && ChunksShort(dev.page, addr, |buf|)
    modifies dev
    ensures dev.Valid() && |dev.mem| == |old(dev.mem)|
    ensures dev.mem == Splice(old(dev.mem), addr, buf)
  {
    var packet := new byte[dev.width + dev.page];
    var done := 0;
    ghost var mem0 := dev.mem;
    SpliceNothing(mem0, addr);
    while done < |buf|
      invariant dev.Valid() && |dev.mem| == |mem0| && done <= |buf|
      invariant dev.mem == Splice(mem0, addr, buf[..done])
      invariant ChunksShort(dev.page, addr + done, |buf| - done)
    {
      var n := SendNext(dev, packet, buf, addr, done, mem0);
      done := done + n;
    }
    assert buf[..done] == buf;
  }
}
