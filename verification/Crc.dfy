/**
 * The two CRC-8 builds of quantum/crc.c. They use different polynomials, so they are
 * two different checksums.
 */
module Crc {

  const LOOP_POLYNOMIAL: bv8 := 0x31
  const TABLE_POLYNOMIAL: bv8 := 0x07
  const INITIAL: bv8 := 0xff

  /** One shift of the register. */
  function Shift(poly: bv8, c: bv8): bv8 {
    if c & 0x80 != 0 then (c << 1) ^ poly else c << 1
  }

  function Shifts(poly: bv8, c: bv8, n: nat): bv8 {
    if n == 0 then c else Shift(poly, Shifts(poly, c, n - 1))
  }

  /** Taking in one byte. */
  function Absorb(poly: bv8, c: bv8, d: bv8): bv8 {
    Shifts(poly, c ^ d, 8)
  }

  /** The checksum bit by bit. */
  function Checksum(poly: bv8, c: bv8, data: seq<bv8>): bv8
    decreases |data|
  {
    if data == [] then c else Checksum(poly, Absorb(poly, c, data[0]), data[1..])
  }

  // ---------- The loop build ----------

  method Crc8Loop(data: seq<bv8>) returns (crc: bv8)
    ensures crc == Checksum(LOOP_POLYNOMIAL, INITIAL, data)
  {
    crc := INITIAL;
    for i := 0 to |data|
      invariant Checksum(LOOP_POLYNOMIAL, crc, data[i..]) == Checksum(LOOP_POLYNOMIAL, INITIAL, data)
    {
      ghost var before := crc;
      assert data[i..][0] == data[i] && data[i..][1..] == data[i + 1..];
      crc := crc ^ data[i];
      for j := 0 to 8
        invariant crc == Shifts(LOOP_POLYNOMIAL, before ^ data[i], j)
      {
        if crc & 0x80 != 0 { crc := (crc << 1) ^ 0x31; } else { crc := crc << 1; }
      }
    }
  }

  // ---------- The table build ----------

  /** Entry `lo` of a row of sixteen. */
  function Pick(lo: bv8, e0: bv8, e1: bv8, e2: bv8, e3: bv8, e4: bv8, e5: bv8, e6: bv8, e7: bv8,
                e8: bv8, e9: bv8, e10: bv8, e11: bv8, e12: bv8, e13: bv8, e14: bv8, e15: bv8): bv8
  {
    if lo == 0 then e0 else if lo == 1 then e1 else if lo == 2 then e2 else if lo == 3 then e3
    else if lo == 4 then e4 else if lo == 5 then e5 else if lo == 6 then e6 else if lo == 7 then e7
    else if lo == 8 then e8 else if lo == 9 then e9 else if lo == 10 then e10 else if lo == 11 then e11
    else if lo == 12 then e12 else if lo == 13 then e13 else if lo == 14 then e14 else e15
  }

  /** Rows 0 to 3 of `crc_table`. */
  function Rows0(hi: bv8, lo: bv8): bv8 {
    if hi == 0 then Pick(lo, 0x00, 0x07, 0x0e, 0x09, 0x1c, 0x1b, 0x12, 0x15, 0x38, 0x3f, 0x36, 0x31, 0x24, 0x23,
                         0x2a, 0x2d)
    else if hi == 1 then Pick(lo, 0x70, 0x77, 0x7e, 0x79, 0x6c, 0x6b, 0x62, 0x65, 0x48, 0x4f, 0x46, 0x41, 0x54, 0x53,
                              0x5a, 0x5d)
    else if hi == 2 then Pick(lo, 0xe0, 0xe7, 0xee, 0xe9, 0xfc, 0xfb, 0xf2, 0xf5, 0xd8, 0xdf, 0xd6, 0xd1, 0xc4, 0xc3,
                              0xca, 0xcd)
    else Pick(lo, 0x90, 0x97, 0x9e, 0x99, 0x8c, 0x8b, 0x82, 0x85, 0xa8, 0xaf, 0xa6, 0xa1, 0xb4, 0xb3, 0xba, 0xbd)
  }

  /** Rows 4 to 7 of `crc_table`. */
  function Rows4(hi: bv8, lo: bv8): bv8 {
    if hi == 4 then Pick(lo, 0xc7, 0xc0, 0xc9, 0xce, 0xdb, 0xdc, 0xd5, 0xd2, 0xff, 0xf8, 0xf1, 0xf6, 0xe3, 0xe4,
                         0xed, 0xea)
    else if hi == 5 then Pick(lo, 0xb7, 0xb0, 0xb9, 0xbe, 0xab, 0xac, 0xa5, 0xa2, 0x8f, 0x88, 0x81, 0x86, 0x93, 0x94,
                              0x9d, 0x9a)
    else if hi == 6 then Pick(lo, 0x27, 0x20, 0x29, 0x2e, 0x3b, 0x3c, 0x35, 0x32, 0x1f, 0x18, 0x11, 0x16, 0x03, 0x04,
                              0x0d, 0x0a)
    else Pick(lo, 0x57, 0x50, 0x59, 0x5e, 0x4b, 0x4c, 0x45, 0x42, 0x6f, 0x68, 0x61, 0x66, 0x73, 0x74, 0x7d, 0x7a)
  }

  /** Rows 8 to 11 of `crc_table`. */
  function Rows8(hi: bv8, lo: bv8): bv8 {
    if hi == 8 then Pick(lo, 0x89, 0x8e, 0x87, 0x80, 0x95, 0x92, 0x9b, 0x9c, 0xb1, 0xb6, 0xbf, 0xb8, 0xad, 0xaa,
                         0xa3, 0xa4)
    else if hi == 9 then Pick(lo, 0xf9, 0xfe, 0xf7, 0xf0, 0xe5, 0xe2, 0xeb, 0xec, 0xc1, 0xc6, 0xcf, 0xc8, 0xdd, 0xda,
                              0xd3, 0xd4)
    else if hi == 10 then Pick(lo, 0x69, 0x6e, 0x67, 0x60, 0x75, 0x72, 0x7b, 0x7c, 0x51, 0x56, 0x5f, 0x58, 0x4d,
                               0x4a, 0x43, 0x44)
    else Pick(lo, 0x19, 0x1e, 0x17, 0x10, 0x05, 0x02, 0x0b, 0x0c, 0x21, 0x26, 0x2f, 0x28, 0x3d, 0x3a, 0x33, 0x34)
  }

  /** Rows 12 to 15 of `crc_table`. */
  function Rows12(hi: bv8, lo: bv8): bv8 {
    if hi == 12 then Pick(lo, 0x4e, 0x49, 0x40, 0x47, 0x52, 0x55, 0x5c, 0x5b, 0x76, 0x71, 0x78, 0x7f, 0x6a, 0x6d,
                          0x64, 0x63)
    else if hi == 13 then Pick(lo, 0x3e, 0x39, 0x30, 0x37, 0x22, 0x25, 0x2c, 0x2b, 0x06, 0x01, 0x08, 0x0f, 0x1a,
                               0x1d, 0x14, 0x13)
    else if hi == 14 then Pick(lo, 0xae, 0xa9, 0xa0, 0xa7, 0xb2, 0xb5, 0xbc, 0xbb, 0x96, 0x91, 0x98, 0x9f, 0x8a,
                               0x8d, 0x84, 0x83)
    else Pick(lo, 0xde, 0xd9, 0xd0, 0xd7, 0xc2, 0xc5, 0xcc, 0xcb, 0xe6, 0xe1, 0xe8, 0xef, 0xfa, 0xfd, 0xf4, 0xf3)
  }

  function Table(x: bv8): bv8 {
    var hi, lo := x >> 4, x & 0xf;
    if hi < 4 then Rows0(hi, lo) else if hi < 8 then Rows4(hi, lo)
      else if hi < 12 then Rows8(hi, lo) else Rows12(hi, lo)
  }

  method Crc8Table(data: seq<bv8>) returns (crc: bv8)
    ensures crc == Checksum(TABLE_POLYNOMIAL, INITIAL, data)
  {
    crc := INITIAL;
    for i := 0 to |data|
      invariant Checksum(TABLE_POLYNOMIAL, crc, data[i..]) == Checksum(TABLE_POLYNOMIAL, INITIAL, data)
    {
      assert data[i..][0] == data[i] && data[i..][1..] == data[i + 1..];
      TableIsEightShifts(crc ^ data[i]);
      crc := Table(crc ^ data[i]);
    }
  }

  /** Eight shifts written out. */
  function Eight(poly: bv8, c: bv8): bv8 {
    Shift(poly, Shift(poly, Shift(poly, Shift(poly, Shift(poly, Shift(poly, Shift(poly, Shift(poly, c))))))))
  }

  lemma {:induction false} EightIsShifts(poly: bv8, c: bv8)
    ensures Shifts(poly, c, 8) == Eight(poly, c)
  {
    assert Shifts(poly, c, 1) == Shift(poly, Shifts(poly, c, 0));
    assert Shifts(poly, c, 3) == Shift(poly, Shift(poly, Shifts(poly, c, 1)));
    assert Shifts(poly, c, 5) == Shift(poly, Shift(poly, Shifts(poly, c, 3)));
    assert Shifts(poly, c, 7) == Shift(poly, Shift(poly, Shifts(poly, c, 5)));
  }

  /** Eight shifts with polynomial 0x07 without a branch: multiply by x^2 + x + 1 and fold back the overflow. */
  function Folded(x: bv8): bv8 {
    var z := (x >> 7) ^ (x >> 6);
    x ^ (x << 1) ^ (x << 2) ^ z ^ (z << 1) ^ (z << 2)
  }

  lemma {:induction false} EightIsFolded(x: bv8)
    ensures Eight(TABLE_POLYNOMIAL, x) == Folded(x)
  {}

  lemma {:induction false} Quarter0(x: bv8)
    requires x >> 6 == 0
    ensures Rows0(x >> 4, x & 0xf) == Folded(x)
  {}

  lemma {:induction false} Quarter1(x: bv8)
    requires x >> 6 == 1
    ensures Rows4(x >> 4, x & 0xf) == Folded(x)
  {}

  lemma {:induction false} Quarter2(x: bv8)
    requires x >> 6 == 2
    ensures Rows8(x >> 4, x & 0xf) == Folded(x)
  {}

  lemma {:induction false} Quarter3(x: bv8)
    requires x >> 6 == 3
    ensures Rows12(x >> 4, x & 0xf) == Folded(x)
  {}

  /** Every entry of the table is what eight shifts make of its index. */
  lemma {:induction false} TableIsEightShifts(x: bv8)
    ensures Table(x) == Shifts(TABLE_POLYNOMIAL, x, 8)
  {
    EightIsShifts(TABLE_POLYNOMIAL, x);
    EightIsFolded(x);
    if x >> 6 == 0 { Quarter0(x); }
    else if x >> 6 == 1 { Quarter1(x); }
    else if x >> 6 == 2 { Quarter2(x); }
    else { Quarter3(x); }
  }

  lemma {:induction false} AbsorbIsEight(poly: bv8, c: bv8, d: bv8)
    ensures Absorb(poly, c, d) == Eight(poly, c ^ d)
  {
    EightIsShifts(poly, c ^ d);
  }

  /** The checksums of the bytes 0xbe 0xef, the usual test value, in the two builds. */
  lemma {:induction false} KnownChecksums()
    ensures Checksum(LOOP_POLYNOMIAL, INITIAL, [0xbe, 0xef]) == 0x92
    ensures Checksum(TABLE_POLYNOMIAL, INITIAL, [0xbe, 0xef]) == 0xcd
  {
    AbsorbIsEight(LOOP_POLYNOMIAL, INITIAL, 0xbe);
    AbsorbIsEight(TABLE_POLYNOMIAL, INITIAL, 0xbe);
    assert Absorb(LOOP_POLYNOMIAL, INITIAL, 0xbe) == 0x0c;
    assert Absorb(TABLE_POLYNOMIAL, INITIAL, 0xbe) == 0xc0;
    AbsorbIsEight(LOOP_POLYNOMIAL, 0x0c, 0xef);
    AbsorbIsEight(TABLE_POLYNOMIAL, 0xc0, 0xef);
    assert [0xbe, 0xef][1..] == [0xef];
    assert Checksum(LOOP_POLYNOMIAL, 0x0c, [0xef]) == 0x92;
    assert Checksum(TABLE_POLYNOMIAL, 0xc0, [0xef]) == 0xcd;
  }

  // ---------- Error detection ----------

  predicate Odd(poly: bv8) { poly & 1 == 1 }

  lemma {:induction false} ShiftInjective(poly: bv8, u: bv8, v: bv8)
    requires Odd(poly) && u != v
    ensures Shift(poly, u) != Shift(poly, v)
  {}

  lemma {:induction false} ShiftsInjective(poly: bv8, u: bv8, v: bv8, n: nat)
    requires Odd(poly) && u != v
    ensures Shifts(poly, u, n) != Shifts(poly, v, n)
  {
    if n > 0 {
      ShiftsInjective(poly, u, v, n - 1);
      ShiftInjective(poly, Shifts(poly, u, n - 1), Shifts(poly, v, n - 1));
    }
  }

  /** Shifting loses nothing exactly for the odd polynomials, to which those of both builds belong. */
  lemma {:induction false} OddLosesNothing(poly: bv8)
    ensures Odd(poly) <==> forall u, v :: u != v ==> Shift(poly, u) != Shift(poly, v)
    ensures Odd(LOOP_POLYNOMIAL) && Odd(TABLE_POLYNOMIAL)
  {
    if Odd(poly) {
      forall u: bv8, v: bv8 | u != v ensures Shift(poly, u) != Shift(poly, v) { ShiftInjective(poly, u, v); }
    } else {
      assert Shift(poly, 0x80 | (poly >> 1)) == Shift(poly, 0);
    }
  }

  /** `w` is the difference of `u` and `v`. */
  predicate Differ(u: bv8, v: bv8, w: bv8) { w == u ^ v }

  /** One shift without a branch. */
  function Flat(poly: bv8, c: bv8): bv8 { (c << 1) ^ (poly & (0 - (c >> 7))) }

  lemma {:induction false} ShiftIsFlat(poly: bv8, c: bv8)
    ensures Shift(poly, c) == Flat(poly, c)
  {}

  lemma {:induction false} FlatDiffers(poly: bv8, u: bv8, v: bv8, w: bv8)
    requires Differ(u, v, w)
    ensures Differ(Flat(poly, u), Flat(poly, v), Flat(poly, w))
  {}

  lemma {:induction false} ShiftDiffers(poly: bv8, u: bv8, v: bv8, w: bv8)
    requires Differ(u, v, w)
    ensures Differ(Shift(poly, u), Shift(poly, v), Shift(poly, w))
  {
    FlatDiffers(poly, u, v, w);
    ShiftIsFlat(poly, u);
    ShiftIsFlat(poly, v);
    ShiftIsFlat(poly, w);
  }

  /** Shifting is linear: differences are shifted along. */
  lemma {:induction false} ShiftsDiffer(poly: bv8, u: bv8, v: bv8, w: bv8, n: nat)
    requires Differ(u, v, w)
    ensures Differ(Shifts(poly, u, n), Shifts(poly, v, n), Shifts(poly, w, n))
  {
    if n > 0 {
      ShiftsDiffer(poly, u, v, w, n - 1);
      ShiftDiffers(poly, Shifts(poly, u, n - 1), Shifts(poly, v, n - 1), Shifts(poly, w, n - 1));
    }
  }

  lemma {:induction false} SameRegister(c: bv8, d: bv8, d': bv8)
    ensures Differ(c ^ d, c ^ d', d ^ d') && (d != d' ==> c ^ d != c ^ d' && d ^ c != d' ^ c)
  {}

  /** Taking in a byte is injective in the register and in the byte. */
  lemma {:induction false} AbsorbInjective(poly: bv8, c: bv8, c': bv8, d: bv8, d': bv8)
    requires Odd(poly) && c ^ d != c' ^ d'
    ensures Absorb(poly, c, d) != Absorb(poly, c', d')
  {
    ShiftsInjective(poly, c ^ d, c' ^ d', 8);
  }

  /** Different registers stay different whatever follows. */
  lemma {:induction false} DifferenceLasts(poly: bv8, c: bv8, c': bv8, data: seq<bv8>)
    requires Odd(poly) && c != c'
    ensures Checksum(poly, c, data) != Checksum(poly, c', data)
    decreases |data|
  {
    if data != [] {
      SameRegister(data[0], c, c');
      AbsorbInjective(poly, c, c', data[0], data[0]);
      DifferenceLasts(poly, Absorb(poly, c, data[0]), Absorb(poly, c', data[0]), data[1..]);
    }
  }

  lemma {:induction false} ChecksumConcat(poly: bv8, c: bv8, a: seq<bv8>, b: seq<bv8>)
    ensures Checksum(poly, c, a + b) == Checksum(poly, Checksum(poly, c, a), b)
    decreases |a|
  {
    if a == [] {
      assert a + b == b;
    } else {
      assert (a + b)[1..] == a[1..] + b;
      ChecksumConcat(poly, Absorb(poly, c, a[0]), a[1..], b);
    }
  }

  /** Replacing one byte by a different one always changes the checksum, in either build. */
  lemma {:induction false} SingleByteDetected(poly: bv8, before: seq<bv8>, d: bv8, d': bv8, after: seq<bv8>)
    requires Odd(poly) && d != d'
    ensures Checksum(poly, INITIAL, before + ([d] + after)) != Checksum(poly, INITIAL, before + ([d'] + after))
  {
    var c := Checksum(poly, INITIAL, before);
    ChecksumConcat(poly, INITIAL, before, [d] + after);
    ChecksumConcat(poly, INITIAL, before, [d'] + after);
    SameRegister(c, d, d');
    AbsorbInjective(poly, c, c, d, d');
    assert ([d] + after)[1..] == after && ([d'] + after)[1..] == after;
    DifferenceLasts(poly, Absorb(poly, c, d), Absorb(poly, c, d'), after);
  }

  /** Low `k` bits, for `k` from 0 to 8. */
  predicate LowMask(m: bv8) {
    m == 0 || m == 1 || m == 3 || m == 7 || m == 15 || m == 31 || m == 63 || m == 127 || m == 255
  }

  lemma {:induction false} BurstDoesNotCancel(poly: bv8, m: bv8, e: bv8, f: bv8)
    requires Odd(poly) && LowMask(m) && e & !m == 0 && f & m == 0 && (e != 0 || f != 0)
    ensures Shifts(poly, e, 8) != f
  {
    EightIsShifts(poly, e);
    EightDoesNotCancel(poly, m, e, f);
  }

  lemma {:induction false} EightDoesNotCancel(poly: bv8, m: bv8, e: bv8, f: bv8)
    requires Odd(poly) && LowMask(m) && e & !m == 0 && f & m == 0 && (e != 0 || f != 0)
    ensures Eight(poly, e) != f
  {}

  /**
   * A burst of at most eight flipped bits that runs from the low bits of one byte into the high
   * bits of the next always changes the checksum.
   */
  lemma {:induction false} BurstDetected(poly: bv8, before: seq<bv8>, a: bv8, b: bv8, a': bv8, b': bv8, m: bv8,
                                         after: seq<bv8>)
    requires Odd(poly) && LowMask(m) && (a ^ a') & !m == 0 && (b ^ b') & m == 0 && (a ^ a' != 0 || b ^ b' != 0)
    ensures Checksum(poly, INITIAL, before + ([a, b] + after)) !=
            Checksum(poly, INITIAL, before + ([a', b'] + after))
  {
    var c := Checksum(poly, INITIAL, before);
    ChecksumConcat(poly, INITIAL, before, [a, b] + after);
    ChecksumConcat(poly, INITIAL, before, [a', b'] + after);
    TwoBytes(poly, c, a, b, after);
    TwoBytes(poly, c, a', b', after);
    AbsorbDiffers(poly, c, a, a');
    BurstDoesNotCancel(poly, m, a ^ a', b ^ b');
    BurstStays(poly, Absorb(poly, c, a), Absorb(poly, c, a'), b, b', Shifts(poly, a ^ a', 8), after);
  }

  lemma {:induction false} AbsorbDiffers(poly: bv8, c: bv8, a: bv8, a': bv8)
    ensures Differ(Absorb(poly, c, a), Absorb(poly, c, a'), Shifts(poly, a ^ a', 8))
  {
    SameRegister(c, a, a');
    ShiftsDiffer(poly, c ^ a, c ^ a', a ^ a', 8);
  }

  /** A difference that the next bytes do not cancel stays. */
  lemma {:induction false} BurstStays(poly: bv8, x: bv8, x': bv8, b: bv8, b': bv8, w: bv8, after: seq<bv8>)
    requires Odd(poly) && Differ(x, x', w) && w != b ^ b'
    ensures Checksum(poly, Absorb(poly, x, b), after) != Checksum(poly, Absorb(poly, x', b'), after)
  {
    CrossXor(x, x', b, b');
    AbsorbInjective(poly, x, x', b, b');
    DifferenceLasts(poly, Absorb(poly, x, b), Absorb(poly, x', b'), after);
  }

  lemma {:induction false} CrossXor(x: bv8, x': bv8, b: bv8, b': bv8)
    requires x ^ x' != b ^ b'
    ensures x ^ b != x' ^ b'
  {}

  lemma {:induction false} TwoBytes(poly: bv8, c: bv8, a: bv8, b: bv8, after: seq<bv8>)
    ensures Checksum(poly, c, [a, b] + after) ==
            Checksum(poly, Absorb(poly, Absorb(poly, c, a), b), after)
  {}
}
