/** What a mod-tap keycode means, through the compiler and the interpreter. */
module ModTap {
  import opened ActionCode
  import opened LayerMeaning
  import opened Events
  import SpeculativeHold

  predicate IsModTap(kc: bv16) { 0x2000 <= kc <= 0x3fff }

  /** The modifiers of a mod-tap keycode, on the hand its flag names. */
  ghost function HoldMods(kc: bv16): bv8 { HandMods(kc >> 8) }

  lemma {:induction false} ModTapFields(kc: bv16)
    requires IsModTap(kc)
    ensures var a := ActionForKeycode(kc);
            KindOf(a) == 2 + ((kc >> 12) & 1) && ModsOf(a) == (kc >> 8) & 0xf && LowByte(a) == kc & 0xff
  {
    assert ActionForKeycode(kc) == kc;
  }

  lemma {:induction false} ModTapMods(kc: bv16)
    requires IsModTap(kc)
    ensures var a := ActionForKeycode(kc); Mods8(a, KindOf(a) == ACT_RMODS_TAP) == HoldMods(kc)
  {
    ModTapFields(kc);
    SameHand(kc, ModsOf(ActionForKeycode(kc)));
  }

  lemma {:induction false} SameHand(kc: bv16, m: bv16)
    requires m == (kc >> 8) & 0xf
    ensures HoldMods(kc) == if (kc >> 12) & 1 == 1 then (m as bv8) << 4 else m as bv8
  {}

  /**
   * Held (count 0), a mod-tap key puts down and takes up exactly its modifiers; tapped, only its tap code.
   * Tap code 0 is a one-shot modifier, here with one-shot handling off, and applies its modifiers at any
   * count; tap code 1 is a toggle and compares the count with the toggle limit.
   */
  lemma {:induction false} ModTapApplied(w: Width, h: Host, kc: bv16, count: nat, toggle: nat)
    requires IsModTap(kc)
    ensures var m, code := HoldMods(kc), kc & 0xff;
            var down, up := Struck(w, h, kc, true, count, toggle), Struck(w, h, kc, false, count, toggle);
            if code == 0 then down == AddMods(h, m) && up == DelMods(h, m)
            else if code == 1 then
              down == (if count <= toggle then AddMods(h, m) else h) &&
              up == (if count < toggle then DelMods(h, m) else h)
            else if count == 0 then down == AddMods(h, m) && up == DelMods(h, m)
            else down == RegisterCode(h, code) && up == UnregisterCode(h, code)
  {
    ModTapAction(w, h, kc, true, count, toggle);
    ModTapAction(w, h, kc, false, count, toggle);
    ModsTapCases(h, HoldMods(kc), kc & 0xff, count, toggle);
  }

  lemma {:induction false} ModTapAction(w: Width, h: Host, kc: bv16, pressed: bool, count: nat, toggle: nat)
    requires IsModTap(kc)
    ensures Struck(w, h, kc, pressed, count, toggle) == ModsTap(h, HoldMods(kc), kc & 0xff, pressed, count, toggle)
  {
    ModTapFields(kc);
    ModTapMods(kc);
  }

  lemma {:induction false} ModsTapCases(h: Host, m: bv8, code: bv16, count: nat, toggle: nat)
    ensures var down, up := ModsTap(h, m, code, true, count, toggle), ModsTap(h, m, code, false, count, toggle);
            if code == 0 then down == AddMods(h, m) && up == DelMods(h, m)
            else if code == 1 then
              down == (if count <= toggle then AddMods(h, m) else h) &&
              up == (if count < toggle then DelMods(h, m) else h)
            else if count == 0 then down == AddMods(h, m) && up == DelMods(h, m)
            else down == RegisterCode(h, code) && up == UnregisterCode(h, code)
  {}

  lemma {:induction false} AddThenDelete(h: Host, m: bv8)
    requires h.mods == 0
    ensures DelMods(AddMods(h, m), m) == h && (AddMods(h, m) == h <==> m == 0)
  {}

  lemma {:induction false} TapThenRelease(h: Host, code: bv16)
    requires h.mods == 0
    ensures UnregisterCode(RegisterCode(h, code), code) == h
  {
    if IsModifier(code) { AddThenDelete(h, ModifierBit(code)); }
  }

  /**
   * Pressed and released at the same tap count with no modifier down, a mod-tap key leaves nothing behind,
   * except a toggle exactly at its limit.
   */
  lemma {:induction false} ModTapLeavesNothing(w: Width, h: Host, kc: bv16, count: nat, toggle: nat)
    requires IsModTap(kc) && h.mods == 0
    ensures Struck(w, Struck(w, h, kc, true, count, toggle), kc, false, count, toggle) == h <==>
            kc & 0xff != 1 || count != toggle || HoldMods(kc) == 0
  {
    ModTapApplied(w, h, kc, count, toggle);
    ModTapApplied(w, Struck(w, h, kc, true, count, toggle), kc, count, toggle);
    AddThenDelete(h, HoldMods(kc));
    TapThenRelease(h, kc & 0xff);
  }

  // ---------- The same modifiers, applied before the key is settled ----------

  function Bit(m: bv8, mask: bv8, i: nat): set<nat> { if m & mask != 0 then {i} else {} }

  /** The one bits of a modifier byte. */
  function Bits(m: bv8): set<nat> {
    Bit(m, 1, 0) + Bit(m, 2, 1) + Bit(m, 4, 2) + Bit(m, 8, 3)
    + Bit(m, 0x10, 4) + Bit(m, 0x20, 5) + Bit(m, 0x40, 6) + Bit(m, 0x80, 7)
  }

  lemma {:induction false} FourBits(kc: bv16, m: bv16)
    requires m == (kc >> 8) & 0xf
    ensures (m as bv8 & 1 != 0 <==> (kc >> 8) & 1 != 0) && (m as bv8 & 2 != 0 <==> (kc >> 8) & 2 != 0)
    ensures (m as bv8 & 4 != 0 <==> (kc >> 8) & 4 != 0) && (m as bv8 & 8 != 0 <==> (kc >> 8) & 8 != 0)
    ensures m as bv8 & 0xf0 == 0 && ((kc >> 12) & 1 == 1 <==> kc & 0x1000 != 0)
  {}

  lemma {:induction false} OneHand(m: bv8)
    requires m & 0xf0 == 0
    ensures Bits(m) == Bit(m, 1, 0) + Bit(m, 2, 1) + Bit(m, 4, 2) + Bit(m, 8, 3)
    ensures Bits(m << 4) == Bit(m, 1, 4) + Bit(m, 2, 5) + Bit(m, 4, 6) + Bit(m, 8, 7)
  {
    assert m & 0x10 == 0 && m & 0x20 == 0 && m & 0x40 == 0 && m & 0x80 == 0;
    ShiftedHand(m);
  }

  lemma {:induction false} ShiftedHand(m: bv8)
    requires m & 0xf0 == 0
    ensures (m << 4) & 1 == 0 && (m << 4) & 2 == 0 && (m << 4) & 4 == 0 && (m << 4) & 8 == 0
    ensures ((m << 4) & 0x10 != 0 <==> m & 1 != 0) && ((m << 4) & 0x20 != 0 <==> m & 2 != 0)
    ensures ((m << 4) & 0x40 != 0 <==> m & 4 != 0) && ((m << 4) & 0x80 != 0 <==> m & 8 != 0)
  {}

  /** Speculative hold applies exactly the modifiers that the key applies once it is settled as held. */
  lemma {:induction false} SpeculatesHoldMods(kc: bv16)
    requires IsModTap(kc)
    ensures SpeculativeHold.HoldBits(kc) == Bits(HoldMods(kc))
  {
    var m := (kc >> 8) & 0xf;
    SameHand(kc, m);
    FourBits(kc, m);
    OneHand(m as bv8);
  }

  /**
   * A press speculates exactly as far as it may: a mod-tap key outside the flow term, wanted by the callback, with
   * only speculated events waiting and room in the table, has all its modifiers in effect afterwards; any other
   * press changes nothing.
   */
  lemma {:induction false} SpeculatesExactlyWhen(s: SpeculativeHold.State, k: Key, kc: bv16, withinFlow: bool,
                                                 waiting: seq<bool>, wanted: bool, down: set<nat>, oneKey: bool)
    requires SpeculativeHold.Inv(s)
    ensures var may := && IsModTap(kc) && !withinFlow && wanted && false !in waiting
                       && |s.keys| < 8 && !(oneKey && down + s.mods != {}) && forall x :: x in s.keys ==> x.key != k;
            var s' := SpeculativeHold.Press(s, k, SpeculativeHold.Eligible(kc, withinFlow, waiting, wanted),
                                            SpeculativeHold.HoldBits(kc), down, oneKey);
            if may then Bits(HoldMods(kc)) <= down + s'.mods else s' == s
  {
    SpeculativeHold.PressApplies(s, k, SpeculativeHold.Eligible(kc, withinFlow, waiting, wanted),
                                 SpeculativeHold.HoldBits(kc), down, oneKey);
    if IsModTap(kc) { SpeculatesHoldMods(kc); }
    assert (forall x :: 0 <= x < |waiting| ==> waiting[x]) <==> false !in waiting;
  }
}
