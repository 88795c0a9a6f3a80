/**
 * Every 16-bit keycode: what the compiler of quantum/keymap_common.c makes of it, what the key then does to the
 * modifiers, which keys are tap-hold keys and whose release is kept back.
 */
module Keycodes {
  import opened ActionCode
  import opened LayerMeaning
  import opened ModTap

  // ---------- The ranges ----------

  /** Letters, digits and all other keys of the HID keyboard page, and the eight modifiers. */
  predicate IsBasic(kc: bv16) { 0x04 <= kc <= 0xa4 || IsModifier(kc) }
  predicate IsMouse(kc: bv16) { 0xcd <= kc <= 0xdf }
  predicate IsModified(kc: bv16) { 0x0100 <= kc <= 0x1fff }
  predicate IsLayerTap(kc: bv16) { 0x4000 <= kc <= 0x4fff }
  predicate IsLayerMod(kc: bv16) { 0x5000 <= kc <= 0x51ff }
  /** TO, MO, DF, TG, OSL, OSM and TT, 32 keycodes each. */
  predicate IsLayerKey(kc: bv16) { 0x5200 <= kc <= 0x52df }
  predicate IsSwapHands(kc: bv16) { 0x5600 <= kc <= 0x56ff }

  /** The one-shot modifier keycode `OSM(mod)`. */
  function OSM(mod: bv16): bv16 { 0x52a0 | (mod & 0x1f) }

  predicate IsOneShotMod(kc: bv16) { 0x52a0 <= kc <= 0x52bf }

  predicate IsNothing(kc: bv16) {
    !(IsBasic(kc) || IsMouse(kc) || kc == 1 || IsModified(kc) || IsModTap(kc) || IsLayerTap(kc) || IsLayerMod(kc)
      || IsLayerKey(kc) || IsSwapHands(kc))
  }

  // ---------- What each range compiles to ----------

  /** A key action with no modifiers and that very code. */
  lemma {:induction false} BasicCompiled(kc: bv16)
    requires IsBasic(kc)
    ensures var a := ActionForKeycode(kc); KindOf(a) == ACT_LMODS && ModsOf(a) == 0 && LowByte(a) == kc
  {
    assert ActionForKeycode(kc) == kc;
  }

  lemma {:induction false} MouseCompiled(kc: bv16)
    requires IsMouse(kc)
    ensures var a := ActionForKeycode(kc); KindOf(a) == ACT_MOUSEKEY && LowByte(a) == kc
  {}

  /** No action, also for the ranges of features that are not built in. */
  lemma {:induction false} NothingCompiled(kc: bv16)
    requires IsNothing(kc)
    ensures ActionForKeycode(kc) == 0
  {}

  lemma {:induction false} LayerTapCompiled(kc: bv16)
    requires IsLayerTap(kc)
    ensures var a := ActionForKeycode(kc);
            ACT_LAYER_TAP <= KindOf(a) <= ACT_LAYER_TAP_EXT && LayerOf(a) == (kc >> 8) & 0xf && LowByte(a) == kc & 0xff
  {
    LayerTapDecodes((kc >> 8) & 0xf, kc & 0xff);
  }

  lemma {:induction false} OneShotModCompiled(kc: bv16)
    requires IsOneShotMod(kc)
    ensures var a := ActionForKeycode(kc);
            KindOf(a) == 2 + ((kc >> 4) & 1) && ModsOf(a) == kc & 0xf && LowByte(a) == MODS_ONESHOT
  {}

  lemma {:induction false} SwapHandsCompiled(kc: bv16)
    requires IsSwapHands(kc)
    ensures var a := ActionForKeycode(kc); KindOf(a) == ACT_SWAP_HANDS && LowByte(a) == kc & 0xff
  {}

  lemma {:induction false} LayerModKind(kc: bv16)
    requires IsLayerMod(kc)
    ensures KindOf(ActionForKeycode(kc)) == ACT_LAYER_MODS
  {}

  /** Which layer or modifier key it is, from bits 5 to 7. */
  lemma {:induction false} LayerKeyCompiled(kc: bv16)
    requires IsLayerKey(kc)
    ensures var a, l := ActionForKeycode(kc), kc & 0x1f;
            match (kc >> 5) & 7
            case 0 => kc == TO(l) && a == LayerSet(l, ON_PRESS)
            case 1 => kc == MO(l) && a == LayerTap(l, OP_ON_OFF)
            case 2 => kc == DF(l) && a == DefaultLayerSet(l)
            case 3 => kc == TG(l) && a == LayerInvert(l, ON_RELEASE)
            case 4 => kc == OSL(l) && a == LayerTap(l, OP_ONESHOT)
            case 5 => kc == OSM(l) && IsOneShotMod(kc)
            case _ => kc == TT(l) && a == LayerTap(l, OP_TAP_TOGGLE)
  {
    assert kc == 0x5200 | (((kc >> 5) & 7) << 5) | (kc & 0x1f) && (kc >> 5) & 7 <= 6;
  }

  lemma {:induction false} LayerKeyKind(kc: bv16)
    requires IsLayerKey(kc)
    ensures KindOf(ActionForKeycode(kc)) >= 2
  {
    LayerKeyCompiled(kc);
    var l := kc & 0x1f;
    BitopFields(OP_BIT_SET, l / 4, ChunkBit(l), ON_PRESS);
    BitopFields(OP_BIT_XOR, l / 4, ChunkBit(l), ON_RELEASE);
    BitopFields(OP_BIT_SET, l / 4, ChunkBit(l), 0);
    LayerTapDecodes(l, OP_ON_OFF);
    LayerTapDecodes(l, OP_ONESHOT);
    LayerTapDecodes(l, OP_TAP_TOGGLE);
    if IsOneShotMod(kc) { OneShotModCompiled(kc); }
  }

  /** Only the transparent keycode compiles to the transparent action. */
  lemma {:induction false} TransparentCompiled(kc: bv16)
    ensures ActionForKeycode(kc) == 1 <==> kc == 1
  {
    if IsBasic(kc) {
      BasicCompiled(kc);
    } else if IsMouse(kc) {
      MouseCompiled(kc);
    } else if IsModified(kc) {
      ModsKeycodeFields(kc);
    } else if IsModTap(kc) {
      ModTapFields(kc);
    } else if IsLayerTap(kc) {
      LayerTapCompiled(kc);
    } else if IsLayerMod(kc) {
      LayerModKind(kc);
    } else if IsLayerKey(kc) {
      LayerKeyKind(kc);
    } else if IsSwapHands(kc) {
      SwapHandsCompiled(kc);
    } else if IsNothing(kc) {
      NothingCompiled(kc);
    }
  }

  // ---------- What the keys do ----------

  /** The HID modifier bits in their order: control, shift, alt, GUI, first on the left hand. */
  lemma {:induction false} ModifierBits()
    ensures ModifierBit(0xe0) == 1 && ModifierBit(0xe1) == 2 && ModifierBit(0xe2) == 4 && ModifierBit(0xe3) == 8
    ensures ModifierBit(0xe4) == 0x10 && ModifierBit(0xe5) == 0x20 && ModifierBit(0xe6) == 0x40
    ensures ModifierBit(0xe7) == 0x80
  {}

  lemma {:induction false} NoModifiers(h: Host)
    ensures AddMods(h, 0) == h && DelMods(h, 0) == h && AddWeakMods(h, 0) == h && DelWeakMods(h, 0) == h
  {}

  /** A modifier key puts down and takes up exactly its own bit; any other basic key touches none. */
  lemma {:induction false} BasicKeyApplied(w: Width, h: Host, kc: bv16, count: nat, toggle: nat)
    requires IsBasic(kc)
    ensures var down, up := Struck(w, h, kc, true, count, toggle), Struck(w, h, kc, false, count, toggle);
            if IsModifier(kc) then
              down == h.(mods := h.mods | ModifierBit(kc)) && up == h.(mods := h.mods & !ModifierBit(kc))
            else down == h && up == h
  {
    BasicAction(w, h, kc, true, count, toggle);
    BasicAction(w, h, kc, false, count, toggle);
    Unmodified(h, kc);
  }

  lemma {:induction false} BasicAction(w: Width, h: Host, kc: bv16, pressed: bool, count: nat, toggle: nat)
    requires IsBasic(kc)
    ensures Struck(w, h, kc, pressed, count, toggle) == ModifiedKey(h, 0, kc, pressed)
  {
    BasicCompiled(kc);
  }

  lemma {:induction false} Unmodified(h: Host, code: bv16)
    requires code != 0
    ensures ModifiedKey(h, 0, code, true) == RegisterCode(h, code)
    ensures ModifiedKey(h, 0, code, false) == UnregisterCode(h, code)
  {
    NoModifiers(h);
    NoModifiers(UnregisterCode(h, code));
  }

  /** Mouse keys, the transparent keycode and unused keycodes touch neither layers nor modifiers. */
  lemma {:induction false} OthersApplyNothing(w: Width, h: Host, kc: bv16, pressed: bool, count: nat, toggle: nat)
    requires IsMouse(kc) || kc == 1 || IsNothing(kc)
    ensures Struck(w, h, kc, pressed, count, toggle) == h
  {
    NoModifiers(h);
    if IsMouse(kc) {
      MouseCompiled(kc);
    } else if IsNothing(kc) {
      NothingCompiled(kc);
    } else {
      TransparentCompiled(kc);
    }
  }

  lemma {:induction false} OneShotHand(kc: bv16, m: bv16)
    requires IsOneShotMod(kc) && m == kc & 0xf
    ensures HandMods(kc & 0x1f) == if (kc >> 4) & 1 == 1 then (m as bv8) << 4 else m as bv8
  {}

  /** With one-shot handling switched off a one-shot modifier is held like any modifier, at every tap count. */
  lemma {:induction false} OneShotModApplied(w: Width, h: Host, kc: bv16, count: nat, toggle: nat)
    requires IsOneShotMod(kc)
    ensures Struck(w, h, kc, true, count, toggle) == AddMods(h, HandMods(kc & 0x1f))
    ensures Struck(w, h, kc, false, count, toggle) == DelMods(h, HandMods(kc & 0x1f))
  {
    OneShotModCompiled(kc);
    OneShotHand(kc, kc & 0xf);
  }

  /** Of a swap-hands key only the tap key touches modifiers, and only when tapped. */
  lemma {:induction false} SwapHandsApplied(w: Width, h: Host, kc: bv16, pressed: bool, count: nat, toggle: nat)
    requires IsSwapHands(kc)
    ensures Struck(w, h, kc, pressed, count, toggle) ==
            if count > 0 && IsModifier(kc & 0xff)
            then h.(mods := if pressed then h.mods | ModifierBit(kc & 0xff) else h.mods & !ModifierBit(kc & 0xff))
            else h
  {
    SwapAction(w, h, kc, pressed, count, toggle);
    SwapCode(h, kc & 0xff, pressed, count);
  }

  lemma {:induction false} SwapCode(h: Host, code: bv16, pressed: bool, count: nat)
    ensures SwapHandsAction(h, code, pressed, count) ==
            if count > 0 && IsModifier(code)
            then h.(mods := if pressed then h.mods | ModifierBit(code) else h.mods & !ModifierBit(code)) else h
  {}

  lemma {:induction false} SwapAction(w: Width, h: Host, kc: bv16, pressed: bool, count: nat, toggle: nat)
    requires IsSwapHands(kc)
    ensures Struck(w, h, kc, pressed, count, toggle) == SwapHandsAction(h, kc & 0xff, pressed, count)
  {
    SwapHandsCompiled(kc);
  }

  // ---------- Which keys are tap-hold keys ----------

  /** Codes a tap can send, and the operations that look at the tap count. */
  predicate Tappable(code: bv16) { code <= 0xe7 || code == OP_TAP_TOGGLE || code == OP_ONESHOT }

  /** Exactly these keycodes are tap-hold keys. */
  predicate IsTapHold(kc: bv16) {
    || (IsModTap(kc) && Tappable(kc & 0xff))
    || (IsLayerTap(kc) && Tappable(kc & 0xff))
    || 0x5280 <= kc <= 0x52df
    || (IsSwapHands(kc) && (kc & 0xff <= 0xe7 || kc & 0xff == OP_SH_TAP_TOGGLE))
  }

  lemma {:induction false} LayerKeyTapHold(kc: bv16)
    requires IsLayerKey(kc)
    ensures IsTapAction(ActionForKeycode(kc)) <==> 0x5280 <= kc
  {
    var a, l := ActionForKeycode(kc), kc & 0x1f;
    LayerKeyCompiled(kc);
    LayerKeyPart(kc);
    match (kc >> 5) & 7
    case 0 => BitopFields(OP_BIT_SET, l / 4, ChunkBit(l), ON_PRESS);
    case 1 => LayerTapDecodes(l, OP_ON_OFF);
    case 2 => BitopFields(OP_BIT_SET, l / 4, ChunkBit(l), 0);
    case 3 => BitopFields(OP_BIT_XOR, l / 4, ChunkBit(l), ON_RELEASE);
    case 4 => LayerTapDecodes(l, OP_ONESHOT);
    case 5 => OneShotModCompiled(kc);
    case _ => LayerTapDecodes(l, OP_TAP_TOGGLE);
  }

  lemma {:induction false} LayerKeyPart(kc: bv16)
    requires IsLayerKey(kc)
    ensures ((kc >> 5) & 7 >= 4 <==> 0x5280 <= kc) && ((kc >> 5) & 7 == 1 <==> 0x5220 <= kc <= 0x523f)
    ensures ((kc >> 5) & 7 == 5 <==> IsOneShotMod(kc))
  {}

  /** Over all keycodes: exactly the tap-hold keycodes compile to tap-hold actions. */
  lemma {:induction false} TapHoldExactly(kc: bv16)
    ensures IsTapAction(ActionForKeycode(kc)) <==> IsTapHold(kc)
  {
    if IsBasic(kc) {
      BasicCompiled(kc);
    } else if IsMouse(kc) {
      MouseCompiled(kc);
    } else if IsModified(kc) {
      ModsKeycodeFields(kc);
    } else if IsModTap(kc) {
      ModTapFields(kc);
    } else if IsLayerTap(kc) {
      LayerTapCompiled(kc);
    } else if IsLayerMod(kc) {
      LayerModKind(kc);
    } else if IsLayerKey(kc) {
      LayerKeyTapHold(kc);
    } else if IsSwapHands(kc) {
      SwapHandsCompiled(kc);
    } else if IsNothing(kc) {
      NothingCompiled(kc);
    }
  }

  // ---------- Whose release is kept back ----------

  /** The key holds modifiers or a layer down: its release waits until an undecided tap is settled. */
  predicate KeptBack(kc: bv16, count: nat) {
    || IsModifier(kc)
    || (IsModified(kc) && (IsModifier(kc & 0xff) || (kc & 0xff == 0 && (kc >> 8) & 0xf != 0)))
    || (IsModTap(kc) && (IsModifier(kc & 0xff) || (count == 0 && (kc >> 8) & 0xf != 0)))
    || (IsOneShotMod(kc) && count == 0 && kc & 0xf != 0)
    || (IsLayerTap(kc) && (kc & 0xff < OP_TAP_TOGGLE || OP_ON_OFF <= kc & 0xff <= OP_SET_CLEAR))
    || 0x5220 <= kc <= 0x523f
  }

  lemma {:induction false} LayerKeyKeptBack(kc: bv16, count: nat)
    requires IsLayerKey(kc)
    ensures Retained(ActionForKeycode(kc), count) <==> KeptBack(kc, count)
  {
    var l := kc & 0x1f;
    LayerKeyPart(kc);
    if IsOneShotMod(kc) {
      OneShotModCompiled(kc);
    } else {
      LayerKeyCompiled(kc);
      match (kc >> 5) & 7
      case 0 => BitopFields(OP_BIT_SET, l / 4, ChunkBit(l), ON_PRESS);
      case 1 => LayerTapDecodes(l, OP_ON_OFF);
      case 2 => BitopFields(OP_BIT_SET, l / 4, ChunkBit(l), 0);
      case 3 => BitopFields(OP_BIT_XOR, l / 4, ChunkBit(l), ON_RELEASE);
      case 4 => LayerTapDecodes(l, OP_ONESHOT);
      case _ => LayerTapDecodes(l, OP_TAP_TOGGLE);
    }
  }

  /** Over all keycodes and tap counts: exactly these have their release kept back. */
  lemma {:induction false} KeptBackExactly(kc: bv16, count: nat)
    ensures Retained(ActionForKeycode(kc), count) <==> KeptBack(kc, count)
  {
    if IsBasic(kc) {
      BasicCompiled(kc);
    } else if IsMouse(kc) {
      MouseCompiled(kc);
    } else if IsModified(kc) {
      ModsKeycodeFields(kc);
    } else if IsModTap(kc) {
      ModTapFields(kc);
    } else if IsLayerTap(kc) {
      LayerTapCompiled(kc);
    } else if IsLayerMod(kc) {
      LayerModKind(kc);
    } else if IsLayerKey(kc) {
      LayerKeyKeptBack(kc, count);
    } else if IsSwapHands(kc) {
      SwapHandsCompiled(kc);
    } else if IsNothing(kc) {
      NothingCompiled(kc);
    }
  }
}
