/**
 * The 16-bit action codes of quantum/action_code.h, the keycode compiler of
 * quantum/keymap_common.c and the layer and modifier cases of `process_action`.
 * One-shot handling is switched off at run time and keycode remapping is off.
 */
module ActionCode {

  // ---------- Fields and encoders ----------

  function Encode(kind: bv16, param: bv16): bv16 { (kind << 12) | param }

  function KindOf(a: bv16): bv16 { a >> 12 }
  function LowByte(a: bv16): bv16 { a & 0xff }
  function ModsOf(a: bv16): bv16 { (a >> 8) & 0xf }
  /** The five-bit layer of a layer-tap action; its top bit is the low bit of the kind. */
  function LayerOf(a: bv16): bv16 { (a >> 8) & 0x1f }

  const ACT_LMODS: bv16 := 0
  const ACT_RMODS: bv16 := 1
  const ACT_LMODS_TAP: bv16 := 2
  const ACT_RMODS_TAP: bv16 := 3
  const ACT_MOUSEKEY: bv16 := 5
  const ACT_SWAP_HANDS: bv16 := 6
  const ACT_LAYER: bv16 := 8
  const ACT_LAYER_MODS: bv16 := 9
  const ACT_LAYER_TAP: bv16 := 10
  const ACT_LAYER_TAP_EXT: bv16 := 11

  const OP_BIT_AND: bv16 := 0
  const OP_BIT_OR: bv16 := 1
  const OP_BIT_XOR: bv16 := 2
  const OP_BIT_SET: bv16 := 3

  const ON_PRESS: bv16 := 1
  const ON_RELEASE: bv16 := 2

  const OP_TAP_TOGGLE: bv16 := 0xf0
  const OP_ON_OFF: bv16 := 0xf1
  const OP_OFF_ON: bv16 := 0xf2
  const OP_SET_CLEAR: bv16 := 0xf3
  const OP_ONESHOT: bv16 := 0xf4
  const OP_SH_TOGGLE: bv16 := 0xf0
  const OP_SH_TAP_TOGGLE: bv16 := 0xf1
  const OP_SH_ONESHOT: bv16 := 0xf6

  const MODS_ONESHOT: bv16 := 0
  const MODS_TAP_TOGGLE: bv16 := 1

  function LayerBitop(op: bv16, part: bv16, bits: bv16, on: bv16): bv16 {
    Encode(ACT_LAYER, (op << 10) | (on << 8) | (part << 5) | (bits & 0x1f))
  }

  function ChunkBit(layer: bv16): bv16 { 1 << (layer % 4) }

  function LayerSet(layer: bv16, on: bv16): bv16 { LayerBitop(OP_BIT_SET, layer / 4, ChunkBit(layer), on) }
  function LayerInvert(layer: bv16, on: bv16): bv16 { LayerBitop(OP_BIT_XOR, layer / 4, ChunkBit(layer), on) }
  function LayerOn(layer: bv16, on: bv16): bv16 { LayerBitop(OP_BIT_OR, layer / 4, ChunkBit(layer), on) }
  function LayerOff(layer: bv16, on: bv16): bv16 { LayerBitop(OP_BIT_AND, layer / 4, !ChunkBit(layer), on) }
  function DefaultLayerSet(layer: bv16): bv16 { LayerBitop(OP_BIT_SET, layer / 4, ChunkBit(layer), 0) }
  function LayerTap(layer: bv16, key: bv16): bv16 { Encode(ACT_LAYER_TAP, (layer << 8) | key) }

  predicate IsModifier(code: bv16) { 0xe0 <= code <= 0xe7 }

  /** Keycode to action. */
  function ActionForKeycode(kc: bv16): bv16 {
    if 0x04 <= kc <= 0xa4 || 0xe0 <= kc <= 0xe7 then Encode(ACT_LMODS, kc)
    else if 0xcd <= kc <= 0xdf then Encode(ACT_MOUSEKEY, kc)
    else if kc == 1 then 1
    else if 0x0100 <= kc <= 0x1fff then Encode(ACT_LMODS, (((kc >> 8) & 0x1f) << 8) | (kc & 0xff))
    else if 0x4000 <= kc <= 0x4fff then LayerTap((kc >> 8) & 0xf, kc & 0xff)
    else if 0x5200 <= kc <= 0x521f then LayerSet(kc & 0x1f, ON_PRESS)
    else if 0x5220 <= kc <= 0x523f then LayerTap(kc & 0x1f, OP_ON_OFF)
    else if 0x5240 <= kc <= 0x525f then DefaultLayerSet(kc & 0x1f)
    else if 0x5260 <= kc <= 0x527f then LayerInvert(kc & 0x1f, ON_RELEASE)
    else if 0x5280 <= kc <= 0x529f then LayerTap(kc & 0x1f, OP_ONESHOT)
    else if 0x52a0 <= kc <= 0x52bf then Encode(ACT_LMODS_TAP, ((kc & 0x1f) << 8) | MODS_ONESHOT)
    else if 0x52c0 <= kc <= 0x52df then LayerTap(kc & 0x1f, OP_TAP_TOGGLE)
    else if 0x5000 <= kc <= 0x51ff then
      var mod := kc & 0x1f;
      Encode(ACT_LAYER_MODS, (((kc >> 5) & 0xf) << 8) | if mod & 0x10 != 0 then (mod & 0xf) << 4 else mod)
    else if 0x2000 <= kc <= 0x3fff then Encode(ACT_LMODS_TAP, (((kc >> 8) & 0x1f) << 8) | (kc & 0xff))
    else if 0x5600 <= kc <= 0x56ff then Encode(ACT_SWAP_HANDS, kc & 0xff)
    else 0
  }

  // Keymap macros.
  function TO(layer: bv16): bv16 { 0x5200 | (layer & 0x1f) }
  function MO(layer: bv16): bv16 { 0x5220 | (layer & 0x1f) }
  function DF(layer: bv16): bv16 { 0x5240 | (layer & 0x1f) }
  function TG(layer: bv16): bv16 { 0x5260 | (layer & 0x1f) }
  function OSL(layer: bv16): bv16 { 0x5280 | (layer & 0x1f) }
  function TT(layer: bv16): bv16 { 0x52c0 | (layer & 0x1f) }
  function LT(layer: bv16, kc: bv16): bv16 { 0x4000 | ((layer & 0xf) << 8) | (kc & 0xff) }
  function LM(layer: bv16, mod: bv16): bv16 { 0x5000 | ((layer & 0xf) << 5) | (mod & 0x1f) }
  /** `is_tap_action`. */
  predicate IsTapAction(a: bv16) {
    var k, c := KindOf(a), LowByte(a);
    || (ACT_LMODS_TAP <= k <= ACT_RMODS_TAP && (c <= 0xe7 || c == OP_TAP_TOGGLE || c == OP_ONESHOT))
    || (ACT_LAYER_TAP <= k <= ACT_LAYER_TAP_EXT && (c <= 0xe7 || c == OP_TAP_TOGGLE || c == OP_ONESHOT))
    || (k == ACT_SWAP_HANDS && (c <= 0xe7 || c == OP_SH_TAP_TOGGLE))
  }

  /** The release of an older key is kept back during a tap when it would end a modifier or a layer. */
  predicate Retained(a: bv16, count: nat) {
    var k, c := KindOf(a), LowByte(a);
    if k <= ACT_RMODS then (ModsOf(a) != 0 && c == 0) || IsModifier(c)
    else if k <= ACT_RMODS_TAP then (ModsOf(a) != 0 && count == 0) || IsModifier(c)
    else if ACT_LAYER_TAP <= k <= ACT_LAYER_TAP_EXT then
      c < OP_TAP_TOGGLE || c == OP_ON_OFF || c == OP_OFF_ON || c == OP_SET_CLEAR
    else false
  }

  // ---------- The interpreter ----------

  /** The three builds of the layer mask. */
  datatype Width = W8 | W16 | W32

  ghost function LayerCount(w: Width): bv16 {
    match w case W8 => 8 case W16 => 16 case W32 => 32
  }

  /** A layer mask is the set of its one bits; all bits stay below the width of the build. */
  type Mask = iset<bv16>

  datatype Host = Host(layers: Mask, defaults: Mask, mods: bv8, weak: bv8)

  /** `1 << layer`, cut to the width. */
  ghost function LayerBit(w: Width, layer: bv16): Mask {
    if layer < LayerCount(w) then iset{layer} else iset{}
  }

  ghost function Xor(a: Mask, b: Mask): Mask { (a - b) + (b - a) }

  ghost function Bitop(op: bv16, state: Mask, arg: Mask): Mask {
    if op == OP_BIT_AND then state * arg
    else if op == OP_BIT_OR then state + arg
    else if op == OP_BIT_XOR then Xor(state, arg)
    else arg
  }

  ghost predicate InWidth(w: Width, i: bv16) { i < LayerCount(w) }

  ghost function AllLayers(w: Width): Mask { iset i | InWidth(w, i) }

  ghost function BitAt(a: bv16, bit: bv16, layer: bv16): Mask { if a & bit != 0 then iset{layer} else iset{} }

  /** `bits << 4 * part | mask`: the bits of one chunk, and every bit outside it if the extra bit is set. */
  ghost function BitopArg(w: Width, a: bv16): Mask {
    var base := ((a >> 5) & 7) * 4;
    var bits := BitAt(a, 1, base) + BitAt(a, 2, base + 1) + BitAt(a, 4, base + 2) + BitAt(a, 8, base + 3);
    var mask := if a & 0x10 != 0 then AllLayers(w) - iset{base, base + 1, base + 2, base + 3} else iset{};
    (bits + mask) * AllLayers(w)
  }

  function Mods8(a: bv16, right: bool): bv8 {
    var m := ModsOf(a) as bv8;
    if right then m << 4 else m
  }

  function ModifierBit(code: bv16): bv8
    requires IsModifier(code)
  {
    1 << (code & 7) as bv8
  }

  ghost function AddMods(h: Host, m: bv8): Host { h.(mods := h.mods | m) }
  ghost function DelMods(h: Host, m: bv8): Host { h.(mods := h.mods & !m) }
  ghost function AddWeakMods(h: Host, m: bv8): Host { h.(weak := h.weak | m) }
  ghost function DelWeakMods(h: Host, m: bv8): Host { h.(weak := h.weak & !m) }

  ghost function RegisterCode(h: Host, code: bv16): Host {
    if IsModifier(code) then AddMods(h, ModifierBit(code)) else h
  }

  ghost function UnregisterCode(h: Host, code: bv16): Host {
    if IsModifier(code) then DelMods(h, ModifierBit(code)) else h
  }

  /** A modified key: strong modifiers around a modifier or nothing, weak ones around any other key. */
  ghost function ModifiedKey(h: Host, m: bv8, code: bv16, pressed: bool): Host {
    var strong := IsModifier(code) || code == 0;
    if pressed then
      RegisterCode(if strong then AddMods(h, m) else AddWeakMods(h, m), code)
    else
      var h1 := UnregisterCode(h, code);
      if strong then DelMods(h1, m) else DelWeakMods(h1, m)
  }

  ghost function ModsTap(h: Host, m: bv8, code: bv16, pressed: bool, count: nat, toggle: nat): Host {
    if code == MODS_ONESHOT then ModifiedKey(h, m, code, pressed)
    else if code == MODS_TAP_TOGGLE then
      if pressed then (if count <= toggle then AddMods(h, m) else h)
      else if count < toggle then DelMods(h, m) else h
    else if count > 0 then (if pressed then RegisterCode(h, code) else UnregisterCode(h, code))
    else if pressed then AddMods(h, m) else DelMods(h, m)
  }

  ghost function LayerTapAction(h: Host, bit: Mask, code: bv16, pressed: bool, count: nat, toggle: nat): Host {
    if code == OP_TAP_TOGGLE then
      if pressed then (if count < toggle then h.(layers := Xor(h.layers, bit)) else h)
      else if count <= toggle then h.(layers := Xor(h.layers, bit)) else h
    else if code == OP_ON_OFF || code == OP_ONESHOT then
      h.(layers := if pressed then h.layers + bit else h.layers - bit)
    else if code == OP_OFF_ON then h.(layers := if pressed then h.layers - bit else h.layers + bit)
    else if code == OP_SET_CLEAR then h.(layers := if pressed then bit else iset{})
    else if count > 0 then (if pressed then RegisterCode(h, code) else UnregisterCode(h, code))
    else h.(layers := if pressed then h.layers + bit else h.layers - bit)
  }

  ghost function LayerModsAction(h: Host, bit: Mask, m: bv8, pressed: bool): Host {
    if pressed then h.(layers := h.layers + bit, mods := h.mods | m)
    else h.(layers := h.layers - bit, mods := h.mods & !m)
  }

  ghost function LayerBitopAction(h: Host, arg: Mask, op: bv16, on: bv16, pressed: bool): Host {
    if on == 0 then (if pressed then h else h.(defaults := Bitop(op, h.defaults, arg)))
    else if on & (if pressed then ON_PRESS else ON_RELEASE) != 0 then h.(layers := Bitop(op, h.layers, arg))
    else h
  }

  /** A swap-hands action; only its tap key touches modifiers. */
  ghost function SwapHandsAction(h: Host, code: bv16, pressed: bool, count: nat): Host {
    if OP_SH_TOGGLE <= code <= OP_SH_ONESHOT || count == 0 then h
    else if pressed then RegisterCode(h, code) else UnregisterCode(h, code)
  }

  /** `process_action` on layers and modifiers. */
  ghost function ProcessAction(w: Width, h: Host, a: bv16, pressed: bool, count: nat, toggle: nat): Host {
    var k := KindOf(a);
    if k <= ACT_RMODS then ModifiedKey(h, Mods8(a, k == ACT_RMODS), LowByte(a), pressed)
    else if k <= ACT_RMODS_TAP then ModsTap(h, Mods8(a, k == ACT_RMODS_TAP), LowByte(a), pressed, count, toggle)
    else if k == ACT_LAYER then LayerBitopAction(h, BitopArg(w, a), (a >> 10) & 3, (a >> 8) & 3, pressed)
    else if k == ACT_LAYER_MODS then LayerModsAction(h, LayerBit(w, ModsOf(a)), LowByte(a) as bv8, pressed)
    else if ACT_LAYER_TAP <= k <= ACT_LAYER_TAP_EXT then
      LayerTapAction(h, LayerBit(w, LayerOf(a)), LowByte(a), pressed, count, toggle)
    else if k == ACT_SWAP_HANDS then SwapHandsAction(h, LowByte(a), pressed, count)
    else h
  }

  /** The other decoder of modified keycodes, `extract_mod_bits`, on HID modifier bits. */
  function ExtractModBits(kc: bv16): bv8 {
    if !(0x0100 <= kc <= 0x1fff) then 0
    else
      var right := kc & 0x1000 != 0;
      var ctrl: bv8 := if kc & 0x0100 != 0 then (if right then 0x10 else 0x01) else 0;
      var shift: bv8 := if kc & 0x0200 != 0 then (if right then 0x20 else 0x02) else 0;
      var alt: bv8 := if kc & 0x0400 != 0 then (if right then 0x40 else 0x04) else 0;
      var gui: bv8 := if kc & 0x0800 != 0 then (if right then 0x80 else 0x08) else 0;
      ctrl | shift | alt | gui
  }
}
