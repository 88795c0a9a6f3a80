/**
 * What the layer keys of a keymap mean, and the proof that compiling them to 16-bit actions and
 * interpreting those has exactly that meaning over every run.
 */
module LayerMeaning {
  import opened ActionCode

  /** A layer key of a keymap. `Lt` and `Lm` reach layers 0-15 only. */
  datatype LayerKey =
    | To(l: bv16)
    | Mo(l: bv16)
    | Tg(l: bv16)
    | Df(l: bv16)
    | Tt(l: bv16)
    | Lt(l: bv16, code: bv16)
    | Lm(l: bv16, mod: bv16)
    | Osl(l: bv16)

  ghost predicate Representable(w: Width, k: LayerKey) {
    k.l < LayerCount(w) && (k.Lt? || k.Lm? ==> k.l < 16) && (k.Lt? ==> k.code <= 0xe7) && (k.Lm? ==> k.mod < 0x20)
  }

  ghost function Keycode(k: LayerKey): bv16 {
    match k
    case To(l) => TO(l)
    case Mo(l) => MO(l)
    case Tg(l) => TG(l)
    case Df(l) => DF(l)
    case Tt(l) => TT(l)
    case Lt(l, code) => LT(l, code)
    case Lm(l, mod) => LM(l, mod)
    case Osl(l) => OSL(l)
  }

  /** Active layers, default layers, and the two modifier registers. */
  datatype Stack = Stack(on: iset<bv16>, base: iset<bv16>, mods: bv8, weak: bv8)

  /** The eight-bit form of five-bit modifiers: one flag moves all four to the right hand. */
  ghost function HandMods(mod: bv16): bv8 {
    ExtractModBits((mod & 0x1f) << 8)
  }

  ghost function Flip(s: iset<bv16>, l: bv16): iset<bv16> {
    if l in s then s - iset{l} else s + iset{l}
  }

  /** The documented effect of one press or release that arrives with a tap count. */
  ghost function Meaning(s: Stack, k: LayerKey, pressed: bool, count: nat, toggle: nat): Stack {
    match k
    case To(l) => if pressed then s.(on := iset{l}) else s
    case Mo(l) => s.(on := if pressed then s.on + iset{l} else s.on - iset{l})
    case Tg(l) => if pressed then s else s.(on := Flip(s.on, l))
    case Df(l) => if pressed then s else s.(base := iset{l})
    case Tt(l) =>
      if pressed then (if count < toggle then s.(on := Flip(s.on, l)) else s)
      else if count <= toggle then s.(on := Flip(s.on, l)) else s
    case Lt(l, code) =>
      if count > 0 then KeyMods(s, code, pressed)
      else s.(on := if pressed then s.on + iset{l} else s.on - iset{l})
    case Lm(l, mod) =>
      if pressed then s.(on := s.on + iset{l}, mods := s.mods | HandMods(mod))
      else s.(on := s.on - iset{l}, mods := s.mods & !HandMods(mod))
    case Osl(l) => s.(on := if pressed then s.on + iset{l} else s.on - iset{l})
  }

  /** A key that is itself a modifier sets and clears its own bit; any other key touches none. */
  ghost function KeyMods(s: Stack, code: bv16, pressed: bool): Stack {
    if !IsModifier(code) then s
    else s.(mods := if pressed then s.mods | ModifierBit(code) else s.mods & !ModifierBit(code))
  }

  ghost function StackOf(h: Host): Stack {
    Stack(h.layers, h.defaults, h.mods, h.weak)
  }

  // ---------- Decoding what the compiler made ----------

  /** The fields of a bitwise layer action come back as they were put in. */
  lemma {:induction false} BitopFields(op: bv16, part: bv16, bits: bv16, on: bv16)
    requires op < 4 && on < 4 && part < 8
    ensures var a := LayerBitop(op, part, bits, on);
            && KindOf(a) == ACT_LAYER && (a >> 8) & 3 == on && (a >> 10) & 3 == op
            && (a >> 5) & 7 == part && a & 0x1f == bits & 0x1f
  {}

  /** The chunk encoding of one layer decodes to that layer's bit alone. */
  lemma {:induction false} BitopDecodes(w: Width, op: bv16, l: bv16, on: bv16)
    requires l < LayerCount(w) && op < 4 && on < 4
    ensures var a := LayerBitop(op, l / 4, ChunkBit(l), on);
            KindOf(a) == ACT_LAYER && (a >> 8) & 3 == on && (a >> 10) & 3 == op && BitopArg(w, a) == iset{l}
  {}

  /** `ACTION_LAYER_OFF` encodes "all but one" with the extra bit, and clears exactly that one. */
  lemma {:induction false} LayerOffClearsOne(w: Width, h: Host, l: bv16, count: nat, toggle: nat)
    requires l < LayerCount(w) && h.layers <= AllLayers(w)
    ensures ProcessAction(w, h, LayerOff(l, ON_PRESS), true, count, toggle) == h.(layers := h.layers - iset{l})
  {
    BitopFields(OP_BIT_AND, l / 4, !ChunkBit(l), ON_PRESS);
    OffDecodes(w, l);
    assert h.layers * (AllLayers(w) - iset{l}) == h.layers - iset{l};
  }

  lemma {:induction false} OffDecodes(w: Width, l: bv16)
    requires l < LayerCount(w)
    ensures BitopArg(w, LayerOff(l, ON_PRESS)) == AllLayers(w) - iset{l}
  {}

  /** The five-bit layer of a layer-tap action spills its top bit into the kind and comes back whole. */
  lemma {:induction false} LayerTapDecodes(l: bv16, code: bv16)
    requires l < 32 && code < 0x100
    ensures var a := LayerTap(l, code);
            ACT_LAYER_TAP <= KindOf(a) <= ACT_LAYER_TAP_EXT && LayerOf(a) == l && LowByte(a) == code
  {}

  /** Which action each layer key compiles to. */
  lemma {:induction false} Compiled(w: Width, k: LayerKey)
    requires Representable(w, k)
    ensures var a := ActionForKeycode(Keycode(k));
            match k
            case To(l) => a == LayerSet(l, ON_PRESS)
            case Mo(l) => a == LayerTap(l, OP_ON_OFF)
            case Tg(l) => a == LayerInvert(l, ON_RELEASE)
            case Df(l) => a == DefaultLayerSet(l)
            case Tt(l) => a == LayerTap(l, OP_TAP_TOGGLE)
            case Lt(l, code) => a == LayerTap(l, code)
            case Lm(l, mod) => KindOf(a) == ACT_LAYER_MODS && ModsOf(a) == l && LowByte(a) as bv8 == HandMods(mod)
            case Osl(l) => a == LayerTap(l, OP_ONESHOT)
  {
    match k
    case To(l) => CompiledSets(l);
    case Tg(l) => CompiledSets(l);
    case Df(l) => CompiledSets(l);
    case Mo(l) => CompiledTaps(l);
    case Tt(l) => CompiledTaps(l);
    case Osl(l) => CompiledTaps(l);
    case Lt(l, code) => CompiledTapKey(l, code);
    case Lm(l, mod) => LayerModFields(l, mod);
  }

  lemma {:induction false} CompiledSets(l: bv16)
    requires l < 32
    ensures ActionForKeycode(TO(l)) == LayerSet(l, ON_PRESS)
    ensures ActionForKeycode(TG(l)) == LayerInvert(l, ON_RELEASE)
    ensures ActionForKeycode(DF(l)) == DefaultLayerSet(l)
  {
    assert l & 0x1f == l;
  }

  lemma {:induction false} CompiledTaps(l: bv16)
    requires l < 32
    ensures ActionForKeycode(MO(l)) == LayerTap(l, OP_ON_OFF)
    ensures ActionForKeycode(TT(l)) == LayerTap(l, OP_TAP_TOGGLE)
    ensures ActionForKeycode(OSL(l)) == LayerTap(l, OP_ONESHOT)
  {
    assert l & 0x1f == l;
  }

  lemma {:induction false} CompiledTapKey(l: bv16, code: bv16)
    requires l < 16 && code <= 0xe7
    ensures ActionForKeycode(LT(l, code)) == LayerTap(l, code)
  {
    assert l & 0xf == l && code & 0xff == code;
  }

  lemma {:induction false} LayerModFields(l: bv16, mod: bv16)
    requires l < 16 && mod < 0x20
    ensures var a := ActionForKeycode(LM(l, mod));
            KindOf(a) == ACT_LAYER_MODS && ModsOf(a) == l && LowByte(a) as bv8 == HandMods(mod)
  {
    LayerModCompiled(l, mod);
    LayerModMods(mod);
  }

  /** The modifier byte that the compiler puts into a layer-mod action. */
  ghost function Unpacked(mod: bv16): bv16 {
    if mod & 0x10 != 0 then (mod & 0xf) << 4 else mod
  }

  lemma {:induction false} LayerModCompiled(l: bv16, mod: bv16)
    requires l < 16 && mod < 0x20
    ensures ActionForKeycode(LM(l, mod)) == Encode(ACT_LAYER_MODS, (l << 8) | Unpacked(mod))
  {}

  lemma {:induction false} LayerModMods(mod: bv16)
    requires mod < 0x20
    ensures Unpacked(mod) < 0x100 && Unpacked(mod) as bv8 == HandMods(mod)
  {}

  // ---------- One press or release ----------

  ghost function Applied(w: Width, h: Host, k: LayerKey, pressed: bool, count: nat, toggle: nat): Host {
    ProcessAction(w, h, ActionForKeycode(Keycode(k)), pressed, count, toggle)
  }

  lemma {:induction false} XorOne(s: iset<bv16>, l: bv16)
    ensures Xor(s, iset{l}) == Flip(s, l)
  {}

  /** An action with these fields changes one of the two masks, at one of the two events. */
  lemma {:induction false} BitopApplied(w: Width, h: Host, a: bv16, l: bv16, op: bv16, on: bv16, pressed: bool,
                                        count: nat, toggle: nat)
    requires KindOf(a) == ACT_LAYER && (a >> 8) & 3 == on && (a >> 10) & 3 == op && BitopArg(w, a) == iset{l}
    ensures ProcessAction(w, h, a, pressed, count, toggle) == LayerBitopAction(h, iset{l}, op, on, pressed)
  {}

  lemma {:induction false} BitopMeaning(w: Width, h: Host, k: LayerKey, pressed: bool, count: nat, toggle: nat)
    requires Representable(w, k) && (k.To? || k.Tg? || k.Df?)
    ensures StackOf(Applied(w, h, k, pressed, count, toggle)) == Meaning(StackOf(h), k, pressed, count, toggle)
  {
    var a := ActionForKeycode(Keycode(k));
    var op, on := if k.Tg? then OP_BIT_XOR else OP_BIT_SET, if k.To? then ON_PRESS else if k.Tg? then ON_RELEASE else 0;
    BitopCompiled(w, k, op, on);
    BitopApplied(w, h, a, k.l, op, on, pressed, count, toggle);
    XorOne(h.layers, k.l);
  }

  lemma {:induction false} BitopCompiled(w: Width, k: LayerKey, op: bv16, on: bv16)
    requires Representable(w, k) && (k.To? || k.Tg? || k.Df?)
    requires op == if k.Tg? then OP_BIT_XOR else OP_BIT_SET
    requires on == if k.To? then ON_PRESS else if k.Tg? then ON_RELEASE else 0
    ensures var a := ActionForKeycode(Keycode(k));
            KindOf(a) == ACT_LAYER && (a >> 8) & 3 == on && (a >> 10) & 3 == op && BitopArg(w, a) == iset{k.l}
  {
    Compiled(w, k);
    BitopDecodes(w, op, k.l, on);
  }

  lemma {:induction false} LayerTapMeaning(w: Width, h: Host, k: LayerKey, pressed: bool, count: nat, toggle: nat)
    requires Representable(w, k) && (k.Mo? || k.Tt? || k.Osl?)
    ensures StackOf(Applied(w, h, k, pressed, count, toggle)) == Meaning(StackOf(h), k, pressed, count, toggle)
  {
    Compiled(w, k);
    XorOne(h.layers, k.l);
    LayerTapDecodes(k.l, if k.Mo? then OP_ON_OFF else if k.Tt? then OP_TAP_TOGGLE else OP_ONESHOT);
  }

  lemma {:induction false} TapKeyMeaning(w: Width, h: Host, k: LayerKey, pressed: bool, count: nat, toggle: nat)
    requires Representable(w, k) && k.Lt?
    ensures StackOf(Applied(w, h, k, pressed, count, toggle)) == Meaning(StackOf(h), k, pressed, count, toggle)
  {
    TapKeyAction(w, h, k, pressed, count, toggle);
    TapCode(h, LayerBit(w, k.l), k.code, pressed, count, toggle);
    CodeMods(h, k.code);
  }

  lemma {:induction false} TapKeyAction(w: Width, h: Host, k: LayerKey, pressed: bool, count: nat, toggle: nat)
    requires Representable(w, k) && k.Lt?
    ensures Applied(w, h, k, pressed, count, toggle) ==
            LayerTapAction(h, LayerBit(w, k.l), k.code, pressed, count, toggle)
  {
    Compiled(w, k);
    LayerTapDecodes(k.l, k.code);
  }

  lemma {:induction false} CodeMods(h: Host, code: bv16)
    ensures StackOf(RegisterCode(h, code)) == KeyMods(StackOf(h), code, true)
    ensures StackOf(UnregisterCode(h, code)) == KeyMods(StackOf(h), code, false)
  {}

  /** A layer-tap action whose code is a key. */
  lemma {:induction false} TapCode(h: Host, bit: Mask, code: bv16, pressed: bool, count: nat, toggle: nat)
    requires code <= 0xe7
    ensures LayerTapAction(h, bit, code, pressed, count, toggle) ==
            if count > 0 then (if pressed then RegisterCode(h, code) else UnregisterCode(h, code))
            else h.(layers := if pressed then h.layers + bit else h.layers - bit)
  {}

  lemma {:induction false} LayerModMeaning(w: Width, h: Host, k: LayerKey, pressed: bool, count: nat, toggle: nat)
    requires Representable(w, k) && k.Lm?
    ensures StackOf(Applied(w, h, k, pressed, count, toggle)) == Meaning(StackOf(h), k, pressed, count, toggle)
  {}

  // ---------- Layer actions without a keycode of their own ----------

  /** What a bitwise operation with one layer does to a set of layers. */
  ghost function WithOneLayer(op: bv16, s: iset<bv16>, l: bv16): iset<bv16> {
    if op == OP_BIT_AND then (if l in s then iset{l} else iset{})
    else if op == OP_BIT_OR then s + iset{l}
    else if op == OP_BIT_XOR then Flip(s, l)
    else iset{l}
  }

  lemma {:induction false} BitopOnOne(op: bv16, s: iset<bv16>, l: bv16)
    requires op < 4
    ensures Bitop(op, s, iset{l}) == WithOneLayer(op, s, l)
  {
    XorOne(s, l);
    assert s * iset{l} == if l in s then iset{l} else iset{};
  }

  /**
   * The bitwise actions of one layer: with an event mask they change the active layers at just those events,
   * without one the default layers on release.
   */
  lemma {:induction false} OneLayerActions(w: Width, h: Host, op: bv16, l: bv16, on: bv16, pressed: bool, count: nat,
                                           toggle: nat)
    requires l < LayerCount(w) && op < 4 && on < 4
    ensures var h' := ProcessAction(w, h, LayerBitop(op, l / 4, ChunkBit(l), on), pressed, count, toggle);
            if on == 0 then h' == (if pressed then h else h.(defaults := WithOneLayer(op, h.defaults, l)))
            else if (if pressed then on == 1 || on == 3 else on >= 2)
            then h' == h.(layers := WithOneLayer(op, h.layers, l))
            else h' == h
  {
    BitopDecodes(w, op, l, on);
    BitopApplied(w, h, LayerBitop(op, l / 4, ChunkBit(l), on), l, op, on, pressed, count, toggle);
    BitopOnOne(op, h.layers, l);
    BitopOnOne(op, h.defaults, l);
    EventMask(on);
  }

  lemma {:induction false} EventMask(on: bv16)
    requires on < 4
    ensures (on & ON_PRESS != 0 <==> on == 1 || on == 3) && (on & ON_RELEASE != 0 <==> on >= 2)
  {}

  /** The layer-tap operations that no keycode macro makes: off while held, and alone while held. */
  lemma {:induction false} HeldOperations(w: Width, h: Host, l: bv16, pressed: bool, count: nat, toggle: nat)
    requires l < LayerCount(w)
    ensures ProcessAction(w, h, LayerTap(l, OP_OFF_ON), pressed, count, toggle) ==
            h.(layers := if pressed then h.layers - iset{l} else h.layers + iset{l})
    ensures ProcessAction(w, h, LayerTap(l, OP_SET_CLEAR), pressed, count, toggle) ==
            h.(layers := if pressed then iset{l} else iset{})
  {
    LayerTapDecodes(l, OP_OFF_ON);
    LayerTapDecodes(l, OP_SET_CLEAR);
  }

  // ---------- Every run ----------

  datatype Stroke = Stroke(key: LayerKey, pressed: bool, count: nat)

  ghost function RunCompiled(w: Width, h: Host, strokes: seq<Stroke>, toggle: nat): Host
    decreases |strokes|
  {
    if strokes == [] then h else
    var n := |strokes| - 1;
    Applied(w, RunCompiled(w, h, strokes[..n], toggle), strokes[n].key, strokes[n].pressed, strokes[n].count, toggle)
  }

  ghost function RunMeaning(s: Stack, strokes: seq<Stroke>, toggle: nat): Stack
    decreases |strokes|
  {
    if strokes == [] then s else
    var n := |strokes| - 1;
    Meaning(RunMeaning(s, strokes[..n], toggle), strokes[n].key, strokes[n].pressed, strokes[n].count, toggle)
  }

  /** Over every run of layer keys, the masks hold exactly the layers the keys' meaning gives. */
  lemma {:induction false} CompiledKeysKeepTheirMeaning(w: Width, h: Host, strokes: seq<Stroke>, toggle: nat)
    requires forall i :: 0 <= i < |strokes| ==> Representable(w, strokes[i].key)
    ensures StackOf(RunCompiled(w, h, strokes, toggle)) == RunMeaning(StackOf(h), strokes, toggle)
    decreases |strokes|
  {
    if strokes != [] {
      var n := |strokes| - 1;
      var k, h1 := strokes[n].key, RunCompiled(w, h, strokes[..n], toggle);
      CompiledKeysKeepTheirMeaning(w, h, strokes[..n], toggle);
      if k.To? || k.Tg? || k.Df? {
        BitopMeaning(w, h1, k, strokes[n].pressed, strokes[n].count, toggle);
      } else if k.Lm? {
        LayerModMeaning(w, h1, k, strokes[n].pressed, strokes[n].count, toggle);
      } else if k.Lt? {
        TapKeyMeaning(w, h1, k, strokes[n].pressed, strokes[n].count, toggle);
      } else {
        LayerTapMeaning(w, h1, k, strokes[n].pressed, strokes[n].count, toggle);
      }
    }
  }

  // ---------- Modifiers ----------

  /** A modified keycode splits into kind, modifiers and key. */
  lemma {:induction false} ModsKeycodeFields(kc: bv16)
    requires 0x0100 <= kc <= 0x1fff
    ensures var a := ActionForKeycode(kc);
            KindOf(a) == (kc >> 12) & 1 && ModsOf(a) == (kc >> 8) & 0xf && LowByte(a) == kc & 0xff
  {
    assert ActionForKeycode(kc) == kc;
  }

  /** Both decoders of a modified keycode find the same modifiers. */
  lemma {:induction false} ModsKeycodeMeaning(kc: bv16)
    requires 0x0100 <= kc <= 0x1fff
    ensures var a := ActionForKeycode(kc); Mods8(a, KindOf(a) == ACT_RMODS) == ExtractModBits(kc)
  {}

  /** What a modified key does: its modifiers go down with it, as strong ones or as weak ones. */
  lemma {:induction false} ModsKeycodeApplied(w: Width, h: Host, kc: bv16, count: nat, toggle: nat)
    requires 0x0100 <= kc <= 0x1fff
    ensures var m, code := ExtractModBits(kc), kc & 0xff;
            var down, up := Struck(w, h, kc, true, count, toggle), Struck(w, h, kc, false, count, toggle);
            if IsModifier(code) then
              down == AddMods(AddMods(h, m), ModifierBit(code)) && up == DelMods(DelMods(h, ModifierBit(code)), m)
            else if code == 0 then down == AddMods(h, m) && up == DelMods(h, m)
            else down == AddWeakMods(h, m) && up == DelWeakMods(h, m)
  {
    ModsKeycodeFields(kc);
    ModsKeycodeMeaning(kc);
  }

  ghost function Struck(w: Width, h: Host, kc: bv16, pressed: bool, count: nat, toggle: nat): Host {
    ProcessAction(w, h, ActionForKeycode(kc), pressed, count, toggle)
  }

  /** Pressed and released with no modifier down, a modified key leaves no modifier behind. */
  lemma {:induction false} ModsKeycodeLeavesNothing(w: Width, h: Host, kc: bv16, count: nat, toggle: nat)
    requires 0x0100 <= kc <= 0x1fff && h.mods == 0 && h.weak == 0
    ensures Struck(w, Struck(w, h, kc, true, count, toggle), kc, false, count, toggle) == h
  {
    ModsKeycodeApplied(w, h, kc, count, toggle);
    ModsKeycodeApplied(w, Struck(w, h, kc, true, count, toggle), kc, count, toggle);
    if IsModifier(kc & 0xff) { AddedThenDeleted(h, ExtractModBits(kc), ModifierBit(kc & 0xff)); }
  }

  lemma {:induction false} AddedThenDeleted(h: Host, m: bv8, b: bv8)
    requires h.mods == 0
    ensures DelMods(DelMods(AddMods(AddMods(h, m), b), b), m) == h
  {}
}
