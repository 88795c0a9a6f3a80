/**
 * `process_action` of quantum/action.c as it stands, on the layer masks and modifier registers that it
 * changes in place, with the layer operations of quantum/action_layer.c. Masks are machine words.
 */
module ActionMachine {
  import opened ActionCode
  import opened LayerMeaning

  // ---------- Words and the sets of their bits ----------

  predicate HasBit(m: bv32, i: bv16)
    requires i < 32
  {
    (m >> i as bv6) & 1 == 1
  }

  ghost function MaskOf(m: bv32): Mask {
    iset i: bv16 | i < 32 && HasBit(m, i)
  }

  /** All bits of the build's `layer_state_t`. */
  function Full(w: Width): bv32 {
    match w case W8 => 0xff case W16 => 0xffff case W32 => 0xffff_ffff
  }

  /** `(layer_state_t)1 << layer`. */
  function OneLayer(w: Width, l: bv16): bv32
    requires l < 32
  {
    (1 << l as bv6) & Full(w)
  }

  /** The operand of a bitwise layer action: one chunk of four bits, and all the others with the extra bit. */
  function Operand(w: Width, a: bv16): bv32 {
    (Chunk(a) | Rest(a)) & Full(w)
  }

  function Chunk(a: bv16): bv32 { (a & 0xf) as bv32 << Shift(a) }

  function Rest(a: bv16): bv32 { if a & 0x10 != 0 then !(0xf << Shift(a)) else 0 }

  function Shift(a: bv16): (s: bv6)
    ensures s <= 28
  {
    (((a >> 5) & 7) * 4) as bv6
  }

  lemma {:induction false} OrBits(x: bv32, y: bv32, i: bv16)
    requires i < 32
    ensures HasBit(x | y, i) == (HasBit(x, i) || HasBit(y, i))
  {}

  lemma {:induction false} AndBits(x: bv32, y: bv32, i: bv16)
    requires i < 32
    ensures HasBit(x & y, i) == (HasBit(x, i) && HasBit(y, i))
  {}

  lemma {:induction false} XorBits(x: bv32, y: bv32, i: bv16)
    requires i < 32
    ensures HasBit(x ^ y, i) == (HasBit(x, i) != HasBit(y, i))
  {}

  lemma {:induction false} WithoutBits(x: bv32, y: bv32, i: bv16)
    requires i < 32
    ensures HasBit(x & !y, i) == (HasBit(x, i) && !HasBit(y, i))
  {}

  lemma {:induction false} OrMask(x: bv32, y: bv32)
    ensures MaskOf(x | y) == MaskOf(x) + MaskOf(y)
  {
    forall i: bv16 | i < 32 ensures HasBit(x | y, i) == (HasBit(x, i) || HasBit(y, i)) { OrBits(x, y, i); }
  }

  lemma {:induction false} AndMask(x: bv32, y: bv32)
    ensures MaskOf(x & y) == MaskOf(x) * MaskOf(y)
  {
    forall i: bv16 | i < 32 ensures HasBit(x & y, i) == (HasBit(x, i) && HasBit(y, i)) { AndBits(x, y, i); }
  }

  lemma {:induction false} XorMask(x: bv32, y: bv32)
    ensures MaskOf(x ^ y) == Xor(MaskOf(x), MaskOf(y))
  {
    forall i: bv16 | i < 32 ensures HasBit(x ^ y, i) == (HasBit(x, i) != HasBit(y, i)) { XorBits(x, y, i); }
  }

  lemma {:induction false} WithoutMask(x: bv32, y: bv32)
    ensures MaskOf(x & !y) == MaskOf(x) - MaskOf(y)
  {
    forall i: bv16 | i < 32 ensures HasBit(x & !y, i) == (HasBit(x, i) && !HasBit(y, i)) { WithoutBits(x, y, i); }
  }

  lemma {:induction false} OneMask(w: Width, l: bv16)
    requires l < 32
    ensures MaskOf(OneLayer(w, l)) == LayerBit(w, l)
  {}

  lemma {:induction false} ZeroMask()
    ensures MaskOf(0) == iset{}
  {}

  /** Whether the action's chunk of four has its bit for layer `i`. */
  predicate ChunkHas(a: bv16, i: bv16) {
    var base := ((a >> 5) & 7) * 4;
    (i == base && a & 1 != 0) || (i == base + 1 && a & 2 != 0) || (i == base + 2 && a & 4 != 0) ||
    (i == base + 3 && a & 8 != 0)
  }

  predicate Outside(a: bv16, i: bv16) {
    var base := ((a >> 5) & 7) * 4;
    i != base && i != base + 1 && i != base + 2 && i != base + 3
  }

  lemma {:induction false} OperandBits(w: Width, a: bv16, i: bv16)
    requires i < 32
    ensures HasBit(Operand(w, a), i) <==> InWidth(w, i) && (ChunkHas(a, i) || (a & 0x10 != 0 && Outside(a, i)))
  {}

  lemma {:induction false} ArgumentHolds(w: Width, a: bv16, i: bv16)
    ensures i in BitopArg(w, a) <==> InWidth(w, i) && (ChunkHas(a, i) || (a & 0x10 != 0 && Outside(a, i)))
  {}

  /** The operand is the set of layers the specification gives. */
  lemma {:induction false} OperandMask(w: Width, a: bv16)
    ensures MaskOf(Operand(w, a)) == BitopArg(w, a)
  {
    forall i: bv16 | i < 32 ensures i in MaskOf(Operand(w, a)) <==> i in BitopArg(w, a) {
      OperandBits(w, a, i);
      ArgumentHolds(w, a, i);
    }
  }

  lemma {:induction false} FieldsInRange(a: bv16)
    ensures LayerOf(a) < 32 && ModsOf(a) < 16 && LowByte(a) < 0x100
  {}

  // ---------- The code ----------

  /** `extract_mod_bits`; it finds the modifiers that the interpreter applies. */
  method ExtractModBits(kc: bv16) returns (mods: bv8)
    ensures mods == ActionCode.ExtractModBits(kc)
    ensures 0x0100 <= kc <= 0x1fff ==> var a := ActionForKeycode(kc); mods == Mods8(a, KindOf(a) == ACT_RMODS)
  {
    if !(0x0100 <= kc <= 0x1fff) { return 0; }
    ModsKeycodeMeaning(kc);
    mods := 0;
    if kc & 0x1000 != 0 {
      if kc & 0x0100 != 0 { mods := mods | 0x10; }
      if kc & 0x0200 != 0 { mods := mods | 0x20; }
      if kc & 0x0400 != 0 { mods := mods | 0x40; }
      if kc & 0x0800 != 0 { mods := mods | 0x80; }
    } else {
      if kc & 0x0100 != 0 { mods := mods | 0x01; }
      if kc & 0x0200 != 0 { mods := mods | 0x02; }
      if kc & 0x0400 != 0 { mods := mods | 0x04; }
      if kc & 0x0800 != 0 { mods := mods | 0x08; }
    }
  }

  class Actions {
    var layerState: bv32
    var defaultLayerState: bv32
    var mods: bv8
    var weakMods: bv8
    const width: Width

    constructor (w: Width)
      ensures width == w && View() == Host(iset{}, iset{}, 0, 0)
    {
      width, layerState, defaultLayerState, mods, weakMods := w, 0, 0, 0, 0;
      new;
      ZeroMask();
    }

    ghost function View(): Host
      reads this
    {
      Host(MaskOf(layerState), MaskOf(defaultLayerState), mods, weakMods)
    }

    /** The word of one layer. */
    static method OneBit(w: Width, l: bv16) returns (one: bv32)
      requires l < 32
      ensures MaskOf(one) == LayerBit(w, l)
    {
      OneMask(w, l);
      one := OneLayer(w, l);
    }

    method LayerOn(l: bv16)
      requires l < 32
      modifies this`layerState
      ensures View() == old(View()).(layers := old(View()).layers + LayerBit(width, l))
    {
      var one := OneBit(width, l);
      OrMask(layerState, one);
      layerState := layerState | one;
    }

    method LayerOff(l: bv16)
      requires l < 32
      modifies this`layerState
      ensures View() == old(View()).(layers := old(View()).layers - LayerBit(width, l))
    {
      var one := OneBit(width, l);
      WithoutMask(layerState, one);
      layerState := layerState & !one;
    }

    method LayerInvert(l: bv16)
      requires l < 32
      modifies this`layerState
      ensures View() == old(View()).(layers := Xor(old(View()).layers, LayerBit(width, l)))
    {
      var one := OneBit(width, l);
      XorMask(layerState, one);
      layerState := layerState ^ one;
    }

    method LayerMove(l: bv16)
      requires l < 32
      modifies this`layerState
      ensures View() == old(View()).(layers := LayerBit(width, l))
    {
      layerState := OneBit(width, l);
    }

    method LayerClear()
      modifies this`layerState
      ensures View() == old(View()).(layers := iset{})
    {
      ZeroMask();
      layerState := 0;
    }

    static method Operate(op: bv16, state: bv32, arg: bv32) returns (state': bv32)
      ensures MaskOf(state') == Bitop(op, MaskOf(state), MaskOf(arg))
    {
      AndMask(state, arg);
      OrMask(state, arg);
      XorMask(state, arg);
      if op == OP_BIT_AND { return state & arg; }
      if op == OP_BIT_OR { return state | arg; }
      if op == OP_BIT_XOR { return state ^ arg; }
      return arg;
    }

    method ProcessLayer(a: bv16, pressed: bool)
      modifies this`layerState, this`defaultLayerState
      ensures View() == LayerBitopAction(old(View()), BitopArg(width, a), (a >> 10) & 3, (a >> 8) & 3, pressed)
    {
      var op, on := (a >> 10) & 3, (a >> 8) & 3;
      OperandMask(width, a);
      if on == 0 {
        if !pressed { defaultLayerState := Operate(op, defaultLayerState, Operand(width, a)); }
      } else if on & (if pressed then ON_PRESS else ON_RELEASE) != 0 {
        layerState := Operate(op, layerState, Operand(width, a));
      }
    }

    method ProcessLayerMods(a: bv16, pressed: bool)
      modifies this`layerState, this`mods
      ensures View() == LayerModsAction(old(View()), LayerBit(width, ModsOf(a)), LowByte(a) as bv8, pressed)
    {
      FieldsInRange(a);
      if pressed {
        LayerOn(ModsOf(a));
        mods := mods | LowByte(a) as bv8;
      } else {
        mods := mods & !(LowByte(a) as bv8);
        LayerOff(ModsOf(a));
      }
    }

    method AddMods(m: bv8)
      modifies this`mods
      ensures View() == ActionCode.AddMods(old(View()), m)
    {
      mods := mods | m;
    }

    method DelMods(m: bv8)
      modifies this`mods
      ensures View() == ActionCode.DelMods(old(View()), m)
    {
      mods := mods & !m;
    }

    method AddWeakMods(m: bv8)
      modifies this`weakMods
      ensures View() == ActionCode.AddWeakMods(old(View()), m)
    {
      weakMods := weakMods | m;
    }

    method DelWeakMods(m: bv8)
      modifies this`weakMods
      ensures View() == ActionCode.DelWeakMods(old(View()), m)
    {
      weakMods := weakMods & !m;
    }

    method RegisterCode(code: bv16)
      modifies this`mods
      ensures View() == ActionCode.RegisterCode(old(View()), code)
    {
      if IsModifier(code) { AddMods(ModifierBit(code)); }
    }

    method UnregisterCode(code: bv16)
      modifies this`mods
      ensures View() == ActionCode.UnregisterCode(old(View()), code)
    {
      if IsModifier(code) { DelMods(ModifierBit(code)); }
    }

    method ProcessLayerTap(a: bv16, pressed: bool, count: nat, toggle: nat)
      modifies this`layerState, this`mods
      ensures View() == LayerTapAction(old(View()), LayerBit(width, LayerOf(a)), LowByte(a), pressed, count, toggle)
    {
      FieldsInRange(a);
      var l, code := LayerOf(a), LowByte(a);
      if code == OP_TAP_TOGGLE {
        if (if pressed then count < toggle else count <= toggle) { LayerInvert(l); }
      } else if code == OP_ON_OFF || code == OP_ONESHOT {
        if pressed { LayerOn(l); } else { LayerOff(l); }
      } else if code == OP_OFF_ON {
        if pressed { LayerOff(l); } else { LayerOn(l); }
      } else if code == OP_SET_CLEAR {
        if pressed { LayerMove(l); } else { LayerClear(); }
      } else if pressed {
        if count > 0 { RegisterCode(code); } else { LayerOn(l); }
      } else {
        if count > 0 { UnregisterCode(code); } else { LayerOff(l); }
      }
    }

    method ProcessModifiedKey(m: bv8, code: bv16, pressed: bool)
      modifies this`mods, this`weakMods
      ensures View() == ModifiedKey(old(View()), m, code, pressed)
    {
      if pressed {
        if IsModifier(code) || code == 0 { AddMods(m); } else { AddWeakMods(m); }
        RegisterCode(code);
      } else {
        UnregisterCode(code);
        if IsModifier(code) || code == 0 { DelMods(m); } else { DelWeakMods(m); }
      }
    }

    method ProcessModsTap(m: bv8, code: bv16, pressed: bool, count: nat, toggle: nat)
      modifies this`mods, this`weakMods
      ensures View() == ModsTap(old(View()), m, code, pressed, count, toggle)
    {
      if code == MODS_ONESHOT {
        ProcessModifiedKey(m, code, pressed);
      } else if code == MODS_TAP_TOGGLE {
        if pressed {
          if count <= toggle { AddMods(m); }
        } else {
          if count < toggle { DelMods(m); }
        }
      } else if pressed {
        if count > 0 { RegisterCode(code); } else { AddMods(m); }
      } else {
        if count > 0 { UnregisterCode(code); } else { DelMods(m); }
      }
    }

    method ProcessSwapHands(code: bv16, pressed: bool, count: nat)
      modifies this`mods
      ensures View() == SwapHandsAction(old(View()), code, pressed, count)
    {
      if !(OP_SH_TOGGLE <= code <= OP_SH_ONESHOT) && count > 0 {
        if pressed { RegisterCode(code); } else { UnregisterCode(code); }
      }
    }

    /** The machine words hold exactly the layers and modifiers that the specification gives. */
    method ProcessAction(a: bv16, pressed: bool, count: nat, toggle: nat)
      modifies this
      ensures View() == ActionCode.ProcessAction(width, old(View()), a, pressed, count, toggle)
    {
      var k := KindOf(a);
      if k <= ACT_RMODS {
        ProcessModifiedKey(Mods8(a, k == ACT_RMODS), LowByte(a), pressed);
      } else if k <= ACT_RMODS_TAP {
        ProcessModsTap(Mods8(a, k == ACT_RMODS_TAP), LowByte(a), pressed, count, toggle);
      } else if k == ACT_LAYER {
        ProcessLayer(a, pressed);
      } else if k == ACT_LAYER_MODS {
        ProcessLayerMods(a, pressed);
      } else if k == ACT_LAYER_TAP || k == ACT_LAYER_TAP_EXT {
        ProcessLayerTap(a, pressed, count, toggle);
      } else if k == ACT_SWAP_HANDS {
        ProcessSwapHands(LowByte(a), pressed, count);
      }
    }
  }
}
