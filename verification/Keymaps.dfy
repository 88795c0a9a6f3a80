/** From the keycodes of a keymap to the action of a key event: compiler, layers and the memory of presses. */
module Keymaps {
  import opened Events
  import opened ActionCode
  import opened LayerResolution
  import Keycodes

  /** The keycode of each key on each layer. */
  type Codes = (nat, Key) -> bv16

  const KC_TRANSPARENT: bv16 := 1

  function Compile(codes: Codes): Keymap { (l: nat, k: Key) => ActionForKeycode(codes(l, k)) }

  /** Of the layers that are on, `l` is the topmost one whose keycode for the key is not transparent. */
  ghost predicate Shows(on: set<nat>, codes: Codes, max: u8, k: Key, l: nat) {
    && l < max && l in on && codes(l, k) != KC_TRANSPARENT
    && forall i :: l < i < max && i in on ==> codes(i, k) == KC_TRANSPARENT
  }

  lemma {:induction false} ShownIsTopmost(on: set<nat>, codes: Codes, max: u8, k: Key, l: nat)
    requires Shows(on, codes, max, k, l)
    ensures Topmost(on, Compile(codes), max, k, l)
  {
    Keycodes.TransparentCompiled(codes(l, k));
    forall i | l < i < max ensures !Solid(on, Compile(codes), k, i) { Keycodes.TransparentCompiled(codes(i, k)); }
  }

  /**
   * A press gets the action of the keycode on the topmost layer that is on and not transparent there, and so
   * does its release, however layers are switched and whatever other keys do in between.
   */
  lemma {:induction false} KeycodeOfTopmostLayer(s: State, codes: Codes, max: u8, k: Key, l: nat,
                                                 between: seq<Happening>)
    requires Shows(s.on, codes, max, k, l) && k in s.pressedOn && KeyEvent(true, k) !in between
    ensures var press := StoreOrGet(s, Compile(codes), max, true, k);
            var later := Run(press.1, Compile(codes), max, between);
            && press.0 == ActionForKeycode(codes(l, k))
            && StoreOrGet(later, Compile(codes), max, false, k).0 == ActionForKeycode(codes(l, k))
  {
    ShownIsTopmost(s.on, codes, max, k, l);
    PressGetsTopmost(s, Compile(codes), max, k, l);
    ReleaseGetsTopmostOfPress(s, Compile(codes), max, k, between, l);
  }

  /** Where every layer that is on is transparent, the key is what layer 0 says, on or not. */
  lemma {:induction false} TransparentFallsToZero(s: State, codes: Codes, max: u8, k: Key)
    requires forall i :: 0 <= i < max && i in s.on ==> codes(i, k) == KC_TRANSPARENT
    ensures StoreOrGet(s, Compile(codes), max, true, k).0 == ActionForKeycode(codes(0, k))
  {
    forall i | 0 <= i < max ensures !Solid(s.on, Compile(codes), k, i) { Keycodes.TransparentCompiled(codes(i, k)); }
    PressGetsTopmost(s, Compile(codes), max, k, 0);
  }
}
