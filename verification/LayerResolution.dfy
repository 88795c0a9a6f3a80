/**
 * Which layer a key event is resolved on: `layer_switch_get_layer` and `store_or_get_action` of
 * quantum/action_layer.c, and what they promise over every run.
 */
module LayerResolution {
  import opened Events
  import opened LayerCache

  const ACTION_TRANSPARENT: bv16 := 1

  type Keymap = (nat, Key) -> bv16

  /** A `uint8_t` layer number. */
  type u8 = x: int | 0 <= x < 256

  /** Layers that are on, and the layer every matrix key was last pressed on. */
  datatype State = State(on: set<nat>, pressedOn: imap<Key, bv8>)

  /** Layer `i` is on and says something about the key. */
  predicate Solid(on: set<nat>, keymap: Keymap, k: Key, i: nat) {
    i in on && keymap(i, k) != ACTION_TRANSPARENT
  }

  /** The search from the top, over the layers below `n`. */
  function TopLayer(on: set<nat>, keymap: Keymap, n: nat, k: Key): (l: nat)
    ensures l < n || l == 0
    decreases n
  {
    if n == 0 then 0 else if Solid(on, keymap, k, n - 1) then n - 1 else TopLayer(on, keymap, n - 1, k)
  }

  /** The result is solid and above every other solid layer. */
  lemma {:induction false} TopLayerIsHighest(on: set<nat>, keymap: Keymap, n: nat, k: Key, i: nat)
    requires i < n && Solid(on, keymap, k, i)
    ensures var l := TopLayer(on, keymap, n, k); i <= l < n && Solid(on, keymap, k, l)
    decreases n
  {
    if !Solid(on, keymap, k, n - 1) { TopLayerIsHighest(on, keymap, n - 1, k, i); }
  }

  /** With no solid layer the key falls back to layer 0. */
  lemma {:induction false} TopLayerFallsBack(on: set<nat>, keymap: Keymap, n: nat, k: Key)
    ensures var l := TopLayer(on, keymap, n, k); l == 0 || (l < n && Solid(on, keymap, k, l))
    decreases n
  {
    if n != 0 && !Solid(on, keymap, k, n - 1) { TopLayerFallsBack(on, keymap, n - 1, k); }
  }

  // ---------- Specification of `store_or_get_action` ----------

  ghost function StoreOrGet(s: State, keymap: Keymap, max: u8, pressed: bool, k: Key): (bv16, State) {
    if pressed then
      var l := TopLayer(s.on, keymap, max, k);
      (keymap(l, k), if k in s.pressedOn then s.(pressedOn := s.pressedOn[k := l as bv8]) else s)
    else
      (keymap(if k in s.pressedOn then s.pressedOn[k] as nat else 0, k), s)
  }

  /** Layer `l` is solid with no solid layer above it, or it is layer 0 and no layer is solid. */
  ghost predicate Topmost(on: set<nat>, keymap: Keymap, max: u8, k: Key, l: nat) {
    && (forall i :: l < i < max ==> !Solid(on, keymap, k, i))
    && ((l < max && Solid(on, keymap, k, l)) || (l == 0 && !(0 < max && Solid(on, keymap, k, 0))))
  }

  lemma {:induction false} TopmostIsFound(on: set<nat>, keymap: Keymap, max: u8, k: Key, l: nat)
    requires Topmost(on, keymap, max, k, l)
    ensures TopLayer(on, keymap, max, k) == l
  {
    TopLayerFallsBack(on, keymap, max, k);
    if l < max && Solid(on, keymap, k, l) { TopLayerIsHighest(on, keymap, max, k, l); }
  }

  /** A press gets the action of the topmost layer that says something about the key, and changes no layer. */
  lemma {:induction false} PressGetsTopmost(s: State, keymap: Keymap, max: u8, k: Key, l: nat)
    requires Topmost(s.on, keymap, max, k, l)
    ensures var press := StoreOrGet(s, keymap, max, true, k);
            && press.0 == keymap(l, k) && press.1.on == s.on && press.1.pressedOn.Keys == s.pressedOn.Keys
            && (k in s.pressedOn ==> press.1.pressedOn[k] as nat == l)
            && forall o :: o in s.pressedOn && o != k ==> press.1.pressedOn[o] == s.pressedOn[o]
  {
    TopmostIsFound(s.on, keymap, max, k, l);
    LayerSurvives(l);
  }

  // ---------- The code ----------

  /** The three builds: as many slices as the layer count needs. */
  ghost predicate LayersFit(max: u8, bits: nat) {
    (bits == 3 && max <= 8) || (bits == 4 && max <= 16) || (bits == 5 && max <= 32)
  }

  lemma {:induction false} LayerIsBelow(l: nat, max: u8, bits: nat)
    requires LayersFit(max, bits) && (l < max || l == 0)
    ensures l < 32 && Below(l as bv8, bits)
  {}

  class Resolver {
    var on: set<nat>
    const cache: Cache
    const max: u8

    ghost predicate Valid()
      reads this, cache
    {
      cache.Valid() && LayersFit(max, cache.bits)
    }

    ghost function View(): State
      requires Valid()
      reads this, cache, cache.slices
    {
      State(on, cache.View())
    }

    constructor (cache: Cache, max: u8)
      requires cache.Valid() && LayersFit(max, cache.bits)
      ensures Valid() && this.cache == cache && this.max == max && on == {}
    {
      this.cache, this.max, on := cache, max, {};
    }

    method LayerSwitchGetLayer(keymap: Keymap, k: Key) returns (l: nat)
      requires Valid()
      ensures l == TopLayer(on, keymap, max, k) && (l < max || l == 0)
    {
      var i: nat := max;
      while i > 0
        invariant i <= max && TopLayer(on, keymap, i, k) == TopLayer(on, keymap, max, k)
        decreases i
      {
        i := i - 1;
        if i in on && keymap(i, k) != ACTION_TRANSPARENT { return i; }
      }
      return 0;
    }

    method StoreOrGetAction(keymap: Keymap, pressed: bool, k: Key) returns (a: bv16)
      requires Valid()
      modifies cache.slices
      ensures Valid() && (a, View()) == StoreOrGet(old(View()), keymap, max, pressed, k)
    {
      var l;
      if pressed {
        l := LayerSwitchGetLayer(keymap, k);
        LayerIsBelow(l, max, cache.bits);
        cache.UpdateSourceLayersCache(k, l as bv8);
      } else {
        var cached := cache.ReadSourceLayersCache(k);
        l := cached as nat;
      }
      a := keymap(l, k);
    }
  }

  // ---------- Every run ----------

  datatype Happening = Switch(on: set<nat>) | KeyEvent(pressed: bool, key: Key)

  ghost function Next(s: State, keymap: Keymap, max: u8, x: Happening): State {
    match x
    case Switch(on) => s.(on := on)
    case KeyEvent(pressed, k) => StoreOrGet(s, keymap, max, pressed, k).1
  }

  ghost function Run(s: State, keymap: Keymap, max: u8, xs: seq<Happening>): State
    decreases |xs|
  {
    if xs == [] then s else Next(Run(s, keymap, max, xs[..|xs| - 1]), keymap, max, xs[|xs| - 1])
  }

  lemma {:induction false} OnlyItsOwnPressCounts(s: State, keymap: Keymap, max: u8, xs: seq<Happening>, k: Key)
    requires KeyEvent(true, k) !in xs && k in s.pressedOn
    ensures k in Run(s, keymap, max, xs).pressedOn && Run(s, keymap, max, xs).pressedOn[k] == s.pressedOn[k]
    decreases |xs|
  {
    if xs != [] {
      var n := |xs| - 1;
      assert xs[n] in xs;
      OnlyItsOwnPressCounts(s, keymap, max, xs[..n], k);
    }
  }

  lemma {:induction false} Successor(b: bv8)
    requires b < 255
    ensures (b + 1) as nat == b as nat + 1
  {}

  lemma {:induction false} BelowTop(b: bv8)
    requires b as nat < 255
    ensures b < 255
  {}

  lemma {:induction false} ByteSurvives(b: bv8)
    ensures (b as nat) as bv8 == b
  {}

  lemma {:induction false} LayerSurvives(l: nat)
    requires l < 256
    ensures (l as bv8) as nat == l
  {
    if l > 0 {
      LayerSurvives(l - 1);
      var b := (l - 1) as bv8;
      BelowTop(b);
      Successor(b);
      ByteSurvives(b + 1);
    }
  }

  /**
   * However layers are switched and whatever other keys do between them, the release of a matrix
   * key gets the action its latest press got.
   */
  lemma {:induction false} ReleaseMatchesPress(s: State, keymap: Keymap, max: u8, k: Key, between: seq<Happening>)
    requires k in s.pressedOn && KeyEvent(true, k) !in between
    ensures var press := StoreOrGet(s, keymap, max, true, k);
            var later := Run(press.1, keymap, max, between);
            StoreOrGet(later, keymap, max, false, k).0 == press.0
  {
    LayerSurvives(TopLayer(s.on, keymap, max, k));
    OnlyItsOwnPressCounts(StoreOrGet(s, keymap, max, true, k).1, keymap, max, between, k);
  }

  /** So a release gets the action of the layer that was topmost when its key was pressed. */
  lemma {:induction false} ReleaseGetsTopmostOfPress(s: State, keymap: Keymap, max: u8, k: Key,
                                                     between: seq<Happening>, l: nat)
    requires k in s.pressedOn && KeyEvent(true, k) !in between && Topmost(s.on, keymap, max, k, l)
    ensures var later := Run(StoreOrGet(s, keymap, max, true, k).1, keymap, max, between);
            StoreOrGet(later, keymap, max, false, k) == (keymap(l, k), later)
  {
    PressGetsTopmost(s, keymap, max, k, l);
    ReleaseMatchesPress(s, keymap, max, k, between);
  }

  /** A key outside the matrix has no memory: its release is resolved on layer 0. */
  lemma {:induction false} OutsideReleasedOnZero(s: State, keymap: Keymap, max: u8, k: Key)
    requires k !in s.pressedOn
    ensures StoreOrGet(s, keymap, max, false, k) == (keymap(0, k), s)
    ensures StoreOrGet(s, keymap, max, true, k).1 == s
  {}
}
