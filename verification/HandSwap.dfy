/** Hand swapping in quantum/action.c: a packed bit per key remembers whether its press was swapped. */
module HandSwap {
  import opened Events
  import opened Packed

  /** Whether hands are swapped now, and whether each matrix key's latest event was swapped. */
  datatype State = State(swap: bool, swapped: imap<Key, bool>)

  type Layout = Key -> Key

  ghost function Process(s: State, layout: Layout, e: Event): (Event, State) {
    if e.kind.KeySwitch? && e.key in s.swapped then
      var doSwap := if e.pressed then s.swap else s.swapped[e.key];
      (if doSwap then e.(key := layout(e.key)) else e, s.(swapped := s.swapped[e.key := doSwap]))
    else
      (e, s)
  }

  class Swapper {
    const rows: nat
    const cols: nat
    const state: array<bv8>
    var swapHands: bool

    constructor (rows: nat, cols: nat)
      ensures Valid() && fresh(state) && this.rows == rows && this.cols == cols
      ensures View() == State(false, imap k | InMatrix(k, rows, cols) :: false)
    {
      this.rows, this.cols, swapHands := rows, cols, false;
      state := new bv8[(rows * cols + 7) / 8](_ => 0);
      new;
      forall k | InMatrix(k, rows, cols) ensures !Remembered(k) { EntryInRange(k, rows, cols); }
    }

    ghost predicate Valid() {
      state.Length == (rows * cols + 7) / 8
    }

    ghost predicate Flag(index: nat)
      requires Valid() && index < rows * cols
      reads state
    {
      BitOf(state[index / 8], index % 8)
    }

    ghost predicate Remembered(k: Key)
      requires Valid() && InMatrix(k, rows, cols)
      reads state
    {
      EntryInRange(k, rows, cols);
      Flag(EntryOf(k, cols))
    }

    ghost function View(): State
      requires Valid()
      reads this, state
    {
      State(swapHands, imap k | InMatrix(k, rows, cols) :: Remembered(k))
    }

    method ShouldSwapHands(index: nat, pressed: bool) returns (doSwap: bool)
      requires Valid() && index < rows * cols
      ensures doSwap == if pressed then swapHands else Flag(index)
    {
      doSwap := if pressed then swapHands else state[index / 8] & Bit(index % 8) != 0;
    }

    method SetSwapHandsState(index: nat, on: bool)
      requires Valid() && index < rows * cols
      modifies state
      ensures Flag(index) == on
      ensures forall o :: 0 <= o < rows * cols && o != index ==> Flag(o) == old(Flag(o))
    {
      var i, bit := index / 8, index % 8;
      state[i] := WriteBit(state[i], bit, on);
      forall o | 0 <= o < rows * cols && o / 8 == i ensures Flag(o) == if o == index then on else old(Flag(o)) {
        WriteBitSetsOneBit(old(state[i]), bit, on, o % 8);
      }
    }

    method ProcessHandSwap(layout: Layout, e: Event) returns (e': Event)
      requires Valid()
      modifies state
      ensures (e', View()) == Process(old(View()), layout, e)
    {
      e' := e;
      var k := e.key;
      if e.kind.KeySwitch? && k.row < rows && k.col < cols {
        EntryInRange(k, rows, cols);
        var index := EntryOf(k, cols);
        var doSwap := ShouldSwapHands(index, e.pressed);
        if doSwap { e' := e.(key := layout(k)); }
        SetSwapHandsState(index, doSwap);
        forall o | InMatrix(o, rows, cols) && o != k ensures Remembered(o) == old(Remembered(o)) {
          EntryInRange(o, rows, cols);
          EntriesDistinct(o, k, rows, cols);
        }
        assert View().swapped == old(View()).swapped[k := doSwap];
      }
    }
  }

  // ---------- Every run ----------

  /** Anything may set the swap flag; key events pass through. */
  datatype Happening = SetSwap(on: bool) | KeyEvent(event: Event)

  ghost function Next(s: State, layout: Layout, x: Happening): State {
    match x
    case SetSwap(on) => s.(swap := on)
    case KeyEvent(e) => Process(s, layout, e).1
  }

  ghost function Run(s: State, layout: Layout, xs: seq<Happening>): State
    decreases |xs|
  {
    if xs == [] then s else Next(Run(s, layout, xs[..|xs| - 1]), layout, xs[|xs| - 1])
  }

  ghost predicate NoPressOf(xs: seq<Happening>, k: Key) {
    forall i :: 0 <= i < |xs| ==> !(xs[i].KeyEvent? && xs[i].event.key == k && xs[i].event.pressed)
  }

  lemma {:induction false} MemoryLasts(s: State, layout: Layout, xs: seq<Happening>, k: Key)
    requires k in s.swapped && NoPressOf(xs, k)
    ensures k in Run(s, layout, xs).swapped && Run(s, layout, xs).swapped[k] == s.swapped[k]
    decreases |xs|
  {
    if xs != [] { MemoryLasts(s, layout, xs[..|xs| - 1], k); }
  }

  /** Whatever swaps or unswaps hands in between, a key's release goes where its latest press went. */
  lemma {:induction false} ReleaseFollowsPress(s: State, layout: Layout, press: Event, between: seq<Happening>,
                                               release: Event)
    requires press.kind.KeySwitch? && press.pressed && press.key in s.swapped
    requires release.kind.KeySwitch? && !release.pressed && release.key == press.key
    requires NoPressOf(between, press.key)
    ensures var p := Process(s, layout, press);
            Process(Run(p.1, layout, between), layout, release).0.key == p.0.key
  {
    MemoryLasts(Process(s, layout, press).1, layout, between, press.key);
  }

  /**
   * A matrix key goes to the other hand exactly when hands were swapped at its press, and nothing else of
   * its events changes.
   */
  lemma {:induction false} SwappedExactlyWhenSetAtPress(s: State, layout: Layout, press: Event,
                                                        between: seq<Happening>, release: Event)
    requires press.kind.KeySwitch? && press.pressed && press.key in s.swapped
    requires release.kind.KeySwitch? && !release.pressed && release.key == press.key
    requires NoPressOf(between, press.key)
    ensures var p := Process(s, layout, press);
            var k := if s.swap then layout(press.key) else press.key;
            p.0 == press.(key := k) && Process(Run(p.1, layout, between), layout, release).0 == release.(key := k)
  {
    MemoryLasts(Process(s, layout, press).1, layout, between, press.key);
  }

  /** An event remembers its own key's hand alone; events of other kinds and places pass through. */
  lemma {:induction false} OthersUntouched(s: State, layout: Layout, e: Event)
    ensures var p := Process(s, layout, e);
            && p.1.swap == s.swap && p.1.swapped.Keys == s.swapped.Keys
            && (forall k :: k in s.swapped && k != e.key ==> p.1.swapped[k] == s.swapped[k])
            && (!e.kind.KeySwitch? || e.key !in s.swapped ==> p == (e, s))
  {}
}
