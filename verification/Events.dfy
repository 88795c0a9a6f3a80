/** Key events and records, as in quantum/keyboard.h and quantum/action.h. */
module Events {

  type u16 = x: int | 0 <= x < 0x1_0000
  type u4 = x: int | 0 <= x < 16

  datatype Key = Key(row: nat, col: nat)

  datatype EventKind = Tick | KeySwitch | EncoderCw | EncoderCcw | Combo | DipSwitchOn | DipSwitchOff

  datatype Event = Event(key: Key, time: u16, kind: EventKind, pressed: bool)

  // The `speculated` flag belongs to another build and is left out.
  datatype Tap = Tap(interrupted: bool, count: u4)

  datatype Record = Record(event: Event, tap: Tap)

  const NO_TAP := Tap(false, 0)
  const RESET := Record(Event(Key(0, 0), 0, Tick, false), NO_TAP)

  /** The 16-bit wrapping time difference. */
  function Elapsed(later: u16, earlier: u16): (d: u16) {
    (later - earlier) % 0x1_0000
  }

  /** A wrapped difference is the true one whenever the true span is below 2^16 ms. */
  lemma {:induction false} ElapsedIsTrueSpan(start: nat, now: nat)
    requires start <= now < start + 0x1_0000
    ensures Elapsed(now % 0x1_0000, start % 0x1_0000) == now - start
  {}
}
