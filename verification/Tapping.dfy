/**
 * The tap-hold state machine of quantum/action_tapping.c on values.
 *
 * `State` holds the tapping key, the waiting events from tail to head, the log of
 * every record handed to `process_record` and the events an overflow threw away.
 * The log and the thrown-away events are history only: no branch reads `lost`, and the
 * log is read only by the environment, which answers as the layer state of that moment would.
 */
module Tapping {
  import opened Events

  /** `synthetic` marks the releases the machine makes up itself. */
  datatype Entry = Entry(rec: Record, synthetic: bool)
  type Log = seq<Entry>

  /**
   * What the machine asks of the keymap and the user callbacks. Answers may depend on
   * everything already processed, since processing a record can switch layers.
   */
  datatype Env = Env(
    isTap: (Log, Key) -> bool,
    retained: (Log, Key, nat) -> bool,
    term: (Log, Record) -> nat,
    quickTerm: (Log, Record) -> nat,
    permissive: (Log, Record) -> bool,
    holdOnPress: (Log, Record) -> bool)

  datatype State = State(tk: Record, buf: seq<Record>, log: Log, lost: seq<Event>)

  /** The record as it is after the call, and whether it was consumed. */
  datatype Outcome = Outcome(s: State, rec: Record, handled: bool)

  const WAITING_BUFFER_SIZE := 8

  const INIT := State(RESET, [], [], [])

  predicate IsTick(e: Event) { e.kind.Tick? }

  function Emit(s: State, r: Record): State {
    s.(log := s.log + [Entry(r, false)])
  }

  predicate WithinTerm(env: Env, s: State, time: u16) {
    Elapsed(time, s.tk.event.time) < env.term(s.log, s.tk)
  }

  predicate WithinQuickTerm(env: Env, s: State, time: u16) {
    Elapsed(time, s.tk.event.time) < env.quickTerm(s.log, s.tk)
  }

  /** Some waiting event is the opposite transition of the same key. */
  predicate Typed(buf: seq<Record>, e: Event) {
    exists i :: 0 <= i < |buf| && buf[i].event.key == e.key && buf[i].event.pressed != e.pressed
  }

  predicate ReleasesTappingKey(env: Env, s: State, r: Record) {
    !IsTick(r.event) && r.event.key == s.tk.event.key && !r.event.pressed && WithinTerm(env, s, r.event.time)
  }

  /** Index of the first waiting release of the tapping key inside the term, from `i` on; `|s.buf|` if none. */
  function FindRelease(env: Env, s: State, i: nat): (k: nat)
    requires i <= |s.buf|
    ensures i <= k <= |s.buf|
    ensures k < |s.buf| ==> ReleasesTappingKey(env, s, s.buf[k])
    ensures forall j :: i <= j < k ==> !ReleasesTappingKey(env, s, s.buf[j])
    decreases |s.buf| - i
  {
    if i == |s.buf| || ReleasesTappingKey(env, s, s.buf[i]) then i else FindRelease(env, s, i + 1)
  }

  function ScanTap(env: Env, s: State): (s': State)
    ensures |s'.buf| == |s.buf|
  {
    if s.tk.tap.count > 0 || !s.tk.event.pressed then s else
    var k := FindRelease(env, s, 0);
    if k == |s.buf| then s else
    var tk := s.tk.(tap := s.tk.tap.(count := 1));
    var hit := s.buf[k].(tap := s.buf[k].tap.(count := 1));
    Emit(s.(tk := tk, buf := s.buf[k := hit]), tk)
  }

  function StartTap(env: Env, s: State, r: Record): (s': State)
    ensures |s'.buf| == |s.buf|
  {
    ScanTap(env, s.(tk := r))
  }

  function FromReset(env: Env, s: State, r: Record): (o: Outcome)
    ensures |o.s.buf| == |s.buf|
  {
    if IsTick(r.event) then Outcome(s, r, true)
    else if r.event.pressed && env.isTap(s.log, r.event.key) then Outcome(StartTap(env, s, r), r, true)
    else Outcome(Emit(s, r), r, true)
  }

  /** Tapping key down, not settled, event inside the term. */
  function Unsettled(env: Env, s: State, r: Record): (o: Outcome)
    ensures |o.s.buf| == |s.buf|
  {
    if !r.event.pressed then
      if r.event.key == s.tk.event.key then
        var tk := s.tk.(tap := s.tk.tap.(count := 1));
        Outcome(Emit(s.(tk := tk), tk), r.(tap := tk.tap), false)
      else if Typed(s.buf, r.event) && env.permissive(s.log, s.tk) then
        Outcome(Emit(s, s.tk).(tk := RESET), r, false)
      else if !Typed(s.buf, r.event) && !env.retained(s.log, r.event.key, r.tap.count) then
        Outcome(Emit(s, r), r, true)
      else
        Outcome(s, r, false)
    else
      var s1 := s.(tk := s.tk.(tap := s.tk.tap.(interrupted := true)));
      if env.holdOnPress(s1.log, s1.tk) then Outcome(Emit(s1, s1.tk).(tk := RESET), r, false)
      else Outcome(s1, r, false)
  }

  /** The release the machine makes up when another tap key starts during a repeated tap. */
  function SyntheticRelease(tk: Record, time: u16): Record {
    Record(Event(tk.event.key, time, tk.event.kind, false), tk.tap)
  }

  function Unregister(s: State, time: u16): State {
    if s.tk.tap.count > 1 then s.(log := s.log + [Entry(SyntheticRelease(s.tk, time), true)]) else s
  }

  /** Tapping key down and settled as a tap. */
  function Tapped(env: Env, s: State, r: Record, within: bool): (o: Outcome)
    ensures |o.s.buf| == |s.buf|
  {
    if IsTick(r.event) then Outcome(s, r, true)
    else if r.event.key == s.tk.event.key && !r.event.pressed then
      var r' := r.(tap := s.tk.tap);
      Outcome(Emit(s, r').(tk := if within then r' else RESET), r', true)
    else if env.isTap(s.log, r.event.key) && r.event.pressed then
      Outcome(StartTap(env, Unregister(s, r.event.time), r), r, true)
    else
      Outcome(Emit(s, r), r, true)
  }

  function NextCount(c: u4): (c': u4) {
    if c < 15 then c + 1 else c
  }

  /** Tapping key already released. */
  function Released(env: Env, s: State, r: Record): (o: Outcome)
    ensures |o.s.buf| == |s.buf|
  {
    if !WithinTerm(env, s, r.event.time) then Outcome(s.(tk := RESET), r, false)
    else if IsTick(r.event) then Outcome(s, r, true)
    else if !r.event.pressed then Outcome(Emit(s, r), r, true)
    else if r.event.key == s.tk.event.key then
      if WithinQuickTerm(env, s, r.event.time) && !s.tk.tap.interrupted && s.tk.tap.count > 0 then
        var r' := r.(tap := s.tk.tap.(count := NextCount(s.tk.tap.count)));
        Outcome(Emit(s, r').(tk := r'), r', true)
      else
        Outcome(s.(tk := r), r, true)
    else if env.isTap(s.log, r.event.key) then Outcome(StartTap(env, s, r), r, true)
    else
      Outcome(Emit(s.(tk := s.tk.(tap := s.tk.tap.(interrupted := true))), r), r, true)
  }

  function ProcessTapping(env: Env, s: State, r: Record): (o: Outcome)
    ensures |o.s.buf| == |s.buf|
  {
    if IsTick(s.tk.event) then FromReset(env, s, r)
    else if !s.tk.event.pressed then Released(env, s, r)
    else if s.tk.tap.count > 0 then Tapped(env, s, r, WithinTerm(env, s, r.event.time))
    else if !WithinTerm(env, s, r.event.time) then Outcome(Emit(s, s.tk).(tk := RESET), r, false)
    else if IsTick(r.event) then Outcome(s, r, true)
    else Unsettled(env, s, r)
  }

  predicate IsPending(s: State) {
    !IsTick(s.tk.event) && s.tk.event.pressed && s.tk.tap.count == 0
  }

  function Pending(s: State): seq<Event> {
    if IsPending(s) then [s.tk.event] else []
  }

  function EventsOf(rs: seq<Record>): (es: seq<Event>)
    ensures |es| == |rs| && forall i :: 0 <= i < |rs| ==> es[i] == rs[i].event
  {
    seq(|rs|, i requires 0 <= i < |rs| => rs[i].event)
  }

  /** `waiting_buffer_enq`, and the clearing of everything when it reports an overflow. */
  function Enqueue(s: State, r: Record): State {
    if IsTick(r.event) then s
    else if |s.buf| + 1 == WAITING_BUFFER_SIZE then
      State(RESET, [], s.log, s.lost + Pending(s) + EventsOf(s.buf) + [r.event])
    else s.(buf := s.buf + [r])
  }

  function Drain(env: Env, s: State): (s': State)
    ensures |s'.buf| <= |s.buf|
    decreases |s.buf|
  {
    if s.buf == [] then s else
    var o := ProcessTapping(env, s, s.buf[0]);
    if o.handled then Drain(env, o.s.(buf := o.s.buf[1..]))
    else o.s.(buf := o.s.buf[0 := o.rec])
  }

  /** The first half of a call: the new record is consumed or enqueued. */
  function Feed(env: Env, s: State, e: Event): State {
    var o := ProcessTapping(env, s, Record(e, NO_TAP));
    if o.handled then o.s else Enqueue(o.s, o.rec)
  }

  /** One call of `action_tapping_process`. */
  function Step(env: Env, s: State, e: Event): State {
    Drain(env, Feed(env, s, e))
  }

  datatype Input = Input(env: Env, event: Event)

  /** A whole run; every step may see a different environment. */
  function Run(s: State, inputs: seq<Input>): State
    decreases |inputs|
  {
    if inputs == [] then s else
    var n := |inputs| - 1;
    Step(inputs[n].env, Run(s, inputs[..n]), inputs[n].event)
  }
}
