/** What every call of the tap-hold machine keeps, and conservation of events over every run. */
module TappingInvariant {
  import opened Events
  import opened Tapping

  // ---------- Where an event can be ----------

  ghost function Is(e: Event, x: Event): nat {
    if e == x then 1 else 0
  }

  ghost function Count(es: seq<Event>, x: Event): nat {
    if es == [] then 0 else Is(es[0], x) + Count(es[1..], x)
  }

  /** How often `x` was logged, made-up releases left aside. */
  ghost function LoggedCount(log: Log, x: Event): nat {
    if log == [] then 0 else
    var n := |log| - 1;
    LoggedCount(log[..n], x) + if log[n].synthetic then 0 else Is(log[n].rec.event, x)
  }

  ghost function PendingCount(s: State, x: Event): nat {
    if IsPending(s) then Is(s.tk.event, x) else 0
  }

  /** Occurrences of `x`: logged, pending, waiting or thrown away. */
  ghost function Total(s: State, x: Event): nat {
    LoggedCount(s.log, x) + PendingCount(s, x) + Count(EventsOf(s.buf), x) + Count(s.lost, x)
  }

  ghost function Fed(e: Event, x: Event): nat {
    if IsTick(e) then 0 else Is(e, x)
  }

  ghost function FedBy(inputs: seq<Input>, x: Event): nat {
    if inputs == [] then 0 else
    var n := |inputs| - 1;
    FedBy(inputs[..n], x) + Fed(inputs[n].event, x)
  }

  // ---------- The reachable states ----------

  /** Entry `i` is a real press of `key` with tap count `c`. */
  ghost predicate PressAt(log: Log, i: nat, key: Key, c: nat) {
    i < |log| && !log[i].synthetic && log[i].rec.event.pressed && log[i].rec.event.key == key &&
    log[i].rec.tap.count == c
  }

  ghost predicate PressLogged(log: Log, key: Key, c: nat) {
    exists i :: PressAt(log, i, key, c)
  }

  ghost predicate LoggedAt(log: Log, i: nat, e: Event, c: nat) {
    i < |log| && !log[i].synthetic && log[i].rec.event == e && log[i].rec.tap.count == c
  }

  ghost predicate Logged(log: Log, e: Event, c: nat) {
    exists i :: LoggedAt(log, i, e, c)
  }

  /** Every made-up release ends a tap of count above one that was logged before it. */
  ghost predicate SyntheticJustified(log: Log) {
    forall i :: 0 <= i < |log| && log[i].synthetic ==> Justified(log[..i], log[i].rec)
  }

  ghost predicate Justified(log: Log, r: Record) {
    !r.event.pressed && r.tap.count > 1 && PressLogged(log, r.event.key, r.tap.count)
  }

  ghost predicate BufferedOk(r: Record) {
    !IsTick(r.event) && (r.event.pressed ==> r.tap == NO_TAP)
  }

  /** One of the four states: reset, unsettled, tapped and held, tapped and released. */
  ghost predicate KeyOk(tk: Record, log: Log) {
    || tk == RESET
    || (!IsTick(tk.event) && tk.event.pressed && tk.tap.count == 0)
    || (!IsTick(tk.event) && tk.event.pressed && tk.tap.count > 0 && Logged(log, tk.event, tk.tap.count))
    || (!IsTick(tk.event) && !tk.event.pressed && tk.tap.count > 0 && Logged(log, tk.event, tk.tap.count)
        && PressLogged(log, tk.event.key, tk.tap.count))
  }

  ghost predicate BufferOk(buf: seq<Record>) {
    |buf| < WAITING_BUFFER_SIZE && forall r :: r in buf ==> BufferedOk(r)
  }

  ghost predicate Valid(s: State) {
    BufferOk(s.buf) && KeyOk(s.tk, s.log) && SyntheticJustified(s.log)
  }

  // ---------- One entry more ----------

  lemma {:induction false} Append(log: Log, x: Entry, e: Event)
    requires SyntheticJustified(log) && (x.synthetic ==> Justified(log, x.rec))
    ensures LoggedCount(log + [x], e) == LoggedCount(log, e) + if x.synthetic then 0 else Is(x.rec.event, e)
    ensures SyntheticJustified(log + [x])
    ensures !x.synthetic ==> Logged(log + [x], x.rec.event, x.rec.tap.count)
  {
    var log' := log + [x];
    assert log'[..|log|] == log && log'[|log|] == x;
    forall i | 0 <= i < |log'| && log'[i].synthetic ensures Justified(log'[..i], log'[i].rec) {
      if i < |log| { assert log'[..i] == log[..i]; }
    }
    if !x.synthetic { assert LoggedAt(log', |log|, x.rec.event, x.rec.tap.count); }
  }

  lemma {:induction false} PressStaysLogged(log: Log, x: Entry, k: Key, c: nat)
    requires PressLogged(log, k, c)
    ensures PressLogged(log + [x], k, c)
  {
    var i :| PressAt(log, i, k, c);
    assert PressAt(log + [x], i, k, c);
  }

  lemma {:induction false} LoggedPress(log: Log, e: Event, c: nat)
    requires Logged(log, e, c) && e.pressed
    ensures PressLogged(log, e.key, c)
  {
    var i :| LoggedAt(log, i, e, c);
    assert PressAt(log, i, e.key, c);
  }

  lemma {:induction false} KeyOkStays(tk: Record, log: Log, x: Entry)
    requires KeyOk(tk, log)
    ensures KeyOk(tk, log + [x])
  {
    if tk != RESET && tk.tap.count > 0 {
      var i :| LoggedAt(log, i, tk.event, tk.tap.count);
      assert LoggedAt(log + [x], i, tk.event, tk.tap.count);
      if !tk.event.pressed { PressStaysLogged(log, x, tk.event.key, tk.tap.count); }
    }
  }

  /** Logging `x` while the tapping key stays as it is. */
  lemma {:induction false} EmitKeeps(s: State, x: Record, e: Event)
    requires Valid(s)
    ensures Valid(Emit(s, x)) && Total(Emit(s, x), e) == Total(s, e) + Is(x.event, e)
  {
    Append(s.log, Entry(x, false), e);
    KeyOkStays(s.tk, s.log, Entry(x, false));
  }

  /** Logging `x` and taking it as the tapping key. */
  lemma {:induction false} EmitAsKey(s: State, x: Record, e: Event)
    requires Valid(s) && !IsTick(x.event) && x.tap.count > 0
    requires !x.event.pressed ==> PressLogged(s.log, x.event.key, x.tap.count)
    ensures var s' := Emit(s, x).(tk := x);
            Valid(s') && Total(s', e) == Total(s, e) - PendingCount(s, e) + Is(x.event, e)
  {
    Append(s.log, Entry(x, false), e);
    if !x.event.pressed { PressStaysLogged(s.log, Entry(x, false), x.event.key, x.tap.count); }
  }

  // ---------- One transition ----------

  /** What `ProcessTapping` keeps: it consumes the event exactly when it reports so. */
  ghost predicate Kept(s: State, r: Record, o: Outcome, e: Event) {
    && Valid(o.s)
    && EventsOf(o.s.buf) == EventsOf(s.buf)
    && o.rec.event == r.event
    && Total(o.s, e) == Total(s, e) + (if o.handled then Fed(r.event, e) else 0)
    && (!o.handled && r.event.pressed ==> o.rec == r)
  }

  ghost predicate Acceptable(r: Record) {
    r.event.pressed && !IsTick(r.event) ==> r.tap == NO_TAP
  }

  lemma {:induction false} ScanTapKeeps(env: Env, s: State, e: Event)
    requires Valid(s) && IsPending(s)
    ensures var s' := ScanTap(env, s);
            Valid(s') && EventsOf(s'.buf) == EventsOf(s.buf) && Total(s', e) == Total(s, e)
  {
    var k := FindRelease(env, s, 0);
    if k < |s.buf| {
      var hit := s.buf[k].(tap := s.buf[k].tap.(count := 1));
      var buf := s.buf[k := hit];
      assert BufferedOk(s.buf[k]);
      assert EventsOf(buf) == EventsOf(s.buf);
      EmitAsKey(s.(buf := buf), s.tk.(tap := s.tk.tap.(count := 1)), e);
    }
  }

  lemma {:induction false} StartTapKeeps(env: Env, s: State, r: Record, e: Event)
    requires Valid(s) && !IsPending(s)
    requires Acceptable(r) && r.event.pressed && !IsTick(r.event)
    ensures Kept(s, r, Outcome(StartTap(env, s, r), r, true), e)
  {
    ScanTapKeeps(env, s.(tk := r), e);
  }

  lemma {:induction false} FromResetKeeps(env: Env, s: State, r: Record, e: Event)
    requires Valid(s) && s.tk == RESET && Acceptable(r)
    ensures Kept(s, r, FromReset(env, s, r), e)
  {
    if IsTick(r.event) {
    } else if r.event.pressed && env.isTap(s.log, r.event.key) {
      StartTapKeeps(env, s, r, e);
    } else {
      EmitKeeps(s, r, e);
    }
  }

  /** The tapping key is settled as held: logged, then forgotten. */
  lemma {:induction false} SettleKeeps(s: State, e: Event)
    requires Valid(s) && IsPending(s)
    ensures var s' := Emit(s, s.tk).(tk := RESET); Valid(s') && Total(s', e) == Total(s, e)
  {
    EmitKeeps(s, s.tk, e);
  }

  lemma {:induction false} UnsettledKeeps(env: Env, s: State, r: Record, e: Event)
    requires Valid(s) && IsPending(s) && Acceptable(r) && !IsTick(r.event)
    ensures Kept(s, r, Unsettled(env, s, r), e)
  {
    if !r.event.pressed {
      if r.event.key == s.tk.event.key {
        EmitAsKey(s, s.tk.(tap := s.tk.tap.(count := 1)), e);
      } else if Typed(s.buf, r.event) && env.permissive(s.log, s.tk) {
        SettleKeeps(s, e);
      } else if !Typed(s.buf, r.event) && !env.retained(s.log, r.event.key, r.tap.count) {
        EmitKeeps(s, r, e);
      }
    } else {
      SettleKeeps(s.(tk := s.tk.(tap := s.tk.tap.(interrupted := true))), e);
    }
  }

  lemma {:induction false} UnregisterKeeps(s: State, time: u16, e: Event)
    requires Valid(s) && s.tk.event.pressed && s.tk.tap.count > 0
    ensures var s' := Unregister(s, time); Valid(s') && Total(s', e) == Total(s, e) && s'.(log := s.log) == s
  {
    if s.tk.tap.count > 1 {
      LoggedPress(s.log, s.tk.event, s.tk.tap.count);
      var x := Entry(SyntheticRelease(s.tk, time), true);
      Append(s.log, x, e);
      KeyOkStays(s.tk, s.log, x);
    }
  }

  lemma {:induction false} TappedKeeps(env: Env, s: State, r: Record, within: bool, e: Event)
    requires Valid(s) && s.tk.event.pressed && s.tk.tap.count > 0 && Acceptable(r)
    ensures Kept(s, r, Tapped(env, s, r, within), e)
  {
    if IsTick(r.event) {
    } else if r.event.key == s.tk.event.key && !r.event.pressed {
      LoggedPress(s.log, s.tk.event, s.tk.tap.count);
      EmitAsKey(s, r.(tap := s.tk.tap), e);
    } else if env.isTap(s.log, r.event.key) && r.event.pressed {
      UnregisterKeeps(s, r.event.time, e);
      StartTapKeeps(env, Unregister(s, r.event.time), r, e);
    } else {
      EmitKeeps(s, r, e);
    }
  }

  lemma {:induction false} ReleasedKeeps(env: Env, s: State, r: Record, e: Event)
    requires Valid(s) && !IsTick(s.tk.event) && !s.tk.event.pressed && Acceptable(r)
    ensures Kept(s, r, Released(env, s, r), e)
  {
    if !WithinTerm(env, s, r.event.time) || IsTick(r.event) {
    } else if !r.event.pressed {
      EmitKeeps(s, r, e);
    } else if r.event.key == s.tk.event.key {
      EmitAsKey(s, r.(tap := s.tk.tap.(count := NextCount(s.tk.tap.count))), e);
    } else if env.isTap(s.log, r.event.key) {
      StartTapKeeps(env, s, r, e);
    } else {
      EmitKeeps(s.(tk := s.tk.(tap := s.tk.tap.(interrupted := true))), r, e);
    }
  }

  lemma {:induction false} ProcessTappingKeeps(env: Env, s: State, r: Record, e: Event)
    requires Valid(s) && Acceptable(r)
    ensures Kept(s, r, ProcessTapping(env, s, r), e)
  {
    if IsTick(s.tk.event) {
      FromResetKeeps(env, s, r, e);
    } else if !s.tk.event.pressed {
      ReleasedKeeps(env, s, r, e);
    } else if s.tk.tap.count > 0 {
      TappedKeeps(env, s, r, WithinTerm(env, s, r.event.time), e);
    } else if !WithinTerm(env, s, r.event.time) {
      SettleKeeps(s, e);
    } else if !IsTick(r.event) {
      UnsettledKeeps(env, s, r, e);
    }
  }

  // ---------- One call ----------

  lemma {:induction false} CountConcat(a: seq<Event>, b: seq<Event>, x: Event)
    ensures Count(a + b, x) == Count(a, x) + Count(b, x)
  {
    if a == [] {
      assert a + b == b;
    } else {
      assert (a + b)[1..] == a[1..] + b;
      CountConcat(a[1..], b, x);
    }
  }

  lemma {:induction false} EnqueueKeeps(s: State, r: Record, e: Event)
    requires Valid(s) && (!IsTick(r.event) ==> BufferedOk(r))
    ensures Valid(Enqueue(s, r)) && Total(Enqueue(s, r), e) == Total(s, e) + Fed(r.event, e)
  {
    if IsTick(r.event) {
    } else if |s.buf| + 1 == WAITING_BUFFER_SIZE {
      CountConcat(s.lost, Pending(s), e);
      assert Count(Pending(s), e) == PendingCount(s, e);
      CountConcat(s.lost + Pending(s), EventsOf(s.buf), e);
      CountConcat(s.lost + Pending(s) + EventsOf(s.buf), [r.event], e);
    } else {
      assert EventsOf(s.buf + [r]) == EventsOf(s.buf) + [r.event];
      CountConcat(EventsOf(s.buf), [r.event], e);
    }
  }

  /** A consumed head of the queue is dropped. */
  lemma {:induction false} PopKeeps(s: State, o: Outcome, e: Event)
    requires s.buf != [] && |o.s.buf| == |s.buf| && Valid(s) && Kept(s, s.buf[0], o, e) && o.handled
    ensures var s' := o.s.(buf := o.s.buf[1..]); Valid(s') && Total(s', e) == Total(s, e)
  {
    assert EventsOf(s.buf)[0] == EventsOf(o.s.buf)[0];
    assert EventsOf(o.s.buf)[1..] == EventsOf(o.s.buf[1..]);
    assert BufferedOk(s.buf[0]);
  }

  /** A head that stays is written back as the transition left it. */
  lemma {:induction false} WriteBackKeeps(s: State, o: Outcome, e: Event)
    requires s.buf != [] && |o.s.buf| == |s.buf| && Valid(s) && Kept(s, s.buf[0], o, e) && !o.handled
    ensures var s' := o.s.(buf := o.s.buf[0 := o.rec]); Valid(s') && Total(s', e) == Total(s, e)
  {
    assert EventsOf(s.buf)[0] == EventsOf(o.s.buf)[0];
    assert EventsOf(o.s.buf[0 := o.rec]) == EventsOf(o.s.buf);
    assert BufferedOk(s.buf[0]);
  }

  lemma {:induction false} DrainKeeps(env: Env, s: State, e: Event)
    requires Valid(s)
    ensures Valid(Drain(env, s)) && Total(Drain(env, s), e) == Total(s, e)
    decreases |s.buf|
  {
    if s.buf != [] {
      var o := ProcessTapping(env, s, s.buf[0]);
      assert BufferedOk(s.buf[0]);
      ProcessTappingKeeps(env, s, s.buf[0], e);
      if o.handled {
        PopKeeps(s, o, e);
        DrainKeeps(env, o.s.(buf := o.s.buf[1..]), e);
      } else {
        WriteBackKeeps(s, o, e);
      }
    }
  }

  lemma {:induction false} StepKeeps(env: Env, s: State, i: Event, e: Event)
    requires Valid(s)
    ensures Valid(Step(env, s, i)) && Total(Step(env, s, i), e) == Total(s, e) + Fed(i, e)
  {
    var r := Record(i, NO_TAP);
    var o := ProcessTapping(env, s, r);
    ProcessTappingKeeps(env, s, r, e);
    if !o.handled { EnqueueKeeps(o.s, o.rec, e); }
    DrainKeeps(env, Feed(env, s, i), e);
  }

  // ---------- Every run ----------

  lemma {:induction false} RunValid(s: State, inputs: seq<Input>)
    requires Valid(s)
    ensures Valid(Run(s, inputs))
    decreases |inputs|
  {
    if inputs != [] {
      var n := |inputs| - 1;
      RunValid(s, inputs[..n]);
      StepKeeps(inputs[n].env, Run(s, inputs[..n]), inputs[n].event, inputs[n].event);
    }
  }

  /**
   * Over every run, with any events, any timestamps and any environment at every step:
   * the reached state is one of the four, and every event is, as often as it was fed,
   * logged, pending, waiting or thrown away by an overflow.
   */
  lemma {:induction false} EventConservation(inputs: seq<Input>, e: Event)
    ensures Valid(Run(INIT, inputs))
    ensures Total(Run(INIT, inputs), e) == FedBy(inputs, e)
    decreases |inputs|
  {
    if inputs != [] {
      var n := |inputs| - 1;
      EventConservation(inputs[..n], e);
      StepKeeps(inputs[n].env, Run(INIT, inputs[..n]), inputs[n].event, e);
    }
  }

  /** The state that `waiting_buffer_scan_tap` guards against is never reached. */
  lemma {:induction false} InvalidStateUnreachable(inputs: seq<Input>)
    ensures var s := Run(INIT, inputs); IsTick(s.tk.event) || s.tk.event.pressed || s.tk.tap.count > 0
    ensures var s := Run(INIT, inputs); forall r :: r in s.buf && r.event.pressed ==> r.tap.count == 0
    ensures |Run(INIT, inputs).buf| <= 7
  {
    EventConservation(inputs, RESET.event);
  }
}
