/**
 * In which order the events of one key leave the tap-hold machine: in the order they arrived, exactly as long
 * as no event overtakes a waiting one.
 */
module TappingOrder {
  import opened Events
  import opened Tapping
  import opened TappingInvariant

  // ---------- The events of one key, in order ----------

  ghost function One(e: Event, k: Key): seq<Event> {
    if e.key == k then [e] else []
  }

  ghost function Of(es: seq<Event>, k: Key): seq<Event> {
    if es == [] then [] else Of(es[..|es| - 1], k) + One(es[|es| - 1], k)
  }

  /** The logged events of a key, made-up releases left aside. */
  ghost function LoggedOf(log: Log, k: Key): seq<Event> {
    if log == [] then [] else
    var n := |log| - 1;
    LoggedOf(log[..n], k) + if log[n].synthetic then [] else One(log[n].rec.event, k)
  }

  /** Logged, or taken as the key under decision. */
  ghost function Front(s: State, k: Key): seq<Event> {
    LoggedOf(s.log, k) + if IsPending(s) then One(s.tk.event, k) else []
  }

  /** All events of the key that the machine knows, in the order in which it deals with them. */
  ghost function Line(s: State, k: Key): seq<Event> {
    Front(s, k) + Of(EventsOf(s.buf), k)
  }

  ghost function Arrived(inputs: seq<Input>, k: Key): seq<Event> {
    if inputs == [] then [] else
    var n := |inputs| - 1;
    Arrived(inputs[..n], k) + if IsTick(inputs[n].event) then [] else One(inputs[n].event, k)
  }

  lemma {:induction false} OfAppend(es: seq<Event>, e: Event, k: Key)
    ensures Of(es + [e], k) == Of(es, k) + One(e, k)
  {
    assert (es + [e])[..|es|] == es;
  }

  lemma {:induction false} OfHead(es: seq<Event>, k: Key)
    requires es != []
    ensures Of(es, k) == One(es[0], k) + Of(es[1..], k)
  {
    if |es| > 1 {
      OfHead(es[..|es| - 1], k);
      assert es[..|es| - 1][1..] == es[1..][..|es| - 2];
    }
  }

  lemma {:induction false} LogOne(log: Log, x: Entry, k: Key)
    ensures LoggedOf(log + [x], k) == LoggedOf(log, k) + if x.synthetic then [] else One(x.rec.event, k)
  {
    assert (log + [x])[..|log|] == log;
  }

  // ---------- One transition ----------

  ghost function Consumed(o: Outcome, r: Record, k: Key): seq<Event> {
    if o.handled && !IsTick(r.event) then One(r.event, k) else []
  }

  /** A transition adds the event it consumes at the end of the line's front, and nothing else. */
  ghost predicate InLine(s: State, r: Record, o: Outcome, k: Key) {
    Front(o.s, k) == Front(s, k) + Consumed(o, r, k)
  }

  lemma {:induction false} EmitFront(s: State, r: Record, k: Key)
    requires !IsPending(s)
    ensures Front(Emit(s, r), k) == Front(s, k) + One(r.event, k)
  {
    LogOne(s.log, Entry(r, false), k);
  }

  /** Logging the key under decision, with any tap count, while the line stays as it is. */
  lemma {:induction false} SettleFront(s: State, tk: Record, tk': Record, k: Key)
    requires IsPending(s) && tk.event == s.tk.event && !IsPending(s.(tk := tk'))
    ensures Front(Emit(s, tk).(tk := tk'), k) == Front(s, k)
  {
    LogOne(s.log, Entry(tk, false), k);
  }

  lemma {:induction false} StartTapFront(env: Env, s: State, r: Record, k: Key)
    requires !IsPending(s) && Acceptable(r) && r.event.pressed && !IsTick(r.event)
    ensures Front(StartTap(env, s, r), k) == Front(s, k) + One(r.event, k)
  {
    var s1 := s.(tk := r);
    var i := FindRelease(env, s1, 0);
    if i < |s1.buf| {
      var tk := r.(tap := r.tap.(count := 1));
      SettleFront(s1, tk, tk, k);
    }
  }

  /** Logging an event of another key while the press stays under decision. */
  lemma {:induction false} PassFront(s: State, r: Record, k: Key)
    requires IsPending(s) && r.event.key != s.tk.event.key
    ensures Front(Emit(s, r), k) == Front(s, k) + One(r.event, k)
  {
    LogOne(s.log, Entry(r, false), k);
  }

  lemma {:induction false} UnsettledInLine(env: Env, s: State, r: Record, k: Key)
    requires IsPending(s) && !IsTick(r.event)
    ensures InLine(s, r, Unsettled(env, s, r), k)
  {
    if !r.event.pressed {
      if r.event.key == s.tk.event.key {
        var tk := s.tk.(tap := s.tk.tap.(count := 1));
        SettleFront(s, tk, tk, k);
      } else {
        SettleFront(s, s.tk, RESET, k);
        PassFront(s, r, k);
      }
    } else {
      var s1 := s.(tk := s.tk.(tap := s.tk.tap.(interrupted := true)));
      SettleFront(s1, s1.tk, RESET, k);
    }
  }

  lemma {:induction false} TappedInLine(env: Env, s: State, r: Record, within: bool, k: Key)
    requires Valid(s) && s.tk.event.pressed && s.tk.tap.count > 0 && Acceptable(r)
    ensures InLine(s, r, Tapped(env, s, r, within), k)
  {
    if IsTick(r.event) {
    } else if r.event.key == s.tk.event.key && !r.event.pressed {
      EmitFront(s, r.(tap := s.tk.tap), k);
    } else if env.isTap(s.log, r.event.key) && r.event.pressed {
      LogOne(s.log, Entry(SyntheticRelease(s.tk, r.event.time), true), k);
      StartTapFront(env, Unregister(s, r.event.time), r, k);
    } else {
      EmitFront(s, r, k);
    }
  }

  lemma {:induction false} ReleasedInLine(env: Env, s: State, r: Record, k: Key)
    requires Valid(s) && !IsTick(s.tk.event) && !s.tk.event.pressed && Acceptable(r)
    ensures InLine(s, r, Released(env, s, r), k)
  {
    var o := Released(env, s, r);
    if !WithinTerm(env, s, r.event.time) || IsTick(r.event) {
    } else if !r.event.pressed {
      EmitFront(s, r, k);
    } else if r.event.key == s.tk.event.key {
      EmitFront(s, o.rec, k);
    } else if env.isTap(s.log, r.event.key) {
      StartTapFront(env, s, r, k);
    } else {
      EmitFront(s.(tk := s.tk.(tap := s.tk.tap.(interrupted := true))), r, k);
    }
  }

  lemma {:induction false} ProcessTappingInLine(env: Env, s: State, r: Record, k: Key)
    requires Valid(s) && Acceptable(r)
    ensures InLine(s, r, ProcessTapping(env, s, r), k)
  {
    if IsTick(s.tk.event) {
      if IsTick(r.event) {
      } else if r.event.pressed && env.isTap(s.log, r.event.key) {
        StartTapFront(env, s, r, k);
      } else {
        EmitFront(s, r, k);
      }
    } else if !s.tk.event.pressed {
      ReleasedInLine(env, s, r, k);
    } else if s.tk.tap.count > 0 {
      TappedInLine(env, s, r, WithinTerm(env, s, r.event.time), k);
    } else if !WithinTerm(env, s, r.event.time) {
      SettleFront(s, s.tk, RESET, k);
    } else if !IsTick(r.event) {
      UnsettledInLine(env, s, r, k);
    }
  }

  // ---------- One call ----------

  /** Draining never changes the order of a key's events. */
  lemma {:induction false} DrainInLine(env: Env, s: State, k: Key)
    requires Valid(s)
    ensures Line(Drain(env, s), k) == Line(s, k)
    decreases |s.buf|
  {
    if s.buf != [] {
      var r := s.buf[0];
      var o := ProcessTapping(env, s, r);
      assert BufferedOk(r);
      ProcessTappingKeeps(env, s, r, r.event);
      ProcessTappingInLine(env, s, r, k);
      if o.handled {
        PopKeeps(s, o, r.event);
        PopInLine(s, o, k);
        DrainInLine(env, o.s.(buf := o.s.buf[1..]), k);
      } else {
        WriteBackInLine(s, o, k);
      }
    }
  }

  lemma {:induction false} PopInLine(s: State, o: Outcome, k: Key)
    requires s.buf != [] && EventsOf(o.s.buf) == EventsOf(s.buf) && |o.s.buf| == |s.buf|
    requires o.handled && !IsTick(s.buf[0].event) && InLine(s, s.buf[0], o, k)
    ensures Line(o.s.(buf := o.s.buf[1..]), k) == Line(s, k)
  {
    OfHead(EventsOf(s.buf), k);
    TailEvents(o.s.buf);
    assert EventsOf(s.buf)[0] == s.buf[0].event;
    var f, x, q := Front(s, k), One(s.buf[0].event, k), Of(EventsOf(s.buf)[1..], k);
    assert f + x + q == f + (x + q);
  }

  lemma {:induction false} TailEvents(rs: seq<Record>)
    requires rs != []
    ensures EventsOf(rs[1..]) == EventsOf(rs)[1..]
  {}

  lemma {:induction false} WriteBackInLine(s: State, o: Outcome, k: Key)
    requires s.buf != [] && EventsOf(o.s.buf) == EventsOf(s.buf) && |o.s.buf| == |s.buf|
    requires !o.handled && o.rec.event == s.buf[0].event && InLine(s, s.buf[0], o, k)
    ensures Line(o.s.(buf := o.s.buf[0 := o.rec]), k) == Line(s, k)
  {
    assert EventsOf(s.buf)[0] == EventsOf(o.s.buf)[0];
    assert EventsOf(o.s.buf[0 := o.rec]) == EventsOf(o.s.buf);
  }

  /** The incoming event is dealt with in this very call, before anything that waits. */
  predicate AtOnce(env: Env, s: State, e: Event) {
    if IsTick(s.tk.event) then true
    else if !s.tk.event.pressed then WithinTerm(env, s, e.time)
    else if s.tk.tap.count > 0 then true
    else
      && WithinTerm(env, s, e.time) && !e.pressed && e.key != s.tk.event.key
      && !Typed(s.buf, e) && !env.retained(s.log, e.key, 0)
  }

  lemma {:induction false} AtOnceMeansHandled(env: Env, s: State, e: Event)
    requires !IsTick(e)
    ensures ProcessTapping(env, s, Record(e, NO_TAP)).handled <==> AtOnce(env, s, e)
  {}

  /** It is dealt with before an event of its own key that is not just a copy of it. */
  ghost predicate Overtakes(env: Env, s: State, e: Event) {
    !IsTick(e) && AtOnce(env, s, e) && exists x :: x in Of(EventsOf(s.buf), e.key) && x != e
  }

  ghost function Incoming(e: Event, k: Key): seq<Event> {
    if IsTick(e) then [] else One(e, k)
  }

  lemma {:induction false} Rotated(q: seq<Event>, e: Event)
    ensures [e] + q == q + [e] <==> forall x :: x in q ==> x == e
  {
    if q != [] {
      Rotated(q[1..], e);
      if [e] + q == q + [e] {
        assert ([e] + q)[0] == q[0] == e;
        assert [e] + q[1..] == q == ([e] + q)[1..] == (q + [e])[1..] == q[1..] + [e];
      }
    }
    if forall x :: x in q ==> x == e {
      forall i | 0 <= i < |q| ensures q[i] == e { assert q[i] in q; }
      assert [e] + q == q + [e];
    }
  }

  lemma {:induction false} FeedLine(env: Env, s: State, e: Event, k: Key)
    requires Valid(s) && Feed(env, s, e).lost == s.lost
    ensures Valid(Feed(env, s, e))
    ensures Line(Feed(env, s, e), k) ==
            if AtOnce(env, s, e) then Front(s, k) + Incoming(e, k) + Of(EventsOf(s.buf), k)
            else Line(s, k) + Incoming(e, k)
  {
    var r := Record(e, NO_TAP);
    var o := ProcessTapping(env, s, r);
    ProcessTappingKeeps(env, s, r, e);
    ProcessTappingInLine(env, s, r, k);
    OutcomeLine(s, r, o, k);
    if !IsTick(e) { AtOnceMeansHandled(env, s, e); }
    if !o.handled {
      EnqueueKeeps(o.s, o.rec, e);
      KeepsLost(env, s, r);
      EnqueueLine(o.s, o.rec, k);
    }
  }

  lemma {:induction false} KeepsLost(env: Env, s: State, r: Record)
    ensures ProcessTapping(env, s, r).s.lost == s.lost
  {}

  lemma {:induction false} OutcomeLine(s: State, r: Record, o: Outcome, k: Key)
    requires InLine(s, r, o, k) && EventsOf(o.s.buf) == EventsOf(s.buf)
    ensures Line(o.s, k) == Front(s, k) + Consumed(o, r, k) + Of(EventsOf(s.buf), k)
    ensures Consumed(o, r, k) == [] ==> Line(o.s, k) == Line(s, k)
  {
    assert Front(s, k) + [] == Front(s, k);
  }

  lemma {:induction false} EnqueueAppends(s: State, r: Record)
    requires Enqueue(s, r).lost == s.lost && !IsTick(r.event)
    ensures Enqueue(s, r) == s.(buf := s.buf + [r])
  {
    assert |s.lost + Pending(s) + EventsOf(s.buf) + [r.event]| > |s.lost|;
  }

  lemma {:induction false} AppendedLine(s: State, r: Record, k: Key)
    ensures Line(s.(buf := s.buf + [r]), k) == Line(s, k) + One(r.event, k)
  {
    assert EventsOf(s.buf + [r]) == EventsOf(s.buf) + [r.event];
    OfAppend(EventsOf(s.buf), r.event, k);
    assert Front(s, k) + (Of(EventsOf(s.buf), k) + One(r.event, k)) == Line(s, k) + One(r.event, k);
  }

  lemma {:induction false} EnqueueLine(s: State, r: Record, k: Key)
    requires Enqueue(s, r).lost == s.lost
    ensures Line(Enqueue(s, r), k) == Line(s, k) + Incoming(r.event, k)
  {
    if IsTick(r.event) {
      assert Line(s, k) + [] == Line(s, k);
    } else {
      EnqueueAppends(s, r);
      AppendedLine(s, r, k);
    }
  }

  /** One call without overflow puts the event at the end of its key's line, unless it overtakes. */
  lemma {:induction false} StepLine(env: Env, s: State, e: Event, k: Key)
    requires Valid(s) && Step(env, s, e).lost == s.lost
    ensures Line(Step(env, s, e), k) == Line(s, k) + Incoming(e, k) <==> !(e.key == k && Overtakes(env, s, e))
  {
    LostBetween(env, s, e);
    FeedLine(env, s, e, k);
    DrainInLine(env, Feed(env, s, e), k);
    Inserted(Front(s, k), e, Of(EventsOf(s.buf), k));
    assert Front(s, k) + [] == Front(s, k) && Line(s, k) + [] == Line(s, k);
  }

  lemma {:induction false} Inserted(f: seq<Event>, e: Event, q: seq<Event>)
    ensures f + [e] + q == f + q + [e] <==> forall x :: x in q ==> x == e
  {
    Rotated(q, e);
    var a, b := [e] + q, q + [e];
    assert f + [e] + q == f + a && f + q + [e] == f + b;
    if f + a == f + b { assert a == (f + a)[|f|..] == (f + b)[|f|..] == b; }
  }

  lemma {:induction false} DrainLosesNothing(env: Env, s: State)
    ensures Drain(env, s).lost == s.lost
    decreases |s.buf|
  {
    if s.buf != [] {
      var o := ProcessTapping(env, s, s.buf[0]);
      if o.handled { DrainLosesNothing(env, o.s.(buf := o.s.buf[1..])); }
    }
  }

  lemma {:induction false} FeedLosesMore(env: Env, s: State, e: Event)
    ensures s.lost <= Feed(env, s, e).lost
  {
    KeepsLost(env, s, Record(e, NO_TAP));
  }

  lemma {:induction false} LostBetween(env: Env, s: State, e: Event)
    ensures s.lost <= Step(env, s, e).lost && Feed(env, s, e).lost == Step(env, s, e).lost
  {
    FeedLosesMore(env, s, e);
    DrainLosesNothing(env, Feed(env, s, e));
  }

  // ---------- Every run ----------

  /** The machine deals with the key's events in the order they arrived. */
  ghost predicate InOrder(s: State, inputs: seq<Input>, k: Key) {
    Line(Run(s, inputs), k) == Line(s, k) + Arrived(inputs, k)
  }

  /** The last event overtakes an earlier one of the key. */
  ghost predicate LastOvertakes(s: State, inputs: seq<Input>, k: Key)
    requires inputs != []
  {
    var n := |inputs| - 1;
    inputs[n].event.key == k && Overtakes(inputs[n].env, Run(s, inputs[..n]), inputs[n].event)
  }

  /** At every moment of the run. */
  ghost predicate AlwaysInOrder(s: State, inputs: seq<Input>, k: Key)
    decreases |inputs|
  {
    inputs == [] || (AlwaysInOrder(s, inputs[..|inputs| - 1], k) && InOrder(s, inputs, k))
  }

  ghost predicate NoneOvertakes(s: State, inputs: seq<Input>, k: Key)
    decreases |inputs|
  {
    inputs == [] || (NoneOvertakes(s, inputs[..|inputs| - 1], k) && !LastOvertakes(s, inputs, k))
  }

  /** One call more, from a state in which the key's line is in order. */
  lemma {:induction false} OneMoreInOrder(line: seq<Event>, past: seq<Event>, env: Env, s: State, e: Event, k: Key)
    requires Valid(s) && Step(env, s, e).lost == s.lost && Line(s, k) == line + past
    ensures Line(Step(env, s, e), k) == line + (past + Incoming(e, k)) <==> !(e.key == k && Overtakes(env, s, e))
  {
    StepLine(env, s, e, k);
    assert line + past + Incoming(e, k) == line + (past + Incoming(e, k));
  }

  /** The run up to its last event, and that event. */
  lemma {:induction false} LastStep(s: State, inputs: seq<Input>, k: Key) returns (before: State)
    requires Valid(s) && inputs != [] && Run(s, inputs).lost == []
    ensures before == Run(s, inputs[..|inputs| - 1]) && before.lost == []
    ensures var x := inputs[|inputs| - 1];
            && Run(s, inputs) == Step(x.env, before, x.event)
            && Arrived(inputs, k) == Arrived(inputs[..|inputs| - 1], k) + Incoming(x.event, k)
  {
    var n := |inputs| - 1;
    before := Run(s, inputs[..n]);
    LostBetween(inputs[n].env, before, inputs[n].event);
  }

  lemma {:induction false} InOrderNow(s: State, inputs: seq<Input>, k: Key)
    requires AlwaysInOrder(s, inputs, k)
    ensures Line(Run(s, inputs), k) == Line(s, k) + Arrived(inputs, k)
  {
    if inputs == [] { assert Line(s, k) + [] == Line(s, k); }
  }

  lemma {:induction false} LastInOrder(s: State, inputs: seq<Input>, k: Key)
    requires Valid(s) && inputs != [] && Run(s, inputs).lost == []
    requires AlwaysInOrder(s, inputs[..|inputs| - 1], k)
    ensures InOrder(s, inputs, k) <==> !LastOvertakes(s, inputs, k)
  {
    var n := |inputs| - 1;
    var before := LastStep(s, inputs, k);
    InOrderNow(s, inputs[..n], k);
    RunValid(s, inputs[..n]);
    OneMoreInOrder(Line(s, k), Arrived(inputs[..n], k), inputs[n].env, before, inputs[n].event, k);
  }

  /**
   * From every valid state, over every run without overflow: the events of a key are dealt with in the order
   * they arrived, at every moment, if and only if none of them comes, while an earlier one waits, in a state
   * in which it is dealt with at once.
   */
  lemma {:induction false} OrderKeptUnlessOvertaken(s: State, inputs: seq<Input>, k: Key)
    requires Valid(s) && Run(s, inputs).lost == []
    ensures AlwaysInOrder(s, inputs, k) <==> NoneOvertakes(s, inputs, k)
    decreases |inputs|
  {
    if inputs != [] {
      var before := LastStep(s, inputs, k);
      OrderKeptUnlessOvertaken(s, inputs[..|inputs| - 1], k);
      if AlwaysInOrder(s, inputs[..|inputs| - 1], k) { LastInOrder(s, inputs, k); }
    }
  }

  lemma {:induction false} LoggedFirst(s: State, k: Key)
    ensures LoggedOf(s.log, k) <= Line(s, k)
  {}

  /** In particular the log holds the key's first events in their order. */
  lemma {:induction false} LogFollowsArrival(s: State, inputs: seq<Input>, k: Key)
    requires Valid(s) && Line(s, k) == [] && Run(s, inputs).lost == [] && NoneOvertakes(s, inputs, k)
    ensures LoggedOf(Run(s, inputs).log, k) <= Arrived(inputs, k)
  {
    OrderKeptUnlessOvertaken(s, inputs, k);
    InOrderNow(s, inputs, k);
    LoggedFirst(Run(s, inputs), k);
  }

  // ---------- A run in which an event overtakes ----------

  const A := Key(0, 0)
  const B := Key(0, 1)
  const K := Key(0, 2)

  /** Two tap-hold keys, one with a long and one with a short term, and a plain key. */
  const EXAMPLE := Env((_, k: Key) => k == A || k == B, (_, _, _) => false,
                       (_, r: Record) => if r.event.key == A then 1000 else 100, (_, _) => 100,
                       (_, _) => false, (_, _) => false)

  function At(key: Key, time: u16, pressed: bool): Event { Event(key, time, KeySwitch, pressed) }

  function Untapped(e: Event): Record { Record(e, NO_TAP) }

  const DOWN: seq<Record> := [Untapped(At(B, 10, true)), Untapped(At(K, 200, true))]

  ghost function Logs(rs: seq<Record>): Log { seq(|rs|, i requires 0 <= i < |rs| => Entry(rs[i], false)) }

  /** The short key and the plain key go down while the long key is undecided. */
  lemma {:induction false} BothWait(s': State)
    requires s' == State(Record(At(A, 0, true), Tap(true, 0)), DOWN, [], [])
    ensures Step(EXAMPLE, Step(EXAMPLE, Step(EXAMPLE, INIT, At(A, 0, true)), At(B, 10, true)), At(K, 200, true)) == s'
  {
    var s := State(Untapped(At(A, 0, true)), [], [], []);
    assert Step(EXAMPLE, INIT, At(A, 0, true)) == s;
    var s1 := s'.(buf := [DOWN[0]]);
    assert Feed(EXAMPLE, s, At(B, 10, true)) == s1;
    assert Drain(EXAMPLE, s1) == s1;
    assert Feed(EXAMPLE, s1, At(K, 200, true)) == s'.(buf := [DOWN[0]] + [DOWN[1]]);
    assert Drain(EXAMPLE, s') == s';
  }

  /** Tapping the long key starts a drain that settles the short key and stops with nothing under decision. */
  lemma {:induction false} Stalls(s: State, s': State)
    requires s == State(Record(At(A, 0, true), Tap(true, 0)), DOWN, [], [])
    requires var tap := Record(At(A, 0, true), Tap(true, 1));
             s' == State(RESET, [DOWN[1], Record(At(A, 300, false), tap.tap)], Logs([tap, DOWN[0]]), [])
    ensures Step(EXAMPLE, s, At(A, 300, false)) == s'
  {
    var tap, up := Record(At(A, 0, true), Tap(true, 1)), Record(At(A, 300, false), Tap(true, 1));
    var s1 := State(tap, DOWN + [up], [Entry(tap, false)], []);
    assert Feed(EXAMPLE, s, At(A, 300, false)) == s1;
    var s2 := State(DOWN[0], [DOWN[1], up], [Entry(tap, false)], []);
    assert s1.buf[1..] == s2.buf;
    assert Drain(EXAMPLE, s1) == Drain(EXAMPLE, s2);
    assert s'.log == s2.log + [Entry(DOWN[0], false)];
    assert Drain(EXAMPLE, s2) == s';
  }

  /** The plain key's release is then processed before its press. */
  lemma {:induction false} ReleaseBeforePress(s: State)
    requires s.tk == RESET && |s.buf| == 2 && s.buf[0] == DOWN[1] && s.buf[1].event == At(A, 300, false)
    ensures LoggedOf(Step(EXAMPLE, s, At(K, 300, false)).log, K) ==
            LoggedOf(s.log, K) + [At(K, 300, false), At(K, 200, true)]
  {
    var up, down := Entry(Untapped(At(K, 300, false)), false), Entry(s.buf[0], false);
    var s1 := s.(log := s.log + [up]);
    assert Feed(EXAMPLE, s, At(K, 300, false)) == s1;
    var s2 := s1.(log := s1.log + [down], buf := s.buf[1..]);
    assert Drain(EXAMPLE, s1) == Drain(EXAMPLE, s2);
    var s3 := s2.(log := s2.log + [Entry(s.buf[1], false)], buf := []);
    assert Drain(EXAMPLE, s2) == Drain(EXAMPLE, s3) == s3;
    LogOne(s.log, up, K);
    LogOne(s1.log, down, K);
    LogOne(s2.log, Entry(s.buf[1], false), K);
  }

  /** Order per key can fail: five events of three keys, without overflow, log a release before its press. */
  lemma {:induction false} OrderCanFail(s: State, up: Event)
    requires s == Step(EXAMPLE, Step(EXAMPLE, Step(EXAMPLE, INIT, At(A, 0, true)), At(B, 10, true)), At(K, 200, true))
    requires up == At(K, 300, false)
    ensures LoggedOf(Step(EXAMPLE, Step(EXAMPLE, s, At(A, 300, false)), up).log, K) == [up, At(K, 200, true)]
  {
    BothWait(State(Record(At(A, 0, true), Tap(true, 0)), DOWN, [], []));
    var tap := Record(At(A, 0, true), Tap(true, 1));
    var s2 := State(RESET, [DOWN[1], Record(At(A, 300, false), tap.tap)], Logs([tap, DOWN[0]]), []);
    Stalls(s, s2);
    ReleaseBeforePress(s2);
    NothingOfK(tap);
  }

  lemma {:induction false} NothingOfK(tap: Record)
    requires tap.event.key != K
    ensures LoggedOf(Logs([tap, DOWN[0]]), K) == []
  {
    assert Logs([tap, DOWN[0]]) == [] + [Entry(tap, false)] + [Entry(DOWN[0], false)];
    LogOne([], Entry(tap, false), K);
    LogOne([] + [Entry(tap, false)], Entry(DOWN[0], false), K);
  }
}
