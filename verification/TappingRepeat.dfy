/**
 * The tap-hold machine when no press is under decision: after a tap, during one, and at rest. Which press is a
 * repeated tap, which one starts a decision, and what happens to everything else.
 */
module TappingRepeat {
  import opened Events
  import opened Tapping
  import opened TappingInvariant
  import opened TappingVerdict

  // ---------- The three states ----------

  /** A tap was released, and may be repeated. */
  ghost predicate AfterTap(s: State) { !IsTick(s.tk.event) && !s.tk.event.pressed }

  /** A tap is held down. */
  ghost predicate DuringTap(s: State) { !IsTick(s.tk.event) && s.tk.event.pressed && s.tk.tap.count > 0 }

  ghost predicate AtRest(s: State) { s.tk == RESET }

  lemma {:induction false} OneOfThree(s: State)
    requires Valid(s) && !IsPending(s)
    ensures AtRest(s) || DuringTap(s) || AfterTap(s)
    ensures AfterTap(s) ==> s.tk.tap.count > 0
  {}

  /** Nothing is under decision and nothing waits. */
  ghost predicate Settled(s: State) { Valid(s) && !IsPending(s) && s.buf == [] }

  // ---------- A repeated tap ----------

  /** Pressed again within the quick-tap term of the release, with no press since the tap began. */
  ghost predicate Repeats(env: Env, s: State, e: Event) {
    && AfterTap(s) && !IsTick(e) && e.pressed && e.key == s.tk.event.key
    && WithinTerm(env, s, e.time) && WithinQuickTerm(env, s, e.time) && !s.tk.tap.interrupted
  }

  /** A repeat is logged at once, with the next count, and is the tap that is held down now. */
  lemma {:induction false} RepeatLogged(env: Env, s: State, e: Event)
    requires Settled(s) && Repeats(env, s, e)
    ensures var r := Record(e, Tap(false, NextCount(s.tk.tap.count)));
            Step(env, s, e) == State(r, [], s.log + [Entry(r, false)], s.lost)
  {}

  // ---------- A press that starts a decision ----------

  /** A tap-hold press that is no repeat. In its own term the key that was tapped last always counts as tap-hold. */
  ghost predicate Starts(env: Env, s: State, e: Event) {
    && !IsTick(e) && e.pressed
    && if AfterTap(s) && WithinTerm(env, s, e.time) && e.key == s.tk.event.key then !Repeats(env, s, e)
       else env.isTap(s.log, e.key)
  }

  /** A tap that is held down with a count above one gets a made-up release first. */
  ghost function Before(s: State, e: Event): State {
    if DuringTap(s) then Unregister(s, e.time) else s
  }

  lemma {:induction false} NoReleaseWaits(env: Env, s: State)
    requires s.buf == [] || (|s.buf| == 1 && s.buf[0].event.pressed)
    ensures ScanTap(env, s) == s
  {}

  lemma {:induction false} PressStarts(u: Rule, env: Env, s: State)
    requires Settled(s) && Starts(env, s, u.press)
    ensures Holding(u, Wait([], Before(s, u.press).log), Step(env, s, u.press))
    ensures Step(env, s, u.press).tk == Record(u.press, NO_TAP) && Step(env, s, u.press).lost == s.lost
    ensures Extends(Before(s, u.press), Step(env, s, u.press))
  {
    OneOfThree(s);
    var r := Record(u.press, NO_TAP);
    NoReleaseWaits(env, Before(s, u.press).(tk := r));
    NoReleaseWaits(env, s.(tk := r, buf := [r]));
    if AfterTap(s) && !WithinTerm(env, s, u.press.time) {
      assert Feed(env, s, u.press) == s.(tk := RESET, buf := [] + [r]);
      assert Drain(env, s.(tk := RESET, buf := [r])) == s.(tk := r);
    }
  }

  lemma {:induction false} BeforeCounts(s: State, e: Event)
    requires Settled(s)
    ensures LoggedCount(Before(s, e).log, e) == LoggedCount(s.log, e) && Before(s, e).lost == s.lost
    ensures var up := Record(Event(s.tk.event.key, e.time, s.tk.event.kind, false), s.tk.tap);
            Before(s, e).log == s.log + if DuringTap(s) && s.tk.tap.count > 1 then [Entry(up, true)] else []
  {
    OneOfThree(s);
    if DuringTap(s) { UnregisterKeeps(s, e.time, e); }
  }

  /**
   * A tap of count above one that another tap-hold press cuts short gets a made-up release, of the same key and
   * kind and with the same count, at the time of that press.
   */
  lemma {:induction false} MadeUpExactly(env: Env, s: State, e: Event)
    requires Settled(s) && DuringTap(s) && Starts(env, s, e)
    ensures var up := Record(Event(s.tk.event.key, e.time, s.tk.event.kind, false), s.tk.tap);
            Step(env, s, e).log == s.log + if s.tk.tap.count > 1 then [Entry(up, true)] else []
  {
    PressStarts(Rule(e, 0, false, false), env, s);
    BeforeCounts(s, e);
  }

  /**
   * A press that starts a decision is settled by the first decisive event that follows it, whichever of the
   * three states it is met in, and is logged exactly once.
   */
  lemma {:induction false} VerdictOfEveryPress(u: Rule, env: Env, inputs: seq<Input>, s: State)
    requires Settled(s) && Starts(env, s, u.press)
    requires forall i :: 0 <= i < |inputs| ==> Steady(u, inputs[i].env)
    requires u.press !in EventsIn(inputs)
    ensures Decided(u, inputs, Before(s, u.press), Run(Step(env, s, u.press), inputs))
  {
    PressStarts(u, env, s);
    BeforeCounts(s, u.press);
    StepKeeps(env, s, u.press, u.press);
    VerdictFromHolding(u, inputs, Before(s, u.press), Step(env, s, u.press));
  }

  // ---------- Everything else ----------

  /** Neither a repeat nor the start of a decision, and not the release of a tap that is held down. */
  ghost predicate Passes(env: Env, s: State, e: Event) {
    && !IsTick(e) && !Repeats(env, s, e) && !Starts(env, s, e)
    && !(DuringTap(s) && e.key == s.tk.event.key && !e.pressed)
  }

  /** After such an event: forgotten past the term, interrupted by a press after the tap, and else as before. */
  ghost function KeyAfter(env: Env, s: State, e: Event): Record {
    if !AfterTap(s) then s.tk
    else if !WithinTerm(env, s, e.time) then RESET
    else if e.pressed then s.tk.(tap := s.tk.tap.(interrupted := true))
    else s.tk
  }

  /** All other events are logged at once and as they are. */
  lemma {:induction false} PassedOn(env: Env, s: State, e: Event)
    requires Settled(s) && Passes(env, s, e)
    ensures Step(env, s, e) == State(KeyAfter(env, s, e), [], s.log + [Entry(Record(e, NO_TAP), false)], s.lost)
  {
    OneOfThree(s);
    var r := Record(e, NO_TAP);
    if AfterTap(s) && !WithinTerm(env, s, e.time) {
      assert Feed(env, s, e) == s.(tk := RESET, buf := [] + [r]);
      assert Drain(env, s.(tk := RESET, buf := [r])) == Emit(s.(tk := RESET), r);
    }
  }

  /** A tick only ends the time in which a tap can be repeated. */
  lemma {:induction false} TickPasses(env: Env, s: State, e: Event)
    requires Settled(s) && IsTick(e)
    ensures Step(env, s, e) == s.(tk := if AfterTap(s) && !WithinTerm(env, s, e.time) then RESET else s.tk)
  {
    OneOfThree(s);
  }

  /** A tap's release carries its count; past the term the tap cannot be repeated. */
  lemma {:induction false} TapReleased(env: Env, s: State, e: Event)
    requires Settled(s) && DuringTap(s) && !IsTick(e) && !e.pressed && e.key == s.tk.event.key
    ensures var r := Record(e, s.tk.tap);
            Step(env, s, e) ==
            State(if WithinTerm(env, s, e.time) then r else RESET, [], s.log + [Entry(r, false)], s.lost)
  {}

  // ---------- Between a tap and the next press ----------

  ghost predicate Press(e: Event) { !IsTick(e) && e.pressed }

  ghost predicate AnyPress(es: seq<Event>) { exists j :: 0 <= j < |es| && Press(es[j]) }

  /** Inside the term, and neither a repeat nor the start of a decision. */
  ghost predicate Quiet(env: Env, s: State, e: Event) {
    AfterTap(s) && WithinTerm(env, s, e.time) && (IsTick(e) || Passes(env, s, e))
  }

  ghost predicate AllQuiet(s: State, inputs: seq<Input>)
    decreases |inputs|
  {
    inputs == [] ||
    var n := |inputs| - 1;
    AllQuiet(s, inputs[..n]) && Quiet(inputs[n].env, Run(s, inputs[..n]), inputs[n].event)
  }

  lemma {:induction false} OneMorePress(es: seq<Event>, e: Event)
    ensures AnyPress(es + [e]) <==> AnyPress(es) || Press(e)
  {
    var es' := es + [e];
    assert es'[|es|] == e;
    if AnyPress(es) {
      var j :| 0 <= j < |es| && Press(es[j]);
      assert es'[j] == es[j];
    }
    if AnyPress(es') {
      var j :| 0 <= j < |es'| && Press(es'[j]);
      assert j < |es| ==> es[j] == es'[j];
    }
  }

  lemma {:induction false} QuietStep(env: Env, s: State, e: Event)
    requires Settled(s) && Quiet(env, s, e)
    ensures var s' := Step(env, s, e);
            && Settled(s') && s'.lost == s.lost && s.log <= s'.log
            && s'.tk == s.tk.(tap := s.tk.tap.(interrupted := s.tk.tap.interrupted || Press(e)))
  {
    StepKeeps(env, s, e, e);
    if IsTick(e) { TickPasses(env, s, e); } else { PassedOn(env, s, e); }
  }

  /** The tap is remembered, and interrupted exactly if another key was pressed. */
  lemma {:induction false} QuietRun(s: State, inputs: seq<Input>)
    requires Settled(s) && AfterTap(s) && AllQuiet(s, inputs)
    ensures var s' := Run(s, inputs);
            && Settled(s') && s'.lost == s.lost && s.log <= s'.log
            && s'.tk == s.tk.(tap := s.tk.tap.(interrupted := s.tk.tap.interrupted || AnyPress(EventsIn(inputs))))
    decreases |inputs|
  {
    if inputs != [] {
      var n := |inputs| - 1;
      QuietRun(s, inputs[..n]);
      QuietStep(inputs[n].env, Run(s, inputs[..n]), inputs[n].event);
      assert EventsIn(inputs) == EventsIn(inputs[..n]) + [inputs[n].event];
      OneMorePress(EventsIn(inputs[..n]), inputs[n].event);
    }
  }

  /**
   * A press of the key that was tapped last, inside its term, is a repeat if and only if it comes within the
   * quick-tap term of the release and no other key was pressed during the tap's decision or since the release.
   * A repeat is logged at once with the next count; otherwise nothing is logged, and the first decisive event
   * after it decides.
   */
  lemma {:induction false} RepeatExactlyWhen(s: State, quiet: seq<Input>, u: Rule, env: Env, inputs: seq<Input>)
    requires Settled(s) && AfterTap(s) && AllQuiet(s, quiet)
    requires Press(u.press) && u.press.key == s.tk.event.key && WithinTerm(env, Run(s, quiet), u.press.time)
    requires forall i :: 0 <= i < |inputs| ==> Steady(u, inputs[i].env)
    requires u.press !in EventsIn(inputs)
    ensures var s1 := Run(s, quiet);
            var again := Record(u.press, Tap(false, NextCount(s.tk.tap.count)));
            if Elapsed(u.press.time, s.tk.event.time) < env.quickTerm(s1.log, s1.tk)
               && !s.tk.tap.interrupted && !AnyPress(EventsIn(quiet))
            then Step(env, s1, u.press) == State(again, [], s1.log + [Entry(again, false)], s1.lost)
            else Step(env, s1, u.press).log == s1.log && Decided(u, inputs, s1, Run(Step(env, s1, u.press), inputs))
  {
    var s1 := Run(s, quiet);
    QuietRun(s, quiet);
    if Repeats(env, s1, u.press) {
      RepeatLogged(env, s1, u.press);
    } else {
      PressStarts(u, env, s1);
      VerdictOfEveryPress(u, env, inputs, s1);
    }
  }

  // ---------- From the first press of the tap ----------

  lemma {:induction false} TailPress(q: seq<Event>)
    requires q != []
    ensures AnyPress(q[1..]) ==> AnyPress(q)
  {
    if AnyPress(q[1..]) {
      var j :| 0 <= j < |q[1..]| && Press(q[1..][j]);
      assert q[j + 1] == q[1..][j];
    }
  }

  /** While nothing is decided, draining leaves the tapping key as it is. */
  lemma {:induction false} DrainKeepsKey(u: Rule, env: Env, w: Wait, s: State)
    requires Steady(u, env) && Holding(u, w, s) && MayWait(u, w.queue)
    requires s.tk.tap.interrupted || !AnyPress(w.queue)
    requires !(u.permissive && Exposed(Prune(env, w)))
    ensures Drain(env, s).tk == s.tk
    decreases |w.queue|
  {
    if Free(env, w) {
      HeadLeaves(u, env, w, s);
      TailPress(w.queue);
      DrainKeepsKey(u, env, Wait(w.queue[1..], Through(w.log, w.queue[0])), Emit(s, s.buf[0]).(buf := s.buf[1..]));
    } else if w.queue != [] {
      HeadKeepsKey(u, env, w, s);
    }
  }

  lemma {:induction false} HeadKeepsKey(u: Rule, env: Env, w: Wait, s: State)
    requires Steady(u, env) && Holding(u, w, s) && MayWait(u, w.queue) && w.queue != []
    requires s.tk.tap.interrupted || !AnyPress(w.queue)
    requires !Free(env, w) && !(u.permissive && Exposed(w))
    ensures Drain(env, s).tk == s.tk
  {
    var e := w.queue[0];
    assert e in w.queue;
    if !e.pressed { TypedIsPressedIn(w.queue, e); } else { assert Press(w.queue[0]); }
  }

  /** An event that decides nothing marks the key as interrupted exactly if it is a press. */
  lemma {:induction false} FeedMarksKey(u: Rule, env: Env, w: Wait, s: State, e: Event)
    requires Steady(u, env) && Holding(u, w, s) && !Late(u, e)
    requires !IsTick(e) ==> OtherEvent(u, e) && !Interferes(u, w, e)
    requires Joins(env, w, e) ==> |w.queue| < 7
    ensures Feed(env, s, e).tk == s.tk.(tap := s.tk.tap.(interrupted := s.tk.tap.interrupted || Press(e)))
  {
    if !IsTick(e) && !e.pressed { TypedIsPressedIn(w.queue, e); }
  }

  lemma {:induction false} QueuedPress(base: Log, inputs: seq<Input>, n: nat)
    requires n <= |inputs| && AnyPress(Waiting(base, inputs, n).queue)
    ensures AnyPress(EventsIn(inputs)[..n])
  {
    var q, es := Waiting(base, inputs, n).queue, EventsIn(inputs);
    var j :| 0 <= j < |q| && Press(q[j]);
    assert PressedIn(q, q[j].key);
    QueueHoldsPresses(base, inputs, n, q[j].key);
    var i :| 0 <= i < n && !IsTick(es[i]) && es[i].pressed && es[i].key == q[j].key;
    assert Press(es[..n][i]);
  }

  /** What one undecided event does to the tapping key. */
  lemma {:induction false} StepMarksKey(u: Rule, inputs: seq<Input>, n: nat, base: Log, s: State)
    requires n < |inputs| && Steady(u, inputs[n].env) && Open(u, base, inputs, n + 1)
    requires Holding(u, Waiting(base, inputs, n), s)
    requires s.tk.tap.interrupted <==> AnyPress(EventsIn(inputs)[..n])
    ensures var e := inputs[n].event;
            Step(inputs[n].env, s, e).tk == s.tk.(tap := s.tk.tap.(interrupted := s.tk.tap.interrupted || Press(e)))
  {
    var env, e, w := inputs[n].env, inputs[n].event, Waiting(base, inputs, n);
    assert Decision(u, base, inputs, n).Undecided?;
    QueueFits(u, base, inputs, n);
    QueueHoldsPresses(base, inputs, n, e.key);
    FeedMarksKey(u, env, w, s, e);
    FeedWaits(u, env, w, s, e);
    OpenMayWait(u, base, inputs, n);
    if AnyPress(Take(env, w, e).queue) && !Press(e) { TakenPress(env, w, e); QueuedPress(base, inputs, n); }
    DrainKeepsKey(u, env, Take(env, w, e), Feed(env, s, e));
  }

  lemma {:induction false} TakenPress(env: Env, w: Wait, e: Event)
    requires AnyPress(Take(env, w, e).queue) && !Press(e)
    ensures AnyPress(w.queue)
  {
    var q := Take(env, w, e).queue;
    var j :| 0 <= j < |q| && Press(q[j]);
    assert j < |w.queue| && w.queue[j] == q[j];
  }

  /** While undecided, the key is marked as interrupted exactly if another press came. */
  lemma {:induction false} InterruptedMeansPress(u: Rule, inputs: seq<Input>, n: nat, base: State, s: State)
    requires n <= |inputs| && Extends(base, s) && Holding(u, Wait([], base.log), s) && s.tk == Record(u.press, NO_TAP)
    requires (forall i :: 0 <= i < |inputs| ==> Steady(u, inputs[i].env)) && Open(u, base.log, inputs, n)
    ensures Run(s, inputs[..n]).tk == Record(u.press, Tap(AnyPress(EventsIn(inputs)[..n]), 0))
  {
    if n > 0 {
      InterruptedMeansPress(u, inputs, n - 1, base, s);
      RunDecides(u, inputs, n - 1, base, s);
      StillOpen(u, base.log, inputs, n - 1);
      OneMoreMarked(u, inputs, n - 1, base.log, Run(s, inputs[..n - 1]));
      RunOne(s, inputs, n - 1);
    }
  }

  lemma {:induction false} RunOne(s: State, inputs: seq<Input>, n: nat)
    requires n < |inputs|
    ensures Run(s, inputs[..n + 1]) == Step(inputs[n].env, Run(s, inputs[..n]), inputs[n].event)
  {
    assert inputs[..n + 1][..n] == inputs[..n];
  }

  lemma {:induction false} OneMoreMarked(u: Rule, inputs: seq<Input>, n: nat, base: Log, s: State)
    requires n < |inputs| && Steady(u, inputs[n].env) && Open(u, base, inputs, n + 1)
    requires Holding(u, Waiting(base, inputs, n), s)
    requires s.tk == Record(u.press, Tap(AnyPress(EventsIn(inputs)[..n]), 0))
    ensures Step(inputs[n].env, s, inputs[n].event).tk == Record(u.press, Tap(AnyPress(EventsIn(inputs)[..n + 1]), 0))
  {
    StepMarksKey(u, inputs, n, base, s);
    OneMorePress(EventsIn(inputs)[..n], inputs[n].event);
    assert EventsIn(inputs)[..n + 1] == EventsIn(inputs)[..n] + [inputs[n].event];
  }

  /** No waiting press is of a tap-hold key, on whatever layer. */
  ghost predicate NoTapHoldWaits(env: Env, q: seq<Event>) {
    forall x, l :: x in q && x.pressed ==> !env.isTap(l, x.key)
  }

  ghost function PassedOnLog(log: Log, q: seq<Event>): Log
    decreases |q|
  {
    if q == [] then log else PassedOnLog(Through(log, q[0]), q[1..])
  }

  /** A queue with the tap's own release at its end is passed on in order, and the tap can then be repeated. */
  lemma {:induction false} DrainTap(u: Rule, env: Env, s: State, q: seq<Event>, e: Event)
    requires Steady(u, env) && DuringTap(s) && s.tk.event == u.press && MayWait(u, q) && NoTapHoldWaits(env, q)
    requires !IsTick(e) && !e.pressed && e.key == u.press.key && !Late(u, e)
    requires s.buf == Fresh(q) + [Record(e, s.tk.tap)]
    ensures var r := Record(e, s.tk.tap);
            Drain(env, s) == State(r, [], PassedOnLog(s.log, q) + [Entry(r, false)], s.lost)
    decreases |q|
  {
    if q == [] {
      assert s.buf == [Record(e, s.tk.tap)];
      assert s.buf[1..] == [];
    } else {
      assert q[0] in q;
      assert s.buf[0] == Record(q[0], NO_TAP);
      assert s.buf[1..] == Fresh(q[1..]) + [Record(e, s.tk.tap)];
      DrainTap(u, env, Emit(s, s.buf[0]).(buf := s.buf[1..]), q[1..], e);
    }
  }

  /**
   * The own release inside the term ends the decision as a tap: the press is logged with count 1, then what
   * waited, then the release, and the tap can be repeated unless a press came while it was undecided.
   */
  lemma {:induction false} TapEnds(u: Rule, inputs: seq<Input>, base: State, s: State, env: Env, e: Event)
    requires Extends(base, s) && Holding(u, Wait([], base.log), s) && s.tk == Record(u.press, NO_TAP)
    requires (forall i :: 0 <= i < |inputs| ==> Steady(u, inputs[i].env)) && Steady(u, env)
    requires Open(u, base.log, inputs, |inputs|) && !IsTick(e) && !e.pressed && e.key == u.press.key && !Late(u, e)
    requires var q := Waiting(base.log, inputs, |inputs|).queue; |q| < 7 && NoTapHoldWaits(env, q)
    ensures var w, tap := Waiting(base.log, inputs, |inputs|), Tap(AnyPress(EventsIn(inputs)), 1);
            Step(env, Run(s, inputs), e) ==
            State(Record(e, tap), [],
                  PassedOnLog(w.log + [Entry(Record(u.press, tap), false)], w.queue) + [Entry(Record(e, tap), false)],
                  Run(s, inputs).lost)
  {
    var n, w, tap := |inputs|, Waiting(base.log, inputs, |inputs|), Tap(AnyPress(EventsIn(inputs)), 1);
    assert inputs[..n] == inputs && EventsIn(inputs)[..n] == EventsIn(inputs);
    InterruptedMeansPress(u, inputs, n, base, s);
    RunDecides(u, inputs, n, base, s);
    StillOpen(u, base.log, inputs, n);
    QueueFits(u, base.log, inputs, n);
    FirstTap(u, env, w, Run(s, inputs), e, tap);
  }

  lemma {:induction false} FirstTap(u: Rule, env: Env, w: Wait, s: State, e: Event, tap: Tap)
    requires Steady(u, env) && Holding(u, w, s) && MayWait(u, w.queue) && |w.queue| < 7 && NoTapHoldWaits(env, w.queue)
    requires !IsTick(e) && !e.pressed && e.key == u.press.key && !Late(u, e) && tap == s.tk.tap.(count := 1)
    ensures Step(env, s, e) ==
            State(Record(e, tap), [],
                  PassedOnLog(w.log + [Entry(Record(u.press, tap), false)], w.queue) + [Entry(Record(e, tap), false)],
                  s.lost)
  {
    var s1 := State(Record(u.press, tap), Fresh(w.queue) + [Record(e, tap)],
                    w.log + [Entry(Record(u.press, tap), false)], s.lost);
    assert Feed(env, s, e) == s1;
    DrainTap(u, env, s1, w.queue, e);
  }

  /**
   * The whole story, from the first press: a tap, then events that start nothing, then the same key again.
   * It is a repeat if and only if it comes within the quick-tap term of the release and no press came in
   * between, neither before the release nor after it.
   */
  lemma {:induction false} SecondPress(s: State, first: Rule, env0: Env, during: seq<Input>, env1: Env, release: Event,
                                       quiet: seq<Input>, env2: Env, second: Event)
    requires Settled(s) && Starts(env0, s, first.press) && Steady(first, env1)
    requires forall i :: 0 <= i < |during| ==> Steady(first, during[i].env)
    requires var base := Before(s, first.press).log;
             && Open(first, base, during, |during|) && |Waiting(base, during, |during|).queue| < 7
             && NoTapHoldWaits(env1, Waiting(base, during, |during|).queue)
    requires !IsTick(release) && !release.pressed && release.key == first.press.key && !Late(first, release)
    requires var tapped := Step(env1, Run(Step(env0, s, first.press), during), release);
             && AllQuiet(tapped, quiet) && Press(second) && second.key == first.press.key
             && WithinTerm(env2, Run(tapped, quiet), second.time)
    ensures var s1 := Run(Step(env1, Run(Step(env0, s, first.press), during), release), quiet);
            Repeats(env2, s1, second) <==>
            && Elapsed(second.time, release.time) < env2.quickTerm(s1.log, s1.tk)
            && !AnyPress(EventsIn(during)) && !AnyPress(EventsIn(quiet))
  {
    var base, s0 := Before(s, first.press), Step(env0, s, first.press);
    PressStarts(first, env0, s);
    StepKeeps(env0, s, first.press, first.press);
    TapEnds(first, during, base, s0, env1, release);
    var tapped := Step(env1, Run(s0, during), release);
    RunValid(s0, during);
    StepKeeps(env1, Run(s0, during), release, release);
    QuietRun(tapped, quiet);
  }

  // ---------- A press that waited ----------

  /** A tap-hold press that waited is taken up: at rest, during a tap, or after the tap of another key. */
  ghost predicate TakesUp(env: Env, s: State, e: Event) {
    && Valid(s) && s.buf != [] && s.buf[0].event == e && Press(e) && env.isTap(s.log, e.key)
    && (AtRest(s) || DuringTap(s) || (AfterTap(s) && WithinTerm(env, s, e.time) && e.key != s.tk.event.key))
  }

  /** Its own release waits too, inside the term. */
  ghost predicate ReleaseWaits(u: Rule, buf: seq<Record>) {
    exists j :: 0 <= j < |buf| && EndsTap(u, buf[j].event)
  }

  ghost predicate EndsTap(u: Rule, e: Event) {
    !IsTick(e) && !e.pressed && e.key == u.press.key && !Late(u, e)
  }

  lemma {:induction false} ScanFinds(u: Rule, env: Env, s: State)
    requires Steady(u, env) && s.tk == Record(u.press, NO_TAP) && Press(u.press)
    ensures FindRelease(env, s, 0) < |s.buf| <==> ReleaseWaits(u, s.buf)
    ensures ReleaseWaits(u, s.buf) ==> ScanTap(env, s).log == s.log + [Entry(Record(u.press, Tap(false, 1)), false)]
    ensures !ReleaseWaits(u, s.buf) ==> ScanTap(env, s) == s
  {
    forall j | 0 <= j < |s.buf| ensures ReleasesTappingKey(env, s, s.buf[j]) <==> EndsTap(u, s.buf[j].event) {}
  }

  /**
   * A press that waited together with its own release inside the term is a tap, whatever lies between them; else
   * it is under decision and nothing is logged for it.
   */
  lemma {:induction false} WaitingTapSettled(u: Rule, env: Env, s: State)
    requires Steady(u, env) && TakesUp(env, s, u.press)
    ensures ReleaseWaits(u, s.buf) ==> SettledAs(u, |s.log|, 1, Drain(env, s))
    ensures !ReleaseWaits(u, s.buf) ==>
              ProcessTapping(env, s, s.buf[0]) == Outcome(Before(s, u.press).(tk := s.buf[0]), s.buf[0], true)
  {
    var r := s.buf[0];
    assert BufferedOk(r);
    var s1 := Before(s, u.press).(tk := r);
    ScanFinds(u, env, s1);
    assert ProcessTapping(env, s, r) == Outcome(ScanTap(env, s1), r, true);
    if ReleaseWaits(u, s.buf) {
      var s2 := ScanTap(env, s1);
      DrainExtends(env, s2.(buf := s2.buf[1..]));
      assert LoggedAt(Drain(env, s).log, |s1.log|, u.press, 1);
    }
  }
}
