/**
 * How the decision modes of a tap-hold key compare: what permissive hold decides beyond nested taps, when the
 * verdict depends on the events alone, and the documented order of the modes.
 */
module TappingModes {
  import opened Events
  import opened Tapping
  import opened TappingInvariant
  import opened TappingVerdict

  // ---------- Decided by the events alone ----------

  ghost function FirstDirect(u: Rule, es: seq<Event>, n: nat): Verdict
    requires n <= |es|
  {
    if n == 0 then Undecided
    else if !FirstDirect(u, es, n - 1).Undecided? then FirstDirect(u, es, n - 1)
    else Direct(u, es, n - 1)
  }

  ghost function FirstPlain(u: Rule, base: Log, inputs: seq<Input>, n: nat): Verdict
    requires n <= |inputs|
  {
    if n == 0 then Undecided
    else if !FirstPlain(u, base, inputs, n - 1).Undecided? then FirstPlain(u, base, inputs, n - 1)
    else Plain(u, base, inputs, n - 1)
  }

  /** Apart from re-presses, retention can influence the verdict in one way only: by an overflow. */
  lemma {:induction false} PlainIsDirectUnlessOverflow(u: Rule, base: Log, inputs: seq<Input>, n: nat)
    requires n <= |inputs|
    ensures !FirstPlain(u, base, inputs, n).Overflowed? <==>
            forall m :: 0 <= m <= n ==> FirstPlain(u, base, inputs, m) == FirstDirect(u, EventsIn(inputs), m)
  {
    if n > 0 {
      PlainIsDirectUnlessOverflow(u, base, inputs, n - 1);
      var p, d := FirstPlain(u, base, inputs, n), FirstDirect(u, EventsIn(inputs), n);
      if !p.Overflowed? {
        assert FirstPlain(u, base, inputs, n - 1) == FirstDirect(u, EventsIn(inputs), n - 1);
        assert p == d;
      }
      NeverOverflowed(u, EventsIn(inputs), n);
    }
  }

  lemma {:induction false} NeverOverflowed(u: Rule, es: seq<Event>, n: nat)
    requires n <= |es|
    ensures !FirstDirect(u, es, n).Overflowed?
  {
    if n > 0 { NeverOverflowed(u, es, n - 1); }
  }

  // ---------- What permissive hold decides beyond nested taps ----------

  /** Event `i` settles the press only because it exposes a release in front of a press of the same key. */
  ghost predicate RepressAt(u: Rule, base: Log, inputs: seq<Input>, i: nat)
    requires i < |inputs|
  {
    u.permissive && Plain(u, base, inputs, i).Undecided? && Exposed(Waiting(base, inputs, i + 1))
  }

  /**
   * The decision is the documented one, by nested taps only, on every prefix if and only if no undecided
   * prefix is followed by an event that exposes a re-pressed release.
   */
  lemma {:induction false} RepressIsTheOnlyDifference(u: Rule, base: Log, inputs: seq<Input>, n: nat)
    requires n <= |inputs|
    ensures Agree(u, base, inputs, n) <==> NoRepress(u, base, inputs, n)
  {
    if n > 0 {
      RepressIsTheOnlyDifference(u, base, inputs, n - 1);
      if Agree(u, base, inputs, n - 1) { OneDifference(u, base, inputs, n - 1); }
    }
  }

  ghost predicate Agree(u: Rule, base: Log, inputs: seq<Input>, n: nat)
    requires n <= |inputs|
  {
    forall m :: 0 <= m <= n ==> FirstDecision(u, base, inputs, m) == FirstPlain(u, base, inputs, m)
  }

  ghost predicate NoRepress(u: Rule, base: Log, inputs: seq<Input>, n: nat)
    requires n <= |inputs|
  {
    forall i :: 0 <= i < n && FirstPlain(u, base, inputs, i).Undecided? ==> !RepressAt(u, base, inputs, i)
  }

  lemma {:induction false} OneDifference(u: Rule, base: Log, inputs: seq<Input>, i: nat)
    requires i < |inputs| && FirstDecision(u, base, inputs, i) == FirstPlain(u, base, inputs, i)
    ensures FirstDecision(u, base, inputs, i + 1) == FirstPlain(u, base, inputs, i + 1) <==>
            (FirstPlain(u, base, inputs, i).Undecided? ==> !RepressAt(u, base, inputs, i))
  {}

  /** While retention stays as it is, an event exposes the head exactly if it presses the key released there. */
  lemma {:induction false} ExposedMeansRepress(env: Env, w: Wait, e: Event)
    requires !Exposed(w) && !Free(env, Take(env, w, e))
    ensures Exposed(Prune(env, Take(env, w, e))) <==>
            !IsTick(e) && e.pressed && w.queue != [] && !w.queue[0].pressed && w.queue[0].key == e.key
  {
    if w.queue != [] { TakeAddsPress(env, w, e, w.queue[0].key); } else { TakeAddsPress(env, w, e, e.key); }
  }

  /**
   * On the machine: a key released during the wait, whose modifier or layer had to be kept, is pressed
   * again. Nested taps leave the press undecided; the machine settles it as held.
   */
  lemma {:induction false} RepressCountsAsNestedTap(u: Rule, env: Env, s: State, up: Event, down: Event)
    requires Valid(s) && s.tk == RESET && s.buf == []
    requires !IsTick(u.press) && u.press.pressed && env.isTap(s.log, u.press.key) && Steady(u, env)
    requires u.permissive && !u.holdOnPress && env.retained(s.log, up.key, 0) && up.key != u.press.key
    requires !IsTick(up) && !IsTick(down) && !up.pressed && down.pressed && up.key == down.key
    requires !Late(u, up) && !Late(u, down)
    ensures var inputs := [Input(env, up), Input(env, down)];
            && FirstPlain(u, s.log, inputs, 2).Undecided?
            && SettledAs(u, |s.log|, 0, Run(Step(env, s, u.press), inputs))
  {
    var inputs := [Input(env, up), Input(env, down)];
    RepressDecision(u, env, s.log, up, down);
    assert EventsIn(inputs) == [up, down];
    VerdictRefinement(u, env, inputs, s);
  }

  lemma {:induction false} RepressDecision(u: Rule, env: Env, base: Log, up: Event, down: Event)
    requires u.permissive && !u.holdOnPress && env.retained(base, up.key, 0) && up.key != u.press.key
    requires !IsTick(up) && !IsTick(down) && !up.pressed && down.pressed && up.key == down.key
    requires !Late(u, up) && !Late(u, down)
    ensures var inputs := [Input(env, up), Input(env, down)];
            FirstPlain(u, base, inputs, 2).Undecided? && FirstDecision(u, base, inputs, 2).AsHold?
  {
    var inputs := [Input(env, up), Input(env, down)];
    assert Waiting(base, inputs, 1) == Wait([up], base);
    assert [up, down][1].pressed;
    assert PressedIn([up, down], up.key);
    assert Waiting(base, inputs, 2) == Wait([up, down], base);
    assert !Exposed(Waiting(base, inputs, 1));
    assert Decision(u, base, inputs, 0).Undecided?;
    assert FirstPlain(u, base, inputs, 1).Undecided? && FirstDecision(u, base, inputs, 1).Undecided?;
  }

  /** A keyboard with one tap-hold key under permissive hold and every other release kept back. */
  const EXAMPLE := Env((_, k) => k == Key(0, 0), (_, _, _) => true, (_, _) => 200, (_, _) => 200,
                       (_, _) => true, (_, _) => false)

  /** One such run: a kept key down, the tap-hold key down, the kept key up and down again, within the term. */
  lemma {:induction false} RepressExample(first: Event, press: Event, up: Event, down: Event)
    requires first == Event(Key(0, 1), 0, KeySwitch, true) && press == Event(Key(0, 0), 40, KeySwitch, true)
    requires up == Event(Key(0, 1), 50, KeySwitch, false) && down == Event(Key(0, 1), 60, KeySwitch, true)
    ensures var s := Step(EXAMPLE, Step(EXAMPLE, INIT, first), press);
            Logged(Run(s, [Input(EXAMPLE, up), Input(EXAMPLE, down)]).log, press, 0)
  {
    var u, s := Rule(press, 200, true, false), Step(EXAMPLE, INIT, first);
    StepKeeps(EXAMPLE, INIT, first, first);
    assert s == Emit(INIT, Record(first, NO_TAP));
    assert !Late(u, up) && !Late(u, down);
    assert EXAMPLE.retained(s.log, up.key, 0) && EXAMPLE.isTap(s.log, press.key) && Steady(u, EXAMPLE);
    RepressCountsAsNestedTap(u, EXAMPLE, s, up, down);
    var s' := Run(Step(EXAMPLE, s, press), [Input(EXAMPLE, up), Input(EXAMPLE, down)]);
    var i :| |s.log| <= i && LoggedAt(s'.log, i, press, 0);
  }

  // ---------- The modes, in increasing order of preference for the hold ----------

  ghost function DefaultMode(u: Rule): Rule { u.(permissive := false, holdOnPress := false) }
  ghost function PermissiveMode(u: Rule): Rule { u.(permissive := true, holdOnPress := false) }
  ghost function PressMode(u: Rule): Rule { u.(holdOnPress := true) }

  /** While the default mode has not decided, permissive hold has not either, or it holds. */
  lemma {:induction false} PermissivePrefersHold(u: Rule, base: Log, inputs: seq<Input>, n: nat)
    requires n <= |inputs|
    ensures var d := FirstDecision(DefaultMode(u), base, inputs, n);
            var p := FirstDecision(PermissiveMode(u), base, inputs, n);
            p.AsHold? || p == d
  {
    if n > 0 { PermissivePrefersHold(u, base, inputs, n - 1); }
  }

  /** As long as hold-on-other-press is undecided, no press has come, so the other modes see nothing more. */
  lemma {:induction false} PressModeSeesPresses(u: Rule, base: Log, inputs: seq<Input>, n: nat, k: Key)
    requires n <= |inputs| && Open(PressMode(u), base, inputs, n)
    ensures !PressedBefore(EventsIn(inputs), n, k) && !PressedIn(Waiting(base, inputs, n).queue, k)
  {
    QueueHoldsPresses(base, inputs, n, k);
    forall j | 0 <= j < n ensures IsTick(EventsIn(inputs)[j]) || !EventsIn(inputs)[j].pressed {
      assert Decision(PressMode(u), base, inputs, j).Undecided?;
    }
  }

  lemma {:induction false} PressModePrefersHold(u: Rule, base: Log, inputs: seq<Input>, n: nat)
    requires n <= |inputs|
    ensures var p := FirstDecision(PermissiveMode(u), base, inputs, n);
            var h := FirstDecision(PressMode(u), base, inputs, n);
            h.AsHold? || h == p
  {
    if n > 0 {
      PressModePrefersHold(u, base, inputs, n - 1);
      StillOpen(PressMode(u), base, inputs, n - 1);
      if Open(PressMode(u), base, inputs, n - 1) { PressModeAgrees(u, base, inputs, n - 1); }
    }
  }

  lemma {:induction false} PressModeAgrees(u: Rule, base: Log, inputs: seq<Input>, i: nat)
    requires i < |inputs| && Open(PressMode(u), base, inputs, i)
    ensures var p, h := Decision(PermissiveMode(u), base, inputs, i), Decision(PressMode(u), base, inputs, i);
            h.AsHold? || h == p
  {
    var h := Decision(PressMode(u), base, inputs, i);
    PressModeSeesPresses(u, base, inputs, i, inputs[i].event.key);
    if h.Undecided? {
      assert Open(PressMode(u), base, inputs, i + 1);
      var w := Waiting(base, inputs, i + 1);
      if w.queue != [] { PressModeSeesPresses(u, base, inputs, i + 1, w.queue[0].key); }
    }
  }

  /** Whatever the default mode holds, permissive hold holds; whatever that holds, hold-on-other-press holds. */
  lemma {:induction false} ModesInIncreasingOrderOfHold(u: Rule, base: Log, inputs: seq<Input>)
    ensures FirstDecision(DefaultMode(u), base, inputs, |inputs|).AsHold? ==>
            FirstDecision(PermissiveMode(u), base, inputs, |inputs|).AsHold?
    ensures FirstDecision(PermissiveMode(u), base, inputs, |inputs|).AsHold? ==>
            FirstDecision(PressMode(u), base, inputs, |inputs|).AsHold?
  {
    PermissivePrefersHold(u, base, inputs, |inputs|);
    PressModePrefersHold(u, base, inputs, |inputs|);
  }
}
