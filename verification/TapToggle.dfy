/**
 * Tap-toggle end to end: from key events through the tap-hold machine, the action compiler and
 * the action interpreter to the layer state.
 */
module TapToggle {
  import opened Events
  import opened Tapping
  import opened ActionCode
  import opened LayerMeaning

  /** The environment answers by the action each key resolves to at that moment. */
  ghost predicate AnswersBy(env: Env, actionAt: (Log, Key) -> bv16) {
    && (forall g, k :: env.isTap(g, k) == IsTapAction(actionAt(g, k)))
    && (forall g, k, c: nat :: env.retained(g, k, c) == Retained(actionAt(g, k), c))
  }

  /**
   * Of the layer keys, exactly MO and LT have their releases kept back while a tap is undecided;
   * LM, TT and OSL, although they hold a layer while down, do not.
   */
  lemma {:induction false} RetainedLayerKeys(w: Width, k: LayerKey)
    requires Representable(w, k)
    ensures Retained(ActionForKeycode(Keycode(k)), 0) <==> k.Mo? || k.Lt?
  {
    Compiled(w, k);
    match k
    case Mo(l) => LayerTapDecodes(l, OP_ON_OFF);
    case Tt(l) => LayerTapDecodes(l, OP_TAP_TOGGLE);
    case Lt(l, code) => LayerTapDecodes(l, code);
    case Lm(_, _) =>
    case Osl(l) => LayerTapDecodes(l, OP_ONESHOT);
    case To(l) => BitopDecodes(w, OP_BIT_SET, l, ON_PRESS);
    case Tg(l) => BitopDecodes(w, OP_BIT_XOR, l, ON_RELEASE);
    case Df(l) => BitopDecodes(w, OP_BIT_SET, l, 0);
  }

  lemma {:induction false} TapToggleIsTapAction(l: bv16)
    requires l < 32
    ensures IsTapAction(ActionForKeycode(TT(l)))
  {}

  /** Key `k` is TT(l) on every layer, with these terms. */
  ghost predicate ToggleKey(env: Env, actionAt: (Log, Key) -> bv16, k: Key, l: bv16, term: nat, quick: nat) {
    && AnswersBy(env, actionAt)
    && (forall g :: actionAt(g, k) == ActionForKeycode(TT(l)))
    && (forall g, r: Record :: r.event.key == k ==> env.term(g, r) == term)
    && (forall g, r: Record :: r.event.key == k ==> env.quickTerm(g, r) == quick)
  }

  // ---------- Clean quick taps ----------

  /** After `last`, presses and releases of `k` alternate without a pause, with ticks anywhere between. */
  ghost predicate CleanAfter(k: Key, term: nat, quick: nat, last: Event, es: seq<Event>)
    decreases |es|
  {
    es == [] ||
    (var e := es[0];
     && Elapsed(e.time, last.time) < term
     && if IsTick(e) then CleanAfter(k, term, quick, last, es[1..])
        else
          && e.key == k && e.pressed == !last.pressed
          && (e.pressed ==> Elapsed(e.time, last.time) < quick)
          && CleanAfter(k, term, quick, e, es[1..]))
  }

  ghost function Releases(es: seq<Event>): nat {
    if es == [] then 0 else ReleaseCount(es[0]) + Releases(es[1..])
  }

  /** Whether the key is up once `es` are over. */
  ghost predicate EndsReleased(last: Event, es: seq<Event>)
    decreases |es|
  {
    if es == [] then !last.pressed else EndsReleased(if IsTick(es[0]) then last else es[0], es[1..])
  }

  // ---------- What reaches the interpreter ----------

  /** The four-bit tap count of the n-th tap. */
  ghost function Saturated(n: nat): nat { if n < 15 then n else 15 }

  ghost function Strokes(log: Log, l: bv16): (ss: seq<Stroke>)
    ensures |ss| == |log|
    ensures forall i :: 0 <= i < |log| ==> ss[i] == Stroke(Tt(l), log[i].rec.event.pressed, log[i].rec.tap.count)
  {
    seq(|log|, i requires 0 <= i < |log| => Stroke(Tt(l), log[i].rec.event.pressed, log[i].rec.tap.count))
  }

  /** `n` whole taps: press and release of the first carry count 1, of the second count 2, and so on. */
  ghost function Taps(n: nat, l: bv16): seq<Stroke> {
    if n == 0 then []
    else Taps(n - 1, l) + [Stroke(Tt(l), true, Saturated(n))] + [Stroke(Tt(l), false, Saturated(n))]
  }

  ghost function Sofar(n: nat, pressed: bool, l: bv16): seq<Stroke> {
    if pressed && n > 0 then Taps(n, l) + [Stroke(Tt(l), true, Saturated(n + 1))] else Taps(n, l)
  }

  ghost predicate OnlyKey(k: Key, log: Log) {
    forall i :: 0 <= i < |log| ==> log[i].rec.event.key == k
  }

  /** The machine after `n` taps whose last event was a press or a release. */
  ghost predicate AfterTaps(k: Key, l: bv16, n: nat, base: Log, s: State) {
    && s.buf == []
    && !IsTick(s.tk.event) && s.tk.event.key == k && !s.tk.tap.interrupted
    && s.tk.tap.count == (if !s.tk.event.pressed then Saturated(n) else if n == 0 then 0 else Saturated(n + 1))
    && (!s.tk.event.pressed ==> n > 0)
    && base <= s.log && OnlyKey(k, s.log[|base|..])
    && Strokes(s.log[|base|..], l) == Sofar(n, s.tk.event.pressed, l)
  }

  lemma {:induction false} Logs(base: Log, log: Log, x: Entry, l: bv16)
    requires base <= log
    ensures base <= log + [x]
    ensures Strokes((log + [x])[|base|..], l) ==
            Strokes(log[|base|..], l) + [Stroke(Tt(l), x.rec.event.pressed, x.rec.tap.count)]
  {}

  lemma {:induction false} FirstRelease(env: Env, k: Key, l: bv16, base: Log, s: State, e: Event)
    requires AfterTaps(k, l, 0, base, s) && s.tk.event.pressed
    requires !IsTick(e) && e.key == k && !e.pressed
    requires forall g, r: Record :: r.event.key == k ==> Elapsed(e.time, s.tk.event.time) < env.term(g, r)
    ensures AfterTaps(k, l, 1, base, Step(env, s, e)) && Step(env, s, e).tk.event == e
  {
    var tap := Events.Tap(false, 1);
    var press, release := Entry(Record(s.tk.event, tap), false), Entry(Record(e, tap), false);
    Logs(base, s.log, press, l);
    Logs(base, s.log + [press], release, l);
    var fed := Feed(env, s, e);
    assert fed == State(press.rec, [release.rec], s.log + [press], s.lost);
    var o := ProcessTapping(env, fed, release.rec);
    assert o.handled && o.s == State(release.rec, [release.rec], s.log + [press] + [release], s.lost);
    assert Drain(env, o.s.(buf := [])) == o.s.(buf := []);
    assert Taps(1, l) == Taps(0, l) + [Stroke(Tt(l), true, 1)] + [Stroke(Tt(l), false, 1)];
  }

  lemma {:induction false} LaterRelease(env: Env, k: Key, l: bv16, n: nat, base: Log, s: State, e: Event)
    requires AfterTaps(k, l, n, base, s) && s.tk.event.pressed && n > 0
    requires !IsTick(e) && e.key == k && !e.pressed && Elapsed(e.time, s.tk.event.time) < env.term(s.log, s.tk)
    ensures AfterTaps(k, l, n + 1, base, Step(env, s, e)) && Step(env, s, e).tk.event == e
  {
    Logs(base, s.log, Entry(Record(e, s.tk.tap), false), l);
  }

  lemma {:induction false} QuickPress(env: Env, k: Key, l: bv16, n: nat, base: Log, s: State, e: Event)
    requires AfterTaps(k, l, n, base, s) && !s.tk.event.pressed
    requires !IsTick(e) && e.key == k && e.pressed
    requires Elapsed(e.time, s.tk.event.time) < env.term(s.log, s.tk)
    requires Elapsed(e.time, s.tk.event.time) < env.quickTerm(s.log, s.tk)
    ensures AfterTaps(k, l, n, base, Step(env, s, e)) && Step(env, s, e).tk.event == e
  {}

  lemma {:induction false} TickStays(env: Env, k: Key, l: bv16, n: nat, base: Log, s: State, e: Event)
    requires AfterTaps(k, l, n, base, s) && IsTick(e) && Elapsed(e.time, s.tk.event.time) < env.term(s.log, s.tk)
    ensures Step(env, s, e) == s
  {}

  lemma {:induction false} StartPress(env: Env, k: Key, l: bv16, s: State, press: Event)
    requires s.tk == RESET && s.buf == [] && env.isTap(s.log, k)
    requires !IsTick(press) && press.pressed && press.key == k
    ensures Step(env, s, press) == s.(tk := Record(press, NO_TAP))
    ensures AfterTaps(k, l, 0, s.log, Step(env, s, press))
  {}

  /** Clean taps drive the machine through exactly those states. */
  lemma {:induction false} RunTaps(env: Env, actionAt: (Log, Key) -> bv16, k: Key, l: bv16, term: nat, quick: nat,
                                   n: nat, base: Log, s: State, es: seq<Event>) returns (s': State)
    requires ToggleKey(env, actionAt, k, l, term, quick)
    requires AfterTaps(k, l, n, base, s) && CleanAfter(k, term, quick, s.tk.event, es)
    ensures s' == Fold(env, s, es)
    ensures AfterTaps(k, l, n + Releases(es), base, s') && (!s'.tk.event.pressed <==> EndsReleased(s.tk.event, es))
    decreases |es|
  {
    s' := s;
    if es != [] {
      var s1 := Step(env, s, es[0]);
      CleanStep(env, actionAt, k, l, term, quick, n, base, s, es);
      s' := RunTaps(env, actionAt, k, l, term, quick, n + ReleaseCount(es[0]), base, s1, es[1..]);
    }
  }

  ghost function ReleaseCount(e: Event): nat { if !IsTick(e) && !e.pressed then 1 else 0 }

  /** The next event of a clean run. */
  lemma {:induction false} CleanStep(env: Env, actionAt: (Log, Key) -> bv16, k: Key, l: bv16, term: nat, quick: nat,
                                     n: nat, base: Log, s: State, es: seq<Event>)
    requires ToggleKey(env, actionAt, k, l, term, quick) && es != []
    requires AfterTaps(k, l, n, base, s) && CleanAfter(k, term, quick, s.tk.event, es)
    ensures var s1 := Step(env, s, es[0]);
            && AfterTaps(k, l, n + ReleaseCount(es[0]), base, s1)
            && s1.tk.event == (if IsTick(es[0]) then s.tk.event else es[0])
  {
    var e := es[0];
    if IsTick(e) {
      TickStays(env, k, l, n, base, s, e);
    } else if e.pressed {
      QuickPress(env, k, l, n, base, s, e);
    } else if n == 0 {
      FirstRelease(env, k, l, base, s, e);
    } else {
      LaterRelease(env, k, l, n, base, s, e);
    }
  }

  ghost function Fold(env: Env, s: State, es: seq<Event>): State
    decreases |es|
  {
    if es == [] then s else Fold(env, Step(env, s, es[0]), es[1..])
  }

  // ---------- What the layer state becomes ----------

  /** Whether `n` taps leave the layer flipped. */
  ghost predicate Flipped(n: nat, toggle: nat) {
    n > 0 && (Flipped(n - 1, toggle) != (Saturated(n) == toggle))
  }

  lemma {:induction false} TapsMeaning(st: Stack, n: nat, l: bv16, toggle: nat)
    ensures RunMeaning(st, Taps(n, l), toggle) == if Flipped(n, toggle) then st.(on := Flip(st.on, l)) else st
  {
    if n > 0 {
      TapsMeaning(st, n - 1, l, toggle);
      var before := Taps(n - 1, l);
      var press, release := Stroke(Tt(l), true, Saturated(n)), Stroke(Tt(l), false, Saturated(n));
      assert Taps(n, l)[..|before| + 1] == before + [press];
      assert (before + [press])[..|before|] == before;
      FlipTwice(st.on, l);
    }
  }

  lemma {:induction false} FlipTwice(s: iset<bv16>, l: bv16)
    ensures Flip(Flip(s, l), l) == s
  {}

  lemma {:induction false} FlippedBelow(n: nat, toggle: nat)
    requires 1 <= toggle < 15
    ensures Flipped(n, toggle) <==> n >= toggle
  {
    if n > 0 { FlippedBelow(n - 1, toggle); }
  }

  lemma {:induction false} NeverFlipped(n: nat, toggle: nat)
    requires toggle == 0 || toggle > 15
    ensures !Flipped(n, toggle)
  {
    if n > 0 { NeverFlipped(n - 1, toggle); }
  }

  lemma {:induction false} NotFlippedYet(n: nat)
    requires n < 15
    ensures !Flipped(n, 15)
  {
    if n > 0 { NotFlippedYet(n - 1); }
  }

  /**
   * The documented behaviour, "toggled once `TAPPING_TOGGLE` taps were made", holds for every number
   * of taps exactly when `TAPPING_TOGGLE` is below the saturation of the four-bit count and not 0.
   */
  lemma {:induction false} ToggleCountLimit(toggle: nat)
    ensures (forall n: nat :: Flipped(n, toggle) <==> n >= toggle) <==> 1 <= toggle < 15
  {
    if 1 <= toggle < 15 {
      forall n: nat ensures Flipped(n, toggle) <==> n >= toggle { FlippedBelow(n, toggle); }
    } else if toggle == 15 {
      NotFlippedYet(14);
      assert Flipped(15, 15);
      assert !Flipped(16, 15);
    } else {
      NeverFlipped(toggle, toggle);
      assert !Flipped(toggle, toggle);
    }
  }

  /**
   * n clean quick taps of TT(l), for every n: only that key's events reach the interpreter, and the layer
   * masks are as before, or have exactly bit l flipped, as `Flipped` says. Below the saturation of the
   * tap count that is: unchanged for n < TAPPING_TOGGLE, flipped for n >= TAPPING_TOGGLE.
   */
  lemma {:induction false} TapToggleEndToEnd(env: Env, actionAt: (Log, Key) -> bv16, k: Key, w: Width, l: bv16,
                                             term: nat, quick: nat, s: State, h: Host, press: Event, es: seq<Event>,
                                             toggle: nat)
    requires ToggleKey(env, actionAt, k, l, term, quick) && l < LayerCount(w)
    requires s.tk == RESET && s.buf == []
    requires !IsTick(press) && press.pressed && press.key == k
    requires CleanAfter(k, term, quick, press, es) && EndsReleased(press, es)
    ensures var log := Fold(env, s, [press] + es).log;
            var n := Releases(es);
            && s.log <= log && OnlyKey(k, log[|s.log|..])
            && var after := StackOf(RunCompiled(w, h, Strokes(log[|s.log|..], l), toggle));
            && after == (if Flipped(n, toggle) then StackOf(h).(on := Flip(h.layers, l)) else StackOf(h))
            && (1 <= toggle < 15 ==> after == if n >= toggle then StackOf(h).(on := Flip(h.layers, l)) else StackOf(h))
  {
    TapsLogged(env, actionAt, k, l, term, quick, s, press, es);
    TapsReplayed(w, h, l, Releases(es), toggle);
  }

  /** What the machine hands on: exactly those taps, of that key only. */
  lemma {:induction false} TapsLogged(env: Env, actionAt: (Log, Key) -> bv16, k: Key, l: bv16, term: nat, quick: nat,
                                      s: State, press: Event, es: seq<Event>)
    requires ToggleKey(env, actionAt, k, l, term, quick) && l < 32
    requires s.tk == RESET && s.buf == []
    requires !IsTick(press) && press.pressed && press.key == k
    requires CleanAfter(k, term, quick, press, es) && EndsReleased(press, es)
    ensures var log := Fold(env, s, [press] + es).log;
            s.log <= log && OnlyKey(k, log[|s.log|..]) && Strokes(log[|s.log|..], l) == Taps(Releases(es), l)
  {
    TapToggleIsTapAction(l);
    StartPress(env, k, l, s, press);
    assert ([press] + es)[1..] == es;
    var s' := RunTaps(env, actionAt, k, l, term, quick, 0, s.log, Step(env, s, press), es);
  }

  lemma {:induction false} TapsReplayed(w: Width, h: Host, l: bv16, n: nat, toggle: nat)
    requires l < LayerCount(w)
    ensures var after := StackOf(RunCompiled(w, h, Taps(n, l), toggle));
            && after == (if Flipped(n, toggle) then StackOf(h).(on := Flip(h.layers, l)) else StackOf(h))
            && (1 <= toggle < 15 ==> after == if n >= toggle then StackOf(h).(on := Flip(h.layers, l)) else StackOf(h))
  {
    if 1 <= toggle < 15 { FlippedBelow(n, toggle); }
    OnlyTapToggle(n, l);
    CompiledKeysKeepTheirMeaning(w, h, Taps(n, l), toggle);
    TapsMeaning(StackOf(h), n, l, toggle);
  }

  lemma {:induction false} OnlyTapToggle(n: nat, l: bv16)
    ensures forall i :: 0 <= i < |Taps(n, l)| ==> Taps(n, l)[i].key == Tt(l)
  {
    if n > 0 { OnlyTapToggle(n - 1, l); }
  }
}
