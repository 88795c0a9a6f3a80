/**
 * The tap-or-hold decision, stated without the machine: the first decisive event after the press.
 * The machine is then shown to reach exactly that verdict.
 */
module TappingVerdict {
  import opened Events
  import opened Tapping
  import opened TappingInvariant

  /** The press under decision and the settings of its key. */
  datatype Rule = Rule(press: Event, term: nat, permissive: bool, holdOnPress: bool)

  datatype Verdict = Undecided | AsTap | AsHold | Overflowed

  // ---------- What the events decide by themselves ----------

  ghost predicate Late(u: Rule, e: Event) {
    Elapsed(e.time, u.press.time) >= u.term
  }

  ghost predicate PressedBefore(es: seq<Event>, n: nat, k: Key)
    requires n <= |es|
  {
    exists j :: 0 <= j < n && !IsTick(es[j]) && es[j].pressed && es[j].key == k
  }

  /**
   * What event `i` decides by itself: an event at or past the term, the own release, a nested press and
   * release under permissive hold, another press under hold-on-other-press.
   */
  ghost function Direct(u: Rule, es: seq<Event>, i: nat): Verdict
    requires i < |es|
  {
    var e := es[i];
    if Late(u, e) then AsHold
    else if IsTick(e) then Undecided
    else if !e.pressed && e.key == u.press.key then AsTap
    else if u.permissive && !e.pressed && PressedBefore(es, i, e.key) then AsHold
    else if u.holdOnPress && e.pressed then AsHold
    else Undecided
  }

  // ---------- The events that wait for the verdict ----------

  /** The waiting events, and everything processed so far. */
  datatype Wait = Wait(queue: seq<Event>, log: Log)

  ghost predicate PressedIn(q: seq<Event>, k: Key) {
    exists j :: 0 <= j < |q| && q[j].pressed && q[j].key == k
  }

  /**
   * `e` has to wait: a press, the release of a key pressed since, or the release of an older key whose
   * modifier or layer must be kept at that moment. Other releases go through at once.
   */
  ghost predicate Joins(env: Env, w: Wait, e: Event) {
    !IsTick(e) && (e.pressed || PressedIn(w.queue, e.key) || env.retained(w.log, e.key, 0))
  }

  ghost function Through(log: Log, e: Event): Log {
    log + [Entry(Record(e, NO_TAP), false)]
  }

  ghost function Take(env: Env, w: Wait, e: Event): Wait {
    if IsTick(e) then w
    else if Joins(env, w, e) then w.(queue := w.queue + [e])
    else w.(log := Through(w.log, e))
  }

  /** The head is the release of an older key that need not be kept back any more. */
  ghost predicate Free(env: Env, w: Wait) {
    && w.queue != [] && !w.queue[0].pressed
    && !PressedIn(w.queue, w.queue[0].key) && !env.retained(w.log, w.queue[0].key, 0)
  }

  ghost function Prune(env: Env, w: Wait): Wait
    decreases |w.queue|
  {
    if Free(env, w) then Prune(env, Wait(w.queue[1..], Through(w.log, w.queue[0]))) else w
  }

  /** What waits after the first `n` events; retention may change with everything that was processed. */
  ghost function Waiting(base: Log, inputs: seq<Input>, n: nat): Wait
    requires n <= |inputs|
  {
    if n == 0 then Wait([], base)
    else
      var env := inputs[n - 1].env;
      Prune(env, Take(env, Waiting(base, inputs, n - 1), inputs[n - 1].event))
  }

  /** The head is a release, and a press of the same key waits behind it. */
  ghost predicate Exposed(w: Wait) {
    w.queue != [] && !w.queue[0].pressed && PressedIn(w.queue, w.queue[0].key)
  }

  // ---------- The decision ----------

  ghost function EventsIn(inputs: seq<Input>): (es: seq<Event>)
    ensures |es| == |inputs| && forall i :: 0 <= i < |es| ==> es[i] == inputs[i].event
  {
    seq(|inputs|, i requires 0 <= i < |inputs| => inputs[i].event)
  }

  /** Decided by the event itself, or by the overflow it causes. */
  ghost function Plain(u: Rule, base: Log, inputs: seq<Input>, i: nat): Verdict
    requires i < |inputs|
  {
    var w, d := Waiting(base, inputs, i), Direct(u, EventsIn(inputs), i);
    if !d.Undecided? then d
    else if Joins(inputs[i].env, w, inputs[i].event) && |w.queue| == 7 then Overflowed
    else Undecided
  }

  /** What event `i` decides if nothing before it did; permissive hold also decides when a release is exposed. */
  ghost function Decision(u: Rule, base: Log, inputs: seq<Input>, i: nat): Verdict
    requires i < |inputs|
  {
    if !Plain(u, base, inputs, i).Undecided? then Plain(u, base, inputs, i)
    else if u.permissive && Exposed(Waiting(base, inputs, i + 1)) then AsHold
    else Undecided
  }

  ghost predicate Open(u: Rule, base: Log, inputs: seq<Input>, n: nat)
    requires n <= |inputs|
  {
    forall i :: 0 <= i < n ==> Decision(u, base, inputs, i).Undecided?
  }

  /** The first decision among the first `n` events. */
  ghost function FirstDecision(u: Rule, base: Log, inputs: seq<Input>, n: nat): Verdict
    requires n <= |inputs|
  {
    if n == 0 then Undecided
    else if !FirstDecision(u, base, inputs, n - 1).Undecided? then FirstDecision(u, base, inputs, n - 1)
    else Decision(u, base, inputs, n - 1)
  }

  lemma {:induction false} StillOpen(u: Rule, base: Log, inputs: seq<Input>, n: nat)
    requires n <= |inputs|
    ensures FirstDecision(u, base, inputs, n).Undecided? <==> Open(u, base, inputs, n)
  {
    if n > 0 { StillOpen(u, base, inputs, n - 1); }
  }

  // ---------- Presses stay in the queue ----------

  lemma {:induction false} PressedInTail(q: seq<Event>, k: Key)
    requires q != [] && !q[0].pressed
    ensures PressedIn(q[1..], k) <==> PressedIn(q, k)
  {
    if PressedIn(q, k) {
      var j :| 0 <= j < |q| && q[j].pressed && q[j].key == k;
      assert q[1..][j - 1] == q[j];
    }
    if PressedIn(q[1..], k) {
      var j :| 0 <= j < |q[1..]| && q[1..][j].pressed && q[1..][j].key == k;
      assert q[j + 1] == q[1..][j];
    }
  }

  lemma {:induction false} PruneKeepsPresses(env: Env, w: Wait, k: Key)
    ensures PressedIn(Prune(env, w).queue, k) <==> PressedIn(w.queue, k)
    decreases |w.queue|
  {
    if Free(env, w) {
      PressedInTail(w.queue, k);
      PruneKeepsPresses(env, Wait(w.queue[1..], Through(w.log, w.queue[0])), k);
    }
  }

  lemma {:induction false} TakeAddsPress(env: Env, w: Wait, e: Event, k: Key)
    ensures PressedIn(Take(env, w, e).queue, k) <==> PressedIn(w.queue, k) || (!IsTick(e) && e.pressed && e.key == k)
  {
    var q := w.queue + [e];
    if PressedIn(w.queue, k) {
      var j :| 0 <= j < |w.queue| && w.queue[j].pressed && w.queue[j].key == k;
      assert q[j] == w.queue[j];
    }
    assert q[|w.queue|] == e;
    if PressedIn(q, k) {
      var j :| 0 <= j < |q| && q[j].pressed && q[j].key == k;
      assert j < |w.queue| ==> w.queue[j] == q[j];
    }
  }

  /** For a release, looking through the queue is the declarative "pressed since". */
  lemma {:induction false} QueueHoldsPresses(base: Log, inputs: seq<Input>, n: nat, k: Key)
    requires n <= |inputs|
    ensures PressedIn(Waiting(base, inputs, n).queue, k) <==> PressedBefore(EventsIn(inputs), n, k)
  {
    if n > 0 {
      var env, w := inputs[n - 1].env, Waiting(base, inputs, n - 1);
      QueueHoldsPresses(base, inputs, n - 1, k);
      TakeAddsPress(env, w, inputs[n - 1].event, k);
      PruneKeepsPresses(env, Take(env, w, inputs[n - 1].event), k);
      PressedOneMore(EventsIn(inputs), n, k);
    }
  }

  lemma {:induction false} PressedOneMore(es: seq<Event>, n: nat, k: Key)
    requires 0 < n <= |es|
    ensures PressedBefore(es, n, k) <==>
            PressedBefore(es, n - 1, k) || (!IsTick(es[n - 1]) && es[n - 1].pressed && es[n - 1].key == k)
  {}

  // ---------- The machine while nothing is decided ----------

  ghost function Fresh(q: seq<Event>): (rs: seq<Record>)
    ensures |rs| == |q| && forall i :: 0 <= i < |q| ==> rs[i] == Record(q[i], NO_TAP)
  {
    seq(|q|, i requires 0 <= i < |q| => Record(q[i], NO_TAP))
  }

  lemma {:induction false} TypedIsPressedIn(q: seq<Event>, e: Event)
    requires !e.pressed
    ensures Typed(Fresh(q), e) <==> PressedIn(q, e.key)
  {
    if PressedIn(q, e.key) {
      var j :| 0 <= j < |q| && q[j].pressed && q[j].key == e.key;
      assert Fresh(q)[j].event == q[j];
    }
  }

  /** The environment gives this key these settings, whatever has been processed. */
  ghost predicate Steady(u: Rule, env: Env) {
    && (forall l, r: Record :: r.event == u.press ==> env.term(l, r) == u.term)
    && (forall l, r: Record :: r.event == u.press ==> env.permissive(l, r) == u.permissive)
    && (forall l, r: Record :: r.event == u.press ==> env.holdOnPress(l, r) == u.holdOnPress)
  }

  ghost predicate Holding(u: Rule, w: Wait, s: State) {
    && !IsTick(u.press) && u.press.pressed
    && s.tk.event == u.press && s.tk.tap.count == 0
    && s.buf == Fresh(w.queue) && s.log == w.log
  }

  /** Another key's event, or a second press of the own key, inside the term. */
  ghost predicate OtherEvent(u: Rule, e: Event) {
    !IsTick(e) && !Late(u, e) && (e.pressed || e.key != u.press.key)
  }

  /** What can wait: other events, and no presses if a press decides. */
  ghost predicate MayWait(u: Rule, q: seq<Event>) {
    forall e :: e in q ==> OtherEvent(u, e) && (u.holdOnPress ==> !e.pressed)
  }

  /** The press was logged at or after `base` with tap count `c`. */
  ghost predicate SettledAs(u: Rule, base: nat, c: nat, s: State) {
    exists i :: base <= i && LoggedAt(s.log, i, u.press, c)
  }

  ghost predicate Reached(u: Rule, v: Verdict, w: Wait, base: State, s: State) {
    match v
    case Undecided => Holding(u, w, s)
    case AsTap => SettledAs(u, |base.log|, 1, s)
    case AsHold => SettledAs(u, |base.log|, 0, s)
    case Overflowed => Count(s.lost, u.press) > Count(base.lost, u.press)
  }

  // ---------- Nothing logged or lost is ever taken back ----------

  ghost predicate Extends(s: State, s': State) {
    s.log <= s'.log && s.lost <= s'.lost
  }

  lemma {:induction false} ProcessTappingExtends(env: Env, s: State, r: Record)
    ensures Extends(s, ProcessTapping(env, s, r).s)
  {}

  lemma {:induction false} DrainExtends(env: Env, s: State)
    ensures Extends(s, Drain(env, s))
    decreases |s.buf|
  {
    if s.buf != [] {
      var o := ProcessTapping(env, s, s.buf[0]);
      ProcessTappingExtends(env, s, s.buf[0]);
      if o.handled { DrainExtends(env, o.s.(buf := o.s.buf[1..])); }
    }
  }

  lemma {:induction false} StepExtends(env: Env, s: State, e: Event)
    ensures Extends(Feed(env, s, e), Step(env, s, e))
    ensures Extends(s, Step(env, s, e))
  {
    ProcessTappingExtends(env, s, Record(e, NO_TAP));
    DrainExtends(env, Feed(env, s, e));
  }

  lemma {:induction false} CountGrows(a: seq<Event>, b: seq<Event>, x: Event)
    requires a <= b
    ensures Count(a, x) <= Count(b, x)
  {
    assert b == a + b[|a|..];
    CountConcat(a, b[|a|..], x);
  }

  lemma {:induction false} StaysReached(u: Rule, v: Verdict, w: Wait, base: State, s: State, s': State)
    requires !v.Undecided? && Reached(u, v, w, base, s) && Extends(s, s')
    ensures Reached(u, v, w, base, s')
  {
    if v.Overflowed? {
      CountGrows(s.lost, s'.lost, u.press);
    } else {
      var c := if v.AsTap? then 1 else 0;
      var i :| |base.log| <= i && LoggedAt(s.log, i, u.press, c);
      assert LoggedAt(s'.log, i, u.press, c);
    }
  }

  lemma {:induction false} LoggedNow(u: Rule, base: State, s: State, s': State, c: nat, tap: Tap)
    requires |base.log| <= |s.log| && tap.count == c
    requires Extends(Emit(s, Record(u.press, tap)), s')
    ensures SettledAs(u, |base.log|, c, s')
  {
    assert LoggedAt(s'.log, |s.log|, u.press, c);
  }

  // ---------- Draining ----------

  /** A head that stays: a press, a kept release, or a release exposed without permissive hold. */
  lemma {:induction false} HeadStays(u: Rule, env: Env, w: Wait, s: State)
    requires Steady(u, env) && Holding(u, w, s) && w.queue != [] && MayWait(u, w.queue)
    requires !Free(env, w) && !(u.permissive && Exposed(w))
    ensures Holding(u, w, Drain(env, s))
  {
    var e := w.queue[0];
    assert e in w.queue;
    if !e.pressed { TypedIsPressedIn(w.queue, e); }
    assert ProcessTapping(env, s, s.buf[0]).s.buf == s.buf;
  }

  /** A free head is processed and leaves the queue. */
  lemma {:induction false} HeadLeaves(u: Rule, env: Env, w: Wait, s: State)
    requires Steady(u, env) && Holding(u, w, s) && MayWait(u, w.queue) && Free(env, w)
    ensures var w' := Wait(w.queue[1..], Through(w.log, w.queue[0]));
            var s' := Emit(s, s.buf[0]).(buf := s.buf[1..]);
            Holding(u, w', s') && Drain(env, s) == Drain(env, s')
  {
    var e := w.queue[0];
    assert e in w.queue;
    TypedIsPressedIn(w.queue, e);
    assert Fresh(w.queue)[1..] == Fresh(w.queue[1..]);
  }

  lemma {:induction false} ExposedHolds(u: Rule, env: Env, base: State, w: Wait, s: State)
    requires Steady(u, env) && Holding(u, w, s) && MayWait(u, w.queue) && |base.log| <= |s.log|
    requires u.permissive && Exposed(w)
    ensures SettledAs(u, |base.log|, 0, Drain(env, s))
  {
    var e := w.queue[0];
    assert e in w.queue;
    TypedIsPressedIn(w.queue, e);
    LoggedNow(u, base, s, Drain(env, s), 0, s.tk.tap);
  }

  /** Draining prunes the queue, or settles the press when it comes to an exposed release. */
  lemma {:induction false} DrainWaits(u: Rule, env: Env, base: State, w: Wait, s: State)
    requires Steady(u, env) && Holding(u, w, s) && MayWait(u, w.queue) && |base.log| <= |s.log|
    ensures var w' := Prune(env, w);
            if u.permissive && Exposed(w') then SettledAs(u, |base.log|, 0, Drain(env, s))
            else Holding(u, w', Drain(env, s)) && Drain(env, s).lost == s.lost
    decreases |w.queue|
  {
    if Free(env, w) {
      HeadLeaves(u, env, w, s);
      DrainWaits(u, env, base, Wait(w.queue[1..], Through(w.log, w.queue[0])), Emit(s, s.buf[0]).(buf := s.buf[1..]));
    } else if u.permissive && Exposed(w) {
      ExposedHolds(u, env, base, w, s);
    } else if w.queue != [] {
      HeadStays(u, env, w, s);
    }
  }

  // ---------- One event ----------

  /** The own release, or an event at or past the term. */
  lemma {:induction false} DecidesByItself(u: Rule, env: Env, w: Wait, base: State, s: State, e: Event)
    requires Steady(u, env) && |base.log| <= |s.log| && Holding(u, w, s)
    requires Late(u, e) || (!IsTick(e) && !e.pressed && e.key == u.press.key)
    ensures SettledAs(u, |base.log|, if Late(u, e) then 0 else 1, Step(env, s, e))
  {
    StepExtends(env, s, e);
    if Late(u, e) {
      LoggedNow(u, base, s, Step(env, s, e), 0, s.tk.tap);
    } else {
      LoggedNow(u, base, s, Step(env, s, e), 1, s.tk.tap.(count := 1));
    }
  }

  /** It settles the press at once under permissive hold (a nested tap) or hold-on-other-press. */
  ghost predicate Interferes(u: Rule, w: Wait, e: Event) {
    (u.permissive && !e.pressed && PressedIn(w.queue, e.key)) || (u.holdOnPress && e.pressed)
  }

  lemma {:induction false} InterferingHolds(u: Rule, env: Env, w: Wait, base: State, s: State, e: Event)
    requires Steady(u, env) && |base.log| <= |s.log|
    requires Holding(u, w, s) && OtherEvent(u, e) && Interferes(u, w, e)
    ensures SettledAs(u, |base.log|, 0, Step(env, s, e))
  {
    StepExtends(env, s, e);
    if e.pressed {
      var s1 := s.(tk := s.tk.(tap := s.tk.tap.(interrupted := true)));
      LoggedNow(u, base, s1, Step(env, s, e), 0, s1.tk.tap);
    } else {
      TypedIsPressedIn(w.queue, e);
      LoggedNow(u, base, s, Step(env, s, e), 0, s.tk.tap);
    }
  }

  /** What the transition itself does with an event that does not interfere. */
  lemma {:induction false} OnlyWaitingIsNotHandled(u: Rule, env: Env, w: Wait, s: State, e: Event)
    requires Steady(u, env) && Holding(u, w, s) && OtherEvent(u, e) && !Interferes(u, w, e)
    ensures var o := ProcessTapping(env, s, Record(e, NO_TAP));
            && o.handled == !Joins(env, w, e)
            && o.rec == Record(e, NO_TAP) && o.s.lost == s.lost
            && Holding(u, if o.handled then Take(env, w, e) else w, o.s)
  {
    if !e.pressed { TypedIsPressedIn(w.queue, e); }
  }

  lemma {:induction false} OverflowLoses(u: Rule, env: Env, w: Wait, s: State, e: Event)
    requires Steady(u, env) && Holding(u, w, s) && OtherEvent(u, e) && !Interferes(u, w, e)
    requires Joins(env, w, e) && |w.queue| == 7
    ensures Count(Step(env, s, e).lost, u.press) > Count(s.lost, u.press)
  {
    OnlyWaitingIsNotHandled(u, env, w, s, e);
    var o := ProcessTapping(env, s, Record(e, NO_TAP));
    var rest := EventsOf(o.s.buf) + [e];
    assert s.lost + Pending(o.s) + EventsOf(o.s.buf) + [e] == s.lost + ([u.press] + rest);
    CountConcat(s.lost, [u.press] + rest, u.press);
    StepExtends(env, s, e);
    CountGrows(Feed(env, s, e).lost, Step(env, s, e).lost, u.press);
  }

  lemma {:induction false} FeedWaits(u: Rule, env: Env, w: Wait, s: State, e: Event)
    requires Steady(u, env) && Holding(u, w, s) && !Late(u, e)
    requires !IsTick(e) ==> OtherEvent(u, e) && !Interferes(u, w, e)
    requires Joins(env, w, e) ==> |w.queue| < 7
    ensures Holding(u, Take(env, w, e), Feed(env, s, e)) && Feed(env, s, e).lost == s.lost
  {
    if !IsTick(e) {
      OnlyWaitingIsNotHandled(u, env, w, s, e);
      assert Fresh(w.queue + [e]) == Fresh(w.queue) + [Record(e, NO_TAP)];
    }
  }

  // ---------- What waits while nothing is decided ----------

  lemma {:induction false} PruneShrinks(env: Env, w: Wait)
    ensures |Prune(env, w).queue| <= |w.queue| && forall e :: e in Prune(env, w).queue ==> e in w.queue
    decreases |w.queue|
  {
    if Free(env, w) { PruneShrinks(env, Wait(w.queue[1..], Through(w.log, w.queue[0]))); }
  }

  lemma {:induction false} OpenMayWait(u: Rule, base: Log, inputs: seq<Input>, n: nat)
    requires n < |inputs| && Plain(u, base, inputs, n).Undecided?
    requires MayWait(u, Waiting(base, inputs, n).queue)
    ensures MayWait(u, Take(inputs[n].env, Waiting(base, inputs, n), inputs[n].event).queue)
  {}

  lemma {:induction false} QueueFits(u: Rule, base: Log, inputs: seq<Input>, n: nat)
    requires n <= |inputs| && Open(u, base, inputs, n)
    ensures |Waiting(base, inputs, n).queue| <= 7 && MayWait(u, Waiting(base, inputs, n).queue)
  {
    if n > 0 {
      QueueFits(u, base, inputs, n - 1);
      assert Decision(u, base, inputs, n - 1).Undecided?;
      OpenMayWait(u, base, inputs, n - 1);
      PruneShrinks(inputs[n - 1].env, Take(inputs[n - 1].env, Waiting(base, inputs, n - 1), inputs[n - 1].event));
    }
  }

  /** One call takes the machine from the first `n` events to the first `n + 1`. */
  lemma {:induction false} StepDecides(u: Rule, inputs: seq<Input>, n: nat, base: State, s: State)
    requires n < |inputs| && Steady(u, inputs[n].env) && Open(u, base.log, inputs, n) && Extends(base, s)
    requires Holding(u, Waiting(base.log, inputs, n), s)
    ensures Reached(u, Decision(u, base.log, inputs, n), Waiting(base.log, inputs, n + 1), base,
                    Step(inputs[n].env, s, inputs[n].event))
  {
    var env, e, w := inputs[n].env, inputs[n].event, Waiting(base.log, inputs, n);
    CountGrows(base.lost, s.lost, u.press);
    QueueFits(u, base.log, inputs, n);
    QueueHoldsPresses(base.log, inputs, n, e.key);
    if Late(u, e) || (!IsTick(e) && !e.pressed && e.key == u.press.key) {
      DecidesByItself(u, env, w, base, s, e);
    } else if !IsTick(e) && Interferes(u, w, e) {
      InterferingHolds(u, env, w, base, s, e);
    } else if Joins(env, w, e) && |w.queue| == 7 {
      OverflowLoses(u, env, w, s, e);
    } else {
      FeedWaits(u, env, w, s, e);
      OpenMayWait(u, base.log, inputs, n);
      ProcessTappingExtends(env, s, Record(e, NO_TAP));
      DrainWaits(u, env, base, Take(env, w, e), Feed(env, s, e));
    }
  }

  // ---------- Every sequence of events ----------

  lemma {:induction false} RunDecides(u: Rule, inputs: seq<Input>, n: nat, base: State, s: State)
    requires n <= |inputs| && Extends(base, s) && Holding(u, Wait([], base.log), s)
    requires forall i :: 0 <= i < |inputs| ==> Steady(u, inputs[i].env)
    ensures Extends(base, Run(s, inputs[..n]))
    ensures Reached(u, FirstDecision(u, base.log, inputs, n), Waiting(base.log, inputs, n), base, Run(s, inputs[..n]))
  {
    if n > 0 {
      assert inputs[..n][..n - 1] == inputs[..n - 1];
      RunDecides(u, inputs, n - 1, base, s);
      StillOpen(u, base.log, inputs, n - 1);
      var s1, env, e := Run(s, inputs[..n - 1]), inputs[n - 1].env, inputs[n - 1].event;
      StepExtends(env, s1, e);
      var v := FirstDecision(u, base.log, inputs, n - 1);
      if v.Undecided? {
        StepDecides(u, inputs, n - 1, base, s1);
      } else {
        StaysReached(u, v, Waiting(base.log, inputs, n - 1), base, s1, Step(env, s1, e));
      }
    }
  }

  lemma {:induction false} RunKeeps(s: State, inputs: seq<Input>, e: Event)
    requires Valid(s) && e !in EventsIn(inputs)
    ensures Valid(Run(s, inputs)) && Total(Run(s, inputs), e) == Total(s, e)
    decreases |inputs|
  {
    if inputs != [] {
      var n := |inputs| - 1;
      assert inputs[n].event == EventsIn(inputs)[n];
      forall x | x in EventsIn(inputs[..n]) ensures x in EventsIn(inputs) {
        var i :| 0 <= i < n && EventsIn(inputs[..n])[i] == x;
        assert EventsIn(inputs)[i] == x;
      }
      RunKeeps(s, inputs[..n], e);
      StepKeeps(inputs[n].env, Run(s, inputs[..n]), inputs[n].event, e);
    }
  }

  lemma {:induction false} LoggedOnceMore(log: Log, log': Log, i: nat, e: Event, c: nat)
    requires log <= log' && |log| <= i && LoggedAt(log', i, e, c)
    ensures LoggedCount(log', e) >= LoggedCount(log, e) + 1
    decreases |log'|
  {
    var n := |log'| - 1;
    if i < n {
      LoggedOnceMore(log, log'[..n], i, e, c);
    } else {
      LoggedGrows(log, log'[..n], e);
    }
  }

  lemma {:induction false} LoggedGrows(log: Log, log': Log, e: Event)
    requires log <= log'
    ensures LoggedCount(log, e) <= LoggedCount(log', e)
    decreases |log'|
  {
    if |log| < |log'| {
      LoggedGrows(log, log'[..|log'| - 1], e);
    } else {
      assert log == log';
    }
  }

  /** The press is where the first decision puts it, and was logged exactly once more if it is settled. */
  ghost predicate Decided(u: Rule, inputs: seq<Input>, base: State, s: State) {
    var v := FirstDecision(u, base.log, inputs, |inputs|);
    && Reached(u, v, Waiting(base.log, inputs, |inputs|), base, s)
    && LoggedCount(s.log, u.press) == LoggedCount(base.log, u.press) + if v.AsTap? || v.AsHold? then 1 else 0
  }

  /**
   * A tap-hold press met in the reset state is settled by the first decisive event that follows it, for
   * every sequence of events with any timestamps, whatever the layers and with them the retention of other
   * keys do meanwhile: logged exactly once, with tap count 1 for a tap and 0 for a hold, or thrown away by
   * an overflow, or still waiting for its verdict with exactly the declared queue and log.
   */
  lemma {:induction false} VerdictRefinement(u: Rule, env: Env, inputs: seq<Input>, s: State)
    requires Valid(s) && s.tk == RESET && s.buf == []
    requires !IsTick(u.press) && u.press.pressed && env.isTap(s.log, u.press.key)
    requires forall i :: 0 <= i < |inputs| ==> Steady(u, inputs[i].env)
    requires u.press !in EventsIn(inputs)
    ensures Decided(u, inputs, s, Run(Step(env, s, u.press), inputs))
  {
    StepKeeps(env, s, u.press, u.press);
    VerdictFromHolding(u, inputs, s, Step(env, s, u.press));
  }

  /** From the moment on at which the press is under decision. */
  lemma {:induction false} VerdictFromHolding(u: Rule, inputs: seq<Input>, base: State, s: State)
    requires Valid(s) && Extends(base, s) && Holding(u, Wait([], base.log), s)
    requires Total(s, u.press) == LoggedCount(base.log, u.press) + Count(base.lost, u.press) + 1
    requires forall i :: 0 <= i < |inputs| ==> Steady(u, inputs[i].env)
    requires u.press !in EventsIn(inputs)
    ensures Decided(u, inputs, base, Run(s, inputs))
  {
    var v := FirstDecision(u, base.log, inputs, |inputs|);
    var s' := Run(s, inputs);
    assert inputs[..|inputs|] == inputs;
    RunDecides(u, inputs, |inputs|, base, s);
    RunKeeps(s, inputs, u.press);
    LoggedGrows(base.log, s'.log, u.press);
    CountGrows(base.lost, s'.lost, u.press);
    if v.AsTap? || v.AsHold? {
      var c := if v.AsTap? then 1 else 0;
      var i :| |base.log| <= i && LoggedAt(s'.log, i, u.press, c);
      LoggedOnceMore(base.log, s'.log, i, u.press, c);
    }
  }

  /** The wrapping clock does not blur the term while the events span less than 2^16 ms. */
  lemma {:induction false} LateInTrueTime(u: Rule, e: Event, start: nat, now: nat)
    requires start <= now < start + 0x1_0000
    requires u.press.time == start % 0x1_0000 && e.time == now % 0x1_0000
    ensures Late(u, e) <==> now - start >= u.term
  {
    ElapsedIsTrueSpan(start, now);
  }
}
