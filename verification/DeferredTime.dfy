/**
 * Deadlines of the deferred executor in true time: passes, callbacks that extend entries while a pass is
 * running, and requests between passes, across the wrap of the 32-bit clock.
 */
module DeferredTime {
  import opened Deferred

  // ---------- One entry and the requests that concern it ----------

  ghost predicate Cancels(q: Request, token: nat) {
    q.Cancel? && q.token == token
  }

  ghost predicate Extends(q: Request, token: nat) {
    q.Extend? && q.token == token && q.delay > 0
  }

  /** Slot `i` holds entry `e` with true deadline `t`. */
  ghost predicate Holds(s: State, i: nat, e: Executor, t: nat) {
    i < |s.table| && s.table[i] == e.(trigger := t % WRAP)
  }

  /** Where one request moves the true deadline of the entry with this token. */
  ghost function Moved(t: nat, q: Request, token: nat): nat {
    if Extends(q, token) then q.now + q.delay else t
  }

  ghost function MovedBy(t: nat, qs: seq<Request>, token: nat): nat
    decreases |qs|
  {
    if qs == [] then t else MovedBy(Moved(t, qs[0], token), qs[1..], token)
  }

  /** A request extends the entry, or leaves it alone. */
  lemma {:induction false} ApplyHolds(s: State, q: Request, i: nat, e: Executor, t: nat)
    requires Inv(s) && Holds(s, i, e, t) && e.token != 0 && !Cancels(q, e.token)
    ensures Holds(Apply(s, q), i, e, Moved(t, q, e.token))
  {}

  lemma {:induction false} ApplyAllHolds(s: State, qs: seq<Request>, i: nat, e: Executor, t: nat)
    requires Inv(s) && Holds(s, i, e, t) && e.token != 0 && forall q :: q in qs ==> !Cancels(q, e.token)
    ensures Holds(ApplyAll(s, qs), i, e, MovedBy(t, qs, e.token))
    decreases |qs|
  {
    if qs != [] {
      ApplyHolds(s, qs[0], i, e, t);
      ApplyKeeps(s, qs[0]);
      ApplyAllHolds(Apply(s, qs[0]), qs[1..], i, e, Moved(t, qs[0], e.token));
    }
  }

  // ---------- Calls ----------

  /** The entries slot `i` was called with, in order. */
  ghost function CallsOf(calls: seq<Call>, i: nat): seq<Executor> {
    if calls == [] then [] else
    var n := |calls| - 1;
    CallsOf(calls[..n], i) + if calls[n].slot == i then [calls[n].entry] else []
  }

  lemma {:induction false} CallsOfAppend(calls: seq<Call>, c: Call, i: nat)
    ensures CallsOf(calls + [c], i) == CallsOf(calls, i) + if c.slot == i then [c.entry] else []
  {}

  lemma {:induction false} OtherSlotCalls(p: Progress, now: nat, act: Behaviour, j: nat, i: nat)
    requires j < |p.s.table| && i != j
    ensures CallsOf(RunSlot(p, now, act, j).calls, i) == CallsOf(p.calls, i)
  {
    CallsOfAppend(p.calls, Call(j, p.s.table[j]), i);
  }

  // ---------- One slot ----------

  /** No callback cancels the entry with this token. */
  ghost predicate NeverCancels(act: Behaviour, token: nat) {
    forall e, calls, q :: q in act(e, calls).requests ==> !Cancels(q, token)
  }

  ghost function ReactionAt(p: Progress, act: Behaviour, j: nat): Reaction
    requires j < |p.s.table|
  {
    act(p.s.table[j], p.calls)
  }

  /** The true deadline of slot `i` after slot `j` had its turn. */
  ghost function SlotDeadline(p: Progress, now: nat, act: Behaviour, j: nat, i: nat, t: nat): nat
    requires j < |p.s.table| && i < |p.s.table|
  {
    if !Due(p.s.table[j], now) then t
    else
      var r := ReactionAt(p, act, j);
      MovedBy(t, r.requests, p.s.table[i].token) + if i == j then r.delay else 0
  }

  lemma {:induction false} AddWrapped(x: nat, d: nat)
    ensures (x % WRAP + d) % WRAP == (x + d) % WRAP
  {}

  lemma {:induction false} OtherSlotHolds(p: Progress, now: nat, act: Behaviour, j: nat, i: nat, e: Executor, t: nat)
    requires Inv(p.s) && Holds(p.s, i, e, t) && e.token != 0 && NeverCancels(act, e.token)
    requires j < |p.s.table| && i != j
    ensures Holds(RunSlot(p, now, act, j).s, i, e, SlotDeadline(p, now, act, j, i, t))
  {
    if Due(p.s.table[j], now) { ApplyAllHolds(p.s, ReactionAt(p, act, j).requests, i, e, t); }
  }

  lemma {:induction false} OwnSlotHolds(p: Progress, now: nat, act: Behaviour, i: nat, e: Executor, t: nat)
    requires Inv(p.s) && Holds(p.s, i, e, t) && e.token != 0 && NeverCancels(act, e.token)
    requires Due(p.s.table[i], now) ==> ReactionAt(p, act, i).delay > 0
    ensures Holds(RunSlot(p, now, act, i).s, i, e, SlotDeadline(p, now, act, i, i, t))
  {
    if Due(p.s.table[i], now) {
      var r := ReactionAt(p, act, i);
      ApplyAllHolds(p.s, r.requests, i, e, t);
      AddWrapped(MovedBy(t, r.requests, e.token), r.delay);
    }
  }

  lemma {:induction false} OwnSlotCalls(p: Progress, now: nat, act: Behaviour, i: nat)
    requires i < |p.s.table|
    ensures CallsOf(RunSlot(p, now, act, i).calls, i) ==
            CallsOf(p.calls, i) + if Due(p.s.table[i], now) then [p.s.table[i]] else []
  {
    CallsOfAppend(p.calls, Call(i, p.s.table[i]), i);
  }

  // ---------- One pass ----------

  /** The true deadline of slot `i` after the slots below `n` had their turns. */
  ghost function PassDeadline(p: Progress, now: nat, act: Behaviour, n: nat, i: nat, t: nat): nat
    requires n <= |p.s.table| && i < |p.s.table|
  {
    if n == 0 then t
    else SlotDeadline(RunSlots(p, now, act, n - 1), now, act, n - 1, i, PassDeadline(p, now, act, n - 1, i, t))
  }

  /** What slot `i` is called with in the turns of the slots below `n`. */
  ghost function CalledWith(p: Progress, now: nat, act: Behaviour, n: nat, i: nat): seq<Executor>
    requires n <= |p.s.table| && i < |p.s.table|
  {
    var q := RunSlots(p, now, act, i);
    if i < n && Due(q.s.table[i], now) then [q.s.table[i]] else []
  }

  /** If the entry is due at its turn, its callback does not end it. */
  ghost predicate Continues(p: Progress, now: nat, act: Behaviour, i: nat)
    requires i < |p.s.table|
  {
    var q := RunSlots(p, now, act, i);
    Due(q.s.table[i], now) ==> ReactionAt(q, act, i).delay > 0
  }

  /** What a pass has made of slot `i` when the slots below `n` had their turns. */
  ghost predicate PassHolds(p: Progress, q: Progress, now: nat, act: Behaviour, n: nat, i: nat, e: Executor, t: nat)
    requires n <= |p.s.table| && i < |p.s.table|
  {
    && Holds(q.s, i, e, PassDeadline(p, now, act, n, i, t))
    && CallsOf(q.calls, i) == CallsOf(p.calls, i) + CalledWith(p, now, act, n, i)
  }

  lemma {:induction false} TurnHolds(p: Progress, q: Progress, now: nat, act: Behaviour, n: nat, i: nat, e: Executor,
                                     t: nat)
    requires n < |p.s.table| && i < |p.s.table| && q == RunSlots(p, now, act, n) && Inv(q.s)
    requires e.token != 0 && NeverCancels(act, e.token) && Continues(p, now, act, i)
    requires PassHolds(p, q, now, act, n, i, e, t)
    ensures PassHolds(p, RunSlot(q, now, act, n), now, act, n + 1, i, e, t)
  {
    var t1 := PassDeadline(p, now, act, n, i, t);
    if n == i {
      OwnSlotHolds(q, now, act, i, e, t1);
      OwnSlotCalls(q, now, act, i);
    } else {
      OtherSlotHolds(q, now, act, n, i, e, t1);
      OtherSlotCalls(q, now, act, n, i);
    }
  }

  /**
   * In a pass an entry is called at most once, exactly if it is due at its turn; it is moved on by the
   * extensions that callbacks ask for meanwhile and by the delay its own callback returns.
   */
  lemma {:induction false} PassUpTo(p: Progress, now: nat, act: Behaviour, n: nat, i: nat, e: Executor, t: nat)
    requires n <= |p.s.table| && Inv(p.s) && Holds(p.s, i, e, t)
    requires e.token != 0 && NeverCancels(act, e.token) && Continues(p, now, act, i)
    ensures PassHolds(p, RunSlots(p, now, act, n), now, act, n, i, e, t)
  {
    if n > 0 {
      PassUpTo(p, now, act, n - 1, i, e, t);
      RunSlotsKeeps(p, now, act, n - 1);
      TurnHolds(p, RunSlots(p, now, act, n - 1), now, act, n - 1, i, e, t);
    }
  }

  // ---------- Slots that are freed ----------

  /** No callback asks for a new entry. */
  ghost predicate NeverDefers(act: Behaviour) {
    forall e, calls, q :: q in act(e, calls).requests ==> !q.Defer?
  }

  lemma {:induction false} ApplyAllLeavesFree(s: State, qs: seq<Request>, i: nat)
    requires i < |s.table| && s.table[i].token == 0 && forall q :: q in qs ==> !q.Defer?
    ensures ApplyAll(s, qs).table[i] == s.table[i]
    decreases |qs|
  {
    if qs != [] { ApplyAllLeavesFree(Apply(s, qs[0]), qs[1..], i); }
  }

  lemma {:induction false} RunSlotLeavesFree(p: Progress, now: nat, act: Behaviour, j: nat, i: nat)
    requires j < |p.s.table| && i < |p.s.table| && i != j && p.s.table[i].token == 0 && NeverDefers(act)
    ensures RunSlot(p, now, act, j).s.table[i] == p.s.table[i]
  {
    var e := p.s.table[j];
    if Due(e, now) { ApplyAllLeavesFree(p.s, act(e, p.calls).requests, i); }
  }

  /** A due entry whose callback does not cancel it and returns 0. */
  lemma {:induction false} OwnSlotFrees(p: Progress, now: nat, act: Behaviour, i: nat)
    requires Inv(p.s) && i < |p.s.table| && Due(p.s.table[i], now) && p.s.table[i].trigger < WRAP
    requires NeverCancels(act, p.s.table[i].token) && ReactionAt(p, act, i).delay == 0
    ensures RunSlot(p, now, act, i).s.table[i] == FREE
  {
    var e := p.s.table[i];
    ApplyAllHolds(p.s, ReactionAt(p, act, i).requests, i, e, e.trigger);
  }

  /** Slot `i` was called once since `before`, and is free as long as nothing new is asked for. */
  ghost predicate Ended(q: Progress, act: Behaviour, i: nat, before: seq<Executor>) {
    i < |q.s.table| && CallsOf(q.calls, i) == before && (NeverDefers(act) ==> q.s.table[i] == FREE)
  }

  lemma {:induction false} EndsNow(q: Progress, now: nat, act: Behaviour, i: nat)
    requires Inv(q.s) && i < |q.s.table| && Due(q.s.table[i], now) && q.s.table[i].trigger < WRAP
    requires NeverCancels(act, q.s.table[i].token) && ReactionAt(q, act, i).delay == 0
    ensures Ended(RunSlot(q, now, act, i), act, i, CallsOf(q.calls, i) + [q.s.table[i]])
  {
    OwnSlotFrees(q, now, act, i);
    OwnSlotCalls(q, now, act, i);
  }

  lemma {:induction false} StaysEnded(q: Progress, now: nat, act: Behaviour, j: nat, i: nat, before: seq<Executor>)
    requires j < |q.s.table| && i != j && Ended(q, act, i, before)
    ensures Ended(RunSlot(q, now, act, j), act, i, before)
  {
    OtherSlotCalls(q, now, act, j, i);
    if NeverDefers(act) { RunSlotLeavesFree(q, now, act, j, i); }
  }

  lemma {:induction false} EndedUpTo(p: Progress, now: nat, act: Behaviour, n: nat, i: nat, before: seq<Executor>)
    requires i < n <= |p.s.table| && Ended(RunSlots(p, now, act, i + 1), act, i, before)
    ensures Ended(RunSlots(p, now, act, n), act, i, before)
  {
    if n > i + 1 {
      EndedUpTo(p, now, act, n - 1, i, before);
      StaysEnded(RunSlots(p, now, act, n - 1), now, act, n - 1, i, before);
    }
  }

  /**
   * A callback that returns 0 at its turn is called just the same, once, and is not called again in the
   * pass; at its end the slot is free, unless a callback asked for a new entry meanwhile.
   */
  lemma {:induction false} OneShotFreesSlot(p: Progress, q: Progress, now: nat, act: Behaviour, n: nat, i: nat)
    requires Inv(p.s) && i < n <= |p.s.table| && q == RunSlots(p, now, act, i)
    requires Due(q.s.table[i], now) && q.s.table[i].trigger < WRAP
    requires NeverCancels(act, q.s.table[i].token) && ReactionAt(q, act, i).delay == 0
    ensures Ended(RunSlots(p, now, act, n), act, i, CallsOf(q.calls, i) + [q.s.table[i]])
  {
    RunSlotsKeeps(p, now, act, i);
    EndsNow(q, now, act, i);
    EndedUpTo(p, now, act, n, i, CallsOf(q.calls, i) + [q.s.table[i]]);
  }

  // ---------- True time ----------

  /** The signed wrapped difference tells the order of two true times less than 2^31 ms apart. */
  lemma {:induction false} DueInTrueTime(deadline: nat, now: nat)
    requires -(WRAP / 2) <= deadline - now < WRAP / 2
    ensures SignedDiff(deadline % WRAP, now % WRAP) <= 0 <==> deadline <= now
  {}

  /** The throttle: a call makes a pass exactly if the clock moved on since the last one. */
  lemma {:induction false} TaskInTrueTime(p: Progress, now: nat, last: nat, act: Behaviour)
    requires -(WRAP / 2) <= now - last < WRAP / 2
    ensures Task(p, now % WRAP, last % WRAP, act) ==
            if last < now then (Pass(p, now % WRAP, act), now % WRAP) else (p, last % WRAP)
  {
    DueInTrueTime(now, last);
  }

  /** A pass, or a request from outside a pass, at a true time. */
  datatype Moment = PassAt(time: nat, act: Behaviour) | AskedAt(request: Request)

  ghost function Happen(p: Progress, m: Moment): (p': Progress)
    ensures |p'.s.table| == |p.s.table|
  {
    match m
    case PassAt(time, act) => Pass(p, time % WRAP, act)
    case AskedAt(r) => p.(s := Apply(p.s, r))
  }

  /** The true deadline that slot `i` has at its turn in a pass. */
  ghost function TurnDeadline(p: Progress, m: Moment, i: nat, t: nat): nat
    requires i < |p.s.table| && m.PassAt?
  {
    PassDeadline(p, m.time % WRAP, m.act, i, i, t)
  }

  /** Whether a moment runs the callback: a pass that finds the true deadline reached at its turn. */
  ghost predicate Runs(p: Progress, m: Moment, i: nat, t: nat)
    requires i < |p.s.table|
  {
    m.PassAt? && TurnDeadline(p, m, i, t) <= m.time
  }

  /** Where a moment moves the true deadline `t` of slot `i`. */
  ghost function Onward(p: Progress, m: Moment, i: nat, t: nat): nat
    requires i < |p.s.table|
  {
    if m.PassAt? then PassDeadline(p, m.time % WRAP, m.act, |p.s.table|, i, t)
    else Moved(t, m.request, p.s.table[i].token)
  }

  /**
   * What is asked of a moment: nobody cancels the entry and its own callback does not end it; in a pass the
   * deadline is within 2^31 ms of the clock at its turn.
   */
  ghost predicate Fair(p: Progress, m: Moment, i: nat, t: nat)
    requires i < |p.s.table|
  {
    match m
    case PassAt(time, act) =>
      && NeverCancels(act, p.s.table[i].token) && Continues(p, time % WRAP, act, i)
      && -(WRAP / 2) <= TurnDeadline(p, m, i, t) - time < WRAP / 2
    case AskedAt(r) => !Cancels(r, p.s.table[i].token)
  }

  /** One pass at a true time, over an entry with a true deadline. */
  lemma {:induction false} PassInTrueTime(p: Progress, m: Moment, i: nat, e: Executor, t: nat)
    requires Inv(p.s) && Holds(p.s, i, e, t) && e.token != 0 && m.PassAt? && Fair(p, m, i, t)
    ensures var q := Pass(p, m.time % WRAP, m.act);
            && Holds(q.s, i, e, Onward(p, m, i, t))
            && CallsOf(q.calls, i) == CallsOf(p.calls, i) +
               if Runs(p, m, i, t) then [e.(trigger := TurnDeadline(p, m, i, t) % WRAP)] else []
  {
    var now := m.time % WRAP;
    PassUpTo(p, now, m.act, i, i, e, t);
    PassUpTo(p, now, m.act, |p.s.table|, i, e, t);
    DueInTrueTime(TurnDeadline(p, m, i, t), m.time);
  }

  // ---------- Every run ----------

  /** The progress after the first `n` moments. */
  ghost function Moments(p: Progress, ms: seq<Moment>, n: nat): (p': Progress)
    requires n <= |ms|
    ensures |p'.s.table| == |p.s.table|
  {
    if n == 0 then p else Happen(Moments(p, ms, n - 1), ms[n - 1])
  }

  /** The true deadline of slot `i` after `n` moments. */
  ghost function Deadline(p: Progress, ms: seq<Moment>, i: nat, start: nat, n: nat): nat
    requires n <= |ms| && i < |p.s.table|
  {
    if n == 0 then start else Onward(Moments(p, ms, n - 1), ms[n - 1], i, Deadline(p, ms, i, start, n - 1))
  }

  ghost function IntendedBy(p: Progress, m: Moment, i: nat, t: nat): seq<nat>
    requires i < |p.s.table|
  {
    if Runs(p, m, i, t) then [TurnDeadline(p, m, i, t)] else []
  }

  /** The true times it was meant to run at, in the passes that ran it. */
  ghost function Intended(p: Progress, ms: seq<Moment>, i: nat, start: nat, n: nat): seq<nat>
    requires n <= |ms| && i < |p.s.table|
  {
    if n == 0 then [] else
    Intended(p, ms, i, start, n - 1)
    + IntendedBy(Moments(p, ms, n - 1), ms[n - 1], i, Deadline(p, ms, i, start, n - 1))
  }

  ghost function Stamped(e: Executor, ts: seq<nat>): (es: seq<Executor>)
    ensures |es| == |ts| && forall j :: 0 <= j < |ts| ==> es[j] == e.(trigger := ts[j] % WRAP)
  {
    seq(|ts|, j requires 0 <= j < |ts| => e.(trigger := ts[j] % WRAP))
  }

  lemma {:induction false} StampOne(before: seq<Executor>, e: Executor, ts: seq<nat>, t: nat)
    ensures before + Stamped(e, ts + [t]) == before + Stamped(e, ts) + [e.(trigger := t % WRAP)]
  {}

  /** Slot `i` holds entry `e` with true deadline `t`, and was called at the true times `ts` so far. */
  ghost predicate Tracks(p: Progress, i: nat, e: Executor, before: seq<Executor>, t: nat, ts: seq<nat>) {
    Inv(p.s) && Holds(p.s, i, e, t) && CallsOf(p.calls, i) == before + Stamped(e, ts)
  }

  lemma {:induction false} HappenKeeps(p: Progress, m: Moment)
    requires Inv(p.s)
    ensures Inv(Happen(p, m).s)
  {
    match m
    case PassAt(time, act) => RunSlotsKeeps(p, time % WRAP, act, |p.s.table|);
    case AskedAt(r) => ApplyKeeps(p.s, r);
  }

  /** One moment moves the true deadline on, and adds the intended time if it runs the callback. */
  lemma {:induction false} TracksMoment(p: Progress, m: Moment, i: nat, e: Executor, before: seq<Executor>, t: nat,
                                        ts: seq<nat>)
    requires Tracks(p, i, e, before, t, ts) && e.token != 0 && Fair(p, m, i, t)
    ensures Tracks(Happen(p, m), i, e, before, Onward(p, m, i, t), ts + IntendedBy(p, m, i, t))
  {
    HappenKeeps(p, m);
    assert ts + [] == ts;
    if m.PassAt? {
      PassInTrueTime(p, m, i, e, t);
      StampOne(before, e, ts, TurnDeadline(p, m, i, t));
    } else {
      ApplyHolds(p.s, m.request, i, e, t);
    }
  }

  ghost predicate FairUpTo(p: Progress, ms: seq<Moment>, n: nat, i: nat, start: nat)
    requires n <= |ms| && i < |p.s.table|
  {
    n == 0 || (FairUpTo(p, ms, n - 1, i, start)
               && Fair(Moments(p, ms, n - 1), ms[n - 1], i, Deadline(p, ms, i, start, n - 1)))
  }

  /**
   * While every deadline stays within 2^31 ms of the clock, over any passes and any requests in and between
   * them: the callback runs exactly in the passes that find its true deadline reached at its turn, once in
   * each, and is given its intended times; the delays it returns, and extensions, move it in true time.
   */
  lemma {:induction false} DeadlinesAcrossWrap(p: Progress, ms: seq<Moment>, n: nat, i: nat, start: nat)
    requires n <= |ms| && i < |p.s.table| && Inv(p.s)
    requires p.s.table[i].token != 0 && p.s.table[i].trigger == start % WRAP && FairUpTo(p, ms, n, i, start)
    ensures Tracks(Moments(p, ms, n), i, p.s.table[i], CallsOf(p.calls, i),
                   Deadline(p, ms, i, start, n), Intended(p, ms, i, start, n))
  {
    var e, before := p.s.table[i], CallsOf(p.calls, i);
    if n == 0 {
      assert before + Stamped(e, []) == before;
    } else {
      DeadlinesAcrossWrap(p, ms, n - 1, i, start);
      var q, t, ts := Moments(p, ms, n - 1), Deadline(p, ms, i, start, n - 1), Intended(p, ms, i, start, n - 1);
      TracksMoment(q, ms[n - 1], i, e, before, t, ts);
    }
  }

  // ---------- No drift ----------

  /** No callback extends the entry. */
  ghost predicate NeverExtends(act: Behaviour, token: nat) {
    forall e, calls, q :: q in act(e, calls).requests ==> !Extends(q, token)
  }

  lemma {:induction false} NotMoved(t: nat, qs: seq<Request>, token: nat)
    requires forall q :: q in qs ==> !Extends(q, token)
    ensures MovedBy(t, qs, token) == t
    decreases |qs|
  {
    if qs != [] { NotMoved(t, qs[1..], token); }
  }

  /** Without extensions, a pass moves the deadline by the returned delay and nothing else. */
  lemma {:induction false} PassMoves(p: Progress, now: nat, act: Behaviour, n: nat, i: nat, e: Executor, t: nat)
    requires n <= |p.s.table| && Inv(p.s) && Holds(p.s, i, e, t) && e.token != 0
    requires NeverCancels(act, e.token) && NeverExtends(act, e.token) && Continues(p, now, act, i)
    ensures var q := RunSlots(p, now, act, i);
            PassDeadline(p, now, act, n, i, t) ==
            t + if i < n && Due(q.s.table[i], now) then ReactionAt(q, act, i).delay else 0
  {
    if n > 0 {
      PassMoves(p, now, act, n - 1, i, e, t);
      PassUpTo(p, now, act, n - 1, i, e, t);
      var q := RunSlots(p, now, act, n - 1);
      NotMoved(PassDeadline(p, now, act, n - 1, i, t), ReactionAt(q, act, n - 1).requests, e.token);
    }
  }

  /** Nobody extends the entry. */
  ghost predicate Quiet(p: Progress, m: Moment, i: nat)
    requires i < |p.s.table|
  {
    match m
    case PassAt(time, act) => NeverExtends(act, p.s.table[i].token)
    case AskedAt(r) => !Extends(r, p.s.table[i].token)
  }

  /** What the callback returns when it is called in a pass. */
  ghost function DelayIn(p: Progress, m: Moment, i: nat): nat
    requires i < |p.s.table|
  {
    if m.PassAt? then ReactionAt(RunSlots(p, m.time % WRAP, m.act, i), m.act, i).delay else 0
  }

  /** Without extensions the callback runs in a pass exactly if the deadline is reached, and moves it by its delay. */
  lemma {:induction false} QuietMoment(p: Progress, m: Moment, i: nat, e: Executor, t: nat)
    requires Inv(p.s) && Holds(p.s, i, e, t) && e.token != 0 && Fair(p, m, i, t) && Quiet(p, m, i)
    ensures Runs(p, m, i, t) <==> m.PassAt? && t <= m.time
    ensures Onward(p, m, i, t) == if Runs(p, m, i, t) then t + DelayIn(p, m, i) else t
    ensures IntendedBy(p, m, i, t) == if Runs(p, m, i, t) then [t] else []
  {
    if m.PassAt? {
      var now := m.time % WRAP;
      PassMoves(p, now, m.act, i, i, e, t);
      PassMoves(p, now, m.act, |p.s.table|, i, e, t);
      PassUpTo(p, now, m.act, i, i, e, t);
      DueInTrueTime(t, m.time);
    }
  }

  /** Nobody extends the entry, and its callback returns `d` whenever it is called. */
  ghost predicate Regular(p: Progress, m: Moment, i: nat, d: nat)
    requires i < |p.s.table|
  {
    Quiet(p, m, i) && (m.PassAt? ==> DelayIn(p, m, i) == d)
  }

  ghost predicate RegularUpTo(p: Progress, ms: seq<Moment>, n: nat, i: nat, d: nat)
    requires n <= |ms| && i < |p.s.table|
  {
    n == 0 || (RegularUpTo(p, ms, n - 1, i, d) && Regular(Moments(p, ms, n - 1), ms[n - 1], i, d))
  }

  /** `t` and the times before it are start, start + d, start + 2d and so on. */
  ghost predicate EvenlySpaced(ts: seq<nat>, t: nat, start: nat, d: nat) {
    t == start + |ts| * d && forall j :: 0 <= j < |ts| ==> ts[j] == start + j * d
  }

  lemma {:induction false} OneMoreTime(ts: seq<nat>, t: nat, start: nat, d: nat)
    requires EvenlySpaced(ts, t, start, d)
    ensures EvenlySpaced(ts + [t], t + d, start, d)
  {
    assert (|ts| + 1) * d == |ts| * d + d;
  }

  lemma {:induction false} OneMoreRegular(p: Progress, m: Moment, i: nat, t: nat, ts: seq<nat>, start: nat, d: nat)
    requires i < |p.s.table| && EvenlySpaced(ts, t, start, d)
    requires Onward(p, m, i, t) == if Runs(p, m, i, t) then t + d else t
    requires IntendedBy(p, m, i, t) == if Runs(p, m, i, t) then [t] else []
    ensures EvenlySpaced(ts + IntendedBy(p, m, i, t), Onward(p, m, i, t), start, d)
  {
    OneMoreTime(ts, t, start, d);
    assert ts + [] == ts;
  }

  /** No drift: a callback that always returns d is meant to run at start, start + d, ..., however late the passes. */
  lemma {:induction false} NoDrift(p: Progress, ms: seq<Moment>, n: nat, i: nat, start: nat, d: nat)
    requires n <= |ms| && i < |p.s.table| && Inv(p.s)
    requires p.s.table[i].token != 0 && p.s.table[i].trigger == start % WRAP
    requires FairUpTo(p, ms, n, i, start) && RegularUpTo(p, ms, n, i, d)
    ensures EvenlySpaced(Intended(p, ms, i, start, n), Deadline(p, ms, i, start, n), start, d)
  {
    if n > 0 {
      NoDrift(p, ms, n - 1, i, start, d);
      DeadlinesAcrossWrap(p, ms, n - 1, i, start);
      var q, t, ts := Moments(p, ms, n - 1), Deadline(p, ms, i, start, n - 1), Intended(p, ms, i, start, n - 1);
      QuietMoment(q, ms[n - 1], i, p.s.table[i], t);
      OneMoreRegular(q, ms[n - 1], i, t, ts, start, d);
    }
  }

  // ---------- The first call ----------

  /** In the first `n` moments nobody extends the entry, and no pass is as late as `start`. */
  ghost predicate NotYet(p: Progress, ms: seq<Moment>, n: nat, i: nat, start: nat)
    requires n <= |ms| && i < |p.s.table|
  {
    n == 0 || (NotYet(p, ms, n - 1, i, start) && Quiet(Moments(p, ms, n - 1), ms[n - 1], i)
               && (ms[n - 1].PassAt? ==> ms[n - 1].time < start))
  }

  lemma {:induction false} NotCalledBefore(p: Progress, ms: seq<Moment>, n: nat, i: nat, start: nat)
    requires n <= |ms| && i < |p.s.table| && Inv(p.s)
    requires p.s.table[i].token != 0 && p.s.table[i].trigger == start % WRAP
    requires FairUpTo(p, ms, n, i, start) && NotYet(p, ms, n, i, start)
    ensures Deadline(p, ms, i, start, n) == start && Intended(p, ms, i, start, n) == []
  {
    if n > 0 {
      NotCalledBefore(p, ms, n - 1, i, start);
      DeadlinesAcrossWrap(p, ms, n - 1, i, start);
      QuietMoment(Moments(p, ms, n - 1), ms[n - 1], i, p.s.table[i], start);
    }
  }

  /** The callback is first called in the first pass that finds its deadline reached, and in none before. */
  lemma {:induction false} FirstCall(p: Progress, ms: seq<Moment>, n: nat, i: nat, start: nat)
    requires n < |ms| && i < |p.s.table| && Inv(p.s)
    requires p.s.table[i].token != 0 && p.s.table[i].trigger == start % WRAP
    requires FairUpTo(p, ms, n + 1, i, start) && NotYet(p, ms, n, i, start)
    requires Quiet(Moments(p, ms, n), ms[n], i) && ms[n].PassAt? && start <= ms[n].time
    ensures CallsOf(Moments(p, ms, n).calls, i) == CallsOf(p.calls, i)
    ensures CallsOf(Moments(p, ms, n + 1).calls, i) == CallsOf(p.calls, i) + [p.s.table[i]]
  {
    var e, before := p.s.table[i], CallsOf(p.calls, i);
    NotCalledBefore(p, ms, n, i, start);
    DeadlinesAcrossWrap(p, ms, n, i, start);
    assert before + Stamped(e, []) == before;
    var q := Moments(p, ms, n);
    QuietMoment(q, ms[n], i, e, start);
    PassInTrueTime(q, ms[n], i, e, start);
  }

  /**
   * From the request on: an accepted `defer_exec` at `now` is called back, with its own callback and argument,
   * in the first pass at or after `now + delay` and in none before, unless someone extends or cancels it.
   */
  lemma {:induction false} DeferredCallsBack(p: Progress, q: Request, ms: seq<Moment>, n: nat, i: nat)
    requires Inv(p.s) && q.Defer? && DeferExec(p.s, q.now, q.delay, q.callback, q.arg).1 != 0
    requires i < |p.s.table| && p.s.table[i].token == 0 && Apply(p.s, q).table[i].token != 0
    requires var p', start := p.(s := Apply(p.s, q)), q.now + q.delay;
             && n < |ms| && FairUpTo(p', ms, n + 1, i, start) && NotYet(p', ms, n, i, start)
             && Quiet(Moments(p', ms, n), ms[n], i) && ms[n].PassAt? && start <= ms[n].time
    ensures var p', token := p.(s := Apply(p.s, q)), DeferExec(p.s, q.now, q.delay, q.callback, q.arg).1;
            && CallsOf(Moments(p', ms, n).calls, i) == CallsOf(p.calls, i)
            && CallsOf(Moments(p', ms, n + 1).calls, i) ==
               CallsOf(p.calls, i) + [Executor(token, (q.now + q.delay) % WRAP, q.callback, q.arg)]
  {
    var slot := AcceptedFillsOneSlot(p.s, q.now, q.delay, q.callback, q.arg);
    ApplyKeeps(p.s, q);
    FirstCall(p.(s := Apply(p.s, q)), ms, n, i, q.now + q.delay);
  }

  // ---------- After a cancel ----------

  /** No call since the first `n` ones was of this token. */
  ghost predicate NotCalledSince(calls: seq<Call>, n: nat, token: nat) {
    forall j :: n <= j < |calls| ==> calls[j].entry.token != token
  }

  ghost predicate Gone(p: Progress, n: nat, token: nat) {
    !Live(p.s, token) && NotCalledSince(p.calls, n, token)
  }

  lemma {:induction false} ApplyLeavesGone(s: State, q: Request, token: nat)
    requires token != 0 && !Live(s, token) && !q.Defer?
    ensures !Live(Apply(s, q), token)
  {
    var s' := Apply(s, q);
    forall i | 0 <= i < |s'.table| ensures s'.table[i].token != token {
      assert s.table[i].token != token;
    }
  }

  lemma {:induction false} ApplyAllLeavesGone(s: State, qs: seq<Request>, token: nat)
    requires token != 0 && !Live(s, token) && forall q :: q in qs ==> !q.Defer?
    ensures !Live(ApplyAll(s, qs), token)
    decreases |qs|
  {
    if qs != [] {
      ApplyLeavesGone(s, qs[0], token);
      ApplyAllLeavesGone(Apply(s, qs[0]), qs[1..], token);
    }
  }

  lemma {:induction false} FinishLeavesGone(s: State, i: nat, owner: nat, delay: nat, token: nat)
    requires i < |s.table| && token != 0 && !Live(s, token)
    ensures !Live(Finish(s, i, owner, delay), token)
  {
    var s' := Finish(s, i, owner, delay);
    forall j | 0 <= j < |s'.table| ensures s'.table[j].token != token {
      assert s.table[j].token != token;
    }
  }

  lemma {:induction false} RunSlotLeavesGone(p: Progress, now: nat, act: Behaviour, i: nat, n: nat, token: nat)
    requires i < |p.s.table| && token != 0 && Gone(p, n, token) && NeverDefers(act)
    ensures Gone(RunSlot(p, now, act, i), n, token)
  {
    var e := p.s.table[i];
    if Due(e, now) {
      var r := act(e, p.calls);
      ApplyAllLeavesGone(p.s, r.requests, token);
      FinishLeavesGone(ApplyAll(p.s, r.requests), i, e.token, r.delay, token);
      assert e.token != token;
    }
  }

  lemma {:induction false} PassLeavesGone(p: Progress, now: nat, act: Behaviour, m: nat, n: nat, token: nat)
    requires m <= |p.s.table| && token != 0 && Gone(p, n, token) && NeverDefers(act)
    ensures Gone(RunSlots(p, now, act, m), n, token)
  {
    if m > 0 {
      PassLeavesGone(p, now, act, m - 1, n, token);
      RunSlotLeavesGone(RunSlots(p, now, act, m - 1), now, act, m - 1, n, token);
    }
  }

  ghost predicate AsksForNothingNew(m: Moment) {
    match m case PassAt(_, act) => NeverDefers(act) case AskedAt(r) => !r.Defer?
  }

  /** A cancelled entry is gone, and never called, until a new request may be given its token again. */
  lemma {:induction false} CancelledIsNeverCalled(p: Progress, token: nat, ms: seq<Moment>, n: nat)
    requires Inv(p.s) && token != 0 && n <= |ms| && forall j :: 0 <= j < n ==> AsksForNothingNew(ms[j])
    ensures var p' := p.(s := CancelExec(p.s, token).0); Gone(Moments(p', ms, n), |p.calls|, token)
  {
    var p' := p.(s := CancelExec(p.s, token).0);
    if n == 0 {
      CancelEndsOne(p.s, token);
    } else {
      CancelledIsNeverCalled(p, token, ms, n - 1);
      var q := Moments(p', ms, n - 1);
      assert AsksForNothingNew(ms[n - 1]);
      match ms[n - 1]
      case PassAt(time, act) => PassLeavesGone(q, time % WRAP, act, |q.s.table|, |p.calls|, token);
      case AskedAt(r) => ApplyLeavesGone(q.s, r, token);
    }
  }
}
