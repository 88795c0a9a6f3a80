/**
 * Tap counts, transition by transition: what the log says of a key, which counts its waiting releases carry,
 * and how every transition of the tap-hold machine keeps the two together.
 */
module TappingCounts {
  import opened Events
  import opened Tapping
  import opened TappingInvariant
  import opened TappingOrder

  // ---------- What the log says of a key ----------

  /** Up, down since a press with this tap count, or down with a made-up release since that press. */
  datatype Status = Up | Down(count: nat) | Cut(count: nat)

  ghost function After(h: Status, x: Entry, k: Key): Status {
    if x.rec.event.key != k then h
    else if x.synthetic then (if h.Up? then Up else Cut(h.count))
    else if x.rec.event.pressed then Down(x.rec.tap.count)
    else Up
  }

  ghost function StatusOf(log: Log, k: Key): Status {
    if log == [] then Up else After(StatusOf(log[..|log| - 1], k), log[|log| - 1], k)
  }

  /** A real release takes over the count of its press, or 0 after a made-up release of a count above one. */
  ghost predicate Matches(h: Status, x: Entry, k: Key) {
    x.rec.event.key == k && !x.synthetic && !x.rec.event.pressed ==>
      match h
      case Up => false
      case Down(c) => x.rec.tap.count == c
      case Cut(c) => c > 1 && x.rec.tap.count == 0
  }

  ghost predicate Paired(log: Log, k: Key) {
    log == [] || (Paired(log[..|log| - 1], k) && Matches(StatusOf(log[..|log| - 1], k), log[|log| - 1], k))
  }

  lemma {:induction false} StatusOne(log: Log, x: Entry, k: Key)
    ensures StatusOf(log + [x], k) == After(StatusOf(log, k), x, k)
    ensures Paired(log + [x], k) <==> Paired(log, k) && Matches(StatusOf(log, k), x, k)
  {
    assert (log + [x])[..|log|] == log;
  }

  // ---------- The counts of waiting releases ----------

  predicate Mine(r: Record, k: Key) { !IsTick(r.event) && r.event.key == k }

  /** No waiting event of the key carries a count. */
  ghost predicate Unmarked(q: seq<Record>, k: Key) {
    q == [] || ((Mine(q[0], k) ==> q[0].tap.count == 0) && Unmarked(q[1..], k))
  }

  /** The first waiting event of the key is a release with count 1, and no other carries a count. */
  ghost predicate Marked(q: seq<Record>, k: Key) {
    q != [] && if Mine(q[0], k) then !q[0].event.pressed && q[0].tap.count == 1 && Unmarked(q[1..], k)
               else Marked(q[1..], k)
  }

  ghost predicate Marks(q: seq<Record>, k: Key, owed: bool) {
    if owed then Marked(q, k) else Unmarked(q, k)
  }

  ghost predicate NoneMine(q: seq<Record>, k: Key) {
    forall i :: 0 <= i < |q| ==> !Mine(q[i], k)
  }

  lemma {:induction false} MarksBehind(q: seq<Record>, r: Record, k: Key, owed: bool)
    requires Marks(q, k, owed) && (Mine(r, k) ==> r.tap.count == 0)
    ensures Marks(q + [r], k, owed)
  {
    if q == [] {
      assert Unmarked([r], k);
    } else {
      assert (q + [r])[1..] == q[1..] + [r];
      MarksBehind(q[1..], r, k, owed && !Mine(q[0], k));
    }
  }

  lemma {:induction false} NoneMarks(q: seq<Record>, k: Key)
    requires NoneMine(q, k)
    ensures Unmarked(q, k) && !Marked(q, k)
  {
    if q != [] { NoneMarks(q[1..], k); }
  }

  lemma {:induction false} MarksSkip(q: seq<Record>, r: Record, k: Key, owed: bool)
    requires NoneMine(q, k)
    ensures Marks(q + [r], k, owed) <==> Marks([r], k, owed)
  {
    if q == [] {
      assert q + [r] == [r];
    } else {
      assert (q + [r])[1..] == q[1..] + [r];
      MarksSkip(q[1..], r, k, owed);
    }
  }

  /** The only waiting event of the key may stand anywhere. */
  lemma {:induction false} MarksAlone(q: seq<Record>, r: Record, k: Key, owed: bool)
    requires NoneMine(q, k) && Marks([r] + q, k, owed)
    ensures Marks(q + [r], k, owed)
  {
    assert ([r] + q)[1..] == q && [r][1..] == [];
    NoneMarks(q, k);
    assert Marks([r], k, owed);
    MarksSkip(q, r, k, owed);
  }

  /** A count given to another key's release changes nothing. */
  lemma {:induction false} OtherMarked(q: seq<Record>, i: nat, hit: Record, k: Key, owed: bool)
    requires i < |q| && hit.event == q[i].event && !Mine(q[i], k)
    ensures Marks(q[i := hit], k, owed) <==> Marks(q, k, owed)
  {
    if i == 0 {
      assert q[0 := hit][1..] == q[1..];
    } else {
      assert q[i := hit][1..] == q[1..][i - 1 := hit];
      OtherMarked(q[1..], i - 1, hit, k, owed && !Mine(q[0], k));
    }
  }

  /** A count given to the first waiting release of the key. */
  lemma {:induction false} FirstMarked(q: seq<Record>, i: nat, hit: Record, k: Key)
    requires i < |q| && Mine(q[i], k) && NoneMine(q[..i], k) && Unmarked(q, k)
    requires hit.event == q[i].event && !hit.event.pressed && hit.tap.count == 1
    ensures Marked(q[i := hit], k)
  {
    if i == 0 {
      assert q[0 := hit][1..] == q[1..];
    } else {
      assert q[..i][0] == q[0];
      assert q[..i][1..] == q[1..][..i - 1];
      assert q[i := hit][1..] == q[1..][i - 1 := hit];
      FirstMarked(q[1..], i - 1, hit, k);
    }
  }

  // ---------- What every call keeps ----------

  ghost predicate PendingOn(s: State, k: Key) { IsPending(s) && s.tk.event.key == k }

  ghost predicate TappedOn(s: State, k: Key) {
    !IsTick(s.tk.event) && s.tk.event.pressed && s.tk.tap.count > 0 && s.tk.event.key == k
  }

  /** The first waiting release has to carry the count 1 of a tap that is already logged. */
  ghost predicate Owed(s: State, k: Key) { StatusOf(s.log, k) == Down(1) }

  ghost predicate Core(s: State, k: Key) {
    var h := StatusOf(s.log, k);
    && Paired(s.log, k)
    && (h.Up? <==> |LoggedOf(s.log, k)| % 2 == 0)
    && (PendingOn(s, k) ==> h.Up?)
    && (TappedOn(s, k) ==> h == Down(s.tk.tap.count))
    && (h.Down? && h.count > 1 ==> TappedOn(s, k))
    && (h.Cut? ==> h.count > 1)
  }

  /** The key is down for whatever is dealt with next. */
  ghost predicate DownAhead(s: State, k: Key) { PendingOn(s, k) || !StatusOf(s.log, k).Up? }

  lemma {:induction false} FrontParity(s: State, k: Key)
    requires Core(s, k)
    ensures DownAhead(s, k) <==> |Front(s, k)| % 2 == 1
  {}

  /** The event continues the key's line: a press when the key is up, a release when it is down. */
  ghost predicate Fits(s: State, r: Record, k: Key) {
    Mine(r, k) ==> (r.event.pressed <==> !DownAhead(s, k))
  }

  // ---------- One transition ----------

  /** The line of records, first the one under way, then those that wait. */
  ghost function Queue(o: Outcome, from: nat): seq<Record>
    requires from <= |o.s.buf|
  {
    if o.handled then o.s.buf[from..] else [o.rec] + o.s.buf[from..]
  }

  ghost predicate Good(o: Outcome, from: nat, k: Key)
    requires from <= |o.s.buf|
  {
    Core(o.s, k) && Marks(Queue(o, from), k, Owed(o.s, k))
  }

  /** `r` is first in line, in front of the waiting records from `from` on. */
  ghost predicate Ready(s: State, r: Record, from: nat, k: Key) {
    && Valid(s) && Acceptable(r) && from <= |s.buf|
    && Core(s, k) && Fits(s, r, k) && Marks([r] + s.buf[from..], k, Owed(s, k))
  }

  lemma {:induction false} QueueHead(r: Record, q: seq<Record>, k: Key, owed: bool)
    requires Marks([r] + q, k, owed)
    ensures Mine(r, k) ==> Unmarked(q, k) && r.tap.count == (if owed then 1 else 0)
    ensures !Mine(r, k) ==> Marks(q, k, owed)
    ensures owed && Mine(r, k) ==> !r.event.pressed
  {
    assert ([r] + q)[1..] == q;
  }

  lemma {:induction false} LogOther(s: State, x: Entry, k: Key)
    requires x.rec.event.key != k
    ensures StatusOf(s.log + [x], k) == StatusOf(s.log, k) && LoggedOf(s.log + [x], k) == LoggedOf(s.log, k)
    ensures Paired(s.log + [x], k) <==> Paired(s.log, k)
  {
    StatusOne(s.log, x, k);
    LogOne(s.log, x, k);
  }

  lemma {:induction false} LogOwn(s: State, r: Record, k: Key)
    requires r.event.key == k
    ensures var log := s.log + [Entry(r, false)];
            && StatusOf(log, k) == (if r.event.pressed then Down(r.tap.count) else Up)
            && |LoggedOf(log, k)| == |LoggedOf(s.log, k)| + 1
            && (Paired(log, k) <==> Paired(s.log, k) && Matches(StatusOf(s.log, k), Entry(r, false), k))
  {
    StatusOne(s.log, Entry(r, false), k);
    LogOne(s.log, Entry(r, false), k);
  }

  /** Logging a record that is not the tapping key's own. */
  lemma {:induction false} PassGood(s: State, r: Record, from: nat, k: Key, tk: Record)
    requires Ready(s, r, from, k) && !IsTick(r.event)
    requires Mine(r, k) && !r.event.pressed ==> !PendingOn(s, k) && !TappedOn(s, k)
    requires tk.event == s.tk.event && tk.tap.count == s.tk.tap.count
    ensures Good(Outcome(Emit(s.(tk := tk), r), r, true), from, k)
  {
    QueueHead(r, s.buf[from..], k, Owed(s, k));
    if r.event.key == k { PassCore(s, r, k, tk); } else { LogOther(s, Entry(r, false), k); }
  }

  lemma {:induction false} PassCore(s: State, r: Record, k: Key, tk: Record)
    requires Core(s, k) && Mine(r, k) && (r.event.pressed <==> !DownAhead(s, k))
    requires r.tap.count == (if Owed(s, k) then 1 else 0)
    requires !r.event.pressed ==> !PendingOn(s, k) && !TappedOn(s, k)
    requires tk.event == s.tk.event && tk.tap.count == s.tk.tap.count
    ensures var s' := Emit(s.(tk := tk), r); Core(s', k) && !Owed(s', k)
  {
    LogOwn(s, r, k);
  }

  /** Settling the press under decision as held. */
  lemma {:induction false} HoldCore(s: State, k: Key, tk: Record)
    requires Core(s, k) && IsPending(s) && tk.event == s.tk.event && tk.tap.count == 0
    ensures var s' := Emit(s, tk).(tk := RESET); Core(s', k) && (Owed(s', k) <==> Owed(s, k))
  {
    if tk.event.key == k { LogOwn(s, tk, k); } else { LogOther(s, Entry(tk, false), k); }
  }

  lemma {:induction false} HoldGood(s: State, r: Record, from: nat, k: Key, tk: Record)
    requires Ready(s, r, from, k) && IsPending(s) && tk.event == s.tk.event && tk.tap.count == 0
    ensures Good(Outcome(Emit(s, tk).(tk := RESET), r, false), from, k)
  {
    HoldCore(s, k, tk);
  }

  /** Settling it as a tap, by its own release. */
  lemma {:induction false} FirstTapGood(s: State, r: Record, from: nat, k: Key)
    requires Ready(s, r, from, k) && IsPending(s) && r.event.key == s.tk.event.key && !IsTick(r.event)
    requires !r.event.pressed
    ensures var tk := s.tk.(tap := s.tk.tap.(count := 1));
            Good(Outcome(Emit(s.(tk := tk), tk), r.(tap := tk.tap), false), from, k)
  {
    var tk := s.tk.(tap := s.tk.tap.(count := 1));
    var r' := r.(tap := tk.tap);
    QueueHead(r, s.buf[from..], k, Owed(s, k));
    assert ([r'] + s.buf[from..])[1..] == s.buf[from..];
    if tk.event.key == k { LogOwn(s, tk, k); } else { LogOther(s, Entry(tk, false), k); }
  }

  /** The tapping key's own release, settled as a tap before. */
  lemma {:induction false} OwnReleaseGood(s: State, r: Record, from: nat, k: Key, tk: Record)
    requires Ready(s, r, from, k) && TappedOn(s, r.event.key) && !IsTick(r.event) && !r.event.pressed
    requires tk == RESET || tk == r.(tap := s.tk.tap)
    ensures var r' := r.(tap := s.tk.tap); Good(Outcome(Emit(s, r').(tk := tk), r', true), from, k)
  {
    var r' := r.(tap := s.tk.tap);
    QueueHead(r, s.buf[from..], k, Owed(s, k));
    if r'.event.key == k { LogOwn(s, r', k); } else { LogOther(s, Entry(r', false), k); }
  }

  /** A quick second tap is logged with the next count. */
  lemma {:induction false} QuickTapGood(s: State, r: Record, from: nat, k: Key, r': Record)
    requires Ready(s, r, from, k) && !IsTick(r.event) && r.event.pressed && !s.tk.event.pressed
    requires r'.event == r.event && r'.tap.count > 1
    ensures Good(Outcome(Emit(s, r').(tk := r'), r', true), from, k)
  {
    QueueHead(r, s.buf[from..], k, Owed(s, k));
    if r'.event.key == k { LogOwn(s, r', k); } else { LogOther(s, Entry(r', false), k); }
  }

  /** A press that is taken as the new tapping key. */
  lemma {:induction false} NewKeyGood(s: State, r: Record, from: nat, k: Key)
    requires Ready(s, r, from, k) && !IsTick(r.event) && r.event.pressed && !IsPending(s)
    requires TappedOn(s, k) ==> s.tk.tap.count <= 1
    ensures Good(Outcome(s.(tk := r), r, true), from, k)
  {
    QueueHead(r, s.buf[from..], k, Owed(s, k));
  }

  lemma {:induction false} UnregisterReady(s: State, r: Record, from: nat, k: Key, time: u16)
    requires Ready(s, r, from, k) && s.tk.event.pressed && s.tk.tap.count > 0 && !IsTick(s.tk.event)
    requires r.event.pressed && !IsTick(r.event)
    ensures var s' := Unregister(s, time);
            && Valid(s') && s'.(log := s.log) == s
            && StatusOf(s'.log, k) == (if TappedOn(s, k) && s.tk.tap.count > 1 then Cut(s.tk.tap.count)
                                       else StatusOf(s.log, k))
            && Paired(s'.log, k) && LoggedOf(s'.log, k) == LoggedOf(s.log, k)
  {
    UnregisterKeeps(s, time, r.event);
    if s.tk.tap.count > 1 {
      var x := Entry(SyntheticRelease(s.tk, time), true);
      StatusOne(s.log, x, k);
      LogOne(s.log, x, k);
    }
  }

  // ---------- Starting a tap ----------

  /** The waiting releases of the key are found in the order they wait. */
  ghost predicate Ascend(p: Event, x: Event, y: Event) {
    Elapsed(x.time, p.time) <= Elapsed(y.time, p.time)
  }

  ghost predicate TimelyAfter(p: Event, es: seq<Event>) {
    forall i, j :: 0 <= i < j < |es| && es[i].key == p.key && es[j].key == p.key ==> Ascend(p, es[i], es[j])
  }

  /** The first waiting event of the key, if there is one, is a release. */
  ghost predicate ReleaseNext(q: seq<Record>, k: Key) {
    forall i :: 0 <= i < |q| && Mine(q[i], k) && NoneMine(q[..i], k) ==> !q[i].event.pressed
  }

  lemma {:induction false} FirstOf(q: seq<Record>, k: Key, i: nat) returns (j: nat)
    requires i < |q| && Mine(q[i], k)
    ensures j <= i && Mine(q[j], k) && NoneMine(q[..j], k)
  {
    j := 0;
    while !Mine(q[j], k)
      invariant j <= i && NoneMine(q[..j], k)
      decreases i - j
    {
      j := j + 1;
    }
  }

  /** With a later release of the key the first one is inside the term as well. */
  lemma {:induction false} FirstInTerm(env: Env, s: State, q: seq<Record>, j: nat, i: nat)
    requires j <= i < |q| && Mine(q[j], s.tk.event.key) && NoneMine(q[..j], s.tk.event.key)
    requires ReleaseNext(q, s.tk.event.key) && TimelyAfter(s.tk.event, EventsOf(q)) && ReleasesTappingKey(env, s, q[i])
    ensures ReleasesTappingKey(env, s, q[j])
  {
    if j < i { assert Ascend(s.tk.event, EventsOf(q)[j], EventsOf(q)[i]); }
  }

  /** The release that ends the tap is the first waiting event of its key. */
  lemma {:induction false} HitIsFirst(env: Env, s: State, from: nat)
    requires !IsTick(s.tk.event) && from <= |s.buf| && NoneReleased(s.buf[..from])
    requires ReleaseNext(s.buf[from..], s.tk.event.key) && TimelyAfter(s.tk.event, EventsOf(s.buf[from..]))
    requires FindRelease(env, s, 0) < |s.buf|
    ensures var i := FindRelease(env, s, 0);
            from <= i && Mine(s.buf[from..][i - from], s.tk.event.key)
            && NoneMine(s.buf[from..][..i - from], s.tk.event.key)
  {
    var i, k, q := FindRelease(env, s, 0), s.tk.event.key, s.buf[from..];
    PressedAhead(s, from, i);
    assert q[i - from] == s.buf[i];
    var j := FirstOf(q, k, i - from);
    FirstInTerm(env, s, q, j, i - from);
    assert q[j] == s.buf[from + j];
  }

  ghost predicate NoneReleased(q: seq<Record>) {
    forall i :: 0 <= i < |q| ==> q[i].event.pressed
  }

  lemma {:induction false} ScanGood(env: Env, s: State, r: Record, from: nat, k: Key)
    requires !IsTick(r.event) && r.event.pressed && r.tap == NO_TAP && s.tk == r && from <= |s.buf|
    requires Core(s, k) && Marks(s.buf[from..], k, Owed(s, k)) && NoneReleased(s.buf[..from])
    requires r.event.key == k ==> ReleaseNext(s.buf[from..], k) && TimelyAfter(r.event, EventsOf(s.buf[from..]))
    ensures Good(Outcome(ScanTap(env, s), r, true), from, k)
  {
    var i := FindRelease(env, s, 0);
    if i < |s.buf| {
      if r.event.key == k {
        HitIsFirst(env, s, from);
        HitGood(s, r, from, i);
      } else {
        PressedAhead(s, from, i);
        OtherHitGood(s, r, from, i, k);
      }
    }
  }

  lemma {:induction false} PressedAhead(s: State, from: nat, i: nat)
    requires from <= |s.buf| && NoneReleased(s.buf[..from])
    ensures i < from ==> s.buf[i].event.pressed
  {
    if i < from { assert s.buf[..from][i] == s.buf[i]; }
  }

  ghost function HitAt(s: State, i: nat): State
    requires i < |s.buf|
  {
    var tk := s.tk.(tap := s.tk.tap.(count := 1));
    Emit(s.(tk := tk, buf := s.buf[i := s.buf[i].(tap := s.buf[i].tap.(count := 1))]), tk)
  }

  lemma {:induction false} HitGood(s: State, r: Record, from: nat, i: nat)
    requires s.tk == r && from <= i < |s.buf| && IsPending(s)
    requires var k := r.event.key;
             && Core(s, k) && Marks(s.buf[from..], k, Owed(s, k)) && !s.buf[i].event.pressed
             && Mine(s.buf[from..][i - from], k) && NoneMine(s.buf[from..][..i - from], k)
    ensures Good(Outcome(HitAt(s, i), r, true), from, r.event.key)
  {
    var hit := s.buf[i].(tap := s.buf[i].tap.(count := 1));
    LogOwn(s, r.(tap := r.tap.(count := 1)), r.event.key);
    FirstMarked(s.buf[from..], i - from, hit, r.event.key);
    assert s.buf[i := hit][from..] == s.buf[from..][i - from := hit];
  }

  lemma {:induction false} OtherHitGood(s: State, r: Record, from: nat, i: nat, k: Key)
    requires s.tk == r && from <= i < |s.buf| && r.event.key != k
    requires Core(s, k) && Marks(s.buf[from..], k, Owed(s, k)) && s.buf[i].event.key == r.event.key
    ensures Good(Outcome(HitAt(s, i), r, true), from, k)
  {
    var hit := s.buf[i].(tap := s.buf[i].tap.(count := 1));
    LogOther(s, Entry(r.(tap := r.tap.(count := 1)), false), k);
    assert s.buf[i := hit][from..] == s.buf[from..][i - from := hit];
    OtherMarked(s.buf[from..], i - from, hit, k, Owed(s, k));
  }

  /** What a press needs of the queue behind it. */
  ghost predicate Clear(s: State, r: Record, from: nat, k: Key) {
    && from <= |s.buf| && (r.event.pressed ==> NoneReleased(s.buf[..from]))
    && (Mine(r, k) && r.event.pressed ==>
          ReleaseNext(s.buf[from..], k) && TimelyAfter(r.event, EventsOf(s.buf[from..])))
  }

  lemma {:induction false} StartGood(env: Env, s: State, r: Record, from: nat, k: Key)
    requires Ready(s, r, from, k) && Clear(s, r, from, k) && !IsTick(r.event) && r.event.pressed && !IsPending(s)
    requires TappedOn(s, k) ==> s.tk.tap.count <= 1
    ensures Good(Outcome(StartTap(env, s, r), r, true), from, k)
  {
    NewKeyGood(s, r, from, k);
    ScanGood(env, s.(tk := r), r, from, k);
  }

  /** Another tap key goes down during a tap; a tap of count above one gets a made-up release first. */
  lemma {:induction false} InterruptGood(env: Env, s: State, r: Record, from: nat, k: Key)
    requires Ready(s, r, from, k) && Clear(s, r, from, k) && !IsTick(r.event) && r.event.pressed
    requires s.tk.event.pressed && s.tk.tap.count > 0 && !IsTick(s.tk.event)
    ensures Good(Outcome(StartTap(env, Unregister(s, r.event.time), r), r, true), from, k)
  {
    var s' := Unregister(s, r.event.time);
    UnregisterReady(s, r, from, k, r.event.time);
    QueueHead(r, s.buf[from..], k, Owed(s, k));
    ScanGood(env, s'.(tk := r), r, from, k);
  }

  // ---------- Every transition ----------

  lemma {:induction false} TappedGood(env: Env, s: State, r: Record, within: bool, from: nat, k: Key)
    requires Ready(s, r, from, k) && Clear(s, r, from, k)
    requires s.tk.event.pressed && s.tk.tap.count > 0 && !IsTick(s.tk.event)
    ensures Good(Tapped(env, s, r, within), from, k)
  {
    if IsTick(r.event) {
      QueueHead(r, s.buf[from..], k, Owed(s, k));
    } else if r.event.key == s.tk.event.key && !r.event.pressed {
      OwnReleaseGood(s, r, from, k, if within then r.(tap := s.tk.tap) else RESET);
    } else if env.isTap(s.log, r.event.key) && r.event.pressed {
      InterruptGood(env, s, r, from, k);
    } else {
      PassGood(s, r, from, k, s.tk);
    }
  }

  lemma {:induction false} UnsettledGood(env: Env, s: State, r: Record, from: nat, k: Key)
    requires Ready(s, r, from, k) && IsPending(s) && !IsTick(r.event)
    ensures Good(Unsettled(env, s, r), from, k)
  {
    if !r.event.pressed {
      if r.event.key == s.tk.event.key {
        FirstTapGood(s, r, from, k);
      } else {
        HoldGood(s, r, from, k, s.tk);
        PassGood(s, r, from, k, s.tk);
      }
    } else {
      HoldGood(s, r, from, k, s.tk.(tap := s.tk.tap.(interrupted := true)));
    }
  }

  lemma {:induction false} ReleasedGood(env: Env, s: State, r: Record, from: nat, k: Key)
    requires Ready(s, r, from, k) && Clear(s, r, from, k) && !IsTick(s.tk.event) && !s.tk.event.pressed
    ensures Good(Released(env, s, r), from, k)
  {
    if !WithinTerm(env, s, r.event.time) {
    } else if IsTick(r.event) {
      QueueHead(r, s.buf[from..], k, Owed(s, k));
    } else if !r.event.pressed {
      PassGood(s, r, from, k, s.tk);
    } else if r.event.key == s.tk.event.key {
      NewKeyGood(s, r, from, k);
      QuickTapGood(s, r, from, k, r.(tap := s.tk.tap.(count := NextCount(s.tk.tap.count))));
    } else if env.isTap(s.log, r.event.key) {
      StartGood(env, s, r, from, k);
    } else {
      PassGood(s, r, from, k, s.tk.(tap := s.tk.tap.(interrupted := true)));
    }
  }

  lemma {:induction false} ProcessGood(env: Env, s: State, r: Record, from: nat, k: Key)
    requires Ready(s, r, from, k) && Clear(s, r, from, k)
    ensures Good(ProcessTapping(env, s, r), from, k)
  {
    if IsTick(s.tk.event) {
      if IsTick(r.event) {
        QueueHead(r, s.buf[from..], k, Owed(s, k));
      } else if r.event.pressed && env.isTap(s.log, r.event.key) {
        StartGood(env, s, r, from, k);
      } else {
        PassGood(s, r, from, k, s.tk);
      }
    } else if !s.tk.event.pressed {
      ReleasedGood(env, s, r, from, k);
    } else if s.tk.tap.count > 0 {
      TappedGood(env, s, r, WithinTerm(env, s, r.event.time), from, k);
    } else if !WithinTerm(env, s, r.event.time) {
      HoldGood(s, r, from, k, s.tk);
    } else if IsTick(r.event) {
      QueueHead(r, s.buf[from..], k, Owed(s, k));
    } else {
      UnsettledGood(env, s, r, from, k);
    }
  }
}
