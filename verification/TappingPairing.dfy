/**
 * Which tap count a release carries when it leaves the tap-hold machine: the count of its key's latest press,
 * unless the machine made up a release in between. Only then does `process_action` undo what the press did.
 */
module TappingPairing {
  import opened Events
  import opened Tapping
  import opened TappingInvariant
  import opened TappingOrder
  import opened TappingCounts

  // ---------- One call ----------

  /** The key's events are presses and releases in turn. */
  ghost predicate Alternates(es: seq<Event>) {
    forall i :: 0 <= i < |es| ==> (es[i].pressed <==> i % 2 == 0)
  }

  /** Seen from any of the key's waiting events, later ones of the key are not earlier on the wrapping clock. */
  ghost predicate Timely(es: seq<Event>, k: Key) {
    es == [] || ((es[0].key == k ==> TimelyAfter(es[0], es[1..])) && Timely(es[1..], k))
  }

  ghost predicate Sound(s: State, k: Key) {
    Valid(s) && Core(s, k) && Marks(s.buf, k, Owed(s, k))
  }

  lemma {:induction false} NextInLine(front: seq<Event>, e: Event, rest: seq<Event>)
    requires Alternates(front + ([e] + rest))
    ensures e.pressed <==> |front| % 2 == 0
    ensures rest != [] ==> (rest[0].pressed <==> !e.pressed)
  {
    var es := front + ([e] + rest);
    assert es[|front|] == e;
    if rest != [] { assert es[|front| + 1] == rest[0]; }
  }

  /** The first waiting event of the key is the first one of its line. */
  lemma {:induction false} FirstInLine(q: seq<Record>, k: Key, i: nat)
    requires i < |q| && Mine(q[i], k) && NoneMine(q[..i], k) && forall r :: r in q ==> BufferedOk(r)
    ensures Of(EventsOf(q), k) != [] && Of(EventsOf(q), k)[0] == q[i].event
  {
    OfHead(EventsOf(q), k);
    TailEvents(q);
    if i > 0 {
      assert q[..i][0] == q[0] && BufferedOk(q[0]);
      assert q[..i][1..] == q[1..][..i - 1];
      FirstInLine(q[1..], k, i - 1);
    }
  }

  /** An event of the key at the head of the queue is next in its line, and a release follows a press. */
  lemma {:induction false} HeadInLine(s: State, k: Key)
    requires Sound(s, k) && s.buf != [] && Mine(s.buf[0], k) && Alternates(Line(s, k))
    ensures Fits(s, s.buf[0], k) && (s.buf[0].event.pressed ==> ReleaseNext(s.buf[1..], k))
  {
    var r, q := s.buf[0], s.buf[1..];
    OfHead(EventsOf(s.buf), k);
    TailEvents(s.buf);
    NextInLine(Front(s, k), r.event, Of(EventsOf(q), k));
    FrontParity(s, k);
    forall i | 0 <= i < |q| && Mine(q[i], k) && NoneMine(q[..i], k) ensures q[i].event.pressed <==> !r.event.pressed {
      FirstInLine(q, k, i);
    }
  }

  lemma {:induction false} HeadReady(s: State, k: Key)
    requires Sound(s, k) && s.buf != [] && Alternates(Line(s, k)) && Timely(EventsOf(s.buf), k)
    ensures Ready(s, s.buf[0], 1, k) && Clear(s, s.buf[0], 1, k)
  {
    assert s.buf == [s.buf[0]] + s.buf[1..];
    assert BufferedOk(s.buf[0]);
    TailEvents(s.buf);
    if Mine(s.buf[0], k) { HeadInLine(s, k); }
  }

  /** The state after one turn of the drain loop. */
  ghost function Turned(o: Outcome): State
    requires o.s.buf != []
  {
    if o.handled then o.s.(buf := o.s.buf[1..]) else o.s.(buf := o.s.buf[0 := o.rec])
  }

  lemma {:induction false} TurnSound(env: Env, s: State, k: Key)
    requires Sound(s, k) && s.buf != [] && Alternates(Line(s, k)) && Timely(EventsOf(s.buf), k)
    ensures Sound(Turned(ProcessTapping(env, s, s.buf[0])), k)
  {
    HeadReady(s, k);
    ProcessGood(env, s, s.buf[0], 1, k);
    TurnValid(env, s);
    GoodTurned(ProcessTapping(env, s, s.buf[0]), k);
  }

  lemma {:induction false} TurnValid(env: Env, s: State)
    requires Valid(s) && s.buf != []
    ensures Valid(Turned(ProcessTapping(env, s, s.buf[0])))
  {
    var r := s.buf[0];
    var o := ProcessTapping(env, s, r);
    assert BufferedOk(r);
    ProcessTappingKeeps(env, s, r, r.event);
    if o.handled { PopKeeps(s, o, r.event); } else { WriteBackKeeps(s, o, r.event); }
  }

  lemma {:induction false} GoodTurned(o: Outcome, k: Key)
    requires o.s.buf != [] && Good(o, 1, k) && Valid(Turned(o))
    ensures Sound(Turned(o), k)
  {
    assert o.s.buf[0 := o.rec] == [o.rec] + o.s.buf[1..];
  }

  lemma {:induction false} TurnInLine(env: Env, s: State, k: Key)
    requires Valid(s) && s.buf != [] && Timely(EventsOf(s.buf), k)
    ensures var o := ProcessTapping(env, s, s.buf[0]);
            o.handled ==> Line(Turned(o), k) == Line(s, k) && Timely(EventsOf(Turned(o).buf), k)
  {
    var r := s.buf[0];
    var o := ProcessTapping(env, s, r);
    assert BufferedOk(r);
    ProcessTappingKeeps(env, s, r, r.event);
    ProcessTappingInLine(env, s, r, k);
    if o.handled {
      PopInLine(s, o, k);
      TailEvents(o.s.buf);
    }
  }

  lemma {:induction false} DrainSound(env: Env, s: State, k: Key)
    requires Sound(s, k) && Alternates(Line(s, k)) && Timely(EventsOf(s.buf), k)
    ensures Sound(Drain(env, s), k)
    decreases |s.buf|
  {
    if s.buf != [] {
      TurnSound(env, s, k);
      TurnInLine(env, s, k);
      var o := ProcessTapping(env, s, s.buf[0]);
      if o.handled { DrainSound(env, Turned(o), k); }
    }
  }

  /** A release settles its key as a tap although an older event of the key still waits. */
  ghost predicate Crosses(env: Env, s: State, e: Event) {
    && !IsTick(e) && !e.pressed && PendingOn(s, e.key) && WithinTerm(env, s, e.time)
    && Of(EventsOf(s.buf), e.key) != []
  }

  lemma {:induction false} NoneInLine(q: seq<Record>, k: Key)
    requires forall r :: r in q ==> BufferedOk(r)
    ensures NoneMine(q, k) <==> Of(EventsOf(q), k) == []
  {
    if q != [] {
      OfHead(EventsOf(q), k);
      TailEvents(q);
      NoneInLine(q[1..], k);
      assert BufferedOk(q[0]);
      if NoneMine(q[1..], k) && !Mine(q[0], k) {
        forall i | 0 <= i < |q| ensures !Mine(q[i], k) { assert i > 0 ==> q[1..][i - 1] == q[i]; }
      }
      if NoneMine(q, k) {
        forall i | 0 <= i < |q[1..]| ensures !Mine(q[1..][i], k) { assert q[1..][i] == q[i + 1]; }
      }
    }
  }

  /** An event that is first in its key's line when it arrives. */
  lemma {:induction false} FreshReady(s: State, e: Event, k: Key)
    requires Sound(s, k) && (IsTick(e) || e.key != k || NoneMine(s.buf, k))
    requires !IsTick(e) && e.key == k ==> (e.pressed <==> |Front(s, k)| % 2 == 0)
    ensures Ready(s, Record(e, NO_TAP), 0, k) && Clear(s, Record(e, NO_TAP), 0, k)
  {
    var r := Record(e, NO_TAP);
    assert s.buf[0..] == s.buf && ([r] + s.buf)[1..] == s.buf;
    if Mine(r, k) {
      NoneMarks(s.buf, k);
      FrontParity(s, k);
      forall i | 0 <= i < |s.buf| ensures EventsOf(s.buf)[i].key != k {
        assert s.buf[i] in s.buf && BufferedOk(s.buf[i]) && !Mine(s.buf[i], k);
      }
    }
  }

  lemma {:induction false} EnqueueSound(o: Outcome, k: Key)
    requires Valid(o.s) && !o.handled && Good(o, 0, k) && Enqueue(o.s, o.rec).lost == o.s.lost
    requires !IsTick(o.rec.event) ==> BufferedOk(o.rec)
    requires Mine(o.rec, k) ==> NoneMine(o.s.buf, k)
    ensures Sound(Enqueue(o.s, o.rec), k)
  {
    var owed := Owed(o.s, k);
    assert o.s.buf[0..] == o.s.buf;
    assert |o.s.lost + Pending(o.s) + EventsOf(o.s.buf) + [o.rec.event]| > |o.s.lost|;
    EnqueueKeeps(o.s, o.rec, o.rec.event);
    if Mine(o.rec, k) {
      MarksAlone(o.s.buf, o.rec, k, owed);
    } else {
      QueueHead(o.rec, o.s.buf, k, owed);
      MarksBehind(o.s.buf, o.rec, k, owed);
    }
  }

  lemma {:induction false} FreshSound(env: Env, s: State, e: Event, k: Key)
    requires Sound(s, k) && Feed(env, s, e).lost == s.lost
    requires Ready(s, Record(e, NO_TAP), 0, k) && Clear(s, Record(e, NO_TAP), 0, k)
    requires IsTick(e) || e.key != k || NoneMine(s.buf, k)
    ensures Sound(Feed(env, s, e), k)
  {
    var r := Record(e, NO_TAP);
    var o := ProcessTapping(env, s, r);
    ProcessGood(env, s, r, 0, k);
    ProcessTappingKeeps(env, s, r, e);
    KeepsLost(env, s, r);
    if o.handled {
      assert o.s.buf[0..] == o.s.buf;
    } else {
      if Mine(r, k) { SameNoneMine(s.buf, o.s.buf, k); }
      EnqueueSound(o, k);
    }
  }

  lemma {:induction false} SameNoneMine(q: seq<Record>, q': seq<Record>, k: Key)
    requires EventsOf(q) == EventsOf(q') && NoneMine(q, k)
    ensures NoneMine(q', k)
  {
    forall i | 0 <= i < |q'| ensures !Mine(q'[i], k) { assert EventsOf(q)[i] == EventsOf(q')[i]; }
  }

  /** An event of the key that has to wait behind another one changes no count. */
  lemma {:induction false} BehindCore(env: Env, s: State, e: Event, k: Key)
    requires Valid(s) && Core(s, k) && !IsTick(e) && e.key == k
    requires !AtOnce(env, s, e) && !(PendingOn(s, k) && !e.pressed && WithinTerm(env, s, e.time))
    ensures var o := ProcessTapping(env, s, Record(e, NO_TAP));
            Core(o.s, k) && (Owed(o.s, k) <==> Owed(s, k)) && o.s.buf == s.buf && o.rec == Record(e, NO_TAP)
  {
    if IsPending(s) {
      if WithinTerm(env, s, e.time) {
        var s1 := s.(tk := s.tk.(tap := s.tk.tap.(interrupted := true)));
        InterruptedCore(s, s1, k);
        HoldCore(s1, k, s1.tk);
      } else {
        HoldCore(s, k, s.tk);
      }
    }
  }

  lemma {:induction false} InterruptedCore(s: State, s': State, k: Key)
    requires Core(s, k) && s' == s.(tk := s.tk.(tap := s.tk.tap.(interrupted := true)))
    ensures Core(s', k)
  {}

  lemma {:induction false} QueueSound(s: State, r: Record, k: Key)
    requires Sound(s, k) && BufferedOk(r) && r.tap.count == 0 && Enqueue(s, r).lost == s.lost
    ensures Sound(Enqueue(s, r), k)
  {
    assert |s.lost + Pending(s) + EventsOf(s.buf) + [r.event]| > |s.lost|;
    EnqueueKeeps(s, r, r.event);
    MarksBehind(s.buf, r, k, Owed(s, k));
  }

  lemma {:induction false} BehindSound(env: Env, s: State, e: Event, k: Key)
    requires Sound(s, k) && !IsTick(e) && e.key == k && Feed(env, s, e).lost == s.lost
    requires !AtOnce(env, s, e) && !(PendingOn(s, k) && !e.pressed && WithinTerm(env, s, e.time))
    ensures Sound(Feed(env, s, e), k)
  {
    var r := Record(e, NO_TAP);
    AtOnceMeansHandled(env, s, e);
    ProcessTappingKeeps(env, s, r, e);
    KeepsLost(env, s, r);
    BehindCore(env, s, e, k);
    QueueSound(ProcessTapping(env, s, r).s, r, k);
  }

  /** The new event of an alternating line, at once after the front or behind all that wait. */
  lemma {:induction false} PlaceInLine(line: seq<Event>, front: seq<Event>, e: Event, q: seq<Event>, now: bool)
    requires Alternates(line) && line == if now then front + [e] + q else front + q + [e]
    ensures now && q != [] ==> (q[0].pressed <==> !e.pressed)
    ensures q == [] ==> (e.pressed <==> |front| % 2 == 0)
  {
    if now || q == [] { assert line[|front|] == e; }
    if now && q != [] { assert line[|front| + 1] == q[0]; }
  }

  lemma {:induction false} OvertakesOpposite(env: Env, s: State, e: Event)
    requires !IsTick(e) && AtOnce(env, s, e)
    requires var q := Of(EventsOf(s.buf), e.key); q != [] && (q[0].pressed <==> !e.pressed)
    ensures Overtakes(env, s, e)
  {
    assert Of(EventsOf(s.buf), e.key)[0] in Of(EventsOf(s.buf), e.key);
  }

  /** Where the event stands in its key's line: dealt with at once, it is the first one or it overtakes. */
  lemma {:induction false} OwnLine(env: Env, s: State, e: Event)
    requires Valid(s) && !IsTick(e)
    requires Feed(env, s, e).lost == s.lost && Alternates(Line(Feed(env, s, e), e.key))
    ensures AtOnce(env, s, e) ==> Of(EventsOf(s.buf), e.key) == [] || Overtakes(env, s, e)
    ensures Of(EventsOf(s.buf), e.key) == [] ==> (e.pressed <==> |Front(s, e.key)| % 2 == 0)
  {
    var q := Of(EventsOf(s.buf), e.key);
    FeedLine(env, s, e, e.key);
    PlaceInLine(Line(Feed(env, s, e), e.key), Front(s, e.key), e, q, AtOnce(env, s, e));
    if AtOnce(env, s, e) && q != [] { OvertakesOpposite(env, s, e); }
  }

  lemma {:induction false} FeedSound(env: Env, s: State, e: Event, k: Key)
    requires Sound(s, k) && Feed(env, s, e).lost == s.lost && Alternates(Line(Feed(env, s, e), k))
    requires e.key == k ==> !Overtakes(env, s, e) && !Crosses(env, s, e)
    ensures Sound(Feed(env, s, e), k)
  {
    if IsTick(e) || e.key != k {
      FreshReady(s, e, k);
      FreshSound(env, s, e, k);
    } else {
      OwnLine(env, s, e);
      NoneInLine(s.buf, k);
      if Of(EventsOf(s.buf), k) == [] {
        FreshReady(s, e, k);
        FreshSound(env, s, e, k);
      } else {
        BehindSound(env, s, e, k);
      }
    }
  }

  // ---------- Every run ----------

  /** The call deals with no event of the key before an older one, and the clock tells the waiting ones apart. */
  ghost predicate Orderly(env: Env, s: State, e: Event, k: Key) {
    && (e.key == k ==> !Overtakes(env, s, e) && !Crosses(env, s, e))
    && Timely(EventsOf(Feed(env, s, e).buf), k)
  }

  ghost predicate AlwaysOrderly(s: State, inputs: seq<Input>, k: Key)
    decreases |inputs|
  {
    inputs == [] ||
    var n := |inputs| - 1;
    AlwaysOrderly(s, inputs[..n], k) && Orderly(inputs[n].env, Run(s, inputs[..n]), inputs[n].event, k)
  }

  lemma {:induction false} StepSound(env: Env, s: State, e: Event, k: Key)
    requires Sound(s, k) && Step(env, s, e).lost == s.lost && Orderly(env, s, e, k)
    requires Alternates(Line(s, k) + Incoming(e, k))
    ensures Sound(Step(env, s, e), k) && Line(Step(env, s, e), k) == Line(s, k) + Incoming(e, k)
  {
    LostBetween(env, s, e);
    StepLine(env, s, e, k);
    FeedLine(env, s, e, k);
    DrainInLine(env, Feed(env, s, e), k);
    FeedSound(env, s, e, k);
    DrainSound(env, Feed(env, s, e), k);
  }

  lemma {:induction false} PrefixAlternates(a: seq<Event>, b: seq<Event>)
    requires Alternates(a + b)
    ensures Alternates(a)
  {
    forall i | 0 <= i < |a| ensures a[i].pressed <==> i % 2 == 0 { assert (a + b)[i] == a[i]; }
  }

  lemma {:induction false} RunSound(inputs: seq<Input>, k: Key)
    requires Run(INIT, inputs).lost == [] && Alternates(Arrived(inputs, k)) && AlwaysOrderly(INIT, inputs, k)
    ensures Sound(Run(INIT, inputs), k) && Line(Run(INIT, inputs), k) == Arrived(inputs, k)
    decreases |inputs|
  {
    if inputs != [] {
      var n := |inputs| - 1;
      var before := LastStep(INIT, inputs, k);
      PrefixAlternates(Arrived(inputs[..n], k), Incoming(inputs[n].event, k));
      RunSound(inputs[..n], k);
      StepSound(inputs[n].env, before, inputs[n].event, k);
    }
  }

  // ---------- What that means entry by entry ----------

  ghost predicate RealOf(x: Entry, k: Key) { !x.synthetic && x.rec.event.key == k }

  /** Entry `j` is the key's latest real entry before `i`, and it is a press. */
  ghost predicate LatestPress(log: Log, k: Key, j: nat, i: nat) {
    && j < i <= |log| && RealOf(log[j], k) && log[j].rec.event.pressed
    && forall m :: j < m < i ==> !RealOf(log[m], k)
  }

  /** A made-up release of the key lies between. */
  ghost predicate MadeUpBetween(log: Log, k: Key, j: nat, i: nat) {
    exists m :: j < m < i <= |log| && log[m].synthetic && log[m].rec.event.key == k
  }

  lemma {:induction false} StatusMeans(log: Log, k: Key, i: nat) returns (j: nat)
    requires i <= |log| && !StatusOf(log[..i], k).Up?
    ensures LatestPress(log, k, j, i) && StatusOf(log[..i], k).count == log[j].rec.tap.count
    ensures StatusOf(log[..i], k).Cut? <==> MadeUpBetween(log, k, j, i)
    decreases i
  {
    assert log[..i][..i - 1] == log[..i - 1];
    var x := log[i - 1];
    if RealOf(x, k) {
      j := i - 1;
    } else {
      j := StatusMeans(log, k, i - 1);
      if MadeUpBetween(log, k, j, i - 1) {
        var m :| j < m < i - 1 && log[m].synthetic && log[m].rec.event.key == k;
        assert j < m < i;
      }
    }
  }

  lemma {:induction false} PairedAt(log: Log, k: Key, i: nat)
    requires Paired(log, k) && i < |log|
    ensures Matches(StatusOf(log[..i], k), log[i], k)
    decreases |log|
  {
    if i < |log| - 1 {
      PairedAt(log[..|log| - 1], k, i);
      assert log[..|log| - 1][..i] == log[..i];
    }
  }

  /**
   * Over every run without overflow in which the key's events come as presses and releases in turn and are
   * always dealt with in order: a logged release has a logged press, and it carries the tap count of that
   * press if and only if the machine made up no release in between; otherwise it carries 0.
   */
  lemma {:induction false} ReleaseCarriesItsCount(inputs: seq<Input>, k: Key, i: nat) returns (j: nat)
    requires Run(INIT, inputs).lost == [] && Alternates(Arrived(inputs, k)) && AlwaysOrderly(INIT, inputs, k)
    requires var log := Run(INIT, inputs).log; i < |log| && RealOf(log[i], k) && !log[i].rec.event.pressed
    ensures var log := Run(INIT, inputs).log;
            && LatestPress(log, k, j, i)
            && (log[i].rec.tap.count == log[j].rec.tap.count <==> !MadeUpBetween(log, k, j, i))
            && (MadeUpBetween(log, k, j, i) ==> log[i].rec.tap.count == 0)
  {
    var log := Run(INIT, inputs).log;
    RunSound(inputs, k);
    PairedAt(log, k, i);
    j := StatusMeans(log, k, i);
  }

  /** The clock tells events apart that wait together for less than 2^16 ms. */
  lemma {:induction false} TimelyInTrueTime(es: seq<Event>, ts: seq<nat>, k: Key)
    requires |ts| == |es| && forall i :: 0 <= i < |es| ==> es[i].time == ts[i] % 0x1_0000
    requires forall i, j :: 0 <= i < j < |ts| ==> ts[i] <= ts[j] < ts[i] + 0x1_0000
    ensures Timely(es, k)
  {
    if es != [] {
      TimelyInTrueTime(es[1..], ts[1..], k);
      forall i, j | 0 <= i < j < |es[1..]| ensures Ascend(es[0], es[1..][i], es[1..][j]) {
        ElapsedIsTrueSpan(ts[0], ts[i + 1]);
        ElapsedIsTrueSpan(ts[0], ts[j + 1]);
      }
    }
  }

  // ---------- A made-up release ----------

  ghost function LogUntil(n: nat): Log
    requires n <= 5
  {
    [Entry(Record(At(A, 0, true), Tap(false, 1)), false), Entry(Record(At(A, 10, false), Tap(false, 1)), false),
     Entry(Record(At(A, 20, true), Tap(false, 2)), false), Entry(Record(At(A, 60, false), Tap(false, 2)), true),
     Entry(Untapped(At(A, 70, false)), false)][..n]
  }

  /** A tapped once: logged with count 1, and remembered as released. */
  lemma {:induction false} TappedOnce(s: State)
    requires s == Step(EXAMPLE, Step(EXAMPLE, INIT, At(A, 0, true)), At(A, 10, false))
    ensures s == State(Record(At(A, 10, false), Tap(false, 1)), [], LogUntil(2), [])
  {
    var s1 := State(Untapped(At(A, 0, true)), [], [], []);
    assert Step(EXAMPLE, INIT, At(A, 0, true)) == s1;
    var up := Record(At(A, 10, false), Tap(false, 1));
    var s2 := State(Record(At(A, 0, true), Tap(false, 1)), [up], LogUntil(1), []);
    assert Feed(EXAMPLE, s1, At(A, 10, false)) == s2;
    assert LogUntil(2) == LogUntil(1) + [Entry(up, false)];
    assert Drain(EXAMPLE, s2) == Drain(EXAMPLE, State(up, [], LogUntil(2), []));
  }

  /** Pressed again it is a repeat with count 2. */
  lemma {:induction false} Repeated(s: State)
    requires s == State(Record(At(A, 10, false), Tap(false, 1)), [], LogUntil(2), [])
    ensures Step(EXAMPLE, s, At(A, 20, true)) == State(Record(At(A, 20, true), Tap(false, 2)), [], LogUntil(3), [])
  {
    var s' := State(Record(At(A, 20, true), Tap(false, 2)), [], LogUntil(3), []);
    assert LogUntil(3) == LogUntil(2) + [Entry(s'.tk, false)];
    assert Feed(EXAMPLE, s, At(A, 20, true)) == s';
  }

  /** Another tap-hold key goes down: the machine makes up a release of the first one. */
  lemma {:induction false} CutShort(s: State)
    requires s == State(Record(At(A, 20, true), Tap(false, 2)), [], LogUntil(3), [])
    ensures Step(EXAMPLE, s, At(B, 60, true)) == State(Untapped(At(B, 60, true)), [], LogUntil(4), [])
  {
    var s' := State(Untapped(At(B, 60, true)), [], LogUntil(4), []);
    assert LogUntil(4) == LogUntil(3) + [Entry(SyntheticRelease(s.tk, 60), true)];
    assert Feed(EXAMPLE, s, At(B, 60, true)) == s';
  }

  /** Its real release comes after that. */
  lemma {:induction false} LetGo(s: State)
    requires s == State(Untapped(At(B, 60, true)), [], LogUntil(4), [])
    ensures Step(EXAMPLE, s, At(A, 70, false)) == s.(log := LogUntil(5))
  {
    assert LogUntil(5) == LogUntil(4) + [Entry(Untapped(At(A, 70, false)), false)];
    assert Feed(EXAMPLE, s, At(A, 70, false)) == s.(log := LogUntil(5));
  }

  /** The count can be lost: the second press has count 2, its real release has count 0. */
  lemma {:induction false} MadeUpRelease(s: State)
    requires s == Step(EXAMPLE, Step(EXAMPLE, INIT, At(A, 0, true)), At(A, 10, false))
    ensures var log := Step(EXAMPLE, Step(EXAMPLE, Step(EXAMPLE, s, At(A, 20, true)), At(B, 60, true)),
                            At(A, 70, false)).log;
            && |log| == 5 && LatestPress(log, A, 2, 4) && MadeUpBetween(log, A, 2, 4)
            && log[2].rec.tap.count == 2 && log[4].rec == Untapped(At(A, 70, false))
  {
    TappedOnce(s);
    Repeated(s);
    CutShort(State(Record(At(A, 20, true), Tap(false, 2)), [], LogUntil(3), []));
    LetGo(State(Untapped(At(B, 60, true)), [], LogUntil(4), []));
    assert LogUntil(5)[3].synthetic;
  }
}
