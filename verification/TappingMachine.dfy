/**
 * quantum/action_tapping.c as it stands: static variables changed in place and an 8-slot ring.
 * Every method is proved against the value-level machine of `Tapping`.
 */
module TappingMachine {
  import opened Events
  import opened Tapping

  /** The slot `i` places after slot `tail`. */
  ghost function Slot(tail: nat, i: nat): nat
    requires tail < WAITING_BUFFER_SIZE && i < WAITING_BUFFER_SIZE
  {
    if tail + i < WAITING_BUFFER_SIZE then tail + i else tail + i - WAITING_BUFFER_SIZE
  }

  ghost function Used(tail: nat, head: nat): nat
    requires tail < WAITING_BUFFER_SIZE && head < WAITING_BUFFER_SIZE
  {
    if tail <= head then head - tail else head + WAITING_BUFFER_SIZE - tail
  }

  /** Contents of the ring from tail to head. */
  ghost function Ring(a: seq<Record>, tail: nat, head: nat): (buf: seq<Record>)
    requires |a| == WAITING_BUFFER_SIZE && tail < WAITING_BUFFER_SIZE && head < WAITING_BUFFER_SIZE
    ensures |buf| == Used(tail, head)
    ensures forall i :: 0 <= i < |buf| ==> buf[i] == a[Slot(tail, i)]
  {
    seq(Used(tail, head), i requires 0 <= i < Used(tail, head) => a[Slot(tail, i)])
  }

  lemma {:induction false} RingPop(a: seq<Record>, tail: nat, head: nat)
    requires |a| == WAITING_BUFFER_SIZE && tail < WAITING_BUFFER_SIZE && head < WAITING_BUFFER_SIZE && tail != head
    ensures Ring(a, (tail + 1) % WAITING_BUFFER_SIZE, head) == Ring(a, tail, head)[1..]
  {}

  lemma {:induction false} RingSet(a: seq<Record>, tail: nat, head: nat, k: nat, r: Record)
    requires |a| == WAITING_BUFFER_SIZE && tail < WAITING_BUFFER_SIZE && head < WAITING_BUFFER_SIZE
    requires k < Used(tail, head)
    ensures Ring(a[Slot(tail, k) := r], tail, head) == Ring(a, tail, head)[k := r]
  {}

  class Machine {
    var tappingKey: Record
    const waiting: array<Record>
    var head: nat
    var tail: nat
    var log: Log
    ghost var lost: seq<Event>

    ghost predicate Valid()
      reads this
    {
      waiting.Length == WAITING_BUFFER_SIZE && head < WAITING_BUFFER_SIZE && tail < WAITING_BUFFER_SIZE
    }

    ghost function Waiting(): (buf: seq<Record>)
      requires Valid()
      reads this, waiting
    {
      Ring(waiting[..], tail, head)
    }

    ghost function View(): State
      requires Valid()
      reads this, waiting
    {
      State(tappingKey, Waiting(), log, lost)
    }

    constructor ()
      ensures Valid() && fresh(waiting) && View() == INIT
    {
      tappingKey, head, tail, log, lost := RESET, 0, 0, [], [];
      waiting := new Record[WAITING_BUFFER_SIZE](_ => RESET);
    }

    method ProcessRecord(r: Record)
      requires Valid()
      modifies this`log
      ensures View() == Emit(old(View()), r)
    {
      log := log + [Entry(r, false)];
    }

    method WaitingBufferEnq(r: Record) returns (ok: bool)
      requires Valid()
      modifies this`head, waiting
      ensures Valid()
      ensures ok <==> IsTick(r.event) || |old(Waiting())| < 7
      ensures Waiting() == if ok && !IsTick(r.event) then old(Waiting()) + [r] else old(Waiting())
    {
      if IsTick(r.event) { return true; }
      if (head + 1) % WAITING_BUFFER_SIZE == tail { return false; }
      waiting[head] := r;
      head := (head + 1) % WAITING_BUFFER_SIZE;
      return true;
    }

    method WaitingBufferClear()
      requires Valid()
      modifies this`head, this`tail
      ensures Valid() && Waiting() == []
    {
      head := 0;
      tail := 0;
    }

    method WaitingBufferTyped(e: Event) returns (found: bool)
      requires Valid()
      ensures found == Typed(Waiting(), e)
    {
      var i := tail;
      ghost var n := 0;
      while i != head
        invariant n <= |Waiting()| && n < WAITING_BUFFER_SIZE && i == Slot(tail, n)
        invariant forall j :: 0 <= j < n ==>
                  !(Waiting()[j].event.key == e.key && Waiting()[j].event.pressed != e.pressed)
        decreases |Waiting()| - n
      {
        assert waiting[i] == Waiting()[n];
        if e.key == waiting[i].event.key && e.pressed != waiting[i].event.pressed { return true; }
        i := (i + 1) % WAITING_BUFFER_SIZE;
        n := n + 1;
      }
      return false;
    }

    method WaitingBufferScanTap(env: Env)
      requires Valid()
      modifies this`tappingKey, this`log, waiting
      ensures Valid() && View() == ScanTap(env, old(View()))
    {
      if tappingKey.tap.count > 0 || !tappingKey.event.pressed { return; }
      var i := tail;
      ghost var n, s := 0, View();
      while i != head
        invariant View() == s
        invariant n <= |s.buf| && n < WAITING_BUFFER_SIZE && i == Slot(tail, n)
        invariant FindRelease(env, s, n) == FindRelease(env, s, 0)
        decreases |s.buf| - n
      {
        assert waiting[i] == s.buf[n];
        var candidate := waiting[i];
        if !IsTick(candidate.event) && candidate.event.key == tappingKey.event.key && !candidate.event.pressed
           && Elapsed(candidate.event.time, tappingKey.event.time) < env.term(log, tappingKey)
        {
          tappingKey := tappingKey.(tap := tappingKey.tap.(count := 1));
          RingSet(waiting[..], tail, head, n, candidate.(tap := candidate.tap.(count := 1)));
          waiting[i] := candidate.(tap := candidate.tap.(count := 1));
          ProcessRecord(tappingKey);
          return;
        }
        i := (i + 1) % WAITING_BUFFER_SIZE;
        n := n + 1;
      }
    }

    /** The tapping key is down, not settled, and the event falls inside its term. */
    method ProcessUnsettled(env: Env, r: Record) returns (handled: bool, rec: Record)
      requires Valid()
      modifies this`tappingKey, this`log
      ensures Valid() && Outcome(View(), rec, handled) == Unsettled(env, old(View()), r)
    {
      if r.event.key == tappingKey.event.key && !r.event.pressed {
        tappingKey := tappingKey.(tap := tappingKey.tap.(count := 1));
        ProcessRecord(tappingKey);
        return false, r.(tap := tappingKey.tap);
      }
      var typed := WaitingBufferTyped(r.event);
      if !r.event.pressed && typed && env.permissive(log, tappingKey) {
        ProcessRecord(tappingKey);
        tappingKey := RESET;
        return false, r;
      }
      if !r.event.pressed && !typed {
        if env.retained(log, r.event.key, r.tap.count) { return false, r; }
        ProcessRecord(r);
        return true, r;
      }
      if r.event.pressed {
        tappingKey := tappingKey.(tap := tappingKey.tap.(interrupted := true));
        if env.holdOnPress(log, tappingKey) {
          ProcessRecord(tappingKey);
          tappingKey := RESET;
        }
      }
      return false, r;
    }

    method ProcessTapped(env: Env, r: Record, within: bool) returns (handled: bool, rec: Record)
      requires Valid()
      modifies this`tappingKey, this`log, waiting
      ensures Valid() && Outcome(View(), rec, handled) == Tapped(env, old(View()), r, within)
    {
      if IsTick(r.event) { return true, r; }
      if r.event.key == tappingKey.event.key && !r.event.pressed {
        rec := r.(tap := tappingKey.tap);
        ProcessRecord(rec);
        tappingKey := if within then rec else RESET;
        return true, rec;
      }
      var starts := env.isTap(log, r.event.key) && r.event.pressed;
      if starts {
        if tappingKey.tap.count > 1 {
          log := log + [Entry(SyntheticRelease(tappingKey, r.event.time), true)];
        }
        tappingKey := r;
        WaitingBufferScanTap(env);
      } else {
        ProcessRecord(r);
      }
      return true, r;
    }

    method ProcessReleased(env: Env, r: Record) returns (handled: bool, rec: Record)
      requires Valid()
      modifies this`tappingKey, this`log, waiting
      ensures Valid() && Outcome(View(), rec, handled) == Released(env, old(View()), r)
    {
      if Elapsed(r.event.time, tappingKey.event.time) >= env.term(log, tappingKey) {
        tappingKey := RESET;
        return false, r;
      }
      if IsTick(r.event) { return true, r; }
      if !r.event.pressed {
        ProcessRecord(r);
        return true, r;
      }
      if r.event.key == tappingKey.event.key {
        if Elapsed(r.event.time, tappingKey.event.time) < env.quickTerm(log, tappingKey)
           && !tappingKey.tap.interrupted && tappingKey.tap.count > 0
        {
          rec := r.(tap := tappingKey.tap);
          if rec.tap.count < 15 { rec := rec.(tap := rec.tap.(count := rec.tap.count + 1)); }
          ProcessRecord(rec);
          tappingKey := rec;
          return true, rec;
        }
        tappingKey := r;
        return true, r;
      }
      if env.isTap(log, r.event.key) {
        tappingKey := r;
        WaitingBufferScanTap(env);
      } else {
        tappingKey := tappingKey.(tap := tappingKey.tap.(interrupted := true));
        ProcessRecord(r);
      }
      return true, r;
    }

    method ProcessTapping(env: Env, r: Record) returns (handled: bool, rec: Record)
      requires Valid()
      modifies this`tappingKey, this`log, waiting
      ensures Valid() && Outcome(View(), rec, handled) == Tapping.ProcessTapping(env, old(View()), r)
    {
      if IsTick(tappingKey.event) {
        if IsTick(r.event) {
        } else if r.event.pressed && env.isTap(log, r.event.key) {
          tappingKey := r;
          WaitingBufferScanTap(env);
        } else {
          ProcessRecord(r);
        }
        return true, r;
      }
      var within := Elapsed(r.event.time, tappingKey.event.time) < env.term(log, tappingKey);
      if !tappingKey.event.pressed {
        handled, rec := ProcessReleased(env, r);
      } else if tappingKey.tap.count > 0 {
        handled, rec := ProcessTapped(env, r, within);
      } else if !within {
        ProcessRecord(tappingKey);
        tappingKey := RESET;
        return false, r;
      } else if IsTick(r.event) {
        return true, r;
      } else {
        handled, rec := ProcessUnsettled(env, r);
      }
    }

    /** The head of the ring is fed again; it leaves the ring when it is consumed. */
    method ProcessHead(env: Env) returns (handled: bool)
      requires Valid() && tail != head
      modifies this`tappingKey, this`log, this`tail, waiting
      ensures Valid()
      ensures var s := old(View());
              var o := Tapping.ProcessTapping(env, s, s.buf[0]);
              && handled == o.handled
              && View() == o.s.(buf := if handled then o.s.buf[1..] else o.s.buf[0 := o.rec])
    {
      var rec;
      handled, rec := ProcessTapping(env, waiting[tail]);
      if handled {
        RingPop(waiting[..], tail, head);
        tail := (tail + 1) % WAITING_BUFFER_SIZE;
      } else {
        RingSet(waiting[..], tail, head, 0, rec);
        waiting[tail] := rec;
      }
    }

    method ProcessWaitingBuffer(env: Env)
      requires Valid()
      modifies this`tappingKey, this`log, this`tail, waiting
      ensures Valid() && View() == Drain(env, old(View()))
    {
      ghost var s := View();
      while tail != head
        invariant Valid() && Drain(env, View()) == Drain(env, s)
        decreases |Waiting()|
      {
        var handled := ProcessHead(env);
        if !handled { return; }
      }
    }

    /** One call with an incoming event. */
    method ActionTappingProcess(env: Env, e: Event)
      requires Valid()
      modifies this, waiting
      ensures Valid() && View() == Step(env, old(View()), e)
    {
      var handled, rec := ProcessTapping(env, Record(e, NO_TAP));
      if !handled {
        ghost var s := View();
        var ok := WaitingBufferEnq(rec);
        if !ok {
          lost := s.lost + Pending(s) + EventsOf(s.buf) + [rec.event];
          WaitingBufferClear();
          tappingKey := RESET;
        }
        assert View() == Enqueue(s, rec);
      }
      ProcessWaitingBuffer(env);
    }
  }
}
