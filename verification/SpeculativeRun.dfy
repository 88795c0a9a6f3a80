/**
 * The speculative-hold table and the tap-hold machine together: when a modifier that was applied ahead of the
 * decision is taken back or kept, and when nothing settles it.
 */
module SpeculativeRun {
  import opened Events
  import opened Tapping
  import opened TappingInvariant
  import opened TappingVerdict
  import TappingOrder
  import H = SpeculativeHold

  /**
   * One call of `action_tapping_process`: the event, whether a key is a mod-tap key at a given moment, and
   * what the press handler finds.
   */
  datatype Call = Call(input: Input, modTap: (Log, Key) -> bool,
                       eligible: bool, mods: H.Mods, down: H.Mods, oneKey: bool)

  datatype Both = Both(machine: State, table: H.State)

  const START := Both(INIT, H.INIT)

  /** Every press handed to `process_record` settles its key; entries `from` to `n` of the log. */
  function SettleLogged(table: H.State, log: Log, from: nat, n: nat, modTap: (Log, Key) -> bool): H.State
    requires from <= n <= |log|
    decreases n
  {
    if n == from then table else
    var before, r := SettleLogged(table, log, from, n - 1, modTap), log[n - 1].rec;
    if !r.event.pressed then before
    else H.Settle(before, r.event.key, modTap(log[..n - 1], r.event.key) && r.tap.count == 0)
  }

  function Pressed(table: H.State, c: Call): H.State {
    var e := c.input.event;
    if e.pressed && !IsTick(e) then H.Press(table, e.key, c.eligible, c.mods, c.down, c.oneKey) else table
  }

  function Next(b: Both, c: Call): Both {
    StepExtends(c.input.env, b.machine, c.input.event);
    var machine := Step(c.input.env, b.machine, c.input.event);
    Both(machine, SettleLogged(Pressed(b.table, c), machine.log, |b.machine.log|, |machine.log|, c.modTap))
  }

  function RunBoth(calls: seq<Call>): Both
    decreases |calls|
  {
    if calls == [] then START else Next(RunBoth(calls[..|calls| - 1]), calls[|calls| - 1])
  }

  // ---------- Where a speculated press can be ----------

  /** Pending, waiting, or thrown away by an overflow. */
  ghost predicate Unprocessed(s: State, p: Event) {
    PendingCount(s, p) + Count(EventsOf(s.buf), p) + Count(s.lost, p) > 0
  }

  ghost predicate PressUnprocessed(s: State, k: Key) {
    exists p: Event :: p.key == k && p.pressed && Unprocessed(s, p)
  }

  ghost predicate Logs(log: Log, from: nat, p: Event) {
    exists i :: from <= i < |log| && !log[i].synthetic && log[i].rec.event == p
  }

  lemma {:induction false} LoggedSince(log: Log, from: nat, p: Event)
    requires from <= |log|
    ensures LoggedCount(log, p) > LoggedCount(log[..from], p) ==> Logs(log, from, p)
    decreases |log|
  {
    if from == |log| {
      assert log[..from] == log;
    } else {
      var n := |log| - 1;
      assert log[..n][..from] == log[..from];
      LoggedSince(log[..n], from, p);
      if Logs(log[..n], from, p) {
        var i :| from <= i < n && !log[..n][i].synthetic && log[..n][i].rec.event == p;
        assert log[i] == log[..n][i];
      }
    }
  }

  /** An event that was not processed yet is logged in the call, or still not processed after it. */
  lemma {:induction false} LoggedOrKept(env: Env, s: State, e: Event, p: Event)
    requires Valid(s) && (Unprocessed(s, p) || (p == e && !IsTick(e)))
    ensures Unprocessed(Step(env, s, e), p) || Logs(Step(env, s, e).log, |s.log|, p)
  {
    var s' := Step(env, s, e);
    StepKeeps(env, s, e, p);
    StepExtends(env, s, e);
    assert s'.log[..|s.log|] == s.log;
    LoggedGrows(s.log, s'.log, p);
    LoggedSince(s'.log, |s.log|, p);
  }

  // ---------- What the log settles ----------

  /** The table keeps its own invariant, and no key gains an entry. */
  lemma {:induction false} LogKeepsTable(table: H.State, log: Log, from: nat, n: nat, modTap: (Log, Key) -> bool)
    requires from <= n <= |log| && H.Inv(table)
    ensures var table' := SettleLogged(table, log, from, n, modTap);
            H.Inv(table') && forall x :: x in table'.keys ==> x in table.keys
    decreases n
  {
    if n > from {
      LogKeepsTable(table, log, from, n - 1, modTap);
      var before, r := SettleLogged(table, log, from, n - 1, modTap), log[n - 1].rec;
      if r.event.pressed {
        SettleShrinks(before, r.event.key, modTap(log[..n - 1], r.event.key) && r.tap.count == 0);
      }
    }
  }

  lemma {:induction false} SettleShrinks(table: H.State, k: Key, hold: bool)
    requires H.Inv(table)
    ensures var table' := H.Settle(table, k, hold);
            H.Inv(table') && forall x :: x in table'.keys ==> x in table.keys && x.key != k
  {
    H.SettleRemoves(table, k, hold);
    if hold { H.HoldKeeps(table, k); } else { H.CancelKeeps(table, k); }
  }

  /** A logged press leaves its key without an entry. */
  lemma {:induction false} LogRemoves(table: H.State, log: Log, from: nat, n: nat, modTap: (Log, Key) -> bool, i: nat)
    requires from <= i < n <= |log| && H.Inv(table) && log[i].rec.event.pressed
    ensures forall x :: x in SettleLogged(table, log, from, n, modTap).keys ==> x.key != log[i].rec.event.key
    decreases n
  {
    LogKeepsTable(table, log, from, n - 1, modTap);
    var before, r := SettleLogged(table, log, from, n - 1, modTap), log[n - 1].rec;
    if i < n - 1 { LogRemoves(table, log, from, n - 1, modTap, i); }
    if r.event.pressed {
      SettleShrinks(before, r.event.key, modTap(log[..n - 1], r.event.key) && r.tap.count == 0);
    }
  }

  /**
   * One logged press of a key with an entry: a hold of a mod-tap key ends that entry alone, any other press ends
   * the later ones too. Releases settle nothing.
   */
  lemma {:induction false} LoggedPressSettles(before: seq<H.Speculated>, x: H.Speculated, after: seq<H.Speculated>,
                                              mods: H.Mods, log: Log, n: nat, modTap: (Log, Key) -> bool)
    requires n < |log| && log[n].rec.event.key == x.key && forall y :: y in before ==> y.key != x.key
    ensures var r, table := log[n].rec, H.State(before + [x] + after, mods);
            var hold := modTap(log[..n], x.key) && r.tap.count == 0;
            SettleLogged(table, log, n, n + 1, modTap).keys ==
            if !r.event.pressed then table.keys else if hold then before + after else before
  {
    H.SettleEndsEntries(before, x, after, mods);
    assert SettleLogged(H.State(before + [x] + after, mods), log, n, n, modTap) == H.State(before + [x] + after, mods);
  }

  // ---------- Every run of both ----------

  /** The entry waits for a press of its key that was not processed yet. */
  ghost predicate Accounted(b: Both) {
    && Valid(b.machine) && H.Inv(b.table)
    && forall x :: x in b.table.keys ==> PressUnprocessed(b.machine, x.key)
  }

  lemma {:induction false} PressAdds(table: H.State, c: Call)
    requires H.Inv(table)
    ensures H.Inv(Pressed(table, c))
    ensures forall x :: x in Pressed(table, c).keys ==>
              x in table.keys || (x.key == c.input.event.key && c.input.event.pressed && !IsTick(c.input.event))
  {
    H.PressKeeps(table, c.input.event.key, c.eligible, c.mods, c.down, c.oneKey);
  }

  lemma {:induction false} EntryStaysAccounted(b: Both, c: Call, p: Event, x: H.Speculated)
    requires Accounted(b) && x in Next(b, c).table.keys && p.key == x.key && p.pressed
    requires Unprocessed(b.machine, p) || (p == c.input.event && !IsTick(p))
    ensures PressUnprocessed(Next(b, c).machine, x.key)
  {
    var s, s' := b.machine, Next(b, c).machine;
    StepExtends(c.input.env, s, c.input.event);
    LoggedOrKept(c.input.env, s, c.input.event, p);
    PressAdds(b.table, c);
    if Logs(s'.log, |s.log|, p) {
      var i :| |s.log| <= i < |s'.log| && !s'.log[i].synthetic && s'.log[i].rec.event == p;
      LogRemoves(Pressed(b.table, c), s'.log, |s.log|, |s'.log|, c.modTap, i);
    }
  }

  lemma {:induction false} NextAccounted(b: Both, c: Call)
    requires Accounted(b)
    ensures Accounted(Next(b, c))
  {
    var s, e := b.machine, c.input.event;
    StepExtends(c.input.env, s, e);
    StepKeeps(c.input.env, s, e, e);
    PressAdds(b.table, c);
    LogKeepsTable(Pressed(b.table, c), Next(b, c).machine.log, |s.log|, |Next(b, c).machine.log|, c.modTap);
    forall x | x in Next(b, c).table.keys ensures PressUnprocessed(Next(b, c).machine, x.key) {
      if x in b.table.keys {
        var p: Event :| p.key == x.key && p.pressed && Unprocessed(s, p);
        EntryStaysAccounted(b, c, p, x);
      } else {
        EntryStaysAccounted(b, c, e, x);
      }
    }
  }

  /**
   * Over every run of both: a live entry's key has a press that is still pending or waiting, or that an
   * overflow threw away. A logged press always settles its key.
   */
  lemma {:induction false} SettledUnlessLost(calls: seq<Call>)
    ensures Accounted(RunBoth(calls))
    decreases |calls|
  {
    if calls != [] {
      SettledUnlessLost(calls[..|calls| - 1]);
      NextAccounted(RunBoth(calls[..|calls| - 1]), calls[|calls| - 1]);
    }
  }

  lemma {:induction false} CountedIn(es: seq<Event>, p: Event)
    requires Count(es, p) > 0
    ensures p in es
  {
    if es[0] != p { CountedIn(es[1..], p); }
  }

  lemma {:induction false} WhereUnprocessed(s: State, k: Key)
    requires PressUnprocessed(s, k)
    ensures IsPending(s) || s.lost != [] || exists r :: r in s.buf && r.event.pressed
  {
    var p: Event :| p.key == k && p.pressed && Unprocessed(s, p);
    if !IsPending(s) && s.lost == [] {
      CountedIn(EventsOf(s.buf), p);
      var i :| 0 <= i < |s.buf| && EventsOf(s.buf)[i] == p;
      assert s.buf[i] in s.buf && s.buf[i].event.pressed;
    }
  }

  /** Without overflow, a machine with no press pending or waiting leaves no modifier applied. */
  lemma {:induction false} IdleAppliesNothing(calls: seq<Call>)
    requires var s := RunBoth(calls).machine;
             s.lost == [] && !IsPending(s) && forall r :: r in s.buf ==> !r.event.pressed
    ensures RunBoth(calls).table == H.INIT
  {
    var b := RunBoth(calls);
    SettledUnlessLost(calls);
    if b.table.keys != [] { WhereUnprocessed(b.machine, b.table.keys[0].key); }
  }

  // ---------- An overflow settles nothing ----------

  /**
   * A call that overflows without logging anything leaves every entry in the table, although the machine is
   * empty afterwards.
   */
  lemma {:induction false} OverflowStrands(b: Both, c: Call)
    requires var s' := Next(b, c).machine; s'.log == b.machine.log && s'.lost != b.machine.lost
    ensures Next(b, c).machine.tk == RESET && Next(b, c).machine.buf == []
    ensures Next(b, c).table == Pressed(b.table, c)
  {
    var env, s, e := c.input.env, b.machine, c.input.event;
    LostOnlyByEnqueue(env, s, e);
  }

  lemma {:induction false} LostOnlyByEnqueue(env: Env, s: State, e: Event)
    requires Step(env, s, e).lost != s.lost
    ensures Feed(env, s, e).tk == RESET && Feed(env, s, e).buf == [] && Step(env, s, e) == Feed(env, s, e)
  {
    TappingOrder.LostBetween(env, s, e);
    TappingOrder.KeepsLost(env, s, Record(e, NO_TAP));
  }

  /** Until a press is settled as a tap: without an entry of its own it clears the whole table. */
  lemma {:induction false} TapClearsAll(table: H.State, k: Key)
    requires H.Inv(table) && forall x :: x in table.keys ==> x.key != k
    ensures H.Settle(table, k, false) == H.INIT
  {
    if table.keys != [] { NoEntry(table.keys, k); }
  }

  lemma {:induction false} NoEntry(keys: seq<H.Speculated>, k: Key)
    ensures H.Find(keys, k) == |keys| || exists x :: x in keys && x.key == k
  {
    var i := H.Find(keys, k);
    if i < |keys| { assert keys[i] in keys; }
  }

  // ---------- A run that strands a modifier ----------

  const MOD := Key(0, 0)
  const OTHER := Key(0, 1)

  /** One mod-tap key in the default mode, and plain keys. */
  const EXAMPLE := Env((_, k) => k == MOD, (_, _, _) => false, (_, _) => 200, (_, _) => 200,
                       (_, _) => false, (_, _) => false)

  const FIRST := Call(Input(EXAMPLE, Event(MOD, 0, KeySwitch, true)), (_, k) => k == MOD, true, {1}, {}, false)
  const MORE := Call(Input(EXAMPLE, Event(OTHER, 10, KeySwitch, true)), (_, k) => k == MOD, false, {}, {}, false)

  /** The mod-tap key is undecided, and `n` presses wait. */
  ghost function Full(n: nat): Both {
    Both(State(Record(FIRST.input.event, Tap(n > 0, 0)), seq(n, _ => Record(MORE.input.event, NO_TAP)), [], []),
         H.State([H.Speculated(MOD, {1})], {1}))
  }

  ghost function Presses(n: nat): seq<Call> { [FIRST] + seq(n, _ => MORE) }

  lemma {:induction false} PressesWait(n: nat)
    requires n <= 7
    ensures RunBoth(Presses(n)) == Full(n)
  {
    if n == 0 {
      assert Presses(0)[..0] == [];
      assert Step(EXAMPLE, INIT, FIRST.input.event) == Full(0).machine;
      assert [] + [H.Speculated(MOD, {1})] == Full(0).table.keys;
    } else {
      PressesWait(n - 1);
      assert Presses(n)[..n] == Presses(n - 1) && Presses(n)[n] == MORE;
      OneMoreWaits(n - 1);
    }
  }

  lemma {:induction false} OneMoreWaits(n: nat)
    requires n < 7
    ensures Next(Full(n), MORE) == Full(n + 1)
  {
    var s, s' := Full(n).machine, Full(n + 1).machine;
    assert s.buf + [Record(MORE.input.event, NO_TAP)] == s'.buf;
    assert Feed(EXAMPLE, s, MORE.input.event) == s';
    assert s'.buf[0 := s'.buf[0]] == s'.buf;
    assert Drain(EXAMPLE, s') == s';
  }

  lemma {:induction false} OneTooMany(s: State)
    requires s == Full(7).machine
    ensures var s' := Step(EXAMPLE, s, MORE.input.event); s'.tk == RESET && s'.buf == [] && s'.log == []
  {
    var s1 := Feed(EXAMPLE, s, MORE.input.event);
    assert s1.tk == RESET && s1.buf == [] && s1.log == [];
    assert Drain(EXAMPLE, s1) == s1;
  }

  /** Nine presses: the last one overflows, nothing is left in the machine, and the modifier stays applied. */
  lemma {:induction false} ModifierStranded()
    ensures var b := RunBoth(Presses(8));
            && b.machine.tk == RESET && b.machine.buf == [] && b.machine.log == []
            && b.table == H.State([H.Speculated(MOD, {1})], {1})
  {
    PressesWait(7);
    assert Presses(8)[..8] == Presses(7) && Presses(8)[8] == MORE;
    OneTooMany(Full(7).machine);
    assert RunBoth(Presses(8)) == Next(Full(7), MORE);
  }
}
