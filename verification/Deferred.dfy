/**
 * The deferred executor of quantum/deferred_exec.c: tokens, deadlines on a wrapping 32-bit clock, and
 * callbacks that may call back into the table while a pass is running.
 */
module Deferred {

  const WRAP := 0x1_0000_0000
  const TOKENS := 256

  /** Token 0 marks a free slot, callback 0 is the null callback. */
  datatype Executor = Executor(token: nat, trigger: nat, callback: nat, arg: nat)

  const FREE := Executor(0, 0, 0, 0)

  /** The last token handed out, which all tables share, and one table. */
  datatype State = State(current: nat, table: seq<Executor>)

  // ---------- Tokens ----------

  predicate Usable(table: seq<Executor>, token: nat) {
    token != 0 && forall i :: 0 <= i < |table| ==> table[i].token != token
  }

  /** First usable token from `c` on, trying `left` more after it, with wrap-around; 0 if none. */
  function Search(table: seq<Executor>, c: nat, left: nat): nat
    decreases left
  {
    if Usable(table, c) then c else if left == 0 then 0 else Search(table, (c + 1) % TOKENS, left - 1)
  }

  function FirstFree(table: seq<Executor>): (i: nat)
    ensures i <= |table| && (i < |table| ==> table[i].token == 0) && forall j :: 0 <= j < i ==> table[j].token != 0
  {
    if table == [] || table[0].token == 0 then 0 else 1 + FirstFree(table[1..])
  }

  function Lookup(table: seq<Executor>, token: nat): (i: nat)
    ensures i <= |table| && (i < |table| ==> table[i].token == token) && forall j :: 0 <= j < i ==>
            table[j].token != token
  {
    if table == [] || table[0].token == token then 0 else 1 + Lookup(table[1..], token)
  }

  // ---------- Requests ----------

  /**
   * A request and the time at which it is made, true or as the clock shows it. `Elsewhere` is a request to
   * another table: it moves the shared token counter.
   */
  datatype Request =
    | Defer(now: nat, delay: nat, callback: nat, arg: nat)
    | Extend(now: nat, token: nat, delay: nat)
    | Cancel(token: nat)
    | Elsewhere(current: nat)

  function DeferExec(s: State, now: nat, delay: nat, callback: nat, arg: nat): (State, nat) {
    if s.table == [] || delay == 0 || callback == 0 then (s, 0) else
    var i := FirstFree(s.table);
    if i == |s.table| then (s, 0) else
    var first := (s.current + 1) % TOKENS;
    var token := Search(s.table, first, TOKENS - 1);
    if token == 0 then (s.(current := first), 0)
    else (State(token, s.table[i := Executor(token, (now + delay) % WRAP, callback, arg)]), token)
  }

  function ExtendExec(s: State, now: nat, token: nat, delay: nat): (State, bool) {
    var i := Lookup(s.table, token);
    if delay == 0 || token == 0 || i == |s.table| then (s, false)
    else (s.(table := s.table[i := s.table[i].(trigger := (now + delay) % WRAP)]), true)
  }

  function CancelExec(s: State, token: nat): (State, bool) {
    var i := Lookup(s.table, token);
    if token == 0 || i == |s.table| then (s, false) else (s.(table := s.table[i := FREE]), true)
  }

  function Apply(s: State, q: Request): (s': State)
    ensures |s'.table| == |s.table|
  {
    match q
    case Defer(now, delay, callback, arg) => DeferExec(s, now, delay, callback, arg).0
    case Extend(now, token, delay) => ExtendExec(s, now, token, delay).0
    case Cancel(token) => CancelExec(s, token).0
    case Elsewhere(current) => s.(current := current % TOKENS)
  }

  function ApplyAll(s: State, qs: seq<Request>): (s': State)
    ensures |s'.table| == |s.table|
    decreases |qs|
  {
    if qs == [] then s else ApplyAll(Apply(s, qs[0]), qs[1..])
  }

  // ---------- A pass ----------

  /** What a callback does: requests it makes meanwhile, and the delay it returns. */
  datatype Reaction = Reaction(requests: seq<Request>, delay: nat)

  datatype Call = Call(slot: nat, entry: Executor)

  /** A callback's behaviour may depend on everything called so far. */
  type Behaviour = (Executor, seq<Call>) -> Reaction

  /** `(int32_t)TIMER_DIFF_32(a, b)`. */
  function SignedDiff(a: nat, b: nat): int {
    var d := (a - b) % WRAP;
    if d < WRAP / 2 then d else d - WRAP
  }

  predicate Due(e: Executor, now: nat) {
    e.token != 0 && SignedDiff(e.trigger, now) <= 0
  }

  datatype Progress = Progress(s: State, calls: seq<Call>)

  /** After the callback of slot `i` returned `delay`: repeat, free the slot, or leave a re-queued slot alone. */
  function Finish(s: State, i: nat, token: nat, delay: nat): (s': State)
    requires i < |s.table|
    ensures |s'.table| == |s.table|
  {
    var e := s.table[i];
    if e.token != token then s
    else if delay > 0 then s.(table := s.table[i := e.(trigger := (e.trigger + delay) % WRAP)])
    else s.(table := s.table[i := FREE])
  }

  function RunSlot(p: Progress, now: nat, act: Behaviour, i: nat): (p': Progress)
    requires i < |p.s.table|
    ensures |p'.s.table| == |p.s.table|
  {
    var e := p.s.table[i];
    if !Due(e, now) then p else
    var r := act(e, p.calls);
    Progress(Finish(ApplyAll(p.s, r.requests), i, e.token, r.delay), p.calls + [Call(i, e)])
  }

  /** The slots below `n`. */
  function RunSlots(p: Progress, now: nat, act: Behaviour, n: nat): (p': Progress)
    requires n <= |p.s.table|
    ensures |p'.s.table| == |p.s.table|
  {
    if n == 0 then p else RunSlot(RunSlots(p, now, act, n - 1), now, act, n - 1)
  }

  function Pass(p: Progress, now: nat, act: Behaviour): Progress {
    RunSlots(p, now, act, |p.s.table|)
  }

  /** One call of `deferred_exec_advanced_task`: at most one pass per millisecond. */
  function Task(p: Progress, now: nat, last: nat, act: Behaviour): (Progress, nat) {
    if SignedDiff(now, last) > 0 then (Pass(p, now, act), now) else (p, last)
  }

  // ---------- Live tokens are distinct ----------

  ghost predicate Distinct(table: seq<Executor>) {
    forall i, j :: 0 <= i < j < |table| && table[i].token != 0 ==> table[i].token != table[j].token
  }

  ghost predicate Inv(s: State) {
    Distinct(s.table) && forall i :: 0 <= i < |s.table| ==> s.table[i].token < TOKENS
  }

  lemma {:induction false} SearchUsable(table: seq<Executor>, c: nat, left: nat)
    requires c < TOKENS
    ensures var t := Search(table, c, left); t < TOKENS && (t != 0 ==> Usable(table, t))
    decreases left
  {
    if !Usable(table, c) && left > 0 { SearchUsable(table, (c + 1) % TOKENS, left - 1); }
  }

  lemma {:induction false} ApplyKeeps(s: State, q: Request)
    requires Inv(s)
    ensures Inv(Apply(s, q))
  {
    if q.Defer? { SearchUsable(s.table, (s.current + 1) % TOKENS, TOKENS - 1); }
  }

  lemma {:induction false} ApplyAllKeeps(s: State, qs: seq<Request>)
    requires Inv(s)
    ensures Inv(ApplyAll(s, qs))
    decreases |qs|
  {
    if qs != [] {
      ApplyKeeps(s, qs[0]);
      ApplyAllKeeps(Apply(s, qs[0]), qs[1..]);
    }
  }

  lemma {:induction false} RunSlotsKeeps(p: Progress, now: nat, act: Behaviour, n: nat)
    requires Inv(p.s) && n <= |p.s.table|
    ensures Inv(RunSlots(p, now, act, n).s)
  {
    if n > 0 {
      RunSlotsKeeps(p, now, act, n - 1);
      var q := RunSlots(p, now, act, n - 1);
      var e := q.s.table[n - 1];
      if Due(e, now) { ApplyAllKeeps(q.s, act(e, q.calls).requests); }
    }
  }

  datatype Happening = Ask(request: Request) | Tick(now: nat, last: nat, act: Behaviour)

  function Next(p: Progress, x: Happening): Progress {
    match x
    case Ask(q) => p.(s := Apply(p.s, q))
    case Tick(now, last, act) => Task(p, now, last, act).0
  }

  function Run(p: Progress, xs: seq<Happening>): Progress
    decreases |xs|
  {
    if xs == [] then p else Next(Run(p, xs[..|xs| - 1]), xs[|xs| - 1])
  }

  /** In every run, with callbacks that defer, extend and cancel as they like, live tokens are distinct. */
  lemma {:induction false} LiveTokensDistinct(p: Progress, xs: seq<Happening>)
    requires Inv(p.s)
    ensures Inv(Run(p, xs).s)
    decreases |xs|
  {
    if xs != [] {
      var n := |xs| - 1;
      LiveTokensDistinct(p, xs[..n]);
      var q := Run(p, xs[..n]);
      match xs[n]
      case Ask(r) => ApplyKeeps(q.s, r);
      case Tick(now, _, act) => RunSlotsKeeps(q, now, act, |q.s.table|);
    }
  }

  // ---------- When a token can be found ----------

  /** The search fails only when every one of the 255 tokens is live. */
  lemma {:induction false} SearchFails(table: seq<Executor>, c: nat, left: nat, k: nat)
    requires c < TOKENS && Search(table, c, left) == 0 && k <= left
    ensures !Usable(table, (c + k) % TOKENS)
    decreases left
  {
    if k > 0 {
      SearchFails(table, (c + 1) % TOKENS, left - 1, k - 1);
      assert ((c + 1) % TOKENS + (k - 1)) % TOKENS == (c + k) % TOKENS;
    }
  }

  lemma {:induction false} StepsBetween(c: nat, token: nat)
    requires c < TOKENS && token < TOKENS
    ensures var k := (token - c) % TOKENS; k <= TOKENS - 1 && (c + k) % TOKENS == token
  {}

  lemma {:induction false} SearchFailsOnlyWhenFull(table: seq<Executor>, c: nat, token: nat)
    requires c < TOKENS && 0 < token < TOKENS && Search(table, c, TOKENS - 1) == 0
    ensures !Usable(table, token)
  {
    StepsBetween(c, token);
    SearchFails(table, c, TOKENS - 1, (token - c) % TOKENS);
  }

  ghost function LiveTokens(table: seq<Executor>): set<nat> {
    if table == [] then {} else
    LiveTokens(table[1..]) + if table[0].token != 0 then {table[0].token} else {}
  }

  lemma {:induction false} LiveTokensCount(table: seq<Executor>)
    ensures |LiveTokens(table)| <= |table|
    ensures (exists e :: e in table && e.token == 0) ==> |LiveTokens(table)| < |table|
    ensures forall e :: e in table && e.token != 0 ==> e.token in LiveTokens(table)
  {
    if table != [] { LiveTokensCount(table[1..]); }
  }

  ghost function TokensUpTo(n: nat): (ts: set<nat>)
    ensures |ts| == n && forall t :: t in ts <==> 0 < t <= n
  {
    if n == 0 then {} else TokensUpTo(n - 1) + {n}
  }

  lemma {:induction false} SubsetCount(a: set<nat>, b: set<nat>)
    requires a <= b
    ensures |a| <= |b|
  {
    assert b == a + (b - a);
  }

  /**
   * A table of at most 255 slots with a free one accepts every valid request: by counting, some
   * token is not live.
   */
  lemma {:induction false} FreeSlotMeansToken(s: State, now: nat, delay: nat, callback: nat, arg: nat)
    requires |s.table| <= 255 && FirstFree(s.table) < |s.table| && delay > 0 && callback != 0
    ensures DeferExec(s, now, delay, callback, arg).1 != 0
  {
    var first := (s.current + 1) % TOKENS;
    if Search(s.table, first, TOKENS - 1) == 0 {
      LiveTokensCount(s.table);
      assert s.table[FirstFree(s.table)] in s.table;
      forall t | t in TokensUpTo(255) ensures t in LiveTokens(s.table) {
        SearchFailsOnlyWhenFull(s.table, first, t);
        var i :| 0 <= i < |s.table| && s.table[i].token == t;
        assert s.table[i] in s.table;
      }
      SubsetCount(TokensUpTo(255), LiveTokens(s.table));
    }
  }

  /** Exactly when a request is refused, for tables of any size. */
  lemma {:induction false} DeferRefusedExactlyWhen(s: State, now: nat, delay: nat, callback: nat, arg: nat)
    ensures DeferExec(s, now, delay, callback, arg).1 == 0 <==>
            || delay == 0 || callback == 0 || FirstFree(s.table) == |s.table|
            || forall t :: 0 < t < TOKENS ==> !Usable(s.table, t)
  {
    var first := (s.current + 1) % TOKENS;
    var token := Search(s.table, first, TOKENS - 1);
    SearchUsable(s.table, first, TOKENS - 1);
    if token == 0 {
      forall t | 0 < t < TOKENS ensures !Usable(s.table, t) { SearchFailsOnlyWhenFull(s.table, first, t); }
    }
  }

  // ---------- What a request does to the table ----------

  /** `token` is the next usable one after `c`, counting round. */
  ghost predicate NextUsable(table: seq<Executor>, c: nat, token: nat) {
    exists k: nat :: IsNext(table, c, token, k)
  }

  ghost predicate IsNext(table: seq<Executor>, c: nat, token: nat, k: nat) {
    token == (c + k) % TOKENS && UsableAfter(table, c, k) && forall j :: 0 <= j < k ==> !UsableAfter(table, c, j)
  }

  predicate UsableAfter(table: seq<Executor>, c: nat, k: nat) { Usable(table, (c + k) % TOKENS) }

  lemma {:induction false} StepRound(c: nat, k: nat)
    requires c < TOKENS && k > 0
    ensures ((c + 1) % TOKENS + (k - 1)) % TOKENS == (c + k) % TOKENS
  {}

  lemma {:induction false} SearchIsNext(table: seq<Executor>, c: nat, left: nat) returns (k: nat)
    requires c < TOKENS && Search(table, c, left) != 0
    ensures IsNext(table, c, Search(table, c, left), k)
    decreases left
  {
    if Usable(table, c) {
      k := 0;
    } else {
      var k' := SearchIsNext(table, (c + 1) % TOKENS, left - 1);
      k := k' + 1;
      NextFromOneBefore(table, c, Search(table, c, left), k');
    }
  }

  lemma {:induction false} NextFromOneBefore(table: seq<Executor>, c: nat, token: nat, k: nat)
    requires c < TOKENS && !Usable(table, c) && IsNext(table, (c + 1) % TOKENS, token, k)
    ensures IsNext(table, c, token, k + 1)
  {
    StepRound(c, k + 1);
    forall j | 0 <= j < k + 1 ensures !UsableAfter(table, c, j) {
      if j > 0 {
        StepRound(c, j);
        assert !UsableAfter(table, (c + 1) % TOKENS, j - 1);
      }
    }
  }

  /** Every slot but `i` is as it was. */
  ghost predicate OthersKept(before: seq<Executor>, after: seq<Executor>, i: nat) {
    |after| == |before| && forall j :: 0 <= j < |before| && j != i ==> after[j] == before[j]
  }

  /**
   * An accepted request fills exactly one slot, which was free: with the next unused token, with its own
   * callback and argument, and to be called `delay` after now.
   */
  lemma {:induction false} AcceptedFillsOneSlot(s: State, now: nat, delay: nat, callback: nat, arg: nat)
    returns (i: nat)
    requires DeferExec(s, now, delay, callback, arg).1 != 0
    ensures var r := DeferExec(s, now, delay, callback, arg);
            && i < |s.table| && s.table[i].token == 0 && OthersKept(s.table, r.0.table, i)
            && r.0.table[i] == Executor(r.1, (now + delay) % WRAP, callback, arg)
            && NextUsable(s.table, (s.current + 1) % TOKENS, r.1) && r.0.current == r.1
  {
    i := FirstFree(s.table);
    var first := (s.current + 1) % TOKENS;
    var k := SearchIsNext(s.table, first, TOKENS - 1);
  }

  /** A refused one leaves the table as it is; only a search for a token in vain moves the counter, by one. */
  lemma {:induction false} RefusedChangesNothing(s: State, now: nat, delay: nat, callback: nat, arg: nat)
    requires DeferExec(s, now, delay, callback, arg).1 == 0
    ensures var searched := delay > 0 && callback != 0 && exists i :: 0 <= i < |s.table| && s.table[i].token == 0;
            DeferExec(s, now, delay, callback, arg).0 ==
            s.(current := if searched then (s.current + 1) % TOKENS else s.current)
  {}

  ghost predicate Live(s: State, token: nat) {
    token != 0 && exists i :: 0 <= i < |s.table| && s.table[i].token == token
  }

  /** Cancelling ends the entry with the token and no other; without one it is refused and changes nothing. */
  lemma {:induction false} CancelEndsOne(s: State, token: nat)
    requires Inv(s)
    ensures var r := CancelExec(s, token);
            && (r.1 <==> Live(s, token)) && !Live(r.0, token) && r.0.current == s.current
            && |r.0.table| == |s.table|
            && forall i :: 0 <= i < |s.table| ==>
                 r.0.table[i] == if token != 0 && s.table[i].token == token then FREE else s.table[i]
  {
    var i := Lookup(s.table, token);
    if token != 0 && i < |s.table| {
      assert s.table[i].token == token;
      forall j | 0 <= j < |s.table| && j != i ensures s.table[j].token != token {
        if j < i { assert s.table[j].token != token; } else { assert s.table[i].token != s.table[j].token; }
      }
    }
  }

  /** A callback that ended its own entry has no say in what its slot holds now, whatever delay it returns. */
  lemma {:induction false} ReplacedIsLeftAlone(p: Progress, now: nat, act: Behaviour, i: nat)
    requires i < |p.s.table| && Due(p.s.table[i], now)
    requires !Live(ApplyAll(p.s, act(p.s.table[i], p.calls).requests), p.s.table[i].token)
    ensures RunSlot(p, now, act, i).s == ApplyAll(p.s, act(p.s.table[i], p.calls).requests)
  {}

  /** Extending moves the deadline of the entry with the token and nothing else. */
  lemma {:induction false} ExtendMovesOne(s: State, now: nat, token: nat, delay: nat)
    requires Inv(s)
    ensures var r := ExtendExec(s, now, token, delay);
            && (r.1 <==> Live(s, token) && delay > 0) && r.0.current == s.current && |r.0.table| == |s.table|
            && forall i :: 0 <= i < |s.table| ==>
                 r.0.table[i] == if token != 0 && delay > 0 && s.table[i].token == token
                                 then s.table[i].(trigger := (now + delay) % WRAP) else s.table[i]
  {
    var i := Lookup(s.table, token);
    if token != 0 && delay > 0 && i < |s.table| {
      assert s.table[i].token == token;
      forall j | 0 <= j < |s.table| && j != i ensures s.table[j].token != token {
        if j < i { assert s.table[j].token != token; } else { assert s.table[i].token != s.table[j].token; }
      }
    }
  }
}
