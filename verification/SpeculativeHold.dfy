/**
 * The speculative-hold table of quantum/action_tapping.c: modifiers applied before a mod-tap key is
 * settled. A modifier mask is the set of its one bits.
 */
module SpeculativeHold {
  import opened Events

  type Mods = set<nat>

  const SPECULATIVE_KEYS_SIZE := 8

  datatype Speculated = Speculated(key: Key, mods: Mods)

  datatype State = State(keys: seq<Speculated>, mods: Mods)

  const INIT := State([], {})

  /** Index of the entry of `k`, `|keys|` if there is none. */
  function Find(keys: seq<Speculated>, k: Key): (i: nat)
    ensures i <= |keys|
    ensures i < |keys| ==> keys[i].key == k
    ensures forall j :: 0 <= j < i ==> keys[j].key != k
  {
    if keys == [] || keys[0].key == k then 0 else 1 + Find(keys[1..], k)
  }

  function Union(keys: seq<Speculated>): Mods {
    if keys == [] then {} else keys[0].mods + Union(keys[1..])
  }

  /** A mod-tap key outside the flow term, with only speculated events waiting, that the callback wants. */
  predicate Eligible(keycode: bv16, withinFlow: bool, waiting: seq<bool>, wanted: bool) {
    0x2000 <= keycode <= 0x3fff && !withinFlow && wanted && forall x :: 0 <= x < |waiting| ==> waiting[x]
  }

  /** The hold modifiers of a mod-tap keycode; one flag moves all four to the right hand. */
  function HoldBits(keycode: bv16): Mods {
    var m, hand := keycode >> 8, if keycode & 0x1000 != 0 then 4 else 0;
    (if m & 1 != 0 then {hand} else {}) + (if m & 2 != 0 then {hand + 1} else {})
    + (if m & 4 != 0 then {hand + 2} else {}) + (if m & 8 != 0 then {hand + 3} else {})
  }

  /**
   * A press. `eligible` stands for the checks on keycode, flow term, waiting buffer and callback,
   * `down` for the modifiers already down, `oneKey` for the one-key build.
   */
  function Press(s: State, k: Key, eligible: bool, mods: Mods, down: Mods, oneKey: bool): State {
    if |s.keys| >= SPECULATIVE_KEYS_SIZE || Find(s.keys, k) < |s.keys| || !eligible then s
    else if oneKey && down + s.mods != {} then s
    else if mods <= down + s.mods then s
    else State(s.keys + [Speculated(k, mods)], s.mods + mods)
  }

  /** A settled press: of a mod-tap key as a hold, or of any key otherwise. */
  function Settle(s: State, k: Key, hold: bool): State {
    if s.keys == [] then s else
    var i := Find(s.keys, k);
    if hold then
      if i == |s.keys| then s else
      var rest := s.keys[..i] + s.keys[i + 1..];
      State(rest, if rest == [] then {} else s.mods - s.keys[i].mods)
    else
      var from := if i == |s.keys| then 0 else i;
      State(s.keys[..from], if from == 0 then {} else s.mods - Union(s.keys[from..]))
  }

  // ---------- The code ----------

  class Table {
    const keys: array<Speculated>
    var num: nat
    var mods: Mods

    ghost predicate Valid()
      reads this
    {
      keys.Length == SPECULATIVE_KEYS_SIZE && num <= SPECULATIVE_KEYS_SIZE
    }

    ghost function View(): State
      requires Valid()
      reads this, keys
    {
      State(keys[..num], mods)
    }

    constructor ()
      ensures Valid() && fresh(keys) && View() == INIT
    {
      keys := new Speculated[SPECULATIVE_KEYS_SIZE](_ => Speculated(Key(0, 0), {}));
      num, mods := 0, {};
    }

    method FindKey(k: Key) returns (i: nat)
      requires Valid()
      ensures i == Find(keys[..num], k)
    {
      i := 0;
      while i < num
        invariant i <= num && Find(keys[..num], k) == i + Find(keys[i..num], k)
      {
        if keys[i].key == k { break; }
        assert keys[i..num][1..] == keys[i + 1..num];
        i := i + 1;
      }
    }

    /** `waiting` are the `speculated` flags of the buffered events, `wanted` is the callback's answer. */
    method KeyPress(k: Key, keycode: bv16, withinFlow: bool, waiting: seq<bool>, wanted: bool, down: Mods, oneKey: bool)
      returns (speculated: bool)
      requires Valid()
      modifies this, keys
      ensures Valid()
      ensures View() == Press(old(View()), k, Eligible(keycode, withinFlow, waiting, wanted), HoldBits(keycode),
                              down, oneKey)
      ensures speculated <==> View() != old(View())
    {
      if num >= SPECULATIVE_KEYS_SIZE { return false; }
      var i := FindKey(k);
      if i < num || withinFlow || !(0x2000 <= keycode <= 0x3fff) { return false; }
      var m := HoldBits(keycode);
      if oneKey && down + mods != {} { return false; }
      if m <= down + mods { return false; }
      for j := 0 to |waiting|
        invariant forall x :: 0 <= x < j ==> waiting[x]
      {
        if !waiting[j] { return false; }
      }
      if !wanted { return false; }
      mods := mods + m;
      keys[num] := Speculated(k, m);
      num := num + 1;
      return true;
    }

    /** Closes the gap left by entry `i`. */
    method RemoveAt(i: nat)
      requires Valid() && i < num
      modifies this`num, keys
      ensures Valid() && keys[..num] == old(keys[..num])[..i] + old(keys[..num])[i + 1..]
    {
      num := num - 1;
      for j := i to num
        invariant num == old(num) - 1
        invariant forall x :: 0 <= x < i ==> keys[x] == old(keys[x])
        invariant forall x :: i <= x < j ==> keys[x] == old(keys[x + 1])
        invariant forall x :: j <= x < SPECULATIVE_KEYS_SIZE ==> keys[x] == old(keys[x])
      {
        keys[j] := keys[j + 1];
      }
    }

    /** The modifiers of entry `from` and all that follow. */
    method Collect(from: nat) returns (cleared: Mods)
      requires Valid() && from <= num
      ensures cleared == Union(keys[from..num])
    {
      cleared := {};
      for j := from to num
        invariant cleared == Union(keys[from..j])
      {
        assert keys[from..j + 1] == keys[from..j] + [keys[j]];
        UnionConcat(keys[from..j], [keys[j]]);
        cleared := cleared + keys[j].mods;
      }
    }

    method KeySettled(k: Key, hold: bool)
      requires Valid()
      modifies this, keys
      ensures Valid() && View() == Settle(old(View()), k, hold)
    {
      if num == 0 { return; }
      var i := FindKey(k);
      if hold {
        if i < num {
          var cleared := keys[i].mods;
          RemoveAt(i);
          mods := if num > 0 then mods - cleared else {};
        }
      } else {
        if i >= num { i := 0; }
        var cleared := Collect(i);
        assert keys[i..num] == keys[..num][i..];
        num := i;
        mods := if num > 0 then mods - cleared else {};
      }
    }
  }

  // ---------- What every run keeps ----------

  ghost predicate Distinct(keys: seq<Speculated>) {
    forall i, j :: 0 <= i < j < |keys| ==> keys[i].key != keys[j].key
  }

  ghost predicate Inv(s: State) {
    |s.keys| <= SPECULATIVE_KEYS_SIZE && Distinct(s.keys) && s.mods <= Union(s.keys)
  }

  lemma {:induction false} UnionConcat(a: seq<Speculated>, b: seq<Speculated>)
    ensures Union(a + b) == Union(a) + Union(b)
  {
    if a == [] {
      assert a + b == b;
    } else {
      assert (a + b)[1..] == a[1..] + b;
      UnionConcat(a[1..], b);
    }
  }

  lemma {:induction false} PressKeeps(s: State, k: Key, eligible: bool, mods: Mods, down: Mods, oneKey: bool)
    requires Inv(s)
    ensures Inv(Press(s, k, eligible, mods, down, oneKey))
  {
    UnionConcat(s.keys, [Speculated(k, mods)]);
  }

  lemma {:induction false} UnionSplit(keys: seq<Speculated>, i: nat)
    requires i < |keys|
    ensures Union(keys) == Union(keys[..i] + keys[i + 1..]) + keys[i].mods
  {
    var before, entry, after := keys[..i], [keys[i]], keys[i + 1..];
    assert keys == before + (entry + after);
    UnionConcat(before, entry + after);
    UnionConcat(entry, after);
    UnionConcat(before, after);
    UnionOne(keys[i]);
  }

  lemma {:induction false} UnionOne(entry: Speculated)
    ensures Union([entry]) == entry.mods
  {}

  lemma {:induction false} DistinctWithout(keys: seq<Speculated>, i: nat)
    requires Distinct(keys) && i < |keys|
    ensures Distinct(keys[..i] + keys[i + 1..])
  {}

  lemma {:induction false} HoldKeeps(s: State, k: Key)
    requires Inv(s)
    ensures Inv(Settle(s, k, true))
  {
    var i := Find(s.keys, k);
    if i < |s.keys| {
      UnionSplit(s.keys, i);
      DistinctWithout(s.keys, i);
    }
  }

  lemma {:induction false} PrefixKeeps(keys: seq<Speculated>, mods: Mods, from: nat)
    requires Distinct(keys) && mods <= Union(keys) && from <= |keys|
    ensures Distinct(keys[..from]) && mods - Union(keys[from..]) <= Union(keys[..from])
  {
    assert keys == keys[..from] + keys[from..];
    UnionConcat(keys[..from], keys[from..]);
  }

  lemma {:induction false} CancelKeeps(s: State, k: Key)
    requires Inv(s)
    ensures Inv(Settle(s, k, false))
  {
    var i := Find(s.keys, k);
    if i < |s.keys| { PrefixKeeps(s.keys, s.mods, i); }
  }

  /** A settled key has no entry any more, and no key gains one. */
  lemma {:induction false} SettleRemoves(s: State, k: Key, hold: bool)
    requires Distinct(s.keys)
    ensures forall x :: x in Settle(s, k, hold).keys ==> x in s.keys && x.key != k
  {}

  datatype Happening =
    | Pressed(key: Key, eligible: bool, mods: Mods, down: Mods, oneKey: bool)
    | Settled(key: Key, hold: bool)

  function Next(s: State, x: Happening): State {
    match x
    case Pressed(k, eligible, mods, down, oneKey) => Press(s, k, eligible, mods, down, oneKey)
    case Settled(k, hold) => Settle(s, k, hold)
  }

  function Run(xs: seq<Happening>): State
    decreases |xs|
  {
    if xs == [] then INIT else Next(Run(xs[..|xs| - 1]), xs[|xs| - 1])
  }

  /** Keys pressed and not settled since. */
  ghost function Unsettled(xs: seq<Happening>): set<Key>
    decreases |xs|
  {
    if xs == [] then {} else
    var n := |xs| - 1;
    if xs[n].Pressed? then Unsettled(xs[..n]) + {xs[n].key} else Unsettled(xs[..n]) - {xs[n].key}
  }

  /**
   * No stuck modifiers, over every run: the applied modifiers all belong to live entries, live entries
   * have distinct keys and are at most eight, and only keys still waiting to be settled have one. Once
   * every pressed key is settled, no modifier is applied.
   */
  lemma {:induction false} NoStuckModifiers(xs: seq<Happening>)
    ensures Inv(Run(xs))
    ensures forall x :: x in Run(xs).keys ==> x.key in Unsettled(xs)
    ensures Unsettled(xs) == {} ==> Run(xs) == INIT
    decreases |xs|
  {
    if xs != [] {
      var n := |xs| - 1;
      var s := Run(xs[..n]);
      NoStuckModifiers(xs[..n]);
      match xs[n]
      case Pressed(k, eligible, mods, down, oneKey) => PressKeeps(s, k, eligible, mods, down, oneKey);
      case Settled(k, hold) =>
        SettleRemoves(s, k, hold);
        if hold { HoldKeeps(s, k); } else { CancelKeeps(s, k); }
    }
    if Unsettled(xs) == {} && Run(xs).keys != [] { assert Run(xs).keys[0] in Run(xs).keys; }
  }

  // ---------- What stays applied ----------

  /** A hold ends the entry of its key alone, a cancel that entry and all later ones. */
  lemma {:induction false} SettleEndsEntries(before: seq<Speculated>, x: Speculated, after: seq<Speculated>, mods: Mods)
    requires forall y :: y in before ==> y.key != x.key
    ensures var s := State(before + [x] + after, mods);
            && Settle(s, x.key, true) == State(before + after, if before + after == [] then {} else mods - x.mods)
            && Settle(s, x.key, false) ==
               State(before, if before == [] then {} else mods - (x.mods + Union(after)))
  {
    var keys := before + [x] + after;
    FindAfter(before, x, after);
    assert keys[..|before|] == before && keys[|before| + 1..] == after && keys[|before|..] == [x] + after;
    assert ([x] + after)[1..] == after;
  }

  lemma {:induction false} FindAfter(before: seq<Speculated>, x: Speculated, after: seq<Speculated>)
    requires forall y :: y in before ==> y.key != x.key
    ensures Find(before + [x] + after, x.key) == |before|
  {
    var keys := before + [x] + after;
    var i := Find(keys, x.key);
    assert keys[|before|] == x;
    assert forall j :: 0 <= j < |before| ==> keys[j] in before;
  }

  /** Settling another key: a hold of a key without an entry changes nothing, a cancel clears the table. */
  lemma {:induction false} SettleWithoutEntry(s: State, k: Key)
    requires Inv(s) && forall x :: x in s.keys ==> x.key != k
    ensures Settle(s, k, true) == s && Settle(s, k, false) == INIT
  {
    var i := Find(s.keys, k);
    assert forall j :: 0 <= j < |s.keys| ==> s.keys[j] in s.keys;
  }

  /** The modifiers of entries that a happening ends. */
  ghost function Ended(s: State, s': State): Mods {
    set x, b | x in s.keys && x !in s'.keys && b in x.mods :: b
  }

  /** The modifiers of all entries that ended since the entry of `k` was made. */
  ghost function EndedSince(xs: seq<Happening>, k: Key): Mods
    decreases |xs|
  {
    if xs == [] then {} else
    var n := |xs| - 1;
    var s, s' := Run(xs[..n]), Run(xs);
    if (exists x :: x in s.keys && x.key == k) then EndedSince(xs[..n], k) + Ended(s, s') else {}
  }

  /** One happening: what an entry that stays had applied stays applied, but for the modifiers of ended entries. */
  lemma {:induction false} StaysApplied(s: State, x: Happening, y: Speculated)
    requires Inv(s) && y in Next(s, x).keys
    ensures y in s.keys ==> y.mods * s.mods <= Next(s, x).mods + Ended(s, Next(s, x))
    ensures y !in s.keys ==> y.mods <= Next(s, x).mods
  {
    match x
    case Pressed(k, eligible, mods, down, oneKey) =>
    case Settled(k, hold) =>
      if exists e :: e in s.keys && e.key == k {
        SettledStaysApplied(s, k, hold, y);
      } else {
        SettleWithoutEntry(s, k);
      }
  }

  lemma {:induction false} SettledStaysApplied(s: State, k: Key, hold: bool, y: Speculated)
    requires Inv(s) && y in Settle(s, k, hold).keys && exists e :: e in s.keys && e.key == k
    ensures y in s.keys && y.mods * s.mods <= Settle(s, k, hold).mods + Ended(s, Settle(s, k, hold))
  {
    var i := Find(s.keys, k);
    SettleRemoves(s, k, hold);
    SettleTakesAway(s, k, hold, i);
  }

  /** What a settled key takes from the mask are modifiers of ended entries. */
  lemma {:induction false} SettleTakesAway(s: State, k: Key, hold: bool, i: nat)
    requires Inv(s) && i == Find(s.keys, k) < |s.keys| && Settle(s, k, hold).keys != []
    requires forall x :: x in Settle(s, k, hold).keys ==> x.key != k
    ensures s.mods - Settle(s, k, hold).mods <= Ended(s, Settle(s, k, hold))
  {
    var before, e, after := s.keys[..i], s.keys[i], s.keys[i + 1..];
    assert s.keys == before + [e] + after;
    SettleEndsEntries(before, e, after, s.mods);
    OwnEnds(s, Settle(s, k, hold), e);
    if !hold { LaterEnds(s, Settle(s, k, hold), i); }
  }

  lemma {:induction false} OwnEnds(s: State, s': State, e: Speculated)
    requires e in s.keys && e !in s'.keys
    ensures e.mods <= Ended(s, s')
  {}

  lemma {:induction false} LaterEnds(s: State, s': State, i: nat)
    requires Distinct(s.keys) && i < |s.keys| && s'.keys == s.keys[..i]
    ensures Union(s.keys[i + 1..]) <= Ended(s, s')
  {
    forall z | z in s.keys[i + 1..] ensures z.mods <= Ended(s, s') { LaterIsGone(s, s', i, z); }
    UnionWithin(s.keys[i + 1..], Ended(s, s'));
  }

  lemma {:induction false} LaterIsGone(s: State, s': State, i: nat, z: Speculated)
    requires Distinct(s.keys) && i < |s.keys| && s'.keys == s.keys[..i] && z in s.keys[i + 1..]
    ensures z.mods <= Ended(s, s')
  {
    var j :| 0 <= j < |s.keys[i + 1..]| && s.keys[i + 1..][j] == z;
    assert s.keys[i + 1 + j] == z;
    assert forall m :: 0 <= m < i ==> s.keys[m].key != z.key;
  }

  lemma {:induction false} UnionWithin(keys: seq<Speculated>, bound: Mods)
    requires forall z :: z in keys ==> z.mods <= bound
    ensures Union(keys) <= bound
  {
    if keys != [] {
      assert keys[0] in keys;
      UnionWithin(keys[1..], bound);
    }
  }

  /**
   * The other half, over every run: every modifier of a live entry is applied, but for those of entries that
   * ended after it was made.
   */
  lemma {:induction false} AppliedUnlessEnded(xs: seq<Happening>, y: Speculated)
    requires y in Run(xs).keys
    ensures y.mods <= Run(xs).mods + EndedSince(xs, y.key)
    decreases |xs|
  {
    var n := |xs| - 1;
    var s := Run(xs[..n]);
    NoStuckModifiers(xs[..n]);
    StaysApplied(s, xs[n], y);
    if y in s.keys {
      AppliedUnlessEnded(xs[..n], y);
      CarryOn(y.mods, s.mods, EndedSince(xs[..n], y.key), Run(xs).mods, Ended(s, Run(xs)));
    }
  }

  lemma {:induction false} CarryOn(mods: Mods, applied: Mods, ended: Mods, applied': Mods, more: Mods)
    requires mods <= applied + ended && mods * applied <= applied' + more
    ensures mods <= applied' + (ended + more)
  {
    forall b | b in mods ensures b in applied' + (ended + more) {
      if b in applied { assert b in mods * applied; }
    }
  }

  /** No two live entries share a modifier. */
  ghost predicate Apart(keys: seq<Speculated>) {
    forall i, j :: 0 <= i < j < |keys| ==> keys[i].mods !! keys[j].mods
  }

  ghost predicate AlwaysApart(xs: seq<Happening>)
    decreases |xs|
  {
    Apart(Run(xs).keys) && (xs == [] || AlwaysApart(xs[..|xs| - 1]))
  }

  lemma {:induction false} ApartUnion(keys: seq<Speculated>, x: Speculated)
    requires forall y :: y in keys ==> y.mods !! x.mods
    ensures Union(keys) !! x.mods
  {
    if keys != [] {
      assert keys[0] in keys;
      ApartUnion(keys[1..], x);
    }
  }

  lemma {:induction false} ApartSplit(before: seq<Speculated>, after: seq<Speculated>)
    requires Apart(before + after)
    ensures Union(before) !! Union(after)
  {
    if after != [] {
      var keys := before + after;
      assert before + after[..|after| - 1] == keys[..|keys| - 1];
      ApartSplit(before, after[..|after| - 1]);
      var x := after[|after| - 1];
      assert after == after[..|after| - 1] + [x];
      UnionConcat(after[..|after| - 1], [x]);
      UnionOne(x);
      assert x == keys[|keys| - 1];
      forall y | y in before ensures y.mods !! x.mods {
        var i :| 0 <= i < |before| && before[i] == y;
        assert keys[i] == y;
      }
      ApartUnion(before, x);
    }
  }

  lemma {:induction false} ApartAround(before: seq<Speculated>, x: Speculated, after: seq<Speculated>)
    requires Apart(before + [x] + after)
    ensures Union(before + [x] + after) == Union(before) + (x.mods + Union(after))
    ensures Union(before + after) == Union(before) + Union(after)
    ensures Union(before) !! (x.mods + Union(after)) && x.mods !! Union(after)
  {
    var keys := before + [x] + after;
    assert keys == before + ([x] + after) && ([x] + after)[1..] == after;
    UnionConcat(before, [x] + after);
    UnionConcat(before, after);
    ApartSplit(before, [x] + after);
    forall y | y in after ensures y.mods !! x.mods { ApartPair(before, x, after, y); }
    ApartUnion(after, x);
  }

  lemma {:induction false} ApartPair(before: seq<Speculated>, x: Speculated, after: seq<Speculated>, y: Speculated)
    requires Apart(before + [x] + after) && y in after
    ensures y.mods !! x.mods
  {
    var keys := before + [x] + after;
    var j :| 0 <= j < |after| && after[j] == y;
    assert keys[|before|] == x && keys[|before| + 1 + j] == y;
  }

  lemma {:induction false} TakeAway(a: Mods, b: Mods, c: Mods)
    requires a !! (b + c) && b !! c
    ensures (a + (b + c)) - b == a + c && (a + (b + c)) - (b + c) == a
  {}

  /** One settled key among entries that share nothing: the mask is again what the live entries say. */
  lemma {:induction false} SettleExact(before: seq<Speculated>, x: Speculated, after: seq<Speculated>, hold: bool)
    requires forall y :: y in before ==> y.key != x.key
    requires Apart(before + [x] + after)
    ensures var s := State(before + [x] + after, Union(before + [x] + after));
            Settle(s, x.key, hold).mods == Union(Settle(s, x.key, hold).keys)
  {
    SettleEndsEntries(before, x, after, Union(before + [x] + after));
    ApartAround(before, x, after);
    TakeAway(Union(before), x.mods, Union(after));
  }

  lemma {:induction false} NextExact(s: State, x: Happening)
    requires Inv(s) && Apart(s.keys) && s.mods == Union(s.keys)
    ensures Next(s, x).mods == Union(Next(s, x).keys)
  {
    match x
    case Pressed(k, eligible, mods, down, oneKey) =>
      UnionConcat(s.keys, [Speculated(k, mods)]);
      UnionOne(Speculated(k, mods));
    case Settled(k, hold) =>
      var i := Find(s.keys, k);
      if i < |s.keys| {
        assert s.keys == s.keys[..i] + [s.keys[i]] + s.keys[i + 1..];
        SettleExact(s.keys[..i], s.keys[i], s.keys[i + 1..], hold);
      }
  }

  /** While live entries share no modifier, exactly their modifiers are applied. */
  lemma {:induction false} AppliedExactly(xs: seq<Happening>)
    requires AlwaysApart(xs)
    ensures Run(xs).mods == Union(Run(xs).keys)
    decreases |xs|
  {
    if xs != [] {
      AppliedExactly(xs[..|xs| - 1]);
      NoStuckModifiers(xs[..|xs| - 1]);
      NextExact(Run(xs[..|xs| - 1]), xs[|xs| - 1]);
    }
  }

  // ---------- What a press applies ----------

  /**
   * An eligible press of a new key leaves all its modifiers in effect, held or applied ahead, unless the table
   * is full or the one-key build finds a modifier in effect; any other press changes nothing.
   */
  lemma {:induction false} PressApplies(s: State, k: Key, eligible: bool, mods: Mods, down: Mods, oneKey: bool)
    requires Inv(s)
    ensures var s' := Press(s, k, eligible, mods, down, oneKey);
            var open := |s.keys| < 8 && !(oneKey && down + s.mods != {}) && forall x :: x in s.keys ==> x.key != k;
            && (eligible && open ==> mods <= down + s'.mods)
            && (!(eligible && open) || mods <= down + s.mods ==> s' == s)
            && s'.mods <= s.mods + mods && s.mods <= s'.mods && s.keys <= s'.keys
  {
    assert forall j :: 0 <= j < |s.keys| ==> s.keys[j] in s.keys;
  }

  ghost predicate OneKeyBuild(xs: seq<Happening>) {
    forall x :: x in xs && x.Pressed? ==> x.oneKey
  }

  /** In the one-key build at most one key is speculated at a time. */
  lemma {:induction false} OneKeyAtATime(xs: seq<Happening>)
    requires OneKeyBuild(xs)
    ensures |Run(xs).keys| <= 1 && Run(xs).mods == Union(Run(xs).keys) && (Run(xs).keys != [] ==> Run(xs).mods != {})
    decreases |xs|
  {
    if xs != [] {
      var n := |xs| - 1;
      assert xs[n] in xs;
      OneKeyAtATime(xs[..n]);
      NoStuckModifiers(xs[..n]);
      OneKeyStep(Run(xs[..n]), xs[n]);
    }
  }

  lemma {:induction false} OneKeyStep(s: State, x: Happening)
    requires Inv(s) && |s.keys| <= 1 && s.mods == Union(s.keys) && (s.keys != [] ==> s.mods != {})
    requires x.Pressed? ==> x.oneKey
    ensures var s' := Next(s, x); |s'.keys| <= 1 && s'.mods == Union(s'.keys) && (s'.keys != [] ==> s'.mods != {})
  {
    NextExact(s, x);
    if x.Settled? && s.keys != [] {
      SettleRemoves(s, x.key, x.hold);
    }
  }
}
