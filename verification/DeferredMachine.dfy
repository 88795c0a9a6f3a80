/** quantum/deferred_exec.c as it stands, over a table that is updated in place. */
module DeferredMachine {
  import opened Deferred

  class Scheduler {
    var currentToken: nat

    constructor ()
      ensures currentToken == 0
    {
      currentToken := 0;
    }

    ghost function View(table: array<Executor>): State
      reads this, table
    {
      State(currentToken, table[..])
    }

    method TokenCanBeUsed(table: array<Executor>, token: nat) returns (ok: bool)
      ensures ok == Usable(table[..], token)
    {
      if token == 0 { return false; }
      for i := 0 to table.Length
        invariant forall j :: 0 <= j < i ==> table[j].token != token
      {
        if table[i].token == token {
          assert table[..][i].token == token;
          return false;
        }
      }
      return true;
    }

    /** `n` tokens after `first`, going round. */
    static function Around(first: nat, n: nat): nat {
      (first + n) % TOKENS
    }

    static lemma {:induction false} GoesAround(first: nat, n: nat)
      requires first < TOKENS && n < TOKENS
      ensures Around(first, 0) == first
      ensures (Around(first, n) + 1) % TOKENS == Around(first, n + 1)
      ensures Around(first, n + 1) == first <==> n + 1 == TOKENS
    {}

    method AllocateToken(table: array<Executor>) returns (token: nat)
      modifies this
      ensures token == Search(table[..], (old(currentToken) + 1) % TOKENS, TOKENS - 1)
      ensures currentToken == if token == 0 then (old(currentToken) + 1) % TOKENS else token
    {
      var first := (currentToken + 1) % TOKENS;
      currentToken := first;
      ghost var n := 0;
      while true
        invariant n < TOKENS && currentToken == Around(first, n)
        invariant Search(table[..], first, TOKENS - 1) == Search(table[..], currentToken, TOKENS - 1 - n)
        decreases TOKENS - n
      {
        GoesAround(first, n);
        var ok := TokenCanBeUsed(table, currentToken);
        if ok { return currentToken; }
        currentToken := (currentToken + 1) % TOKENS;
        n := n + 1;
        if currentToken == first { return 0; }
      }
    }

    method FindFree(table: array<Executor>) returns (i: nat)
      ensures i == FirstFree(table[..])
    {
      i := 0;
      while i < table.Length && table[i].token != 0
        invariant i <= table.Length && FirstFree(table[..]) == i + FirstFree(table[i..])
      {
        assert table[i..][1..] == table[i + 1..];
        i := i + 1;
      }
    }

    method Find(table: array<Executor>, token: nat) returns (i: nat)
      ensures i == Lookup(table[..], token)
    {
      i := 0;
      while i < table.Length && table[i].token != token
        invariant i <= table.Length && Lookup(table[..], token) == i + Lookup(table[i..], token)
      {
        assert table[i..][1..] == table[i + 1..];
        i := i + 1;
      }
    }

    method DeferExecAdvanced(table: array<Executor>, now: nat, delay: nat, callback: nat, arg: nat) returns (token: nat)
      modifies this, table
      ensures (View(table), token) == DeferExec(old(View(table)), now, delay, callback, arg)
    {
      if table.Length == 0 || delay == 0 || callback == 0 { return 0; }
      var i := FindFree(table);
      if i == table.Length { return 0; }
      token := AllocateToken(table);
      if token == 0 { return 0; }
      table[i] := Executor(currentToken, (now + delay) % WRAP, callback, arg);
    }

    method ExtendDeferredExecAdvanced(table: array<Executor>, now: nat, token: nat, delay: nat) returns (ok: bool)
      modifies table
      ensures (View(table), ok) == ExtendExec(old(View(table)), now, token, delay)
    {
      if table.Length == 0 || delay == 0 || token == 0 { return false; }
      var i := Find(table, token);
      if i == table.Length { return false; }
      table[i] := table[i].(trigger := (now + delay) % WRAP);
      return true;
    }

    method CancelDeferredExecAdvanced(table: array<Executor>, token: nat) returns (ok: bool)
      modifies table
      ensures (View(table), ok) == CancelExec(old(View(table)), token)
    {
      if table.Length == 0 || token == 0 { return false; }
      var i := Find(table, token);
      if i == table.Length { return false; }
      table[i] := FREE;
      return true;
    }

    /** What a callback asks for while it runs. */
    method Serve(table: array<Executor>, requests: seq<Request>)
      modifies this, table
      ensures View(table) == ApplyAll(old(View(table)), requests)
    {
      ghost var s := View(table);
      for k := 0 to |requests|
        invariant ApplyAll(s, requests) == ApplyAll(View(table), requests[k..])
      {
        assert requests[k..][0] == requests[k] && requests[k..][1..] == requests[k + 1..];
        match requests[k]
        case Defer(now, delay, callback, arg) => var _ := DeferExecAdvanced(table, now, delay, callback, arg);
        case Extend(now, token, delay) => var _ := ExtendDeferredExecAdvanced(table, now, token, delay);
        case Cancel(token) => var _ := CancelDeferredExecAdvanced(table, token);
        case Elsewhere(current) => currentToken := current % TOKENS;
      }
    }

    method RunEntry(table: array<Executor>, now: nat, act: Behaviour, i: nat,
                    calls: seq<Call>) returns (calls': seq<Call>)
      requires i < table.Length
      modifies this, table
      ensures Progress(View(table), calls') == RunSlot(Progress(old(View(table)), calls), now, act, i)
    {
      calls' := calls;
      var entry := table[i];
      if entry.token != 0 && SignedDiff(entry.trigger, now) <= 0 {
        var reaction := act(entry, calls);
        calls' := calls + [Call(i, entry)];
        Serve(table, reaction.requests);
        if table[i].token == entry.token {
          if reaction.delay > 0 {
            table[i] := table[i].(trigger := (table[i].trigger + reaction.delay) % WRAP);
          } else {
            table[i] := FREE;
          }
        }
      }
    }

    method DeferredExecAdvancedTask(table: array<Executor>, now: nat, last: nat, act: Behaviour, calls: seq<Call>)
        returns (last': nat, calls': seq<Call>)
      modifies this, table
      ensures (Progress(View(table), calls'), last') == Task(Progress(old(View(table)), calls), now, last, act)
    {
      last', calls' := last, calls;
      if SignedDiff(now, last) > 0 {
        last' := now;
        ghost var p := Progress(View(table), calls);
        for i := 0 to table.Length
          invariant Progress(View(table), calls') == RunSlots(p, now, act, i)
        {
          calls' := RunEntry(table, now, act, i, calls');
        }
      }
    }
  }
}
