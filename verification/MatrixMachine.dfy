/** The matrix task and the wakeup handling as they stand: row arrays changed in place. */
module MatrixMachine {
  import opened Ghosting
  import opened Matrix

  // ---------- Waking up ----------

  function Or(x: Row, y: Row): (z: Row)
    requires |x| == |y|
    ensures |z| == |x| && forall i :: 0 <= i < |x| ==> z[i] == (x[i] || y[i])
  {
    seq(|x|, i requires 0 <= i < |x| => x[i] || y[i])
  }

  function AndNot(x: Row, y: Row): (z: Row)
    requires |x| == |y|
    ensures |z| == |x| && forall i :: 0 <= i < |x| ==> z[i] == (x[i] && !y[i])
  {
    seq(|x|, i requires 0 <= i < |x| => x[i] && !y[i])
  }

  /** The scan that woke the host marks its keys; a later scan adds keys pressed since. */
  ghost predicate WokenUp(b: Board, before: State, waking: seq<Row>, settled: seq<Row>, after: State)
    requires Fits(b, before) && Fits(b, after) && Rectangular(waking, b.rows, b.cols) &&
             Rectangular(settled, b.rows, b.cols)
  {
    && after.events == before.events
    && forall r, c :: 0 <= r < b.rows && 0 <= c < b.cols ==>
         && after.wake[r][c] == (waking[r][c] || (settled[r][c] && !before.prev[r][c]))
         && after.prev[r][c] == (before.prev[r][c] || settled[r][c])
  }

  class Keyboard {
    const board: Board
    const prev: array<Row>
    const wake: array<Row>
    var events: seq<KeyEvent>

    ghost predicate Valid()
      reads prev, wake
    {
      BoardOk(board) && prev != wake && Fits(board, State(prev[..], wake[..], []))
    }

    ghost function View(): State
      reads this, prev, wake
    {
      State(prev[..], wake[..], events)
    }

    constructor (board: Board)
      requires BoardOk(board)
      ensures Valid() && this.board == board && fresh(prev) && fresh(wake) && events == []
    {
      this.board := board;
      prev := new Row[board.rows](_ => seq(board.cols, _ => false));
      wake := new Row[board.rows](_ => seq(board.cols, _ => false));
      events := [];
    }

    method KeypressIsWakeupKey(r: nat, c: nat) returns (b: bool)
      requires Valid() && r < board.rows && c < board.cols
      ensures b == wake[r][c]
    {
      b := wake[r][c];
    }

    method WakeupMatrixHandleKeyEvent(r: nat, c: nat, pressed: bool)
      requires Valid() && r < board.rows && c < board.cols
      modifies wake
      ensures Valid() && wake[..] == if pressed then old(wake[..]) else old(wake[..])[r := old(wake[r])[c := false]]
    {
      if !pressed { wake[r] := wake[r][c := false]; }
    }

    method ProcessRow(r: nat, now: Row, process: bool)
      requires Valid() && r < board.rows && |now| == board.cols
      modifies this`events, wake
      ensures Valid() && View() == TaskCols(board, old(View()), r, now, board.cols, process)
    {
      ghost var s := View();
      for c := 0 to board.cols
        invariant Valid() && View() == TaskCols(board, s, r, now, c, process)
      {
        if now[c] != prev[r][c] {
          if process {
            var woke := KeypressIsWakeupKey(r, c);
            if !woke { events := events + [KeyEvent(r, c, now[c])]; }
          }
          WakeupMatrixHandleKeyEvent(r, c, now[c]);
        }
      }
    }

    method MatrixTask(scan: seq<Row>, canRead: bool, process: bool) returns (changed: bool)
      requires Valid() && Rectangular(scan, board.rows, board.cols)
      modifies this`events, prev, wake
      ensures Valid()
      ensures changed <==> canRead && scan != old(prev[..])
      ensures View() == if canRead then TaskRows(board, old(View()), scan, board.rows, process) else old(View())
    {
      if !canRead { return false; }
      changed := false;
      for r := 0 to board.rows
        invariant changed <==> exists i :: 0 <= i < r && prev[i] != scan[i]
      {
        if prev[r] != scan[r] { changed := true; }
      }
      ghost var s := View();
      if !changed {
        assert prev[..] == scan;
        NothingChanged(board, s, scan, board.rows, process);
        return;
      }
      for r := 0 to board.rows
        invariant Valid() && View() == TaskRows(board, s, scan, r, process)
      {
        var ghosted := HasGhostInRow(scan, board.keys, board.rows, board.cols, r);
        if prev[r] != scan[r] && !ghosted {
          ProcessRow(r, scan[r], process);
          prev[r] := scan[r];
        }
      }
    }

    method SuspendWakeupCondition(scan: seq<Row>) returns (wakeup: bool)
      requires Valid() && Rectangular(scan, board.rows, board.cols)
      modifies wake
      ensures Valid() && wake[..] == scan
      ensures wakeup <==> exists r :: 0 <= r < board.rows && NonZero(scan[r])
    {
      wakeup := false;
      for r := 0 to board.rows
        invariant Valid() && forall i :: 0 <= i < r ==> wake[i] == scan[i]
        invariant wakeup <==> exists i :: 0 <= i < r && NonZero(scan[i])
      {
        wake[r] := scan[r];
        wakeup := wakeup || NonZero(scan[r]);
      }
    }

    method UpdateMatrixStateAfterWakeup(scan: seq<Row>)
      requires Valid() && Rectangular(scan, board.rows, board.cols)
      modifies prev, wake
      ensures Valid() && WokenUp(board, old(View()), old(wake[..]), scan, View())
    {
      for r := 0 to board.rows
        invariant Valid()
        invariant forall i :: r <= i < board.rows ==> prev[i] == old(prev[i]) && wake[i] == old(wake[i])
        invariant forall i :: 0 <= i < r ==> prev[i] == Or(old(prev[i]), scan[i])
        invariant forall i :: 0 <= i < r ==> wake[i] == Or(old(wake[i]), AndNot(scan[i], old(prev[i])))
      {
        wake[r] := Or(wake[r], AndNot(scan[r], prev[r]));
        prev[r] := Or(prev[r], scan[r]);
      }
    }
  }

  lemma {:induction false} NothingChanged(b: Board, s: State, scan: seq<Row>, n: nat, process: bool)
    requires BoardOk(b) && Fits(b, s) && n <= b.rows && Rectangular(scan, b.rows, b.cols) && s.prev == scan
    ensures TaskRows(b, s, scan, n, process) == s
  {
    if n > 0 { NothingChanged(b, s, scan, n - 1, process); }
  }

  /**
   * A key held down while the host was woken up: whatever scans follow, nothing is delivered for it
   * before a release of it was recorded, and what is delivered then strictly alternates, a press first.
   */
  lemma {:induction false} WakeupKeysStartWithPress(b: Board, before: State, waking: seq<Row>, settled: seq<Row>,
                                                    after: State, scans: seq<seq<Row>>, r: nat, c: nat)
    requires Scans(b, scans) && Fits(b, before) && Fits(b, after)
    requires Rectangular(waking, b.rows, b.cols) && Rectangular(settled, b.rows, b.cols)
    requires WokenUp(b, before, waking, settled, after) && before.events == []
    requires r < b.rows && c < b.cols
    requires waking[r][c] || (settled[r][c] && !before.prev[r][c])
    ensures var k := ViewOf(b, Run(b, after, scans, true), r, c);
            var changes := Changes(b, before.prev[r][c] || settled[r][c], scans, r, c);
            && (!ReleaseSeen(changes) ==> k.wake && k.sent == [])
            && k.sent == AfterRelease(changes)
            && (k.sent != [] ==> k.sent[0]) && Alternates(k.sent)
  {
    EventsAlternate(b, after, scans, r, c);
  }
}
