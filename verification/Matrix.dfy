/**
 * Matrix differencing in quantum/keyboard.c together with wakeup-key suppression in
 * platforms/suspend.c: from scans to key events.
 */
module Matrix {
  import opened Ghosting

  datatype KeyEvent = KeyEvent(row: nat, col: nat, pressed: bool)

  /** `matrix_previous`, `wakeup_matrix` and the events delivered so far. */
  datatype State = State(prev: seq<Row>, wake: seq<Row>, events: seq<KeyEvent>)

  /** The fixed part: matrix size and the keys the keymap defines. */
  datatype Board = Board(rows: nat, cols: nat, keys: seq<Row>)

  ghost predicate BoardOk(b: Board) {
    Rectangular(b.keys, b.rows, b.cols)
  }

  ghost predicate Fits(b: Board, s: State) {
    Rectangular(s.prev, b.rows, b.cols) && Rectangular(s.wake, b.rows, b.cols)
  }

  // ---------- One scan ----------

  /** A changed key: delivered unless it woke the host, and a release ends its being a wakeup key. */
  ghost function Touch(b: Board, s: State, r: nat, c: nat, pressed: bool, process: bool): (s': State)
    requires Fits(b, s) && r < b.rows && c < b.cols
    ensures Fits(b, s') && s'.prev == s.prev
  {
    var events := if process && !s.wake[r][c] then s.events + [KeyEvent(r, c, pressed)] else s.events;
    s.(events := events, wake := if pressed then s.wake else s.wake[r := s.wake[r][c := false]])
  }

  /** The columns below `n` of one row. */
  ghost function TaskCols(b: Board, s: State, r: nat, now: Row, n: nat, process: bool): (s': State)
    requires Fits(b, s) && r < b.rows && n <= b.cols == |now|
    ensures Fits(b, s') && s'.prev == s.prev
  {
    if n == 0 then s else
    var s1 := TaskCols(b, s, r, now, n - 1, process);
    if now[n - 1] != s.prev[r][n - 1] then Touch(b, s1, r, n - 1, now[n - 1], process) else s1
  }

  ghost function TaskRow(b: Board, s: State, scan: seq<Row>, r: nat, process: bool): (s': State)
    requires BoardOk(b) && Fits(b, s) && Rectangular(scan, b.rows, b.cols) && r < b.rows
    ensures Fits(b, s')
  {
    if scan[r] == s.prev[r] || Ghosted(scan, b.keys, b.rows, b.cols, r) then s else
    var s1 := TaskCols(b, s, r, scan[r], b.cols, process);
    s1.(prev := s1.prev[r := scan[r]])
  }

  /** The rows below `n`; `matrix_task` does them all. */
  ghost function TaskRows(b: Board, s: State, scan: seq<Row>, n: nat, process: bool): (s': State)
    requires BoardOk(b) && Fits(b, s) && Rectangular(scan, b.rows, b.cols) && n <= b.rows
    ensures Fits(b, s')
  {
    if n == 0 then s else TaskRow(b, TaskRows(b, s, scan, n - 1, process), scan, n - 1, process)
  }

  // ---------- One key on its own ----------

  /** What concerns one key: its bit in `matrix_previous`, its wakeup bit, the presses and releases delivered. */
  datatype KeyView = KeyView(prev: bool, wake: bool, sent: seq<bool>)

  ghost function SentTo(events: seq<KeyEvent>, r: nat, c: nat): seq<bool> {
    if events == [] then [] else
    var n := |events| - 1;
    SentTo(events[..n], r, c) + if events[n].row == r && events[n].col == c then [events[n].pressed] else []
  }

  ghost function ViewOf(b: Board, s: State, r: nat, c: nat): KeyView
    requires Fits(b, s) && r < b.rows && c < b.cols
  {
    KeyView(s.prev[r][c], s.wake[r][c], SentTo(s.events, r, c))
  }

  /** The whole task, as this key sees it. */
  ghost function KeyStep(k: KeyView, now: bool, ghosted: bool, process: bool): KeyView {
    if ghosted || now == k.prev then k
    else KeyView(now, k.wake && now, if process && !k.wake then k.sent + [now] else k.sent)
  }

  /** A change of the key itself, before the row is recorded. */
  ghost function Touched(k: KeyView, pressed: bool, process: bool): KeyView {
    KeyView(k.prev, k.wake && pressed, if process && !k.wake then k.sent + [pressed] else k.sent)
  }

  /** One more column, as one key sees it. */
  lemma {:induction false} ColView(b: Board, s: State, r: nat, now: Row, n: nat, process: bool, r': nat, c': nat)
    requires Fits(b, s) && r < b.rows && 0 < n <= b.cols == |now| && r' < b.rows && c' < b.cols
    ensures var v1 := ViewOf(b, TaskCols(b, s, r, now, n - 1, process), r', c');
            ViewOf(b, TaskCols(b, s, r, now, n, process), r', c') ==
            if r == r' && c' == n - 1 && now[c'] != s.prev[r'][c'] then Touched(v1, now[c'], process) else v1
  {}

  /** After the columns below `n`, a key of the row has been touched if it is one of them and changed. */
  lemma {:induction false} ColsView(b: Board, s: State, r: nat, now: Row, n: nat, process: bool, r': nat, c': nat)
    requires Fits(b, s) && r < b.rows && n <= b.cols == |now| && r' < b.rows && c' < b.cols
    ensures ViewOf(b, TaskCols(b, s, r, now, n, process), r', c') ==
            var v := ViewOf(b, s, r', c');
            if r == r' && c' < n && now[c'] != v.prev then Touched(v, now[c'], process) else v
  {
    if n > 0 {
      ColsView(b, s, r, now, n - 1, process, r', c');
      ColView(b, s, r, now, n, process, r', c');
    }
  }

  lemma {:induction false} RowView(b: Board, s: State, scan: seq<Row>, r: nat, process: bool, r': nat, c': nat)
    requires BoardOk(b) && Fits(b, s) && Rectangular(scan, b.rows, b.cols) && r < b.rows && r' < b.rows && c' < b.cols
    ensures var v, v' := ViewOf(b, s, r', c'), ViewOf(b, TaskRow(b, s, scan, r, process), r', c');
            v' == if r == r' then KeyStep(v, scan[r][c'], Ghosted(scan, b.keys, b.rows, b.cols, r), process) else v
  {
    ColsView(b, s, r, scan[r], b.cols, process, r', c');
  }

  /** Every key of the matrix runs its own little machine, untouched by the others. */
  lemma {:induction false} TaskView(b: Board, s: State, scan: seq<Row>, n: nat, process: bool, r: nat, c: nat)
    requires BoardOk(b) && Fits(b, s) && Rectangular(scan, b.rows, b.cols) && n <= b.rows && r < b.rows && c < b.cols
    ensures var v, v' := ViewOf(b, s, r, c), ViewOf(b, TaskRows(b, s, scan, n, process), r, c);
            v' == if r < n then KeyStep(v, scan[r][c], Ghosted(scan, b.keys, b.rows, b.cols, r), process) else v
  {
    if n > 0 {
      TaskView(b, s, scan, n - 1, process, r, c);
      RowView(b, TaskRows(b, s, scan, n - 1, process), scan, n - 1, process, r, c);
    }
  }

  // ---------- Every run ----------

  ghost function Run(b: Board, s: State, scans: seq<seq<Row>>, process: bool): (s': State)
    requires BoardOk(b) && Fits(b, s) && forall i :: 0 <= i < |scans| ==> Rectangular(scans[i], b.rows, b.cols)
    ensures Fits(b, s')
    decreases |scans|
  {
    if scans == [] then s else
    var n := |scans| - 1;
    TaskRows(b, Run(b, s, scans[..n], process), scans[n], b.rows, process)
  }

  ghost predicate Alternates(sent: seq<bool>) {
    forall i :: 0 < i < |sent| ==> sent[i] != sent[i - 1]
  }

  /** What one key may have delivered since a state in which its bits were `prev` and `wake`. */
  ghost predicate WellDelivered(prev: bool, wake: bool, k: KeyView) {
    var idle := if wake then false else prev;
    && Alternates(k.sent)
    && (k.wake ==> wake && k.sent == [])
    && (!k.wake && k.sent == [] ==> k.prev == idle)
    && (k.sent != [] ==> !k.wake && k.sent[0] == !idle && k.sent[|k.sent| - 1] == k.prev)
  }

  lemma {:induction false} StepDelivers(prev: bool, wake: bool, k: KeyView, now: bool, ghosted: bool)
    requires WellDelivered(prev, wake, k)
    ensures WellDelivered(prev, wake, KeyStep(k, now, ghosted, true))
  {}

  // ---------- What the scans say, without the machine ----------

  ghost predicate Scans(b: Board, scans: seq<seq<Row>>) {
    BoardOk(b) && forall i :: 0 <= i < |scans| ==> Rectangular(scans[i], b.rows, b.cols)
  }

  /** The key's last reading outside a ghosted row, `prev` if there is none. */
  ghost function Recorded(b: Board, prev: bool, scans: seq<seq<Row>>, r: nat, c: nat): bool
    requires Scans(b, scans) && r < b.rows && c < b.cols
    decreases |scans|
  {
    if scans == [] then prev else
    var n := |scans| - 1;
    if Ghosted(scans[n], b.keys, b.rows, b.cols, r) then Recorded(b, prev, scans[..n], r, c) else scans[n][r][c]
  }

  /** The changes of that reading, in order: presses and releases. */
  ghost function Changes(b: Board, prev: bool, scans: seq<seq<Row>>, r: nat, c: nat): seq<bool>
    requires Scans(b, scans) && r < b.rows && c < b.cols
    decreases |scans|
  {
    if scans == [] then [] else
    var n := |scans| - 1;
    var before, now := Recorded(b, prev, scans[..n], r, c), Recorded(b, prev, scans, r, c);
    Changes(b, prev, scans[..n], r, c) + if now != before then [now] else []
  }

  ghost predicate ReleaseSeen(changes: seq<bool>) { false in changes }

  /** What follows the first release. */
  ghost function AfterRelease(changes: seq<bool>): seq<bool> {
    if changes == [] then [] else if !changes[0] then changes[1..] else AfterRelease(changes[1..])
  }

  lemma {:induction false} OneMoreChange(cs: seq<bool>, x: bool)
    ensures AfterRelease(cs + [x]) == if ReleaseSeen(cs) then AfterRelease(cs) + [x] else []
    ensures !ReleaseSeen(cs) ==> AfterRelease(cs) == []
    ensures ReleaseSeen(cs + [x]) <==> ReleaseSeen(cs) || !x
  {
    assert (cs + [x])[|cs|] == x;
    if cs == [] {
      assert ([] + [x])[1..] == [];
    } else {
      assert (cs + [x])[1..] == cs[1..] + [x];
      if cs[0] { OneMoreChange(cs[1..], x); }
    }
  }

  /** The key's state and its delivered events, read off the scans alone. */
  ghost function Expected(b: Board, prev: bool, wake: bool, scans: seq<seq<Row>>, r: nat, c: nat): KeyView
    requires Scans(b, scans) && r < b.rows && c < b.cols
  {
    var cs := Changes(b, prev, scans, r, c);
    KeyView(Recorded(b, prev, scans, r, c), wake && !ReleaseSeen(cs), if wake then AfterRelease(cs) else cs)
  }

  lemma {:induction false} ExpectedStep(b: Board, prev: bool, wake: bool, scans: seq<seq<Row>>, r: nat, c: nat)
    requires Scans(b, scans) && scans != [] && r < b.rows && c < b.cols
    ensures var n := |scans| - 1;
            Expected(b, prev, wake, scans, r, c) ==
            KeyStep(Expected(b, prev, wake, scans[..n], r, c), scans[n][r][c],
                    Ghosted(scans[n], b.keys, b.rows, b.cols, r), true)
  {
    var n := |scans| - 1;
    var cs := Changes(b, prev, scans[..n], r, c);
    OneMoreChange(cs, scans[n][r][c]);
    assert cs + [] == cs;
  }

  /**
   * After a wakeup and any number of scans, ghosted or not, exactly the recorded changes of each key are
   * delivered, of a wakeup key those after its first release. So each key's events strictly alternate; a
   * wakeup key delivers nothing until a release of it was recorded and then starts with a press; any other
   * key starts opposite to its recorded state.
   */
  lemma {:induction false} EventsAlternate(b: Board, s: State, scans: seq<seq<Row>>, r: nat, c: nat)
    requires Scans(b, scans) && Fits(b, s) && r < b.rows && c < b.cols && s.events == []
    ensures var k := ViewOf(b, Run(b, s, scans, true), r, c);
            && k == Expected(b, s.prev[r][c], s.wake[r][c], scans, r, c)
            && WellDelivered(s.prev[r][c], s.wake[r][c], k)
            && (s.wake[r][c] && !ReleaseSeen(Changes(b, s.prev[r][c], scans, r, c)) ==> k.wake && k.sent == [])
    decreases |scans|
  {
    var prev, wake := s.prev[r][c], s.wake[r][c];
    if scans != [] {
      var n := |scans| - 1;
      EventsAlternate(b, s, scans[..n], r, c);
      var s1 := Run(b, s, scans[..n], true);
      TaskView(b, s1, scans[n], b.rows, true, r, c);
      ExpectedStep(b, prev, wake, scans, r, c);
      StepDelivers(prev, wake, ViewOf(b, s1, r, c), scans[n][r][c], Ghosted(scans[n], b.keys, b.rows, b.cols, r));
    }
    OneMoreChange(Changes(b, prev, scans, r, c), true);
  }

  // ---------- The order within a scan ----------

  ghost predicate Earlier(x: KeyEvent, y: KeyEvent) {
    x.row < y.row || (x.row == y.row && x.col < y.col)
  }

  ghost predicate InScanOrder(es: seq<KeyEvent>) {
    forall i, j :: 0 <= i < j < |es| ==> Earlier(es[i], es[j])
  }

  /** Events `es` were added, in order, all in row `r` and below column `n`. */
  ghost predicate AddedInRow(s: State, s': State, es: seq<KeyEvent>, r: nat, n: nat) {
    s'.events == s.events + es && InScanOrder(es) && forall e :: e in es ==> e.row == r && e.col < n
  }

  lemma {:induction false} ColsInOrder(b: Board, s: State, r: nat, now: Row, n: nat, process: bool)
    returns (es: seq<KeyEvent>)
    requires Fits(b, s) && r < b.rows && n <= b.cols == |now|
    ensures AddedInRow(s, TaskCols(b, s, r, now, n, process), es, r, n)
  {
    if n == 0 {
      es := [];
    } else {
      es := ColsInOrder(b, s, r, now, n - 1, process);
      var s1 := TaskCols(b, s, r, now, n - 1, process);
      if now[n - 1] != s.prev[r][n - 1] && process && !s1.wake[r][n - 1] {
        es := es + [KeyEvent(r, n - 1, now[n - 1])];
        assert s1.events + [KeyEvent(r, n - 1, now[n - 1])] == s.events + es;
      }
    }
  }

  lemma {:induction false} OrderJoins(a: seq<KeyEvent>, c: seq<KeyEvent>, r: nat)
    requires InScanOrder(a) && InScanOrder(c)
    requires (forall e :: e in a ==> e.row < r) && (forall e :: e in c ==> e.row == r)
    ensures InScanOrder(a + c)
  {
    var es := a + c;
    forall i, j | 0 <= i < j < |es| ensures Earlier(es[i], es[j]) {
      if i < |a| <= j { assert es[i] in a && es[j] in c; }
    }
  }

  /** The events of one scan come row by row and, within a row, column by column. */
  lemma {:induction false} ScanInOrder(b: Board, s: State, scan: seq<Row>, n: nat, process: bool)
    returns (es: seq<KeyEvent>)
    requires BoardOk(b) && Fits(b, s) && Rectangular(scan, b.rows, b.cols) && n <= b.rows
    ensures TaskRows(b, s, scan, n, process).events == s.events + es && InScanOrder(es)
    ensures forall e :: e in es ==> e.row < n
    ensures !process ==> es == []
  {
    es := [];
    if n > 0 {
      es := ScanInOrder(b, s, scan, n - 1, process);
      var s1 := TaskRows(b, s, scan, n - 1, process);
      if !(scan[n - 1] == s1.prev[n - 1] || Ghosted(scan, b.keys, b.rows, b.cols, n - 1)) {
        var more := ColsInOrder(b, s1, n - 1, scan[n - 1], b.cols, process);
        OrderJoins(es, more, n - 1);
        assert s.events + es + more == s.events + (es + more);
        if !process {
          NothingAdded(b, s1, n - 1, scan[n - 1], b.cols);
          assert more == [];
        }
        es := es + more;
      }
    }
  }

  lemma {:induction false} NothingAdded(b: Board, s: State, r: nat, now: Row, n: nat)
    requires Fits(b, s) && r < b.rows && n <= b.cols == |now|
    ensures TaskCols(b, s, r, now, n, false).events == s.events
  {
    if n > 0 { NothingAdded(b, s, r, now, n - 1); }
  }
}
