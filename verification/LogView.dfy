/** The bounded window on a growing log (apps/web/lib/fleet-log-view.ts): pages are merged at either end and rows past
    the limit are evicted from the other, moving that end's cursor. */
module LogView {

  // The log is a sequence of complete lines, each starting where the one before it ends; it only grows at its end.
  // `matches` says whether the stream's filter keeps a line. What a page answers is the read service's contract
  // (apps/api/src/fleet/logs/log-read.service.ts): it holds the matching lines of exactly the interval it scanned.

  const MAX_LOG_ROWS: nat := 5000

  datatype Line = Line(offset: nat, length: nat, matches: bool, text: string)

  datatype Page = Page(entries: seq<Line>, nextCursor: nat, scannedFrom: nat, scannedTo: nat, atEnd: bool,
                       size: nat, complete: bool, truncated: bool)

  datatype Direction = Forward | Backward

  datatype Searching = Idle | Searching(direction: Direction, scannedFrom: nat, scannedTo: nat)

  datatype View = View(rows: seq<Line>, head: nat, atStart: bool, tail: nat, atEnd: bool,
                       size: nat, complete: bool, truncated: bool, searching: Searching)

  function EndOf(row: Line): nat {
    row.offset + row.length
  }

  // ---------------------------------------------------------------------------------------------
  // The view functions
  // ---------------------------------------------------------------------------------------------

  function SearchingOf(direction: Direction, page: Page): Searching {
    if |page.entries| == 0 && !page.atEnd then Searching(direction, page.scannedFrom, page.scannedTo) else Idle
  }

  function OpenedView(page: Page): View {
    View(page.entries, page.nextCursor, page.atEnd, page.scannedTo, true, page.size, page.complete, page.truncated,
         SearchingOf(Backward, page))
  }

  function StartingAt(entries: seq<Line>, least: int): seq<Line> {
    if entries == [] then []
    else if entries[0].offset >= least then [entries[0]] + StartingAt(entries[1..], least)
    else StartingAt(entries[1..], least)
  }

  function EndingAt(entries: seq<Line>, most: nat): seq<Line> {
    if entries == [] then []
    else if EndOf(entries[0]) <= most then [entries[0]] + EndingAt(entries[1..], most)
    else EndingAt(entries[1..], most)
  }

  function WithLater(view: View, page: Page): View {
    var last: int := if |view.rows| > 0 then EndOf(view.rows[|view.rows|-1]) else -1;
    var merged := view.rows + StartingAt(page.entries, last);
    var kept := if |merged| > MAX_LOG_ROWS then merged[|merged|-MAX_LOG_ROWS..] else merged;
    var evicted := |kept| < |merged|;
    view.(rows := kept,
          head := if evicted then kept[0].offset else view.head,
          atStart := if evicted then false else view.atStart,
          tail := if view.tail >= page.nextCursor then view.tail else page.nextCursor,
          atEnd := page.atEnd, size := page.size, complete := page.complete, truncated := page.truncated,
          searching := SearchingOf(Forward, page))
  }

  function WithEarlier(view: View, page: Page): View {
    var earlier := if |view.rows| > 0 then EndingAt(page.entries, view.rows[0].offset) else page.entries;
    var merged := earlier + view.rows;
    var kept := if |merged| > MAX_LOG_ROWS then merged[..MAX_LOG_ROWS] else merged;
    var evicted := |kept| < |merged|;
    view.(rows := kept,
          head := if view.head <= page.nextCursor then view.head else page.nextCursor,
          atStart := page.atEnd,
          tail := if evicted then EndOf(kept[|kept|-1]) else view.tail,
          atEnd := if evicted then false else view.atEnd,
          size := page.size, complete := page.complete, truncated := page.truncated,
          searching := SearchingOf(Backward, page))
  }

  // ---------------------------------------------------------------------------------------------
  // The log
  // ---------------------------------------------------------------------------------------------

  ghost predicate Contiguous(log: seq<Line>, start: nat) {
    log == [] || (log[0].offset == start && log[0].length > 0 && Contiguous(log[1..], EndOf(log[0])))
  }

  ghost function LogEnd(log: seq<Line>, start: nat): nat {
    if log == [] then start else LogEnd(log[1..], EndOf(log[0]))
  }

  /** c is where some line starts, or where the log ends. */
  ghost predicate Boundary(log: seq<Line>, start: nat, c: nat) {
    c == start || (log != [] && Boundary(log[1..], EndOf(log[0]), c))
  }

  predicate Inside(line: Line, from: nat, to: nat) {
    line.matches && from <= line.offset && EndOf(line) <= to
  }

  /** The simple view: the matching lines of the log inside [from, to). */
  function Matching(log: seq<Line>, from: nat, to: nat): seq<Line> {
    if log == [] then []
    else if Inside(log[0], from, to) then [log[0]] + Matching(log[1..], from, to)
    else Matching(log[1..], from, to)
  }

  lemma {:induction false} BoundaryRange(log: seq<Line>, start: nat, c: nat)
    requires Contiguous(log, start) && Boundary(log, start, c)
    ensures start <= c <= LogEnd(log, start)
    decreases |log|
  {
    if log != [] {
      LogRange(log[1..], EndOf(log[0]));
      if c != start { BoundaryRange(log[1..], EndOf(log[0]), c); }
    }
  }

  lemma {:induction false} LogRange(log: seq<Line>, start: nat)
    requires Contiguous(log, start)
    ensures start <= LogEnd(log, start)
    decreases |log|
  {
    if log != [] { LogRange(log[1..], EndOf(log[0])); }
  }

  ghost predicate RowOf(log: seq<Line>, start: nat, from: nat, to: nat, row: Line) {
    && row.matches && row.length > 0
    && start <= row.offset && from <= row.offset && EndOf(row) <= to
    && Boundary(log, start, row.offset) && Boundary(log, start, EndOf(row))
  }

  ghost predicate Ascending(rows: seq<Line>) {
    forall i, j :: 0 <= i < j < |rows| ==> EndOf(rows[i]) <= rows[j].offset
  }

  lemma {:induction false} MatchingFacts(log: seq<Line>, start: nat, from: nat, to: nat)
    requires Contiguous(log, start)
    ensures forall i :: 0 <= i < |Matching(log, from, to)| ==> RowOf(log, start, from, to, Matching(log, from, to)[i])
    ensures Ascending(Matching(log, from, to))
    decreases |log|
  {
    if log != [] {
      var rest := Matching(log[1..], from, to);
      MatchingFacts(log[1..], EndOf(log[0]), from, to);
      forall i | 0 <= i < |rest| ensures RowOf(log, start, from, to, rest[i]) {
        assert RowOf(log[1..], EndOf(log[0]), from, to, rest[i]);
      }
      assert Boundary(log[1..], EndOf(log[0]), EndOf(log[0]));
      if Inside(log[0], from, to) {
        assert RowOf(log, start, from, to, log[0]);
        forall j | 0 <= j < |rest| ensures EndOf(log[0]) <= rest[j].offset {
          assert RowOf(log[1..], EndOf(log[0]), from, to, rest[j]);
        }
      }
    }
  }

  lemma {:induction false} MatchingNothing(log: seq<Line>, start: nat, from: nat, to: nat)
    requires Contiguous(log, start) && to <= start
    ensures Matching(log, from, to) == []
    decreases |log|
  {
    if log != [] { MatchingNothing(log[1..], EndOf(log[0]), from, to); }
  }

  /** Two adjoining intervals hold together what their union holds. */
  lemma {:induction false} MatchingSplit(log: seq<Line>, start: nat, from: nat, mid: nat, to: nat)
    requires Contiguous(log, start) && Boundary(log, start, mid) && from <= mid <= to
    ensures Matching(log, from, to) == Matching(log, from, mid) + Matching(log, mid, to)
    decreases |log|
  {
    if log != [] {
      if mid == start {
        MatchingNothing(log, start, from, mid);
        MatchingFrom(log, start, from, mid, to);
      } else {
        BoundaryRange(log[1..], EndOf(log[0]), mid);
        MatchingSplit(log[1..], EndOf(log[0]), from, mid, to);
        assert !Inside(log[0], mid, to);
        if Inside(log[0], from, to) {
          assert Inside(log[0], from, mid);
          assert [log[0]] + Matching(log[1..], from, mid) + Matching(log[1..], mid, to)
              == [log[0]] + (Matching(log[1..], from, mid) + Matching(log[1..], mid, to));
        }
      }
    }
  }

  /** Where the log starts no earlier than both bounds, the lower bound does not matter. */
  lemma {:induction false} MatchingFrom(log: seq<Line>, start: nat, from: nat, other: nat, to: nat)
    requires Contiguous(log, start) && from <= start && other <= start
    ensures Matching(log, from, to) == Matching(log, other, to)
    decreases |log|
  {
    if log != [] { MatchingFrom(log[1..], EndOf(log[0]), from, other, to); }
  }

  /** The rows split at c where the row lies that starts or the one that ends at c. */
  lemma SplitAt(log: seq<Line>, from: nat, c: nat, to: nat, k: nat)
    requires Contiguous(log, 0) && Boundary(log, 0, c) && from <= c <= to && k <= |Matching(log, from, to)|
    requires k < |Matching(log, from, to)| ==> c <= Matching(log, from, to)[k].offset
    requires k > 0 ==> EndOf(Matching(log, from, to)[k-1]) <= c
    ensures Matching(log, from, c) == Matching(log, from, to)[..k] && Matching(log, c, to) == Matching(log, from, to)[k..]
  {
    var before, after := Matching(log, from, c), Matching(log, c, to);
    MatchingSplit(log, 0, from, c, to);
    MatchingFacts(log, 0, from, c);
    MatchingFacts(log, 0, c, to);
    assert forall i :: 0 <= i < |before| ==> RowOf(log, 0, from, c, before[i]);
    assert forall i :: 0 <= i < |after| ==> RowOf(log, 0, c, to, after[i]);
    assert Matching(log, from, to) == before + after;
    assert |before| == k;
  }

  lemma MatchingFromRow(log: seq<Line>, from: nat, to: nat, k: nat)
    requires Contiguous(log, 0) && k < |Matching(log, from, to)|
    ensures var m := Matching(log, from, to);
      && Boundary(log, 0, m[k].offset) && from <= m[k].offset <= to
      && Matching(log, m[k].offset, to) == m[k..]
      && (k > 0 ==> m[k].offset > 0)
  {
    var m := Matching(log, from, to);
    MatchingFacts(log, 0, from, to);
    assert RowOf(log, 0, from, to, m[k]);
    if k > 0 { assert RowOf(log, 0, from, to, m[k-1]); }
    SplitAt(log, from, m[k].offset, to, k);
  }

  lemma MatchingToRow(log: seq<Line>, from: nat, to: nat, k: nat)
    requires Contiguous(log, 0) && 0 < k <= |Matching(log, from, to)|
    ensures var m := Matching(log, from, to);
      && Boundary(log, 0, EndOf(m[k-1])) && from <= EndOf(m[k-1]) <= to
      && Matching(log, from, EndOf(m[k-1])) == m[..k]
  {
    var m := Matching(log, from, to);
    MatchingFacts(log, 0, from, to);
    assert RowOf(log, 0, from, to, m[k-1]);
    SplitAt(log, from, EndOf(m[k-1]), to, k);
  }

  /** Lines appended at the end change no interval that ended before. */
  lemma {:induction false} MatchingGrown(log: seq<Line>, more: seq<Line>, start: nat, from: nat, to: nat)
    requires Contiguous(log + more, start) && to <= LogEnd(log, start)
    ensures Contiguous(log, start) && Matching(log + more, from, to) == Matching(log, from, to)
    ensures LogEnd(log, start) <= LogEnd(log + more, start)
    decreases |log|
  {
    if log == [] {
      assert log + more == more;
      MatchingNothing(more, start, from, to);
      LogRange(more, start);
    } else {
      assert (log + more)[1..] == log[1..] + more;
      MatchingGrown(log[1..], more, EndOf(log[0]), from, to);
    }
  }

  lemma {:induction false} BoundaryGrown(log: seq<Line>, more: seq<Line>, start: nat, c: nat)
    requires Boundary(log, start, c)
    ensures Boundary(log + more, start, c)
    decreases |log|
  {
    if c != start {
      assert (log + more)[1..] == log[1..] + more;
      BoundaryGrown(log[1..], more, EndOf(log[0]), c);
    }
  }

  // ---------------------------------------------------------------------------------------------
  // The page contract
  // ---------------------------------------------------------------------------------------------

  ghost predicate ForwardAnswer(log: seq<Line>, cursor: nat, page: Page) {
    && page.scannedFrom == cursor && page.scannedTo == page.nextCursor && cursor <= page.nextCursor
    && Boundary(log, 0, page.nextCursor)
    && page.entries == Matching(log, cursor, page.nextCursor)
    && (page.atEnd ==> page.nextCursor == LogEnd(log, 0))
  }

  ghost predicate BackwardAnswer(log: seq<Line>, cursor: nat, page: Page) {
    && page.scannedTo == cursor && page.scannedFrom == page.nextCursor && page.nextCursor <= cursor
    && Boundary(log, 0, page.nextCursor)
    && page.entries == Matching(log, page.nextCursor, cursor)
    && page.atEnd == (page.nextCursor == 0)
  }

  // ---------------------------------------------------------------------------------------------
  // The window is the slice
  // ---------------------------------------------------------------------------------------------

  /** The rows are exactly the matching lines between the two cursors. */
  ghost predicate IsWindow(log: seq<Line>, view: View) {
    && view.head <= view.tail
    && Boundary(log, 0, view.head) && Boundary(log, 0, view.tail)
    && view.rows == Matching(log, view.head, view.tail)
    && view.atStart == (view.head == 0)
  }

  lemma OpenedIsWindow(log: seq<Line>, cursor: nat, page: Page)
    requires Contiguous(log, 0) && Boundary(log, 0, cursor) && BackwardAnswer(log, cursor, page)
    ensures IsWindow(log, OpenedView(page)) && TakesOver(OpenedView(page), page, Backward)
    ensures var view := OpenedView(page);
      view.rows == Matching(log, page.nextCursor, cursor) && view.head == page.nextCursor && view.tail == cursor && view.atEnd
  {
  }

  lemma {:induction false} StartingAtAll(entries: seq<Line>, least: int)
    requires forall i :: 0 <= i < |entries| ==> entries[i].offset >= least
    ensures StartingAt(entries, least) == entries
    decreases |entries|
  {
    if entries != [] { StartingAtAll(entries[1..], least); }
  }

  lemma {:induction false} EndingAtAll(entries: seq<Line>, most: nat)
    requires forall i :: 0 <= i < |entries| ==> EndOf(entries[i]) <= most
    ensures EndingAt(entries, most) == entries
    decreases |entries|
  {
    if entries != [] { EndingAtAll(entries[1..], most); }
  }

  /** The forward page's own filter keeps all of it, since it starts where the rows end. */
  lemma LaterKeepsPage(log: seq<Line>, view: View, page: Page)
    requires Contiguous(log, 0) && IsWindow(log, view) && ForwardAnswer(log, view.tail, page)
    ensures var last: int := if |view.rows| > 0 then EndOf(view.rows[|view.rows|-1]) else -1;
      view.rows + StartingAt(page.entries, last) == Matching(log, view.head, page.nextCursor)
  {
    MatchingFacts(log, 0, view.head, view.tail);
    MatchingFacts(log, 0, view.tail, page.nextCursor);
    var last: int := if |view.rows| > 0 then EndOf(view.rows[|view.rows|-1]) else -1;
    if |view.rows| > 0 { assert RowOf(log, 0, view.head, view.tail, view.rows[|view.rows|-1]); }
    forall i | 0 <= i < |page.entries| ensures page.entries[i].offset >= last {
      assert RowOf(log, 0, view.tail, page.nextCursor, page.entries[i]);
    }
    StartingAtAll(page.entries, last);
    MatchingSplit(log, 0, view.head, view.tail, page.nextCursor);
  }

  lemma EarlierKeepsPage(log: seq<Line>, view: View, page: Page)
    requires Contiguous(log, 0) && IsWindow(log, view) && BackwardAnswer(log, view.head, page)
    ensures (if |view.rows| > 0 then EndingAt(page.entries, view.rows[0].offset) else page.entries) + view.rows
      == Matching(log, page.nextCursor, view.tail)
  {
    MatchingFacts(log, 0, view.head, view.tail);
    MatchingFacts(log, 0, page.nextCursor, view.head);
    if |view.rows| > 0 {
      assert RowOf(log, 0, view.head, view.tail, view.rows[0]);
      forall i | 0 <= i < |page.entries| ensures EndOf(page.entries[i]) <= view.rows[0].offset {
        assert RowOf(log, 0, page.nextCursor, view.head, page.entries[i]);
      }
      EndingAtAll(page.entries, view.rows[0].offset);
    }
    MatchingSplit(log, 0, page.nextCursor, view.head, view.tail);
  }

  /** What the page says of the log besides its rows. */
  predicate TakesOver(view: View, page: Page, direction: Direction) {
    && view.size == page.size && view.complete == page.complete && view.truncated == page.truncated
    && view.searching == (if page.entries == [] && !page.atEnd then Searching(direction, page.scannedFrom, page.scannedTo) else Idle)
  }

  /** Of the rows m from the old head to the page's cursor the last are shown, as many as the limit lets; the head moves only past what it does not. */
  predicate ShowsLast(view: View, page: Page, m: seq<Line>, next: View) {
    && next.tail == page.nextCursor && next.atEnd == page.atEnd && TakesOver(next, page, Forward)
    && (if |m| <= MAX_LOG_ROWS then next.rows == m && next.head == view.head && next.atStart == view.atStart
        else |next.rows| == MAX_LOG_ROWS && next.rows == m[|m|-MAX_LOG_ROWS..] && next.head == next.rows[0].offset && !next.atStart)
  }

  /** The mirror of it: the first of the rows m from the page's cursor to the old tail. */
  predicate ShowsFirst(view: View, page: Page, m: seq<Line>, next: View) {
    && next.head == page.nextCursor && next.atStart == page.atEnd && TakesOver(next, page, Backward)
    && (if |m| <= MAX_LOG_ROWS then next.rows == m && next.tail == view.tail && next.atEnd == view.atEnd
        else |next.rows| == MAX_LOG_ROWS && next.rows == m[..MAX_LOG_ROWS] && next.tail == EndOf(next.rows[MAX_LOG_ROWS-1]) && !next.atEnd)
  }

  /** A forward page is merged without loss, but for what the limit evicts at the front. */
  lemma LaterIsWindow(log: seq<Line>, view: View, page: Page)
    requires Contiguous(log, 0) && IsWindow(log, view) && ForwardAnswer(log, view.tail, page)
    ensures IsWindow(log, WithLater(view, page)) && |WithLater(view, page).rows| <= MAX_LOG_ROWS
    ensures ShowsLast(view, page, Matching(log, view.head, page.nextCursor), WithLater(view, page))
  {
    LaterKeepsPage(log, view, page);
    hide Matching, Boundary, Contiguous, StartingAt;
    LaterFits(log, view, page, Matching(log, view.head, page.nextCursor));
  }

  /** The rows that fit are the slice from the first of them on. */
  lemma LaterFits(log: seq<Line>, view: View, page: Page, merged: seq<Line>)
    requires Contiguous(log, 0) && IsWindow(log, view) && merged == Matching(log, view.head, page.nextCursor)
    requires view.tail <= page.nextCursor && Boundary(log, 0, page.nextCursor)
    requires var last: int := if |view.rows| > 0 then EndOf(view.rows[|view.rows|-1]) else -1;
      view.rows + StartingAt(page.entries, last) == merged
    ensures IsWindow(log, WithLater(view, page)) && ShowsLast(view, page, merged, WithLater(view, page))
  {
    hide Matching, Boundary, Contiguous, StartingAt;
    if |merged| > MAX_LOG_ROWS { MatchingFromRow(log, view.head, page.nextCursor, |merged| - MAX_LOG_ROWS); }
  }

  /** A backward page is merged without loss, but for what the limit evicts at the end. */
  lemma EarlierIsWindow(log: seq<Line>, view: View, page: Page)
    requires Contiguous(log, 0) && IsWindow(log, view) && BackwardAnswer(log, view.head, page)
    ensures IsWindow(log, WithEarlier(view, page)) && |WithEarlier(view, page).rows| <= MAX_LOG_ROWS
    ensures ShowsFirst(view, page, Matching(log, page.nextCursor, view.tail), WithEarlier(view, page))
  {
    EarlierKeepsPage(log, view, page);
    var merged := Matching(log, page.nextCursor, view.tail);
    if |merged| > MAX_LOG_ROWS { MatchingToRow(log, page.nextCursor, view.tail, MAX_LOG_ROWS); }
    hide Matching, Boundary, Contiguous, EndingAt;
  }

  /** A view stays the slice it is while the log grows. */
  lemma GrownIsWindow(log: seq<Line>, more: seq<Line>, view: View)
    requires Contiguous(log + more, 0) && Contiguous(log, 0) && IsWindow(log, view)
    ensures IsWindow(log + more, view)
  {
    BoundaryRange(log, 0, view.tail);
    MatchingGrown(log, more, 0, view.head, view.tail);
    BoundaryGrown(log, more, 0, view.head);
    BoundaryGrown(log, more, 0, view.tail);
  }

  /** Rows ascend and never overlap, so none is shown twice. */
  lemma WindowAscends(log: seq<Line>, view: View, i: nat, j: nat)
    requires Contiguous(log, 0) && IsWindow(log, view) && i < j < |view.rows|
    ensures EndOf(view.rows[i]) <= view.rows[j].offset && view.rows[i].offset < view.rows[j].offset
  {
    MatchingFacts(log, 0, view.head, view.tail);
    assert RowOf(log, 0, view.head, view.tail, view.rows[i]);
  }

  // ---------------------------------------------------------------------------------------------
  // Any sequence of pages
  // ---------------------------------------------------------------------------------------------

  datatype Event = Opened(page: Page) | Grow(more: seq<Line>) | Later(page: Page) | Earlier(page: Page)

  datatype Shown = Shown(log: seq<Line>, view: View)

  function After(s: Shown, e: Event): Shown {
    match e
    case Opened(page) => s.(view := OpenedView(page))
    case Grow(more) => s.(log := s.log + more)
    case Later(page) => s.(view := WithLater(s.view, page))
    case Earlier(page) => s.(view := WithEarlier(s.view, page))
  }

  /** Each page answers the request for the cursor it is merged at; an opening asks backward from any line's edge. */
  ghost predicate Answers(s: Shown, e: Event) {
    match e
    case Opened(page) =>
      (exists c :: Boundary(s.log, 0, c) && BackwardAnswer(s.log, c, page)) && |page.entries| <= MAX_LOG_ROWS
    case Grow(more) => Contiguous(s.log + more, 0)
    case Later(page) => ForwardAnswer(s.log, s.view.tail, page)
    case Earlier(page) => BackwardAnswer(s.log, s.view.head, page)
  }

  ghost predicate AllAnswer(s: Shown, events: seq<Event>)
    decreases |events|
  {
    events == [] || (Answers(s, events[0]) && AllAnswer(After(s, events[0]), events[1..]))
  }

  function AfterAll(s: Shown, events: seq<Event>): Shown
    decreases |events|
  {
    if events == [] then s else AfterAll(After(s, events[0]), events[1..])
  }

  /** After any sequence of openings, pages and growth, the rows are the slice, and at most the limit. */
  lemma {:induction false} AlwaysTheSlice(s: Shown, events: seq<Event>)
    requires Contiguous(s.log, 0) && IsWindow(s.log, s.view) && |s.view.rows| <= MAX_LOG_ROWS && AllAnswer(s, events)
    ensures var last := AfterAll(s, events);
      Contiguous(last.log, 0) && IsWindow(last.log, last.view) && |last.view.rows| <= MAX_LOG_ROWS
    decreases |events|
  {
    if events != [] {
      match events[0] {
        case Opened(page) =>
          var c :| Boundary(s.log, 0, c) && BackwardAnswer(s.log, c, page);
          OpenedIsWindow(s.log, c, page);
        case Grow(more) => GrownIsWindow(s.log, more, s.view);
        case Later(page) => LaterIsWindow(s.log, s.view, page);
        case Earlier(page) => EarlierIsWindow(s.log, s.view, page);
      }
      hide IsWindow, Answers;
      AlwaysTheSlice(After(s, events[0]), events[1..]);
    }
  }
}
