/**
 The log viewer's request discipline (apps/web/lib/fleet-log-viewer.ts): the guard that lets a single page request run,
 what becomes of growth noticed meanwhile, the retries, and the follow loop.

 A task that has reached an await is `in flight`: it waits for the answer to its page request, or sleeps before asking
 again. `onChange` is taken not to call back into the viewer, so a step is never entered while another one runs.
 Requests, retries and the follow loop are steps of one machine; the class below takes the same steps in place.
 */
module LogViewer {
  import opened Wrappers
  import opened LogView

  const LOG_PAGE_LIMIT := 200
  const FOLLOW_PAGE_LIMIT := 500
  const RATE_LIMIT_RETRIES := 3

  datatype Job = Opening | LoadingEarlier | LoadingMore | Following

  /** One task at its await. `cursor` is what its page request asked for; None is the visible end. */
  datatype Flight = Flight(job: Job, cursor: Option<nat>, attempt: nat, sleeping: bool)

  datatype State = State(
    view: Option<View>, loading: bool, follow: bool, rateLimited: bool, expired: bool, failed: bool,
    disposed: bool, growthPending: bool, flights: seq<Flight>)

  datatype Answer = Entries(page: Page) | TooMany | Gone | Broken

  datatype Event =
    | Open | LoadEarlier | LoadMore | KeepSearching | OnGrowth
    | SetFollow(on: bool) | JumpToLatest | Dispose
    | Answered(f: nat, answer: Answer)
    | Woken(f: nat)

  function Init(follow: bool): State {
    State(None, false, follow, false, false, false, false, false, [])
  }

  function DirectionOf(job: Job): Direction {
    match job
    case Opening => Backward
    case LoadingEarlier => Backward
    case LoadingMore => Forward
    case Following => Forward
  }

  /** A job asks for a page and waits. */
  function Ask(s: State, job: Job, cursor: Option<nat>): State {
    s.(flights := s.flights + [Flight(job, cursor, 0, false)])
  }

  function Land(s: State, f: nat): State
    requires f < |s.flights|
  {
    s.(flights := s.flights[..f] + s.flights[f+1..])
  }

  /** The follow loop's guard, and its next request. */
  predicate Follows(s: State) {
    s.follow && s.view.Some? && !s.disposed
  }

  /** `exclusive`, up to its task's first await: a task that needs no page is over at once. */
  function Begin(s: State, job: Job): State {
    if s.loading || s.disposed then s else
      var started := s.(loading := true, failed := false);
      var over := s.(failed := false);
      match job
      case Opening => Ask(started, Opening, None)
      case LoadingEarlier =>
        if s.view.None? || s.view.value.atStart then over else Ask(started, LoadingEarlier, Some(s.view.value.head))
      case LoadingMore => if s.view.None? then over else Ask(started, LoadingMore, Some(s.view.value.tail))
      case Following => if Follows(s) then Ask(started, Following, Some(s.view.value.tail)) else over
  }

  /** The end of a task: `loading` is given back, and a growth noticed meanwhile is followed up. */
  function End(s: State): State {
    var s1 := if s.disposed then s else s.(loading := false);
    if s1.growthPending && !s1.disposed then Begin(s1.(growthPending := false), Following) else s1
  }

  /** A page that answered: merged where its task merges it, and the follow loop goes on or stops. */
  function Merged(filtered: bool, s: State, flight: Flight, page: Page): State {
    match flight.job
    case Opening => End(s.(view := Some(OpenedView(page))))
    case LoadingEarlier => End(if s.view.Some? then s.(view := Some(WithEarlier(s.view.value, page))) else s)
    case LoadingMore => End(if s.view.Some? then s.(view := Some(WithLater(s.view.value, page))) else s)
    case Following =>
      if s.view.None? then End(s) else
        var s1 := s.(view := Some(WithLater(s.view.value, page)));
        var from := if flight.cursor.Some? then flight.cursor.value else 0;
        if page.atEnd || page.nextCursor <= from || (|page.entries| == 0 && filtered) || !Follows(s1) then End(s1)
        else Ask(s1, Following, Some(s1.view.value.tail))
  }

  function Step(filtered: bool, s: State, e: Event): State {
    match e
    case Open => Begin(s, Opening)
    case LoadEarlier => Begin(s, LoadingEarlier)
    case LoadMore => Begin(s, LoadingMore)
    case KeepSearching =>
      if s.view.Some? && s.view.value.searching.Searching? && s.view.value.searching.direction == Backward
      then Begin(s, LoadingEarlier) else Begin(s, LoadingMore)
    case OnGrowth =>
      if !s.follow || s.disposed then s
      else if s.loading then s.(growthPending := true)
      else if s.view.None? then s
      else Begin(s, Following)
    case SetFollow(on) => s.(follow := on)
    case JumpToLatest => if s.loading || s.disposed then s else Begin(s.(follow := true, view := None), Opening)
    case Dispose => s.(disposed := true)
    case Answered(f, answer) =>
      if f >= |s.flights| || s.flights[f].sleeping then s else
        var flight := s.flights[f];
        var s1 := Land(s, f);
        if s.disposed then End(s1)
        else (match answer
          case Entries(page) => Merged(filtered, s1.(rateLimited := false), flight, page)
          case TooMany =>
            if flight.attempt < RATE_LIMIT_RETRIES
            then s.(rateLimited := true, flights := s.flights[f := flight.(sleeping := true)])
            else End(s1.(failed := true, rateLimited := false))
          case Gone => End(s1.(expired := true, view := None, follow := false, rateLimited := false))
          case Broken => End(s1.(failed := true, rateLimited := false)))
    case Woken(f) =>
      if f >= |s.flights| || !s.flights[f].sleeping then s
      else if s.disposed then End(Land(s, f))
      else s.(flights := s.flights[f := s.flights[f].(sleeping := false, attempt := s.flights[f].attempt + 1)])
  }

  function Run(filtered: bool, follow: bool, events: seq<Event>): State {
    if events == [] then Init(follow)
    else Step(filtered, Run(filtered, follow, events[..|events|-1]), events[|events|-1])
  }

  // ---------------------------------------------------------------------------------------------
  // One request at a time
  // ---------------------------------------------------------------------------------------------

  ghost predicate OneAtATime(s: State) {
    && |s.flights| <= 1
    && (|s.flights| == 1 ==> s.loading)
    && (s.loading && !s.disposed ==> |s.flights| == 1)
    && (s.growthPending && !s.disposed ==> s.loading)
    && (forall k :: 0 <= k < |s.flights| ==> s.flights[k].attempt <= RATE_LIMIT_RETRIES)
    && (forall k :: 0 <= k < |s.flights| && s.flights[k].sleeping ==> s.flights[k].attempt < RATE_LIMIT_RETRIES)
    && (forall k :: 0 <= k < |s.flights| ==> (s.flights[k].cursor.None? <==> s.flights[k].job == Opening))
  }

  lemma BeginKeeps(s: State, job: Job)
    requires OneAtATime(s)
    ensures OneAtATime(Begin(s, job))
  {
    hide WithLater, WithEarlier, OpenedView;
  }

  lemma EndKeeps(s: State)
    requires s.flights == []
    ensures OneAtATime(End(s))
  {
    hide WithLater, WithEarlier, OpenedView;
  }

  lemma MergedKeeps(filtered: bool, s: State, flight: Flight, page: Page)
    requires s.flights == [] && s.loading && !s.disposed
    ensures OneAtATime(Merged(filtered, s, flight, page))
  {
    hide WithLater, WithEarlier, OpenedView, End;
    match flight.job
    case Opening => EndKeeps(s.(view := Some(OpenedView(page))));
    case LoadingEarlier => EndKeeps(if s.view.Some? then s.(view := Some(WithEarlier(s.view.value, page))) else s);
    case LoadingMore => EndKeeps(if s.view.Some? then s.(view := Some(WithLater(s.view.value, page))) else s);
    case Following => EndKeeps(if s.view.Some? then s.(view := Some(WithLater(s.view.value, page))) else s);
  }

  lemma StepKeeps(filtered: bool, s: State, e: Event)
    requires OneAtATime(s)
    ensures OneAtATime(Step(filtered, s, e))
  {
    hide WithLater, WithEarlier, OpenedView, Begin, End, Merged, Land;
    match e
    case Answered(f, answer) => AnsweredKeeps(filtered, s, f, answer);
    case Woken(f) => WokenKeeps(filtered, s, f);
    case JumpToLatest =>
      if !s.loading && !s.disposed { BeginKeeps(s.(follow := true, view := None), Opening); }
    case SetFollow(_) =>
    case Dispose =>
    case _ => RequestKeeps(filtered, s, e);
  }

  lemma RequestKeeps(filtered: bool, s: State, e: Event)
    requires OneAtATime(s) && (e.Open? || e.LoadEarlier? || e.LoadMore? || e.KeepSearching? || e.OnGrowth?)
    ensures OneAtATime(Step(filtered, s, e))
  {
    hide Begin, End, Merged, Land;
    BeginKeeps(s, Opening);
    BeginKeeps(s, LoadingEarlier);
    BeginKeeps(s, LoadingMore);
    BeginKeeps(s, Following);
  }

  lemma WokenKeeps(filtered: bool, s: State, f: nat)
    requires OneAtATime(s)
    ensures OneAtATime(Step(filtered, s, Woken(f)))
  {
    hide WithLater, WithEarlier, OpenedView, End;
    if f < |s.flights| {
      assert Land(s, f).flights == [];
      EndKeeps(Land(s, f));
    }
  }

  lemma AnsweredKeeps(filtered: bool, s: State, f: nat, answer: Answer)
    requires OneAtATime(s)
    ensures OneAtATime(Step(filtered, s, Answered(f, answer)))
  {
    hide WithLater, WithEarlier, OpenedView, Merged, End;
    if f < |s.flights| && !s.flights[f].sleeping {
      var landed := Land(s, f);
      assert landed.flights == [];
      if s.disposed {
        EndKeeps(landed);
      } else {
        match answer
        case Entries(page) => MergedKeeps(filtered, landed.(rateLimited := false), s.flights[f], page);
        case TooMany => EndKeeps(landed.(failed := true, rateLimited := false));
        case Gone => EndKeeps(landed.(expired := true, view := None, follow := false, rateLimited := false));
        case Broken => EndKeeps(landed.(failed := true, rateLimited := false));
      }
    }
  }

  /** In every run at most one page request is in flight, and it was asked at most four times. */
  lemma {:induction false} RunsOneAtATime(filtered: bool, follow: bool, events: seq<Event>)
    ensures OneAtATime(Run(filtered, follow, events))
    decreases |events|
  {
    if events != [] {
      RunsOneAtATime(filtered, follow, events[..|events|-1]);
      hide OneAtATime, Step;
      StepKeeps(filtered, Run(filtered, follow, events[..|events|-1]), events[|events|-1]);
    }
  }

  // ---------------------------------------------------------------------------------------------
  // A growth notice is always followed up
  // ---------------------------------------------------------------------------------------------

  /** A request for what comes after the view's tail is under way. */
  ghost predicate AskingForward(s: State) {
    && |s.flights| == 1 && s.view.Some?
    && s.flights[0] == Flight(Following, Some(s.view.value.tail), 0, false)
  }

  lemma EndFollowsUp(s: State)
    requires s.flights == [] && s.growthPending && !s.disposed
    ensures !End(s).growthPending
    ensures AskingForward(End(s)) || !End(s).follow || End(s).view.None?
  {
  }

  /** The answer to the request that was running ends it, and a new forward request is made, unless follow is off or the view is gone. */
  ghost predicate FollowsUp(s: State, e: Event, t: State) {
    e.Answered? && e.f < |s.flights| && (AskingForward(t) || !t.follow || t.view.None?)
  }

  /** A recorded notice stays on record until the request that was running when it was taken ends; then it is followed up. */
  lemma GrowthIsFollowed(filtered: bool, s: State, e: Event)
    requires OneAtATime(s) && s.growthPending
    ensures Step(filtered, s, e).growthPending || FollowsUp(s, e, Step(filtered, s, e))
  {
    hide WithLater, WithEarlier, OpenedView;
    match e
    case Answered(f, answer) =>
      if f < |s.flights| && !s.flights[f].sleeping && !s.disposed {
        var landed := Land(s, f);
        assert landed.flights == [];
        match answer
        case Entries(page) => MergedFollowsUp(filtered, landed.(rateLimited := false), s.flights[f], page);
        case TooMany => EndFollowsUp(landed.(failed := true, rateLimited := false));
        case Gone => EndFollowsUp(landed.(expired := true, view := None, follow := false, rateLimited := false));
        case Broken => EndFollowsUp(landed.(failed := true, rateLimited := false));
      }
      hide Merged, End;
    case _ =>
  }

  lemma MergedFollowsUp(filtered: bool, s: State, flight: Flight, page: Page)
    requires s.flights == [] && s.growthPending && !s.disposed
    ensures var t := Merged(filtered, s, flight, page);
      t.growthPending || AskingForward(t) || !t.follow || t.view.None?
  {
    hide WithLater, WithEarlier, OpenedView, End;
    match flight.job
    case Opening => EndFollowsUp(s.(view := Some(OpenedView(page))));
    case LoadingEarlier => EndFollowsUp(if s.view.Some? then s.(view := Some(WithEarlier(s.view.value, page))) else s);
    case LoadingMore => EndFollowsUp(if s.view.Some? then s.(view := Some(WithLater(s.view.value, page))) else s);
    case Following => EndFollowsUp(if s.view.Some? then s.(view := Some(WithLater(s.view.value, page))) else s);
  }

  /** What a notice does at once: recorded while a task runs, else answered by a forward request, if there is a view. */
  lemma NoticeTaken(filtered: bool, s: State)
    requires OneAtATime(s) && s.follow && !s.disposed
    ensures var t := Step(filtered, s, OnGrowth);
      if s.loading then t.growthPending else AskingForward(t) || s.view.None?
  {
    hide WithLater, WithEarlier, OpenedView;
  }

  lemma RunNext(filtered: bool, follow: bool, events: seq<Event>, e: Event)
    ensures Run(filtered, follow, events + [e]) == Step(filtered, Run(filtered, follow, events), e)
  {
    assert (events + [e])[..|events|] == events;
    hide Step;
  }

  /** Step j after `before` is where a recorded notice is followed up. */
  ghost predicate FollowedUpAt(filtered: bool, follow: bool, before: seq<Event>, after: seq<Event>, j: nat) {
    && j < |after| && Run(filtered, follow, before + after[..j]).growthPending
    && FollowsUp(Run(filtered, follow, before + after[..j]), after[j], Run(filtered, follow, before + after[..j] + [after[j]]))
  }

  lemma FollowedStill(filtered: bool, follow: bool, before: seq<Event>, after: seq<Event>, j: nat)
    requires after != [] && FollowedUpAt(filtered, follow, before, after[..|after|-1], j)
    ensures FollowedUpAt(filtered, follow, before, after, j)
  {
    assert after[..|after|-1][..j] == after[..j];
    hide Run, FollowsUp;
  }

  /** Over every run a recorded notice is still on record, or some later step has followed it up. */
  lemma {:induction false} RecordIsFollowed(filtered: bool, follow: bool, before: seq<Event>, after: seq<Event>)
    requires Run(filtered, follow, before).growthPending
    ensures Run(filtered, follow, before + after).growthPending || exists j: nat :: FollowedUpAt(filtered, follow, before, after, j)
    decreases |after|
  {
    if after == [] {
      assert before + after == before;
    } else {
      var n := |after| - 1;
      RecordIsFollowed(filtered, follow, before, after[..n]);
      FollowedLast(filtered, follow, before, after);
      hide *;
      if j: nat :| FollowedUpAt(filtered, follow, before, after[..n], j) {
        FollowedStill(filtered, follow, before, after, j);
        assert FollowedUpAt(filtered, follow, before, after, j);
      }
    }
  }

  /** The last step keeps the record or follows it up. */
  lemma FollowedLast(filtered: bool, follow: bool, before: seq<Event>, after: seq<Event>)
    requires after != []
    ensures var n := |after| - 1;
      Run(filtered, follow, before + after[..n]).growthPending ==>
        Run(filtered, follow, before + after).growthPending || FollowedUpAt(filtered, follow, before, after, n)
  {
    hide Run, Step, OneAtATime, FollowsUp;
    var n := |after| - 1;
    var s := Run(filtered, follow, before + after[..n]);
    assert before + after == before + after[..n] + [after[n]];
    RunNext(filtered, follow, before + after[..n], after[n]);
    RunsOneAtATime(filtered, follow, before + after[..n]);
    if s.growthPending { GrowthIsFollowed(filtered, s, after[n]); }
  }

  /**
   A growth notice taken while follow is on is recorded or asks forward at once, unless there is nothing to follow yet;
   and a recorded one stays on record until a later forward request is made for it.
   */
  lemma NoticeIsFollowed(filtered: bool, follow: bool, before: seq<Event>, after: seq<Event>)
    requires var s := Run(filtered, follow, before); s.follow && !s.disposed
    ensures var s, t := Run(filtered, follow, before), Run(filtered, follow, before + [OnGrowth]);
      if s.loading then
        && t.growthPending
        && (Run(filtered, follow, before + [OnGrowth] + after).growthPending
            || exists j: nat :: FollowedUpAt(filtered, follow, before + [OnGrowth], after, j))
      else AskingForward(t) || s.view.None?
  {
    RunsOneAtATime(filtered, follow, before);
    RunNext(filtered, follow, before, OnGrowth);
    hide Run, Step, OneAtATime;
    NoticeTaken(filtered, Run(filtered, follow, before));
    if Run(filtered, follow, before).loading { RecordIsFollowed(filtered, follow, before + [OnGrowth], after); }
  }

  // ---------------------------------------------------------------------------------------------
  // Pages land where they were asked for, so the view is always the slice
  // ---------------------------------------------------------------------------------------------

  /** What the page request in flight asked for still fits the view it will be merged into. */
  ghost predicate AskedWell(s: State) {
    s.view.Some? && |s.flights| == 1 ==>
      match s.flights[0].job
      case Opening => true
      case LoadingEarlier => s.flights[0].cursor == Some(s.view.value.head)
      case LoadingMore => s.flights[0].cursor == Some(s.view.value.tail)
      case Following => s.flights[0].cursor == Some(s.view.value.tail)
  }

  ghost predicate ShowsSlice(log: seq<Line>, s: State) {
    s.view.Some? ==> IsWindow(log, s.view.value) && |s.view.value.rows| <= MAX_LOG_ROWS
  }

  /** The service answers the request that is in flight. */
  ghost predicate AnswersFlight(log: seq<Line>, s: State, e: Event) {
    e.Answered? && e.f < |s.flights| && e.answer.Entries? ==>
      var flight := s.flights[e.f];
      var page := e.answer.page;
      match DirectionOf(flight.job)
      case Forward => flight.cursor.Some? && ForwardAnswer(log, flight.cursor.value, page) && |page.entries| <= FOLLOW_PAGE_LIMIT
      case Backward =>
        (exists c :: Boundary(log, 0, c) && (flight.cursor.Some? ==> c == flight.cursor.value) && BackwardAnswer(log, c, page))
        && |page.entries| <= LOG_PAGE_LIMIT
  }

  lemma BeginAsksWell(s: State, job: Job)
    requires OneAtATime(s) && AskedWell(s)
    ensures AskedWell(Begin(s, job)) && Begin(s, job).view == s.view
  {
  }

  lemma EndAsksWell(s: State)
    requires s.flights == []
    ensures AskedWell(End(s)) && End(s).view == s.view
  {
  }

  lemma MergedShowsSlice(filtered: bool, log: seq<Line>, s: State, flight: Flight, page: Page)
    requires Contiguous(log, 0) && ShowsSlice(log, s) && s.flights == []
    requires AskedWell(s.(flights := [flight])) && AnswersFlight(log, s.(flights := [flight]), Answered(0, Entries(page)))
    ensures ShowsSlice(log, Merged(filtered, s, flight, page)) && AskedWell(Merged(filtered, s, flight, page))
  {
    hide IsWindow, Boundary, Contiguous, ForwardAnswer, BackwardAnswer, Merged;
    match flight.job
    case Opening => OpeningShowsSlice(filtered, log, s, flight, page);
    case LoadingEarlier => EarlierShowsSlice(filtered, log, s, flight, page);
    case LoadingMore => LaterShowsSlice(filtered, log, s, flight, page);
    case Following => LaterShowsSlice(filtered, log, s, flight, page);
  }

  lemma OpeningShowsSlice(filtered: bool, log: seq<Line>, s: State, flight: Flight, page: Page)
    requires Contiguous(log, 0) && s.flights == [] && flight.job == Opening && |page.entries| <= LOG_PAGE_LIMIT
    requires exists c :: Boundary(log, 0, c) && BackwardAnswer(log, c, page)
    ensures ShowsSlice(log, Merged(filtered, s, flight, page)) && AskedWell(Merged(filtered, s, flight, page))
  {
    hide IsWindow, OpenedView, Boundary, Contiguous, BackwardAnswer, End;
    var c :| Boundary(log, 0, c) && BackwardAnswer(log, c, page);
    OpenedIsWindow(log, c, page);
    OpenedRows(page);
    EndAsksWell(s.(view := Some(OpenedView(page))));
  }

  lemma EarlierShowsSlice(filtered: bool, log: seq<Line>, s: State, flight: Flight, page: Page)
    requires Contiguous(log, 0) && ShowsSlice(log, s) && s.flights == [] && flight.job == LoadingEarlier
    requires s.view.Some? ==> Boundary(log, 0, s.view.value.head) && BackwardAnswer(log, s.view.value.head, page)
    ensures ShowsSlice(log, Merged(filtered, s, flight, page)) && AskedWell(Merged(filtered, s, flight, page))
  {
    hide IsWindow, WithEarlier, Boundary, Contiguous, BackwardAnswer, End;
    EndAsksWell(s);
    if s.view.Some? {
      EarlierIsWindow(log, s.view.value, page);
      EndAsksWell(s.(view := Some(WithEarlier(s.view.value, page))));
    }
  }

  lemma LaterShowsSlice(filtered: bool, log: seq<Line>, s: State, flight: Flight, page: Page)
    requires Contiguous(log, 0) && ShowsSlice(log, s) && s.flights == [] && DirectionOf(flight.job) == Forward
    requires s.view.Some? ==> ForwardAnswer(log, s.view.value.tail, page)
    ensures ShowsSlice(log, Merged(filtered, s, flight, page)) && AskedWell(Merged(filtered, s, flight, page))
  {
    hide IsWindow, WithLater, Boundary, Contiguous, ForwardAnswer, End;
    EndAsksWell(s);
    if s.view.Some? {
      LaterIsWindow(log, s.view.value, page);
      EndAsksWell(s.(view := Some(WithLater(s.view.value, page))));
    }
  }

  lemma OpenedRows(page: Page)
    ensures OpenedView(page).rows == page.entries
  {
  }

  /** Whatever the user, the stream and the service do, the rows shown are the slice between the cursors. */
  lemma StepShowsSlice(filtered: bool, log: seq<Line>, s: State, e: Event)
    requires Contiguous(log, 0) && OneAtATime(s) && AskedWell(s) && ShowsSlice(log, s) && AnswersFlight(log, s, e)
    ensures ShowsSlice(log, Step(filtered, s, e)) && AskedWell(Step(filtered, s, e))
  {
    hide IsWindow, Contiguous, Boundary, Merged, Matching, WithLater, WithEarlier, OpenedView, ForwardAnswer, BackwardAnswer;
    match e
    case Answered(f, answer) => AnswerShowsSlice(filtered, log, s, f, answer);
    case Woken(f) =>
      if f < |s.flights| {
        assert Land(s, f).flights == [];
        EndAsksWell(Land(s, f));
      }
    case JumpToLatest =>
    case OnGrowth => BeginAsksWell(s, Following);
    case Open => BeginAsksWell(s, Opening);
    case LoadEarlier => BeginAsksWell(s, LoadingEarlier);
    case LoadMore => BeginAsksWell(s, LoadingMore);
    case KeepSearching => BeginAsksWell(s, LoadingEarlier); BeginAsksWell(s, LoadingMore);
    case _ =>
  }

  lemma AnswerShowsSlice(filtered: bool, log: seq<Line>, s: State, f: nat, answer: Answer)
    requires Contiguous(log, 0) && OneAtATime(s) && AskedWell(s) && ShowsSlice(log, s) && AnswersFlight(log, s, Answered(f, answer))
    ensures ShowsSlice(log, Step(filtered, s, Answered(f, answer))) && AskedWell(Step(filtered, s, Answered(f, answer)))
  {
    hide IsWindow, Contiguous, Boundary, Merged, Matching, WithLater, WithEarlier, OpenedView, ForwardAnswer, BackwardAnswer, End;
    if f < |s.flights| && !s.flights[f].sleeping {
      var landed := Land(s, f);
      assert landed.flights == [] && f == 0 && s.flights == [s.flights[0]];
      if s.disposed {
        EndAsksWell(landed);
      } else {
        match answer
        case Entries(page) => MergedShowsSlice(filtered, log, landed.(rateLimited := false), s.flights[f], page);
        case TooMany => EndAsksWell(landed.(failed := true, rateLimited := false));
        case Gone => EndAsksWell(landed.(expired := true, view := None, follow := false, rateLimited := false));
        case Broken => EndAsksWell(landed.(failed := true, rateLimited := false));
      }
    }
  }

  /** What a page brings the view: an opening shows it, and any other page is merged without loss at the end it was asked for. */
  lemma PageIsShown(filtered: bool, log: seq<Line>, s: State, page: Page)
    requires Contiguous(log, 0) && OneAtATime(s) && AskedWell(s) && ShowsSlice(log, s) && !s.disposed
    requires |s.flights| == 1 && !s.flights[0].sleeping && AnswersFlight(log, s, Answered(0, Entries(page)))
    ensures var t, job := Step(filtered, s, Answered(0, Entries(page))), s.flights[0].job;
      && !t.rateLimited && t.expired == s.expired && t.follow == s.follow
      && (job == Opening ==> t.view == Some(OpenedView(page)))
      && (job != Opening ==> (t.view.Some? <==> s.view.Some?))
      && (job != Opening && s.view.Some? ==>
            var was, now := s.view.value, t.view.value;
            if job == LoadingEarlier then ShowsFirst(was, page, Matching(log, page.nextCursor, was.tail), now)
            else ShowsLast(was, page, Matching(log, was.head, page.nextCursor), now))
  {
    hide IsWindow, Contiguous, Boundary, Matching, WithLater, WithEarlier, OpenedView, ForwardAnswer, BackwardAnswer;
    hide ShowsFirst, ShowsLast, Merged, End;
    assert Land(s, 0).flights == [];
    MergedShows(filtered, Land(s, 0).(rateLimited := false), s.flights[0], page);
    if s.view.Some? {
      if s.flights[0].job == LoadingEarlier { EarlierIsWindow(log, s.view.value, page); }
      if DirectionOf(s.flights[0].job) == Forward { LaterIsWindow(log, s.view.value, page); }
    }
  }

  lemma MergedShows(filtered: bool, s: State, flight: Flight, page: Page)
    ensures Shown(s, flight.job, page, Merged(filtered, s, flight, page))
  {
    hide Shown, Merged;
    match flight.job
    case Opening => OpeningShows(filtered, s, flight, page);
    case LoadingEarlier => EarlierShows(filtered, s, flight, page);
    case LoadingMore => MoreShows(filtered, s, flight, page);
    case Following => FollowingShows(filtered, s, flight, page);
  }

  /** The page is merged as its job merges it, and neither flags nor following change. */
  predicate Shown(s: State, job: Job, page: Page, t: State) {
    && t.rateLimited == s.rateLimited && t.expired == s.expired && t.follow == s.follow
    && t.view == match job
       case Opening => Some(OpenedView(page))
       case LoadingEarlier => if s.view.Some? then Some(WithEarlier(s.view.value, page)) else None
       case LoadingMore => if s.view.Some? then Some(WithLater(s.view.value, page)) else None
       case Following => if s.view.Some? then Some(WithLater(s.view.value, page)) else None
  }

  lemma OpeningShows(filtered: bool, s: State, flight: Flight, page: Page)
    requires flight.job == Opening
    ensures Shown(s, Opening, page, Merged(filtered, s, flight, page))
  {
    hide WithLater, WithEarlier, OpenedView, End, Ask;
    EndTells(s.(view := Some(OpenedView(page))));
  }

  lemma EarlierShows(filtered: bool, s: State, flight: Flight, page: Page)
    requires flight.job == LoadingEarlier
    ensures Shown(s, LoadingEarlier, page, Merged(filtered, s, flight, page))
  {
    hide WithLater, WithEarlier, OpenedView, End, Ask;
    EndTells(if s.view.Some? then s.(view := Some(WithEarlier(s.view.value, page))) else s);
  }

  lemma MoreShows(filtered: bool, s: State, flight: Flight, page: Page)
    requires flight.job == LoadingMore
    ensures Shown(s, LoadingMore, page, Merged(filtered, s, flight, page))
  {
    hide WithLater, WithEarlier, OpenedView, End, Ask;
    EndTells(if s.view.Some? then s.(view := Some(WithLater(s.view.value, page))) else s);
  }

  lemma FollowingShows(filtered: bool, s: State, flight: Flight, page: Page)
    requires flight.job == Following
    ensures Shown(s, Following, page, Merged(filtered, s, flight, page))
  {
    hide WithLater, WithEarlier, OpenedView, End, Follows;
    EndTells(if s.view.Some? then s.(view := Some(WithLater(s.view.value, page))) else s);
  }

  lemma EndTells(s: State)
    ensures End(s).view == s.view && End(s).rateLimited == s.rateLimited && End(s).expired == s.expired && End(s).follow == s.follow
  { }

  // ---------------------------------------------------------------------------------------------
  // What is asked for, and what an answer other than a page does
  // ---------------------------------------------------------------------------------------------

  /** The page an event asks for: none where there is nothing to extend, or nothing further back. */
  function PageFor(s: State, e: Event): Option<Flight> {
    match e
    case Open => Some(Flight(Opening, None, 0, false))
    case LoadEarlier => FromHead(s)
    case LoadMore => FromTail(s)
    case KeepSearching =>
      // On in the direction in which the last page matched nothing.
      if s.view.Some? && s.view.value.searching.Searching? && s.view.value.searching.direction == Backward then FromHead(s) else FromTail(s)
    case _ => None
  }

  function FromHead(s: State): Option<Flight> {
    if s.view.Some? && !s.view.value.atStart then Some(Flight(LoadingEarlier, Some(s.view.value.head), 0, false)) else None
  }

  function FromTail(s: State): Option<Flight> {
    if s.view.Some? then Some(Flight(LoadingMore, Some(s.view.value.tail), 0, false)) else None
  }

  predicate IsUserRequest(e: Event) { e.Open? || e.LoadEarlier? || e.LoadMore? || e.KeepSearching? }

  /** A request made while none runs is sent at once; while one runs, or after the viewer is disposed, it is ignored. */
  lemma RequestIsSent(filtered: bool, s: State, e: Event)
    requires OneAtATime(s) && IsUserRequest(e)
    ensures var t := Step(filtered, s, e);
      if s.loading || s.disposed then t == s
      else
        var asked := PageFor(s, e);
        t == s.(failed := false, loading := asked.Some?, flights := if asked.Some? then [asked.value] else [])
  {
    hide WithLater, WithEarlier, OpenedView, Merged, End, Land;
    assert !s.loading ==> s.flights == [];
  }

  /** Jumping to the latest lines drops the view, follows from then on and opens anew; following is as it was last set. */
  lemma JumpOpensAnew(filtered: bool, s: State, on: bool)
    requires OneAtATime(s)
    ensures Step(filtered, s, SetFollow(on)) == s.(follow := on)
    ensures var t := Step(filtered, s, JumpToLatest);
      if s.loading || s.disposed then t == s
      else t == s.(view := None, follow := true, failed := false, loading := true, flights := [Flight(Opening, None, 0, false)])
  {
    hide WithLater, WithEarlier, OpenedView;
  }

  /** The request has been refused k times and is waiting for its answer again. */
  predicate IsRefused(s: State, flight: Flight, k: nat) {
    s.flights == [flight.(attempt := k, sleeping := false)] && s.loading && !s.disposed
  }

  /** A request refused for asking too often waits and is asked again, three times; the fourth refusal fails it. */
  lemma RetriesThreeTimes(filtered: bool, s: State, flight: Flight, k: nat)
    requires IsRefused(s, flight, k) && k <= RATE_LIMIT_RETRIES && !s.growthPending
    ensures var t := Step(filtered, s, Answered(0, TooMany));
      if k < RATE_LIMIT_RETRIES then
        && t.rateLimited && t.failed == s.failed && t.view == s.view
        && Step(filtered, t, Woken(0)) == t.(flights := [flight.(attempt := k + 1, sleeping := false)])
        && IsRefused(Step(filtered, t, Woken(0)), flight, k + 1)
      else t == s.(flights := [], loading := false, failed := true, rateLimited := false)
  {
    hide WithLater, WithEarlier, OpenedView;
  }

  /** A log that is gone empties the view and ends the following; any other failure leaves the view and is told. */
  lemma FailureIsTold(filtered: bool, s: State)
    requires OneAtATime(s) && |s.flights| == 1 && !s.flights[0].sleeping && !s.disposed && !s.growthPending
    ensures Step(filtered, s, Answered(0, Gone))
      == s.(flights := [], loading := false, expired := true, view := None, follow := false, rateLimited := false)
    ensures Step(filtered, s, Answered(0, Broken)) == s.(flights := [], loading := false, failed := true, rateLimited := false)
  {
    assert Land(s, 0).flights == [];
    hide WithLater, WithEarlier, OpenedView;
  }

  // ---------------------------------------------------------------------------------------------
  // The follow loop ends
  // ---------------------------------------------------------------------------------------------

  /** The follow loop's request, asked at the view's tail. */
  ghost predicate FollowRequest(s: State) {
    && |s.flights| == 1 && s.view.Some?
    && s.flights[0].job == Following && s.flights[0].cursor == Some(s.view.value.tail)
  }

  /** The page ends the loop: it is at the end, brings it no further, finds nothing under a filter, or follow is off. */
  predicate Stops(filtered: bool, s: State, from: nat, page: Page) {
    page.atEnd || page.nextCursor == from || (page.entries == [] && filtered) || !s.follow
  }

  /** The loop's page takes the tail to its cursor, and a further request is made exactly when the page does not end the loop. */
  lemma FollowMerges(filtered: bool, s: State, flight: Flight, page: Page)
    requires s.flights == [] && s.view.Some? && !s.growthPending && !s.disposed
    requires flight.job == Following && flight.cursor == Some(s.view.value.tail) && s.view.value.tail <= page.nextCursor
    ensures var t := Merged(filtered, s, flight, page);
      && t.view.Some? && t.view.value.tail == page.nextCursor && !t.growthPending && !t.disposed && t.follow == s.follow
      && (if Stops(filtered, s, flight.cursor.value, page) then t.flights == [] else AskingForward(t))
  {
    var s1 := s.(view := Some(WithLater(s.view.value, page)));
    assert s1.view.value.tail == page.nextCursor;
    hide WithLater;
    assert End(s1) == s1.(loading := false);
    hide End;
  }

  /**
   A page that answers the follow loop: the loop ends exactly when the page ends it, and then at the end of the log if
   the page says it is there; else the next request starts strictly later.
   */
  lemma FollowMovesOn(filtered: bool, log: seq<Line>, s: State, page: Page)
    requires Contiguous(log, 0) && FollowRequest(s) && !s.flights[0].sleeping && !s.growthPending && !s.disposed
    requires AnswersFlight(log, s, Answered(0, Entries(page)))
    ensures var t, from := Step(filtered, s, Answered(0, Entries(page))), s.flights[0].cursor.value;
      && t.view.Some? && t.view.value.tail == page.nextCursor <= LogEnd(log, 0) && !t.growthPending && !t.disposed
      && (page.atEnd ==> t.view.value.tail == LogEnd(log, 0))
      && (if Stops(filtered, s, from, page) then t.flights == [] else AskingForward(t) && from < t.flights[0].cursor.value)
  {
    BoundaryRange(log, 0, page.nextCursor);
    hide Contiguous, Boundary, Matching, LogEnd, Merged;
    assert Land(s, 0).flights == [];
    FollowMerges(filtered, Land(s, 0).(rateLimited := false), s.flights[0], page);
  }

  /** An answer to the loop's request, or the end of the wait before it is asked again. */
  predicate InLoop(e: Event) {
    (e.Answered? && e.f == 0 && (e.answer.Entries? || e.answer.TooMany?)) || (e.Woken? && e.f == 0)
  }

  /** These events come while the follow loop waits, each for what it waits for, and after each of them it still waits. */
  ghost predicate FollowsOn(filtered: bool, log: seq<Line>, s: State, events: seq<Event>)
    decreases |events|
  {
    events == [] ||
    (var t := Step(filtered, s, events[0]);
     && InLoop(events[0]) && s.flights != [] && (events[0].Woken? <==> s.flights[0].sleeping)
     && AnswersFlight(log, s, events[0]) && t.flights != [] && FollowsOn(filtered, log, t, events[1..]))
  }

  /** What the loop can still go through: for each place left in the log one page, and three refusals and three waits. */
  function StepsLeft(s: State, end: nat): int
    requires |s.flights| == 1 && s.flights[0].cursor.Some?
  {
    7 * (end - s.flights[0].cursor.value) + 2 * (RATE_LIMIT_RETRIES - s.flights[0].attempt) - (if s.flights[0].sleeping then 1 else 0)
  }

  /** One of these events leaves the loop with less to go through. */
  lemma FollowShrinks(filtered: bool, log: seq<Line>, s: State, e: Event)
    requires Contiguous(log, 0) && OneAtATime(s) && FollowRequest(s) && !s.growthPending && !s.disposed
    requires InLoop(e) && (e.Woken? <==> s.flights[0].sleeping) && AnswersFlight(log, s, e)
    ensures var t := Step(filtered, s, e);
      t.flights != [] ==>
        && FollowRequest(t) && !t.growthPending && !t.disposed && StepsLeft(t, LogEnd(log, 0)) < StepsLeft(s, LogEnd(log, 0))
        && (s.flights[0].cursor.value <= LogEnd(log, 0) ==> t.flights[0].cursor.value <= LogEnd(log, 0))
  {
    if e.Answered? && e.answer.Entries? {
      FollowMovesOn(filtered, log, s, e.answer.page);
      hide Step, Contiguous, LogEnd, AnswersFlight;
    } else {
      hide Contiguous, LogEnd, AnswersFlight, Merged, WithLater, WithEarlier, OpenedView;
      assert Land(s, 0).flights == [];
    }
  }

  /** So on a log that does not grow the loop ends: no more than that many events leave it waiting. */
  lemma {:induction false} FollowEnds(filtered: bool, log: seq<Line>, s: State, events: seq<Event>)
    requires Contiguous(log, 0) && OneAtATime(s) && FollowRequest(s) && !s.growthPending && !s.disposed
    requires s.flights[0].cursor.value <= LogEnd(log, 0) && FollowsOn(filtered, log, s, events)
    ensures |events| <= StepsLeft(s, LogEnd(log, 0))
    decreases |events|
  {
    if events == [] {
      hide LogEnd, Contiguous;
    } else {
      FollowShrinks(filtered, log, s, events[0]);
      StepKeeps(filtered, s, events[0]);
      hide Step, OneAtATime, AnswersFlight, LogEnd, Contiguous, StepsLeft;
      FollowEnds(filtered, log, Step(filtered, s, events[0]), events[1..]);
    }
  }

  /** Each event's page answers the request in flight then, on a log that has only grown since. */
  ghost predicate Served(filtered: bool, follow: bool, logs: seq<seq<Line>>, events: seq<Event>)
    requires |logs| == |events|
  {
    && (forall k :: 0 <= k < |logs| ==> Contiguous(logs[k], 0))
    && (forall k :: 0 < k < |logs| ==> logs[k-1] <= logs[k])
    && (forall k :: 0 <= k < |events| ==> AnswersFlight(logs[k], Run(filtered, follow, events[..k]), events[k]))
  }

  /** Over every run on a growing log the rows shown are the slice between the cursors. */
  lemma {:induction false} RunShowsSlice(filtered: bool, follow: bool, logs: seq<seq<Line>>, events: seq<Event>)
    requires |logs| == |events| && Served(filtered, follow, logs, events)
    ensures AskedWell(Run(filtered, follow, events))
    ensures events != [] ==> ShowsSlice(logs[|logs|-1], Run(filtered, follow, events))
    decreases |events|
  {
    hide ShowsSlice, AskedWell, OneAtATime, AnswersFlight, Step, Contiguous;
    if events == [] {
      NothingAsked(filtered, follow);
    } else {
      var n := |events| - 1;
      var before := Run(filtered, follow, events[..n]);
      ServedSoFar(filtered, follow, logs, events);
      RunShowsSlice(filtered, follow, logs[..n], events[..n]);
      RunsOneAtATime(filtered, follow, events[..n]);
      if n > 0 {
        GrownShowsSlice(logs[n-1], logs[n], before);
      } else {
        NothingShown(filtered, follow, logs[n]);
      }
      StepShowsSlice(filtered, logs[n], before, events[n]);
    }
  }

  lemma NothingAsked(filtered: bool, follow: bool)
    ensures AskedWell(Run(filtered, follow, []))
  {
  }

  lemma NothingShown(filtered: bool, follow: bool, log: seq<Line>)
    ensures ShowsSlice(log, Run(filtered, follow, []))
  {
  }

  lemma GrownShowsSlice(log: seq<Line>, grown: seq<Line>, s: State)
    requires Contiguous(log, 0) && Contiguous(grown, 0) && log <= grown && ShowsSlice(log, s)
    ensures ShowsSlice(grown, s)
  {
    assert grown == log + grown[|log|..];
    if s.view.Some? { GrownIsWindow(log, grown[|log|..], s.view.value); }
  }

  lemma ServedSoFar(filtered: bool, follow: bool, logs: seq<seq<Line>>, events: seq<Event>)
    requires |logs| == |events| > 0 && Served(filtered, follow, logs, events)
    ensures Served(filtered, follow, logs[..|logs|-1], events[..|events|-1])
  {
    hide AnswersFlight, Contiguous, Run;
    var n := |events| - 1;
    forall k | 0 <= k < n ensures logs[..n][k] == logs[k] && events[..n][k] == events[k] { }
    forall k | 0 <= k < n ensures AnswersFlight(logs[..n][k], Run(filtered, follow, events[..n][..k]), events[..n][k]) {
      assert events[..n][..k] == events[..k];
    }
  }

  // ---------------------------------------------------------------------------------------------
  // The viewer itself
  // ---------------------------------------------------------------------------------------------

  class LogViewer {
    const filtered: bool
    var state: State

    constructor (filtered: bool, follow: bool)
      ensures state == Init(follow) && this.filtered == filtered
    {
      this.filtered := filtered;
      state := Init(follow);
    }

    /** One task at a time; it runs up to its first request, or ends where it needs none. */
    method Exclusive(job: Job)
      modifies this
      ensures state == Begin(old(state), job)
    {
      if state.loading || state.disposed { return; }
      state := state.(loading := true, failed := false);
      if job == Opening {
        state := state.(flights := state.flights + [Flight(Opening, None, 0, false)]);
      } else if state.view.None? || (job == LoadingEarlier && state.view.value.atStart) || (job == Following && !state.follow) {
        state := state.(loading := false);
      } else {
        var cursor := if job == LoadingEarlier then state.view.value.head else state.view.value.tail;
        state := state.(flights := state.flights + [Flight(job, Some(cursor), 0, false)]);
      }
    }

    /** A task's `finally`, and the follow-up of a growth noticed while it ran. */
    method Finally()
      modifies this
      ensures state == End(old(state))
    {
      if !state.disposed { state := state.(loading := false); }
      if state.growthPending && !state.disposed {
        state := state.(growthPending := false);
        Exclusive(Following);
      }
    }

    method OnGrowth()
      modifies this
      ensures state == Step(filtered, old(state), Event.OnGrowth)
    {
      if !state.follow || state.disposed { return; }
      if state.loading {
        state := state.(growthPending := true);
        return;
      }
      if state.view.None? { return; }
      Exclusive(Following);
    }

    method JumpToLatest()
      modifies this
      ensures state == Step(filtered, old(state), Event.JumpToLatest)
    {
      if state.loading || state.disposed { return; }
      state := state.(follow := true, view := None);
      Exclusive(Opening);
    }

    /** The page the follow loop waited for: merge it, then ask on, or leave the loop. */
    method OnFollowPage(f: nat, page: Page)
      requires f < |state.flights| && !state.flights[f].sleeping && state.flights[f].job == Following
      requires state.flights[f].cursor.Some?
      modifies this
      ensures state == Step(filtered, old(state), Answered(f, Entries(page)))
    {
      hide WithLater, WithEarlier, OpenedView, Begin, End;
      var from := state.flights[f].cursor.value;
      state := state.(flights := state.flights[..f] + state.flights[f+1..]);
      if state.disposed {
        Finally();
        return;
      }
      state := state.(rateLimited := false);
      if state.view.None? {
        Finally();
        return;
      }
      state := state.(view := Some(WithLater(state.view.value, page)));
      if page.atEnd || page.nextCursor <= from || (|page.entries| == 0 && filtered) || !state.follow {
        Finally();
        return;
      }
      state := state.(flights := state.flights + [Flight(Following, Some(state.view.value.tail), 0, false)]);
    }
  }
}
