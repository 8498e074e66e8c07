/**
 * When a sync pass runs: `LinkModel.sync` runs passes one at a time and once more for whoever asked
 * meanwhile (LinkModel.swift), and the folder watcher asks once per burst of changes that are not
 * the pass's own writes (FolderWatcher.swift).
 *
 * All of it runs on the main actor, so what lies between two awaits is one step.
 */
module SyncCoalescing {
  import opened Basics

  datatype Link = Link(syncing: bool, syncAgain: bool, endedAt: Option<int>)

  /** A debounce task: it has been cancelled, or it has woken up. */
  datatype Task = Task(cancelled: bool, woken: bool)

  /** `onWay` calls of `sync` by tasks that have woken up are on their way. */
  datatype State = State(link: Link, tasks: seq<Task>, pending: Option<nat>, onWay: nat)

  const START: State := State(Link(false, false, None), [], None, 0)

  /**
   * The steps: somebody asks for a sync; the running pass ends; the folder changes, by somebody's or
   * by our own write; a debounce task wakes up; its call of `sync`, which is a hop away, arrives; the
   * watcher is told to stop.
   */
  datatype Event =
    | Ask
    | PassEnds(now: int)
    | Change(now: int, own: bool)
    | Wake(task: nat)
    | Arrives
    | Cancel

  predicate Enabled(s: State, e: Event) {
    match e
    case PassEnds(_) => s.link.syncing
    case Wake(k) => k < |s.tasks| && !s.tasks[k].woken
    case Arrives => s.onWay > 0
    case _ => true
  }

  // ---- The steps ----

  /** A call of `sync`, up to its pass's await: it starts a pass, or asks for another one. */
  function Asked(link: Link): Link {
    if link.syncing then link.(syncAgain := true) else link.(syncing := true, syncAgain := false)
  }

  /** The rest of `sync`: another pass if somebody asked, or the end. */
  function Ended(link: Link, now: int): Link {
    if link.syncAgain then link.(syncAgain := false) else link.(syncing := false, endedAt := Some(now))
  }

  /** Whether a change seen now is taken for the pass's own write. */
  predicate IsOwnEcho(link: Link, now: int, quiet: int) {
    link.syncing || (link.endedAt.Some? && now - link.endedAt.value < quiet)
  }

  function Cancelled(s: State): State {
    match s.pending
    case Some(k) => if k < |s.tasks| then s.(tasks := s.tasks[k := s.tasks[k].(cancelled := true)], pending := None)
                    else s.(pending := None)
    case None => s
  }

  function Changed(s: State, now: int, quiet: int): State {
    if IsOwnEcho(s.link, now, quiet) then s
    else
      var t := Cancelled(s);
      t.(tasks := t.tasks + [Task(false, false)], pending := Some(|t.tasks|))
  }

  function Woken(s: State, k: nat): State
    requires k < |s.tasks|
  {
    var t := s.(tasks := s.tasks[k := s.tasks[k].(woken := true)]);
    if s.tasks[k].cancelled then t
    else t.(pending := None, onWay := if s.link.syncing then s.onWay else s.onWay + 1)
  }

  function Step(s: State, e: Event, quiet: int): State
    requires Enabled(s, e)
  {
    match e
    case Ask => s.(link := Asked(s.link))
    case PassEnds(now) => s.(link := Ended(s.link, now))
    case Change(now, _) => Changed(s, now, quiet)
    case Wake(k) => Woken(s, k)
    case Arrives => s.(link := Asked(s.link), onWay := s.onWay - 1)
    case Cancel => Cancelled(s)
  }

  // ---- What happened: the steps at which things happened, in order ----

  /** `calls` of `sync`, passes started and ended, changes taken up, calls by the watcher, and cancellations. */
  datatype History = History(clock: nat, calls: seq<nat>, starts: seq<nat>, ends: nat,
                             taken: seq<nat>, watched: nat, cancels: seq<nat>)

  const NOTHING: History := History(0, [], [], 0, [], 0, [])

  /** The step is a call of `sync`. */
  predicate Calls(e: Event) {
    e.Ask? || e.Arrives?
  }

  /** The step starts a pass. */
  predicate Starts(s: State, e: Event)
    requires Enabled(s, e)
  {
    (Calls(e) && !s.link.syncing) || (e.PassEnds? && s.link.syncAgain)
  }

  predicate Takes(s: State, e: Event, quiet: int) {
    e.Change? && !IsOwnEcho(s.link, e.now, quiet)
  }

  function Recorded(h: History, s: State, e: Event, quiet: int): History
    requires Enabled(s, e)
  {
    History(h.clock + 1,
            if Calls(e) then h.calls + [h.clock] else h.calls,
            if Starts(s, e) then h.starts + [h.clock] else h.starts,
            if e.PassEnds? then h.ends + 1 else h.ends,
            if Takes(s, e, quiet) then h.taken + [h.clock] else h.taken,
            if e.Arrives? then h.watched + 1 else h.watched,
            if e.Cancel? then h.cancels + [h.clock] else h.cancels)
  }

  datatype World = World(state: State, history: History)

  ghost predicate Run(ws: seq<World>, events: seq<Event>, quiet: int) {
    && |ws| == |events| + 1 && ws[0] == World(START, NOTHING)
    && forall i | 0 <= i < |events| :: Leads(ws[i], events[i], quiet, ws[i + 1])
  }

  ghost predicate Leads(w: World, e: Event, quiet: int, w': World) {
    Enabled(w.state, e) && w' == World(Step(w.state, e, quiet), Recorded(w.history, w.state, e, quiet))
  }

  // ---- The invariant ----

  ghost predicate SomeSince(times: seq<nat>, t: nat) {
    exists i :: 0 <= i < |times| && times[i] >= t
  }

  ghost predicate Before(times: seq<nat>, clock: nat) {
    forall i | 0 <= i < |times| :: times[i] < clock
  }

  /** Passes run one at a time, no more than were asked for, and nobody who asked is forgotten. */
  ghost predicate PassesInv(link: Link, h: History) {
    && |h.starts| == h.ends + (if link.syncing then 1 else 0)
    && |h.starts| + (if link.syncAgain then 1 else 0) <= |h.calls|
    && (link.syncAgain ==> link.syncing)
    && (forall i | 0 <= i < |h.calls| :: SomeSince(h.starts, h.calls[i]) || link.syncAgain)
    && Before(h.starts, h.clock) && Before(h.calls, h.clock)
  }

  /** The one task that may still act is the pending one. */
  ghost predicate TasksInv(s: State) {
    && (s.pending.Some? ==>
          s.pending.value < |s.tasks| && !s.tasks[s.pending.value].cancelled && !s.tasks[s.pending.value].woken)
    && forall k | 0 <= k < |s.tasks| && !s.tasks[k].cancelled && !s.tasks[k].woken :: s.pending == Some(k)
  }

  /** A change that was taken up has been followed by a pass, or will be, or the watcher was stopped since. */
  ghost predicate ChangesInv(s: State, h: History) {
    && (forall i | 0 <= i < |h.taken| ::
          SomeSince(h.starts, h.taken[i]) || s.pending.Some? || s.onWay > 0 || SomeSince(h.cancels, h.taken[i]))
    && (s.link.syncing ==> h.starts != [] && Before(h.taken, h.starts[|h.starts| - 1]))
    && h.watched + s.onWay + (if s.pending.Some? then 1 else 0) <= |h.taken|
    && Before(h.taken, h.clock) && Before(h.cancels, h.clock)
  }

  ghost predicate Inv(w: World) {
    PassesInv(w.state.link, w.history) && TasksInv(w.state) && ChangesInv(w.state, w.history)
  }

  lemma SinceGrows(times: seq<nat>, more: seq<nat>, t: nat)
    requires SomeSince(times, t) && (more == times || (more != [] && more[..|more| - 1] == times))
    ensures SomeSince(more, t)
  {
    var i :| 0 <= i < |times| && times[i] >= t;
    assert more[i] == times[i];
  }

  lemma SinceNow(times: seq<nat>, clock: nat, t: nat)
    requires t <= clock
    ensures SomeSince(times + [clock], t)
  {
    assert (times + [clock])[|times|] == clock;
  }

  lemma StepKeepsPasses(s: State, h: History, e: Event, quiet: int)
    requires PassesInv(s.link, h) && Enabled(s, e)
    ensures PassesInv(Step(s, e, quiet).link, Recorded(h, s, e, quiet))
  {
    var h' := Recorded(h, s, e, quiet);
    forall i | 0 <= i < |h'.calls|
      ensures SomeSince(h'.starts, h'.calls[i]) || Step(s, e, quiet).link.syncAgain
    {
      if Starts(s, e) {
        SinceNow(h.starts, h.clock, h'.calls[i]);
      } else if i < |h.calls| && SomeSince(h.starts, h.calls[i]) {
        SinceGrows(h.starts, h'.starts, h.calls[i]);
      }
    }
  }

  lemma StepKeepsTasks(s: State, e: Event, quiet: int)
    requires TasksInv(s) && Enabled(s, e)
    ensures TasksInv(Step(s, e, quiet))
  {
  }

  lemma StepKeepsChanges(s: State, h: History, e: Event, quiet: int)
    requires PassesInv(s.link, h) && TasksInv(s) && ChangesInv(s, h) && Enabled(s, e)
    ensures ChangesInv(Step(s, e, quiet), Recorded(h, s, e, quiet))
  {
    var t, h' := Step(s, e, quiet), Recorded(h, s, e, quiet);
    forall i | 0 <= i < |h'.taken|
      ensures SomeSince(h'.starts, h'.taken[i]) || t.pending.Some? || t.onWay > 0 || SomeSince(h'.cancels, h'.taken[i])
    {
      if Starts(s, e) {
        SinceNow(h.starts, h.clock, h'.taken[i]);
      } else if e.Cancel? {
        SinceNow(h.cancels, h.clock, h'.taken[i]);
      } else if i < |h.taken| && SomeSince(h.starts, h.taken[i]) {
        SinceGrows(h.starts, h'.starts, h.taken[i]);
      }
    }
  }

  lemma LeadsKeepsInv(w: World, e: Event, quiet: int, w': World)
    requires Inv(w) && Leads(w, e, quiet, w')
    ensures Inv(w')
  {
    StepKeepsPasses(w.state, w.history, e, quiet);
    StepKeepsTasks(w.state, e, quiet);
    StepKeepsChanges(w.state, w.history, e, quiet);
  }

  lemma StartsWithInv()
    ensures Inv(World(START, NOTHING))
  {
  }

  lemma {:induction false} RunKeepsInv(ws: seq<World>, events: seq<Event>, quiet: int, n: nat)
    requires Run(ws, events, quiet) && n < |ws|
    ensures Inv(ws[n])
  {
    if n == 0 {
      StartsWithInv();
    } else {
      RunKeepsInv(ws, events, quiet, n - 1);
      assert Leads(ws[n - 1], events[n - 1], quiet, ws[n]);
      LeadsKeepsInv(ws[n - 1], events[n - 1], quiet, ws[n]);
    }
  }

  // ---- What holds in any run ----

  /**
   * Two passes never overlap, there are never more passes than calls, and whenever no pass is
   * running every call so far has been followed by a pass that started at or after it.
   */
  lemma NoCallLost(ws: seq<World>, events: seq<Event>, quiet: int, n: nat)
    requires Run(ws, events, quiet) && n < |ws|
    ensures var link, h := ws[n].state.link, ws[n].history;
            && h.ends <= |h.starts| <= h.ends + 1
            && (link.syncing <==> |h.starts| == h.ends + 1)
            && |h.starts| <= |h.calls|
            && (!link.syncing ==> forall i | 0 <= i < |h.calls| :: SomeSince(h.starts, h.calls[i]))
  {
    RunKeepsInv(ws, events, quiet, n);
  }

  /**
   * At most one debounce task can still act. Once none can and no call of one is on its way, every
   * change that was taken up has been followed by a pass that started after it, unless the watcher
   * was stopped since.
   */
  lemma NoChangeLost(ws: seq<World>, events: seq<Event>, quiet: int, n: nat)
    requires Run(ws, events, quiet) && n < |ws|
    ensures var s, h := ws[n].state, ws[n].history;
            && (forall j, k | 0 <= j < k < |s.tasks| && !s.tasks[j].cancelled && !s.tasks[j].woken ::
                  s.tasks[k].cancelled || s.tasks[k].woken)
            && ((forall k | 0 <= k < |s.tasks| :: s.tasks[k].cancelled || s.tasks[k].woken) && s.onWay == 0 ==>
                  forall i | 0 <= i < |h.taken| ::
                    SomeSince(h.starts, h.taken[i]) || SomeSince(h.cancels, h.taken[i]))
  {
    RunKeepsInv(ws, events, quiet, n);
  }

  // ---- Which changes are taken up ----

  /** The step after `j` others ended a sync: the last pass of it was over. */
  ghost predicate EndsSync(ws: seq<World>, events: seq<Event>, j: int) {
    && 0 <= j < |events| && j + 1 < |ws| && events[j].PassEnds?
    && |ws[j + 1].history.starts| == ws[j + 1].history.ends
  }

  /** The last sync that ended before step `i` did so at step `j`. */
  ghost predicate LastEnded(ws: seq<World>, events: seq<Event>, i: nat, j: int) {
    EndsSync(ws, events, j) && j < i && forall k | j < k < i :: !EndsSync(ws, events, k)
  }

  /** No pass is running, and the last sync, if any, ended long enough ago. */
  ghost predicate IsQuiet(ws: seq<World>, events: seq<Event>, i: nat, now: int, quiet: int)
    requires i < |ws|
  {
    && |ws[i].history.starts| == ws[i].history.ends
    && forall j | LastEnded(ws, events, i, j) :: now - events[j].now >= quiet
  }

  /** The time is noted by the step that ends a sync, and by no other. */
  lemma EndStep(ws: seq<World>, events: seq<Event>, quiet: int, i: nat)
    requires Run(ws, events, quiet) && i < |events|
    ensures ws[i + 1].state.link.endedAt
         == if EndsSync(ws, events, i) then Some(events[i].now) else ws[i].state.link.endedAt
  {
    RunKeepsInv(ws, events, quiet, i);
    RunKeepsInv(ws, events, quiet, i + 1);
    assert Leads(ws[i], events[i], quiet, ws[i + 1]);
  }

  lemma NextEnded(ws: seq<World>, events: seq<Event>, i: nat, n: nat)
    requires n == i + 1
    ensures EndsSync(ws, events, i) ==> LastEnded(ws, events, n, i)
    ensures !EndsSync(ws, events, i) ==> forall j :: LastEnded(ws, events, n, j) <==> LastEnded(ws, events, i, j)
  {
    if !EndsSync(ws, events, i) {
      forall j
        ensures LastEnded(ws, events, n, j) <==> LastEnded(ws, events, i, j)
      {
        assert LastEnded(ws, events, n, j) ==> j != i;
      }
    }
  }

  /** The model notes when the last sync ended. */
  lemma {:induction false} EndIsNoted(ws: seq<World>, events: seq<Event>, quiet: int, i: nat)
    requires Run(ws, events, quiet) && i < |ws|
    ensures match ws[i].state.link.endedAt
            case None => forall j :: !LastEnded(ws, events, i, j)
            case Some(at) => exists j :: LastEnded(ws, events, i, j) && events[j].now == at
  {
    if i > 0 {
      EndIsNoted(ws, events, quiet, i - 1);
      EndStep(ws, events, quiet, i - 1);
      NextEnded(ws, events, i - 1, i);
    }
  }

  lemma OneLastEnded(ws: seq<World>, events: seq<Event>, i: nat, j: int, k: int)
    requires LastEnded(ws, events, i, j) && LastEnded(ws, events, i, k)
    ensures j == k
  {
  }

  lemma QuietExactly(ws: seq<World>, events: seq<Event>, quiet: int, i: nat, now: int)
    requires Run(ws, events, quiet) && i < |ws|
    ensures IsOwnEcho(ws[i].state.link, now, quiet) <==> !IsQuiet(ws, events, i, now, quiet)
  {
    RunKeepsInv(ws, events, quiet, i);
    EndIsNoted(ws, events, quiet, i);
    var endedAt := ws[i].state.link.endedAt;
    if endedAt.Some? {
      var j :| LastEnded(ws, events, i, j) && events[j].now == endedAt.value;
      forall k | LastEnded(ws, events, i, k)
        ensures k == j
      {
        OneLastEnded(ws, events, i, j, k);
      }
    }
  }

  lemma {:induction false} ClockCounts(ws: seq<World>, events: seq<Event>, quiet: int, i: nat)
    requires Run(ws, events, quiet) && i < |ws|
    ensures ws[i].history.clock == i
  {
    if i > 0 {
      ClockCounts(ws, events, quiet, i - 1);
      assert Leads(ws[i - 1], events[i - 1], quiet, ws[i]);
    }
  }

  /**
   * A change is taken up, by a new task that waits, exactly when no pass is running and the last sync
   * ended at least the quiet time ago; any other change leaves everything as it is.
   */
  lemma TakenExactly(ws: seq<World>, events: seq<Event>, quiet: int, i: nat)
    requires Run(ws, events, quiet) && i < |events| && events[i].Change?
    ensures if IsQuiet(ws, events, i, events[i].now, quiet) then
              && ws[i + 1].history.taken == ws[i].history.taken + [i]
              && |ws[i + 1].state.tasks| == |ws[i].state.tasks| + 1
              && ws[i + 1].state.pending == Some(|ws[i].state.tasks|)
            else ws[i + 1].state == ws[i].state && ws[i + 1].history.taken == ws[i].history.taken
  {
    assert Leads(ws[i], events[i], quiet, ws[i + 1]);
    QuietExactly(ws, events, quiet, i, events[i].now);
    RunKeepsInv(ws, events, quiet, i);
    ClockCounts(ws, events, quiet, i);
  }

  /** The task has neither been cancelled nor woken up. */
  predicate CanAct(s: State, k: int) {
    0 <= k < |s.tasks| && !s.tasks[k].cancelled && !s.tasks[k].woken
  }

  predicate NoneCanAct(s: State) {
    forall k | 0 <= k < |s.tasks| :: !CanAct(s, k)
  }

  /** Right after the watcher is stopped no task can act. */
  lemma CancelStops(ws: seq<World>, events: seq<Event>, quiet: int, i: nat)
    requires Run(ws, events, quiet) && i < |events| && events[i].Cancel?
    ensures NoneCanAct(ws[i + 1].state)
  {
    assert Leads(ws[i], events[i], quiet, ws[i + 1]);
    RunKeepsInv(ws, events, quiet, i);
    RunKeepsInv(ws, events, quiet, i + 1);
  }

  /** A task that wakes calls `sync` exactly when it was not cancelled and no pass is running. */
  lemma WakesExactly(ws: seq<World>, events: seq<Event>, quiet: int, i: nat)
    requires Run(ws, events, quiet) && i < |events| && events[i].Wake?
    ensures ws[i].state.tasks != [] && events[i].task < |ws[i].state.tasks|
    ensures ws[i + 1].state.onWay == ws[i].state.onWay
              + if !ws[i].state.tasks[events[i].task].cancelled && |ws[i].history.starts| == ws[i].history.ends
                then 1 else 0
  {
    assert Leads(ws[i], events[i], quiet, ws[i + 1]);
    RunKeepsInv(ws, events, quiet, i);
  }

  // ---- The watcher does not feed itself ----

  /** The changes among the events that were taken up. */
  ghost function TakenEvents(ws: seq<World>, events: seq<Event>, quiet: int, n: nat): (taken: seq<Event>)
    requires n <= |events| < |ws|
  {
    if n == 0 then []
    else
      TakenEvents(ws, events, quiet, n - 1)
      + if events[n - 1].Change? && IsQuiet(ws, events, n - 1, events[n - 1].now, quiet) then [events[n - 1]] else []
  }

  lemma TakesOne(ws: seq<World>, events: seq<Event>, quiet: int, i: nat)
    requires Run(ws, events, quiet) && i < |events|
    ensures |ws[i + 1].history.taken| == |ws[i].history.taken|
              + if events[i].Change? && IsQuiet(ws, events, i, events[i].now, quiet) then 1 else 0
  {
    assert Leads(ws[i], events[i], quiet, ws[i + 1]);
    if events[i].Change? {
      QuietExactly(ws, events, quiet, i, events[i].now);
    }
  }

  lemma {:induction false} TakenAreEvents(ws: seq<World>, events: seq<Event>, quiet: int, n: nat)
    requires Run(ws, events, quiet) && n < |ws|
    ensures |ws[n].history.taken| == |TakenEvents(ws, events, quiet, n)|
  {
    if n > 0 {
      TakenAreEvents(ws, events, quiet, n - 1);
      TakesOne(ws, events, quiet, n - 1);
    }
  }

  /** The notices of a pass's own writes all come while a pass runs or within the quiet time after a sync. */
  ghost predicate NoticesInTime(ws: seq<World>, events: seq<Event>, quiet: int, n: nat)
    requires n <= |events| < |ws|
  {
    forall i | 0 <= i < n && events[i].Change? && events[i].own :: !IsQuiet(ws, events, i, events[i].now, quiet)
  }

  lemma {:induction false} TakenAreByOthers(ws: seq<World>, events: seq<Event>, quiet: int, n: nat)
    requires Run(ws, events, quiet) && n < |ws| && NoticesInTime(ws, events, quiet, n)
    ensures forall e | e in TakenEvents(ws, events, quiet, n) :: e.Change? && !e.own
  {
    if n > 0 {
      TakenAreByOthers(ws, events, quiet, n - 1);
    }
  }

  /**
   * The watcher never starts more syncs than changes came in quiet; and when the notices of a pass's
   * own writes arrive while it runs or within the quiet time after it, each of those is a change by
   * others: the watcher cannot feed itself.
   */
  lemma WatcherDoesNotFeedItself(ws: seq<World>, events: seq<Event>, quiet: int, n: nat)
    requires Run(ws, events, quiet) && n < |ws|
    ensures ws[n].history.watched <= |TakenEvents(ws, events, quiet, n)|
    ensures NoticesInTime(ws, events, quiet, n) ==>
              forall e | e in TakenEvents(ws, events, quiet, n) :: e.Change? && !e.own
  {
    RunKeepsInv(ws, events, quiet, n);
    TakenAreEvents(ws, events, quiet, n);
    if NoticesInTime(ws, events, quiet, n) {
      TakenAreByOthers(ws, events, quiet, n);
    }
  }

  // ---- The classes ----

  class LinkModel {
    var syncing: bool
    var syncAgain: bool
    var syncEndedAt: Option<int>

    function Now(): Link
      reads this
    {
      Link(syncing, syncAgain, syncEndedAt)
    }

    constructor ()
      ensures Now() == START.link
    {
      syncing, syncAgain, syncEndedAt := false, false, None;
    }

    /** A call of `sync`, up to the await of the pass it starts. Answers whether it started one. */
    method Sync() returns (starts: bool)
      modifies this
      ensures Now() == Asked(old(Now()))
      ensures starts <==> !old(syncing)
    {
      if syncing {
        syncAgain := true;
        return false;
      }
      syncing := true;
      syncAgain := false;
      return true;
    }

    /** `sync` goes on after a pass. Answers whether it starts another one. */
    method PassEnded(now: int) returns (again: bool)
      requires syncing
      modifies this
      ensures Now() == Ended(old(Now()), now)
      ensures again <==> syncing
    {
      if syncAgain {
        syncAgain := false;
        return true;
      }
      syncing := false;
      syncEndedAt := Some(now);
      return false;
    }
  }

  class FolderChangeDebouncer {
    const link: LinkModel
    const quiet: int
    var tasks: seq<Task>
    var pending: Option<nat>
    var onWay: nat

    ghost predicate Valid()
      reads this, link
    {
      TasksInv(Now())
    }

    function Now(): State
      reads this, link
    {
      State(link.Now(), tasks, pending, onWay)
    }

    constructor (link: LinkModel, quiet: int)
      ensures this.link == link && this.quiet == quiet && Valid()
      ensures Now() == START.(link := link.Now())
    {
      this.link, this.quiet := link, quiet;
      tasks, pending, onWay := [], None, 0;
    }

    method OwnEcho(now: int) returns (r: bool)
      ensures r <==> IsOwnEcho(link.Now(), now, quiet)
    {
      if link.syncing {
        return true;
      }
      if link.syncEndedAt.Some? && now - link.syncEndedAt.value < quiet {
        return true;
      }
      return false;
    }

    method FolderChanged(now: int)
      requires Valid()
      modifies this
      ensures Valid() && Now() == Changed(old(Now()), now, quiet)
    {
      var own := OwnEcho(now);
      if own {
        return;
      }
      if pending.Some? {
        tasks := tasks[pending.value := tasks[pending.value].(cancelled := true)];
      }
      pending := Some(|tasks|);
      tasks := tasks + [Task(false, false)];
    }

    /** A task's sleep is over: it may be about to call `sync`, which takes a hop. */
    method TaskWakes(k: nat)
      requires Valid() && k < |tasks| && !tasks[k].woken
      modifies this
      ensures Valid() && Now() == Woken(old(Now()), k)
    {
      tasks := tasks[k := tasks[k].(woken := true)];
      if tasks[k].cancelled {
        return;
      }
      pending := None;
      if !link.syncing {
        onWay := onWay + 1;
      }
    }

    /** A woken task's call of `sync` arrives. */
    method CallArrives()
      requires Valid() && onWay > 0
      modifies this, link
      ensures Valid() && Now() == Step(old(Now()), Arrives, quiet)
    {
      onWay := onWay - 1;
      var _ := link.Sync();
    }

    method Cancel()
      requires Valid()
      modifies this
      ensures Valid() && Now() == Cancelled(old(Now()))
    {
      if pending.Some? {
        tasks := tasks[pending.value := tasks[pending.value].(cancelled := true)];
      }
      pending := None;
    }
  }
}
