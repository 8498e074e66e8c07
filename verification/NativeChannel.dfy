/**
 * The Chromium channel to the app (native.js): requests in flight over a port that can go away at
 * any time, their timers, the cached status, and reconnecting with a growing delay.
 *
 * One event is one task of the worker, including the continuations its resolved promises run:
 * those of `ensureHello`, `refreshState` and the reconnect attempt, in the order of the resolves.
 */
module NativeChannel {
  import opened Basics

  datatype Status = Disconnected | Connecting | Ready | Locked | Error

  datatype Code = VaultLocked | ApprovalTimeout | OtherCode

  /** The body of a reply, as far as anything here looks at it. */
  datatype Body =
    | Welcome(unlocked: bool)
    | StatusReply(unlocked: bool)
    | ErrorReply(code: Code)
    | OtherBody(content: string)

  /** What waits for a request: a handshake (a reconnect attempt's, or another's), a status refresh, or a caller. */
  datatype Kind = Hello(retry: bool) | Refresh | Other

  /** A frame from a port: a reply by id, a push, or something else. */
  datatype Frame = Reply(id: nat, body: Body) | Push | Junk

  /** One resolved request: its id, unless it failed before it got one, its kind, and what it was resolved with. */
  datatype Answer = Answer(id: Option<nat>, kind: Kind, body: Body, framed: bool)

  const DEFAULT_DELAYS: seq<nat> := [1_000, 2_000, 4_000, 8_000, 16_000, 30_000]

  /** A delay that was started: how many had been since the last welcome, of which schedule, and how long. */
  datatype Wait = Wait(k: nat, delays: seq<nat>, delay: nat)

  datatype Channel = Channel(
    status: Status, port: Option<nat>, ports: nat,
    pending: map<nat, Kind>, timers: set<nat>, nextId: nat,
    autoReconnect: bool, delays: seq<nat>, reconnectTimer: Option<nat>, attempt: nat,
    // what happened: requests made, requests resolved, delays since the last welcome, whether the port was lost
    calls: nat, answers: seq<Answer>, waits: seq<Wait>, lost: bool)

  const START: Channel :=
    Channel(Disconnected, None, 0, map[], {}, 0, false, DEFAULT_DELAYS, None, 0, 0, [], [], false)

  // ---- Reconnecting ----

  function Min(a: nat, b: nat): nat {
    if a < b then a else b
  }

  function StopReconnecting(c: Channel): Channel {
    c.(reconnectTimer := None, attempt := 0, waits := [])
  }

  function ScheduleReconnect(c: Channel): Channel
    requires c.delays != []
  {
    if !c.autoReconnect || c.reconnectTimer.Some? then c
    else
      var delay := c.delays[Min(c.attempt, |c.delays| - 1)];
      c.(reconnectTimer := Some(delay), attempt := c.attempt + 1, waits := c.waits + [Wait(c.attempt, c.delays, delay)])
  }

  // ---- Continuations ----

  /** What the one waiting for a request does with its reply. */
  function Continue(c: Channel, kind: Kind, body: Body): Channel
    requires c.delays != []
  {
    match kind
    case Hello(retry) =>
      if body.Welcome? then StopReconnecting(c).(status := if body.unlocked then Ready else Locked)
      else if retry then ScheduleReconnect(c.(status := Error))
      else c.(status := Error)
    case Refresh =>
      if body.StatusReply? then c.(status := if body.unlocked then Ready else Locked)
      else if body == ErrorReply(VaultLocked) then c.(status := Locked)
      else if body.ErrorReply? then c.(status := Error)
      else c
    case Other => c
  }

  /** The continuations of the failed requests with ids up to `n`, in order. */
  function ContinueFailed(c: Channel, failing: map<nat, Kind>, n: nat): (r: Channel)
    requires c.delays != []
    ensures r.delays == c.delays
  {
    if n == 0 then c
    else
      var before := ContinueFailed(c, failing, n - 1);
      if n in failing then Continue(before, failing[n], ErrorReply(VaultLocked)) else before
  }

  /** The answers that failing the requests with ids up to `n` gives, in order. */
  function FailedAnswers(failing: map<nat, Kind>, n: nat): seq<Answer> {
    if n == 0 then []
    else
      FailedAnswers(failing, n - 1)
      + if n in failing then [Answer(Some(n), failing[n], ErrorReply(VaultLocked), false)] else []
  }

  /** The port is gone: everything waiting fails, and a reconnect is scheduled. The continuations are yet to run. */
  function DropPort(c: Channel): Channel
    requires c.delays != []
  {
    ScheduleReconnect(Dropped(c))
  }

  function Dropped(c: Channel): Channel {
    c.(status := Disconnected, port := None, pending := map[], timers := {},
       answers := c.answers + FailedAnswers(c.pending, c.nextId), lost := c.lost || c.autoReconnect)
  }

  // ---- Events ----

  /** A request that is resolved with an error at once, after those that failed with it. */
  function RefuseCall(c: Channel, id: Option<nat>, failing: map<nat, Kind>, kind: Kind): Channel
    requires c.delays != []
  {
    var told := c.(answers := c.answers + [Answer(id, kind, ErrorReply(VaultLocked), false)]);
    Continue(ContinueFailed(told, failing, c.nextId), kind, ErrorReply(VaultLocked))
  }

  /** The port, or a new one. */
  function Connected(c: Channel): Channel {
    if c.port.Some? then c else c.(port := Some(c.ports), ports := c.ports + 1, status := Connecting)
  }

  /** A request goes out over the port under a new id, or takes the port down with it. */
  function Post(c: Channel, kind: Kind, posts: bool): Channel
    requires c.delays != []
  {
    var id := c.nextId + 1;
    if posts then c.(nextId := id, pending := c.pending[id := kind], timers := c.timers + {id})
    else RefuseCall(DropPort(c.(nextId := id)), Some(id), c.pending, kind)
  }

  /** `callOverPort`, when connecting and posting go as told. */
  function Call(c: Channel, kind: Kind, connects: bool, posts: bool): Channel
    requires c.delays != []
  {
    var asked := c.(calls := c.calls + 1);
    if c.port.None? && !connects then RefuseCall(DropPort(asked), None, c.pending, kind)
    else Post(Connected(asked), kind, posts)
  }

  /** `ensureHello`: nothing while the session is there, or else a handshake. */
  function EnsureHello(c: Channel, retry: bool, connects: bool, posts: bool): Channel
    requires c.delays != []
  {
    if c.status == Ready && c.port.Some? then c else Call(c, Hello(retry), connects, posts)
  }

  function Message(c: Channel, frame: Frame): Channel
    requires c.delays != []
  {
    if frame.Reply? && frame.id in c.pending
    then Continue(c.(pending := c.pending - {frame.id}, timers := c.timers - {frame.id},
                     answers := c.answers + [Answer(Some(frame.id), c.pending[frame.id], frame.body, true)]),
                  c.pending[frame.id], frame.body)
    else c
  }

  function Disconnect(c: Channel): Channel
    requires c.delays != []
  {
    ContinueFailed(DropPort(c), c.pending, c.nextId)
  }

  function Timeout(c: Channel, id: nat): Channel
    requires c.delays != [] && id in c.pending
  {
    Continue(c.(pending := c.pending - {id}, timers := c.timers - {id},
                answers := c.answers + [Answer(Some(id), c.pending[id], ErrorReply(ApprovalTimeout), false)]),
             c.pending[id], ErrorReply(ApprovalTimeout))
  }

  function ReconnectFires(c: Channel, connects: bool, posts: bool): Channel
    requires c.delays != []
  {
    EnsureHello(c.(reconnectTimer := None), true, connects, posts)
  }

  function Enable(c: Channel, delays: seq<nat>): Channel {
    c.(autoReconnect := true, delays := if delays != [] then delays else c.delays)
  }

  function Disable(c: Channel): Channel {
    StopReconnecting(c.(autoReconnect := false, delays := DEFAULT_DELAYS)).(lost := false)
  }

  datatype Event =
    | OnCall(kind: Kind, connects: bool, posts: bool)
    | OnHello(connects: bool, posts: bool)
    | OnMessage(from: nat, frame: Frame)
    | OnDisconnect(from: nat)
    | OnTimeout(id: nat)
    | OnReconnect(connects: bool, posts: bool)
    | OnEnable(newDelays: seq<nat>)
    | OnDisable

  /**
   * Timers fire only while they are live. A port that was ever opened may still speak or report that
   * it disconnected, whether or not it is the current one. Callers ask for a plain request or a
   * status refresh; handshakes are `ensureHello`'s.
   */
  predicate Enabled(c: Channel, e: Event) {
    match e
    case OnCall(kind, _, _) => !kind.Hello?
    case OnMessage(from, _) => from < c.ports
    case OnDisconnect(from) => from < c.ports
    case OnTimeout(id) => id in c.timers
    case OnReconnect(_, _) => c.reconnectTimer.Some?
    case _ => true
  }

  function Step(c: Channel, e: Event): Channel
    requires c.delays != [] && c.timers <= c.pending.Keys && Enabled(c, e)
  {
    match e
    case OnCall(kind, connects, posts) => Call(c, kind, connects, posts)
    case OnHello(connects, posts) => EnsureHello(c, false, connects, posts)
    case OnMessage(_, frame) => Message(c, frame)
    case OnDisconnect(_) => Disconnect(c)
    case OnTimeout(id) => Timeout(c, id)
    case OnReconnect(connects, posts) => ReconnectFires(c, connects, posts)
    case OnEnable(delays) => Enable(c, delays)
    case OnDisable => Disable(c)
  }

  // ---- The invariant at task boundaries ----

  /** The live request timers are those of the pending requests, and without a port there are none. */
  ghost predicate Requests(c: Channel) {
    && c.timers == c.pending.Keys
    && (forall id | id in c.pending :: 1 <= id <= c.nextId)
    && (c.port.None? ==> c.pending == map[])
  }

  /** No id is resolved twice, or while it is pending; what did not come in a frame is an error. */
  ghost predicate Answered(c: Channel) {
    && (forall i | 0 <= i < |c.answers| && c.answers[i].id.Some? ::
          1 <= c.answers[i].id.value <= c.nextId && c.answers[i].id.value !in c.pending)
    && (forall i, j | 0 <= i < j < |c.answers| && c.answers[i].id.Some? :: c.answers[i].id != c.answers[j].id)
    && (forall i | 0 <= i < |c.answers| && !c.answers[i].framed :: c.answers[i].body.ErrorReply?)
  }

  /** The channel never says it is ready without a port. */
  ghost predicate Honest(c: Channel) {
    && c.delays != []
    && (c.status == Ready ==> c.port.Some?)
    && (c.lost ==> c.autoReconnect)
    && (c.reconnectTimer.Some? ==> c.autoReconnect)
  }

  /** The k-th delay since the last welcome is the k-th of the schedule, or its last. */
  ghost predicate Waits(c: Channel) {
    && |c.waits| == c.attempt
    && forall k | 0 <= k < |c.waits| ::
         var wait := c.waits[k];
         wait.k == k && wait.delays != [] && wait.delay == wait.delays[Min(k, |wait.delays| - 1)]
  }

  /** What holds even while a task has yet to look for a new port, or to answer its own request. */
  ghost predicate Settled(c: Channel) {
    Requests(c) && Answered(c) && Honest(c) && Waits(c)
  }

  /** A lost port is always being looked for. */
  ghost predicate Looking(c: Channel) {
    c.lost && c.port.None? ==> c.reconnectTimer.Some?
  }

  /** At a task boundary, moreover, every request made is pending or resolved. */
  ghost predicate Inv(c: Channel) {
    Settled(c) && Looking(c) && c.calls == |c.pending| + |c.answers|
  }

  // ---- The invariant is kept ----

  /** Nothing about the requests differs. */
  ghost predicate SameRequests(c: Channel, d: Channel) {
    d.port == c.port && d.pending == c.pending && d.nextId == c.nextId && d.calls == c.calls && d.answers == c.answers
  }

  lemma ScheduleKeeps(c: Channel)
    requires Settled(c)
    ensures var d := ScheduleReconnect(c);
            Settled(d) && SameRequests(c, d) && (c.port.Some? || Looking(c) || c.autoReconnect ==> Looking(d))
  {
  }

  /** Only what a reply over the port said can make the status say that the session is there. */
  lemma StatusKeeps(c: Channel, status: Status)
    requires Settled(c) && Looking(c) && (status == Ready ==> c.port.Some?)
    ensures var d := c.(status := status); Settled(d) && Looking(d) && SameRequests(c, d)
  {
  }

  lemma WelcomeKeeps(c: Channel, unlocked: bool)
    requires Settled(c) && Looking(c) && c.port.Some?
    ensures var d := Continue(c, Hello(false), Welcome(unlocked)); Settled(d) && Looking(d) && SameRequests(c, d)
  {
  }

  /** A continuation keeps the invariant: only a reply that came over the port says the session is there. */
  lemma ContinueKeeps(c: Channel, kind: Kind, body: Body)
    requires Settled(c) && Looking(c) && (body.Welcome? || body.StatusReply? ==> c.port.Some?)
    ensures var d := Continue(c, kind, body); Settled(d) && Looking(d) && SameRequests(c, d)
  {
    StatusKeeps(c, Continue(c, kind, body).status);
    match kind {
      case Hello(retry) =>
        if body.Welcome? {
          WelcomeKeeps(c, body.unlocked);
        } else if retry {
          StatusKeeps(c, Error);
          ScheduleKeeps(c.(status := Error));
        }
      case Refresh =>
      case Other =>
    }
  }

  lemma {:induction false} ContinueFailedKeeps(c: Channel, failing: map<nat, Kind>, n: nat)
    requires Settled(c) && Looking(c)
    ensures var d := ContinueFailed(c, failing, n); Settled(d) && Looking(d) && SameRequests(c, d)
  {
    if n > 0 {
      ContinueFailedKeeps(c, failing, n - 1);
      if n in failing {
        ContinueKeeps(ContinueFailed(c, failing, n - 1), failing[n], ErrorReply(VaultLocked));
      }
    }
  }

  /** Failing answers each request up to `n` once, in the order they were made. */
  ghost predicate AnswersInOrder(answers: seq<Answer>, failing: map<nat, Kind>, n: nat) {
    && (forall i | 0 <= i < |answers| :: FailedAnswer(answers[i], failing, n))
    && (forall i, j | 0 <= i < j < |answers| && answers[i].id.Some? && answers[j].id.Some? ::
          answers[i].id.value < answers[j].id.value)
  }

  predicate FailedAnswer(a: Answer, failing: map<nat, Kind>, n: nat) {
    && a.id.Some? && a.id.value in failing && 1 <= a.id.value <= n && a.kind == failing[a.id.value]
    && a.body == ErrorReply(VaultLocked) && !a.framed
  }

  lemma {:induction false} FailedAnswersInOrder(failing: map<nat, Kind>, n: nat)
    ensures AnswersInOrder(FailedAnswers(failing, n), failing, n)
  {
    if n > 0 {
      FailedAnswersInOrder(failing, n - 1);
      var before := FailedAnswers(failing, n - 1);
      assert forall i | 0 <= i < |before| :: FailedAnswer(before[i], failing, n - 1);
    }
  }

  lemma {:induction false} FailedAnswersCount(failing: map<nat, Kind>, n: nat)
    ensures |FailedAnswers(failing, n)| == |set id | id in failing && 1 <= id <= n|
  {
    var now := set id | id in failing && 1 <= id <= n;
    if n > 0 {
      FailedAnswersCount(failing, n - 1);
      var before := set id | id in failing && 1 <= id <= n - 1;
      assert now == if n in failing then before + {n} else before;
    } else {
      assert now == {};
    }
  }

  ghost predicate IdsUpTo(answers: seq<Answer>, n: nat) {
    forall i | 0 <= i < |answers| && answers[i].id.Some? :: answers[i].id.value <= n
  }

  /** Answers to what was pending and to nothing else can be added. */
  lemma AnsweredToo(answers: seq<Answer>, failed: seq<Answer>, pending: map<nat, Kind>, n: nat)
    requires forall i | 0 <= i < |answers| && answers[i].id.Some? :: answers[i].id.value !in pending
    requires forall i, j | 0 <= i < j < |answers| && answers[i].id.Some? :: answers[i].id != answers[j].id
    requires AnswersInOrder(failed, pending, n)
    ensures var all := answers + failed;
            forall i, j | 0 <= i < j < |all| && all[i].id.Some? :: all[i].id != all[j].id
  {
    var all := answers + failed;
    forall i, j | 0 <= i < j < |all| && all[i].id.Some?
      ensures all[i].id != all[j].id
    {
      if i >= |answers| {
        assert FailedAnswer(failed[i - |answers|], pending, n) && FailedAnswer(failed[j - |answers|], pending, n);
      } else if j >= |answers| {
        assert FailedAnswer(failed[j - |answers|], pending, n);
      }
    }
  }

  /** The answers name requests that were made, up to `n`, and those that did not come in a frame are errors. */
  ghost predicate FairAnswers(answers: seq<Answer>, n: nat, made: nat) {
    forall i | 0 <= i < |answers| ::
      && (answers[i].id.Some? ==> 1 <= answers[i].id.value <= made && answers[i].id.value <= n)
      && (!answers[i].framed ==> answers[i].body.ErrorReply?)
  }

  lemma FairToo(answers: seq<Answer>, failed: seq<Answer>, pending: map<nat, Kind>, n: nat, made: nat)
    requires FairAnswers(answers, n, made) && AnswersInOrder(failed, pending, made)
    requires forall id | id in pending :: 1 <= id <= n
    ensures FairAnswers(answers + failed, n, made)
  {
    var all := answers + failed;
    forall i | 0 <= i < |all|
      ensures && (all[i].id.Some? ==> 1 <= all[i].id.value <= made && all[i].id.value <= n)
              && (!all[i].framed ==> all[i].body.ErrorReply?)
    {
      if i >= |answers| {
        assert FailedAnswer(failed[i - |answers|], pending, made);
      }
    }
  }

  lemma DroppedAnswers(c: Channel, n: nat)
    requires Answered(c) && forall id | id in c.pending :: 1 <= id <= n <= c.nextId
    requires IdsUpTo(c.answers, n)
    ensures var d := Dropped(c);
            Answered(d) && |d.answers| == |c.answers| + |c.pending| && IdsUpTo(d.answers, n)
  {
    var failed := FailedAnswers(c.pending, c.nextId);
    FailedAnswersInOrder(c.pending, c.nextId);
    FailedAnswersCount(c.pending, c.nextId);
    assert (set id | id in c.pending && 1 <= id <= c.nextId) == c.pending.Keys;
    AnsweredToo(c.answers, failed, c.pending, c.nextId);
    FairToo(c.answers, failed, c.pending, n, c.nextId);
    assert Dropped(c).answers == c.answers + failed && FairAnswers(c.answers + failed, n, c.nextId);
  }

  /** Dropping the port leaves nothing pending, answers what was, and looks for a new port. */
  lemma DropPortKeeps(c: Channel, n: nat)
    requires (forall id | id in c.pending :: 1 <= id <= n <= c.nextId) && Answered(c) && Waits(c)
    requires IdsUpTo(c.answers, n)
    requires c.delays != [] && (c.lost ==> c.autoReconnect) && (c.reconnectTimer.Some? ==> c.autoReconnect)
    ensures var d := DropPort(c);
            && Settled(d) && Looking(d) && SameRequests(Dropped(c), d)
            && |d.answers| == |c.answers| + |c.pending| && IdsUpTo(d.answers, n)
  {
    DroppedAnswers(c, n);
    ScheduleKeeps(Dropped(c));
  }

  lemma RefuseCallKeeps(c: Channel, id: Option<nat>, failing: map<nat, Kind>, kind: Kind)
    requires Settled(c) && Looking(c) && c.calls == |c.pending| + |c.answers| + 1
    requires id.Some? ==> 1 <= id.value <= c.nextId && id.value !in c.pending && IdsUpTo(c.answers, id.value - 1)
    ensures Inv(RefuseCall(c, id, failing, kind))
  {
    var told := c.(answers := c.answers + [Answer(id, kind, ErrorReply(VaultLocked), false)]);
    ContinueFailedKeeps(told, failing, c.nextId);
    ContinueKeeps(ContinueFailed(told, failing, c.nextId), kind, ErrorReply(VaultLocked));
  }

  lemma CallKeeps(c: Channel, kind: Kind, connects: bool, posts: bool)
    requires Settled(c) && c.calls == |c.pending| + |c.answers|
    ensures Inv(Call(c, kind, connects, posts))
  {
    AskedKeeps(c);
    if c.port.None? && !connects {
      UnconnectedKeeps(c.(calls := c.calls + 1), kind);
    } else {
      OverPortKeeps(c.(calls := c.calls + 1), kind, posts);
    }
  }

  lemma AskedKeeps(c: Channel)
    requires Settled(c)
    ensures Settled(c.(calls := c.calls + 1))
  {
  }

  lemma OverPortKeeps(c: Channel, kind: Kind, posts: bool)
    requires Settled(c) && c.calls == |c.pending| + |c.answers| + 1
    ensures Inv(Post(Connected(c), kind, posts))
  {
    ConnectedKeeps(c);
    PostKeeps(Connected(c), kind, posts);
  }

  lemma UnconnectedKeeps(c: Channel, kind: Kind)
    requires Settled(c) && c.calls == |c.pending| + |c.answers| + 1
    ensures Inv(RefuseCall(DropPort(c), None, c.pending, kind))
  {
    DropPortKeeps(c, c.nextId);
    RefuseCallKeeps(DropPort(c), None, c.pending, kind);
  }

  lemma ConnectedKeeps(c: Channel)
    requires Settled(c)
    ensures var d := Connected(c);
            Settled(d) && d.port.Some? && d.calls == c.calls && d.pending == c.pending && d.answers == c.answers
  {
  }

  lemma PostKeeps(c: Channel, kind: Kind, posts: bool)
    requires Settled(c) && c.port.Some? && c.calls == |c.pending| + |c.answers| + 1
    ensures Inv(Post(c, kind, posts))
  {
    if posts {
      PostedKeeps(c, kind);
    } else {
      FailedPostKeeps(c, kind);
    }
  }

  lemma PostedRequests(c: Channel, kind: Kind)
    requires Settled(c) && c.port.Some?
    ensures Requests(Post(c, kind, true)) && |Post(c, kind, true).pending| == |c.pending| + 1
  {
    OneKeyMore(c.pending, c.nextId + 1, kind);
  }

  lemma PostedAnswered(c: Channel, kind: Kind)
    requires Settled(c)
    ensures Answered(Post(c, kind, true))
  {
  }

  lemma PostedKeeps(c: Channel, kind: Kind)
    requires Settled(c) && c.port.Some? && c.calls == |c.pending| + |c.answers| + 1
    ensures Inv(Post(c, kind, true))
  {
    PostedRequests(c, kind);
    PostedAnswered(c, kind);
  }

  lemma FailedPostKeeps(c: Channel, kind: Kind)
    requires Settled(c) && c.port.Some? && c.calls == |c.pending| + |c.answers| + 1
    ensures Inv(Post(c, kind, false))
  {
    var dropped := DropPort(c.(nextId := c.nextId + 1));
    DropPortKeeps(c.(nextId := c.nextId + 1), c.nextId);
    RefuseCallKeeps(dropped, Some(c.nextId + 1), c.pending, kind);
    assert Post(c, kind, false) == RefuseCall(dropped, Some(c.nextId + 1), c.pending, kind);
  }

  lemma MessageKeeps(c: Channel, frame: Frame)
    requires Inv(c)
    ensures Inv(Message(c, frame))
  {
    if frame.Reply? && frame.id in c.pending {
      var told := c.(pending := c.pending - {frame.id}, timers := c.timers - {frame.id},
                     answers := c.answers + [Answer(Some(frame.id), c.pending[frame.id], frame.body, true)]);
      assert told.pending.Keys == c.pending.Keys - {frame.id};
      ContinueKeeps(told, c.pending[frame.id], frame.body);
    }
  }

  lemma DisconnectKeeps(c: Channel)
    requires Inv(c)
    ensures Inv(Disconnect(c))
  {
    DropPortKeeps(c, c.nextId);
    ContinueFailedKeeps(DropPort(c), c.pending, c.nextId);
  }

  lemma TimeoutKeeps(c: Channel, id: nat)
    requires Inv(c) && id in c.pending
    ensures Inv(Timeout(c, id))
  {
    var told := c.(pending := c.pending - {id}, timers := c.timers - {id},
                   answers := c.answers + [Answer(Some(id), c.pending[id], ErrorReply(ApprovalTimeout), false)]);
    assert told.pending.Keys == c.pending.Keys - {id};
    ContinueKeeps(told, c.pending[id], ErrorReply(ApprovalTimeout));
  }

  lemma ReconnectKeeps(c: Channel, connects: bool, posts: bool)
    requires Inv(c) && c.reconnectTimer.Some?
    ensures Inv(ReconnectFires(c, connects, posts))
  {
    var fired := c.(reconnectTimer := None);
    if !(c.status == Ready && c.port.Some?) {
      CallKeeps(fired, Hello(true), connects, posts);
    }
  }

  lemma DisableKeeps(c: Channel)
    requires Inv(c)
    ensures Inv(Disable(c))
  {
  }

  lemma StepKeeps(c: Channel, e: Event)
    requires Inv(c) && Enabled(c, e)
    ensures Inv(Step(c, e))
  {
    match e
    case OnCall(kind, connects, posts) => CallKeeps(c, kind, connects, posts);
    case OnHello(connects, posts) => CallKeeps(c, Hello(false), connects, posts);
    case OnMessage(_, frame) => MessageKeeps(c, frame);
    case OnDisconnect(_) => DisconnectKeeps(c);
    case OnTimeout(id) => TimeoutKeeps(c, id);
    case OnReconnect(connects, posts) => ReconnectKeeps(c, connects, posts);
    case OnEnable(_) =>
    case OnDisable => DisableKeeps(c);
  }

  // ---- What holds in any run ----

  ghost predicate Run(cs: seq<Channel>, events: seq<Event>) {
    && |cs| == |events| + 1 && cs[0] == START
    && forall i | 0 <= i < |events| :: Leads(cs[i], events[i], cs[i + 1])
  }

  ghost predicate Leads(c: Channel, e: Event, d: Channel) {
    c.delays != [] && c.timers <= c.pending.Keys && Enabled(c, e) && d == Step(c, e)
  }

  /**
   * At every task boundary of any run: the live request timers are those of the pending requests,
   * without a port nothing is pending, every request made is pending or was resolved once, "ready"
   * means there is a port, a port lost with reconnecting on is being looked for, and the k-th delay
   * since the last welcome is the k-th of the schedule or its last.
   */
  lemma {:induction false} RunKeepsInv(cs: seq<Channel>, events: seq<Event>, i: nat)
    requires Run(cs, events) && i < |cs|
    ensures Inv(cs[i])
  {
    if i > 0 {
      RunKeepsInv(cs, events, i - 1);
      assert Leads(cs[i - 1], events[i - 1], cs[i]);
      StepKeeps(cs[i - 1], events[i - 1]);
    }
  }

  /** Dropping and continuing answer with errors only, and never take an answer back. */
  ghost predicate AnsweredMore(c: Channel, d: Channel) {
    && |c.answers| <= |d.answers| && d.answers[..|c.answers|] == c.answers
    && forall i | |c.answers| <= i < |d.answers| :: !d.answers[i].framed
  }

  lemma ContinueAnswersNothing(c: Channel, kind: Kind, body: Body)
    requires c.delays != []
    ensures SameRequests(c, Continue(c, kind, body))
  {
  }

  lemma {:induction false} ContinueFailedAnswersNothing(c: Channel, failing: map<nat, Kind>, n: nat)
    requires c.delays != []
    ensures SameRequests(c, ContinueFailed(c, failing, n))
  {
    if n > 0 {
      ContinueFailedAnswersNothing(c, failing, n - 1);
      if n in failing {
        ContinueAnswersNothing(ContinueFailed(c, failing, n - 1), failing[n], ErrorReply(VaultLocked));
      }
    }
  }

  lemma DropPortAnswers(c: Channel)
    requires c.delays != []
    ensures AnsweredMore(c, DropPort(c)) && DropPort(c).pending == map[] && DropPort(c).port.None?
  {
    var failed := FailedAnswers(c.pending, c.nextId);
    FailedAnswersInOrder(c.pending, c.nextId);
    assert forall i | 0 <= i < |failed| :: FailedAnswer(failed[i], c.pending, c.nextId);
  }

  lemma RefuseCallAnswers(c: Channel, id: Option<nat>, failing: map<nat, Kind>, kind: Kind)
    requires c.delays != []
    ensures var d := RefuseCall(c, id, failing, kind);
            && d.answers == c.answers + [Answer(id, kind, ErrorReply(VaultLocked), false)]
            && d.pending == c.pending && d.port == c.port
  {
    var told := c.(answers := c.answers + [Answer(id, kind, ErrorReply(VaultLocked), false)]);
    ContinueFailedAnswersNothing(told, failing, c.nextId);
    ContinueAnswersNothing(ContinueFailed(told, failing, c.nextId), kind, ErrorReply(VaultLocked));
  }

  lemma DropAndRefuseAnswers(c: Channel, x: Channel, id: Option<nat>, failing: map<nat, Kind>, kind: Kind)
    requires x.delays != [] && x.answers == c.answers
    ensures var d := RefuseCall(DropPort(x), id, failing, kind);
            && AnsweredMore(c, d) && d.pending == map[] && d.port.None? && d.answers != []
            && d.answers[|d.answers| - 1].kind == kind && d.answers[|d.answers| - 1].body == ErrorReply(VaultLocked)
  {
    DropPortAnswers(x);
    RefuseCallAnswers(DropPort(x), id, failing, kind);
  }

  /** The request was sent under the next id, over the port or a new one. */
  ghost predicate Posted(c: Channel, d: Channel, kind: Kind) {
    && d.answers == c.answers && d.nextId == c.nextId + 1 && d.pending == c.pending[d.nextId := kind]
    && d.port == (if c.port.Some? then c.port else Some(c.ports))
    && d.ports == if c.port.Some? then c.ports else c.ports + 1
  }

  /** The request was sent, or could not be: then the port is gone, and nothing is pending any more. */
  ghost predicate SentOrRefused(c: Channel, d: Channel, kind: Kind, connects: bool, posts: bool) {
    if (c.port.Some? || connects) && posts then Posted(c, d, kind)
    else
      && AnsweredMore(c, d) && d.pending == map[] && d.port.None? && d.answers != []
      && d.answers[|d.answers| - 1].kind == kind && d.answers[|d.answers| - 1].body == ErrorReply(VaultLocked)
  }

  lemma PostAnswers(c: Channel, kind: Kind)
    requires c.delays != []
    ensures Posted(c, Call(c, kind, true, true), kind)
    ensures c.port.Some? ==> Call(c, kind, false, true) == Call(c, kind, true, true)
  {
  }

  lemma CallAnswers(c: Channel, kind: Kind, connects: bool, posts: bool)
    requires c.delays != []
    ensures SentOrRefused(c, Call(c, kind, connects, posts), kind, connects, posts)
  {
    var asked := c.(calls := c.calls + 1);
    if c.port.None? && !connects {
      DropAndRefuseAnswers(c, asked, None, c.pending, kind);
    } else if !posts {
      DropAndRefuseAnswers(c, Connected(asked).(nextId := c.nextId + 1), Some(c.nextId + 1), c.pending, kind);
    } else {
      PostAnswers(c, kind);
    }
  }

  lemma HelloAnswers(c: Channel, connects: bool, posts: bool)
    requires Inv(c)
    ensures var d := EnsureHello(c, false, connects, posts);
            if c.status == Ready && c.port.Some? then d == c else SentOrRefused(c, d, Hello(false), connects, posts)
  {
    CallAnswers(c, Hello(false), connects, posts);
  }

  /** Whether a timer runs makes no difference to a call. */
  lemma TimerNotAsked(c: Channel, fired: Channel, d: Channel, kind: Kind, connects: bool, posts: bool)
    requires SentOrRefused(fired, d, kind, connects, posts)
    requires SameRequests(c, fired) && fired.ports == c.ports
    ensures SentOrRefused(c, d, kind, connects, posts)
  {
  }

  lemma ReconnectAnswers(c: Channel, connects: bool, posts: bool)
    requires Inv(c)
    ensures var d := ReconnectFires(c, connects, posts);
            if c.status == Ready && c.port.Some? then d == c.(reconnectTimer := None)
            else SentOrRefused(c, d, Hello(true), connects, posts)
  {
    var fired := c.(reconnectTimer := None);
    if !(c.status == Ready && c.port.Some?) {
      CallAnswers(fired, Hello(true), connects, posts);
      TimerNotAsked(c, fired, Call(fired, Hello(true), connects, posts), Hello(true), connects, posts);
    }
  }

  lemma MessageAnswers(c: Channel, frame: Frame)
    requires c.delays != []
    ensures var d := Message(c, frame);
            if frame.Reply? && frame.id in c.pending
            then d.answers == c.answers + [Answer(Some(frame.id), c.pending[frame.id], frame.body, true)]
                 && d.pending == c.pending - {frame.id}
            else d == c
  {
  }

  lemma TimeoutAnswers(c: Channel, id: nat)
    requires c.delays != [] && id in c.pending
    ensures var d := Timeout(c, id);
            && d.answers == c.answers + [Answer(Some(id), c.pending[id], ErrorReply(ApprovalTimeout), false)]
            && d.pending == c.pending - {id}
  {
  }

  lemma DisconnectAnswers(c: Channel)
    requires Inv(c)
    ensures AnsweredMore(c, Disconnect(c)) && Disconnect(c).pending == map[] && Disconnect(c).port.None?
  {
    DropPortAnswers(c);
    ContinueFailedAnswersNothing(DropPort(c), c.pending, c.nextId);
  }

  /**
   * A reply reaches the request whose id it carries, if that is still pending, and no other; a push
   * or a late reply reaches none. A request whose timer fires is resolved with a timeout, and one
   * that cannot be sent, or loses its port, with an error; any other is pending under a new id.
   */
  lemma AnswersComeFromOwnFrames(c: Channel, e: Event)
    requires Inv(c) && Enabled(c, e)
    ensures var d := Step(c, e);
            match e
            case OnMessage(_, frame) =>
              if frame.Reply? && frame.id in c.pending
              then d.answers == c.answers + [Answer(Some(frame.id), c.pending[frame.id], frame.body, true)]
                   && d.pending == c.pending - {frame.id}
              else d == c
            case OnTimeout(id) =>
              && d.answers == c.answers + [Answer(Some(id), c.pending[id], ErrorReply(ApprovalTimeout), false)]
              && d.pending == c.pending - {id}
            case OnDisconnect(_) => AnsweredMore(c, d) && d.pending == map[] && d.port.None?
            case OnCall(kind, connects, posts) => SentOrRefused(c, d, kind, connects, posts)
            case OnHello(connects, posts) =>
              if c.status == Ready && c.port.Some? then d == c else SentOrRefused(c, d, Hello(false), connects, posts)
            case OnReconnect(connects, posts) =>
              if c.status == Ready && c.port.Some? then d == c.(reconnectTimer := None)
              else SentOrRefused(c, d, Hello(true), connects, posts)
            case OnEnable(_) => SameRequests(c, d)
            case OnDisable => SameRequests(c, d)
  {
    match e
    case OnCall(kind, connects, posts) => CallAnswers(c, kind, connects, posts);
    case OnHello(connects, posts) => HelloAnswers(c, connects, posts);
    case OnReconnect(connects, posts) => ReconnectAnswers(c, connects, posts);
    case OnDisconnect(_) => DisconnectAnswers(c);
    case OnMessage(_, frame) => MessageAnswers(c, frame);
    case OnTimeout(id) => TimeoutAnswers(c, id);
    case OnEnable(_) =>
    case OnDisable =>
  }

  /** With the default schedule the delays never get shorter, and never exceed thirty seconds. */
  lemma DefaultDelaysGrow(cs: seq<Channel>, events: seq<Event>, n: nat, i: nat, j: nat)
    requires Run(cs, events) && n < |cs| && i <= j < |cs[n].waits|
    requires cs[n].waits[i].delays == cs[n].waits[j].delays == DEFAULT_DELAYS
    ensures cs[n].waits[i].delay <= cs[n].waits[j].delay <= 30_000
  {
    RunKeepsInv(cs, events, n);
    assert cs[n].waits[i].delay == DEFAULT_DELAYS[Min(i, 5)] && cs[n].waits[j].delay == DEFAULT_DELAYS[Min(j, 5)];
  }

  // ---- What the status is with a port ----

  /** The answer of a handshake or a status request that says what the status is. */
  predicate SaysStatus(a: Answer) {
    a.kind.Hello? || (a.kind.Refresh? && (a.body.StatusReply? || a.body.ErrorReply?))
  }

  /** A frame said that the vault is unlocked. */
  predicate SaysUnlocked(a: Answer) {
    a.framed && ((a.kind.Hello? && a.body == Welcome(true)) || (a.kind.Refresh? && a.body == StatusReply(true)))
  }

  /** A welcome or a status said that it is locked, or that is why a status request was refused. */
  predicate SaysLocked(a: Answer) {
    || (a.kind.Hello? && a.body == Welcome(false))
    || (a.kind.Refresh? && (a.body == StatusReply(false) || a.body == ErrorReply(VaultLocked)))
  }

  /** The last of the answers from `since` on that says what the status is. */
  ghost predicate IsLatest(answers: seq<Answer>, since: nat, i: int) {
    && since <= i < |answers| && SaysStatus(answers[i])
    && forall j | i < j < |answers| :: !SaysStatus(answers[j])
  }

  /** The status is what the latest such answer says; until there is one, the port is still connecting. */
  ghost predicate IsSaid(status: Status, answers: seq<Answer>, since: nat) {
    && since <= |answers|
    && (status == Ready <==> exists i :: IsLatest(answers, since, i) && SaysUnlocked(answers[i]))
    && (status == Locked <==> exists i :: IsLatest(answers, since, i) && SaysLocked(answers[i]))
    && (status == Error <==>
          exists i :: IsLatest(answers, since, i) && !SaysUnlocked(answers[i]) && !SaysLocked(answers[i]))
    && (status == Connecting <==> forall i | since <= i < |answers| :: !SaysStatus(answers[i]))
  }

  ghost predicate StatusSaid(c: Channel, since: nat) {
    IsSaid(c.status, c.answers, since)
  }

  /** What one more answer makes of which is the latest. */
  lemma OneAnswerMore(answers: seq<Answer>, since: nat, a: Answer)
    requires since <= |answers|
    ensures var all := answers + [a];
            && (forall i :: IsLatest(all, since, i) <==>
                  if SaysStatus(a) then i == |answers| else IsLatest(answers, since, i))
            && (forall i | since <= i < |answers| :: all[i] == answers[i]) && all[|answers|] == a
  {
    var all := answers + [a];
    forall i
      ensures IsLatest(all, since, i) <==> if SaysStatus(a) then i == |answers| else IsLatest(answers, since, i)
    {
      if IsLatest(all, since, i) && i != |answers| {
        assert !SaysStatus(all[|answers|]);
        assert forall j | i < j < |answers| :: answers[j] == all[j];
      }
    }
  }

  /** What an answer says the status is, if it says so. */
  function StatusBy(a: Answer, before: Status): Status {
    if !SaysStatus(a) then before else if SaysUnlocked(a) then Ready else if SaysLocked(a) then Locked else Error
  }

  lemma ContinueStatus(c: Channel, a: Answer)
    requires c.delays != [] && (!a.framed ==> a.body.ErrorReply?)
    ensures Continue(c, a.kind, a.body).status == StatusBy(a, c.status)
    ensures Continue(c, a.kind, a.body).answers == c.answers
  {
  }

  lemma StillSaid(status: Status, answers: seq<Answer>, since: nat, a: Answer)
    requires IsSaid(status, answers, since) && !SaysStatus(a)
    ensures IsSaid(status, answers + [a], since)
  {
    OneAnswerMore(answers, since, a);
    var all := answers + [a];
    assert forall i :: IsLatest(all, since, i) <==> IsLatest(answers, since, i);
    assert forall i | IsLatest(answers, since, i) :: all[i] == answers[i];
  }

  lemma NowSaid(answers: seq<Answer>, since: nat, a: Answer, before: Status)
    requires since <= |answers| && SaysStatus(a)
    ensures IsSaid(StatusBy(a, before), answers + [a], since)
  {
    OneAnswerMore(answers, since, a);
    var all := answers + [a];
    assert IsLatest(all, since, |answers|) && all[|answers|] == a;
    assert forall i | IsLatest(all, since, i) :: i == |answers|;
  }

  lemma ContinueSays(c: Channel, told: Channel, a: Answer, since: nat)
    requires StatusSaid(c, since) && told.delays != []
    requires told.status == c.status && told.answers == c.answers + [a] && (!a.framed ==> a.body.ErrorReply?)
    ensures StatusSaid(Continue(told, a.kind, a.body), since)
  {
    ContinueStatus(told, a);
    if SaysStatus(a) {
      NowSaid(c.answers, since, a, c.status);
    } else {
      StillSaid(c.status, c.answers, since, a);
    }
  }

  lemma MessageSays(c: Channel, frame: Frame, since: nat)
    requires Inv(c) && StatusSaid(c, since)
    ensures StatusSaid(Message(c, frame), since)
  {
    if frame.Reply? && frame.id in c.pending {
      var a := Answer(Some(frame.id), c.pending[frame.id], frame.body, true);
      var told := c.(pending := c.pending - {frame.id}, timers := c.timers - {frame.id}, answers := c.answers + [a]);
      ContinueSays(c, told, a, since);
    }
  }

  lemma TimeoutSays(c: Channel, id: nat, since: nat)
    requires Inv(c) && id in c.pending && StatusSaid(c, since)
    ensures StatusSaid(Timeout(c, id), since)
  {
    var a := Answer(Some(id), c.pending[id], ErrorReply(ApprovalTimeout), false);
    var told := c.(pending := c.pending - {id}, timers := c.timers - {id}, answers := c.answers + [a]);
    ContinueSays(c, told, a, since);
  }

  /** A port that is there has a status that was said, or has just been opened. */
  ghost predicate OpenSays(c: Channel, d: Channel, since: nat) {
    d.port.Some? ==>
      && StatusSaid(d, if c.port.Some? then since else |c.answers|)
      && d.port == if c.port.Some? then c.port else Some(c.ports)
  }

  lemma CallStatusKept(c: Channel, kind: Kind, connects: bool)
    requires c.delays != [] && (c.port.Some? || connects)
    ensures Call(c, kind, connects, true).status == if c.port.Some? then c.status else Connecting
  {
  }

  /** A call that goes through leaves the status as it is, but for a new port, which is connecting. */
  lemma CallSays(c: Channel, kind: Kind, connects: bool, posts: bool, since: nat)
    requires c.delays != [] && (c.port.Some? ==> StatusSaid(c, since))
    ensures OpenSays(c, Call(c, kind, connects, posts), since)
  {
    CallAnswers(c, kind, connects, posts);
    if (c.port.Some? || connects) && posts {
      CallStatusKept(c, kind, connects);
    }
  }

  lemma HelloSays(c: Channel, retry: bool, connects: bool, posts: bool, since: nat)
    requires c.delays != [] && (c.port.Some? ==> StatusSaid(c, since))
    ensures OpenSays(c, EnsureHello(c, retry, connects, posts), since)
  {
    CallSays(c, Hello(retry), connects, posts, since);
  }

  lemma MessageKeepsPort(c: Channel, frame: Frame)
    requires c.delays != []
    ensures Message(c, frame).port == c.port
  {
  }

  lemma StepSays(c: Channel, e: Event, since: nat)
    requires Inv(c) && Enabled(c, e) && (c.port.Some? ==> StatusSaid(c, since))
    ensures OpenSays(c, Step(c, e), since)
  {
    match e
    case OnCall(kind, connects, posts) => CallSays(c, kind, connects, posts, since);
    case OnHello(connects, posts) => HelloSays(c, false, connects, posts, since);
    case OnReconnect(connects, posts) => HelloSays(c.(reconnectTimer := None), true, connects, posts, since);
    case OnMessage(_, frame) =>
      MessageKeepsPort(c, frame);
      if c.port.Some? {
        MessageSays(c, frame, since);
      }
    case OnTimeout(id) =>
      TimeoutSays(c, id, since);
      ContinueAnswersNothing(c, c.pending[id], ErrorReply(ApprovalTimeout));
    case OnDisconnect(_) => DisconnectAnswers(c);
    case OnEnable(_) =>
    case OnDisable =>
  }

  /** The step after `k` others opened the port that `cs[n]` has, and no other was opened since. */
  ghost predicate OpenedAt(cs: seq<Channel>, k: nat, n: nat) {
    && k < n < |cs| && cs[k].port.None?
    && forall j | k < j <= n :: cs[j].port.Some? && cs[j].port == cs[n].port
  }

  /**
   * While there is a port, the status is "ready" exactly when the last handshake or status request
   * to say so since the port was opened was answered by a frame that the vault is unlocked; "locked"
   * when that said it is locked, or was refused for that; and an error when it said anything else.
   */
  lemma {:induction false} StatusWithPort(cs: seq<Channel>, events: seq<Event>, n: nat) returns (k: nat)
    requires Run(cs, events) && n < |cs| && cs[n].port.Some?
    ensures OpenedAt(cs, k, n) && StatusSaid(cs[n], |cs[k].answers|)
  {
    RunKeepsInv(cs, events, n - 1);
    assert Leads(cs[n - 1], events[n - 1], cs[n]);
    if cs[n - 1].port.Some? {
      k := StatusWithPort(cs, events, n - 1);
      StepSays(cs[n - 1], events[n - 1], |cs[k].answers|);
    } else {
      k := n - 1;
      StepSays(cs[n - 1], events[n - 1], 0);
    }
  }

  // ---- What the status is without a port ----

  /** The requests in flight, and after them the one of this kind that takes the port down with it. */
  function WithCall(c: Channel, kind: Kind, connects: bool, posts: bool): Option<map<nat, Kind>> {
    if (c.port.None? && !connects) || !posts then Some(c.pending[c.nextId + 1 := kind]) else None
  }

  /** The requests that fail because the event drops the port, by id, if it does. */
  function Failing(c: Channel, e: Event): Option<map<nat, Kind>> {
    match e
    case OnDisconnect(_) => Some(c.pending)
    case OnCall(kind, connects, posts) => WithCall(c, kind, connects, posts)
    case OnHello(connects, posts) =>
      if c.status == Ready && c.port.Some? then None else WithCall(c, Hello(false), connects, posts)
    case OnReconnect(connects, posts) =>
      if c.status == Ready && c.port.Some? then None else WithCall(c, Hello(true), connects, posts)
    case _ => None
  }

  /** The last of the failed requests that is a handshake or a status request. */
  ghost predicate LastTalker(failing: map<nat, Kind>, id: nat) {
    && id in failing && !failing[id].Other?
    && forall later | later in failing && later > id :: failing[later].Other?
  }

  /** The status after the requests up to `n` have failed. */
  function StatusAfter(status: Status, failing: map<nat, Kind>, n: nat): Status {
    if n == 0 then status
    else if n !in failing then StatusAfter(status, failing, n - 1)
    else match failing[n]
      case Hello(_) => Error
      case Refresh => Locked
      case Other => StatusAfter(status, failing, n - 1)
  }

  lemma {:induction false} FailingSetsStatus(c: Channel, failing: map<nat, Kind>, n: nat)
    requires c.delays != []
    ensures ContinueFailed(c, failing, n).status == StatusAfter(c.status, failing, n)
  {
    if n > 0 {
      FailingSetsStatus(c, failing, n - 1);
    }
  }

  lemma {:induction false} SameFailing(status: Status, failing: map<nat, Kind>, other: map<nat, Kind>, n: nat)
    requires forall id | 1 <= id <= n ::
               (id in failing <==> id in other) && (id in failing ==> failing[id] == other[id])
    ensures StatusAfter(status, failing, n) == StatusAfter(status, other, n)
  {
    if n > 0 {
      SameFailing(status, failing, other, n - 1);
    }
  }

  /** A call that is refused is the last to say something about the status. */
  lemma RefusedSetsStatus(c: Channel, id: Option<nat>, failing: map<nat, Kind>, kind: Kind, n: nat)
    requires c.delays != [] && n <= c.nextId && forall id | id in failing :: 1 <= id <= n
    ensures var d := RefuseCall(c, id, failing, kind);
            && d.status == StatusAfter(c.status, failing[n + 1 := kind], n + 1)
            && d.port == c.port && d.pending == c.pending
  {
    var told := c.(answers := c.answers + [Answer(id, kind, ErrorReply(VaultLocked), false)]);
    FailingSetsStatus(told, failing, c.nextId);
    FailedKeepPort(told, failing, c.nextId);
    NoneBetween(c.status, failing, n, c.nextId);
    SameFailing(c.status, failing, failing[n + 1 := kind], n);
  }

  lemma {:induction false} NoneBetween(status: Status, failing: map<nat, Kind>, m: nat, n: nat)
    requires m <= n && forall id | id in failing :: id <= m
    ensures StatusAfter(status, failing, n) == StatusAfter(status, failing, m)
  {
    if m < n {
      NoneBetween(status, failing, m, n - 1);
    }
  }

  /** Only the last one that talks counts, if there is one. */
  lemma {:induction false} LastTalkerSetsStatus(status: Status, failing: map<nat, Kind>, n: nat)
    requires forall id | id in failing && id > n :: failing[id].Other?
    requires forall id | id in failing :: id >= 1
    ensures forall id: nat | LastTalker(failing, id) ::
              StatusAfter(status, failing, n) == if failing[id].Refresh? then Locked else Error
    ensures (exists id :: LastTalker(failing, id)) <==> exists id :: id in failing && !failing[id].Other?
    ensures (forall id | id in failing :: failing[id].Other?) ==> StatusAfter(status, failing, n) == status
  {
    if n > 0 {
      if n in failing && !failing[n].Other? {
        assert LastTalker(failing, n);
      } else {
        LastTalkerSetsStatus(status, failing, n - 1);
      }
    }
  }

  lemma CallStatus(c: Channel, kind: Kind, connects: bool, posts: bool)
    requires Settled(c) && WithCall(c, kind, connects, posts).Some?
    ensures var d := Call(c, kind, connects, posts);
            && d.port.None? && d.pending == map[]
            && d.status == StatusAfter(Disconnected, c.pending[c.nextId + 1 := kind], c.nextId + 1)
  {
    var asked := c.(calls := c.calls + 1);
    if c.port.None? && !connects {
      RefusedSetsStatus(DropPort(asked), None, c.pending, kind, c.nextId);
    } else {
      assert Call(c, kind, connects, posts) == Post(Connected(asked), kind, false);
      FailedPostStatus(Connected(asked), kind);
    }
  }

  lemma FailedPostStatus(c: Channel, kind: Kind)
    requires c.delays != [] && forall id | id in c.pending :: 1 <= id <= c.nextId
    ensures var d := Post(c, kind, false);
            && d.port.None? && d.pending == map[]
            && d.status == StatusAfter(Disconnected, c.pending[c.nextId + 1 := kind], c.nextId + 1)
  {
    RefusedSetsStatus(DropPort(c.(nextId := c.nextId + 1)), Some(c.nextId + 1), c.pending, kind, c.nextId);
  }

  lemma ContinueKeepsPort(c: Channel, kind: Kind, body: Body)
    requires c.delays != []
    ensures Continue(c, kind, body).port == c.port && Continue(c, kind, body).pending == c.pending
  {
  }

  lemma {:induction false} FailedKeepPort(c: Channel, failing: map<nat, Kind>, n: nat)
    requires c.delays != []
    ensures ContinueFailed(c, failing, n).port == c.port && ContinueFailed(c, failing, n).pending == c.pending
  {
    if n > 0 {
      FailedKeepPort(c, failing, n - 1);
      if n in failing {
        ContinueKeepsPort(ContinueFailed(c, failing, n - 1), failing[n], ErrorReply(VaultLocked));
      }
    }
  }

  lemma DisconnectStatus(c: Channel)
    requires Settled(c)
    ensures var d := Disconnect(c);
            d.port.None? && d.pending == map[] && d.status == StatusAfter(Disconnected, c.pending, c.nextId + 1)
  {
    FailingSetsStatus(DropPort(c), c.pending, c.nextId);
    FailedKeepPort(DropPort(c), c.pending, c.nextId);
    NoneBetween(Disconnected, c.pending, c.nextId, c.nextId + 1);
  }

  lemma DroppedStatus(c: Channel, e: Event)
    requires Inv(c) && Enabled(c, e) && Failing(c, e).Some?
    ensures var d := Step(c, e);
            && d.port.None? && d.pending == map[]
            && d.status == StatusAfter(Disconnected, Failing(c, e).value, c.nextId + 1)
  {
    match e
    case OnDisconnect(_) => DisconnectStatus(c);
    case OnCall(kind, connects, posts) => CallStatus(c, kind, connects, posts);
    case OnHello(connects, posts) => CallStatus(c, Hello(false), connects, posts);
    case OnReconnect(connects, posts) => ReconnectStatus(c, connects, posts);
  }

  lemma ReconnectStatus(c: Channel, connects: bool, posts: bool)
    requires Settled(c) && !(c.status == Ready && c.port.Some?)
    requires WithCall(c, Hello(true), connects, posts).Some?
    ensures var d := ReconnectFires(c, connects, posts);
            && d.port.None? && d.pending == map[]
            && d.status == StatusAfter(Disconnected, c.pending[c.nextId + 1 := Hello(true)], c.nextId + 1)
  {
    CallStatus(c.(reconnectTimer := None), Hello(true), connects, posts);
  }

  /**
   * What the status is once a step has dropped the port: that of the last request it failed that is
   * a handshake or a status request, a call that could not be made counted last. So it is "locked",
   * with no port at all, exactly when that one is a status request.
   */
  lemma StatusAfterDrop(c: Channel, e: Event)
    requires Inv(c) && Enabled(c, e) && Failing(c, e).Some?
    ensures var d, failing := Step(c, e), Failing(c, e).value;
            && d.port.None? && d.pending == map[]
            && (d.status == Locked <==> exists id :: LastTalker(failing, id) && failing[id].Refresh?)
            && (d.status == Error <==> exists id :: LastTalker(failing, id) && failing[id].Hello?)
            && (d.status == Disconnected <==> forall id | id in failing :: failing[id].Other?)
  {
    DroppedStatus(c, e);
    var failing := Failing(c, e).value;
    LastTalkerSetsStatus(Disconnected, failing, c.nextId + 1);
    if id :| LastTalker(failing, id) {
      assert !failing[id].Other?;
    }
  }

  /** And nothing but such a drop makes a channel without a port "locked". */
  lemma LockedWithoutPort(c: Channel, e: Event)
    requires Inv(c) && Enabled(c, e)
    ensures var d := Step(c, e);
            d.port.None? && d.status == Locked <==>
              match Failing(c, e)
              case Some(failing) => exists id :: LastTalker(failing, id) && failing[id].Refresh?
              case None => d.port.None? && c.port.None? && c.status == Locked
  {
    if Failing(c, e).Some? {
      StatusAfterDrop(c, e);
    }
  }

  const ASKING := START.(status := Connecting, port := Some(0), ports := 1, nextId := 1, calls := 1,
                         pending := map[1 := Hello(false)], timers := {1})
  const READY := ASKING.(status := Ready, pending := map[], timers := {},
                         answers := [Answer(Some(1), Hello(false), Welcome(true), true)])
  const HELLO := OnHello(true, true)
  const WELCOME := OnMessage(0, Reply(1, Welcome(true)))
  const REFRESH := OnCall(Refresh, true, false)

  lemma HelloAsks()
    ensures Leads(START, HELLO, ASKING)
  {
  }

  lemma WelcomeMakesReady()
    ensures Leads(ASKING, WELCOME, READY)
  {
  }

  lemma ReadyIsSettled()
    ensures Settled(READY)
  {
  }

  lemma RefreshLocks() returns (locked: Channel)
    ensures Leads(READY, REFRESH, locked) && locked.status == Locked && locked.port.None?
  {
    ReadyIsSettled();
    CallStatus(READY, Refresh, true, false);
    assert map[][2 := Refresh][2] == Refresh;
    locked := Step(READY, REFRESH);
  }

  /** It happens with nothing in flight: after a welcome, a status request that cannot be posted. */
  lemma UnpostedRefreshLocks() returns (cs: seq<Channel>, events: seq<Event>)
    ensures Run(cs, events) && |events| > 0
    ensures cs[|events|].status == Locked && cs[|events|].port.None?
    ensures var before := cs[|events| - 1]; before.status == Ready && before.port.Some? && before.pending == map[]
  {
    HelloAsks();
    WelcomeMakesReady();
    var locked := RefreshLocks();
    events := [HELLO, WELCOME, REFRESH];
    cs := [START, ASKING, READY, locked];
  }

  // ---- When it reconnects ----

  /** The event is the app's welcome to a handshake. */
  predicate Welcomes(c: Channel, e: Event) {
    && e.OnMessage? && e.frame.Reply? && e.frame.id in c.pending && c.pending[e.frame.id].Hello?
    && e.frame.body.Welcome?
  }

  /** The event ends a reconnect attempt's handshake without a welcome. */
  predicate FailsRetry(c: Channel, e: Event) {
    || (e.OnMessage? && e.frame.Reply? && e.frame.id in c.pending && c.pending[e.frame.id] == Hello(true)
        && !e.frame.body.Welcome?)
    || (e.OnTimeout? && e.id in c.pending && c.pending[e.id] == Hello(true))
  }

  ghost predicate SameSchedule(c: Channel, d: Channel) {
    && d.autoReconnect == c.autoReconnect && d.delays == c.delays
    && d.reconnectTimer == c.reconnectTimer && d.attempt == c.attempt
  }

  lemma {:induction false} FailedKeepSchedule(c: Channel, failing: map<nat, Kind>, n: nat)
    requires c.delays != [] && (c.autoReconnect ==> c.reconnectTimer.Some?)
    ensures SameSchedule(c, ContinueFailed(c, failing, n))
  {
    if n > 0 {
      FailedKeepSchedule(c, failing, n - 1);
    }
  }

  /** The timer that runs goes on; or the next delay of the schedule starts, if reconnecting is on. */
  ghost predicate Rescheduled(c: Channel, d: Channel)
    requires c.delays != []
  {
    && d.autoReconnect == c.autoReconnect && d.delays == c.delays
    && if c.autoReconnect && c.reconnectTimer.None? then
         d.reconnectTimer == Some(c.delays[Min(c.attempt, |c.delays| - 1)]) && d.attempt == c.attempt + 1
       else d.reconnectTimer == c.reconnectTimer && d.attempt == c.attempt
  }

  lemma RefusalSchedules(c: Channel, id: Option<nat>, failing: map<nat, Kind>, kind: Kind)
    requires c.delays != []
    ensures Rescheduled(c, RefuseCall(DropPort(c), id, failing, kind))
  {
    var dropped := DropPort(c);
    var told := dropped.(answers := dropped.answers + [Answer(id, kind, ErrorReply(VaultLocked), false)]);
    FailedKeepSchedule(told, failing, told.nextId);
  }

  lemma PostSchedules(c: Channel, kind: Kind, connects: bool)
    requires c.delays != [] && (c.port.Some? || connects)
    ensures SameSchedule(c, Call(c, kind, connects, true))
  {
  }

  lemma UnconnectedSchedules(c: Channel, kind: Kind, posts: bool)
    requires c.delays != [] && c.port.None?
    ensures Rescheduled(c, Call(c, kind, false, posts))
  {
    RefusalSchedules(c.(calls := c.calls + 1), None, c.pending, kind);
  }

  lemma UnpostedIsRefused(c: Channel, kind: Kind, connects: bool)
    requires c.delays != [] && (c.port.Some? || connects)
    ensures var asked := Connected(c.(calls := c.calls + 1)).(nextId := c.nextId + 1);
            && SameSchedule(c, asked)
            && Call(c, kind, connects, false) == RefuseCall(DropPort(asked), Some(c.nextId + 1), c.pending, kind)
  {
  }

  lemma RescheduledToo(c: Channel, x: Channel, d: Channel)
    requires c.delays != [] && SameSchedule(c, x) && Rescheduled(x, d)
    ensures Rescheduled(c, d)
  {
  }

  lemma UnpostedSchedules(c: Channel, kind: Kind, connects: bool)
    requires c.delays != [] && (c.port.Some? || connects)
    ensures Rescheduled(c, Call(c, kind, connects, false))
  {
    var asked := Connected(c.(calls := c.calls + 1)).(nextId := c.nextId + 1);
    RefusalSchedules(asked, Some(c.nextId + 1), c.pending, kind);
    UnpostedIsRefused(c, kind, connects);
    RescheduledToo(c, asked, Call(c, kind, connects, false));
  }

  lemma CallSchedules(c: Channel, kind: Kind, connects: bool, posts: bool)
    requires c.delays != []
    ensures var d := Call(c, kind, connects, posts);
            if WithCall(c, kind, connects, posts).Some? then Rescheduled(c, d) else SameSchedule(c, d)
  {
    if c.port.None? && !connects {
      UnconnectedSchedules(c, kind, posts);
    } else if posts {
      PostSchedules(c, kind, connects);
    } else {
      UnpostedSchedules(c, kind, connects);
    }
  }

  lemma HelloSchedules(c: Channel, connects: bool, posts: bool)
    requires Inv(c)
    ensures var e, d := OnHello(connects, posts), EnsureHello(c, false, connects, posts);
            if Failing(c, e).Some? then Rescheduled(c, d) else SameSchedule(c, d)
  {
    CallSchedules(c, Hello(false), connects, posts);
  }

  lemma RetrySchedules(c: Channel, connects: bool, posts: bool)
    requires Inv(c)
    ensures var fired, d := c.(reconnectTimer := None), ReconnectFires(c, connects, posts);
            if Failing(c, OnReconnect(connects, posts)).Some? then Rescheduled(fired, d) else SameSchedule(fired, d)
  {
    CallSchedules(c.(reconnectTimer := None), Hello(true), connects, posts);
  }

  lemma DisconnectSchedules(c: Channel)
    requires Inv(c)
    ensures Rescheduled(c, Disconnect(c))
  {
    FailedKeepSchedule(DropPort(c), c.pending, c.nextId);
  }

  lemma ContinueSchedules(c: Channel, kind: Kind, body: Body)
    requires c.delays != []
    ensures var d := Continue(c, kind, body);
            if kind.Hello? && body.Welcome? then
              d.reconnectTimer.None? && d.attempt == 0 && d.autoReconnect == c.autoReconnect && d.delays == c.delays
            else if kind == Hello(true) then Rescheduled(c, d)
            else SameSchedule(c, d)
  {
  }

  lemma MessageSchedules(c: Channel, from: nat, frame: Frame)
    requires Inv(c)
    ensures var e, d := OnMessage(from, frame), Message(c, frame);
            if Welcomes(c, e) then
              d.reconnectTimer.None? && d.attempt == 0 && d.autoReconnect == c.autoReconnect && d.delays == c.delays
            else if FailsRetry(c, e) then Rescheduled(c, d) else SameSchedule(c, d)
  {
    if frame.Reply? && frame.id in c.pending {
      var told := c.(pending := c.pending - {frame.id}, timers := c.timers - {frame.id},
                     answers := c.answers + [Answer(Some(frame.id), c.pending[frame.id], frame.body, true)]);
      ContinueSchedules(told, c.pending[frame.id], frame.body);
    }
  }

  lemma TimeoutSchedules(c: Channel, id: nat)
    requires Inv(c) && id in c.pending
    ensures var d := Timeout(c, id);
            if FailsRetry(c, OnTimeout(id)) then Rescheduled(c, d) else SameSchedule(c, d)
  {
  }

  /**
   * Reconnecting is on from an enabling to the next disabling. A welcome, or turning it off, starts
   * the schedule over and stops the timer. While it is on, losing or not getting a port, and an
   * attempt that is not welcomed, start the next delay unless one runs; nothing else starts one.
   */
  lemma ReconnectingExactly(c: Channel, e: Event)
    requires Inv(c) && Enabled(c, e)
    ensures var d := Step(c, e);
            if Welcomes(c, e) then
              d.reconnectTimer.None? && d.attempt == 0 && d.autoReconnect == c.autoReconnect && d.delays == c.delays
            else if e.OnDisable? then
              d.reconnectTimer.None? && d.attempt == 0 && !d.autoReconnect && d.delays == DEFAULT_DELAYS
            else if e.OnEnable? then
              && d.autoReconnect && d.delays == (if e.newDelays != [] then e.newDelays else c.delays)
              && d.reconnectTimer == c.reconnectTimer && d.attempt == c.attempt
            else
              var fired := if e.OnReconnect? then c.(reconnectTimer := None) else c;
              if Failing(c, e).Some? || FailsRetry(c, e) then Rescheduled(fired, d) else SameSchedule(fired, d)
  {
    match e
    case OnCall(kind, connects, posts) => CallSchedules(c, kind, connects, posts);
    case OnHello(connects, posts) => HelloSchedules(c, connects, posts);
    case OnReconnect(connects, posts) => RetrySchedules(c, connects, posts);
    case OnDisconnect(_) => DisconnectSchedules(c);
    case OnMessage(from, frame) => MessageSchedules(c, from, frame);
    case OnTimeout(id) => TimeoutSchedules(c, id);
    case OnEnable(_) =>
    case OnDisable =>
  }
}
