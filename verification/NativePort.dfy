/**
 * The module variables and event handlers of native.js on Chromium, against the turns they carry
 * out. A promise's continuations run when the handler is done, in the order of the resolves.
 */
module NativePort {
  import opened Basics
  import opened NativeChannel

  class NativePort {
    var status: Status
    var port: Option<nat>
    var ports: nat
    var pending: map<nat, Kind>
    var timers: set<nat>
    var nextId: nat
    var autoReconnect: bool
    var reconnectDelays: seq<nat>
    var reconnectTimer: Option<nat>
    var reconnectAttempt: nat
    ghost var calls: nat
    var answers: seq<Answer>
    ghost var waits: seq<Wait>
    ghost var lost: bool

    ghost function Now(): Channel
      reads this
    {
      Channel(status, port, ports, pending, timers, nextId, autoReconnect, reconnectDelays, reconnectTimer,
              reconnectAttempt, calls, answers, waits, lost)
    }

    /** What holds while a turn is under way: every request is pending or resolved, but a lost port need not yet be
      * looked for. */
    ghost predicate Underway()
      reads this
    {
      Settled(Now()) && calls == |pending| + |answers|
    }

    /** The invariant at turn boundaries. */
    ghost predicate Valid()
      reads this
    {
      Inv(Now())
    }

    constructor ()
      ensures Valid() && Now() == START
    {
      status, port, ports := Disconnected, None, 0;
      pending, timers, nextId := map[], {}, 0;
      autoReconnect, reconnectDelays, reconnectTimer, reconnectAttempt := false, DEFAULT_DELAYS, None, 0;
      calls, answers, waits, lost := 0, [], [], false;
    }

    method StopReconnecting()
      modifies this`reconnectTimer, this`reconnectAttempt, this`waits
      ensures Now() == NativeChannel.StopReconnecting(old(Now()))
    {
      reconnectTimer := None;
      reconnectAttempt := 0;
      waits := [];
    }

    method ScheduleReconnect()
      requires reconnectDelays != []
      modifies this`reconnectTimer, this`reconnectAttempt, this`waits
      ensures Now() == NativeChannel.ScheduleReconnect(old(Now()))
    {
      if !autoReconnect || reconnectTimer.Some? {
        return;
      }
      var delay := reconnectDelays[if reconnectAttempt < |reconnectDelays| - 1 then reconnectAttempt
                                   else |reconnectDelays| - 1];
      waits := waits + [Wait(reconnectAttempt, reconnectDelays, delay)];
      reconnectAttempt := reconnectAttempt + 1;
      reconnectTimer := Some(delay);
    }

    method Resolve(id: Option<nat>, kind: Kind, body: Body, framed: bool)
      modifies this`answers
      ensures answers == old(answers) + [Answer(id, kind, body, framed)]
    {
      answers := answers + [Answer(id, kind, body, framed)];
    }

    /** The one waiting for a request goes on with its reply. */
    method GoOn(kind: Kind, reply: Body)
      requires reconnectDelays != []
      modifies this`status, this`reconnectTimer, this`reconnectAttempt, this`waits
      ensures Now() == Continue(old(Now()), kind, reply)
    {
      match kind
      case Hello(retry) =>
        if reply.Welcome? {
          StopReconnecting();
          status := if reply.unlocked then Ready else Locked;
        } else {
          status := Error;
        }
        if retry && status != Ready && status != Locked {
          ScheduleReconnect();
        }
      case Refresh =>
        if reply.StatusReply? {
          status := if reply.unlocked then Ready else Locked;
        } else if reply == ErrorReply(VaultLocked) {
          status := Locked;
        } else if reply.ErrorReply? {
          status := Error;
        }
      case Other =>
    }

    /** The continuations of the requests that failed with a port. */
    method GoOnFailed(failing: map<nat, Kind>)
      requires reconnectDelays != []
      modifies this`status, this`reconnectTimer, this`reconnectAttempt, this`waits
      ensures Now() == ContinueFailed(old(Now()), failing, old(nextId))
    {
      var n := 0;
      while n < nextId
        invariant n <= nextId == old(nextId) && reconnectDelays == old(reconnectDelays)
        invariant Now() == ContinueFailed(old(Now()), failing, n)
      {
        n := n + 1;
        if n in failing {
          GoOn(failing[n], ErrorReply(VaultLocked));
        }
      }
    }

    /** Resolves what was waiting with an error, in order. */
    method FailAll(failing: map<nat, Kind>)
      modifies this`answers
      ensures answers == old(answers) + FailedAnswers(failing, nextId)
    {
      var n := 0;
      while n < nextId
        invariant n <= nextId && answers == old(answers) + FailedAnswers(failing, n)
      {
        n := n + 1;
        if n in failing {
          Resolve(Some(n), failing[n], ErrorReply(VaultLocked), false);
        }
      }
    }

    /** Tears the port down and fails everything still waiting. Answers what is to go on when the turn is over. */
    method DropPort() returns (failing: map<nat, Kind>)
      requires reconnectDelays != []
      modifies this
      ensures Now() == NativeChannel.DropPort(old(Now())) && failing == old(pending)
    {
      failing := pending;
      pending := map[];
      port := None;
      status := Disconnected;
      timers := {};
      FailAll(failing);
      lost := lost || autoReconnect;
      assert Now() == Dropped(old(Now()));
      ScheduleReconnect();
    }

    /** Resolves a request that could not be sent; then what failed before it goes on, and it does. */
    method Refuse(id: Option<nat>, failing: map<nat, Kind>, kind: Kind)
      requires reconnectDelays != []
      modifies this
      ensures Now() == RefuseCall(old(Now()), id, failing, kind)
    {
      Resolve(id, kind, ErrorReply(VaultLocked), false);
      GoOnFailed(failing);
      GoOn(kind, ErrorReply(VaultLocked));
    }

    /** Sends a request over the live port under a new id. */
    method PostOver(kind: Kind, posts: bool)
      requires reconnectDelays != []
      modifies this
      ensures Now() == Post(old(Now()), kind, posts)
    {
      nextId := nextId + 1;
      var id := nextId;
      if posts {
        timers := timers + {id};
        pending := pending[id := kind];
      } else {
        var failing := DropPort();
        Refuse(Some(id), failing, kind);
      }
    }

    /** Connects, or uses the live port. A failure to connect is a dropped port. */
    method EnsurePort(connects: bool) returns (live: bool, failing: map<nat, Kind>)
      requires reconnectDelays != []
      modifies this
      ensures live <==> old(port).Some? || connects
      ensures Now() == if live then Connected(old(Now())) else NativeChannel.DropPort(old(Now()))
      ensures failing == old(pending)
    {
      failing := pending;
      if port.Some? {
        return true, failing;
      }
      if !connects {
        failing := DropPort();
        return false, failing;
      }
      port, ports := Some(ports), ports + 1;
      status := Connecting;
      return true, failing;
    }

    method CallOverPort(kind: Kind, connects: bool, posts: bool)
      requires Underway()
      modifies this
      ensures Valid() && Now() == Call(old(Now()), kind, connects, posts)
    {
      CallKeeps(Now(), kind, connects, posts);
      Send(kind, connects, posts);
    }

    method Send(kind: Kind, connects: bool, posts: bool)
      requires reconnectDelays != []
      modifies this
      ensures Now() == Call(old(Now()), kind, connects, posts)
    {
      ghost var before := Now();
      calls := calls + 1;
      ghost var asked := Now();
      assert asked == before.(calls := before.calls + 1);
      var live, failing := EnsurePort(connects);
      if live {
        assert Now() == Connected(asked);
        PostOver(kind, posts);
        assert Now() == Post(Connected(asked), kind, posts);
      } else {
        assert Now() == NativeChannel.DropPort(asked);
        Refuse(None, failing, kind);
        assert Now() == RefuseCall(NativeChannel.DropPort(asked), None, before.pending, kind);
      }
    }

    method EnsureHello(retry: bool, connects: bool, posts: bool)
      requires Underway()
      modifies this
      ensures Valid() && Now() == NativeChannel.EnsureHello(old(Now()), retry, connects, posts)
    {
      if status == Ready && port.Some? {
        return;
      }
      CallOverPort(Hello(retry), connects, posts);
    }

    method OnFrame(frame: Frame)
      requires Valid()
      modifies this
      ensures Valid() && Now() == Message(old(Now()), frame)
    {
      MessageKeeps(Now(), frame);
      Take(frame);
    }

    method Take(frame: Frame)
      requires reconnectDelays != []
      modifies this
      ensures Now() == Message(old(Now()), frame)
    {
      if !frame.Reply? || frame.id !in pending {
        return;
      }
      var kind := pending[frame.id];
      pending := pending - {frame.id};
      timers := timers - {frame.id};
      Resolve(Some(frame.id), kind, frame.body, true);
      GoOn(kind, frame.body);
    }

    method OnDisconnect()
      requires Valid()
      modifies this
      ensures Valid() && Now() == Disconnect(old(Now()))
    {
      DisconnectKeeps(Now());
      var failing := DropPort();
      GoOnFailed(failing);
    }

    method OnRequestTimer(id: nat)
      requires Valid() && id in timers
      modifies this
      ensures Valid() && Now() == Timeout(old(Now()), id)
    {
      TimeoutKeeps(Now(), id);
      var kind := pending[id];
      timers := timers - {id};
      pending := pending - {id};
      Resolve(Some(id), kind, ErrorReply(ApprovalTimeout), false);
      GoOn(kind, ErrorReply(ApprovalTimeout));
    }

    method OnReconnectTimer(connects: bool, posts: bool)
      requires Valid() && reconnectTimer.Some?
      modifies this
      ensures Valid() && Now() == ReconnectFires(old(Now()), connects, posts)
    {
      reconnectTimer := None;
      EnsureHello(true, connects, posts);
    }

    method EnableAutoReconnect(delays: seq<nat>)
      requires Valid()
      modifies this
      ensures Valid() && Now() == Enable(old(Now()), delays)
    {
      autoReconnect := true;
      if |delays| > 0 {
        reconnectDelays := delays;
      }
    }

    method DisableAutoReconnect()
      requires Valid()
      modifies this
      ensures Valid() && Now() == Disable(old(Now()))
    {
      DisableKeeps(Now());
      autoReconnect := false;
      reconnectDelays := DEFAULT_DELAYS;
      StopReconnecting();
      lost := false;
    }
  }
}
