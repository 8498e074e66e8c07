/**
 * The worker together with the content scripts its locates ask (content.js): what a `locate` comes
 * to when the script in the asked frame follows its part of the protocol. Everybody else may still
 * send anything.
 */
module AgentLocating {
  import opened Basics
  import opened AgentFill
  import opened AgentRuns

  // ---- Locating: the script answers `ok` only after its own report was taken ----

  /**
   * `told` are the locates whose script has been told that its report was taken; `lost` those of
   * them whose report was taken for another locate, because the id had come to name that one, and
   * for which the worker has not reported itself.
   */
  datatype Locating = Locating(world: World, told: set<nat>, lost: set<nat>)

  /** The script asked by locate `p`: frame 0 of the asked tab, reporting on that locate's id. */
  predicate FromScript(s: State, e: Event, p: nat) {
    && e.ReportMessage? && p < |s.probes| && s.probes[p].tabId.Some?
    && e.id == s.probes[p].id && e.sender.tab == s.probes[p].tabId && e.sender.frameId == 0
  }

  /** The report of locate `p`'s script is taken for another locate, and `p` has no report yet. */
  predicate Misdirected(s: State, e: Event, p: nat)
    requires s.Refs() && FromScript(s, e, p)
  {
    ReportTaken(s, e.sender, e.id, e.now) && s.probeOf[e.id] != p && !s.probes[p].reported
  }

  /** One event; a report may be sent by the script of the locate `script`, however late. */
  ghost predicate LocatingNext(l: Locating, e: Event, script: Option<nat>, l': Locating) {
    var s := l.world.state;
    && s.Refs() && Enabled(s, e) && l'.world == Next(l.world, e)
    && (e.LocateReply? && e.ok ==> e.p in l.told)
    && (script.Some? ==> FromScript(s, e, script.value))
    && l'.told == l.told + (if script.Some? && ReportTaken(s, e.sender, e.id, e.now) then {script.value} else {})
    && l'.lost == l.lost + (if script.Some? && Misdirected(s, e, script.value) then {script.value} else {})
                  - (if e.LocateReply? && !e.ok then {e.p} else {})
  }

  ghost predicate LocatingRun(ls: seq<Locating>, events: seq<Event>, scripts: seq<Option<nat>>) {
    && |ls| == |events| + 1 == |scripts| + 1
    && ls[0] == Locating(World(EMPTY, []), {}, {})
    && forall i :: 0 <= i < |events| ==> LocatingNext(ls[i], events[i], scripts[i], ls[i + 1])
  }

  /** Some locate of the same probe id has been reported. */
  ghost predicate IdReported(s: State, p: nat)
    requires p < |s.probes|
  {
    exists q: nat :: q < |s.probes| && s.probes[q].id == s.probes[p].id && s.probes[q].reported
  }

  /** An id names the latest locate accepted under it, or none. */
  ghost predicate NamesLatest(s: State) {
    forall id | id in s.probeOf :: forall q: nat | q < |s.probes| && s.probes[q].id == id :: q <= s.probeOf[id]
  }

  /** A locate that lost its report has none, and none can reach it any more. */
  ghost predicate Lost(s: State, p: nat) {
    && p < |s.probes| && !s.probes[p].reported && s.probes[p].stage != Choosing
    && forall id | id in s.probeOf :: s.probeOf[id] != p
  }

  ghost predicate LocatingInv(l: Locating) {
    var s := l.world.state;
    && Inv(l.world) && NamesLatest(s) && l.lost <= l.told
    && (forall p | p in l.lost :: Lost(s, p))
    && (forall p | p in l.told :: p < |s.probes| && IdReported(s, p) && (s.probes[p].reported || p in l.lost))
    && forall p: nat | p < |s.probes| :: s.probes[p].stage == Finished ==> s.probes[p].reported || p in l.lost
  }

  /** A locate is finished by an answer, or has sent its report. */
  lemma StepFinishes(s: State, e: Event, p: nat)
    requires s.Refs() && Enabled(s, e) && p < |Step(s, e).state.probes|
    requires Step(s, e).state.probes[p].stage == Finished
    ensures || (p < |s.probes| && s.probes[p].stage == Finished)
            || Step(s, e).state.probes[p].reported
            || e == LocateReply(p, true)
  {
    StepFrame(s, e);
    if IsProbeEvent(e) {
      ProbeEventFinishes(s, e, p);
    }
  }

  lemma ProbeEventFinishes(s: State, e: Event, p: nat)
    requires s.Refs() && Enabled(s, e) && IsProbeEvent(e) && p < |Step(s, e).state.probes|
    requires Step(s, e).state.probes[p].stage == Finished
    ensures || (p < |s.probes| && s.probes[p].stage == Finished)
            || Step(s, e).state.probes[p].reported
            || e == LocateReply(p, true)
  {
  }

  /** Which report a step can send. */
  lemma ReportsWhose(s: State, e: Event)
    requires s.Refs() && Enabled(s, e)
    ensures var said := Step(s, e).said;
            said.Some? && said.value.TargetReport? ==>
              var p := said.value.probe;
              || (e.ReportMessage? && ReportTaken(s, e.sender, e.id, e.now) && s.probeOf[e.id] == p)
              || (e.TabFound? && e.p == p)
              || (e == LocateReply(p, false))
  {
    StepFrame(s, e);
  }

  /** A step makes a probe at most by accepting a `locate`, which its id then names; no other name changes. */
  ghost predicate NamesStep(s: State, t: State) {
    && |s.probes| <= |t.probes| <= |s.probes| + 1
    && (forall id | id in t.probeOf ::
          if |t.probes| > |s.probes| && id == t.probes[|s.probes|].id then t.probeOf[id] == |s.probes|
          else id in s.probeOf && t.probeOf[id] == s.probeOf[id])
    && forall p: nat | p < |s.probes| ::
         && t.probes[p].id == s.probes[p].id
         && (s.probes[p].stage != Choosing ==> t.probes[p].stage != Choosing)
         && (s.probes[p].stage == Finished ==> t.probes[p].stage == Finished)
  }

  lemma StepNames(s: State, e: Event)
    requires s.Refs() && Enabled(s, e)
    ensures NamesStep(s, Step(s, e).state)
  {
    StepFrame(s, e);
    if e.PushDeliver? {
      DeliverShape(s, e.id, e.grant, e.now);
    } else if IsProbeEvent(e) {
      ProbeEventNames(s, e);
    } else {
      DeliveryEventOnlyDrops(s, e);
    }
  }

  lemma ProbeEventNames(s: State, e: Event)
    requires s.Refs() && Enabled(s, e) && IsProbeEvent(e)
    ensures NamesStep(s, Step(s, e).state)
  {
    match e {
      case PushLocate(id, now) => LocateNames(s, id, now);
      case TabFound(p, tab) => TabChosenNames(s, p, tab);
      case LocateReply(p, ok) => LocateAnsweredNames(s, p, ok);
      case ReportMessage(sender, id, visible, found, now) => ReportArrivedNames(s, sender, id, visible, found, now);
    }
  }

  lemma LocateNames(s: State, id: Id, now: int)
    requires s.Refs()
    ensures NamesStep(s, Locate(s, id, now).state)
  {
  }

  lemma TabChosenNames(s: State, p: nat, tab: Option<TabId>)
    requires s.Refs() && p < |s.probes| && s.probes[p].stage == Choosing
    ensures NamesStep(s, TabChosen(s, p, tab).state)
  {
  }

  lemma LocateAnsweredNames(s: State, p: nat, ok: bool)
    requires s.Refs() && p < |s.probes| && s.probes[p].stage == Asked
    ensures NamesStep(s, LocateAnswered(s, p, ok).state)
  {
  }

  lemma ReportArrivedNames(s: State, sender: Sender, id: Id, visible: bool, found: Found, now: int)
    requires s.Refs() && sender.tab.Some?
    ensures NamesStep(s, ReportArrived(s, sender, id, visible, found, now).state)
  {
  }

  lemma KeepsNames(s: State, t: State)
    requires s.Refs() && NamesStep(s, t) && NamesLatest(s)
    ensures NamesLatest(t)
  {
  }

  lemma KeepsLost(l: Locating, e: Event, script: Option<nat>, l': Locating, p: nat)
    requires LocatingInv(l) && LocatingNext(l, e, script, l') && p in l'.lost
    ensures Lost(l'.world.state, p)
  {
    var s := l.world.state;
    StepNames(s, e);
    StepReports(s, e);
    ReportsWhose(s, e);
    if p !in l.lost {
      assert FromScript(s, e, p) && s.probes[p].stage != Choosing;
    }
  }

  lemma IdStaysReported(s: State, r: Reaction, p: nat)
    requires ReportStep(s, r) && p < |s.probes| && IdReported(s, p)
    ensures p < |r.state.probes| && IdReported(r.state, p)
  {
    var q: nat :| q < |s.probes| && s.probes[q].id == s.probes[p].id && s.probes[q].reported;
    assert r.state.probes[q].reported && r.state.probes[q].id == r.state.probes[p].id;
  }

  lemma KeepsTold(l: Locating, e: Event, script: Option<nat>, l': Locating, p: nat)
    requires LocatingInv(l) && LocatingNext(l, e, script, l') && p in l'.told
    ensures var t := l'.world.state; p < |t.probes| && IdReported(t, p) && (t.probes[p].reported || p in l'.lost)
  {
    var s, t := l.world.state, l'.world.state;
    StepReports(s, e);
    if p in l.told {
      IdStaysReported(s, Step(s, e), p);
      if e == LocateReply(p, false) {
        assert t.probes[p].reported;
      }
    } else {
      assert t.probes[s.probeOf[e.id]].reported;
    }
  }

  lemma LocatingKeepsInv(l: Locating, e: Event, script: Option<nat>, l': Locating)
    requires LocatingInv(l) && LocatingNext(l, e, script, l')
    ensures LocatingInv(l')
  {
    var s, t := l.world.state, l'.world.state;
    KeepsInv(l.world, e);
    StepNames(s, e);
    KeepsNames(s, t);
    StepReports(s, e);
    forall p | p in l'.lost
      ensures Lost(t, p)
    {
      KeepsLost(l, e, script, l', p);
    }
    forall p | p in l'.told
      ensures p < |t.probes| && IdReported(t, p) && (t.probes[p].reported || p in l'.lost)
    {
      KeepsTold(l, e, script, l', p);
    }
    forall p: nat | p < |t.probes| && t.probes[p].stage == Finished
      ensures t.probes[p].reported || p in l'.lost
    {
      StepFinishes(s, e, p);
    }
  }

  lemma StartKeepsInv()
    ensures LocatingInv(Locating(World(EMPTY, []), {}, {}))
  {
  }

  lemma {:induction false} LocatingRunKeepsInv(ls: seq<Locating>, events: seq<Event>, scripts: seq<Option<nat>>, i: nat)
    requires LocatingRun(ls, events, scripts) && i < |ls|
    ensures LocatingInv(ls[i])
  {
    if i == 0 {
      StartKeepsInv();
    } else {
      LocatingRunKeepsInv(ls, events, scripts, i - 1);
      LocatingKeepsInv(ls[i - 1], events[i - 1], scripts[i - 1], ls[i]);
    }
  }

  /**
   * Once a `locate` has finished, some locate of its probe id has been reported, whatever was late,
   * closed, pruned or delivered early in between; and it has sent a report of its own, once, exactly
   * unless its script's report was taken for another locate that the id had come to name.
   */
  lemma FinishedLocateReported(ls: seq<Locating>, events: seq<Event>, scripts: seq<Option<nat>>, n: nat, p: nat)
    requires LocatingRun(ls, events, scripts) && n < |ls|
    requires p < |ls[n].world.state.probes| && ls[n].world.state.probes[p].stage == Finished
    ensures var s, log := ls[n].world.state, ls[n].world.log;
            && (exists q: nat :: q < |s.probes| && s.probes[q].id == s.probes[p].id && |ReportsOf(log, q)| == 1)
            && |ReportsOf(log, p)| == if p in ls[n].lost then 0 else 1
  {
    LocatingRunKeepsInv(ls, events, scripts, n);
    var s, log := ls[n].world.state, ls[n].world.log;
    assert p in ls[n].lost ==> Lost(s, p);
    assert IdReported(s, p);
    var q: nat :| q < |s.probes| && s.probes[q].id == s.probes[p].id && s.probes[q].reported;
    assert |ReportsOf(log, q)| == 1;
  }

  /** The worker's states over a run. */
  function States(ls: seq<Locating>): (ss: seq<State>)
    ensures |ss| == |ls| && forall i | 0 <= i < |ls| :: ss[i] == ls[i].world.state
  {
    seq(|ls|, i requires 0 <= i < |ls| => ls[i].world.state)
  }

  ghost predicate NamesRun(ss: seq<State>) {
    forall i | 0 <= i < |ss| - 1 :: NamesStep(ss[i], ss[i + 1])
  }

  lemma RunNames(ls: seq<Locating>, events: seq<Event>, scripts: seq<Option<nat>>)
    requires LocatingRun(ls, events, scripts)
    ensures NamesRun(States(ls))
  {
    forall i | 0 <= i < |events|
      ensures NamesStep(ls[i].world.state, ls[i + 1].world.state)
    {
      assert LocatingNext(ls[i], events[i], scripts[i], ls[i + 1]);
      StepNames(ls[i].world.state, events[i]);
    }
  }

  lemma {:induction false} ProbesKept(ss: seq<State>, i: nat, j: nat, p: nat)
    requires NamesRun(ss) && i <= j < |ss| && p < |ss[i].probes|
    ensures p < |ss[j].probes| && ss[j].probes[p].id == ss[i].probes[p].id
    ensures ss[i].probes[p].stage == Finished ==> ss[j].probes[p].stage == Finished
    decreases j
  {
    if i < j {
      ProbesKept(ss, i, j - 1, p);
      assert NamesStep(ss[j - 1], ss[j - 1 + 1]);
    }
  }

  /** The step that made a probe. */
  lemma {:induction false} MadeAt(ss: seq<State>, n: nat, q: nat) returns (m: nat)
    requires NamesRun(ss) && n < |ss| && ss[0].probes == [] && q < |ss[n].probes|
    ensures m < n && |ss[m].probes| == q && |ss[m + 1].probes| == q + 1
  {
    assert NamesStep(ss[n - 1], ss[n - 1 + 1]);
    if q < |ss[n - 1].probes| {
      m := MadeAt(ss, n - 1, q);
    } else {
      m := n - 1;
    }
  }

  /** The step after `m` events accepts a `locate` under the id of `p` before `p` has finished. */
  ghost predicate AcceptedAgain(ss: seq<State>, m: nat, p: nat)
    requires m + 1 < |ss|
  {
    var s, t := ss[m], ss[m + 1];
    && p < |s.probes| && s.probes[p].stage != Finished
    && |t.probes| > |s.probes| && t.probes[|s.probes|].id == s.probes[p].id
  }

  /** A later probe of the same id was made before the first locate has finished. */
  lemma AcceptedBefore(ss: seq<State>, n: nat, p: nat, q: nat) returns (m: nat)
    requires NamesRun(ss) && n < |ss| && ss[0].probes == [] && p < q < |ss[n].probes|
    requires ss[n].probes[q].id == ss[n].probes[p].id && ss[n].probes[p].stage != Finished
    ensures m < n && AcceptedAgain(ss, m, p)
  {
    m := MadeAt(ss, n, q);
    ProbesKept(ss, m, n, p);
    ProbesKept(ss, m + 1, n, q);
  }

  lemma BecomesLost(l: Locating, e: Event, script: Option<nat>, l': Locating, p: nat) returns (q: nat)
    requires LocatingInv(l) && LocatingNext(l, e, script, l') && p in l'.lost && p !in l.lost
    ensures var s := l.world.state;
            p < q < |s.probes| && s.probes[q].id == s.probes[p].id && s.probes[p].stage != Finished
  {
    q := l.world.state.probeOf[e.id];
  }

  /** Reports are lost only to a `locate` accepted under the same id before the first one has finished. */
  lemma {:induction false} LostWhenReused(ls: seq<Locating>, events: seq<Event>, scripts: seq<Option<nat>>,
                                          n: nat, p: nat) returns (m: nat)
    requires LocatingRun(ls, events, scripts) && n < |ls| && p in ls[n].lost
    ensures m < n && AcceptedAgain(States(ls), m, p)
  {
    if p in ls[n - 1].lost {
      m := LostWhenReused(ls, events, scripts, n - 1, p);
    } else {
      LocatingRunKeepsInv(ls, events, scripts, n - 1);
      RunNames(ls, events, scripts);
      var q := BecomesLost(ls[n - 1], events[n - 1], scripts[n - 1], ls[n], p);
      m := AcceptedBefore(States(ls), n - 1, p, q);
    }
  }

  /** So a `locate` whose id is not accepted again before it finishes sends exactly one report of its own. */
  lemma UnreusedLocateReported(ls: seq<Locating>, events: seq<Event>, scripts: seq<Option<nat>>, n: nat, p: nat)
    requires LocatingRun(ls, events, scripts) && n < |ls|
    requires p < |ls[n].world.state.probes| && ls[n].world.state.probes[p].stage == Finished
    requires forall m: nat | m < n :: !AcceptedAgain(States(ls), m, p)
    ensures |ReportsOf(ls[n].world.log, p)| == 1
  {
    FinishedLocateReported(ls, events, scripts, n, p);
    if p in ls[n].lost {
      var m := LostWhenReused(ls, events, scripts, n, p);
    }
  }

  // The exception is real: an early delivery spends the probe, the app's next `locate` reuses the
  // id, and the first script's report is credited to the second locate.

  const SCRIPT := Sender(Some(7), 0, None, true, Some("https://a.example"))
  const FOUND := Found(true, true, false, false, false)
  const FIRST := Probe("a", Some(7), 0, false, None, Asked)
  const SECOND := Probe("a", Some(7), 2, false, None, Asked)
  const SPENT := Delivery("g", Some(0), Some(7), None, 1, false, 1, None, false)

  function ReusedId(i: nat): State
    requires i <= 7
  {
    if i == 0 then EMPTY
    else if i == 1 then State([FIRST.(tabId := None, stage := Choosing)], map["a" := 0], [], map[])
    else if i == 2 then State([FIRST], map["a" := 0], [], map[])
    else if i == 3 then State([FIRST], map[], [SPENT], map["g" := 0])
    else if i == 4 then State([FIRST, SECOND.(tabId := None, stage := Choosing)], map["a" := 1], [SPENT], map["g" := 0])
    else if i == 5 then State([FIRST, SECOND], map["a" := 1], [SPENT], map["g" := 0])
    else if i == 6 then State([FIRST, SECOND.(reported := true)], map["a" := 1], [SPENT], map["g" := 0])
    else State([FIRST.(stage := Finished), SECOND.(reported := true)], map["a" := 1], [SPENT], map["g" := 0])
  }

  function ReusedIdEvents(): seq<Event> {
    [PushLocate("a", 0), TabFound(0, Some(7)), PushDeliver("a", "g", 1), PushLocate("a", 2),
     TabFound(1, Some(7)), ReportMessage(SCRIPT, "a", true, FOUND, 3), LocateReply(0, true)]
  }

  lemma ReusedIdRefs(i: nat)
    requires i <= 7
    ensures ReusedId(i).Refs()
  {
  }

  lemma ReusedIdFirstPush()
    requires ReusedId(0).Refs()
    ensures Locate(ReusedId(0), "a", 0) == Silent(ReusedId(1))
  {
    assert Pruned(ReusedId(0), 0) == ReusedId(0);
  }

  lemma ReusedIdSecondPush()
    requires ReusedId(3).Refs()
    ensures Locate(ReusedId(3), "a", 2) == Silent(ReusedId(4))
  {
    assert Pruned(ReusedId(3), 2) == ReusedId(3);
  }

  const DELIVERED := State([FIRST], map[], [SPENT.(outcomes := 0)], map["g" := 0])

  lemma ReusedIdStarts()
    requires ReusedId(2).Refs()
    ensures NewDelivery(ReusedId(2), "a", "g", 1) == SPENT.(outcomes := 0)
    ensures Started(ReusedId(2), "a", "g", 1) == DELIVERED
  {
    assert ReusedId(2).probeOf - {"a"} == map[];
  }

  lemma ReusedIdUnanswered()
    ensures DELIVERED.Refs()
    ensures DeliverUnanswered(DELIVERED, 0) == Reaction(ReusedId(3), Some(FillOutcome(0, "g", {}, Some(FormChanged))))
  {
  }

  lemma ReusedIdDelivery()
    requires ReusedId(2).Refs()
    ensures Deliver(ReusedId(2), "a", "g", 1) == Reaction(ReusedId(3), Some(FillOutcome(0, "g", {}, Some(FormChanged))))
  {
    assert Pruned(ReusedId(2), 1) == ReusedId(2);
    ReusedIdStarts();
    ReusedIdUnanswered();
  }

  lemma ReusedIdTabs()
    requires ReusedId(1).Refs() && ReusedId(4).Refs()
    ensures TabChosen(ReusedId(1), 0, Some(7)) == Silent(ReusedId(2))
    ensures TabChosen(ReusedId(4), 1, Some(7)) == Silent(ReusedId(5))
  {
  }

  lemma ReusedIdReport()
    requires ReusedId(5).Refs()
    ensures ReportTaken(ReusedId(5), SCRIPT, "a", 3)
    ensures var r := ReportArrived(ReusedId(5), SCRIPT, "a", true, FOUND, 3);
            r.state == ReusedId(6) && r.said.Some? && r.said.value.TargetReport? && r.said.value.probe == 1
  {
  }

  lemma ReusedIdFinish()
    requires ReusedId(6).Refs()
    ensures LocateAnswered(ReusedId(6), 0, true) == Silent(ReusedId(7))
  {
  }

  lemma ReusedIdPushStep(i: nat)
    requires i == 0 || i == 3
    ensures var s, e := ReusedId(i), ReusedIdEvents()[i];
            s.Refs() && Enabled(s, e) && Step(s, e) == Silent(ReusedId(i + 1))
  {
    ReusedIdRefs(i);
    if i == 0 {
      ReusedIdFirstPush();
    } else {
      ReusedIdSecondPush();
    }
  }

  lemma ReusedIdDeliveryStep()
    ensures var s, e := ReusedId(2), ReusedIdEvents()[2];
            s.Refs() && Enabled(s, e)
            && Step(s, e) == Reaction(ReusedId(3), Some(FillOutcome(0, "g", {}, Some(FormChanged))))
  {
    ReusedIdRefs(2);
    ReusedIdDelivery();
  }

  lemma ReusedIdTabStep(i: nat)
    requires i == 1 || i == 4
    ensures var s, e := ReusedId(i), ReusedIdEvents()[i];
            s.Refs() && Enabled(s, e) && Step(s, e) == Silent(ReusedId(i + 1))
  {
    ReusedIdRefs(1);
    ReusedIdRefs(4);
    ReusedIdTabs();
  }

  lemma ReusedIdFinishStep()
    ensures var s, e := ReusedId(6), ReusedIdEvents()[6];
            s.Refs() && Enabled(s, e) && Step(s, e) == Silent(ReusedId(7))
  {
    ReusedIdRefs(6);
    ReusedIdFinish();
  }

  lemma ReusedIdReportStep() returns (said: Sent)
    ensures var s, e := ReusedId(5), ReusedIdEvents()[5];
            s.Refs() && Enabled(s, e) && Step(s, e) == Reaction(ReusedId(6), Some(said))
    ensures said.TargetReport? && said.probe == 1
  {
    ReusedIdRefs(5);
    ReusedIdReport();
    said := ReportArrived(ReusedId(5), SCRIPT, "a", true, FOUND, 3).said.value;
  }

  lemma ReusedIdStep(i: nat) returns (said: Option<Sent>)
    requires i < 7
    ensures var s, e := ReusedId(i), ReusedIdEvents()[i];
            s.Refs() && Enabled(s, e) && Step(s, e) == Reaction(ReusedId(i + 1), said)
    ensures said.Some? && said.value.TargetReport? ==> said.value.probe == 1
  {
    said := None;
    if i == 0 || i == 3 {
      ReusedIdPushStep(i);
    } else if i == 2 {
      ReusedIdDeliveryStep();
      said := Some(FillOutcome(0, "g", {}, Some(FormChanged)));
    } else if i == 5 {
      var report := ReusedIdReportStep();
      said := Some(report);
    } else if i == 6 {
      ReusedIdFinishStep();
    } else {
      ReusedIdTabStep(i);
    }
  }

  lemma ExtendLocatingRun(ls: seq<Locating>, events: seq<Event>, scripts: seq<Option<nat>>,
                          e: Event, script: Option<nat>, next: Locating)
    requires LocatingRun(ls, events, scripts) && LocatingNext(ls[|events|], e, script, next)
    ensures LocatingRun(ls + [next], events + [e], scripts + [script])
  {
    var more, all, who := ls + [next], events + [e], scripts + [script];
    forall i | 0 <= i < |all|
      ensures LocatingNext(more[i], all[i], who[i], more[i + 1])
    {
      if i < |events| {
        assert LocatingNext(ls[i], events[i], scripts[i], ls[i + 1]);
      }
    }
  }

  /** The locates told that their report was taken, which have all lost it. */
  function Told(i: nat): set<nat> {
    if i > 5 then {0} else {}
  }

  function ScriptOf(i: nat): Option<nat> {
    if i == 5 then Some(0) else None
  }

  function ReusedIdAt(i: nat, log: seq<Sent>): Locating
    requires i <= 7
  {
    Locating(World(ReusedId(i), log), Told(i), Told(i))
  }

  lemma ReusedIdNext(i: nat, log: seq<Sent>) returns (log': seq<Sent>)
    requires i < 7 && ReportsOf(log, 0) == []
    ensures ReportsOf(log', 0) == []
    ensures LocatingNext(ReusedIdAt(i, log), ReusedIdEvents()[i], ScriptOf(i), ReusedIdAt(i + 1, log'))
  {
    var said := ReusedIdStep(i);
    log' := if said.Some? then log + [said.value] else log;
    if said.Some? {
      Appended(log, said.value);
    }
    if i == 5 {
      ReusedIdReport();
    }
  }

  /** The run of those events, up to the `n`-th. */
  lemma {:induction false} ReusedIdRun(n: nat)
    returns (ls: seq<Locating>, events: seq<Event>, scripts: seq<Option<nat>>, log: seq<Sent>)
    requires n <= 7
    ensures LocatingRun(ls, events, scripts) && |events| == n
    ensures ls[n] == ReusedIdAt(n, log) && ReportsOf(log, 0) == []
  {
    if n == 0 {
      ls, events, scripts, log := [Locating(World(EMPTY, []), {}, {})], [], [], [];
    } else {
      var before;
      ls, events, scripts, before := ReusedIdRun(n - 1);
      log := ReusedIdNext(n - 1, before);
      var e, script, next := ReusedIdEvents()[n - 1], ScriptOf(n - 1), ReusedIdAt(n, log);
      ExtendLocatingRun(ls, events, scripts, e, script, next);
      ls, events, scripts := ls + [next], events + [e], scripts + [script];
    }
  }

  /** A finished locate can have reported nothing, when its probe id is used again. */
  lemma ReusedIdCostsReport() returns (ls: seq<Locating>, events: seq<Event>, scripts: seq<Option<nat>>)
    ensures LocatingRun(ls, events, scripts)
    ensures var w := ls[|events|].world;
            |w.state.probes| > 0 && w.state.probes[0].stage == Finished && ReportsOf(w.log, 0) == []
  {
    var log;
    ls, events, scripts, log := ReusedIdRun(7);
  }
}
