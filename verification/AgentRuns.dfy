/**
 * What holds over every interleaving of the agent-fill steps: the app's pushes, the tabs' answers,
 * messages from any content script at all, and tabs closing.
 */
module AgentRuns {
  import opened Basics
  import opened AgentFill

  datatype Event =
    | PushLocate(id: Id, now: int)
    | TabFound(p: nat, tab: Option<TabId>)
    | LocateReply(p: nat, ok: bool)
    | PushDeliver(id: Id, grant: Id, now: int)
    | DeliverReply(d: nat, ok: bool)
    | TabClosed(closed: TabId)
    | ReportMessage(sender: Sender, id: Id, visible: bool, found: Found, now: int)
    | RedeemMessage(sender: Sender, grant: Id, visible: bool, found: Found)
    | OutcomeMessage(sender: Sender, grant: Id, claimed: set<Field>, failure: Option<Failure>)

  /** A handler goes on only where it waits, and only a content script's message carries a tab. */
  predicate Enabled(s: State, e: Event) {
    match e
    case TabFound(p, _) => p < |s.probes| && s.probes[p].stage == Choosing
    case LocateReply(p, _) => p < |s.probes| && s.probes[p].stage == Asked
    case DeliverReply(d, _) => d < |s.deliveries| && s.deliveries[d].waiting
    case ReportMessage(sender, _, _, _, _) => sender.tab.Some?
    case RedeemMessage(sender, _, _, _) => sender.tab.Some?
    case OutcomeMessage(sender, _, _, _) => sender.tab.Some?
    case _ => true
  }

  function Step(s: State, e: Event): (r: Reaction)
    requires s.Refs() && Enabled(s, e)
    ensures r.state.Refs()
  {
    match e
    case PushLocate(id, now) => Locate(s, id, now)
    case TabFound(p, tab) => TabChosen(s, p, tab)
    case LocateReply(p, ok) => LocateAnswered(s, p, ok)
    case PushDeliver(id, grant, now) => Deliver(s, id, grant, now)
    case DeliverReply(d, ok) => DeliverAnswered(s, d, ok)
    case TabClosed(tab) => Silent(TabForgotten(s, tab))
    case ReportMessage(sender, id, visible, found, now) => ReportArrived(s, sender, id, visible, found, now)
    case RedeemMessage(sender, grant, visible, found) => RedeemArrived(s, sender, grant, visible, found)
    case OutcomeMessage(sender, grant, claimed, failure) => OutcomeArrived(s, sender, grant, claimed, failure)
  }

  /** A worker and everything it has told the app. */
  datatype World = World(state: State, log: seq<Sent>)

  function Next(w: World, e: Event): World
    requires w.state.Refs() && Enabled(w.state, e)
  {
    var r := Step(w.state, e);
    World(r.state, if r.said.Some? then w.log + [r.said.value] else w.log)
  }

  /** A run from an empty worker: each world is the last one's after an enabled event. */
  ghost predicate Run(worlds: seq<World>, events: seq<Event>) {
    && |worlds| == |events| + 1
    && worlds[0] == World(EMPTY, [])
    && forall i | 0 <= i < |events| :: Leads(worlds[i], events[i], worlds[i + 1])
  }

  ghost predicate Leads(w: World, e: Event, w': World) {
    w.state.Refs() && Enabled(w.state, e) && w' == Next(w, e)
  }

  lemma ExtendRun(worlds: seq<World>, events: seq<Event>, e: Event)
    requires Run(worlds, events)
    requires var w := worlds[|events|]; w.state.Refs() && Enabled(w.state, e)
    ensures Run(worlds + [Next(worlds[|events|], e)], events + [e])
  {
    var more, all := worlds + [Next(worlds[|events|], e)], events + [e];
    forall i | 0 <= i < |all|
      ensures Leads(more[i], all[i], more[i + 1])
    {
      if i < |events| {
        assert Leads(worlds[i], events[i], worlds[i + 1]);
      }
    }
  }

  // ---- What the log says of one probe or one delivery ----

  function ReportsOf(log: seq<Sent>, p: nat): seq<Sent> {
    if log == [] then []
    else
      var rest, m := ReportsOf(log[..|log| - 1], p), log[|log| - 1];
      if m.TargetReport? && m.probe == p then rest + [m] else rest
  }

  function RequestsOf(log: seq<Sent>, d: nat): seq<Sent> {
    if log == [] then []
    else
      var rest, m := RequestsOf(log[..|log| - 1], d), log[|log| - 1];
      if m.FillRequest? && m.delivery == d then rest + [m] else rest
  }

  function OutcomesOf(log: seq<Sent>, d: nat): seq<Sent> {
    if log == [] then []
    else
      var rest, m := OutcomesOf(log[..|log| - 1], d), log[|log| - 1];
      if m.FillOutcome? && m.delivery == d then rest + [m] else rest
  }

  lemma Appended(log: seq<Sent>, m: Sent)
    ensures forall p :: ReportsOf(log + [m], p)
                        == ReportsOf(log, p) + if m.TargetReport? && m.probe == p then [m] else []
    ensures forall d :: RequestsOf(log + [m], d)
                        == RequestsOf(log, d) + if m.FillRequest? && m.delivery == d then [m] else []
    ensures forall d :: OutcomesOf(log + [m], d)
                        == OutcomesOf(log, d) + if m.FillOutcome? && m.delivery == d then [m] else []
  {
    assert (log + [m])[..|log|] == log;
  }

  // ---- The invariant ----

  /** Each probe's report was sent exactly when the probe is marked as reported, and once. */
  ghost predicate ReportsOnce(s: State, log: seq<Sent>) {
    forall p: nat ::
      var sent := ReportsOf(log, p);
      if p < |s.probes| && s.probes[p].reported
      then |sent| == 1 && sent[0].TargetReport? && sent[0].id == s.probes[p].id
      else sent == []
  }

  /** A delivery with a tab spent a probe of its own, whose tab and document it carries. */
  ghost predicate SpendsProbe(s: State, d: nat)
    requires d < |s.deliveries|
  {
    var delivery := s.deliveries[d];
    match delivery.probe
    case None => delivery.tabId.None? && delivery.documentId.None?
    case Some(p) =>
      && p < |s.probes|
      && (forall id | id in s.probeOf :: s.probeOf[id] != p)
      && (delivery.tabId.Some? ==> delivery.tabId == s.probes[p].tabId && s.probes[p].stage != Choosing)
      && delivery.documentId == s.probes[p].documentId
  }

  ghost predicate ProbesSpentOnce(s: State) {
    && (forall p: nat | p < |s.probes| :: s.probes[p].tabId.Some? ==> s.probes[p].stage != Choosing)
    && (forall d: nat | d < |s.deliveries| :: SpendsProbe(s, d))
    && forall c: nat, d: nat | c < d < |s.deliveries| :: s.deliveries[c].probe.Some? ==>
         s.deliveries[c].probe != s.deliveries[d].probe
  }

  /** A grant was redeemed at most once per delivery, by the tab and document it was delivered to. */
  ghost predicate RedeemedOnce(s: State, log: seq<Sent>) {
    forall d: nat ::
      var sent := RequestsOf(log, d);
      if d < |s.deliveries| && s.deliveries[d].asked
      then |sent| <= 1 && (sent != [] ==> sent[0].FillRequest? && sent[0].grant == s.deliveries[d].grant
                                          && IsDeliveryTarget(s.deliveries[d], sent[0].sender))
      else sent == []
  }

  /** The outcomes of one delivery: one that is no tripwire's, and then perhaps the tripwire's for the password it
    * named. */
  ghost predicate OutcomeHistory(sent: seq<Sent>) {
    && |sent| <= 2
    && (forall m | m in sent :: m.FillOutcome?)
    && (|sent| >= 1 ==> sent[0].failure != Some(Unmasked))
    && (|sent| == 2 ==>
          && sent[1].failure == Some(Unmasked)
          && PasswordIn(sent[0].written).Some? && sent[1].written == {PasswordIn(sent[0].written).value})
  }

  ghost predicate OutcomesCountedFor(s: State, log: seq<Sent>, d: nat) {
    var sent := OutcomesOf(log, d);
    if d < |s.deliveries|
    then
      && OutcomeHistory(sent) && |sent| == s.deliveries[d].outcomes
      && s.deliveries[d].wrotePassword == if sent == [] then None else PasswordIn(sent[0].written)
    else sent == []
  }

  ghost predicate OutcomesCounted(s: State, log: seq<Sent>) {
    forall d: nat :: OutcomesCountedFor(s, log, d)
  }

  ghost predicate Inv(w: World) {
    && w.state.Refs() && ProbesSpentOnce(w.state)
    && ReportsOnce(w.state, w.log) && RedeemedOnce(w.state, w.log) && OutcomesCounted(w.state, w.log)
  }

  /** An id still leads to the probe. */
  ghost predicate Named(s: State, p: nat) {
    exists id :: id in s.probeOf && s.probeOf[id] == p
  }

  /** The worker still holds the delivery. */
  ghost predicate Held(s: State, d: nat) {
    exists grant :: grant in s.deliveryOf && s.deliveryOf[grant] == d
  }

  lemma HeldUnderItsGrant(s: State, d: nat)
    requires s.Refs() && d < |s.deliveries|
    ensures Held(s, d) <==> s.deliveries[d].grant in s.deliveryOf && s.deliveryOf[s.deliveries[d].grant] == d
  {
  }

  // ---- What a step can change ----

  /** The delivery `d` was made for `grant`, spending the probe named `id` if there was one, and tells what `said`
    * says. */
  ghost predicate IsNewDelivery(s: State, id: Id, grant: Id, d: Delivery, said: Option<Sent>)
    requires s.Refs()
  {
    && d.grant == grant && !d.asked && d.wrotePassword.None?
    && d.outcomes == (if d.waiting then 0 else 1)
    && said == (if d.waiting then None else Some(FillOutcome(|s.deliveries|, grant, {}, Some(FormChanged))))
    && match d.probe
       case None => d.tabId.None? && d.documentId.None?
       case Some(p) =>
         && id in s.probeOf && s.probeOf[id] == p
         && d.tabId == s.probes[p].tabId && d.documentId == s.probes[p].documentId
  }

  /** No entry of the maps is changed; a new one can only be the grant's, for the record to be made. */
  ghost predicate NamesKept(s: State, t: State) {
    && (forall k | k in t.probeOf :: k in s.probeOf && t.probeOf[k] == s.probeOf[k])
    && forall k | k in t.deliveryOf ::
         (k in s.deliveryOf && t.deliveryOf[k] == s.deliveryOf[k]) || t.deliveryOf[k] == |s.deliveries|
  }

  lemma DeliverNewShape(s: State, id: Id, grant: Id, now: int)
    requires s.Refs() && grant !in s.deliveryOf
    ensures var r, n := DeliverNew(s, id, grant, now), |s.deliveries|;
            && r.state.probes == s.probes && NamesKept(s, r.state) && id !in r.state.probeOf
            && |r.state.deliveries| == n + 1 && r.state.deliveries[..n] == s.deliveries
            && IsNewDelivery(s, id, grant, r.state.deliveries[n], r.said)
  {
    var t, n := Started(s, id, grant, now), |s.deliveries|;
    assert t.deliveries[..n] == s.deliveries && t.deliveries[n] == NewDelivery(s, id, grant, now);
  }

  /**
   * A `deliver` push makes at most one delivery. It spends the probe if it is still held, and tells
   * the app at once if there is no reported tab to ask.
   */
  lemma DeliverShape(s: State, id: Id, grant: Id, now: int)
    requires s.Refs()
    ensures var r, n := Deliver(s, id, grant, now), |s.deliveries|;
            && r.state.probes == s.probes && NamesKept(s, r.state)
            && if r.state.deliveries == s.deliveries then r.said == None
               else
                 && |r.state.deliveries| == n + 1 && r.state.deliveries[..n] == s.deliveries
                 && id !in r.state.probeOf && IsNewDelivery(s, id, grant, r.state.deliveries[n], r.said)
  {
    if IsOpaqueId(id) && IsOpaqueId(grant) {
      var t := Pruned(s, now);
      if grant !in t.deliveryOf {
        DeliverNewShape(t, id, grant, now);
      }
    }
  }

  /** The steps that are about probes. */
  predicate IsProbeEvent(e: Event) {
    e.PushLocate? || e.TabFound? || e.LocateReply? || e.ReportMessage?
  }

  /** A step is about the probes, about the deliveries, or only drops entries from the maps. */
  lemma StepFrame(s: State, e: Event)
    requires s.Refs() && Enabled(s, e)
    ensures var r := Step(s, e);
            && (!IsProbeEvent(e) ==> r.state.probes == s.probes && (r.said.Some? ==> !r.said.value.TargetReport?))
            && (IsProbeEvent(e) || e.TabClosed? ==>
                  r.state.deliveries == s.deliveries && (r.said.Some? ==> r.said.value.TargetReport?))
  {
    if e.PushDeliver? {
      DeliverShape(s, e.id, e.grant, e.now);
    }
  }

  /** A probe is marked as reported exactly by the step that sends its report. */
  ghost predicate ReportStep(s: State, r: Reaction) {
    var t, said := r.state, r.said;
    && |s.probes| <= |t.probes|
    && (said.Some? && said.value.TargetReport? ==>
          var p := said.value.probe;
          p < |s.probes| && !s.probes[p].reported && said.value.id == s.probes[p].id)
    && forall p: nat | p < |t.probes| ::
         var reports := said.Some? && said.value.TargetReport? && said.value.probe == p;
         if p < |s.probes|
         then t.probes[p].id == s.probes[p].id && (t.probes[p].reported <==> s.probes[p].reported || reports)
         else !t.probes[p].reported
  }

  lemma StepReports(s: State, e: Event)
    requires s.Refs() && Enabled(s, e)
    ensures ReportStep(s, Step(s, e))
  {
    StepFrame(s, e);
    if IsProbeEvent(e) {
      ProbeEventReports(s, e);
    }
  }

  lemma ProbeEventReports(s: State, e: Event)
    requires s.Refs() && Enabled(s, e) && IsProbeEvent(e)
    ensures ReportStep(s, Step(s, e))
  {
    match e {
      case PushLocate(id, now) => LocateReports(s, id, now);
      case TabFound(p, tab) => TabChosenReports(s, p, tab);
      case LocateReply(p, ok) => LocateAnsweredReports(s, p, ok);
      case ReportMessage(sender, id, visible, found, now) => ReportArrivedReports(s, sender, id, visible, found, now);
    }
  }

  lemma LocateReports(s: State, id: Id, now: int)
    requires s.Refs()
    ensures ReportStep(s, Locate(s, id, now))
  {
  }

  lemma TabChosenReports(s: State, p: nat, tab: Option<TabId>)
    requires s.Refs() && p < |s.probes| && s.probes[p].stage == Choosing
    ensures ReportStep(s, TabChosen(s, p, tab))
  {
  }

  lemma LocateAnsweredReports(s: State, p: nat, ok: bool)
    requires s.Refs() && p < |s.probes| && s.probes[p].stage == Asked
    ensures ReportStep(s, LocateAnswered(s, p, ok))
  {
  }

  lemma ReportArrivedReports(s: State, sender: Sender, id: Id, visible: bool, found: Found, now: int)
    requires s.Refs() && sender.tab.Some?
    ensures ReportStep(s, ReportArrived(s, sender, id, visible, found, now))
  {
  }

  /** A delivery stays the one it was made as. */
  ghost predicate SameDelivery(c: Delivery, d: Delivery) {
    c.grant == d.grant && c.probe == d.probe && c.tabId == d.tabId && c.documentId == d.documentId
  }

  /** A grant is asked for only by the step that marks its delivery as asked. */
  ghost predicate RedeemStep(s: State, r: Reaction) {
    var t, said := r.state, r.said;
    && |s.deliveries| <= |t.deliveries|
    && (said.Some? && said.value.FillRequest? ==>
          var d := said.value.delivery;
          && d < |s.deliveries| && !s.deliveries[d].asked && t.deliveries[d].asked
          && said.value.grant == s.deliveries[d].grant
          && IsDeliveryTarget(s.deliveries[d], said.value.sender))
    && forall d: nat | d < |t.deliveries| ::
         if d < |s.deliveries|
         then SameDelivery(s.deliveries[d], t.deliveries[d]) && (s.deliveries[d].asked ==> t.deliveries[d].asked)
         else !t.deliveries[d].asked
  }

  lemma DeliverRedeems(s: State, id: Id, grant: Id, now: int)
    requires s.Refs()
    ensures RedeemStep(s, Deliver(s, id, grant, now))
  {
    DeliverShape(s, id, grant, now);
    var t := Deliver(s, id, grant, now).state;
    assert s.deliveries <= t.deliveries;
  }

  lemma StepRedeems(s: State, e: Event)
    requires s.Refs() && Enabled(s, e)
    ensures RedeemStep(s, Step(s, e))
  {
    if e.PushDeliver? {
      DeliverRedeems(s, e.id, e.grant, e.now);
    } else if IsProbeEvent(e) {
      StepFrame(s, e);
    } else {
      DeliveryEventRedeems(s, e);
    }
  }

  lemma DeliveryEventRedeems(s: State, e: Event)
    requires s.Refs() && Enabled(s, e) && !IsProbeEvent(e) && !e.PushDeliver?
    ensures RedeemStep(s, Step(s, e))
  {
    match e {
      case DeliverReply(d, ok) => DeliverAnsweredRedeems(s, d, ok);
      case TabClosed(tab) =>
      case RedeemMessage(sender, grant, visible, found) => RedeemArrivedRedeems(s, sender, grant, visible, found);
      case OutcomeMessage(sender, grant, claimed, failure) => OutcomeArrivedRedeems(s, sender, grant, claimed, failure);
    }
  }

  lemma DeliverAnsweredRedeems(s: State, d: nat, ok: bool)
    requires s.Refs() && d < |s.deliveries| && s.deliveries[d].waiting
    ensures RedeemStep(s, DeliverAnswered(s, d, ok))
  {
  }

  lemma RedeemArrivedRedeems(s: State, sender: Sender, grant: Id, visible: bool, found: Found)
    requires s.Refs() && sender.tab.Some?
    ensures RedeemStep(s, RedeemArrived(s, sender, grant, visible, found))
  {
  }

  lemma OutcomeArrivedRedeems(s: State, sender: Sender, grant: Id, claimed: set<Field>, failure: Option<Failure>)
    requires s.Refs() && sender.tab.Some?
    ensures RedeemStep(s, OutcomeArrived(s, sender, grant, claimed, failure))
  {
  }

  /** What the delivery has counted; one that a step is yet to make has counted nothing. */
  function Outcomes(s: State, d: nat): nat {
    if d < |s.deliveries| then s.deliveries[d].outcomes else 0
  }

  function Wrote(s: State, d: nat): Option<Field> {
    if d < |s.deliveries| then s.deliveries[d].wrotePassword else None
  }

  /** An outcome is told exactly by the step that counts it. */
  ghost predicate OutcomeStep(s: State, r: Reaction) {
    var t, said := r.state, r.said;
    && |s.deliveries| <= |t.deliveries|
    && (said.Some? && said.value.FillOutcome? ==>
          var d, m := said.value.delivery, said.value;
          && d < |t.deliveries| && m.grant == t.deliveries[d].grant
          && (Outcomes(s, d) == 0 ==> m.failure != Some(Unmasked) && Wrote(t, d) == PasswordIn(m.written))
          && (Outcomes(s, d) > 0 ==>
                && Outcomes(s, d) == 1 && m.failure == Some(Unmasked)
                && Wrote(s, d).Some? && m.written == {Wrote(s, d).value} && Wrote(t, d) == Wrote(s, d)))
    && forall d: nat | d < |t.deliveries| ::
         var told := said.Some? && said.value.FillOutcome? && said.value.delivery == d;
         Outcomes(t, d) == Outcomes(s, d) + (if told then 1 else 0) && (!told ==> Wrote(t, d) == Wrote(s, d))
  }

  lemma StepTellsOutcomes(s: State, e: Event)
    requires s.Refs() && Enabled(s, e)
    requires forall d: nat :: Outcomes(s, d) == 0 ==> Wrote(s, d).None?
    ensures OutcomeStep(s, Step(s, e))
  {
    StepFrame(s, e);
    if e.PushDeliver? {
      DeliverShape(s, e.id, e.grant, e.now);
    } else if !IsProbeEvent(e) {
      DeliveryEventTellsOutcomes(s, e);
    }
  }

  lemma DeliveryEventTellsOutcomes(s: State, e: Event)
    requires s.Refs() && Enabled(s, e) && !IsProbeEvent(e) && !e.PushDeliver?
    requires forall d: nat :: Outcomes(s, d) == 0 ==> Wrote(s, d).None?
    ensures OutcomeStep(s, Step(s, e))
  {
    match e {
      case DeliverReply(d, ok) => DeliverAnsweredTells(s, d, ok);
      case TabClosed(tab) =>
      case RedeemMessage(sender, grant, visible, found) => RedeemArrivedTells(s, sender, grant, visible, found);
      case OutcomeMessage(sender, grant, claimed, failure) => OutcomeArrivedTells(s, sender, grant, claimed, failure);
    }
  }

  lemma DeliverAnsweredTells(s: State, d: nat, ok: bool)
    requires s.Refs() && d < |s.deliveries| && s.deliveries[d].waiting
    requires forall d: nat :: Outcomes(s, d) == 0 ==> Wrote(s, d).None?
    ensures OutcomeStep(s, DeliverAnswered(s, d, ok))
  {
  }

  lemma RedeemArrivedTells(s: State, sender: Sender, grant: Id, visible: bool, found: Found)
    requires s.Refs() && sender.tab.Some?
    ensures OutcomeStep(s, RedeemArrived(s, sender, grant, visible, found))
  {
  }

  lemma OutcomeArrivedTells(s: State, sender: Sender, grant: Id, claimed: set<Field>, failure: Option<Failure>)
    requires s.Refs() && sender.tab.Some?
    requires forall d: nat :: Outcomes(s, d) == 0 ==> Wrote(s, d).None?
    ensures OutcomeStep(s, OutcomeArrived(s, sender, grant, claimed, failure))
  {
  }

  /** What a step other than a `deliver` push may do to the records a spent probe is seen by. */
  ghost predicate SpendingFrame(s: State, t: State) {
    && |s.probes| <= |t.probes| && |t.deliveries| == |s.deliveries|
    && (forall d: nat | d < |s.deliveries| :: SameDelivery(s.deliveries[d], t.deliveries[d]))
    && (forall id | id in t.probeOf ::
          (id in s.probeOf && t.probeOf[id] == s.probeOf[id]) || (|s.probes| <= t.probeOf[id] < |t.probes|))
    && (forall p: nat | p < |t.probes| :: t.probes[p].tabId.Some? ==> t.probes[p].stage != Choosing)
    && forall p: nat | p < |s.probes| ::
         && (s.probes[p].stage != Choosing ==> t.probes[p].stage != Choosing && t.probes[p].tabId == s.probes[p].tabId)
         && (t.probes[p].documentId != s.probes[p].documentId ==> exists id :: id in s.probeOf && s.probeOf[id] == p)
  }

  lemma StepSpendingFrame(s: State, e: Event)
    requires s.Refs() && Enabled(s, e) && !e.PushDeliver?
    requires forall p: nat | p < |s.probes| :: s.probes[p].tabId.Some? ==> s.probes[p].stage != Choosing
    ensures SpendingFrame(s, Step(s, e).state)
  {
    StepFrame(s, e);
    if e.ReportMessage? {
      ReportSpendingFrame(s, e);
    } else if e.PushLocate? {
      PushSpendingFrame(s, e.id, e.now);
    } else if IsProbeEvent(e) {
      LocateSpendingFrame(s, e);
    } else {
      StepRedeems(s, e);
      DeliveryEventOnlyDrops(s, e);
    }
  }

  lemma PushSpendingFrame(s: State, id: Id, now: int)
    requires s.Refs()
    requires forall p: nat | p < |s.probes| :: s.probes[p].tabId.Some? ==> s.probes[p].stage != Choosing
    ensures SpendingFrame(s, Locate(s, id, now).state)
  {
  }

  lemma LocateSpendingFrame(s: State, e: Event)
    requires s.Refs() && Enabled(s, e) && (e.TabFound? || e.LocateReply?)
    requires forall p: nat | p < |s.probes| :: s.probes[p].tabId.Some? ==> s.probes[p].stage != Choosing
    ensures SpendingFrame(s, Step(s, e).state)
  {
    var t := Step(s, e).state;
    assert t.probeOf == s.probeOf && t.deliveries == s.deliveries;
    assert forall p: nat | p < |s.probes| && p != e.p :: t.probes[p] == s.probes[p];
  }

  lemma ReportSpendingFrame(s: State, e: Event)
    requires s.Refs() && Enabled(s, e) && e.ReportMessage?
    requires forall p: nat | p < |s.probes| :: s.probes[p].tabId.Some? ==> s.probes[p].stage != Choosing
    ensures SpendingFrame(s, Step(s, e).state)
  {
    if ReportTaken(s, e.sender, e.id, e.now) {
      var t, p := Step(s, e).state, s.probeOf[e.id];
      assert t.probeOf == s.probeOf && t.deliveries == s.deliveries && |t.probes| == |s.probes|;
      assert t.probes[p].tabId == s.probes[p].tabId && t.probes[p].stage == s.probes[p].stage;
      assert forall q: nat | q < |s.probes| && q != p :: t.probes[q] == s.probes[q];
    }
  }

  /** Entries are at most dropped from the maps, and no delivery is made. */
  ghost predicate OnlyDrops(s: State, t: State) {
    && |t.deliveries| == |s.deliveries|
    && (forall id | id in t.probeOf :: id in s.probeOf && t.probeOf[id] == s.probeOf[id])
    && forall id | id in t.deliveryOf :: id in s.deliveryOf && t.deliveryOf[id] == s.deliveryOf[id]
  }

  lemma ForgettingOnlyDrops(s: State, tab: TabId)
    requires s.Refs()
    ensures OnlyDrops(s, TabForgotten(s, tab))
  {
  }

  lemma AnsweringOnlyDrops(s: State, d: nat, ok: bool)
    requires s.Refs() && d < |s.deliveries|
    ensures OnlyDrops(s, DeliverAnswered(s, d, ok).state)
  {
  }

  lemma RedeemingOnlyDrops(s: State, sender: Sender, grant: Id, visible: bool, found: Found)
    requires s.Refs() && sender.tab.Some?
    ensures OnlyDrops(s, RedeemArrived(s, sender, grant, visible, found).state)
  {
  }

  lemma ReportingOnlyDrops(s: State, sender: Sender, grant: Id, claimed: set<Field>, failure: Option<Failure>)
    requires s.Refs() && sender.tab.Some?
    ensures OnlyDrops(s, OutcomeArrived(s, sender, grant, claimed, failure).state)
  {
  }

  lemma DeliveryEventOnlyDrops(s: State, e: Event)
    requires s.Refs() && Enabled(s, e) && !IsProbeEvent(e) && !e.PushDeliver?
    ensures OnlyDrops(s, Step(s, e).state)
  {
    match e {
      case DeliverReply(d, ok) => AnsweringOnlyDrops(s, d, ok);
      case TabClosed(tab) => ForgettingOnlyDrops(s, tab);
      case RedeemMessage(sender, grant, visible, found) => RedeemingOnlyDrops(s, sender, grant, visible, found);
      case OutcomeMessage(sender, grant, claimed, failure) => ReportingOnlyDrops(s, sender, grant, claimed, failure);
    }
  }

  lemma StepKeepsSpending(s: State, e: Event)
    requires s.Refs() && ProbesSpentOnce(s) && Enabled(s, e)
    ensures ProbesSpentOnce(Step(s, e).state)
  {
    if e.PushDeliver? {
      DeliverKeepsSpending(s, e.id, e.grant, e.now);
    } else {
      StepSpendingFrame(s, e);
      FrameKeepsSpending(s, Step(s, e).state);
    }
  }

  lemma FrameKeepsSpending(s: State, t: State)
    requires ProbesSpentOnce(s) && SpendingFrame(s, t)
    ensures ProbesSpentOnce(t)
  {
    forall d: nat | d < |t.deliveries|
      ensures SpendsProbe(t, d)
    {
      assert SpendsProbe(s, d) && SameDelivery(s.deliveries[d], t.deliveries[d]);
    }
    forall c: nat, d: nat | c < d < |t.deliveries| && t.deliveries[c].probe.Some?
      ensures t.deliveries[c].probe != t.deliveries[d].probe
    {
      assert SameDelivery(s.deliveries[c], t.deliveries[c]) && SameDelivery(s.deliveries[d], t.deliveries[d]);
    }
  }

  lemma OldDeliverySpends(s: State, t: State, d: nat)
    requires d < |s.deliveries| && SpendsProbe(s, d) && NamesKept(s, t) && t.probes == s.probes
    requires d < |t.deliveries| && t.deliveries[d] == s.deliveries[d]
    ensures SpendsProbe(t, d)
  {
  }

  lemma OldDeliveriesSpend(s: State, t: State)
    requires ProbesSpentOnce(s) && NamesKept(s, t) && t.probes == s.probes && s.deliveries <= t.deliveries
    ensures forall d: nat | d < |s.deliveries| :: SpendsProbe(t, d) && t.deliveries[d] == s.deliveries[d]
  {
    forall d: nat | d < |s.deliveries|
      ensures SpendsProbe(t, d)
    {
      OldDeliverySpends(s, t, d);
    }
  }

  /** A new delivery spends its probe: nothing names that any more, and no other delivery has spent it. */
  lemma NewDeliverySpends(s: State, t: State, id: Id, grant: Id, said: Option<Sent>)
    requires s.Refs() && ProbesSpentOnce(s) && NamesKept(s, t) && t.probes == s.probes && id !in t.probeOf
    requires |t.deliveries| == |s.deliveries| + 1
    requires IsNewDelivery(s, id, grant, t.deliveries[|s.deliveries|], said)
    ensures SpendsProbe(t, |s.deliveries|)
    ensures forall c: nat | c < |s.deliveries| && s.deliveries[c].probe.Some? ::
              s.deliveries[c].probe != t.deliveries[|s.deliveries|].probe
  {
    var probe := t.deliveries[|s.deliveries|].probe;
    if probe.Some? {
      assert forall k | k in t.probeOf && t.probeOf[k] == probe.value :: s.probes[s.probeOf[k]].id == id;
      forall c: nat | c < |s.deliveries| && s.deliveries[c].probe.Some?
        ensures s.deliveries[c].probe != probe
      {
        assert SpendsProbe(s, c);
      }
    }
  }

  lemma DeliverKeepsSpending(s: State, id: Id, grant: Id, now: int)
    requires s.Refs() && ProbesSpentOnce(s)
    ensures ProbesSpentOnce(Deliver(s, id, grant, now).state)
  {
    DeliverShape(s, id, grant, now);
    var r, n := Deliver(s, id, grant, now), |s.deliveries|;
    var t := r.state;
    if t.deliveries != s.deliveries {
      NewDeliverySpends(s, t, id, grant, r.said);
    }
    OldDeliveriesSpend(s, t);
  }

  // ---- The invariant is kept ----

  lemma KeepsReports(w: World, e: Event)
    requires Inv(w) && Enabled(w.state, e)
    ensures ReportsOnce(Next(w, e).state, Next(w, e).log)
  {
    StepReports(w.state, e);
    var said := Step(w.state, e).said;
    if said.Some? {
      Appended(w.log, said.value);
    }
  }

  lemma KeepsRedeeming(w: World, e: Event)
    requires Inv(w) && Enabled(w.state, e)
    ensures RedeemedOnce(Next(w, e).state, Next(w, e).log)
  {
    StepRedeems(w.state, e);
    var said := Step(w.state, e).said;
    if said.Some? {
      Appended(w.log, said.value);
    }
  }

  lemma KeepsOutcomes(w: World, e: Event)
    requires Inv(w) && Enabled(w.state, e)
    ensures OutcomesCounted(Next(w, e).state, Next(w, e).log)
  {
    var s, r := w.state, Step(w.state, e);
    forall d: nat
      ensures Outcomes(s, d) == 0 ==> Wrote(s, d).None?
    {
      assert OutcomesCountedFor(s, w.log, d);
    }
    StepTellsOutcomes(s, e);
    forall d: nat
      ensures OutcomesCountedFor(r.state, Next(w, e).log, d)
    {
      assert OutcomesCountedFor(s, w.log, d);
      OutcomeCounted(s, r, w.log, d);
    }
  }

  lemma OutcomeCounted(s: State, r: Reaction, log: seq<Sent>, d: nat)
    requires OutcomeStep(s, r) && OutcomesCountedFor(s, log, d)
    ensures OutcomesCountedFor(r.state, if r.said.Some? then log + [r.said.value] else log, d)
  {
    var before := OutcomesOf(log, d);
    assert |before| == Outcomes(s, d);
    assert Wrote(s, d) == if before == [] then None else PasswordIn(before[0].written);
    if d < |r.state.deliveries| {
      assert Outcomes(r.state, d) == r.state.deliveries[d].outcomes;
      assert Wrote(r.state, d) == r.state.deliveries[d].wrotePassword;
    }
    if r.said.Some? {
      var m := r.said.value;
      Appended(log, m);
      if m.FillOutcome? && m.delivery == d {
        assert OutcomesOf(log + [m], d) == before + [m];
      }
    }
  }

  lemma KeepsInv(w: World, e: Event)
    requires Inv(w) && Enabled(w.state, e)
    ensures Inv(Next(w, e))
  {
    StepKeepsSpending(w.state, e);
    KeepsReports(w, e);
    KeepsRedeeming(w, e);
    KeepsOutcomes(w, e);
  }

  lemma {:induction false} RunKeepsInv(worlds: seq<World>, events: seq<Event>, i: nat)
    requires Run(worlds, events) && i < |worlds|
    ensures Inv(worlds[i])
  {
    if i > 0 {
      RunKeepsInv(worlds, events, i - 1);
      assert Leads(worlds[i - 1], events[i - 1], worlds[i]);
      KeepsInv(worlds[i - 1], events[i - 1]);
    }
  }

  // ---- What the app can rely on, in any run ----

  lemma {:induction false} RequestIsOf(log: seq<Sent>, i: nat, j: nat, d: nat)
    requires i <= j < |log|
    requires log[i].FillRequest? && log[i].delivery == d && log[j].FillRequest? && log[j].delivery == d
    ensures log[j] in RequestsOf(log, d) && (i < j ==> |RequestsOf(log, d)| >= 2)
    decreases |log|
  {
    var n := |log| - 1;
    var rest := log[..n];
    if j < n {
      RequestIsOf(rest, i, j, d);
    } else if i < j {
      RequestIsOf(rest, i, i, d);
    }
  }

  /**
   * Every `agent_fill` the app is sent spends a probe of its own, made by an accepted `locate`, and
   * no delivery is redeemed twice. It comes from frame 0 of that probe's tab, and from the document
   * that was stamped on the probe's report, if one was.
   */
  lemma FillsSpendProbes(worlds: seq<World>, events: seq<Event>, n: nat, i: nat)
    requires Run(worlds, events) && n < |worlds| && i < |worlds[n].log| && worlds[n].log[i].FillRequest?
    ensures var s, log := worlds[n].state, worlds[n].log;
            && log[i].delivery < |s.deliveries|
            && var delivery := s.deliveries[log[i].delivery];
            && log[i].grant == delivery.grant
            && delivery.probe.Some? && delivery.probe.value < |s.probes|
            && var probe := s.probes[delivery.probe.value];
            && var sender := log[i].sender;
            && sender.frameId == 0 && sender.tab.Some? && sender.tab == probe.tabId
            && (probe.documentId.Some? ==> sender.documentId == probe.documentId)
            && forall j | 0 <= j < |log| && j != i && log[j].FillRequest? ::
                 && log[j].delivery != log[i].delivery && log[j].delivery < |s.deliveries|
                 && s.deliveries[log[j].delivery].probe != delivery.probe
  {
    var s, log := worlds[n].state, worlds[n].log;
    RunKeepsInv(worlds, events, n);
    forall j | 0 <= j < |log| && log[j].FillRequest?
      ensures log[j].delivery < |s.deliveries|
      ensures RequestsOf(log, log[j].delivery) == [log[j]] && SpendsProbe(s, log[j].delivery)
      ensures log[j].grant == s.deliveries[log[j].delivery].grant
      ensures IsDeliveryTarget(s.deliveries[log[j].delivery], log[j].sender)
      ensures s.deliveries[log[j].delivery].probe.Some?
      ensures j != i ==> log[j].delivery != log[i].delivery
    {
      RequestIsOf(log, j, j, log[j].delivery);
      assert SpendsProbe(s, log[j].delivery);
      if j < i && log[j].delivery == log[i].delivery {
        RequestIsOf(log, j, i, log[j].delivery);
      } else if i < j && log[j].delivery == log[i].delivery {
        RequestIsOf(log, i, j, log[j].delivery);
      }
    }
  }

  /** A `locate` sends at most one report, and marks its probe exactly when it has. */
  lemma ReportsAtMostOnce(worlds: seq<World>, events: seq<Event>, n: nat, p: nat)
    requires Run(worlds, events) && n < |worlds| && p < |worlds[n].state.probes|
    ensures |ReportsOf(worlds[n].log, p)| == if worlds[n].state.probes[p].reported then 1 else 0
  {
    RunKeepsInv(worlds, events, n);
  }

  /**
   * Per delivery the app hears at most two outcomes. A second one is the tripwire's, and names
   * exactly the password the first one named; so it never follows the worker's own fallback, which
   * names nothing.
   */
  lemma OutcomesAtMostTwo(worlds: seq<World>, events: seq<Event>, n: nat, d: nat)
    requires Run(worlds, events) && n < |worlds|
    ensures OutcomeHistory(OutcomesOf(worlds[n].log, d))
  {
    RunKeepsInv(worlds, events, n);
    assert OutcomesCountedFor(worlds[n].state, worlds[n].log, d);
  }
}
