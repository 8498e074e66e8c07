/**
 * The service worker's half of the agent-fill protocol (background.js): which probe was answered
 * from which tab and document, which grant was delivered where, and what the app is told.
 *
 * A handler runs to its next `await` without interruption, so each such slice is one step, and the
 * steps of any number of handlers, tab closings and messages interleave freely. The handlers keep
 * references to the records they made, which stay theirs after the maps have dropped them; a
 * reference is an index into all records made so far.
 */
module AgentFill {
  import opened Basics

  type Id = string
  type TabId = int

  const REPORT_WINDOW_MS := 5_000
  const PROBE_TTL_MS := 90_000
  const DELIVERY_TTL_MS := 60_000

  datatype Field = Username | Password | OneTimeCode | NewPassword

  datatype Failure = FormChanged | NotWritable | NotVisible | WriteRejected | Unmasked

  datatype Found = Found(username: bool, password: bool, oneTimeCode: bool, signUp: bool, signUpUsername: bool)

  /** What the browser stamps on a message; `origin` is the sender's, when it is a usable one. */
  datatype Sender = Sender(tab: Option<TabId>, frameId: int, documentId: Option<string>, active: bool,
                           origin: Option<string>)

  datatype Page = Page(topOrigin: string, frameOrigin: Option<string>, established: bool)

  datatype TabFacts = TabFacts(tab: TabId, documentId: Option<string>, active: bool, visible: bool)

  datatype Report = Report(page: Page, tab: TabFacts, found: Found)

  /** What the app is told, and for which probe or delivery. A report of nothing is the empty one. */
  datatype Sent =
    | TargetReport(probe: nat, id: Id, report: Option<Report>)
    | FillRequest(delivery: nat, grant: Id, sender: Sender, target: Report)
    | FillOutcome(delivery: nat, grant: Id, written: set<Field>, failure: Option<Failure>)

  /** How far the `locate` that made a probe has come: choosing a tab, waiting for its answer, or done. */
  datatype LocateStage = Choosing | Asked | Finished

  datatype Probe = Probe(id: Id, tabId: Option<TabId>, at: int, reported: bool, documentId: Option<string>,
                         stage: LocateStage)

  /** `probe` is the one the delivery's push named, if it was held; `waiting` that its tab has yet to answer. */
  datatype Delivery = Delivery(grant: Id, probe: Option<nat>, tabId: Option<TabId>, documentId: Option<string>,
                               at: int, asked: bool, outcomes: nat, wrotePassword: Option<Field>, waiting: bool)

  datatype State = State(probes: seq<Probe>, probeOf: map<Id, nat>,
                         deliveries: seq<Delivery>, deliveryOf: map<Id, nat>)
  {
    /** The maps refer to records that were made under the same id. */
    ghost predicate Refs() {
      && (forall id | id in probeOf :: probeOf[id] < |probes| && probes[probeOf[id]].id == id)
      && (forall id | id in deliveryOf :: deliveryOf[id] < |deliveries| && deliveries[deliveryOf[id]].grant == id)
    }
  }

  /** Where a step leads, and what it tells the app, if anything. */
  datatype Reaction = Reaction(state: State, said: Option<Sent>)

  const EMPTY: State := State([], map[], [], map[])

  predicate IsOpaqueId(id: Id) {
    0 < |id| <= 128
  }

  // ---- What the browser established ----

  function TrustedPage(sender: Sender): Option<Page> {
    match sender.origin
    case None => None
    case Some(origin) =>
      if sender.frameId == 0 then Some(Page(origin, None, true)) else Some(Page(origin, Some(origin), false))
  }

  function StampedTab(sender: Sender, visible: bool): TabFacts
    requires sender.tab.Some?
  {
    TabFacts(sender.tab.value, sender.documentId, sender.active, visible)
  }

  /** Whether `sender` is frame 0 of the tab and document a grant was delivered to. */
  predicate IsDeliveryTarget(d: Delivery, sender: Sender) {
    && sender.frameId == 0
    && sender.tab.Some? && sender.tab == d.tabId
    && (d.documentId.None? || sender.documentId == d.documentId)
  }

  /** The password a first outcome named, which is all a tripwire can be about. */
  function PasswordIn(written: set<Field>): Option<Field> {
    if Password in written then Some(Password) else if NewPassword in written then Some(NewPassword) else None
  }

  // ---- The steps ----

  function Pruned(s: State, now: int): (r: State)
    requires s.Refs()
    ensures r.Refs()
  {
    s.(probeOf := map id | id in s.probeOf && now - s.probes[s.probeOf[id]].at <= PROBE_TTL_MS :: s.probeOf[id],
       deliveryOf := map id | id in s.deliveryOf && now - s.deliveries[s.deliveryOf[id]].at <= DELIVERY_TTL_MS
                     :: s.deliveryOf[id])
  }

  function TabForgotten(s: State, tab: TabId): (r: State)
    requires s.Refs()
    ensures r.Refs()
  {
    s.(probeOf := map id | id in s.probeOf && s.probes[s.probeOf[id]].tabId != Some(tab) :: s.probeOf[id],
       deliveryOf := map id | id in s.deliveryOf && s.deliveries[s.deliveryOf[id]].tabId != Some(tab)
                     :: s.deliveryOf[id])
  }

  function SetProbe(s: State, p: nat, probe: Probe): (r: State)
    requires s.Refs() && p < |s.probes| && probe.id == s.probes[p].id
    ensures r.Refs()
  {
    s.(probes := s.probes[p := probe])
  }

  function SetDelivery(s: State, d: nat, delivery: Delivery): (r: State)
    requires s.Refs() && d < |s.deliveries| && delivery.grant == s.deliveries[d].grant
    ensures r.Refs()
  {
    s.(deliveries := s.deliveries[d := delivery])
  }

  function Silent(s: State): Reaction {
    Reaction(s, None)
  }

  /** A `locate` push, up to the choice of a tab. */
  function Locate(s: State, id: Id, now: int): (r: Reaction)
    requires s.Refs()
    ensures r.state.Refs()
  {
    if !IsOpaqueId(id) then Silent(s)
    else
      var t := Pruned(s, now);
      if id in t.probeOf then Silent(t)
      else Silent(t.(probes := t.probes + [Probe(id, None, now, false, None, Choosing)],
                     probeOf := t.probeOf[id := |t.probes|]))
  }

  /** The end of a `locate` that nobody answered. */
  function LocateUnanswered(s: State, p: nat): (r: Reaction)
    requires s.Refs() && p < |s.probes|
    ensures r.state.Refs()
  {
    var probe := s.probes[p];
    Reaction(SetProbe(s, p, probe.(reported := true, stage := Finished)),
             if probe.reported then None else Some(TargetReport(p, probe.id, None)))
  }

  function TabChosen(s: State, p: nat, tab: Option<TabId>): (r: Reaction)
    requires s.Refs() && p < |s.probes|
    ensures r.state.Refs()
  {
    if tab.Some? && tab.value >= 0
    then Silent(SetProbe(s, p, s.probes[p].(tabId := tab, stage := Asked)))
    else LocateUnanswered(s, p)
  }

  function LocateAnswered(s: State, p: nat, ok: bool): (r: Reaction)
    requires s.Refs() && p < |s.probes|
    ensures r.state.Refs()
  {
    if ok then Silent(SetProbe(s, p, s.probes[p].(stage := Finished))) else LocateUnanswered(s, p)
  }

  /** A `deliver` push, up to the tab's answer if a tab is asked, and to the end if none is. */
  function Deliver(s: State, id: Id, grant: Id, now: int): (r: Reaction)
    requires s.Refs()
    ensures r.state.Refs()
  {
    if !IsOpaqueId(id) || !IsOpaqueId(grant) then Silent(s)
    else
      var t := Pruned(s, now);
      if grant in t.deliveryOf then Silent(t) else DeliverNew(t, id, grant, now)
  }

  /** The record of a new delivery: it spends the probe, if that is held, and waits if there is a tab to ask. */
  function NewDelivery(s: State, id: Id, grant: Id, now: int): Delivery
    requires s.Refs()
  {
    if id !in s.probeOf then Delivery(grant, None, None, None, now, false, 0, None, false)
    else
      var probe := s.probes[s.probeOf[id]];
      Delivery(grant, Some(s.probeOf[id]), probe.tabId, probe.documentId, now, false, 0, None,
               probe.reported && probe.tabId.Some?)
  }

  function Started(s: State, id: Id, grant: Id, now: int): (r: State)
    requires s.Refs() && grant !in s.deliveryOf
    ensures r.Refs()
  {
    s.(probeOf := s.probeOf - {id}, deliveries := s.deliveries + [NewDelivery(s, id, grant, now)],
       deliveryOf := s.deliveryOf[grant := |s.deliveries|])
  }

  /** A `deliver` of a grant that is not held. */
  function DeliverNew(s: State, id: Id, grant: Id, now: int): (r: Reaction)
    requires s.Refs() && grant !in s.deliveryOf
    ensures r.state.Refs()
  {
    if NewDelivery(s, id, grant, now).waiting then Silent(Started(s, id, grant, now))
    else DeliverUnanswered(Started(s, id, grant, now), |s.deliveries|)
  }

  /** The end of a `deliver` that nobody took up. */
  function DeliverUnanswered(s: State, d: nat): (r: Reaction)
    requires s.Refs() && d < |s.deliveries|
    ensures r.state.Refs()
  {
    var delivery := s.deliveries[d].(waiting := false);
    if delivery.asked || delivery.outcomes > 0 then Silent(SetDelivery(s, d, delivery))
    else Reaction(SetDelivery(s, d, delivery.(outcomes := 1)),
                  Some(FillOutcome(d, delivery.grant, {}, Some(FormChanged))))
  }

  function DeliverAnswered(s: State, d: nat, ok: bool): (r: Reaction)
    requires s.Refs() && d < |s.deliveries|
    ensures r.state.Refs()
  {
    if ok then Silent(SetDelivery(s, d, s.deliveries[d].(waiting := false))) else DeliverUnanswered(s, d)
  }

  /** A report is taken from the top frame of the tab that was asked, once, in time. */
  predicate ReportTaken(s: State, sender: Sender, id: Id, now: int)
    requires s.Refs()
  {
    && id in s.probeOf
    && var probe := s.probes[s.probeOf[id]];
    && now - probe.at <= REPORT_WINDOW_MS
    && !probe.reported
    && probe.tabId.Some? && sender.tab == probe.tabId && sender.frameId == 0
  }

  function ReportArrived(s: State, sender: Sender, id: Id, visible: bool, found: Found, now: int): (r: Reaction)
    requires s.Refs()
    ensures r.state.Refs()
  {
    if !ReportTaken(s, sender, id, now) then Silent(s)
    else
      var p := s.probeOf[id];
      var probe := s.probes[p].(reported := true);
      match TrustedPage(sender)
      case None => Reaction(SetProbe(s, p, probe), Some(TargetReport(p, id, None)))
      case Some(page) =>
        Reaction(SetProbe(s, p, probe.(documentId := sender.documentId)),
                 Some(TargetReport(p, id, Some(Report(page, StampedTab(sender, visible), found)))))
  }

  /** A grant is redeemed once, by the document it was delivered to. */
  predicate RedeemTaken(s: State, sender: Sender, grant: Id)
    requires s.Refs()
  {
    && grant in s.deliveryOf
    && var d := s.deliveries[s.deliveryOf[grant]];
    && !d.asked && IsDeliveryTarget(d, sender)
  }

  function RedeemArrived(s: State, sender: Sender, grant: Id, visible: bool, found: Found): (r: Reaction)
    requires s.Refs()
    ensures r.state.Refs()
  {
    if !RedeemTaken(s, sender, grant) then Silent(s)
    else
      var d := s.deliveryOf[grant];
      var t := SetDelivery(s, d, s.deliveries[d].(asked := true));
      match TrustedPage(sender)
      case None => Silent(t)
      case Some(page) =>
        Reaction(t, Some(FillRequest(d, grant, sender, Report(page, StampedTab(sender, visible), found))))
  }

  /** A first outcome is any but a tripwire's; a second is only a tripwire's, after a password write. */
  predicate OutcomeTaken(s: State, sender: Sender, grant: Id, failure: Option<Failure>)
    requires s.Refs()
  {
    && grant in s.deliveryOf
    && var d := s.deliveries[s.deliveryOf[grant]];
    && IsDeliveryTarget(d, sender)
    && ((d.outcomes == 0 && failure != Some(Unmasked))
        || (d.outcomes == 1 && d.wrotePassword.Some? && failure == Some(Unmasked)))
  }

  function OutcomeArrived(s: State, sender: Sender, grant: Id, claimed: set<Field>, failure: Option<Failure>)
    : (r: Reaction)
    requires s.Refs()
    ensures r.state.Refs()
  {
    if !OutcomeTaken(s, sender, grant, failure) then Silent(s)
    else
      var d := s.deliveryOf[grant];
      var delivery := s.deliveries[d];
      var tripwire := failure == Some(Unmasked);
      var written := if tripwire then {delivery.wrotePassword.value} else claimed;
      var delivery' := delivery.(outcomes := delivery.outcomes + 1,
                                 wrotePassword := if tripwire then delivery.wrotePassword else PasswordIn(written));
      Reaction(SetDelivery(s, d, delivery'), Some(FillOutcome(d, grant, written, failure)))
  }
}
