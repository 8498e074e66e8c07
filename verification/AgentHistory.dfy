/**
 * What the worker's records say in terms of what happened (background.js:590-860): which events drop
 * a record, which change it, what each tells the app, and the story behind every fill.
 */
module AgentHistory {
  import opened Basics
  import opened AgentFill
  import opened AgentRuns

  // ---- Which events drop a record ----

  predicate IsUsable(id: Id) {
    1 <= |id| <= 128
  }

  /** A push with usable ids first drops what is overdue by its time. */
  function CleansAt(e: Event): Option<int> {
    match e
    case PushLocate(id, now) => if IsUsable(id) then Some(now) else None
    case PushDeliver(id, grant, now) => if IsUsable(id) && IsUsable(grant) then Some(now) else None
    case _ => None
  }

  /** The event drops a record of this tab, made at this time: the tab closes, or the record is overdue. */
  predicate Drops(e: Event, tab: Option<TabId>, at: int, ttl: int) {
    (e.TabClosed? && tab == Some(e.closed)) || (CleansAt(e).Some? && CleansAt(e).value - at > ttl)
  }

  /** The push makes a delivery: its ids are usable, and no delivery of that grant is held and not overdue. */
  ghost predicate Delivers(s: State, e: Event)
    requires s.Refs()
  {
    && e.PushDeliver? && IsUsable(e.id) && IsUsable(e.grant)
    && forall d: nat | d < |s.deliveries| && Held(s, d) && s.deliveries[d].grant == e.grant ::
         e.now - s.deliveries[d].at > 60_000
  }

  /** The push makes a probe: its id is usable, and no probe of that id is named and not overdue. */
  ghost predicate Locates(s: State, e: Event)
    requires s.Refs()
  {
    && e.PushLocate? && IsUsable(e.id)
    && forall p: nat | p < |s.probes| && Named(s, p) && s.probes[p].id == e.id :: e.now - s.probes[p].at > 90_000
  }

  lemma NamedUnderItsId(s: State, p: nat)
    requires s.Refs() && p < |s.probes|
    ensures Named(s, p) <==> s.probes[p].id in s.probeOf && s.probeOf[s.probes[p].id] == p
  {
  }

  lemma PrunedExactly(s: State, now: int)
    requires s.Refs()
    ensures var t := Pruned(s, now);
            && (forall d: nat | d < |s.deliveries| :: Held(t, d) <==> Held(s, d) && now - s.deliveries[d].at <= 60_000)
            && (forall p: nat | p < |s.probes| :: Named(t, p) <==> Named(s, p) && now - s.probes[p].at <= 90_000)
  {
    var t := Pruned(s, now);
    forall d: nat | d < |s.deliveries|
      ensures Held(t, d) <==> Held(s, d) && now - s.deliveries[d].at <= 60_000
    {
      HeldUnderItsGrant(s, d);
      HeldUnderItsGrant(t, d);
    }
    forall p: nat | p < |s.probes|
      ensures Named(t, p) <==> Named(s, p) && now - s.probes[p].at <= 90_000
    {
      NamedUnderItsId(s, p);
      NamedUnderItsId(t, p);
    }
  }

  lemma ForgottenExactly(s: State, tab: TabId)
    requires s.Refs()
    ensures var t := TabForgotten(s, tab);
            && (forall d: nat | d < |s.deliveries| ::
                  Held(t, d) <==> Held(s, d) && s.deliveries[d].tabId != Some(tab))
            && (forall p: nat | p < |s.probes| :: Named(t, p) <==> Named(s, p) && s.probes[p].tabId != Some(tab))
  {
    var t := TabForgotten(s, tab);
    forall d: nat | d < |s.deliveries|
      ensures Held(t, d) <==> Held(s, d) && s.deliveries[d].tabId != Some(tab)
    {
      HeldUnderItsGrant(s, d);
      HeldUnderItsGrant(t, d);
    }
    forall p: nat | p < |s.probes|
      ensures Named(t, p) <==> Named(s, p) && s.probes[p].tabId != Some(tab)
    {
      NamedUnderItsId(s, p);
      NamedUnderItsId(t, p);
    }
  }

  /** The grant is held exactly when some delivery of it is. */
  lemma GrantIsHeld(s: State, grant: Id)
    requires s.Refs()
    ensures grant in s.deliveryOf
        <==> exists d: nat :: d < |s.deliveries| && Held(s, d) && s.deliveries[d].grant == grant
  {
    if grant in s.deliveryOf {
      assert Held(s, s.deliveryOf[grant]);
    }
    if d: nat :| d < |s.deliveries| && Held(s, d) && s.deliveries[d].grant == grant {
      HeldUnderItsGrant(s, d);
    }
  }

  lemma IdIsNamed(s: State, id: Id)
    requires s.Refs()
    ensures id in s.probeOf <==> exists p: nat :: p < |s.probes| && Named(s, p) && s.probes[p].id == id
  {
    if id in s.probeOf {
      assert Named(s, s.probeOf[id]);
    }
    if p: nat :| p < |s.probes| && Named(s, p) && s.probes[p].id == id {
      NamedUnderItsId(s, p);
    }
  }

  // ---- What a `deliver` push does ----

  /** The delivery that a push makes: it spends the probe of its id, if that is named and not overdue. */
  ghost predicate MadeFor(s: State, e: Event, delivery: Delivery)
    requires s.Refs() && e.PushDeliver?
  {
    && delivery.grant == e.grant && delivery.at == e.now && !delivery.asked && delivery.wrotePassword.None?
    && match delivery.probe
       case Some(p) =>
         && p < |s.probes| && Named(s, p) && s.probes[p].id == e.id && e.now - s.probes[p].at <= 90_000
         && delivery.tabId == s.probes[p].tabId && delivery.documentId == s.probes[p].documentId
         && (delivery.waiting <==> s.probes[p].reported && s.probes[p].tabId.Some?)
       case None =>
         && delivery.tabId.None? && delivery.documentId.None? && !delivery.waiting
         && forall p: nat | p < |s.probes| && Named(s, p) && s.probes[p].id == e.id :: e.now - s.probes[p].at > 90_000
  }

  lemma NewDeliveryExactly(s: State, id: Id, grant: Id, now: int)
    requires s.Refs() && grant !in s.deliveryOf
    ensures var r, n := DeliverNew(s, id, grant, now), |s.deliveries|;
            && |r.state.deliveries| == n + 1 && r.state.deliveries[..n] == s.deliveries && r.state.probes == s.probes
            && r.state.deliveries[n]
                 == NewDelivery(s, id, grant, now).(outcomes := if NewDelivery(s, id, grant, now).waiting then 0 else 1)
            && r.state.probeOf == s.probeOf - {id} && r.state.deliveryOf == s.deliveryOf[grant := n]
            && Held(r.state, n)
            && r.said == if NewDelivery(s, id, grant, now).waiting then None
                         else Some(FillOutcome(n, grant, {}, Some(FormChanged)))
  {
    var t, n := Started(s, id, grant, now), |s.deliveries|;
    assert t.deliveries[..n] == s.deliveries && t.deliveries[n] == NewDelivery(s, id, grant, now);
    assert t.deliveryOf[grant] == n && DeliverNew(s, id, grant, now).state.deliveryOf == t.deliveryOf;
  }

  lemma GrantIsFree(s: State, id: Id, grant: Id, now: int)
    requires s.Refs() && IsOpaqueId(id) && IsOpaqueId(grant)
    ensures Delivers(s, PushDeliver(id, grant, now)) <==> grant !in Pruned(s, now).deliveryOf
  {
    PrunedExactly(s, now);
    GrantIsHeld(Pruned(s, now), grant);
  }

  lemma SpentExactly(s: State, id: Id, grant: Id, now: int)
    requires s.Refs()
    ensures MadeFor(s, PushDeliver(id, grant, now), NewDelivery(Pruned(s, now), id, grant, now))
  {
    PrunedExactly(s, now);
    IdIsNamed(Pruned(s, now), id);
    if id in Pruned(s, now).probeOf {
      assert Named(Pruned(s, now), Pruned(s, now).probeOf[id]);
    }
  }

  /** A `deliver` push makes a delivery exactly when it may, and then says at once if there is nobody to ask. */
  lemma DeliversExactly(s: State, e: Event)
    requires s.Refs() && e.PushDeliver?
    ensures var r, n := Step(s, e), |s.deliveries|;
            && r.state.probes == s.probes
            && if !Delivers(s, e) then r.state.deliveries == s.deliveries && r.said.None?
               else
                 && |r.state.deliveries| == n + 1 && r.state.deliveries[..n] == s.deliveries
                 && Held(r.state, n) && MadeFor(s, e, r.state.deliveries[n])
                 && r.state.deliveries[n].outcomes == (if r.state.deliveries[n].waiting then 0 else 1)
                 && r.said == if r.state.deliveries[n].waiting then None
                              else Some(FillOutcome(n, e.grant, {}, Some(FormChanged)))
  {
    if IsOpaqueId(e.id) && IsOpaqueId(e.grant) {
      var t := Pruned(s, e.now);
      GrantIsFree(s, e.id, e.grant, e.now);
      if e.grant !in t.deliveryOf {
        NewDeliveryExactly(t, e.id, e.grant, e.now);
        SpentExactly(s, e.id, e.grant, e.now);
      }
    }
  }

  /** A `locate` push makes a probe exactly when it may. */
  lemma LocatesExactly(s: State, e: Event)
    requires s.Refs() && e.PushLocate?
    ensures var r, n := Step(s, e), |s.probes|;
            && r.state.deliveries == s.deliveries && r.said.None?
            && if !Locates(s, e) then r.state.probes == s.probes
               else r.state.probes == s.probes + [Probe(e.id, None, e.now, false, None, Choosing)] && Named(r.state, n)
  {
    if IsOpaqueId(e.id) {
      PrunedExactly(s, e.now);
      IdIsNamed(Pruned(s, e.now), e.id);
      if e.id !in Pruned(s, e.now).probeOf {
        assert e.id in Step(s, e).state.probeOf && Step(s, e).state.probeOf[e.id] == |s.probes|;
      }
    }
  }

  // ---- What is dropped ----

  lemma LocateHeld(s: State, e: Event, d: nat)
    requires s.Refs() && e.PushLocate? && d < |s.deliveries|
    ensures Held(Step(s, e).state, d)
        <==> Held(s, d) && !Drops(e, s.deliveries[d].tabId, s.deliveries[d].at, 60_000)
  {
    if IsOpaqueId(e.id) {
      PrunedExactly(s, e.now);
      assert Step(s, e).state.deliveryOf == Pruned(s, e.now).deliveryOf;
    }
  }

  lemma LocateNamed(s: State, e: Event, p: nat)
    requires s.Refs() && e.PushLocate? && p < |s.probes|
    ensures Named(Step(s, e).state, p) <==> Named(s, p) && !Drops(e, s.probes[p].tabId, s.probes[p].at, 90_000)
  {
    if IsOpaqueId(e.id) {
      PrunedExactly(s, e.now);
      var u := Pruned(s, e.now);
      if e.id !in u.probeOf {
        AddedKeepsNamed(u, Step(s, e).state, e.id);
      }
    }
  }

  lemma AddedKeepsNamed(s: State, t: State, id: Id)
    requires id !in s.probeOf && t.probeOf == s.probeOf[id := |s.probes|]
    ensures forall p: nat | p < |s.probes| :: Named(t, p) <==> Named(s, p)
  {
    forall p: nat | p < |s.probes| && Named(s, p)
      ensures Named(t, p)
    {
      var k :| k in s.probeOf && s.probeOf[k] == p;
      assert k in t.probeOf && t.probeOf[k] == p;
    }
  }

  lemma AddedKeepsHeld(s: State, t: State, grant: Id)
    requires grant !in s.deliveryOf && t.deliveryOf == s.deliveryOf[grant := |s.deliveries|]
    ensures forall d: nat | d < |s.deliveries| :: Held(t, d) <==> Held(s, d)
  {
    forall d: nat | d < |s.deliveries| && Held(s, d)
      ensures Held(t, d)
    {
      var k :| k in s.deliveryOf && s.deliveryOf[k] == d;
      assert k in t.deliveryOf && t.deliveryOf[k] == d;
    }
  }

  lemma SpendingUnnames(s: State, t: State, id: Id)
    requires s.Refs() && t.probeOf == s.probeOf - {id}
    ensures forall p: nat | p < |s.probes| :: Named(t, p) <==> Named(s, p) && s.probes[p].id != id
  {
    forall p: nat | p < |s.probes|
      ensures Named(t, p) <==> Named(s, p) && s.probes[p].id != id
    {
      NamedUnderItsId(s, p);
      if Named(s, p) && s.probes[p].id != id {
        assert s.probes[p].id in t.probeOf && t.probeOf[s.probes[p].id] == p;
      }
    }
  }

  lemma DeliverHeld(s: State, e: Event, d: nat)
    requires s.Refs() && e.PushDeliver? && d < |s.deliveries|
    ensures Held(Step(s, e).state, d)
        <==> Held(s, d) && !Drops(e, s.deliveries[d].tabId, s.deliveries[d].at, 60_000)
  {
    if IsOpaqueId(e.id) && IsOpaqueId(e.grant) {
      PrunedExactly(s, e.now);
      var u := Pruned(s, e.now);
      if e.grant !in u.deliveryOf {
        NewDeliveryExactly(u, e.id, e.grant, e.now);
        AddedKeepsHeld(u, Step(s, e).state, e.grant);
      }
    }
  }

  lemma DeliverNamed(s: State, e: Event, p: nat)
    requires s.Refs() && e.PushDeliver? && p < |s.probes|
    ensures Named(Step(s, e).state, p)
        <==> Named(s, p) && !Drops(e, s.probes[p].tabId, s.probes[p].at, 90_000)
             && !(Delivers(s, e) && s.probes[p].id == e.id)
  {
    if IsOpaqueId(e.id) && IsOpaqueId(e.grant) {
      PrunedExactly(s, e.now);
      GrantIsFree(s, e.id, e.grant, e.now);
      var u := Pruned(s, e.now);
      if e.grant !in u.deliveryOf {
        NewDeliveryExactly(u, e.id, e.grant, e.now);
        SpendingUnnames(u, Step(s, e).state, e.id);
      }
    }
  }

  ghost predicate SameMaps(s: State, t: State) {
    t.deliveryOf == s.deliveryOf && t.probeOf == s.probeOf
  }

  lemma TabHolds(s: State, p: nat, tab: Option<TabId>)
    requires s.Refs() && p < |s.probes|
    ensures SameMaps(s, TabChosen(s, p, tab).state)
  {
  }

  lemma AnswerHolds(s: State, p: nat, ok: bool)
    requires s.Refs() && p < |s.probes|
    ensures SameMaps(s, LocateAnswered(s, p, ok).state)
  {
  }

  lemma DeliverAnswerHolds(s: State, d: nat, ok: bool)
    requires s.Refs() && d < |s.deliveries|
    ensures SameMaps(s, DeliverAnswered(s, d, ok).state)
  {
  }

  lemma ReportHolds(s: State, sender: Sender, id: Id, visible: bool, found: Found, now: int)
    requires s.Refs() && sender.tab.Some?
    ensures SameMaps(s, ReportArrived(s, sender, id, visible, found, now).state)
  {
  }

  lemma RedeemHolds(s: State, sender: Sender, grant: Id, visible: bool, found: Found)
    requires s.Refs() && sender.tab.Some?
    ensures SameMaps(s, RedeemArrived(s, sender, grant, visible, found).state)
  {
  }

  lemma OutcomeHolds(s: State, sender: Sender, grant: Id, claimed: set<Field>, failure: Option<Failure>)
    requires s.Refs() && sender.tab.Some?
    ensures SameMaps(s, OutcomeArrived(s, sender, grant, claimed, failure).state)
  {
  }

  /** The events that drop nothing. */
  lemma OthersHold(s: State, e: Event)
    requires s.Refs() && Enabled(s, e) && !e.PushLocate? && !e.PushDeliver? && !e.TabClosed?
    ensures SameMaps(s, Step(s, e).state)
  {
    match e {
      case ReportMessage(sender, id, visible, found, now) => ReportHolds(s, sender, id, visible, found, now);
      case RedeemMessage(sender, grant, visible, found) => RedeemHolds(s, sender, grant, visible, found);
      case OutcomeMessage(sender, grant, claimed, failure) => OutcomeHolds(s, sender, grant, claimed, failure);
      case TabFound(p, tab) => TabHolds(s, p, tab);
      case LocateReply(p, ok) => AnswerHolds(s, p, ok);
      case DeliverReply(d, ok) => DeliverAnswerHolds(s, d, ok);
    }
  }

  /** A delivery is held until its tab closes or a push finds it overdue. */
  lemma HeldStep(s: State, e: Event, d: nat)
    requires s.Refs() && Enabled(s, e) && d < |s.deliveries|
    ensures Held(Step(s, e).state, d)
        <==> Held(s, d) && !Drops(e, s.deliveries[d].tabId, s.deliveries[d].at, 60_000)
  {
    if e.PushLocate? {
      LocateHeld(s, e, d);
    } else if e.PushDeliver? {
      DeliverHeld(s, e, d);
    } else if e.TabClosed? {
      ForgottenExactly(s, e.closed);
    } else {
      OthersHold(s, e);
    }
  }

  /** A probe is named until its tab closes, a push finds it overdue, or a delivery spends it. */
  lemma NamedStep(s: State, e: Event, p: nat)
    requires s.Refs() && Enabled(s, e) && p < |s.probes|
    ensures Named(Step(s, e).state, p)
        <==> Named(s, p) && !Drops(e, s.probes[p].tabId, s.probes[p].at, 90_000)
             && !(Delivers(s, e) && s.probes[p].id == e.id)
  {
    if e.PushLocate? {
      LocateNamed(s, e, p);
    } else if e.PushDeliver? {
      DeliverNamed(s, e, p);
    } else if e.TabClosed? {
      ForgottenExactly(s, e.closed);
    } else {
      OthersHold(s, e);
    }
  }

  // ---- What a message does ----

  /** The message is the report of the probe: from the top frame of the tab that was asked, in time, and the first. */
  ghost predicate Reports(s: State, e: Event, p: nat)
    requires p < |s.probes|
  {
    && e.ReportMessage? && Named(s, p) && s.probes[p].id == e.id && !s.probes[p].reported
    && e.now - s.probes[p].at <= 5_000
    && e.sender.frameId == 0 && e.sender.tab.Some? && e.sender.tab == s.probes[p].tabId
  }

  /** The message is from the top frame of the tab a held delivery went to, and from its document if that is known. */
  ghost predicate Speaks(s: State, sender: Sender, grant: Id, d: nat)
    requires d < |s.deliveries|
  {
    && Held(s, d) && s.deliveries[d].grant == grant
    && sender.frameId == 0 && sender.tab.Some? && sender.tab == s.deliveries[d].tabId
    && (s.deliveries[d].documentId.Some? ==> sender.documentId == s.deliveries[d].documentId)
  }

  ghost predicate Redeems(s: State, e: Event, d: nat)
    requires d < |s.deliveries|
  {
    e.RedeemMessage? && Speaks(s, e.sender, e.grant, d) && !s.deliveries[d].asked
  }

  /** The message is the delivery's first outcome, which is no tripwire's. */
  ghost predicate TellsFirst(s: State, e: Event, d: nat)
    requires d < |s.deliveries|
  {
    e.OutcomeMessage? && Speaks(s, e.sender, e.grant, d) && s.deliveries[d].outcomes == 0 && e.failure != Some(Unmasked)
  }

  /** The message is the tripwire's, after a first outcome that named a password. */
  ghost predicate TellsTrip(s: State, e: Event, d: nat)
    requires d < |s.deliveries|
  {
    && e.OutcomeMessage? && Speaks(s, e.sender, e.grant, d) && s.deliveries[d].outcomes == 1
    && s.deliveries[d].wrotePassword.Some? && e.failure == Some(Unmasked)
  }

  /** A delivery nobody took up: its tab does not answer, and nothing was asked for or told. */
  ghost predicate GivesUp(s: State, e: Event, d: nat)
    requires d < |s.deliveries|
  {
    e == DeliverReply(d, false) && !s.deliveries[d].asked && s.deliveries[d].outcomes == 0
  }

  lemma ReportsIsTaken(s: State, e: Event, p: nat)
    requires s.Refs() && p < |s.probes| && e.ReportMessage?
    ensures Reports(s, e, p) <==> ReportTaken(s, e.sender, e.id, e.now) && s.probeOf[e.id] == p
  {
    NamedUnderItsId(s, p);
  }

  lemma SpeaksIsTarget(s: State, sender: Sender, grant: Id, d: nat)
    requires s.Refs() && d < |s.deliveries|
    ensures Speaks(s, sender, grant, d)
        <==> grant in s.deliveryOf && s.deliveryOf[grant] == d && IsDeliveryTarget(s.deliveries[d], sender)
  {
    HeldUnderItsGrant(s, d);
  }

  /** What an event makes of a probe. */
  ghost predicate ProbeBecomes(s: State, e: Event, p: nat, probe: Probe)
    requires p < |s.probes|
  {
    var before := s.probes[p];
    if e.TabFound? && e.p == p then
      if e.tab.Some? && e.tab.value >= 0 then probe == before.(tabId := e.tab, stage := Asked)
      else probe == before.(reported := true, stage := Finished)
    else if e.LocateReply? && e.p == p then probe == before.(reported := before.reported || !e.ok, stage := Finished)
    else if Reports(s, e, p) then
      probe == before.(reported := true,
                       documentId := if e.sender.origin.Some? then e.sender.documentId else before.documentId)
    else probe == before
  }

  lemma ProbeStep(s: State, e: Event, p: nat)
    requires s.Refs() && Enabled(s, e) && p < |s.probes|
    ensures p < |Step(s, e).state.probes| && ProbeBecomes(s, e, p, Step(s, e).state.probes[p])
  {
    if e.ReportMessage? {
      ReportsIsTaken(s, e, p);
    } else if e.PushLocate? {
      LocatesExactly(s, e);
    } else if !IsProbeEvent(e) {
      StepFrame(s, e);
    }
  }

  /** What an event makes of a delivery. */
  ghost predicate DeliveryBecomes(s: State, e: Event, d: nat, delivery: Delivery)
    requires d < |s.deliveries|
  {
    var before := s.deliveries[d];
    if e.DeliverReply? && e.d == d then
      delivery == before.(waiting := false, outcomes := before.outcomes + if GivesUp(s, e, d) then 1 else 0)
    else if Redeems(s, e, d) then delivery == before.(asked := true)
    else if TellsFirst(s, e, d) then delivery == before.(outcomes := 1, wrotePassword := PasswordIn(e.claimed))
    else if TellsTrip(s, e, d) then delivery == before.(outcomes := 2)
    else delivery == before
  }

  lemma RedeemStepOf(s: State, e: Event, d: nat)
    requires s.Refs() && Enabled(s, e) && d < |s.deliveries| && e.RedeemMessage?
    ensures d < |Step(s, e).state.deliveries| && DeliveryBecomes(s, e, d, Step(s, e).state.deliveries[d])
  {
    SpeaksIsTarget(s, e.sender, e.grant, d);
  }

  lemma OutcomeStepOf(s: State, e: Event, d: nat)
    requires s.Refs() && Enabled(s, e) && d < |s.deliveries| && e.OutcomeMessage?
    ensures d < |Step(s, e).state.deliveries| && DeliveryBecomes(s, e, d, Step(s, e).state.deliveries[d])
  {
    SpeaksIsTarget(s, e.sender, e.grant, d);
  }

  lemma DeliveryStep(s: State, e: Event, d: nat)
    requires s.Refs() && Enabled(s, e) && d < |s.deliveries|
    ensures d < |Step(s, e).state.deliveries| && DeliveryBecomes(s, e, d, Step(s, e).state.deliveries[d])
  {
    if e.RedeemMessage? {
      RedeemStepOf(s, e, d);
    } else if e.OutcomeMessage? {
      OutcomeStepOf(s, e, d);
    } else if e.PushDeliver? {
      DeliversExactly(s, e);
    } else if e.PushLocate? {
      LocatesExactly(s, e);
    } else if !e.DeliverReply? {
      StepFrame(s, e);
    }
  }

  // ---- What the app is told ----

  /** What is told of a document that sent a message: its origin, and the tab, document and state that were stamped. */
  predicate IsReportOf(report: Report, sender: Sender, visible: bool, found: Found) {
    && sender.origin.Some? && report.page.topOrigin == sender.origin.value && report.page.frameOrigin.None?
    && report.page.established && sender.tab == Some(report.tab.tab) && report.tab.documentId == sender.documentId
    && report.tab.active == sender.active && report.tab.visible == visible && report.found == found
  }

  /** A report tells what the message was sent from, or that there is nothing to tell. */
  ghost predicate ToldOfProbe(s: State, e: Event, m: Sent)
    requires m.TargetReport?
  {
    && m.probe < |s.probes| && m.id == s.probes[m.probe].id
    && match m.report
       case Some(report) => Reports(s, e, m.probe) && IsReportOf(report, e.sender, e.visible, e.found)
       case None =>
         || (Reports(s, e, m.probe) && e.sender.origin.None?)
         || (e.TabFound? && e.p == m.probe && (e.tab.None? || e.tab.value < 0) && !s.probes[m.probe].reported)
         || (e == LocateReply(m.probe, false) && !s.probes[m.probe].reported)
  }

  /** A fill is asked for by the message that redeems the grant, and told of its sender. */
  ghost predicate ToldOfRedeeming(s: State, e: Event, m: Sent)
    requires m.FillRequest?
  {
    && m.delivery < |s.deliveries| && Redeems(s, e, m.delivery) && m.grant == e.grant && m.sender == e.sender
    && IsReportOf(m.target, e.sender, e.visible, e.found)
  }

  /** An outcome is told as the script reported it, or names the password a tripwire cleared, or is the worker's own. */
  ghost predicate ToldOfOutcome(s: State, e: Event, m: Sent)
    requires s.Refs() && m.FillOutcome?
  {
    || (m.delivery < |s.deliveries| && TellsFirst(s, e, m.delivery)
        && m.grant == e.grant && m.written == e.claimed && m.failure == e.failure)
    || (m.delivery < |s.deliveries| && TellsTrip(s, e, m.delivery)
        && m.grant == e.grant && m.written == {s.deliveries[m.delivery].wrotePassword.value}
        && m.failure == Some(Unmasked))
    || (m.delivery < |s.deliveries| && GivesUp(s, e, m.delivery)
        && m.grant == s.deliveries[m.delivery].grant && m.written == {} && m.failure == Some(FormChanged))
    || (m.delivery == |s.deliveries| && Delivers(s, e) && m.grant == e.grant
        && m.written == {} && m.failure == Some(FormChanged))
  }

  ghost predicate Told(s: State, e: Event, m: Sent)
    requires s.Refs()
  {
    match m
    case TargetReport(_, _, _) => ToldOfProbe(s, e, m)
    case FillRequest(_, _, _, _) => ToldOfRedeeming(s, e, m)
    case FillOutcome(_, _, _, _) => ToldOfOutcome(s, e, m)
  }

  lemma ReportArrivedTells(s: State, e: Event)
    requires s.Refs() && Enabled(s, e) && e.ReportMessage?
    ensures Step(s, e).said.Some? ==> Told(s, e, Step(s, e).said.value)
    ensures Step(s, e).said.Some? <==> exists p: nat :: p < |s.probes| && Reports(s, e, p)
  {
    if ReportTaken(s, e.sender, e.id, e.now) {
      ReportsIsTaken(s, e, s.probeOf[e.id]);
    }
    if p: nat :| p < |s.probes| && Reports(s, e, p) {
      ReportsIsTaken(s, e, p);
    }
  }

  lemma RedeemArrivedTells(s: State, e: Event)
    requires s.Refs() && Enabled(s, e) && e.RedeemMessage?
    ensures Step(s, e).said.Some? ==> Told(s, e, Step(s, e).said.value)
    ensures Step(s, e).said.Some?
        <==> e.sender.origin.Some? && exists d: nat :: d < |s.deliveries| && Redeems(s, e, d)
  {
    if RedeemTaken(s, e.sender, e.grant) {
      SpeaksIsTarget(s, e.sender, e.grant, s.deliveryOf[e.grant]);
      assert Redeems(s, e, s.deliveryOf[e.grant]);
    }
    if d: nat :| d < |s.deliveries| && Redeems(s, e, d) {
      SpeaksIsTarget(s, e.sender, e.grant, d);
    }
  }

  lemma OutcomeArrivedTells(s: State, e: Event)
    requires s.Refs() && Enabled(s, e) && e.OutcomeMessage?
    ensures Step(s, e).said.Some? ==> Told(s, e, Step(s, e).said.value)
    ensures Step(s, e).said.Some?
        <==> exists d: nat :: d < |s.deliveries| && (TellsFirst(s, e, d) || TellsTrip(s, e, d))
  {
    if OutcomeTaken(s, e.sender, e.grant, e.failure) {
      var d := s.deliveryOf[e.grant];
      SpeaksIsTarget(s, e.sender, e.grant, d);
      assert TellsFirst(s, e, d) || TellsTrip(s, e, d);
    }
    if d: nat :| d < |s.deliveries| && (TellsFirst(s, e, d) || TellsTrip(s, e, d)) {
      SpeaksIsTarget(s, e.sender, e.grant, d);
    }
  }

  lemma AnswerTells(s: State, e: Event)
    requires s.Refs() && Enabled(s, e) && (e.TabFound? || e.LocateReply? || e.DeliverReply?)
    ensures Step(s, e).said.Some? ==> Told(s, e, Step(s, e).said.value)
    ensures Step(s, e).said.Some? <==>
              match e
              case TabFound(p, tab) => (tab.None? || tab.value < 0) && !s.probes[p].reported
              case LocateReply(p, ok) => !ok && !s.probes[p].reported
              case DeliverReply(d, _) => GivesUp(s, e, d)
  {
  }

  /** Whatever the app is told, it is told of that very event; and an event is told of when it has to be. */
  lemma TellsExactly(s: State, e: Event)
    requires s.Refs() && Enabled(s, e)
    ensures Step(s, e).said.Some? ==> Told(s, e, Step(s, e).said.value)
    ensures Step(s, e).said.Some? <==>
              match e
              case PushLocate(_, _) => false
              case TabFound(p, tab) => (tab.None? || tab.value < 0) && !s.probes[p].reported
              case LocateReply(p, ok) => !ok && !s.probes[p].reported
              case PushDeliver(_, _, _) =>
                Delivers(s, e) && !Step(s, e).state.deliveries[|s.deliveries|].waiting
              case DeliverReply(d, _) => GivesUp(s, e, d)
              case TabClosed(_) => false
              case ReportMessage(_, _, _, _, _) => exists p: nat :: p < |s.probes| && Reports(s, e, p)
              case RedeemMessage(sender, _, _, _) =>
                sender.origin.Some? && exists d: nat :: d < |s.deliveries| && Redeems(s, e, d)
              case OutcomeMessage(_, _, _, _) =>
                exists d: nat :: d < |s.deliveries| && (TellsFirst(s, e, d) || TellsTrip(s, e, d))
  {
    match e {
      case PushLocate(_, _) => LocatesExactly(s, e);
      case PushDeliver(_, _, _) => DeliversExactly(s, e);
      case TabFound(_, _) => AnswerTells(s, e);
      case LocateReply(_, _) => AnswerTells(s, e);
      case DeliverReply(_, _) => AnswerTells(s, e);
      case TabClosed(_) =>
      case ReportMessage(_, _, _, _, _) => ReportArrivedTells(s, e);
      case RedeemMessage(_, _, _, _) => RedeemArrivedTells(s, e);
      case OutcomeMessage(_, _, _, _) => OutcomeArrivedTells(s, e);
    }
  }

  // ---- A step as a relation ----

  ghost predicate ProbesBecome(s: State, e: Event, t: State) {
    |s.probes| <= |t.probes|
    && forall p: nat | p < |s.probes| :: ProbeBecomes(s, e, p, t.probes[p])
  }

  ghost predicate DeliveriesBecome(s: State, e: Event, t: State) {
    |s.deliveries| <= |t.deliveries|
    && forall d: nat | d < |s.deliveries| :: DeliveryBecomes(s, e, d, t.deliveries[d])
  }

  ghost predicate HeldBecomes(s: State, e: Event, t: State, d: nat)
    requires d < |s.deliveries|
  {
    Held(t, d) == (Held(s, d) && !Drops(e, s.deliveries[d].tabId, s.deliveries[d].at, 60_000))
  }

  ghost predicate NamedBecomes(s: State, e: Event, t: State, p: nat)
    requires s.Refs() && p < |s.probes|
  {
    Named(t, p) == (Named(s, p) && !Drops(e, s.probes[p].tabId, s.probes[p].at, 90_000)
                    && !(Delivers(s, e) && s.probes[p].id == e.id))
  }

  ghost predicate DeliveriesMade(s: State, e: Event, t: State)
    requires s.Refs()
  {
    if Delivers(s, e) then
      |t.deliveries| == |s.deliveries| + 1 && Held(t, |s.deliveries|) && MadeFor(s, e, t.deliveries[|s.deliveries|])
    else |t.deliveries| == |s.deliveries|
  }

  ghost predicate ProbesMade(s: State, e: Event, t: State)
    requires s.Refs()
  {
    if Locates(s, e) then
      && |t.probes| == |s.probes| + 1 && Named(t, |s.probes|)
      && t.probes[|s.probes|] == Probe(e.id, None, e.now, false, None, Choosing)
    else |t.probes| == |s.probes|
  }

  /** What an event makes of all records, which it drops, and which it makes. */
  ghost predicate Becomes(s: State, e: Event, t: State) {
    && s.Refs() && Enabled(s, e)
    && ProbesBecome(s, e, t) && DeliveriesBecome(s, e, t) && ProbesMade(s, e, t) && DeliveriesMade(s, e, t)
    && (forall d: nat | d < |s.deliveries| :: HeldBecomes(s, e, t, d))
    && (forall p: nat | p < |s.probes| :: NamedBecomes(s, e, t, p))
  }

  lemma MakesDeliveries(s: State, e: Event)
    requires s.Refs() && Enabled(s, e)
    ensures DeliveriesMade(s, e, Step(s, e).state)
  {
    if e.PushDeliver? {
      DeliversExactly(s, e);
    } else if IsProbeEvent(e) {
      StepFrame(s, e);
    } else {
      DeliveryEventOnlyDrops(s, e);
    }
  }

  lemma MakesProbes(s: State, e: Event)
    requires s.Refs() && Enabled(s, e)
    ensures ProbesMade(s, e, Step(s, e).state)
  {
    if e.PushLocate? {
      LocatesExactly(s, e);
    } else if !IsProbeEvent(e) {
      StepFrame(s, e);
    }
  }

  /** Every step of the worker is one of this relation. */
  lemma StepExactly(s: State, e: Event)
    requires s.Refs() && Enabled(s, e)
    ensures Becomes(s, e, Step(s, e).state)
  {
    var t := Step(s, e).state;
    MakesDeliveries(s, e);
    MakesProbes(s, e);
    forall p: nat | p < |s.probes|
      ensures ProbeBecomes(s, e, p, t.probes[p]) && NamedBecomes(s, e, t, p)
    {
      ProbeStep(s, e, p);
      NamedStep(s, e, p);
    }
    forall d: nat | d < |s.deliveries|
      ensures DeliveryBecomes(s, e, d, t.deliveries[d]) && HeldBecomes(s, e, t, d)
    {
      DeliveryStep(s, e, d);
      HeldStep(s, e, d);
    }
  }

  // ---- Over any run ----

  function States(worlds: seq<World>): (ss: seq<State>)
    ensures |ss| == |worlds| && forall i | 0 <= i < |worlds| :: ss[i] == worlds[i].state
  {
    seq(|worlds|, i requires 0 <= i < |worlds| => worlds[i].state)
  }

  /** The states a run goes through, from one without records on. */
  ghost predicate History(ss: seq<State>, events: seq<Event>) {
    && |ss| == |events| + 1 && ss[0].probes == [] && ss[0].deliveries == []
    && forall i | 0 <= i < |events| :: Becomes(ss[i], events[i], ss[i + 1])
  }

  lemma RunHistory(worlds: seq<World>, events: seq<Event>)
    requires Run(worlds, events)
    ensures History(States(worlds), events)
  {
    var ss := States(worlds);
    forall i | 0 <= i < |events|
      ensures Becomes(ss[i], events[i], ss[i + 1])
    {
      assert Leads(worlds[i], events[i], worlds[i + 1]);
      StepExactly(ss[i], events[i]);
    }
  }

  lemma Becoming(ss: seq<State>, events: seq<Event>, i: nat)
    requires History(ss, events) && i < |events|
    ensures Becomes(ss[i], events[i], ss[i + 1])
  {
  }

  /** What a delivery was made as stays. */
  ghost predicate SameMaking(c: Delivery, d: Delivery) {
    SameDelivery(c, d) && c.at == d.at
  }

  lemma DeliveryStays(s: State, e: Event, t: State, d: nat)
    requires Becomes(s, e, t) && d < |s.deliveries|
    ensures d < |t.deliveries| && SameMaking(s.deliveries[d], t.deliveries[d])
  {
    assert DeliveryBecomes(s, e, d, t.deliveries[d]);
  }

  lemma ProbeStays(s: State, e: Event, t: State, p: nat)
    requires Becomes(s, e, t) && p < |s.probes|
    ensures p < |t.probes| && t.probes[p].id == s.probes[p].id && t.probes[p].at == s.probes[p].at
  {
    assert ProbeBecomes(s, e, p, t.probes[p]);
  }

  lemma {:induction false} DeliveryKept(ss: seq<State>, events: seq<Event>, i: nat, j: nat, d: nat)
    requires History(ss, events) && i <= j < |ss| && d < |ss[i].deliveries|
    ensures d < |ss[j].deliveries| && SameMaking(ss[i].deliveries[d], ss[j].deliveries[d])
  {
    if i < j {
      DeliveryKept(ss, events, i, j - 1, d);
      assert Becomes(ss[j - 1], events[j - 1], ss[j - 1 + 1]);
      DeliveryStays(ss[j - 1], events[j - 1], ss[j], d);
    }
  }

  lemma {:induction false} ProbeKept(ss: seq<State>, events: seq<Event>, i: nat, j: nat, p: nat)
    requires History(ss, events) && i <= j < |ss| && p < |ss[i].probes|
    ensures p < |ss[j].probes| && ss[j].probes[p].id == ss[i].probes[p].id && ss[j].probes[p].at == ss[i].probes[p].at
  {
    if i < j {
      ProbeKept(ss, events, i, j - 1, p);
      assert Becomes(ss[j - 1], events[j - 1], ss[j - 1 + 1]);
      ProbeStays(ss[j - 1], events[j - 1], ss[j], p);
    }
  }

  /** None of these events drops a delivery to this tab, made at this time. */
  ghost predicate NoneDrops(events: seq<Event>, from: nat, to: nat, tab: Option<TabId>, at: int)
    requires to <= |events|
  {
    forall i | from <= i < to :: !Drops(events[i], tab, at, 60_000)
  }

  lemma OneEventMore(events: seq<Event>, from: nat, to: nat, tab: Option<TabId>, at: int)
    requires from <= to < |events|
    ensures NoneDrops(events, from, to + 1, tab, at)
         == (NoneDrops(events, from, to, tab, at) && !Drops(events[to], tab, at, 60_000))
  {
  }

  lemma HeldAtFirst(s: State, e: Event, t: State)
    requires Becomes(s, e, t) && |s.deliveries| < |t.deliveries|
    ensures Held(t, |s.deliveries|)
  {
  }

  lemma HeldStill(s: State, e: Event, t: State, d: nat)
    requires Becomes(s, e, t) && d < |s.deliveries|
    ensures d < |t.deliveries| && SameMaking(s.deliveries[d], t.deliveries[d]) && HeldBecomes(s, e, t, d)
  {
    DeliveryStays(s, e, t, d);
  }

  /** The delivery has been held as long as none of these events dropped it. */
  ghost predicate HeldFor(s: State, events: seq<Event>, from: nat, to: nat, d: nat) {
    && to <= |events| && d < |s.deliveries|
    && Held(s, d) == NoneDrops(events, from, to, s.deliveries[d].tabId, s.deliveries[d].at)
  }

  lemma HeldForMore(s: State, t: State, events: seq<Event>, from: nat, to: nat, d: nat)
    requires from <= to < |events| && HeldFor(s, events, from, to, d) && Becomes(s, events[to], t)
    ensures HeldFor(t, events, from, to + 1, d)
  {
    HeldStill(s, events[to], t, d);
    OneEventMore(events, from, to, s.deliveries[d].tabId, s.deliveries[d].at);
  }

  /** A delivery is held exactly as long as its tab has not closed and no push with usable ids came a minute later. */
  lemma {:induction false} HeldExactly(ss: seq<State>, events: seq<Event>, m: nat, n: nat, d: nat)
    requires History(ss, events) && m < n < |ss| && |ss[m].deliveries| == d < |ss[m + 1].deliveries|
    ensures HeldFor(ss[n], events, m + 1, n, d)
  {
    Becoming(ss, events, n - 1);
    if m + 1 == n {
      HeldAtFirst(ss[m], events[m], ss[n]);
    } else {
      HeldExactly(ss, events, m, n - 1, d);
      HeldForMore(ss[n - 1], ss[n], events, m + 1, n - 1, d);
    }
  }

  /** The event drops no such probe, and makes no delivery that spends it. */
  ghost predicate Leaves(s: State, e: Event, p: nat) {
    && s.Refs() && p < |s.probes| && !Drops(e, s.probes[p].tabId, s.probes[p].at, 90_000)
    && !(Delivers(s, e) && s.probes[p].id == e.id)
  }

  /** A probe is named exactly as long as its tab has not closed, it is not overdue, and no delivery has spent it. */
  lemma {:induction false} NamedExactly(ss: seq<State>, events: seq<Event>, m: nat, n: nat, p: nat)
    requires History(ss, events) && m < n < |ss| && |ss[m].probes| == p < |ss[m + 1].probes|
    ensures p < |ss[n].probes|
    ensures Named(ss[n], p) <==> forall i | m < i < n :: Leaves(ss[i], events[i], p)
  {
    assert Becomes(ss[n - 1], events[n - 1], ss[n - 1 + 1]);
    if m + 1 < n {
      NamedExactly(ss, events, m, n - 1, p);
      assert NamedBecomes(ss[n - 1], events[n - 1], ss[n], p);
      assert Named(ss[n], p) == (Named(ss[n - 1], p) && Leaves(ss[n - 1], events[n - 1], p));
    }
  }

  // ---- Where what is on record comes from ----

  lemma {:induction false} ProbeMadeAt(ss: seq<State>, events: seq<Event>, n: nat, p: nat) returns (j: nat)
    requires History(ss, events) && n < |ss| && p < |ss[n].probes|
    ensures j < n && |ss[j].probes| == p < |ss[j + 1].probes|
    ensures events[j] == PushLocate(ss[n].probes[p].id, ss[n].probes[p].at)
  {
    assert Becomes(ss[n - 1], events[n - 1], ss[n - 1 + 1]);
    if p < |ss[n - 1].probes| {
      j := ProbeMadeAt(ss, events, n - 1, p);
      ProbeStays(ss[n - 1], events[n - 1], ss[n], p);
    } else {
      j := n - 1;
    }
  }

  /** A probe's tab is the one that was found for it. */
  lemma {:induction false} TabFoundAt(ss: seq<State>, events: seq<Event>, n: nat, p: nat) returns (f: nat)
    requires History(ss, events) && n < |ss| && p < |ss[n].probes| && ss[n].probes[p].tabId.Some?
    ensures f < n && p < |ss[f].probes| && events[f] == TabFound(p, ss[n].probes[p].tabId)
    ensures ss[n].probes[p].tabId.value >= 0
  {
    var s, e := ss[n - 1], events[n - 1];
    assert Becomes(s, e, ss[n - 1 + 1]);
    assert p < |s.probes| && ProbeBecomes(s, e, p, ss[n].probes[p]);
    if e.TabFound? && e.p == p && e.tab.Some? && e.tab.value >= 0 {
      f := n - 1;
    } else {
      f := TabFoundAt(ss, events, n - 1, p);
    }
  }

  lemma {:induction false} DeliveryMadeAt(ss: seq<State>, events: seq<Event>, n: nat, d: nat) returns (m: nat)
    requires History(ss, events) && n < |ss| && d < |ss[n].deliveries|
    ensures m < n && |ss[m].deliveries| == d < |ss[m + 1].deliveries|
    ensures ss[m].Refs() && Delivers(ss[m], events[m]) && MadeFor(ss[m], events[m], ss[m + 1].deliveries[d])
  {
    assert Becomes(ss[n - 1], events[n - 1], ss[n - 1 + 1]);
    if d < |ss[n - 1].deliveries| {
      m := DeliveryMadeAt(ss, events, n - 1, d);
    } else {
      m := n - 1;
    }
  }

  // ---- The document of a report ----

  /** Once a probe was reported, its document stays the one that reported. */
  lemma {:induction false} DocumentStays(ss: seq<State>, events: seq<Event>, k: nat, n: nat, p: nat)
    requires History(ss, events) && k <= n < |ss| && p < |ss[k].probes| && ss[k].probes[p].reported
    ensures p < |ss[n].probes| && ss[n].probes[p].reported && ss[n].probes[p].documentId == ss[k].probes[p].documentId
  {
    if k < n {
      DocumentStays(ss, events, k, n - 1, p);
      assert Becomes(ss[n - 1], events[n - 1], ss[n - 1 + 1]);
      assert ProbeBecomes(ss[n - 1], events[n - 1], p, ss[n].probes[p]);
    }
  }

  lemma {:induction false} TabStays(ss: seq<State>, events: seq<Event>, k: nat, n: nat, p: nat)
    requires History(ss, events) && k <= n < |ss| && p < |ss[k].probes| && ss[k].probes[p].stage != Choosing
    ensures p < |ss[n].probes| && ss[n].probes[p].stage != Choosing && ss[n].probes[p].tabId == ss[k].probes[p].tabId
  {
    if k < n {
      TabStays(ss, events, k, n - 1, p);
      assert Becomes(ss[n - 1], events[n - 1], ss[n - 1 + 1]);
      assert ProbeBecomes(ss[n - 1], events[n - 1], p, ss[n].probes[p]);
    }
  }

  /** A report that is told leaves its sender's document on the probe. */
  lemma ReportIsKept(s: State, e: Event, p: nat, report: Report)
    requires s.Refs() && Enabled(s, e) && e.ReportMessage?
    requires Step(s, e).said == Some(TargetReport(p, e.id, Some(report)))
    requires forall q: nat | q < |s.probes| :: s.probes[q].tabId.Some? ==> s.probes[q].stage != Choosing
    ensures report.tab.documentId == e.sender.documentId && Some(report.tab.tab) == e.sender.tab
    ensures p < |Step(s, e).state.probes|
    ensures var probe := Step(s, e).state.probes[p];
            probe.reported && probe.documentId == e.sender.documentId && probe.tabId == e.sender.tab
            && probe.stage != Choosing
  {
    TellsExactly(s, e);
    ProbeStep(s, e, p);
  }

  lemma ReportWasSaid(worlds: seq<World>, events: seq<Event>, k: nat, m: Sent)
    requires Run(worlds, events) && k < |events| && worlds[k + 1].log == worlds[k].log + [m]
    ensures worlds[k].state.Refs() && Enabled(worlds[k].state, events[k])
    ensures Step(worlds[k].state, events[k]) == Reaction(worlds[k + 1].state, Some(m))
  {
    assert Leads(worlds[k], events[k], worlds[k + 1]);
    assert worlds[k + 1].log[|worlds[k].log|] == m;
  }

  /**
   * Whoever redeems a grant whose delivery spent a probe is in the document that sent the report of
   * that probe, if the browser stamped it; and that report tells the app of that very document.
   */
  lemma FillFromReportedDocument(worlds: seq<World>, events: seq<Event>, k: nat, n: nat, i: nat, p: nat, report: Report)
    requires Run(worlds, events) && k < n < |worlds| && i < |worlds[n].log|
    requires events[k].ReportMessage?
    requires worlds[k + 1].log == worlds[k].log + [TargetReport(p, events[k].id, Some(report))]
    requires worlds[n].log[i].FillRequest? && worlds[n].log[i].delivery < |worlds[n].state.deliveries|
    requires worlds[n].state.deliveries[worlds[n].log[i].delivery].probe == Some(p)
    ensures report.tab.documentId == events[k].sender.documentId && Some(report.tab.tab) == events[k].sender.tab
    ensures worlds[n].log[i].sender.tab == events[k].sender.tab && worlds[n].log[i].sender.frameId == 0
    ensures events[k].sender.documentId.Some? ==> worlds[n].log[i].sender.documentId == events[k].sender.documentId
  {
    var ss := States(worlds);
    RunHistory(worlds, events);
    RunKeepsInv(worlds, events, k);
    ReportWasSaid(worlds, events, k, TargetReport(p, events[k].id, Some(report)));
    ReportIsKept(ss[k], events[k], p, report);
    DocumentStays(ss, events, k + 1, n, p);
    TabStays(ss, events, k + 1, n, p);
    FillsSpendProbes(worlds, events, n, i);
  }

  // ---- The story of a message to the app ----

  /** Every message to the app is told of the event that sent it. */
  lemma {:induction false} ToldAt(worlds: seq<World>, events: seq<Event>, n: nat, i: nat) returns (k: nat)
    requires Run(worlds, events) && n < |worlds| && i < |worlds[n].log|
    ensures k < n && |worlds[k].log| == i && worlds[k].log <= worlds[n].log
    ensures worlds[k].state.Refs() && Told(worlds[k].state, events[k], worlds[n].log[i])
  {
    assert Leads(worlds[n - 1], events[n - 1], worlds[n]);
    if i < |worlds[n - 1].log| {
      k := ToldAt(worlds, events, n - 1, i);
    } else {
      k := n - 1;
      TellsExactly(worlds[k].state, events[k]);
    }
  }

  /**
   * Behind every `agent_fill` the app is sent there are, in this order: a `locate` push, a tab found
   * for it, a `deliver` push that names its id within ninety seconds, and a message from the top
   * frame of that tab with the delivery's grant. Between the last two the tab did not close, and no
   * push came later than a minute after the delivery.
   */
  lemma FillStory(worlds: seq<World>, events: seq<Event>, n: nat, i: nat)
    returns (located: nat, found: nat, delivered: nat, redeemed: nat)
    requires Run(worlds, events) && n < |worlds| && i < |worlds[n].log| && worlds[n].log[i].FillRequest?
    ensures located < delivered < redeemed < n && found < delivered
    ensures var request := worlds[n].log[i];
            && events[located].PushLocate?
            && events[found] == TabFound(|worlds[located].state.probes|, request.sender.tab)
            && events[delivered].PushDeliver? && events[delivered].id == events[located].id
            && events[delivered].now - events[located].now <= 90_000
            && events[redeemed].RedeemMessage? && events[redeemed].sender == request.sender
            && request.sender.frameId == 0 && request.sender.tab.Some?
            && events[delivered].grant == events[redeemed].grant == request.grant
            && IsReportOf(request.target, request.sender, events[redeemed].visible, events[redeemed].found)
            && NoneDrops(events, delivered + 1, redeemed, request.sender.tab, events[delivered].now)
  {
    var ss := States(worlds);
    RunHistory(worlds, events);
    redeemed := ToldAt(worlds, events, n, i);
    var d := worlds[n].log[i].delivery;
    delivered := DeliveryMadeAt(ss, events, redeemed, d);
    DeliveryKept(ss, events, delivered + 1, redeemed, d);
    HeldExactly(ss, events, delivered, redeemed, d);
    var p := ss[delivered + 1].deliveries[d].probe.value;
    located := ProbeMadeAt(ss, events, delivered, p);
    found := TabFoundAt(ss, events, delivered, p);
  }

  lemma {:induction false} FirstOutcome(log: seq<Sent>, d: nat) returns (j: nat)
    requires OutcomesOf(log, d) != []
    ensures j < |log| && log[j] == OutcomesOf(log, d)[0] && log[j].FillOutcome? && log[j].delivery == d
  {
    var n := |log| - 1;
    if OutcomesOf(log[..n], d) != [] {
      j := FirstOutcome(log[..n], d);
    } else {
      j := n;
    }
  }

  /** An earlier outcome of that delivery named this password: the login's, or else the sign-up's. */
  ghost predicate NamedBefore(log: seq<Sent>, i: nat, d: nat, password: Field) {
    exists j: nat :: j < i && j < |log| && log[j].FillOutcome? && log[j].delivery == d
                     && password in log[j].written
                     && (password == Password || (password == NewPassword && Password !in log[j].written))
  }

  /**
   * Every outcome the app is told is one that a script reported, with what it says it wrote and why
   * it failed; or names the password that an earlier outcome named, after a tripwire's report; or is
   * the worker's own, that nobody took the delivery up.
   */
  lemma OutcomeStory(worlds: seq<World>, events: seq<Event>, n: nat, i: nat) returns (k: nat)
    requires Run(worlds, events) && n < |worlds| && i < |worlds[n].log| && worlds[n].log[i].FillOutcome?
    ensures k < n && |worlds[k].log| == i
    ensures var m, e := worlds[n].log[i], events[k];
            match e
            case OutcomeMessage(sender, grant, claimed, failure) =>
              && m.grant == grant && m.failure == failure && sender.frameId == 0
              && if failure != Some(Unmasked) then m.written == claimed
                 else exists password :: m.written == {password} && NamedBefore(worlds[n].log, i, m.delivery, password)
            case DeliverReply(d, ok) => !ok && m.delivery == d && m.written == {} && m.failure == Some(FormChanged)
            case PushDeliver(_, grant, _) => m.grant == grant && m.written == {} && m.failure == Some(FormChanged)
            case _ => false
  {
    k := ToldAt(worlds, events, n, i);
    var m, w := worlds[n].log[i], worlds[k];
    if events[k].OutcomeMessage? && events[k].failure == Some(Unmasked) {
      RunKeepsInv(worlds, events, k);
      assert OutcomesCountedFor(w.state, w.log, m.delivery);
      var j := FirstOutcome(w.log, m.delivery);
      var password := w.state.deliveries[m.delivery].wrotePassword.value;
      assert worlds[n].log[j] == w.log[j];
      assert m.written == {password} && NamedBefore(worlds[n].log, i, m.delivery, password);
    }
  }

  /**
   * Every report of a page the app is told is a message's from the top frame of the tab that was
   * found for its `locate`, at most five seconds after that; it tells of that message's sender.
   */
  lemma ReportStory(worlds: seq<World>, events: seq<Event>, n: nat, i: nat)
    returns (located: nat, found: nat, reported: nat)
    requires Run(worlds, events) && n < |worlds| && i < |worlds[n].log|
    requires worlds[n].log[i].TargetReport? && worlds[n].log[i].report.Some?
    ensures located < reported < n && found < reported
    ensures var m, e := worlds[n].log[i], events[reported];
            && events[located].PushLocate? && events[located].id == m.id
            && |worlds[located].state.probes| == m.probe
            && e.ReportMessage? && e.id == m.id && e.now - events[located].now <= 5_000
            && events[found] == TabFound(m.probe, e.sender.tab) && e.sender.frameId == 0
            && IsReportOf(m.report.value, e.sender, e.visible, e.found)
  {
    var ss := States(worlds);
    RunHistory(worlds, events);
    reported := ToldAt(worlds, events, n, i);
    var p := worlds[n].log[i].probe;
    located := ProbeMadeAt(ss, events, reported, p);
    found := TabFoundAt(ss, events, reported, p);
  }
}
