/**
 * The handlers of the service worker (background.js), slice by slice between their awaits, against
 * the steps they are meant to take.
 */
module AgentWorker {
  import opened Basics
  import opened AgentFill
  import opened AgentRuns

  /** A content script's answer: its message was accepted, or refused without a reason. */
  datatype Answer = Accepted | Refused

  class Worker {
    /** All records ever made; a running handler refers to its own by index. */
    var probes: seq<Probe>
    var deliveries: seq<Delivery>
    /** The records that are still held, by id. */
    var agentProbes: map<Id, nat>
    var agentDeliveries: map<Id, nat>
    /** What the app has been told. */
    var told: seq<Sent>

    ghost predicate Valid()
      reads this
    {
      Now().Refs()
    }

    function Now(): State
      reads this
    {
      State(probes, agentProbes, deliveries, agentDeliveries)
    }

    /** The worker has gone where `r` leads, and told the app what `r` says. */
    ghost predicate Took(r: Reaction, before: seq<Sent>)
      reads this
    {
      Now() == r.state && told == if r.said.Some? then before + [r.said.value] else before
    }

    /** The invariant that every run keeps. */
    ghost predicate Sound()
      reads this
    {
      Inv(World(Now(), told))
    }

    constructor ()
      ensures Valid() && Sound() && Now() == EMPTY && told == []
    {
      probes, agentProbes, deliveries, agentDeliveries, told := [], map[], [], map[], [];
    }

    method PruneAgentState(now: int)
      requires Valid()
      modifies this`agentProbes, this`agentDeliveries
      ensures Now() == Pruned(old(Now()), now)
    {
      PruneProbes(now);
      PruneDeliveries(now);
    }

    method PruneProbes(now: int)
      requires Valid()
      modifies this`agentProbes
      ensures agentProbes == Pruned(old(Now()), now).probeOf
    {
      var held := agentProbes;
      var ids, seen: set<Id> := held.Keys, {};
      while seen != ids
        invariant seen <= ids == held.Keys
        invariant agentProbes ==
          map id | id in held && (id in seen ==> now - probes[held[id]].at <= PROBE_TTL_MS) :: held[id]
        decreases ids - seen
      {
        ghost var left := SomethingLeft(ids, seen);
        var id :| id in ids && id !in seen;
        seen := seen + {id};
        if now - probes[held[id]].at > PROBE_TTL_MS {
          agentProbes := agentProbes - {id};
        }
      }
    }

    method PruneDeliveries(now: int)
      requires Valid()
      modifies this`agentDeliveries
      ensures agentDeliveries == Pruned(old(Now()), now).deliveryOf
    {
      var held := agentDeliveries;
      var ids, seen: set<Id> := held.Keys, {};
      while seen != ids
        invariant seen <= ids == held.Keys
        invariant agentDeliveries ==
          map id | id in held && (id in seen ==> now - deliveries[held[id]].at <= DELIVERY_TTL_MS) :: held[id]
        decreases ids - seen
      {
        ghost var left := SomethingLeft(ids, seen);
        var id :| id in ids && id !in seen;
        seen := seen + {id};
        if now - deliveries[held[id]].at > DELIVERY_TTL_MS {
          agentDeliveries := agentDeliveries - {id};
        }
      }
    }

    method ForgetAgentTab(tab: TabId)
      requires Valid()
      modifies this`agentProbes, this`agentDeliveries
      ensures Now() == TabForgotten(old(Now()), tab)
    {
      ForgetTabProbes(tab);
      ForgetTabDeliveries(tab);
    }

    method ForgetTabProbes(tab: TabId)
      requires Valid()
      modifies this`agentProbes
      ensures agentProbes == TabForgotten(old(Now()), tab).probeOf
    {
      var held := agentProbes;
      var ids, seen: set<Id> := held.Keys, {};
      while seen != ids
        invariant seen <= ids == held.Keys
        invariant agentProbes ==
          map id | id in held && (id in seen ==> probes[held[id]].tabId != Some(tab)) :: held[id]
        decreases ids - seen
      {
        ghost var left := SomethingLeft(ids, seen);
        var id :| id in ids && id !in seen;
        seen := seen + {id};
        if probes[held[id]].tabId == Some(tab) {
          agentProbes := agentProbes - {id};
        }
      }
    }

    method ForgetTabDeliveries(tab: TabId)
      requires Valid()
      modifies this`agentDeliveries
      ensures agentDeliveries == TabForgotten(old(Now()), tab).deliveryOf
    {
      var held := agentDeliveries;
      var ids, seen: set<Id> := held.Keys, {};
      while seen != ids
        invariant seen <= ids == held.Keys
        invariant agentDeliveries ==
          map id | id in held && (id in seen ==> deliveries[held[id]].tabId != Some(tab)) :: held[id]
        decreases ids - seen
      {
        ghost var left := SomethingLeft(ids, seen);
        var id :| id in ids && id !in seen;
        seen := seen + {id};
        if deliveries[held[id]].tabId == Some(tab) {
          agentDeliveries := agentDeliveries - {id};
        }
      }
    }

    method TellApp(what: Sent)
      modifies this`told
      ensures told == old(told) + [what]
    {
      told := told + [what];
    }

    /** A `locate` push. Answers which record it made, if it made one. */
    method OnLocate(probeId: Id, now: int) returns (p: Option<nat>)
      requires Valid()
      modifies this
      ensures Valid() && Took(Locate(old(Now()), probeId, now), old(told))
      ensures p == if |probes| > old(|probes|) then Some(old(|probes|)) else None
    {
      if !IsOpaqueId(probeId) {
        return None;
      }
      PruneAgentState(now);
      if probeId in agentProbes {
        return None;
      }
      p := Some(|probes|);
      agentProbes := agentProbes[probeId := |probes|];
      probes := probes + [Probe(probeId, None, now, false, None, Choosing)];
    }

    method FinishLocate(p: nat)
      requires Valid() && p < |probes|
      modifies this
      ensures Valid() && Took(LocateUnanswered(old(Now()), p), old(told))
    {
      var probe := probes[p];
      if !probe.reported {
        probes := probes[p := probes[p].(reported := true)];
        TellApp(TargetReport(p, probe.id, None));
      }
      probes := probes[p := probes[p].(stage := Finished)];
    }

    /** The `locate` goes on with the tab it chose. */
    method OnTabChosen(p: nat, tab: Option<TabId>)
      requires Valid() && p < |probes|
      modifies this
      ensures Valid() && Took(TabChosen(old(Now()), p, tab), old(told))
    {
      if tab.Some? && tab.value >= 0 {
        probes := probes[p := probes[p].(tabId := tab, stage := Asked)];
      } else {
        FinishLocate(p);
      }
    }

    /** The `locate` goes on with its tab's answer. */
    method OnLocateAnswered(p: nat, ok: bool)
      requires Valid() && p < |probes|
      modifies this
      ensures Valid() && Took(LocateAnswered(old(Now()), p, ok), old(told))
    {
      if ok {
        probes := probes[p := probes[p].(stage := Finished)];
        return;
      }
      FinishLocate(p);
    }

    /** A `deliver` push. Answers which record it made, if it made one, and whether a tab is asked. */
    method OnDeliver(probeId: Id, grantId: Id, now: int) returns (d: Option<nat>, asksTab: bool)
      requires Valid()
      modifies this
      ensures Valid() && Took(Deliver(old(Now()), probeId, grantId, now), old(told))
      ensures d == if |deliveries| > old(|deliveries|) then Some(old(|deliveries|)) else None
      ensures asksTab <==> d.Some? && deliveries[d.value].waiting
    {
      if !IsOpaqueId(probeId) || !IsOpaqueId(grantId) {
        return None, false;
      }
      PruneAgentState(now);
      if grantId in agentDeliveries {
        return None, false;
      }
      d := Some(|deliveries|);
      asksTab := StartDelivery(probeId, grantId, now);
    }

    method StartDelivery(probeId: Id, grantId: Id, now: int) returns (asksTab: bool)
      requires Valid() && grantId !in agentDeliveries
      modifies this
      ensures Valid() && Took(DeliverNew(old(Now()), probeId, grantId, now), old(told))
      ensures |deliveries| == old(|deliveries|) + 1 && (asksTab <==> deliveries[old(|deliveries|)].waiting)
    {
      var d := |deliveries|;
      asksTab := RecordDelivery(probeId, grantId, now);
      if !asksTab {
        FinishDeliver(d);
      }
    }

    /** Spends the probe and records the delivery; answers whether there is a tab to ask. */
    method RecordDelivery(probeId: Id, grantId: Id, now: int) returns (asksTab: bool)
      requires Valid() && grantId !in agentDeliveries
      modifies this`agentProbes, this`agentDeliveries, this`deliveries
      ensures Valid() && Now() == Started(old(Now()), probeId, grantId, now)
      ensures asksTab <==> NewDelivery(old(Now()), probeId, grantId, now).waiting
    {
      var probe := if probeId in agentProbes then Some(agentProbes[probeId]) else None;
      agentProbes := agentProbes - {probeId};
      var delivery := Delivery(grantId, probe,
                               if probe.Some? then probes[probe.value].tabId else None,
                               if probe.Some? then probes[probe.value].documentId else None,
                               now, false, 0, None, false);
      asksTab := probe.Some? && probes[probe.value].reported && delivery.tabId.Some?;
      agentDeliveries := agentDeliveries[grantId := |deliveries|];
      deliveries := deliveries + [delivery.(waiting := asksTab)];
    }

    method FinishDeliver(d: nat)
      requires Valid() && d < |deliveries|
      modifies this`deliveries, this`told
      ensures Valid() && Took(DeliverUnanswered(old(Now()), d), old(told))
    {
      deliveries := deliveries[d := deliveries[d].(waiting := false)];
      var delivery := deliveries[d];
      if !delivery.asked && delivery.outcomes == 0 {
        deliveries := deliveries[d := delivery.(outcomes := delivery.outcomes + 1)];
        TellApp(FillOutcome(d, delivery.grant, {}, Some(FormChanged)));
      }
    }

    /** The `deliver` goes on with its tab's answer. */
    method OnDeliverAnswered(d: nat, ok: bool)
      requires Valid() && d < |deliveries|
      modifies this`deliveries, this`told
      ensures Valid() && Took(DeliverAnswered(old(Now()), d, ok), old(told))
    {
      if ok {
        deliveries := deliveries[d := deliveries[d].(waiting := false)];
        return;
      }
      FinishDeliver(d);
    }

    method OnReport(sender: Sender, probeId: Id, visible: bool, found: Found, now: int) returns (answer: Answer)
      requires Valid() && sender.tab.Some?
      modifies this`probes, this`told
      ensures Valid() && Took(ReportArrived(old(Now()), sender, probeId, visible, found, now), old(told))
      ensures answer.Accepted? <==> ReportTaken(old(Now()), sender, probeId, now)
    {
      if probeId !in agentProbes {
        return Refused;
      }
      var p := agentProbes[probeId];
      var probe := probes[p];
      var inTime := now - probe.at <= REPORT_WINDOW_MS;
      if !inTime || probe.reported || probe.tabId.None? || sender.frameId != 0 || sender.tab != probe.tabId {
        return Refused;
      }
      probes := probes[p := probe.(reported := true)];
      var page := TrustedPage(sender);
      if page.None? {
        TellApp(TargetReport(p, probeId, None));
        return Accepted;
      }
      var tab := StampedTab(sender, visible);
      probes := probes[p := probes[p].(documentId := tab.documentId)];
      TellApp(TargetReport(p, probeId, Some(Report(page.value, tab, found))));
      return Accepted;
    }

    method OnFill(sender: Sender, grantId: Id, visible: bool, found: Found) returns (answer: Answer)
      requires Valid() && sender.tab.Some?
      modifies this`deliveries, this`told
      ensures Valid() && Took(RedeemArrived(old(Now()), sender, grantId, visible, found), old(told))
      ensures answer.Accepted? <==> RedeemTaken(old(Now()), sender, grantId) && TrustedPage(sender).Some?
    {
      if grantId !in agentDeliveries {
        return Refused;
      }
      var d := agentDeliveries[grantId];
      var delivery := deliveries[d];
      if delivery.asked || !IsDeliveryTarget(delivery, sender) {
        return Refused;
      }
      deliveries := deliveries[d := delivery.(asked := true)];
      var page := TrustedPage(sender);
      if page.None? {
        return Refused;
      }
      TellApp(FillRequest(d, grantId, sender, Report(page.value, StampedTab(sender, visible), found)));
      return Accepted;
    }

    method OnOutcome(sender: Sender, grantId: Id, claimed: set<Field>, failure: Option<Failure>)
      returns (answer: Answer)
      requires Valid() && sender.tab.Some?
      modifies this`deliveries, this`told
      ensures Valid() && Took(OutcomeArrived(old(Now()), sender, grantId, claimed, failure), old(told))
      ensures answer.Accepted? <==> OutcomeTaken(old(Now()), sender, grantId, failure)
    {
      if grantId !in agentDeliveries {
        return Refused;
      }
      var d := agentDeliveries[grantId];
      var delivery := deliveries[d];
      var first := delivery.outcomes == 0 && failure != Some(Unmasked);
      var tripwire := delivery.outcomes == 1 && delivery.wrotePassword.Some? && failure == Some(Unmasked);
      if !IsDeliveryTarget(delivery, sender) || !(first || tripwire) {
        return Refused;
      }
      var written := if tripwire then {delivery.wrotePassword.value} else claimed;
      CountOutcome(d, first, written);
      TellApp(FillOutcome(d, grantId, written, failure));
      return Accepted;
    }

    /** Counts an outcome, and keeps which password a first one named. */
    method CountOutcome(d: nat, first: bool, written: set<Field>)
      requires Valid() && d < |deliveries|
      modifies this`deliveries
      ensures var delivery := old(deliveries)[d];
              deliveries == old(deliveries)[d := delivery.(
                outcomes := delivery.outcomes + 1,
                wrotePassword := if first then PasswordIn(written) else delivery.wrotePassword)]
    {
      var delivery := deliveries[d].(outcomes := deliveries[d].outcomes + 1);
      if first {
        delivery := delivery.(wrotePassword := if Password in written then Some(Password)
                                               else if NewPassword in written then Some(NewPassword) else None);
      }
      deliveries := deliveries[d := delivery];
    }

    /** One slice of one handler, whichever is next: the worker goes where the run goes, and keeps its invariant. */
    method Handle(e: Event)
      requires Sound() && Enabled(Now(), e)
      modifies this
      ensures Sound() && World(Now(), told) == Next(old(World(Now(), told)), e)
    {
      KeepsInv(World(Now(), told), e);
      match e {
        case PushLocate(id, now) =>
          var _ := OnLocate(id, now);
        case TabFound(p, tab) =>
          OnTabChosen(p, tab);
        case LocateReply(p, ok) =>
          OnLocateAnswered(p, ok);
        case PushDeliver(id, grant, now) =>
          var _, _ := OnDeliver(id, grant, now);
        case DeliverReply(d, ok) =>
          OnDeliverAnswered(d, ok);
        case TabClosed(tab) =>
          ForgetAgentTab(tab);
        case ReportMessage(sender, id, visible, found, now) =>
          var _ := OnReport(sender, id, visible, found, now);
        case RedeemMessage(sender, grant, visible, found) =>
          var _ := OnFill(sender, grant, visible, found);
        case OutcomeMessage(sender, grant, claimed, failure) =>
          var _ := OnOutcome(sender, grant, claimed, failure);
      }
    }
  }
}
