/**
 * The worker together with the content scripts its deliveries are for (content.js): what a delivery
 * comes to when the script of its document follows its part of the protocol.
 */
module AgentDelivering {
  import opened Basics
  import opened AgentFill
  import opened AgentRuns

  // ---- The script in the document redeems, writes, reports, and may trip ----

  /**
   * How far the script of a delivery has come: it has yet to act; it holds the app's reply (and the
   * worker had or had not given up by then); its first report was or was not taken, and it watches
   * the password it wrote; or it has nothing more to say.
   */
  datatype Script =
    | Waiting
    | Redeemed(gaveUp: bool)
    | Reported(taken: bool, watched: Option<Field>)
    | Over

  datatype Delivering = Delivering(world: World, scripts: map<nat, Script>) {
    function ScriptOf(d: nat): Script {
      if d in scripts then scripts[d] else Waiting
    }
  }

  /** Who moves: the script of a delivery, or anybody and anything else. */
  datatype Mover = Other | Redeems(d: nat, ok: bool) | Reports(d: nat) | Trips(d: nat)

  /** The message reaches a held delivery as its document's own. */
  predicate SpeaksFor(s: State, e: Event)
    requires s.Refs()
  {
    && (e.RedeemMessage? || e.OutcomeMessage?)
    && e.grant in s.deliveryOf && IsDeliveryTarget(s.deliveries[s.deliveryOf[e.grant]], e.sender)
  }

  /** The message is one about delivery `d`, from the document it was delivered to. */
  predicate FromDocument(s: State, e: Event, d: nat) {
    && d < |s.deliveries| && (e.RedeemMessage? || e.OutcomeMessage?)
    && e.grant == s.deliveries[d].grant && IsDeliveryTarget(s.deliveries[d], e.sender)
  }

  /** The password a script watches: the sign-up's if it wrote one, or else the login's. */
  function Watched(written: set<Field>): Option<Field> {
    if NewPassword in written then Some(NewPassword) else if Password in written then Some(Password) else None
  }

  /**
   * What a script may say: it redeems its grant first; it reports once, nothing at all or what it
   * wrote after redeeming, never both kinds of password; and then once more, that it cleared the
   * password it watched.
   */
  predicate MaySay(script: Script, e: Event) {
    && (e.RedeemMessage? || e.OutcomeMessage?)
    && if e.RedeemMessage? then script.Waiting?
       else if e.failure == Some(Unmasked) then
         script.Reported? && script.watched.Some? && e.claimed == {script.watched.value}
       else
         && ((script.Waiting? && e.claimed == {}) || script.Redeemed?)
         && !(Password in e.claimed && NewPassword in e.claimed)
  }

  /** A script says what it may at its stage, and what the worker makes of it decides the next. */
  ghost predicate ScriptMoves(s: State, script: Script, e: Event, who: Mover, script': Script)
    requires s.Refs()
  {
    && !who.Other? && FromDocument(s, e, who.d) && MaySay(script, e)
    && match who
       case Redeems(d, ok) =>
         && e.RedeemMessage? && (ok ==> RedeemTaken(s, e.sender, e.grant))
         && script' == if ok then Redeemed(s.deliveries[d].outcomes > 0) else Over
       case Reports(d) =>
         && e.OutcomeMessage? && e.failure != Some(Unmasked)
         && script' == Reported(OutcomeTaken(s, e.sender, e.grant, e.failure), Watched(e.claimed))
       case Trips(d) =>
         e.OutcomeMessage? && e.failure == Some(Unmasked) && script' == Over
  }

  /** Whoever speaks for the document of a held delivery is the script of some delivery. */
  ghost predicate DeliveringNext(x: Delivering, e: Event, who: Mover, x': Delivering) {
    var s := x.world.state;
    && s.Refs() && Enabled(s, e) && x'.world == Next(x.world, e)
    && (SpeaksFor(s, e) ==> !who.Other?)
    && if who.Other? then x'.scripts == x.scripts
       else ScriptMoves(s, x.ScriptOf(who.d), e, who, x'.ScriptOf(who.d))
            && x'.scripts == x.scripts[who.d := x'.ScriptOf(who.d)]
  }

  ghost predicate DeliveringRun(xs: seq<Delivering>, events: seq<Event>, movers: seq<Mover>) {
    && |xs| == |events| + 1 == |movers| + 1
    && xs[0] == Delivering(World(EMPTY, []), map[])
    && forall i :: 0 <= i < |events| ==> DeliveringNext(xs[i], events[i], movers[i], xs[i + 1])
  }

  /** What the stage of a script says of its delivery. */
  ghost predicate ScriptInv(s: State, d: nat, script: Script) {
    && (!script.Waiting? ==> d < |s.deliveries|)
    && ((script.Waiting? || script.Redeemed?) && d < |s.deliveries| && s.deliveries[d].outcomes > 0 ==>
          s.deliveries[d].wrotePassword.None?)
    && (script == Redeemed(false) ==> s.deliveries[d].asked && s.deliveries[d].outcomes == 0)
    && (script.Reported? && script.taken ==>
          s.deliveries[d].outcomes == 1 && s.deliveries[d].wrotePassword == script.watched)
    && (script.Reported? && !script.taken ==>
          !Held(s, d) || (s.deliveries[d].outcomes > 0 && s.deliveries[d].wrotePassword.None?))
  }

  ghost predicate DeliveringInv(x: Delivering, d: nat) {
    Inv(x.world) && ScriptInv(x.world.state, d, x.ScriptOf(d))
  }

  /** No other delivery was made for the grant of `d`. */
  ghost predicate Sole(s: State, d: nat) {
    forall c: nat | c < |s.deliveries| && d < |s.deliveries| && c != d :: s.deliveries[c].grant != s.deliveries[d].grant
  }

  /** A delivery that is dropped stays dropped, and only its own script or the worker's giving up counts outcomes. */
  ghost predicate Quiet(s: State, t: State, d: nat)
    requires d < |s.deliveries| <= |t.deliveries|
  {
    var before, after := s.deliveries[d], t.deliveries[d];
    && SameDelivery(before, after)
    && (before.asked ==> after.asked)
    && (Held(t, d) ==> Held(s, d))
    && (before.asked || before.outcomes > 0 ==>
          after.outcomes == before.outcomes && after.wrotePassword == before.wrotePassword)
    && (after.outcomes > 0 && before.outcomes == 0 ==> after.wrotePassword.None?)
  }

  /** Nobody but a delivery's script makes the worker tell an outcome for it, other than by giving up. */
  lemma OthersOnlyGiveUp(s: State, e: Event, d: nat)
    requires s.Refs() && Enabled(s, e) && !SpeaksFor(s, e) && d < |s.deliveries|
    ensures var said := Step(s, e).said;
            said.Some? && said.value.FillOutcome? && said.value.delivery == d ==>
              !s.deliveries[d].asked && s.deliveries[d].outcomes == 0 && said.value.written == {}
  {
    if e.PushDeliver? {
      DeliverShape(s, e.id, e.grant, e.now);
    } else if !e.DeliverReply? {
      StepFrame(s, e);
    }
  }

  lemma DeliverHeld(s: State, id: Id, grant: Id, now: int, d: nat)
    requires s.Refs() && d < |s.deliveries|
    ensures Held(Deliver(s, id, grant, now).state, d) ==> Held(s, d)
  {
    DeliverShape(s, id, grant, now);
  }

  lemma ProbeEventMaps(s: State, e: Event)
    requires s.Refs() && Enabled(s, e) && IsProbeEvent(e)
    ensures forall k | k in Step(s, e).state.deliveryOf ::
              k in s.deliveryOf && Step(s, e).state.deliveryOf[k] == s.deliveryOf[k]
  {
  }

  lemma OtherMapsShrink(s: State, e: Event)
    requires s.Refs() && Enabled(s, e) && !e.PushDeliver?
    ensures |Step(s, e).state.deliveries| == |s.deliveries|
    ensures forall k | k in Step(s, e).state.deliveryOf ::
              k in s.deliveryOf && Step(s, e).state.deliveryOf[k] == s.deliveryOf[k]
  {
    if IsProbeEvent(e) {
      StepFrame(s, e);
      ProbeEventMaps(s, e);
    } else {
      DeliveryEventOnlyDrops(s, e);
    }
  }

  lemma HeldShrinks(s: State, e: Event, d: nat)
    requires s.Refs() && Enabled(s, e) && d < |s.deliveries|
    ensures Held(Step(s, e).state, d) ==> Held(s, d)
  {
    if e.PushDeliver? {
      DeliverHeld(s, e.id, e.grant, e.now, d);
    } else {
      OtherMapsShrink(s, e);
    }
  }

  lemma OtherIsQuiet(s: State, e: Event, d: nat)
    requires s.Refs() && Enabled(s, e) && !SpeaksFor(s, e) && d < |s.deliveries|
    requires forall c: nat :: Outcomes(s, c) == 0 ==> Wrote(s, c).None?
    ensures |s.deliveries| <= |Step(s, e).state.deliveries| && Quiet(s, Step(s, e).state, d)
  {
    StepRedeems(s, e);
    StepTellsOutcomes(s, e);
    OthersOnlyGiveUp(s, e, d);
    HeldShrinks(s, e, d);
    var r := Step(s, e);
    assert Outcomes(r.state, d) == r.state.deliveries[d].outcomes && Outcomes(s, d) == s.deliveries[d].outcomes;
    assert Wrote(r.state, d) == r.state.deliveries[d].wrotePassword && Wrote(s, d) == s.deliveries[d].wrotePassword;
  }

  /** No delivery is dropped, and only those made for `grant` change. */
  ghost predicate OnlyOf(s: State, t: State, grant: Id) {
    && |t.deliveries| == |s.deliveries| && t.deliveryOf == s.deliveryOf
    && forall d: nat | d < |s.deliveries| ::
         && SameDelivery(s.deliveries[d], t.deliveries[d])
         && (s.deliveries[d].grant != grant ==> t.deliveries[d] == s.deliveries[d])
  }

  lemma RedeemingIsQuiet(s: State, sender: Sender, grant: Id, visible: bool, found: Found)
    requires s.Refs() && sender.tab.Some?
    ensures OnlyOf(s, RedeemArrived(s, sender, grant, visible, found).state, grant)
  {
  }

  lemma ReportingIsQuiet(s: State, sender: Sender, grant: Id, claimed: set<Field>, failure: Option<Failure>)
    requires s.Refs() && sender.tab.Some?
    ensures OnlyOf(s, OutcomeArrived(s, sender, grant, claimed, failure).state, grant)
  {
  }

  /** What a script says changes only a delivery of its grant, and keeps all held. */
  lemma SpokenIsQuiet(s: State, e: Event)
    requires s.Refs() && Enabled(s, e) && (e.RedeemMessage? || e.OutcomeMessage?)
    ensures OnlyOf(s, Step(s, e).state, e.grant)
  {
    if e.RedeemMessage? {
      RedeemingIsQuiet(s, e.sender, e.grant, e.visible, e.found);
    } else {
      ReportingIsQuiet(s, e.sender, e.grant, e.claimed, e.failure);
    }
  }

  /** What the script's own message does to its delivery, if that is the only one of its grant. */
  lemma SpokenOutcome(s: State, e: Event, d: nat)
    requires s.Refs() && Enabled(s, e) && FromDocument(s, e, d) && Sole(s, d)
    ensures var before, after := s.deliveries[d], Step(s, e).state.deliveries[d];
            if e.RedeemMessage? then
              && (RedeemTaken(s, e.sender, e.grant) <==> Held(s, d) && !before.asked)
              && after == if RedeemTaken(s, e.sender, e.grant) then before.(asked := true) else before
            else
              && (OutcomeTaken(s, e.sender, e.grant, e.failure) <==>
                    Held(s, d) && if e.failure == Some(Unmasked)
                                  then before.outcomes == 1 && before.wrotePassword.Some? else before.outcomes == 0)
              && after == if !OutcomeTaken(s, e.sender, e.grant, e.failure) then before
                          else if e.failure == Some(Unmasked) then before.(outcomes := before.outcomes + 1)
                          else before.(outcomes := before.outcomes + 1, wrotePassword := PasswordIn(e.claimed))
  {
    HeldUnderItsGrant(s, d);
    assert e.grant in s.deliveryOf ==> s.deliveryOf[e.grant] == d;
  }

  lemma QuietKeepsScript(s: State, t: State, d: nat, script: Script)
    requires d < |s.deliveries| <= |t.deliveries| && Quiet(s, t, d) && ScriptInv(s, d, script)
    ensures ScriptInv(t, d, script)
  {
  }

  lemma CountedBeforeWritten(w: World)
    requires OutcomesCounted(w.state, w.log)
    ensures forall d: nat :: Outcomes(w.state, d) == 0 ==> Wrote(w.state, d).None?
  {
    forall d: nat
      ensures Outcomes(w.state, d) == 0 ==> Wrote(w.state, d).None?
    {
      assert OutcomesCountedFor(w.state, w.log, d);
    }
  }

  /** A delivery that is made now has counted nothing but what the worker told at once. */
  lemma NewDeliveryWroteNothing(s: State, e: Event, d: nat)
    requires s.Refs() && Enabled(s, e) && |s.deliveries| <= d < |Step(s, e).state.deliveries|
    ensures Step(s, e).state.deliveries[d].wrotePassword.None?
  {
    if e.PushDeliver? {
      DeliverShape(s, e.id, e.grant, e.now);
    } else {
      OtherMapsShrink(s, e);
    }
  }

  lemma OtherKeepsScript(x: Delivering, e: Event, x': Delivering, d: nat)
    requires DeliveringInv(x, d) && DeliveringNext(x, e, Other, x')
    ensures ScriptInv(x'.world.state, d, x'.ScriptOf(d))
  {
    var s, t := x.world.state, x'.world.state;
    if d < |s.deliveries| {
      CountedBeforeWritten(x.world);
      OtherIsQuiet(s, e, d);
      QuietKeepsScript(s, t, d, x.ScriptOf(d));
    } else if d < |t.deliveries| {
      NewDeliveryWroteNothing(s, e, d);
    }
  }

  lemma MoverKeepsScript(x: Delivering, e: Event, who: Mover, x': Delivering, d: nat)
    requires DeliveringInv(x, d) && DeliveringNext(x, e, who, x') && !who.Other? && Sole(x.world.state, d)
    ensures ScriptInv(x'.world.state, d, x'.ScriptOf(d))
  {
    var s, t := x.world.state, x'.world.state;
    SpokenIsQuiet(s, e);
    if d == who.d {
      SpokenOutcome(s, e, d);
    } else if d < |s.deliveries| {
      assert s.deliveries[who.d].grant != s.deliveries[d].grant;
    }
  }

  lemma DeliveringKeepsInv(x: Delivering, e: Event, who: Mover, x': Delivering, d: nat)
    requires DeliveringInv(x, d) && DeliveringNext(x, e, who, x') && Sole(x.world.state, d)
    ensures DeliveringInv(x', d)
  {
    KeepsInv(x.world, e);
    if who.Other? {
      OtherKeepsScript(x, e, x', d);
    } else {
      MoverKeepsScript(x, e, who, x', d);
    }
  }

  lemma SoleBefore(s: State, e: Event, d: nat)
    requires s.Refs() && Enabled(s, e) && Sole(Step(s, e).state, d)
    ensures Sole(s, d)
  {
    StepRedeems(s, e);
    var t := Step(s, e).state;
    forall c: nat | c < |s.deliveries| && d < |s.deliveries| && c != d
      ensures s.deliveries[c].grant != s.deliveries[d].grant
    {
      assert SameDelivery(s.deliveries[c], t.deliveries[c]) && SameDelivery(s.deliveries[d], t.deliveries[d]);
    }
  }

  lemma StartsWithInv(d: nat)
    ensures DeliveringInv(Delivering(World(EMPTY, []), map[]), d)
  {
  }

  /** What the stage of a script says of its delivery holds over every run, if no other was made for its grant. */
  lemma {:induction false} DeliveringRunKeepsInv(xs: seq<Delivering>, events: seq<Event>, movers: seq<Mover>,
                                                 i: nat, d: nat)
    requires DeliveringRun(xs, events, movers) && i < |xs| && Sole(xs[i].world.state, d)
    ensures DeliveringInv(xs[i], d)
  {
    if i == 0 {
      StartsWithInv(d);
    } else {
      assert DeliveringNext(xs[i - 1], events[i - 1], movers[i - 1], xs[i]);
      SoleBefore(xs[i - 1].world.state, events[i - 1], d);
      DeliveringRunKeepsInv(xs, events, movers, i - 1, d);
      DeliveringKeepsInv(xs[i - 1], events[i - 1], movers[i - 1], xs[i], d);
    }
  }

  /**
   * After any run, the worker takes the first report of a script whose grant was pushed for no other
   * delivery exactly when it still holds the delivery and has not given up on it; once the grant was
   * redeemed in time, it no longer gives up.
   */
  lemma FirstReportTaken(xs: seq<Delivering>, events: seq<Event>, movers: seq<Mover>,
                         e: Event, who: Mover, next: Delivering)
    requires DeliveringRun(xs, events, movers) && who.Reports? && DeliveringNext(xs[|events|], e, who, next)
    requires Sole(xs[|events|].world.state, who.d)
    ensures var s, d := xs[|events|].world.state, who.d;
            && (OutcomeTaken(s, e.sender, e.grant, e.failure) <==> Held(s, d) && s.deliveries[d].outcomes == 0)
            && (xs[|events|].ScriptOf(d) == Redeemed(false) ==> s.deliveries[d].outcomes == 0)
  {
    DeliveringRunKeepsInv(xs, events, movers, |events|, who.d);
    SpokenOutcome(xs[|events|].world.state, e, who.d);
  }

  /**
   * After any run, a tripped script whose grant was pushed for no other delivery is heard exactly
   * when its first report was taken and the delivery is still held, and the app is then told which
   * password was cleared.
   */
  lemma TripwireHeard(xs: seq<Delivering>, events: seq<Event>, movers: seq<Mover>,
                      e: Event, who: Mover, next: Delivering)
    requires DeliveringRun(xs, events, movers) && who.Trips? && DeliveringNext(xs[|events|], e, who, next)
    requires Sole(xs[|events|].world.state, who.d)
    ensures var s, d, script := xs[|events|].world.state, who.d, xs[|events|].ScriptOf(who.d);
            && (OutcomeTaken(s, e.sender, e.grant, e.failure) <==> script.taken && Held(s, d))
            && (script.taken && Held(s, d) ==>
                  Step(s, e).said == Some(FillOutcome(d, e.grant, {script.watched.value}, Some(Unmasked))))
  {
    DeliveringRunKeepsInv(xs, events, movers, |events|, who.d);
    var s, d := xs[|events|].world.state, who.d;
    SpokenOutcome(s, e, d);
    HeldUnderItsGrant(s, d);
  }

  // ---- When a grant has one delivery ----

  /** A step makes one delivery at most, and keeps what grant each was made for. */
  ghost predicate GrantsStep(s: State, t: State) {
    && |s.deliveries| <= |t.deliveries| <= |s.deliveries| + 1
    && forall d: nat | d < |s.deliveries| :: t.deliveries[d].grant == s.deliveries[d].grant
  }

  lemma StepGrants(s: State, e: Event)
    requires s.Refs() && Enabled(s, e)
    ensures GrantsStep(s, Step(s, e).state)
  {
    StepRedeems(s, e);
    if e.PushDeliver? {
      DeliverShape(s, e.id, e.grant, e.now);
    } else {
      OtherMapsShrink(s, e);
    }
  }

  /** The states of a run, from one without deliveries on. */
  ghost predicate GrantsRun(ss: seq<State>) {
    && ss != [] && ss[0].deliveries == []
    && forall i | 0 <= i < |ss| - 1 :: GrantsStep(ss[i], ss[i + 1])
  }

  function States(xs: seq<Delivering>): (ss: seq<State>) {
    seq(|xs|, i requires 0 <= i < |xs| => xs[i].world.state)
  }

  lemma RunGrants(xs: seq<Delivering>, events: seq<Event>, movers: seq<Mover>)
    requires DeliveringRun(xs, events, movers)
    ensures GrantsRun(States(xs))
  {
    var ss := States(xs);
    forall i | 0 <= i < |ss| - 1
      ensures GrantsStep(ss[i], ss[i + 1])
    {
      assert DeliveringNext(xs[i], events[i], movers[i], xs[i + 1]);
      StepGrants(ss[i], events[i]);
    }
  }

  /** The step after `m` others makes a delivery for `grant`. */
  ghost predicate Accepts(ss: seq<State>, m: nat, grant: Id) {
    && m + 1 < |ss| && |ss[m + 1].deliveries| > |ss[m].deliveries|
    && ss[m + 1].deliveries[|ss[m].deliveries|].grant == grant
  }

  lemma {:induction false} GrantKept(ss: seq<State>, i: nat, j: nat, d: nat)
    requires GrantsRun(ss) && i <= j < |ss| && d < |ss[i].deliveries|
    ensures d < |ss[j].deliveries| && ss[j].deliveries[d].grant == ss[i].deliveries[d].grant
  {
    if i < j {
      GrantKept(ss, i, j - 1, d);
      assert GrantsStep(ss[j - 1], ss[j - 1 + 1]);
    }
  }

  /** Every delivery was made by a step of its own, for its grant. */
  lemma {:induction false} DeliveryMade(ss: seq<State>, n: nat, d: nat) returns (m: nat)
    requires GrantsRun(ss) && n < |ss| && d < |ss[n].deliveries|
    ensures m < n && |ss[m].deliveries| == d && Accepts(ss, m, ss[n].deliveries[d].grant)
  {
    assert GrantsStep(ss[n - 1], ss[n - 1 + 1]);
    if d < |ss[n - 1].deliveries| {
      m := DeliveryMade(ss, n - 1, d);
    } else {
      m := n - 1;
    }
  }

  /** A delivery is the only one of its grant exactly when the run accepted that grant only when it made it. */
  lemma SoleExactly(xs: seq<Delivering>, events: seq<Event>, movers: seq<Mover>, d: nat)
    requires DeliveringRun(xs, events, movers) && d < |xs[|events|].world.state.deliveries|
    ensures var s, ss := xs[|events|].world.state, States(xs);
            Sole(s, d) <==> forall m: nat | Accepts(ss, m, s.deliveries[d].grant) :: |ss[m].deliveries| == d
  {
    var s, ss, n := xs[|events|].world.state, States(xs), |events|;
    RunGrants(xs, events, movers);
    if Sole(s, d) {
      forall m: nat | Accepts(ss, m, s.deliveries[d].grant)
        ensures |ss[m].deliveries| == d
      {
        GrantKept(ss, m + 1, n, |ss[m].deliveries|);
      }
    } else {
      var c: nat :| c < |s.deliveries| && c != d && s.deliveries[c].grant == s.deliveries[d].grant;
      var m := DeliveryMade(ss, n, c);
    }
  }

  /** Of several deliveries for one grant, the grant leads to the last. */
  ghost predicate GrantsLatest(s: State) {
    forall d: nat | d < |s.deliveries| && s.deliveries[d].grant in s.deliveryOf ::
      d <= s.deliveryOf[s.deliveries[d].grant]
  }

  lemma NewGrantIsNamed(s: State, id: Id, grant: Id, now: int)
    requires s.Refs() && grant !in s.deliveryOf
    ensures var t := DeliverNew(s, id, grant, now).state;
            grant in t.deliveryOf && t.deliveryOf[grant] == |s.deliveries|
  {
  }

  lemma PushedGrantIsNamed(s: State, id: Id, grant: Id, now: int)
    requires s.Refs()
    ensures var t := Deliver(s, id, grant, now).state;
            t.deliveries != s.deliveries ==> grant in t.deliveryOf && t.deliveryOf[grant] == |s.deliveries|
  {
    var t := Pruned(s, now);
    if IsOpaqueId(id) && IsOpaqueId(grant) && grant !in t.deliveryOf {
      NewGrantIsNamed(t, id, grant, now);
    }
  }

  /** Entries are kept or dropped, but for the one of the grant of a new delivery. */
  lemma LatestKept(s: State, t: State)
    requires GrantsLatest(s) && GrantsStep(s, t)
    requires forall k | k in t.deliveryOf ::
               (k in s.deliveryOf && t.deliveryOf[k] == s.deliveryOf[k]) || t.deliveryOf[k] == |s.deliveries|
    requires |t.deliveries| > |s.deliveries| ==>
               var grant := t.deliveries[|s.deliveries|].grant;
               grant in t.deliveryOf && t.deliveryOf[grant] == |s.deliveries|
    ensures GrantsLatest(t)
  {
  }

  lemma KeepsGrantsLatest(s: State, e: Event)
    requires s.Refs() && Enabled(s, e) && GrantsLatest(s)
    ensures GrantsLatest(Step(s, e).state)
  {
    var t := Step(s, e).state;
    StepGrants(s, e);
    if e.PushDeliver? {
      DeliverShape(s, e.id, e.grant, e.now);
      PushedGrantIsNamed(s, e.id, e.grant, e.now);
    } else {
      OtherMapsShrink(s, e);
    }
    LatestKept(s, t);
  }

  lemma {:induction false} RunGrantsLatest(xs: seq<Delivering>, events: seq<Event>, movers: seq<Mover>, i: nat)
    requires DeliveringRun(xs, events, movers) && i < |xs|
    ensures GrantsLatest(xs[i].world.state)
  {
    if i > 0 {
      RunGrantsLatest(xs, events, movers, i - 1);
      assert DeliveringNext(xs[i - 1], events[i - 1], movers[i - 1], xs[i]);
      KeepsGrantsLatest(xs[i - 1].world.state, events[i - 1]);
    }
  }

  /**
   * In any run, what the script of a delivery says is taken for another delivery only after its grant
   * was accepted again, and by then its own delivery had been dropped.
   */
  lemma MisheardWhenReused(xs: seq<Delivering>, events: seq<Event>, movers: seq<Mover>,
                           e: Event, who: Mover, next: Delivering) returns (m: nat)
    requires DeliveringRun(xs, events, movers) && DeliveringNext(xs[|events|], e, who, next) && !who.Other?
    requires var s := xs[|events|].world.state; SpeaksFor(s, e) && s.deliveryOf[e.grant] != who.d
    ensures m < |events| && who.d < |xs[m].world.state.deliveries| && Accepts(States(xs), m, e.grant)
    ensures !Held(xs[|events|].world.state, who.d)
  {
    var s := xs[|events|].world.state;
    HeldUnderItsGrant(s, who.d);
    RunGrantsLatest(xs, events, movers, |events|);
    RunGrants(xs, events, movers);
    m := DeliveryMade(States(xs), |events|, s.deliveryOf[e.grant]);
  }

  /**
   * Giving up does not withdraw the grant: it can then be redeemed by the very senders that could
   * redeem it before, which are none exactly when the delivery was to no tab.
   */
  lemma GivingUpKeepsGrant(s: State, d: nat)
    requires s.Refs() && d < |s.deliveries| && Held(s, d)
    requires !s.deliveries[d].asked && s.deliveries[d].outcomes == 0
    ensures var r, delivery := DeliverUnanswered(s, d), s.deliveries[d];
            && r.said == Some(FillOutcome(d, delivery.grant, {}, Some(FormChanged)))
            && (forall sender :: RedeemTaken(r.state, sender, delivery.grant) <==> IsDeliveryTarget(delivery, sender))
            && ((forall sender :: !RedeemTaken(r.state, sender, delivery.grant)) <==> delivery.tabId.None?)
  {
    HeldUnderItsGrant(s, d);
    var delivery := s.deliveries[d];
    var reached := Sender(delivery.tabId, 0, delivery.documentId, true, None);
    assert IsDeliveryTarget(delivery, reached) <==> delivery.tabId.Some?;
    var r := DeliverUnanswered(s, d);
    assert r.state.deliveries[d] == delivery.(waiting := false, outcomes := 1);
  }

  // What reusing a grant costs: its delivery is dropped once its time is over, and when the grant is pushed again the
  // script of the first delivery, still there, speaks for the second.

  const SCRIPT := Sender(Some(7), 0, None, true, Some("https://a.example"))
  const FOUND := Found(true, true, false, false, false)
  const A := Probe("a", Some(7), 0, true, None, Asked)
  const B := Probe("b", Some(7), 61_002, true, None, Asked)
  const FIRST := Delivery("g", Some(0), Some(7), None, 1, true, 0, None, true)
  const SECOND := Delivery("g", Some(1), Some(7), None, 61_002, false, 0, None, true)

  function ReusedGrant(i: nat): State
    requires i <= 10
  {
    if i == 0 then EMPTY
    else if i == 1 then State([A.(tabId := None, reported := false, stage := Choosing)], map["a" := 0], [], map[])
    else if i == 2 then State([A.(reported := false)], map["a" := 0], [], map[])
    else if i == 3 then State([A], map["a" := 0], [], map[])
    else if i == 4 then State([A], map[], [FIRST.(asked := false)], map["g" := 0])
    else if i == 5 then State([A], map[], [FIRST], map["g" := 0])
    else if i == 6 then
      State([A, B.(tabId := None, reported := false, stage := Choosing)], map["b" := 1], [FIRST], map[])
    else if i == 7 then State([A, B.(reported := false)], map["b" := 1], [FIRST], map[])
    else if i == 8 then State([A, B], map["b" := 1], [FIRST], map[])
    else if i == 9 then State([A, B], map[], [FIRST, SECOND], map["g" := 1])
    else State([A, B], map[], [FIRST, SECOND.(outcomes := 1, wrotePassword := Some(Password))], map["g" := 1])
  }

  function ReusedGrantEvent(i: nat): Event
    requires i < 10
  {
    if i == 0 then PushLocate("a", 0)
    else if i == 1 then TabFound(0, Some(7))
    else if i == 2 then ReportMessage(SCRIPT, "a", true, FOUND, 1)
    else if i == 3 then PushDeliver("a", "g", 1)
    else if i == 4 then RedeemMessage(SCRIPT, "g", true, FOUND)
    else if i == 5 then PushLocate("b", 61_002)
    else if i == 6 then TabFound(1, Some(7))
    else if i == 7 then ReportMessage(SCRIPT, "b", true, FOUND, 61_002)
    else if i == 8 then PushDeliver("b", "g", 61_002)
    else OutcomeMessage(SCRIPT, "g", {Password}, None)
  }

  lemma ReusedGrantRefs(i: nat)
    requires i <= 10
    ensures ReusedGrant(i).Refs()
  {
  }

  lemma FirstGrantLocates()
    requires ReusedGrant(0).Refs()
    ensures Locate(ReusedGrant(0), "a", 0) == Silent(ReusedGrant(1))
  {
    assert Pruned(ReusedGrant(0), 0) == ReusedGrant(0);
  }

  lemma SecondGrantLocates()
    requires ReusedGrant(5).Refs()
    ensures Locate(ReusedGrant(5), "b", 61_002) == Silent(ReusedGrant(6))
  {
    assert Pruned(ReusedGrant(5), 61_002) == ReusedGrant(5).(deliveryOf := map[]);
  }

  lemma ReusedGrantTabs()
    requires ReusedGrant(1).Refs() && ReusedGrant(6).Refs()
    ensures TabChosen(ReusedGrant(1), 0, Some(7)) == Silent(ReusedGrant(2))
    ensures TabChosen(ReusedGrant(6), 1, Some(7)) == Silent(ReusedGrant(7))
  {
  }

  lemma FirstGrantReports()
    requires ReusedGrant(2).Refs()
    ensures ReportArrived(ReusedGrant(2), SCRIPT, "a", true, FOUND, 1).state == ReusedGrant(3)
  {
  }

  lemma SecondGrantReports()
    requires ReusedGrant(7).Refs()
    ensures ReportArrived(ReusedGrant(7), SCRIPT, "b", true, FOUND, 61_002).state == ReusedGrant(8)
  {
  }

  lemma FirstGrantDelivers()
    requires ReusedGrant(3).Refs()
    ensures Deliver(ReusedGrant(3), "a", "g", 1) == Silent(ReusedGrant(4))
  {
    var s := ReusedGrant(3);
    assert Pruned(s, 1) == s && s.probeOf - {"a"} == map[];
    assert NewDelivery(s, "a", "g", 1) == FIRST.(asked := false);
    assert Started(s, "a", "g", 1) == ReusedGrant(4);
  }

  lemma SecondGrantDelivers()
    requires ReusedGrant(8).Refs()
    ensures Deliver(ReusedGrant(8), "b", "g", 61_002) == Silent(ReusedGrant(9))
  {
    assert Pruned(ReusedGrant(8), 61_002) == ReusedGrant(8);
    SecondGrantStarts();
  }

  lemma SecondGrantStarts()
    requires ReusedGrant(8).Refs()
    ensures NewDelivery(ReusedGrant(8), "b", "g", 61_002) == SECOND
    ensures Started(ReusedGrant(8), "b", "g", 61_002) == ReusedGrant(9)
  {
    assert ReusedGrant(8).probeOf - {"b"} == map[];
  }

  lemma ReusedGrantRedeems()
    requires ReusedGrant(4).Refs()
    ensures RedeemArrived(ReusedGrant(4), SCRIPT, "g", true, FOUND).state == ReusedGrant(5)
  {
  }

  lemma ReusedGrantMisleads()
    requires ReusedGrant(9).Refs()
    ensures OutcomeArrived(ReusedGrant(9), SCRIPT, "g", {Password}, None)
         == Reaction(ReusedGrant(10), Some(FillOutcome(1, "g", {Password}, None)))
  {
  }

  lemma ReusedGrantStep(i: nat)
    requires i < 10
    ensures var s, e := ReusedGrant(i), ReusedGrantEvent(i);
            s.Refs() && Enabled(s, e) && Step(s, e).state == ReusedGrant(i + 1)
  {
    ReusedGrantRefs(i);
    if i == 0 {
      FirstGrantLocates();
    } else if i == 5 {
      SecondGrantLocates();
    } else if i == 1 || i == 6 {
      ReusedGrantRefs(6);
      ReusedGrantTabs();
    } else if i == 2 {
      FirstGrantReports();
    } else if i == 7 {
      SecondGrantReports();
    } else if i == 3 {
      FirstGrantDelivers();
    } else if i == 8 {
      SecondGrantDelivers();
    } else if i == 4 {
      ReusedGrantRedeems();
    } else {
      ReusedGrantMisleads();
    }
  }

  lemma ExtendDeliveringRun(xs: seq<Delivering>, events: seq<Event>, movers: seq<Mover>,
                            e: Event, who: Mover, next: Delivering)
    requires DeliveringRun(xs, events, movers) && DeliveringNext(xs[|events|], e, who, next)
    ensures DeliveringRun(xs + [next], events + [e], movers + [who])
  {
    var more, all, whose := xs + [next], events + [e], movers + [who];
    forall i | 0 <= i < |all|
      ensures DeliveringNext(more[i], all[i], whose[i], more[i + 1])
    {
      if i < |events| {
        assert DeliveringNext(xs[i], events[i], movers[i], xs[i + 1]);
      }
    }
  }

  /** The script of the first delivery redeems its grant, and reports what it wrote much later. */
  function ReusedGrantMover(i: nat): Mover {
    if i == 4 then Redeems(0, true) else if i == 9 then Reports(0) else Other
  }

  function ReusedGrantScripts(i: nat): map<nat, Script> {
    if i <= 4 then map[] else if i <= 9 then map[0 := Redeemed(false)] else map[0 := Reported(true, Some(Password))]
  }

  function ReusedGrantAt(i: nat, log: seq<Sent>): Delivering
    requires i <= 10
  {
    Delivering(World(ReusedGrant(i), log), ReusedGrantScripts(i))
  }

  lemma ReusedGrantOthers(i: nat, log: seq<Sent>)
    requires i < 10 && i != 4 && i != 9 && ReusedGrant(i).Refs() && Enabled(ReusedGrant(i), ReusedGrantEvent(i))
    requires Step(ReusedGrant(i), ReusedGrantEvent(i)).state == ReusedGrant(i + 1)
    ensures var log' := Next(World(ReusedGrant(i), log), ReusedGrantEvent(i)).log;
            DeliveringNext(ReusedGrantAt(i, log), ReusedGrantEvent(i), Other, ReusedGrantAt(i + 1, log'))
  {
    assert !SpeaksFor(ReusedGrant(i), ReusedGrantEvent(i));
  }

  lemma ReusedGrantSpoken(i: nat, log: seq<Sent>)
    requires (i == 4 || i == 9) && ReusedGrant(i).Refs() && Enabled(ReusedGrant(i), ReusedGrantEvent(i))
    requires Step(ReusedGrant(i), ReusedGrantEvent(i)).state == ReusedGrant(i + 1)
    ensures var log' := Next(World(ReusedGrant(i), log), ReusedGrantEvent(i)).log;
            DeliveringNext(ReusedGrantAt(i, log), ReusedGrantEvent(i), ReusedGrantMover(i), ReusedGrantAt(i + 1, log'))
  {
    if i == 4 {
      assert RedeemTaken(ReusedGrant(4), SCRIPT, "g");
    } else {
      ReusedGrantMisleads();
    }
  }

  lemma ReusedGrantNext(i: nat, log: seq<Sent>) returns (log': seq<Sent>)
    requires i < 10
    ensures DeliveringNext(ReusedGrantAt(i, log), ReusedGrantEvent(i), ReusedGrantMover(i), ReusedGrantAt(i + 1, log'))
    ensures i == 9 ==> log' == log + [FillOutcome(1, "g", {Password}, None)]
  {
    ReusedGrantStep(i);
    log' := Next(World(ReusedGrant(i), log), ReusedGrantEvent(i)).log;
    if i == 9 {
      ReusedGrantMisleads();
    }
    if i == 4 || i == 9 {
      ReusedGrantSpoken(i, log);
    } else {
      ReusedGrantOthers(i, log);
    }
  }

  /** The run of those events, up to the `n`-th. */
  lemma {:induction false} ReusedGrantRun(n: nat)
    returns (xs: seq<Delivering>, events: seq<Event>, movers: seq<Mover>, log: seq<Sent>)
    requires n <= 10
    ensures DeliveringRun(xs, events, movers) && |events| == n
    ensures xs[n] == ReusedGrantAt(n, log)
    ensures n == 10 ==> movers[9] == Reports(0) && FillOutcome(1, "g", {Password}, None) in log
  {
    if n == 0 {
      xs, events, movers, log := [Delivering(World(EMPTY, []), map[])], [], [], [];
    } else {
      var before;
      xs, events, movers, before := ReusedGrantRun(n - 1);
      log := ReusedGrantNext(n - 1, before);
      var e, who := ReusedGrantEvent(n - 1), ReusedGrantMover(n - 1);
      var next := ReusedGrantAt(n, log);
      ExtendDeliveringRun(xs, events, movers, e, who, next);
      xs, events, movers := xs + [next], events + [e], movers + [who];
    }
  }

  /**
   * A run in which a grant is pushed again: the script of the first delivery makes the worker tell
   * the app that the second delivery wrote a password, which nobody has asked for yet, and what the
   * second one's script reports is then refused.
   */
  lemma ReusedGrantCostsReport() returns (xs: seq<Delivering>, events: seq<Event>, movers: seq<Mover>)
    ensures DeliveringRun(xs, events, movers) && |movers| == 10 && movers[9] == Reports(0)
    ensures var s, log := xs[|events|].world.state, xs[|events|].world.log;
            && s.Refs() && |s.deliveries| == 2 && Held(s, 1) && !s.deliveries[1].asked && s.deliveries[1].waiting
            && FillOutcome(1, "g", {Password}, None) in log && IsDeliveryTarget(s.deliveries[1], SCRIPT)
            && forall failure: Option<Failure> | failure != Some(Unmasked) :: !OutcomeTaken(s, SCRIPT, "g", failure)
  {
    var log;
    xs, events, movers, log := ReusedGrantRun(10);
    ReusedGrantRefs(10);
    assert ReusedGrant(10).deliveryOf["g"] == 1;
  }
}
