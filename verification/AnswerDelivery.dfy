/**
 * How the content script answers a delivery (content.js:833-878, 967-1032), slice by slice between
 * its awaits, against what a script may say to the worker.
 */
module AnswerDelivery {
  import opened Basics
  import opened AgentFill
  import opened AgentRuns
  import opened AgentDelivering
  import opened ContentScript

  /** What the script sends to the worker about its grant. */
  datatype Message = Redeem(visible: bool, found: Found) | Tell(written: set<Field>, failure: Option<Failure>)

  /** What comes back for a grant: a refusal, or the app's reply, if there is one. */
  datatype Answer = Refused | NoReply | Fill(reply: Reply) | Code(code: Option<string>) | SomethingElse

  /** Where the handler is: before its first await is over, waiting for one of its two messages, or at its end. */
  datatype Position = Detecting | AwaitingReply | AwaitingReport | Done

  /** The event that a message of the script's becomes at the worker. */
  predicate Carries(e: Event, m: Message, grant: Id) {
    match m
    case Redeem(visible, found) => e.RedeemMessage? && e.grant == grant && e.visible == visible && e.found == found
    case Tell(written, failure) =>
      e.OutcomeMessage? && e.grant == grant && e.claimed == written && e.failure == failure
  }

  /** Whose move it is in the run of the worker and its scripts. */
  function MoverOf(m: Message, d: nat, ok: bool): Mover {
    match m
    case Redeem(_, _) => Redeems(d, ok)
    case Tell(_, failure) => if failure == Some(Unmasked) then Trips(d) else Reports(d)
  }

  /** Which fields of the target a value could be written into now. */
  function FoundIn(dom: Dom, t: Target): Found {
    var signUp := t.kind == Signup && t.passwords != []
                  && forall i | 0 <= i < |t.passwords| :: StillWritable(dom, Some(t.passwords[i]), true);
    Found(t.kind != Signup && StillWritable(dom, t.username, false),
          t.kind == Login && StillWritable(dom, t.password, true),
          StillWritable(dom, t.code, false), signUp, signUp && StillWritable(dom, t.username, false))
  }

  /** What is found is what could be filled: each flag says whether a fill of that one value would write it. */
  lemma FoundIsFillable(p: Window, t: Target, value: string)
    ensures var found := FoundIn(p.dom, t);
            && (found.username <==>
                  Filled(p, Reply(Some(value), None, None), Some(t), true).page.writes != p.writes)
            && (found.password <==>
                  Filled(p, Reply(None, Some(value), None), Some(t), true).page.writes != p.writes)
            && (found.oneTimeCode && p.dom.code == t.code <==>
                  CodeWritten(p, Some(value), Some(t)).page.writes != p.writes)
  {
    CodeExactly(p, Some(value), Some(t));
    if t.kind == Signup {
      SignupGoesAheadExactly(p, Reply(Some(value), None, None), t);
      SignupGoesAheadExactly(p, Reply(None, Some(value), None), t);
    } else {
      LoginGoesAhead(p, Reply(Some(value), None, None), t);
      LoginGoesAhead(p, Reply(None, Some(value), None), t);
    }
    var after := CodeWritten(p, Some(value), Some(t)).page.writes;
    assert |Pairs(after)| == |after| && |Pairs(p.writes)| == |p.writes|;
  }

  /** And while the detector still finds the target's form, a sign-up is found exactly as it could be filled, without a
    * user name and with one. */
  lemma FoundIsSignup(p: Window, t: Target, name: string, password: string)
    requires p.dom.signup == Some(SignupForm(t.username, t.passwords))
    ensures var found := FoundIn(p.dom, t);
            && (found.signUp <==>
                  Filled(p, Reply(None, None, Some(password)), Some(t), true).page.writes != p.writes)
            && (found.signUpUsername <==>
                  Filled(p, Reply(Some(name), None, Some(password)), Some(t), true).page.writes != p.writes)
  {
    SignupGoesAheadExactly(p, Reply(None, None, Some(password)), t);
    SignupGoesAheadExactly(p, Reply(Some(name), None, Some(password)), t);
  }

  /** What is written for an answer that is no refusal. */
  function Applied(p: Window, answer: Answer, target: Option<Target>): Outcome {
    match answer
    case Fill(reply) => Filled(p, reply, target, true)
    case Code(code) => CodeWritten(p, code, target)
    case _ => Outcome(p, [], Some(NotWritable))
  }

  function Names(written: seq<Field>): set<Field> {
    set name | name in written
  }

  /** What is reported of it is no tripwire's report, names one kind of password at most, and says what is watched. */
  lemma AppliedIsFirstReport(p: Window, answer: Answer, t: Target)
    ensures var o := Applied(p, answer, Some(t));
            && o.failure != Some(Unmasked)
            && !(Password in o.written && NewPassword in o.written)
            && (WatchOf(o.written, t) != [] <==> Watched(Names(o.written)).Some?)
            && (answer.Refused? || answer.NoReply? || answer.SomethingElse? ==>
                  o.page == p && o.written == [] && o.failure == Some(NotWritable))
  {
    if answer.Fill? {
      WrittenWasAskedFor(p, answer.reply, Some(t), true);
    }
  }

  /** The handler of one delivery, and its tripwires, which outlive it. */
  class Answering {
    const document: Document
    const grant: Id
    ghost const d: nat
    var position: Position
    var target: Option<Target>
    var wires: Tripwires?
    /** The password the wires are about. */
    var watched: Field
    /** The worker was sent the tripwires' report. */
    var unmasked: bool
    /** How far the script has come as the worker can know it, and the message that is yet to arrive there. */
    ghost var script: Script
    ghost var underway: Option<Message>

    function Watching(): Option<Field>
      reads this
    {
      if wires == null then None else Some(watched)
    }

    /** The second report is sent once: as soon as the wires have tripped and the first report was answered. */
    ghost predicate Valid()
      reads this, document, wires
    {
      && (wires != null ==> wires.document == document && wires.Valid())
      && match position
         case Detecting => wires == null && !unmasked && script.Waiting? && underway.None?
         case AwaitingReply =>
           && wires == null && !unmasked && target.Some?
           && if underway.Some? then underway.value.Redeem? && script.Waiting? else script.Redeemed? || script.Over?
         case AwaitingReport =>
           && !unmasked
           && if underway.Some? then FirstReport(underway.value)
              else script.Reported? && script.watched == Watching()
         case Done =>
           && (wires != null ==> unmasked == wires.tripped) && (unmasked ==> wires != null)
           && if underway.Some? then
                && unmasked && underway.value == Tell({watched}, Some(Unmasked))
                && script.Reported? && script.watched == Watching()
              else if unmasked then script.Over?
              else (script.Over? && wires == null) || (script.Reported? && script.watched == Watching())
    }

    /** The message reports an outcome of this script, before any tripwire's. */
    ghost predicate FirstReport(m: Message)
      reads this
    {
      && m.Tell? && m.failure != Some(Unmasked) && Watched(m.written) == Watching()
      && !(Password in m.written && NewPassword in m.written)
      && (script.Redeemed? || (script.Waiting? && m.written == {}))
    }

    constructor (document: Document, grant: Id, ghost d: nat)
      ensures Valid() && position == Detecting
      ensures this.document == document && this.grant == grant && this.d == d
    {
      this.document, this.grant, this.d := document, grant, d;
      position, target, wires, watched, unmasked := Detecting, None, null, Password, false;
      script, underway := Waiting, None;
    }

    /** The page has been looked at; what is sent is the grant, or why it is of no use here. */
    method Detected(target: Option<Target>, visible: bool) returns (said: Message)
      requires Valid() && position == Detecting
      modifies this
      ensures Valid() && underway == Some(said) && script == old(script)
      ensures target.None? ==> said == Tell({}, Some(FormChanged))
      ensures target.Some? ==>
                var found := FoundIn(document.dom, target.value);
                said == if found.username || found.password || found.oneTimeCode || found.signUp
                        then Redeem(visible, found) else Tell({}, Some(NotWritable))
      ensures position == (if said.Redeem? then AwaitingReply else AwaitingReport) && this.target == target
    {
      this.target := target;
      if target.None? {
        said := Tell({}, Some(FormChanged));
      } else {
        var found := FoundIn(document.dom, target.value);
        if !found.username && !found.password && !found.oneTimeCode && !found.signUp {
          said := Tell({}, Some(NotWritable));
        } else {
          said := Redeem(visible, found);
        }
      }
      position := if said.Redeem? then AwaitingReply else AwaitingReport;
      underway := Some(said);
    }

    method Apply(answer: Answer) returns (written: seq<Field>, failure: Option<Failure>)
      requires !answer.Refused?
      modifies document
      ensures Outcome(document.State(), written, failure) == Applied(old(document.State()), answer, target)
    {
      match answer {
        case Fill(reply) => written, failure := document.ApplyFill(reply, target, true);
        case Code(code) => written, failure := document.ApplyAgentCode(code, target);
        case _ => written, failure := [], Some(NotWritable);
      }
    }

    /**
     * The app's reply is written, reported and watched in one turn. If it wrote a password and a
     * field of that password is no password input by then, all of them are emptied in this turn.
     */
    method ReplyArrived(answer: Answer) returns (said: Option<Message>)
      requires Valid() && position == AwaitingReply && underway.None? && (answer.Refused? <==> script.Over?)
      modifies this, document
      ensures Valid() && underway == said && script == old(script)
      ensures answer.Refused? ==> said.None? && position == Done && document.State() == old(document.State())
      ensures !answer.Refused? ==>
                var o := Applied(old(document.State()), answer, target);
                && position == AwaitingReport && said == Some(Tell(Names(o.written), o.failure))
                && target.Some? && Armed(o.page, WatchOf(o.written, target.value))
    {
      if answer.Refused? {
        position := Done;
        return None;
      }
      AppliedIsFirstReport(document.State(), answer, target.value);
      var written, failure := Apply(answer);
      said := Some(Tell(Names(written), failure));
      position, underway := AwaitingReport, said;
      watched := if NewPassword in written then NewPassword else Password;
      Arm(WatchOf(written, target.value));
    }

    /**
     * The wires watch these fields, and if one of them was no password input on `page`, all have been
     * emptied since.
     */
    ghost predicate Armed(page: Window, watch: seq<Element>)
      reads this, document, wires
    {
      if watch == [] then wires == null && document.State() == page
      else
        && wires != null && wires.watch == watch && |page.writes| <= |document.writes|
        && (wires.tripped <==> exists field :: field in watch && !IsPasswordInput(page.dom, field))
        && if !wires.tripped then document.State() == page
           else forall field | field in watch :: (field, "") in Pairs(document.writes)[|page.writes|..]
    }

    method Arm(watch: seq<Element>)
      requires wires == null
      modifies this`wires, document
      ensures Armed(old(document.State()), watch)
      ensures wires == null <==> watch == []
      ensures wires != null ==> fresh(wires) && wires.document == document && wires.Valid()
    {
      if watch != [] {
        wires := new Tripwires(document, watch);
      }
    }

    /** The worker has answered the first report: a trip that waited for it is told now. */
    method ReportAnswered() returns (said: Option<Message>)
      requires Valid() && position == AwaitingReport && underway.None?
      modifies this
      ensures Valid() && position == Done && underway == said && wires == old(wires)
      ensures said == if wires != null && wires.tripped then Some(Tell({watched}, Some(Unmasked))) else None
    {
      position := Done;
      unmasked := wires != null && wires.tripped;
      said := if unmasked then Some(Tell({watched}, Some(Unmasked))) else None;
      underway := said;
    }

    /** A wire looks at its field: the first trip is told at once if the first report was answered. */
    method WireLooks(i: nat) returns (said: Option<Message>)
      requires Valid() && wires != null && i < |wires.watch|
      modifies this, document, wires
      ensures Valid() && wires == old(wires) && position == old(position) && script == old(script)
      ensures said == if position == Done && wires.tripped && !old(wires.tripped)
                      then Some(Tell({watched}, Some(Unmasked))) else None
      ensures underway == if said.Some? then said else old(underway)
    {
      var before := wires.tripped;
      wires.Check(i);
      if position == Done && wires.tripped && !before {
        unmasked := true;
        said := Some(Tell({watched}, Some(Unmasked)));
        underway := said;
      } else {
        said := None;
      }
    }

    /** A wire's time is up, or the page is left. */
    method WireStops(i: nat)
      requires Valid() && wires != null && i < |wires.watch|
      modifies wires
      ensures Valid() && wires.tripped == old(wires.tripped)
    {
      wires.Stop(i);
    }

    /**
     * A message arrives at the worker, whatever state that is in: this is a move of the script in the
     * run of the worker and its scripts, which says nothing but what it may.
     */
    ghost method Arrives(s: State, e: Event, ok: bool)
      requires Valid() && underway.Some? && Carries(e, underway.value, grant)
      requires s.Refs() && FromDocument(s, e, d) && (ok ==> RedeemTaken(s, e.sender, e.grant))
      modifies this`script, this`underway
      ensures Valid() && underway.None?
      ensures ScriptMoves(s, old(script), e, MoverOf(old(underway).value, d, ok), script)
    {
      script := match underway.value
        case Redeem(_, _) => if ok then Redeemed(s.deliveries[d].outcomes > 0) else Over
        case Tell(written, failure) =>
          if failure == Some(Unmasked) then Over
          else Reported(OutcomeTaken(s, e.sender, e.grant, e.failure), Watched(written));
      underway := None;
    }
  }
}
