/** What the content script writes into a page (extensions/shared/content.js:412-560, 873-946). Writing into a field
  * dispatches events, so the page's own handlers run before the write is over, and may change anything. */
module ContentScript {
  import opened Basics
  import opened AgentFill

  type Element = nat

  /** `usable` is what the detectors ask of a field: visible, enabled, not read-only. */
  datatype Properties = Properties(connected: bool, isPassword: bool, usable: bool, value: string)

  /** The sign-up form the detector finds. */
  datatype SignupForm = SignupForm(username: Option<Element>, passwords: seq<Element>)

  /** A document, and what the detectors find in it. */
  datatype Dom = Dom(elements: map<Element, Properties>, signup: Option<SignupForm>, code: Option<Element>)

  /** What the page makes of one write: it leaves the document like this, or an exception ends the write. */
  datatype Reaction = Reacts(after: Dom) | Throws(after: Dom)

  /** One write, whether the field was a password input when the value went in, and whether it held the value then. */
  datatype Write = Write(field: Element, value: string, intoPassword: bool, stuck: bool)

  /** The document, the reactions to come, and all writes so far; after the last reaction the page lets writes be. */
  datatype Window = Window(dom: Dom, reactions: seq<Reaction>, writes: seq<Write>)

  datatype TargetKind = Login | Signup | Identifier | CodeOnly

  datatype Target = Target(kind: TargetKind, username: Option<Element>, password: Option<Element>,
                           passwords: seq<Element>, code: Option<Element>)

  datatype Reply = Reply(username: Option<string>, password: Option<string>, newPassword: Option<string>)

  datatype Outcome = Outcome(page: Window, written: seq<Field>, failure: Option<Failure>)

  // ----- one write -----

  predicate IsPasswordInput(dom: Dom, field: Element) {
    field in dom.elements && dom.elements[field].isPassword
  }

  predicate StillWritable(dom: Dom, field: Option<Element>, mustBePassword: bool) {
    field.Some? && field.value in dom.elements && dom.elements[field.value].connected
    && (mustBePassword ==> IsPasswordInput(dom, field.value)) && dom.elements[field.value].usable
  }

  function Holding(dom: Dom, field: Element, value: string): Dom {
    if field in dom.elements then dom.(elements := dom.elements[field := dom.elements[field].(value := value)]) else dom
  }

  /** The document once the value went in and the page has reacted. */
  function After(p: Window, field: Element, value: string): Dom {
    if p.reactions == [] then Holding(p.dom, field, value) else p.reactions[0].after
  }

  /** The write was not ended by an exception, and the field holds the value after it. */
  predicate Sticks(p: Window, field: Element, value: string) {
    var after := After(p, field, value);
    (p.reactions == [] || p.reactions[0].Reacts?) && field in after.elements && after.elements[field].value == value
  }

  function WriteOf(p: Window, field: Element, value: string): Write {
    Write(field, value, IsPasswordInput(p.dom, field), Sticks(p, field, value))
  }

  /** The value goes in and the page reacts; whether the write stuck. */
  function Set(p: Window, field: Element, value: string): (Window, bool) {
    (Window(After(p, field, value), if p.reactions == [] then [] else p.reactions[1..],
            p.writes + [WriteOf(p, field, value)]),
     Sticks(p, field, value))
  }

  /** Writes one field and notes its name, or that the write was rejected. */
  function Noted(o: Outcome, field: Element, value: string, name: Field): Outcome {
    var (page, stuck) := Set(o.page, field, value);
    if stuck then Outcome(page, o.written + [name], o.failure)
    else Outcome(page, o.written, Some(if o.failure.Some? then o.failure.value else WriteRejected))
  }

  // ----- a fill -----

  function Filled(p: Window, reply: Reply, target: Option<Target>, whole: bool): Outcome {
    if target.None? then Outcome(p, [], Some(FormChanged))
    else if reply.newPassword.Some? || target.value.kind == Signup then SignedUp(p, reply, target.value)
    else LoggedIn(p, reply, target.value, whole)
  }

  predicate UsernameFits(dom: Dom, reply: Reply, t: Target) {
    reply.username.Some? ==> StillWritable(dom, t.username, false)
  }

  predicate PasswordFits(dom: Dom, reply: Reply, t: Target) {
    reply.password.Some? ==> t.kind == Login && StillWritable(dom, t.password, true)
  }

  function LoggedIn(p: Window, reply: Reply, t: Target, whole: bool): Outcome {
    if whole && !(UsernameFits(p.dom, reply, t) && PasswordFits(p.dom, reply, t)) then
      Outcome(p, [], Some(NotWritable))
    else
      var first := if reply.username.Some? && UsernameFits(p.dom, reply, t)
                   then Noted(Outcome(p, [], None), t.username.value, reply.username.value, Username)
                   else Outcome(p, [], None);
      if reply.password.Some? && PasswordFits(p.dom, reply, t)
      then Noted(first, t.password.value, reply.password.value, Password) else first
  }

  predicate SignupStillThere(dom: Dom, reply: Reply, t: Target) {
    dom.signup.Some? && t.passwords != [] && dom.signup.value.passwords == t.passwords
    && (reply.username.Some? ==> dom.signup.value.username == t.username)
  }

  predicate SignupFits(dom: Dom, reply: Reply, t: Target) {
    UsernameFits(dom, reply, t) && forall i | 0 <= i < |t.passwords| :: StillWritable(dom, Some(t.passwords[i]), true)
  }

  /** Writes every box; whether all writes stuck. */
  function SetAll(p: Window, boxes: seq<Element>, value: string): (Window, bool) {
    if boxes == [] then (p, true)
    else
      var (before, all) := SetAll(p, boxes[..|boxes| - 1], value);
      var (after, stuck) := Set(before, boxes[|boxes| - 1], value);
      (after, all && stuck)
  }

  /** The first write of a sign-up fill, if the reply has a user name. */
  function Named(p: Window, reply: Reply, t: Target): Outcome
    requires reply.username.Some? ==> t.username.Some?
  {
    if reply.username.Some? then Noted(Outcome(p, [], None), t.username.value, reply.username.value, Username)
    else Outcome(p, [], None)
  }

  function SignedUp(p: Window, reply: Reply, t: Target): Outcome {
    if t.kind != Signup || reply.newPassword.None? || reply.password.Some? then Outcome(p, [], Some(NotWritable))
    else if !SignupStillThere(p.dom, reply, t) then Outcome(p, [], Some(FormChanged))
    else if !SignupFits(p.dom, reply, t) then Outcome(p, [], Some(NotWritable))
    else
      var first := Named(p, reply, t);
      if first.failure.Some? then first
      else
        var (page, all) := SetAll(first.page, t.passwords, reply.newPassword.value);
        if all then Outcome(page, first.written + [NewPassword], None)
        else Outcome(page, first.written, Some(WriteRejected))
  }

  function CodeWritten(p: Window, code: Option<string>, target: Option<Target>): Outcome {
    if code.None? || target.None? || !StillWritable(p.dom, target.value.code, false) then
      Outcome(p, [], Some(NotWritable))
    else if p.dom.code != target.value.code then Outcome(p, [], Some(FormChanged))
    else
      Noted(Outcome(p, [], None), target.value.code.value, code.value, OneTimeCode)
  }

  // ----- the script -----

  /** The page as the script holds it. */
  class Document {
    var dom: Dom
    var reactions: seq<Reaction>
    ghost var writes: seq<Write>

    constructor (dom: Dom, reactions: seq<Reaction>)
      ensures this.dom == dom && this.reactions == reactions && writes == []
    {
      this.dom, this.reactions, writes := dom, reactions, [];
    }

    ghost function State(): Window
      reads this
    {
      Window(dom, reactions, writes)
    }

    method SetFieldValue(field: Element, value: string) returns (stuck: bool)
      modifies this
      ensures (State(), stuck) == Set(old(State()), field, value)
    {
      ghost var wasPassword := IsPasswordInput(dom, field);
      if reactions == [] {
        stuck := field in dom.elements;
        dom := Holding(dom, field, value);
      } else {
        var reaction := reactions[0];
        reactions := reactions[1..];
        dom := reaction.after;
        stuck := reaction.Reacts? && field in dom.elements && dom.elements[field].value == value;
      }
      writes := writes + [Write(field, value, wasPassword, stuck)];
    }

    method ApplyFill(reply: Reply, target: Option<Target>, whole: bool)
      returns (written: seq<Field>, failure: Option<Failure>)
      modifies this
      ensures Outcome(State(), written, failure) == Filled(old(State()), reply, target, whole)
    {
      written, failure := [], None;
      match target {
        case None => return [], Some(FormChanged);
        case Some(t) =>
          if reply.newPassword.Some? || t.kind == Signup {
            written, failure := ApplySignup(reply, t);
            return;
          }
          var usernameWritable := StillWritable(dom, t.username, false);
          var passwordWritable := t.kind == Login && StillWritable(dom, t.password, true);
          if whole && ((reply.username.Some? && !usernameWritable) || (reply.password.Some? && !passwordWritable)) {
            return [], Some(NotWritable);
          }
          if reply.username.Some? && usernameWritable {
            var stuck := SetFieldValue(t.username.value, reply.username.value);
            if stuck {
              written := written + [Username];
            } else {
              failure := Some(WriteRejected);
            }
          }
          if reply.password.Some? && passwordWritable {
            var stuck := SetFieldValue(t.password.value, reply.password.value);
            if stuck {
              written := written + [Password];
            } else {
              failure := Some(WriteRejected);
            }
          }
      }
    }

    /** Writes every box, also after one that did not stick. */
    method SetEvery(boxes: seq<Element>, value: string) returns (all: bool)
      modifies this
      ensures (State(), all) == SetAll(old(State()), boxes, value)
    {
      all := true;
      for i := 0 to |boxes|
        invariant (State(), all) == SetAll(old(State()), boxes[..i], value)
      {
        assert boxes[..i + 1][..i] == boxes[..i];
        var stuck := SetFieldValue(boxes[i], value);
        if !stuck {
          all := false;
        }
      }
      assert boxes[..|boxes|] == boxes;
    }

    method ApplySignup(reply: Reply, t: Target) returns (written: seq<Field>, failure: Option<Failure>)
      modifies this
      ensures Outcome(State(), written, failure) == SignedUp(old(State()), reply, t)
    {
      written, failure := [], None;
      if t.kind != Signup || reply.newPassword.None? || reply.password.Some? {
        return [], Some(NotWritable);
      }
      if !SignupStillThere(dom, reply, t) {
        return [], Some(FormChanged);
      }
      if !SignupFits(dom, reply, t) {
        return [], Some(NotWritable);
      }
      if reply.username.Some? {
        var stuck := SetFieldValue(t.username.value, reply.username.value);
        if !stuck {
          return [], Some(WriteRejected);
        }
        written := written + [Username];
      }
      var all := SetEvery(t.passwords, reply.newPassword.value);
      if all {
        written := written + [NewPassword];
      } else {
        failure := Some(WriteRejected);
      }
    }

    method ApplyAgentCode(code: Option<string>, target: Option<Target>)
      returns (written: seq<Field>, failure: Option<Failure>)
      modifies this
      ensures Outcome(State(), written, failure) == CodeWritten(old(State()), code, target)
    {
      if code.None? || target.None? || !StillWritable(dom, target.value.code, false) {
        return [], Some(NotWritable);
      }
      var field := target.value.code;
      if dom.code != field {
        return [], Some(FormChanged);
      }
      var stuck := SetFieldValue(field.value, code.value);
      if !stuck {
        return [], Some(WriteRejected);
      }
      return [OneTimeCode], None;
    }
  }

  // ----- what a fill does -----

  /** Which values went where. */
  function Pairs(writes: seq<Write>): (s: seq<(Element, string)>) {
    seq(|writes|, i requires 0 <= i < |writes| => (writes[i].field, writes[i].value))
  }

  lemma OnePairMore(writes: seq<Write>, w: Write)
    ensures Pairs(writes + [w]) == Pairs(writes) + [(w.field, w.value)]
  {
  }

  lemma SetWrites(p: Window, field: Element, value: string)
    ensures Pairs(Set(p, field, value).0.writes) == Pairs(p.writes) + [(field, value)]
  {
    OnePairMore(p.writes, WriteOf(p, field, value));
  }

  function NameWrite(reply: Reply, t: Target): seq<(Element, string)>
    requires reply.username.Some? ==> t.username.Some?
  {
    if reply.username.Some? then [(t.username.value, reply.username.value)] else []
  }

  function PasswordWrite(reply: Reply, t: Target): seq<(Element, string)>
    requires reply.password.Some? ==> t.password.Some?
  {
    if reply.password.Some? then [(t.password.value, reply.password.value)] else []
  }

  function BoxWrites(boxes: seq<Element>, value: string): seq<(Element, string)> {
    seq(|boxes|, i requires 0 <= i < |boxes| => (boxes[i], value))
  }

  lemma NamedWrites(p: Window, reply: Reply, t: Target)
    requires reply.username.Some? ==> t.username.Some?
    ensures Pairs(Named(p, reply, t).page.writes) == Pairs(p.writes) + NameWrite(reply, t)
  {
    if reply.username.Some? {
      SetWrites(p, t.username.value, reply.username.value);
    }
  }

  /** A whole fill of a login writes nothing unless every field it carries fits, and then writes each of them once,
    * whatever became of the write before. */
  lemma WholeFillExactly(p: Window, reply: Reply, t: Target)
    requires reply.newPassword.None? && t.kind != Signup
    ensures var o := Filled(p, reply, Some(t), true);
            if UsernameFits(p.dom, reply, t) && PasswordFits(p.dom, reply, t)
            then Pairs(o.page.writes) == Pairs(p.writes) + NameWrite(reply, t) + PasswordWrite(reply, t)
                 && o.failure != Some(NotWritable)
            else o == Outcome(p, [], Some(NotWritable))
  {
    if UsernameFits(p.dom, reply, t) && PasswordFits(p.dom, reply, t) {
      NamedWrites(p, reply, t);
      if reply.password.Some? {
        SetWrites(Named(p, reply, t).page, t.password.value, reply.password.value);
      }
    }
  }

  lemma {:induction false} SetAllWrites(p: Window, boxes: seq<Element>, value: string)
    ensures Pairs(SetAll(p, boxes, value).0.writes) == Pairs(p.writes) + BoxWrites(boxes, value)
  {
    if boxes != [] {
      var front, last := boxes[..|boxes| - 1], boxes[|boxes| - 1];
      SetAllWrites(p, front, value);
      SetWrites(SetAll(p, front, value).0, last, value);
      assert BoxWrites(boxes, value) == BoxWrites(front, value) + [(last, value)];
    }
  }

  predicate SignupGoesAhead(dom: Dom, reply: Reply, t: Target) {
    t.kind == Signup && reply.newPassword.Some? && reply.password.None?
    && SignupStillThere(dom, reply, t) && SignupFits(dom, reply, t)
  }

  /** A sign-up fill writes nothing unless the form it was approved for is still there and every field fits; then it
    * writes the user name, and the password into every box unless the user name was rejected. */
  lemma SignupExactly(p: Window, reply: Reply, t: Target)
    requires reply.newPassword.Some? || t.kind == Signup
    ensures var o := Filled(p, reply, Some(t), true);
            if !SignupGoesAhead(p.dom, reply, t) then o.page == p && o.written == [] && o.failure.Some?
            else if Named(p, reply, t).failure.Some? then
              Pairs(o.page.writes) == Pairs(p.writes) + NameWrite(reply, t) && o.written == []
              && o.failure == Some(WriteRejected)
            else
              Pairs(o.page.writes)
                == Pairs(p.writes) + NameWrite(reply, t) + BoxWrites(t.passwords, reply.newPassword.value)
  {
    if SignupGoesAhead(p.dom, reply, t) {
      NamedWrites(p, reply, t);
      SetAllWrites(Named(p, reply, t).page, t.passwords, reply.newPassword.value);
    }
  }

  // ----- when a fill goes ahead -----

  /** The document still has the field, which can be typed into, and is a password input if it has to be. */
  predicate CanTake(dom: Dom, field: Option<Element>, password: bool) {
    && field.Some? && field.value in dom.elements
    && dom.elements[field.value].connected && dom.elements[field.value].usable
    && (password ==> dom.elements[field.value].isPassword)
  }

  /** A whole login fill writes something exactly when it has something to write and every field of it can take its
    * value; a password is written on a login page only, and into a password input. */
  lemma LoginGoesAhead(p: Window, reply: Reply, t: Target)
    requires reply.newPassword.None? && t.kind != Signup
    ensures Filled(p, reply, Some(t), true).page.writes != p.writes
        <==> (reply.username.Some? || reply.password.Some?)
             && (reply.username.Some? ==> CanTake(p.dom, t.username, false))
             && (reply.password.Some? ==> t.kind == Login && CanTake(p.dom, t.password, true))
  {
    WholeFillExactly(p, reply, t);
    if UsernameFits(p.dom, reply, t) && PasswordFits(p.dom, reply, t) {
      assert |Pairs(Filled(p, reply, Some(t), true).page.writes)|
          == |p.writes| + |NameWrite(reply, t)| + |PasswordWrite(reply, t)|;
    }
  }

  /** A sign-up fill writes something exactly when the reply carries a new password and no other, the detector still
    * finds the boxes and the user name of the target, and all of these can take their value. */
  lemma SignupGoesAheadExactly(p: Window, reply: Reply, t: Target)
    requires reply.newPassword.Some? || t.kind == Signup
    ensures Filled(p, reply, Some(t), true).page.writes != p.writes
        <==> t.kind == Signup && reply.newPassword.Some? && reply.password.None? && t.passwords != []
             && p.dom.signup.Some? && p.dom.signup.value.passwords == t.passwords
             && (reply.username.Some? ==>
                   p.dom.signup.value.username == t.username && CanTake(p.dom, t.username, false))
             && forall i | 0 <= i < |t.passwords| :: CanTake(p.dom, Some(t.passwords[i]), true)
  {
    SignupExactly(p, reply, t);
    if SignupGoesAhead(p.dom, reply, t) {
      assert |Pairs(Filled(p, reply, Some(t), true).page.writes)| > |p.writes|;
    }
    assert forall i | 0 <= i < |t.passwords| ::
        StillWritable(p.dom, Some(t.passwords[i]), true) == CanTake(p.dom, Some(t.passwords[i]), true);
  }

  /** Every write since `n` stuck. */
  predicate AllStuck(writes: seq<Write>, n: nat) {
    forall i | n <= i < |writes| :: writes[i].stuck
  }

  lemma OneWriteMore(writes: seq<Write>, w: Write, n: nat)
    requires n <= |writes|
    ensures AllStuck(writes + [w], n) <==> AllStuck(writes, n) && w.stuck
  {
    var all := writes + [w];
    assert all[|writes|] == w && forall i | 0 <= i < |writes| :: all[i] == writes[i];
  }

  /** What a whole login fill reports: that something is not writable, and then nothing was written; or which of its
    * writes stuck, and that one was rejected if any did not. */
  lemma LoginOutcome(p: Window, reply: Reply, t: Target)
    requires reply.newPassword.None? && t.kind != Signup
    ensures var o, n := Filled(p, reply, Some(t), true), |p.writes|;
            if (reply.username.Some? ==> CanTake(p.dom, t.username, false))
               && (reply.password.Some? ==> t.kind == Login && CanTake(p.dom, t.password, true))
            then
              && n <= |o.page.writes| && o.failure == (if AllStuck(o.page.writes, n) then None else Some(WriteRejected))
              && (Username in o.written <==> reply.username.Some? && n < |o.page.writes| && o.page.writes[n].stuck)
              && (Password in o.written <==>
                    reply.password.Some? && n < |o.page.writes| && o.page.writes[|o.page.writes| - 1].stuck)
            else o == Outcome(p, [], Some(NotWritable))
  {
    var first := if reply.username.Some? && UsernameFits(p.dom, reply, t)
                 then Noted(Outcome(p, [], None), t.username.value, reply.username.value, Username)
                 else Outcome(p, [], None);
    if reply.username.Some? && UsernameFits(p.dom, reply, t) {
      OneWriteMore(p.writes, WriteOf(p, t.username.value, reply.username.value), |p.writes|);
    }
    if reply.password.Some? && PasswordFits(p.dom, reply, t) {
      OneWriteMore(first.page.writes, WriteOf(first.page, t.password.value, reply.password.value), |p.writes|);
    }
  }

  lemma {:induction false} SetAllStuck(p: Window, boxes: seq<Element>, value: string)
    ensures var (after, all) := SetAll(p, boxes, value);
            && p.writes <= after.writes && |after.writes| == |p.writes| + |boxes|
            && (all <==> AllStuck(after.writes, |p.writes|))
  {
    if boxes != [] {
      var front := boxes[..|boxes| - 1];
      SetAllStuck(p, front, value);
      var before := SetAll(p, front, value).0;
      OneWriteMore(before.writes, WriteOf(before, boxes[|boxes| - 1], value), |p.writes|);
    }
  }

  lemma StuckAfterName(writes: seq<Write>, n: nat)
    requires n < |writes|
    ensures AllStuck(writes, n) <==> writes[n].stuck && AllStuck(writes, n + 1)
  {
  }

  lemma SignupStuck(p: Window, reply: Reply, t: Target)
    requires SignupGoesAhead(p.dom, reply, t)
    ensures var o, n := SignedUp(p, reply, t), |p.writes|;
            && n < |o.page.writes| && o.failure == (if AllStuck(o.page.writes, n) then None else Some(WriteRejected))
            && (Username in o.written <==> reply.username.Some? && o.page.writes[n].stuck)
            && (NewPassword in o.written <==> AllStuck(o.page.writes, n))
  {
    var name := Named(p, reply, t);
    SetAllStuck(name.page, t.passwords, reply.newPassword.value);
    var after := SetAll(name.page, t.passwords, reply.newPassword.value).0.writes;
    assert forall i | 0 <= i < |name.page.writes| :: after[i] == name.page.writes[i];
    if reply.username.Some? {
      assert name.page.writes[|p.writes|].stuck == name.failure.None?;
      StuckAfterName(after, |p.writes|);
    }
  }

  /** What a sign-up fill reports: what kept it from writing anything; or the user name and the password as far as every
    * write of them stuck, and that one was rejected if any did not. */
  lemma SignupOutcome(p: Window, reply: Reply, t: Target)
    requires reply.newPassword.Some? || t.kind == Signup
    ensures var o, n := Filled(p, reply, Some(t), true), |p.writes|;
            if t.kind != Signup || reply.newPassword.None? || reply.password.Some? then
              o == Outcome(p, [], Some(NotWritable))
            else if t.passwords == [] || p.dom.signup.None? || p.dom.signup.value.passwords != t.passwords
                    || (reply.username.Some? && p.dom.signup.value.username != t.username)
            then o == Outcome(p, [], Some(FormChanged))
            else if Filled(p, reply, Some(t), true).page.writes == p.writes then o == Outcome(p, [], Some(NotWritable))
            else
              && n < |o.page.writes| && o.failure == (if AllStuck(o.page.writes, n) then None else Some(WriteRejected))
              && (Username in o.written <==> reply.username.Some? && o.page.writes[n].stuck)
              && (NewPassword in o.written <==> AllStuck(o.page.writes, n))
  {
    SignupExactly(p, reply, t);
    if SignupGoesAhead(p.dom, reply, t) {
      assert |Pairs(Filled(p, reply, Some(t), true).page.writes)| > |p.writes|;
      SignupStuck(p, reply, t);
    }
  }

  /** A code is written exactly when there is one, into the field that the delivery found, if that can take it and the
    * detector still finds it; it is named if it stuck. Otherwise nothing is written, and that is said. */
  lemma CodeExactly(p: Window, code: Option<string>, target: Option<Target>)
    ensures var o := CodeWritten(p, code, target);
            if code.Some? && target.Some? && CanTake(p.dom, target.value.code, false)
               && p.dom.code == target.value.code
            then
              && Pairs(o.page.writes) == Pairs(p.writes) + [(target.value.code.value, code.value)]
              && if Sticks(p, target.value.code.value, code.value)
                 then o.written == [OneTimeCode] && o.failure.None?
                 else o.written == [] && o.failure == Some(WriteRejected)
            else
              && o.page == p && o.written == []
              && o.failure == Some(if code.Some? && target.Some? && CanTake(p.dom, target.value.code, false)
                                   then FormChanged else NotWritable)
  {
    if code.Some? && target.Some? && target.value.code.Some? {
      SetWrites(p, target.value.code.value, code.value);
    }
  }

  // ----- what a page can make of a fill -----

  /** The same document, with a page that reacts like this. */
  function Reacting(p: Window, reactions: seq<Reaction>): Window {
    p.(reactions := reactions)
  }

  predicate IsSignup(reply: Reply, t: Target) {
    reply.newPassword.Some? || t.kind == Signup
  }

  /** The fill goes ahead and means to write a password. */
  predicate WritesPassword(dom: Dom, reply: Reply, t: Target) {
    if IsSignup(reply, t) then SignupGoesAhead(dom, reply, t)
    else reply.password.Some? && UsernameFits(dom, reply, t) && PasswordFits(dom, reply, t)
  }

  /** The fill goes ahead, and writes a user name before a password. */
  predicate WritesNameFirst(dom: Dom, reply: Reply, t: Target) {
    reply.username.Some? && WritesPassword(dom, reply, t)
  }

  /** The fill writes a password after some other write, so after handlers of the page have run. */
  predicate WritesPasswordLater(dom: Dom, reply: Reply, t: Target) {
    WritesNameFirst(dom, reply, t) || (IsSignup(reply, t) && SignupGoesAhead(dom, reply, t) && |t.passwords| > 1)
  }

  lemma {:induction false} SetAllStarts(p: Window, boxes: seq<Element>, value: string, k: nat)
    requires k <= |boxes|
    ensures SetAll(p, boxes[..k], value).0.writes <= SetAll(p, boxes, value).0.writes
  {
    if k < |boxes| {
      var front := boxes[..|boxes| - 1];
      SetAllStarts(p, front, value, k);
      assert front[..k] == boxes[..k];
    } else {
      assert boxes[..k] == boxes;
    }
  }

  /** The first box is written into the document as it is, the second into what the page made of the first write. */
  lemma FirstBoxes(p: Window, boxes: seq<Element>, value: string)
    requires boxes != []
    ensures var writes, n := SetAll(p, boxes, value).0.writes, |p.writes|;
            && n + 1 <= |writes| && writes[n] == WriteOf(p, boxes[0], value)
            && (|boxes| > 1 ==>
                  n + 2 <= |writes| && writes[n + 1] == WriteOf(Set(p, boxes[0], value).0, boxes[1], value))
  {
    SetAllStarts(p, boxes, value, 1);
    assert boxes[..1][..0] == [] && boxes[..1][0] == boxes[0];
    assert SetAll(p, boxes[..1], value).0 == Set(p, boxes[0], value).0;
    if |boxes| > 1 {
      SetAllStarts(p, boxes, value, 2);
      assert boxes[..2][..1] == boxes[..1] && boxes[..2][1] == boxes[1];
    }
  }

  lemma {:induction false} FirstBoxFails(p: Window, boxes: seq<Element>, value: string)
    requires boxes != [] && !Sticks(p, boxes[0], value)
    ensures !SetAll(p, boxes, value).1
  {
    if |boxes| > 1 {
      FirstBoxFails(p, boxes[..|boxes| - 1], value);
    } else {
      assert boxes[..0] == [];
    }
  }

  // All of it, or none of it.

  /** Either every write of the fill stuck, or none did. */
  predicate OneFate(p: Window, after: Window) {
    forall i, j | |p.writes| <= i < |after.writes| && |p.writes| <= j < |after.writes| ::
      after.writes[i].stuck == after.writes[j].stuck
  }

  /** A page under which one of the first two writes sticks and the other does not. A sign-up's user name has to stick,
    * or nothing more is written. */
  function Spoiling(dom: Dom, reply: Reply, t: Target): seq<Reaction>
    requires WritesPasswordLater(dom, reply, t)
  {
    if IsSignup(reply, t) && reply.username.Some?
    then [Reacts(Holding(dom, t.username.value, reply.username.value)), Throws(dom)]
    else [Throws(dom)]
  }

  /** The write of a sign-up's user name is the first of the fill. */
  lemma NamedWriteStays(p: Window, reply: Reply, t: Target)
    requires IsSignup(reply, t) && WritesNameFirst(p.dom, reply, t)
    ensures var writes, n := Filled(p, reply, Some(t), true).page.writes, |p.writes|;
            n < |writes| && writes[n] == WriteOf(p, t.username.value, reply.username.value)
  {
    var name := Named(p, reply, t);
    if name.failure.None? {
      SetAllStarts(name.page, t.passwords, reply.newPassword.value, 0);
      assert t.passwords[..0] == [];
    }
  }

  lemma SpoiledSignup(p: Window, reply: Reply, t: Target)
    requires IsSignup(reply, t) && WritesPasswordLater(p.dom, reply, t)
    ensures var o := Filled(Reacting(p, Spoiling(p.dom, reply, t)), reply, Some(t), true);
            !OneFate(p, o.page) && o.written == if reply.username.Some? then [Username] else []
  {
    var start := Reacting(p, Spoiling(p.dom, reply, t));
    var name := Named(start, reply, t);
    assert StillWritable(p.dom, Some(t.passwords[0]), true);
    FirstBoxes(name.page, t.passwords, reply.newPassword.value);
    FirstBoxFails(name.page, t.passwords, reply.newPassword.value);
    var writes, n := Filled(start, reply, Some(t), true).page.writes, |p.writes|;
    if reply.username.Some? {
      assert writes[n + 1] == WriteOf(name.page, t.passwords[0], reply.newPassword.value);
      NamedWriteStays(start, reply, t);
      assert writes[n].stuck && !writes[n + 1].stuck;
    } else {
      assert StillWritable(p.dom, Some(t.passwords[1]), true);
      assert !writes[n].stuck && writes[n + 1].stuck;
    }
  }

  lemma OneWriteAtMost(p: Window, reply: Reply, t: Target)
    requires !WritesPasswordLater(p.dom, reply, t)
    ensures |Filled(p, reply, Some(t), true).page.writes| <= |p.writes| + 1
  {
    if IsSignup(reply, t) && SignupGoesAhead(p.dom, reply, t) {
      assert t.passwords[..0] == [];
      assert SetAll(p, t.passwords, reply.newPassword.value).0 == Set(p, t.passwords[0], reply.newPassword.value).0;
    }
  }

  /** All writes of a whole fill stick or none does, whatever the page does, exactly when no password is written after
    * another write. */
  lemma AllOrNothingExactly(p: Window, reply: Reply, t: Target)
    ensures (forall reactions :: OneFate(p, Filled(Reacting(p, reactions), reply, Some(t), true).page))
        <==> !WritesPasswordLater(p.dom, reply, t)
  {
    if WritesPasswordLater(p.dom, reply, t) {
      var spoiled := Filled(Reacting(p, Spoiling(p.dom, reply, t)), reply, Some(t), true).page;
      if IsSignup(reply, t) {
        SpoiledSignup(p, reply, t);
      } else {
        var n := |p.writes|;
        assert !spoiled.writes[n].stuck && spoiled.writes[n + 1].stuck;
      }
      assert !OneFate(p, spoiled);
    } else {
      forall reactions
        ensures OneFate(p, Filled(Reacting(p, reactions), reply, Some(t), true).page)
      {
        OneWriteAtMost(Reacting(p, reactions), reply, t);
      }
    }
  }

  /** The names of all a reply carries. */
  function Requested(reply: Reply): seq<Field> {
    (if reply.username.Some? then [Username] else []) + (if reply.password.Some? then [Password] else [])
    + (if reply.newPassword.Some? then [NewPassword] else [])
  }

  predicate NamesAllOrNothing(o: Outcome, reply: Reply) {
    o.written == [] || o.written == Requested(reply)
  }

  lemma OneKindAllOrNothing(p: Window, reply: Reply, t: Target)
    requires !WritesNameFirst(p.dom, reply, t)
    ensures NamesAllOrNothing(Filled(p, reply, Some(t), true), reply)
  {
  }

  /** A whole fill names all it carries or nothing, whatever the page does, exactly when it does not write a user name
    * and then a password: neither write waits for the other, and a sign-up's user name is not taken back. */
  lemma NamesAllOrNothingExactly(p: Window, reply: Reply, t: Target)
    ensures (forall reactions :: NamesAllOrNothing(Filled(Reacting(p, reactions), reply, Some(t), true), reply))
        <==> !WritesNameFirst(p.dom, reply, t)
  {
    if WritesNameFirst(p.dom, reply, t) {
      var spoiled := Filled(Reacting(p, Spoiling(p.dom, reply, t)), reply, Some(t), true);
      if IsSignup(reply, t) {
        SpoiledSignup(p, reply, t);
      } else {
        assert spoiled.written == [Password];
      }
      assert !NamesAllOrNothing(spoiled, reply);
    } else {
      forall reactions
        ensures NamesAllOrNothing(Filled(Reacting(p, reactions), reply, Some(t), true), reply)
      {
        OneKindAllOrNothing(Reacting(p, reactions), reply, t);
      }
    }
  }

  // Passwords into password inputs.

  /** How many user names a fill writes before its passwords, if it goes ahead. */
  function NameCount(dom: Dom, reply: Reply, t: Target): nat {
    if reply.username.Some? && UsernameFits(dom, reply, t) then 1 else 0
  }

  /** Every password a fill has written went into a password input. */
  predicate IntoPasswords(p: Window, after: Window, reply: Reply, t: Target) {
    forall i | |p.writes| + NameCount(p.dom, reply, t) <= i < |after.writes| :: after.writes[i].intoPassword
  }

  /** `field` turned into a plain text field. */
  function Retyped(dom: Dom, field: Element): Dom
    requires field in dom.elements
  {
    dom.(elements := dom.elements[field := dom.elements[field].(isPassword := false)])
  }

  /** A page whose handlers for the first write retype a box that is yet to be written. */
  function Retyping(dom: Dom, reply: Reply, t: Target): seq<Reaction>
    requires WritesPasswordLater(dom, reply, t)
  {
    if !IsSignup(reply, t) then [Reacts(Retyped(dom, t.password.value))]
    else if reply.username.Some? then
      [Reacts(Retyped(Holding(dom, t.username.value, reply.username.value), t.passwords[0]))]
    else [Reacts(Retyped(dom, t.passwords[1]))]
  }

  lemma RetypedSignup(p: Window, reply: Reply, t: Target)
    requires IsSignup(reply, t) && WritesPasswordLater(p.dom, reply, t)
    ensures var start := Reacting(p, Retyping(p.dom, reply, t));
            !IntoPasswords(start, Filled(start, reply, Some(t), true).page, reply, t)
  {
    var start := Reacting(p, Retyping(p.dom, reply, t));
    var first := Named(start, reply, t);
    assert StillWritable(p.dom, Some(t.passwords[0]), true);
    FirstBoxes(first.page, t.passwords, reply.newPassword.value);
    var writes, n := Filled(start, reply, Some(t), true).page.writes, |first.page.writes|;
    if reply.username.Some? {
      assert !writes[n].intoPassword;
    } else {
      assert !writes[n + 1].intoPassword;
    }
  }

  lemma FirstPasswordIntoPassword(p: Window, reply: Reply, t: Target, whole: bool)
    requires !WritesPasswordLater(p.dom, reply, t)
    ensures IntoPasswords(p, Filled(p, reply, Some(t), whole).page, reply, t)
  {
    if IsSignup(reply, t) && SignupGoesAhead(p.dom, reply, t) {
      assert StillWritable(p.dom, Some(t.passwords[0]), true);
      assert t.passwords[..0] == [];
      assert SetAll(p, t.passwords, reply.newPassword.value).0 == Set(p, t.passwords[0], reply.newPassword.value).0;
    }
  }

  /** Passwords go into password inputs, whatever the page does, exactly when no other write comes before: what was
    * checked before the first write need not hold at the second. */
  lemma PasswordIntoPasswordExactly(p: Window, reply: Reply, t: Target, whole: bool)
    ensures (forall reactions ::
               IntoPasswords(p, Filled(Reacting(p, reactions), reply, Some(t), whole).page, reply, t))
        <==> !WritesPasswordLater(p.dom, reply, t)
  {
    if WritesPasswordLater(p.dom, reply, t) {
      var start := Reacting(p, Retyping(p.dom, reply, t));
      var after := Filled(start, reply, Some(t), whole).page;
      if IsSignup(reply, t) {
        RetypedSignup(p, reply, t);
      } else {
        assert !after.writes[|p.writes| + 1].intoPassword;
      }
      assert !IntoPasswords(p, after, reply, t);
    } else {
      forall reactions
        ensures IntoPasswords(p, Filled(Reacting(p, reactions), reply, Some(t), whole).page, reply, t)
      {
        FirstPasswordIntoPassword(Reacting(p, reactions), reply, t, whole);
      }
    }
  }

  /** What an outcome names was carried by the reply for that kind of target, each at most once and in order. */
  predicate AskedFor(o: Outcome, reply: Reply, target: Option<Target>) {
    && (Username in o.written ==> reply.username.Some?)
    && (Password in o.written ==> reply.password.Some? && target.Some? && target.value.kind == Login)
    && (NewPassword in o.written ==> reply.newPassword.Some? && target.Some? && target.value.kind == Signup)
    && OneTimeCode !in o.written && |o.written| <= 2
    && (|o.written| == 2 ==> o.written[0] == Username && o.written[1] != Username)
  }

  lemma LoginAskedFor(p: Window, reply: Reply, t: Target, whole: bool)
    ensures AskedFor(LoggedIn(p, reply, t, whole), reply, Some(t))
  {
  }

  lemma SignupAskedFor(p: Window, reply: Reply, t: Target)
    ensures AskedFor(SignedUp(p, reply, t), reply, Some(t))
  {
  }

  /** A fill reports only what it was asked for, and never both kinds of password. */
  lemma WrittenWasAskedFor(p: Window, reply: Reply, target: Option<Target>, whole: bool)
    ensures var o := Filled(p, reply, target, whole);
            AskedFor(o, reply, target) && !(Password in o.written && NewPassword in o.written)
  {
    if target.Some? {
      LoginAskedFor(p, reply, target.value, whole);
      SignupAskedFor(p, reply, target.value);
    }
  }

  /** A fill by a human writes whatever still can be written, and nothing else. */
  lemma HumanFillExactly(p: Window, reply: Reply, t: Target)
    requires reply.newPassword.None? && t.kind != Signup
    ensures Pairs(Filled(p, reply, Some(t), false).page.writes)
         == Pairs(p.writes)
            + (if UsernameFits(p.dom, reply, t) then NameWrite(reply, t) else [])
            + (if PasswordFits(p.dom, reply, t) then PasswordWrite(reply, t) else [])
  {
    if reply.username.Some? && UsernameFits(p.dom, reply, t) {
      SetWrites(p, t.username.value, reply.username.value);
    }
    if reply.password.Some? && PasswordFits(p.dom, reply, t) {
      var first := if reply.username.Some? && UsernameFits(p.dom, reply, t)
                   then Noted(Outcome(p, [], None), t.username.value, reply.username.value, Username)
                   else Outcome(p, [], None);
      SetWrites(first.page, t.password.value, reply.password.value);
    }
  }

  // ----- the tripwire -----

  /** The fields a delivery watches after it was written, as the script chooses them. */
  function WatchOf(written: seq<Field>, t: Target): (watch: seq<Element>) {
    if NewPassword in written then t.passwords
    else if Password in written && t.password.Some? then [t.password.value]
    else []
  }

  /** A page that only clears the confirmation box, and what is left of a sign-up then: the password is in the first box
    * and not in the second, nothing is named, and nothing is watched. */
  lemma HalfASignup(p: Window, reply: Reply, t: Target)
    requires IsSignup(reply, t) && SignupGoesAhead(p.dom, reply, t) && reply.username.None?
    requires |t.passwords| == 2 && t.passwords[0] != t.passwords[1]
    requires p.dom.elements[t.passwords[1]].value != reply.newPassword.value
    ensures var left := Holding(p.dom, t.passwords[0], reply.newPassword.value);
            var o := Filled(Reacting(p, [Reacts(left), Reacts(left)]), reply, Some(t), true);
            && o.page.dom == left && left.elements[t.passwords[0]].value == reply.newPassword.value
            && left.elements[t.passwords[1]].value != reply.newPassword.value
            && o.written == [] && o.failure == Some(WriteRejected) && WatchOf(o.written, t) == []
  {
    var left := Holding(p.dom, t.passwords[0], reply.newPassword.value);
    var start := Reacting(p, [Reacts(left), Reacts(left)]);
    assert StillWritable(p.dom, Some(t.passwords[0]), true);
    var boxes, value := t.passwords, reply.newPassword.value;
    assert boxes[..1][..0] == [] && boxes[..1] == [boxes[0]];
    assert SetAll(start, boxes[..1], value) == Set(start, boxes[0], value);
  }

  /** Every field the fill has written a password into is watched. */
  predicate AllWatched(p: Window, o: Outcome, reply: Reply, t: Target) {
    forall i | |p.writes| + NameCount(p.dom, reply, t) <= i < |o.page.writes| ::
      o.page.writes[i].field in WatchOf(o.written, t)
  }

  /** The password was written into the field, by a write after the user name's. */
  predicate WentInto(p: Window, o: Outcome, reply: Reply, t: Target, field: Element, password: string) {
    exists i :: |p.writes| + NameCount(p.dom, reply, t) <= i < |o.page.writes|
                && o.page.writes[i].field == field && o.page.writes[i].value == password
  }

  lemma SignupWatched(p: Window, reply: Reply, t: Target)
    requires NewPassword in Filled(p, reply, Some(t), true).written
    ensures var o := Filled(p, reply, Some(t), true);
            && AllWatched(p, o, reply, t) && reply.newPassword.Some?
            && forall field | field in t.passwords :: WentInto(p, o, reply, t, field, reply.newPassword.value)
  {
    var o, n := Filled(p, reply, Some(t), true), |p.writes| + NameCount(p.dom, reply, t);
    SignupExactly(p, reply, t);
    var pairs := BoxWrites(t.passwords, reply.newPassword.value);
    assert |o.page.writes| == n + |pairs|;
    forall i | n <= i < |o.page.writes|
      ensures (o.page.writes[i].field, o.page.writes[i].value) == pairs[i - n] && pairs[i - n].0 in t.passwords
    {
      assert Pairs(o.page.writes)[i] == pairs[i - n];
    }
    forall field | field in t.passwords
      ensures WentInto(p, o, reply, t, field, reply.newPassword.value)
    {
      var j :| 0 <= j < |t.passwords| && t.passwords[j] == field;
      assert pairs[n + j - n] == (field, reply.newPassword.value);
      assert o.page.writes[n + j].field == field;
    }
  }

  lemma LoginWatched(p: Window, reply: Reply, t: Target)
    requires Password in Filled(p, reply, Some(t), true).written
    ensures var o := Filled(p, reply, Some(t), true);
            && AllWatched(p, o, reply, t) && reply.password.Some? && t.password.Some?
            && WentInto(p, o, reply, t, t.password.value, reply.password.value)
  {
    WrittenWasAskedFor(p, reply, Some(t), true);
    var o := Filled(p, reply, Some(t), true);
    var last := o.page.writes[|o.page.writes| - 1];
    assert last.field == t.password.value && last.value == reply.password.value;
  }

  /** If the password is named as written, what is watched is exactly the fields it was written into; if it is not
    * named, nothing is watched, even if the password was written. */
  lemma WatchedExactly(p: Window, reply: Reply, t: Target)
    ensures var o := Filled(p, reply, Some(t), true);
            if NewPassword in o.written then
              && AllWatched(p, o, reply, t) && reply.newPassword.Some?
              && forall field | field in WatchOf(o.written, t) ::
                   WentInto(p, o, reply, t, field, reply.newPassword.value)
            else if Password in o.written then
              && AllWatched(p, o, reply, t) && reply.password.Some?
              && forall field | field in WatchOf(o.written, t) ::
                   WentInto(p, o, reply, t, field, reply.password.value)
            else WatchOf(o.written, t) == []
  {
    var o := Filled(p, reply, Some(t), true);
    if NewPassword in o.written {
      SignupWatched(p, reply, t);
    } else if Password in o.written {
      LoginWatched(p, reply, t);
    }
  }

  /** The first field the fill writes a password into, and the password. */
  function FirstPassword(reply: Reply, t: Target): (Element, string)
    requires if IsSignup(reply, t) then t.passwords != [] && reply.newPassword.Some?
             else t.password.Some? && reply.password.Some?
  {
    if IsSignup(reply, t) then (t.passwords[0], reply.newPassword.value) else (t.password.value, reply.password.value)
  }

  /** The page once it has taken the user name. */
  function NameTaken(dom: Dom, reply: Reply, t: Target): Dom
    requires reply.username.Some? ==> t.username.Some?
  {
    if reply.username.Some? then Holding(dom, t.username.value, reply.username.value) else dom
  }

  /** A page that turns the first password field into a text field, and adds to what it shows. */
  function Exposing(dom: Dom, reply: Reply, t: Target): seq<Reaction>
    requires WritesPassword(dom, reply, t)
  {
    var (field, password) := FirstPassword(reply, t);
    assert StillWritable(dom, Some(field), true);
    var named := NameTaken(dom, reply, t);
    (if reply.username.Some? then [Reacts(named)] else [])
    + [Reacts(Retyped(Holding(named, field, password + "!"), field))]
  }

  /** Boxes written on a page that lets writes be stay what they are, and hold what they held or the value. */
  lemma {:induction false} QuietBoxes(p: Window, boxes: seq<Element>, value: string, field: Element)
    requires p.reactions == [] && field in p.dom.elements
    ensures var after := SetAll(p, boxes, value).0;
            && after.reactions == [] && field in after.dom.elements
            && after.dom.elements[field].isPassword == p.dom.elements[field].isPassword
            && after.dom.elements[field].value in {p.dom.elements[field].value, value}
  {
    if boxes != [] {
      QuietBoxes(p, boxes[..|boxes| - 1], value, field);
    }
  }

  /** Writing every box is writing the first and then the others. */
  lemma {:induction false} RestOfBoxes(p: Window, boxes: seq<Element>, value: string)
    requires boxes != []
    ensures SetAll(p, boxes, value).0 == SetAll(Set(p, boxes[0], value).0, boxes[1..], value).0
  {
    if |boxes| == 1 {
      assert boxes[..0] == [] && boxes[1..] == [];
    } else {
      RestOfBoxes(p, boxes[..|boxes| - 1], value);
      assert boxes[1..][..|boxes| - 2] == boxes[..|boxes| - 1][1..];
    }
  }

  lemma ExposedBox(p: Window, boxes: seq<Element>, value: string)
    requires boxes != [] && |p.reactions| == 1 && boxes[0] in p.reactions[0].after.elements
    requires var shown := p.reactions[0].after.elements[boxes[0]]; !shown.isPassword && value <= shown.value
    ensures var after := SetAll(p, boxes, value).0.dom;
            boxes[0] in after.elements && !IsPasswordInput(after, boxes[0]) && value <= after.elements[boxes[0]].value
  {
    RestOfBoxes(p, boxes, value);
    QuietBoxes(Set(p, boxes[0], value).0, boxes[1..], value, boxes[0]);
  }

  lemma ExposedSignup(p: Window, reply: Reply, t: Target)
    requires IsSignup(reply, t) && WritesPassword(p.dom, reply, t)
    ensures var o, field := Filled(Reacting(p, Exposing(p.dom, reply, t)), reply, Some(t), true), t.passwords[0];
            && NewPassword !in o.written && Password !in o.written
            && |o.page.writes| > |p.writes| + NameCount(p.dom, reply, t)
            && field in o.page.dom.elements && !IsPasswordInput(o.page.dom, field)
            && reply.newPassword.value <= o.page.dom.elements[field].value
  {
    var start := Reacting(p, Exposing(p.dom, reply, t));
    var name, boxes, value := Named(start, reply, t), t.passwords, reply.newPassword.value;
    assert StillWritable(p.dom, Some(boxes[0]), true);
    assert value + "!" != value;
    assert name.failure.None?;
    FirstBoxFails(name.page, boxes, value);
    FirstBoxes(name.page, boxes, value);
    ExposedBox(name.page, boxes, value);
  }

  /** What that page ends as: the password can be read in a text field, nothing says it was written, and nothing watches
    * it. */
  lemma ExposedUnwatched(p: Window, reply: Reply, t: Target)
    requires WritesPassword(p.dom, reply, t)
    ensures var o, (field, password) := Filled(Reacting(p, Exposing(p.dom, reply, t)), reply, Some(t), true),
                                        FirstPassword(reply, t);
            && Password !in o.written && NewPassword !in o.written && WatchOf(o.written, t) == []
            && |o.page.writes| > |p.writes| + NameCount(p.dom, reply, t)
            && field in o.page.dom.elements && !IsPasswordInput(o.page.dom, field)
            && password <= o.page.dom.elements[field].value
  {
    var start := Reacting(p, Exposing(p.dom, reply, t));
    if IsSignup(reply, t) {
      ExposedSignup(p, reply, t);
    } else {
      var o := Filled(start, reply, Some(t), true);
      assert reply.password.value + "!" != reply.password.value;
      assert o.page.dom.elements[t.password.value].value == reply.password.value + "!";
    }
  }

  lemma NoPasswordWritten(p: Window, reply: Reply, t: Target)
    requires !WritesPassword(p.dom, reply, t)
    ensures |Filled(p, reply, Some(t), true).page.writes| <= |p.writes| + NameCount(p.dom, reply, t)
  {
  }

  /** Every field a password was written into is watched, whatever the page does, exactly when the fill writes no
    * password: a write the page spoils may still leave the password there, and is not watched. */
  lemma WatchesAllExactly(p: Window, reply: Reply, t: Target)
    ensures (forall reactions ::
               AllWatched(p, Filled(Reacting(p, reactions), reply, Some(t), true), reply, t))
        <==> !WritesPassword(p.dom, reply, t)
  {
    if WritesPassword(p.dom, reply, t) {
      ExposedUnwatched(p, reply, t);
      var o := Filled(Reacting(p, Exposing(p.dom, reply, t)), reply, Some(t), true);
      assert o.page.writes[|p.writes| + NameCount(p.dom, reply, t)].field !in WatchOf(o.written, t);
    } else {
      forall reactions
        ensures AllWatched(p, Filled(Reacting(p, reactions), reply, Some(t), true), reply, t)
      {
        NoPasswordWritten(Reacting(p, reactions), reply, t);
      }
    }
  }

  /** Every field of `watch` but `field`, emptied. */
  function Emptied(watch: seq<Element>, field: Element): seq<(Element, string)> {
    if watch == [] then []
    else Emptied(watch[..|watch| - 1], field)
         + if watch[|watch| - 1] == field then [] else [(watch[|watch| - 1], "")]
  }

  lemma {:induction false} EmptiesAll(watch: seq<Element>, field: Element)
    ensures forall f | f in watch && f != field :: (f, "") in Emptied(watch, field)
  {
    if watch != [] {
      EmptiesAll(watch[..|watch| - 1], field);
      forall f | f in watch && f != field
        ensures (f, "") in Emptied(watch, field)
      {
        if f in watch[..|watch| - 1] {
        } else {
          assert f == watch[|watch| - 1];
        }
      }
    }
  }

  /** The tripwires over the fields an agent's fill wrote: the first to stop being a password input empties them all,
    * and is told once. A wire stops when it trips, after its time, or when the page is left. */
  class Tripwires {
    const document: Document
    const watch: seq<Element>
    ghost const armedAt: nat
    var done: set<nat>
    var tripped: bool
    var told: nat

    ghost predicate Valid()
      reads this, document
    {
      && armedAt <= |document.writes|
      && told == (if tripped then 1 else 0)
      && (tripped ==> forall f | f in watch :: (f, "") in Pairs(document.writes)[armedAt..])
    }

    /** Arming checks each field at once, in the same turn as the write. Either every field is a password input and
      * nothing was touched, or all of them have been emptied and the trip is told. */
    constructor (document: Document, watch: seq<Element>)
      modifies document
      ensures Valid() && this.document == document && this.watch == watch && armedAt == |old(document.writes)|
      ensures tripped <==> exists f :: f in watch && !IsPasswordInput(old(document.dom), f)
      ensures !tripped ==> document.State() == old(document.State())
    {
      this.document, this.watch := document, watch;
      armedAt := |document.writes|;
      done, tripped, told := {}, false, 0;
      new;
      for i := 0 to |watch|
        invariant Valid() && this.document == document && this.watch == watch
        invariant armedAt == |old(document.writes)|
        invariant if tripped then exists f :: f in watch && !IsPasswordInput(old(document.dom), f)
                  else document.State() == old(document.State()) && done == {}
                       && forall j | 0 <= j < i :: IsPasswordInput(document.dom, watch[j])
      {
        Check(i);
      }
    }

    /** A wire looks at its field. */
    method Check(i: nat)
      requires Valid() && i < |watch|
      modifies this, document
      ensures Valid()
      ensures if i in old(done) || IsPasswordInput(old(document.dom), watch[i])
              then document.State() == old(document.State()) && done == old(done) && tripped == old(tripped)
              else done == old(done) + {i} && tripped
                   && Pairs(document.writes) == old(Pairs(document.writes)) + [(watch[i], "")]
                                                + (if old(tripped) then [] else Emptied(watch, watch[i]))
    {
      if i in done || IsPasswordInput(document.dom, watch[i]) {
        return;
      }
      done := done + {i};
      ghost var before := Pairs(document.writes);
      Empty(watch[i]);
      if tripped {
        assert Pairs(document.writes)[armedAt..] == before[armedAt..] + [(watch[i], "")];
        return;
      }
      ghost var first := Pairs(document.writes);
      tripped := true;
      for j := 0 to |watch|
        invariant Pairs(document.writes) == first + Emptied(watch[..j], watch[i])
        invariant done == old(done) + {i} && tripped && told == 0
      {
        assert watch[..j + 1][..j] == watch[..j];
        if watch[j] != watch[i] {
          Empty(watch[j]);
        }
      }
      assert watch[..|watch|] == watch;
      told := told + 1;
      EmptiesAll(watch, watch[i]);
      AllEmptied(before, watch, watch[i], armedAt, Pairs(document.writes));
    }

    method Empty(field: Element)
      modifies document
      ensures Pairs(document.writes) == old(Pairs(document.writes)) + [(field, "")]
      ensures |document.writes| == |old(document.writes)| + 1
    {
      SetWrites(document.State(), field, "");
      var _ := document.SetFieldValue(field, "");
    }

    /** The wire's time is up, or the page is left. */
    method Stop(i: nat)
      requires Valid() && i < |watch|
      modifies this
      ensures Valid() && done == old(done) + {i} && tripped == old(tripped) && told == old(told)
    {
      done := done + {i};
    }
  }

  lemma AllEmptied(before: seq<(Element, string)>, watch: seq<Element>, field: Element, armedAt: nat,
                   after: seq<(Element, string)>)
    requires armedAt <= |before| && after == before + [(field, "")] + Emptied(watch, field)
    ensures forall f | f in watch :: (f, "") in after[armedAt..]
  {
    EmptiesAll(watch, field);
    var rest := after[armedAt..];
    assert rest == before[armedAt..] + [(field, "")] + Emptied(watch, field);
  }
}
