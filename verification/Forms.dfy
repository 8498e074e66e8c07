/** Which field of a page is the password, the user name, the one-time code (extensions/shared/forms.js). */
module Forms {
  import opened Basics

  datatype Kind = Text | Email | Tel | Number | Search | Password | Untyped | AnotherKind

  /** An input as the detectors see it. `haystack` is the lowercased text of its name, id, placeholder and labels;
    * `inSearch` says whether it or its form has a search role. */
  datatype Input = Input(
    kind: Kind,
    tokens: seq<string>,
    form: Option<int>,
    fillable: bool,
    onCanvas: bool,
    haystack: string,
    inSearch: bool)

  /** The words looked for in the text of an input. What is proved here holds for any lists. */
  datatype Words = Words(username: seq<string>, code: seq<string>, against: seq<string>, notIdentifier: seq<string>)

  const NEGATIVE_WORDS := ["search", "query", "q", "coupon", "promo", "zip", "postcode"]

  const WORDS := Words(
    ["username", "userid", "user_id", "user-id", "user", "login", "loginid", "email", "e-mail", "account",
     "identifier", "handle"],
    ["otp", "totp", "2fa", "twofactor", "two-factor", "onetime", "one-time", "authcode", "auth_code",
     "verificationcode", "verification_code", "securitycode", "mfa"],
    NEGATIVE_WORDS,
    NEGATIVE_WORDS + ["newsletter", "subscribe", "address", "street", "city", "state", "country", "company",
                      "organization", "comment", "message", "coupon", "gift", "invite", "referral"])

  /** The inputs in document order, whether some button looks like it moves a sign-in on, and the words in use, which
    * are the original's if nothing else is said. An input is named by its place. */
  datatype Page = Page(inputs: seq<Input>, moveOn: bool, words: Words := WORDS)

  // ----- choosing from a list -----

  /** The elements of `s` that `keep` holds of, in order. */
  function Keep(s: seq<nat>, keep: nat -> bool): (kept: seq<nat>)
    ensures forall x: nat :: x in kept <==> x in s && keep(x)
    ensures |kept| <= |s|
  {
    if s == [] then [] else (if keep(s[0]) then [s[0]] else []) + Keep(s[1..], keep)
  }

  predicate Increasing(s: seq<nat>) {
    forall i, j | 0 <= i < j < |s| :: s[i] < s[j]
  }

  lemma MoreIncreasing(s: seq<nat>, t: seq<nat>)
    requires Increasing(s) && Increasing(t) && forall x: nat, y: nat | x in s && y in t :: x < y
    ensures Increasing(s + t)
  {
    var u := s + t;
    forall i, j | 0 <= i < j < |u|
      ensures u[i] < u[j]
    {
      if i < |s| <= j {
        assert u[i] in s && u[j] in t;
      }
    }
  }

  lemma {:induction false} KeepIncreasing(s: seq<nat>, keep: nat -> bool)
    requires Increasing(s)
    ensures Increasing(Keep(s, keep))
  {
    if s != [] {
      var first := if keep(s[0]) then [s[0]] else [];
      var rest := s[1..];
      assert forall i | 0 <= i < |rest| :: rest[i] == s[i + 1];
      KeepIncreasing(rest, keep);
      MoreIncreasing(first, Keep(rest, keep));
    }
  }

  /** A kept list has more than one element exactly when two elements are kept. */
  lemma MoreThanOne(s: seq<nat>, keep: nat -> bool, x: nat)
    requires Increasing(s) && x in Keep(s, keep)
    ensures |Keep(s, keep)| > 1 <==> exists y: nat :: y in s && keep(y) && y != x
  {
    KeepIncreasing(s, keep);
    var kept := Keep(s, keep);
    if |kept| > 1 {
      var y := if kept[0] == x then kept[1] else kept[0];
      assert y in kept && y != x;
    }
    if y: nat :| y in s && keep(y) && y != x {
      assert y in kept;
    }
  }

  /** The first element that `holds`. */
  function First(s: seq<nat>, holds: nat -> bool): (r: Option<nat>)
    ensures r.None? <==> forall x: nat | x in s :: !holds(x)
    ensures r.Some? ==> r.value in s && holds(r.value)
  {
    if s == [] then None else if holds(s[0]) then Some(s[0]) else First(s[1..], holds)
  }

  lemma {:induction false} FirstIsFirst(s: seq<nat>, holds: nat -> bool)
    requires Increasing(s) && First(s, holds).Some?
    ensures forall x: nat | x in s && holds(x) :: First(s, holds).value <= x
  {
    if !holds(s[0]) {
      FirstIsFirst(s[1..], holds);
    }
  }

  lemma FirstExactly(s: seq<nat>, holds: nat -> bool, x: nat)
    requires Increasing(s)
    ensures First(s, holds) == Some(x) <==> x in s && holds(x) && forall y: nat | y in s && holds(y) :: x <= y
  {
    if First(s, holds).Some? {
      FirstIsFirst(s, holds);
    }
  }

  function Upto(n: nat): (s: seq<nat>)
    ensures Increasing(s) && forall x: nat :: x in s <==> x < n
  {
    if n == 0 then []
    else
      MoreIncreasing(Upto(n - 1), [n - 1]);
      Upto(n - 1) + [n - 1]
  }

  function Places(page: Page): (s: seq<nat>) {
    Upto(|page.inputs|)
  }

  predicate Has(page: Page, x: nat, token: string) {
    x < |page.inputs| && token in page.inputs[x].tokens
  }

  /** The places of the fillable inputs of some kinds: a query of the page and its filter. */
  function Fillable(page: Page, kinds: set<Kind>): (s: seq<nat>)
    ensures Increasing(s)
    ensures forall x: nat :: x in s <==> x < |page.inputs| && page.inputs[x].kind in kinds && page.inputs[x].fillable
  {
    var keep := (x: nat) => x < |page.inputs| && page.inputs[x].kind in kinds && page.inputs[x].fillable;
    KeepIncreasing(Places(page), keep);
    Keep(Places(page), keep)
  }

  // ----- scores -----

  predicate Includes(text: string, word: string) {
    exists i :: 0 <= i <= |text| - |word| && IsAt(text, i, word)
  }

  predicate IsAt(text: string, i: nat, word: string) {
    i + |word| <= |text| && text[i..i + |word|] == word
  }

  function ScoreOf(text: string, words: seq<string>): (n: nat) {
    if words == [] then 0
    else ScoreOf(text, words[..|words| - 1]) + if Includes(text, words[|words| - 1]) then |words[|words| - 1]| else 0
  }

  method Score(text: string, words: seq<string>) returns (total: nat)
    ensures total == ScoreOf(text, words)
  {
    total := 0;
    for i := 0 to |words|
      invariant total == ScoreOf(text, words[..i])
    {
      assert words[..i + 1][..i] == words[..i];
      if Includes(text, words[i]) {
        total := total + |words[i]|;
      }
    }
    assert words[..|words|] == words;
  }

  /** How much the text of an input speaks for a user name. */
  function ValueOf(page: Page, x: nat): int {
    if x < |page.inputs| then
      ScoreOf(page.inputs[x].haystack, page.words.username) - ScoreOf(page.inputs[x].haystack, page.words.against) * 2
    else 0
  }

  // ----- the user name -----

  const USERNAME_KINDS := {Text, Email, Tel, Untyped}

  function FormOf(page: Page, x: nat): Option<int> {
    if x < |page.inputs| then page.inputs[x].form else None
  }

  /** The fillable text inputs of the password's form, or all of the page if it has no form. */
  function SameForm(page: Page, password: nat): (s: seq<nat>)
    ensures Increasing(s)
    ensures forall x: nat :: x in s <==> x in Fillable(page, USERNAME_KINDS)
                                         && (FormOf(page, password).None? || FormOf(page, x) == FormOf(page, password))
  {
    var form := FormOf(page, password);
    var same := (x: nat) => form.None? || FormOf(page, x) == form;
    KeepIncreasing(Fillable(page, USERNAME_KINDS), same);
    Keep(Fillable(page, USERNAME_KINDS), same)
  }

  /** Those, or all of the page if there are none. */
  function Pool(page: Page, password: nat): (s: seq<nat>)
    ensures Increasing(s) && forall x: nat | x in s :: x in Fillable(page, USERNAME_KINDS)
  {
    if SameForm(page, password) != [] then SameForm(page, password) else Fillable(page, USERNAME_KINDS)
  }

  predicate DeclaresUsername(page: Page, x: nat) {
    Has(page, x, "username") || Has(page, x, "email")
  }

  function Before(s: seq<nat>, place: nat): (before: seq<nat>)
    ensures forall x: nat :: x in before <==> x in s && x < place
  {
    Keep(s, (x: nat) => x < place)
  }

  function Ordered(page: Page, password: nat): (s: seq<nat>)
    ensures Increasing(s) && forall x: nat | x in s :: x in Fillable(page, USERNAME_KINDS)
  {
    var pool := Pool(page, password);
    KeepIncreasing(pool, (x: nat) => x < password);
    if Before(pool, password) != [] then Before(pool, password) else pool
  }

  /** `best` has the highest value of `s`, and is the last to have it. */
  predicate IsLastBest(page: Page, s: seq<nat>, best: nat) {
    best in s && forall x: nat | x in s :: ValueOf(page, x) < ValueOf(page, best)
                                      || (ValueOf(page, x) == ValueOf(page, best) && x <= best)
  }

  /** The user name that goes with a password: the first declared, or else the last of the best scored, unless even
    * that speaks against it, or nothing speaks for it and it does not precede the password. */
  predicate IsUsername(page: Page, password: nat, x: nat) {
    var pool := Pool(page, password);
    IsUsernameOf(page, pool, Ordered(page, password), Before(pool, password) != [], x)
  }

  predicate IsUsernameOf(page: Page, pool: seq<nat>, ordered: seq<nat>, precedes: bool, x: nat) {
    if exists y: nat :: y in pool && DeclaresUsername(page, y) then
      First(pool, (y: nat) => DeclaresUsername(page, y)) == Some(x)
    else
      IsLastBest(page, ordered, x) && ValueOf(page, x) >= 0 && (ValueOf(page, x) == 0 ==> precedes)
  }

  /** What the running best knows after some candidates: none of them reached -1, or it is the last best of them. */
  predicate IsBestSoFar(page: Page, s: seq<nat>, best: Option<nat>, bestScore: int) {
    match best
    case None => bestScore == -1 && forall x: nat | x in s :: ValueOf(page, x) < -1
    case Some(b) => IsLastBest(page, s, b) && bestScore == ValueOf(page, b)
  }

  lemma OneMore(page: Page, ordered: seq<nat>, i: nat, best: Option<nat>, bestScore: int)
    requires Increasing(ordered) && i < |ordered| && bestScore >= -1
    requires IsBestSoFar(page, ordered[..i], best, bestScore)
    ensures var value := ValueOf(page, ordered[i]);
            if value >= bestScore then IsBestSoFar(page, ordered[..i + 1], Some(ordered[i]), value)
            else IsBestSoFar(page, ordered[..i + 1], best, bestScore)
  {
    var x := ordered[i];
    assert ordered[..i + 1] == ordered[..i] + [x];
    forall y: nat | y in ordered[..i]
      ensures y < x
    {
      var j :| 0 <= j < i && ordered[j] == y;
    }
  }

  /** The running best over the candidates, in order; a candidate as good as the best so far replaces it. */
  method BestOf(page: Page, ordered: seq<nat>) returns (best: Option<nat>, bestScore: int)
    requires Increasing(ordered) && forall x: nat | x in ordered :: x < |page.inputs|
    ensures bestScore >= -1 && IsBestSoFar(page, ordered, best, bestScore)
  {
    best, bestScore := None, -1;
    for i := 0 to |ordered|
      invariant bestScore >= -1 && IsBestSoFar(page, ordered[..i], best, bestScore)
    {
      var x := ordered[i];
      assert x in ordered;
      OneMore(page, ordered, i, best, bestScore);
      var forName := Score(page.inputs[x].haystack, page.words.username);
      var against := Score(page.inputs[x].haystack, page.words.against);
      var value: int := forName as int - against as int * 2;
      if value >= bestScore {
        bestScore := value;
        best := Some(x);
      }
    }
    assert ordered[..|ordered|] == ordered;
  }

  lemma NobodyFits(page: Page, password: nat, best: Option<nat>, bestScore: int)
    requires First(Pool(page, password), (x: nat) => DeclaresUsername(page, x)).None?
    requires IsBestSoFar(page, Ordered(page, password), best, bestScore)
    requires bestScore < 0 || (bestScore == 0 && Before(Pool(page, password), password) == [])
    ensures forall x: nat :: !IsUsername(page, password, x)
  {
    var pool, ordered := Pool(page, password), Ordered(page, password);
    forall x: nat
      ensures !IsUsername(page, password, x)
    {
      NotTheBest(page, pool, ordered, Before(pool, password) != [], best, bestScore, x);
    }
  }

  lemma NotTheBest(page: Page, pool: seq<nat>, ordered: seq<nat>, precedes: bool, best: Option<nat>, bestScore: int,
                   x: nat)
    requires First(pool, (x: nat) => DeclaresUsername(page, x)).None?
    requires IsBestSoFar(page, ordered, best, bestScore) && (bestScore < 0 || (bestScore == 0 && !precedes))
    ensures !IsUsernameOf(page, pool, ordered, precedes, x)
  {
    if x in ordered && best.Some? {
      assert ValueOf(page, x) <= ValueOf(page, best.value);
    }
  }

  method UsernameFor(page: Page, password: nat) returns (r: Option<nat>)
    ensures r.Some? ==> IsUsername(page, password, r.value)
    ensures r.None? ==> forall x: nat :: !IsUsername(page, password, x)
  {
    var candidates := Fillable(page, USERNAME_KINDS);
    if candidates == [] {
      return None;
    }
    var pool := Pool(page, password);
    var declared := First(pool, (x: nat) => DeclaresUsername(page, x));
    if declared.Some? {
      return declared;
    }
    var before := Before(pool, password);
    var ordered := Ordered(page, password);
    var best, bestScore := BestOf(page, ordered);
    if bestScore < 0 {
      NobodyFits(page, password, best, bestScore);
      return None;
    }
    if bestScore == 0 && before == [] {
      NobodyFits(page, password, best, bestScore);
      return None;
    }
    return best;
  }

  // What all this comes to, over the places of the page.

  /** A text input that can be typed into. */
  predicate IsText(page: Page, y: nat) {
    y < |page.inputs| && page.inputs[y].kind in {Text, Email, Tel, Untyped} && page.inputs[y].fillable
  }

  /** A text input of the password's form; of the whole page if that form has none, or there is no form. */
  ghost predicate IsNear(page: Page, password: nat, y: nat) {
    && IsText(page, y)
    && (FormOf(page, password).Some? && FormOf(page, y) != FormOf(page, password) ==>
          forall z: nat | IsText(page, z) :: FormOf(page, z) != FormOf(page, password))
  }

  /** A near input before the password; any near one if none comes before it. */
  ghost predicate IsCandidate(page: Page, password: nat, y: nat) {
    && IsNear(page, password, y)
    && (y >= password ==> forall z: nat | IsNear(page, password, z) :: z >= password)
  }

  lemma PoolExactly(page: Page, password: nat, y: nat)
    ensures y in Pool(page, password) <==> IsNear(page, password, y)
  {
    var kept := SameForm(page, password);
    assert forall z: nat :: z in Fillable(page, USERNAME_KINDS) <==> IsText(page, z);
    if kept != [] {
      assert kept[0] in kept;
    } else {
      assert forall z: nat :: z !in kept;
    }
  }

  lemma OrderedExactly(page: Page, password: nat, y: nat)
    ensures y in Ordered(page, password) <==> IsCandidate(page, password, y)
  {
    var pool, before := Pool(page, password), Before(Pool(page, password), password);
    forall z: nat
      ensures z in pool <==> IsNear(page, password, z)
    {
      PoolExactly(page, password, z);
    }
    if before != [] {
      assert before[0] in before;
    } else {
      assert forall z: nat | z in pool :: z !in before;
    }
  }

  /** The input declares itself, and is the first near one that does. */
  ghost predicate IsFirstDeclared(page: Page, password: nat, x: nat) {
    && IsNear(page, password, x) && DeclaresUsername(page, x)
    && forall y: nat | IsNear(page, password, y) && DeclaresUsername(page, y) :: x <= y
  }

  /** The input is the last of the best scored candidates, and nothing speaks against it: no word does, and if none
    * speaks for it either, it stands before the password. */
  ghost predicate IsBestCandidate(page: Page, password: nat, x: nat) {
    && IsCandidate(page, password, x) && ValueOf(page, x) >= 0
    && (forall y: nat | IsCandidate(page, password, y) ::
          ValueOf(page, y) < ValueOf(page, x) || (ValueOf(page, y) == ValueOf(page, x) && y <= x))
    && (ValueOf(page, x) == 0 ==> x < password)
  }

  /** A candidate stands before the password exactly when some near input does. */
  lemma BeforeExactly(page: Page, password: nat, x: nat)
    ensures IsCandidate(page, password, x) ==> (Before(Pool(page, password), password) != [] <==> x < password)
  {
    var before := Before(Pool(page, password), password);
    forall z: nat
      ensures z in before <==> IsNear(page, password, z) && z < password
    {
      PoolExactly(page, password, z);
    }
    if before != [] {
      assert before[0] in before;
    }
  }

  lemma FirstDeclaredExactly(page: Page, password: nat, x: nat)
    ensures First(Pool(page, password), (y: nat) => DeclaresUsername(page, y)) == Some(x)
        <==> IsFirstDeclared(page, password, x)
  {
    forall y: nat
      ensures y in Pool(page, password) <==> IsNear(page, password, y)
    {
      PoolExactly(page, password, y);
    }
    FirstExactly(Pool(page, password), (y: nat) => DeclaresUsername(page, y), x);
  }

  lemma LastBestExactly(page: Page, password: nat, x: nat)
    ensures IsLastBest(page, Ordered(page, password), x)
        <==> IsCandidate(page, password, x)
             && forall y: nat | IsCandidate(page, password, y) ::
                  ValueOf(page, y) < ValueOf(page, x) || (ValueOf(page, y) == ValueOf(page, x) && y <= x)
  {
    forall y: nat
      ensures y in Ordered(page, password) <==> IsCandidate(page, password, y)
    {
      OrderedExactly(page, password, y);
    }
    LastBestAmong(page, password, Ordered(page, password), x);
  }

  lemma LastBestAmong(page: Page, password: nat, s: seq<nat>, x: nat)
    requires forall y: nat :: y in s <==> IsCandidate(page, password, y)
    ensures IsLastBest(page, s, x)
        <==> IsCandidate(page, password, x)
             && forall y: nat | IsCandidate(page, password, y) ::
                  ValueOf(page, y) < ValueOf(page, x) || (ValueOf(page, y) == ValueOf(page, x) && y <= x)
  {
  }

  lemma BestExactly(page: Page, password: nat, x: nat)
    ensures IsLastBest(page, Ordered(page, password), x) && ValueOf(page, x) >= 0
            && (ValueOf(page, x) == 0 ==> Before(Pool(page, password), password) != [])
        <==> IsBestCandidate(page, password, x)
  {
    LastBestExactly(page, password, x);
    BeforeExactly(page, password, x);
  }

  ghost predicate NoneDeclares(page: Page, password: nat) {
    forall y: nat | IsNear(page, password, y) :: !DeclaresUsername(page, y)
  }

  lemma NoneDeclaresExactly(page: Page, password: nat)
    ensures NoneDeclares(page, password) <==> forall y: nat | y in Pool(page, password) :: !DeclaresUsername(page, y)
  {
    forall y: nat
      ensures y in Pool(page, password) <==> IsNear(page, password, y)
    {
      PoolExactly(page, password, y);
    }
  }

  /** The user name of a password is the first near text input that declares itself; if none does, it is the last of the
    * best scored before the password, or of all near ones if none is before it. */
  lemma UsernameExactly(page: Page, password: nat, x: nat)
    ensures IsUsername(page, password, x)
        <==> IsFirstDeclared(page, password, x)
             || (NoneDeclares(page, password) && IsBestCandidate(page, password, x))
  {
    NoneDeclaresExactly(page, password);
    FirstDeclaredExactly(page, password, x);
    BestExactly(page, password, x);
  }

  /** There is at most one such user name. */
  lemma UsernameUnique(page: Page, password: nat, x: nat, y: nat)
    requires IsUsername(page, password, x) && IsUsername(page, password, y)
    ensures x == y
  {
  }

  /** Whoever it is, it is a fillable text input, and of the password's form whenever that form has one. */
  lemma UsernameIsNear(page: Page, password: nat, x: nat)
    requires IsUsername(page, password, x)
    ensures x < |page.inputs| && page.inputs[x].kind in USERNAME_KINDS && page.inputs[x].fillable
    ensures FormOf(page, password).Some? && FormOf(page, x) != FormOf(page, password) ==>
              forall y: nat | y in Fillable(page, USERNAME_KINDS) :: FormOf(page, y) != FormOf(page, password)
  {
    var kept := SameForm(page, password);
    assert x in Pool(page, password);
    if kept != [] {
      assert kept[0] in kept;
    } else {
      assert forall y: nat | y in Fillable(page, USERNAME_KINDS) :: y !in kept;
    }
  }

  // ----- the login form -----

  predicate IsOnCanvas(page: Page, x: nat) {
    x < |page.inputs| && page.inputs[x].onCanvas
  }

  /** A password field that a form is setting rather than using: declared, or one of several. */
  predicate IsNewPasswordField(page: Page, x: nat, all: seq<nat>) {
    if Has(page, x, "new-password") then true
    else if FormOf(page, x).None? then |all| > 1
    else |Keep(all, (y: nat) => FormOf(page, y) == FormOf(page, x))| > 1
  }

  function OnCanvas(page: Page): (s: seq<nat>)
    ensures Increasing(s)
    ensures forall x: nat :: x in s <==> IsVisiblePassword(page, x)
  {
    var usable := Fillable(page, {Password});
    KeepIncreasing(usable, (x: nat) => IsOnCanvas(page, x));
    Keep(usable, (x: nat) => IsOnCanvas(page, x))
  }

  function Current(page: Page): (s: seq<nat>) {
    Keep(OnCanvas(page), (x: nat) => !IsNewPasswordField(page, x, OnCanvas(page)))
  }

  /** The password of the login form: one the site declared, or else the first that is not a new password. */
  function LoginPassword(page: Page): (r: Option<nat>) {
    var current := Current(page);
    match First(current, (x: nat) => Has(page, x, "current-password"))
    case Some(x) => Some(x)
    case None => if current == [] then None else Some(current[0])
  }

  predicate IsVisiblePassword(page: Page, x: nat) {
    x < |page.inputs| && page.inputs[x].kind == Password && page.inputs[x].fillable && page.inputs[x].onCanvas
  }

  /** No other password field a person can see shares the form of `x`, or the page if `x` has no form. */
  ghost predicate IsAlone(page: Page, x: nat) {
    forall y: nat | IsVisiblePassword(page, y) && y != x ::
      FormOf(page, x).Some? && FormOf(page, y) != FormOf(page, x)
  }

  ghost predicate IsLoginCandidate(page: Page, x: nat) {
    IsVisiblePassword(page, x) && !Has(page, x, "new-password") && IsAlone(page, x)
  }

  lemma NewPasswordExactly(page: Page, x: nat)
    requires IsVisiblePassword(page, x)
    ensures IsNewPasswordField(page, x, OnCanvas(page)) <==> Has(page, x, "new-password") || !IsAlone(page, x)
  {
    var all := OnCanvas(page);
    var everywhere := (y: nat) => true;
    var same := (y: nat) => FormOf(page, y) == FormOf(page, x);
    assert x in all;
    if FormOf(page, x).Some? {
      MoreThanOne(all, same, x);
    } else {
      MoreThanOneOf(all, x);
    }
  }

  lemma MoreThanOneOf(s: seq<nat>, x: nat)
    requires Increasing(s) && x in s
    ensures |s| > 1 <==> exists y: nat :: y in s && y != x
  {
    if |s| > 1 {
      var y := if s[0] == x then s[1] else s[0];
      assert y in s && y != x;
    }
  }

  lemma CurrentExactly(page: Page, x: nat)
    ensures x in Current(page) <==> IsLoginCandidate(page, x)
  {
    if IsVisiblePassword(page, x) {
      NewPasswordExactly(page, x);
    }
  }

  lemma NoCandidateNoLogin(page: Page)
    ensures LoginPassword(page).None? <==> forall x: nat :: !IsLoginCandidate(page, x)
  {
    forall x: nat
      ensures x in Current(page) <==> IsLoginCandidate(page, x)
    {
      CurrentExactly(page, x);
    }
    if Current(page) != [] {
      assert Current(page)[0] in Current(page);
    }
  }

  /** `x` is preferred to `y`: declared as a current password, or else earlier. */
  predicate IsPreferred(page: Page, x: nat, y: nat) {
    if Has(page, x, "current-password") then Has(page, y, "current-password") ==> x < y
    else !Has(page, y, "current-password") && x < y
  }

  lemma LoginPasswordIsPreferred(page: Page)
    requires LoginPassword(page).Some?
    ensures var x := LoginPassword(page).value;
            x in Current(page) && forall y: nat | y in Current(page) && y != x :: IsPreferred(page, x, y)
  {
    var current := Current(page);
    var declares := (y: nat) => Has(page, y, "current-password");
    KeepIncreasing(OnCanvas(page), (y: nat) => !IsNewPasswordField(page, y, OnCanvas(page)));
    if First(current, declares).Some? {
      FirstIsFirst(current, declares);
    } else {
      assert current[0] in current;
    }
  }

  /** The login form is found exactly when some visible password field is alone and not a new one; its password is such
    * a field, one the site declared if there is any, and the first of those. */
  lemma LoginPasswordExactly(page: Page, x: nat)
    ensures LoginPassword(page) == Some(x) <==>
              IsLoginCandidate(page, x)
              && forall y: nat | IsLoginCandidate(page, y) && y != x :: IsPreferred(page, x, y)
  {
    forall y: nat
      ensures y in Current(page) <==> IsLoginCandidate(page, y)
    {
      CurrentExactly(page, y);
    }
    NoCandidateNoLogin(page);
    if LoginPassword(page).Some? {
      LoginPasswordIsPreferred(page);
    }
  }

  method DetectLoginForm(page: Page) returns (r: Option<(nat, Option<nat>)>)
    ensures r.Some? <==> LoginPassword(page).Some?
    ensures r.Some? ==> LoginPassword(page) == Some(r.value.0)
                        && if r.value.1.Some? then IsUsername(page, r.value.0, r.value.1.value)
                           else forall x: nat :: !IsUsername(page, r.value.0, x)
  {
    match LoginPassword(page) {
      case None => return None;
      case Some(password) =>
        var username := UsernameFor(page, password);
        return Some((password, username));
    }
  }

  // ----- the sign-up form -----

  function Passwords(page: Page): (s: seq<nat>)
    ensures Increasing(s)
    ensures forall x: nat :: x in s <==> x < |page.inputs| && page.inputs[x].kind == Password
  {
    var keep := (x: nat) => x < |page.inputs| && page.inputs[x].kind == Password;
    KeepIncreasing(Places(page), keep);
    Keep(Places(page), keep)
  }

  /** What the sign-up detector asks of the password fields before it asks the login detector. */
  predicate IsSignupShaped(page: Page) {
    var all := Passwords(page);
    1 <= |all| <= 2
    && (forall x: nat | x in all :: !Has(page, x, "current-password"))
    && (forall x: nat | x in all :: IsVisiblePassword(page, x))
    && (forall x: nat | x in all :: FormOf(page, x) == FormOf(page, all[0]))
    && (|all| == 1 ==> Has(page, all[0], "new-password"))
  }

  function SignupPasswords(page: Page): Option<seq<nat>> {
    if IsSignupShaped(page) && LoginPassword(page).None? then Some(Passwords(page)) else None
  }

  lemma SignupFieldIsNew(page: Page, x: nat)
    requires IsSignupShaped(page) && x in Passwords(page)
    ensures Has(page, x, "new-password") || !IsAlone(page, x)
  {
    var all := Passwords(page);
    if |all| == 2 {
      var y := if all[0] == x then all[1] else all[0];
      assert y in all && y != x && IsVisiblePassword(page, y);
      assert FormOf(page, y) == FormOf(page, all[0]) && FormOf(page, x) == FormOf(page, all[0]);
    }
  }

  /** The shape alone makes the login detector refuse, so the last question never changes the answer. */
  lemma SignupShapeRefusesLogin(page: Page)
    requires IsSignupShaped(page)
    ensures LoginPassword(page).None? && SignupPasswords(page) == Some(Passwords(page))
  {
    forall x: nat
      ensures !IsLoginCandidate(page, x)
    {
      if x in Passwords(page) {
        SignupFieldIsNew(page, x);
      }
    }
    NoCandidateNoLogin(page);
  }

  /** A password input that a person can see and type into, and that is not the current password's. */
  predicate IsOpenPassword(page: Page, x: nat) {
    IsVisiblePassword(page, x) && !Has(page, x, "current-password")
  }

  predicate IsPassword(page: Page, x: nat) {
    x < |page.inputs| && page.inputs[x].kind == Password
  }

  lemma FirstIsLeast(s: seq<nat>)
    requires Increasing(s) && s != []
    ensures forall x: nat | x in s :: s[0] <= x
    ensures Increasing(s[1..])
  {
  }

  lemma {:induction false} SameIncreasing(s: seq<nat>, t: seq<nat>)
    requires Increasing(s) && Increasing(t) && forall x: nat :: x in s <==> x in t
    ensures s == t
  {
    assert s != [] ==> s[0] in s;
    assert t != [] ==> t[0] in t;
    if s != [] && t != [] {
      FirstIsLeast(s);
      FirstIsLeast(t);
      assert s[0] in t && t[0] in s && s[0] == t[0];
      assert forall x: nat :: x in s[1..] <==> x in s && x != s[0];
      assert forall x: nat :: x in t[1..] <==> x in t && x != t[0];
      SameIncreasing(s[1..], t[1..]);
      assert s == [s[0]] + s[1..] && t == [t[0]] + t[1..];
    }
  }

  lemma PasswordsAre(page: Page, x: nat, y: nat)
    requires x <= y
    ensures Passwords(page) == (if x == y then [x] else [x, y])
        <==> forall z: nat :: IsPassword(page, z) <==> z == x || z == y
  {
    var all, boxes := Passwords(page), if x == y then [x] else [x, y];
    assert forall z: nat :: z in all <==> IsPassword(page, z);
    assert forall z: nat :: z in boxes <==> z == x || z == y;
    if forall z: nat :: IsPassword(page, z) <==> z == x || z == y {
      SameIncreasing(all, boxes);
    }
  }

  lemma ShapedExactly(page: Page, x: nat, y: nat)
    requires x <= y && Passwords(page) == if x == y then [x] else [x, y]
    ensures IsSignupShaped(page)
        <==> IsOpenPassword(page, x) && IsOpenPassword(page, y) && FormOf(page, x) == FormOf(page, y)
             && (x == y ==> Has(page, x, "new-password"))
  {
    var all := Passwords(page);
    assert all[0] == x && x in all && y in all && all[|all| - 1] == y;
    assert forall z: nat | z in all :: z == x || z == y;
    assert IsPassword(page, x) && IsPassword(page, y);
  }

  /** The page asks for a new password: its password inputs are one, which is declared as new, or two, all of them open
    * and of one form. */
  lemma SignupExactly(page: Page, x: nat, y: nat)
    requires x <= y
    ensures SignupPasswords(page) == Some(if x == y then [x] else [x, y])
        <==> (forall z: nat :: IsPassword(page, z) <==> z == x || z == y)
             && IsOpenPassword(page, x) && IsOpenPassword(page, y) && FormOf(page, x) == FormOf(page, y)
             && (x == y ==> Has(page, x, "new-password"))
  {
    PasswordsAre(page, x, y);
    if Passwords(page) == if x == y then [x] else [x, y] {
      ShapedExactly(page, x, y);
    }
    if IsSignupShaped(page) {
      SignupShapeRefusesLogin(page);
    }
  }

  // ----- the identifier form -----

  const SEARCH_WORDS := ["search", "query"]

  predicate IsSearchField(page: Page, x: nat) {
    x < |page.inputs|
    && (page.inputs[x].kind == Search || page.inputs[x].inSearch
        || ScoreOf(page.inputs[x].haystack, SEARCH_WORDS) > 0)
  }

  predicate LooksLikeIdentifier(page: Page, x: nat)
    requires x < |page.inputs|
  {
    var input := page.inputs[x];
    if DeclaresUsername(page, x) then true
    else if Has(page, x, "one-time-code") || Has(page, x, "new-password") then false
    else if ScoreOf(input.haystack, page.words.notIdentifier) > 0 then false
    else if ScoreOf(input.haystack, page.words.code) > 0 then false
    else input.kind == Email || ScoreOf(input.haystack, page.words.username) > 0
  }

  /** The text boxes of the page that are no search boxes. */
  function TextBoxes(page: Page): (s: seq<nat>)
    ensures Increasing(s)
    ensures forall x: nat :: x in s <==> x in Fillable(page, {Text, Email, Untyped, Search}) && !IsSearchField(page, x)
  {
    KeepIncreasing(Fillable(page, {Text, Email, Untyped, Search}), (x: nat) => !IsSearchField(page, x));
    Keep(Fillable(page, {Text, Email, Untyped, Search}), (x: nat) => !IsSearchField(page, x))
  }

  function IdentifierField(page: Page): (r: Option<nat>) {
    if Fillable(page, {Password}) != [] then None
    else
      var candidates := TextBoxes(page);
      if |candidates| != 1 then None
      else
        var x := candidates[0];
        assert x in candidates;
        if LooksLikeIdentifier(page, x) && (FormOf(page, x).Some? || page.moveOn) then Some(x) else None
  }

  /** One of these words is in the text. */
  predicate SaysAny(text: string, words: seq<string>) {
    exists i :: 0 <= i < |words| && words[i] != "" && Includes(text, words[i])
  }

  lemma {:induction false} ScoreIsPositive(text: string, words: seq<string>)
    ensures ScoreOf(text, words) > 0 <==> SaysAny(text, words)
  {
    if words != [] {
      var front, last := words[..|words| - 1], words[|words| - 1];
      ScoreIsPositive(text, front);
      if SaysAny(text, front) {
        var i :| 0 <= i < |front| && front[i] != "" && Includes(text, front[i]);
        assert words[i] == front[i];
      }
      if last != "" && Includes(text, last) {
        assert words[|words| - 1] == last;
      }
      if i :| 0 <= i < |words| && words[i] != "" && Includes(text, words[i]) {
        assert i < |front| ==> front[i] == words[i];
      }
    }
  }

  /** A text box that can be typed into and is no search box. */
  predicate IsTextBox(page: Page, x: nat) {
    && x < |page.inputs| && page.inputs[x].fillable && page.inputs[x].kind in {Text, Email, Untyped}
    && !page.inputs[x].inSearch && !SaysAny(page.inputs[x].haystack, SEARCH_WORDS)
  }

  /** The input says that it is a user name: by declaring it, or by its type or a word, and then nothing says it is
    * something else. */
  predicate SaysIdentifier(page: Page, x: nat)
    requires x < |page.inputs|
  {
    var text := page.inputs[x].haystack;
    || Has(page, x, "username") || Has(page, x, "email")
    || (!Has(page, x, "one-time-code") && !Has(page, x, "new-password")
        && !SaysAny(text, page.words.notIdentifier) && !SaysAny(text, page.words.code)
        && (page.inputs[x].kind == Email || SaysAny(text, page.words.username)))
  }

  lemma SearchExactly(page: Page, x: nat)
    requires x < |page.inputs|
    ensures IsSearchField(page, x)
        <==> page.inputs[x].kind == Search || page.inputs[x].inSearch || SaysAny(page.inputs[x].haystack, SEARCH_WORDS)
  {
    ScoreIsPositive(page.inputs[x].haystack, SEARCH_WORDS);
  }

  lemma TextBoxExactly(page: Page, x: nat)
    ensures x in TextBoxes(page) <==> IsTextBox(page, x)
  {
    if x < |page.inputs| {
      SearchExactly(page, x);
    }
  }

  lemma LooksExactly(page: Page, x: nat)
    requires x < |page.inputs|
    ensures LooksLikeIdentifier(page, x) <==> SaysIdentifier(page, x)
  {
    ScoreIsPositive(page.inputs[x].haystack, page.words.notIdentifier);
    ScoreIsPositive(page.inputs[x].haystack, page.words.code);
    ScoreIsPositive(page.inputs[x].haystack, page.words.username);
  }

  ghost predicate IsOnlyTextBox(page: Page, x: nat) {
    IsTextBox(page, x) && forall y: nat | IsTextBox(page, y) :: y == x
  }

  lemma OnlyTextBoxExactly(page: Page, x: nat)
    ensures TextBoxes(page) == [x] <==> IsOnlyTextBox(page, x)
  {
    var boxes := TextBoxes(page);
    forall y: nat
      ensures y in boxes <==> IsTextBox(page, y)
    {
      TextBoxExactly(page, y);
    }
    if boxes == [x] {
      assert x in boxes;
    } else if x in boxes {
      MoreThanOneOf(boxes, x);
    }
  }

  /** No password input can be typed into. */
  ghost predicate NoUsablePassword(page: Page) {
    forall y: nat | IsPassword(page, y) :: !page.inputs[y].fillable
  }

  lemma NoUsablePasswordExactly(page: Page)
    ensures Fillable(page, {Password}) == [] <==> NoUsablePassword(page)
  {
    var passwords := Fillable(page, {Password});
    if passwords != [] {
      assert passwords[0] in passwords;
    } else {
      assert forall y: nat :: y !in passwords;
    }
  }

  /** An identifier form is found exactly on a page without a usable password field whose only text box says that it is
    * a user name, and that has something to press: a form, or a button that moves on. */
  lemma IdentifierExactly(page: Page, x: nat)
    ensures IdentifierField(page) == Some(x)
        <==> NoUsablePassword(page) && IsOnlyTextBox(page, x)
             && SaysIdentifier(page, x) && (FormOf(page, x).Some? || page.moveOn)
  {
    NoUsablePasswordExactly(page);
    OnlyTextBoxExactly(page, x);
    var boxes := TextBoxes(page);
    if |boxes| == 1 {
      assert boxes[0] in boxes && boxes == [boxes[0]];
      LooksExactly(page, boxes[0]);
    }
  }

  /** No page is claimed by two detectors. */
  lemma DetectorsExclude(page: Page)
    ensures !(LoginPassword(page).Some? && SignupPasswords(page).Some?)
    ensures !(LoginPassword(page).Some? && IdentifierField(page).Some?)
    ensures !(SignupPasswords(page).Some? && IdentifierField(page).Some?)
  {
    if LoginPassword(page).Some? {
      var x := LoginPassword(page).value;
      LoginPasswordExactly(page, x);
      assert x in Fillable(page, {Password});
    }
    if SignupPasswords(page).Some? {
      assert Passwords(page)[0] in Passwords(page);
      assert Passwords(page)[0] in Fillable(page, {Password});
    }
  }

  // ----- decoys -----

  /** The pages differ in a password field nobody can see, and in nothing else. */
  ghost predicate DifferInDecoy(page: Page, other: Page, d: nat) {
    |page.inputs| == |other.inputs| && page.words == other.words && d < |page.inputs|
    && page.inputs[d].kind == other.inputs[d].kind == Password
    && !IsVisiblePassword(page, d) && !IsVisiblePassword(other, d)
    && forall x: nat | x < |page.inputs| && x != d :: page.inputs[x] == other.inputs[x]
  }

  /** What a hidden or off-canvas password field says changes nothing about the login form. */
  lemma DecoyIsIgnored(page: Page, other: Page, d: nat)
    requires DifferInDecoy(page, other, d)
    ensures LoginPassword(page) == LoginPassword(other)
  {
    forall x: nat
      ensures IsLoginCandidate(page, x) <==> IsLoginCandidate(other, x)
      ensures IsLoginCandidate(page, x) ==>
                (Has(page, x, "current-password") <==> Has(other, x, "current-password"))
    {
      SameCandidate(page, other, d, x);
    }
    if LoginPassword(page).Some? {
      var x := LoginPassword(page).value;
      LoginPasswordExactly(page, x);
      LoginPasswordExactly(other, x);
    }
    if LoginPassword(other).Some? {
      var x := LoginPassword(other).value;
      LoginPasswordExactly(page, x);
      LoginPasswordExactly(other, x);
    }
  }

  lemma SameCandidate(page: Page, other: Page, d: nat, x: nat)
    requires DifferInDecoy(page, other, d)
    ensures IsLoginCandidate(page, x) <==> IsLoginCandidate(other, x)
  {
    assert forall y: nat :: IsVisiblePassword(page, y) <==> IsVisiblePassword(other, y);
    if IsVisiblePassword(page, x) {
      assert x != d;
      assert forall y: nat | IsVisiblePassword(page, y) :: FormOf(page, y) == FormOf(other, y);
      assert IsAlone(page, x) <==> IsAlone(other, x);
    }
  }

  lemma {:induction false} KeepSame(s: seq<nat>, keep: nat -> bool, other: nat -> bool)
    requires forall x: nat | x in s :: keep(x) == other(x)
    ensures Keep(s, keep) == Keep(s, other)
  {
    if s != [] {
      KeepSame(s[1..], keep, other);
    }
  }

  lemma {:induction false} FirstSame(s: seq<nat>, holds: nat -> bool, other: nat -> bool)
    requires forall x: nat | x in s :: holds(x) == other(x)
    ensures First(s, holds) == First(s, other)
  {
    if s != [] {
      FirstSame(s[1..], holds, other);
    }
  }

  /** The pages have the same text inputs, up to which of them are on the canvas. */
  ghost predicate SameTexts(page: Page, other: Page) {
    |page.inputs| == |other.inputs| && page.words == other.words
    && forall x: nat | x < |page.inputs| :: SameText(page.inputs[x], other.inputs[x])
  }

  predicate SameText(a: Input, b: Input) {
    if a.kind in USERNAME_KINDS then a == b.(onCanvas := a.onCanvas) else b.kind !in USERNAME_KINDS
  }

  lemma SamePool(page: Page, other: Page, password: nat)
    requires SameTexts(page, other) && FormOf(page, password) == FormOf(other, password)
    ensures Pool(page, password) == Pool(other, password)
    ensures forall x: nat | x in Pool(page, password) :: x < |page.inputs| && page.inputs[x].kind in USERNAME_KINDS
  {
    KeepSame(Places(page),
      (x: nat) => x < |page.inputs| && page.inputs[x].kind in USERNAME_KINDS && page.inputs[x].fillable,
      (x: nat) => x < |other.inputs| && other.inputs[x].kind in USERNAME_KINDS && other.inputs[x].fillable);
    var candidates, form := Fillable(page, USERNAME_KINDS), FormOf(page, password);
    KeepSame(candidates, (x: nat) => form.None? || FormOf(page, x) == form,
                         (x: nat) => form.None? || FormOf(other, x) == form);
  }

  lemma SameLastBest(page: Page, other: Page, s: seq<nat>, x: nat)
    requires SameTexts(page, other)
    requires forall y: nat | y in s :: y < |page.inputs| && page.inputs[y].kind in USERNAME_KINDS
    ensures IsLastBest(page, s, x) <==> IsLastBest(other, s, x)
    ensures x in s ==> ValueOf(page, x) == ValueOf(other, x)
  {
    forall y: nat | y in s
      ensures ValueOf(page, y) == ValueOf(other, y)
    {
      assert SameText(page.inputs[y], other.inputs[y]);
    }
  }

  lemma SameDeclared(page: Page, other: Page, s: seq<nat>)
    requires SameTexts(page, other)
    requires forall y: nat | y in s :: y < |page.inputs| && page.inputs[y].kind in USERNAME_KINDS
    ensures First(s, (y: nat) => DeclaresUsername(page, y)) == First(s, (y: nat) => DeclaresUsername(other, y))
    ensures forall y: nat | y in s :: DeclaresUsername(page, y) <==> DeclaresUsername(other, y)
  {
    forall y: nat | y in s
      ensures DeclaresUsername(page, y) <==> DeclaresUsername(other, y)
    {
      assert SameText(page.inputs[y], other.inputs[y]);
    }
    FirstSame(s, (y: nat) => DeclaresUsername(page, y), (y: nat) => DeclaresUsername(other, y));
  }

  lemma SameUsernameOf(page: Page, other: Page, pool: seq<nat>, ordered: seq<nat>, precedes: bool, x: nat)
    requires SameTexts(page, other)
    requires forall y: nat | y in pool :: y < |page.inputs| && page.inputs[y].kind in USERNAME_KINDS
    requires forall y: nat | y in ordered :: y in pool
    ensures IsUsernameOf(page, pool, ordered, precedes, x) <==> IsUsernameOf(other, pool, ordered, precedes, x)
  {
    SameDeclared(page, other, pool);
    SameLastBest(page, other, ordered, x);
  }

  /** The user name depends on the text inputs alone, and not on their being on the canvas: an off-canvas text field is
    * taken for the user name of a visible password just as a visible one is. */
  lemma UsernameIgnoresCanvas(page: Page, other: Page, password: nat, x: nat)
    requires SameTexts(page, other) && FormOf(page, password) == FormOf(other, password)
    ensures IsUsername(page, password, x) <==> IsUsername(other, password, x)
  {
    SamePool(page, other, password);
    var pool, ordered := Pool(page, password), Ordered(page, password);
    assert ordered == Ordered(other, password);
    assert forall y: nat | y in ordered :: y in pool;
    SameUsernameOf(page, other, pool, ordered, Before(pool, password) != [], x);
  }

  /** The only fillable text field, if it declares itself, is the user name of every password. */
  lemma OnlyTextIsUsername(page: Page, password: nat, x: nat)
    requires x in Fillable(page, USERNAME_KINDS) && DeclaresUsername(page, x)
    requires forall y: nat | y in Fillable(page, USERNAME_KINDS) :: y == x
    ensures IsUsername(page, password, x)
  {
    var pool := Pool(page, password);
    PoolIsNotEmpty(page, password, x);
    assert pool[0] in pool;
    assert First(pool, (y: nat) => DeclaresUsername(page, y)) == Some(x);
  }

  lemma PoolIsNotEmpty(page: Page, password: nat, x: nat)
    requires x in Fillable(page, USERNAME_KINDS)
    ensures Pool(page, password) != []
  {
  }

  /** A user name and a password in one form, the user name off the canvas. */
  function DecoyPage(words: Words): Page {
    Page([Input(Text, ["username"], Some(0), true, false, "", false),
          Input(Password, [], Some(0), true, true, "", false)], false, words)
  }

  /** On that page the off-canvas field is the user name of the login form. */
  lemma DecoyIsUsername(words: Words)
    ensures var page := DecoyPage(words);
            LoginPassword(page) == Some(1) && IsUsername(page, 1, 0) && !IsOnCanvas(page, 0)
  {
    var page := DecoyPage(words);
    DecoyPageLogin(words);
    assert page.inputs[0].tokens[0] == "username";
    OnlyTextIsUsername(page, 1, 0);
  }

  lemma DecoyPageLogin(words: Words)
    ensures LoginPassword(DecoyPage(words)) == Some(1)
  {
    var page := DecoyPage(words);
    assert IsVisiblePassword(page, 1) && !Has(page, 1, "new-password");
    assert forall y: nat :: IsVisiblePassword(page, y) ==> y == 1;
    LoginPasswordExactly(page, 1);
  }
}
