/** The consent address and the redirect that answers it (xtask/src/chrome_auth.rs:98-218). */
module Redirect {
  import opened Basics
  import opened Utf8
  import opened Splitting
  import opened PercentCoding

  const AUTH_URL := Ascii("https://accounts.google.com") + Ascii("/o/oauth2/v2/auth")
  const SCOPE := Ascii("https://www.googleapis.com") + Ascii("/auth/chromewebstore")

  const AMPERSAND: Byte := '&' as int
  const EQUALS: Byte := '=' as int
  const QUESTION: Byte := '?' as int
  const SLASH: Byte := '/' as int

  const GET := Ascii("GET")
  const CODE := Ascii("code")
  const STATE := Ascii("state")
  const ERROR := Ascii("error")

  /** One name and its value. */
  type Field = (seq<Byte>, seq<Byte>)

  datatype Outcome =
    | Code(code: seq<Byte>)
    | Denied(error: seq<Byte>)
    | Other
    | StateMismatch
    | NoCode

  // ----- reading a request line -----

  /** How many bytes the white space character that starts `s` takes, or 0: the White_Space characters of Unicode. */
  function SpaceAt(s: seq<Byte>): (n: nat)
    ensures n <= |s|
  {
    if |s| >= 1 && (9 <= s[0] <= 13 || s[0] == SPACE) then 1
    else if |s| >= 2 && s[0] == 0xC2 && (s[1] == 0x85 || s[1] == 0xA0) then 2
    else if |s| >= 3 && s[0] == 0xE1 && s[1] == 0x9A && s[2] == 0x80 then 3
    else if |s| >= 3 && s[0] == 0xE2 && s[1] == 0x80 && (s[2] <= 0x8A || 0xA8 <= s[2] <= 0xA9 || s[2] == 0xAF)
      && s[2] >= 0x80 then 3
    else if |s| >= 3 && s[0] == 0xE2 && s[1] == 0x81 && s[2] == 0x9F then 3
    else if |s| >= 3 && s[0] == 0xE3 && s[1] == 0x80 && s[2] == 0x80 then 3
    else 0
  }

  function Trimmed(s: seq<Byte>): (t: seq<Byte>)
    ensures |t| <= |s|
  {
    if SpaceAt(s) > 0 then Trimmed(s[SpaceAt(s)..]) else s
  }

  function WordLength(s: seq<Byte>): (n: nat)
    ensures n <= |s|
  {
    if s == [] || SpaceAt(s) > 0 then 0 else 1 + WordLength(s[1..])
  }

  /** The first word of `s` and what follows it. */
  function NextWord(s: seq<Byte>): Option<(seq<Byte>, seq<Byte>)> {
    var t := Trimmed(s);
    if t == [] then None else Some((t[..WordLength(t)], t[WordLength(t)..]))
  }

  // ----- what a redirect says -----

  /** A part of a query cut at its first equals sign, if it has one. */
  function Pair(part: seq<Byte>): (seq<Byte>, seq<Byte>) {
    match SplitOnce(part, EQUALS)
    case Some(kv) => kv
    case None => (part, [])
  }

  /** One field of a query; `lossy` is the lossy conversion of bytes to text. */
  function ReadField(part: seq<Byte>, lossy: seq<Byte> -> seq<Byte>): Field {
    (Pair(part).0, lossy(Decoded(Pair(part).1)))
  }

  function ReadFields(parts: seq<seq<Byte>>, lossy: seq<Byte> -> seq<Byte>): (fields: seq<Field>)
    ensures |fields| == |parts|
  {
    seq(|parts|, i requires 0 <= i < |parts| => ReadField(parts[i], lossy))
  }

  /** The value `key` was given last. */
  function LastValue(fields: seq<Field>, key: seq<Byte>): (v: Option<seq<Byte>>) {
    if fields == [] then None
    else if fields[|fields| - 1].0 == key then Some(fields[|fields| - 1].1)
    else LastValue(fields[..|fields| - 1], key)
  }

  /** What the fields of a redirect mean: a refusal first, then a foreign state, then the code. */
  function Judged(fields: seq<Field>, expected: seq<Byte>): Outcome {
    match LastValue(fields, ERROR)
    case Some(e) => Denied(e)
    case None =>
      if LastValue(fields, STATE) != Some(expected) then StateMismatch
      else match LastValue(fields, CODE)
        case Some(c) => if c == [] then NoCode else Code(c)
        case None => NoCode
  }

  /** The query of a request line for the redirect. */
  function QueryOf(line: seq<Byte>): Option<seq<Byte>> {
    match NextWord(line)
    case None => None
    case Some((verb, rest)) =>
      match NextWord(rest)
      case None => None
      case Some((target, _)) =>
        match SplitOnce(target, QUESTION)
        case None => None
        case Some((path, query)) => if verb == GET && path == [SLASH] then Some(query) else None
  }

  function Redirected(line: seq<Byte>, expected: seq<Byte>, lossy: seq<Byte> -> seq<Byte>): Outcome {
    match QueryOf(line)
    case None => Other
    case Some(query) => Judged(ReadFields(SplitOn(query, AMPERSAND), lossy), expected)
  }

  method ParseRedirect(line: seq<Byte>, expected: seq<Byte>, lossy: seq<Byte> -> seq<Byte>) returns (r: Outcome)
    ensures r == Redirected(line, expected, lossy)
  {
    var query;
    match QueryOf(line) {
      case None => return Other;
      case Some(q) => query := q;
    }
    var code: Option<seq<Byte>>, state: Option<seq<Byte>>, error: Option<seq<Byte>> := None, None, None;
    var parts := SplitOn(query, AMPERSAND);
    ghost var fields := ReadFields(parts, lossy);
    KeysDiffer();
    for i := 0 to |parts|
      invariant code == LastValue(fields[..i], CODE)
      invariant state == LastValue(fields[..i], STATE)
      invariant error == LastValue(fields[..i], ERROR)
    {
      var (k, raw) := Pair(parts[i]);
      var decoded := PercentDecode(raw);
      var v := lossy(decoded);
      assert fields[i] == (k, v);
      LastValueOfMore(fields, i, CODE);
      LastValueOfMore(fields, i, STATE);
      LastValueOfMore(fields, i, ERROR);
      if k == CODE {
        code := Some(v);
      } else if k == STATE {
        state := Some(v);
      } else if k == ERROR {
        error := Some(v);
      }
    }
    assert fields[..|parts|] == fields;
    match error {
      case Some(e) => return Denied(e);
      case None =>
    }
    if state != Some(expected) {
      return StateMismatch;
    }
    match code {
      case Some(c) => return if c == [] then NoCode else Code(c);
      case None => return NoCode;
    }
  }

  lemma LastValueOfMore(fields: seq<Field>, i: nat, key: seq<Byte>)
    requires i < |fields|
    ensures LastValue(fields[..i + 1], key)
         == if fields[i].0 == key then Some(fields[i].1) else LastValue(fields[..i], key)
  {
    assert fields[..i + 1][..i] == fields[..i];
  }

  lemma KeysDiffer()
    ensures CODE != STATE && CODE != ERROR && STATE != ERROR
  {
    assert STATE[0] != ERROR[0];
  }

  // ----- what is written is what is read -----

  /** A byte of a printable ASCII character: no space, and no part of a longer character. */
  predicate IsPrintable(b: Byte) {
    32 < b < 127
  }

  predicate IsCleanKey(k: seq<Byte>) {
    AMPERSAND !in k && EQUALS !in k && forall i | 0 <= i < |k| :: IsPrintable(k[i])
  }

  ghost predicate Faithful(lossy: seq<Byte> -> seq<Byte>) {
    forall v | IsUtf8(v) :: lossy(v) == v
  }

  ghost predicate Writable(fields: seq<Field>) {
    forall i | 0 <= i < |fields| :: IsCleanKey(fields[i].0) && IsUtf8(fields[i].1)
  }

  function WriteField(f: Field): seq<Byte> {
    f.0 + [EQUALS] + Encoded(f.1)
  }

  function WriteFields(fields: seq<Field>): (parts: seq<seq<Byte>>)
    ensures |parts| == |fields|
  {
    seq(|fields|, i requires 0 <= i < |fields| => WriteField(fields[i]))
  }

  /** A query of these fields: percent-encoded values, joined with ampersands. */
  function Written(fields: seq<Field>): seq<Byte> {
    Join(WriteFields(fields), AMPERSAND)
  }

  lemma WrittenFieldIsClean(f: Field)
    requires IsCleanKey(f.0)
    ensures AMPERSAND !in WriteField(f)
    ensures forall i | 0 <= i < |WriteField(f)| :: IsPrintable(WriteField(f)[i])
  {
    EncodedIsClean(f.1);
  }

  lemma FieldReadBack(f: Field, lossy: seq<Byte> -> seq<Byte>)
    requires IsCleanKey(f.0) && IsUtf8(f.1) && Faithful(lossy)
    ensures ReadField(WriteField(f), lossy) == f
  {
    SplitOnceAt(f.0, EQUALS, Encoded(f.1));
    DecodingUndoesEncoding(f.1);
  }

  /** The fields of a query come back, each with its own value, in order. */
  lemma FieldsReadBack(fields: seq<Field>, lossy: seq<Byte> -> seq<Byte>)
    requires fields != [] && Writable(fields) && Faithful(lossy)
    ensures ReadFields(SplitOn(Written(fields), AMPERSAND), lossy) == fields
  {
    var parts := WriteFields(fields);
    forall i | 0 <= i < |parts|
      ensures AMPERSAND !in parts[i] && ReadField(parts[i], lossy) == fields[i]
    {
      WrittenFieldIsClean(fields[i]);
      FieldReadBack(fields[i], lossy);
    }
    SplitJoined(parts, AMPERSAND);
  }

  lemma {:induction false} JoinIsPrintable(parts: seq<seq<Byte>>)
    requires forall i, j | 0 <= i < |parts| && 0 <= j < |parts[i]| :: IsPrintable(parts[i][j])
    ensures forall j | 0 <= j < |Join(parts, AMPERSAND)| :: IsPrintable(Join(parts, AMPERSAND)[j])
  {
    if |parts| > 1 {
      JoinIsPrintable(parts[1..]);
    }
  }

  lemma WrittenIsPrintable(fields: seq<Field>)
    requires Writable(fields)
    ensures forall j | 0 <= j < |Written(fields)| :: IsPrintable(Written(fields)[j])
  {
    var parts := WriteFields(fields);
    forall i, j | 0 <= i < |parts| && 0 <= j < |parts[i]|
      ensures IsPrintable(parts[i][j])
    {
      WrittenFieldIsClean(fields[i]);
    }
    JoinIsPrintable(parts);
  }

  /** What may follow the target on the line. */
  predicate EndsWord(tail: seq<Byte>) {
    tail == [] || SpaceAt(tail) > 0
  }

  lemma {:induction false} WordEnds(word: seq<Byte>, tail: seq<Byte>)
    requires EndsWord(tail) && forall i | 0 <= i < |word| :: IsPrintable(word[i])
    ensures WordLength(word + tail) == |word|
  {
    if word == [] {
      assert word + tail == tail;
    } else {
      assert (word + tail)[1..] == word[1..] + tail;
      WordEnds(word[1..], tail);
    }
  }

  lemma FirstWord(word: seq<Byte>, tail: seq<Byte>)
    requires EndsWord(tail) && word != [] && forall i | 0 <= i < |word| :: IsPrintable(word[i])
    ensures NextWord(word + tail) == Some((word, tail))
  {
    WordEnds(word, tail);
    assert SpaceAt(word + tail) == 0;
  }

  lemma WordAfterSpace(s: seq<Byte>)
    ensures NextWord([SPACE] + s) == NextWord(s)
  {
    assert ([SPACE] + s)[1..] == s;
  }

  /** A request line for the loopback address with this query. */
  function RequestLine(query: seq<Byte>, tail: seq<Byte>): seq<Byte> {
    GET + ([SPACE] + (([SLASH] + [QUESTION] + query) + tail))
  }

  /** The words of a request line are the verb and the target. */
  lemma WordsReadBack(target: seq<Byte>, tail: seq<Byte>)
    requires EndsWord(tail) && target != [] && forall i | 0 <= i < |target| :: IsPrintable(target[i])
    ensures NextWord(GET + ([SPACE] + (target + tail))) == Some((GET, [SPACE] + (target + tail)))
    ensures NextWord([SPACE] + (target + tail)) == Some((target, tail))
  {
    FirstWord(GET, [SPACE] + (target + tail));
    WordAfterSpace(target + tail);
    FirstWord(target, tail);
  }

  lemma QueryReadBack(query: seq<Byte>, tail: seq<Byte>)
    requires EndsWord(tail) && forall i | 0 <= i < |query| :: IsPrintable(query[i])
    ensures QueryOf(RequestLine(query, tail)) == Some(query)
  {
    WordsReadBack([SLASH] + [QUESTION] + query, tail);
    SplitOnceAt([SLASH], QUESTION, query);
  }

  /** A redirect line built from encoded fields is judged by exactly those fields, whatever ends the line. */
  lemma RedirectReadBack(fields: seq<Field>, expected: seq<Byte>, tail: seq<Byte>, lossy: seq<Byte> -> seq<Byte>)
    requires Writable(fields) && Faithful(lossy) && EndsWord(tail)
    ensures Redirected(RequestLine(Written(fields), tail), expected, lossy) == Judged(fields, expected)
  {
    WrittenIsPrintable(fields);
    QueryReadBack(Written(fields), tail);
    if fields != [] {
      FieldsReadBack(fields, lossy);
    } else {
      assert Written(fields) == [];
      var read := ReadFields(SplitOn([], AMPERSAND), lossy);
      assert |read| == 1 && read[0].0 == [];
      assert read[..0] == [];
      assert LastValue(read[..0], ERROR).None? && LastValue(read[..0], STATE).None?;
    }
  }

  lemma {:induction false} LastValueIs(fields: seq<Field>, key: seq<Byte>, at: nat)
    requires at < |fields| && fields[at].0 == key
    requires forall j | at < j < |fields| :: fields[j].0 != key
    ensures LastValue(fields, key) == Some(fields[at].1)
  {
    if at < |fields| - 1 {
      LastValueIs(fields[..|fields| - 1], key, at);
    }
  }

  lemma {:induction false} NoLastValue(fields: seq<Field>, key: seq<Byte>)
    ensures LastValue(fields, key).None? <==> forall j | 0 <= j < |fields| :: fields[j].0 != key
  {
    if fields != [] {
      NoLastValue(fields[..|fields| - 1], key);
    }
  }

  /** The promise of the redirect: one matching state and one code that is not empty, in any order among other
    * parameters, give that code. */
  lemma CodeArrives(fields: seq<Field>, expected: seq<Byte>, tail: seq<Byte>, lossy: seq<Byte> -> seq<Byte>,
                    s: nat, c: nat)
    requires Writable(fields) && Faithful(lossy) && EndsWord(tail)
    requires s < |fields| && fields[s] == (STATE, expected)
    requires c < |fields| && fields[c].0 == CODE && fields[c].1 != []
    requires forall i | 0 <= i < |fields| ::
               fields[i].0 != ERROR && (i != s ==> fields[i].0 != STATE) && (i != c ==> fields[i].0 != CODE)
    ensures Redirected(RequestLine(Written(fields), tail), expected, lossy) == Code(fields[c].1)
  {
    RedirectReadBack(fields, expected, tail, lossy);
    LastValueIs(fields, STATE, s);
    LastValueIs(fields, CODE, c);
    NoLastValue(fields, ERROR);
  }

  /** No line yields a code unless its fields carry the expected state, and none yields one beside an error. */
  lemma NoCodeWithoutState(line: seq<Byte>, expected: seq<Byte>, lossy: seq<Byte> -> seq<Byte>)
    requires Redirected(line, expected, lossy).Code?
    ensures QueryOf(line).Some?
    ensures var fields := ReadFields(SplitOn(QueryOf(line).value, AMPERSAND), lossy);
            (STATE, expected) in fields
            && (CODE, Redirected(line, expected, lossy).code) in fields
            && forall f | f in fields :: f.0 != ERROR
  {
    var fields := ReadFields(SplitOn(QueryOf(line).value, AMPERSAND), lossy);
    NoLastValue(fields, ERROR);
    LastValueIsThere(fields, STATE);
    LastValueIsThere(fields, CODE);
  }

  lemma {:induction false} LastValueIsThere(fields: seq<Field>, key: seq<Byte>)
    ensures LastValue(fields, key).Some? ==> (key, LastValue(fields, key).value) in fields
  {
    if fields != [] && fields[|fields| - 1].0 != key {
      LastValueIsThere(fields[..|fields| - 1], key);
    }
  }

  /** The field at `i` is the last with this key. */
  predicate IsLast(fields: seq<Field>, key: seq<Byte>, i: int) {
    0 <= i < |fields| && fields[i].0 == key && forall j | i < j < |fields| :: fields[j].0 != key
  }

  /** Some field has the key, and the last that does has this value. */
  ghost predicate Says(fields: seq<Field>, key: seq<Byte>, value: seq<Byte>) {
    exists i :: IsLast(fields, key, i) && fields[i].1 == value
  }

  lemma {:induction false} LastPlace(fields: seq<Field>, key: seq<Byte>) returns (i: nat)
    requires LastValue(fields, key).Some?
    ensures IsLast(fields, key, i)
  {
    var n := |fields| - 1;
    if fields[n].0 == key {
      i := n;
    } else {
      i := LastPlace(fields[..n], key);
      assert forall j | 0 <= j < n :: fields[..n][j] == fields[j];
    }
  }

  lemma {:induction false} LastValueExactly(fields: seq<Field>, key: seq<Byte>, value: seq<Byte>)
    ensures LastValue(fields, key) == Some(value) <==> Says(fields, key, value)
  {
    NoLastValue(fields, key);
    if i :| IsLast(fields, key, i) && fields[i].1 == value {
      LastValueIs(fields, key, i);
    }
    if LastValue(fields, key) == Some(value) {
      var i := LastPlace(fields, key);
      LastValueIs(fields, key, i);
      assert IsLast(fields, key, i);
    }
  }

  /** A line of a redirect is a `GET` of the root with a query; anything else is no redirect. */
  lemma RedirectIsGet(line: seq<Byte>, query: seq<Byte>)
    ensures QueryOf(line) == Some(query)
        <==> exists rest, more :: NextWord(line) == Some((GET, rest))
                                  && NextWord(rest) == Some(([SLASH] + [QUESTION] + query, more))
  {
    if QueryOf(line) == Some(query) {
      var rest := NextWord(line).value.1;
      var (target, more) := NextWord(rest).value;
      var i := Find(target, QUESTION).value;
      assert target == target[..i] + [QUESTION] + target[i + 1..];
      assert target == [SLASH] + [QUESTION] + query;
    }
    if rest, more :| NextWord(line) == Some((GET, rest))
                     && NextWord(rest) == Some(([SLASH] + [QUESTION] + query, more))
    {
      SplitOnceAt([SLASH], QUESTION, query);
    }
  }

  /** What any line comes to: what its query's fields say last of an error, of the state and of the code. */
  lemma RedirectExactly(line: seq<Byte>, expected: seq<Byte>, lossy: seq<Byte> -> seq<Byte>)
    requires QueryOf(line).Some?
    ensures var fields := ReadFields(SplitOn(QueryOf(line).value, AMPERSAND), lossy);
            match Redirected(line, expected, lossy)
            case Other => false
            case Denied(e) => Says(fields, ERROR, e)
            case StateMismatch => (forall e :: !Says(fields, ERROR, e)) && !Says(fields, STATE, expected)
            case Code(c) =>
              (forall e :: !Says(fields, ERROR, e)) && Says(fields, STATE, expected) && Says(fields, CODE, c) && c != []
            case NoCode =>
              && (forall e :: !Says(fields, ERROR, e)) && Says(fields, STATE, expected)
              && forall c :: Says(fields, CODE, c) ==> c == []
  {
    var fields := ReadFields(SplitOn(QueryOf(line).value, AMPERSAND), lossy);
    forall key, value
      ensures LastValue(fields, key) == Some(value) <==> Says(fields, key, value)
    {
      LastValueExactly(fields, key, value);
    }
  }

  // ----- the consent address -----

  function ClientFields(client: seq<Byte>, redirect: seq<Byte>): seq<Field> {
    [(Ascii("client_id"), client), (Ascii("redirect_uri"), redirect), (Ascii("response_type"), CODE)]
  }

  function RequestFields(): seq<Field> {
    [(Ascii("scope"), SCOPE), (Ascii("access_type"), Ascii("offline")), (Ascii("prompt"), Ascii("consent"))]
  }

  function ProofFields(challenge: seq<Byte>, state: seq<Byte>): seq<Field> {
    [(Ascii("code_challenge"), challenge), (Ascii("code_challenge_method"), Ascii("S256")), (STATE, state)]
  }

  function ConsentFields(client: seq<Byte>, redirect: seq<Byte>, challenge: seq<Byte>, state: seq<Byte>): seq<Field> {
    ClientFields(client, redirect) + RequestFields() + ProofFields(challenge, state)
  }

  function ConsentUrl(client: seq<Byte>, redirect: seq<Byte>, challenge: seq<Byte>, state: seq<Byte>): seq<Byte> {
    AUTH_URL + [QUESTION] + Written(ConsentFields(client, redirect, challenge, state))
  }

  predicate IsName(name: string) {
    forall i | 0 <= i < |name| :: 'a' <= name[i] <= 'z' || name[i] == '_'
  }

  lemma NameIsClean(name: string)
    requires IsName(name)
    ensures IsCleanKey(Ascii(name))
  {
  }

  lemma ThreeWritable(a: string, x: seq<Byte>, b: string, y: seq<Byte>, c: string, z: seq<Byte>)
    requires IsUtf8(x) && IsUtf8(y) && IsUtf8(z) && IsName(a) && IsName(b) && IsName(c)
    ensures Writable([(Ascii(a), x), (Ascii(b), y), (Ascii(c), z)])
  {
    NameIsClean(a);
    NameIsClean(b);
    NameIsClean(c);
  }

  lemma ClientFieldsWritable(client: seq<Byte>, redirect: seq<Byte>)
    requires IsUtf8(client) && IsUtf8(redirect)
    ensures Writable(ClientFields(client, redirect))
  {
    ThreeWritable("client_id", client, "redirect_uri", redirect, "response_type", CODE);
  }

  lemma ScopeIsUtf8()
    ensures IsUtf8(SCOPE)
  {
    var host, path := Ascii("https://www.googleapis.com"), Ascii("/auth/chromewebstore");
    assert forall i | 0 <= i < |host| :: host[i] < 128;
    assert forall i | 0 <= i < |path| :: path[i] < 128;
    AsciiIsUtf8(host + path);
  }

  lemma RequestNames()
    ensures IsName("scope") && IsName("access_type") && IsName("prompt")
  {
  }

  lemma RequestFieldsWritable()
    ensures Writable(RequestFields())
  {
    ScopeIsUtf8();
    RequestNames();
    ThreeWritable("scope", SCOPE, "access_type", Ascii("offline"), "prompt", Ascii("consent"));
  }

  lemma ProofFieldsWritable(challenge: seq<Byte>, state: seq<Byte>)
    requires IsUtf8(challenge) && IsUtf8(state)
    ensures Writable(ProofFields(challenge, state))
  {
    ThreeWritable("code_challenge", challenge, "code_challenge_method", Ascii("S256"), "state", state);
  }

  lemma WritableTogether(fields: seq<Field>, more: seq<Field>)
    requires Writable(fields) && Writable(more)
    ensures Writable(fields + more)
  {
  }

  lemma ConsentFieldsWritable(client: seq<Byte>, redirect: seq<Byte>, challenge: seq<Byte>, state: seq<Byte>)
    requires IsUtf8(client) && IsUtf8(redirect) && IsUtf8(challenge) && IsUtf8(state)
    ensures Writable(ConsentFields(client, redirect, challenge, state))
  {
    ClientFieldsWritable(client, redirect);
    RequestFieldsWritable();
    ProofFieldsWritable(challenge, state);
    WritableTogether(ClientFields(client, redirect), RequestFields());
    WritableTogether(ClientFields(client, redirect) + RequestFields(), ProofFields(challenge, state));
  }

  lemma NoQuestionInAuthUrl()
    ensures QUESTION !in AUTH_URL
  {
    var host, path := "https://accounts.google.com", "/o/oauth2/v2/auth";
    assert forall i | 0 <= i < |host| :: host[i] != '?';
    assert forall i | 0 <= i < |path| :: path[i] != '?';
    assert AUTH_URL == Ascii(host) + Ascii(path);
  }

  /** Whoever reads the query of an address finds the fields it was written from. */
  lemma AddressReadBack(address: seq<Byte>, fields: seq<Field>, lossy: seq<Byte> -> seq<Byte>)
    requires QUESTION !in address && fields != [] && Writable(fields) && Faithful(lossy)
    ensures Carries(address + [QUESTION] + Written(fields), address, fields, lossy)
  {
    FieldsReadBack(fields, lossy);
    SplitOnceAt(address, QUESTION, Written(fields));
  }

  /** Cut at its first question mark, `url` is `address` and a query of exactly these fields. */
  predicate Carries(url: seq<Byte>, address: seq<Byte>, fields: seq<Field>, lossy: seq<Byte> -> seq<Byte>) {
    match SplitOnce(url, QUESTION)
    case Some((before, query)) => before == address && ReadFields(SplitOn(query, AMPERSAND), lossy) == fields
    case None => false
  }

  /** The consent address carries the nine parameters of the flow, unchanged by what they contain. */
  lemma ConsentUrlReadBack(client: seq<Byte>, redirect: seq<Byte>, challenge: seq<Byte>, state: seq<Byte>,
                           lossy: seq<Byte> -> seq<Byte>)
    requires IsUtf8(client) && IsUtf8(redirect) && IsUtf8(challenge) && IsUtf8(state) && Faithful(lossy)
    ensures Carries(ConsentUrl(client, redirect, challenge, state), AUTH_URL,
                    [(Ascii("client_id"), client), (Ascii("redirect_uri"), redirect), (Ascii("response_type"), CODE)]
                    + [(Ascii("scope"), SCOPE), (Ascii("access_type"), Ascii("offline")),
                       (Ascii("prompt"), Ascii("consent"))]
                    + [(Ascii("code_challenge"), challenge), (Ascii("code_challenge_method"), Ascii("S256")),
                       (STATE, state)], lossy)
  {
    ConsentFieldsWritable(client, redirect, challenge, state);
    NoQuestionInAuthUrl();
    AddressReadBack(AUTH_URL, ConsentFields(client, redirect, challenge, state), lossy);
  }
}
