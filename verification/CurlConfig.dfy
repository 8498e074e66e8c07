/** A request rendered as a curl config file (xtask/src/chrome_publish.rs:300-310, 369-403). */
module CurlConfig {
  import opened Basics
  import opened Splitting

  datatype Upload = NoUpload | Path(path: string) | PathNotUtf8

  datatype Request = Request(
    verb: string,
    url: string,
    headers: seq<string>,
    form: seq<(string, string)>,
    upload: Upload)

  datatype Rendered = Config(text: string) | LineBreak | BadPath

  /** One line of a config: an option and its value. */
  type Setting = (string, string)

  predicate HasLineBreak(value: string) {
    '\n' in value || '\r' in value
  }

  // ----- quoting -----

  /** Every `c` of `s` as `instead`. */
  function Replaced(s: string, c: char, instead: string): (t: string) {
    if s == "" then "" else (if s[0] == c then instead else [s[0]]) + Replaced(s[1..], c, instead)
  }

  /** What the two replacements of the original do: backslashes first, then quotation marks. */
  function Quoted(value: string): (t: string) {
    "\"" + Replaced(Replaced(value, '\\', "\\\\"), '"', "\\\"") + "\""
  }

  function Quote(value: string): (t: Option<string>) {
    if HasLineBreak(value) then None else Some(Quoted(value))
  }

  /** The value curl reads between quotation marks, and what follows the closing one. A backslash takes the character
    * after it, and stands for a control character before t, n, r and v. */
  function ReadQuoted(s: string): (r: Option<(string, string)>) {
    if s == "" then None
    else if s[0] == '"' then Some(("", s[1..]))
    else if s[0] == '\\' then
      if |s| == 1 then None
      else match ReadQuoted(s[2..])
        case Some((value, rest)) => Some(([Unescaped(s[1])] + value, rest))
        case None => None
    else match ReadQuoted(s[1..])
      case Some((value, rest)) => Some(([s[0]] + value, rest))
      case None => None
  }

  function Unescaped(c: char): char {
    if c == 't' then '\t' else if c == 'n' then '\n' else if c == 'r' then '\r' else if c == 'v' then 11 as char else c
  }

  function EscapedChar(c: char): string {
    if c == '\\' then "\\\\" else if c == '"' then "\\\"" else [c]
  }

  /** One pass does what the two replacements do. */
  function Escaped(value: string): (t: string)
    ensures t == Replaced(Replaced(value, '\\', "\\\\"), '"', "\\\"")
  {
    if value == "" then ""
    else
      ReplacedChar(value[0], Replaced(value[1..], '\\', "\\\\"));
      EscapedChar(value[0]) + Escaped(value[1..])
  }

  lemma ReplacedChar(c: char, rest: string)
    ensures var once := if c == '\\' then "\\\\" else [c];
            Replaced(once + rest, '"', "\\\"") == EscapedChar(c) + Replaced(rest, '"', "\\\"")
  {
    var once := if c == '\\' then "\\\\" else [c];
    assert (once + rest)[1..] == once[1..] + rest;
    if c == '\\' {
      assert (once + rest)[1..][1..] == rest;
    } else {
      assert (once + rest)[1..] == rest;
    }
  }

  lemma ReadChar(c: char, tail: string)
    requires ReadQuoted(tail).Some?
    ensures var (value, rest) := ReadQuoted(tail).value;
            ReadQuoted(EscapedChar(c) + tail) == Some(([c] + value, rest))
  {
    var s := EscapedChar(c) + tail;
    assert s[|EscapedChar(c)|..] == tail;
    assert |EscapedChar(c)| == 2 ==> s[1] == c && s[0] == '\\';
  }

  /** Quoting loses nothing: curl reads the value back, and stops where the value ends. */
  lemma {:induction false} QuotedReadBack(value: string, rest: string)
    ensures ReadQuoted(Escaped(value) + ("\"" + rest)) == Some((value, rest))
  {
    if value == "" {
      assert Escaped(value) + ("\"" + rest) == "\"" + rest;
    } else {
      var tail := Escaped(value[1..]) + ("\"" + rest);
      QuotedReadBack(value[1..], rest);
      ReadChar(value[0], tail);
      Associative(EscapedChar(value[0]), Escaped(value[1..]), "\"" + rest);
      assert value == [value[0]] + value[1..];
    }
  }

  lemma {:induction false} EscapedHasNoLineBreak(value: string)
    requires !HasLineBreak(value)
    ensures !HasLineBreak(Escaped(value))
  {
    if value != "" {
      EscapedHasNoLineBreak(value[1..]);
    }
  }

  // ----- the config -----

  function Headers(headers: seq<string>): (s: seq<Setting>)
    ensures |s| == |headers|
  {
    seq(|headers|, i requires 0 <= i < |headers| => ("header", headers[i]))
  }

  function Form(form: seq<(string, string)>): (s: seq<Setting>)
    ensures |s| == |form|
  {
    seq(|form|, i requires 0 <= i < |form| => ("data-urlencode", form[i].0 + "=" + form[i].1))
  }

  function Line(s: Setting): string {
    s.0 + " = " + Quoted(s.1)
  }

  function Lines(settings: seq<Setting>): (text: string) {
    if settings == [] then "" else Lines(settings[..|settings| - 1]) + Line(settings[|settings| - 1]) + "\n"
  }

  predicate AnyLineBreak(settings: seq<Setting>) {
    exists i :: 0 <= i < |settings| && HasLineBreak(settings[i].1)
  }

  lemma AnyLineBreakTogether(settings: seq<Setting>, more: seq<Setting>)
    ensures AnyLineBreak(settings + more) <==> AnyLineBreak(settings) || AnyLineBreak(more)
  {
    var all := settings + more;
    if AnyLineBreak(settings) {
      var i :| 0 <= i < |settings| && HasLineBreak(settings[i].1);
      assert HasLineBreak(all[i].1);
    }
    if AnyLineBreak(more) {
      var i :| 0 <= i < |more| && HasLineBreak(more[i].1);
      assert HasLineBreak(all[|settings| + i].1);
    }
  }

  /** Appends one line, unless its value has a line break. */
  method Append(out: string, option: string, value: string, ghost done: seq<Setting>)
    returns (text: string, ok: bool)
    requires out == Lines(done)
    ensures ok <==> !HasLineBreak(value)
    ensures ok ==> text == Lines(done + [(option, value)])
  {
    match Quote(value) {
      case None => return out, false;
      case Some(quoted) =>
        assert (done + [(option, value)])[..|done|] == done;
        return out + (option + " = " + quoted) + "\n", true;
    }
  }

  lemma OneMore(done: seq<Setting>, all: seq<Setting>, i: nat)
    requires i < |all|
    ensures done + all[..i + 1] == done + all[..i] + [all[i]]
    ensures AnyLineBreak(all[..i + 1]) <==> AnyLineBreak(all[..i]) || HasLineBreak(all[i].1)
    ensures HasLineBreak(all[i].1) ==> AnyLineBreak(all)
  {
    assert all[..i + 1] == all[..i] + [all[i]];
    AnyLineBreakTogether(all[..i], [all[i]]);
    OneLineBreak(all[i].0, all[i].1);
  }

  method AppendHeaders(out: string, headers: seq<string>, ghost done: seq<Setting>) returns (text: string, ok: bool)
    requires out == Lines(done)
    ensures ok <==> !AnyLineBreak(Headers(headers))
    ensures ok ==> text == Lines(done + Headers(headers))
  {
    text, ok := out, true;
    ghost var all := Headers(headers);
    assert done + all[..0] == done;
    for i := 0 to |headers|
      invariant text == Lines(done + all[..i]) && ok
      invariant !AnyLineBreak(all[..i])
    {
      OneMore(done, all, i);
      text, ok := Append(text, "header", headers[i], done + all[..i]);
      if !ok {
        return;
      }
    }
    assert all[..|headers|] == all;
  }

  method AppendForm(out: string, form: seq<(string, string)>, ghost done: seq<Setting>) returns (text: string, ok: bool)
    requires out == Lines(done)
    ensures ok <==> !AnyLineBreak(Form(form))
    ensures ok ==> text == Lines(done + Form(form))
  {
    text, ok := out, true;
    ghost var all := Form(form);
    assert done + all[..0] == done;
    for i := 0 to |form|
      invariant text == Lines(done + all[..i]) && ok
      invariant !AnyLineBreak(all[..i])
    {
      var (name, value) := form[i];
      OneMore(done, all, i);
      text, ok := Append(text, "data-urlencode", name + "=" + value, done + all[..i]);
      if !ok {
        return;
      }
    }
    assert all[..|form|] == all;
  }

  /** The settings of a request in the order they are written. */
  function Leading(r: Request): seq<Setting> {
    [("url", r.url)] + [("request", r.verb)] + Headers(r.headers) + Form(r.form)
  }

  function Settings(r: Request): seq<Setting> {
    Leading(r) + if r.upload.Path? then [("upload-file", r.upload.path)] else []
  }

  /** The settings are the address, the verb, each header, each field of the form, and the file to upload, in this
    * order. */
  lemma SettingsExactly(r: Request)
    ensures var s, h, f := Settings(r), |r.headers|, |r.form|;
            && |s| == 2 + h + f + (if r.upload.Path? then 1 else 0)
            && s[0] == ("url", r.url) && s[1] == ("request", r.verb)
            && (forall i | 0 <= i < h :: s[2 + i] == ("header", r.headers[i]))
            && (forall i | 0 <= i < f :: s[2 + h + i] == ("data-urlencode", r.form[i].0 + "=" + r.form[i].1))
            && (r.upload.Path? ==> s[2 + h + f] == ("upload-file", r.upload.path))
  {
    var s, start := Settings(r), [("url", r.url)] + [("request", r.verb)];
    var headers, form := Headers(r.headers), Form(r.form);
    assert Leading(r) == start + (headers + form) && Leading(r) <= s;
    forall i | 0 <= i < |r.headers|
      ensures s[2 + i] == ("header", r.headers[i])
    {
      assert s[2 + i] == (headers + form)[i];
    }
    forall i | 0 <= i < |r.form|
      ensures s[2 + |r.headers| + i] == ("data-urlencode", r.form[i].0 + "=" + r.form[i].1)
    {
      assert s[2 + |r.headers| + i] == (headers + form)[|headers| + i];
    }
  }

  lemma LeadingLineBreaks(r: Request)
    ensures AnyLineBreak(Leading(r)) <==>
              HasLineBreak(r.url) || HasLineBreak(r.verb)
              || AnyLineBreak(Headers(r.headers)) || AnyLineBreak(Form(r.form))
  {
    AnyLineBreakTogether([("url", r.url)], [("request", r.verb)]);
    AnyLineBreakTogether([("url", r.url)] + [("request", r.verb)], Headers(r.headers));
    AnyLineBreakTogether([("url", r.url)] + [("request", r.verb)] + Headers(r.headers), Form(r.form));
    OneLineBreak("url", r.url);
    OneLineBreak("request", r.verb);
  }

  lemma OneLineBreak(option: string, value: string)
    ensures AnyLineBreak([(option, value)]) <==> HasLineBreak(value)
  {
    assert [(option, value)][0].1 == value;
  }

  /** Renders the request, so that curl reads exactly its settings; a value with a line break cannot be expressed and is
    * refused. */
  method Render(r: Request) returns (c: Rendered)
    ensures c.BadPath? <==> r.upload.PathNotUtf8? && !AnyLineBreak(Leading(r))
    ensures c.LineBreak? <==> AnyLineBreak(Settings(r))
    ensures c.Config? ==> c.text == Lines(Settings(r)) && ReadConfig(c.text) == Some(Settings(r))
  {
    LeadingLineBreaks(r);
    AnyLineBreakTogether(Leading(r), Settings(r)[|Leading(r)|..]);
    var out, ok := Append("", "url", r.url, []);
    if !ok {
      return LineBreak;
    }
    out, ok := Append(out, "request", r.verb, [("url", r.url)]);
    if !ok {
      return LineBreak;
    }
    out, ok := AppendHeaders(out, r.headers, [("url", r.url)] + [("request", r.verb)]);
    if !ok {
      return LineBreak;
    }
    out, ok := AppendForm(out, r.form, [("url", r.url)] + [("request", r.verb)] + Headers(r.headers));
    if !ok {
      return LineBreak;
    }
    match r.upload {
      case NoUpload =>
        assert Settings(r) == Leading(r);
      case PathNotUtf8 =>
        assert Settings(r) == Leading(r);
        return BadPath;
      case Path(path) =>
        OneLineBreak("upload-file", path);
        out, ok := Append(out, "upload-file", path, Leading(r));
        if !ok {
          return LineBreak;
        }
    }
    RenderedReadBack(r);
    c := Config(out);
  }

  // ----- reading it -----

  /** An option and its value, as curl reads one line: the option up to the first space, and the quoted value after an
    * equals sign. */
  function ReadLine(line: string): Option<Setting> {
    match SplitOnce(line, ' ')
    case None => None
    case Some((option, rest)) =>
      if |rest| < 3 || rest[..3] != "= \"" then None
      else match ReadQuoted(rest[3..])
        case Some((value, after)) => if after == "" then Some((option, value)) else None
        case None => None
  }

  /** The settings of a text of whole lines. */
  function ReadConfig(text: string): Option<seq<Setting>> {
    ReadLines(SplitOn(text, '\n'))
  }

  function ReadLines(lines: seq<string>): Option<seq<Setting>>
    requires lines != []
  {
    if |lines| == 1 then if lines[0] == "" then Some([]) else None
    else match (ReadLine(lines[0]), ReadLines(lines[1..]))
      case (Some(s), Some(more)) => Some([s] + more)
      case _ => None
  }

  lemma AfterQuote(value: string)
    ensures ("= " + Quoted(value))[..3] == "= \"" && ("= " + Quoted(value))[3..] == Escaped(value) + "\""
  {
  }

  lemma LineReadBack(s: Setting)
    requires ' ' !in s.0
    ensures ReadLine(Line(s)) == Some(s)
  {
    var rest := "= " + Quoted(s.1);
    assert Line(s) == s.0 + [' '] + rest;
    SplitOnceAt(s.0, ' ', rest);
    AfterQuote(s.1);
    assert rest[3..] == Escaped(s.1) + ("\"" + "");
    QuotedReadBack(s.1, "");
  }

  /** No line of a config contains a line break but the one that ends it. */
  predicate IsOption(s: Setting) {
    ' ' !in s.0 && '\n' !in s.0
  }

  lemma LineHasNoLineBreak(s: Setting)
    requires IsOption(s) && !HasLineBreak(s.1)
    ensures '\n' !in Line(s)
  {
    EscapedHasNoLineBreak(s.1);
  }

  function LineTexts(settings: seq<Setting>): (lines: seq<string>)
    ensures |lines| == |settings| + 1
  {
    seq(|settings|, i requires 0 <= i < |settings| => Line(settings[i])) + [""]
  }

  lemma {:induction false} LinesAreJoined(settings: seq<Setting>)
    ensures Lines(settings) == Join(LineTexts(settings), '\n')
  {
    if settings == [] {
    } else {
      var front, last := settings[..|settings| - 1], Line(settings[|settings| - 1]);
      LinesAreJoined(front);
      var lines := LineTexts(front)[..|front|];
      assert LineTexts(front) == lines + [""];
      assert LineTexts(settings) == lines + [last, ""];
      JoinEnds(lines, last);
    }
  }

  lemma {:induction false} JoinEnds(lines: seq<string>, last: string)
    ensures Join(lines + [last, ""], '\n') == Join(lines + [""], '\n') + last + "\n"
  {
    if lines == [] {
      assert [last, ""][1..] == [""];
    } else {
      JoinEnds(lines[1..], last);
      assert (lines + [last, ""])[1..] == lines[1..] + [last, ""];
      assert (lines + [""])[1..] == lines[1..] + [""];
    }
  }

  lemma {:induction false} LinesReadBack(settings: seq<Setting>)
    requires forall i | 0 <= i < |settings| :: IsOption(settings[i])
    ensures ReadLines(LineTexts(settings)) == Some(settings)
  {
    if settings != [] {
      LineReadBack(settings[0]);
      LinesReadBack(settings[1..]);
      assert LineTexts(settings)[1..] == LineTexts(settings[1..]);
      assert settings == [settings[0]] + settings[1..];
    }
  }

  /** A config without refused values is read by curl as exactly the settings it was made of: no value can end its
    * line or add a setting. */
  lemma ConfigReadBack(settings: seq<Setting>)
    requires !AnyLineBreak(settings) && forall i | 0 <= i < |settings| :: IsOption(settings[i])
    ensures ReadConfig(Lines(settings)) == Some(settings)
  {
    var lines := LineTexts(settings);
    forall i | 0 <= i < |lines|
      ensures '\n' !in lines[i]
    {
      if i < |settings| {
        LineHasNoLineBreak(settings[i]);
      }
    }
    LinesAreJoined(settings);
    SplitJoined(lines, '\n');
    LinesReadBack(settings);
  }

  lemma SettingsAreOptions(r: Request)
    ensures forall i | 0 <= i < |Settings(r)| :: IsOption(Settings(r)[i])
  {
  }

  /** So curl makes exactly the request that was rendered: what `Render` gives for `r` is read as its settings. */
  lemma RenderedReadBack(r: Request)
    requires !AnyLineBreak(Settings(r))
    ensures ReadConfig(Lines(Settings(r))) == Some(Settings(r))
  {
    SettingsAreOptions(r);
    ConfigReadBack(Settings(r));
  }
}
