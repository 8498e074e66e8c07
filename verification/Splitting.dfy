/** Splitting at every separator, and joining with it. */
module Splitting {
  import opened Basics

  /** The stretches of `s` between its separators; one more than it has separators. */
  function SplitOn<T(==)>(s: seq<T>, sep: T): (parts: seq<seq<T>>)
    ensures |parts| >= 1
    ensures forall i | 0 <= i < |parts| :: sep !in parts[i]
    ensures Join(parts, sep) == s
  {
    if s == [] then [[]]
    else
      var rest := SplitOn(s[1..], sep);
      if s[0] == sep then
        assert Join([[]] + rest, sep) == [sep] + Join(rest, sep) by { assert ([[]] + rest)[1..] == rest; }
        [[]] + rest
      else
        assert Join([[s[0]] + rest[0]] + rest[1..], sep) == [s[0]] + Join(rest, sep) by {
          assert ([[s[0]] + rest[0]] + rest[1..])[1..] == rest[1..];
        }
        [[s[0]] + rest[0]] + rest[1..]
  }

  function Join<T>(parts: seq<seq<T>>, sep: T): seq<T> {
    if parts == [] then []
    else if |parts| == 1 then parts[0]
    else parts[0] + [sep] + Join(parts[1..], sep)
  }

  /** A text's first separator is where it is, so what precedes and what follows it are determined. */
  lemma FirstSeparator<T>(p: seq<T>, x: seq<T>, q: seq<T>, y: seq<T>, sep: T)
    requires sep !in p && sep !in q && p + [sep] + x == q + [sep] + y
    ensures p == q && x == y
  {
    var s := p + [sep] + x;
    assert s[|p|] == sep && s[|q|] == sep;
    assert forall i | 0 <= i < |p| :: s[i] == p[i];
    assert forall i | 0 <= i < |q| :: s[i] == q[i];
    assert |p| == |q|;
    SplitEqual(p + [sep], x, q + [sep], y);
    SplitEqual(p, [sep], q, [sep]);
  }

  lemma {:induction false} JoinHasSeparator<T>(parts: seq<seq<T>>, sep: T)
    requires parts != [] && forall i | 0 <= i < |parts| :: sep !in parts[i]
    ensures sep in Join(parts, sep) <==> |parts| > 1
  {
  }

  /** Joined parts that do not contain the separator come apart again, and only so. */
  lemma {:induction false} JoinInjective<T>(parts: seq<seq<T>>, others: seq<seq<T>>, sep: T)
    requires parts != [] && others != [] && Join(parts, sep) == Join(others, sep)
    requires forall i | 0 <= i < |parts| :: sep !in parts[i]
    requires forall i | 0 <= i < |others| :: sep !in others[i]
    ensures parts == others
  {
    JoinHasSeparator(parts, sep);
    JoinHasSeparator(others, sep);
    if |parts| > 1 {
      FirstSeparator(parts[0], Join(parts[1..], sep), others[0], Join(others[1..], sep), sep);
      JoinInjective(parts[1..], others[1..], sep);
      assert parts == [parts[0]] + parts[1..] && others == [others[0]] + others[1..];
    }
  }

  lemma SplitJoined<T>(parts: seq<seq<T>>, sep: T)
    requires parts != [] && forall i | 0 <= i < |parts| :: sep !in parts[i]
    ensures SplitOn(Join(parts, sep), sep) == parts
  {
    JoinInjective(SplitOn(Join(parts, sep), sep), parts, sep);
  }

  /** Where `sep` first is in `s`. */
  function Find<T(==)>(s: seq<T>, sep: T): (i: Option<nat>)
    ensures match i
            case Some(k) => k < |s| && s[k] == sep && sep !in s[..k]
            case None => sep !in s
  {
    if s == [] then None
    else if s[0] == sep then Some(0)
    else match Find(s[1..], sep)
      case Some(k) => assert s[..k + 1] == [s[0]] + s[1..][..k]; Some(k + 1)
      case None => None
  }

  /** What precedes and what follows the first `sep`. */
  function SplitOnce<T(==)>(s: seq<T>, sep: T): Option<(seq<T>, seq<T>)> {
    match Find(s, sep)
    case Some(i) => Some((s[..i], s[i + 1..]))
    case None => None
  }

  lemma SplitOnceAt<T>(before: seq<T>, sep: T, after: seq<T>)
    requires sep !in before
    ensures SplitOnce(before + [sep] + after, sep) == Some((before, after))
  {
    var s := before + [sep] + after;
    assert s[|before|] == sep;
    var i := Find(s, sep).value;
    assert s == s[..i] + [sep] + s[i + 1..];
    FirstSeparator(before, after, s[..i], s[i + 1..], sep);
  }
}
