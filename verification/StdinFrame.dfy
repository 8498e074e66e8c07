/** The frame credentials arrive in on standard input (xtask/src/chrome_publish.rs:191-240). */
module StdinFrame {
  import opened Basics
  import opened Utf8
  import opened Splitting

  const NUL: Byte := 0

  type Text = seq<Byte>
  type Pair = (Text, Text)

  datatype Parsed =
    | Values(values: map<Text, Text>)
    | EmptyInput
    | NoTerminator
    | NameWithoutValue
    | NameNotUtf8
    | InvalidName(name: Text)
    | ValueNotUtf8(name: Text)
    | NamedTwice(name: Text)

  predicate IsVariableName(name: Text) {
    name != [] && forall i | 0 <= i < |name| :: IsAlphanumeric(name[i]) || name[i] == '_' as int
  }

  // ----- what a frame is -----

  /** A pair as the frame holds it: the name, a NUL byte, the value, a NUL byte. */
  function FramedPair(p: Pair): seq<Byte> {
    p.0 + [NUL] + p.1 + [NUL]
  }

  function Framed(pairs: seq<Pair>): seq<Byte> {
    if pairs == [] then [] else FramedPair(pairs[0]) + Framed(pairs[1..])
  }

  /** A value may hold anything a text can hold but the NUL byte that ends it. */
  predicate IsFramable(p: Pair) {
    IsVariableName(p.0) && IsUtf8(p.1) && NUL !in p.1
  }

  predicate Distinct(pairs: seq<Pair>) {
    forall i, j | 0 <= i < j < |pairs| :: pairs[i].0 != pairs[j].0
  }

  ghost predicate Accepted(pairs: seq<Pair>) {
    pairs != [] && Distinct(pairs) && forall i | 0 <= i < |pairs| :: IsFramable(pairs[i])
  }

  /** The mapping of the pairs; a later pair of the same name wins. */
  function MapOf(pairs: seq<Pair>): (m: map<Text, Text>) {
    if pairs == [] then map[] else MapOf(pairs[..|pairs| - 1])[pairs[|pairs| - 1].0 := pairs[|pairs| - 1].1]
  }

  lemma {:induction false} MapOfExactly(pairs: seq<Pair>, name: Text)
    requires Distinct(pairs)
    ensures name in MapOf(pairs) <==> exists i :: 0 <= i < |pairs| && pairs[i].0 == name
    ensures forall i | 0 <= i < |pairs| && pairs[i].0 == name ::
              name in MapOf(pairs) && MapOf(pairs)[name] == pairs[i].1
  {
    if pairs != [] {
      var front := pairs[..|pairs| - 1];
      MapOfExactly(front, name);
      if pairs[|pairs| - 1].0 != name && name in MapOf(pairs) {
        var i :| 0 <= i < |front| && front[i].0 == name;
        assert pairs[i].0 == name;
      }
      forall i | 0 <= i < |pairs| && pairs[i].0 == name
        ensures name in MapOf(pairs) && MapOf(pairs)[name] == pairs[i].1
      {
        if i < |front| {
          assert front[i] == pairs[i];
        }
      }
    }
  }

  // ----- the fields of a frame -----

  function Fields(pairs: seq<Pair>): (fields: seq<seq<Byte>>)
    ensures |fields| == 2 * |pairs| && |fields| % 2 == 0
  {
    if pairs == [] then [] else [pairs[0].0, pairs[0].1] + Fields(pairs[1..])
  }

  /** The fields taken two by two. */
  function Chunks(fields: seq<seq<Byte>>): (pairs: seq<Pair>)
    requires |fields| % 2 == 0
    ensures 2 * |pairs| == |fields|
    ensures forall i | 0 <= i < |pairs| :: pairs[i] == (fields[2 * i], fields[2 * i + 1])
    ensures Fields(pairs) == fields
  {
    if fields == [] then []
    else
      var rest := Chunks(fields[2..]);
      assert [fields[0], fields[1]] + fields[2..] == fields;
      [(fields[0], fields[1])] + rest
  }

  lemma {:induction false} FieldsAreClean(pairs: seq<Pair>)
    requires forall i | 0 <= i < |pairs| :: NUL !in pairs[i].0 && NUL !in pairs[i].1
    ensures forall i | 0 <= i < |Fields(pairs)| :: NUL !in Fields(pairs)[i]
  {
    if pairs != [] {
      FieldsAreClean(pairs[1..]);
    }
  }

  /** A frame is its fields with a NUL byte after each. */
  lemma {:induction false} FramedIsJoined(pairs: seq<Pair>)
    requires pairs != []
    ensures Framed(pairs) == Join(Fields(pairs), NUL) + [NUL]
  {
    var (name, value) := pairs[0];
    var rest := Fields(pairs[1..]);
    if |pairs| == 1 {
      assert Fields(pairs) == [name, value];
      assert Fields(pairs)[1..] == [value];
      assert Framed(pairs[1..]) == [];
    } else {
      FramedIsJoined(pairs[1..]);
      var fields := Fields(pairs);
      assert fields[1..] == [value] + rest && fields[1..][1..] == rest;
      assert Join(fields[1..], NUL) == value + [NUL] + Join(rest, NUL);
    }
  }

  lemma FramableIsClean(p: Pair)
    requires IsFramable(p)
    ensures NUL !in p.0 && NUL !in p.1
  {
  }

  // ----- parsing -----

  /** The pairs a frame can only be read as, if its NUL bytes fall in place. */
  function PairsIn(raw: seq<Byte>): (pairs: Option<seq<Pair>>) {
    if raw == [] || raw[|raw| - 1] != NUL then None
    else
      var fields := SplitOn(raw[..|raw| - 1], NUL);
      if |fields| % 2 != 0 then None else Some(Chunks(fields))
  }

  lemma {:induction false} CleanFields(pairs: seq<Pair>)
    requires forall i | 0 <= i < |Fields(pairs)| :: NUL !in Fields(pairs)[i]
    ensures forall i | 0 <= i < |pairs| :: NUL !in pairs[i].0 && NUL !in pairs[i].1
  {
    if pairs != [] {
      var fields := Fields(pairs);
      assert fields[0] == pairs[0].0 && fields[1] == pairs[0].1;
      assert fields[2..] == Fields(pairs[1..]);
      CleanFields(pairs[1..]);
    }
  }

  lemma ChunksOfFields(pairs: seq<Pair>)
    ensures Chunks(Fields(pairs)) == pairs
  {
    FieldsInjective(Chunks(Fields(pairs)), pairs);
  }

  lemma ReadJoined(fields: seq<seq<Byte>>)
    requires fields != [] && |fields| % 2 == 0 && forall i | 0 <= i < |fields| :: NUL !in fields[i]
    ensures PairsIn(Join(fields, NUL) + [NUL]) == Some(Chunks(fields))
  {
    var raw := Join(fields, NUL) + [NUL];
    assert raw[..|raw| - 1] == Join(fields, NUL);
    SplitJoined(fields, NUL);
  }

  lemma FramedIsRead(pairs: seq<Pair>)
    requires pairs != [] && forall i | 0 <= i < |pairs| :: NUL !in pairs[i].0 && NUL !in pairs[i].1
    ensures PairsIn(Framed(pairs)) == Some(pairs)
  {
    var fields := Fields(pairs);
    assert PairsIn(Framed(pairs)) == Some(Chunks(fields)) by {
      FramedIsJoined(pairs);
      FieldsAreClean(pairs);
      ReadJoined(fields);
    }
    assert Chunks(fields) == pairs by {
      ChunksOfFields(pairs);
    }
  }

  lemma ReadIsFramed(raw: seq<Byte>)
    requires PairsIn(raw).Some?
    ensures raw == Framed(PairsIn(raw).value)
  {
    assert raw == raw[..|raw| - 1] + [NUL];
    FramedIsJoined(PairsIn(raw).value);
  }

  /** A frame is read as the pairs it was made of, and what is read as pairs is the frame of those pairs. */
  lemma FramedIffRead(raw: seq<Byte>, pairs: seq<Pair>)
    requires pairs != [] && forall i | 0 <= i < |pairs| :: NUL !in pairs[i].0 && NUL !in pairs[i].1
    ensures raw == Framed(pairs) <==> PairsIn(raw) == Some(pairs)
  {
    FramedIsRead(pairs);
    if PairsIn(raw).Some? {
      ReadIsFramed(raw);
    }
  }

  lemma {:induction false} FieldsInjective(pairs: seq<Pair>, others: seq<Pair>)
    requires Fields(pairs) == Fields(others)
    ensures pairs == others
  {
    if pairs != [] {
      var fields := Fields(pairs);
      assert fields[0] == Fields(others)[0] && fields[1] == Fields(others)[1];
      assert fields[2..] == Fields(pairs[1..]) && Fields(others)[2..] == Fields(others[1..]);
      FieldsInjective(pairs[1..], others[1..]);
      assert pairs == [pairs[0]] + pairs[1..] && others == [others[0]] + others[1..];
    }
  }

  lemma ReadPairsAreClean(raw: seq<Byte>)
    requires PairsIn(raw).Some?
    ensures PairsIn(raw).value != []
    ensures forall i | 0 <= i < |PairsIn(raw).value| ::
              NUL !in PairsIn(raw).value[i].0 && NUL !in PairsIn(raw).value[i].1
  {
    CleanFields(PairsIn(raw).value);
  }

  lemma AcceptedIsClean(pairs: seq<Pair>)
    requires Accepted(pairs)
    ensures forall i | 0 <= i < |pairs| :: NUL !in pairs[i].0 && NUL !in pairs[i].1
  {
    forall i | 0 <= i < |pairs|
      ensures NUL !in pairs[i].0 && NUL !in pairs[i].1
    {
      FramableIsClean(pairs[i]);
    }
  }

  /** The frames of accepted pairs, in terms of how a frame is read. */
  lemma AcceptedExactly(raw: seq<Byte>)
    ensures (exists pairs :: Accepted(pairs) && raw == Framed(pairs))
        <==> PairsIn(raw).Some? && Accepted(PairsIn(raw).value)
    ensures forall pairs | Accepted(pairs) && raw == Framed(pairs) :: PairsIn(raw) == Some(pairs)
  {
    forall pairs | Accepted(pairs) && raw == Framed(pairs)
      ensures PairsIn(raw) == Some(pairs)
    {
      AcceptedIsClean(pairs);
      FramedIffRead(raw, pairs);
    }
    if PairsIn(raw).Some? {
      ReadPairsAreClean(raw);
      FramedIffRead(raw, PairsIn(raw).value);
    }
  }

  /** The first pair at fault is the one at `i`, and `r` says what is wrong with it. */
  predicate FaultAt(pairs: seq<Pair>, i: nat, r: Parsed)
    requires i < |pairs|
  {
    var (name, value) := pairs[i];
    NoFault(pairs[..i])
    && match r
       case NameNotUtf8 => !IsUtf8(name)
       case InvalidName(n) => n == name && IsUtf8(name) && !IsVariableName(name)
       case ValueNotUtf8(n) => n == name && IsVariableName(name) && !IsUtf8(value)
       case NamedTwice(n) => n == name && IsVariableName(name) && IsUtf8(value)
                             && exists j :: 0 <= j < i && pairs[j].0 == name
       case _ => false
  }

  lemma FaultRefuses(pairs: seq<Pair>, i: nat, r: Parsed)
    requires i < |pairs| && FaultAt(pairs, i, r)
    ensures !NoFault(pairs) && exists k :: 0 <= k < |pairs| && FaultAt(pairs, k, r)
  {
    if IsVariableName(pairs[i].0) {
      AsciiIsUtf8(pairs[i].0);
    }
  }

  /** Every pair is as it must be; what its value may not hold, no field of a frame holds. */
  predicate NoFault(pairs: seq<Pair>) {
    Distinct(pairs) && forall j | 0 <= j < |pairs| :: IsVariableName(pairs[j].0) && IsUtf8(pairs[j].1)
  }

  lemma AcceptedWhenNoFault(pairs: seq<Pair>)
    requires pairs != [] && forall i | 0 <= i < |pairs| :: NUL !in pairs[i].0 && NUL !in pairs[i].1
    ensures Accepted(pairs) <==> NoFault(pairs)
  {
  }

  /** What the mapping of the first pairs says of the next one. */
  lemma NextPair(pairs: seq<Pair>, i: nat)
    requires i < |pairs| && NoFault(pairs[..i])
    ensures var (name, value), before := pairs[i], MapOf(pairs[..i]);
            && (name in before <==> exists j :: 0 <= j < i && pairs[j].0 == name)
            && MapOf(pairs[..i + 1]) == before[name := value]
            && (IsVariableName(name) && IsUtf8(value) && name !in before ==> NoFault(pairs[..i + 1]))
  {
    var some, more := pairs[..i], pairs[..i + 1];
    assert more[..i] == some;
    MapOfExactly(some, pairs[i].0);
    forall j | 0 <= j < i
      ensures some[j] == pairs[j]
    {
    }
  }

  /** Checks the pairs one by one and collects them. */
  method Collect(pairs: seq<Pair>) returns (r: Parsed)
    ensures r == Values(MapOf(pairs)) <==> NoFault(pairs)
    ensures !NoFault(pairs) ==> exists i :: 0 <= i < |pairs| && FaultAt(pairs, i, r)
  {
    var out: map<Text, Text> := map[];
    for i := 0 to |pairs|
      invariant out == MapOf(pairs[..i]) && NoFault(pairs[..i])
    {
      var (name, value) := pairs[i];
      NextPair(pairs, i);
      if !IsUtf8(name) {
        r := NameNotUtf8;
        FaultRefuses(pairs, i, r);
        return;
      }
      if !IsVariableName(name) {
        r := InvalidName(name);
        FaultRefuses(pairs, i, r);
        return;
      }
      if !IsUtf8(value) {
        r := ValueNotUtf8(name);
        FaultRefuses(pairs, i, r);
        return;
      }
      if name in out {
        r := NamedTwice(name);
        FaultRefuses(pairs, i, r);
        return;
      }
      out := out[name := value];
    }
    assert pairs[..|pairs|] == pairs;
    r := Values(out);
  }

  /** Parses NAME NUL VALUE NUL pairs, strictly: accepts exactly the frames of one or more pairs with distinct names,
    * and gives their mapping. No error carries a value. */
  method ParseFrame(raw: seq<Byte>) returns (r: Parsed)
    ensures r.Values? <==> exists pairs :: Accepted(pairs) && raw == Framed(pairs)
    ensures forall pairs | Accepted(pairs) && raw == Framed(pairs) :: r == Values(MapOf(pairs))
    ensures r.EmptyInput? <==> raw == []
    ensures r.NoTerminator? <==> raw != [] && raw[|raw| - 1] != NUL
    ensures r.NameWithoutValue? <==> raw != [] && raw[|raw| - 1] == NUL && PairsIn(raw).None?
    ensures r.NameNotUtf8? || r.InvalidName? || r.ValueNotUtf8? || r.NamedTwice? ==>
              PairsIn(raw).Some? && exists i :: 0 <= i < |PairsIn(raw).value| && FaultAt(PairsIn(raw).value, i, r)
  {
    AcceptedExactly(raw);
    if raw == [] {
      return EmptyInput;
    }
    if raw[|raw| - 1] != NUL {
      return NoTerminator;
    }
    var fields := SplitOn(raw[..|raw| - 1], NUL);
    if |fields| % 2 != 0 {
      return NameWithoutValue;
    }
    var pairs := Chunks(fields);
    ReadPairsAreClean(raw);
    AcceptedWhenNoFault(pairs);
    r := Collect(pairs);
  }

  // ----- picking -----

  datatype Picked = Credentials(values: map<Text, Text>) | Lacks(names: seq<Text>)

  predicate IsMissing(frame: map<Text, Text>, name: Text) {
    name !in frame || frame[name] == []
  }

  function Missing(frame: map<Text, Text>, names: seq<Text>): (missing: seq<Text>)
    ensures forall n :: n in missing <==> n in names && IsMissing(frame, n)
  {
    if names == [] then []
    else (if IsMissing(frame, names[0]) then [names[0]] else []) + Missing(frame, names[1..])
  }

  function PickedValue(frame: map<Text, Text>, names: seq<Text>, n: Text): Text {
    if n !in frame || Repeated(names, n) then [] else frame[n]
  }

  /** `n` is at two places of `names`. */
  predicate Repeated(names: seq<Text>, n: Text) {
    exists i, j :: 0 <= i < j < |names| && names[i] == n && names[j] == n
  }

  lemma RepeatedMore(names: seq<Text>, i: nat, n: Text)
    requires i < |names|
    ensures Repeated(names[..i + 1], n) <==> Repeated(names[..i], n) || (names[i] == n && n in names[..i])
  {
    var some, more := names[..i], names[..i + 1];
    if Repeated(some, n) {
      var j, k :| 0 <= j < k < |some| && some[j] == n && some[k] == n;
      assert more[j] == n && more[k] == n;
    }
    if names[i] == n && n in some {
      var j :| 0 <= j < |some| && some[j] == n;
      assert more[j] == n && more[i] == n;
    }
    if Repeated(more, n) {
      var j, k :| 0 <= j < k < |more| && more[j] == n && more[k] == n;
      assert some[j] == n;
      if k < i {
        assert some[k] == n;
      }
    }
  }

  function PickedValues(frame: map<Text, Text>, names: seq<Text>): map<Text, Text> {
    map n | n in names :: PickedValue(frame, names, n)
  }

  lemma PickedMore(frame: map<Text, Text>, names: seq<Text>, i: nat)
    requires i < |names|
    ensures var before, n := PickedValues(frame, names[..i]), names[i];
            PickedValues(frame, names[..i + 1]) == before[n := if n in frame && n !in before then frame[n] else []]
  {
    assert names[..i + 1] == names[..i] + [names[i]];
    forall m | m in names[..i + 1]
      ensures Repeated(names[..i + 1], m) <==> Repeated(names[..i], m) || (names[i] == m && m in names[..i])
    {
      RepeatedMore(names, i, m);
    }
  }

  /** No name is asked for twice. */
  predicate NoneTwice(names: seq<Text>) {
    forall i, j | 0 <= i < j < |names| :: names[i] != names[j]
  }

  /** What is picked is what the frame holds exactly when no name is asked for twice. */
  lemma PickedAsFramed(frame: map<Text, Text>, names: seq<Text>)
    requires forall n | n in names :: !IsMissing(frame, n)
    ensures (forall n | n in names :: n in frame && PickedValue(frame, names, n) == frame[n]) <==> NoneTwice(names)
  {
    if !NoneTwice(names) {
      var i, j :| 0 <= i < j < |names| && names[i] == names[j];
      assert names[i] in names && Repeated(names, names[i]);
      assert PickedValue(frame, names, names[i]) != frame[names[i]];
    }
  }

  /** What is left of `frame` without `names`. */
  ghost predicate IsLeft(left: map<Text, Text>, frame: map<Text, Text>, names: seq<Text>) {
    && (forall n :: n in left <==> n in frame && n !in names)
    && forall n | n in left :: left[n] == frame[n]
  }

  /** Takes the names out of the frame one by one. */
  method TakeOut(frame: map<Text, Text>, names: seq<Text>) returns (out: map<Text, Text>)
    ensures out == PickedValues(frame, names)
  {
    var left := frame;
    out := map[];
    for i := 0 to |names|
      invariant out == PickedValues(frame, names[..i]) && IsLeft(left, frame, names[..i])
    {
      var n := names[i];
      PickedMore(frame, names, i);
      assert names[..i + 1] == names[..i] + [n];
      out := out[n := if n in left then left[n] else []];
      left := left - {n};
    }
    assert names[..|names|] == names;
  }

  /** Keeps `names`, all of which must be present and not empty. A name asked for twice is taken out of the frame the
    * first time, so the second time it is given the empty text, and that is what the result holds. */
  method Pick(frame: map<Text, Text>, names: seq<Text>) returns (r: Picked)
    ensures r.Lacks? <==> exists n :: n in names && IsMissing(frame, n)
    ensures r.Lacks? ==> r.names == Missing(frame, names)
    ensures r.Credentials? ==> r.values.Keys == set n | n in names
    ensures r.Credentials? ==>
              forall n | n in names :: r.values[n] == PickedValue(frame, names, n)
    ensures r.Credentials? ==>
              ((forall n | n in names :: n in frame && r.values[n] == frame[n]) <==> NoneTwice(names))
  {
    var missing := Missing(frame, names);
    if missing != [] {
      assert missing[0] in missing;
      return Lacks(missing);
    }
    var out := TakeOut(frame, names);
    PickedAsFramed(frame, names);
    r := Credentials(out);
  }
}
