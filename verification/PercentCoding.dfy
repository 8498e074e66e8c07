/** Percent-encoding of query values (xtask/src/chrome_auth.rs:139-176). */
module PercentCoding {
  import opened Basics
  import opened Utf8

  const PERCENT: Byte := '%' as int
  const PLUS: Byte := '+' as int
  const SPACE: Byte := ' ' as int

  /** The characters section 2.3 of RFC 3986 leaves unreserved. */
  predicate IsUnreserved(b: Byte) {
    IsAlphanumeric(b) || b == '-' as int || b == '.' as int || b == '_' as int || b == '~' as int
  }

  predicate IsUpperHex(b: Byte) {
    '0' as int <= b <= '9' as int || 'A' as int <= b <= 'F' as int
  }

  function UpperHex(n: int): (b: Byte)
    requires 0 <= n < 16
    ensures IsUpperHex(b) && HexDigit(b) == Some(n)
  {
    if n < 10 then '0' as int + n else 'A' as int + n - 10
  }

  function HexDigit(b: Byte): (n: Option<int>)
    ensures n.Some? ==> 0 <= n.value < 16
  {
    if '0' as int <= b <= '9' as int then Some(b as int - '0' as int)
    else if 'A' as int <= b <= 'F' as int then Some(b as int - 'A' as int + 10)
    else if 'a' as int <= b <= 'f' as int then Some(b as int - 'a' as int + 10)
    else None
  }

  /** What reading two bytes as a hexadecimal number gives. The reader takes a leading plus sign, so that is no digit
    * but no error either. */
  function HexPair(a: Byte, b: Byte): Option<Byte> {
    match HexDigit(b)
    case None => None
    case Some(low) =>
      if a == PLUS then Some(low)
      else match HexDigit(a)
        case Some(high) => Some(high * 16 + low)
        case None => None
  }

  function EncodedByte(b: Byte): (t: seq<Byte>) {
    if IsUnreserved(b) then [b] else [PERCENT, UpperHex(b as int / 16), UpperHex(b as int % 16)]
  }

  function Encoded(value: seq<Byte>): (t: seq<Byte>) {
    if value == [] then [] else EncodedByte(value[0]) + Encoded(value[1..])
  }

  /** The bytes that stand for themselves are the letters, the digits and four marks. */
  lemma EncodedByteExactly(b: Byte)
    ensures EncodedByte(b) == [b]
        <==> 'A' as int <= b <= 'Z' as int || 'a' as int <= b <= 'z' as int || '0' as int <= b <= '9' as int
             || b in {'-' as int, '.' as int, '_' as int, '~' as int}
  {
    assert |EncodedByte(b)| == 1 <==> IsUnreserved(b);
  }

  lemma EncodedFrom(out: seq<Byte>, value: seq<Byte>, i: nat)
    requires i < |value|
    ensures out + Encoded(value[i..]) == out + EncodedByte(value[i]) + Encoded(value[i + 1..])
  {
    assert value[i..][1..] == value[i + 1..];
  }

  method PercentEncode(value: seq<Byte>) returns (out: seq<Byte>)
    ensures out == Encoded(value)
  {
    out := [];
    for i := 0 to |value|
      invariant out + Encoded(value[i..]) == Encoded(value)
    {
      var b := value[i];
      EncodedFrom(out, value, i);
      if IsUnreserved(b) {
        out := out + [b];
      } else {
        out := out + [PERCENT, UpperHex(b as int / 16), UpperHex(b as int % 16)];
      }
    }
  }

  function Decoded(t: seq<Byte>): (value: seq<Byte>) {
    if t == [] then []
    else if t[0] == PERCENT && |t| > 2 && HexPair(t[1], t[2]).Some? then
      [HexPair(t[1], t[2]).value] + Decoded(t[3..])
    else
      [if t[0] == PLUS then SPACE else t[0]] + Decoded(t[1..])
  }

  /** A triplet starts at `i`; the index test is the one of the loop below. */
  predicate TripletAt(t: seq<Byte>, i: nat)
    requires i < |t|
  {
    t[i] == PERCENT && i + 2 < |t| && HexPair(t[i + 1], t[i + 2]).Some?
  }

  lemma DecodedFrom(out: seq<Byte>, t: seq<Byte>, i: nat)
    requires i < |t|
    ensures TripletAt(t, i) ==>
              out + Decoded(t[i..]) == out + [HexPair(t[i + 1], t[i + 2]).value] + Decoded(t[i + 3..])
    ensures !TripletAt(t, i) ==>
              out + Decoded(t[i..]) == out + [if t[i] == PLUS then SPACE else t[i]] + Decoded(t[i + 1..])
  {
    var u := t[i..];
    assert u[1..] == t[i + 1..];
    if i + 2 < |t| {
      assert u[1] == t[i + 1] && u[2] == t[i + 2] && u[3..] == t[i + 3..];
    }
  }

  method PercentDecode(value: seq<Byte>) returns (out: seq<Byte>)
    ensures out == Decoded(value)
  {
    out := [];
    var i := 0;
    while i < |value|
      invariant i <= |value|
      invariant Decoded(value) == out + Decoded(value[i..])
    {
      DecodedFrom(out, value, i);
      if value[i] == PERCENT && i + 2 < |value| {
        match HexPair(value[i + 1], value[i + 2]) {
          case Some(b) =>
            out := out + [b];
            i := i + 3;
            continue;
          case None =>
            out := out + [PERCENT];
        }
      } else if value[i] == PLUS {
        out := out + [SPACE];
      } else {
        out := out + [value[i]];
      }
      i := i + 1;
    }
  }

  lemma DecodedByte(b: Byte, rest: seq<Byte>)
    ensures Decoded(EncodedByte(b) + rest) == [b] + Decoded(rest)
  {
    var t := EncodedByte(b) + rest;
    assert t[|EncodedByte(b)|..] == rest;
    if !IsUnreserved(b) {
      assert t[0] == PERCENT && HexPair(t[1], t[2]) == Some(b) && t[3..] == rest;
    }
  }

  lemma FirstAndRest(value: seq<Byte>, more: seq<Byte>)
    requires value != []
    ensures value + more == [value[0]] + (value[1..] + more)
  {
  }

  lemma EncodedStarts(value: seq<Byte>, rest: seq<Byte>)
    requires value != []
    ensures Encoded(value) + rest == EncodedByte(value[0]) + (Encoded(value[1..]) + rest)
  {
  }

  /** Decoding undoes encoding, whatever follows the encoded value. */
  lemma {:induction false} DecodedPrefix(value: seq<Byte>, rest: seq<Byte>)
    ensures Decoded(Encoded(value) + rest) == value + Decoded(rest)
  {
    if value == [] {
      assert Encoded(value) + rest == rest;
    } else {
      EncodedStarts(value, rest);
      DecodedByte(value[0], Encoded(value[1..]) + rest);
      DecodedPrefix(value[1..], rest);
      FirstAndRest(value, Decoded(rest));
    }
  }

  lemma DecodingUndoesEncoding(value: seq<Byte>)
    ensures Decoded(Encoded(value)) == value
  {
    DecodedPrefix(value, []);
    assert Encoded(value) + [] == Encoded(value);
  }

  /** A text of unreserved characters and triplets of a percent sign and two uppercase hexadecimal digits, in which
    * no triplet stands for an unreserved character: the normal form of section 6.2.2 of RFC 3986. */
  predicate IsNormal(t: seq<Byte>) {
    t == []
    || (IsUnreserved(t[0]) && IsNormal(t[1..]))
    || (|t| > 2 && t[0] == PERCENT && IsUpperHex(t[1]) && IsUpperHex(t[2])
        && HexPair(t[1], t[2]).Some? && !IsUnreserved(HexPair(t[1], t[2]).value) && IsNormal(t[3..]))
  }

  lemma {:induction false} EncodedIsNormal(value: seq<Byte>)
    ensures IsNormal(Encoded(value))
  {
    if value != [] {
      EncodedIsNormal(value[1..]);
      var t, b := Encoded(value), value[0];
      assert t[|EncodedByte(b)|..] == Encoded(value[1..]);
      if !IsUnreserved(b) {
        assert t[0] == PERCENT && HexPair(t[1], t[2]) == Some(b);
      }
    }
  }

  lemma {:induction false} NormalIsEncoded(t: seq<Byte>)
    requires IsNormal(t)
    ensures Encoded(Decoded(t)) == t
  {
    if t != [] {
      if IsUnreserved(t[0]) {
        NormalIsEncoded(t[1..]);
        assert Decoded(t)[1..] == Decoded(t[1..]);
        assert t == [t[0]] + t[1..];
      } else {
        var b := HexPair(t[1], t[2]).value;
        NormalIsEncoded(t[3..]);
        assert Decoded(t)[1..] == Decoded(t[3..]);
        UpperHexOfPair(t[1], t[2]);
        assert t == [t[0], t[1], t[2]] + t[3..];
      }
    }
  }

  lemma UpperHexOfPair(a: Byte, b: Byte)
    requires IsUpperHex(a) && IsUpperHex(b)
    ensures HexPair(a, b).Some?
    ensures UpperHex(HexPair(a, b).value as int / 16) == a && UpperHex(HexPair(a, b).value as int % 16) == b
  {
    var high, low := HexDigit(a).value, HexDigit(b).value;
    assert (high * 16 + low) / 16 == high && (high * 16 + low) % 16 == low;
  }

  /** The encodings are exactly the normal texts, and on those decoding is undone by encoding. */
  lemma EncodedExactly(value: seq<Byte>, t: seq<Byte>)
    ensures t == Encoded(value) <==> IsNormal(t) && Decoded(t) == value
  {
    DecodingUndoesEncoding(value);
    EncodedIsNormal(value);
    if IsNormal(t) {
      NormalIsEncoded(t);
    }
  }

  /** An encoded value holds none of the characters a query or a request line is cut at. */
  lemma {:induction false} EncodedIsClean(value: seq<Byte>)
    ensures forall i | 0 <= i < |Encoded(value)| :: IsUnreserved(Encoded(value)[i]) || Encoded(value)[i] == PERCENT
  {
    if value != [] {
      EncodedIsClean(value[1..]);
    }
  }

  // ----- how it differs from RFC 3986 -----

  /** The decoding of section 2.1 of RFC 3986: every percent sign starts a triplet, and all else stands for itself. */
  function Strict(t: seq<Byte>): (value: Option<seq<Byte>>) {
    if t == [] then Some([])
    else if t[0] != PERCENT then
      match Strict(t[1..])
      case Some(rest) => Some([t[0]] + rest)
      case None => None
    else if |t| > 2 && HexDigit(t[1]).Some? && HexDigit(t[2]).Some? then
      match Strict(t[3..])
      case Some(rest) => Some([HexDigit(t[1]).value * 16 + HexDigit(t[2]).value] + rest)
      case None => None
    else None
  }

  predicate TripletsOnly(t: seq<Byte>) {
    forall i | 0 <= i < |t| && t[i] == PERCENT ::
      i + 2 < |t| && HexDigit(t[i + 1]).Some? && HexDigit(t[i + 2]).Some?
  }

  /** Plus signs read as the spaces they stand for in a form. */
  function Spaced(t: seq<Byte>): (r: seq<Byte>)
    ensures |r| == |t| && forall i | 0 <= i < |t| :: r[i] == if t[i] == PLUS then SPACE else t[i]
  {
    seq(|t|, i requires 0 <= i < |t| => if t[i] == PLUS then SPACE else t[i])
  }

  lemma TripletsAfter(t: seq<Byte>, n: nat)
    requires n <= |t| && TripletsOnly(t)
    ensures TripletsOnly(t[n..])
  {
    var u := t[n..];
    forall i | 0 <= i < |u| && u[i] == PERCENT
      ensures i + 2 < |u| && HexDigit(u[i + 1]).Some? && HexDigit(u[i + 2]).Some?
    {
      assert t[n + i] == PERCENT && u[i] == t[n + i];
    }
  }

  lemma TripletsBefore(t: seq<Byte>)
    requires t != [] && t[0] != PERCENT && TripletsOnly(t[1..])
    ensures TripletsOnly(t)
  {
    forall i | 0 <= i < |t| && t[i] == PERCENT
      ensures i + 2 < |t| && HexDigit(t[i + 1]).Some? && HexDigit(t[i + 2]).Some?
    {
      assert t[1..][i - 1] == PERCENT;
    }
  }

  lemma TripletBefore(t: seq<Byte>)
    requires |t| > 2 && t[0] == PERCENT && HexDigit(t[1]).Some? && HexDigit(t[2]).Some? && TripletsOnly(t[3..])
    ensures TripletsOnly(t)
  {
    forall i | 0 <= i < |t| && t[i] == PERCENT
      ensures i + 2 < |t| && HexDigit(t[i + 1]).Some? && HexDigit(t[i + 2]).Some?
    {
      if i > 0 {
        assert t[3..][i - 3] == PERCENT;
      }
    }
  }

  /** RFC 3986 gives a text a meaning exactly when every percent sign in it is followed by two hexadecimal digits. */
  lemma {:induction false} StrictExactly(t: seq<Byte>)
    ensures Strict(t).Some? <==> TripletsOnly(t)
  {
    if t != [] {
      if t[0] != PERCENT {
        StrictExactly(t[1..]);
        if TripletsOnly(t) {
          TripletsAfter(t, 1);
        } else if TripletsOnly(t[1..]) {
          TripletsBefore(t);
        }
      } else if |t| > 2 && HexDigit(t[1]).Some? && HexDigit(t[2]).Some? {
        StrictExactly(t[3..]);
        if TripletsOnly(t) {
          TripletsAfter(t, 3);
        } else if TripletsOnly(t[3..]) {
          TripletBefore(t);
        }
      }
    }
  }

  lemma SpacedAfter(t: seq<Byte>, n: nat)
    requires n <= |t|
    ensures Spaced(t)[n..] == Spaced(t[n..])
  {
  }

  /** On such a text the decoder says what RFC 3986 says of it, once plus signs are read as spaces. */
  lemma {:induction false} DecodedIsStrict(t: seq<Byte>)
    requires TripletsOnly(t)
    ensures Strict(Spaced(t)) == Some(Decoded(t))
  {
    if t != [] {
      if t[0] == PERCENT {
        TripletsAfter(t, 3);
        DecodedIsStrict(t[3..]);
        SpacedAfter(t, 3);
      } else {
        TripletsAfter(t, 1);
        DecodedIsStrict(t[1..]);
        SpacedAfter(t, 1);
      }
    }
  }

  lemma SpacedTriplets(t: seq<Byte>)
    ensures TripletsOnly(Spaced(t)) ==> TripletsOnly(t)
  {
    var u := Spaced(t);
    if TripletsOnly(u) {
      forall i | 0 <= i < |t| && t[i] == PERCENT
        ensures i + 2 < |t| && HexDigit(t[i + 1]).Some? && HexDigit(t[i + 2]).Some?
      {
        assert u[i] == PERCENT && u[i + 1] != SPACE && u[i + 2] != SPACE;
      }
    }
  }

  /** A text that reads alike with plus signs as spaces has none. */
  lemma {:induction false} StrictTellsPlus(t: seq<Byte>)
    requires TripletsOnly(t) && Strict(t) == Strict(Spaced(t)) && Strict(t).Some?
    ensures PLUS !in t
  {
    if t != [] {
      var n := if t[0] == PERCENT then 3 else 1;
      TripletsAfter(t, n);
      SpacedAfter(t, n);
      DecodedIsStrict(t[n..]);
      StrictExactly(t[n..]);
      assert Strict(t).value[1..] == Strict(t[n..]).value;
      assert Strict(Spaced(t)).value[1..] == Strict(Spaced(t)[n..]).value;
      StrictTellsPlus(t[n..]);
      assert t == t[..n] + t[n..];
    }
  }

  /**
   * The decoder agrees with RFC 3986 exactly on the texts whose percent signs all start triplets and that have no plus
   * sign, and with the reading of forms, where a plus sign is a space, exactly on the former. It takes every other text
   * too.
   */
  lemma DecodedExactly(t: seq<Byte>)
    ensures Strict(t) == Some(Decoded(t)) <==> TripletsOnly(t) && PLUS !in t
    ensures Strict(Spaced(t)) == Some(Decoded(t)) <==> TripletsOnly(t)
  {
    StrictExactly(t);
    StrictExactly(Spaced(t));
    SpacedTriplets(t);
    if TripletsOnly(t) {
      DecodedIsStrict(t);
      if PLUS !in t {
        assert Spaced(t) == t;
      } else if Strict(t) == Some(Decoded(t)) {
        StrictTellsPlus(t);
      }
    }
  }

  /** Three texts without a meaning for RFC 3986, and what is read from them: a signed digit counts as a number, and a
    * percent sign that starts no triplet stands for itself. */
  lemma LenientDecoding()
    ensures Decoded([PERCENT, PLUS, 'f' as int]) == [15]
    ensures Decoded([PERCENT, 'z' as int, '1' as int]) == [PERCENT, 'z' as int, '1' as int]
    ensures Decoded([PERCENT, '4' as int]) == [PERCENT, '4' as int]
  {
    assert Decoded([]) == [];
    assert Decoded(['4' as int]) == ['4' as int];
    assert Decoded(['1' as int]) == ['1' as int];
    assert Decoded(['z' as int, '1' as int]) == ['z' as int] + Decoded(['1' as int]);
  }
}
