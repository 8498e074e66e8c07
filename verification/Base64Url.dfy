/** Unpadded base64url (xtask/src/chrome_auth.rs:123-136), the encoding of section 5 of RFC 4648. */
module Base64Url {
  import opened Basics

  const UPPER := "ABCDEFGHIJKLM" + "NOPQRSTUVWXYZ"
  const LOWER := "abcdefghijklm" + "nopqrstuvwxyz"
  const ALPHABET := UPPER + LOWER + "0123456789" + "-_"

  type Sextet = n: int | 0 <= n < 64

  /** The value of a character, by the ranges of the table in section 5 of RFC 4648. */
  function Value(c: char): (n: Option<Sextet>) {
    if 'A' <= c <= 'Z' then Some(c as int - 'A' as int)
    else if 'a' <= c <= 'z' then Some(c as int - 'a' as int + 26)
    else if '0' <= c <= '9' then Some(c as int - '0' as int + 52)
    else if c == '-' then Some(62)
    else if c == '_' then Some(63)
    else None
  }

  lemma UpperInOrder(n: nat)
    requires n < 26
    ensures UPPER[n] as int == 'A' as int + n
  {
    if n < 13 {
      assert UPPER[n] == "ABCDEFGHIJKLM"[n];
    } else {
      assert UPPER[n] == "NOPQRSTUVWXYZ"[n - 13];
    }
  }

  lemma LowerInOrder(n: nat)
    requires n < 26
    ensures LOWER[n] as int == 'a' as int + n
  {
    if n < 13 {
      assert LOWER[n] == "abcdefghijklm"[n];
    } else {
      assert LOWER[n] == "nopqrstuvwxyz"[n - 13];
    }
  }

  /** The alphabet written out is the table given by ranges. */
  lemma AlphabetInOrder(n: Sextet)
    ensures |ALPHABET| == 64 && Value(ALPHABET[n]) == Some(n)
  {
    if n < 26 {
      UpperInOrder(n);
      assert ALPHABET[n] == UPPER[n];
    } else if n < 52 {
      LowerInOrder(n - 26);
      assert ALPHABET[n] == LOWER[n - 26];
    } else if n < 62 {
      assert ALPHABET[n] == "0123456789"[n - 52];
    } else {
      assert ALPHABET[n] == "-_"[n - 62];
    }
  }

  function Letter(n: Sextet): (c: char)
    ensures Value(c) == Some(n)
  {
    AlphabetInOrder(n);
    ALPHABET[n]
  }

  lemma LetterOfValue(c: char)
    requires Value(c).Some?
    ensures Letter(Value(c).value) == c
  {
    var d := Letter(Value(c).value);
    assert Value(d) == Value(c);
  }

  /** The six-bit groups of three bytes. */
  function Head(a: Byte): Sextet { a as int / 4 }
  function Middle(a: Byte, b: Byte): Sextet { a as int % 4 * 16 + b as int / 16 }
  function Next(b: Byte, c: Byte): Sextet { b as int % 16 * 4 + c as int / 64 }
  function Last(c: Byte): Sextet { c as int % 64 }

  /** The bits of `bytes` in groups of six, the last group filled with 0. */
  function Sextets(bytes: seq<Byte>): (s: seq<Sextet>)
    ensures |s| == (4 * |bytes| + 2) / 3
  {
    if bytes == [] then []
    else if |bytes| == 1 then [Head(bytes[0]), Middle(bytes[0], 0)]
    else if |bytes| == 2 then [Head(bytes[0]), Middle(bytes[0], bytes[1]), Next(bytes[1], 0)]
    else
      [Head(bytes[0]), Middle(bytes[0], bytes[1]), Next(bytes[1], bytes[2]), Last(bytes[2])] + Sextets(bytes[3..])
  }

  /** The bytes of a group of four sextets. */
  function First(p: Sextet, q: Sextet): Byte { p as int * 4 + q as int / 16 }
  function Second(q: Sextet, r: Sextet): Byte { q as int % 16 * 16 + r as int / 4 }
  function Third(r: Sextet, s: Sextet): Byte { r as int % 4 * 64 + s as int }

  /** The bytes that groups of six bits carry; strict, so the bits that fill the last group must be 0. */
  function Octets(s: seq<Sextet>): (bytes: Option<seq<Byte>>) {
    if s == [] then Some([])
    else if |s| == 1 then None
    else if |s| == 2 then
      if s[1] % 16 == 0 then Some([First(s[0], s[1])]) else None
    else if |s| == 3 then
      if s[2] % 4 == 0 then Some([First(s[0], s[1]), Second(s[1], s[2])]) else None
    else match Octets(s[4..])
      case Some(rest) => Some([First(s[0], s[1]), Second(s[1], s[2]), Third(s[2], s[3])] + rest)
      case None => None
  }

  lemma GroupsAgree(a: Byte, b: Byte, c: Byte)
    ensures First(Head(a), Middle(a, b)) == a
    ensures Second(Middle(a, b), Next(b, c)) == b
    ensures Third(Next(b, c), Last(c)) == c
    ensures Middle(a, 0) % 16 == 0 && Next(b, 0) % 4 == 0
  {
  }

  lemma {:induction false} OctetsOfSextets(bytes: seq<Byte>)
    ensures Octets(Sextets(bytes)) == Some(bytes)
  {
    if |bytes| == 1 {
      assert bytes == [bytes[0]];
      GroupsAgree(bytes[0], 0, 0);
    } else if |bytes| == 2 {
      assert bytes == [bytes[0], bytes[1]];
      GroupsAgree(bytes[0], bytes[1], 0);
    } else if bytes != [] {
      assert bytes == [bytes[0], bytes[1], bytes[2]] + bytes[3..];
      OctetsOfSextets(bytes[3..]);
      assert Sextets(bytes)[4..] == Sextets(bytes[3..]);
      GroupsAgree(bytes[0], bytes[1], bytes[2]);
    }
  }

  lemma OctetsAgree(p: Sextet, q: Sextet, r: Sextet, s: Sextet)
    ensures var a, b, c := First(p, q), Second(q, r), Third(r, s);
            Head(a) == p && Middle(a, b) == q && Next(b, c) == r && Last(c) == s
    ensures q % 16 == 0 ==> Middle(First(p, q), 0) == q
    ensures r % 4 == 0 ==> Next(Second(q, r), 0) == r
  {
  }

  lemma GroupOfOctets(s: seq<Sextet>, rest: seq<Byte>)
    requires |s| >= 4
    ensures Sextets([First(s[0], s[1]), Second(s[1], s[2]), Third(s[2], s[3])] + rest) == s[..4] + Sextets(rest)
  {
    OctetsAgree(s[0], s[1], s[2], s[3]);
    var group := [First(s[0], s[1]), Second(s[1], s[2]), Third(s[2], s[3])];
    assert (group + rest)[3..] == rest;
    assert s[..4] == [s[0], s[1], s[2], s[3]];
  }

  lemma {:induction false} SextetsOfOctets(s: seq<Sextet>)
    requires Octets(s).Some?
    ensures Sextets(Octets(s).value) == s
  {
    if |s| == 2 {
      assert s == [s[0], s[1]];
      OctetsAgree(s[0], s[1], 0, 0);
    } else if |s| == 3 {
      assert s == [s[0], s[1], s[2]];
      OctetsAgree(s[0], s[1], s[2], 0);
    } else if s != [] {
      assert s == s[..4] + s[4..];
      SextetsOfOctets(s[4..]);
      GroupOfOctets(s, Octets(s[4..]).value);
    }
  }

  /** What section 5 of RFC 4648 writes for `bytes`, without padding. */
  function Encoding(bytes: seq<Byte>): (t: string)
    ensures |t| == (4 * |bytes| + 2) / 3
    ensures forall i | 0 <= i < |t| :: Value(t[i]).Some?
  {
    Spelled(Sextets(bytes))
  }

  function Spelled(s: seq<Sextet>): (t: string)
    ensures |t| == |s| && forall i | 0 <= i < |t| :: Value(t[i]) == Some(s[i])
  {
    seq(|s|, i requires 0 <= i < |s| => Letter(s[i]))
  }

  /** The strict decoder of section 5 of RFC 4648, for unpadded texts. */
  function Decoding(t: string): (bytes: Option<seq<Byte>>) {
    if forall i | 0 <= i < |t| :: Value(t[i]).Some? then Octets(Values(t)) else None
  }

  function Values(t: string): (s: seq<Sextet>)
    requires forall i | 0 <= i < |t| :: Value(t[i]).Some?
    ensures |s| == |t| && forall i | 0 <= i < |t| :: s[i] == Value(t[i]).value
  {
    seq(|t|, i requires 0 <= i < |t| => Value(t[i]).value)
  }

  /** A text is the encoding of `bytes` exactly when the strict decoder reads `bytes` from it, so different bytes are
    * encoded differently. */
  lemma EncodingExactly(bytes: seq<Byte>, t: string)
    ensures t == Encoding(bytes) <==> Decoding(t) == Some(bytes)
  {
    OctetsOfSextets(bytes);
    assert Values(Encoding(bytes)) == Sextets(bytes);
    if Decoding(t) == Some(bytes) {
      SextetsOfOctets(Values(t));
      forall i | 0 <= i < |t|
        ensures Encoding(bytes)[i] == t[i]
      {
        LetterOfValue(t[i]);
      }
    }
  }

  /** A chunk of up to three bytes as the top bits of a 24-bit number. */
  function Word(chunk: seq<Byte>): (n: nat)
    requires |chunk| <= 3
  {
    At(chunk, 0) as int * 0x10000 + At(chunk, 1) as int * 0x100 + At(chunk, 2) as int
  }

  function At(chunk: seq<Byte>, i: nat): Byte
  {
    if i < |chunk| then chunk[i] else 0
  }

  /** Shifting `n` right by `18 - 6 * i` bits and keeping six. */
  function Digit(n: nat, i: nat): Sextet
    requires i < 4
  {
    (match i case 0 => n / 0x40000 case 1 => n / 0x1000 case 2 => n / 0x40 case _ => n) % 64
  }

  lemma DigitsOfSum(p: Sextet, q: Sextet, r: Sextet, s: Sextet)
    ensures var n := p as int * 0x40000 + q as int * 0x1000 + r as int * 0x40 + s as int;
            Digit(n, 0) == p && Digit(n, 1) == q && Digit(n, 2) == r && Digit(n, 3) == s
  {
    var n := p as int * 0x40000 + q as int * 0x1000 + r as int * 0x40 + s as int;
    assert n / 0x40 == p as int * 0x1000 + q as int * 0x40 + r as int;
    assert n / 0x1000 == p as int * 0x40 + q as int;
    assert n / 0x40000 == p as int;
  }

  lemma DigitsOfWord(chunk: seq<Byte>)
    requires |chunk| <= 3
    ensures var n, a, b, c := Word(chunk), At(chunk, 0), At(chunk, 1), At(chunk, 2);
            Digit(n, 0) == Head(a) && Digit(n, 1) == Middle(a, b) && Digit(n, 2) == Next(b, c) && Digit(n, 3) == Last(c)
  {
    var a, b, c := At(chunk, 0), At(chunk, 1), At(chunk, 2);
    DigitsOfSum(Head(a), Middle(a, b), Next(b, c), Last(c));
  }

  function Digits(n: nat, count: nat): (s: seq<Sextet>)
    requires count <= 4
    ensures |s| == count
  {
    if count == 0 then [] else Digits(n, count - 1) + [Digit(n, count - 1)]
  }

  lemma ChunkSextets(chunk: seq<Byte>, rest: seq<Byte>)
    requires 1 <= |chunk| <= 3 && (|chunk| == 3 || rest == [])
    ensures Sextets(chunk + rest) == Digits(Word(chunk), |chunk| + 1) + Sextets(rest)
  {
    var n := Word(chunk);
    DigitsOfWord(chunk);
    assert Digits(n, 2) == [Digit(n, 0), Digit(n, 1)];
    assert Digits(n, 3) == [Digit(n, 0), Digit(n, 1), Digit(n, 2)];
    assert Digits(n, 4) == [Digit(n, 0), Digit(n, 1), Digit(n, 2), Digit(n, 3)];
    if |chunk| == 3 {
      assert (chunk + rest)[3..] == rest;
    } else {
      assert chunk + rest == chunk;
    }
  }

  /** The number the chunk's bytes are folded into; or-ing in bits that are still 0 adds them. */
  method Fold(chunk: seq<Byte>) returns (n: nat)
    requires |chunk| <= 3
    ensures n == Word(chunk)
  {
    n := 0;
    for i := 0 to |chunk|
      invariant n == Word(chunk[..i])
    {
      n := n + (match i
                case 0 => chunk[i] as int * 0x10000
                case 1 => chunk[i] as int * 0x100
                case _ => chunk[i] as int);
    }
    assert chunk[..|chunk|] == chunk;
  }

  /** Pushes the letters of the top `count` groups of six bits of `n`. */
  method Push(n: nat, count: nat) returns (t: string)
    requires count <= 4
    ensures t == Spelled(Digits(n, count))
  {
    t := "";
    for i := 0 to count
      invariant t == Spelled(Digits(n, i))
    {
      t := t + [Letter(Digit(n, i))];
    }
  }

  lemma ChunkPushed(done: seq<Sextet>, chunk: seq<Byte>, rest: seq<Byte>)
    requires 1 <= |chunk| <= 3 && (|chunk| == 3 || rest == [])
    ensures done + Sextets(chunk + rest) == done + Digits(Word(chunk), |chunk| + 1) + Sextets(rest)
  {
    ChunkSextets(chunk, rest);
  }

  lemma SpelledTogether(s: seq<Sextet>, t: seq<Sextet>)
    ensures Spelled(s + t) == Spelled(s) + Spelled(t)
  {
  }

  method Base64Url(bytes: seq<Byte>) returns (out: string)
    ensures out == Encoding(bytes)
  {
    out := "";
    var at := 0;
    ghost var done: seq<Sextet> := [];
    while at < |bytes|
      invariant at <= |bytes|
      invariant out == Spelled(done) && done + Sextets(bytes[at..]) == Sextets(bytes)
    {
      var end := if at + 3 <= |bytes| then at + 3 else |bytes|;
      var chunk := bytes[at..end];
      var n := Fold(chunk);
      var letters := Push(n, |chunk| + 1);
      out := out + letters;
      SpelledTogether(done, Digits(n, |chunk| + 1));
      ChunkPushed(done, chunk, bytes[end..]);
      assert bytes[at..] == chunk + bytes[end..];
      done := done + Digits(n, |chunk| + 1);
      at := end;
    }
  }
}
