/** Texts as the bytes that hold them. */
module Utf8 {
  import opened Basics

  /** A literal of ASCII characters, in bytes; a character outside ASCII would become 0. */
  function Ascii(s: string): (r: seq<Byte>)
    ensures |r| == |s| && IsUtf8(r)
    ensures forall i | 0 <= i < |s| :: r[i] == if s[i] as int < 128 then s[i] as int else 0
  {
    var r := seq(|s|, i requires 0 <= i < |s| => if s[i] as int < 128 then s[i] as int else 0);
    AsciiIsUtf8(r);
    r
  }

  predicate IsAlphanumeric(b: Byte) {
    '0' as int <= b <= '9' as int || 'A' as int <= b <= 'Z' as int || 'a' as int <= b <= 'z' as int
  }

  predicate Tail(b: Byte) {
    0x80 <= b < 0xC0
  }

  /** How many bytes the first character takes, or 0 if there is none: section 4 of RFC 3629. */
  function FirstCharacter(s: seq<Byte>): (n: nat)
    ensures n <= |s|
  {
    if |s| >= 1 && s[0] < 0x80 then 1
    else if |s| >= 2 && 0xC2 <= s[0] < 0xE0 && Tail(s[1]) then 2
    else if |s| >= 3 && 0xE0 <= s[0] < 0xF0 && Tail(s[1]) && Tail(s[2])
      && (s[0] == 0xE0 ==> s[1] >= 0xA0) && (s[0] == 0xED ==> s[1] < 0xA0) then 3
    else if |s| >= 4 && 0xF0 <= s[0] < 0xF5 && Tail(s[1]) && Tail(s[2]) && Tail(s[3])
      && (s[0] == 0xF0 ==> s[1] >= 0x90) && (s[0] == 0xF4 ==> s[1] < 0x90) then 4
    else 0
  }

  predicate IsUtf8(s: seq<Byte>) {
    s == [] || (FirstCharacter(s) > 0 && IsUtf8(s[FirstCharacter(s)..]))
  }

  lemma {:induction false} AsciiIsUtf8(s: seq<Byte>)
    requires forall i | 0 <= i < |s| :: s[i] < 128
    ensures IsUtf8(s)
  {
    if s != [] {
      AsciiIsUtf8(s[1..]);
    }
  }
}
