/**
 * The record files of a shared vault's exchange folder: a deterministic CBOR envelope that is
 * named by the hash of its own contents (ExchangeMirror.swift).
 */
module RecordEnvelope {
  import opened Basics
  import opened Endian

  /** The bytes of one record file, at most. */
  const MAX_RECORD_BYTES: int := 0x10_0000

  datatype Envelope = Envelope(author: seq<Byte>, body: seq<Byte>, sig: seq<Byte>) {
    predicate WellFormed() {
      |author| == 32 && |sig| == 64 && |body| < 0x1_0000_0000
    }
  }

  type Digest = d: seq<Byte> | |d| == 32 witness seq(32, _ => 0)
  type Hash = seq<Byte> -> Digest

  // ---- The format, as sections 3 and 4.2.1 of RFC 8949 define it ----

  /** The shortest head of a byte string of length `n`: major type 2 and the length. */
  function Head(n: nat): seq<Byte>
    requires n < 0x1_0000_0000
  {
    if n < 24 then [0x40 + n]
    else if n < 0x100 then [0x58] + BigEndian(n, 1)
    else if n < 0x1_0000 then [0x59] + BigEndian(n, 2)
    else [0x5a] + BigEndian(n, 4)
  }

  function ByteString(s: seq<Byte>): seq<Byte>
    requires |s| < 0x1_0000_0000
  {
    Head(|s|) + s
  }

  /** The CBOR array `[1, author, body, sig]`. */
  function Encode(e: Envelope): seq<Byte>
    requires e.WellFormed()
  {
    [0x84, 0x01] + ByteString(e.author) + ByteString(e.body) + ByteString(e.sig)
  }

  /** `b` is the one encoding of `e`, and within the size limit. */
  ghost predicate Encodes(b: seq<Byte>, e: Envelope) {
    e.WellFormed() && b == Encode(e) && |b| <= MAX_RECORD_BYTES
  }

  const RECORD_DOMAIN: seq<Byte> :=
    // kagisecure/shared/sig/record/v1
    [107, 97, 103, 105, 115, 101, 99, 117, 114, 101, 47, 115, 104, 97, 114, 101, 100, 47,
     115, 105, 103, 47, 114, 101, 99, 111, 114, 100, 47, 118, 49]

  function Preimage(e: Envelope): seq<Byte> {
    RECORD_DOMAIN + [0] + e.author + e.body + e.sig
  }

  function HexDigit(n: int): char
    requires 0 <= n < 16
  {
    "0123456789abcdef"[n]
  }

  function Hex(s: seq<Byte>): (h: string)
    ensures |h| == 2 * |s|
  {
    if s == [] then "" else [HexDigit(s[0] / 16), HexDigit(s[0] % 16)] + Hex(s[1..])
  }

  predicate IsHexDigit(c: char) {
    '0' <= c <= '9' || 'a' <= c <= 'f'
  }

  /** The file name of an envelope. */
  function RecordName(hash: Hash, e: Envelope): string {
    Hex(hash(Preimage(e))) + ".ksr"
  }

  /** What it means for `data` to be the record that `name` claims. */
  ghost predicate ValidRecord(hash: Hash, name: string, data: seq<Byte>) {
    exists e :: Encodes(data, e) && name == RecordName(hash, e)
  }

  predicate IsRecordName(name: string) {
    EndsWith(name, ".ksr") && |name| == 68 && forall i :: 0 <= i < 64 ==> IsHexDigit(name[i])
  }

  // ---- Facts about the format ----

  function Width(info: int): nat {
    if info == 24 then 1 else if info == 25 then 2 else 4
  }

  function Minimum(info: int): nat {
    if info == 24 then 24 else if info == 25 then 0x100 else 0x1_0000
  }

  /** `rest` starts with a byte-string head of length `n` that could not have been shorter. */
  ghost predicate ShortestHead(n: nat, rest: seq<Byte>) {
    && rest != []
    && rest[0] / 32 == 2
    && var info := rest[0] % 32;
    && info <= 26
    && (info < 24 ==> n == info)
    && (info >= 24 ==>
          var w := Width(info);
          1 + w <= |rest| && n == FromBigEndian(rest[1..1 + w]) && n >= Minimum(info))
  }

  function HeadLength(first: Byte): nat {
    if first % 32 < 24 then 1 else 1 + Width(first % 32)
  }

  /** `s` is the byte string written at `b[i..j]`. */
  ghost predicate FieldAt(b: seq<Byte>, i: nat, s: seq<Byte>, j: nat) {
    i <= j <= |b| && |s| < 0x1_0000_0000 && b[i..j] == ByteString(s)
  }

  ghost predicate NoFieldAt(b: seq<Byte>, i: nat) {
    forall s, j :: !FieldAt(b, i, s, j)
  }

  lemma Powers()
    ensures Pow256(1) == 0x100 && Pow256(2) == 0x1_0000 && Pow256(4) == 0x1_0000_0000
  {
    assert Pow256(1) == 0x100 && Pow256(2) == 0x1_0000;
    assert Pow256(3) == 0x100_0000;
  }

  lemma {:induction false} FromBigEndianBound(s: seq<Byte>)
    ensures FromBigEndian(s) < Pow256(|s|)
  {
    if s != [] {
      FromBigEndianBound(s[..|s| - 1]);
    }
  }

  lemma WideHead(n: nat, rest: seq<Byte>)
    requires ShortestHead(n, rest) && rest[0] % 32 >= 24
    ensures var w := Width(rest[0] % 32);
            n < Pow256(w) && rest[..1 + w] == [rest[0]] + BigEndian(n, w)
  {
    var w := Width(rest[0] % 32);
    var s := rest[1..1 + w];
    FromBigEndianBound(s);
    BigEndianInverts(s);
    assert rest[..1 + w] == [rest[0]] + s;
  }

  /** A head in its shortest form is the head the format prescribes. */
  lemma ShortestHeadIsHead(n: nat, rest: seq<Byte>)
    requires ShortestHead(n, rest)
    ensures n < 0x1_0000_0000
    ensures Head(n) == rest[..HeadLength(rest[0])]
  {
    Powers();
    if rest[0] % 32 >= 24 {
      WideHead(n, rest);
    }
  }

  lemma WideHeadIsShortest(n: nat, info: int, tail: seq<Byte>)
    requires 24 <= info <= 26 && Minimum(info) <= n < Pow256(Width(info))
    ensures var head := [0x40 + info] + BigEndian(n, Width(info));
            ShortestHead(n, head + tail) && |head| == HeadLength(head[0])
  {
    FromBigEndianInverts(n, Width(info));
    var rest := [0x40 + info] + BigEndian(n, Width(info)) + tail;
    assert rest[1..1 + Width(info)] == BigEndian(n, Width(info));
  }

  lemma HeadIsShortest(n: nat, tail: seq<Byte>)
    requires n < 0x1_0000_0000
    ensures ShortestHead(n, Head(n) + tail)
    ensures |Head(n)| == HeadLength(Head(n)[0])
  {
    Powers();
    if n >= 24 {
      WideHeadIsShortest(n, if n < 0x100 then 24 else if n < 0x1_0000 then 25 else 26, tail);
    }
  }

  lemma FieldStartsWithHead(b: seq<Byte>, i: nat, s: seq<Byte>, j: nat)
    requires FieldAt(b, i, s, j)
    ensures ShortestHead(|s|, b[i..])
    ensures j == i + HeadLength(b[i]) + |s|
  {
    HeadIsShortest(|s|, s + b[j..]);
    assert b[i..] == b[i..j] + b[j..];
    assert b[i..] == Head(|s|) + (s + b[j..]);
  }

  lemma NoShortestHeadNoField(b: seq<Byte>, i: nat)
    requires i <= |b|
    requires forall n: nat | ShortestHead(n, b[i..]) :: i + HeadLength(b[i]) + n > |b|
    ensures NoFieldAt(b, i)
  {
    forall s, j
      ensures !FieldAt(b, i, s, j)
    {
      if FieldAt(b, i, s, j) {
        FieldStartsWithHead(b, i, s, j);
      }
    }
  }

  lemma NoRoomNoField(b: seq<Byte>, i: nat, n: nat)
    requires i < |b| && ShortestHead(n, b[i..]) && i + HeadLength(b[i]) + n > |b|
    ensures NoFieldAt(b, i)
  {
    forall m: nat | ShortestHead(m, b[i..])
      ensures m == n
    {
    }
    NoShortestHeadNoField(b, i);
  }

  lemma ShortestHeadField(b: seq<Byte>, i: nat, n: nat, k: nat)
    requires i < |b| && ShortestHead(n, b[i..])
    requires k == i + HeadLength(b[i]) && k + n <= |b|
    ensures FieldAt(b, i, b[k..k + n], k + n)
  {
    ShortestHeadIsHead(n, b[i..]);
    assert b[i..k + n] == b[i..][..k - i] + b[k..k + n];
  }

  /** The format is prefix-free: at most one byte string can be read at a place. */
  lemma FieldUnique(b: seq<Byte>, i: nat, s: seq<Byte>, j: nat, t: seq<Byte>, k: nat)
    requires FieldAt(b, i, s, j) && FieldAt(b, i, t, k)
    ensures s == t && j == k
  {
    FieldStartsWithHead(b, i, s, j);
    FieldStartsWithHead(b, i, t, k);
    assert s == ByteString(s)[|Head(|s|)|..] && t == ByteString(t)[|Head(|t|)|..];
  }

  /** The three fields of an envelope in its encoding, and where they end. */
  ghost predicate FieldsAt(b: seq<Byte>, e: Envelope, i: nat, j: nat) {
    FieldAt(b, 2, e.author, i) && FieldAt(b, i, e.body, j) && FieldAt(b, j, e.sig, |b|)
  }

  lemma EncodeFields(e: Envelope) returns (i: nat, j: nat)
    requires e.WellFormed()
    ensures |Encode(e)| >= 3 && Encode(e)[0] == 0x84 && Encode(e)[1] == 0x01
    ensures FieldsAt(Encode(e), e, i, j)
  {
    i := 2 + |ByteString(e.author)|;
    j := i + |ByteString(e.body)|;
  }

  lemma FieldsEncode(b: seq<Byte>, e: Envelope, i: nat, j: nat)
    requires e.WellFormed() && |b| >= 2 && b[0] == 0x84 && b[1] == 0x01
    requires FieldsAt(b, e, i, j)
    ensures b == Encode(e)
  {
    assert b == [b[0], b[1]] + b[2..i] + b[i..j] + b[j..|b|];
  }

  /** Encoding is injective: reading it back is the only way to have written it. */
  lemma EncodeInjective(e: Envelope, f: Envelope)
    requires e.WellFormed() && f.WellFormed()
    requires Encode(e) == Encode(f)
    ensures e == f
  {
    var b := Encode(e);
    var i, j := EncodeFields(e);
    var k, l := EncodeFields(f);
    FieldUnique(b, 2, e.author, i, f.author, k);
    FieldUnique(b, i, e.body, j, f.body, l);
    FieldUnique(b, j, e.sig, |b|, f.sig, |b|);
  }

  /** The hashed bytes say which author, body and signature they are of, with no separators between them. */
  lemma PreimageInjective(e: Envelope, f: Envelope)
    requires e.WellFormed() && f.WellFormed()
    requires Preimage(e) == Preimage(f)
    ensures e == f
  {
    var domain := RECORD_DOMAIN + [0];
    SplitEqual(domain + e.author + e.body, e.sig, domain + f.author + f.body, f.sig);
    SplitEqual(domain + e.author, e.body, domain + f.author, f.body);
    SplitEqual(domain, e.author, domain, f.author);
  }

  lemma {:induction false} HexInjective(s: seq<Byte>, t: seq<Byte>)
    requires |s| == |t| && Hex(s) == Hex(t)
    ensures s == t
  {
    if s != [] {
      var x, y := Hex(s), Hex(t);
      assert x[0] == HexDigit(s[0] / 16) && x[1] == HexDigit(s[0] % 16);
      assert y[0] == HexDigit(t[0] / 16) && y[1] == HexDigit(t[0] % 16);
      assert x[2..] == Hex(s[1..]) && y[2..] == Hex(t[1..]);
      HexDigitInjective(s[0] / 16, t[0] / 16);
      HexDigitInjective(s[0] % 16, t[0] % 16);
      HexInjective(s[1..], t[1..]);
    }
  }

  lemma HexDigitInjective(m: int, n: int)
    requires 0 <= m < 16 && 0 <= n < 16 && HexDigit(m) == HexDigit(n)
    ensures m == n
  {
    var digits := "0123456789abcdef";
    assert forall i, j :: 0 <= i < j < 16 ==> digits[i] != digits[j];
  }

  lemma {:induction false} HexIsHex(s: seq<Byte>)
    ensures forall i :: 0 <= i < |Hex(s)| ==> IsHexDigit(Hex(s)[i])
  {
    if s != [] {
      HexIsHex(s[1..]);
    }
  }

  /** Every envelope's name passes the name filter, so the filter hides no record. */
  lemma RecordNameIsRecordName(hash: Hash, e: Envelope)
    ensures IsRecordName(RecordName(hash, e))
  {
    HexIsHex(hash(Preimage(e)));
    var name := RecordName(hash, e);
    assert name[64..] == ".ksr";
    assert forall i :: 0 <= i < 64 ==> name[i] == Hex(hash(Preimage(e)))[i];
  }

  function HexValue(c: char): (n: nat)
    requires IsHexDigit(c)
    ensures n < 16 && HexDigit(n) == c
  {
    if c <= '9' then (c as int) - ('0' as int) else (c as int) - ('a' as int) + 10
  }

  function ByteOf(high: char, low: char): (b: Byte)
    requires IsHexDigit(high) && IsHexDigit(low)
    ensures HexDigit(b / 16) == high && HexDigit(b % 16) == low
  {
    assert (HexValue(high) * 16 + HexValue(low)) / 16 == HexValue(high);
    HexValue(high) * 16 + HexValue(low)
  }

  /** Every run of an even number of lower-case hexadecimal digits is the writing of some bytes. */
  lemma {:induction false} HexOf(h: string) returns (s: seq<Byte>)
    requires |h| % 2 == 0 && forall i | 0 <= i < |h| :: IsHexDigit(h[i])
    ensures 2 * |s| == |h| && Hex(s) == h
  {
    if h == "" {
      s := [];
    } else {
      var rest := HexOf(h[2..]);
      s := [ByteOf(h[0], h[1])] + rest;
      assert s[1..] == rest;
      assert h == [h[0], h[1]] + h[2..];
    }
  }

  /** The filter lets through exactly the names that some hash could give. */
  lemma RecordNameExactly(name: string)
    ensures IsRecordName(name) <==> exists d: Digest :: name == Hex(d) + ".ksr"
  {
    if IsRecordName(name) {
      var h := name[..64];
      assert name == h + ".ksr";
      var d := HexOf(h);
      assert name == Hex(d) + ".ksr";
    }
    if d: Digest :| name == Hex(d) + ".ksr" {
      HexIsHex(d);
      assert name[64..] == ".ksr";
      assert forall i :: 0 <= i < 64 ==> name[i] == Hex(d)[i];
    }
  }

  /** The hash tells the records `x` and `y` apart, if they are records: their preimages do not collide. */
  ghost predicate TellsApart(hash: Hash, x: seq<Byte>, y: seq<Byte>) {
    forall e: Envelope, f: Envelope | Encodes(x, e) && Encodes(y, f) && hash(Preimage(e)) == hash(Preimage(f)) ::
      Preimage(e) == Preimage(f)
  }

  /**
   * Two contents that are valid under one name are the same bytes, unless the hash collides on them.
   * This is what makes "both copies are valid, so there is nothing to do" sound in the sync pass.
   */
  lemma ValidBytesUnique(hash: Hash, name: string, x: seq<Byte>, y: seq<Byte>)
    requires TellsApart(hash, x, y)
    requires ValidRecord(hash, name, x) && ValidRecord(hash, name, y)
    ensures x == y
  {
    var e :| Encodes(x, e) && name == RecordName(hash, e);
    var f :| Encodes(y, f) && name == RecordName(hash, f);
    SplitEqual(Hex(hash(Preimage(e))), ".ksr", Hex(hash(Preimage(f))), ".ksr");
    HexInjective(hash(Preimage(e)), hash(Preimage(f)));
    PreimageInjective(e, f);
  }

  // ---- The reader ----

  /** The cursor over the bytes that the nested reader advances. */
  class Cursor {
    const b: seq<Byte>
    var i: nat

    constructor (b: seq<Byte>, i: nat)
      requires i <= |b|
      ensures this.b == b && this.i == i
    {
      this.b := b;
      this.i := i;
    }

    /** Reads the head of a definite-length byte string in its shortest form: the string's length. */
    method Length() returns (r: Option<nat>)
      requires i <= |b|
      modifies this`i
      ensures match r
              case Some(n) => old(i) < |b| && ShortestHead(n, b[old(i)..]) && i == old(i) + HeadLength(b[old(i)]) <= |b|
              case None => forall n: nat :: !ShortestHead(n, b[old(i)..])
    {
      ghost var start := i;
      if !(i < |b| && b[i] / 32 == 2) {
        return None;
      }
      var info: nat := b[i] % 32;
      i := i + 1;
      if info < 24 {
        return Some(info);
      } else if info <= 26 {
        var w := if info == 24 then 1 else if info == 25 then 2 else 4;
        if i + w > |b| {
          return None;
        }
        SliceOfRest(b, start, 1, 1 + w);
        var n := Reduce(b[i..i + w]);
        i := i + w;
        var minimum := if info == 24 then 24 else if info == 25 then 0x100 else 0x1_0000;
        return if n >= minimum then Some(n) else None;
      } else {
        return None;
      }
    }

    /** Reads one definite-length byte string whose head is in its shortest form. */
    method Bytes() returns (r: Option<seq<Byte>>)
      requires i <= |b|
      modifies this`i
      ensures match r
              case Some(s) => FieldAt(b, old(i), s, i)
              case None => NoFieldAt(b, old(i))
    {
      ghost var start := i;
      var n := Length();
      if n.None? {
        NoShortestHeadNoField(b, start);
        return None;
      }
      if n.value > |b| - i {
        NoRoomNoField(b, start, n.value);
        return None;
      }
      r := Some(b[i..i + n.value]);
      ShortestHeadField(b, start, n.value, i);
      i := i + n.value;
    }
  }

  /** The number a run of big-endian bytes spells. */
  method Reduce(s: seq<Byte>) returns (n: nat)
    ensures n == FromBigEndian(s)
  {
    n := 0;
    for k := 0 to |s|
      invariant n == FromBigEndian(s[..k])
    {
      assert s[..k + 1][..k] == s[..k];
      n := 256 * n + s[k];
    }
    assert s[..|s|] == s;
  }

  lemma NotTheAuthor(b: seq<Byte>, author: Option<seq<Byte>>, i: nat)
    requires if author.Some? then FieldAt(b, 2, author.value, i) && |author.value| != 32 else NoFieldAt(b, 2)
    ensures forall e :: !Encodes(b, e)
  {
    forall e
      ensures !Encodes(b, e)
    {
      if Encodes(b, e) {
        var k, l := EncodeFields(e);
        if author.Some? {
          FieldUnique(b, 2, author.value, i, e.author, k);
        }
      }
    }
  }

  lemma NotTheRest(b: seq<Byte>, author: seq<Byte>, i: nat, body: Option<seq<Byte>>, j: nat,
                   sig: Option<seq<Byte>>, end: nat)
    requires FieldAt(b, 2, author, i)
    requires if body.Some? then FieldAt(b, i, body.value, j) else NoFieldAt(b, i)
    requires body.Some? ==>
               if sig.Some? then FieldAt(b, j, sig.value, end) && (|sig.value| != 64 || end != |b|) else NoFieldAt(b, j)
    ensures forall e :: !Encodes(b, e)
  {
    forall e
      ensures !Encodes(b, e)
    {
      if Encodes(b, e) {
        var k, l := EncodeFields(e);
        FieldUnique(b, 2, author, i, e.author, k);
        if body.Some? {
          FieldUnique(b, i, body.value, j, e.body, l);
          if sig.Some? {
            FieldUnique(b, j, sig.value, end, e.sig, |b|);
          }
        }
      }
    }
  }

  /**
   * The record id of a record file's bytes, or nothing when they are not the shortest-form encoding
   * of an envelope within the size limit.
   */
  method RecordId(hash: Hash, b: seq<Byte>) returns (id: Option<string>)
    ensures id.Some? ==> exists e :: Encodes(b, e) && id.value == Hex(hash(Preimage(e)))
    ensures id.None? ==> forall e :: !Encodes(b, e)
  {
    forall e | Encodes(b, e)
      ensures |b| >= 3 && b[0] == 0x84 && b[1] == 0x01
    {
      var _, _ := EncodeFields(e);
    }
    if !(|b| <= MAX_RECORD_BYTES && |b| >= 3 && b[0] == 0x84 && b[1] == 0x01) {
      return None;
    }
    var cursor := new Cursor(b, 2);
    var author := cursor.Bytes();
    if author.None? || |author.value| != 32 {
      NotTheAuthor(b, author, cursor.i);
      return None;
    }
    ghost var i := cursor.i;
    var body := cursor.Bytes();
    if body.None? {
      NotTheRest(b, author.value, i, body, 0, None, 0);
      return None;
    }
    ghost var j := cursor.i;
    var sig := cursor.Bytes();
    if sig.None? || |sig.value| != 64 || cursor.i != |b| {
      NotTheRest(b, author.value, i, body, j, sig, cursor.i);
      return None;
    }
    FieldsEncode(b, Envelope(author.value, body.value, sig.value), i, j);
    assert Encodes(b, Envelope(author.value, body.value, sig.value));
    id := Some(Hex(hash(RECORD_DOMAIN + [0] + author.value + body.value + sig.value)));
  }

  /** Whether `data` is the record its file name claims to be. */
  method IsValidRecord(hash: Hash, name: string, data: seq<Byte>) returns (valid: bool)
    ensures valid <==> ValidRecord(hash, name, data)
  {
    var id := RecordId(hash, data);
    valid := IsRecordName(name) && id.Some? && id.value + ".ksr" == name;
    forall e, f | Encodes(data, e) && Encodes(data, f)
      ensures e == f
    {
      EncodeInjective(e, f);
    }
    forall e
      ensures IsRecordName(RecordName(hash, e))
    {
      RecordNameIsRecordName(hash, e);
    }
  }
}
