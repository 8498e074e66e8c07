/** Length-prefixed frames over a socket that moves bytes a few at a time
  * (apps/macos/KagisecureSafariExtension/AppGroupSocket.swift:53-241). */
module Framing {
  import opened Basics
  import opened Endian

  const MAX_FRAME: int := 256 * 1024

  datatype Result<+T> = Ok(value: T) | TooLarge | Closed | Failed | Malformed

  /** What one call of `read` or `write` does: move at most so many bytes, stop at a signal, or fail. */
  datatype Turn = Moves(most: nat) | Interrupted | Fails

  predicate NeverFails(turns: seq<Turn>) {
    forall i | 0 <= i < |turns| :: turns[i].Interrupted? || (turns[i].Moves? && turns[i].most > 0)
  }

  function Least(a: nat, b: nat): nat {
    if a < b then a else b
  }

  // ----- frames -----

  /** A body with its length in four bytes before it, most significant first. */
  function Frame(body: seq<Byte>): seq<Byte> {
    BigEndian(|body|, 4) + body
  }

  function Frames(bodies: seq<seq<Byte>>): seq<Byte> {
    if bodies == [] then [] else Frame(bodies[0]) + Frames(bodies[1..])
  }

  /** What a reader makes of a stream, and what it leaves of it. */
  function Taken(stream: seq<Byte>): (r: (Result<seq<Byte>>, seq<Byte>)) {
    if |stream| < 4 then (Closed, [])
    else
      var length := FromBigEndian(stream[..4]);
      if length > MAX_FRAME then (TooLarge, stream[4..])
      else if |stream| < 4 + length then (Closed, [])
      else (Ok(stream[4..4 + length]), stream[4 + length..])
  }

  lemma PowersOf256()
    ensures Pow256(4) == 0x1_0000_0000
  {
    assert Pow256(1) == 256 && Pow256(2) == 0x1_0000 && Pow256(3) == 0x100_0000;
  }

  lemma FrameIsTaken(body: seq<Byte>, rest: seq<Byte>)
    requires |body| <= MAX_FRAME
    ensures Taken(Frame(body) + rest) == (Ok(body), rest)
  {
    PowersOf256();
    FromBigEndianInverts(|body|, 4);
    var stream := Frame(body) + rest;
    assert stream[..4] == BigEndian(|body|, 4);
    assert stream[4..4 + |body|] == body && stream[4 + |body|..] == rest;
  }

  lemma TakenIsFrame(stream: seq<Byte>)
    requires Taken(stream).0.Ok?
    ensures stream == Frame(Taken(stream).0.value) + Taken(stream).1
  {
    BigEndianInverts(stream[..4]);
    var length := FromBigEndian(stream[..4]);
    assert stream == stream[..4] + stream[4..4 + length] + stream[4 + length..];
  }

  /** A frame is read as its body, whatever follows it; and only a frame is read as a body. */
  lemma TakenExactly(stream: seq<Byte>, body: seq<Byte>, rest: seq<Byte>)
    requires |body| <= MAX_FRAME
    ensures stream == Frame(body) + rest <==> Taken(stream) == (Ok(body), rest)
  {
    FrameIsTaken(body, rest);
    if Taken(stream).0.Ok? {
      TakenIsFrame(stream);
    }
  }

  /** Nothing is read as a body from a stream that ends too early, or announces more than a frame may hold. */
  lemma TakenOtherwise(stream: seq<Byte>)
    ensures Taken(stream).0.Ok? || Taken(stream).0.TooLarge? || Taken(stream).0.Closed?
    ensures Taken(stream).0.TooLarge? <==> |stream| >= 4 && FromBigEndian(stream[..4]) > 262_144
    ensures Taken(stream).0.Closed?
        <==> |stream| < 4 || |stream| < 4 + FromBigEndian(stream[..4]) <= 4 + 262_144
  {
  }

  lemma TakenInTwo(stream: seq<Byte>)
    requires |stream| >= 4
    ensures var length, rest := FromBigEndian(stream[..4]), stream[4..];
            length <= MAX_FRAME ==>
              Taken(stream) == if |rest| < length then (Closed, []) else (Ok(rest[..length]), rest[length..])
  {
    var length, rest := FromBigEndian(stream[..4]), stream[4..];
    if length <= |rest| {
      assert rest[..length] == stream[4..4 + length] && rest[length..] == stream[4 + length..];
    }
  }

  /** `n` frames read one after the other. */
  function TakenFrames(stream: seq<Byte>, n: nat): Option<seq<seq<Byte>>> {
    if n == 0 then Some([])
    else match Taken(stream)
      case (Ok(body), rest) =>
        (match TakenFrames(rest, n - 1)
         case Some(more) => Some([body] + more)
         case None => None)
      case _ => None
  }

  /** Every sequence of bodies is recovered from its frames, in order. */
  lemma {:induction false} FramesReadBack(bodies: seq<seq<Byte>>, rest: seq<Byte>)
    requires forall i | 0 <= i < |bodies| :: |bodies[i]| <= MAX_FRAME
    ensures TakenFrames(Frames(bodies) + rest, |bodies|) == Some(bodies)
  {
    if bodies != [] {
      Associative(Frame(bodies[0]), Frames(bodies[1..]), rest);
      FrameIsTaken(bodies[0], Frames(bodies[1..]) + rest);
      FramesReadBack(bodies[1..], rest);
      assert bodies == [bodies[0]] + bodies[1..];
    }
  }

  /** `now` is `before` and a part of `data` that is not all of it. */
  predicate SentInPart(before: seq<Byte>, data: seq<Byte>, now: seq<Byte>) {
    |before| <= |now| < |before| + |data| && now == before + data[..|now| - |before|]
  }

  // ----- an exchange -----

  /** What is asked of the JSON the frames carry: whether a body is an object, whether a request says hello, the body of
    * a reply, and whether that is an error. */
  datatype Json = Json(
    isObject: seq<Byte> -> bool,
    isHello: seq<Byte> -> bool,
    body: seq<Byte> -> Option<seq<Byte>>,
    isError: seq<Byte> -> bool)

  /** The body of the first reply of the stream. */
  function Reply(stream: seq<Byte>, json: Json): Result<seq<Byte>> {
    match Taken(stream).0
    case Ok(reply) =>
      if !json.isObject(reply) then Malformed
      else (match json.body(reply) case Some(b) => Ok(b) case None => Malformed)
    case other => other
  }

  predicate Fits(envelope: seq<Byte>, hello: Option<seq<Byte>>) {
    |envelope| <= MAX_FRAME && (hello.Some? ==> |hello.value| <= MAX_FRAME)
  }

  /** A reply is a frame of an object that has a body. */
  lemma ReplyExactly(stream: seq<Byte>, json: Json, b: seq<Byte>)
    ensures Reply(stream, json) == Ok(b)
        <==> exists reply, rest :: |reply| <= MAX_FRAME && stream == Frame(reply) + rest
                                    && json.isObject(reply) && json.body(reply) == Some(b)
  {
    if Reply(stream, json) == Ok(b) {
      TakenIsFrame(stream);
    }
    if reply, rest :| |reply| <= MAX_FRAME && stream == Frame(reply) + rest
                       && json.isObject(reply) && json.body(reply) == Some(b)
    {
      FrameIsTaken(reply, rest);
    }
  }

  // ----- the socket -----

  /** A connected socket: what the peer has written or will write before it closes, what it was sent, and what the
    * coming system calls do. After the last of the turns every call moves all it is asked to. */
  class Socket {
    var incoming: seq<Byte>
    var sent: seq<Byte>
    var reading: seq<Turn>
    var writing: seq<Turn>

    constructor (incoming: seq<Byte>, reading: seq<Turn>, writing: seq<Turn>)
      ensures this.incoming == incoming && this.reading == reading && this.writing == writing && sent == []
    {
      this.incoming, this.reading, this.writing, sent := incoming, reading, writing, [];
    }

    /** One call of `read`: a positive count, 0 at the end of the stream, or -1 with whether it was a signal. */
    method Read(buffer: array<Byte>, offset: nat, count: nat) returns (got: int, interrupted: bool)
      requires 0 < count && offset + count <= buffer.Length
      modifies `incoming, `reading, buffer
      ensures -1 <= got <= count && got <= |old(incoming)|
      ensures got > 0 ==> incoming == old(incoming)[got..] && buffer[offset..offset + got] == old(incoming)[..got]
      ensures got <= 0 ==> incoming == old(incoming)
      ensures buffer[..offset] == old(buffer[..offset])
      ensures |reading| <= |old(reading)| && (got == -1 ==> |reading| < |old(reading)|)
      ensures NeverFails(old(reading)) ==>
                NeverFails(reading) && (got == 0 ==> incoming == []) && (got == -1 ==> interrupted)
    {
      var turn := if reading == [] then Moves(count) else reading[0];
      reading := if reading == [] then [] else reading[1..];
      match turn {
        case Interrupted => return -1, true;
        case Fails => return -1, false;
        case Moves(most) =>
          var n := Least(most, Least(count, |incoming|));
          forall i | 0 <= i < n {
            buffer[offset + i] := incoming[i];
          }
          incoming := incoming[n..];
          return n, false;
      }
    }

    /** One call of `write`. */
    method Write(data: seq<Byte>, offset: nat) returns (written: int, interrupted: bool)
      requires offset < |data|
      modifies `sent, `writing
      ensures -1 <= written <= |data| - offset
      ensures written > 0 ==> sent == old(sent) + data[offset..offset + written]
      ensures written <= 0 ==> sent == old(sent)
      ensures |writing| <= |old(writing)| && (written == -1 ==> |writing| < |old(writing)|)
      ensures NeverFails(old(writing)) ==> NeverFails(writing) && written != 0 && (written == -1 ==> interrupted)
    {
      var turn := if writing == [] then Moves(|data| - offset) else writing[0];
      writing := if writing == [] then [] else writing[1..];
      match turn {
        case Interrupted => return -1, true;
        case Fails => return -1, false;
        case Moves(most) =>
          var n := Least(most, |data| - offset);
          sent := sent + data[offset..offset + n];
          return n, false;
      }
    }

    /** Reads `count` bytes, however they arrive. */
    method ReadExactly(count: nat) returns (r: Result<seq<Byte>>)
      modifies `incoming, `reading
      ensures r.Ok? || r.Closed? || r.Failed?
      ensures r.Ok? ==>
                count <= |old(incoming)| && r.value == old(incoming)[..count] && incoming == old(incoming)[count..]
      ensures NeverFails(old(reading)) ==> NeverFails(reading) && (r.Ok? <==> count <= |old(incoming)|) && !r.Failed?
      ensures NeverFails(old(reading)) && r.Closed? ==> incoming == []
    {
      if count == 0 {
        return Ok([]);
      }
      var buffer := new Byte[count](_ => 0);
      var offset := 0;
      while offset < count
        invariant offset <= count && offset <= |old(incoming)|
        invariant buffer[..offset] == old(incoming)[..offset] && incoming == old(incoming)[offset..]
        invariant NeverFails(old(reading)) ==> NeverFails(reading)
        decreases count - offset, |reading|
      {
        var got, interrupted := Read(buffer, offset, count - offset);
        if got > 0 {
          assert buffer[..offset + got] == buffer[..offset] + buffer[offset..offset + got];
          assert old(incoming)[..offset + got] == old(incoming)[..offset] + old(incoming)[offset..][..got];
          offset := offset + got;
          continue;
        }
        if got == 0 {
          return Closed;
        }
        if interrupted {
          continue;
        }
        return Failed;
      }
      r := Ok(buffer[..]);
    }

    /** Writes all of `data`, however it leaves; when it fails, the peer has been sent a part of it. */
    method WriteAll(data: seq<Byte>) returns (r: Result<()>)
      modifies `sent, `writing
      ensures r.Ok? || r.Failed?
      ensures r.Ok? ==> sent == old(sent) + data
      ensures r.Failed? ==> SentInPart(old(sent), data, sent)
      ensures NeverFails(old(writing)) ==> r.Ok? && NeverFails(writing)
    {
      var offset := 0;
      while offset < |data|
        invariant offset <= |data| && sent == old(sent) + data[..offset]
        invariant NeverFails(old(writing)) ==> NeverFails(writing)
        decreases |data| - offset, |writing|
      {
        var written, interrupted := Write(data, offset);
        if written > 0 {
          assert data[..offset + written] == data[..offset] + data[offset..offset + written];
          offset := offset + written;
          continue;
        }
        if written < 0 && interrupted {
          continue;
        }
        return Failed;
      }
      assert data[..offset] == data;
      r := Ok(());
    }

    method WriteFrame(body: seq<Byte>) returns (r: Result<()>)
      modifies `sent, `writing
      ensures r.Ok? || r.Failed? || r.TooLarge?
      ensures r.TooLarge? <==> |body| > MAX_FRAME
      ensures r.TooLarge? ==> sent == old(sent) && writing == old(writing)
      ensures r.Ok? ==> sent == old(sent) + Frame(body)
      ensures r.Failed? ==> SentInPart(old(sent), Frame(body), sent)
      ensures NeverFails(old(writing)) ==> !r.Failed? && NeverFails(writing)
    {
      if |body| > MAX_FRAME {
        return TooLarge;
      }
      var frame := BigEndian(|body|, 4);
      frame := frame + body;
      r := WriteAll(frame);
    }

    /** Reads one frame; `isObject` says whether a body is a JSON object. Whatever the fragmentation, the result and
      * the rest of the stream are those of `Taken`. */
    method ReadFrame(isObject: seq<Byte> -> bool) returns (r: Result<seq<Byte>>)
      modifies `incoming, `reading
      ensures NeverFails(old(reading)) ==>
                NeverFails(reading) && incoming == Taken(old(incoming)).1
                && r == match Taken(old(incoming)).0
                        case Ok(body) => if isObject(body) then Ok(body) else Malformed
                        case other => other
      ensures r.Ok? || r.Malformed? ==> Taken(old(incoming)).0.Ok? && incoming == Taken(old(incoming)).1
      ensures r.Ok? ==> Taken(old(incoming)).0 == r && isObject(r.value)
      ensures r.Malformed? ==> !isObject(Taken(old(incoming)).0.value)
    {
      var prefix := ReadExactly(4);
      if !prefix.Ok? {
        return prefix;
      }
      var length := FromBigEndian(prefix.value);
      if length > MAX_FRAME {
        return TooLarge;
      }
      var body := ReadExactly(length);
      TakenInTwo(old(incoming));
      if !body.Ok? {
        return body;
      }
      r := if isObject(body.value) then body else Malformed;
    }

    /** Reads one reply and gives its body. */
    method ReadReply(json: Json) returns (r: Result<seq<Byte>>)
      modifies `incoming, `reading
      ensures r.Ok? ==> Reply(old(incoming), json) == r && incoming == Taken(old(incoming)).1
      ensures NeverFails(old(reading)) ==>
                NeverFails(reading) && r == Reply(old(incoming), json) && incoming == Taken(old(incoming)).1
    {
      r := ReadFrame(json.isObject);
      if r.Ok? {
        match json.body(r.value) {
          case Some(b) => r := Ok(b);
          case None => r := Malformed;
        }
      }
    }

    /** Sends one request and reads its reply, saying hello on the way in. A refused greeting is the reply, and then the
      * request never leaves. */
    method Exchange(envelope: seq<Byte>, hello: Option<seq<Byte>>, json: Json) returns (r: Result<seq<Byte>>)
      modifies `incoming, `sent, `reading, `writing
      ensures var greets, welcome := hello.Some? && !json.isHello(envelope), Reply(old(incoming), json);
              greets && (!welcome.Ok? || json.isError(welcome.value)) ==>
                sent == old(sent) || SentInPart(old(sent), Frame(hello.value), sent)
                || sent == old(sent) + Frame(hello.value)
      ensures r.Ok? && (hello.None? || json.isHello(envelope)) ==>
                sent == old(sent) + Frame(envelope) && r == Reply(old(incoming), json)
      ensures r.Ok? && hello.Some? && !json.isHello(envelope) ==>
                var welcome := Reply(old(incoming), json);
                if welcome.Ok? && !json.isError(welcome.value)
                then sent == old(sent) + Frame(hello.value) + Frame(envelope)
                     && r == Reply(Taken(old(incoming)).1, json)
                else sent == old(sent) + Frame(hello.value) && r == welcome
      ensures NeverFails(old(reading)) && NeverFails(old(writing)) && Fits(envelope, hello) ==>
                var welcome := Reply(old(incoming), json);
                r == if hello.Some? && !json.isHello(envelope) && welcome.Ok? && !json.isError(welcome.value)
                     then Reply(Taken(old(incoming)).1, json) else welcome
    {
      if hello.Some? && !json.isHello(envelope) {
        var greeted := WriteFrame(hello.value);
        if !greeted.Ok? {
          return if greeted.TooLarge? then TooLarge else Failed;
        }
        var welcome := ReadReply(json);
        if !welcome.Ok? || json.isError(welcome.value) {
          return welcome;
        }
      }
      var asked := WriteFrame(envelope);
      if !asked.Ok? {
        return if asked.TooLarge? then TooLarge else Failed;
      }
      r := ReadReply(json);
    }
  }

  lemma {:induction false} FramesGrow(bodies: seq<seq<Byte>>, body: seq<Byte>)
    ensures Frames(bodies + [body]) == Frames(bodies) + Frame(body)
  {
    if bodies == [] {
      assert Frames([body]) == Frame(body) + Frames([]);
    } else {
      FramesGrow(bodies[1..], body);
      assert (bodies + [body])[1..] == bodies[1..] + [body];
    }
  }

  /** Bodies written one by one on one end and read one by one on the other arrive as they are and in order, however
    * either end's calls cut them up. */
  method Transfer(bodies: seq<seq<Byte>>, writing: seq<Turn>, reading: seq<Turn>, isObject: seq<Byte> -> bool)
    returns (received: seq<seq<Byte>>)
    requires NeverFails(writing) && NeverFails(reading)
    requires forall i | 0 <= i < |bodies| :: |bodies[i]| <= MAX_FRAME && isObject(bodies[i])
    ensures received == bodies
  {
    var here := new Socket([], [], writing);
    for i := 0 to |bodies|
      invariant here.sent == Frames(bodies[..i]) && NeverFails(here.writing)
    {
      var _ := here.WriteFrame(bodies[i]);
      FramesGrow(bodies[..i], bodies[i]);
      assert bodies[..i + 1] == bodies[..i] + [bodies[i]];
    }
    assert bodies[..|bodies|] == bodies;
    var there := new Socket(here.sent, reading, []);
    received := [];
    for i := 0 to |bodies|
      invariant received == bodies[..i] && there.incoming == Frames(bodies[i..]) && NeverFails(there.reading)
    {
      assert bodies[i..][1..] == bodies[i + 1..];
      FrameIsTaken(bodies[i], Frames(bodies[i + 1..]));
      var r := there.ReadFrame(isObject);
      received := received + [r.value];
    }
  }
}
