/** Length-prefixed messages over a byte stream: a two-byte big-endian length, a two-byte
    big-endian id, then the payload. */
module Framing {

  newtype byte = x: int | 0 <= x < 256

  const WORD := 65536

  /** Sixteen bits. */
  type word = x: int | 0 <= x < WORD

  datatype Message = Message(id: word, payload: seq<byte>)

  ghost predicate Sendable(m: Message) {
    |m.payload| < WORD
  }

  function High(w: word): byte {
    (w / 256) as byte
  }

  function Low(w: word): byte {
    (w % 256) as byte
  }

  function Word(high: byte, low: byte): word {
    high as int * 256 + low as int
  }

  lemma WordBack(w: word)
    ensures Word(High(w), Low(w)) == w
  {
  }

  lemma BytesBack(high: byte, low: byte)
    ensures High(Word(high, low)) == high && Low(Word(high, low)) == low
  {
  }

  /** The bytes written for a message; the length field keeps only sixteen bits. */
  function FrameOf(m: Message): (bytes: seq<byte>)
    ensures |bytes| == |m.payload| + 4
  {
    var length := |m.payload| % WORD;
    [High(length), Low(length), High(m.id), Low(m.id)] + m.payload
  }

  function Frames(ms: seq<Message>): seq<byte> {
    if ms == [] then [] else FrameOf(ms[0]) + Frames(ms[1..])
  }

  // ---- Writing ----

  method SendMessage(m: Message) returns (out: array<byte>)
    ensures fresh(out) && out[..] == FrameOf(m)
  {
    var byteSize := |m.payload|;
    out := new byte[byteSize + 4](_ => 0);
    var length := byteSize % WORD;
    out[0], out[1] := High(length), Low(length);
    out[2], out[3] := High(m.id), Low(m.id);
    var i := 0;
    while i < byteSize
      invariant 0 <= i <= byteSize
      invariant out[..4 + i] == [High(length), Low(length), High(m.id), Low(m.id)] + m.payload[..i]
    {
      out[4 + i] := m.payload[i];
      i := i + 1;
      assert out[..4 + i] == out[..4 + i - 1] + [m.payload[i - 1]];
      assert m.payload[..i] == m.payload[..i - 1] + [m.payload[i - 1]];
    }
    assert out[..] == out[..4 + i] && m.payload[..i] == m.payload;
  }

  // ---- Reading ----

  function LengthField(buffer: seq<byte>): word
    requires |buffer| >= 4
  {
    Word(buffer[0], buffer[1])
  }

  /** The buffer holds no whole frame. */
  predicate Incomplete(buffer: seq<byte>) {
    |buffer| < 4 || |buffer| < LengthField(buffer) + 4
  }

  function First(buffer: seq<byte>): Message
    requires !Incomplete(buffer)
  {
    Message(Word(buffer[2], buffer[3]), buffer[4..4 + LengthField(buffer)])
  }

  function Rest(buffer: seq<byte>): (rest: seq<byte>)
    requires !Incomplete(buffer)
    ensures |rest| < |buffer|
  {
    buffer[LengthField(buffer) + 4..]
  }

  /** The messages of all whole frames of a stream. */
  function Found(bytes: seq<byte>): seq<Message>
    decreases |bytes|
  {
    if Incomplete(bytes) then [] else [First(bytes)] + Found(Rest(bytes))
  }

  /** What is left after them. */
  function Left(bytes: seq<byte>): seq<byte>
    decreases |bytes|
  {
    if Incomplete(bytes) then bytes else Left(Rest(bytes))
  }

  lemma FirstIsFramed(bytes: seq<byte>)
    requires !Incomplete(bytes)
    ensures Sendable(First(bytes)) && bytes == FrameOf(First(bytes)) + Rest(bytes)
  {
    hide High, Low, Word;
    var n := LengthField(bytes);
    BytesBack(bytes[0], bytes[1]);
    BytesBack(bytes[2], bytes[3]);
    assert n % WORD == n;
    assert bytes[..4] == [High(n), Low(n), bytes[2], bytes[3]];
    assert bytes == bytes[..4] + bytes[4..4 + n] + bytes[4 + n..];
  }

  lemma MoreBytes(a: seq<byte>, b: seq<byte>)
    requires !Incomplete(a)
    ensures !Incomplete(a + b) && First(a + b) == First(a) && Rest(a + b) == Rest(a) + b
  {
    var n := LengthField(a);
    assert (a + b)[4..4 + n] == a[4..4 + n];
    assert (a + b)[n + 4..] == a[n + 4..] + b;
  }

  /** Where a stream is cut does not matter. */
  lemma {:induction false} ParseInPieces(a: seq<byte>, b: seq<byte>)
    ensures Found(a + b) == Found(a) + Found(Left(a) + b)
    ensures Left(a + b) == Left(Left(a) + b)
    decreases |a|
  {
    hide Incomplete, First, Rest;
    if !Incomplete(a) {
      MoreBytes(a, b);
      ParseInPieces(Rest(a), b);
    }
  }

  lemma {:induction false} LeftIsIncomplete(bytes: seq<byte>)
    ensures Incomplete(Left(bytes))
    decreases |bytes|
  {
    hide Incomplete, First, Rest;
    if !Incomplete(bytes) { LeftIsIncomplete(Rest(bytes)); }
  }

  /** Nothing is lost and nothing invented: the messages found, framed again, and the bytes left
      are the stream. */
  lemma {:induction false} ParseConserves(bytes: seq<byte>)
    ensures bytes == Frames(Found(bytes)) + Left(bytes)
    ensures forall m :: m in Found(bytes) ==> Sendable(m)
    decreases |bytes|
  {
    hide Incomplete, First, Rest, FrameOf;
    if !Incomplete(bytes) {
      FirstIsFramed(bytes);
      ParseConserves(Rest(bytes));
      var ms := [First(bytes)] + Found(Rest(bytes));
      assert ms[1..] == Found(Rest(bytes));
      assert Frames(ms) == FrameOf(First(bytes)) + Frames(Found(Rest(bytes)));
    }
  }

  /** One frame is read back whole exactly when its payload is short enough for the length field. */
  lemma FrameBack(m: Message, after: seq<byte>)
    ensures |m.payload| < WORD <==>
            !Incomplete(FrameOf(m) + after) && First(FrameOf(m) + after) == m && Rest(FrameOf(m) + after) == after
  {
    hide High, Low, Word;
    var bytes := FrameOf(m) + after;
    WordBack(|m.payload| % WORD);
    WordBack(m.id);
    assert LengthField(bytes) == |m.payload| % WORD;
    if |m.payload| < WORD {
      assert |m.payload| % WORD == |m.payload|;
      assert bytes[4..4 + |m.payload|] == m.payload;
      assert bytes[4 + |m.payload|..] == after;
    }
  }

  /** Frames one after another are read back in order, with nothing left. */
  lemma {:induction false} FramesBack(ms: seq<Message>)
    requires forall m :: m in ms ==> Sendable(m)
    ensures Found(Frames(ms)) == ms && Left(Frames(ms)) == []
    decreases |ms|
  {
    hide Incomplete, First, Rest, FrameOf;
    if ms == [] {
      NothingFound();
    } else {
      assert Sendable(ms[0]);
      FrameBack(ms[0], Frames(ms[1..]));
      FramesBack(ms[1..]);
      assert ms == [ms[0]] + ms[1..];
    }
  }

  lemma NothingFound()
    ensures Incomplete([])
  {
  }

  class Reader {
    var buffer: seq<byte>
    var dispatched: seq<Message>
    ghost var received: seq<byte>

    /** The bytes received so far are the frames of the messages dispatched and an incomplete frame. */
    ghost predicate Valid()
      reads this
    {
      Found(received) == dispatched && Left(received) == buffer
    }

    constructor ()
      ensures Valid() && received == [] && dispatched == [] && buffer == []
    {
      buffer, dispatched, received := [], [], [];
    }

    /** A new connection starts with an empty buffer. */
    method Reset()
      modifies this
      ensures Valid() && received == [] && dispatched == []
    {
      buffer, dispatched, received := [], [], [];
    }

    method ReadSocket(chunk: seq<byte>)
      requires Valid()
      modifies this
      ensures Valid() && received == old(received) + chunk && old(dispatched) <= dispatched && Incomplete(buffer)
    {
      hide Word, Found, Left;
      ghost var bytes := buffer + chunk;
      ParseInPieces(received, chunk);
      LeftIsIncomplete(bytes);
      buffer := buffer + chunk;
      received := received + chunk;
      while |buffer| >= 4
        invariant received == old(received) + chunk && old(dispatched) <= dispatched
        invariant Found(received) == dispatched + Found(buffer) && Left(received) == Left(buffer)
        decreases |buffer|
      {
        var length: int := Word(buffer[0], buffer[1]);
        if |buffer| < length + 4 {
          NoFrame(buffer);
          return;
        }
        var messageId := Word(buffer[2], buffer[3]);
        NextFrame(buffer, dispatched);
        dispatched := dispatched + [Message(messageId, buffer[4..4 + length])];
        buffer := buffer[length + 4..];
      }
      NoFrame(buffer);
    }
  }

  lemma NoFrame(buffer: seq<byte>)
    ensures Incomplete(buffer) ==> Found(buffer) == [] && Left(buffer) == buffer
  {
  }

  /** Taking the first frame off the buffer. */
  lemma NextFrame(buffer: seq<byte>, before: seq<Message>)
    requires !Incomplete(buffer)
    ensures before + Found(buffer) == before + [First(buffer)] + Found(Rest(buffer))
    ensures Left(buffer) == Left(Rest(buffer))
  {
    hide Incomplete, First, Rest;
    assert before + ([First(buffer)] + Found(Rest(buffer))) == before + [First(buffer)] + Found(Rest(buffer));
  }

  function Joined(chunks: seq<seq<byte>>): seq<byte> {
    if chunks == [] then [] else Joined(chunks[..|chunks| - 1]) + chunks[|chunks| - 1]
  }

  lemma JoinedStep(chunks: seq<seq<byte>>, k: nat)
    requires k < |chunks|
    ensures Joined(chunks[..k + 1]) == Joined(chunks[..k]) + chunks[k]
  {
    assert chunks[..k + 1][..k] == chunks[..k];
  }

  /** However the frames of some messages are cut into chunks, exactly those messages are
      dispatched, in order, and the buffer ends empty. */
  method ReadAll(reader: Reader, chunks: seq<seq<byte>>, ghost ms: seq<Message>)
    requires reader.Valid() && reader.received == []
    requires Joined(chunks) == Frames(ms) && forall m :: m in ms ==> Sendable(m)
    modifies reader
    ensures reader.dispatched == ms && reader.buffer == []
  {
    var k := 0;
    while k < |chunks|
      invariant 0 <= k <= |chunks| && reader.Valid() && reader.received == Joined(chunks[..k])
    {
      JoinedStep(chunks, k);
      reader.ReadSocket(chunks[k]);
      k := k + 1;
    }
    assert chunks[..k] == chunks;
    FramesBack(ms);
  }
}
