/** The stream of frames of lib/tcptransport.cc: however the byte stream is cut into chunks,
    the receiver gets exactly the messages that were sent. */
module TcpFraming {
  import opened ReplicaLog
  import opened Bytes

  const MAGIC: nat := 0x06121983

  /** The assertion on the size of a received frame. */
  const FRAME_LIMIT: nat := 1073741826

  function Total(m: Message): nat {
    |m.kind| + |m.data| + 28
  }

  function Frame(m: Message): (s: seq<byte>)
    ensures |s| == Total(m)
  {
    Word(MAGIC, 4) + Size(Total(m)) + Body(m)
  }

  function Stream(ms: seq<Message>): seq<byte> {
    if ms == [] then [] else Frame(ms[0]) + Stream(ms[1..])
  }

  /** What may be sent: a frame whose size a word can hold; where assertions are compiled in, with
      some data and below the limit. */
  ghost predicate Sendable(m: Message, strict: bool) {
    Total(m) < MAX_SIZE && (strict ==> m.data != [] && Total(m) < FRAME_LIMIT)
  }

  // ----- The receiver -----

  /** One turn of the loop of TCPReadableCallback: wait for more bytes, take a message off the
      buffer, or fail: fail an assertion, if `strict`, or else read behind the frame.  The
      repository's Makefile compiles assertions out. */
  datatype Turn = Wait | Take(m: Message, size: nat) | Fail

  function Look(buffer: seq<byte>, strict: bool): Turn {
    if strict && |buffer| >= 4 && Unword(buffer[..4]) != MAGIC then Fail
    else if |buffer| < 12 then Wait
    else
      var total := Unword(buffer[4..12]);
      if strict && total >= FRAME_LIMIT then Fail
      else if |buffer| < total then Wait
      else if total < 12 then Fail
      else
        var m := DecodeBody(buffer[12..total], strict);
        if m.None? then Fail else Take(m.value, total)
  }

  lemma LookTakes(buffer: seq<byte>, strict: bool)
    requires Look(buffer, strict).Take?
    ensures 12 <= Look(buffer, strict).size <= |buffer|
  {
  }

  /** All turns: the messages delivered, what stays in the buffer, and whether nothing failed. */
  function Drain(buffer: seq<byte>, strict: bool): (seq<Message>, seq<byte>, bool)
    decreases |buffer|
  {
    match Look(buffer, strict)
    case Wait => ([], buffer, true)
    case Fail => ([], buffer, false)
    case Take(m, size) =>
      LookTakes(buffer, strict);
      var (ms, rest, ok) := Drain(buffer[size..], strict);
      ([m] + ms, rest, ok)
  }

  /** A connection's input buffer. */
  class Receiver {
    const strict: bool
    var buffer: seq<byte>

    constructor (strict: bool)
      ensures buffer == [] && this.strict == strict
    {
      this.strict := strict;
      buffer := [];
    }

    /** Bytes arrive, and TCPReadableCallback runs. */
    method Readable(chunk: seq<byte>) returns (delivered: seq<Message>, ok: bool)
      modifies this`buffer
      ensures delivered == Drain(old(buffer) + chunk, strict).0
      ensures buffer == Drain(old(buffer) + chunk, strict).1
      ensures ok == Drain(old(buffer) + chunk, strict).2
    {
      buffer := buffer + chunk;
      delivered, ok := [], true;
      ghost var all := Drain(buffer, strict);
      while |buffer| > 0
        invariant ok && all.0 == delivered + Drain(buffer, strict).0
        invariant all.1 == Drain(buffer, strict).1 && all.2 == Drain(buffer, strict).2
        decreases |buffer|
      {
        match Look(buffer, strict)
        case Wait =>
          return;
        case Fail =>
          ok := false;
          return;
        case Take(m, size) =>
          LookTakes(buffer, strict);
          ghost var rest := Drain(buffer[size..], strict);
          assert delivered + ([m] + rest.0) == (delivered + [m]) + rest.0;
          delivered := delivered + [m];
          buffer := buffer[size..];
      }
    }
  }

  // ----- The sender -----

  /** Writes `bytes` into the buffer at `ptr`. */
  method Write(buf: array<byte>, ptr: nat, bytes: seq<byte>) returns (next: nat)
    requires ptr + |bytes| <= buf.Length
    modifies buf
    ensures next == ptr + |bytes|
    ensures buf[..next] == old(buf[..ptr]) + bytes
  {
    var i := 0;
    while i < |bytes|
      invariant 0 <= i <= |bytes|
      invariant buf[..ptr + i] == old(buf[..ptr]) + bytes[..i]
    {
      buf[ptr + i] := bytes[i];
      i := i + 1;
    }
    next := ptr + |bytes|;
    assert bytes[..i] == bytes;
  }

  /** The frame, written field by field. */
  method BuildFrame(m: Message) returns (buf: array<byte>)
    ensures fresh(buf) && buf[..] == Frame(m)
  {
    var total := |m.kind| + 8 + |m.data| + 8 + 8 + 4;
    FrameFields(m);
    hide Frame;
    buf := new byte[total](_ => 0);
    var ptr := Write(buf, 0, Word(MAGIC, 4));
    ptr := Write(buf, ptr, Size(total));
    ptr := Write(buf, ptr, Size(|m.kind|));
    ptr := Write(buf, ptr, m.kind);
    ptr := Write(buf, ptr, Size(|m.data|));
    ptr := Write(buf, ptr, m.data);
    assert buf[..] == buf[..ptr];
  }

  lemma FrameFields(m: Message)
    ensures Frame(m) == [] + Word(MAGIC, 4) + Size(Total(m)) + Size(|m.kind|) + m.kind + Size(|m.data|) + m.data
  {
  }

  // ----- Chunks -----

  /** Further bytes change nothing about what a turn has already decided. */
  lemma LookMore(a: seq<byte>, b: seq<byte>, strict: bool)
    requires !Look(a, strict).Wait?
    ensures Look(a + b, strict) == Look(a, strict)
  {
    assert (a + b)[..4] == a[..4];
    if |a| >= 12 {
      assert (a + b)[4..12] == a[4..12];
      var total := Unword(a[4..12]);
      if 12 <= total <= |a| {
        assert (a + b)[12..total] == a[12..total];
      }
    }
  }

  /** Chunk independence: for any bytes at all, taking them in two parts delivers the same
      messages and leaves the same buffer as taking them at once. */
  lemma {:induction false} DrainInParts(a: seq<byte>, b: seq<byte>, strict: bool)
    requires Drain(a, strict).2
    ensures Drain(a + b, strict).0 == Drain(a, strict).0 + Drain(Drain(a, strict).1 + b, strict).0
    ensures Drain(a + b, strict).1 == Drain(Drain(a, strict).1 + b, strict).1
    ensures Drain(a + b, strict).2 == Drain(Drain(a, strict).1 + b, strict).2
    decreases |a|
  {
    hide *;
    if Look(a, strict).Wait? {
      DrainWaits(a, strict);
      assert [] + Drain(a + b, strict).0 == Drain(a + b, strict).0;
    } else {
      TakesAnyway(a, b, strict);
      var m, size := Look(a, strict).m, Look(a, strict).size;
      DrainTakes(a, strict);
      DrainTakes(a + b, strict);
      DrainInParts(a[size..], b, strict);
      var ms, more := Drain(a[size..], strict).0, Drain(Drain(a[size..], strict).1 + b, strict).0;
      assert [m] + (ms + more) == ([m] + ms) + more;
    }
  }

  lemma DrainWaits(a: seq<byte>, strict: bool)
    requires Look(a, strict).Wait?
    ensures Drain(a, strict) == ([], a, true)
  {
  }

  lemma TakesAnyway(a: seq<byte>, b: seq<byte>, strict: bool)
    requires Drain(a, strict).2 && !Look(a, strict).Wait?
    ensures Look(a, strict).Take? && 0 < Look(a, strict).size <= |a| && Look(a + b, strict) == Look(a, strict)
    ensures (a + b)[Look(a, strict).size..] == a[Look(a, strict).size..] + b
    ensures Drain(a[Look(a, strict).size..], strict).2
  {
    DrainDoesNotFail(a, strict);
    hide *;
    LookTakes(a, strict);
    LookMore(a, b, strict);
    DropConcat(a, b, Look(a, strict).size);
  }

  lemma DropConcat(a: seq<byte>, b: seq<byte>, n: nat)
    requires n <= |a|
    ensures (a + b)[n..] == a[n..] + b
  {
  }

  lemma DrainDoesNotFail(a: seq<byte>, strict: bool)
    requires Drain(a, strict).2 && !Look(a, strict).Wait?
    ensures Look(a, strict).Take? && Look(a, strict).size <= |a| && Drain(a[Look(a, strict).size..], strict).2
  {
    hide Look;
    assert Look(a, strict).Take?;
    LookTakes(a, strict);
  }

  lemma DrainTakes(a: seq<byte>, strict: bool)
    requires Look(a, strict).Take?
    ensures Look(a, strict).size <= |a|
    ensures Drain(a, strict).0 == [Look(a, strict).m] + Drain(a[Look(a, strict).size..], strict).0
    ensures Drain(a, strict).1 == Drain(a[Look(a, strict).size..], strict).1
    ensures Drain(a, strict).2 == Drain(a[Look(a, strict).size..], strict).2
  {
    LookTakes(a, strict);
  }

  /** Chunk after chunk, as the receiver takes them. */
  function Feed(buffer: seq<byte>, chunks: seq<seq<byte>>, strict: bool): (seq<Message>, seq<byte>, bool)
    decreases |chunks|
  {
    if chunks == [] then ([], buffer, true)
    else
      var (ms, rest, ok) := Drain(buffer + chunks[0], strict);
      if !ok then (ms, rest, false)
      else
        var (more, left, fine) := Feed(rest, chunks[1..], strict);
        (ms + more, left, fine)
  }

  function Join(chunks: seq<seq<byte>>): seq<byte> {
    if chunks == [] then [] else chunks[0] + Join(chunks[1..])
  }

  /** A drained buffer has nothing left to take. */
  lemma {:induction false} DrainedWaits(buffer: seq<byte>, strict: bool)
    ensures var (ms, rest, ok) := Drain(buffer, strict); ok ==> Look(rest, strict).Wait?
    decreases |buffer|
  {
    if Look(buffer, strict).Take? {
      LookTakes(buffer, strict);
      DrainedWaits(buffer[Look(buffer, strict).size..], strict);
    }
  }

  lemma {:induction false} FeedIsDrain(buffer: seq<byte>, chunks: seq<seq<byte>>, strict: bool)
    requires Look(buffer, strict).Wait? && Drain(buffer + Join(chunks), strict).2
    ensures Feed(buffer, chunks, strict) == Drain(buffer + Join(chunks), strict)
    decreases |chunks|
  {
    if chunks == [] {
      assert buffer + [] == buffer;
    } else {
      var a, b := buffer + chunks[0], Join(chunks[1..]);
      assert buffer + Join(chunks) == a + b;
      GoodSoFar(a, b, strict);
      DrainInParts(a, b, strict);
      DrainedWaits(a, strict);
      FeedIsDrain(Drain(a, strict).1, chunks[1..], strict);
    }
  }

  /** If the whole passes its assertions, so does every beginning. */
  lemma {:induction false} GoodSoFar(a: seq<byte>, b: seq<byte>, strict: bool)
    requires Drain(a + b, strict).2
    ensures Drain(a, strict).2
    decreases |a|
  {
    if !Look(a, strict).Wait? {
      LookMore(a, b, strict);
      if Look(a, strict).Take? {
        LookTakes(a, strict);
        var size := Look(a, strict).size;
        assert (a + b)[size..] == a[size..] + b;
        GoodSoFar(a[size..], b, strict);
      }
    }
  }

  // ----- Frames -----

  lemma UnwordMagic()
    ensures Unword(Word(MAGIC, 4)) == MAGIC
  {
    assert Power(4) == 0x1_0000_0000 by {
      assert Power(1) == 0x100 && Power(2) == 0x1_0000 && Power(3) == 0x100_0000;
    }
    UnwordWord(MAGIC, 4);
  }

  lemma LookFrame(m: Message, rest: seq<byte>, strict: bool)
    requires Sendable(m, strict)
    ensures Look(Frame(m) + rest, strict) == Take(m, Total(m))
  {
    var s := Frame(m);
    UnwordMagic();
    UnwordSize(Total(m));
    DecodeBodyBody(m, strict);
    assert s[..4] == Word(MAGIC, 4) && s[4..12] == Size(Total(m)) && s[12..Total(m)] == Body(m);
    assert Look(s, strict) == Take(m, Total(m));
    LookMore(s, rest, strict);
  }

  /** Which frames the receiver takes.  With assertions: exactly those with some data and below
      the limit; any other fails one of them.  Without: every frame. */
  lemma FrameAccepted(m: Message, rest: seq<byte>, strict: bool)
    requires Total(m) < MAX_SIZE
    ensures Sendable(m, strict) <==> !strict || (m.data != [] && Total(m) < FRAME_LIMIT)
    ensures Look(Frame(m) + rest, strict) == if Sendable(m, strict) then Take(m, Total(m)) else Fail
  {
    if Sendable(m, strict) {
      LookFrame(m, rest, strict);
    } else {
      var s := Frame(m);
      UnwordMagic();
      UnwordSize(Total(m));
      DecodeBodyBody(m, strict);
      assert s[..4] == Word(MAGIC, 4) && s[4..12] == Size(Total(m)) && s[12..Total(m)] == Body(m);
      assert Look(s, strict) == Fail;
      LookMore(s, rest, strict);
    }
  }

  lemma {:induction false} DrainStream(ms: seq<Message>, strict: bool)
    requires forall m :: m in ms ==> Sendable(m, strict)
    ensures Drain(Stream(ms), strict) == (ms, [], true)
    decreases |ms|
  {
    if ms == [] {
      assert Look([], strict) == Wait;
    } else {
      var rest := Stream(ms[1..]);
      LookFrame(ms[0], rest, strict);
      assert (Frame(ms[0]) + rest)[Total(ms[0])..] == rest;
      DrainStream(ms[1..], strict);
      assert [ms[0]] + ms[1..] == ms;
    }
  }

  /** Stream framing, with assertions or without: for every list of messages that may be sent and
      every way of cutting their byte stream into chunks, nothing fails, what has been delivered
      after any number of chunks is a prefix of the list, and in the end all of it is delivered and
      the buffer is empty. */
  lemma StreamFraming(ms: seq<Message>, chunks: seq<seq<byte>>, k: nat, strict: bool)
    requires forall m :: m in ms ==> Sendable(m, strict)
    requires Join(chunks) == Stream(ms) && k <= |chunks|
    ensures Feed([], chunks, strict) == (ms, [], true)
    ensures Feed([], chunks[..k], strict).2 && Feed([], chunks[..k], strict).0 <= ms
  {
    DrainStream(ms, strict);
    assert [] + Join(chunks) == Stream(ms);
    FeedIsDrain([], chunks, strict);
    var a, b := Join(chunks[..k]), Join(chunks[k..]);
    JoinSplit(chunks, k);
    GoodSoFar(a, b, strict);
    assert [] + a == a;
    FeedIsDrain([], chunks[..k], strict);
    DrainInParts(a, b, strict);
  }

  lemma {:induction false} JoinSplit(chunks: seq<seq<byte>>, k: nat)
    requires k <= |chunks|
    ensures Join(chunks) == Join(chunks[..k]) + Join(chunks[k..])
    decreases k
  {
    if k > 0 {
      JoinSplit(chunks[1..], k - 1);
      assert chunks[..k][1..] == chunks[1..][..k - 1];
      assert chunks[1..][k - 1..] == chunks[k..];
    } else {
      assert chunks[k..] == chunks;
    }
  }
}
