/** The bounded body capture and the reader that feeds it. */
module Capture {
  import opened Wrappers

  type byte = bv8

  /** The observable state of a capture buffer. */
  datatype State = State(maxBytes: int, buffer: seq<byte>, totalBytes: nat, truncated: bool, completed: bool)

  function Fresh(maxBytes: int): State {
    State(maxBytes, [], 0, false, false)
  }

  /** One call of Capture. */
  function AfterCapture(s: State, chunk: seq<byte>): State {
    if chunk == [] then s
    else
      var counted := s.(totalBytes := s.totalBytes + |chunk|);
      var remaining := s.maxBytes - |s.buffer|;
      if s.maxBytes <= 0 || remaining <= 0 then counted.(truncated := true)
      else if |chunk| > remaining then counted.(buffer := s.buffer + chunk[..remaining], truncated := true)
      else counted.(buffer := s.buffer + chunk)
  }

  function Capacity(maxBytes: int): nat {
    if maxBytes < 0 then 0 else maxBytes
  }

  /** What a buffer must hold after the bytes of `stream`, however they arrived. */
  function Summary(maxBytes: int, stream: seq<byte>, completed: bool): State {
    var limit := Capacity(maxBytes);
    State(maxBytes, if |stream| <= limit then stream else stream[..limit], |stream|, |stream| > limit, completed)
  }

  function Concat(chunks: seq<seq<byte>>): seq<byte> {
    if chunks == [] then [] else chunks[0] + Concat(chunks[1..])
  }

  function CaptureAll(s: State, chunks: seq<seq<byte>>): State
    decreases |chunks|
  {
    if chunks == [] then s else CaptureAll(AfterCapture(s, chunks[0]), chunks[1..])
  }

  lemma CaptureExtendsSummary(maxBytes: int, stream: seq<byte>, chunk: seq<byte>, completed: bool)
    ensures AfterCapture(Summary(maxBytes, stream, completed), chunk) == Summary(maxBytes, stream + chunk, completed)
  {
    var limit := Capacity(maxBytes);
    var s := Summary(maxBytes, stream, completed);
    if chunk == [] {
      assert stream + chunk == stream;
    } else if |stream| > limit {
      assert (stream + chunk)[..limit] == stream[..limit];
    } else if |stream| + |chunk| > limit {
      assert (stream + chunk)[..limit] == stream + chunk[..limit - |stream|];
      if |stream| == limit {
        assert chunk[..0] == [] && stream + [] == stream;
      }
    }
  }

  lemma ConcatAppends(before: seq<byte>, chunks: seq<seq<byte>>)
    requires chunks != []
    ensures before + Concat(chunks) == (before + chunks[0]) + Concat(chunks[1..])
  {
  }

  /**
   For every split of a stream into chunks the buffer holds the stream's first bytes up to the limit,
   the total length, and truncated exactly when the stream is longer than the limit.
   */
  lemma {:induction false} CaptureIsHonestPrefix(maxBytes: int, before: seq<byte>, chunks: seq<seq<byte>>)
    ensures CaptureAll(Summary(maxBytes, before, false), chunks) == Summary(maxBytes, before + Concat(chunks), false)
    decreases |chunks|
  {
    if chunks == [] {
      assert before + [] == before;
    } else {
      var next, rest := before + chunks[0], chunks[1..];
      CaptureExtendsSummary(maxBytes, before, chunks[0], false);
      CaptureIsHonestPrefix(maxBytes, next, rest);
      ConcatAppends(before, chunks);
      var s := Summary(maxBytes, before, false);
      assert CaptureAll(s, chunks) == CaptureAll(AfterCapture(s, chunks[0]), rest);
    }
  }

  /** So a new buffer that is shown a stream in any chunks holds its honest prefix. */
  lemma FreshCaptureIsHonestPrefix(maxBytes: int, chunks: seq<seq<byte>>)
    ensures CaptureAll(Fresh(maxBytes), chunks) == Summary(maxBytes, Concat(chunks), false)
  {
    assert Fresh(maxBytes) == Summary(maxBytes, [], false);
    CaptureIsHonestPrefix(maxBytes, [], chunks);
    assert [] + Concat(chunks) == Concat(chunks);
  }

  /** The buffer; `Stream` is every byte it was ever shown. */
  class Buffer {
    const maxBytes: int
    var buffer: seq<byte>
    var totalBytes: nat
    var truncated: bool
    var completed: bool
    ghost var Stream: seq<byte>

    ghost predicate Valid()
      reads this
    {
      View() == Summary(maxBytes, Stream, completed)
    }

    ghost function View(): State
      reads this
    {
      State(maxBytes, buffer, totalBytes, truncated, completed)
    }

    constructor (maxBytes: int)
      ensures Valid() && this.maxBytes == maxBytes && Stream == [] && !completed
    {
      this.maxBytes := maxBytes;
      buffer, totalBytes, truncated, completed := [], 0, false, false;
      Stream := [];
    }

    method Capture(chunk: seq<byte>)
      requires Valid()
      modifies this
      ensures Valid() && Stream == old(Stream) + chunk && completed == old(completed)
      ensures View() == AfterCapture(old(View()), chunk)
    {
      CaptureExtendsSummary(maxBytes, Stream, chunk, completed);
      Stream := Stream + chunk;
      if |chunk| == 0 {
        return;
      }
      totalBytes := totalBytes + |chunk|;
      if maxBytes <= 0 {
        truncated := true;
        return;
      }
      var remaining := maxBytes - |buffer|;
      if remaining <= 0 {
        truncated := true;
        return;
      }
      if |chunk| > remaining {
        buffer := buffer + chunk[..remaining];
        truncated := true;
        return;
      }
      buffer := buffer + chunk;
    }

    method MarkComplete()
      requires Valid()
      modifies this`completed
      ensures Valid() && completed
    {
      completed := true;
    }
  }

  datatype ReadError = NoError | EOF | Failed

  /** A body that yields `rest` and then EOF; one read returns a prefix of it and an error verdict. */
  class BodyReader {
    var rest: seq<byte>
    var closed: bool

    constructor (content: seq<byte>)
      ensures rest == content && !closed
    {
      rest, closed := content, false;
    }

    /** `n` bytes arrive; EOF is reported only when nothing is left. */
    method Read(n: nat, err: ReadError) returns (chunk: seq<byte>)
      requires n <= |rest| && (err.EOF? ==> n == |rest|)
      modifies this`rest
      ensures chunk == old(rest)[..n] && rest == old(rest)[n..]
    {
      chunk := rest[..n];
      rest := rest[n..];
    }

    method Close()
      modifies this`closed
      ensures closed
    {
      closed := true;
    }
  }

  /** The capturing reader around a body whose whole content is `Body`. */
  class CapturingReadCloser {
    const reader: BodyReader
    const capture: Buffer
    ghost const Body: seq<byte>

    ghost predicate Valid()
      reads this, reader, capture
    {
      && capture.Valid()
      && capture.Stream + reader.rest == Body
      && (capture.completed ==> reader.rest == [])
    }

    constructor (reader: BodyReader, maxBytes: int)
      ensures Valid() && fresh(capture) && this.reader == reader && Body == reader.rest
      ensures capture.maxBytes == maxBytes && capture.Stream == [] && !capture.completed
    {
      this.reader := reader;
      this.capture := new Buffer(maxBytes);
      Body := reader.rest;
    }

    /** What the caller gets is what the body gave, and all of it was captured. */
    method Read(n: nat, err: ReadError) returns (chunk: seq<byte>)
      requires Valid() && n <= |reader.rest| && (err.EOF? ==> n == |reader.rest|)
      modifies reader`rest, capture
      ensures Valid()
      ensures chunk == old(reader.rest)[..n] && reader.rest == old(reader.rest)[n..]
      ensures capture.Stream == old(capture.Stream) + chunk
      ensures capture.completed == (old(capture.completed) || err.EOF?)
    {
      chunk := reader.Read(n, err);
      if |chunk| > 0 {
        capture.Capture(chunk);
      } else {
        assert capture.Stream + chunk == capture.Stream;
      }
      if err.EOF? {
        capture.MarkComplete();
      }
    }
  }

  // ---- what the audit record says about truncation ----

  function CaptureTruncated(contentLength: int, capture: Option<State>): bool {
    if capture.None? then false
    else
      var c := capture.value;
      if c.truncated then true
      else if c.completed then false
      else if contentLength == 0 && c.totalBytes == 0 then false
      else if contentLength > 0 then c.totalBytes < contentLength
      else c.totalBytes > 0
  }

  /** Whose body it is: of a request the client sends, or of a message that was received. */
  datatype Side = Sent | Received

  /**
   Whether a content length is the length of the body. Of a request to be sent, 0 with a body that is there
   means that the length is unknown, as a negative length does on either side.
   */
  predicate Announced(side: Side, contentLength: int) {
    contentLength > 0 || (contentLength == 0 && side.Received?)
  }

  /** What was read of a body of this content: all of it if EOF was seen, and an announced length is the true one. */
  ghost predicate Consistent(side: Side, body: seq<byte>, stream: seq<byte>, completed: bool, contentLength: int) {
    && stream <= body
    && (completed ==> stream == body)
    && (Announced(side, contentLength) ==> contentLength == |body|)
  }

  /** The record's flag is right about this body: false exactly when the capture is all of it. */
  ghost predicate FlagIsRight(maxBytes: int, contentLength: int, body: seq<byte>, stream: seq<byte>, completed: bool) {
    var s := Summary(maxBytes, stream, completed);
    !CaptureTruncated(contentLength, Some(s)) <==> s.buffer == body
  }

  /** EOF was seen, the length is announced, or the limit was exceeded. */
  predicate EndKnown(side: Side, maxBytes: int, contentLength: int, stream: seq<byte>, completed: bool) {
    completed || Announced(side, contentLength) || |stream| > Capacity(maxBytes)
  }

  lemma FlagRightWhenEndKnown(
    side: Side, maxBytes: int, contentLength: int, body: seq<byte>, stream: seq<byte>, completed: bool)
    requires Consistent(side, body, stream, completed, contentLength)
    requires EndKnown(side, maxBytes, contentLength, stream, completed)
    ensures FlagIsRight(maxBytes, contentLength, body, stream, completed)
  {
    assert |stream| == |body| ==> stream == body;
  }

  /**
   For a request and for a response, what the observer knows decides the flag exactly when the end of the
   body is known; otherwise there is a body consistent with everything observed for which it is wrong.
   */
  lemma FlagRightIffEndKnown(side: Side, maxBytes: int, contentLength: int, stream: seq<byte>, completed: bool)
    requires exists body :: Consistent(side, body, stream, completed, contentLength)
    ensures (forall body :: Consistent(side, body, stream, completed, contentLength)
               ==> FlagIsRight(maxBytes, contentLength, body, stream, completed))
            <==> EndKnown(side, maxBytes, contentLength, stream, completed)
  {
    if EndKnown(side, maxBytes, contentLength, stream, completed) {
      forall body | Consistent(side, body, stream, completed, contentLength)
        ensures FlagIsRight(maxBytes, contentLength, body, stream, completed)
      {
        FlagRightWhenEndKnown(side, maxBytes, contentLength, body, stream, completed);
      }
    } else {
      var wrong := if stream == [] then [0] else stream;
      assert Consistent(side, wrong, stream, completed, contentLength);
      assert !FlagIsRight(maxBytes, contentLength, wrong, stream, completed);
    }
  }

  /** Two bytes of unknown announced length, all read but without the read that reports EOF: called truncated. */
  lemma UnfinishedReadLooksTruncated()
    ensures var body: seq<byte> := [1, 2];
            Consistent(Received, body, body, false, -1) && !FlagIsRight(65536, -1, body, body, false)
  {
  }

  /** A request body of unknown length of which nothing was read: the empty capture is taken for all of it. */
  lemma UnreadRequestLooksWhole()
    ensures var body: seq<byte>, captured := [1], Summary(65536, [], false);
            && Consistent(Sent, body, [], false, 0)
            && !CaptureTruncated(0, Some(captured)) && captured.buffer != body
  {
  }
}
