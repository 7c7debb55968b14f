/** What an audit record keeps of a body: the redacted JSON of all of it, or a placeholder. */
module AuditedBody {
  import opened Wrappers
  import opened RedactionKeys
  import opened Redaction
  import opened Capture

  /** The record's body field; the three marks stand for the fixed placeholders. */
  datatype Record = Nothing | TruncatedMark | NonJSONMark | InvalidMark | Redacted(value: Json)

  /** Trimming of white space and decoding of JSON text, for any decoder. */
  datatype Codec = Codec(trim: seq<byte> -> seq<byte>, decode: seq<byte> -> Option<Json>)

  /** redactBody of the outbound client; the request audit passes `nonJSON` false and its own rule. */
  function RedactBody(codec: Codec, sensitive: Keys, body: seq<byte>, truncated: bool, nonJSON: bool): Record {
    var trimmed := codec.trim(body);
    if trimmed == [] then Nothing
    else if truncated then TruncatedMark
    else if nonJSON then NonJSONMark
    else
      var value := codec.decode(trimmed);
      if value.None? then InvalidMark else Redacted(Redact(sensitive, value.value))
  }

  /** Each placeholder says one thing: blank, else cut off, else not JSON by its type, else not JSON by its text. */
  lemma PlaceholderSaysWhy(codec: Codec, sensitive: Keys, body: seq<byte>, truncated: bool, nonJSON: bool)
    ensures var record, trimmed := RedactBody(codec, sensitive, body, truncated, nonJSON), codec.trim(body);
            && (record == Nothing <==> trimmed == [])
            && (record == TruncatedMark <==> trimmed != [] && truncated)
            && (record == NonJSONMark <==> trimmed != [] && !truncated && nonJSON)
            && (record == InvalidMark <==> trimmed != [] && !truncated && !nonJSON && codec.decode(trimmed) == None)
  {
  }

  /**
   When the end of a request's or a response's body is known, an outbound record holds JSON exactly when all of the body was
   captured, is not marked as something else and decodes, and then it is the redaction of the whole body.
   */
  lemma RecordedJSONIsOfWholeBody(
    codec: Codec, u: Unicode, side: Side, maxBytes: int, contentLength: int, nonJSON: bool,
    body: seq<byte>, stream: seq<byte>, completed: bool, value: Json)
    requires Consistent(side, body, stream, completed, contentLength)
    requires EndKnown(side, maxBytes, contentLength, stream, completed)
    ensures var captured := Summary(maxBytes, stream, completed);
            var record := RedactBody(codec, KeysOf(u, Outbound), captured.buffer,
                                     CaptureTruncated(contentLength, Some(captured)), nonJSON);
            record == Redacted(value)
            <==> && captured.buffer == body && !nonJSON && codec.trim(body) != []
                 && codec.decode(codec.trim(body)).Some?
                 && value == Redact(KeysOf(u, Outbound), codec.decode(codec.trim(body)).value)
  {
    FlagRightWhenEndKnown(side, maxBytes, contentLength, body, stream, completed);
  }

  /** The request audit looks at the buffer's own flag alone. */
  ghost predicate RequestFlagIsRight(maxBytes: int, body: seq<byte>, stream: seq<byte>, completed: bool) {
    var captured := Summary(maxBytes, stream, completed);
    !captured.truncated <==> captured.buffer == body
  }

  /**
   So what is known about the request decides that flag exactly when EOF was seen, the limit was exceeded
   or all the announced bytes were read; otherwise some body consistent with all of it makes it wrong.
   */
  lemma RequestFlagRightIffReadThrough(maxBytes: int, contentLength: int, stream: seq<byte>, completed: bool)
    requires exists body :: Consistent(Received, body, stream, completed, contentLength)
    ensures (forall body :: Consistent(Received, body, stream, completed, contentLength)
               ==> RequestFlagIsRight(maxBytes, body, stream, completed))
            <==> completed || |stream| > Capacity(maxBytes) || contentLength == |stream|
  {
    if completed || |stream| > Capacity(maxBytes) || contentLength == |stream| {
      forall body | Consistent(Received, body, stream, completed, contentLength)
        ensures RequestFlagIsRight(maxBytes, body, stream, completed)
      {
        assert |stream| <= Capacity(maxBytes) ==> stream == body;
        assert |stream| > Capacity(maxBytes) ==> |Summary(maxBytes, stream, completed).buffer| < |body|;
      }
    } else {
      var some :| Consistent(Received, some, stream, completed, contentLength);
      var longer := if contentLength >= 0 then some else stream + [0];
      assert stream <= longer && |longer| > |stream|;
      assert Consistent(Received, longer, stream, completed, contentLength);
      assert !RequestFlagIsRight(maxBytes, longer, stream, completed);
    }
  }

  /** A handler that reads 2 of 4 announced bytes and stops: the record takes "12" for the whole of "1234". */
  lemma HalfReadRequestCountsAsWhole()
    ensures var body, stream: seq<byte> := [0x31, 0x32, 0x33, 0x34], [0x31, 0x32];
            && Consistent(Received, body, stream, false, 4)
            && !Summary(65536, stream, false).truncated && Summary(65536, stream, false).buffer != body
  {
  }
}
