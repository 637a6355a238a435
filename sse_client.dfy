/**
 * `SSEClient.connect`: the request for the global event stream, the loop
 * that feeds the response bytes through the framer and yields every payload
 * that decodes as an `SSEEvent`, and how the stream finishes.
 *
 * The network, JSON text parsing, UTF-8 decoding, Base64 and URL parsing are
 * not modelled; they are the parameters `Environment` and `transport`.
 */
module SseClient {
  import opened Wrappers
  import Text
  import AnyCodable
  import opened SseFraming

  /** `SSEPayload`. */
  datatype SsePayload = SsePayload(eventType: string, properties: Option<map<string, AnyCodable.AnyValue>>)

  /** `SSEEvent`. */
  datatype SseEvent = SseEvent(directory: Option<string>, payload: SsePayload)

  /** The foreign calls `connect` makes, as functions. */
  datatype Environment = Environment(
    isValidUrl: string -> bool,                       // URL(string:) != nil
    basicToken: string -> string,                     // base64 of the UTF-8 bytes of a credential
    decodeUtf8: seq<Byte> -> string,                  // String(decoding:as: UTF8.self)
    parseJson: string -> Option<AnyCodable.Json>,     // the JSON reader under JSONDecoder
    probes: AnyCodable.NumberProbes)                  // its Int and Double conversions

  datatype Request = Request(url: string, headers: map<string, string>)

  datatype TransportError = TransportError(description: string)

  /** How the byte sequence of the response ended. */
  datatype StreamEnd = EndOfInput | Cancelled | Failed(error: TransportError)

  /** What the network delivers for a request. */
  datatype Delivery = Delivery(bytes: seq<Byte>, end: StreamEnd)

  datatype StreamError = InvalidUrl | Transport(error: TransportError)

  /** How the returned stream finishes: `finish()` or `finish(throwing:)`. */
  datatype Completion = Finished | FinishedThrowing(error: StreamError)

  const EventPath: string := "/global/event"

  // ---------------------------------------------------------------------------
  // The envelope, as the synthesized Decodable conformances read it

  /** `decodeIfPresent(String.self, forKey:)`: absent or null gives nil, a non-string fails (outer None). */
  function OptionalString(fields: map<string, AnyCodable.Json>, key: string): (r: Option<Option<string>>)
    ensures r == Some(None) <==> key !in fields || fields[key].Null?
    ensures r.Some? && r.value.Some? ==> key in fields && fields[key] == AnyCodable.Str(r.value.value)
    ensures key in fields && fields[key].Str? ==> r == Some(Some(fields[key].s))
    ensures key in fields && !fields[key].Null? && !fields[key].Str? ==> r.None?
  {
    if key !in fields || fields[key].Null? then Some(None)
    else if fields[key].Str? then Some(Some(fields[key].s))
    else None
  }

  /** `decodeIfPresent([String: AnyCodable].self, forKey:)`. */
  function OptionalProperties(fields: map<string, AnyCodable.Json>, key: string, p: AnyCodable.NumberProbes)
    : (r: Option<Option<map<string, AnyCodable.AnyValue>>>)
    ensures r == Some(None) <==> key !in fields || fields[key].Null?
    ensures r.Some? && r.value.Some? ==>
      key in fields && fields[key].Object? && r.value.value.Keys == fields[key].fields.Keys
    ensures key in fields && !fields[key].Null? && !fields[key].Object? ==> r.None?
    ensures key in fields && fields[key].Object? ==>
      (r.Some? <==> forall k | k in fields[key].fields :: AnyCodable.Decode(fields[key].fields[k], p).Ok?)
    ensures r.Some? && r.value.Some? ==>
      forall k | k in fields[key].fields :: AnyCodable.Decode(fields[key].fields[k], p) == Ok(r.value.value[k])
  {
    if key !in fields || fields[key].Null? then Some(None)
    else if fields[key].Object? then
      match AnyCodable.DecodeFields(fields[key].fields, p)
      case Ok(m) => Some(Some(m))
      case Err(_) => None
    else None
  }

  function DecodePayload(j: AnyCodable.Json, p: AnyCodable.NumberProbes): (r: Option<SsePayload>)
    ensures r.Some? ==> j.Object? && "type" in j.fields && j.fields["type"] == AnyCodable.Str(r.value.eventType)
    ensures r.Some? ==> (r.value.properties.None? <==> "properties" !in j.fields || j.fields["properties"].Null?)
    ensures r.Some? <==>
      j.Object? && "type" in j.fields && j.fields["type"].Str? && OptionalProperties(j.fields, "properties", p).Some?
    ensures r.Some? ==> r.value.properties == OptionalProperties(j.fields, "properties", p).value
  {
    if !j.Object? || "type" !in j.fields || !j.fields["type"].Str? then None
    else
      match OptionalProperties(j.fields, "properties", p)
      case None => None
      case Some(props) => Some(SsePayload(j.fields["type"].s, props))
  }

  function DecodeEvent(j: AnyCodable.Json, p: AnyCodable.NumberProbes): (r: Option<SseEvent>)
    ensures r.Some? ==> j.Object? && "payload" in j.fields && DecodePayload(j.fields["payload"], p) == Some(r.value.payload)
    ensures r.Some? ==> OptionalString(j.fields, "directory") == Some(r.value.directory)
    ensures r.Some? <==>
      j.Object? && "payload" in j.fields && OptionalString(j.fields, "directory").Some? &&
      DecodePayload(j.fields["payload"], p).Some?
  {
    if !j.Object? || "payload" !in j.fields then None
    else
      match OptionalString(j.fields, "directory")
      case None => None
      case Some(dir) =>
        match DecodePayload(j.fields["payload"], p)
        case None => None
        case Some(payload) => Some(SseEvent(dir, payload))
  }

  /**
   * A well-formed envelope decodes: `payload` present, `directory` absent,
   * null or a string, `type` a string, and `properties` absent, null or an
   * object whose every value AnyCodable can decode.
   */
  lemma WellFormedEnvelopeDecodes(j: AnyCodable.Json, p: AnyCodable.NumberProbes)
    requires j.Object? && "payload" in j.fields
    requires "directory" !in j.fields || j.fields["directory"].Null? || j.fields["directory"].Str?
    requires j.fields["payload"].Object? && "type" in j.fields["payload"].fields
    requires j.fields["payload"].fields["type"].Str?
    requires var fs := j.fields["payload"].fields;
      "properties" !in fs || fs["properties"].Null? ||
      (fs["properties"].Object? &&
       forall k | k in fs["properties"].fields :: AnyCodable.Representable(fs["properties"].fields[k], p))
    ensures DecodeEvent(j, p).Some?
    ensures DecodeEvent(j, p).value.payload.eventType == j.fields["payload"].fields["type"].s
    ensures DecodeEvent(j, p).value.directory ==
      (if "directory" in j.fields && j.fields["directory"].Str? then Some(j.fields["directory"].s) else None)
  {
    var fs := j.fields["payload"].fields;
    if "properties" in fs && fs["properties"].Object? {
      forall k | k in fs["properties"].fields ensures AnyCodable.Decode(fs["properties"].fields[k], p).Ok? {
        AnyCodable.DecodeTotal(fs["properties"].fields[k], p);
      }
    }
  }

  /** `try? JSONDecoder().decode(SSEEvent.self, from: Data(json.utf8))`. */
  function ParseEvent(text: string, env: Environment): (r: Option<SseEvent>)
    ensures r.Some? ==> env.parseJson(text).Some? && env.parseJson(text).value.Object?
  {
    match env.parseJson(text)
    case None => None
    case Some(j) => DecodeEvent(j, env.probes)
  }

  /** The events yielded for a sequence of flushed payloads: those that fail to decode are dropped. */
  function DecodedEvents(payloads: seq<string>, env: Environment): (r: seq<SseEvent>)
    ensures |r| <= |payloads|
    ensures (forall k | 0 <= k < |payloads| :: ParseEvent(payloads[k], env).Some?) ==> |r| == |payloads|
    decreases |payloads|
  {
    if payloads == [] then []
    else
      var last := payloads[|payloads| - 1];
      DecodedEvents(payloads[..|payloads| - 1], env)
        + (if ParseEvent(last, env).Some? then [ParseEvent(last, env).value] else [])
  }

  // ---------------------------------------------------------------------------
  // The request

  /** `http://` is prepended unless the base URL already starts with `http`. */
  function EventUrl(baseURL: string): (url: string)
    ensures "http" <= url
    ensures url == (if "http" <= baseURL then baseURL else "http://" + baseURL) + EventPath
  {
    var root := if "http" <= baseURL then baseURL else "http://" + baseURL;
    assert "http" <= root by {
      if !("http" <= baseURL) {
        assert root[..4] == "http";
      }
    }
    root + EventPath
  }

  /** The Authorization header: the Basic scheme, only when both username and password are given. */
  function Authorization(username: Option<string>, password: Option<string>, env: Environment): (r: Option<string>)
    ensures r.Some? <==> username.Some? && password.Some?
    ensures r.Some? ==> "Basic " <= r.value
  {
    if username.Some? && password.Some? then
      Some("Basic " + env.basicToken(username.value + ":" + password.value))
    else
      None
  }

  /** The request `connect` sends, or none when the URL does not parse. */
  function MakeRequest(baseURL: string, username: Option<string>, password: Option<string>, env: Environment)
    : (r: Option<Request>)
    ensures r.Some? <==> env.isValidUrl(EventUrl(baseURL))
    ensures r.Some? ==> r.value.url == EventUrl(baseURL) && "Accept" in r.value.headers && "Cache-Control" in r.value.headers
    ensures r.Some? ==> ("Authorization" in r.value.headers <==> Authorization(username, password, env).Some?)
  {
    var url := EventUrl(baseURL);
    if !env.isValidUrl(url) then None
    else
      var headers := map["Accept" := "text/event-stream", "Cache-Control" := "no-cache"];
      var auth := Authorization(username, password, env);
      Some(Request(url, if auth.Some? then headers["Authorization" := auth.value] else headers))
  }

  /** The payloads a delivery produces: the final flush happens only when the input simply ends. */
  function StreamPayloads(d: Delivery, env: Environment): (r: seq<string>)
    ensures Run(Initial, d.bytes, env.decodeUtf8).out <= r
    ensures forall k | 0 <= k < |r| :: Deliverable(r[k])
  {
    if d.end == EndOfInput then
      Payloads(d.bytes, env.decodeUtf8)
    else
      RunEmitsDeliverable(Initial, d.bytes, env.decodeUtf8);
      Run(Initial, d.bytes, env.decodeUtf8).out
  }

  /** Cancellation finishes cleanly; a transport error finishes by throwing it. */
  function CompletionOf(end: StreamEnd): (c: Completion)
    ensures c.Finished? <==> !end.Failed?
    ensures end.Failed? ==> c == FinishedThrowing(Transport(end.error))
  {
    match end
    case EndOfInput => Finished
    case Cancelled => Finished
    case Failed(e) => FinishedThrowing(Transport(e))
  }

  // ---------------------------------------------------------------------------
  // connect

  /**
   * `connect(baseURL:username:password:)` run to completion: the events the
   * stream yields, in order, and how it finishes.
   */
  method Connect(baseURL: string, username: Option<string>, password: Option<string>,
                 env: Environment, transport: Request -> Delivery)
    returns (events: seq<SseEvent>, completion: Completion)
    ensures MakeRequest(baseURL, username, password, env).None? ==>
      events == [] && completion == FinishedThrowing(InvalidUrl)
    ensures MakeRequest(baseURL, username, password, env).Some? ==>
      var d := transport(MakeRequest(baseURL, username, password, env).value);
      events == DecodedEvents(StreamPayloads(d, env), env) && completion == CompletionOf(d.end)
  {
    var request := MakeRequest(baseURL, username, password, env);
    if request.None? {
      return [], FinishedThrowing(InvalidUrl);
    }
    events, completion := ReadStream(transport(request.value), env);
  }

  /** The body of the `Task` that `connect` starts: the byte loop, the final flush, and the finish. */
  method ReadStream(d: Delivery, env: Environment) returns (events: seq<SseEvent>, completion: Completion)
    ensures events == DecodedEvents(StreamPayloads(d, env), env)
    ensures completion == CompletionOf(d.end)
  {
    var decoder := new FrameDecoder(env.decodeUtf8);
    events := ReadBytes(decoder, d.bytes, env);
    ghost var run := Run(Initial, d.bytes, env.decodeUtf8);
    if d.end == EndOfInput {
      var payload := decoder.FlushEventIfNeeded();
      events := Yield(events, payload, env);
      DecodedEventsConcat(run.out, AsSeq(payload), env);
    } else {
      assert run.out + [] == run.out;
    }
    StreamPayloadsSplit(d, env);
    completion := CompletionOf(d.end);
  }

  /** The `for try await byte in bytes` loop: every byte is fed to the decoder and every flushed payload is yielded. */
  method ReadBytes(decoder: FrameDecoder, bytes: seq<Byte>, env: Environment) returns (events: seq<SseEvent>)
    requires decoder.Valid() && decoder.State() == Initial && decoder.emitted == []
    requires decoder.decodeUtf8 == env.decodeUtf8
    modifies decoder
    ensures decoder.Valid()
    ensures decoder.State() == Run(Initial, bytes, env.decodeUtf8).framer
    ensures decoder.emitted == Run(Initial, bytes, env.decodeUtf8).out
    ensures events == DecodedEvents(decoder.emitted, env)
  {
    events := [];
    var i := 0;
    while i < |bytes|
      invariant 0 <= i <= |bytes|
      invariant decoder.Valid()
      invariant decoder.State() == Run(Initial, bytes[..i], env.decodeUtf8).framer
      invariant decoder.emitted == Run(Initial, bytes[..i], env.decodeUtf8).out
      invariant events == DecodedEvents(decoder.emitted, env)
    {
      ghost var before := decoder.emitted;
      var payload := decoder.FeedByte(bytes[i]);
      events := Yield(events, payload, env);
      DecodedEventsConcat(before, AsSeq(payload), env);
      RunPrefixStep(bytes, i, env.decodeUtf8);
      i := i + 1;
    }
    assert bytes[..i] == bytes;
  }

  /** `flushEventIfNeeded`'s hand-off: decode the payload, if any, and yield the event when it decodes. */
  method Yield(events: seq<SseEvent>, payload: Option<string>, env: Environment) returns (r: seq<SseEvent>)
    ensures r == events + DecodedEvents(AsSeq(payload), env)
  {
    r := events;
    if payload.Some? {
      var event := ParseEvent(payload.value, env);
      if event.Some? {
        r := r + [event.value];
      }
      assert AsSeq(payload) == [] + [payload.value];
    }
  }

  // ---------------------------------------------------------------------------
  // Properties

  lemma StreamPayloadsSplit(d: Delivery, env: Environment)
    ensures StreamPayloads(d, env) == Run(Initial, d.bytes, env.decodeUtf8).out
      + (if d.end == EndOfInput then Flush(Run(Initial, d.bytes, env.decodeUtf8).framer).out else [])
  {
  }

  /** Flushing at most one more payload yields at most the event it decodes to. */
  lemma YieldOne(before: seq<string>, payload: Option<string>, env: Environment)
    ensures DecodedEvents(before + AsSeq(payload), env) ==
      DecodedEvents(before, env) +
      (if payload.Some? && ParseEvent(payload.value, env).Some? then [ParseEvent(payload.value, env).value] else [])
  {
    if payload.None? {
      assert before + AsSeq(payload) == before;
    } else {
      assert (before + [payload.value])[..|before|] == before;
    }
  }

  /** Yielding is per payload: the events of `a + b` are those of `a`, then those of `b`. */
  lemma {:induction false} DecodedEventsConcat(a: seq<string>, b: seq<string>, env: Environment)
    ensures DecodedEvents(a + b, env) == DecodedEvents(a, env) + DecodedEvents(b, env)
    decreases |b|
  {
    if b == [] {
      assert a + b == a;
    } else {
      var b' := b[..|b| - 1];
      assert (a + b)[..|a + b| - 1] == a + b';
      DecodedEventsConcat(a, b', env);
    }
  }

  /** A payload that fails to decode is dropped and does not disturb the events around it. */
  lemma MalformedPayloadDropped(a: seq<string>, x: string, b: seq<string>, env: Environment)
    requires ParseEvent(x, env).None?
    ensures DecodedEvents(a + [x] + b, env) == DecodedEvents(a, env) + DecodedEvents(b, env)
  {
    DecodedEventsConcat(a + [x], b, env);
    YieldOne(a, Some(x), env);
  }

  /** Every yielded event is the decoding of some flushed payload, in order. */
  lemma {:induction false} DecodedEventsAreParsed(payloads: seq<string>, env: Environment)
    ensures |DecodedEvents(payloads, env)| <= |payloads|
    ensures forall e | e in DecodedEvents(payloads, env) :: exists k | 0 <= k < |payloads| :: ParseEvent(payloads[k], env) == Some(e)
    decreases |payloads|
  {
    if payloads != [] {
      var init := payloads[..|payloads| - 1];
      DecodedEventsAreParsed(init, env);
      forall e | e in DecodedEvents(payloads, env)
        ensures exists k | 0 <= k < |payloads| :: ParseEvent(payloads[k], env) == Some(e)
      {
        if e in DecodedEvents(init, env) {
          var k :| 0 <= k < |init| && ParseEvent(init[k], env) == Some(e);
          assert payloads[k] == init[k];
        } else {
          assert ParseEvent(payloads[|payloads| - 1], env) == Some(e);
        }
      }
    }
  }

  /** The URL ends with the event path, and a base URL that starts with `http` is used as is. */
  lemma EventUrlShape(baseURL: string)
    ensures var url := EventUrl(baseURL);
      |url| >= |EventPath| && url[|url| - |EventPath|..] == EventPath
    ensures "http" <= baseURL ==> EventUrl(baseURL) == baseURL + EventPath
    ensures !("http" <= baseURL) ==> EventUrl(baseURL) == "http://" + baseURL + EventPath
  {
  }

  /** A host whose name starts with `http` gets no scheme prepended. */
  lemma HttpNamedHostKeepsNoScheme()
    ensures EventUrl("httpbin.org") == "httpbin.org/global/event"
  {
  }

  /** The request carries the stream headers, and an Authorization header exactly when both credentials are given. */
  lemma RequestHeaders(baseURL: string, username: Option<string>, password: Option<string>, env: Environment)
    requires MakeRequest(baseURL, username, password, env).Some?
    ensures var r := MakeRequest(baseURL, username, password, env).value;
      && r.url == EventUrl(baseURL)
      && r.headers["Accept"] == "text/event-stream"
      && r.headers["Cache-Control"] == "no-cache"
      && ("Authorization" in r.headers <==> username.Some? && password.Some?)
      && (username.Some? && password.Some? ==>
            r.headers["Authorization"] == "Basic " + env.basicToken(username.value + ":" + password.value))
  {
  }

  /** An invalid URL finishes the stream by throwing, before any request is made. */
  lemma InvalidUrlThrows(baseURL: string, username: Option<string>, password: Option<string>, env: Environment)
    requires !env.isValidUrl(EventUrl(baseURL))
    ensures MakeRequest(baseURL, username, password, env).None?
  {
  }

  /**
   * Cancellation and transport errors both skip the final flush; only the
   * first finishes cleanly.
   */
  lemma EndingsDiffer(bytes: seq<Byte>, e: TransportError, env: Environment)
    ensures StreamPayloads(Delivery(bytes, Cancelled), env) == Run(Initial, bytes, env.decodeUtf8).out
    ensures StreamPayloads(Delivery(bytes, Failed(e)), env) == Run(Initial, bytes, env.decodeUtf8).out
    ensures StreamPayloads(Delivery(bytes, EndOfInput), env) ==
      Run(Initial, bytes, env.decodeUtf8).out + Flush(Run(Initial, bytes, env.decodeUtf8).framer).out
    ensures CompletionOf(Cancelled) == Finished && CompletionOf(Failed(e)) == FinishedThrowing(Transport(e))
  {
  }

  /** An event whose `properties` hold a value AnyCodable cannot decode is dropped as a whole. */
  lemma UndecodablePropertiesDropEvent(j: AnyCodable.Json, p: AnyCodable.NumberProbes)
    requires j.Object? && "payload" in j.fields
    requires var pl := j.fields["payload"];
      pl.Object? && "properties" in pl.fields && pl.fields["properties"].Object? &&
      !AnyCodable.Representable(pl.fields["properties"], p)
    ensures DecodeEvent(j, p).None?
  {
    var props := j.fields["payload"].fields["properties"];
    AnyCodable.DecodeTotal(props, p);
  }
}
