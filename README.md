# OpenCode iOS client: event stream, path and model helpers in Dafny

This project models the parts of the OpenCode iOS client that decide what the
app sees of the server and how it shows it:

- **The global event stream** (`SSEClient.connect`). The client builds a
  `GET <base>/global/event` request with stream headers and optional Basic
  credentials. It reads the response byte by byte and splits it into lines
  at LF, dropping one trailing CR. Lines starting with `data:` are kept
  pending. A blank line, or the end of the stream, flushes the pending lines.
  They are joined with LF and trimmed, and the result is decoded as an
  `SSEEvent` unless it is empty or `[DONE]`. Payloads that do not decode
  are dropped.
- **`AnyCodable`**, the schema-less JSON value inside an event's
  `properties`. It decodes by probing Int, Double, String, Bool, array,
  object and null in that order, and encodes by the same cases; under
  `JSONEncoder` encoding throws on an infinite or NaN Double.
- **`PathNormalizer.normalize`**. It trims whitespace, removes one `a/` or
  `b/` diff prefix, cuts everything from the first `#`, and cuts a trailing
  `:line` or `:line:column`.
- **Small model helpers**: `AgentInfo` (id, short name, visibility),
  `ModelPreset` (id, short family name), `TodoItem.isCompleted`, and
  `AppError` (`from(_:)`, `isConnectionError`, `isRecoverable`).

The files, one module each:

- `wrappers.dfy`: `Option`, `Result`.
- `text.dfy`: the Foundation string operations used here.
- `any_codable.dfy`, `sse_framing.dfy`, `sse_client.dfy`.
- `path_normalizer.dfy`, `agent_info.dfy`, `model_preset.dfy`,
  `todo_item.dfy`, `app_error.dfy`.

The byte loop is imperative in the source. It is modelled in two layers:

- the pure specification `SseFraming.Step`, `Run` and `Flush`;
- the class `SseFraming.FrameDecoder`, whose fields are the loop's
  `lineBuffer` and `eventDataLines`. Its methods are proved against that
  specification.

`SseClient.ReadStream` runs the stream body; its helper `SseClient.ReadBytes`
holds the byte loop, with loop invariants that tie the decoder to `Run`. Everything else in the core is
pure and is modelled as functions and lemmas.

Foreign calls become parameters (`SseClient.Environment` and the
`transport` argument of `SseClient.Connect`):

- UTF-8 decoding of a line;
- the JSON reader under `JSONDecoder`, and its Int and Double conversions;
- Base64 of the credential;
- `URL(string:)`;
- the network.

## Model

Source paths are relative to the repository root.

| member | source | states |
|---|---|---|
| AnyCodable.Decode | OpenCodeClient/OpenCodeClient/Services/SSEClient.swift:25-35 | A decoded value has the kind of the JSON it came from (a number gives Int or Double, a string the same string, arrays keep their length, objects their keys); strings, booleans and null always decode |
| AnyCodable.DecodeItems | OpenCodeClient/OpenCodeClient/Services/SSEClient.swift:31 | An array decodes element by element: the result has one value per element and each is that element decoded |
| AnyCodable.DecodeFields | OpenCodeClient/OpenCodeClient/Services/SSEClient.swift:32 | An object decodes exactly when every field does; the result has the same keys, each field decoded |
| AnyCodable.Write | OpenCodeClient/OpenCodeClient/Services/SSEClient.swift:37-48 | Every recognised value is written as JSON of its own kind; an unrecognised value is written as null |
| AnyCodable.Encode | OpenCodeClient/OpenCodeClient/Services/SSEClient.swift:37-48 | Encoding throws exactly when an infinite or NaN Double occurs anywhere in the value (the encoder's default `.throw` strategy); otherwise every recognised value becomes JSON of its own kind and an unrecognised one null |
| AnyCodable.NumberProbeOrder | OpenCodeClient/OpenCodeClient/Services/SSEClient.swift:27-28 | A number decodes as Int when the Int probe succeeds, else as Double when that probe succeeds, else decoding fails: an integer literal never becomes a Double |
| AnyCodable.DecodeScalars | OpenCodeClient/OpenCodeClient/Services/SSEClient.swift:29-33 | Strings, booleans and null decode to the String, Bool and null variants |
| AnyCodable.DecodeItemsOk | OpenCodeClient/OpenCodeClient/Services/SSEClient.swift:31 | An array decodes exactly when every element does, element by element in order |
| AnyCodable.DecodeTotal | OpenCodeClient/OpenCodeClient/Services/SSEClient.swift:25-35 | Decoding succeeds exactly on values whose every number passes one of the two probes; otherwise it throws "Cannot decode" |
| AnyCodable.DecodeIsDecodable | OpenCodeClient/OpenCodeClient/Services/SSEClient.swift:25-35 | A decoded value never contains the unrecognised variant |
| AnyCodable.ShapeRoundTrip | OpenCodeClient/OpenCodeClient/Services/SSEClient.swift:25-48 | The JSON written for a decoded value has the same shape, recursively through arrays and objects |
| AnyCodable.ValueRoundTrip | OpenCodeClient/OpenCodeClient/Services/SSEClient.swift:25-48 | With number writers the probes read back, every decodable value without infinities or NaNs encodes, and decode(encode(v)) == v |
| AnyCodable.DecodeArray | OpenCodeClient/OpenCodeClient/Services/SSEClient.swift:31 | An array whose elements all decode decodes to the array of their values |
| AnyCodable.DecodeObject | OpenCodeClient/OpenCodeClient/Services/SSEClient.swift:32 | An object whose fields all decode decodes to the dictionary of their values |
| AnyCodable.IntegralDoubleBecomesInt | OpenCodeClient/OpenCodeClient/Services/SSEClient.swift:27-41 | A finite Double whose written form passes the Int probe encodes and comes back as an Int: the round trip changes its kind |
| AnyCodable.ConsistentReadsBack | OpenCodeClient/OpenCodeClient/Services/SSEClient.swift:27-41 | Writers whose output both probes read back exactly also meet the weaker read-back hypothesis |
| AnyCodable.ValueRoundTripUpToIntegralDoubles | OpenCodeClient/OpenCodeClient/Services/SSEClient.swift:25-48 | With writers whose Int output reads back and whose finite Double output reads back as that Double or as some Int, a decodable value without infinities or NaNs encodes, and decode(encode(v)) succeeds and equals v except that Doubles may come back as Ints |
| AnyCodable.UnrecognisedEncodesAsNull | OpenCodeClient/OpenCodeClient/Services/SSEClient.swift:46 | A value matching no case encodes as null, like NSNull |
| AnyCodable.NonFiniteDoubleThrows | OpenCodeClient/OpenCodeClient/Services/SSEClient.swift:41 | Encoding a Double throws exactly when it is infinite or NaN: `1.0` encodes, NaN and +infinity throw |
| AnyCodable.ThrowingItemThrows | OpenCodeClient/OpenCodeClient/Services/SSEClient.swift:44 | An array with one element that throws throws as a whole |
| AnyCodable.ThrowingFieldThrows | OpenCodeClient/OpenCodeClient/Services/SSEClient.swift:45 | An object with one field that throws throws as a whole |
| Text.IsWhitespace | OpenCodeClient/OpenCodeClient/Models/AgentInfo.swift:23 | `.whitespaces`: a member is never a line terminator |
| Text.IsWhitespaceOrNewline | OpenCodeClient/OpenCodeClient/Utils/PathNormalizer.swift:13 | `.whitespacesAndNewlines` is exactly `.whitespaces` together with the line terminators |
| Text.Trim | OpenCodeClient/OpenCodeClient/Utils/PathNormalizer.swift:13 | `trimmingCharacters(in:)`: the input less a run of set members at each end, neither end of the result a set member; empty exactly when every character is in the set; clean input unchanged |
| Text.TrimStart | OpenCodeClient/OpenCodeClient/Utils/PathNormalizer.swift:13 | The leading set members are removed and the rest is a suffix starting outside the set |
| Text.TrimEnd | OpenCodeClient/OpenCodeClient/Utils/PathNormalizer.swift:13 | The trailing set members are removed and the rest is a prefix ending outside the set |
| Text.Contains | OpenCodeClient/OpenCodeClient/Models/ModelPreset.swift:15-18 | `contains(_:)` holds exactly when the needle occurs at some position |
| Text.IndexOf | OpenCodeClient/OpenCodeClient/Utils/PathNormalizer.swift:17 | `firstIndex(of:)`: none exactly when absent; otherwise a position holding the element with no earlier occurrence |
| Text.Before | OpenCodeClient/OpenCodeClient/Models/AgentInfo.swift:22-27 | The prefix before the first occurrence, which does not contain the element; the whole input when it is absent |
| Text.BeforeFirst | OpenCodeClient/OpenCodeClient/Utils/PathNormalizer.swift:17-19 | Given the first occurrence, `Before` is exactly the slice up to it |
| Text.Join | OpenCodeClient/OpenCodeClient/Services/SSEClient.swift:81 | `joined(separator:)` of one part is that part, of no parts is empty |
| SseFraming.DropTrailingCr | OpenCodeClient/OpenCodeClient/Services/SSEClient.swift:96 | At most one byte is removed, and one is removed exactly when the buffer ends in CR |
| SseFraming.DataBody | OpenCodeClient/OpenCodeClient/Services/SSEClient.swift:112-113 | The line is `data: ` followed by the body when a space follows the colon, and `data:` followed by the body otherwise |
| SseFraming.Classify | OpenCodeClient/OpenCodeClient/Services/SSEClient.swift:100-115 | A line is blank exactly when empty, a comment exactly when it starts with `:`, a data field exactly when it starts with `data:`, and then carries its body |
| SseFraming.FlushedPayload | OpenCodeClient/OpenCodeClient/Services/SSEClient.swift:80-84 | No pending lines give no payload; a payload is deliverable and a block of the LF-joined lines |
| SseFraming.Flush | OpenCodeClient/OpenCodeClient/Services/SSEClient.swift:79-84 | The pending lines are cleared, the line buffer kept, and at most one deliverable payload emitted, none when nothing was pending |
| SseFraming.EndLine | OpenCodeClient/OpenCodeClient/Services/SSEClient.swift:94-117 | The line buffer is emptied; at most one deliverable payload is emitted, only for a blank line; the pending lines are cleared or extended by at most one line |
| SseFraming.Step | OpenCodeClient/OpenCodeClient/Services/SSEClient.swift:94-120 | One iteration emits at most one deliverable payload, only on LF, and keeps the line buffer LF-free |
| SseFraming.Run | OpenCodeClient/OpenCodeClient/Services/SSEClient.swift:91-121 | The loop emits at most one payload per LF in the input |
| SseFraming.Payloads | OpenCodeClient/OpenCodeClient/Services/SSEClient.swift:91-124 | The loop plus the final flush emit at most one payload per LF plus one, all deliverable |
| SseFraming.NonLfAppends | OpenCodeClient/OpenCodeClient/Services/SSEClient.swift:120 | A byte other than LF only appends to the line buffer: no payload, pending lines unchanged |
| SseFraming.LfEndsLine | OpenCodeClient/OpenCodeClient/Services/SSEClient.swift:94-98 | An LF empties the line buffer and emits at most one payload, only when the line less a trailing CR is blank |
| SseFraming.IgnoredLineKeepsPending | OpenCodeClient/OpenCodeClient/Services/SSEClient.swift:106-109 | A comment line, or a line that is neither blank nor `data:`, keeps the pending lines and emits nothing |
| SseFraming.DataLineAppends | OpenCodeClient/OpenCodeClient/Services/SSEClient.swift:111-115 | A `data:` line appends its body to the pending lines and emits nothing |
| SseFraming.BlankLineFlushes | OpenCodeClient/OpenCodeClient/Services/SSEClient.swift:100-103 | A blank line clears the pending lines and emits their flushed payload, if any |
| SseFraming.FlushSpec | OpenCodeClient/OpenCodeClient/Services/SSEClient.swift:79-84 | Nothing pending emits nothing; otherwise the trimmed LF-join is emitted unless empty or `[DONE]`; whatever is emitted is deliverable |
| SseFraming.SingleLinePayload | OpenCodeClient/OpenCodeClient/Services/SSEClient.swift:81-84 | One pending line that needs no trimming is emitted verbatim |
| SseFraming.BlankOrDoneSuppressed | OpenCodeClient/OpenCodeClient/Services/SSEClient.swift:84 | Lines joining to whitespace only, or trimming to `[DONE]`, emit nothing |
| SseFraming.RunConcat | OpenCodeClient/OpenCodeClient/Services/SSEClient.swift:91-121 | The loop over `a + b` is the loop over `a` continued over `b`: framing does not depend on how bytes arrive in chunks |
| SseFraming.RunSnoc | OpenCodeClient/OpenCodeClient/Services/SSEClient.swift:91-121 | One more byte is one more loop iteration |
| SseFraming.RunWithoutLf | OpenCodeClient/OpenCodeClient/Services/SSEClient.swift:120 | Bytes without LF only extend the line buffer |
| SseFraming.FeedLine | OpenCodeClient/OpenCodeClient/Services/SSEClient.swift:94-120 | A line's bytes followed by LF are one line-level transition |
| SseFraming.EndLineIgnoresCr | OpenCodeClient/OpenCodeClient/Services/SSEClient.swift:96 | A single trailing CR does not change how a line is handled |
| SseFraming.CrLfLikeLf | OpenCodeClient/OpenCodeClient/Services/SSEClient.swift:94-98 | CR LF ends a line exactly as LF does |
| SseFraming.KeepAliveSilent | OpenCodeClient/OpenCodeClient/Services/SSEClient.swift:106-109 | A keep-alive comment line emits nothing and keeps the pending lines |
| SseFraming.UnterminatedEventSurfaced | OpenCodeClient/OpenCodeClient/Services/SSEClient.swift:123-124 | A `data:` line with no following blank line is still emitted by the final flush at end of input |
| SseFraming.TrailingPartialLineLost | OpenCodeClient/OpenCodeClient/Services/SSEClient.swift:91-124 | Bytes after the last LF never produce a payload, even at end of input |
| SseFraming.RunKeepsLineBufferLfFree | OpenCodeClient/OpenCodeClient/Services/SSEClient.swift:94-120 | The line buffer never holds an LF |
| SseFraming.StepEmitsDeliverable | OpenCodeClient/OpenCodeClient/Services/SSEClient.swift:94-103 | Every payload one iteration emits is deliverable |
| SseFraming.RunPrefixStep | OpenCodeClient/OpenCodeClient/Services/SSEClient.swift:91-121 | The loop over the first `i + 1` bytes is the loop over the first `i`, then one iteration |
| SseFraming.FlushedDeliverable | OpenCodeClient/OpenCodeClient/Services/SSEClient.swift:81-84 | A flushed payload is non-empty, trimmed and not `[DONE]` |
| SseFraming.EmittedStaysDeliverable | OpenCodeClient/OpenCodeClient/Services/SSEClient.swift:84-88 | Appending a deliverable payload keeps every emitted payload deliverable |
| SseFraming.RunEmitsDeliverable | OpenCodeClient/OpenCodeClient/Services/SSEClient.swift:91-121 | Every payload the loop emits is non-empty, trimmed and not `[DONE]` |
| SseFraming.FrameDecoder.constructor | OpenCodeClient/OpenCodeClient/Services/SSEClient.swift:76-77 | Both buffers start empty |
| SseFraming.FrameDecoder.FlushEventIfNeeded | OpenCodeClient/OpenCodeClient/Services/SSEClient.swift:79-89 | The state after the call and the returned payload are those of `Flush`, and the decoder's invariant is kept |
| SseFraming.FrameDecoder.FeedByte | OpenCodeClient/OpenCodeClient/Services/SSEClient.swift:94-120 | The state after the call and the returned payload are those of `Step`, and the invariant is kept |
| SseClient.OptionalString | OpenCodeClient/OpenCodeClient/Services/SSEClient.swift:9 | An optional string field is nil exactly when absent or null, the string when it is one, and fails otherwise |
| SseClient.OptionalProperties | OpenCodeClient/OpenCodeClient/Services/SSEClient.swift:15 | `properties` is nil exactly when absent or null; an object decodes exactly when every value does, to the same keys each holding its decoded value; any other non-null value fails |
| SseClient.DecodePayload | OpenCodeClient/OpenCodeClient/Services/SSEClient.swift:13-16 | A payload decodes exactly when it is an object whose `type` is a string and whose `properties` decode; it then carries that type and those properties, none exactly when `properties` is absent or null |
| SseClient.DecodeEvent | OpenCodeClient/OpenCodeClient/Services/SSEClient.swift:8-11 | An event decodes exactly when it is an object with a `payload` that decodes and a `directory` that is absent, null or a string; it then carries that payload and directory |
| SseClient.WellFormedEnvelopeDecodes | OpenCodeClient/OpenCodeClient/Services/SSEClient.swift:8-16 | An envelope with `payload`, an absent, null or string `directory`, a string `type`, and `properties` absent, null or an object of decodable values always decodes, with that type and directory |
| SseClient.ParseEvent | OpenCodeClient/OpenCodeClient/Services/SSEClient.swift:85-86 | An event is decoded only from text that parses to a JSON object |
| SseClient.DecodedEvents | OpenCodeClient/OpenCodeClient/Services/SSEClient.swift:86-88 | At most one event per payload, exactly one each when every payload decodes |
| SseClient.Authorization | OpenCodeClient/OpenCodeClient/Services/SSEClient.swift:64-68 | A credential exactly when both username and password are given, in the Basic scheme |
| SseClient.MakeRequest | OpenCodeClient/OpenCodeClient/Services/SSEClient.swift:57-69 | A request exactly when the event URL is valid; it targets that URL, carries the stream headers, and an Authorization header exactly when a credential is given |
| SseClient.EventUrl | OpenCodeClient/OpenCodeClient/Services/SSEClient.swift:57-58 | The URL starts with `http`; `http://` is prepended exactly when the base does not start with `http`; `/global/event` follows |
| SseClient.EventUrlShape | OpenCodeClient/OpenCodeClient/Services/SSEClient.swift:57-58 | The URL ends with `/global/event`, and a base starting with `http` is kept as is |
| SseClient.HttpNamedHostKeepsNoScheme | OpenCodeClient/OpenCodeClient/Services/SSEClient.swift:57 | A host named `httpbin.org` gets no scheme, because the check is a plain prefix test |
| SseClient.RequestHeaders | OpenCodeClient/OpenCodeClient/Services/SSEClient.swift:61-69 | The request has the stream headers, and an Authorization header in the Basic scheme exactly when both username and password are given |
| SseClient.InvalidUrlThrows | OpenCodeClient/OpenCodeClient/Services/SSEClient.swift:58-60 | An invalid URL makes no request |
| SseClient.StreamPayloads | OpenCodeClient/OpenCodeClient/Services/SSEClient.swift:91-124 | The payloads start with the loop's and are all deliverable; the final flush only follows a normal end of input |
| SseClient.CompletionOf | OpenCodeClient/OpenCodeClient/Services/SSEClient.swift:123-130 | The stream finishes cleanly exactly when it was not a transport error; a transport error finishes by throwing it |
| SseClient.Connect | OpenCodeClient/OpenCodeClient/Services/SSEClient.swift:52-137 | An invalid URL finishes by throwing with no events; otherwise the events and the finish are those of the delivered stream |
| SseClient.ReadStream | OpenCodeClient/OpenCodeClient/Services/SSEClient.swift:71-131 | The events yielded are the decodable payloads of the loop (plus the final flush at end of input), in order; cancellation finishes cleanly and a transport error is thrown |
| SseClient.ReadBytes | OpenCodeClient/OpenCodeClient/Services/SSEClient.swift:91-121 | After the byte loop the decoder holds the state `Run` gives, has flushed the payloads `Run` gives, and the events yielded are exactly the decodable ones among them |
| SseClient.Yield | OpenCodeClient/OpenCodeClient/Services/SSEClient.swift:85-88 | A flushed payload adds the event it decodes to, or nothing when there is no payload or it does not decode |
| SseClient.StreamPayloadsSplit | OpenCodeClient/OpenCodeClient/Services/SSEClient.swift:91-124 | The payloads are the loop's, followed by the final flush only when the input ends normally |
| SseClient.YieldOne | OpenCodeClient/OpenCodeClient/Services/SSEClient.swift:85-88 | One flushed payload adds the event it decodes to, or nothing |
| SseClient.DecodedEventsConcat | OpenCodeClient/OpenCodeClient/Services/SSEClient.swift:86-88 | Events are decoded per payload: the events of `a + b` are those of `a` then those of `b` |
| SseClient.MalformedPayloadDropped | OpenCodeClient/OpenCodeClient/Services/SSEClient.swift:86-88 | A payload that fails to decode is dropped silently and does not affect the events around it |
| SseClient.DecodedEventsAreParsed | OpenCodeClient/OpenCodeClient/Services/SSEClient.swift:86-88 | Every yielded event is the decoding of a flushed payload, and there are no more events than payloads |
| SseClient.EndingsDiffer | OpenCodeClient/OpenCodeClient/Services/SSEClient.swift:123-130 | Only a normal end of input runs the final flush; cancellation finishes cleanly, a transport error finishes by throwing |
| SseClient.UndecodablePropertiesDropEvent | OpenCodeClient/OpenCodeClient/Services/SSEClient.swift:13-16 | An event whose `properties` hold a value AnyCodable cannot decode fails to decode as a whole |
| PathNormalizer.DigitRun | OpenCodeClient/OpenCodeClient/Utils/PathNormalizer.swift:20 | The length of the leading run of ASCII digits |
| PathNormalizer.MatchFrom | OpenCodeClient/OpenCodeClient/Utils/PathNormalizer.swift:20 | The leftmost position at or after `k` where `:[0-9]+(:[0-9]+)?$` matches, or none when there is no match |
| PathNormalizer.StripDiffPrefix | OpenCodeClient/OpenCodeClient/Utils/PathNormalizer.swift:14-16 | Exactly two characters are removed when the text starts with `a/` or `b/`, otherwise nothing |
| PathNormalizer.CutLineSuffix | OpenCodeClient/OpenCodeClient/Utils/PathNormalizer.swift:20-22 | A prefix of the input, cut at the leftmost match of the line pattern; unchanged exactly when there is no match |
| PathNormalizer.Normalize | OpenCodeClient/OpenCodeClient/Utils/PathNormalizer.swift:12-24 | The result never contains `#` and is never longer than the input |
| PathNormalizer.InfixOfTrimmed | OpenCodeClient/OpenCodeClient/Utils/PathNormalizer.swift:12-24 | The result is a contiguous block of the trimmed input and never longer than it |
| PathNormalizer.CleanPathUnchanged | OpenCodeClient/OpenCodeClient/Utils/PathNormalizer.swift:12-24 | A path with no surrounding whitespace, no diff prefix, no `#` and no line suffix is returned unchanged |
| PathNormalizer.StepsInOrder | OpenCodeClient/OpenCodeClient/Utils/PathNormalizer.swift:17-22 | The result is a prefix of the text left after the `#` cut, cut only where the line pattern matches |
| PathNormalizer.NoMatchWithoutColon | OpenCodeClient/OpenCodeClient/Utils/PathNormalizer.swift:20 | A match can only start at a `:` |
| PathNormalizer.NoLineSuffix | OpenCodeClient/OpenCodeClient/Utils/PathNormalizer.swift:20-22 | Text without `:` keeps its end |
| PathNormalizer.LineSuffixAt | OpenCodeClient/OpenCodeClient/Utils/PathNormalizer.swift:20-22 | A base without `:` followed by a matching suffix is cut back exactly to the base |
| PathNormalizer.NormalizeClean | OpenCodeClient/OpenCodeClient/Utils/PathNormalizer.swift:13-19 | Without surrounding whitespace or `#`, only the prefix and line cuts apply |
| PathNormalizer.CutBeforeMatch | OpenCodeClient/OpenCodeClient/Utils/PathNormalizer.swift:20-22 | The line cut happens at or before every position where the pattern matches |
| PathNormalizer.LineSuffixCutWithinBase | OpenCodeClient/OpenCodeClient/Utils/PathNormalizer.swift:12-24 | A clean path followed by a matching suffix normalizes to a prefix of the path, whatever colons the path contains |
| PathNormalizer.TrailingLineCut | OpenCodeClient/OpenCodeClient/Utils/PathNormalizer.swift:20-22 | `path:N` normalizes to a prefix of `path` for every clean `path` |
| PathNormalizer.NormalizeUntrimmed | OpenCodeClient/OpenCodeClient/Utils/PathNormalizer.swift:13-16 | Without surrounding whitespace or diff prefix, only the `#` and line cuts apply |
| PathNormalizer.DiffPrefixRemoved | OpenCodeClient/OpenCodeClient/Utils/PathNormalizer.swift:14-16 | `a/` in front of a clean path without `#` or `:` is removed and nothing else changes |
| PathNormalizer.OneDiffPrefix | OpenCodeClient/OpenCodeClient/Utils/PathNormalizer.swift:14-16 | Only one diff prefix is removed: `a/b/x` becomes `b/x` |
| PathNormalizer.NotIdempotent | OpenCodeClient/OpenCodeClient/Utils/PathNormalizer.swift:14-16 | `a/a/x` becomes `a/x`, which becomes `x`: normalizing twice can change the result |
| PathNormalizer.DigitRunConcat | OpenCodeClient/OpenCodeClient/Utils/PathNormalizer.swift:20 | `[0-9]+` stops at the first non-digit |
| PathNormalizer.LineColumnForms | OpenCodeClient/OpenCodeClient/Utils/PathNormalizer.swift:20 | `:N` and `:N:M` match the pattern for all non-empty digit strings |
| PathNormalizer.NoDiffPrefixAfter | OpenCodeClient/OpenCodeClient/Utils/PathNormalizer.swift:14 | Appending text that starts with `:` cannot create a diff prefix |
| PathNormalizer.LineSuffixNormalized | OpenCodeClient/OpenCodeClient/Utils/PathNormalizer.swift:12-24 | A clean path loses a matching suffix |
| PathNormalizer.LineAndColumn | OpenCodeClient/OpenCodeClient/Utils/PathNormalizer.swift:20-22 | `path:N` and `path:N:M` both normalize to `path` |
| PathNormalizer.BeforeAnchor | OpenCodeClient/OpenCodeClient/Utils/PathNormalizer.swift:17-19 | The `#` cut keeps exactly the text before the first `#` |
| PathNormalizer.AnchoredPathStages | OpenCodeClient/OpenCodeClient/Utils/PathNormalizer.swift:13-16 | `path:N#anchor` passes the trim and prefix steps unchanged |
| PathNormalizer.AnchorCut | OpenCodeClient/OpenCodeClient/Utils/PathNormalizer.swift:17-19 | The `#` cut of `path:N#anchor` keeps `path:N` |
| PathNormalizer.LineCut | OpenCodeClient/OpenCodeClient/Utils/PathNormalizer.swift:20-22 | `path:N` is cut back to `path` |
| PathNormalizer.AnchorThenLine | OpenCodeClient/OpenCodeClient/Utils/PathNormalizer.swift:17-22 | The `#` cut comes first, so `path:N#anchor` loses both the anchor and the line number |
| Agents.AgentInfo.Id | OpenCodeClient/OpenCodeClient/Models/AgentInfo.swift:11 | The id is the name |
| Agents.AgentInfo.ShortName | OpenCodeClient/OpenCodeClient/Models/AgentInfo.swift:20-29 | The short name never contains `(` and is a contiguous block of the name |
| Agents.ShortNameBeforeParen | OpenCodeClient/OpenCodeClient/Models/AgentInfo.swift:22-24 | With a `(`, the short name is the text before the first `(`, trimmed of whitespace, whatever spaces precede it |
| Agents.ParenBeforeSpace | OpenCodeClient/OpenCodeClient/Models/AgentInfo.swift:22-27 | The `(` rule takes precedence over the space rule: a clean name before the first `(` is kept whole, spaces included |
| Agents.ShortNameBeforeSpace | OpenCodeClient/OpenCodeClient/Models/AgentInfo.swift:25-27 | With no `(`, the short name is the text before the first space and contains no space |
| Agents.ShortNameWhole | OpenCodeClient/OpenCodeClient/Models/AgentInfo.swift:11-28 | With neither `(` nor space the short name is the name, which is also the id |
| Agents.AgentInfo.IsVisible | OpenCodeClient/OpenCodeClient/Models/AgentInfo.swift:33-37 | A visible agent is not hidden and its mode is absent, `primary` or `all` |
| Agents.VisibleByMode | OpenCodeClient/OpenCodeClient/Models/AgentInfo.swift:35-36 | A non-hidden agent is visible exactly when its mode is absent, `primary` or `all` |
| Agents.SubagentHidden | OpenCodeClient/OpenCodeClient/Models/AgentInfo.swift:35-36 | A `subagent` is never visible |
| ModelPresets.ModelPreset.Id | OpenCodeClient/OpenCodeClient/Models/ModelPreset.swift:9 | The id is the provider, `/`, then the model |
| ModelPresets.IdSplits | OpenCodeClient/OpenCodeClient/Models/ModelPreset.swift:9 | For a provider without `/`, the id splits back at its first `/` into provider and model |
| ModelPresets.IdInjective | OpenCodeClient/OpenCodeClient/Models/ModelPreset.swift:9 | Presets with `/`-free providers and the same id have the same provider and model |
| ModelPresets.ModelPreset.ShortName | OpenCodeClient/OpenCodeClient/Models/ModelPreset.swift:14-20 | The short name is one of the four family names or the display name |
| ModelPresets.FirstKeywordWins | OpenCodeClient/OpenCodeClient/Models/ModelPreset.swift:15-18 | The first family name found, in the order Opus, Sonnet, Gemini, GPT, is the short name |
| ModelPresets.NoKeywordKeepsName | OpenCodeClient/OpenCodeClient/Models/ModelPreset.swift:19 | With none of the family names, the display name is shown unchanged |
| ModelPresets.OpusBeforeGpt | OpenCodeClient/OpenCodeClient/Models/ModelPreset.swift:15-18 | A name mentioning both GPT and Opus is shown as `Opus` |
| Todos.TodoItem.IsCompleted | OpenCodeClient/OpenCodeClient/Models/TodoItem.swift:14-16 | Completed only with status `completed` or `cancelled` |
| Todos.CompletedIsDone | OpenCodeClient/OpenCodeClient/Models/TodoItem.swift:15 | Status `completed` is completed |
| Todos.CancelledIsDone | OpenCodeClient/OpenCodeClient/Models/TodoItem.swift:15 | Status `cancelled` is completed |
| Todos.OtherStatusOpen | OpenCodeClient/OpenCodeClient/Models/TodoItem.swift:15 | Every other status is open |
| Todos.PendingAndInProgressOpen | OpenCodeClient/OpenCodeClient/Models/TodoItem.swift:15 | `pending` and `in_progress` are open |
| Todos.CompletionDependsOnStatusOnly | OpenCodeClient/OpenCodeClient/Models/TodoItem.swift:14-16 | Completion depends on the status alone, never on content, priority or id |
| AppErrors.From | OpenCodeClient/OpenCodeClient/Utils/AppError.swift:39-64 | An AppError passes through unchanged; a foreign error never becomes invalid-response, session-not-found or file-not-found |
| AppErrors.FromIdempotent | OpenCodeClient/OpenCodeClient/Utils/AppError.swift:40-42 | Classifying an already classified error changes nothing |
| AppErrors.UnauthorizedFirst | OpenCodeClient/OpenCodeClient/Utils/AppError.swift:46-48 | `401` or `Unauthorized` in the description gives unauthorized, whatever else the description or domain says |
| AppErrors.Http401IsUnauthorized | OpenCodeClient/OpenCodeClient/Utils/AppError.swift:46-56 | `HTTP 401` is unauthorized, not a server error |
| AppErrors.ClassificationOrder | OpenCodeClient/OpenCodeClient/Utils/AppError.swift:50-63 | Then `invalid URL` gives operation-failed with the localized message, `HTTP` a server error carrying the description, the URL-loading domain a connection failure, and anything else unknown |
| AppErrors.AppError.IsConnectionError | OpenCodeClient/OpenCodeClient/Utils/AppError.swift:68-71 | A connection error is recoverable |
| AppErrors.AppError.IsRecoverable | OpenCodeClient/OpenCodeClient/Utils/AppError.swift:73-80 | Only connection, authorization and server errors are recoverable |
| AppErrors.RecoverableCases | OpenCodeClient/OpenCodeClient/Utils/AppError.swift:73-80 | Exactly connection, authorization and server errors are recoverable |
| AppErrors.ForeignRecoverable | OpenCodeClient/OpenCodeClient/Utils/AppError.swift:46-80 | A foreign error is recoverable exactly when it mentions `401`/`Unauthorized`, or is not an invalid-URL error and mentions `HTTP` or comes from the URL-loading domain |

## Left out

- `URLSession`, the `actor`, `Task` and `AsyncThrowingStream`, and `onTermination` are not modelled. A delivery is the whole byte sequence and how it ended.
- Cancellation is modelled only at the end of the delivered bytes. `Task.checkCancellation()` runs before each byte, so a cancelled stream skips the final flush; this is what `SseClient.StreamPayloads` states.
- JSON text parsing, Foundation's number conversions, UTF-8 decoding with replacement characters, Base64 (RFC 4648, section 4) and `URL(string:)` are parameters, not definitions.
- `SseClient.DecodeEvent`: key order, duplicate keys and `JSONDecoder` options are those of the `parseJson` parameter.
- Swift compares strings by grapheme cluster and canonical equivalence. The model compares Unicode scalars, so a combining mark after `data:`, the space or `(` is treated as a separate character.
- `Text.IsWhitespaceOrNewline` and `Text.IsWhitespace` list the Unicode White_Space scalars and the space separators explicitly; they follow the Unicode version of the list, not a particular OS release.
- `PathNormalizer.MatchFrom`: the ICU regular expression engine is not modelled. The single pattern is specified directly, with `$` matching at the end or before one final line terminator.
- `AppError.localizedDescription` and the `L10n` lookups are left out. The localized invalid-base-URL message is a parameter of `AppErrors.From`.
- NSError bridging is left out: a foreign error is its description plus whether its domain is `NSURLErrorDomain`.
- `Project.swift` (`displayName` wraps `NSString.lastPathComponent`), the SwiftUI views and the store classes are not part of this model; they hold no logic of the modelled core.
- Text.Join: its contract states only the zero- and one-part cases; the general case is its definition, used as is by `SseFraming.FlushedPayload`.
- AnyCodable.ValueRoundTrip: holds only under the hypothesis `AnyCodable.Consistent`, that the reader's number probes read back exactly what the number writers wrote. Foundation's encoder writes an integral Double such as 2.0 as `2`, which the Int probe reads back as an Int, so `Consistent` does not hold for the real reader and writer and the round trip fails for integral Doubles. `AnyCodable.ValueRoundTripUpToIntegralDoubles` states what does hold: the value comes back with such Doubles turned into Ints, and `AnyCodable.IntegralDoubleBecomesInt` shows the change. Foundation's number formatting itself is not modelled.
- Only the default `.throw` strategy of `JSONEncoder.nonConformingFloatEncodingStrategy` is modelled; the strategies that write infinities and NaN as strings are not.
