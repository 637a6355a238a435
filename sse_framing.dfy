/**
 * The byte-level framing of the event stream in `SSEClient.connect`: bytes
 * are collected into lines, each complete line is classified, `data:` line
 * bodies are kept pending, and a blank line (or the end of the stream)
 * flushes the pending lines as one payload text.
 *
 * The pure functions below (`Step`, `Run`, `Flush`) specify the framing;
 * the class `FrameDecoder` is the loop's mutable state, proved against them.
 * Decoding a line's bytes as UTF-8 is a call into Foundation and is the
 * parameter `decodeUtf8`; line classification is on the decoded text, as in
 * the code.
 */
module SseFraming {
  import opened Wrappers
  import Text

  newtype Byte = b: int | 0 <= b < 256

  const Lf: Byte := 0x0A
  const Cr: Byte := 0x0D

  /** The sentinel payload that is never forwarded. */
  const Done: string := "[DONE]"

  /** The loop's two buffers: bytes of the current line, and pending `data:` bodies. */
  datatype Framer = Framer(lineBuffer: seq<Byte>, dataLines: seq<string>)

  const Initial: Framer := Framer([], [])

  /** A framer state together with the payloads emitted while reaching it. */
  datatype Framed = Framed(framer: Framer, out: seq<string>)

  datatype LineKind = Blank | Comment | DataField(body: string) | OtherField

  /** Removes one trailing carriage return, if there is one. */
  function DropTrailingCr(buffer: seq<Byte>): (line: seq<Byte>)
    ensures line <= buffer && |buffer| - 1 <= |line|
    ensures |line| < |buffer| <==> buffer != [] && buffer[|buffer| - 1] == Cr
  {
    if buffer != [] && buffer[|buffer| - 1] == Cr then buffer[..|buffer| - 1] else buffer
  }

  /** The body of a `data:` line: the text after the prefix, less one leading space. */
  function DataBody(line: string): (body: string)
    requires "data:" <= line
    ensures " " <= line[5..] ==> line == "data: " + body
    ensures !(" " <= line[5..]) ==> line == "data:" + body
  {
    var rest := line[5..];
    assert line == line[..5] + rest;
    if " " <= rest then
      assert rest == " " + rest[1..];
      rest[1..]
    else rest
  }

  /** How the loop treats one decoded line. */
  function Classify(line: string): (k: LineKind)
    ensures k.Blank? <==> line == []
    ensures k.Comment? <==> line != [] && line[0] == ':'
    ensures k.DataField? <==> "data:" <= line
    ensures k.DataField? ==> k.body == DataBody(line)
  {
    if line == [] then Blank
    else if ":" <= line then Comment
    else if "data:" <= line then DataField(DataBody(line))
    else OtherField
  }

  /** A payload that can leave the framer: non-empty, not `[DONE]`, trimmed at both ends. */
  ghost predicate Deliverable(payload: string) {
    && payload != []
    && payload != Done
    && !Text.IsWhitespaceOrNewline(payload[0])
    && !Text.IsWhitespaceOrNewline(payload[|payload| - 1])
  }

  /** The text a flush of `lines` hands to the JSON decoder, if any. */
  function FlushedPayload(lines: seq<string>): (r: Option<string>)
    ensures lines == [] ==> r.None?
    ensures r.Some? ==> Deliverable(r.value) && Text.IsInfix(r.value, Text.Join(lines, "\n"))
  {
    if lines == [] then None
    else
      var json := Text.Trim(Text.Join(lines, "\n"), Text.IsWhitespaceOrNewline);
      if json == [] || json == Done then None else Some(json)
  }

  function AsSeq(o: Option<string>): seq<string> {
    if o.Some? then [o.value] else []
  }

  /** `flushEventIfNeeded`: pending lines are always cleared; the line buffer is untouched. */
  function Flush(f: Framer): (r: Framed)
    ensures r.framer.lineBuffer == f.lineBuffer && r.framer.dataLines == []
    ensures |r.out| <= 1 && forall k | 0 <= k < |r.out| :: Deliverable(r.out[k])
    ensures f.dataLines == [] ==> r.out == []
  {
    Framed(Framer(f.lineBuffer, []), AsSeq(FlushedPayload(f.dataLines)))
  }

  /** The handling of a line feed: the buffer becomes a line and is cleared. */
  function EndLine(f: Framer, decodeUtf8: seq<Byte> -> string): (r: Framed)
    ensures r.framer.lineBuffer == []
    ensures |r.out| <= 1 && forall k | 0 <= k < |r.out| :: Deliverable(r.out[k])
    ensures r.out != [] ==> decodeUtf8(DropTrailingCr(f.lineBuffer)) == []
    ensures r.framer.dataLines == [] ||
      (f.dataLines <= r.framer.dataLines && |r.framer.dataLines| <= |f.dataLines| + 1)
  {
    var line := decodeUtf8(DropTrailingCr(f.lineBuffer));
    match Classify(line)
    case Blank => Flush(Framer([], f.dataLines))
    case DataField(body) => Framed(Framer([], f.dataLines + [body]), [])
    case _ => Framed(Framer([], f.dataLines), [])
  }

  /** One iteration of the byte loop. */
  function Step(f: Framer, b: Byte, decodeUtf8: seq<Byte> -> string): (r: Framed)
    ensures |r.out| <= 1 && forall k | 0 <= k < |r.out| :: Deliverable(r.out[k])
    ensures r.out != [] ==> b == Lf
    ensures Lf !in f.lineBuffer ==> Lf !in r.framer.lineBuffer
  {
    if b == Lf then EndLine(f, decodeUtf8)
    else Framed(Framer(f.lineBuffer + [b], f.dataLines), [])
  }

  /** The number of line feeds in `bytes`. */
  function LineFeeds(bytes: seq<Byte>): nat {
    if bytes == [] then 0 else (if bytes[0] == Lf then 1 else 0) + LineFeeds(bytes[1..])
  }

  /** The byte loop over `bytes`: the final state and the payloads flushed on the way. */
  function Run(f: Framer, bytes: seq<Byte>, decodeUtf8: seq<Byte> -> string): (r: Framed)
    ensures |r.out| <= LineFeeds(bytes)
    decreases |bytes|
  {
    if bytes == [] then Framed(f, [])
    else
      var first := Step(f, bytes[0], decodeUtf8);
      var rest := Run(first.framer, bytes[1..], decodeUtf8);
      Framed(rest.framer, first.out + rest.out)
  }

  /** All payloads of a stream that reaches its end: the loop, then one final flush. */
  function Payloads(bytes: seq<Byte>, decodeUtf8: seq<Byte> -> string): (r: seq<string>)
    ensures |r| <= LineFeeds(bytes) + 1
    ensures forall k | 0 <= k < |r| :: Deliverable(r[k])
  {
    var run := Run(Initial, bytes, decodeUtf8);
    RunEmitsDeliverable(Initial, bytes, decodeUtf8);
    AllDeliverableConcat(run.out, Flush(run.framer).out);
    run.out + Flush(run.framer).out
  }

  lemma AllDeliverableConcat(a: seq<string>, b: seq<string>)
    requires forall k | 0 <= k < |a| :: Deliverable(a[k])
    requires forall k | 0 <= k < |b| :: Deliverable(b[k])
    ensures forall k | 0 <= k < |a + b| :: Deliverable((a + b)[k])
  {
    forall k | 0 <= k < |a + b| ensures Deliverable((a + b)[k]) {
      if k < |a| { assert (a + b)[k] == a[k]; } else { assert (a + b)[k] == b[k - |a|]; }
    }
  }

  // ---------------------------------------------------------------------------
  // One step

  /** A byte other than LF only extends the line buffer. */
  lemma NonLfAppends(f: Framer, b: Byte, decodeUtf8: seq<Byte> -> string)
    requires b != Lf
    ensures Step(f, b, decodeUtf8) == Framed(Framer(f.lineBuffer + [b], f.dataLines), [])
  {
  }

  /** A line feed empties the line buffer and emits at most one payload, and only when the line, less a trailing CR, is blank. */
  lemma LfEndsLine(f: Framer, decodeUtf8: seq<Byte> -> string)
    ensures Step(f, Lf, decodeUtf8).framer.lineBuffer == []
    ensures |Step(f, Lf, decodeUtf8).out| <= 1
    ensures Step(f, Lf, decodeUtf8).out != [] ==> decodeUtf8(DropTrailingCr(f.lineBuffer)) == []
  {
  }

  /** A comment line, or a line that is neither blank nor `data:`, leaves the pending lines alone and emits nothing. */
  lemma IgnoredLineKeepsPending(f: Framer, decodeUtf8: seq<Byte> -> string)
    requires var line := decodeUtf8(DropTrailingCr(f.lineBuffer));
      line != [] && (":" <= line || !("data:" <= line))
    ensures Step(f, Lf, decodeUtf8) == Framed(Framer([], f.dataLines), [])
  {
  }

  /** A `data:` line appends its body: the prefix and at most one following space removed. */
  lemma DataLineAppends(f: Framer, decodeUtf8: seq<Byte> -> string, rest: string)
    requires decodeUtf8(DropTrailingCr(f.lineBuffer)) == "data:" + rest
    ensures var body := if " " <= rest then rest[1..] else rest;
      Step(f, Lf, decodeUtf8) == Framed(Framer([], f.dataLines + [body]), [])
  {
    var line := "data:" + rest;
    assert line[5..] == rest;
    assert !(":" <= line) by { assert line[0] == 'd'; }
  }

  /** A blank line flushes the pending lines. */
  lemma BlankLineFlushes(f: Framer, decodeUtf8: seq<Byte> -> string)
    requires decodeUtf8(DropTrailingCr(f.lineBuffer)) == []
    ensures Step(f, Lf, decodeUtf8) == Framed(Framer([], []), AsSeq(FlushedPayload(f.dataLines)))
  {
  }

  /**
   * A flush with nothing pending emits nothing; otherwise it emits the
   * trimmed, LF-joined lines exactly when they are neither empty nor `[DONE]`,
   * and whatever it emits is deliverable.
   */
  lemma FlushSpec(lines: seq<string>)
    ensures lines == [] ==> FlushedPayload(lines) == None
    ensures lines != [] ==>
      var json := Text.Trim(Text.Join(lines, "\n"), Text.IsWhitespaceOrNewline);
      FlushedPayload(lines) == (if json == [] || json == Done then None else Some(json))
    ensures FlushedPayload(lines).Some? ==> Deliverable(FlushedPayload(lines).value)
  {
  }

  /** A single pending line that needs no trimming is delivered verbatim. */
  lemma SingleLinePayload(line: string)
    requires line != [] && line != Done
    requires !Text.IsWhitespaceOrNewline(line[0]) && !Text.IsWhitespaceOrNewline(line[|line| - 1])
    ensures FlushedPayload([line]) == Some(line)
  {
  }

  /** Lines that join to whitespace only, or trim to the sentinel, produce no payload. */
  lemma BlankOrDoneSuppressed(lines: seq<string>)
    requires lines != []
    requires var joined := Text.Join(lines, "\n");
      (forall i | 0 <= i < |joined| :: Text.IsWhitespaceOrNewline(joined[i])) ||
      Text.Trim(joined, Text.IsWhitespaceOrNewline) == Done
    ensures FlushedPayload(lines) == None
  {
  }

  // ---------------------------------------------------------------------------
  // Whole streams

  /** Chunk-boundary independence: running over `a + b` is running over `a`, then over `b`. */
  lemma {:induction false} RunConcat(f: Framer, a: seq<Byte>, b: seq<Byte>, decodeUtf8: seq<Byte> -> string)
    ensures Run(f, a + b, decodeUtf8) ==
      var first := Run(f, a, decodeUtf8);
      var second := Run(first.framer, b, decodeUtf8);
      Framed(second.framer, first.out + second.out)
    decreases |a|
  {
    if a == [] {
      assert a + b == b;
    } else {
      assert (a + b)[0] == a[0] && (a + b)[1..] == a[1..] + b;
      var g := Step(f, a[0], decodeUtf8);
      RunConcat(g.framer, a[1..], b, decodeUtf8);
      var first := Run(g.framer, a[1..], decodeUtf8);
      var second := Run(first.framer, b, decodeUtf8);
      assert g.out + (first.out + second.out) == (g.out + first.out) + second.out;
    }
  }

  /** The loop over the first `i + 1` bytes is the loop over the first `i`, then one step. */
  lemma RunPrefixStep(bytes: seq<Byte>, i: nat, decodeUtf8: seq<Byte> -> string)
    requires i < |bytes|
    ensures Run(Initial, bytes[..i + 1], decodeUtf8) ==
      var first := Run(Initial, bytes[..i], decodeUtf8);
      var last := Step(first.framer, bytes[i], decodeUtf8);
      Framed(last.framer, first.out + last.out)
  {
    assert bytes[..i + 1] == bytes[..i] + [bytes[i]];
    RunSnoc(Initial, bytes[..i], bytes[i], decodeUtf8);
  }

  /** Feeding one byte after `bytes` is one more step of the loop. */
  lemma RunSnoc(f: Framer, bytes: seq<Byte>, b: Byte, decodeUtf8: seq<Byte> -> string)
    ensures Run(f, bytes + [b], decodeUtf8) ==
      var first := Run(f, bytes, decodeUtf8);
      var last := Step(first.framer, b, decodeUtf8);
      Framed(last.framer, first.out + last.out)
  {
    RunConcat(f, bytes, [b], decodeUtf8);
    var first := Run(f, bytes, decodeUtf8);
    var last := Step(first.framer, b, decodeUtf8);
    assert Run(first.framer, [b], decodeUtf8) == Framed(last.framer, last.out + []);
    assert last.out + [] == last.out;
  }

  /** Bytes with no line feed only extend the line buffer. */
  lemma {:induction false} RunWithoutLf(f: Framer, bytes: seq<Byte>, decodeUtf8: seq<Byte> -> string)
    requires Lf !in bytes
    ensures Run(f, bytes, decodeUtf8) == Framed(Framer(f.lineBuffer + bytes, f.dataLines), [])
    decreases |bytes|
  {
    if bytes == [] {
      assert f.lineBuffer + bytes == f.lineBuffer;
    } else {
      RunWithoutLf(Framer(f.lineBuffer + [bytes[0]], f.dataLines), bytes[1..], decodeUtf8);
      assert f.lineBuffer + [bytes[0]] + bytes[1..] == f.lineBuffer + bytes;
    }
  }

  /** A complete line (its bytes, then LF) is one line-level transition. */
  lemma FeedLine(f: Framer, line: seq<Byte>, decodeUtf8: seq<Byte> -> string)
    requires Lf !in line
    ensures Run(f, line + [Lf], decodeUtf8) == EndLine(Framer(f.lineBuffer + line, f.dataLines), decodeUtf8)
  {
    RunWithoutLf(f, line, decodeUtf8);
    RunSnoc(f, line, Lf, decodeUtf8);
    var last := EndLine(Framer(f.lineBuffer + line, f.dataLines), decodeUtf8);
    assert [] + last.out == last.out;
  }

  /** A trailing CR does not change how a line ends, when the line did not already end in CR. */
  lemma EndLineIgnoresCr(f: Framer, decodeUtf8: seq<Byte> -> string)
    requires f.lineBuffer == [] || f.lineBuffer[|f.lineBuffer| - 1] != Cr
    ensures EndLine(Framer(f.lineBuffer + [Cr], f.dataLines), decodeUtf8) == EndLine(f, decodeUtf8)
  {
    assert DropTrailingCr(f.lineBuffer + [Cr]) == f.lineBuffer;
    assert DropTrailingCr(f.lineBuffer) == f.lineBuffer;
  }

  /** CR LF ends a line exactly as LF does, when the line did not already end in CR. */
  lemma CrLfLikeLf(f: Framer, line: seq<Byte>, decodeUtf8: seq<Byte> -> string)
    requires Lf !in line
    requires var all := f.lineBuffer + line; all == [] || all[|all| - 1] != Cr
    ensures Run(f, line + [Cr, Lf], decodeUtf8) == Run(f, line + [Lf], decodeUtf8)
  {
    var withCr := line + [Cr];
    var g := Framer(f.lineBuffer + line, f.dataLines);
    assert Run(f, line + [Cr, Lf], decodeUtf8) == EndLine(Framer(g.lineBuffer + [Cr], g.dataLines), decodeUtf8) by {
      assert line + [Cr, Lf] == withCr + [Lf];
      assert Lf !in withCr;
      FeedLine(f, withCr, decodeUtf8);
      assert f.lineBuffer + withCr == g.lineBuffer + [Cr];
    }
    assert Run(f, line + [Lf], decodeUtf8) == EndLine(g, decodeUtf8) by {
      FeedLine(f, line, decodeUtf8);
    }
    EndLineIgnoresCr(g, decodeUtf8);
  }

  /** A keep-alive comment line changes nothing but the line buffer and emits nothing. */
  lemma KeepAliveSilent(f: Framer, line: seq<Byte>, decodeUtf8: seq<Byte> -> string)
    requires Lf !in line
    requires ":" <= decodeUtf8(DropTrailingCr(f.lineBuffer + line))
    ensures Run(f, line + [Lf], decodeUtf8) == Framed(Framer([], f.dataLines), [])
  {
    FeedLine(f, line, decodeUtf8);
    IgnoredLineKeepsPending(Framer(f.lineBuffer + line, f.dataLines), decodeUtf8);
  }

  /**
   * An event whose blank line never arrives is still surfaced by the final
   * flush: a lone `data:` line followed by the end of the stream yields its body.
   */
  lemma UnterminatedEventSurfaced(line: seq<Byte>, body: string, decodeUtf8: seq<Byte> -> string)
    requires Lf !in line
    requires decodeUtf8(DropTrailingCr(line)) == "data:" + body
    requires body != [] && body != Done && !(" " <= body)
    requires !Text.IsWhitespaceOrNewline(body[0]) && !Text.IsWhitespaceOrNewline(body[|body| - 1])
    ensures Run(Initial, line + [Lf], decodeUtf8).out == []
    ensures Payloads(line + [Lf], decodeUtf8) == [body]
  {
    FeedLine(Initial, line, decodeUtf8);
    assert Initial.lineBuffer + line == line;
    DataLineAppends(Framer(line, []), decodeUtf8, body);
    assert Run(Initial, line + [Lf], decodeUtf8) == Framed(Framer([], [body]), []);
    SingleLinePayload(body);
  }

  /** Bytes after the last line feed never produce a payload: an unterminated final line is lost. */
  lemma TrailingPartialLineLost(bytes: seq<Byte>, tail: seq<Byte>, decodeUtf8: seq<Byte> -> string)
    requires Lf !in tail
    ensures Payloads(bytes + tail, decodeUtf8) == Payloads(bytes, decodeUtf8)
  {
    RunConcat(Initial, bytes, tail, decodeUtf8);
    var run := Run(Initial, bytes, decodeUtf8);
    RunWithoutLf(run.framer, tail, decodeUtf8);
    assert run.out + [] == run.out;
  }

  /** The line buffer never holds a line feed. */
  lemma {:induction false} RunKeepsLineBufferLfFree(f: Framer, bytes: seq<Byte>, decodeUtf8: seq<Byte> -> string)
    requires Lf !in f.lineBuffer
    ensures Lf !in Run(f, bytes, decodeUtf8).framer.lineBuffer
    decreases |bytes|
  {
    if bytes != [] {
      RunKeepsLineBufferLfFree(Step(f, bytes[0], decodeUtf8).framer, bytes[1..], decodeUtf8);
    }
  }

  lemma StepEmitsDeliverable(f: Framer, b: Byte, decodeUtf8: seq<Byte> -> string)
    ensures forall k | 0 <= k < |Step(f, b, decodeUtf8).out| :: Deliverable(Step(f, b, decodeUtf8).out[k])
  {
    var out := Step(f, b, decodeUtf8).out;
    if out != [] {
      assert b == Lf && decodeUtf8(DropTrailingCr(f.lineBuffer)) == [];
      assert out == AsSeq(FlushedPayload(f.dataLines));
      FlushedDeliverable(f.dataLines);
    }
  }

  /** Every payload the loop emits is non-empty, trimmed and not `[DONE]`. */
  lemma {:induction false} RunEmitsDeliverable(f: Framer, bytes: seq<Byte>, decodeUtf8: seq<Byte> -> string)
    ensures forall k | 0 <= k < |Run(f, bytes, decodeUtf8).out| :: Deliverable(Run(f, bytes, decodeUtf8).out[k])
    decreases |bytes|
  {
    if bytes != [] {
      var first := Step(f, bytes[0], decodeUtf8);
      var rest := Run(first.framer, bytes[1..], decodeUtf8);
      StepEmitsDeliverable(f, bytes[0], decodeUtf8);
      RunEmitsDeliverable(first.framer, bytes[1..], decodeUtf8);
      var all := first.out + rest.out;
      assert Run(f, bytes, decodeUtf8).out == all;
      forall k | 0 <= k < |all| ensures Deliverable(all[k]) {
        if k >= |first.out| {
          assert all[k] == rest.out[k - |first.out|];
        }
      }
    }
  }

  lemma FlushedDeliverable(lines: seq<string>)
    requires FlushedPayload(lines).Some?
    ensures Deliverable(FlushedPayload(lines).value)
  {
    FlushSpec(lines);
  }

  lemma EmittedStaysDeliverable(emitted: seq<string>, payload: string)
    requires forall k | 0 <= k < |emitted| :: Deliverable(emitted[k])
    requires Deliverable(payload)
    ensures forall k | 0 <= k < |emitted + [payload]| :: Deliverable((emitted + [payload])[k])
  {
    forall k | 0 <= k < |emitted + [payload]| ensures Deliverable((emitted + [payload])[k]) {
      if k < |emitted| { assert (emitted + [payload])[k] == emitted[k]; }
    }
  }

  // ---------------------------------------------------------------------------
  // The loop's mutable state

  class FrameDecoder {
    var lineBuffer: seq<Byte>
    var dataLines: seq<string>
    /** Every payload text flushed so far. */
    ghost var emitted: seq<string>
    const decodeUtf8: seq<Byte> -> string

    function State(): Framer
      reads this
    {
      Framer(lineBuffer, dataLines)
    }

    ghost predicate Valid()
      reads this
    {
      && Lf !in lineBuffer
      && forall k | 0 <= k < |emitted| :: Deliverable(emitted[k])
    }

    constructor (decodeUtf8: seq<Byte> -> string)
      ensures Valid() && State() == Initial && emitted == []
      ensures this.decodeUtf8 == decodeUtf8
    {
      lineBuffer := [];
      dataLines := [];
      emitted := [];
      this.decodeUtf8 := decodeUtf8;
    }

    /** `flushEventIfNeeded`, returning the payload text it hands to the JSON decoder. */
    method FlushEventIfNeeded() returns (payload: Option<string>)
      requires Valid()
      modifies this
      ensures Valid()
      ensures State() == Flush(old(State())).framer
      ensures AsSeq(payload) == Flush(old(State())).out
      ensures emitted == old(emitted) + AsSeq(payload)
    {
      if dataLines == [] {
        return None;
      }
      ghost var expected := FlushedPayload(dataLines);
      var json := Text.Trim(Text.Join(dataLines, "\n"), Text.IsWhitespaceOrNewline);
      dataLines := [];
      if json == [] || json == Done {
        assert expected == None;
        return None;
      }
      assert expected == Some(json);
      payload := Some(json);
      FlushedDeliverable(old(dataLines));
      EmittedStaysDeliverable(emitted, json);
      emitted := emitted + [json];
    }

    /** One iteration of the byte loop. */
    method FeedByte(b: Byte) returns (payload: Option<string>)
      requires Valid()
      modifies this
      ensures Valid()
      ensures State() == Step(old(State()), b, decodeUtf8).framer
      ensures AsSeq(payload) == Step(old(State()), b, decodeUtf8).out
      ensures emitted == old(emitted) + AsSeq(payload)
    {
      if b == Lf {
        var line := decodeUtf8(DropTrailingCr(lineBuffer));
        lineBuffer := [];
        if line == [] {
          payload := FlushEventIfNeeded();
          return;
        }
        if ":" <= line {
          return None;
        }
        if "data:" <= line {
          var body := line[5..];
          if " " <= body {
            body := body[1..];
          }
          dataLines := dataLines + [body];
        }
        return None;
      }
      lineBuffer := lineBuffer + [b];
      payload := None;
    }
  }
}
