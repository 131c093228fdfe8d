/** The chat stream of the Ollama client: the response body arrives as decoded
    text chunks, is framed into newline-terminated records, and each record is
    decoded as a streaming envelope that yields a text delta, ends the stream
    or fails it. */
module OllamaStream {
  import opened Strings
  import opened Types

  /** One parsed record of the stream: `message.content`, `done` and `error`
      (the other fields are never read). */
  datatype Envelope = Envelope(content: Option<string>, done: bool, error: Option<string>)

  /** `JSON.parse` read as an envelope; `None` is a `SyntaxError`. */
  type Parser = string -> Option<Envelope>

  /** Where decoding of the complete lines stands. */
  datatype Status = Streaming | Finished | Failed(message: string)

  /** The deltas yielded so far and the current status. */
  datatype Progress = Progress(deltas: seq<string>, status: Status)

  const Start: Progress := Progress([], Streaming)

  /** One complete line, as the body of the `for (const line of lines)` loop
      treats it: blank lines and lines that do not parse are skipped, an
      `error` field fails the stream, a non-empty content is yielded and
      `done` finishes the stream. Nothing happens once the stream stopped. */
  function DecodeLine(p: Progress, line: string, parse: Parser): (r: Progress)
    ensures p.status != Streaming ==> r == p
    ensures |p.deltas| <= |r.deltas| <= |p.deltas| + 1 && r.deltas[..|p.deltas|] == p.deltas
    ensures |r.deltas| > |p.deltas| ==> r.deltas[|p.deltas|] != [] && !r.status.Failed?
    ensures IsBlank(line) ==> r == p
  {
    if p.status != Streaming then p
    else
      var trimmed := Trim(line);
      if trimmed == [] then p
      else
        match parse(trimmed)
        case None => p
        case Some(e) =>
          if Truthy(e.error) then Progress(p.deltas, Failed(e.error.value))
          else
            var deltas := if Truthy(e.content) then p.deltas + [e.content.value] else p.deltas;
            Progress(deltas, if e.done then Finished else Streaming)
  }

  /** The complete lines, in arrival order. */
  function DecodeLines(p: Progress, lines: seq<string>, parse: Parser): Progress
  {
    if lines == [] then p
    else DecodeLine(DecodeLines(p, lines[..|lines| - 1], parse), lines[|lines| - 1], parse)
  }

  /** The unterminated rest of the body at end of input: parsed once, untrimmed,
      and whatever goes wrong there (no parse, an `error` field) yields nothing
      and fails nothing. */
  function FinalDeltas(buffer: string, parse: Parser): (r: seq<string>)
    ensures |r| <= 1
    ensures r != [] ==> !IsBlank(buffer) && parse(buffer).Some? && !Truthy(parse(buffer).value.error)
                        && Truthy(parse(buffer).value.content) && r == [parse(buffer).value.content.value]
    ensures (!IsBlank(buffer) && parse(buffer).Some? && !Truthy(parse(buffer).value.error)
             && Truthy(parse(buffer).value.content)) ==> r == [parse(buffer).value.content.value]
  {
    if IsBlank(buffer) then []
    else
      match parse(buffer)
      case None => []
      case Some(e) => if !Truthy(e.error) && Truthy(e.content) then [e.content.value] else []
  }

  /** How reading the body ended after the chunks that were read. */
  datatype ReadEnd =
    | EndOfBody
    | ReadRejected(name: string, message: string)

  /** What `fetch` of `/api/chat` produced: a rejected fetch, a non-OK status
      (with the `error` field of its JSON body when that parsed), a response
      without a body, or a body read as a sequence of decoded chunks. */
  datatype ChatResponse =
    | FetchRejected(name: string, message: string)
    | HttpError(statusText: string, errorField: Option<string>)
    | NoBody
    | Body(chunks: seq<string>, ending: ReadEnd)

  /** All a consumer of the stream observes: the deltas in order, then either a
      normal end (`None`) or a failure with its message. */
  datatype StreamResult = StreamResult(deltas: seq<string>, failure: Option<string>)

  const AbortErrorName: string := "AbortError"

  const NoBodyMessage: string := "ReadableStream not supported in this browser."

  function Concat(chunks: seq<string>): string
  {
    if chunks == [] then [] else Concat(chunks[..|chunks| - 1]) + chunks[|chunks| - 1]
  }

  /** The complete (newline-terminated) lines of `body`. */
  function Lines(body: string): seq<string>
  {
    var pieces := Split(body, '\n');
    pieces[..|pieces| - 1]
  }

  /** The text after the last newline of `body`. */
  function Rest(body: string): string
  {
    var pieces := Split(body, '\n');
    pieces[|pieces| - 1]
  }

  /** The stream as a function of the whole body text: the complete lines are
      decoded in order; if they neither finish nor fail the stream, a normal end
      of input decodes the rest once, an abort ends silently and any other read
      failure fails the stream with its message. */
  function BodyOutcome(body: string, ending: ReadEnd, parse: Parser): (r: StreamResult)
    ensures var p := DecodeLines(Start, Lines(body), parse);
            && |p.deltas| <= |r.deltas| <= |p.deltas| + 1 && r.deltas[..|p.deltas|] == p.deltas
            && (|r.deltas| > |p.deltas| ==> p.status == Streaming && ending == EndOfBody)
            && (r.failure.Some? ==> p.status == Failed(r.failure.value)
                                    || (p.status == Streaming && ending.ReadRejected?
                                        && ending.name != AbortErrorName && r.failure.value == ending.message))
  {
    var p := DecodeLines(Start, Lines(body), parse);
    match p.status
    case Finished => StreamResult(p.deltas, None)
    case Failed(m) => StreamResult(p.deltas, Some(m))
    case Streaming =>
      match ending
      case EndOfBody => StreamResult(p.deltas + FinalDeltas(Rest(body), parse), None)
      case ReadRejected(name, m) =>
        StreamResult(p.deltas, if name == AbortErrorName then None else Some(m))
  }

  /** The whole of `streamChat` as seen by its consumer. */
  function ResponseOutcome(response: ChatResponse, parse: Parser): (r: StreamResult)
    ensures !response.Body? ==> r.deltas == []
    ensures !response.Body? && r.failure.None? ==> response.FetchRejected? && response.name == AbortErrorName
    ensures (response.HttpError? && !Truthy(response.errorField))
            ==> r.failure == Some("Ollama API Error: " + response.statusText)
  {
    match response
    case FetchRejected(name, m) => StreamResult([], if name == AbortErrorName then None else Some(m))
    case HttpError(statusText, field) =>
      StreamResult([], Some(if Truthy(field) then field.value else "Ollama API Error: " + statusText))
    case NoBody => StreamResult([], Some(NoBodyMessage))
    case Body(chunks, ending) => BodyOutcome(Concat(chunks), ending, parse)
  }

  /** The stream fails exactly when a complete line carried an `error`, or when
      reading failed for any reason but an abort while the stream was open;
      the failure is then that error's message. */
  lemma BodyFailure(body: string, ending: ReadEnd, parse: Parser)
    ensures var p := DecodeLines(Start, Lines(body), parse);
            var r := BodyOutcome(body, ending, parse);
            && (p.status.Failed? ==> r.failure == Some(p.status.message))
            && ((p.status == Streaming && ending.ReadRejected? && ending.name != AbortErrorName)
                ==> r.failure == Some(ending.message))
  {
  }

  /** The failures before the body is read: a rejected fetch fails with its
      message unless it was aborted, a non-OK status with the server's `error`
      text when there is one, and a missing body with its fixed message. */
  lemma ResponseFailure(response: ChatResponse, parse: Parser)
    ensures var r := ResponseOutcome(response, parse);
            && ((response.FetchRejected? && response.name != AbortErrorName) ==> r.failure == Some(response.message))
            && ((response.HttpError? && Truthy(response.errorField)) ==> r.failure == response.errorField)
            && (response.NoBody? ==> r.failure == Some(NoBodyMessage))
  {
  }

  // ---------------------------------------------------------------------------
  // Properties of the decoder

  lemma {:induction false} DecodeAppend(p: Progress, xs: seq<string>, ys: seq<string>, parse: Parser)
    ensures DecodeLines(p, xs + ys, parse) == DecodeLines(DecodeLines(p, xs, parse), ys, parse)
  {
    if ys != [] {
      assert (xs + ys)[..|xs + ys| - 1] == xs + ys[..|ys| - 1];
      DecodeAppend(p, xs, ys[..|ys| - 1], parse);
    } else {
      assert xs + ys == xs;
    }
  }

  lemma {:induction false} DecodeSnoc(p: Progress, xs: seq<string>, x: string, parse: Parser)
    ensures DecodeLines(p, xs + [x], parse) == DecodeLine(DecodeLines(p, xs, parse), x, parse)
  {
    assert (xs + [x])[..|xs + [x]| - 1] == xs;
  }

  lemma {:induction false} DecodeNextLine(framed: seq<string>, lines: seq<string>, used: nat, parse: Parser)
    requires used < |lines|
    ensures DecodeLines(Start, framed + lines[..used + 1], parse)
            == DecodeLine(DecodeLines(Start, framed + lines[..used], parse), lines[used], parse)
  {
    assert framed + lines[..used + 1] == (framed + lines[..used]) + [lines[used]];
    DecodeSnoc(Start, framed + lines[..used], lines[used], parse);
  }

  /** `done` and `error` stop processing: no later line is looked at. */
  lemma {:induction false} StoppedStaysStopped(p: Progress, ys: seq<string>, parse: Parser)
    requires p.status != Streaming
    ensures DecodeLines(p, ys, parse) == p
  {
    if ys != [] {
      StoppedStaysStopped(p, ys[..|ys| - 1], parse);
    }
  }

  /** A whitespace-only line is never parsed: removing it changes nothing. */
  lemma {:induction false} BlankLineSkipped(p: Progress, xs: seq<string>, line: string, ys: seq<string>, parse: Parser)
    requires IsBlank(line)
    ensures DecodeLines(p, xs + [line] + ys, parse) == DecodeLines(p, xs + ys, parse)
  {
    DecodeAppend(p, xs + [line], ys, parse);
    DecodeAppend(p, xs, ys, parse);
    assert (xs + [line])[..|xs + [line]| - 1] == xs;
  }

  /** A line that does not parse is skipped and decoding goes on. */
  lemma {:induction false} MalformedLineSkipped(p: Progress, xs: seq<string>, line: string, ys: seq<string>, parse: Parser)
    requires parse(Trim(line)).None?
    ensures DecodeLines(p, xs + [line] + ys, parse) == DecodeLines(p, xs + ys, parse)
  {
    DecodeAppend(p, xs + [line], ys, parse);
    DecodeAppend(p, xs, ys, parse);
    assert (xs + [line])[..|xs + [line]| - 1] == xs;
  }

  /** A line with an `error` field fails the stream with exactly that text,
      yields nothing from that line, and nothing after it is decoded. */
  lemma {:induction false} ErrorLineFails(xs: seq<string>, line: string, ys: seq<string>, parse: Parser, message: string)
    requires DecodeLines(Start, xs, parse).status == Streaming
    requires !IsBlank(line) && parse(Trim(line)).Some?
    requires parse(Trim(line)).value.error == Some(message) && message != []
    ensures DecodeLines(Start, xs + [line] + ys, parse)
            == Progress(DecodeLines(Start, xs, parse).deltas, Failed(message))
  {
    DecodeAppend(Start, xs + [line], ys, parse);
    assert (xs + [line])[..|xs + [line]| - 1] == xs;
    StoppedStaysStopped(DecodeLines(Start, xs + [line], parse), ys, parse);
  }

  /** A `done` envelope yields its content (if any) and ends the stream:
      later lines are not read. */
  lemma {:induction false} DoneLineFinishes(xs: seq<string>, line: string, ys: seq<string>, parse: Parser)
    requires DecodeLines(Start, xs, parse).status == Streaming
    requires !IsBlank(line) && parse(Trim(line)).Some?
    requires !Truthy(parse(Trim(line)).value.error) && parse(Trim(line)).value.done
    ensures var e := parse(Trim(line)).value;
            var before := DecodeLines(Start, xs, parse).deltas;
            DecodeLines(Start, xs + [line] + ys, parse)
            == Progress(if Truthy(e.content) then before + [e.content.value] else before, Finished)
  {
    DecodeAppend(Start, xs + [line], ys, parse);
    assert (xs + [line])[..|xs + [line]| - 1] == xs;
    StoppedStaysStopped(DecodeLines(Start, xs + [line], parse), ys, parse);
  }

  /** An ordinary envelope (parsed, no `error`, not `done`) yields its content
      when that is non-empty, nothing when it is empty or missing, and the
      stream goes on. */
  lemma {:induction false} ContentLineContinues(xs: seq<string>, line: string, parse: Parser)
    requires DecodeLines(Start, xs, parse).status == Streaming
    requires !IsBlank(line) && parse(Trim(line)).Some?
    requires !Truthy(parse(Trim(line)).value.error) && !parse(Trim(line)).value.done
    ensures var e := parse(Trim(line)).value;
            var before := DecodeLines(Start, xs, parse).deltas;
            DecodeLines(Start, xs + [line], parse)
            == Progress(if Truthy(e.content) then before + [e.content.value] else before, Streaming)
  {
    assert (xs + [line])[..|xs + [line]| - 1] == xs;
  }

  /** One line adds at most one delta, and never an empty one. */
  lemma DecodeLineExtends(p: Progress, line: string, parse: Parser)
    ensures var d := DecodeLine(p, line, parse).deltas;
            d == p.deltas || (d == p.deltas + [d[|d| - 1]] && d[|d| - 1] != [])
  {
  }

  /** Deltas only ever grow at the end: what was yielded is never revised. */
  lemma {:induction false} DeltasOnlyGrow(p: Progress, xs: seq<string>, ys: seq<string>, parse: Parser)
    ensures var before := DecodeLines(p, xs, parse).deltas;
            var after := DecodeLines(p, xs + ys, parse).deltas;
            |before| <= |after| && after[..|before|] == before
  {
    if ys != [] {
      var init := ys[..|ys| - 1];
      assert xs + ys == (xs + init) + [ys[|ys| - 1]];
      DecodeSnoc(p, xs + init, ys[|ys| - 1], parse);
      DecodeLineExtends(DecodeLines(p, xs + init, parse), ys[|ys| - 1], parse);
      DeltasOnlyGrow(p, xs, init, parse);
    } else {
      assert xs + ys == xs;
    }
  }

  /** Every delta is a non-empty content, and there is at most one per line. */
  lemma {:induction false} DeltasAreNonEmpty(lines: seq<string>, parse: Parser)
    ensures var d := DecodeLines(Start, lines, parse).deltas;
            |d| <= |lines| && forall k :: 0 <= k < |d| ==> d[k] != []
  {
    if lines != [] {
      DeltasAreNonEmpty(lines[..|lines| - 1], parse);
      DecodeLineExtends(DecodeLines(Start, lines[..|lines| - 1], parse), lines[|lines| - 1], parse);
    }
  }

  // ---------------------------------------------------------------------------
  // Framing

  lemma {:induction false} ConcatAppend(xs: seq<string>, ys: seq<string>)
    ensures Concat(xs + ys) == Concat(xs) + Concat(ys)
  {
    if ys != [] {
      assert (xs + ys)[..|xs + ys| - 1] == xs + ys[..|ys| - 1];
      ConcatAppend(xs, ys[..|ys| - 1]);
    } else {
      assert xs + ys == xs;
    }
  }

  /** Feeding more text keeps every line already framed: the complete lines of
      `a + b` are those of `a` followed by those of `Rest(a) + b`. */
  lemma {:induction false} LinesAppend(a: string, b: string)
    ensures Lines(a + b) == Lines(a) + Lines(Rest(a) + b)
    ensures Rest(a + b) == Rest(Rest(a) + b)
  {
    var pa, pb := Split(a, '\n'), Split(Rest(a) + b, '\n');
    SplitAppend(a, b, '\n');
    InitAndLastOfAppend(pa[..|pa| - 1], pb);
  }

  /** Dropping or taking the last element of `init + tail` only looks at `tail`. */
  lemma InitAndLastOfAppend(init: seq<string>, tail: seq<string>)
    requires |tail| >= 1
    ensures (init + tail)[..|init + tail| - 1] == init + tail[..|tail| - 1]
    ensures (init + tail)[|init + tail| - 1] == tail[|tail| - 1]
  {
  }

  /** Once the decoded prefix of the lines stopped, the rest of the body and how
      reading ended no longer matter. */
  lemma {:induction false} StopIsFinal(body: string, done: seq<string>, more: seq<string>, ending: ReadEnd, parse: Parser)
    requires Lines(body) == done + more
    requires DecodeLines(Start, done, parse).status != Streaming
    ensures var p := DecodeLines(Start, done, parse);
            BodyOutcome(body, ending, parse)
            == StreamResult(p.deltas, if p.status.Failed? then Some(p.status.message) else None)
  {
    DecodeAppend(Start, done, more, parse);
    StoppedStaysStopped(DecodeLines(Start, done, parse), more, parse);
  }

  /** Cancellation is not an error: an aborted fetch ends with nothing, and an
      abort while reading ends after the complete lines read so far without
      looking at the unterminated rest. */
  lemma AbortIsSilent(chunks: seq<string>, message: string, parse: Parser)
    ensures ResponseOutcome(FetchRejected(AbortErrorName, message), parse) == StreamResult([], None)
    ensures var p := DecodeLines(Start, Lines(Concat(chunks)), parse);
            ResponseOutcome(Body(chunks, ReadRejected(AbortErrorName, message)), parse)
            == StreamResult(p.deltas, if p.status.Failed? then Some(p.status.message) else None)
  {
  }

  /** Nothing in the unterminated rest of the body can fail the stream: a
      failure always comes from a complete line's `error` field, and the rest
      adds at most one delta. */
  lemma FinalRecordNeverFails(chunks: seq<string>, parse: Parser)
    ensures var r := ResponseOutcome(Body(chunks, EndOfBody), parse);
            var p := DecodeLines(Start, Lines(Concat(chunks)), parse);
            && (r.failure.Some? ==> p.status == Failed(r.failure.value))
            && |r.deltas| <= |p.deltas| + 1
            && r.deltas[..|p.deltas|] == p.deltas
  {
  }

  /** The `for (const line of lines)` loop over the complete lines of one
      chunk: it decodes them in order and leaves early on `done` or `error`;
      `used` counts the lines it looked at. */
  method DecodeBatch(ghost framed: seq<string>, lines: seq<string>, deltas0: seq<string>, parse: Parser)
    returns (deltas: seq<string>, status: Status, used: nat)
    requires DecodeLines(Start, framed, parse) == Progress(deltas0, Streaming)
    ensures used <= |lines|
    ensures DecodeLines(Start, framed + lines[..used], parse) == Progress(deltas, status)
    ensures status == Streaming ==> used == |lines|
    ensures used > 0 ==> DecodeLines(Start, framed + lines[..used - 1], parse).status == Streaming
  {
    deltas, status, used := deltas0, Streaming, 0;
    assert framed + lines[..0] == framed;
    while used < |lines| && status == Streaming
      invariant used <= |lines|
      invariant DecodeLines(Start, framed + lines[..used], parse) == Progress(deltas, status)
      invariant used > 0 ==> DecodeLines(Start, framed + lines[..used - 1], parse).status == Streaming
    {
      DecodeNextLine(framed, lines, used, parse);
      var trimmed := Trim(lines[used]);
      if trimmed != [] {
        var parsed := parse(trimmed);
        if parsed.Some? {
          var e := parsed.value;
          if Truthy(e.error) {
            status := Failed(e.error.value);
          } else {
            if Truthy(e.content) {
              deltas := deltas + [e.content.value];
            }
            if e.done {
              status := Finished;
            }
          }
        }
      }
      used := used + 1;
    }
  }

  /** The read loop of `streamChat`: append each chunk to the buffer, split it
      on newlines, keep the last piece as the new buffer, and decode every
      complete line; at the end of the body decode the rest once. Whatever the
      chunk boundaries, this is the decoding of the concatenated body. */
  method ReadBody(chunks: seq<string>, ending: ReadEnd, parse: Parser)
    returns (deltas: seq<string>, failure: Option<string>)
    ensures StreamResult(deltas, failure) == BodyOutcome(Concat(chunks), ending, parse)
  {
    var buffer: string := [];
    deltas := [];
    var i := 0;
    while i < |chunks|
      invariant 0 <= i <= |chunks|
      invariant buffer == Rest(Concat(chunks[..i]))
      invariant DecodeLines(Start, Lines(Concat(chunks[..i])), parse) == Progress(deltas, Streaming)
    {
      ghost var framed := Lines(Concat(chunks[..i]));
      assert chunks[..i + 1][..i] == chunks[..i];
      LinesAppend(Concat(chunks[..i]), chunks[i]);
      var pieces := Split(buffer + chunks[i], '\n');
      buffer := pieces[|pieces| - 1];
      var lines := pieces[..|pieces| - 1];
      var status, used;
      deltas, status, used := DecodeBatch(framed, lines, deltas, parse);
      if status != Streaming {
        failure := if status.Failed? then Some(status.message) else None;
        StopAtLine(chunks, i, framed, lines, used, ending, parse);
        return;
      }
      assert lines[..used] == lines;
      i := i + 1;
    }
    assert chunks[..i] == chunks;
    ghost var body := Concat(chunks);
    ghost var lineDeltas := deltas;
    failure := None;
    match ending
    case EndOfBody =>
      assert BodyOutcome(body, ending, parse) == StreamResult(lineDeltas + FinalDeltas(buffer, parse), None);
      if Trim(buffer) != [] {
        match parse(buffer)
        case None =>
        case Some(e) =>
          if !Truthy(e.error) && Truthy(e.content) {
            deltas := deltas + [e.content.value];
          }
      }
    case ReadRejected(name, message) =>
      if name != AbortErrorName {
        failure := Some(message);
      }
      assert BodyOutcome(body, ending, parse) == StreamResult(deltas, failure);
  }

  /** The proof step of `ReadBody` for a line that stops the stream. */
  lemma {:induction false} StopAtLine(chunks: seq<string>, i: nat, framed: seq<string>, lines: seq<string>, used: nat,
                   ending: ReadEnd, parse: Parser)
    requires i < |chunks| && used <= |lines|
    requires Lines(Concat(chunks[..i + 1])) == framed + lines
    requires DecodeLines(Start, framed + lines[..used], parse).status != Streaming
    ensures var p := DecodeLines(Start, framed + lines[..used], parse);
            BodyOutcome(Concat(chunks), ending, parse)
            == StreamResult(p.deltas, if p.status.Failed? then Some(p.status.message) else None)
  {
    var tail := LinesAfterPrefix(chunks, i + 1);
    var more := lines[used..] + tail;
    assert lines == lines[..used] + lines[used..];
    assert Lines(Concat(chunks)) == (framed + lines[..used]) + more;
    StopIsFinal(Concat(chunks), framed + lines[..used], more, ending, parse);
  }

  /** The complete lines of the first `n` chunks begin the complete lines of
      all of them. */
  lemma {:induction false} LinesAfterPrefix(chunks: seq<string>, n: nat) returns (tail: seq<string>)
    requires n <= |chunks|
    ensures Lines(Concat(chunks)) == Lines(Concat(chunks[..n])) + tail
  {
    var head := Concat(chunks[..n]);
    assert chunks == chunks[..n] + chunks[n..];
    ConcatAppend(chunks[..n], chunks[n..]);
    LinesAppend(head, Concat(chunks[n..]));
    tail := Lines(Rest(head) + Concat(chunks[n..]));
  }
}
