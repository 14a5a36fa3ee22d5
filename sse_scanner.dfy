/** The SSE `data:` line scanner of the bridge's JSON-RPC handler
    (mcp-bridge/bridge.py, the streaming loop of `handle_jsonrpc`).

    The upstream body arrives in chunks whose boundaries need not fall on line
    boundaries. The scanner keeps the unfinished line in a buffer, looks at each
    complete line, and stops at the first `data: ` payload that parses to a
    JSON object carrying a `jsonrpc` key, or at the first payload on which
    `json.loads` raises something other than a decoding error, which ends the
    scan with that error. `FirstMessage` is the same rule stated
    on the whole text at once; `ScanStream` is proved to agree with it whatever
    the chunking. */
module SseScanner {
  import opened Wrappers
  import opened JsonValue
  import PyText

  const DataPrefix: string := "data: "
  const DoneSentinel: string := "[DONE]"

  /** `isinstance(result, dict) and 'jsonrpc' in result`. */
  predicate IsRpcObject(v: Json) {
    HasKey(v, "jsonrpc")
  }

  /** What a line, or the scan of a text, comes to: nothing that stops the scan,
      a JSON-RPC message, or an exception other than `JSONDecodeError` raised
      while decoding a payload. */
  datatype Outcome = Skipped | Message(value: Json) | Raised(detail: string)

  /** The text the upstream sent, in order: the chunks put end to end. */
  function Concat(chunks: seq<string>): string {
    if chunks == [] then "" else chunks[0] + Concat(chunks[1..])
  }

  /** What one complete line comes to: the line is stripped, must start with
      `data: `, and the rest must be neither empty nor `[DONE]`. A payload that
      decodes to an object with a `jsonrpc` key is the message; one that does
      not decode, or decodes to anything else, is skipped; any other exception
      of `json.loads` escapes the `except json.JSONDecodeError` and ends the scan. */
  function LineMessage(raw: string, parse: string -> JsonLoad): (r: Outcome)
    ensures r.Message? ==> IsRpcObject(r.value)
  {
    var line := PyText.Strip(raw);
    if PyText.StartsWith(line, DataPrefix) then
      var payload := line[|DataPrefix|..];
      if payload != "" && payload != DoneSentinel then
        LineOf(parse(payload))
      else Skipped
    else Skipped
  }

  /** The payloads of a line: once stripped, the line is `data: ` followed by
      `payload`, which is neither empty nor the sentinel. Whitespace between the
      prefix and the payload stays in the payload. */
  ghost predicate CarriesPayload(raw: string, payload: string) {
    PyText.Strip(raw) == DataPrefix + payload && payload != "" && payload != DoneSentinel
  }

  /** The line rule in declarative form: a line yields the message `v` exactly
      when its payload decodes to `v`, an object with a `jsonrpc` key; it raises
      `detail` exactly when decoding its payload raises `detail` other than as a
      decoding error; every other line is skipped. */
  lemma LineMessageSpec(raw: string, parse: string -> JsonLoad, v: Json, detail: string)
    ensures LineMessage(raw, parse) == Message(v) <==>
      exists payload :: CarriesPayload(raw, payload) && parse(payload) == Loaded(v) && IsRpcObject(v)
    ensures LineMessage(raw, parse) == Raised(detail) <==>
      exists payload :: CarriesPayload(raw, payload) && parse(payload) == OtherError(detail)
  {
    var line := PyText.Strip(raw);
    if !LineMessage(raw, parse).Skipped? {
      var payload := line[|DataPrefix|..];
      assert line == DataPrefix + payload;
      assert CarriesPayload(raw, payload);
    }
    forall payload | CarriesPayload(raw, payload)
      ensures LineMessage(raw, parse) == LineOf(parse(payload))
    {
      assert line[..|DataPrefix|] == DataPrefix;
      assert line[|DataPrefix|..] == payload;
    }
  }

  /** What a line carrying `loaded` as its decoded payload comes to. */
  function LineOf(loaded: JsonLoad): (r: Outcome)
    ensures r.Message? ==> IsRpcObject(r.value)
  {
    match loaded
    case Loaded(v) => if IsRpcObject(v) then Message(v) else Skipped
    case DecodeError => Skipped
    case OtherError(detail) => Raised(detail)
  }

  /** The outcome of the first complete (`\n`-terminated) line of `text` that is
      not skipped: its message or its error; `Skipped` when every complete line is.
      What follows the last `\n` is not a complete line and is never looked at. */
  function FirstMessage(text: string, parse: string -> JsonLoad): (r: Outcome)
    ensures r.Message? ==> IsRpcObject(r.value)
    decreases |text|
  {
    match PyText.IndexOf(text, '\n')
    case None => Skipped
    case Some(k) =>
      var found := LineMessage(text[..k], parse);
      if !found.Skipped? then found else FirstMessage(text[k + 1..], parse)
  }

  /** The complete lines of `text`: every piece of `text.split('\n')` but the last. */
  function CompleteLines(text: string): seq<string> {
    var pieces := PyText.Split(text, '\n');
    pieces[..|pieces| - 1]
  }

  /** A text with a line break: its first line, then the complete lines of the rest. */
  lemma CompleteLinesStep(text: string, k: nat)
    requires PyText.IndexOf(text, '\n') == Some(k)
    ensures CompleteLines(text) == [text[..k]] + CompleteLines(text[k + 1..])
  {
    var pieces := PyText.Split(text, '\n');
    var rest := PyText.Split(text[k + 1..], '\n');
    assert CompleteLines(text) == pieces[..|pieces| - 1];
    assert CompleteLines(text[k + 1..]) == rest[..|rest| - 1];
    assert pieces == [text[..k]] + rest;
    ConsDropLast(text[..k], rest);
  }

  /** Dropping the last element after a cons drops it from the tail. */
  lemma ConsDropLast<T>(x: T, s: seq<T>)
    requires |s| >= 1
    ensures ([x] + s)[..|s|] == [x] + s[..|s| - 1]
  {
  }

  /** Every line of `lines` is skipped: none carries a message or raises. */
  ghost predicate AllSkipped(lines: seq<string>, parse: string -> JsonLoad) {
    forall i :: 0 <= i < |lines| ==> LineMessage(lines[i], parse).Skipped?
  }

  /** The outcome of the first line in `lines` that is not skipped. */
  function FirstOfLines(lines: seq<string>, parse: string -> JsonLoad): Outcome {
    if lines == [] then Skipped
    else if !LineMessage(lines[0], parse).Skipped? then LineMessage(lines[0], parse)
    else FirstOfLines(lines[1..], parse)
  }

  /** `FirstOfLines` gives line `i`'s outcome exactly when line `i` is not skipped
      and every earlier line is; it is `Skipped` exactly when every line is. */
  lemma {:induction false} FirstOfLinesSpec(lines: seq<string>, parse: string -> JsonLoad)
    ensures FirstOfLines(lines, parse).Skipped? <==> AllSkipped(lines, parse)
    ensures !FirstOfLines(lines, parse).Skipped? ==>
      exists i :: 0 <= i < |lines| && LineMessage(lines[i], parse) == FirstOfLines(lines, parse)
        && AllSkipped(lines[..i], parse)
  {
    if lines != [] {
      var tail := lines[1..];
      FirstOfLinesSpec(tail, parse);
      if !LineMessage(lines[0], parse).Skipped? {
        assert lines[..0] == [];
      } else if !FirstOfLines(tail, parse).Skipped? {
        var i :| 0 <= i < |tail| && LineMessage(tail[i], parse) == FirstOfLines(tail, parse)
          && AllSkipped(tail[..i], parse);
        assert lines[i + 1] == tail[i];
        var upTo := lines[..i + 1];
        forall j | 0 <= j < |upTo| ensures LineMessage(upTo[j], parse).Skipped? {
          if j > 0 { assert upTo[j] == tail[..i][j - 1]; }
        }
      } else {
        forall j | 0 <= j < |lines| ensures LineMessage(lines[j], parse).Skipped? {
          if j > 0 { assert lines[j] == tail[j - 1]; }
        }
      }
    }
  }

  /** The buffer-driven rule and the line-list rule agree. */
  lemma {:induction false} FirstMessageLines(text: string, parse: string -> JsonLoad)
    ensures FirstMessage(text, parse) == FirstOfLines(CompleteLines(text), parse)
    decreases |text|
  {
    match PyText.IndexOf(text, '\n')
    case None =>
      assert CompleteLines(text) == [];
    case Some(k) =>
      CompleteLinesStep(text, k);
      var lines := CompleteLines(text);
      assert lines[0] == text[..k] && lines[1..] == CompleteLines(text[k + 1..]);
      FirstMessageLines(text[k + 1..], parse);
  }

  /** `FirstMessage` is the outcome of the first complete line that is not
      skipped, and is `Skipped` exactly when every complete line is. */
  lemma FirstMessageIsFirstLine(text: string, parse: string -> JsonLoad)
    ensures var lines := CompleteLines(text);
      && (FirstMessage(text, parse).Skipped? <==> AllSkipped(lines, parse))
      && (!FirstMessage(text, parse).Skipped? ==>
            exists i :: 0 <= i < |lines| && LineMessage(lines[i], parse) == FirstMessage(text, parse)
              && AllSkipped(lines[..i], parse))
  {
    FirstMessageLines(text, parse);
    FirstOfLinesSpec(CompleteLines(text), parse);
  }

  /** One step of the scan: when `buffer` holds a complete line, the outcome of
      `buffer + rest` is that line's, unless the line is skipped, and then it is
      the outcome of what follows the line. */
  lemma FirstMessageStep(buffer: string, rest: string, parse: string -> JsonLoad)
    requires '\n' in buffer
    ensures var k := PyText.IndexOf(buffer, '\n').value;
      FirstMessage(buffer + rest, parse) ==
        if !LineMessage(buffer[..k], parse).Skipped? then LineMessage(buffer[..k], parse)
        else FirstMessage(buffer[k + 1..] + rest, parse)
  {
    var k := PyText.IndexOf(buffer, '\n').value;
    var text := buffer + rest;
    PyText.IndexOfAppend(buffer, rest, '\n');
    FirstMessageAt(text, k, parse);
    assert text[..k] == buffer[..k];
    assert text[k + 1..] == buffer[k + 1..] + rest;
  }

  /** One step of `FirstMessage` at the first line break `k`. */
  lemma FirstMessageAt(text: string, k: nat, parse: string -> JsonLoad)
    requires PyText.IndexOf(text, '\n') == Some(k)
    ensures k < |text|
    ensures FirstMessage(text, parse) ==
      if !LineMessage(text[..k], parse).Skipped? then LineMessage(text[..k], parse)
      else FirstMessage(text[k + 1..], parse)
  {
    var found := LineMessage(text[..k], parse);
    if found.Skipped? {
      assert FirstMessage(text, parse) == FirstMessage(text[k + 1..], parse);
    } else {
      assert FirstMessage(text, parse) == found;
    }
  }

  /** An unterminated final segment is never examined: appending text without a
      `\n` to a text that is empty or ends in `\n` does not change the result. */
  lemma {:induction false} TailIgnored(done: string, tail: string, parse: string -> JsonLoad)
    requires '\n' !in tail
    requires done == [] || done[|done| - 1] == '\n'
    ensures FirstMessage(done + tail, parse) == FirstMessage(done, parse)
    decreases |done|
  {
    if done == [] {
      assert done + tail == tail;
      PyText.IndexOfAppend(done, tail, '\n');
    } else {
      assert done[|done| - 1] in done;
      FirstMessageStep(done, tail, parse);
      var k := PyText.IndexOf(done, '\n').value;
      var rest := done[k + 1..];
      assert rest == [] || rest[|rest| - 1] == done[|done| - 1];
      TailIgnored(rest, tail, parse);
    }
  }

  /** Taking the next chunk into the buffer does not change the text still to be scanned. */
  lemma ConcatFrom(chunks: seq<string>, k: nat, buffer: string)
    requires k < |chunks|
    ensures buffer + Concat(chunks[k..]) == (buffer + chunks[k]) + Concat(chunks[k + 1..])
  {
    assert chunks[k..][0] == chunks[k] && chunks[k..][1..] == chunks[k + 1..];
    assert Concat(chunks[k..]) == chunks[k] + Concat(chunks[k + 1..]);
  }

  /** The streaming loop: each chunk is appended to the buffer, every complete
      line is split off and examined, and the first message found, or the first
      error raised, ends the loop at once. The result is that of `FirstMessage` on the concatenated text,
      so it does not depend on where the chunk boundaries fall. */
  method ScanStream(chunks: seq<string>, parse: string -> JsonLoad) returns (r: Outcome)
    ensures r == FirstMessage(Concat(chunks), parse)
  {
    var buffer := "";
    assert buffer + Concat(chunks[0..]) == Concat(chunks) by { assert chunks[0..] == chunks; }
    for k := 0 to |chunks|
      invariant '\n' !in buffer
      invariant FirstMessage(Concat(chunks), parse) == FirstMessage(buffer + Concat(chunks[k..]), parse)
    {
      ConcatFrom(chunks, k, buffer);
      buffer := buffer + chunks[k];
      while '\n' in buffer
        invariant FirstMessage(Concat(chunks), parse) == FirstMessage(buffer + Concat(chunks[k + 1..]), parse)
        decreases |buffer|
      {
        FirstMessageStep(buffer, Concat(chunks[k + 1..]), parse);
        var newline := PyText.IndexOf(buffer, '\n').value;
        var line := buffer[..newline];
        buffer := buffer[newline + 1..];
        var found := LineMessage(line, parse);
        if !found.Skipped? {
          return found;
        }
      }
    }
    assert chunks[|chunks|..] == [];
    assert buffer + Concat(chunks[|chunks|..]) == buffer;
    return Skipped;
  }
}
