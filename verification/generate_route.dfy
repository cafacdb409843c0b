/**
  The generation endpoint (`POST` of the generate route).

  The request body is parsed as JSON and its `query` field read. A falsy
  query is refused with status 400. Otherwise the simulated model answers: a
  query that mentions "error example" (in any letter case) gets a 500 with a
  simulated model error, one that mentions "code example" gets a reply
  holding two fenced code blocks, and any other query gets a fixed sentence,
  both with status 200. Anything thrown on the way (a body that is not JSON,
  a query that is not a string) is caught and answered with status 500 and
  the thrown message.

  The simulated one-second delay is left out: it changes nothing the caller
  receives.
 */
module GenerateRoute {
  import opened Wrappers
  import opened JsString
  import opened Segmenter

  /** The `query` field of a parsed body: absent (or `undefined`), a string,
      or some other JSON value, which is falsy when it is `null`, `false` or
      `0` and truthy otherwise. */
  datatype QueryField = Missing | Str(s: string) | NonString(truthy: bool)

  /** The request body: not valid JSON (or `null`, which cannot be
      destructured), or a JSON value whose `query` field is read. */
  datatype Body = Malformed | Parsed(query: QueryField)

  /** What was thrown inside the handler: an `Error` with its message, or
      some other value. */
  datatype Thrown = ErrorValue(message: string) | OtherValue

  /** The JSON reply and its status. */
  datatype Reply = Reply(status: nat, responseText: Option<string>, error: Option<string>)

  const QueryRequired: string := "Query is required"
  const SimulatedError: string := "This is a simulated error from your model."
  const DefaultText: string := "This is a simulated " + "response from your custom model."
  const FailurePrefix: string := "Failed to generate text: "
  const UnexpectedError: string := "An unexpected error occurred"

  const ErrorTrigger: string := "error example"
  const CodeTrigger: string := "code example"

  /** The two blocks of the code reply, and the sentences around them. */
  const IntroLine: string := "Here's some example code:"
  const PythonBody: string :=
    "def greet(name):\n"
    + "  print(f\"Hello, {name}!\")\n"
    + "\n"
    + "greet(\"Developer\")"
  const MiddleLine: string := "And some JavaScript:"
  const ScriptBody: string := "console.log(\"Hello from JavaScript!\");"

  /** The code reply exactly as the handler writes it, line by line. */
  const CodeText: string :=
    (IntroLine + "\n")
    + ("```python\n" + PythonBody + "\n```")
    + ("\n" + MiddleLine + "\n")
    + ("```javascript\n" + ScriptBody + "\n```")

  /** The message a caught value contributes. */
  function ThrownMessage(t: Thrown): string {
    match t
    case ErrorValue(m) => m
    case OtherValue => UnexpectedError
  }

  /** The reply of the `catch` block. */
  function Failure(t: Thrown): (r: Reply)
    ensures r.status == 500 && r.responseText == None
    ensures r.error == Some(FailurePrefix + ThrownMessage(t))
  {
    Reply(500, None, Some(FailurePrefix + ThrownMessage(t)))
  }

  /** The simulated model, given a non-empty query string: the simulated
      error exactly when the query mentions the error trigger in any letter
      case; otherwise a 200 whose text is the code reply when the query
      mentions the code trigger and the fixed sentence when it does not. */
  function Simulate(q: string): (r: Reply)
    ensures r.status == 200 || r.status == 500
    ensures r.status == 500 <==> Includes(ToLower(q), ErrorTrigger)
    ensures r.status == 500 ==> r.responseText == None && r.error == Some(SimulatedError)
    ensures r.status == 200 ==> r.error == None
    ensures r.status == 200 ==>
      r.responseText == Some(if Includes(ToLower(q), CodeTrigger) then CodeText else DefaultText)
  {
    var lower := ToLower(q);
    if Includes(lower, ErrorTrigger) then Reply(500, None, Some(SimulatedError))
    else if Includes(lower, CodeTrigger) then Reply(200, Some(CodeText), None)
    else Reply(200, Some(DefaultText), None)
  }

  /** The handler. `thrown` is what the failing step throws on the paths
      that throw: parsing a malformed body, or calling `toLowerCase` on a
      query that is not a string. */
  function Post(body: Body, thrown: Thrown): (r: Reply)
    ensures r.status == 200 || r.status == 400 || r.status == 500
    ensures r.responseText.Some? <==> r.status == 200
    ensures r.error.Some? <==> r.status != 200
    ensures r.responseText.Some? ==> r.responseText.value != []
    ensures r.status == 400 <==>
      body.Parsed? && (body.query.Missing? || body.query == Str([]) || body.query == NonString(false))
    ensures r.status == 400 ==> r.error == Some(QueryRequired)
    ensures body.Malformed? || body.query == NonString(true) ==>
      r.status == 500 && r.error == Some(FailurePrefix + ThrownMessage(thrown))
    ensures body.Parsed? && body.query.Str? && body.query.s != [] ==>
      var lower := ToLower(body.query.s);
      && (r.status == 500 <==> Includes(lower, ErrorTrigger))
      && (r.status == 500 ==> r.error == Some(SimulatedError))
      && (r.status == 200 ==> r.responseText == Some(if Includes(lower, CodeTrigger) then CodeText else DefaultText))
  {
    match body
    case Malformed => Failure(thrown)
    case Parsed(Missing) => Reply(400, None, Some(QueryRequired))
    case Parsed(NonString(truthy)) =>
      if truthy then Failure(thrown) else Reply(400, None, Some(QueryRequired))
    case Parsed(Str(q)) =>
      if q == [] then Reply(400, None, Some(QueryRequired)) else Simulate(q)
  }

  /** A query string is answered the same whatever its letter case. */
  lemma PostIgnoresCase(q: string, t: Thrown)
    ensures Post(Parsed(Str(q)), t) == Post(Parsed(Str(ToLower(q))), t)
  {
    ToLowerIdempotent(q);
  }

  /** A query that mentions both triggers gets the simulated error. */
  lemma ErrorBeforeCode(a: string, b: string, c: string, t: Thrown)
    ensures var q := a + ErrorTrigger + b + CodeTrigger + c;
      Post(Parsed(Str(q)), t) == Reply(500, None, Some(SimulatedError))
  {
    var q := a + ErrorTrigger + b + CodeTrigger + c;
    var lower := ToLower(q);
    assert ToLower(ErrorTrigger) == ErrorTrigger;
    assert OccursAt(ErrorTrigger, ErrorTrigger, 0);
    assert q == a + ErrorTrigger + (b + CodeTrigger + c);
    IncludesInfix(a, ErrorTrigger, b + CodeTrigger + c, ErrorTrigger);
    LowerKeepsInfix(q, |a|, ErrorTrigger);
  }

  /** Lowering a text keeps any lower-case infix in place. */
  lemma LowerKeepsInfix(s: string, i: nat, pat: string)
    requires i + |pat| <= |s| && s[i..i + |pat|] == pat && ToLower(pat) == pat
    ensures Includes(ToLower(s), pat)
  {
    var r := ToLower(s);
    forall k | 0 <= k < |pat|
      ensures r[i + k] == pat[k]
    {
      assert s[i + k] == pat[k];
      assert ToLower(pat)[k] == LowerChar(pat[k]);
    }
    assert r[i..i + |pat|] == pat;
    assert OccursAt(r, pat, i);
  }

  /* ---------------- how the replies render ---------------- */

  /** The code reply written as text, blocks and text. */
  function CodeLayout(): seq<Part> {
    [ Gap(IntroLine + "\n"), Fence("python", PythonBody),
      Gap("\n" + MiddleLine + "\n"), Fence("javascript", ScriptBody), Gap("") ]
  }

  lemma NoTickNoClose(t: string)
    requires NoTick(t)
    ensures NoCloseIn(t)
  {
    forall q | 0 <= q <= |t|
      ensures !CloseAt(t, q)
    {
      if q + 4 <= |t| {
        assert t[q + 1] in t;
      }
    }
  }

  lemma NoTickJoin(a: string, b: string)
    requires NoTick(a) && NoTick(b)
    ensures NoTick(a + b)
  {
  }

  /** None of the reply texts has a backtick outside its fences. */
  lemma PythonNoTick()
    ensures NoTick(PythonBody)
  {
    NoTickJoin("def greet(name):\n", "  print(f\"Hello, {name}!\")\n");
    NoTickJoin("def greet(name):\n" + "  print(f\"Hello, {name}!\")\n", "\n");
    NoTickJoin("def greet(name):\n" + "  print(f\"Hello, {name}!\")\n" + "\n", "greet(\"Developer\")");
  }

  lemma GapsNoTick()
    ensures NoTick(IntroLine + "\n") && NoTick("\n" + MiddleLine + "\n") && NoTick(ScriptBody)
  {
    NoTickJoin(IntroLine, "\n");
    NoTickJoin("\n", MiddleLine);
    NoTickJoin("\n" + MiddleLine, "\n");
  }

  lemma DefaultNoTick()
    ensures NoTick(DefaultText)
  {
    NoTickJoin("This is a simulated ", "response from your custom model.");
  }

  /** A block followed by a layout, after text without backticks, is a
      layout. */
  lemma TicklessLayoutCons(g: string, lang: string, payload: string, rest: seq<Part>)
    requires NoTick(g) && AllLang(lang) && NoCloseIn(payload) && Layout(rest)
    ensures Layout([Gap(g), Fence(lang, payload)] + rest)
  {
    var ps := [Gap(g), Fence(lang, payload)] + rest;
    ConcatAppend([Gap(g)], [Fence(lang, payload)] + rest);
    assert ps == [Gap(g)] + ([Fence(lang, payload)] + rest);
    assert Concat([Gap(g)]) == g + Concat([]);
    NoTickNoMatch(g, Concat(ps));
    LayoutCons(g, Fence(lang, payload), rest);
  }

  lemma CodeLayoutIsLayout()
    ensures Layout(CodeLayout())
  {
    PythonNoTick();
    GapsNoTick();
    NoTickNoClose(PythonBody);
    NoTickNoClose(ScriptBody);
    var last := [Gap("")];
    assert Concat(last) == "" + Concat([]);
    assert Layout(last);
    var tail := [Gap("\n" + MiddleLine + "\n"), Fence("javascript", ScriptBody)] + last;
    TicklessLayoutCons("\n" + MiddleLine + "\n", "javascript", ScriptBody, last);
    TicklessLayoutCons(IntroLine + "\n", "python", PythonBody, tail);
    assert CodeLayout() == [Gap(IntroLine + "\n"), Fence("python", PythonBody)] + tail;
  }

  /** A block written out: its opening line, its body, its closing line. */
  lemma FenceText(lang: string, payload: string, open: string)
    requires open == Ticks + lang + "\n"
    ensures RawText(Fence(lang, payload)) == open + payload + "\n```"
  {
  }

  lemma PythonFenceText()
    ensures RawText(Fence("python", PythonBody)) == "```python\n" + PythonBody + "\n```"
  {
    assert "```python\n" == Ticks + "python" + "\n";
    FenceText("python", PythonBody, "```python\n");
  }

  lemma ScriptFenceText()
    ensures RawText(Fence("javascript", ScriptBody)) == "```javascript\n" + ScriptBody + "\n```"
  {
    assert "```javascript\n" == Ticks + "javascript" + "\n";
    FenceText("javascript", ScriptBody, "```javascript\n");
  }

  lemma CodeTextIsLayout()
    ensures Concat(CodeLayout()) == CodeText
  {
    var ps := CodeLayout();
    ConcatTwo(ps);
    ConcatTwo(ps[2..]);
    assert ps[2..][2..] == ps[4..];
    assert ps[4..][1..] == [];
    assert Concat(ps[4..]) == "" + Concat([]) == "";
    PythonFenceText();
    ScriptFenceText();
    Regroup(IntroLine + "\n", RawText(ps[1]), "\n" + MiddleLine + "\n", RawText(ps[3]));
  }

  lemma Regroup(a: string, b: string, c: string, d: string)
    ensures a + b + (c + d + "") == a + b + c + d
  {
  }

  /** The code reply splits into exactly two blocks, tagged `python` and
      `javascript`, with text around them. */
  lemma CodeTextSplits()
    ensures Split(CodeText) == CodeLayout()
  {
    CodeLayoutIsLayout();
    CodeTextIsLayout();
    SplitLayout(CodeLayout());
  }

  /** The code reply renders as an introduction, the Python block, a
      sentence, and the JavaScript block; the empty text after the last
      block is dropped. */
  lemma CodeTextRenders()
    ensures RenderAiResponse(CodeText) ==
      [Prose(IntroLine), Code(PythonBody), Prose(MiddleLine), Code(ScriptBody)]
  {
    CodeTextSplits();
    CodeLayoutSegments();
  }

  /** Each part of the code reply rendered on its own. */
  lemma CodePartsRender()
    ensures var ps := CodeLayout();
      && RenderPart(ps[0]) == Some(Prose(IntroLine))
      && RenderPart(ps[1]) == Some(Code(PythonBody))
      && RenderPart(ps[2]) == Some(Prose(MiddleLine))
      && RenderPart(ps[3]) == Some(Code(ScriptBody))
      && RenderPart(ps[4]) == None
  {
    GapsTrim();
  }

  /** The text around the blocks of the code reply trims to its sentences. */
  lemma GapsTrim()
    ensures Trim(IntroLine + "\n") == IntroLine
    ensures Trim("\n" + MiddleLine + "\n") == MiddleLine
    ensures Trim("") == []
  {
    assert IntroLine + "\n" == "" + IntroLine + "\n";
    TrimPadded("", IntroLine, "\n");
    TrimPadded("\n", MiddleLine, "\n");
  }

  /** The code reply's parts render to two sentences and two blocks. */
  lemma CodeLayoutSegments()
    ensures Segments(CodeLayout()) ==
      [Prose(IntroLine), Code(PythonBody), Prose(MiddleLine), Code(ScriptBody)]
  {
    var ps := CodeLayout();
    CodePartsRender();
    SegmentsCons(ps);
    SegmentsCons(ps[1..]);
    SegmentsCons(ps[2..]);
    SegmentsCons(ps[3..]);
    SegmentsCons(ps[4..]);
    assert ps[1..][1..] == ps[2..] && ps[2..][1..] == ps[3..];
    assert ps[3..][1..] == ps[4..] && ps[4..][1..] == [];
    assert Segments([]) == Collect([]);
  }

  /** The fixed sentence has no block: it renders as itself. */
  lemma DefaultTextRenders()
    ensures RenderAiResponse(DefaultText) == [Prose(DefaultText)]
  {
    DefaultNoTick();
    NoTickNoMatch(DefaultText, DefaultText);
    PlainReply(DefaultText);
    DefaultTrimmed();
  }

  lemma DefaultTrimmed()
    ensures Trim(DefaultText) == DefaultText != []
  {
    assert DefaultText[0] == 'T';
    assert DefaultText[|DefaultText| - 1] == "response from your custom model."[31] == '.';
    TrimTrimmed(DefaultText);
  }
}
