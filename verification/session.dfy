/**
  The terminal and the generation endpoint together: a line that names no
  built-in is sent as `{ query: <the trimmed line> }`, the endpoint's reply
  becomes the outcome of the request (`ok` for a status from 200 to 299),
  and the request settles with that outcome.
 */
module Session {
  import opened Wrappers
  import opened JsString
  import opened Segmenter
  import opened Command
  import opened GenerateRoute
  import opened Terminal

  /** The outcome the terminal sees for a reply of the endpoint. */
  function FromReply(r: Reply): (o: Outcome)
    ensures o.Answered? && (o.ok <==> 200 <= r.status <= 299)
    ensures o.responseText == r.responseText && o.error == r.error
  {
    Answered(200 <= r.status <= 299, r.responseText, r.error)
  }

  /** The endpoint's answer to the query the pending request carries. */
  function Answer(q: string, thrown: Thrown): Outcome {
    FromReply(Post(Parsed(Str(q)), thrown))
  }

  /** A whole exchange: the line is submitted, the endpoint answers, and the
      request settles with its answer. */
  function Exchange(s: State, clock: Clock, thrown: Thrown): State
    requires !s.generating && Classify(s.input).Remote?
  {
    var b := Submit(s, clock);
    Settle(b, Answer(b.pending.value.command, thrown))
  }

  /** The terminal counts exactly the replies with status 200 as successes. */
  lemma SuccessIffOk(body: Body, thrown: Thrown)
    ensures Succeeds(FromReply(Post(body, thrown))) <==> Post(body, thrown).status == 200
  {
  }

  /** A query the terminal sends is refused only when it mentions "error
      example", in any letter case. */
  lemma QuerySucceedsUnlessErrorExample(q: string, thrown: Thrown)
    requires q != []
    ensures Succeeds(Answer(q, thrown)) <==> !Includes(ToLower(q), ErrorTrigger)
  {
    SuccessIffOk(Parsed(Str(q)), thrown);
  }

  /** The line a whole exchange ends with. */
  function ExpectedReply(id: nat, q: string): Line {
    var lower := ToLower(q);
    if Includes(lower, ErrorTrigger) then Line(id, Typed(FailureText), Error)
    else if Includes(lower, CodeTrigger) then
      Line(id, Rendered([Prose(IntroLine), Code(PythonBody), Prose(MiddleLine), Code(ScriptBody)]), AiResponse)
    else Line(id, Rendered([Prose(DefaultText)]), AiResponse)
  }

  /** The endpoint's answer to a non-empty query, once rendered, is the
      expected reply line. */
  lemma ReplyIsExpected(id: nat, q: string, thrown: Thrown)
    requires q != []
    ensures ReplyLine(id, Answer(q, thrown)) == ExpectedReply(id, q)
  {
    QuerySucceedsUnlessErrorExample(q, thrown);
    CodeTextRenders();
    DefaultTextRenders();
  }

  /** A whole exchange leaves the echoed line and one reply line after the
      earlier transcript: the failure message for "error example", the
      introduction, the two code blocks and the sentence between them for
      "code example", and the fixed sentence otherwise. The trimmed line
      enters the history and the terminal is ready for the next command. */
  lemma ExchangeReplies(s: State, clock: Clock, thrown: Thrown)
    requires WF(s) && !s.generating && Classify(s.input).Remote?
    ensures var r := Exchange(s, clock, thrown);
      && r.lines == s.lines + [InputLine(s.next + 1, s.prompt, s.input), ExpectedReply(s.next + 4, Trim(s.input))]
      && r.history == s.history + [Trim(s.input)]
      && !r.generating && WF(r)
  {
    var q := Trim(s.input);
    var o := Answer(q, thrown);
    RequestBegins(s, clock);
    RequestSettles(s, clock, o);
    ReplyIsExpected(s.next + 4, q, thrown);
    SubmitWF(s, clock);
    SettleWF(Submit(s, clock), o);
  }
}
