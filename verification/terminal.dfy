/**
  The terminal view (`TerminalView`) as a state machine.

  The state is the transcript (lines with an id and a kind), the line-id
  counter, the command history with its cursor, the text being typed, and
  the generating flag with what the pending request needs when it settles.

  Ids: the source draws `line-N` from one counter. An id drawn directly in a
  handler is drawn at once; an id drawn inside a queued transcript update is
  drawn when the queued updates are applied, after the handler's own draws
  and in the order the updates were queued. So a request to the endpoint
  draws its key `N` first, then its input line gets `N + 1` and the
  placeholder `N + 2`; when it settles, a key `M` is drawn and the reply line
  gets `M + 1`. `cls` resets the counter and draws the banner's three ids at
  once, and the input line's queued update then draws `3`, which the banner
  replaces.

  A request to the endpoint is split in two events: `Submit` shows the
  placeholder and raises the generating flag; `Settle` takes the outcome of
  the request and ends it.
 */
module Terminal {
  import opened Wrappers
  import opened JsString
  import opened Segmenter
  import opened Command

  const AppVersion: string := "1.0.0.2024"
  const Copyright: string := "\U{00A9} TermAI CLI. All rights reserved."
  const ProcessingText: string := "Processing..."
  const FailureText: string := "Some error occurred"
  const ExitText: string := "Exiting TermAI... (This is a simulation)"

  /** The kind of a line, which decides its colour. */
  datatype Kind = Input | Output | Error | Info | AiResponse | AiLoading

  /** What a line shows: plain text; a non-breaking space standing for an
      empty line; text revealed by the typing effect; a typed command after
      the prompt, its spaces made non-breaking; or a rendered reply. */
  datatype Content =
    | Text(s: string)
    | Blank
    | Typed(text: string)
    | Prompted(prompt: string, shown: string)
    | Rendered(segments: seq<Segment>)

  /** A transcript line; `id` stands for the key `line-<id>`. */
  datatype Line = Line(id: nat, content: Content, kind: Kind)

  /** A line to be added, before it is given its id. */
  datatype Out = Out(content: Content, kind: Kind)

  /** The request in flight: the key drawn for it and the command sent. */
  datatype Pending = Pending(key: nat, command: string)

  datatype State = State(
    prompt: string,
    lines: seq<Line>,
    next: nat,
    history: seq<string>,
    cursor: int,
    input: string,
    generating: bool,
    pending: Option<Pending>)

  /** The current date and time as the browser formats them. */
  datatype Clock = Clock(date: string, time: string)

  /** How a request ended: the endpoint answered with an `ok` flag and the
      fields of its JSON body, or the request failed (network error, time
      out). */
  datatype Outcome = Answered(ok: bool, responseText: Option<string>, error: Option<string>) | Failed

  datatype KeyPress = Enter | ArrowUp | ArrowDown | Escape | OtherKey

  /* ---------------- transcript ---------------- */

  function Title(prompt: string): string {
    "TermAI [Version " + AppVersion + "] (Prompt: " + prompt + ")"
  }

  /** The banner: title, copyright and an empty line, ids 0 to 2. */
  function Banner(prompt: string): seq<Line> {
    [Line(0, Text(Title(prompt)), Info), Line(1, Text(Copyright), Info), Line(2, Blank, Info)]
  }

  /** The terminal as it first appears. */
  function Initial(prompt: string): State {
    State(prompt, Banner(prompt), 3, [], -1, [], false, None)
  }

  /** A change of prompt name redraws the banner and resets the counter;
      the history, the typed line and a pending request are kept. */
  function ChangePrompt(s: State, prompt: string): (r: State)
    ensures r.lines == Banner(prompt) && r.next == 3 && r.prompt == prompt
    ensures r.history == s.history && r.cursor == s.cursor && r.input == s.input
    ensures r.generating == s.generating && r.pending == s.pending
  {
    s.(prompt := prompt, lines := Banner(prompt), next := 3)
  }

  /** Lines numbered from `start`, in order. */
  function Numbered(start: nat, outs: seq<Out>): seq<Line> {
    seq(|outs|, i requires 0 <= i < |outs| => Line(start + i, outs[i].content, outs[i].kind))
  }

  /** The line echoing a submitted command. */
  function InputLine(id: nat, prompt: string, raw: string): Line {
    Line(id, Prompted(prompt, NbspSpaces(raw)), Input)
  }

  /** The lines of `help`: eight lines of output and a closing note. */
  const HelpText: seq<string> := [
    "Available commands:",
    "  CLS          - Clears the screen.",
    "  ECHO [text]  - Displays messages.",
    "  DATE         - Displays the current date.",
    "  TIME         - Displays the current time.",
    "  VER          - Displays the TermAI version.",
    "  HELP         - Provides Help information for commands.",
    "  EXIT         - Exits TermAI (simulated)."
  ]
  const HelpNote: string := "  Any other command will be sent for processing."

  function HelpOuts(): seq<Out> {
    seq(|HelpText|, i requires 0 <= i < |HelpText| => Out(Text(HelpText[i]), Output)) + [Out(Text(HelpNote), Info)]
  }

  /** The lines a built-in other than `cls` adds. */
  function Outputs(b: Builtin, arg: string, prompt: string, clock: Clock): seq<Out> {
    match b
    case Cls => []
    case Echo => [Out(if arg == [] then Blank else Text(arg), Output)]
    case Help => HelpOuts()
    case Date => [Out(Text(clock.date), Output)]
    case Time => [Out(Text(clock.time), Output)]
    case Ver => [Out(Text(Title(prompt)), Output)]
    case Exit => [Out(Text(ExitText), Info)]
  }

  /** The transcript without the line of the given id. */
  function Without(lines: seq<Line>, id: nat): seq<Line> {
    if lines == [] then []
    else (if lines[0].id == id then [] else [lines[0]]) + Without(lines[1..], id)
  }

  /* ---------------- submitting ---------------- */

  /** The history entry of a submission, and the cursor set after it: one
      past the last entry, so that the first ArrowUp recalls that entry. The
      transcript and the request are not touched. */
  function Record(s: State, trimmed: string): (r: State)
    ensures r.lines == s.lines && r.next == s.next && r.input == s.input
    ensures r.generating == s.generating && r.pending == s.pending
    ensures trimmed != [] ==> Up(r).input == trimmed
  {
    var h := if trimmed == [] then s.history else s.history + [trimmed];
    s.(history := h, cursor := |h|)
  }

  /** As written: the cursor is set from the history length captured when
      the command was submitted, before this command was appended, so the
      first ArrowUp recalls the entry before the new one. */
  function RecordAsWritten(s: State, trimmed: string): (r: State)
    ensures r.lines == s.lines && r.next == s.next && r.input == s.input
    ensures r.generating == s.generating && r.pending == s.pending
    ensures trimmed != [] && s.history != [] ==> Up(r).input == s.history[|s.history| - 1]
  {
    var h := if trimmed == [] then s.history else s.history + [trimmed];
    s.(history := h, cursor := |s.history|)
  }

  /** The first half of a request: its key, the input line and the
      placeholder, and the generating flag raised. */
  function Begin(s: State, raw: string, query: string): State {
    s.(lines := s.lines + [InputLine(s.next + 1, s.prompt, raw), Line(s.next + 2, Typed(ProcessingText), AiLoading)],
       next := s.next + 3,
       generating := true,
       pending := Some(Pending(s.next, query)))
  }

  /** The transcript after a submission handled without the endpoint: `cls`
      leaves only the banner; anything else keeps the transcript, echoes the
      line and adds its output, one id per added line. */
  function RunLocal(s: State, raw: string, a: Action, clock: Clock): (r: State)
    ensures a.Run? && a.builtin == Cls ==> r.lines == Banner(s.prompt) && r.next == 4
    ensures !(a.Run? && a.builtin == Cls) ==>
      && |r.lines| > |s.lines| && r.lines[..|s.lines|] == s.lines
      && r.lines[|s.lines|] == InputLine(s.next, s.prompt, raw)
      && r.next == s.next + (|r.lines| - |s.lines|)
    ensures r.history == s.history && r.cursor == s.cursor && r.input == s.input
    ensures r.generating == s.generating && r.pending == s.pending
  {
    var echo := InputLine(s.next, s.prompt, raw);
    match a
    case Run(Cls, _) => s.(lines := Banner(s.prompt), next := 4)
    case Run(b, arg) =>
      var outs := Outputs(b, arg, s.prompt, clock);
      var lines := s.lines + [echo] + Numbered(s.next + 1, outs);
      assert lines[..|s.lines|] == s.lines && lines[|s.lines|] == echo;
      s.(lines := lines, next := s.next + 1 + |outs|)
    case _ =>
      assert (s.lines + [echo])[..|s.lines|] == s.lines;
      s.(lines := s.lines + [echo], next := s.next + 1)
  }

  /** Enter: the typed line is cleared and handled. Only a line for the
      endpoint raises the flag, and it enters the history when it settles;
      any other line that is not blank enters the history at once. Only
      `cls` drops earlier lines. */
  function Submit(s: State, clock: Clock): (r: State)
    requires !s.generating
    ensures r.input == []
    ensures r.generating <==> Classify(s.input).Remote?
    ensures !(Classify(s.input).Run? && Classify(s.input).builtin == Cls) ==>
      |r.lines| > |s.lines| && r.lines[..|s.lines|] == s.lines
    ensures Classify(s.input).Remote? || AllSpace(s.input) ==> r.history == s.history
    ensures !Classify(s.input).Remote? && !AllSpace(s.input) ==> r.history == s.history + [Trim(s.input)]
  {
    var raw := s.input;
    var cleared := s.(input := []);
    TrimEmptyIffAllSpace(raw);
    assert (s.lines + [InputLine(s.next + 1, s.prompt, raw), Line(s.next + 2, Typed(ProcessingText), AiLoading)])[..|s.lines|] == s.lines;
    match Classify(raw)
    case Remote(q) => Begin(cleared, raw, q)
    case a => Record(RunLocal(cleared, raw, a, clock), Trim(raw))
  }

  /** Enter as written: the inherited table keys are found too (`constructor`
      does nothing, `__proto__` throws, which ends the submission before
      anything is recorded), and the cursor is set from the stale length. */
  function SubmitAsWritten(s: State, clock: Clock): (r: State)
    requires !s.generating
    ensures r.input == []
    ensures r.generating <==> ClassifyAsWritten(s.input).Remote?
    ensures !(ClassifyAsWritten(s.input).Run? && ClassifyAsWritten(s.input).builtin == Cls) ==>
      |r.lines| > |s.lines| && r.lines[..|s.lines|] == s.lines
    ensures ClassifyAsWritten(s.input).Throws? ==> r.history == s.history && r.cursor == s.cursor
    ensures ClassifyAsWritten(s.input).Remote? || AllSpace(s.input) ==> r.history == s.history
    ensures !ClassifyAsWritten(s.input).Remote? && !ClassifyAsWritten(s.input).Throws? && !AllSpace(s.input) ==>
      r.history == s.history + [Trim(s.input)]
  {
    var raw := s.input;
    var cleared := s.(input := []);
    TrimEmptyIffAllSpace(raw);
    EmptyKeyIffBlank(raw);
    assert (s.lines + [InputLine(s.next + 1, s.prompt, raw), Line(s.next + 2, Typed(ProcessingText), AiLoading)])[..|s.lines|] == s.lines;
    assert (s.lines + [InputLine(s.next, s.prompt, raw)])[..|s.lines|] == s.lines;
    match ClassifyAsWritten(raw)
    case Remote(q) => Begin(cleared, raw, q)
    case Throws => cleared.(lines := s.lines + [InputLine(s.next, s.prompt, raw)], next := s.next + 1)
    case a => RecordAsWritten(RunLocal(cleared, raw, a, clock), Trim(raw))
  }

  /** The request succeeded: an `ok` answer with a non-empty `responseText`
      and no (or an empty) `error`. */
  predicate Succeeds(o: Outcome) {
    && o.Answered? && o.ok
    && o.responseText.Some? && o.responseText.value != []
    && (o.error.None? || o.error.value == [])
  }

  /** The reply line: the rendered answer, or the failure message. */
  function ReplyLine(id: nat, o: Outcome): Line {
    if Succeeds(o) then Line(id, Rendered(RenderAiResponse(o.responseText.value)), AiResponse)
    else Line(id, Typed(FailureText), Error)
  }

  /** The second half of a request: the placeholder removed, one reply line
      added, the flag lowered, the command recorded. Every other line stays,
      and the reply is an answer exactly when the request succeeded. */
  function Settle(s: State, o: Outcome): (r: State)
    requires s.pending.Some?
    ensures !r.generating && r.pending.None? && r.next == s.next + 2
    ensures |r.lines| > 0 && (r.lines[|r.lines| - 1].kind == AiResponse <==> Succeeds(o))
    ensures s.pending.value.command != [] ==> Up(r).input == s.pending.value.command
  {
    Record(Settled(s, ReplyLine(s.next + 1, o)), s.pending.value.command)
  }

  /** As written: the removal looks for the key drawn for the request, which
      is not the placeholder's id, and the cursor is set from the stale
      length. */
  function SettleAsWritten(s: State, o: Outcome): (r: State)
    requires s.pending.Some?
    ensures !r.generating && r.pending.None? && r.next == s.next + 2
    ensures |r.lines| > 0 && (r.lines[|r.lines| - 1].kind == AiResponse <==> Succeeds(o))
    ensures s.pending.value.command != [] && s.history != [] ==> Up(r).input == s.history[|s.history| - 1]
  {
    var p := s.pending.value;
    var lines := Without(s.lines, p.key) + [ReplyLine(s.next + 1, o)];
    RecordAsWritten(s.(lines := lines, next := s.next + 2, generating := false, pending := None), p.command)
  }

  /* ---------------- keys ---------------- */

  /** `history[i] || ""`. */
  function At(h: seq<string>, i: int): string {
    if 0 <= i < |h| then h[i] else []
  }

  /** ArrowUp: one entry back, stopping at the first, and the entry shown. */
  function Up(s: State): (r: State)
    ensures r.lines == s.lines && r.history == s.history && r.generating == s.generating
    ensures s.history == [] ==> r == s
    ensures s.history != [] && s.cursor <= |s.history| ==>
      && 0 <= r.cursor < |s.history| && r.input == s.history[r.cursor]
      && (r.cursor < s.cursor || r.cursor == 0)
  {
    if |s.history| == 0 then s
    else
      var i := if s.cursor <= 0 then 0 else s.cursor - 1;
      s.(cursor := i, input := At(s.history, i))
  }

  /** ArrowDown: one entry forward, and the entry shown; past the last entry
      the line is empty. */
  function Down(s: State): (r: State)
    ensures r.lines == s.lines && r.history == s.history && r.generating == s.generating
    ensures s.history == [] ==> r == s
    ensures s.history != [] && -1 <= s.cursor ==>
      && 0 <= r.cursor <= |s.history| && r.input == At(s.history, r.cursor)
      && (r.cursor > s.cursor || r.cursor == |s.history|)
  {
    if |s.history| == 0 then s
    else
      var i := if s.cursor >= |s.history| - 1 then |s.history| else s.cursor + 1;
      s.(cursor := i, input := if i == |s.history| then [] else At(s.history, i))
  }

  /** A key press in the command line. While a request is pending every key
      is swallowed (Escape is let through but nothing handles it). */
  function HandleKey(s: State, k: KeyPress, clock: Clock): (r: State)
    ensures s.generating ==> r == s
    ensures k != Enter ==> r.lines == s.lines && r.history == s.history && r.generating == s.generating
    ensures k == Enter && !s.generating ==> r.input == []
  {
    if s.generating then s
    else
      match k
      case Enter => Submit(s, clock)
      case ArrowUp => Up(s)
      case ArrowDown => Down(s)
      case _ => s
  }

  /** Typing; the input is disabled while a request is pending. */
  function Edit(s: State, text: string): State {
    if s.generating then s else s.(input := text)
  }

  /* ---------------- the invariant ---------------- */

  predicate Increasing(lines: seq<Line>) {
    forall i, j :: 0 <= i < j < |lines| ==> lines[i].id < lines[j].id
  }

  predicate Below(lines: seq<Line>, n: nat) {
    forall l :: l in lines ==> l.id < n
  }

  predicate AtLeast(lines: seq<Line>, n: nat) {
    forall l :: l in lines ==> n <= l.id
  }

  /** A history entry: non-empty and trimmed. */
  predicate Clean(t: string) {
    t != [] && IsTrimmed(t)
  }

  predicate CleanHistory(h: seq<string>) {
    forall t :: t in h ==> Clean(t)
  }

  /** Only the placeholder of the pending request is a loading line. */
  predicate LoadingIsPlaceholder(lines: seq<Line>, pending: Option<Pending>) {
    forall l :: l in lines && l.kind == AiLoading ==> pending.Some? && l.id == pending.value.key + 2
  }

  /** What every reachable state satisfies: ids strictly increase and stay
      below the counter (so keys are unique), the cursor stays in
      `[-1, |history|]` and is -1 only before the first submission, history
      entries are trimmed and non-empty, the flag is up exactly while a
      request is pending, and a loading line only ever is that request's
      placeholder. */
  predicate WF(s: State) {
    && Increasing(s.lines) && Below(s.lines, s.next) && 3 <= s.next
    && -1 <= s.cursor <= |s.history| && (s.cursor == -1 ==> s.history == [])
    && CleanHistory(s.history)
    && (s.generating <==> s.pending.Some?)
    && (s.pending.Some? ==> Clean(s.pending.value.command))
    && LoadingIsPlaceholder(s.lines, s.pending)
  }

  /* ---------------- transcript facts ---------------- */

  lemma IncreasingAppend(a: seq<Line>, b: seq<Line>, m: nat)
    requires Increasing(a) && Increasing(b) && Below(a, m) && AtLeast(b, m)
    ensures Increasing(a + b)
  {
    var c := a + b;
    forall i, j | 0 <= i < j < |c|
      ensures c[i].id < c[j].id
    {
      if j < |a| {
        assert c[i] == a[i] && c[j] == a[j];
      } else if i >= |a| {
        assert c[i] == b[i - |a|] && c[j] == b[j - |a|];
      } else {
        assert c[i] == a[i] && a[i] in a;
        assert c[j] == b[j - |a|] && b[j - |a|] in b;
      }
    }
  }

  lemma NumberedSpec(start: nat, outs: seq<Out>)
    ensures var ls := Numbered(start, outs);
      && Increasing(ls) && AtLeast(ls, start) && Below(ls, start + |outs|)
      && forall l :: l in ls ==> Out(l.content, l.kind) in outs
  {
    var ls := Numbered(start, outs);
    forall l | l in ls
      ensures start <= l.id < start + |outs| && Out(l.content, l.kind) in outs
    {
      var i :| 0 <= i < |ls| && ls[i] == l;
      assert outs[i] == Out(l.content, l.kind);
    }
  }

  /** No built-in adds a loading line. */
  lemma OutputsNotLoading(b: Builtin, arg: string, prompt: string, clock: Clock)
    ensures forall o :: o in Outputs(b, arg, prompt, clock) ==> o.kind != AiLoading
  {
    if b == Help {
      var outs := HelpOuts();
      forall o | o in outs
        ensures o.kind != AiLoading
      {
        var i :| 0 <= i < |outs| && outs[i] == o;
      }
    }
  }

  /** Removing a line keeps only lines of the transcript, none of them with
      the removed id. */
  lemma {:induction false} WithoutSubset(lines: seq<Line>, id: nat)
    ensures forall l :: l in Without(lines, id) ==> l in lines && l.id != id
    decreases |lines|
  {
    if lines != [] {
      WithoutSubset(lines[1..], id);
      assert forall l :: l in lines[1..] ==> l in lines;
    }
  }

  /** Removing a line keeps every line with another id. */
  lemma {:induction false} WithoutKeeps(lines: seq<Line>, id: nat)
    ensures forall l :: l in lines && l.id != id ==> l in Without(lines, id)
    decreases |lines|
  {
    if lines != [] {
      WithoutKeeps(lines[1..], id);
      assert lines == [lines[0]] + lines[1..];
    }
  }

  /** Removing a line keeps the transcript ordered. */
  lemma {:induction false} WithoutIncreasing(lines: seq<Line>, id: nat)
    requires Increasing(lines)
    ensures Increasing(Without(lines, id))
    decreases |lines|
  {
    if lines != [] {
      var h, t := lines[0], lines[1..];
      assert Increasing(t) by {
        forall i, j | 0 <= i < j < |t|
          ensures t[i].id < t[j].id
        {
          assert t[i] == lines[i + 1] && t[j] == lines[j + 1];
        }
      }
      WithoutIncreasing(t, id);
      WithoutSubset(t, id);
      var rt := Without(t, id);
      forall l | l in rt
        ensures h.id + 1 <= l.id
      {
        var i :| 0 <= i < |t| && t[i] == l;
        assert lines[i + 1] == l;
      }
      var hs := if h.id == id then [] else [h];
      IncreasingAppend(hs, rt, h.id + 1);
    }
  }

  lemma WithoutSpec(lines: seq<Line>, id: nat)
    ensures var r := Without(lines, id);
      && (forall l :: l in r ==> l in lines && l.id != id)
      && (forall l :: l in lines && l.id != id ==> l in r)
      && (Increasing(lines) ==> Increasing(r))
  {
    WithoutSubset(lines, id);
    WithoutKeeps(lines, id);
    if Increasing(lines) {
      WithoutIncreasing(lines, id);
    }
  }

  /** Removing an id no line has changes nothing. */
  lemma {:induction false} WithoutAbsent(lines: seq<Line>, id: nat)
    requires forall l :: l in lines ==> l.id != id
    ensures Without(lines, id) == lines
    decreases |lines|
  {
    if lines != [] {
      assert forall l :: l in lines[1..] ==> l in lines;
      WithoutAbsent(lines[1..], id);
      assert [lines[0]] + lines[1..] == lines;
    }
  }

  lemma {:induction false} WithoutAppend(a: seq<Line>, b: seq<Line>, id: nat)
    ensures Without(a + b, id) == Without(a, id) + Without(b, id)
    decreases |a|
  {
    if a == [] {
      assert a + b == b;
    } else {
      assert (a + b)[1..] == a[1..] + b;
      WithoutAppend(a[1..], b, id);
    }
  }

  /* ---------------- the invariant is kept ---------------- */

  lemma BannerFacts(prompt: string)
    ensures var b := Banner(prompt);
      Increasing(b) && Below(b, 3) && forall l :: l in b ==> l.kind != AiLoading
  {
  }

  lemma InitialWF(prompt: string)
    ensures WF(Initial(prompt))
  {
    BannerFacts(prompt);
  }

  lemma ChangePromptWF(s: State, prompt: string)
    requires WF(s)
    ensures WF(ChangePrompt(s, prompt))
  {
    BannerFacts(prompt);
  }

  lemma TrimClean(raw: string)
    requires Trim(raw) != []
    ensures Clean(Trim(raw))
  {
    TrimSpec(raw);
  }

  lemma RecordWF(s: State, trimmed: string)
    requires WF(s) && !s.generating
    requires trimmed == [] || Clean(trimmed)
    ensures WF(Record(s, trimmed))
  {
  }

  lemma BeginWF(s: State, raw: string, query: string)
    requires WF(s) && !s.generating && Clean(query)
    ensures WF(Begin(s, raw, query))
  {
    var added := [InputLine(s.next + 1, s.prompt, raw), Line(s.next + 2, Typed(ProcessingText), AiLoading)];
    IncreasingAppend(s.lines, added, s.next);
  }

  lemma RunBuiltinWF(s: State, raw: string, b: Builtin, arg: string, clock: Clock)
    requires WF(s) && !s.generating && b != Cls
    ensures WF(RunLocal(s, raw, Run(b, arg), clock))
  {
    var echo := InputLine(s.next, s.prompt, raw);
    var outs := Outputs(b, arg, s.prompt, clock);
    var added := Numbered(s.next + 1, outs);
    NumberedSpec(s.next + 1, outs);
    OutputsNotLoading(b, arg, s.prompt, clock);
    assert forall l :: l in added ==> l.kind != AiLoading;
    IncreasingAppend(s.lines, [echo], s.next);
    IncreasingAppend(s.lines + [echo], added, s.next + 1);
    assert RunLocal(s, raw, Run(b, arg), clock).lines == s.lines + [echo] + added;
  }

  lemma RunLocalWF(s: State, raw: string, a: Action, clock: Clock)
    requires WF(s) && !s.generating && !a.Remote?
    ensures WF(RunLocal(s, raw, a, clock))
  {
    if a.Run? && a.builtin == Cls {
      BannerFacts(s.prompt);
    } else if a.Run? {
      RunBuiltinWF(s, raw, a.builtin, a.arg, clock);
    } else {
      IncreasingAppend(s.lines, [InputLine(s.next, s.prompt, raw)], s.next);
    }
  }

  /** Enter keeps the invariant. */
  lemma SubmitWF(s: State, clock: Clock)
    requires WF(s) && !s.generating
    ensures WF(Submit(s, clock))
  {
    var raw := s.input;
    var cleared := s.(input := []);
    match Classify(raw)
    case Remote(q) =>
      TrimClean(raw);
      BeginWF(cleared, raw, q);
    case a =>
      RunLocalWF(cleared, raw, a, clock);
      if Trim(raw) != [] {
        TrimClean(raw);
      }
      RecordWF(RunLocal(cleared, raw, a, clock), Trim(raw));
  }

  /** After settling, no loading line is left: the only one was the
      placeholder, which is removed. */
  lemma SettledNoLoading(lines: seq<Line>, p: Pending, reply: Line)
    requires LoadingIsPlaceholder(lines, Some(p)) && reply.kind != AiLoading
    ensures forall l :: l in Without(lines, p.key + 2) + [reply] ==> l.kind != AiLoading
  {
    WithoutSubset(lines, p.key + 2);
  }

  /** After settling, the transcript is still ordered and below the counter. */
  lemma SettledOrdered(lines: seq<Line>, key: nat, next: nat, reply: Line)
    requires Increasing(lines) && Below(lines, next) && reply.id == next + 1
    ensures var r := Without(lines, key + 2) + [reply];
      Increasing(r) && Below(r, next + 2)
  {
    WithoutSubset(lines, key + 2);
    WithoutIncreasing(lines, key + 2);
    IncreasingAppend(Without(lines, key + 2), [reply], next + 1);
  }

  /** The state right after a request settles with the given reply line,
      before the command is recorded. */
  function Settled(s: State, reply: Line): State
    requires s.pending.Some?
  {
    s.(lines := Without(s.lines, s.pending.value.key + 2) + [reply], next := s.next + 2,
       generating := false, pending := None)
  }

  /** A request settled with any reply line that is not a loading line
      keeps the invariant, before and after the command is recorded. */
  lemma SettledWF(s: State, reply: Line)
    requires WF(s) && s.pending.Some?
    requires reply.id == s.next + 1 && reply.kind != AiLoading
    ensures WF(Settled(s, reply))
  {
    var p := s.pending.value;
    var lines := Without(s.lines, p.key + 2) + [reply];
    SettledNoLoading(s.lines, p, reply);
    SettledOrdered(s.lines, p.key, s.next, reply);
    assert LoadingIsPlaceholder(lines, None);
  }

  /** Settling keeps the invariant. */
  lemma SettleWF(s: State, o: Outcome)
    requires WF(s) && s.pending.Some?
    ensures WF(Settle(s, o))
  {
    var reply := ReplyLine(s.next + 1, o);
    SettledWF(s, reply);
    RecordWF(Settled(s, reply), s.pending.value.command);
  }

  /** Keys keep the invariant. */
  lemma HandleKeyWF(s: State, k: KeyPress, clock: Clock)
    requires WF(s)
    ensures WF(HandleKey(s, k, clock))
  {
    if !s.generating && k == Enter {
      SubmitWF(s, clock);
    }
  }

  lemma EditWF(s: State, text: string)
    requires WF(s)
    ensures WF(Edit(s, text))
  {
  }

  /* ---------------- every reachable state ---------------- */

  /** What can happen to the terminal: a key press, typing, the pending
      request settling, or a new prompt name from the settings. */
  datatype Event =
    | Press(key: KeyPress, clock: Clock)
    | Type(text: string)
    | Answer(outcome: Outcome)
    | Rename(prompt: string)

  /** One event of the corrected machine. An answer with no request pending
      changes nothing, and neither does setting the prompt name it already
      has. */
  function Step(s: State, e: Event): State {
    match e
    case Press(k, clock) => HandleKey(s, k, clock)
    case Type(text) => Edit(s, text)
    case Answer(o) => if s.pending.Some? then Settle(s, o) else s
    case Rename(prompt) => if prompt != s.prompt then ChangePrompt(s, prompt) else s
  }

  function Replay(s: State, events: seq<Event>): State
    decreases |events|
  {
    if events == [] then s else Replay(Step(s, events[0]), events[1..])
  }

  /** A key press as written. */
  function HandleKeyAsWritten(s: State, k: KeyPress, clock: Clock): State {
    if s.generating then s
    else
      match k
      case Enter => SubmitAsWritten(s, clock)
      case ArrowUp => Up(s)
      case ArrowDown => Down(s)
      case _ => s
  }

  /** One event of the machine as written. */
  function StepAsWritten(s: State, e: Event): State {
    match e
    case Press(k, clock) => HandleKeyAsWritten(s, k, clock)
    case Type(text) => Edit(s, text)
    case Answer(o) => if s.pending.Some? then SettleAsWritten(s, o) else s
    case Rename(prompt) => if prompt != s.prompt then ChangePrompt(s, prompt) else s
  }

  function ReplayAsWritten(s: State, events: seq<Event>): State
    decreases |events|
  {
    if events == [] then s else ReplayAsWritten(StepAsWritten(s, events[0]), events[1..])
  }

  lemma StepWF(s: State, e: Event)
    requires WF(s)
    ensures WF(Step(s, e))
  {
    match e
    case Press(k, clock) => HandleKeyWF(s, k, clock);
    case Type(text) => EditWF(s, text);
    case Answer(o) => if s.pending.Some? { SettleWF(s, o); }
    case Rename(prompt) => if prompt != s.prompt { ChangePromptWF(s, prompt); }
  }

  /** Every state the corrected machine reaches keeps the invariant. */
  lemma {:induction false} ReplayWF(s: State, events: seq<Event>)
    requires WF(s)
    ensures WF(Replay(s, events))
    decreases |events|
  {
    if events != [] {
      StepWF(s, events[0]);
      ReplayWF(Step(s, events[0]), events[1..]);
    }
  }

  /** Every state the corrected machine reaches from the terminal's first
      appearance keeps the invariant. */
  lemma Reachable(prompt: string, events: seq<Event>)
    ensures WF(Replay(Initial(prompt), events))
  {
    InitialWF(prompt);
    ReplayWF(Initial(prompt), events);
  }

  /** The machine as written leaves the invariant with its first request to
      the endpoint: typing a line for the endpoint, pressing Enter and
      receiving any outcome leaves the loading line behind with the flag
      lowered, where the corrected machine keeps the invariant. */
  lemma AsWrittenLeavesInvariant(prompt: string, text: string, clock: Clock, o: Outcome)
    requires ClassifyAsWritten(text).Remote?
    ensures var events := [Type(text), Press(Enter, clock), Answer(o)];
      var r := ReplayAsWritten(Initial(prompt), events);
      && Line(5, Typed(ProcessingText), AiLoading) in r.lines && !r.generating && !WF(r)
      && WF(Replay(Initial(prompt), events))
  {
    var events := [Type(text), Press(Enter, clock), Answer(o)];
    InitialWF(prompt);
    var s := Edit(Initial(prompt), text);
    assert WF(s) && s.next == 3;
    PlaceholderStranded(s, clock, o);
    var b := SubmitAsWritten(s, clock);
    assert ReplayAsWritten(Initial(prompt), events) == ReplayAsWritten(s, events[1..]);
    assert ReplayAsWritten(s, events[1..]) == ReplayAsWritten(b, events[2..]);
    assert ReplayAsWritten(b, events[2..]) == ReplayAsWritten(SettleAsWritten(b, o), []);
    Reachable(prompt, events);
  }

  /* ---------------- local commands ---------------- */

  /** `cls`, in any letter case and with any argument, leaves only the
      banner, while the command still enters the history. The cursor is set
      past the new entry, and as written past the entry before it. */
  lemma ClsShowsBanner(s: State, clock: Clock)
    requires WF(s) && !s.generating && Classify(s.input).Run? && Classify(s.input).builtin == Cls
    ensures var r := Submit(s, clock);
      && r.lines == Banner(s.prompt) && r.next == 4 && r.input == []
      && r.history == s.history + [Trim(s.input)] && r.cursor == |r.history|
      && !r.generating
    ensures var w := SubmitAsWritten(s, clock);
      && w.lines == Banner(s.prompt) && w.next == 4 && w.input == []
      && w.history == s.history + [Trim(s.input)] && w.cursor == |s.history|
  {
    BlankLineSkips(s.input);
    TrimEmptyIffAllSpace(s.input);
    LookupInvertsName(Key(s.input), Cls);
    ClassifyAgrees(s.input);
  }

  /** A blank line is echoed and nothing else happens: the history is
      unchanged and the cursor moves past its last entry. */
  lemma BlankLineEchoed(s: State, clock: Clock)
    requires WF(s) && !s.generating && AllSpace(s.input)
    ensures Submit(s, clock) ==
      s.(lines := s.lines + [InputLine(s.next, s.prompt, s.input)], next := s.next + 1,
         cursor := |s.history|, input := [])
  {
    BlankLineSkips(s.input);
    TrimEmptyIffAllSpace(s.input);
  }

  /** `echo` with no argument prints an empty line, shown as a non-breaking
      space, and the trimmed line enters the history. */
  lemma EchoAlonePrintsBlank(s: State, clock: Clock)
    requires WF(s) && !s.generating && Classify(s.input) == Run(Echo, [])
    ensures var r := Submit(s, clock);
      && r.lines == s.lines + [InputLine(s.next, s.prompt, s.input), Line(s.next + 1, Blank, Output)]
      && r.history == s.history + [Trim(s.input)]
  {
    BlankLineSkips(s.input);
    TrimEmptyIffAllSpace(s.input);
    var cleared := s.(input := []);
    assert Submit(s, clock) == Record(RunLocal(cleared, s.input, Run(Echo, []), clock), Trim(s.input));
    RunEcho(cleared, s.input, [], clock);
  }

  /** `echo` adds the echoed line and one output line. */
  lemma RunEcho(s: State, raw: string, arg: string, clock: Clock)
    ensures RunLocal(s, raw, Run(Echo, arg), clock).lines ==
      s.lines + [InputLine(s.next, s.prompt, raw), Line(s.next + 1, if arg == [] then Blank else Text(arg), Output)]
  {
    var out := Out(if arg == [] then Blank else Text(arg), Output);
    assert Numbered(s.next + 1, [out]) == [Line(s.next + 1, out.content, Output)];
  }

  /* ---------------- a request and its reply ---------------- */

  /** The ids of a transcript are below the counter, so removing the
      placeholder of a request begun at that counter keeps everything
      before it. */
  lemma RemovePlaceholder(lines: seq<Line>, n: nat, a: Line, b: Line)
    requires Below(lines, n) && a.id == n + 1 && b.id == n + 2
    ensures Without(lines + [a, b], n + 2) == lines + [a]
  {
    WithoutAppend(lines, [a, b], n + 2);
    WithoutAbsent(lines, n + 2);
    assert [a, b][1..] == [b] && [b][1..] == [];
    assert Without([b], n + 2) == [];
    assert Without([a, b], n + 2) == [a];
  }

  /** A line that names no built-in goes to the endpoint: it is echoed with
      a loading placeholder after it, every key is swallowed while it is
      pending, and when it settles the placeholder gives way to exactly one
      reply line — the rendered answer when the request succeeded, the
      failure message otherwise — and the trimmed line enters the history. */
  lemma RequestRoundTrip(s: State, clock: Clock, o: Outcome)
    requires WF(s) && !s.generating && Classify(s.input).Remote?
    ensures var n := s.next;
      var echo := InputLine(n + 1, s.prompt, s.input);
      var b := Submit(s, clock);
      && b.lines == s.lines + [echo, Line(n + 2, Typed(ProcessingText), AiLoading)]
      && b.generating && b.pending == Some(Pending(n, Trim(s.input)))
      && b.history == s.history
      && (forall k, c :: HandleKey(b, k, c) == b)
      && var r := Settle(b, o);
      && r.lines == s.lines + [echo, ReplyLine(n + 4, o)]
      && (r.lines[|r.lines| - 1].kind == AiResponse <==> Succeeds(o))
      && (!Succeeds(o) ==> r.lines[|r.lines| - 1] == Line(n + 4, Typed(FailureText), Error))
      && !r.generating && r.pending == None
      && r.history == s.history + [Trim(s.input)] && r.cursor == |r.history|
  {
    RequestBegins(s, clock);
    RequestSettles(s, clock, o);
  }

  /** Enter on a line for the endpoint echoes it, shows the placeholder and
      swallows every key until the request settles. */
  lemma RequestBegins(s: State, clock: Clock)
    requires !s.generating && Classify(s.input).Remote?
    ensures var b := Submit(s, clock);
      && b.lines == s.lines + [InputLine(s.next + 1, s.prompt, s.input), Line(s.next + 2, Typed(ProcessingText), AiLoading)]
      && b.next == s.next + 3 && b.prompt == s.prompt
      && b.generating && b.pending == Some(Pending(s.next, Trim(s.input)))
      && b.history == s.history
      && (forall k, c :: HandleKey(b, k, c) == b)
  {
  }

  /** The settling half of `RequestRoundTrip`. */
  lemma RequestSettles(s: State, clock: Clock, o: Outcome)
    requires WF(s) && !s.generating && Classify(s.input).Remote?
    ensures var n := s.next;
      var r := Settle(Submit(s, clock), o);
      && r.lines == s.lines + [InputLine(n + 1, s.prompt, s.input), ReplyLine(n + 4, o)]
      && !r.generating && r.pending == None
      && r.history == s.history + [Trim(s.input)] && r.cursor == |r.history|
  {
    var n := s.next;
    RequestBegins(s, clock);
    RemovePlaceholder(s.lines, n, InputLine(n + 1, s.prompt, s.input), Line(n + 2, Typed(ProcessingText), AiLoading));
  }

  /** Whatever the outcome, no loading line is left once a request settles. */
  lemma SettleClearsLoading(s: State, o: Outcome)
    requires s.pending.Some? && LoadingIsPlaceholder(s.lines, s.pending)
    ensures forall l :: l in Settle(s, o).lines ==> l.kind != AiLoading
    ensures !Settle(s, o).generating
  {
    SettledNoLoading(s.lines, s.pending.value, ReplyLine(s.next + 1, o));
  }

  /** Settling removes only the placeholder: any other line survives it. */
  lemma SurvivesSettle(b: State, o: Outcome, l: Line)
    requires b.pending.Some? && l in b.lines && l.id != b.pending.value.key + 2
    ensures l in Settle(b, o).lines
  {
    WithoutKeeps(b.lines, b.pending.value.key + 2);
  }

  /** As written, settling removes the line whose id is the request's key,
      so any other line survives it. */
  lemma SurvivesSettleAsWritten(b: State, o: Outcome, l: Line)
    requires b.pending.Some? && l in b.lines && l.id != b.pending.value.key
    ensures l in SettleAsWritten(b, o).lines
  {
    WithoutSpec(b.lines, b.pending.value.key);
  }

  /** As written, the placeholder outlives its request: the removal looks
      for an id no line has, so the loading line stays after the flag is
      lowered, and the state breaks the invariant. */
  lemma PlaceholderStranded(s: State, clock: Clock, o: Outcome)
    requires WF(s) && !s.generating && ClassifyAsWritten(s.input).Remote?
    ensures var r := SettleAsWritten(SubmitAsWritten(s, clock), o);
      && Line(s.next + 2, Typed(ProcessingText), AiLoading) in r.lines
      && !r.generating && !WF(r)
    ensures forall l :: l in Settle(Submit(s, clock), o).lines ==> l.kind != AiLoading
  {
    var placeholder := Line(s.next + 2, Typed(ProcessingText), AiLoading);
    assert SubmitAsWritten(s, clock) == Submit(s, clock);
    var b := Submit(s, clock);
    RequestRoundTrip(s, clock, o);
    assert placeholder in b.lines;
    SurvivesSettleAsWritten(b, o, placeholder);
    var r := SettleAsWritten(b, o);
    assert r.pending.None? && placeholder in r.lines;
    assert !LoadingIsPlaceholder(r.lines, r.pending);
    SubmitWF(s, clock);
    SettleClearsLoading(b, o);
  }

  /** As written, `constructor` as the command word is echoed, produces no
      output and no request, and still enters the history with the stale
      cursor; it should have gone to the endpoint. */
  lemma ConstructorIgnored(s: State, clock: Clock)
    requires WF(s) && !s.generating && Key(s.input) == InertKey
    ensures var r := SubmitAsWritten(s, clock);
      && r.lines == s.lines + [InputLine(s.next, s.prompt, s.input)] && !r.generating
      && r.history == s.history + [Trim(s.input)] && r.cursor == |s.history|
    ensures Submit(s, clock).generating
  {
    InheritedKeysAreNotBuiltins();
    EmptyKeyIffBlank(s.input);
  }

  /** As written, `__proto__` as the command word throws after the echo, so
      it neither goes to the endpoint nor enters the history. */
  lemma ProtoUnrecorded(s: State, clock: Clock)
    requires WF(s) && !s.generating && Key(s.input) == ThrowingKey
    ensures var r := SubmitAsWritten(s, clock);
      && r.lines == s.lines + [InputLine(s.next, s.prompt, s.input)] && !r.generating
      && r.history == s.history && r.cursor == s.cursor
    ensures Submit(s, clock).generating
  {
    InheritedKeysAreNotBuiltins();
    EmptyKeyIffBlank(s.input);
  }

  /* ---------------- recalling the history ---------------- */

  /** As written, after a whole local command the first ArrowUp recalls the
      entry before the one just submitted; as intended it recalls the new
      entry. */
  lemma StaleCursorAfterSubmit(s: State, clock: Clock)
    requires WF(s) && !s.generating && |s.history| > 0 && ClassifyAsWritten(s.input).Run?
    ensures Up(SubmitAsWritten(s, clock)).input == s.history[|s.history| - 1]
    ensures Up(Submit(s, clock)).input == Trim(s.input)
  {
    BlankLineSkips(s.input);
    TrimEmptyIffAllSpace(s.input);
  }

  /** ArrowUp then ArrowDown returns to the entry the cursor was on, or to
      the empty line past the last entry. */
  lemma UpThenDown(s: State)
    requires WF(s) && 1 <= s.cursor <= |s.history|
    ensures var r := Down(Up(s));
      && r.cursor == s.cursor
      && r.input == if s.cursor == |s.history| then [] else s.history[s.cursor]
  {
  }

  /** `n` presses of ArrowUp. */
  function Ups(s: State, n: nat): State
    decreases n
  {
    if n == 0 then s else Ups(Up(s), n - 1)
  }

  /** Pressing ArrowUp `n` times walks back `n` entries and stops at the
      first, showing the entry it stops on. */
  lemma {:induction false} UpsWalkBack(s: State, n: nat)
    requires WF(s) && |s.history| > 0 && 0 <= s.cursor
    ensures var r := Ups(s, n);
      && r.history == s.history && r.cursor == Max(0, s.cursor - n)
      && (n > 0 ==> r.input == s.history[r.cursor])
    decreases n
  {
    if n > 0 {
      var u := Up(s);
      assert WF(u);
      UpsWalkBack(u, n - 1);
    }
  }

  /** After "a" and then "b" enter an empty history, ArrowUp twice and
      ArrowDown once show "b", with the cursor as written and as intended
      alike. */
  lemma HistoryExample(s: State)
    requires s.history == []
    ensures Down(Up(Up(Record(Record(s, "a"), "b")))).input == "b"
    ensures Down(Up(Up(RecordAsWritten(RecordAsWritten(s, "a"), "b")))).input == "b"
  {
  }
}
