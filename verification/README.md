# TermAI terminal core in Dafny

This project models the command pipeline of the TermAI web terminal. It proves properties of the model.

The terminal view keeps:

- a transcript of numbered lines;
- a history of submitted commands with a recall cursor;
- a flag that is raised while a request to the generation endpoint is pending.

A submitted line is trimmed and split into words, and its first word is looked up, in any letter case, among seven built-ins (`cls`, `echo`, `help`, `date`, `time`, `ver`, `exit`). A line that names no built-in is sent to the endpoint. The endpoint answers with a simulated reply. The terminal renders that reply: fenced code blocks become code segments, and the text between them becomes prose segments. The prose is revealed one character at a time by the typing effect. The add-note dialog's validation is modelled too.

Modules, one per file:

- `Wrappers` (`wrappers.dfy`): `Option`.
- `JsString` (`js_string.dfy`): the JavaScript string operations the source relies on:
  - `trim`, with its white-space class;
  - `toLowerCase`, restricted to ASCII;
  - `includes`, `join`, and `split(/\s+/)` on a trimmed string, with `Spaced` for words separated by any runs of white space.
- `Segmenter` (`segmenter.dfy`): `renderAiResponseContent`. This covers the split with the captured fence pattern, the per-piece rematch, and the prose and code segments.
- `GenerateRoute` (`generate_route.dfy`): the `POST` handler of the generate route, as a total function of the parsed body.
- `Typing` (`typing_text.dfy`): the `TypingText` reveal, covering restart, tick and finish.
- `NoteDialog` (`note_dialog.dfy`): `AddNoteDialog`'s reset when the dialog opens, and `handleSave`.
- `Command` (`command.dfy`): tokenising a submitted line and looking it up in the command table.
- `Terminal` (`terminal.dfy`): the terminal view as a state machine.
  - The transcript, the line-id counter, the history and cursor, the input, and the generating flag.
  - Submission, local built-ins, a remote request split into `Submit` and `Settle`, the arrow-key recall, and the key guard.
  - The invariant `WF`. Every state the corrected machine (`Step`: the corrected `Submit`, `Settle` and `Record`) reaches keeps it. The machine as written (`StepAsWritten`) leaves it with its first request to the endpoint.
- `Session` (`session.dfy`): the terminal and the endpoint together, from the submitted line to the rendered reply.

## How line ids are modelled

Line ids are modelled as naturals, where `n` stands for the key `line-n`. Ids come from one module-level counter, and the order in which they are drawn follows React's update queue:

- An id drawn directly in a handler is drawn at once.
- An id drawn inside a queued `setLines` updater is drawn when the queue is applied.

So a remote request takes ids as follows:

- Its key is `n`, its echoed line is `n + 1`, and its placeholder is `n + 2`.
- When it settles, a new key `n + 3` is drawn, and the reply line is `n + 4`.

For `cls`, the banner's three ids are drawn at once. The echoed line's queued update then draws `3`, and the banner replaces that line.

Finding 2 below does not depend on this order: in any order, the placeholder's id differs from the key the removal looks for.

## Behaviour worth noting

The model follows the code in each of these cases.

- **Language tag.** The fence pattern's language group is non-capturing, so a rendered code segment carries only its body and no language tag. The split keeps the tag in its `Fence` parts only so that the split can be inverted.
- **`cls` and the cursor.** `cls` does not reset the history cursor in any way of its own. As for every submission, the cursor is set from the history length.
- **History recall.** Submit "a", then "b", then press ArrowUp twice and ArrowDown once: the input shows "b". The second ArrowUp shows "a", the first entry, where ArrowUp stops, and ArrowDown then moves one entry on, to "b". This holds both with the cursor as written and with the corrected cursor (`Terminal.HistoryExample`).
- **A late success.** When a request succeeds after the 15-second timeout has already shown the error, the code still appends the reply later; it is not discarded. The model has no timing, so this case is left out.

## Model

| member | source | states |
|---|---|---|
| `JsString.TrimSpec` | src/components/cmd-web/TerminalView.tsx:94 | `trim` keeps a slice of the line with only white space around it, and the slice neither starts nor ends with white space |
| `JsString.TrimEmptyIffAllSpace` | src/components/notes/AddNoteDialog.tsx:40-47 | a string trims to nothing exactly when it is all white space |
| `JsString.ToLower` | src/components/cmd-web/TerminalView.tsx:117 | lower-casing keeps the length, leaves no upper-case letter, turns each capital into its small letter, and changes no other character |
| `JsString.WordsOfSpaced` | src/components/cmd-web/TerminalView.tsx:94 | splitting on white space gives back the words, whatever non-empty runs of white space separate them |
| `JsString.WordsEmptyIffAllSpace` | src/components/cmd-web/TerminalView.tsx:94 | a string has no words exactly when it is all white space |
| `Command.LookupInvertsName` | src/components/cmd-web/TerminalView.tsx:97-115 | the table finds a built-in under its name and only there |
| `Command.Tokenize` | src/components/cmd-web/TerminalView.tsx:94 | the command word is empty exactly for a blank line, and then there are no other words; otherwise the command word and every other word are non-empty and free of white space |
| `Command.Classify` | src/components/cmd-web/TerminalView.tsx:94-121 | a line sent away carries its trimmed text, which is not empty; a skipped line trims to nothing; the corrected lookup never finds an inherited key |
| `Command.TokenizeWords` | src/components/cmd-web/TerminalView.tsx:94 | a line of words with any white space around and between them trims to the words with their separators, and tokenises into its first word and the rest |
| `Command.ClassifyWords` | src/components/cmd-web/TerminalView.tsx:94-121 | a line of words, with any white space around and between them, is decided by its first word: a built-in's name runs that built-in with the other words joined by single spaces; any other word sends the trimmed line away, its inner white space as typed |
| `Command.BuiltinAnyCase` | src/components/cmd-web/TerminalView.tsx:94-118 | built-ins are found in any letter case and with any white space around and between the words |
| `Command.EmptyKeyIffBlank` | src/components/cmd-web/TerminalView.tsx:94 | the command word is empty exactly when the line is blank |
| `Command.BlankLineSkips` | src/components/cmd-web/TerminalView.tsx:119-120 | a line does nothing exactly when it is blank |
| `Command.EchoAlone` | src/components/cmd-web/TerminalView.tsx:94-99 | `echo` alone, in any letter case and with any white space around it, has the empty argument |
| `Command.ClassifyAsWritten` | src/components/cmd-web/TerminalView.tsx:117-121 | as written, a line does nothing exactly when its command word is `constructor` in any case, throws exactly when it is `__proto__`, and otherwise does what the corrected lookup does |
| `Command.ClassifyAgrees` | src/components/cmd-web/TerminalView.tsx:117-118 | the lookup as written and the corrected lookup agree on every line whose command word is not an inherited key |
| `Command.ConstructorSwallowed` | src/components/cmd-web/TerminalView.tsx:117-118 | as written, `constructor` in any letter case is found in the table and does nothing, where it should go to the endpoint |
| `Command.ProtoThrows` | src/components/cmd-web/TerminalView.tsx:117-118 | as written, `__proto__` is found in the table and calling it throws, where it should go to the endpoint |
| `Segmenter.Split` | src/components/cmd-web/TerminalView.tsx:32 | the split loses nothing (its pieces written out again give the reply back); its pieces alternate, starting and ending with text between blocks; every block's tag is made of tag characters and its body holds no closing fence; and it is a layout: no match of the pattern starts inside any text between blocks, so every match the left-to-right scan meets becomes a block |
| `Segmenter.SplitLayout` | src/components/cmd-web/TerminalView.tsx:32 | any layout written out splits back into exactly its parts, backticks in its text included; with `Split`'s promises, the split of a reply is its only layout, and splitting and writing out are inverses on layouts |
| `Segmenter.InlineTickBeforeBlock` | src/components/cmd-web/TerminalView.tsx:32 | a word in inline backticks before a block does not hide the block: "Use \`x\`:" then a `py` block splits into that text, the block and the empty text after it |
| `Segmenter.MatchAtShape` | src/components/cmd-web/TerminalView.tsx:37 | a match of the fence pattern has a well-formed tag and a body that stops at the first closing fence |
| `Segmenter.MatchAtLocal` | src/components/cmd-web/TerminalView.tsx:37 | whether the pattern matches inside a piece depends only on that piece |
| `Segmenter.RenderAiResponse` | src/components/cmd-web/TerminalView.tsx:31-50 | rematching each piece agrees with the kind the split gave it: blocks become code, and the text between them becomes trimmed prose or is dropped |
| `Segmenter.RenderCodes` | src/components/cmd-web/TerminalView.tsx:37-43 | the code segments are exactly the bodies of the reply's blocks, in order |
| `Segmenter.RenderProseClean` | src/components/cmd-web/TerminalView.tsx:45-49 | prose segments are never empty and have no white space at either end |
| `Segmenter.PlainReply` | src/components/cmd-web/TerminalView.tsx:31-50 | a reply in which no block starts, inline backticks allowed, is one piece and renders as its trimmed text, or as nothing |
| `Segmenter.InlineCodeIsProse` | src/components/cmd-web/TerminalView.tsx:31-50 | "Run \`ls\` now" renders as that one prose segment |
| `GenerateRoute.Simulate` | src/app/api/generate/route.ts:49-72 | the simulated error with status 500 exactly when the lower-cased query mentions "error example"; otherwise status 200 with the code reply when it mentions "code example" and the fixed sentence when it does not |
| `GenerateRoute.Post` | src/app/api/generate/route.ts:16-79 | the status is 200, 400 or 500; only a 200 carries text, which is non-empty, and every other status carries an error; a 400 answers exactly a missing or falsy query, with "Query is required"; a malformed body or a truthy non-string query gets 500 with the prefixed thrown message; a non-empty query gets 500 with the simulated error exactly when it mentions "error example" in any letter case, and otherwise a 200 with the code reply or the fixed sentence |
| `GenerateRoute.PostIgnoresCase` | src/app/api/generate/route.ts:51-55 | a query is answered the same whatever its letter case |
| `GenerateRoute.ErrorBeforeCode` | src/app/api/generate/route.ts:51-55 | a query that mentions both triggers gets the simulated error |
| `GenerateRoute.CodeTextSplits` | src/app/api/generate/route.ts:57-67 | the code reply splits into a python block and a javascript block with text around them |
| `GenerateRoute.CodeTextRenders` | src/app/api/generate/route.ts:57-67 | the code reply renders as the introduction, the Python body, the middle sentence and the JavaScript body |
| `GenerateRoute.DefaultTextRenders` | src/app/api/generate/route.ts:49 | the default reply renders as itself, as one prose segment |
| `Typing.Mount` | src/components/cmd-web/TypingText.tsx:14-15 | a mounted reveal shows nothing and is consistent |
| `Typing.Restart` | src/components/cmd-web/TypingText.tsx:17-24 | corrected (as written: `Typing.RestartAsWritten`): every restart, an empty text included, starts over at index 0 with nothing revealed |
| `Typing.RestartAsWritten` | src/components/cmd-web/TypingText.tsx:17-24 | as written, a restart takes the new text |
| `Typing.Tick` | src/components/cmd-web/TypingText.tsx:34-37 | a tick advances the index by one and keeps the revealed text a prefix of the text |
| `Typing.RunReveals` | src/components/cmd-web/TypingText.tsx:26-40 | `n` ticks reveal the first `n` characters, or all of them |
| `Typing.RevealCompletes` | src/components/cmd-web/TypingText.tsx:26-43 | after a restart, the text is shown whole and finished after as many ticks as it has characters; before that a proper prefix is shown and a tick is pending |
| `Typing.RestartEmptyShowsSpace` | src/components/cmd-web/TypingText.tsx:43 | the corrected restart shows a non-breaking space for an empty text |
| `Typing.RestartAsWrittenStale` | src/components/cmd-web/TypingText.tsx:17-24 | as written, emptying the text keeps showing what was revealed before |
| `Typing.RestartsAgree` | src/components/cmd-web/TypingText.tsx:17-24 | both restarts agree on every non-empty text |
| `Typing.RevealAll` | src/components/cmd-web/TypingText.tsx:26-40 | driving the reveal to its end shows the whole text after exactly as many ticks as it has characters |
| `NoteDialog.OpenForgets` | src/components/notes/AddNoteDialog.tsx:30-48 | after the dialog opens, a save of whatever is then typed does exactly what it does on a fresh form, so a save that goes through shows no message; without the reset, a message from an earlier refused save stays; closing changes nothing a save can see |
| `NoteDialog.HandleSave` | src/components/notes/AddNoteDialog.tsx:39-48 | a save never edits the fields; a refused save always shows a message; one that goes through leaves the form, message included, as it was |
| `NoteDialog.SaveOutcome` | src/components/notes/AddNoteDialog.tsx:39-50 | a save goes through exactly when neither field is blank, and hands over both fields untrimmed; a refusal sets only the message, the title's first |
| `NoteDialog.SaveAfterOpen` | src/components/notes/AddNoteDialog.tsx:30-43 | saving right after opening is refused for the empty title |
| `NoteDialog.SaveFilled` | src/components/notes/AddNoteDialog.tsx:39-48 | filled fields are saved exactly as typed |
| `Terminal.InitialWF` | src/components/cmd-web/TerminalView.tsx:57-70 | the first state, the banner with the cursor at -1, keeps the invariant |
| `Terminal.ChangePrompt` | src/components/cmd-web/TerminalView.tsx:57-77 | a new prompt name redraws the banner under that name and resets the counter; the history, the cursor, the typed line and a pending request are kept |
| `Terminal.ChangePromptWF` | src/components/cmd-web/TerminalView.tsx:75-77 | a new prompt name redraws the banner and keeps the invariant |
| `Terminal.OutputsNotLoading` | src/components/cmd-web/TerminalView.tsx:97-115 | no built-in adds a loading line |
| `Terminal.Record` | src/components/cmd-web/TerminalView.tsx:190-212 | corrected (as written: `Terminal.RecordAsWritten`): the cursor is set past the new entry; recording changes neither the transcript nor the request, and after a non-empty entry the first ArrowUp recalls that entry |
| `Terminal.RecordAsWritten` | src/components/cmd-web/TerminalView.tsx:190-212 | as written, recording changes neither the transcript nor the request, and with an earlier entry the first ArrowUp recalls that earlier entry instead of the new one |
| `Terminal.RunLocal` | src/components/cmd-web/TerminalView.tsx:97-118 | `cls` leaves only the banner with the counter at 4; any other local line keeps the transcript, echoes the line and adds its output with one id per added line; history, cursor and flag are untouched |
| `Terminal.Submit` | src/components/cmd-web/TerminalView.tsx:177-212 | corrected (as written: `Terminal.SubmitAsWritten`), with the corrected lookup and cursor: Enter clears the input; the flag goes up exactly for a line for the endpoint; only `cls` drops earlier lines; a line for the endpoint enters the history only when it settles, a blank line never, and any other line at once, trimmed |
| `Terminal.SubmitAsWritten` | src/components/cmd-web/TerminalView.tsx:117-212 | as written, the same with the lookup that sees inherited keys: a line whose command word is `__proto__` changes neither the history nor the cursor, and a `constructor` line enters the history without raising the flag |
| `Terminal.Settle` | src/components/cmd-web/TerminalView.tsx:138-172 | corrected (as written: `Terminal.SettleAsWritten`), removing the placeholder by its own id and setting the cursor past the new entry: settling lowers the flag, ends the request and draws two ids; the last line is an answer exactly when the request succeeded; after it the first ArrowUp recalls the command |
| `Terminal.SettleAsWritten` | src/components/cmd-web/TerminalView.tsx:123-172 | as written, the same, except that with an earlier entry the first ArrowUp recalls that entry instead of the command |
| `Terminal.SurvivesSettle` | src/components/cmd-web/TerminalView.tsx:142-167 | settling removes only the placeholder: every other line survives |
| `Terminal.Up` | src/components/cmd-web/TerminalView.tsx:253-259 | ArrowUp changes nothing with an empty history; otherwise it moves the cursor back, or keeps it on the first entry, and shows the entry it lands on |
| `Terminal.Down` | src/components/cmd-web/TerminalView.tsx:260-267 | ArrowDown changes nothing with an empty history; otherwise it moves the cursor forward, or keeps it past the last entry, and shows that entry or the empty line past the end |
| `Terminal.HandleKey` | src/components/cmd-web/TerminalView.tsx:243-269 | while a request is pending every key is swallowed; no key but Enter touches the transcript, the history or the flag; Enter clears the input |
| `Terminal.SubmitWF` | src/components/cmd-web/TerminalView.tsx:177-215 | Enter keeps the invariant: ids stay increasing and below the counter, the cursor stays in range, history entries are trimmed and non-empty, and the flag is up exactly while a request is pending |
| `Terminal.SettleWF` | src/components/cmd-web/TerminalView.tsx:138-172 | settling a request keeps the invariant |
| `Terminal.HandleKeyWF` | src/components/cmd-web/TerminalView.tsx:243-269 | every key press keeps the invariant |
| `Terminal.EditWF` | src/components/cmd-web/TerminalView.tsx:239-241 | typing keeps the invariant |
| `Terminal.Reachable` | src/components/cmd-web/TerminalView.tsx:53-269 | every state the corrected machine reaches from the first one by key presses, typing, answers and prompt changes keeps the invariant |
| `Terminal.AsWrittenLeavesInvariant` | src/components/cmd-web/TerminalView.tsx:122-172 | the machine as written leaves the invariant after its first request to the endpoint, whatever the outcome: the loading line stays with the flag lowered, where the corrected machine keeps the invariant |
| `Terminal.ClsShowsBanner` | src/components/cmd-web/TerminalView.tsx:98-212 | `cls` leaves only the banner, and the command still enters the history; the cursor is set past the new entry, and as written past the entry before it |
| `Terminal.BlankLineEchoed` | src/components/cmd-web/TerminalView.tsx:186-211 | a blank line is echoed, and nothing else changes but the cursor |
| `Terminal.EchoAlonePrintsBlank` | src/components/cmd-web/TerminalView.tsx:94-195 | every line read as `echo` with no argument prints a line shown as a non-breaking space, and its trimmed text enters the history |
| `Terminal.RequestBegins` | src/components/cmd-web/TerminalView.tsx:122-124 | Enter on a line for the endpoint echoes it, shows the placeholder, raises the flag and swallows every key |
| `Terminal.RequestRoundTrip` | src/components/cmd-web/TerminalView.tsx:122-174 | a remote line is echoed with a placeholder and every key is swallowed while it is pending; when it settles, the placeholder gives way to one reply line, the rendered answer exactly when the request succeeded, and the line enters the history |
| `Terminal.SettleClearsLoading` | src/components/cmd-web/TerminalView.tsx:142-172 | whatever the outcome, no loading line is left once a request settles |
| `Terminal.PlaceholderStranded` | src/components/cmd-web/TerminalView.tsx:123-124 | as written, the loading line outlives its request and the state breaks the invariant |
| `Terminal.ConstructorIgnored` | src/components/cmd-web/TerminalView.tsx:117-212 | as written, `constructor` is echoed with no output and no request, and still enters the history with the stale cursor, where it should raise a request |
| `Terminal.ProtoUnrecorded` | src/components/cmd-web/TerminalView.tsx:117-118 | as written, `__proto__` is echoed, raises no request and does not enter the history |
| `Terminal.StaleCursorAfterSubmit` | src/components/cmd-web/TerminalView.tsx:199-215 | as written, the first ArrowUp after a whole local command recalls the entry before the new one; corrected, it recalls the new one |
| `Terminal.UpThenDown` | src/components/cmd-web/TerminalView.tsx:253-267 | ArrowUp then ArrowDown returns to the entry the cursor was on, or to the empty line past the last entry |
| `Terminal.UpsWalkBack` | src/components/cmd-web/TerminalView.tsx:253-259 | `n` presses of ArrowUp walk back `n` entries, stop at the first entry, and show the entry they stop on |
| `Terminal.HistoryExample` | src/components/cmd-web/TerminalView.tsx:190-267 | after "a" and "b", ArrowUp twice and ArrowDown once show "b" |
| `Session.SuccessIffOk` | src/components/cmd-web/TerminalView.tsx:138-146 | the terminal counts exactly the endpoint's 200 replies as successes |
| `Session.QuerySucceedsUnlessErrorExample` | src/app/api/generate/route.ts:51-72 | a query the terminal sends fails only when it mentions "error example", in any letter case |
| `Session.ReplyIsExpected` | src/app/api/generate/route.ts:49-72 | the endpoint's answer to a non-empty query renders as the failure message, the code reply's four segments, or the fixed sentence, according to the query |
| `Session.ExchangeReplies` | src/components/cmd-web/TerminalView.tsx:122-174 | a whole exchange with the endpoint ends with one reply line: the failure message, the rendered code reply, or the default sentence, according to the query |

## Left out

- The network, the two 15-second timers and their race. A request's result is the `Outcome` parameter of `Terminal.Settle`: an answer or a failure. A failure stands for a time-out or a network error.
- A success that arrives after the timeout has already shown the error. The code appends the reply then; the model has no time in which to do so.
- The endpoint's one-second simulated delay, and the typing speed. Neither changes what is shown.
- `new Date()`. The date and time strings are the `Clock` parameter.
- React rendering, focus, scrolling, the blinking cursor, and the styling of lines.
- The programmatic command path through the command context (`commandToExecute`, TerminalView.tsx lines 218-236). It only fills the input and presses Enter through the same submission.
- The Genkit flows, the navigation chrome, and `NoteCard`. They are not part of this model.
- The finish callback of `TypingText`. It only notifies the parent and changes no state of the reveal.
- `JsString.ToLower`: lower-cases ASCII letters only. Every key in the command table and every trigger phrase is ASCII. A non-ASCII letter that JavaScript would lower-case into ASCII is not modelled.
- `GenerateRoute.Post`: the body is abstracted to "malformed" or to its `query` field, and a query that is not a string only to its truthiness. What is thrown is a parameter, not the engine's exact message.
- Duplicate history entries are kept, as the code keeps them.
- `Terminal.Up`: the recall is stated only for a cursor from -1 to the history's length, which the invariant keeps. Outside that range the code reads `undefined` and shows the empty line, which the contract does not describe.
- `Terminal.Down`: likewise stated only for a cursor from -1 to the history's length.
- `Terminal.Reachable`: holds of the corrected machine only (`Step`, built on `Submit`, `Settle` and `Record`). The program as written leaves the invariant with its first request to the endpoint, because the loading line is never removed; `Terminal.AsWrittenLeavesInvariant` proves that of `StepAsWritten`. No invariant is claimed for the machine as written.
- UTF-16. JavaScript strings are sequences of UTF-16 code units: `length`, indexing, `trim` and `split` work on code units, so the typing effect takes two ticks for a character outside the Basic Multilingual Plane, such as an emoji. Dafny's `string` is a sequence of Unicode scalar values, so the model takes one tick for it, and lengths and indices of such text differ from the program's.

## Findings

| source | as written | input that shows it | evidently intended | confidence | as-written member | corrected member |
|---|---|---|---|---|---|---|
| src/components/cmd-web/TerminalView.tsx:117-118 | the `in` test on the command table also sees keys inherited from `Object.prototype` | the line `constructor` is swallowed; `__proto__` throws before the history is updated | only the seven built-ins are found; any other word goes to the endpoint | high; not executed | `Command.ClassifyAsWritten`, shown by `Terminal.ConstructorIgnored` and `Terminal.ProtoUnrecorded` | `Command.Classify`, with `Command.ClassifyWords` and `Terminal.RequestRoundTrip` |
| src/components/cmd-web/TerminalView.tsx:123-124 | the placeholder is removed by the key `thinkingLineKey`, but `addLine` gives the line a different id | any line sent to the endpoint | the "Processing..." line disappears when the request settles | high; not executed | `Terminal.SettleAsWritten`, shown by `Terminal.PlaceholderStranded` and `Terminal.AsWrittenLeavesInvariant` | `Terminal.Settle`, with `Terminal.SettleClearsLoading`, `Terminal.SettleWF` and `Terminal.Reachable` |
| src/components/cmd-web/TerminalView.tsx:207-212 | the cursor is set from the history length captured before the command was appended | history `["a"]`, submit `b`, press ArrowUp: `a` is shown | the first ArrowUp recalls the command just submitted | medium; not executed | `Terminal.RecordAsWritten`, shown by `Terminal.StaleCursorAfterSubmit` | `Terminal.Record`, with `Terminal.StaleCursorAfterSubmit` and `Terminal.UpsWalkBack` |
| src/components/cmd-web/TypingText.tsx:17-24 | a text that becomes empty returns early and keeps the previous revealed text | text `ab` revealed up to `a`, then text `""`: `a` is still shown | the empty text shows a non-breaking space | low (the terminal never passes an empty text); not executed | `Typing.RestartAsWritten`, shown by `Typing.RestartAsWrittenStale` | `Typing.Restart`, with `Typing.RestartEmptyShowsSpace` |
