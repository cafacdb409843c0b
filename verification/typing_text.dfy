/**
  The typing effect of the terminal (`TypingText`): a text revealed one
  character per timer tick.

  The component keeps the revealed text and the index of the next character.
  A change of `text` restarts the reveal; while characters remain, a timer
  tick appends the next one and advances the index; once the index reaches
  the end no timer is scheduled and the finish callback fires. The timer
  period (`1000 / speed` milliseconds) is left out: only the order of the
  steps matters here.
 */
module Typing {
  import opened JsString

  /** The text being revealed, the index of the next character, and the
      revealed text. */
  datatype Reveal = Reveal(text: string, index: nat, displayed: string)

  /** The revealed text is the prefix of the text up to the index. */
  predicate Consistent(r: Reveal) {
    r.index <= |r.text| && r.displayed == r.text[..r.index]
  }

  /** A freshly mounted component: nothing revealed yet. */
  function Mount(text: string): (r: Reveal)
    ensures Consistent(r) && r.text == text && r.displayed == []
  {
    Reveal(text, 0, [])
  }

  /** The restart effect as the component writes it: an empty text only
      reports completion and returns, keeping whatever was revealed of the
      previous text; any other text starts over. */
  function RestartAsWritten(r: Reveal, text: string): (r': Reveal)
    ensures r'.text == text
  {
    if text == [] then Reveal(text, r.index, r.displayed) else Reveal(text, 0, [])
  }

  /** The restart effect as intended: every change of text starts over. */
  function Restart(r: Reveal, text: string): (r': Reveal)
    ensures Consistent(r') && r'.text == text && r'.index == 0 && r'.displayed == []
  {
    Reveal(text, 0, [])
  }

  /** A timer is pending: the text is non-empty and characters remain. */
  predicate Ticking(r: Reveal) {
    r.text != [] && r.index < |r.text|
  }

  /** The second effect reports completion: the text is non-empty and the
      index has reached its end. */
  predicate Finished(r: Reveal) {
    r.text != [] && r.index >= |r.text|
  }

  /** A timer tick: the next character is appended and the index advances. */
  function Tick(r: Reveal): (r': Reveal)
    requires Ticking(r)
    ensures r'.text == r.text && r'.index == r.index + 1 && r'.index <= |r.text|
    ensures Consistent(r) ==> Consistent(r')
  {
    assert r.text[..r.index + 1] == r.text[..r.index] + [r.text[r.index]];
    Reveal(r.text, r.index + 1, r.displayed + [r.text[r.index]])
  }

  /** What the component shows: the revealed text, or a non-breaking space
      when nothing is revealed and the text itself is empty. */
  function Shown(r: Reveal): string {
    if r.displayed != [] then r.displayed
    else if r.text != [] then []
    else [Nbsp]
  }

  /** `n` ticks, or as many as remain. */
  function Run(r: Reveal, n: nat): Reveal
    decreases n
  {
    if n == 0 || !Ticking(r) then r else Run(Tick(r), n - 1)
  }

  /** After a restart, `n` ticks reveal the first `n` characters, and the
      reveal has finished exactly when all of them are shown. */
  lemma {:induction false} RunReveals(r: Reveal, n: nat)
    requires Consistent(r)
    ensures var r' := Run(r, n);
      && Consistent(r') && r'.text == r.text
      && r'.index == if r.text == [] then r.index else Min(r.index + n, |r.text|)
    decreases n
  {
    if n > 0 && Ticking(r) {
      RunReveals(Tick(r), n - 1);
    }
  }

  /** A restarted reveal of a non-empty text shows the whole text, and has
      finished, after as many ticks as it has characters; before that it
      shows a proper prefix and a tick is pending. */
  lemma RevealCompletes(r: Reveal, text: string, n: nat)
    requires text != []
    ensures var r' := Run(Restart(r, text), n);
      && (n >= |text| ==> Finished(r') && Shown(r') == text)
      && (n < |text| ==> Ticking(r') && Shown(r') == text[..n])
  {
    RunReveals(Restart(r, text), n);
  }

  /** The intended restart shows a non-breaking space for an empty text,
      whatever was revealed before. */
  lemma RestartEmptyShowsSpace(r: Reveal)
    ensures Shown(Restart(r, [])) == [Nbsp]
  {
  }

  /** As written, a text that becomes empty keeps showing what was revealed
      of the previous text instead of the non-breaking space. */
  lemma RestartAsWrittenStale(r: Reveal)
    requires r.displayed != []
    ensures Shown(RestartAsWritten(r, [])) == r.displayed
    ensures !Consistent(RestartAsWritten(r, []))
  {
  }

  /** For instance, "ab" revealed up to "a" and then emptied still shows
      "a". */
  lemma RestartAsWrittenExample()
    ensures Shown(RestartAsWritten(Reveal("ab", 1, "a"), [])) == "a"
    ensures Shown(Restart(Reveal("ab", 1, "a"), [])) == [Nbsp]
  {
  }

  /** The two restarts agree on every non-empty text. */
  lemma RestartsAgree(r: Reveal, text: string)
    requires text != []
    ensures RestartAsWritten(r, text) == Restart(r, text)
  {
  }

  /** The whole reveal driven to its end, one tick at a time. */
  method RevealAll(text: string) returns (shown: string, ticks: nat)
    ensures shown == text && ticks == |text|
  {
    var r := Mount(text);
    ticks := 0;
    while Ticking(r)
      invariant Consistent(r) && r.text == text && r.index == ticks
      decreases |text| - r.index
    {
      r := Tick(r);
      ticks := ticks + 1;
    }
    shown := r.displayed;
  }
}
