/**
  The reply segmenter of the terminal view (`renderAiResponseContent`).

  The reply text is first split with the fence pattern
      ```(?:[a-zA-Z0-9_.-]+)?\n([\s\S]*?)\n```
  whose whole match is captured, so the pieces alternate between the text
  between blocks and the blocks themselves. Each piece is then matched again
  on its own: a piece that holds a block becomes a code segment carrying
  exactly the text between the fence lines, any other piece becomes a prose
  segment of its trimmed text, and prose that trims to nothing is dropped.

  `MatchAt` is the pattern tried at one position, with JavaScript's
  backtracking resolved: the optional language tag is the longest run of tag
  characters (a shorter run would be followed by a tag character, never by
  the newline the pattern needs next), and the lazy body stops at the first
  closing newline-and-three-backticks after the opening line.
 */
module Segmenter {
  import opened Wrappers
  import opened JsString

  /** A piece of the split: text between blocks, or a whole fenced block. */
  datatype Part = Gap(text: string) | Fence(lang: string, payload: string)

  /** What is rendered: prose revealed by a typing effect, or a code block
      shown verbatim. The pattern's language group does not capture, so a
      rendered code block carries no language. */
  datatype Segment = Prose(text: string) | Code(payload: string)

  /** A successful match of the fence pattern: its tag, its body, and the
      index just past its closing backticks. */
  datatype Match = Match(lang: string, payload: string, end: nat)

  const Ticks: string := "```"
  const Close: string := "\n```"

  /** Characters of the class `[a-zA-Z0-9_.-]`. */
  predicate IsLangChar(c: char) {
    ('a' <= c <= 'z') || ('A' <= c <= 'Z') || ('0' <= c <= '9') || c == '_' || c == '.' || c == '-'
  }

  predicate AllLang(s: string) {
    forall k :: 0 <= k < |s| ==> IsLangChar(s[k])
  }

  /** The text a part stands for in the reply. */
  function RawText(p: Part): string {
    match p
    case Gap(t) => t
    case Fence(lang, payload) => Ticks + lang + "\n" + payload + Close
  }

  /** The parts' texts laid end to end. */
  function Concat(parts: seq<Part>): string {
    if parts == [] then [] else RawText(parts[0]) + Concat(parts[1..])
  }

  lemma {:induction false} ConcatAppend(a: seq<Part>, b: seq<Part>)
    ensures Concat(a + b) == Concat(a) + Concat(b)
    decreases |a|
  {
    if a == [] {
      assert a + b == b;
    } else {
      assert (a + b)[1..] == a[1..] + b;
      ConcatAppend(a[1..], b);
    }
  }

  /** Length of the run of tag characters starting at `k`. */
  function LangLength(s: string, k: nat): (n: nat)
    requires k <= |s|
    ensures k + n <= |s|
    decreases |s| - k
  {
    if k < |s| && IsLangChar(s[k]) then 1 + LangLength(s, k + 1) else 0
  }

  /** The run is made of tag characters and cannot be extended. */
  lemma {:induction false} LangLengthSpec(s: string, k: nat)
    requires k <= |s|
    ensures var n := LangLength(s, k);
      AllLang(s[k..k + n]) && (k + n == |s| || !IsLangChar(s[k + n]))
    decreases |s| - k
  {
    if k < |s| && IsLangChar(s[k]) {
      LangLengthSpec(s, k + 1);
      var n := LangLength(s, k);
      assert s[k..k + n] == [s[k]] + s[k + 1..k + n];
    }
  }

  /** The closing newline-and-backticks starts at `p`. */
  predicate CloseAt(s: string, p: int) {
    0 <= p && p + 4 <= |s| && s[p..p + 4] == Close
  }

  /** The first closing fence at or after `j`: where the lazy body stops. */
  function FindClose(s: string, j: nat): (r: Option<nat>)
    requires j <= |s|
    ensures r.Some? ==> j <= r.value && r.value + 4 <= |s|
    decreases |s| - j
  {
    if j + 4 > |s| then None
    else if CloseAt(s, j) then Some(j)
    else FindClose(s, j + 1)
  }

  /** `FindClose` finds a closing fence, and no earlier one. */
  lemma {:induction false} FindCloseSpec(s: string, j: nat)
    requires j <= |s|
    ensures FindClose(s, j).Some? ==>
      var p := FindClose(s, j).value;
      CloseAt(s, p) && forall q :: j <= q < p ==> !CloseAt(s, q)
    ensures FindClose(s, j).None? ==> forall q :: j <= q ==> !CloseAt(s, q)
    decreases |s| - j
  {
    if j + 4 <= |s| && !CloseAt(s, j) {
      FindCloseSpec(s, j + 1);
    }
  }

  /** The fence pattern tried at index `i` of `s`. */
  function MatchAt(s: string, i: nat): (r: Option<Match>)
    requires i <= |s|
    ensures r.Some? ==> i < r.value.end <= |s|
  {
    if i + 3 > |s| || s[i..i + 3] != Ticks then None
    else
      var j := i + 3 + LangLength(s, i + 3);
      if j == |s| || s[j] != '\n' then None
      else
        match FindClose(s, j + 1)
        case None => None
        case Some(p) => Some(Match(s[i + 3..j], s[j + 1..p], p + 4))
  }

  /** No closing fence lies wholly inside `t`. */
  predicate NoCloseIn(t: string) {
    forall q | 0 <= q <= |t| :: !CloseAt(t, q)
  }

  /** A slice of `s` is the concatenation of its consecutive sub-slices. */
  lemma SliceSplit(s: string, a: nat, b: nat, c: nat)
    requires a <= b <= c <= |s|
    ensures s[a..c] == s[a..b] + s[b..c]
  {
  }

  /** A slice cut at four inner points is its five pieces in order. */
  lemma SliceSplit5(s: string, a: nat, b: nat, c: nat, d: nat, e: nat, f: nat)
    requires a <= b <= c <= d <= e <= f <= |s|
    ensures s[a..f] == s[a..b] + s[b..c] + s[c..d] + s[d..e] + s[e..f]
  {
    SliceSplit(s, a, e, f);
    SliceSplit(s, a, d, e);
    SliceSplit(s, a, c, d);
    SliceSplit(s, a, b, c);
  }

  /** Where a match lies in the text: its ticks, its tag, the newline, its
      body and its closing fence, one after another. */
  lemma MatchAtPieces(s: string, i: nat)
    requires i <= |s|
    requires MatchAt(s, i).Some?
    ensures var m := MatchAt(s, i).value;
      var j := i + 3 + |m.lang|;
      && |m.lang| == LangLength(s, i + 3)
      && j + 1 + |m.payload| + 4 == m.end
      && s[i..i + 3] == Ticks && s[i + 3..j] == m.lang && s[j..j + 1] == "\n"
      && s[j + 1..m.end - 4] == m.payload && s[m.end - 4..m.end] == Close
  {
    assert i + 3 <= |s| && s[i..i + 3] == Ticks;
    var j := i + 3 + LangLength(s, i + 3);
    MatchAtBody(s, i);
    FindCloseSpec(s, j + 1);
    assert s[j..j + 1] == [s[j]];
  }

  /** A match spans exactly the text of its block. */
  lemma MatchAtText(s: string, i: nat)
    requires i <= |s|
    requires MatchAt(s, i).Some?
    ensures var m := MatchAt(s, i).value;
      s[i..m.end] == RawText(Fence(m.lang, m.payload))
  {
    var m := MatchAt(s, i).value;
    MatchAtPieces(s, i);
    FenceSlices(s, i, m.end, m.lang, m.payload);
  }

  /** A slice that reads ticks, tag, newline, body and closing fence, one
      after another, is that block written out. */
  lemma FenceSlices(s: string, i: nat, e: nat, lang: string, payload: string)
    requires i + 3 + |lang| + 1 + |payload| + 4 == e <= |s|
    requires var j := i + 3 + |lang|;
      && s[i..i + 3] == Ticks && s[i + 3..j] == lang && s[j..j + 1] == "\n"
      && s[j + 1..e - 4] == payload && s[e - 4..e] == Close
    ensures s[i..e] == RawText(Fence(lang, payload))
  {
    var j := i + 3 + |lang|;
    SliceSplit5(s, i, i + 3, j, j + 1, e - 4, e);
    calc {
      s[i..e];
      s[i..i + 3] + s[i + 3..j] + s[j..j + 1] + s[j + 1..e - 4] + s[e - 4..e];
      Ticks + lang + "\n" + payload + Close;
    }
  }

  /** A match's tag is made of tag characters, and its body holds no closing
      fence: the lazy body stops at the first one. */
  lemma MatchAtShape(s: string, i: nat)
    requires i <= |s|
    requires MatchAt(s, i).Some?
    ensures var m := MatchAt(s, i).value;
      AllLang(m.lang) && NoCloseIn(m.payload)
  {
    var m := MatchAt(s, i).value;
    MatchAtPieces(s, i);
    MatchAtFirstClose(s, i);
    LangLengthSpec(s, i + 3);
    var j := i + 3 + |m.lang|;
    PayloadNoClose(s, j + 1, m.end - 4, m.payload);
  }

  /** The body of a match runs up to the first closing fence after the
      newline. */
  lemma MatchAtFirstClose(s: string, i: nat)
    requires i <= |s|
    requires MatchAt(s, i).Some?
    ensures var m := MatchAt(s, i).value;
      forall q :: i + 4 + LangLength(s, i + 3) <= q < m.end - 4 ==> !CloseAt(s, q)
  {
    assert i + 3 <= |s| && s[i..i + 3] == Ticks;
    var j := i + 3 + LangLength(s, i + 3);
    MatchAtBody(s, i);
    FindCloseSpec(s, j + 1);
  }

  /** A slice with no closing fence starting inside it holds none. */
  lemma PayloadNoClose(s: string, a: nat, b: nat, payload: string)
    requires a <= b <= |s| && payload == s[a..b]
    requires forall q :: a <= q < b ==> !CloseAt(s, q)
    ensures NoCloseIn(payload)
  {
    forall q | 0 <= q <= |payload|
      ensures !CloseAt(payload, q)
    {
      if q + 4 <= |payload| {
        CloseInside(s, a, payload, a + q);
      }
    }
  }

  /** `s.split(pattern)` resumed with the current piece starting at `start`
      and the next match attempt at `i`. As in JavaScript, a match is tried
      only at indices before the end, and the text after the last match is
      always a piece, even when it is empty. */
  function SplitFrom(s: string, start: nat, i: nat): seq<Part>
    requires start <= i <= |s|
    decreases |s| - i
  {
    if i == |s| then [Gap(s[start..])]
    else
      match MatchAt(s, i)
      case Some(m) => [Gap(s[start..i]), Fence(m.lang, m.payload)] + SplitFrom(s, m.end, m.end)
      case None => SplitFrom(s, start, i + 1)
  }

  /** `responseText.split(pattern)` with its captured blocks kept. The split
      loses nothing (its pieces written out again give the reply back), its
      pieces alternate between text and blocks, starting and ending with
      text, and every block has a tag of tag characters and a body without a
      closing fence. It is a layout: no match starts inside the text between
      blocks, so every match the scan meets becomes a block. */
  function Split(s: string): (r: seq<Part>)
    ensures Concat(r) == s
    ensures Alternates(r)
    ensures forall k :: 0 <= k < |r| ==> WellFormedFence(r[k])
    ensures Layout(r)
  {
    SplitFromRoundTrip(s, 0, 0);
    SplitFromAlternates(s, 0, 0);
    SplitFromFencesWellFormed(s, 0, 0);
    SplitFromIsLayout(s, 0, 0);
    SplitFrom(s, 0, 0)
  }

  lemma ConcatPair(a: Part, b: Part)
    ensures Concat([a, b]) == RawText(a) + RawText(b)
  {
    assert [a, b][1..] == [b];
    assert Concat([b]) == RawText(b) + Concat([]);
  }

  /** Text, then a block, then pieces that rebuild the rest of `s`, rebuild
      `s` from `start`. */
  lemma RoundTripStep(s: string, start: nat, i: nat, m: Match, rest: seq<Part>)
    requires start <= i < m.end <= |s|
    requires s[i..m.end] == RawText(Fence(m.lang, m.payload))
    requires Concat(rest) == s[m.end..]
    ensures Concat([Gap(s[start..i]), Fence(m.lang, m.payload)] + rest) == s[start..]
  {
    var g, f := Gap(s[start..i]), Fence(m.lang, m.payload);
    ConcatAppend([g, f], rest);
    ConcatPair(g, f);
    SliceSplit(s, start, i, m.end);
    SliceSplit(s, start, m.end, |s|);
    assert s[start..|s|] == s[start..];
  }

  lemma {:induction false} SplitFromRoundTrip(s: string, start: nat, i: nat)
    requires start <= i <= |s|
    ensures Concat(SplitFrom(s, start, i)) == s[start..]
    decreases |s| - i
  {
    if i == |s| {
      assert Concat([Gap(s[start..])]) == s[start..] + Concat([]);
    } else if MatchAt(s, i).Some? {
      var m := MatchAt(s, i).value;
      MatchAtText(s, i);
      SplitFromRoundTrip(s, m.end, m.end);
      RoundTripStep(s, start, i, m, SplitFrom(s, m.end, m.end));
    } else {
      SplitFromRoundTrip(s, start, i + 1);
    }
  }

  /** Pieces alternate, starting and ending with between-block text. */
  predicate Alternates(parts: seq<Part>) {
    && |parts| % 2 == 1
    && forall k :: 0 <= k < |parts| ==> (parts[k].Gap? <==> k % 2 == 0)
  }

  lemma {:induction false} SplitFromAlternates(s: string, start: nat, i: nat)
    requires start <= i <= |s|
    ensures Alternates(SplitFrom(s, start, i))
    decreases |s| - i
  {
    if i < |s| {
      match MatchAt(s, i)
      case Some(m) =>
        SplitFromAlternates(s, m.end, m.end);
        AlternatesCons(Gap(s[start..i]), Fence(m.lang, m.payload), SplitFrom(s, m.end, m.end));
      case None =>
        SplitFromAlternates(s, start, i + 1);
    }
  }

  /** Text and a block put before alternating pieces keep them alternating. */
  lemma AlternatesCons(g: Part, f: Part, rest: seq<Part>)
    requires g.Gap? && f.Fence? && Alternates(rest)
    ensures Alternates([g, f] + rest)
  {
    var all := [g, f] + rest;
    forall k | 0 <= k < |all|
      ensures all[k].Gap? <==> k % 2 == 0
    {
      if k >= 2 {
        assert all[k] == rest[k - 2];
      }
    }
  }

  /** Blocks are well formed: tag characters only, and a body without a
      closing fence in it. */
  predicate WellFormedFence(p: Part) {
    p.Fence? ==> AllLang(p.lang) && NoCloseIn(p.payload)
  }

  lemma {:induction false} SplitFromFencesWellFormed(s: string, start: nat, i: nat)
    requires start <= i <= |s|
    ensures forall k :: 0 <= k < |SplitFrom(s, start, i)| ==> WellFormedFence(SplitFrom(s, start, i)[k])
    decreases |s| - i
  {
    if i < |s| {
      match MatchAt(s, i)
      case Some(m) =>
        MatchAtShape(s, i);
        SplitFromFencesWellFormed(s, m.end, m.end);
        var rest := SplitFrom(s, m.end, m.end);
        var all := [Gap(s[start..i]), Fence(m.lang, m.payload)] + rest;
        assert forall k :: 2 <= k < |all| ==> all[k] == rest[k - 2];
      case None =>
        SplitFromFencesWellFormed(s, start, i + 1);
    }
  }

  /* ---------------- the inverse round trip ---------------- */

  /** No backtick in `t`: nothing in it can open a block. */
  predicate NoTick(t: string) {
    '`' !in t
  }

  /** No match of the pattern starts in the first `n` characters of `t`. */
  predicate NoMatchBefore(t: string, n: nat) {
    n <= |t| && forall x | 0 <= x < n :: MatchAt(t, x).None?
  }

  /** A layout: text in which no match starts, then any number of
      well-formed blocks, each followed by such text. Where a match may
      start is judged on the written-out text from the piece on, so a
      backtick in the text is allowed as long as it opens no block. */
  predicate Layout(parts: seq<Part>)
    decreases |parts|
  {
    && |parts| >= 1
    && parts[0].Gap? && NoMatchBefore(Concat(parts), |parts[0].text|)
    && (|parts| == 1 ||
        (&& |parts| >= 3
         && parts[1].Fence? && AllLang(parts[1].lang) && NoCloseIn(parts[1].payload)
         && Layout(parts[2..])))
  }

  /** A maximal run of `n` tag characters at `k` is what `LangLength` finds. */
  lemma {:induction false} LangLengthOf(s: string, k: nat, n: nat)
    requires k + n <= |s| && AllLang(s[k..k + n])
    requires k + n == |s| || !IsLangChar(s[k + n])
    ensures LangLength(s, k) == n
    decreases n
  {
    if n > 0 {
      assert s[k] == s[k..k + n][0];
      var t := s[k + 1..k + n];
      forall x | 0 <= x < |t|
        ensures IsLangChar(t[x])
      {
        assert t[x] == s[k..k + n][x + 1];
      }
      LangLengthOf(s, k + 1, n - 1);
    }
  }

  /** A closing fence at `p` with none before it from `j` on is the one found. */
  lemma {:induction false} FindCloseFirst(s: string, j: nat, p: nat)
    requires j <= p && CloseAt(s, p)
    requires forall q :: j <= q < p ==> !CloseAt(s, q)
    ensures FindClose(s, j) == Some(p)
    decreases p - j
  {
    if j < p {
      FindCloseFirst(s, j + 1, p);
    }
  }

  /** Where `s` holds `f` at `i`, its slices are those of `f`. */
  lemma HoldsAt(s: string, i: nat, f: string, x: nat, y: nat)
    requires i + |f| <= |s| && s[i..i + |f|] == f && x <= y <= |f|
    ensures s[i + x..i + y] == f[x..y]
  {
    SliceOfSlice(s, i, i + |f|, x, y);
  }

  /** The pieces of a written-out block at the indices they take in it. */
  lemma RawFencePieces(lang: string, payload: string)
    ensures var f := RawText(Fence(lang, payload));
      var p := 4 + |lang| + |payload|;
      && |f| == p + 4
      && f[..3] == Ticks && f[3..3 + |lang|] == lang && f[3 + |lang|] == '\n'
      && f[4 + |lang|..p] == payload && f[p..] == Close
  {
    var f := RawText(Fence(lang, payload));
    var p := 4 + |lang| + |payload|;
    assert f == Ticks + lang + "\n" + payload + Close;
    assert f[..3] == Ticks && f[3..3 + |lang|] == lang && f[3 + |lang|] == '\n';
    assert f[4 + |lang|..p] == payload && f[p..] == Close;
  }

  /** The pieces of a block written out at `i`: its ticks, tag, newline,
      body and closing fence, at the indices they take in `s`. */
  lemma FencePieces(s: string, i: nat, lang: string, payload: string)
    requires i + |RawText(Fence(lang, payload))| <= |s|
    requires s[i..i + |RawText(Fence(lang, payload))|] == RawText(Fence(lang, payload))
    ensures var j := i + 3 + |lang|;
      && s[i..i + 3] == Ticks && s[i + 3..j] == lang && s[j] == '\n'
      && s[j + 1..j + 1 + |payload|] == payload && CloseAt(s, j + 1 + |payload|)
  {
    var f := RawText(Fence(lang, payload));
    var j := i + 3 + |lang|;
    var p := j + 1 + |payload|;
    RawFencePieces(lang, payload);
    HoldsAt(s, i, f, 0, 3);
    HoldsAt(s, i, f, 3, 3 + |lang|);
    HoldsAt(s, i, f, p - i, |f|);
    HoldsAt(s, i, f, 4 + |lang|, p - i);
    assert s[j] == s[i..i + |f|][3 + |lang|];
  }

  /** A closing fence cannot start in the three characters before another:
      its backticks would have to cover that one's newline. */
  lemma NotStraddling(s: string, q: nat, p: nat)
    requires q < p < q + 4 && CloseAt(s, p)
    ensures !CloseAt(s, q)
  {
    assert s[p] == s[p..p + 4][0] == '\n';
    assert s[q..q + 4][p - q] == s[p];
    assert Close[p - q] == '`';
  }

  /** A body without a closing fence, followed by one, holds no earlier
      closing fence: one straddling the end would need a backtick where the
      closing newline is. */
  lemma NoEarlierClose(s: string, j: nat, payload: string)
    requires j + |payload| <= |s| && s[j..j + |payload|] == payload
    requires NoCloseIn(payload) && CloseAt(s, j + |payload|)
    ensures forall q :: j <= q < j + |payload| ==> !CloseAt(s, q)
  {
    var p := j + |payload|;
    forall q | j <= q < p
      ensures !CloseAt(s, q)
    {
      if q + 4 <= p {
        CloseInside(s, j, payload, q);
      } else {
        NotStraddling(s, q, p);
      }
    }
  }

  /** Inside a copy of `payload`, a closing fence of `s` is one of `payload`. */
  lemma CloseInside(s: string, j: nat, payload: string, q: nat)
    requires j + |payload| <= |s| && s[j..j + |payload|] == payload
    requires j <= q && q + 4 <= j + |payload|
    ensures CloseAt(s, q) == CloseAt(payload, q - j)
  {
    HoldsAt(s, j, payload, q - j, q - j + 4);
  }

  /** A well-formed block written out at `i` is matched there, exactly. */
  lemma MatchAtFence(s: string, i: nat, lang: string, payload: string)
    requires AllLang(lang) && NoCloseIn(payload)
    requires i + |RawText(Fence(lang, payload))| <= |s|
    requires s[i..i + |RawText(Fence(lang, payload))|] == RawText(Fence(lang, payload))
    ensures MatchAt(s, i) == Some(Match(lang, payload, i + |RawText(Fence(lang, payload))|))
  {
    RawFencePieces(lang, payload);
    FencePieces(s, i, lang, payload);
    MatchAtFromPieces(s, i, i + 3 + |lang|, i + 4 + |lang| + |payload|, lang, payload);
  }

  /** Ticks, a tag of tag characters, a newline, a body without a closing
      fence and a closing fence, one after another, are matched exactly. */
  lemma MatchAtFromPieces(s: string, i: nat, j: nat, p: nat, lang: string, payload: string)
    requires AllLang(lang) && NoCloseIn(payload)
    requires j == i + 3 + |lang| && p == j + 1 + |payload| && p + 4 <= |s|
    requires s[i..i + 3] == Ticks && s[i + 3..j] == lang && s[j] == '\n'
    requires s[j + 1..p] == payload && CloseAt(s, p)
    ensures MatchAt(s, i) == Some(Match(lang, payload, p + 4))
  {
    LangLengthOf(s, i + 3, |lang|);
    MatchAtNewline(s, i, j);
    NoEarlierClose(s, j + 1, payload);
    FindCloseFirst(s, j + 1, p);
    assert MatchBody(s, i, j) == Some(Match(s[i + 3..j], s[j + 1..p], p + 4));
  }

  lemma ConcatTwo(parts: seq<Part>)
    requires |parts| >= 2
    ensures Concat(parts) == RawText(parts[0]) + RawText(parts[1]) + Concat(parts[2..])
  {
    assert parts[1..][1..] == parts[2..];
  }

  /** No match starts at a character other than a backtick. */
  lemma NoMatchOffTick(s: string, i: nat)
    requires i < |s| && s[i] != '`'
    ensures MatchAt(s, i) == None
  {
    if i + 3 <= |s| {
      assert s[i..i + 3][0] == s[i];
    }
  }

  /** A suffix of `s` that reads `g + x` holds `g` from its start on. */
  lemma SuffixHead(s: string, start: nat, g: string, x: string, i: nat)
    requires start <= i < start + |g| && start <= |s| && s[start..] == g + x
    ensures s[i] == g[i - start]
  {
    assert s[i] == s[start..][i - start];
  }

  /** A suffix of `s` that reads `g + f + r`, cut into its three pieces. */
  lemma SuffixPieces(s: string, start: nat, g: string, f: string, r: string)
    requires start <= |s| && s[start..] == g + f + r
    ensures var i := start + |g|;
      && i + |f| <= |s| && s[start..i] == g && s[i..i + |f|] == f && s[i + |f|..] == r
  {
    var t := s[start..];
    var i := start + |g|;
    assert t[..|g|] == g && t[|g|..|g| + |f|] == f && t[|g| + |f|..] == r;
    assert s[start..i] == t[..|g|];
    assert s[i..i + |f|] == t[|g|..|g| + |f|];
    assert s[i + |f|..] == t[|g| + |f|..];
  }

  /** One step of the split, read off its definition. */
  lemma SplitFromStep(s: string, start: nat, i: nat)
    requires start <= i <= |s|
    ensures i == |s| ==> SplitFrom(s, start, i) == [Gap(s[start..])]
    ensures i < |s| && MatchAt(s, i).None? ==> SplitFrom(s, start, i) == SplitFrom(s, start, i + 1)
    ensures i < |s| && MatchAt(s, i).Some? ==>
      var m := MatchAt(s, i).value;
      SplitFrom(s, start, i) == [Gap(s[start..i]), Fence(m.lang, m.payload)] + SplitFrom(s, m.end, m.end)
  {
  }

  /** A layout of more than one part opens with text and a well-formed
      block, and goes on as a layout. */
  lemma LayoutStep(parts: seq<Part>)
    requires Layout(parts) && |parts| > 1
    ensures |parts| >= 3 && parts[1].Fence? && AllLang(parts[1].lang) && NoCloseIn(parts[1].payload)
    ensures Layout(parts[2..])
  {
  }

  lemma {:induction false} SplitFromLayout(s: string, start: nat, i: nat, parts: seq<Part>)
    requires start <= i <= |s| && Layout(parts)
    requires s[start..] == Concat(parts)
    requires i - start <= |parts[0].text|
    ensures SplitFrom(s, start, i) == parts
    decreases |s| - i, 2
  {
    var g := parts[0].text;
    if i < start + |g| {
      SplitFromLayoutGap(s, start, i, parts);
    } else if |parts| == 1 {
      SplitFromLayoutEnd(s, start, i, parts);
    } else {
      LayoutStep(parts);
      ConcatTwo(parts);
      assert parts == [Gap(g), parts[1]] + parts[2..];
      SplitFromLayoutFence(s, start, g, parts[1], parts[2..]);
    }
  }

  /** Inside the leading text no match starts. */
  lemma {:induction false} SplitFromLayoutGap(s: string, start: nat, i: nat, parts: seq<Part>)
    requires start <= i <= |s| && Layout(parts)
    requires s[start..] == Concat(parts)
    requires i < start + |parts[0].text|
    ensures SplitFrom(s, start, i) == parts
    decreases |s| - i, 0
  {
    MatchAtSuffix(s, start, i - start);
    SplitFromStep(s, start, i);
    SplitFromLayout(s, start, i + 1, parts);
  }

  /** A layout of one text is the rest of the text. */
  lemma SplitFromLayoutEnd(s: string, start: nat, i: nat, parts: seq<Part>)
    requires start <= i <= |s| && Layout(parts) && |parts| == 1
    requires s[start..] == Concat(parts)
    requires i - start == |parts[0].text|
    ensures SplitFrom(s, start, i) == parts
  {
    var g := parts[0].text;
    assert parts[1..] == [];
    assert Concat(parts) == g + Concat([]);
    assert s[start..] == g;
    assert i == |s|;
    SplitFromStep(s, start, i);
    assert parts == [Gap(g)];
  }

  /** After the leading text comes a block, matched exactly. */
  lemma {:induction false} SplitFromLayoutFence(s: string, start: nat, g: string, fp: Part, rest: seq<Part>)
    requires fp.Fence? && AllLang(fp.lang) && NoCloseIn(fp.payload) && Layout(rest)
    requires start + |g| <= |s| && s[start..] == g + RawText(fp) + Concat(rest)
    ensures SplitFrom(s, start, start + |g|) == [Gap(g), fp] + rest
    decreases |s| - start - |g|, 1
  {
    var m := Match(fp.lang, fp.payload, start + |g| + |RawText(fp)|);
    FenceAfterGap(s, start, start + |g|, g, fp, Concat(rest), m);
    assert start + |g| + 8 <= m.end <= |s|;
    assert MatchAt(s, start + |g|) == Some(m);
    assert fp == Fence(m.lang, m.payload);
    assert s[start..start + |g|] == g;
    assert s[m.end..] == Concat(rest);
    assert Layout(rest);
    SplitAfterMatch(s, start, g, m, fp, rest);
  }

  /** The split from a gap followed by a match goes on as the layout after
      the match. */
  lemma {:induction false} SplitAfterMatch(s: string, start: nat, g: string, m: Match, fp: Part, rest: seq<Part>)
    requires start + |g| + 8 <= m.end <= |s| && MatchAt(s, start + |g|) == Some(m)
    requires fp == Fence(m.lang, m.payload) && s[start..start + |g|] == g
    requires s[m.end..] == Concat(rest) && Layout(rest)
    ensures SplitFrom(s, start, start + |g|) == [Gap(g), fp] + rest
    decreases |s| - start - |g|, 0
  {
    SplitFromLayout(s, m.end, m.end, rest);
    FenceStep(s, start, g, m, fp, rest);
  }

  /** A well-formed block written after a gap is matched where it starts. */
  lemma FenceAfterGap(s: string, start: nat, i: nat, g: string, fp: Part, r: string, m: Match)
    requires fp.Fence? && AllLang(fp.lang) && NoCloseIn(fp.payload)
    requires i == start + |g| <= |s| && s[start..] == g + RawText(fp) + r
    requires m == Match(fp.lang, fp.payload, i + |RawText(fp)|)
    ensures i + 8 <= m.end <= |s| && s[start..i] == g && s[m.end..] == r
    ensures MatchAt(s, i) == Some(m) && fp == Fence(m.lang, m.payload)
  {
    var f := RawText(fp);
    assert |f| == 8 + |fp.lang| + |fp.payload|;
    SuffixPieces(s, start, g, f, r);
    MatchAtFence(s, i, fp.lang, fp.payload);
  }

  /** The split at a match: the text before it, its block, the rest. */
  lemma FenceStep(s: string, start: nat, g: string, m: Match, fp: Part, rest: seq<Part>)
    requires start + |g| < |s| && MatchAt(s, start + |g|) == Some(m) && fp == Fence(m.lang, m.payload)
    requires s[start..start + |g|] == g && SplitFrom(s, m.end, m.end) == rest
    ensures SplitFrom(s, start, start + |g|) == [Gap(g), fp] + rest
  {
    SplitFromStep(s, start, start + |g|);
  }

  /** Splitting gives back any layout written out. With the layout and the
      round trip `Split` promises, the split of a reply is its only layout,
      and splitting and writing out are inverses on layouts. */
  lemma SplitLayout(parts: seq<Part>)
    requires Layout(parts)
    ensures Split(Concat(parts)) == parts
  {
    var s := Concat(parts);
    assert s[0..] == s;
    SplitFromLayout(s, 0, 0, parts);
  }

  /** A match starts at an index of a suffix exactly when one starts at the
      same place in the whole text. */
  lemma MatchAtSuffix(s: string, a: nat, x: nat)
    requires a + x <= |s|
    ensures MatchAt(s[a..], x).None? <==> MatchAt(s, a + x).None?
  {
    MatchAtLocal(s, a, |s|, x);
    assert s[a..|s|] == s[a..];
  }

  /** Text in which no match starts, then a well-formed block and a layout,
      is a layout. */
  lemma LayoutCons(g: string, f: Part, rest: seq<Part>)
    requires f.Fence? && AllLang(f.lang) && NoCloseIn(f.payload) && Layout(rest)
    requires NoMatchBefore(Concat([Gap(g), f] + rest), |g|)
    ensures Layout([Gap(g), f] + rest)
  {
    var ps := [Gap(g), f] + rest;
    assert ps[2..] == rest;
  }

  /** Text without backticks at the front of `t` opens no block. */
  lemma NoTickNoMatch(g: string, t: string)
    requires NoTick(g) && |g| <= |t| && t[..|g|] == g
    ensures NoMatchBefore(t, |g|)
  {
    forall x | 0 <= x < |g|
      ensures MatchAt(t, x).None?
    {
      assert t[x] == g[x] && g[x] in g;
      NoMatchOffTick(t, x);
    }
  }

  /** The split, resumed where no match started since `start`, is a layout. */
  lemma {:induction false} SplitFromIsLayout(s: string, start: nat, i: nat)
    requires start <= i <= |s|
    requires forall x :: start <= x < i ==> MatchAt(s, x).None?
    ensures Layout(SplitFrom(s, start, i))
    decreases |s| - i
  {
    if i == |s| {
      LastGapIsLayout(s, start);
    } else if MatchAt(s, i).Some? {
      var m := MatchAt(s, i).value;
      SplitFromIsLayout(s, m.end, m.end);
      MatchIsLayoutStep(s, start, i);
    } else {
      SplitFromIsLayout(s, start, i + 1);
    }
  }

  /** The text after the last match is a layout of its own. */
  lemma LastGapIsLayout(s: string, start: nat)
    requires start <= |s|
    requires forall x :: start <= x < |s| ==> MatchAt(s, x).None?
    ensures Layout(SplitFrom(s, start, |s|))
  {
    var parts := [Gap(s[start..])];
    GapNoMatch(s, start, |s|);
    assert Concat(parts) == s[start..] + Concat([]) == s[start..];
    assert NoMatchBefore(Concat(parts), |parts[0].text|);
    assert SplitFrom(s, start, |s|) == parts;
  }

  /** The text before a match, the match's block and a layout after it
      form a layout. */
  lemma MatchIsLayoutStep(s: string, start: nat, i: nat)
    requires start <= i < |s| && MatchAt(s, i).Some?
    requires forall x :: start <= x < i ==> MatchAt(s, x).None?
    requires Layout(SplitFrom(s, MatchAt(s, i).value.end, MatchAt(s, i).value.end))
    ensures Layout(SplitFrom(s, start, i))
  {
    var m := MatchAt(s, i).value;
    MatchAtShape(s, i);
    SplitFromRoundTrip(s, start, i);
    SplitFromStep(s, start, i);
    GapNoMatch(s, start, i);
    var ps := [Gap(s[start..i]), Fence(m.lang, m.payload)] + SplitFrom(s, m.end, m.end);
    assert ps == SplitFrom(s, start, i);
    assert Concat(ps) == s[start..];
    assert NoMatchBefore(Concat(ps), |s[start..i]|);
    LayoutCons(s[start..i], Fence(m.lang, m.payload), SplitFrom(s, m.end, m.end));
  }

  /** Where no match starts in `[start, i)` of `s`, none starts in the first
      `i - start` characters of the suffix from `start`. */
  lemma GapNoMatch(s: string, start: nat, i: nat)
    requires start <= i <= |s|
    requires forall x :: start <= x < i ==> MatchAt(s, x).None?
    ensures NoMatchBefore(s[start..], i - start)
  {
    forall x | 0 <= x < i - start
      ensures MatchAt(s[start..], x).None?
    {
      MatchAtSuffix(s, start, x);
    }
  }

  /** No match starts at `x` when one of its three places is not a backtick. */
  lemma NoTicksAt(s: string, x: nat, y: nat)
    requires x <= y < x + 3 && y < |s| && s[y] != '`'
    ensures MatchAt(s, x).None?
  {
    if x + 3 <= |s| {
      assert s[x..x + 3][y - x] == s[y];
    }
  }

  /** A reply whose text opens with a word in inline backticks. */
  const TickedReply: string := "Use `x`:\n```py\nA\n```"

  lemma TickedTextOpensNothing()
    ensures NoMatchBefore(TickedReply, 9)
  {
    var s := TickedReply;
    assert s[0] == 'U' && s[1] == 's' && s[2] == 'e' && s[3] == ' ' && s[5] == 'x';
    assert s[7] == ':' && s[8] == '\n';
    forall x | 0 <= x < 9
      ensures MatchAt(s, x).None?
    {
      NoTicksAt(s, x, if x == 4 || x == 6 then x + 1 else x);
    }
  }

  /** Inline backticks before a block do not hide it: the block after them
      is still split off. */
  lemma InlineTickBeforeBlock()
    ensures Split(TickedReply) == [Gap("Use `x`:\n"), Fence("py", "A"), Gap("")]
  {
    var last := [Gap("")];
    var parts := [Gap("Use `x`:\n"), Fence("py", "A")] + last;
    assert Concat(last) == "" + Concat([]);
    assert Layout(last);
    ConcatTwo(parts);
    assert parts[2..] == last;
    assert Concat(parts) == "Use `x`:\n" + "```py\nA\n```" == TickedReply;
    TickedTextOpensNothing();
    assert NoCloseIn("A");
    LayoutCons("Use `x`:\n", Fence("py", "A"), last);
    SplitLayout(parts);
  }

  /* ---------------- matching inside a slice ---------------- */

  /** A match found in the whole text, seen from inside the slice `[a, b)`:
      kept, with its end made relative, when it ends inside the slice. */
  function Shifted(r: Option<Match>, a: nat, b: nat): Option<Match> {
    match r
    case Some(m) => if a <= m.end <= b then Some(Match(m.lang, m.payload, m.end - a)) else None
    case None => None
  }

  lemma SliceOfSlice(s: string, a: nat, b: nat, x: nat, y: nat)
    requires a <= b <= |s| && x <= y <= b - a
    ensures s[a..b][x..y] == s[a + x..a + y]
  {
    assert forall z :: 0 <= z < y - x ==> s[a..b][x..y][z] == s[a + x + z];
  }

  lemma {:induction false} LangLengthLocal(s: string, a: nat, b: nat, x: nat)
    requires a <= b <= |s| && x <= b - a
    ensures LangLength(s[a..b], x) == Min(LangLength(s, a + x), b - a - x)
    decreases b - a - x
  {
    var t := s[a..b];
    if x < |t| {
      assert t[x] == s[a + x];
      if IsLangChar(t[x]) {
        LangLengthLocal(s, a, b, x + 1);
      }
    }
  }

  lemma {:induction false} FindCloseLocal(s: string, a: nat, b: nat, x: nat)
    requires a <= b <= |s| && x <= b - a
    ensures FindClose(s[a..b], x) ==
      match FindClose(s, a + x)
      case Some(q) => if q + 4 <= b then Some(q - a) else None
      case None => None
    decreases b - a - x
  {
    if x + 4 <= b - a {
      CloseAtLocal(s, a, b, x);
      if !CloseAt(s, a + x) {
        FindCloseLocal(s, a, b, x + 1);
      }
    }
  }

  /** A closing fence inside a slice is one of the whole text. */
  lemma CloseAtLocal(s: string, a: nat, b: nat, x: nat)
    requires a <= b <= |s| && x + 4 <= b - a
    ensures CloseAt(s[a..b], x) == CloseAt(s, a + x)
  {
    SliceOfSlice(s, a, b, x, x + 4);
  }

  /** The part of `MatchAt` after the opening line: the body and the closing
      fence searched from the index just past the opening newline. */
  function MatchBody(s: string, i: nat, j: nat): Option<Match>
    requires i + 3 <= j < |s|
  {
    match FindClose(s, j + 1)
    case None => None
    case Some(p) => Some(Match(s[i + 3..j], s[j + 1..p], p + 4))
  }

  lemma MatchAtBody(s: string, i: nat)
    requires i + 3 <= |s| && s[i..i + 3] == Ticks
    ensures var j := i + 3 + LangLength(s, i + 3);
      MatchAt(s, i) == if j == |s| || s[j] != '\n' then None else MatchBody(s, i, j)
  {
  }

  lemma MatchBodyLocal(s: string, a: nat, b: nat, k: nat, jt: nat)
    requires a <= b <= |s| && k + 3 <= jt < b - a
    ensures MatchBody(s[a..b], k, jt) == Shifted(MatchBody(s, a + k, a + jt), a, b)
  {
    var t := s[a..b];
    FindCloseLocal(s, a, b, jt + 1);
    match FindClose(s, a + jt + 1)
    case Some(q) =>
      if q + 4 <= b {
        SliceOfSlice(s, a, b, k + 3, jt);
        SliceOfSlice(s, a, b, jt + 1, q - a);
      }
    case None =>
  }

  /** The case of `MatchAtLocal` where the slice opens a fence at `k`. */
  lemma MatchAtLocalTicks(s: string, a: nat, b: nat, k: nat)
    requires a <= b <= |s| && k + 3 <= b - a
    requires s[a..b][k..k + 3] == Ticks && s[a + k..a + k + 3] == Ticks
    ensures MatchAt(s[a..b], k) == Shifted(MatchAt(s, a + k), a, b)
  {
    var n := LangLength(s, a + k + 3);
    LangLengthLocal(s, a, b, k + 3);
    if n < b - a - k - 3 {
      MatchAtLocalInside(s, a, b, k);
    } else {
      MatchAtLocalPast(s, a, b, k);
    }
  }

  /** The tag ends inside the slice: both sides look at the same newline
      and the same closing fence. */
  lemma MatchAtLocalInside(s: string, a: nat, b: nat, k: nat)
    requires a <= b <= |s| && k + 3 <= b - a
    requires s[a..b][k..k + 3] == Ticks && s[a + k..a + k + 3] == Ticks
    requires LangLength(s, a + k + 3) < b - a - k - 3
    requires LangLength(s[a..b], k + 3) == LangLength(s, a + k + 3)
    ensures MatchAt(s[a..b], k) == Shifted(MatchAt(s, a + k), a, b)
  {
    var t := s[a..b];
    var i := a + k;
    var jt := k + 3 + LangLength(t, k + 3);
    var j := i + 3 + LangLength(s, i + 3);
    assert a + jt == j && jt < |t| && j < |s|;
    assert t[jt] == s[j];
    if s[j] == '\n' {
      MatchAtLocalBody(s, a, b, k, jt);
    } else {
      MatchAtNoNewline(s, i, j);
      MatchAtNoNewline(t, k, jt);
    }
  }

  /** The newline case of `MatchAtLocalInside`: both matches are decided by
      the same body. */
  lemma MatchAtLocalBody(s: string, a: nat, b: nat, k: nat, jt: nat)
    requires a <= b <= |s| && k + 3 <= b - a
    requires s[a..b][k..k + 3] == Ticks && s[a + k..a + k + 3] == Ticks
    requires jt == k + 3 + LangLength(s[a..b], k + 3) < b - a
    requires a + jt == a + k + 3 + LangLength(s, a + k + 3)
    requires s[a + jt] == '\n' && s[a..b][jt] == '\n'
    ensures MatchAt(s[a..b], k) == Shifted(MatchAt(s, a + k), a, b)
  {
    MatchAtNewline(s, a + k, a + jt);
    MatchAtNewline(s[a..b], k, jt);
    MatchBodyLocal(s, a, b, k, jt);
  }

  /** With a newline after the tag, the match is decided by the body. */
  lemma MatchAtNewline(s: string, i: nat, j: nat)
    requires i + 3 <= |s| && s[i..i + 3] == Ticks
    requires j == i + 3 + LangLength(s, i + 3) < |s| && s[j] == '\n'
    ensures MatchAt(s, i) == MatchBody(s, i, j)
  {
  }

  /** Without a newline after the tag, nothing matches. */
  lemma MatchAtNoNewline(s: string, i: nat, j: nat)
    requires i + 3 <= |s| && s[i..i + 3] == Ticks
    requires j == i + 3 + LangLength(s, i + 3) < |s| && s[j] != '\n'
    ensures MatchAt(s, i) == None
  {
  }

  /** The tag runs to the end of the slice: the slice has no match there,
      and a match of the whole text ends past the slice. */
  lemma MatchAtLocalPast(s: string, a: nat, b: nat, k: nat)
    requires a <= b <= |s| && k + 3 <= b - a
    requires s[a..b][k..k + 3] == Ticks && s[a + k..a + k + 3] == Ticks
    requires LangLength(s, a + k + 3) >= b - a - k - 3
    requires LangLength(s[a..b], k + 3) == b - a - k - 3
    ensures MatchAt(s[a..b], k) == Shifted(MatchAt(s, a + k), a, b)
  {
    MatchAtBody(s[a..b], k);
    if MatchAt(s, a + k).Some? {
      MatchAtPieces(s, a + k);
    }
  }

  /** Whether the pattern matches at an index of a slice depends only on the
      slice: it is the whole text's match there, if that ends in the slice. */
  lemma MatchAtLocal(s: string, a: nat, b: nat, k: nat)
    requires a <= b <= |s| && k <= b - a
    ensures MatchAt(s[a..b], k) == Shifted(MatchAt(s, a + k), a, b)
  {
    if k + 3 <= b - a {
      SliceOfSlice(s, a, b, k, k + 3);
      if s[a + k..a + k + 3] == Ticks {
        MatchAtLocalTicks(s, a, b, k);
      }
    } else if MatchAt(s, a + k).Some? {
      assert MatchAt(s, a + k).value.end >= a + k + 3;
    }
  }

  /* ---------------- rendering ---------------- */

  /** `part.match(pattern)`: the first match anywhere in `t` from `k` on. */
  function FirstMatch(t: string, k: nat): Option<Match>
    requires k <= |t|
    decreases |t| - k
  {
    if k == |t| then None
    else
      match MatchAt(t, k)
      case Some(m) => Some(m)
      case None => FirstMatch(t, k + 1)
  }

  /** One piece of the split, rendered as the source does it: a piece holding
      a block gives that block's body as code; any other piece gives its
      trimmed text as prose, or nothing when that is empty. */
  function RenderPiece(t: string): Option<Segment> {
    match FirstMatch(t, 0)
    case Some(m) => Some(Code(m.payload))
    case None => if Trim(t) != [] then Some(Prose(Trim(t))) else None
  }

  /** The `filter(Boolean)` step: the present segments, in order. */
  function Collect(os: seq<Option<Segment>>): seq<Segment> {
    if os == [] then []
    else (if os[0].Some? then [os[0].value] else []) + Collect(os[1..])
  }

  /** `renderAiResponseContent`: split the reply, render every piece, keep the
      segments that are present. Matching each piece again agrees with the
      kind the split gave it, so the reply renders as its parts do by kind:
      blocks become code, and the text between them becomes trimmed prose or
      is dropped. */
  function RenderAiResponse(s: string): (r: seq<Segment>)
    ensures r == Segments(Split(s))
  {
    var pieces := Split(s);
    PiecesRenderByKind(s, 0, 0);
    var xs := seq(|pieces|, k requires 0 <= k < |pieces| => RenderPiece(RawText(pieces[k])));
    var ys := seq(|pieces|, k requires 0 <= k < |pieces| => RenderPart(pieces[k]));
    assert forall k :: 0 <= k < |xs| ==> xs[k] == ys[k];
    assert xs == ys;
    Collect(xs)
  }

  /** A part rendered by its kind: a block's body as code, text between
      blocks trimmed as prose, or nothing when it trims to nothing. */
  function RenderPart(p: Part): Option<Segment> {
    match p
    case Fence(_, payload) => Some(Code(payload))
    case Gap(t) => if Trim(t) != [] then Some(Prose(Trim(t))) else None
  }

  /** The segments of a sequence of parts, rendered by kind. */
  function Segments(parts: seq<Part>): seq<Segment> {
    Collect(seq(|parts|, k requires 0 <= k < |parts| => RenderPart(parts[k])))
  }

  /** Inside a stretch where no match starts, a piece has no match of its own. */
  lemma {:induction false} GapHasNoMatch(s: string, start: nat, i: nat, k: nat)
    requires start <= i <= |s| && k <= i - start
    requires forall x :: start <= x < i ==> MatchAt(s, x).None?
    ensures FirstMatch(s[start..i], k).None?
    decreases i - start - k
  {
    if k < i - start {
      MatchAtLocal(s, start, i, k);
      GapHasNoMatch(s, start, i, k + 1);
    }
  }

  /** A block's text, matched again on its own, yields the same block. */
  lemma FenceMatchesItself(s: string, i: nat)
    requires i <= |s| && MatchAt(s, i).Some?
    ensures var m := MatchAt(s, i).value;
      FirstMatch(s[i..m.end], 0) == Some(Match(m.lang, m.payload, m.end - i))
  {
    var m := MatchAt(s, i).value;
    MatchAtLocal(s, i, m.end, 0);
  }

  /** The pieces agree with their kinds. */
  predicate KindsAgree(parts: seq<Part>) {
    forall k :: 0 <= k < |parts| ==> RenderPiece(RawText(parts[k])) == RenderPart(parts[k])
  }

  lemma KindsAgreeCons(g: Part, f: Part, rest: seq<Part>)
    requires RenderPiece(RawText(g)) == RenderPart(g)
    requires RenderPiece(RawText(f)) == RenderPart(f)
    requires KindsAgree(rest)
    ensures KindsAgree([g, f] + rest)
  {
    var all := [g, f] + rest;
    forall k | 0 <= k < |all|
      ensures RenderPiece(RawText(all[k])) == RenderPart(all[k])
    {
      if k >= 2 {
        assert all[k] == rest[k - 2];
      }
    }
  }

  lemma {:induction false} PiecesRenderByKind(s: string, start: nat, i: nat)
    requires start <= i <= |s|
    requires forall x :: start <= x < i ==> MatchAt(s, x).None?
    ensures KindsAgree(SplitFrom(s, start, i))
    decreases |s| - i
  {
    if i == |s| {
      GapHasNoMatch(s, start, i, 0);
      assert s[start..] == s[start..i];
    } else if MatchAt(s, i).Some? {
      var m := MatchAt(s, i).value;
      GapHasNoMatch(s, start, i, 0);
      MatchAtText(s, i);
      FenceMatchesItself(s, i);
      PiecesRenderByKind(s, m.end, m.end);
      KindsAgreeCons(Gap(s[start..i]), Fence(m.lang, m.payload), SplitFrom(s, m.end, m.end));
    } else {
      PiecesRenderByKind(s, start, i + 1);
    }
  }

  /** The part rendered first, then the rest. */
  lemma SegmentsCons(parts: seq<Part>)
    requires parts != []
    ensures Segments(parts) ==
      (if RenderPart(parts[0]).Some? then [RenderPart(parts[0]).value] else []) + Segments(parts[1..])
  {
    var os := seq(|parts|, k requires 0 <= k < |parts| => RenderPart(parts[k]));
    var tl := parts[1..];
    assert os[1..] == seq(|tl|, k requires 0 <= k < |tl| => RenderPart(tl[k]));
  }

  /** The bodies of the blocks among the parts, in order. */
  function FenceBodies(parts: seq<Part>): seq<string> {
    if parts == [] then []
    else (if parts[0].Fence? then [parts[0].payload] else []) + FenceBodies(parts[1..])
  }

  /** The bodies of the code segments, in order. */
  function CodeBodies(segs: seq<Segment>): seq<string> {
    if segs == [] then []
    else (if segs[0].Code? then [segs[0].payload] else []) + CodeBodies(segs[1..])
  }

  lemma {:induction false} CodeBodiesAppend(a: seq<Segment>, b: seq<Segment>)
    ensures CodeBodies(a + b) == CodeBodies(a) + CodeBodies(b)
    decreases |a|
  {
    if a != [] {
      assert (a + b)[1..] == a[1..] + b;
      CodeBodiesAppend(a[1..], b);
    } else {
      assert a + b == b;
    }
  }

  lemma {:induction false} SegmentsCodes(parts: seq<Part>)
    ensures CodeBodies(Segments(parts)) == FenceBodies(parts)
    decreases |parts|
  {
    if parts != [] {
      SegmentsCons(parts);
      var head := if RenderPart(parts[0]).Some? then [RenderPart(parts[0]).value] else [];
      CodeBodiesAppend(head, Segments(parts[1..]));
      SegmentsCodes(parts[1..]);
      if head != [] {
        assert CodeBodies(head) == (if head[0].Code? then [head[0].payload] else []) + CodeBodies([]);
      }
    } else {
      assert Segments(parts) == Collect([]);
    }
  }

  /** The code segments of a rendered reply are the bodies of its blocks,
      every one of them, in order. */
  lemma RenderCodes(s: string)
    ensures CodeBodies(RenderAiResponse(s)) == FenceBodies(Split(s))
  {
    SegmentsCodes(Split(s));
  }

  /** Every prose segment is non-empty and has no white space at either end. */
  predicate ProseClean(segs: seq<Segment>) {
    forall k :: 0 <= k < |segs| && segs[k].Prose? ==> segs[k].text != [] && IsTrimmed(segs[k].text)
  }

  lemma {:induction false} SegmentsProseClean(parts: seq<Part>)
    ensures ProseClean(Segments(parts))
    decreases |parts|
  {
    if parts != [] {
      SegmentsCons(parts);
      SegmentsProseClean(parts[1..]);
      var r := RenderPart(parts[0]);
      if r.Some? && r.value.Prose? {
        TrimSpec(parts[0].text);
      }
      var head := if r.Some? then [r.value] else [];
      var rest := Segments(parts[1..]);
      assert forall k :: |head| <= k < |head + rest| ==> (head + rest)[k] == rest[k - |head|];
    } else {
      assert Segments(parts) == Collect([]);
    }
  }

  /** Rendered prose is never empty and is trimmed: pieces that trim to
      nothing are dropped. */
  lemma RenderProseClean(s: string)
    ensures ProseClean(RenderAiResponse(s))
  {
    SegmentsProseClean(Split(s));
  }

  /** A reply in which no block starts is one piece, rendered as its trimmed
      text, or as nothing when it is all white space. Inline backticks, such
      as those around a single word, do not make a block. */
  lemma PlainReply(s: string)
    requires forall x :: 0 <= x < |s| ==> MatchAt(s, x).None?
    ensures Split(s) == [Gap(s)]
    ensures RenderAiResponse(s) == if Trim(s) == [] then [] else [Prose(Trim(s))]
  {
    assert [Gap(s)][1..] == [];
    assert Concat([Gap(s)]) == s + Concat([]) == s;
    assert Layout([Gap(s)]);
    SplitLayout([Gap(s)]);
    SegmentsCons([Gap(s)]);
    assert Segments([]) == Collect([]);
  }

  /** A reply with a word in inline backticks and no block. */
  const InlineReply: string := "Run `ls` now"

  lemma InlineReplyOpensNothing()
    ensures forall x :: 0 <= x < |InlineReply| ==> MatchAt(InlineReply, x).None?
  {
    var s := InlineReply;
    assert s[0] == 'R' && s[1] == 'u' && s[2] == 'n' && s[3] == ' ' && s[5] == 'l';
    assert s[6] == 's' && s[8] == ' ' && s[9] == 'n' && s[10] == 'o' && s[11] == 'w';
    forall x | 0 <= x < |s|
      ensures MatchAt(s, x).None?
    {
      NoTicksAt(s, x, if x == 4 || x == 7 then x + 1 else x);
    }
  }

  /** A word in inline backticks is prose like any other text. */
  lemma InlineCodeIsProse()
    ensures RenderAiResponse(InlineReply) == [Prose(InlineReply)]
  {
    InlineReplyOpensNothing();
    PlainReply(InlineReply);
    assert InlineReply[0] == 'R' && InlineReply[|InlineReply| - 1] == 'w';
    TrimTrimmed(InlineReply);
  }
}
