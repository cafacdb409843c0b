/**
  The few JavaScript string operations the terminal relies on, stated over
  `seq<char>`: `trim`, the `\s` class, `toLowerCase`, `includes`, `join`,
  splitting on runs of white space, and the space-to-non-breaking-space
  replacement used when echoing a typed line; also `Math.min` and
  `Math.max`.
 */
module JsString {

  const Nbsp: char := '\U{00A0}'

  /** `Math.min` and `Math.max` on integers. */
  function Min(a: int, b: int): int {
    if a <= b then a else b
  }

  function Max(a: int, b: int): int {
    if a >= b then a else b
  }

  /** JavaScript's WhiteSpace and LineTerminator characters: exactly the set
      that `String.prototype.trim` strips and that the regex class `\s` matches. */
  predicate IsSpace(c: char) {
    || c == '\t' || c == '\n' || c == '\U{000B}' || c == '\U{000C}' || c == '\r'
    || c == ' ' || c == '\U{00A0}' || c == '\U{1680}'
    || ('\U{2000}' <= c <= '\U{200A}')
    || c == '\U{2028}' || c == '\U{2029}' || c == '\U{202F}' || c == '\U{205F}'
    || c == '\U{3000}' || c == '\U{FEFF}'
  }

  predicate AllSpace(s: string) {
    forall k :: 0 <= k < |s| ==> IsSpace(s[k])
  }

  predicate NoSpace(s: string) {
    forall k :: 0 <= k < |s| ==> !IsSpace(s[k])
  }

  /** Neither end of `s` is white space. */
  predicate IsTrimmed(s: string) {
    s == [] || (!IsSpace(s[0]) && !IsSpace(s[|s| - 1]))
  }

  /** `s` with its leading white space removed (`trimStart`). */
  function TrimStart(s: string): string {
    if s != [] && IsSpace(s[0]) then TrimStart(s[1..]) else s
  }

  /** `trimStart` keeps a suffix, cuts off only white space, and leaves no
      white space at the front. */
  lemma {:induction false} TrimStartSpec(s: string)
    ensures var r := TrimStart(s);
      && |r| <= |s| && r == s[|s| - |r|..]
      && AllSpace(s[..|s| - |r|])
      && (r == [] || !IsSpace(r[0]))
    decreases |s|
  {
    if s != [] && IsSpace(s[0]) {
      TrimStartSpec(s[1..]);
      var r := TrimStart(s);
      assert s[..|s| - |r|] == [s[0]] + s[1..][..|s| - 1 - |r|];
    }
  }

  /** `s` with its trailing white space removed (`trimEnd`). */
  function TrimEnd(s: string): string {
    if s != [] && IsSpace(s[|s| - 1]) then TrimEnd(s[..|s| - 1]) else s
  }

  /** `trimEnd` keeps a prefix, cuts off only white space, and leaves no
      white space at the end. */
  lemma {:induction false} TrimEndSpec(s: string)
    ensures var r := TrimEnd(s);
      && |r| <= |s| && r == s[..|r|]
      && AllSpace(s[|r|..])
      && (r == [] || !IsSpace(r[|r| - 1]))
    decreases |s|
  {
    if s != [] && IsSpace(s[|s| - 1]) {
      var s' := s[..|s| - 1];
      TrimEndSpec(s');
      var r := TrimEnd(s);
      assert s[|r|..] == s'[|r|..] + [s[|s| - 1]];
    }
  }

  /** JavaScript's `s.trim()`. */
  function Trim(s: string): string {
    TrimEnd(TrimStart(s))
  }

  /** `trim` keeps a slice of `s` with only white space around it and none at
      either of its own ends. */
  lemma TrimSpec(s: string)
    ensures var r := Trim(s);
      && IsTrimmed(r)
      && exists i :: 0 <= i <= |s| - |r| && r == s[i..i + |r|] && AllSpace(s[..i]) && AllSpace(s[i + |r|..])
  {
    var t := TrimStart(s);
    var r := TrimEnd(t);
    TrimStartSpec(s);
    TrimEndSpec(t);
    assert IsTrimmed(r) by {
      assert r == [] || r[0] == t[0];
    }
    var i := |s| - |t|;
    forall k | 0 <= k < |r|
      ensures r[k] == s[i + k]
    {
      assert r[k] == t[k] && t[k] == s[i..][k];
    }
    assert r == s[i..i + |r|];
    forall k | 0 <= k < |s| - (i + |r|)
      ensures s[i + |r|..][k] == t[|r|..][k]
    {
      assert t[|r| + k] == s[i..][|r| + k];
    }
    assert s[i + |r|..] == t[|r|..];
    assert AllSpace(s[..i]) && AllSpace(s[i + |r|..]);
  }

  lemma {:induction false} TrimStartPadded(a: string, t: string)
    requires AllSpace(a)
    requires t == [] || !IsSpace(t[0])
    ensures TrimStart(a + t) == t
    decreases |a|
  {
    if a != [] {
      assert (a + t)[1..] == a[1..] + t;
      TrimStartPadded(a[1..], t);
    } else {
      assert a + t == t;
    }
  }

  lemma {:induction false} TrimEndPadded(t: string, b: string)
    requires AllSpace(b)
    requires t == [] || !IsSpace(t[|t| - 1])
    ensures TrimEnd(t + b) == t
    decreases |b|
  {
    if b != [] {
      var b' := b[..|b| - 1];
      assert (t + b)[..|t + b| - 1] == t + b';
      TrimEndPadded(t, b');
    } else {
      assert t + b == t;
    }
  }

  /** `trim` is characterised by what it keeps: white space around a trimmed
      string is exactly what it removes. */
  lemma TrimPadded(a: string, t: string, b: string)
    requires AllSpace(a) && AllSpace(b) && IsTrimmed(t)
    ensures Trim(a + t + b) == t
  {
    if t == [] {
      assert a + t + b == a + b;
      assert AllSpace(a + b);
      TrimStartPadded(a + b, []);
      assert a + b + [] == a + b;
    } else {
      assert a + t + b == a + (t + b);
      TrimStartPadded(a, t + b);
      TrimEndPadded(t, b);
    }
  }

  /** `trim` removes nothing from a string that is already trimmed, and so is idempotent. */
  lemma TrimTrimmed(t: string)
    requires IsTrimmed(t)
    ensures Trim(t) == t
  {
    TrimPadded([], t, []);
    assert [] + t + [] == t;
  }

  /** A string trims to the empty string exactly when it is all white space. */
  lemma TrimEmptyIffAllSpace(s: string)
    ensures Trim(s) == [] <==> AllSpace(s)
  {
    TrimSpec(s);
    if AllSpace(s) {
      TrimPadded(s, [], []);
      assert s + [] + [] == s;
    }
  }

  /** The lower-case form of an ASCII capital letter; every other character is
      left as it is. */
  function LowerChar(c: char): (d: char)
    ensures !('A' <= d <= 'Z')
    ensures ('A' <= c <= 'Z') ==> d as int == c as int + 32
    ensures !('A' <= c <= 'Z') ==> d == c
  {
    if 'A' <= c <= 'Z' then (c as int + 32) as char else c
  }

  /** `s.toLowerCase()` restricted to ASCII letters: a same-length string with
      no capital letter, in which each capital of `s` becomes its small letter
      and every other character stays. */
  function ToLower(s: string): (r: string)
    ensures |r| == |s|
    ensures forall k :: 0 <= k < |r| ==> !('A' <= r[k] <= 'Z')
    ensures forall k :: 0 <= k < |r| && 'A' <= s[k] <= 'Z' ==> r[k] as int == s[k] as int + 32
    ensures forall k :: 0 <= k < |r| && !('A' <= s[k] <= 'Z') ==> r[k] == s[k]
  {
    seq(|s|, k requires 0 <= k < |s| => LowerChar(s[k]))
  }

  /** Lower-casing twice is lower-casing once. */
  lemma ToLowerIdempotent(s: string)
    ensures ToLower(ToLower(s)) == ToLower(s)
  {
  }

  /** `pat` occurs in `s` starting at index `i`. */
  predicate OccursAt(s: string, pat: string, i: int) {
    0 <= i && i + |pat| <= |s| && s[i..i + |pat|] == pat
  }

  /** JavaScript's `s.includes(pat)`. */
  predicate Includes(s: string, pat: string) {
    exists i | 0 <= i <= |s| - |pat| :: OccursAt(s, pat, i)
  }

  /** An occurrence of `pat` inside a part of `s` is an occurrence in `s`. */
  lemma IncludesInfix(a: string, m: string, b: string, pat: string)
    requires Includes(m, pat)
    ensures Includes(a + m + b, pat)
  {
    var i :| 0 <= i <= |m| - |pat| && OccursAt(m, pat, i);
    assert (a + m + b)[|a| + i..|a| + i + |pat|] == m[i..i + |pat|];
    assert OccursAt(a + m + b, pat, |a| + i);
  }

  /** JavaScript's `ws.join(sep)`. */
  function Join(ws: seq<string>, sep: string): string
  {
    if |ws| == 0 then "" else if |ws| == 1 then ws[0] else ws[0] + sep + Join(ws[1..], sep)
  }

  /** Length of the leading run of non-space characters of `s`. */
  function WordLength(s: string): (n: nat)
    ensures n <= |s|
  {
    if s == [] || IsSpace(s[0]) then 0 else 1 + WordLength(s[1..])
  }

  /** The leading run is as long as it can be. */
  lemma {:induction false} WordLengthSpec(s: string)
    ensures var n := WordLength(s);
      && n <= |s| && NoSpace(s[..n])
      && (n < |s| ==> IsSpace(s[n]))
    decreases |s|
  {
    if s != [] && !IsSpace(s[0]) {
      WordLengthSpec(s[1..]);
      var n := WordLength(s);
      assert s[..n] == [s[0]] + s[1..][..n - 1];
    }
  }

  /** A word is a non-empty run without white space. */
  predicate IsWord(w: string) {
    w != [] && NoSpace(w)
  }

  predicate AllWords(ws: seq<string>) {
    forall k :: 0 <= k < |ws| ==> IsWord(ws[k])
  }

  /** The maximal runs of non-space characters of `s`, in order: what
      `s.trim().split(/\s+/)` yields for a string that is not all white space. */
  function Words(s: string): seq<string>
    decreases |s|
  {
    var t := TrimStart(s);
    if t == [] then []
    else
      TrimStartSpec(s);
      WordLengthSpec(t);
      var n := WordLength(t);
      [t[..n]] + Words(t[n..])
  }

  /** Every element of `Words(s)` is a word. */
  lemma {:induction false} WordsAreWords(s: string)
    ensures AllWords(Words(s))
    decreases |s|
  {
    var t := TrimStart(s);
    if t != [] {
      TrimStartSpec(s);
      WordLengthSpec(t);
      var n := WordLength(t);
      var rest := Words(t[n..]);
      WordsAreWords(t[n..]);
      assert n > 0;
      var ws := [t[..n]] + rest;
      assert forall k :: 0 < k < |ws| ==> ws[k] == rest[k - 1];
    }
  }

  /** A string has no words exactly when it is all white space. */
  lemma WordsEmptyIffAllSpace(s: string)
    ensures Words(s) == [] <==> AllSpace(s)
  {
    var t := TrimStart(s);
    TrimStartSpec(s);
    if t == [] {
      assert s[..|s|] == s;
    } else {
      assert !IsSpace(s[|s| - |t|]);
    }
  }

  /** Leading white space does not change the words of a string. */
  lemma WordsSkipSpace(a: string, s: string)
    requires AllSpace(a)
    requires s == [] || !IsSpace(s[0])
    ensures Words(a + s) == Words(s)
  {
    TrimStartPadded(a, s);
    TrimStartPadded([], s);
    assert [] + s == s;
  }

  /** The leading word of `w + rest` is `w` when `rest` starts with white space. */
  lemma {:induction false} WordLengthOfWord(w: string, rest: string)
    requires IsWord(w)
    requires rest == [] || IsSpace(rest[0])
    ensures WordLength(w + rest) == |w|
    decreases |w|
  {
    assert (w + rest)[0] == w[0];
    assert (w + rest)[1..] == w[1..] + rest;
    if |w| > 1 {
      WordLengthOfWord(w[1..], rest);
    } else {
      assert w[1..] + rest == rest;
    }
  }

  /** One step of `Words` on a string that starts with a word character. */
  lemma WordsStep(s: string)
    requires s != [] && !IsSpace(s[0])
    ensures Words(s) == [s[..WordLength(s)]] + Words(s[WordLength(s)..])
  {
    TrimStartPadded([], s);
    assert [] + s == s;
  }

  /** A single word splits into itself. */
  lemma WordsOfWord(w: string)
    requires IsWord(w)
    ensures Words(w) == [w]
  {
    WordsStep(w);
    WordLengthOfWord(w, []);
    assert w + [] == w;
    assert w[|w|..] == [];
  }

  /** A word, a run of white space, then more words: the first word comes
      off the front and the run is dropped. */
  lemma WordsCons(w: string, sep: string, rest: string)
    requires IsWord(w)
    requires sep != [] && AllSpace(sep)
    requires rest != [] && !IsSpace(rest[0])
    ensures Words(w + sep + rest) == [w] + Words(rest)
  {
    var j := w + sep + rest;
    assert j == w + (sep + rest);
    assert j[0] == w[0];
    WordsStep(j);
    WordLengthOfWord(w, sep + rest);
    assert j[..|w|] == w;
    assert j[|w|..] == sep + rest;
    WordsSkipSpace(sep, rest);
    var head, tail := j[..|w|], Words(j[|w|..]);
    assert head == w && tail == Words(rest);
    assert Words(j) == [head] + tail;
  }

  /** Runs of white space to put between words: none of them empty. */
  predicate Separators(seps: seq<string>) {
    forall k :: 0 <= k < |seps| ==> seps[k] != [] && AllSpace(seps[k])
  }

  /** The words `ws` with the run `seps[k]` between `ws[k]` and `ws[k + 1]`:
      every line that is not all white space, once trimmed, has this shape. */
  function Spaced(ws: seq<string>, seps: seq<string>): string
    requires |ws| > 0 && |seps| == |ws| - 1
    decreases |ws|
  {
    if |ws| == 1 then ws[0] else ws[0] + seps[0] + Spaced(ws[1..], seps[1..])
  }

  /** Spaced words start and end with a word character. */
  lemma {:induction false} SpacedTrimmed(ws: seq<string>, seps: seq<string>)
    requires |ws| > 0 && AllWords(ws) && |seps| == |ws| - 1
    ensures var j := Spaced(ws, seps); j != [] && j[0] == ws[0][0] && !IsSpace(j[|j| - 1])
    decreases |ws|
  {
    if |ws| > 1 {
      SpacedTrimmed(ws[1..], seps[1..]);
      var j' := Spaced(ws[1..], seps[1..]);
      assert Spaced(ws, seps) == ws[0] + seps[0] + j';
      assert Spaced(ws, seps)[|Spaced(ws, seps)| - 1] == j'[|j'| - 1];
    }
  }

  /** Splitting on white space recovers the words, whatever runs of white
      space separate them. */
  lemma {:induction false} WordsOfSpaced(ws: seq<string>, seps: seq<string>)
    requires |ws| > 0 && AllWords(ws) && |seps| == |ws| - 1 && Separators(seps)
    ensures Words(Spaced(ws, seps)) == ws
    decreases |ws|
  {
    if |ws| == 1 {
      WordsOfWord(ws[0]);
    } else {
      var tail, seps' := ws[1..], seps[1..];
      assert AllWords(tail) by {
        forall k | 0 <= k < |tail| ensures IsWord(tail[k]) {
          assert tail[k] == ws[k + 1];
        }
      }
      assert Separators(seps') by {
        forall k | 0 <= k < |seps'| ensures seps'[k] != [] && AllSpace(seps'[k]) {
          assert seps'[k] == seps[k + 1];
        }
      }
      var j' := Spaced(tail, seps');
      assert Spaced(ws, seps) == ws[0] + seps[0] + j';
      SpacedTrimmed(tail, seps');
      assert IsWord(tail[0]);
      WordsCons(ws[0], seps[0], j');
      WordsOfSpaced(tail, seps');
      assert ws == [ws[0]] + tail;
    }
  }

  /** `s.replace(/ /g, ' ')`: every ordinary space becomes a non-breaking one. */
  function NbspSpaces(s: string): (r: string)
    ensures |r| == |s|
    ensures forall k :: 0 <= k < |r| ==> r[k] != ' '
    ensures forall k :: 0 <= k < |r| ==> r[k] == (if s[k] == ' ' then Nbsp else s[k])
  {
    seq(|s|, k requires 0 <= k < |s| => if s[k] == ' ' then Nbsp else s[k])
  }
}
