/**
  How the terminal reads a submitted line (`processCommand`, first half):
  the line is trimmed and split on runs of white space, the first word is
  lower-cased and looked up among the built-in commands, the remaining words
  are joined with single spaces as the argument, and a line that names no
  built-in goes to the generation endpoint unless it is empty.
 */
module Command {
  import opened Wrappers
  import opened JsString

  /** The built-in commands. */
  datatype Builtin = Cls | Echo | Help | Date | Time | Ver | Exit

  /** The key of a built-in in the command table. */
  function Name(b: Builtin): string {
    match b
    case Cls => "cls"
    case Echo => "echo"
    case Help => "help"
    case Date => "date"
    case Time => "time"
    case Ver => "ver"
    case Exit => "exit"
  }

  /** The table lookup, for a key that is already lower-cased. */
  function Lookup(key: string): Option<Builtin> {
    if key == "cls" then Some(Cls)
    else if key == "echo" then Some(Echo)
    else if key == "help" then Some(Help)
    else if key == "date" then Some(Date)
    else if key == "time" then Some(Time)
    else if key == "ver" then Some(Ver)
    else if key == "exit" then Some(Exit)
    else None
  }

  /** Looking up a key finds the built-in whose name it is, and only that. */
  lemma LookupInvertsName(key: string, b: Builtin)
    ensures Lookup(key) == Some(b) <==> key == Name(b)
  {
  }

  /** The command word and the remaining words of a line. */
  datatype Tokens = Tokens(command: string, args: seq<string>)

  /** `line.trim().split(/\s+/)`, split into its head and the rest. A line
      that trims to nothing splits into the single empty string. */
  function Tokenize(line: string): (t: Tokens)
    ensures t.command == [] <==> AllSpace(line)
    ensures t.command == [] ==> t.args == []
    ensures t.command != [] ==> IsWord(t.command) && AllWords(t.args)
  {
    var ws := Words(Trim(line));
    TrimEmptyIffAllSpace(line);
    NoWordsIffEmpty(line);
    WordsAreWords(Trim(line));
    if ws == [] then Tokens([], [])
    else
      assert forall k :: 0 <= k < |ws| - 1 ==> ws[1..][k] == ws[k + 1];
      Tokens(ws[0], ws[1..])
  }

  /** A trimmed line has no words exactly when it is empty. */
  lemma NoWordsIffEmpty(line: string)
    ensures Words(Trim(line)) == [] <==> Trim(line) == []
  {
    var t := Trim(line);
    TrimSpec(line);
    WordsEmptyIffAllSpace(t);
    if t != [] {
      assert !IsSpace(t[0]);
    }
  }

  /** What a submitted line does. `Inert` and `Throws` arise only from keys
      the table inherits from `Object.prototype` (see `ClassifyAsWritten`). */
  datatype Action =
    | Run(builtin: Builtin, arg: string)
    | Skip
    | Remote(query: string)
    | Inert
    | Throws

  /** The lower-cased command word. */
  function Key(line: string): string {
    ToLower(Tokenize(line).command)
  }

  /** The argument: the remaining words joined with single spaces. */
  function Argument(line: string): string {
    Join(Tokenize(line).args, " ")
  }

  /** The line's action, looking up only the seven built-ins. */
  function Classify(line: string): (a: Action)
    ensures a.Remote? ==> a.query == Trim(line) && a.query != []
    ensures a.Skip? ==> Trim(line) == []
    ensures !a.Inert? && !a.Throws?
  {
    match Lookup(Key(line))
    case Some(b) => Run(b, Argument(line))
    case None => if Trim(line) == [] then Skip else Remote(Trim(line))
  }

  /** The two lower-case keys an object literal inherits: calling the first
      does nothing, calling the second throws, since it is not a function. */
  const InertKey: string := "constructor"
  const ThrowingKey: string := "__proto__"

  /** The line's action as the source computes it: the `in` test also sees
      the inherited keys. */
  function ClassifyAsWritten(line: string): (a: Action)
    ensures a.Inert? <==> Key(line) == InertKey
    ensures a.Throws? <==> Key(line) == ThrowingKey
    ensures a != Classify(line) ==> a.Inert? || a.Throws?
  {
    var key := Key(line);
    if key == InertKey then Inert
    else if key == ThrowingKey then Throws
    else Classify(line)
  }

  /** The two agree on every line whose command word is not an inherited key. */
  lemma ClassifyAgrees(line: string)
    requires Key(line) != InertKey && Key(line) != ThrowingKey
    ensures ClassifyAsWritten(line) == Classify(line)
  {
  }

  /** A line of words, separated by runs of white space and with white space
      around it, trims to the words with their separators and tokenises into
      its first word and the rest. */
  lemma TokenizeWords(a: string, ws: seq<string>, seps: seq<string>, b: string)
    requires AllSpace(a) && AllSpace(b)
    requires |ws| > 0 && AllWords(ws)
    requires |seps| == |ws| - 1 && Separators(seps)
    ensures Trim(a + Spaced(ws, seps) + b) == Spaced(ws, seps)
    ensures Tokenize(a + Spaced(ws, seps) + b) == Tokens(ws[0], ws[1..])
  {
    var j := Spaced(ws, seps);
    SpacedTrimmed(ws, seps);
    assert IsTrimmed(j) by {
      assert j[0] == ws[0][0];
      assert ws[0][0] == ws[0][..1][0];
    }
    TrimPadded(a, j, b);
    WordsOfSpaced(ws, seps);
  }

  /** A line of words is classified by its first word, whatever its letter
      case and however much white space surrounds and separates its words: a
      built-in's name runs it with the other words, joined by single spaces,
      as the argument; any other word sends the trimmed line away, with its
      inner white space as typed. */
  lemma ClassifyWords(a: string, ws: seq<string>, seps: seq<string>, b: string)
    requires AllSpace(a) && AllSpace(b)
    requires |ws| > 0 && AllWords(ws)
    requires |seps| == |ws| - 1 && Separators(seps)
    ensures var line := a + Spaced(ws, seps) + b;
      Classify(line) ==
        match Lookup(ToLower(ws[0]))
        case Some(bi) => Run(bi, Join(ws[1..], " "))
        case None => Remote(Spaced(ws, seps))
  {
    TokenizeWords(a, ws, seps, b);
    SpacedTrimmed(ws, seps);
  }

  /** Built-ins are found in any letter case, with any white space around and
      between the words. */
  lemma BuiltinAnyCase(a: string, ws: seq<string>, seps: seq<string>, b: string, bi: Builtin)
    requires AllSpace(a) && AllSpace(b)
    requires |ws| > 0 && AllWords(ws)
    requires |seps| == |ws| - 1 && Separators(seps)
    requires ToLower(ws[0]) == Name(bi)
    ensures Classify(a + Spaced(ws, seps) + b) == Run(bi, Join(ws[1..], " "))
  {
    ClassifyWords(a, ws, seps, b);
    LookupInvertsName(ToLower(ws[0]), bi);
  }

  /** A line whose command word is empty is blank. */
  lemma EmptyKeyIffBlank(line: string)
    ensures Key(line) == [] <==> Trim(line) == []
  {
    TrimEmptyIffAllSpace(line);
  }

  /** A line does nothing exactly when it is empty or all white space, both
      as intended and as written. */
  lemma BlankLineSkips(line: string)
    ensures Classify(line) == Skip <==> AllSpace(line)
    ensures AllSpace(line) ==> ClassifyAsWritten(line) == Skip
  {
    TrimEmptyIffAllSpace(line);
    EmptyKeyIffBlank(line);
  }

  /** `echo` alone, with any white space around it, has the empty argument. */
  lemma EchoAlone(a: string, w: string, b: string)
    requires AllSpace(a) && AllSpace(b)
    requires IsWord(w) && ToLower(w) == Name(Echo)
    ensures Classify(a + w + b) == Run(Echo, [])
  {
    assert Spaced([w], []) == w;
    assert Separators([]);
    BuiltinAnyCase(a, [w], [], b, Echo);
    assert [w][1..] == [];
  }

  /** Neither inherited key names a built-in. */
  lemma InheritedKeysAreNotBuiltins()
    ensures Lookup(InertKey) == None && Lookup(ThrowingKey) == None
  {
  }

  /** As written, `constructor` in any letter case is found in the table and
      does nothing at all, where it should have gone to the endpoint. */
  lemma ConstructorSwallowed(a: string, ws: seq<string>, seps: seq<string>, b: string)
    requires AllSpace(a) && AllSpace(b)
    requires |ws| > 0 && AllWords(ws)
    requires |seps| == |ws| - 1 && Separators(seps)
    requires ToLower(ws[0]) == InertKey
    ensures ClassifyAsWritten(a + Spaced(ws, seps) + b) == Inert
    ensures Classify(a + Spaced(ws, seps) + b) == Remote(Spaced(ws, seps))
  {
    InheritedKeysAreNotBuiltins();
    ClassifyWords(a, ws, seps, b);
    TokenizeWords(a, ws, seps, b);
  }

  /** As written, `__proto__` is found in the table and calling it throws,
      where it should have gone to the endpoint. */
  lemma ProtoThrows(a: string, ws: seq<string>, seps: seq<string>, b: string)
    requires AllSpace(a) && AllSpace(b)
    requires |ws| > 0 && AllWords(ws)
    requires |seps| == |ws| - 1 && Separators(seps)
    requires ToLower(ws[0]) == ThrowingKey
    ensures ClassifyAsWritten(a + Spaced(ws, seps) + b) == Throws
    ensures Classify(a + Spaced(ws, seps) + b) == Remote(Spaced(ws, seps))
  {
    InheritedKeysAreNotBuiltins();
    ClassifyWords(a, ws, seps, b);
    TokenizeWords(a, ws, seps, b);
  }
}
