/** The editor command-line splitter (`editor.rs`), and the quoting it undoes. */
module EditorSplit {
  import opened Basics
  import opened Text

  predicate IsQuote(c: char) {
    c == '\'' || c == '"'
  }

  /** Between words, inside a bare word, or inside either kind of quotes. */
  datatype Mode = Between | InWord | InSingle | InDouble

  predicate IsEscape(rest: string) {
    |rest| > 1 && rest[0] == '\\' && (rest[1] == '"' || rest[1] == '\\')
  }

  /** The words still to come, the first of them already begun with `current`. */
  function Words(rest: string, mode: Mode, current: string): (r: seq<string>)
    decreases |rest|
  {
    if rest == [] then (if mode == Between then [] else [current])
    else
      var c := rest[0];
      if mode == InSingle then
        if c == '\'' then Words(rest[1..], InWord, current) else Words(rest[1..], InSingle, current + [c])
      else if mode == InDouble then
        if c == '"' then Words(rest[1..], InWord, current)
        else if IsEscape(rest) then Words(rest[2..], InDouble, current + [rest[1]])
        else Words(rest[1..], InDouble, current + [c])
      else if IsWhitespace(c) then
        (if mode == InWord then [current] else []) + Words(rest[1..], Between, if mode == InWord then "" else current)
      else if c == '\'' then Words(rest[1..], InSingle, current)
      else if c == '"' then Words(rest[1..], InDouble, current)
      else Words(rest[1..], InWord, current + [c])
  }

  function Split(value: string): (r: seq<string>) {
    Words(value, Between, "")
  }

  /** The splitting loop. `quote` and `started` are its two flags; a quote always starts a token. */
  method SplitEditorCommandLine(value: string) returns (args: seq<string>)
    ensures args == Split(value)
  {
    args := [];
    var current := "";
    var rest := value;
    var quote: Option<char> := None;
    var started := false;
    while rest != []
      invariant quote.Some? ==> started && IsQuote(quote.value)
      invariant !started ==> current == ""
      invariant var mode := if quote == Some('\'') then InSingle else if quote == Some('"') then InDouble
                            else if started then InWord else Between;
                args + Words(rest, mode, current) == Split(value)
      decreases |rest|
    {
      var c := rest[0];
      if quote == Some('\'') {
        if c == '\'' { quote := None; } else { current := current + [c]; }
        rest := rest[1..];
      } else if quote == Some('"') {
        if c == '"' {
          quote := None;
          rest := rest[1..];
        } else if IsEscape(rest) {
          current := current + [rest[1]];
          rest := rest[2..];
        } else {
          current := current + [c];
          rest := rest[1..];
        }
      } else if IsWhitespace(c) {
        if started {
          args := args + [current];
          current, started := "", false;
        }
        rest := rest[1..];
      } else if IsQuote(c) {
        quote, started := Some(c), true;
        rest := rest[1..];
      } else {
        current, started := current + [c], true;
        rest := rest[1..];
      }
    }
    if started {
      args := args + [current];
    }
  }

  // ----- quoting -----

  /** A text as it can be written: bare, in single quotes, or in double quotes, with every quote and backslash escaped
      or with as few escapes as it needs. */
  datatype Style = Bare | Single | Double | Sparing

  datatype Written = Written(arg: string, style: Style) {
    /** Bare words need something to show and nothing special; single quotes cannot hold one of their own. */
    predicate Valid() {
      match style
      case Bare => arg != [] && '\'' !in arg && '"' !in arg && forall c :: c in arg ==> !IsWhitespace(c)
      case Single => '\'' !in arg
      case Double => true
      case Sparing => true
    }
  }

  function Escaped(arg: string): (r: string) {
    if arg == [] then []
    else (if arg[0] == '"' || arg[0] == '\\' then ['\\', arg[0]] else [arg[0]]) + Escaped(arg[1..])
  }

  /** A backslash stands for itself in double quotes unless a quote or a backslash follows it. */
  function SparinglyEscaped(arg: string): (r: string) {
    if arg == [] then []
    else if arg[0] == '"' then ['\\', '"'] + SparinglyEscaped(arg[1..])
    else if arg[0] == '\\' && (|arg| == 1 || arg[1] == '"' || arg[1] == '\\') then
      ['\\', '\\'] + SparinglyEscaped(arg[1..])
    else [arg[0]] + SparinglyEscaped(arg[1..])
  }

  /** A text without quotes, double backslashes and a backslash at its end needs no escape at all. */
  lemma {:induction false} NoEscapeNeeded(arg: string)
    requires '"' !in arg && (arg == [] || arg[|arg| - 1] != '\\')
    requires forall i :: 0 <= i < |arg| - 1 ==> !(arg[i] == '\\' && arg[i + 1] == '\\')
    ensures SparinglyEscaped(arg) == arg
  {
    if arg != [] {
      NoEscapeNeeded(arg[1..]);
    }
  }

  function Quoted(w: Written): (r: string) {
    match w.style
    case Bare => w.arg
    case Single => "'" + w.arg + "'"
    case Double => "\"" + Escaped(w.arg) + "\""
    case Sparing => "\"" + SparinglyEscaped(w.arg) + "\""
  }

  function Joined(ws: seq<Written>): (r: string) {
    if ws == [] then ""
    else if |ws| == 1 then Quoted(ws[0])
    else Quoted(ws[0]) + " " + Joined(ws[1..])
  }

  function Args(ws: seq<Written>): (r: seq<string>) {
    seq(|ws|, i requires 0 <= i < |ws| => ws[i].arg)
  }

  // ----- how a text is read -----

  lemma {:induction false} BareIsRead(arg: string, mode: Mode, current: string, tail: string)
    requires mode == InWord || mode == Between
    requires arg != [] && '\'' !in arg && '"' !in arg && forall c :: c in arg ==> !IsWhitespace(c)
    ensures Words(arg + tail, mode, current) == Words(tail, InWord, current + arg)
    decreases |arg|
  {
    assert (arg + tail)[1..] == arg[1..] + tail;
    assert arg[0] in arg;
    if |arg| == 1 {
      assert arg[1..] + tail == tail && current + arg == current + [arg[0]];
    } else {
      BareIsRead(arg[1..], InWord, current + [arg[0]], tail);
      assert current + [arg[0]] + arg[1..] == current + arg;
    }
  }

  lemma {:induction false} SingleIsRead(arg: string, current: string, tail: string)
    requires '\'' !in arg
    ensures Words(arg + "'" + tail, InSingle, current) == Words(tail, InWord, current + arg)
    decreases |arg|
  {
    if arg == [] {
      assert (arg + "'" + tail)[1..] == tail && current + arg == current;
    } else {
      assert (arg + "'" + tail)[1..] == arg[1..] + "'" + tail;
      SingleIsRead(arg[1..], current + [arg[0]], tail);
      assert current + [arg[0]] + arg[1..] == current + arg;
    }
  }

  lemma {:induction false} DoubleIsRead(arg: string, current: string, tail: string)
    ensures Words(Escaped(arg) + "\"" + tail, InDouble, current) == Words(tail, InWord, current + arg)
    decreases |arg|
  {
    var text := Escaped(arg) + "\"" + tail;
    if arg == [] {
      assert text[1..] == tail && current + arg == current;
    } else {
      var rest := Escaped(arg[1..]) + "\"" + tail;
      if arg[0] == '"' || arg[0] == '\\' {
        assert text == ['\\', arg[0]] + rest;
        assert text[2..] == rest;
      } else {
        assert text == [arg[0]] + rest;
        assert text[1..] == rest;
      }
      DoubleIsRead(arg[1..], current + [arg[0]], tail);
      assert current + [arg[0]] + arg[1..] == current + arg;
    }
  }

  lemma SparingStep(arg: string, rest: string, text: string, current: string)
    requires arg != [] && rest != []
    requires text == (if arg[0] == '"' then ['\\', '"']
                      else if arg[0] == '\\' && (|arg| == 1 || arg[1] == '"' || arg[1] == '\\') then ['\\', '\\']
                      else [arg[0]]) + rest
    requires |arg| > 1 && arg[1] != '"' && arg[1] != '\\' ==> rest[0] == arg[1]
    ensures Words(text, InDouble, current) == Words(rest, InDouble, current + [arg[0]])
  {
    if arg[0] == '"' || (arg[0] == '\\' && (|arg| == 1 || arg[1] == '"' || arg[1] == '\\')) {
      assert text[2..] == rest;
    } else {
      assert text[1..] == rest;
    }
  }

  lemma {:induction false} SparingIsRead(arg: string, current: string, tail: string)
    ensures Words(SparinglyEscaped(arg) + "\"" + tail, InDouble, current) == Words(tail, InWord, current + arg)
    decreases |arg|
  {
    var text := SparinglyEscaped(arg) + "\"" + tail;
    if arg == [] {
      assert text[1..] == tail && current + arg == current;
    } else {
      var rest := SparinglyEscaped(arg[1..]) + "\"" + tail;
      SparingStep(arg, rest, text, current);
      SparingIsRead(arg[1..], current + [arg[0]], tail);
      assert current + [arg[0]] + arg[1..] == current + arg;
    }
  }

  lemma OpensQuote(quote: string, rest: string, mode: Mode, current: string)
    requires quote == "'" || quote == "\""
    requires mode == InWord || mode == Between
    ensures Words(quote + rest, mode, current) == Words(rest, if quote == "'" then InSingle else InDouble, current)
  {
    assert (quote + rest)[1..] == rest;
  }

  /** A piece adds its text to the word it stands in, or begins one. */
  lemma PieceIsRead(w: Written, mode: Mode, current: string, tail: string)
    requires w.Valid() && (mode == InWord || mode == Between)
    ensures Words(Quoted(w) + tail, mode, current) == Words(tail, InWord, current + w.arg)
  {
    match w.style
    case Bare => BareIsRead(w.arg, mode, current, tail);
    case Single =>
      var rest := w.arg + "'" + tail;
      assert Quoted(w) + tail == "'" + rest;
      OpensQuote("'", rest, mode, current);
      SingleIsRead(w.arg, current, tail);
    case Double =>
      var rest := Escaped(w.arg) + "\"" + tail;
      assert Quoted(w) + tail == "\"" + rest;
      OpensQuote("\"", rest, mode, current);
      DoubleIsRead(w.arg, current, tail);
    case Sparing =>
      var rest := SparinglyEscaped(w.arg) + "\"" + tail;
      assert Quoted(w) + tail == "\"" + rest;
      OpensQuote("\"", rest, mode, current);
      SparingIsRead(w.arg, current, tail);
  }

  // ----- whole lines -----

  predicate IsGap(gap: string) {
    forall i :: 0 <= i < |gap| ==> IsWhitespace(gap[i])
  }

  /** A word made of pieces that touch, and the whitespace behind it. */
  datatype Word = Word(pieces: seq<Written>, gap: string) {
    predicate Valid() {
      pieces != [] && IsGap(gap) && forall w :: w in pieces ==> w.Valid()
    }
  }

  function PiecesText(pieces: seq<Written>): (r: string) {
    if pieces == [] then "" else Quoted(pieces[0]) + PiecesText(pieces[1..])
  }

  function PiecesArg(pieces: seq<Written>): (r: string) {
    if pieces == [] then "" else pieces[0].arg + PiecesArg(pieces[1..])
  }

  function LineText(words: seq<Word>): (r: string) {
    if words == [] then "" else PiecesText(words[0].pieces) + words[0].gap + LineText(words[1..])
  }

  lemma {:induction false} PiecesAreRead(pieces: seq<Written>, mode: Mode, current: string, tail: string)
    requires pieces != [] && (forall w :: w in pieces ==> w.Valid()) && (mode == InWord || mode == Between)
    ensures Words(PiecesText(pieces) + tail, mode, current) == Words(tail, InWord, current + PiecesArg(pieces))
    decreases |pieces|
  {
    var more := pieces[1..];
    assert PiecesText(pieces) + tail == Quoted(pieces[0]) + (PiecesText(more) + tail);
    PieceIsRead(pieces[0], mode, current, PiecesText(more) + tail);
    assert current + PiecesArg(pieces) == current + pieces[0].arg + PiecesArg(more);
    if more == [] {
      assert PiecesText(more) + tail == tail && current + PiecesArg(pieces) == current + pieces[0].arg;
    } else {
      PiecesAreRead(more, InWord, current + pieces[0].arg, tail);
    }
  }

  lemma SpaceIsSkipped(c: char, rest: string)
    requires IsWhitespace(c)
    ensures Words([c] + rest, Between, "") == Words(rest, Between, "")
  {
    assert ([c] + rest)[1..] == rest;
  }

  lemma {:induction false} GapIsSkipped(gap: string, tail: string)
    requires IsGap(gap)
    ensures Words(gap + tail, Between, "") == Words(tail, Between, "")
    decreases |gap|
  {
    if gap == "" {
      assert gap + tail == tail;
    } else {
      var rest := gap[1..] + tail;
      assert gap + tail == [gap[0]] + rest;
      SpaceIsSkipped(gap[0], rest);
      GapIsSkipped(gap[1..], tail);
    }
  }

  lemma GapEndsTheWord(gap: string, tail: string, current: string)
    requires IsGap(gap) && gap != ""
    ensures Words(gap + tail, InWord, current) == [current] + Words(tail, Between, "")
  {
    assert (gap + tail)[1..] == gap[1..] + tail;
    GapIsSkipped(gap[1..], tail);
  }

  lemma GapFollows(text: string, arg: string, gap: string, rest: string)
    requires IsGap(gap) && (gap == "" ==> rest == "")
    requires Words(text + (gap + rest), Between, "") == Words(gap + rest, InWord, arg)
    ensures Split(text + gap + rest) == [arg] + Split(rest)
  {
    assert text + gap + rest == text + (gap + rest);
    if gap == "" {
      assert gap + rest == "";
    } else {
      GapEndsTheWord(gap, rest, arg);
    }
  }

  lemma WordIsRead(w: Word, rest: string)
    requires w.Valid() && (w.gap == "" ==> rest == "")
    ensures Split(PiecesText(w.pieces) + w.gap + rest) == [PiecesArg(w.pieces)] + Split(rest)
  {
    PiecesAreRead(w.pieces, Between, "", w.gap + rest);
    assert "" + PiecesArg(w.pieces) == PiecesArg(w.pieces);
    GapFollows(PiecesText(w.pieces), PiecesArg(w.pieces), w.gap, rest);
  }

  /** Words with a gap between every two of them. */
  predicate IsLine(words: seq<Word>) {
    words == [] || (words[0].Valid() && (words[0].gap == "" ==> |words| == 1) && IsLine(words[1..]))
  }

  function LineArgs(words: seq<Word>): (r: seq<string>) {
    if words == [] then [] else [PiecesArg(words[0].pieces)] + LineArgs(words[1..])
  }

  lemma {:induction false} WordsAreRead(words: seq<Word>)
    requires IsLine(words)
    ensures Split(LineText(words)) == LineArgs(words)
    decreases |words|
  {
    if words != [] {
      WordIsRead(words[0], LineText(words[1..]));
      WordsAreRead(words[1..]);
    }
  }

  /** Words of pieces in any writing, with any whitespace between, before and after, are read as what they say. */
  lemma LineIsRead(lead: string, words: seq<Word>)
    requires IsGap(lead) && IsLine(words)
    ensures Split(lead + LineText(words)) == LineArgs(words)
  {
    GapIsSkipped(lead, LineText(words));
    WordsAreRead(words);
  }

  lemma {:induction false} OpenSingleIsKept(arg: string, current: string)
    requires '\'' !in arg
    ensures Words(arg, InSingle, current) == [current + arg]
    decreases |arg|
  {
    if arg == [] {
      assert current + arg == current;
    } else {
      OpenSingleIsKept(arg[1..], current + [arg[0]]);
      assert current + [arg[0]] + arg[1..] == current + arg;
    }
  }

  lemma {:induction false} OpenDoubleIsKept(arg: string, current: string)
    ensures Words(Escaped(arg), InDouble, current) == [current + arg]
    decreases |arg|
  {
    if arg == [] {
      assert current + arg == current;
    } else {
      var text, rest := Escaped(arg), Escaped(arg[1..]);
      if arg[0] == '"' || arg[0] == '\\' {
        assert text == ['\\', arg[0]] + rest;
        assert text[2..] == rest;
      } else {
        assert text[1..] == rest;
      }
      OpenDoubleIsKept(arg[1..], current + [arg[0]]);
      assert current + [arg[0]] + arg[1..] == current + arg;
    }
  }

  /** A quote that is never closed holds the rest of the text. */
  lemma UnclosedQuoteIsKept(arg: string)
    ensures '\'' !in arg ==> Split("'" + arg) == [arg]
    ensures Split("\"" + Escaped(arg)) == [arg]
  {
    if '\'' !in arg {
      OpensQuote("'", arg, Between, "");
      OpenSingleIsKept(arg, "");
    }
    OpensQuote("\"", Escaped(arg), Between, "");
    OpenDoubleIsKept(arg, "");
    assert "" + arg == arg;
  }

  /** Splitting undoes quoting: any list of arguments, empty ones included, each written in any way that can hold it,
      is split back to exactly that list. */
  lemma {:induction false} SplitUndoesQuoting(ws: seq<Written>)
    requires forall w :: w in ws ==> w.Valid()
    ensures Split(Joined(ws)) == Args(ws)
  {
    if ws != [] {
      var w := ws[0];
      if |ws| == 1 {
        PieceIsRead(w, Between, "", "");
        assert Quoted(w) + "" == Quoted(w) && "" + w.arg == w.arg;
      } else {
        NextWord(w, Joined(ws[1..]));
        SplitUndoesQuoting(ws[1..]);
        assert Args(ws) == [w.arg] + Args(ws[1..]);
      }
    }
  }

  lemma NextWord(w: Written, rest: string)
    requires w.Valid()
    ensures Split(Quoted(w) + " " + rest) == [w.arg] + Split(rest)
  {
    PieceIsRead(w, Between, "", " " + rest);
    assert "" + w.arg == w.arg;
    assert Quoted(w) + " " + rest == Quoted(w) + (" " + rest);
    assert (" " + rest)[1..] == rest;
  }

  datatype Command = Command(binary: string, args: seq<string>)

  function ParseEnvEditor(value: string): (r: Option<Command>) {
    var words := Split(value);
    if words == [] || words[0] == "" then None else Some(Command(words[0], words[1..]))
  }

  function InDoubleQuotes(args: seq<string>): (ws: seq<Written>)
    ensures |ws| == |args| && forall i :: 0 <= i < |args| ==> ws[i] == Written(args[i], Double)
  {
    seq(|args|, i requires 0 <= i < |args| => Written(args[i], Double))
  }

  /** So double quotes carry any command at all through the environment, unless its program is empty. */
  lemma EditorCommandRoundTrip(binary: string, args: seq<string>)
    ensures ParseEnvEditor(Joined(InDoubleQuotes([binary] + args)))
         == if binary == "" then None else Some(Command(binary, args))
  {
    var all := [binary] + args;
    SplitUndoesQuoting(InDoubleQuotes(all));
    assert Args(InDoubleQuotes(all)) == all;
    assert all[1..] == args;
  }
}
