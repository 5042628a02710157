/** The `$NAME`, `${NAME}` and `%NAME%` expander (`env_expand.rs`), against a reading of the text as tokens. */
module EnvExpand {
  import opened Basics
  import opened Text

  type Lookup = string -> Option<string>

  /** The expanded text, or the name that is not defined. */
  datatype Expansion = Expanded(text: string) | Undefined(name: string)

  predicate IsNameStart(c: char) {
    'A' <= c <= 'Z' || 'a' <= c <= 'z' || c == '_'
  }

  predicate IsNameChar(c: char) {
    IsNameStart(c) || IsDigit(c)
  }

  predicate IsName(name: string) {
    name != [] && IsNameStart(name[0]) && forall i :: 0 <= i < |name| ==> IsNameChar(name[i])
  }

  /** A name is made of letters, digits and underscores, and does not start with a digit. */
  lemma NamesAre(name: string)
    ensures IsName(name) <==>
              && name != "" && !('0' <= name[0] <= '9')
              && forall i :: 0 <= i < |name| ==>
                   'a' <= name[i] <= 'z' || 'A' <= name[i] <= 'Z' || '0' <= name[i] <= '9' || name[i] == '_'
  {
  }

  predicate IsMarker(c: char) {
    c == '$' || c == '%'
  }

  // ----- tokens -----

  datatype Form = Bare | Braced | Percent

  /** A stretch of plain text, or a placeholder in one of its three forms. */
  datatype Token = Literal(text: string) | Placeholder(form: Form, name: string)

  function Source(t: Token): (r: string) {
    match t
    case Literal(text) => text
    case Placeholder(Bare, name) => "$" + name
    case Placeholder(Braced, name) => "${" + name + "}"
    case Placeholder(Percent, name) => "%" + name + "%"
  }

  /** The longest run of name characters at the start of `s`. */
  function Run(s: string): (k: nat)
    ensures k <= |s|
    ensures forall i :: 0 <= i < k ==> IsNameChar(s[i])
    ensures k < |s| ==> !IsNameChar(s[k])
  {
    if s == [] || !IsNameChar(s[0]) then 0 else 1 + Run(s[1..])
  }

  function IdentifierAt(s: string): (r: string) {
    if IsName(s[..Run(s)]) then s[..Run(s)] else ""
  }

  /** The placeholder a text starts with, if it starts with one. */
  function PlaceholderAt(s: string): (r: Option<Token>) {
    if s == [] || !IsMarker(s[0]) then None
    else if s[0] == '$' && |s| > 1 && s[1] == '{' then
      var close := IndexOf(s[2..], '}');
      if close < |s| - 2 && IsName(s[2..2 + close]) then Some(Placeholder(Braced, s[2..2 + close])) else None
    else
      var name := IdentifierAt(s[1..]);
      if name == "" then None
      else if s[0] == '$' then Some(Placeholder(Bare, name))
      else if 1 + |name| < |s| && s[1 + |name|] == '%' then Some(Placeholder(Percent, name))
      else None
  }

  function PlainLength(s: string): (k: nat)
    ensures k <= |s|
    ensures forall i :: 0 <= i < k ==> !IsMarker(s[i])
    ensures k < |s| ==> IsMarker(s[k])
  {
    if s == [] || IsMarker(s[0]) then 0 else 1 + PlainLength(s[1..])
  }

  /** The first token of a text: plain text up to a marker, a placeholder, or a marker that starts none. */
  function FirstToken(s: string): (t: Token)
    requires s != []
    ensures Source(t) != [] && Source(t) <= s
  {
    var plain := PlainLength(s);
    if plain > 0 then Literal(s[..plain])
    else
      match PlaceholderAt(s)
      case None => Literal(s[..1])
      case Some(t) => PlaceholderIsPrefix(s); t
  }

  lemma MarkedPrefix(s: string, n: nat)
    requires n + 1 <= |s|
    ensures s[..1 + n] == [s[0]] + s[1..][..n]
    ensures n + 1 < |s| ==> s[..2 + n] == [s[0]] + s[1..][..n] + [s[1 + n]]
  {
  }

  lemma PlaceholderIsPrefix(s: string)
    requires PlaceholderAt(s).Some?
    ensures Source(PlaceholderAt(s).value) <= s
    ensures IsName(PlaceholderAt(s).value.name)
  {
    var name := PlaceholderAt(s).value.name;
    match PlaceholderAt(s).value.form
    case Bare => MarkedPrefix(s, |name|);
    case Braced => assert s[..3 + |name|] == "${" + name + "}";
    case Percent => MarkedPrefix(s, |name|);
  }

  lemma {:induction false} RunIs(s: string, k: nat)
    requires k <= |s| && (forall i :: 0 <= i < k ==> IsNameChar(s[i])) && (k < |s| ==> !IsNameChar(s[k]))
    ensures Run(s) == k
  {
    if k > 0 {
      RunIs(s[1..], k - 1);
    }
  }

  /** What stands for a placeholder at the start of a text, said without the scanning: a name in one of the three
      forms, and for the bare form the longest such name. */
  ghost predicate Stands(s: string, t: Token) {
    && t.Placeholder? && IsName(t.name) && Source(t) <= s
    && (t.form == Bare && |Source(t)| < |s| ==> !IsNameChar(s[|Source(t)|]))
  }

  lemma PlaceholderStands(s: string)
    requires PlaceholderAt(s).Some?
    ensures Stands(s, PlaceholderAt(s).value)
  {
    PlaceholderIsPrefix(s);
  }

  lemma NameIsRun(name: string, rest: string)
    requires IsName(name) && (rest != [] ==> !IsNameChar(rest[0]))
    ensures Run(name + rest) == |name| && IdentifierAt(name + rest) == name
  {
    RunIs(name + rest, |name|);
    assert (name + rest)[..|name|] == name;
  }

  lemma BareIsFound(name: string, rest: string)
    requires IsName(name) && (rest != [] ==> !IsNameChar(rest[0]))
    ensures PlaceholderAt("$" + name + rest) == Some(Placeholder(Bare, name))
  {
    NameIsRun(name, rest);
    assert ("$" + name + rest)[1..] == name + rest;
  }

  lemma BracedIsFound(name: string, rest: string)
    requires IsName(name)
    ensures PlaceholderAt("${" + name + "}" + rest) == Some(Placeholder(Braced, name))
  {
    var s := "${" + name + "}" + rest;
    assert s[2..] == name + "}" + rest;
    IndexOfFirst(name, rest, '}');
    assert s[2..2 + |name|] == name;
  }

  lemma PercentIsFound(name: string, rest: string)
    requires IsName(name)
    ensures PlaceholderAt("%" + name + "%" + rest) == Some(Placeholder(Percent, name))
  {
    NameIsRun(name, "%" + rest);
    assert ("%" + name + "%" + rest)[1..] == name + ("%" + rest);
  }

  lemma StandingIsFound(s: string, t: Token)
    requires Stands(s, t)
    ensures PlaceholderAt(s) == Some(t)
  {
    var rest := s[|Source(t)|..];
    assert s == Source(t) + rest;
    match t.form
    case Bare => BareIsFound(t.name, rest);
    case Braced => BracedIsFound(t.name, rest);
    case Percent => PercentIsFound(t.name, rest);
  }

  /** The scanner finds a placeholder exactly when one stands there, and then the one that does. */
  lemma PlaceholdersAreExact(s: string, t: Token)
    ensures PlaceholderAt(s) == Some(t) <==> Stands(s, t)
  {
    if PlaceholderAt(s) == Some(t) {
      PlaceholderStands(s);
    }
    if Stands(s, t) {
      StandingIsFound(s, t);
    }
  }

  function Tokens(s: string): (r: seq<Token>)
    decreases |s|
  {
    if s == [] then [] else var t := FirstToken(s); [t] + Tokens(s[|Source(t)|..])
  }

  function Sources(tokens: seq<Token>): (r: string) {
    if tokens == [] then [] else Source(tokens[0]) + Sources(tokens[1..])
  }

  /** The tokens of a text give it back. */
  lemma {:induction false} TokensAreLossless(s: string)
    ensures Sources(Tokens(s)) == s
    decreases |s|
  {
    if s != [] {
      var t := FirstToken(s);
      TokensStep(s, s[|Source(t)|..]);
      TokensAreLossless(s[|Source(t)|..]);
      assert s == Source(t) + s[|Source(t)|..];
    }
  }

  // ----- the meaning of tokens -----

  function Value(t: Token, lookup: Lookup): (r: Option<string>) {
    if t.Literal? then Some(t.text) else lookup(t.name)
  }

  /** The values of the tokens from the `k`th on, each put in as it is, or the leftmost name without one. */
  function Evaluate(tokens: seq<Token>, k: nat, lookup: Lookup): (r: Expansion)
    requires k <= |tokens|
    decreases |tokens| - k
  {
    if k == |tokens| then Expanded("")
    else match Value(tokens[k], lookup)
      case None => Undefined(tokens[k].name)
      case Some(v) => Prepend(v, Evaluate(tokens, k + 1, lookup))
  }

  function Prepend(text: string, e: Expansion): (r: Expansion) {
    match e
    case Expanded(rest) => Expanded(text + rest)
    case Undefined(_) => e
  }

  lemma {:induction false} PrependTwice(a: string, b: string, e: Expansion)
    ensures Prepend(a, Prepend(b, e)) == Prepend(a + b, e)
  {
    if e.Expanded? {
      assert a + (b + e.text) == (a + b) + e.text;
    }
  }

  /** Where token `k` starts. */
  function Offset(tokens: seq<Token>, k: nat): (r: nat)
    requires k <= |tokens|
  {
    if k == 0 then 0 else Offset(tokens, k - 1) + |Source(tokens[k - 1])|
  }

  lemma TokensStep(s: string, tail: string)
    requires s != [] && tail == s[|Source(FirstToken(s))|..]
    ensures Tokens(s) != [] && Tokens(s)[0] == FirstToken(s) && Tokens(s)[1..] == Tokens(tail)
  {
  }

  /** `f` reads one token of a text and then the tokens of what follows it. */
  ghost predicate ReadsOn(f: string -> seq<Token>, r: string) {
    if r == "" then f(r) == []
    else f(r) != [] && |Source(f(r)[0])| <= |r| && f(r[|Source(f(r)[0])|..]) == f(r)[1..]
  }

  lemma {:induction false} ReadsFrom(f: string -> seq<Token>, s: string, tokens: seq<Token>, k: nat)
    requires forall r :: ReadsOn(f, r)
    requires tokens == f(s) && k <= |tokens|
    ensures Offset(tokens, k) <= |s|
    ensures f(s[Offset(tokens, k)..]) == tokens[k..]
  {
    if k == 0 {
      DropTwice(s, 0, 0);
    } else {
      ReadsFrom(f, s, tokens, k - 1);
      var at := Offset(tokens, k - 1);
      assert ReadsOn(f, s[at..]);
      HeadOfRest(tokens, k - 1);
      DropTwice(s, at, |Source(tokens[k - 1])|);
    }
  }

  /** The tokens from the `k`th on are the tokens of the text from its offset on. */
  lemma TokensFrom(s: string, tokens: seq<Token>, k: nat)
    requires tokens == Tokens(s) && k <= |tokens|
    ensures Offset(tokens, k) <= |s|
    ensures Tokens(s[Offset(tokens, k)..]) == tokens[k..]
  {
    var f := (r: string) => Tokens(r);
    forall r
      ensures ReadsOn(f, r)
    {
      if r != "" {
        TokensStep(r, r[|Source(FirstToken(r))|..]);
      }
    }
    ReadsFrom(f, s, tokens, k);
  }

  /** Token `k` is the first token of the text at its offset; after the last token the text is over. */
  lemma TokenAt(s: string, tokens: seq<Token>, k: nat)
    requires tokens == Tokens(s) && k <= |tokens|
    ensures Offset(tokens, k) <= |s|
    ensures k == |tokens| <==> Offset(tokens, k) == |s|
    ensures k < |tokens| ==> FirstToken(s[Offset(tokens, k)..]) == tokens[k]
  {
    TokensFrom(s, tokens, k);
    var rest := s[Offset(tokens, k)..];
    if rest != [] {
      TokensStep(rest, rest[|Source(FirstToken(rest))|..]);
      assert tokens[k..][0] == tokens[k];
    }
  }

  lemma NothingStandsIn(rest: string, i: nat, t: Token)
    requires rest != "" && FirstToken(rest).Literal? && i < |FirstToken(rest).text|
    ensures !Stands(rest[i..], t)
  {
    if PlainLength(rest) > 0 {
      assert !IsMarker(rest[i]);
      assert t.Placeholder? ==> IsMarker(Source(t)[0]);
      assert rest[i..][0] == rest[i];
    } else {
      PlaceholdersAreExact(rest, t);
      assert rest[0..] == rest;
    }
  }

  /** A placeholder read first stands there, and none stands anywhere in a literal read first. */
  lemma FirstTokenIsExact(rest: string, i: nat, t: Token)
    requires rest != ""
    ensures FirstToken(rest).Placeholder? ==> Stands(rest, FirstToken(rest))
    ensures FirstToken(rest).Literal? && i < |FirstToken(rest).text| ==> i <= |rest| && !Stands(rest[i..], t)
  {
    if FirstToken(rest).Placeholder? {
      PlaceholderStands(rest);
    } else if i < |FirstToken(rest).text| {
      NothingStandsIn(rest, i, t);
    }
  }

  // ----- what an expansion is -----

  predicate IsUndefined(t: Token, lookup: Lookup) {
    t.Placeholder? && lookup(t.name) == None
  }

  /** What a token is replaced by: a literal by itself, a placeholder by what is looked up. */
  function Piece(t: Token, lookup: Lookup): (r: string) {
    match t
    case Literal(text) => text
    case Placeholder(_, name) => if lookup(name).Some? then lookup(name).value else ""
  }

  function Flat(parts: seq<string>): (r: string) {
    if parts == [] then "" else parts[0] + Flat(parts[1..])
  }

  function Pieces(tokens: seq<Token>, k: nat, lookup: Lookup): (parts: seq<string>)
    requires k <= |tokens|
    ensures |parts| == |tokens| - k
    ensures forall i :: k <= i < |tokens| ==> parts[i - k] == Piece(tokens[i], lookup)
  {
    seq(|tokens| - k, i requires 0 <= i < |tokens| - k => Piece(tokens[k + i], lookup))
  }

  lemma {:induction false} AllDefined(tokens: seq<Token>, k: nat, lookup: Lookup)
    requires k <= |tokens| && forall i :: k <= i < |tokens| ==> !IsUndefined(tokens[i], lookup)
    ensures Evaluate(tokens, k, lookup) == Expanded(Flat(Pieces(tokens, k, lookup)))
    decreases |tokens| - k
  {
    if k < |tokens| {
      AllDefined(tokens, k + 1, lookup);
      assert Pieces(tokens, k, lookup)[1..] == Pieces(tokens, k + 1, lookup);
      assert Value(tokens[k], lookup) == Some(Piece(tokens[k], lookup));
    }
  }

  lemma {:induction false} FirstUndefined(tokens: seq<Token>, k: nat, n: nat, lookup: Lookup)
    requires k <= n < |tokens| && IsUndefined(tokens[n], lookup)
    requires forall i :: k <= i < n ==> !IsUndefined(tokens[i], lookup)
    ensures Evaluate(tokens, k, lookup) == Undefined(tokens[n].name)
    decreases n - k
  {
    if k < n {
      FirstUndefined(tokens, k + 1, n, lookup);
      assert !IsUndefined(tokens[k], lookup);
    }
  }

  /** The expansion of a text: the leftmost undefined name if there is one, else literals and looked-up values in
      order, looked-up text as it is. */
  lemma ExpansionIs(s: string, lookup: Lookup)
    ensures var tokens := Tokens(s);
            && (forall n :: 0 <= n < |tokens| && IsUndefined(tokens[n], lookup)
                            && (forall i :: 0 <= i < n ==> !IsUndefined(tokens[i], lookup)) ==>
                  Evaluate(tokens, 0, lookup) == Undefined(tokens[n].name))
            && ((forall n :: 0 <= n < |tokens| ==> !IsUndefined(tokens[n], lookup)) ==>
                  Evaluate(tokens, 0, lookup) == Expanded(Flat(Pieces(tokens, 0, lookup))))
  {
    var tokens := Tokens(s);
    forall n | 0 <= n < |tokens| && IsUndefined(tokens[n], lookup)
               && (forall i :: 0 <= i < n ==> !IsUndefined(tokens[i], lookup))
      ensures Evaluate(tokens, 0, lookup) == Undefined(tokens[n].name)
    {
      FirstUndefined(tokens, 0, n, lookup);
    }
    if forall n :: 0 <= n < |tokens| ==> !IsUndefined(tokens[n], lookup) {
      AllDefined(tokens, 0, lookup);
    }
  }

  /** A text without markers is its own expansion. */
  lemma PlainTextStays(s: string, lookup: Lookup)
    requires '$' !in s && '%' !in s
    ensures Evaluate(Tokens(s), 0, lookup) == Expanded(s)
  {
    if s != "" {
      assert forall i :: 0 <= i < |s| ==> s[i] in s;
      assert PlainLength(s) == |s| && FirstToken(s) == Literal(s) by {
        assert s[..|s|] == s;
      }
      TokensStep(s, s[|s|..]);
      assert Tokens(s) == [Literal(s)];
      assert s + "" == s;
    }
  }

  /** The loop has read `k` tokens, the text up to `index`, and put their values in `out`. */
  ghost predicate ReadUpTo(tokens: seq<Token>, k: nat, index: nat, out: string, lookup: Lookup) {
    && k <= |tokens| && index == Offset(tokens, k)
    && Prepend(out, Evaluate(tokens, k, lookup)) == Evaluate(tokens, 0, lookup)
  }

  lemma TokenIsRead(tokens: seq<Token>, k: nat, index: nat, out: string, lookup: Lookup)
    requires ReadUpTo(tokens, k, index, out, lookup) && k < |tokens|
    ensures var t := tokens[k];
            var v := Value(t, lookup);
            if v.None? then Evaluate(tokens, 0, lookup) == Undefined(t.name)
            else ReadUpTo(tokens, k + 1, index + |Source(t)|, out + v.value, lookup)
  {
    var v := Value(tokens[k], lookup);
    if v.Some? {
      PrependTwice(out, v.value, Evaluate(tokens, k + 1, lookup));
    }
  }

  lemma NothingIsRead(tokens: seq<Token>, lookup: Lookup)
    ensures ReadUpTo(tokens, 0, 0, "", lookup)
  {
    var e := Evaluate(tokens, 0, lookup);
    assert e.Expanded? ==> "" + e.text == e.text;
  }

  lemma AllIsRead(tokens: seq<Token>, index: nat, out: string, lookup: Lookup)
    requires ReadUpTo(tokens, |tokens|, index, out, lookup)
    ensures Evaluate(tokens, 0, lookup) == Expanded(out)
  {
    assert out + "" == out;
  }

  /** What stands at a marker: how much text it takes, and its value, or the name that has none. */
  method ReadMarker(rest: string, lookup: Lookup) returns (piece: Option<string>, name: string, consumed: nat)
    requires rest != [] && IsMarker(rest[0])
    ensures var t := FirstToken(rest);
            consumed == |Source(t)| && piece == Value(t, lookup) && (piece.None? ==> name == t.name)
  {
    if rest[0] == '$' && |rest| > 1 && rest[1] == '{' {
      var close := IndexOf(rest[2..], '}');
      name := rest[2..2 + close];
      if close < |rest| - 2 && IsName(name) {
        return lookup(name), name, close + 3;
      }
      assert rest[..1] == "$";
      return Some("$"), "", 1;
    }
    name := IdentifierAt(rest[1..]);
    if rest[0] == '$' {
      if name == "" {
        assert rest[..1] == "$";
        return Some("$"), "", 1;
      }
      return lookup(name), name, 1 + |name|;
    }
    if name != "" && 1 + |name| < |rest| && rest[1 + |name|] == '%' {
      return lookup(name), name, |name| + 2;
    }
    assert rest[..1] == "%";
    return Some("%"), "", 1;
  }

  /** The expansion loop: what it builds is the values of the text's tokens, and its error is the leftmost name
      that is not defined. Looked-up text is never read again. */
  method ExpandPlaceholders(value: string, lookup: Lookup) returns (result: Expansion)
    ensures result == Evaluate(Tokens(value), 0, lookup)
  {
    var out := "";
    var index: nat := 0;
    ghost var tokens, k: nat := Tokens(value), 0;
    NothingIsRead(tokens, lookup);
    TokenAt(value, tokens, 0);
    while index < |value|
      invariant index <= |value| && (k == |tokens| <==> index == |value|)
      invariant ReadUpTo(tokens, k, index, out, lookup)
      decreases |value| - index
    {
      var rest := value[index..];
      TokenAt(value, tokens, k);
      TokenIsRead(tokens, k, index, out, lookup);
      TokenAt(value, tokens, k + 1);
      var plain := PlainLength(rest);
      if plain > 0 {
        out := out + rest[..plain];
        index := index + plain;
      } else {
        var piece, name, consumed := ReadMarker(rest, lookup);
        if piece.None? {
          return Undefined(name);
        }
        out := out + piece.value;
        index := index + consumed;
      }
      k := k + 1;
    }
    AllIsRead(tokens, index, out, lookup);
    return Expanded(out);
  }
}
