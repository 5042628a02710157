/** Resume and fork commands (`agent_resume.rs`): built from a runtime's templates, rendered for a shell, and read
    back by launch detection (`agent_launcher.rs`). */
module Resume {
  import opened Basics
  import opened Text
  import opened Catalog

  const MAX_SESSION_ID_CHARS := 128
  const CLAUDE_CODE_ID := "com.anthropic.claude-code"

  // ----- session ids and templates -----

  /** `is_valid_session_id`. */
  predicate IsValidSessionId(id: string) {
    && 0 < |id| <= MAX_SESSION_ID_CHARS
    && (IsAlphanumeric(id[0]) || id[0] == '_')
    && forall i :: 1 <= i < |id| ==> IsAlphanumeric(id[i]) || id[i] == '-' || id[i] == '_'
  }

  datatype Template = Resumption | Fork

  predicate ContinuesByObservation(d: Descriptor) {
    !d.hasHookAdapter && d.resume.Some? && d.resume.value.continueArgv.Some?
  }

  /** `matches(pattern, id)` is the regular expression's answer, false for a pattern that does not compile. */
  predicate AcceptsSessionId(d: Descriptor, id: string, matches: (string, string) -> bool) {
    d.resume.Some? && IsValidSessionId(id) && matches(d.resume.value.sessionIdPattern, id)
  }

  predicate AcceptsRecordedSession(d: Descriptor, id: string, matches: (string, string) -> bool) {
    if id == "" then ContinuesByObservation(d) else AcceptsSessionId(d, id, matches)
  }

  /** The template a conversation is built from. */
  function ChosenArgv(d: Descriptor, template: Template, id: string): (r: Option<seq<string>>) {
    if d.resume.None? then None
    else
      match template
      case Resumption =>
        if id == "" && ContinuesByObservation(d) then d.resume.value.continueArgv else Some(d.resume.value.sessionArgv)
      case Fork => d.resume.value.forkArgv
  }

  function Fill(arg: string, id: string): (r: string) {
    if arg == SESSION_ID_PLACEHOLDER then id else arg
  }

  function FillAll(argv: seq<string>, id: string): (r: seq<string>)
    ensures |r| == |argv|
    ensures forall i :: 0 <= i < |argv| ==> r[i] == Fill(argv[i], id)
  {
    seq(|argv|, i requires 0 <= i < |argv| => Fill(argv[i], id))
  }

  function LaunchFlags(d: Descriptor, bypassPermissions: bool): (r: seq<string>) {
    if d.id == CLAUDE_CODE_ID && bypassPermissions then ["--permission-mode", "bypassPermissions"] else []
  }

  /** Program and arguments of the command a conversation gets, if it gets one. */
  function Tokens(d: Descriptor, template: Template, id: string, matches: (string, string) -> bool,
                  bypassPermissions: bool)
    : (r: Option<seq<string>>)
    ensures r.Some? ==> r.value != []
  {
    var argv :- ChosenArgv(d, template, id);
    if argv == [] || !AcceptsRecordedSession(d, id, matches) then None
    else Some([argv[0]] + FillAll(argv[1..], id) + LaunchFlags(d, bypassPermissions))
  }

  // ----- building and rendering -----

  /** The text a shell gets: the tokens, one space between two. */
  function Rendered(tokens: seq<string>): (r: string)
    requires tokens != []
    decreases |tokens|
  {
    var n := |tokens| - 1;
    if n == 0 then tokens[0] else Rendered(tokens[..n]) + " " + tokens[n]
  }

  class AgentCommandSpec {
    const program: string
    var args: seq<string>

    constructor (program: string)
      ensures this.program == program && args == []
    {
      this.program := program;
      args := [];
    }

    function Command(): (r: seq<string>)
      reads this
      ensures r != []
    {
      [program] + args
    }

    method PushArg(arg: string)
      modifies this
      ensures args == old(args) + [arg]
    {
      args := args + [arg];
    }

    method RenderShellCommand() returns (command: string)
      ensures command == Rendered(Command())
    {
      command := program;
      for i := 0 to |args|
        invariant command == Rendered([program] + args[..i])
      {
        command := command + " " + args[i];
        assert ([program] + args[..i + 1])[..i + 1] == [program] + args[..i];
      }
      assert args[..|args|] == args;
    }
  }

  method PushLaunchFlags(d: Descriptor, spec: AgentCommandSpec, bypassPermissions: bool)
    modifies spec
    ensures spec.args == old(spec.args) + LaunchFlags(d, bypassPermissions)
  {
    if d.id == CLAUDE_CODE_ID && bypassPermissions {
      spec.PushArg("--permission-mode");
      spec.PushArg("bypassPermissions");
    }
  }

  method ConversationSpec(d: Descriptor, template: Template, id: string, matches: (string, string) -> bool,
                          bypassPermissions: bool)
    returns (spec: AgentCommandSpec?)
    ensures spec == null <==> Tokens(d, template, id, matches, bypassPermissions).None?
    ensures spec != null ==> fresh(spec) && Some(spec.Command()) == Tokens(d, template, id, matches, bypassPermissions)
  {
    if d.resume.None? {
      return null;
    }
    var continues := id == "" && ContinuesByObservation(d);
    var argv;
    match template {
      case Resumption =>
        argv := if continues then d.resume.value.continueArgv.value else d.resume.value.sessionArgv;
      case Fork =>
        if d.resume.value.forkArgv.None? {
          return null;
        }
        argv := d.resume.value.forkArgv.value;
    }
    if !continues && !AcceptsSessionId(d, id, matches) {
      return null;
    }
    if argv == [] {
      return null;
    }
    spec := new AgentCommandSpec(argv[0]);
    ghost var filled := FillAll(argv[1..], id);
    for i := 1 to |argv|
      invariant fresh(spec) && spec.program == argv[0]
      invariant spec.args == filled[..i - 1]
    {
      assert filled[i - 1] == Fill(argv[i], id);
      if argv[i] == SESSION_ID_PLACEHOLDER {
        spec.PushArg(id);
      } else {
        spec.PushArg(argv[i]);
      }
    }
    assert spec.args == filled;
    PushLaunchFlags(d, spec, bypassPermissions);
    assert spec.Command() == [argv[0]] + filled + LaunchFlags(d, bypassPermissions);
  }

  // ----- reading words back -----

  function WordLength(s: string): (k: nat)
    ensures k <= |s|
  {
    if s == [] || IsWhitespace(s[0]) then 0 else 1 + WordLength(s[1..])
  }

  /** `str::split_whitespace`. */
  function Words(s: string): (r: seq<string>)
    decreases |s|
  {
    if s == [] then []
    else if IsWhitespace(s[0]) then Words(s[1..])
    else
      var k := WordLength(s);
      [s[..k]] + Words(s[k..])
  }

  predicate IsSolid(s: string) {
    forall i :: 0 <= i < |s| ==> !IsWhitespace(s[i])
  }

  lemma {:induction false} SolidWord(s: string)
    requires IsSolid(s)
    ensures WordLength(s) == |s|
    ensures Words(s) == if s == "" then [] else [s]
  {
    if s != "" {
      SolidWord(s[1..]);
      assert s[..|s|] == s && s[|s|..] == [];
    }
  }

  lemma {:induction false} WordEndsAtSpace(a: string, c: char, b: string)
    requires IsWhitespace(c)
    ensures WordLength(a + [c] + b) == WordLength(a)
  {
    var s := a + [c] + b;
    if a != "" && !IsWhitespace(a[0]) {
      assert s[1..] == a[1..] + [c] + b;
      WordEndsAtSpace(a[1..], c, b);
    }
  }

  lemma {:induction false} WordsOfParts(a: string, c: char, b: string)
    requires IsWhitespace(c)
    ensures Words(a + [c] + b) == Words(a) + Words(b)
    decreases |a|
  {
    var s := a + [c] + b;
    if a == "" {
      assert s[1..] == b;
    } else if IsWhitespace(a[0]) {
      assert s[1..] == a[1..] + [c] + b;
      WordsOfParts(a[1..], c, b);
    } else {
      var k := WordLength(a);
      WordEndsAtSpace(a, c, b);
      assert s[..k] == a[..k] && s[k..] == a[k..] + [c] + b;
      WordsOfParts(a[k..], c, b);
    }
  }

  function NonEmpty(tokens: seq<string>): (r: seq<string>)
    decreases |tokens|
  {
    if tokens == [] then []
    else
      var n := |tokens| - 1;
      NonEmpty(tokens[..n]) + if tokens[n] == "" then [] else [tokens[n]]
  }

  lemma {:induction false} NothingIsLost(tokens: seq<string>)
    ensures |NonEmpty(tokens)| <= |tokens|
    ensures "" !in tokens ==> NonEmpty(tokens) == tokens
    ensures "" in tokens ==> |NonEmpty(tokens)| < |tokens|
    decreases |tokens|
  {
    if tokens != [] {
      var n := |tokens| - 1;
      NothingIsLost(tokens[..n]);
      assert tokens == tokens[..n] + [tokens[n]];
    }
  }

  lemma NonEmptyOfOne(t: string)
    ensures NonEmpty([t]) == if t == "" then [] else [t]
  {
    assert [t][..0] == [];
  }

  predicate AllSolid(tokens: seq<string>) {
    forall i :: 0 <= i < |tokens| ==> IsSolid(tokens[i])
  }

  /** Rendering loses nothing but empty tokens. */
  lemma {:induction false} WordsOfRendered(tokens: seq<string>)
    requires tokens != [] && AllSolid(tokens)
    ensures Words(Rendered(tokens)) == NonEmpty(tokens)
    decreases |tokens|
  {
    var n := |tokens| - 1;
    SolidWord(tokens[n]);
    if n == 0 {
      NonEmptyOfOne(tokens[0]);
      assert tokens == [tokens[0]];
    } else {
      WordsOfRendered(tokens[..n]);
      WordsOfParts(Rendered(tokens[..n]), ' ', tokens[n]);
    }
  }

  // ----- what a sound template gives -----

  lemma CountsPresence(argv: seq<string>, arg: string)
    ensures Count(argv, arg) > 0 <==> arg in argv
  {
  }

  lemma ValidIdIsPlain(id: string)
    requires IsValidSessionId(id)
    ensures IsPlain(id) && id != SESSION_ID_PLACEHOLDER
  {
    assert SESSION_ID_PLACEHOLDER[0] == '{';
  }

  lemma PlainTokensAreSolid(tokens: seq<string>)
    requires forall t :: t in tokens ==> t == "" || IsPlain(t)
    ensures AllSolid(tokens)
  {
    forall i | 0 <= i < |tokens|
      ensures IsSolid(tokens[i])
    {
      assert tokens[i] in tokens;
    }
  }

  lemma FlagsArePlain(d: Descriptor, bypassPermissions: bool)
    ensures forall t :: t in LaunchFlags(d, bypassPermissions) ==> IsPlain(t)
  {
  }

  lemma ChosenIsSound(d: Descriptor, template: Template, id: string, compiles: string -> bool)
    requires IsSoundAlone(d, compiles) && ChosenArgv(d, template, id).Some?
    ensures var needsSessionId := template.Fork? || id != "" || !ContinuesByObservation(d);
            TemplateIsSound(d.commandAliases, ChosenArgv(d, template, id).value, needsSessionId)
  {
  }

  /** A sound runtime gets a command for exactly the sessions it accepts, and to fork it must have a fork template. */
  lemma CommandsAreBuilt(d: Descriptor, template: Template, id: string, matches: (string, string) -> bool,
                         bypassPermissions: bool, compiles: string -> bool)
    requires IsSoundAlone(d, compiles)
    ensures Tokens(d, template, id, matches, bypassPermissions).Some?
       <==> AcceptsRecordedSession(d, id, matches) && (template.Fork? ==> d.resume.value.forkArgv.Some?)
  {
    if ChosenArgv(d, template, id).Some? {
      ChosenIsSound(d, template, id, compiles);
    }
  }

  /** Every token is plain but an empty id in the placeholder's position; the placeholder itself is always filled. */
  lemma TokensArePlain(d: Descriptor, template: Template, id: string, matches: (string, string) -> bool,
                       bypassPermissions: bool, compiles: string -> bool)
    requires IsSoundAlone(d, compiles) && Tokens(d, template, id, matches, bypassPermissions).Some?
    ensures var tokens := Tokens(d, template, id, matches, bypassPermissions).value;
            && tokens[0] in d.commandAliases
            && (forall t :: t in tokens ==> t == "" || IsPlain(t))
            && ("" in tokens <==> template.Fork? && id == "")
  {
    var argv := ChosenArgv(d, template, id).value;
    ChosenIsSound(d, template, id, compiles);
    CountsPresence(argv, SESSION_ID_PLACEHOLDER);
    FlagsArePlain(d, bypassPermissions);
    if id != "" {
      ValidIdIsPlain(id);
    }
    var filled := FillAll(argv[1..], id);
    forall k | 0 <= k < |filled|
      ensures filled[k] == "" || IsPlain(filled[k])
      ensures filled[k] == "" <==> argv[k + 1] == SESSION_ID_PLACEHOLDER && id == ""
    {
      assert argv[1..][k] == argv[k + 1];
    }
    if template.Fork? && id == "" {
      var k :| 0 <= k < |argv| && argv[k] == SESSION_ID_PLACEHOLDER;
      assert filled[k - 1] == "";
    }
  }

  lemma {:induction false} CountedOnce(argv: seq<string>, arg: string) returns (k: nat)
    requires Count(argv, arg) == 1
    ensures k < |argv| && argv[k] == arg && forall j :: 0 <= j < |argv| && j != k ==> argv[j] != arg
  {
    if argv[0] == arg {
      k := 0;
      assert argv == [arg] + argv[1..];
      forall j | 0 < j < |argv|
        ensures argv[j] != arg
      {
        assert argv[1..][j - 1] in argv[1..];
      }
    } else {
      assert argv == [argv[0]] + argv[1..];
      k := CountedOnce(argv[1..], arg);
      k := k + 1;
      forall j | 0 < j < |argv| && j != k
        ensures argv[j] != arg
      {
        assert argv[1..][j - 1] != arg;
      }
    }
  }

  lemma FillsOnePlace(argv: seq<string>, place: nat, id: string)
    requires 0 < place < |argv|
    requires forall j :: 0 <= j < |argv| ==> (argv[j] == SESSION_ID_PLACEHOLDER <==> j == place)
    ensures [argv[0]] + FillAll(argv[1..], id) == argv[place := id]
  {
    var filled := FillAll(argv[1..], id);
    forall k | 0 <= k < |filled|
      ensures filled[k] == argv[place := id][k + 1]
    {
      assert argv[1..][k] == argv[k + 1];
    }
  }

  /** A non-empty id stands in the one place the template keeps for it, every other argument is the template's own,
      and the launch flags come last. */
  lemma IdTakesItsPlace(d: Descriptor, template: Template, id: string, matches: (string, string) -> bool,
                        bypassPermissions: bool, compiles: string -> bool) returns (argv: seq<string>, place: nat)
    requires IsSoundAlone(d, compiles) && id != "" && Tokens(d, template, id, matches, bypassPermissions).Some?
    ensures Some(argv) == if template.Fork? then d.resume.value.forkArgv else Some(d.resume.value.sessionArgv)
    ensures 0 < place < |argv| && argv[place] == SESSION_ID_PLACEHOLDER
    ensures Tokens(d, template, id, matches, bypassPermissions).value
         == argv[place := id] + if d.id == "com.anthropic.claude-code" && bypassPermissions
                                then ["--permission-mode", "bypassPermissions"] else []
  {
    argv := ChosenArgv(d, template, id).value;
    ChosenIsSound(d, template, id, compiles);
    place := CountedOnce(argv, SESSION_ID_PLACEHOLDER);
    FillsOnePlace(argv, place, id);
  }

  /** Splitting the rendered command on whitespace gives back program, filled arguments and flags, except when a
      session without an id is forked. */
  lemma RenderedReadsBack(d: Descriptor, template: Template, id: string, matches: (string, string) -> bool,
                          bypassPermissions: bool, compiles: string -> bool)
    requires IsSoundAlone(d, compiles) && Tokens(d, template, id, matches, bypassPermissions).Some?
    ensures var tokens := Tokens(d, template, id, matches, bypassPermissions).value;
            Words(Rendered(tokens)) == tokens <==> !(template.Fork? && id == "")
  {
    var tokens := Tokens(d, template, id, matches, bypassPermissions).value;
    TokensArePlain(d, template, id, matches, bypassPermissions, compiles);
    PlainTokensAreSolid(tokens);
    WordsOfRendered(tokens);
    NothingIsLost(tokens);
  }

  // ----- launch detection -----

  predicate IsSeparator(c: char) {
    c == '&' || c == '|' || c == ';' || c == '\n'
  }

  function SegmentLength(s: string): (k: nat)
    ensures k <= |s|
  {
    if s == [] || IsSeparator(s[0]) then 0 else 1 + SegmentLength(s[1..])
  }

  function Segments(s: string): (parts: seq<string>)
    ensures parts != []
    decreases |s|
  {
    var k := SegmentLength(s);
    if k == |s| then [s] else [s[..k]] + Segments(s[k + 1..])
  }

  /** Text before the first `=` that could name a variable. */
  predicate IsEnvAssignment(token: string) {
    var k := IndexOf(token, '=');
    && k < |token|
    && k > 0
    && (forall i :: 0 <= i < k ==> IsAlphanumeric(token[i]) || token[i] == '_')
    && !IsDigit(token[0])
  }

  function AfterLastSlash(s: string): (r: string) {
    if s == [] then s
    else
      var n := |s| - 1;
      if s[n] == '/' || s[n] == '\\' then [] else AfterLastSlash(s[..n]) + [s[n]]
  }

  predicate HasSuffix(base: string, suffix: string) {
    |suffix| <= |base| && Lowercase(base[|base| - |suffix|..]) == suffix
  }

  predicate IsWindowsName(base: string) {
    HasSuffix(base, ".exe") || HasSuffix(base, ".cmd") || HasSuffix(base, ".bat") || HasSuffix(base, ".ps1")
  }

  function ExecutableStem(token: string): (r: string) {
    var base := AfterLastSlash(token);
    if IsWindowsName(base) then base[..|base| - 4] else base
  }

  function FirstCommand(words: seq<string>): (r: Option<string>) {
    if words == [] then None
    else if IsEnvAssignment(words[0]) then FirstCommand(words[1..])
    else Some(words[0])
  }

  function RuntimeOfSegment(ds: seq<Descriptor>, segment: string): (r: Option<Descriptor>) {
    var token :- FirstCommand(Words(segment));
    RuntimeByCommandAlias(ds, ExecutableStem(token))
  }

  function FirstRuntime(ds: seq<Descriptor>, segments: seq<string>): (r: Option<Descriptor>)
    decreases |segments|
  {
    if segments == [] then None
    else
      var found := RuntimeOfSegment(ds, segments[0]);
      if found.Some? then found else FirstRuntime(ds, segments[1..])
  }

  /** The runtime a command line launches: the first segment whose program is a runtime's. */
  function FromLaunchCommand(ds: seq<Descriptor>, command: string): (r: Option<Descriptor>) {
    FirstRuntime(ds, Segments(command))
  }

  predicate HasNoSeparator(s: string) {
    forall i :: 0 <= i < |s| ==> !IsSeparator(s[i])
  }

  lemma {:induction false} OneSegment(s: string)
    requires HasNoSeparator(s)
    ensures SegmentLength(s) == |s|
    ensures Segments(s) == [s]
  {
    if s != [] {
      OneSegment(s[1..]);
    }
  }

  lemma {:induction false} RenderedHasNoSeparator(tokens: seq<string>)
    requires tokens != [] && forall t :: t in tokens ==> HasNoSeparator(t)
    ensures HasNoSeparator(Rendered(tokens))
    decreases |tokens|
  {
    var n := |tokens| - 1;
    if n > 0 {
      RenderedHasNoSeparator(tokens[..n]);
      assert HasNoSeparator(tokens[n]);
    }
  }

  lemma {:induction false} FirstStays(tokens: seq<string>)
    requires tokens != [] && tokens[0] != ""
    ensures NonEmpty(tokens) != [] && NonEmpty(tokens)[0] == tokens[0]
    decreases |tokens|
  {
    var n := |tokens| - 1;
    if n > 0 {
      FirstStays(tokens[..n]);
    } else {
      assert NonEmpty(tokens[..0]) == [];
    }
  }

  lemma {:induction false} AliasHasNoSlash(alias: string)
    requires forall i :: 0 <= i < |alias| ==> IsAliasChar(alias[i])
    ensures AfterLastSlash(alias) == alias
  {
    if alias != [] {
      AliasHasNoSlash(alias[..|alias| - 1]);
    }
  }

  lemma AliasIsNoAssignment(alias: string)
    requires IsAlias(alias)
    ensures !IsEnvAssignment(alias)
  {
    IndexOfNone(alias, '=');
  }

  /** Detection reads the program of a rendered command, whatever follows it. */
  lemma DetectionReadsTheProgram(ds: seq<Descriptor>, tokens: seq<string>)
    requires tokens != [] && IsAlias(tokens[0]) && forall t :: t in tokens ==> t == "" || IsPlain(t)
    ensures FromLaunchCommand(ds, Rendered(tokens)) == RuntimeByCommandAlias(ds, ExecutableStem(tokens[0]))
  {
    var command := Rendered(tokens);
    RenderedHasNoSeparator(tokens);
    OneSegment(command);
    PlainTokensAreSolid(tokens);
    WordsOfRendered(tokens);
    FirstStays(tokens);
    AliasIsNoAssignment(tokens[0]);
    assert FirstCommand(NonEmpty(tokens)) == Some(tokens[0]);
    assert FirstRuntime(ds, Segments(command)[1..]) == None;
  }

  /** Detection finds the runtime a command was built for exactly when the program without a Windows suffix is still
      one of its commands. */
  lemma DetectionFindsTheRuntime(ds: seq<Descriptor>, d: Descriptor, template: Template, id: string,
                                 matches: (string, string) -> bool, bypassPermissions: bool, compiles: string -> bool)
    requires IsSound(ds, compiles) && OwnDirectories(ds) && d in ds
    requires Tokens(d, template, id, matches, bypassPermissions).Some?
    ensures var tokens := Tokens(d, template, id, matches, bypassPermissions).value;
            && (FromLaunchCommand(ds, Rendered(tokens)) == Some(d) <==> ExecutableStem(tokens[0]) in d.commandAliases)
            && (!IsWindowsName(tokens[0]) ==> FromLaunchCommand(ds, Rendered(tokens)) == Some(d))
  {
    var tokens := Tokens(d, template, id, matches, bypassPermissions).value;
    TokensArePlain(d, template, id, matches, bypassPermissions, compiles);
    DetectionReadsTheProgram(ds, tokens);
    AliasHasNoSlash(tokens[0]);
    var stem := ExecutableStem(tokens[0]);
    FirstMatchIsFound(ds, stem);
    if stem in d.commandAliases {
      LookupsFindTheOwner(ds, compiles, stem);
    }
  }

  lemma {:induction false} SegmentGrows(a: string, s: string)
    requires HasNoSeparator(a)
    ensures SegmentLength(a + s) == |a| + SegmentLength(s)
  {
    if a == [] {
      assert a + s == s;
    } else {
      assert (a + s)[1..] == a[1..] + s;
      SegmentGrows(a[1..], s);
    }
  }

  lemma FirstSegmentGrows(a: string, s: string)
    requires HasNoSeparator(a)
    ensures Segments(a + s) == [a + Segments(s)[0]] + Segments(s)[1..]
  {
    SegmentGrows(a, s);
    var k := SegmentLength(s);
    assert (a + s)[..|a| + k] == a + s[..k];
    if k < |s| {
      assert (a + s)[|a| + k + 1..] == s[k + 1..];
    }
  }

  /** An environment assignment before any command line changes nothing detection sees. */
  lemma AssignmentsAreIgnored(ds: seq<Descriptor>, assignment: string, command: string)
    requires IsEnvAssignment(assignment) && IsSolid(assignment) && HasNoSeparator(assignment)
    ensures FromLaunchCommand(ds, assignment + " " + command) == FromLaunchCommand(ds, command)
  {
    var head := Segments(command)[0];
    FirstSegmentGrows(assignment + " ", command);
    WordsOfParts(assignment, ' ', head);
    SolidWord(assignment);
    assert Words(assignment + " " + head) == [assignment] + Words(head);
    assert FirstCommand([assignment] + Words(head)) == FirstCommand(Words(head));
    assert RuntimeOfSegment(ds, assignment + " " + head) == RuntimeOfSegment(ds, head);
    assert Segments(assignment + " " + command)[1..] == Segments(command)[1..];
  }

  // ----- detection, said of the text -----

  lemma {:induction false} SegmentEndsAt(a: string, sep: char, b: string)
    requires sep == '&' || sep == '|' || sep == ';' || sep == '\n'
    ensures SegmentLength(a + [sep] + b) == SegmentLength(a)
  {
    var s := a + [sep] + b;
    if a != "" && !IsSeparator(a[0]) {
      assert s[1..] == a[1..] + [sep] + b;
      SegmentEndsAt(a[1..], sep, b);
    }
  }

  lemma {:induction false} SegmentsOfParts(a: string, sep: char, b: string)
    requires sep == '&' || sep == '|' || sep == ';' || sep == '\n'
    ensures Segments(a + [sep] + b) == Segments(a) + Segments(b)
    decreases |a|
  {
    var s, k := a + [sep] + b, SegmentLength(a);
    SegmentEndsAt(a, sep, b);
    if k == |a| {
      assert s[..k] == a && s[k + 1..] == b;
      assert Segments(a) == [a] && Segments(s) == [a] + Segments(b);
    } else {
      var rest := a[k + 1..];
      assert s[..k] == a[..k] && s[k + 1..] == rest + [sep] + b;
      SegmentsOfParts(rest, sep, b);
      assert Segments(a) == [a[..k]] + Segments(rest);
    }
  }

  lemma {:induction false} FirstOfBoth(ds: seq<Descriptor>, xs: seq<string>, ys: seq<string>)
    ensures FirstRuntime(ds, xs + ys)
         == if FirstRuntime(ds, xs).Some? then FirstRuntime(ds, xs) else FirstRuntime(ds, ys)
    decreases |xs|
  {
    if xs == [] {
      assert xs + ys == ys;
    } else {
      assert (xs + ys)[1..] == xs[1..] + ys;
      FirstOfBoth(ds, xs[1..], ys);
    }
  }

  /** Of two commands in one line, the first that launches a runtime is detected. */
  lemma DetectionTakesTheFirst(ds: seq<Descriptor>, a: string, sep: char, b: string)
    requires sep == '&' || sep == '|' || sep == ';' || sep == '\n'
    ensures FromLaunchCommand(ds, a + [sep] + b)
         == if FromLaunchCommand(ds, a).Some? then FromLaunchCommand(ds, a) else FromLaunchCommand(ds, b)
  {
    SegmentsOfParts(a, sep, b);
    FirstOfBoth(ds, Segments(a), Segments(b));
  }

  lemma BlankIsIgnored(ds: seq<Descriptor>, command: string)
    ensures FromLaunchCommand(ds, " " + command) == FromLaunchCommand(ds, command)
    ensures FromLaunchCommand(ds, "") == None
  {
    var head := Segments(command)[0];
    FirstSegmentGrows(" ", command);
    assert (" " + head)[1..] == head;
    assert RuntimeOfSegment(ds, " " + head) == RuntimeOfSegment(ds, head);
    assert Segments(" " + command)[1..] == Segments(command)[1..];
    OneSegment("");
    assert FirstRuntime(ds, [""][1..]) == None;
  }

  /** Behind `clear && `, a command is still detected. */
  lemma ClearedCommandIsDetected(ds: seq<Descriptor>, command: string)
    requires forall d :: d in ds ==> "clear" !in d.commandAliases
    ensures FromLaunchCommand(ds, "clear && " + command) == FromLaunchCommand(ds, command)
  {
    var rest := "& " + command;
    assert "clear && " + command == "clear " + ['&'] + rest && rest == "" + ['&'] + (" " + command);
    ClearIsNoRuntime(ds);
    DetectionTakesTheFirst(ds, "clear ", '&', rest);
    DetectionTakesTheFirst(ds, "", '&', " " + command);
    BlankIsIgnored(ds, command);
  }

  lemma ClearIsNoRuntime(ds: seq<Descriptor>)
    requires forall d :: d in ds ==> "clear" !in d.commandAliases
    ensures FromLaunchCommand(ds, "clear ") == None
  {
    assert Rendered(["clear", ""]) == "clear " by {
      assert ["clear", ""][..1] == ["clear"];
    }
    DetectionReadsTheProgram(ds, ["clear", ""]);
    ClearIsItsStem();
    RuntimeIsListed(ds, "clear");
  }

  lemma ClearIsItsStem()
    ensures ExecutableStem("clear") == "clear"
  {
    assert "clear"[1..] == "lear" && Lowercase("lear")[0] == 'l';
    OtherNamesAreKept("", "clear");
    assert "" + "clear" == "clear";
  }

  lemma {:induction false} RuntimeIsListed(ds: seq<Descriptor>, alias: string)
    requires forall d :: d in ds ==> alias !in d.commandAliases
    ensures RuntimeByCommandAlias(ds, alias) == None
  {
    if ds != [] {
      RuntimeIsListed(ds[1..], alias);
    }
  }

  /** So a rendered command of a runtime is detected as its own behind `clear && ` when it is without. */
  lemma ClearedRuntimeIsDetected(ds: seq<Descriptor>, d: Descriptor, template: Template, id: string,
                                 matches: (string, string) -> bool, bypassPermissions: bool, compiles: string -> bool)
    requires IsSound(ds, compiles) && OwnDirectories(ds) && d in ds
    requires forall e :: e in ds ==> "clear" !in e.commandAliases
    requires Tokens(d, template, id, matches, bypassPermissions).Some?
    ensures var tokens := Tokens(d, template, id, matches, bypassPermissions).value;
            FromLaunchCommand(ds, "clear && " + Rendered(tokens)) == Some(d) <==>
              ExecutableStem(tokens[0]) in d.commandAliases
  {
    var tokens := Tokens(d, template, id, matches, bypassPermissions).value;
    ClearedCommandIsDetected(ds, Rendered(tokens));
    DetectionFindsTheRuntime(ds, d, template, id, matches, bypassPermissions, compiles);
  }

  // ----- the stem of an executable -----

  predicate HasNoSlash(s: string) {
    forall i :: 0 <= i < |s| ==> s[i] != '/' && s[i] != '\\'
  }

  lemma {:induction false} LastPart(dir: string, base: string)
    requires HasNoSlash(base) && (dir == "" || dir[|dir| - 1] == '/' || dir[|dir| - 1] == '\\')
    ensures AfterLastSlash(dir + base) == base
  {
    var s := dir + base;
    if base == "" {
      assert s == dir;
    } else {
      var n := |base| - 1;
      assert s[..|s| - 1] == dir + base[..n] && s[|s| - 1] == base[n];
      LastPart(dir, base[..n]);
      assert base == base[..n] + [base[n]];
    }
  }

  /** In any directory, an executable's stem is its name less one of the four suffixes, in any case. */
  lemma StemIsTheName(dir: string, name: string, suffix: string)
    requires HasNoSlash(name + suffix) && (dir == "" || dir[|dir| - 1] == '/' || dir[|dir| - 1] == '\\')
    requires Lowercase(suffix) == ".exe" || Lowercase(suffix) == ".cmd" || Lowercase(suffix) == ".bat"
             || Lowercase(suffix) == ".ps1"
    ensures ExecutableStem(dir + (name + suffix)) == name
  {
    var base := name + suffix;
    LastPart(dir, base);
    assert |suffix| == 4 && base[|base| - 4..] == suffix;
  }

  lemma OtherNamesAreKept(dir: string, base: string)
    requires HasNoSlash(base) && (dir == "" || dir[|dir| - 1] == '/' || dir[|dir| - 1] == '\\')
    requires |base| >= 4 ==> Lowercase(base[|base| - 4..]) !in {".exe", ".cmd", ".bat", ".ps1"}
    ensures ExecutableStem(dir + base) == base
  {
    LastPart(dir, base);
  }

  // ----- assignments -----

  /** A letter or an underscore, and then letters, digits and underscores. */
  predicate IsVariable(name: string) {
    && name != "" && !('0' <= name[0] <= '9')
    && forall i :: 0 <= i < |name| ==>
         'a' <= name[i] <= 'z' || 'A' <= name[i] <= 'Z' || '0' <= name[i] <= '9' || name[i] == '_'
  }

  lemma AssignmentsAreVariables(token: string)
    ensures IsEnvAssignment(token) <==> exists name, value :: token == name + "=" + value && IsVariable(name)
  {
    if IsEnvAssignment(token) {
      var k := IndexOf(token, '=');
      assert token == token[..k] + "=" + token[k + 1..];
      assert IsVariable(token[..k]);
    }
    if name, value :| token == name + "=" + value && IsVariable(name) {
      IndexOfFirst(name, value, '=');
      assert token[..|name|] == name;
    }
  }

  // ----- what is accepted -----

  /** An id of at most 128 letters, digits, hyphens and underscores that does not start with a hyphen. */
  lemma ValidIdsAre(id: string)
    ensures IsValidSessionId(id) <==>
              && 1 <= |id| <= 128 && id[0] != '-'
              && forall i :: 0 <= i < |id| ==>
                   'a' <= id[i] <= 'z' || 'A' <= id[i] <= 'Z' || '0' <= id[i] <= '9' || id[i] == '-' || id[i] == '_'
  {
  }

  /** A session without an id is resumed exactly by a runtime without a hook adapter that can continue, and with its
      own continue template. */
  lemma SessionWithoutId(d: Descriptor, matches: (string, string) -> bool, bypassPermissions: bool,
                         compiles: string -> bool)
    requires IsSoundAlone(d, compiles)
    ensures Tokens(d, Resumption, "", matches, bypassPermissions)
         == if d.hasHookAdapter || d.resume.None? || d.resume.value.continueArgv.None? then None
            else Some(d.resume.value.continueArgv.value
                      + if d.id == "com.anthropic.claude-code" && bypassPermissions
                        then ["--permission-mode", "bypassPermissions"] else [])
  {
    if !d.hasHookAdapter && d.resume.Some? && d.resume.value.continueArgv.Some? {
      var argv := d.resume.value.continueArgv.value;
      CountsPresence(argv, SESSION_ID_PLACEHOLDER);
      forall k | 1 <= k < |argv|
        ensures FillAll(argv[1..], "")[k - 1] == argv[k]
      {
        assert argv[1..][k - 1] == argv[k];
      }
      assert [argv[0]] + FillAll(argv[1..], "") == argv;
    }
  }

  /** A session with an id is accepted exactly if the id is valid and the runtime's pattern matches it. */
  lemma SessionWithId(d: Descriptor, template: Template, id: string, matches: (string, string) -> bool,
                      bypassPermissions: bool, compiles: string -> bool)
    requires IsSoundAlone(d, compiles) && id != ""
    ensures Tokens(d, template, id, matches, bypassPermissions).Some? <==>
              && d.resume.Some? && (template.Fork? ==> d.resume.value.forkArgv.Some?)
              && IsValidSessionId(id) && matches(d.resume.value.sessionIdPattern, id)
  {
    CommandsAreBuilt(d, template, id, matches, bypassPermissions, compiles);
  }

  // ----- two commands that do not come back -----

  function IdTemplate(name: string): (r: seq<string>) {
    [name, SESSION_ID_PLACEHOLDER]
  }

  function Sample(name: string, continueArgv: Option<seq<string>>, forkArgv: Option<seq<string>>): (r: Descriptor) {
    Descriptor("runtimes/sample/runtime.toml", "org.example.sample", 0, "sample_visible", [name], [], None,
               Some(Catalog.Resume(IdTemplate(name), continueArgv, forkArgv, "", [])), false, true)
  }

  lemma IdTemplateIsSound(name: string)
    requires name != SESSION_ID_PLACEHOLDER
    ensures TemplateIsSound([name], IdTemplate(name), true)
    ensures TemplateIsSound([name], [name], false)
  {
    assert multiset(IdTemplate(name))[SESSION_ID_PLACEHOLDER] == 1;
  }

  lemma SampleIsSound(name: string, continueArgv: Option<seq<string>>, forkArgv: Option<seq<string>>)
    requires IsAlias(name) && name !in CONTESTED_ALIASES
    requires continueArgv.Some? ==> continueArgv.value == [name]
    requires forkArgv.Some? ==> forkArgv.value == IdTemplate(name)
    ensures IsSound([Sample(name, continueArgv, forkArgv)], _ => true)
  {
    assert SESSION_ID_PLACEHOLDER[0] == '{';
    IdTemplateIsSound(name);
    var d := Sample(name, continueArgv, forkArgv);
    assert ResumeIsSound([name], d.resume.value, _ => true);
    assert AliasesAreSound([name], None) && AliasesAreSound([], None);
    assert IsSoundAlone(d, _ => true);
  }

  lemma SampleTokens(name: string, continueArgv: Option<seq<string>>, forkArgv: Option<seq<string>>, template: Template,
                     id: string, matches: (string, string) -> bool)
    requires var d := Sample(name, continueArgv, forkArgv);
             ChosenArgv(d, template, id) == Some(IdTemplate(name)) && AcceptsRecordedSession(d, id, matches)
    ensures Tokens(Sample(name, continueArgv, forkArgv), template, id, matches, false) == Some([name, id])
  {
    assert FillAll(IdTemplate(name)[1..], id) == [id];
    assert [name] + [id] + [] == [name, id];
  }

  /** A runtime with a continue template, forked without an id: the command has a word less than it has tokens. */
  lemma ForkWithoutIdLosesAWord(matches: (string, string) -> bool)
    ensures var d := Sample("ax", Some(["ax"]), Some(IdTemplate("ax")));
            && IsSound([d], _ => true)
            && Tokens(d, Fork, "", matches, false) == Some(["ax", ""])
            && Words(Rendered(["ax", ""])) == ["ax"]
  {
    SampleIsSound("ax", Some(["ax"]), Some(IdTemplate("ax")));
    SampleTokens("ax", Some(["ax"]), Some(IdTemplate("ax")), Fork, "", matches);
    WordsOfParts("ax", ' ', "");
    SolidWord("ax");
    assert ["ax", ""][..1] == ["ax"];
    assert Rendered(["ax", ""]) == "ax" + [' '] + "";
  }

  lemma SuffixIsStripped()
    ensures ExecutableStem("a.exe") == "a"
  {
    AliasHasNoSlash("a.exe");
    assert "a.exe"[1..] == ".exe" && "a.exe"[..1] == "a";
    AliasesAreLowercase(".exe");
  }

  /** A command alias with a Windows suffix passes validation, and detection does not know it. */
  lemma WindowsNameEscapesDetection(matches: (string, string) -> bool, id: string)
    requires IsValidSessionId(id) && matches("", id)
    ensures var d := Sample("a.exe", None, None);
            && IsSound([d], _ => true)
            && Tokens(d, Resumption, id, matches, false) == Some(["a.exe", id])
            && FromLaunchCommand([d], Rendered(["a.exe", id])) == None
  {
    var d := Sample("a.exe", None, None);
    SampleIsSound("a.exe", None, None);
    SampleTokens("a.exe", None, None, Resumption, id, matches);
    ValidIdIsPlain(id);
    DetectionReadsTheProgram([d], ["a.exe", id]);
    SuffixIsStripped();
    FirstMatchIsFound([d], "a");
  }
}
