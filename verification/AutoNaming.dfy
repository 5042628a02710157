/** When a session is worth naming again (`auto_naming.rs`): a bounded tail of messages and two counters. */
module AutoNaming {
  import opened Basics
  import opened Text

  /** Nanoseconds. */
  type Instant = int

  const MIN_INTERVAL: Instant := 180_000_000_000
  const KEPT_MESSAGES: nat := 12
  const MESSAGE_MAX_CHARS: nat := 600
  const CONTEXT_TAIL_MESSAGES: nat := 4

  datatype Role = User | Assistant
  datatype Message = Message(role: Role, text: string)

  datatype Decision = Run | SkipInFlight | SkipInterval | SkipNoGrowth | SkipEmpty

  datatype Naming = Naming(messages: seq<Message>, named: nat, lastAttempt: Option<Instant>, inFlight: bool)

  const FRESH := Naming([], 0, None, false)

  function Cleaned(text: string): (r: string) {
    var t := Trim(text);
    t[..Min(MESSAGE_MAX_CHARS, |t|)]
  }

  /** The message a record adds, if it has something to say and does not repeat the last one. */
  function Addition(n: Naming, role: Role, text: string): (r: Option<Message>) {
    var message := Message(role, Cleaned(text));
    if message.text == "" || (n.messages != [] && n.messages[|n.messages| - 1] == message) then None else Some(message)
  }

  /** One more message; beyond twelve the oldest is dropped, and the count follows it down. */
  function Push(n: Naming, message: Message): (r: Naming) {
    var messages := n.messages + [message];
    if |messages| <= KEPT_MESSAGES then n.(messages := messages)
    else
      var overflow := |messages| - KEPT_MESSAGES;
      n.(messages := messages[overflow..], named := if n.named >= overflow then n.named - overflow else 0)
  }

  function Recorded(n: Naming, role: Role, text: string): (r: Naming) {
    match Addition(n, role, text)
    case None => n
    case Some(message) => Push(n, message)
  }

  function Begun(n: Naming, now: Instant): (r: Naming) {
    n.(inFlight := true, lastAttempt := Some(now), named := |n.messages|)
  }

  function Finished(n: Naming): (r: Naming) {
    n.(inFlight := false)
  }

  /** `Instant::duration_since` is zero for an earlier instant. */
  function Since(now: Instant, at: Instant): (r: Instant) {
    if now >= at then now - at else 0
  }

  function Decide(n: Naming, now: Instant): (r: Decision) {
    if n.inFlight then SkipInFlight
    else if n.messages == [] then SkipEmpty
    else if n.lastAttempt.Some? && Since(now, n.lastAttempt.value) < MIN_INTERVAL then SkipInterval
    else if |n.messages| <= n.named then SkipNoGrowth
    else Run
  }

  /** A text is added trimmed and cut to 600 characters, unless nothing is left of it or it repeats the last message. */
  lemma AdditionIs(n: Naming, role: Role, text: string) returns (before: string, core: string, after: string)
    ensures text == before + core + after
    ensures forall i :: 0 <= i < |before| ==> IsWhitespace(before[i])
    ensures forall i :: 0 <= i < |after| ==> IsWhitespace(after[i])
    ensures core != "" ==> !IsWhitespace(core[0]) && !IsWhitespace(core[|core| - 1])
    ensures var message := Message(role, if |core| <= 600 then core else core[..600]);
            var repeats := n.messages != [] && n.messages[|n.messages| - 1] == message;
            Addition(n, role, text) == if core == "" || repeats then None else Some(message)
  {
    before, after := TrimIs(text);
    core := Trim(text);
    assert core[..|core|] == core;
    assert Cleaned(text) == if |core| <= 600 then core else core[..600];
  }

  // ----- the context a naming is given -----

  function Line(m: Message): (line: string) {
    (match m.role case User => "user" case Assistant => "assistant") + ": " + m.text
  }

  function FirstByUser(messages: seq<Message>): (r: seq<Message>)
    ensures |r| <= 1
    ensures r == [] ==> forall m :: m in messages ==> m.role != User
    ensures r != [] ==> exists i :: 0 <= i < |messages| && messages[i] == r[0] && r[0].role == User
                                    && forall j :: 0 <= j < i ==> messages[j].role != User
  {
    if messages == [] then []
    else if messages[0].role == User then [messages[0]]
    else
      var r := FirstByUser(messages[1..]);
      assert forall i :: 0 <= i < |messages| - 1 ==> messages[1..][i] == messages[i + 1];
      r
  }

  /** The first message of the user, and the last four messages. */
  function Chosen(messages: seq<Message>): (r: seq<Message>) {
    FirstByUser(messages) + messages[|messages| - Min(CONTEXT_TAIL_MESSAGES, |messages|)..]
  }

  function Lines(messages: seq<Message>): (r: seq<string>)
    ensures |r| == |messages| && forall i :: 0 <= i < |messages| ==> r[i] == Line(messages[i])
  {
    seq(|messages|, i requires 0 <= i < |messages| => Line(messages[i]))
  }

  /** The first `i` lines, each kept unless it is there already. */
  function FirstLines(lines: seq<string>, i: nat): (parts: seq<string>)
    requires i <= |lines|
  {
    if i == 0 then []
    else
      var parts := FirstLines(lines, i - 1);
      if lines[i - 1] in parts then parts else parts + [lines[i - 1]]
  }

  lemma {:induction false} KeepsEachOnce(lines: seq<string>, i: nat)
    requires i <= |lines|
    ensures forall j, k :: 0 <= j < k < |FirstLines(lines, i)| ==> FirstLines(lines, i)[j] != FirstLines(lines, i)[k]
  {
    if i > 0 {
      KeepsEachOnce(lines, i - 1);
    }
  }

  lemma {:induction false} KeepsAll(lines: seq<string>, i: nat, line: string)
    requires i <= |lines|
    ensures line in FirstLines(lines, i) <==> line in lines[..i]
  {
    if i > 0 {
      KeepsAll(lines, i - 1, line);
      KeepsAll(lines, i - 1, lines[i - 1]);
      assert lines[..i] == lines[..i - 1] + [lines[i - 1]];
    }
  }

  lemma {:induction false} KeepsOrder(lines: seq<string>, i: nat, n: nat)
    requires i <= n <= |lines|
    ensures FirstLines(lines, i) <= FirstLines(lines, n)
  {
    if i < n {
      KeepsOrder(lines, i, n - 1);
    }
  }

  function JoinedLines(parts: seq<string>): (r: string)
    decreases |parts|
  {
    if parts == [] then ""
    else if |parts| == 1 then parts[0]
    else JoinedLines(parts[..|parts| - 1]) + "\n" + parts[|parts| - 1]
  }

  lemma {:induction false} JoinedFromFront(parts: seq<string>)
    requires |parts| > 1
    ensures JoinedLines(parts) == parts[0] + "\n" + JoinedLines(parts[1..])
    decreases |parts|
  {
    var n := |parts| - 1;
    if n > 1 {
      JoinedFromFront(parts[..n]);
      assert parts[..n][1..] == parts[1..][..n - 1];
    } else {
      assert parts[..1] == [parts[0]] && parts[1..] == [parts[1]];
    }
  }

  /** Lines without newlines of their own are told apart again. */
  lemma {:induction false} JoinedLinesSplit(parts: seq<string>)
    requires parts != [] && forall part :: part in parts ==> '\n' !in part
    ensures SplitOn(JoinedLines(parts), '\n') == parts
    decreases |parts|
  {
    if |parts| == 1 {
      IndexOfNone(parts[0], '\n');
    } else {
      JoinedFromFront(parts);
      JoinedLinesSplit(parts[1..]);
      SplitHead(parts[0], JoinedLines(parts[1..]), '\n');
    }
  }

  /** The chosen messages are the user's first, if there is one, and the last four; a line shows who speaks. */
  lemma ChosenAre(messages: seq<Message>) returns (head: seq<Message>)
    ensures Chosen(messages) == head + messages[if |messages| <= 4 then 0 else |messages| - 4..]
    ensures head == [] ==> forall m :: m in messages ==> m.role == Assistant
    ensures head != [] ==>
              && |head| == 1 && head[0].role == User
              && exists i :: 0 <= i < |messages| && messages[i] == head[0]
                             && forall j :: 0 <= j < i ==> messages[j].role == Assistant
    ensures forall i :: 0 <= i < |Chosen(messages)| ==>
              Lines(Chosen(messages))[i] == if Chosen(messages)[i].role == User then "user: " + Chosen(messages)[i].text
                                            else "assistant: " + Chosen(messages)[i].text
  {
    head := FirstByUser(messages);
    forall m
      ensures Line(m) == if m.role == User then "user: " + m.text else "assistant: " + m.text
    {
      assert "user" + ": " == "user: " && "assistant" + ": " == "assistant: ";
    }
  }

  function Context(messages: seq<Message>): (context: string) {
    var lines := Lines(Chosen(messages));
    JoinedLines(FirstLines(lines, |lines|))
  }

  /** The context is made of the lines of the chosen messages, every line once and in the order they first come: the
      lines of the first `i` messages, whatever `i`, are how it starts. */
  lemma ContextListsChosen(messages: seq<Message>, i: nat, line: string)
    requires i <= |Chosen(messages)|
    ensures var lines := Lines(Chosen(messages));
            var parts := FirstLines(lines, |lines|);
            && Context(messages) == JoinedLines(parts)
            && (forall j, k :: 0 <= j < k < |parts| ==> parts[j] != parts[k])
            && FirstLines(lines, i) <= parts
            && (line in FirstLines(lines, i) <==> line in lines[..i])
  {
    var lines := Lines(Chosen(messages));
    KeepsEachOnce(lines, |lines|);
    KeepsAll(lines, i, line);
    KeepsOrder(lines, i, |lines|);
  }

  /** `build_context`. */
  method BuildContext(messages: seq<Message>) returns (context: string)
    ensures context == Context(messages)
  {
    var chosen := Chosen(messages);
    ghost var lines := Lines(chosen);
    var parts: seq<string> := [];
    for i := 0 to |chosen|
      invariant parts == FirstLines(lines, i)
    {
      var line := Line(chosen[i]);
      if line !in parts {
        parts := parts + [line];
      }
    }
    context := JoinedLines(parts);
  }

  class SessionNaming {
    var messages: seq<Message>
    var named: nat
    var lastAttempt: Option<Instant>
    var inFlight: bool

    ghost function State(): (r: Naming)
      reads this
    {
      Naming(messages, named, lastAttempt, inFlight)
    }

    constructor ()
      ensures State() == FRESH
    {
      messages, named, lastAttempt, inFlight := [], 0, None, false;
    }

    method Record(role: Role, text: string)
      modifies this
      ensures State() == Recorded(old(State()), role, text)
    {
      var cleaned := Cleaned(text);
      if cleaned == "" {
        return;
      }
      var message := Message(role, cleaned);
      if messages != [] && messages[|messages| - 1] == message {
        return;
      }
      messages := messages + [message];
      if |messages| > KEPT_MESSAGES {
        var overflow := |messages| - KEPT_MESSAGES;
        messages := messages[overflow..];
        named := if named >= overflow then named - overflow else 0;
      }
    }

    method DecideNow(now: Instant) returns (decision: Decision)
      ensures decision == Decide(State(), now)
    {
      if inFlight {
        return SkipInFlight;
      }
      if messages == [] {
        return SkipEmpty;
      }
      if lastAttempt.Some? && Since(now, lastAttempt.value) < MIN_INTERVAL {
        return SkipInterval;
      }
      return if |messages| <= named then SkipNoGrowth else Run;
    }

    method Begin(now: Instant) returns (context: string)
      modifies this
      ensures State() == Begun(old(State()), now)
      ensures messages == old(messages) && context == Context(messages)
    {
      inFlight := true;
      lastAttempt := Some(now);
      named := |messages|;
      context := BuildContext(messages);
    }

    method Finish()
      modifies this
      ensures State() == Finished(old(State()))
    {
      inFlight := false;
    }
  }

  // ----- runs -----

  datatype Event = Records(role: Role, text: string) | Begins(now: Instant) | Finishes

  function Next(n: Naming, e: Event): (r: Naming) {
    match e
    case Records(role, text) => Recorded(n, role, text)
    case Begins(now) => Begun(n, now)
    case Finishes => Finished(n)
  }

  function After(events: seq<Event>): (r: Naming) {
    if events == [] then FRESH else Next(After(events[..|events| - 1]), events[|events| - 1])
  }

  /** The message the last event adds to the session, if any. */
  function Added(events: seq<Event>): (r: Option<Message>)
    requires events != []
  {
    match events[|events| - 1]
    case Records(role, text) => Addition(After(events[..|events| - 1]), role, text)
    case _ => None
  }

  /** Every message accepted so far. */
  function Accepted(events: seq<Event>): (r: seq<Message>) {
    if events == [] then []
    else
      Accepted(events[..|events| - 1])
      + (match Added(events) case Some(message) => [message] case None => [])
  }

  /** How many messages were accepted since naming last began. */
  function AcceptedSinceBegin(events: seq<Event>): (r: nat) {
    if events == [] || events[|events| - 1].Begins? then 0
    else AcceptedSinceBegin(events[..|events| - 1]) + if Added(events).Some? then 1 else 0
  }

  function Tail(messages: seq<Message>): (r: seq<Message>) {
    messages[|messages| - Min(KEPT_MESSAGES, |messages|)..]
  }

  lemma TailAppend(messages: seq<Message>, m: Message)
    ensures Tail(messages + [m])
         == if |Tail(messages)| < KEPT_MESSAGES then Tail(messages) + [m] else Tail(messages)[1..] + [m]
  {
  }

  /** `n` keeps the tail of `accepted`, and its count is short of its length by `since`, up to twelve. */
  ghost predicate Exact(n: Naming, accepted: seq<Message>, since: nat) {
    && n.messages == Tail(accepted)
    && n.named <= |n.messages|
    && |n.messages| - n.named == Min(since, KEPT_MESSAGES)
  }

  lemma PushIsExact(n: Naming, accepted: seq<Message>, since: nat, m: Message)
    requires Exact(n, accepted, since) && since <= |accepted|
    ensures Exact(Push(n, m), accepted + [m], since + 1)
  {
    TailAppend(accepted, m);
    if |n.messages| == KEPT_MESSAGES {
      assert (n.messages + [m])[1..] == n.messages[1..] + [m];
    }
  }

  lemma AcceptedStep(events: seq<Event>)
    requires events != []
    ensures Accepted(events) == if Added(events).Some? then Accepted(events[..|events| - 1]) + [Added(events).value]
                                else Accepted(events[..|events| - 1])
  {
  }

  /** In every run the kept messages are the last twelve accepted ones, and the growth since naming last began is
      counted exactly, up to twelve. */
  lemma {:induction false} GrowthIsExact(events: seq<Event>)
    ensures Exact(After(events), Accepted(events), AcceptedSinceBegin(events))
    ensures AcceptedSinceBegin(events) <= |Accepted(events)|
  {
    if events != [] {
      var init, e := events[..|events| - 1], events[|events| - 1];
      GrowthIsExact(init);
      AcceptedStep(events);
      if Added(events).Some? {
        PushIsExact(After(init), Accepted(init), AcceptedSinceBegin(init), Added(events).value);
      }
    }
  }

  /** Naming runs exactly when none is in flight, a message came since the last one began, and it is long enough ago. */
  lemma RunsWhenDue(events: seq<Event>, now: Instant)
    ensures var n := After(events);
            Decide(n, now) == Run <==>
              && !n.inFlight
              && AcceptedSinceBegin(events) > 0
              && (n.lastAttempt.Some? ==> now - n.lastAttempt.value >= MIN_INTERVAL)
  {
    GrowthIsExact(events);
  }

  /** Every other decision has its one reason, in this order: a naming in flight, no message ever accepted, too little
      time since the last began, no message since. */
  lemma SkipsAreExact(events: seq<Event>, now: Instant)
    ensures var n := After(events);
            var soon := n.lastAttempt.Some? && now - n.lastAttempt.value < 180_000_000_000;
            && (Decide(n, now) == SkipInFlight <==> n.inFlight)
            && (Decide(n, now) == SkipEmpty <==> !n.inFlight && Accepted(events) == [])
            && (Decide(n, now) == SkipInterval <==> !n.inFlight && Accepted(events) != [] && soon)
            && (Decide(n, now) == SkipNoGrowth <==>
                  !n.inFlight && Accepted(events) != [] && !soon && AcceptedSinceBegin(events) == 0)
  {
    GrowthIsExact(events);
  }

  /** The messages kept are the last twelve accepted. */
  lemma LastTwelveAreKept(events: seq<Event>)
    ensures var accepted := Accepted(events);
            After(events).messages == if |accepted| <= 12 then accepted else accepted[|accepted| - 12..]
  {
    GrowthIsExact(events);
  }

  /** Naming begins only on a decision to run. */
  ghost predicate Disciplined(events: seq<Event>) {
    forall k :: 0 <= k < |events| && events[k].Begins? ==> Decide(After(events[..k]), events[k].now) == Run
  }

  /** Event `k` adds a message. */
  ghost predicate AddsAt(events: seq<Event>, k: nat) {
    k < |events| && Added(events[..k + 1]).Some?
  }

  ghost predicate Quiet(events: seq<Event>, i: nat, j: nat)
    requires i < j <= |events|
  {
    forall k :: i < k < j ==> !events[k].Begins?
  }

  lemma {:induction false} SinceLastBegin(events: seq<Event>, i: nat, m: nat)
    requires i < m <= |events| && events[i].Begins? && Quiet(events, i, m)
    ensures After(events[..m]).lastAttempt == Some(events[i].now)
    ensures After(events[..m]).inFlight || exists k :: i < k < m && events[k].Finishes?
    ensures AcceptedSinceBegin(events[..m]) == 0 || exists k :: i < k < m && AddsAt(events, k)
  {
    var before, upTo := events[..m - 1], events[..m];
    assert upTo[..m - 1] == before && upTo[m - 1] == events[m - 1];
    if m > i + 1 {
      SinceLastBegin(events, i, m - 1);
      assert !events[m - 1].Begins?;
      if Added(upTo).Some? {
        assert AddsAt(events, m - 1);
      }
    }
  }

  /** So two namings in a row begin at least the interval apart, with an end and a new message in between. */
  lemma BeginsAreSpaced(events: seq<Event>, i: nat, j: nat)
    requires Disciplined(events)
    requires i < j < |events| && events[i].Begins? && events[j].Begins? && Quiet(events, i, j)
    ensures events[j].now - events[i].now >= 180_000_000_000
    ensures exists k :: i < k < j && events[k].Finishes?
    ensures exists k :: i < k < j && AddsAt(events, k)
    ensures |Accepted(events[..j])| > |Accepted(events[..i + 1])|
  {
    SinceLastBegin(events, i, j);
    RunsWhenDue(events[..j], events[j].now);
    GrowthSinceBegin(events, i, j);
  }

  lemma {:induction false} GrowthSinceBegin(events: seq<Event>, i: nat, m: nat)
    requires i < m <= |events| && events[i].Begins? && Quiet(events, i, m)
    ensures |Accepted(events[..m])| == |Accepted(events[..i + 1])| + AcceptedSinceBegin(events[..m])
  {
    if m > i + 1 {
      assert events[..m][..m - 1] == events[..m - 1];
      GrowthSinceBegin(events, i, m - 1);
    }
  }
}
