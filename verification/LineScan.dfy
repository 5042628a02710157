/** The capped line reader (`agent_sessions.rs`) and the budgeted scan of a session head (`claude_sessions.rs`). */
module LineScan {
  import opened Basics
  import opened Text

  const MAX_LINE_BYTES: nat := 65_536
  const TITLE_SCAN_LIMIT: nat := 2_048
  const TITLE_SCAN_BYTES: nat := 1_048_576
  const NEWLINE: char := '\n'

  /** A file's bytes, one `char` each. */
  type Bytes = string

  // ----- the lines of a file -----

  /** The length of the first line, its newline included. */
  function LineLength(rest: Bytes): (n: nat)
    ensures n <= |rest|
    ensures rest != [] ==> n > 0
    ensures forall i :: 0 <= i < n - 1 ==> rest[i] != NEWLINE
    ensures n < |rest| ==> n > 0 && rest[n - 1] == NEWLINE
  {
    if rest == [] then 0
    else if rest[0] == NEWLINE then 1
    else 1 + LineLength(rest[1..])
  }

  lemma {:induction false} LineLengthIs(rest: Bytes, n: nat)
    requires n <= |rest| && (rest != [] ==> n > 0)
    requires forall i :: 0 <= i < n - 1 ==> rest[i] != NEWLINE
    requires n < |rest| ==> rest[n - 1] == NEWLINE
    ensures LineLength(rest) == n
  {
    if n > 1 {
      assert rest[0] != NEWLINE;
      LineLengthIs(rest[1..], n - 1);
    }
  }

  /** The rest of a line, after a part of it without a newline. */
  lemma {:induction false} LineLengthAfter(rest: Bytes, k: nat)
    requires k <= |rest| && NEWLINE !in rest[..k]
    ensures LineLength(rest) == k + LineLength(rest[k..])
  {
    if k > 0 {
      assert rest[0] == rest[..k][0];
      assert rest[1..][..k - 1] == rest[..k][1..];
      assert rest[1..][k - 1..] == rest[k..];
      LineLengthAfter(rest[1..], k - 1);
    }
  }

  lemma ChunkIsPart(rest: Bytes, k: nat, chunk: Bytes, j: nat)
    requires k <= |rest| && chunk <= rest[k..] && j <= |chunk|
    ensures k + j <= |rest| && rest[..k + j] == rest[..k] + chunk[..j]
  {
    assert chunk[..j] == rest[k..][..j];
  }

  lemma FirstLineOfChunk(left: Bytes, chunk: Bytes, j: nat)
    requires chunk <= left && j == IndexOf(chunk, NEWLINE)
    ensures j < |chunk| ==> LineLength(left) == j + 1
    ensures j == |chunk| ==> NEWLINE !in chunk && LineLength(left) >= |chunk|
  {
    assert forall i :: 0 <= i < |chunk| ==> left[i] == chunk[i];
    if j < |chunk| {
      LineLengthIs(left, j + 1);
    } else {
      assert left[..|chunk|] == chunk;
      LineLengthAfter(left, |chunk|);
    }
  }

  /** A chunk found `k` bytes into a line, and the first newline in it. */
  lemma NextChunk(rest: Bytes, k: nat, chunk: Bytes, j: nat)
    requires k <= |rest| && NEWLINE !in rest[..k] && chunk <= rest[k..] && j == IndexOf(chunk, NEWLINE)
    ensures j < |chunk| ==> LineLength(rest) == k + j + 1
    ensures j == |chunk| ==> k + |chunk| <= |rest| && NEWLINE !in rest[..k + |chunk|] && LineLength(rest) >= k + |chunk|
    ensures rest[..k + j] == rest[..k] + chunk[..j]
    ensures j < |chunk| ==> rest[..k + j + 1] == rest[..k] + chunk[..j + 1]
  {
    LineLengthAfter(rest, k);
    FirstLineOfChunk(rest[k..], chunk, j);
    ChunkIsPart(rest, k, chunk, j);
    if j < |chunk| {
      ChunkIsPart(rest, k, chunk, j + 1);
    } else {
      assert chunk[..j] == chunk;
    }
  }

  /** The first `n` bytes are in the first line, and are not all of it unless the file is over. */
  ghost predicate InLine(rest: Bytes, n: nat) {
    n <= |rest| && NEWLINE !in rest[..n] && n <= LineLength(rest)
  }

  /** One turn of a reading loop: the chunk is empty at the end only, ends the line at its newline, or is all in it. */
  lemma TakeChunk(rest: Bytes, n: nat, chunk: Bytes, k: nat)
    requires InLine(rest, n) && chunk <= rest[n..] && k == IndexOf(chunk, NEWLINE)
    ensures n == |rest| ==> n == LineLength(rest)
    ensures k < |chunk| ==> n + k + 1 == LineLength(rest) && rest[..n + k + 1] == rest[..n] + chunk[..k + 1]
    ensures k == |chunk| ==> InLine(rest, n + |chunk|) && rest[..n + |chunk|] == rest[..n] + chunk
  {
    NextChunk(rest, n, chunk, k);
    if k == |chunk| {
      assert chunk[..k] == chunk;
    }
  }

  /** All lines of a file, each with its newline; the last may lack one. */
  function Lines(data: Bytes): (r: seq<Bytes>) {
    if data == [] then [] else [data[..LineLength(data)]] + Lines(data[LineLength(data)..])
  }

  // ----- reading one line -----

  datatype CappedLine = Eof | Oversized(consumed: nat) | Line(text: Bytes, consumed: nat)

  function Consumed(line: CappedLine): (r: nat) {
    match line
    case Eof => 0
    case Oversized(n) => n
    case Line(_, n) => n
  }

  /** What a read owes, whatever the chunks: a whole line that fits, or the report of one that does not, skipped
      up to the limit. */
  function CappedRead(rest: Bytes, skipLimit: nat): (line: CappedLine)
    ensures Consumed(line) <= |rest|
  {
    var n := LineLength(rest);
    if rest == [] then Eof
    else if n <= MAX_LINE_BYTES then Line(rest[..n], n)
    else Oversized(MAX_LINE_BYTES + Min(n - MAX_LINE_BYTES, skipLimit))
  }

  /** A buffered reader: every fill returns some non-empty part of what is left, or fails. */
  class Reader {
    const data: Bytes
    var pos: nat
    /** Whether an I/O error was met. */
    var failed: bool

    ghost predicate Valid()
      reads this
    {
      pos <= |data|
    }

    ghost function Rest(): (r: Bytes)
      requires Valid()
      reads this
    {
      data[pos..]
    }

    constructor (data: Bytes)
      ensures Valid() && pos == 0 && !failed && this.data == data
    {
      this.data := data;
      pos, failed := 0, false;
    }

    method FillBuf() returns (chunk: Option<Bytes>)
      requires Valid() && !failed
      modifies this`failed
      ensures failed <==> chunk.None?
      ensures chunk.Some? ==> chunk.value <= Rest() && (chunk.value == [] <==> Rest() == [])
    {
      var error: bool := *;
      if error {
        failed := true;
        return None;
      }
      var n: nat :| n > 0;
      chunk := Some(if n <= |data| - pos then data[pos..pos + n] else data[pos..]);
    }

    method Consume(n: nat)
      requires Valid() && pos + n <= |data|
      modifies this`pos
      ensures pos == old(pos) + n
    {
      pos := pos + n;
    }
  }

  /** `read_until` a newline through `take(limit)`: chunk after chunk up to the newline, the limit or the end.
      None is an I/O error, and nothing else is. */
  method ReadUntilNewline(reader: Reader, limit: nat) returns (line: Option<Bytes>)
    requires reader.Valid() && !reader.failed
    modifies reader`pos, reader`failed
    ensures reader.Valid() && (reader.failed <==> line.None?)
    ensures var most := Min(LineLength(old(reader.Rest())), limit);
            && old(reader.pos) <= reader.pos <= old(reader.pos) + most
            && (line.Some? ==> line.value == old(reader.Rest())[..most] && reader.pos == old(reader.pos) + most)
  {
    ghost var rest := reader.Rest();
    var bytes: Bytes := [];
    while |bytes| < limit
      invariant reader.Valid() && !reader.failed && reader.pos == old(reader.pos) + |bytes|
      invariant InLine(rest, |bytes|) && bytes == rest[..|bytes|] && |bytes| <= limit
      decreases limit - |bytes|
    {
      assert reader.Rest() == rest[|bytes|..];
      var chunk := reader.FillBuf();
      if chunk.None? {
        return None;
      }
      var available := chunk.value[..Min(|chunk.value|, limit - |bytes|)];
      var k := IndexOf(available, NEWLINE);
      TakeChunk(rest, |bytes|, available, k);
      if available == [] {
        return Some(bytes);
      }
      if k < |available| {
        reader.Consume(k + 1);
        return Some(bytes + available[..k + 1]);
      }
      reader.Consume(|available|);
      bytes := bytes + available;
    }
    return Some(bytes);
  }

  /** The rest of an oversized line: up to its newline, the limit or the end, and never past any of them. */
  method SkipRestOfLine(reader: Reader, limit: nat) returns (skipped: Option<nat>)
    requires reader.Valid() && !reader.failed
    modifies reader`pos, reader`failed
    ensures reader.Valid() && (reader.failed <==> skipped.None?)
    ensures var most := Min(LineLength(old(reader.Rest())), limit);
            && old(reader.pos) <= reader.pos <= old(reader.pos) + most
            && (skipped.Some? ==> skipped.value == most && reader.pos == old(reader.pos) + most)
  {
    ghost var rest := reader.Rest();
    var n: nat := 0;
    while n < limit
      invariant reader.Valid() && !reader.failed && reader.pos == old(reader.pos) + n
      invariant InLine(rest, n) && n <= limit
      decreases limit - n
    {
      assert reader.Rest() == rest[n..];
      var chunk := reader.FillBuf();
      if chunk.None? {
        return None;
      }
      var allowed := chunk.value[..Min(|chunk.value|, limit - n)];
      var k := IndexOf(allowed, NEWLINE);
      TakeChunk(rest, n, allowed, k);
      if chunk.value == [] {
        return Some(n);
      }
      if k < |allowed| {
        reader.Consume(k + 1);
        return Some(n + k + 1);
      }
      reader.Consume(|allowed|);
      n := n + |allowed|;
    }
    return Some(n);
  }

  /** `read_capped_line`: what it returns and where it leaves the reader depend on the bytes and the limit only. */
  method ReadCappedLine(reader: Reader, skipLimit: nat) returns (line: Option<CappedLine>)
    requires reader.Valid() && !reader.failed
    modifies reader`pos, reader`failed
    ensures reader.Valid() && (reader.failed <==> line.None?)
    ensures var owed := CappedRead(old(reader.Rest()), skipLimit);
            && old(reader.pos) <= reader.pos <= old(reader.pos) + Consumed(owed)
            && (line.Some? ==> line.value == owed && reader.pos == old(reader.pos) + Consumed(owed))
  {
    ghost var rest := reader.Rest();
    var read := ReadUntilNewline(reader, MAX_LINE_BYTES);
    if read.None? {
      return None;
    }
    var bytes := read.value;
    if bytes == [] {
      return Some(Eof);
    }
    if |bytes| == MAX_LINE_BYTES && bytes[|bytes| - 1] != NEWLINE {
      var chunk := reader.FillBuf();
      if chunk.None? {
        return None;
      }
      if chunk.value != [] {
        assert NEWLINE !in rest[..MAX_LINE_BYTES];
        LineLengthAfter(rest, MAX_LINE_BYTES);
        var skipped := SkipRestOfLine(reader, skipLimit);
        if skipped.None? {
          return None;
        }
        return Some(Oversized(|bytes| + skipped.value));
      }
    }
    return Some(Line(bytes, |bytes|));
  }

  // ----- the scan of a session's head -----

  datatype Envelope = Envelope(sessionId: string, timestamp: string, cwd: string)

  /** What a line's `type` asks for, with the label or message already cleaned. */
  datatype Kind = AiTitle(cleaned: Option<string>) | User(cleaned: Option<string>) | Other

  /** What the JSON of one line says: its envelope if it has one, whether that envelope is acceptable, its kind. */
  datatype LineFacts = NotARecord | Record(envelope: Option<Envelope>, acceptable: bool, kind: Kind)

  datatype Head = Head(envelope: Option<Envelope>, aiTitle: Option<string>, userFallback: Option<string>)

  const EMPTY_HEAD := Head(None, None, None)

  /** One line's effect on the head, and whether the scan is over. */
  function Absorb(head: Head, facts: LineFacts): (r: (Head, bool)) {
    if facts.NotARecord? then (head, false)
    else if head.envelope.None? && facts.envelope.Some? && !facts.acceptable then (head, false)
    else
      var found := if head.envelope.None? then head.(envelope := facts.envelope) else head;
      match facts.kind
      case AiTitle(Some(title)) => (found.(aiTitle := Some(title)), found.envelope.Some?)
      case User(Some(text)) =>
        (if found.userFallback.None? then found.(userFallback := Some(text)) else found, false)
      case _ => (found, false)
  }

  function Spend(budget: nat, consumed: nat): (r: nat) {
    if consumed <= budget then budget - consumed else 0
  }

  /** What line `k` costs the budget: all of it if it is short, else the cap and what is skipped within budget. */
  function Cost(line: Bytes, budget: nat): (r: nat) {
    if |line| <= MAX_LINE_BYTES then |line| else MAX_LINE_BYTES + Min(|line| - MAX_LINE_BYTES, budget)
  }

  function Look(line: Bytes, head: Head, facts: Bytes -> LineFacts): (r: (Head, bool)) {
    if |line| <= MAX_LINE_BYTES then Absorb(head, facts(line)) else (head, false)
  }

  /** The scan of whole lines from the `k`th on: short ones are read, long ones only paid for. */
  function Scan(lines: seq<Bytes>, k: nat, limit: nat, budget: nat, head: Head, facts: Bytes -> LineFacts): (r: Head)
    requires k <= |lines|
    decreases |lines| - k
  {
    if k >= limit || budget < MAX_LINE_BYTES || k == |lines| then head
    else
      var (next, over) := Look(lines[k], head, facts);
      if over then next else Scan(lines, k + 1, limit, Spend(budget, Cost(lines[k], budget)), next, facts)
  }

  function Concat(lines: seq<Bytes>): (r: Bytes) {
    if lines == [] then [] else lines[0] + Concat(lines[1..])
  }

  /** A line: something, with no newline but perhaps at its end. */
  predicate IsLine(line: Bytes) {
    |line| > 0 && forall j :: 0 <= j < |line| - 1 ==> line[j] != NEWLINE
  }

  predicate EndsTheLine(line: Bytes) {
    |line| > 0 && line[|line| - 1] == NEWLINE
  }

  lemma FirstIsLine(data: Bytes)
    requires data != []
    ensures IsLine(data[..LineLength(data)])
    ensures LineLength(data) < |data| ==> EndsTheLine(data[..LineLength(data)])
  {
  }

  lemma LinesStep(data: Bytes) returns (line: Bytes, tail: Bytes)
    requires data != []
    ensures data == line + tail && |tail| < |data|
    ensures Lines(data) == [line] + Lines(tail)
    ensures IsLine(line) && (Lines(tail) != [] ==> EndsTheLine(line))
  {
    line, tail := data[..LineLength(data)], data[LineLength(data)..];
    FirstIsLine(data);
  }

  ghost predicate AreLines(lines: seq<Bytes>) {
    && (forall i :: 0 <= i < |lines| ==> IsLine(lines[i]))
    && (forall i :: 0 <= i < |lines| - 1 ==> EndsTheLine(lines[i]))
  }

  lemma OneMoreLine(line: Bytes, rest: seq<Bytes>)
    requires IsLine(line) && (rest != [] ==> EndsTheLine(line)) && AreLines(rest)
    ensures AreLines([line] + rest)
    ensures Concat([line] + rest) == line + Concat(rest)
  {
    assert ([line] + rest)[1..] == rest;
  }

  /** The lines of a file give it back, and every one but the last ends with a newline. */
  lemma {:induction false} LinesAreLossless(data: Bytes)
    ensures Concat(Lines(data)) == data
    ensures AreLines(Lines(data))
    decreases |data|
  {
    if data != [] {
      var line, tail := LinesStep(data);
      LinesAreLossless(tail);
      OneMoreLine(line, Lines(tail));
    }
  }

  /** Where line `k` starts. */
  function Offset(lines: seq<Bytes>, k: nat): (r: nat)
    requires k <= |lines|
  {
    if k == 0 then 0 else Offset(lines, k - 1) + |lines[k - 1]|
  }

  /** `f` takes the first line of a text and then the lines of what follows it. */
  ghost predicate ReadsOn(f: Bytes -> seq<Bytes>, r: Bytes) {
    if r == [] then f(r) == []
    else f(r) != [] && f(r)[0] == r[..LineLength(r)] && f(r[LineLength(r)..]) == f(r)[1..]
  }

  lemma {:induction false} ReadsFrom(f: Bytes -> seq<Bytes>, data: Bytes, lines: seq<Bytes>, k: nat)
    requires forall r :: ReadsOn(f, r)
    requires lines == f(data) && k <= |lines|
    ensures Offset(lines, k) <= |data|
    ensures f(data[Offset(lines, k)..]) == lines[k..]
  {
    if k == 0 {
      DropTwice(data, 0, 0);
    } else {
      ReadsFrom(f, data, lines, k - 1);
      var at := Offset(lines, k - 1);
      assert ReadsOn(f, data[at..]);
      HeadOfRest(lines, k - 1);
      DropTwice(data, at, |lines[k - 1]|);
    }
  }

  /** Line `k` is what the bytes at its offset start with; after the last line the file is over. */
  lemma LineAt(data: Bytes, k: nat)
    requires k <= |Lines(data)|
    ensures Offset(Lines(data), k) <= |data|
    ensures k == |Lines(data)| <==> Offset(Lines(data), k) == |data|
    ensures k < |Lines(data)| ==>
              var rest := data[Offset(Lines(data), k)..];
              rest[..LineLength(rest)] == Lines(data)[k]
  {
    var f := (r: Bytes) => Lines(r);
    var lines := f(data);
    forall r
      ensures ReadsOn(f, r)
    {
    }
    ReadsFrom(f, data, lines, k);
    assert ReadsOn(f, data[Offset(lines, k)..]);
    if k < |lines| {
      HeadOfRest(lines, k);
    }
  }

  /** Reading at a line's offset gives the line, or skips it, at its cost. */
  lemma ReadsLine(data: Bytes, k: nat, budget: nat)
    requires k < |Lines(data)|
    ensures Offset(Lines(data), k) <= |data|
    ensures var line, read := Lines(data)[k], CappedRead(data[Offset(Lines(data), k)..], budget);
            && Consumed(read) == Cost(line, budget)
            && (|line| <= MAX_LINE_BYTES ==> read == Line(line, |line|))
            && (|line| > MAX_LINE_BYTES ==> read.Oversized?)
            && (Consumed(read) < |line| ==> Spend(budget, Consumed(read)) == 0)
  {
    LineAt(data, k);
  }

  ghost predicate Scanned(lines: seq<Bytes>, limit: nat, head: Head, facts: Bytes -> LineFacts) {
    head == Scan(lines, 0, limit, TITLE_SCAN_BYTES, EMPTY_HEAD, facts)
  }

  // ----- what the head of a session is -----

  /** What line `i` says; a line over the cap says nothing. */
  function Says(lines: seq<Bytes>, i: nat, facts: Bytes -> LineFacts): (r: LineFacts)
    requires i < |lines|
  {
    if |lines[i]| <= 65_536 then facts(lines[i]) else NotARecord
  }

  predicate HasEnvelope(lines: seq<Bytes>, i: nat, facts: Bytes -> LineFacts)
    requires i < |lines|
  {
    var f := Says(lines, i, facts);
    f.Record? && f.envelope.Some? && f.acceptable
  }

  ghost predicate EnvelopeBefore(lines: seq<Bytes>, n: nat, facts: Bytes -> LineFacts)
    requires n <= |lines|
  {
    exists i :: 0 <= i < n && HasEnvelope(lines, i, facts)
  }

  /** A record contributes unless it brings an unacceptable envelope before any acceptable one. */
  ghost predicate Contributes(lines: seq<Bytes>, i: nat, facts: Bytes -> LineFacts)
    requires i < |lines|
  {
    var f := Says(lines, i, facts);
    f.Record? && (f.envelope.None? || f.acceptable || EnvelopeBefore(lines, i, facts))
  }

  ghost predicate HasTitle(lines: seq<Bytes>, i: nat, facts: Bytes -> LineFacts)
    requires i < |lines|
  {
    Contributes(lines, i, facts) && Says(lines, i, facts).kind.AiTitle? && Says(lines, i, facts).kind.cleaned.Some?
  }

  ghost predicate HasMessage(lines: seq<Bytes>, i: nat, facts: Bytes -> LineFacts)
    requires i < |lines|
  {
    Contributes(lines, i, facts) && Says(lines, i, facts).kind.User? && Says(lines, i, facts).kind.cleaned.Some?
  }

  /** The first acceptable envelope. */
  ghost predicate IsEnvelopeOf(envelope: Option<Envelope>, lines: seq<Bytes>, n: nat, facts: Bytes -> LineFacts)
    requires n <= |lines|
  {
    && (envelope.Some? <==> EnvelopeBefore(lines, n, facts))
    && forall i :: 0 <= i < n && HasEnvelope(lines, i, facts) && !EnvelopeBefore(lines, i, facts) ==>
         envelope == Says(lines, i, facts).envelope
  }

  /** The last title. */
  ghost predicate IsTitleOf(title: Option<string>, lines: seq<Bytes>, n: nat, facts: Bytes -> LineFacts)
    requires n <= |lines|
  {
    && (title.Some? <==> exists i :: 0 <= i < n && HasTitle(lines, i, facts))
    && forall i :: 0 <= i < n && HasTitle(lines, i, facts)
                   && (forall j :: i < j < n ==> !HasTitle(lines, j, facts)) ==>
         title == Says(lines, i, facts).kind.cleaned
  }

  /** The first message of the user. */
  ghost predicate IsMessageOf(message: Option<string>, lines: seq<Bytes>, n: nat, facts: Bytes -> LineFacts)
    requires n <= |lines|
  {
    && (message.Some? <==> exists i :: 0 <= i < n && HasMessage(lines, i, facts))
    && forall i :: 0 <= i < n && HasMessage(lines, i, facts)
                   && (forall j :: 0 <= j < i ==> !HasMessage(lines, j, facts)) ==>
         message == Says(lines, i, facts).kind.cleaned
  }

  ghost predicate IsHeadOf(head: Head, lines: seq<Bytes>, n: nat, facts: Bytes -> LineFacts)
    requires n <= |lines|
  {
    && IsEnvelopeOf(head.envelope, lines, n, facts)
    && IsTitleOf(head.aiTitle, lines, n, facts)
    && IsMessageOf(head.userFallback, lines, n, facts)
  }

  /** The scan stops at a title that comes with an envelope in hand. */
  ghost predicate StopsAt(lines: seq<Bytes>, i: nat, facts: Bytes -> LineFacts)
    requires i < |lines|
  {
    HasTitle(lines, i, facts) && EnvelopeBefore(lines, i + 1, facts)
  }

  predicate WithinBudget(lines: seq<Bytes>, i: nat)
    requires i <= |lines|
  {
    Offset(lines, i) + 65_536 <= 1_048_576
  }

  /** The lines that count: up to the limit, those that start a line's length before the budget ends, and none after
      the first at which the scan stops. */
  ghost predicate Counts(lines: seq<Bytes>, n: nat, limit: nat, facts: Bytes -> LineFacts) {
    && n <= |lines| && n <= limit
    && (forall i :: 0 <= i < n ==> WithinBudget(lines, i))
    && (forall i :: 0 <= i < n - 1 ==> !StopsAt(lines, i, facts))
    && (n == |lines| || n == limit || !WithinBudget(lines, n) || (n > 0 && StopsAt(lines, n - 1, facts)))
  }

  lemma EnvelopeStep(lines: seq<Bytes>, n: nat, facts: Bytes -> LineFacts)
    requires n < |lines|
    ensures EnvelopeBefore(lines, n + 1, facts) <==> EnvelopeBefore(lines, n, facts) || HasEnvelope(lines, n, facts)
  {
    if EnvelopeBefore(lines, n, facts) {
      var i :| 0 <= i < n && HasEnvelope(lines, i, facts);
      assert 0 <= i < n + 1;
    }
  }

  function EnvelopeWith(envelope: Option<Envelope>, lines: seq<Bytes>, n: nat, facts: Bytes -> LineFacts)
    : (r: Option<Envelope>)
    requires n < |lines|
  {
    if envelope.None? && HasEnvelope(lines, n, facts) then Says(lines, n, facts).envelope else envelope
  }

  ghost function TitleWith(title: Option<string>, lines: seq<Bytes>, n: nat, facts: Bytes -> LineFacts)
    : (r: Option<string>)
    requires n < |lines|
  {
    if HasTitle(lines, n, facts) then Says(lines, n, facts).kind.cleaned else title
  }

  ghost function MessageWith(message: Option<string>, lines: seq<Bytes>, n: nat, facts: Bytes -> LineFacts)
    : (r: Option<string>)
    requires n < |lines|
  {
    if message.None? && HasMessage(lines, n, facts) then Says(lines, n, facts).kind.cleaned else message
  }

  lemma EnvelopeOfMore(envelope: Option<Envelope>, lines: seq<Bytes>, n: nat, facts: Bytes -> LineFacts)
    requires n < |lines| && IsEnvelopeOf(envelope, lines, n, facts)
    ensures IsEnvelopeOf(EnvelopeWith(envelope, lines, n, facts), lines, n + 1, facts)
  {
    EnvelopeStep(lines, n, facts);
  }

  lemma TitleOfMore(title: Option<string>, lines: seq<Bytes>, n: nat, facts: Bytes -> LineFacts)
    requires n < |lines| && IsTitleOf(title, lines, n, facts)
    ensures IsTitleOf(TitleWith(title, lines, n, facts), lines, n + 1, facts)
  {
  }

  lemma MessageOfMore(message: Option<string>, lines: seq<Bytes>, n: nat, facts: Bytes -> LineFacts)
    requires n < |lines| && IsMessageOf(message, lines, n, facts)
    ensures IsMessageOf(MessageWith(message, lines, n, facts), lines, n + 1, facts)
  {
  }

  lemma LookSays(head: Head, lines: seq<Bytes>, n: nat, facts: Bytes -> LineFacts)
    requires n < |lines| && (head.envelope.Some? <==> EnvelopeBefore(lines, n, facts))
    ensures var (next, over) := Look(lines[n], head, facts);
            && next == Head(EnvelopeWith(head.envelope, lines, n, facts), TitleWith(head.aiTitle, lines, n, facts),
                            MessageWith(head.userFallback, lines, n, facts))
            && (over <==> StopsAt(lines, n, facts))
  {
    EnvelopeStep(lines, n, facts);
  }

  /** Looking at one line more gives the head of one line more. */
  lemma HeadStep(head: Head, lines: seq<Bytes>, n: nat, facts: Bytes -> LineFacts)
    requires n < |lines| && IsHeadOf(head, lines, n, facts)
    ensures IsHeadOf(Look(lines[n], head, facts).0, lines, n + 1, facts)
    ensures Look(lines[n], head, facts).1 <==> StopsAt(lines, n, facts)
  {
    LookSays(head, lines, n, facts);
    EnvelopeOfMore(head.envelope, lines, n, facts);
    TitleOfMore(head.aiTitle, lines, n, facts);
    MessageOfMore(head.userFallback, lines, n, facts);
  }

  function Left(lines: seq<Bytes>, k: nat): (r: nat)
    requires k <= |lines|
  {
    if Offset(lines, k) <= TITLE_SCAN_BYTES then TITLE_SCAN_BYTES - Offset(lines, k) else 0
  }

  lemma LeftSpent(lines: seq<Bytes>, k: nat)
    requires k < |lines| && Left(lines, k) >= MAX_LINE_BYTES
    ensures Spend(Left(lines, k), Cost(lines[k], Left(lines, k))) == Left(lines, k + 1)
  {
  }

  /** The scan is still going on at line `k`. */
  ghost predicate Reaches(lines: seq<Bytes>, k: nat, facts: Bytes -> LineFacts) {
    k <= |lines| && forall i :: 0 <= i < k ==> WithinBudget(lines, i) && !StopsAt(lines, i, facts)
  }

  lemma CountsWhenOver(lines: seq<Bytes>, k: nat, limit: nat, facts: Bytes -> LineFacts)
    requires Reaches(lines, k, facts) && k <= limit
    ensures k == |lines| || k == limit || Left(lines, k) < MAX_LINE_BYTES ==> Counts(lines, k, limit, facts)
    ensures k < |lines| && k < limit && Left(lines, k) >= MAX_LINE_BYTES && StopsAt(lines, k, facts) ==>
              Counts(lines, k + 1, limit, facts)
    ensures k < |lines| && Left(lines, k) >= MAX_LINE_BYTES && !StopsAt(lines, k, facts) ==>
              Reaches(lines, k + 1, facts)
  {
  }

  lemma {:induction false} ScanIsHead(lines: seq<Bytes>, k: nat, limit: nat, head: Head, facts: Bytes -> LineFacts)
    requires Reaches(lines, k, facts) && k <= limit && IsHeadOf(head, lines, k, facts)
    ensures IsHeadWithin(Scan(lines, k, limit, Left(lines, k), head, facts), lines, limit, facts)
    decreases |lines| - k
  {
    CountsWhenOver(lines, k, limit, facts);
    if k < limit && Left(lines, k) >= MAX_LINE_BYTES && k < |lines| {
      HeadStep(head, lines, k, facts);
      var next := Look(lines[k], head, facts).0;
      if StopsAt(lines, k, facts) {
        assert IsHeadWithin(next, lines, limit, facts);
      } else {
        LeftSpent(lines, k);
        ScanIsHead(lines, k + 1, limit, next, facts);
      }
    }
  }

  /** The head of a scan: the first acceptable envelope, the last title and the first message of the user among the
      lines that count. */
  ghost predicate IsHeadWithin(head: Head, lines: seq<Bytes>, limit: nat, facts: Bytes -> LineFacts) {
    exists n: nat :: Counts(lines, n, limit, facts) && IsHeadOf(head, lines, n, facts)
  }

  lemma ScannedIsHead(lines: seq<Bytes>, limit: nat, head: Head, facts: Bytes -> LineFacts)
    requires Scanned(lines, limit, head, facts)
    ensures IsHeadWithin(head, lines, limit, facts)
  {
    ScanIsHead(lines, 0, limit, EMPTY_HEAD, facts);
  }

  /** Which lines count is determined. */
  lemma CountIsUnique(lines: seq<Bytes>, m: nat, n: nat, limit: nat, facts: Bytes -> LineFacts)
    requires Counts(lines, m, limit, facts) && Counts(lines, n, limit, facts)
    ensures m == n
  {
  }

  // ----- the loop -----

  /** Scanning on from line `k` with this head is where the scan of the whole file has got to. */
  ghost predicate OnTrack(lines: seq<Bytes>, k: nat, budget: nat, head: Head, facts: Bytes -> LineFacts) {
    k <= |lines| && forall limit: nat :: limit >= k ==>
      Scan(lines, 0, limit, TITLE_SCAN_BYTES, EMPTY_HEAD, facts) == Scan(lines, k, limit, budget, head, facts)
  }

  lemma TurnStaysOnTrack(lines: seq<Bytes>, k: nat, budget: nat, head: Head, facts: Bytes -> LineFacts)
    requires OnTrack(lines, k, budget, head, facts) && k < |lines| && budget >= MAX_LINE_BYTES
    ensures var (next, over) := Look(lines[k], head, facts);
            && (over ==> forall limit: nat :: limit > k ==> Scanned(lines, limit, next, facts))
            && (!over ==> OnTrack(lines, k + 1, Spend(budget, Cost(lines[k], budget)), next, facts))
  {
  }

  lemma ScanIsOver(lines: seq<Bytes>, k: nat, budget: nat, head: Head, facts: Bytes -> LineFacts, limit: nat)
    requires OnTrack(lines, k, budget, head, facts) && k <= limit
    requires k == limit || budget < MAX_LINE_BYTES || k == |lines|
    ensures Scanned(lines, limit, head, facts)
  {
  }

  /** After `turn` turns the reader stands at the next line, unless the budget is gone. */
  ghost predicate At(data: Bytes, turn: nat, pos: nat, budget: nat, head: Head, facts: Bytes -> LineFacts) {
    && pos <= |data|
    && (budget + pos <= TITLE_SCAN_BYTES || (budget == 0 && pos <= TITLE_SCAN_BYTES + MAX_LINE_BYTES))
    && OnTrack(Lines(data), turn, budget, head, facts)
    && (budget >= MAX_LINE_BYTES ==> pos == Offset(Lines(data), turn))
  }

  function AfterRead(read: CappedLine, head: Head, facts: Bytes -> LineFacts): (r: (Head, bool)) {
    if read.Line? then Absorb(head, facts(read.text)) else (head, false)
  }

  lemma OneTurn(data: Bytes, turn: nat, pos: nat, budget: nat, head: Head, facts: Bytes -> LineFacts)
    requires At(data, turn, pos, budget, head, facts) && budget >= MAX_LINE_BYTES
    ensures var read := CappedRead(data[pos..], budget);
            var (next, over) := AfterRead(read, head, facts);
            && pos + Consumed(read) <= TITLE_SCAN_BYTES + MAX_LINE_BYTES
            && (read.Eof? ==> forall limit: nat :: limit >= turn ==> Scanned(Lines(data), limit, head, facts))
            && (over ==> forall limit: nat :: limit > turn ==> Scanned(Lines(data), limit, next, facts))
            && (!read.Eof? && !over ==>
                  At(data, turn + 1, pos + Consumed(read), Spend(budget, Consumed(read)), next, facts))
  {
    var lines := Lines(data);
    LineAt(data, turn);
    if turn < |lines| {
      ReadsLine(data, turn, budget);
      TurnStaysOnTrack(lines, turn, budget, head, facts);
      assert AfterRead(CappedRead(data[pos..], budget), head, facts) == Look(lines[turn], head, facts);
    } else {
      forall limit: nat | limit >= turn
        ensures Scanned(lines, limit, head, facts)
      {
        ScanIsOver(lines, turn, budget, head, facts, limit);
      }
    }
  }

  lemma ScanEnds(data: Bytes, turn: nat, pos: nat, budget: nat, head: Head, facts: Bytes -> LineFacts, limit: nat)
    requires At(data, turn, pos, budget, head, facts) && turn <= limit
    requires turn == limit || budget < MAX_LINE_BYTES
    ensures Scanned(Lines(data), limit, head, facts)
  {
    ScanIsOver(Lines(data), turn, budget, head, facts, limit);
  }

  /** A read that failed `turn` lines into the file stopped in line `turn`. */
  ghost predicate FailedIn(data: Bytes, turn: nat, pos: nat) {
    && turn <= |Lines(data)|
    && Offset(Lines(data), turn) <= pos <= |data|
    && (turn < |Lines(data)| ==> pos <= Offset(Lines(data), turn + 1))
  }

  lemma FailureIsInLine(data: Bytes, turn: nat, start: nat, pos: nat, budget: nat, head: Head,
                        facts: Bytes -> LineFacts)
    requires At(data, turn, start, budget, head, facts) && budget >= MAX_LINE_BYTES
    requires start <= pos <= start + Consumed(CappedRead(data[start..], budget)) && pos <= |data|
    ensures FailedIn(data, turn, pos)
  {
    if turn < |Lines(data)| {
      ReadsLine(data, turn, budget);
    }
  }

  /** The whole scan, for any chunking: it sees whole lines of the file only, one a turn, and reads no more than its
      budget and one line. An I/O error ends it with the lines before the one it came in. A head without an envelope
      is none. */
  method ScanSessionHead(reader: Reader, facts: Bytes -> LineFacts)
    returns (result: Option<Head>, failed: bool, ghost head: Head, ghost turns: nat)
    requires reader.Valid() && reader.pos == 0 && !reader.failed
    modifies reader`pos, reader`failed
    ensures reader.Valid() && (failed <==> reader.failed) && reader.pos <= TITLE_SCAN_BYTES + MAX_LINE_BYTES
    ensures IsHeadWithin(head, Lines(reader.data), turns, facts)
    ensures if failed then turns < 2_048 && FailedIn(reader.data, turns, reader.pos) else turns == 2_048
    ensures result == if head.envelope.Some? then Some(head) else None
  {
    var seen;
    seen, failed, turns := ScanLines(reader, facts);
    ScannedIsHead(Lines(reader.data), turns, seen, facts);
    head := seen;
    result := if seen.envelope.Some? then Some(seen) else None;
  }

  method ScanLines(reader: Reader, facts: Bytes -> LineFacts) returns (head: Head, failed: bool, ghost turns: nat)
    requires reader.Valid() && reader.pos == 0 && !reader.failed
    modifies reader`pos, reader`failed
    ensures reader.Valid() && (failed <==> reader.failed) && reader.pos <= TITLE_SCAN_BYTES + MAX_LINE_BYTES
    ensures Scanned(Lines(reader.data), turns, head, facts)
    ensures if failed then turns < TITLE_SCAN_LIMIT && FailedIn(reader.data, turns, reader.pos)
            else turns == TITLE_SCAN_LIMIT
  {
    head, failed, turns := EMPTY_HEAD, false, TITLE_SCAN_LIMIT;
    var budget: nat := TITLE_SCAN_BYTES;
    var turn: nat := 0;
    while turn < TITLE_SCAN_LIMIT && budget >= MAX_LINE_BYTES
      invariant turn <= TITLE_SCAN_LIMIT
      invariant reader.Valid() && !reader.failed && At(reader.data, turn, reader.pos, budget, head, facts)
    {
      OneTurn(reader.data, turn, reader.pos, budget, head, facts);
      ScanEnds(reader.data, turn, reader.pos, budget, head, facts, turn);
      ghost var start := reader.pos;
      var line := ReadCappedLine(reader, budget);
      if line.None? {
        FailureIsInLine(reader.data, turn, start, reader.pos, budget, head, facts);
        return head, true, turn;
      }
      if line.value.Eof? {
        return;
      }
      budget := Spend(budget, Consumed(line.value));
      if line.value.Line? {
        var (next, over) := Absorb(head, facts(line.value.text));
        head := next;
        if over {
          return;
        }
      }
      turn := turn + 1;
    }
    ScanEnds(reader.data, turn, reader.pos, budget, head, facts, TITLE_SCAN_LIMIT);
  }
}
