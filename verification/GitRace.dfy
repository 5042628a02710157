/** The writer and probe threads of `git_race.rs`, one atomic access a step. */
module GitRace {
  const WRITES_AHEAD_OF_EACH_PROBE: nat := 2

  /** The writer's next step. `Over` is a normal end, `Panicked` a join on a probe thread that panicked. */
  datatype Writer = ChecksFinished | ChecksThread | Rewrites | Stores | Joins | Over | Panicked

  /** The probe thread's next step. Its last report, or a panic, is not yet its end: a returning or unwinding thread
      takes a step more until it is seen to be finished. */
  datatype Prober = Waits | Probes | Reports | Returns | Unwinds | Returned | Dead

  datatype State = State(
    writer: Writer,
    prober: Prober,
    writes: nat,
    written: nat,
    finished: nat,
    index: nat,
    recorded: nat,
    starts: seq<nat>)

  /** Which thread steps next; a probe may answer or fail, or panic. */
  datatype Choice = WriterSteps | ProberSteps(panics: bool)

  function Init(probes: nat): (r: State) {
    State(ChecksFinished, if probes == 0 then Returns else Waits, 0, 0, 0, 0, 0, [])
  }

  predicate ThreadIsFinished(s: State) {
    s.prober == Returned || s.prober == Dead
  }

  function WriterStep(probes: nat, s: State): (r: State) {
    match s.writer
    case ChecksFinished => s.(writer := if s.finished < probes then ChecksThread else Joins)
    case ChecksThread => s.(writer := if ThreadIsFinished(s) then Joins else Rewrites)
    case Rewrites => s.(writer := Stores, writes := s.writes + 1)
    case Stores => s.(writer := ChecksFinished, written := s.writes)
    case Joins => if !ThreadIsFinished(s) then s else s.(writer := if s.prober == Dead then Panicked else Over)
    case Over => s
    case Panicked => s
  }

  /** A probe starts when the wait for it is over; `starts` keeps how many writes were complete by then. */
  function ProberStep(probes: nat, s: State, panics: bool): (r: State) {
    match s.prober
    case Waits =>
      if s.written < s.index + WRITES_AHEAD_OF_EACH_PROBE then s
      else s.(prober := Probes, starts := s.starts + [s.writes])
    case Probes => if panics then s.(prober := Unwinds) else s.(prober := Reports, recorded := s.recorded + 1)
    case Reports =>
      s.(prober := if s.index + 1 == probes then Returns else Waits, finished := s.finished + 1, index := s.index + 1)
    case Returns => s.(prober := Returned)
    case Unwinds => s.(prober := Dead)
    case Returned => s
    case Dead => s
  }

  function Step(probes: nat, s: State, c: Choice): (r: State) {
    match c
    case WriterSteps => WriterStep(probes, s)
    case ProberSteps(panics) => ProberStep(probes, s, panics)
  }

  function Run(probes: nat, s: State, choices: seq<Choice>): (r: State)
    decreases |choices|
  {
    if choices == [] then s else Run(probes, Step(probes, s, choices[0]), choices[1..])
  }

  // ----- what every step keeps -----

  ghost predicate Invariant(probes: nat, s: State) {
    && s.finished == s.index <= probes
    && (s.prober == Returns || s.prober == Returned <==> s.index == probes)
    && s.recorded == s.index + (if s.prober == Reports then 1 else 0)
    && s.writes == s.written + (if s.writer == Stores then 1 else 0)
    && |s.starts| == s.index + (if s.prober == Waits || s.index == probes then 0 else 1)
    && (forall i :: 0 <= i < |s.starts| ==> i + WRITES_AHEAD_OF_EACH_PROBE <= s.starts[i] <= s.writes)
    && |s.starts| + 1 <= s.written + (if s.starts == [] then 1 else 0)
    && (s.writer == Joins ==> s.prober == Returns || ThreadIsFinished(s))
    && (s.writer == Over ==> s.prober == Returned)
    && (s.writer == Panicked ==> s.prober == Dead)
    && (probes == 0 ==> s.writes == 0 && s.writer != ChecksThread && s.writer != Rewrites && s.writer != Stores)
  }

  lemma StepKeepsInvariant(probes: nat, s: State, c: Choice)
    requires Invariant(probes, s)
    ensures Invariant(probes, Step(probes, s, c))
  {
  }

  lemma {:induction false} RunKeepsInvariant(probes: nat, s: State, choices: seq<Choice>)
    requires Invariant(probes, s)
    ensures Invariant(probes, Run(probes, s, choices))
    decreases |choices|
  {
    if choices != [] {
      StepKeepsInvariant(probes, s, choices[0]);
      RunKeepsInvariant(probes, Step(probes, s, choices[0]), choices[1..]);
    }
  }

  // ----- safety -----

  /** In every interleaving probe `i` starts only after `i + 2` writes are complete. */
  lemma ProbesStartBehindWrites(probes: nat, choices: seq<Choice>, i: nat)
    requires i < |Run(probes, Init(probes), choices).starts|
    ensures Run(probes, Init(probes), choices).starts[i] >= i + 2
  {
    RunKeepsInvariant(probes, Init(probes), choices);
  }

  /** A race that ends normally ran all its probes, and is conclusive exactly when there was one to run. */
  lemma NormalEndIsConclusive(probes: nat, choices: seq<Choice>)
    requires Run(probes, Init(probes), choices).writer == Over
    ensures var end := Run(probes, Init(probes), choices);
            end.recorded == probes && (end.writes > end.recorded <==> probes >= 1)
  {
    RunKeepsInvariant(probes, Init(probes), choices);
  }

  // ----- progress -----

  predicate Ended(s: State) {
    s.writer == Over || s.writer == Panicked
  }

  predicate Blocked(s: State) {
    s.prober == Waits && s.written < s.index + WRITES_AHEAD_OF_EACH_PROBE
  }

  /** The thread the other one cannot do without: the prober while it can go on, else the writer. */
  predicate NeedsWriter(s: State) {
    ThreadIsFinished(s) || Blocked(s)
  }

  function ProbeStepsLeft(probes: nat, s: State): (r: int) {
    match s.prober
    case Waits => 3 * (probes - s.index) + 1
    case Probes => 3 * (probes - s.index)
    case Reports => 3 * (probes - s.index) - 1
    case Returns => 1
    case Unwinds => 1
    case Returned => 0
    case Dead => 0
  }

  function WriterStepsLeft(s: State): (r: int) {
    if ThreadIsFinished(s) then
      match s.writer
      case Rewrites => 5
      case Stores => 4
      case ChecksFinished => 3
      case ChecksThread => 2
      case Joins => 1
      case Over => 0
      case Panicked => 0
    else if Blocked(s) then
      var writesToCome := s.index + WRITES_AHEAD_OF_EACH_PROBE - s.written;
      match s.writer
      case ChecksFinished => 4 * writesToCome
      case ChecksThread => 4 * writesToCome - 1
      case Rewrites => 4 * writesToCome - 2
      case _ => 4 * writesToCome - 3
    else 0
  }

  /** The number of useful steps left, at most. */
  function Measure(probes: nat, s: State): (r: int) {
    9 * ProbeStepsLeft(probes, s) + WriterStepsLeft(s)
  }

  predicate Useful(s: State, c: Choice) {
    c.WriterSteps? <==> NeedsWriter(s)
  }

  /** No step loses ground; a step of the thread that is needed gains some. So no unfinished state is a deadlock. */
  lemma StepProgress(probes: nat, s: State, c: Choice)
    requires Invariant(probes, s)
    ensures 0 <= Measure(probes, s)
    ensures Measure(probes, Step(probes, s, c)) <= Measure(probes, s)
    ensures !Ended(s) && Useful(s, c) ==> Measure(probes, Step(probes, s, c)) < Measure(probes, s)
    ensures !Ended(s) && !Useful(s, c) && Measure(probes, Step(probes, s, c)) == Measure(probes, s) ==>
              !Ended(Step(probes, s, c)) && (NeedsWriter(Step(probes, s, c)) <==> NeedsWriter(s))
    ensures Ended(s) ==> Step(probes, s, c) == s
  {
  }

  lemma {:induction false} RunNeverLosesGround(probes: nat, s: State, choices: seq<Choice>)
    requires Invariant(probes, s)
    ensures Measure(probes, Run(probes, s, choices)) <= Measure(probes, s)
    ensures Ended(s) ==> Run(probes, s, choices) == s
    decreases |choices|
  {
    if choices != [] {
      StepProgress(probes, s, choices[0]);
      StepKeepsInvariant(probes, s, choices[0]);
      RunNeverLosesGround(probes, Step(probes, s, choices[0]), choices[1..]);
    }
  }

  /** A stretch of a schedule in which both threads get to step. */
  predicate IsRound(round: seq<Choice>) {
    (exists c :: c in round && c.WriterSteps?) && (exists c :: c in round && c.ProberSteps?)
  }

  lemma {:induction false} RoundGainsGround(probes: nat, s: State, round: seq<Choice>)
    requires Invariant(probes, s) && !Ended(s)
    requires exists c :: c in round && Useful(s, c)
    ensures Measure(probes, Run(probes, s, round)) < Measure(probes, s)
    decreases |round|
  {
    var c, next := round[0], Step(probes, s, round[0]);
    StepProgress(probes, s, c);
    StepKeepsInvariant(probes, s, c);
    if Measure(probes, next) < Measure(probes, s) {
      RunNeverLosesGround(probes, next, round[1..]);
    } else {
      var u :| u in round && Useful(s, u);
      assert u in round[1..] && Useful(next, u);
      RoundGainsGround(probes, next, round[1..]);
    }
  }

  function RunRounds(probes: nat, s: State, rounds: seq<seq<Choice>>): (r: State)
    decreases |rounds|
  {
    if rounds == [] then s else RunRounds(probes, Run(probes, s, rounds[0]), rounds[1..])
  }

  lemma {:induction false} RoundsEnd(probes: nat, s: State, rounds: seq<seq<Choice>>)
    requires Invariant(probes, s)
    requires forall r :: r in rounds ==> IsRound(r)
    requires |rounds| >= Measure(probes, s)
    ensures Ended(RunRounds(probes, s, rounds))
    decreases |rounds|
  {
    if rounds == [] {
      StepProgress(probes, s, if NeedsWriter(s) then WriterSteps else ProberSteps(false));
      var useful := if NeedsWriter(s) then WriterSteps else ProberSteps(false);
      StepKeepsInvariant(probes, s, useful);
      StepProgress(probes, Step(probes, s, useful), useful);
    } else {
      var round := rounds[0];
      RunKeepsInvariant(probes, s, round);
      RunNeverLosesGround(probes, s, round);
      if !Ended(s) {
        assert IsRound(round);
        var w :| w in round && w.WriterSteps?;
        var p :| p in round && p.ProberSteps?;
        assert Useful(s, w) || Useful(s, p);
        RoundGainsGround(probes, s, round);
      } else {
        assert Measure(probes, s) == 0;
      }
      RoundsEnd(probes, Run(probes, s, round), rounds[1..]);
    }
  }

  /** Every schedule that keeps giving both threads a turn ends the race, within `27 * probes + 17` such rounds,
      whether or not a probe panics: a dead prober releases the writer. */
  lemma FairRacesEnd(probes: nat, rounds: seq<seq<Choice>>)
    requires forall r :: r in rounds ==> IsRound(r)
    requires |rounds| >= 27 * probes + 17
    ensures Ended(RunRounds(probes, Init(probes), rounds))
  {
    RoundsEnd(probes, Init(probes), rounds);
  }

  // ----- races without a panic -----

  predicate IsCalm(s: State) {
    s.prober != Unwinds && s.prober != Dead
  }

  lemma {:induction false} CalmRun(probes: nat, s: State, choices: seq<Choice>)
    requires IsCalm(s) && forall c :: c in choices ==> c != ProberSteps(true)
    ensures IsCalm(Run(probes, s, choices))
    decreases |choices|
  {
    if choices != [] {
      assert choices[0] in choices;
      assert IsCalm(Step(probes, s, choices[0]));
      assert forall c :: c in choices[1..] ==> c in choices;
      CalmRun(probes, Step(probes, s, choices[0]), choices[1..]);
    }
  }

  lemma {:induction false} CalmRounds(probes: nat, s: State, rounds: seq<seq<Choice>>)
    requires Invariant(probes, s) && IsCalm(s)
    requires forall r, c :: r in rounds && c in r ==> c != ProberSteps(true)
    ensures Invariant(probes, RunRounds(probes, s, rounds)) && IsCalm(RunRounds(probes, s, rounds))
    decreases |rounds|
  {
    if rounds != [] {
      assert rounds[0] in rounds;
      RunKeepsInvariant(probes, s, rounds[0]);
      CalmRun(probes, s, rounds[0]);
      CalmRounds(probes, Run(probes, s, rounds[0]), rounds[1..]);
    }
  }

  /** Unless a probe panics, every fair schedule ends the race normally with an answer for each probe. */
  lemma CalmRacesEndNormally(probes: nat, rounds: seq<seq<Choice>>)
    requires forall r :: r in rounds ==> IsRound(r)
    requires forall r, c :: r in rounds && c in r ==> c != ProberSteps(true)
    requires |rounds| >= 27 * probes + 17
    ensures var end := RunRounds(probes, Init(probes), rounds);
            end.writer == Over && end.recorded == probes
  {
    FairRacesEnd(probes, rounds);
    CalmRounds(probes, Init(probes), rounds);
  }
}
