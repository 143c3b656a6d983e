/** The sensor helper bridge (src/monitor/lhm_bridge.cpp): one poll may restart the helper process, reads what
  * its pipe offers, and counts failures; after five in a row restarts are spaced out. */
module LhmBridge {
  import opened LineReader
  import opened Sequences

  /** Clock ticks (nanoseconds) in a second. */
  const SECOND := 1_000_000_000

  /** What the helper process and its pipe show when they are read. */
  datatype Pipe = Exited | PeekFailed | Readable(chunks: seq<string>)

  /** One poll: the clock when it starts, the clock when a failure would be stamped, whether a start of the
    * helper would succeed, and what the pipe shows. */
  datatype Event = Event(now: int, later: int, starts: bool, pipe: Pipe)

  datatype Result = Success | NoData | Dead

  /** How a poll went: it kept waiting, had no helper to talk to, failed to start one, or read from one. */
  datatype Outcome = Waiting | Unavailable | StartFailed | Read(result: Result)

  datatype State = State(
    available: bool, running: bool, failCount: nat, retry: int, lastFail: int, buffer: string)

  const INITIAL := State(false, false, 0, 0, 0, "")

  function RetryInterval(failCount: nat): int {
    if failCount >= 20 then 120 else if failCount >= 10 then 60 else if failCount >= 5 then 30 else 0
  }

  function Elapsed(since: int, now: int): int {
    (now - since) / SECOND
  }

  function DropReturn(line: string): string {
    if line != "" && line[|line| - 1] == '\r' then line[..|line| - 1] else line
  }

  /** A line end of carriage return and line feed counts as a line feed; nothing else is cut off. */
  lemma ReturnDropped(line: string)
    ensures DropReturn(line + "\r") == line
    ensures DropReturn(line) != line ==> DropReturn(line) + "\r" == line
  {
  }

  // ---- What one poll does --------------------------------------------------------------------------------

  /** Whether a poll tries to start the helper: after the waiting time when failures have piled up, otherwise
    * when the helper has died. */
  ghost predicate Restarts(s: State, e: Event) {
    if s.failCount >= 5 then Elapsed(s.lastFail, e.now) >= s.retry else s.available && !s.running
  }

  /** The state a successful or failed start leaves behind; either way the buffer is empty. */
  ghost function Started(s: State, e: Event): State {
    s.(running := e.starts, buffer := "", available := if s.failCount >= 5 && e.starts then true else s.available)
  }

  /** A failure is counted and stamped; from the fifth on the bridge is unavailable. */
  ghost function Failed(s: State, e: Event): State {
    s.(failCount := s.failCount + 1, lastFail := e.later, retry := RetryInterval(s.failCount + 1),
       available := s.available && s.failCount + 1 < 5)
  }

  /** The pipe yields a reading when the last line completed by this drain is nonempty and usable. */
  ghost function ReadResult(s: State, pipe: Pipe, usable: string -> bool): Result {
    match pipe
    case Exited => Dead
    case PeekFailed => Dead
    case Readable(chunks) =>
      var line := LastLine(Lines(s.buffer + Received(chunks)));
      if Received(chunks) != "" && line != "" && usable(DropReturn(line)) then Success else NoData
  }

  ghost function Drained(s: State, pipe: Pipe): State {
    match pipe
    case Exited => s.(running := false)
    case PeekFailed => s
    case Readable(chunks) =>
      if Received(chunks) == "" then s else s.(buffer := Rest(s.buffer + Received(chunks)))
  }

  ghost function AfterRead(s: State, e: Event, usable: string -> bool): State {
    match ReadResult(s, e.pipe, usable)
    case Success => Drained(s, e.pipe).(failCount := 0, retry := 0, available := true)
    case NoData => Drained(s, e.pipe)
    case Dead => Failed(Drained(s, e.pipe), e)
  }

  ghost function OutcomeOf(s: State, e: Event, usable: string -> bool): Outcome {
    if s.failCount >= 5 && !Restarts(s, e) then Waiting
    else if s.failCount < 5 && !s.available then Unavailable
    else if Restarts(s, e) && !e.starts then StartFailed
    else Read(ReadResult(if Restarts(s, e) then Started(s, e) else s, e.pipe, usable))
  }

  ghost function Next(s: State, e: Event, usable: string -> bool): State {
    match OutcomeOf(s, e, usable)
    case Waiting => s
    case Unavailable => s
    case StartFailed =>
      if s.failCount >= 5 then Failed(Started(s, e), e).(available := s.available) else Failed(Started(s, e), e)
    case Read(_) => AfterRead(if Restarts(s, e) then Started(s, e) else s, e, usable)
  }

  /** What a request to start the helper for the first time leaves behind. */
  ghost function Initialized(s: State, found: bool, starts: bool): State {
    if s.available || s.running then s
    else if found then s.(available := starts, running := starts, buffer := "")
    else s.(available := false)
  }

  // ---- Whole runs ----------------------------------------------------------------------------------------

  ghost function Run(s: State, es: seq<Event>, usable: string -> bool): State {
    if es == [] then s else Next(Run(s, es[..|es| - 1], usable), es[|es| - 1], usable)
  }

  /** The clock never runs backwards. */
  ghost predicate Timed(es: seq<Event>) {
    && (forall i :: 0 <= i < |es| ==> es[i].now <= es[i].later)
    && (forall i, j :: 0 <= i < j < |es| ==> es[i].later <= es[j].now)
  }

  /** How each poll of a run went. */
  ghost function Outcomes(s: State, es: seq<Event>, usable: string -> bool): (os: seq<Outcome>)
    ensures |os| == |es|
  {
    if es == [] then [] else
      Outcomes(s, es[..|es| - 1], usable) +
      [OutcomeOf(Run(s, es[..|es| - 1], usable), es[|es| - 1], usable)]
  }

  predicate IsFailure(o: Outcome) {
    o == StartFailed || o == Read(Dead)
  }

  /** The failures since the last poll that delivered a reading. */
  ghost function FailuresSinceSuccess(os: seq<Outcome>): nat {
    if os == [] || os[|os| - 1] == Read(Success) then 0
    else FailuresSinceSuccess(os[..|os| - 1]) + if IsFailure(os[|os| - 1]) then 1 else 0
  }

  /** When the most recent failure was stamped. */
  ghost function LastFailure(os: seq<Outcome>, es: seq<Event>): int
    requires |os| == |es|
  {
    if os == [] then 0
    else if IsFailure(os[|os| - 1]) then es[|es| - 1].later
    else LastFailure(os[..|os| - 1], es[..|es| - 1])
  }

  ghost predicate RetryMatches(s: State) {
    s.retry == RetryInterval(s.failCount)
  }

  /** A bridge that has been started: failures below five leave it available. */
  ghost predicate Active(s: State) {
    RetryMatches(s) && (s.failCount < 5 ==> s.available)
  }

  lemma StepKeepsActive(s: State, e: Event, usable: string -> bool)
    requires Active(s)
    ensures Active(Next(s, e, usable))
  {
    hide Lines, Rest, Received, LastLine;
  }

  /** What one poll does to the failure count and to the stamp follows from how it went. */
  lemma StepCounts(s: State, e: Event, usable: string -> bool)
    ensures var o := OutcomeOf(s, e, usable);
      && Next(s, e, usable).failCount == (if o == Read(Success) then 0 else s.failCount + if IsFailure(o) then 1 else 0)
      && Next(s, e, usable).lastFail == (if IsFailure(o) then e.later else s.lastFail)
  {
    hide Lines, Rest, Received, LastLine;
  }

  /** In every run the stored waiting time is the one computed from the failure count, the failure count is the
    * number of failures since the last reading, and the stamp is the time of the last failure. */
  lemma {:induction false} RunMatchesHistory(s: State, es: seq<Event>, usable: string -> bool)
    requires Active(s) && s.failCount == 0 && s.lastFail == 0
    ensures Active(Run(s, es, usable))
    ensures Run(s, es, usable).failCount == FailuresSinceSuccess(Outcomes(s, es, usable))
    ensures Run(s, es, usable).lastFail == LastFailure(Outcomes(s, es, usable), es)
  {
    if es == [] {
    } else {
      hide Next, OutcomeOf, RetryInterval;
      var n := |es| - 1;
      RunMatchesHistory(s, es[..n], usable);
      var before, os := Run(s, es[..n], usable), Outcomes(s, es, usable);
      StepKeepsActive(before, es[n], usable);
      StepCounts(before, es[n], usable);
      assert os[..n] == Outcomes(s, es[..n], usable);
    }
  }

  /** Once five failures have piled up no poll touches the helper before the waiting time since the last of them
    * is over, and that time is thirty, sixty or a hundred and twenty seconds. */
  lemma NoEarlyRestart(s: State, es: seq<Event>, e: Event, usable: string -> bool)
    requires Active(s) && s.failCount == 0 && s.lastFail == 0
    requires FailuresSinceSuccess(Outcomes(s, es, usable)) >= 5
    ensures OutcomeOf(Run(s, es, usable), e, usable) != Waiting <==>
      Elapsed(LastFailure(Outcomes(s, es, usable), es), e.now) >=
        RetryInterval(FailuresSinceSuccess(Outcomes(s, es, usable)))
    ensures Restarts(Run(s, es, usable), e) <==> OutcomeOf(Run(s, es, usable), e, usable) != Waiting
  {
    RunMatchesHistory(s, es, usable);
  }

  /** The bridge never gives up: two minutes after the last failure a poll always reads or starts the helper. */
  lemma {:induction false} NeverGivesUp(s: State, es: seq<Event>, e: Event, usable: string -> bool)
    requires Active(s) && s.failCount == 0 && s.lastFail == 0
    requires e.now - Run(s, es, usable).lastFail >= 120 * SECOND
    ensures OutcomeOf(Run(s, es, usable), e, usable) != Waiting
    ensures OutcomeOf(Run(s, es, usable), e, usable) != Unavailable
  {
    RunMatchesHistory(s, es, usable);
  }

  /** A bridge without a failure so far is unavailable in every poll of every run if its first start failed, and never
    * otherwise; in the first case the polls change nothing, so nothing but a new start request helps. */
  lemma {:induction false} UnavailableExactly(s: State, es: seq<Event>, usable: string -> bool)
    requires RetryMatches(s) && s.failCount == 0
    ensures !s.available ==> Run(s, es, usable) == s
    ensures forall i :: 0 <= i < |es| ==> (Outcomes(s, es, usable)[i] == Unavailable <==> !s.available)
    ensures s.available ==> Active(Run(s, es, usable))
  {
    if es == [] {
    } else {
      hide Next, OutcomeOf, RetryMatches, Active;
      var n := |es| - 1;
      UnavailableExactly(s, es[..n], usable);
      var before, os := Run(s, es[..n], usable), Outcomes(s, es[..n], usable);
      UnavailableStep(before, es[n], usable);
      assert Outcomes(s, es, usable) == os + [OutcomeOf(before, es[n], usable)];
      assert !s.available ==> before == s;
    }
  }

  /** One poll of a bridge that was never started changes nothing; one of a started bridge finds it available. */
  lemma UnavailableStep(s: State, e: Event, usable: string -> bool)
    ensures s.failCount == 0 && !s.available ==> OutcomeOf(s, e, usable) == Unavailable && Next(s, e, usable) == s
    ensures Active(s) ==> OutcomeOf(s, e, usable) != Unavailable && Active(Next(s, e, usable))
  {
    hide Lines, Rest, Received, LastLine;
    if Active(s) {
      StepKeepsActive(s, e, usable);
    }
  }

  /** A new bridge whose helper is missing or does not start stays as it is, whatever is polled afterwards. */
  lemma FirstStartDecides(found: bool, starts: bool, es: seq<Event>, usable: string -> bool)
    ensures var s := Initialized(INITIAL, found, starts);
      && (!(found && starts) ==> Run(s, es, usable) == INITIAL)
      && forall i :: 0 <= i < |es| ==> (Outcomes(s, es, usable)[i] == Unavailable <==> !(found && starts))
  {
    hide Run, Outcomes;
    UnavailableExactly(Initialized(INITIAL, found, starts), es, usable);
  }

  /** Whole seconds are counted: as many have passed as fit into the time. */
  lemma ElapsedExactly(since: int, now: int, seconds: int)
    ensures Elapsed(since, now) >= seconds <==> now >= since + seconds * SECOND
  {
  }

  /** The waiting times: after the fifth to the ninth failure in a row a poll acts from thirty seconds on, up to the
    * nineteenth from sixty seconds on, and then from two minutes on; below five failures it never waits. */
  lemma WaitsExactly(s: State, es: seq<Event>, e: Event, usable: string -> bool)
    requires Active(s) && s.failCount == 0 && s.lastFail == 0
    ensures var os := Outcomes(s, es, usable);
      var failures, since := FailuresSinceSuccess(os), LastFailure(os, es);
      OutcomeOf(Run(s, es, usable), e, usable) == Waiting <==>
        ((5 <= failures <= 9 && e.now < since + 30_000_000_000)
         || (10 <= failures <= 19 && e.now < since + 60_000_000_000)
         || (20 <= failures && e.now < since + 120_000_000_000))
  {
    hide Lines, Rest, Received, LastLine, Run, Outcomes, FailuresSinceSuccess, LastFailure, Elapsed, ReadResult;
    RunMatchesHistory(s, es, usable);
    var since := LastFailure(Outcomes(s, es, usable), es);
    ElapsedExactly(since, e.now, 30);
    ElapsedExactly(since, e.now, 60);
    ElapsedExactly(since, e.now, 120);
  }

  /** With fewer than five failures an available bridge starts a helper that is not running at once and leaves a running
    * one alone; a failed start, a helper that has exited and a pipe that cannot be read are the failures. */
  lemma PollBeforeBackoff(s: State, e: Event, usable: string -> bool)
    requires s.available && s.failCount < 5
    ensures Next(s, e, usable).running <==> (s.running || e.starts) && e.pipe != Exited
    ensures OutcomeOf(s, e, usable) == StartFailed <==> !s.running && !e.starts
    ensures OutcomeOf(s, e, usable) == Read(Dead) <==> (s.running || e.starts) && !e.pipe.Readable?
    ensures IsFailure(OutcomeOf(s, e, usable)) ==> Next(s, e, usable).failCount == s.failCount + 1
  {
    hide Lines, Rest, Received, LastLine, Elapsed;
  }

  /** When the waiting time is over the helper is always started anew. */
  lemma PollAfterBackoff(s: State, e: Event, usable: string -> bool)
    requires s.failCount >= 5 && RetryMatches(s)
    ensures var waits := e.now < s.lastFail + RetryInterval(s.failCount) * SECOND;
      && (waits ==> Next(s, e, usable) == s)
      && (!waits ==> (Next(s, e, usable).running <==> e.starts && e.pipe != Exited))
      && (OutcomeOf(s, e, usable) == StartFailed <==> !waits && !e.starts)
      && (OutcomeOf(s, e, usable) == Read(Dead) <==> !waits && e.starts && !e.pipe.Readable?)
  {
    hide Lines, Rest, Received, LastLine, Elapsed, RetryInterval;
    ElapsedExactly(s.lastFail, e.now, RetryInterval(s.failCount));
  }

  /** The least time, in seconds, between the fifth failure and the given one. */
  function TotalBackoff(failures: nat): nat {
    if failures <= 5 then 0 else TotalBackoff(failures - 1) + RetryInterval(failures - 1)
  }

  /** In all: five waits of thirty seconds, ten of a minute, then two minutes each. */
  lemma {:induction false} BackoffSum(failures: nat)
    ensures 5 <= failures <= 10 ==> TotalBackoff(failures) == 30 * (failures - 5)
    ensures 10 <= failures <= 20 ==> TotalBackoff(failures) == 150 + 60 * (failures - 10)
    ensures failures >= 20 ==> TotalBackoff(failures) == 750 + 120 * (failures - 20)
  {
    if failures > 5 {
      BackoffSum(failures - 1);
    }
  }

  /** As long as no reading arrives, the failures after the fifth take at least the sum of the waiting times. */
  lemma {:induction false} FailuresAreSpacedOut(s: State, es: seq<Event>, usable: string -> bool)
    requires RetryMatches(s) && s.failCount >= 5 && Timed(es)
    requires es != [] ==> s.lastFail <= es[0].now
    requires Read(Success) !in Outcomes(s, es, usable)
    ensures Run(s, es, usable).failCount >= s.failCount && RetryMatches(Run(s, es, usable))
    ensures Run(s, es, usable).lastFail - s.lastFail >=
      (TotalBackoff(Run(s, es, usable).failCount) - TotalBackoff(s.failCount)) * SECOND
  {
    if es == [] {
    } else {
      hide Lines, Rest, Received, LastLine, Timed;
      var n := |es| - 1;
      var before := Run(s, es[..n], usable);
      TimedPrefix(es);
      assert Outcomes(s, es, usable) == Outcomes(s, es[..n], usable) + [OutcomeOf(before, es[n], usable)];
      FailuresAreSpacedOut(s, es[..n], usable);
      SpacedStep(before, es[n], usable);
    }
  }

  lemma TimedPrefix(es: seq<Event>)
    requires Timed(es) && es != []
    ensures Timed(es[..|es| - 1]) && es[|es| - 1].now <= es[|es| - 1].later
  {
  }

  /** A failing poll in the waiting phase comes at least the waiting time after the previous failure. */
  lemma SpacedStep(s: State, e: Event, usable: string -> bool)
    requires RetryMatches(s) && s.failCount >= 5 && e.now <= e.later
    requires OutcomeOf(s, e, usable) != Read(Success)
    ensures Next(s, e, usable).failCount >= s.failCount && RetryMatches(Next(s, e, usable))
    ensures Next(s, e, usable).lastFail - s.lastFail >=
      (TotalBackoff(Next(s, e, usable).failCount) - TotalBackoff(s.failCount)) * SECOND
  {
    hide Lines, Rest, Received, LastLine;
    if IsFailure(OutcomeOf(s, e, usable)) {
      assert Next(s, e, usable).failCount == s.failCount + 1 && Next(s, e, usable).lastFail == e.later;
      assert (e.now - s.lastFail) / SECOND >= s.retry;
    }
  }

  /** A restart that succeeds but does not yet deliver a reading is undone by the next poll, which starts the
    * helper again; this happens exactly when the first read finds no usable line. */
  lemma RestartsAgainExactly(s: State, e: Event, next: Event, usable: string -> bool)
    requires s.failCount >= 5 && Restarts(s, e) && e.starts && e.pipe.Readable? && e.now <= next.now
    ensures Restarts(Next(s, e, usable), next) <==> ReadResult(Started(s, e), e.pipe, usable) == NoData
  {
    hide Lines, Rest, Received, LastLine;
  }

  const DIES := Event(0, 0, true, Exited)

  lemma DyingStep(s: State, usable: string -> bool)
    requires s.available && s.failCount < 5 && s.buffer == ""
    ensures Next(s, DIES, usable) ==
      State(s.failCount + 1 < 5, false, s.failCount + 1, RetryInterval(s.failCount + 1), 0, "")
  {
    hide Lines, Rest, LastLine, Received, Elapsed, RetryInterval;
  }

  /** Polls that each find that the helper has exited. */
  function Deaths(count: nat): (es: seq<Event>)
    ensures |es| == count && forall i :: 0 <= i < count ==> es[i] == DIES
  {
    seq(count, _ => DIES)
  }

  /** A helper that always dies at once puts a freshly started bridge into the waiting phase after five polls. */
  lemma {:induction false} DyingHelper(count: nat, usable: string -> bool)
    requires count <= 5
    ensures Run(Initialized(INITIAL, true, true), Deaths(count), usable) ==
      State(count < 5, count == 0, count, RetryInterval(count), 0, "")
  {
    hide Next, Deaths;
    if count > 0 {
      DyingHelper(count - 1, usable);
      assert Deaths(count)[..count - 1] == Deaths(count - 1);
      DyingStep(Run(Initialized(INITIAL, true, true), Deaths(count - 1), usable), usable);
    }
  }

  /** For example: the helper of a freshly started bridge dies five times; a start thirty seconds later succeeds, the
    * pipe is still empty, and the poll a second after that starts the helper once more. */
  lemma RestartedTwice(usable: string -> bool)
    ensures var e := Event(30 * SECOND, 30 * SECOND, true, Readable([]));
      var next := Event(31 * SECOND, 31 * SECOND, true, Readable([]));
      var s := Run(Initialized(INITIAL, true, true), Deaths(5), usable);
      Restarts(s, e) && Next(s, e, usable).running && Restarts(Next(s, e, usable), next)
  {
    hide Lines, Rest, LastLine, Run, Deaths;
    DyingHelper(5, usable);
    var s, e := State(false, false, 5, 30, 0, ""), Event(30 * SECOND, 30 * SECOND, true, Readable([]));
    assert Elapsed(0, 30 * SECOND) == 30 && Elapsed(0, 31 * SECOND) == 31;
    assert ReadResult(Started(s, e), e.pipe, usable) == NoData;
  }

  lemma OneChunk(chunk: string)
    ensures Received([chunk]) == chunk
  {
    assert [chunk][1..] == [] && Received([]) == "";
  }

  /** A drain of one nonempty chunk into an empty buffer. */
  lemma OneDrain(s: State, text: string, usable: string -> bool)
    requires s.buffer == "" && text != ""
    ensures var line := LastLine(Lines(text));
      ReadResult(s, Readable([text]), usable) == if line != "" && usable(DropReturn(line)) then Success else NoData
  {
    hide Lines, LastLine, DropReturn, Received;
    OneChunk(text);
    assert "" + text == text;
  }

  /** An empty line after a line with a reading hides the reading: the drain delivers nothing. */
  lemma EmptyLineHidesReading(s: State, line: string, usable: string -> bool)
    requires s.buffer == "" && line != "" && '\n' !in line && usable(DropReturn(line))
    ensures ReadResult(s, Readable([line + "\n"]), usable) == Success
    ensures line in Lines(line + "\n" + "\n")
    ensures ReadResult(s, Readable([line + "\n" + "\n"]), usable) == NoData
  {
    hide Lines, Rest, ReadResult, DropReturn;
    var text := line + "\n";
    OneLine(line);
    SplitSnoc(text, '\n');
    OneDrain(s, text, usable);
    OneDrain(s, text + "\n", usable);
  }

  // ---- What the buffer holds -----------------------------------------------------------------------------

  /** What a poll adds to the stream; an attempt to start the helper begins a new one. */
  ghost function StreamStep(s: State, e: Event, stream: string, usable: string -> bool): string {
    var kept := if Restarts(s, e) then "" else stream;
    if OutcomeOf(s, e, usable).Read? && e.pipe.Readable? then kept + Received(e.pipe.chunks) else kept
  }

  /** Everything the pipe delivered since the helper was last started. */
  ghost function StreamSinceStart(s: State, es: seq<Event>, usable: string -> bool): string {
    if es == [] then s.buffer else
      var n := |es| - 1;
      StreamStep(Run(s, es[..n], usable), es[n], StreamSinceStart(s, es[..n], usable), usable)
  }

  lemma BufferStep(s: State, e: Event, stream: string, usable: string -> bool)
    requires s.buffer == Rest(stream)
    ensures Next(s, e, usable).buffer == Rest(StreamStep(s, e, stream, usable))
  {
    hide Lines, Rest, Received, LastLine;
    NoNewline("");
    if e.pipe.Readable? {
      var kept := if Restarts(s, e) then "" else stream;
      SplitAppend(kept, Received(e.pipe.chunks));
      assert Received(e.pipe.chunks) == "" ==> kept + Received(e.pipe.chunks) == kept;
    }
  }

  /** In every run, however the pipe was read, the buffer is the text after the last newline of the stream. */
  lemma {:induction false} BufferHoldsRest(s: State, es: seq<Event>, usable: string -> bool)
    requires s.buffer == ""
    ensures Run(s, es, usable).buffer == Rest(StreamSinceStart(s, es, usable))
  {
    if es != [] {
      hide Lines, Rest, Received, LastLine, Next, StreamStep;
      var n := |es| - 1;
      BufferHoldsRest(s, es[..n], usable);
      BufferStep(Run(s, es[..n], usable), es[n], StreamSinceStart(s, es[..n], usable), usable);
    } else {
      NoNewline("");
    }
  }

  /** What a successful read says about the buffer it started from. */
  lemma SuccessMeans(s: State, e: Event, usable: string -> bool)
    requires OutcomeOf(s, e, usable) == Read(Success)
    ensures e.pipe.Readable?
    ensures var line := LastLine(Lines((if Restarts(s, e) then "" else s.buffer) + Received(e.pipe.chunks)));
      line != "" && usable(DropReturn(line))
  {
    hide Lines, Received, LastLine, DropReturn, Elapsed;
  }

  lemma SuccessCompletesLine(s: State, e: Event, stream: string, usable: string -> bool)
    requires s.buffer == Rest(stream) && OutcomeOf(s, e, usable) == Read(Success)
    ensures var before := if Restarts(s, e) then "" else stream;
      var lines := Lines(StreamStep(s, e, stream, usable));
      |lines| > |Lines(before)| && lines[|lines| - 1] != "" && usable(DropReturn(lines[|lines| - 1]))
  {
    hide Lines, Rest, Received, DropReturn, OutcomeOf, Restarts;
    SuccessMeans(s, e, usable);
    NoNewline("");
    SplitAppend(if Restarts(s, e) then "" else stream, Received(e.pipe.chunks));
  }

  /** The reading a poll delivers is the last complete line of the stream, and this poll completed it. */
  lemma ReadingIsLastLine(s: State, es: seq<Event>, e: Event, usable: string -> bool)
    requires s.buffer == ""
    requires OutcomeOf(Run(s, es, usable), e, usable) == Read(Success)
    ensures var before := if Restarts(Run(s, es, usable), e) then "" else StreamSinceStart(s, es, usable);
      var lines := Lines(StreamSinceStart(s, es + [e], usable));
      |lines| > |Lines(before)| && lines[|lines| - 1] != "" && usable(DropReturn(lines[|lines| - 1]))
  {
    hide Lines, Rest, Run, Next, OutcomeOf, StreamStep, Restarts, DropReturn;
    BufferHoldsRest(s, es, usable);
    SuccessCompletesLine(Run(s, es, usable), e, StreamSinceStart(s, es, usable), usable);
    FrontOfSnoc(es, e);
  }

  // ---- The object ----------------------------------------------------------------------------------------

  class LhmBridge {
    var available: bool
    var running: bool
    var failCount: nat
    var retry: int
    var lastFail: int
    const lineBuffer: LineBuffer
    const usable: string -> bool

    ghost function Value(): State
      reads this, lineBuffer
    {
      State(available, running, failCount, retry, lastFail, lineBuffer.text)
    }

    constructor (usable: string -> bool)
      ensures fresh(lineBuffer) && this.usable == usable
      ensures Value() == INITIAL
    {
      available, running, failCount, retry, lastFail := false, false, 0, 0, 0;
      lineBuffer := new LineBuffer();
      this.usable := usable;
    }

    /** Starts the helper once, if it is found; a second call changes nothing. */
    method Initialize(found: bool, starts: bool) returns (ok: bool)
      modifies this, lineBuffer
      ensures ok == Value().available
      ensures Value() == Initialized(old(Value()), found, starts)
    {
      if available || running {
        return available;
      }
      if !found {
        available := false;
        return false;
      }
      available := StartHelper(starts);
      return available;
    }

    method StopHelper()
      modifies this`running, lineBuffer
      ensures Value() == old(Value()).(running := false, buffer := "")
    {
      running := false;
      lineBuffer.Clear();
    }

    method StartHelper(starts: bool) returns (ok: bool)
      modifies this`running, lineBuffer
      ensures ok == starts
      ensures Value() == old(Value()).(running := starts, buffer := "")
    {
      StopHelper();
      running := starts;
      return starts;
    }

    method ReadLatest(pipe: Pipe) returns (result: Result)
      modifies this`running, lineBuffer
      ensures result == ReadResult(old(Value()), pipe, usable)
      ensures Value() == Drained(old(Value()), pipe)
    {
      match pipe
      case Exited =>
        running := false;
        return Dead;
      case PeekFailed =>
        return Dead;
      case Readable(chunks) =>
        var total := lineBuffer.ReadAvailable(chunks);
        if total == 0 {
          assert lineBuffer.text == old(lineBuffer.text);
          return NoData;
        }
        var line := lineBuffer.TakeLastLine();
        if line == "" {
          return NoData;
        }
        if line[|line| - 1] == '\r' {
          line := line[..|line| - 1];
        }
        return if usable(line) then Success else NoData;
    }

    method CountFailure(now: int)
      modifies this`failCount, this`lastFail, this`retry
      ensures failCount == old(failCount) + 1 && lastFail == now && retry == RetryInterval(failCount)
    {
      failCount := failCount + 1;
      lastFail := now;
      retry := RetryInterval(failCount);
    }

    /** The waiting phase: stays put until the time is over, then starts the helper. */
    method RetryAfterBackoff(e: Event) returns (proceed: bool)
      requires failCount >= 5
      modifies this, lineBuffer
      ensures var s := old(Value());
        && proceed == (Restarts(s, e) && e.starts)
        && Value() == if !Restarts(s, e) then s else if e.starts then Started(s, e)
                      else Failed(Started(s, e), e).(available := s.available)
    {
      if Elapsed(lastFail, e.now) < retry {
        return false;
      }
      var ok := StartHelper(e.starts);
      if ok {
        available := true;
      } else {
        CountFailure(e.later);
      }
      return ok;
    }

    /** A helper that has died is started again at once. */
    method RestartIfDead(e: Event) returns (proceed: bool)
      requires available
      modifies this, lineBuffer
      ensures var s := old(Value());
        && proceed == (s.running || e.starts)
        && Value() == if s.running then s
                      else var t := s.(running := e.starts, buffer := ""); if e.starts then t else Failed(t, e)
    {
      if running {
        return true;
      }
      var ok := StartHelper(e.starts);
      if !ok {
        CountFailure(e.later);
        if failCount >= 5 {
          available := false;
        }
      }
      return ok;
    }

    /** The read and what its result does to the failure count. */
    method ReadAndCount(e: Event)
      modifies this, lineBuffer
      ensures Value() == AfterRead(old(Value()), e, usable)
    {
      hide Received, Lines, LastLine, Rest;
      var result := ReadLatest(e.pipe);
      if result == Success {
        failCount, retry, available := 0, 0, true;
      } else if result == Dead {
        CountFailure(e.later);
        if failCount >= 5 {
          available := false;
        }
      }
    }

    method Poll(e: Event)
      requires lastFail <= e.now <= e.later
      modifies this, lineBuffer
      ensures Value() == Next(old(Value()), e, usable)
    {
      hide AfterRead, ReadResult, Elapsed, RetryInterval;
      if failCount >= 5 {
        var proceed := RetryAfterBackoff(e);
        if !proceed {
          return;
        }
      }
      if !available {
        return;
      }
      var proceed := RestartIfDead(e);
      if !proceed {
        return;
      }
      ReadAndCount(e);
    }
  }
}
