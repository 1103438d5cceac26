/**
 The worker: one attempt at a submission, the events it numbers and publishes, and the
 status it leaves; then what a retried submission's log means to its readers.
 */
module ExecutionProcessor {
  import opened Events
  import opened StreamRoute
  import opened SseText
  import opened Reconnect
  import LiveSessions
  import StreamProtocol

  datatype Status = Queued | Running | Completed | Failed

  /** What the execution service answered, if it did. */
  datatype Response =
    | Answer(timedOut: bool, exitCode: int, stdout: string, stderr: string)
    | RetryableError
    | OtherError

  datatype Code = Missing | TooLarge | Present

  datatype BenchmarkOutcome = Results | NoResults | Throws

  /** Everything the attempt learns from outside: `criteria` says that evaluating them succeeded on at least one. */
  datatype Job = Job(code: Code, response: Response, benchmarks: seq<BenchmarkOutcome>, criteria: bool)

  /** An event before it is numbered. Only program output is kept as a body; fixed messages are left empty. */
  datatype Payload = Payload(kind: Kind, body: string)

  const PREPARING := Payload(Output, "")

  /** Events numbered from 1. */
  function Numbered(ps: seq<Payload>): (es: seq<Event>)
    ensures |es| == |ps|
  {
    seq(|ps|, i requires 0 <= i < |ps| => Sequenced(i + 1, ps[i].kind, ps[i].body))
  }

  function CriteriaPart(job: Job): seq<Payload> {
    if job.criteria then [Payload(CriteriaResults, "")] else []
  }

  function OneBenchmark(b: BenchmarkOutcome): seq<Payload> {
    [Payload(BenchmarkProgress, "")] + if b.Results? then [Payload(BenchmarkResult, "")] else []
  }

  function BenchmarkPart(bs: seq<BenchmarkOutcome>): seq<Payload> {
    if bs == [] then []
    else OneBenchmark(bs[0]) + if bs[0].Throws? then [] else BenchmarkPart(bs[1..])
  }

  /** The program's output or its failure. */
  function ResultPart(job: Job): seq<Payload>
    requires job.response.Answer?
  {
    if job.response.exitCode == 2 then [Payload(CompileError, job.response.stderr)]
    else if job.response.exitCode == 0 then [Payload(Output, job.response.stdout)] + BenchmarkPart(job.benchmarks)
    else [Payload(Error, job.response.stderr)]
  }

  /** What an attempt publishes after its preparing event. */
  function Followers(job: Job): seq<Payload> {
    match job.code
    case TooLarge => [Payload(Error, "")]
    case Missing => []
    case Present =>
      match job.response
      case RetryableError => []
      case OtherError => [Payload(Error, "")]
      case Answer(timedOut, exitCode, stdout, stderr) =>
        if timedOut then CriteriaPart(job) + [Payload(Timeout, "")]
        else ResultPart(job) + CriteriaPart(job) + if exitCode == 0 then [Payload(Complete, "")] else []
  }

  function AttemptEvents(job: Job): seq<Event> { Numbered([PREPARING] + Followers(job)) }

  predicate Rethrown(job: Job) { job.code.Present? && job.response.RetryableError? }

  predicate Succeeded(job: Job) {
    job.code.Present? && job.response.Answer? && !job.response.timedOut && job.response.exitCode == 0
  }

  lemma BenchmarkStep(done: seq<Payload>, bs: seq<BenchmarkOutcome>)
    requires bs != []
    ensures done + BenchmarkPart(bs) ==
            done + OneBenchmark(bs[0]) + if bs[0].Throws? then [] else BenchmarkPart(bs[1..])
  {
  }

  // ---------- Publishing ----------

  /**
   A publisher, and what it has sent: a message on the channel, then an entry at the end of
   the log. Both are issued before either is awaited, so other commands may fall between the
   two; the submit route has a publisher of its own.
   */
  class EventPublisher {
    var channel: seq<Event>
    var log: seq<Event>
    ghost var commands: seq<StreamProtocol.Action>  // in the order issued

    /** Everything went to both, in the same order, and to the channel first. */
    ghost predicate Valid()
      reads this
    {
      channel == log && commands == StreamProtocol.Commands(log)
    }

    constructor ()
      ensures Valid() && log == []
    {
      channel, log, commands := [], [], [];
    }

    method Publish(event: Event)
      requires Valid()
      modifies this
      ensures Valid() && log == old(log) + [event]
      ensures commands == old(commands) + [StreamProtocol.Publish(event), StreamProtocol.Push(event)]
    {
      StreamProtocol.CommandsConcat(log, [event]);
      channel := channel + [event];
      commands := commands + [StreamProtocol.Publish(event)];
      log := log + [event];
      commands := commands + [StreamProtocol.Push(event)];
    }
  }

  /** The status an attempt leaves. */
  function Outcome(job: Job): Status {
    if Rethrown(job) then Status.Queued else if Succeeded(job) then Completed else Failed
  }

  /** The values an attempt gives the status: running, only if it found it queued, and its final one. */
  function StatusesOf(found: Status, job: Job): seq<Status> {
    (if found == Status.Queued then [Running] else []) + [Outcome(job)]
  }

  class Processor {
    const publisher: EventPublisher
    var status: Status
    ghost var statuses: seq<Status>  // the status from the start on, each time it is set
    var sequenceId: nat

    constructor (publisher: EventPublisher)
      ensures this.publisher == publisher && status == Status.Queued && statuses == [status]
    {
      this.publisher := publisher;
      status, statuses := Status.Queued, [Status.Queued];
      sequenceId := 1;
    }

    /** Since the log was `log0`, this attempt has published exactly `ps`, numbered from 1. */
    ghost predicate Published(log0: seq<Event>, ps: seq<Payload>)
      reads this, publisher
    {
      publisher.Valid() && publisher.log == log0 + Numbered(ps) && sequenceId == |ps| + 1
    }

    method SetStatus(s: Status)
      modifies this`status, this`statuses
      ensures status == s && statuses == old(statuses) + [s]
    {
      status := s;
      statuses := statuses + [s];
    }

    method Emit(kind: Kind, body: string, ghost log0: seq<Event>, ghost ps: seq<Payload>)
      requires Published(log0, ps)
      modifies this`sequenceId, publisher
      ensures Published(log0, ps + [Payload(kind, body)])
    {
      publisher.Publish(Sequenced(sequenceId, kind, body));
      sequenceId := sequenceId + 1;
      assert Numbered(ps + [Payload(kind, body)]) == Numbered(ps) + [Sequenced(|ps| + 1, kind, body)];
    }

    method EvaluateAndPublishCriteria(job: Job, ghost log0: seq<Event>, ghost ps: seq<Payload>)
      requires Published(log0, ps)
      modifies this`sequenceId, publisher
      ensures Published(log0, ps + CriteriaPart(job))
    {
      if job.criteria {
        Emit(CriteriaResults, "", log0, ps);
      } else {
        assert ps + [] == ps;
      }
    }

    /** The benchmark loop; an exception ends it and is only logged. */
    method RunBenchmarks(benchmarks: seq<BenchmarkOutcome>, ghost log0: seq<Event>, ghost ps: seq<Payload>)
      requires Published(log0, ps)
      modifies this`sequenceId, publisher
      ensures Published(log0, ps + BenchmarkPart(benchmarks))
    {
      ghost var done := ps;
      for i := 0 to |benchmarks|
        invariant Published(log0, done)
        invariant done + BenchmarkPart(benchmarks[i..]) == ps + BenchmarkPart(benchmarks)
      {
        BenchmarkStep(done, benchmarks[i..]);
        assert benchmarks[i..][1..] == benchmarks[i + 1..];
        RunBenchmark(benchmarks[i], log0, done);
        done := done + OneBenchmark(benchmarks[i]);
        if benchmarks[i] == Throws { return; }
      }
      assert done + [] == done;
    }

    method RunBenchmark(outcome: BenchmarkOutcome, ghost log0: seq<Event>, ghost ps: seq<Payload>)
      requires Published(log0, ps)
      modifies this`sequenceId, publisher
      ensures Published(log0, ps + OneBenchmark(outcome))
    {
      Emit(BenchmarkProgress, "", log0, ps);
      ghost var progress := [Payload(BenchmarkProgress, "")];
      if outcome == Results {
        Emit(BenchmarkResult, "", log0, ps + progress);
        assert ps + progress + [Payload(BenchmarkResult, "")] == ps + OneBenchmark(outcome);
      } else {
        assert OneBenchmark(outcome) == progress;
      }
    }

    /** One attempt: every path sets a final status, or puts the submission back and rethrows. */
    method Process(job: Job) returns (rethrown: bool)
      requires publisher.Valid()
      modifies this, publisher
      ensures publisher.Valid()
      ensures publisher.log == old(publisher.log) + AttemptEvents(job)
      ensures rethrown == Rethrown(job)
      ensures status == if Rethrown(job) then Status.Queued else if Succeeded(job) then Completed else Failed
      ensures statuses == old(statuses) + StatusesOf(old(status), job)
    {
      ghost var log0 := publisher.log;
      sequenceId := 1;
      if status == Status.Queued { SetStatus(Running); }
      assert publisher.log == log0 + Numbered([]);
      Emit(PREPARING.kind, PREPARING.body, log0, []);
      assert [] + [PREPARING] == [PREPARING];
      rethrown := Settle(job, log0);
    }

    /** Everything behind the preparing event. */
    method Settle(job: Job, ghost log0: seq<Event>) returns (rethrown: bool)
      requires Published(log0, [PREPARING])
      modifies this, publisher
      ensures publisher.Valid() && publisher.log == log0 + AttemptEvents(job)
      ensures rethrown == Rethrown(job)
      ensures status == Outcome(job) && statuses == old(statuses) + [Outcome(job)]
    {
      assert [PREPARING] == [PREPARING] + [];
      if job.code == TooLarge {
        Emit(Error, "", log0, [PREPARING]);
        SetStatus(Failed);
        return false;
      }
      if job.code == Missing {
        SetStatus(Failed);
        return false;
      }
      match job.response {
        case RetryableError =>
          SetStatus(Status.Queued);
          return true;
        case OtherError =>
          Emit(Error, "", log0, [PREPARING]);
          SetStatus(Failed);
          return false;
        case Answer(_, _, _, _) =>
          Report(job, log0);
          SetStatus(if Succeeded(job) then Completed else Failed);
          return false;
      }
    }

    /** What is published once the service has answered. */
    method Report(job: Job, ghost log0: seq<Event>)
      requires job.code.Present? && job.response.Answer? && Published(log0, [PREPARING])
      modifies this`sequenceId, publisher
      ensures publisher.Valid() && publisher.log == log0 + AttemptEvents(job)
    {
      var response := job.response;
      ghost var ps := [PREPARING];
      if response.timedOut {
        EvaluateAndPublishCriteria(job, log0, ps);
        Emit(Timeout, "", log0, ps + CriteriaPart(job));
        assert ps + CriteriaPart(job) + [Payload(Timeout, "")] == ps + Followers(job);
        return;
      }
      ReportResult(job, log0);
      ps := ps + ResultPart(job);
      EvaluateAndPublishCriteria(job, log0, ps);
      ps := ps + CriteriaPart(job);
      if response.exitCode == 0 {
        Emit(Complete, "", log0, ps);
        ps := ps + [Payload(Complete, "")];
      }
      assert ps == [PREPARING] + Followers(job);
    }

    method ReportResult(job: Job, ghost log0: seq<Event>)
      requires job.response.Answer? && Published(log0, [PREPARING])
      modifies this`sequenceId, publisher
      ensures Published(log0, [PREPARING] + ResultPart(job))
    {
      var response := job.response;
      var isCompilationError := response.exitCode == 2;
      var isSuccess := response.exitCode == 0;
      ghost var ps := [PREPARING];
      if isCompilationError {
        Emit(CompileError, response.stderr, log0, ps);
      } else if isSuccess {
        Emit(Output, response.stdout, log0, ps);
        ps := ps + [Payload(Output, response.stdout)];
        RunBenchmarks(job.benchmarks, log0, ps);
        assert ps + BenchmarkPart(job.benchmarks) == [PREPARING] + ResultPart(job);
      } else {
        Emit(Error, response.stderr, log0, ps);
      }
    }
  }

  // ---------- What an attempt's events are ----------

  lemma {:induction false} BenchmarkPartIsQuiet(bs: seq<BenchmarkOutcome>)
    ensures forall p | p in BenchmarkPart(bs) :: !TerminalKind(p.kind)
  {
    if bs != [] { BenchmarkPartIsQuiet(bs[1..]); }
  }

  /** No terminal event follows for these jobs: nothing to run, a compile error, or a retry. */
  predicate EndsSilently(job: Job) {
    || job.code.Missing?
    || (job.code.Present? && job.response.RetryableError?)
    || (job.code.Present? && job.response.Answer? && !job.response.timedOut && job.response.exitCode == 2)
  }

  /** A runtime failure publishes its criteria after the terminal event. */
  predicate CriteriaComeLate(job: Job) {
    && job.code.Present? && job.response.Answer? && !job.response.timedOut
    && job.response.exitCode != 0 && job.response.exitCode != 2 && job.criteria
  }

  /** Where the attempt's terminal event is, or -1: last, unless criteria come after it. */
  function TerminalPosition(job: Job): int {
    if EndsSilently(job) then -1
    else if CriteriaComeLate(job) then 1
    else |Followers(job)|
  }

  lemma FollowersShape(job: Job)
    ensures forall i | 0 <= i < |Followers(job)| ::
              TerminalKind(Followers(job)[i].kind) <==> i + 1 == TerminalPosition(job)
  {
    BenchmarkPartIsQuiet(job.benchmarks);
  }

  /**
   An attempt publishes a terminal event exactly when it does not end silently, and then
   just one; it is the last event unless a runtime failure has criteria to report.
   */
  lemma TerminalEventIff(job: Job)
    ensures -1 <= TerminalPosition(job) < |AttemptEvents(job)|
    ensures forall i | 0 <= i < |AttemptEvents(job)| :: Terminal(AttemptEvents(job)[i]) <==> i == TerminalPosition(job)
  {
    FollowersShape(job);
    var ps := [PREPARING] + Followers(job);
    forall i | 0 <= i < |ps|
      ensures TerminalKind(ps[i].kind) <==> i == TerminalPosition(job)
    {
      if i > 0 { assert ps[i] == Followers(job)[i - 1]; }
    }
  }

  /** The status agrees with the events: completed exactly when completion is published, as the last event. */
  lemma CompletedIffPublished(job: Job)
    ensures Succeeded(job) <==> exists i :: 0 <= i < |AttemptEvents(job)| && AttemptEvents(job)[i].kind == Complete
    ensures Succeeded(job) ==> AttemptEvents(job)[|AttemptEvents(job)| - 1].kind == Complete
  {
    TerminalEventIff(job);
    var es := AttemptEvents(job);
    if Succeeded(job) {
      assert es[|es| - 1].kind == Complete;
    }
    if i :| 0 <= i < |es| && es[i].kind == Complete {
      assert Terminal(es[i]);
    }
  }

  lemma AttemptIncreases(job: Job)
    ensures Increasing(AttemptEvents(job))
    ensures AttemptEvents(job)[0] == Sequenced(1, PREPARING.kind, PREPARING.body)
  {
  }

  // ---------- The status ----------

  /** The status of a submission through any number of attempts. */
  function StatusesThrough(jobs: seq<Job>): (ss: seq<Status>)
    ensures ss != []
  {
    if jobs == [] then [Status.Queued]
    else
      var before := StatusesThrough(jobs[..|jobs| - 1]);
      before + StatusesOf(before[|before| - 1], jobs[|jobs| - 1])
  }

  /**
   Through any attempts, repeated after the submission has ended or not, it is set running
   exactly when it was queued, and is left running by none.
   */
  lemma {:induction false} RunningFollowsQueued(jobs: seq<Job>)
    ensures var ss := StatusesThrough(jobs);
            && (forall i | 0 < i < |ss| :: ss[i] == Running <==> ss[i - 1] == Status.Queued)
            && ss[|ss| - 1] != Running
            && (jobs != [] ==> (ss[|ss| - 1] == Completed <==> Succeeded(jobs[|jobs| - 1])))
  {
    if jobs != [] { RunningFollowsQueued(jobs[..|jobs| - 1]); }
  }

  // ---------- What the events say ----------

  /** The preparing event is there whatever happens, and the ids count from 1. */
  lemma AttemptIsCounted(job: Job)
    ensures AttemptEvents(job)[0] == Sequenced(1, Output, "")
    ensures forall i | 0 <= i < |AttemptEvents(job)| ::
              AttemptEvents(job)[i].Sequenced? && AttemptEvents(job)[i].id == i + 1
  {
  }

  /** Without an answer: an error for code that is too large or a service that failed, otherwise nothing more. */
  lemma UnansweredEvents(job: Job)
    requires job.code.Present? ==> !job.response.Answer?
    ensures if job.code.TooLarge? || (job.code.Present? && job.response.OtherError?)
            then AttemptEvents(job) == [Sequenced(1, Output, ""), Sequenced(2, Error, "")]
            else AttemptEvents(job) == [Sequenced(1, Output, "")]
  {
  }

  /** A time-out is the last thing said, behind the criteria if there are any. */
  lemma TimedOutEvents(job: Job)
    requires job.code.Present? && job.response.Answer? && job.response.timedOut
    ensures AttemptEvents(job) ==
            if job.criteria
            then [Sequenced(1, Output, ""), Sequenced(2, CriteriaResults, ""), Sequenced(3, Timeout, "")]
            else [Sequenced(1, Output, ""), Sequenced(2, Timeout, "")]
  {
  }

  /** What an answer in time is shown as. */
  function AnswerEvent(answer: Response): Event
    requires answer.Answer?
  {
    if answer.exitCode == 0 then Sequenced(2, Output, answer.stdout)
    else if answer.exitCode == 2 then Sequenced(2, CompileError, answer.stderr)
    else Sequenced(2, Error, answer.stderr)
  }

  /** What the program wrote is in the second event: its output if it succeeded, otherwise what it wrote as errors. */
  lemma AnswerIsShown(job: Job)
    requires job.code.Present? && job.response.Answer? && !job.response.timedOut
    ensures var es, answer := AttemptEvents(job), job.response;
            && |es| >= 2
            && es[1] == AnswerEvent(answer)
            && (answer.exitCode != 0 ==> es[2..] == if job.criteria then [Sequenced(3, CriteriaResults, "")] else [])
  {
  }

  /** The benchmark loop ends behind the first exception, or behind the last benchmark. */
  predicate EndsAfter(bs: seq<BenchmarkOutcome>, n: nat) {
    && n <= |bs|
    && (forall i | 0 <= i < n - 1 :: !bs[i].Throws?)
    && (n < |bs| ==> n > 0 && bs[n - 1].Throws?)
  }

  lemma {:induction false} SomewhereItEnds(bs: seq<BenchmarkOutcome>) returns (n: nat)
    ensures EndsAfter(bs, n)
  {
    n := 0;
    if bs != [] && bs[0].Throws? {
      n := 1;
    } else if bs != [] {
      var m := SomewhereItEnds(bs[1..]);
      n := m + 1;
      assert forall i | 0 <= i < |bs| - 1 :: bs[1..][i] == bs[i + 1];
    }
  }

  /** Where benchmark `i` starts, counted from the first progress event: behind the result of each that had one. */
  function Place(bs: seq<BenchmarkOutcome>, i: nat): nat
    requires i <= |bs|
  {
    if i == 0 then 0 else Place(bs, i - 1) + if bs[i - 1].Results? then 2 else 1
  }

  lemma {:induction false} PlaceBehindFirst(bs: seq<BenchmarkOutcome>, i: nat)
    requires bs != [] && i < |bs|
    ensures Place(bs, i + 1) == (if bs[0].Results? then 2 else 1) + Place(bs[1..], i)
  {
    if i > 0 { PlaceBehindFirst(bs, i - 1); }
  }

  /** Benchmark `i` is shown at its place: progress, and behind it the result if it has one. */
  predicate ShownAt(bs: seq<BenchmarkOutcome>, ps: seq<Payload>, i: nat)
    requires i < |bs|
  {
    var p := Place(bs, i);
    && p + (if bs[i].Results? then 2 else 1) <= |ps|
    && ps[p] == Payload(BenchmarkProgress, "")
    && (bs[i].Results? ==> ps[p + 1] == Payload(BenchmarkResult, ""))
  }

  lemma ShownBehindFirst(bs: seq<BenchmarkOutcome>, ps: seq<Payload>, i: nat)
    requires bs != [] && i < |bs| - 1 && ShownAt(bs[1..], ps, i)
    ensures ShownAt(bs, OneBenchmark(bs[0]) + ps, i + 1)
  {
    var first := OneBenchmark(bs[0]);
    assert bs[1..][i] == bs[i + 1];
    PlaceBehindFirst(bs, i);
    assert forall k | 0 <= k < |ps| :: (first + ps)[|first| + k] == ps[k];
  }

  lemma {:induction false} BenchmarkPartShows(bs: seq<BenchmarkOutcome>, n: nat)
    requires EndsAfter(bs, n)
    ensures |BenchmarkPart(bs)| == Place(bs, n)
    ensures forall i | 0 <= i < n :: ShownAt(bs, BenchmarkPart(bs), i)
    decreases n
  {
    if n > 0 {
      var rest := bs[1..];
      PlaceBehindFirst(bs, n - 1);
      if !bs[0].Throws? {
        assert EndsAfter(rest, n - 1) by {
          assert forall i | 0 <= i < |rest| :: rest[i] == bs[i + 1];
        }
        BenchmarkPartShows(rest, n - 1);
        forall i | 0 < i < n ensures ShownAt(bs, BenchmarkPart(bs), i) {
          ShownBehindFirst(bs, BenchmarkPart(rest), i - 1);
        }
      }
    }
  }

  /** In the attempt's events, benchmark `i` is shown `from` events on, with the ids that belong there. */
  predicate LoggedAt(bs: seq<BenchmarkOutcome>, es: seq<Event>, from: nat, i: nat)
    requires i < |bs|
  {
    var p := from + Place(bs, i);
    && p + (if bs[i].Results? then 2 else 1) <= |es|
    && es[p] == Sequenced(p + 1, BenchmarkProgress, "")
    && (bs[i].Results? ==> es[p + 1] == Sequenced(p + 2, BenchmarkResult, ""))
  }

  lemma ShownIsLogged(bs: seq<BenchmarkOutcome>, front: seq<Payload>, part: seq<Payload>, i: nat)
    requires i < |bs| && ShownAt(bs, part, i)
    ensures LoggedAt(bs, Numbered(front + part), |front|, i)
  {
    var ps := front + part;
    var p := Place(bs, i);
    assert ps[|front| + p] == part[p];
    assert bs[i].Results? ==> ps[|front| + p + 1] == part[p + 1];
  }

  lemma SuccessEvents(job: Job)
    requires Succeeded(job)
    ensures AttemptEvents(job) == Numbered([PREPARING, Payload(Output, job.response.stdout)]
                                           + BenchmarkPart(job.benchmarks)
                                           + (CriteriaPart(job) + [Payload(Complete, "")]))
  {
    var out, part := Payload(Output, job.response.stdout), BenchmarkPart(job.benchmarks);
    assert [PREPARING] + ([out] + part + CriteriaPart(job) + [Payload(Complete, "")])
        == [PREPARING, out] + part + (CriteriaPart(job) + [Payload(Complete, "")]);
  }

  /**
   Behind the output of a program that succeeded, every benchmark through the first that
   throws is shown, in order: its progress, then its result exactly if it has one. Then come
   the criteria, if there are any, and completion, and that is all.
   */
  lemma BenchmarksAreShown(job: Job, n: nat)
    requires Succeeded(job) && EndsAfter(job.benchmarks, n)
    ensures var es, end := AttemptEvents(job), 2 + Place(job.benchmarks, n);
            && end < |es|
            && (forall i | 0 <= i < n :: LoggedAt(job.benchmarks, es[..end], 2, i))
            && es[end..] == if job.criteria
                            then [Sequenced(end + 1, CriteriaResults, ""), Sequenced(end + 2, Complete, "")]
                            else [Sequenced(end + 1, Complete, "")]
  {
    BenchmarkPartShows(job.benchmarks, n);
    SuccessParts(job);
    BenchmarksAreLogged(job.benchmarks, [PREPARING, Payload(Output, job.response.stdout)], n);
  }

  lemma BenchmarksAreLogged(bs: seq<BenchmarkOutcome>, front: seq<Payload>, n: nat)
    requires EndsAfter(bs, n)
    ensures forall i | 0 <= i < n :: LoggedAt(bs, Numbered(front + BenchmarkPart(bs)), |front|, i)
  {
    BenchmarkPartShows(bs, n);
    forall i | 0 <= i < n ensures LoggedAt(bs, Numbered(front + BenchmarkPart(bs)), |front|, i) {
      ShownIsLogged(bs, front, BenchmarkPart(bs), i);
    }
  }

  /** The events of a success through its benchmarks, and behind them. */
  lemma SuccessParts(job: Job)
    requires Succeeded(job)
    ensures var es, shown := AttemptEvents(job),
                             [PREPARING, Payload(Output, job.response.stdout)] + BenchmarkPart(job.benchmarks);
            var end := |shown|;
            && end < |es| && es[..end] == Numbered(shown)
            && es[end..] == if job.criteria
                            then [Sequenced(end + 1, CriteriaResults, ""), Sequenced(end + 2, Complete, "")]
                            else [Sequenced(end + 1, Complete, "")]
  {
    SuccessEvents(job);
    NumberedParts([PREPARING, Payload(Output, job.response.stdout)] + BenchmarkPart(job.benchmarks),
                  CriteriaPart(job) + [Payload(Complete, "")]);
  }

  /** Events behind others are numbered on. */
  lemma NumberedParts(a: seq<Payload>, b: seq<Payload>)
    ensures Numbered(a + b)[..|a|] == Numbered(a)
    ensures Numbered(a + b)[|a|..] ==
            seq(|b|, i requires 0 <= i < |b| => Sequenced(|a| + i + 1, b[i].kind, b[i].body))
  {
  }

  // ---------- Retries ----------

  function RetryEvents(retries: seq<Job>): seq<Event> {
    if retries == [] then [] else RetryEvents(retries[..|retries| - 1]) + AttemptEvents(retries[|retries| - 1])
  }

  /**
   A log of rethrown attempts and one that was not. The submit route publishes the queued
   event on its own, so it may lie anywhere among the worker's.
   */
  predicate IsLogOf(log: seq<Event>, retries: seq<Job>, job: Job) {
    && (forall r | r in retries :: Rethrown(r))
    && OnlySequenced(log) == RetryEvents(retries) + AttemptEvents(job)
  }

  /** Each rethrown attempt has published exactly the preparing event, numbered 1. */
  lemma {:induction false} RetriesOnlyPrepare(retries: seq<Job>)
    requires forall r | r in retries :: Rethrown(r)
    ensures RetryEvents(retries) == seq(|retries|, _ => Sequenced(1, PREPARING.kind, PREPARING.body))
  {
    if retries != [] {
      var n := |retries| - 1;
      RetriesOnlyPrepare(retries[..n]);
      assert Rethrown(retries[n]);
      assert AttemptEvents(retries[n]) == [Sequenced(1, PREPARING.kind, PREPARING.body)];
    }
  }

  /** An attempt's events behind repeats of the first. */
  predicate Repeats(p: seq<Event>, es: seq<Event>) {
    && es != [] && Increasing(es) && (forall e | e in es :: e.Sequenced?) && !Terminal(es[0])
    && forall e | e in p :: e == es[0]
  }

  lemma AttemptRepeats(retries: seq<Job>, job: Job)
    requires forall r | r in retries :: Rethrown(r)
    ensures Repeats(RetryEvents(retries), AttemptEvents(job))
    ensures AttemptEvents(job)[0].id == 1 && |RetryEvents(retries)| == |retries|
  {
    RetriesOnlyPrepare(retries);
    AttemptIncreases(job);
  }

  lemma RepeatsStutter(p: seq<Event>, es: seq<Event>)
    requires Repeats(p, es)
    ensures Stutters(p + es)
  {
    var log := p + es;
    forall i | 0 <= i < |log| ensures log[i] == if i < |p| then es[0] else es[i - |p|] {
      if i < |p| { assert p[i] in p; }
    }
  }

  /** Its ids never go down, and what repeats is the same event. */
  lemma LogStutters(log: seq<Event>, retries: seq<Job>, job: Job)
    requires IsLogOf(log, retries, job)
    ensures Stutters(log)
  {
    AttemptRepeats(retries, job);
    RepeatsStutter(RetryEvents(retries), AttemptEvents(job));
    StuttersSequenced(log);
  }

  lemma {:induction false} ReadRepeats(p: seq<Event>, es: seq<Event>)
    requires Repeats(p, es)
    ensures TakeAll(Active(-1, []), p + es) == ReadLog(-1, es)
  {
    var e := es[0];
    var r := Active(e.id, [e]);
    assert [] + [e] == [e];
    assert Take(Active(-1, []), e) == r;
    TakeAllFront(Active(-1, []), es);
    if p == [] {
      assert p + es == es;
    } else {
      assert p[0] in p && p[0] == e;
      TakeAllConcat(Active(-1, []), p, es);
      TakeAllFront(Active(-1, []), p);
      assert forall x | x in p[1..] :: x in p;
      TakeAllIrrelevant(r, p[1..]);
      TakeAllFront(r, es);
    }
  }

  /** Reading a retried log is reading the last attempt alone. */
  lemma ReadRetried(log: seq<Event>, retries: seq<Job>, job: Job)
    requires IsLogOf(log, retries, job)
    ensures ReadLog(-1, log) == ReadLog(-1, AttemptEvents(job))
  {
    AttemptRepeats(retries, job);
    TakeAllSequenced(Active(-1, []), log);
    ReadRepeats(RetryEvents(retries), AttemptEvents(job));
  }

  lemma {:induction false} DistinctSequenced(log: seq<Event>)
    ensures Distinct(OnlySequenced(log)) == Distinct(log) && Highest(OnlySequenced(log)) == Highest(log)
  {
    if log != [] {
      var init, e := log[..|log| - 1], log[|log| - 1];
      assert log == init + [e];
      DistinctSequenced(init);
      HandleOne(init, e);
      if e.Sequenced? {
        HandleOne(OnlySequenced(init), e);
      } else {
        assert OnlySequenced(log) == OnlySequenced(init);
      }
    }
  }

  lemma {:induction false} DistinctOfRepeats(p: seq<Event>, e: Event)
    requires e.Sequenced? && forall x | x in p :: x == e
    ensures Distinct(p + [e]) == [e] && Highest(p + [e]) == e.id
  {
    HandleOne(p, e);
    if p == [] {
      assert p + [e] == [e];
    } else {
      var init := p[..|p| - 1];
      assert p[|p| - 1] in p && p == init + [e];
      assert forall x | x in init :: x in p;
      DistinctOfRepeats(init, e);
    }
  }

  lemma RepeatsInit(p: seq<Event>, es: seq<Event>)
    requires Repeats(p, es) && |es| > 1
    ensures var n := |es| - 1;
            Repeats(p, es[..n]) && es[n].id > es[..n][n - 1].id
  {
    var n := |es| - 1;
    assert es == es[..n] + [es[n]] && es[..n][n - 1] == es[n - 1];
    PrefixIncreases(es[..n], [es[n]]);
  }

  lemma {:induction false} DistinctBehind(p: seq<Event>, es: seq<Event>)
    requires Repeats(p, es)
    ensures Distinct(p + es) == es && Highest(p + es) == es[|es| - 1].id
  {
    var init, e := es[..|es| - 1], es[|es| - 1];
    if init == [] {
      assert es == [e];
      DistinctOfRepeats(p, e);
    } else {
      RepeatsInit(p, es);
      DistinctBehind(p, init);
      assert p + es == (p + init) + [e];
      DistinctGrowsBy(p + init, e);
      assert es == init + [e];
    }
  }

  lemma DistinctGrowsBy(q: seq<Event>, e: Event)
    requires e.Sequenced? && e.id > Highest(q)
    ensures Distinct(q + [e]) == Distinct(q) + [e] && Highest(q + [e]) == e.id
  {
    HandleOne(q, e);
  }

  /** After any number of retries, the log deduplicated by highest id is the last attempt's events. */
  lemma RetriesDeduplicate(log: seq<Event>, retries: seq<Job>, job: Job)
    requires IsLogOf(log, retries, job)
    ensures Distinct(log) == AttemptEvents(job)
  {
    AttemptRepeats(retries, job);
    DistinctSequenced(log);
    DistinctBehind(RetryEvents(retries), AttemptEvents(job));
  }

  // ---------- Retries on the wire ----------

  lemma {:induction false} OwedConcat(a: seq<Event>, b: seq<Event>, lastId: int)
    requires forall e | e in a :: !Terminal(e)
    ensures Owed(a + b, lastId) == Owed(a, lastId) + Owed(b, lastId)
  {
    if a == [] {
      assert a + b == b;
    } else {
      assert (a + b)[1..] == a[1..] + b;
      OwedConcat(a[1..], b, lastId);
    }
  }

  lemma {:induction false} OwedNothing(a: seq<Event>, lastId: int)
    requires forall e | e in a :: !After(e, lastId)
    ensures Owed(a, lastId) == []
  {
    if a != [] {
      OwedNothing(a[1..], lastId);
    }
  }

  lemma OwedFirst(es: seq<Event>, lastId: int)
    requires es != [] && After(es[0], lastId)
    ensures Owed(es, lastId) != [] && Owed(es, lastId)[0] == es[0]
  {
  }

  lemma FirstTwice(a: seq<Event>, b: seq<Event>)
    requires a != [] && b != [] && a[0] == b[0] && a[0].Sequenced?
    ensures !Increasing(a + b)
  {
    assert (a + b)[0] == a[0] && (a + b)[|a|] == b[0];
  }

  lemma OwedRepeats(p: seq<Event>, es: seq<Event>, lastId: int)
    requires Repeats(p, es)
    ensures Increasing(Owed(p + es, lastId)) <==> p == [] || lastId >= es[0].id
  {
    OwedConcat(p, es, lastId);
    OwedIncreases(es, lastId);
    if p == [] || lastId >= es[0].id {
      OwedNothing(p, lastId);
      assert [] + Owed(es, lastId) == Owed(es, lastId);
    } else {
      assert p[0] in p;
      OwedFirst(p, lastId);
      OwedFirst(es, lastId);
      FirstTwice(Owed(p, lastId), Owed(es, lastId));
    }
  }

  /**
   On the live path a retried log's ids go up on the wire if and only if there was no retry
   or id 1 is not asked for.
   */
  lemma RetriesShowOnTheWire(log: seq<Event>, retries: seq<Job>, job: Job, lastId: int)
    requires IsLogOf(log, retries, job)
    ensures Increasing(FirstReplay(Conn(lastId, [], false), lastId, log).written) <==> retries == [] || lastId >= 1
  {
    FirstReplayIncreasesIff(Conn(lastId, [], false), lastId, log);
    OwedSequenced(log, lastId);
    AttemptRepeats(retries, job);
    OwedRepeats(RetryEvents(retries), AttemptEvents(job), lastId);
  }

  lemma {:induction false} FinishedReplaySequenced(log: seq<Event>, lastId: int)
    ensures OnlySequenced(FinishedReplay(log, lastId)) == FinishedReplay(OnlySequenced(log), lastId)
  {
    if log != [] {
      var init, e := log[..|log| - 1], log[|log| - 1];
      assert log == init + [e] && [e][1..] == [];
      FinishedReplaySequenced(init, lastId);
      FinishedReplayConcat(init, [e], lastId);
      OnlySequencedConcat(FinishedReplay(init, lastId), FinishedReplay([e], lastId));
      OnlySequencedOne(e);
      FinishedReplayConcat(OnlySequenced(init), OnlySequenced([e]), lastId);
      assert OnlySequenced(log) == OnlySequenced(init) + OnlySequenced([e]);
      assert FinishedReplay([e], lastId) == if FinishedSkips(e, lastId) then [] else [e];
    }
  }

  lemma RepeatsAbove(p: seq<Event>, es: seq<Event>, lastId: int)
    requires Repeats(p, es)
    ensures IncreasingAbove(p + es, lastId) <==> p == [] || lastId >= es[0].id
  {
    var log := p + es;
    forall i | 0 <= i < |log| ensures log[i] == if i < |p| then es[0] else es[i - |p|] {
      if i < |p| { assert p[i] in p; }
    }
    if p != [] && lastId < es[0].id {
      assert log[0] == es[0] == log[|p|];
    }
  }

  /** So do they in the replay of the finished submission, on the same condition. */
  lemma RetriesShowWhenFinished(log: seq<Event>, retries: seq<Job>, job: Job, lastId: int)
    requires IsLogOf(log, retries, job)
    ensures Increasing(FinishedReplay(log, lastId)) <==> retries == [] || lastId >= 1
  {
    IncreasingSequenced(FinishedReplay(log, lastId));
    FinishedReplaySequenced(log, lastId);
    FinishedReplayIncreasesIff(OnlySequenced(log), lastId);
    AttemptRepeats(retries, job);
    RepeatsAbove(RetryEvents(retries), AttemptEvents(job), lastId);
  }

  // ---------- From the worker to the page ----------

  /**
   A submission that is retried any number of times, and whose finished log is then read by
   a client that is cut off and reconnects any number of times: the client applies the last
   attempt's events, in order and once each, up to and including the terminal one.
   */
  lemma PipelineDeliversLastAttempt(codec: Codec, log: seq<Event>, retries: seq<Job>, job: Job, conns: seq<Connection>)
    requires ValidCodec(codec) && IsLogOf(log, retries, job) && IsSession(codec, log, conns)
    ensures var owed, c := Owed(AttemptEvents(job), -1), Session(codec, conns);
            && Applied(c) <= owed
            && (c.closed ==> Applied(c) == owed)
            && (conns != [] && Uncut(codec, Session(codec, conns[..|conns| - 1]), log, conns[|conns| - 1]) ==>
                  Applied(c) == owed)
  {
    var t := TerminalAt(log);
    LogStutters(log, retries, job);
    LiveSessions.TerminalIsNewThere(log, t);
    var n := SessionReads(codec, log, t, conns);
    ReadSoFar(Session(codec, conns), log, t, n);
    ReadIsOwed(log, retries, job);
  }

  /** What of an attempt a page is to show. */
  function Lines(job: Job): seq<Event> { Filter(Owed(AttemptEvents(job), -1), HasLine()) }

  /**
   Unless the queued event is logged behind a numbered one, the numbered lines of the page are
   then exactly the last attempt's, in order and once each; and what the program wrote, as
   output or as errors, is the second of them.
   */
  lemma PageShowsAttempt(codec: Codec, log: seq<Event>, retries: seq<Job>, job: Job, conns: seq<Connection>)
    requires ValidCodec(codec) && IsLogOf(log, retries, job) && QueuedFirst(log) && IsSession(codec, log, conns)
    requires conns != []
    requires Session(codec, conns).closed ||
             Uncut(codec, Session(codec, conns[..|conns| - 1]), log, conns[|conns| - 1])
    ensures var lines := OnlySequenced(HandleAll(Session(codec, conns).delivered).output);
            && lines == Lines(job)
            && (job.code.Present? && job.response.Answer? && !job.response.timedOut ==>
                  |lines| >= 2 && lines[1] == AnswerEvent(job.response))
  {
    PipelineDeliversLastAttempt(codec, log, retries, job, conns);
    SessionShowsApplied(codec, log, conns);
    if job.code.Present? && job.response.Answer? && !job.response.timedOut { AnswerIsALine(job); }
  }

  lemma OwedFront(e: Event, rest: seq<Event>)
    requires e.Sequenced?
    ensures Owed([e] + rest, -1) == [e] + if Terminal(e) then [] else Owed(rest, -1)
  {
    assert ([e] + rest)[1..] == rest;
  }

  lemma SecondLine(e0: Event, e1: Event, rest: seq<Event>)
    requires e0.Sequenced? && e1.Sequenced? && !Terminal(e0) && HasLine()(e0) && HasLine()(e1)
    ensures var lines := Filter(Owed([e0] + ([e1] + rest), -1), HasLine()); |lines| >= 2 && lines[1] == e1
  {
    var owed := if Terminal(e1) then [] else Owed(rest, -1);
    OwedFront(e0, [e1] + rest);
    OwedFront(e1, rest);
    FilterFront(e0, [e1] + owed, HasLine());
    FilterFront(e1, owed, HasLine());
  }

  lemma AnswerIsALine(job: Job)
    requires job.code.Present? && job.response.Answer? && !job.response.timedOut
    ensures |Lines(job)| >= 2 && Lines(job)[1] == AnswerEvent(job.response)
  {
    var es := AttemptEvents(job);
    AttemptIsCounted(job);
    AnswerIsShown(job);
    SplitTwo(es);
    SecondLine(es[0], es[1], es[2..]);
  }

  lemma SplitTwo(es: seq<Event>)
    requires |es| >= 2
    ensures es == [es[0]] + ([es[1]] + es[2..])
  {
  }

  lemma ReadIsOwed(log: seq<Event>, retries: seq<Job>, job: Job)
    requires IsLogOf(log, retries, job)
    ensures ReadLog(-1, log).out == Owed(AttemptEvents(job), -1)
  {
    ReadRetried(log, retries, job);
    AttemptIncreases(job);
    ReadLogIsOwed(-1, AttemptEvents(job));
  }

  /**
   The same for a page that follows the submission from the start, through live connections
   that lose nothing, in any number, each cut anywhere, and then through finished replays.
   */
  lemma PageFollowsAttempt(codec: Codec, log: seq<Event>, retries: seq<Job>, job: Job, links: seq<LiveSessions.Link>)
    requires ValidCodec(codec) && IsLogOf(log, retries, job) && LiveSessions.IsFollowing(codec, log, links)
    ensures var owed, c := Owed(AttemptEvents(job), -1), LiveSessions.Follow(codec, links);
            && Applied(c) <= owed
            && (c.closed ==> Applied(c) == owed)
            && (FollowedAll(codec, log, links) ==> Applied(c) == owed)
  {
    LogStutters(log, retries, job);
    LiveSessions.FollowingAppliesAll(codec, log, links);
    ReadIsOwed(log, retries, job);
  }

  /** The last connection was complete. */
  ghost predicate FollowedAll(codec: Codec, log: seq<Event>, links: seq<LiveSessions.Link>)
    requires LiveSessions.IsFollowing(codec, log, links)
  {
    links != [] &&
    LiveSessions.Complete(codec, LiveSessions.Follow(codec, links[..|links| - 1]), log, links[|links| - 1])
  }
}
