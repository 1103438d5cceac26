/** Execution events, and what a reader of a log of them is owed. */
module Events {
  datatype Kind =
    | CompileOutput | CompileError | TestOutput | TestResult | BenchmarkProgress | BenchmarkResult
    | CriteriaResults | Output | Complete | Error | Timeout

  /** `Invalid` is a log entry or message that does not parse as an event. */
  datatype Event =
    | Invalid
    | Queued
    | Heartbeat
    | Sequenced(id: nat, kind: Kind, body: string)

  predicate TerminalKind(k: Kind) { k.Complete? || k.Error? || k.Timeout? }

  predicate Terminal(e: Event) { e.Sequenced? && TerminalKind(e.kind) }

  /** The sequence ids of the log go up strictly. */
  predicate Increasing(log: seq<Event>) {
    forall i, j | 0 <= i < j < |log| && log[i].Sequenced? && log[j].Sequenced? :: log[i].id < log[j].id
  }

  /** The ids never go down, and an id is repeated only by the same event, as when an attempt is retried. */
  predicate Stutters(log: seq<Event>) {
    forall i, j | 0 <= i < j < |log| && log[i].Sequenced? && log[j].Sequenced? ::
      log[i].id < log[j].id || log[i] == log[j]
  }

  function OnlySequenced(es: seq<Event>): seq<Event> {
    if es == [] then []
    else OnlySequenced(es[..|es| - 1]) + if es[|es| - 1].Sequenced? then [es[|es| - 1]] else []
  }

  predicate After(e: Event, lastId: int) { e.Sequenced? && e.id > lastId }

  /** The logged sequenced events above `lastId`, in order, up to and including the first terminal one. */
  function Owed(log: seq<Event>, lastId: int): seq<Event> {
    if log == [] then []
    else if !After(log[0], lastId) then Owed(log[1..], lastId)
    else if Terminal(log[0]) then [log[0]]
    else [log[0]] + Owed(log[1..], lastId)
  }

  // ---------- A reader that keeps the highest id it has seen ----------

  /** What such a reader has output; it is done after a terminal event. */
  datatype Reader = Active(highest: int, out: seq<Event>) | Done(out: seq<Event>)

  function Take(r: Reader, e: Event): Reader {
    if r.Done? || !After(e, r.highest) then r
    else if Terminal(e) then Done(r.out + [e])
    else Active(e.id, r.out + [e])
  }

  function TakeAll(r: Reader, es: seq<Event>): Reader {
    if es == [] then r else Take(TakeAll(r, es[..|es| - 1]), es[|es| - 1])
  }

  /** The reader that starts above `lastId`. */
  function ReadLog(lastId: int, es: seq<Event>): Reader {
    TakeAll(Active(lastId, []), es)
  }

  lemma {:induction false} TakeAllConcat(r: Reader, a: seq<Event>, b: seq<Event>)
    ensures TakeAll(r, a + b) == TakeAll(TakeAll(r, a), b)
  {
    if b == [] {
      assert a + b == a;
    } else {
      assert (a + b)[..|a + b| - 1] == a + b[..|b| - 1];
      TakeAllConcat(r, a, b[..|b| - 1]);
    }
  }

  /** An event that is not above the reader's start changes nothing. */
  lemma {:induction false} TakeAllIrrelevant(r: Reader, es: seq<Event>)
    requires r.Active? ==> forall e | e in es :: !After(e, r.highest)
    ensures TakeAll(r, es) == r
  {
    if es != [] {
      TakeAllIrrelevant(r, es[..|es| - 1]);
    }
  }

  /** A reader that is done is done. */
  lemma DoneIsFinal(r: Reader, a: seq<Event>, b: seq<Event>)
    requires TakeAll(r, a).Done?
    ensures TakeAll(r, a + b) == TakeAll(r, a)
  {
    TakeAllConcat(r, a, b);
    TakeAllIrrelevant(TakeAll(r, a), b);
  }

  /** While it is active, the reader's highest id bounds all it has been given. */
  lemma {:induction false} TakeAllBounds(r: Reader, es: seq<Event>)
    ensures TakeAll(r, es).Active? ==>
              && r.Active?
              && r.highest <= TakeAll(r, es).highest
              && forall e | e in es :: !After(e, TakeAll(r, es).highest)
    ensures r.out <= TakeAll(r, es).out
    ensures forall e | e in TakeAll(r, es).out :: e in r.out || e in es
    ensures TakeAll(r, es).Active? && TakeAll(r, es).highest != r.highest ==>
              exists e | e in es :: e.Sequenced? && e.id == TakeAll(r, es).highest
  {
    if es != [] {
      TakeAllBounds(r, es[..|es| - 1]);
      assert es == es[..|es| - 1] + [es[|es| - 1]];
    }
  }

  /** Reading a prefix of what was already read adds nothing. */
  lemma ReadAgain(lastId: int, es: seq<Event>, k: nat)
    requires k <= |es|
    ensures TakeAll(ReadLog(lastId, es), es[..k]) == ReadLog(lastId, es)
  {
    TakeAllBounds(Active(lastId, []), es);
    TakeAllIrrelevant(ReadLog(lastId, es), es[..k]);
  }

  /** Having read `k` entries, reading the first `n` brings the reader to the larger of the two. */
  lemma ReadFurther(lastId: int, es: seq<Event>, k: nat, n: nat)
    requires k <= |es| && n <= |es|
    ensures TakeAll(ReadLog(lastId, es[..k]), es[..n]) == ReadLog(lastId, es[..if k < n then n else k])
  {
    if n <= k {
      assert es[..k][..n] == es[..n];
      ReadAgain(lastId, es[..k], n);
    } else {
      ReadAgain(lastId, es[..k], k);
      assert es[..k][..k] == es[..k] && es[..n] == es[..k] + es[k..n];
      TakeAllConcat(ReadLog(lastId, es[..k]), es[..k], es[k..n]);
      TakeAllConcat(Active(lastId, []), es[..k], es[k..n]);
    }
  }

  /** Over an increasing log, such a reader outputs exactly what is owed. */
  lemma {:induction false} ReaderOutputsOwed(r: Reader, lastId: int, log: seq<Event>)
    requires r.Active? && Increasing(log) && lastId <= r.highest
    requires forall e | e in log && After(e, lastId) :: After(e, r.highest)
    ensures TakeAll(r, log).out == r.out + Owed(log, lastId)
    decreases log
  {
    if log != [] {
      var rest := log[1..];
      assert log == [log[0]] + rest;
      TakeAllConcat(r, [log[0]], rest);
      var r' := Take(r, log[0]);
      assert TakeAll(r, [log[0]]) == r' by { assert [log[0]][..0] == []; }
      if r'.Active? {
        ReaderOutputsOwed(r', lastId, rest);
      } else {
        TakeAllIrrelevant(r', rest);
      }
    }
  }

  lemma ReadLogIsOwed(lastId: int, log: seq<Event>)
    requires Increasing(log)
    ensures ReadLog(lastId, log).out == Owed(log, lastId)
  {
    ReaderOutputsOwed(Active(lastId, []), lastId, log);
  }

  // ---------- Reading the front of a log ----------

  function Max(a: int, b: int): int { if a < b then b else a }

  /** The first `n` entries of the log. */
  function Front(log: seq<Event>, n: int): seq<Event> {
    if 0 <= n <= |log| then log[..n] else []
  }

  /** What a reader that starts above `lastId` makes of the first `n` entries of the log. */
  function Reading(lastId: int, log: seq<Event>, n: int): Reader { ReadLog(lastId, Front(log, n)) }

  /** Handling log entry `j` when at least `j` entries are accounted for. */
  lemma OneMore(lastId: int, log: seq<Event>, k: int, j: int)
    requires 0 <= j <= k <= |log| && j < |log|
    ensures Take(Reading(lastId, log, k), log[j]) == Reading(lastId, log, Max(k, j + 1))
  {
    if j < k {
      TakeAllBounds(Active(lastId, []), log[..k]);
      assert log[j] in log[..k];
    } else {
      assert log[..j + 1][..j] == log[..j];
    }
  }

  lemma ReadingGrows(lastId: int, log: seq<Event>, n: int)
    requires 0 <= n <= |log|
    ensures Reading(lastId, log, n).out <= ReadLog(lastId, log).out
  {
    assert log == log[..n] + log[n..];
    TakeAllConcat(Active(lastId, []), log[..n], log[n..]);
    TakeAllBounds(Reading(lastId, log, n), log[n..]);
  }

  lemma {:induction false} OnlySequencedKeeps(es: seq<Event>, e: Event)
    requires e.Sequenced?
    ensures e in es <==> e in OnlySequenced(es)
  {
    if es != [] {
      var n := |es| - 1;
      assert es == es[..n] + [es[n]];
      OnlySequencedKeeps(es[..n], e);
    }
  }

  /** Events without ids do not matter to the order. */
  lemma {:induction false} IncreasingSequenced(es: seq<Event>)
    ensures Increasing(es) <==> Increasing(OnlySequenced(es))
  {
    if es != [] {
      var init, e := es[..|es| - 1], es[|es| - 1];
      IncreasingSequenced(init);
      assert es == init + [e];
      IncreasingLast(init, e);
      if e.Sequenced? {
        IncreasingLast(OnlySequenced(init), e);
        forall x: Event | x.Sequenced? ensures x in init <==> x in OnlySequenced(init) {
          OnlySequencedKeeps(init, x);
        }
      } else {
        assert OnlySequenced(es) == OnlySequenced(init);
      }
    }
  }

  lemma PrefixIncreases(a: seq<Event>, b: seq<Event>)
    requires Increasing(a + b)
    ensures Increasing(a)
  {
    assert forall i | 0 <= i < |a| :: (a + b)[i] == a[i];
  }

  lemma IncreasingFront(e: Event, rest: seq<Event>)
    ensures Increasing([e] + rest) <==>
            Increasing(rest) && (e.Sequenced? ==> forall x | x in rest && x.Sequenced? :: e.id < x.id)
  {
    var es := [e] + rest;
    if Increasing(es) {
      assert es[0] == e;
      forall x | x in rest && x.Sequenced? && e.Sequenced? ensures e.id < x.id {
        var k :| 0 <= k < |rest| && rest[k] == x;
        assert es[k + 1] == x;
      }
      forall i, j | 0 <= i < j < |rest| && rest[i].Sequenced? && rest[j].Sequenced? ensures rest[i].id < rest[j].id {
        assert es[i + 1] == rest[i] && es[j + 1] == rest[j];
      }
    }
  }

  lemma IncreasingLast(init: seq<Event>, e: Event)
    ensures Increasing(init + [e]) <==>
            Increasing(init) && (e.Sequenced? ==> forall x | x in init && x.Sequenced? :: x.id < e.id)
  {
    var es := init + [e];
    if Increasing(es) {
      PrefixIncreases(init, [e]);
      forall x | x in init && x.Sequenced? && e.Sequenced? ensures x.id < e.id {
        var k :| 0 <= k < |init| && init[k] == x;
        assert es[k] == x && es[|init|] == e;
      }
    }
  }

  /** What is owed is in the log's order. */
  lemma {:induction false} OwedIncreases(log: seq<Event>, lastId: int)
    requires Increasing(log)
    ensures Increasing(Owed(log, lastId))
    ensures forall e | e in Owed(log, lastId) :: e in log && After(e, lastId)
  {
    if log != [] {
      OwedIncreases(log[1..], lastId);
      assert log == [log[0]] + log[1..];
      IncreasingFront(log[0], log[1..]);
      IncreasingFront(log[0], Owed(log[1..], lastId));
      assert [log[0]] + [] == [log[0]];
      IncreasingFront(log[0], []);
    }
  }

  // ---------- Events without ids do not matter to a reader ----------

  lemma {:induction false} OnlySequencedConcat(a: seq<Event>, b: seq<Event>)
    ensures OnlySequenced(a + b) == OnlySequenced(a) + OnlySequenced(b)
  {
    if b == [] {
      assert a + b == a;
    } else {
      assert (a + b)[..|a + b| - 1] == a + b[..|b| - 1];
      OnlySequencedConcat(a, b[..|b| - 1]);
    }
  }

  lemma OnlySequencedOne(e: Event)
    ensures OnlySequenced([e]) == if e.Sequenced? then [e] else []
  {
    assert [e][..0] == [];
  }

  lemma OnlySequencedPrefix(a: seq<Event>, b: seq<Event>)
    requires a <= b
    ensures OnlySequenced(a) <= OnlySequenced(b)
  {
    assert b == a + b[|a|..];
    OnlySequencedConcat(a, b[|a|..]);
  }

  lemma {:induction false} AllSequenced(es: seq<Event>)
    ensures forall e | e in OnlySequenced(es) :: e.Sequenced? && e in es
    ensures |OnlySequenced(es)| <= |es|
  {
    if es != [] {
      AllSequenced(es[..|es| - 1]);
    }
  }

  lemma {:induction false} TakeAllSequenced(r: Reader, es: seq<Event>)
    ensures TakeAll(r, OnlySequenced(es)) == TakeAll(r, es)
  {
    if es != [] {
      var init, e := es[..|es| - 1], es[|es| - 1];
      TakeAllSequenced(r, init);
      if e.Sequenced? {
        assert OnlySequenced(es)[..|OnlySequenced(es)| - 1] == OnlySequenced(init);
      } else {
        assert OnlySequenced(es) == OnlySequenced(init);
      }
    }
  }

  /** What is owed depends on the sequenced events alone. */
  lemma {:induction false} OwedSequenced(es: seq<Event>, lastId: int)
    ensures Owed(OnlySequenced(es), lastId) == Owed(es, lastId)
  {
    if es != [] {
      assert es == [es[0]] + es[1..];
      OnlySequencedConcat([es[0]], es[1..]);
      OnlySequencedOne(es[0]);
      OwedSequenced(es[1..], lastId);
      if es[0].Sequenced? {
        assert OnlySequenced(es)[1..] == OnlySequenced(es[1..]);
      } else {
        assert OnlySequenced(es) == OnlySequenced(es[1..]);
      }
    }
  }

  lemma {:induction false} StuttersSequenced(es: seq<Event>)
    requires Stutters(OnlySequenced(es))
    ensures Stutters(es)
  {
    if es != [] {
      var init, e := es[..|es| - 1], es[|es| - 1];
      var s := OnlySequenced(es);
      assert es == init + [e];
      assert forall i | 0 <= i < |OnlySequenced(init)| :: s[i] == OnlySequenced(init)[i];
      StuttersSequenced(init);
      forall i | 0 <= i < |init| && init[i].Sequenced? && e.Sequenced? ensures init[i].id < e.id || init[i] == e {
        OnlySequencedKeeps(init, init[i]);
        var k :| 0 <= k < |OnlySequenced(init)| && OnlySequenced(init)[k] == init[i];
        assert s[k] == init[i] && s[|s| - 1] == e;
      }
    }
  }

  // ---------- Filtering ----------

  /** The events that `keep` holds of, in order. */
  function Filter(es: seq<Event>, keep: Event -> bool): seq<Event> {
    if es == [] then []
    else Filter(es[..|es| - 1], keep) + if keep(es[|es| - 1]) then [es[|es| - 1]] else []
  }

  lemma {:induction false} FilterFront(e: Event, rest: seq<Event>, keep: Event -> bool)
    ensures Filter([e] + rest, keep) == (if keep(e) then [e] else []) + Filter(rest, keep)
  {
    if rest == [] {
      assert [e][..0] == [];
    } else {
      assert ([e] + rest)[..|rest|] == [e] + rest[..|rest| - 1];
      FilterFront(e, rest[..|rest| - 1], keep);
    }
  }

  /** `picked` are the entries of `from` at the positions `at`, in order. */
  predicate Picks(from: seq<Event>, at: seq<nat>, picked: seq<Event>) {
    && |at| == |picked|
    && (forall k | 0 <= k < |at| :: at[k] < |from| && picked[k] == from[at[k]])
    && (forall j, k | 0 <= j < k < |at| :: at[j] < at[k])
  }

  /** One more entry, taken or not. */
  lemma PickLast(from: seq<Event>, at: seq<nat>, picked: seq<Event>, e: Event, taken: bool) returns (at': seq<nat>)
    requires Picks(from, at, picked)
    ensures Picks(from + [e], at', picked + if taken then [e] else [])
    ensures forall i | 0 <= i < |from| :: i in at' <==> i in at
    ensures |from| in at' <==> taken
  {
    at' := at + if taken then [|from|] else [];
  }

  /** Filtering picks the events at exactly the positions where `keep` holds. */
  lemma {:induction false} FilterPicks(es: seq<Event>, keep: Event -> bool) returns (at: seq<nat>)
    ensures Picks(es, at, Filter(es, keep))
    ensures forall i | 0 <= i < |es| :: i in at <==> keep(es[i])
  {
    at := [];
    if es != [] {
      var n := |es| - 1;
      var init, e := es[..n], es[n];
      assert es == init + [e];
      var before := FilterPicks(init, keep);
      at := PickLast(init, before, Filter(init, keep), e, keep(e));
      forall i | 0 <= i < |es| ensures i in at <==> keep(es[i]) {
        if i < n { assert init[i] == es[i]; }
      }
    }
  }
}
