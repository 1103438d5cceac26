/**
 One streaming connection of the event route: what it writes while it replays the
 log, handles live messages, and replays the log again.
 */
module StreamRoute {
  import opened Events

  datatype Conn = Conn(highest: int, written: seq<Event>, closed: bool)

  function WriteTo(c: Conn, e: Event): Conn {
    if c.closed then c else c.(written := c.written + [e])
  }

  /** Writes a sequenced event, remembers its id, and closes after a terminal one. */
  function Emit(c: Conn, e: Event): Conn
    requires e.Sequenced?
  {
    var c1 := WriteTo(c, e);
    var c2 := if e.id > c1.highest then c1.(highest := e.id) else c1;
    if Terminal(e) then c2.(closed := true) else c2
  }

  /** The initial replay compares ids with the client's Last-Event-ID, not with the highest id written. */
  function FirstReplay(c: Conn, lastId: int, entries: seq<Event>): Conn
    decreases entries
  {
    if entries == [] then c
    else
      var e, rest := entries[0], entries[1..];
      match e
      case Queued => FirstReplay(if lastId >= 0 then c else WriteTo(c, e), lastId, rest)
      case Sequenced(id, _, _) =>
        if id <= lastId then FirstReplay(c, lastId, rest)
        else if Terminal(e) then Emit(c, e)
        else FirstReplay(Emit(c, e), lastId, rest)
      case _ => FirstReplay(c, lastId, rest)
  }

  function OnMessage(c: Conn, e: Event): Conn {
    if c.closed then c
    else
      match e
      case Sequenced(id, _, _) => if id <= c.highest then c else Emit(c, e)
      case Heartbeat => WriteTo(c, e)
      case _ => c
  }

  function SecondReplay(c: Conn, entries: seq<Event>): Conn
    decreases entries
  {
    if entries == [] || c.closed then c
    else if entries[0].Sequenced? && entries[0].id > c.highest then
      SecondReplay(Emit(c, entries[0]), entries[1..])
    else SecondReplay(c, entries[1..])
  }

  /** The replay of a finished submission: every event above `lastId`, terminal or not. */
  function FinishedReplay(log: seq<Event>, lastId: int): seq<Event> {
    if log == [] then []
    else if FinishedSkips(log[0], lastId) then FinishedReplay(log[1..], lastId)
    else [log[0]] + FinishedReplay(log[1..], lastId)
  }

  predicate FinishedSkips(e: Event, lastId: int) {
    || e.Invalid?
    || (e.Queued? && lastId >= 0)
    || (e.Sequenced? && e.id <= lastId)
  }

  lemma {:induction false} FinishedReplayConcat(a: seq<Event>, b: seq<Event>, lastId: int)
    ensures FinishedReplay(a + b, lastId) == FinishedReplay(a, lastId) + FinishedReplay(b, lastId)
  {
    if a == [] {
      assert a + b == b;
    } else {
      assert (a + b)[1..] == a[1..] + b;
      FinishedReplayConcat(a[1..], b, lastId);
    }
  }

  lemma SentOneMore(log: seq<Event>, lastId: int, i: nat)
    requires i < |log|
    ensures FinishedReplay(log[..i + 1], lastId) ==
            FinishedReplay(log[..i], lastId) + if FinishedSkips(log[i], lastId) then [] else [log[i]]
  {
    assert log[..i + 1] == log[..i] + [log[i]];
    assert [log[i]][1..] == [];
    FinishedReplayConcat(log[..i], [log[i]], lastId);
  }

  /** The route handler's variables and callbacks. */
  class StreamConnection {
    const lastEventId: int
    var highestSequenceId: int
    var isClosed: bool
    var written: seq<Event>

    ghost function State(): Conn
      reads this
    {
      Conn(highestSequenceId, written, isClosed)
    }

    constructor (lastEventId: int)
      ensures this.lastEventId == lastEventId && State() == Conn(lastEventId, [], false)
    {
      this.lastEventId := lastEventId;
      highestSequenceId := lastEventId;
      isClosed := false;
      written := [];
    }

    method Cleanup()
      modifies this`isClosed
      ensures State() == old(State()).(closed := true)
    {
      if isClosed { return; }
      isClosed := true;
    }

    method WriteEvent(event: Event) returns (ok: bool)
      modifies this`written
      ensures State() == WriteTo(old(State()), event) && ok == !isClosed
    {
      if isClosed { return false; }
      written := written + [event];
      return true;
    }

    /** The replay for a finished submission; the caller has found the status to be terminal. */
    method ServeFinished(entries: seq<Event>)
      modifies this
      ensures written == old(written) + if old(isClosed) then [] else FinishedReplay(entries, lastEventId)
      ensures isClosed && highestSequenceId == old(highestSequenceId)
    {
      for i := 0 to |entries|
        invariant isClosed == old(isClosed) && highestSequenceId == old(highestSequenceId)
        invariant written == old(written) + if isClosed then [] else FinishedReplay(entries[..i], lastEventId)
      {
        var event := entries[i];
        SentOneMore(entries, lastEventId, i);
        if event.Invalid? { continue; }
        if lastEventId >= 0 && event.Queued? { continue; }
        if event.Sequenced? && event.id <= lastEventId { continue; }
        var _ := WriteEvent(event);
      }
      assert entries[..|entries|] == entries;
      Cleanup();
    }

    method ServeFirstReplay(entries: seq<Event>)
      modifies this
      ensures State() == FirstReplay(old(State()), lastEventId, entries)
    {
      for i := 0 to |entries|
        invariant FirstReplay(old(State()), lastEventId, entries) == FirstReplay(State(), lastEventId, entries[i..])
      {
        var event := entries[i];
        assert entries[i..][1..] == entries[i + 1..];
        if event.Invalid? { continue; }
        if event.Queued? {
          if lastEventId >= 0 { continue; }
          var _ := WriteEvent(event);
          continue;
        }
        if event.Sequenced? {
          if event.id <= lastEventId { continue; }
          var _ := WriteEvent(event);
          if event.id > highestSequenceId {
            highestSequenceId := event.id;
          }
          if TerminalKind(event.kind) {
            Cleanup();
            return;
          }
        }
      }
    }

    method HandleMessage(event: Event)
      modifies this
      ensures State() == OnMessage(old(State()), event)
    {
      if isClosed { return; }
      if event.Invalid? { return; }
      if event.Sequenced? && event.id <= highestSequenceId { return; }
      if event.Queued? { return; }
      var _ := WriteEvent(event);
      if event.Sequenced? && event.id > highestSequenceId {
        highestSequenceId := event.id;
      }
      if Terminal(event) {
        Cleanup();
      }
    }

    method ServeSecondReplay(entries: seq<Event>)
      modifies this
      ensures State() == SecondReplay(old(State()), entries)
    {
      for i := 0 to |entries|
        invariant SecondReplay(old(State()), entries) == SecondReplay(State(), entries[i..])
      {
        var event := entries[i];
        assert entries[i..][1..] == entries[i + 1..];
        if isClosed { return; }
        if event.Invalid? { continue; }
        if event.Queued? { continue; }
        if event.Sequenced? {
          if event.id <= highestSequenceId { continue; }
          var _ := WriteEvent(event);
          if event.id > highestSequenceId {
            highestSequenceId := event.id;
          }
          if TerminalKind(event.kind) {
            Cleanup();
            return;
          }
        }
      }
    }
  }

  // ---------- The connection as a reader of the log ----------

  /** What a reader makes of what the connection has written. */
  function Page(c: Conn, lastId: int): Reader { ReadLog(lastId, c.written) }

  /** An open connection and such a reader have seen the same highest id; a closed one has closed itself. */
  predicate Tuned(c: Conn, lastId: int) {
    if c.closed then Page(c, lastId).Done? else Page(c, lastId).Active? && Page(c, lastId).highest == c.highest
  }

  lemma EmitReads(c: Conn, lastId: int, e: Event)
    requires !c.closed && Tuned(c, lastId) && e.Sequenced? && (Terminal(e) ==> e.id > c.highest)
    ensures Page(Emit(c, e), lastId) == Take(Page(c, lastId), e) && Tuned(Emit(c, e), lastId)
  {
    assert (c.written + [e])[..|c.written|] == c.written;
  }

  lemma WriteOtherReads(c: Conn, lastId: int, e: Event)
    requires !e.Sequenced? && Tuned(c, lastId)
    ensures Page(WriteTo(c, e), lastId) == Page(c, lastId) && Tuned(WriteTo(c, e), lastId)
  {
    assert (c.written + [e])[..|c.written|] == c.written;
  }

  /** A live message does to a connection what one log entry does to the reader. */
  lemma MessageReads(c: Conn, lastId: int, e: Event)
    requires Tuned(c, lastId)
    ensures Page(OnMessage(c, e), lastId) == Take(Page(c, lastId), e) && Tuned(OnMessage(c, e), lastId)
  {
    if !c.closed && e.Sequenced? && e.id > c.highest {
      EmitReads(c, lastId, e);
    }
    if e.Heartbeat? {
      WriteOtherReads(c, lastId, e);
    }
  }

  lemma TakeAllFront(r: Reader, es: seq<Event>)
    requires es != []
    ensures TakeAll(r, es) == TakeAll(Take(r, es[0]), es[1..])
  {
    assert es == [es[0]] + es[1..];
    TakeAllConcat(r, [es[0]], es[1..]);
    assert [es[0]][..0] == [];
  }

  /** The second scan reads its snapshot as that reader, over any log. */
  lemma {:induction false} SecondReplayReads(c: Conn, lastId: int, entries: seq<Event>)
    requires Tuned(c, lastId)
    ensures Page(SecondReplay(c, entries), lastId) == TakeAll(Page(c, lastId), entries)
    ensures Tuned(SecondReplay(c, entries), lastId)
    decreases entries
  {
    if c.closed {
      TakeAllIrrelevant(Page(c, lastId), entries);
    } else if entries != [] {
      var e := entries[0];
      TakeAllFront(Page(c, lastId), entries);
      if e.Sequenced? && e.id > c.highest {
        EmitReads(c, lastId, e);
        SecondReplayReads(Emit(c, e), lastId, entries[1..]);
      } else {
        SecondReplayReads(c, lastId, entries[1..]);
      }
    }
  }

  /** Nothing above `lastId` lies below `highest`, and no terminal event at it. */
  predicate Climbs(entries: seq<Event>, lastId: int, highest: int) {
    && Stutters(entries)
    && forall e | e in entries && After(e, lastId) :: highest <= e.id && (Terminal(e) ==> highest < e.id)
  }

  lemma ClimbsOn(entries: seq<Event>, lastId: int, highest: int)
    requires Climbs(entries, lastId, highest) && entries != []
    ensures Climbs(entries[1..], lastId, highest)
    ensures After(entries[0], lastId) && !Terminal(entries[0]) ==> Climbs(entries[1..], lastId, entries[0].id)
  {
    var rest := entries[1..];
    assert forall i | 0 <= i < |rest| :: rest[i] == entries[i + 1];
  }

  /** What is to be shown of a scan: it reads its entries, and keeps in tune. */
  predicate Reads(c: Conn, c': Conn, lastId: int, entries: seq<Event>) {
    Page(c', lastId) == TakeAll(Page(c, lastId), entries) && Tuned(c', lastId)
  }

  lemma FirstReplaySkips(c: Conn, lastId: int, entries: seq<Event>)
    requires entries != [] && !c.closed && Tuned(c, lastId) && !After(entries[0], lastId) && lastId <= c.highest
    ensures var c1 := if entries[0].Queued? && lastId < 0 then WriteTo(c, entries[0]) else c;
            && !c1.closed && c1.highest == c.highest && Tuned(c1, lastId)
            && FirstReplay(c, lastId, entries) == FirstReplay(c1, lastId, entries[1..])
            && Page(c1, lastId) == Page(c, lastId)
            && TakeAll(Page(c, lastId), entries) == TakeAll(Page(c, lastId), entries[1..])
  {
    TakeAllFront(Page(c, lastId), entries);
    if entries[0].Queued? { WriteOtherReads(c, lastId, entries[0]); }
  }

  lemma FirstReplayEmits(c: Conn, lastId: int, entries: seq<Event>)
    requires entries != [] && !c.closed && Tuned(c, lastId) && After(entries[0], lastId)
    requires Terminal(entries[0]) ==> entries[0].id > c.highest
    ensures var c1 := Emit(c, entries[0]);
            && Tuned(c1, lastId) && c1.closed == Terminal(entries[0])
            && FirstReplay(c, lastId, entries) == (if c1.closed then c1 else FirstReplay(c1, lastId, entries[1..]))
            && TakeAll(Page(c, lastId), entries) ==
               if c1.closed then Page(c1, lastId) else TakeAll(Page(c1, lastId), entries[1..])
  {
    TakeAllFront(Page(c, lastId), entries);
    EmitReads(c, lastId, entries[0]);
    if Terminal(entries[0]) {
      TakeAllIrrelevant(Page(Emit(c, entries[0]), lastId), entries[1..]);
    }
  }

  /** Over a log whose ids never go down, comparing with Last-Event-ID is as good as comparing with the highest id. */
  lemma {:induction false} FirstReplayReads(c: Conn, lastId: int, entries: seq<Event>)
    requires !c.closed && Tuned(c, lastId) && Climbs(entries, lastId, c.highest) && lastId <= c.highest
    ensures Reads(c, FirstReplay(c, lastId, entries), lastId, entries)
    decreases entries
  {
    if entries != [] {
      var e := entries[0];
      ClimbsOn(entries, lastId, c.highest);
      if After(e, lastId) {
        FirstReplayEmits(c, lastId, entries);
        if !Terminal(e) { FirstReplayReads(Emit(c, e), lastId, entries[1..]); }
      } else {
        FirstReplaySkips(c, lastId, entries);
        FirstReplayReads(if e.Queued? && lastId < 0 then WriteTo(c, e) else c, lastId, entries[1..]);
      }
    }
  }

  /** Over any log, increasing or not, the initial replay writes exactly the owed entries, repeats and all. */
  lemma {:induction false} FirstReplayWritesOwed(c: Conn, lastId: int, entries: seq<Event>)
    requires !c.closed
    ensures OnlySequenced(FirstReplay(c, lastId, entries).written) == OnlySequenced(c.written) + Owed(entries, lastId)
    decreases entries
  {
    if entries != [] {
      var e, rest := entries[0], entries[1..];
      assert (c.written + [e])[..|c.written|] == c.written;
      if e.Queued? {
        FirstReplayWritesOwed(if lastId >= 0 then c else WriteTo(c, e), lastId, rest);
      } else if After(e, lastId) {
        if !Terminal(e) { FirstReplayWritesOwed(Emit(c, e), lastId, rest); }
      } else {
        FirstReplayWritesOwed(c, lastId, rest);
      }
    }
  }

  /** So on the wire its ids go up strictly if and only if they do in what is owed; a retried attempt's do not. */
  lemma FirstReplayIncreasesIff(c: Conn, lastId: int, entries: seq<Event>)
    requires !c.closed && c.written == []
    ensures Increasing(FirstReplay(c, lastId, entries).written) <==> Increasing(Owed(entries, lastId))
  {
    FirstReplayWritesOwed(c, lastId, entries);
    IncreasingSequenced(FirstReplay(c, lastId, entries).written);
    assert OnlySequenced(c.written) + Owed(entries, lastId) == Owed(entries, lastId);
  }

  // ---------- Which entries are written ----------

  /** A terminal event above `lastId`, at which a scan stops. */
  predicate Stops(e: Event, lastId: int) {
    e.Sequenced? && e.id > lastId && e.kind in {Complete, Error, Timeout}
  }

  /** A scan from the front goes through `n` entries: past the first one it stops at, or all of them. */
  predicate GoesThrough(entries: seq<Event>, lastId: int, n: nat) {
    && n <= |entries|
    && (forall i | 0 <= i < n - 1 :: !Stops(entries[i], lastId))
    && (n < |entries| ==> n > 0 && Stops(entries[n - 1], lastId))
  }

  /** What an unfinished log holds for a client: what is above its id, and the queued event if it has none. */
  function IsReplayed(lastId: int): Event -> bool {
    (e: Event) => (e.Queued? && lastId < 0) || (e.Sequenced? && e.id > lastId)
  }

  /** One entry of the first scan. */
  lemma FirstReplayFront(c: Conn, lastId: int, e: Event, rest: seq<Event>) returns (c1: Conn)
    requires !c.closed
    ensures c1.written == c.written + if IsReplayed(lastId)(e) then [e] else []
    ensures c1.closed == Stops(e, lastId)
    ensures FirstReplay(c, lastId, [e] + rest) == if c1.closed then c1 else FirstReplay(c1, lastId, rest)
  {
    assert ([e] + rest)[1..] == rest;
    c1 := if e.Sequenced? && e.id > lastId then Emit(c, e)
          else if e.Queued? && lastId < 0 then WriteTo(c, e)
          else c;
  }

  /**
   Over any log the first scan writes, in order, the entries above Last-Event-ID and, for a
   client without one, those that say it is queued: no others, and none behind a terminal one.
   */
  lemma {:induction false} FirstReplayWrites(c: Conn, lastId: int, entries: seq<Event>) returns (n: nat)
    requires !c.closed
    ensures GoesThrough(entries, lastId, n)
    ensures FirstReplay(c, lastId, entries).written == c.written + Filter(entries[..n], IsReplayed(lastId))
    decreases |entries|
  {
    n := 0;
    if entries != [] {
      var e, rest := entries[0], entries[1..];
      assert entries == [e] + rest;
      var c1 := FirstReplayFront(c, lastId, e, rest);
      if c1.closed {
        FilterFront(e, [], IsReplayed(lastId));
        assert entries[..1] == [e] + [];
        n := 1;
      } else {
        var more := FirstReplayWrites(c1, lastId, rest);
        n := more + 1;
        assert entries[..n] == [e] + rest[..more];
        FilterFront(e, rest[..more], IsReplayed(lastId));
      }
    }
  }

  /** A finished one's: in addition what parses and has no id. */
  function IsReplayedFinished(lastId: int): Event -> bool {
    (e: Event) => e.Heartbeat? || (e.Queued? && lastId < 0) || (e.Sequenced? && e.id > lastId)
  }

  lemma {:induction false} FinishedReplayWrites(log: seq<Event>, lastId: int)
    ensures FinishedReplay(log, lastId) == Filter(log, IsReplayedFinished(lastId))
  {
    if log != [] {
      assert log == [log[0]] + log[1..];
      FinishedReplayWrites(log[1..], lastId);
      FilterFront(log[0], log[1..], IsReplayedFinished(lastId));
    }
  }

  /** A live message is passed on exactly if it is a heartbeat or has a new id; a queued event never is. */
  lemma MessageWrites(c: Conn, e: Event)
    requires !c.closed
    ensures OnMessage(c, e).written == c.written + [e] <==> e.Heartbeat? || (e.Sequenced? && e.id > c.highest)
    ensures OnMessage(c, e).written == c.written + [e] || OnMessage(c, e) == c
  {
    assert c.written != c.written + [e];
  }

  /** The second scan writes only events with ids. */
  lemma {:induction false} SecondReplayWrites(c: Conn, entries: seq<Event>)
    ensures c.written <= SecondReplay(c, entries).written
    ensures forall e | e in SecondReplay(c, entries).written[|c.written|..] :: e.Sequenced?
    decreases entries
  {
    if entries != [] && !c.closed {
      var e := entries[0];
      SecondReplayWrites(if e.Sequenced? && e.id > c.highest then Emit(c, e) else c, entries[1..]);
    }
  }

  /** No two entries above `lastId` are out of order or share an id. */
  predicate IncreasingAbove(log: seq<Event>, lastId: int) {
    forall i, j | 0 <= i < j < |log| && After(log[i], lastId) && After(log[j], lastId) :: log[i].id < log[j].id
  }

  lemma {:induction false} FinishedReplayKeeps(log: seq<Event>, lastId: int, e: Event)
    requires e.Sequenced?
    ensures e in FinishedReplay(log, lastId) <==> e in log && After(e, lastId)
  {
    if log != [] {
      FinishedReplayKeeps(log[1..], lastId, e);
    }
  }

  /** The replay of a finished submission writes increasing ids if and only if the log's ids above `lastId` increase. */
  lemma {:induction false} FinishedReplayIncreasesIff(log: seq<Event>, lastId: int)
    ensures Increasing(FinishedReplay(log, lastId)) <==> IncreasingAbove(log, lastId)
  {
    if log != [] {
      var e, rest := log[0], log[1..];
      FinishedReplayIncreasesIff(rest, lastId);
      IncreasingFront(e, FinishedReplay(rest, lastId));
      forall x: Event | x.Sequenced? ensures x in FinishedReplay(rest, lastId) <==> x in rest && After(x, lastId) {
        FinishedReplayKeeps(rest, lastId, x);
      }
      AboveFront(log, lastId);
    }
  }

  lemma AboveFront(log: seq<Event>, lastId: int)
    requires log != []
    ensures IncreasingAbove(log, lastId) <==>
            && IncreasingAbove(log[1..], lastId)
            && (After(log[0], lastId) ==> forall x | x in log[1..] && After(x, lastId) :: log[0].id < x.id)
  {
    var rest := log[1..];
    if IncreasingAbove(log, lastId) {
      forall i, j | 0 <= i < j < |rest| && After(rest[i], lastId) && After(rest[j], lastId)
        ensures rest[i].id < rest[j].id
      {
        assert log[i + 1] == rest[i] && log[j + 1] == rest[j];
      }
    }
  }

  // ---------- What a connection has written is well ordered ----------

  /** Ids are above `lastId`, the highest is remembered, and a terminal event is the last thing written. */
  predicate WellOrdered(c: Conn, lastId: int) {
    && lastId <= c.highest
    && (forall e | e in c.written :: !e.Invalid? && (e.Sequenced? ==> lastId < e.id <= c.highest))
    && (forall i | 0 <= i < |c.written| && Terminal(c.written[i]) :: c.closed && i == |c.written| - 1)
  }

  lemma EmitKeepsOrder(c: Conn, lastId: int, e: Event)
    requires WellOrdered(c, lastId) && After(e, lastId)
    ensures WellOrdered(Emit(c, e), lastId)
    ensures c.highest < e.id ==> (Increasing(Emit(c, e).written) <==> Increasing(c.written))
  {
    if !c.closed && c.highest < e.id && Increasing(Emit(c, e).written) {
      PrefixIncreases(c.written, [e]);
    }
  }

  lemma WriteOtherKeepsOrder(c: Conn, lastId: int, e: Event)
    requires WellOrdered(c, lastId) && !e.Sequenced? && !e.Invalid?
    ensures WellOrdered(WriteTo(c, e), lastId)
    ensures Increasing(WriteTo(c, e).written) <==> Increasing(c.written)
  {
    if !c.closed && Increasing(WriteTo(c, e).written) {
      PrefixIncreases(c.written, [e]);
    }
  }

  /** A live message repeats nothing: the ids written go up strictly if they did before. */
  lemma MessageKeepsOrder(c: Conn, lastId: int, e: Event)
    requires WellOrdered(c, lastId)
    ensures WellOrdered(OnMessage(c, e), lastId)
    ensures Increasing(OnMessage(c, e).written) <==> Increasing(c.written)
  {
    if !c.closed {
      if e.Heartbeat? { WriteOtherKeepsOrder(c, lastId, e); }
      if e.Sequenced? && e.id > c.highest { EmitKeepsOrder(c, lastId, e); }
    }
  }

  /** Nor does the second scan, over any log. */
  lemma {:induction false} SecondReplayKeepsOrder(c: Conn, lastId: int, entries: seq<Event>)
    requires WellOrdered(c, lastId)
    ensures WellOrdered(SecondReplay(c, entries), lastId)
    ensures Increasing(SecondReplay(c, entries).written) <==> Increasing(c.written)
    ensures forall e | e in SecondReplay(c, entries).written :: e in c.written || e in entries
    decreases entries
  {
    if entries != [] && !c.closed {
      var e := entries[0];
      if e.Sequenced? && e.id > c.highest {
        EmitKeepsOrder(c, lastId, e);
        SecondReplayKeepsOrder(Emit(c, e), lastId, entries[1..]);
      } else {
        SecondReplayKeepsOrder(c, lastId, entries[1..]);
      }
    }
  }

  lemma {:induction false} FirstReplayKeepsOrder(c: Conn, lastId: int, entries: seq<Event>)
    requires WellOrdered(c, lastId)
    ensures WellOrdered(FirstReplay(c, lastId, entries), lastId)
    ensures forall e | e in FirstReplay(c, lastId, entries).written :: e in c.written || e in entries
    decreases entries
  {
    if entries != [] {
      var e, rest := entries[0], entries[1..];
      match e {
        case Queued =>
          WriteOtherKeepsOrder(c, lastId, e);
          FirstReplayKeepsOrder(if lastId >= 0 then c else WriteTo(c, e), lastId, rest);
        case Sequenced(id, _, _) =>
          if id <= lastId {
            FirstReplayKeepsOrder(c, lastId, rest);
          } else {
            EmitKeepsOrder(c, lastId, e);
            if !Terminal(e) { FirstReplayKeepsOrder(Emit(c, e), lastId, rest); }
          }
        case _ => FirstReplayKeepsOrder(c, lastId, rest);
      }
    }
  }

  /** A connection that was cut before the first scan writes nothing in it and stays cut. */
  lemma {:induction false} FirstReplayStaysClosed(c: Conn, lastId: int, entries: seq<Event>)
    requires c.closed
    ensures FirstReplay(c, lastId, entries).closed && FirstReplay(c, lastId, entries).written == c.written
    decreases entries
  {
    if entries != [] {
      var e, rest := entries[0], entries[1..];
      FirstReplayStaysClosed(c, lastId, rest);
      if e.Sequenced? { FirstReplayStaysClosed(Emit(c, e), lastId, rest); }
    }
  }
}
