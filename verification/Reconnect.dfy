/**
 A client that is cut off and reconnects, again and again, to the replay of a finished
 submission, and the handler that applies what it delivers.
 */
module Reconnect {
  import opened Events
  import opened StreamRoute
  import opened SseText
  import opened SseClient

  // ---------- The handler that applies events once ----------

  /** `applied` are the events handled, and `output` those whose line is on the page. */
  datatype Handler = Handler(maxSeen: int, applied: seq<Event>, output: seq<Event>)

  const NEW_PAGE := Handler(-1, [], [])

  /** Benchmark and criteria results are shown elsewhere; a heartbeat is not shown at all. */
  predicate Draws(e: Event) { e.Sequenced? && !e.kind.BenchmarkResult? && !e.kind.CriteriaResults? }

  function HandleEvent(h: Handler, e: Event): Handler {
    if e.Sequenced? && e.id <= h.maxSeen then h
    else Handler(if e.Sequenced? then e.id else h.maxSeen, h.applied + [e], Drawn(h.output, e))
  }

  /** The queued event starts the output afresh. */
  function Drawn(output: seq<Event>, e: Event): seq<Event> {
    if e.Queued? then [e] else if Draws(e) then output + [e] else output
  }

  function HandleAll(es: seq<Event>): Handler {
    if es == [] then NEW_PAGE else HandleEvent(HandleAll(es[..|es| - 1]), es[|es| - 1])
  }

  class SubmissionOutput {
    var maxSeenSequenceId: int
    var applied: seq<Event>
    var output: seq<Event>

    ghost function State(): Handler
      reads this
    {
      Handler(maxSeenSequenceId, applied, output)
    }

    constructor ()
      ensures State() == HandleAll([])
    {
      maxSeenSequenceId, applied, output := -1, [], [];
    }

    method HandleSSEEvent(event: Event)
      modifies this
      ensures State() == HandleEvent(old(State()), event)
    {
      if event.Sequenced? {
        if event.id <= maxSeenSequenceId { return; }
        maxSeenSequenceId := event.id;
      }
      applied := applied + [event];
      if event.Queued? {
        output := [event];
      } else if Draws(event) {
        output := output + [event];
      }
    }
  }

  /** The sequenced events the application has applied. */
  function Applied(c: Client): seq<Event> {
    OnlySequenced(HandleAll(c.delivered).applied)
  }

  // ---------- What the handler has seen ----------

  /** The events of a log, each unless an id as high came before it. */
  function Distinct(log: seq<Event>): seq<Event> { OnlySequenced(HandleAll(log).applied) }

  function Highest(log: seq<Event>): int { HandleAll(log).maxSeen }

  lemma HandleOne(es: seq<Event>, e: Event)
    ensures HandleAll(es + [e]) == HandleEvent(HandleAll(es), e)
    ensures Distinct(es + [e]) == Distinct(es) + if e.Sequenced? && e.id > Highest(es) then [e] else []
    ensures Highest(es + [e]) == if e.Sequenced? && e.id > Highest(es) then e.id else Highest(es)
  {
    var h := HandleAll(es);
    assert (es + [e])[..|es|] == es;
    assert (h.applied + [e])[..|h.applied|] == h.applied;
  }

  lemma {:induction false} HighestBounds(es: seq<Event>)
    ensures forall e | e in es && e.Sequenced? :: e.id <= Highest(es)
    ensures Highest(es) == -1 || exists e | e in es && e.Sequenced? :: e.id == Highest(es)
  {
    if es != [] {
      HighestBounds(es[..|es| - 1]);
      assert es == es[..|es| - 1] + [es[|es| - 1]];
    }
  }

  lemma {:induction false} DistinctGrows(a: seq<Event>, b: seq<Event>)
    ensures Distinct(a) <= Distinct(a + b)
  {
    if b == [] {
      assert a + b == a;
    } else {
      var init := b[..|b| - 1];
      assert a + b == (a + init) + [b[|b| - 1]];
      DistinctGrows(a, init);
      HandleOne(a + init, b[|b| - 1]);
    }
  }

  /** The ids applied go up. */
  lemma {:induction false} AppliedIncreases(es: seq<Event>)
    ensures Increasing(HandleAll(es).applied)
    ensures forall e | e in HandleAll(es).applied && e.Sequenced? :: e.id <= Highest(es)
  {
    if es != [] {
      AppliedIncreases(es[..|es| - 1]);
      IncreasingLast(HandleAll(es[..|es| - 1]).applied, es[|es| - 1]);
    }
  }

  // ---------- What is on the page ----------

  function OutputOf(applied: seq<Event>): seq<Event> {
    if applied == [] then [] else Drawn(OutputOf(applied[..|applied| - 1]), applied[|applied| - 1])
  }

  lemma {:induction false} OutputIsOfApplied(es: seq<Event>)
    ensures HandleAll(es).output == OutputOf(HandleAll(es).applied)
  {
    if es != [] {
      OutputIsOfApplied(es[..|es| - 1]);
      var h := HandleAll(es[..|es| - 1]);
      assert (h.applied + [es[|es| - 1]])[..|h.applied|] == h.applied;
    }
  }

  /** Every event that was drawn still is. */
  predicate KeepsAll(applied: seq<Event>, output: seq<Event>) {
    forall e | e in applied && Draws(e) :: e in output
  }

  /** A queued event comes after one that was drawn. */
  predicate Wipes(es: seq<Event>) {
    exists i, j :: 0 <= i < j < |es| && Draws(es[i]) && es[j].Queued?
  }

  lemma WipesLast(init: seq<Event>, e: Event)
    ensures Wipes(init + [e]) <==> Wipes(init) || (e.Queued? && exists x | x in init :: Draws(x))
  {
    var es := init + [e];
    if Wipes(init) {
      var i, j :| 0 <= i < j < |init| && Draws(init[i]) && init[j].Queued?;
      assert es[i] == init[i] && es[j] == init[j];
    }
    if e.Queued? && exists x | x in init :: Draws(x) {
      var i :| 0 <= i < |init| && Draws(init[i]);
      assert es[i] == init[i] && es[|init|] == e;
    }
  }

  lemma {:induction false} OutputKeepsIff(applied: seq<Event>)
    requires Increasing(applied)
    ensures KeepsAll(applied, OutputOf(applied)) <==> !Wipes(applied)
    ensures forall e | e in OutputOf(applied) :: e in applied
  {
    if applied != [] {
      var init, e := applied[..|applied| - 1], applied[|applied| - 1];
      assert applied == init + [e];
      PrefixIncreases(init, [e]);
      IncreasingLast(init, e);
      OutputKeepsIff(init);
      WipesLast(init, e);
    }
  }

  /** Whatever is delivered, nothing drawn is lost from the page if and only if no queued event is handled after it. */
  lemma NothingWipedIff(delivered: seq<Event>)
    ensures var h := HandleAll(delivered); KeepsAll(h.applied, h.output) <==> !Wipes(h.applied)
  {
    OutputIsOfApplied(delivered);
    AppliedIncreases(delivered);
    OutputKeepsIff(HandleAll(delivered).applied);
  }

  /** What has a line on the page: all but heartbeats and the results shown elsewhere. */
  function HasLine(): Event -> bool {
    (e: Event) => e.Queued? || (e.Sequenced? && e.kind !in {BenchmarkResult, CriteriaResults})
  }

  /** The page was last started afresh by the event at `q`, or never, if `q` is 0. */
  predicate Afresh(applied: seq<Event>, q: nat) {
    && (q > 0 ==> q < |applied| && applied[q].Queued?)
    && forall i | q < i < |applied| :: !applied[i].Queued?
  }

  lemma FilterLast(init: seq<Event>, e: Event, keep: Event -> bool)
    ensures Filter(init + [e], keep) == Filter(init, keep) + if keep(e) then [e] else []
  {
    assert (init + [e])[..|init|] == init;
  }

  lemma AfreshOneMore(init: seq<Event>, q: nat, e: Event) returns (q': nat)
    requires Afresh(init, q) && q <= |init|
    ensures Afresh(init + [e], q') && q' <= |init|
    ensures q' == if e.Queued? then |init| else q
  {
    q' := if e.Queued? then |init| else q;
  }

  /** One more event on the page. */
  lemma DrawnIsFiltered(from: seq<Event>, e: Event)
    ensures Drawn(Filter(from, HasLine()), e) == Filter(if e.Queued? then [e] else from + [e], HasLine())
  {
    if e.Queued? {
      FilterLast([], e, HasLine());
      assert [] + [e] == [e];
    } else {
      FilterLast(from, e, HasLine());
    }
  }

  lemma FromAfresh(init: seq<Event>, e: Event, q: nat)
    requires q <= |init|
    ensures (init + [e])[|init|..] == [e] && (init + [e])[q..] == init[q..] + [e]
  {
  }

  lemma {:induction false} OutputIsFiltered(applied: seq<Event>) returns (q: nat)
    ensures Afresh(applied, q) && q <= |applied| && OutputOf(applied) == Filter(applied[q..], HasLine())
  {
    q := 0;
    if applied != [] {
      var init, e := applied[..|applied| - 1], applied[|applied| - 1];
      assert applied == init + [e];
      var before := OutputIsFiltered(init);
      q := AfreshOneMore(init, before, e);
      FromAfresh(init, e, before);
      DrawnIsFiltered(init[before..], e);
    }
  }

  /** An event without an id, or with one above all ids before it. */
  predicate IsNew(es: seq<Event>, i: nat)
    requires i < |es|
  {
    es[i].Sequenced? ==> forall j | 0 <= j < i && es[j].Sequenced? :: es[j].id < es[i].id
  }

  lemma NewOrNot(init: seq<Event>, e: Event)
    ensures forall i | 0 <= i < |init| :: IsNew(init + [e], i) <==> IsNew(init, i)
    ensures IsNew(init + [e], |init|) <==> !(e.Sequenced? && e.id <= Highest(init))
  {
    HighestBounds(init);
    var es := init + [e];
    assert forall j | 0 <= j < |init| :: es[j] == init[j] && init[j] in init;
    if e.Sequenced? && e.id <= Highest(init) {
      var x :| x in init && x.Sequenced? && x.id == Highest(init);
      var j :| 0 <= j < |init| && init[j] == x;
      assert es[j] == x;
    }
  }

  /**
   Whatever is delivered: an event with an id is applied exactly if that is above every id
   delivered before it, and any other event always, in the order delivered.
   */
  lemma {:induction false} AppliedIsNewInOrder(delivered: seq<Event>) returns (at: seq<nat>)
    ensures Picks(delivered, at, HandleAll(delivered).applied)
    ensures forall i | 0 <= i < |delivered| :: i in at <==> IsNew(delivered, i)
  {
    at := [];
    if delivered != [] {
      var init, e := delivered[..|delivered| - 1], delivered[|delivered| - 1];
      assert delivered == init + [e];
      var before := AppliedIsNewInOrder(init);
      NewOrNot(init, e);
      at := PickLast(init, before, HandleAll(init).applied, e, IsNew(delivered, |init|));
    }
  }

  /** `output` are the events from `q` on that have a line, at the positions `at` counted from there. */
  predicate Shows(applied: seq<Event>, q: nat, at: seq<nat>, output: seq<Event>) {
    && q <= |applied| && Afresh(applied, q)
    && Picks(applied[q..], at, output)
    && forall i | q <= i < |applied| :: i - q in at <==> HasLine()(applied[i])
  }

  lemma OutputShows(applied: seq<Event>) returns (q: nat, at: seq<nat>)
    ensures Shows(applied, q, at, OutputOf(applied))
  {
    q := OutputIsFiltered(applied);
    at := FilterPicks(applied[q..], HasLine());
    forall i | q <= i < |applied| ensures i - q in at <==> HasLine()(applied[i]) {
      assert applied[q..][i - q] == applied[i];
    }
  }

  lemma ShownInOrder(applied: seq<Event>, q: nat, at: seq<nat>, output: seq<Event>)
    requires Shows(applied, q, at, output)
    ensures forall i | 0 < i < |output| :: !output[i].Queued?
    ensures Increasing(applied) ==> Increasing(output)
  {
    assert forall k | 0 <= k < |at| :: output[k] == applied[q + at[k]];
    forall i | 0 < i < |output| ensures !output[i].Queued? {
      assert at[0] < at[i];
    }
    if Increasing(applied) {
      forall i, j | 0 <= i < j < |output| && output[i].Sequenced? && output[j].Sequenced?
        ensures output[i].id < output[j].id
      {
        assert at[i] < at[j];
      }
    }
  }

  /**
   The page shows, in the order applied, exactly the events applied since it was last started
   afresh that have a line: the queued event is its first line or none, and the ids go up.
   */
  lemma PageIsInOrder(delivered: seq<Event>) returns (q: nat, at: seq<nat>)
    ensures Shows(HandleAll(delivered).applied, q, at, HandleAll(delivered).output)
    ensures forall i | 0 < i < |HandleAll(delivered).output| :: !HandleAll(delivered).output[i].Queued?
    ensures Increasing(HandleAll(delivered).output)
  {
    OutputIsOfApplied(delivered);
    AppliedIncreases(delivered);
    q, at := OutputShows(HandleAll(delivered).applied);
    ShownInOrder(HandleAll(delivered).applied, q, at, HandleAll(delivered).output);
  }

  // ---------- Connections ----------

  /** How the server reads the Last-Event-ID header; an empty or unreadable one counts as -1. */
  function HeaderId(lastId: string): int {
    match ReadDecimal(lastId)
    case None => -1
    case Some(n) => n
  }

  function Frames(es: seq<Event>): seq<Item> {
    seq(|es|, i requires 0 <= i < |es| => Frame(es[i]))
  }

  /** What the server would send this client. */
  function Served(c: Client, log: seq<Event>): seq<Item> {
    Frames(FinishedReplay(log, HeaderId(c.lastId)))
  }

  /** A connection delivers the first `n` characters of that, in some chunks. */
  datatype Connection = Connection(n: nat, chunks: seq<string>)

  predicate IsConnection(codec: Codec, c: Client, log: seq<Event>, conn: Connection) {
    var text := FormatAll(codec, Served(c, log));
    conn.n <= |text| && Concat(conn.chunks) == text[..conn.n]
  }

  predicate Uncut(codec: Codec, c: Client, log: seq<Event>, conn: Connection) {
    conn.n == |FormatAll(codec, Served(c, log))|
  }

  function Connect(codec: Codec, c: Client, conn: Connection): Client {
    if c.closed then c else FeedAll(codec, c.(buffer := ""), conn.chunks).(buffer := "")
  }

  /** A client that reconnects after each cut until it has seen a terminal event. */
  function Session(codec: Codec, conns: seq<Connection>): Client {
    if conns == [] then Client("", "", [], false)
    else Connect(codec, Session(codec, conns[..|conns| - 1]), conns[|conns| - 1])
  }

  ghost predicate IsSession(codec: Codec, log: seq<Event>, conns: seq<Connection>) {
    forall i | 0 <= i < |conns| :: IsConnection(codec, Session(codec, conns[..i]), log, conns[i])
  }

  // ---------- What a finished log owes ----------

  /** `t` is the index of the first terminal event, or the length of a log without one. */
  predicate FirstTerminal(log: seq<Event>, t: nat) {
    && t <= |log|
    && (forall i | 0 <= i < t :: !Terminal(log[i]))
    && (t < |log| ==> Terminal(log[t]))
  }

  function TerminalAt(log: seq<Event>): (t: nat)
    ensures FirstTerminal(log, t)
  {
    if log == [] then 0 else if Terminal(log[0]) then 0 else 1 + TerminalAt(log[1..])
  }

  function UpTo(log: seq<Event>, t: nat): seq<Event>
    requires t <= |log|
  {
    if t == |log| then log else log[..t + 1]
  }

  /** The log up to and including its first terminal event. */
  function UpToTerminal(log: seq<Event>): seq<Event> { UpTo(log, TerminalAt(log)) }

  /** The event at `t` is numbered above everything before it. */
  predicate NewAt(log: seq<Event>, t: nat)
    requires FirstTerminal(log, t)
  {
    t < |log| ==> forall i | 0 <= i < t && log[i].Sequenced? :: log[i].id < log[t].id
  }

  /** The first terminal event is numbered above everything before it. */
  predicate TerminalIsNew(log: seq<Event>) { NewAt(log, TerminalAt(log)) }

  predicate NonDecreasing(log: seq<Event>) {
    forall i, j | 0 <= i < j < |log| && log[i].Sequenced? && log[j].Sequenced? :: log[i].id <= log[j].id
  }

  /** The first event with each id, in order. */
  function FirstOfEachId(es: seq<Event>): seq<Event> {
    if es == [] then []
    else
      var init, last := es[..|es| - 1], es[|es| - 1];
      FirstOfEachId(init) +
      if last.Sequenced? && forall e | e in init && e.Sequenced? :: e.id != last.id then [last] else []
  }

  /** Every id has a first event. */
  lemma {:induction false} FirstsHaveIds(es: seq<Event>, e: Event)
    requires e in es && e.Sequenced?
    ensures exists f | f in FirstOfEachId(es) :: f.Sequenced? && f.id == e.id
  {
    var init, last := es[..|es| - 1], es[|es| - 1];
    assert es == init + [last];
    if e in init {
      FirstsHaveIds(init, e);
    } else if x :| x in init && x.Sequenced? && x.id == e.id {
      FirstsHaveIds(init, x);
    } else {
      assert e in FirstOfEachId(es);
    }
  }

  lemma {:induction false} FirstsAreThere(es: seq<Event>)
    ensures forall f | f in FirstOfEachId(es) :: f in es && f.Sequenced?
  {
    if es != [] {
      FirstsAreThere(es[..|es| - 1]);
    }
  }

  /** If ids never go down, those of the firsts go up. */
  lemma {:induction false} FirstsIncrease(es: seq<Event>)
    requires NonDecreasing(es)
    ensures Increasing(FirstOfEachId(es))
  {
    if es != [] {
      var init, last := es[..|es| - 1], es[|es| - 1];
      assert es == init + [last];
      FirstsIncrease(init);
      FirstsAreThere(init);
      IncreasingLast(FirstOfEachId(init), last);
      assert FirstOfEachId(init) + [] == FirstOfEachId(init);
    }
  }

  lemma {:induction false} ReaderTakesFirsts(es: seq<Event>)
    requires Increasing(FirstOfEachId(es)) && forall e | e in es :: !Terminal(e)
    ensures ReadLog(-1, es).Active? && ReadLog(-1, es).out == FirstOfEachId(es)
  {
    if es != [] {
      var init, last := es[..|es| - 1], es[|es| - 1];
      var firsts := FirstOfEachId(init);
      assert es == init + [last];
      PrefixIncreases(firsts, FirstOfEachId(es)[|firsts|..]);
      assert FirstOfEachId(es) == firsts + FirstOfEachId(es)[|firsts|..];
      ReaderTakesFirsts(init);
      TakeAllBounds(Active(-1, []), init);
      var r := ReadLog(-1, init);
      if last.Sequenced? && r.highest != -1 && last in FirstOfEachId(es)[|firsts|..] {
        var e :| e in init && e.Sequenced? && e.id == r.highest;
        FirstsHaveIds(init, e);
        IncreasingLast(firsts, last);
      }
    }
  }

  /** What a reader outputs goes up. */
  lemma {:induction false} ReaderIncreases(es: seq<Event>)
    ensures Increasing(ReadLog(-1, es).out)
    ensures var r := ReadLog(-1, es);
            r.Active? ==> forall e | e in r.out :: e.Sequenced? && e.id <= r.highest
  {
    if es != [] {
      ReaderIncreases(es[..|es| - 1]);
      IncreasingLast(ReadLog(-1, es[..|es| - 1]).out, es[|es| - 1]);
    }
  }

  /**
   What is read of a log is the first event with each id, up to and including the first
   terminal one, if and only if the ids of these go up.
   */
  lemma ReadLogIsFirstOfEachId(log: seq<Event>, t: nat)
    requires FirstTerminal(log, t) && NewAt(log, t)
    ensures ReadLog(-1, log).out == FirstOfEachId(UpTo(log, t)) <==> Increasing(FirstOfEachId(UpTo(log, t)))
  {
    ReaderIncreases(log);
    if Increasing(FirstOfEachId(UpTo(log, t))) {
      if t == |log| {
        ReaderTakesFirsts(log);
      } else {
        var front := log[..t];
        assert log[..t + 1][..t] == front;
        PrefixIncreases(FirstOfEachId(front), [log[t]]);
        ReaderTakesFirsts(front);
        TerminalTaken(log, t);
        ReadingPastTerminal(log, t);
      }
    }
  }

  /** A new terminal event is above all that was read before it. */
  lemma TerminalTaken(log: seq<Event>, t: nat)
    requires FirstTerminal(log, t) && NewAt(log, t) && t < |log|
    ensures Reading(-1, log, t).Active? ==> Reading(-1, log, t).highest < log[t].id
    ensures Take(Reading(-1, log, t), log[t]) == Reading(-1, log, t + 1)
  {
    TakeAllBounds(Active(-1, []), log[..t]);
    OneMore(-1, log, t, t);
  }

  lemma {:induction false} ReadingIsActive(log: seq<Event>, t: nat, n: nat)
    requires FirstTerminal(log, t) && n <= t
    ensures Reading(-1, log, n).Active?
  {
    if n > 0 {
      ReadingIsActive(log, t, n - 1);
      OneMore(-1, log, n - 1, n - 1);
    }
  }

  /** After a new terminal event, reading is over. */
  lemma ReadingPastTerminal(log: seq<Event>, t: nat)
    requires FirstTerminal(log, t) && NewAt(log, t) && t < |log|
    ensures ReadLog(-1, log) == Reading(-1, log, t + 1)
    ensures ReadLog(-1, log).Done?
  {
    ReadingIsActive(log, t, t);
    TerminalTaken(log, t);
    assert log == log[..t + 1] + log[t + 1..];
    DoneIsFinal(Active(-1, []), log[..t + 1], log[t + 1..]);
  }

  // ---------- One connection ----------

  function MaxSeen(c: Client): int { Highest(c.delivered) }

  /**
   The client has handled the first `n` entries, whatever they are, and an open one asks from
   an id it has seen. If the first terminal event is new, it is closed exactly when it has
   come to that.
   */
  predicate HasRead(c: Client, log: seq<Event>, t: nat, n: nat)
    requires FirstTerminal(log, t)
  {
    && n <= |log|
    && Applied(c) == Distinct(log[..n])
    && (!c.closed ==> MaxSeen(c) == Highest(log[..n]) && HeaderId(c.lastId) <= MaxSeen(c))
    && (NewAt(log, t) ==> if c.closed then n == t + 1 else n <= t)
  }

  /** A client takes an event as the handler does. */
  lemma ReceiveHandles(c: Client, e: Event)
    requires !c.closed
    ensures var c' := Receive(c, Frame(e));
            && c'.delivered == c.delivered + [e] && c'.closed == Terminal(e)
            && Applied(c') == Applied(c) + (if e.Sequenced? && e.id > MaxSeen(c) then [e] else [])
            && MaxSeen(c') == (if e.Sequenced? && e.id > MaxSeen(c) then e.id else MaxSeen(c))
            && (HeaderId(c.lastId) <= MaxSeen(c) ==> HeaderId(c'.lastId) <= MaxSeen(c'))
  {
    HandleOne(c.delivered, e);
    ReceiveAsksFrom(c, e);
  }

  /** It then asks from the last id it received. */
  lemma ReceiveAsksFrom(c: Client, e: Event)
    requires !c.closed
    ensures HeaderId(Receive(c, Frame(e)).lastId) == if e.Sequenced? then e.id else HeaderId(c.lastId)
  {
    if e.Sequenced? { DecimalRoundTrip(e.id); }
  }

  lemma {:induction false} ReceiveAllFront(c: Client, item: Item, items: seq<Item>)
    ensures ReceiveAll(c, [item] + items) == ReceiveAll(Receive(c, item), items)
  {
    var all := [item] + items;
    if items == [] {
      assert all[..0] == [];
    } else {
      assert all[..|all| - 1] == [item] + items[..|items| - 1];
      ReceiveAllFront(c, item, items[..|items| - 1]);
    }
  }

  lemma {:induction false} ReceiveAllClosed(c: Client, items: seq<Item>)
    requires c.closed
    ensures ReceiveAll(c, items) == c
  {
    if items != [] { ReceiveAllClosed(c, items[..|items| - 1]); }
  }

  /** A terminal event that is new is above the highest id before it, and nothing else is. */
  lemma NewIsAbove(log: seq<Event>, t: nat)
    requires FirstTerminal(log, t) && t < |log|
    ensures NewAt(log, t) <==> log[t].id > Highest(log[..t])
  {
    HighestBounds(log[..t]);
    assert forall i | 0 <= i < t :: log[..t][i] == log[i] && log[i] in log[..t];
  }

  lemma FrontStep(log: seq<Event>, i: nat)
    requires i < |log|
    ensures log[..i + 1] == log[..i] + [log[i]]
  {
  }

  /** What the server leaves out is what the client has seen. */
  lemma SkippedIsSeen(c: Client, log: seq<Event>, t: nat, lastId: int, m: nat, i: nat)
    requires FirstTerminal(log, t) && !c.closed && HasRead(c, log, t, m) && lastId <= MaxSeen(c)
    requires i <= m && i < |log| && FinishedSkips(log[i], lastId)
    ensures HasRead(c, log, t, if m <= i then i + 1 else m)
  {
    if m == i {
      FrontStep(log, i);
      HandleOne(log[..i], log[i]);
      if i == t { NewIsAbove(log, t); }
    }
  }

  /** What the server sends moves the client on. */
  lemma SentIsRead(c: Client, log: seq<Event>, t: nat, m: nat, i: nat)
    requires FirstTerminal(log, t) && !c.closed && HasRead(c, log, t, m)
    requires i <= m && i < |log|
    ensures HasRead(Receive(c, Frame(log[i])), log, t, if m <= i then i + 1 else m)
  {
    ReceiveHandles(c, log[i]);
    if m == i {
      FrontStep(log, i);
      HandleOne(log[..i], log[i]);
    } else {
      HighestBounds(log[..m]);
      assert log[i] in log[..m];
    }
  }

  lemma SentFrom(log: seq<Event>, lastId: int, i: nat)
    requires i < |log|
    ensures FinishedReplay(log[i..], lastId) ==
            if FinishedSkips(log[i], lastId) then FinishedReplay(log[i + 1..], lastId)
            else [log[i]] + FinishedReplay(log[i + 1..], lastId)
  {
    assert log[i..][1..] == log[i + 1..];
  }

  lemma ReceiveFirst(c: Client, e: Event, rest: seq<Event>, k: nat)
    requires 0 < k <= |rest| + 1
    ensures ReceiveAll(c, Frames(([e] + rest)[..k])) == ReceiveAll(Receive(c, Frame(e)), Frames(rest[..k - 1]))
  {
    assert Frames(([e] + rest)[..k]) == [Frame(e)] + Frames(rest[..k - 1]);
    ReceiveAllFront(c, Frame(e), Frames(rest[..k - 1]));
  }

  /** The server goes through the log from entry `i`; the client receives the first `k` events it sends. */
  lemma {:induction false} Serve(c: Client, log: seq<Event>, t: nat, lastId: int, m: nat, i: nat, k: nat)
    returns (n: nat)
    requires FirstTerminal(log, t) && !c.closed && HasRead(c, log, t, m) && lastId <= MaxSeen(c)
    requires i <= m && k <= |FinishedReplay(log[i..], lastId)|
    ensures HasRead(ReceiveAll(c, Frames(FinishedReplay(log[i..], lastId)[..k])), log, t, n)
    ensures k == |FinishedReplay(log[i..], lastId)| && n < |log| ==>
              ReceiveAll(c, Frames(FinishedReplay(log[i..], lastId)[..k])).closed
    decreases |log| - i
  {
    n := m;
    if i == |log| || (k == 0 && !FinishedSkips(log[i], lastId)) {
      assert FinishedReplay(log[i..], lastId)[..k] == [];
      if i < |log| { SentFrom(log, lastId, i); }
    } else {
      SentFrom(log, lastId, i);
      var m', rest := if m <= i then i + 1 else m, FinishedReplay(log[i + 1..], lastId);
      if FinishedSkips(log[i], lastId) {
        SkippedIsSeen(c, log, t, lastId, m, i);
        n := ServeRest(c, log, t, lastId, m', i, k, rest);
      } else {
        ReceiveFirst(c, log[i], rest, k);
        SentIsRead(c, log, t, m, i);
        SeenGrows(c, log[i]);
        n := ServeRest(Receive(c, Frame(log[i])), log, t, lastId, m', i, k - 1, rest);
      }
    }
  }

  lemma {:induction false} ServeRest(c: Client, log: seq<Event>, t: nat, lastId: int,
                                     m: nat, i: nat, k: nat, rest: seq<Event>)
    returns (n: nat)
    requires FirstTerminal(log, t) && HasRead(c, log, t, m) && lastId <= MaxSeen(c) && i < |log| && i < m
    requires rest == FinishedReplay(log[i + 1..], lastId) && k <= |rest|
    ensures HasRead(ReceiveAll(c, Frames(rest[..k])), log, t, n)
    ensures k == |rest| && n < |log| ==> ReceiveAll(c, Frames(rest[..k])).closed
    decreases |log| - i, 0
  {
    n := m;
    if c.closed {
      ReceiveAllClosed(c, Frames(rest[..k]));
    } else {
      n := Serve(c, log, t, lastId, m, i + 1, k);
    }
  }

  lemma SeenGrows(c: Client, e: Event)
    ensures MaxSeen(c) <= MaxSeen(Receive(c, Frame(e)))
  {
    if !c.closed { ReceiveHandles(c, e); }
  }

  lemma {:induction false} ServedIsValid(log: seq<Event>, lastId: int)
    ensures forall e | e in FinishedReplay(log, lastId) :: !e.Invalid?
  {
    if log != [] { ServedIsValid(log[1..], lastId); }
  }

  /** A connection of text, in any chunks and cut anywhere. */
  lemma ConnectReads(codec: Codec, c: Client, log: seq<Event>, t: nat, conn: Connection, m: nat) returns (n: nat)
    requires ValidCodec(codec) && FirstTerminal(log, t) && HasRead(c, log, t, m)
    requires IsConnection(codec, c, log, conn)
    ensures HasRead(Connect(codec, c, conn), log, t, n)
    ensures Uncut(codec, c, log, conn) && n < |log| ==> Connect(codec, c, conn).closed
  {
    n := m;
    if !c.closed {
      var sent := FinishedReplay(log, HeaderId(c.lastId));
      var c0 := c.(buffer := "");
      var k := ConnectReceives(codec, c, log, conn);
      assert log[0..] == log && Frames(sent)[..k] == Frames(sent[..k]);
      n := Serve(c0, log, t, HeaderId(c.lastId), m, 0, k);
    }
  }

  /** Such a connection delivers the first so many of the events sent, and all of them if it is not cut. */
  lemma ConnectReceives(codec: Codec, c: Client, log: seq<Event>, conn: Connection) returns (k: nat)
    requires ValidCodec(codec) && !c.closed && IsConnection(codec, c, log, conn)
    ensures k <= |Served(c, log)| && (Uncut(codec, c, log, conn) ==> k == |Served(c, log)|)
    ensures Connect(codec, c, conn) == ReceiveAll(c.(buffer := ""), Served(c, log)[..k])
  {
    ServedIsValid(log, HeaderId(c.lastId));
    var items := Served(c, log);
    k := ParserUndoesFormatter(codec, c.(buffer := ""), items, conn.n, conn.chunks);
    if Uncut(codec, c, log, conn) && k < |items| {
      FormatAllGrows(codec, items, k + 1);
    }
  }

  lemma NothingRead(log: seq<Event>, t: nat)
    requires FirstTerminal(log, t)
    ensures HasRead(Client("", "", [], false), log, t, 0)
  {
  }

  lemma {:induction false} SessionReads(codec: Codec, log: seq<Event>, t: nat, conns: seq<Connection>) returns (n: nat)
    requires ValidCodec(codec) && FirstTerminal(log, t) && IsSession(codec, log, conns)
    ensures HasRead(Session(codec, conns), log, t, n)
    ensures conns != [] && Uncut(codec, Session(codec, conns[..|conns| - 1]), log, conns[|conns| - 1]) && n < |log| ==>
              Session(codec, conns).closed
  {
    if conns == [] {
      n := 0;
      NothingRead(log, t);
    } else {
      var init := conns[..|conns| - 1];
      assert forall i | 0 <= i < |init| :: conns[..i] == init[..i];
      var m := SessionReads(codec, log, t, init);
      n := ConnectReads(codec, Session(codec, init), log, t, conns[|conns| - 1], m);
    }
  }

  // ---------- What the client has applied ----------

  lemma ReadingStep(lastId: int, log: seq<Event>, k: nat)
    requires k < |log|
    ensures Reading(lastId, log, k + 1) == Take(Reading(lastId, log, k), log[k])
  {
    OneMore(lastId, log, k, k);
  }

  lemma TakeDistinct(init: seq<Event>, e: Event)
    ensures Take(Active(Highest(init), Distinct(init)), e) ==
            if Terminal(e) && e.id > Highest(init) then Done(Distinct(init + [e]))
            else Active(Highest(init + [e]), Distinct(init + [e]))
  {
    HandleOne(init, e);
  }

  /** Up to a terminal event that is new, a reader takes what the handler applies. */
  lemma {:induction false} ReadingIsDistinct(log: seq<Event>, t: nat, n: nat)
    requires FirstTerminal(log, t) && NewAt(log, t) && n <= |log| && n <= t + 1
    ensures Reading(-1, log, n) ==
            if n <= t then Active(Highest(log[..n]), Distinct(log[..n])) else Done(Distinct(log[..n]))
    decreases n
  {
    if n > 0 {
      var k := n - 1;
      ReadingIsDistinct(log, t, k);
      ReadingStep(-1, log, k);
      FrontStep(log, k);
      TakeDistinct(log[..k], log[k]);
      if k == t { NewIsAbove(log, t); }
    }
  }

  /** The client and its handler, seen as a reader of the log. */
  function View(c: Client): Reader {
    if c.closed then Done(Applied(c)) else Active(MaxSeen(c), Applied(c))
  }

  /** Over such a log, the client is a reader of its first `n` entries. */
  lemma HasReadIsReading(c: Client, log: seq<Event>, t: nat, n: nat)
    requires FirstTerminal(log, t) && NewAt(log, t) && n <= |log| && if c.closed then n == t + 1 else n <= t
    ensures HasRead(c, log, t, n) <==>
            View(c) == Reading(-1, log, n) && (!c.closed ==> HeaderId(c.lastId) <= MaxSeen(c))
  {
    ReadingIsDistinct(log, t, n);
  }

  lemma ReadSoFar(c: Client, log: seq<Event>, t: nat, n: nat)
    requires FirstTerminal(log, t) && NewAt(log, t) && HasRead(c, log, t, n)
    ensures Applied(c) <= ReadLog(-1, log).out
    ensures c.closed || n == |log| ==> Applied(c) == ReadLog(-1, log).out
  {
    HasReadIsReading(c, log, t, n);
    ReadingGrows(-1, log, n);
    if c.closed {
      ReadingPastTerminal(log, t);
    }
    assert log[..|log|] == log;
  }

  /**
   Over any log, through any number of cut connections and reconnects, in any chunks: what is
   applied is at all times a beginning of the logged events whose id is above all before it,
   and all of them once a connection ran to its end without closing the client.
   */
  lemma ReconnectingAppliesDistinct(codec: Codec, log: seq<Event>, conns: seq<Connection>)
    requires ValidCodec(codec) && IsSession(codec, log, conns)
    ensures Applied(Session(codec, conns)) <= Distinct(log)
    ensures conns != [] && Uncut(codec, Session(codec, conns[..|conns| - 1]), log, conns[|conns| - 1]) &&
            !Session(codec, conns).closed ==>
              Applied(Session(codec, conns)) == Distinct(log)
  {
    var n := SessionReads(codec, log, TerminalAt(log), conns);
    assert log == log[..n] + log[n..] && log[..|log|] == log;
    DistinctGrows(log[..n], log[n..]);
  }

  /**
   If the first terminal event is new, what is applied is a beginning of the first event with
   each id, in order, up to and including that one, and all of these once the client has
   closed or a connection ran to its end: if and only if the ids of these events go up, as
   they do when the log's never go down.
   */
  lemma ReconnectingAppliesEachIdOnce(codec: Codec, log: seq<Event>, conns: seq<Connection>)
    requires ValidCodec(codec) && TerminalIsNew(log) && IsSession(codec, log, conns)
    ensures var c, firsts := Session(codec, conns), FirstOfEachId(UpToTerminal(log));
            && (Increasing(firsts) ==> Applied(c) <= firsts)
            && (c.closed ==> (Applied(c) == firsts <==> Increasing(firsts)))
            && (conns != [] && Uncut(codec, Session(codec, conns[..|conns| - 1]), log, conns[|conns| - 1]) ==>
                  (Applied(c) == firsts <==> Increasing(firsts)))
    ensures NonDecreasing(log) ==> Increasing(FirstOfEachId(UpToTerminal(log)))
  {
    var t := TerminalAt(log);
    var n := SessionReads(codec, log, t, conns);
    ReadSoFar(Session(codec, conns), log, t, n);
    ReadLogIsFirstOfEachId(log, t);
    if NonDecreasing(log) {
      FirstsIncrease(UpToTerminal(log));
    }
  }

  // ---------- The hypothesis on the terminal event is needed ----------

  lemma {:induction false} ReceiveAllConcat(c: Client, a: seq<Item>, b: seq<Item>)
    ensures ReceiveAll(c, a + b) == ReceiveAll(ReceiveAll(c, a), b)
  {
    if b == [] {
      assert a + b == a;
    } else {
      assert (a + b)[..|a + b| - 1] == a + b[..|b| - 1];
      ReceiveAllConcat(c, a, b[..|b| - 1]);
    }
  }

  /** Everything before the terminal event, received by a new client. */
  lemma ReceiveUpToTerminal(log: seq<Event>, t: nat) returns (c: Client)
    requires FirstTerminal(log, t)
    ensures c == ReceiveAll(Client("", "", [], false), Frames(FinishedReplay(log[..t], -1)))
    ensures !c.closed && MaxSeen(c) == Highest(log[..t]) && Applied(c) == Distinct(log[..t])
  {
    var front := log[..t];
    var c0 := Client("", "", [], false);
    var sent := FinishedReplay(front, -1);
    c := ReceiveAll(c0, Frames(sent));
    assert front[0..] == front && sent[..|sent|] == sent && front[..|front|] == front;
    NothingRead(front, t);
    var n := Serve(c0, front, t, -1, 0, 0, |sent|);
    assert n == |front|;
  }

  /** What is sent of a log, around one of its events. */
  lemma SentAround(log: seq<Event>, t: nat)
    requires t < |log| && log[t].Sequenced?
    ensures FinishedReplay(log, -1) == FinishedReplay(log[..t], -1) + ([log[t]] + FinishedReplay(log[t + 1..], -1))
  {
    var back := log[t..];
    assert log == log[..t] + back && back[1..] == log[t + 1..];
    FinishedReplayConcat(log[..t], back, -1);
  }

  lemma FramesConcat(a: seq<Event>, e: Event, b: seq<Event>)
    ensures Frames(a + ([e] + b)) == Frames(a) + ([Frame(e)] + Frames(b))
  {
  }

  /** What a new client makes of a whole log with a terminal event is what it makes of it up to there. */
  lemma ReceiveToTerminal(log: seq<Event>, t: nat) returns (c: Client)
    requires FirstTerminal(log, t) && t < |log|
    ensures ReceiveAll(Client("", "", [], false), Frames(FinishedReplay(log, -1))) == Receive(c, Frame(log[t]))
    ensures !c.closed && MaxSeen(c) == Highest(log[..t]) && Applied(c) == Distinct(log[..t])
  {
    var a, b := FinishedReplay(log[..t], -1), FinishedReplay(log[t + 1..], -1);
    SentAround(log, t);
    FramesConcat(a, log[t], b);
    c := ReceiveUpToTerminal(log, t);
    ReceiveAllConcat(Client("", "", [], false), Frames(a), [Frame(log[t])] + Frames(b));
    ReceiveAllFront(c, Frame(log[t]), Frames(b));
    ReceiveAllClosed(Receive(c, Frame(log[t])), Frames(b));
  }

  /**
   A new client with one uncut connection closes at the first terminal event, but applies
   it exactly when it is numbered above everything before it.
   */
  lemma TerminalAppliedIffNew(log: seq<Event>)
    requires TerminalAt(log) < |log|
    ensures var c := ReceiveAll(Client("", "", [], false), Frames(FinishedReplay(log, -1)));
            c.closed && (log[TerminalAt(log)] in Applied(c) <==> TerminalIsNew(log))
  {
    var t := TerminalAt(log);
    var c := ReceiveToTerminal(log, t);
    NotYetApplied(log, t);
    AppliesIffAbove(c, log[t]);
    NewIsAbove(log, t);
  }

  lemma NotYetApplied(log: seq<Event>, t: nat)
    requires FirstTerminal(log, t) && t < |log|
    ensures log[t] !in Distinct(log[..t])
  {
    AppliedIsBelow(log[..t]);
    assert forall i | 0 <= i < t :: log[..t][i] == log[i];
  }

  lemma AppliesIffAbove(c: Client, e: Event)
    requires !c.closed && e.Sequenced? && e !in Applied(c)
    ensures var c' := Receive(c, Frame(e));
            c'.closed == Terminal(e) && (e in Applied(c') <==> e.id > MaxSeen(c))
  {
    ReceiveHandles(c, e);
  }

  /** One connection that delivers everything in one piece. */
  function Whole(codec: Codec, log: seq<Event>): Connection {
    var text := FormatAll(codec, Served(Client("", "", [], false), log));
    Connection(|text|, [text])
  }

  lemma WholeSession(codec: Codec, log: seq<Event>)
    requires ValidCodec(codec)
    ensures IsSession(codec, log, [Whole(codec, log)])
    ensures Session(codec, [Whole(codec, log)]) ==
            ReceiveAll(Client("", "", [], false), Frames(FinishedReplay(log, -1)))
  {
    var c, conn := Client("", "", [], false), Whole(codec, log);
    assert [conn][..0] == [] && Concat(conn.chunks[..0]) == "" && Concat(conn.chunks) == "" + conn.chunks[0];
    assert IsConnection(codec, c, log, conn);
    var k := ConnectReceives(codec, c, log, conn);
    assert Served(c, log)[..k] == Served(c, log);
  }

  lemma TerminalIsDistinct(log: seq<Event>, t: nat)
    requires FirstTerminal(log, t) && NewAt(log, t) && t < |log|
    ensures log[t] in Distinct(log[..t + 1])
  {
    FrontStep(log, t);
    HandleOne(log[..t], log[t]);
    NewIsAbove(log, t);
  }

  lemma ClosedAppliedIt(codec: Codec, log: seq<Event>, t: nat, conns: seq<Connection>)
    requires ValidCodec(codec) && FirstTerminal(log, t) && NewAt(log, t) && t < |log|
    requires IsSession(codec, log, conns) && Session(codec, conns).closed
    ensures log[t] in Applied(Session(codec, conns))
  {
    var n := SessionReads(codec, log, t, conns);
    TerminalIsDistinct(log, t);
  }

  /** Every client that closes has applied the terminal event it closed at if and only if that is new. */
  lemma ClosingAppliesTerminalIff(codec: Codec, log: seq<Event>)
    requires ValidCodec(codec) && TerminalAt(log) < |log|
    ensures (forall conns | IsSession(codec, log, conns) && Session(codec, conns).closed ::
               log[TerminalAt(log)] in Applied(Session(codec, conns)))
            <==> TerminalIsNew(log)
  {
    if TerminalIsNew(log) {
      forall conns | IsSession(codec, log, conns) && Session(codec, conns).closed
        ensures log[TerminalAt(log)] in Applied(Session(codec, conns))
      {
        ClosedAppliedIt(codec, log, TerminalAt(log), conns);
      }
    } else {
      WholeSession(codec, log);
      TerminalAppliedIffNew(log);
    }
  }

  lemma AppliedIsBelow(es: seq<Event>)
    ensures forall e | e in Distinct(es) :: e.Sequenced? && e.id <= Highest(es) && e in es
  {
    AppliedIncreases(es);
    AllSequenced(HandleAll(es).applied);
    AppliedIsThere(es);
  }

  lemma {:induction false} AppliedIsThere(es: seq<Event>)
    ensures forall e | e in HandleAll(es).applied :: e in es
  {
    if es != [] {
      AppliedIsThere(es[..|es| - 1]);
    }
  }

  // ---------- The page of a session ----------

  /** No queued event comes after a sequenced one. */
  predicate QueuedFirst(es: seq<Event>) {
    forall i, j | 0 <= i < j < |es| && es[i].Sequenced? :: !es[j].Queued?
  }

  lemma QueuedFirstParts(a: seq<Event>, b: seq<Event>)
    ensures QueuedFirst(a + b) <==>
            && QueuedFirst(a) && QueuedFirst(b)
            && ((exists x | x in a :: x.Sequenced?) ==> forall y | y in b :: !y.Queued?)
  {
    var es := a + b;
    assert forall i | 0 <= i < |a| :: es[i] == a[i];
    assert forall j | 0 <= j < |b| :: es[|a| + j] == b[j];
    if QueuedFirst(es) && exists x | x in a :: x.Sequenced? {
      var i :| 0 <= i < |a| && a[i].Sequenced?;
      forall y | y in b ensures !y.Queued? {
        var j :| 0 <= j < |b| && b[j] == y;
        assert es[i].Sequenced? && es[|a| + j] == y;
      }
    }
  }

  lemma {:induction false} SentIsQueuedFirst(log: seq<Event>, lastId: int)
    requires QueuedFirst(log)
    ensures QueuedFirst(FinishedReplay(log, lastId))
    ensures forall e | e in FinishedReplay(log, lastId) :: e in log && (e.Queued? ==> lastId < 0)
  {
    if log != [] {
      assert log == [log[0]] + log[1..];
      QueuedFirstParts([log[0]], log[1..]);
      SentIsQueuedFirst(log[1..], lastId);
      QueuedFirstParts([log[0]], FinishedReplay(log[1..], lastId));
    }
  }

  /** Nothing queued has followed a sequenced event, and once there was one the client asks from an id. */
  predicate InSequence(c: Client) {
    QueuedFirst(c.delivered) && ((exists x | x in c.delivered :: x.Sequenced?) ==> HeaderId(c.lastId) >= 0)
  }

  lemma ReceiveInSequence(c: Client, e: Event)
    requires InSequence(c) && (e.Queued? ==> !exists x | x in c.delivered :: x.Sequenced?)
    ensures InSequence(Receive(c, Frame(e)))
  {
    if !c.closed {
      QueuedFirstParts(c.delivered, [e]);
      ReceiveAsksFrom(c, e);
      assert forall x | x in c.delivered + [e] :: x in c.delivered || x == e;
    }
  }

  lemma {:induction false} ReceiveAllInSequence(c: Client, es: seq<Event>)
    requires InSequence(c) && QueuedFirst(es)
    requires (exists x | x in c.delivered :: x.Sequenced?) ==> forall e | e in es :: !e.Queued?
    ensures InSequence(ReceiveAll(c, Frames(es)))
    decreases |es|
  {
    if es == [] {
      assert Frames(es) == [];
    } else {
      var e, rest := es[0], es[1..];
      assert es == [e] + rest && Frames(es) == [Frame(e)] + Frames(rest);
      QueuedFirstParts([e], rest);
      ReceiveInSequence(c, e);
      ReceiveAllFront(c, Frame(e), Frames(rest));
      assert forall x | x in Receive(c, Frame(e)).delivered :: x in c.delivered || x == e;
      ReceiveAllInSequence(Receive(c, Frame(e)), rest);
    }
  }

  lemma ConnectInSequence(codec: Codec, c: Client, log: seq<Event>, conn: Connection)
    requires ValidCodec(codec) && QueuedFirst(log) && InSequence(c) && IsConnection(codec, c, log, conn)
    ensures InSequence(Connect(codec, c, conn))
  {
    if !c.closed {
      var sent := FinishedReplay(log, HeaderId(c.lastId));
      var k := ConnectReceives(codec, c, log, conn);
      SentIsQueuedFirst(log, HeaderId(c.lastId));
      assert sent == sent[..k] + sent[k..];
      QueuedFirstParts(sent[..k], sent[k..]);
      assert Served(c, log)[..k] == Frames(sent[..k]);
      ReceiveAllInSequence(c.(buffer := ""), sent[..k]);
    }
  }

  lemma {:induction false} SessionInSequence(codec: Codec, log: seq<Event>, conns: seq<Connection>)
    requires ValidCodec(codec) && QueuedFirst(log) && IsSession(codec, log, conns)
    ensures InSequence(Session(codec, conns))
  {
    if conns != [] {
      var init := conns[..|conns| - 1];
      assert forall i | 0 <= i < |init| :: conns[..i] == init[..i];
      SessionInSequence(codec, log, init);
      ConnectInSequence(codec, Session(codec, init), log, conns[|conns| - 1]);
    }
  }

  lemma {:induction false} AppliedQueuedFirst(es: seq<Event>)
    requires QueuedFirst(es)
    ensures QueuedFirst(HandleAll(es).applied)
  {
    if es != [] {
      var init, e := es[..|es| - 1], es[|es| - 1];
      assert es == init + [e];
      QueuedFirstParts(init, [e]);
      AppliedQueuedFirst(init);
      AppliedIsThere(init);
      QueuedFirstParts(HandleAll(init).applied, [e]);
    }
  }

  /** If no queued event is logged after a sequenced one, no reconnecting ever wipes anything from the page. */
  lemma SessionKeepsPage(codec: Codec, log: seq<Event>, conns: seq<Connection>)
    requires ValidCodec(codec) && QueuedFirst(log) && IsSession(codec, log, conns)
    ensures var h := HandleAll(Session(codec, conns).delivered); KeepsAll(h.applied, h.output)
  {
    SessionInSequence(codec, log, conns);
    AppliedQueuedFirst(Session(codec, conns).delivered);
    NothingWipedIff(Session(codec, conns).delivered);
  }

  lemma {:induction false} NoneSequenced(es: seq<Event>)
    requires forall e | e in es :: !e.Sequenced?
    ensures OnlySequenced(es) == []
  {
    if es != [] { NoneSequenced(es[..|es| - 1]); }
  }

  lemma SequencedLast(init: seq<Event>, e: Event)
    ensures OnlySequenced(init + [e]) == OnlySequenced(init) + if e.Sequenced? then [e] else []
  {
    assert (init + [e])[..|init|] == init;
  }

  /** One more event on the page, among the sequenced ones. */
  lemma DrawnSequenced(output: seq<Event>, applied: seq<Event>, e: Event)
    requires OnlySequenced(output) == Filter(applied, HasLine()) && (e.Queued? ==> applied == [])
    ensures OnlySequenced(Drawn(output, e)) == Filter(applied + if e.Sequenced? then [e] else [], HasLine())
  {
    if e.Sequenced? {
      SequencedLast(output, e);
      KeptLast(applied, e);
    } else if e.Queued? {
      OnlySequencedOne(e);
      assert applied + [] == [];
    } else {
      assert applied + [] == applied;
    }
  }

  lemma KeptLast(applied: seq<Event>, e: Event)
    requires e.Sequenced?
    ensures Filter(applied + [e], HasLine()) == Filter(applied, HasLine()) + if Draws(e) then [e] else []
  {
    FilterLast(applied, e, HasLine());
  }

  lemma {:induction false} OutputInSequence(applied: seq<Event>)
    requires QueuedFirst(applied)
    ensures OnlySequenced(OutputOf(applied)) == Filter(OnlySequenced(applied), HasLine())
  {
    if applied != [] {
      var init, e := applied[..|applied| - 1], applied[|applied| - 1];
      assert applied == init + [e];
      NoneBeforeQueued(init, e);
      OutputInSequence(init);
      SequencedLast(init, e);
      DrawnSequenced(OutputOf(init), OnlySequenced(init), e);
    }
  }

  lemma NoneBeforeQueued(init: seq<Event>, e: Event)
    requires QueuedFirst(init + [e])
    ensures QueuedFirst(init) && (e.Queued? ==> OnlySequenced(init) == [])
  {
    QueuedFirstParts(init, [e]);
    assert e in [e];
    if e.Queued? { NoneSequenced(init); }
  }

  /** The page then shows the sequenced events that were applied, those that have a line, and no others. */
  lemma SessionShowsApplied(codec: Codec, log: seq<Event>, conns: seq<Connection>)
    requires ValidCodec(codec) && QueuedFirst(log) && IsSession(codec, log, conns)
    ensures var c := Session(codec, conns);
            OnlySequenced(HandleAll(c.delivered).output) == Filter(Applied(c), HasLine())
  {
    var delivered := Session(codec, conns).delivered;
    SessionInSequence(codec, log, conns);
    AppliedQueuedFirst(delivered);
    OutputIsOfApplied(delivered);
    OutputInSequence(HandleAll(delivered).applied);
  }

  /** A new client of a log with a queued event last. */
  lemma ReceiveLateQueued(e: Event)
    requires e.Sequenced?
    ensures ReceiveAll(Client("", "", [], false), Frames(FinishedReplay([e, Queued], -1))).delivered ==
            if Terminal(e) then [e] else [e, Queued]
  {
    var c0, log := Client("", "", [], false), [e, Queued];
    assert log[1..] == [Queued] && [Queued][1..] == [];
    assert FinishedReplay(log, -1) == log;
    assert Frames(log) == [Frame(e)] + [Frame(Queued)];
    ReceiveAllFront(c0, Frame(e), [Frame(Queued)]);
    assert [Frame(Queued)][..0] == [];
    assert Receive(c0, Frame(e)).delivered == [e];
  }

  lemma HandleLateQueued(e: Event)
    requires Draws(e)
    ensures HandleAll([e]) == Handler(e.id, [e], [e])
    ensures HandleAll([e, Queued]) == Handler(e.id, [e, Queued], [Queued])
  {
    assert [e][..0] == [] && [e, Queued][..1] == [e];
  }

  /** The submit route publishes the queued event on its own; logged behind the first output, it wipes that. */
  lemma LateQueuedWipes(codec: Codec, e: Event)
    requires ValidCodec(codec) && Draws(e)
    ensures e in HandleAll(Session(codec, [Whole(codec, [e, Queued])]).delivered).applied
    ensures Terminal(e) || e !in HandleAll(Session(codec, [Whole(codec, [e, Queued])]).delivered).output
  {
    WholeSession(codec, [e, Queued]);
    ReceiveLateQueued(e);
    HandleLateQueued(e);
  }
}
