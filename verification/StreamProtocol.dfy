/**
 A live connection against the publisher: the log, the channel and the connection's
 replay, subscribe, replay sequence, interleaved step by step.
 */
module StreamProtocol {
  import opened Events
  import opened StreamRoute

  datatype Phase =
    | Started
    | FirstFetched    // the first read of the log has taken its snapshot
    | FirstScanned
    | Subscribed      // the server delivers, but no handler is registered yet
    | Listening       // messages are handled
    | SecondFetched   // the second read of the log has taken its snapshot
    | Live

  /**
   `chan` holds published messages that are on their way to the connection. `snap1` and
   `snap2` are how long the log was when it was read. The last three fields record
   history: `gapEnd` is how many of the sequenced events had either been in the first
   snapshot or left the channel when the handler was registered, `early` says a sequenced
   message was handled before the second scan, and `cut` says the connection was closed from
   outside.
   */
  datatype World = World(
    lastId: int, phase: Phase, conn: Conn,
    log: seq<Event>, published: seq<Event>, chan: seq<Event>,
    snap1: nat, snap2: nat,
    gapEnd: nat, early: bool, cut: bool)

  datatype Action =
    | Push(e: Event)
    | Publish(e: Event)
    | FetchFirst
    | ScanFirst
    | Subscribe
    | Lose            // a message arrives before there is a handler for it
    | Listen
    | Deliver
    | FetchSecond
    | ScanSecond
    | Cut             // client disconnect, write error or the duration cap

  predicate Enabled(w: World, a: Action) {
    match a
    case Push(_) => true
    case Publish(_) => true
    case FetchFirst => w.phase.Started?
    case ScanFirst => w.phase.FirstFetched? && w.snap1 <= |w.log|
    case Subscribe => w.phase.FirstScanned? && !w.conn.closed
    case Lose => w.phase.Subscribed? && w.chan != []
    case Listen => w.phase.Subscribed?
    case Deliver => (w.phase.Listening? || w.phase.SecondFetched? || w.phase.Live?) && w.chan != []
    case FetchSecond => w.phase.Listening?
    case ScanSecond => w.phase.SecondFetched? && w.snap2 <= |w.log|
    case Cut => true
  }

  predicate IsSubscribed(w: World) {
    w.phase.Subscribed? || w.phase.Listening? || w.phase.SecondFetched? || w.phase.Live?
  }

  /** How many of the published sequenced events have left the channel. */
  function Received(w: World): int { |OnlySequenced(w.published)| - |OnlySequenced(w.chan)| }

  /** How many sequenced events each snapshot held. */
  function Snap1(w: World): nat { |OnlySequenced(Front(w.log, w.snap1))| }

  function Snap2(w: World): nat { |OnlySequenced(Front(w.log, w.snap2))| }

  function Next(w: World, a: Action): World
    requires Enabled(w, a)
  {
    match a
    case Push(e) => w.(log := w.log + [e])
    case Publish(e) =>
      w.(published := w.published + [e], chan := if IsSubscribed(w) then w.chan + [e] else w.chan)
    case FetchFirst => w.(phase := FirstFetched, snap1 := |w.log|)
    case ScanFirst => w.(phase := FirstScanned, conn := FirstReplay(w.conn, w.lastId, w.log[..w.snap1]))
    case Subscribe => w.(phase := Subscribed, chan := [])
    case Lose => w.(chan := w.chan[1..])
    case Listen => w.(phase := Listening, gapEnd := Max(Snap1(w), Received(w)))
    case Deliver =>
      w.(conn := OnMessage(w.conn, w.chan[0]), chan := w.chan[1..],
         early := w.early || (!w.phase.Live? && w.chan[0].Sequenced? && !w.conn.closed))
    case FetchSecond => w.(phase := SecondFetched, snap2 := |w.log|)
    case ScanSecond => w.(phase := Live, conn := SecondReplay(w.conn, w.log[..w.snap2]))
    case Cut => w.(conn := w.conn.(closed := true), cut := w.cut || !w.conn.closed)
  }

  /** The sequenced events so far, in the one order the worker gives them: published, logged, or both. */
  function Stream(w: World): seq<Event> {
    var logged, published := OnlySequenced(w.log), OnlySequenced(w.published);
    if |logged| < |published| then published else logged
  }

  /** The sequenced events are published and logged in one order; either side may lead. */
  predicate InOneOrder(w: World) {
    OnlySequenced(w.published) <= OnlySequenced(w.log) || OnlySequenced(w.log) <= OnlySequenced(w.published)
  }

  /** What is asked of a run: nothing; one order of the sequenced events; or that with the log never behind. */
  datatype Order = AnyOrder | OneOrder | PushFirst

  predicate Obeys(order: Order, w: World) {
    match order
    case AnyOrder => true
    case OneOrder => InOneOrder(w)
    case PushFirst => OnlySequenced(w.published) <= OnlySequenced(w.log)
  }

  predicate RunEnabled(w: World, run: seq<Action>, order: Order)
    decreases run
  {
    run != [] ==>
      && Enabled(w, run[0])
      && Obeys(order, Next(w, run[0]))
      && RunEnabled(Next(w, run[0]), run[1..], order)
  }

  function Run(w: World, run: seq<Action>, order: Order): World
    requires RunEnabled(w, run, order)
    decreases run
  {
    if run == [] then w else Run(Next(w, run[0]), run[1..], order)
  }

  /** A connection that is about to start, with a Last-Event-ID, on a log that is already there. */
  function Start(lastId: int, log: seq<Event>, published: seq<Event>): World {
    World(lastId, Started, Conn(lastId, [], false), log, published, [], 0, 0, 0, false, false)
  }

  lemma {:induction false} RunKeepsLastId(w: World, run: seq<Action>, order: Order)
    requires RunEnabled(w, run, order)
    ensures Run(w, run, order).lastId == w.lastId
    decreases run
  {
    if run != [] {
      RunKeepsLastId(Next(w, run[0]), run[1..], order);
    }
  }

  /** A run that keeps to an order is a run. */
  lemma {:induction false} AnyRun(w: World, run: seq<Action>, order: Order)
    requires RunEnabled(w, run, order)
    ensures RunEnabled(w, run, AnyOrder) && Run(w, run, AnyOrder) == Run(w, run, order)
    decreases run
  {
    if run != [] {
      AnyRun(Next(w, run[0]), run[1..], order);
    }
  }

  // ---------- The queued event ----------

  predicate IsScanned(w: World) { !w.phase.Started? && !w.phase.FirstFetched? }

  lemma StepWritesNoQueued(w: World, a: Action)
    requires Enabled(w, a) && IsScanned(w)
    ensures IsScanned(Next(w, a)) && w.conn.written <= Next(w, a).conn.written
    ensures Queued !in Next(w, a).conn.written[|w.conn.written|..]
  {
    if a.Deliver? && !w.conn.closed { MessageWrites(w.conn, w.chan[0]); }
    if a.ScanSecond? { SecondReplayWrites(w.conn, w.log[..w.snap2]); }
  }

  /** After the first scan a connection writes no queued event, whatever is published or logged when. */
  lemma {:induction false} NoQueuedAfterFirstScan(w: World, run: seq<Action>, order: Order)
    requires RunEnabled(w, run, order) && IsScanned(w)
    ensures w.conn.written <= Run(w, run, order).conn.written
    ensures Queued !in Run(w, run, order).conn.written[|w.conn.written|..]
    decreases run
  {
    if run != [] {
      var w1 := Next(w, run[0]);
      StepWritesNoQueued(w, run[0]);
      NoQueuedAfterFirstScan(w1, run[1..], order);
      var end := Run(w, run, order).conn.written;
      assert end[|w.conn.written|..] == w1.conn.written[|w.conn.written|..] + end[|w1.conn.written|..];
    }
  }

  // ---------- The publisher's order ----------

  /** For each event the publisher issues the channel message, then the list append. */
  function Commands(es: seq<Event>): seq<Action> {
    if es == [] then [] else [Publish(es[0]), Push(es[0])] + Commands(es[1..])
  }

  lemma {:induction false} CommandsConcat(a: seq<Event>, b: seq<Event>)
    ensures Commands(a + b) == Commands(a) + Commands(b)
  {
    if a == [] {
      assert a + b == b;
    } else {
      assert (a + b)[1..] == a[1..] + b;
      CommandsConcat(a[1..], b);
    }
  }

  predicate IsIssued(a: Action) { (a.Publish? || a.Push?) && a.e.Sequenced? }

  /** The commands for sequenced events in a run, whatever lies between them. */
  function Issued(run: seq<Action>): seq<Action> {
    if run == [] then []
    else (if IsIssued(run[0]) then [run[0]] else []) + Issued(run[1..])
  }

  /** The events are published and logged alike, or the next one is published and not yet logged. */
  predicate Publishing(logged: seq<Event>, published: seq<Event>, issued: seq<Action>, es: seq<Event>) {
    || (published == logged && issued <= Commands(es))
    || (es != [] && published == logged + [es[0]] && issued <= Commands(es)[1..])
  }

  /** The next command of the publisher. */
  lemma NextCommand(logged: seq<Event>, published: seq<Event>, issued: seq<Action>, es: seq<Event>)
    requires Publishing(logged, published, issued, es) && issued != []
    ensures es != []
    ensures if published == logged then
              issued[0] == Publish(es[0]) && Publishing(logged, published + [es[0]], issued[1..], es)
            else issued[0] == Push(es[0]) && Publishing(logged + [es[0]], published, issued[1..], es[1..])
  {
    if published == logged { CommandsFirst(es, issued); } else { CommandsSecond(es, issued); }
  }

  lemma PublishingStep(w: World, run: seq<Action>, es: seq<Event>) returns (es': seq<Event>)
    requires run != [] && Enabled(w, run[0]) && forall e | e in es :: e.Sequenced?
    requires Publishing(OnlySequenced(w.log), OnlySequenced(w.published), Issued(run), es)
    ensures var w' := Next(w, run[0]);
            Publishing(OnlySequenced(w'.log), OnlySequenced(w'.published), Issued(run[1..]), es')
    ensures forall e | e in es' :: e.Sequenced?
  {
    var logged, published := OnlySequenced(w.log), OnlySequenced(w.published);
    es' := es;
    SequencedStep(w, run[0]);
    IssuedFirst(run);
    if IsIssued(run[0]) {
      NextCommand(logged, published, Issued(run), es);
      if published != logged { es' := es[1..]; }
    } else {
      assert logged + [] == logged && published + [] == published;
    }
  }

  /**
   Only the worker numbers events. Its commands, issued one event after the other, keep to one
   order wherever other steps fall between them, the queued event's two commands among these.
   */
  lemma {:induction false} PublisherKeepsOneOrder(w: World, run: seq<Action>, es: seq<Event>)
    requires RunEnabled(w, run, AnyOrder) && forall e | e in es :: e.Sequenced?
    requires Publishing(OnlySequenced(w.log), OnlySequenced(w.published), Issued(run), es)
    ensures RunEnabled(w, run, OneOrder)
    decreases run
  {
    if run != [] {
      var es' := PublishingStep(w, run, es);
      PublisherKeepsOneOrder(Next(w, run[0]), run[1..], es');
    }
  }

  lemma IssuedFirst(run: seq<Action>)
    requires run != []
    ensures var issued := Issued(run);
            if IsIssued(run[0]) then issued != [] && issued[0] == run[0] && issued[1..] == Issued(run[1..])
            else issued == Issued(run[1..])
  {
  }

  lemma CommandsFirst(es: seq<Event>, issued: seq<Action>)
    requires issued != [] && issued <= Commands(es)
    ensures es != [] && issued[0] == Publish(es[0]) && issued[1..] <= Commands(es)[1..]
  {
  }

  lemma CommandsSecond(es: seq<Event>, issued: seq<Action>)
    requires es != [] && issued != [] && issued <= Commands(es)[1..]
    ensures issued[0] == Push(es[0]) && issued[1..] <= Commands(es[1..])
  {
    assert Commands(es)[1..][1..] == Commands(es[1..]);
  }

  /** What a step does to the sequenced events on either side. */
  lemma SequencedStep(w: World, a: Action)
    requires Enabled(w, a)
    ensures OnlySequenced(Next(w, a).log) == OnlySequenced(w.log) + if a.Push? && a.e.Sequenced? then [a.e] else []
    ensures OnlySequenced(Next(w, a).published) ==
            OnlySequenced(w.published) + if a.Publish? && a.e.Sequenced? then [a.e] else []
  {
    match a
    case Push(e) => OnlySequencedConcat(w.log, [e]); OnlySequencedOne(e);
    case Publish(e) => OnlySequencedConcat(w.published, [e]); OnlySequencedOne(e);
    case _ =>
  }

  // ---------- Safety in every interleaving ----------

  predicate BeforeScan(w: World) { w.phase.Started? || w.phase.FirstFetched? }

  /** Whether ids repeat or go down on the wire was decided by the first scan. */
  predicate OrderIsFirstScans(w: World)
    requires w.snap1 <= |w.log|
  {
    || (w.conn.closed && w.conn.written == [])
    || (Increasing(w.conn.written) <==> Increasing(Owed(w.log[..w.snap1], w.lastId)))
  }

  predicate Safe(w: World) {
    && WellOrdered(w.conn, w.lastId)
    && w.snap1 <= |w.log| && w.snap2 <= |w.log|
    && (if BeforeScan(w) then w.conn.written == [] else OrderIsFirstScans(w))
    && (forall e | e in w.chan :: e in w.published)
    && (forall e | e in w.conn.written :: e in w.log || e in w.published)
  }

  lemma ScanFirstIsSafe(w: World)
    requires Safe(w) && Enabled(w, ScanFirst)
    ensures Safe(Next(w, ScanFirst))
  {
    FirstReplayKeepsOrder(w.conn, w.lastId, w.log[..w.snap1]);
    if w.conn.closed {
      FirstReplayStaysClosed(w.conn, w.lastId, w.log[..w.snap1]);
    } else {
      FirstReplayIncreasesIff(w.conn, w.lastId, w.log[..w.snap1]);
    }
  }

  lemma DeliverIsSafe(w: World)
    requires Safe(w) && Enabled(w, Deliver)
    ensures Safe(Next(w, Deliver))
  {
    MessageKeepsOrder(w.conn, w.lastId, w.chan[0]);
    assert w.chan[0] in w.published;
    assert forall x | x in OnMessage(w.conn, w.chan[0]).written :: x in w.conn.written || x == w.chan[0];
  }

  lemma StepIsSafe(w: World, a: Action)
    requires Safe(w) && Enabled(w, a)
    ensures Safe(Next(w, a))
  {
    match a
    case ScanFirst => ScanFirstIsSafe(w);
    case ScanSecond => SecondReplayKeepsOrder(w.conn, w.lastId, w.log[..w.snap2]);
    case Deliver => DeliverIsSafe(w);
    case Push(e) => assert (w.log + [e])[..w.snap1] == w.log[..w.snap1];
    case _ =>
  }

  lemma {:induction false} EveryRunIsSafe(w: World, run: seq<Action>)
    requires Safe(w) && RunEnabled(w, run, AnyOrder)
    ensures Safe(Run(w, run, AnyOrder))
    decreases run
  {
    if run != [] {
      StepIsSafe(w, run[0]);
      EveryRunIsSafe(Next(w, run[0]), run[1..]);
    }
  }

  /**
   However the steps interleave, over any log, and even if publishing and logging an event
   are far apart: everything written was logged or published and has an id above
   Last-Event-ID, and nothing is written after a terminal event. The ids written go up
   strictly if and only if those the first scan came upon did; over an increasing log they do.
   */
  lemma WrittenEventsAreSafe(lastId: int, log: seq<Event>, published: seq<Event>, run: seq<Action>)
    requires RunEnabled(Start(lastId, log, published), run, AnyOrder)
    ensures var w := Run(Start(lastId, log, published), run, AnyOrder);
            && (forall e | e in w.conn.written :: e in w.log || e in w.published)
            && (forall e | e in w.conn.written && e.Sequenced? :: e.id > lastId)
            && (forall i | 0 <= i < |w.conn.written| - 1 :: !Terminal(w.conn.written[i]))
            && w.snap1 <= |w.log|
            && (Increasing(w.conn.written) <==>
                  w.conn.written == [] || Increasing(Owed(w.log[..w.snap1], lastId)))
            && (Increasing(w.log) ==> Increasing(w.conn.written))
  {
    EveryRunIsSafe(Start(lastId, log, published), run);
    RunKeepsLastId(Start(lastId, log, published), run, AnyOrder);
    var w := Run(Start(lastId, log, published), run, AnyOrder);
    if Increasing(w.log) {
      PrefixIncreases(w.log[..w.snap1], w.log[w.snap1..]);
      assert w.log == w.log[..w.snap1] + w.log[w.snap1..];
      OwedIncreases(w.log[..w.snap1], lastId);
    }
  }
}
