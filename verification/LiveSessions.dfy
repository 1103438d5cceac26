/**
 A page that follows a submission through any number of connections, live ones while it runs
 and replays once it has finished, each cut anywhere and delivered in any chunks.
 */
module LiveSessions {
  import opened Events
  import opened SseText
  import opened SseClient
  import opened Reconnect
  import StreamRoute
  import StreamProtocol
  import StreamNoLoss

  // ---------- A connection's events, taken by a reader that started earlier ----------

  lemma {:induction false} TerminalEndsReading(log: seq<Event>, t: nat, n: nat)
    requires FirstTerminal(log, t) && NewAt(log, t) && n <= |log|
    ensures Reading(-1, log, n).Done? <==> t < n
    ensures t < n ==> Reading(-1, log, n) == Reading(-1, log, t + 1)
  {
    if n <= t {
      ReadingIsActive(log, t, n);
    } else {
      ReadingIsActive(log, t, t);
      TerminalTaken(log, t);
      StreamNoLoss.NoNews(-1, log, t + 1, n);
    }
  }

  /** In a log whose ids never go down, the first terminal event is new. */
  lemma TerminalIsNewThere(log: seq<Event>, t: nat)
    requires Stutters(log) && FirstTerminal(log, t)
    ensures NewAt(log, t)
  {
  }

  lemma HighestGrows(lastId: int, log: seq<Event>, n: nat, k: nat)
    requires n <= k <= |log| && Reading(lastId, log, k).Active?
    ensures Reading(lastId, log, n).Active? && Reading(lastId, log, n).highest <= Reading(lastId, log, k).highest
  {
    assert log[..k] == log[..n] + log[n..k];
    TakeAllConcat(Active(lastId, []), log[..n], log[n..k]);
    TakeAllBounds(Reading(lastId, log, n), log[n..k]);
  }

  /** What a reader from `lastId` has seen, one that started earlier and has seen `lastId` has seen too. */
  lemma HighestIsSeen(lastId: int, log: seq<Event>, n: nat, k: nat, m: nat)
    requires n <= m <= |log| && k <= m && Reading(lastId, log, k).Active? && Reading(-1, log, m).Active?
    requires Reading(-1, log, n).Active? && lastId <= Reading(-1, log, n).highest
    ensures Reading(lastId, log, k).highest <= Reading(-1, log, m).highest
  {
    TakeAllBounds(Active(lastId, []), log[..k]);
    TakeAllBounds(Active(-1, []), log[..m]);
    HighestGrows(-1, log, n, m);
    var h := Reading(lastId, log, k).highest;
    if h != lastId {
      var e :| e in log[..k] && e.Sequenced? && e.id == h;
      assert forall i | 0 <= i < k :: log[..k][i] == log[..m][i];
      assert e in log[..m];
    }
  }

  lemma {:induction false} DoneSawTerminal(lastId: int, log: seq<Event>, k: nat)
    requires k <= |log| && Reading(lastId, log, k).Done?
    ensures exists i | 0 <= i < k :: Terminal(log[i])
  {
    if k > 0 {
      ReadingStep(lastId, log, k - 1);
      if Reading(lastId, log, k - 1).Done? {
        DoneSawTerminal(lastId, log, k - 1);
      }
    }
  }

  /** An event the connection passes over is no news to a reader that has seen `lastId`. */
  lemma PassedOverIsOld(lastId: int, log: seq<Event>, t: nat, n: nat, k: nat)
    requires FirstTerminal(log, t) && NewAt(log, t) && n <= k < |log|
    requires Take(Reading(lastId, log, k), log[k]) == Reading(lastId, log, k)
    requires Reading(-1, log, n).Active? && lastId <= Reading(-1, log, n).highest
    ensures Reading(-1, log, k + 1) == Reading(-1, log, k)
  {
    ReadingStep(-1, log, k);
    if Reading(lastId, log, k).Done? {
      DoneSawTerminal(lastId, log, k);
      TerminalEndsReading(log, t, k);
    } else if Reading(-1, log, k).Active? {
      HighestIsSeen(lastId, log, n, k, k);
    }
  }

  /** Taking what a connection from `lastId` read of `k` entries brings a reader of `n` to the larger of the two. */
  lemma {:induction false} TakeRead(lastId: int, log: seq<Event>, t: nat, n: nat, k: nat)
    requires FirstTerminal(log, t) && NewAt(log, t) && n <= |log| && k <= |log|
    requires Reading(-1, log, n).Active? && lastId <= Reading(-1, log, n).highest
    ensures TakeAll(Reading(-1, log, n), Reading(lastId, log, k).out) == Reading(-1, log, Max(n, k))
    decreases k
  {
    if k > 0 {
      var j := k - 1;
      var r, e := Reading(lastId, log, j), log[j];
      TakeRead(lastId, log, t, n, j);
      ReadingStep(lastId, log, j);
      if r.Done? || !After(e, r.highest) {
        if n <= j { PassedOverIsOld(lastId, log, t, n, j); }
      } else {
        assert (r.out + [e])[..|r.out|] == r.out;
        OneMore(-1, log, Max(n, j), j);
      }
    }
  }

  /** The reader before its last step read fewer entries. */
  lemma {:induction false} ReadBefore(lastId: int, log: seq<Event>, k: nat, r: Reader, e: Event) returns (k0: nat)
    requires k <= |log| && Take(r, e) == Reading(lastId, log, k) && r != Take(r, e)
    requires r.Active? && r.highest == Top(lastId, r.out)
    ensures k0 < k && r == Reading(lastId, log, k0)
    decreases k
  {
    var r1 := Reading(lastId, log, k);
    if k == 0 {
      assert false;
    } else {
      ReadingStep(lastId, log, k - 1);
      var r0 := Reading(lastId, log, k - 1);
      if r0 == r1 {
        k0 := ReadBefore(lastId, log, k - 1, r, e);
      } else {
        k0 := k - 1;
        assert r.out == r1.out[..|r1.out| - 1] == r0.out;
        ReadingTop(lastId, log[..k - 1]);
      }
    }
  }

  /** And what is read of all but the last event is what is read of some entries. */
  lemma ReadBeforeLast(lastId: int, log: seq<Event>, k: nat, es: seq<Event>) returns (k0: nat)
    requires k <= |log| && es != [] && ReadLog(lastId, es) == Reading(lastId, log, k)
    requires ReadLog(lastId, es[..|es| - 1]).Active?
    ensures k0 <= k && ReadLog(lastId, es[..|es| - 1]) == Reading(lastId, log, k0)
    ensures var r, e := ReadLog(lastId, es[..|es| - 1]), es[|es| - 1];
            if Take(r, e) == r then k0 == k else Reading(lastId, log, k).out == Reading(lastId, log, k0).out + [e]
  {
    var r, e := ReadLog(lastId, es[..|es| - 1]), es[|es| - 1];
    k0 := k;
    if Take(r, e) != r {
      ReadingTop(lastId, es[..|es| - 1]);
      k0 := ReadBefore(lastId, log, k, r, e);
    }
  }

  /** The highest id of an open reader. */
  function Top(lastId: int, out: seq<Event>): int {
    if out == [] || !out[|out| - 1].Sequenced? then lastId else out[|out| - 1].id
  }

  lemma {:induction false} ReadingTop(lastId: int, es: seq<Event>)
    ensures ReadLog(lastId, es).Active? ==> ReadLog(lastId, es).highest == Top(lastId, ReadLog(lastId, es).out)
  {
    if es != [] {
      ReadingTop(lastId, es[..|es| - 1]);
    }
  }

  lemma ReadIsThere(lastId: int, log: seq<Event>, k: nat, e: Event) returns (j: nat)
    requires k <= |log| && e in Reading(lastId, log, k).out
    ensures j < k && log[j] == e
  {
    TakeAllBounds(Active(lastId, []), log[..k]);
    j :| 0 <= j < k && log[..k][j] == e;
  }

  // ---------- A client that receives them ----------

  /** What a connection writes: a terminal event is the last, and a reader stops at it. */
  predicate WellWritten(lastId: int, es: seq<Event>) {
    forall i | 0 <= i < |es| && Terminal(es[i]) :: i == |es| - 1 && ReadLog(lastId, es).Done?
  }

  lemma WellWrittenFront(lastId: int, es: seq<Event>, k: nat)
    requires WellWritten(lastId, es) && k < |es|
    ensures WellWritten(lastId, es[..k]) && ReadLog(lastId, es[..k]).Active?
  {
    assert forall i | 0 <= i < k :: es[..k][i] == es[i] && !Terminal(es[i]);
    NoTerminalNoEnd(lastId, es[..k]);
  }

  lemma {:induction false} NoTerminalNoEnd(lastId: int, es: seq<Event>)
    requires forall e | e in es :: !Terminal(e)
    ensures ReadLog(lastId, es).Active?
  {
    if es != [] {
      NoTerminalNoEnd(lastId, es[..|es| - 1]);
    }
  }

  lemma ReceiveLast(c: Client, es: seq<Event>)
    requires es != []
    ensures var n := |es| - 1;
            ReceiveAll(c, Frames(es)) == Receive(ReceiveAll(c, Frames(es[..n])), Frame(es[n]))
  {
    var n := |es| - 1;
    assert Frames(es)[..n] == Frames(es[..n]);
  }

  /** The client is a reader of the first `m` entries, and if open asks from an id it has seen. */
  predicate IsAt(c: Client, log: seq<Event>, m: int) {
    && 0 <= m <= |log| && View(c) == Reading(-1, log, m)
    && (!c.closed ==> HeaderId(c.lastId) <= MaxSeen(c))
  }

  lemma ReceiveOne(c: Client, log: seq<Event>, m: int, e: Event)
    requires IsAt(c, log, m) && (!c.closed && Terminal(e) ==> e.id > MaxSeen(c))
    ensures var c' := Receive(c, Frame(e));
            && View(c') == Take(Reading(-1, log, m), e)
            && (!c'.closed ==> HeaderId(c'.lastId) <= MaxSeen(c'))
  {
    if !c.closed { ReceiveHandles(c, e); }
  }

  /** One more event written, one more step read. */
  lemma OneMoreTaken(log: seq<Event>, t: nat, n: nat, lastId: int, k0: nat, k: nat, e: Event)
    requires FirstTerminal(log, t) && NewAt(log, t) && n <= |log| && k0 <= |log| && k <= |log|
    requires Reading(-1, log, n).Active? && lastId <= Reading(-1, log, n).highest
    requires Reading(lastId, log, k).out == Reading(lastId, log, k0).out + [e]
    ensures Reading(-1, log, Max(n, k)) == Take(Reading(-1, log, Max(n, k0)), e)
  {
    TakeRead(lastId, log, t, n, k0);
    TakeRead(lastId, log, t, n, k);
    var out0, out := Reading(lastId, log, k0).out, Reading(lastId, log, k).out;
    assert out[..|out| - 1] == out0 && out[|out| - 1] == e;
  }

  lemma NextTerminalIsNew(c: Client, log: seq<Event>, t: nat, m: int, lastId: int, k: nat, e: Event)
    requires Stutters(log) && FirstTerminal(log, t) && k <= |log|
    requires IsAt(c, log, m) && !c.closed && Terminal(e) && e in Reading(lastId, log, k).out
    ensures e.id > MaxSeen(c)
  {
    var j := ReadIsThere(lastId, log, k, e);
    TerminalIsNewThere(log, t);
    TerminalEndsReading(log, t, m);
    TakeAllBounds(Active(-1, []), log[..m]);
    if MaxSeen(c) != -1 {
      var x :| x in log[..m] && x.Sequenced? && x.id == MaxSeen(c);
      assert forall i | 0 <= i < m :: log[..m][i] == log[i];
    }
  }

  /** The event was new to the connection's reader. */
  lemma ReceiveNews(c: Client, log: seq<Event>, t: nat, n: nat, lastId: int, k0: nat, k: nat, e: Event)
    requires Stutters(log) && FirstTerminal(log, t) && n <= |log| && k0 <= |log| && k <= |log|
    requires Reading(-1, log, n).Active? && lastId <= Reading(-1, log, n).highest
    requires Reading(lastId, log, k).out == Reading(lastId, log, k0).out + [e] && IsAt(c, log, Max(n, k0))
    ensures IsAt(Receive(c, Frame(e)), log, Max(n, k))
  {
    TerminalIsNewThere(log, t);
    if !c.closed && Terminal(e) { NextTerminalIsNew(c, log, t, Max(n, k0), lastId, k, e); }
    ReceiveOne(c, log, Max(n, k0), e);
    OneMoreTaken(log, t, n, lastId, k0, k, e);
  }

  /** The event was not. */
  lemma ReceiveRepeat(c: Client, log: seq<Event>, n: nat, lastId: int, k: nat, e: Event)
    requires n <= |log| && k <= |log| && IsAt(c, log, Max(n, k)) && !Terminal(e)
    requires Reading(-1, log, n).Active? && lastId <= Reading(-1, log, n).highest
    requires Reading(lastId, log, k).Active? && !After(e, Reading(lastId, log, k).highest)
    ensures IsAt(Receive(c, Frame(e)), log, Max(n, k))
  {
    if !c.closed { HighestIsSeen(lastId, log, n, k, Max(n, k)); }
    ReceiveOne(c, log, Max(n, k), e);
  }

  /** What a client makes of a beginning of what one connection wrote. */
  lemma {:induction false} ReceiveWritten(c: Client, log: seq<Event>, t: nat, n: nat,
                                          lastId: int, es: seq<Event>, k: nat)
    requires Stutters(log) && FirstTerminal(log, t) && IsAt(c, log, n) && !c.closed && lastId <= MaxSeen(c)
    requires k <= |log| && WellWritten(lastId, es) && ReadLog(lastId, es) == Reading(lastId, log, k)
    ensures IsAt(ReceiveAll(c, Frames(es)), log, Max(n, k))
    decreases |es|
  {
    if es == [] {
      TerminalIsNewThere(log, t);
      TakeRead(lastId, log, t, n, k);
    } else {
      var init, e := es[..|es| - 1], es[|es| - 1];
      var r := ReadLog(lastId, init);
      WellWrittenFront(lastId, es, |es| - 1);
      ReceiveLast(c, es);
      var k0 := ReadBeforeLast(lastId, log, k, es);
      ReceiveWritten(c, log, t, n, lastId, init, k0);
      var c0 := ReceiveAll(c, Frames(init));
      if Take(r, e) == r {
        ReceiveRepeat(c0, log, n, lastId, k, e);
      } else {
        ReceiveNews(c0, log, t, n, lastId, k0, k, e);
      }
    }
  }

  // ---------- Connections ----------

  /** The events among what was written; heartbeat comments may lie anywhere between them. */
  function EventsOf(items: seq<Item>): seq<Event> {
    if items == [] then []
    else EventsOf(items[..|items| - 1]) + if items[|items| - 1].Frame? then [items[|items| - 1].e] else []
  }

  lemma {:induction false} CommentsAreIgnored(c: Client, items: seq<Item>)
    ensures ReceiveAll(c, items) == ReceiveAll(c, Frames(EventsOf(items)))
  {
    if items != [] {
      var init, last := items[..|items| - 1], items[|items| - 1];
      CommentsAreIgnored(c, init);
      if last.Frame? {
        ReceiveLast(c, EventsOf(items));
        assert EventsOf(items)[..|EventsOf(items)| - 1] == EventsOf(init);
      } else {
        assert EventsOf(items) == EventsOf(init);
      }
    }
  }

  lemma {:induction false} EventsOfPrefix(items: seq<Item>, k: nat)
    requires k <= |items|
    ensures EventsOf(items[..k]) <= EventsOf(items)
  {
    if k == |items| {
      assert items[..k] == items;
    } else {
      var init := items[..|items| - 1];
      assert init[..k] == items[..k];
      EventsOfPrefix(init, k);
    }
  }

  lemma {:induction false} EventsOfItems(items: seq<Item>, item: Item)
    requires item in items && item.Frame?
    ensures item.e in EventsOf(items)
  {
    var init, last := items[..|items| - 1], items[|items| - 1];
    assert items == init + [last];
    if item in init { EventsOfItems(init, item); }
  }

  /**
   One connection of the page: to a submission still running, whose route handler has made
   this run by the time the page is cut off, or to a finished one.
   */
  datatype Link =
    | Live(log: seq<Event>, published: seq<Event>, run: seq<StreamProtocol.Action>, items: seq<Item>, text: Connection)
    | Finished(text: Connection)

  predicate Started(c: Client, link: Link)
    requires link.Live?
  {
    && StreamProtocol.InOneOrder(StartOf(c, link))
    && StreamProtocol.RunEnabled(StartOf(c, link), link.run, StreamProtocol.OneOrder)
  }

  /** The connection starts from the page's Last-Event-ID. */
  function StartOf(c: Client, link: Link): StreamProtocol.World
    requires link.Live?
  {
    StreamProtocol.Start(HeaderId(c.lastId), link.log, link.published)
  }

  function EndOf(c: Client, link: Link): StreamProtocol.World
    requires link.Live? && Started(c, link)
  {
    StreamProtocol.Run(StartOf(c, link), link.run, StreamProtocol.OneOrder)
  }

  predicate IsLink(codec: Codec, c: Client, log: seq<Event>, link: Link) {
    match link
    case Finished(text) => IsConnection(codec, c, log, text)
    case Live(_, _, _, items, text) =>
      && Started(c, link)
      && !EndOf(c, link).cut && !StreamNoLoss.Lossy(EndOf(c, link))
      && StreamProtocol.Stream(EndOf(c, link)) <= OnlySequenced(log)
      && EventsOf(items) == EndOf(c, link).conn.written
      && text.n <= |FormatAll(codec, items)|
      && Concat(text.chunks) == FormatAll(codec, items)[..text.n]
  }

  /** All the connection's text arrived, and the connection had caught up with the whole log. */
  predicate Complete(codec: Codec, c: Client, log: seq<Event>, link: Link)
    requires IsLink(codec, c, log, link)
  {
    match link
    case Finished(text) => Uncut(codec, c, log, text)
    case Live(_, _, _, items, text) =>
      && text.n == |FormatAll(codec, items)|
      && StreamNoLoss.Drained(EndOf(c, link)) && StreamProtocol.Stream(EndOf(c, link)) == OnlySequenced(log)
  }

  /** A page that connects again after each cut, until it has seen a terminal event. */
  function Follow(codec: Codec, links: seq<Link>): Client {
    if links == [] then Client("", "", [], false)
    else Connect(codec, Follow(codec, links[..|links| - 1]), links[|links| - 1].text)
  }

  ghost predicate IsFollowing(codec: Codec, log: seq<Event>, links: seq<Link>) {
    forall i | 0 <= i < |links| :: IsLink(codec, Follow(codec, links[..i]), log, links[i])
  }

  // ---------- What a live connection wrote ----------

  lemma WrittenIsWell(c: StreamRoute.Conn, lastId: int)
    requires StreamRoute.Tuned(c, lastId) && StreamRoute.WellOrdered(c, lastId)
    ensures WellWritten(lastId, c.written)
  {
  }

  /** A connection that loses nothing has written, at any moment, what a reader reads of a part of the stream. */
  lemma WrittenIsRead(lastId: int, log0: seq<Event>, published: seq<Event>, run: seq<StreamProtocol.Action>)
    returns (k: nat)
    requires StreamProtocol.InOneOrder(StreamProtocol.Start(lastId, log0, published))
    requires StreamProtocol.RunEnabled(StreamProtocol.Start(lastId, log0, published), run, StreamProtocol.OneOrder)
    requires var w := StreamProtocol.Run(StreamProtocol.Start(lastId, log0, published), run, StreamProtocol.OneOrder);
             !w.cut && !StreamNoLoss.Lossy(w) && Stutters(StreamProtocol.Stream(w))
    ensures var w := StreamProtocol.Run(StreamProtocol.Start(lastId, log0, published), run, StreamProtocol.OneOrder);
            var s := StreamProtocol.Stream(w);
            && k <= |s| && ReadLog(lastId, w.conn.written) == Reading(lastId, s, k)
            && (StreamNoLoss.Drained(w) ==> k == |s|)
            && WellWritten(lastId, w.conn.written) && (forall e | e in w.conn.written :: !e.Invalid?)
  {
    var w0 := StreamProtocol.Start(lastId, log0, published);
    var w := StreamProtocol.Run(w0, run, StreamProtocol.OneOrder);
    StreamNoLoss.StartIsFaithful(lastId, log0, published);
    StreamProtocol.RunKeepsLastId(w0, run, StreamProtocol.OneOrder);
    StreamNoLoss.EveryRunIsFaithful(w0, run);
    StreamNoLoss.StreamIsSequenced(w);
    k := StreamNoLoss.NotLostIsReading(StreamNoLoss.TrackOf(w));
    StreamProtocol.AnyRun(w0, run, StreamProtocol.OneOrder);
    StreamProtocol.EveryRunIsSafe(w0, run);
    WrittenIsWell(w.conn, lastId);
  }

  /** A part of the sequenced events is a part of the log. */
  lemma {:induction false} PartOfLog(log: seq<Event>, k: nat) returns (n: nat)
    requires k <= |OnlySequenced(log)|
    ensures n <= |log| && OnlySequenced(log[..n]) == OnlySequenced(log)[..k]
    ensures k == |OnlySequenced(log)| ==> n == |log|
  {
    n := |log|;
    assert log[..n] == log;
    if k < |OnlySequenced(log)| {
      var init := log[..|log| - 1];
      if k <= |OnlySequenced(init)| {
        n := PartOfLog(init, k);
        assert init[..n] == log[..n];
      }
    }
  }

  lemma ReadingInLog(lastId: int, s: seq<Event>, log: seq<Event>, k: nat) returns (n: nat)
    requires s <= OnlySequenced(log) && k <= |s|
    ensures n <= |log| && Reading(lastId, s, k) == Reading(lastId, log, n)
    ensures k == |OnlySequenced(log)| ==> n == |log|
  {
    n := PartOfLog(log, k);
    assert s[..k] == OnlySequenced(log)[..k];
    TakeAllSequenced(Active(lastId, []), log[..n]);
  }

  /** What is read of the first so many events written is what is read of some entries. */
  lemma {:induction false} FrontIsRead(lastId: int, log: seq<Event>, k: nat, es: seq<Event>, j: nat) returns (k0: nat)
    requires k <= |log| && j <= |es| && WellWritten(lastId, es) && ReadLog(lastId, es) == Reading(lastId, log, k)
    ensures k0 <= k && ReadLog(lastId, es[..j]) == Reading(lastId, log, k0)
    ensures j == |es| ==> k0 == k
    decreases |es|
  {
    k0 := k;
    if j == |es| {
      assert es[..j] == es;
    } else {
      var init := es[..|es| - 1];
      WellWrittenFront(lastId, es, |es| - 1);
      var k1 := ReadBeforeLast(lastId, log, k, es);
      k0 := FrontIsRead(lastId, log, k1, init, j);
      assert init[..j] == es[..j];
    }
  }

  /** The text of a connection, cut anywhere: a beginning of what was written, and all of it if all arrived. */
  lemma TextReads(codec: Codec, c: Client, log: seq<Event>, t: nat, n: nat, k: nat, items: seq<Item>, text: Connection)
    returns (k0: nat)
    requires ValidCodec(codec) && forall item | item in items :: ValidItem(item)
    requires Stutters(log) && FirstTerminal(log, t) && !c.closed && IsAt(c, log, n)
    requires k <= |log| && WellWritten(HeaderId(c.lastId), EventsOf(items))
    requires ReadLog(HeaderId(c.lastId), EventsOf(items)) == Reading(HeaderId(c.lastId), log, k)
    requires text.n <= |FormatAll(codec, items)| && Concat(text.chunks) == FormatAll(codec, items)[..text.n]
    ensures k0 <= k && (text.n == |FormatAll(codec, items)| ==> k0 == k)
    ensures IsAt(Connect(codec, c, text), log, Max(n, k0))
  {
    var c0, lastId, es := c.(buffer := ""), HeaderId(c.lastId), EventsOf(items);
    var ki := ParserUndoesFormatter(codec, c0, items, text.n, text.chunks);
    EventsOfPrefix(items, ki);
    var j := |EventsOf(items[..ki])|;
    if text.n == |FormatAll(codec, items)| {
      if ki < |items| { FormatAllGrows(codec, items, ki + 1); }
      assert items[..|items|] == items;
    }
    k0 := FrontIsRead(lastId, log, k, es, j);
    assert es[..j] == EventsOf(items[..ki]);
    if j < |es| { WellWrittenFront(lastId, es, j); }
    CommentsAreIgnored(c0, items[..ki]);
    ReceiveWritten(c0, log, t, n, lastId, es[..j], k0);
  }

  lemma SettleRead(c: Client, log: seq<Event>, t: nat, m: int) returns (n: nat)
    requires FirstTerminal(log, t) && NewAt(log, t) && IsAt(c, log, m)
    ensures HasRead(c, log, t, n)
    ensures m == |log| && n < |log| ==> c.closed
  {
    TerminalEndsReading(log, t, m);
    n := if c.closed then t + 1 else m;
    HasReadIsReading(c, log, t, n);
  }

  lemma LiveReads(codec: Codec, c: Client, log: seq<Event>, t: nat, n: nat, link: Link) returns (m: nat)
    requires ValidCodec(codec) && Stutters(log) && FirstTerminal(log, t) && HasRead(c, log, t, n)
    requires !c.closed && link.Live? && IsLink(codec, c, log, link)
    ensures HasRead(Connect(codec, c, link.text), log, t, m)
    ensures Complete(codec, c, log, link) && m < |log| ==> Connect(codec, c, link.text).closed
  {
    var lastId, s := HeaderId(c.lastId), StreamProtocol.Stream(EndOf(c, link));
    TerminalIsNewThere(log, t);
    HasReadIsReading(c, log, t, n);
    PrefixStutters(log, s);
    var ks := WrittenIsRead(lastId, link.log, link.published, link.run);
    var k := ReadingInLog(lastId, s, log, ks);
    forall item | item in link.items && item.Frame? ensures !item.e.Invalid? {
      EventsOfItems(link.items, item);
    }
    var k0 := TextReads(codec, c, log, t, n, k, link.items, link.text);
    m := SettleRead(Connect(codec, c, link.text), log, t, Max(n, k0));
  }

  /** A part of the sequenced events stutters if the log does. */
  lemma {:induction false} PrefixStutters(log: seq<Event>, s: seq<Event>)
    requires Stutters(log) && s <= OnlySequenced(log)
    ensures Stutters(s)
  {
    SequencedStutters(log);
    assert forall i | 0 <= i < |s| :: s[i] == OnlySequenced(log)[i];
  }

  lemma {:induction false} SequencedStutters(log: seq<Event>)
    requires Stutters(log)
    ensures Stutters(OnlySequenced(log))
  {
    if log != [] {
      var init, e := log[..|log| - 1], log[|log| - 1];
      assert forall i | 0 <= i < |init| :: init[i] == log[i];
      SequencedStutters(init);
      AllSequenced(init);
    }
  }

  lemma LinkReads(codec: Codec, c: Client, log: seq<Event>, t: nat, n: nat, link: Link) returns (m: nat)
    requires ValidCodec(codec) && Stutters(log) && FirstTerminal(log, t) && HasRead(c, log, t, n)
    requires IsLink(codec, c, log, link)
    ensures HasRead(Connect(codec, c, link.text), log, t, m)
    ensures Complete(codec, c, log, link) && m < |log| ==> Connect(codec, c, link.text).closed
  {
    if c.closed {
      m := n;
    } else if link.Finished? {
      m := ConnectReads(codec, c, log, t, link.text, n);
    } else {
      m := LiveReads(codec, c, log, t, n, link);
    }
  }

  lemma {:induction false} FollowReads(codec: Codec, log: seq<Event>, t: nat, links: seq<Link>) returns (n: nat)
    requires ValidCodec(codec) && Stutters(log) && FirstTerminal(log, t) && IsFollowing(codec, log, links)
    ensures HasRead(Follow(codec, links), log, t, n)
    ensures links != [] && n < |log| &&
            Complete(codec, Follow(codec, links[..|links| - 1]), log, links[|links| - 1]) ==>
              Follow(codec, links).closed
  {
    if links == [] {
      n := 0;
      NothingRead(log, t);
    } else {
      var init, last := links[..|links| - 1], links[|links| - 1];
      assert forall i | 0 <= i < |init| :: links[..i] == init[..i];
      var m := FollowReads(codec, log, t, init);
      n := LinkReads(codec, Follow(codec, init), log, t, m, last);
    }
  }

  /**
   Through any number of connections, live ones that lost nothing and replays once finished,
   each cut anywhere, over a log whose ids never go down and whose repeats are of the same
   event: the page has at all times applied a beginning of what a reader of the log takes, in
   order and once each, and all of it once it has closed or a connection was complete.
   */
  lemma FollowingAppliesAll(codec: Codec, log: seq<Event>, links: seq<Link>)
    requires ValidCodec(codec) && Stutters(log) && IsFollowing(codec, log, links)
    ensures Applied(Follow(codec, links)) <= ReadLog(-1, log).out
    ensures Follow(codec, links).closed ==> Applied(Follow(codec, links)) == ReadLog(-1, log).out
    ensures links != [] && Complete(codec, Follow(codec, links[..|links| - 1]), log, links[|links| - 1]) ==>
              Applied(Follow(codec, links)) == ReadLog(-1, log).out
  {
    var t := TerminalAt(log);
    var n := FollowReads(codec, log, t, links);
    TerminalIsNewThere(log, t);
    ReadSoFar(Follow(codec, links), log, t, n);
  }
}
