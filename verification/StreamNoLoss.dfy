/**
 When a live connection loses nothing. The sequenced events are published and logged in one
 order, and either may lead; the exact condition is stated at the end.
 */
module StreamNoLoss {
  import opened Events
  import opened StreamRoute
  import opened StreamProtocol

  /**
   What matters of a world: the stream of sequenced events, how many of them each snapshot
   held and the connection has received, and what a reader makes of what it has written.
   */
  datatype Track = Track(
    lastId: int, phase: Phase, s: seq<Event>,
    n1: int, n2: int, received: int, gapEnd: int, early: bool, page: Reader)

  function TrackOf(w: World): Track {
    Track(w.lastId, w.phase, Stream(w), Snap1(w), Snap2(w), Received(w), w.gapEnd, w.early, Page(w.conn, w.lastId))
  }

  predicate BeforeFirstScan(p: Phase) { p.Started? || p.FirstFetched? }

  predicate HasHandler(p: Phase) { p.Listening? || p.SecondFetched? || p.Live? }

  predicate HasChannel(p: Phase) { p.Subscribed? || HasHandler(p) }

  /** What a reader makes of the first `n` events of the stream. */
  function Read(t: Track, n: int): Reader { Reading(t.lastId, t.s, n) }

  // ---------- The gap ----------

  /** The first entry above `x` from `lo` and before `hi`, or -1. */
  function FirstAfter(x: int, s: seq<Event>, lo: int, hi: int): (i: int)
    ensures i == -1 || (lo <= i < hi <= |s| && 0 <= i && After(s[i], x))
    decreases hi - lo
  {
    if !(0 <= lo < hi <= |s|) then -1
    else if After(s[lo], x) then lo
    else FirstAfter(x, s, lo + 1, hi)
  }

  /** The first event before `gapEnd` that is news to a reader of the first `n`, or -1. */
  function News(t: Track, n: int): int {
    if Read(t, n).Done? then -1 else FirstAfter(Read(t, n).highest, t.s, n, t.gapEnd)
  }

  /**
   The gap is what came after the first snapshot and never went through the handler's
   channel. This is its first event that is news, or -1.
   */
  function Gap(t: Track): int { News(t, t.n1) }

  /** The first such event that the second scan left as well. */
  function Hole(t: Track): int { if t.phase.Live? then News(t, t.n2) else -1 }

  /** The first message the handler got was the event at `i` once more. */
  predicate Refilled(t: Track, i: int) { 0 <= i < |t.s| && 0 <= t.gapEnd < |t.s| && t.s[t.gapEnd] == t.s[i] }

  /** `e` is not taken, and what has been taken since is above it. */
  predicate Lost(r: Reader, e: Event) {
    e.Sequenced? && e !in r.out && (r.Done? || r.highest >= e.id)
  }

  // ---------- Facts about the stream alone ----------

  predicate Ordered(s: seq<Event>) { Stutters(s) && forall i | 0 <= i < |s| :: s[i].Sequenced? }

  lemma {:induction false} NothingBeforeFirst(x: int, s: seq<Event>, lo: int, hi: int)
    requires 0 <= lo && hi <= |s|
    ensures var i := FirstAfter(x, s, lo, hi);
            forall j | lo <= j < (if i == -1 then hi else i) :: !After(s[j], x)
    decreases hi - lo
  {
    if lo < hi && !After(s[lo], x) {
      NothingBeforeFirst(x, s, lo + 1, hi);
    }
  }

  /** A longer stream moves no first entry and no reading of what was there. */
  lemma {:induction false} FirstAfterPrefix(x: int, s: seq<Event>, s': seq<Event>, lo: int, hi: int)
    requires s <= s' && hi <= |s|
    ensures FirstAfter(x, s', lo, hi) == FirstAfter(x, s, lo, hi)
    decreases hi - lo
  {
    if 0 <= lo < hi {
      FirstAfterPrefix(x, s, s', lo + 1, hi);
    }
  }

  lemma ReadingPrefix(lastId: int, s: seq<Event>, s': seq<Event>, n: int)
    requires s <= s' && n <= |s|
    ensures Reading(lastId, s', n) == Reading(lastId, s, n)
  {
    if 0 <= n { assert s'[..n] == s[..n]; }
  }

  /** A reading that is done, or finds no news, stays as it is. */
  lemma NoNews(lastId: int, s: seq<Event>, k: int, n: int)
    requires 0 <= k <= n <= |s|
    requires Reading(lastId, s, k).Active? ==> forall j | k <= j < n :: !After(s[j], Reading(lastId, s, k).highest)
    ensures Reading(lastId, s, n) == Reading(lastId, s, k)
  {
    assert s[..n] == s[..k] + s[k..n];
    TakeAllConcat(Active(lastId, []), s[..k], s[k..n]);
    TakeAllIrrelevant(Reading(lastId, s, k), s[k..n]);
  }

  /** `g` is the first event from `n` that is news to a reader of the first `n`. */
  predicate IsNews(lastId: int, s: seq<Event>, n: int, g: int) {
    && 0 <= n <= g < |s| && Reading(lastId, s, n).Active?
    && After(s[g], Reading(lastId, s, n).highest)
    && forall j | n <= j < g :: !After(s[j], Reading(lastId, s, n).highest)
  }

  /** That reader has not taken it, takes it, and is owed it. */
  lemma NewsIsTaken(lastId: int, s: seq<Event>, n: int, g: int)
    requires IsNews(lastId, s, n, g)
    ensures Reading(lastId, s, g + 1) == Take(Reading(lastId, s, n), s[g])
    ensures s[g] !in Reading(lastId, s, n).out && s[g] in ReadLog(lastId, s).out
    ensures forall j | 0 <= j < n :: s[j] != s[g]
  {
    NoNews(lastId, s, n, g);
    OneMore(lastId, s, g, g);
    TakeAllBounds(Active(lastId, []), s[..n]);
    assert forall j | 0 <= j < n :: s[..n][j] == s[j] && s[j] in s[..n];
    assert s[g] in Reading(lastId, s, g + 1).out;
    ReadingGrows(lastId, s, g + 1);
  }

  /** Coming upon the same event later, the reader is as far as if it had seen all in between. */
  lemma SameAgain(lastId: int, s: seq<Event>, n: int, g: int, j: int)
    requires Ordered(s) && IsNews(lastId, s, n, g) && g < j < |s| && s[j] == s[g]
    ensures Take(Reading(lastId, s, n), s[j]) == Reading(lastId, s, j + 1)
  {
    NewsIsTaken(lastId, s, n, g);
    NoNews(lastId, s, g + 1, j + 1);
  }

  /** Coming upon another, it has gone past. */
  lemma Overshoots(lastId: int, s: seq<Event>, n: int, g: int, j: int)
    requires Ordered(s) && IsNews(lastId, s, n, g) && g < j < |s| && s[j] != s[g]
    ensures Lost(Take(Reading(lastId, s, n), s[j]), s[g])
  {
    NewsIsTaken(lastId, s, n, g);
  }

  lemma LostStays(r: Reader, lost: Event, e: Event)
    requires Lost(r, lost)
    ensures Lost(Take(r, e), lost)
  {
  }

  lemma {:induction false} LostStaysAll(r: Reader, lost: Event, es: seq<Event>)
    requires Lost(r, lost)
    ensures Lost(TakeAll(r, es), lost)
  {
    if es != [] {
      LostStaysAll(r, lost, es[..|es| - 1]);
    }
  }

  // ---------- What a connection accounts for ----------

  /** The marks into the stream are in order. */
  predicate Placed(t: Track) {
    && 0 <= t.n1 <= |t.s| && 0 <= t.n2 <= |t.s| && 0 <= t.received <= |t.s|
    && (if HasHandler(t.phase) then t.n1 <= t.gapEnd <= Max(t.n1, t.received) else t.gapEnd == 0 && !t.early)
    && (t.phase.SecondFetched? || t.phase.Live? ==> t.n1 <= t.n2)
  }

  /** Waiting for the event at `i`, having read `n`: nothing received since, or that event, or a later one. */
  predicate Waits(t: Track, n: int, i: int) {
    if t.received <= t.gapEnd then t.page == Read(t, n)
    else if Refilled(t, i) then t.page == Read(t, t.received)
    else Lost(t.page, At(t.s, i))
  }

  function At(s: seq<Event>, i: int): Event {
    if 0 <= i < |s| then s[i] else Invalid
  }

  predicate AccountedListening(t: Track) {
    if Gap(t) == -1 then t.page == Read(t, Max(t.n1, t.received))
    else Waits(t, t.n1, Gap(t)) && (t.early <==> t.received > t.gapEnd)
  }

  predicate AccountedLive(t: Track) {
    if Gap(t) != -1 && t.early then
      t.received > t.gapEnd &&
      if Refilled(t, Gap(t)) then t.page == Read(t, Max(t.n2, t.received)) else Lost(t.page, At(t.s, Gap(t)))
    else if Gap(t) != -1 && Hole(t) != -1 then Waits(t, t.n2, Hole(t))
    else t.page == Read(t, Max(t.n2, t.received))
  }

  /** The connection has written what it accounts for, or has lost an event of the gap. */
  predicate Accounted(t: Track) {
    && (HasChannel(t.phase) ==> Read(t, t.n1).Active?)
    && match t.phase
       case Started => t.page == Active(t.lastId, [])
       case FirstFetched => t.page == Active(t.lastId, [])
       case FirstScanned => t.page == Read(t, t.n1)
       case Subscribed => t.page == Read(t, t.n1)
       case Live => AccountedLive(t)
       case _ => AccountedListening(t)
  }

  lemma NewsIsNews(t: Track, n: int)
    requires 0 <= n <= |t.s| && t.gapEnd <= |t.s| && News(t, n) != -1
    ensures IsNews(t.lastId, t.s, n, News(t, n)) && News(t, n) < t.gapEnd
  {
    NothingBeforeFirst(Read(t, n).highest, t.s, n, t.gapEnd);
  }

  lemma NoNewsBefore(t: Track, n: int, m: int)
    requires 0 <= n <= m <= t.gapEnd <= |t.s| && News(t, n) == -1
    ensures Read(t, m) == Read(t, n)
  {
    if Read(t, n).Active? { NothingBeforeFirst(Read(t, n).highest, t.s, n, t.gapEnd); }
    NoNews(t.lastId, t.s, n, m);
  }

  // ---------- Receiving a message ----------

  function Received1(t: Track): Track
    requires 0 <= t.received < |t.s|
  {
    t.(page := Take(t.page, t.s[t.received]), received := t.received + 1,
       early := t.early || (!t.phase.Live? && t.page.Active?))
  }

  lemma KeepsUp(t: Track, m: int)
    requires 0 <= t.received < |t.s| && t.received <= m <= |t.s| && t.page == Read(t, m)
    ensures Received1(t).page == Read(t, Max(m, t.received + 1))
  {
    OneMore(t.lastId, t.s, m, t.received);
  }

  /** The first message decides whether the event waited for is read or lost. */
  lemma WaitsOn(t: Track, n: int)
    requires Ordered(t.s) && 0 <= n <= |t.s| && 0 <= t.received < |t.s| && n <= t.gapEnd <= t.received
    requires News(t, n) != -1 && Waits(t, n, News(t, n))
    ensures Waits(Received1(t), n, News(t, n))
  {
    var i := News(t, n);
    NewsIsNews(t, n);
    if t.received == t.gapEnd {
      if t.s[t.gapEnd] == t.s[i] {
        SameAgain(t.lastId, t.s, n, i, t.received);
      } else {
        Overshoots(t.lastId, t.s, n, i, t.received);
      }
    } else if Refilled(t, i) {
      KeepsUp(t, t.received);
    } else {
      LostStays(t.page, t.s[i], t.s[t.received]);
    }
  }

  lemma ReceivedListening(t: Track)
    requires Ordered(t.s) && Placed(t) && Accounted(t) && 0 <= t.received < |t.s|
    requires t.phase.Listening? || t.phase.SecondFetched?
    ensures Placed(Received1(t)) && Accounted(Received1(t))
  {
    assert Gap(Received1(t)) == Gap(t);
    if Gap(t) == -1 {
      KeepsUp(t, Max(t.n1, t.received));
    } else {
      NewsIsNews(t, t.n1);
      WaitsOn(t, t.n1);
    }
  }

  lemma ReceivedLive(t: Track)
    requires Ordered(t.s) && Placed(t) && Accounted(t) && 0 <= t.received < |t.s| && t.phase.Live?
    ensures Placed(Received1(t)) && Accounted(Received1(t))
  {
    assert Gap(Received1(t)) == Gap(t) && Hole(Received1(t)) == Hole(t);
    if Gap(t) != -1 { NewsIsNews(t, t.n1); }
    if Gap(t) != -1 && t.early {
      if Refilled(t, Gap(t)) {
        KeepsUp(t, Max(t.n2, t.received));
      } else {
        LostStays(t.page, t.s[Gap(t)], t.s[t.received]);
      }
    } else if Gap(t) != -1 && Hole(t) != -1 {
      NewsIsNews(t, t.n2);
      WaitsOn(t, t.n2);
    } else {
      KeepsUp(t, Max(t.n2, t.received));
    }
  }

  // ---------- The other moves ----------

  lemma ListenMove(t: Track)
    requires Placed(t) && Accounted(t) && t.phase.Subscribed?
    ensures var t' := t.(phase := Listening, gapEnd := Max(t.n1, t.received)); Placed(t') && Accounted(t')
  {
    var t' := t.(phase := Listening, gapEnd := Max(t.n1, t.received));
    if Gap(t') == -1 {
      NoNewsBefore(t', t.n1, t'.gapEnd);
    }
  }

  lemma ScanMove(t: Track)
    requires Ordered(t.s) && Placed(t) && Accounted(t) && t.phase.SecondFetched?
    ensures var t' := t.(phase := Live, page := TakeAll(t.page, t.s[..t.n2])); Placed(t') && Accounted(t')
  {
    var t' := t.(phase := Live, page := TakeAll(t.page, t.s[..t.n2]));
    assert Gap(t') == Gap(t);
    if Gap(t) == -1 {
      ReadFurther(t.lastId, t.s, Max(t.n1, t.received), t.n2);
    } else if !t.early {
      ScanInTime(t);
    } else if Refilled(t, Gap(t)) {
      ReadFurther(t.lastId, t.s, t.received, t.n2);
    } else {
      LostStaysAll(t.page, t.s[Gap(t)], t.s[..t.n2]);
    }
  }

  /** If no message was handled early, the second scan leaves the reader at its snapshot. */
  lemma ScanInTime(t: Track)
    requires Placed(t) && Accounted(t) && t.phase.SecondFetched? && Gap(t) != -1 && !t.early
    ensures TakeAll(t.page, t.s[..t.n2]) == Read(t, t.n2) && t.received == t.gapEnd
    ensures News(t, t.n2) == -1 ==> Read(t, t.n2) == Read(t, Max(t.n2, t.received))
  {
    ReadFurther(t.lastId, t.s, t.n1, t.n2);
    if News(t, t.n2) == -1 && t.n2 < t.gapEnd { NoNewsBefore(t, t.n2, t.gapEnd); }
  }

  /** A longer stream changes nothing of what was there. */
  lemma GrowMove(t: Track, s': seq<Event>, received': int)
    requires Placed(t) && Accounted(t) && t.s <= s' && 0 <= received' <= |s'|
    requires HasChannel(t.phase) ==> received' == t.received
    ensures var t' := t.(s := s', received := received'); Placed(t') && Accounted(t')
  {
    var t' := t.(s := s', received := received');
    GrowNews(t, s', received', t.n1);
    GrowNews(t, s', received', t.n2);
    ReadingPrefix(t.lastId, t.s, s', t.n1);
    ReadingPrefix(t.lastId, t.s, s', t.n2);
    ReadingPrefix(t.lastId, t.s, s', t.received);
  }

  lemma GrowNews(t: Track, s': seq<Event>, received': int, n: int)
    requires Placed(t) && t.s <= s' && 0 <= n <= |t.s|
    ensures News(t.(s := s', received := received'), n) == News(t, n)
  {
    ReadingPrefix(t.lastId, t.s, s', n);
    if Read(t, n).Active? { FirstAfterPrefix(Read(t, n).highest, t.s, s', n, t.gapEnd); }
  }

  // ---------- The steps of a run ----------

  /** The channel holds the end of what is published. */
  predicate ChannelInStep(w: World) {
    && InOneOrder(w)
    && 0 <= Received(w) && OnlySequenced(w.chan) == OnlySequenced(w.published)[Received(w)..]
    && (!IsSubscribed(w) ==> w.chan == [])
    && w.snap1 <= |w.log| && w.snap2 <= |w.log|
  }

  /** An uncut connection is what its reader sees. */
  predicate ConnInStep(w: World) {
    && (if w.cut then w.conn.closed else Tuned(w.conn, w.lastId))
    && (BeforeScan(w) ==> w.conn == Conn(w.lastId, [], w.cut))
  }

  predicate Linked(w: World) { ChannelInStep(w) && ConnInStep(w) }

  predicate Faithful(w: World) {
    Linked(w) && (!w.cut ==> Placed(TrackOf(w)) && Accounted(TrackOf(w)))
  }

  /** A snapshot is the front of the stream. */
  lemma SnapshotIsFront(w: World, n: nat)
    requires InOneOrder(w) && n <= |w.log|
    ensures var k := |OnlySequenced(Front(w.log, n))|;
            k <= |OnlySequenced(w.log)| <= |Stream(w)| && OnlySequenced(w.log[..n]) == Stream(w)[..k]
  {
    OnlySequencedPrefix(w.log[..n], w.log);
  }

  lemma StreamIsSequenced(w: World)
    ensures forall i | 0 <= i < |Stream(w)| :: Stream(w)[i].Sequenced?
  {
    AllSequenced(w.log);
    AllSequenced(w.published);
  }

  /** Publishing and logging only ever add to the end of the stream. */
  lemma StreamStep(w: World, a: Action)
    requires InOneOrder(w) && Enabled(w, a) && InOneOrder(Next(w, a))
    ensures Stream(w) <= Stream(Next(w, a))
    ensures !a.Push? && !a.Publish? ==> Stream(Next(w, a)) == Stream(w)
  {
    SequencedStep(w, a);
  }

  lemma FrontStays(log: seq<Event>, e: Event, n: nat)
    requires n <= |log|
    ensures Front(log + [e], n) == Front(log, n)
  {
  }

  lemma MessagesLeft(w: World)
    requires ChannelInStep(w) && w.chan != []
    ensures OnlySequenced(w.chan) == (if w.chan[0].Sequenced? then [w.chan[0]] else []) + OnlySequenced(w.chan[1..])
    ensures Received(w) + |OnlySequenced(w.chan)| == |OnlySequenced(w.published)| <= |Stream(w)|
    ensures w.chan[0].Sequenced? ==> 0 <= Received(w) < |Stream(w)| && Stream(w)[Received(w)] == w.chan[0]
  {
    assert w.chan == [w.chan[0]] + w.chan[1..];
    OnlySequencedConcat([w.chan[0]], w.chan[1..]);
    OnlySequencedOne(w.chan[0]);
  }

  lemma TakeMessage(w: World, a: Action)
    requires ChannelInStep(w) && Enabled(w, a) && (a.Deliver? || a.Lose?)
    ensures ChannelInStep(Next(w, a)) && Stream(Next(w, a)) == Stream(w)
    ensures Received(Next(w, a)) == Received(w) + (if w.chan[0].Sequenced? then 1 else 0) <= |Stream(w)|
  {
    MessagesLeft(w);
  }

  /** A published event joins the channel of a subscribed connection, and passes any other by. */
  lemma PublishInStep(w: World, e: Event)
    requires ChannelInStep(w) && InOneOrder(Next(w, Publish(e)))
    ensures var w' := Next(w, Publish(e));
            && ChannelInStep(w') && (IsSubscribed(w) ==> Received(w') == Received(w))
            && Received(w') <= |Stream(w')| && Snap1(w') == Snap1(w) && Snap2(w') == Snap2(w)
  {
    var w', published, more := Next(w, Publish(e)), OnlySequenced(w.published), OnlySequenced([e]);
    OnlySequencedConcat(w.published, [e]);
    if IsSubscribed(w) {
      OnlySequencedConcat(w.chan, [e]);
      EndGrows(published, OnlySequenced(w.chan), Received(w), more);
      assert Received(w') == Received(w);
    } else {
      EndIsEmpty(published + more);
      assert Received(w') == |published + more|;
    }
  }

  lemma EndGrows(s: seq<Event>, end: seq<Event>, n: int, more: seq<Event>)
    requires 0 <= n <= |s| && end == s[n..]
    ensures |s + more| - |end + more| == n && end + more == (s + more)[n..]
  {
  }

  lemma EndIsEmpty(s: seq<Event>)
    ensures s[|s|..] == []
  {
  }

  lemma PushInStep(w: World, e: Event)
    requires ChannelInStep(w) && InOneOrder(Next(w, Push(e)))
    ensures var w' := Next(w, Push(e));
            && ChannelInStep(w') && Received(w') == Received(w) <= |Stream(w')|
            && Snap1(w') == Snap1(w) && Snap2(w') == Snap2(w)
  {
    FrontStays(w.log, e, w.snap1);
    FrontStays(w.log, e, w.snap2);
  }

  lemma GrowStep(w: World, a: Action)
    requires Faithful(w) && !w.cut && Enabled(w, a) && (a.Push? || a.Publish?) && InOneOrder(Next(w, a))
    ensures Faithful(Next(w, a))
  {
    StreamStep(w, a);
    if a.Push? { PushInStep(w, a.e); } else { PublishInStep(w, a.e); }
    GrowTrack(w, Next(w, a));
  }

  lemma GrowTrack(w: World, w': World)
    requires Faithful(w) && !w.cut && ChannelInStep(w') && Stream(w) <= Stream(w')
    requires w'.conn == w.conn && w'.cut == w.cut && w'.phase == w.phase && w'.lastId == w.lastId
    requires w'.early == w.early && w'.gapEnd == w.gapEnd && Snap1(w') == Snap1(w) && Snap2(w') == Snap2(w)
    requires Received(w') <= |Stream(w')| && (IsSubscribed(w) ==> Received(w') == Received(w))
    ensures Faithful(w')
  {
    var t := TrackOf(w);
    assert TrackOf(w') == t.(s := Stream(w'), received := Received(w'));
    GrowMove(t, Stream(w'), Received(w'));
  }

  /** What the first scan makes of the front of the stream. */
  lemma ScanFirstReads(lastId: int, front: seq<Event>)
    requires Stutters(OnlySequenced(front))
    ensures var c := FirstReplay(Conn(lastId, [], false), lastId, front);
            Page(c, lastId) == ReadLog(lastId, OnlySequenced(front)) && Tuned(c, lastId)
  {
    StuttersSequenced(front);
    FirstReplayReads(Conn(lastId, [], false), lastId, front);
    TakeAllSequenced(Active(lastId, []), front);
  }

  lemma ScanFirstStep(w: World)
    requires Linked(w) && Placed(TrackOf(w)) && !w.cut && Enabled(w, ScanFirst) && Ordered(Stream(w))
    ensures Faithful(Next(w, ScanFirst))
  {
    var front := w.log[..w.snap1];
    SnapshotIsFront(w, w.snap1);
    assert forall i | 0 <= i < |OnlySequenced(front)| :: OnlySequenced(front)[i] == Stream(w)[i];
    ScanFirstReads(w.lastId, front);
    ScanFirstTrack(w);
  }

  lemma ScanFirstTrack(w: World)
    requires ChannelInStep(w) && Placed(TrackOf(w)) && Enabled(w, ScanFirst)
    requires Page(Next(w, ScanFirst).conn, w.lastId) == Read(TrackOf(w), Snap1(w))
    ensures var w' := Next(w, ScanFirst);
            ChannelInStep(w') && Placed(TrackOf(w')) && Accounted(TrackOf(w'))
  {
  }

  lemma DeliverStep(w: World)
    requires Faithful(w) && !w.cut && Enabled(w, Deliver) && Ordered(Stream(w))
    ensures Faithful(Next(w, Deliver))
  {
    TakeMessage(w, Deliver);
    MessagesLeft(w);
    MessageReads(w.conn, w.lastId, w.chan[0]);
    DeliverTrack(w);
    var t := TrackOf(w);
    if w.chan[0].Sequenced? {
      if w.phase.Live? { ReceivedLive(t); } else { ReceivedListening(t); }
    }
  }

  lemma DeliverTrack(w: World)
    requires !w.cut && ConnInStep(w) && Enabled(w, Deliver)
    requires Stream(Next(w, Deliver)) == Stream(w)
    requires Received(Next(w, Deliver)) == Received(w) + if w.chan[0].Sequenced? then 1 else 0
    requires w.chan[0].Sequenced? ==> 0 <= Received(w) < |Stream(w)| && Stream(w)[Received(w)] == w.chan[0]
    requires Page(OnMessage(w.conn, w.chan[0]), w.lastId) == Take(Page(w.conn, w.lastId), w.chan[0])
    ensures TrackOf(Next(w, Deliver)) == if w.chan[0].Sequenced? then Received1(TrackOf(w)) else TrackOf(w)
  {
  }

  lemma ScanSecondStep(w: World)
    requires Faithful(w) && !w.cut && Enabled(w, ScanSecond) && Ordered(Stream(w))
    ensures Faithful(Next(w, ScanSecond))
  {
    var t, front := TrackOf(w), w.log[..w.snap2];
    SnapshotIsFront(w, w.snap2);
    SecondReplayReads(w.conn, w.lastId, front);
    TakeAllSequenced(t.page, front);
    assert TrackOf(Next(w, ScanSecond)) == t.(phase := Live, page := TakeAll(t.page, t.s[..t.n2]));
    ScanMove(t);
  }

  lemma FetchTrack(w: World, a: Action)
    requires ChannelInStep(w) && Enabled(w, a) && (a.FetchFirst? || a.FetchSecond?)
    ensures ChannelInStep(Next(w, a)) && Snap1(w) <= |OnlySequenced(w.log)| <= |Stream(w)|
    ensures var k := |OnlySequenced(w.log)|;
            TrackOf(Next(w, a)) == if a.FetchFirst? then TrackOf(w).(phase := FirstFetched, n1 := k)
                                   else TrackOf(w).(phase := SecondFetched, n2 := k)
  {
    SnapshotIsFront(w, w.snap1);
    assert Front(w.log, |w.log|) == w.log;
  }

  /** Taking a snapshot changes nothing that is accounted for. */
  lemma FetchMove(t: Track, k: int)
    requires Placed(t) && Accounted(t) && t.n1 <= k <= |t.s|
    ensures t.phase.Started? ==>
              Placed(t.(phase := FirstFetched, n1 := k)) && Accounted(t.(phase := FirstFetched, n1 := k))
    ensures t.phase.Listening? ==>
              Placed(t.(phase := SecondFetched, n2 := k)) && Accounted(t.(phase := SecondFetched, n2 := k))
  {
    assert t.phase.Listening? ==> Gap(t.(phase := SecondFetched, n2 := k)) == Gap(t);
  }

  lemma FetchStep(w: World, a: Action)
    requires Faithful(w) && !w.cut && Enabled(w, a) && (a.FetchFirst? || a.FetchSecond?)
    ensures Faithful(Next(w, a))
  {
    FetchTrack(w, a);
    FetchMove(TrackOf(w), |OnlySequenced(w.log)|);
  }

  lemma ChannelStep(w: World, a: Action)
    requires Faithful(w) && !w.cut && Enabled(w, a) && (a.Subscribe? || a.Lose?)
    ensures Faithful(Next(w, a))
  {
    var w', t := Next(w, a), TrackOf(w);
    if a.Lose? { TakeMessage(w, a); }
    assert TrackOf(w') == t.(phase := Subscribed, received := Received(w'));
  }

  lemma ListenStep(w: World)
    requires Faithful(w) && !w.cut && Enabled(w, Listen)
    ensures Faithful(Next(w, Listen))
  {
    var t := TrackOf(w);
    ListenMove(t);
    assert TrackOf(Next(w, Listen)) == t.(phase := Listening, gapEnd := Max(t.n1, t.received));
  }

  lemma StepIsFaithful(w: World, a: Action)
    requires Faithful(w) && !w.cut && Ordered(Stream(w)) && Enabled(w, a) && InOneOrder(Next(w, a))
    ensures Faithful(Next(w, a))
  {
    match a
    case Push(_) => GrowStep(w, a);
    case Publish(_) => GrowStep(w, a);
    case ScanFirst => ScanFirstStep(w);
    case Deliver => DeliverStep(w);
    case ScanSecond => ScanSecondStep(w);
    case FetchFirst => FetchStep(w, a);
    case FetchSecond => FetchStep(w, a);
    case Listen => ListenStep(w);
    case Cut => CutStep(w);
    case _ => ChannelStep(w, a);
  }

  lemma CutStep(w: World)
    requires Faithful(w) && !w.cut
    ensures Faithful(Next(w, Cut))
  {
    if w.conn.closed { assert Next(w, Cut) == w; }
  }

  /** A cut is for good. */
  lemma {:induction false} CutIsFinal(w: World, run: seq<Action>)
    requires w.cut && RunEnabled(w, run, OneOrder)
    ensures Run(w, run, OneOrder).cut
    decreases run
  {
    if run != [] {
      CutIsFinal(Next(w, run[0]), run[1..]);
    }
  }

  lemma {:induction false} StreamGrows(w: World, run: seq<Action>)
    requires InOneOrder(w) && RunEnabled(w, run, OneOrder)
    ensures Stream(w) <= Stream(Run(w, run, OneOrder))
    decreases run
  {
    if run != [] {
      StreamStep(w, run[0]);
      StreamGrows(Next(w, run[0]), run[1..]);
    }
  }

  lemma OrderedPrefix(s: seq<Event>, s': seq<Event>)
    requires s <= s' && Stutters(s') && forall i | 0 <= i < |s| :: s[i].Sequenced?
    ensures Ordered(s)
  {
    assert forall i | 0 <= i < |s| :: s[i] == s'[i];
  }

  /**
   At every moment a connection that is not cut has written, to a reader, exactly the part of
   the stream it accounts for, or has lost an event of the gap.
   */
  lemma {:induction false} EveryRunIsFaithful(w: World, run: seq<Action>)
    requires Faithful(w) && RunEnabled(w, run, OneOrder) && Stutters(Stream(Run(w, run, OneOrder)))
    requires !Run(w, run, OneOrder).cut
    ensures Faithful(Run(w, run, OneOrder))
    decreases run
  {
    if run != [] {
      if w.cut { CutIsFinal(w, run); }
      StreamGrows(w, run);
      StreamIsSequenced(w);
      OrderedPrefix(Stream(w), Stream(Run(w, run, OneOrder)));
      StepIsFaithful(w, run[0]);
      EveryRunIsFaithful(Next(w, run[0]), run[1..]);
    }
  }

  // ---------- The exact condition ----------

  predicate Occurs(s: seq<Event>, lo: int, hi: int, e: Event) {
    exists i :: lo <= i < hi && 0 <= i < |s| && s[i] == e
  }

  /** An owed event that was neither in the first snapshot nor ever came through the handler's channel. */
  predicate OnlyInGap(t: Track, e: Event) {
    && e in ReadLog(t.lastId, t.s).out
    && Occurs(t.s, t.n1, t.gapEnd, e)
    && !Occurs(t.s, 0, t.n1, e)
    && !Occurs(t.s, t.gapEnd, |t.s|, e)
  }

  /** Such an event comes too late once a message was handled before the second scan, or if that did not find it. */
  predicate TooLate(t: Track, e: Event) { t.early || (t.phase.Live? && !Occurs(t.s, 0, t.n2, e)) }

  predicate LosesOne(t: Track) {
    exists e | e in ReadLog(t.lastId, t.s).out :: OnlyInGap(t, e) && TooLate(t, e)
  }

  lemma {:induction false} TakenIsAfter(r: Reader, es: seq<Event>)
    ensures forall e | e in TakeAll(r, es).out :: e in r.out || (r.Active? && After(e, r.highest))
    ensures TakeAll(r, es).Active? ==> r.Active? && r.highest <= TakeAll(r, es).highest
  {
    if es != [] {
      TakenIsAfter(r, es[..|es| - 1]);
    }
  }

  lemma ReadSplit(lastId: int, s: seq<Event>, n: int)
    requires 0 <= n <= |s|
    ensures ReadLog(lastId, s) == TakeAll(Reading(lastId, s, n), s[n..])
    ensures forall e | e in Reading(lastId, s, n).out :: Occurs(s, 0, n, e)
  {
    assert s == s[..n] + s[n..];
    TakeAllConcat(Active(lastId, []), s[..n], s[n..]);
    TakeAllBounds(Active(lastId, []), s[..n]);
    forall e | e in Reading(lastId, s, n).out ensures Occurs(s, 0, n, e) {
      var i :| 0 <= i < n && s[..n][i] == e;
      assert s[i] == e;
    }
  }

  /** If an owed event of the gap is not in the first `n` and does not come again, news is left at `n` for good. */
  lemma LeavesNews(t: Track, n: int, e: Event)
    requires Ordered(t.s) && Placed(t) && 0 <= n <= |t.s| && e in ReadLog(t.lastId, t.s).out
    requires Occurs(t.s, n, t.gapEnd, e) && !Occurs(t.s, 0, n, e) && !Occurs(t.s, t.gapEnd, |t.s|, e)
    ensures News(t, n) != -1 && !Refilled(t, News(t, n))
  {
    var k :| n <= k < t.gapEnd && 0 <= k < |t.s| && t.s[k] == e;
    ReadSplit(t.lastId, t.s, n);
    TakenIsAfter(Read(t, n), t.s[n..]);
    assert After(e, Read(t, n).highest);
    NothingBeforeFirst(Read(t, n).highest, t.s, n, t.gapEnd);
    var i := News(t, n);
    assert i != -1 && i <= k;
    SqueezedBetween(t.s, i, k, t.gapEnd);
  }

  /** An event between two that are the same is the same. */
  lemma SqueezedBetween(s: seq<Event>, i: int, k: int, j: int)
    requires Ordered(s) && 0 <= i <= k <= j
    ensures j < |s| && s[j] == s[i] ==> s[j] == s[k]
  {
  }

  /** News left at `n` and not refilled is such an event. */
  lemma NewsOnlyInGap(t: Track, n: int)
    requires Ordered(t.s) && Placed(t) && t.n1 <= n <= |t.s| && News(t, n) != -1 && !Refilled(t, News(t, n))
    ensures OnlyInGap(t, t.s[News(t, n)]) && !Occurs(t.s, 0, n, t.s[News(t, n)])
    ensures t.s[News(t, n)] !in Read(t, n).out
  {
    var i := News(t, n);
    NewsIsNews(t, n);
    NewsIsTaken(t.lastId, t.s, n, i);
    forall j | t.gapEnd <= j < |t.s| ensures t.s[j] != t.s[i] {
      SqueezedBetween(t.s, i, t.gapEnd, j);
    }
    assert Occurs(t.s, t.n1, t.gapEnd, t.s[i]);
  }

  /** Nothing more is to come for this connection. */
  predicate Over(t: Track) { t.page.Done? || (t.phase.Live? && t.received == |t.s|) }

  /** If nothing is lost, the page is a reading of some part of the stream, and of all of it once it is over. */
  predicate IsReading(t: Track, k: int) {
    && 0 <= k <= |t.s| && t.page == Read(t, k)
    && (t.phase.Live? && t.received == |t.s| ==> k == |t.s|)
  }

  lemma NothingLate(t: Track, n: int)
    requires Ordered(t.s) && Placed(t) && t.n1 <= n <= |t.s| && News(t, n) != -1 && !LosesOne(t)
    requires t.early || (t.phase.Live? && n == t.n2)
    ensures Refilled(t, News(t, n))
  {
    if !Refilled(t, News(t, n)) {
      NewsOnlyInGap(t, n);
      assert false;
    }
  }

  lemma NotLostIsReading(t: Track) returns (k: int)
    requires Ordered(t.s) && Placed(t) && Accounted(t) && !LosesOne(t)
    ensures IsReading(t, k)
  {
    if BeforeFirstScan(t.phase) {
      k := 0;
    } else if !HasHandler(t.phase) {
      k := t.n1;
    } else if t.phase.Live? {
      k := LiveIsReading(t);
    } else if Gap(t) == -1 {
      k := Max(t.n1, t.received);
    } else if t.early {
      NothingLate(t, t.n1);
      k := t.received;
    } else {
      k := t.n1;
    }
  }

  lemma LiveIsReading(t: Track) returns (k: int)
    requires Ordered(t.s) && Placed(t) && Accounted(t) && !LosesOne(t) && t.phase.Live?
    ensures IsReading(t, k)
  {
    k := Max(t.n2, t.received);
    if Gap(t) != -1 && t.early {
      NothingLate(t, t.n1);
    } else if Gap(t) != -1 && Hole(t) != -1 {
      NothingLate(t, t.n2);
      if t.received <= t.gapEnd { k := t.n2; } else { k := t.received; }
    }
  }

  lemma LostIsMissing(t: Track, e: Event)
    requires Ordered(t.s) && Placed(t) && Accounted(t) && Over(t) && OnlyInGap(t, e) && TooLate(t, e)
    ensures t.page.out != ReadLog(t.lastId, t.s).out
  {
    LeavesNews(t, t.n1, e);
    NewsOnlyInGap(t, t.n1);
    if !t.early {
      assert Occurs(t.s, t.n2, t.gapEnd, e);
      LeavesNews(t, t.n2, e);
      NewsOnlyInGap(t, t.n2);
    }
  }

  lemma ReadsAllOrDone(t: Track, k: int)
    requires IsReading(t, k) && Over(t)
    ensures t.page == ReadLog(t.lastId, t.s)
  {
    assert t.s[..|t.s|] == t.s;
    if t.page.Done? { NoNews(t.lastId, t.s, k, |t.s|); }
  }

  lemma LosesIff(t: Track)
    requires Ordered(t.s) && Placed(t) && Accounted(t) && Over(t)
    ensures t.page.out == ReadLog(t.lastId, t.s).out <==> !LosesOne(t)
  {
    if LosesOne(t) {
      var e :| e in ReadLog(t.lastId, t.s).out && OnlyInGap(t, e) && TooLate(t, e);
      LostIsMissing(t, e);
    } else {
      var k := NotLostIsReading(t);
      ReadsAllOrDone(t, k);
    }
  }

  /** All that was published has been handled, and is what was logged. */
  predicate Drained(w: World) {
    && w.phase.Live? && OnlySequenced(w.chan) == []
    && |OnlySequenced(w.published)| == |OnlySequenced(w.log)|
  }

  predicate Lossy(w: World) { LosesOne(TrackOf(w)) }

  lemma StartIsFaithful(lastId: int, log: seq<Event>, published: seq<Event>)
    requires InOneOrder(Start(lastId, log, published))
    ensures Faithful(Start(lastId, log, published))
  {
    var w := Start(lastId, log, published);
    assert OnlySequenced(published)[|OnlySequenced(published)|..] == [];
  }

  /**
   Whichever of publishing and logging leads, wherever events without ids fall, and even if
   the log repeats events: when an uncut connection has caught up, or has closed itself on a
   terminal event, a reader has from it exactly what the stream has for that reader, in order
   and once each, if and only if no event that came only in the gap came too late.
   */
  lemma NothingLostIff(lastId: int, log: seq<Event>, published: seq<Event>, run: seq<Action>)
    requires InOneOrder(Start(lastId, log, published))
    requires RunEnabled(Start(lastId, log, published), run, OneOrder)
    requires Stutters(Stream(Run(Start(lastId, log, published), run, OneOrder)))
    ensures var w := Run(Start(lastId, log, published), run, OneOrder);
            && ((Drained(w) || w.conn.closed) && !w.cut ==>
                  (Page(w.conn, lastId).out == ReadLog(lastId, Stream(w)).out <==> !Lossy(w)))
            && (Drained(w) ==> Stream(w) == OnlySequenced(w.log))
  {
    var w0 := Start(lastId, log, published);
    var w := Run(w0, run, OneOrder);
    StartIsFaithful(lastId, log, published);
    RunKeepsLastId(w0, run, OneOrder);
    if !w.cut {
      EveryRunIsFaithful(w0, run);
      StreamIsSequenced(w);
      if Drained(w) || w.conn.closed { LosesIff(TrackOf(w)); }
    }
    RunKeepsOrder(w0, run);
  }

  lemma {:induction false} RunKeepsOrder(w: World, run: seq<Action>)
    requires InOneOrder(w) && RunEnabled(w, run, OneOrder)
    ensures InOneOrder(Run(w, run, OneOrder))
    decreases run
  {
    if run != [] {
      RunKeepsOrder(Next(w, run[0]), run[1..]);
    }
  }

  /** If the ids go up strictly, what is written is read as it stands: it is what is owed, if nothing is lost. */
  lemma NothingOwedIsLostIff(lastId: int, log: seq<Event>, published: seq<Event>, run: seq<Action>)
    requires InOneOrder(Start(lastId, log, published))
    requires RunEnabled(Start(lastId, log, published), run, OneOrder)
    requires Increasing(Stream(Run(Start(lastId, log, published), run, OneOrder)))
    ensures var w := Run(Start(lastId, log, published), run, OneOrder);
            (Drained(w) || w.conn.closed) && !w.cut ==>
              (OnlySequenced(w.conn.written) == Owed(Stream(w), lastId) <==> !Lossy(w))
  {
    var w := Run(Start(lastId, log, published), run, OneOrder);
    NothingLostIff(lastId, log, published, run);
    ReadLogIsOwed(lastId, Stream(w));
    WrittenIsRead(lastId, log, published, run);
  }

  lemma WrittenIsRead(lastId: int, log: seq<Event>, published: seq<Event>, run: seq<Action>)
    requires InOneOrder(Start(lastId, log, published))
    requires RunEnabled(Start(lastId, log, published), run, OneOrder)
    requires Increasing(Stream(Run(Start(lastId, log, published), run, OneOrder)))
    ensures var w := Run(Start(lastId, log, published), run, OneOrder);
            Page(w.conn, lastId).out == OnlySequenced(w.conn.written)
  {
    var w0 := Start(lastId, log, published);
    var w := Run(w0, run, OneOrder);
    AnyRun(w0, run, OneOrder);
    WrittenEventsAreSafe(lastId, log, published, run);
    RunKeepsOrder(w0, run);
    LogIncreases(w);
    OrderedWriting(lastId, w.conn.written);
  }

  lemma LogIncreases(w: World)
    requires Increasing(Stream(w)) && InOneOrder(w)
    ensures Increasing(w.log)
  {
    IncreasingSequenced(w.log);
    assert Stream(w) == OnlySequenced(w.log) + Stream(w)[|OnlySequenced(w.log)|..];
    PrefixIncreases(OnlySequenced(w.log), Stream(w)[|OnlySequenced(w.log)|..]);
  }

  /** Increasing ids with a terminal event only at the end are read as they stand. */
  lemma {:induction false} OrderedWriting(lastId: int, es: seq<Event>)
    requires Increasing(es) && (forall e | e in es && e.Sequenced? :: e.id > lastId)
    requires forall i | 0 <= i < |es| - 1 :: !Terminal(es[i])
    ensures ReadLog(lastId, es).out == OnlySequenced(es)
    ensures ReadLog(lastId, es).Done? ==> es != [] && Terminal(es[|es| - 1])
  {
    if es != [] {
      var init, e := es[..|es| - 1], es[|es| - 1];
      assert es == init + [e];
      PrefixIncreases(init, [e]);
      OrderedWriting(lastId, init);
      TakeAllBounds(Active(lastId, []), init);
      IncreasingLast(init, e);
    }
  }

  /** The second scan's snapshot reaches past the gap. */
  predicate ScanReachesGap(w: World) {
    && ChannelInStep(w) && w.gapEnd <= |OnlySequenced(w.log)|
    && (w.phase.SecondFetched? || w.phase.Live? ==> w.gapEnd <= Snap2(w))
  }

  lemma PushFirstStep(w: World, a: Action)
    requires ScanReachesGap(w) && Obeys(PushFirst, w) && Enabled(w, a) && Obeys(PushFirst, Next(w, a))
    ensures ScanReachesGap(Next(w, a))
  {
    SequencedStep(w, a);
    SnapshotIsFront(w, w.snap1);
    match a
    case Push(e) => PushInStep(w, e);
    case Publish(e) => PublishInStep(w, e);
    case Deliver => TakeMessage(w, a);
    case Lose => TakeMessage(w, a);
    case FetchFirst => FetchTrack(w, a);
    case FetchSecond => FetchTrack(w, a); assert Front(w.log, |w.log|) == w.log;
    case _ =>
  }

  /** When each event is in the log before it is published, the second scan misses none of the gap. */
  lemma {:induction false} PushFirstMissesNothing(w: World, run: seq<Action>)
    requires ScanReachesGap(w) && Obeys(PushFirst, w) && RunEnabled(w, run, PushFirst)
    ensures RunEnabled(w, run, OneOrder) && Run(w, run, OneOrder) == Run(w, run, PushFirst)
    ensures ScanReachesGap(Run(w, run, PushFirst))
    decreases run
  {
    if run != [] {
      PushFirstStep(w, run[0]);
      PushFirstMissesNothing(Next(w, run[0]), run[1..]);
    }
  }

  /** So then only an early message can make an event come too late. */
  lemma OnlyEarlyMessagesLose(w: World, e: Event)
    requires ScanReachesGap(w) && OnlyInGap(TrackOf(w), e)
    ensures TooLate(TrackOf(w), e) <==> w.early
  {
  }
}
