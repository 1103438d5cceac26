/** Two runs that lose an event: neither part of the exact condition can go. */
module StreamLosses {
  import opened Events
  import opened StreamRoute
  import opened StreamProtocol
  import opened StreamNoLoss

  /** Prepending a step to a run. */
  lemma RunStep(w: World, a: Action, run: seq<Action>, order: Order)
    requires Enabled(w, a) && Obeys(order, Next(w, a))
    requires RunEnabled(Next(w, a), run, order)
    ensures RunEnabled(w, [a] + run, order)
    ensures Run(w, [a] + run, order) == Run(Next(w, a), run, order)
  {
    assert ([a] + run)[1..] == run;
  }

  /** An uncut connection that has caught up on an increasing log and still owes an event. */
  predicate HasLost(w: World) {
    Drained(w) && !w.cut && Increasing(w.log) && OnlySequenced(w.conn.written) != Owed(w.log, w.lastId)
  }

  /** `w` can reach such a state; `early` says whether a message was handled before the second scan. */
  ghost predicate CanLose(w: World, order: Order, early: bool) {
    exists run :: RunEnabled(w, run, order) && HasLost(Run(w, run, order)) && Run(w, run, order).early == early
  }

  lemma CanLoseAfter(w: World, a: Action, order: Order, early: bool)
    requires Enabled(w, a) && Obeys(order, Next(w, a))
    requires CanLose(Next(w, a), order, early)
    ensures CanLose(w, order, early)
  {
    var w1 := Next(w, a);
    var run :| RunEnabled(w1, run, order) && HasLost(Run(w1, run, order)) && Run(w1, run, order).early == early;
    RunStep(w, a, run, order);
    assert RunEnabled(w, [a] + run, order);
  }

  lemma LostHere(w: World, order: Order)
    requires HasLost(w)
    ensures CanLose(w, order, w.early)
  {
    assert Run(w, [], order) == w;
  }

  /**
   An event pushed and published between the first replay and the subscription is lost
   when the next one is handled before the second replay, although the log is never behind.
   */
  lemma EarlyMessageLosesEvent(e1: Event, e2: Event)
    requires e1.Sequenced? && e2.Sequenced? && e1.id < e2.id
    ensures CanLose(Start(-1, [], []), PushFirst, true)
  {
    var w0 := Start(-1, [], []);
    var w1 := Next(w0, FetchFirst);
    var w2 := Next(w1, ScanFirst);
    var w3 := Next(w2, Push(e1));
    var w4 := Next(w3, Publish(e1));
    var w5 := Next(w4, Subscribe);
    var w6 := Next(w5, Listen);
    assert w6 == World(-1, Listening, Conn(-1, [], false), [e1], [e1], [], 0, 0, 1, false, false);
    LosesFromHere(e1, e2);
    CanLoseAfter(w5, Listen, PushFirst, true);
    CanLoseAfter(w4, Subscribe, PushFirst, true);
    CanLoseAfter(w3, Publish(e1), PushFirst, true);
    CanLoseAfter(w2, Push(e1), PushFirst, true);
    CanLoseAfter(w1, ScanFirst, PushFirst, true);
    CanLoseAfter(w0, FetchFirst, PushFirst, true);
  }

  lemma LosesFromHere(e1: Event, e2: Event)
    requires e1.Sequenced? && e2.Sequenced? && e1.id < e2.id
    ensures CanLose(World(-1, Listening, Conn(-1, [], false), [e1], [e1], [], 0, 0, 1, false, false), PushFirst, true)
  {
    var w6 := World(-1, Listening, Conn(-1, [], false), [e1], [e1], [], 0, 0, 1, false, false);
    var w7 := Next(w6, Push(e2));
    var w8 := Next(w7, Publish(e2));
    var w9 := Next(w8, Deliver);
    assert w9 == World(-1, Listening, Emit(Conn(-1, [], false), e2), [e1, e2], [e1, e2], [], 0, 0, 1, true, false);
    LosesFromThere(e1, e2);
    CanLoseAfter(w8, Deliver, PushFirst, true);
    CanLoseAfter(w7, Publish(e2), PushFirst, true);
    CanLoseAfter(w6, Push(e2), PushFirst, true);
  }

  lemma LosesFromThere(e1: Event, e2: Event)
    requires e1.Sequenced? && e2.Sequenced? && e1.id < e2.id
    ensures
      var c := Emit(Conn(-1, [], false), e2);
      CanLose(World(-1, Listening, c, [e1, e2], [e1, e2], [], 0, 0, 1, true, false), PushFirst, true)
  {
    var c := Emit(Conn(-1, [], false), e2);
    var w9 := World(-1, Listening, c, [e1, e2], [e1, e2], [], 0, 0, 1, true, false);
    var w10 := Next(w9, FetchSecond);
    var w11 := Next(w10, ScanSecond);
    assert w11.conn == c by {
      assert w10.log[..2] == [e1, e2];
      NothingAbove(c, e1, e2);
    }
    SecondAloneIsNotOwed(e1, e2);
    LostHere(w11, PushFirst);
    CanLoseAfter(w10, ScanSecond, PushFirst, true);
    CanLoseAfter(w9, FetchSecond, PushFirst, true);
  }

  lemma SecondAloneIsNotOwed(e1: Event, e2: Event)
    requires e1.Sequenced? && e2.Sequenced? && e1.id < e2.id
    ensures OnlySequenced(Emit(Conn(-1, [], false), e2).written) != Owed([e1, e2], -1)
  {
    assert Emit(Conn(-1, [], false), e2).written == [e2];
    assert Owed([e1, e2], -1)[0] == e1;
    OnlySequencedKeeps([e2], e1);
  }

  lemma NothingAbove(c: Conn, e1: Event, e2: Event)
    requires !After(e1, c.highest) && !After(e2, c.highest)
    ensures SecondReplay(c, [e1, e2]) == c
  {
    assert [e1, e2][1..] == [e2] && [e2][1..] == [];
    assert SecondReplay(c, [e2]) == c;
  }

  /**
   The publisher issues the channel message before the list append. If the message goes out
   before the subscription and the append comes after the second read, the event is lost
   although no message was handled early.
   */
  lemma PublishFirstLosesEvent(e: Event)
    requires e.Sequenced?
    ensures CanLose(Start(-1, [], []), OneOrder, false)
  {
    var w0 := Start(-1, [], []);
    var w1 := Next(w0, FetchFirst);
    var w2 := Next(w1, ScanFirst);
    var w3 := Next(w2, Publish(e));
    assert w3 == World(-1, FirstScanned, Conn(-1, [], false), [], [e], [], 0, 0, 0, false, false);
    LosesOncePublished(e);
    CanLoseAfter(w2, Publish(e), OneOrder, false);
    CanLoseAfter(w1, ScanFirst, OneOrder, false);
    CanLoseAfter(w0, FetchFirst, OneOrder, false);
  }

  lemma LosesOncePublished(e: Event)
    requires e.Sequenced?
    ensures CanLose(World(-1, FirstScanned, Conn(-1, [], false), [], [e], [], 0, 0, 0, false, false), OneOrder, false)
  {
    var w3 := World(-1, FirstScanned, Conn(-1, [], false), [], [e], [], 0, 0, 0, false, false);
    var w4 := Next(w3, Subscribe);
    var w5 := Next(w4, Listen);
    var w6 := Next(w5, FetchSecond);
    assert w6 == World(-1, SecondFetched, Conn(-1, [], false), [], [e], [], 0, 0, 1, false, false);
    LosesOnceFetched(e);
    CanLoseAfter(w5, FetchSecond, OneOrder, false);
    CanLoseAfter(w4, Listen, OneOrder, false);
    CanLoseAfter(w3, Subscribe, OneOrder, false);
  }

  lemma LosesOnceFetched(e: Event)
    requires e.Sequenced?
    ensures CanLose(World(-1, SecondFetched, Conn(-1, [], false), [], [e], [], 0, 0, 1, false, false), OneOrder, false)
  {
    var w6 := World(-1, SecondFetched, Conn(-1, [], false), [], [e], [], 0, 0, 1, false, false);
    var w7 := Next(w6, Push(e));
    var w8 := Next(w7, ScanSecond);
    assert w8.conn.written == [] && w8.log == [e];
    assert Owed([e], -1) != [];
    LostHere(w8, OneOrder);
    CanLoseAfter(w7, ScanSecond, OneOrder, false);
    CanLoseAfter(w6, Push(e), OneOrder, false);
  }
}
