/** Checks of one key in flight together: their commands interleave, and the limit can be overrun by a known amount. */
module RateLimiterRaces {
  import opened Wrappers
  import opened RateLimiter

  /**
   A check goes through Start (it reads the clock), Clean, Count, and then either Peek, when it
   is denied, or Add and Expire. The key may expire, or be taken to have expired, at any moment.
   */
  datatype Action =
    | Start(id: nat, now: nat)
    | Clean(id: nat)
    | Count(id: nat)
    | Peek(id: nat)
    | Add(id: nat)
    | Expire(id: nat)
    | KeyExpires

  /** The stored scores, when each check started, and the checks waiting for each command. */
  datatype World = World(
    scores: seq<nat>, at: map<nat, nat>,
    toClean: set<nat>, toCount: set<nat>, toPeek: set<nat>, toAdd: set<nat>, toExpire: set<nat>)

  function InFlight(w: World): nat { |w.toClean| + |w.toCount| + |w.toPeek| + |w.toAdd| + |w.toExpire| }

  predicate Known(w: World) {
    w.toClean + w.toCount + w.toPeek + w.toAdd + w.toExpire <= w.at.Keys
  }

  predicate Enabled(w: World, a: Action) {
    match a
    case Start(id, _) => id !in w.at
    case Clean(id) => id in w.toClean
    case Count(id) => id in w.toCount
    case Peek(id) => id in w.toPeek
    case Add(id) => id in w.toAdd
    case Expire(id) => id in w.toExpire
    case KeyExpires => true
  }

  function Next(o: Options, w: World, a: Action): World
    requires Enabled(w, a) && Known(w)
  {
    match a
    case Start(id, now) => w.(at := w.at[id := now], toClean := w.toClean + {id})
    case Clean(id) =>
      w.(scores := Above(w.scores, w.at[id] - o.windowMs), toClean := w.toClean - {id}, toCount := w.toCount + {id})
    case Count(id) =>
      if |w.scores| >= o.maxRequests
      then w.(toCount := w.toCount - {id}, toPeek := w.toPeek + {id})
      else w.(toCount := w.toCount - {id}, toAdd := w.toAdd + {id})
    case Peek(id) => w.(toPeek := w.toPeek - {id})
    case Add(id) =>
      w.(scores := Insert(w.scores, w.at[id]), toAdd := w.toAdd - {id}, toExpire := w.toExpire + {id})
    case Expire(id) => w.(toExpire := w.toExpire - {id})
    case KeyExpires => w.(scores := [])
  }

  const EMPTY_WORLD := World([], map[], {}, {}, {}, {}, {})

  /** Where a run ends, or None if a step is not enabled or puts more than `c` checks in flight. */
  function After(o: Options, c: nat, run: seq<Action>): (end: Option<World>)
    ensures end.Some? ==> Known(end.value)
  {
    if run == [] then Some(EMPTY_WORLD)
    else
      match After(o, c, run[..|run| - 1])
      case None => None
      case Some(w) => Follow(o, c, w, run[|run| - 1])
  }

  function Follow(o: Options, c: nat, w: World, a: Action): (end: Option<World>)
    requires Known(w)
    ensures end.Some? ==> Known(end.value)
  {
    if Enabled(w, a) && InFlight(Next(o, w, a)) <= c then Some(Next(o, w, a)) else None
  }

  /** How far the set may fill with `c` checks in flight. */
  function Capacity(o: Options, c: nat): nat {
    if o.maxRequests == 0 || c == 0 then 0 else o.maxRequests + c - 1
  }

  /** The entries stored and those already granted but not yet stored. */
  predicate Fits(o: Options, c: nat, w: World) { |w.scores| + |w.toAdd| <= Capacity(o, c) }

  lemma StepFits(o: Options, c: nat, w: World, a: Action)
    requires Known(w) && Enabled(w, a) && Fits(o, c, w) && InFlight(Next(o, w, a)) <= c
    ensures Fits(o, c, Next(o, w, a))
  {
    match a
    case Clean(id) => AboveAbove(w.scores, w.at[id] - o.windowMs, w.at[id] - o.windowMs);
    case Add(id) => InsertKeepsAll(w.scores, w.at[id]);
    case _ =>
  }

  lemma {:induction false} RunFits(o: Options, c: nat, run: seq<Action>)
    requires After(o, c, run).Some?
    ensures Fits(o, c, After(o, c, run).value)
  {
    if run != [] {
      RunFits(o, c, run[..|run| - 1]);
      StepFits(o, c, After(o, c, run[..|run| - 1]).value, run[|run| - 1]);
    }
  }

  /** A check whose commands are not interleaved with others does what the sequential limiter says. */
  lemma LoneCheck(o: Options, w: World, id: nat, now: nat)
    requires Known(w) && id !in w.at && InFlight(w) == 0
    ensures var w1 := Next(o, w, Start(id, now));
            && Enabled(w1, Clean(id)) && Known(w1)
            && var w2 := Next(o, w1, Clean(id));
            && Enabled(w2, Count(id)) && Known(w2)
            && var w3 := Next(o, w2, Count(id));
            && var z := ZSet(w.scores, None);
            && (Enabled(w3, Add(id)) <==> VerdictOf(o, z, now).Allowed?)
            && (Enabled(w3, Peek(id)) <==> VerdictOf(o, z, now).Denied?)
            && (Enabled(w3, Peek(id)) ==> w3.scores == Checked(o, z, now).scores)
            && (Enabled(w3, Add(id)) ==> Known(w3) && Next(o, w3, Add(id)).scores == Checked(o, z, now).scores)
  {
    assert Cleaned(o, ZSet(w.scores, None), now).scores == Above(w.scores, now - o.windowMs);
  }

  // ---------- The bound is reached ----------

  lemma Extend(o: Options, c: nat, run: seq<Action>, a: Action)
    requires After(o, c, run).Some?
    ensures After(o, c, run + [a]) == Follow(o, c, After(o, c, run).value, a)
  {
    assert (run + [a])[..|run|] == run;
  }

  /**
   The clock reading of check `i` in the run that fills the set: all the same, or, with a
   window of no length at all, readings that go back from `top`.
   */
  function Reading(o: Options, top: nat, i: nat): nat {
    if o.windowMs > 0 || top < i then 0 else top - i
  }

  /**
   `stored` entries that no later check drops, `granted` checks about to add one, `added`
   about to renew the expiry, ids below `n`.
   */
  predicate Stage(o: Options, top: nat, w: World, stored: nat, granted: nat, added: nat, n: nat) {
    && Known(w) && |w.scores| == stored && n <= top
    && (forall k | 0 <= k < |w.scores| :: w.scores[k] > Reading(o, top, n) - o.windowMs)
    && w.toClean == w.toCount == w.toPeek == {} && |w.toAdd| == granted && |w.toExpire| == added
    && w.toAdd !! w.toExpire
    && (forall i | i in w.at :: i < n && w.at[i] == Reading(o, top, i))
  }

  lemma {:induction false} AllStay(s: seq<nat>, lo: int)
    requires forall k | 0 <= k < |s| :: s[k] > lo
    ensures Above(s, lo) == s
    decreases s
  {
    if s != [] {
      AllStay(s[1..], lo);
    }
  }

  lemma StartThenClean(o: Options, top: nat, w: World, stored: nat, granted: nat, n: nat)
    requires Stage(o, top, w, stored, granted, 0, n) && n < top
    ensures var now := Reading(o, top, n);
            && Enabled(w, Start(n, now))
            && var w1 := Next(o, w, Start(n, now));
            && InFlight(w1) == granted + 1 && Known(w1) && Enabled(w1, Clean(n))
            && Next(o, w1, Clean(n)) == w.(at := w.at[n := now], toCount := {n})
  {
    AllStay(w.scores, Reading(o, top, n) - o.windowMs);
  }

  lemma CountGrants(o: Options, top: nat, w: World, stored: nat, granted: nat, n: nat)
    requires Stage(o, top, w, stored, granted, 0, n) && stored < o.maxRequests && n < top
    ensures var w2 := w.(at := w.at[n := Reading(o, top, n)], toCount := {n});
            && Known(w2) && InFlight(w2) == granted + 1 && Enabled(w2, Count(n))
            && Stage(o, top, Next(o, w2, Count(n)), stored, granted + 1, 0, n + 1)
  {
    var at := w.at[n := Reading(o, top, n)];
    var w2 := w.(at := at, toCount := {n});
    assert Next(o, w2, Count(n)) == w.(at := at, toCount := {}, toAdd := w.toAdd + {n});
    assert n !in w.toAdd;
  }

  /** One more check reads a count below the limit. */
  lemma Grant(o: Options, c: nat, top: nat, run: seq<Action>, stored: nat, granted: nat, n: nat)
    returns (run': seq<Action>)
    requires After(o, c, run).Some? && Stage(o, top, After(o, c, run).value, stored, granted, 0, n)
    requires stored < o.maxRequests && granted < c && n < top
    ensures After(o, c, run').Some? && Stage(o, top, After(o, c, run').value, stored, granted + 1, 0, n + 1)
  {
    var w, now := After(o, c, run).value, Reading(o, top, n);
    StartThenClean(o, top, w, stored, granted, n);
    CountGrants(o, top, w, stored, granted, n);
    Extend(o, c, run, Start(n, now));
    var r1 := run + [Start(n, now)];
    Extend(o, c, r1, Clean(n));
    var r2 := r1 + [Clean(n)];
    Extend(o, c, r2, Count(n));
    run' := r2 + [Count(n)];
  }

  lemma InsertStays(s: seq<nat>, x: nat, lo: int)
    requires x > lo && forall k | 0 <= k < |s| :: s[k] > lo
    ensures |Insert(s, x)| == |s| + 1 && forall k | 0 <= k < |Insert(s, x)| :: Insert(s, x)[k] > lo
  {
    InsertKeepsAll(s, x);
    forall k | 0 <= k < |Insert(s, x)| ensures Insert(s, x)[k] > lo {
      assert Insert(s, x)[k] in multiset(Insert(s, x));
    }
  }

  lemma StoreStep(o: Options, top: nat, w: World, id: nat, stored: nat, granted: nat, added: nat, n: nat)
    requires Stage(o, top, w, stored, granted, added, n) && id in w.toAdd
    ensures Stage(o, top, Next(o, w, Add(id)), stored + 1, granted - 1, added + 1, n)
  {
    InsertStays(w.scores, w.at[id], Reading(o, top, n) - o.windowMs);
  }

  /** A granted check stores its entry. */
  lemma Store(o: Options, c: nat, top: nat, run: seq<Action>, stored: nat, granted: nat, added: nat, n: nat)
    returns (run': seq<Action>)
    requires After(o, c, run).Some? && Stage(o, top, After(o, c, run).value, stored, granted, added, n)
    requires granted > 0 && granted + added <= c
    ensures After(o, c, run').Some?
    ensures Stage(o, top, After(o, c, run').value, stored + 1, granted - 1, added + 1, n)
  {
    var w := After(o, c, run).value;
    var id :| id in w.toAdd;
    StoreStep(o, top, w, id, stored, granted, added, n);
    Extend(o, c, run, Add(id));
    run' := run + [Add(id)];
  }

  /** A run that gets that far. */
  predicate Reaches(o: Options, c: nat, top: nat, run: seq<Action>, stored: nat, granted: nat, added: nat, n: nat) {
    After(o, c, run).Some? && Stage(o, top, After(o, c, run).value, stored, granted, added, n)
  }

  lemma OneMoreGranted(o: Options, c: nat, top: nat, run: seq<Action>, stored: nat, granted: nat, n: nat)
    returns (run': seq<Action>)
    requires 0 < granted <= c && n > 0
    requires Reaches(o, c, top, run, stored, granted - 1, 0, n - 1) && stored < o.maxRequests && n <= top
    ensures Reaches(o, c, top, run', stored, granted, 0, n)
  {
    run' := Grant(o, c, top, run, stored, granted - 1, n - 1);
  }

  lemma OneMoreStored(o: Options, c: nat, top: nat, run: seq<Action>, stored: nat, granted: nat, added: nat, n: nat)
    returns (run': seq<Action>)
    requires stored > 0 && added > 0
    requires Reaches(o, c, top, run, stored - 1, granted + 1, added - 1, n) && granted + added <= c
    ensures Reaches(o, c, top, run', stored, granted, added, n)
  {
    run' := Store(o, c, top, run, stored - 1, granted + 1, added - 1, n);
  }

  lemma OneFinished(o: Options, c: nat, top: nat, run: seq<Action>, stored: nat, n: nat) returns (run': seq<Action>)
    requires Reaches(o, c, top, run, stored, 0, 1, n) && c > 0
    ensures Reaches(o, c, top, run', stored, 0, 0, n)
  {
    var id :| id in After(o, c, run).value.toExpire;
    Extend(o, c, run, Expire(id));
    run' := run + [Expire(id)];
  }

  /** One check after another. */
  lemma {:induction false} Fill(o: Options, c: nat, top: nat, k: nat) returns (run: seq<Action>)
    requires k <= o.maxRequests && c > 0 && k <= top
    ensures Reaches(o, c, top, run, k, 0, 0, k)
    decreases k
  {
    run := [];
    if k > 0 {
      run := Fill(o, c, top, k - 1);
      run := OneMoreGranted(o, c, top, run, k - 1, 1, k);
      run := OneMoreStored(o, c, top, run, k, 0, 1, k);
      run := OneFinished(o, c, top, run, k, k);
    }
  }

  /** With `base` entries stored, `g` more checks are let through before any of them stores its entry. */
  lemma {:induction false} Burst(o: Options, c: nat, top: nat, base: nat, g: nat) returns (run: seq<Action>)
    requires base < o.maxRequests && 0 < c && g <= c && base + g <= top
    ensures Reaches(o, c, top, run, base, g, 0, base + g)
    decreases g
  {
    if g == 0 {
      run := Fill(o, c, top, base);
    } else {
      run := Burst(o, c, top, base, g - 1);
      run := OneMoreGranted(o, c, top, run, base, g, base + g);
    }
  }

  /** Then all of them do. */
  lemma {:induction false} Drain(o: Options, c: nat, top: nat,
                                 run: seq<Action>, stored: nat, granted: nat, added: nat, n: nat)
    returns (run': seq<Action>)
    requires Reaches(o, c, top, run, stored, granted, added, n) && granted + added <= c
    ensures Reaches(o, c, top, run', stored + granted, 0, added + granted, n)
    decreases granted
  {
    run' := run;
    if granted > 0 {
      var run1 := OneMoreStored(o, c, top, run, stored + 1, granted - 1, added + 1, n);
      run' := Drain(o, c, top, run1, stored + 1, granted - 1, added + 1, n);
    }
  }

  ghost predicate CanStore(o: Options, c: nat, n: nat) {
    exists run :: After(o, c, run).Some? && |After(o, c, run).value.scores| == n
  }

  /**
   However the commands of at most `c` checks interleave, the set never holds more than
   `maxRequests + c - 1` entries, and some interleaving does fill it that far: with all checks
   at one moment, or, when the window has no length, with clocks that disagree.
   */
  lemma ConcurrentBoundIsExact(o: Options, c: nat, n: nat)
    ensures CanStore(o, c, n) ==> n <= Capacity(o, c)
    ensures n == Capacity(o, c) ==> CanStore(o, c, n)
  {
    forall run | After(o, c, run).Some? && |After(o, c, run).value.scores| == n ensures n <= Capacity(o, c) {
      RunFits(o, c, run);
    }
    if n == Capacity(o, c) {
      if n > 0 {
        var base := o.maxRequests - 1;
        var burst := Burst(o, c, base + c, base, c);
        var run := Drain(o, c, base + c, burst, base, c, 0, base + c);
        assert After(o, c, run).Some? && |After(o, c, run).value.scores| == n;
      } else {
        assert After(o, c, []) == Some(EMPTY_WORLD);
      }
    }
  }
}
