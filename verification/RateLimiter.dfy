/** The sliding-window rate limiter over one sorted set per key: the sequential contract and the concurrent bound. */
module RateLimiter {
  import opened Wrappers

  datatype Options = Options(windowMs: nat, maxRequests: nat)

  datatype Verdict = Allowed(remaining: int) | Denied(retryAfterMs: int)

  /** The scores of a sorted set in ascending order, and the moment its key expires. */
  datatype ZSet = ZSet(scores: seq<nat>, expiresAt: Option<nat>)

  const EMPTY := ZSet([], None)

  predicate Sorted(s: seq<nat>) { forall i, j :: 0 <= i < j < |s| ==> s[i] <= s[j] }

  /** The scores above `lo`; the commands never store a negative score. */
  function Above(s: seq<nat>, lo: int): seq<nat> {
    if s == [] then []
    else if s[0] > lo then [s[0]] + Above(s[1..], lo)
    else Above(s[1..], lo)
  }

  function Insert(s: seq<nat>, x: nat): seq<nat> {
    if s == [] || x < s[0] then [x] + s else [s[0]] + Insert(s[1..], x)
  }

  predicate AtMost(s: seq<nat>, hi: int) { forall i :: 0 <= i < |s| ==> s[i] <= hi }

  lemma {:induction false} InsertKeepsAll(s: seq<nat>, x: nat)
    ensures multiset(Insert(s, x)) == multiset(s) + multiset{x}
    ensures |Insert(s, x)| == |s| + 1
    decreases s
  {
    if s != [] {
      assert s == [s[0]] + s[1..];
      InsertKeepsAll(s[1..], x);
    }
  }

  lemma {:induction false} InsertLast(s: seq<nat>, x: nat)
    requires AtMost(s, x)
    ensures Insert(s, x) == s + [x]
    decreases s
  {
    if s != [] {
      InsertLast(s[1..], x);
      assert [s[0]] + (s[1..] + [x]) == s + [x];
    }
  }

  function Seen(z: ZSet, now: nat): ZSet {
    if z.expiresAt.Some? && now >= z.expiresAt.value then EMPTY else z
  }

  /** A sorted set that becomes empty is deleted with its expiry. */
  function Removed(z: ZSet, hi: int): ZSet {
    var s := Above(z.scores, hi);
    if s == [] then EMPTY else z.(scores := s)
  }

  function Cleaned(o: Options, z: ZSet, now: nat): ZSet { Removed(Seen(z, now), now - o.windowMs) }

  function TtlMs(o: Options): nat { (o.windowMs + 999) / 1000 * 1000 }

  function VerdictOf(o: Options, z: ZSet, now: nat): Verdict {
    var s := Cleaned(o, z, now).scores;
    if |s| < o.maxRequests then Allowed(o.maxRequests - |s| - 1)
    else if s == [] then Denied(o.windowMs)
    else if s[0] + o.windowMs < now then Denied(0)
    else Denied(s[0] + o.windowMs - now)
  }

  /** The set with this request in it and its expiry renewed. */
  function Joined(o: Options, z: ZSet, now: nat): ZSet {
    ZSet(Insert(z.scores, now), Some(now + TtlMs(o)))
  }

  function Checked(o: Options, z: ZSet, now: nat): ZSet {
    var z1 := Cleaned(o, z, now);
    if |z1.scores| < o.maxRequests then Joined(o, z1, now) else z1
  }

  class Redis {
    var sets: map<string, ZSet>

    constructor ()
      ensures sets == map[]
    {
      sets := map[];
    }

    function Get(key: string): ZSet
      reads this
    {
      if key in sets then sets[key] else EMPTY
    }

    method Expel(key: string, now: nat)
      modifies this
      ensures Get(key) == Seen(old(Get(key)), now)
      ensures sets - {key} == old(sets) - {key}
    {
      if key in sets && sets[key].expiresAt.Some? && now >= sets[key].expiresAt.value {
        sets := sets - {key};
      }
    }

    method ZRemRangeByScore(key: string, hi: int, now: nat)
      modifies this
      ensures Get(key) == Removed(Seen(old(Get(key)), now), hi)
      ensures sets - {key} == old(sets) - {key}
    {
      Expel(key, now);
      var z := Removed(Get(key), hi);
      sets := if z.scores == [] then sets - {key} else sets[key := z];
    }

    method ZCard(key: string, now: nat) returns (n: nat)
      modifies this
      ensures n == |Seen(old(Get(key)), now).scores|
      ensures Get(key) == Seen(old(Get(key)), now) && sets - {key} == old(sets) - {key}
    {
      Expel(key, now);
      n := |Get(key).scores|;
    }

    method ZRangeFirst(key: string, now: nat) returns (oldest: Option<nat>)
      modifies this
      ensures Get(key) == Seen(old(Get(key)), now) && sets - {key} == old(sets) - {key}
      ensures oldest == if Get(key).scores == [] then None else Some(Get(key).scores[0])
    {
      Expel(key, now);
      oldest := if Get(key).scores == [] then None else Some(Get(key).scores[0]);
    }

    method ZAdd(key: string, score: nat, now: nat)
      modifies this
      ensures Get(key) == var z := Seen(old(Get(key)), now); z.(scores := Insert(z.scores, score))
      ensures sets - {key} == old(sets) - {key}
    {
      Expel(key, now);
      var z := Get(key);
      sets := sets[key := z.(scores := Insert(z.scores, score))];
    }

    method Expire(key: string, seconds: nat, now: nat)
      modifies this
      ensures var z := Seen(old(Get(key)), now);
              Get(key) == if z.scores == [] then z else z.(expiresAt := Some(now + 1000 * seconds))
      ensures sets - {key} == old(sets) - {key}
    {
      Expel(key, now);
      if Get(key).scores != [] {
        sets := sets[key := Get(key).(expiresAt := Some(now + 1000 * seconds))];
      }
    }
  }

  class RateLimiter {
    const redis: Redis
    const windowMs: nat
    const maxRequests: nat

    constructor (redis: Redis, windowMs: nat, maxRequests: nat)
      ensures this.redis == redis && this.windowMs == windowMs && this.maxRequests == maxRequests
    {
      this.redis := redis;
      this.windowMs := windowMs;
      this.maxRequests := maxRequests;
    }

    function Settings(): Options { Options(windowMs, maxRequests) }

    /** The first pipeline: drop what has left the window, then count. */
    method CheckPipeline(key: string, now: nat) returns (count: nat)
      modifies redis
      ensures redis.Get(key) == Cleaned(Settings(), old(redis.Get(key)), now)
      ensures count == |redis.Get(key).scores|
      ensures redis.sets - {key} == old(redis.sets) - {key}
    {
      redis.ZRemRangeByScore(key, now - windowMs, now);
      count := redis.ZCard(key, now);
    }

    /** The second pipeline: add this request, then renew the key's expiry. */
    method AddPipeline(key: string, now: nat)
      modifies redis
      ensures redis.Get(key) == Joined(Settings(), Seen(old(redis.Get(key)), now), now)
      ensures redis.sets - {key} == old(redis.sets) - {key}
    {
      redis.ZAdd(key, now, now);
      InsertKeepsAll(Seen(old(redis.Get(key)), now).scores, now);
      redis.Expire(key, (windowMs + 999) / 1000, now);
    }

    /** The commands of one check are taken to run at the moment it read the clock. */
    method Check(key: string, now: nat) returns (verdict: Verdict)
      modifies redis
      ensures verdict == VerdictOf(Settings(), old(redis.Get(key)), now)
      ensures redis.Get(key) == Checked(Settings(), old(redis.Get(key)), now)
      ensures redis.sets - {key} == old(redis.sets) - {key}
    {
      var count := CheckPipeline(key, now);
      if count >= maxRequests {
        var oldest := redis.ZRangeFirst(key, now);
        var retryAfterMs := if oldest.Some? then oldest.value + windowMs - now else windowMs;
        return Denied(if retryAfterMs < 0 then 0 else retryAfterMs);
      }
      AddPipeline(key, now);
      return Allowed(maxRequests - count - 1);
    }
  }

  // ---------- Scores above a bound ----------

  lemma {:induction false} AboveAppend(s: seq<nat>, x: nat, lo: int)
    ensures Above(s + [x], lo) == Above(s, lo) + if x > lo then [x] else []
    decreases s
  {
    if s != [] {
      AboveAppend(s[1..], x, lo);
      assert (s + [x])[1..] == s[1..] + [x];
    }
  }

  lemma {:induction false} AboveAbove(s: seq<nat>, lo: int, hi: int)
    requires lo <= hi
    ensures Above(Above(s, lo), hi) == Above(s, hi)
    ensures |Above(s, hi)| <= |Above(s, lo)| <= |s|
    decreases s
  {
    if s != [] {
      AboveAbove(s[1..], lo, hi);
      if s[0] > lo {
        assert ([s[0]] + Above(s[1..], lo))[1..] == Above(s[1..], lo);
      }
    }
  }

  lemma {:induction false} AboveMembers(s: seq<nat>, lo: int, e: nat)
    ensures e in Above(s, lo) <==> e in s && e > lo
    decreases s
  {
    if s != [] {
      AboveMembers(s[1..], lo, e);
    }
  }

  lemma {:induction false} AboveSorted(s: seq<nat>, lo: int)
    requires Sorted(s)
    ensures Sorted(Above(s, lo))
    decreases s
  {
    if s != [] {
      AboveSorted(s[1..], lo);
      var rest := Above(s[1..], lo);
      forall i | 0 <= i < |rest| ensures s[0] <= rest[i] {
        AboveMembers(s[1..], lo, rest[i]);
      }
    }
  }

  lemma AboveAtMost(s: seq<nat>, lo: int, hi: int)
    requires AtMost(s, hi)
    ensures AtMost(Above(s, lo), hi)
  {
    forall i | 0 <= i < |Above(s, lo)| ensures Above(s, lo)[i] <= hi {
      AboveMembers(s, lo, Above(s, lo)[i]);
    }
  }

  lemma NoneAbove(s: seq<nat>, lo: int)
    requires AtMost(s, lo)
    ensures Above(s, lo) == []
  {
    if Above(s, lo) != [] {
      AboveMembers(s, lo, Above(s, lo)[0]);
    }
  }

  /** How many scores lie in the window that ends at `hi` and leaves out `lo`. */
  function CountWithin(s: seq<nat>, lo: int, hi: int): nat {
    if s == [] then 0 else (if lo < s[0] <= hi then 1 else 0) + CountWithin(s[1..], lo, hi)
  }

  lemma {:induction false} CountAppend(s: seq<nat>, x: nat, lo: int, hi: int)
    ensures CountWithin(s + [x], lo, hi) == CountWithin(s, lo, hi) + if lo < x <= hi then 1 else 0
    decreases s
  {
    if s != [] {
      CountAppend(s[1..], x, lo, hi);
      assert (s + [x])[1..] == s[1..] + [x];
    }
  }

  lemma {:induction false} CountIsAbove(s: seq<nat>, lo: int, hi: int)
    ensures CountWithin(s, lo, hi) <= |Above(s, lo)|
    ensures AtMost(s, hi) ==> CountWithin(s, lo, hi) == |Above(s, lo)|
    decreases s
  {
    if s != [] {
      CountIsAbove(s[1..], lo, hi);
      assert AtMost(s, hi) ==> AtMost(s[1..], hi);
    }
  }

  // ---------- One check after another ----------

  datatype Limiter = Limiter(z: ZSet, admitted: seq<nat>)

  function Step(o: Options, l: Limiter, now: nat): Limiter {
    Limiter(Checked(o, l.z, now), if VerdictOf(o, l.z, now).Allowed? then l.admitted + [now] else l.admitted)
  }

  function Run(o: Options, l: Limiter, times: seq<nat>): Limiter
    decreases times
  {
    if times == [] then l else Run(o, Step(o, l, times[0]), times[1..])
  }

  const FRESH := Limiter(EMPTY, [])

  /** No entry outlives its key by less than the window. */
  predicate Covered(o: Options, z: ZSet) {
    Sorted(z.scores) && (z.expiresAt.Some? ==> AtMost(z.scores, z.expiresAt.value - o.windowMs))
  }

  /** What is live in the set at `t` is what was admitted in the window before `t`. */
  predicate LiveAt(o: Options, l: Limiter, t: nat) {
    Above(Seen(l.z, t).scores, t - o.windowMs) == Above(l.admitted, t - o.windowMs)
  }

  ghost predicate Tracks(o: Options, l: Limiter, clock: nat) {
    && Covered(o, l.z) && AtMost(l.z.scores, clock) && AtMost(l.admitted, clock)
    && (forall t: nat | t >= clock :: LiveAt(o, l, t))
  }

  function InWindow(o: Options, s: seq<nat>, t: int): nat { CountWithin(s, t - o.windowMs, t) }

  ghost predicate Bounded(o: Options, s: seq<nat>) {
    forall t: int :: InWindow(o, s, t) <= o.maxRequests
  }

  lemma CleanedIsLive(o: Options, l: Limiter, now: nat)
    requires LiveAt(o, l, now)
    ensures Cleaned(o, l.z, now).scores == Above(l.admitted, now - o.windowMs)
  {
  }

  lemma CleanedCovered(o: Options, z: ZSet, now: nat, hi: int)
    requires Covered(o, z) && AtMost(z.scores, hi)
    ensures Covered(o, Cleaned(o, z, now)) && AtMost(Cleaned(o, z, now).scores, hi)
  {
    var s := Seen(z, now).scores;
    AboveSorted(s, now - o.windowMs);
    AboveAtMost(s, now - o.windowMs, hi);
    if z.expiresAt.Some? {
      AboveAtMost(z.scores, now - o.windowMs, z.expiresAt.value - o.windowMs);
    }
  }

  /** The expiry of a key drops no entry that is still in the window. */
  lemma ExpiryDropsNothing(o: Options, z: ZSet, t: nat)
    requires Covered(o, z)
    ensures Above(Seen(z, t).scores, t - o.windowMs) == Above(z.scores, t - o.windowMs)
  {
    if Seen(z, t) != z {
      NoneAbove(z.scores, t - o.windowMs);
    }
  }

  lemma CleanedLater(o: Options, z: ZSet, now: nat, t: nat)
    requires Covered(o, z) && now <= t
    ensures Above(Cleaned(o, z, now).scores, t - o.windowMs) == Above(z.scores, t - o.windowMs)
  {
    AboveAbove(Seen(z, now).scores, now - o.windowMs, t - o.windowMs);
    if Seen(z, now) != z {
      NoneAbove(z.scores, t - o.windowMs);
    }
  }

  lemma CheckedCovered(o: Options, z: ZSet, now: nat)
    requires Covered(o, z) && AtMost(z.scores, now)
    ensures Covered(o, Checked(o, z, now)) && AtMost(Checked(o, z, now).scores, now)
    ensures var s := Cleaned(o, z, now).scores;
            |s| < o.maxRequests ==> Checked(o, z, now) == ZSet(s + [now], Some(now + TtlMs(o)))
  {
    CleanedCovered(o, z, now, now);
    InsertLast(Cleaned(o, z, now).scores, now);
  }

  lemma StepLive(o: Options, l: Limiter, now: nat, t: nat)
    requires Covered(o, l.z) && AtMost(l.z.scores, now) && LiveAt(o, l, t) && now <= t
    ensures LiveAt(o, Step(o, l, now), t)
  {
    var lo := t - o.windowMs;
    CheckedCovered(o, l.z, now);
    ExpiryDropsNothing(o, l.z, t);
    ExpiryDropsNothing(o, Checked(o, l.z, now), t);
    CleanedLater(o, l.z, now, t);
    AboveAppend(Cleaned(o, l.z, now).scores, now, lo);
    AboveAppend(l.admitted, now, lo);
  }

  lemma StepTracks(o: Options, l: Limiter, clock: nat, now: nat)
    requires Tracks(o, l, clock) && clock <= now
    ensures Tracks(o, Step(o, l, now), now)
  {
    CheckedCovered(o, l.z, now);
    forall t: nat | t >= now ensures LiveAt(o, Step(o, l, now), t) {
      assert LiveAt(o, l, t);
      StepLive(o, l, now, t);
    }
  }

  lemma StepBounded(o: Options, l: Limiter, clock: nat, now: nat)
    requires Tracks(o, l, clock) && clock <= now && Bounded(o, l.admitted)
    ensures Bounded(o, Step(o, l, now).admitted)
  {
    var h := l.admitted;
    assert LiveAt(o, l, now);
    CleanedIsLive(o, l, now);
    if |Cleaned(o, l.z, now).scores| < o.maxRequests {
      forall t: int ensures InWindow(o, h + [now], t) <= o.maxRequests {
        assert InWindow(o, h, t) <= o.maxRequests;
        CountAppend(h, now, t - o.windowMs, t);
        CountIsAbove(h, t - o.windowMs, t);
        if t >= now {
          AboveAbove(h, now - o.windowMs, t - o.windowMs);
        }
      }
    }
  }

  lemma {:induction false} RunTracks(o: Options, l: Limiter, clock: nat, times: seq<nat>)
    requires Tracks(o, l, clock) && Bounded(o, l.admitted) && Sorted([clock] + times)
    ensures Bounded(o, Run(o, l, times).admitted)
    ensures Tracks(o, Run(o, l, times), if times == [] then clock else times[|times| - 1])
    decreases times
  {
    if times != [] {
      var s := [clock] + times;
      assert s[0] == clock && s[1] == times[0] && s[1..] == times;
      StepTracks(o, l, clock, times[0]);
      StepBounded(o, l, clock, times[0]);
      assert [times[0]] + times[1..] == s[1..];
      RunTracks(o, Step(o, l, times[0]), times[0], times[1..]);
    }
  }

  /**
   With checks that do not overlap and a clock that does not go back, every window admits
   at most `maxRequests`, wherever it ends.
   */
  lemma EveryWindowIsBounded(o: Options, times: seq<nat>, t: int)
    requires Sorted(times)
    ensures InWindow(o, Run(o, FRESH, times).admitted, t) <= o.maxRequests
  {
    assert Sorted([0] + times);
    assert Tracks(o, FRESH, 0);
    RunTracks(o, FRESH, 0, times);
    assert Bounded(o, Run(o, FRESH, times).admitted);
  }

  lemma SortedParts(times: seq<nat>, now: nat)
    requires Sorted(times + [now])
    ensures Sorted(times) && Sorted([0] + times)
    ensures times != [] ==> times[|times| - 1] <= now
  {
    var all := times + [now];
    assert forall i | 0 <= i < |times| :: all[i] == times[i];
    assert all[|times|] == now;
  }

  /** After any run of checks, the set is in step with what was admitted, and no window holds more than the limit. */
  lemma RunInStep(o: Options, times: seq<nat>, now: nat)
    requires Sorted(times + [now])
    ensures Tracks(o, Run(o, FRESH, times), now)
    ensures Bounded(o, Run(o, FRESH, times).admitted)
  {
    SortedParts(times, now);
    assert Tracks(o, FRESH, 0);
    RunTracks(o, FRESH, 0, times);
  }

  /** So what is live is the window that ends now. */
  lemma LiveIsWindow(o: Options, l: Limiter, now: nat)
    requires Tracks(o, l, now) && Bounded(o, l.admitted)
    ensures |Cleaned(o, l.z, now).scores| == InWindow(o, l.admitted, now) <= o.maxRequests
  {
    assert LiveAt(o, l, now);
    CleanedIsLive(o, l, now);
    CountIsAbove(l.admitted, now - o.windowMs, now);
    assert InWindow(o, l.admitted, now) <= o.maxRequests;
  }

  /** Nobody is turned away early: a check is denied exactly when its own window is full. */
  lemma DeniedIffWindowFull(o: Options, times: seq<nat>, now: nat)
    requires Sorted(times + [now])
    ensures VerdictOf(o, Run(o, FRESH, times).z, now).Denied?
            <==> InWindow(o, Run(o, FRESH, times).admitted, now) == o.maxRequests
  {
    RunInStep(o, times, now);
    LiveIsWindow(o, Run(o, FRESH, times), now);
  }

  /**
   The wait of a denial, for any set: until it is over a lone check is told what is left of
   it, and at its end one is admitted if and only if fewer than `maxRequests` entries are
   newer than the oldest.
   */
  lemma WaitOfDenial(o: Options, z: ZSet, now: nat, later: nat)
    requires Covered(o, z) && VerdictOf(o, z, now).Denied? && now <= later && o.maxRequests > 0
    ensures var wait := VerdictOf(o, z, now).retryAfterMs;
            var s := Cleaned(o, z, now).scores;
            && s != [] && wait == s[0] + o.windowMs - now > 0
            && (later < now + wait ==> VerdictOf(o, Checked(o, z, now), later) == Denied(now + wait - later))
            && (later == now + wait ==>
                  (VerdictOf(o, Checked(o, z, now), later).Allowed? <==> |Above(s, s[0])| < o.maxRequests))
            && (later > now + wait && |Above(s, s[0])| < o.maxRequests ==>
                  VerdictOf(o, Checked(o, z, now), later).Allowed?)
  {
    var z1 := Cleaned(o, z, now);
    var s := z1.scores;
    AboveMembers(Seen(z, now).scores, now - o.windowMs, s[0]);
    CleanedCovered(o, z, now, if z.scores == [] then 0 else z.scores[|z.scores| - 1]);
    ExpiryDropsNothing(o, z1, later);
    CleanedScores(o, z1, later);
    if later < s[0] + o.windowMs {
      AllAbove(s, later - o.windowMs);
    } else {
      AboveAbove(s, s[0], later - o.windowMs);
    }
  }

  lemma CleanedScores(o: Options, z: ZSet, t: nat)
    requires Covered(o, z)
    ensures Cleaned(o, z, t).scores == Above(z.scores, t - o.windowMs)
  {
    ExpiryDropsNothing(o, z, t);
  }

  lemma {:induction false} AllAbove(s: seq<nat>, lo: int)
    requires Sorted(s) && (s == [] || s[0] > lo)
    ensures Above(s, lo) == s
    decreases s
  {
    if |s| > 1 {
      AllAbove(s[1..], lo);
    }
  }

  /**
   In a run of checks that do not overlap the wait is exact: a lone later check is denied
   before it is over, and from then on it is admitted if and only if any request ever is.
   */
  lemma RetryAfterIsExact(o: Options, times: seq<nat>, now: nat, later: nat)
    requires Sorted(times + [now]) && now <= later
    requires VerdictOf(o, Run(o, FRESH, times).z, now).Denied?
    ensures var z := Run(o, FRESH, times).z;
            var verdict := VerdictOf(o, Checked(o, z, now), later);
            verdict.Allowed? <==> o.maxRequests > 0 && later >= now + VerdictOf(o, z, now).retryAfterMs
  {
    RunInStep(o, times, now);
    LiveIsWindow(o, Run(o, FRESH, times), now);
    if o.maxRequests > 0 {
      var z := Run(o, FRESH, times).z;
      WaitOfDenial(o, z, now, later);
      var s := Cleaned(o, z, now).scores;
      AboveAbove(s[1..], s[0], s[0]);
    }
  }

  // ---------- What is left ----------

  lemma {:induction false} EmptyWindow(s: seq<nat>, t: int)
    ensures CountWithin(s, t, t) == 0
    decreases s
  {
    if s != [] { EmptyWindow(s[1..], t); }
  }

  /**
   The remaining count is what the window has room for beside this request, and, unless the
   window has no length, what it has room for once the request is in it. With a limit of 0
   there is no oldest entry to wait for, and the wait is a whole window.
   */
  lemma RemainingIsRoom(o: Options, times: seq<nat>, now: nat)
    requires Sorted(times + [now])
    ensures var l := Run(o, FRESH, times);
            match VerdictOf(o, l.z, now)
            case Allowed(r) =>
              && r + 1 + InWindow(o, l.admitted, now) == o.maxRequests && r >= 0
              && (r + InWindow(o, Step(o, l, now).admitted, now) == o.maxRequests <==> o.windowMs > 0)
            case Denied(wait) => o.maxRequests == 0 ==> wait == o.windowMs
  {
    var l := Run(o, FRESH, times);
    RunInStep(o, times, now);
    LiveIsWindow(o, l, now);
    CountAppend(l.admitted, now, now - o.windowMs, now);
  }

  function Repeat(now: nat, k: nat): seq<nat> { seq(k, _ => now) }

  lemma {:induction false} RunMore(o: Options, l: Limiter, a: seq<nat>, t: nat)
    ensures Run(o, l, a + [t]) == Step(o, Run(o, l, a), t)
    decreases a
  {
    if a == [] {
      assert a + [t] == [t] && [t][1..] == [];
    } else {
      assert (a + [t])[1..] == a[1..] + [t];
      RunMore(o, Step(o, l, a[0]), a[1..], t);
    }
  }

  lemma RepeatIsSorted(times: seq<nat>, now: nat, k: nat)
    requires Sorted(times + [now])
    ensures Sorted(times + Repeat(now, k) + [now])
    ensures times + Repeat(now, k + 1) == times + Repeat(now, k) + [now]
  {
    SortedParts(times, now);
  }

  /** What one check at `now` leaves to the next at the same moment. */
  lemma NextVerdict(o: Options, times: seq<nat>, now: nat)
    requires Sorted(times + [now])
    ensures var verdict := VerdictOf(o, Run(o, FRESH, times).z, now);
            var next := VerdictOf(o, Run(o, FRESH, times + [now]).z, now);
            match verdict
            case Denied(_) => next.Denied?
            case Allowed(r) =>
              if o.windowMs == 0 then next == verdict else if r > 0 then next == Allowed(r - 1) else next.Denied?
  {
    var l := Run(o, FRESH, times);
    RunMore(o, FRESH, times, now);
    RepeatIsSorted(times, now, 1);
    assert Repeat(now, 1) == [now];
    RemainingIsRoom(o, times, now);
    RemainingIsRoom(o, times + [now], now);
    DeniedIffWindowFull(o, times, now);
    DeniedIffWindowFull(o, times + [now], now);
    EmptyWindow(l.admitted, now);
    EmptyWindow(Step(o, l, now).admitted, now);
  }

  /**
   It is how many more checks are admitted at that very moment: after an allowed check, exactly
   the next `r`, unless the window has no length.
   */
  lemma {:induction false} RemainingAreAdmitted(o: Options, times: seq<nat>, now: nat, k: nat)
    requires Sorted(times + [now]) && VerdictOf(o, Run(o, FRESH, times).z, now).Allowed?
    ensures var r := VerdictOf(o, Run(o, FRESH, times).z, now).remaining;
            var more := VerdictOf(o, Run(o, FRESH, times + Repeat(now, k + 1)).z, now);
            if o.windowMs == 0 then more == Allowed(r)
            else if k < r then more == Allowed(r - k - 1)
            else more.Denied?
    decreases k
  {
    RemainingIsRoom(o, times, now);
    RepeatIsSorted(times, now, k);
    NextVerdict(o, times + Repeat(now, k), now);
    if k == 0 {
      assert times + Repeat(now, 0) == times;
    } else {
      RemainingAreAdmitted(o, times, now, k - 1);
    }
  }

  // ---------- The key's expiry ----------

  /** A key that is there expires at the end of the last admitted request's lifetime in whole seconds. */
  predicate ExpiresWithLast(o: Options, l: Limiter) {
    l.z == EMPTY || (l.admitted != [] && l.z.expiresAt == Some(l.admitted[|l.admitted| - 1] + TtlMs(o)))
  }

  lemma {:induction false} RunExpires(o: Options, l: Limiter, times: seq<nat>)
    requires ExpiresWithLast(o, l)
    ensures ExpiresWithLast(o, Run(o, l, times))
    decreases times
  {
    if times != [] {
      RunExpires(o, Step(o, l, times[0]), times[1..]);
    }
  }

  /** A key outlives the window of its last request by less than a second. */
  lemma KeyIsGoneInTime(o: Options, times: seq<nat>, t: nat)
    requires var admitted := Run(o, FRESH, times).admitted;
             admitted == [] || t >= admitted[|admitted| - 1] + o.windowMs + 999
    ensures Seen(Run(o, FRESH, times).z, t) == EMPTY
  {
    RunExpires(o, FRESH, times);
  }
}
