/** The per-(task type, candidate) failure memory: `delegate/cooldown.py`. Time is an integer clock. */
module Cooldown {
  import opened Common

  datatype Key = Key(taskType: string, name: string)

  /** One bucket: qualifying failures since the last reset, and the instant its cooldown ends. */
  datatype Health = Health(failures: nat, expiry: Option<int>)

  type HealthMap = map<Key, Health>

  datatype Limits = Limits(threshold: int, cooldown: int) {
    predicate Valid() {
      threshold > 0 && cooldown > 0
    }
  }

  const FRESH := Health(0, None)

  /** A bucket the store has never seen is implicitly healthy. */
  function At(m: HealthMap, k: Key): Health {
    if k in m then m[k] else FRESH
  }

  function ExpiryOf(m: HealthMap, k: Key): Option<int> {
    if k in m then m[k].expiry else None
  }

  predicate Cooling(h: Health, now: int) {
    h.expiry.Some? && now < h.expiry.value
  }

  predicate Expired(h: Health, now: int) {
    h.expiry.Some? && now >= h.expiry.value
  }

  function Failed(lim: Limits, h: Health, now: int): Health {
    Health(h.failures + 1, if h.failures + 1 >= lim.threshold then Some(now + lim.cooldown) else h.expiry)
  }

  /** The store: `_health` is reassigned in place, the clock reading is an argument. */
  class CandidateCooldownStore {
    const limits: Limits
    var health: HealthMap

    constructor (threshold: int, cooldown: int)
      requires threshold > 0 && cooldown > 0
      ensures limits == Limits(threshold, cooldown) && health == map[]
    {
      limits := Limits(threshold, cooldown);
      health := map[];
    }

    method RecordFailure(taskType: string, name: string, now: int)
      modifies this
      ensures health == Apply(limits, old(health), Failure(Key(taskType, name), now))
      ensures var key := Key(taskType, name);
              var before := if key in old(health) then old(health)[key] else Health(0, None);
              var failures := before.failures + 1;
              var expiry := if failures >= limits.threshold then Some(now + limits.cooldown) else before.expiry;
              health == old(health)[key := Health(failures, expiry)]
    {
      var key := Key(taskType, name);
      if key !in health {
        health := health[key := Health(0, None)];
      }
      var failures := health[key].failures + 1;
      var expiry := health[key].expiry;
      if failures >= limits.threshold {
        expiry := Some(now + limits.cooldown);
      }
      health := health[key := Health(failures, expiry)];
    }

    method RecordSuccess(taskType: string, name: string, now: int)
      modifies this
      ensures health == Apply(limits, old(health), Success(Key(taskType, name), now))
      ensures health == old(health)[Key(taskType, name) := Health(0, None)]
    {
      health := health[Key(taskType, name) := Health(0, None)];
    }

    method IsInCooldown(taskType: string, name: string, now: int) returns (cooling: bool)
      modifies this
      ensures cooling == Cooling(At(old(health), Key(taskType, name)), now)
      ensures health == Apply(limits, old(health), Check(Key(taskType, name), now))
      ensures cooling <==> ExpiryOf(old(health), Key(taskType, name)).Some?
                           && now < ExpiryOf(old(health), Key(taskType, name)).value
      ensures health == if !cooling && ExpiryOf(old(health), Key(taskType, name)).Some?
                        then old(health) - {Key(taskType, name)} else old(health)
      ensures !cooling ==> At(health, Key(taskType, name)).expiry == None
    {
      var key := Key(taskType, name);
      if key !in health || health[key].expiry == None {
        return false;
      }
      if now < health[key].expiry.value {
        return true;
      }
      health := health - {key};
      return false;
    }
  }

  /** What one attempt can do to the store, with the clock reading it was done at. */
  datatype Event = Check(key: Key, at: int) | Failure(key: Key, at: int) | Success(key: Key, at: int)

  function Apply(lim: Limits, m: HealthMap, e: Event): HealthMap {
    match e
    case Check(k, now) => if Expired(At(m, k), now) then m - {k} else m
    case Failure(k, now) => m[k := Failed(lim, At(m, k), now)]
    case Success(k, _) => m[k := FRESH]
  }

  /** The store a new process has after a trace of events. */
  function StoreAfter(lim: Limits, tr: seq<Event>): HealthMap {
    if tr == [] then map[] else Apply(lim, StoreAfter(lim, tr[..|tr| - 1]), tr[|tr| - 1])
  }

  function Bucket(lim: Limits, tr: seq<Event>, k: Key): Health {
    At(StoreAfter(lim, tr), k)
  }

  ghost predicate Monotone(tr: seq<Event>) {
    forall i, j :: 0 <= i < j < |tr| ==> tr[i].at <= tr[j].at
  }

  /** The last event of bucket `k` is a check that answered "not in cooldown". */
  predicate ClearCheckLast(lim: Limits, tr: seq<Event>, k: Key) {
    tr != [] &&
    var (rest, e) := (tr[..|tr| - 1], tr[|tr| - 1]);
    if e.key != k then ClearCheckLast(lim, rest, k)
    else e.Check? && (Bucket(lim, rest, k).expiry.None? || Bucket(lim, rest, k).expiry.value <= e.at)
  }

  /** Every failure was recorded by an attempt that had checked the bucket first. */
  predicate Disciplined(lim: Limits, tr: seq<Event>) {
    tr == [] ||
    (var (rest, e) := (tr[..|tr| - 1], tr[|tr| - 1]);
     Disciplined(lim, rest) && (e.Failure? ==> ClearCheckLast(lim, rest, e.key)))
  }

  // ----- Buckets are independent -----

  function Project(tr: seq<Event>, k: Key): seq<Event> {
    if tr == [] then []
    else
      var (rest, e) := (tr[..|tr| - 1], tr[|tr| - 1]);
      Project(rest, k) + if e.key == k then [e] else []
  }

  /** A bucket's state, hence every answer about it, depends on its own sub-trace alone. */
  lemma {:induction false} BucketsAreIndependent(lim: Limits, tr: seq<Event>, k: Key)
    ensures Bucket(lim, tr, k) == Bucket(lim, Project(tr, k), k)
  {
    if tr != [] {
      var (rest, e) := (tr[..|tr| - 1], tr[|tr| - 1]);
      BucketsAreIndependent(lim, rest, k);
      if e.key == k {
        assert Project(tr, k)[..|Project(tr, k)| - 1] == Project(rest, k);
      } else {
        assert Project(tr, k) == Project(rest, k);
      }
    }
  }

  // ----- Lazy reset agrees with eager expiry -----

  /** The eager specification: reads change nothing, and a cooldown that has run out by `t` is gone at `t`. */
  function EagerAt(lim: Limits, tr: seq<Event>, k: Key, t: int): Health {
    var h := EagerAfter(lim, tr, k);
    if Expired(h, t) then FRESH else h
  }

  function EagerAfter(lim: Limits, tr: seq<Event>, k: Key): Health
    decreases tr, 0
  {
    if tr == [] then FRESH
    else
      var (rest, e) := (tr[..|tr| - 1], tr[|tr| - 1]);
      if e.key != k || e.Check? then EagerAfter(lim, rest, k)
      else if e.Success? then FRESH
      else
        var h := EagerAfter(lim, rest, k);
        Failed(lim, if Expired(h, e.at) then FRESH else h, e.at)
  }

  lemma {:induction false} ClearCheckLeavesNoExpiry(lim: Limits, tr: seq<Event>, k: Key)
    requires ClearCheckLast(lim, tr, k)
    ensures Bucket(lim, tr, k).expiry == None
  {
    var (rest, e) := (tr[..|tr| - 1], tr[|tr| - 1]);
    if e.key != k {
      ClearCheckLeavesNoExpiry(lim, rest, k);
    }
  }

  lemma {:induction false} LazyRefinesEager(lim: Limits, tr: seq<Event>, k: Key, t: int)
    requires Disciplined(lim, tr) && Monotone(tr)
    requires tr != [] ==> tr[|tr| - 1].at <= t
    ensures Cooling(Bucket(lim, tr, k), t) == EagerAt(lim, tr, k, t).expiry.Some?
    ensures EagerAt(lim, tr, k, t) == if Expired(Bucket(lim, tr, k), t) then FRESH else Bucket(lim, tr, k)
  {
    if tr != [] {
      var (rest, e) := (tr[..|tr| - 1], tr[|tr| - 1]);
      LazyRefinesEager(lim, rest, k, t);
      LazyRefinesEager(lim, rest, k, e.at);
      if e.Failure? && e.key == k {
        ClearCheckLeavesNoExpiry(lim, rest, k);
      }
    }
  }

  /** Without the check, agreement is lost exactly on a stale expiry under a threshold above one. */
  lemma {:induction false} UncheckedFailureAgreesIff(lim: Limits, h: Health, now: int)
    requires lim.Valid()
    requires h.expiry.Some? ==> h.failures >= lim.threshold
    ensures Cooling(Failed(lim, h, now), now) == Cooling(Failed(lim, if Expired(h, now) then FRESH else h, now), now)
            <==> !(Expired(h, now) && lim.threshold > 1)
  {
    if Expired(h, now) {
      assert Failed(lim, FRESH, now).expiry.Some? <==> lim.threshold == 1;
    }
  }

  // ----- When a cooldown begins and ends -----

  /** Times of the failures of `k` since it was last reset, by a success or by the end of a cooldown. */
  function SinceReset(lim: Limits, tr: seq<Event>, k: Key): seq<int> {
    if tr == [] then []
    else
      var (rest, e) := (tr[..|tr| - 1], tr[|tr| - 1]);
      var times := SinceReset(lim, rest, k);
      if e.key != k || e.Check? then times
      else if e.Success? then []
      else if |times| > 0 && |times| >= lim.threshold && e.at >= times[|times| - 1] + lim.cooldown then [e.at]
      else times + [e.at]
  }

  /** What the store keeps of a bucket, once a cooldown that has run out by `t` is set aside. */
  ghost predicate Keeps(lim: Limits, h: Health, times: seq<int>, t: int) {
    var n := |times|;
    if n >= lim.threshold && n > 0 then
      && (t < times[n - 1] + lim.cooldown ==> h == Health(n, Some(times[n - 1] + lim.cooldown)))
      && (times[n - 1] + lim.cooldown <= t ==> h == FRESH || (h.expiry.Some? && h.expiry.value <= t))
    else h == Health(n, None)
  }

  lemma {:induction false} BucketKeepsTheFailures(lim: Limits, tr: seq<Event>, k: Key, t: int)
    requires lim.Valid() && Disciplined(lim, tr) && Monotone(tr)
    requires tr != [] ==> tr[|tr| - 1].at <= t
    ensures Keeps(lim, Bucket(lim, tr, k), SinceReset(lim, tr, k), t)
  {
    if tr != [] {
      var (rest, e) := (tr[..|tr| - 1], tr[|tr| - 1]);
      BucketKeepsTheFailures(lim, rest, k, e.at);
      BucketKeepsTheFailures(lim, rest, k, t);
      if e.Failure? && e.key == k {
        ClearCheckLeavesNoExpiry(lim, rest, k);
      }
    }
  }

  /**
   * On every trace that obeys check-then-fail, a check finds the bucket cooling exactly when its failures since the
   * last reset have reached the threshold and the last of them is less than a cooldown ago.
   */
  lemma {:induction false} CoolsExactly(lim: Limits, tr: seq<Event>, k: Key, now: int)
    requires lim.Valid() && Disciplined(lim, tr) && Monotone(tr)
    requires tr != [] ==> tr[|tr| - 1].at <= now
    ensures var (expiry, times) := (ExpiryOf(StoreAfter(lim, tr), k), SinceReset(lim, tr, k));
            expiry.Some? && now < expiry.value
            <==> |times| >= lim.threshold && now < times[|times| - 1] + lim.cooldown
  {
    BucketKeepsTheFailures(lim, tr, k, now);
  }

  lemma {:induction false} SinceResetAreFailures(lim: Limits, tr: seq<Event>, k: Key)
    ensures forall t :: t in SinceReset(lim, tr, k) ==> Failure(k, t) in tr
  {
    if tr != [] {
      var (rest, e) := (tr[..|tr| - 1], tr[|tr| - 1]);
      SinceResetAreFailures(lim, rest, k);
      assert tr == rest + [e];
    }
  }

  // ----- The sliding-window bound -----

  /** Times of the failures of `k` since its last success. */
  function Streak(tr: seq<Event>, k: Key): seq<int> {
    if tr == [] then []
    else
      var (rest, e) := (tr[..|tr| - 1], tr[|tr| - 1]);
      if e.key != k || e.Check? then Streak(rest, k)
      else if e.Success? then []
      else Streak(rest, k) + [e.at]
  }

  /** `threshold` failures later is at least `cooldown` later. */
  ghost predicate Spaced(lim: Limits, times: seq<int>) {
    forall i, j :: 0 <= i < j < |times| && j - i >= lim.threshold ==> times[j] - times[i] >= lim.cooldown
  }

  ghost predicate Ascending(times: seq<int>) {
    forall i, j :: 0 <= i < j < |times| ==> times[i] <= times[j]
  }

  /** How a bucket relates to the streak it has counted, by clock reading `now`. */
  ghost predicate Tracks(lim: Limits, h: Health, streak: seq<int>, now: int) {
    var n := |streak|;
    && (forall i :: 0 <= i < n ==> streak[i] <= now)
    && h.failures <= n
    && (h.expiry.None? ==> h.failures < lim.threshold &&
                           (h.failures < n ==> streak[n - h.failures - 1] + lim.cooldown <= now))
    && (h.expiry.Some? ==> h.failures == lim.threshold > 0 && h.expiry.value == streak[n - 1] + lim.cooldown)
  }

  lemma {:induction false} TracksLater(lim: Limits, h: Health, streak: seq<int>, now: int, later: int)
    requires Tracks(lim, h, streak, now) && now <= later
    ensures Tracks(lim, h, streak, later)
  {
  }

  lemma {:induction false} FailureExtendsTheStreak(lim: Limits, h: Health, streak: seq<int>, now: int)
    requires lim.Valid() && h.expiry == None && Tracks(lim, h, streak, now)
    requires Ascending(streak) && Spaced(lim, streak)
    ensures Tracks(lim, Failed(lim, h, now), streak + [now], now)
    ensures Ascending(streak + [now]) && Spaced(lim, streak + [now])
  {
    var n := |streak|;
    forall i | 0 <= i && n - i >= lim.threshold
      ensures now - streak[i] >= lim.cooldown
    {
      assert i <= n - h.failures - 1;
    }
  }

  /** Under check-then-fail a bucket never counts past the threshold, and cools exactly when it gets there. */
  lemma {:induction false} StreaksAreSpaced(lim: Limits, tr: seq<Event>, k: Key, now: int)
    requires lim.Valid() && Disciplined(lim, tr) && Monotone(tr)
    requires tr != [] ==> tr[|tr| - 1].at <= now
    ensures Tracks(lim, Bucket(lim, tr, k), Streak(tr, k), now)
    ensures Ascending(Streak(tr, k)) && Spaced(lim, Streak(tr, k))
  {
    if tr != [] {
      var (rest, e) := (tr[..|tr| - 1], tr[|tr| - 1]);
      var (h, streak) := (Bucket(lim, rest, k), Streak(rest, k));
      assert Monotone(rest);
      StreaksAreSpaced(lim, rest, k, e.at);
      if e.key == k && e.Failure? {
        ClearCheckLeavesNoExpiry(lim, rest, k);
        FailureExtendsTheStreak(lim, h, streak, e.at);
        assert Bucket(lim, tr, k) == Failed(lim, h, e.at) && Streak(tr, k) == streak + [e.at];
      } else if e.key == k && e.Success? {
        assert Bucket(lim, tr, k) == FRESH && Streak(tr, k) == [];
      } else if e.key == k && Expired(h, e.at) {
        assert Bucket(lim, tr, k) == FRESH && Streak(tr, k) == streak;
      } else {
        assert Bucket(lim, tr, k) == h && Streak(tr, k) == streak;
      }
      TracksLater(lim, Bucket(lim, tr, k), Streak(tr, k), e.at, now);
    }
  }

  /** Times of the failures of `k` in a stretch of a trace. */
  function FailureTimes(tr: seq<Event>, k: Key): seq<int> {
    if tr == [] then []
    else
      var (rest, e) := (tr[..|tr| - 1], tr[|tr| - 1]);
      FailureTimes(rest, k) + if e.Failure? && e.key == k then [e.at] else []
  }

  ghost predicate SuccessFree(tr: seq<Event>, k: Key) {
    forall e :: e in tr ==> !(e.Success? && e.key == k)
  }

  lemma {:induction false} StretchEndsTheStreak(tr: seq<Event>, lo: nat, k: Key)
    requires lo <= |tr| && SuccessFree(tr[lo..], k)
    ensures EndsWith(Streak(tr, k), FailureTimes(tr[lo..], k))
    decreases |tr|
  {
    if lo < |tr| {
      var (rest, e) := (tr[..|tr| - 1], tr[|tr| - 1]);
      var stretch := tr[lo..];
      assert stretch[..|stretch| - 1] == rest[lo..];
      assert stretch[|stretch| - 1] == e && e in stretch;
      assert forall f :: f in rest[lo..] ==> f in stretch;
      StretchEndsTheStreak(rest, lo, k);
      assert FailureTimes(stretch, k) == FailureTimes(rest[lo..], k) + if e.Failure? && e.key == k then [e.at] else [];
    }
  }

  predicate EndsWith(whole: seq<int>, end: seq<int>) {
    |end| <= |whole| && whole[|whole| - |end|..] == end
  }

  lemma {:induction false} PrefixesKeepDiscipline(lim: Limits, tr: seq<Event>, n: nat)
    requires n <= |tr| && Disciplined(lim, tr)
    ensures Disciplined(lim, tr[..n])
  {
    if n < |tr| {
      PrefixesKeepDiscipline(lim, tr[..|tr| - 1], n);
      assert tr[..|tr| - 1][..n] == tr[..n];
    } else {
      assert tr[..n] == tr;
    }
  }

  /**
   * Sliding window: in a success-free stretch, any `threshold + 1` successive failures of one
   * bucket span at least a cooldown.
   */
  lemma {:induction false} SlidingWindow(lim: Limits, tr: seq<Event>, lo: nat, hi: nat, k: Key)
    requires lim.Valid() && Disciplined(lim, tr) && Monotone(tr)
    requires lo <= hi <= |tr| && SuccessFree(tr[lo..hi], k)
    ensures var times := FailureTimes(tr[lo..hi], k); Ascending(times) && Spaced(lim, times)
  {
    var p := tr[..hi];
    assert p[lo..] == tr[lo..hi];
    PrefixesKeepDiscipline(lim, tr, hi);
    StretchEndsTheStreak(p, lo, k);
    StreaksAreSpaced(lim, p, k, if hi == 0 then 0 else tr[hi - 1].at);
  }

  lemma {:induction false} BlocksSpanCooldowns(lim: Limits, times: seq<int>, blocks: nat)
    requires lim.Valid() && Ascending(times) && Spaced(lim, times)
    ensures 0 <= lim.threshold * blocks < |times| ==> times[lim.threshold * blocks] - times[0] >= lim.cooldown * blocks
    ensures lim.threshold * blocks >= 0
    decreases blocks
  {
    if blocks > 0 {
      assert lim.threshold * blocks == lim.threshold * (blocks - 1) + lim.threshold;
      assert lim.cooldown * blocks == lim.cooldown * (blocks - 1) + lim.cooldown;
      BlocksSpanCooldowns(lim, times, blocks - 1);
    }
  }

  /** Rate limit: a success-free stretch of length `span` holds at most threshold * (span / cooldown + 1) failures. */
  lemma {:induction false} RateLimit(lim: Limits, tr: seq<Event>, lo: nat, hi: nat, k: Key, span: nat)
    requires lim.Valid() && Disciplined(lim, tr) && Monotone(tr)
    requires lo <= hi <= |tr| && SuccessFree(tr[lo..hi], k)
    requires forall e, f :: e in tr[lo..hi] && f in tr[lo..hi] ==> f.at - e.at <= span
    ensures |FailureTimes(tr[lo..hi], k)| <= lim.threshold * (span / lim.cooldown + 1)
  {
    var times := FailureTimes(tr[lo..hi], k);
    SlidingWindow(lim, tr, lo, hi, k);
    forall i, j | 0 <= i < |times| && 0 <= j < |times|
      ensures times[j] - times[i] <= span
    {
      FailureTimesAreEventTimes(tr[lo..hi], k, i);
      FailureTimesAreEventTimes(tr[lo..hi], k, j);
    }
    SpacedTimesAreFew(lim, times, span);
  }

  lemma {:induction false} SpacedTimesAreFew(lim: Limits, times: seq<int>, span: nat)
    requires lim.Valid() && Ascending(times) && Spaced(lim, times)
    requires forall i, j :: 0 <= i < |times| && 0 <= j < |times| ==> times[j] - times[i] <= span
    ensures |times| <= lim.threshold * (span / lim.cooldown + 1)
  {
    var blocks := span / lim.cooldown + 1;
    PastTheSpan(span, lim.cooldown);
    BlocksSpanCooldowns(lim, times, blocks);
  }

  lemma {:induction false} PastTheSpan(span: nat, cooldown: int)
    requires cooldown > 0
    ensures cooldown * (span / cooldown + 1) > span
  {
    assert span == cooldown * (span / cooldown) + span % cooldown;
    assert cooldown * (span / cooldown + 1) == cooldown * (span / cooldown) + cooldown;
  }

  lemma {:induction false} FailureTimesAreEventTimes(tr: seq<Event>, k: Key, i: nat)
    requires i < |FailureTimes(tr, k)|
    ensures Failure(k, FailureTimes(tr, k)[i]) in tr
  {
    var rest := tr[..|tr| - 1];
    if i < |FailureTimes(rest, k)| {
      FailureTimesAreEventTimes(rest, k, i);
    } else {
      assert tr[|tr| - 1] in tr;
    }
  }
}
