/**
 * The pausable stopwatch of `orchestrator/circuit_breaker.py`, and the one budget that preparation and the
 * adapter share in `orchestrator/run.py`. Time is an integer clock.
 */
module Breaker {
  import opened Common

  datatype Op = Start | Pause | Resume

  /** A call on the breaker and the clock reading it was made at. */
  datatype Call = Call(op: Op, at: int)

  /** The breaker's fields. */
  datatype Watch = Watch(accumulated: int, segment: Option<int>, paused: bool)

  const ZERO := Watch(0, None, false)

  function After(w: Watch, c: Call): Watch {
    match c.op
    case Start => if w.segment.None? && !w.paused then w.(segment := Some(c.at)) else w
    case Pause =>
      if w.paused || w.segment.None? then w.(paused := true)
      else Watch(w.accumulated + (c.at - w.segment.value), None, true)
    case Resume => Watch(w.accumulated, Some(c.at), false)
  }

  function Reading(w: Watch, now: int): int {
    w.accumulated + if w.segment.Some? && !w.paused then now - w.segment.value else 0
  }

  class CircuitBreaker {
    const timeout: int
    var accumulated: int
    var segmentStart: Option<int>
    var paused: bool

    constructor (timeout: int)
      requires timeout > 0
      ensures this.timeout == timeout && State() == ZERO
    {
      this.timeout := timeout;
      accumulated, segmentStart, paused := 0, None, false;
    }

    function State(): Watch
      reads this
    {
      Watch(accumulated, segmentStart, paused)
    }

    method Start(now: int)
      modifies this
      ensures State() == After(old(State()), Call(Op.Start, now))
      ensures segmentStart == if old(segmentStart) == None && !old(paused) then Some(now) else old(segmentStart)
      ensures accumulated == old(accumulated) && paused == old(paused)
    {
      if segmentStart == None && !paused {
        segmentStart := Some(now);
      }
    }

    method Pause(now: int)
      modifies this
      ensures State() == After(old(State()), Call(Op.Pause, now))
      ensures paused
      ensures if old(paused) || old(segmentStart) == None
              then accumulated == old(accumulated) && segmentStart == old(segmentStart)
              else accumulated == old(accumulated) + now - old(segmentStart).value && segmentStart == None
    {
      if paused || segmentStart == None {
        paused := true;
        return;
      }
      accumulated := accumulated + (now - segmentStart.value);
      segmentStart := None;
      paused := true;
    }

    method Resume(now: int)
      modifies this
      ensures State() == After(old(State()), Call(Op.Resume, now))
      ensures accumulated == old(accumulated) && segmentStart == Some(now) && !paused
    {
      paused := false;
      segmentStart := Some(now);
    }

    method ElapsedSeconds(now: int) returns (total: int)
      ensures total == Reading(State(), now)
      ensures total == if segmentStart == None || paused then accumulated else accumulated + now - segmentStart.value
    {
      total := accumulated;
      if segmentStart.Some? && !paused {
        total := total + (now - segmentStart.value);
      }
    }

    method RemainingSeconds(now: int) returns (left: int)
      ensures left >= 0
      ensures left == 0 <==> Reading(State(), now) >= timeout
      ensures left > 0 ==> left + Reading(State(), now) == timeout
    {
      var elapsed := ElapsedSeconds(now);
      left := if timeout - elapsed > 0 then timeout - elapsed else 0;
    }

    /** `check`: whether the breaker has tripped. */
    method Check(now: int) returns (tripped: bool)
      ensures tripped <==> Reading(State(), now) > timeout
    {
      var elapsed := ElapsedSeconds(now);
      tripped := elapsed > timeout;
    }
  }

  // ----- The measure of active time -----

  function Run(cs: seq<Call>): Watch {
    if cs == [] then ZERO else After(Run(cs[..|cs| - 1]), cs[|cs| - 1])
  }

  ghost predicate InOrder(cs: seq<Call>) {
    forall i, j :: 0 <= i < j < |cs| ==> cs[i].at <= cs[j].at
  }

  datatype Mode = Idle | Running | Paused

  /** The mode the calls made by instant `u` ask for. */
  function ModeAt(cs: seq<Call>, u: int): Mode {
    if cs == [] then Idle
    else
      var (m, c) := (ModeAt(cs[..|cs| - 1], u), cs[|cs| - 1]);
      if c.at > u then m
      else match c.op
        case Start => if m.Idle? then Running else m
        case Pause => Paused
        case Resume => Running
  }

  /** Active time: the instants of `[from, till)` spent running. */
  function ActiveTime(cs: seq<Call>, from: int, till: int): nat
    decreases till - from
  {
    if till <= from then 0
    else ActiveTime(cs, from, till - 1) + if ModeAt(cs, till - 1).Running? then 1 else 0
  }

  /** What the breaker forgets: a `resume` while running drops the segment it was in. */
  function Dropped(cs: seq<Call>): int {
    if cs == [] then 0
    else
      var (w, c) := (Run(cs[..|cs| - 1]), cs[|cs| - 1]);
      Dropped(cs[..|cs| - 1]) + if c.op.Resume? && w.segment.Some? then c.at - w.segment.value else 0
  }

  lemma {:induction false} ModeIsStableBetweenCalls(cs: seq<Call>, u: int)
    requires forall c :: c in cs ==> c.at <= u
    ensures ModeAt(cs, u) == if Run(cs).paused then Paused else if Run(cs).segment.Some? then Running else Idle
    ensures Run(cs).paused ==> Run(cs).segment == None
    ensures Run(cs).segment.Some? ==> Run(cs).segment.value <= u
  {
    if cs != [] {
      assert forall c :: c in cs[..|cs| - 1] ==> c in cs;
      assert cs[|cs| - 1] in cs;
      ModeIsStableBetweenCalls(cs[..|cs| - 1], u);
    }
  }

  lemma {:induction false} LaterCallsLeaveThePast(cs: seq<Call>, from: int, till: int)
    requires cs != [] && till <= cs[|cs| - 1].at
    ensures ActiveTime(cs, from, till) == ActiveTime(cs[..|cs| - 1], from, till)
    decreases till - from
  {
    if from < till {
      LaterCallsLeaveThePast(cs, from, till - 1);
    }
  }

  /** From the last call on, time counts exactly while running. */
  lemma {:induction false} ActiveSince(cs: seq<Call>, from: int, mid: int, till: int)
    requires from <= mid <= till && forall c :: c in cs ==> c.at <= mid
    ensures ActiveTime(cs, from, till) == ActiveTime(cs, from, mid) + if Run(cs).segment.Some? then till - mid else 0
    decreases till - from
  {
    if mid < till {
      ActiveSince(cs, from, mid, till - 1);
      ModeIsStableBetweenCalls(cs, till - 1);
    }
  }

  lemma {:induction false} ReadingAfter(w: Watch, c: Call, now: int)
    requires w.paused ==> w.segment == None
    ensures Reading(After(w, c), now)
            == Reading(w, c.at) + (if After(w, c).segment.Some? then now - c.at else 0)
               - (if c.op.Resume? && w.segment.Some? then c.at - w.segment.value else 0)
  {
  }

  ghost predicate Within(cs: seq<Call>, from: int, now: int) {
    from <= now && forall c :: c in cs ==> from <= c.at <= now
  }

  lemma {:induction false} UpToTheLastCall(cs: seq<Call>, from: int, now: int)
    requires cs != [] && InOrder(cs) && Within(cs, from, now)
    ensures var (rest, c) := (cs[..|cs| - 1], cs[|cs| - 1]);
            InOrder(rest) && Within(rest, from, c.at) && Within(cs, from, c.at) && c.at <= now
  {
    assert cs[|cs| - 1] in cs;
    forall d | d in cs
      ensures d.at <= cs[|cs| - 1].at
    {
      var i :| 0 <= i < |cs| && cs[i] == d;
    }
  }

  /** In every trace of calls the breaker reads the active time less what `resume` while running dropped. */
  lemma {:induction false} BreakerMeasuresActiveTime(cs: seq<Call>, from: int, now: int)
    requires InOrder(cs) && Within(cs, from, now)
    ensures Reading(Run(cs), now) == ActiveTime(cs, from, now) - Dropped(cs)
  {
    if cs == [] {
      ActiveSince(cs, from, from, now);
    } else {
      var (rest, c) := (cs[..|cs| - 1], cs[|cs| - 1]);
      UpToTheLastCall(cs, from, now);
      BreakerMeasuresActiveTime(rest, from, c.at);
      LaterCallsLeaveThePast(cs, from, c.at);
      ActiveSince(cs, from, c.at, now);
      ModeIsStableBetweenCalls(rest, c.at);
      ReadingAfter(Run(rest), c, now);
    }
  }

  /** `resume` is called only while paused (or at the very instant its segment began). */
  ghost predicate NothingDropped(cs: seq<Call>) {
    forall i :: 0 <= i < |cs| && cs[i].op.Resume? ==>
      Run(cs[..i]).segment.None? || Run(cs[..i]).segment.value == cs[i].at
  }

  lemma {:induction false} DroppedIff(cs: seq<Call>)
    requires InOrder(cs)
    ensures Dropped(cs) >= 0
    ensures Dropped(cs) == 0 <==> NothingDropped(cs)
  {
    if cs != [] {
      var (rest, c) := (cs[..|cs| - 1], cs[|cs| - 1]);
      DroppedIff(rest);
      assert forall i :: 0 <= i < |rest| ==> rest[..i] == cs[..i];
      forall d | d in rest
        ensures d.at <= c.at
      {
      }
      ModeIsStableBetweenCalls(rest, c.at);
    }
  }

  /** The breaker reads the active time exactly when no `resume` interrupted a running segment. */
  lemma {:induction false} ElapsedIsActiveTimeIff(cs: seq<Call>, from: int, now: int)
    requires InOrder(cs) && Within(cs, from, now)
    ensures Reading(Run(cs), now) == ActiveTime(cs, from, now) <==> NothingDropped(cs)
    ensures Reading(Run(cs), now) <= ActiveTime(cs, from, now)
  {
    BreakerMeasuresActiveTime(cs, from, now);
    DroppedIff(cs);
  }

  lemma {:induction false} ActiveTimeGrows(cs: seq<Call>, from: int, mid: int, till: int)
    requires mid <= till
    ensures ActiveTime(cs, from, mid) <= ActiveTime(cs, from, till)
    decreases till - from
  {
    if from < till && mid < till {
      ActiveTimeGrows(cs, from, mid, till - 1);
    }
  }

  lemma {:induction false} TheFutureLeavesThePast(cs: seq<Call>, n: nat, from: int, t: int)
    requires n <= |cs| && forall i :: n <= i < |cs| ==> t <= cs[i].at
    ensures ActiveTime(cs, from, t) == ActiveTime(cs[..n], from, t)
    decreases |cs|
  {
    if n < |cs| {
      LaterCallsLeaveThePast(cs, from, t);
      TheFutureLeavesThePast(cs[..|cs| - 1], n, from, t);
      assert cs[..|cs| - 1][..n] == cs[..n];
    } else {
      assert cs[..n] == cs;
    }
  }

  /** So over such a trace the reading never goes back, whatever further calls and time come between two readings. */
  lemma {:induction false} ElapsedNeverDecreases(cs: seq<Call>, n: nat, from: int, t: int, now: int)
    requires InOrder(cs) && NothingDropped(cs) && Within(cs, from, now)
    requires n <= |cs| && t <= now && Within(cs[..n], from, t) && forall i :: n <= i < |cs| ==> t <= cs[i].at
    ensures Reading(Run(cs[..n]), t) <= Reading(Run(cs), now)
  {
    assert forall i :: 0 <= i < n ==> cs[..n][..i] == cs[..i];
    assert NothingDropped(cs[..n]);
    ElapsedIsActiveTimeIff(cs[..n], from, t);
    ElapsedIsActiveTimeIff(cs, from, now);
    TheFutureLeavesThePast(cs, n, from, t);
    ActiveTimeGrows(cs, from, t, now);
  }

  // ----- One budget for preparation and adapter -----

  /** A subprocess asked to finish in `limit`: it ends after `took`, or is killed at the limit. */
  datatype Work = Finishes(took: nat) | Hangs

  function Duration(w: Work, limit: nat): nat {
    if w.Finishes? && w.took <= limit then w.took else limit
  }

  predicate Expires(w: Work, limit: nat) {
    !(w.Finishes? && w.took <= limit)
  }

  /** Time until the first expiry, or until all the work is done. */
  function TimeUsed(work: seq<Work>, limit: nat): nat {
    if work == [] then 0
    else Duration(work[0], limit) + if Expires(work[0], limit) then 0 else TimeUsed(work[1..], limit)
  }

  function TotalTook(work: seq<Work>): nat {
    if work == [] then 0
    else TotalTook(work[..|work| - 1]) + if work[|work| - 1].Finishes? then work[|work| - 1].took else 0
  }

  /** The time used is what the work took up to the first piece that outlasts the limit, and that limit. */
  lemma {:induction false} TimeUsedIs(work: seq<Work>, limit: nat, n: nat)
    requires n <= |work|
    requires forall i :: 0 <= i < n ==> work[i].Finishes? && work[i].took <= limit
    ensures n == |work| ==> TimeUsed(work, limit) == TotalTook(work)
    ensures n < |work| && (work[n].Hangs? || work[n].took > limit) ==>
              TimeUsed(work, limit) == TotalTook(work[..n]) + limit
  {
    assert work[..|work|] == work && work[|work|..] == [];
    for i := n downto 0
      invariant n == |work| ==> TotalTook(work[..i]) + TimeUsed(work[i..], limit) == TotalTook(work)
      invariant n < |work| && (work[n].Hangs? || work[n].took > limit) ==>
                  TotalTook(work[..i]) + TimeUsed(work[i..], limit) == TotalTook(work[..n]) + limit
    {
      assert work[i..][1..] == work[i + 1..] && work[..i + 1][..i] == work[..i];
    }
    assert work[0..] == work;
  }

  predicate AnyExpires(work: seq<Work>, limit: nat) {
    exists i :: 0 <= i < |work| && Expires(work[i], limit)
  }

  lemma {:induction false} TimeUsedIsBounded(work: seq<Work>, limit: nat)
    ensures TimeUsed(work, limit) <= |work| * limit
  {
    if work != [] {
      TimeUsedIsBounded(work[1..], limit);
      assert |work| * limit == |work[1..]| * limit + limit;
    }
  }

  lemma {:induction false} AtMostFour(n: nat, limit: nat)
    requires n <= 4
    ensures n * limit <= 4 * limit
  {
  }

  /** `_prepare_worktree_snapshot_and_manifest`: up to four git calls, each handed the same undivided `limit`. */
  method Prepare(gits: seq<Work>, limit: nat, start: int) returns (expired: bool, end: int)
    requires |gits| <= 4
    ensures end == start + TimeUsed(gits, limit)
    ensures start <= end <= start + 4 * limit
    ensures expired <==> AnyExpires(gits, limit)
    ensures !expired <==> forall i :: 0 <= i < |gits| ==> gits[i].Finishes? && gits[i].took <= limit
  {
    TimeUsedIsBounded(gits, limit);
    AtMostFour(|gits|, limit);
    end := start;
    for i := 0 to |gits|
      invariant end + TimeUsed(gits[i..], limit) == start + TimeUsed(gits, limit)
      invariant forall k :: 0 <= k < i ==> !Expires(gits[k], limit)
    {
      assert gits[i..][1..] == gits[i + 1..];
      end := end + Duration(gits[i], limit);
      if Expires(gits[i], limit) {
        return true, end;
      }
    }
    expired := false;
  }

  datatype Conclusion = Completed | Tripped

  /**
   * The two `run_under_circuit_breaker` calls of one run. `manifest` is the untimed work after the git calls and
   * `spawn` the delay between the second call's check and the adapter process starting.
   */
  method PrepareThenAdapt(breaker: CircuitBreaker, start: int, gits: seq<Work>, manifest: nat, spawn: nat,
                          adapter: Work)
    returns (conclusion: Conclusion, adapterRan: bool, adapterStart: int, end: int)
    requires breaker.State() == ZERO && breaker.timeout > 0 && |gits| <= 4
    modifies breaker
    ensures adapterRan ==> adapterStart - spawn - start <= breaker.timeout
    ensures adapterRan ==> adapterStart <= end <= start + breaker.timeout + spawn
    ensures !adapterRan ==> conclusion.Tripped? && start <= end <= start + 4 * breaker.timeout + manifest
    ensures var prepared := TimeUsed(gits, breaker.timeout) + manifest;
            && (adapterRan <==> !AnyExpires(gits, breaker.timeout) && prepared <= breaker.timeout)
            && (adapterRan ==> adapterStart == start + prepared + spawn)
            && (conclusion.Completed? <==> adapterRan && !Expires(adapter, breaker.timeout - prepared))
            && (conclusion.Completed? ==> end == adapterStart + adapter.took)
    ensures conclusion.Tripped? && adapterRan ==> end >= start + breaker.timeout
  {
    breaker.Start(start);
    var tripped := breaker.Check(start);
    var limit := breaker.RemainingSeconds(start);
    var expired;
    expired, end := Prepare(gits, limit, start);
    adapterRan, adapterStart := false, end;
    if expired {
      return Tripped, false, end, end;
    }
    end := end + manifest;
    breaker.Start(end);
    tripped := breaker.Check(end);
    if tripped {
      return Tripped, false, end, end;
    }
    adapterStart := end + spawn;
    limit := breaker.RemainingSeconds(end);
    end := adapterStart + Duration(adapter, limit);
    adapterRan := true;
    conclusion := if Expires(adapter, limit) then Tripped else Completed;
  }
}
