/**
 * The save debounce of `proactive/watchers.py`: an online timer machine against an offline reading of the save
 * times.
 */
module Debounce {
  import opened Common

  type TimerId = nat

  /** A scheduled timer that comes due at `due`. */
  datatype Timer = Timer(id: TimerId, due: int)

  /** The scheduler the watcher is given: one-shot timers, `live` while they can still be cancelled. */
  class Scheduler {
    var live: seq<Timer>
    var nextId: TimerId

    constructor ()
      ensures live == [] && nextId == 0
    {
      live, nextId := [], 0;
    }

    method Schedule(due: int) returns (id: TimerId)
      modifies this
      ensures id == old(nextId) && nextId == old(nextId) + 1
      ensures live == old(live) + [Timer(id, due)]
    {
      id := nextId;
      nextId := nextId + 1;
      live := live + [Timer(id, due)];
    }

    method Cancel(id: TimerId)
      modifies this`live
      ensures live == Cancelled(old(live), id)
    {
      live := Cancelled(live, id);
    }
  }

  function Cancelled(live: seq<Timer>, id: TimerId): seq<Timer> {
    if live == [] then []
    else (if live[0].id == id then [] else [live[0]]) + Cancelled(live[1..], id)
  }

  lemma {:induction false} CancelledRemoves(live: seq<Timer>, id: TimerId)
    ensures forall t :: t in Cancelled(live, id) <==> t in live && t.id != id
  {
    if live != [] {
      CancelledRemoves(live[1..], id);
    }
  }

  class DebouncedSaveWatcher {
    const debounce: nat
    const scheduler: Scheduler
    var cancelPending: Option<TimerId>
    var fired: seq<int>   // the calls to `on_fire`, by clock reading

    constructor (debounce: nat, scheduler: Scheduler)
      ensures this.debounce == debounce && this.scheduler == scheduler
      ensures cancelPending == None && fired == []
    {
      this.debounce, this.scheduler := debounce, scheduler;
      cancelPending, fired := None, [];
    }

    ghost function State(): Machine
      reads this, scheduler
    {
      Machine(cancelPending, scheduler.live, scheduler.nextId, fired)
    }

    method OnSave(now: int)
      modifies this, scheduler
      ensures State() == Saved(old(State()), now, debounce)
      ensures var n := |scheduler.live| - 1;
              && n >= 0 && scheduler.live[n] == Timer(old(scheduler.nextId), now + debounce)
              && forall t :: t in scheduler.live[..n]
                             <==> t in old(scheduler.live) && Some(t.id) != old(cancelPending)
      ensures cancelPending == Some(old(scheduler.nextId)) && fired == old(fired)
    {
      if cancelPending.Some? {
        CancelledRemoves(scheduler.live, cancelPending.value);
        scheduler.Cancel(cancelPending.value);
      }
      var id := scheduler.Schedule(now + debounce);
      cancelPending := Some(id);
      assert scheduler.live[..|scheduler.live| - 1] + [Timer(id, now + debounce)] == scheduler.live;
    }

    /** `_fire`, run by an expired timer. */
    method Fire(now: int)
      modifies this
      ensures State() == CalledBack(old(State()), now)
      ensures cancelPending == None && fired == old(fired) + [now]
    {
      cancelPending := None;
      fired := fired + [now];
    }
  }

  datatype Machine = Machine(pending: Option<TimerId>, live: seq<Timer>, nextId: TimerId, fired: seq<int>)

  const INITIAL := Machine(None, [], 0, [])

  function Saved(m: Machine, now: int, d: nat): Machine {
    var live := if m.pending.Some? then Cancelled(m.live, m.pending.value) else m.live;
    Machine(Some(m.nextId), live + [Timer(m.nextId, now + d)], m.nextId + 1, m.fired)
  }

  function CalledBack(m: Machine, now: int): Machine {
    m.(pending := None, fired := m.fired + [now])
  }

  /** A live timer reaches its due time; it leaves the scheduler and can no longer be cancelled. */
  function Expired(m: Machine, i: nat): Machine
    requires i < |m.live|
  {
    m.(live := m.live[..i] + m.live[i + 1..])
  }

  // ----- Callbacks that run as soon as they are due -----

  /** All timers due by `now` (or before it, when a save at `now` itself wins the tie) expire and call back. */
  function RunDue(m: Machine, now: int, inclusive: bool): Machine
    decreases |m.live|
  {
    if m.live == [] || m.live[0].due > now || (m.live[0].due == now && !inclusive) then m
    else RunDue(CalledBack(Expired(m, 0), m.live[0].due), now, inclusive)
  }

  /** A save time, and whether a timer due at that very instant runs before it. */
  datatype Save = Save(at: int, timerFirst: bool)

  /** The online machine: before each save, what is due runs. */
  function Online(saves: seq<Save>, d: nat): Machine {
    if saves == [] then INITIAL
    else
      var s := saves[|saves| - 1];
      Saved(RunDue(Online(saves[..|saves| - 1], d), s.at, s.timerFirst), s.at, d)
  }

  ghost predicate InOrder(saves: seq<Save>) {
    forall i, j :: 0 <= i < j < |saves| ==> saves[i].at <= saves[j].at
  }

  /** The offline reading: save `i` leads to a call when the next save does not come inside its window. */
  predicate Quiet(saves: seq<Save>, i: nat, d: nat)
    requires i < |saves|
  {
    || i + 1 == |saves|
    || saves[i].at + d < saves[i + 1].at
    || (saves[i].at + d == saves[i + 1].at && saves[i + 1].timerFirst)
  }

  /** Calls due to the first `n` saves. */
  function Offline(saves: seq<Save>, n: nat, d: nat): seq<int>
    requires n <= |saves|
  {
    if n == 0 then []
    else Offline(saves, n - 1, d) + if Quiet(saves, n - 1, d) then [saves[n - 1].at + d] else []
  }

  /** Whether a save is quiet is settled by the save after it. */
  lemma {:induction false} OfflineOfAPrefix(saves: seq<Save>, m: nat, n: nat, d: nat)
    requires n < m <= |saves|
    ensures Offline(saves[..m], n, d) == Offline(saves, n, d)
  {
    if n > 0 {
      OfflineOfAPrefix(saves, m, n - 1, d);
    }
  }

  /** One live timer, the last save's, its cancel handle held, and the calls the earlier saves led to. */
  function Expected(saves: seq<Save>, d: nat): Machine
    requires saves != []
  {
    var n := |saves|;
    Machine(Some(n - 1), [Timer(n - 1, saves[n - 1].at + d)], n, Offline(saves, n - 1, d))
  }

  lemma {:induction false} OnlineState(saves: seq<Save>, d: nat)
    requires saves != [] && InOrder(saves)
    ensures Online(saves, d) == Expected(saves, d)
  {
    var n := |saves|;
    var init := saves[..n - 1];
    if n > 1 {
      OnlineState(init, d);
      NextSave(saves, d);
    } else {
      assert Online(init, d) == INITIAL;
    }
  }

  lemma {:induction false} NextSave(saves: seq<Save>, d: nat)
    requires |saves| > 1 && Online(saves[..|saves| - 1], d) == Expected(saves[..|saves| - 1], d)
    ensures Online(saves, d) == Expected(saves, d)
  {
    var n := |saves|;
    var (m, s) := (Expected(saves[..n - 1], d), saves[n - 1]);
    NextOffline(saves, d);
    assert saves[..n - 1][n - 2] == saves[n - 2];
    assert Online(saves, d) == Saved(RunDue(m, s.at, s.timerFirst), s.at, d);
    SaveReplacesTheTimer(m, Timer(n - 2, saves[n - 2].at + d), s, d);
  }

  lemma {:induction false} NextOffline(saves: seq<Save>, d: nat)
    requires |saves| > 1
    ensures var (n, init) := (|saves|, saves[..|saves| - 1]);
            Offline(saves, n - 1, d)
            == Offline(init, n - 2, d) + if Quiet(saves, n - 2, d) then [saves[n - 2].at + d] else []
  {
    OfflineOfAPrefix(saves, |saves| - 1, |saves| - 2, d);
  }

  /** The one live timer either runs before the next save or is cancelled by it. */
  lemma {:induction false} SaveReplacesTheTimer(m: Machine, timer: Timer, s: Save, d: nat)
    requires m.live == [timer] && m.pending == Some(timer.id)
    ensures var runs := timer.due < s.at || (timer.due == s.at && s.timerFirst);
            Saved(RunDue(m, s.at, s.timerFirst), s.at, d)
            == Machine(Some(m.nextId), [Timer(m.nextId, s.at + d)], m.nextId + 1,
                       m.fired + if runs then [timer.due] else [])
  {
    var next := Expired(m, 0);
    assert next.live == [];
    assert m.live[1..] == [] && Cancelled(m.live, timer.id) == [];
    if timer.due < s.at || (timer.due == s.at && s.timerFirst) {
      assert RunDue(m, s.at, s.timerFirst) == CalledBack(next, timer.due);
    } else {
      assert RunDue(m, s.at, s.timerFirst) == m && m.fired + [] == m.fired;
    }
  }

  /** There is never more than one live timer, and it is always the one the watcher can cancel. */
  ghost predicate OneTimer(m: Machine) {
    |m.live| <= 1 && (m.live != [] ==> m.pending == Some(m.live[0].id))
  }

  /**
   * Debounce: let everything due by `now` run; the calls made are exactly those of the saves no later save cut
   * short.
   */
  lemma {:induction false} DebounceRefinesTheOfflineReading(saves: seq<Save>, d: nat, now: int)
    requires InOrder(saves) && saves != [] && now >= saves[|saves| - 1].at
    ensures var m := RunDue(Online(saves, d), now, true);
            && OneTimer(Online(saves, d)) && OneTimer(m)
            && m.fired == Offline(saves, if now >= saves[|saves| - 1].at + d then |saves| else |saves| - 1, d)
            && (m.pending.Some? <==> now < saves[|saves| - 1].at + d)
  {
    OnlineState(saves, d);
    var m := Online(saves, d);
    if now >= m.live[0].due {
      assert Expired(m, 0).live == [];
    }
  }

  // ----- Callbacks that run late -----

  /**
   * Run on its own thread, a callback can land after a later save. It then drops the new timer's cancel
   * handle: the watcher is left with a timer it cannot cancel exactly when a save came in between.
   */
  lemma {:induction false} LateCallbackOrphansIff(m: Machine, i: nat, saves: seq<int>, d: nat, now: int)
    requires OneTimer(m) && i < |m.live|
    ensures OneTimer(CalledBack(SavedAll(Expired(m, i), saves, d), now)) <==> saves == []
  {
    assert Expired(m, i).live == [];
    if saves != [] {
      LastSaveIsLive(Expired(m, i), saves, d);
    }
  }

  function SavedAll(m: Machine, saves: seq<int>, d: nat): Machine {
    if saves == [] then m else Saved(SavedAll(m, saves[..|saves| - 1], d), saves[|saves| - 1], d)
  }

  lemma {:induction false} LastSaveIsLive(m: Machine, saves: seq<int>, d: nat)
    requires saves != []
    ensures SavedAll(m, saves, d).live != []
  {
  }

  /** Such an orphan fires inside the window of a later save: saves at 0, 5 and 6 with a window of 5. */
  lemma {:induction false} OrphanFiresEarly()
    ensures var m := Saved(INITIAL, 0, 5);
            var late := CalledBack(Saved(Expired(m, 0), 5, 5), 5);
            var after := RunDue(Saved(late, 6, 5), 11, true);
            after.fired == [5, 10, 11] && !OneTimer(Saved(late, 6, 5))
  {
    var m := Saved(INITIAL, 0, 5);
    assert m.live == [Timer(0, 5)] && Expired(m, 0).live == [];
    var s := Saved(Expired(m, 0), 5, 5);
    assert Cancelled([], 0) == [];
    assert s.live == [Timer(1, 10)];
    var t := Saved(CalledBack(s, 5), 6, 5);
    assert t.live == [Timer(1, 10), Timer(2, 11)];
    var u := CalledBack(Expired(t, 0), 10);
    assert u.live == [Timer(2, 11)];
    assert RunDue(t, 11, true) == RunDue(u, 11, true);
    assert Expired(u, 0).live == [];
    assert RunDue(u, 11, true) == RunDue(CalledBack(Expired(u, 0), 11), 11, true);
  }
}
