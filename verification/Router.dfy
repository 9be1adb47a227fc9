/** The rate-limited re-probe of `graph/router.py`, with queries interleaving across its await. */
module Router {
  import opened Common

  type Engine = string

  /** `_REPROBE_INTERVAL_SECONDS`. */
  const INTERVAL := 30

  datatype Fields = Fields(primary: Option<Engine>, factory: bool, lastReprobeAt: int, reason: Option<string>)

  datatype Answer = Ready(engine: Engine) | Unavailable(reason: string) | Probing

  predicate StartsProbe(f: Fields, now: int) {
    f.primary.None? && f.factory && now - f.lastReprobeAt >= INTERVAL
  }

  /** What a caller gets once nothing more is awaited; an empty reason reads as no reason. */
  function Settled(f: Fields): Answer {
    match f.primary
    case Some(e) => Ready(e)
    case None => Unavailable(if f.reason.None? || f.reason.value == "" then "unconfigured" else f.reason.value)
  }

  /** What a query gets: the wait for a probe, or an answer at once. */
  function Answered(f: Fields, now: int): Answer {
    if StartsProbe(f, now) then Probing else Settled(f)
  }

  class RoutingEngine {
    var primary: Option<Engine>
    const factory: bool
    var lastReprobeAt: int
    var unavailableReason: Option<string>

    constructor (primary: Option<Engine>, factory: bool, reason: Option<string>)
      ensures State() == Initial(primary, factory, reason)
      ensures this.primary == primary && this.factory == factory && lastReprobeAt == 0
      ensures unavailableReason == if primary == None then reason else None
    {
      this.primary, this.factory, lastReprobeAt := primary, factory, 0;
      unavailableReason := if primary.None? then reason else None;
    }

    function State(): Fields
      reads this
    {
      Fields(primary, factory, lastReprobeAt, unavailableReason)
    }

    /** `_require_primary` up to its await, or to its end when there is nothing to await. */
    method RequirePrimary(now: int) returns (a: Answer)
      modifies this
      ensures a == Answered(old(State()), now)
      ensures a.Probing? ==> State() == old(State()).(lastReprobeAt := now)
      ensures !a.Probing? ==> State() == old(State()) && a == Settled(State())
      ensures a.Probing? <==> old(primary) == None && factory && now - old(lastReprobeAt) >= 30
      ensures a.Probing? ==> primary == None && lastReprobeAt == now && unavailableReason == old(unavailableReason)
      ensures old(primary).Some? ==> a == Ready(old(primary).value)
      ensures old(primary) == None && !a.Probing? ==>
                match old(unavailableReason)
                case None => a == Unavailable("unconfigured")
                case Some(reason) => a == Unavailable(if reason == "" then "unconfigured" else reason)
    {
      if primary == None && factory {
        if now - lastReprobeAt >= INTERVAL {
          lastReprobeAt := now;
          return Probing;
        }
      }
      a := Settled(State());
    }

    /** The rest of it, when the probe comes back. */
    method ProbeReturned(found: Option<Engine>, reason: Option<string>) returns (a: Answer)
      modifies this
      ensures State() == old(State()).(primary := found, reason := reason)
      ensures a == Settled(State()) && !a.Probing?
      ensures primary == found && unavailableReason == reason
      ensures found.Some? ==> a == Ready(found.value)
      ensures found == None ==>
                a == Unavailable(if reason == None || reason == Some("") then "unconfigured" else reason.value)
    {
      primary, unavailableReason := found, reason;
      a := Settled(State());
    }
  }

  function Initial(primary: Option<Engine>, factory: bool, reason: Option<string>): Fields {
    Fields(primary, factory, 0, if primary.None? then reason else None)
  }

  // ----- All interleavings -----

  /** The fields, the clock, the start times of probes in flight, and of every probe ever started. */
  datatype State = State(f: Fields, now: int, inFlight: seq<int>, starts: seq<int>)

  datatype Label =
    | Tick(d: nat)
    | Query
    | Return(i: nat, found: Option<Engine>, reason: Option<string>)
    | Abandon(i: nat)   // the awaiting caller is cancelled, or the factory raises

  function Next(s: State, l: Label): State {
    match l
    case Tick(d) => s.(now := s.now + d)
    case Query =>
      if StartsProbe(s.f, s.now)
      then State(s.f.(lastReprobeAt := s.now), s.now, s.inFlight + [s.now], s.starts + [s.now])
      else s
    case Return(i, found, reason) =>
      if i < |s.inFlight|
      then s.(f := s.f.(primary := found, reason := reason), inFlight := s.inFlight[..i] + s.inFlight[i + 1..])
      else s
    case Abandon(i) => if i < |s.inFlight| then s.(inFlight := s.inFlight[..i] + s.inFlight[i + 1..]) else s
  }

  function Exec(s: State, ls: seq<Label>): State {
    if ls == [] then s else Next(Exec(s, ls[..|ls| - 1]), ls[|ls| - 1])
  }

  function Boot(f: Fields, now: int): State {
    State(f, now, [], [])
  }

  ghost predicate Spaced(starts: seq<int>) {
    forall i, j :: 0 <= i < j < |starts| ==> starts[j] - starts[i] >= (j - i) * INTERVAL
  }

  ghost predicate Inv(s: State) {
    && Spaced(s.starts)
    && (if s.starts == [] then s.f.lastReprobeAt == 0
        else s.f.lastReprobeAt == s.starts[|s.starts| - 1] && s.starts[0] >= INTERVAL)
  }

  /** In every interleaving probe starts are at least the interval apart, the first one counted from clock zero. */
  lemma {:induction false} ProbesAreRateLimited(primary: Option<Engine>, factory: bool, reason: Option<string>,
                                                now: int, ls: seq<Label>)
    ensures Inv(Exec(Boot(Initial(primary, factory, reason), now), ls))
  {
    if ls != [] {
      ProbesAreRateLimited(primary, factory, reason, now, ls[..|ls| - 1]);
    }
  }

  // ----- Prompt probes -----

  /** Every probe has been in flight for less than the interval. */
  ghost predicate Prompt(s: State) {
    forall i :: 0 <= i < |s.inFlight| ==> s.now - s.inFlight[i] < INTERVAL
  }

  ghost predicate Single(s: State) {
    && |s.inFlight| <= 1
    && (s.inFlight != [] ==> s.inFlight[0] == s.f.lastReprobeAt && s.f.primary == None)
  }

  /** If every probe takes less than the interval, at most one is ever in flight, and none once a primary is set. */
  lemma {:induction false} PromptProbesAreSingle(f: Fields, now: int, ls: seq<Label>)
    requires forall n :: 0 <= n <= |ls| ==> Prompt(Exec(Boot(f, now), ls[..n]))
    ensures Single(Exec(Boot(f, now), ls))
  {
    if ls != [] {
      var init := ls[..|ls| - 1];
      assert forall n :: 0 <= n <= |init| ==> init[..n] == ls[..n];
      PromptProbesAreSingle(f, now, init);
      assert Prompt(Exec(Boot(f, now), ls[..|init|]));
    }
  }

  // ----- When a primary is final -----

  lemma {:induction false} SetPrimaryStays(s: State, ls: seq<Label>)
    requires s.f.primary.Some? && s.inFlight == []
    ensures Exec(s, ls).f.primary == s.f.primary && Exec(s, ls).inFlight == []
  {
    if ls != [] {
      SetPrimaryStays(s, ls[..|ls| - 1]);
    }
  }

  /** A primary is kept in every continuation exactly when no probe is in flight at that point. */
  lemma {:induction false} PrimaryIsFinalIff(s: State)
    requires s.f.primary.Some?
    ensures (forall ls :: Exec(s, ls).f.primary == s.f.primary) <==> s.inFlight == []
  {
    if s.inFlight == [] {
      forall ls
        ensures Exec(s, ls).f.primary == s.f.primary
      {
        SetPrimaryStays(s, ls);
      }
    } else {
      var ls := [Return(0, None, None)];
      assert ls[..0] == [];
      assert Exec(s, ls).f.primary == None;
    }
  }

  /** So along a run of prompt probes a primary once set is never unset or replaced. */
  lemma {:induction false} PromptPrimaryIsFinal(f: Fields, now: int, ls: seq<Label>, rest: seq<Label>)
    requires forall n :: 0 <= n <= |ls| ==> Prompt(Exec(Boot(f, now), ls[..n]))
    requires Exec(Boot(f, now), ls).f.primary.Some?
    ensures Exec(Exec(Boot(f, now), ls), rest).f.primary == Exec(Boot(f, now), ls).f.primary
  {
    PromptProbesAreSingle(f, now, ls);
    SetPrimaryStays(Exec(Boot(f, now), ls), rest);
  }

  /** Along a run of prompt probes, once a primary is set every later query is answered with it, at once. */
  lemma {:induction false} PromptPrimaryAnswers(f: Fields, now: int, ls: seq<Label>, rest: seq<Label>)
    requires forall n :: 0 <= n <= |ls| ==> Prompt(Exec(Boot(f, now), ls[..n]))
    requires Exec(Boot(f, now), ls).f.primary.Some?
    ensures var s := Exec(Exec(Boot(f, now), ls), rest);
            Answered(s.f, s.now) == Ready(Exec(Boot(f, now), ls).f.primary.value)
  {
    PromptPrimaryIsFinal(f, now, ls, rest);
  }

  /** Without a primary or a factory, every query of every run gets the reason the engine was built with. */
  lemma {:induction false} NothingToProbe(reason: string, now: int, ls: seq<Label>)
    requires reason != ""
    ensures var s := Exec(Boot(Initial(None, false, Some(reason)), now), ls);
            Answered(s.f, s.now) == Unavailable(reason) && s.starts == [] && s.inFlight == []
  {
    StaysUnavailable(reason, now, ls);
  }

  lemma {:induction false} StaysUnavailable(reason: string, now: int, ls: seq<Label>)
    ensures var s := Exec(Boot(Initial(None, false, Some(reason)), now), ls);
            s.f == Fields(None, false, 0, Some(reason)) && s.starts == [] && s.inFlight == []
  {
    if ls != [] {
      StaysUnavailable(reason, now, ls[..|ls| - 1]);
    }
  }

  /**
   * A slow probe can unset a working primary: two probes overlap, and the first to start comes back last,
   * empty-handed.
   */
  lemma {:induction false} SlowProbeUnsetsThePrimary(e: Engine)
    ensures var s := Boot(Initial(None, true, None), 0);
            var found := [Tick(30), Query, Tick(30), Query, Return(1, Some(e), None)];
            && Exec(s, found).f.primary == Some(e)
            && Exec(s, found + [Return(0, None, Some("unreachable"))]).f.primary == None
  {
    var s := Boot(Initial(None, true, None), 0);
    var l1 := [Tick(30)];
    var l2 := [Tick(30), Query];
    var l3 := [Tick(30), Query, Tick(30)];
    var l4 := [Tick(30), Query, Tick(30), Query];
    var l5 := [Tick(30), Query, Tick(30), Query, Return(1, Some(e), None)];
    assert l1[..0] == [] && l2[..1] == l1 && l3[..2] == l2 && l4[..3] == l3 && l5[..4] == l4;
    assert Exec(s, l1).now == 30;
    assert Exec(s, l2).inFlight == [30];
    assert Exec(s, l4).inFlight == [30, 60];
    var last := [Return(0, None, Some("unreachable"))];
    assert (l5 + last)[..5] == l5;
  }
}
