/**
 * Every interleaving of any number of delegations over one queue and one cooldown store: callers arrive, wait
 * behind the FIFO lock, are cancelled, and run their chains while the clock advances.
 */
module DelegateSystem {
  import opened Common
  import opened Cooldown
  import opened ChainRun

  /** `_OUTER_TIMEOUT_SAFETY_MARGIN_SECONDS`. */
  const SAFETY_MARGIN := 5

  datatype Request = Request(task: string, cs: seq<Candidate>, timeout: nat)

  /** One `run_chain` call; its identity is its position in `State.tickets`. */
  datatype Ticket = Ticket(
    request: Request, behind: seq<Request>, arrived: int, granted: Option<int>, released: Option<int>)

  datatype Stage = Between | InCall(since: int, fits: bool)

  datatype Holder = Holder(id: nat, stage: Stage, envs: seq<AttemptEnv>)

  datatype Done = Done(id: nat, request: Request, envs: seq<AttemptEnv>, result: ChainResult)

  datatype State = State(
    lim: Limits,
    now: int,
    tickets: seq<Ticket>,
    waiting: seq<nat>,
    holder: Option<Holder>,
    progress: Progress,           // the store, and the lists of the call that holds (or last held) the lock
    attempts: seq<(nat, nat)>,    // every attempt begun: (call, position in its chain)
    done: seq<Done>)              // completed calls in the order they held the lock

  datatype Label =
    | Tick(d: nat)
    | Arrive(request: Request)
    | CancelWaiting(id: nat)
    | Grant
    | Begin(fits: bool, client: Option<Exn>)
    | End(call: CallEnv)

  function Init(lim: Limits, now: int): State {
    State(lim, now, [], [], None, Start(map[], []), [], [])
  }

  /** The shape every reachable state has, which makes the step function well defined. */
  predicate Shaped(s: State) {
    && (forall i :: 0 <= i < |s.waiting| ==> s.waiting[i] < |s.tickets|)
    && (s.holder.Some? ==>
          && s.holder.value.id < |s.tickets|
          && s.progress.status == Running
          && |s.progress.log| < |s.tickets[s.holder.value.id].request.cs|)
  }

  function Current(s: State): Request
    requires Shaped(s) && s.holder.Some?
  {
    s.tickets[s.holder.value.id].request
  }

  function CurrentCandidate(s: State): Candidate
    requires Shaped(s) && s.holder.Some?
  {
    Current(s).cs[|s.progress.log|]
  }

  function PerAttempt(r: Request): nat {
    r.timeout + SAFETY_MARGIN
  }

  /** Time passes while nobody wants the lock, or inside a call up to `run_chain`'s own deadline for it. */
  predicate MayPass(s: State, d: nat)
    requires Shaped(s)
  {
    if s.holder.None? then s.waiting == []
    else s.holder.value.stage.InCall? && s.now + d <= s.holder.value.stage.since + PerAttempt(Current(s))
  }

  /** The attempt is over: the lock is kept while the chain runs on, and released when it has ended. */
  function Settle(s: State, p: Progress, env: AttemptEnv): State
    requires Shaped(s) && s.holder.Some?
  {
    var h := s.holder.value;
    var envs := h.envs + [env];
    if p.status.Running? then s.(progress := p, holder := Some(Holder(h.id, Between, envs)))
    else s.(progress := p, holder := None, done := s.done + [Done(h.id, Current(s), envs, ResultOf(p))],
            tickets := s.tickets[h.id := s.tickets[h.id].(released := Some(s.now))])
  }

  const NO_CALL := CallEnv(None, Answer, Answer)

  function Requests(s: State): seq<Request>
    requires Shaped(s)
  {
    (if s.holder.Some? then [Current(s)] else []) + RequestsOf(s.tickets, s.waiting)
  }

  function RequestsOf(tickets: seq<Ticket>, ids: seq<nat>): seq<Request>
    requires forall i :: 0 <= i < |ids| ==> ids[i] < |tickets|
  {
    seq(|ids|, i requires 0 <= i < |ids| => tickets[ids[i]].request)
  }

  predicate Enabled(s: State, l: Label)
    requires Shaped(s)
  {
    match l
    case Tick(d) => MayPass(s, d)
    case Arrive(r) => r.cs != []   // an empty chain raises before it reaches the queue
    case CancelWaiting(id) => id in s.waiting
    case Grant => s.holder.None? && s.waiting != []
    case Begin(_, _) => s.holder.Some? && s.holder.value.stage.Between?
    case End(_) => s.holder.Some? && s.holder.value.stage.InCall?
  }

  function Without(ids: seq<nat>, id: nat): seq<nat> {
    if ids == [] then [] else (if ids[0] == id then [] else [ids[0]]) + Without(ids[1..], id)
  }

  function Next(s: State, l: Label): State
    requires Shaped(s) && Enabled(s, l)
  {
    match l
    case Tick(d) => s.(now := s.now + d)
    case Arrive(r) =>
      s.(tickets := s.tickets + [Ticket(r, Requests(s), s.now, None, None)], waiting := s.waiting + [|s.tickets|])
    case CancelWaiting(id) => s.(waiting := Without(s.waiting, id))
    case Grant =>
      var id := s.waiting[0];
      s.(waiting := s.waiting[1..], holder := Some(Holder(id, Between, [])),
         progress := Start(s.progress.health, s.progress.trace),
         tickets := s.tickets[id := s.tickets[id].(granted := Some(s.now))])
    case Begin(fits, client) =>
      var r := Current(s);
      var c := CurrentCandidate(s);
      var (p, early) := ChainRun.Begin(s.lim, r.task, c, s.progress, s.now, fits, client);
      var s' := s.(attempts := s.attempts + [(s.holder.value.id, |s.progress.log|)]);
      if early.None? then s'.(progress := p, holder := Some(s.holder.value.(stage := InCall(s.now, fits))))
      else
        Settle(s', Conclude(s.lim, r.task, c, |r.cs|, p, early.value, s.now),
               AttemptEnv(s.now, fits, client, NO_CALL, s.now))
    case End(call) =>
      var r := Current(s);
      var stage := s.holder.value.stage;
      var d := Called(CallOutcome(call), Completions(call));
      Settle(s, Conclude(s.lim, r.task, CurrentCandidate(s), |r.cs|, s.progress, d, s.now),
             AttemptEnv(stage.since, stage.fits, None, call, s.now))
  }

  // ----- Shape -----

  lemma {:induction false} WithoutIsSubset(ids: seq<nat>, id: nat)
    ensures forall x :: x in Without(ids, id) <==> x in ids && x != id
    ensures |Without(ids, id)| <= |ids|
  {
    if ids != [] {
      WithoutIsSubset(ids[1..], id);
    }
  }

  /** Chains in the queue are never empty. */
  ghost predicate Sound(s: State) {
    && Shaped(s)
    && (forall i :: 0 <= i < |s.tickets| ==> s.tickets[i].request.cs != [])
    && s.lim.Valid()
  }

  lemma {:induction false} NextIsSound(s: State, l: Label)
    requires Sound(s) && Enabled(s, l)
    ensures Sound(Next(s, l)) && Next(s, l).lim == s.lim
  {
    if l.CancelWaiting? {
      WithoutIsSubset(s.waiting, l.id);
      assert forall i :: 0 <= i < |Without(s.waiting, l.id)| ==> Without(s.waiting, l.id)[i] in s.waiting;
    }
  }

  /** The state after any sequence of labels; a label that is not enabled changes nothing. */
  function Exec(lim: Limits, now: int, ls: seq<Label>): (s: State)
    requires lim.Valid()
    ensures Sound(s) && s.lim == lim
  {
    if ls == [] then Init(lim, now)
    else
      var s := Exec(lim, now, ls[..|ls| - 1]);
      var l := ls[|ls| - 1];
      if Enabled(s, l) then NextIsSound(s, l); Next(s, l) else s
  }

  // ----- The shared store under every interleaving -----

  /** The store is the fold of its history, and the history obeys check-then-fail. */
  ghost predicate StoreInv(lim: Limits, p: Progress, now: int) {
    && p.health == StoreAfter(lim, p.trace)
    && Disciplined(lim, p.trace) && Monotone(p.trace)
    && (p.trace != [] ==> p.trace[|p.trace| - 1].at <= now)
  }

  lemma {:induction false} AppendKeepsHistory(lim: Limits, tr: seq<Event>, e: Event, now: int)
    requires Disciplined(lim, tr) && Monotone(tr) && (tr != [] ==> tr[|tr| - 1].at <= e.at) && e.at <= now
    requires e.Failure? ==> ClearCheckLast(lim, tr, e.key)
    ensures Disciplined(lim, tr + [e]) && Monotone(tr + [e])
    ensures StoreAfter(lim, tr + [e]) == Apply(lim, StoreAfter(lim, tr), e)
    ensures e.Check? && !Cooling(Bucket(lim, tr, e.key), e.at) ==> ClearCheckLast(lim, tr + [e], e.key)
  {
    assert (tr + [e])[..|tr + [e]| - 1] == tr;
  }

  lemma {:induction false} BeginKeepsStore(lim: Limits, task: string, c: Candidate, p: Progress, now: int,
                                           fits: bool, client: Option<Exn>)
    requires StoreInv(lim, p, now)
    ensures var (q, early) := ChainRun.Begin(lim, task, c, p, now, fits, client);
            StoreInv(lim, q, now) && (early == None ==> ClearCheckLast(lim, q.trace, Key(task, c.name)))
  {
    AppendKeepsHistory(lim, p.trace, Check(Key(task, c.name), now), now);
  }

  lemma {:induction false} ConcludeKeepsStore(lim: Limits, task: string, c: Candidate, n: nat, p: Progress,
                                              d: Disposition, now: int)
    requires StoreInv(lim, p, now)
    requires d.Called? ==> ClearCheckLast(lim, p.trace, Key(task, c.name))
    ensures StoreInv(lim, Conclude(lim, task, c, n, p, d, now), now)
  {
    var events := if d.Called? then CallEvents(Key(task, c.name), d.r, now) else [];
    if events == [] {
      assert p.trace + events == p.trace;
    } else {
      AppendKeepsHistory(lim, p.trace, events[0], now);
      assert p.trace + events == p.trace + [events[0]];
    }
  }

  ghost predicate LockInv(s: State)
    requires Sound(s)
  {
    && StoreInv(s.lim, s.progress, s.now)
    && (s.holder.Some? && s.holder.value.stage.InCall? ==>
          ClearCheckLast(s.lim, s.progress.trace, Key(Current(s).task, CurrentCandidate(s).name)))
  }

  lemma {:induction false} BeginKeepsLockInv(s: State, fits: bool, client: Option<Exn>)
    requires Sound(s) && Enabled(s, Begin(fits, client)) && LockInv(s)
    ensures Sound(Next(s, Begin(fits, client))) && LockInv(Next(s, Begin(fits, client)))
  {
    NextIsSound(s, Begin(fits, client));
    var (r, c) := (Current(s), CurrentCandidate(s));
    var (p, early) := ChainRun.Begin(s.lim, r.task, c, s.progress, s.now, fits, client);
    BeginKeepsStore(s.lim, r.task, c, s.progress, s.now, fits, client);
    if early.Some? {
      ConcludeKeepsStore(s.lim, r.task, c, |r.cs|, p, early.value, s.now);
    } else {
      var s' := Next(s, Begin(fits, client));
      assert Current(s') == r && CurrentCandidate(s') == c;
    }
  }

  lemma {:induction false} EndKeepsLockInv(s: State, call: CallEnv)
    requires Sound(s) && Enabled(s, End(call)) && LockInv(s)
    ensures Sound(Next(s, End(call))) && LockInv(Next(s, End(call)))
  {
    NextIsSound(s, End(call));
    ConcludeKeepsStore(s.lim, Current(s).task, CurrentCandidate(s), |Current(s).cs|, s.progress,
                       Called(CallOutcome(call), Completions(call)), s.now);
  }

  lemma {:induction false} NextKeepsLockInv(s: State, l: Label)
    requires Sound(s) && Enabled(s, l) && LockInv(s)
    ensures Sound(Next(s, l)) && LockInv(Next(s, l))
  {
    NextIsSound(s, l);
    var s' := Next(s, l);
    if l.Begin? {
      BeginKeepsLockInv(s, l.fits, l.client);
    } else if l.End? {
      EndKeepsLockInv(s, l.call);
    } else {
      assert s'.progress.trace == s.progress.trace && s'.progress.health == s.progress.health && s.now <= s'.now;
      assert s.holder.Some? ==> Current(s') == Current(s) && CurrentCandidate(s') == CurrentCandidate(s);
    }
  }

  lemma {:induction false} ExecKeepsLockInv(lim: Limits, now: int, ls: seq<Label>)
    requires lim.Valid()
    ensures LockInv(Exec(lim, now, ls))
  {
    if ls != [] {
      var s := Exec(lim, now, ls[..|ls| - 1]);
      ExecKeepsLockInv(lim, now, ls[..|ls| - 1]);
      if Enabled(s, ls[|ls| - 1]) {
        NextKeepsLockInv(s, ls[|ls| - 1]);
      }
    }
  }

  /** In every run, every bucket counts at most to the threshold, and has an expiry exactly when it got there. */
  lemma {:induction false} ReachableBuckets(lim: Limits, now: int, ls: seq<Label>, k: Key)
    requires lim.Valid()
    ensures var h := At(Exec(lim, now, ls).progress.health, k);
            h.failures <= lim.threshold && (h.expiry.Some? <==> h.failures == lim.threshold)
  {
    ExecKeepsLockInv(lim, now, ls);
    var s := Exec(lim, now, ls);
    StreaksAreSpaced(lim, s.progress.trace, k, s.now);
  }

  /** In every run, any `threshold + 1` successive failures of a bucket with no success between span a cooldown. */
  lemma {:induction false} SystemSlidingWindow(lim: Limits, now: int, ls: seq<Label>, lo: nat, hi: nat, k: Key)
    requires lim.Valid()
    requires var tr := Exec(lim, now, ls).progress.trace; lo <= hi <= |tr| && SuccessFree(tr[lo..hi], k)
    ensures var times := FailureTimes(Exec(lim, now, ls).progress.trace[lo..hi], k);
            forall i :: 0 <= i < |times| - lim.threshold ==> times[i + lim.threshold] - times[i] >= lim.cooldown
  {
    ExecKeepsLockInv(lim, now, ls);
    SlidingWindow(lim, Exec(lim, now, ls).progress.trace, lo, hi, k);
  }

  /** Hence the breaker is a rate limiter over every interleaving of callers. */
  lemma {:induction false} SystemRateLimit(lim: Limits, now: int, ls: seq<Label>, lo: nat, hi: nat, k: Key, span: nat)
    requires lim.Valid()
    requires var tr := Exec(lim, now, ls).progress.trace;
             && lo <= hi <= |tr| && SuccessFree(tr[lo..hi], k)
             && forall e, f :: e in tr[lo..hi] && f in tr[lo..hi] ==> f.at - e.at <= span
    ensures |FailureTimes(Exec(lim, now, ls).progress.trace[lo..hi], k)| <= lim.threshold * (span / lim.cooldown + 1)
  {
    ExecKeepsLockInv(lim, now, ls);
    RateLimit(lim, Exec(lim, now, ls).progress.trace, lo, hi, k, span);
  }

  /** Every answer the chain ever gets from the store is the answer eager expiry would have given. */
  lemma {:induction false} SystemAnswersAreEager(lim: Limits, now: int, ls: seq<Label>, n: nat, k: Key)
    requires lim.Valid()
    requires var tr := Exec(lim, now, ls).progress.trace; n < |tr| && tr[n].Check? && tr[n].key == k
    ensures var tr := Exec(lim, now, ls).progress.trace;
            Cooling(Bucket(lim, tr[..n], k), tr[n].at) <==> EagerAt(lim, tr[..n], k, tr[n].at).expiry.Some?
  {
    ExecKeepsLockInv(lim, now, ls);
    var tr := Exec(lim, now, ls).progress.trace;
    PrefixesKeepDiscipline(lim, tr, n);
    LazyRefinesEager(lim, tr[..n], k, tr[n].at);
  }

  /** The bucket the next attempt of the call holding the lock is about. */
  function NextKey(s: State): Key
    requires Shaped(s) && s.holder.Some?
  {
    Key(Current(s).task, CurrentCandidate(s).name)
  }

  /**
   * In every run, an attempt begun ends at once in cooldown exactly when its bucket's failures since its last reset
   * have reached the threshold and the last of them is less than a cooldown ago. So a bucket that saw no failure
   * for a cooldown is let through: the call is made, if the candidate fits and has a client.
   */
  lemma {:induction false} CoolsOnlyForACooldown(lim: Limits, now: int, ls: seq<Label>, fits: bool, client: Option<Exn>)
    requires lim.Valid() && Enabled(Exec(lim, now, ls), Begin(fits, client))
    ensures var (s, s') := (Exec(lim, now, ls), Exec(lim, now, ls + [Begin(fits, client)]));
            var times := SinceReset(lim, s.progress.trace, NextKey(s));
            && (s'.progress.log == s.progress.log + [Cooled]
                <==> |times| >= lim.threshold && s.now < times[|times| - 1] + lim.cooldown)
            && ((forall t :: Failure(NextKey(s), t) in s.progress.trace ==> t + lim.cooldown <= s.now) ==>
                  && s'.progress.log != s.progress.log + [Cooled]
                  && (fits && client == None ==> s'.holder.Some? && s'.holder.value.stage == InCall(s.now, true)))
  {
    var s := Exec(lim, now, ls);
    var times := SinceReset(lim, s.progress.trace, NextKey(s));
    ExecKeepsLockInv(lim, now, ls);
    CoolsExactly(lim, s.progress.trace, NextKey(s), s.now);
    SinceResetAreFailures(lim, s.progress.trace, NextKey(s));
    assert times != [] ==> times[|times| - 1] in times;
    assert (ls + [Begin(fits, client)])[..|ls|] == ls;
    BegunAttempt(s, fits, client);
  }

  lemma {:induction false} BegunAttempt(s: State, fits: bool, client: Option<Exn>)
    requires Sound(s) && Enabled(s, Begin(fits, client))
    ensures var (expiry, s') := (ExpiryOf(s.progress.health, NextKey(s)), Next(s, Begin(fits, client)));
            && (s'.progress.log == s.progress.log + [Cooled] <==> expiry.Some? && s.now < expiry.value)
            && (!(expiry.Some? && s.now < expiry.value) && fits && client == None ==>
                  s'.holder.Some? && s'.holder.value.stage == InCall(s.now, true))
  {
    var (log, log') := (s.progress.log, Next(s, Begin(fits, client)).progress.log);
    assert log' == log + [Cooled] ==> |log'| == |log| + 1 && log'[|log|] == Cooled;
  }

  /**
   * In every run, a call that ends is recorded at that instant: a success, or a failure unless its error is
   * foreign.
   */
  lemma {:induction false} EndedCallsAreRecorded(lim: Limits, now: int, ls: seq<Label>, call: CallEnv)
    requires lim.Valid() && Enabled(Exec(lim, now, ls), End(call))
    ensures var (s, s') := (Exec(lim, now, ls), Exec(lim, now, ls + [End(call)]));
            s'.progress.trace == s.progress.trace +
              match CallOutcome(call)
              case None => [Success(NextKey(s), s.now)]
              case Some(e) => if e == Foreign then [] else [Failure(NextKey(s), s.now)]
  {
    assert (ls + [End(call)])[..|ls|] == ls;
  }

  // ----- Serialisability -----

  /** Run completed calls one after the other on one store, as if nobody had ever interleaved. */
  function Serial(lim: Limits, done: seq<Done>): (HealthMap, seq<Event>)
    decreases |done|, 0
  {
    if done == [] then (map[], [])
    else
      var p := Alone(lim, done[..|done| - 1], done[|done| - 1].request, done[|done| - 1].envs);
      (p.health, p.trace)
  }

  /** One call run by itself after `done`. */
  function Alone(lim: Limits, done: seq<Done>, r: Request, envs: seq<AttemptEnv>): Progress
    decreases |done|, 1
  {
    var (m, tr) := Serial(lim, done);
    if r.cs == [] then Start(m, tr) else Run(lim, r.task, r.cs, Start(m, tr), envs)
  }

  /** Each completed call got the result it would have got alone. */
  ghost predicate ResultsAreSerial(lim: Limits, done: seq<Done>) {
    forall i :: 0 <= i < |done| ==>
      var p := Alone(lim, done[..i], done[i].request, done[i].envs);
      p.status.Ended? && done[i].result == ResultOf(p)
  }

  ghost predicate SerialInv(s: State)
    requires Sound(s)
  {
    && ResultsAreSerial(s.lim, s.done)
    && match s.holder
       case None => Serial(s.lim, s.done) == (s.progress.health, s.progress.trace)
       case Some(Holder(id, stage, envs)) =>
         var r := Current(s);
         var p := Alone(s.lim, s.done, r, envs);
         && p.status.Running? && |p.log| == |s.progress.log|
         && match stage
            case Between => s.progress == p
            case InCall(since, fits) =>
              ChainRun.Begin(s.lim, r.task, CurrentCandidate(s), p, since, fits, None) == (s.progress, None)
  }

  lemma {:induction false} SettleKeepsSerialInv(s: State, p: Progress, q: Progress, env: AttemptEnv)
    requires Sound(s) && s.holder.Some? && ResultsAreSerial(s.lim, s.done)
    requires p == Alone(s.lim, s.done, Current(s), s.holder.value.envs)
    requires p.status.Running? && |p.log| < |Current(s).cs|
    requires q == AttemptOnce(s.lim, Current(s).task, Current(s).cs[|p.log|], |Current(s).cs|, p, env)
    requires Sound(Settle(s, q, env))
    ensures SerialInv(Settle(s, q, env))
  {
    var envs := s.holder.value.envs + [env];
    var s' := Settle(s, q, env);
    assert envs[..|envs| - 1] == s.holder.value.envs;
    assert Alone(s.lim, s.done, Current(s), envs) == q;
    if q.status.Ended? {
      assert s'.done[..|s.done|] == s.done;
      forall i | 0 <= i < |s'.done|
        ensures var a := Alone(s.lim, s'.done[..i], s'.done[i].request, s'.done[i].envs);
                a.status.Ended? && s'.done[i].result == ResultOf(a)
      {
        if i < |s.done| {
          assert s'.done[..i] == s.done[..i];
        }
      }
    }
  }

  lemma {:induction false} NextKeepsSerialInv(s: State, l: Label)
    requires Sound(s) && Enabled(s, l) && SerialInv(s)
    ensures Sound(Next(s, l)) && SerialInv(Next(s, l))
  {
    NextIsSound(s, l);
    match l
    case Begin(fits, client) =>
      var r := Current(s);
      var (p, early) := ChainRun.Begin(s.lim, r.task, CurrentCandidate(s), s.progress, s.now, fits, client);
      if early.Some? {
        var s' := s.(attempts := s.attempts + [(s.holder.value.id, |s.progress.log|)]);
        SettleKeepsSerialInv(s', s.progress,
                             Conclude(s.lim, r.task, CurrentCandidate(s), |r.cs|, p, early.value, s.now),
                             AttemptEnv(s.now, fits, client, NO_CALL, s.now));
      }
    case End(call) =>
      var (r, stage) := (Current(s), s.holder.value.stage);
      var d := Called(CallOutcome(call), Completions(call));
      SettleKeepsSerialInv(s, Alone(s.lim, s.done, r, s.holder.value.envs),
                           Conclude(s.lim, r.task, CurrentCandidate(s), |r.cs|, s.progress, d, s.now),
                           AttemptEnv(stage.since, stage.fits, None, call, s.now));
    case _ =>
  }

  /**
   * Every interleaving is serial: each completed call got the result of running it alone, in the order the
   * calls held the lock, and with the lock free the store is the one those runs leave.
   */
  lemma {:induction false} RunsAreSerialisable(lim: Limits, now: int, ls: seq<Label>)
    requires lim.Valid()
    ensures SerialInv(Exec(lim, now, ls))
    ensures var s := Exec(lim, now, ls);
            && ResultsAreSerial(lim, s.done)
            && (s.holder.None? ==> Serial(lim, s.done) == (s.progress.health, s.progress.trace))
  {
    if ls != [] {
      var s := Exec(lim, now, ls[..|ls| - 1]);
      RunsAreSerialisable(lim, now, ls[..|ls| - 1]);
      if Enabled(s, ls[|ls| - 1]) {
        NextKeepsSerialInv(s, ls[|ls| - 1]);
      }
    }
  }

  // ----- Contiguity -----

  /** Attempts of one call are adjacent and in chain order. */
  ghost predicate Contiguous(attempts: seq<(nat, nat)>) {
    forall a, b, c :: 0 <= a <= b <= c < |attempts| && attempts[a].0 == attempts[c].0 ==>
      attempts[b].0 == attempts[a].0 && attempts[b].1 == attempts[a].1 + (b - a)
  }

  function Begun(s: State): nat
    requires Shaped(s) && s.holder.Some?
  {
    |s.progress.log| + if s.holder.value.stage.InCall? then 1 else 0
  }

  ghost predicate TicketInv(s: State)
    requires Sound(s)
  {
    && (forall i, j :: 0 <= i < j < |s.waiting| ==> s.waiting[i] != s.waiting[j])
    && (forall i :: 0 <= i < |s.waiting| ==> s.tickets[s.waiting[i]].granted == None)
    && (forall a :: 0 <= a < |s.attempts| ==> s.attempts[a].0 < |s.tickets| && s.tickets[s.attempts[a].0].granted.Some?)
    && (s.holder.Some? ==> s.tickets[s.holder.value.id].granted.Some?)
  }

  /** The last `k` attempts are the first `k` of call `id`, which has no others. */
  ghost predicate TailBlock(attempts: seq<(nat, nat)>, id: nat, k: nat) {
    && k <= |attempts|
    && (forall a :: 0 <= a < |attempts| - k ==> attempts[a].0 != id)
    && (forall a :: |attempts| - k <= a < |attempts| ==> attempts[a] == (id, a - (|attempts| - k)))
  }

  ghost predicate OrderInv(s: State)
    requires Sound(s)
  {
    Contiguous(s.attempts) && (s.holder.Some? ==> TailBlock(s.attempts, s.holder.value.id, Begun(s)))
  }

  lemma {:induction false} AttemptExtendsTheBlock(attempts: seq<(nat, nat)>, id: nat, k: nat)
    requires Contiguous(attempts) && TailBlock(attempts, id, k)
    ensures Contiguous(attempts + [(id, k)]) && TailBlock(attempts + [(id, k)], id, k + 1)
  {
  }

  lemma {:induction false} WithoutKeepsDistinct(ids: seq<nat>, id: nat)
    requires forall i, j :: 0 <= i < j < |ids| ==> ids[i] != ids[j]
    ensures var r := Without(ids, id); forall i, j :: 0 <= i < j < |r| ==> r[i] != r[j]
  {
    if ids != [] {
      WithoutKeepsDistinct(ids[1..], id);
      WithoutIsSubset(ids[1..], id);
      var rest := Without(ids[1..], id);
      assert forall j :: 0 <= j < |rest| ==> rest[j] in ids[1..];
    }
  }

  /** What the holder's own steps leave alone. */
  ghost predicate HolderStep(s: State, s': State)
    requires Sound(s) && s.holder.Some?
  {
    && s'.waiting == s.waiting && |s'.tickets| == |s.tickets| && s'.now == s.now
    && (forall i :: 0 <= i < |s.tickets| ==> s'.tickets[i] == s.tickets[i].(released := s'.tickets[i].released))
    && (forall i :: 0 <= i < |s.tickets| && i != s.holder.value.id ==> s'.tickets[i] == s.tickets[i])
    && (s'.holder.Some? ==> s'.holder.value.id == s.holder.value.id && s'.tickets == s.tickets)
    && (s'.holder.None? ==> s'.tickets[s.holder.value.id].released == Some(s.now))
  }

  lemma {:induction false} BeginAndEndAreHolderSteps(s: State, l: Label)
    requires Sound(s) && Enabled(s, l) && (l.Begin? || l.End?)
    ensures HolderStep(s, Next(s, l))
    ensures Next(s, l).attempts == s.attempts + if l.Begin? then [(s.holder.value.id, |s.progress.log|)] else []
  {
  }

  lemma {:induction false} NextKeepsTicketInv(s: State, l: Label)
    requires Sound(s) && Enabled(s, l) && TicketInv(s)
    ensures Sound(Next(s, l)) && TicketInv(Next(s, l))
  {
    NextIsSound(s, l);
    var s' := Next(s, l);
    if l.Begin? || l.End? {
      BeginAndEndAreHolderSteps(s, l);
    } else if l.CancelWaiting? {
      WithoutKeepsDistinct(s.waiting, l.id);
      WithoutIsSubset(s.waiting, l.id);
      assert forall i :: 0 <= i < |s'.waiting| ==> s'.waiting[i] in s.waiting;
    } else if l.Grant? {
      GrantKeepsTicketInv(s);
    }
  }

  lemma {:induction false} GrantKeepsTicketInv(s: State)
    requires Sound(s) && Enabled(s, Grant) && TicketInv(s)
    ensures Sound(Next(s, Grant)) && TicketInv(Next(s, Grant))
  {
    NextIsSound(s, Grant);
    assert forall i :: 0 <= i < |s.waiting| - 1 ==> s.waiting[1..][i] == s.waiting[i + 1];
  }

  lemma {:induction false} HolderStepKeepsOrderInv(s: State, l: Label)
    requires Sound(s) && Enabled(s, l) && OrderInv(s) && (l.Begin? || l.End?)
    ensures Sound(Next(s, l)) && OrderInv(Next(s, l))
  {
    BeginAndEndAreHolderSteps(s, l);
    BegunCountsAttempts(s, l);
    if l.Begin? {
      AttemptExtendsTheBlock(s.attempts, s.holder.value.id, Begun(s));
    } else {
      assert Next(s, l).attempts == s.attempts;
    }
  }

  lemma {:induction false} NextKeepsOrderInv(s: State, l: Label)
    requires Sound(s) && Enabled(s, l) && TicketInv(s) && OrderInv(s)
    ensures Sound(Next(s, l)) && OrderInv(Next(s, l))
  {
    NextIsSound(s, l);
    var s' := Next(s, l);
    if l.Begin? || l.End? {
      HolderStepKeepsOrderInv(s, l);
    } else if l.Grant? {
      assert forall a :: 0 <= a < |s.attempts| ==> s.attempts[a].0 != s.waiting[0];
    } else {
      assert s'.attempts == s.attempts && s'.holder == s.holder && s'.progress == s.progress;
    }
  }

  lemma {:induction false} BegunCountsAttempts(s: State, l: Label)
    requires Sound(s) && Enabled(s, l) && (l.Begin? || l.End?)
    ensures Sound(Next(s, l))
    ensures Next(s, l).holder.Some? ==> Begun(Next(s, l)) == Begun(s) + if l.Begin? then 1 else 0
    ensures l.Begin? ==> Begun(s) == |s.progress.log|
  {
    NextIsSound(s, l);
  }

  /** In every interleaving the attempts of one call form one contiguous block, in chain order. */
  lemma {:induction false} ChainsAreContiguous(lim: Limits, now: int, ls: seq<Label>)
    requires lim.Valid()
    ensures TicketInv(Exec(lim, now, ls)) && OrderInv(Exec(lim, now, ls))
    ensures Contiguous(Exec(lim, now, ls).attempts)
  {
    if ls != [] {
      var s := Exec(lim, now, ls[..|ls| - 1]);
      ChainsAreContiguous(lim, now, ls[..|ls| - 1]);
      if Enabled(s, ls[|ls| - 1]) {
        NextKeepsTicketInv(s, ls[|ls| - 1]);
        NextKeepsOrderInv(s, ls[|ls| - 1]);
      }
    }
  }

  // ----- Bounded holding and waiting -----

  /** The longest a chain can hold the lock: each attempt up to `run_chain`'s deadline for it. */
  function HoldBound(r: Request): nat {
    |r.cs| * PerAttempt(r)
  }

  function SumOfBounds(rs: seq<Request>): nat {
    if rs == [] then 0 else HoldBound(rs[0]) + SumOfBounds(rs[1..])
  }

  /** What is left of the holder's bound. */
  function HolderLeft(s: State): int
    requires Shaped(s)
  {
    match s.holder
    case None => 0
    case Some(h) =>
      var left := |Current(s).cs| - |s.progress.log|;
      match h.stage
      case Between => left * PerAttempt(Current(s))
      case InCall(since, _) => since + PerAttempt(Current(s)) - s.now + (left - 1) * PerAttempt(Current(s))
  }

  /** Bounds of the waiters in front of `id`. */
  function Ahead(tickets: seq<Ticket>, waiting: seq<nat>, id: nat): nat
    requires forall i :: 0 <= i < |waiting| ==> waiting[i] < |tickets|
  {
    if waiting == [] || waiting[0] == id then 0
    else HoldBound(tickets[waiting[0]].request) + Ahead(tickets, waiting[1..], id)
  }

  ghost predicate GrantedInTime(t: Ticket) {
    && (t.granted.Some? ==> t.granted.value - t.arrived <= SumOfBounds(t.behind))
    && (t.released.Some? ==> t.granted.Some? && t.released.value - t.granted.value <= HoldBound(t.request))
  }

  ghost predicate HolderInTime(s: State)
    requires Sound(s) && s.holder.Some?
  {
    var t := s.tickets[s.holder.value.id];
    && t.granted.Some? && t.granted.value <= s.now
    && 0 <= HolderLeft(s) <= t.granted.value + HoldBound(Current(s)) - s.now
    && HolderLeft(s) <= HoldBound(Current(s))
    && (s.holder.value.stage.InCall? ==>
          t.granted.value <= s.holder.value.stage.since <= s.now <= s.holder.value.stage.since + PerAttempt(Current(s)))
  }

  ghost predicate WaiterInTime(s: State, id: nat)
    requires Sound(s) && id < |s.tickets|
  {
    s.now + HolderLeft(s) + Ahead(s.tickets, s.waiting, id) <= s.tickets[id].arrived + SumOfBounds(s.tickets[id].behind)
  }

  ghost predicate WaitInv(s: State)
    requires Sound(s)
  {
    && (forall i :: 0 <= i < |s.tickets| ==> GrantedInTime(s.tickets[i]))
    && (forall id :: id in s.waiting ==> WaiterInTime(s, id))
    && (s.holder.Some? ==> HolderInTime(s))
  }

  lemma {:induction false} AheadDependsOnRequests(t1: seq<Ticket>, t2: seq<Ticket>, waiting: seq<nat>, id: nat)
    requires forall i :: 0 <= i < |waiting| ==> waiting[i] < |t1| && waiting[i] < |t2|
    requires forall i :: 0 <= i < |waiting| ==> t1[waiting[i]].request == t2[waiting[i]].request
    ensures Ahead(t1, waiting, id) == Ahead(t2, waiting, id)
  {
    if waiting != [] {
      AheadDependsOnRequests(t1, t2, waiting[1..], id);
    }
  }

  lemma {:induction false} AheadOfTheLast(tickets: seq<Ticket>, waiting: seq<nat>, id: nat)
    requires forall i :: 0 <= i < |waiting| ==> waiting[i] < |tickets|
    requires id < |tickets|
    ensures id !in waiting ==> Ahead(tickets, waiting + [id], id) == SumOfBounds(RequestsOf(tickets, waiting))
    ensures forall other :: other in waiting ==> Ahead(tickets, waiting + [id], other) == Ahead(tickets, waiting, other)
  {
    if waiting != [] {
      assert (waiting + [id])[1..] == waiting[1..] + [id];
      assert RequestsOf(tickets, waiting)[1..] == RequestsOf(tickets, waiting[1..]);
      AheadOfTheLast(tickets, waiting[1..], id);
    }
  }

  lemma {:induction false} CancellingMovesUp(tickets: seq<Ticket>, waiting: seq<nat>, gone: nat, id: nat)
    requires forall i :: 0 <= i < |waiting| ==> waiting[i] < |tickets|
    requires id != gone
    ensures forall i :: 0 <= i < |Without(waiting, gone)| ==> Without(waiting, gone)[i] < |tickets|
    ensures Ahead(tickets, Without(waiting, gone), id) <= Ahead(tickets, waiting, id)
  {
    if waiting != [] {
      CancellingMovesUp(tickets, waiting[1..], gone, id);
      var rest := Without(waiting[1..], gone);
      if waiting[0] != gone {
        assert Without(waiting, gone)[1..] == rest;
      } else {
        assert Without(waiting, gone) == rest;
      }
    }
  }

  // ----- Cancelled waiters -----

  /** `id` has left the queue without ever holding the lock. */
  ghost predicate Gone(s: State, id: nat)
    requires Sound(s)
  {
    && id < |s.tickets| && s.tickets[id].granted == None && id !in s.waiting
    && (s.holder.Some? ==> s.holder.value.id != id)
  }

  /** A caller cancelled while waiting never gets the lock, whatever happens afterwards. */
  lemma {:induction false} CancelledNeverRuns(lim: Limits, now: int, ls: seq<Label>, id: nat, later: seq<Label>)
    requires lim.Valid() && Enabled(Exec(lim, now, ls), CancelWaiting(id))
    ensures Gone(Exec(lim, now, ls + [CancelWaiting(id)] + later), id)
  {
    var gone := ls + [CancelWaiting(id)];
    if later == [] {
      assert gone + later == gone && gone[..|ls|] == ls;
      ChainsAreContiguous(lim, now, ls);
      var s := Exec(lim, now, ls);
      WithoutIsSubset(s.waiting, id);
      var i :| 0 <= i < |s.waiting| && s.waiting[i] == id;
      assert s.tickets[s.waiting[i]].granted == None;
    } else {
      var init := later[..|later| - 1];
      assert (gone + later)[..|gone + later| - 1] == gone + init;
      CancelledNeverRuns(lim, now, ls, id, init);
      var (s, l) := (Exec(lim, now, gone + init), later[|later| - 1]);
      if Enabled(s, l) {
        GoneStaysGone(s, l, id);
      }
    }
  }

  lemma {:induction false} GoneStaysGone(s: State, l: Label, id: nat)
    requires Sound(s) && Enabled(s, l) && Gone(s, id)
    ensures Sound(Next(s, l)) && Gone(Next(s, l), id)
  {
    NextIsSound(s, l);
    if l.CancelWaiting? {
      WithoutIsSubset(s.waiting, l.id);
    } else if l.Begin? || l.End? {
      BeginAndEndAreHolderSteps(s, l);
    }
  }

  lemma {:induction false} TickKeepsWaitInv(s: State, d: nat)
    requires Sound(s) && Enabled(s, Tick(d)) && WaitInv(s)
    ensures Sound(Next(s, Tick(d))) && WaitInv(Next(s, Tick(d)))
  {
    NextIsSound(s, Tick(d));
    var s' := Next(s, Tick(d));
    if s.holder.Some? {
      OneAttemptLess(|Current(s).cs| - |s.progress.log|, PerAttempt(Current(s)));
      assert Current(s') == Current(s) && HolderLeft(s') == HolderLeft(s) - d;
      forall id | id in s.waiting
        ensures WaiterInTime(s', id)
      {
        assert WaiterInTime(s, id);
      }
    }
  }

  lemma {:induction false} NewcomerInTime(s: State, r: Request)
    requires Sound(s) && Enabled(s, Arrive(r)) && WaitInv(s)
    ensures Sound(Next(s, Arrive(r))) && WaiterInTime(Next(s, Arrive(r)), |s.tickets|)
  {
    NextIsSound(s, Arrive(r));
    var s' := Next(s, Arrive(r));
    var id := |s.tickets|;
    assert HolderLeft(s') == HolderLeft(s);
    AheadOfTheLast(s'.tickets, s.waiting, id);
    assert RequestsOf(s'.tickets, s.waiting) == RequestsOf(s.tickets, s.waiting);
    var behind := s'.tickets[id].behind;
    if s.holder.Some? {
      assert behind[0] == Current(s) && behind[1..] == RequestsOf(s.tickets, s.waiting);
    } else {
      assert behind == RequestsOf(s.tickets, s.waiting);
    }
  }

  lemma {:induction false} ArriveKeepsWaitInv(s: State, r: Request)
    requires Sound(s) && Enabled(s, Arrive(r)) && WaitInv(s)
    ensures Sound(Next(s, Arrive(r))) && WaitInv(Next(s, Arrive(r)))
  {
    var s' := Next(s, Arrive(r));
    NewcomerInTime(s, r);
    AheadOfTheLast(s'.tickets, s.waiting, |s.tickets|);
    assert HolderLeft(s') == HolderLeft(s);
    forall w | w in s.waiting
      ensures WaiterInTime(s', w)
    {
      assert WaiterInTime(s, w);
      AheadDependsOnRequests(s.tickets, s'.tickets, s.waiting, w);
    }
  }

  lemma {:induction false} CancelKeepsWaitInv(s: State, gone: nat)
    requires Sound(s) && Enabled(s, CancelWaiting(gone)) && WaitInv(s)
    ensures Sound(Next(s, CancelWaiting(gone))) && WaitInv(Next(s, CancelWaiting(gone)))
  {
    NextIsSound(s, CancelWaiting(gone));
    var s' := Next(s, CancelWaiting(gone));
    WithoutIsSubset(s.waiting, gone);
    assert HolderLeft(s') == HolderLeft(s);
    forall w | w in s'.waiting
      ensures WaiterInTime(s', w)
    {
      assert WaiterInTime(s, w);
      CancellingMovesUp(s.tickets, s.waiting, gone, w);
    }
  }

  lemma {:induction false} GrantKeepsWaitInv(s: State)
    requires Sound(s) && Enabled(s, Grant) && TicketInv(s) && WaitInv(s)
    ensures Sound(Next(s, Grant)) && WaitInv(Next(s, Grant))
  {
    NextIsSound(s, Grant);
    var s' := Next(s, Grant);
    var id := s.waiting[0];
    assert WaiterInTime(s, id);
    assert HolderLeft(s') == HoldBound(Current(s')) >= 0;
    forall w | w in s'.waiting
      ensures WaiterInTime(s', w)
    {
      assert w != id && w in s.waiting;
      assert WaiterInTime(s, w);
      AheadDependsOnRequests(s.tickets, s'.tickets, s'.waiting, w);
    }
  }

  /** A holder's step that uses up no more than its own bound delays nobody. */
  lemma {:induction false} HolderStepKeepsWaitInv(s: State, s': State)
    requires Sound(s) && Sound(s') && s.holder.Some? && WaitInv(s) && HolderStep(s, s')
    requires HolderLeft(s') <= HolderLeft(s)
    requires s'.holder.Some? ==>
               0 <= HolderLeft(s') && (s'.holder.value.stage.InCall? ==> s'.holder.value.stage.since == s.now)
    ensures WaitInv(s')
  {
    forall w | w in s'.waiting
      ensures WaiterInTime(s', w)
    {
      assert WaiterInTime(s, w);
      AheadDependsOnRequests(s.tickets, s'.tickets, s.waiting, w);
    }
    forall i | 0 <= i < |s'.tickets|
      ensures GrantedInTime(s'.tickets[i])
    {
      assert GrantedInTime(s.tickets[i]);
    }
  }

  lemma {:induction false} OneAttemptLess(left: int, per: nat)
    requires left >= 1
    ensures left * per == (left - 1) * per + per && (left - 1) * per >= 0
  {
  }

  lemma {:induction false} HolderStepUsesItsBound(s: State, l: Label)
    requires Sound(s) && Enabled(s, l) && (l.Begin? || l.End?) && WaitInv(s)
    ensures Sound(Next(s, l)) && HolderLeft(Next(s, l)) <= HolderLeft(s)
    ensures Next(s, l).holder.Some? ==> 0 <= HolderLeft(Next(s, l))
    ensures var h := Next(s, l).holder; h.Some? && h.value.stage.InCall? ==> h.value.stage.since == s.now
  {
    NextIsSound(s, l);
    var (s', left, per) := (Next(s, l), |Current(s).cs| - |s.progress.log|, PerAttempt(Current(s)));
    OneAttemptLess(left, per);
    if s'.holder.Some? {
      assert Current(s') == Current(s);
      assert |s'.progress.log| == |s.progress.log| + if s'.holder.value.stage.InCall? then 0 else 1;
    }
  }

  lemma {:induction false} NextKeepsWaitInv(s: State, l: Label)
    requires Sound(s) && Enabled(s, l) && TicketInv(s) && WaitInv(s)
    ensures Sound(Next(s, l)) && WaitInv(Next(s, l))
  {
    match l
    case Tick(d) => TickKeepsWaitInv(s, d);
    case Arrive(r) => ArriveKeepsWaitInv(s, r);
    case CancelWaiting(id) => CancelKeepsWaitInv(s, id);
    case Grant => GrantKeepsWaitInv(s);
    case _ =>
      BeginAndEndAreHolderSteps(s, l);
      HolderStepUsesItsBound(s, l);
      HolderStepKeepsWaitInv(s, Next(s, l));
  }

  /**
   * In every interleaving a call gets the lock within the sum of the bounds of the calls it arrived behind,
   * and gives it back within its own; its attempts' clocks start when they do.
   */
  lemma {:induction false} WaitingIsBounded(lim: Limits, now: int, ls: seq<Label>)
    requires lim.Valid()
    ensures WaitInv(Exec(lim, now, ls))
    ensures forall t :: t in Exec(lim, now, ls).tickets && t.released.Some? ==>
              t.granted.Some? && t.released.value - t.granted.value <= |t.request.cs| * (t.request.timeout + 5)
    ensures forall t :: t in Exec(lim, now, ls).tickets ==> GrantedInTime(t)
  {
    if ls != [] {
      var s := Exec(lim, now, ls[..|ls| - 1]);
      WaitingIsBounded(lim, now, ls[..|ls| - 1]);
      ChainsAreContiguous(lim, now, ls[..|ls| - 1]);
      if Enabled(s, ls[|ls| - 1]) {
        NextKeepsWaitInv(s, ls[|ls| - 1]);
      }
    }
  }

  lemma {:induction false} SumOfEqualBounds(rs: seq<Request>, bound: nat)
    requires forall r :: r in rs ==> HoldBound(r) <= bound
    ensures SumOfBounds(rs) <= |rs| * bound
  {
    if rs != [] {
      SumOfEqualBounds(rs[1..], bound);
      assert rs[0] in rs;
      assert |rs| * bound == |rs[1..]| * bound + bound;
    }
  }

  lemma {:induction false} ProductGrows(a: nat, b: nat, x: nat, y: nat)
    requires a <= b && x <= y
    ensures a * x <= b * y
  {
    assert b * y == a * y + (b - a) * y;
    assert a * y == a * x + a * (y - x);
  }

  /**
   * So where no chain in front has more than `n` candidates or a longer timeout, a caller waits at most the number
   * of those calls times n * (timeout + 5).
   */
  lemma {:induction false} WaitAmongEquals(lim: Limits, now: int, ls: seq<Label>, id: nat, n: nat, timeout: nat)
    requires lim.Valid()
    requires var tickets := Exec(lim, now, ls).tickets;
             && id < |tickets| && tickets[id].granted.Some?
             && forall r :: r in tickets[id].behind ==> |r.cs| <= n && r.timeout <= timeout
    ensures var t := Exec(lim, now, ls).tickets[id];
            t.granted.value - t.arrived <= |t.behind| * (n * (timeout + 5))
  {
    WaitingIsBounded(lim, now, ls);
    var t := Exec(lim, now, ls).tickets[id];
    assert t in Exec(lim, now, ls).tickets && GrantedInTime(t);
    SumAmongEquals(t.behind, n, timeout);
  }

  lemma {:induction false} SumAmongEquals(rs: seq<Request>, n: nat, timeout: nat)
    requires forall r :: r in rs ==> |r.cs| <= n && r.timeout <= timeout
    ensures SumOfBounds(rs) <= |rs| * (n * (timeout + 5))
  {
    forall r | r in rs
      ensures HoldBound(r) <= n * (timeout + 5)
    {
      ProductGrows(|r.cs|, n, r.timeout + 5, timeout + 5);
    }
    SumOfEqualBounds(rs, n * (timeout + 5));
  }

  /** A caller arrives behind the call that holds the lock and those that wait for it, and behind nobody else. */
  lemma {:induction false} ArrivesBehind(lim: Limits, now: int, ls: seq<Label>, r: Request)
    requires lim.Valid() && r.cs != []
    ensures var (s, s') := (Exec(lim, now, ls), Exec(lim, now, ls + [Arrive(r)]));
            && |s'.tickets| == |s.tickets| + 1
            && var (t, h) := (s'.tickets[|s.tickets|], if s.holder.Some? then 1 else 0);
               && t.request == r && t.arrived == s.now && t.granted == None
               && |t.behind| == h + |s.waiting|
               && (s.holder.Some? ==> t.behind[0] == s.tickets[s.holder.value.id].request)
               && (forall i :: 0 <= i < |s.waiting| ==> t.behind[h + i] == s.tickets[s.waiting[i]].request)
  {
    assert (ls + [Arrive(r)])[..|ls|] == ls;
  }
}
