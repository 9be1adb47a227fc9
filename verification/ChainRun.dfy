/**
 * One delegation: `delegate/chain.py`'s `execute_chain`, the loop of `delegate/queue.py`'s `run_chain`, and
 * the retry inside `delegate/local_model.py`'s `delegate`. The candidate models are an oracle.
 */
module ChainRun {
  import opened Common
  import opened Cooldown
  import Chains

  type Candidate = Chains.Candidate

  /**
   * Exceptions as they are seen inside an attempt. `OuterDeadline` is the cancellation sent by `run_chain`'s own
   * timeout.
   */
  datatype Exn =
    | Unreachable
    | RateLimited(retryAfter: Option<string>)
    | ApiError
    | Malformed
    | InCooldown
    | TimedOut
    | OuterDeadline
    | CallerCancelled
    | Foreign

  predicate IsDelegateError(e: Exn) {
    e.Unreachable? || e.RateLimited? || e.ApiError? || e.Malformed? || e.InCooldown?
  }

  /** `_ADVANCE_ON`. */
  predicate Advances(e: Exn) {
    IsDelegateError(e) || e.TimedOut?
  }

  /** The except clause around the delegate call. */
  predicate Recorded(e: Exn) {
    IsDelegateError(e) || e.TimedOut? || e.OuterDeadline? || e.CallerCancelled?
  }

  /** `asyncio.wait_for` turns the cancellation it sent into a timeout at `run_chain`'s call site. */
  function Surfaced(e: Exn): Exn {
    if e.OuterDeadline? then TimedOut else e
  }

  function ClassName(e: Exn): string {
    match e
    case Unreachable => "DelegateUnreachableError"
    case RateLimited(_) => "DelegateRateLimitedError"
    case ApiError => "DelegateAPIError"
    case Malformed => "DelegateMalformedResponseError"
    case InCooldown => "CandidateCooldownError"
    case TimedOut => "TimeoutError"
    case OuterDeadline => "CancelledError"
    case CallerCancelled => "CancelledError"
    case Foreign => "Exception"
  }

  // ----- delegate(): one retry against the same candidate -----

  datatype Reply = Answer | Garbled | Raises(e: Exn)

  /** How the environment answers one `delegate()` call: the context lookup, then up to two completions. */
  datatype CallEnv = CallEnv(context: Option<Exn>, first: Reply, second: Reply)

  predicate IsMalformed(r: Reply) {
    r.Garbled? || r == Raises(Malformed)
  }

  function CallOutcome(env: CallEnv): Option<Exn> {
    if env.context.Some? then env.context
    else
      var decisive := if IsMalformed(env.first) then env.second else env.first;
      if decisive.Answer? then None else if IsMalformed(decisive) then Some(Malformed) else Some(decisive.e)
  }

  function Completions(env: CallEnv): nat {
    if env.context.Some? then 0 else if IsMalformed(env.first) then 2 else 1
  }

  method Delegate(env: CallEnv) returns (r: Option<Exn>, completions: nat)
    ensures r == CallOutcome(env) && completions == Completions(env)
    ensures completions <= 2
    ensures completions == 2 <==> env.context == None && IsMalformed(env.first)
    ensures r == None <==> env.context == None && (env.first.Answer? || (IsMalformed(env.first) && env.second.Answer?))
    ensures env.context.Some? ==> r == env.context
    ensures env.context == None && env.first.Raises? && env.first.e != Malformed ==> r == Some(env.first.e)
    ensures env.context == None && (env.first.Garbled? || env.first == Raises(Malformed)) ==>
              match env.second
              case Answer => r == None
              case Garbled => r == Some(Malformed)
              case Raises(e) => r == Some(e)
  {
    completions := 0;
    if env.context.Some? {
      return env.context, completions;
    }
    var parsed, reply := false, env.first;
    completions := completions + 1;
    if reply.Raises? && reply.e != Malformed {
      return Some(reply.e), completions;
    }
    parsed := reply.Answer?;
    if !parsed {
      reply := env.second;
      completions := completions + 1;
      if reply.Raises? && reply.e != Malformed {
        return Some(reply.e), completions;
      }
      parsed := reply.Answer?;
    }
    r := if parsed then None else Some(Malformed);
  }

  // ----- One attempt -----

  datatype SkipRecord = SkipRecord(candidate: string, error: string, retryAfter: Option<string>)

  /** One attempt's environment: clock readings, the preflight verdict, what the client factory raises, the call. */
  datatype AttemptEnv = AttemptEnv(checkAt: int, fits: bool, client: Option<Exn>, call: CallEnv, endAt: int)

  /** How an attempt went. */
  datatype Disposition = Cooled | Refused | NoClient(e: Exn) | Called(r: Option<Exn>, completions: nat)

  function Error(d: Disposition): Option<Exn> {
    match d
    case Cooled => Some(InCooldown)
    case Refused => Some(Unreachable)
    case NoClient(e) => Some(e)
    case Called(r, _) => r
  }

  function RetryAfter(e: Exn): Option<string> {
    if e.RateLimited? then e.retryAfter else None
  }

  /** The skip record an attempt leaves, if any: the client factory runs outside the try block. */
  function SkipOf(name: string, d: Disposition): (r: seq<SkipRecord>)
    ensures |r| <= 1 && (r != [] ==> r[0].candidate == name)
  {
    match d
    case Cooled => [SkipRecord(name, ClassName(InCooldown), None)]
    case Refused => [SkipRecord(name, ClassName(Unreachable), None)]
    case NoClient(_) => []
    case Called(None, _) => []
    case Called(Some(e), _) => if Recorded(e) then [SkipRecord(name, ClassName(e), RetryAfter(e))] else []
  }

  function CallEvents(k: Key, r: Option<Exn>, at: int): seq<Event> {
    match r
    case None => [Success(k, at)]
    case Some(e) => if Recorded(e) then [Failure(k, at)] else []
  }

  datatype Outcome = Served(j: nat) | Exhausted(last: Exn) | Raised(e: Exn)

  datatype Status = Running | Ended(outcome: Outcome)

  /** The shared store (and its history) together with the lists one delegation accumulates. */
  datatype Progress = Progress(
    health: HealthMap, trace: seq<Event>,
    attempted: seq<string>, skips: seq<SkipRecord>, log: seq<Disposition>, status: Status)

  function Start(health: HealthMap, trace: seq<Event>): Progress {
    Progress(health, trace, [], [], [], Running)
  }

  /** The synchronous prelude of an attempt; `None` means the delegate call is reached. */
  function Begin(lim: Limits, task: string, c: Candidate, p: Progress, checkAt: int, fits: bool, client: Option<Exn>)
    : (Progress, Option<Disposition>)
  {
    var check := Check(Key(task, c.name), checkAt);
    var p' := p.(attempted := p.attempted + [c.name],
                 health := Apply(lim, p.health, check),
                 trace := p.trace + [check]);
    var d :=
      if Cooling(At(p.health, check.key), checkAt) then Some(Cooled)
      else if c.local && !fits then Some(Refused)
      else if client.Some? then Some(NoClient(client.value))
      else None;
    (p', d)
  }

  /** Bookkeeping once the attempt's disposition is known, and what it means for the chain. */
  function Conclude(lim: Limits, task: string, c: Candidate, n: nat, p: Progress, d: Disposition, at: int): Progress {
    var events := if d.Called? then CallEvents(Key(task, c.name), d.r, at) else [];
    var log := p.log + [d];
    var status :=
      match Error(d)
      case None => Ended(Served(|p.log|))
      case Some(e) =>
        if !Advances(Surfaced(e)) then Ended(Raised(Surfaced(e)))
        else if |log| == n then Ended(Exhausted(Surfaced(e)))
        else Running;
    Progress(if events == [] then p.health else Apply(lim, p.health, events[0]), p.trace + events,
             p.attempted, p.skips + SkipOf(c.name, d), log, status)
  }

  function AttemptOnce(lim: Limits, task: string, c: Candidate, n: nat, p: Progress, env: AttemptEnv): Progress {
    var (p', early) := Begin(lim, task, c, p, env.checkAt, env.fits, env.client);
    var d := if early.Some? then early.value else Called(CallOutcome(env.call), Completions(env.call));
    Conclude(lim, task, c, n, p', d, env.endAt)
  }

  // ----- The whole chain -----

  /** Attempts in order until the chain has ended. */
  function Run(lim: Limits, task: string, cs: seq<Candidate>, p0: Progress, envs: seq<AttemptEnv>): (p: Progress)
    requires p0.status == Running && p0.log == [] && cs != []
    ensures |p.log| <= |cs| && (p.status.Running? ==> |p.log| < |cs| && |p.log| == |envs|)
  {
    if envs == [] then p0
    else
      var p := Run(lim, task, cs, p0, envs[..|envs| - 1]);
      if p.status.Ended? then p else AttemptOnce(lim, task, cs[|p.log|], |cs|, p, envs[|envs| - 1])
  }

  lemma {:induction false} EndedStays(lim: Limits, task: string, cs: seq<Candidate>, p0: Progress,
                                      envs: seq<AttemptEnv>, i: nat)
    requires p0.status == Running && p0.log == [] && cs != [] && i <= |envs|
    requires Run(lim, task, cs, p0, envs[..i]).status.Ended?
    ensures Run(lim, task, cs, p0, envs) == Run(lim, task, cs, p0, envs[..i])
    decreases |envs|
  {
    if i < |envs| {
      assert envs[..|envs| - 1][..i] == envs[..i];
      EndedStays(lim, task, cs, p0, envs[..|envs| - 1], i);
    } else {
      assert envs[..i] == envs;
    }
  }

  lemma {:induction false} OneMoreEnv(lim: Limits, task: string, cs: seq<Candidate>, p0: Progress,
                                      envs: seq<AttemptEnv>, i: nat)
    requires p0.status == Running && p0.log == [] && cs != [] && i < |envs|
    requires Run(lim, task, cs, p0, envs[..i]).status.Running?
    ensures i < |cs|
    ensures Run(lim, task, cs, p0, envs[..i + 1])
            == AttemptOnce(lim, task, cs[i], |cs|, Run(lim, task, cs, p0, envs[..i]), envs[i])
  {
    assert envs[..i + 1][..i] == envs[..i];
  }

  /** The lists and the store one `execute_chain` call closes over. */
  class ChainCall {
    const store: CandidateCooldownStore
    const taskType: string
    var attempted: seq<string>
    var skips: seq<SkipRecord>
    ghost var log: seq<Disposition>
    ghost var trace: seq<Event>

    constructor (store: CandidateCooldownStore, taskType: string, ghost trace: seq<Event>)
      ensures this.store == store && this.taskType == taskType
      ensures attempted == [] && skips == [] && log == [] && this.trace == trace
    {
      this.store, this.taskType := store, taskType;
      attempted, skips := [], [];
      log, this.trace := [], trace;
    }

    ghost function Now(status: Status): Progress
      reads this, store
    {
      Progress(store.health, trace, attempted, skips, log, status)
    }

    /** `_attempt`: check the breaker, preflight, call, record. */
    method Attempt(c: Candidate, ghost n: nat, env: AttemptEnv) returns (error: Option<Exn>)
      modifies this, store
      ensures var p := AttemptOnce(store.limits, taskType, c, n, old(Now(Running)), env);
              Now(p.status) == p && error == Error(p.log[|p.log| - 1])
    {
      attempted := attempted + [c.name];
      var key := Key(taskType, c.name);
      trace := trace + [Check(key, env.checkAt)];
      var cooling := store.IsInCooldown(taskType, c.name, env.checkAt);
      if cooling {
        skips := skips + [SkipRecord(c.name, ClassName(InCooldown), None)];
        log := log + [Cooled];
        return Some(InCooldown);
      }
      if c.local && !env.fits {
        skips := skips + [SkipRecord(c.name, ClassName(Unreachable), None)];
        log := log + [Refused];
        return Some(Unreachable);
      }
      if env.client.Some? {
        log := log + [NoClient(env.client.value)];
        return env.client;
      }
      var completions;
      error, completions := Delegate(env.call);
      log := log + [Called(error, completions)];
      trace := trace + CallEvents(key, error, env.endAt);
      if error == None {
        store.RecordSuccess(taskType, c.name, env.endAt);
      } else if Recorded(error.value) {
        store.RecordFailure(taskType, c.name, env.endAt);
        skips := skips + [SkipRecord(c.name, ClassName(error.value), RetryAfter(error.value))];
      }
    }
  }

  /** The single lock, and `run_chain`'s loop under one hold of it. */
  class DelegateQueue {
    var locked: bool

    constructor ()
      ensures !locked
    {
      locked := false;
    }

    method RunChain(call: ChainCall, cs: seq<Candidate>, envs: seq<AttemptEnv>) returns (outcome: Outcome)
      requires !locked && |envs| == |cs|
      requires call.log == [] && call.attempted == [] && call.skips == []
      modifies this, call, call.store
      ensures !locked
      ensures cs == [] ==> outcome == Raised(Foreign) && call.Now(Running) == old(call.Now(Running))
      ensures cs != [] ==>
                call.Now(Ended(outcome))
                == Run(call.store.limits, call.taskType, cs, Start(old(call.store.health), old(call.trace)), envs)
    {
      if cs == [] {
        return Raised(Foreign);
      }
      locked := true;
      ghost var start := call.Now(Running);
      var last: Option<Exn> := None;
      for i := 0 to |cs|
        invariant locked
        invariant i == 0 ==> last == None
        invariant i > 0 ==> last.Some?
        invariant Run(call.store.limits, call.taskType, cs, start, envs[..i])
                  == call.Now(if i < |cs| then Running else Ended(Exhausted(last.value)))
      {
        var error := call.Attempt(cs[i], |cs|, envs[i]);
        OneMoreEnv(call.store.limits, call.taskType, cs, start, envs, i);
        if error == None {
          EndedStays(call.store.limits, call.taskType, cs, start, envs, i + 1);
          locked := false;
          return Served(i);
        }
        var seen := Surfaced(error.value);
        if !Advances(seen) {
          EndedStays(call.store.limits, call.taskType, cs, start, envs, i + 1);
          locked := false;
          return Raised(seen);
        }
        last := Some(seen);
      }
      assert envs[..|cs|] == envs;
      locked := false;
      outcome := Exhausted(last.value);
    }
  }

  datatype ChainResult =
    | Delegated(j: nat)
    | NoCandidatesError
    | ChainExhaustedError(attempted: seq<string>, skips: seq<SkipRecord>, last: Exn)
    | Propagated(e: Exn)

  function ResultOf(p: Progress): ChainResult
    requires p.status.Ended?
  {
    match p.status.outcome
    case Served(j) => Delegated(j)
    case Exhausted(e) => ChainExhaustedError(p.attempted, p.skips, e)
    case Raised(e) => Propagated(e)
  }

  method ExecuteChain(taskType: string, config: Chains.ChainsConfig, registry: Chains.Registry, queue: DelegateQueue,
                      store: CandidateCooldownStore, envs: seq<AttemptEnv>, ghost trace: seq<Event>)
    returns (result: ChainResult)
    requires !queue.locked && |envs| == |Chains.ResolveChain(taskType, config, registry)|
    modifies queue, store
    ensures !queue.locked
    ensures var cs := Chains.ResolveChain(taskType, config, registry);
            if cs == [] then result == NoCandidatesError && store.health == old(store.health)
            else
              var p := Run(store.limits, taskType, cs, Start(old(store.health), trace), envs);
              p.status.Ended? && result == ResultOf(p) && store.health == p.health
    ensures var cs := Chains.ResolveChain(taskType, config, registry);
            var m := old(store.health);
            && (result.NoCandidatesError? <==> cs == [])
            && (forall j :: result == Delegated(j) <==> ServedAt(store.limits, taskType, cs, m, envs, j))
            && (forall e :: result == Propagated(e)
                  <==> exists j :: RaisedAt(store.limits, taskType, cs, m, envs, j, e))
            && (result.ChainExhaustedError? ==>
                  && AllPassedOn(store.limits, taskType, cs, m, envs, |cs|)
                  && result.attempted == Chains.Names(cs)
                  && result.skips == RecordsOfTurns(store.limits, taskType, cs, m, envs, |cs|))
  {
    var cs := Chains.ResolveChain(taskType, config, registry);
    if cs == [] {
      return NoCandidatesError;
    }
    OutcomeIff(store.limits, taskType, cs, store.health, trace, envs);
    RecordsFollowTheInputs(store.limits, taskType, cs, store.health, trace, envs);
    ExhaustedTriesAll(store.limits, taskType, cs, store.health, trace, envs);
    var call := new ChainCall(store, taskType, trace);
    var outcome := queue.RunChain(call, cs, envs);
    match outcome
    case Served(j) => result := Delegated(j);
    case Exhausted(e) => result := ChainExhaustedError(call.attempted, call.skips, e);
    case Raised(e) => result := Propagated(e);
  }

  // ----- What a run leaves behind -----

  /** The attempt failed, and the next candidate is tried. */
  predicate Advanced(d: Disposition) {
    Error(d).Some? && Error(d).value != CallerCancelled && Error(d).value != Foreign
  }

  /** The chain's own deadline reaches its caller as a timeout. */
  function Reported(d: Disposition): Exn
    requires Error(d).Some?
  {
    if Error(d).value == OuterDeadline then TimedOut else Error(d).value
  }

  function SkipsOf(cs: seq<Candidate>, log: seq<Disposition>): seq<SkipRecord>
    requires |log| <= |cs|
  {
    if log == [] then []
    else SkipsOf(cs, log[..|log| - 1]) + SkipOf(cs[|log| - 1].name, log[|log| - 1])
  }

  /** Every attempt before the last one advanced; the last one decides how the chain stands. */
  ghost predicate Trichotomy(n: nat, log: seq<Disposition>, status: Status) {
    && (forall i :: 0 <= i < |log| - 1 ==> Advanced(log[i]))
    && match status
       case Running => |log| < n && (log != [] ==> Advanced(log[|log| - 1]))
       case Ended(Served(j)) => |log| == j + 1 && Error(log[j]) == None
       case Ended(Exhausted(e)) => |log| == n > 0 && Advanced(log[n - 1]) && e == Reported(log[n - 1])
       case Ended(Raised(e)) =>
         && log != [] && Error(log[|log| - 1]).Some?
         && !Advanced(log[|log| - 1]) && e == Reported(log[|log| - 1])
  }

  /** Every run keeps the trichotomy. */
  lemma {:induction false} RunTrichotomy(lim: Limits, task: string, cs: seq<Candidate>, m: HealthMap,
                                         tr: seq<Event>, envs: seq<AttemptEnv>)
    requires cs != []
    ensures var p := Run(lim, task, cs, Start(m, tr), envs); Trichotomy(|cs|, p.log, p.status)
  {
    if envs != [] {
      RunTrichotomy(lim, task, cs, m, tr, envs[..|envs| - 1]);
    }
  }

  /**
   * Bookkeeping of any run: names attempted are a prefix of the chain in order, skip records are those of
   * the failed attempts in order, and buckets of candidates not attempted are untouched.
   */
  lemma {:induction false} ChainBookkeeping(lim: Limits, task: string, cs: seq<Candidate>, m: HealthMap,
                                            tr: seq<Event>, envs: seq<AttemptEnv>)
    requires cs != []
    ensures var p := Run(lim, task, cs, Start(m, tr), envs);
            && p.attempted == Chains.Names(cs)[..|p.log|]
            && p.skips == SkipsOf(cs, p.log)
            && tr <= p.trace
            && (forall k: Key :: !(k.taskType == task && k.name in p.attempted) ==> At(p.health, k) == At(m, k))
  {
    if envs != [] {
      var p := Run(lim, task, cs, Start(m, tr), envs[..|envs| - 1]);
      ChainBookkeeping(lim, task, cs, m, tr, envs[..|envs| - 1]);
      if p.status.Running? {
        AttemptKeepsBookkeeping(lim, task, cs, m, p, envs[|envs| - 1]);
      }
    }
  }

  lemma {:induction false} AttemptKeepsBookkeeping(lim: Limits, task: string, cs: seq<Candidate>, m: HealthMap,
                                                   p: Progress, env: AttemptEnv)
    requires |p.log| < |cs| && p.attempted == Chains.Names(cs)[..|p.log|] && p.skips == SkipsOf(cs, p.log)
    requires forall k: Key :: !(k.taskType == task && k.name in p.attempted) ==> At(p.health, k) == At(m, k)
    ensures var q := AttemptOnce(lim, task, cs[|p.log|], |cs|, p, env);
            && |q.log| == |p.log| + 1 && q.attempted == Chains.Names(cs)[..|q.log|] && q.skips == SkipsOf(cs, q.log)
            && p.trace <= q.trace
            && (forall k: Key :: !(k.taskType == task && k.name in q.attempted) ==> At(q.health, k) == At(m, k))
  {
    var c := cs[|p.log|];
    var q := AttemptOnce(lim, task, c, |cs|, p, env);
    AttemptBookkeeping(lim, task, c, |cs|, p, env);
    assert q.log[..|q.log| - 1] == p.log;
    forall k: Key | !(k.taskType == task && k.name in q.attempted)
      ensures At(q.health, k) == At(m, k)
    {
      assert q.attempted == p.attempted + [c.name];
      assert k != Key(task, c.name);
    }
  }

  lemma {:induction false} AttemptBookkeeping(lim: Limits, task: string, c: Candidate, n: nat, p: Progress,
                                              env: AttemptEnv)
    ensures var q := AttemptOnce(lim, task, c, n, p, env);
            && |q.log| == |p.log| + 1 && q.log[..|p.log|] == p.log
            && q.attempted == p.attempted + [c.name]
            && q.skips == p.skips + SkipOf(c.name, q.log[|p.log|])
            && p.trace <= q.trace
            && (forall k: Key :: k != Key(task, c.name) ==> At(q.health, k) == At(p.health, k))
  {
  }

  lemma {:induction false} SkipsAreAllThereIff(cs: seq<Candidate>, log: seq<Disposition>)
    requires |log| <= |cs|
    ensures |SkipsOf(cs, log)| <= |log|
    ensures |SkipsOf(cs, log)| == |log| <==> forall i :: 0 <= i < |log| ==> SkipOf(cs[i].name, log[i]) != []
  {
    if log != [] {
      var n := |log| - 1;
      SkipsAreAllThereIff(cs, log[..n]);
      assert (forall i :: 0 <= i < n ==> SkipOf(cs[i].name, log[..n][i]) != [])
             <==> forall i :: 0 <= i < n ==> SkipOf(cs[i].name, log[i]) != [];
    }
  }

  lemma {:induction false} SkipsThatAreAllThereAlign(cs: seq<Candidate>, log: seq<Disposition>, i: nat)
    requires |log| <= |cs| && i < |log| == |SkipsOf(cs, log)|
    ensures SkipsOf(cs, log)[i].candidate == cs[i].name
    decreases |log|
  {
    var n := |log| - 1;
    SkipsAreAllThereIff(cs, log[..n]);
    if i < n {
      SkipsThatAreAllThereAlign(cs, log[..n], i);
    }
  }

  /** Over attempts that advanced, the only ones that leave no record died in the client factory. */
  lemma {:induction false} AdvancedSkipsAlignIff(cs: seq<Candidate>, log: seq<Disposition>)
    requires |log| <= |cs| && forall i :: 0 <= i < |log| ==> Advanced(log[i])
    ensures |SkipsOf(cs, log)| == |log| <==> forall i :: 0 <= i < |log| ==> !log[i].NoClient?
    ensures |SkipsOf(cs, log)| == |log| ==> forall i :: 0 <= i < |log| ==> SkipsOf(cs, log)[i].candidate == cs[i].name
  {
    SkipsAreAllThereIff(cs, log);
    forall i | 0 <= i < |log|
      ensures SkipOf(cs[i].name, log[i]) != [] <==> !log[i].NoClient?
    {
      assert Advanced(log[i]);
    }
    forall i | 0 <= i < |log| == |SkipsOf(cs, log)|
      ensures SkipsOf(cs, log)[i].candidate == cs[i].name
    {
      SkipsThatAreAllThereAlign(cs, log, i);
    }
  }

  // ----- The turns of a chain, from the inputs alone -----

  /** The bucket is in its cooldown. */
  predicate Shut(b: Health, now: int) {
    b.expiry.Some? && now < b.expiry.value
  }

  /** What a turn makes of its own bucket. */
  function BucketAfter(lim: Limits, b: Health, c: Candidate, env: AttemptEnv): Health {
    if Shut(b, env.checkAt) then b
    else
      var checked := if b.expiry.Some? then Health(0, None) else b;
      if (c.local && !env.fits) || env.client.Some? then checked
      else
        match CallOutcome(env.call)
        case None => Health(0, None)
        case Some(Foreign) => checked
        case Some(_) =>
          var failures := checked.failures + 1;
          Health(failures, if failures >= lim.threshold then Some(env.endAt + lim.cooldown) else checked.expiry)
  }

  /** How a turn ends: `None` when the candidate answers. */
  function EndOfTurn(b: Health, c: Candidate, env: AttemptEnv): Option<Exn> {
    if Shut(b, env.checkAt) then Some(InCooldown)
    else if c.local && !env.fits then Some(Unreachable)
    else if env.client.Some? then env.client
    else CallOutcome(env.call)
  }

  /** The record it leaves. */
  function RecordOfTurn(b: Health, c: Candidate, env: AttemptEnv): seq<SkipRecord> {
    if Shut(b, env.checkAt) then [SkipRecord(c.name, "CandidateCooldownError", None)]
    else if c.local && !env.fits then [SkipRecord(c.name, "DelegateUnreachableError", None)]
    else if env.client.Some? then []
    else
      match CallOutcome(env.call)
      case None => []
      case Some(Unreachable) => [SkipRecord(c.name, "DelegateUnreachableError", None)]
      case Some(RateLimited(retryAfter)) => [SkipRecord(c.name, "DelegateRateLimitedError", retryAfter)]
      case Some(ApiError) => [SkipRecord(c.name, "DelegateAPIError", None)]
      case Some(Malformed) => [SkipRecord(c.name, "DelegateMalformedResponseError", None)]
      case Some(InCooldown) => [SkipRecord(c.name, "CandidateCooldownError", None)]
      case Some(TimedOut) => [SkipRecord(c.name, "TimeoutError", None)]
      case Some(OuterDeadline) => [SkipRecord(c.name, "CancelledError", None)]
      case Some(CallerCancelled) => [SkipRecord(c.name, "CancelledError", None)]
      case Some(Foreign) => []
  }

  /** What turns on `cs` make of the bucket of `name`: only those of that name count. */
  function BucketThrough(lim: Limits, b: Health, name: string, cs: seq<Candidate>, envs: seq<AttemptEnv>): Health
    requires |cs| == |envs|
  {
    if cs == [] then b
    else
      var (k, earlier) := (|cs| - 1, BucketThrough(lim, b, name, cs[..|cs| - 1], envs[..|cs| - 1]));
      if cs[k].name == name then BucketAfter(lim, earlier, cs[k], envs[k]) else earlier
  }

  /** The bucket the i-th turn finds. */
  function BucketBefore(lim: Limits, task: string, cs: seq<Candidate>, m: HealthMap, envs: seq<AttemptEnv>, i: nat)
    : Health
    requires i < |cs| && i < |envs|
  {
    BucketThrough(lim, At(m, Key(task, cs[i].name)), cs[i].name, cs[..i], envs[..i])
  }

  /** How the i-th turn ends. */
  function EndOf(lim: Limits, task: string, cs: seq<Candidate>, m: HealthMap, envs: seq<AttemptEnv>, i: nat)
    : Option<Exn>
    requires i < |cs| && i < |envs|
  {
    EndOfTurn(BucketBefore(lim, task, cs, m, envs, i), cs[i], envs[i])
  }

  /** The factory raises for the i-th candidate, which is neither cooling when its turn comes nor refused. */
  predicate DiesInFactory(lim: Limits, task: string, cs: seq<Candidate>, m: HealthMap, envs: seq<AttemptEnv>, i: nat)
    requires i < |cs| && i < |envs|
  {
    && envs[i].client.Some? && !(cs[i].local && !envs[i].fits)
    && !Shut(BucketBefore(lim, task, cs, m, envs, i), envs[i].checkAt)
  }

  lemma {:induction false} AttemptFollowsItsInputs(lim: Limits, task: string, c: Candidate, n: nat, p: Progress,
                                                   env: AttemptEnv, name: string)
    ensures var q := AttemptOnce(lim, task, c, n, p, env);
            var b := At(p.health, Key(task, name));
            && At(q.health, Key(task, name)) == (if c.name == name then BucketAfter(lim, b, c, env) else b)
            && (c.name == name ==>
                  && Error(q.log[|p.log|]) == EndOfTurn(b, c, env)
                  && SkipOf(name, q.log[|p.log|]) == RecordOfTurn(b, c, env)
                  && (q.log[|p.log|].NoClient? <==>
                        env.client.Some? && !(c.local && !env.fits) && !Shut(b, env.checkAt)))
  {
  }

  lemma {:induction false} BucketsFollowTheInputs(lim: Limits, task: string, cs: seq<Candidate>, m: HealthMap,
                                                  tr: seq<Event>, envs: seq<AttemptEnv>, name: string)
    requires cs != []
    ensures var p := Run(lim, task, cs, Start(m, tr), envs);
            && |p.log| <= |envs|
            && At(p.health, Key(task, name))
               == BucketThrough(lim, At(m, Key(task, name)), name, cs[..|p.log|], envs[..|p.log|])
  {
    if envs != [] {
      var (init, env) := (envs[..|envs| - 1], envs[|envs| - 1]);
      var p := Run(lim, task, cs, Start(m, tr), init);
      var n := |p.log|;
      BucketsFollowTheInputs(lim, task, cs, m, tr, init, name);
      assert init[..n] == envs[..n];
      if p.status.Running? {
        AttemptFollowsItsInputs(lim, task, cs[n], |cs|, p, env, name);
        OneMoreAttempt(lim, At(m, Key(task, name)), name, cs, envs, n);
      }
    }
  }

  lemma {:induction false} OneMoreAttempt(lim: Limits, b: Health, name: string, cs: seq<Candidate>,
                                          envs: seq<AttemptEnv>, n: nat)
    requires n < |cs| && n < |envs|
    ensures var earlier := BucketThrough(lim, b, name, cs[..n], envs[..n]);
            BucketThrough(lim, b, name, cs[..n + 1], envs[..n + 1])
            == if cs[n].name == name then BucketAfter(lim, earlier, cs[n], envs[n]) else earlier
  {
    assert cs[..n + 1][..n] == cs[..n] && envs[..n + 1][..n] == envs[..n];
  }

  lemma {:induction false} TurnFollowsItsInputs(lim: Limits, task: string, cs: seq<Candidate>, m: HealthMap,
                                                tr: seq<Event>, envs: seq<AttemptEnv>, i: nat)
    requires cs != [] && i < |Run(lim, task, cs, Start(m, tr), envs).log|
    ensures i < |envs|
    ensures var d := Run(lim, task, cs, Start(m, tr), envs).log[i];
            && (d.NoClient? <==> DiesInFactory(lim, task, cs, m, envs, i))
            && Error(d) == EndOf(lim, task, cs, m, envs, i)
            && SkipOf(cs[i].name, d) == RecordOfTurn(BucketBefore(lim, task, cs, m, envs, i), cs[i], envs[i])
    decreases |envs|
  {
    if envs != [] {
      var (init, env) := (envs[..|envs| - 1], envs[|envs| - 1]);
      var p := Run(lim, task, cs, Start(m, tr), init);
      if i < |p.log| {
        TurnFollowsItsInputs(lim, task, cs, m, tr, init, i);
        assert init[..i] == envs[..i];
        if p.status.Running? {
          AttemptBookkeeping(lim, task, cs[|p.log|], |cs|, p, env);
        }
        assert Run(lim, task, cs, Start(m, tr), envs).log[i] == p.log[i];
      } else {
        AttemptBookkeeping(lim, task, cs[i], |cs|, p, env);
        BucketsFollowTheInputs(lim, task, cs, m, tr, init, cs[i].name);
        AttemptFollowsItsInputs(lim, task, cs[i], |cs|, p, env, cs[i].name);
        assert init == envs[..i] && init[..i] == init;
      }
    }
  }

  lemma {:induction false} TurnsFollowTheInputs(lim: Limits, task: string, cs: seq<Candidate>, m: HealthMap,
                                                tr: seq<Event>, envs: seq<AttemptEnv>)
    requires cs != []
    ensures var log := Run(lim, task, cs, Start(m, tr), envs).log;
            && |log| <= |envs|
            && (forall i :: 0 <= i < |log| ==> (log[i].NoClient? <==> DiesInFactory(lim, task, cs, m, envs, i)))
            && (forall i :: 0 <= i < |log| ==> Error(log[i]) == EndOf(lim, task, cs, m, envs, i))
  {
    var log := Run(lim, task, cs, Start(m, tr), envs).log;
    BucketsFollowTheInputs(lim, task, cs, m, tr, envs, "");
    forall i | 0 <= i < |log|
      ensures log[i].NoClient? <==> DiesInFactory(lim, task, cs, m, envs, i)
      ensures Error(log[i]) == EndOf(lim, task, cs, m, envs, i)
    {
      TurnFollowsItsInputs(lim, task, cs, m, tr, envs, i);
    }
  }

  // ----- Which candidate serves, and what is raised -----

  /** Turns before `n` all failed, none by its caller's cancellation or a foreign error. */
  predicate AllPassedOn(lim: Limits, task: string, cs: seq<Candidate>, m: HealthMap, envs: seq<AttemptEnv>, n: nat)
    requires n <= |cs| && n <= |envs|
  {
    forall i :: 0 <= i < n ==>
      var e := EndOf(lim, task, cs, m, envs, i);
      e.Some? && e.value != CallerCancelled && e.value != Foreign
  }

  /** A run on as many environments as candidates ends; where, and how each turn before it did. */
  lemma {:induction false} RunEndsAt(lim: Limits, task: string, cs: seq<Candidate>, m: HealthMap, tr: seq<Event>,
                                     envs: seq<AttemptEnv>)
    requires cs != [] && |envs| == |cs|
    ensures var p := Run(lim, task, cs, Start(m, tr), envs);
            && p.status.Ended? && 0 < |p.log| <= |cs|
            && AllPassedOn(lim, task, cs, m, envs, |p.log| - 1)
            && var last := EndOf(lim, task, cs, m, envs, |p.log| - 1);
               match p.status.outcome
               case Served(j) => |p.log| == j + 1 && last == None
               case Raised(e) => last == Some(e) && (e == CallerCancelled || e == Foreign)
               case Exhausted(e) =>
                 && |p.log| == |cs| && last.Some? && last.value != CallerCancelled && last.value != Foreign
                 && e == if last.value == OuterDeadline then TimedOut else last.value
  {
    var p := Run(lim, task, cs, Start(m, tr), envs);
    RunTrichotomy(lim, task, cs, m, tr, envs);
    TurnsFollowTheInputs(lim, task, cs, m, tr, envs);
  }

  /** Candidate `j` answers, and every turn before it passed the task on. */
  predicate ServedAt(lim: Limits, task: string, cs: seq<Candidate>, m: HealthMap, envs: seq<AttemptEnv>, j: nat)
    requires |cs| == |envs|
  {
    j < |cs| && AllPassedOn(lim, task, cs, m, envs, j) && EndOf(lim, task, cs, m, envs, j) == None
  }

  /** Turn `j` ends in its caller's cancellation or a foreign error, and every turn before it passed the task on. */
  predicate RaisedAt(lim: Limits, task: string, cs: seq<Candidate>, m: HealthMap, envs: seq<AttemptEnv>, j: nat, e: Exn)
    requires |cs| == |envs|
  {
    && j < |cs| && AllPassedOn(lim, task, cs, m, envs, j)
    && EndOf(lim, task, cs, m, envs, j) == Some(e) && (e == CallerCancelled || e == Foreign)
  }

  /**
   * A run is served at `j` exactly when candidate `j` answers and every turn before it failed otherwise than by its
   * caller's cancellation or a foreign error. It raises exactly those two, at the first turn that ends in one, and
   * is exhausted exactly when every turn failed otherwise.
   */
  lemma {:induction false} OutcomeIff(lim: Limits, task: string, cs: seq<Candidate>, m: HealthMap, tr: seq<Event>,
                                      envs: seq<AttemptEnv>)
    requires cs != [] && |envs| == |cs|
    ensures var p := Run(lim, task, cs, Start(m, tr), envs);
            && p.status.Ended?
            && (forall j :: p.status.outcome == Served(j) <==> ServedAt(lim, task, cs, m, envs, j))
            && (forall e :: p.status.outcome == Raised(e) <==> exists j :: RaisedAt(lim, task, cs, m, envs, j, e))
            && (p.status.outcome.Exhausted? <==> AllPassedOn(lim, task, cs, m, envs, |cs|))
  {
    var p := Run(lim, task, cs, Start(m, tr), envs);
    var n := |p.log| - 1;
    RunEndsAt(lim, task, cs, m, tr, envs);
    forall j | ServedAt(lim, task, cs, m, envs, j)
      ensures j == n
    {
      OnlyOneLastTurn(lim, task, cs, m, envs, n, j);
    }
    forall j, e | RaisedAt(lim, task, cs, m, envs, j, e)
      ensures j == n
    {
      OnlyOneLastTurn(lim, task, cs, m, envs, n, j);
    }
    if p.status.outcome.Raised? {
      assert RaisedAt(lim, task, cs, m, envs, n, p.status.outcome.e);
    }
  }

  lemma {:induction false} OnlyOneLastTurn(lim: Limits, task: string, cs: seq<Candidate>, m: HealthMap,
                                           envs: seq<AttemptEnv>, n: nat, j: nat)
    requires |cs| == |envs| && n < |cs| && j < |cs|
    requires AllPassedOn(lim, task, cs, m, envs, n) && AllPassedOn(lim, task, cs, m, envs, j)
    requires !AllPassedOn(lim, task, cs, m, envs, n + 1) || n == |cs| - 1
    requires !AllPassedOn(lim, task, cs, m, envs, j + 1)
    ensures j == n
  {
    if j < n {
      assert AllPassedOn(lim, task, cs, m, envs, j + 1);
    } else if n < j {
      assert AllPassedOn(lim, task, cs, m, envs, n + 1);
    }
  }

  /** The records of the first turns, in order. */
  function RecordsOfTurns(lim: Limits, task: string, cs: seq<Candidate>, m: HealthMap, envs: seq<AttemptEnv>, n: nat)
    : seq<SkipRecord>
    requires n <= |cs| && n <= |envs|
  {
    if n == 0 then []
    else
      RecordsOfTurns(lim, task, cs, m, envs, n - 1)
      + RecordOfTurn(BucketBefore(lim, task, cs, m, envs, n - 1), cs[n - 1], envs[n - 1])
  }

  /** The skip records of any run are those its turns leave, each decided by its own inputs. */
  lemma {:induction false} RecordsFollowTheInputs(lim: Limits, task: string, cs: seq<Candidate>, m: HealthMap,
                                                  tr: seq<Event>, envs: seq<AttemptEnv>)
    requires cs != []
    ensures var p := Run(lim, task, cs, Start(m, tr), envs);
            |p.log| <= |envs| && p.skips == RecordsOfTurns(lim, task, cs, m, envs, |p.log|)
  {
    var p := Run(lim, task, cs, Start(m, tr), envs);
    TurnsFollowTheInputs(lim, task, cs, m, tr, envs);
    ChainBookkeeping(lim, task, cs, m, tr, envs);
    for n := 0 to |p.log|
      invariant SkipsOf(cs, p.log[..n]) == RecordsOfTurns(lim, task, cs, m, envs, n)
    {
      assert p.log[..n + 1][..n] == p.log[..n];
      TurnFollowsItsInputs(lim, task, cs, m, tr, envs, n);
    }
    assert p.log[..|p.log|] == p.log;
  }

  /** Where no earlier candidate has the same name, the bucket is simply the one the store had before the call. */
  lemma {:induction false} UnattemptedBucket(lim: Limits, b: Health, name: string, cs: seq<Candidate>,
                                             envs: seq<AttemptEnv>)
    requires |cs| == |envs| && forall c :: c in cs ==> c.name != name
    ensures BucketThrough(lim, b, name, cs, envs) == b
  {
    if cs != [] {
      UnattemptedBucket(lim, b, name, cs[..|cs| - 1], envs[..|cs| - 1]);
      assert cs[|cs| - 1] in cs;
    }
  }

  lemma {:induction false} DiesInFactoryOnce(lim: Limits, task: string, cs: seq<Candidate>, m: HealthMap,
                                             envs: seq<AttemptEnv>, i: nat)
    requires i < |cs| && i < |envs|
    requires forall j :: 0 <= j < i ==> cs[j].name != cs[i].name
    ensures DiesInFactory(lim, task, cs, m, envs, i)
            <==> && envs[i].client.Some? && !(cs[i].local && !envs[i].fits)
                 && !Shut(At(m, Key(task, cs[i].name)), envs[i].checkAt)
  {
    UnattemptedBucket(lim, At(m, Key(task, cs[i].name)), cs[i].name, cs[..i], envs[..i]);
  }

  lemma {:induction false} ExhaustedTriedAll(lim: Limits, task: string, cs: seq<Candidate>, m: HealthMap,
                                             tr: seq<Event>, envs: seq<AttemptEnv>)
    requires cs != []
    requires var p := Run(lim, task, cs, Start(m, tr), envs); p.status.Ended? && p.status.outcome.Exhausted?
    ensures var p := Run(lim, task, cs, Start(m, tr), envs);
            && |p.log| == |cs| && (forall i :: 0 <= i < |cs| ==> Advanced(p.log[i]))
            && p.attempted == Chains.Names(cs) && p.skips == SkipsOf(cs, p.log)
  {
    var p := Run(lim, task, cs, Start(m, tr), envs);
    RunTrichotomy(lim, task, cs, m, tr, envs);
    ExhaustedLog(|cs|, p.log, p.status);
    ChainBookkeeping(lim, task, cs, m, tr, envs);
    assert |Chains.Names(cs)| == |cs|;
    assert Chains.Names(cs)[..|cs|] == Chains.Names(cs);
  }

  lemma {:induction false} ExhaustedLog(n: nat, log: seq<Disposition>, status: Status)
    requires Trichotomy(n, log, status) && status.Ended? && status.outcome.Exhausted?
    ensures |log| == n && forall i :: 0 <= i < n ==> Advanced(log[i])
  {
  }

  lemma {:induction false} ExhaustedTriesAll(lim: Limits, task: string, cs: seq<Candidate>, m: HealthMap,
                                             tr: seq<Event>, envs: seq<AttemptEnv>)
    requires cs != []
    ensures var p := Run(lim, task, cs, Start(m, tr), envs);
            p.status.Ended? && p.status.outcome.Exhausted? ==> |p.log| == |cs| && p.attempted == Chains.Names(cs)
  {
    var p := Run(lim, task, cs, Start(m, tr), envs);
    if p.status.Ended? && p.status.outcome.Exhausted? {
      ExhaustedTriedAll(lim, task, cs, m, tr, envs);
    }
  }

  /**
   * An exhausted chain reports every name, and one skip record per candidate, aligned with the names, exactly
   * when no candidate's turn ended in the client factory, whose errors advance the chain without a record.
   */
  lemma {:induction false} ExhaustionReport(lim: Limits, task: string, cs: seq<Candidate>, m: HealthMap,
                                            tr: seq<Event>, envs: seq<AttemptEnv>)
    requires cs != []
    requires var p := Run(lim, task, cs, Start(m, tr), envs); p.status.Ended? && p.status.outcome.Exhausted?
    ensures |cs| <= |envs|
    ensures var p := Run(lim, task, cs, Start(m, tr), envs);
            && p.attempted == Chains.Names(cs)
            && (|p.skips| == |cs| <==> forall i :: 0 <= i < |cs| ==> !DiesInFactory(lim, task, cs, m, envs, i))
            && (|p.skips| == |cs| ==> forall i :: 0 <= i < |cs| ==> p.skips[i].candidate == p.attempted[i])
  {
    ExhaustedTriedAll(lim, task, cs, m, tr, envs);
    AdvancedSkipsAlignIff(cs, Run(lim, task, cs, Start(m, tr), envs).log);
    TurnsFollowTheInputs(lim, task, cs, m, tr, envs);
  }

  /** When the last attempt served the call, only those before it leave records. */
  lemma {:induction false} ServedSkips(cs: seq<Candidate>, log: seq<Disposition>)
    requires 0 < |log| <= |cs| && Error(log[|log| - 1]) == None
    requires forall i :: 0 <= i < |log| - 1 ==> Advanced(log[i])
    ensures |SkipsOf(cs, log)| == |log| - 1 <==> forall i :: 0 <= i < |log| - 1 ==> !log[i].NoClient?
  {
    var init := log[..|log| - 1];
    AdvancedSkipsAlignIff(cs, init);
    assert forall i :: 0 <= i < |init| ==> init[i] == log[i];
  }

  /**
   * Success at position j leaves j + 1 names, and j skip records exactly when no turn before it ended in the
   * factory.
   */
  lemma {:induction false} ServiceReport(lim: Limits, task: string, cs: seq<Candidate>, m: HealthMap,
                                         tr: seq<Event>, envs: seq<AttemptEnv>)
    requires cs != []
    requires var p := Run(lim, task, cs, Start(m, tr), envs); p.status.Ended? && p.status.outcome.Served?
    ensures var j := Run(lim, task, cs, Start(m, tr), envs).status.outcome.j; j < |cs| && j < |envs|
    ensures var p := Run(lim, task, cs, Start(m, tr), envs); var j := p.status.outcome.j;
            && p.attempted == Chains.Names(cs)[..j + 1]
            && (|p.skips| == j <==> forall i :: 0 <= i < j ==> !DiesInFactory(lim, task, cs, m, envs, i))
            && (forall i :: j < i < |cs| && cs[i].name !in p.attempted ==>
                  At(p.health, Key(task, cs[i].name)) == At(m, Key(task, cs[i].name)))
  {
    var p := Run(lim, task, cs, Start(m, tr), envs);
    var j := p.status.outcome.j;
    RunTrichotomy(lim, task, cs, m, tr, envs);
    ChainBookkeeping(lim, task, cs, m, tr, envs);
    ServedSkips(cs, p.log);
    TurnsFollowTheInputs(lim, task, cs, m, tr, envs);
  }

  /** One remote candidate whose client cannot be built: the chain is exhausted and its report has no skip record. */
  lemma {:induction false} FactoryErrorLeavesNoRecord(lim: Limits, task: string, c: Candidate, env: AttemptEnv)
    requires !c.local && env.client == Some(Unreachable)
    ensures var p := Run(lim, task, [c], Start(map[], []), [env]);
            p.status == Ended(Exhausted(Unreachable)) && p.attempted == [c.name] && p.skips == []
  {
    assert Run(lim, task, [c], Start(map[], []), []) == Start(map[], []);
    assert [env][..0] == [];
  }

  function TotalCompletions(log: seq<Disposition>): nat {
    if log == [] then 0
    else TotalCompletions(log[..|log| - 1]) + if log[|log| - 1].Called? then log[|log| - 1].completions else 0
  }

  lemma {:induction false} TotalIsBounded(log: seq<Disposition>)
    requires forall d :: d in log && d.Called? ==> d.completions <= 2
    ensures TotalCompletions(log) <= 2 * |log|
  {
    if log != [] {
      assert log[|log| - 1] in log;
      assert forall d :: d in log[..|log| - 1] ==> d in log;
      TotalIsBounded(log[..|log| - 1]);
    }
  }

  /** A call that was reached went as its own environment says, whatever came before it. */
  lemma {:induction false} CallsFollowTheirEnv(lim: Limits, task: string, cs: seq<Candidate>, m: HealthMap,
                                               tr: seq<Event>, envs: seq<AttemptEnv>, i: nat)
    requires cs != []
    requires var p := Run(lim, task, cs, Start(m, tr), envs); i < |p.log| && p.log[i].Called?
    ensures i < |envs|
    ensures var d := Run(lim, task, cs, Start(m, tr), envs).log[i];
            d == Called(CallOutcome(envs[i].call), Completions(envs[i].call)) && d.completions <= 2
    decreases |envs|
  {
    if envs != [] {
      var p := Run(lim, task, cs, Start(m, tr), envs[..|envs| - 1]);
      if p.status.Running? {
        AttemptBookkeeping(lim, task, cs[|p.log|], |cs|, p, envs[|envs| - 1]);
      }
      if i < |p.log| {
        assert Run(lim, task, cs, Start(m, tr), envs).log[i] == p.log[i];
        CallsFollowTheirEnv(lim, task, cs, m, tr, envs[..|envs| - 1], i);
      }
    }
  }

  /** The models are asked at most twice per candidate. */
  lemma {:induction false} CompletionsAreBounded(lim: Limits, task: string, cs: seq<Candidate>, m: HealthMap,
                                                 tr: seq<Event>, envs: seq<AttemptEnv>)
    requires cs != []
    ensures TotalCompletions(Run(lim, task, cs, Start(m, tr), envs).log) <= 2 * |cs|
  {
    var log := Run(lim, task, cs, Start(m, tr), envs).log;
    forall d | d in log && d.Called?
      ensures d.completions <= 2
    {
      var i :| 0 <= i < |log| && log[i] == d;
      CallsFollowTheirEnv(lim, task, cs, m, tr, envs, i);
    }
    TotalIsBounded(log);
  }
}
