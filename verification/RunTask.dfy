/**
 * One end-to-end run against a repository the developer keeps editing: `orchestrator/run.py`. Worktree
 * creation with its snapshot is one atomic step, and so is `merge()`; edits may fall anywhere else.
 */
module RunTask {
  import opened Common
  import opened Merge

  // ----- The concurrent developer -----

  /** One developer write: new content, or removal. */
  datatype Edit = Edit(path: Path, content: Option<Content>)

  function Edited(t: Tree, e: Edit): Tree {
    if e.content.Some? then t[e.path := e.content.value] else t - {e.path}
  }

  function Edits(t: Tree, es: seq<Edit>): Tree {
    if es == [] then t else Edited(Edits(t, es[..|es| - 1]), es[|es| - 1])
  }

  lemma {:induction false} EditsCompose(t: Tree, es: seq<Edit>, fs: seq<Edit>)
    ensures Edits(t, es + fs) == Edits(Edits(t, es), fs)
  {
    if fs == [] {
      assert es + fs == es;
    } else {
      assert (es + fs)[..|es + fs| - 1] == es + fs[..|fs| - 1];
      EditsCompose(t, es, fs[..|fs| - 1]);
    }
  }

  lemma {:induction false} EditsArePointwise(a: Tree, b: Tree, es: seq<Edit>, p: Path)
    requires Lookup(a, p) == Lookup(b, p)
    ensures Lookup(Edits(a, es), p) == Lookup(Edits(b, es), p)
  {
    if es != [] {
      EditsArePointwise(a, b, es[..|es| - 1], p);
    }
  }

  method Develop(repo: Repo, es: seq<Edit>)
    modifies repo
    ensures repo.files == Edits(old(repo.files), es)
  {
    for i := 0 to |es|
      invariant repo.files == Edits(old(repo.files), es[..i])
    {
      assert es[..i + 1][..i] == es[..i];
      repo.files := Edited(repo.files, es[i]);
    }
    assert es[..|es|] == es;
  }

  // ----- The run's environment -----

  /** `Exception` is caught and recorded; anything else only passes through `finally`. */
  datatype Failure = Ordinary | Interrupt

  /** How preparation ends. `added`: git lists the worktree; `returned`: `create_worktree` gave it back. */
  datatype Prep =
    | Prepared
    | PrepTimedOut(added: bool, returned: bool)
    | PrepFailed(added: bool, returned: bool, kind: Failure)

  datatype Adapter = Adapted(wt: Tree, changes: seq<Change>) | AdapterTimedOut | AdapterFailed(kind: Failure)

  datatype Approval = Yes | No | ApproveFailed(kind: Failure)

  /** Each stage's result, with the developer edits that fall before it. */
  datatype RunEnv = RunEnv(
    checks: bool,
    early: seq<Edit>, prep: Prep,
    during: seq<Edit>, adapter: Adapter,
    review: seq<Edit>, diff: Option<Failure>, approve: Approval,
    late: seq<Edit>, listing: Option<Failure>,
    after: seq<Edit>, remove: Option<Failure>)

  predicate CallsMerge(env: RunEnv) {
    env.checks && env.prep.Prepared? && env.adapter.Adapted? && env.diff == None && !env.approve.ApproveFailed?
  }

  /** The edits made before `merge()` begins, when it does. */
  function BeforeMerge(env: RunEnv): seq<Edit> {
    env.early + env.during + env.review + env.late
  }

  /** All edits made while the run lasts. */
  function AllEdits(env: RunEnv): seq<Edit> {
    if !env.checks then []
    else if !env.prep.Prepared? then env.early
    else if !env.adapter.Adapted? then env.early + env.during
    else if !CallsMerge(env) then env.early + env.during + env.review
    else BeforeMerge(env) + env.after
  }

  /** The baseline: the tracked part of the tree at the moment the worktree is created. */
  function Snapshot(files: Tree, env: RunEnv, tracked: set<Path>): Tree {
    var seeded := Edits(files, env.early);
    map p | p in seeded && p in tracked :: seeded[p]
  }

  datatype Outcome = MERGED | REJECTED | DIVERGED | TIMEOUT | ERROR

  datatype Record = Record(outcome: Outcome, worktree: bool, diverged: seq<Path>, timeouts: nat, errorDetail: bool)

  datatype RunEnd = Refused | Returned(outcome: Outcome, worktree: bool) | Raised(kind: Failure)

  /** What a run touches: the repository, git's worktree list, the saved run records. */
  class Host {
    const repo: Repo
    var worktrees: set<string>
    var saved: seq<Record>

    constructor (repo: Repo)
      ensures this.repo == repo && worktrees == {} && saved == []
    {
      this.repo, worktrees, saved := repo, {}, [];
    }
  }

  /** What `except` leaves in `outcome`. */
  function Caught(kind: Failure, outcome: Outcome): Outcome {
    if kind.Ordinary? then ERROR else outcome
  }

  /** What the run may have done to the tree by the time it ends. */
  ghost predicate TreeOutcome(before: Tree, env: RunEnv, tracked: set<Path>, after: Tree) {
    if !CallsMerge(env) then after == Edits(before, AllEdits(env))
    else
      exists merged: Tree :: MergedFrom(before, env, tracked, merged) && after == Edits(merged, env.after)
  }

  /** `merged` differs from the developer's tree only on touched paths that still held their snapshot content. */
  ghost predicate MergedFrom(before: Tree, env: RunEnv, tracked: set<Path>, merged: Tree)
    requires CallsMerge(env)
  {
    var now := Edits(before, BeforeMerge(env));
    forall p :: Lookup(merged, p) != Lookup(now, p) ==>
      Touched(env.adapter.changes, p) && Lookup(now, p) == Lookup(Snapshot(before, env, tracked), p)
  }

  /** The merge loop is entered: every guard in front of it is passed. */
  ghost predicate Merges(before: Tree, env: RunEnv, tracked: set<Path>) {
    && CallsMerge(env) && env.approve.Yes? && env.listing == None
    && Clean(env.adapter.changes, Snapshot(before, env, tracked), Edits(before, BeforeMerge(env)))
  }

  /** The body of `run_task`'s try statement, with its except clause. */
  method TryBlock(host: Host, name: string, tracked: set<Path>, env: RunEnv)
    returns (end: RunEnd, record: Record)
    requires env.checks && name !in host.worktrees
    modifies host, host.repo
    ensures host.saved == old(host.saved)
    ensures host.worktrees - {name} == old(host.worktrees)
    ensures !end.Refused? && (end.Returned? ==> end.outcome == record.outcome)
    ensures TreeOutcome(old(host.repo.files), env, tracked, host.repo.files)
    ensures Protocol(old(host.repo.files), env, tracked, name in host.worktrees, host.repo.files, end, record)
  {
    ghost var before := host.repo.files;
    var outcome := ERROR;
    Develop(host.repo, env.early);
    match env.prep {
      case PrepTimedOut(added, returned) =>
        host.worktrees := host.worktrees + if added || returned then {name} else {};
        return Returned(TIMEOUT, returned), Record(TIMEOUT, returned, [], 1, false);
      case PrepFailed(added, returned, kind) =>
        host.worktrees := host.worktrees + if added || returned then {name} else {};
        return Raised(kind), Record(Caught(kind, outcome), returned, [], 0, kind.Ordinary?);
      case Prepared =>
    }
    host.worktrees := host.worktrees + {name};
    var snapshot := map p | p in host.repo.files && p in tracked :: host.repo.files[p];

    Develop(host.repo, env.during);
    EditsCompose(before, env.early, env.during);
    if env.adapter.AdapterTimedOut? {
      return Returned(TIMEOUT, true), Record(TIMEOUT, true, [], 1, false);
    }
    if env.adapter.AdapterFailed? {
      var kind := env.adapter.kind;
      return Raised(kind), Record(Caught(kind, outcome), true, [], 0, kind.Ordinary?);
    }

    Develop(host.repo, env.review);
    EditsCompose(before, env.early + env.during, env.review);
    if env.diff.Some? {
      var kind := env.diff.value;
      return Raised(kind), Record(Caught(kind, outcome), true, [], 0, kind.Ordinary?);
    }
    if env.approve.ApproveFailed? {
      var kind := env.approve.kind;
      return Raised(kind), Record(Caught(kind, outcome), true, [], 0, kind.Ordinary?);
    }

    Develop(host.repo, env.late);
    EditsCompose(before, env.early + env.during + env.review, env.late);
    if env.approve.Yes? && env.listing.Some? {
      assert MergedFrom(before, env, tracked, host.repo.files);
      Develop(host.repo, env.after);
      EditsCompose(before, BeforeMerge(env), env.after);
      var kind := env.listing.value;
      return Raised(kind), Record(Caught(kind, outcome), true, [], 0, kind.Ordinary?);
    }
    var merge := MergeInto(host.repo, env.adapter.wt, snapshot, env.adapter.changes, env.approve.Yes?);
    assert MergedFrom(before, env, tracked, host.repo.files);
    Develop(host.repo, env.after);
    EditsCompose(before, BeforeMerge(env), env.after);
    match merge {
      case Diverged(paths) =>
        return Returned(DIVERGED, true), Record(DIVERGED, true, paths, 0, false);
      case ReadFailed(_) =>
        return Raised(Ordinary), Record(ERROR, true, [], 0, true);
      case Rejected =>
        outcome := REJECTED;
      case Merged =>
        outcome := MERGED;
    }
    if env.remove.Some? {
      var kind := env.remove.value;
      return Raised(kind), Record(Caught(kind, outcome), true, [], 0, kind.Ordinary?);
    }
    host.worktrees := host.worktrees - {name};
    return Returned(outcome, true), Record(outcome, true, [], 0, false);
  }

  /** Which environments give which conclusion, and what each conclusion promises. */
  ghost predicate Protocol(before: Tree, env: RunEnv, tracked: set<Path>, listed: bool, after: Tree,
                           end: RunEnd, record: Record)
    requires env.checks
  {
    && Concludes(before, env, tracked, end)
    && LeavesTree(before, env, tracked, after)
    && LeavesWorktree(env, listed, end, record)
    && Records(before, env, tracked, end, record)
  }

  ghost predicate Concludes(before: Tree, env: RunEnv, tracked: set<Path>, end: RunEnd)
    requires env.checks
  {
    var now := Edits(before, BeforeMerge(env));
    var snapshot := Snapshot(before, env, tracked);
    && !end.Refused?
    && (end.Returned? && end.outcome == TIMEOUT <==>
          env.prep.PrepTimedOut? || (env.prep.Prepared? && env.adapter.AdapterTimedOut?))
    && (end.Returned? && end.outcome == REJECTED <==> CallsMerge(env) && env.approve.No? && env.remove == None)
    && (end.Returned? && end.outcome == DIVERGED <==>
          CallsMerge(env) && env.approve.Yes? && env.listing == None && !Clean(env.adapter.changes, snapshot, now))
    && (end.Returned? && end.outcome == MERGED <==>
          && CallsMerge(env) && env.approve.Yes? && env.listing == None && env.remove == None
          && Clean(env.adapter.changes, snapshot, now)
          && FirstMissing(env.adapter.changes, env.adapter.wt) == |env.adapter.changes|)
    && !(end.Returned? && end.outcome == ERROR)
    // what a run raises is what the first stage to fail raised
    && (end.Raised? ==> end.kind == FirstFailure(before, env, tracked))
  }

  /** What the first stage that fails raises; a source the loop cannot read is an ordinary error. */
  ghost function FirstFailure(before: Tree, env: RunEnv, tracked: set<Path>): Failure {
    if env.prep.PrepFailed? then env.prep.kind
    else if env.adapter.AdapterFailed? then env.adapter.kind
    else if env.diff.Some? then env.diff.value
    else if env.approve.ApproveFailed? then env.approve.kind
    else if env.approve.Yes? && env.listing.Some? then env.listing.value
    else if Merges(before, env, tracked) && FirstMissing(env.adapter.changes, env.adapter.wt) < |env.adapter.changes|
    then Ordinary
    else env.remove.GetOr(Ordinary)
  }

  /** The developer's tree, with the loop's work in it once the loop is entered. */
  ghost predicate LeavesTree(before: Tree, env: RunEnv, tracked: set<Path>, after: Tree) {
    if Merges(before, env, tracked) then
      exists merged: Tree ::
        && Looped(env.adapter.changes, env.adapter.wt, Edits(before, BeforeMerge(env)), merged)
        && after == Edits(merged, env.after)
    else after == Edits(before, AllEdits(env))
  }

  /** A worktree that was created is gone exactly after a merge or a rejection, and is reported in any case. */
  ghost predicate LeavesWorktree(env: RunEnv, listed: bool, end: RunEnd, record: Record) {
    var created := env.prep.Prepared? || env.prep.returned;
    && (listed <==> if env.prep.Prepared? then !(end.Returned? && (end.outcome == MERGED || end.outcome == REJECTED))
                    else env.prep.added || env.prep.returned)
    && (end.Returned? ==> (end.worktree <==> created))
    && (record.worktree <==> created)
  }

  /** The record agrees with the conclusion; an interrupt is recorded under what had been decided when it came. */
  ghost predicate Records(before: Tree, env: RunEnv, tracked: set<Path>, end: RunEnd, record: Record) {
    var now := Edits(before, BeforeMerge(env));
    var decided := CallsMerge(env)
                   && (env.approve.No?
                       || (Merges(before, env, tracked)
                           && FirstMissing(env.adapter.changes, env.adapter.wt) == |env.adapter.changes|));
    && (end.Returned? ==> record.outcome == end.outcome)
    && (end.Raised? ==>
          record.outcome == if end.kind.Ordinary? || !decided then ERROR
                            else if env.approve.Yes? then MERGED else REJECTED)
    && record.timeouts == (if record.outcome == TIMEOUT then 1 else 0)
    && (if record.outcome == DIVERGED
        then && CallsMerge(env)
             && DivergenceReport(env.adapter.changes, Snapshot(before, env, tracked), now, record.diverged)
        else record.diverged == [])
    && (record.errorDetail <==> end == Raised(Ordinary))
  }

  /** `run_task`: refused runs leave no trace, every other run saves exactly one record on the way out. */
  method RunTask(host: Host, name: string, tracked: set<Path>, env: RunEnv) returns (end: RunEnd)
    requires name !in host.worktrees
    modifies host, host.repo
    ensures end.Refused? <==> !env.checks
    ensures end.Refused? ==> host.saved == old(host.saved) && host.worktrees == old(host.worktrees)
    ensures env.checks ==>
              && |host.saved| == |old(host.saved)| + 1 && host.saved[..|old(host.saved)|] == old(host.saved)
              && (end.Returned? ==> end.outcome == host.saved[|old(host.saved)|].outcome)
              && Protocol(old(host.repo.files), env, tracked, name in host.worktrees, host.repo.files, end,
                          host.saved[|old(host.saved)|])
    ensures host.worktrees - {name} == old(host.worktrees)
    ensures TreeOutcome(old(host.repo.files), env, tracked, host.repo.files)
    ensures forall p :: CallsMerge(env)
                        && Lookup(Edits(old(host.repo.files), BeforeMerge(env)), p)
                           != Lookup(Snapshot(old(host.repo.files), env, tracked), p)
                        ==> Lookup(host.repo.files, p) == Lookup(Edits(old(host.repo.files), AllEdits(env)), p)
    ensures forall p :: MovedOn(old(host.repo.files), env, tracked, p) ==>
                          Lookup(host.repo.files, p) == Lookup(Edits(old(host.repo.files), AllEdits(env)), p)
  {
    if !env.checks {
      return Refused;
    }
    var record;
    end, record := TryBlock(host, name, tracked, env);
    host.saved := host.saved + [record];
    DeveloperEditsSurvive(old(host.repo.files), env, tracked, host.repo.files);
  }

  // ----- Developer edits are never lost -----

  /**
   * By the time `merge()` would begin the developer has changed `p` since the worktree was created; or has a file
   * there that is not tracked.
   */
  ghost predicate MovedOn(before: Tree, env: RunEnv, tracked: set<Path>, p: Path) {
    var now := Edits(before, env.early + env.during + env.review + env.late);
    if p in tracked then Lookup(now, p) != Lookup(Edits(before, env.early), p) else p in now
  }

  /**
   * Whatever the outcome, the final tree is the developer's own, except on touched paths which held their
   * snapshot content when `merge()` began and were not edited afterwards.
   */
  lemma {:induction false} DeveloperEditsSurvive(before: Tree, env: RunEnv, tracked: set<Path>, after: Tree)
    requires TreeOutcome(before, env, tracked, after)
    ensures forall p :: Lookup(after, p) != Lookup(Edits(before, AllEdits(env)), p) ==>
              && CallsMerge(env) && Touched(env.adapter.changes, p)
              && Lookup(Edits(before, BeforeMerge(env)), p) == Lookup(Snapshot(before, env, tracked), p)
              && forall e :: e in env.after ==> e.path != p
    ensures forall p :: MovedOn(before, env, tracked, p) ==> Lookup(after, p) == Lookup(Edits(before, AllEdits(env)), p)
  {
    if CallsMerge(env) {
      var merged: Tree :| MergedFrom(before, env, tracked, merged) && after == Edits(merged, env.after);
      var now := Edits(before, BeforeMerge(env));
      EditsCompose(before, BeforeMerge(env), env.after);
      forall p | Lookup(after, p) != Lookup(Edits(now, env.after), p)
        ensures Lookup(merged, p) != Lookup(now, p) && forall e :: e in env.after ==> e.path != p
      {
        if Lookup(merged, p) == Lookup(now, p) {
          EditsArePointwise(merged, now, env.after, p);
        }
        LastEditDecides(merged, now, env.after, p);
      }
    }
  }

  /** A run that ends merged has its whole diff applied; any other that returns has left the tree to the developer. */
  lemma {:induction false} ReturnedTree(before: Tree, env: RunEnv, tracked: set<Path>, listed: bool, after: Tree,
                                        end: RunEnd, record: Record)
    requires env.checks && Protocol(before, env, tracked, listed, after, end, record)
    requires end.Returned?
    ensures end.outcome != MERGED ==> after == Edits(before, AllEdits(env))
    ensures end.outcome == MERGED ==>
              exists merged: Tree ::
                && Applied(env.adapter.changes, env.adapter.wt, Edits(before, BeforeMerge(env)), merged)
                && after == Edits(merged, env.after)
  {
    if end.outcome == MERGED {
      var now := Edits(before, BeforeMerge(env));
      var merged: Tree :| && Looped(env.adapter.changes, env.adapter.wt, now, merged)
                          && after == Edits(merged, env.after);
      LoopedToTheEnd(env.adapter.changes, env.adapter.wt, now, merged);
    }
  }

  /** A run, however it ends, has changed a path exactly when its loop was entered and made something else of it. */
  lemma {:induction false} ChangedByTheRunIff(before: Tree, env: RunEnv, tracked: set<Path>, listed: bool, after: Tree,
                                              end: RunEnd, record: Record, p: Path)
    requires env.checks && Protocol(before, env, tracked, listed, after, end, record)
    ensures Lookup(after, p) != Lookup(Edits(before, AllEdits(env)), p)
            <==> && Merges(before, env, tracked)
                 && (forall e :: e in env.after ==> e.path != p)
                 && var v := LoopEffect(env.adapter.changes, env.adapter.wt, p);
                    v.Some? && v.value != Lookup(Edits(before, BeforeMerge(env)), p)
  {
    if Merges(before, env, tracked) {
      var now := Edits(before, BeforeMerge(env));
      var merged: Tree :| && Looped(env.adapter.changes, env.adapter.wt, now, merged)
                          && after == Edits(merged, env.after);
      EditsCompose(before, BeforeMerge(env), env.after);
      assert Lookup(merged, p) == LoopEffect(env.adapter.changes, env.adapter.wt, p).GetOr(Lookup(now, p));
      LastEditDecides(merged, now, env.after, p);
      if forall e :: e in env.after ==> e.path != p {
        UneditedStays(merged, env.after, p);
        UneditedStays(now, env.after, p);
      }
    }
  }

  /** A run whose worktree cannot be removed after the merge is recorded as an error with its whole diff applied. */
  lemma {:induction false} FailedRemovalIsAMerge(before: Tree, env: RunEnv, tracked: set<Path>, listed: bool,
                                                 after: Tree, end: RunEnd, record: Record)
    requires env.checks && Protocol(before, env, tracked, listed, after, end, record)
    requires Merges(before, env, tracked) && env.remove == Some(Ordinary)
    requires FirstMissing(env.adapter.changes, env.adapter.wt) == |env.adapter.changes|
    ensures end == Raised(Ordinary) && record.outcome == ERROR
    ensures exists merged: Tree ::
              && Applied(env.adapter.changes, env.adapter.wt, Edits(before, BeforeMerge(env)), merged)
              && after == Edits(merged, env.after)
  {
    var now := Edits(before, BeforeMerge(env));
    var merged: Tree :| && Looped(env.adapter.changes, env.adapter.wt, now, merged)
                        && after == Edits(merged, env.after);
    LoopedToTheEnd(env.adapter.changes, env.adapter.wt, now, merged);
  }

  lemma {:induction false} UneditedStays(t: Tree, es: seq<Edit>, p: Path)
    requires forall e :: e in es ==> e.path != p
    ensures Lookup(Edits(t, es), p) == Lookup(t, p)
  {
    if es != [] {
      UneditedStays(t, es[..|es| - 1], p);
      assert es[|es| - 1] in es;
    }
  }

  /**
   * The developer rewrites a tracked file at any point between the worktree's creation and the merge, and so does
   * the adapter: however the run concludes, it ends diverged, and the file is as the developer wrote it.
   */
  lemma {:induction false} EditDuringTheRunSurvives(p: Path, original: Content, dev: Content, agent: Content,
                                                    during: seq<Edit>, review: seq<Edit>, late: seq<Edit>,
                                                    listed: bool, after: Tree, end: RunEnd, record: Record)
    requires original != dev && during + review + late == [Edit(p, Some(dev))]
    requires Protocol(map[p := original], Rewriting(p, agent, during, review, late), {p}, listed, after, end, record)
    ensures end == Returned(DIVERGED, true) && listed && after == map[p := dev]
    ensures record.outcome == DIVERGED && forall q :: q in record.diverged <==> q == p
  {
    var (before, env) := (map[p := original], Rewriting(p, agent, during, review, late));
    RewritingFacts(p, original, dev, agent, during, review, late);
    OneChangeDiverges(p, before, map[p := dev]);
    OnePathReported(p, before, map[p := dev], record.diverged);
  }

  lemma {:induction false} RewritingFacts(p: Path, original: Content, dev: Content, agent: Content,
                                          during: seq<Edit>, review: seq<Edit>, late: seq<Edit>)
    requires during + review + late == [Edit(p, Some(dev))]
    ensures var (before, env) := (map[p := original], Rewriting(p, agent, during, review, late));
            && Edits(before, BeforeMerge(env)) == map[p := dev] && AllEdits(env) == BeforeMerge(env)
            && Snapshot(before, env, {p}) == before
  {
    var (before, env) := (map[p := original], Rewriting(p, agent, during, review, late));
    assert [] + during + review + late == during + review + late;
    assert BeforeMerge(env) == [Edit(p, Some(dev))] && BeforeMerge(env) + [] == BeforeMerge(env);
    assert [Edit(p, Some(dev))][..0] == [];
    assert Edits(before, [Edit(p, Some(dev))]) == map[p := dev];
    assert Snapshot(before, env, {p}) == before;
  }

  lemma {:induction false} OneChangeDiverges(p: Path, before: Tree, now: Tree)
    requires Lookup(before, p) != Lookup(now, p)
    ensures !Clean([Change(Modified, None, p)], before, now)
  {
    var cs := [Change(Modified, None, p)];
    assert Touches(cs[0], p) && Touched(cs, p);
  }

  /** A quiet run in which the adapter rewrites one file. */
  function Rewriting(p: Path, agent: Content, during: seq<Edit>, review: seq<Edit>, late: seq<Edit>): RunEnv {
    RunEnv(true, [], Prepared, during, Adapted(map[p := agent], [Change(Modified, None, p)]), review, None, Yes, late,
           None, [], None)
  }

  lemma {:induction false} OnePathReported(p: Path, before: Tree, now: Tree, report: seq<Path>)
    requires DivergenceReport([Change(Modified, None, p)], before, now, report)
    requires Lookup(before, p) != Lookup(now, p)
    ensures forall q :: q in report <==> q == p
  {
    var cs := [Change(Modified, None, p)];
    ReportIsOfTheTouched(cs, before, now, report);
    assert Touches(cs[0], p) && Touched(cs, p);
  }

  lemma {:induction false} LastEditDecides(a: Tree, b: Tree, es: seq<Edit>, p: Path)
    ensures (exists e :: e in es && e.path == p) ==> Lookup(Edits(a, es), p) == Lookup(Edits(b, es), p)
  {
    if es != [] {
      LastEditDecides(a, b, es[..|es| - 1], p);
      if es[|es| - 1].path != p {
        assert forall e :: e in es && e.path == p ==> e in es[..|es| - 1];
      }
    }
  }
}
