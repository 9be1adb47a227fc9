/**
 * Crash recovery of worktrees: the scan and cleanup of `cli.py`, over `orchestrator/worktree.py`'s listing and
 * `fallback/quota.py`'s marker files, one marker per worktree directory name.
 */
module Recovery {
  import opened Common

  /** A path as its components. */
  type Path = seq<string>

  function Name(p: Path): string {
    if p == [] then "" else p[|p| - 1]
  }

  /** One record of `git worktree list`. */
  datatype Worktree = Worktree(path: Path, branch: Option<string>)

  datatype Reason = CrashOrphaned | QuotaExhausted

  datatype Record = Record(path: Path, branch: string, reason: Reason, task: Option<string>)

  type Markers = map<string, Record>

  datatype Repo = Repo(worktrees: seq<Worktree>, markers: Markers)

  /** The marker of a record is the file named after its worktree's directory. */
  ghost predicate WellNamed(markers: Markers) {
    forall n :: n in markers ==> Name(markers[n].path) == n
  }

  predicate Under(dir: Path, p: Path) {
    dir <= p
  }

  // ----- Specification -----

  function Managed(ws: seq<Worktree>, dir: Path): seq<Worktree> {
    if ws == [] then []
    else Managed(ws[..|ws| - 1], dir) + if Under(dir, ws[|ws| - 1].path) then [ws[|ws| - 1]] else []
  }

  function Unknown(ws: seq<Worktree>, known: set<string>): seq<Worktree> {
    if ws == [] then []
    else Unknown(ws[..|ws| - 1], known) + if Name(ws[|ws| - 1].path) !in known then [ws[|ws| - 1]] else []
  }

  function Mark(w: Worktree, reason: Reason, task: Option<string>): Record {
    Record(w.path, w.branch.GetOr(""), reason, task)
  }

  function MarkAll(markers: Markers, ws: seq<Worktree>): Markers {
    if ws == [] then markers
    else
      var w := ws[|ws| - 1];
      MarkAll(markers, ws[..|ws| - 1])[Name(w.path) := Mark(w, CrashOrphaned, None)]
  }

  function KnownNames(markers: Markers): set<string> {
    set n | n in markers :: Name(markers[n].path)
  }

  function Orphans(r: Repo, dir: Path): seq<Worktree> {
    Unknown(Managed(r.worktrees, dir), KnownNames(r.markers))
  }

  function Scanned(r: Repo, dir: Path): Repo {
    r.(markers := MarkAll(r.markers, Orphans(r, dir)))
  }

  predicate Listed(ws: seq<Worktree>, p: Path) {
    exists i :: 0 <= i < |ws| && ws[i].path == p
  }

  function Dropped(ws: seq<Worktree>, p: Path): seq<Worktree> {
    if ws == [] then []
    else (if ws[0].path == p then [] else [ws[0]]) + Dropped(ws[1..], p)
  }

  /** `git worktree remove`: the worktree must be there, and clean unless forced. */
  predicate Removable(ws: seq<Worktree>, p: Path, dirty: set<Path>, force: bool) {
    Listed(ws, p) && (force || p !in dirty)
  }

  /** One name of the cleanup command, looked up in the report taken before the removals. */
  function CleanedOne(r: Repo, report: Markers, name: string, dirty: set<Path>, force: bool): Repo {
    if name in report && Removable(r.worktrees, report[name].path, dirty, force)
    then Repo(Dropped(r.worktrees, report[name].path), r.markers - {name})
    else r
  }

  function Cleaned(r: Repo, report: Markers, names: seq<string>, dirty: set<Path>, force: bool): Repo {
    if names == [] then r
    else CleanedOne(Cleaned(r, report, names[..|names| - 1], dirty, force), report, names[|names| - 1], dirty, force)
  }

  /** Every name was listed, and could be removed when its turn came. */
  predicate AllRemoved(r: Repo, report: Markers, names: seq<string>, dirty: set<Path>, force: bool) {
    names == [] ||
    (var (init, n) := (names[..|names| - 1], names[|names| - 1]);
     && AllRemoved(r, report, init, dirty, force)
     && n in report && Removable(Cleaned(r, report, init, dirty, force).worktrees, report[n].path, dirty, force))
  }

  /** Exit code zero: nothing is listed, or every name was removed. */
  predicate ExitsZero(r: Repo, dir: Path, names: seq<string>, dirty: set<Path>, force: bool) {
    var s := Scanned(r, dir);
    s.markers == map[] || AllRemoved(s, s.markers, names, dirty, force)
  }

  predicate Distinct(names: seq<string>) {
    forall i, j :: 0 <= i < j < |names| ==> names[i] != names[j]
  }

  // ----- The commands -----

  class Host {
    var worktrees: seq<Worktree>
    var markers: Markers

    constructor (worktrees: seq<Worktree>)
      ensures State() == Repo(worktrees, map[])
    {
      this.worktrees, markers := worktrees, map[];
    }

    function State(): Repo
      reads this
    {
      Repo(worktrees, markers)
    }

    method ListManaged(dir: Path) returns (managed: seq<Worktree>)
      ensures managed == Managed(worktrees, dir)
      ensures forall w :: w in managed <==> w in worktrees && |dir| <= |w.path| && w.path[..|dir|] == dir
    {
      managed := [];
      for i := 0 to |worktrees|
        invariant managed == Managed(worktrees[..i], dir)
      {
        assert worktrees[..i + 1][..i] == worktrees[..i];
        if Under(dir, worktrees[i].path) {
          managed := managed + [worktrees[i]];
        }
      }
      assert worktrees[..|worktrees|] == worktrees;
      ManagedIsTheFilter(worktrees, dir);
    }

    method MarkAbandoned(w: Worktree, reason: Reason, task: Option<string>)
      modifies this`markers
      ensures markers == old(markers)[Name(w.path) := Mark(w, reason, task)]
      ensures var name := if w.path == [] then "" else w.path[|w.path| - 1];
              var branch := if w.branch == None then "" else w.branch.value;
              markers == old(markers)[name := Record(w.path, branch, reason, task)]
    {
      markers := markers[Name(w.path) := Record(w.path, w.branch.GetOr(""), reason, task)];
    }

    /** `_scan_and_collect_abandoned_worktrees`. */
    method Scan(dir: Path) returns (orphans: seq<Worktree>)
      modifies this`markers
      ensures State() == Scanned(old(State()), dir)
      ensures orphans == Orphans(old(State()), dir)
    {
      var managed := ListManaged(dir);
      var known := KnownNames(markers);
      orphans := Unknown(managed, known);
      for i := 0 to |orphans|
        invariant markers == MarkAll(old(markers), orphans[..i])
      {
        assert orphans[..i + 1][..i] == orphans[..i];
        MarkAbandoned(orphans[i], CrashOrphaned, None);
      }
      assert orphans[..|orphans|] == orphans;
    }

    /** `remove_abandoned_worktree`: the marker goes only once the worktree is gone. */
    method RemoveAbandoned(name: string, record: Record, dirty: set<Path>, force: bool) returns (removed: bool)
      modifies this
      ensures removed <==> Removable(old(worktrees), record.path, dirty, force)
      ensures removed <==> && (exists w :: w in old(worktrees) && w.path == record.path)
                           && (force || record.path !in dirty)
      ensures forall w :: w in worktrees <==> w in old(worktrees) && !(removed && w.path == record.path)
      ensures State() == if removed then Repo(Dropped(old(worktrees), record.path), old(markers) - {Name(record.path)})
                         else old(State())
    {
      ListedByAMember(worktrees, record.path);
      DroppedKeepsTheOthers(worktrees, record.path);
      if !Removable(worktrees, record.path, dirty, force) {
        return false;
      }
      worktrees := Dropped(worktrees, record.path);
      markers := markers - {Name(record.path)};
      removed := true;
    }

    /**
     * `_cmd_cleanup` over the sorted distinct names: an empty report answers zero before any name is looked at;
     * otherwise each name is removed in turn.
     */
    method Cleanup(dir: Path, names: seq<string>, dirty: set<Path>, force: bool) returns (exitCode: int)
      requires WellNamed(markers) && Distinct(names)
      modifies this
      ensures var s := Scanned(old(State()), dir);
              && State() == Cleaned(s, s.markers, names, dirty, force)
              && (exitCode == 0 <==> ExitsZero(old(State()), dir, names, dirty, force))
    {
      var _ := Scan(dir);
      ScanMarksEverything(old(State()), dir);
      var report := markers;
      if report == map[] {
        NothingCleaned(State(), names, dirty, force);
        return 0;
      }
      ghost var s := State();
      exitCode := 0;
      for i := 0 to |names|
        invariant State() == Cleaned(s, report, names[..i], dirty, force)
        invariant exitCode == 0 <==> AllRemoved(s, report, names[..i], dirty, force)
      {
        assert names[..i + 1][..i] == names[..i];
        if names[i] !in report {
          exitCode := 1;
        } else {
          assert Name(report[names[i]].path) == names[i];
          var removed := RemoveAbandoned(names[i], report[names[i]], dirty, force);
          if !removed {
            exitCode := 1;
          }
        }
      }
      assert names[..|names|] == names;
    }
  }

  // ----- What a scan does -----

  lemma {:induction false} ManagedIsTheFilter(ws: seq<Worktree>, dir: Path)
    ensures forall w :: w in Managed(ws, dir) <==> w in ws && |dir| <= |w.path| && w.path[..|dir|] == dir
  {
    if ws != [] {
      ManagedIsTheFilter(ws[..|ws| - 1], dir);
      assert ws == ws[..|ws| - 1] + [ws[|ws| - 1]];
    }
  }

  lemma {:induction false} UnknownIsTheFilter(ws: seq<Worktree>, known: set<string>)
    ensures forall w :: w in Unknown(ws, known) <==> w in ws && Name(w.path) !in known
  {
    if ws != [] {
      UnknownIsTheFilter(ws[..|ws| - 1], known);
      assert ws == ws[..|ws| - 1] + [ws[|ws| - 1]];
    }
  }

  lemma {:induction false} MarkAllAdds(markers: Markers, ws: seq<Worktree>)
    requires WellNamed(markers)
    ensures WellNamed(MarkAll(markers, ws))
    ensures forall n :: n in MarkAll(markers, ws) <==> n in markers || exists w :: w in ws && Name(w.path) == n
    ensures forall n :: n in markers && (forall w :: w in ws ==> Name(w.path) != n) ==>
              MarkAll(markers, ws)[n] == markers[n]
    ensures forall n :: n in MarkAll(markers, ws) && n !in markers ==>
              exists w :: w in ws && MarkAll(markers, ws)[n] == Mark(w, CrashOrphaned, None)
  {
    if ws != [] {
      MarkAllAdds(markers, ws[..|ws| - 1]);
      assert ws == ws[..|ws| - 1] + [ws[|ws| - 1]];
      assert ws[|ws| - 1] in ws;
    }
  }

  lemma {:induction false} KnownNamesAreTheKeys(markers: Markers)
    requires WellNamed(markers)
    ensures KnownNames(markers) == markers.Keys
  {
    forall n | n in markers
      ensures n in KnownNames(markers)
    {
      assert Name(markers[n].path) == n;
    }
  }

  /**
   * A scan keeps every marker there was, and leaves each managed worktree one marker under its name; the
   * markers it adds are crash records of managed worktrees. It removes nothing.
   */
  lemma {:induction false} ScanMarksEverything(r: Repo, dir: Path)
    requires WellNamed(r.markers)
    ensures var s := Scanned(r, dir);
            && s.worktrees == r.worktrees && WellNamed(s.markers)
            && (forall n :: n in r.markers ==> n in s.markers && s.markers[n] == r.markers[n])
            && (forall w :: w in r.worktrees && Under(dir, w.path) ==> Name(w.path) in s.markers)
            && (forall n :: n in s.markers && n !in r.markers ==>
                  exists w :: && w in r.worktrees && Under(dir, w.path)
                              && s.markers[n] == Record(w.path, if w.branch == None then "" else w.branch.value,
                                                        CrashOrphaned, None))
  {
    var managed := Managed(r.worktrees, dir);
    var orphans := Orphans(r, dir);
    ManagedIsTheFilter(r.worktrees, dir);
    KnownNamesAreTheKeys(r.markers);
    UnknownIsTheFilter(managed, KnownNames(r.markers));
    MarkAllAdds(r.markers, orphans);
    forall w | w in r.worktrees && Under(dir, w.path)
      ensures Name(w.path) in Scanned(r, dir).markers
    {
      if Name(w.path) !in r.markers {
        assert w in orphans;
      }
    }
  }

  /** The primary working tree, of which the worktrees' directory is a part, is never marked by a scan. */
  lemma {:induction false} PrimaryIsNeverMarked(r: Repo, root: Path, dir: Path)
    requires WellNamed(r.markers) && root <= dir && root != dir
    ensures forall n :: n in Scanned(r, dir).markers && Scanned(r, dir).markers[n].path == root ==> n in r.markers
  {
    ScanMarksEverything(r, dir);
  }

  lemma {:induction false} AllKnown(ws: seq<Worktree>, known: set<string>)
    requires forall w :: w in ws ==> Name(w.path) in known
    ensures Unknown(ws, known) == []
  {
    if ws != [] {
      AllKnown(ws[..|ws| - 1], known);
      assert ws[|ws| - 1] in ws;
    }
  }

  /** A second scan straight after finds nothing. */
  lemma {:induction false} ScanIsIdempotent(r: Repo, dir: Path)
    requires WellNamed(r.markers)
    ensures Orphans(Scanned(r, dir), dir) == [] && Scanned(Scanned(r, dir), dir) == Scanned(r, dir)
  {
    var s := Scanned(r, dir);
    ScanMarksEverything(r, dir);
    ManagedIsTheFilter(s.worktrees, dir);
    KnownNamesAreTheKeys(s.markers);
    AllKnown(Managed(s.worktrees, dir), KnownNames(s.markers));
  }

  // ----- What a cleanup does -----

  lemma {:induction false} DroppedKeepsTheOthers(ws: seq<Worktree>, p: Path)
    ensures forall w :: w in Dropped(ws, p) <==> w in ws && w.path != p
    ensures forall q :: Listed(Dropped(ws, p), q) <==> Listed(ws, q) && q != p
  {
    if ws != [] {
      DroppedKeepsTheOthers(ws[1..], p);
      assert ws == [ws[0]] + ws[1..];
    }
    forall q
      ensures Listed(Dropped(ws, p), q) <==> Listed(ws, q) && q != p
    {
      ListedByAMember(ws, q);
      ListedByAMember(Dropped(ws, p), q);
    }
  }

  lemma {:induction false} ListedByAMember(ws: seq<Worktree>, p: Path)
    ensures Listed(ws, p) <==> exists w :: w in ws && w.path == p
  {
    if w :| w in ws && w.path == p {
      var i :| 0 <= i < |ws| && ws[i] == w;
      assert ws[i].path == p;
    }
  }

  /**
   * Cleanup deletes a listed marker exactly when it was named and its own worktree could be removed, and that
   * worktree is then gone; every other marker and worktree is left alone.
   */
  lemma {:induction false} CleanupDeletesIff(r: Repo, names: seq<string>, dirty: set<Path>, force: bool)
    requires WellNamed(r.markers)
    requires Distinct(names)
    ensures var c := Cleaned(r, r.markers, names, dirty, force);
            && (forall n :: n in c.markers ==> n in r.markers && c.markers[n] == r.markers[n])
            && (forall n :: n in r.markers ==>
                  (n !in c.markers <==> n in names && Removable(r.worktrees, r.markers[n].path, dirty, force)))
            && (forall q :: Listed(c.worktrees, q) <==>
                  && Listed(r.worktrees, q)
                  && !(Name(q) in r.markers && r.markers[Name(q)].path == q && Name(q) !in c.markers))
  {
    if names != [] {
      var (init, name) := (names[..|names| - 1], names[|names| - 1]);
      CleanupDeletesIff(r, init, dirty, force);
      var c := Cleaned(r, r.markers, init, dirty, force);
      assert names == init + [name];
      assert name !in init;
      if name in r.markers {
        DroppedKeepsTheOthers(c.worktrees, r.markers[name].path);
      }
    }
  }

  lemma {:induction false} NothingCleaned(r: Repo, names: seq<string>, dirty: set<Path>, force: bool)
    ensures Cleaned(r, map[], names, dirty, force) == r
    ensures AllRemoved(r, map[], names, dirty, force) <==> names == []
  {
    if names != [] {
      NothingCleaned(r, names[..|names| - 1], dirty, force);
    }
  }

  /** Every name in a list is removed exactly when each was listed, present in git, and clean or forced. */
  lemma {:induction false} AllRemovedIff(r: Repo, names: seq<string>, dirty: set<Path>, force: bool)
    requires WellNamed(r.markers) && Distinct(names)
    ensures AllRemoved(r, r.markers, names, dirty, force)
            <==> forall n :: n in names ==> n in r.markers && Removable(r.worktrees, r.markers[n].path, dirty, force)
  {
    if names != [] {
      var (init, name) := (names[..|names| - 1], names[|names| - 1]);
      assert names == init + [name];
      assert name !in init;
      AllRemovedIff(r, init, dirty, force);
      CleanupDeletesIff(r, init, dirty, force);
    }
  }

  /** No marker, and no managed worktree for the scan to mark. */
  ghost predicate NothingAbandoned(r: Repo, dir: Path) {
    r.markers == map[] && forall w :: w in r.worktrees ==> !Under(dir, w.path)
  }

  lemma {:induction false} ReportIsEmptyIff(r: Repo, dir: Path)
    requires WellNamed(r.markers)
    ensures Scanned(r, dir).markers == map[] <==> NothingAbandoned(r, dir)
  {
    var s := Scanned(r, dir);
    ScanMarksEverything(r, dir);
    if NothingAbandoned(r, dir) {
      assert forall n :: n !in s.markers;
    }
    if s.markers == map[] {
      assert forall n :: n !in r.markers;
      forall w | w in r.worktrees
        ensures !Under(dir, w.path)
      {
        assert Name(w.path) !in s.markers;
      }
    }
  }

  /**
   * The exit code is zero exactly when nothing was abandoned to begin with, or every name given is listed,
   * present in git, and clean or forced. So it says "everything named was removed" except in one case: names
   * were given and nothing was abandoned.
   */
  lemma {:induction false} ExitCodeIff(r: Repo, dir: Path, names: seq<string>, dirty: set<Path>, force: bool)
    requires WellNamed(r.markers) && Distinct(names)
    ensures var s := Scanned(r, dir);
            && (ExitsZero(r, dir, names, dirty, force) <==>
                  NothingAbandoned(r, dir)
                  || forall n :: n in names ==>
                       n in s.markers && Removable(s.worktrees, s.markers[n].path, dirty, force))
            && ((ExitsZero(r, dir, names, dirty, force) <==> AllRemoved(s, s.markers, names, dirty, force))
                <==> !(NothingAbandoned(r, dir) && names != []))
  {
    ScanMarksEverything(r, dir);
    ReportIsEmptyIff(r, dir);
    AllRemovedIff(Scanned(r, dir), names, dirty, force);
    NothingCleaned(Scanned(r, dir), names, dirty, force);
  }

  /** `cleanup --remove x` in a repository with nothing abandoned: zero, although `x` is no abandoned worktree. */
  lemma {:induction false} UnlistedNameExitsZero(dir: Path)
    ensures ExitsZero(Repo([], map[]), dir, ["x"], {}, false)
    ensures !AllRemoved(Scanned(Repo([], map[]), dir), map[], ["x"], {}, false)
  {
    ExitCodeIff(Repo([], map[]), dir, ["x"], {}, false);
    ReportIsEmptyIff(Repo([], map[]), dir);
    NothingCleaned(Scanned(Repo([], map[]), dir), ["x"], {}, false);
  }

  // ----- Over whole histories -----

  /** The repository, and the worktrees of the runs in progress. */
  datatype System = System(repo: Repo, live: set<Path>)

  datatype Label =
    | Create(w: Worktree)    // a run begins; git refuses a path it already lists
    | Finish(path: Path)     // merged or rejected: the run removes its own worktree
    | Stop(path: Path)       // crash, timeout, divergence, error: the run ends, its worktree stays
    | ByHand(path: Path)     // the developer runs `git worktree remove`
    | Abandon(w: Worktree, task: Option<string>)    // quota exhaustion marks a worktree
    | ScanNow(dir: Path)
    | CleanUp(dir: Path, names: seq<string>, dirty: set<Path>, force: bool)

  predicate Enabled(s: System, l: Label) {
    match l
    case Create(w) => !Listed(s.repo.worktrees, w.path)
    case Finish(p) => p in s.live
    case Stop(p) => p in s.live
    case CleanUp(_, names, _, _) => Distinct(names)
    case _ => true
  }

  function Done(r: Repo, l: Label): Repo {
    match l
    case Create(w) => r.(worktrees := r.worktrees + [w])
    case Finish(p) => r.(worktrees := Dropped(r.worktrees, p))
    case ByHand(p) => r.(worktrees := Dropped(r.worktrees, p))
    case Stop(_) => r
    case Abandon(w, task) => r.(markers := r.markers[Name(w.path) := Mark(w, QuotaExhausted, task)])
    case ScanNow(dir) => Scanned(r, dir)
    case CleanUp(dir, names, dirty, force) => var s := Scanned(r, dir); Cleaned(s, s.markers, names, dirty, force)
  }

  function Next(s: System, l: Label): System {
    if !Enabled(s, l) then s
    else
      System(Done(s.repo, l),
             match l
             case Create(w) => s.live + {w.path}
             case Finish(p) => s.live - {p}
             case Stop(p) => s.live - {p}
             case _ => s.live)
  }

  function Exec(ls: seq<Label>): System {
    if ls == [] then System(Repo([], map[]), {}) else Next(Exec(ls[..|ls| - 1]), ls[|ls| - 1])
  }

  lemma {:induction false} CleanedIsWellNamed(r: Repo, report: Markers, names: seq<string>, dirty: set<Path>,
                                              force: bool)
    requires WellNamed(r.markers)
    ensures WellNamed(Cleaned(r, report, names, dirty, force).markers)
  {
    if names != [] {
      CleanedIsWellNamed(r, report, names[..|names| - 1], dirty, force);
    }
  }

  lemma {:induction false} MarkersStayWellNamed(ls: seq<Label>)
    ensures WellNamed(Exec(ls).repo.markers)
  {
    if ls != [] {
      var (r, l) := (Exec(ls[..|ls| - 1]).repo, ls[|ls| - 1]);
      MarkersStayWellNamed(ls[..|ls| - 1]);
      if l.ScanNow? || l.CleanUp? {
        ScanMarksEverything(r, l.dir);
        if l.CleanUp? {
          CleanedIsWellNamed(Scanned(r, l.dir), Scanned(r, l.dir).markers, l.names, l.dirty, l.force);
        }
      }
    }
  }

  /** In every history, right after a scan each managed worktree is marked, and scanning again changes nothing. */
  lemma {:induction false} RecoveryIsComplete(ls: seq<Label>, dir: Path)
    ensures var (r, s) := (Exec(ls).repo, Exec(ls + [ScanNow(dir)]).repo);
            && s.worktrees == r.worktrees
            && (forall w :: w in s.worktrees && Under(dir, w.path) ==> Name(w.path) in s.markers)
            && (forall n :: n in r.markers ==> n in s.markers && s.markers[n] == r.markers[n])
            && Orphans(s, dir) == [] && Exec(ls + [ScanNow(dir), ScanNow(dir)]).repo == s
  {
    assert (ls + [ScanNow(dir)])[..|ls|] == ls;
    assert (ls + [ScanNow(dir), ScanNow(dir)])[..|ls| + 1] == ls + [ScanNow(dir)];
    MarkersStayWellNamed(ls);
    ScanMarksEverything(Exec(ls).repo, dir);
    ScanIsIdempotent(Exec(ls).repo, dir);
  }

  // ----- Is an unmarked worktree proof of a crash? -----

  /** A run on `p` began, and has neither finished nor stopped since. */
  ghost predicate InProgress(ls: seq<Label>, p: Path) {
    exists i :: 0 <= i < |ls| && Begins(ls, i, p) && NotEndedSince(ls, i, p)
  }

  ghost predicate Begins(ls: seq<Label>, i: nat, p: Path)
    requires i < |ls|
  {
    ls[i].Create? && ls[i].w.path == p && !Listed(Exec(ls[..i]).repo.worktrees, p)
  }

  ghost predicate NotEndedSince(ls: seq<Label>, i: nat, p: Path) {
    forall j :: i < j < |ls| ==> ls[j] != Finish(p) && ls[j] != Stop(p)
  }

  lemma {:induction false} LiveIff(ls: seq<Label>, p: Path)
    ensures p in Exec(ls).live <==> InProgress(ls, p)
  {
    if ls != [] {
      var (n, init) := (|ls| - 1, ls[..|ls| - 1]);
      LiveIff(init, p);
      forall i | 0 <= i < n
        ensures Begins(init, i, p) <==> Begins(ls, i, p)
        ensures NotEndedSince(ls, i, p) <==> NotEndedSince(init, i, p) && ls[n] != Finish(p) && ls[n] != Stop(p)
      {
        assert init[..i] == ls[..i];
        assert forall j :: i < j < n ==> init[j] == ls[j];
      }
      if InProgress(init, p) && ls[n] != Finish(p) && ls[n] != Stop(p) {
        var i :| 0 <= i < n && Begins(init, i, p) && NotEndedSince(init, i, p);
        assert Begins(ls, i, p) && NotEndedSince(ls, i, p);
      }
      assert Begins(ls, n, p) ==> NotEndedSince(ls, n, p);
    }
  }

  /**
   * In every history, the worktrees a scan marks all belong to runs that are over exactly when no run in progress
   * has a managed worktree without a marker.
   */
  lemma {:induction false} ScanMarksTheDeadIff(ls: seq<Label>, dir: Path)
    ensures var r := Exec(ls).repo;
            (forall w :: w in Orphans(r, dir) ==> !InProgress(ls, w.path))
            <==> !exists w :: && w in r.worktrees && Under(dir, w.path)
                              && Name(w.path) !in r.markers && w.path in Exec(ls).live
  {
    var r := Exec(ls).repo;
    MarkersStayWellNamed(ls);
    ManagedIsTheFilter(r.worktrees, dir);
    KnownNamesAreTheKeys(r.markers);
    UnknownIsTheFilter(Managed(r.worktrees, dir), KnownNames(r.markers));
    forall w | w in r.worktrees
      ensures w.path in Exec(ls).live <==> InProgress(ls, w.path)
    {
      LiveIff(ls, w.path);
    }
  }

  // ----- Markers that outlive their worktree -----

  /** The marker `n` names a worktree git no longer lists. */
  ghost predicate Stale(r: Repo, n: string) {
    n in r.markers && !Listed(r.worktrees, r.markers[n].path)
  }

  /**
   * A step that parts a marker from its worktree: a marked worktree goes other than through cleanup, or a
   * worktree already gone is marked.
   */
  ghost predicate Strands(s: System, l: Label, p: Path) {
    var n := Name(p);
    if l.Abandon? then l.w.path == p && !Listed(s.repo.worktrees, p)
    else
      && (l == ByHand(p) || (l == Finish(p) && p in s.live))
      && Listed(s.repo.worktrees, p) && n in s.repo.markers && s.repo.markers[n].path == p
  }

  ghost predicate Stranded(ls: seq<Label>, p: Path) {
    exists i :: 0 <= i < |ls| && StrandsAt(ls, i, p) && NotCreatedSince(ls, i, p)
  }

  ghost predicate StrandsAt(ls: seq<Label>, i: nat, p: Path)
    requires i < |ls|
  {
    Strands(Exec(ls[..i]), ls[i], p)
  }

  ghost predicate NotCreatedSince(ls: seq<Label>, i: nat, p: Path) {
    forall j :: i < j < |ls| ==> !(ls[j].Create? && ls[j].w.path == p)
  }

  /** What one step does to one path: only its creation lists it. */
  lemma {:induction false} OnlyCreationLists(s: System, l: Label, p: Path)
    requires WellNamed(s.repo.markers)
    ensures Listed(Next(s, l).repo.worktrees, p) && !Listed(s.repo.worktrees, p) ==> l.Create? && l.w.path == p
    ensures l.Create? && l.w.path == p ==> Listed(Next(s, l).repo.worktrees, p)
    ensures Strands(s, l, p) ==> !Listed(Next(s, l).repo.worktrees, p)
  {
    if Enabled(s, l) {
      match l
      case Create(w) => CreatedIsListed(s.repo.worktrees, w, p);
      case Finish(q) => DroppedKeepsTheOthers(s.repo.worktrees, q);
      case ByHand(q) => DroppedKeepsTheOthers(s.repo.worktrees, q);
      case CleanUp(dir, names, dirty, force) =>
        ScanMarksEverything(s.repo, dir);
        CleanupDeletesIff(Scanned(s.repo, dir), names, dirty, force);
      case _ =>
    }
  }

  lemma {:induction false} CreatedIsListed(ws: seq<Worktree>, w: Worktree, p: Path)
    ensures Listed(ws + [w], p) <==> Listed(ws, p) || w.path == p
  {
    ListedByAMember(ws, p);
    ListedByAMember(ws + [w], p);
  }

  /** A marker stale after a step was so before, or the step stranded it. */
  lemma {:induction false} StaleStep(s: System, l: Label, n: string)
    requires WellNamed(s.repo.markers) && Stale(Next(s, l).repo, n)
    ensures var p := Next(s, l).repo.markers[n].path;
            && !(l.Create? && l.w.path == p)
            && (Strands(s, l, p) || (Stale(s.repo, n) && s.repo.markers[n].path == p))
  {
    if Enabled(s, l) {
      var p := Next(s, l).repo.markers[n].path;
      match l
      case Create(w) => CreatedIsListed(s.repo.worktrees, w, p);
      case Finish(q) => DroppedKeepsTheOthers(s.repo.worktrees, q);
      case ByHand(q) => DroppedKeepsTheOthers(s.repo.worktrees, q);
      case ScanNow(dir) => ScanAddsNoStaleMarker(s.repo, dir, n);
      case CleanUp(dir, names, dirty, force) =>
        ScanMarksEverything(s.repo, dir);
        CleanupDeletesIff(Scanned(s.repo, dir), names, dirty, force);
        ScanAddsNoStaleMarker(s.repo, dir, n);
      case _ =>
    } else if l.Create? {
      assert Listed(s.repo.worktrees, l.w.path);
    }
  }

  lemma {:induction false} ScanAddsNoStaleMarker(r: Repo, dir: Path, n: string)
    requires WellNamed(r.markers) && Stale(Scanned(r, dir), n)
    ensures Stale(r, n) && r.markers[n] == Scanned(r, dir).markers[n]
  {
    ScanMarksEverything(r, dir);
    ListedByAMember(r.worktrees, Scanned(r, dir).markers[n].path);
  }

  /**
   * In every history, a marker is stale exactly when its worktree was once removed behind its back (or had gone
   * before it was marked) and was not created again since.
   */
  lemma {:induction false} StaleIff(ls: seq<Label>, n: string)
    requires n in Exec(ls).repo.markers
    ensures Stale(Exec(ls).repo, n) <==> Stranded(ls, Exec(ls).repo.markers[n].path)
  {
    if Stale(Exec(ls).repo, n) {
      StaleWasStranded(ls, n);
    }
    if Stranded(ls, Exec(ls).repo.markers[n].path) {
      StrandedStaysUnlisted(ls, Exec(ls).repo.markers[n].path);
    }
  }

  lemma {:induction false} StrandedByTheLastOrBefore(ls: seq<Label>, p: Path)
    requires ls != []
    ensures var (k, init) := (|ls| - 1, ls[..|ls| - 1]);
            Stranded(ls, p) <==>
            StrandsAt(ls, k, p) || (Stranded(init, p) && !(ls[k].Create? && ls[k].w.path == p))
  {
    var (k, init) := (|ls| - 1, ls[..|ls| - 1]);
    forall i | 0 <= i < k
      ensures StrandsAt(init, i, p) <==> StrandsAt(ls, i, p)
      ensures NotCreatedSince(ls, i, p) <==> NotCreatedSince(init, i, p) && !(ls[k].Create? && ls[k].w.path == p)
    {
      assert init[..i] == ls[..i];
      assert forall j :: i < j < k ==> init[j] == ls[j];
    }
    assert NotCreatedSince(ls, k, p);
    if Stranded(init, p) && !(ls[k].Create? && ls[k].w.path == p) {
      var i :| 0 <= i < k && StrandsAt(init, i, p) && NotCreatedSince(init, i, p);
      assert StrandsAt(ls, i, p) && NotCreatedSince(ls, i, p);
    }
  }

  lemma {:induction false} StaleWasStranded(ls: seq<Label>, n: string)
    requires Stale(Exec(ls).repo, n)
    ensures Stranded(ls, Exec(ls).repo.markers[n].path)
  {
    if ls != [] {
      var init := ls[..|ls| - 1];
      MarkersStayWellNamed(init);
      StaleStep(Exec(init), ls[|ls| - 1], n);
      StrandedByTheLastOrBefore(ls, Exec(ls).repo.markers[n].path);
      if Stale(Exec(init).repo, n) {
        StaleWasStranded(init, n);
      }
    }
  }

  lemma {:induction false} StrandedStaysUnlisted(ls: seq<Label>, p: Path)
    requires Stranded(ls, p)
    ensures !Listed(Exec(ls).repo.worktrees, p)
  {
    var init := ls[..|ls| - 1];
    MarkersStayWellNamed(init);
    OnlyCreationLists(Exec(init), ls[|ls| - 1], p);
    StrandedByTheLastOrBefore(ls, p);
    if Stranded(init, p) {
      StrandedStaysUnlisted(init, p);
    }
  }

  /**
   * A stale marker sticks: whatever scans and cleanups follow, forced or not, it stays as it is and stale until
   * a worktree is created at its path again or another one of its name is marked abandoned.
   */
  lemma {:induction false} StaleMarkersStick(ls: seq<Label>, later: seq<Label>, n: string)
    requires Stale(Exec(ls).repo, n)
    requires var p := Exec(ls).repo.markers[n].path;
             forall l :: l in later ==> !(l.Create? && l.w.path == p) && !(l.Abandon? && Name(l.w.path) == n)
    ensures Stale(Exec(ls + later).repo, n) && Exec(ls + later).repo.markers[n] == Exec(ls).repo.markers[n]
  {
    if later == [] {
      assert ls + later == ls;
    } else {
      var (init, l) := (later[..|later| - 1], later[|later| - 1]);
      assert later == init + [l];
      assert (ls + later)[..|ls + later| - 1] == ls + init;
      StaleMarkersStick(ls, init, n);
      MarkersStayWellNamed(ls + init);
      StaleStays(Exec(ls + init), l, n);
    }
  }

  lemma {:induction false} StaleStays(s: System, l: Label, n: string)
    requires WellNamed(s.repo.markers) && Stale(s.repo, n)
    requires !(l.Create? && l.w.path == s.repo.markers[n].path) && !(l.Abandon? && Name(l.w.path) == n)
    ensures Stale(Next(s, l).repo, n) && Next(s, l).repo.markers[n] == s.repo.markers[n]
  {
    OnlyCreationLists(s, l, s.repo.markers[n].path);
    if Enabled(s, l) && (l.ScanNow? || l.CleanUp?) {
      ScanMarksEverything(s.repo, l.dir);
      if l.CleanUp? {
        CleanupDeletesIff(Scanned(s.repo, l.dir), l.names, l.dirty, l.force);
      }
    }
  }

  /** A scan while a run is in progress marks its worktree; once the run has finished, that marker is stale. */
  lemma {:induction false} ScannedLiveRunGoesStale(dir: Path, w: Worktree)
    requires Under(dir, w.path)
    ensures InProgress([Create(w)], w.path) && w in Orphans(Exec([Create(w)]).repo, dir)
    ensures Stale(Exec([Create(w), ScanNow(dir), Finish(w.path)]).repo, Name(w.path))
  {
    var created := Exec([Create(w)]);
    assert [Create(w)][..0] == [] && [Create(w)][0] == Create(w);
    assert Exec([]) == System(Repo([], map[]), {});
    assert !Listed([], w.path) && [] + [w] == [w];
    assert created == System(Repo([w], map[]), {w.path});
    LiveIff([Create(w)], w.path);
    assert [w][..0] == [];
    assert Managed([w], dir) == [w];
    assert KnownNames(map[]) == {};
    assert Unknown([w], {}) == [w];
    assert Orphans(created.repo, dir) == [w];
    assert [Create(w), ScanNow(dir)][..1] == [Create(w)];
    assert [Create(w), ScanNow(dir), Finish(w.path)][..2] == [Create(w), ScanNow(dir)];
    DroppedKeepsTheOthers([w], w.path);
  }
}
