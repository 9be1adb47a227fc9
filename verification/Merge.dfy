/**
 * Divergence detection and the merge loop: `orchestrator/merge.py`. Trees are maps from path to content; a
 * worktree's diff is the list `git diff --name-status HEAD` gives.
 */
module Merge {
  import opened Common

  type Path = string
  type Content = string
  type Tree = map<Path, Content>

  datatype Status = Added | Modified | Deleted | Renamed | Copied

  /** A changed path; `source` is its previous path, set for a rename or a copy. */
  datatype Change = Change(status: Status, source: Option<Path>, path: Path)

  function Lookup(t: Tree, p: Path): Option<Content> {
    if p in t then Some(t[p]) else None
  }

  /** The paths a change touches, in the order the divergence check visits them. */
  function PathsOf(c: Change): seq<Path> {
    (if c.source.Some? then [c.source.value] else []) + [c.path]
  }

  predicate Touches(c: Change, p: Path) {
    c.source == Some(p) || c.path == p
  }

  ghost predicate Touched(cs: seq<Change>, p: Path) {
    exists i :: 0 <= i < |cs| && Touches(cs[i], p)
  }

  // ----- Divergence -----

  /** The paths in the order the check visits them. */
  function Visits(cs: seq<Change>): seq<Path> {
    if cs == [] then [] else Visits(cs[..|cs| - 1]) + PathsOf(cs[|cs| - 1])
  }

  /** `p` is visited, and `q` not until later. */
  ghost predicate SeenBefore(visits: seq<Path>, p: Path, q: Path) {
    exists k :: 0 <= k < |visits| && visits[k] == p && q !in visits[..k + 1]
  }

  /** Every visited path once, in the order of first sight, that differs between the two trees. */
  ghost predicate Reports(visits: seq<Path>, before: Tree, now: Tree, report: seq<Path>) {
    && (forall p :: p in report <==> p in visits && Lookup(before, p) != Lookup(now, p))
    && (forall i, j :: 0 <= i < j < |report| ==> SeenBefore(visits, report[i], report[j]))
  }

  ghost predicate DivergenceReport(cs: seq<Change>, before: Tree, now: Tree, report: seq<Path>) {
    Reports(Visits(cs), before, now, report)
  }

  lemma {:induction false} VisitsAreTouched(cs: seq<Change>)
    ensures forall p :: p in Visits(cs) <==> Touched(cs, p)
  {
    if cs != [] {
      VisitsAreTouched(cs[..|cs| - 1]);
      TouchedExtends(cs, |cs| - 1);
      assert cs[..|cs|] == cs;
    }
  }

  lemma {:induction false} MoreVisitsComeLater(visits: seq<Path>, p: Path)
    ensures forall a, b :: SeenBefore(visits, a, b) ==> SeenBefore(visits + [p], a, b)
    ensures p !in visits ==> forall a :: a in visits ==> SeenBefore(visits + [p], a, p)
  {
    var more := visits + [p];
    forall k | 0 <= k < |visits|
      ensures more[k] == visits[k] && more[..k + 1] == visits[..k + 1]
    {
    }
    forall a, b | SeenBefore(visits, a, b)
      ensures SeenBefore(more, a, b)
    {
      var k :| 0 <= k < |visits| && visits[k] == a && b !in visits[..k + 1];
      assert more[k] == a;
    }
    forall a | a in visits && p !in visits
      ensures SeenBefore(more, a, p)
    {
      var k :| 0 <= k < |visits| && visits[k] == a;
      assert more[k] == a;
    }
  }

  /** One more visit adds its path to the report when it is new and differs. */
  lemma {:induction false} OneMoreVisit(visits: seq<Path>, p: Path, before: Tree, now: Tree, report: seq<Path>)
    requires Reports(visits, before, now, report)
    ensures Reports(visits + [p], before, now,
                    if p !in visits && Lookup(before, p) != Lookup(now, p) then report + [p] else report)
  {
    MoreVisitsComeLater(visits, p);
  }

  /** The state of the check after `visits`. */
  ghost predicate After(visits: seq<Path>, before: Tree, now: Tree, seen: set<Path>, diverged: seq<Path>) {
    seen == (set p | p in visits) && Reports(visits, before, now, diverged)
  }

  lemma {:induction false} AfterOneMore(earlier: seq<Path>, paths: seq<Path>, j: nat, before: Tree, now: Tree,
                                        seen: set<Path>, diverged: seq<Path>)
    requires j < |paths| && After(earlier + paths[..j], before, now, seen, diverged)
    ensures var p := paths[j];
            if p in seen then After(earlier + paths[..j + 1], before, now, seen, diverged)
            else if Lookup(before, p) == Lookup(now, p)
            then After(earlier + paths[..j + 1], before, now, seen + {p}, diverged)
            else After(earlier + paths[..j + 1], before, now, seen + {p}, diverged + [p])
  {
    assert earlier + paths[..j + 1] == earlier + paths[..j] + [paths[j]];
    OneMoreVisit(earlier + paths[..j], paths[j], before, now, diverged);
  }

  lemma {:induction false} OneMoreChange(cs: seq<Change>, i: nat)
    requires i < |cs|
    ensures Visits(cs[..i + 1]) == Visits(cs[..i]) + PathsOf(cs[i])[..|PathsOf(cs[i])|]
  {
    assert cs[..i + 1][..i] == cs[..i];
  }

  method FindDivergedPaths(cs: seq<Change>, before: Tree, now: Tree) returns (diverged: seq<Path>)
    ensures DivergenceReport(cs, before, now, diverged)
    ensures forall p :: p in diverged <==> Touched(cs, p) && Lookup(before, p) != Lookup(now, p)
    ensures forall i, j :: 0 <= i < j < |diverged| ==> diverged[i] != diverged[j]
    ensures diverged == [] <==> Clean(cs, before, now)
  {
    diverged := [];
    var seen: set<Path> := {};
    for i := 0 to |cs|
      invariant After(Visits(cs[..i]), before, now, seen, diverged)
    {
      var paths := PathsOf(cs[i]);
      ghost var earlier := Visits(cs[..i]);
      assert earlier + paths[..0] == earlier;
      for j := 0 to |paths|
        invariant After(earlier + paths[..j], before, now, seen, diverged)
      {
        var path := paths[j];
        AfterOneMore(earlier, paths, j, before, now, seen, diverged);
        if path !in seen {
          seen := seen + {path};
          if Lookup(before, path) != Lookup(now, path) {
            diverged := diverged + [path];
          }
        }
      }
      OneMoreChange(cs, i);
    }
    assert cs[..|cs|] == cs;
    ReportIsOfTheTouched(cs, before, now, diverged);
  }

  lemma {:induction false} ReportIsOfTheTouched(cs: seq<Change>, before: Tree, now: Tree, report: seq<Path>)
    requires DivergenceReport(cs, before, now, report)
    ensures forall p :: p in report <==> Touched(cs, p) && Lookup(before, p) != Lookup(now, p)
    ensures forall i, j :: 0 <= i < j < |report| ==> report[i] != report[j]
    ensures report == [] <==> Clean(cs, before, now)
  {
    VisitsAreTouched(cs);
    forall i, j | 0 <= i < j < |report|
      ensures report[i] != report[j]
    {
      assert SeenBefore(Visits(cs), report[i], report[j]);
    }
    if report != [] {
      assert report[0] in report;
    }
  }

  lemma {:induction false} TouchedExtends(cs: seq<Change>, i: nat)
    requires i < |cs|
    ensures forall p :: Touched(cs[..i + 1], p) <==> Touched(cs[..i], p) || p in PathsOf(cs[i])
  {
    forall p
      ensures Touched(cs[..i], p) || p in PathsOf(cs[i]) ==> Touched(cs[..i + 1], p)
    {
      if Touched(cs[..i], p) {
        TouchedPrefix(cs[..i + 1], i, p);
        assert cs[..i + 1][..i] == cs[..i];
      } else if p in PathsOf(cs[i]) {
        assert Touches(cs[..i + 1][i], p);
      }
    }
    forall p
      ensures Touched(cs[..i + 1], p) && p !in PathsOf(cs[i]) ==> Touched(cs[..i], p)
    {
      if Touched(cs[..i + 1], p) && p !in PathsOf(cs[i]) {
        var k :| 0 <= k < i + 1 && Touches(cs[..i + 1][k], p);
        assert Touches(cs[..i][k], p);
      }
    }
  }

  lemma {:induction false} TouchedPrefix(cs: seq<Change>, n: nat, p: Path)
    requires n <= |cs|
    ensures Touched(cs[..n], p) ==> Touched(cs, p)
  {
    if Touched(cs[..n], p) {
      var k :| 0 <= k < n && Touches(cs[..n][k], p);
      assert Touches(cs[k], p);
    }
  }

  // ----- Applying the diff -----

  /** The developer's real working tree, written in place. */
  class Repo {
    var files: Tree

    constructor (files: Tree)
      ensures this.files == files
    {
      this.files := files;
    }

    method Unlink(p: Path)
      modifies this
      ensures files == old(files) - {p}
    {
      if p in files {
        files := files - {p};
      }
    }
  }

  /** The first change whose content the worktree cannot supply, if any: reading it raises. */
  function FirstMissing(cs: seq<Change>, wt: Tree): (n: nat)
    ensures n <= |cs|
    ensures forall i :: 0 <= i < n ==> cs[i].status.Deleted? || cs[i].path in wt
    ensures n < |cs| ==> !cs[n].status.Deleted? && cs[n].path !in wt
  {
    if cs == [] then 0
    else if !cs[0].status.Deleted? && cs[0].path !in wt then 0
    else 1 + FirstMissing(cs[1..], wt)
  }

  /** What the last change to mention `p` made of it: `None` when no change does. */
  function Effect(cs: seq<Change>, wt: Tree, p: Path): Option<Option<Content>> {
    if cs == [] then None
    else
      var c := cs[|cs| - 1];
      if c.path == p then Some(if c.status.Deleted? then None else Lookup(wt, p))
      else if c.source == Some(p) then Some(None)
      else Effect(cs[..|cs| - 1], wt, p)
  }

  /** The tree with every effect of `cs` in place. */
  ghost predicate Applied(cs: seq<Change>, wt: Tree, before: Tree, after: Tree) {
    forall p :: Lookup(after, p) == Effect(cs, wt, p).GetOr(Lookup(before, p))
  }

  /** What the loop makes of `p`: it stops at a change it cannot read, having unlinked that change's old path. */
  function LoopEffect(cs: seq<Change>, wt: Tree, p: Path): Option<Option<Content>> {
    var n := FirstMissing(cs, wt);
    if n < |cs| && cs[n].source == Some(p) && p != cs[n].path then Some(None) else Effect(cs[..n], wt, p)
  }

  /** The tree as the loop leaves it, finished or not. */
  ghost predicate Looped(cs: seq<Change>, wt: Tree, before: Tree, after: Tree) {
    forall p :: Lookup(after, p) == LoopEffect(cs, wt, p).GetOr(Lookup(before, p))
  }

  lemma {:induction false} LoopedToTheEnd(cs: seq<Change>, wt: Tree, before: Tree, after: Tree)
    requires FirstMissing(cs, wt) == |cs|
    ensures Looped(cs, wt, before, after) <==> Applied(cs, wt, before, after)
  {
    assert cs[..|cs|] == cs;
    assert forall p :: LoopEffect(cs, wt, p) == Effect(cs, wt, p);
  }

  lemma {:induction false} StoppedLoop(cs: seq<Change>, wt: Tree, i: nat, before: Tree, after: Tree)
    requires i < |cs| && !cs[i].status.Deleted? && cs[i].path !in wt
    requires forall k :: 0 <= k < i ==> cs[k].status.Deleted? || cs[k].path in wt
    requires forall p :: Lookup(after, p)
                         == if cs[i].source == Some(p) && p != cs[i].path then None
                            else Effect(cs[..i], wt, p).GetOr(Lookup(before, p))
    ensures FirstMissing(cs, wt) == i && Looped(cs, wt, before, after)
  {
  }

  datatype MergeOutcome = Merged | Rejected | Diverged(paths: seq<Path>) | ReadFailed(path: Path)

  /** `merge`'s loop: it stops where a source cannot be read, having also unlinked that change's old path. */
  method ApplyChanges(repo: Repo, wt: Tree, cs: seq<Change>) returns (failed: Option<Path>)
    modifies repo
    ensures failed == None <==> FirstMissing(cs, wt) == |cs|
    ensures failed == None ==> Applied(cs, wt, old(repo.files), repo.files)
    ensures failed.Some? ==> failed.value == cs[FirstMissing(cs, wt)].path
    ensures Looped(cs, wt, old(repo.files), repo.files)
  {
    for i := 0 to |cs|
      invariant Applied(cs[..i], wt, old(repo.files), repo.files)
      invariant forall k :: 0 <= k < i ==> cs[k].status.Deleted? || cs[k].path in wt
    {
      var c := cs[i];
      assert cs[..i + 1][..i] == cs[..i] && cs[..i + 1][i] == c;
      if c.source.Some? && c.source.value != c.path {
        repo.Unlink(c.source.value);
      }
      if c.status.Deleted? {
        repo.Unlink(c.path);
      } else if c.path !in wt {
        StoppedLoop(cs, wt, i, old(repo.files), repo.files);
        return Some(c.path);
      } else {
        repo.files := repo.files[c.path := wt[c.path]];
      }
    }
    assert cs[..|cs|] == cs;
    LoopedToTheEnd(cs, wt, old(repo.files), repo.files);
    failed := None;
  }

  /** `merge`: nothing is written without approval, or when a touched path diverged from the snapshot. */
  method MergeInto(repo: Repo, wt: Tree, snapshot: Tree, cs: seq<Change>, approved: bool) returns (r: MergeOutcome)
    modifies repo
    ensures r.Rejected? <==> !approved
    ensures r.Diverged? <==> approved && !Clean(cs, snapshot, old(repo.files))
    ensures r.Diverged? ==> DivergenceReport(cs, snapshot, old(repo.files), r.paths)
    ensures r.Rejected? || r.Diverged? ==> repo.files == old(repo.files)
    ensures r.Merged? <==> approved && Clean(cs, snapshot, old(repo.files)) && FirstMissing(cs, wt) == |cs|
    ensures r.Merged? ==> Applied(cs, wt, old(repo.files), repo.files)
    ensures approved && Clean(cs, snapshot, old(repo.files)) ==> Looped(cs, wt, old(repo.files), repo.files)
    ensures forall p :: Lookup(repo.files, p) != Lookup(old(repo.files), p) ==>
                          Touched(cs, p) && Lookup(old(repo.files), p) == Lookup(snapshot, p)
  {
    if !approved {
      return Rejected;
    }
    var diverged := FindDivergedPaths(cs, snapshot, repo.files);
    if diverged != [] {
      return Diverged(diverged);
    }
    var failed := ApplyChanges(repo, wt, cs);
    UntouchedHasNoEffect(cs, wt);
    r := if failed.Some? then ReadFailed(failed.value) else Merged;
    if failed.Some? {
      var n := FirstMissing(cs, wt);
      UntouchedHasNoEffect(cs[..n], wt);
      forall p | !Touched(cs, p)
        ensures Effect(cs[..n], wt, p) == None && cs[n].source != Some(p)
      {
        TouchedPrefix(cs, n, p);
        assert !Touches(cs[n], p);
      }
    }
  }

  ghost predicate Clean(cs: seq<Change>, snapshot: Tree, now: Tree) {
    forall p :: Touched(cs, p) ==> Lookup(snapshot, p) == Lookup(now, p)
  }

  lemma {:induction false} EffectIsOfATouch(cs: seq<Change>, wt: Tree, p: Path)
    ensures Effect(cs, wt, p).Some? <==> Touched(cs, p)
  {
    if cs != [] {
      var init := cs[..|cs| - 1];
      EffectIsOfATouch(init, wt, p);
      TouchedExtends(cs, |cs| - 1);
      assert cs[..|cs|] == cs;
    }
  }

  lemma {:induction false} UntouchedHasNoEffect(cs: seq<Change>, wt: Tree)
    ensures forall p :: Effect(cs, wt, p).Some? <==> Touched(cs, p)
  {
    forall p
      ensures Effect(cs, wt, p).Some? <==> Touched(cs, p)
    {
      EffectIsOfATouch(cs, wt, p);
    }
  }

  // ----- What the loop does to a well-shaped diff -----

  /** Every changed path is listed once, and a rename's source is not itself a changed path. */
  ghost predicate WellShaped(cs: seq<Change>) {
    && (forall i, j :: 0 <= i < j < |cs| ==> cs[i].path != cs[j].path)
    && (forall i, j :: 0 <= i < |cs| && 0 <= j < |cs| ==> cs[i].source != Some(cs[j].path))
  }

  /** What a diff asks for, whatever its order. */
  ghost predicate Realises(cs: seq<Change>, wt: Tree, before: Tree, after: Tree) {
    && (forall c :: c in cs ==> Lookup(after, c.path) == if c.status.Deleted? then None else Lookup(wt, c.path))
    && (forall c :: c in cs && c.source.Some? ==> c.source.value !in after)
    && (forall p :: !Touched(cs, p) ==> Lookup(after, p) == Lookup(before, p))
  }

  lemma {:induction false} EffectOfAWellShapedDiff(cs: seq<Change>, wt: Tree, i: nat)
    requires WellShaped(cs) && i < |cs|
    ensures Effect(cs, wt, cs[i].path) == Some(if cs[i].status.Deleted? then None else Lookup(wt, cs[i].path))
    ensures cs[i].source.Some? ==> Effect(cs, wt, cs[i].source.value) == Some(None)
  {
    if i < |cs| - 1 {
      EffectOfAWellShapedDiff(cs[..|cs| - 1], wt, i);
    }
  }

  lemma {:induction false} ApplyingRealisesTheDiff(cs: seq<Change>, wt: Tree, before: Tree, after: Tree)
    requires WellShaped(cs) && Applied(cs, wt, before, after)
    ensures Realises(cs, wt, before, after)
  {
    forall c | c in cs
      ensures Lookup(after, c.path) == if c.status.Deleted? then None else Lookup(wt, c.path)
      ensures c.source.Some? ==> c.source.value !in after
    {
      var i :| 0 <= i < |cs| && cs[i] == c;
      EffectOfAWellShapedDiff(cs, wt, i);
      if c.source.Some? {
        assert Lookup(after, c.source.value) == None;
      }
    }
    UntouchedHasNoEffect(cs, wt);
  }

  /** The order of a well-shaped diff does not matter. */
  lemma {:induction false} OrderIsIrrelevant(cs: seq<Change>, ds: seq<Change>, wt: Tree, before: Tree,
                                             after: Tree, after': Tree)
    requires WellShaped(cs) && WellShaped(ds) && multiset(cs) == multiset(ds)
    requires Applied(cs, wt, before, after) && Applied(ds, wt, before, after')
    ensures after == after'
  {
    ApplyingRealisesTheDiff(cs, wt, before, after);
    ApplyingRealisesTheDiff(ds, wt, before, after');
    forall c
      ensures c in cs <==> c in ds
    {
      assert c in multiset(cs) <==> c in multiset(ds);
    }
    forall p
      ensures Lookup(after, p) == Lookup(after', p)
    {
      TouchedByAMember(cs, p);
      TouchedByAMember(ds, p);
      if c :| c in cs && Touches(c, p) {
        assert Lookup(after, p) == Lookup(after', p);
      }
    }
    SameLookups(after, after');
  }

  lemma {:induction false} TouchedByAMember(cs: seq<Change>, p: Path)
    ensures Touched(cs, p) <==> exists c :: c in cs && Touches(c, p)
  {
    if c :| c in cs && Touches(c, p) {
      var i :| 0 <= i < |cs| && cs[i] == c;
      assert Touches(cs[i], p);
    }
  }

  lemma {:induction false} SameLookups(a: Tree, b: Tree)
    requires forall p :: Lookup(a, p) == Lookup(b, p)
    ensures a == b
  {
    forall p
      ensures p in a <==> p in b
      ensures p in a ==> a[p] == b[p]
    {
      assert Lookup(a, p) == Lookup(b, p);
    }
  }

  /** Permutations of a well-shaped diff are well shaped. */
  lemma {:induction false} WellShapedUnderPermutation(cs: seq<Change>, ds: seq<Change>)
    requires WellShaped(cs) && multiset(cs) == multiset(ds)
    ensures WellShaped(ds)
  {
    forall i, j | 0 <= i < |ds| && 0 <= j < |ds|
      ensures ds[i].source != Some(ds[j].path)
    {
      assert ds[i] in multiset(cs) && ds[j] in multiset(cs);
    }
    forall i, j | 0 <= i < j < |ds|
      ensures ds[i].path != ds[j].path
    {
      assert ds[i] in multiset(cs) && ds[j] in multiset(cs);
      if ds[i].path == ds[j].path {
        var a :| 0 <= a < |cs| && cs[a] == ds[i];
        var b :| 0 <= b < |cs| && cs[b] == ds[j];
        assert a == b;
        TwiceInASequence(ds, i, j);
        OnceInASequence(cs, a);
        assert false;
      }
    }
  }

  lemma {:induction false} TwiceInASequence(xs: seq<Change>, i: nat, j: nat)
    requires i < j < |xs| && xs[i] == xs[j]
    ensures multiset(xs)[xs[i]] >= 2
  {
    assert xs == xs[..j] + [xs[j]] + xs[j + 1..];
    assert xs[i] in xs[..j];
    assert xs[i] in multiset(xs[..j]);
  }

  lemma {:induction false} OnceInASequence(xs: seq<Change>, i: nat)
    requires i < |xs| && forall j :: 0 <= j < |xs| && j != i ==> xs[j] != xs[i]
    ensures multiset(xs)[xs[i]] == 1
  {
    assert xs == xs[..i] + [xs[i]] + xs[i + 1..];
    assert xs[i] !in xs[..i] && xs[i] !in xs[i + 1..];
  }

  // ----- Copies -----

  /** A diff that may also report copies, whose sources are still in the worktree. */
  ghost predicate WithCopies(cs: seq<Change>, wt: Tree) {
    && (forall i, j :: 0 <= i < j < |cs| ==> cs[i].path != cs[j].path)
    && (forall c :: c in cs ==> (c.status.Deleted? <==> c.path !in wt) && c.source != Some(c.path))
    && (forall c :: c in cs && c.source.Some? ==> (c.status.Copied? <==> c.source.value in wt))
  }

  /** A copy whose source is not written again by a later change. */
  ghost predicate LosesItsSource(cs: seq<Change>, i: nat)
    requires i < |cs|
  {
    cs[i].status.Copied? && cs[i].source.Some? && forall j :: i < j < |cs| ==> cs[j].path != cs[i].source.value
  }

  lemma {:induction false} EffectAgreesUnlessLost(cs: seq<Change>, wt: Tree, p: Path)
    requires WithCopies(cs, wt)
    requires Effect(cs, wt, p).Some?
    ensures Effect(cs, wt, p).value == Lookup(wt, p)
            <==> !exists i: nat :: i < |cs| && cs[i].source == Some(p) && LosesItsSource(cs, i)
  {
    var n := |cs| - 1;
    var c := cs[n];
    assert c in cs;
    assert forall d :: d in cs[..n] ==> d in cs;
    if c.path == p {
      assert forall i: nat :: i < |cs| && cs[i].source == Some(p) && LosesItsSource(cs, i) ==> i == n;
    } else if c.source == Some(p) {
      assert c.status.Copied? <==> LosesItsSource(cs, n);
      if !c.status.Copied? {
        assert p !in wt;
        assert forall i: nat :: i < |cs| && cs[i].source == Some(p) ==> cs[i] in cs && !cs[i].status.Copied?;
      }
    } else {
      EffectAgreesUnlessLost(cs[..n], wt, p);
      forall i: nat | i < n && cs[i].source == Some(p)
        ensures LosesItsSource(cs, i) <==> LosesItsSource(cs[..n], i)
      {
        assert forall j :: i < j < n ==> cs[..n][j] == cs[j];
      }
    }
  }

  /**
   * With copies in the diff the merge leaves the worktree's content on every touched path, unless a copy loses its
   * source.
   */
  lemma {:induction false} CopiesMergeIff(cs: seq<Change>, wt: Tree, before: Tree, after: Tree)
    requires WithCopies(cs, wt) && Applied(cs, wt, before, after)
    ensures (forall p :: Touched(cs, p) ==> Lookup(after, p) == Lookup(wt, p))
            <==> !exists i: nat :: i < |cs| && LosesItsSource(cs, i)
  {
    forall p | Touched(cs, p)
      ensures Lookup(after, p) == Lookup(wt, p)
              <==> !exists i: nat :: i < |cs| && cs[i].source == Some(p) && LosesItsSource(cs, i)
    {
      EffectIsOfATouch(cs, wt, p);
      EffectAgreesUnlessLost(cs, wt, p);
    }
    if i: nat :| i < |cs| && LosesItsSource(cs, i) {
      var p := cs[i].source.value;
      assert Touches(cs[i], p) && Touched(cs, p);
    }
  }

  /** So a copy can lose or keep its source depending on the order of the list alone. */
  lemma {:induction false} CopyOrderMatters()
    ensures var (wt, before) := (map["a" := "1", "b" := "1"], map["a" := "0"]);
            var (copy, edit) := (Change(Copied, Some("a"), "b"), Change(Modified, None, "a"));
            && WithCopies([copy, edit], wt) && WithCopies([edit, copy], wt)
            && Applied([copy, edit], wt, before, wt)
            && Applied([edit, copy], wt, before, map["b" := "1"])
  {
    var (copy, edit) := (Change(Copied, Some("a"), "b"), Change(Modified, None, "a"));
    var wt := map["a" := "1", "b" := "1"];
    assert [copy, edit][..1] == [copy] && [edit, copy][..1] == [edit];
    forall p
      ensures Effect([copy, edit], wt, p) == if p == "a" || p == "b" then Some(Some("1")) else None
      ensures Effect([edit, copy], wt, p) == if p == "a" then Some(None) else if p == "b" then Some(Some("1")) else None
    {
      assert Effect([copy], wt, p) == if p == "b" then Some(Some("1")) else if p == "a" then Some(None) else None;
      assert Effect([edit], wt, p) == if p == "a" then Some(Some("1")) else None;
    }
  }

  // ----- Serialisability -----

  /** Replay onto `base` everything the developer changed between `from` and `to`. */
  ghost predicate Replayed(from: Tree, to: Tree, base: Tree, result: Tree) {
    forall p :: Lookup(result, p) == if Lookup(from, p) != Lookup(to, p) then Lookup(to, p) else Lookup(base, p)
  }

  /**
   * A clean merge equals the worktree's diff on the snapshot followed by the developer's edits, and the
   * developer's edits on the snapshot followed by the worktree's diff.
   */
  lemma {:induction false} MergeIsSerialisable(cs: seq<Change>, wt: Tree, snapshot: Tree, now: Tree, merged: Tree,
                                               diffed: Tree, first: Tree, replayed: Tree, second: Tree)
    requires Clean(cs, snapshot, now) && Applied(cs, wt, now, merged)
    requires Applied(cs, wt, snapshot, diffed) && Replayed(snapshot, now, diffed, first)
    requires Replayed(snapshot, now, snapshot, replayed) && Applied(cs, wt, replayed, second)
    ensures first == merged && second == merged
  {
    UntouchedHasNoEffect(cs, wt);
    forall p
      ensures Lookup(first, p) == Lookup(merged, p) == Lookup(second, p)
    {
      if Touched(cs, p) {
        assert Lookup(snapshot, p) == Lookup(now, p);
      } else {
        assert Effect(cs, wt, p) == None;
        assert Lookup(diffed, p) == Lookup(snapshot, p) && Lookup(replayed, p) == Lookup(now, p);
      }
    }
    SameLookups(first, merged);
    SameLookups(second, merged);
  }
}
