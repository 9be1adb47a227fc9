/**
 * Which of the adapter's changes a merged run delivers. `merge()` applies what it reads of the lines that
 * `git diff --name-status HEAD` prints inside the worktree; the worktree is then removed with everything else.
 */
module Delivery {
  import opened Common
  import opened Merge
  import opened NameStatus
  import RunTask

  /** A worktree as git sees it: the commit checked out, the index, the files. */
  datatype Checkout = Checkout(head: Tree, index: Tree, work: Tree)

  /** What an adapter may do in it: write files, `git add`, `git commit`. */
  datatype Act = Write(path: Path, content: Content) | Remove(path: Path) | Stage(path: Path) | Commit

  /** A worktree at `head`, seeded from the snapshot: files the commit lacks are added to the index. */
  function Seeded(head: Tree, snapshot: Tree): Checkout {
    Checkout(head, snapshot + head, snapshot)
  }

  function Acted(c: Checkout, a: Act): Checkout {
    match a
    case Write(p, content) => c.(work := c.work[p := content])
    case Remove(p) => c.(work := c.work - {p})
    case Stage(p) => c.(index := if p in c.work then c.index[p := c.work[p]] else c.index - {p})
    case Commit => c.(head := c.index)
  }

  function Session(c: Checkout, acts: seq<Act>): Checkout {
    if acts == [] then c else Acted(Session(c, acts[..|acts| - 1]), acts[|acts| - 1])
  }

  // ----- The diff -----

  /** The files git compares with HEAD: the tracked ones, as they are on disk. */
  function Tracked(c: Checkout): Tree {
    map p | p in c.work && p in c.index :: c.work[p]
  }

  predicate Changed(c: Checkout, p: Path) {
    Lookup(c.head, p) != Lookup(Tracked(c), p)
  }

  /** A list `git diff --name-status HEAD` may give: one entry per differing path, renames paired in any way. */
  ghost predicate IsDiff(cs: seq<Change>, c: Checkout) {
    && WellShaped(cs)
    && (forall p :: Touched(cs, p) <==> Changed(c, p))
    && (forall i :: 0 <= i < |cs| ==> (cs[i].status.Deleted? <==> cs[i].path !in Tracked(c)))
    && (forall i :: 0 <= i < |cs| && cs[i].source.Some? ==> cs[i].source.value !in Tracked(c))
  }

  /** The list the merge works from is what it reads of git's lines for the diff. */
  ghost predicate IsReadDiff(read: seq<Change>, ds: seq<Change>, scores: seq<string>, c: Checkout) {
    IsDiff(ds, c) && AllPrintable(ds, scores) && read == ReadBack(ds, scores)
  }

  // ----- What the loop does with it -----

  lemma {:induction false} EffectOfTheDiff(ds: seq<Change>, c: Checkout, wt: Tree, p: Path)
    requires IsDiff(ds, c)
    ensures Effect(ds, wt, p)
            == if !Changed(c, p) then None else Some(if p in Tracked(c) then Lookup(wt, p) else None)
  {
    EffectIsOfATouch(ds, wt, p);
    if Touched(ds, p) {
      var i :| 0 <= i < |ds| && Touches(ds[i], p);
      EffectOfAWellShapedDiff(ds, wt, i);
    }
  }

  lemma {:induction false} EffectOfTheReadDiff(read: seq<Change>, ds: seq<Change>, scores: seq<string>, c: Checkout,
                                               p: Path)
    requires IsReadDiff(read, ds, scores, c)
    ensures Effect(read, c.work, Quoted(p))
            == if !Changed(c, p) then None
               else Some(if p in Tracked(c) then Lookup(c.work, Quoted(p)) else None)
  {
    var behind: Tree := if Quoted(p) in c.work then map[p := c.work[Quoted(p)]] else map[];
    ParseReadsTheSpelling(ds, scores);
    EffectOfASpelling(ds, c.work, behind, p);
    EffectOfTheDiff(ds, c, behind, p);
  }

  /** `p` is how git spells a path that differs from HEAD. */
  ghost predicate SpellsAChange(c: Checkout, p: Path) {
    exists q :: Quoted(q) == p && Changed(c, q)
  }

  lemma {:induction false} TouchedIsSpelled(read: seq<Change>, ds: seq<Change>, scores: seq<string>, c: Checkout,
                                            p: Path)
    requires IsReadDiff(read, ds, scores, c) && Touched(read, p)
    ensures SpellsAChange(c, p)
  {
    ParseReadsTheSpelling(ds, scores);
    var i :| 0 <= i < |read| && Touches(read[i], p);
    var q := if read[i].path == p then ds[i].path else ds[i].source.value;
    assert Touches(ds[i], q) && Quoted(q) == p && Changed(c, q);
  }

  lemma {:induction false} NoEffectElsewhere(read: seq<Change>, ds: seq<Change>, scores: seq<string>, c: Checkout,
                                             p: Path)
    requires IsReadDiff(read, ds, scores, c) && !SpellsAChange(c, p)
    ensures Effect(read, c.work, p) == None
  {
    EffectIsOfATouch(read, c.work, p);
    if Touched(read, p) {
      TouchedIsSpelled(read, ds, scores, c, p);
    }
  }

  /**
   * The loop gets through the diff of a worktree exactly when every tracked path that differs from HEAD has a file
   * by its spelling.
   */
  lemma {:induction false} ReadDiffMergesIff(read: seq<Change>, ds: seq<Change>, scores: seq<string>, c: Checkout)
    requires IsReadDiff(read, ds, scores, c)
    ensures FirstMissing(read, c.work) == |read|
            <==> forall q :: q in Tracked(c) && Changed(c, q) ==> Quoted(q) in c.work
  {
    QuotedPathStopsTheMerge(ds, scores, c.work);
    ParseReadsTheSpelling(ds, scores);
    forall i | 0 <= i < |ds|
      ensures Changed(c, ds[i].path)
    {
      assert Touches(ds[i], ds[i].path);
    }
    forall q | q in Tracked(c) && Changed(c, q)
      ensures exists i :: 0 <= i < |ds| && !ds[i].status.Deleted? && ds[i].path == q
    {
      var i :| 0 <= i < |ds| && Touches(ds[i], q);
      assert ds[i].path == q;
    }
  }

  /**
   * When no path in the diff needs quotes, the loop cannot fail, and delivers the tracked files wherever they differ
   * from HEAD, and nothing else.
   */
  lemma {:induction false} DiffDeliversTheTracked(read: seq<Change>, ds: seq<Change>, scores: seq<string>, c: Checkout,
                                                  now: Tree, merged: Tree)
    requires IsReadDiff(read, ds, scores, c) && forall q :: Changed(c, q) ==> !NeedsQuotes(q)
    ensures FirstMissing(read, c.work) == |read|
    ensures Applied(read, c.work, now, merged)
            <==> forall p :: Lookup(merged, p)
                             == if Changed(c, p) then Lookup(Tracked(c), p) else Lookup(now, p)
  {
    ReadDiffMergesIff(read, ds, scores, c);
    forall p
      ensures Effect(read, c.work, p) == if Changed(c, p) then Some(Lookup(Tracked(c), p)) else None
    {
      if SpellsAChange(c, p) {
        var q :| Quoted(q) == p && Changed(c, q);
        EffectOfTheReadDiff(read, ds, scores, c, q);
      } else {
        NoEffectElsewhere(read, ds, scores, c, p);
        assert Changed(c, p) ==> Quoted(p) == p;
      }
    }
  }

  // ----- What becomes of one change -----

  /** What a caller can check before the merge: git sees the path's state, and finds it differs from HEAD. */
  predicate SeenByTheDiff(c: Checkout, p: Path) {
    (p in c.index || p !in c.work) && Lookup(c.work, p) != Lookup(c.head, p)
  }

  /** The diff has an entry spelled `p`, for a path with a tracked file; or the adapter left nothing at `p`. */
  ghost predicate Delivers(c: Checkout, p: Path) {
    exists q :: Quoted(q) == p && Changed(c, q) && (q in Tracked(c) || p !in c.work)
  }

  /** Unless `p` happens to be another changed path's spelling: it is seen, and needs no quotes. */
  lemma {:induction false} DeliversIff(c: Checkout, p: Path)
    requires forall q :: Changed(c, q) && Quoted(q) == p ==> q == p
    ensures Delivers(c, p) <==> SeenByTheDiff(c, p) && !NeedsQuotes(p)
  {
    QuotingIsVisible(p);
    if SeenByTheDiff(c, p) && !NeedsQuotes(p) {
      assert Changed(c, p);
    }
  }

  /**
   * A path where the worktree differs from the developer's tree ends up as the adapter left it exactly when the diff
   * delivers it. Otherwise the developer's tree is unchanged there, unless an entry takes it for a deletion.
   */
  lemma {:induction false} ChangeIsDeliveredIff(read: seq<Change>, ds: seq<Change>, scores: seq<string>, c: Checkout,
                                                now: Tree, merged: Tree, p: Path)
    requires IsReadDiff(read, ds, scores, c) && Applied(read, c.work, now, merged)
    requires Lookup(c.work, p) != Lookup(now, p)
    ensures Lookup(merged, p) == Lookup(c.work, p) <==> Delivers(c, p)
    ensures !Delivers(c, p) ==> Lookup(merged, p) == if SpellsAChange(c, p) then None else Lookup(now, p)
  {
    if SpellsAChange(c, p) {
      var q :| Quoted(q) == p && Changed(c, q);
      EffectOfTheReadDiff(read, ds, scores, c, q);
      if Delivers(c, p) {
        var q' :| Quoted(q') == p && Changed(c, q') && (q' in Tracked(c) || p !in c.work);
        QuotedTellsApart(q, q');
      }
    } else {
      NoEffectElsewhere(read, ds, scores, c, p);
    }
  }

  /** The worktree of a run: seeded from its snapshot, and left as the adapter's session ends. */
  function WorktreeOf(before: Tree, env: RunTask.RunEnv, tracked: set<Path>, head: Tree, acts: seq<Act>): Checkout {
    Session(Seeded(head, RunTask.Snapshot(before, env, tracked)), acts)
  }

  /** The run's merge stage sees that worktree, and what can be read of its diff. */
  ghost predicate Sees(env: RunTask.RunEnv, c: Checkout, ds: seq<Change>, scores: seq<string>) {
    env.adapter.Adapted? && env.adapter.wt == c.work && IsReadDiff(env.adapter.changes, ds, scores, c)
  }

  /**
   * In every run that ends merged, whatever the adapter did: a path it changed, and the developer did not, ends up
   * as the adapter left it exactly when the diff delivers it; short of a clash of spellings, exactly when it is
   * tracked, differs from the worktree's own HEAD, and needs no quotes.
   */
  lemma {:induction false} MergedRunDeliversIff(before: Tree, env: RunTask.RunEnv, tracked: set<Path>, listed: bool,
                                                after: Tree, end: RunTask.RunEnd, record: RunTask.Record,
                                                head: Tree, acts: seq<Act>, ds: seq<Change>, scores: seq<string>,
                                                p: Path)
    requires env.checks && RunTask.Protocol(before, env, tracked, listed, after, end, record)
    requires end.Returned? && end.outcome == RunTask.MERGED
    requires var snapshot := RunTask.Snapshot(before, env, tracked);
             var c := WorktreeOf(before, env, tracked, head, acts);
             && Sees(env, c, ds, scores)
             && Lookup(c.work, p) != Lookup(snapshot, p)
             && Lookup(RunTask.Edits(before, RunTask.BeforeMerge(env)), p) == Lookup(snapshot, p)
             && forall e :: e in env.after ==> e.path != p
    ensures var c := WorktreeOf(before, env, tracked, head, acts);
            && (Lookup(after, p) == Lookup(c.work, p) <==> Delivers(c, p))
            && ((forall q :: Changed(c, q) && Quoted(q) == p ==> q == p) ==>
                  (Lookup(after, p) == Lookup(c.work, p) <==> SeenByTheDiff(c, p) && !NeedsQuotes(p)))
  {
    var c := WorktreeOf(before, env, tracked, head, acts);
    var now := RunTask.Edits(before, RunTask.BeforeMerge(env));
    RunTask.ReturnedTree(before, env, tracked, listed, after, end, record);
    var merged: Tree :| && Applied(env.adapter.changes, env.adapter.wt, now, merged)
                        && after == RunTask.Edits(merged, env.after);
    RunTask.UneditedStays(merged, env.after, p);
    ChangeIsDeliveredIff(env.adapter.changes, ds, scores, c, now, merged, p);
    if forall q :: Changed(c, q) && Quoted(q) == p ==> q == p {
      DeliversIff(c, p);
    }
  }

  /** A run without incidents: the adapter's session, approval, and the developer's edits before the merge. */
  function QuietRun(wt: Tree, changes: seq<Change>, late: seq<RunTask.Edit>): RunTask.RunEnv {
    RunTask.RunEnv(true, [], RunTask.Prepared, [], RunTask.Adapted(wt, changes), [], None, RunTask.Yes, late, None,
                   [], None)
  }

  /** It merges when nothing diverged and every source can be read. */
  lemma {:induction false} QuietRunEnds(before: Tree, wt: Tree, changes: seq<Change>, late: seq<RunTask.Edit>,
                                        tracked: set<Path>, listed: bool, after: Tree, end: RunTask.RunEnd,
                                        record: RunTask.Record)
    requires RunTask.Protocol(before, QuietRun(wt, changes, late), tracked, listed, after, end, record)
    ensures var (env, now) := (QuietRun(wt, changes, late), RunTask.Edits(before, late));
            var snapshot := RunTask.Snapshot(before, env, tracked);
            && (end.Returned? && end.outcome == RunTask.DIVERGED <==> !Clean(changes, snapshot, now))
            && (end.Returned? && end.outcome == RunTask.MERGED <==>
                  Clean(changes, snapshot, now) && FirstMissing(changes, wt) == |changes|)
            && (end.Returned? && end.outcome == RunTask.MERGED ==> Applied(changes, wt, now, after))
  {
    var env := QuietRun(wt, changes, late);
    assert RunTask.BeforeMerge(env) == late;
    if end.Returned? && end.outcome == RunTask.MERGED {
      RunTask.ReturnedTree(before, env, tracked, listed, after, end, record);
      assert forall t: Tree :: RunTask.Edits(t, []) == t;
    }
  }

  /** The adapter deletes a tracked file whose name needs quotes: the run ends merged, and the file is still there. */
  lemma {:induction false} DeletionIsNotDelivered(p: Path, a: Content, listed: bool, after: Tree, end: RunTask.RunEnd,
                                                  record: RunTask.Record)
    requires NeedsQuotes(p)
    requires RunTask.Protocol(map[p := a], Deleting(p), {p}, listed, after, end, record)
    ensures var c := WorktreeOf(map[p := a], Deleting(p), {p}, map[p := a], [Remove(p)]);
            Sees(Deleting(p), c, [Change(Deleted, None, p)], [""]) && SeenByTheDiff(c, p)
    ensures end.Returned? && end.outcome == RunTask.MERGED && Lookup(after, p) == Some(a)
  {
    DeletingAdapterSees(p, a);
    QuotingIsVisible(p);
    QuotedDeletionDoesNothing(p, map[], map[p := a]);
    ParseReadsTheSpelling([Change(Deleted, None, p)], [""]);
    QuietRunEnds(map[p := a], map[], Deleting(p).adapter.changes, [], {p}, listed, after, end, record);
    SameLookups(after, map[p := a]);
  }

  function Deleting(p: Path): RunTask.RunEnv {
    QuietRun(map[], ReadBack([Change(Deleted, None, p)], [""]), [])
  }

  lemma {:induction false} DeletingAdapterSees(p: Path, a: Content)
    ensures RunTask.Snapshot(map[p := a], Deleting(p), {p}) == map[p := a]
    ensures var c := WorktreeOf(map[p := a], Deleting(p), {p}, map[p := a], [Remove(p)]);
            Sees(Deleting(p), c, [Change(Deleted, None, p)], [""]) && SeenByTheDiff(c, p)
  {
    var before := map[p := a];
    assert RunTask.Snapshot(before, Deleting(p), {p}) == before;
    SessionOfOne(Seeded(before, before), Remove(p));
    var c := WorktreeOf(before, Deleting(p), {p}, before, [Remove(p)]);
    assert c == Checkout(before, before, map[]);
    OneDeletionIsTheDiff(p, c);
  }

  lemma {:induction false} OneDeletionIsTheDiff(p: Path, c: Checkout)
    requires c.work == map[] && c.head.Keys == {p}
    ensures IsDiff([Change(Deleted, None, p)], c)
  {
    var ds := [Change(Deleted, None, p)];
    forall q
      ensures Touched(ds, q) <==> Changed(c, q)
    {
      assert Touches(ds[0], p);
    }
  }

  // ----- Which edits of the developer block a merge -----

  /** The developer has left alone every path the adapter changed. */
  ghost predicate LeavesAlone(c: Checkout, snapshot: Tree, now: Tree) {
    forall p :: Lookup(c.work, p) != Lookup(snapshot, p) ==> Lookup(now, p) == Lookup(snapshot, p)
  }

  ghost predicate UnrelatedEditsNeverBlock(read: seq<Change>, c: Checkout, snapshot: Tree) {
    forall now: Tree :: LeavesAlone(c, snapshot, now) ==> Clean(read, snapshot, now)
  }

  /**
   * Edits to other files than the adapter changed never block the merge exactly when every path the diff names is
   * one the adapter changed: no file was already different from HEAD when the run began.
   */
  lemma {:induction false} UnrelatedEditsNeverBlockIff(read: seq<Change>, ds: seq<Change>, scores: seq<string>,
                                                       c: Checkout, snapshot: Tree)
    requires IsReadDiff(read, ds, scores, c)
    ensures UnrelatedEditsNeverBlock(read, c, snapshot)
            <==> forall q :: Changed(c, q) ==> Lookup(c.work, Quoted(q)) != Lookup(snapshot, Quoted(q))
  {
    if q :| Changed(c, q) && Lookup(c.work, Quoted(q)) == Lookup(snapshot, Quoted(q)) {
      SomeEditBlocks(read, ds, scores, c, snapshot, q);
    } else {
      forall now: Tree | LeavesAlone(c, snapshot, now)
        ensures Clean(read, snapshot, now)
      {
        forall p | Touched(read, p)
          ensures Lookup(snapshot, p) == Lookup(now, p)
        {
          TouchedIsSpelled(read, ds, scores, c, p);
        }
      }
    }
  }

  lemma {:induction false} SomeEditBlocks(read: seq<Change>, ds: seq<Change>, scores: seq<string>, c: Checkout,
                                          snapshot: Tree, q: Path)
    requires IsReadDiff(read, ds, scores, c)
    requires Changed(c, q) && Lookup(c.work, Quoted(q)) == Lookup(snapshot, Quoted(q))
    ensures exists now: Tree :: LeavesAlone(c, snapshot, now) && !Clean(read, snapshot, now)
  {
    var p := Quoted(q);
    EffectOfTheReadDiff(read, ds, scores, c, q);
    EffectIsOfATouch(read, c.work, p);
    var now := if p in snapshot then snapshot - {p} else snapshot[p := ""];
    assert Lookup(snapshot, p) != Lookup(now, p);
    assert LeavesAlone(c, snapshot, now) && !Clean(read, snapshot, now);
  }

  /**
   * The adapter does nothing, and the developer goes on editing a file that was dirty when the run began: the run
   * ends diverged.
   */
  lemma {:induction false} DirtyFileBlocks(p: Path, a: Content, b: Content, later: Content, listed: bool, after: Tree,
                                           end: RunTask.RunEnd, record: RunTask.Record)
    requires !NeedsQuotes(p) && a != b && b != later
    requires RunTask.Protocol(map[p := b], StillEditing(p, b, later), {p}, listed, after, end, record)
    ensures var c := WorktreeOf(map[p := b], StillEditing(p, b, later), {p}, map[p := a], []);
            && Sees(StillEditing(p, b, later), c, [Change(Modified, None, p)], [""])
            && LeavesAlone(c, map[p := b], map[p := later])
    ensures end.Returned? && end.outcome == RunTask.DIVERGED
  {
    IdleAdapterSees(p, a, b, later);
    var ds := [Change(Modified, None, p)];
    PlainIsReadBack(p);
    OneEdit(map[p := b], p, later);
    RunTask.OneChangeDiverges(p, map[p := b], map[p := later]);
    QuietRunEnds(map[p := b], map[p := b], ds, StillEditing(p, b, later).late, {p}, listed, after, end, record);
  }

  lemma {:induction false} IdleAdapterSees(p: Path, a: Content, b: Content, later: Content)
    requires !NeedsQuotes(p) && a != b
    ensures RunTask.Snapshot(map[p := b], StillEditing(p, b, later), {p}) == map[p := b]
    ensures var c := WorktreeOf(map[p := b], StillEditing(p, b, later), {p}, map[p := a], []);
            && c == Checkout(map[p := a], map[p := a], map[p := b])
            && Sees(StillEditing(p, b, later), c, [Change(Modified, None, p)], [""])
  {
    var (before, head) := (map[p := b], map[p := a]);
    assert RunTask.Snapshot(before, StillEditing(p, b, later), {p}) == before;
    assert before + head == head;
    OneModificationIsTheDiff(p, Checkout(head, head, before));
  }

  lemma {:induction false} OneModificationIsTheDiff(p: Path, c: Checkout)
    requires c.work.Keys == c.head.Keys == c.index.Keys == {p} && c.work[p] != c.head[p]
    ensures IsDiff([Change(Modified, None, p)], c)
  {
    var ds := [Change(Modified, None, p)];
    forall q
      ensures Touched(ds, q) <==> Changed(c, q)
    {
      assert Touches(ds[0], p);
    }
  }

  lemma {:induction false} PlainIsReadBack(p: Path)
    requires !NeedsQuotes(p)
    ensures ReadBack([Change(Modified, None, p)], [""]) == [Change(Modified, None, p)]
  {
    ParseReadsTheSpelling([Change(Modified, None, p)], [""]);
  }

  function StillEditing(p: Path, b: Content, later: Content): RunTask.RunEnv {
    QuietRun(map[p := b], ReadBack([Change(Modified, None, p)], [""]), [RunTask.Edit(p, Some(later))])
  }

  lemma {:induction false} OneEdit(t: Tree, p: Path, content: Content)
    ensures RunTask.Edits(t, [RunTask.Edit(p, Some(content))]) == t[p := content]
  {
    assert [RunTask.Edit(p, Some(content))][..0] == [];
  }

  /** Before the adapter does anything the diff sees exactly what the developer had changed since HEAD. */
  lemma {:induction false} FreshWorktreeSees(head: Tree, snapshot: Tree, p: Path)
    ensures SeenByTheDiff(Seeded(head, snapshot), p) <==> Lookup(head, p) != Lookup(snapshot, p)
  {
  }

  // ----- The changes that are lost -----

  predicate Leaves(acts: seq<Act>, p: Path) {
    forall a :: a in acts ==> !((a.Write? || a.Remove?) && a.path == p)
  }

  /** A change that was staged and committed is never seen again unless the adapter writes the path once more. */
  lemma {:induction false} CommittedIsNotSeen(c: Checkout, acts: seq<Act>, later: seq<Act>, p: Path)
    requires Leaves(later, p)
    ensures var d := Session(c, acts + [Stage(p), Commit] + later);
            !SeenByTheDiff(d, p) && Lookup(d.work, p) == Lookup(d.index, p) == Lookup(d.head, p)
  {
    var all := acts + [Stage(p), Commit];
    if later == [] {
      assert all + later == all;
      assert all[..|acts| + 1] == acts + [Stage(p)];
      assert (acts + [Stage(p)])[..|acts|] == acts;
    } else {
      var init := later[..|later| - 1];
      assert (all + later)[..|all + later| - 1] == all + init;
      assert later[|later| - 1] in later;
      CommittedIsNotSeen(c, acts, init, p);
    }
  }

  /** A new file the adapter never stages is never seen. */
  lemma {:induction false} UntrackedIsNotSeen(head: Tree, snapshot: Tree, acts: seq<Act>, p: Path)
    requires p !in head && p !in snapshot && Stage(p) !in acts
    ensures !SeenByTheDiff(Session(Seeded(head, snapshot), acts), p)
    ensures p !in Session(Seeded(head, snapshot), acts).index && p !in Session(Seeded(head, snapshot), acts).head
  {
    if acts != [] {
      assert acts[|acts| - 1] in acts;
      UntrackedIsNotSeen(head, snapshot, acts[..|acts| - 1], p);
    }
  }

  /**
   * Three adapters whose work a clean merge drops: one commits its edit, one leaves a new file unstaged, one puts
   * a file the developer had edited back to HEAD. The diff is empty, and the merge changes nothing.
   */
  lemma {:induction false} LostChanges(p: Path, a: Content, b: Content)
    requires a != b
    ensures LosesTheChange(map[p := a], map[p := a], [Write(p, b), Stage(p), Commit], p)
    ensures LosesTheChange(map[], map[], [Write(p, b)], p)
    ensures LosesTheChange(map[p := a], map[p := b], [Write(p, a)], p)
  {
    CommittedIsLost(p, a, b);
    SessionOfOne(Seeded(map[], map[]), Write(p, b));
    SessionOfOne(Seeded(map[p := a], map[p := b]), Write(p, a));
  }

  lemma {:induction false} CommittedIsLost(p: Path, a: Content, b: Content)
    requires a != b
    ensures LosesTheChange(map[p := a], map[p := a], [Write(p, b), Stage(p), Commit], p)
  {
    var (seeded, acts) := (Seeded(map[p := a], map[p := a]), [Write(p, b), Stage(p), Commit]);
    SessionOfOne(seeded, Write(p, b));
    assert acts[..2][..1] == [Write(p, b)];
    assert Session(seeded, acts[..2]) == Acted(Acted(seeded, Write(p, b)), Stage(p));
    assert Session(seeded, acts) == Checkout(map[p := b], map[p := b], map[p := b]);
  }

  /** The adapter changed `p`, and an empty diff describes its worktree. */
  ghost predicate LosesTheChange(head: Tree, snapshot: Tree, acts: seq<Act>, p: Path) {
    var c := Session(Seeded(head, snapshot), acts);
    Lookup(c.work, p) != Lookup(snapshot, p) && IsDiff([], c) && Applied([], c.work, snapshot, snapshot)
  }

  lemma {:induction false} SessionOfOne(c: Checkout, a: Act)
    ensures Session(c, [a]) == Acted(c, a)
  {
    assert [a][..0] == [];
  }
}
