/** The lazy sorted file walk of `delegate/local_model.py` and its bounded use as fallback context. */
module FileWalk {
  /** A path's content; `Other` is neither a file nor a readable directory, or nothing at all. */
  datatype Node = File | Dir(entries: seq<Entry>) | Other

  datatype Entry = Entry(name: string, node: Node)

  type Path = seq<string>

  // ----- Orders -----

  /** Lexicographic order over the order of the elements. */
  predicate NameLess(a: string, b: string) {
    b != [] && (a == [] || a[0] < b[0] || (a[0] == b[0] && NameLess(a[1..], b[1..])))
  }

  predicate PathLess(p: Path, q: Path) {
    q != [] && (p == [] || NameLess(p[0], q[0]) || (p[0] == q[0] && PathLess(p[1..], q[1..])))
  }

  lemma {:induction false} NameLessIsTotal(a: string, b: string)
    ensures (if NameLess(a, b) then 1 else 0) + (if NameLess(b, a) then 1 else 0) + (if a == b then 1 else 0) == 1
  {
    if a != [] && b != [] && a[0] == b[0] {
      NameLessIsTotal(a[1..], b[1..]);
      assert a == [a[0]] + a[1..] && b == [b[0]] + b[1..];
    }
  }

  lemma {:induction false} NameLessIsTransitive(a: string, b: string, c: string)
    requires NameLess(a, b) && NameLess(b, c)
    ensures NameLess(a, c)
  {
    if a != [] && a[0] == b[0] == c[0] {
      NameLessIsTransitive(a[1..], b[1..], c[1..]);
    }
  }

  lemma {:induction false} PathLessIsStrict(p: Path, q: Path)
    requires PathLess(p, q)
    ensures p != q && !PathLess(q, p)
  {
    if p != [] {
      NameLessIsTotal(p[0], q[0]);
      if p[0] == q[0] {
        PathLessIsStrict(p[1..], q[1..]);
      }
    }
  }

  ghost predicate Ascending(ps: seq<Path>) {
    forall i, j :: 0 <= i < j < |ps| ==> PathLess(ps[i], ps[j])
  }

  ghost predicate NamesAscend(es: seq<Entry>) {
    forall i, j :: 0 <= i < j < |es| ==> NameLess(es[i].name, es[j].name)
  }

  // ----- Listing a directory in order -----

  /** `sorted(entries, key=name)`, a stable sort. */
  function SortByName(es: seq<Entry>): (r: seq<Entry>)
    ensures forall e :: e in r <==> e in es
  {
    if es == [] then [] else Insert(es[0], SortByName(es[1..]))
  }

  function Insert(e: Entry, sorted: seq<Entry>): (r: seq<Entry>)
    ensures |r| == |sorted| + 1
    ensures forall x :: x in r <==> x == e || x in sorted
  {
    if sorted == [] || !NameLess(sorted[0].name, e.name) then [e] + sorted
    else [sorted[0]] + Insert(e, sorted[1..])
  }

  ghost predicate DistinctNames(es: seq<Entry>) {
    forall i, j :: 0 <= i < j < |es| ==> es[i].name != es[j].name
  }

  lemma {:induction false} InsertKeepsOrder(e: Entry, sorted: seq<Entry>)
    requires NamesAscend(sorted) && forall x :: x in sorted ==> x.name != e.name
    ensures NamesAscend(Insert(e, sorted))
  {
    if sorted != [] {
      NameLessIsTotal(sorted[0].name, e.name);
      assert sorted[0] in sorted;
      if NameLess(sorted[0].name, e.name) {
        InsertKeepsOrder(e, sorted[1..]);
        var r := Insert(e, sorted[1..]);
        forall j | 0 <= j < |r|
          ensures NameLess(sorted[0].name, r[j].name)
        {
          assert r[j] in r;
        }
      } else {
        forall j | 0 <= j < |sorted|
          ensures NameLess(e.name, sorted[j].name)
        {
          if j > 0 {
            NameLessIsTransitive(e.name, sorted[0].name, sorted[j].name);
          }
        }
      }
    }
  }

  lemma {:induction false} SortingOrders(es: seq<Entry>)
    requires DistinctNames(es)
    ensures NamesAscend(SortByName(es))
  {
    if es != [] {
      SortingOrders(es[1..]);
      InsertKeepsOrder(es[0], SortByName(es[1..]));
    }
  }

  // ----- The walk -----

  function Height(n: Node): nat {
    if n.Dir? then 1 + MaxHeight(n.entries) else 0
  }

  function MaxHeight(es: seq<Entry>): nat {
    if es == [] then 0 else Max(Height(es[0].node), MaxHeight(es[1..]))
  }

  function Max(a: nat, b: nat): nat {
    if a >= b then a else b
  }

  lemma {:induction false} InsertingAddsHeight(e: Entry, es: seq<Entry>)
    ensures MaxHeight(Insert(e, es)) == Max(Height(e.node), MaxHeight(es))
  {
    if es != [] && NameLess(es[0].name, e.name) {
      InsertingAddsHeight(e, es[1..]);
      assert Insert(e, es)[1..] == Insert(e, es[1..]);
    } else {
      assert ([e] + es)[1..] == es;
    }
  }

  lemma {:induction false} SortingKeepsHeight(es: seq<Entry>)
    ensures MaxHeight(SortByName(es)) == MaxHeight(es)
  {
    if es != [] {
      SortingKeepsHeight(es[1..]);
      InsertingAddsHeight(es[0], SortByName(es[1..]));
    }
  }

  function PrefixAll(name: string, ps: seq<Path>): seq<Path> {
    seq(|ps|, i requires 0 <= i < |ps| => [name] + ps[i])
  }

  /**
   * `_iter_files_sorted`: depth first, each directory in name order, files only. A root that cannot be listed,
   * a file included, yields nothing. Terminates on the tree's height.
   */
  function Walk(root: Node): seq<Path>
    decreases Height(root), 0, 0
  {
    match root
    case Dir(es) => SortingKeepsHeight(es); WalkAll(SortByName(es))
    case _ => []
  }

  function WalkAll(es: seq<Entry>): seq<Path>
    decreases MaxHeight(es), 2, |es|
  {
    if es == [] then [] else WalkEntry(es[0]) + WalkAll(es[1..])
  }

  function WalkEntry(e: Entry): seq<Path>
    decreases Height(e.node), 1, 0
  {
    match e.node
    case Dir(_) => PrefixAll(e.name, Walk(e.node))
    case File => [[e.name]]
    case Other => []
  }

  /** The walk cut off at `limit` files: a subtree is not entered once the limit is reached. */
  function Take(root: Node, limit: nat): (r: seq<Path>)
    ensures |r| <= limit
    decreases Height(root), 0, 0
  {
    match root
    case Dir(es) => SortingKeepsHeight(es); TakeAll(SortByName(es), limit)
    case _ => []
  }

  function TakeAll(es: seq<Entry>, limit: nat): (r: seq<Path>)
    ensures |r| <= limit
    decreases MaxHeight(es), 2, |es|
  {
    if es == [] || limit == 0 then []
    else
      var head := TakeEntry(es[0], limit);
      head + TakeAll(es[1..], limit - |head|)
  }

  function TakeEntry(e: Entry, limit: nat): (r: seq<Path>)
    requires limit > 0
    ensures |r| <= limit
    decreases Height(e.node), 1, 0
  {
    match e.node
    case Dir(_) => PrefixAll(e.name, Take(e.node, limit))
    case File => [[e.name]]
    case Other => []
  }

  // ----- What the walk yields -----

  /** The tree holds a file at `p`. */
  ghost predicate HasFile(n: Node, p: Path)
    decreases |p|
  {
    if p == [] then n.File?
    else n.Dir? && exists e :: e in n.entries && e.name == p[0] && HasFile(e.node, p[1..])
  }

  ghost predicate AnyHasFile(es: seq<Entry>, p: Path) {
    p != [] && exists e :: e in es && e.name == p[0] && HasFile(e.node, p[1..])
  }

  lemma {:induction false} WalkYieldsTheFiles(root: Node, p: Path)
    ensures p in Walk(root) <==> p != [] && HasFile(root, p)
    decreases Height(root), 0, 0
  {
    if root.Dir? {
      SortingKeepsHeight(root.entries);
      WalkAllYieldsTheFiles(SortByName(root.entries), p);
    }
  }

  lemma {:induction false} WalkAllYieldsTheFiles(es: seq<Entry>, p: Path)
    ensures p in WalkAll(es) <==> AnyHasFile(es, p)
    decreases MaxHeight(es), 2, |es|
  {
    if es != [] {
      WalkAllYieldsTheFiles(es[1..], p);
      assert es == [es[0]] + es[1..];
      WalkEntryYieldsTheFiles(es[0], p);
    }
  }

  lemma {:induction false} WalkEntryYieldsTheFiles(e: Entry, p: Path)
    ensures p in WalkEntry(e) <==> p != [] && p[0] == e.name && HasFile(e.node, p[1..])
    decreases Height(e.node), 1, 0
  {
    match e.node
    case Dir(_) =>
      PrefixAllMembers(e.name, Walk(e.node), p);
      if p != [] {
        WalkYieldsTheFiles(e.node, p[1..]);
      }
    case File =>
      assert p == [e.name] <==> p != [] && p[0] == e.name && p[1..] == [];
    case Other =>
  }

  lemma {:induction false} PrefixAllMembers(name: string, ps: seq<Path>, p: Path)
    ensures p in PrefixAll(name, ps) <==> p != [] && p[0] == name && p[1..] in ps
  {
    var r := PrefixAll(name, ps);
    if p in r {
      var i :| 0 <= i < |r| && r[i] == p;
      assert p[1..] == ps[i];
    }
    if p != [] && p[0] == name && p[1..] in ps {
      var i :| 0 <= i < |ps| && ps[i] == p[1..];
      assert r[i] == p;
    }
  }

  /** Sibling names differ all the way down. */
  ghost predicate Proper(n: Node) {
    n.Dir? ==> DistinctNames(n.entries) && forall e :: e in n.entries ==> Proper(e.node)
  }

  lemma {:induction false} WalkAscends(root: Node)
    requires Proper(root)
    ensures Ascending(Walk(root))
    decreases Height(root), 0, 0
  {
    if root.Dir? {
      SortingKeepsHeight(root.entries);
      SortingOrders(root.entries);
      WalkAllAscends(SortByName(root.entries));
    }
  }

  lemma {:induction false} WalkAllAscends(es: seq<Entry>)
    requires NamesAscend(es) && forall e :: e in es ==> Proper(e.node)
    ensures Ascending(WalkAll(es))
    decreases MaxHeight(es), 1, |es|
  {
    if es != [] {
      assert forall e :: e in es[1..] ==> e in es;
      assert es[0] in es;
      WalkAllAscends(es[1..]);
      if es[0].node.Dir? {
        WalkAscends(es[0].node);
        PrefixingKeepsOrder(es[0].name, Walk(es[0].node));
      }
      HeadComesFirst(es);
      AscendingConcatenation(WalkEntry(es[0]), WalkAll(es[1..]));
    }
  }

  /** Files under the first entry come before those under the others. */
  lemma {:induction false} HeadComesFirst(es: seq<Entry>)
    requires NamesAscend(es) && es != []
    ensures forall p, q :: p in WalkEntry(es[0]) && q in WalkAll(es[1..]) ==> PathLess(p, q)
  {
    forall p, q | p in WalkEntry(es[0]) && q in WalkAll(es[1..])
      ensures PathLess(p, q)
    {
      WalkEntryYieldsTheFiles(es[0], p);
      WalkAllYieldsTheFiles(es[1..], q);
      var e :| e in es[1..] && e.name == q[0];
      var k :| 0 <= k < |es[1..]| && es[1..][k] == e;
      assert NameLess(es[0].name, es[k + 1].name);
    }
  }

  lemma {:induction false} AscendingConcatenation(ps: seq<Path>, qs: seq<Path>)
    requires Ascending(ps) && Ascending(qs)
    requires forall p, q :: p in ps && q in qs ==> PathLess(p, q)
    ensures Ascending(ps + qs)
  {
  }

  lemma {:induction false} PrefixingKeepsOrder(name: string, ps: seq<Path>)
    requires Ascending(ps)
    ensures Ascending(PrefixAll(name, ps))
  {
    var r := PrefixAll(name, ps);
    forall i, j | 0 <= i < j < |r|
      ensures PathLess(r[i], r[j])
    {
      assert r[i][1..] == ps[i] && r[j][1..] == ps[j];
    }
  }

  /**
   * The walk lists the files below its root, each once, in strictly ascending order of path components. Those are
   * all the files of the tree exactly when the root is not itself a file.
   */
  lemma {:induction false} WalkIsTheSortedFileList(root: Node)
    requires Proper(root)
    ensures forall p :: p in Walk(root) <==> p != [] && HasFile(root, p)
    ensures (forall p :: p in Walk(root) <==> HasFile(root, p)) <==> !root.File?
    ensures Ascending(Walk(root))
    ensures forall i, j :: 0 <= i < j < |Walk(root)| ==> Walk(root)[i] != Walk(root)[j]
  {
    forall p
      ensures p in Walk(root) <==> p != [] && HasFile(root, p)
    {
      WalkYieldsTheFiles(root, p);
    }
    assert HasFile(root, []) <==> root.File?;
    WalkAscends(root);
    forall i, j | 0 <= i < j < |Walk(root)|
      ensures Walk(root)[i] != Walk(root)[j]
    {
      PathLessIsStrict(Walk(root)[i], Walk(root)[j]);
    }
  }

  function FirstOf(ps: seq<Path>, limit: nat): seq<Path> {
    if |ps| <= limit then ps else ps[..limit]
  }

  /** Stopping early yields the first `limit` files of the full walk. */
  lemma {:induction false} TakeIsAPrefix(root: Node, limit: nat)
    ensures Take(root, limit) == FirstOf(Walk(root), limit)
    decreases Height(root), 0, 0
  {
    if root.Dir? {
      SortingKeepsHeight(root.entries);
      TakeAllIsAPrefix(SortByName(root.entries), limit);
    }
  }

  lemma {:induction false} TakeAllIsAPrefix(es: seq<Entry>, limit: nat)
    ensures TakeAll(es, limit) == FirstOf(WalkAll(es), limit)
    decreases MaxHeight(es), 1, |es|
  {
    if es != [] && limit > 0 {
      if es[0].node.Dir? {
        TakeIsAPrefix(es[0].node, limit);
      }
      var (full, head) := (WalkEntry(es[0]), TakeEntry(es[0], limit));
      assert head == FirstOf(full, limit);
      TakeAllIsAPrefix(es[1..], limit - |head|);
      FirstOfConcatenation(full, WalkAll(es[1..]), limit);
    }
  }

  lemma {:induction false} FirstOfConcatenation(ps: seq<Path>, qs: seq<Path>, limit: nat)
    ensures FirstOf(ps + qs, limit) == FirstOf(ps, limit) + FirstOf(qs, limit - |FirstOf(ps, limit)|)
  {
  }

  /** A scope naming a file gives no context: the walk from it is empty, although the file is there. */
  lemma {:induction false} FileRootYieldsNothing(limit: nat)
    ensures Walk(File) == [] && Take(File, limit) == [] && HasFile(File, [])
  {
  }

  // ----- Against one sort of whole path strings -----

  /** A path as a string. */
  function Joined(p: Path): string {
    if p == [] then "" else if |p| == 1 then p[0] else p[0] + "/" + Joined(p[1..])
  }

  ghost predicate JoinedAscending(ps: seq<Path>) {
    forall i, j :: 0 <= i < j < |ps| ==> NameLess(Joined(ps[i]), Joined(ps[j]))
  }

  /** No name holds a separator, all the way down. */
  ghost predicate Separated(n: Node) {
    n.Dir? ==> forall e :: e in n.entries ==> '/' !in e.name && Separated(e.node)
  }

  ghost predicate HoldsAFile(n: Node) {
    exists p :: HasFile(n, p)
  }

  /** `b` extends `a` by a character that sorts before the separator. */
  predicate Undercuts(b: string, a: string) {
    a < b && b[|a|] < '/'
  }

  /** A directory that holds a file, beside an entry that yields files and undercuts its name. */
  ghost predicate Clash(d: Entry, e: Entry) {
    d.node.Dir? && HoldsAFile(d.node) && HoldsAFile(e.node) && Undercuts(e.name, d.name)
  }

  /** Such a pair somewhere in the tree. */
  ghost predicate Clashes(n: Node) {
    n.Dir? && ((exists d, e :: d in n.entries && e in n.entries && Clash(d, e))
               || exists e :: e in n.entries && Clashes(e.node))
  }

  /** The same read off two paths: where they part, one goes on below a directory whose name the other undercuts. */
  predicate PathClash(p: Path, q: Path) {
    p != [] && q != [] &&
    if p[0] == q[0] then PathClash(p[1..], q[1..]) else |p| > 1 && Undercuts(q[0], p[0])
  }

  /** Where two names part, the strings that continue them are decided, unless one name runs into the separator. */
  lemma {:induction false} ContinuedNames(a: string, b: string, s: string, t: string)
    requires NameLess(a, b) && '/' !in b && (s == [] || s[0] == '/')
    ensures NameLess(a + s, b + t) <==> !(s != [] && Undercuts(b, a))
  {
    if a == [] {
      assert a + s == s && (b + t)[0] == b[0];
    } else {
      assert (a + s)[0] == a[0] && (b + t)[0] == b[0];
      assert (a + s)[1..] == a[1..] + s && (b + t)[1..] == b[1..] + t;
      if a[0] == b[0] {
        ContinuedNames(a[1..], b[1..], s, t);
        assert a < b <==> a[1..] < b[1..];
      }
    }
  }

  lemma {:induction false} SamePrefix(a: string, s: string, t: string)
    ensures NameLess(a + s, a + t) <==> NameLess(s, t)
  {
    if a == [] {
      assert a + s == s && a + t == t;
    } else {
      assert (a + s)[1..] == a[1..] + s && (a + t)[1..] == a[1..] + t;
      SamePrefix(a[1..], s, t);
    }
  }

  /** What follows the first component of a joined path. */
  function Below(p: Path): (s: string)
    requires p != []
    ensures Joined(p) == p[0] + s && (s == [] <==> |p| == 1) && (s != [] ==> s[0] == '/')
  {
    if |p| == 1 then "" else "/" + Joined(p[1..])
  }

  ghost predicate NoSeparator(p: Path) {
    forall i :: 0 <= i < |p| ==> '/' !in p[i]
  }

  lemma {:induction false} JoinedOrderIff(p: Path, q: Path)
    requires PathLess(p, q) && !(p <= q) && NoSeparator(q)
    ensures NameLess(Joined(p), Joined(q)) <==> !PathClash(p, q)
  {
    if p[0] == q[0] {
      assert p == [p[0]] + p[1..] && q == [q[0]] + q[1..];
      NameLessIsTotal(p[0], q[0]);
      JoinedOrderIff(p[1..], q[1..]);
      SamePrefix(p[0], Below(p), Below(q));
      SamePrefix("/", Joined(p[1..]), Joined(q[1..]));
    } else {
      ContinuedNames(p[0], q[0], Below(p), Below(q));
    }
  }

  lemma {:induction false} PrefixIsLess(a: string, b: string)
    requires a < b
    ensures NameLess(a, b)
  {
    if a != [] {
      PrefixIsLess(a[1..], b[1..]);
    }
  }

  lemma {:induction false} ClashingPathsAreOrdered(p: Path, q: Path)
    requires PathClash(p, q)
    ensures PathLess(p, q) && !(p <= q)
  {
    if p[0] == q[0] {
      assert p <= q ==> p[1..] <= q[1..];
      ClashingPathsAreOrdered(p[1..], q[1..]);
    } else {
      PrefixIsLess(p[0], q[0]);
    }
  }

  lemma {:induction false} SameEntry(es: seq<Entry>, d: Entry, e: Entry)
    requires DistinctNames(es) && d in es && e in es && d.name == e.name
    ensures d == e
  {
    var i :| 0 <= i < |es| && es[i] == d;
    var j :| 0 <= j < |es| && es[j] == e;
    assert i == j;
  }

  lemma {:induction false} FilesAreLeaves(n: Node, p: Path, q: Path)
    requires Proper(n) && HasFile(n, p) && HasFile(n, q) && p <= q
    ensures p == q
    decreases |p|
  {
    if p != [] {
      var d :| d in n.entries && d.name == p[0] && HasFile(d.node, p[1..]);
      var e :| e in n.entries && e.name == q[0] && HasFile(e.node, q[1..]);
      SameEntry(n.entries, d, e);
      FilesAreLeaves(d.node, p[1..], q[1..]);
      assert p == [p[0]] + p[1..] && q == [q[0]] + q[1..];
    }
  }

  lemma {:induction false} FilesAreSeparated(n: Node, p: Path)
    requires Separated(n) && HasFile(n, p)
    ensures NoSeparator(p)
    decreases |p|
  {
    if p != [] {
      var e :| e in n.entries && e.name == p[0] && HasFile(e.node, p[1..]);
      FilesAreSeparated(e.node, p[1..]);
      assert forall i :: 1 <= i < |p| ==> p[i] == p[1..][i - 1];
    }
  }

  lemma {:induction false} HasFileBelow(n: Node, e: Entry, p: Path)
    requires n.Dir? && e in n.entries && HasFile(e.node, p)
    ensures HasFile(n, [e.name] + p)
  {
    assert ([e.name] + p)[1..] == p;
  }

  lemma {:induction false} ClashGivesPaths(n: Node) returns (p: Path, q: Path)
    requires Clashes(n)
    ensures HasFile(n, p) && HasFile(n, q) && PathClash(p, q)
  {
    if d, e :| d in n.entries && e in n.entries && Clash(d, e) {
      var dp :| HasFile(d.node, dp);
      var ep :| HasFile(e.node, ep);
      HasFileBelow(n, d, dp);
      HasFileBelow(n, e, ep);
      p, q := [d.name] + dp, [e.name] + ep;
    } else {
      var e :| e in n.entries && Clashes(e.node);
      var dp, ep := ClashGivesPaths(e.node);
      HasFileBelow(n, e, dp);
      HasFileBelow(n, e, ep);
      p, q := [e.name] + dp, [e.name] + ep;
      assert p[1..] == dp && q[1..] == ep;
    }
  }

  lemma {:induction false} PathsGiveClash(n: Node, p: Path, q: Path)
    requires Proper(n) && HasFile(n, p) && HasFile(n, q) && PathClash(p, q)
    ensures Clashes(n)
    decreases |p|
  {
    var d :| d in n.entries && d.name == p[0] && HasFile(d.node, p[1..]);
    var e :| e in n.entries && e.name == q[0] && HasFile(e.node, q[1..]);
    if p[0] == q[0] {
      SameEntry(n.entries, d, e);
      PathsGiveClash(d.node, p[1..], q[1..]);
    } else {
      assert Clash(d, e);
    }
  }

  /**
   * The walk's paths ascend as whole strings, as one sort of them would put them, exactly when nowhere in the tree a
   * directory holding a file has a sibling that yields files and whose name extends its own by a character below
   * the separator.
   */
  lemma {:induction false} JoinedWalkAscendsIff(root: Node)
    requires Proper(root) && Separated(root)
    ensures JoinedAscending(Walk(root)) <==> !Clashes(root)
  {
    var ps := Walk(root);
    WalkAscends(root);
    if Clashes(root) {
      var p, q := ClashGivesPaths(root);
      OutOfOrder(root, p, q);
    } else {
      forall i, j | 0 <= i < j < |ps|
        ensures NameLess(Joined(ps[i]), Joined(ps[j]))
      {
        InOrderUnlessClash(root, ps[i], ps[j]);
      }
    }
  }

  lemma {:induction false} OutOfOrder(root: Node, p: Path, q: Path)
    requires Proper(root) && Separated(root)
    requires HasFile(root, p) && HasFile(root, q) && PathClash(p, q)
    ensures !JoinedAscending(Walk(root))
  {
    var ps := Walk(root);
    WalkYieldsTheFiles(root, p);
    WalkYieldsTheFiles(root, q);
    ClashingPathsAreOrdered(p, q);
    FilesAreSeparated(root, q);
    JoinedOrderIff(p, q);
    var i :| 0 <= i < |ps| && ps[i] == p;
    var j :| 0 <= j < |ps| && ps[j] == q;
    WalkAscends(root);
    PathLessIsStrict(p, q);
    assert i < j;
  }

  lemma {:induction false} InOrderUnlessClash(root: Node, p: Path, q: Path)
    requires Proper(root) && Separated(root) && !Clashes(root)
    requires p in Walk(root) && q in Walk(root) && PathLess(p, q)
    ensures NameLess(Joined(p), Joined(q))
  {
    WalkYieldsTheFiles(root, p);
    WalkYieldsTheFiles(root, q);
    PathLessIsStrict(p, q);
    if p <= q {
      FilesAreLeaves(root, p, q);
    }
    FilesAreSeparated(root, q);
    JoinedOrderIff(p, q);
    if PathClash(p, q) {
      PathsGiveClash(root, p, q);
    }
  }

  /** Two directories `a` and `a.b`, with a file in each: no file sits beside a directory, and the orders differ. */
  lemma {:induction false} DirectoriesClash(x: string)
    ensures Clashes(Dir([Entry("a", Dir([Entry(x, File)])), Entry("a.b", Dir([Entry(x, File)]))]))
  {
    var inner := Dir([Entry(x, File)]);
    var (d, e) := (Entry("a", inner), Entry("a.b", inner));
    assert HasFile(File, []);
    HasFileBelow(inner, Entry(x, File), []);
    assert HoldsAFile(inner);
    assert "a" < "a.b" && Clash(d, e);
    assert d in [d, e] && e in [d, e];
  }
}
