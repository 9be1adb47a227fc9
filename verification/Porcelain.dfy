/** The parser of `git worktree list --porcelain` in `orchestrator/worktree.py`. */
module Porcelain {
  import opened Common

  datatype Entry = Entry(path: string, branch: Option<string>)

  const WORKTREE := "worktree "
  const BRANCH := "branch "
  const HEADS := "refs/heads/"

  /** `ref.removeprefix("refs/heads/")`. */
  function BranchOf(ref: string): string {
    if HEADS <= ref then ref[|HEADS|..] else ref
  }

  /** A line that neither opens a record nor names its branch: blank, `HEAD`, `detached`, `locked`, ... */
  predicate Noise(line: string) {
    !(WORKTREE <= line) && !(BRANCH <= line)
  }

  /** Parse what follows, given the record that is open, if any. */
  function ParseFrom(open: Option<Entry>, lines: seq<string>): seq<Entry>
    decreases |lines|
  {
    var flushed := if open.Some? then [open.value] else [];
    if lines == [] then flushed
    else if WORKTREE <= lines[0] then flushed + ParseFrom(Some(Entry(lines[0][|WORKTREE|..], None)), lines[1..])
    else if BRANCH <= lines[0] && open.Some? then
      ParseFrom(Some(open.value.(branch := Some(BranchOf(lines[0][|BRANCH|..])))), lines[1..])
    else ParseFrom(open, lines[1..])
  }

  /** `_parse_worktree_list_porcelain`. */
  method Parse(lines: seq<string>) returns (entries: seq<Entry>)
    ensures entries == ParseFrom(None, lines)
  {
    entries := [];
    var currentPath: Option<string> := None;
    var currentBranch: Option<string> := None;
    for i := 0 to |lines|
      invariant entries
                + ParseFrom(if currentPath.Some? then Some(Entry(currentPath.value, currentBranch)) else None,
                            lines[i..])
                == ParseFrom(None, lines)
    {
      var line := lines[i];
      assert lines[i..][0] == line && lines[i..][1..] == lines[i + 1..];
      if WORKTREE <= line {
        if currentPath.Some? {
          entries := entries + [Entry(currentPath.value, currentBranch)];
        }
        currentPath := Some(line[|WORKTREE|..]);
        currentBranch := None;
      } else if BRANCH <= line {
        currentBranch := Some(BranchOf(line[|BRANCH|..]));
      }
    }
    if currentPath.Some? {
      entries := entries + [Entry(currentPath.value, currentBranch)];
    }
  }

  // ----- Printing -----

  /** Where git puts lines the parser ignores: after the path, and after the branch. */
  datatype Layout = Layout(afterPath: seq<string>, afterBranch: seq<string>)

  ghost predicate AllNoise(lines: seq<string>) {
    forall i :: 0 <= i < |lines| ==> Noise(lines[i])
  }

  ghost predicate Ignorable(l: Layout) {
    AllNoise(l.afterPath) && AllNoise(l.afterBranch)
  }

  function Record(e: Entry, l: Layout): seq<string> {
    [WORKTREE + e.path] + l.afterPath + BranchLines(e) + l.afterBranch
  }

  function Print(es: seq<Entry>, ls: seq<Layout>): seq<string>
    requires |es| == |ls|
  {
    if es == [] then [] else Record(es[0], ls[0]) + Print(es[1..], ls[1..])
  }

  lemma {:induction false} NoiseIsSkipped(open: Option<Entry>, noise: seq<string>, rest: seq<string>)
    requires AllNoise(noise)
    ensures ParseFrom(open, noise + rest) == ParseFrom(open, rest)
    decreases |noise|
  {
    if noise == [] {
      assert noise + rest == rest;
    } else {
      assert (noise + rest)[1..] == noise[1..] + rest;
      assert Noise(noise[0]);
      NoiseIsSkipped(open, noise[1..], rest);
    }
  }

  lemma {:induction false} PrefixesStrip(a: string, b: string)
    ensures a <= a + b && (a + b)[|a|..] == b
  {
  }

  lemma {:induction false} BranchIsRecovered(name: string)
    ensures var line := BRANCH + HEADS + name;
            !(WORKTREE <= line) && BRANCH <= line && BranchOf(line[|BRANCH|..]) == name
  {
    assert BRANCH + HEADS + name == BRANCH + (HEADS + name);
    PrefixesStrip(BRANCH, HEADS + name);
    PrefixesStrip(HEADS, name);
    assert (BRANCH + HEADS + name)[0] == 'b' != WORKTREE[0];
  }

  function BranchLines(e: Entry): seq<string> {
    if e.branch.Some? then [BRANCH + HEADS + e.branch.value] else []
  }

  lemma {:induction false} BranchLinesAreRead(e: Entry, rest: seq<string>)
    ensures ParseFrom(Some(Entry(e.path, None)), BranchLines(e) + rest) == ParseFrom(Some(e), rest)
  {
    var lines := BranchLines(e) + rest;
    if e.branch.Some? {
      BranchIsRecovered(e.branch.value);
      assert lines[0] == BRANCH + HEADS + e.branch.value && lines[1..] == rest;
    } else {
      assert lines == rest;
    }
  }

  lemma {:induction false} PathLineIsRead(open: Option<Entry>, path: string, rest: seq<string>)
    ensures ParseFrom(open, [WORKTREE + path] + rest)
            == (if open.Some? then [open.value] else []) + ParseFrom(Some(Entry(path, None)), rest)
  {
    PrefixesStrip(WORKTREE, path);
    var lines := [WORKTREE + path] + rest;
    assert lines[0] == WORKTREE + path && lines[1..] == rest;
  }

  /** One printed record is read back as its entry, whatever record was open before it. */
  lemma {:induction false} RecordIsRead(open: Option<Entry>, e: Entry, l: Layout, rest: seq<string>)
    requires Ignorable(l)
    ensures ParseFrom(open, Record(e, l) + rest)
            == (if open.Some? then [open.value] else []) + ParseFrom(Some(e), rest)
  {
    var tail := l.afterBranch + rest;
    assert Record(e, l) + rest == [WORKTREE + e.path] + (l.afterPath + (BranchLines(e) + tail));
    PathLineIsRead(open, e.path, l.afterPath + (BranchLines(e) + tail));
    NoiseIsSkipped(Some(Entry(e.path, None)), l.afterPath, BranchLines(e) + tail);
    BranchLinesAreRead(e, tail);
    NoiseIsSkipped(Some(e), l.afterBranch, rest);
  }

  lemma {:induction false} ParseInvertsPrintFrom(open: Option<Entry>, es: seq<Entry>, ls: seq<Layout>)
    requires |es| == |ls| && forall i :: 0 <= i < |ls| ==> Ignorable(ls[i])
    ensures ParseFrom(open, Print(es, ls)) == (if open.Some? then [open.value] else []) + es
    decreases |es|
  {
    if es != [] {
      RecordIsRead(open, es[0], ls[0], Print(es[1..], ls[1..]));
      ParseInvertsPrintFrom(Some(es[0]), es[1..], ls[1..]);
      assert es == [es[0]] + es[1..];
    }
  }

  /** Round trip: any entry list, attached or detached, however git lays the records out, is read back as it was. */
  lemma {:induction false} ParseInvertsPrint(leading: seq<string>, es: seq<Entry>, ls: seq<Layout>)
    requires AllNoise(leading)
    requires |es| == |ls| && forall i :: 0 <= i < |ls| ==> Ignorable(ls[i])
    ensures ParseFrom(None, leading + Print(es, ls)) == es
  {
    NoiseIsSkipped(None, leading, Print(es, ls));
    ParseInvertsPrintFrom(None, es, ls);
  }

  /** As git writes them: a worktree on a branch, and a detached one. */
  lemma {:induction false} GitRecordsAreRead(path: string, head: string, branch: string)
    ensures ParseFrom(None, ["worktree " + path, "HEAD " + head, "branch refs/heads/" + branch, ""])
            == [Entry(path, Some(branch))]
    ensures ParseFrom(None, ["worktree " + path, "HEAD " + head, "detached", ""]) == [Entry(path, None)]
  {
    var (e, d) := (Entry(path, Some(branch)), Entry(path, None));
    var (le, ld) := (Layout(["HEAD " + head], [""]), Layout(["HEAD " + head], ["detached", ""]));
    assert ("HEAD " + head)[0] == 'H' && "worktree "[0] == 'w' && "branch "[0] == 'b';
    assert Noise("HEAD " + head) && Noise("") && Noise("detached");
    assert "branch refs/heads/" + branch == "branch " + "refs/heads/" + branch;
    assert Record(e, le) == ["worktree " + path, "HEAD " + head, "branch refs/heads/" + branch, ""];
    assert Record(d, ld) == ["worktree " + path, "HEAD " + head, "detached", ""];
    RecordIsRead(None, e, le, []);
    RecordIsRead(None, d, ld, []);
    assert Record(e, le) + [] == Record(e, le) && Record(d, ld) + [] == Record(d, ld);
  }

  /** A branch outside `refs/heads/` keeps its whole name. */
  lemma {:induction false} OtherRefsAreKept(path: string, ref: string)
    requires !("refs/heads/" <= ref)
    ensures ParseFrom(None, ["worktree " + path, "branch " + ref]) == [Entry(path, Some(ref))]
  {
    var line := "branch " + ref;
    PrefixesStrip("branch ", ref);
    assert line[0] == 'b' && "worktree "[0] == 'w';
    PathLineIsRead(None, path, [line]);
    assert ["worktree " + path, line] == [WORKTREE + path] + [line];
    assert [line][1..] == [];
    assert ParseFrom(Some(Entry(path, None)), [line]) == ParseFrom(Some(Entry(path, Some(ref))), []);
  }
}
