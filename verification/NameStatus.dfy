/** The lines of `git diff --name-status HEAD` as `_changed_paths` in `orchestrator/merge.py` reads them. */
module NameStatus {
  import opened Common
  import opened Merge

  /** `line.split("\t")`: never empty. */
  function Split(line: string): (parts: seq<string>)
    ensures parts != []
  {
    if line == [] then [[]]
    else
      var rest := Split(line[1..]);
      if line[0] == '\t' then [[]] + rest else [[line[0]] + rest[0]] + rest[1..]
  }

  /** `line.strip()` is empty. */
  predicate Blank(line: string) {
    forall i :: 0 <= i < |line| ==> line[i] == ' ' || line[i] == '\t' || line[i] == '\r'
  }

  /** Letters other than these five are applied as modifications. */
  function StatusOf(letters: string): Status {
    if letters == [] then Modified
    else match letters[0]
      case 'A' => Added
      case 'D' => Deleted
      case 'R' => Renamed
      case 'C' => Copied
      case _ => Modified
  }

  /** The source is set for a rename or copy line that has both paths; the path is the last field. */
  function ParseLine(line: string): Change {
    var parts := Split(line);
    var status := StatusOf(parts[0]);
    var source := if (status.Renamed? || status.Copied?) && |parts| > 2 then Some(parts[1]) else None;
    Change(status, source, parts[|parts| - 1])
  }

  function ParseAll(lines: seq<string>): seq<Change> {
    if lines == [] then []
    else
      var line := lines[|lines| - 1];
      ParseAll(lines[..|lines| - 1]) + if Blank(line) then [] else [ParseLine(line)]
  }

  method ChangedPaths(lines: seq<string>) returns (changed: seq<Change>)
    ensures changed == ParseAll(lines)
    ensures forall c :: c in changed && c.source.Some? ==> c.status.Renamed? || c.status.Copied?
  {
    changed := [];
    for i := 0 to |lines|
      invariant changed == ParseAll(lines[..i])
      invariant forall c :: c in changed && c.source.Some? ==> c.status.Renamed? || c.status.Copied?
    {
      assert lines[..i + 1][..i] == lines[..i];
      if !Blank(lines[i]) {
        changed := changed + [ParseLine(lines[i])];
      }
    }
    assert lines[..|lines|] == lines;
  }

  // ----- Git's own output -----

  /** With `core.quotePath` at its default. A path is a string of bytes, one character each. */
  predicate Unusual(c: char) {
    c < ' ' || c == '"' || c == '\\' || c >= '\U{7F}'
  }

  /** Git puts such a path in quotes and escapes its unusual bytes. */
  predicate NeedsQuotes(p: Path) {
    exists i :: 0 <= i < |p| && Unusual(p[i])
  }

  function OctalDigit(n: nat): char {
    ('0' as int + n % 8) as char
  }

  function Escape(c: char): string {
    if Unusual(c) then ['\\'] + EscapeCode(c) else [c]
  }

  /** A letter for some, octal for other bytes; the last line keeps what is not a byte apart from them. */
  function EscapeCode(c: char): string {
    match c
    case '\U{07}' => ['a']
    case '\U{08}' => ['b']
    case '\t' => ['t']
    case '\n' => ['n']
    case '\U{0B}' => ['v']
    case '\U{0C}' => ['f']
    case '\r' => ['r']
    case '"' => ['"']
    case '\\' => ['\\']
    case _ =>
      if c < '\U{100}' then [OctalDigit(c as int / 64), OctalDigit(c as int / 8), OctalDigit(c as int)] else [c]
  }

  function Escaped(p: Path): string {
    if p == [] then [] else Escape(p[0]) + Escaped(p[1..])
  }

  /** A path as git prints it. */
  function Quoted(p: Path): string {
    if NeedsQuotes(p) then "\"" + Escaped(p) + "\"" else p
  }

  function Letter(s: Status): char {
    match s
    case Added => 'A'
    case Modified => 'M'
    case Deleted => 'D'
    case Renamed => 'R'
    case Copied => 'C'
  }

  /** The change with its paths spelled as git prints them. */
  function QuotedChange(c: Change): Change {
    Change(c.status, if c.source.Some? then Some(Quoted(c.source.value)) else None, Quoted(c.path))
  }

  /** A line as git prints it, with a similarity score after the letter. */
  function PrintLine(c: Change, score: string): string {
    var q := QuotedChange(c);
    [Letter(q.status)] + score + "\t" + (if q.source.Some? then q.source.value + "\t" else "") + q.path
  }

  predicate NoTab(s: string) {
    forall i :: 0 <= i < |s| ==> s[i] != '\t'
  }

  /** What git guarantees of an entry: a source exactly for renames and copies, and a score of digits. */
  predicate Printable(c: Change, score: string) {
    NoTab(score) && (c.source.Some? <==> c.status.Renamed? || c.status.Copied?)
  }

  // ----- Lines as they are read -----

  /** What the letters mean, whatever score follows a rename's or a copy's. */
  lemma {:induction false} LettersAreRead(source: string, path: string, score: string)
    requires NoTab(source) && NoTab(path) && NoTab(score)
    ensures ParseLine("A\t" + path) == Change(Added, None, path)
    ensures ParseLine("M\t" + path) == Change(Modified, None, path)
    ensures ParseLine("D\t" + path) == Change(Deleted, None, path)
    ensures ParseLine("R" + score + "\t" + source + "\t" + path) == Change(Renamed, Some(source), path)
    ensures ParseLine("C" + score + "\t" + source + "\t" + path) == Change(Copied, Some(source), path)
  {
    assert "A\t" == "A" + "\t" && "M\t" == "M" + "\t" && "D\t" == "D" + "\t";
    FieldsAreSplit("A", path, "");
    FieldsAreSplit("M", path, "");
    FieldsAreSplit("D", path, "");
    FieldsAreSplit("R" + score, source, path);
    FieldsAreSplit("C" + score, source, path);
  }

  /** A line of blanks is skipped wherever it stands; no other line is. */
  lemma {:induction false} OnlyBlanksAreSkipped(lines: seq<string>, line: string)
    ensures ParseAll(lines + [line])
            == ParseAll(lines) + if forall i :: 0 <= i < |line| ==> line[i] == ' ' || line[i] == '\t' || line[i] == '\r'
                                 then [] else [ParseLine(line)]
  {
    assert (lines + [line])[..|lines|] == lines;
  }

  // ----- Spellings tell paths apart -----

  lemma {:induction false} EscapesTellApart(c: char, d: char, x: string, y: string)
    requires Escape(c) + x == Escape(d) + y
    ensures c == d && x == y
  {
    var (line, other) := (Escape(c) + x, Escape(d) + y);
    assert line[0] == Escape(c)[0] && other[0] == Escape(d)[0];
    if |Escape(c)| > 1 && |Escape(d)| > 1 {
      assert line[1] == Escape(c)[1] && other[1] == Escape(d)[1];
      if |Escape(c)| == 4 && |Escape(d)| == 4 {
        assert line[2] == Escape(c)[2] && other[2] == Escape(d)[2];
        assert line[3] == Escape(c)[3] && other[3] == Escape(d)[3];
        OctalTellsApart(c as int, d as int);
      }
    }
    assert c == d;
    assert x == line[|Escape(c)|..] && y == other[|Escape(d)|..];
  }

  lemma {:induction false} OctalTellsApart(m: nat, n: nat)
    requires m < 256 && n < 256
    requires OctalDigit(m / 64) == OctalDigit(n / 64) && OctalDigit(m / 8) == OctalDigit(n / 8)
    requires OctalDigit(m) == OctalDigit(n)
    ensures m == n
  {
    DigitTellsApart(m / 64, n / 64);
    DigitTellsApart(m / 8, n / 8);
    DigitTellsApart(m, n);
    InOctal(m);
    InOctal(n);
  }

  lemma {:induction false} DigitTellsApart(m: nat, n: nat)
    requires OctalDigit(m) == OctalDigit(n)
    ensures m % 8 == n % 8
  {
    assert OctalDigit(m) as int - '0' as int == m % 8;
    assert OctalDigit(n) as int - '0' as int == n % 8;
  }

  lemma {:induction false} InOctal(n: nat)
    requires n < 256
    ensures n == 64 * (n / 64 % 8) + 8 * (n / 8 % 8) + n % 8
  {
    assert n / 64 == n / 8 / 8;
  }

  lemma {:induction false} EscapedTellsApart(p: Path, q: Path)
    requires Escaped(p) == Escaped(q)
    ensures p == q
  {
    if p != [] && q != [] {
      EscapesTellApart(p[0], q[0], Escaped(p[1..]), Escaped(q[1..]));
      EscapedTellsApart(p[1..], q[1..]);
      assert p == [p[0]] + p[1..] && q == [q[0]] + q[1..];
    }
  }

  lemma {:induction false} QuotedTellsApart(p: Path, q: Path)
    requires Quoted(p) == Quoted(q)
    ensures p == q
  {
    if NeedsQuotes(p) && NeedsQuotes(q) {
      assert Escaped(p) == Quoted(p)[1..|Quoted(p)| - 1] && Escaped(q) == Quoted(q)[1..|Quoted(q)| - 1];
      EscapedTellsApart(p, q);
    } else if NeedsQuotes(p) || NeedsQuotes(q) {
      var plain := if NeedsQuotes(p) then q else p;
      assert Quoted(p)[0] == '"';
      assert plain[0] == '"' && Unusual(plain[0]);
      assert false;
    }
  }

  // ----- Reading it back -----

  lemma {:induction false} EscapedHasNoTab(p: Path)
    ensures NoTab(Escaped(p)) && |Escaped(p)| >= |p|
  {
    if p != [] {
      EscapedHasNoTab(p[1..]);
    }
  }

  lemma {:induction false} QuotingIsVisible(p: Path)
    ensures NoTab(Quoted(p))
    ensures Quoted(p) == p <==> !NeedsQuotes(p)
  {
    EscapedHasNoTab(p);
    assert !NeedsQuotes(p) ==> forall i :: 0 <= i < |p| ==> !Unusual(p[i]);
  }

  lemma {:induction false} SplitAtTab(field: string, rest: string)
    requires NoTab(field)
    ensures Split(field) == [field]
    ensures Split(field + "\t" + rest) == [field] + Split(rest)
  {
    var line := field + "\t" + rest;
    if field == [] {
      assert line[1..] == rest;
    } else {
      assert line[1..] == field[1..] + "\t" + rest;
      SplitAtTab(field[1..], rest);
      assert field == [field[0]] + field[1..];
    }
  }

  lemma {:induction false} FieldsAreSplit(a: string, b: string, c: string)
    requires NoTab(a) && NoTab(b) && NoTab(c)
    ensures Split(a + "\t" + b) == [a, b]
    ensures Split(a + "\t" + b + "\t" + c) == [a, b, c]
  {
    SplitAtTab(c, "");
    SplitAtTab(b, c);
    SplitAtTab(a, b);
    SplitAtTab(a, b + "\t" + c);
    assert a + "\t" + b + "\t" + c == a + "\t" + (b + "\t" + c);
  }

  /** A line of two fields, and one of three. */
  lemma {:induction false} ParseFields(status: Status, score: string, source: string, path: string)
    requires NoTab(score) && NoTab(source) && NoTab(path)
    ensures !(status.Renamed? || status.Copied?) ==>
              ParseLine([Letter(status)] + score + "\t" + path) == Change(status, None, path)
    ensures status.Renamed? || status.Copied? ==>
              ParseLine([Letter(status)] + score + "\t" + source + "\t" + path) == Change(status, Some(source), path)
  {
    var letters := [Letter(status)] + score;
    assert StatusOf(letters) == status;
    FieldsAreSplit(letters, path, "");
    FieldsAreSplit(letters, source, path);
  }

  lemma {:induction false} PrintedFields(c: Change, score: string)
    ensures var (letters, q) := ([Letter(c.status)] + score, QuotedChange(c));
            && PrintLine(c, score)[0] == Letter(c.status)
            && (c.source.Some? ==> PrintLine(c, score) == letters + "\t" + q.source.value + "\t" + q.path)
            && (c.source.None? ==> PrintLine(c, score) == letters + "\t" + q.path)
  {
  }

  lemma {:induction false} ParseLineReadsTheSpelling(c: Change, score: string)
    requires Printable(c, score)
    ensures ParseLine(PrintLine(c, score)) == QuotedChange(c) && !Blank(PrintLine(c, score))
  {
    var q := QuotedChange(c);
    PrintedFields(c, score);
    QuotingIsVisible(c.path);
    if c.source.Some? {
      QuotingIsVisible(c.source.value);
    }
    ParseFields(c.status, score, q.source.GetOr(""), q.path);
  }

  function PrintAll(cs: seq<Change>, scores: seq<string>): seq<string>
    requires |cs| == |scores|
  {
    seq(|cs|, i requires 0 <= i < |cs| => PrintLine(cs[i], scores[i]))
  }

  /** The list the merge works from: git's lines for `cs`, read. */
  function ReadBack(cs: seq<Change>, scores: seq<string>): seq<Change>
    requires |cs| == |scores|
  {
    ParseAll(PrintAll(cs, scores))
  }

  function Spelled(cs: seq<Change>): seq<Change> {
    seq(|cs|, i requires 0 <= i < |cs| => QuotedChange(cs[i]))
  }

  /** A list of changes git can print, with the score of each. */
  ghost predicate AllPrintable(cs: seq<Change>, scores: seq<string>) {
    |cs| == |scores| && forall i :: 0 <= i < |cs| ==> Printable(cs[i], scores[i])
  }

  lemma {:induction false} ParseReadsTheSpelling(cs: seq<Change>, scores: seq<string>)
    requires AllPrintable(cs, scores)
    ensures ReadBack(cs, scores) == Spelled(cs)
  {
    if cs != [] {
      var n := |cs| - 1;
      assert PrintAll(cs, scores)[..n] == PrintAll(cs[..n], scores[..n]);
      ParseReadsTheSpelling(cs[..n], scores[..n]);
      ParseLineReadsTheSpelling(cs[n], scores[n]);
    }
  }

  /** Reading git's lines gives back the changes it printed, in order, exactly when none of their paths needs quotes. */
  lemma {:induction false} ParseInvertsPrintIff(cs: seq<Change>, scores: seq<string>)
    requires AllPrintable(cs, scores)
    ensures ReadBack(cs, scores) == cs
            <==> forall i :: 0 <= i < |cs| ==>
                   !NeedsQuotes(cs[i].path) && (cs[i].source.Some? ==> !NeedsQuotes(cs[i].source.value))
  {
    ParseReadsTheSpelling(cs, scores);
    var parsed := ReadBack(cs, scores);
    forall i | 0 <= i < |cs|
      ensures parsed[i] == cs[i]
              <==> !NeedsQuotes(cs[i].path) && (cs[i].source.Some? ==> !NeedsQuotes(cs[i].source.value))
    {
      QuotingIsVisible(cs[i].path);
      if cs[i].source.Some? {
        QuotingIsVisible(cs[i].source.value);
      }
    }
    assert parsed == cs <==> forall i :: 0 <= i < |cs| ==> parsed[i] == cs[i];
  }

  // ----- What a quoted path does to the merge -----

  /**
   * The merge gets through the list exactly when the worktree has a file by the spelling of every written path; it
   * gets no further than the first that has none.
   */
  lemma {:induction false} QuotedPathStopsTheMerge(cs: seq<Change>, scores: seq<string>, wt: Tree)
    requires AllPrintable(cs, scores)
    ensures FirstMissing(ReadBack(cs, scores), wt) == |cs|
            <==> forall i :: 0 <= i < |cs| && !cs[i].status.Deleted? ==> Quoted(cs[i].path) in wt
    ensures forall i :: 0 <= i < |cs| && !cs[i].status.Deleted? && Quoted(cs[i].path) !in wt ==>
              FirstMissing(ReadBack(cs, scores), wt) <= i
  {
    ParseReadsTheSpelling(cs, scores);
    assert forall i :: 0 <= i < |cs| ==> ReadBack(cs, scores)[i] == QuotedChange(cs[i]);
  }

  /** On a spelled list the loop does to a spelling what the list would do to the path it stands for. */
  lemma {:induction false} EffectOfASpelling(cs: seq<Change>, wt: Tree, read: Tree, q: Path)
    requires Lookup(read, q) == Lookup(wt, Quoted(q))
    ensures Effect(Spelled(cs), wt, Quoted(q)) == Effect(cs, read, q)
  {
    if cs != [] {
      var (init, c) := (cs[..|cs| - 1], cs[|cs| - 1]);
      assert Spelled(cs)[..|cs| - 1] == Spelled(init);
      EffectOfASpelling(init, wt, read, q);
      if Quoted(c.path) == Quoted(q) {
        QuotedTellsApart(c.path, q);
      }
      if c.source.Some? && Quoted(c.source.value) == Quoted(q) {
        QuotedTellsApart(c.source.value, q);
      }
    }
  }

  /** A path no change spells is left as it was: deleting one that needs quotes does nothing. */
  lemma {:induction false} QuotedPathIsNotTouched(cs: seq<Change>, scores: seq<string>, wt: Tree,
                                                  before: Tree, after: Tree, p: Path)
    requires AllPrintable(cs, scores) && Applied(ReadBack(cs, scores), wt, before, after)
    requires forall q :: Touched(cs, q) ==> Quoted(q) != p
    ensures Lookup(after, p) == Lookup(before, p)
  {
    ParseReadsTheSpelling(cs, scores);
    var parsed := ReadBack(cs, scores);
    EffectIsOfATouch(parsed, wt, p);
    if Touched(parsed, p) {
      var i :| 0 <= i < |parsed| && Touches(parsed[i], p);
      assert parsed[i] == QuotedChange(cs[i]);
      var q := if parsed[i].path == p then cs[i].path else cs[i].source.value;
      assert Touches(cs[i], q) && Quoted(q) == p;
      assert false;
    }
  }

  /** A diff that only deletes a path that needs quotes merges without effect. */
  lemma {:induction false} QuotedDeletionDoesNothing(p: Path, wt: Tree, tree: Tree)
    requires NeedsQuotes(p) && Quoted(p) !in tree
    ensures FirstMissing(ReadBack([Change(Deleted, None, p)], [""]), wt) == 1
    ensures Applied(ReadBack([Change(Deleted, None, p)], [""]), wt, tree, tree)
  {
    var cs := [Change(Deleted, None, p)];
    ParseReadsTheSpelling(cs, [""]);
    var parsed := ReadBack(cs, [""]);
    assert parsed == [Change(Deleted, None, Quoted(p))];
    OneDeletion(Quoted(p), wt, tree);
  }

  lemma {:induction false} OneDeletion(p: Path, wt: Tree, tree: Tree)
    requires p !in tree
    ensures Applied([Change(Deleted, None, p)], wt, tree, tree)
  {
    var cs := [Change(Deleted, None, p)];
    assert cs[..0] == [];
    assert forall q :: Effect(cs, wt, q) == if q == p then Some(None) else None;
  }

  lemma {:induction false} PlainFirst(c: char, rest: Path)
    requires !Unusual(c)
    ensures Escaped([c] + rest) == [c] + Escaped(rest)
  {
    assert ([c] + rest)[1..] == rest;
  }

  lemma {:induction false} PlainIsNotEscaped(p: Path, q: Path)
    requires !NeedsQuotes(p)
    ensures Escaped(p + q) == p + Escaped(q)
  {
    if p == [] {
      assert p + q == q;
    } else {
      PlainTail(p);
      PlainIsNotEscaped(p[1..], q);
      PlainStep(p[0], p[1..], q);
      assert [p[0]] + p[1..] == p;
    }
  }

  lemma {:induction false} PlainStep(c: char, rest: Path, q: Path)
    requires !Unusual(c) && Escaped(rest + q) == rest + Escaped(q)
    ensures Escaped([c] + rest + q) == [c] + rest + Escaped(q)
  {
    PlainFirst(c, rest + q);
    Regrouped([c], rest, q);
    Regrouped([c], rest, Escaped(q));
  }

  lemma {:induction false} Regrouped(a: string, b: string, c: string)
    ensures a + b + c == a + (b + c)
  {
  }

  lemma {:induction false} PlainTail(p: Path)
    requires p != [] && !NeedsQuotes(p)
    ensures !Unusual(p[0]) && !NeedsQuotes(p[1..])
  {
    assert forall i :: 0 <= i < |p| - 1 ==> p[1..][i] == p[i + 1];
  }

  lemma {:induction false} TwoUnusualBytes(a: Path, c: char, d: char, b: Path)
    requires !NeedsQuotes(a) && !NeedsQuotes(b) && Unusual(c)
    ensures NeedsQuotes(a + ([c, d] + b))
    ensures Quoted(a + ([c, d] + b)) == "\"" + (a + (Escape(c) + (Escape(d) + b))) + "\""
  {
    var p := a + ([c, d] + b);
    assert Unusual(p[|a|]);
    PlainIsNotEscaped(b, []);
    assert b + [] == b;
    EscapedTwo(c, d, b);
    PlainIsNotEscaped(a, [c, d] + b);
  }

  /** The UTF-8 bytes of an accented letter amid plain ones are spelled in octal. */
  lemma {:induction false} AccentedNameSpelled(a: Path, b: Path)
    requires !NeedsQuotes(a) && !NeedsQuotes(b)
    ensures NeedsQuotes(a + (['\U{C3}', '\U{A9}'] + b))
    ensures Quoted(a + (['\U{C3}', '\U{A9}'] + b)) == "\"" + (a + ("\\303" + ("\\251" + b))) + "\""
  {
    TwoUnusualBytes(a, '\U{C3}', '\U{A9}', b);
  }

  /** The bytes git escapes by a letter, and one it escapes in octal. */
  lemma {:induction false} SpecialBytesSpelled()
    ensures Escape('\U{07}') == ['\\', 'a'] && Escape('\U{08}') == ['\\', 'b'] && Escape('\t') == ['\\', 't']
    ensures Escape('\n') == ['\\', 'n'] && Escape('\U{0B}') == ['\\', 'v'] && Escape('\U{0C}') == ['\\', 'f']
    ensures Escape('\r') == ['\\', 'r'] && Escape('"') == ['\\', '"'] && Escape('\\') == ['\\', '\\']
    ensures Escape('\U{7F}') == ['\\', '1', '7', '7'] && Escape('\U{01}') == ['\\', '0', '0', '1']
    ensures Escape(' ') == [' '] && Escape('~') == ['~']
  {
  }

  /** Editing one file whose name needs quotes is a merge that fails at that file. */
  lemma {:induction false} QuotedEditStopsTheMerge(p: Path, edited: Content)
    requires NeedsQuotes(p)
    ensures FirstMissing(ReadBack([Change(Modified, None, p)], [""]), map[p := edited]) == 0
  {
    var wt: Tree := map[p := edited];
    QuotingIsVisible(p);
    assert Quoted(p) !in wt;
    QuotedPathStopsTheMerge([Change(Modified, None, p)], [""], wt);
  }

  lemma {:induction false} EscapedTwo(c: char, d: char, b: Path)
    ensures Escaped([c, d] + b) == Escape(c) + (Escape(d) + Escaped(b))
  {
    assert ([c, d] + b)[1..] == [d] + b;
    assert ([d] + b)[1..] == b;
  }
}
