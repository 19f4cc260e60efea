/** Reading changed paths and hunks from a zero-context Git diff. */
module DiffHunks {
  import opened Wrappers

  type HunkKey = (string, seq<string>, seq<string>)

  /** Where `str.splitlines` ends a line. */
  predicate IsLineBreak(c: char) {
    || c == '\n' || c == '\r' || '\U{0B}' <= c <= '\U{0C}' || '\U{1C}' <= c <= '\U{1E}'
    || c == '\U{85}' || c == '\U{2028}' || c == '\U{2029}'
  }

  /** The ten characters at which `splitlines` ends a line, by their code points. */
  lemma LineBreaksAre(c: char)
    ensures IsLineBreak(c) <==> c as int in {10, 11, 12, 13, 28, 29, 30, 133, 8232, 8233}
  {
  }

  predicate OneLine(s: string) { forall i | 0 <= i < |s| :: !IsLineBreak(s[i]) }

  /** The length of `s`'s first line. */
  function LineLength(s: string): (n: nat)
    ensures n <= |s| && OneLine(s[..n]) && (n < |s| ==> IsLineBreak(s[n]))
  {
    if s == "" || IsLineBreak(s[0]) then 0 else 1 + LineLength(s[1..])
  }

  /** What follows `s`'s first break, a carriage return and a newline being one. */
  function AfterBreak(s: string): (rest: string)
    ensures s != "" ==> |rest| < |s|
  {
    var n := LineLength(s);
    if n == |s| then ""
    else if n + 1 < |s| && s[n] == '\r' && s[n + 1] == '\n' then s[n + 2..]
    else s[n + 1..]
  }

  /** `s.splitlines()`. */
  function SplitLines(s: string): seq<string>
    decreases |s|
  {
    if s == "" then [] else [s[..LineLength(s)]] + SplitLines(AfterBreak(s))
  }

  function SpaceAt(s: string): (n: nat)
    ensures n <= |s| && ' ' !in s[..n] && (n < |s| ==> s[n] == ' ')
  {
    if s == "" || s[0] == ' ' then 0 else 1 + SpaceAt(s[1..])
  }

  /** `s.split(" ", limit)`. */
  function SplitSpaces(s: string, limit: nat): seq<string> {
    var n := SpaceAt(s);
    if limit == 0 || n == |s| then [s] else [s[..n]] + SplitSpaces(s[n + 1..], limit - 1)
  }

  function RemovePrefix(s: string, prefix: string): string {
    if prefix <= s then s[|prefix|..] else s
  }

  /** It takes off one prefix, whatever follows, and nothing else. */
  lemma RemovesPrefix(s: string, prefix: string, rest: string)
    ensures RemovePrefix(prefix + rest, prefix) == rest
    ensures !(prefix <= s) ==> RemovePrefix(s, prefix) == s
  {
  }

  const FILE_MARK := "diff --git "
  const HUNK_MARK := "@@ "

  /** The parser's loop state. */
  datatype State = State(
    path: Option<string>, removed: seq<string>, added: seq<string>, paths: set<string>, hunks: set<HunkKey>)
  {
    /** `finish_hunk`. */
    function Finished(): set<HunkKey> {
      if path.Some? && (removed != [] || added != []) then hunks + {(path.value, removed, added)} else hunks
    }
  }

  const Start := State(None, [], [], {}, {})

  function PathOf(line: string): Option<string> {
    var parts := SplitSpaces(line, 3);
    if |parts| == 4 then Some(RemovePrefix(parts[3], "b/")) else None
  }

  datatype LineKind = NewFile | NewHunk | Removal | Addition | OtherLine

  function KindOf(line: string): LineKind {
    if FILE_MARK <= line then NewFile
    else if HUNK_MARK <= line then NewHunk
    else if "-" <= line && !("---" <= line) then Removal
    else if "+" <= line && !("+++" <= line) then Addition
    else OtherLine
  }

  function Step(s: State, line: string): State {
    match KindOf(line)
    case NewFile =>
      var path := PathOf(line);
      State(path, [], [], if path.Some? && path.value != "" then s.paths + {path.value} else s.paths, s.Finished())
    case NewHunk => State(s.path, [], [], s.paths, s.Finished())
    case Removal => s.(removed := s.removed + [Tail(line)])
    case Addition => s.(added := s.added + [Tail(line)])
    case OtherLine => s
  }

  function Tail(line: string): string { if line == "" then "" else line[1..] }

  function Fold(s: State, lines: seq<string>): State
    decreases |lines|
  {
    if lines == [] then s else Fold(Step(s, lines[0]), lines[1..])
  }

  /** `_parse_diff_hunks`. */
  method ParseDiffHunks(diff: string) returns (paths: set<string>, hunks: set<HunkKey>)
    ensures paths == Fold(Start, SplitLines(diff)).paths
    ensures hunks == Fold(Start, SplitLines(diff)).Finished()
  {
    var path: Option<string>, removed: seq<string>, added: seq<string> := None, [], [];
    paths, hunks := {}, {};
    var lines := SplitLines(diff);
    for i := 0 to |lines|
      invariant Fold(Start, lines) == Fold(State(path, removed, added, paths, hunks), lines[i..])
    {
      var line := lines[i];
      assert lines[i..][0] == line && lines[i..][1..] == lines[i + 1..];
      ghost var next := Step(State(path, removed, added, paths, hunks), line);
      if FILE_MARK <= line || HUNK_MARK <= line {
        if path.Some? && (removed != [] || added != []) {
          hunks := hunks + {(path.value, removed, added)};
        }
        removed, added := [], [];
        if FILE_MARK <= line {
          path := PathOf(line);
          if path.Some? && path.value != "" {
            paths := paths + {path.value};
          }
        }
      } else if "-" <= line && !("---" <= line) {
        removed := removed + [line[1..]];
      } else if "+" <= line && !("+++" <= line) {
        added := added + [line[1..]];
      }
      assert State(path, removed, added, paths, hunks) == next;
    }
    if path.Some? && (removed != [] || added != []) {
      hunks := hunks + {(path.value, removed, added)};
    }
  }

  /** The lines `splitlines` makes of one line Git ends with a newline: more than one where it holds another break. */
  function Pieces(line: string): seq<string> { SplitLines(line + "\n") }

  /** What is left of a line before its first break. */
  function Cut(line: string): string { line[..LineLength(line)] }

  function Cuts(lines: seq<string>): seq<string> {
    if lines == [] then [] else [Cut(lines[0])] + Cuts(lines[1..])
  }

  predicate IsMeta(line: string) {
    && !(FILE_MARK <= line) && !(HUNK_MARK <= line)
    && ("-" <= line ==> "---" <= line) && ("+" <= line ==> "+++" <= line)
  }

  /** Nothing the line hides behind a break is a line the parser acts on. */
  ghost predicate Quiet(line: string) {
    '\n' !in line && forall i | 1 <= i < |Pieces(line)| :: IsMeta(Pieces(line)[i])
  }

  /** The same of a hunk heading, where another heading behind a break only ends a hunk that holds nothing yet. */
  ghost predicate QuietHeading(line: string) {
    '\n' !in line && forall i | 1 <= i < |Pieces(line)| :: IsMeta(Pieces(line)[i]) || HUNK_MARK <= Pieces(line)[i]
  }

  ghost predicate Harmless(line: string) { Quiet(line) || (HUNK_MARK <= line && QuietHeading(line)) }

  ghost predicate AllHarmless(lines: seq<string>) { forall i | 0 <= i < |lines| :: Harmless(lines[i]) }

  ghost predicate AllQuiet(lines: seq<string>) { forall i | 0 <= i < |lines| :: Quiet(lines[i]) }

  ghost predicate AllOneLine(lines: seq<string>) { forall i | 0 <= i < |lines| :: OneLine(lines[i]) }

  /** No line starts with the mark doubled. */
  predicate NoneDoubled(mark: char, lines: seq<string>) {
    forall i | 0 <= i < |lines| :: !([mark, mark] <= lines[i])
  }

  /** One hunk of a zero-context diff; a file's last line may lack a newline on either side. */
  datatype Hunk = Hunk(range: string, removed: seq<string>, added: seq<string>, removedOpen: bool, addedOpen: bool)
  {
    /** A hunk Git may print: it changes something, no line of it holds a newline, and its heading hides no change. */
    ghost predicate Valid() {
      && (removed != [] || added != [])
      && QuietHeading(range)
      && (forall i | 0 <= i < |removed| :: '\n' !in removed[i])
      && (forall i | 0 <= i < |added| :: '\n' !in added[i])
    }

    /** No line breaks inside, and none starts with its mark doubled. */
    ghost predicate Readable() {
      && AllOneLine(removed) && AllOneLine(added)
      && NoneDoubled('-', removed) && NoneDoubled('+', added)
    }

    function AtBreaks(): Hunk { Hunk(Cut(range), Cuts(removed), Cuts(added), removedOpen, addedOpen) }
  }

  /** One file's diff: its header, its index, mode, rename and `---`/`+++` lines, and its hunks. */
  datatype FileDiff = FileDiff(oldPath: string, path: string, meta: seq<string>, hunks: seq<Hunk>)
  {
    ghost predicate Valid() {
      && path != "" && OneLine(oldPath) && OneLine(path)
      && (forall i | 0 <= i < |oldPath| :: oldPath[i] != ' ')
      && (forall i | 0 <= i < |meta| :: Quiet(meta[i]) && IsMeta(Cut(meta[i])))
      && (forall i | 0 <= i < |hunks| :: hunks[i].Valid())
    }

    ghost predicate LinesQuiet() {
      forall i | 0 <= i < |hunks| :: AllQuiet(hunks[i].removed) && AllQuiet(hunks[i].added)
    }

    ghost predicate Readable() { forall h | h in hunks :: h.Readable() }

    function AtBreaks(): FileDiff { FileDiff(oldPath, path, Cuts(meta), HunksAtBreaks(hunks)) }
  }

  function HunksAtBreaks(hunks: seq<Hunk>): seq<Hunk> {
    if hunks == [] then [] else [hunks[0].AtBreaks()] + HunksAtBreaks(hunks[1..])
  }

  /** The same diff with each line cut off at its first break. */
  function FilesAtBreaks(files: seq<FileDiff>): seq<FileDiff> {
    if files == [] then [] else [files[0].AtBreaks()] + FilesAtBreaks(files[1..])
  }

  const OPEN_NOTE := "\\ No newline at end of file"

  function Marked(mark: char, lines: seq<string>): seq<string> {
    if lines == [] then [] else [[mark] + lines[0]] + Marked(mark, lines[1..])
  }

  function Note(open: bool): seq<string> { if open then [OPEN_NOTE] else [] }

  function PrintHunk(h: Hunk): seq<string> {
    [HUNK_MARK + h.range] + Marked('-', h.removed) + Note(h.removedOpen) + Marked('+', h.added) + Note(h.addedOpen)
  }

  function PrintHunks(hunks: seq<Hunk>): seq<string> {
    if hunks == [] then [] else PrintHunk(hunks[0]) + PrintHunks(hunks[1..])
  }

  function FileHeader(f: FileDiff): string { FILE_MARK + "a/" + f.oldPath + " b/" + f.path }

  function PrintFile(f: FileDiff): seq<string> {
    [FileHeader(f)] + f.meta + PrintHunks(f.hunks)
  }

  function PrintFiles(files: seq<FileDiff>): seq<string> {
    if files == [] then [] else PrintFile(files[0]) + PrintFiles(files[1..])
  }

  function Unlines(lines: seq<string>): string {
    if lines == [] then "" else lines[0] + "\n" + Unlines(lines[1..])
  }

  /** The diff Git prints. */
  function PrintDiff(files: seq<FileDiff>): string { Unlines(PrintFiles(files)) }

  /** The lines the parser keeps: those whose marked form is not taken for a file header. */
  function Kept(mark: char, lines: seq<string>): (kept: seq<string>)
    ensures NoneDoubled(mark, kept)
    ensures NoneDoubled(mark, lines) ==> kept == lines
  {
    if lines == [] then []
    else (if [mark, mark] <= lines[0] then [] else [lines[0]]) + Kept(mark, lines[1..])
  }

  /** What the parser reads of a hunk. */
  function Reading(path: string, h: Hunk): set<HunkKey> {
    var removed, added := Kept('-', h.removed), Kept('+', h.added);
    if removed != [] || added != [] then {(path, removed, added)} else {}
  }

  ghost function Readings(files: seq<FileDiff>): set<HunkKey> {
    set f, h, key | f in files && h in f.hunks && key in Reading(f.path, h) :: key
  }

  ghost function Triples(files: seq<FileDiff>): set<HunkKey> {
    set f, h | f in files && h in f.hunks :: (f.path, h.removed, h.added)
  }

  ghost function Paths(files: seq<FileDiff>): set<string> { set f | f in files :: f.path }

  lemma {:induction false} FoldAppend(s: State, a: seq<string>, b: seq<string>)
    ensures Fold(s, a + b) == Fold(Fold(s, a), b)
    decreases |a|
  {
    hide Step;
    if a == [] {
      assert a + b == b;
    } else {
      assert (a + b)[0] == a[0] && (a + b)[1..] == a[1..] + b;
      FoldAppend(Step(s, a[0]), a[1..], b);
    }
  }

  /** How the parser takes a removed or added line: as such, unless it starts with the mark doubled. */
  lemma MarkedKind(mark: char, line: string)
    requires mark == '-' || mark == '+'
    ensures KindOf([mark] + line)
            == if [mark, mark] <= line then OtherLine else if mark == '-' then Removal else Addition
    ensures Tail([mark] + line) == line
  {
    var whole := [mark] + line;
    assert whole[0] == mark && whole[1..] == line;
    if |line| >= 2 {
      assert whole[1] == line[0] && whole[2] == line[1];
    }
  }

  /** The state after removed or added lines: those the parser keeps join the hunk. */
  function Joined(s: State, mark: char, lines: seq<string>): State {
    if mark == '-' then s.(removed := s.removed + lines) else s.(added := s.added + lines)
  }

  lemma {:induction false} FoldMarked(s: State, mark: char, lines: seq<string>)
    requires mark == '-' || mark == '+'
    ensures Fold(s, Marked(mark, lines)) == Joined(s, mark, Kept(mark, lines))
    decreases |lines|
  {
    hide KindOf, Tail, Step, Fold, Joined;
    if lines == [] {
      FoldNothing(s);
      JoinedNothing(s, mark);
    } else {
      var keep := if [mark, mark] <= lines[0] then [] else [lines[0]];
      StepMarked(s, mark, lines[0]);
      FoldFirst(s, [mark] + lines[0], Marked(mark, lines[1..]));
      FoldMarked(Joined(s, mark, keep), mark, lines[1..]);
      JoinedTwice(s, mark, keep, Kept(mark, lines[1..]));
    }
  }

  lemma FoldFirst(s: State, line: string, rest: seq<string>)
    ensures Fold(s, [line] + rest) == Fold(Step(s, line), rest)
  {
    hide Step;
    assert ([line] + rest)[1..] == rest;
  }

  lemma FoldNothing(s: State)
    ensures Fold(s, []) == s
  {
  }

  lemma JoinedNothing(s: State, mark: char)
    ensures Joined(s, mark, []) == s
  {
    assert s.removed + [] == s.removed && s.added + [] == s.added;
  }

  lemma JoinedTwice(s: State, mark: char, first: seq<string>, second: seq<string>)
    ensures Joined(Joined(s, mark, first), mark, second) == Joined(s, mark, first + second)
  {
    assert s.removed + first + second == s.removed + (first + second);
    assert s.added + first + second == s.added + (first + second);
  }

  lemma StepMarked(s: State, mark: char, line: string)
    requires mark == '-' || mark == '+'
    ensures Step(s, [mark] + line) == Joined(s, mark, if [mark, mark] <= line then [] else [line])
  {
    hide KindOf, Tail;
    MarkedKind(mark, line);
    JoinedNothing(s, mark);
  }

  lemma {:induction false} FoldMeta(s: State, lines: seq<string>)
    requires forall i | 0 <= i < |lines| :: IsMeta(lines[i])
    ensures Fold(s, lines) == s
    decreases |lines|
  {
    if lines != [] {
      assert IsMeta(lines[0]);
      FoldMeta(s, lines[1..]);
    }
  }

  /** Further headings, before any line of a hunk, change nothing either. */
  lemma {:induction false} FoldHeadings(s: State, lines: seq<string>)
    requires s.removed == [] && s.added == []
    requires forall i | 0 <= i < |lines| :: IsMeta(lines[i]) || HUNK_MARK <= lines[i]
    ensures Fold(s, lines) == s
    decreases |lines|
  {
    if lines != [] {
      assert IsMeta(lines[0]) || HUNK_MARK <= lines[0];
      FoldHeadings(s, lines[1..]);
    }
  }

  lemma FoldOne(s: State, line: string)
    ensures Fold(s, [line]) == Step(s, line)
  {
    assert Fold(s, [line]) == Fold(Step(s, line), [line][1..]);
  }

  lemma FoldNote(s: State, open: bool)
    ensures Fold(s, Note(open)) == s
  {
    assert OPEN_NOTE[0] == '\\';
    FoldOne(s, OPEN_NOTE);
  }

  /** Reading one printed hunk finishes the one before and holds what the parser keeps of this one. */
  lemma FoldHunk(s: State, h: Hunk)
    ensures Fold(s, PrintHunk(h))
            == State(s.path, Kept('-', h.removed), Kept('+', h.added), s.paths, s.Finished())
  {
    hide State.Finished;
    var header := HUNK_MARK + h.range;
    assert header[0] == '@';
    var s0 := Step(s, header);
    assert s0 == State(s.path, [], [], s.paths, s.Finished());
    FoldOne(s, header);
    var removed, added := Marked('-', h.removed), Marked('+', h.added);
    FoldAppend(s, [header], removed);
    FoldAppend(s, [header] + removed, Note(h.removedOpen));
    FoldAppend(s, [header] + removed + Note(h.removedOpen), added);
    FoldAppend(s, [header] + removed + Note(h.removedOpen) + added, Note(h.addedOpen));
    FoldMarked(s0, '-', h.removed);
    var s1 := s0.(removed := Kept('-', h.removed));
    assert [] + Kept('-', h.removed) == Kept('-', h.removed) && [] + Kept('+', h.added) == Kept('+', h.added);
    FoldNote(s1, h.removedOpen);
    FoldMarked(s1, '+', h.added);
    FoldNote(s1.(added := Kept('+', h.added)), h.addedOpen);
  }

  ghost function HunkReadings(path: string, hunks: seq<Hunk>): set<HunkKey> {
    set h, key | h in hunks && key in Reading(path, h) :: key
  }

  lemma {:induction false} FoldHunks(s: State, hunks: seq<Hunk>)
    requires s.path.Some?
    ensures Fold(s, PrintHunks(hunks)).Finished() == s.Finished() + HunkReadings(s.path.value, hunks)
    ensures Fold(s, PrintHunks(hunks)).paths == s.paths && Fold(s, PrintHunks(hunks)).path == s.path
    decreases |hunks|
  {
    hide PrintHunk, Step, Kept, Reading, State.Finished;
    if hunks != [] {
      var next := Fold(s, PrintHunk(hunks[0]));
      FoldAppend(s, PrintHunk(hunks[0]), PrintHunks(hunks[1..]));
      FoldHunk(s, hunks[0]);
      FinishedReading(s, hunks[0], next);
      FoldHunks(next, hunks[1..]);
      ReadingsSplit(s.path.value, hunks);
    }
  }

  lemma FinishedReading(s: State, h: Hunk, next: State)
    requires s.path.Some?
    requires next == State(s.path, Kept('-', h.removed), Kept('+', h.added), s.paths, s.Finished())
    ensures next.Finished() == s.Finished() + Reading(s.path.value, h)
  {
  }

  lemma ReadingsSplit(path: string, hunks: seq<Hunk>)
    requires hunks != []
    ensures HunkReadings(path, hunks) == Reading(path, hunks[0]) + HunkReadings(path, hunks[1..])
  {
    hide Reading;
    assert hunks == [hunks[0]] + hunks[1..];
  }

  lemma {:induction false} SpaceIsAt(word: string, rest: string)
    requires (forall i | 0 <= i < |word| :: word[i] != ' ') && rest != "" && rest[0] == ' '
    ensures SpaceAt(word + rest) == |word|
  {
    if word == "" {
      assert word + rest == rest;
    } else {
      assert (word + rest)[1..] == word[1..] + rest;
      SpaceIsAt(word[1..], rest);
    }
  }

  lemma SplitOff(word: string, rest: string, limit: nat)
    requires (forall i | 0 <= i < |word| :: word[i] != ' ') && limit > 0
    ensures SplitSpaces(word + " " + rest, limit) == [word] + SplitSpaces(rest, limit - 1)
  {
    assert word + " " + rest == word + (" " + rest);
    SpaceIsAt(word, " " + rest);
    assert (word + " " + rest)[..|word|] == word && (word + " " + rest)[|word| + 1..] == rest;
  }

  lemma HeaderPath(f: FileDiff)
    requires f.path != "" && forall i | 0 <= i < |f.oldPath| :: f.oldPath[i] != ' '
    ensures PathOf(FileHeader(f)) == Some(f.path) && KindOf(FileHeader(f)) == NewFile
  {
    hide SplitSpaces;
    var oldName, newName := "a/" + f.oldPath, "b/" + f.path;
    var third := oldName + " " + newName;
    var second := "--git" + " " + third;
    assert FileHeader(f) == "diff" + " " + second;
    SplitOff("diff", second, 3);
    SplitOff("--git", third, 2);
    SplitOff(oldName, newName, 1);
    assert SplitSpaces(newName, 0) == [newName] by { WholeRest(newName); }
    assert SplitSpaces(FileHeader(f), 3) == ["diff", "--git", oldName, newName];
    assert newName[2..] == f.path;
  }

  lemma WholeRest(s: string)
    ensures SplitSpaces(s, 0) == [s]
  {
  }

  /** A file whose header is read as its path and whose other header lines are passed over. */
  predicate Plain(f: FileDiff) {
    && f.path != ""
    && (forall i | 0 <= i < |f.oldPath| :: f.oldPath[i] != ' ')
    && forall i | 0 <= i < |f.meta| :: IsMeta(f.meta[i])
  }

  lemma FoldFile(s: State, f: FileDiff)
    requires Plain(f)
    ensures Fold(s, PrintFile(f)).Finished() == s.Finished() + HunkReadings(f.path, f.hunks)
    ensures Fold(s, PrintFile(f)).paths == s.paths + {f.path}
  {
    hide PathOf, FileHeader, KindOf;
    var header := FileHeader(f);
    HeaderPath(f);
    var s0 := Step(s, header);
    FoldOne(s, header);
    FoldAppend(s, [header] + f.meta, PrintHunks(f.hunks));
    FoldAppend(s, [header], f.meta);
    FoldMeta(s0, f.meta);
    FoldHunks(s0, f.hunks);
  }

  lemma {:induction false} FoldFiles(s: State, files: seq<FileDiff>)
    requires forall i | 0 <= i < |files| :: Plain(files[i])
    ensures Fold(s, PrintFiles(files)).Finished() == s.Finished() + Readings(files)
    ensures Fold(s, PrintFiles(files)).paths == s.paths + Paths(files)
    decreases |files|
  {
    hide PrintFile, Step, State.Finished, Plain, Readings, Paths, HunkReadings, Fold;
    FilesSplit(files);
    if files == [] {
      FoldNothing(s);
    } else {
      var next := Fold(s, PrintFile(files[0]));
      FoldAppend(s, PrintFile(files[0]), PrintFiles(files[1..]));
      FoldFile(s, files[0]);
      FoldFiles(next, files[1..]);
    }
  }

  lemma FilesSplit(files: seq<FileDiff>)
    ensures files == [] ==> Readings(files) == {} && Paths(files) == {}
    ensures files != [] ==>
              && Readings(files) == HunkReadings(files[0].path, files[0].hunks) + Readings(files[1..])
              && Paths(files) == {files[0].path} + Paths(files[1..])
  {
    hide Reading;
    if files != [] {
      assert files == [files[0]] + files[1..];
    }
  }

  /** What stands before the first break of a line does not change where it breaks. */
  lemma {:induction false} LengthAfter(prefix: string, line: string)
    requires OneLine(prefix)
    ensures LineLength(prefix + line) == |prefix| + LineLength(line)
  {
    if prefix == "" {
      assert prefix + line == line;
    } else {
      assert (prefix + line)[1..] == prefix[1..] + line;
      LengthAfter(prefix[1..], line);
    }
  }

  lemma FirstBreak(line: string, rest: string)
    ensures LineLength(line + "\n" + rest) == LineLength(line)
  {
    var n := LineLength(line);
    var after := line[n..] + "\n" + rest;
    assert line + "\n" + rest == line[..n] + after;
    LengthAfter(line[..n], after);
    assert IsLineBreak(after[0]);
  }

  /** What stands before the first break does not change what follows it. */
  lemma BreakAfter(prefix: string, s: string)
    requires OneLine(prefix) && s != ""
    ensures AfterBreak(prefix + s) == AfterBreak(s)
  {
    hide OneLine, LineLength;
    LengthAfter(prefix, s);
    var n, k := LineLength(s), |prefix|;
    var whole := prefix + s;
    if n < |s| {
      assert whole[k + n] == s[n] && whole[k + n + 1..] == s[n + 1..];
      if n + 1 < |s| {
        assert whole[k + n + 1] == s[n + 1] && whole[k + n + 2..] == s[n + 2..];
      }
    }
  }

  lemma BreakFirst(s: string)
    requires s != "" && IsLineBreak(s[0])
    ensures AfterBreak(s) == if |s| > 1 && s[0] == '\r' && s[1] == '\n' then s[2..] else s[1..]
  {
    hide OneLine;
    assert LineLength(s) == 0;
  }

  lemma RestOfLine(line: string, rest: string)
    requires '\n' !in line
    ensures
      var n := LineLength(line);
      AfterBreak(line + "\n" + rest)
      == if n == |line| || (n + 1 == |line| && line[n] == '\r') then rest else line[n + 1..] + "\n" + rest
  {
    hide OneLine, LineLength, AfterBreak, IsLineBreak;
    var n := LineLength(line);
    TailBreaks(line, rest);
    WholeFromTail(line, n, rest);
    BreakAfter(line[..n], line[n..] + "\n" + rest);
    BreakFirst(line[n..] + "\n" + rest);
    TailAfterBreak(line[n..], rest);
    if n < |line| {
      assert line[n..][1..] == line[n + 1..] && line[n..][0] == line[n];
    }
  }

  lemma WholeFromTail(line: string, n: nat, rest: string)
    requires n <= |line|
    ensures line + "\n" + rest == line[..n] + (line[n..] + "\n" + rest)
  {
    assert line == line[..n] + line[n..];
  }

  lemma TailAfterBreak(tail: string, rest: string)
    requires '\n' !in tail
    ensures
      var whole := tail + "\n" + rest;
      && |whole| >= 1
      && (tail == "" ==> whole[0] == '\n' && whole[1..] == rest)
      && (tail != "" ==> |whole| >= 2 && whole[0] == tail[0] && whole[1..] == tail[1..] + "\n" + rest)
      && (|tail| == 1 ==> whole[1] == '\n' && whole[2..] == rest)
      && (|tail| > 1 ==> whole[1] != '\n')
  {
    var whole := tail + "\n" + rest;
    if |tail| > 1 {
      assert whole[1] == tail[1];
    }
  }

  lemma TailBreaks(line: string, rest: string)
    ensures IsLineBreak((line[LineLength(line)..] + "\n" + rest)[0])
  {
    hide OneLine;
  }

  /** A line without newlines, then more: it breaks into its own pieces, and the rest into its own. */
  lemma {:induction false} PiecesThenRest(line: string, rest: string)
    requires '\n' !in line
    ensures SplitLines(line + "\n" + rest) == Pieces(line) + SplitLines(rest)
    ensures Pieces(line) != [] && Pieces(line)[0] == Cut(line)
    decreases |line|
  {
    hide OneLine, AfterBreak, SplitLines, LineLength;
    var n := LineLength(line);
    assert line + "\n" + "" == line + "\n";
    SplitFirst(line, rest);
    SplitFirst(line, "");
    NoLines();
    RestOfLine(line, rest);
    RestOfLine(line, "");
    if n != |line| && !(n + 1 == |line| && line[n] == '\r') {
      PiecesThenRest(line[n + 1..], rest);
      assert line[n + 1..] + "\n" + "" == line[n + 1..] + "\n";
      assert [Cut(line)] + (Pieces(line[n + 1..]) + SplitLines(rest))
          == [Cut(line)] + Pieces(line[n + 1..]) + SplitLines(rest);
    }
  }

  lemma SplitFirst(line: string, rest: string)
    requires '\n' !in line
    ensures SplitLines(line + "\n" + rest) == [Cut(line)] + SplitLines(AfterBreak(line + "\n" + rest))
  {
    hide OneLine, AfterBreak, LineLength;
    FirstBreak(line, rest);
    assert (line + "\n" + rest)[..LineLength(line)] == Cut(line);
  }

  lemma PiecesOfWhole(line: string)
    requires OneLine(line)
    ensures Quiet(line) && Cut(line) == line && Pieces(line) == [line]
  {
    NoNewline(line);
    LengthAfter(line, "");
    assert line + "" == line && line + "\n" + "" == line + "\n";
    hide OneLine, AfterBreak, SplitLines, LineLength;
    SplitFirst(line, "");
    RestOfLine(line, "");
    NoLines();
  }

  /** A one-line prefix joins a line's first piece. */
  lemma PiecesAfter(prefix: string, line: string)
    requires OneLine(prefix) && '\n' !in line
    ensures Pieces(prefix + line) == [prefix + Pieces(line)[0]] + Pieces(line)[1..]
    ensures Cut(prefix + line) == prefix + Cut(line)
    ensures Quiet(prefix + line) <==> Quiet(line)
    ensures QuietHeading(prefix + line) <==> QuietHeading(line)
  {
    hide OneLine, IsMeta, AfterBreak, SplitLines, LineLength;
    var own := line + "\n";
    NoNewline(prefix);
    LengthAfter(prefix, line);
    assert (prefix + line)[..|prefix| + LineLength(line)] == prefix + line[..LineLength(line)];
    assert line + "\n" + "" == own && prefix + line + "\n" + "" == prefix + own;
    assert prefix + line + "\n" == prefix + own;
    SplitFirst(line, "");
    SplitFirst(prefix + line, "");
    BreakAfter(prefix, own);
    assert forall i | 1 <= i < |Pieces(line)| :: Pieces(prefix + line)[i] == Pieces(line)[i];
  }

  lemma NoNewline(s: string)
    requires OneLine(s)
    ensures forall i | 0 <= i < |s| :: s[i] != '\n'
  {
  }

  /** Folding over harmless lines is folding over what stands before their first breaks. */
  lemma {:induction false} FoldQuiet(s: State, lines: seq<string>)
    requires AllHarmless(lines)
    ensures Fold(s, SplitLines(Unlines(lines))) == Fold(s, Cuts(lines))
    decreases |lines|
  {
    hide Step, SplitLines, Harmless, Pieces, Cut, Fold;
    if lines == [] {
      assert SplitLines("") == [] by { NoLines(); }
    } else {
      assert Harmless(lines[0]);
      var rest := Unlines(lines[1..]);
      var pieces := Pieces(lines[0]);
      HarmlessHasNoNewline(lines[0]);
      PiecesThenRest(lines[0], rest);
      FoldAppend(s, pieces, SplitLines(rest));
      assert pieces == [pieces[0]] + pieces[1..];
      FoldFirst(s, pieces[0], pieces[1..]);
      FoldHarmless(s, lines[0]);
      FoldQuiet(Step(s, pieces[0]), lines[1..]);
      FoldFirst(s, Cut(lines[0]), Cuts(lines[1..]));
    }
  }

  lemma HarmlessHasNoNewline(line: string)
    requires Harmless(line)
    ensures '\n' !in line
  {
  }

  /** What a harmless line hides changes nothing once its first piece is read. */
  lemma FoldHarmless(s: State, line: string)
    requires Harmless(line)
    ensures Pieces(line) != [] && Fold(Step(s, Pieces(line)[0]), Pieces(line)[1..]) == Step(s, Pieces(line)[0])
  {
    hide SplitLines, IsMeta, Pieces, Cut, Fold, PathOf;
    HarmlessHasNoNewline(line);
    MarkIsOneLine();
    PiecesThenRest(line, "");
    var first, others := Pieces(line)[0], Pieces(line)[1..];
    if Quiet(line) {
      FoldMeta(Step(s, first), others);
    } else {
      assert line == HUNK_MARK + line[|HUNK_MARK|..];
      PiecesAfter(HUNK_MARK, line[|HUNK_MARK|..]);
      assert HUNK_MARK <= first;
      FoldHeadings(Step(s, first), others);
    }
  }

  lemma NoLines()
    ensures SplitLines("") == []
  {
  }

  lemma {:induction false} CutsAppend(a: seq<string>, b: seq<string>)
    ensures Cuts(a + b) == Cuts(a) + Cuts(b)
    decreases |a|
  {
    hide Cut;
    if a == [] {
      assert a + b == b;
    } else {
      assert (a + b)[0] == a[0] && (a + b)[1..] == a[1..] + b;
      CutsAppend(a[1..], b);
    }
  }

  lemma {:induction false} MarkedQuiet(mark: char, lines: seq<string>)
    requires AllQuiet(lines) && !IsLineBreak(mark)
    ensures AllQuiet(Marked(mark, lines)) && Cuts(Marked(mark, lines)) == Marked(mark, Cuts(lines))
  {
    hide Cut, Quiet;
    if lines != [] {
      QuietHasNoNewline(lines[0]);
      PiecesAfter([mark], lines[0]);
      MarkedQuiet(mark, lines[1..]);
      assert Marked(mark, lines)[1..] == Marked(mark, lines[1..]);
    }
  }

  lemma QuietHasNoNewline(line: string)
    requires Quiet(line)
    ensures '\n' !in line
  {
  }

  lemma QuietIsHarmless(lines: seq<string>)
    requires AllQuiet(lines)
    ensures AllHarmless(lines)
  {
    hide Quiet;
  }

  lemma NoteQuiet(open: bool)
    ensures AllQuiet(Note(open)) && Cuts(Note(open)) == Note(open)
  {
    hide Quiet, Cut, OneLine;
    NoteIsOneLine();
    PiecesOfWhole(OPEN_NOTE);
    assert Cuts([OPEN_NOTE]) == [Cut(OPEN_NOTE)];
  }

  lemma NoteIsOneLine()
    ensures OneLine(OPEN_NOTE)
  {
  }

  lemma HunkQuiet(h: Hunk)
    requires h.Valid() && AllQuiet(h.removed) && AllQuiet(h.added)
    ensures AllHarmless(PrintHunk(h)) && Cuts(PrintHunk(h)) == PrintHunk(h.AtBreaks())
  {
    hide Cut, Harmless, AllQuiet, OneLine, Marked, Note, Cuts, PrintHunk;
    HeadingQuiet(h);
    MarkedQuiet('-', h.removed);
    MarkedQuiet('+', h.added);
    NoteQuiet(h.removedOpen);
    NoteQuiet(h.addedOpen);
    PrintsFive(h);
    PrintsFive(h.AtBreaks());
    CutsOfFive([HUNK_MARK + h.range], Marked('-', h.removed), Note(h.removedOpen), Marked('+', h.added),
               Note(h.addedOpen));
    QuietIsHarmless(Marked('-', h.removed));
    QuietIsHarmless(Marked('+', h.added));
    QuietIsHarmless(Note(h.removedOpen));
    QuietIsHarmless(Note(h.addedOpen));
  }

  lemma PrintsFive(h: Hunk)
    ensures PrintHunk(h)
            == [HUNK_MARK + h.range] + Marked('-', h.removed) + Note(h.removedOpen) + Marked('+', h.added)
               + Note(h.addedOpen)
  {
  }

  lemma HeadingQuiet(h: Hunk)
    requires h.Valid()
    ensures AllHarmless([HUNK_MARK + h.range])
    ensures Cuts([HUNK_MARK + h.range]) == [HUNK_MARK + h.AtBreaks().range]
  {
    hide Cut, Quiet, OneLine;
    MarkIsOneLine();
    PiecesAfter(HUNK_MARK, h.range);
    var heading := [HUNK_MARK + h.range];
    assert Cuts(heading) == [Cut(heading[0])] + Cuts(heading[1..]);
  }

  lemma CutsOfFive(a: seq<string>, b: seq<string>, c: seq<string>, d: seq<string>, e: seq<string>)
    ensures Cuts(a + b + c + d + e) == Cuts(a) + Cuts(b) + Cuts(c) + Cuts(d) + Cuts(e)
  {
    hide Cut, Cuts;
    CutsAppend(a, b);
    CutsAppend(a + b, c);
    CutsAppend(a + b + c, d);
    CutsAppend(a + b + c + d, e);
  }

  lemma MarkIsOneLine()
    ensures OneLine(HUNK_MARK) && OneLine(FILE_MARK)
  {
  }

  lemma {:induction false} HunksQuiet(hunks: seq<Hunk>)
    requires forall i | 0 <= i < |hunks| ::
        hunks[i].Valid() && AllQuiet(hunks[i].removed) && AllQuiet(hunks[i].added)
    ensures AllHarmless(PrintHunks(hunks)) && Cuts(PrintHunks(hunks)) == PrintHunks(HunksAtBreaks(hunks))
  {
    hide PrintHunk, Quiet, Harmless, Hunk.Valid, Cut, Hunk.AtBreaks;
    if hunks != [] {
      HunkQuiet(hunks[0]);
      HunksQuiet(hunks[1..]);
      CutsAppend(PrintHunk(hunks[0]), PrintHunks(hunks[1..]));
      assert HunksAtBreaks(hunks)[1..] == HunksAtBreaks(hunks[1..]);
    }
  }

  lemma FileQuiet(f: FileDiff)
    requires f.Valid() && f.LinesQuiet()
    ensures AllHarmless(PrintFile(f)) && Cuts(PrintFile(f)) == PrintFile(f.AtBreaks()) && Plain(f.AtBreaks())
  {
    hide Quiet, QuietHeading, Cut, OneLine, IsMeta, PrintHunks, Hunk.Valid;
    var header := [FileHeader(f)];
    HeaderIsOneLine(f);
    PiecesOfWhole(FileHeader(f));
    QuietIsHarmless(header);
    QuietIsHarmless(f.meta);
    HunksQuiet(f.hunks);
    assert Cuts(header) == [Cut(header[0])];
    CutsAppend(header, f.meta);
    CutsAppend(header + f.meta, PrintHunks(f.hunks));
    CutsAre(f.meta);
  }

  lemma HeaderIsOneLine(f: FileDiff)
    requires OneLine(f.oldPath) && OneLine(f.path)
    ensures OneLine(FileHeader(f))
  {
    var first, middle := FILE_MARK + "a/", " b/";
    assert OneLine(first) && OneLine(middle);
    assert FileHeader(f) == first + f.oldPath + middle + f.path;
  }

  lemma {:induction false} CutsAre(lines: seq<string>)
    ensures |Cuts(lines)| == |lines| && forall i | 0 <= i < |lines| :: Cuts(lines)[i] == Cut(lines[i])
  {
    hide Cut;
    if lines != [] {
      CutsAre(lines[1..]);
    }
  }

  lemma {:induction false} FilesQuiet(files: seq<FileDiff>)
    requires forall i | 0 <= i < |files| :: files[i].Valid() && files[i].LinesQuiet()
    ensures AllHarmless(PrintFiles(files)) && Cuts(PrintFiles(files)) == PrintFiles(FilesAtBreaks(files))
    ensures |FilesAtBreaks(files)| == |files|
    ensures forall i | 0 <= i < |files| ::
        Plain(FilesAtBreaks(files)[i]) && FilesAtBreaks(files)[i] == files[i].AtBreaks()
  {
    hide PrintFile, Quiet, Harmless, Cut, FileDiff.Valid, FileDiff.LinesQuiet, FileDiff.AtBreaks, Plain;
    if files != [] {
      FileQuiet(files[0]);
      FilesQuiet(files[1..]);
      CutsAppend(PrintFile(files[0]), PrintFiles(files[1..]));
    }
  }

  /**
   * The parser reads a printed diff back: every path, and every hunk with each line cut off at its first break, without
   * the removed lines that start with "--" and the added lines that start with "++", which it takes for file headers.
   * What follows a break must be no line it acts on.
   */
  lemma ParserUndoesPrinter(files: seq<FileDiff>)
    requires forall i | 0 <= i < |files| :: files[i].Valid() && files[i].LinesQuiet()
    ensures Fold(Start, SplitLines(PrintDiff(files))).paths == Paths(files)
    ensures Fold(Start, SplitLines(PrintDiff(files))).Finished() == Readings(FilesAtBreaks(files))
  {
    hide Fold, PrintFiles, FileDiff.Valid, FileDiff.LinesQuiet, Plain, Harmless, SplitLines, Unlines, Readings, Paths,
         State.Finished, FileDiff.AtBreaks;
    var cut := FilesAtBreaks(files);
    FilesQuiet(files);
    FoldQuiet(Start, PrintFiles(files));
    FoldFiles(Start, cut);
    StartHasNone();
    PathsKept(files, cut);
  }

  lemma StartHasNone()
    ensures Start.Finished() == {} && Start.paths == {}
  {
  }

  lemma PathsKept(files: seq<FileDiff>, cut: seq<FileDiff>)
    requires |cut| == |files| && forall i | 0 <= i < |files| :: cut[i] == files[i].AtBreaks()
    ensures Paths(cut) == Paths(files)
  {
    assert forall i | 0 <= i < |files| :: files[i] in files && cut[i] in cut && cut[i].path == files[i].path;
  }

  /** Printed lines without breaks come back as they were. */
  lemma {:induction false} LinesComeBack(lines: seq<string>)
    requires AllOneLine(lines)
    ensures SplitLines(Unlines(lines)) == lines
  {
    hide OneLine, SplitLines, Pieces;
    if lines == [] {
      NoLines();
    } else {
      PiecesOfWhole(lines[0]);
      PiecesThenRest(lines[0], Unlines(lines[1..]));
      LinesComeBack(lines[1..]);
    }
  }

  /** Whatever is split, its lines hold no break. */
  lemma {:induction false} SplitIsOneLine(s: string)
    ensures AllOneLine(SplitLines(s))
    decreases |s|
  {
    hide OneLine;
    if s != "" {
      var n := LineLength(s);
      if n < |s| {
        SplitIsOneLine(s[if n + 1 < |s| && s[n] == '\r' && s[n + 1] == '\n' then n + 2 else n + 1..]);
      }
    }
  }

  /** Lines the parser can have read: none holds a break or starts with its mark doubled. */
  ghost predicate Clean(removed: seq<string>, added: seq<string>) {
    AllOneLine(removed) && AllOneLine(added) && NoneDoubled('-', removed) && NoneDoubled('+', added)
  }

  ghost predicate StateClean(s: State) {
    Clean(s.removed, s.added) && forall key | key in s.hunks :: Clean(key.1, key.2)
  }

  lemma StepKeepsClean(s: State, line: string)
    requires StateClean(s) && OneLine(line)
    ensures StateClean(Step(s, line))
  {
    hide PathOf;
    TailIsClean(line);
    hide KindOf, Tail, OneLine;
  }

  lemma TailIsClean(line: string)
    requires OneLine(line)
    ensures OneLine(Tail(line))
    ensures KindOf(line).Removal? ==> !(['-', '-'] <= Tail(line))
    ensures KindOf(line).Addition? ==> !(['+', '+'] <= Tail(line))
  {
    if line != "" {
      assert line == [line[0]] + Tail(line);
    }
  }

  lemma {:induction false} FoldKeepsClean(s: State, lines: seq<string>)
    requires StateClean(s) && AllOneLine(lines)
    ensures StateClean(Fold(s, lines))
    decreases |lines|
  {
    hide Step, StateClean, OneLine;
    if lines != [] {
      StepKeepsClean(s, lines[0]);
      FoldKeepsClean(Step(s, lines[0]), lines[1..]);
    }
  }

  /** Of any text whatever the parser reads only clean lines. */
  lemma ReadsOnlyClean(diff: string, key: HunkKey)
    requires key in Fold(Start, SplitLines(diff)).Finished()
    ensures Clean(key.1, key.2)
  {
    hide Fold, SplitLines;
    SplitIsOneLine(diff);
    FoldKeepsClean(Start, SplitLines(diff));
  }

  /** To give back exactly the hunks printed, none may hold a line that breaks inside or has its mark doubled. */
  lemma ExactNeedsReadable(files: seq<FileDiff>)
    requires Fold(Start, SplitLines(PrintDiff(files))).Finished() == Triples(files)
    ensures forall f | f in files :: f.Readable()
  {
    hide Fold, SplitLines, PrintDiff, Hunk.Readable;
    forall f, h | f in files && h in f.hunks ensures h.Readable() {
      assert (f.path, h.removed, h.added) in Triples(files);
      ReadsOnlyClean(PrintDiff(files), (f.path, h.removed, h.added));
      CleanIsReadable(h);
    }
  }

  /**
   * While no heading hides a line the parser acts on, it gives back exactly the hunks that were printed just when no
   * line of them breaks inside or starts with its mark doubled.
   */
  lemma ExactIffReadable(files: seq<FileDiff>)
    requires forall i | 0 <= i < |files| :: files[i].Valid()
    ensures Fold(Start, SplitLines(PrintDiff(files))).Finished() == Triples(files)
            <==> forall f | f in files :: f.Readable()
  {
    hide Fold, SplitLines, PrintDiff, Readings, FileDiff.Readable, FileDiff.Valid;
    if Fold(Start, SplitLines(PrintDiff(files))).Finished() == Triples(files) {
      ExactNeedsReadable(files);
    }
    if forall f | f in files :: f.Readable() {
      assert forall i | 0 <= i < |files| :: files[i] in files;
      AllReadable(files);
      ParserUndoesPrinter(files);
    }
  }

  /** A heading that hides an added line behind a form feed gives its hunk that line too. */
  lemma HeadingAddsLine(f: FileDiff, range: string, hidden: string, line: string)
    requires f.hunks == [Hunk(range + "\U{0C}" + ("+" + hidden), [], [line], false, false)] && f.meta == []
    requires f.path != "" && OneLine(f.path) && OneLine(f.oldPath)
    requires forall i | 0 <= i < |f.oldPath| :: f.oldPath[i] != ' '
    requires OneLine(range) && OneLine(hidden) && OneLine(line)
    requires !("++" <= hidden) && !("++" <= line)
    ensures f.Readable()
    ensures Fold(Start, SplitLines(PrintDiff([f]))).Finished() == {(f.path, [], [hidden, line])}
    ensures Fold(Start, SplitLines(PrintDiff([f]))).Finished() != Triples([f])
  {
    hide Fold, SplitLines, OneLine, KindOf, Step, PathOf, FileHeader;
    var seen := f.(hunks := [Hunk(range, [], [hidden, line], false, false)]);
    HiddenLineSplits(f, range, hidden, line);
    FoldFiles(Start, [seen]);
    StartHasNone();
    assert Readings([seen]) == {(f.path, [], [hidden, line])} by { OneReading(seen, hidden, line); }
    assert (f.path, [], [line]) in Triples([f]);
  }

  lemma OneReading(f: FileDiff, hidden: string, line: string)
    requires |f.hunks| == 1 && f.hunks[0].removed == [] && f.hunks[0].added == [hidden, line]
    requires !("++" <= hidden) && !("++" <= line)
    ensures Readings([f]) == {(f.path, [], [hidden, line])}
  {
    assert NoneDoubled('+', [hidden, line]) && Kept('-', []) == [];
    assert Reading(f.path, f.hunks[0]) == {(f.path, [], [hidden, line])};
    hide Reading;
    assert f in [f] && f.hunks[0] in f.hunks;
  }

  lemma HiddenLineSplits(f: FileDiff, range: string, hidden: string, line: string)
    requires f.hunks == [Hunk(range + "\U{0C}" + ("+" + hidden), [], [line], false, false)] && f.meta == []
    requires OneLine(f.path) && OneLine(f.oldPath) && OneLine(range) && OneLine(hidden) && OneLine(line)
    ensures SplitLines(PrintDiff([f])) == PrintFiles([f.(hunks := [Hunk(range, [], [hidden, line], false, false)])])
  {
    hide SplitLines, OneLine, FileHeader;
    var heading := HUNK_MARK + (range + "\U{0C}" + ("+" + hidden));
    var first, second := HUNK_MARK + range, "+" + hidden;
    MarkedLine("+", line);
    MarkedLine("+", hidden);
    MarkIsOneLine();
    MarkedLine(HUNK_MARK, range);
    HeaderIsOneLine(f);
    OneHunkPrints(f, range + "\U{0C}" + ("+" + hidden), [line]);
    MarkedTwo(hidden, line);
    assert heading == first + "\U{0C}" + second;
    BreaksInTwo(first, second);
    PiecesOfWhole(FileHeader(f));
    PiecesOfWhole("+" + line);
    NoLines();
    var l0, l1, l2 := FileHeader(f), heading, "+" + line;
    ThreeLines(l0, l1, l2);
    NoNewline(l0);
    NoNewline(l2);
    PiecesThenRest(l0, l1 + "\n" + (l2 + "\n" + ""));
    PiecesThenRest(l1, l2 + "\n" + "");
    PiecesThenRest(l2, "");
    assert SplitLines(l2 + "\n" + "") == [l2];
    assert PrintFiles([f]) == [l0, l1, l2];
    assert Pieces(l1) == [first, second];
    assert SplitLines(l1 + "\n" + (l2 + "\n" + "")) == [first, second] + [l2];
    assert SplitLines(l0 + "\n" + (l1 + "\n" + (l2 + "\n" + ""))) == [l0] + ([first, second] + [l2]);
    SameHeader(f, [Hunk(range, [], [hidden, line], false, false)]);
    OneHunkPrints(f.(hunks := [Hunk(range, [], [hidden, line], false, false)]), range, [hidden, line]);
  }

  lemma SameHeader(f: FileDiff, hunks: seq<Hunk>)
    ensures FileHeader(f.(hunks := hunks)) == FileHeader(f)
  {
  }

  lemma OneHunkPrints(f: FileDiff, range: string, added: seq<string>)
    requires f.hunks == [Hunk(range, [], added, false, false)] && f.meta == []
    ensures PrintFiles([f]) == [FileHeader(f), HUNK_MARK + range] + Marked('+', added)
  {
    hide FileHeader;
    assert [f][1..] == [] && f.hunks[1..] == [];
    assert PrintFiles([f]) == PrintFile(f) + PrintFiles([]);
    assert PrintHunks(f.hunks) == PrintHunk(f.hunks[0]) + PrintHunks([]);
    assert Marked('-', []) == [] && Note(false) == [];
    hide Marked;
    assert PrintHunk(f.hunks[0]) == [HUNK_MARK + range] + Marked('+', added);
  }

  lemma MarkedTwo(first: string, second: string)
    ensures Marked('+', [second]) == ["+" + second]
    ensures Marked('+', [first, second]) == ["+" + first, "+" + second]
  {
    assert [first, second][1..] == [second] && [second][1..] == [];
  }

  lemma ThreeLines(a: string, b: string, c: string)
    ensures Unlines([a, b, c]) == a + "\n" + (b + "\n" + (c + "\n" + ""))
  {
    assert [a, b, c][1..] == [b, c] && [b, c][1..] == [c] && [c][1..] == [];
    assert Unlines([c]) == c + "\n" + Unlines([]);
    assert Unlines([b, c]) == b + "\n" + Unlines([c]);
  }

  lemma MarkedLine(mark: string, line: string)
    requires OneLine(line)
    ensures mark == "+" || mark == HUNK_MARK ==> OneLine(mark + line)
  {
  }

  lemma BreaksInTwo(first: string, second: string)
    requires OneLine(first) && OneLine(second)
    ensures '\n' !in first + "\U{0C}" + second
    ensures Pieces(first + "\U{0C}" + second) == [first, second]
  {
    NoNewline(first);
    NoNewline(second);
    PiecesOfWhole(second);
    var broken := "\U{0C}" + second;
    assert first + "\U{0C}" + second == first + broken;
    assert OneLine("") && '\n' !in broken;
    assert LineLength(broken) == 0 && broken[1..] == second;
    hide OneLine;
    PiecesAfter(first, broken);
    assert first + "" == first && broken[..0] == "";
    var own := broken + "\n";
    assert own[1..] == second + "\n" && own[0] == '\U{0C}';
    BreakFirst(own);
    hide AfterBreak;
    assert Pieces(broken) == [""] + Pieces(second);
    PiecesThenRest(broken, "");
  }

  lemma CleanIsReadable(h: Hunk)
    ensures h.Readable() <==> Clean(h.removed, h.added)
  {
  }

  /** Readable files lose nothing at breaks and nothing to doubled marks. */
  lemma {:induction false} AllReadable(files: seq<FileDiff>)
    requires forall i | 0 <= i < |files| :: files[i].Valid() && files[i].Readable()
    ensures forall i | 0 <= i < |files| :: files[i].LinesQuiet()
    ensures Readings(FilesAtBreaks(files)) == Triples(files)
    decreases |files|
  {
    hide FileDiff.Readable, FileDiff.Valid, FileDiff.LinesQuiet, HunkReadings, HunkTriples, Triples, Readings;
    FilesSplit(FilesAtBreaks(files));
    TriplesSplit(files);
    if files != [] {
      FileReadable(files[0]);
      AllReadable(files[1..]);
      assert FilesAtBreaks(files)[1..] == FilesAtBreaks(files[1..]);
    }
  }

  ghost function HunkTriples(f: FileDiff): set<HunkKey> {
    set h | h in f.hunks :: (f.path, h.removed, h.added)
  }

  lemma TriplesSplit(files: seq<FileDiff>)
    ensures files == [] ==> Triples(files) == {}
    ensures files != [] ==> Triples(files) == HunkTriples(files[0]) + Triples(files[1..])
  {
    if files != [] {
      assert files == [files[0]] + files[1..];
    }
  }

  lemma FileReadable(f: FileDiff)
    requires f.Valid() && f.Readable()
    ensures f.LinesQuiet() && HunkReadings(f.path, f.AtBreaks().hunks) == HunkTriples(f)
  {
    hide Hunk.Readable, Reading, Hunk.Valid, Hunk.AtBreaks, Quiet;
    HunksAre(f.hunks);
    var cut := f.AtBreaks().hunks;
    forall h | h in f.hunks
      ensures AllQuiet(h.removed) && AllQuiet(h.added)
      ensures Reading(f.path, h.AtBreaks()) == {(f.path, h.removed, h.added)}
    {
      ReadableReads(f.path, h);
    }
    forall key ensures key in HunkReadings(f.path, cut) <==> key in HunkTriples(f) {
      if key in HunkReadings(f.path, cut) {
        var h :| h in cut && key in Reading(f.path, h);
        var i :| 0 <= i < |cut| && cut[i] == h;
        assert f.hunks[i] in f.hunks;
      }
      if key in HunkTriples(f) {
        var h :| h in f.hunks && key == (f.path, h.removed, h.added);
        var i :| 0 <= i < |f.hunks| && f.hunks[i] == h;
        assert cut[i] in cut;
      }
    }
  }

  lemma {:induction false} HunksAre(hunks: seq<Hunk>)
    ensures |HunksAtBreaks(hunks)| == |hunks|
    ensures forall i | 0 <= i < |hunks| :: HunksAtBreaks(hunks)[i] == hunks[i].AtBreaks()
  {
    hide Hunk.AtBreaks;
    if hunks != [] {
      HunksAre(hunks[1..]);
    }
  }

  lemma ReadableReads(path: string, h: Hunk)
    requires h.Readable() && h.Valid()
    ensures AllQuiet(h.removed) && AllQuiet(h.added)
    ensures Reading(path, h.AtBreaks()) == {(path, h.removed, h.added)}
  {
    hide OneLine, Quiet, Cut;
    OneLinesQuiet(h.removed);
    OneLinesQuiet(h.added);
  }

  lemma {:induction false} OneLinesQuiet(lines: seq<string>)
    requires AllOneLine(lines)
    ensures AllQuiet(lines) && Cuts(lines) == lines
  {
    hide OneLine, Quiet, Cut;
    if lines != [] {
      PiecesOfWhole(lines[0]);
      OneLinesQuiet(lines[1..]);
    }
  }
}
