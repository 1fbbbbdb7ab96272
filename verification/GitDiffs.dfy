/** Reading what git prints for a file, beyond what rendering writes (src/diff.rs): its status and path
    lines, hunk headers with a length left out, and body lines by their first character. */
module GitDiffs {
  import opened Wrappers
  import opened TextOps
  import opened Decimal
  import opened UnifiedDiff
  import opened DiffReading

  // ---- body lines ----

  datatype Reading = Reading(kind: Kind, text: string)

  /** A body line is what its first character says; a line that starts with a backslash says nothing. */
  ghost function ReadingOf(line: string): Option<Reading> {
    if line == "" then Some(Reading(Ctx, ""))
    else
      match line[0]
      case '\\' => None
      case '+' => Some(Reading(Add, line[1..]))
      case '-' => Some(Reading(Del, line[1..]))
      case ' ' => Some(Reading(Ctx, line[1..]))
      case _ => Some(Reading(Ctx, line))
  }

  ghost function Readings(body: seq<string>): seq<Reading> {
    if body == [] then []
    else
      var r := ReadingOf(body[0]);
      (if r.Some? then [r.value] else []) + Readings(body[1..])
  }

  ghost function LineFor(r: Reading, o: nat, n: nat): Line {
    Line(r.kind, if r.kind == Add then None else Some(o), if r.kind == Del then None else Some(n), r.text)
  }

  /** The lines with these kinds and texts, numbered from `o` and `n`. */
  ghost function Lined(rs: seq<Reading>, o: nat, n: nat): (ls: seq<Line>)
    ensures |ls| == |rs| && forall k :: 0 <= k < |rs| ==> ls[k].kind == rs[k].kind && ls[k].text == rs[k].text
    ensures Numbered(ls, o, n)
    decreases |rs|
  {
    if rs == [] then []
    else
      var l := LineFor(rs[0], o, n);
      var rest := Lined(rs[1..], if l.kind == Add then o else Next(o), if l.kind == Del then n else Next(n));
      assert ([l] + rest)[1..] == rest;
      [l] + rest
  }

  lemma StartsChar(line: string, p: string)
    requires |p| == 1
    ensures StartsWith(line, p) <==> line != "" && line[0] == p[0]
  {
    if line != "" { assert line[..1] == [line[0]] && p == [p[0]]; }
  }

  lemma BodyLineReads(unquote: Unquoter, st: State, line: string)
    requires st.cur.Some? && st.hunk.Some? && !IsHeader(line)
    ensures ReadingOf(line).None? ==> Step(unquote, st, line) == st
    ensures ReadingOf(line).Some? ==>
      Step(unquote, st, line) == Appended(st, [LineFor(ReadingOf(line).value, st.oldNo, st.newNo)])
  {
    StartsChar(line, "\\");
    StartsChar(line, "+");
    StartsChar(line, "-");
    StartsChar(line, " ");
    assert Step(unquote, st, line) == BodyStep(st, line);
    if ReadingOf(line).Some? { AfterOne(LineFor(ReadingOf(line).value, st.oldNo, st.newNo), st.oldNo, st.newNo); }
  }

  /** The lines of an open hunk's body are read by their first characters, in order. */
  lemma {:induction false} BodyReads(unquote: Unquoter, st: State, body: seq<string>)
    requires st.cur.Some? && st.hunk.Some? && forall line <- body :: !IsHeader(line)
    ensures Fold(unquote, st, body) == Appended(st, Lined(Readings(body), st.oldNo, st.newNo))
    decreases |body|
  {
    if body == [] {
      assert st.hunk.value.lines + [] == st.hunk.value.lines;
    } else {
      BodyLineReads(unquote, st, body[0]);
      BodyReads(unquote, Step(unquote, st, body[0]), body[1..]);
      var r, rest := ReadingOf(body[0]), Readings(body[1..]);
      if r.Some? {
        var l := LineFor(r.value, st.oldNo, st.newNo);
        AfterOne(l, st.oldNo, st.newNo);
        assert ([r.value] + rest)[1..] == rest;
        AppendedMore(st, l, Lined(rest, Appended(st, [l]).oldNo, Appended(st, [l]).newNo));
      } else {
        assert [] + rest == rest;
      }
    }
  }

  // ---- the note on a missing line feed ----

  /** A line that starts with a backslash is never read, wherever it stands. */
  lemma MarkerStep(unquote: Unquoter, st: State, line: string)
    requires line != "" && line[0] == '\\'
    ensures Step(unquote, st, line) == st
  {
    NotPrefix(line, "diff --git ");
    NotPrefix(line, "rename from ");
    NotPrefix(line, "rename to ");
    NotPrefix(line, "new file mode");
    NotPrefix(line, "deleted file mode");
    NotPrefix(line, "--- ");
    NotPrefix(line, "+++ ");
    NotPrefix(line, "@@");
    StartsChar(line, "\\");
  }

  /** So the note git prints for a file without a final line feed changes nothing in what is parsed. */
  lemma MarkerIgnored(unquote: Unquoter, before: seq<string>, line: string, after: seq<string>)
    requires line != "" && line[0] == '\\'
    requires forall l <- before + [line] + after :: '\n' !in l
    ensures Parse(unquote, Joined(before + [line] + after)) == Parse(unquote, Joined(before + after))
  {
    LinesOfJoined(before + [line] + after);
    LinesOfJoined(before + after);
    DropCrsAppend(before + [line], after);
    DropCrsAppend(before, [line]);
    DropCrsAppend(before, after);
    DropCrKeepsFirst(line);
    assert DropCrs([line]) == [DropCr(line)];
    MarkerDropped(unquote, START, DropCrs(before), DropCr(line), DropCrs(after));
  }

  lemma DropCrsAppend(a: seq<string>, b: seq<string>)
    ensures DropCrs(a + b) == DropCrs(a) + DropCrs(b)
  {
  }

  lemma DropCrKeepsFirst(line: string)
    requires line != "" && line[0] == '\\'
    ensures DropCr(line) != "" && DropCr(line)[0] == '\\'
  {
    if EndsWith(line, "\r") { assert line[|line| - 1..] == "\r"; }
  }

  lemma MarkerDropped(unquote: Unquoter, st: State, a: seq<string>, m: string, b: seq<string>)
    requires m != "" && m[0] == '\\'
    ensures Fold(unquote, st, a + [m] + b) == Fold(unquote, st, a + b)
  {
    var middle := Fold(unquote, st, a);
    FoldAppend(unquote, st, a + [m], b);
    FoldAppend(unquote, st, a, [m]);
    FoldAppend(unquote, st, a, b);
    MarkerStep(unquote, middle, m);
    assert [m][1..] == [];
  }

  // ---- hunk headers ----

  /** A start and a length, which git leaves out when it is 1. */
  datatype Range = Range(start: nat, len: Option<nat>) {
    ghost function Length(): nat { if len.Some? then len.value else 1 }

    ghost function Text(): string { Print(start) + if len.Some? then "," + Print(len.value) else "" }

    ghost predicate Fits() { start < U32_END && (len.Some? ==> len.value < U32_END) }
  }

  datatype GitHunk = GitHunk(old_: Range, new_: Range, section: string, body: seq<string>)

  ghost function AtLine(h: GitHunk): string {
    "@@ -" + h.old_.Text() + " +" + h.new_.Text() + " @@" + h.section
  }

  lemma RangeReads(r: Range)
    requires r.Fits()
    ensures SplitRange(r.Text()) == (r.start, r.Length()) && NoSpace(r.Text())
  {
    if r.len.Some? {
      assert r.Text() == Print(r.start) + "," + Print(r.len.value);
      SplitRangeOfPrint(r.start, r.len.value);
      DigitsAreNoSpace(r.start);
      DigitsAreNoSpace(r.len.value);
    } else {
      assert r.Text() == Print(r.start);
      LoneStart(r.start);
    }
  }

  lemma LoneStart(n: nat)
    requires n < U32_END
    ensures SplitRange(Print(n)) == (n, 1) && NoSpace(Print(n))
  {
    DigitsAreNoSpace(n);
    FirstWhereIs(Print(n), c => c == ',', |Print(n)|);
    ParseOfPrint(n);
  }

  lemma SignedWord(sign: char, r: Range, rest: string)
    requires r.Fits() && !IsSpace(sign) && rest != "" && IsSpace(rest[0])
    ensures Word(" " + ([sign] + r.Text()) + rest) == Some(([sign] + r.Text(), rest))
  {
    RangeReads(r);
    var w := [sign] + r.Text();
    assert forall i :: 0 <= i < |w| ==> !IsSpace(w[i]) by {
      assert forall i :: 1 <= i < |w| ==> w[i] == r.Text()[i - 1];
    }
    WordOf(w, rest);
  }

  lemma AtLineWords(h: GitHunk, o: string, n: string, tail: string)
    requires o == "-" + h.old_.Text() && n == "+" + h.new_.Text() && tail == " @@" + h.section
    ensures StartsWith(AtLine(h), "@@") && TrimRepeated(AtLine(h), "@@") == " " + o + (" " + n + tail)
  {
    var rest := " " + o + (" " + n + tail);
    assert AtLine(h) == "@@" + rest;
    assert AtLine(h)[..2] == "@@" && AtLine(h)[2..] == rest;
    NotPrefix(rest, "@@");
  }

  /** A hunk header gives its numbers, whatever stands after it; a length left out is 1. */
  lemma AtLineReads(h: GitHunk)
    requires h.old_.Fits() && h.new_.Fits()
    ensures StartsWith(AtLine(h), "@@")
    ensures ParseHunkHeader(AtLine(h)) == Some(Hunk(h.old_.start, h.old_.Length(), h.new_.start, h.new_.Length(), []))
  {
    var o, n, tail := "-" + h.old_.Text(), "+" + h.new_.Text(), " @@" + h.section;
    AtLineWords(h, o, n, tail);
    SignedWord('-', h.old_, " " + n + tail);
    SignedWord('+', h.new_, tail);
    StartsChar(o, "-");
    StartsChar(n, "+");
    assert o[1..] == h.old_.Text() && n[1..] == h.new_.Text();
    RangeReads(h.old_);
    RangeReads(h.new_);
  }

  /** A number that cannot be read counts as 0. */
  lemma UnreadableRange(s: string, a: string, b: string)
    requires ',' !in a && ParseU32(a) == None
    ensures SplitRange(a) == (0, 1)
    ensures s == a + "," + b ==> SplitRange(s) == (0, if ParseU32(b).Some? then ParseU32(b).value else 0)
  {
    FirstWhereIs(a, c => c == ',', |a|);
    if s == a + "," + b {
      assert forall j :: 0 <= j < |a| ==> s[j] == a[j] && a[j] in a;
      FirstWhereIs(s, c => c == ',', |a|);
      assert s[..|a|] == a && s[|a| + 1..] == b;
    }
  }

  // ---- paths ----

  /** What stands between the quotes of a quoted path: every quote is escaped. */
  ghost predicate Escaped(inner: string)
    decreases |inner|
  {
    inner == "" ||
    if inner[0] == '\\' then |inner| >= 2 && Escaped(inner[2..]) else inner[0] != '"' && Escaped(inner[1..])
  }

  ghost predicate Quoted(token: string) {
    |token| >= 2 && token[0] == '"' && token[|token| - 1] == '"' && Escaped(token[1..|token| - 1])
  }

  /** A path that git prints as it is: it may hold spaces, but no other white space and no quote. */
  ghost predicate Plain(path: string) {
    forall k :: 0 <= k < |path| ==> path[k] != '"' && (path[k] == ' ' || !IsSpace(path[k]))
  }

  /** Git prints this path as this token: as it is, or quoted. */
  ghost predicate Shown(unquote: Unquoter, path: string, token: string) {
    if token == path then Plain(path) else Quoted(token) && unquote(token) == Some(path)
  }

  /** How git prints paths. */
  type Quoter = string -> string

  /** The path is printed as it is. */
  ghost predicate Bare(quote: Quoter, path: string) {
    quote(path) == path
  }

  /** The prefixes "a/" and "b/" make no difference to that. */
  ghost predicate Quotes(unquote: Unquoter, quote: Quoter) {
    forall path :: path != "" ==>
      && Shown(unquote, path, quote(path))
      && Shown(unquote, "a/" + path, quote("a/" + path)) && (Bare(quote, "a/" + path) <==> Bare(quote, path))
      && Shown(unquote, "b/" + path, quote("b/" + path)) && (Bare(quote, "b/" + path) <==> Bare(quote, path))
  }

  lemma QuotedIsNotPlain(token: string)
    requires Quoted(token)
    ensures !Plain(token)
  {
  }

  lemma {:induction false} ClosingAt(s: string, i: nat, inner: string, rest: string)
    requires i <= |s| && s[i..] == inner + "\"" + rest && Escaped(inner)
    ensures ClosingQuote(s, i) == Some(i + |inner|)
    decreases |inner|
  {
    var t := s[i..];
    if inner == "" {
      assert s[i] == t[0] == '"';
    } else {
      var n := if inner[0] == '\\' then 2 else 1;
      assert s[i] == t[0] == inner[0];
      assert s[i + n..] == t[n..] == inner[n..] + "\"" + rest;
      ClosingAt(s, i + n, inner[n..], rest);
    }
  }

  lemma QuotedParts(s: string, token: string, rest: string, inner: string)
    requires s == token + rest && Quoted(token) && inner == token[1..|token| - 1]
    ensures s[1..] == inner + "\"" + rest && s[..|inner| + 2] == token && s[|inner| + 2..] == rest
    ensures s[0] == '"' && StartsWith(s, "\"")
  {
    assert token == "\"" + inner + "\"";
    assert s[..1] == "\"";
  }

  /** A token of a path without spaces is read as that path. */
  lemma PathTokenShown(unquote: Unquoter, s: string, path: string, token: string, rest: string)
    requires s == token + rest && path != "" && Shown(unquote, path, token) && (rest == "" || IsSpace(rest[0]))
    requires token == path ==> ' ' !in path
    ensures PathToken(unquote, s) == (path, rest)
  {
    if Quoted(token) && unquote(token) == Some(path) {
      var inner := token[1..|token| - 1];
      QuotedParts(s, token, rest, inner);
      ClosingAt(s, 1, inner, rest);
    } else {
      assert forall k :: 0 <= k < |path| ==> path[k] in path;
      PathTokenOf(unquote, s, token, rest);
    }
  }

  lemma TrimIs(s: string, before: string, t: string, after: string)
    requires s == before + t + after && Blank(before) && Blank(after) && t != "" && Tight(t)
    ensures Trim(s) == t
  {
    TrimEndIs(s, before + t, after);
    TrimStartIs(before + t, before, t);
  }

  /** What a text is without the white space around it. */
  lemma TrimParts(s: string) returns (before: string, after: string)
    ensures s == before + Trim(s) + after && Blank(before) && Blank(after) && Tight(Trim(s))
  {
    after := TrimEndSplits(s);
    before := TrimStartSplits(TrimEnd(s));
  }

  /** Putting white space around a text does not change what it is trimmed to. */
  lemma TrimMore(s: string, before: string, after: string)
    requires Blank(before) && Blank(after) && Trim(s) != ""
    ensures Trim(before + s + after) == Trim(s)
  {
    var a, b := TrimParts(s);
    assert before + s + after == (before + a) + Trim(s) + (b + after);
    TrimIs(before + s + after, before + a, Trim(s), b + after);
  }

  lemma NormalizeTrimmed(unquote: Unquoter, s: string)
    requires Trim(s) != ""
    ensures NormalizePath(unquote, Trim(s)) == NormalizePath(unquote, s)
  {
    var a, b := TrimParts(s);
    assert "" + Trim(s) + "" == Trim(s);
    TrimIs(Trim(s), "", Trim(s), "");
  }

  lemma TokenTrims(unquote: Unquoter, path: string, token: string, first: char)
    requires Shown(unquote, path, token) && path != "" && path[0] == first && !IsSpace(first)
    ensures Trim(token) != "" && Trim(token)[0] in {first, '"'}
  {
    var a, b := TrimParts(token);
    if a != "" { assert token[0] == a[0]; }
    assert a == "" || IsSpace(token[0]);
  }

  // ---- files ----

  datatype Change = Edit | Create(mode: string) | Remove(mode: string) | Move(similarity: string) {
    ghost function Status(): FileStatus {
      match this case Edit => Modified case Create(_) => Added case Remove(_) => Deleted case Move(_) => Renamed
    }
  }

  /** `notes` are the lines on index, modes and binary contents, which are not read. */
  datatype GitFile = GitFile(change: Change, old_: string, new_: string, notes: seq<string>, hunks: seq<GitHunk>)

  ghost function Extended(f: GitFile, quote: Quoter): seq<string> {
    match f.change
    case Edit => []
    case Create(mode) => ["new file mode " + mode]
    case Remove(mode) => ["deleted file mode " + mode]
    case Move(similarity) =>
      ["similarity index " + similarity, "rename from " + quote(f.old_), "rename to " + quote(f.new_)]
  }

  ghost function Sides(f: GitFile, quote: Quoter): seq<string> {
    if f.hunks == [] then []
    else
      ["--- " + if f.change.Create? then "/dev/null" else SideToken(quote("a/" + f.old_)),
       "+++ " + if f.change.Remove? then "/dev/null" else SideToken(quote("b/" + f.new_))]
  }

  /** A tab ends a name that holds a space. */
  ghost function SideToken(token: string): string {
    if ' ' in token then token + "\t" else token
  }

  ghost function GitHunkLines(hs: seq<GitHunk>): seq<string> {
    if hs == [] then [] else [AtLine(hs[0])] + hs[0].body + GitHunkLines(hs[1..])
  }

  ghost function DiffLine(f: GitFile, quote: Quoter): string {
    "diff --git " + quote("a/" + f.old_) + " " + quote("b/" + f.new_)
  }

  /** The lines before the hunks. */
  ghost function Head(f: GitFile, quote: Quoter): seq<string> {
    [DiffLine(f, quote)] + (Extended(f, quote) + f.notes + Sides(f, quote))
  }

  ghost function GitLines(f: GitFile, quote: Quoter): seq<string> {
    Head(f, quote) + GitHunkLines(f.hunks)
  }

  ghost predicate Unread(lines: seq<string>) {
    forall l <- lines :: !IsHeader(l)
  }

  /** A line on the index or the mode of a file is none of those that are read. */
  lemma NotHeader(line: string)
    requires line != "" && line[0] in {'i', 'o', 's'}
    ensures !IsHeader(line)
  {
    NotPrefix(line, "diff --git ");
    NotPrefix(line, "rename from ");
    NotPrefix(line, "rename to ");
    NotPrefix(line, "new file mode");
    NotPrefix(line, "deleted file mode");
    NotPrefix(line, "--- ");
    NotPrefix(line, "+++ ");
    NotPrefix(line, "@@");
  }

  ghost predicate GitHunkOk(h: GitHunk) {
    h.old_.Fits() && h.new_.Fits() && Unread(h.body)
  }

  /** Only a move has two names. */
  ghost predicate GitFileOk(f: GitFile) {
    && f.old_ != "" && f.new_ != "" && (!f.change.Move? ==> f.old_ == f.new_)
    && Unread(f.notes) && forall h <- f.hunks :: GitHunkOk(h)
  }

  ghost function Meaning(h: GitHunk): Hunk {
    Hunk(h.old_.start, h.old_.Length(), h.new_.start, h.new_.Length(),
         Lined(Readings(h.body), h.old_.start, h.new_.start))
  }

  ghost function Meanings(hs: seq<GitHunk>): (r: seq<Hunk>)
    ensures |r| == |hs| && forall k :: 0 <= k < |hs| ==> r[k] == Meaning(hs[k])
  {
    if hs == [] then [] else [Meaning(hs[0])] + Meanings(hs[1..])
  }

  /** The paths that the first line of a file gives. */
  ghost function HeaderPaths(unquote: Unquoter, quote: Quoter, f: GitFile): (string, string) {
    var (a, rest) := PathToken(unquote, quote("a/" + f.old_) + (" " + quote("b/" + f.new_)));
    (StripAb(a), StripAb(PathToken(unquote, rest).0))
  }

  /** The path that a later line gives for a name. */
  ghost function LinePath(unquote: Unquoter, token: string): string {
    NormalizePath(unquote, token)
  }

  /** The old path: from the line for the old side if there is one, from the line on a move, or else from
      the first line. */
  ghost function OldRead(unquote: Unquoter, quote: Quoter, f: GitFile): string {
    if f.hunks != [] && !f.change.Create? then LinePath(unquote, quote("a/" + f.old_))
    else if f.change.Move? then LinePath(unquote, quote(f.old_))
    else HeaderPaths(unquote, quote, f).0
  }

  ghost function NewRead(unquote: Unquoter, quote: Quoter, f: GitFile): string {
    if f.hunks != [] && !f.change.Remove? then LinePath(unquote, quote("b/" + f.new_))
    else if f.change.Move? then LinePath(unquote, quote(f.new_))
    else HeaderPaths(unquote, quote, f).1
  }

  /** What a file is read as; `PathsRead` says when the paths are right. */
  ghost function Read(unquote: Unquoter, quote: Quoter, f: GitFile): FileDiff {
    FileDiff(OldRead(unquote, quote, f), NewRead(unquote, quote, f), f.change.Status(), Meanings(f.hunks))
  }

  lemma {:induction false} NotesStep(unquote: Unquoter, st: State, notes: seq<string>)
    requires st.hunk.None? && Unread(notes)
    ensures Fold(unquote, st, notes) == st
    decreases |notes|
  {
    if notes != [] {
      assert notes[0] in notes;
      assert Step(unquote, st, notes[0]) == st;
      NotesStep(unquote, st, notes[1..]);
    }
  }

  lemma DiffLineParts(line: string, a: string, b: string)
    requires line == "diff --git " + a + " " + b
    ensures StartsWith(line, "diff --git ") && line[11..] == a + (" " + b)
  {
    assert line[..11] == "diff --git ";
  }

  lemma HeadStep(unquote: Unquoter, quote: Quoter, st: State, f: GitFile)
    requires st.cur.None? ==> st.hunk.None?
    ensures var (a, b) := HeaderPaths(unquote, quote, f);
      Step(unquote, st, DiffLine(f, quote)) ==
      State(Flushed(st), Some(FileDiff(a, b, Modified, [])), None, st.oldNo, st.newNo)
  {
    DiffLineParts(DiffLine(f, quote), quote("a/" + f.old_), quote("b/" + f.new_));
  }

  lemma AfterSigns(line: string, sign: string, path: string)
    requires (sign == "-" || sign == "+") && line == sign + (sign + (sign + (" " + path)))
    ensures TrimRepeated(line, sign) == " " + path
  {
    TrimOne(line, sign, sign + (sign + (" " + path)));
    TrimOne(sign + (sign + (" " + path)), sign, sign + (" " + path));
    TrimOne(sign + (" " + path), sign, " " + path);
    NotPrefix(" " + path, sign);
  }

  lemma SignsApart(path: string)
    ensures "--- " + path == "-" + ("-" + ("-" + (" " + path)))
    ensures "+++ " + path == "+" + ("+" + ("+" + (" " + path)))
  {
  }

  lemma TrimOne(s: string, p: string, rest: string)
    requires p != "" && s == p + rest
    ensures TrimRepeated(s, p) == TrimRepeated(rest, p)
  {
    assert s[..|p|] == p && s[|p|..] == rest;
  }

  lemma NotPrefixAt(s: string, p: string, k: nat)
    requires k < |s| && k < |p| && s[k] != p[k]
    ensures !StartsWith(s, p)
  {
    assert |p| <= |s| ==> s[..|p|][k] == s[k];
  }

  lemma OldSideLine(unquote: Unquoter, st: State, line: string, text: string, p: string)
    requires st.cur.Some? && line == "--- " + text && p == Trim(" " + text)
    ensures Step(unquote, st, line) == st.(cur := Some(
      if p == "/dev/null" then st.cur.value.(status := Added)
      else st.cur.value.(oldPath := NormalizePath(unquote, p))))
  {
    NotGitHeader(line);
    assert line[..4] == "--- ";
    SignsApart(text);
    AfterSigns(line, "-", text);
  }

  lemma NewSideLine(unquote: Unquoter, st: State, line: string, text: string, p: string)
    requires st.cur.Some? && line == "+++ " + text && p == Trim(" " + text)
    ensures Step(unquote, st, line) == st.(cur := Some(
      if p == "/dev/null" then st.cur.value.(status := Deleted)
      else st.cur.value.(newPath := NormalizePath(unquote, p))))
  {
    NotGitHeader(line);
    NotPrefix(line, "--- ");
    assert line[..4] == "+++ ";
    SignsApart(text);
    AfterSigns(line, "+", text);
  }

  lemma NoSuchFile()
    ensures Trim(" " + "/dev/null") == "/dev/null"
  {
    assert " " + "/dev/null" == " " + "/dev/null" + "";
    TrimIs(" " + "/dev/null", " ", "/dev/null", "");
  }

  /** The name on the line of one side, trimmed. */
  lemma SideTrims(unquote: Unquoter, path: string, token: string, p: string)
    requires path != "" && path[0] in {'a', 'b'} && Shown(unquote, path, token) && p == Trim(" " + SideToken(token))
    ensures p != "/dev/null" && NormalizePath(unquote, p) == LinePath(unquote, token)
  {
    TokenTrims(unquote, path, token, path[0]);
    var after := if ' ' in token then "\t" else "";
    TrimMore(token, " ", after);
    assert " " + SideToken(token) == " " + token + after;
    NormalizeTrimmed(unquote, token);
  }

  /** The line for the old side sets the old path, or the status of a new file. */
  lemma OldSideStep(unquote: Unquoter, quote: Quoter, st: State, path: Option<string>)
    requires st.cur.Some? && Quotes(unquote, quote) && (path.Some? ==> path.value != "")
    ensures Step(unquote, st, "--- " + if path.Some? then SideToken(quote("a/" + path.value)) else "/dev/null") ==
      st.(cur := Some(if path.Some? then st.cur.value.(oldPath := LinePath(unquote, quote("a/" + path.value)))
                      else st.cur.value.(status := Added)))
  {
    var text := if path.Some? then SideToken(quote("a/" + path.value)) else "/dev/null";
    if path.Some? {
      SideTrims(unquote, "a/" + path.value, quote("a/" + path.value), Trim(" " + text));
    } else {
      NoSuchFile();
    }
    OldSideLine(unquote, st, "--- " + text, text, Trim(" " + text));
  }

  /** The line for the new side sets the new path, or the status of a deleted file. */
  lemma NewSideStep(unquote: Unquoter, quote: Quoter, st: State, path: Option<string>)
    requires st.cur.Some? && Quotes(unquote, quote) && (path.Some? ==> path.value != "")
    ensures Step(unquote, st, "+++ " + if path.Some? then SideToken(quote("b/" + path.value)) else "/dev/null") ==
      st.(cur := Some(if path.Some? then st.cur.value.(newPath := LinePath(unquote, quote("b/" + path.value)))
                      else st.cur.value.(status := Deleted)))
  {
    var text := if path.Some? then SideToken(quote("b/" + path.value)) else "/dev/null";
    if path.Some? {
      SideTrims(unquote, "b/" + path.value, quote("b/" + path.value), Trim(" " + text));
    } else {
      NoSuchFile();
    }
    NewSideLine(unquote, st, "+++ " + text, text, Trim(" " + text));
  }

  lemma MoveSteps(unquote: Unquoter, st: State, from: string, to: string)
    requires st.cur.Some?
    ensures Step(unquote, st, "rename from " + from) ==
      st.(cur := Some(st.cur.value.(oldPath := NormalizePath(unquote, from))))
    ensures Step(unquote, st, "rename to " + to) ==
      st.(cur := Some(st.cur.value.(newPath := NormalizePath(unquote, to), status := Renamed)))
  {
    var a, b := "rename from " + from, "rename to " + to;
    assert a[..12] == "rename from " && a[12..] == from && b[..10] == "rename to " && b[10..] == to;
    assert a[0] == 'r' && b[0] == 'r';
    NotPrefix(a, "diff --git ");
    NotPrefix(b, "diff --git ");
    assert b[7] == 't' && "rename from "[7] == 'f';
    NotPrefixAt(b, "rename from ", 7);
  }

  lemma ModeSteps(unquote: Unquoter, st: State, mode: string)
    requires st.cur.Some?
    ensures Step(unquote, st, "new file mode " + mode) == st.(cur := Some(st.cur.value.(status := Added)))
    ensures Step(unquote, st, "deleted file mode " + mode) == st.(cur := Some(st.cur.value.(status := Deleted)))
  {
    var a, b := "new file mode " + mode, "deleted file mode " + mode;
    assert a[..13] == "new file mode" && b[..17] == "deleted file mode";
    assert a[0] == 'n' && b[0] == 'd' && b[1] == 'e';
    NotPrefix(a, "diff --git ");
    NotPrefix(a, "rename from ");
    NotPrefix(a, "rename to ");
    NotPrefixAt(b, "diff --git ", 1);
    NotPrefix(b, "rename from ");
    NotPrefix(b, "rename to ");
    NotPrefix(b, "new file mode");
  }

  // ---- putting it together ----

  /** Reading these lines in this state leaves files, hunk and counters alone and turns the open file into
      `to`. */
  ghost predicate Turns(unquote: Unquoter, st: State, lines: seq<string>, to: FileDiff) {
    st.cur.Some? && st.hunk.None? && Fold(unquote, st, lines) == st.(cur := Some(to))
  }

  lemma OneTurn(unquote: Unquoter, st: State, line: string, to: FileDiff)
    requires st.cur.Some? && st.hunk.None? && Step(unquote, st, line) == st.(cur := Some(to))
    ensures Turns(unquote, st, [line], to)
  {
    assert [line][1..] == [];
  }

  lemma TwoTurns(unquote: Unquoter, st: State, a: seq<string>, b: seq<string>, middle: FileDiff, to: FileDiff)
    requires Turns(unquote, st, a, middle) && Turns(unquote, st.(cur := Some(middle)), b, to)
    ensures Turns(unquote, st, a + b, to)
  {
    FoldAppend(unquote, st, a, b);
  }

  lemma SimilarityStep(unquote: Unquoter, st: State, similarity: string)
    requires st.cur.Some? && st.hunk.None?
    ensures Step(unquote, st, "similarity index " + similarity) == st
  {
    var line := "similarity index " + similarity;
    assert line[0] == 's';
    NotPrefix(line, "diff --git ");
    NotPrefix(line, "rename from ");
    NotPrefix(line, "rename to ");
    NotPrefix(line, "new file mode");
    NotPrefix(line, "deleted file mode");
    NotPrefix(line, "--- ");
    NotPrefix(line, "+++ ");
    NotPrefix(line, "@@");
  }

  /** The file after its first line, and after the lines on what kind of change it is. */
  ghost function AfterHeader(unquote: Unquoter, quote: Quoter, f: GitFile): FileDiff {
    var (a, b) := HeaderPaths(unquote, quote, f);
    FileDiff(a, b, Modified, [])
  }

  ghost function AfterExtended(unquote: Unquoter, quote: Quoter, f: GitFile): FileDiff {
    if f.change.Move? then FileDiff(LinePath(unquote, quote(f.old_)), LinePath(unquote, quote(f.new_)), Renamed, [])
    else AfterHeader(unquote, quote, f).(status := f.change.Status())
  }

  lemma ExtendedRead(unquote: Unquoter, quote: Quoter, st: State, f: GitFile)
    requires st.cur == Some(AfterHeader(unquote, quote, f)) && st.hunk.None?
    ensures Turns(unquote, st, Extended(f, quote), AfterExtended(unquote, quote, f))
  {
    match f.change {
      case Edit =>
      case Create(mode) =>
        ModeSteps(unquote, st, mode);
        OneTurn(unquote, st, "new file mode " + mode, AfterExtended(unquote, quote, f));
      case Remove(mode) =>
        ModeSteps(unquote, st, mode);
        OneTurn(unquote, st, "deleted file mode " + mode, AfterExtended(unquote, quote, f));
      case Move(similarity) =>
        MoveRead(unquote, st, similarity, quote(f.old_), quote(f.new_));
    }
  }

  lemma MoveRead(unquote: Unquoter, st: State, similarity: string, from: string, to: string)
    requires st.cur.Some? && st.hunk.None?
    ensures Turns(unquote, st, ["similarity index " + similarity, "rename from " + from, "rename to " + to],
                  st.cur.value.(oldPath := NormalizePath(unquote, from), newPath := NormalizePath(unquote, to),
                                status := Renamed))
  {
    var half := st.cur.value.(oldPath := NormalizePath(unquote, from));
    var whole := half.(newPath := NormalizePath(unquote, to), status := Renamed);
    var a, b, c := "similarity index " + similarity, "rename from " + from, "rename to " + to;
    SimilarityStep(unquote, st, similarity);
    OneTurn(unquote, st, a, st.cur.value);
    MoveSteps(unquote, st, from, to);
    OneTurn(unquote, st, b, half);
    TwoTurns(unquote, st, [a], [b], st.cur.value, half);
    MoveSteps(unquote, st.(cur := Some(half)), from, to);
    OneTurn(unquote, st.(cur := Some(half)), c, whole);
    TwoTurns(unquote, st, [a] + [b], [c], half, whole);
    assert [a] + [b] + [c] == [a, b, c];
  }

  lemma SidesRead(unquote: Unquoter, quote: Quoter, st: State, f: GitFile)
    requires st.cur == Some(AfterExtended(unquote, quote, f)) && st.hunk.None? && f.hunks != []
    requires Quotes(unquote, quote) && f.old_ != "" && f.new_ != ""
    ensures Turns(unquote, st, Sides(f, quote), Read(unquote, quote, f).(hunks := []))
  {
    var old_ := if f.change.Create? then None else Some(f.old_);
    var new_ := if f.change.Remove? then None else Some(f.new_);
    var a, b := Sides(f, quote)[0], Sides(f, quote)[1];
    var g := st.cur.value;
    var half := if old_.Some? then g.(oldPath := LinePath(unquote, quote("a/" + f.old_))) else g.(status := Added);
    var whole := if new_.Some? then half.(newPath := LinePath(unquote, quote("b/" + f.new_)))
                 else half.(status := Deleted);
    OldSideStep(unquote, quote, st, old_);
    OneTurn(unquote, st, a, half);
    NewSideStep(unquote, quote, st.(cur := Some(half)), new_);
    OneTurn(unquote, st.(cur := Some(half)), b, whole);
    TwoTurns(unquote, st, [a], [b], half, whole);
    assert [a] + [b] == Sides(f, quote);
    assert whole == Read(unquote, quote, f).(hunks := []);
  }

  lemma HeadRead(unquote: Unquoter, quote: Quoter, st: State, f: GitFile)
    requires (st.cur.None? ==> st.hunk.None?) && GitFileOk(f) && Quotes(unquote, quote)
    ensures Fold(unquote, st, Head(f, quote)) ==
      State(Flushed(st), Some(Read(unquote, quote, f).(hunks := [])), None, st.oldNo, st.newNo)
  {
    var header, after := AfterHeader(unquote, quote, f), AfterExtended(unquote, quote, f);
    var to := Read(unquote, quote, f).(hunks := []);
    var open := State(Flushed(st), Some(header), None, st.oldNo, st.newNo);
    HeadStep(unquote, quote, st, f);
    ExtendedRead(unquote, quote, open, f);
    var described := open.(cur := Some(after));
    NotesStep(unquote, described, f.notes);
    TwoTurns(unquote, open, Extended(f, quote), f.notes, after, after);
    if f.hunks != [] { SidesRead(unquote, quote, described, f); }
    TwoTurns(unquote, open, Extended(f, quote) + f.notes, Sides(f, quote), after, to);
    assert Head(f, quote)[1..] == Extended(f, quote) + f.notes + Sides(f, quote);
  }

  lemma GitHunkRead(unquote: Unquoter, st: State, h: GitHunk)
    requires st.cur.Some? && GitHunkOk(h)
    ensures var r := Fold(unquote, st, [AtLine(h)] + h.body);
      r.cur == Some(Pending(st)) && r.files == st.files && r.hunk == Some(Meaning(h))
  {
    AtLineReads(h);
    var empty := Hunk(h.old_.start, h.old_.Length(), h.new_.start, h.new_.Length(), []);
    AtLineStep(unquote, st, AtLine(h), empty);
    BodyReads(unquote, Opened(st, empty), h.body);
    assert ([AtLine(h)] + h.body)[1..] == h.body;
    assert [] + Meaning(h).lines == Meaning(h).lines;
  }

  lemma {:induction false} GitHunksRead(unquote: Unquoter, st: State, hs: seq<GitHunk>)
    requires st.cur.Some? && forall h <- hs :: GitHunkOk(h)
    ensures var r := Fold(unquote, st, GitHunkLines(hs));
      && r.cur.Some? && r.files == st.files
      && Pending(r) == Pending(st).(hunks := Pending(st).hunks + Meanings(hs))
    decreases |hs|
  {
    if hs == [] {
      assert Pending(st).hunks + Meanings(hs) == Pending(st).hunks;
    } else {
      assert hs[0] in hs;
      var next := Fold(unquote, st, [AtLine(hs[0])] + hs[0].body);
      GitHunkRead(unquote, st, hs[0]);
      FoldAppend(unquote, st, [AtLine(hs[0])] + hs[0].body, GitHunkLines(hs[1..]));
      GitHunksRead(unquote, next, hs[1..]);
      Regroup(Pending(st).hunks, Meaning(hs[0]), Meanings(hs[1..]));
    }
  }

  lemma GitFileRead(unquote: Unquoter, quote: Quoter, st: State, f: GitFile)
    requires (st.cur.None? ==> st.hunk.None?) && GitFileOk(f) && Quotes(unquote, quote)
    ensures var r := Fold(unquote, st, GitLines(f, quote));
      r.cur.Some? && Flushed(r) == Flushed(st) + [Read(unquote, quote, f)]
  {
    var next := Fold(unquote, st, Head(f, quote));
    HeadRead(unquote, quote, st, f);
    FoldAppend(unquote, st, Head(f, quote), GitHunkLines(f.hunks));
    GitHunksRead(unquote, next, f.hunks);
    assert [] + Meanings(f.hunks) == Meanings(f.hunks);
  }

  ghost function AllGitLines(fs: seq<GitFile>, quote: Quoter): seq<string> {
    if fs == [] then [] else GitLines(fs[0], quote) + AllGitLines(fs[1..], quote)
  }

  ghost function ReadAll(unquote: Unquoter, quote: Quoter, fs: seq<GitFile>): (r: DiffSet)
    ensures |r| == |fs| && forall k :: 0 <= k < |fs| ==> r[k] == Read(unquote, quote, fs[k])
  {
    if fs == [] then [] else [Read(unquote, quote, fs[0])] + ReadAll(unquote, quote, fs[1..])
  }

  lemma {:induction false} GitFilesRead(unquote: Unquoter, quote: Quoter, st: State, fs: seq<GitFile>)
    requires (st.cur.None? ==> st.hunk.None?) && (forall f <- fs :: GitFileOk(f)) && Quotes(unquote, quote)
    ensures Flushed(Fold(unquote, st, AllGitLines(fs, quote))) == Flushed(st) + ReadAll(unquote, quote, fs)
    decreases |fs|
  {
    if fs != [] {
      assert fs[0] in fs;
      var next := Fold(unquote, st, GitLines(fs[0], quote));
      GitFileRead(unquote, quote, st, fs[0]);
      FoldAppend(unquote, st, GitLines(fs[0], quote), AllGitLines(fs[1..], quote));
      GitFilesRead(unquote, quote, next, fs[1..]);
      Regroup(Flushed(st), Read(unquote, quote, fs[0]), ReadAll(unquote, quote, fs[1..]));
    }
  }

  /** What git prints for any files is parsed to a file for each: with its status, its ranges, the lines of
      its hunks by their first characters, and the paths that `PathsRead` speaks of. */
  lemma GitReads(unquote: Unquoter, quote: Quoter, fs: seq<GitFile>)
    requires Quotes(unquote, quote) && forall f <- fs :: GitFileOk(f)
    requires forall l <- AllGitLines(fs, quote) :: '\n' !in l && !EndsWith(l, "\r")
    ensures Parse(unquote, Joined(AllGitLines(fs, quote))) == ReadAll(unquote, quote, fs)
  {
    var lines := AllGitLines(fs, quote);
    assert forall k :: 0 <= k < |lines| ==> lines[k] in lines;
    LinesOfJoined(lines);
    assert DropCrs(lines) == lines;
    GitFilesRead(unquote, quote, START, fs);
  }

  // ---- when the paths are right ----

  /** Nothing comes off the ends. */
  lemma TrimmedExactly(s: string)
    ensures Trim(s) == s <==> Tight(s)
  {
    var a, b := TrimParts(s);
    if Tight(s) && s != "" {
      assert s == "" + s + "";
      TrimIs(s, "", s, "");
    }
  }

  ghost predicate SpaceAtEnd(path: string) {
    path != "" && path[|path| - 1] == ' '
  }

  ghost predicate SpaceAtStart(path: string) {
    path != "" && path[0] == ' '
  }

  /** A later line gives the path of a move unless the path is printed with a space at an end, or lies in a
      directory "a" or "b". */
  lemma MovePath(unquote: Unquoter, quote: Quoter, path: string)
    requires path != "" && Quotes(unquote, quote)
    ensures LinePath(unquote, quote(path)) == path <==>
      !InSide(path) && !(Bare(quote, path) && (SpaceAtStart(path) || SpaceAtEnd(path)))
  {
    Stripped(path);
    TrimmedExactly(quote(path));
    if Bare(quote, path) {
      BareLine(unquote, path);
      Shorter(path);
    } else {
      QuotedLine(unquote, path, quote(path));
    }
  }

  lemma Shorter(path: string)
    requires Plain(path)
    ensures StripAb(Trim(path)) == path <==> StripAb(path) == path && Trim(path) == path
  {
    var a, b := TrimParts(path);
    assert |StripAb(Trim(path))| <= |Trim(path)| <= |path|;
    if |a| + |b| > 0 { assert |Trim(path)| < |path|; }
    if |a| + |b| == 0 { assert Trim(path) == path; }
  }

  lemma BareLine(unquote: Unquoter, path: string)
    requires Plain(path)
    ensures LinePath(unquote, path) == StripAb(Trim(path))
  {
    var a, b := TrimParts(path);
    var t := Trim(path);
    StartsChar(t, "\"");
    assert t != "" ==> t[0] == path[|a|];
  }

  lemma QuotedLine(unquote: Unquoter, path: string, token: string)
    requires Quoted(token) && unquote(token) == Some(path)
    ensures LinePath(unquote, token) == StripAb(path)
  {
    TrimmedExactly(token);
    StartsChar(token, "\"");
  }

  /** The line for a side gives the path unless it is printed with a space at its end. */
  lemma SidePath(unquote: Unquoter, quote: Quoter, side: string, path: string)
    requires path != "" && Quotes(unquote, quote) && (side == "a/" || side == "b/")
    ensures LinePath(unquote, quote(side + path)) == path <==> !(Bare(quote, path) && SpaceAtEnd(path))
  {
    var full := side + path;
    StripSide(side, path);
    if Bare(quote, path) {
      BareLine(unquote, full);
      TrimmedExactly(full);
      SideShorter(side, path);
    } else {
      QuotedLine(unquote, full, quote(full));
    }
  }

  lemma SideShorter(side: string, path: string)
    requires side == "a/" || side == "b/"
    ensures StripAb(Trim(side + path)) == path <==> Trim(side + path) == side + path
  {
    var s, t := side + path, Trim(side + path);
    StripSide(side, path);
    SideTrimmed(side, s);
    assert t[..2] == s[..2] == side;
    if |t| < |s| { assert |t[2..]| < |path|; }
  }

  /** A name with its prefix is trimmed at its end only, and keeps the prefix. */
  lemma SideTrimmed(side: string, s: string)
    requires (side == "a/" || side == "b/") && |s| >= 2 && s[..2] == side
    ensures Trim(s) <= s && |Trim(s)| >= 2
  {
    var a, b := TrimParts(s);
    assert s[0] == s[..2][0] && s[1] == s[..2][1];
    assert forall k :: 0 <= k < |a| ==> s[k] == a[k];
    assert forall k :: |a| + |Trim(s)| <= k < |s| ==> s[k] == b[k - |a| - |Trim(s)|];
  }

  /** The first line gives the path unless it is printed with a space in it. */
  lemma HeaderPath(unquote: Unquoter, quote: Quoter, f: GitFile)
    requires f.old_ == f.new_ != "" && Quotes(unquote, quote)
    ensures HeaderPaths(unquote, quote, f).0 == f.old_ <==> !(Bare(quote, f.old_) && ' ' in f.old_)
    ensures HeaderPaths(unquote, quote, f).1 == f.new_ <==> !(Bare(quote, f.new_) && ' ' in f.new_)
  {
    if Bare(quote, f.old_) && ' ' in f.old_ {
      HeaderWords(unquote, quote, f);
    } else {
      HeaderTokens(unquote, quote, f);
    }
  }

  lemma HeaderTokens(unquote: Unquoter, quote: Quoter, f: GitFile)
    requires f.old_ == f.new_ != "" && Quotes(unquote, quote) && !(Bare(quote, f.old_) && ' ' in f.old_)
    ensures HeaderPaths(unquote, quote, f) == (f.old_, f.new_)
  {
    var a, b := quote("a/" + f.old_), quote("b/" + f.new_);
    PathTokenShown(unquote, a + (" " + b), "a/" + f.old_, a, " " + b);
    SpaceSkipped(unquote, b);
    assert b + "" == b;
    PathTokenShown(unquote, b, "b/" + f.new_, b, "");
    StripSide("a/", f.old_);
    StripSide("b/", f.new_);
  }

  /** Without quotes every token is a word. */
  lemma TokenIsWord(unquote: Unquoter, s: string)
    requires '"' !in s
    ensures ' ' !in PathToken(unquote, s).0 && '"' !in PathToken(unquote, s).1
  {
    var before := TrimStartSplits(s);
    var t := TrimStart(s);
    assert forall c <- t :: c in s;
    StartsChar(t, "\"");
    var i := FirstWhere(t, IsSpace);
    assert forall c <- t[i..] :: c in t;
  }

  lemma HeaderWords(unquote: Unquoter, quote: Quoter, f: GitFile)
    requires f.old_ == f.new_ != "" && Quotes(unquote, quote) && Bare(quote, f.old_) && ' ' in f.old_
    ensures HeaderPaths(unquote, quote, f).0 != f.old_ && HeaderPaths(unquote, quote, f).1 != f.new_
  {
    var s := quote("a/" + f.old_) + (" " + quote("b/" + f.new_));
    assert '"' !in s;
    TokenIsWord(unquote, s);
    TokenIsWord(unquote, PathToken(unquote, s).1);
    WordStripped(PathToken(unquote, s).0);
    WordStripped(PathToken(unquote, PathToken(unquote, s).1).0);
  }

  lemma WordStripped(word: string)
    requires ' ' !in word
    ensures ' ' !in StripAb(word)
  {
    assert forall c <- StripAb(word) :: c in word;
  }

  /** When the path of one side is right. The line for that side gives it unless it is printed as it is with
      a space at its end. Without that line a move's own lines give it unless it lies in a directory "a" or
      "b", or is printed with a space at an end; and otherwise the first line does unless it is printed with
      a space in it. */
  ghost predicate PathRight(quote: Quoter, path: string, hasLine: bool, move: bool) {
    if hasLine then !(Bare(quote, path) && SpaceAtEnd(path))
    else if move then !InSide(path) && !(Bare(quote, path) && (SpaceAtStart(path) || SpaceAtEnd(path)))
    else !(Bare(quote, path) && ' ' in path)
  }

  lemma PathsRead(unquote: Unquoter, quote: Quoter, f: GitFile)
    requires GitFileOk(f) && Quotes(unquote, quote)
    ensures Read(unquote, quote, f).oldPath == f.old_ <==>
      PathRight(quote, f.old_, f.hunks != [] && !f.change.Create?, f.change.Move?)
    ensures Read(unquote, quote, f).newPath == f.new_ <==>
      PathRight(quote, f.new_, f.hunks != [] && !f.change.Remove?, f.change.Move?)
  {
    SidePath(unquote, quote, "a/", f.old_);
    SidePath(unquote, quote, "b/", f.new_);
    MovePath(unquote, quote, f.old_);
    MovePath(unquote, quote, f.new_);
    if !f.change.Move? { HeaderPath(unquote, quote, f); }
  }

  ghost predicate InSide(path: string) {
    |path| >= 2 && path[0] in {'a', 'b'} && path[1] == '/'
  }

  lemma Stripped(path: string)
    ensures StripAb(path) == path <==> !InSide(path)
  {
    if |path| >= 2 { assert path[..2] == [path[0], path[1]]; }
  }

  // ---- a quoting that git could use ----

  ghost function Escape(path: string): string {
    if path == "" then ""
    else (if path[0] == '"' || path[0] == '\\' then ['\\', path[0]] else [path[0]]) + Escape(path[1..])
  }

  ghost function Unescape(inner: string): string
    decreases |inner|
  {
    if inner == "" then ""
    else if inner[0] == '\\' && |inner| >= 2 then [inner[1]] + Unescape(inner[2..])
    else [inner[0]] + Unescape(inner[1..])
  }

  /** Names that need it are put in quotes, with a backslash before every quote and backslash. */
  ghost function QuoteIfNeeded(path: string): string {
    if Plain(path) then path else "\"" + Escape(path) + "\""
  }

  ghost function UnquoteQuoted(s: string): Option<string> {
    if |s| >= 2 && s[0] == '"' && s[|s| - 1] == '"' then Some(Unescape(s[1..|s| - 1])) else None
  }

  lemma {:induction false} EscapeRoundTrip(path: string)
    ensures Unescape(Escape(path)) == path && Escaped(Escape(path)) && |Escape(path)| >= |path|
  {
    if path != "" {
      EscapeRoundTrip(path[1..]);
      var head := if path[0] == '"' || path[0] == '\\' then ['\\', path[0]] else [path[0]];
      assert Escape(path)[|head|..] == Escape(path[1..]);
      assert [path[0]] + path[1..] == path;
    }
  }

  lemma QuoteShown(path: string)
    ensures Shown(UnquoteQuoted, path, QuoteIfNeeded(path)) && (Bare(QuoteIfNeeded, path) <==> Plain(path))
  {
    if !Plain(path) {
      EscapeRoundTrip(path);
      var token := QuoteIfNeeded(path);
      assert token[1..|token| - 1] == Escape(path);
      assert |token| > |path|;
    }
  }

  /** So there is a way to print names that is as required. */
  lemma QuotesPossible()
    ensures Quotes(UnquoteQuoted, QuoteIfNeeded)
  {
    forall path | path != ""
      ensures Shown(UnquoteQuoted, path, QuoteIfNeeded(path))
      ensures Shown(UnquoteQuoted, "a/" + path, QuoteIfNeeded("a/" + path))
      ensures Shown(UnquoteQuoted, "b/" + path, QuoteIfNeeded("b/" + path))
      ensures Bare(QuoteIfNeeded, "a/" + path) <==> Bare(QuoteIfNeeded, path)
      ensures Bare(QuoteIfNeeded, "b/" + path) <==> Bare(QuoteIfNeeded, path)
    {
      QuoteShown(path);
      QuoteShown("a/" + path);
      QuoteShown("b/" + path);
      PlainSide("a/", path);
      PlainSide("b/", path);
    }
  }

  lemma PlainSide(side: string, path: string)
    requires side == "a/" || side == "b/"
    ensures Plain(side + path) <==> Plain(path)
  {
    assert forall k :: 0 <= k < |path| ==> path[k] == (side + path)[k + 2];
  }

  // ---- an example ----

  ghost const REPLACED_BODY := ["-old", "\\ No newline at end of file", "+new"]

  ghost const REPLACED := GitFile(Edit, "f", "f", [], [GitHunk(Range(1, None), Range(1, None), "", REPLACED_BODY)])

  lemma ReplacedReadings()
    ensures Readings(REPLACED_BODY) == [Reading(Del, "old"), Reading(Add, "new")]
  {
    var body := REPLACED_BODY;
    assert "-old"[1..] == "old" && "+new"[1..] == "new";
    assert body[1..] == [body[1], body[2]] && body[1..][1..] == [body[2]] && [body[2]][1..] == [];
    assert ReadingOf(body[0]) == Some(Reading(Del, "old"));
    assert ReadingOf(body[1]) == None;
    assert ReadingOf(body[2]) == Some(Reading(Add, "new"));
    assert Readings([body[2]]) == [Reading(Add, "new")];
    assert Readings([body[1], body[2]]) == [Reading(Add, "new")];
  }

  lemma ReplacedMeaning()
    ensures Meaning(REPLACED.hunks[0]) ==
      Hunk(1, 1, 1, 1, [Line(Del, Some(1), None, "old"), Line(Add, None, Some(1), "new")])
  {
    ReplacedReadings();
    var rs := [Reading(Del, "old"), Reading(Add, "new")];
    assert rs[1..] == [rs[1]] && [rs[1]][1..] == [];
    assert Lined([rs[1]], 2, 1) == [Line(Add, None, Some(1), "new")];
  }

  lemma NameF()
    ensures QuoteIfNeeded("a/f") == "a/f" && QuoteIfNeeded("b/f") == "b/f" && QuoteIfNeeded("f") == "f"
    ensures "a/" + "f" == "a/f" && "b/" + "f" == "b/f"
  {
  }

  lemma ReplacedAt()
    ensures AtLine(REPLACED.hunks[0]) == "@@ -1 +1 @@"
  {
    assert Print(1) == "1";
    assert Range(1, None).Text() == "1";
  }

  lemma ReplacedLines()
    ensures GitLines(REPLACED, QuoteIfNeeded) == ["diff --git a/f b/f", "--- a/f", "+++ b/f", "@@ -1 +1 @@"] + REPLACED_BODY
  {
    ReplacedSides();
    ReplacedHunk();
  }

  lemma ReplacedHunk()
    ensures GitHunkLines(REPLACED.hunks) == ["@@ -1 +1 @@"] + REPLACED_BODY
  {
    ReplacedAt();
    assert REPLACED.hunks[1..] == [];
  }

  lemma ReplacedSides()
    ensures Head(REPLACED, QuoteIfNeeded) == ["diff --git a/f b/f", "--- a/f", "+++ b/f"]
  {
    NameF();
    assert DiffLine(REPLACED, QuoteIfNeeded) == "diff --git a/f b/f";
    assert SideToken("a/f") == "a/f" && SideToken("b/f") == "b/f";
    assert "--- " + "a/f" == "--- a/f" && "+++ " + "b/f" == "+++ b/f";
    assert Sides(REPLACED, QuoteIfNeeded) == ["--- a/f", "+++ b/f"];
  }

  lemma ReplacedOk()
    ensures GitFileOk(REPLACED)
  {
    forall line | line in REPLACED_BODY ensures !IsHeader(line) {
      NotPrefix(line, "diff --git ");
      NotPrefix(line, "rename from ");
      NotPrefix(line, "rename to ");
      NotPrefix(line, "new file mode");
      NotPrefix(line, "deleted file mode");
      NotPrefix(line, "@@");
      NotSides(line);
    }
  }

  lemma NotSides(line: string)
    requires |line| >= 2 && line[1] != '-' && line[1] != '+'
    ensures !StartsWith(line, "--- ") && !StartsWith(line, "+++ ")
  {
    NotPrefixAt(line, "--- ", 1);
    NotPrefixAt(line, "+++ ", 1);
  }

  /** One line replaced in a file that had no line feed at its end: the new line is line 1. */
  lemma ReplacedLine()
    ensures Parse(UnquoteQuoted, Joined(GitLines(REPLACED, QuoteIfNeeded))) == [FileDiff("f", "f", Modified,
      [Hunk(1, 1, 1, 1, [Line(Del, Some(1), None, "old"), Line(Add, None, Some(1), "new")])])]
  {
    ReplacedOk();
    QuotesPossible();
    ReplacedOneLine();
    ReplacedRead();
    assert [REPLACED][0] == REPLACED && [REPLACED][1..] == [];
    assert AllGitLines([REPLACED], QuoteIfNeeded) == GitLines(REPLACED, QuoteIfNeeded);
    GitReads(UnquoteQuoted, QuoteIfNeeded, [REPLACED]);
  }

  lemma ReplacedOneLine()
    ensures forall l <- GitLines(REPLACED, QuoteIfNeeded) :: '\n' !in l && !EndsWith(l, "\r")
  {
    ReplacedLines();
    HeadOneLine();
    BodyOneLine();
  }

  lemma HeadOneLine()
    ensures forall l <- ["diff --git a/f b/f", "--- a/f", "+++ b/f", "@@ -1 +1 @@"] :: '\n' !in l && !EndsWith(l, "\r")
  {
    NoReturn("diff --git a/f b/f");
    NoReturn("--- a/f");
    NoReturn("+++ b/f");
    NoReturn("@@ -1 +1 @@");
  }

  lemma BodyOneLine()
    ensures forall l <- REPLACED_BODY :: '\n' !in l && !EndsWith(l, "\r")
  {
    NoReturn("-old");
    NoReturn("\\ No newline at end of file");
    NoReturn("+new");
  }

  lemma NoReturn(l: string)
    requires l != "" && l[|l| - 1] != '\r'
    ensures !EndsWith(l, "\r")
  {
    assert l[|l| - 1..] == [l[|l| - 1]];
  }

  lemma ReplacedRead()
    ensures Read(UnquoteQuoted, QuoteIfNeeded, REPLACED) == FileDiff("f", "f", Modified,
      [Hunk(1, 1, 1, 1, [Line(Del, Some(1), None, "old"), Line(Add, None, Some(1), "new")])])
  {
    ReplacedOk();
    ReplacedMeaning();
    QuotesPossible();
    PathsRead(UnquoteQuoted, QuoteIfNeeded, REPLACED);
    assert REPLACED.hunks[1..] == [];
    assert Meanings(REPLACED.hunks) == [Meaning(REPLACED.hunks[0])];
  }
}
