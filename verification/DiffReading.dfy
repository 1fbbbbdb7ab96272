/** Reading back the lines of a rendered diff set, one step of the parser at a time (src/diff.rs). */
module DiffReading {
  import opened Wrappers
  import opened TextOps
  import opened Decimal
  import opened UnifiedDiff

  /** A changed line that is printed like a file header: a deleted text that starts with "-- " or an
      added one that starts with "++ ". */
  ghost predicate HeaderLike(l: Line) {
    (l.kind == Del && StartsWith(l.text, "-- ")) || (l.kind == Add && StartsWith(l.text, "++ "))
  }

  /** The lines are numbered consecutively from `o` on the old side and `n` on the new side. */
  ghost predicate Numbered(ls: seq<Line>, o: nat, n: nat)
    decreases |ls|
  {
    ls == [] ||
    match ls[0].kind
    case Add => ls[0].oldNo == None && ls[0].newNo == Some(n) && Numbered(ls[1..], o, Next(n))
    case Del => ls[0].oldNo == Some(o) && ls[0].newNo == None && Numbered(ls[1..], Next(o), n)
    case Ctx => ls[0].oldNo == Some(o) && ls[0].newNo == Some(n) && Numbered(ls[1..], Next(o), Next(n))
  }

  /** The numbers the line after `ls` would get. */
  ghost function After(ls: seq<Line>, o: nat, n: nat): (nat, nat)
    decreases |ls|
  {
    if ls == [] then (o, n)
    else After(ls[1..], if ls[0].kind == Add then o else Next(o), if ls[0].kind == Del then n else Next(n))
  }

  ghost predicate WellNumbered(h: Hunk) {
    HeaderInRange(h) && Numbered(h.lines, h.oldStart, h.newStart)
  }

  ghost predicate Clean(ls: seq<Line>) {
    forall k :: 0 <= k < |ls| ==> !HeaderLike(ls[k])
  }

  ghost predicate HunkReadable(h: Hunk) {
    WellNumbered(h) && Clean(h.lines)
  }

  ghost predicate HunksReadable(hs: seq<Hunk>) {
    forall k :: 0 <= k < |hs| ==> HunkReadable(hs[k])
  }

  ghost predicate BodyReadable(d: DiffSet) {
    forall k :: 0 <= k < |d| ==> HunksReadable(d[k].hunks)
  }

  lemma NotPrefix(s: string, p: string)
    requires s != "" && p != "" && s[0] != p[0]
    ensures !StartsWith(s, p)
  {
    assert |p| <= |s| ==> s[..|p|][0] == s[0];
  }

  lemma PrefixAfter(c: char, s: string, p: string)
    ensures StartsWith([c] + s, [c] + p) <==> StartsWith(s, p)
  {
    var t := [c] + s;
    if StartsWith(s, p) { assert t[..|p| + 1] == [c] + s[..|p|]; }
    if StartsWith(t, [c] + p) { assert s[..|p|] == t[..|p| + 1][1..]; }
  }

  /** A line that starts with none of the letters of the git headers can only be one of three. */
  lemma NotGitHeader(line: string)
    requires line != "" && line[0] in {'+', '-', ' ', '@'}
    ensures !StartsWith(line, "diff --git ") && !StartsWith(line, "rename from ") && !StartsWith(line, "rename to ")
    ensures !StartsWith(line, "new file mode") && !StartsWith(line, "deleted file mode")
  {
    NotPrefix(line, "diff --git ");
    NotPrefix(line, "rename from ");
    NotPrefix(line, "rename to ");
    NotPrefix(line, "new file mode");
    NotPrefix(line, "deleted file mode");
  }

  lemma BodyIsHeader(l: Line)
    ensures IsHeader(BodyLine(l)) <==> HeaderLike(l)
    ensures !StartsWith(BodyLine(l), "diff --git ")
  {
    var line := BodyLine(l);
    NotGitHeader(line);
    NotPrefix(line, "@@");
    assert "--- " == ['-'] + "-- " && "+++ " == ['+'] + "++ ";
    PrefixAfter('-', l.text, "-- ");
    PrefixAfter('+', l.text, "++ ");
    if l.kind != Del { NotPrefix(line, "--- "); }
    if l.kind != Add { NotPrefix(line, "+++ "); }
  }

  /** The state after a body line. */
  ghost function Appended(st: State, ls: seq<Line>): State
    requires st.hunk.Some?
  {
    var h := st.hunk.value;
    var (o, n) := After(ls, st.oldNo, st.newNo);
    st.(hunk := Some(h.(lines := h.lines + ls)), oldNo := o, newNo := n)
  }

  lemma AfterOne(l: Line, o: nat, n: nat)
    ensures After([l], o, n) == (if l.kind == Add then o else Next(o), if l.kind == Del then n else Next(n))
  {
    assert [l][1..] == [];
  }

  lemma AfterMore(l: Line, ls: seq<Line>, o: nat, n: nat)
    ensures After([l] + ls, o, n) == After(ls, After([l], o, n).0, After([l], o, n).1)
  {
    AfterOne(l, o, n);
    assert ([l] + ls)[1..] == ls;
  }

  /** A rendered body line takes its place in the open hunk again. */
  lemma BodyLineStep(unquote: Unquoter, st: State, l: Line)
    requires st.cur.Some? && st.hunk.Some? && !HeaderLike(l) && Numbered([l], st.oldNo, st.newNo)
    ensures Step(unquote, st, BodyLine(l)) == Appended(st, [l])
  {
    BodyIsHeader(l);
    var line := BodyLine(l);
    assert line[0] == Prefix(l.kind) && line[1..] == l.text;
    NotPrefix(line, "\\");
    assert Step(unquote, st, line) == BodyStep(st, line);
    AfterOne(l, st.oldNo, st.newNo);
    if l.kind == Add { assert StartsWith(line, "+"); }
    if l.kind == Del { assert StartsWith(line, "-"); NotPrefix(line, "+"); }
    if l.kind == Ctx { assert StartsWith(line, " "); NotPrefix(line, "+"); NotPrefix(line, "-"); }
  }

  lemma AppendedMore(st: State, l: Line, ls: seq<Line>)
    requires st.hunk.Some?
    ensures Appended(Appended(st, [l]), ls) == Appended(st, [l] + ls)
  {
    AfterMore(l, ls, st.oldNo, st.newNo);
    assert st.hunk.value.lines + [l] + ls == st.hunk.value.lines + ([l] + ls);
  }

  lemma {:induction false} FoldBody(unquote: Unquoter, st: State, ls: seq<Line>)
    requires st.cur.Some? && st.hunk.Some?
    requires Numbered(ls, st.oldNo, st.newNo) && Clean(ls)
    ensures Fold(unquote, st, BodyLines(ls)) == Appended(st, ls)
    decreases |ls|
  {
    if ls == [] {
      assert st.hunk.value.lines + ls == st.hunk.value.lines;
    } else {
      BodyLineStep(unquote, st, ls[0]);
      AppendedMore(st, ls[0], ls[1..]);
      assert [ls[0]] + ls[1..] == ls;
      assert BodyLines(ls)[1..] == BodyLines(ls[1..]);
      FoldBody(unquote, Appended(st, [ls[0]]), ls[1..]);
    }
  }

  lemma {:induction false} FoldAppend(unquote: Unquoter, st: State, a: seq<string>, b: seq<string>)
    ensures Fold(unquote, st, a + b) == Fold(unquote, Fold(unquote, st, a), b)
    decreases |a|
  {
    if a == [] {
      assert a + b == b;
    } else {
      assert (a + b)[1..] == a[1..] + b;
      FoldAppend(unquote, Step(unquote, st, a[0]), a[1..], b);
    }
  }

  lemma DigitsAreNoSpace(n: nat)
    ensures forall i :: 0 <= i < |Print(n)| ==> !IsSpace(Print(n)[i]) && Print(n)[i] != ','
  {
    assert forall i :: 0 <= i < |Print(n)| ==> IsDigit(Print(n)[i]);
  }

  lemma SplitRangeOfPrint(a: nat, b: nat)
    requires a < U32_END && b < U32_END
    ensures SplitRange(Print(a) + "," + Print(b)) == (a, b)
  {
    var s := Print(a) + "," + Print(b);
    DigitsAreNoSpace(a);
    FirstWhereIs(s, c => c == ',', |Print(a)|);
    assert s[..|Print(a)|] == Print(a) && s[|Print(a)| + 1..] == Print(b);
    ParseOfPrint(a);
    ParseOfPrint(b);
  }

  /** A word without spaces is taken off the front, up to the space after it. */
  lemma WordOf(w: string, rest: string)
    requires w != "" && NoSpace(w) && rest != "" && IsSpace(rest[0])
    ensures Word(" " + w + rest) == Some((w, rest))
  {
    var line := " " + w + rest;
    var s := w + rest;
    assert line[1..] == s && s[0] == w[0];
    assert TrimStart(line) == TrimStart(s) == s;
    FirstWhereIs(s, IsSpace, |w|);
    assert s[..|w|] == w && s[|w|..] == rest;
  }

  ghost function RangeText(sign: char, a: nat, b: nat): string {
    [sign] + (Print(a) + "," + Print(b))
  }

  lemma RangeTextNoSpace(sign: char, a: nat, b: nat)
    requires !IsSpace(sign)
    ensures NoSpace(RangeText(sign, a, b)) && RangeText(sign, a, b)[1..] == Print(a) + "," + Print(b)
  {
    DigitsAreNoSpace(a);
    DigitsAreNoSpace(b);
  }

  ghost predicate HeaderInRange(h: Hunk) {
    h.oldStart < U32_END && h.oldLen < U32_END && h.newStart < U32_END && h.newLen < U32_END
  }

  lemma HunkHeaderWords(h: Hunk)
    requires HeaderInRange(h)
    ensures var old_, new_ := RangeText('-', h.oldStart, h.oldLen), RangeText('+', h.newStart, h.newLen);
      && TrimRepeated(HunkHeader(h), "@@") == " " + old_ + (" " + new_ + " @@")
      && Word(" " + old_ + (" " + new_ + " @@")) == Some((old_, " " + new_ + " @@"))
      && Word(" " + new_ + " @@") == Some((new_, " @@"))
  {
    var old_, new_ := RangeText('-', h.oldStart, h.oldLen), RangeText('+', h.newStart, h.newLen);
    var rest := " " + old_ + (" " + new_ + " @@");
    var line := HunkHeader(h);
    assert line == "@@" + rest;
    assert line[..2] == "@@" && line[2..] == rest;
    NotPrefix(rest, "@@");
    RangeTextNoSpace('-', h.oldStart, h.oldLen);
    RangeTextNoSpace('+', h.newStart, h.newLen);
    WordOf(old_, " " + new_ + " @@");
    WordOf(new_, " @@");
  }

  lemma HunkHeaderParses(h: Hunk)
    requires HeaderInRange(h)
    ensures ParseHunkHeader(HunkHeader(h)) == Some(h.(lines := []))
  {
    HunkHeaderWords(h);
    RangeTextNoSpace('-', h.oldStart, h.oldLen);
    RangeTextNoSpace('+', h.newStart, h.newLen);
    SplitRangeOfPrint(h.oldStart, h.oldLen);
    SplitRangeOfPrint(h.newStart, h.newLen);
  }

  /** A header line that reads as `h` closes the open hunk and opens `h`. */
  lemma AtLineStep(unquote: Unquoter, st: State, line: string, h: Hunk)
    requires st.cur.Some? && StartsWith(line, "@@") && ParseHunkHeader(line) == Some(h)
    ensures Step(unquote, st, line) == Opened(st, h)
  {
    assert line[0] == line[..2][0] == '@';
    NotGitHeader(line);
    NotPrefix(line, "--- ");
    NotPrefix(line, "+++ ");
  }

  lemma HunkHeaderStarts(h: Hunk)
    ensures StartsWith(HunkHeader(h), "@@")
  {
    assert HunkHeader(h)[..2] == "@@";
  }

  lemma HunkHeaderStep(unquote: Unquoter, st: State, h: Hunk)
    requires st.cur.Some? && HeaderInRange(h)
    ensures Step(unquote, st, HunkHeader(h)) == Opened(st, h.(lines := []))
  {
    HunkHeaderParses(h);
    HunkHeaderStarts(h);
    AtLineStep(unquote, st, HunkHeader(h), h.(lines := []));
  }

  // ---- whole hunks, files and sets ----

  /** The file being read, with its open hunk. */
  ghost function Pending(st: State): FileDiff
    requires st.cur.Some?
  {
    PushHunk(st.cur.value, st.hunk)
  }

  lemma FoldOneHunk(unquote: Unquoter, st: State, h: Hunk)
    requires st.cur.Some? && HunkReadable(h)
    ensures var r := Fold(unquote, st, OneHunk(h));
      r.cur == Some(Pending(st)) && r.files == st.files && r.hunk == Some(h)
  {
    var open := Opened(st, h.(lines := []));
    HunkHeaderStep(unquote, st, h);
    assert OneHunk(h)[1..] == BodyLines(h.lines);
    FoldBody(unquote, open, h.lines);
    assert [] + h.lines == h.lines;
  }

  lemma Regroup<T>(a: seq<T>, x: T, b: seq<T>)
    ensures a + [x] + b == a + ([x] + b)
  {
  }

  lemma HunkThen(unquote: Unquoter, st: State, h: Hunk, rest: seq<string>)
    requires st.cur.Some? && HunkReadable(h)
    ensures var next := State(st.files, Some(Pending(st)), Some(h), Fold(unquote, st, OneHunk(h)).oldNo,
                              Fold(unquote, st, OneHunk(h)).newNo);
      Fold(unquote, st, OneHunk(h) + rest) == Fold(unquote, next, rest)
  {
    FoldOneHunk(unquote, st, h);
    FoldAppend(unquote, st, OneHunk(h), rest);
  }

  lemma {:induction false} FoldHunks(unquote: Unquoter, st: State, hs: seq<Hunk>)
    requires st.cur.Some? && HunksReadable(hs)
    ensures var r := Fold(unquote, st, HunkLines(hs));
      && r.cur.Some? && r.files == st.files
      && Pending(r) == Pending(st).(hunks := Pending(st).hunks + hs)
    decreases |hs|
  {
    if hs == [] {
      assert Pending(st).hunks + hs == Pending(st).hunks;
    } else {
      var one := Fold(unquote, st, OneHunk(hs[0]));
      var next := State(st.files, Some(Pending(st)), Some(hs[0]), one.oldNo, one.newNo);
      HunkThen(unquote, st, hs[0], HunkLines(hs[1..]));
      FoldHunks(unquote, next, hs[1..]);
      Regroup(Pending(st).hunks, hs[0], hs[1..]);
      assert [hs[0]] + hs[1..] == hs;
    }
  }

  /** What a file is read back as when its hunks are readable. */
  ghost function Reread(unquote: Unquoter, f: FileDiff): FileDiff {
    var (a, rest) := PathToken(unquote, FileHeader(f)[11..]);
    var (b, _) := PathToken(unquote, rest);
    FileDiff(StripAb(a), StripAb(b), Modified, f.hunks)
  }

  ghost function RereadAll(unquote: Unquoter, d: DiffSet): (r: DiffSet)
    ensures |r| == |d| && forall k :: 0 <= k < |d| ==> r[k] == Reread(unquote, d[k])
  {
    if d == [] then [] else [Reread(unquote, d[0])] + RereadAll(unquote, d[1..])
  }

  lemma FileHeaderStep(unquote: Unquoter, st: State, f: FileDiff)
    requires st.cur.None? ==> st.hunk.None?
    ensures Step(unquote, st, FileHeader(f)) ==
      State(Flushed(st), Some(Reread(unquote, f).(hunks := [])), None, st.oldNo, st.newNo)
  {
    assert FileHeader(f)[..11] == "diff --git ";
  }

  lemma FoldFile(unquote: Unquoter, st: State, f: FileDiff)
    requires (st.cur.None? ==> st.hunk.None?) && HunksReadable(f.hunks)
    ensures var r := Fold(unquote, st, FileLines(f)); r.cur.Some? && Flushed(r) == Flushed(st) + [Reread(unquote, f)]
  {
    FileHeaderStep(unquote, st, f);
    var next := Step(unquote, st, FileHeader(f));
    FoldHunks(unquote, next, f.hunks);
    assert FileLines(f)[1..] == HunkLines(f.hunks);
    assert [] + f.hunks == f.hunks;
  }

  lemma FileThen(unquote: Unquoter, st: State, f: FileDiff, rest: seq<string>) returns (next: State)
    requires (st.cur.None? ==> st.hunk.None?) && HunksReadable(f.hunks)
    ensures next.cur.Some? && Flushed(next) == Flushed(st) + [Reread(unquote, f)]
    ensures Fold(unquote, st, FileLines(f) + rest) == Fold(unquote, next, rest)
  {
    next := Fold(unquote, st, FileLines(f));
    FoldFile(unquote, st, f);
    FoldAppend(unquote, st, FileLines(f), rest);
  }

  lemma {:induction false} FoldAll(unquote: Unquoter, st: State, d: DiffSet)
    requires (st.cur.None? ==> st.hunk.None?) && BodyReadable(d)
    ensures Flushed(Fold(unquote, st, AllLines(d))) == Flushed(st) + RereadAll(unquote, d)
    decreases |d|
  {
    if d != [] {
      var next := FileThen(unquote, st, d[0], AllLines(d[1..]));
      FoldAll(unquote, next, d[1..]);
      Regroup(Flushed(st), Reread(unquote, d[0]), RereadAll(unquote, d[1..]));
    }
  }

  /** A path without spaces is taken off the front, up to the space after it. */
  lemma PathTokenOf(unquote: Unquoter, s: string, token: string, rest: string)
    requires s == token + rest && token != "" && token[0] != '"'
    requires NoSpace(token) && (rest == "" || IsSpace(rest[0]))
    ensures PathToken(unquote, s) == (token, rest)
  {
    assert s[0] == token[0];
    NotPrefix(s, "\"");
    FirstWhereIs(s, IsSpace, |token|);
    assert s[..|token|] == token && s[|token|..] == rest;
  }

  /** An unquoted token holds no space. */
  lemma TokenNoSpace(unquote: Unquoter, s: string)
    requires s != "" && s[0] != '"' && !IsSpace(s[0])
    ensures NoSpace(PathToken(unquote, s).0)
  {
    NotPrefix(s, "\"");
  }

  lemma StripSide(side: string, path: string)
    requires side == "a/" || side == "b/"
    ensures StripAb(side + path) == path && NoSpace(side + path) == NoSpace(path)
  {
    assert (side + path)[..2] == side && (side + path)[2..] == path;
    assert forall i :: 0 <= i < |path| ==> (side + path)[i + 2] == path[i];
  }

  lemma SpaceSkipped(unquote: Unquoter, s: string)
    ensures PathToken(unquote, " " + s) == PathToken(unquote, s)
  {
    assert (" " + s)[1..] == s;
  }

  ghost function OldSide(f: FileDiff): string { "a/" + f.oldPath }
  ghost function NewSide(f: FileDiff): string { "b/" + f.newPath }

  lemma HeaderRest(f: FileDiff)
    ensures FileHeader(f)[11..] == OldSide(f) + (" " + NewSide(f))
  {
    assert FileHeader(f) == "diff --git " + (OldSide(f) + (" " + NewSide(f)));
  }

  lemma OldPathRead(unquote: Unquoter, f: FileDiff)
    ensures Reread(unquote, f).oldPath == f.oldPath <==> NoSpace(f.oldPath)
    ensures NoSpace(f.oldPath) ==> PathToken(unquote, FileHeader(f)[11..]).1 == " " + NewSide(f)
  {
    HeaderRest(f);
    StripSide("a/", f.oldPath);
    TokenNoSpace(unquote, FileHeader(f)[11..]);
    if NoSpace(f.oldPath) {
      PathTokenOf(unquote, FileHeader(f)[11..], OldSide(f), " " + NewSide(f));
    }
  }

  lemma NewPathRead(unquote: Unquoter, f: FileDiff)
    requires NoSpace(f.oldPath)
    ensures Reread(unquote, f).newPath == f.newPath <==> NoSpace(f.newPath)
  {
    OldPathRead(unquote, f);
    SpaceSkipped(unquote, NewSide(f));
    StripSide("b/", f.newPath);
    TokenNoSpace(unquote, NewSide(f));
    if NoSpace(f.newPath) {
      PathTokenOf(unquote, NewSide(f), NewSide(f), "");
    }
  }

  ghost predicate PathsReadable(f: FileDiff) {
    NoSpace(f.oldPath) && NoSpace(f.newPath) && f.status == Modified
  }

  lemma RereadIsSame(unquote: Unquoter, f: FileDiff)
    ensures Reread(unquote, f) == f <==> PathsReadable(f)
  {
    OldPathRead(unquote, f);
    if NoSpace(f.oldPath) { NewPathRead(unquote, f); }
  }
}
