/** Unified diffs: rendering a diff set and parsing git's output (src/diff.rs). Undoing git's C-style
    path quoting is left uninterpreted (`unquote`). */
module UnifiedDiff {
  import opened Wrappers
  import opened TextOps
  import opened Decimal

  datatype Kind = Add | Del | Ctx

  datatype Line = Line(kind: Kind, oldNo: Option<nat>, newNo: Option<nat>, text: string)

  datatype Hunk = Hunk(oldStart: nat, oldLen: nat, newStart: nat, newLen: nat, lines: seq<Line>)

  datatype FileStatus = Added | Modified | Deleted | Renamed

  datatype FileDiff = FileDiff(oldPath: string, newPath: string, status: FileStatus, hunks: seq<Hunk>)

  type DiffSet = seq<FileDiff>

  // ---- rendering ----

  function Prefix(k: Kind): char {
    match k case Add => '+' case Del => '-' case Ctx => ' '
  }

  function FileHeader(f: FileDiff): string {
    "diff --git a/" + f.oldPath + " b/" + f.newPath
  }

  function HunkHeader(h: Hunk): string {
    "@@ -" + Print(h.oldStart) + "," + Print(h.oldLen) + " +" + Print(h.newStart) + "," + Print(h.newLen) + " @@"
  }

  function BodyLine(l: Line): string {
    [Prefix(l.kind)] + l.text
  }

  function BodyLines(ls: seq<Line>): (r: seq<string>)
    ensures |r| == |ls|
  {
    seq(|ls|, k requires 0 <= k < |ls| => BodyLine(ls[k]))
  }

  function OneHunk(h: Hunk): seq<string> {
    [HunkHeader(h)] + BodyLines(h.lines)
  }

  function HunkLines(hs: seq<Hunk>): seq<string> {
    if hs == [] then [] else OneHunk(hs[0]) + HunkLines(hs[1..])
  }

  function FileLines(f: FileDiff): seq<string> {
    [FileHeader(f)] + HunkLines(f.hunks)
  }

  function AllLines(d: DiffSet): seq<string> {
    if d == [] then [] else FileLines(d[0]) + AllLines(d[1..])
  }

  function Render(d: DiffSet): string {
    Joined(AllLines(d))
  }

  lemma HunksFrom(hs: seq<Hunk>, i: nat, done: seq<string>)
    requires i < |hs|
    ensures done + HunkLines(hs[i..]) == done + OneHunk(hs[i]) + HunkLines(hs[i + 1..])
  {
    assert hs[i..][1..] == hs[i + 1..];
    assert hs[i..][0] == hs[i];
  }

  method RenderFile(f: FileDiff) returns (part: string)
    ensures part == Joined(FileLines(f))
  {
    JoinedOne([], FileHeader(f));
    part := FileHeader(f) + "\n";
    ghost var done := [] + [FileHeader(f)];
    for i := 0 to |f.hunks|
      invariant part == Joined(done)
      invariant done + HunkLines(f.hunks[i..]) == FileLines(f)
    {
      var text := RenderHunk(f.hunks[i]);
      JoinedAppend(done, OneHunk(f.hunks[i]));
      part := part + text;
      HunksFrom(f.hunks, i, done);
      done := done + OneHunk(f.hunks[i]);
    }
    assert f.hunks[|f.hunks|..] == [];
    assert done == FileLines(f);
  }

  /** The part of `render_file` for one hunk. */
  method RenderHunk(h: Hunk) returns (part: string)
    ensures part == Joined(OneHunk(h))
  {
    JoinedOne([], HunkHeader(h));
    part := HunkHeader(h) + "\n";
    ghost var done := [] + [HunkHeader(h)];
    for j := 0 to |h.lines|
      invariant part == Joined(done)
      invariant done == [HunkHeader(h)] + BodyLines(h.lines[..j])
    {
      var l := h.lines[j];
      JoinedOne(done, BodyLine(l));
      assert BodyLines(h.lines[..j + 1]) == BodyLines(h.lines[..j]) + [BodyLine(l)];
      ghost var was := part;
      part := part + [Prefix(l.kind)];
      part := part + l.text;
      part := part + "\n";
      assert part == was + BodyLine(l) + "\n";
      done := done + [BodyLine(l)];
    }
    assert h.lines[..|h.lines|] == h.lines;
  }

  // ---- parsing ----

  function StripAb(path: string): string {
    if StartsWith(path, "a/") || StartsWith(path, "b/") then path[2..] else path
  }

  type Unquoter = string -> Option<string>

  function Unquoted(unquote: Unquoter, s: string): string {
    var u := unquote(s);
    if u.Some? then u.value else s
  }

  /** The position of the quote that closes a quoted token, looking from `i`. */
  function ClosingQuote(s: string, i: nat): (r: Option<nat>)
    ensures r.Some? ==> r.value < |s|
    decreases |s| - i
  {
    if i >= |s| then None
    else if s[i] == '\\' then ClosingQuote(s, i + 2)
    else if s[i] == '"' then Some(i)
    else ClosingQuote(s, i + 1)
  }

  /** The next path on a file header line, and what follows it. */
  function PathToken(unquote: Unquoter, line: string): (string, string) {
    var s := TrimStart(line);
    if StartsWith(s, "\"") then
      var q := ClosingQuote(s, 1);
      if q.Some? then (Unquoted(unquote, s[..q.value + 1]), s[q.value + 1..]) else (Unquoted(unquote, s), "")
    else
      var i := FirstWhere(s, IsSpace);
      (s[..i], s[i..])
  }

  function NormalizePath(unquote: Unquoter, path: string): string {
    var p := Trim(path);
    StripAb(if StartsWith(p, "\"") then Unquoted(unquote, p) else p)
  }

  function TrimRepeated(s: string, p: string): (r: string)
    requires p != ""
    ensures |r| <= |s|
  {
    if StartsWith(s, p) then TrimRepeated(s[|p|..], p) else s
  }

  function ParsedOrZero(s: string): nat {
    var n := ParseU32(s);
    if n.Some? then n.value else 0
  }

  function SplitRange(s: string): (nat, nat) {
    var i := FirstWhere(s, c => c == ',');
    if i < |s| then (ParsedOrZero(s[..i]), ParsedOrZero(s[i + 1..])) else (ParsedOrZero(s), 1)
  }

  /** The next whitespace-separated word, and what follows it. */
  function Word(line: string): Option<(string, string)> {
    var s := TrimStart(line);
    var i := FirstWhere(s, IsSpace);
    if s == "" then None else Some((s[..i], s[i..]))
  }

  function ParseHunkHeader(line: string): Option<Hunk> {
    var first := Word(TrimRepeated(line, "@@"));
    if first.None? || !StartsWith(first.value.0, "-") then None
    else
      var second := Word(first.value.1);
      if second.None? || !StartsWith(second.value.0, "+") then None
      else
        var (os, ol) := SplitRange(first.value.0[1..]);
        var (ns, nl) := SplitRange(second.value.0[1..]);
        Some(Hunk(os, ol, ns, nl, []))
  }

  datatype State = State(files: seq<FileDiff>, cur: Option<FileDiff>, hunk: Option<Hunk>, oldNo: nat, newNo: nat)

  const START := State([], None, None, 0, 0)

  function PushHunk(f: FileDiff, hunk: Option<Hunk>): FileDiff {
    if hunk.Some? then f.(hunks := f.hunks + [hunk.value]) else f
  }

  function Flushed(st: State): seq<FileDiff> {
    if st.cur.Some? then st.files + [PushHunk(st.cur.value, st.hunk)] else st.files
  }

  /** Line numbers are 32 bits wide. */
  function Next(n: nat): nat { (n + 1) % U32_END }

  function BodyStep(st: State, line: string): State
    requires st.hunk.Some?
  {
    var h := st.hunk.value;
    if StartsWith(line, "\\") then st
    else if StartsWith(line, "+") then
      st.(hunk := Some(h.(lines := h.lines + [Line(Add, None, Some(st.newNo), line[1..])])), newNo := Next(st.newNo))
    else if StartsWith(line, "-") then
      st.(hunk := Some(h.(lines := h.lines + [Line(Del, Some(st.oldNo), None, line[1..])])), oldNo := Next(st.oldNo))
    else
      var text := if StartsWith(line, " ") then line[1..] else line;
      st.(hunk := Some(h.(lines := h.lines + [Line(Ctx, Some(st.oldNo), Some(st.newNo), text)])),
          oldNo := Next(st.oldNo), newNo := Next(st.newNo))
  }

  /** Lines that describe the file itself. */
  predicate DescribesFile(line: string) {
    || StartsWith(line, "rename from ") || StartsWith(line, "rename to ") || StartsWith(line, "new file mode")
    || StartsWith(line, "deleted file mode") || StartsWith(line, "--- ") || StartsWith(line, "+++ ")
  }

  /** Lines that are never a line of a hunk. */
  predicate IsHeader(line: string) {
    StartsWith(line, "diff --git ") || DescribesFile(line) || StartsWith(line, "@@")
  }

  function Described(unquote: Unquoter, f: FileDiff, line: string): (r: FileDiff)
    requires DescribesFile(line)
    ensures r.hunks == f.hunks
  {
    if StartsWith(line, "rename from ") then f.(oldPath := NormalizePath(unquote, line[12..]))
    else if StartsWith(line, "rename to ") then f.(newPath := NormalizePath(unquote, line[10..]), status := Renamed)
    else if StartsWith(line, "new file mode") then f.(status := Added)
    else if StartsWith(line, "deleted file mode") then f.(status := Deleted)
    else if StartsWith(line, "--- ") then
      var p := Trim(TrimRepeated(line, "-"));
      if p != "/dev/null" then f.(oldPath := NormalizePath(unquote, p)) else f.(status := Added)
    else
      var p := Trim(TrimRepeated(line, "+"));
      if p != "/dev/null" then f.(newPath := NormalizePath(unquote, p)) else f.(status := Deleted)
  }

  /** Closes the open hunk and opens `h`. */
  function Opened(st: State, h: Hunk): State
    requires st.cur.Some?
  {
    st.(cur := Some(PushHunk(st.cur.value, st.hunk)), hunk := Some(h), oldNo := h.oldStart, newNo := h.newStart)
  }

  function Step(unquote: Unquoter, st: State, line: string): State {
    if StartsWith(line, "diff --git ") then
      var (a, rest) := PathToken(unquote, line[11..]);
      var (b, _) := PathToken(unquote, rest);
      State(Flushed(st), Some(FileDiff(StripAb(a), StripAb(b), Modified, [])),
            if st.cur.Some? then None else st.hunk, st.oldNo, st.newNo)
    else if st.cur.None? then st
    else if DescribesFile(line) then st.(cur := Some(Described(unquote, st.cur.value, line)))
    else if StartsWith(line, "@@") then
      var h := ParseHunkHeader(line);
      if h.Some? then Opened(st, h.value) else st
    else if st.hunk.Some? then BodyStep(st, line)
    else st
  }

  function Fold(unquote: Unquoter, st: State, lines: seq<string>): State
    decreases |lines|
  {
    if lines == [] then st else Fold(unquote, Step(unquote, st, lines[0]), lines[1..])
  }

  function Parse(unquote: Unquoter, text: string): DiffSet {
    Flushed(Fold(unquote, START, Lines(text)))
  }

  method ParseUnified(unquote: Unquoter, text: string) returns (d: DiffSet)
    ensures d == Parse(unquote, text)
  {
    var st := START;
    var lines := Lines(text);
    for k := 0 to |lines|
      invariant Fold(unquote, st, lines[k..]) == Fold(unquote, START, lines)
    {
      st := Step(unquote, st, lines[k]);
    }
    d := Flushed(st);
  }
}
