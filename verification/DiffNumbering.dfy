/** What parsing any text whatever keeps: numbering and the number of body lines (src/diff.rs). */
module DiffNumbering {
  import opened Wrappers
  import opened TextOps
  import opened UnifiedDiff
  import opened DiffReading

  // ---- numbering ----

  ghost predicate HunksNumbered(hs: seq<Hunk>) {
    forall k :: 0 <= k < |hs| ==> WellNumbered(hs[k])
  }

  ghost predicate AllNumbered(d: DiffSet) {
    forall k :: 0 <= k < |d| ==> HunksNumbered(d[k].hunks)
  }

  /** The open hunk is numbered so far, and the counters hold the numbers its next line gets. */
  ghost predicate OpenNumbered(h: Hunk, oldNo: nat, newNo: nat) {
    WellNumbered(h) && After(h.lines, h.oldStart, h.newStart) == (oldNo, newNo)
  }

  ghost predicate Sound(st: State) {
    && (st.cur.None? ==> st.hunk.None?)
    && AllNumbered(st.files)
    && (st.cur.Some? ==> HunksNumbered(st.cur.value.hunks))
    && (st.hunk.Some? ==> OpenNumbered(st.hunk.value, st.oldNo, st.newNo))
  }

  lemma {:induction false} NumberedMore(ls: seq<Line>, l: Line, o: nat, n: nat)
    requires Numbered(ls, o, n) && Numbered([l], After(ls, o, n).0, After(ls, o, n).1)
    ensures Numbered(ls + [l], o, n)
    ensures After(ls + [l], o, n) == After([l], After(ls, o, n).0, After(ls, o, n).1)
    decreases |ls|
  {
    if ls == [] {
      assert ls + [l] == [l];
    } else {
      assert (ls + [l])[1..] == ls[1..] + [l];
      NumberedMore(ls[1..], l, if ls[0].kind == Add then o else Next(o), if ls[0].kind == Del then n else Next(n));
    }
  }

  lemma BodyStepSound(st: State, line: string)
    requires Sound(st) && st.hunk.Some?
    ensures Sound(BodyStep(st, line))
  {
    var next := BodyStep(st, line);
    if next != st {
      var h, l := st.hunk.value, next.hunk.value.lines[|st.hunk.value.lines|];
      assert next.hunk.value.lines == h.lines + [l];
      assert [l][1..] == [];
      AfterOne(l, st.oldNo, st.newNo);
      NumberedMore(h.lines, l, h.oldStart, h.newStart);
    }
  }

  lemma HunkHeaderInRange(line: string)
    ensures var h := ParseHunkHeader(line); h.Some? ==> HeaderInRange(h.value) && h.value.lines == []
  {
  }

  lemma OpenedSound(st: State, h: Hunk)
    requires Sound(st) && st.cur.Some? && HeaderInRange(h) && h.lines == []
    ensures Sound(Opened(st, h))
  {
  }

  lemma FlushedSound(st: State)
    requires Sound(st)
    ensures AllNumbered(Flushed(st))
  {
  }

  lemma StepSound(unquote: Unquoter, st: State, line: string)
    requires Sound(st)
    ensures Sound(Step(unquote, st, line))
  {
    FlushedSound(st);
    if st.hunk.Some? { BodyStepSound(st, line); }
    if st.cur.Some? && StartsWith(line, "@@") {
      var h := ParseHunkHeader(line);
      HunkHeaderInRange(line);
      if h.Some? { OpenedSound(st, h.value); }
    }
  }

  lemma {:induction false} FoldSound(unquote: Unquoter, st: State, lines: seq<string>)
    requires Sound(st)
    ensures Sound(Fold(unquote, st, lines))
    decreases |lines|
  {
    if lines != [] {
      StepSound(unquote, st, lines[0]);
      FoldSound(unquote, Step(unquote, st, lines[0]), lines[1..]);
    }
  }

  /** Whatever the text, the lines of every parsed hunk are numbered consecutively on both sides from
      the starts its header gives. */
  lemma ParsedIsNumbered(unquote: Unquoter, text: string)
    ensures AllNumbered(Parse(unquote, text))
  {
    FoldSound(unquote, START, Lines(text));
  }

  /** How many of these lines are on the old side, and how many on the new one. */
  ghost function Olds(ls: seq<Line>): nat {
    if ls == [] then 0 else (if ls[0].kind != Add then 1 else 0) + Olds(ls[1..])
  }

  ghost function News(ls: seq<Line>): nat {
    if ls == [] then 0 else (if ls[0].kind != Del then 1 else 0) + News(ls[1..])
  }

  /** The `k`-th line has, on each side it is on, the start of that side plus the lines on it before. */
  ghost predicate CountsFrom(ls: seq<Line>, o: nat, n: nat, k: nat) {
    k < |ls| ==>
      && ls[k].oldNo == (if ls[k].kind == Add then None else Some((o + Olds(ls[..k])) % 0x1_0000_0000))
      && ls[k].newNo == (if ls[k].kind == Del then None else Some((n + News(ls[..k])) % 0x1_0000_0000))
  }

  lemma WrapsOnce(o: nat, c: nat)
    requires o < 0x1_0000_0000
    ensures Next(o) < 0x1_0000_0000 && (Next(o) + c) % 0x1_0000_0000 == (o + (1 + c)) % 0x1_0000_0000
  {
  }

  lemma CountsTail(ls: seq<Line>, o: nat, n: nat, k: nat)
    requires o < 0x1_0000_0000 && n < 0x1_0000_0000 && ls != [] && k > 0
    ensures CountsFrom(ls, o, n, k) <==>
      CountsFrom(ls[1..], if ls[0].kind == Add then o else Next(o), if ls[0].kind == Del then n else Next(n), k - 1)
  {
    if k < |ls| {
      assert ls[..k][1..] == ls[1..][..k - 1];
      WrapsOnce(o, Olds(ls[1..][..k - 1]));
      WrapsOnce(n, News(ls[1..][..k - 1]));
    }
  }

  /** Numbered consecutively means just that. */
  lemma {:induction false} NumberedExactly(ls: seq<Line>, o: nat, n: nat)
    requires o < 0x1_0000_0000 && n < 0x1_0000_0000
    ensures Numbered(ls, o, n) <==> forall k: nat :: CountsFrom(ls, o, n, k)
  {
    if ls != [] {
      var o', n' := if ls[0].kind == Add then o else Next(o), if ls[0].kind == Del then n else Next(n);
      WrapsOnce(o, 0);
      WrapsOnce(n, 0);
      NumberedExactly(ls[1..], o', n');
      NumberedHead(ls, o, n);
      TailsCount(ls, o, n, o', n');
    }
  }

  lemma NumberedHead(ls: seq<Line>, o: nat, n: nat)
    requires o < 0x1_0000_0000 && n < 0x1_0000_0000 && ls != []
    ensures Numbered(ls, o, n) == (CountsFrom(ls, o, n, 0)
      && Numbered(ls[1..], if ls[0].kind == Add then o else Next(o), if ls[0].kind == Del then n else Next(n)))
  {
    assert Olds(ls[..0]) == News(ls[..0]) == 0;
  }

  lemma TailsCount(ls: seq<Line>, o: nat, n: nat, o': nat, n': nat)
    requires o < 0x1_0000_0000 && n < 0x1_0000_0000 && ls != []
    requires o' == (if ls[0].kind == Add then o else Next(o)) && n' == if ls[0].kind == Del then n else Next(n)
    ensures (forall k: nat :: CountsFrom(ls, o, n, k)) <==>
      CountsFrom(ls, o, n, 0) && forall k: nat :: CountsFrom(ls[1..], o', n', k)
  {
    forall k: nat ensures CountsFrom(ls, o, n, k + 1) <==> CountsFrom(ls[1..], o', n', k) { CountsTail(ls, o, n, k + 1); }
    if CountsFrom(ls, o, n, 0) && forall k: nat :: CountsFrom(ls[1..], o', n', k) {
      forall k: nat ensures CountsFrom(ls, o, n, k) { if k > 0 { assert CountsFrom(ls[1..], o', n', k - 1); } }
    }
    if forall k: nat :: CountsFrom(ls, o, n, k) {
      forall k: nat ensures CountsFrom(ls[1..], o', n', k) { assert CountsFrom(ls, o, n, k + 1); }
    }
  }

  /** So every line of every parsed hunk has the number that its place gives it. */
  lemma ParsedCounts(unquote: Unquoter, text: string, i: nat, j: nat, k: nat)
    requires i < |Parse(unquote, text)| && j < |Parse(unquote, text)[i].hunks|
    ensures var h := Parse(unquote, text)[i].hunks[j]; CountsFrom(h.lines, h.oldStart, h.newStart, k)
  {
    var d := Parse(unquote, text);
    ParsedIsNumbered(unquote, text);
    assert HunksNumbered(d[i].hunks) && WellNumbered(d[i].hunks[j]);
    NumberedExactly(d[i].hunks[j].lines, d[i].hunks[j].oldStart, d[i].hunks[j].newStart);
  }

  // ---- the number of body lines ----

  ghost function HunksSize(hs: seq<Hunk>): nat {
    if hs == [] then 0 else |hs[0].lines| + HunksSize(hs[1..])
  }

  ghost function Size(d: DiffSet): nat {
    if d == [] then 0 else HunksSize(d[0].hunks) + Size(d[1..])
  }

  ghost function StateSize(st: State): nat {
    Size(st.files) +
    if st.cur.None? then 0
    else HunksSize(st.cur.value.hunks) + if st.hunk.Some? then |st.hunk.value.lines| else 0
  }

  /** How many lines are no header. */
  ghost function Plain(lines: seq<string>): nat {
    if lines == [] then 0 else (if IsHeader(lines[0]) then 0 else 1) + Plain(lines[1..])
  }

  lemma {:induction false} HunksSizeAppend(hs: seq<Hunk>, h: Hunk)
    ensures HunksSize(hs + [h]) == HunksSize(hs) + |h.lines|
  {
    if hs == [] {
      assert hs + [h] == [h];
    } else {
      assert (hs + [h])[1..] == hs[1..] + [h];
      HunksSizeAppend(hs[1..], h);
    }
  }

  lemma {:induction false} SizeAppend(d: DiffSet, f: FileDiff)
    ensures Size(d + [f]) == Size(d) + HunksSize(f.hunks)
  {
    if d == [] {
      assert d + [f] == [f];
    } else {
      assert (d + [f])[1..] == d[1..] + [f];
      SizeAppend(d[1..], f);
    }
  }

  lemma PendingSize(st: State)
    requires st.cur.Some?
    ensures StateSize(st) == Size(st.files) + HunksSize(Pending(st).hunks)
  {
    if st.hunk.Some? { HunksSizeAppend(st.cur.value.hunks, st.hunk.value); }
  }

  lemma FlushedSize(st: State)
    ensures Size(Flushed(st)) == StateSize(st)
  {
    if st.cur.Some? {
      PendingSize(st);
      SizeAppend(st.files, Pending(st));
    }
  }

  lemma BodyStepSize(st: State, line: string)
    requires st.cur.Some? && st.hunk.Some?
    ensures StateSize(BodyStep(st, line)) <= StateSize(st) + 1
  {
  }

  lemma OpenedSize(st: State, h: Hunk)
    requires st.cur.Some? && h.lines == []
    ensures StateSize(Opened(st, h)) == StateSize(st)
  {
    PendingSize(st);
  }

  lemma StepSize(unquote: Unquoter, st: State, line: string)
    requires st.cur.None? ==> st.hunk.None?
    ensures StateSize(Step(unquote, st, line)) <= StateSize(st) + if IsHeader(line) then 0 else 1
  {
    FlushedSize(st);
    if st.cur.Some? {
      var h := ParseHunkHeader(line);
      HunkHeaderInRange(line);
      if h.Some? { OpenedSize(st, h.value); }
      if st.hunk.Some? { BodyStepSize(st, line); }
    }
  }

  lemma {:induction false} FoldSize(unquote: Unquoter, st: State, lines: seq<string>)
    requires Sound(st)
    ensures StateSize(Fold(unquote, st, lines)) <= StateSize(st) + Plain(lines)
    decreases |lines|
  {
    if lines != [] {
      StepSound(unquote, st, lines[0]);
      StepSize(unquote, st, lines[0]);
      FoldSize(unquote, Step(unquote, st, lines[0]), lines[1..]);
    }
  }

  lemma {:induction false} PlainAppend(a: seq<string>, b: seq<string>)
    ensures Plain(a + b) == Plain(a) + Plain(b)
  {
    if a == [] {
      assert a + b == b;
    } else {
      assert (a + b)[1..] == a[1..] + b;
      PlainAppend(a[1..], b);
    }
  }

  lemma {:induction false} PlainBody(ls: seq<Line>)
    ensures Plain(BodyLines(ls)) <= |ls|
    ensures Plain(BodyLines(ls)) == |ls| ==> Clean(ls)
  {
    if ls != [] {
      BodyIsHeader(ls[0]);
      assert BodyLines(ls)[1..] == BodyLines(ls[1..]);
      PlainBody(ls[1..]);
    }
  }

  lemma PlainHunk(h: Hunk)
    ensures Plain(OneHunk(h)) == Plain(BodyLines(h.lines))
  {
    HunkHeaderStarts(h);
    assert OneHunk(h)[1..] == BodyLines(h.lines);
  }

  ghost predicate HunksClean(hs: seq<Hunk>) {
    forall k :: 0 <= k < |hs| ==> Clean(hs[k].lines)
  }

  lemma {:induction false} PlainHunks(hs: seq<Hunk>)
    ensures Plain(HunkLines(hs)) <= HunksSize(hs)
    ensures Plain(HunkLines(hs)) == HunksSize(hs) ==> HunksClean(hs)
  {
    if hs != [] {
      PlainHunk(hs[0]);
      PlainBody(hs[0].lines);
      PlainAppend(OneHunk(hs[0]), HunkLines(hs[1..]));
      PlainHunks(hs[1..]);
    }
  }

  lemma PlainFile(f: FileDiff)
    ensures Plain(FileLines(f)) == Plain(HunkLines(f.hunks))
  {
    assert FileHeader(f)[..11] == "diff --git ";
    assert FileLines(f)[1..] == HunkLines(f.hunks);
  }

  ghost predicate AllClean(d: DiffSet) {
    forall k :: 0 <= k < |d| ==> HunksClean(d[k].hunks)
  }

  /** A rendered set has at most as many lines that are no header as it has body lines; if it has as
      many, no body line reads like a header. */
  lemma {:induction false} PlainAll(d: DiffSet)
    ensures Plain(AllLines(d)) <= Size(d)
    ensures Plain(AllLines(d)) == Size(d) ==> AllClean(d)
  {
    if d != [] {
      PlainFile(d[0]);
      PlainHunks(d[0].hunks);
      PlainAppend(FileLines(d[0]), AllLines(d[1..]));
      PlainAll(d[1..]);
    }
  }
}
