/** Exactly when parsing a rendered diff set gives the set back (src/diff.rs). */
module DiffRoundTrip {
  import opened TextOps
  import opened UnifiedDiff
  import opened DiffReading
  import opened DiffNumbering

  // ---- what splitting into lines does to carriage returns ----

  ghost function NoCrLines(ls: seq<Line>): (r: seq<Line>)
    ensures |r| == |ls|
  {
    seq(|ls|, k requires 0 <= k < |ls| => ls[k].(text := DropCr(ls[k].text)))
  }

  ghost function NoCrHunk(h: Hunk): Hunk {
    h.(lines := NoCrLines(h.lines))
  }

  ghost function NoCrHunks(hs: seq<Hunk>): (r: seq<Hunk>)
    ensures |r| == |hs| && forall k :: 0 <= k < |hs| ==> r[k] == NoCrHunk(hs[k])
  {
    if hs == [] then [] else [NoCrHunk(hs[0])] + NoCrHunks(hs[1..])
  }

  ghost function NoCrFile(f: FileDiff): FileDiff {
    f.(newPath := DropCr(f.newPath), hunks := NoCrHunks(f.hunks))
  }

  ghost function NoCr(d: DiffSet): (r: DiffSet)
    ensures |r| == |d| && forall k :: 0 <= k < |d| ==> r[k] == NoCrFile(d[k])
  {
    if d == [] then [] else [NoCrFile(d[0])] + NoCr(d[1..])
  }

  lemma DropCrAfter(head: string, tail: string)
    requires head != "" && head[|head| - 1] != '\r'
    ensures DropCr(head + tail) == head + DropCr(tail)
  {
    var s := head + tail;
    if tail == "" {
      assert s == head;
    } else {
      assert s[|s| - 1] == tail[|tail| - 1];
    }
    assert EndsWith(s, "\r") ==> s[|s| - 1] == '\r';
    assert EndsWith(tail, "\r") ==> tail[|tail| - 1] == '\r';
    if s[|s| - 1] == '\r' {
      assert s[|s| - 1..] == "\r" && tail[|tail| - 1..] == "\r";
      assert s[..|s| - 1] == head + tail[..|tail| - 1];
    }
  }

  lemma DropCrsBody(ls: seq<Line>)
    ensures DropCrs(BodyLines(ls)) == BodyLines(NoCrLines(ls))
  {
    forall k | 0 <= k < |ls| ensures DropCr(BodyLine(ls[k])) == BodyLine(NoCrLines(ls)[k]) {
      DropCrAfter([Prefix(ls[k].kind)], ls[k].text);
    }
  }

  lemma DropCrsAppend(a: seq<string>, b: seq<string>)
    ensures DropCrs(a + b) == DropCrs(a) + DropCrs(b)
  {
  }

  lemma DropCrsHunk(h: Hunk)
    ensures DropCrs(OneHunk(h)) == OneHunk(NoCrHunk(h))
  {
    DropCrAfter(HunkHeader(h), "");
    assert HunkHeader(h) + "" == HunkHeader(h);
    DropCrsBody(h.lines);
    DropCrsAppend([HunkHeader(h)], BodyLines(h.lines));
    assert DropCrs([HunkHeader(h)]) == [HunkHeader(h)];
  }

  lemma {:induction false} DropCrsHunks(hs: seq<Hunk>)
    ensures DropCrs(HunkLines(hs)) == HunkLines(NoCrHunks(hs))
  {
    if hs != [] {
      DropCrsHunk(hs[0]);
      DropCrsHunks(hs[1..]);
      DropCrsAppend(OneHunk(hs[0]), HunkLines(hs[1..]));
      assert NoCrHunks(hs)[1..] == NoCrHunks(hs[1..]);
    }
  }

  lemma DropCrsFile(f: FileDiff)
    ensures DropCrs(FileLines(f)) == FileLines(NoCrFile(f))
  {
    var head := "diff --git a/" + f.oldPath + " b/";
    DropCrAfter(head, f.newPath);
    DropCrsHunks(f.hunks);
    DropCrsAppend([FileHeader(f)], HunkLines(f.hunks));
    assert DropCrs([FileHeader(f)]) == [FileHeader(NoCrFile(f))];
  }

  lemma {:induction false} DropCrsAll(d: DiffSet)
    ensures DropCrs(AllLines(d)) == AllLines(NoCr(d))
  {
    if d != [] {
      DropCrsFile(d[0]);
      DropCrsAll(d[1..]);
      DropCrsAppend(FileLines(d[0]), AllLines(d[1..]));
      assert NoCr(d)[1..] == NoCr(d[1..]);
    }
  }

  // ---- lines stay lines ----

  ghost predicate HunksOneLine(hs: seq<Hunk>) {
    forall k, j :: 0 <= k < |hs| && 0 <= j < |hs[k].lines| ==> '\n' !in hs[k].lines[j].text
  }

  /** No path and no line text contains a line feed. */
  ghost predicate OneLine(d: DiffSet) {
    forall k :: 0 <= k < |d| ==> '\n' !in d[k].oldPath && '\n' !in d[k].newPath && HunksOneLine(d[k].hunks)
  }

  ghost predicate NoFeeds(lines: seq<string>) {
    forall k :: 0 <= k < |lines| ==> '\n' !in lines[k]
  }

  lemma HunkNoFeeds(h: Hunk)
    requires forall j :: 0 <= j < |h.lines| ==> '\n' !in h.lines[j].text
    ensures NoFeeds(OneHunk(h))
  {
    DigitsAreNoSpace(h.oldStart);
    DigitsAreNoSpace(h.oldLen);
    DigitsAreNoSpace(h.newStart);
    DigitsAreNoSpace(h.newLen);
    assert '\n' !in HunkHeader(h);
    assert forall j :: 0 <= j < |h.lines| ==> BodyLines(h.lines)[j] == BodyLine(h.lines[j]);
  }

  lemma {:induction false} HunksNoFeeds(hs: seq<Hunk>)
    requires HunksOneLine(hs)
    ensures NoFeeds(HunkLines(hs))
  {
    if hs != [] {
      HunkNoFeeds(hs[0]);
      HunksNoFeeds(hs[1..]);
    }
  }

  lemma {:induction false} AllNoFeeds(d: DiffSet)
    requires OneLine(d)
    ensures NoFeeds(AllLines(d))
  {
    if d != [] {
      HunksNoFeeds(d[0].hunks);
      AllNoFeeds(d[1..]);
    }
  }

  /** Parsing a rendered set reads its lines, less their carriage returns. */
  lemma ParseRendered(unquote: Unquoter, d: DiffSet)
    requires OneLine(d)
    ensures Parse(unquote, Render(d)) == Flushed(Fold(unquote, START, AllLines(NoCr(d))))
  {
    AllNoFeeds(d);
    LinesOfJoined(AllLines(d));
    DropCrsAll(d);
  }

  // ---- the round trip ----

  ghost predicate TextsReadable(hs: seq<Hunk>) {
    forall k, j :: 0 <= k < |hs| && 0 <= j < |hs[k].lines| ==> !EndsWith(hs[k].lines[j].text, "\r")
  }

  /** What a diff set must be like to survive: whitespace-free paths, the plain status, headers in
      32 bits, consecutive numbering, no text that ends in a carriage return or reads like a header. */
  ghost predicate Readable(d: DiffSet) {
    forall k :: 0 <= k < |d| ==> PathsReadable(d[k]) && HunksReadable(d[k].hunks) && TextsReadable(d[k].hunks)
  }

  lemma NoCrSame(hs: seq<Hunk>)
    ensures NoCrHunks(hs) == hs <==> TextsReadable(hs)
  {
    if TextsReadable(hs) {
      forall k | 0 <= k < |hs| ensures NoCrHunk(hs[k]) == hs[k] {
        assert NoCrLines(hs[k].lines) == hs[k].lines;
      }
    } else {
      var k, j :| 0 <= k < |hs| && 0 <= j < |hs[k].lines| && EndsWith(hs[k].lines[j].text, "\r");
      assert NoCrHunks(hs)[k].lines[j] != hs[k].lines[j];
    }
  }

  lemma NoSpaceNoCr(path: string)
    requires NoSpace(path)
    ensures DropCr(path) == path
  {
    if path != "" {
      assert path[|path| - 1] == path[|path| - 1..][0] != '\r';
    }
  }

  lemma FileSurvives(unquote: Unquoter, f: FileDiff)
    ensures Reread(unquote, NoCrFile(f)) == f <==> PathsReadable(f) && TextsReadable(f.hunks)
  {
    NoCrSame(f.hunks);
    if PathsReadable(f) && TextsReadable(f.hunks) {
      NoSpaceNoCr(f.newPath);
      RereadIsSame(unquote, f);
    }
    if Reread(unquote, NoCrFile(f)) == f {
      OldPathRead(unquote, NoCrFile(f));
      NewPathIsToken(unquote, NoCrFile(f));
      NoSpaceNoCr(f.newPath);
      RereadIsSame(unquote, f);
    }
  }

  lemma NewPathIsToken(unquote: Unquoter, f: FileDiff)
    requires NoSpace(f.oldPath)
    ensures NoSpace(Reread(unquote, f).newPath)
  {
    OldPathRead(unquote, f);
    SpaceSkipped(unquote, NewSide(f));
    TokenNoSpace(unquote, NewSide(f));
  }

  lemma {:induction false} NumberedNoCr(ls: seq<Line>, o: nat, n: nat)
    ensures Numbered(NoCrLines(ls), o, n) == Numbered(ls, o, n)
    decreases |ls|
  {
    if ls != [] {
      assert NoCrLines(ls)[1..] == NoCrLines(ls[1..]);
      NumberedNoCr(ls[1..], if ls[0].kind == Add then o else Next(o), if ls[0].kind == Del then n else Next(n));
    }
  }

  lemma HunksNumberedNoCr(hs: seq<Hunk>)
    requires HunksNumbered(hs)
    ensures HunksNumbered(NoCrHunks(hs))
  {
    forall k | 0 <= k < |hs| ensures WellNumbered(NoCrHunks(hs)[k]) {
      NumberedNoCr(hs[k].lines, hs[k].oldStart, hs[k].newStart);
    }
  }

  lemma {:induction false} HunksSizeNoCr(hs: seq<Hunk>)
    ensures HunksSize(NoCrHunks(hs)) == HunksSize(hs)
  {
    if hs != [] {
      assert NoCrHunks(hs)[1..] == NoCrHunks(hs[1..]);
      HunksSizeNoCr(hs[1..]);
    }
  }

  lemma {:induction false} SizeNoCr(d: DiffSet)
    ensures Size(NoCr(d)) == Size(d)
  {
    if d != [] {
      assert NoCr(d)[1..] == NoCr(d[1..]);
      HunksSizeNoCr(d[0].hunks);
      SizeNoCr(d[1..]);
    }
  }

  /** A set that survives has no header-like line: such a line would be lost. */
  lemma SurvivorIsClean(unquote: Unquoter, d: DiffSet)
    requires OneLine(d) && Parse(unquote, Render(d)) == d
    ensures AllNumbered(d) && AllClean(NoCr(d))
  {
    var lines := AllLines(NoCr(d));
    ParsedIsNumbered(unquote, Render(d));
    ParseRendered(unquote, d);
    FoldSize(unquote, START, lines);
    FlushedSize(Fold(unquote, START, lines));
    SizeNoCr(d);
    PlainAll(NoCr(d));
  }

  lemma SurvivorBody(d: DiffSet)
    requires AllNumbered(d) && AllClean(NoCr(d))
    ensures BodyReadable(NoCr(d))
  {
    forall k | 0 <= k < |d| ensures HunksReadable(NoCr(d)[k].hunks) {
      HunksNumberedNoCr(d[k].hunks);
      assert HunksClean(NoCr(d)[k].hunks);
    }
  }

  lemma BodyRead(unquote: Unquoter, d: DiffSet)
    requires OneLine(d) && BodyReadable(NoCr(d))
    ensures Parse(unquote, Render(d)) == RereadAll(unquote, NoCr(d))
  {
    ParseRendered(unquote, d);
    FoldAll(unquote, START, NoCr(d));
    assert [] + RereadAll(unquote, NoCr(d)) == RereadAll(unquote, NoCr(d));
  }

  lemma ReadableSurvives(unquote: Unquoter, d: DiffSet)
    requires OneLine(d) && Readable(d)
    ensures Parse(unquote, Render(d)) == d
  {
    forall k | 0 <= k < |d| ensures HunksReadable(NoCr(d)[k].hunks) && Reread(unquote, NoCr(d)[k]) == d[k] {
      NoCrSame(d[k].hunks);
      FileSurvives(unquote, d[k]);
    }
    BodyRead(unquote, d);
  }

  lemma SurvivorIsReadable(unquote: Unquoter, d: DiffSet)
    requires OneLine(d) && Parse(unquote, Render(d)) == d
    ensures Readable(d)
  {
    SurvivorIsClean(unquote, d);
    SurvivorBody(d);
    BodyRead(unquote, d);
    forall k | 0 <= k < |d|
      ensures PathsReadable(d[k]) && HunksReadable(d[k].hunks) && TextsReadable(d[k].hunks)
    {
      assert Reread(unquote, NoCr(d)[k]) == d[k];
      FileSurvives(unquote, d[k]);
      NoCrSame(d[k].hunks);
    }
  }

  /** Parsing undoes rendering exactly for the readable sets. */
  lemma RoundTrip(unquote: Unquoter, d: DiffSet)
    requires OneLine(d)
    ensures Parse(unquote, Render(d)) == d <==> Readable(d)
  {
    if Readable(d) { ReadableSurvives(unquote, d); }
    if Parse(unquote, Render(d)) == d { SurvivorIsReadable(unquote, d); }
  }
}
