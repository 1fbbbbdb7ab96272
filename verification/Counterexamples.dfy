/** Concrete inputs on which a promise fails; the conditions under which each holds are proved beside
    the operations. */
module Counterexamples {
  import opened Wrappers
  import opened Findings
  import E = EvidenceRefs
  import S = ReviewState
  import C = Canonicalization
  import R = ReviewRun
  import P = Publication
  import RH = ReviewHistory
  import A = Anchoring
  import Dedup
  import D = UnifiedDiff
  import Q = DiffReading
  import T = DiffRoundTrip
  import G = GitDiffs
  import Text = TextOps
  import Spans = CodeSpans

  /** A path that reads like a line reference comes back cut short. */
  lemma PathLikeALine(clip: string -> string)
    ensures E.ReadRef(E.PrintRef(E.Evidence("a:1 b", 7, 7, ""), clip)).path != "a:1 b"
  {
    var e := E.Evidence("a:1 b", 7, 7, "");
    assert e.path[1] == ':' && e.path[2..3] == "1" && e.path[3] == ' ';
    E.RefRoundTrip(e, clip);
  }

  /** A tab between two spaces loses its spaces in a code span. */
  lemma TabBetweenSpaces()
    ensures Spans.ReadSpan(Spans.CodeSpan(" \t ")) != Some(Spans.Span(" \t ", ""))
  {
    var t := " \t ";
    assert t[1] == '\t';
    assert Spans.OddBlank(t);
    assert Spans.CodeSpan(t) + "" == Spans.CodeSpan(t);
    Spans.CodeSpanRoundTrip(t, "");
  }

  const DASHES := D.FileDiff("a", "a", D.Modified, [D.Hunk(1, 1, 1, 0, [D.Line(D.Del, Some(1), None, "-- x")])])

  /** A deleted line that starts with two dashes and a space is read back as a file header. */
  lemma DeletedDashes(unquote: D.Unquoter)
    ensures D.Parse(unquote, D.Render([DASHES])) != [DASHES]
  {
    var h := DASHES.hunks[0];
    assert h.lines[0].text[..3] == "-- ";
    assert Q.HeaderLike(h.lines[0]);
    assert !Q.HunkReadable(h);
    assert [DASHES][0] == DASHES;
    assert !T.Readable([DASHES]);
    T.RoundTrip(unquote, [DASHES]);
  }

  /** A new empty file whose name holds a space, as git prints it where it does not quote the name. */
  const SPACED := G.GitFile(G.Create("100644"), "my file", "my file", ["index 0000000..e69de29"], [])

  lemma SpacedName(unquote: D.Unquoter, quote: G.Quoter)
    requires G.Quotes(unquote, quote) && quote("my file") == "my file"
    ensures var d := D.Parse(unquote, Text.Joined(G.AllGitLines([SPACED], quote)));
      |d| == 1 && d[0].oldPath != "my file" && d[0].newPath != "my file"
  {
    assert "my file"[2] == ' ';
    G.NotHeader(SPACED.notes[0]);
    G.PathsRead(unquote, quote, SPACED);
    SpacedLines(unquote, quote);
    OneFileRead(unquote, quote, SPACED);
  }

  lemma SpacedLines(unquote: D.Unquoter, quote: G.Quoter)
    requires G.Quotes(unquote, quote) && quote("my file") == "my file"
    ensures OnLines(G.GitLines(SPACED, quote))
  {
    SpacedHeader(unquote, quote);
    HeaderOnLine();
    ModeOnLine(quote);
    NoteOnLine();
    OnLinesOf(SPACED, quote);
  }

  lemma ModeOnLine(quote: G.Quoter)
    ensures OnLines(G.Extended(SPACED, quote))
  {
    assert "new file mode " + "100644" == "new file mode 100644";
    assert G.Extended(SPACED, quote) == ["new file mode 100644"];
  }

  lemma NoteOnLine()
    ensures OnLines(SPACED.notes)
  {
  }

  lemma HeaderOnLine()
    ensures OnLines(["diff --git a/my file b/my file"])
  {
  }

  lemma SpacedHeader(unquote: D.Unquoter, quote: G.Quoter)
    requires G.Quotes(unquote, quote) && quote("my file") == "my file"
    ensures G.DiffLine(SPACED, quote) == "diff --git a/my file b/my file"
  {
    BareSides(unquote, quote, "my file");
  }

  lemma MovedHeader(unquote: D.Unquoter, quote: G.Quoter)
    requires G.Quotes(unquote, quote) && quote("a/x") == "a/x" && quote("a/y") == "a/y"
    ensures G.DiffLine(MOVED, quote) == "diff --git a/a/x b/a/y"
  {
    BareSides(unquote, quote, "a/x");
    BareSides(unquote, quote, "a/y");
  }

  lemma BareSides(unquote: D.Unquoter, quote: G.Quoter, path: string)
    requires G.Quotes(unquote, quote) && quote(path) == path && path != ""
    ensures quote("a/" + path) == "a/" + path && quote("b/" + path) == "b/" + path
  {
    assert G.Bare(quote, path);
    assert G.Bare(quote, "a/" + path) && G.Bare(quote, "b/" + path);
  }

  lemma OnLinesOf(f: G.GitFile, quote: G.Quoter)
    requires f.hunks == [] && OnLines([G.DiffLine(f, quote)]) && OnLines(G.Extended(f, quote)) && OnLines(f.notes)
    ensures OnLines(G.GitLines(f, quote))
  {
    assert G.DiffLine(f, quote) in [G.DiffLine(f, quote)];
  }

  /** Each is one line. */
  ghost predicate OnLines(lines: seq<string>) {
    forall l <- lines :: '\n' !in l && !Text.EndsWith(l, "\r")
  }

  lemma OneFileRead(unquote: D.Unquoter, quote: G.Quoter, f: G.GitFile)
    requires G.Quotes(unquote, quote) && G.GitFileOk(f) && OnLines(G.GitLines(f, quote))
    ensures D.Parse(unquote, Text.Joined(G.AllGitLines([f], quote))) == [G.Read(unquote, quote, f)]
  {
    assert [f][0] == f && [f][1..] == [];
    assert G.AllGitLines([f], quote) == G.GitLines(f, quote);
    G.GitReads(unquote, quote, [f]);
  }

  /** A file moved without changes inside a directory "a". */
  const MOVED := G.GitFile(G.Move("100%"), "a/x", "a/y", [], [])

  lemma MovedInsideA(unquote: D.Unquoter, quote: G.Quoter)
    requires G.Quotes(unquote, quote) && quote("a/x") == "a/x" && quote("a/y") == "a/y"
    ensures var d := D.Parse(unquote, Text.Joined(G.AllGitLines([MOVED], quote)));
      |d| == 1 && d[0].oldPath != "a/x" && d[0].newPath != "a/y"
  {
    assert G.InSide("a/x") && G.InSide("a/y");
    G.PathsRead(unquote, quote, MOVED);
    MovedLines(unquote, quote);
    OneFileRead(unquote, quote, MOVED);
  }

  lemma MovedLines(unquote: D.Unquoter, quote: G.Quoter)
    requires G.Quotes(unquote, quote) && quote("a/x") == "a/x" && quote("a/y") == "a/y"
    ensures OnLines(G.GitLines(MOVED, quote))
  {
    MovedHeader(unquote, quote);
    MoveOnLine(quote);
    MovedHeaderOnLine();
    OnLinesOf(MOVED, quote);
  }

  lemma MovedHeaderOnLine()
    ensures OnLines(["diff --git a/a/x b/a/y"])
  {
  }

  lemma RenameOnLine()
    ensures OnLines(["rename from a/x"]) && OnLines(["rename to a/y"])
  {
  }

  lemma SimilarityOnLine()
    ensures OnLines(["similarity index 100%"])
  {
  }

  lemma ThreeOnLine(a: string, b: string, c: string)
    requires OnLines([a]) && OnLines([b]) && OnLines([c])
    ensures OnLines([a, b, c])
  {
    assert a in [a] && b in [b] && c in [c];
  }

  lemma MoveOnLine(quote: G.Quoter)
    requires quote("a/x") == "a/x" && quote("a/y") == "a/y"
    ensures OnLines(G.Extended(MOVED, quote))
  {
    RenameOnLine();
    SimilarityOnLine();
    assert "similarity index " + "100%" == "similarity index 100%";
    assert "rename from " + "a/x" == "rename from a/x" && "rename to " + "a/y" == "rename to a/y";
    assert G.Extended(MOVED, quote) == ["similarity index 100%", "rename from a/x", "rename to a/y"];
    ThreeOnLine("similarity index 100%", "rename from a/x", "rename to a/y");
  }

  // ---- a second comment ----

  const HEX: Hasher := (file, key) => if P.IsMarkerId(key) then key else "000000000000"

  function Digit(n: nat): char {
    '0' + (n % 10) as char
  }

  function Key(n: nat): (key: string)
    ensures P.IsMarkerId(key)
  {
    "000000000" + [Digit(n / 100), Digit(n / 10), Digit(n)]
  }

  /** The `n`-th finding tracked before the run: all are posted but the first, whose comment is not known
      to be on the pull request. */
  function Entry(n: nat): S.StateFinding {
    S.StateFinding(Key(n), S.Open, n > 0, "f", 1, None, "", Key(n), "", High, "", [])
  }

  function Entries(n: nat): (fs: seq<S.StateFinding>)
    ensures |fs| == n
  {
    seq(n, k requires 0 <= k < n => Entry(k))
  }

  const NEW := Finding(Key(200), "", None, High, "f", 1, None, "", "", [], None, None, "", [])

  const FRESH := NEW.(verdict := Some(Accepted))

  /** Its recheck. */
  function Back(n: nat): Finding {
    S.ToFinding(Entry(n)).(verdict := Some(Accepted))
  }

  function Backs(n: nat): (fs: seq<Finding>)
    ensures |fs| == n
  {
    seq(n, k requires 0 <= k < n => Back(k))
  }

  const AGREES: nat -> R.Session := k => R.Answered(Accepted, None, None, None, true)

  const ADDED_F := D.FileDiff("f", "f", D.Added, [D.Hunk(0, 0, 1, 1, [D.Line(D.Add, None, Some(1), "")])])

  /** A run over them that publishes. */
  const CYCLE := RH.Cycle(0, [], AGREES, t => [], Low, [NEW], AGREES, None, [ADDED_F], Low, f => "", 10, false, true,
                          true, true, P.Post.Accepted, RH.Written)

  lemma ThreeDigits(n: nat)
    requires n < 1000
    ensures n == 100 * (n / 100 % 10) + 10 * (n / 10 % 10) + n % 10
  {
  }

  lemma KeysDiffer(m: nat, n: nat)
    requires m < 1000 && n < 1000 && Key(m) == Key(n)
    ensures m == n
  {
    assert Key(m)[9] == Key(n)[9] && Key(m)[10] == Key(n)[10] && Key(m)[11] == Key(n)[11];
    ThreeDigits(m);
    ThreeDigits(n);
  }

  lemma EntriesConsistent(n: nat)
    requires n <= 200
    ensures S.Consistent(HEX, Entries(n))
  {
    forall j: nat, k: nat | j < k < n ensures Key(j) != Key(k) {
      if Key(j) == Key(k) { KeysDiffer(j, k); }
    }
  }

  lemma NewKey(k: nat)
    requires k < 200
    ensures Key(k) != Key(200)
  {
    if Key(k) == Key(200) { KeysDiffer(k, 200); }
  }

  lemma EntryLook(k: nat)
    requires k < 200
    ensures S.Look(Entries(200), Key(k)) == Some(Entry(k))
  {
    EntriesConsistent(200);
    S.LookUnique(Entries(200), k);
  }

  lemma NewLook()
    ensures S.Look(Entries(200), Key(200)) == None
  {
    var i := S.Position(Entries(200), Key(200));
    if i < 200 { NewKey(i); }
  }

  // ---- its rechecks ----

  lemma Agreed(f: Finding)
    ensures R.Judged(f, AGREES(0)) == f.(verdict := Some(Accepted))
    ensures R.JudgedAll([f], AGREES) == [f.(verdict := Some(Accepted))]
  {
  }

  lemma EntriesRechecked()
    ensures S.LiveOnly(Entries(200)) == Entries(200)
    ensures R.JudgedAll(R.Candidates(Entries(200)), AGREES) == Backs(200)
  {
    S.AllLive(Entries(200));
    forall k: nat | k < 200 ensures R.JudgedAll(R.Candidates(Entries(200)), AGREES)[k] == Back(k) {
      assert R.Candidates(Entries(200))[k] == S.ToFinding(Entry(k));
      Agreed(S.ToFinding(Entry(k)));
    }
  }

  method RecheckEntries(clip: string -> string) returns (prep: S.Tracker, rechecks: seq<Finding>)
    ensures fresh(prep) && prep.h == HEX && prep.findings == Entries(200) && rechecks == Backs(200)
    ensures R.OpenMeansAccepted(HEX, Entries(200), Backs(200))
  {
    EntriesConsistent(200);
    EntriesRechecked();
    prep := new S.Tracker(HEX, clip, Entries(200));
    rechecks := R.Recheck(prep, AGREES);
    StillOpen(prep.findings);
  }

  lemma StillOpen(now: seq<S.StateFinding>)
    requires R.RecheckedUpTo(Entries(200), now, Entries(200), Backs(200), 200)
    ensures now == Entries(200)
  {
    forall i: nat | i < 200 ensures now[i] == Entries(200)[i] {
      assert Entries(200)[i].id == Entries(200)[i].id && Backs(200)[i].verdict == Some(Accepted);
    }
  }

  // ---- what it reports ----

  lemma FirstUnposted()
    ensures !S.HasPosted(Entries(200), Key(0))
  {
    forall s | s in Entries(200) && s.id == Key(0) ensures !s.posted {
      var k: nat :| k < 200 && Entries(200)[k] == s;
      KeysDiffer(k, 0);
    }
  }

  lemma OthersPosted(r: Finding)
    requires r in Backs(200)[1..]
    ensures S.HasPosted(Entries(200), r.IdBy(HEX))
  {
    var k: nat :| k < 199 && Backs(200)[1..][k] == r;
    assert Entries(200)[k + 1] in Entries(200);
  }

  lemma OneComesBack()
    ensures R.Reentering(HEX, Entries(200), Backs(200)) == [Back(0)]
  {
    var p := (r: Finding) => r.verdict == Some(Accepted) && !S.HasPosted(Entries(200), r.IdBy(HEX));
    var rest := Backs(200)[1..];
    FirstUnposted();
    forall r | r in rest ensures !p(r) { OthersPosted(r); }
    assert Backs(200) == [Back(0)] + rest;
    C.FilterFront([Back(0)], rest, p);
    C.FilterAll([Back(0)], p);
  }

  lemma NewUntracked()
    ensures !S.IsTrackedOpen(Entries(200), Key(200))
  {
    EntriesConsistent(200);
    NewLook();
    forall s | s in Entries(200) ensures s.id != Key(200) { S.FoundIs(Entries(200), s); }
  }

  lemma NewStays(words: string -> seq<string>)
    ensures R.Untracked(HEX, Entries(200), [Back(0)], R.AtLeast(Collapsed(words, [NEW]), Low)) == [NEW]
  {
    assert Collapsed(words, [NEW]) == [NEW];
    NewUntracked();
    C.FilterAll([NEW], (f: Finding) => f.severity.Rank() >= Low.Rank());
    C.FilterAll([NEW],
      (f: Finding) => !S.IsTrackedOpen(Entries(200), f.IdBy(HEX)) || C.HasId(HEX, [Back(0)], f.IdBy(HEX)));
  }

  lemma TwoCanonical(a: Finding, b: Finding)
    requires a.IdBy(HEX) != b.IdBy(HEX)
    ensures C.Canonical(HEX, [a, b]) == [a, b]
  {
    assert [a, b][..1] == [a] && C.Canonical(HEX, [a]) == [a];
    assert C.Place(HEX, [a], b.IdBy(HEX)) == 1;
  }

  lemma ReviewedIs(h: Hasher, words: string -> seq<string>, tracked: seq<S.StateFinding>, rechecks: seq<Finding>,
                   f: Finding, g: Finding, r: Finding)
    requires R.Reentering(h, tracked, rechecks) == [r]
    requires R.Untracked(h, tracked, [r], R.AtLeast(Collapsed(words, [f]), Low)) == [f]
    requires R.JudgedAll([f], AGREES) == [g] && C.Canonical(h, [g, r]) == [g, r]
    ensures R.Reviewed(h, words, Low, tracked, rechecks, [f], AGREES) == [g, r]
  {
    assert [g] + [r] == [g, r];
  }

  lemma TwoReviewed(words: string -> seq<string>)
    ensures R.Reviewed(HEX, words, Low, Entries(200), Backs(200), [NEW], AGREES) == [FRESH, Back(0)]
  {
    OneComesBack();
    NewStays(words);
    Agreed(NEW);
    NewKey(0);
    TwoCanonical(FRESH, Back(0));
    ReviewedIs(HEX, words, Entries(200), Backs(200), NEW, FRESH, Back(0));
  }

  lemma TwoReported(validEnd: Finding -> bool)
    requires validEnd(FRESH) && validEnd(Back(0))
    ensures R.Report([FRESH, Back(0)], validEnd) == [FRESH, Back(0)]
  {
    var both := [FRESH, Back(0)];
    C.FilterAll(both, (f: Finding) => f.Publishable());
    C.FilterNone(both, (f: Finding) => !f.Publishable());
    assert R.Anchored(both, validEnd) == both;
    assert both + [] == both;
  }

  // ---- what pruning drops ----

  lemma {:induction false} WithoutNone(fs: seq<S.StateFinding>)
    ensures S.Without(fs, {}) == fs
  {
    if fs != [] {
      WithoutNone(fs[1..]);
      assert [fs[0]] + fs[1..] == fs;
    }
  }

  lemma NewIdsOfTwo(h: Hasher, base: seq<S.StateFinding>, a: Finding, b: Finding)
    requires a.duplicateOf == None && b.duplicateOf == None
    requires S.Look(base, a.IdBy(h)).None? && S.Look(base, b.IdBy(h)).Some?
    ensures R.DuplicateIds(h, [a, b]) == {}
    ensures R.NewIds(h, base, [a, b], 2) == [a.IdBy(h)]
  {
    assert R.NewIds(h, base, [a, b], 1) == [a.IdBy(h)];
  }

  lemma AddedLast(unpruned: seq<S.StateFinding>)
    requires R.KeepsOrder(HEX, Entries(200), [FRESH, Back(0)], unpruned)
    ensures S.Ids(unpruned) == S.Ids(Entries(200)) + [Key(200)]
  {
    WithoutNone(Entries(200));
    EntryLook(0);
    NewLook();
    NewIdsOfTwo(HEX, Entries(200), FRESH, Back(0));
  }

  /** An entry that the report does not mention is as it was, and a reported one is open. */
  lemma StaysOpen(h: Hasher, before: seq<S.StateFinding>, final: seq<Finding>, after: seq<S.StateFinding>, k: nat)
    requires R.Settled(h, before, {}, final, after) && k < |after|
    requires forall f <- final :: f.verdict == Some(Accepted) && f.duplicateOf == None
    requires (exists f :: f in final && f.IdBy(h) == after[k].id) || S.StatusOf(before, after[k].id) == Some(S.Open)
    ensures after[k].status == S.Open
  {
    S.LookUnique(after, k);
    C.HasIdExactly(h, final, after[k].id);
    if C.HasId(h, final, after[k].id) {
      var i := C.Place(h, final, after[k].id);
      assert final[i] in final;
    }
  }

  lemma AllOpen(unpruned: seq<S.StateFinding>, k: nat)
    requires R.Settled(HEX, Entries(200), {}, [FRESH, Back(0)], unpruned) && k < |unpruned| == 201
    requires unpruned[k].id == Key(k)
    ensures unpruned[k].status == S.Open
  {
    if k < 200 { EntryLook(k); } else { assert FRESH in [FRESH, Back(0)] && FRESH.IdBy(HEX) == Key(200); }
    StaysOpen(HEX, Entries(200), [FRESH, Back(0)], unpruned, k);
  }

  lemma FirstDropped(unpruned: seq<S.StateFinding>)
    requires R.Settled(HEX, Entries(200), {}, [FRESH, Back(0)], unpruned)
    requires R.KeepsOrder(HEX, Entries(200), [FRESH, Back(0)], unpruned)
    ensures !S.PruneKeeps(unpruned, Key(0))
  {
    AddedLast(unpruned);
    assert |S.Ids(unpruned)| == 201;
    forall k: nat | k < 201 ensures unpruned[k].id == Key(k) && unpruned[k].status == S.Open {
      assert S.Ids(unpruned)[k] == Key(k);
      AllOpen(unpruned, k);
    }
    S.OldestGoes(unpruned);
  }

  // ---- what it posts ----

  lemma OnAddedLine()
    ensures A.OnHeadSide([ADDED_F], "f", 1)
  {
    assert ADDED_F.hunks[0].lines[0].newNo == Some(1);
    assert A.HunkShows(ADDED_F.hunks[0], 1);
    assert A.FileOf([ADDED_F], "f") == Some(ADDED_F);
  }

  lemma ShownInline()
    ensures Key(0) in RH.InlineIds(HEX, CYCLE, [FRESH, Back(0)])
  {
    var both := [FRESH, Back(0)];
    C.FilterAll(both, (f: Finding) => f.Publishable());
    SecondPlaced(both);
    RH.InlineIdsExactly(HEX, CYCLE, both, Key(0));
    assert both[1].IdBy(HEX) == Key(0);
  }

  lemma SecondPlaced(both: seq<Finding>)
    requires both == [FRESH, Back(0)]
    ensures 1 in A.Inline([ADDED_F], Low, both, 10)
  {
    OnAddedLine();
    assert A.Eligible([ADDED_F], Low, both[1]);
    A.RankOrderShort([ADDED_F], Low, both, 2);
  }

  lemma OneComment(cs: seq<P.Comment>, id: Id)
    requires P.IsMarkerId(id) && cs == [P.Comment(true, P.Body("", id))]
    ensures P.NoDuplicates(cs) && id in P.PostedIds(cs)
  {
    P.HexDigits(id);
    P.MarkerRoundTrip("", id);
    assert cs[0] in cs && P.OwnId(cs[0]) == Some(id);
  }

  lemma MarkersMade()
    ensures P.MakesMarkers(HEX)
  {
  }

  lemma FirstReplanned(cs: seq<P.Comment>, run: RH.Run)
    requires run.final == [FRESH, Back(0)] && !S.PruneKeeps(run.unpruned, Key(0)) && Key(0) in P.PostedIds(cs)
    ensures run.final[1] in run.final && RH.DroppedReplan(HEX, CYCLE, cs, run, run.final[1])
  {
    ShownInline();
    assert Back(0).IdBy(HEX) == Key(0);
  }

  lemma FirstReposted(cs: seq<P.Comment>, run: RH.Run)
    requires RH.RunOk(HEX, CYCLE, run) && run.final == [FRESH, Back(0)] && !S.PruneKeeps(run.unpruned, Key(0))
    requires P.NoDuplicates(cs) && Key(0) in P.PostedIds(cs)
    ensures !P.NoDuplicates(P.AfterPublish(cs, run.round))
  {
    MarkersMade();
    FirstReplanned(cs, run);
    RH.RepostsOne(HEX, CYCLE, cs, run, run.final[1]);
  }

  /** A finding whose comment is on the pull request, but not known to be, comes back into a run that adds
      a 201st one: the run drops it from state as the oldest and comments on it again. */
  method SecondComment(clip: string -> string, words: string -> seq<string>, pr: P.PullRequest)
    requires pr.comments == [P.Comment(true, P.Body("", Key(0)))]
    modifies pr
    ensures P.NoDuplicates(old(pr.comments)) && !P.NoDuplicates(pr.comments)
  {
    ghost var cs := pr.comments;
    var state, final, run := PruningRun(clip, words);
    OneComment(cs, Key(0));
    FirstReposted(cs, run);
    var _ := P.Publish(pr, state, RH.RoundOf(HEX, CYCLE, state.findings, final));
  }

  lemma FinalIs(words: string -> seq<string>, carried: seq<Id>, marked: seq<Finding>, validEnd: Finding -> bool)
    requires R.AsJudged(HEX, R.AtLeast(R.Reviewed(HEX, words, Low, Entries(200), Backs(200), [NEW], AGREES), Low),
                        carried, None, marked)
    requires validEnd(FRESH) && validEnd(Back(0))
    ensures R.Report(marked, validEnd) == [FRESH, Back(0)]
  {
    TwoReviewed(words);
    C.FilterAll([FRESH, Back(0)], (f: Finding) => f.severity.Rank() >= Low.Rank());
    TwoReported(validEnd);
  }

  /** Nothing is below the lowest severity. */
  lemma NothingFell(h: Hasher, below: set<Id>, rechecks: seq<Finding>, tracked: seq<S.StateFinding>, all: seq<Finding>)
    requires forall id :: id in below <==>
      R.RecheckFell(h, Low, rechecks, id) || R.TrackedFell(h, Low, tracked, all, id)
    ensures below == {}
  {
  }

  method PruningRun(clip: string -> string, words: string -> seq<string>)
    returns (state: S.Tracker, final: seq<Finding>, ghost run: RH.Run)
    ensures fresh(state) && state.findings == run.round.tracked && run.final == final == [FRESH, Back(0)]
    ensures RH.RunOk(HEX, CYCLE, run) && !S.PruneKeeps(run.unpruned, Key(0))
  {
    var validEnd := (f: Finding) => A.ValidEnd([ADDED_F], f);
    var prep, rechecks := RecheckEntries(clip);
    EntriesConsistent(200);
    var reported, next, carried, unpruned, below, all, marked :=
      R.Finish(words, Low, prep, rechecks, [NEW], AGREES, None, validEnd);
    FinalIs(words, R.CarriedIds(HEX, Entries(200), R.AtLeast(all, Low)), marked, validEnd);
    NothingFell(HEX, below, rechecks, Entries(200), all);
    FirstDropped(unpruned);
    state, final := next, reported;
    run := RH.Run(RH.RoundOf(HEX, CYCLE, next.findings, reported), reported, unpruned);
  }

  // ---- a duplicate and its target both lost ----

  const KEY_IS_ID: Hasher := (file, key) => key

  const CARRIED := S.StateFinding("old", S.Open, true, "f", 1, None, "", "old", "", Low, "", [])

  const CANDIDATE := Finding("new", "", None, High, "f", 1, None, "", "", [], None, None, "", [])

  const JUDGED := CANDIDATE.(verdict := Some(Accepted))

  const RECHECKED := S.ToFinding(CARRIED).(verdict := Some(Accepted))

  const ANSWER := [[Dedup.New(0), Dedup.Posted(0)]]

  lemma OneRecheck()
    ensures S.LiveOnly([CARRIED]) == [CARRIED]
    ensures R.JudgedAll(R.Candidates([CARRIED]), AGREES) == [RECHECKED]
  {
    S.AllLive([CARRIED]);
    assert R.Candidates([CARRIED]) == [S.ToFinding(CARRIED)];
    Agreed(S.ToFinding(CARRIED));
  }

  lemma Absent(findings: seq<Finding>, id: Id)
    requires forall f <- findings :: f.IdBy(KEY_IS_ID) != id
    ensures !C.HasId(KEY_IS_ID, findings, id)
  {
    C.HasIdExactly(KEY_IS_ID, findings, id);
  }

  lemma NothingComesBack()
    ensures R.Reentering(KEY_IS_ID, [CARRIED], [RECHECKED]) == []
  {
    assert CARRIED in [CARRIED];
    assert RECHECKED.IdBy(KEY_IS_ID) == "old";
    assert S.HasPosted([CARRIED], "old");
    C.FilterNone([RECHECKED],
      (r: Finding) => r.verdict == Some(Accepted) && !S.HasPosted([CARRIED], r.IdBy(KEY_IS_ID)));
  }

  lemma OneCandidate(words: string -> seq<string>)
    ensures R.Untracked(KEY_IS_ID, [CARRIED], [], R.AtLeast(Collapsed(words, [CANDIDATE]), Medium)) == [CANDIDATE]
  {
    assert Collapsed(words, [CANDIDATE]) == [CANDIDATE];
    C.FilterAll([CANDIDATE], (f: Finding) => f.severity.Rank() >= Medium.Rank());
    C.FilterAll([CANDIDATE],
      (f: Finding) => !S.IsTrackedOpen([CARRIED], f.IdBy(KEY_IS_ID)) || C.HasId(KEY_IS_ID, [], f.IdBy(KEY_IS_ID)));
  }

  /** What the run has to report: the candidate, and it is above the threshold. */
  lemma OneReviewed(words: string -> seq<string>)
    ensures R.AtLeast(R.Reviewed(KEY_IS_ID, words, Medium, [CARRIED], [RECHECKED], [CANDIDATE], AGREES), Medium)
      == [JUDGED]
  {
    NothingComesBack();
    OneCandidate(words);
    Agreed(CANDIDATE);
    assert [JUDGED] + [] == [JUDGED];
    assert C.Canonical(KEY_IS_ID, [JUDGED]) == [JUDGED];
    C.FilterAll([JUDGED], (f: Finding) => f.severity.Rank() >= Medium.Rank());
  }

  lemma OneCarried()
    ensures R.CarriedIds(KEY_IS_ID, [CARRIED], [JUDGED]) == ["old"]
  {
    assert JUDGED.IdBy(KEY_IS_ID) == "new";
    Absent([JUDGED], "old");
    C.FilterAll([CARRIED],
      (s: S.StateFinding) => s.status == S.Open && s.posted && !C.HasId(KEY_IS_ID, [JUDGED], s.id));
  }

  lemma AnswerApplies(marked: seq<Finding>)
    requires R.AsJudged(KEY_IS_ID, [JUDGED], ["old"], Some(ANSWER), marked)
    ensures marked == [JUDGED.(duplicateOf := Some("old"))]
  {
    var g := ANSWER[0];
    assert g[0] == Dedup.New(0) && g[1] == Dedup.Posted(0);
    assert Dedup.GroupsOk([JUDGED], ["old"], ANSWER);
    assert g in ANSWER;
    assert Dedup.PostedOf(g) == Some(0);
    assert Dedup.GroupApplied(KEY_IS_ID, ["old"], [JUDGED], marked, g);
    assert Dedup.New(0) in g && Dedup.Loses([JUDGED], g, 0);
  }

  lemma OneReported(marked: seq<Finding>, validEnd: Finding -> bool)
    requires marked == [JUDGED.(duplicateOf := Some("old"))]
    ensures R.Report(marked, validEnd) == marked
  {
    C.FilterNone(marked, (f: Finding) => f.Publishable());
    C.FilterAll(marked, (f: Finding) => !f.Publishable());
    assert [] + marked == marked;
  }

  lemma NothingCarried(below: set<Id>, final: seq<Finding>, unpruned: seq<S.StateFinding>, next: seq<S.StateFinding>)
    requires R.Settled(KEY_IS_ID, [CARRIED], below, final, unpruned) && "old" in below
    requires |final| == 1 && final[0].IdBy(KEY_IS_ID) == "new" && next == S.Pruned(unpruned)
    ensures R.Carried(KEY_IS_ID, next, final) == []
  {
    S.PrunedKeepsConsistent(KEY_IS_ID, unpruned);
    Absent(final, "old");
    forall s | s in next ensures !(s.status == S.Open && s.posted && !C.HasId(KEY_IS_ID, final, s.id)) {
      S.FoundIs(unpruned, s);
      C.HasIdExactly(KEY_IS_ID, final, s.id);
      assert S.Look([CARRIED], s.id) == if s.id == "old" then Some(CARRIED) else None;
    }
    C.FilterNone(next, (s: S.StateFinding) => s.status == S.Open && s.posted && !C.HasId(KEY_IS_ID, final, s.id));
  }

  /** A new finding that the judge calls a duplicate of a posted one, in a run whose threshold demotes the
      posted one: the report shows neither. */
  method BothLost(clip: string -> string, words: string -> seq<string>)
    returns (final: seq<Finding>, carried: seq<S.StateFinding>)
    ensures |final| == 1 && final[0].duplicateOf == Some("old") && final[0].verdict == Some(Accepted)
    ensures carried == []
  {
    var prep, rechecks := Rechecked(clip);
    var reported, next, listed, unpruned, below, all, marked :=
      R.Finish(words, Medium, prep, rechecks, [CANDIDATE], AGREES, Some(ANSWER), f => true);
    final, carried := reported, listed;
    OneReviewed(words);
    OneCarried();
    AnswerApplies(marked);
    OneReported(marked, f => true);
    assert RECHECKED.IdBy(KEY_IS_ID) == "old" && RECHECKED in rechecks;
    NothingCarried(below, final, unpruned, next.findings);
  }

  method Rechecked(clip: string -> string) returns (prep: S.Tracker, rechecks: seq<Finding>)
    ensures fresh(prep) && prep.h == KEY_IS_ID && prep.findings == [CARRIED] && rechecks == [RECHECKED]
    ensures R.OpenMeansAccepted(KEY_IS_ID, [CARRIED], [RECHECKED])
  {
    prep := new S.Tracker(KEY_IS_ID, clip, [CARRIED]);
    OneRecheck();
    rechecks := R.Recheck(prep, AGREES);
    assert S.LiveOnly([CARRIED])[0].id == CARRIED.id;
    assert prep.findings[0] == CARRIED;
    assert prep.findings == [CARRIED];
  }
}
