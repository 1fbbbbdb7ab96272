/** What collapsing candidates makes of them (src/findings.rs): the groups of candidates that report one
    defect, and what the one finding says that stands for a group. */
module Grouping {
  import opened Wrappers
  import opened EvidenceRefs
  import opened Findings

  // ---- when two findings are alike ----

  ghost predicate Covers(f: Finding, n: nat) {
    f.startLine <= n && if f.endLine.Some? then n <= f.endLine.value else n == f.startLine
  }

  /** Findings on line ranges that are not backwards overlap exactly when a line is in both. */
  lemma OverlapIsShared(a: Finding, b: Finding)
    requires a.endLine.Some? ==> a.startLine <= a.endLine.value
    requires b.endLine.Some? ==> b.startLine <= b.endLine.value
    ensures LinesOverlap(a, b) <==> exists n: nat :: Covers(a, n) && Covers(b, n)
  {
    if LinesOverlap(a, b) {
      var n := if a.startLine < b.startLine then b.startLine else a.startLine;
      assert Covers(a, n) && Covers(b, n);
    }
  }

  /** The places of the words of `a` that `b` has too. */
  function Common(a: seq<string>, b: seq<string>): set<nat> {
    set k: nat | k < |a| && a[k] in b
  }

  lemma {:induction false} SharedCounts(a: seq<string>, b: seq<string>)
    ensures Shared(a, b) == |Common(a, b)|
  {
    if a == [] {
      assert Common(a, b) == {};
    } else {
      SharedCounts(a[1..], b);
      var shifted := set k: nat | k in Common(a[1..], b) :: k + 1;
      ShiftedSize(Common(a[1..], b), shifted);
      CommonTail(a, b, shifted);
    }
  }

  lemma CommonTail(a: seq<string>, b: seq<string>, shifted: set<nat>)
    requires a != [] && forall k: nat :: k in shifted <==> k > 0 && k - 1 in Common(a[1..], b)
    ensures |Common(a, b)| == |shifted| + if a[0] in b then 1 else 0
  {
    assert forall k: nat :: k in Common(a[1..], b) <==> k + 1 in Common(a, b);
    if a[0] in b {
      assert Common(a, b) == shifted + {0};
    } else {
      assert Common(a, b) == shifted;
    }
  }

  lemma {:induction false} ShiftedSize(s: set<nat>, shifted: set<nat>)
    requires forall k: nat :: k in shifted <==> k > 0 && k - 1 in s
    ensures |shifted| == |s|
    decreases |s|
  {
    if s == {} {
      assert shifted == {};
    } else {
      var x :| x in s;
      assert x + 1 in shifted;
      ShiftedSize(s - {x}, shifted - {x + 1});
    }
  }

  /** Both titles have words, and those shared are at least 0.6 of the longer one. */
  ghost predicate SimilarTitles(a: seq<string>, b: seq<string>) {
    && a != [] && b != []
    && |Common(a, b)| as real >= 0.6 * (if |a| > |b| then |a| else |b|) as real
  }

  lemma SimilarExactly(a: seq<string>, b: seq<string>)
    ensures TitlesSimilar(a, b) <==> SimilarTitles(a, b)
  {
    SharedCounts(a, b);
  }

  /** In the same file, and either of the same key or on overlapping lines with similar titles. */
  ghost predicate Alike(words: string -> seq<string>, o: Finding, c: Finding) {
    && o.file == c.file
    && (o.defectKey == c.defectKey
        || (o.startLine <= (if c.endLine.Some? then c.endLine.value else c.startLine)
            && c.startLine <= (if o.endLine.Some? then o.endLine.value else o.startLine)
            && SimilarTitles(words(o.title), words(c.title))))
  }

  lemma DuplicatesExactly(words: string -> seq<string>, o: Finding, c: Finding)
    ensures Duplicates(words, o, c) <==> Alike(words, o, c)
  {
    SimilarExactly(words(o.title), words(c.title));
  }

  // ---- the groups ----

  /** The first group whose first member is like `c`, `|gs|` if there is none. */
  ghost function FirstLike(words: string -> seq<string>, gs: seq<seq<Finding>>, c: Finding): (i: nat)
    ensures i <= |gs| && (i < |gs| ==> gs[i] != [] && Alike(words, gs[i][0], c))
    ensures forall j :: 0 <= j < i && gs[j] != [] ==> !Alike(words, gs[j][0], c)
  {
    if gs == [] || (gs[0] != [] && Alike(words, gs[0][0], c)) then 0 else 1 + FirstLike(words, gs[1..], c)
  }

  /** The groups of the candidates: in order, each joins the first group whose first member it is like, or
      starts the next one. */
  ghost function Groups(words: string -> seq<string>, cs: seq<Finding>): seq<seq<Finding>> {
    if cs == [] then [] else Joined(words, Groups(words, cs[..|cs| - 1]), cs[|cs| - 1])
  }

  ghost function Joined(words: string -> seq<string>, gs: seq<seq<Finding>>, c: Finding): seq<seq<Finding>> {
    var i := FirstLike(words, gs, c);
    if i < |gs| then gs[i := gs[i] + [c]] else gs + [[c]]
  }

  /** `s` is one of the sources of `c`. */
  ghost predicate SourceOf(c: Finding, s: string) {
    s in c.sources || (s == c.source && s != "")
  }

  ghost predicate SumPlace(g: seq<Finding>, o: Finding)
    requires g != []
  {
    && o.file == g[0].file && o.defectKey == g[0].defectKey && o.title == g[0].title
    && o.startLine == g[0].startLine && o.endLine == g[0].endLine
    && o.verdict == g[0].verdict && o.duplicateOf == g[0].duplicateOf && o.source == g[0].source
  }

  /** The highest severity of the group. */
  ghost predicate SumSeverity(g: seq<Finding>, o: Finding) {
    && (exists k :: 0 <= k < |g| && o.severity == g[k].severity)
    && (forall k :: 0 <= k < |g| ==> g[k].severity.Rank() <= o.severity.Rank())
  }

  /** The first category that is not empty. */
  ghost predicate SumCategory(g: seq<Finding>, o: Finding) {
    exists k :: CategoryAt(g, o, k)
  }

  ghost predicate CategoryAt(g: seq<Finding>, o: Finding, k: int) {
    && 0 <= k < |g| && o.category == g[k].category
    && (forall j :: 0 <= j < k ==> g[j].category == "") && (o.category == "" ==> k == |g| - 1)
  }

  /** The first suggested fix. */
  ghost predicate SumFix(g: seq<Finding>, o: Finding) {
    exists k :: FixAt(g, o, k)
  }

  ghost predicate FixAt(g: seq<Finding>, o: Finding, k: int) {
    && 0 <= k < |g| && o.suggestedFix == g[k].suggestedFix
    && (forall j :: 0 <= j < k ==> g[j].suggestedFix == None) && (o.suggestedFix == None ==> k == |g| - 1)
  }

  /** The longest claim, the first of these. */
  ghost predicate SumClaim(g: seq<Finding>, o: Finding) {
    && (exists k :: 0 <= k < |g| && o.claim == g[k].claim && forall j :: 0 <= j < k ==> |g[j].claim| < |o.claim|)
    && (forall j :: 0 <= j < |g| ==> |g[j].claim| <= |o.claim|)
  }

  /** The sources of the group, and no others. */
  ghost predicate SumSources(g: seq<Finding>, o: Finding) {
    forall s :: s in o.sources <==> exists k :: 0 <= k < |g| && SourceOf(g[k], s)
  }

  /** Evidence of the group only, with something equal to every piece of it. */
  ghost predicate SumEvidence(g: seq<Finding>, o: Finding) {
    && (forall e :: e in o.evidence ==> exists k :: 0 <= k < |g| && e in g[k].evidence)
    && (forall k :: 0 <= k < |g| ==> Backed(g[k], o))
  }

  ghost predicate Backed(c: Finding, o: Finding) {
    forall e :: e in c.evidence ==>
      exists x :: x in o.evidence && x.path == e.path && x.startLine == e.startLine && x.note == e.note
  }

  /** `o` says of the group `g` all there is to say. */
  ghost predicate SumsUp(g: seq<Finding>, o: Finding) {
    && g != [] && SumPlace(g, o) && SumSeverity(g, o) && SumCategory(g, o) && SumFix(g, o) && SumClaim(g, o)
    && SumSources(g, o) && SumEvidence(g, o)
  }

  // ---- what one more member changes ----

  lemma MergeSeverity(g: seq<Finding>, o: Finding, c: Finding)
    requires SumSeverity(g, o)
    ensures SumSeverity(g + [c], Merge(o, WithSource(c)))
  {
    var k :| 0 <= k < |g| && o.severity == g[k].severity;
    assert (g + [c])[k] == g[k] && (g + [c])[|g|] == c;
  }

  lemma MergeCategory(g: seq<Finding>, o: Finding, c: Finding)
    requires SumCategory(g, o)
    ensures SumCategory(g + [c], Merge(o, WithSource(c)))
  {
    var k :| CategoryAt(g, o, k);
    assert CategoryAt(g + [c], Merge(o, WithSource(c)), if o.category == "" then |g| else k);
  }

  lemma MergeFix(g: seq<Finding>, o: Finding, c: Finding)
    requires SumFix(g, o)
    ensures SumFix(g + [c], Merge(o, WithSource(c)))
  {
    var k :| FixAt(g, o, k);
    assert FixAt(g + [c], Merge(o, WithSource(c)), if o.suggestedFix.None? then |g| else k);
  }

  lemma MergeClaim(g: seq<Finding>, o: Finding, c: Finding)
    requires SumClaim(g, o)
    ensures SumClaim(g + [c], Merge(o, WithSource(c)))
  {
    var k :| 0 <= k < |g| && o.claim == g[k].claim && forall j :: 0 <= j < k ==> |g[j].claim| < |o.claim|;
    assert (g + [c])[k] == g[k] && (g + [c])[|g|] == c;
  }

  lemma MergeSources(g: seq<Finding>, o: Finding, c: Finding)
    requires SumSources(g, o)
    ensures SumSources(g + [c], Merge(o, WithSource(c)))
  {
    var r := Merge(o, WithSource(c));
    forall s ensures s in r.sources <==> exists k :: 0 <= k < |g + [c]| && SourceOf((g + [c])[k], s) {
      assert s in r.sources <==> s in o.sources || SourceOf(c, s);
      assert (g + [c])[|g|] == c && forall k :: 0 <= k < |g| ==> (g + [c])[k] == g[k];
    }
  }

  lemma {:induction false} AddedEvidence(had: seq<Evidence>, more: seq<Evidence>, e: Evidence)
    requires e in AddEvidence(had, more)
    ensures e in had || e in more
    decreases |more|
  {
    if more != [] {
      AddedEvidence(if HasEvidence(had, more[0]) then had else had + [more[0]], more[1..], e);
    }
  }

  lemma BackedMore(c: Finding, o: Finding, r: Finding)
    requires Backed(c, o) && o.evidence <= r.evidence
    ensures Backed(c, r)
  {
  }

  lemma BackedByMerge(o: Finding, c: Finding)
    ensures Backed(c, Merge(o, WithSource(c)))
  {
    var r := Merge(o, WithSource(c));
    forall e | e in c.evidence
      ensures exists x :: x in r.evidence && x.path == e.path && x.startLine == e.startLine && x.note == e.note
    {
      assert HasEvidence(r.evidence, e);
    }
  }

  lemma MergeEvidence(g: seq<Finding>, o: Finding, c: Finding)
    requires SumEvidence(g, o)
    ensures SumEvidence(g + [c], Merge(o, WithSource(c)))
  {
    var h, r := g + [c], Merge(o, WithSource(c));
    assert h[|g|] == c && forall k :: 0 <= k < |g| ==> h[k] == g[k];
    forall e | e in r.evidence ensures exists k :: 0 <= k < |h| && e in h[k].evidence {
      AddedEvidence(o.evidence, c.evidence, e);
    }
    forall k | 0 <= k < |h| ensures Backed(h[k], r) {
      if k < |g| { BackedMore(g[k], o, r); } else { BackedByMerge(o, c); }
    }
  }

  lemma MergeSumsUp(g: seq<Finding>, o: Finding, c: Finding)
    requires SumsUp(g, o)
    ensures SumsUp(g + [c], Merge(o, WithSource(c)))
  {
    MergeSeverity(g, o, c);
    MergeCategory(g, o, c);
    MergeFix(g, o, c);
    MergeClaim(g, o, c);
    MergeSources(g, o, c);
    MergeEvidence(g, o, c);
  }

  lemma OneSumsUp(c: Finding)
    ensures SumsUp([c], WithSource(c))
  {
    var g, o := [c], WithSource(c);
    assert g[0] == c && CategoryAt(g, o, 0) && FixAt(g, o, 0);
    assert SumSources(g, o) by {
      forall s ensures s in o.sources <==> exists k :: 0 <= k < |g| && SourceOf(g[k], s) {
        assert s in o.sources <==> SourceOf(g[0], s);
      }
    }
  }

  // ---- what a collapse makes ----

  ghost predicate SumUp(gs: seq<seq<Finding>>, out: seq<Finding>) {
    |out| == |gs| && forall i :: 0 <= i < |out| ==> SumsUp(gs[i], out[i])
  }

  lemma FirstLikeIs(words: string -> seq<string>, gs: seq<seq<Finding>>, out: seq<Finding>, c: Finding)
    requires SumUp(gs, out)
    ensures FirstLike(words, gs, c) == DuplicateIn(words, out, WithSource(c))
  {
    forall j | 0 <= j < |gs|
      ensures gs[j] != [] && (Alike(words, gs[j][0], c) <==> Duplicates(words, out[j], WithSource(c)))
    {
      AlikeIs(words, gs[j], out[j], c);
    }
    var i, k := FirstLike(words, gs, c), DuplicateIn(words, out, WithSource(c));
    assert i < k || k < i || i == k;
  }

  lemma AlikeIs(words: string -> seq<string>, g: seq<Finding>, o: Finding, c: Finding)
    requires SumsUp(g, o)
    ensures Alike(words, g[0], c) <==> Duplicates(words, o, WithSource(c))
  {
    DuplicatesExactly(words, o, WithSource(c));
  }

  lemma AbsorbSumsUp(words: string -> seq<string>, gs: seq<seq<Finding>>, out: seq<Finding>, c: Finding)
    requires SumUp(gs, out)
    ensures SumUp(Joined(words, gs, c), Absorb(words, out, c))
  {
    var i := DuplicateIn(words, out, WithSource(c));
    FirstLikeIs(words, gs, out, c);
    if i < |out| { MergeSumsUp(gs[i], out[i], c); } else { OneSumsUp(c); }
  }

  /** The collapsed list has one finding for each group of the candidates, which sums it up. */
  lemma {:induction false} CollapsedExactly(words: string -> seq<string>, cs: seq<Finding>)
    ensures SumUp(Groups(words, cs), Collapsed(words, cs))
  {
    if cs != [] {
      CollapsedExactly(words, cs[..|cs| - 1]);
      AbsorbSumsUp(words, Groups(words, cs[..|cs| - 1]), Collapsed(words, cs[..|cs| - 1]), cs[|cs| - 1]);
    }
  }
}
