/** Where each publishable finding is shown (src/pipeline/anchor.rs): inline on a line of the diff's
    head side, at most `max` of them by rank, or in the summary. */
module Anchoring {
  import opened Wrappers
  import opened Findings
  import opened Places
  import D = UnifiedDiff

  // ---- lines of the diff ----

  function FileOf(d: D.DiffSet, path: string): (r: Option<D.FileDiff>)
    ensures r.Some? ==> r.value in d && (r.value.newPath == path || r.value.oldPath == path)
  {
    if d == [] then None
    else if d[0].newPath == path || d[0].oldPath == path then Some(d[0])
    else FileOf(d[1..], path)
  }

  predicate HunkShows(h: D.Hunk, n: nat) {
    exists k :: 0 <= k < |h.lines| && h.lines[k].kind != D.Del && h.lines[k].newNo == Some(n)
  }

  predicate FileShows(f: D.FileDiff, n: nat) {
    exists j :: 0 <= j < |f.hunks| && HunkShows(f.hunks[j], n)
  }

  /** Line `n` of the file is on the head side of the diff. */
  predicate OnHeadSide(d: D.DiffSet, path: string, n: nat) {
    FileOf(d, path).Some? && FileShows(FileOf(d, path).value, n)
  }

  /** `i` is the place of the file with this path, by its new or its old name. */
  ghost predicate IsFile(d: D.DiffSet, path: string, i: nat) {
    && i < |d| && (d[i].newPath == path || d[i].oldPath == path)
    && forall j :: 0 <= j < i ==> d[j].newPath != path && d[j].oldPath != path
  }

  /** Some hunk of the file has a line, not a deleted one, with the new number `n`. */
  ghost predicate Shown(d: D.DiffSet, path: string, n: nat) {
    exists i: nat, j, k ::
      && IsFile(d, path, i) && 0 <= j < |d[i].hunks| && 0 <= k < |d[i].hunks[j].lines|
      && d[i].hunks[j].lines[k].kind != D.Del && d[i].hunks[j].lines[k].newNo == Some(n)
  }

  lemma {:induction false} FileAt(d: D.DiffSet, path: string, i: nat)
    requires IsFile(d, path, i)
    ensures FileOf(d, path) == Some(d[i])
  {
    if i > 0 {
      assert IsFile(d[1..], path, i - 1);
      FileAt(d[1..], path, i - 1);
    }
  }

  lemma {:induction false} FilePlace(d: D.DiffSet, path: string) returns (i: nat)
    requires FileOf(d, path).Some?
    ensures IsFile(d, path, i)
  {
    if d[0].newPath == path || d[0].oldPath == path {
      i := 0;
    } else {
      i := FilePlace(d[1..], path);
      i := i + 1;
      assert forall j :: 1 <= j < i ==> d[j] == d[1..][j - 1];
    }
  }

  lemma OnHeadSideExactly(d: D.DiffSet, path: string, n: nat)
    ensures OnHeadSide(d, path, n) <==> Shown(d, path, n)
  {
    if Shown(d, path, n) {
      var i: nat, j, k :| IsFile(d, path, i) && 0 <= j < |d[i].hunks| && 0 <= k < |d[i].hunks[j].lines|
        && d[i].hunks[j].lines[k].kind != D.Del && d[i].hunks[j].lines[k].newNo == Some(n);
      FileAt(d, path, i);
      assert HunkShows(d[i].hunks[j], n);
    }
    if OnHeadSide(d, path, n) {
      var i := FilePlace(d, path);
      FileAt(d, path, i);
      var j :| 0 <= j < |d[i].hunks| && HunkShows(d[i].hunks[j], n);
      var h := d[i].hunks[j];
      var k :| 0 <= k < |h.lines| && h.lines[k].kind != D.Del && h.lines[k].newNo == Some(n);
      assert d[i].hunks[j].lines[k].newNo == Some(n);
    }
  }

  predicate ValidEnd(d: D.DiffSet, f: Finding) {
    f.endLine.None? || (f.startLine <= f.endLine.value && OnHeadSide(d, f.file, f.endLine.value))
  }

  function Trimmed(d: D.DiffSet, f: Finding): Finding {
    if ValidEnd(d, f) then f else f.(endLine := None)
  }

  predicate Quiet(f: Finding, inlineMin: Severity) {
    f.severity.Rank() < inlineMin.Rank()
  }

  predicate Eligible(d: D.DiffSet, inlineMin: Severity, f: Finding) {
    OnHeadSide(d, f.file, f.startLine) && !Quiet(f, inlineMin)
  }

  // ---- the ranking ----

  /** Strings by code points, which is the order of their UTF-8 bytes. */
  predicate StringLess(a: string, b: string) {
    b != "" && (a == "" || a[0] < b[0] || (a[0] == b[0] && StringLess(a[1..], b[1..])))
  }

  /** The first difference decides: a smaller character, or the end of `a`. */
  ghost predicate Lexicographic(a: string, b: string) {
    exists p :: 0 <= p < |b| && p <= |a| && a[..p] == b[..p] && (p == |a| || a[p] < b[p])
  }

  lemma {:induction false} StringLessExactly(a: string, b: string)
    ensures StringLess(a, b) <==> Lexicographic(a, b)
    decreases |a|
  {
    if a != "" && b != "" && a[0] == b[0] {
      StringLessExactly(a[1..], b[1..]);
      if Lexicographic(a[1..], b[1..]) {
        var p :| 0 <= p < |b[1..]| && p <= |a[1..]| && a[1..][..p] == b[1..][..p]
          && (p == |a[1..]| || a[1..][p] < b[1..][p]);
        SameHead(a, b, p);
      }
      if Lexicographic(a, b) {
        var p :| 0 <= p < |b| && p <= |a| && a[..p] == b[..p] && (p == |a| || a[p] < b[p]);
        assert a[1..][..p - 1] == a[..p][1..] && b[1..][..p - 1] == b[..p][1..];
      }
    } else if a != "" && b != "" {
      if Lexicographic(a, b) { FirstDiffers(a, b); }
      if a[0] < b[0] { assert a[..0] == b[..0]; }
    } else if b != "" {
      assert a[..0] == b[..0];
    }
  }

  lemma SameHead(a: string, b: string, p: nat)
    requires a != "" && b != "" && a[0] == b[0] && p < |b| - 1 && p <= |a| - 1 && a[1..][..p] == b[1..][..p]
    requires p == |a| - 1 || a[p + 1] < b[p + 1]
    ensures Lexicographic(a, b)
  {
    assert a[..p + 1] == [a[0]] + a[1..][..p] && b[..p + 1] == [b[0]] + b[1..][..p];
  }

  lemma FirstDiffers(a: string, b: string)
    requires a != "" && b != "" && a[0] != b[0] && Lexicographic(a, b)
    ensures a[0] < b[0]
  {
    var p :| 0 <= p < |b| && p <= |a| && a[..p] == b[..p] && (p == |a| || a[p] < b[p]);
    if p > 0 { HeadOfPrefix(a, b, p); }
  }

  lemma HeadOfPrefix(a: string, b: string, p: int)
    requires 0 < p <= |a| && p <= |b| && a[..p] == b[..p]
    ensures a[0] == b[0]
  {
    assert a[..p][0] == b[..p][0];
  }

  /** More severe first, then by file, then by line. */
  predicate Outranks(a: Finding, b: Finding) {
    || a.severity.Rank() > b.severity.Rank()
    || (a.severity == b.severity
        && (StringLess(a.file, b.file) || (a.file == b.file && a.startLine < b.startLine)))
  }

  lemma {:induction false} StringLessAsymmetric(a: string, b: string)
    requires StringLess(a, b)
    ensures a != b && !StringLess(b, a)
    decreases |a|
  {
    if a != "" && a[0] == b[0] { StringLessAsymmetric(a[1..], b[1..]); }
  }

  lemma {:induction false} StringsCompare(a: string, b: string)
    ensures StringLess(a, b) || a == b || StringLess(b, a)
    decreases |a|
  {
    if a != "" && b != "" && a[0] == b[0] {
      StringsCompare(a[1..], b[1..]);
      assert a == [a[0]] + a[1..] && b == [b[0]] + b[1..];
    }
  }

  lemma {:induction false} StringLessTransitive(a: string, b: string, c: string)
    requires StringLess(a, b) && StringLess(b, c)
    ensures StringLess(a, c)
    decreases |a|
  {
    if a != "" && a[0] == b[0] == c[0] { StringLessTransitive(a[1..], b[1..], c[1..]); }
  }

  lemma OutranksAsymmetric(a: Finding, b: Finding)
    requires Outranks(a, b)
    ensures !Outranks(b, a)
  {
    if StringLess(a.file, b.file) { StringLessAsymmetric(a.file, b.file); }
    if StringLess(b.file, a.file) { StringLessAsymmetric(b.file, a.file); }
  }

  lemma NotLessTransitive(a: string, b: string, c: string)
    requires StringLess(a, c)
    ensures StringLess(a, b) || StringLess(b, c)
  {
    StringsCompare(a, b);
    if StringLess(b, a) { StringLessTransitive(b, a, c); }
  }

  /** Whatever outranks something outranks, or is tied with, everything in between. */
  lemma OutranksSplits(a: Finding, b: Finding, c: Finding)
    requires Outranks(a, c)
    ensures Outranks(a, b) || Outranks(b, c)
  {
    StringsCompare(a.file, b.file);
    StringsCompare(b.file, c.file);
    if StringLess(a.file, c.file) { NotLessTransitive(a.file, b.file, c.file); }
  }

  /** `x` comes before `y` in a stable sort by rank. */
  predicate Comes(fs: seq<Finding>, x: nat, y: nat)
    requires x < |fs| && y < |fs|
  {
    !Outranks(fs[y], fs[x]) && (Outranks(fs[x], fs[y]) || x < y)
  }

  predicate Ordered(fs: seq<Finding>, o: seq<nat>)
    requires Below(o, |fs|)
    decreases |o|
  {
    o == [] || (Ordered(fs, Front(o)) && forall x :: x in Front(o) ==> Comes(fs, x, Last(o)))
  }

  function Insert(fs: seq<Finding>, i: nat, o: seq<nat>): (r: seq<nat>)
    requires i < |fs| && Below(o, |fs|)
    ensures |r| == |o| + 1 && forall x :: x in r <==> x in o || x == i
    decreases |o|
  {
    if o == [] || !Outranks(fs[i], fs[Last(o)]) then o + [i] else Insert(fs, i, Front(o)) + [Last(o)]
  }

  /** The eligible positions below `n`, ranked. */
  function RankOrder(d: D.DiffSet, inlineMin: Severity, fs: seq<Finding>, n: nat): (r: seq<nat>)
    requires n <= |fs|
    ensures forall x: nat :: x in r <==> x < n && Eligible(d, inlineMin, fs[x])
  {
    if n == 0 then []
    else
      var o := RankOrder(d, inlineMin, fs, n - 1);
      if Eligible(d, inlineMin, fs[n - 1]) then Insert(fs, n - 1, o) else o
  }

  lemma {:induction false} RankOrderShort(d: D.DiffSet, inlineMin: Severity, fs: seq<Finding>, n: nat)
    requires n <= |fs|
    ensures |RankOrder(d, inlineMin, fs, n)| <= n
  {
    if n > 0 { RankOrderShort(d, inlineMin, fs, n - 1); }
  }

  /** The positions shown inline: the first `max` by rank. */
  function Inline(d: D.DiffSet, inlineMin: Severity, fs: seq<Finding>, max: nat): (r: seq<nat>)
    ensures |r| <= max && forall x :: x in r ==> x < |fs| && Eligible(d, inlineMin, fs[x])
  {
    var o := RankOrder(d, inlineMin, fs, |fs|);
    if |o| <= max then o else
      assert forall x :: x in o[..max] ==> x in o;
      o[..max]
  }

  lemma {:induction false} InsertOrdered(fs: seq<Finding>, i: nat, o: seq<nat>)
    requires i < |fs| && Below(o, i) && Ordered(fs, o)
    ensures Ordered(fs, Insert(fs, i, o))
    decreases |o|
  {
    if o == [] || !Outranks(fs[i], fs[Last(o)]) {
      forall x | x in o ensures Comes(fs, x, i) {
        if Outranks(fs[i], fs[x]) { OutranksSplits(fs[i], fs[Last(o)], fs[x]); }
      }
      Unsnoc(o, i);
    } else {
      InsertOrdered(fs, i, Front(o));
      OutranksAsymmetric(fs[i], fs[Last(o)]);
      Unsnoc(Insert(fs, i, Front(o)), Last(o));
    }
  }

  lemma {:induction false} RankOrderOrdered(d: D.DiffSet, inlineMin: Severity, fs: seq<Finding>, n: nat)
    requires n <= |fs|
    ensures Ordered(fs, RankOrder(d, inlineMin, fs, n))
    decreases n
  {
    if n > 0 {
      RankOrderOrdered(d, inlineMin, fs, n - 1);
      if Eligible(d, inlineMin, fs[n - 1]) { InsertOrdered(fs, n - 1, RankOrder(d, inlineMin, fs, n - 1)); }
    }
  }

  /** Whatever a prefix leaves out comes after everything in it. */
  lemma {:induction false} PrefixFirst(fs: seq<Finding>, o: seq<nat>, m: nat, i: nat, j: nat)
    requires Below(o, |fs|) && Ordered(fs, o) && m <= |o| && i in o && i !in o[..m] && j in o[..m]
    ensures j in o && Comes(fs, j, i)
    decreases |o|
  {
    assert o[..m] <= o;
    assert o[..|o|] == o;
    assert Front(o)[..m] == o[..m];
    if i != Last(o) { PrefixFirst(fs, Front(o), m, i, j); }
  }

  /** The cap is fair: an eligible finding that is not shown inline gave way to `max` findings that come
      before it by rank. */
  lemma InlineAreFirst(d: D.DiffSet, inlineMin: Severity, fs: seq<Finding>, max: nat, i: nat)
    requires i < |fs| && Eligible(d, inlineMin, fs[i]) && i !in Inline(d, inlineMin, fs, max)
    ensures |Inline(d, inlineMin, fs, max)| == max
    ensures forall j :: j in Inline(d, inlineMin, fs, max) ==> Comes(fs, j, i)
  {
    var o := RankOrder(d, inlineMin, fs, |fs|);
    RankOrderOrdered(d, inlineMin, fs, |fs|);
    assert i in o;
    forall j | j in Inline(d, inlineMin, fs, max) ensures Comes(fs, j, i) { PrefixFirst(fs, o, max, i, j); }
  }

  /** Lists whose findings differ in their end lines at most. */
  predicate SameButEnds(fs: seq<Finding>, gs: seq<Finding>) {
    |fs| == |gs| && forall k :: 0 <= k < |fs| ==> fs[k] == gs[k].(endLine := fs[k].endLine)
  }

  lemma {:induction false} InsertIgnoresEnds(fs: seq<Finding>, gs: seq<Finding>, i: nat, o: seq<nat>)
    requires SameButEnds(fs, gs) && i < |fs| && Below(o, |fs|)
    ensures Insert(fs, i, o) == Insert(gs, i, o)
    decreases |o|
  {
    if o != [] { InsertIgnoresEnds(fs, gs, i, Front(o)); }
  }

  lemma {:induction false} RankOrderIgnoresEnds(d: D.DiffSet, inlineMin: Severity, fs: seq<Finding>, gs: seq<Finding>,
                                                n: nat)
    requires SameButEnds(fs, gs) && n <= |fs|
    ensures RankOrder(d, inlineMin, fs, n) == RankOrder(d, inlineMin, gs, n)
    decreases n
  {
    if n > 0 {
      RankOrderIgnoresEnds(d, inlineMin, fs, gs, n - 1);
      if Eligible(d, inlineMin, fs[n - 1]) {
        InsertIgnoresEnds(fs, gs, n - 1, RankOrder(d, inlineMin, fs, n - 1));
      }
    }
  }

  /** Dropping end lines changes no placement. */
  lemma InlineIgnoresEnds(d: D.DiffSet, inlineMin: Severity, fs: seq<Finding>, gs: seq<Finding>, max: nat)
    requires SameButEnds(fs, gs)
    ensures Inline(d, inlineMin, fs, max) == Inline(d, inlineMin, gs, max)
  {
    RankOrderIgnoresEnds(d, inlineMin, fs, gs, |fs|);
  }

  // ---- placing ----

  datatype Anchored = Anchored(finding: Finding, inline: bool, quiet: bool)

  /** The finding at `j` is to be shown inline before the one at `i`: it is more severe, or as severe and
      earlier by file, by line or by position. */
  ghost predicate Before(fs: seq<Finding>, j: nat, i: nat)
    requires j < |fs| && i < |fs|
  {
    var a, b := fs[j], fs[i];
    || a.severity.Rank() > b.severity.Rank()
    || (a.severity.Rank() == b.severity.Rank()
        && (Lexicographic(a.file, b.file)
            || (a.file == b.file && (a.startLine < b.startLine || (a.startLine == b.startLine && j < i)))))
  }

  lemma ComesBefore(fs: seq<Finding>, j: nat, i: nat)
    requires j < |fs| && i < |fs| && Comes(fs, j, i)
    ensures Before(fs, j, i)
  {
    StringLessExactly(fs[j].file, fs[i].file);
    StringLessExactly(fs[i].file, fs[j].file);
    StringsCompare(fs[j].file, fs[i].file);
    SameRankSame(fs[j].severity, fs[i].severity);
  }

  lemma SameRankSame(a: Severity, b: Severity)
    ensures a == b <==> a.Rank() == b.Rank()
  {
  }

  /** The finding may be shown inline. */
  ghost predicate MayInline(d: D.DiffSet, inlineMin: Severity, f: Finding) {
    Shown(d, f.file, f.startLine) && inlineMin.Rank() <= f.severity.Rank()
  }

  /** How one item comes from its finding: an end line that is before the start or not shown is dropped,
      nothing else changes, and only a finding that is severe enough and shown may be inline. */
  ghost predicate Placed(d: D.DiffSet, inlineMin: Severity, f: Finding, item: Anchored) {
    && item.finding == f.(endLine := item.finding.endLine)
    && item.finding.endLine ==
       (if f.endLine.Some? && f.startLine <= f.endLine.value && Shown(d, f.file, f.endLine.value) then f.endLine
        else None)
    && (item.quiet <==> f.severity.Rank() < inlineMin.Rank())
    && (item.inline ==> MayInline(d, inlineMin, f))
  }

  function InlinePlaces(items: seq<Anchored>): set<nat> {
    set k: nat | k < |items| && items[k].inline
  }

  /** At most `max` findings are inline, and one that may be and is not gave way to `max` others that come
      before it. */
  ghost predicate Fair(d: D.DiffSet, inlineMin: Severity, fs: seq<Finding>, max: nat, items: seq<Anchored>) {
    && |items| == |fs| && |InlinePlaces(items)| <= max
    && forall i: nat :: i < |fs| && !items[i].inline && MayInline(d, inlineMin, fs[i]) ==>
         |InlinePlaces(items)| == max && forall j: nat :: j < |fs| && items[j].inline ==> Before(fs, j, i)
  }

  lemma PlacedItem(d: D.DiffSet, inlineMin: Severity, f: Finding, inline: bool)
    requires inline ==> Eligible(d, inlineMin, f)
    ensures Placed(d, inlineMin, f, Anchored(Trimmed(d, f), inline, Quiet(f, inlineMin)))
  {
    OnHeadSideExactly(d, f.file, f.startLine);
    if f.endLine.Some? { OnHeadSideExactly(d, f.file, f.endLine.value); }
  }

  lemma InlineDistinct(d: D.DiffSet, inlineMin: Severity, fs: seq<Finding>, max: nat)
    ensures var o := Inline(d, inlineMin, fs, max); forall a, b :: 0 <= a < b < |o| ==> o[a] != o[b]
  {
    RankOrderOrdered(d, inlineMin, fs, |fs|);
    OrderedDistinct(fs, RankOrder(d, inlineMin, fs, |fs|));
  }

  lemma FairlyPlaced(d: D.DiffSet, inlineMin: Severity, fs: seq<Finding>, max: nat, items: seq<Anchored>)
    requires |items| == |fs|
    requires forall k :: 0 <= k < |fs| ==> (items[k].inline <==> k in Inline(d, inlineMin, fs, max))
    ensures Fair(d, inlineMin, fs, max, items)
  {
    var o := Inline(d, inlineMin, fs, max);
    InlineDistinct(d, inlineMin, fs, max);
    CountDistinct(o, InlinePlaces(items));
    forall i: nat | i < |fs| && !items[i].inline && MayInline(d, inlineMin, fs[i])
      ensures |o| == max && forall j: nat :: j < |fs| && items[j].inline ==> Before(fs, j, i)
    {
      OnHeadSideExactly(d, fs[i].file, fs[i].startLine);
      InlineAreFirst(d, inlineMin, fs, max, i);
      forall j: nat | j < |fs| && items[j].inline ensures Before(fs, j, i) { ComesBefore(fs, j, i); }
    }
  }

  /** `anchor`: one item a finding, in order, its end line kept only if it is valid. */
  method Anchor(d: D.DiffSet, fs: seq<Finding>, max: nat, inlineMin: Severity) returns (items: seq<Anchored>)
    ensures |items| == |fs|
    ensures forall k :: 0 <= k < |fs| ==>
      items[k] == Anchored(Trimmed(d, fs[k]), k in Inline(d, inlineMin, fs, max), Quiet(fs[k], inlineMin))
    ensures forall k :: 0 <= k < |fs| ==> Placed(d, inlineMin, fs[k], items[k])
    ensures Fair(d, inlineMin, fs, max, items)
  {
    items := seq(|fs|, k requires 0 <= k < |fs| =>
      Anchored(Trimmed(d, fs[k]), OnHeadSide(d, fs[k].file, fs[k].startLine), false));
    for k := 0 to |fs|
      invariant |items| == |fs|
      invariant forall j :: 0 <= j < k ==> items[j] == Ranked(d, inlineMin, fs[j])
      invariant forall j :: k <= j < |fs| ==>
        items[j] == Anchored(Trimmed(d, fs[j]), OnHeadSide(d, fs[j].file, fs[j].startLine), false)
    {
      if Quiet(items[k].finding, inlineMin) {
        items := items[k := items[k].(inline := false, quiet := true)];
      }
    }
    items := CapInline(d, items, fs, max, inlineMin);
    forall k | 0 <= k < |fs| ensures Placed(d, inlineMin, fs[k], items[k]) {
      PlacedItem(d, inlineMin, fs[k], items[k].inline);
    }
    FairlyPlaced(d, inlineMin, fs, max, items);
  }

  /** The item before the cap. */
  function Ranked(d: D.DiffSet, inlineMin: Severity, f: Finding): Anchored {
    Anchored(Trimmed(d, f), Eligible(d, inlineMin, f), Quiet(f, inlineMin))
  }

  /** The loop that sends everything ranked beyond the cap to the summary. */
  method CapInline(d: D.DiffSet, ranked: seq<Anchored>, fs: seq<Finding>, max: nat, inlineMin: Severity)
    returns (items: seq<Anchored>)
    requires |ranked| == |fs| && forall k :: 0 <= k < |fs| ==> ranked[k] == Ranked(d, inlineMin, fs[k])
    ensures |items| == |fs|
    ensures forall k :: 0 <= k < |fs| ==> items[k] == ranked[k].(inline := k in Inline(d, inlineMin, fs, max))
  {
    items := ranked;
    var order := RankOrder(d, inlineMin, fs, |fs|);
    for rank := 0 to |order|
      invariant |items| == |fs|
      invariant forall k :: 0 <= k < |fs| ==> items[k] == ranked[k].(inline := items[k].inline)
      invariant forall k :: 0 <= k < |fs| ==> (items[k].inline <==> ranked[k].inline && !BeyondCap(order, max, rank, k))
    {
      assert order[rank] in order;
      if rank >= max {
        items := items[order[rank] := items[order[rank]].(inline := false)];
      }
    }
    RankOrderOrdered(d, inlineMin, fs, |fs|);
    forall k: nat | k < |fs| ensures items[k].inline <==> k in Inline(d, inlineMin, fs, max) {
      CapSplits(fs, order, max, k);
    }
  }

  /** `x` has one of the ranks from the cap up to `rank`. */
  predicate BeyondCap(order: seq<nat>, max: nat, rank: nat, x: nat) {
    exists r :: max <= r < rank && r < |order| && order[r] == x
  }

  lemma {:induction false} OrderedDistinct(fs: seq<Finding>, o: seq<nat>)
    requires Below(o, |fs|) && Ordered(fs, o)
    ensures forall a, b :: 0 <= a < b < |o| ==> o[a] != o[b]
    decreases |o|
  {
    if o != [] {
      OrderedDistinct(fs, Front(o));
      forall a | 0 <= a < |o| - 1 ensures o[a] != Last(o) {
        assert o[a] == Front(o)[a];
        assert o[a] in Front(o);
      }
      assert forall a :: 0 <= a < |o| - 1 ==> o[a] == Front(o)[a];
    }
  }

  lemma CapSplits(fs: seq<Finding>, o: seq<nat>, max: nat, x: nat)
    requires Below(o, |fs|) && Ordered(fs, o)
    ensures (x in if |o| <= max then o else o[..max]) <==> x in o && !BeyondCap(o, max, |o|, x)
  {
    OrderedDistinct(fs, o);
    if x in o {
      var a :| 0 <= a < |o| && o[a] == x;
      if a < max && max < |o| { assert o[..max][a] == x; }
    }
  }
}
