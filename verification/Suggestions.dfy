/** Suggested replacements of added lines: the check a validator's suggestion has to pass
    (`checked_suggestion`, src/findings.rs), and what the comment shows of one that does (src/report.rs). */
module Suggestions {
  import opened Wrappers
  import opened TextOps
  import opened Findings
  import opened CodeSpans
  import opened FencedBlocks
  import A = Anchoring
  import B = DiffBudget
  import D = UnifiedDiff

  datatype Suggestion = Suggestion(startLine: nat, endLine: nat, original: string, replacement: string)

  // ---- the check ----

  /** The suggestion is for exactly the finding's lines, and is small and not empty. */
  predicate Fits(f: Finding, s: Suggestion) {
    && f.verdict == Some(Accepted)
    && s.startLine != 0 && s.startLine <= s.endLine && s.endLine - s.startLine < 10
    && s.startLine == f.startLine && s.endLine == f.End()
    && s.replacement != "" && B.Bytes(s.replacement) <= 2000 && |Lines(s.replacement)| <= 20
  }

  predicate Harmless(redact: string -> string, text: string) {
    && '\0' !in text && '\r' !in text
    && (forall i :: 0 <= i < |text| ==> !OpenerAt(text, i))
    && redact(text) == text
  }

  predicate AddsLine(h: D.Hunk, n: nat) {
    exists k :: 0 <= k < |h.lines| && h.lines[k].newNo == Some(n) && h.lines[k].kind == D.Add
  }

  predicate AddsAll(h: D.Hunk, first: nat, last: nat) {
    forall n: nat :: first <= n <= last ==> AddsLine(h, n)
  }

  /** Some hunk of the file, under its new name, adds all these lines. */
  predicate Added(d: D.DiffSet, path: string, first: nat, last: nat) {
    var file := A.FileOf(d, path);
    file.Some? && file.value.newPath == path
    && exists j :: 0 <= j < |file.value.hunks| && AddsAll(file.value.hunks[j], first, last)
  }

  /** `str::split_inclusive` at line feeds. */
  function Split(text: string): (lines: seq<string>)
    decreases |text|
  {
    if text == "" then []
    else
      var i := FirstWhere(text, c => c == '\n');
      if i == |text| then [text] else [text[..i + 1]] + Split(text[i + 1..])
  }

  function Concat(lines: seq<string>): string {
    if lines == [] then "" else lines[0] + Concat(lines[1..])
  }

  /** `head` is the file at the reviewed commit; what counts as a sensitive path is left open. */
  function Checked(f: Finding, s: Suggestion, d: D.DiffSet, head: string, redact: string -> string,
                   sensitive: string -> bool): Option<Suggestion>
  {
    if !Fits(f, s) || !Harmless(redact, s.original) || !Harmless(redact, s.replacement) || sensitive(f.file) then None
    else if !Added(d, f.file, s.startLine, s.endLine) then None
    else
      var lines := Split(head);
      if s.endLine > |lines| || Concat(lines[s.startLine - 1..s.endLine]) != s.original then None else Some(s)
  }

  // ---- what the comment shows ----

  /** The part of a comment's body for the suggestion. */
  function BodyPart(f: Finding, s: Option<Suggestion>): string {
    if f.verdict == Some(Accepted) && s.Some? && s.value.startLine == f.startLine && s.value.endLine == f.End()
    then "\n" + SuggestionBlock(s.value.replacement) else ""
  }

  /** Anchoring keeps the range of a finding whose suggestion passed, so its comment stands on exactly
      the suggested lines and shows the suggestion; and it may stand inline unless it is not severe enough. */
  lemma PassedIsShown(f: Finding, s: Suggestion, d: D.DiffSet, head: string, redact: string -> string,
                      sensitive: string -> bool, inlineMin: Severity)
    requires Checked(f, s, d, head, redact, sensitive).Some?
    ensures A.Trimmed(d, f) == f && f.startLine == s.startLine && f.End() == s.endLine
    ensures A.Eligible(d, inlineMin, f) <==> !A.Quiet(f, inlineMin)
    ensures BodyPart(A.Trimmed(d, f), Checked(f, s, d, head, redact, sensitive))
      == "\n" + SuggestionBlock(s.replacement)
  {
    AddedIsOnHeadSide(d, f.file, s.startLine, s.endLine, s.startLine);
    AddedIsOnHeadSide(d, f.file, s.startLine, s.endLine, s.endLine);
  }

  lemma AddedIsOnHeadSide(d: D.DiffSet, path: string, first: nat, last: nat, n: nat)
    requires Added(d, path, first, last) && first <= n <= last
    ensures A.OnHeadSide(d, path, n)
  {
    var file := A.FileOf(d, path).value;
    var j :| 0 <= j < |file.hunks| && AddsAll(file.hunks[j], first, last);
    assert AddsLine(file.hunks[j], n);
    assert A.HunkShows(file.hunks[j], n);
  }

  /** The block it is shown in reads back as exactly the lines of the replacement, whatever follows it. */
  lemma PassedReadsBack(f: Finding, s: Suggestion, d: D.DiffSet, head: string, redact: string -> string,
                        sensitive: string -> bool, rest: string)
    requires Checked(f, s, d, head, redact, sensitive).Some?
    ensures ReadBlock(DocumentLines(BodyPart(f, Checked(f, s, d, head, redact, sensitive))[1..] + rest))
      == Some(Block(DocumentLines(s.replacement), DocumentLines(rest)))
  {
    assert ("\n" + SuggestionBlock(s.replacement))[1..] == SuggestionBlock(s.replacement);
    SuggestionRoundTrip(s.replacement, rest);
  }

  // ---- what it replaces ----

  /** Lines as they come out of splitting: a line feed at the end of each, except perhaps the last, and
      nowhere else. */
  ghost predicate WholeLines(lines: seq<string>) {
    forall k :: 0 <= k < |lines| ==> OneLine(lines[k]) && (k < |lines| - 1 ==> Fed(lines[k]))
  }

  predicate OneLine(l: string) {
    l != "" && '\n' !in l[..|l| - 1]
  }

  predicate Fed(l: string) {
    l != "" && l[|l| - 1] == '\n'
  }

  lemma SplitStep(text: string)
    requires text != ""
    ensures Split(text) == [Split(text)[0]] + Split(text[|Split(text)[0]|..])
    ensures Split(text)[0] != "" && Split(text)[0] <= text && OneLine(Split(text)[0])
    ensures |Split(text)[0]| < |text| ==> Fed(Split(text)[0])
  {
  }

  lemma ConcatCons(l: string, rest: seq<string>)
    ensures Concat([l] + rest) == l + Concat(rest)
  {
  }

  lemma {:induction false} SplitParts(text: string)
    ensures Concat(Split(text)) == text && WholeLines(Split(text))
    decreases |text|
  {
    if text != "" {
      var l := Split(text)[0];
      SplitStep(text);
      SplitParts(text[|l|..]);
      ConcatCons(l, Split(text[|l|..]));
    }
  }

  lemma ConcatSplices(lines: seq<string>, a: seq<string>, b: seq<string>)
    requires a != [] && lines == a + b
    ensures lines != [] && lines[0] == a[0] && lines[1..] == a[1..] + b
  {
  }

  lemma {:induction false} ConcatAppend(lines: seq<string>, a: seq<string>, b: seq<string>)
    requires lines == a + b
    ensures Concat(lines) == Concat(a) + Concat(b)
    decreases |a|
  {
    if a == [] {
      assert lines == b;
    } else {
      ConcatSplices(lines, a, b);
      ConcatAppend(lines[1..], a[1..], b);
    }
  }

  lemma SplitFirst(text: string, line: string, rest: string)
    requires text == line + rest && OneLine(line) && (Fed(line) || rest == "")
    ensures Split(text) == [line] + Split(rest)
  {
    var n := |line| - 1;
    assert forall j :: 0 <= j < n ==> text[j] == line[..n][j] && line[..n][j] in line[..n];
    if Fed(line) {
      FirstWhereIs(text, c => c == '\n', n);
      assert text[..n + 1] == line && text[n + 1..] == rest;
    } else {
      FirstWhereIs(text, c => c == '\n', n + 1);
      assert text == line;
    }
  }

  /** Such lines, put together, split into themselves. */
  lemma {:induction false} SplitOfConcat(lines: seq<string>)
    requires WholeLines(lines)
    ensures Split(Concat(lines)) == lines
  {
    if lines != [] {
      SplitOfConcat(lines[1..]);
      SplitFirst(Concat(lines), lines[0], Concat(lines[1..]));
    }
  }

  lemma Slices<T>(xs: seq<T>, a: nat, b: nat)
    requires a <= b <= |xs|
    ensures xs == xs[..b] + xs[b..] && xs[..b] == xs[..a] + xs[a..b]
  {
  }

  lemma ThreeParts(lines: seq<string>, a: nat, b: nat)
    requires a <= b <= |lines|
    ensures Concat(lines) == Concat(lines[..a]) + Concat(lines[a..b]) + Concat(lines[b..])
  {
    Slices(lines, a, b);
    ConcatAppend(lines[..b], lines[..a], lines[a..b]);
    ConcatAppend(lines, lines[..b], lines[b..]);
  }

  /** What a passing suggestion replaces is in the file, whole lines at exactly the place it names: the
      file is what comes before, those lines, and what comes after. */
  lemma PassedReplacesLines(f: Finding, s: Suggestion, d: D.DiffSet, head: string, redact: string -> string,
                            sensitive: string -> bool)
    requires Checked(f, s, d, head, redact, sensitive).Some?
    ensures s.endLine <= |Split(head)|
    ensures head == Concat(Split(head)[..s.startLine - 1]) + s.original + Concat(Split(head)[s.endLine..])
    ensures Split(s.original) == Split(head)[s.startLine - 1..s.endLine]
  {
    QuotedIs(head, Split(head), s.original, s.startLine, s.endLine);
  }

  lemma QuotedIs(head: string, lines: seq<string>, original: string, first: nat, last: nat)
    requires lines == Split(head) && 1 <= first <= last <= |lines| && original == Concat(lines[first - 1..last])
    ensures head == Concat(lines[..first - 1]) + original + Concat(lines[last..])
    ensures Split(original) == lines[first - 1..last]
  {
    SplitParts(head);
    ThreeParts(lines, first - 1, last);
    PartSplits(lines, first - 1, last);
  }

  // ---- when a suggestion passes ----

  /** How many line feeds there are. */
  ghost function Feeds(s: string): nat {
    if s == "" then 0 else (if s[0] == '\n' then 1 else 0) + Feeds(s[1..])
  }

  lemma {:induction false} FeedsAppend(a: string, b: string)
    ensures Feeds(a + b) == Feeds(a) + Feeds(b)
  {
    if a == "" {
      assert a + b == b;
    } else {
      FeedsAppend(a[1..], b);
      assert (a + b)[1..] == a[1..] + b;
    }
  }

  lemma {:induction false} NoFeeds(s: string)
    requires '\n' !in s
    ensures Feeds(s) == 0
  {
    if s != "" { NoFeeds(s[1..]); }
  }

  lemma FeedsOfLine(l: string)
    requires OneLine(l)
    ensures Feeds(l) == if Fed(l) then 1 else 0
  {
    var n := |l| - 1;
    NoFeeds(l[..n]);
    FeedsAppend(l[..n], [l[n]]);
    assert l[..n] + [l[n]] == l;
    assert Feeds([l[n]]) == (if l[n] == '\n' then 1 else 0) + Feeds([l[n]][1..]);
  }

  /** A text has a line for each line feed, and one more if it does not end in one. */
  lemma {:induction false} LinesByFeeds(text: string)
    ensures |Split(text)| == Feeds(text) + if text == "" || Fed(text) then 0 else 1
    decreases |text|
  {
    if text != "" {
      var l := Split(text)[0];
      SplitStep(text);
      FeedsFirst(text, l, text[|l|..]);
      LinesByFeeds(text[|l|..]);
      FedRest(text, l, text[|l|..]);
    }
  }

  lemma FeedsFirst(text: string, l: string, rest: string)
    requires OneLine(l) && l <= text && rest == text[|l|..]
    ensures Feeds(text) == Feeds(rest) + if Fed(l) then 1 else 0
  {
    FeedsOfLine(l);
    FeedsAppend(l, rest);
    assert text == l + rest;
  }

  lemma FedRest(text: string, l: string, rest: string)
    requires OneLine(l) && l <= text && rest == text[|l|..]
    ensures rest == "" ==> (Fed(text) <==> Fed(l))
    ensures rest != "" ==> (Fed(text) <==> Fed(rest))
  {
  }

  /** Every line but the last of a text is fed; the last one is if the text ends in a line feed. */
  lemma {:induction false} AllFed(text: string)
    requires text == "" || Fed(text)
    ensures forall k :: 0 <= k < |Split(text)| ==> Fed(Split(text)[k])
    decreases |text|
  {
    if text != "" {
      var l := Split(text)[0];
      SplitStep(text);
      FedRest(text, l, text[|l|..]);
      AllFed(text[|l|..]);
      FedFirst(Split(text), l, Split(text[|l|..]));
    }
  }

  lemma FedFirst(lines: seq<string>, l: string, rest: seq<string>)
    requires lines == [l] + rest && Fed(l) && forall k :: 0 <= k < |rest| ==> Fed(rest[k])
    ensures forall k :: 0 <= k < |lines| ==> Fed(lines[k])
  {
  }

  lemma SplitAppend(a: string, b: string)
    requires a == "" || Fed(a)
    ensures Split(a + b) == Split(a) + Split(b)
  {
    SplitParts(a);
    SplitParts(b);
    AllFed(a);
    ConcatAppend(Split(a) + Split(b), Split(a), Split(b));
    SplitOfConcat(Split(a) + Split(b));
  }

  /** The original is whole lines of the file, from line `first` to line `last`. */
  ghost predicate Quotes(head: string, original: string, first: nat, last: nat) {
    exists before, after :: QuotesAt(head, before, original, after, first, last)
  }

  ghost predicate QuotesAt(head: string, before: string, original: string, after: string, first: nat, last: nat) {
    && head == before + original + after
    && (before == "" || Fed(before)) && Feeds(before) + 1 == first
    && original != "" && (Fed(original) || after == "")
    && first + Feeds(original) == last + if Fed(original) then 1 else 0
  }

  lemma QuotedLines(head: string, before: string, original: string, after: string, first: nat, last: nat)
    requires QuotesAt(head, before, original, after, first, last)
    ensures 1 <= first <= last <= |Split(head)| && Concat(Split(head)[first - 1..last]) == original
  {
    LinesByFeeds(before);
    LinesByFeeds(original);
    SplitThree(head, before, original, after);
    Middle(Split(head), Split(before), Split(original), Split(after));
    SplitParts(original);
  }

  lemma SplitThree(head: string, before: string, original: string, after: string)
    requires head == before + original + after && (before == "" || Fed(before)) && (Fed(original) || after == "")
    ensures Split(head) == Split(before) + Split(original) + Split(after)
  {
    var rest := original + after;
    assert head == before + rest;
    SplitAppend(before, rest);
    SplitRest(original, after, rest);
    Regrouped(Split(before), Split(original), Split(after));
  }

  lemma SplitRest(original: string, after: string, rest: string)
    requires rest == original + after && (Fed(original) || after == "")
    ensures Split(rest) == Split(original) + Split(after)
  {
    if Fed(original) {
      SplitAppend(original, after);
    } else {
      assert rest == original;
      assert Split(after) == [];
    }
  }

  lemma Regrouped<T>(a: seq<T>, b: seq<T>, c: seq<T>)
    ensures a + (b + c) == a + b + c
  {
  }

  lemma Middle<T>(xs: seq<T>, a: seq<T>, b: seq<T>, c: seq<T>)
    requires xs == a + b + c
    ensures xs[|a|..|a| + |b|] == b
  {
  }

  lemma LinesQuoted(head: string, first: nat, last: nat)
    requires 1 <= first <= last <= |Split(head)|
    ensures Quotes(head, Concat(Split(head)[first - 1..last]), first, last)
  {
    var lines := Split(head);
    SplitParts(head);
    ThreeParts(lines, first - 1, last);
    BeforeQuoted(lines, first - 1, lines[..first - 1]);
    OriginalQuoted(lines, first - 1, last, lines[first - 1..last]);
    if last == |lines| { assert lines[last..] == []; }
    assert QuotesAt(head, Concat(lines[..first - 1]), Concat(lines[first - 1..last]), Concat(lines[last..]), first, last);
  }

  lemma BeforeQuoted(lines: seq<string>, b: nat, part: seq<string>)
    requires WholeLines(lines) && b < |lines| && part == lines[..b]
    ensures (Concat(part) == "" || Fed(Concat(part))) && Feeds(Concat(part)) == b
  {
    assert part == lines[0..b];
    PartSplits(lines, 0, b);
    LinesByFeeds(Concat(part));
  }

  lemma OriginalQuoted(lines: seq<string>, a: nat, b: nat, part: seq<string>)
    requires WholeLines(lines) && a < b <= |lines| && part == lines[a..b]
    ensures Concat(part) != "" && (b < |lines| ==> Fed(Concat(part)))
    ensures Feeds(Concat(part)) == b - a - if Fed(Concat(part)) then 0 else 1
  {
    PartSplits(lines, a, b);
    LinesByFeeds(Concat(part));
  }

  lemma PartSplits(lines: seq<string>, a: nat, b: nat)
    requires WholeLines(lines) && a <= b <= |lines|
    ensures Split(Concat(lines[a..b])) == lines[a..b]
    ensures a == b ==> Concat(lines[a..b]) == ""
    ensures a < b ==> Concat(lines[a..b]) != ""
    ensures a < b < |lines| ==> Fed(Concat(lines[a..b]))
  {
    PartIsWhole(lines, a, b, lines[a..b]);
    SplitOfConcat(lines[a..b]);
    if a < b { EndsAsLast(lines[a..b], lines[a..b - 1], lines[b - 1]); }
  }

  lemma PartIsWhole(lines: seq<string>, a: nat, b: nat, part: seq<string>)
    requires WholeLines(lines) && a <= b <= |lines| && part == lines[a..b]
    ensures WholeLines(part) && (a < b ==> lines[b - 1] != "") && (a < b < |lines| ==> Fed(lines[b - 1]))
  {
    forall k | 0 <= k < |part| ensures OneLine(part[k]) && (k < |part| - 1 ==> Fed(part[k])) {
      assert part[k] == lines[a + k];
    }
  }

  lemma EndsAsLast(part: seq<string>, front: seq<string>, l: string)
    requires part == front + [l] && l != ""
    ensures Concat(part) != "" && (Fed(Concat(part)) <==> Fed(l))
  {
    ConcatAppend(part, front, [l]);
    assert Concat([l]) == l + Concat([l][1..]);
  }

  /** Text that may be shown: no nulls or carriage returns, no comment opened, nothing to redact. */
  ghost predicate Clean(redact: string -> string, text: string) {
    && (forall k :: 0 <= k < |text| ==> text[k] != '\0' && text[k] != '\r')
    && (forall a, b :: text != a + "<!--" + b)
    && redact(text) == text
  }

  lemma HarmlessExactly(redact: string -> string, text: string)
    ensures Harmless(redact, text) <==> Clean(redact, text)
  {
    if i :| 0 <= i < |text| && OpenerAt(text, i) {
      assert text == text[..i] + "<!--" + text[i + 4..];
    }
    if a, b :| text == a + "<!--" + b {
      assert text[|a|..|a| + 4] == "<!--";
      assert OpenerAt(text, |a|);
    }
  }

  /** One hunk of the file of that new name has an added line with each of these numbers. */
  ghost predicate AddsLines(d: D.DiffSet, path: string, first: nat, last: nat) {
    exists i: nat, j: nat :: AddsAt(d, path, first, last, i, j)
  }

  ghost predicate AddsAt(d: D.DiffSet, path: string, first: nat, last: nat, i: nat, j: nat) {
    && A.IsFile(d, path, i) && d[i].newPath == path && j < |d[i].hunks|
    && forall n: nat :: first <= n <= last ==> HasAdded(d[i].hunks[j].lines, n)
  }

  ghost predicate HasAdded(lines: seq<D.Line>, n: nat) {
    exists k :: 0 <= k < |lines| && lines[k].kind == D.Add && lines[k].newNo == Some(n)
  }

  lemma AddsAllExactly(h: D.Hunk, first: nat, last: nat)
    ensures AddsAll(h, first, last) <==> forall n: nat :: first <= n <= last ==> HasAdded(h.lines, n)
  {
    forall n: nat ensures AddsLine(h, n) <==> HasAdded(h.lines, n) {}
  }

  lemma AddedExactly(d: D.DiffSet, path: string, first: nat, last: nat)
    ensures Added(d, path, first, last) <==> AddsLines(d, path, first, last)
  {
    if Added(d, path, first, last) {
      var i := A.FilePlace(d, path);
      A.FileAt(d, path, i);
      var j: nat :| j < |d[i].hunks| && AddsAll(d[i].hunks[j], first, last);
      AddsAllExactly(d[i].hunks[j], first, last);
      assert AddsAt(d, path, first, last, i, j);
    }
    if i: nat, j: nat :| AddsAt(d, path, first, last, i, j) {
      A.FileAt(d, path, i);
      AddsAllExactly(d[i].hunks[j], first, last);
    }
  }

  /** A suggestion passes exactly when it is for the lines of an accepted finding, at most ten of them, is
      small, not empty and clean, is not in a sensitive file, its lines are all added by one hunk, and its
      original is what those lines of the file are. */
  lemma PassesExactly(f: Finding, s: Suggestion, d: D.DiffSet, head: string, redact: string -> string,
                      sensitive: string -> bool)
    ensures Checked(f, s, d, head, redact, sensitive) == (if
      && f.verdict == Some(Accepted) && !sensitive(f.file)
      && 1 <= s.startLine <= s.endLine <= s.startLine + 9
      && s.startLine == f.startLine && s.endLine == (if f.endLine.Some? then f.endLine.value else f.startLine)
      && 1 <= |s.replacement| && B.Bytes(s.replacement) <= 2000 && |Lines(s.replacement)| <= 20
      && Clean(redact, s.original) && Clean(redact, s.replacement)
      && AddsLines(d, f.file, s.startLine, s.endLine)
      && Quotes(head, s.original, s.startLine, s.endLine)
      then Some(s) else None)
  {
    HarmlessExactly(redact, s.original);
    HarmlessExactly(redact, s.replacement);
    AddedExactly(d, f.file, s.startLine, s.endLine);
    if Quotes(head, s.original, s.startLine, s.endLine) {
      var before, after :| QuotesAt(head, before, s.original, after, s.startLine, s.endLine);
      QuotedLines(head, before, s.original, after, s.startLine, s.endLine);
    } else if 1 <= s.startLine <= s.endLine <= |Split(head)| {
      LinesQuoted(head, s.startLine, s.endLine);
    }
  }

  /** Nothing is shown of a suggestion that did not pass, or that is not for the finding's lines. */
  lemma NothingShown(f: Finding, s: Option<Suggestion>)
    requires s.None? || f.verdict != Some(Accepted) || s.value.startLine != f.startLine
      || s.value.endLine != if f.endLine.Some? then f.endLine.value else f.startLine
    ensures BodyPart(f, s) == ""
  {
  }
}
