/** Fenced blocks in published Markdown whose fence the text cannot close (src/report.rs), read by
    section 4.5 of CommonMark 0.31.2. */
module FencedBlocks {
  import opened Wrappers
  import opened TextOps
  import opened CodeSpans

  ghost predicate IsEnding(c: char) {
    c == '\n' || c == '\r'
  }

  /** How long the line ending at `i` is: a carriage return and the line feed after it are one. */
  ghost function EndingLength(s: string, i: nat): (n: nat)
    requires i < |s|
    ensures 1 <= n <= |s| - i
  {
    if s[i] == '\r' && i + 1 < |s| && s[i + 1] == '\n' then 2 else 1
  }

  ghost function LineEnd(s: string): (i: nat)
    ensures i <= |s|
  {
    FirstWhere(s, IsEnding)
  }

  /** The first line with its ending. */
  ghost function Cut(s: string): (n: nat)
    ensures n <= |s| && (s != "" ==> n > 0)
  {
    if LineEnd(s) == |s| then |s| else LineEnd(s) + EndingLength(s, LineEnd(s))
  }

  /** The lines of a document; a line ending at the very end opens no further line. */
  ghost function DocumentLines(s: string): seq<string>
    decreases |s|
  {
    if s == "" then [] else [s[..LineEnd(s)]] + DocumentLines(s[Cut(s)..])
  }

  ghost predicate EndsLine(s: string) {
    s != "" && s[|s| - 1] == '\n'
  }

  lemma FirstOfBoth(s: string, a: string, b: string)
    requires s == a + b && EndsLine(a)
    ensures s[..LineEnd(s)] == a[..LineEnd(a)] && Cut(s) == Cut(a) && s[Cut(s)..] == a[Cut(a)..] + b
    ensures a[Cut(a)..] == "" || EndsLine(a[Cut(a)..])
  {
    var i := LineEnd(a);
    assert IsEnding(a[|a| - 1]);
    assert i < |a|;
    FirstWhereIs(s, IsEnding, i);
  }

  lemma {:induction false} LinesOfBoth(s: string, a: string, b: string)
    requires s == a + b && (a == "" || EndsLine(a))
    ensures DocumentLines(s) == DocumentLines(a) + DocumentLines(b)
    decreases |a|
  {
    if a == "" {
      assert s == b;
    } else {
      FirstOfBoth(s, a, b);
      LinesOfBoth(s[Cut(s)..], a[Cut(a)..], b);
      Regroup(a[..LineEnd(a)], DocumentLines(a[Cut(a)..]), DocumentLines(b));
    }
  }

  lemma Regroup<T>(x: T, b: seq<T>, c: seq<T>)
    ensures [x] + (b + c) == [x] + b + c
  {
  }

  lemma LineThen(s: string, l: string, rest: string)
    requires s == l + "\n" + rest && forall k :: 0 <= k < |l| ==> !IsEnding(l[k])
    ensures DocumentLines(s) == [l] + DocumentLines(rest)
  {
    FirstWhereIs(s, IsEnding, |l|);
    assert s[..|l|] == l && s[|l| + 1..] == rest;
  }

  ghost function Indent(s: string): (n: nat)
    ensures n <= |s|
  {
    if s == "" || s[0] != ' ' then 0 else 1 + Indent(s[1..])
  }

  /** At most three spaces, at least `n` backticks, then only spaces and tabs. */
  ghost predicate Closes(line: string, n: nat) {
    var ticks := Ticks(line[Indent(line)..]);
    && Indent(line) <= 3 && ticks >= n
    && forall k :: Indent(line) + ticks <= k < |line| ==> line[k] == ' ' || line[k] == '\t'
  }

  ghost predicate All(s: string, cs: set<char>) {
    forall k :: 0 <= k < |s| ==> s[k] in cs
  }

  /** The line is at most three spaces, at least `n` backticks, and spaces and tabs. */
  ghost predicate ClosingLine(line: string, n: nat, indent: string, ticks: string, tail: string) {
    && line == indent + ticks + tail && |indent| <= 3 && |ticks| >= n
    && All(indent, {' '}) && All(ticks, {'`'}) && All(tail, {' ', '\t'})
  }

  lemma {:induction false} IndentIs(line: string, i: nat)
    requires i <= |line| && (i < |line| ==> line[i] != ' ') && forall k :: 0 <= k < i ==> line[k] == ' '
    ensures Indent(line) == i
  {
    if i > 0 { IndentIs(line[1..], i - 1); }
  }

  lemma {:induction false} IndentSpaces(line: string)
    ensures Indent(line) < |line| ==> line[Indent(line)] != ' '
    ensures forall k :: 0 <= k < Indent(line) ==> line[k] == ' '
  {
    if line != "" && line[0] == ' ' { IndentSpaces(line[1..]); }
  }

  lemma ClosesExactly(line: string, n: nat)
    requires n > 0
    ensures Closes(line, n) <==> exists indent, ticks, tail :: ClosingLine(line, n, indent, ticks, tail)
  {
    if Closes(line, n) {
      var i := Indent(line);
      ClosingParts(line, n, i, Ticks(line[i..]));
    }
    if indent, ticks, tail :| ClosingLine(line, n, indent, ticks, tail) {
      ClosingCloses(line, n, indent, ticks, tail);
    }
  }

  lemma ClosingParts(line: string, n: nat, i: nat, t: nat)
    requires Closes(line, n) && i == Indent(line) && t == Ticks(line[i..])
    ensures ClosingLine(line, n, line[..i], line[i..i + t], line[i + t..])
  {
    IndentSpaces(line);
    ThreeParts(line, i, i + t);
    TicksTaken(line, i, t);
    RestBlank(line, i + t);
  }

  lemma RestBlank(line: string, e: nat)
    requires e <= |line| && forall k :: e <= k < |line| ==> line[k] == ' ' || line[k] == '\t'
    ensures All(line[e..], {' ', '\t'})
  {
  }

  lemma TicksTaken(line: string, i: nat, t: nat)
    requires i <= |line| && t == Ticks(line[i..])
    ensures All(line[i..i + t], {'`'})
  {
    assert line[i..i + t] == line[i..][..t];
  }

  lemma ThreeParts(s: string, a: nat, b: nat)
    requires a <= b <= |s|
    ensures s == s[..a] + s[a..b] + s[b..]
  {
  }

  lemma ClosingCloses(line: string, n: nat, indent: string, ticks: string, tail: string)
    requires n > 0 && ClosingLine(line, n, indent, ticks, tail)
    ensures Closes(line, n)
  {
    assert line[|indent|] == ticks[0];
    IndentIs(line, |indent|);
    assert line[|indent|..] == ticks + tail;
    TicksAre(line[|indent|..], |ticks|);
    assert forall k :: |indent| + |ticks| <= k < |line| ==> line[k] == tail[k - |indent| - |ticks|];
  }

  ghost function FirstClosing(lines: seq<string>, n: nat): (i: nat)
    ensures i <= |lines|
  {
    if lines == [] || Closes(lines[0], n) then 0 else 1 + FirstClosing(lines[1..], n)
  }

  datatype Block = Block(content: seq<string>, rest: seq<string>)

  /** The fenced block a document starts with, and the lines after it; a block that is never closed
      runs to the end. */
  ghost function ReadBlock(lines: seq<string>): Option<Block> {
    if lines == [] || Ticks(lines[0]) < 3 || TICK in lines[0][Ticks(lines[0])..] then None
    else
      var n := Ticks(lines[0]);
      var c := FirstClosing(lines[1..], n);
      Some(Block(lines[1..][..c], if c == |lines| - 1 then [] else lines[1..][c + 1..]))
  }

  lemma {:induction false} RunOfPrefix(m: string, k: nat)
    requires k <= |m|
    ensures Ticks(m[..k]) <= Ticks(m) && BacktickRun(m[..k]) <= BacktickRun(m)
    decreases k
  {
    if k > 0 {
      assert m[..k][1..] == m[1..][..k - 1];
      RunOfPrefix(m[1..], k - 1);
    }
  }

  lemma {:induction false} LinesHaveShortRuns(s: string, l: string)
    requires l in DocumentLines(s)
    ensures BacktickRun(l) <= BacktickRun(s)
    decreases |s|
  {
    RunOfPrefix(s, LineEnd(s));
    RunOfSuffix(s, Cut(s));
    if l != s[..LineEnd(s)] { LinesHaveShortRuns(s[Cut(s)..], l); }
  }

  lemma ShortRunsDoNotClose(l: string, n: nat)
    requires BacktickRun(l) < n
    ensures !Closes(l, n)
  {
    RunBounds(l, Indent(l));
  }

  lemma {:induction false} ClosingAfter(lines: seq<string>, n: nat, close: string, rest: seq<string>)
    requires Closes(close, n) && forall l :: l in lines ==> !Closes(l, n)
    ensures FirstClosing(lines + ([close] + rest), n) == |lines|
  {
    var all := lines + ([close] + rest);
    if lines != [] {
      assert all[0] == lines[0] && lines[0] in lines;
      assert all[1..] == lines[1..] + ([close] + rest);
      ClosingAfter(lines[1..], n, close, rest);
    }
  }

  /** A block as the program writes it. */
  function Fenced(n: nat, info: string, text: string): string {
    Fence(n) + info + "\n" + text + "\n" + Fence(n) + "\n"
  }

  ghost predicate Info(info: string) {
    NoTickFirst(info) && TICK !in info && forall k :: 0 <= k < |info| ==> !IsEnding(info[k])
  }

  lemma BlockEndLines(n: nat, text: string, rest: string)
    ensures DocumentLines(text + "\n" + (Fence(n) + "\n" + rest)) ==
      DocumentLines(text + "\n") + ([Fence(n)] + DocumentLines(rest))
  {
    var end := Fence(n) + "\n" + rest;
    LinesOfBoth(text + "\n" + end, text + "\n", end);
    LineThen(end, Fence(n), rest);
  }

  lemma FencedLines(n: nat, info: string, text: string, rest: string)
    requires Info(info)
    ensures DocumentLines(Fenced(n, info, text) + rest) ==
      [Fence(n) + info] + (DocumentLines(text + "\n") + ([Fence(n)] + DocumentLines(rest)))
  {
    var body := text + "\n" + (Fence(n) + "\n" + rest);
    LineThen(Fenced(n, info, text) + rest, Fence(n) + info, body);
    BlockEndLines(n, text, rest);
  }

  lemma FenceCloses(n: nat)
    ensures Closes(Fence(n), n)
  {
    assert Indent(Fence(n)) == 0;
    assert Fence(n)[0..] == Fence(n);
    TicksAre(Fence(n), n);
  }

  /** A fence longer than every run of the text closes nowhere in it: the block holds the lines of the
      text and nothing else, and the document goes on after it. */
  lemma FencedRoundTrip(n: nat, info: string, text: string, rest: string)
    requires Info(info) && n >= 3 && BacktickRun(text) < n
    ensures ReadBlock(DocumentLines(Fenced(n, info, text) + rest)) ==
      Some(Block(DocumentLines(text + "\n"), DocumentLines(rest)))
  {
    var content := DocumentLines(text + "\n");
    FencedLines(n, info, text, rest);
    TicksOfFence(n, info);
    RunAppend(text, '\n');
    forall l | l in content ensures !Closes(l, n) {
      LinesHaveShortRuns(text + "\n", l);
      ShortRunsDoNotClose(l, n);
    }
    FenceCloses(n);
    ClosingAfter(content, n, Fence(n), DocumentLines(rest));
    BlockParts(Fence(n) + info, content, Fence(n), DocumentLines(rest), n);
  }

  lemma BlockParts(open: string, content: seq<string>, close: string, rest: seq<string>, n: nat)
    requires Ticks(open) == n >= 3 && TICK !in open[n..]
    requires FirstClosing(content + ([close] + rest), n) == |content|
    ensures ReadBlock([open] + (content + ([close] + rest))) == Some(Block(content, rest))
  {
    var lines := [open] + (content + ([close] + rest));
    BlockSplit(lines, open, content, close, rest);
    BlockAt(lines, n, |content|);
  }

  lemma BlockSplit(lines: seq<string>, open: string, content: seq<string>, close: string, rest: seq<string>)
    requires lines == [open] + (content + ([close] + rest))
    ensures lines[0] == open && lines[1..] == content + ([close] + rest)
    ensures lines[1..][..|content|] == content && lines[1..][|content| + 1..] == rest
  {
  }

  lemma BlockAt(lines: seq<string>, n: nat, c: nat)
    requires lines != [] && Ticks(lines[0]) == n >= 3 && TICK !in lines[0][n..]
    requires FirstClosing(lines[1..], n) == c < |lines| - 1
    ensures ReadBlock(lines) == Some(Block(lines[1..][..c], lines[1..][c + 1..]))
  {
  }

  function FenceFor(s: string): nat {
    if BacktickRun(s) + 1 > 3 then BacktickRun(s) + 1 else 3
  }

  /** The shortest fence that nothing in the text can close. */
  lemma FenceIsShortest(s: string, n: nat)
    ensures n >= 3 && n > BacktickRun(s) <==> n >= FenceFor(s)
  {
  }

  function FixBlock(redacted: string): string {
    Fenced(FenceFor(Neutral(redacted)), "", Neutral(redacted))
  }

  /** The replacement without the line feed at its end. */
  function SuggestionText(replacement: string): string {
    if EndsWith(replacement, "\n") then replacement[..|replacement| - 1] else replacement
  }

  function SuggestionBlock(replacement: string): string {
    Fenced(FenceFor(replacement), "suggestion", SuggestionText(replacement))
  }

  lemma FixBlockRoundTrip(redacted: string, rest: string)
    ensures ReadBlock(DocumentLines(FixBlock(redacted) + rest)) ==
      Some(Block(DocumentLines(Neutral(redacted) + "\n"), DocumentLines(rest)))
  {
    FencedRoundTrip(FenceFor(Neutral(redacted)), "", Neutral(redacted), rest);
  }

  lemma ExtraFeedFirst(s: string, t: string)
    requires t == s + "\n" && s != "" && s[|s| - 1] != '\n'
    ensures t[..LineEnd(t)] == s[..LineEnd(s)]
    ensures Cut(s) == |s| ==> t[Cut(t)..] == ""
    ensures Cut(s) < |s| ==> t[Cut(t)..] == s[Cut(s)..] + "\n" && s[Cut(s)..][|s| - Cut(s) - 1] != '\n'
  {
    FirstWhereIs(t, IsEnding, LineEnd(s));
  }

  lemma {:induction false} ExtraFeed(s: string, t: string)
    requires t == s + "\n" && s != "" && s[|s| - 1] != '\n'
    ensures DocumentLines(t) == DocumentLines(s)
    decreases |s|
  {
    ExtraFeedFirst(s, t);
    if Cut(s) < |s| { ExtraFeed(s[Cut(s)..], t[Cut(t)..]); }
  }

  lemma SuggestionLines(replacement: string)
    ensures DocumentLines(SuggestionText(replacement) + "\n") == DocumentLines(replacement) <==> replacement != ""
  {
    var text := SuggestionText(replacement);
    if replacement == "" {
      LineThen(text + "\n", text, "");
    } else if EndsWith(replacement, "\n") {
      assert replacement == text + "\n";
    } else {
      assert replacement[|replacement| - 1..] == [replacement[|replacement| - 1]];
      ExtraFeed(replacement, text + "\n");
    }
  }

  lemma SuggestionRun(replacement: string)
    ensures BacktickRun(SuggestionText(replacement)) <= BacktickRun(replacement)
  {
    if EndsWith(replacement, "\n") { RunOfPrefix(replacement, |replacement| - 1); }
  }

  /** A suggestion block holds exactly the lines of the replacement if and only if there is a
      replacement; an empty one would read as one empty line. */
  lemma SuggestionRoundTrip(replacement: string, rest: string)
    ensures (
      ReadBlock(DocumentLines(SuggestionBlock(replacement) + rest))
      == Some(Block(DocumentLines(replacement), DocumentLines(rest)))
    ) <==> replacement != ""
  {
    SuggestionRun(replacement);
    FencedRoundTrip(FenceFor(replacement), "suggestion", SuggestionText(replacement), rest);
    SuggestionLines(replacement);
  }
}
