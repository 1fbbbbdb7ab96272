/** Literal text in published Markdown: code spans whose delimiters the text cannot close
    (src/report.rs), read by section 6.1 of CommonMark 0.31.2, and text that opens no comment. */
module CodeSpans {
  import opened Wrappers
  import opened TextOps

  const TICK := '`'

  /** The backticks a text starts with. */
  function Ticks(s: string): (n: nat)
    ensures n <= |s| && (n < |s| ==> s[n] != TICK) && forall k :: 0 <= k < n ==> s[k] == TICK
  {
    if s == "" || s[0] != TICK then 0 else 1 + Ticks(s[1..])
  }

  /** The longest run of backticks in a text. */
  function BacktickRun(s: string): nat {
    if s == "" then 0 else var rest := BacktickRun(s[1..]); if Ticks(s) > rest then Ticks(s) else rest
  }

  function Fence(n: nat): (s: string)
    ensures |s| == n && forall k :: 0 <= k < n ==> s[k] == TICK
  {
    seq(n, k => TICK)
  }

  lemma {:induction false} RunBounds(s: string, i: nat)
    requires i <= |s|
    ensures Ticks(s[i..]) <= BacktickRun(s)
  {
    if i > 0 {
      RunBounds(s[1..], i - 1);
      assert s[1..][i - 1..] == s[i..];
    } else if s != "" {
      assert s[0..] == s;
    }
  }

  // ---- what the program writes ----

  /** Breaks every comment opener, as `replace("<!--", "<!\u{200b}--")` does. */
  function Neutral(s: string): string {
    if s == "" then "" else if StartsWith(s, "<!--") then "<!\U{200B}--" + Neutral(s[4..]) else [s[0]] + Neutral(s[1..])
  }

  function Flat(s: string): (r: string)
    ensures |r| == |s| && forall k :: 0 <= k < |r| ==> r[k] == if s[k] == '\r' || s[k] == '\n' then ' ' else s[k]
  {
    seq(|s|, k requires 0 <= k < |s| => if s[k] == '\r' || s[k] == '\n' then ' ' else s[k])
  }

  /** The text a code span shows, after redaction. */
  function Shown(redacted: string): string {
    Neutral(Flat(redacted))
  }

  function Padding(t: string): string {
    if StartsWith(t, "`") || EndsWith(t, "`") || (StartsWith(t, " ") && EndsWith(t, " ") && Trim(t) != "") then " " else ""
  }

  function CodeSpan(t: string): string {
    var fence := Fence(BacktickRun(t) + 1);
    fence + Padding(t) + t + Padding(t) + fence
  }

  // ---- reading a code span (section 6.1) ----

  /** Where the first run of exactly `n` backticks starts. */
  ghost function CloseAt(s: string, n: nat): (r: Option<nat>)
    ensures r.Some? ==> r.value + n <= |s|
    decreases |s|
  {
    if s == "" then None
    else if s[0] != TICK then Later(CloseAt(s[1..], n), 1)
    else if Ticks(s) == n then Some(0)
    else Later(CloseAt(s[Ticks(s)..], n), Ticks(s))
  }

  ghost function Later(r: Option<nat>, shift: nat): Option<nat> {
    if r.Some? then Some(r.value + shift) else None
  }

  ghost predicate AllSpaces(s: string) {
    forall k :: 0 <= k < |s| ==> s[k] == ' '
  }

  /** One space comes off both ends, unless there is nothing but spaces. */
  ghost function Stripped(s: string): string {
    if s != "" && s[0] == ' ' && s[|s| - 1] == ' ' && !AllSpaces(s) then s[1..|s| - 1] else s
  }

  datatype Span = Span(content: string, rest: string)

  /** The code span a text starts with, and what follows it. */
  ghost function ReadSpan(s: string): Option<Span> {
    var n := Ticks(s);
    var close := CloseAt(s[n..], n);
    if n == 0 || close.None? then None
    else Some(Span(Stripped(s[n..][..close.value]), s[n..][close.value + n..]))
  }

  ghost predicate NoTickFirst(s: string) {
    s != "" ==> s[0] != TICK
  }

  ghost predicate NoTickLast(s: string) {
    s != "" ==> s[|s| - 1] != TICK
  }

  lemma TicksAre(s: string, n: nat)
    requires n <= |s| && (n < |s| ==> s[n] != TICK) && forall k :: 0 <= k < n ==> s[k] == TICK
    ensures Ticks(s) == n
  {
  }

  lemma TicksOfFence(n: nat, rest: string)
    requires NoTickFirst(rest)
    ensures Ticks(Fence(n) + rest) == n
  {
    TicksAre(Fence(n) + rest, n);
  }

  lemma PassChar(s: string, n: nat)
    requires s != "" && s[0] != TICK
    ensures CloseAt(s, n) == Later(CloseAt(s[1..], n), 1)
  {
  }

  lemma PassRun(s: string, k: nat, n: nat)
    requires 0 < k == Ticks(s) != n
    ensures CloseAt(s, n) == Later(CloseAt(s[k..], n), k)
  {
  }

  lemma CloseHere(n: nat, rest: string)
    requires n > 0 && NoTickFirst(rest)
    ensures CloseAt(Fence(n) + rest, n) == Some(0)
  {
    TicksOfFence(n, rest);
    assert (Fence(n) + rest)[0] == TICK;
  }

  /** The run at the front of `m` is the run at the front of `m + u`. */
  lemma RunThen(s: string, m: string, u: string)
    requires s == m + u && m != "" && NoTickLast(m)
    ensures Ticks(s) == Ticks(m) < |m| && s[Ticks(m)..] == m[Ticks(m)..] + u
  {
    TicksAre(s, Ticks(m));
  }

  /** Text whose runs are all shorter than the fence, and that does not touch it, is passed over. */
  lemma {:induction false} CloseAfter(s: string, m: string, n: nat, u: string)
    requires s == m + u && BacktickRun(m) < n && NoTickLast(m) && CloseAt(u, n) == Some(0)
    ensures CloseAt(s, n) == Some(|m|)
    decreases |m|
  {
    if m == "" {
      assert s == u;
    } else if m[0] != TICK {
      TailParts(s, m, u, 1);
      RunOfSuffix(m, 1);
      CloseAfter(s[1..], m[1..], n, u);
      PassChar(s, n);
    } else {
      var k := Ticks(m);
      RunThen(s, m, u);
      TailParts(s, m, u, k);
      RunOfSuffix(m, k);
      CloseAfter(s[k..], m[k..], n, u);
      PassRun(s, k, n);
    }
  }

  lemma TailParts(s: string, m: string, u: string, k: nat)
    requires s == m + u && k <= |m|
    ensures s[k..] == m[k..] + u && (NoTickLast(m) ==> NoTickLast(m[k..]))
  {
  }

  lemma {:induction false} RunOfSuffix(m: string, k: nat)
    requires k <= |m|
    ensures BacktickRun(m[k..]) <= BacktickRun(m)
  {
    if k > 0 {
      RunOfSuffix(m[1..], k - 1);
      assert m[1..][k - 1..] == m[k..];
    } else {
      assert m[0..] == m;
    }
  }

  lemma {:induction false} RunAppend(m: string, c: char)
    requires c != TICK
    ensures BacktickRun(m + [c]) == BacktickRun(m)
    decreases |m|
  {
    if m == "" {
      assert m + [c] == [c] && [c][1..] == "";
    } else {
      assert (m + [c])[1..] == m[1..] + [c];
      RunAppend(m[1..], c);
      TicksAre(m + [c], Ticks(m));
    }
  }

  lemma RunPadded(m: string)
    ensures BacktickRun(" " + m + " ") == BacktickRun(m)
  {
    RunAppend(m, ' ');
    assert (" " + m + " ")[1..] == m + " ";
  }

  /** A fence longer than every run, around text that does not touch it, is read as one span. */
  lemma ReadFenced(s: string, m: string, n: nat, rest: string)
    requires s == Fence(n) + m + Fence(n) + rest
    requires BacktickRun(m) < n && m != "" && NoTickFirst(m) && NoTickLast(m) && NoTickFirst(rest)
    ensures ReadSpan(s) == Some(Span(Stripped(m), rest))
  {
    FenceParts(s, m, n, rest);
    CloseHere(n, rest);
    CloseAfter(s[n..], m, n, Fence(n) + rest);
  }

  lemma FenceParts(s: string, m: string, n: nat, rest: string)
    requires s == Fence(n) + m + Fence(n) + rest && m != "" && NoTickFirst(m)
    ensures Ticks(s) == n && s[n..] == m + (Fence(n) + rest)
    ensures s[n..][..|m|] == m && s[n..][|m| + n..] == rest
  {
    TicksAre(s, n);
  }

  lemma {:induction false} TrimmedAway(s: string)
    ensures Trim(s) == "" <==> forall k :: 0 <= k < |s| ==> IsSpace(s[k])
  {
    var t := TrimEnd(s);
    TrimEndKeeps(s);
    TrimStartKeeps(t);
  }

  lemma {:induction false} TrimEndKeeps(s: string)
    ensures forall k :: |TrimEnd(s)| <= k < |s| ==> IsSpace(s[k])
    decreases |s|
  {
    if s != "" && IsSpace(s[|s| - 1]) { TrimEndKeeps(s[..|s| - 1]); }
  }

  lemma {:induction false} TrimStartKeeps(s: string)
    ensures TrimStart(s) == "" <==> forall k :: 0 <= k < |s| ==> IsSpace(s[k])
    decreases |s|
  {
    if s != "" && IsSpace(s[0]) {
      TrimStartKeeps(s[1..]);
      assert forall k :: 1 <= k < |s| ==> s[k] == s[1..][k - 1];
    }
  }

  /** Text of nothing but white space, not all of it spaces, with a space at both ends. */
  ghost predicate OddBlank(t: string) {
    && t != "" && t[0] == ' ' && t[|t| - 1] == ' ' && !AllSpaces(t)
    && forall k :: 0 <= k < |t| ==> IsSpace(t[k])
  }

  lemma PaddedStripped(t: string)
    requires t != "" && !AllSpaces(t)
    ensures Stripped(" " + t + " ") == t
  {
    var s := " " + t + " ";
    var k :| 0 <= k < |t| && t[k] != ' ';
    assert s[k + 1] == t[k];
    assert s[1..|s| - 1] == t;
  }

  lemma EdgeTests(t: string)
    requires t != ""
    ensures StartsWith(t, "`") <==> t[0] == TICK
    ensures EndsWith(t, "`") <==> t[|t| - 1] == TICK
    ensures StartsWith(t, " ") <==> t[0] == ' '
    ensures EndsWith(t, " ") <==> t[|t| - 1] == ' '
  {
    assert t[..1] == [t[0]] && t[|t| - 1..] == [t[|t| - 1]];
  }

  lemma Regroup(fence: string, pad: string, t: string, m: string, rest: string)
    requires m == pad + t + pad
    ensures fence + pad + t + pad + fence + rest == fence + m + fence + rest
  {
  }

  lemma SpanParts(t: string, m: string, n: nat, rest: string)
    requires m == Padding(t) + t + Padding(t) && n == BacktickRun(t) + 1
    ensures CodeSpan(t) + rest == Fence(n) + m + Fence(n) + rest
  {
    Regroup(Fence(n), Padding(t), t, m, rest);
  }

  lemma PaddedEdges(t: string, m: string)
    requires m == " " + t + " "
    ensures m != "" && NoTickFirst(m) && NoTickLast(m)
  {
  }

  lemma PaddedSpan(t: string, rest: string)
    requires NoTickFirst(rest) && t != "" && Padding(t) == " " && !AllSpaces(t)
    ensures ReadSpan(CodeSpan(t) + rest) == Some(Span(t, rest))
  {
    var n, m := BacktickRun(t) + 1, " " + t + " ";
    RunPadded(t);
    PaddedStripped(t);
    PaddedEdges(t, m);
    SpanParts(t, m, n, rest);
    ReadFenced(CodeSpan(t) + rest, m, n, rest);
  }

  lemma PlainSpan(t: string, rest: string)
    requires NoTickFirst(rest) && t != "" && Padding(t) == "" && NoTickFirst(t) && NoTickLast(t)
    ensures ReadSpan(CodeSpan(t) + rest) == Some(Span(Stripped(t), rest))
  {
    var n := BacktickRun(t) + 1;
    SpanParts(t, t, n, rest);
    ReadFenced(CodeSpan(t) + rest, t, n, rest);
  }

  /** The tests of `Padding`, on the characters of the text. */
  lemma PaddingTests(t: string)
    requires t != ""
    ensures Padding(t) == (if t[0] == TICK || t[|t| - 1] == TICK
      || (t[0] == ' ' && t[|t| - 1] == ' ' && exists k :: 0 <= k < |t| && !IsSpace(t[k])) then " " else "")
  {
    EdgeTests(t);
    TrimmedAway(t);
  }

  lemma PaddingIs(t: string)
    requires t != ""
    ensures Padding(t) == " " ==> !AllSpaces(t)
    ensures Padding(t) == "" ==> NoTickFirst(t) && NoTickLast(t) && (Stripped(t) == t <==> !OddBlank(t))
    ensures OddBlank(t) ==> Padding(t) == ""
  {
    PaddingTests(t);
    StrippedIs(t);
  }

  lemma StrippedIs(t: string)
    requires t != ""
    ensures Stripped(t) == t <==> !(t[0] == ' ' && t[|t| - 1] == ' ' && !AllSpaces(t))
  {
  }

  /** A text survives as the content of one span exactly when it is neither empty nor an odd blank. */
  lemma CodeSpanRoundTrip(t: string, rest: string)
    requires NoTickFirst(rest)
    ensures ReadSpan(CodeSpan(t) + rest) == Some(Span(t, rest)) <==> t != "" && !OddBlank(t)
  {
    if t == "" {
      EmptySpan(rest);
    } else {
      PaddingIs(t);
      if Padding(t) == " " { PaddedSpan(t, rest); } else { PlainSpan(t, rest); }
    }
  }

  lemma EmptySpan(rest: string)
    requires NoTickFirst(rest)
    ensures ReadSpan(CodeSpan("") + rest) != Some(Span("", rest))
  {
    var s := CodeSpan("") + rest;
    assert s == Fence(2) + rest;
    TicksOfFence(2, rest);
    assert s[2..] == rest;
  }

  // ---- comment openers ----

  lemma NeutralKeepsTail(s: string)
    requires StartsWith(Neutral(s), "!--")
    ensures StartsWith(s, "!--")
  {
    assert Neutral(s)[..3] == "!--";
    assert Neutral(s)[0] == '!' && Neutral(s)[1] == '-' && Neutral(s)[2] == '-';
    assert s[0] == '!' && Neutral(s)[1..] == Neutral(s[1..]);
    assert s[1..][0] == '-' && Neutral(s[1..])[1..] == Neutral(s[2..]) by { assert s[1..][1..] == s[2..]; }
    assert s[2..][0] == '-';
    assert s[..3] == [s[0], s[1], s[2]];
  }

  predicate OpenerAt(s: string, i: nat) {
    i + 4 <= |s| && s[i..i + 4] == "<!--"
  }

  lemma OpenerChars(s: string, i: nat)
    ensures OpenerAt(s, i) ==> s[i] == '<' && s[i + 2] == '-' && StartsWith(s[i + 1..], "!--")
    ensures i < |s| && s[i] == '<' && StartsWith(s[i + 1..], "!--") ==> OpenerAt(s, i)
  {
    if OpenerAt(s, i) {
      assert s[i] == s[i..i + 4][0] && s[i + 2] == s[i..i + 4][2];
      assert s[i + 1..][..3] == s[i..i + 4][1..];
    }
    if i < |s| && s[i] == '<' && StartsWith(s[i + 1..], "!--") {
      assert s[i..i + 4] == [s[i]] + s[i + 1..][..3];
    }
  }

  lemma OpenerStarts(s: string)
    ensures OpenerAt(s, 0) <==> StartsWith(s, "<!--")
  {
    if |s| >= 4 { assert s[0..4] == s[..4]; }
  }

  lemma OpenerShift(head: string, s: string, i: nat)
    requires i >= |head|
    ensures OpenerAt(head + s, i) <==> OpenerAt(s, i - |head|)
  {
    if i + 4 <= |head + s| { assert (head + s)[i..i + 4] == s[i - |head|..i - |head| + 4]; }
  }

  lemma NeutralNotHere(s: string)
    ensures !OpenerAt(Neutral(s), 0)
  {
    OpenerChars(Neutral(s), 0);
    if s != "" && !StartsWith(s, "<!--") {
      assert Neutral(s)[1..] == Neutral(s[1..]);
      if StartsWith(Neutral(s[1..]), "!--") {
        NeutralKeepsTail(s[1..]);
        OpenerChars(s, 0);
        OpenerStarts(s);
      }
    }
  }

  /** No comment can be opened in neutralized text, so it can carry no marker of its own. */
  lemma {:induction false} NeutralHasNoOpener(s: string, i: nat)
    ensures !OpenerAt(Neutral(s), i)
    decreases |s|
  {
    if s != "" {
      var head := if StartsWith(s, "<!--") then "<!\U{200B}--" else [s[0]];
      var tail := if StartsWith(s, "<!--") then s[4..] else s[1..];
      assert Neutral(s) == head + Neutral(tail);
      if i >= |head| {
        OpenerShift(head, Neutral(tail), i);
        NeutralHasNoOpener(tail, i - |head|);
      } else if i == 0 {
        NeutralNotHere(s);
      } else {
        OpenerChars(Neutral(s), i);
        assert Neutral(s)[i] == head[i];
      }
    }
  }

  lemma {:induction false} NeutralAddsOnlyBreaks(s: string)
    ensures forall c :: c in Neutral(s) ==> c in s || c == '\U{200B}'
    decreases |s|
  {
    if s != "" {
      if StartsWith(s, "<!--") {
        NeutralAddsOnlyBreaks(s[4..]);
        assert forall c :: c in s[..4] ==> c in s;
      } else {
        NeutralAddsOnlyBreaks(s[1..]);
      }
    }
  }

  /** Text that opens no comment is kept as it is. */
  lemma {:induction false} NeutralKeeps(s: string)
    requires forall i: nat :: !OpenerAt(s, i)
    ensures Neutral(s) == s
    decreases |s|
  {
    if s != "" {
      OpenerStarts(s);
      forall i: nat ensures !OpenerAt(s[1..], i) { TailOpener(s, i); }
      NeutralKeeps(s[1..]);
    }
  }

  lemma TailOpener(s: string, i: nat)
    requires s != ""
    ensures OpenerAt(s[1..], i) <==> OpenerAt(s, i + 1)
  {
    if i + 5 <= |s| { assert s[1..][i..i + 4] == s[i + 1..i + 5]; }
  }

  /** The first opener is broken in the middle, with nothing changed before it, and then the next. */
  lemma {:induction false} NeutralBreaks(s: string, k: nat)
    requires OpenerAt(s, k) && forall i: nat :: i < k ==> !OpenerAt(s, i)
    ensures Neutral(s) == s[..k] + "<!\U{200B}--" + Neutral(s[k + 4..])
    decreases k
  {
    OpenerStarts(s);
    if k > 0 {
      TailOpener(s, k - 1);
      forall i: nat | i < k - 1 ensures !OpenerAt(s[1..], i) { TailOpener(s, i); }
      NeutralBreaks(s[1..], k - 1);
      assert s[1..][k - 1 + 4..] == s[k + 4..];
      assert s[..k] == [s[0]] + s[1..][..k - 1];
      Regrouped([s[0]], s[1..][..k - 1], "<!\U{200B}--", Neutral(s[k + 4..]));
    }
  }

  lemma Regrouped(a: string, b: string, c: string, d: string)
    ensures a + (b + c + d) == (a + b) + c + d
  {
  }

  /** A code span shows the text itself if that is one line and opens no comment. */
  lemma ShownPlain(redacted: string)
    requires '\n' !in redacted && '\r' !in redacted && forall i: nat :: !OpenerAt(redacted, i)
    ensures Shown(redacted) == redacted
  {
    assert Flat(redacted) == redacted;
    NeutralKeeps(redacted);
  }

  /** What a code span shows is one line and opens no comment. */
  lemma ShownIsInert(redacted: string, i: nat)
    ensures '\n' !in Shown(redacted) && '\r' !in Shown(redacted) && !OpenerAt(Shown(redacted), i)
  {
    NeutralHasNoOpener(Flat(redacted), i);
    NeutralAddsOnlyBreaks(Flat(redacted));
  }
}
