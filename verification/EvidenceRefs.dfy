/** The compact `path:line note` references kept in stored state (src/state.rs), and reading them
    back for a recheck. */
module EvidenceRefs {
  import opened Wrappers
  import opened Decimal

  datatype Evidence = Evidence(path: string, startLine: nat, endLine: nat, note: string)

  /** `clip` is whatever shortening is applied to a note that is not empty. */
  function PrintRef(e: Evidence, clip: string -> string): string {
    e.path + ":" + Print(e.startLine) + if e.note == "" then "" else " " + clip(e.note)
  }

  function DigitRun(s: string): (n: nat)
    ensures n <= |s| && AllDigits(s[..n])
    ensures n < |s| ==> !IsDigit(s[n])
  {
    if s == "" || !IsDigit(s[0]) then 0 else 1 + DigitRun(s[1..])
  }

  datatype Parts = Parts(path: string, line: string, note: string)

  /** Splitting at the colon at `i` works if a line number and then a space or the end follow. */
  function SplitAt(s: string, i: nat): (r: Option<Parts>)
    requires i < |s| && s[i] == ':'
    ensures r.Some? ==> r.value.path == s[..i]
  {
    var tail := s[i + 1..];
    var n := DigitRun(tail);
    var rest := tail[n..];
    if n == 0 || (rest != "" && rest[0] != ' ') then None
    else Some(Parts(s[..i], tail[..n], if rest == "" then "" else rest[1..]))
  }

  function FirstSplit(s: string, from: nat): (r: Option<Parts>)
    decreases |s| - from
  {
    if from >= |s| then None
    else
      var here := if s[from] == ':' then SplitAt(s, from) else None;
      if here.Some? then here else FirstSplit(s, from + 1)
  }

  function IndexOf(s: string, c: char): (i: nat)
    ensures i <= |s| && (i < |s| ==> s[i] == c)
  {
    if s == "" || s[0] == c then 0 else 1 + IndexOf(s[1..], c)
  }

  function LastIndexOf(s: string, c: char): (i: int)
    ensures -1 <= i < |s| && (i >= 0 ==> s[i] == c)
  {
    if s == "" then -1 else if s[|s| - 1] == c then |s| - 1 else LastIndexOf(s[..|s| - 1], c)
  }

  /** What is taken when no colon is followed by a line number. */
  function LooseSplit(s: string): Parts {
    var space := IndexOf(s, ' ');
    var loc, note := s[..space], if space < |s| then s[space + 1..] else "";
    var colon := LastIndexOf(loc, ':');
    if colon >= 0 then Parts(loc[..colon], loc[colon + 1..], note) else Parts(loc, "0", note)
  }

  function ReadRef(s: string): Evidence {
    var first := FirstSplit(s, 0);
    var p := if first.Some? then first.value else LooseSplit(s);
    var parsed := ParseU32(p.line);
    var line := if parsed.Some? then parsed.value else 0;
    Evidence(p.path, line, line, p.note)
  }

  /** Somewhere in `path` a colon is followed by digits and a space. */
  ghost predicate LooksLikeLine(path: string) {
    exists i, j :: 0 <= i && i + 1 < j < |path| && path[i] == ':' && AllDigits(path[i + 1..j]) && path[j] == ' '
  }

  lemma DigitRunIs(s: string, n: nat)
    requires n <= |s| && AllDigits(s[..n]) && (n < |s| ==> !IsDigit(s[n]))
    ensures DigitRun(s) == n
  {
    var m := DigitRun(s);
    assert forall i :: 0 <= i < m ==> s[i] == s[..m][i] && IsDigit(s[i]);
    assert forall i :: 0 <= i < n ==> s[i] == s[..n][i] && IsDigit(s[i]);
  }

  /** No colon inside the path splits the reference, and the one after it does. */
  lemma {:induction false} SplitsAfterPath(e: Evidence, clip: string -> string, from: nat)
    requires from <= |e.path| && !LooksLikeLine(e.path)
    ensures FirstSplit(PrintRef(e, clip), from) ==
      Some(Parts(e.path, Print(e.startLine), if e.note == "" then "" else clip(e.note)))
    decreases |e.path| - from
  {
    var s := PrintRef(e, clip);
    var k := |e.path|;
    if from == k {
      var line := Print(e.startLine);
      var tail := s[k + 1..];
      assert tail == line + if e.note == "" then "" else " " + clip(e.note);
      assert tail[..|line|] == line;
      DigitRunIs(tail, |line|);
      assert s[..k] == e.path;
      assert tail[|line|..] == if e.note == "" then "" else " " + clip(e.note);
    } else {
      if s[from] == ':' {
        NoSplitInside(e, clip, from);
      }
      SplitsAfterPath(e, clip, from + 1);
    }
  }

  lemma NoSplitInside(e: Evidence, clip: string -> string, i: nat)
    requires i < |e.path| && e.path[i] == ':' && !LooksLikeLine(e.path)
    ensures SplitAt(PrintRef(e, clip), i) == None
  {
    var s := PrintRef(e, clip);
    var k := |e.path|;
    var tail := s[i + 1..];
    var n := DigitRun(tail);
    var j := i + 1 + n;
    assert s[k] == ':';
    assert forall x :: i < x < j ==> s[x] == tail[..n][x - i - 1] && IsDigit(s[x]);
    assert j <= k;
    assert tail[n..][0] == s[j];
    assert e.path[i + 1..j] == tail[..n];
  }

  lemma {:induction false} SplitsAtOrBefore(s: string, from: nat, i: nat)
    requires from <= i < |s| && s[i] == ':' && SplitAt(s, i).Some?
    ensures FirstSplit(s, from).Some? && |FirstSplit(s, from).value.path| <= i
    decreases i - from
  {
    if from < i && !(s[from] == ':' && SplitAt(s, from).Some?) {
      SplitsAtOrBefore(s, from + 1, i);
    }
  }

  /** A stored reference reads back to the same path exactly when the path holds no colon followed
      by digits and a space; then the line and the clipped note come back too. */
  lemma RefRoundTrip(e: Evidence, clip: string -> string)
    requires e.startLine < U32_END
    ensures ReadRef(PrintRef(e, clip)).path == e.path <==> !LooksLikeLine(e.path)
    ensures !LooksLikeLine(e.path) ==>
      ReadRef(PrintRef(e, clip)) == Evidence(e.path, e.startLine, e.startLine, if e.note == "" then "" else clip(e.note))
  {
    var s := PrintRef(e, clip);
    if LooksLikeLine(e.path) {
      var i, j :| 0 <= i && i + 1 < j < |e.path| && e.path[i] == ':' && AllDigits(e.path[i + 1..j]) && e.path[j] == ' ';
      var tail := s[i + 1..];
      assert tail[..j - i - 1] == e.path[i + 1..j];
      assert tail[j - i - 1] == ' ';
      DigitRunIs(tail, j - i - 1);
      SplitsAtOrBefore(s, 0, i);
    } else {
      SplitsAfterPath(e, clip, 0);
      ParseOfPrint(e.startLine);
    }
  }
}
