/** The string operations of Rust's standard library that the text formats rest on. */
module TextOps {
  predicate IsSpace(c: char) {
    ('\t' <= c <= '\r') || c == ' ' || c == '\U{85}' || c == '\U{A0}' || c == '\U{1680}' || ('\U{2000}' <= c <= '\U{200A}')
    || c == '\U{2028}' || c == '\U{2029}' || c == '\U{202F}' || c == '\U{205F}' || c == '\U{3000}'
  }

  /** Unicode's white space. */
  lemma SpacesAre(c: char)
    ensures IsSpace(c) == (c in
      "\t\n\U{0B}\U{0C}\r \U{85}\U{A0}\U{1680}\U{2000}\U{2001}\U{2002}\U{2003}\U{2004}\U{2005}\U{2006}\U{2007}" +
      "\U{2008}\U{2009}\U{200A}\U{2028}\U{2029}\U{202F}\U{205F}\U{3000}")
  {
    var a := "\t\n\U{0B}\U{0C}\r \U{85}\U{A0}\U{1680}\U{2000}\U{2001}\U{2002}\U{2003}\U{2004}\U{2005}\U{2006}\U{2007}";
    var b := "\U{2008}\U{2009}\U{200A}\U{2028}\U{2029}\U{202F}\U{205F}\U{3000}";
    assert c in a + b <==> c in a || c in b;
    if '\t' <= c <= '\r' { assert a[(c - '\t') as int] == c; }
    if '\U{2000}' <= c <= '\U{2007}' { assert a[9 + (c - '\U{2000}') as int] == c; }
    if '\U{2008}' <= c <= '\U{200A}' { assert b[(c - '\U{2008}') as int] == c; }
    assert a[5] == ' ' && a[6] == '\U{85}' && a[7] == '\U{A0}' && a[8] == '\U{1680}';
    assert b[3] == '\U{2028}' && b[4] == '\U{2029}' && b[5] == '\U{202F}' && b[6] == '\U{205F}' && b[7] == '\U{3000}';
  }

  predicate NoSpace(s: string) {
    forall i :: 0 <= i < |s| ==> !IsSpace(s[i])
  }

  function TrimEnd(s: string): (r: string)
    ensures r <= s
  {
    if s != "" && IsSpace(s[|s| - 1]) then TrimEnd(s[..|s| - 1]) else s
  }

  function TrimStart(s: string): (r: string)
    ensures |r| <= |s|
  {
    if s != "" && IsSpace(s[0]) then TrimStart(s[1..]) else s
  }

  function Trim(s: string): string {
    TrimStart(TrimEnd(s))
  }

  ghost predicate Blank(s: string) {
    forall i :: 0 <= i < |s| ==> IsSpace(s[i])
  }

  /** `t` neither starts nor ends in white space. */
  ghost predicate Tight(t: string) {
    t != "" ==> !IsSpace(t[0]) && !IsSpace(t[|t| - 1])
  }

  /** Trimming at the end takes the white space there, and all of it. */
  lemma {:induction false} TrimEndSplits(s: string) returns (blank: string)
    ensures s == TrimEnd(s) + blank && Blank(blank)
    ensures TrimEnd(s) != "" ==> !IsSpace(TrimEnd(s)[|TrimEnd(s)| - 1])
  {
    if s != "" && IsSpace(s[|s| - 1]) {
      var rest := TrimEndSplits(s[..|s| - 1]);
      blank := rest + [s[|s| - 1]];
    } else {
      blank := "";
    }
  }

  lemma {:induction false} TrimStartSplits(s: string) returns (blank: string)
    ensures s == blank + TrimStart(s) && Blank(blank)
    ensures TrimStart(s) != "" ==> !IsSpace(TrimStart(s)[0])
  {
    if s != "" && IsSpace(s[0]) {
      var rest := TrimStartSplits(s[1..]);
      blank := [s[0]] + rest;
    } else {
      blank := "";
    }
  }

  lemma {:induction false} TrimEndIs(s: string, t: string, blank: string)
    requires s == t + blank && Blank(blank) && (t != "" ==> !IsSpace(t[|t| - 1]))
    ensures TrimEnd(s) == t
    decreases |blank|
  {
    if blank == "" {
      assert s == t;
    } else {
      assert s[|s| - 1] == blank[|blank| - 1];
      TrimEndIs(s[..|s| - 1], t, blank[..|blank| - 1]);
    }
  }

  lemma {:induction false} TrimStartIs(s: string, blank: string, t: string)
    requires s == blank + t && Blank(blank) && (t != "" ==> !IsSpace(t[0]))
    ensures TrimStart(s) == t
    decreases |blank|
  {
    if blank == "" {
      assert s == t;
    } else {
      TrimStartIs(s[1..], blank[1..], t);
    }
  }

  predicate StartsWith(s: string, p: string) { |p| <= |s| && s[..|p|] == p }
  predicate EndsWith(s: string, p: string) { |p| <= |s| && s[|s| - |p|..] == p }

  /** The position of the first character that satisfies `p`, `|s|` if there is none. */
  function FirstWhere(s: string, p: char -> bool): (i: nat)
    ensures i <= |s| && (i < |s| ==> p(s[i]))
    ensures forall j :: 0 <= j < i ==> !p(s[j])
  {
    if s == "" || p(s[0]) then 0 else 1 + FirstWhere(s[1..], p)
  }

  lemma FirstWhereIs(s: string, p: char -> bool, i: nat)
    requires i <= |s| && (i < |s| ==> p(s[i])) && forall j :: 0 <= j < i ==> !p(s[j])
    ensures FirstWhere(s, p) == i
  {
    var k := FirstWhere(s, p);
    assert k < i || i < k || k == i;
  }

  /** `str::lines`: split at line feeds, dropping a carriage return before each; a text that ends
      in a line feed has no further line. */
  function Lines(s: string): seq<string>
    decreases |s|
  {
    if s == "" then []
    else
      var i := FirstWhere(s, c => c == '\n');
      if i == |s| then [s] else [DropCr(s[..i])] + Lines(s[i + 1..])
  }

  function DropCr(s: string): string {
    if EndsWith(s, "\r") then s[..|s| - 1] else s
  }

  function Joined(lines: seq<string>): string {
    if lines == [] then "" else lines[0] + "\n" + Joined(lines[1..])
  }

  function DropCrs(lines: seq<string>): (r: seq<string>)
    ensures |r| == |lines|
  {
    seq(|lines|, k requires 0 <= k < |lines| => DropCr(lines[k]))
  }

  lemma FirstLine(l: string, rest: string)
    requires '\n' !in l
    ensures Lines(l + "\n" + rest) == [DropCr(l)] + Lines(rest)
  {
    var s := l + "\n" + rest;
    assert forall j :: 0 <= j < |l| ==> s[j] == l[j] && l[j] in l;
    FirstWhereIs(s, c => c == '\n', |l|);
    assert s[..|l|] == l && s[|l| + 1..] == rest;
  }

  /** Writing lines out and splitting them again drops one carriage return at the end of each. */
  lemma {:induction false} LinesOfJoined(lines: seq<string>)
    requires forall k :: 0 <= k < |lines| ==> '\n' !in lines[k]
    ensures Lines(Joined(lines)) == DropCrs(lines)
  {
    if lines != [] {
      FirstLine(lines[0], Joined(lines[1..]));
      LinesOfJoined(lines[1..]);
      assert DropCrs(lines) == [DropCr(lines[0])] + DropCrs(lines[1..]);
    }
  }

  lemma {:induction false} JoinedAppend(a: seq<string>, b: seq<string>)
    ensures Joined(a + b) == Joined(a) + Joined(b)
  {
    if a == [] {
      assert a + b == b;
    } else {
      JoinedAppend(a[1..], b);
      assert (a + b)[1..] == a[1..] + b;
    }
  }

  lemma JoinedOne(a: seq<string>, l: string)
    ensures Joined(a + [l]) == Joined(a) + l + "\n"
  {
    JoinedAppend(a, [l]);
    assert Joined([l]) == l + "\n" + Joined([]);
  }
}
