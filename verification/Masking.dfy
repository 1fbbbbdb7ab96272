/** Masking secret values in a text (`Matcher::mask`, src/redact.rs). Texts and secrets are UTF-8
    byte strings; positions are byte offsets, as in the source. */
module Masking {
  import opened Wrappers
  import opened Redaction

  /** The bytes of `[REDACTED]`. */
  const REDACTED: Bytes := [91, 82, 69, 68, 65, 67, 84, 69, 68, 93]

  ghost predicate Continuation(b: byte) { 0x80 <= b < 0xC0 }

  function CharLen(lead: byte): nat {
    if lead < 0xC0 then 1 else if lead < 0xE0 then 2 else if lead < 0xF0 then 3 else 4
  }

  /** A sequence of whole characters. Overlong and surrogate encodings are not excluded, so this
      holds of more byte strings than Rust's `str` allows. */
  ghost predicate Utf8(s: Bytes) {
    s == [] ||
    (!Continuation(s[0]) && CharLen(s[0]) <= |s|
     && (forall i :: 1 <= i < CharLen(s[0]) ==> Continuation(s[i]))
     && Utf8(s[CharLen(s[0])..]))
  }

  type CodePoint = c: nat | c < 0x11_0000

  /** The UTF-8 encoding of a code point (RFC 3629, section 3). */
  ghost function Encoded(c: CodePoint): Bytes {
    if c < 0x80 then [c as byte]
    else if c < 0x800 then [(0xC0 + c / 0x40) as byte, (0x80 + c % 0x40) as byte]
    else if c < 0x1_0000 then
      [(0xE0 + c / 0x1000) as byte, (0x80 + c / 0x40 % 0x40) as byte, (0x80 + c % 0x40) as byte]
    else
      [(0xF0 + c / 0x4_0000) as byte, (0x80 + c / 0x1000 % 0x40) as byte, (0x80 + c / 0x40 % 0x40) as byte,
       (0x80 + c % 0x40) as byte]
  }

  lemma EncodedIsOne(c: CodePoint)
    ensures var e := Encoded(c);
      !Continuation(e[0]) && CharLen(e[0]) == |e| && forall i :: 1 <= i < |e| ==> Continuation(e[i])
  {
  }

  /** Every encoded character is a sequence of whole characters, and so are two such sequences together. */
  lemma EncodedIsUtf8(c: CodePoint)
    ensures Utf8(Encoded(c))
  {
    EncodedIsOne(c);
    var e := Encoded(c);
    assert e[|e|..] == [];
  }

  lemma {:induction false} Utf8Append(a: Bytes, b: Bytes)
    requires Utf8(a) && Utf8(b)
    ensures Utf8(a + b)
    decreases |a|
  {
    if a == [] {
      assert a + b == b;
    } else {
      Utf8Append(a[CharLen(a[0])..], b);
      FirstCharacter(a, b, a + b, CharLen(a[0]));
    }
  }

  lemma FirstCharacter(a: Bytes, b: Bytes, s: Bytes, n: nat)
    requires a != [] && s == a + b && n == CharLen(a[0]) <= |a| && Utf8(a[n..] + b)
    requires !Continuation(a[0]) && forall i :: 1 <= i < n ==> Continuation(a[i])
    ensures Utf8(s)
  {
    assert s[n..] == a[n..] + b;
    assert s[0] == a[0];
  }

  ghost predicate Boundary(s: Bytes, i: nat) {
    i <= |s| && (i < |s| ==> !Continuation(s[i]))
  }

  predicate OccursAt(s: Bytes, secret: Bytes, i: nat) {
    i + |secret| <= |s| && s[i..i + |secret|] == secret
  }

  datatype Span = Span(start: nat, end: nat)

  /** Every place where some secret occurs. */
  ghost function Occurrences(secrets: set<Bytes>, s: Bytes): set<Span> {
    set i: nat, j: nat | 0 <= i < j <= |s| && s[i..j] in secrets :: Span(i, j)
  }

  ghost predicate Covered(spans: set<Span>, b: nat) {
    exists h :: h in spans && h.start <= b < h.end
  }

  /** Some occurrence runs across the boundary before byte `b`. */
  ghost predicate Bridged(spans: set<Span>, b: nat) {
    exists h :: h in spans && h.start < b < h.end
  }

  /** The masked form of the first `k` bytes: an uncovered byte stays, and a marker stands for
      the first byte of each run of bytes that occurrences cover and chain together. */
  ghost function Masked(spans: set<Span>, s: Bytes, k: nat): Bytes
    requires k <= |s|
  {
    if k == 0 then [] else Masked(spans, s, k - 1) + MaskedByte(spans, s, k - 1)
  }

  ghost function MaskedByte(spans: set<Span>, s: Bytes, b: nat): Bytes
    requires b < |s|
  {
    if !Covered(spans, b) then [s[b]] else if !Bridged(spans, b) then REDACTED else []
  }

  /** `reach[i]` is the furthest end of any of `spans` that starts at byte `i`, 0 if none does;
      it stays unallocated until there is a span. */
  ghost predicate Reaches(reach: seq<nat>, n: nat, spans: set<Span>) {
    && (forall h <- spans :: h.start < h.end <= n)
    && (reach == [] ==> spans == {})
    && (reach != [] ==> |reach| == n)
    && (forall i :: 0 <= i < |reach| && reach[i] != 0 ==> Span(i, reach[i]) in spans)
    && (forall h <- spans :: h.start < |reach| && h.end <= reach[h.start])
  }

  function Cover(reach: seq<nat>, n: nat, start: nat, end: nat): (r: seq<nat>)
    requires start < end <= n && (reach == [] || |reach| == n)
    ensures |r| == n
  {
    var table := if reach == [] then seq(n, _ => 0) else reach;
    table[start := if end > table[start] then end else table[start]]
  }

  lemma CoverReaches(reach: seq<nat>, n: nat, spans: set<Span>, start: nat, end: nat)
    requires start < end <= n && Reaches(reach, n, spans)
    ensures Reaches(Cover(reach, n, start, end), n, spans + {Span(start, end)})
  {
  }

  /** The first occurrence at or after `from`. */
  function Find(s: Bytes, secret: Bytes, from: nat): (r: Option<nat>)
    ensures r.Some? ==> from <= r.value && OccursAt(s, secret, r.value)
    ensures forall i :: from <= i < (if r.Some? then r.value else |s|) ==> !OccursAt(s, secret, i)
    decreases |s| - from
  {
    if from + |secret| > |s| then None
    else if OccursAt(s, secret, from) then Some(from)
    else Find(s, secret, from + 1)
  }

  /** A suffix that starts at a boundary is a sequence of whole characters. */
  lemma {:induction false} SuffixUtf8(s: Bytes, i: nat)
    requires Utf8(s) && Boundary(s, i)
    ensures Utf8(s[i..])
    decreases i
  {
    if i == 0 {
      assert s[i..] == s;
    } else {
      var n := CharLen(s[0]);
      BoundaryLater(s, n, i);
      SuffixUtf8(s[n..], i - n);
      SuffixOfSuffix(s, n, i);
    }
  }

  /** Past the first character. */
  lemma BoundaryLater(s: Bytes, n: nat, i: nat)
    requires s != [] && n == CharLen(s[0]) <= |s| && (forall k :: 1 <= k < n ==> Continuation(s[k]))
    requires Boundary(s, i) && i > 0
    ensures n <= i && Boundary(s[n..], i - n)
  {
  }

  lemma SuffixOfSuffix(s: Bytes, n: nat, i: nat)
    requires n <= i <= |s|
    ensures s[n..][i - n..] == s[i..]
  {
  }

  /** A whole-character secret occurs at character boundaries only and ends at one, so slicing
      the text around an occurrence never splits a character. */
  lemma OccurrenceOnBoundaries(s: Bytes, secret: Bytes, i: nat)
    requires Utf8(s) && Utf8(secret) && secret != [] && OccursAt(s, secret, i)
    ensures Boundary(s, i) && Boundary(s, i + |secret|)
  {
    assert s[i] == s[i..i + |secret|][0] == secret[0];
    SuffixUtf8(s, i);
    assert s[i..][..|secret|] == secret;
    PrefixEndsOnBoundary(s[i..], secret);
  }

  lemma {:induction false} PrefixEndsOnBoundary(s: Bytes, p: Bytes)
    requires Utf8(s) && Utf8(p) && |p| <= |s| && s[..|p|] == p
    ensures Boundary(s, |p|)
  {
    if p != [] {
      assert s[0] == s[..|p|][0];
      var n := CharLen(p[0]);
      assert s[n..][..|p[n..]|] == s[..|p|][n..] == p[n..];
      PrefixEndsOnBoundary(s[n..], p[n..]);
    }
  }

  ghost function Elements<T>(xs: seq<T>): set<T> {
    set x | x in xs
  }

  /** `occ` are the occurrences of one secret. */
  ghost predicate AreOccurrences(occ: set<Span>, secret: Bytes, s: Bytes) {
    && (forall h <- occ :: OccursAt(s, secret, h.start) && h.end == h.start + |secret|)
    && (forall i: nat :: OccursAt(s, secret, i) ==> Span(i, i + |secret|) in occ)
  }

  lemma OccurrencesAre(secret: Bytes, s: Bytes)
    requires secret != []
    ensures AreOccurrences(Occurrences({secret}, s), secret, s)
  {
  }

  /** Those of them that start before `limit`. */
  ghost function Starting(occ: set<Span>, limit: nat): set<Span> {
    set h | h in occ && h.start < limit
  }

  lemma AllStarting(done: set<Bytes>, secret: Bytes, s: Bytes)
    ensures Occurrences(done, s) + Starting(Occurrences({secret}, s), |s|) == Occurrences(done + {secret}, s)
  {
  }

  /** The next character boundary after a boundary is one character length away. */
  lemma NextBoundary(s: Bytes, i: nat)
    requires Utf8(s) && Boundary(s, i) && i < |s|
    ensures i + CharLen(s[i]) <= |s| && Boundary(s, i + CharLen(s[i]))
    ensures forall j :: i < j < i + CharLen(s[i]) ==> !Boundary(s, j)
  {
    SuffixUtf8(s, i);
    var t := s[i..];
    var n := CharLen(t[0]);
    PrefixEndsOnBoundary(t, t[..n]) by { assert t[..n][n..] == []; }
    forall j | i < j < i + n ensures !Boundary(s, j) {
      assert Continuation(t[j - i]);
    }
  }

  /** Stepping from one occurrence to the next character misses no occurrence. */
  lemma NextStart(s: Bytes, secret: Bytes, occ: set<Span>, from: nat, start: nat)
    requires Utf8(s) && Utf8(secret) && secret != [] && AreOccurrences(occ, secret, s)
    requires from <= start && OccursAt(s, secret, start)
    requires forall i :: from <= i < start ==> !OccursAt(s, secret, i)
    ensures start + CharLen(s[start]) <= |s|
    ensures Starting(occ, start + CharLen(s[start])) == Starting(occ, from) + {Span(start, start + |secret|)}
  {
    OccurrenceOnBoundaries(s, secret, start);
    NextBoundary(s, start);
    var next := start + CharLen(s[start]);
    forall i | start < i < next ensures !OccursAt(s, secret, i) {
      if OccursAt(s, secret, i) {
        OccurrenceOnBoundaries(s, secret, i);
      }
    }
    StartingStep(secret, s, occ, from, start, next);
  }

  lemma StartingStep(secret: Bytes, s: Bytes, occ: set<Span>, from: nat, start: nat, next: nat)
    requires AreOccurrences(occ, secret, s) && from <= start < next && OccursAt(s, secret, start)
    requires forall i :: from <= i < next && i != start ==> !OccursAt(s, secret, i)
    ensures Starting(occ, next) == Starting(occ, from) + {Span(start, start + |secret|)}
  {
    forall h | h in Starting(occ, next) ensures h in Starting(occ, from) + {Span(start, start + |secret|)} {
      assert OccursAt(s, secret, h.start);
    }
  }

  lemma NoMoreStarting(secret: Bytes, s: Bytes, occ: set<Span>, from: nat)
    requires AreOccurrences(occ, secret, s) && from <= |s|
    requires forall i :: from <= i < |s| ==> !OccursAt(s, secret, i)
    ensures Starting(occ, from) == Starting(occ, |s|)
  {
    forall h | h in Starting(occ, |s|) ensures h in Starting(occ, from) {
      assert OccursAt(s, secret, h.start);
    }
  }

  lemma CoverReachesMore(reach: seq<nat>, n: nat, before: set<Span>, some: set<Span>, more: set<Span>, start: nat,
                         end: nat)
    requires start < end <= n && Reaches(reach, n, before + some) && more == some + {Span(start, end)}
    ensures Reaches(Cover(reach, n, start, end), n, before + more)
  {
    CoverReaches(reach, n, before + some, start, end);
    assert before + more == before + some + {Span(start, end)};
  }

  lemma ScanStep(secret: Bytes, s: Bytes, occ: set<Span>, reach: seq<nat>, before: set<Span>, from: nat, start: nat)
    requires Utf8(s) && Utf8(secret) && secret != [] && AreOccurrences(occ, secret, s)
    requires Reaches(reach, |s|, before + Starting(occ, from))
    requires Find(s, secret, from) == Some(start)
    ensures start + |secret| <= |s| && start + CharLen(s[start]) <= |s|
    ensures Reaches(Cover(reach, |s|, start, start + |secret|), |s|, before + Starting(occ, start + CharLen(s[start])))
  {
    NextStart(s, secret, occ, from, start);
    CoverReachesMore(reach, |s|, before, Starting(occ, from), Starting(occ, start + CharLen(s[start])), start,
                     start + |secret|);
  }

  /** The inner loop of the scan used when no automaton could be built. */
  method ScanOne(secret: Bytes, s: Bytes, table: seq<nat>, ghost before: set<Span>, ghost occ: set<Span>)
    returns (reach: seq<nat>)
    requires Utf8(s) && Utf8(secret) && secret != [] && AreOccurrences(occ, secret, s)
    requires Reaches(table, |s|, before)
    ensures Reaches(reach, |s|, before + Starting(occ, |s|))
  {
    reach := table;
    var from: nat := 0;
    assert before + Starting(occ, from) == before;
    var found := Find(s, secret, from);
    while found.Some?
      invariant from <= |s| && found == Find(s, secret, from)
      invariant Reaches(reach, |s|, before + Starting(occ, from))
      decreases |s| - from
    {
      var start := found.value;
      ScanStep(secret, s, occ, reach, before, from, start);
      reach := Cover(reach, |s|, start, start + |secret|);
      from := start + CharLen(s[start]);
      found := Find(s, secret, from);
    }
    NoMoreStarting(secret, s, occ, from);
  }

  method ReachByScanning(secrets: seq<Bytes>, s: Bytes) returns (reach: seq<nat>)
    requires Utf8(s) && forall x <- secrets :: Utf8(x) && x != []
    ensures Reaches(reach, |s|, Occurrences(Elements(secrets), s))
  {
    reach := [];
    for k := 0 to |secrets|
      invariant Reaches(reach, |s|, Occurrences(Elements(secrets[..k]), s))
    {
      assert secrets[k] in secrets;
      OccurrencesAre(secrets[k], s);
      reach := ScanOne(secrets[k], s, reach, Occurrences(Elements(secrets[..k]), s), Occurrences({secrets[k]}, s));
      AllStarting(Elements(secrets[..k]), secrets[k], s);
      assert Elements(secrets[..k + 1]) == Elements(secrets[..k]) + {secrets[k]};
    }
    assert secrets[..|secrets|] == secrets;
  }

  /** The scan with an automaton, which reports every occurrence of every secret in some order. */
  method ReachByAutomaton(hits: seq<Span>, s: Bytes) returns (reach: seq<nat>)
    requires forall h <- hits :: h.start < h.end <= |s|
    ensures Reaches(reach, |s|, Elements(hits))
  {
    reach := [];
    for k := 0 to |hits|
      invariant Reaches(reach, |s|, Elements(hits[..k]))
    {
      CoverReaches(reach, |s|, Elements(hits[..k]), hits[k].start, hits[k].end);
      reach := Cover(reach, |s|, hits[k].start, hits[k].end);
      assert Elements(hits[..k + 1]) == Elements(hits[..k]) + {hits[k]};
    }
    assert hits[..|hits|] == hits;
  }

  /** Copies the text, replacing each chain of overlapping occurrences by one marker. */
  method Render(s: Bytes, reach: seq<nat>, ghost spans: set<Span>) returns (out: Bytes)
    requires Reaches(reach, |s|, spans)
    ensures out == Masked(spans, s, |s|)
  {
    if reach == [] {
      NothingMasked(spans, s, |s|);
      assert s[..|s|] == s;
      return s;
    }
    out := [];
    var copied: nat, start: nat := 0, 0;
    NothingRendered(spans, s);
    while start < |s|
      invariant Rendered(spans, s, out, copied, start)
      decreases |s| - start
    {
      if reach[start] == 0 {
        Uncovered(s, reach, spans, start, out, copied);
        start := start + 1;
      } else {
        var end := ChainEnd(s, reach, start, spans);
        EmitMarker(s, spans, out, copied, start, end);
        out := out + s[copied..start] + REDACTED;
        copied := end;
        start := end;
      }
    }
    AllRendered(spans, s, out, copied, start);
    out := out + s[copied..];
  }

  /** `out` is the masked form of the text before `copied`, and the bytes from there to `start`
      stay. */
  ghost predicate Rendered(spans: set<Span>, s: Bytes, out: Bytes, copied: nat, start: nat) {
    && copied <= start <= |s|
    && NoneAcross(spans, start)
    && out + s[copied..start] == Masked(spans, s, start)
  }

  lemma NothingRendered(spans: set<Span>, s: Bytes)
    ensures Rendered(spans, s, [], 0, 0)
  {
  }

  lemma AllRendered(spans: set<Span>, s: Bytes, out: Bytes, copied: nat, start: nat)
    requires Rendered(spans, s, out, copied, start) && start == |s|
    ensures out + s[copied..] == Masked(spans, s, |s|)
  {
    assert s[copied..] == s[copied..start];
  }

  lemma EmitMarker(s: Bytes, spans: set<Span>, out: Bytes, copied: nat, start: nat, end: nat)
    requires Rendered(spans, s, out, copied, start)
    requires start <= end <= |s| && NoneAcross(spans, end)
    requires Masked(spans, s, end) == Masked(spans, s, start) + REDACTED
    ensures Rendered(spans, s, out + s[copied..start] + REDACTED, end, end)
  {
    assert s[end..end] == [];
  }

  /** No occurrence runs across the boundary before byte `b`. */
  ghost predicate NoneAcross(spans: set<Span>, b: nat) {
    forall h <- spans :: h.start < b ==> h.end <= b
  }

  /** The occurrences that start before `i` reach as far as `end`, and no further. */
  ghost predicate Chain(spans: set<Span>, i: nat, end: nat) {
    && (forall h <- spans :: h.start < i ==> h.end <= end)
    && (exists h :: h in spans && h.start < i && h.end == end)
  }

  function Further(reach: seq<nat>, i: nat, end: nat): nat
    requires i < |reach|
  {
    if reach[i] > end then reach[i] else end
  }

  /** Where the inner loop ends up from `i` and `end`. */
  function ChainFrom(reach: seq<nat>, i: nat, end: nat): nat
    decreases |reach| - i
  {
    if i < end && i < |reach| then ChainFrom(reach, i + 1, Further(reach, i, end)) else end
  }

  /** The inner loop: the end of the chain of overlapping occurrences that starts at `start`. */
  method ChainEnd(s: Bytes, reach: seq<nat>, start: nat, ghost spans: set<Span>) returns (end: nat)
    requires Reaches(reach, |s|, spans) && reach != [] && start < |s| && reach[start] != 0
    requires NoneAcross(spans, start)
    ensures start < end <= |s|
    ensures NoneAcross(spans, end)
    ensures Masked(spans, s, end) == Masked(spans, s, start) + REDACTED
  {
    end := FollowChain(reach, start, |s|, spans);
    ChainIs(reach, |s|, spans, start, end);
    MarkerAt(s, reach, spans, start);
    BridgedWriteNothing(s, spans, start + 1, end);
  }

  method FollowChain(reach: seq<nat>, start: nat, n: nat, ghost spans: set<Span>) returns (end: nat)
    requires Reaches(reach, n, spans) && start < |reach| && reach[start] != 0
    ensures end == ChainFrom(reach, start + 1, reach[start])
  {
    end := reach[start];
    ReachBound(reach, n, spans, start);
    var i := start + 1;
    while i < end
      invariant i <= end <= |reach| == n
      invariant ChainFrom(reach, i, end) == ChainFrom(reach, start + 1, reach[start])
      decreases |reach| - i
    {
      ReachBound(reach, n, spans, i);
      end := if reach[i] > end then reach[i] else end;
      i := i + 1;
    }
  }

  lemma ReachBound(reach: seq<nat>, n: nat, spans: set<Span>, i: nat)
    requires Reaches(reach, n, spans) && i < |reach|
    ensures |reach| == n && reach[i] <= n && (reach[i] != 0 ==> i < reach[i])
  {
    if reach[i] != 0 { assert Span(i, reach[i]) in spans; }
  }

  lemma {:induction false} ChainFromChain(reach: seq<nat>, n: nat, spans: set<Span>, i: nat, end: nat)
    requires i <= end <= n && Reaches(reach, n, spans) && reach != [] && Chain(spans, i, end)
    ensures end <= ChainFrom(reach, i, end) <= n
    ensures Chain(spans, ChainFrom(reach, i, end), ChainFrom(reach, i, end))
    ensures forall k: nat :: i <= k < ChainFrom(reach, i, end) ==> Bridged(spans, k)
    decreases n - i
  {
    if i < end {
      ChainReach(reach, n, spans, i, end);
      ChainFromChain(reach, n, spans, i + 1, Further(reach, i, end));
      assert Bridged(spans, i);
    }
  }

  /** Nothing is written for bytes that an occurrence bridges. */
  lemma {:induction false} BridgedWriteNothing(s: Bytes, spans: set<Span>, i: nat, end: nat)
    requires i <= end <= |s| && forall k: nat :: i <= k < end ==> Bridged(spans, k)
    ensures Masked(spans, s, end) == Masked(spans, s, i)
  {
    if i < end {
      BridgedWriteNothing(s, spans, i, end - 1);
      BridgedIsCovered(spans, end - 1);
    }
  }

  lemma BridgedIsCovered(spans: set<Span>, b: nat)
    requires Bridged(spans, b)
    ensures Covered(spans, b)
  {
  }

  lemma ChainReach(reach: seq<nat>, n: nat, spans: set<Span>, i: nat, end: nat)
    requires i < end <= n && Reaches(reach, n, spans) && reach != [] && Chain(spans, i, end)
    ensures reach[i] <= n && Chain(spans, i + 1, Further(reach, i, end))
  {
    if reach[i] > end { assert Span(i, reach[i]) in spans; }
  }

  lemma Uncovered(s: Bytes, reach: seq<nat>, spans: set<Span>, b: nat, out: Bytes, copied: nat)
    requires b < |s| && Reaches(reach, |s|, spans) && reach != [] && reach[b] == 0
    requires Rendered(spans, s, out, copied, b)
    ensures Rendered(spans, s, out, copied, b + 1)
  {
    assert forall h <- spans :: h.start != b;
    assert !Covered(spans, b);
    assert s[copied..b + 1] == s[copied..b] + [s[b]];
  }

  lemma MarkerAt(s: Bytes, reach: seq<nat>, spans: set<Span>, b: nat)
    requires b < |s| && Reaches(reach, |s|, spans) && reach != [] && reach[b] != 0
    requires NoneAcross(spans, b)
    ensures Masked(spans, s, b + 1) == Masked(spans, s, b) + REDACTED
  {
    assert Span(b, reach[b]) in spans;
    assert Covered(spans, b) && !Bridged(spans, b);
  }

  lemma ChainStarts(reach: seq<nat>, n: nat, spans: set<Span>, b: nat)
    requires b < n && Reaches(reach, n, spans) && reach != [] && reach[b] != 0
    requires NoneAcross(spans, b)
    ensures b < reach[b] <= n && Chain(spans, b + 1, reach[b])
  {
    assert Span(b, reach[b]) in spans;
  }

  lemma ChainIs(reach: seq<nat>, n: nat, spans: set<Span>, start: nat, end: nat)
    requires start < n && Reaches(reach, n, spans) && reach != [] && reach[start] != 0 && NoneAcross(spans, start)
    requires end == ChainFrom(reach, start + 1, reach[start])
    ensures start < end <= n && NoneAcross(spans, end)
    ensures forall k: nat :: start + 1 <= k < end ==> Bridged(spans, k)
  {
    ChainStarts(reach, n, spans, start);
    ChainFromChain(reach, n, spans, start + 1, reach[start]);
  }

  lemma {:induction false} NothingMasked(spans: set<Span>, s: Bytes, k: nat)
    requires spans == {} && k <= |s|
    ensures Masked(spans, s, k) == s[..k]
  {
    if k > 0 { NothingMasked(spans, s, k - 1); }
  }

  /** Occurrences, each sharing a byte with the next, the first over byte `a` and the last over
      byte `b`. */
  ghost predicate IsChain(spans: set<Span>, chain: seq<Span>, a: nat, b: nat) {
    && chain != []
    && (forall h <- chain :: h in spans && h.start < h.end)
    && (forall k :: 0 < k < |chain| ==> chain[k - 1].start < chain[k].end && chain[k].start < chain[k - 1].end)
    && chain[0].start <= a < chain[0].end
    && chain[|chain| - 1].start <= b < chain[|chain| - 1].end
  }

  /** Two covered bytes stand behind the same marker exactly when a chain of strictly overlapping
      occurrences connects them; occurrences that only touch get markers of their own. */
  lemma OneMarkerPerChain(spans: set<Span>, s: Bytes, a: nat, b: nat)
    requires a <= b < |s| && Covered(spans, a)
    ensures (forall x :: a < x <= b ==> MaskedByte(spans, s, x) == []) <==> exists chain :: IsChain(spans, chain, a, b)
  {
    forall x | a < x <= b ensures MaskedByte(spans, s, x) == [] <==> Bridged(spans, x) {
      assert Bridged(spans, x) ==> Covered(spans, x);
    }
    if forall x :: a < x <= b ==> MaskedByte(spans, s, x) == [] {
      BridgesMakeChain(spans, a, b);
    }
    if chain :| IsChain(spans, chain, a, b) {
      forall x | a < x <= b ensures Bridged(spans, x) { ChainBridges(spans, chain, a, b, x); }
    }
  }

  lemma {:induction false} BridgesMakeChain(spans: set<Span>, a: nat, b: nat)
    requires a <= b && Covered(spans, a) && forall x :: a < x <= b ==> Bridged(spans, x)
    ensures exists chain :: IsChain(spans, chain, a, b)
    decreases b - a
  {
    if a == b {
      var h :| h in spans && h.start <= a < h.end;
      assert IsChain(spans, [h], a, b);
    } else {
      BridgesMakeChain(spans, a, b - 1);
      var chain :| IsChain(spans, chain, a, b - 1);
      assert Bridged(spans, b);
      LongerChain(spans, chain, a, b);
    }
  }

  lemma LinkAdded(spans: set<Span>, chain: seq<Span>, h: Span, a: nat, b: nat)
    requires b > 0 && IsChain(spans, chain, a, b - 1) && h in spans && h.start < b < h.end
    ensures IsChain(spans, chain + [h], a, b)
  {
    var longer := chain + [h];
    assert longer[0] == chain[0] && longer[|chain|] == h;
    forall k | 0 < k < |longer| ensures longer[k - 1].start < longer[k].end && longer[k].start < longer[k - 1].end {
      assert longer[k - 1] == chain[k - 1];
      if k < |chain| { assert longer[k] == chain[k]; }
    }
  }

  lemma LongerChain(spans: set<Span>, chain: seq<Span>, a: nat, b: nat)
    requires b > 0 && IsChain(spans, chain, a, b - 1) && Bridged(spans, b)
    ensures exists longer :: IsChain(spans, longer, a, b)
  {
    var h :| h in spans && h.start < b < h.end;
    LinkAdded(spans, chain, h, a, b);
    assert IsChain(spans, chain + [h], a, b);
  }

  lemma {:induction false} ChainBridges(spans: set<Span>, chain: seq<Span>, a: nat, b: nat, x: nat)
    requires IsChain(spans, chain, a, b) && a < x <= b
    ensures Bridged(spans, x)
    decreases |chain|
  {
    var n := |chain| - 1;
    var last := chain[n];
    assert last in spans;
    if x <= last.start {
      // the previous link reaches past the start of the last one
      assert n > 0;
      var shared := if chain[n - 1].start > last.start then chain[n - 1].start else last.start;
      assert IsChain(spans, chain[..n], a, shared);
      ChainBridges(spans, chain[..n], a, shared, x);
    }
  }

  /** `Matcher::mask`. `automaton` holds the automaton's hits when one could be built; both
      branches produce the same text, which depends on the set of secrets only. */
  method Mask(secrets: seq<Bytes>, automaton: Option<seq<Span>>, s: Bytes) returns (out: Bytes)
    requires Utf8(s) && forall x <- secrets :: Utf8(x) && x != []
    requires automaton.Some? ==> Elements(automaton.value) == Occurrences(Elements(secrets), s)
    ensures out == Masked(Occurrences(Elements(secrets), s), s, |s|)
  {
    ghost var spans := Occurrences(Elements(secrets), s);
    var reach: seq<nat>;
    match automaton {
      case Some(hits) =>
        assert forall h <- hits :: h in spans;
        reach := ReachByAutomaton(hits, s);
      case None => reach := ReachByScanning(secrets, s);
    }
    out := Render(s, reach, spans);
  }
}
