/** Publishing a report as inline review comments (src/github/publish.rs): each finding's comment
    ends in a marker with its id, and the comments already on the pull request are the record of
    what was published. Publishes of one pull request are serialized. */
module Publication {
  import opened Wrappers
  import opened TextOps
  import opened Findings
  import opened ReviewState
  import opened Canonicalization
  import ReviewRun

  const MARKER_START := "<!-- revera-id:"
  const MARKER_END := "-->"

  // ---- the marker ----

  predicate IsHex(c: char) {
    ('0' <= c <= '9') || ('a' <= c <= 'f') || ('A' <= c <= 'F')
  }

  predicate IsMarkerId(id: string) {
    |id| == 12 && forall k :: 0 <= k < |id| ==> IsHex(id[k])
  }

  /** Every id is twelve hexadecimal digits, as the digests the source derives them from are. */
  ghost predicate MakesMarkers(h: Hasher) {
    forall file, key :: IsMarkerId(h(file, key))
  }

  /** What follows the last line break. */
  function LastLine(s: string): string {
    if s == "" then "" else if s[|s| - 1] == '\n' then "" else LastLine(s[..|s| - 1]) + [s[|s| - 1]]
  }

  /** The id in the marker on the last line of a comment, if there is one. */
  function MarkerId(body: string): (r: Option<Id>)
    ensures r.Some? ==> IsMarkerId(r.value)
  {
    MarkerOf(LastLine(TrimEnd(body)))
  }

  function MarkerOf(line: string): (r: Option<Id>)
    ensures r.Some? ==> IsMarkerId(r.value)
  {
    if !StartsWith(line, MARKER_START) then None
    else
      var rest := line[|MARKER_START|..];
      if !EndsWith(rest, MARKER_END) then None
      else
        var id := TrimStart(TrimEnd(rest[..|rest| - |MARKER_END|]));
        if IsMarkerId(id) then Some(id) else None
  }

  lemma {:induction false} LastLineSplits(s: string) returns (before: string)
    ensures s == before + LastLine(s) && '\n' !in LastLine(s)
    ensures before == "" || before[|before| - 1] == '\n'
  {
    if s == "" || s[|s| - 1] == '\n' {
      before := s;
    } else {
      before := LastLineSplits(s[..|s| - 1]);
    }
  }

  lemma {:induction false} LastLineIs(s: string, before: string, line: string)
    requires s == before + line && '\n' !in line && (before == "" || before[|before| - 1] == '\n')
    ensures LastLine(s) == line
    decreases |line|
  {
    if line == "" {
      assert s == before;
    } else {
      var n := |line| - 1;
      assert line[n] in line;
      LastLineIs(s[..|s| - 1], before, line[..n]);
    }
  }

  ghost predicate TwelveHexDigits(id: string) {
    |id| == 12 && forall k :: 0 <= k < 12 ==> id[k] in "0123456789abcdefABCDEF"
  }

  lemma HexDigits(id: string)
    ensures IsMarkerId(id) <==> TwelveHexDigits(id)
    ensures IsMarkerId(id) ==> Tight(id) && '\n' !in id
  {
    forall c: char ensures IsHex(c) <==> c in "0123456789abcdefABCDEF" { HexDigit(c); }
  }

  lemma HexDigit(c: char)
    ensures IsHex(c) <==> c in "0123456789abcdefABCDEF"
  {
    var digits := "0123456789abcdefABCDEF";
    if '0' <= c <= '9' { assert digits[(c - '0') as int] == c; }
    if 'a' <= c <= 'f' { assert digits[10 + (c - 'a') as int] == c; }
    if 'A' <= c <= 'F' { assert digits[16 + (c - 'A') as int] == c; }
  }

  /** The body ends, but for white space, in a line that is the marker of `id`; there may be white space
      around the id. */
  ghost predicate EndsInMarker(body: string, before: string, a: string, id: Id, b: string, after: string) {
    && body == before + "<!-- revera-id:" + a + id + b + "-->" + after
    && (before == "" || before[|before| - 1] == '\n')
    && Blank(a) && Blank(b) && Blank(after) && '\n' !in a + b && TwelveHexDigits(id)
  }

  lemma MarkerFound(body: string, before: string, a: string, id: Id, b: string, after: string)
    requires EndsInMarker(body, before, a, id, b, after)
    ensures MarkerId(body) == Some(id)
  {
    var line := MARKER_START + a + id + b + MARKER_END;
    HexDigits(id);
    Pieces(body, before, a, id, b, after, line);
    MarkerLine(line, a, id, b);
    FromLine(body, before, line, after);
    MarkerOfExactly(line, id);
  }

  lemma Pieces(body: string, before: string, a: string, id: string, b: string, after: string, line: string)
    requires line == MARKER_START + a + id + b + MARKER_END
    ensures body == before + "<!-- revera-id:" + a + id + b + "-->" + after <==> body == before + line + after
  {
    assert before + "<!-- revera-id:" + a + id + b + "-->" + after == before + line + after;
  }

  lemma FromLine(body: string, before: string, line: string, after: string)
    requires body == before + line + after && Blank(after) && (before == "" || before[|before| - 1] == '\n')
    requires '\n' !in line && line != "" && !IsSpace(line[|line| - 1])
    ensures LastLine(TrimEnd(body)) == line
  {
    TrimEndIs(body, before + line, after);
    LastLineIs(before + line, before, line);
  }

  lemma MarkerLine(line: string, a: string, id: Id, b: string)
    requires line == MARKER_START + a + id + b + MARKER_END && Blank(a) && Blank(b) && '\n' !in a + b && IsMarkerId(id)
    ensures '\n' !in line && line[|line| - 1] == '>' && IsMarker(line, id)
  {
    HexDigits(id);
    PaddedTrims(a, id, b);
    Grouped(MARKER_START, a, id, b, MARKER_END);
    NoBreak(a, id, b);
    MarkerRest(line, a + id + b);
    MarkerAround(line, a + id + b, id);
  }

  lemma Grouped(start: string, a: string, id: string, b: string, end: string)
    ensures start + a + id + b + end == start + (a + id + b) + end
  {
  }

  lemma MarkerAround(line: string, padded: string, id: Id)
    requires line == MARKER_START + padded + MARKER_END && TrimStart(TrimEnd(padded)) == id
    ensures IsMarker(line, id) && line[|line| - 1] == '>'
  {
    MarkerRest(line, padded);
    var rest := line[|MARKER_START|..];
    assert rest[..|rest| - |MARKER_END|] == padded;
  }

  lemma PaddedTrims(a: string, id: string, b: string)
    requires Blank(a) && Blank(b) && id != "" && Tight(id)
    ensures TrimStart(TrimEnd(a + id + b)) == id
  {
    TrimEndIs(a + id + b, a + id, b);
    TrimStartIs(a + id, a, id);
  }

  lemma NoBreak(a: string, id: string, b: string)
    requires '\n' !in a + b && '\n' !in id
    ensures '\n' !in a + id + b
  {
    assert forall c <- a :: c in a + b;
    assert forall c <- b :: c in a + b;
  }

  lemma MarkerRest(line: string, padded: string)
    requires line == MARKER_START + padded + MARKER_END
    ensures StartsWith(line, MARKER_START) && EndsWith(line[|MARKER_START|..], MARKER_END)
    ensures line[|MARKER_START|..][..|padded|] == padded && |line[|MARKER_START|..]| == |padded| + |MARKER_END|
    ensures '\n' !in padded ==> '\n' !in line
  {
    assert line[|MARKER_START|..] == padded + MARKER_END;
  }

  lemma MarkerIsThere(body: string, id: Id) returns (before: string, a: string, b: string, after: string)
    requires MarkerId(body) == Some(id)
    ensures EndsInMarker(body, before, a, id, b, after)
  {
    var line := LastLine(TrimEnd(body));
    MarkerOfExactly(line, id);
    after := TrimEndSplits(body);
    before := LastLineSplits(TrimEnd(body));
    HexDigits(id);
    a, b := MarkerParts(line, id);
    Pieces(body, before, a, id, b, after, line);
  }

  /** `line` is the marker of `id`. */
  ghost predicate IsMarker(line: string, id: Id) {
    StartsWith(line, MARKER_START) &&
    var rest := line[|MARKER_START|..];
    EndsWith(rest, MARKER_END) && TrimStart(TrimEnd(rest[..|rest| - |MARKER_END|])) == id
  }

  lemma MarkerOfExactly(line: string, id: Id)
    ensures MarkerOf(line) == Some(id) <==> IsMarker(line, id) && IsMarkerId(id)
  {
  }

  lemma MarkerParts(line: string, id: Id) returns (a: string, b: string)
    requires '\n' !in line && IsMarker(line, id)
    ensures line == MARKER_START + a + id + b + MARKER_END && Blank(a) && Blank(b) && '\n' !in a + b
  {
    var rest := line[|MARKER_START|..];
    var padded := rest[..|rest| - |MARKER_END|];
    Unmarked(line, rest, padded);
    b := TrimEndSplits(padded);
    a := TrimStartSplits(TrimEnd(padded));
    Rejoined(line, a, id, b, padded);
  }

  lemma Unmarked(line: string, rest: string, padded: string)
    requires StartsWith(line, MARKER_START) && rest == line[|MARKER_START|..]
    requires EndsWith(rest, MARKER_END) && padded == rest[..|rest| - |MARKER_END|]
    ensures line == MARKER_START + padded + MARKER_END
  {
    assert rest == padded + MARKER_END;
    assert line == MARKER_START + rest;
  }

  lemma Rejoined(line: string, a: string, id: string, b: string, padded: string)
    requires line == MARKER_START + padded + MARKER_END && padded == a + id + b
    ensures line == MARKER_START + a + id + b + MARKER_END
    ensures forall c <- a + b :: c in line
  {
    assert line == MARKER_START + a + id + b + MARKER_END;
    forall c | c in a + b ensures c in line { assert c in padded; }
  }

  /** The id that is read from a comment is the one in the marker on its last line, and there is none
      without such a marker. */
  lemma MarkerExactly(body: string, id: Id)
    ensures MarkerId(body) == Some(id) <==> exists before, a, b, after :: EndsInMarker(body, before, a, id, b, after)
  {
    if MarkerId(body) == Some(id) {
      var before, a, b, after := MarkerIsThere(body, id);
    }
    if before, a, b, after :| EndsInMarker(body, before, a, id, b, after) {
      MarkerFound(body, before, a, id, b, after);
    }
  }

  function Marker(id: Id): string {
    MARKER_START + id + " " + MARKER_END
  }

  function Body(prose: string, id: Id): string {
    prose + "\n" + Marker(id)
  }

  /** Whatever the comment says before it, the appended marker is what is read back. */
  lemma MarkerRoundTrip(prose: string, id: Id)
    requires TwelveHexDigits(id)
    ensures MarkerId(Body(prose, id)) == Some(id)
  {
    assert Body(prose, id) == (prose + "\n") + "<!-- revera-id:" + "" + id + " " + "-->" + "";
    MarkerFound(Body(prose, id), prose + "\n", "", id, " ", "");
  }

  // ---- comments on the pull request ----

  datatype Comment = Comment(mine: bool, body: string)

  function OwnId(c: Comment): Option<Id> {
    if c.mine then MarkerId(c.body) else None
  }

  /** The ids of our own inline comments; markers in other authors' comments do not count. */
  function PostedIds(cs: seq<Comment>): set<Id> {
    set c | c in cs && OwnId(c).Some? :: OwnId(c).value
  }

  /** No two of our own inline comments carry the same id. */
  ghost predicate NoDuplicates(cs: seq<Comment>) {
    forall i, j :: 0 <= i < j < |cs| && OwnId(cs[i]).Some? ==> OwnId(cs[i]) != OwnId(cs[j])
  }

  function Mine(bodies: seq<string>): (cs: seq<Comment>)
    ensures |cs| == |bodies|
  {
    seq(|bodies|, k requires 0 <= k < |bodies| => Comment(true, bodies[k]))
  }

  /** The planned comments that are posted: those whose finding is not posted yet, up to `max`. */
  function Chosen(tracked: seq<StateFinding>, cs: seq<Comment>, plan: seq<string>, max: nat): seq<string> {
    var marked := MarkedPosted(tracked, PostedIds(cs));
    var open := Filter(plan, (b: string) => MarkerId(b).Some? && !HasPosted(marked, MarkerId(b).value));
    if |open| > max then open[..max] else open
  }

  /** What the plan promises: distinct ids, each of a finding tracked as open or uncertain. */
  ghost predicate PlanOk(tracked: seq<StateFinding>, plan: seq<string>) {
    && DistinctMarkers(plan)
    && forall b <- plan :: MarkerId(b).Some? ==> IsTrackedOpen(tracked, MarkerId(b).value)
  }

  ghost predicate DistinctMarkers(bodies: seq<string>) {
    forall i, j :: 0 <= i < j < |bodies| && MarkerId(bodies[i]).Some? ==> MarkerId(bodies[i]) != MarkerId(bodies[j])
  }

  lemma {:induction false} FilterKeepsMarkersDistinct(bodies: seq<string>, p: string -> bool)
    requires DistinctMarkers(bodies)
    ensures DistinctMarkers(Filter(bodies, p))
  {
    if bodies != [] {
      FilterKeepsMarkersDistinct(bodies[1..], p);
      forall b | b in Filter(bodies[1..], p) && MarkerId(bodies[0]).Some? ensures MarkerId(b) != MarkerId(bodies[0]) {
        var k :| 0 <= k < |bodies[1..]| && bodies[1..][k] == b;
        assert bodies[k + 1] == b;
      }
    }
  }

  /** An id that is on the pull request and tracked open counts as posted. */
  lemma OnPullRequestIsPosted(tracked: seq<StateFinding>, cs: seq<Comment>, id: Id)
    requires id in PostedIds(cs)
    ensures HasPosted(MarkedPosted(tracked, PostedIds(cs)), id) <==> IsTrackedOpen(tracked, id)
  {
    var marked := MarkedPosted(tracked, PostedIds(cs));
    if IsTrackedOpen(tracked, id) {
      var s :| s in tracked && s.id == id && s.status.Live();
      var k :| 0 <= k < |tracked| && tracked[k] == s;
      assert marked[k] in marked;
    }
    if HasPosted(marked, id) {
      var s :| s in marked && s.id == id && s.posted && s.status.Live();
      var k :| 0 <= k < |marked| && marked[k] == s;
      assert tracked[k] in tracked;
    }
  }

  lemma PostingKeepsDistinct(cs: seq<Comment>, bodies: seq<string>)
    requires NoDuplicates(cs) && DistinctMarkers(bodies)
    requires forall b <- bodies :: MarkerId(b).Some? && MarkerId(b).value !in PostedIds(cs)
    ensures NoDuplicates(cs + Mine(bodies))
  {
    var all := cs + Mine(bodies);
    forall i, j | 0 <= i < j < |all| && OwnId(all[i]).Some? ensures OwnId(all[i]) != OwnId(all[j]) {
      if i < |cs| <= j {
        assert cs[i] in cs && OwnId(cs[i]).value in PostedIds(cs);
        assert bodies[j - |cs|] in bodies;
      }
    }
  }

  // ---- one publish, and any number of them ----

  /** The review POST: accepted, rejected, or failed ambiguously with or without landing. */
  datatype Post = Accepted | PlacementRejected | Ambiguous(landed: bool, relisted: bool) | Refused {
    predicate Landed() { Accepted? || (Ambiguous? && landed) }
  }

  /** One run's publish: the state the run left, its plan, and how GitHub answers. Other people's
      comments may arrive before it. */
  datatype Round = Round(tracked: seq<StateFinding>, plan: seq<string>, max: nat, fresh_: bool, listed: bool,
                         post: Post, others: seq<Comment>)

  function AfterPublish(cs: seq<Comment>, r: Round): seq<Comment> {
    var chosen := Chosen(r.tracked, cs, r.plan, r.max);
    if r.fresh_ && r.listed && chosen != [] && r.post.Landed() then cs + Mine(chosen) else cs
  }

  class PullRequest {
    var comments: seq<Comment>

    constructor ()
      ensures comments == []
    {
      comments := [];
    }

    /** Other people comment. */
    method Arrive(others: seq<Comment>)
      modifies this
      ensures comments == old(comments) + others
    {
      comments := comments + others;
    }

    method CreateReview(bodies: seq<string>, post: Post)
      modifies this
      ensures comments == if post.Landed() then old(comments) + Mine(bodies) else old(comments)
    {
      if post.Landed() {
        comments := comments + Mine(bodies);
      }
    }
  }

  function MarkerIds(bodies: seq<string>): set<Id> {
    set b | b in bodies && MarkerId(b).Some? :: MarkerId(b).value
  }

  /** The ids known to be on the pull request when the publish ends. */
  function Confirmed(cs: seq<Comment>, r: Round): set<Id> {
    var chosen := Chosen(r.tracked, cs, r.plan, r.max);
    if !r.fresh_ || !r.listed then {}
    else if chosen != [] && Acknowledged(cs, r, chosen) then PostedIds(cs) + MarkerIds(chosen)
    else PostedIds(cs)
  }

  /** The POST was accepted, or it failed ambiguously but listing again shows every comment. */
  predicate Acknowledged(cs: seq<Comment>, r: Round, chosen: seq<string>) {
    match r.post
    case Accepted => true
    case Ambiguous(_, relisted) => relisted && MarkerIds(chosen) <= PostedIds(AfterPublish(cs, r))
    case _ => false
  }

  /** Whether the publish succeeds; a stale head, nothing to post and a rejected placement are no errors. */
  predicate Succeeds(cs: seq<Comment>, r: Round) {
    var chosen := Chosen(r.tracked, cs, r.plan, r.max);
    !r.fresh_ || (r.listed && (chosen == [] || r.post.PlacementRejected? || Acknowledged(cs, r, chosen)))
  }

  /** Steps 1, 2 and 4 of `publish`: nothing on a stale head or without the listing; otherwise the
      unposted comments go out as one review, and their ids are marked once they are known to be
      there. */
  method Publish(pr: PullRequest, state: Tracker, r: Round) returns (ok: bool)
    requires state.findings == r.tracked
    modifies pr, state
    ensures pr.comments == AfterPublish(old(pr.comments), r)
    ensures ok == Succeeds(old(pr.comments), r)
    ensures state.findings == MarkedPosted(r.tracked, Confirmed(old(pr.comments), r))
  {
    MarkedTwice(r.tracked, {}, {});
    if !r.fresh_ {
      return true;
    }
    if !r.listed {
      return false;
    }
    ghost var cs := pr.comments;
    state.MarkPosted(PostedIds(pr.comments));
    var chosen := Chosen(r.tracked, pr.comments, r.plan, r.max);
    if chosen == [] {
      return true;
    }
    pr.CreateReview(chosen, r.post);
    match r.post {
      case Accepted =>
        ok := true;
        MarkedTwice(r.tracked, PostedIds(cs), MarkerIds(chosen));
        state.MarkPosted(MarkerIds(chosen));
      case PlacementRejected =>
        ok := true;
      case Ambiguous(_, relisted) =>
        ok := relisted && MarkerIds(chosen) <= PostedIds(pr.comments);
        if ok {
          MarkedTwice(r.tracked, PostedIds(cs), MarkerIds(chosen));
          state.MarkPosted(MarkerIds(chosen));
        }
      case Refused =>
        ok := false;
    }
  }

  lemma MarkedTwice(fs: seq<StateFinding>, a: set<Id>, b: set<Id>)
    ensures MarkedPosted(MarkedPosted(fs, a), b) == MarkedPosted(fs, a + b)
    ensures MarkedPosted(fs, {}) == fs
  {
  }

  /** A finding is marked posted only when its comment is on the pull request. */
  lemma ConfirmedIsPosted(cs: seq<Comment>, r: Round)
    ensures Confirmed(cs, r) <= PostedIds(AfterPublish(cs, r))
  {
    var chosen := Chosen(r.tracked, cs, r.plan, r.max);
    var after := AfterPublish(cs, r);
    forall id | id in PostedIds(cs) ensures id in PostedIds(after) {
      var c :| c in cs && OwnId(c) == Some(id);
      assert c in after;
    }
    if r.fresh_ && r.listed && chosen != [] && r.post.Accepted? {
      forall id | id in MarkerIds(chosen) ensures id in PostedIds(after) {
        var b :| b in chosen && MarkerId(b) == Some(id);
        var k :| 0 <= k < |chosen| && chosen[k] == b;
        assert Mine(chosen)[k] in after && OwnId(Mine(chosen)[k]) == Some(id);
      }
    }
  }

  /** Every planned id that is on the pull request already is tracked as open or uncertain. */
  ghost predicate ReplansAreTracked(cs: seq<Comment>, r: Round) {
    forall b <- r.plan :: Replanned(cs, b) ==> IsTrackedOpen(r.tracked, MarkerId(b).value)
  }

  ghost predicate Replanned(cs: seq<Comment>, b: string) {
    MarkerId(b).Some? && MarkerId(b).value in PostedIds(cs)
  }

  lemma TrackedReplansKeepDistinct(cs: seq<Comment>, r: Round)
    requires NoDuplicates(cs) && DistinctMarkers(r.plan) && ReplansAreTracked(cs, r)
    ensures NoDuplicates(AfterPublish(cs, r))
  {
    var marked := MarkedPosted(r.tracked, PostedIds(cs));
    var p := (b: string) => MarkerId(b).Some? && !HasPosted(marked, MarkerId(b).value);
    FilterKeepsMarkersDistinct(r.plan, p);
    var chosen := Chosen(r.tracked, cs, r.plan, r.max);
    forall b | b in chosen ensures MarkerId(b).Some? && MarkerId(b).value !in PostedIds(cs) {
      assert b in Filter(r.plan, p);
      if MarkerId(b).value in PostedIds(cs) {
        OnPullRequestIsPosted(r.tracked, cs, MarkerId(b).value);
      }
    }
    PostingKeepsDistinct(cs, chosen);
  }

  /** One publish keeps the pull request free of duplicates, however the POST turns out. */
  lemma PublishKeepsDistinct(cs: seq<Comment>, r: Round)
    requires NoDuplicates(cs) && PlanOk(r.tracked, r.plan)
    ensures NoDuplicates(AfterPublish(cs, r))
  {
    TrackedReplansKeepDistinct(cs, r);
  }

  // ---- what is posted ----

  /** The planned comment is for a finding that state does not call posted, and whose id is not both on the
      pull request and tracked open. */
  ghost predicate Wanted(tracked: seq<StateFinding>, cs: seq<Comment>, b: string) {
    MarkerId(b).Some? &&
    var id := MarkerId(b).value;
    !HasPosted(tracked, id) && !(id in PostedIds(cs) && IsTrackedOpen(tracked, id))
  }

  /** How many of these comments are wanted. */
  ghost function WantedAmong(tracked: seq<StateFinding>, cs: seq<Comment>, plan: seq<string>): nat {
    if plan == [] then 0
    else WantedAmong(tracked, cs, plan[..|plan| - 1]) + if Wanted(tracked, cs, plan[|plan| - 1]) then 1 else 0
  }

  lemma MarkingPosts(tracked: seq<StateFinding>, ids: set<Id>, id: Id)
    ensures HasPosted(MarkedPosted(tracked, ids), id) <==>
      HasPosted(tracked, id) || (id in ids && IsTrackedOpen(tracked, id))
  {
    var marked := MarkedPosted(tracked, ids);
    if HasPosted(marked, id) {
      var s :| s in marked && s.id == id && s.posted && s.status.Live();
      var k :| 0 <= k < |marked| && marked[k] == s;
      assert tracked[k] in tracked;
    }
    if s :| s in tracked && s.id == id && s.status.Live() && (s.posted || id in ids) {
      var k :| 0 <= k < |tracked| && tracked[k] == s;
      assert marked[k] in marked;
    }
  }

  lemma {:induction false} WantedCount(tracked: seq<StateFinding>, cs: seq<Comment>, plan: seq<string>, p: string -> bool)
    requires forall b <- plan :: p(b) <==> Wanted(tracked, cs, b)
    ensures |Filter(plan, p)| == WantedAmong(tracked, cs, plan)
  {
    if plan != [] {
      var n := |plan| - 1;
      WantedCount(tracked, cs, plan[..n], p);
      FilterSplit(plan, plan[..n], [plan[n]], p);
      assert plan[n] in plan;
    }
  }

  /** What a comment being wanted decides: it is chosen exactly if fewer than `max` before it are. */
  lemma ChosenExactly(tracked: seq<StateFinding>, cs: seq<Comment>, plan: seq<string>, max: nat, k: nat)
    requires k < |plan| && DistinctMarkers(plan) && MarkerId(plan[k]).Some?
    ensures plan[k] in Chosen(tracked, cs, plan, max) <==>
      Wanted(tracked, cs, plan[k]) && WantedAmong(tracked, cs, plan[..k]) < max
  {
    var marked := MarkedPosted(tracked, PostedIds(cs));
    var p := (b: string) => MarkerId(b).Some? && !HasPosted(marked, MarkerId(b).value);
    forall b ensures p(b) <==> Wanted(tracked, cs, b) {
      if MarkerId(b).Some? { MarkingPosts(tracked, PostedIds(cs), MarkerId(b).value); }
    }
    WantedCount(tracked, cs, plan[..k], p);
    if p(plan[k]) {
      FilterAt(plan, p, k);
      FilterKeepsMarkersDistinct(plan, p);
      OnlyOnce(Filter(plan, p), |Filter(plan[..k], p)|, max);
    }
  }

  lemma OnlyOnce(bodies: seq<string>, i: nat, max: nat)
    requires i < |bodies| && DistinctMarkers(bodies) && MarkerId(bodies[i]).Some?
    ensures bodies[i] in (if |bodies| > max then bodies[..max] else bodies) <==> i < max
  {
    var taken := if |bodies| > max then bodies[..max] else bodies;
    if i < |taken| { assert taken[i] == bodies[i]; }
    if bodies[i] in taken {
      var j :| 0 <= j < |taken| && taken[j] == bodies[i];
      assert i == j || i < j || j < i;
    }
  }

  /** After a landed publish a finding that had no comment has one exactly if it is planned, state did not
      call it posted, and fewer than `max` wanted comments precede it in the plan. */
  lemma PostsExactly(cs: seq<Comment>, r: Round, k: nat)
    requires r.fresh_ && r.listed && (r.post.Accepted? || (r.post.Ambiguous? && r.post.landed))
    requires DistinctMarkers(r.plan)
    requires k < |r.plan| && MarkerId(r.plan[k]).Some? && MarkerId(r.plan[k]).value !in PostedIds(cs)
    ensures MarkerId(r.plan[k]).value in PostedIds(AfterPublish(cs, r)) <==>
      !HasPosted(r.tracked, MarkerId(r.plan[k]).value) && WantedAmong(r.tracked, cs, r.plan[..k]) < r.max
  {
    var id := MarkerId(r.plan[k]).value;
    var chosen := Chosen(r.tracked, cs, r.plan, r.max);
    ChosenExactly(r.tracked, cs, r.plan, r.max, k);
    PostedAfter(cs, r, id);
    if id in MarkerIds(chosen) {
      var b :| b in chosen && MarkerId(b) == Some(id);
      ChosenArePlanned(r.tracked, cs, r.plan, r.max);
      var j :| 0 <= j < |r.plan| && r.plan[j] == b;
      assert j == k || j < k || k < j;
    }
  }

  /** The `k`-th planned comment is to be posted: it is wanted, and fewer than `max` before it are. */
  ghost predicate Due(cs: seq<Comment>, r: Round, k: nat) {
    k < |r.plan| && Wanted(r.tracked, cs, r.plan[k]) && WantedAmong(r.tracked, cs, r.plan[..k]) < r.max
  }

  /** Every comment that is due has its id among these. */
  ghost predicate DueAmong(cs: seq<Comment>, r: Round, ids: set<Id>) {
    forall k: nat :: Due(cs, r, k) ==> MarkerId(r.plan[k]).value in ids
  }

  ghost predicate NoneDue(cs: seq<Comment>, r: Round) {
    forall k: nat :: !Due(cs, r, k)
  }

  lemma DueIsChosen(cs: seq<Comment>, r: Round, k: nat)
    requires DistinctMarkers(r.plan) && Due(cs, r, k)
    ensures r.plan[k] in Chosen(r.tracked, cs, r.plan, r.max)
    ensures MarkerId(r.plan[k]).value in MarkerIds(Chosen(r.tracked, cs, r.plan, r.max))
  {
    ChosenExactly(r.tracked, cs, r.plan, r.max, k);
  }

  lemma ChosenIsDue(cs: seq<Comment>, r: Round, b: string) returns (k: nat)
    requires DistinctMarkers(r.plan) && b in Chosen(r.tracked, cs, r.plan, r.max)
    ensures Due(cs, r, k) && r.plan[k] == b
  {
    ChosenArePlanned(r.tracked, cs, r.plan, r.max);
    k :| 0 <= k < |r.plan| && r.plan[k] == b;
    ChosenExactly(r.tracked, cs, r.plan, r.max, k);
  }

  lemma NoneChosen(cs: seq<Comment>, r: Round)
    requires DistinctMarkers(r.plan)
    ensures Chosen(r.tracked, cs, r.plan, r.max) == [] <==> NoneDue(cs, r)
  {
    var chosen := Chosen(r.tracked, cs, r.plan, r.max);
    if chosen != [] {
      assert chosen[0] in chosen;
      var k := ChosenIsDue(cs, r, chosen[0]);
    } else {
      forall k: nat ensures !Due(cs, r, k) { if Due(cs, r, k) { DueIsChosen(cs, r, k); } }
    }
  }

  lemma ChosenAmong(cs: seq<Comment>, r: Round, ids: set<Id>)
    requires DistinctMarkers(r.plan)
    ensures MarkerIds(Chosen(r.tracked, cs, r.plan, r.max)) <= ids <==> DueAmong(cs, r, ids)
  {
    var chosen := Chosen(r.tracked, cs, r.plan, r.max);
    if MarkerIds(chosen) <= ids {
      forall k: nat | Due(cs, r, k) ensures MarkerId(r.plan[k]).value in ids { DueIsChosen(cs, r, k); }
    }
    if DueAmong(cs, r, ids) {
      forall id | id in MarkerIds(chosen) ensures id in ids {
        var b :| b in chosen && MarkerId(b) == Some(id);
        var k := ChosenIsDue(cs, r, b);
      }
    }
  }

  /** The POST was accepted, or listing again after an ambiguous failure shows every comment that is due. */
  ghost predicate KnownPosted(cs: seq<Comment>, r: Round) {
    r.post.Accepted? || (r.post.Ambiguous? && r.post.relisted && DueAmong(cs, r, PostedIds(AfterPublish(cs, r))))
  }

  lemma KnownExactly(cs: seq<Comment>, r: Round)
    requires DistinctMarkers(r.plan)
    ensures Acknowledged(cs, r, Chosen(r.tracked, cs, r.plan, r.max)) <==> KnownPosted(cs, r)
  {
    ChosenAmong(cs, r, PostedIds(AfterPublish(cs, r)));
  }

  /** A publish fails only if the comments cannot be listed, or one is due and its POST is refused or fails
      without all that is due showing up afterwards. */
  lemma SucceedsExactly(cs: seq<Comment>, r: Round)
    requires DistinctMarkers(r.plan)
    ensures Succeeds(cs, r) <==>
      !r.fresh_ || (r.listed && (NoneDue(cs, r) || r.post.PlacementRejected? || KnownPosted(cs, r)))
  {
    NoneChosen(cs, r);
    KnownExactly(cs, r);
  }

  /** The ids that state then marks: none without a listing, those on the pull request after a publish that
      is known to have posted, and those that were there before it otherwise. */
  lemma ConfirmedExactly(cs: seq<Comment>, r: Round)
    requires DistinctMarkers(r.plan)
    ensures !(r.fresh_ && r.listed) ==> Confirmed(cs, r) == {}
    ensures r.fresh_ && r.listed && KnownPosted(cs, r) ==> Confirmed(cs, r) == PostedIds(AfterPublish(cs, r))
    ensures r.fresh_ && r.listed && !KnownPosted(cs, r) ==> Confirmed(cs, r) == PostedIds(cs)
  {
    KnownExactly(cs, r);
    if r.fresh_ && r.listed && KnownPosted(cs, r) {
      forall id ensures id in Confirmed(cs, r) <==> id in PostedIds(AfterPublish(cs, r)) { PostedAfter(cs, r, id); }
    }
  }

  lemma ChosenArePlanned(tracked: seq<StateFinding>, cs: seq<Comment>, plan: seq<string>, max: nat)
    ensures forall b <- Chosen(tracked, cs, plan, max) :: b in plan && MarkerId(b).Some?
  {
  }

  lemma PostedAppend(cs: seq<Comment>, bodies: seq<string>, id: Id)
    ensures id in PostedIds(cs + Mine(bodies)) <==> id in PostedIds(cs) || id in MarkerIds(bodies)
  {
    var after := cs + Mine(bodies);
    if c :| c in cs && OwnId(c) == Some(id) { assert c in after; }
    if b :| b in bodies && MarkerId(b) == Some(id) {
      var k :| 0 <= k < |bodies| && bodies[k] == b;
      assert Mine(bodies)[k] in after;
    }
    if c :| c in after && OwnId(c) == Some(id) && c !in cs {
      var k :| 0 <= k < |bodies| && Mine(bodies)[k] == c;
      assert bodies[k] in bodies;
    }
  }

  lemma PostedAfter(cs: seq<Comment>, r: Round, id: Id)
    ensures id in PostedIds(AfterPublish(cs, r)) <==>
      id in PostedIds(cs)
      || (r.fresh_ && r.listed && r.post.Landed() && id in MarkerIds(Chosen(r.tracked, cs, r.plan, r.max)))
  {
    PostedAppend(cs, Chosen(r.tracked, cs, r.plan, r.max), id);
  }

  /** Nothing else appears: every comment that was there stays, and every other one is a planned comment of
      ours, posted by a fresh and listed publish that landed. */
  lemma PostsOnlyPlanned(cs: seq<Comment>, r: Round)
    ensures cs <= AfterPublish(cs, r)
    ensures forall k :: |cs| <= k < |AfterPublish(cs, r)| ==>
      AfterPublish(cs, r)[k].mine && AfterPublish(cs, r)[k].body in r.plan
    ensures (r.fresh_ && r.listed && (r.post.Accepted? || (r.post.Ambiguous? && r.post.landed)))
      || AfterPublish(cs, r) == cs
  {
    var chosen := Chosen(r.tracked, cs, r.plan, r.max);
    forall k | |cs| <= k < |AfterPublish(cs, r)| ensures AfterPublish(cs, r)[k].body in r.plan {
      assert AfterPublish(cs, r)[k].body == chosen[k - |cs|] && chosen[k - |cs|] in chosen;
    }
  }

  lemma ChosenInOrder(tracked: seq<StateFinding>, cs: seq<Comment>, plan: seq<string>, max: nat, i: nat, j: nat)
      returns (a: nat, b: nat)
    requires i < j < |Chosen(tracked, cs, plan, max)|
    ensures a < b < |plan|
    ensures Chosen(tracked, cs, plan, max)[i] == plan[a] && Chosen(tracked, cs, plan, max)[j] == plan[b]
  {
    var marked := MarkedPosted(tracked, PostedIds(cs));
    var p := (b: string) => MarkerId(b).Some? && !HasPosted(marked, MarkerId(b).value);
    a, b := FilterInOrder(plan, p, i, j);
  }

  lemma AfterIs(cs: seq<Comment>, r: Round)
    ensures AfterPublish(cs, r) == cs || AfterPublish(cs, r) == cs + Mine(Chosen(r.tracked, cs, r.plan, r.max))
  {
  }

  lemma MineAt(cs: seq<Comment>, bodies: seq<string>, after: seq<Comment>, k: nat)
    requires (after == cs || after == cs + Mine(bodies)) && |cs| <= k < |after|
    ensures k - |cs| < |bodies| && after[k].body == bodies[k - |cs|]
  {
  }

  /** The new comments come in the order of the plan. */
  lemma PostsInOrder(cs: seq<Comment>, r: Round, after: seq<Comment>, i: nat, j: nat) returns (a: nat, b: nat)
    requires after == AfterPublish(cs, r) && |cs| <= i < j < |after|
    ensures a < b < |r.plan| && after[i].body == r.plan[a] && after[j].body == r.plan[b]
  {
    AfterIs(cs, r);
    a, b := TakenInOrder(cs, r, after, Chosen(r.tracked, cs, r.plan, r.max), i, j);
  }

  lemma TakenInOrder(cs: seq<Comment>, r: Round, after: seq<Comment>, chosen: seq<string>, i: nat, j: nat)
      returns (a: nat, b: nat)
    requires chosen == Chosen(r.tracked, cs, r.plan, r.max) && (after == cs || after == cs + Mine(chosen))
    requires |cs| <= i < j < |after|
    ensures a < b < |r.plan| && after[i].body == r.plan[a] && after[j].body == r.plan[b]
  {
    MineAt(cs, chosen, after, i);
    MineAt(cs, chosen, after, j);
    a, b := ChosenInOrder(r.tracked, cs, r.plan, r.max, i - |cs|, j - |cs|);
  }

  ghost function AfterRounds(cs: seq<Comment>, rounds: seq<Round>): seq<Comment>
    decreases |rounds|
  {
    if rounds == [] then cs else AfterRounds(AfterPublish(cs + rounds[0].others, rounds[0]), rounds[1..])
  }

  ghost predicate Foreign(cs: seq<Comment>) {
    forall c <- cs :: !c.mine
  }

  lemma ForeignKeepsDistinct(cs: seq<Comment>, others: seq<Comment>)
    requires NoDuplicates(cs) && Foreign(others)
    ensures NoDuplicates(cs + others)
  {
    var all := cs + others;
    forall i, j | 0 <= i < j < |all| && OwnId(all[i]).Some? ensures OwnId(all[i]) != OwnId(all[j]) {
      if j >= |cs| { assert all[j] in others; }
      if i >= |cs| { assert all[i] in others; }
    }
  }

  /** Over any number of runs - whatever state each starts from, whatever fails, whoever else
      comments in between - no finding is ever commented on twice. */
  lemma {:induction false} NeverTwice(cs: seq<Comment>, rounds: seq<Round>)
    requires NoDuplicates(cs)
    requires forall k :: 0 <= k < |rounds| ==> PlanOk(rounds[k].tracked, rounds[k].plan) && Foreign(rounds[k].others)
    ensures NoDuplicates(AfterRounds(cs, rounds))
    decreases |rounds|
  {
    if rounds != [] {
      ForeignKeepsDistinct(cs, rounds[0].others);
      PublishKeepsDistinct(cs + rounds[0].others, rounds[0]);
      NeverTwice(AfterPublish(cs + rounds[0].others, rounds[0]), rounds[1..]);
    }
  }

  // ---- plans come from runs ----

  /** The publishable findings chosen for inline placement. */
  function Planned(final: seq<Finding>, inline: Finding -> bool): (r: seq<Finding>)
    ensures forall f :: f in r <==> f in final && f.Publishable() && inline(f)
  {
    Filter(final, (f: Finding) => f.Publishable() && inline(f))
  }

  /** Their comments. */
  function Plan(h: Hasher, final: seq<Finding>, inline: Finding -> bool, prose: Finding -> string): (r: seq<string>)
    ensures |r| == |Planned(final, inline)|
  {
    var chosen := Planned(final, inline);
    seq(|chosen|, k requires 0 <= k < |chosen| => Body(prose(chosen[k]), chosen[k].IdBy(h)))
  }

  /** Each comment of a plan carries the id of its finding, so no two carry the same. */
  lemma PlanMarkers(h: Hasher, final: seq<Finding>, inline: Finding -> bool, prose: Finding -> string)
    requires MakesMarkers(h) && DistinctIds(h, final)
    ensures forall k :: 0 <= k < |Planned(final, inline)| ==>
      MarkerId(Plan(h, final, inline, prose)[k]) == Some(Planned(final, inline)[k].IdBy(h))
    ensures DistinctIds(h, Planned(final, inline)) && DistinctMarkers(Plan(h, final, inline, prose))
  {
    var chosen, plan := Planned(final, inline), Plan(h, final, inline, prose);
    FilterKeepsDistinct(h, final, (f: Finding) => f.Publishable() && inline(f));
    forall k | 0 <= k < |chosen| ensures MarkerId(plan[k]) == Some(chosen[k].IdBy(h)) {
      HexDigits(chosen[k].IdBy(h));
      MarkerRoundTrip(prose(chosen[k]), chosen[k].IdBy(h));
    }
  }

  /** A run that accounts for its open findings plans only comments that may be posted. */
  lemma PlanOfRun(h: Hasher, tracked: seq<StateFinding>, final: seq<Finding>, inline: Finding -> bool,
                  prose: Finding -> string)
    requires MakesMarkers(h) && DistinctIds(h, final) && ReviewRun.Accounts(h, tracked, final)
    ensures PlanOk(tracked, Plan(h, final, inline, prose))
  {
    var chosen, plan := Planned(final, inline), Plan(h, final, inline, prose);
    PlanMarkers(h, final, inline, prose);
    forall b | b in plan && MarkerId(b).Some? ensures IsTrackedOpen(tracked, MarkerId(b).value) {
      var k :| 0 <= k < |plan| && plan[k] == b;
      assert chosen[k] in chosen;
      PublishableIsTracked(h, tracked, final, chosen[k]);
    }
  }

  lemma PublishableIsTracked(h: Hasher, tracked: seq<StateFinding>, final: seq<Finding>, f: Finding)
    requires ReviewRun.Accounts(h, tracked, final) && f in final && f.Publishable()
    ensures IsTrackedOpen(tracked, f.IdBy(h))
  {
    var k :| 0 <= k < |final| && final[k] == f;
    assert PublishableId(h, final, f.IdBy(h));
    var e := Look(tracked, f.IdBy(h));
    assert e.value in tracked;
  }

  /** Without that guarantee - an id on the pull request that state no longer tracks, as can happen
      with more than 200 open findings - the comment is posted a second time; and only then. */
  lemma DuplicateExactlyWhenUntracked(cs: seq<Comment>, r: Round)
    requires NoDuplicates(cs) && DistinctMarkers(r.plan)
    requires r.fresh_ && r.listed && r.post.Landed() && |r.plan| <= r.max
    ensures NoDuplicates(AfterPublish(cs, r)) <==> ReplansAreTracked(cs, r)
  {
    if ReplansAreTracked(cs, r) {
      TrackedReplansKeepDistinct(cs, r);
    } else {
      var b :| b in r.plan && Replanned(cs, b) && !IsTrackedOpen(r.tracked, MarkerId(b).value);
      UntrackedIsPostedAgain(cs, r, b);
    }
  }

  lemma UntrackedIsPostedAgain(cs: seq<Comment>, r: Round, b: string)
    requires r.fresh_ && r.listed && r.post.Landed() && |r.plan| <= r.max
    requires b in r.plan && Replanned(cs, b) && !IsTrackedOpen(r.tracked, MarkerId(b).value)
    ensures !NoDuplicates(AfterPublish(cs, r))
  {
    var id := MarkerId(b).value;
    OnPullRequestIsPosted(r.tracked, cs, id);
    var chosen := Chosen(r.tracked, cs, r.plan, r.max);
    assert b in chosen;
    var k :| 0 <= k < |chosen| && chosen[k] == b;
    var c :| c in cs && OwnId(c) == Some(id);
    var i :| 0 <= i < |cs| && cs[i] == c;
    var all := cs + Mine(chosen);
    assert OwnId(all[i]) == Some(id) && OwnId(all[|cs| + k]) == Some(id);
  }
}
