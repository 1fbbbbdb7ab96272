/** The two scorers' accounting on top of the maximum matching. Whether a finding matches a
    defect (`isTp`, `matches`) is an arbitrary relation here. */
module Scoring {
  import opened Matching
  import opened Wrappers
  import P = Places

  /** The positions of `xs`, in order, whose element satisfies `p`. */
  function Positions<T>(xs: seq<T>, p: T -> bool): (ps: seq<nat>)
    ensures forall j :: 0 <= j < |ps| ==> ps[j] < |xs| && p(xs[ps[j]])
    ensures forall i: nat :: i in ps <==> i < |xs| && p(xs[i])
    ensures forall j, k :: 0 <= j < k < |ps| ==> ps[j] < ps[k]
  {
    if xs == [] then []
    else
      var n := |xs| - 1;
      Positions(xs[..n], p) + if p(xs[n]) then [n] else []
  }

  function Select<T>(xs: seq<T>, p: T -> bool): seq<T> {
    var ps := Positions(xs, p);
    seq(|ps|, j requires 0 <= j < |ps| => xs[ps[j]])
  }

  /** `adj[l]`: the positions in `right` that the left element `l` is related to. */
  function Candidates<L, R>(left: seq<L>, right: seq<R>, related: (L, R) -> bool): (adj: Graph)
    ensures |adj| == |left|
    ensures forall l: nat, r: nat :: l < |left| ==> (r in adj[l] <==> r < |right| && related(left[l], right[r]))
  {
    seq(|left|, l requires 0 <= l < |left| => Positions(right, r => related(left[l], r)))
  }

  /** An assignment of distinct right elements to left elements along related pairs. */
  ghost predicate IsPairing<L, R>(left: seq<L>, right: seq<R>, related: (L, R) -> bool, m: map<nat, nat>) {
    && (forall l <- m :: l < |left| && m[l] < |right| && related(left[l], right[m[l]]))
    && (forall l, k :: l in m && k in m && m[l] == m[k] ==> l == k)
  }

  ghost predicate IsMaximumPairing<L, R>(left: seq<L>, right: seq<R>, related: (L, R) -> bool, m: map<nat, nat>) {
    && IsPairing(left, right, related, m)
    && forall other :: IsPairing(left, right, related, other) ==> |other| <= |m|
  }

  /** Turning an injective map around keeps its size. */
  function Inverse(m: map<nat, nat>): (r: map<nat, nat>)
    requires forall k, k' :: k in m && k' in m && m[k] == m[k'] ==> k == k'
    ensures forall v :: v in r <==> exists k :: k in m && m[k] == v
    ensures forall v :: v in r ==> r[v] in m && m[r[v]] == v
    ensures forall k :: k in m ==> m[k] in r && r[m[k]] == k
    ensures |r| == |m|
  {
    InverseSize(m, map v | v in m.Values :: Preimage(m, v));
    map v | v in m.Values :: Preimage(m, v)
  }

  function Preimage(m: map<nat, nat>, v: nat): (k: nat)
    requires v in m.Values
    requires forall k, k' :: k in m && k' in m && m[k] == m[k'] ==> k == k'
    ensures k in m && m[k] == v
  {
    assert exists k :: k in m && m[k] == v;
    var k :| k in m && m[k] == v; k
  }

  lemma InverseSize(m: map<nat, nat>, r: map<nat, nat>)
    requires forall k, k' :: k in m && k' in m && m[k] == m[k'] ==> k == k'
    requires forall v :: v in r ==> r[v] in m && m[r[v]] == v
    requires forall k :: k in m ==> m[k] in r
    ensures |r| == |m|
  {
    assert forall v, v' :: v in r && v' in r && r[v] == r[v'] ==> m[r[v]] == v && m[r[v']] == v';
    InjectionBound(r, m.Keys);
    InjectionBound(m, r.Keys);
  }

  lemma PairingIsMatching<L, R>(left: seq<L>, right: seq<R>, related: (L, R) -> bool, m: map<nat, nat>)
    requires IsPairing(left, right, related, m)
    ensures IsMatching(Candidates(left, right, related), Inverse(m))
  {
  }

  lemma MatchingIsPairing<L, R>(left: seq<L>, right: seq<R>, related: (L, R) -> bool, m: map<nat, nat>)
    requires IsMatching(Candidates(left, right, related), m)
    ensures IsPairing(left, right, related, Inverse(m))
  {
  }

  /** Left element to right element: the scorers' result, turned around. */
  method MatchFindings<L, R>(left: seq<L>, right: seq<R>, related: (L, R) -> bool) returns (matches: map<nat, nat>)
    ensures IsMaximumPairing(left, right, related, matches)
  {
    var owner := MaximumMatching(Candidates(left, right, related));
    matches := Inverse(owner);
    MatchingIsPairing(left, right, related, owner);
    forall other | IsPairing(left, right, related, other) ensures |other| <= |matches| {
      PairingIsMatching(left, right, related, other);
      assert |Inverse(other)| <= |owner|;
    }
  }

  /** No related pair has both ends free: either end of a free element is taken by someone else. */
  lemma NoFreePair<L, R>(left: seq<L>, right: seq<R>, related: (L, R) -> bool, m: map<nat, nat>, l: nat, r: nat)
    requires IsMaximumPairing(left, right, related, m)
    requires l < |left| && r < |right| && related(left[l], right[r]) && l !in m
    ensures exists k :: k in m && k != l && m[k] == r
  {
    if forall k :: k in m ==> m[k] != r {
      OneMorePair(left, right, related, m, l, r);
    }
  }

  lemma OneMorePair<L, R>(left: seq<L>, right: seq<R>, related: (L, R) -> bool, m: map<nat, nat>, l: nat, r: nat)
    requires IsPairing(left, right, related, m) && l !in m && forall k :: k in m ==> m[k] != r
    requires l < |left| && r < |right| && related(left[l], right[r])
    ensures IsPairing(left, right, related, m[l := r]) && |m[l := r]| == |m| + 1
  {
    assert m[l := r].Keys == m.Keys + {l};
  }

  /** Restricting the right side to a subsequence cannot raise the maximum. */
  lemma SelectionMatchesNoMore<L, R>(left: seq<L>, right: seq<R>, related: (L, R) -> bool, p: R -> bool,
                                     whole: map<nat, nat>, part: map<nat, nat>)
    requires IsMaximumPairing(left, right, related, whole)
    requires IsPairing(left, Select(right, p), related, part)
    ensures |part| <= |whole|
  {
    var ps := Positions(right, p);
    var lifted := map l | l in part :: ps[part[l]];
    assert lifted.Keys == part.Keys;
    forall l, k | l in lifted && k in lifted && lifted[l] == lifted[k] ensures l == k {
      assert part[l] < part[k] || part[k] < part[l] || part[l] == part[k];
    }
    assert IsPairing(left, right, related, lifted);
  }

  /** The positions below `n` that are not in `used`. */
  function Unused(n: nat, used: set<nat>): (ps: seq<nat>)
    ensures forall j :: 0 <= j < |ps| ==> ps[j] < n && ps[j] !in used
    ensures forall i: nat :: i in ps <==> i < n && i !in used
  {
    if n == 0 then [] else Unused(n - 1, used) + if n - 1 in used then [] else [n - 1]
  }

  lemma {:induction false} UnusedSize(n: nat, used: set<nat>)
    requires forall u <- used :: u < n
    ensures |Unused(n, used)| == n - |used|
    decreases n
  {
    if n == 0 {
      assert used == {};
    } else {
      var rest := used - {n - 1};
      UnusedSize(n - 1, rest);
      UnusedSame(n - 1, used, rest);
      assert |rest| == |used| - if n - 1 in used then 1 else 0;
    }
  }

  lemma {:induction false} UnusedSame(n: nat, used: set<nat>, other: set<nat>)
    requires forall u: nat :: u < n ==> (u in used <==> u in other)
    ensures Unused(n, used) == Unused(n, other)
    decreases n
  {
    if n > 0 { UnusedSame(n - 1, used, other); }
  }

  datatype Status = Accepted | Rejected | Uncertain | Unvalidated
  datatype Drop<F> = Drop(finding: F, reason: string)
  datatype Stage = WasRejected | WasUncertain | MatchedOtherDefect | Dropped(reason: string) | NeverProposed | Unattributed

  /** Where a missed defect was lost. `dropped` is the funnel's drop list; None when the report
      has no funnel. */
  function MissStage<F, D>(findings: seq<F>, status: F -> Status, isTp: (F, D) -> bool, dropped: Option<seq<Drop<F>>>,
                           d: D): Stage {
    var judged := Positions(findings, f => (status(f) == Rejected || status(f) == Uncertain) && isTp(f, d));
    if judged != [] then (if status(findings[judged[0]]) == Rejected then WasRejected else WasUncertain)
    else if exists i :: 0 <= i < |findings| && status(findings[i]) == Accepted && isTp(findings[i], d) then MatchedOtherDefect
    else if dropped.None? then Unattributed
    else
      var lost := Positions(dropped.value, (x: Drop<F>) => isTp(x.finding, d));
      if lost != [] then Dropped(dropped.value[lost[0]].reason) else NeverProposed
  }

  function AcceptedOf<F>(findings: seq<F>, status: F -> Status): seq<F> {
    Select(findings, f => status(f) == Accepted)
  }

  /** How many of `xs`, leaving out the positions in `used`, satisfy `p`. */
  function CountUnused<T>(xs: seq<T>, used: set<nat>, p: T -> bool): (n: nat)
    ensures n <= |Unused(|xs|, used)|
  {
    var rest := Unused(|xs|, used);
    PositionsSize(rest, (i: nat) => i < |xs| && p(xs[i]));
    |Positions(rest, (i: nat) => i < |xs| && p(xs[i]))|
  }

  function Stages<F, D>(findings: seq<F>, status: F -> Status, defects: seq<D>, isTp: (F, D) -> bool,
                        dropped: Option<seq<Drop<F>>>, found: set<nat>): (stages: seq<Stage>)
  {
    var missed := Unused(|defects|, found);
    seq(|missed|, k requires 0 <= k < |missed| => MissStage(findings, status, isTp, dropped, defects[missed[k]]))
  }

  // ---- what these count and say ----

  lemma {:induction false} UnusedDistinct(n: nat, used: set<nat>)
    ensures forall j, k :: 0 <= j < k < |Unused(n, used)| ==> Unused(n, used)[j] != Unused(n, used)[k]
  {
    if n > 0 { UnusedDistinct(n - 1, used); }
  }

  /** It is the number of places that are not used and hold an element that satisfies `p`. */
  lemma CountExactly<T>(xs: seq<T>, used: set<nat>, p: T -> bool)
    ensures CountUnused(xs, used, p) == |set k: nat | k < |xs| && k !in used && p(xs[k])|
  {
    UnusedDistinct(|xs|, used);
    PositionsCount(Unused(|xs|, used), (i: nat) => i < |xs| && p(xs[i]),
                   set k: nat | k < |xs| && k !in used && p(xs[k]));
  }

  lemma {:induction false} PositionsCount(rest: seq<nat>, q: nat -> bool, places: set<nat>)
    requires forall j, k :: 0 <= j < k < |rest| ==> rest[j] != rest[k]
    requires forall k: nat :: k in places <==> k in rest && q(k)
    ensures |Positions(rest, q)| == |places|
    decreases |rest|
  {
    if rest == [] {
      assert places == {};
    } else {
      var n := |rest| - 1;
      var last := rest[n];
      forall k: nat ensures k in places - {last} <==> k in rest[..n] && q(k) { InFront(rest, k); }
      PositionsCount(rest[..n], q, places - {last});
      assert last in places <==> q(last);
    }
  }

  lemma InFront(rest: seq<nat>, k: nat)
    requires rest != [] && forall i, j :: 0 <= i < j < |rest| ==> rest[i] != rest[j]
    ensures k in rest[..|rest| - 1] <==> k in rest && k != rest[|rest| - 1]
  {
    if k in rest && k != rest[|rest| - 1] {
      var i :| 0 <= i < |rest| && rest[i] == k;
      assert rest[..|rest| - 1][i] == k;
    }
  }

  /** The selected elements are those that satisfy `p`, each at the place that the number of such elements
      before it gives. */
  lemma {:induction false} SelectedInOrder<T>(xs: seq<T>, p: T -> bool, k: nat)
    requires k < |xs| && p(xs[k])
    ensures |Select(xs[..k], p)| < |Select(xs, p)| && Select(xs, p)[|Select(xs[..k], p)|] == xs[k]
    decreases |xs|
  {
    var n := |xs| - 1;
    if k < n {
      SelectedInOrder(xs[..n], p, k);
      assert xs[..n][..k] == xs[..k];
    }
  }

  lemma SelectedOnly<T>(xs: seq<T>, p: T -> bool, j: nat)
    requires j < |Select(xs, p)|
    ensures Select(xs, p)[j] in xs && p(Select(xs, p)[j])
  {
  }

  /** A finding that the validator turned down matches the defect. */
  ghost predicate TurnedDown<F, D>(findings: seq<F>, status: F -> Status, isTp: (F, D) -> bool, d: D, i: nat) {
    i < |findings| && (status(findings[i]) == Rejected || status(findings[i]) == Uncertain) && isTp(findings[i], d)
  }

  /** And it is the first such finding. */
  ghost predicate FirstDown<F, D>(findings: seq<F>, status: F -> Status, isTp: (F, D) -> bool, d: D, i: nat) {
    TurnedDown(findings, status, isTp, d, i) && forall j: nat :: j < i ==> !TurnedDown(findings, status, isTp, d, j)
  }

  ghost predicate NoneDown<F, D>(findings: seq<F>, status: F -> Status, isTp: (F, D) -> bool, d: D) {
    forall i: nat :: !TurnedDown(findings, status, isTp, d, i)
  }

  ghost predicate SomeAccepted<F, D>(findings: seq<F>, status: F -> Status, isTp: (F, D) -> bool, d: D) {
    exists i :: 0 <= i < |findings| && status(findings[i]) == Accepted && isTp(findings[i], d)
  }

  ghost predicate FirstDrop<F, D>(dropped: seq<Drop<F>>, isTp: (F, D) -> bool, d: D, i: nat) {
    i < |dropped| && isTp(dropped[i].finding, d) && forall j :: 0 <= j < i ==> !isTp(dropped[j].finding, d)
  }

  /** The first finding that was turned down decides where a defect was lost. */
  lemma DownDecides<F, D>(findings: seq<F>, status: F -> Status, isTp: (F, D) -> bool,
                          dropped: Option<seq<Drop<F>>>, d: D, i: nat)
    requires FirstDown(findings, status, isTp, d, i)
    ensures MissStage(findings, status, isTp, dropped, d) ==
      if status(findings[i]) == Rejected then WasRejected else WasUncertain
  {
    var p := f => (status(f) == Rejected || status(f) == Uncertain) && isTp(f, d);
    forall j: nat | j < i ensures !p(findings[j]) { assert !TurnedDown(findings, status, isTp, d, j); }
    FirstPosition(findings, p, i);
  }

  lemma NoneJudged<F, D>(findings: seq<F>, status: F -> Status, isTp: (F, D) -> bool, d: D)
    requires NoneDown(findings, status, isTp, d)
    ensures Positions(findings, f => (status(f) == Rejected || status(f) == Uncertain) && isTp(f, d)) == []
  {
    var judged := Positions(findings, f => (status(f) == Rejected || status(f) == Uncertain) && isTp(f, d));
    if judged != [] { assert TurnedDown(findings, status, isTp, d, judged[0]); }
  }

  /** Without one it is whether an accepted finding matches, and else whether drops are recorded. */
  lemma AcceptedDecides<F, D>(findings: seq<F>, status: F -> Status, isTp: (F, D) -> bool,
                              dropped: Option<seq<Drop<F>>>, d: D)
    requires NoneDown(findings, status, isTp, d)
    ensures MissStage(findings, status, isTp, dropped, d) == MatchedOtherDefect <==> SomeAccepted(findings, status, isTp, d)
    ensures !SomeAccepted(findings, status, isTp, d) && dropped.None? ==>
      MissStage(findings, status, isTp, dropped, d) == Unattributed
  {
    NoneJudged(findings, status, isTp, d);
  }

  /** Then it is the first recorded drop that matches. */
  lemma DropDecides<F, D>(findings: seq<F>, status: F -> Status, isTp: (F, D) -> bool, dropped: seq<Drop<F>>, d: D)
    requires NoneDown(findings, status, isTp, d) && !SomeAccepted(findings, status, isTp, d)
    ensures forall i: nat :: FirstDrop(dropped, isTp, d, i) ==>
      MissStage(findings, status, isTp, Some(dropped), d) == Dropped(dropped[i].reason)
    ensures (forall x <- dropped :: !isTp(x.finding, d)) ==>
      MissStage(findings, status, isTp, Some(dropped), d) == NeverProposed
  {
    NoneJudged(findings, status, isTp, d);
    forall i: nat | FirstDrop(dropped, isTp, d, i)
      ensures MissStage(findings, status, isTp, Some(dropped), d) == Dropped(dropped[i].reason)
    {
      FirstPosition(dropped, (x: Drop<F>) => isTp(x.finding, d), i);
    }
  }

  lemma FirstPosition<T>(xs: seq<T>, p: T -> bool, i: nat)
    requires i < |xs| && p(xs[i]) && forall j :: 0 <= j < i ==> !p(xs[j])
    ensures Positions(xs, p) != [] && Positions(xs, p)[0] == i
  {
    var ps := Positions(xs, p);
    assert i in ps;
    var k :| 0 <= k < |ps| && ps[k] == i;
    FirstIsLeast(ps, k);
  }

  lemma FirstIsLeast(ps: seq<nat>, k: nat)
    requires k < |ps| && forall i, j :: 0 <= i < j < |ps| ==> ps[i] < ps[j]
    ensures ps[0] <= ps[k]
  {
  }

  lemma UnusedSplits(n: nat, used: set<nat>, d: nat) returns (rest: seq<nat>)
    requires d <= n
    ensures Unused(n, used) == Unused(d, used) + rest
    decreases n
  {
    if n == d {
      rest := [];
    } else {
      rest := UnusedSplits(n - 1, used, d);
      var more := if n - 1 in used then [] else [n - 1];
      AddOn(Unused(d, used), rest, more);
      rest := rest + more;
    }
  }

  lemma AddOn(a: seq<nat>, b: seq<nat>, c: seq<nat>)
    ensures a + (b + c) == a + b + c
  {
  }

  lemma UnusedNext(d: nat, used: set<nat>)
    requires d !in used
    ensures Unused(d + 1, used) == Unused(d, used) + [d]
  {
  }

  /** The stages are listed in the order of the missed defects. */
  lemma StageAt<F, D>(findings: seq<F>, status: F -> Status, defects: seq<D>, isTp: (F, D) -> bool,
                      dropped: Option<seq<Drop<F>>>, found: set<nat>, d: nat)
    requires d < |defects| && d !in found
    ensures var stages, k := Stages(findings, status, defects, isTp, dropped, found), |Unused(d, found)|;
      k < |stages| && stages[k] == MissStage(findings, status, isTp, dropped, defects[d])
  {
    var rest := UnusedSplits(|defects|, found, d + 1);
    UnusedNext(d, found);
  }

  datatype Tally = Tally(tp: nat, fn: nat, fp: nat, extraValid: nat, tpInline: nat, fpInline: nat, stages: seq<Stage>)

  /** The accounting of eval/score.py. `inlined` says which accepted findings have an inline
      comment; `alsoValid` which are real defects outside the planted set. */
  method Score<F, D>(findings: seq<F>, status: F -> Status, defects: seq<D>, isTp: (F, D) -> bool,
                     alsoValid: F -> bool, inlined: F -> bool, dropped: Option<seq<Drop<F>>>)
    returns (t: Tally, matches: map<nat, nat>, inlineMatches: map<nat, nat>)
    ensures IsMaximumPairing(defects, AcceptedOf(findings, status), (d, f) => isTp(f, d), matches)
    ensures t.tp == |matches| && t.tp + t.fn == |defects|
    ensures t.tp + t.fp + t.extraValid == |AcceptedOf(findings, status)|
    ensures t.extraValid == CountUnused(AcceptedOf(findings, status), matches.Values, alsoValid)
    ensures IsMaximumPairing(defects, Select(AcceptedOf(findings, status), inlined),
                             (d, f) => isTp(f, d), inlineMatches)
    ensures t.tpInline == |inlineMatches| && t.tpInline <= t.tp
    ensures t.fpInline == CountUnused(Select(AcceptedOf(findings, status), inlined), inlineMatches.Values, f => !alsoValid(f))
    ensures t.tpInline + t.fpInline <= |Select(AcceptedOf(findings, status), inlined)|
    ensures t.stages == Stages(findings, status, defects, isTp, dropped, matches.Keys) && |t.stages| == t.fn
  {
    var accepted := AcceptedOf(findings, status);
    var related := (d, f) => isTp(f, d);
    matches := MatchFindings(defects, accepted, related);
    PairingSizes(defects, accepted, related, matches);
    UnusedSize(|accepted|, matches.Values);
    UnusedSize(|defects|, matches.Keys);
    var extra := CountUnused(accepted, matches.Values, alsoValid);
    var inline := Select(accepted, inlined);
    inlineMatches := MatchFindings(defects, inline, related);
    SelectionMatchesNoMore(defects, accepted, related, inlined, matches, inlineMatches);
    PairingSizes(defects, inline, related, inlineMatches);
    UnusedSize(|inline|, inlineMatches.Values);
    var fpInline := CountUnused(inline, inlineMatches.Values, f => !alsoValid(f));
    var stages := Stages(findings, status, defects, isTp, dropped, matches.Keys);
    t := Tally(|matches|, |defects| - |matches|, |accepted| - |matches| - extra, extra, |inlineMatches|, fpInline, stages);
  }

  lemma PairingSizes<L, R>(left: seq<L>, right: seq<R>, related: (L, R) -> bool, m: map<nat, nat>)
    requires IsPairing(left, right, related, m)
    ensures |m| <= |left| && |m| <= |right|
    ensures |m.Values| == |m| && forall v <- m.Values :: v < |right|
  {
    InjectionBound(m, Indices(|right|));
    InjectionBound(Inverse(m), Indices(|left|));
    assert m.Values == Inverse(m).Keys;
  }

  lemma {:induction false} PositionsSize<T>(xs: seq<T>, p: T -> bool)
    ensures |Positions(xs, p)| <= |xs|
  {
    if xs != [] { PositionsSize(xs[..|xs| - 1], p); }
  }

  /** The label `MatchedOtherDefect` is true: an accepted finding matches the missed defect and
      is the one the matching gave to a different defect. */
  lemma OtherDefectIsTrue<F, D>(findings: seq<F>, status: F -> Status, defects: seq<D>, isTp: (F, D) -> bool,
                                dropped: Option<seq<Drop<F>>>, matches: map<nat, nat>, d: nat)
    returns (other: nat)
    requires IsMaximumPairing(defects, AcceptedOf(findings, status), (d, f) => isTp(f, d), matches)
    requires d < |defects| && d !in matches
    requires MissStage(findings, status, isTp, dropped, defects[d]) == MatchedOtherDefect
    ensures other in matches && other != d && matches[other] < |AcceptedOf(findings, status)|
    ensures isTp(AcceptedOf(findings, status)[matches[other]], defects[d])
  {
    var a := AcceptedPosition(findings, status, isTp, dropped, defects[d]);
    NoFreePair(defects, AcceptedOf(findings, status), (d, f) => isTp(f, d), matches, d, a);
    other :| other in matches && other != d && matches[other] == a;
  }

  lemma AcceptedPosition<F, D>(findings: seq<F>, status: F -> Status, isTp: (F, D) -> bool,
                               dropped: Option<seq<Drop<F>>>, d: D)
    returns (a: nat)
    requires MissStage(findings, status, isTp, dropped, d) == MatchedOtherDefect
    ensures a < |AcceptedOf(findings, status)| && isTp(AcceptedOf(findings, status)[a], d)
  {
    var i :| 0 <= i < |findings| && status(findings[i]) == Accepted && isTp(findings[i], d);
    a := SelectedAt(findings, f => status(f) == Accepted, i);
  }

  lemma SelectedAt<T>(xs: seq<T>, p: T -> bool, i: nat) returns (a: nat)
    requires i < |xs| && p(xs[i])
    ensures a < |Select(xs, p)| && Select(xs, p)[a] == xs[i]
  {
    var ps := Positions(xs, p);
    assert i in ps;
    a :| 0 <= a < |ps| && ps[a] == i;
  }
}
