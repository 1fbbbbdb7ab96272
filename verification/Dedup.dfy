/** The removal-only duplicate judgment after validation (src/pipeline/dedup.rs). */
module Dedup {
  import opened Wrappers
  import opened EvidenceRefs
  import opened Findings

  /** A ref the judge submits: `new:i`, `posted:i`, or any other string. */
  datatype Ref = New(i: nat) | Posted(i: nat) | Other(text: string)

  datatype Error = GroupTooSmall | RepeatedRef | UnknownRef

  type Group = seq<Ref>

  predicate Known(fs: seq<Finding>, carried: seq<Id>, r: Ref) {
    match r
    case New(i) => i < |fs| && fs[i].Publishable()
    case Posted(i) => i < |carried|
    case Other(_) => false
  }

  ghost predicate GroupOk(fs: seq<Finding>, carried: seq<Id>, g: Group) {
    && |g| >= 2
    && (forall r <- g :: Known(fs, carried, r))
    && (forall j, k :: 0 <= j < k < |g| ==> g[j] != g[k])
  }

  ghost predicate Disjoint(groups: seq<Group>) {
    forall j, k, r :: 0 <= j < k < |groups| && r in groups[j] ==> r !in groups[k]
  }

  ghost predicate GroupsOk(fs: seq<Finding>, carried: seq<Id>, groups: seq<Group>) {
    (forall g <- groups :: GroupOk(fs, carried, g)) && Disjoint(groups)
  }

  ghost function Refs(groups: seq<Group>): set<Ref> {
    set k, r | 0 <= k < |groups| && r in groups[k] :: r
  }

  method CheckGroup(fs: seq<Finding>, carried: seq<Id>, g: Group, seen: set<Ref>) returns (r: Result<set<Ref>, Error>)
    ensures r.Ok? <==> GroupOk(fs, carried, g) && forall x <- g :: x !in seen
    ensures r.Ok? ==> r.value == seen + set x | x in g
  {
    if |g| < 2 {
      return Err(GroupTooSmall);
    }
    var all := seen;
    for k := 0 to |g|
      invariant all == seen + set x | x in g[..k]
      invariant forall j :: 0 <= j < k ==> Known(fs, carried, g[j]) && g[j] !in seen
      invariant forall i, j :: 0 <= i < j < k ==> g[i] != g[j]
    {
      if g[k] in all {
        assert g[k] in seen || exists j :: 0 <= j < k && g[j] == g[k];
        return Err(RepeatedRef);
      }
      all := all + {g[k]};
      if !Known(fs, carried, g[k]) {
        assert g[k] in g;
        return Err(UnknownRef);
      }
      assert g[..k + 1] == g[..k] + [g[k]];
    }
    assert g[..|g|] == g;
    return Ok(all);
  }

  /** All groups are checked before anything is removed. */
  method CheckGroups(fs: seq<Finding>, carried: seq<Id>, groups: seq<Group>) returns (ok: bool)
    ensures ok <==> GroupsOk(fs, carried, groups)
  {
    var seen: set<Ref> := {};
    for k := 0 to |groups|
      invariant seen == Refs(groups[..k])
      invariant GroupsOk(fs, carried, groups[..k])
    {
      var r := CheckGroup(fs, carried, groups[k], seen);
      if r.Err? {
        assert groups[k] in groups;
        if GroupOk(fs, carried, groups[k]) {
          var x :| x in groups[k] && x in seen;
          var j :| 0 <= j < k && x in groups[..k][j];
          assert x in groups[j];
        }
        return false;
      }
      seen := r.value;
      assert groups[..k + 1] == groups[..k] + [groups[k]];
    }
    assert groups[..|groups|] == groups;
    return true;
  }

  // ---- applying one group ----

  function InsertSorted(xs: seq<nat>, x: nat): (r: seq<nat>)
    requires forall j, k :: 0 <= j < k < |xs| ==> xs[j] <= xs[k]
    ensures forall j, k :: 0 <= j < k < |r| ==> r[j] <= r[k]
    ensures forall y :: y in r <==> y in xs || y == x
    ensures |r| == |xs| + 1
    ensures r[0] == if xs == [] || x <= xs[0] then x else xs[0]
  {
    if xs == [] || x <= xs[0] then [x] + xs else [xs[0]] + InsertSorted(xs[1..], x)
  }

  /** The indices of the new findings of a group, sorted. */
  function NewOf(g: Group): (r: seq<nat>)
    ensures forall j, k :: 0 <= j < k < |r| ==> r[j] <= r[k]
    ensures forall i :: i in r <==> New(i) in g
  {
    if g == [] then []
    else
      var rest := NewOf(g[1..]);
      if g[0].New? then InsertSorted(rest, g[0].i) else rest
  }

  /** The lowest index of a carried finding in the group. */
  function PostedOf(g: Group): (r: Option<nat>)
    ensures r.Some? ==> Posted(r.value) in g
    ensures forall j :: Posted(j) in g ==> r.Some? && r.value <= j
  {
    if g == [] then None
    else
      var rest := PostedOf(g[1..]);
      if g[0].Posted? && (rest.None? || g[0].i <= rest.value) then Some(g[0].i) else rest
  }

  predicate AllIn(fs: seq<Finding>, xs: seq<nat>) {
    forall k :: 0 <= k < |xs| ==> xs[k] < |fs|
  }

  /** The most severe of `xs`, the first of those. */
  function MostSevere(fs: seq<Finding>, xs: seq<nat>): (w: nat)
    requires xs != [] && AllIn(fs, xs)
    ensures w < |fs|
  {
    var n := |xs| - 1;
    if n == 0 then xs[0]
    else
      var a := MostSevere(fs, xs[..n]);
      if fs[xs[n]].severity.Rank() > fs[a].severity.Rank() then xs[n] else a
  }

  lemma {:induction false} MostSevereIs(fs: seq<Finding>, xs: seq<nat>)
    requires xs != [] && AllIn(fs, xs)
    requires forall j, k :: 0 <= j < k < |xs| ==> xs[j] <= xs[k]
    ensures MostSevere(fs, xs) in xs
    ensures forall k :: 0 <= k < |xs| ==> fs[xs[k]].severity.Rank() <= fs[MostSevere(fs, xs)].severity.Rank()
    ensures forall k :: 0 <= k < |xs| && fs[xs[k]].severity == fs[MostSevere(fs, xs)].severity ==> MostSevere(fs, xs) <= xs[k]
  {
    if |xs| > 1 { MostSevereIs(fs, xs[..|xs| - 1]); }
  }

  ghost predicate InRange(fs: seq<Finding>, g: Group) {
    forall r <- g :: r.New? ==> r.i < |fs|
  }

  ghost predicate AllKnown(fs: seq<Finding>, carried: seq<Id>, g: Group) {
    g != [] && InRange(fs, g) && forall r <- g :: Known(fs, carried, r)
  }

  /** The new finding that stays; none does when the group has a carried one. */
  function Winner(fs: seq<Finding>, g: Group): Option<nat>
    requires InRange(fs, g)
  {
    if PostedOf(g).Some? || NewOf(g) == [] then None
    else
      assert forall k :: 0 <= k < |NewOf(g)| ==> NewOf(g)[k] in NewOf(g);
      Some(MostSevere(fs, NewOf(g)))
  }

  /** The id a group's losers are duplicates of. */
  function Target(h: Hasher, fs: seq<Finding>, carried: seq<Id>, g: Group): Id
    requires AllKnown(fs, carried, g)
  {
    var posted := PostedOf(g);
    if posted.Some? then carried[posted.value]
    else
      assert g[0] in g && g[0].New? && g[0].i in NewOf(g);
      fs[Winner(fs, g).value].IdBy(h)
  }

  ghost predicate Loses(fs: seq<Finding>, g: Group, i: nat)
    requires InRange(fs, g)
  {
    New(i) in g && Winner(fs, g) != Some(i)
  }

  predicate SamePlace(a: Evidence, b: Evidence) {
    a.path == b.path && a.startLine == b.startLine && a.endLine == b.endLine
  }

  predicate HasPlace(es: seq<Evidence>, e: Evidence) {
    exists x :: x in es && SamePlace(x, e)
  }

  ghost predicate HasPlaces(es: seq<Evidence>, more: seq<Evidence>) {
    forall e <- more :: HasPlace(es, e)
  }

  function AddPlaces(had: seq<Evidence>, more: seq<Evidence>): (r: seq<Evidence>)
    ensures had <= r && forall e :: e in r ==> e in had || e in more
    decreases |more|
  {
    if more == [] then had
    else AddPlaces(if HasPlace(had, more[0]) then had else had + [more[0]], more[1..])
  }

  lemma MorePlaces(few: seq<Evidence>, many: seq<Evidence>, e: Evidence)
    requires few <= many && HasPlace(few, e)
    ensures HasPlace(many, e)
  {
    var x :| x in few && SamePlace(x, e);
    assert x in many;
  }

  lemma {:induction false} AddPlacesHasAll(had: seq<Evidence>, more: seq<Evidence>)
    ensures HasPlaces(AddPlaces(had, more), more)
    decreases |more|
  {
    if more != [] {
      var next := if HasPlace(had, more[0]) then had else had + [more[0]];
      AddPlacesHasAll(next, more[1..]);
      if next != had { assert SamePlace(next[|had|], more[0]); }
      MorePlaces(next, AddPlaces(had, more), more[0]);
    }
  }

  /** No place is added that is there already. */
  lemma {:induction false} PlacesOnce(had: seq<Evidence>, more: seq<Evidence>, j: nat)
    requires |had| <= j < |AddPlaces(had, more)|
    ensures forall x <- AddPlaces(had, more)[..j] :: var e := AddPlaces(had, more)[j];
      x.path != e.path || x.startLine != e.startLine || x.endLine != e.endLine
    decreases |more|
  {
    var r := AddPlaces(had, more);
    var next := if HasPlace(had, more[0]) then had else had + [more[0]];
    if j >= |next| {
      PlacesOnce(next, more[1..], j);
    } else {
      assert r[..j] == had && r[j] == next[j] == more[0];
      forall x | x in had ensures !SamePlace(x, more[0]) { assert !HasPlace(had, more[0]); }
    }
  }

  /** What a loser contributes: its evidence, and its own location. */
  function Contribution(f: Finding): seq<Evidence> {
    f.evidence + [Evidence(f.file, f.startLine, f.End(), f.title)]
  }

  ghost predicate FromLoser(fs: seq<Finding>, g: Group, e: Evidence)
    requires InRange(fs, g)
  {
    exists j: nat :: j < |fs| && Loses(fs, g, j) && e in Contribution(fs[j])
  }

  /** `after` is `before` with the group applied. */
  ghost predicate GroupApplied(h: Hasher, carried: seq<Id>, before: seq<Finding>, after: seq<Finding>, g: Group)
    requires AllKnown(before, carried, g)
  {
    && |after| == |before|
    && forall i: nat :: i < |before| && New(i) in g ==>
      if Loses(before, g, i) then after[i] == before[i].(duplicateOf := Some(Target(h, before, carried, g)))
      else
        && after[i] == before[i].(evidence := after[i].evidence) && before[i].evidence <= after[i].evidence
        && (forall e <- after[i].evidence :: e in before[i].evidence || FromLoser(before, g, e))
        && forall j: nat :: j < |before| && Loses(before, g, j) ==> HasPlaces(after[i].evidence, Contribution(before[j]))
  }

  ghost predicate Outside(groups: seq<Group>, i: nat) {
    forall g <- groups :: New(i) !in g
  }

  /** The whole result: every group applied to the findings as they were, and everything else
      untouched. */
  ghost predicate Applied(h: Hasher, carried: seq<Id>, before: seq<Finding>, after: seq<Finding>, groups: seq<Group>)
  {
    && |after| == |before|
    && (forall j :: 0 <= j < |groups| ==>
          AllKnown(before, carried, groups[j]) && GroupApplied(h, carried, before, after, groups[j]))
    && (forall i: nat :: i < |before| && Outside(groups, i) ==> after[i] == before[i])
  }

  function PublishableCount(fs: seq<Finding>): nat {
    if fs == [] then 0
    else PublishableCount(fs[..|fs| - 1]) + if fs[|fs| - 1].Publishable() then 1 else 0
  }

  lemma {:induction false} DropOne(fs: seq<Finding>, i: nat, id: Id)
    requires i < |fs| && fs[i].Publishable()
    ensures PublishableCount(fs[i := fs[i].(duplicateOf := Some(id))]) == PublishableCount(fs) - 1
    ensures PublishableCount(fs) > 0
    decreases |fs|
  {
    var n := |fs| - 1;
    var f := fs[i].(duplicateOf := Some(id));
    if i < n {
      DropOne(fs[..n], i, id);
      assert fs[i := f][..n] == fs[..n][i := f];
    } else {
      assert fs[i := f][..n] == fs[..n];
    }
  }

  lemma {:induction false} SameCount(fs: seq<Finding>, i: nat, f: Finding)
    requires i < |fs| && fs[i].Publishable() == f.Publishable()
    ensures PublishableCount(fs[i := f]) == PublishableCount(fs)
    decreases |fs|
  {
    var n := |fs| - 1;
    if i < n {
      SameCount(fs[..n], i, f);
      assert fs[i := f][..n] == fs[..n][i := f];
    } else {
      assert fs[i := f][..n] == fs[..n];
    }
  }

  /** The indices of a group's new findings are distinct. */
  lemma {:induction false} NewOfStrict(g: Group)
    requires forall j, k :: 0 <= j < k < |g| ==> g[j] != g[k]
    ensures forall j, k :: 0 <= j < k < |NewOf(g)| ==> NewOf(g)[j] < NewOf(g)[k]
  {
    if g != [] {
      NewOfStrict(g[1..]);
      assert g[0] !in g[1..];
      if g[0].New? { InsertStrict(NewOf(g[1..]), g[0].i); }
    }
  }

  lemma {:induction false} InsertStrict(xs: seq<nat>, x: nat)
    requires forall j, k :: 0 <= j < k < |xs| ==> xs[j] < xs[k]
    requires x !in xs
    ensures forall j, k :: 0 <= j < k < |InsertSorted(xs, x)| ==> InsertSorted(xs, x)[j] < InsertSorted(xs, x)[k]
  {
    if xs != [] && x > xs[0] {
      InsertStrict(xs[1..], x);
      var r := InsertSorted(xs[1..], x);
      assert forall k :: 0 <= k < |r| ==> r[k] in r && xs[0] < r[k];
    }
  }

  /** The losers among `done` carry `id`, the winner may have gained evidence, nothing else changed. */
  ghost predicate Partly(before: seq<Finding>, now: seq<Finding>, done: seq<nat>, winner: Option<nat>, id: Id) {
    && |now| == |before|
    && forall i: nat :: i < |before| ==>
      if winner == Some(i) then now[i] == before[i].(evidence := now[i].evidence) && before[i].evidence <= now[i].evidence
      else now[i] == if i in done then before[i].(duplicateOf := Some(id)) else before[i]
  }

  ghost predicate FromDone(before: seq<Finding>, done: seq<nat>, w: nat, e: Evidence) {
    exists j: nat :: j in done && j != w && j < |before| && e in Contribution(before[j])
  }

  /** The winner holds the evidence and the location of every loser among `done`, and nothing more. */
  ghost predicate Gathered(before: seq<Finding>, now: seq<Finding>, done: seq<nat>, winner: Option<nat>) {
    winner.Some? ==>
      && winner.value < |now| == |before|
      && (forall e <- now[winner.value].evidence ::
            e in before[winner.value].evidence || FromDone(before, done, winner.value, e))
      && forall j: nat :: j in done && j != winner.value && j < |before| ==>
           HasPlaces(now[winner.value].evidence, Contribution(before[j]))
  }

  lemma MoreDone(before: seq<Finding>, done: seq<nat>, w: nat, i: nat, e: Evidence)
    requires FromDone(before, done, w, e) || (i != w && i < |before| && e in Contribution(before[i]))
    ensures FromDone(before, done + [i], w, e)
  {
    if FromDone(before, done, w, e) {
      var j: nat :| j in done && j != w && j < |before| && e in Contribution(before[j]);
      assert j in done + [i];
    } else {
      assert i in done + [i];
    }
  }

  lemma OnlyGathered(before: seq<Finding>, now: seq<Finding>, after: seq<Finding>, done: seq<nat>, w: nat, i: nat)
    requires Gathered(before, now, done, Some(w)) && |after| == |now| && i < |before| && i != w
    requires after[w].evidence == AddPlaces(now[w].evidence, Contribution(before[i]))
    ensures forall e <- after[w].evidence :: e in before[w].evidence || FromDone(before, done + [i], w, e)
  {
    forall e | e in after[w].evidence && e !in before[w].evidence ensures FromDone(before, done + [i], w, e) {
      MoreDone(before, done, w, i, e);
    }
  }

  lemma AllGathered(before: seq<Finding>, now: seq<Finding>, after: seq<Finding>, done: seq<nat>, w: nat, i: nat,
                    j: nat)
    requires Gathered(before, now, done, Some(w)) && |after| == |now| && i < |before|
    requires after[w].evidence == AddPlaces(now[w].evidence, Contribution(before[i]))
    requires j in done + [i] && j != w && j < |before|
    ensures HasPlaces(after[w].evidence, Contribution(before[j]))
  {
    AddPlacesHasAll(now[w].evidence, Contribution(before[i]));
    if j in done {
      forall e | e in Contribution(before[j]) ensures HasPlace(after[w].evidence, e) {
        MorePlaces(now[w].evidence, after[w].evidence, e);
      }
    }
  }

  lemma GatheredStep(before: seq<Finding>, now: seq<Finding>, after: seq<Finding>, done: seq<nat>, w: nat, i: nat)
    requires Gathered(before, now, done, Some(w)) && |after| == |now| && i < |before| && i != w
    requires after[w].evidence == AddPlaces(now[w].evidence, Contribution(before[i]))
    ensures Gathered(before, after, done + [i], Some(w))
  {
    OnlyGathered(before, now, after, done, w, i);
    forall j: nat | j in done + [i] && j != w && j < |before|
      ensures HasPlaces(after[w].evidence, Contribution(before[j]))
    {
      AllGathered(before, now, after, done, w, i, j);
    }
  }

  /** One loser: its evidence goes to the winner, then it is marked. */
  method MarkLoser(a: array<Finding>, i: nat, winner: Option<nat>, id: Id, ghost before: seq<Finding>,
                   ghost done: seq<nat>)
    requires i < a.Length && winner != Some(i) && (winner.Some? ==> winner.value < a.Length)
    requires i !in done && |before| == a.Length && before[i].Publishable()
    requires Partly(before, a[..], done, winner, id) && Gathered(before, a[..], done, winner)
    modifies a
    ensures Partly(before, a[..], done + [i], winner, id) && Gathered(before, a[..], done + [i], winner)
    ensures PublishableCount(a[..]) + 1 == PublishableCount(old(a[..]))
  {
    ghost var start := a[..];
    if winner.Some? {
      var w := winner.value;
      var kept := a[w].(evidence := AddPlaces(a[w].evidence, Contribution(a[i])));
      SameCount(a[..], w, kept);
      a[w] := kept;
      assert a[..] == start[w := kept];
    }
    ghost var middle := a[..];
    DropOne(middle, i, id);
    a[i] := a[i].(duplicateOf := Some(id));
    assert a[..] == middle[i := middle[i].(duplicateOf := Some(id))];
    if winner.Some? { GatheredStep(before, start, a[..], done, winner.value, i); }
  }

  lemma PartlyAll(h: Hasher, carried: seq<Id>, before: seq<Finding>, now: seq<Finding>, g: Group)
    requires AllKnown(before, carried, g)
    requires Partly(before, now, NewOf(g), Winner(before, g), Target(h, before, carried, g))
    requires Gathered(before, now, NewOf(g), Winner(before, g))
    ensures GroupApplied(h, carried, before, now, g)
    ensures forall i: nat :: i < |before| && New(i) !in g ==> now[i] == before[i]
  {
    if Winner(before, g).Some? { WinnerInGroup(before, g); }
  }

  lemma WinnerInGroup(fs: seq<Finding>, g: Group)
    requires InRange(fs, g) && Winner(fs, g).Some?
    ensures New(Winner(fs, g).value) in g && Winner(fs, g).value < |fs|
  {
    assert forall k :: 0 <= k < |NewOf(g)| ==> NewOf(g)[k] in NewOf(g);
    MostSevereIs(fs, NewOf(g));
  }

  lemma NewOfFacts(fs: seq<Finding>, carried: seq<Id>, g: Group, k: nat)
    requires AllKnown(fs, carried, g) && k < |NewOf(g)|
    requires forall i, j :: 0 <= i < j < |g| ==> g[i] != g[j]
    ensures var i := NewOf(g)[k]; i < |fs| && fs[i].Publishable() && i !in NewOf(g)[..k]
  {
    NewOfStrict(g);
    assert NewOf(g)[k] in NewOf(g);
    assert Known(fs, carried, New(NewOf(g)[k]));
  }

  /** Marks the losers of one group, in index order. */
  method ApplyGroup(h: Hasher, a: array<Finding>, carried: seq<Id>, g: Group) returns (count: nat)
    requires AllKnown(a[..], carried, g)
    requires forall i, j :: 0 <= i < j < |g| ==> g[i] != g[j]
    modifies a
    ensures GroupApplied(h, carried, old(a[..]), a[..], g)
    ensures forall i: nat :: i < a.Length && New(i) !in g ==> a[i] == old(a[..])[i]
    ensures PublishableCount(a[..]) + count == PublishableCount(old(a[..]))
  {
    ghost var before := a[..];
    var members := NewOf(g);
    var winner := Winner(a[..], g);
    if winner.Some? { WinnerInGroup(before, g); }
    var id := Target(h, a[..], carried, g);
    forall k: nat | k < |members|
      ensures members[k] < |before| && before[members[k]].Publishable() && members[k] !in members[..k]
    {
      NewOfFacts(before, carried, g, k);
    }
    count := MarkLosers(a, members, winner, id);
    PartlyAll(h, carried, before, a[..], g);
  }

  method MarkLosers(a: array<Finding>, members: seq<nat>, winner: Option<nat>, id: Id) returns (count: nat)
    requires winner.Some? ==> winner.value < a.Length
    requires forall k: nat :: k < |members| ==>
      members[k] < a.Length && a[members[k]].Publishable() && members[k] !in members[..k]
    modifies a
    ensures Partly(old(a[..]), a[..], members, winner, id) && Gathered(old(a[..]), a[..], members, winner)
    ensures PublishableCount(a[..]) + count == PublishableCount(old(a[..]))
  {
    ghost var before := a[..];
    assert Partly(before, before, [], winner, id) && Gathered(before, before, [], winner);
    count := 0;
    for k := 0 to |members|
      invariant Partly(before, a[..], members[..k], winner, id) && Gathered(before, a[..], members[..k], winner)
      invariant PublishableCount(a[..]) + count == PublishableCount(before)
    {
      var i := members[k];
      assert members[..k + 1] == members[..k] + [i];
      if winner == Some(i) {
        PartlySkips(before, a[..], members[..k], i, id);
      } else {
        MarkLoser(a, i, winner, id, before, members[..k]);
        count := count + 1;
      }
    }
    assert members[..|members|] == members;
  }

  lemma PartlySkips(before: seq<Finding>, now: seq<Finding>, done: seq<nat>, w: nat, id: Id)
    requires Partly(before, now, done, Some(w), id) && Gathered(before, now, done, Some(w))
    ensures Partly(before, now, done + [w], Some(w), id) && Gathered(before, now, done + [w], Some(w))
  {
  }

  /** A group's outcome only depends on its own findings, so groups applied earlier do not matter. */
  lemma SameGroup(h: Hasher, fs: seq<Finding>, now: seq<Finding>, carried: seq<Id>, g: Group)
    requires |now| == |fs| && forall i: nat :: i < |fs| && New(i) in g ==> now[i] == fs[i]
    requires AllKnown(fs, carried, g)
    ensures AllKnown(now, carried, g)
    ensures Winner(now, g) == Winner(fs, g) && Target(h, now, carried, g) == Target(h, fs, carried, g)
  {
    SameWinner(fs, now, g);
    assert g[0] in g;
    if PostedOf(g).None? {
      assert g[0].New? && g[0].i in NewOf(g);
      WinnerInGroup(fs, g);
    }
  }

  lemma SameWinner(fs: seq<Finding>, now: seq<Finding>, g: Group)
    requires |now| == |fs| && forall i: nat :: i < |fs| && New(i) in g ==> now[i] == fs[i]
    requires InRange(fs, g)
    ensures Winner(now, g) == Winner(fs, g)
  {
    var xs := NewOf(g);
    assert forall k :: 0 <= k < |xs| ==> xs[k] in xs && New(xs[k]) in g;
    if xs != [] { SameMostSevere(fs, now, xs); }
  }

  lemma {:induction false} MostSevereMember(fs: seq<Finding>, xs: seq<nat>)
    requires xs != [] && AllIn(fs, xs)
    ensures MostSevere(fs, xs) in xs
  {
    if |xs| > 1 { MostSevereMember(fs, xs[..|xs| - 1]); }
  }

  lemma {:induction false} SameMostSevere(fs: seq<Finding>, now: seq<Finding>, xs: seq<nat>)
    requires xs != [] && |now| == |fs| && forall k :: 0 <= k < |xs| ==> xs[k] < |fs| && now[xs[k]] == fs[xs[k]]
    ensures MostSevere(now, xs) == MostSevere(fs, xs)
  {
    if |xs| > 1 {
      SameMostSevere(fs, now, xs[..|xs| - 1]);
      MostSevereMember(fs, xs[..|xs| - 1]);
    }
  }

  lemma GroupsAllKnown(fs: seq<Finding>, carried: seq<Id>, groups: seq<Group>)
    requires GroupsOk(fs, carried, groups)
    ensures forall g <- groups :: AllKnown(fs, carried, g)
  {
    forall g | g in groups ensures AllKnown(fs, carried, g) {
      assert GroupOk(fs, carried, g);
    }
  }

  /** Members of the group at `k` are in no earlier group. */
  lemma StillUntouched(before: seq<Finding>, now: seq<Finding>, carried: seq<Id>, groups: seq<Group>, k: nat)
    requires k < |groups| && GroupsOk(before, carried, groups) && |now| == |before|
    requires forall i: nat :: i < |before| && Outside(groups[..k], i) ==> now[i] == before[i]
    ensures forall i: nat :: i < |before| && New(i) in groups[k] ==> now[i] == before[i]
    ensures GroupOk(now, carried, groups[k])
  {
    forall i: nat | i < |before| && New(i) in groups[k] ensures now[i] == before[i] {
      forall g | g in groups[..k] ensures New(i) !in g {
        var j :| 0 <= j < k && groups[..k][j] == g;
        assert groups[j] == g;
      }
    }
    assert groups[k] in groups;
  }

  lemma EarlierGroupStays(h: Hasher, before: seq<Finding>, middle: seq<Finding>, after: seq<Finding>,
                          carried: seq<Id>, earlier: Group, g: Group)
    requires |after| == |middle| && AllKnown(before, carried, earlier)
    requires forall r <- earlier :: r !in g
    requires forall i: nat :: i < |middle| && New(i) !in g ==> after[i] == middle[i]
    requires GroupApplied(h, carried, before, middle, earlier)
    ensures GroupApplied(h, carried, before, after, earlier)
  {
    forall i: nat | i < |before| && New(i) in earlier ensures after[i] == middle[i] {
      assert New(i) !in g;
    }
  }

  lemma ThisGroupApplied(h: Hasher, before: seq<Finding>, middle: seq<Finding>, after: seq<Finding>,
                         carried: seq<Id>, g: Group)
    requires |middle| == |before| && AllKnown(before, carried, g) && AllKnown(middle, carried, g)
    requires Winner(middle, g) == Winner(before, g) && Target(h, middle, carried, g) == Target(h, before, carried, g)
    requires forall i: nat :: i < |before| && New(i) in g ==> middle[i] == before[i]
    requires GroupApplied(h, carried, middle, after, g)
    ensures GroupApplied(h, carried, before, after, g)
  {
  }

  lemma OutsideStep(before: seq<Finding>, middle: seq<Finding>, after: seq<Finding>, groups: seq<Group>, k: nat)
    requires k < |groups| && |after| == |middle| == |before|
    requires forall i: nat :: i < |before| && New(i) !in groups[k] ==> after[i] == middle[i]
    requires forall i: nat :: i < |before| && Outside(groups[..k], i) ==> middle[i] == before[i]
    ensures forall i: nat :: i < |before| && Outside(groups[..k + 1], i) ==> after[i] == before[i]
  {
    assert groups[..k + 1] == groups[..k] + [groups[k]];
    forall i: nat | i < |before| && Outside(groups[..k + 1], i) ensures after[i] == before[i] {
      assert groups[k] in groups[..k + 1];
      assert forall g :: g in groups[..k] ==> g in groups[..k + 1];
      assert Outside(groups[..k], i);
    }
  }

  /** The first `k` groups are applied. */
  ghost predicate AppliedUpTo(h: Hasher, carried: seq<Id>, before: seq<Finding>, now: seq<Finding>,
                              groups: seq<Group>, k: nat)
    requires k <= |groups|
  {
    && |now| == |before|
    && (forall j :: 0 <= j < k ==>
          AllKnown(before, carried, groups[j]) && GroupApplied(h, carried, before, now, groups[j]))
    && (forall i: nat :: i < |before| && Outside(groups[..k], i) ==> now[i] == before[i])
  }

  method ApplyNext(h: Hasher, a: array<Finding>, carried: seq<Id>, groups: seq<Group>, k: nat,
                   ghost before: seq<Finding>)
    returns (count: nat)
    requires k < |groups| && GroupsOk(before, carried, groups)
    requires AppliedUpTo(h, carried, before, a[..], groups, k)
    modifies a
    ensures AppliedUpTo(h, carried, before, a[..], groups, k + 1)
    ensures PublishableCount(a[..]) + count == PublishableCount(old(a[..]))
  {
    ghost var middle := a[..];
    GroupsAllKnown(before, carried, groups);
    StillUntouched(before, middle, carried, groups, k);
    SameGroup(h, before, middle, carried, groups[k]);
    count := ApplyGroup(h, a, carried, groups[k]);
    ThisGroupApplied(h, before, middle, a[..], carried, groups[k]);
    OutsideStep(before, middle, a[..], groups, k);
    forall j | 0 <= j < k ensures GroupApplied(h, carried, before, a[..], groups[j]) {
      EarlierGroupStays(h, before, middle, a[..], carried, groups[j], groups[k]);
    }
  }

  /** `apply`: on bad input nothing changes; otherwise every group is applied, and the number of
      publishable findings falls by exactly the count returned. */
  method Apply(h: Hasher, a: array<Finding>, carried: seq<Id>, groups: seq<Group>) returns (r: Option<nat>)
    modifies a
    ensures r.Some? <==> GroupsOk(old(a[..]), carried, groups)
    ensures r.None? ==> a[..] == old(a[..])
    ensures r.Some? ==> Applied(h, carried, old(a[..]), a[..], groups)
    ensures r.Some? ==> PublishableCount(a[..]) + r.value == PublishableCount(old(a[..]))
  {
    ghost var before := a[..];
    var ok := CheckGroups(a[..], carried, groups);
    if !ok {
      return None;
    }
    var count := 0;
    for k := 0 to |groups|
      invariant AppliedUpTo(h, carried, before, a[..], groups, k)
      invariant PublishableCount(a[..]) + count == PublishableCount(before)
    {
      var n := ApplyNext(h, a, carried, groups, k, before);
      count := count + n;
    }
    assert groups[..|groups|] == groups;
    return Some(count);
  }

  /** What a dropped finding is called a duplicate of is a carried finding or one that stays
      publishable, and never itself. */
  lemma DuplicateTargets(h: Hasher, carried: seq<Id>, before: seq<Finding>, after: seq<Finding>, groups: seq<Group>,
                         i: nat)
    requires Applied(h, carried, before, after, groups) && i < |before|
    requires before[i].Publishable() && !after[i].Publishable()
    ensures after[i].duplicateOf.Some?
    ensures after[i].duplicateOf.value in carried || StaysUnder(h, after, after[i].duplicateOf.value, i)
  {
    if Outside(groups, i) { assert false; }
    var g :| g in groups && New(i) in g;
    var k :| 0 <= k < |groups| && groups[k] == g;
    assert AllKnown(before, carried, g) && GroupApplied(h, carried, before, after, g);
    if PostedOf(g).Some? {
      assert Known(before, carried, Posted(PostedOf(g).value));
    } else {
      assert i in NewOf(g);
      WinnerInGroup(before, g);
      var w := Winner(before, g).value;
      assert Known(before, carried, New(w));
      assert after[w].Publishable() && after[w].IdBy(h) == before[w].IdBy(h) && w != i;
    }
  }

  ghost predicate StaysUnder(h: Hasher, fs: seq<Finding>, id: Id, except: nat) {
    exists w: nat :: w < |fs| && w != except && fs[w].Publishable() && fs[w].IdBy(h) == id
  }

  /** The winner of a group of new findings only is its most severe member, the earliest of equals. */
  lemma WinnerIsMostSevere(fs: seq<Finding>, carried: seq<Id>, g: Group)
    requires AllKnown(fs, carried, g) && PostedOf(g).None?
    ensures Winner(fs, g).Some? && New(Winner(fs, g).value) in g && Winner(fs, g).value < |fs|
    ensures forall i: nat :: New(i) in g ==> i < |fs| && NotAbove(fs, i, Winner(fs, g).value)
  {
    var xs := NewOf(g);
    assert g[0] in g && g[0].New? && g[0].i in xs;
    WinnerInGroup(fs, g);
    assert forall j :: 0 <= j < |xs| ==> xs[j] in xs;
    MostSevereIs(fs, xs);
    forall i: nat | New(i) in g ensures i < |fs| && NotAbove(fs, i, Winner(fs, g).value) {
      assert i in xs;
      var j :| 0 <= j < |xs| && xs[j] == i;
    }
  }

  ghost predicate NotAbove(fs: seq<Finding>, i: nat, w: nat)
    requires i < |fs| && w < |fs|
  {
    fs[i].severity.Rank() <= fs[w].severity.Rank() && (fs[i].severity == fs[w].severity ==> w <= i)
  }

  /** Such a group keeps that member; the others become its duplicates. */
  lemma NewGroupKeepsWinner(h: Hasher, carried: seq<Id>, before: seq<Finding>, after: seq<Finding>,
                            groups: seq<Group>, k: nat, i: nat)
    requires Applied(h, carried, before, after, groups) && k < |groups| && PostedOf(groups[k]).None?
    requires New(i) in groups[k] && i < |before|
    ensures Winner(before, groups[k]).Some? && Winner(before, groups[k]).value < |after|
    ensures after[Winner(before, groups[k]).value].Publishable()
    ensures i != Winner(before, groups[k]).value ==>
      after[i].duplicateOf == Some(after[Winner(before, groups[k]).value].IdBy(h))
  {
    var g := groups[k];
    WinnerIsMostSevere(before, carried, g);
    var w := Winner(before, g).value;
    assert Known(before, carried, New(w));
    assert g[0] in g;
  }

  // ---- what becomes of each finding, in the terms of the answer ----

  /** A group that names carried findings makes all its new findings duplicates of the one among them
      that is listed first, and changes nothing else about them. */
  lemma CarriedGroupOutcome(h: Hasher, carried: seq<Id>, before: seq<Finding>, after: seq<Finding>,
                            groups: seq<Group>, j: nat, k: nat, i: nat)
    requires Applied(h, carried, before, after, groups) && j < |groups| && New(i) in groups[j]
    requires Posted(k) in groups[j] && forall m: nat :: Posted(m) in groups[j] ==> k <= m
    ensures k < |carried| && i < |before|
    ensures after[i] == before[i].(duplicateOf := Some(carried[k]))
  {
    var g := groups[j];
    assert AllKnown(before, carried, g) && GroupApplied(h, carried, before, after, g);
    assert Known(before, carried, Posted(k));
    assert PostedOf(g) == Some(k);
    assert Loses(before, g, i);
  }

  /** `w` is the most severe new finding of the group, the earliest of equals. */
  ghost predicate Keeps(fs: seq<Finding>, g: Group, w: nat) {
    New(w) in g && w < |fs| && forall i: nat :: New(i) in g ==> i < |fs| && NotAbove(fs, i, w)
  }

  lemma KeepsIsWinner(fs: seq<Finding>, carried: seq<Id>, g: Group, w: nat)
    requires AllKnown(fs, carried, g) && Keeps(fs, g, w) && forall m: nat :: Posted(m) !in g
    ensures PostedOf(g) == None && Winner(fs, g) == Some(w)
  {
    WinnerIsMostSevere(fs, carried, g);
    SameTop(fs, Winner(fs, g).value, w);
  }

  lemma SameTop(fs: seq<Finding>, v: nat, w: nat)
    requires v < |fs| && w < |fs| && NotAbove(fs, v, w) && NotAbove(fs, w, v)
    ensures v == w
  {
    SameRank(fs[v].severity, fs[w].severity);
  }

  lemma SameRank(a: Severity, b: Severity)
    ensures a.Rank() == b.Rank() <==> a == b
  {
  }

  /** A group of new findings only keeps that one, with its own evidence first; the others become
      duplicates of it and change in nothing else. */
  lemma NewGroupOutcome(h: Hasher, carried: seq<Id>, before: seq<Finding>, after: seq<Finding>,
                        groups: seq<Group>, j: nat, w: nat, i: nat)
    requires Applied(h, carried, before, after, groups) && j < |groups| && New(i) in groups[j]
    requires (forall m: nat :: Posted(m) !in groups[j]) && Keeps(before, groups[j], w)
    ensures i < |before|
    ensures i == w ==> after[i] == before[i].(evidence := after[i].evidence) && before[i].evidence <= after[i].evidence
    ensures i != w ==> after[i] == before[i].(duplicateOf := Some(before[w].IdBy(h)))
  {
    var g := groups[j];
    assert AllKnown(before, carried, g) && GroupApplied(h, carried, before, after, g);
    KeepsIsWinner(before, carried, g, w);
    assert Known(before, carried, New(i));
    assert i != w ==> Loses(before, g, i);
  }

  lemma AppliedAt(h: Hasher, carried: seq<Id>, before: seq<Finding>, after: seq<Finding>, groups: seq<Group>, j: nat,
                  w: nat)
    requires Applied(h, carried, before, after, groups) && j < |groups|
    requires (forall m: nat :: Posted(m) !in groups[j]) && Keeps(before, groups[j], w)
    ensures AllKnown(before, carried, groups[j]) && GroupApplied(h, carried, before, after, groups[j])
    ensures PostedOf(groups[j]) == None && Winner(before, groups[j]) == Some(w) && |after| == |before|
  {
    KeepsIsWinner(before, carried, groups[j], w);
  }

  lemma BroughtIn(h: Hasher, carried: seq<Id>, before: seq<Finding>, after: seq<Finding>, g: Group, w: nat, i: nat,
                  e: Evidence)
    requires AllKnown(before, carried, g) && GroupApplied(h, carried, before, after, g) && |after| == |before|
    requires PostedOf(g) == None && Winner(before, g) == Some(w) && New(w) in g && w < |before|
    requires New(i) in g && i != w && i < |before| && Brings(before[i], e)
    ensures Shows(after[w].evidence, e.path, e.startLine, e.endLine)
  {
    assert Loses(before, g, i);
    assert e in Contribution(before[i]);
    assert HasPlace(after[w].evidence, e);
  }

  lemma BroughtBy(h: Hasher, carried: seq<Id>, before: seq<Finding>, after: seq<Finding>, g: Group, w: nat, e: Evidence)
      returns (i: nat)
    requires AllKnown(before, carried, g) && GroupApplied(h, carried, before, after, g) && |after| == |before|
    requires PostedOf(g) == None && Winner(before, g) == Some(w) && New(w) in g && w < |before|
    requires e in after[w].evidence && e !in before[w].evidence
    ensures New(i) in g && i != w && i < |before| && Brings(before[i], e)
  {
    assert FromLoser(before, g, e);
    i :| i < |before| && Loses(before, g, i) && e in Contribution(before[i]);
  }

  /** What it gains is the evidence of the others and where they are: every such place is there, and
      nothing else is. */
  lemma WinnerGathers(h: Hasher, carried: seq<Id>, before: seq<Finding>, after: seq<Finding>,
                      groups: seq<Group>, j: nat, w: nat)
    requires Applied(h, carried, before, after, groups) && j < |groups|
    requires (forall m: nat :: Posted(m) !in groups[j]) && Keeps(before, groups[j], w)
    ensures forall i: nat, e :: New(i) in groups[j] && i != w && i < |before| && Brings(before[i], e) ==>
      Shows(after[w].evidence, e.path, e.startLine, e.endLine)
    ensures forall e :: e in after[w].evidence && e !in before[w].evidence ==>
      exists i: nat :: New(i) in groups[j] && i != w && i < |before| && Brings(before[i], e)
  {
    var g := groups[j];
    AppliedAt(h, carried, before, after, groups, j, w);
    forall i: nat, e | New(i) in g && i != w && i < |before| && Brings(before[i], e)
      ensures Shows(after[w].evidence, e.path, e.startLine, e.endLine)
    {
      BroughtIn(h, carried, before, after, g, w, i, e);
    }
    forall e | e in after[w].evidence && e !in before[w].evidence
      ensures exists i: nat :: New(i) in g && i != w && i < |before| && Brings(before[i], e)
    {
      var i := BroughtBy(h, carried, before, after, g, w, e);
    }
  }

  /** One of the finding's pieces of evidence, or the finding's own location under its title. */
  ghost predicate Brings(f: Finding, e: Evidence) {
    || e in f.evidence
    || (e.path == f.file && e.startLine == f.startLine && e.note == f.title
        && e.endLine == if f.endLine.Some? then f.endLine.value else f.startLine)
  }

  ghost predicate Shows(es: seq<Evidence>, path: string, startLine: nat, endLine: nat) {
    exists e :: e in es && e.path == path && e.startLine == startLine && e.endLine == endLine
  }
}
