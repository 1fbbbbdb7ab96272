/** Maximum bipartite matching by augmenting paths, as both scorers run it.

    The left side is scanned in order; `adj[l]` lists the right-side partners of `l`.
    `owner` maps a right-side vertex to the left-side vertex that currently holds it.
  */
module Matching {

  type Graph = seq<seq<nat>>

  /** `m` uses edges of the graph only, and no two right-side vertices share an owner. */
  ghost predicate IsMatching(adj: Graph, m: map<nat, nat>) {
    && (forall r <- m :: m[r] < |adj| && r in adj[m[r]])
    && (forall r, r' :: r in m && r' in m && m[r] == m[r'] ==> r == r')
  }

  ghost predicate IsMaximum(adj: Graph, m: map<nat, nat>) {
    && IsMatching(adj, m)
    && forall other :: IsMatching(adj, other) ==> |other| <= |m|
  }

  /** A region no augmenting path can leave: every neighbour of a dead left vertex is a dead
      right vertex, and every dead right vertex is held by a dead left vertex. */
  ghost predicate Dead(adj: Graph, owner: map<nat, nat>, lefts: set<nat>, rights: set<nat>) {
    && (forall l <- lefts :: l < |adj| && forall r :: r in adj[l] ==> r in rights)
    && (forall r <- rights :: r in owner && owner[r] in lefts)
  }

  ghost function Partners(adj: Graph): set<nat> {
    set l, r | 0 <= l < |adj| && r in adj[l] :: r
  }

  ghost predicate Matched(m: map<nat, nat>, l: nat) {
    exists r :: r in m && m[r] == l
  }

  /** No two vertices of `m` outside `held` share an owner. */
  ghost predicate DistinctOutside(m: map<nat, nat>, held: set<nat>) {
    forall r, s :: r in m && s in m && r !in held && s !in held && m[r] == m[s] ==> r == s
  }

  ghost predicate UsesEdges(adj: Graph, m: map<nat, nat>) {
    forall r :: r in m ==> m[r] < |adj| && r in adj[m[r]]
  }

  /** Every vertex reached since `before` is owned, and its owner's neighbours were reached too. */
  ghost predicate ClosedUnder(adj: Graph, owner: map<nat, nat>, before: set<nat>, now: set<nat>) {
    forall r :: r in now && r !in before ==>
      r in owner && owner[r] < |adj| && forall s :: s in adj[owner[r]] ==> s in now
  }

  /** What a successful search from `l` does to `before`, given that the vertices in `visited`
      were off limits: `l` gains one new partner, everyone matched stays matched, and what was
      off limits is untouched. The vertices in `held`, which `l` held before, are left for the
      caller to reassign. */
  ghost predicate Augmented(adj: Graph, before: map<nat, nat>, after: map<nat, nat>,
                            l: nat, held: set<nat>, visited: set<nat>) {
    && UsesEdges(adj, after)
    && DistinctOutside(after, held)
    && before.Keys <= after.Keys
    && |after| == |before| + 1
    && (exists r :: r in after && r !in visited && after[r] == l)
    && (forall x :: Matched(after, x) <==> Matched(before, x) || x == l)
    && (forall r :: r in visited && r in after ==> r in before && after[r] == before[r])
  }

  lemma AssignFree(adj: Graph, before: map<nat, nat>, l: nat, r: nat, held: set<nat>, visited: set<nat>)
    requires l < |adj| && r in adj[l] && r !in before && r !in visited
    requires UsesEdges(adj, before) && DistinctOutside(before, {})
    requires forall s :: s in before && before[s] == l ==> s in held
    ensures Augmented(adj, before, before[r := l], l, held, visited)
  {
    assert before[r := l].Keys == before.Keys + {r};
    AssignedEdges(adj, before, l, r, held);
    AssignMatched(before, l, r);
    assert r in before[r := l];
  }

  lemma AssignedEdges(adj: Graph, before: map<nat, nat>, l: nat, r: nat, held: set<nat>)
    requires l < |adj| && r in adj[l] && r !in before
    requires UsesEdges(adj, before) && DistinctOutside(before, {})
    requires forall s :: s in before && before[s] == l ==> s in held
    ensures UsesEdges(adj, before[r := l]) && DistinctOutside(before[r := l], held)
  {
  }

  lemma AssignMatched(before: map<nat, nat>, l: nat, r: nat)
    requires r !in before
    ensures forall x :: Matched(before[r := l], x) <==> Matched(before, x) || x == l
  {
    var after := before[r := l];
    forall x ensures Matched(after, x) <==> Matched(before, x) || x == l {
      assert after[r] == l;
      if Matched(before, x) {
        var k :| k in before && before[k] == x;
        assert after[k] == x;
      }
    }
  }

  /** `l` takes `r` over from its owner once that owner has found another partner. */
  lemma TakeOver(adj: Graph, before: map<nat, nat>, mid: map<nat, nat>, l: nat, r: nat,
                 held: set<nat>, visited: set<nat>, grown: set<nat>)
    requires l < |adj| && r in adj[l] && r in before && r !in visited && visited <= grown && r in grown
    requires before[r] != l && held <= visited
    requires forall s :: s in before && before[s] == l <==> s in held
    requires Augmented(adj, before, mid, before[r], {r}, grown)
    ensures Augmented(adj, before, mid[r := l], l, held, visited)
  {
    var after := mid[r := l];
    assert after.Keys == mid.Keys;
    assert r in after && r !in visited && after[r] == l;
    TakeOverDistinct(before, mid, l, r, held, grown);
    TakeOverMatched(before, mid, l, r);
  }

  lemma TakeOverDistinct(before: map<nat, nat>, mid: map<nat, nat>, l: nat, r: nat, held: set<nat>, grown: set<nat>)
    requires r in mid && r !in held && held <= grown && before.Keys <= mid.Keys
    requires forall s :: s in before && before[s] == l <==> s in held
    requires forall s :: s in held ==> mid[s] == l
    requires DistinctOutside(mid, {r}) && (Matched(mid, l) ==> Matched(before, l))
    ensures DistinctOutside(mid[r := l], held)
  {
    forall s | s in mid && s != r && mid[s] == l ensures s in held {
      assert Matched(mid, l);
      var h :| h in before && before[h] == l;
      assert h in held && h in mid && mid[h] == l;
    }
  }

  lemma TakeOverMatched(before: map<nat, nat>, mid: map<nat, nat>, l: nat, r: nat)
    requires r in before && r in mid
    requires forall x :: Matched(mid, x) <==> Matched(before, x)
    requires exists q :: q in mid && q != r && mid[q] == before[r]
    requires mid[r] == before[r]
    ensures forall x :: Matched(mid[r := l], x) <==> Matched(before, x) || x == l
  {
    var after := mid[r := l];
    var q :| q in mid && q != r && mid[q] == before[r];
    forall x ensures Matched(after, x) <==> Matched(mid, x) || x == l {
      if Matched(mid, x) {
        var k :| k in mid && mid[k] == x;
        assert after[if k == r then q else k] == x;
      }
      if Matched(after, x) {
        var k :| k in after && after[k] == x;
        assert k == r || mid[k] == x;
      }
      assert after[r] == l;
    }
  }

  /** The state the recursive `augment` closes over. */
  class Matcher {
    const adj: Graph
    var owner: map<nat, nat>
    var seen: set<nat>

    constructor (adj: Graph)
      ensures this.adj == adj && owner == map[] && seen == {}
    {
      this.adj := adj;
      owner := map[];
      seen := {};
    }

    /** One search for an augmenting path from `l`. In the recursive calls `l` still holds the
        vertex (`held`) its caller is about to take from it, and that vertex is already seen. */
    method Augment(l: nat, ghost held: set<nat>, ghost lefts: set<nat>, ghost rights: set<nat>) returns (found: bool)
      requires l < |adj|
      requires UsesEdges(adj, owner) && DistinctOutside(owner, {})
      requires forall r :: r in owner && owner[r] == l <==> r in held
      requires held <= seen <= Partners(adj)
      requires Dead(adj, owner, lefts, rights)
      modifies this
      ensures old(seen) <= seen <= Partners(adj)
      ensures !found ==> owner == old(owner)
      ensures !found ==> forall r :: r in adj[l] ==> r in seen
      ensures !found ==> ClosedUnder(adj, owner, old(seen), seen)
      ensures found ==> l !in lefts && Augmented(adj, old(owner), owner, l, held, old(seen))
      ensures found ==> forall r <- rights :: r in owner && owner[r] == old(owner)[r]
      decreases Partners(adj) - seen
    {
      for k := 0 to |adj[l]|
        invariant old(seen) <= seen <= Partners(adj)
        invariant owner == old(owner)
        invariant forall j :: 0 <= j < k ==> adj[l][j] in seen && (l in lefts ==> adj[l][j] in rights)
        invariant ClosedUnder(adj, owner, old(seen), seen)
      {
        var r := adj[l][k];
        if r in seen { continue; }
        IsPartner(adj, l, k);
        ghost var grown := seen + {r};
        seen := seen + {r};
        if r !in owner {
          AssignFree(adj, owner, l, r, held, old(seen));
          owner := owner[r := l];
          return true;
        }
        var further := Augment(owner[r], {r}, lefts, rights);
        if further {
          TakeOver(adj, old(owner), owner, l, r, held, old(seen), grown);
          owner := owner[r := l];
          return true;
        }
      }
      return false;
    }
  }

  lemma IsPartner(adj: Graph, l: nat, k: nat)
    requires l < |adj| && k < |adj[l]|
    ensures adj[l][k] in Partners(adj)
  {
    assert adj[l][k] in adj[l];
  }

  /** An injective map is no larger than any set that contains its values. */
  lemma {:induction false} InjectionBound(m: map<nat, nat>, target: set<nat>)
    requires forall k :: k in m ==> m[k] in target
    requires forall k, k' :: k in m && k' in m && m[k] == m[k'] ==> k == k'
    ensures |m| <= |target|
    decreases |m|
  {
    if m != map[] {
      var k :| k in m;
      var rest := map x | x in m && x != k :: m[x];
      assert m.Keys == rest.Keys + {k};
      InjectionBound(rest, target - {m[k]});
    }
  }

  ghost function Indices(n: nat): (r: set<nat>)
    ensures |r| == n
    ensures forall i: nat :: i in r <==> i < n
  {
    if n == 0 then {} else Indices(n - 1) + {n - 1}
  }

  /** Every other matching has at most one edge per dead right vertex, plus at most one per
      left vertex that is not dead. */
  lemma OtherIsSmall(adj: Graph, owner: map<nat, nat>, other: map<nat, nat>, lefts: set<nat>, rights: set<nat>)
    requires IsMatching(adj, other) && Dead(adj, owner, lefts, rights)
    ensures |other| <= |rights| + |Indices(|adj|) - lefts|
  {
    var alive := map r | r in other && other[r] !in lefts :: other[r];
    var dead := set r | r in other && other[r] in lefts;
    assert other.Keys == alive.Keys + dead;
    assert dead <= rights;
    SplitSize(dead, rights);
    InjectionBound(alive, Indices(|adj|) - lefts);
  }

  lemma SplitSize(small: set<nat>, large: set<nat>)
    requires small <= large
    ensures |large| == |small| + |large - small|
  {
    assert large == small + (large - small);
  }

  /** `owner` itself reaches that bound. */
  lemma OwnerIsLarge(adj: Graph, owner: map<nat, nat>, lefts: set<nat>, rights: set<nat>)
    requires Dead(adj, owner, lefts, rights)
    requires forall l: nat :: l < |adj| && l !in lefts ==> Matched(owner, l)
    ensures |owner| >= |rights| + |Indices(|adj|) - lefts|
  {
    var free := Indices(|adj|) - lefts;
    var pick := map l | l in free :: Holder(owner, l);
    assert pick.Keys == free;
    forall l | l in pick ensures pick[l] in owner.Keys - rights {
      assert owner[pick[l]] == l;
    }
    assert forall l, l' :: l in pick && l' in pick && pick[l] == pick[l'] ==> owner[pick[l]] == l && owner[pick[l']] == l';
    InjectionBound(pick, owner.Keys - rights);
    SplitSize(rights, owner.Keys);
  }

  ghost function Holder(m: map<nat, nat>, l: nat): (r: nat)
    requires Matched(m, l)
    ensures r in m && m[r] == l
  {
    var r :| r in m && m[r] == l; r
  }

  /** What holds once the left vertices below `done` have been searched from. */
  ghost predicate Searched(adj: Graph, owner: map<nat, nat>, lefts: set<nat>, rights: set<nat>, done: nat) {
    && IsMatching(adj, owner)
    && Dead(adj, owner, lefts, rights)
    && (forall x: nat :: Matched(owner, x) ==> x < done)
    && (forall x: nat :: x < done ==> x in lefts || Matched(owner, x))
  }

  /** A failed search turns everything it saw into dead region. */
  lemma AfterFailure(adj: Graph, owner: map<nat, nat>, lefts: set<nat>, rights: set<nat>, l: nat, seen: set<nat>)
    requires l < |adj| && Searched(adj, owner, lefts, rights, l)
    requires ClosedUnder(adj, owner, {}, seen) && forall r :: r in adj[l] ==> r in seen
    ensures Searched(adj, owner, lefts + {l} + (set r | r in seen :: owner[r]), rights + seen, l + 1)
  {
    var grown := lefts + {l} + (set r | r in seen :: owner[r]);
    forall x | x in grown ensures x < |adj| && forall r :: r in adj[x] ==> r in rights + seen {
      if x !in lefts && x != l {
        var r :| r in seen && owner[r] == x;
      }
    }
  }

  lemma AfterSuccess(adj: Graph, before: map<nat, nat>, after: map<nat, nat>, lefts: set<nat>, rights: set<nat>,
                     l: nat, visited: set<nat>)
    requires l < |adj| && Searched(adj, before, lefts, rights, l)
    requires Augmented(adj, before, after, l, {}, visited)
    requires forall r <- rights :: r in after && after[r] == before[r]
    ensures Searched(adj, after, lefts, rights, l + 1)
  {
  }

  lemma ReadyToSearch(adj: Graph, owner: map<nat, nat>, lefts: set<nat>, rights: set<nat>, l: nat)
    requires l < |adj| && Searched(adj, owner, lefts, rights, l)
    ensures UsesEdges(adj, owner) && DistinctOutside(owner, {})
    ensures forall r :: r in owner && owner[r] == l <==> r in {}
    ensures Dead(adj, owner, lefts, rights)
  {
    assert !Matched(owner, l);
  }

  /** The scorers' matching: one search per left vertex, each with an empty `seen` set. */
  method MaximumMatching(adj: Graph) returns (owner: map<nat, nat>)
    ensures IsMaximum(adj, owner)
  {
    var m := new Matcher(adj);
    ghost var lefts: set<nat>, rights: set<nat> := {}, {};
    for l := 0 to |adj|
      invariant Searched(adj, m.owner, lefts, rights, l)
      invariant fresh(m) && m.adj == adj
    {
      m.seen := {};
      lefts, rights := SearchNext(m, l, lefts, rights);
    }
    owner := m.owner;
    DeadRegionBound(adj, owner, lefts, rights);
  }

  /** One round of the scorers' loop, with its effect on the dead region. */
  method SearchNext(m: Matcher, l: nat, ghost lefts: set<nat>, ghost rights: set<nat>)
    returns (ghost deadLefts: set<nat>, ghost deadRights: set<nat>)
    requires l < |m.adj| && m.seen == {}
    requires Searched(m.adj, m.owner, lefts, rights, l)
    modifies m
    ensures Searched(m.adj, m.owner, deadLefts, deadRights, l + 1)
  {
    ghost var before := m.owner;
    ReadyToSearch(m.adj, m.owner, lefts, rights, l);
    var found := m.Augment(l, {}, lefts, rights);
    if found {
      AfterSuccess(m.adj, before, m.owner, lefts, rights, l, {});
      deadLefts, deadRights := lefts, rights;
    } else {
      AfterFailure(m.adj, m.owner, lefts, rights, l, m.seen);
      deadLefts := lefts + {l} + set r | r in m.seen :: m.owner[r];
      deadRights := rights + m.seen;
    }
  }

  /** Once every left vertex is matched or dead, no matching is larger. */
  lemma DeadRegionBound(adj: Graph, owner: map<nat, nat>, lefts: set<nat>, rights: set<nat>)
    requires Searched(adj, owner, lefts, rights, |adj|)
    ensures IsMaximum(adj, owner)
  {
    forall other | IsMatching(adj, other) ensures |other| <= |owner| {
      OtherIsSmall(adj, owner, other, lefts, rights);
      OwnerIsLarge(adj, owner, lefts, rights);
    }
  }
}
