/** Delivering a fix commit to a branch other people push to (src/fix/deliver.rs). */
module Delivery {
  import opened Decimal

  type Oid = string

  /** The commits. An id is a hash of the commit, its parents included: the id settles the parents,
      and no commit can be its own ancestor, which `depth` witnesses. */
  datatype Graph = Graph(parents: Oid -> seq<Oid>, depth: Oid -> nat)

  ghost predicate Acyclic(g: Graph) {
    forall c: Oid, i :: 0 <= i < |g.parents(c)| ==> g.depth(g.parents(c)[i]) < g.depth(c)
  }

  /** `a` is `c` or one of its ancestors. */
  predicate Reaches(g: Graph, c: Oid, a: Oid)
    requires Acyclic(g)
    decreases g.depth(c)
  {
    a == c || exists i :: 0 <= i < |g.parents(c)| && Reaches(g, g.parents(c)[i], a)
  }

  lemma {:induction false} ReachesTransitive(g: Graph, c: Oid, b: Oid, a: Oid)
    requires Acyclic(g) && Reaches(g, c, b) && Reaches(g, b, a)
    ensures Reaches(g, c, a)
    decreases g.depth(c)
  {
    if b != c {
      var i :| 0 <= i < |g.parents(c)| && Reaches(g, g.parents(c)[i], b);
      ReachesTransitive(g, g.parents(c)[i], b, a);
    }
  }

  lemma {:induction false} AncestorsAreShallower(g: Graph, c: Oid, a: Oid)
    requires Acyclic(g) && Reaches(g, c, a) && a != c
    ensures g.depth(a) < g.depth(c)
    decreases g.depth(c)
  {
    var i :| 0 <= i < |g.parents(c)| && Reaches(g, g.parents(c)[i], a);
    if a != g.parents(c)[i] { AncestorsAreShallower(g, g.parents(c)[i], a); }
  }

  lemma NoTwoWays(g: Graph, a: Oid, b: Oid)
    requires Acyclic(g) && Reaches(g, a, b) && Reaches(g, b, a)
    ensures a == b
  {
    if a != b {
      AncestorsAreShallower(g, a, b);
      AncestorsAreShallower(g, b, a);
    }
  }

  // ---- the repository and everyone else ----

  type Branches = map<string, Oid>

  /** GitHub's rule for an update that is not forced: the branch exists and its head is an ancestor. */
  predicate MayAdvance(g: Graph, b: Branches, branch: string, commit: Oid)
    requires Acyclic(g)
  {
    branch in b && Reaches(g, commit, b[branch])
  }

  /** What becomes of a writing request. A lost answer may belong to a request that took effect. */
  datatype Fate = Answered(genuine: bool) | AnswerLost | Refused

  datatype Net = Net(commitRead: bool, refRead: bool, patch: Fate)

  datatype Error = Invalid | NotFound | MovedHead | RefExists | Malformed | Request | DraftFailed(branch: string)

  datatype Outcome = Done(branch: string) | Failed(error: Error)

  /** The branches as everyone else leaves them before our `k`-th request; they may do anything. */
  type Others = (nat, Branches) -> Branches

  class Repository {
    var branches: Branches

    method FastForward(g: Graph, branch: string, commit: Oid, fate: Fate) returns (r: Outcome)
      requires Acyclic(g)
      modifies this
      ensures branches == if fate != Refused && MayAdvance(g, old(branches), branch, commit)
        then old(branches)[branch := commit] else old(branches)
      ensures r.Done? <==> fate == Answered(true) && MayAdvance(g, old(branches), branch, commit)
      ensures r.Done? ==> r.branch == branch
    {
      if fate == Refused { return Failed(Request); }
      if branch !in branches { return Failed(NotFound); }
      if !Reaches(g, commit, branches[branch]) { return Failed(MovedHead); }
      branches := branches[branch := commit];
      r := if fate == Answered(true) then Done(branch)
        else if fate == AnswerLost then Failed(Request)
        else Failed(Malformed);
    }

    method CreateRef(branch: string, commit: Oid, fate: Fate) returns (r: Outcome)
      modifies this
      ensures branches == if fate != Refused && branch !in old(branches)
        then old(branches)[branch := commit] else old(branches)
      ensures r == Failed(RefExists) <==> fate.Answered? && branch in old(branches)
      ensures r.Done? <==> fate == Answered(true) && branch !in old(branches)
      ensures r == Failed(Malformed) <==> fate == Answered(false) && branch !in old(branches)
      ensures r == Failed(Request) <==> !fate.Answered?
      ensures r.Done? ==> r.branch == branch
    {
      if fate == Refused { return Failed(Request); }
      if branch in branches { return Failed(if fate.Answered? then RefExists else Request); }
      branches := branches[branch := commit];
      r := if fate == Answered(true) then Done(branch)
        else if fate == AnswerLost then Failed(Request)
        else Failed(Malformed);
    }
  }

  // ---- fast-forwarding the approved branch ----

  /** Everything a branch reaches before, it reaches after. */
  ghost predicate LosesNothing(g: Graph, before: Branches, after: Branches)
    requires Acyclic(g)
  {
    forall b, a :: b in before && Reaches(g, before[b], a) ==> b in after && Reaches(g, after[b], a)
  }

  /** The branch has moved forward past the approved head, to a commit that is not ours. */
  ghost predicate MovedPast(g: Graph, b: Branches, branch: string, expected: Oid, commit: Oid)
    requires Acyclic(g)
  {
    branch in b && Reaches(g, b[branch], expected) && b[branch] != expected && b[branch] != commit
  }

  /** The branch is at our commit or at the approved head or somewhere behind it. */
  predicate AtOrBehind(g: Graph, b: Branches, branch: string, expected: Oid, commit: Oid)
    requires Acyclic(g)
  {
    branch in b && (b[branch] == commit || Reaches(g, expected, b[branch]))
  }

  /** What the update leaves. */
  ghost function Patched(g: Graph, b: Branches, branch: string, expected: Oid, commit: Oid, fate: Fate): Branches
    requires Acyclic(g)
  {
    if fate != Refused && AtOrBehind(g, b, branch, expected, commit) then b[branch := commit] else b
  }

  lemma SoleParent(g: Graph, expected: Oid, commit: Oid, a: Oid)
    requires Acyclic(g) && g.parents(commit) == [expected]
    ensures Reaches(g, commit, a) <==> a == commit || Reaches(g, expected, a)
  {
    assert g.parents(commit)[0] == expected;
  }

  /** A commit whose only parent is the approved head may advance the branch exactly when the branch is
      at it or at or behind the approved head; never when someone has moved it past. */
  lemma AdvancesExactly(g: Graph, b: Branches, branch: string, expected: Oid, commit: Oid)
    requires Acyclic(g) && g.parents(commit) == [expected]
    ensures MayAdvance(g, b, branch, commit) <==> AtOrBehind(g, b, branch, expected, commit)
    ensures MovedPast(g, b, branch, expected, commit) ==> !MayAdvance(g, b, branch, commit)
  {
    if branch in b {
      SoleParent(g, expected, commit, b[branch]);
      if MovedPast(g, b, branch, expected, commit) && Reaches(g, expected, b[branch]) {
        NoTwoWays(g, expected, b[branch]);
      }
    }
  }

  lemma AdvanceLosesNothing(g: Graph, b: Branches, branch: string, commit: Oid)
    requires Acyclic(g) && MayAdvance(g, b, branch, commit)
    ensures LosesNothing(g, b, b[branch := commit])
  {
    forall a | Reaches(g, b[branch], a) ensures Reaches(g, commit, a) {
      ReachesTransitive(g, commit, b[branch], a);
    }
  }

  /** The commit could be read, and the approved head is its only parent. */
  ghost predicate Checkable(g: Graph, net: Net, expected: Oid, commit: Oid) {
    net.commitRead && g.parents(commit) == [expected]
  }

  ghost predicate IsAt(b: Branches, branch: string, head: Oid) {
    branch in b && b[branch] == head
  }

  /** `before` is the repository just before our last request; `sent` says that this was the update. */
  method FastForwardBranch(g: Graph, repo: Repository, others: Others, net: Net, branch: string, expected: Oid,
                           commit: Oid)
    returns (r: Outcome, ghost sent: bool, ghost before: Branches)
    requires Acyclic(g)
    modifies repo
    ensures sent <==>
      net.refRead && Checkable(g, net, expected, commit) && IsAt(others(0, old(repo.branches)), branch, expected)
    ensures sent ==> before == others(1, others(0, old(repo.branches)))
    ensures r.Done? <==> sent && net.patch == Answered(true) && AtOrBehind(g, before, branch, expected, commit)
    ensures net.commitRead && g.parents(commit) != [expected] ==> r == Failed(Invalid)
    ensures net.refRead && Checkable(g, net, expected, commit) && branch in before && !sent ==> r == Failed(MovedHead)
    ensures !sent ==> r.Failed? && repo.branches == before && before in {old(repo.branches), others(0, old(repo.branches))}
    ensures LosesNothing(g, before, repo.branches)
    ensures sent ==> repo.branches == Patched(g, before, branch, expected, commit, net.patch)
    ensures MovedPast(g, before, branch, expected, commit) ==> r.Failed? && repo.branches == before
    ensures r.Done? ==> sent && branch in repo.branches && repo.branches[branch] == commit
  {
    sent, before := false, repo.branches;
    if !net.commitRead { return Failed(Request), sent, before; }
    if g.parents(commit) != [expected] { return Failed(Invalid), sent, before; }
    repo.branches := others(0, repo.branches);
    before := repo.branches;
    if !net.refRead { return Failed(Request), sent, before; }
    if branch !in repo.branches { return Failed(NotFound), sent, before; }
    if repo.branches[branch] != expected { return Failed(MovedHead), sent, before; }
    repo.branches := others(1, repo.branches);
    sent, before := true, repo.branches;
    AdvancesExactly(g, before, branch, expected, commit);
    if MayAdvance(g, before, branch, commit) { AdvanceLosesNothing(g, before, branch, commit); }
    r := repo.FastForward(g, branch, commit, net.patch);
  }

  // ---- a new branch for a draft ----

  function BranchName(prefix: string, commit: Oid, i: nat): string
    requires |commit| >= 12
  {
    prefix + "-" + commit[..12] + if i == 0 then "" else "-" + Print(i)
  }

  lemma PrintInjective(i: nat, j: nat)
    requires Print(i) == Print(j)
    ensures i == j
  {
    ValueOfPrint(i);
    ValueOfPrint(j);
  }

  lemma BranchNamesDiffer(prefix: string, commit: Oid, i: nat, j: nat)
    requires |commit| >= 12 && i != j
    ensures BranchName(prefix, commit, i) != BranchName(prefix, commit, j)
  {
    var stem := prefix + "-" + commit[..12];
    var a, b := if i == 0 then "" else "-" + Print(i), if j == 0 then "" else "-" + Print(j);
    if stem + a == stem + b {
      assert a == (stem + a)[|stem|..] == (stem + b)[|stem|..] == b;
      assert i > 0 && j > 0 ==> a[1..] == Print(i) && b[1..] == Print(j);
      if i > 0 && j > 0 { PrintInjective(i, j); }
    }
  }

  const TRIES: nat := 8

  /** The branches after an attempt to open a draft on a new branch, and what the attempt reports. */
  ghost predicate Attempted(before: Branches, after: Branches, name: string, commit: Oid, fate: Fate, pull: bool,
                      r: Outcome) {
    && (if fate != Refused && name !in before then Created(before, after, name, commit) else after == before)
    && (r.Done? <==> fate == Answered(true) && name !in before && pull)
    && (r.Done? ==> r.branch == name)
    && (r == Failed(DraftFailed(name)) <==> fate == Answered(true) && name !in before && !pull)
    && (r == Failed(RefExists) <==> fate.Answered? && name in before)
    && (r == Failed(Malformed) <==> fate == Answered(false) && name !in before)
    && (r == Failed(Request) <==> !fate.Answered?)
  }

  ghost predicate Created(before: Branches, after: Branches, name: string, commit: Oid) {
    name !in before && after == before[name := commit]
  }

  /** The branch was created if the attempt succeeded, failed to open the draft, or got a malformed
      answer, and was not if the name was taken; a failed request leaves it open: then it was created
      exactly when only the answer was lost and the name was free. */
  lemma OutcomeTells(before: Branches, after: Branches, name: string, commit: Oid, fate: Fate, pull: bool, r: Outcome)
    requires Attempted(before, after, name, commit, fate, pull, r)
    ensures r.Done? || r == Failed(DraftFailed(name)) || r == Failed(Malformed) || r == Failed(RefExists)
      || r == Failed(Request)
    ensures r != Failed(Request) ==> (Created(before, after, name, commit) <==> r != Failed(RefExists))
    ensures r == Failed(Request) ==>
      (Created(before, after, name, commit) <==> fate == AnswerLost && name !in before)
  {
    if name !in before { assert name in before[name := commit]; }
  }

  method Attempt(repo: Repository, name: string, commit: Oid, fate: Fate, pull: bool) returns (r: Outcome)
    modifies repo
    ensures Attempted(old(repo.branches), repo.branches, name, commit, fate, pull, r)
  {
    r := repo.CreateRef(name, commit, fate);
    if r.Done? && !pull { r := Failed(DraftFailed(name)); }
  }

  /** `seen[k]` is the repository just before the `k`-th attempt. A name is tried only while all those
      before it were taken, and no branch that exists is touched. */
  method OpenDraft(repo: Repository, others: Others, fates: seq<Fate>, pull: bool, prefix: string, commit: Oid)
    returns (r: Outcome, ghost seen: seq<Branches>)
    requires |commit| >= 12 && |fates| == TRIES
    modifies repo
    ensures 0 < |seen| <= TRIES && seen[0] == others(0, old(repo.branches))
    ensures forall k :: 0 <= k < |seen| - 1 ==>
      BranchName(prefix, commit, k) in seen[k] && seen[k + 1] == others(k + 1, seen[k])
    ensures Attempted(seen[|seen| - 1], repo.branches, BranchName(prefix, commit, |seen| - 1), commit,
                      fates[|seen| - 1], pull, r)
    ensures r == Failed(RefExists) ==> |seen| == TRIES
  {
    seen := [];
    r := Failed(RefExists);
    for i := 0 to TRIES
      invariant |seen| == i && r == Failed(RefExists)
      invariant i == 0 ==> repo.branches == old(repo.branches)
      invariant i > 0 ==> seen[0] == others(0, old(repo.branches)) && repo.branches == seen[i - 1]
      invariant i > 0 ==>
        Attempted(seen[i - 1], repo.branches, BranchName(prefix, commit, i - 1), commit, fates[i - 1], pull, r)
      invariant forall k :: 0 <= k < i ==> BranchName(prefix, commit, k) in seen[k]
      invariant forall k :: 0 <= k < i - 1 ==> seen[k + 1] == others(k + 1, seen[k])
    {
      repo.branches := others(i, repo.branches);
      seen := seen + [repo.branches];
      r := Attempt(repo, BranchName(prefix, commit, i), commit, fates[i], pull);
      if r != Failed(RefExists) { return; }
    }
  }
}
