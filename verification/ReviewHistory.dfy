/** Any number of review runs on one pull request, each from whatever state an earlier one left to the
    comments it publishes (src/pipeline/common.rs, src/github/publish.rs, src/cli.rs). */
module ReviewHistory {
  import opened Wrappers
  import opened Findings
  import opened ReviewState
  import opened Canonicalization
  import opened ReviewRun
  import opened Publication
  import A = Anchoring
  import D = UnifiedDiff
  import Dedup

  /** Writing the summary comment, which holds the stored state; a failed write may still have landed. */
  datatype SummaryWrite = Written | Failed(landed: bool)

  /** Everything outside the program that bears on one run. `from` picks the saved state the run starts
      with: an earlier one if later ones were lost, none at all if it names no saved state. */
  datatype Cycle = Cycle(from: nat, others: seq<Comment>,
                         recheck: nat -> Session, words: string -> seq<string>, min: Severity,
                         candidates: seq<Finding>, judge: nat -> Session, duplicates: Option<seq<Dedup.Group>>,
                         diff: D.DiffSet, inlineMin: Severity, prose: Finding -> string, max: nat,
                         publishUncertain: bool, publishes: bool, fresh_: bool, listed: bool, post: Post,
                         summary: SummaryWrite)

  ghost predicate CycleOk(c: Cycle) {
    NoneDuplicate(c.candidates) && Foreign(c.others)
  }

  // ---- what a run publishes ----

  function IdsAt(h: Hasher, fs: seq<Finding>, places: seq<nat>): (ids: seq<Id>)
    requires forall x <- places :: x < |fs|
    ensures |ids| == |places|
  {
    assert forall k :: 0 <= k < |places| ==> places[k] in places;
    seq(|places|, k requires 0 <= k < |places| => fs[places[k]].IdBy(h))
  }

  /** The ids of the findings that are shown inline, at most `c.max` of them. */
  function InlineIds(h: Hasher, c: Cycle, final: seq<Finding>): (ids: seq<Id>)
    ensures |ids| <= c.max
  {
    var published := Filter(final, (f: Finding) => f.Publishable());
    IdsAt(h, published, A.Inline(c.diff, c.inlineMin, published, c.max))
  }

  /** They are the ids of the findings at the places that `anchor` marks inline. */
  lemma InlineIdsExactly(h: Hasher, c: Cycle, final: seq<Finding>, id: Id)
    ensures var published := Filter(final, (f: Finding) => f.Publishable());
      id in InlineIds(h, c, final) <==>
      exists k :: k in A.Inline(c.diff, c.inlineMin, published, c.max) && published[k].IdBy(h) == id
  {
    var published := Filter(final, (f: Finding) => f.Publishable());
    var places := A.Inline(c.diff, c.inlineMin, published, c.max);
    var ids := InlineIds(h, c, final);
    if id in ids {
      var j :| 0 <= j < |ids| && ids[j] == id;
      assert places[j] in places && published[places[j]].IdBy(h) == id;
    }
    if k :| k in places && published[k].IdBy(h) == id {
      var j :| 0 <= j < |places| && places[j] == k;
      assert ids[j] == id;
    }
  }

  function IsInline(h: Hasher, c: Cycle, final: seq<Finding>): Finding -> bool {
    (f: Finding) => f.IdBy(h) in InlineIds(h, c, final)
  }

  /** The publish that a run with this report and state makes. */
  function RoundOf(h: Hasher, c: Cycle, tracked: seq<StateFinding>, final: seq<Finding>): Round {
    Round(tracked, Plan(h, final, IsInline(h, c, final), c.prose), c.max, c.publishes && c.fresh_, c.listed, c.post,
          c.others)
  }

  /** The publishable findings of the report are those given to `anchor`, with their end lines checked. */
  lemma PublishedAre(marked: seq<Finding>, validEnd: Finding -> bool)
    ensures Filter(ReviewRun.Report(marked, validEnd), (f: Finding) => f.Publishable())
      == ReviewRun.Anchored(Filter(marked, (f: Finding) => f.Publishable()), validEnd)
  {
    var given := Filter(marked, (f: Finding) => f.Publishable());
    var rest := Filter(marked, (f: Finding) => !f.Publishable());
    var placed := ReviewRun.Anchored(given, validEnd);
    forall f | f in placed ensures f.Publishable() {
      var k :| 0 <= k < |placed| && placed[k] == f;
      assert given[k] in given;
    }
    FilterFront(placed, rest, (f: Finding) => f.Publishable());
    FilterAll(placed, (f: Finding) => f.Publishable());
  }

  /** The inline findings are those `anchor` places inline among the publishable findings it is given. */
  lemma InlineIdsAnchored(h: Hasher, c: Cycle, marked: seq<Finding>)
    ensures var given := Filter(marked, (f: Finding) => f.Publishable());
      InlineIds(h, c, ReviewRun.Report(marked, f => A.ValidEnd(c.diff, f)))
      == IdsAt(h, given, A.Inline(c.diff, c.inlineMin, given, c.max))
  {
    var given := Filter(marked, (f: Finding) => f.Publishable());
    var validEnd := (f: Finding) => A.ValidEnd(c.diff, f);
    var placed := ReviewRun.Anchored(given, validEnd);
    PublishedAre(marked, validEnd);
    A.InlineIgnoresEnds(c.diff, c.inlineMin, placed, given, c.max);
    SameIdsAt(h, placed, given, A.Inline(c.diff, c.inlineMin, given, c.max));
  }

  lemma SameIdsAt(h: Hasher, fs: seq<Finding>, gs: seq<Finding>, places: seq<nat>)
    requires A.SameButEnds(fs, gs) && forall x <- places :: x < |fs|
    ensures IdsAt(h, fs, places) == IdsAt(h, gs, places)
  {
    forall k | 0 <= k < |places| ensures IdsAt(h, fs, places)[k] == IdsAt(h, gs, places)[k] {
      assert places[k] in places;
    }
  }

  lemma {:induction false} NoMoreThan(h: Hasher, fs: seq<Finding>, ids: seq<Id>)
    requires DistinctIds(h, fs) && forall f <- fs :: f.IdBy(h) in ids
    ensures |fs| <= |ids|
  {
    if fs != [] {
      var n := |fs| - 1;
      assert fs[n] in fs;
      var i :| 0 <= i < |ids| && ids[i] == fs[n].IdBy(h);
      var rest := ids[..i] + ids[i + 1..];
      forall f | f in fs[..n] ensures f.IdBy(h) in rest {
        var k :| 0 <= k < n && fs[k] == f;
        assert fs[k] in fs;
        var j :| 0 <= j < |ids| && ids[j] == f.IdBy(h);
        assert j != i;
        assert rest[if j < i then j else j - 1] == ids[j];
      }
      NoMoreThan(h, fs[..n], rest);
    }
  }

  /** A run never plans more comments than it may post. */
  lemma PlanFits(h: Hasher, c: Cycle, final: seq<Finding>)
    requires DistinctIds(h, final)
    ensures |Plan(h, final, IsInline(h, c, final), c.prose)| <= c.max
  {
    var inline := IsInline(h, c, final);
    FilterKeepsDistinct(h, final, (f: Finding) => f.Publishable() && inline(f));
    NoMoreThan(h, Planned(final, inline), InlineIds(h, c, final));
  }

  // ---- what a run saves ----

  /** The ids a published report shows. */
  function SurfacedIds(h: Hasher, final: seq<Finding>): set<Id> {
    set f | f in final && f.Publishable() :: f.IdBy(h)
  }

  lemma MarkedPostedKeepsConsistent(h: Hasher, fs: seq<StateFinding>, ids: set<Id>)
    requires Consistent(h, fs)
    ensures Consistent(h, MarkedPosted(fs, ids))
  {
    var r := MarkedPosted(fs, ids);
    forall s | s in r ensures s.id == h(s.file, s.defectKey) {
      var k :| 0 <= k < |r| && r[k] == s;
      assert fs[k] in fs;
    }
  }

  /** What goes into the summary comment once everything the report shows counts as posted. */
  function Stored(h: Hasher, fs: seq<StateFinding>, final: seq<Finding>, publishUncertain: bool): seq<StateFinding> {
    Projected(MarkedPosted(fs, SurfacedIds(h, final)), publishUncertain)
  }

  ghost predicate Shows(h: Hasher, final: seq<Finding>, id: Id) {
    exists f :: f in final && f.Publishable() && f.IdBy(h) == id
  }

  /** What is stored of an entry: it counts as posted if it did or if the report shows it; open entries
      stay, uncertain ones if posted or publishable, resolved ones stripped and only if posted. */
  lemma StoredExactly(h: Hasher, fs: seq<StateFinding>, final: seq<Finding>, publishUncertain: bool, s: StateFinding)
    requires Consistent(h, fs) && s in fs
    ensures var e := s.(posted := s.posted || Shows(h, final, s.id));
      var p := Look(Stored(h, fs, final, publishUncertain), s.id);
      && (s.status == Open ==> p == Some(e))
      && (s.status == Dismissed ==> p == None)
      && (s.status == Unsure ==> p == if e.posted || publishUncertain then Some(e) else None)
      && (s.status == Resolved ==> p == if e.posted then Some(e.(claim := "", evidence := [])) else None)
  {
    var marked := MarkedPosted(fs, SurfacedIds(h, final));
    var e := s.(posted := s.posted || Shows(h, final, s.id));
    MarkedPostedKeepsConsistent(h, fs, SurfacedIds(h, final));
    MarkedMember(h, fs, final, s);
    ProjectedExactly(h, marked, publishUncertain, e);
  }

  lemma MarkedMember(h: Hasher, fs: seq<StateFinding>, final: seq<Finding>, s: StateFinding)
    requires s in fs
    ensures s.(posted := s.posted || Shows(h, final, s.id)) in MarkedPosted(fs, SurfacedIds(h, final))
  {
    var marked := MarkedPosted(fs, SurfacedIds(h, final));
    var k :| 0 <= k < |fs| && fs[k] == s;
    assert marked[k] in marked;
    assert s.id in SurfacedIds(h, final) <==> Shows(h, final, s.id);
  }

  lemma StoredIsConsistent(h: Hasher, fs: seq<StateFinding>, final: seq<Finding>, publishUncertain: bool)
    requires Consistent(h, fs)
    ensures Consistent(h, Stored(h, fs, final, publishUncertain))
  {
    MarkedPostedKeepsConsistent(h, fs, SurfacedIds(h, final));
    ProjectedKeepsConsistent(h, MarkedPosted(fs, SurfacedIds(h, final)), publishUncertain);
  }

  /** What a run came to: its publish, its report, and the state it had before pruning. */
  datatype Run = Run(round: Round, final: seq<Finding>, unpruned: seq<StateFinding>)

  /** The publish is that of the report and of the pruned state, and the report accounts for the state. */
  ghost predicate RunOk(h: Hasher, c: Cycle, r: Run) {
    && r.round == RoundOf(h, c, Pruned(r.unpruned), r.final)
    && DistinctIds(h, r.final) && Consistent(h, r.unpruned) && Accounts(h, r.unpruned, r.final)
  }

  /** The states a run leaves for later ones: on disk, the one it has before it publishes and the one it
      ends with; in the summary comment, the projection, if the run gets that far. */
  function SavedBy(h: Hasher, c: Cycle, cs: seq<Comment>, run: Run): seq<seq<StateFinding>> {
    var reported := run.round.tracked;
    var published := MarkedPosted(reported, Confirmed(cs, run.round));
    if !c.publishes then [reported, MarkedPosted(reported, SurfacedIds(h, run.final))]
    else if !c.fresh_ || !Succeeds(cs, run.round) || c.summary == Failed(false) then [reported, published]
    else [reported, if c.summary.Written? then MarkedPosted(published, SurfacedIds(h, run.final)) else published,
          Stored(h, published, run.final, c.publishUncertain)]
  }

  lemma SavedAreConsistent(h: Hasher, c: Cycle, cs: seq<Comment>, run: Run)
    requires Consistent(h, run.round.tracked)
    ensures forall s <- SavedBy(h, c, cs, run) :: Consistent(h, s)
  {
    var published := MarkedPosted(run.round.tracked, Confirmed(cs, run.round));
    MarkedPostedKeepsConsistent(h, run.round.tracked, Confirmed(cs, run.round));
    MarkedPostedKeepsConsistent(h, run.round.tracked, SurfacedIds(h, run.final));
    MarkedPostedKeepsConsistent(h, published, SurfacedIds(h, run.final));
    StoredIsConsistent(h, published, run.final, c.publishUncertain);
  }

  // ---- runs ----

  /** One run: recheck what is tracked, review, update the state and save it, publish, and save again. */
  method ReviewOnce(h: Hasher, clip: string -> string, pr: PullRequest, start: seq<StateFinding>, c: Cycle)
    returns (saved: seq<seq<StateFinding>>, ghost run: Run)
    requires Consistent(h, start) && CycleOk(c)
    modifies pr
    ensures saved == SavedBy(h, c, old(pr.comments) + c.others, run)
    ensures forall s <- saved :: Consistent(h, s)
    ensures pr.comments == AfterPublish(old(pr.comments) + c.others, run.round)
    ensures RunOk(h, c, run)
  {
    var state, final;
    state, final, run := Report(h, clip, start, c);
    SavedAreConsistent(h, c, pr.comments + c.others, run);
    pr.Arrive(c.others);
    if c.publishes {
      saved := PublishAndSave(h, pr, state, final, c, run);
    } else {
      saved := [state.findings];
      state.MarkPosted(SurfacedIds(h, final));
      saved := saved + [state.findings];
    }
  }

  method PublishAndSave(h: Hasher, pr: PullRequest, state: Tracker, final: seq<Finding>, c: Cycle, ghost run: Run)
    returns (saved: seq<seq<StateFinding>>)
    requires c.publishes && run.round == RoundOf(h, c, state.findings, final) && run.final == final
    modifies pr, state
    ensures saved == SavedBy(h, c, old(pr.comments), run)
    ensures pr.comments == AfterPublish(old(pr.comments), run.round)
  {
    saved := [state.findings];
    var ok := Publish(pr, state, RoundOf(h, c, state.findings, final));
    var stored := Stored(h, state.findings, final, c.publishUncertain);
    if c.fresh_ && ok && c.summary.Written? {
      state.MarkPosted(SurfacedIds(h, final));
    }
    saved := saved + [state.findings];
    if c.fresh_ && ok && c.summary != Failed(false) {
      saved := saved + [stored];
    }
  }

  /** The part of a run before anything is published. */
  method Report(h: Hasher, clip: string -> string, start: seq<StateFinding>, c: Cycle)
    returns (state: Tracker, final: seq<Finding>, ghost run: Run)
    requires Consistent(h, start) && CycleOk(c)
    ensures fresh(state) && state.findings == run.round.tracked && final == run.final
    ensures Consistent(h, state.findings) && RunOk(h, c, run)
  {
    var prep := new Tracker(h, clip, start);
    var rechecks := Recheck(prep, c.recheck);
    var reported, next, carried, unpruned, below, all, marked :=
      Finish(c.words, c.min, prep, rechecks, c.candidates, c.judge, c.duplicates, f => A.ValidEnd(c.diff, f));
    state, final := next, reported;
    run := Run(RoundOf(h, c, next.findings, final), final, unpruned);
  }

  /** The comments after some runs. */
  ghost function AfterRuns(cs: seq<Comment>, runs: seq<Run>): seq<Comment>
    decreases |runs|
  {
    if runs == [] then cs
    else
      var last := runs[|runs| - 1].round;
      AfterPublish(AfterRuns(cs, runs[..|runs| - 1]) + last.others, last)
  }

  ghost predicate RunsOk(h: Hasher, cycles: seq<Cycle>, runs: seq<Run>) {
    |runs| <= |cycles| && forall k :: 0 <= k < |runs| ==> RunOk(h, cycles[k], runs[k])
  }

  lemma OneMoreRun(h: Hasher, cs: seq<Comment>, cycles: seq<Cycle>, runs: seq<Run>, r: Run)
    requires RunsOk(h, cycles, runs) && |runs| < |cycles| && RunOk(h, cycles[|runs|], r)
    ensures RunsOk(h, cycles, runs + [r])
    ensures AfterRuns(cs, runs + [r]) == AfterPublish(AfterRuns(cs, runs) + r.round.others, r.round)
  {
    assert (runs + [r])[..|runs|] == runs;
  }

  /** Any number of runs, each from a state that some earlier one saved or from none, publish one after
      another. */
  method ReviewMany(h: Hasher, clip: string -> string, pr: PullRequest, cycles: seq<Cycle>)
    returns (states: seq<seq<StateFinding>>, ghost runs: seq<Run>)
    requires forall c <- cycles :: CycleOk(c)
    modifies pr
    ensures forall s <- states :: Consistent(h, s)
    ensures |runs| == |cycles| && RunsOk(h, cycles, runs)
    ensures pr.comments == AfterRuns(old(pr.comments), runs)
  {
    states, runs := [], [];
    ghost var cs := pr.comments;
    for k := 0 to |cycles|
      invariant forall s <- states :: Consistent(h, s)
      invariant |runs| == k && RunsOk(h, cycles, runs)
      invariant pr.comments == AfterRuns(cs, runs)
    {
      var c := cycles[k];
      assert c in cycles;
      var start := if c.from < |states| then states[c.from] else [];
      ghost var run;
      var saved;
      saved, run := ReviewOnce(h, clip, pr, start, c);
      OneMoreRun(h, cs, cycles, runs, run);
      runs := runs + [run];
      states := states + saved;
    }
  }

  // ---- one comment a finding ----

  /** The run posts a comment for a finding that has one on the pull request: pruning dropped it. */
  ghost predicate Reposts(h: Hasher, c: Cycle, cs: seq<Comment>, r: Run) {
    && c.publishes && c.fresh_ && c.listed && c.post.Landed()
    && exists f :: f in r.final && DroppedReplan(h, c, cs, r, f)
  }

  ghost predicate DroppedReplan(h: Hasher, c: Cycle, cs: seq<Comment>, r: Run, f: Finding) {
    && f.Publishable() && f.IdBy(h) in InlineIds(h, c, r.final)
    && f.IdBy(h) in PostedIds(cs) && !PruneKeeps(r.unpruned, f.IdBy(h))
  }

  lemma DroppedIsUntracked(h: Hasher, c: Cycle, cs: seq<Comment>, r: Run, f: Finding)
    requires MakesMarkers(h) && RunOk(h, c, r) && f in r.final && DroppedReplan(h, c, cs, r, f)
    ensures !ReplansAreTracked(cs, r.round)
  {
    var inline := IsInline(h, c, r.final);
    PlanMarkers(h, r.final, inline, c.prose);
    var k :| 0 <= k < |Planned(r.final, inline)| && Planned(r.final, inline)[k] == f;
    assert r.round.plan[k] in r.round.plan && Replanned(cs, r.round.plan[k]);
    PruneKeepsExactly(h, r.unpruned, f.IdBy(h));
  }

  lemma UntrackedIsDropped(h: Hasher, c: Cycle, cs: seq<Comment>, r: Run) returns (f: Finding)
    requires MakesMarkers(h) && RunOk(h, c, r) && !ReplansAreTracked(cs, r.round)
    ensures f in r.final && DroppedReplan(h, c, cs, r, f)
  {
    var b :| b in r.round.plan && Replanned(cs, b) && !IsTrackedOpen(r.round.tracked, MarkerId(b).value);
    f := PlannedFor(h, r.final, IsInline(h, c, r.final), c.prose, b);
    PruneKeepsExactly(h, r.unpruned, f.IdBy(h));
  }

  lemma PlannedFor(h: Hasher, final: seq<Finding>, inline: Finding -> bool, prose: Finding -> string, b: string)
    returns (f: Finding)
    requires MakesMarkers(h) && DistinctIds(h, final) && b in Plan(h, final, inline, prose)
    ensures f in final && f.Publishable() && inline(f) && MarkerId(b) == Some(f.IdBy(h))
  {
    PlanMarkers(h, final, inline, prose);
    var k :| 0 <= k < |Plan(h, final, inline, prose)| && Plan(h, final, inline, prose)[k] == b;
    f := Planned(final, inline)[k];
    assert f in Planned(final, inline);
  }

  /** A planned comment is there already and untracked exactly when such a finding exists. */
  lemma ReplansTracked(h: Hasher, c: Cycle, cs: seq<Comment>, r: Run)
    requires MakesMarkers(h) && RunOk(h, c, r)
    ensures ReplansAreTracked(cs, r.round) <==> forall f <- r.final :: !DroppedReplan(h, c, cs, r, f)
  {
    if ReplansAreTracked(cs, r.round) {
      forall f | f in r.final ensures !DroppedReplan(h, c, cs, r, f) {
        if DroppedReplan(h, c, cs, r, f) { DroppedIsUntracked(h, c, cs, r, f); }
      }
    } else {
      var f := UntrackedIsDropped(h, c, cs, r);
    }
  }

  /** One run leaves two of our inline comments for a finding exactly when it reposts one. */
  lemma RepostsExactly(h: Hasher, c: Cycle, cs: seq<Comment>, r: Run)
    requires MakesMarkers(h) && RunOk(h, c, r) && NoDuplicates(cs)
    ensures NoDuplicates(AfterPublish(cs, r.round)) <==> !Reposts(h, c, cs, r)
  {
    if c.publishes && c.fresh_ && c.listed && c.post.Landed() {
      ReplansTracked(h, c, cs, r);
      PlanMarkers(h, r.final, IsInline(h, c, r.final), c.prose);
      PlanFits(h, c, r.final);
      DuplicateExactlyWhenUntracked(cs, r.round);
    }
  }

  lemma RepostsOne(h: Hasher, c: Cycle, cs: seq<Comment>, r: Run, f: Finding)
    requires MakesMarkers(h) && RunOk(h, c, r) && NoDuplicates(cs)
    requires c.publishes && c.fresh_ && c.listed && c.post.Landed() && f in r.final && DroppedReplan(h, c, cs, r, f)
    ensures !NoDuplicates(AfterPublish(cs, r.round))
  {
    RepostsExactly(h, c, cs, r);
  }

  // ---- a comment for every finding ----

  lemma {:induction false} WantedAreFew(tracked: seq<StateFinding>, cs: seq<Comment>, plan: seq<string>)
    ensures WantedAmong(tracked, cs, plan) <= |plan|
  {
    if plan != [] { WantedAreFew(tracked, cs, plan[..|plan| - 1]); }
  }

  /** Once a run's review has landed, every finding its report shows inline is on the pull request, unless
      state called it posted before. */
  lemma InlineIsPosted(h: Hasher, c: Cycle, cs: seq<Comment>, r: Run, f: Finding)
    requires MakesMarkers(h) && RunOk(h, c, r) && c.publishes && c.fresh_ && c.listed && c.post.Landed()
    requires f in r.final && f.Publishable() && f.IdBy(h) in InlineIds(h, c, r.final)
    ensures f.IdBy(h) in PostedIds(AfterPublish(cs, r.round)) || HasPosted(r.round.tracked, f.IdBy(h))
  {
    var inline := IsInline(h, c, r.final);
    var plan := Plan(h, r.final, inline, c.prose);
    PlanMarkers(h, r.final, inline, c.prose);
    var k :| 0 <= k < |plan| && Planned(r.final, inline)[k] == f;
    if f.IdBy(h) in PostedIds(cs) {
      PostedAfter(cs, r.round, f.IdBy(h));
    } else {
      PlanFits(h, c, r.final);
      WantedAreFew(r.round.tracked, cs, plan[..k]);
      PostsExactly(cs, r.round, k);
    }
  }

  /** And nothing else is: whatever was not there before is the comment of such a finding. */
  lemma OnlyInlinePosted(h: Hasher, c: Cycle, cs: seq<Comment>, r: Run, k: nat) returns (f: Finding)
    requires MakesMarkers(h) && RunOk(h, c, r) && |cs| <= k < |AfterPublish(cs, r.round)|
    ensures f in r.final && f.Publishable() && f.IdBy(h) in InlineIds(h, c, r.final)
    ensures OwnId(AfterPublish(cs, r.round)[k]) == Some(f.IdBy(h))
  {
    PostsOnlyPlanned(cs, r.round);
    f := PlannedFor(h, r.final, IsInline(h, c, r.final), c.prose, AfterPublish(cs, r.round)[k].body);
  }

  /** No run ever reposts. */
  ghost predicate NeverReposts(h: Hasher, cycles: seq<Cycle>, cs: seq<Comment>, runs: seq<Run>)
    requires |runs| <= |cycles|
    decreases |runs|
  {
    runs == [] ||
    (var n := |runs| - 1;
     NeverReposts(h, cycles, cs, runs[..n])
     && !Reposts(h, cycles[n], AfterRuns(cs, runs[..n]) + runs[n].round.others, runs[n]))
  }

  lemma DuplicatesStay(cs: seq<Comment>, more: seq<Comment>, r: Round)
    requires !NoDuplicates(cs)
    ensures !NoDuplicates(AfterPublish(cs + more, r))
  {
    var i, j :| 0 <= i < j < |cs| && OwnId(cs[i]).Some? && OwnId(cs[i]) == OwnId(cs[j]);
    var after := AfterPublish(cs + more, r);
    assert after[i] == cs[i] && after[j] == cs[j];
  }

  lemma OneRunExactly(h: Hasher, c: Cycle, before: seq<Comment>, r: Run)
    requires MakesMarkers(h) && RunOk(h, c, r) && CycleOk(c)
    ensures NoDuplicates(AfterPublish(before + c.others, r.round)) <==>
      NoDuplicates(before) && !Reposts(h, c, before + c.others, r)
  {
    if NoDuplicates(before) {
      ForeignKeepsDistinct(before, c.others);
      RepostsExactly(h, c, before + c.others, r);
    } else {
      DuplicatesStay(before, c.others, r.round);
    }
  }

  /** Over any number of runs the pull request never holds two of our inline comments for one finding
      exactly when no run reposts. */
  lemma {:induction false} OnceExactly(h: Hasher, cs: seq<Comment>, cycles: seq<Cycle>, runs: seq<Run>)
    requires MakesMarkers(h) && NoDuplicates(cs) && forall c <- cycles :: CycleOk(c)
    requires RunsOk(h, cycles, runs)
    ensures NoDuplicates(AfterRuns(cs, runs)) <==> NeverReposts(h, cycles, cs, runs)
    decreases |runs|
  {
    if runs != [] {
      var n := |runs| - 1;
      assert cycles[n] in cycles;
      OnceExactly(h, cs, cycles, runs[..n]);
      OneRunExactly(h, cycles[n], AfterRuns(cs, runs[..n]), runs[n]);
    }
  }

  lemma UncrowdedNeverReposts(h: Hasher, c: Cycle, cs: seq<Comment>, r: Run)
    requires RunOk(h, c, r) && |LiveOnly(r.unpruned)| <= MAX_STATE_FINDINGS
    ensures !Reposts(h, c, cs, r)
  {
    forall f | f in r.final && f.Publishable() ensures PruneKeeps(r.unpruned, f.IdBy(h)) {
      PublishableIsTracked(h, r.unpruned, r.final, f);
      PruneKeepsExactly(h, r.unpruned, f.IdBy(h));
    }
  }

  /** So it never does while every run ends with at most 200 open or uncertain findings. */
  lemma {:induction false} NeverTwiceOverRuns(h: Hasher, cs: seq<Comment>, cycles: seq<Cycle>, runs: seq<Run>)
    requires MakesMarkers(h) && NoDuplicates(cs) && forall c <- cycles :: CycleOk(c)
    requires RunsOk(h, cycles, runs) && forall r <- runs :: |LiveOnly(r.unpruned)| <= MAX_STATE_FINDINGS
    ensures NeverReposts(h, cycles, cs, runs) && NoDuplicates(AfterRuns(cs, runs))
    decreases |runs|
  {
    OnceExactly(h, cs, cycles, runs);
    if runs != [] {
      var n := |runs| - 1;
      assert runs[n] in runs && cycles[n] in cycles;
      NeverTwiceOverRuns(h, cs, cycles, runs[..n]);
      UncrowdedNeverReposts(h, cycles[n], AfterRuns(cs, runs[..n]) + runs[n].round.others, runs[n]);
    }
  }
}
