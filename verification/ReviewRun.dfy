/** One review run over the tracked findings: rechecks, severity gates, duplicate judgment and the
    state update (`prepare` and `finish`, src/pipeline/common.rs). The validator and the duplicate
    judge are oracles; the validator always leaves a verdict (src/pipeline/validate.rs). */
module ReviewRun {
  import opened Wrappers
  import opened Findings
  import opened ReviewState
  import opened Canonicalization
  import Dedup

  /** How one validator session ended. A verdict without a rationale is no verdict. */
  datatype Session =
    | Answered(verdict: Verdict, severity: Option<Severity>, startLine: Option<nat>, endLine: Option<nat>,
               explained: bool)
    | Malformed
    | OutOfTime
    | Unavailable

  predicate Conclusive(s: Session) {
    s.Answered? && s.explained
  }

  /** The finding after its session: only a verdict changes more than the status, and without one the
      finding is uncertain. */
  function Judged(f: Finding, s: Session): (r: Finding)
    ensures r.verdict.Some? && r.file == f.file && r.defectKey == f.defectKey && r.duplicateOf == f.duplicateOf
    ensures r.verdict == Some(Accepted) <==> Conclusive(s) && s.verdict == Accepted
    ensures !Conclusive(s) ==> r == f.(verdict := Some(Uncertain))
  {
    if Conclusive(s) then
      f.(verdict := Some(s.verdict),
         severity := if s.severity.Some? then s.severity.value else f.severity,
         startLine := if s.startLine.Some? then s.startLine.value else f.startLine,
         endLine := if s.endLine.Some? then s.endLine else f.endLine)
    else
      f.(verdict := Some(Uncertain))
  }

  function JudgedAll(fs: seq<Finding>, judge: nat -> Session): (r: seq<Finding>)
    ensures |r| == |fs|
  {
    seq(|fs|, k requires 0 <= k < |fs| => Judged(fs[k], judge(k)))
  }

  /** What a session makes of a finding: a conclusive one gives the verdict and, where it names them, the
      severity and the lines; any other gives no more than that the finding is uncertain. */
  ghost predicate Judges(f: Finding, s: Session, r: Finding) {
    && r == f.(verdict := r.verdict, severity := r.severity, startLine := r.startLine, endLine := r.endLine)
    && (if s.Answered? && s.explained then
          && r.verdict == Some(s.verdict)
          && (s.severity.Some? ==> r.severity == s.severity.value) && (s.severity.None? ==> r.severity == f.severity)
          && (s.startLine.Some? ==> r.startLine == s.startLine.value) && (s.startLine.None? ==> r.startLine == f.startLine)
          && r.endLine == (if s.endLine.Some? then s.endLine else f.endLine)
        else
          r == f.(verdict := Some(Uncertain)))
  }

  /** Runs the sessions; `clean` says that every one of them was conclusive. */
  method Validate(fs: seq<Finding>, judge: nat -> Session) returns (r: seq<Finding>, clean: bool)
    ensures r == JudgedAll(fs, judge)
    ensures |r| == |fs| && forall k :: 0 <= k < |fs| ==> Judges(fs[k], judge(k), r[k])
    ensures clean <==> forall k: nat :: k < |fs| ==> judge(k).Answered? && judge(k).explained
  {
    r, clean := fs, true;
    for k := 0 to |fs|
      invariant |r| == |fs|
      invariant forall j: nat :: j < k ==> r[j] == Judged(fs[j], judge(j))
      invariant forall j: nat :: k <= j < |fs| ==> r[j] == fs[j]
      invariant clean <==> forall j: nat :: j < k ==> Conclusive(judge(j))
    {
      r := r[k := Judged(r[k], judge(k))];
      clean := clean && Conclusive(judge(k));
    }
  }

  // ---- rechecks ----

  /** Every open entry was accepted by a recheck of this run. */
  ghost predicate OpenMeansAccepted(h: Hasher, fs: seq<StateFinding>, rechecks: seq<Finding>) {
    forall s :: s in fs && s.status == Open ==> AcceptedIn(h, rechecks, s.id)
  }

  ghost predicate AcceptedIn(h: Hasher, rechecks: seq<Finding>, id: Id) {
    exists k :: 0 <= k < |rechecks| && rechecks[k].verdict == Some(Accepted) && rechecks[k].IdBy(h) == id
  }

  /** Where the entries stand after the first `k` of the live ones were rechecked. */
  ghost predicate RecheckedUpTo(before: seq<StateFinding>, now: seq<StateFinding>, live: seq<StateFinding>,
                                rechecks: seq<Finding>, k: nat)
    requires k <= |live| == |rechecks|
  {
    && |now| == |before|
    && (forall i :: 0 <= i < |before| ==> now[i] == before[i].(status := now[i].status))
    && (forall i :: 0 <= i < |before| ==>
          now[i].status == before[i].status ||
          exists j :: 0 <= j < k && live[j].id == before[i].id && rechecks[j].verdict.Some?
            && now[i].status == RecheckTransition(rechecks[j].verdict.value))
    && (forall i, j :: 0 <= i < |before| && 0 <= j < k && live[j].id == before[i].id ==>
          rechecks[j].verdict.Some? && now[i].status == RecheckTransition(rechecks[j].verdict.value))
  }

  /** The findings that are rechecked. */
  function Candidates(fs: seq<StateFinding>): (r: seq<Finding>)
    ensures |r| == |LiveOnly(fs)|
  {
    var live := LiveOnly(fs);
    seq(|live|, k requires 0 <= k < |live| => ToFinding(live[k]))
  }

  /** Where a session leaves the entry it rechecks: only an explained verdict closes or reopens it. */
  ghost predicate RecheckLeaves(s: Session, status: Standing) {
    if s.Answered? && s.explained && s.verdict == Accepted then status == Open
    else if s.Answered? && s.explained && s.verdict == Rejected then status == Resolved
    else status == Unsure
  }

  /** The `k`-th live entry stands where the `k`-th session leaves it; everything else about every entry,
      and the standing of the others, is as before. */
  ghost predicate RecheckedBy(before: seq<StateFinding>, now: seq<StateFinding>, judge: nat -> Session) {
    && |now| == |before|
    && (forall i :: 0 <= i < |before| ==> now[i] == before[i].(status := now[i].status))
    && (forall i :: 0 <= i < |before| && !before[i].status.Live() ==> now[i] == before[i])
    && (forall i: nat :: i < |before| && before[i].status.Live() ==>
          RecheckLeaves(judge(|LiveOnly(before[..i])|), now[i].status))
  }

  /** Rechecks every open or uncertain entry and records where it stands; the others stay. */
  method Recheck(state: Tracker, judge: nat -> Session) returns (rechecks: seq<Finding>)
    requires Consistent(state.h, state.findings)
    modifies state
    ensures Consistent(state.h, state.findings)
    ensures rechecks == JudgedAll(Candidates(old(state.findings)), judge)
    ensures RecheckedUpTo(old(state.findings), state.findings, LiveOnly(old(state.findings)), rechecks, |rechecks|)
    ensures RecheckedBy(old(state.findings), state.findings, judge)
    ensures OpenMeansAccepted(state.h, state.findings, rechecks)
    ensures forall r <- rechecks :: r.duplicateOf == None
  {
    ghost var before := state.findings;
    var live := LiveOnly(state.findings);
    var clean;
    rechecks, clean := Validate(Candidates(state.findings), judge);
    for k := 0 to |rechecks|
      invariant RecheckedUpTo(before, state.findings, live, rechecks, k)
    {
      RecheckOf(state.h, before, judge, k);
      RecheckStep(before, state.findings, live, rechecks, k);
      state.Mark(rechecks[k].IdBy(state.h), RecheckTransition(rechecks[k].verdict.value));
    }
    RechecksAre(state.h, before, judge);
    RecheckedAll(state.h, before, state.findings, live, rechecks);
    AllRecheckedBy(state.h, before, state.findings, judge);
  }

  lemma {:induction false} LiveSplit(fs: seq<StateFinding>, i: nat)
    requires i < |fs| && fs[i].status.Live()
    ensures |LiveOnly(fs[..i])| < |LiveOnly(fs)| && LiveOnly(fs)[|LiveOnly(fs[..i])|] == fs[i]
    decreases |fs|
  {
    if i > 0 {
      assert fs[..i][0] == fs[0] && fs[..i][1..] == fs[1..][..i - 1];
      LiveSplit(fs[1..], i - 1);
    }
  }

  lemma LiveRechecked(h: Hasher, before: seq<StateFinding>, now: seq<StateFinding>, judge: nat -> Session, i: nat)
    requires Consistent(h, before)
    requires RecheckedUpTo(before, now, LiveOnly(before), JudgedAll(Candidates(before), judge), |LiveOnly(before)|)
    requires i < |before| && before[i].status.Live()
    ensures RecheckLeaves(judge(|LiveOnly(before[..i])|), now[i].status)
  {
    var j := |LiveOnly(before[..i])|;
    LiveSplit(before, i);
    RecheckOf(h, before, judge, j);
    assert JudgedAll(Candidates(before), judge)[j] == Judged(Candidates(before)[j], judge(j));
  }

  lemma ClosedStays(before: seq<StateFinding>, now: seq<StateFinding>, rechecks: seq<Finding>, i: nat)
    requires UniqueIds(before) && |rechecks| == |LiveOnly(before)|
    requires RecheckedUpTo(before, now, LiveOnly(before), rechecks, |LiveOnly(before)|)
    requires i < |before| && !before[i].status.Live()
    ensures now[i] == before[i]
  {
    forall j | 0 <= j < |LiveOnly(before)| ensures LiveOnly(before)[j].id != before[i].id {
      LiveOnlyMembers(before, LiveOnly(before)[j]);
      var k :| 0 <= k < |before| && before[k] == LiveOnly(before)[j];
      assert k < i || i < k;
    }
  }

  lemma AllRecheckedBy(h: Hasher, before: seq<StateFinding>, now: seq<StateFinding>, judge: nat -> Session)
    requires Consistent(h, before)
    requires RecheckedUpTo(before, now, LiveOnly(before), JudgedAll(Candidates(before), judge), |LiveOnly(before)|)
    ensures RecheckedBy(before, now, judge)
  {
    forall i: nat | i < |before| && before[i].status.Live()
      ensures RecheckLeaves(judge(|LiveOnly(before[..i])|), now[i].status)
    {
      LiveRechecked(h, before, now, judge, i);
    }
    forall i: nat | i < |before| && !before[i].status.Live() ensures now[i] == before[i] {
      ClosedStays(before, now, JudgedAll(Candidates(before), judge), i);
    }
  }

  lemma RecheckOf(h: Hasher, fs: seq<StateFinding>, judge: nat -> Session, k: nat)
    requires Consistent(h, fs) && k < |LiveOnly(fs)|
    ensures var r := JudgedAll(Candidates(fs), judge)[k];
      r.IdBy(h) == LiveOnly(fs)[k].id && r.verdict.Some? && r.duplicateOf == None
  {
    var s := LiveOnly(fs)[k];
    LiveOnlyMembers(fs, s);
    assert s in fs && s.id == h(s.file, s.defectKey);
    assert JudgedAll(Candidates(fs), judge)[k] == Judged(ToFinding(s), judge(k));
  }

  lemma RechecksAre(h: Hasher, fs: seq<StateFinding>, judge: nat -> Session)
    requires Consistent(h, fs)
    ensures var rs := JudgedAll(Candidates(fs), judge);
      && (forall k :: 0 <= k < |rs| ==> rs[k].IdBy(h) == LiveOnly(fs)[k].id)
      && (forall r <- rs :: r.duplicateOf == None)
  {
    forall k: nat | k < |LiveOnly(fs)|
      ensures JudgedAll(Candidates(fs), judge)[k].IdBy(h) == LiveOnly(fs)[k].id
      ensures JudgedAll(Candidates(fs), judge)[k].duplicateOf == None
    {
      RecheckOf(h, fs, judge, k);
    }
  }

  lemma {:induction false} LiveOnlyUnique(fs: seq<StateFinding>)
    requires UniqueIds(fs)
    ensures UniqueIds(LiveOnly(fs))
  {
    if fs != [] {
      LiveOnlyUnique(fs[1..]);
      forall s | s in LiveOnly(fs[1..]) ensures s.id != fs[0].id {
        LiveOnlyMembers(fs[1..], s);
      }
    }
  }

  lemma RecheckStep(before: seq<StateFinding>, now: seq<StateFinding>, live: seq<StateFinding>,
                    rechecks: seq<Finding>, k: nat)
    requires k < |live| == |rechecks| && RecheckedUpTo(before, now, live, rechecks, k)
    requires UniqueIds(before) && rechecks[k].verdict.Some? && live == LiveOnly(before)
    ensures RecheckedUpTo(before, Marked(now, live[k].id, RecheckTransition(rechecks[k].verdict.value)), live,
                          rechecks, k + 1)
  {
    LiveOnlyUnique(before);
    var after := Marked(now, live[k].id, RecheckTransition(rechecks[k].verdict.value));
    forall i | 0 <= i < |before| ensures after[i] == if before[i].id == live[k].id
      then now[i].(status := RecheckTransition(rechecks[k].verdict.value)) else now[i]
    {
      var p := Position(now, live[k].id);
      assert p < i || i < p || p == i;
    }
  }

  lemma RecheckedAll(h: Hasher, before: seq<StateFinding>, now: seq<StateFinding>, live: seq<StateFinding>,
                     rechecks: seq<Finding>)
    requires Consistent(h, before) && live == LiveOnly(before) && |rechecks| == |live|
    requires RecheckedUpTo(before, now, live, rechecks, |live|)
    requires forall k :: 0 <= k < |live| ==> rechecks[k].IdBy(h) == live[k].id
    ensures Consistent(h, now) && OpenMeansAccepted(h, now, rechecks)
  {
    RecheckedConsistent(h, before, now, live, rechecks);
    forall s | s in now && s.status == Open ensures AcceptedIn(h, rechecks, s.id) {
      var i: nat :| i < |now| && now[i] == s;
      OpenWasAccepted(h, before, now, live, rechecks, i);
    }
  }

  lemma OpenWasAccepted(h: Hasher, before: seq<StateFinding>, now: seq<StateFinding>, live: seq<StateFinding>,
                        rechecks: seq<Finding>, i: nat)
    requires live == LiveOnly(before) && |rechecks| == |live|
    requires RecheckedUpTo(before, now, live, rechecks, |live|)
    requires forall k :: 0 <= k < |live| ==> rechecks[k].IdBy(h) == live[k].id
    requires i < |now| && now[i].status == Open
    ensures AcceptedIn(h, rechecks, now[i].id)
  {
    LiveOnlyMembers(before, before[i]);
    var j: nat;
    if before[i].status == Open {
      j :| j < |live| && live[j] == before[i];
    } else {
      j :| j < |live| && live[j].id == before[i].id && rechecks[j].verdict.Some?
        && now[i].status == RecheckTransition(rechecks[j].verdict.value);
    }
    assert rechecks[j].verdict == Some(Accepted);
  }

  lemma RecheckedConsistent(h: Hasher, before: seq<StateFinding>, now: seq<StateFinding>, live: seq<StateFinding>,
                            rechecks: seq<Finding>)
    requires Consistent(h, before) && |rechecks| == |live| && RecheckedUpTo(before, now, live, rechecks, |live|)
    ensures Consistent(h, now)
  {
    forall s | s in now ensures s.id == h(s.file, s.defectKey) {
      var i :| 0 <= i < |now| && now[i] == s;
      assert before[i] in before;
    }
  }

  // ---- the state update ----

  function StandingOf(v: Option<Verdict>): Standing {
    if v == Some(Accepted) then Open else if v == Some(Rejected) then Dismissed else Unsure
  }

  function DuplicateIds(h: Hasher, final: seq<Finding>): set<Id> {
    set f | f in final && f.duplicateOf.Some? :: f.IdBy(h)
  }

  /** The entries of `done` that exist have become uncertain; the others are as in `base`. */
  ghost predicate Demoted(base: seq<StateFinding>, now: seq<StateFinding>, done: set<Id>) {
    Ids(now) == Ids(base) &&
    forall id ::
      && (id in done && Look(base, id).Some? ==> DemotedEntry(Look(base, id).value, Look(now, id)))
      && (id !in done || Look(base, id).None? ==> Look(now, id) == Look(base, id))
  }

  /** It is uncertain now, and as posted as it was, unless it was closed. */
  ghost predicate DemotedEntry(had: StateFinding, e: Option<StateFinding>) {
    e.Some? && e.value.status == Unsure && e.value.posted == (had.posted && had.status.Live())
  }

  lemma DemoteStep(h: Hasher, clip: string -> string, base: seq<StateFinding>, now: seq<StateFinding>, done: set<Id>,
                   f: Finding)
    requires Demoted(base, now, done) && Consistent(h, now) && f.duplicateOf.None? && f.IdBy(h) !in done
    ensures Look(now, f.IdBy(h)).Some? ==>
      Demoted(base, Upserted(h, clip, now, f, Unsure), done + {f.IdBy(h)})
      && Consistent(h, Upserted(h, clip, now, f, Unsure))
    ensures Look(now, f.IdBy(h)).None? ==> Demoted(base, now, done + {f.IdBy(h)})
  {
    if Look(now, f.IdBy(h)).Some? {
      forall id { LookUpserted(h, clip, now, f, Unsure, id); }
      UpsertedOrder(h, clip, now, f, Unsure);
      UpsertedKeepsConsistent(h, clip, now, f, Unsure);
    }
  }

  method Demote(state: Tracker, below: map<Id, Finding>)
    requires Consistent(state.h, state.findings)
    requires KeyedUndropped(state.h, below)
    modifies state
    ensures Consistent(state.h, state.findings)
    ensures Demoted(old(state.findings), state.findings, below.Keys)
  {
    ghost var base := state.findings;
    var rest := below.Keys;
    ghost var done: set<Id> := {};
    while rest != {}
      invariant done + rest == below.Keys && done !! rest
      invariant Consistent(state.h, state.findings)
      invariant Demoted(base, state.findings, done)
      decreases rest
    {
      var id :| id in rest;
      DemoteOne(state, below[id], base, done);
      done := done + {id};
      rest := rest - {id};
    }
    assert done == below.Keys;
  }

  method DemoteOne(state: Tracker, f: Finding, ghost base: seq<StateFinding>, ghost done: set<Id>)
    requires Consistent(state.h, state.findings) && f.duplicateOf.None? && f.IdBy(state.h) !in done
    requires Demoted(base, state.findings, done)
    modifies state
    ensures Consistent(state.h, state.findings)
    ensures Demoted(base, state.findings, done + {f.IdBy(state.h)})
  {
    DemoteStep(state.h, state.clip, base, state.findings, done, f);
    if Look(state.findings, f.IdBy(state.h)).Some? {
      var _ := state.Upsert(f, Unsure);
    }
  }

  /** The ids of the first `k` findings that are recorded and new, in order. */
  function NewIds(h: Hasher, base: seq<StateFinding>, final: seq<Finding>, k: nat): seq<Id>
    requires k <= |final|
  {
    if k == 0 then []
    else
      var id := final[k - 1].IdBy(h);
      NewIds(h, base, final, k - 1) + if final[k - 1].duplicateOf.None? && Look(base, id).None? then [id] else []
  }

  /** The first `k` findings are recorded; ids that are not among them are as in `base`. */
  ghost predicate Recorded(h: Hasher, base: seq<StateFinding>, now: seq<StateFinding>, final: seq<Finding>, k: nat)
    requires k <= |final|
  {
    && (forall j :: 0 <= j < k && final[j].duplicateOf.None? ==>
          Records(Look(base, final[j].IdBy(h)), Look(now, final[j].IdBy(h)), final[j], StandingOf(final[j].verdict)))
    && (forall id :: Unrecorded(h, final, k, id) ==> Look(now, id) == Look(base, id))
  }

  /** What the first `k` findings added is at the end, in their order. */
  ghost predicate InOrder(h: Hasher, base: seq<StateFinding>, now: seq<StateFinding>, final: seq<Finding>, k: nat)
    requires k <= |final|
  {
    Ids(now) == Ids(base) + NewIds(h, base, final, k)
  }

  ghost predicate Unrecorded(h: Hasher, final: seq<Finding>, k: nat, id: Id)
    requires k <= |final|
  {
    forall j :: 0 <= j < k ==> final[j].duplicateOf.Some? || final[j].IdBy(h) != id
  }

  /** `r` is `now` but for the entry of `f`, which has `status`. */
  ghost predicate OnlySets(h: Hasher, now: seq<StateFinding>, r: seq<StateFinding>, f: Finding, status: Standing) {
    var id := f.IdBy(h);
    && Records(Look(now, id), Look(r, id), f, status)
    && (forall x :: x != id ==> Look(r, x) == Look(now, x))
    && Ids(r) == Ids(now) + if Look(now, id).Some? then [] else [id]
  }

  lemma UpsertOnlySets(h: Hasher, clip: string -> string, now: seq<StateFinding>, f: Finding, status: Standing)
    requires f.duplicateOf.None?
    ensures OnlySets(h, now, Upserted(h, clip, now, f, status), f, status)
  {
    forall x { LookUpserted(h, clip, now, f, status, x); }
    UpsertedOrder(h, clip, now, f, status);
  }

  ghost predicate RecordsOne(h: Hasher, now: seq<StateFinding>, r: seq<StateFinding>, f: Finding) {
    if f.duplicateOf.Some? then r == now else OnlySets(h, now, r, f, StandingOf(f.verdict))
  }

  lemma RecordStep(h: Hasher, base: seq<StateFinding>, now: seq<StateFinding>, r: seq<StateFinding>,
                   final: seq<Finding>, k: nat)
    requires k < |final| && DistinctIds(h, final) && Recorded(h, base, now, final, k)
    requires RecordsOne(h, now, r, final[k])
    ensures Recorded(h, base, r, final, k + 1)
  {
    forall id | Unrecorded(h, final, k + 1, id) ensures Look(r, id) == Look(base, id) {
      assert Unrecorded(h, final, k, id);
      assert final[k].duplicateOf.Some? || final[k].IdBy(h) != id;
    }
  }

  lemma OrderStep(h: Hasher, base: seq<StateFinding>, now: seq<StateFinding>, r: seq<StateFinding>,
                  final: seq<Finding>, k: nat)
    requires k < |final| && DistinctIds(h, final) && Recorded(h, base, now, final, k) && InOrder(h, base, now, final, k)
    requires RecordsOne(h, now, r, final[k])
    ensures InOrder(h, base, r, final, k + 1)
  {
    NotRecordedYet(h, base, now, final, k);
  }

  lemma NotRecordedYet(h: Hasher, base: seq<StateFinding>, now: seq<StateFinding>, final: seq<Finding>, k: nat)
    requires k < |final| && DistinctIds(h, final) && Recorded(h, base, now, final, k)
    ensures Look(now, final[k].IdBy(h)) == Look(base, final[k].IdBy(h))
  {
    assert Unrecorded(h, final, k, final[k].IdBy(h));
  }

  lemma NothingRecorded(h: Hasher, base: seq<StateFinding>, final: seq<Finding>)
    ensures Recorded(h, base, base, final, 0) && InOrder(h, base, base, final, 0)
  {
  }

  lemma BothSteps(h: Hasher, base: seq<StateFinding>, now: seq<StateFinding>, r: seq<StateFinding>,
                  final: seq<Finding>, k: nat)
    requires k < |final| && DistinctIds(h, final) && Recorded(h, base, now, final, k) && InOrder(h, base, now, final, k)
    requires RecordsOne(h, now, r, final[k])
    ensures Recorded(h, base, r, final, k + 1) && InOrder(h, base, r, final, k + 1)
  {
    RecordStep(h, base, now, r, final, k);
    OrderStep(h, base, now, r, final, k);
  }

  method UpsertOne(state: Tracker, f: Finding)
    requires Consistent(state.h, state.findings)
    modifies state
    ensures Consistent(state.h, state.findings)
    ensures RecordsOne(state.h, old(state.findings), state.findings, f)
  {
    if f.duplicateOf.None? {
      UpsertOnlySets(state.h, state.clip, state.findings, f, StandingOf(f.verdict));
      UpsertedKeepsConsistent(state.h, state.clip, state.findings, f, StandingOf(f.verdict));
      var _ := state.Upsert(f, StandingOf(f.verdict));
    }
  }

  method RecordOne(state: Tracker, final: seq<Finding>, k: nat, ghost base: seq<StateFinding>)
    requires k < |final| && Consistent(state.h, state.findings) && DistinctIds(state.h, final)
    requires Recorded(state.h, base, state.findings, final, k) && InOrder(state.h, base, state.findings, final, k)
    modifies state
    ensures Consistent(state.h, state.findings)
    ensures Recorded(state.h, base, state.findings, final, k + 1) && InOrder(state.h, base, state.findings, final, k + 1)
  {
    ghost var now := state.findings;
    UpsertOne(state, final[k]);
    BothSteps(state.h, base, now, state.findings, final, k);
  }

  method Record(state: Tracker, final: seq<Finding>)
    requires Consistent(state.h, state.findings) && DistinctIds(state.h, final)
    modifies state
    ensures Consistent(state.h, state.findings)
    ensures Recorded(state.h, old(state.findings), state.findings, final, |final|)
    ensures InOrder(state.h, old(state.findings), state.findings, final, |final|)
  {
    ghost var base := state.findings;
    NothingRecorded(state.h, base, final);
    for k := 0 to |final|
      invariant Consistent(state.h, state.findings)
      invariant Recorded(state.h, base, state.findings, final, k) && InOrder(state.h, base, state.findings, final, k)
    {
      RecordOne(state, final, k, base);
    }
  }

  /** Where every id stands after a run: where its reported finding puts it; gone if that is a
      duplicate; uncertain if it fell below the severity threshold; otherwise where it was. */
  ghost predicate Settled(h: Hasher, before: seq<StateFinding>, below: set<Id>, final: seq<Finding>,
                          after: seq<StateFinding>) {
    && Consistent(h, after)
    && (forall k :: 0 <= k < |final| ==>
          if final[k].duplicateOf.Some? then Look(after, final[k].IdBy(h)).None?
          else StatusOf(after, final[k].IdBy(h)) == Some(
            if final[k].verdict == Some(Accepted) then Open
            else if final[k].verdict == Some(Rejected) then Dismissed else Unsure))
    && (forall id :: !HasId(h, final, id) ==>
          if id in below && Look(before, id).Some? then StatusOf(after, id) == Some(Unsure)
          else Look(after, id) == Look(before, id))
  }

  /** The entry of a reported finding is that finding's, and it counts as posted, if it is open or uncertain,
      exactly if the id did and was so before; a demoted one is as posted as it was. */
  ghost predicate Detailed(h: Hasher, before: seq<StateFinding>, below: set<Id>, final: seq<Finding>,
                           after: seq<StateFinding>) {
    && (forall k :: 0 <= k < |final| && final[k].duplicateOf.None? ==> ReportedEntry(h, before, final[k], after))
    && (forall id :: !HasId(h, final, id) && id in below && Look(before, id).Some? ==>
          DemotedEntry(Look(before, id).value, Look(after, id)))
  }

  ghost predicate ReportedEntry(h: Hasher, before: seq<StateFinding>, f: Finding, after: seq<StateFinding>) {
    var had, e := Look(before, f.IdBy(h)), Look(after, f.IdBy(h));
    && e.Some?
    && e.value.file == f.file && e.value.startLine == f.startLine && e.value.endLine == f.endLine
    && e.value.title == f.title && e.value.defectKey == f.defectKey && e.value.category == f.category
    && e.value.severity == f.severity
    && (e.value.status.Live() ==> (e.value.posted <==> had.Some? && had.value.posted && had.value.status.Live()))
    && (e.value.posted ==> had.Some? && had.value.posted)
  }

  /** The entries that stay keep their order, and the new ones follow in the order of the report. */
  ghost predicate KeepsOrder(h: Hasher, before: seq<StateFinding>, final: seq<Finding>, after: seq<StateFinding>) {
    var stay := Without(before, DuplicateIds(h, final));
    Ids(after) == Ids(stay) + NewIds(h, stay, final, |final|)
  }

  method UpdateState(prep: Tracker, below: map<Id, Finding>, final: seq<Finding>) returns (next: Tracker)
    requires Consistent(prep.h, prep.findings) && DistinctIds(prep.h, final)
    requires KeyedUndropped(prep.h, below)
    ensures fresh(next) && next.h == prep.h && next.clip == prep.clip
    ensures Settled(prep.h, prep.findings, below.Keys, final, next.findings)
    ensures Detailed(prep.h, prep.findings, below.Keys, final, next.findings)
    ensures KeepsOrder(prep.h, prep.findings, final, next.findings)
  {
    var h := prep.h;
    var duplicates := DuplicateIds(h, final);
    WithoutKeepsConsistent(h, prep.findings, duplicates);
    next := new Tracker(h, prep.clip, Without(prep.findings, duplicates));
    ghost var base := next.findings;
    Demote(next, below);
    ghost var middle := next.findings;
    Record(next, final);
    SettledAfter(h, prep.findings, base, middle, next.findings, below.Keys, final);
    DetailedAfter(h, prep.findings, base, middle, next.findings, below.Keys, final);
    OrderAfter(h, prep.findings, base, middle, next.findings, final);
  }

  lemma {:induction false} SameNewIds(h: Hasher, base: seq<StateFinding>, middle: seq<StateFinding>,
                                      final: seq<Finding>, k: nat)
    requires k <= |final| && forall id :: Look(middle, id).None? <==> Look(base, id).None?
    ensures NewIds(h, middle, final, k) == NewIds(h, base, final, k)
  {
    if k > 0 { SameNewIds(h, base, middle, final, k - 1); }
  }

  lemma SameIdsSameLook(a: seq<StateFinding>, b: seq<StateFinding>, id: Id)
    requires Ids(a) == Ids(b)
    ensures Look(a, id).None? <==> Look(b, id).None?
  {
    var i, j := Position(a, id), Position(b, id);
    if i < |a| { assert Ids(a)[i] == Ids(b)[i]; }
    if j < |b| { assert Ids(a)[j] == Ids(b)[j]; }
  }

  lemma OrderAfter(h: Hasher, before: seq<StateFinding>, base: seq<StateFinding>, middle: seq<StateFinding>,
                   after: seq<StateFinding>, final: seq<Finding>)
    requires base == Without(before, DuplicateIds(h, final)) && Ids(middle) == Ids(base)
    requires InOrder(h, middle, after, final, |final|)
    ensures KeepsOrder(h, before, final, after)
  {
    forall id ensures Look(middle, id).None? <==> Look(base, id).None? { SameIdsSameLook(middle, base, id); }
    SameNewIds(h, base, middle, final, |final|);
  }

  lemma SettledAfter(h: Hasher, before: seq<StateFinding>, base: seq<StateFinding>, middle: seq<StateFinding>,
                     after: seq<StateFinding>, below: set<Id>, final: seq<Finding>)
    requires base == Without(before, DuplicateIds(h, final)) && DistinctIds(h, final)
    requires Demoted(base, middle, below) && Recorded(h, middle, after, final, |final|) && Consistent(h, after)
    ensures Settled(h, before, below, final, after)
  {
    forall k | 0 <= k < |final| && final[k].duplicateOf.Some? ensures Look(after, final[k].IdBy(h)).None? {
      var id := final[k].IdBy(h);
      assert final[k] in final && id in DuplicateIds(h, final);
      LookWithout(before, DuplicateIds(h, final), id);
      assert Unrecorded(h, final, |final|, id);
    }
    forall id | !HasId(h, final, id)
      ensures if id in below && Look(before, id).Some? then StatusOf(after, id) == Some(Unsure)
              else Look(after, id) == Look(before, id)
    {
      assert forall j :: 0 <= j < |final| ==> final[j].IdBy(h) != id;
      assert Unrecorded(h, final, |final|, id);
      assert id !in DuplicateIds(h, final);
      LookWithout(before, DuplicateIds(h, final), id);
    }
  }

  lemma KeptById(h: Hasher, before: seq<StateFinding>, final: seq<Finding>, id: Id)
    requires id !in DuplicateIds(h, final)
    ensures Look(Without(before, DuplicateIds(h, final)), id) == Look(before, id)
  {
    LookWithout(before, DuplicateIds(h, final), id);
  }

  lemma ReportedIsKept(h: Hasher, final: seq<Finding>, k: nat)
    requires DistinctIds(h, final) && k < |final| && final[k].duplicateOf.None?
    ensures final[k].IdBy(h) !in DuplicateIds(h, final)
  {
    forall f | f in final && f.duplicateOf.Some? ensures f.IdBy(h) != final[k].IdBy(h) {
      var j :| 0 <= j < |final| && final[j] == f;
      assert j < k || k < j;
    }
  }

  lemma EntryAfter(h: Hasher, before: seq<StateFinding>, base: seq<StateFinding>, middle: seq<StateFinding>,
                   after: seq<StateFinding>, below: set<Id>, f: Finding)
    requires Look(base, f.IdBy(h)) == Look(before, f.IdBy(h)) && Demoted(base, middle, below)
    requires Records(Look(middle, f.IdBy(h)), Look(after, f.IdBy(h)), f, StandingOf(f.verdict))
    ensures ReportedEntry(h, before, f, after)
  {
  }

  lemma DetailedAfter(h: Hasher, before: seq<StateFinding>, base: seq<StateFinding>, middle: seq<StateFinding>,
                      after: seq<StateFinding>, below: set<Id>, final: seq<Finding>)
    requires base == Without(before, DuplicateIds(h, final)) && DistinctIds(h, final)
    requires Demoted(base, middle, below) && Recorded(h, middle, after, final, |final|)
    ensures Detailed(h, before, below, final, after)
  {
    forall k: nat | k < |final| && final[k].duplicateOf.None? ensures ReportedEntry(h, before, final[k], after) {
      ReportedIsKept(h, final, k);
      KeptById(h, before, final, final[k].IdBy(h));
      EntryAfter(h, before, base, middle, after, below, final[k]);
    }
    forall id | !HasId(h, final, id) && id in below && Look(before, id).Some?
      ensures DemotedEntry(Look(before, id).value, Look(after, id))
    {
      NotReported(h, final, id);
      KeptById(h, before, final, id);
    }
  }

  lemma NotReported(h: Hasher, final: seq<Finding>, id: Id)
    requires !HasId(h, final, id)
    ensures id !in DuplicateIds(h, final) && Unrecorded(h, final, |final|, id)
  {
    forall f | f in final ensures f.IdBy(h) != id { MemberHasId(h, final, f); }
  }

  // ---- from candidates to reported findings ----

  function AtLeast(fs: seq<Finding>, min: Severity): seq<Finding> {
    Filter(fs, (f: Finding) => f.severity.Rank() >= min.Rank())
  }

  /** Accepted rechecks that were never posted come back into the run. */
  function Reentering(h: Hasher, tracked: seq<StateFinding>, rechecks: seq<Finding>): seq<Finding> {
    Filter(rechecks, (r: Finding) => r.verdict == Some(Accepted) && !HasPosted(tracked, r.IdBy(h)))
  }

  /** Candidates that are not already tracked, or are coming back. */
  function Untracked(h: Hasher, tracked: seq<StateFinding>, reentering: seq<Finding>, fs: seq<Finding>): seq<Finding> {
    Filter(fs, (f: Finding) => !IsTrackedOpen(tracked, f.IdBy(h)) || HasId(h, reentering, f.IdBy(h)))
  }

  ghost predicate NoneDuplicate(fs: seq<Finding>) {
    forall f <- fs :: f.duplicateOf == None
  }

  /** What the run has to report on before the severity threshold is applied again: the collapsed
      candidates at the threshold that are not tracked already, judged, and the rechecks that come
      back, one finding an id. */
  function Reviewed(h: Hasher, words: string -> seq<string>, min: Severity, tracked: seq<StateFinding>,
                    rechecks: seq<Finding>, candidates: seq<Finding>, judge: nat -> Session): seq<Finding> {
    var reentering := Reentering(h, tracked, rechecks);
    var kept := Untracked(h, tracked, reentering, AtLeast(Collapsed(words, candidates), min));
    Canonical(h, JudgedAll(kept, judge) + reentering)
  }

  /** What goes to the validator: the collapsed candidates that reach the threshold and are not tracked
      open, unless their recheck was accepted and they were never posted. */
  ghost predicate HandedOver(h: Hasher, words: string -> seq<string>, min: Severity, tracked: seq<StateFinding>,
                             rechecks: seq<Finding>, candidates: seq<Finding>, f: Finding) {
    && f in Collapsed(words, candidates) && f.severity.Rank() >= min.Rank()
    && (IsTrackedOpen(tracked, f.IdBy(h)) ==>
          exists r :: r in rechecks && ComesBack(h, tracked, r) && r.IdBy(h) == f.IdBy(h))
  }

  ghost predicate ComesBack(h: Hasher, tracked: seq<StateFinding>, r: Finding) {
    r.verdict == Some(Accepted) && !HasPosted(tracked, r.IdBy(h))
  }

  /** What a run has to report on is exactly what its validator made of those, and the accepted rechecks
      that were never posted, one finding an id. */
  lemma ReviewedFrom(h: Hasher, words: string -> seq<string>, min: Severity, tracked: seq<StateFinding>,
                     rechecks: seq<Finding>, candidates: seq<Finding>, judge: nat -> Session)
    returns (handed: seq<Finding>, judged: seq<Finding>, back: seq<Finding>)
    ensures forall f :: f in handed <==> HandedOver(h, words, min, tracked, rechecks, candidates, f)
    ensures |judged| == |handed| && forall k :: 0 <= k < |handed| ==> Judges(handed[k], judge(k), judged[k])
    ensures forall r :: r in back <==> r in rechecks && ComesBack(h, tracked, r)
    ensures Reviewed(h, words, min, tracked, rechecks, candidates, judge) == Canonical(h, judged + back)
  {
    back := Reentering(h, tracked, rechecks);
    handed := Untracked(h, tracked, back, AtLeast(Collapsed(words, candidates), min));
    judged := JudgedAll(handed, judge);
    forall f ensures f in handed <==> HandedOver(h, words, min, tracked, rechecks, candidates, f) {
      HasIdExactly(h, back, f.IdBy(h));
    }
  }

  /** Collapse, gate, validate, and merge with the rechecks that come back. */
  method Gather(h: Hasher, words: string -> seq<string>, min: Severity, tracked: seq<StateFinding>,
                rechecks: seq<Finding>, candidates: seq<Finding>, judge: nat -> Session) returns (all: seq<Finding>)
    requires NoneDuplicate(candidates) && NoneDuplicate(rechecks)
    ensures all == Reviewed(h, words, min, tracked, rechecks, candidates, judge)
    ensures DistinctIds(h, all) && NoneDuplicate(all)
    ensures forall r <- Reentering(h, tracked, rechecks) :: HasId(h, all, r.IdBy(h))
  {
    var collapsed := Collapse(words, candidates);
    var reentering := Reentering(h, tracked, rechecks);
    var validated, clean := Validate(Untracked(h, tracked, reentering, AtLeast(collapsed, min)), judge);
    all := Canonicalize(h, validated + reentering);
    ReviewedIs(h, words, min, tracked, rechecks, candidates, judge);
  }

  lemma ReviewedIs(h: Hasher, words: string -> seq<string>, min: Severity, tracked: seq<StateFinding>,
                   rechecks: seq<Finding>, candidates: seq<Finding>, judge: nat -> Session)
    requires NoneDuplicate(candidates) && NoneDuplicate(rechecks)
    ensures var all := Reviewed(h, words, min, tracked, rechecks, candidates, judge);
      && DistinctIds(h, all) && NoneDuplicate(all)
      && forall r <- Reentering(h, tracked, rechecks) :: HasId(h, all, r.IdBy(h))
  {
    var reentering := Reentering(h, tracked, rechecks);
    var kept := Untracked(h, tracked, reentering, AtLeast(Collapsed(words, candidates), min));
    var fs := JudgedAll(kept, judge) + reentering;
    CollapsedNoneDuplicate(words, candidates);
    assert NoneDuplicate(kept);
    JudgedNoneDuplicate(kept, judge);
    CanonicalIds(h, fs);
    CanonicalNoneDuplicate(h, fs);
    forall r | r in reentering ensures HasId(h, Canonical(h, fs), r.IdBy(h)) {
      MemberHasId(h, fs, r);
    }
  }

  lemma JudgedNoneDuplicate(fs: seq<Finding>, judge: nat -> Session)
    requires NoneDuplicate(fs)
    ensures NoneDuplicate(JudgedAll(fs, judge))
  {
    forall f | f in JudgedAll(fs, judge) ensures f.duplicateOf == None {
      var k: nat :| k < |fs| && JudgedAll(fs, judge)[k] == f;
      assert f == Judged(fs[k], judge(k)) && fs[k] in fs;
    }
  }

  lemma {:induction false} CollapsedNoneDuplicate(words: string -> seq<string>, cs: seq<Finding>)
    requires NoneDuplicate(cs)
    ensures NoneDuplicate(Collapsed(words, cs))
  {
    if cs != [] {
      var n := |cs| - 1;
      assert cs[n] in cs;
      CollapsedNoneDuplicate(words, cs[..n]);
      var out := Collapsed(words, cs[..n]);
      var i := DuplicateIn(words, out, WithSource(cs[n]));
      if i < |out| { assert out[i] in out; }
    }
  }

  lemma {:induction false} CanonicalNoneDuplicate(h: Hasher, fs: seq<Finding>)
    requires NoneDuplicate(fs)
    ensures NoneDuplicate(Canonical(h, fs))
  {
    if fs != [] {
      var n := |fs| - 1;
      assert fs[n] in fs;
      CanonicalNoneDuplicate(h, fs[..n]);
      var out := Canonical(h, fs[..n]);
      var i := Place(h, out, fs[n].IdBy(h));
      if i < |out| { assert out[i] in out; }
    }
  }

  predicate Fell(f: Finding, min: Severity) {
    f.severity.Rank() < min.Rank()
  }

  /** An accepted recheck with this id is below the threshold. */
  ghost predicate RecheckFell(h: Hasher, min: Severity, rechecks: seq<Finding>, id: Id) {
    exists r :: r in rechecks && r.severity.Rank() < min.Rank() && r.verdict == Some(Accepted) && r.IdBy(h) == id
  }

  /** A finding of this run with this id is below the threshold while the id is tracked open. */
  ghost predicate TrackedFell(h: Hasher, min: Severity, tracked: seq<StateFinding>, all: seq<Finding>, id: Id) {
    IsTrackedOpen(tracked, id) && exists f :: f in all && f.severity.Rank() < min.Rank() && f.IdBy(h) == id
  }

  predicate KeyedUndropped(h: Hasher, m: map<Id, Finding>) {
    forall id <- m :: m[id].IdBy(h) == id && m[id].duplicateOf == None
  }

  /** The accepted rechecks that fell below the threshold, by id. */
  function BelowRechecks(h: Hasher, min: Severity, rechecks: seq<Finding>): (m: map<Id, Finding>)
    requires NoneDuplicate(rechecks)
    ensures KeyedUndropped(h, m)
    ensures forall id :: id in m <==> RecheckFell(h, min, rechecks, id)
  {
    if rechecks == [] then map[]
    else
      var n := |rechecks| - 1;
      var m := BelowRechecks(h, min, rechecks[..n]);
      var r := rechecks[n];
      assert forall x :: x in rechecks <==> x in rechecks[..n] || x == r;
      if Fell(r, min) && r.verdict == Some(Accepted) then m[r.IdBy(h) := r] else m
  }

  /** With them, this run's findings that fell below it while their id is tracked open. */
  function BelowFindings(h: Hasher, min: Severity, tracked: seq<StateFinding>, all: seq<Finding>,
                         m: map<Id, Finding>): (r: map<Id, Finding>)
    requires NoneDuplicate(all) && KeyedUndropped(h, m)
    ensures KeyedUndropped(h, r)
    ensures forall id :: id in r <==> id in m || TrackedFell(h, min, tracked, all, id)
  {
    if all == [] then m
    else
      var n := |all| - 1;
      var r := BelowFindings(h, min, tracked, all[..n], m);
      var f := all[n];
      assert forall x :: x in all <==> x in all[..n] || x == f;
      if Fell(f, min) && IsTrackedOpen(tracked, f.IdBy(h)) then r[f.IdBy(h) := f] else r
  }

  // ---- the report ----

  /** The same findings in the same order, but for evidence and duplicate marks on publishable ones. */
  ghost predicate OnlyMarked(before: seq<Finding>, after: seq<Finding>) {
    && |after| == |before|
    && forall k :: 0 <= k < |before| ==>
      && after[k] == before[k].(evidence := after[k].evidence, duplicateOf := after[k].duplicateOf)
      && (after[k].duplicateOf != before[k].duplicateOf ==> before[k].Publishable())
  }

  ghost predicate AsJudged(h: Hasher, before: seq<Finding>, carried: seq<Id>, answer: Option<seq<Dedup.Group>>,
                           after: seq<Finding>) {
    if answer.Some? && Dedup.GroupsOk(before, carried, answer.value)
    then Dedup.Applied(h, carried, before, after, answer.value) else after == before
  }

  /** The optional duplicate judgment; a failed judge (None) or bad groups change nothing. */
  method JudgeDuplicates(h: Hasher, findings: seq<Finding>, carried: seq<Id>, answer: Option<seq<Dedup.Group>>)
    returns (r: seq<Finding>)
    requires NoneDuplicate(findings)
    ensures OnlyMarked(findings, r)
    ensures AsJudged(h, findings, carried, answer, r)
    ensures forall i: nat :: i < |r| && r[i].duplicateOf.Some? ==>
      r[i].duplicateOf.value in carried || Dedup.StaysUnder(h, r, r[i].duplicateOf.value, i)
  {
    if answer.None? {
      return findings;
    }
    var a := new Finding[|findings|](k requires 0 <= k < |findings| => findings[k]);
    assert a[..] == findings;
    var count := Dedup.Apply(h, a, carried, answer.value);
    r := a[..];
    if count.Some? {
      AppliedOnlyMarks(h, carried, findings, r, answer.value);
      forall i: nat | i < |r| && r[i].duplicateOf.Some?
        ensures r[i].duplicateOf.value in carried || Dedup.StaysUnder(h, r, r[i].duplicateOf.value, i)
      {
        assert findings[i] in findings;
        Dedup.DuplicateTargets(h, carried, findings, r, answer.value, i);
      }
    }
  }

  lemma AppliedOnlyMarks(h: Hasher, carried: seq<Id>, before: seq<Finding>, after: seq<Finding>,
                         groups: seq<Dedup.Group>)
    requires Dedup.Applied(h, carried, before, after, groups)
    ensures OnlyMarked(before, after)
  {
    forall i: nat | i < |before|
      ensures after[i] == before[i].(evidence := after[i].evidence, duplicateOf := after[i].duplicateOf)
      ensures after[i].duplicateOf != before[i].duplicateOf ==> before[i].Publishable()
    {
      if !Dedup.Outside(groups, i) {
        var g :| g in groups && Dedup.New(i) in g;
        var k :| 0 <= k < |groups| && groups[k] == g;
        assert Dedup.AllKnown(before, carried, groups[k]);
        assert Dedup.Known(before, carried, Dedup.New(i));
      }
    }
  }

  /** Publishable findings first, with an end line only where it is a valid range; then the rest. */
  function Report(fs: seq<Finding>, validEnd: Finding -> bool): seq<Finding> {
    Anchored(Filter(fs, (f: Finding) => f.Publishable()), validEnd) + Filter(fs, (f: Finding) => !f.Publishable())
  }

  function Anchored(fs: seq<Finding>, validEnd: Finding -> bool): (r: seq<Finding>)
    ensures |r| == |fs|
    ensures forall k :: 0 <= k < |fs| ==> r[k] == fs[k].(endLine := r[k].endLine)
  {
    seq(|fs|, k requires 0 <= k < |fs| => if validEnd(fs[k]) then fs[k] else fs[k].(endLine := None))
  }

  /** The publishable findings come first, in their order, each with its end line only if that is valid;
      the others follow in their order, as they are. */
  lemma ReportOrder(fs: seq<Finding>, validEnd: Finding -> bool, k: nat)
    requires k < |fs|
    ensures var final, published := Report(fs, validEnd), |Filter(fs, (f: Finding) => f.Publishable())|;
      var before := |Filter(fs[..k], (f: Finding) => f.Publishable())|;
      if fs[k].Publishable() then
        before < published <= |final| && final[before] == fs[k].(endLine := if validEnd(fs[k]) then fs[k].endLine else None)
      else
        published + (k - before) < |final| && final[published + (k - before)] == fs[k]
  {
    var p, q := (f: Finding) => f.Publishable(), (f: Finding) => !f.Publishable();
    FiltersAddUp(fs[..k]);
    if fs[k].Publishable() { FilterAt(fs, p, k); } else { FilterAt(fs, q, k); }
  }

  lemma {:induction false} FiltersAddUp(fs: seq<Finding>)
    ensures |Filter(fs, (f: Finding) => f.Publishable())| + |Filter(fs, (f: Finding) => !f.Publishable())| == |fs|
  {
    if fs != [] { FiltersAddUp(fs[1..]); }
  }

  lemma ReportIsDistinct(h: Hasher, fs: seq<Finding>, validEnd: Finding -> bool)
    requires DistinctIds(h, fs)
    ensures DistinctIds(h, Report(fs, validEnd))
  {
    var a, b := Filter(fs, (f: Finding) => f.Publishable()), Filter(fs, (f: Finding) => !f.Publishable());
    FilterKeepsDistinct(h, fs, (f: Finding) => f.Publishable());
    FilterKeepsDistinct(h, fs, (f: Finding) => !f.Publishable());
    forall j, k | 0 <= j < |a| && 0 <= k < |b| ensures a[j].IdBy(h) != b[k].IdBy(h) {
      assert a[j] in a && b[k] in b;
      DifferentIds(h, fs, a[j], b[k]);
    }
  }

  /** `r` is `f` but for the end line. */
  predicate SameButEnd(r: Finding, f: Finding) {
    r == f.(endLine := r.endLine)
  }

  lemma ReportHas(fs: seq<Finding>, validEnd: Finding -> bool, f: Finding) returns (r: Finding)
    requires f in fs
    ensures r in Report(fs, validEnd) && SameButEnd(r, f)
  {
    var a := Filter(fs, (f: Finding) => f.Publishable());
    if f in a {
      var k :| 0 <= k < |a| && a[k] == f;
      r := Anchored(a, validEnd)[k];
      assert Report(fs, validEnd)[k] == r;
    } else {
      r := f;
      assert r in Filter(fs, (f: Finding) => !f.Publishable());
    }
  }

  lemma ReportFrom(fs: seq<Finding>, validEnd: Finding -> bool, r: Finding) returns (f: Finding)
    requires r in Report(fs, validEnd)
    ensures f in fs && SameButEnd(r, f)
  {
    var a := Filter(fs, (f: Finding) => f.Publishable());
    var anchored := Anchored(a, validEnd);
    if r in anchored {
      var k :| 0 <= k < |anchored| && anchored[k] == r;
      f := a[k];
      assert f in a;
    } else {
      f := r;
      assert f in Filter(fs, (f: Finding) => !f.Publishable());
    }
  }

  lemma DifferentIds(h: Hasher, fs: seq<Finding>, f: Finding, g: Finding)
    requires DistinctIds(h, fs) && f in fs && g in fs && f != g
    ensures f.IdBy(h) != g.IdBy(h)
  {
    var j :| 0 <= j < |fs| && fs[j] == f;
    var k :| 0 <= k < |fs| && fs[k] == g;
    assert j < k || k < j;
  }

  // ---- the run as a whole ----

  /** Open, already posted findings that this run does not report itself. */
  function Carried(h: Hasher, tracked: seq<StateFinding>, findings: seq<Finding>): seq<StateFinding> {
    Filter(tracked, (s: StateFinding) => s.status == Open && s.posted && !HasId(h, findings, s.id))
  }

  ghost predicate CarriedId(h: Hasher, tracked: seq<StateFinding>, findings: seq<Finding>, id: Id) {
    exists s :: s in Carried(h, tracked, findings) && s.id == id
  }

  /** The ids the duplicate judge may refer to besides the new findings. */
  function CarriedIds(h: Hasher, tracked: seq<StateFinding>, findings: seq<Finding>): (ids: seq<Id>)
    ensures forall d :: d in ids <==> CarriedId(h, tracked, findings, d)
  {
    var posted := Carried(h, tracked, findings);
    var ids := seq(|posted|, k requires 0 <= k < |posted| => posted[k].id);
    assert forall k :: 0 <= k < |posted| ==> posted[k] in posted && ids[k] in ids;
    ids
  }

  /** They come in the order of the state. */
  lemma CarriedInOrder(h: Hasher, tracked: seq<StateFinding>, findings: seq<Finding>, i: nat, j: nat)
      returns (a: nat, b: nat)
    requires i < j < |CarriedIds(h, tracked, findings)|
    ensures a < b < |tracked|
    ensures CarriedIds(h, tracked, findings)[i] == tracked[a].id && CarriedIds(h, tracked, findings)[j] == tracked[b].id
  {
    a, b := FilterInOrder(tracked, (s: StateFinding) => s.status == Open && s.posted && !HasId(h, findings, s.id), i, j);
  }

  lemma CarriedIs(h: Hasher, tracked: seq<StateFinding>, findings: seq<Finding>, id: Id)
    requires UniqueIds(tracked)
    ensures CarriedId(h, tracked, findings, id) <==>
      !HasId(h, findings, id) && StatusOf(tracked, id) == Some(Open) && Look(tracked, id).value.posted
  {
    if CarriedId(h, tracked, findings, id) {
      var s :| s in Carried(h, tracked, findings) && s.id == id;
      FoundIs(tracked, s);
    }
    var e := Look(tracked, id);
    if e.Some? { assert e.value in tracked; }
  }

  /** The open ids are exactly the publishable findings of the report and the carried ones. */
  ghost predicate Accounts(h: Hasher, tracked: seq<StateFinding>, final: seq<Finding>) {
    forall id :: StatusOf(tracked, id) == Some(Open) <==> PublishableId(h, final, id) || CarriedId(h, tracked, final, id)
  }

  /** A finding that came back is in the report, or fell below the threshold. */
  ghost predicate NoneLost(h: Hasher, tracked: seq<StateFinding>, rechecks: seq<Finding>, below: set<Id>,
                           final: seq<Finding>) {
    forall r <- Reentering(h, tracked, rechecks) ::
      IsTrackedOpen(tracked, r.IdBy(h)) ==> HasId(h, final, r.IdBy(h)) || r.IdBy(h) in below
  }

  lemma PublishableAt(h: Hasher, final: seq<Finding>, id: Id)
    requires DistinctIds(h, final)
    ensures PublishableId(h, final, id) <==> HasId(h, final, id) && final[Place(h, final, id)].Publishable()
  {
    if PublishableId(h, final, id) {
      var k :| 0 <= k < |final| && final[k].Publishable() && final[k].IdBy(h) == id;
      PlaceOf(h, final, k);
    }
  }

  lemma OpenElsewhere(h: Hasher, tracked: seq<StateFinding>, rechecks: seq<Finding>, below: set<Id>,
                      final: seq<Finding>, id: Id)
    requires Consistent(h, tracked) && OpenMeansAccepted(h, tracked, rechecks)
    requires NoneLost(h, tracked, rechecks, below, final)
    requires !HasId(h, final, id) && id !in below && StatusOf(tracked, id) == Some(Open)
    ensures Look(tracked, id).value.posted
  {
    var s := Look(tracked, id).value;
    assert s in tracked;
    var k :| 0 <= k < |rechecks| && rechecks[k].verdict == Some(Accepted) && rechecks[k].IdBy(h) == id;
    var r := rechecks[k];
    assert r in rechecks;
    assert HasPosted(tracked, id) || r in Reentering(h, tracked, rechecks);
    var t :| t in tracked && t.id == id && t.posted && t.status.Live();
    FoundIs(tracked, t);
  }

  /** The accounting identity of a run. */
  lemma SettledAccounts(h: Hasher, tracked: seq<StateFinding>, rechecks: seq<Finding>, below: set<Id>,
                        final: seq<Finding>, after: seq<StateFinding>)
    requires Consistent(h, tracked) && OpenMeansAccepted(h, tracked, rechecks)
    requires DistinctIds(h, final) && NoneLost(h, tracked, rechecks, below, final)
    requires Settled(h, tracked, below, final, after)
    ensures Accounts(h, after, final)
  {
    forall id ensures StatusOf(after, id) == Some(Open) <==> PublishableId(h, final, id) || CarriedId(h, after, final, id) {
      PublishableAt(h, final, id);
      CarriedIs(h, after, final, id);
      if HasId(h, final, id) {
        assert final[Place(h, final, id)].IdBy(h) == id;
      } else if StatusOf(after, id) == Some(Open) {
        OpenElsewhere(h, tracked, rechecks, below, final, id);
      }
    }
  }

  /** Pruning keeps the identity when nothing live is lost. */
  lemma PrunedAccounts(h: Hasher, after: seq<StateFinding>, final: seq<Finding>)
    requires Consistent(h, after) && Accounts(h, after, final) && |LiveOnly(after)| <= MAX_STATE_FINDINGS
    ensures Accounts(h, Pruned(after), final)
  {
    PrunedKeepsConsistent(h, after);
    forall id ensures StatusOf(Pruned(after), id) == Some(Open) <==>
      PublishableId(h, final, id) || CarriedId(h, Pruned(after), final, id)
    {
      LookPruned(h, after, id);
      CarriedIs(h, after, final, id);
      CarriedIs(h, Pruned(after), final, id);
    }
  }

  /** Every duplicate in the report refers to a finding the run publishes or to one that was carried
      when the judge was asked. */
  ghost predicate DuplicatesRefer(h: Hasher, carriedIds: seq<Id>, final: seq<Finding>) {
    forall f <- final :: f.duplicateOf.Some? ==>
      PublishableId(h, final, f.duplicateOf.value) || f.duplicateOf.value in carriedIds
  }

  /** An id that was carried when the judge was asked is carried in the report exactly when no accepted
      recheck of it is below the threshold and pruning keeps it. */
  ghost predicate CarriedExactly(h: Hasher, min: Severity, rechecks: seq<Finding>, carriedIds: seq<Id>,
                                 unpruned: seq<StateFinding>, final: seq<Finding>) {
    forall d <- carriedIds ::
      CarriedId(h, Pruned(unpruned), final, d) <==> !RecheckFell(h, min, rechecks, d) && PruneKeeps(unpruned, d)
  }

  /** A posted id that is tracked open is never reviewed again: its candidates are filtered out and its
      recheck does not come back. */
  lemma PostedNotReviewed(h: Hasher, words: string -> seq<string>, min: Severity, tracked: seq<StateFinding>,
                          rechecks: seq<Finding>, candidates: seq<Finding>, judge: nat -> Session, id: Id)
    requires HasPosted(tracked, id)
    ensures !HasId(h, Reviewed(h, words, min, tracked, rechecks, candidates, judge), id)
  {
    var reentering := Reentering(h, tracked, rechecks);
    var kept := Untracked(h, tracked, reentering, AtLeast(Collapsed(words, candidates), min));
    PostedNotReentering(h, tracked, rechecks, id);
    PostedNotUntracked(h, tracked, reentering, AtLeast(Collapsed(words, candidates), min), id);
    JudgedKeepsIds(h, kept, judge, id);
    AppendIds(h, JudgedAll(kept, judge), reentering, id);
    CanonicalIds(h, JudgedAll(kept, judge) + reentering);
  }

  lemma PostedNotReentering(h: Hasher, tracked: seq<StateFinding>, rechecks: seq<Finding>, id: Id)
    requires HasPosted(tracked, id)
    ensures !HasId(h, Reentering(h, tracked, rechecks), id)
  {
    HasIdExactly(h, Reentering(h, tracked, rechecks), id);
  }

  lemma PostedNotUntracked(h: Hasher, tracked: seq<StateFinding>, reentering: seq<Finding>, fs: seq<Finding>, id: Id)
    requires IsTrackedOpen(tracked, id) && !HasId(h, reentering, id)
    ensures !HasId(h, Untracked(h, tracked, reentering, fs), id)
  {
    HasIdExactly(h, Untracked(h, tracked, reentering, fs), id);
  }

  lemma JudgedKeepsIds(h: Hasher, fs: seq<Finding>, judge: nat -> Session, id: Id)
    ensures HasId(h, JudgedAll(fs, judge), id) <==> HasId(h, fs, id)
  {
    forall k: nat | k < |fs| ensures JudgedAll(fs, judge)[k].IdBy(h) == fs[k].IdBy(h) {
      assert JudgedAll(fs, judge)[k] == Judged(fs[k], judge(k));
    }
    SameIdsSamePlaces(h, JudgedAll(fs, judge), fs);
  }

  lemma AppendIds(h: Hasher, a: seq<Finding>, b: seq<Finding>, id: Id)
    ensures HasId(h, a + b, id) <==> HasId(h, a, id) || HasId(h, b, id)
  {
    HasIdExactly(h, a + b, id);
    HasIdExactly(h, a, id);
    HasIdExactly(h, b, id);
    assert forall f :: f in a + b <==> f in a || f in b;
  }

  lemma CarriedIsPosted(h: Hasher, tracked: seq<StateFinding>, findings: seq<Finding>, d: Id)
    requires CarriedId(h, tracked, findings, d)
    ensures HasPosted(tracked, d) && !HasId(h, findings, d)
  {
    var s :| s in Carried(h, tracked, findings) && s.id == d;
    assert s in tracked;
  }

  /** What became of a carried id that this run does not report. */
  lemma CarriedSurvives(h: Hasher, min: Severity, tracked: seq<StateFinding>, rechecks: seq<Finding>,
                        findings: seq<Finding>, below: set<Id>, final: seq<Finding>, unpruned: seq<StateFinding>, d: Id)
    requires Consistent(h, tracked) && CarriedId(h, tracked, findings, d) && !HasId(h, final, d)
    requires Settled(h, tracked, below, final, unpruned)
    requires d in below <==> RecheckFell(h, min, rechecks, d)
    ensures CarriedId(h, Pruned(unpruned), final, d) <==> !RecheckFell(h, min, rechecks, d) && PruneKeeps(unpruned, d)
  {
    CarriedIs(h, tracked, findings, d);
    PrunedKeepsConsistent(h, unpruned);
    CarriedIs(h, Pruned(unpruned), final, d);
    PruneKeepsExactly(h, unpruned, d);
    var e := Look(Pruned(unpruned), d);
    if e.Some? {
      assert e.value in Pruned(unpruned);
      FoundIs(unpruned, e.value);
    }
  }

  /** When the target did fall below it, the new finding is gone: its target is no longer open and
      it is not tracked itself. */
  lemma DuplicateOfDemoted(h: Hasher, tracked: seq<StateFinding>, below: set<Id>, final: seq<Finding>,
                           after: seq<StateFinding>, f: Finding, d: Id)
    requires Settled(h, tracked, below, final, after) && f in final && f.duplicateOf == Some(d)
    requires d in below && Look(tracked, d).Some? && !HasId(h, final, d)
    ensures !PublishableId(h, final, d) && !CarriedId(h, after, final, d)
    ensures StatusOf(after, d) == Some(Unsure) && StatusOf(after, f.IdBy(h)) == None
  {
    CarriedIs(h, after, final, d);
    assert forall k :: 0 <= k < |final| ==> final[k].IdBy(h) != d;
  }

  /** The first half of a run's end: what there is to report, what fell below the threshold, and the
      duplicate judgment. */
  method Assemble(h: Hasher, words: string -> seq<string>, min: Severity, tracked: seq<StateFinding>,
                  rechecks: seq<Finding>,
                  candidates: seq<Finding>, judge: nat -> Session, answer: Option<seq<Dedup.Group>>,
                  validEnd: Finding -> bool)
    returns (marked: seq<Finding>, below: map<Id, Finding>, ghost all: seq<Finding>)
    requires NoneDuplicate(candidates) && NoneDuplicate(rechecks)
    ensures all == Reviewed(h, words, min, tracked, rechecks, candidates, judge)
    ensures OnlyMarked(AtLeast(all, min), marked)
    ensures AsJudged(h, AtLeast(all, min), CarriedIds(h, tracked, AtLeast(all, min)), answer, marked)
    ensures forall i: nat :: i < |marked| && marked[i].duplicateOf.Some? ==>
      marked[i].duplicateOf.value in CarriedIds(h, tracked, AtLeast(all, min))
      || Dedup.StaysUnder(h, marked, marked[i].duplicateOf.value, i)
    ensures KeyedUndropped(h, below)
    ensures forall id :: id in below <==> RecheckFell(h, min, rechecks, id) || TrackedFell(h, min, tracked, all, id)
    ensures DistinctIds(h, Report(marked, validEnd))
    ensures NoneLost(h, tracked, rechecks, below.Keys, Report(marked, validEnd))
  {
    var found := Gather(h, words, min, tracked, rechecks, candidates, judge);
    all := found;
    below := BelowFindings(h, min, tracked, found, BelowRechecks(h, min, rechecks));
    var kept := AtLeast(found, min);
    marked := JudgeDuplicates(h, kept, CarriedIds(h, tracked, kept), answer);
    ReportedNoneLost(h, min, tracked, rechecks, all, marked, below.Keys, validEnd);
  }

  /** The end of a run, from the candidates to the report and the new state. */
  method Finish(words: string -> seq<string>, min: Severity, prep: Tracker, rechecks: seq<Finding>,
                candidates: seq<Finding>, judge: nat -> Session, answer: Option<seq<Dedup.Group>>,
                validEnd: Finding -> bool)
    returns (final: seq<Finding>, next: Tracker, carried: seq<StateFinding>,
             ghost unpruned: seq<StateFinding>, ghost below: set<Id>, ghost all: seq<Finding>,
             ghost marked: seq<Finding>)
    requires Consistent(prep.h, prep.findings) && OpenMeansAccepted(prep.h, prep.findings, rechecks)
    requires NoneDuplicate(candidates) && NoneDuplicate(rechecks)
    ensures fresh(next) && next.h == prep.h
    ensures Consistent(prep.h, next.findings) && DistinctIds(prep.h, final)
    ensures all == Reviewed(prep.h, words, min, prep.findings, rechecks, candidates, judge)
    ensures OnlyMarked(AtLeast(all, min), marked)
    ensures AsJudged(prep.h, AtLeast(all, min), CarriedIds(prep.h, prep.findings, AtLeast(all, min)), answer, marked)
    ensures final == Report(marked, validEnd)
    ensures forall id :: id in below <==>
      RecheckFell(prep.h, min, rechecks, id) || TrackedFell(prep.h, min, prep.findings, all, id)
    ensures next.findings == Pruned(unpruned) && carried == Carried(prep.h, next.findings, final)
    ensures Settled(prep.h, prep.findings, below, final, unpruned) && KeepsOrder(prep.h, prep.findings, final, unpruned)
    ensures Detailed(prep.h, prep.findings, below, final, unpruned)
    ensures Accounts(prep.h, unpruned, final)
    ensures |LiveOnly(unpruned)| <= MAX_STATE_FINDINGS ==> Accounts(prep.h, next.findings, final)
    ensures forall f <- final :: f.severity.Rank() >= min.Rank()
    ensures forall id :: HasId(prep.h, final, id) <==>
      exists f :: f in all && f.IdBy(prep.h) == id && f.severity.Rank() >= min.Rank()
    ensures DuplicatesRefer(prep.h, CarriedIds(prep.h, prep.findings, AtLeast(all, min)), final)
    ensures CarriedExactly(prep.h, min, rechecks, CarriedIds(prep.h, prep.findings, AtLeast(all, min)), unpruned, final)
  {
    var h := prep.h;
    var left, belowMap, found := Assemble(h, words, min, prep.findings, rechecks, candidates, judge, answer, validEnd);
    all, marked, below := found, left, belowMap.Keys;
    final := Report(left, validEnd);
    next := UpdateState(prep, belowMap, final);
    unpruned := next.findings;
    SettledAccounts(h, prep.findings, rechecks, below, final, unpruned);
    TargetsRefer(h, CarriedIds(h, prep.findings, AtLeast(all, min)), marked, validEnd);
    ReportReaches(h, min, all, marked, validEnd);
    AllCarriedSurvive(h, words, min, prep.findings, rechecks, candidates, judge, below, marked, validEnd, unpruned);
    AfterPruning(h, unpruned, final);
    next.Prune();
    carried := Carried(h, next.findings, final);
  }

  /** The report has exactly the findings that reach the threshold. */
  lemma ReportReaches(h: Hasher, min: Severity, all: seq<Finding>, marked: seq<Finding>, validEnd: Finding -> bool)
    requires OnlyMarked(AtLeast(all, min), marked)
    ensures forall f <- Report(marked, validEnd) :: f.severity.Rank() >= min.Rank()
    ensures forall id :: HasId(h, Report(marked, validEnd), id) <==>
      exists f :: f in all && f.IdBy(h) == id && f.severity.Rank() >= min.Rank()
  {
    var final, kept := Report(marked, validEnd), AtLeast(all, min);
    forall f | f in final ensures f.severity.Rank() >= min.Rank() {
      var m := ReportFrom(marked, validEnd, f);
      var k :| 0 <= k < |marked| && marked[k] == m;
      assert kept[k] in kept;
    }
    forall id ensures HasId(h, final, id) <==> exists f :: f in all && f.IdBy(h) == id && f.severity.Rank() >= min.Rank() {
      ReportedIds(h, marked, validEnd, id);
      SameIds(h, kept, marked, id);
      HasIdExactly(h, kept, id);
    }
  }

  lemma SameIds(h: Hasher, a: seq<Finding>, b: seq<Finding>, id: Id)
    requires OnlyMarked(a, b)
    ensures HasId(h, a, id) <==> HasId(h, b, id)
  {
    SameIdsSamePlaces(h, a, b);
  }

  lemma AfterPruning(h: Hasher, unpruned: seq<StateFinding>, final: seq<Finding>)
    requires Consistent(h, unpruned) && Accounts(h, unpruned, final)
    ensures Consistent(h, Pruned(unpruned))
    ensures |LiveOnly(unpruned)| <= MAX_STATE_FINDINGS ==> Accounts(h, Pruned(unpruned), final)
  {
    PrunedKeepsConsistent(h, unpruned);
    if |LiveOnly(unpruned)| <= MAX_STATE_FINDINGS { PrunedAccounts(h, unpruned, final); }
  }

  /** The report has a finding for exactly the ids the judgment left, whatever became of them. */
  lemma ReportedIds(h: Hasher, marked: seq<Finding>, validEnd: Finding -> bool, id: Id)
    ensures HasId(h, Report(marked, validEnd), id) <==> HasId(h, marked, id)
    ensures PublishableId(h, Report(marked, validEnd), id) <==> PublishableId(h, marked, id)
  {
    var final := Report(marked, validEnd);
    if HasId(h, final, id) {
      assert final[Place(h, final, id)] in final;
      var f := ReportFrom(marked, validEnd, final[Place(h, final, id)]);
      MemberHasId(h, marked, f);
    }
    if HasId(h, marked, id) {
      assert marked[Place(h, marked, id)] in marked;
      var r := ReportHas(marked, validEnd, marked[Place(h, marked, id)]);
      MemberHasId(h, final, r);
    }
    if PublishableId(h, final, id) {
      var k :| 0 <= k < |final| && final[k].Publishable() && final[k].IdBy(h) == id;
      assert final[k] in final;
      var f := ReportFrom(marked, validEnd, final[k]);
      var j :| 0 <= j < |marked| && marked[j] == f;
      assert marked[j].Publishable() && marked[j].IdBy(h) == id;
    }
    if PublishableId(h, marked, id) {
      var k :| 0 <= k < |marked| && marked[k].Publishable() && marked[k].IdBy(h) == id;
      assert marked[k] in marked;
      var r := ReportHas(marked, validEnd, marked[k]);
      var j :| 0 <= j < |final| && final[j] == r;
      assert final[j].Publishable() && final[j].IdBy(h) == id;
    }
  }

  lemma SameIdsReported(h: Hasher, kept: seq<Finding>, marked: seq<Finding>, validEnd: Finding -> bool, id: Id)
    requires OnlyMarked(kept, marked)
    ensures HasId(h, Report(marked, validEnd), id) ==> HasId(h, kept, id)
  {
    var final := Report(marked, validEnd);
    if HasId(h, final, id) {
      var r := final[Place(h, final, id)];
      assert r in final;
      var f := ReportFrom(marked, validEnd, r);
      var k :| 0 <= k < |marked| && marked[k] == f;
      assert kept[k] in kept;
      MemberHasId(h, kept, kept[k]);
    }
  }

  lemma TargetsRefer(h: Hasher, ids: seq<Id>, marked: seq<Finding>, validEnd: Finding -> bool)
    requires forall i: nat :: i < |marked| && marked[i].duplicateOf.Some? ==>
      marked[i].duplicateOf.value in ids || Dedup.StaysUnder(h, marked, marked[i].duplicateOf.value, i)
    ensures DuplicatesRefer(h, ids, Report(marked, validEnd))
  {
    var final := Report(marked, validEnd);
    forall f | f in final && f.duplicateOf.Some?
      ensures PublishableId(h, final, f.duplicateOf.value) || f.duplicateOf.value in ids
    {
      var d := f.duplicateOf.value;
      var m := ReportFrom(marked, validEnd, f);
      var i :| 0 <= i < |marked| && marked[i] == m;
      if Dedup.StaysUnder(h, marked, d, i) {
        var w: nat :| w < |marked| && w != i && marked[w].Publishable() && marked[w].IdBy(h) == d;
        assert PublishableId(h, marked, d);
        ReportedIds(h, marked, validEnd, d);
      }
    }
  }

  lemma AllCarriedSurvive(h: Hasher, words: string -> seq<string>, min: Severity, tracked: seq<StateFinding>,
                          rechecks: seq<Finding>, candidates: seq<Finding>, judge: nat -> Session, below: set<Id>,
                          marked: seq<Finding>, validEnd: Finding -> bool, unpruned: seq<StateFinding>)
    requires var all := Reviewed(h, words, min, tracked, rechecks, candidates, judge);
      && OnlyMarked(AtLeast(all, min), marked)
      && forall id :: id in below <==> RecheckFell(h, min, rechecks, id) || TrackedFell(h, min, tracked, all, id)
    requires Consistent(h, tracked) && Settled(h, tracked, below, Report(marked, validEnd), unpruned)
    ensures var kept := AtLeast(Reviewed(h, words, min, tracked, rechecks, candidates, judge), min);
      CarriedExactly(h, min, rechecks, CarriedIds(h, tracked, kept), unpruned, Report(marked, validEnd))
  {
    var all := Reviewed(h, words, min, tracked, rechecks, candidates, judge);
    var kept := AtLeast(all, min);
    forall d | d in CarriedIds(h, tracked, kept)
      ensures CarriedId(h, Pruned(unpruned), Report(marked, validEnd), d)
        <==> !RecheckFell(h, min, rechecks, d) && PruneKeeps(unpruned, d)
    {
      CarriedIsPosted(h, tracked, kept, d);
      PostedNotReviewed(h, words, min, tracked, rechecks, candidates, judge, d);
      NotTrackedFell(h, min, tracked, all, d);
      SameIdsReported(h, kept, marked, validEnd, d);
      CarriedSurvives(h, min, tracked, rechecks, kept, below, Report(marked, validEnd), unpruned, d);
    }
  }

  lemma NotTrackedFell(h: Hasher, min: Severity, tracked: seq<StateFinding>, all: seq<Finding>, d: Id)
    requires !HasId(h, all, d)
    ensures !TrackedFell(h, min, tracked, all, d)
  {
    HasIdExactly(h, all, d);
  }

  lemma ReportedNoneLost(h: Hasher, min: Severity, tracked: seq<StateFinding>, rechecks: seq<Finding>,
                         all: seq<Finding>, marked: seq<Finding>, below: set<Id>, validEnd: Finding -> bool)
    requires DistinctIds(h, all) && OnlyMarked(AtLeast(all, min), marked)
    requires forall r <- Reentering(h, tracked, rechecks) :: HasId(h, all, r.IdBy(h))
    requires forall f <- all :: Fell(f, min) && IsTrackedOpen(tracked, f.IdBy(h)) ==> f.IdBy(h) in below
    ensures DistinctIds(h, Report(marked, validEnd))
    ensures NoneLost(h, tracked, rechecks, below, Report(marked, validEnd))
  {
    var kept := AtLeast(all, min);
    FilterKeepsDistinct(h, all, (f: Finding) => f.severity.Rank() >= min.Rank());
    assert DistinctIds(h, marked);
    ReportIsDistinct(h, marked, validEnd);
    forall r | r in Reentering(h, tracked, rechecks) && IsTrackedOpen(tracked, r.IdBy(h))
      ensures HasId(h, Report(marked, validEnd), r.IdBy(h)) || r.IdBy(h) in below
    {
      var f := all[Place(h, all, r.IdBy(h))];
      assert f in all;
      if !Fell(f, min) {
        assert f in kept;
        var k :| 0 <= k < |kept| && kept[k] == f;
        assert marked[k] in marked;
        var x := ReportHas(marked, validEnd, marked[k]);
        MemberHasId(h, Report(marked, validEnd), x);
      }
    }
  }
}
