/** The findings tracked across runs (src/state.rs). */
module ReviewState {
  import opened Wrappers
  import opened EvidenceRefs
  import opened Findings
  import Decimal

  const MAX_STATE_FINDINGS: nat := 200
  const MAX_EVIDENCE: nat := 6

  /** `Unsure` and `Dismissed` are the source's `Uncertain` and `Rejected`. */
  datatype Standing = Open | Unsure | Resolved | Dismissed {
    predicate Live() { Open? || Unsure? }
  }

  datatype StateFinding = StateFinding(id: Id, status: Standing, posted: bool, file: string, startLine: nat,
                                       endLine: Option<nat>, title: string, defectKey: string, category: string,
                                       severity: Severity, claim: string, evidence: seq<string>)

  function FromFinding(h: Hasher, clip: string -> string, f: Finding, status: Standing): StateFinding {
    var kept := f.evidence[..if |f.evidence| < MAX_EVIDENCE then |f.evidence| else MAX_EVIDENCE];
    StateFinding(f.IdBy(h), status, false, f.file, f.startLine, f.endLine, f.title, f.defectKey, f.category,
                 f.severity, clip(f.claim), seq(|kept|, k requires 0 <= k < |kept| => PrintRef(kept[k], clip)))
  }

  function ToFinding(s: StateFinding): Finding {
    Finding(s.defectKey, s.category, None, s.severity, s.file, s.startLine, s.endLine, s.title, s.claim,
            seq(|s.evidence|, k requires 0 <= k < |s.evidence| => ReadRef(s.evidence[k])), None, None, "prior", ["prior"])
  }

  function RecheckTransition(v: Verdict): Standing {
    match v case Accepted => Open case Rejected => Resolved case Uncertain => Unsure
  }

  // ---- lists of tracked findings ----

  function Position(fs: seq<StateFinding>, id: Id): (i: nat)
    ensures i <= |fs| && (i < |fs| ==> fs[i].id == id)
    ensures forall j :: 0 <= j < i ==> fs[j].id != id
  {
    if fs == [] || fs[0].id == id then 0 else 1 + Position(fs[1..], id)
  }

  function Look(fs: seq<StateFinding>, id: Id): Option<StateFinding> {
    var i := Position(fs, id);
    if i < |fs| then Some(fs[i]) else None
  }

  ghost predicate UniqueIds(fs: seq<StateFinding>) {
    forall j, k :: 0 <= j < k < |fs| ==> fs[j].id != fs[k].id
  }

  /** Ids are unique, and each is the id of the finding stored under it. */
  ghost predicate Consistent(h: Hasher, fs: seq<StateFinding>) {
    UniqueIds(fs) && forall s <- fs :: s.id == h(s.file, s.defectKey)
  }

  function StatusOf(fs: seq<StateFinding>, id: Id): Option<Standing> {
    var s := Look(fs, id);
    if s.Some? then Some(s.value.status) else None
  }

  /** Posted and still open or uncertain: a closed finding that reappears has to surface again. */
  predicate HasPosted(fs: seq<StateFinding>, id: Id) {
    exists s :: s in fs && s.id == id && s.posted && s.status.Live()
  }

  predicate IsTrackedOpen(fs: seq<StateFinding>, id: Id) {
    exists s :: s in fs && s.id == id && s.status.Live()
  }

  /** A finding that is stored and read back keeps what identifies and describes it, its claim as clipped,
      and the first six pieces of evidence; its verdict and suggested fix go, and it is not posted. */
  lemma StoredKeeps(h: Hasher, clip: string -> string, f: Finding, status: Standing)
    ensures var s := FromFinding(h, clip, f, status);
      s.id == f.IdBy(h) && s.status == status && !s.posted && |s.evidence| == if |f.evidence| < 6 then |f.evidence| else 6
    ensures var g := ToFinding(FromFinding(h, clip, f, status));
      && g == f.(duplicateOf := None, claim := clip(f.claim), evidence := g.evidence, verdict := None,
                 suggestedFix := None, source := "prior", sources := ["prior"])
      && |g.evidence| == if |f.evidence| < 6 then |f.evidence| else 6
  {
  }

  /** A finding read back from what was stored of it is the same finding: it has its id, place, title and
      severity, and the evidence that was kept, so far as its references read back. */
  lemma StoredReadsBack(h: Hasher, clip: string -> string, f: Finding, status: Standing, k: nat)
    requires k < |f.evidence| && k < MAX_EVIDENCE && f.evidence[k].startLine < Decimal.U32_END
    ensures var g := ToFinding(FromFinding(h, clip, f, status));
      && g.IdBy(h) == f.IdBy(h) && g.startLine == f.startLine && g.endLine == f.endLine
      && g.title == f.title && g.severity == f.severity && g.category == f.category
      && k < |g.evidence|
      && (g.evidence[k].path == f.evidence[k].path <==> !LooksLikeLine(f.evidence[k].path))
      && (!LooksLikeLine(f.evidence[k].path) ==> g.evidence[k].startLine == f.evidence[k].startLine)
  {
    RefRoundTrip(f.evidence[k], clip);
  }

  lemma LookUnique(fs: seq<StateFinding>, k: nat)
    requires UniqueIds(fs) && k < |fs|
    ensures Look(fs, fs[k].id) == Some(fs[k])
  {
    var i := Position(fs, fs[k].id);
    assert i < k || k < i || i == k;
  }

  /** What state says of an id is what its one entry says. */
  lemma TrackedExactly(fs: seq<StateFinding>, id: Id)
    requires UniqueIds(fs)
    ensures IsTrackedOpen(fs, id) <==>
      Look(fs, id).Some? && (Look(fs, id).value.status == Open || Look(fs, id).value.status == Unsure)
    ensures HasPosted(fs, id) <==> IsTrackedOpen(fs, id) && Look(fs, id).value.posted
  {
    if s :| s in fs && s.id == id && s.status.Live() { FoundIs(fs, s); }
    if s :| s in fs && s.id == id && s.posted && s.status.Live() { FoundIs(fs, s); }
    if Look(fs, id).Some? { assert Look(fs, id).value in fs; }
  }

  /** The ids, in order: the first is the oldest. */
  ghost function Ids(fs: seq<StateFinding>): (ids: seq<Id>)
    ensures |ids| == |fs|
  {
    seq(|fs|, k requires 0 <= k < |fs| => fs[k].id)
  }

  function Marked(fs: seq<StateFinding>, id: Id, status: Standing): seq<StateFinding> {
    var i := Position(fs, id);
    if i < |fs| then fs[i := fs[i].(status := status)] else fs
  }

  function MarkedPosted(fs: seq<StateFinding>, ids: set<Id>): seq<StateFinding> {
    seq(|fs|, k requires 0 <= k < |fs| => if fs[k].id in ids then fs[k].(posted := true) else fs[k])
  }

  function Without(fs: seq<StateFinding>, ids: set<Id>): seq<StateFinding> {
    if fs == [] then []
    else if fs[0].id in ids then Without(fs[1..], ids)
    else [fs[0]] + Without(fs[1..], ids)
  }

  /** The entry a finding gets: a closed one that comes back has to be posted again. */
  function Updated(h: Hasher, clip: string -> string, had: StateFinding, f: Finding, status: Standing): StateFinding {
    FromFinding(h, clip, f, status).(posted := had.posted && (had.status.Live() || !status.Live()))
  }

  function Upserted(h: Hasher, clip: string -> string, fs: seq<StateFinding>, f: Finding,
                    status: Standing): seq<StateFinding> {
    var i := Position(fs, f.IdBy(h));
    if f.duplicateOf.Some? then Without(fs, {f.IdBy(h)})
    else if i < |fs| then fs[i := Updated(h, clip, fs[i], f, status)]
    else fs + [FromFinding(h, clip, f, status)]
  }

  /** A closed finding comes back. */
  predicate Reopens(fs: seq<StateFinding>, f: Finding, id: Id, status: Standing) {
    var had := Look(fs, id);
    f.duplicateOf.None? && status.Live() && had.Some? && !had.value.status.Live()
  }

  function FirstClosed(fs: seq<StateFinding>): (i: nat)
    ensures i <= |fs| && (i < |fs| ==> !fs[i].status.Live())
    ensures forall j :: 0 <= j < i ==> fs[j].status.Live()
  {
    if fs == [] || !fs[0].status.Live() then 0 else 1 + FirstClosed(fs[1..])
  }

  function PruneOne(fs: seq<StateFinding>): (r: seq<StateFinding>)
    requires fs != []
    ensures |r| == |fs| - 1
  {
    var i := FirstClosed(fs);
    if i < |fs| then fs[..i] + fs[i + 1..] else fs[1..]
  }

  function Pruned(fs: seq<StateFinding>): seq<StateFinding>
    decreases |fs|
  {
    if |fs| <= MAX_STATE_FINDINGS then fs else Pruned(PruneOne(fs))
  }

  /** The open and uncertain entries, in order. */
  function LiveOnly(fs: seq<StateFinding>): (r: seq<StateFinding>)
    ensures |r| <= |fs|
  {
    if fs == [] then []
    else (if fs[0].status.Live() then [fs[0]] else []) + LiveOnly(fs[1..])
  }

  /** A list keeps the order of the ids it has in common with another. */
  ghost predicate InOrder(fs: seq<StateFinding>, gs: seq<StateFinding>) {
    forall x, y :: 0 <= x < y < |gs| ==> Position(fs, gs[x].id) < Position(fs, gs[y].id)
  }

  lemma InOrderPrepend(fs: seq<StateFinding>, gs: seq<StateFinding>, s: StateFinding)
    requires fs != [] && InOrder(fs[1..], gs) && s.id == fs[0].id && forall g <- gs :: g.id != fs[0].id
    ensures InOrder(fs, [s] + gs) && InOrder(fs, gs)
  {
    forall y | 0 <= y < |gs| ensures Position(fs, gs[y].id) == 1 + Position(fs[1..], gs[y].id) {
      assert gs[y] in gs;
    }
    var r := [s] + gs;
    forall x, y | 0 <= x < y < |r| ensures Position(fs, r[x].id) < Position(fs, r[y].id) {
      assert r[y] == gs[y - 1] && (x > 0 ==> r[x] == gs[x - 1]);
    }
  }

  // ---- the object ----

  class Tracker {
    const h: Hasher
    const clip: string -> string
    var findings: seq<StateFinding>

    constructor (h: Hasher, clip: string -> string, findings: seq<StateFinding>)
      ensures this.h == h && this.clip == clip && this.findings == findings
    {
      this.h, this.clip, this.findings := h, clip, findings;
    }

    method Mark(id: Id, status: Standing)
      modifies this
      ensures findings == Marked(old(findings), id, status)
    {
      var i := Position(findings, id);
      if i < |findings| {
        findings := findings[i := findings[i].(status := status)];
      }
    }

    method MarkPosted(ids: set<Id>)
      modifies this
      ensures findings == MarkedPosted(old(findings), ids)
    {
      for k := 0 to |findings|
        invariant |findings| == |old(findings)|
        invariant forall j :: 0 <= j < k ==> findings[j] == MarkedPosted(old(findings), ids)[j]
        invariant forall j :: k <= j < |findings| ==> findings[j] == old(findings)[j]
      {
        if findings[k].id in ids {
          findings := findings[k := findings[k].(posted := true)];
        }
      }
    }

    method Upsert(f: Finding, status: Standing) returns (reopened: bool)
      modifies this
      ensures findings == Upserted(h, clip, old(findings), f, status)
      ensures reopened == Reopens(old(findings), f, f.IdBy(h), status)
    {
      if f.duplicateOf.Some? {
        findings := Without(findings, {f.IdBy(h)});
        return false;
      }
      var i := Position(findings, f.IdBy(h));
      if i < |findings| {
        var e := findings[i];
        reopened := !e.status.Live() && status.Live();
        findings := findings[i := FromFinding(h, clip, f, status).(posted := e.posted && !reopened)];
        return;
      }
      findings := findings + [FromFinding(h, clip, f, status)];
      return false;
    }

    method Prune()
      modifies this
      ensures findings == Pruned(old(findings))
    {
      while |findings| > MAX_STATE_FINDINGS
        invariant Pruned(findings) == Pruned(old(findings))
      {
        var i := FirstClosed(findings);
        findings := if i < |findings| then findings[..i] + findings[i + 1..] else findings[1..];
      }
    }
  }

  // ---- what the operations mean for one id ----

  lemma {:induction false} LookWithout(fs: seq<StateFinding>, ids: set<Id>, id: Id)
    ensures Look(Without(fs, ids), id) == if id in ids then None else Look(fs, id)
  {
    if fs != [] {
      LookWithout(fs[1..], ids, id);
      LookTail(fs, id);
      if fs[0].id !in ids { LookTail(Without(fs, ids), id); }
    }
  }

  lemma LookTail(fs: seq<StateFinding>, id: Id)
    requires fs != []
    ensures Look(fs, id) == if fs[0].id == id then Some(fs[0]) else Look(fs[1..], id)
  {
  }

  lemma WithoutKeepsConsistent(h: Hasher, fs: seq<StateFinding>, ids: set<Id>)
    requires Consistent(h, fs)
    ensures Consistent(h, Without(fs, ids))
    ensures forall s :: s in Without(fs, ids) <==> s in fs && s.id !in ids
  {
    if fs != [] {
      WithoutKeepsConsistent(h, fs[1..], ids);
    }
  }

  lemma {:induction false} WithoutInOrder(h: Hasher, fs: seq<StateFinding>, ids: set<Id>)
    requires Consistent(h, fs)
    ensures InOrder(fs, Without(fs, ids))
  {
    if fs != [] {
      TailConsistent(h, fs);
      WithoutInOrder(h, fs[1..], ids);
      WithoutKeepsConsistent(h, fs[1..], ids);
      InOrderPrepend(fs, Without(fs[1..], ids), fs[0]);
    }
  }

  /** Marking an id changes its standing only. */
  lemma MarkedIs(fs: seq<StateFinding>, id: Id, status: Standing, other: Id)
    requires UniqueIds(fs)
    ensures Ids(Marked(fs, id, status)) == Ids(fs)
    ensures Look(Marked(fs, id, status), other) ==
      (if other == id && Look(fs, id).Some? then Some(Look(fs, id).value.(status := status)) else Look(fs, other))
  {
    SamePosition(Marked(fs, id, status), other, Position(fs, other));
  }

  /** Marking ids as posted changes that only. */
  lemma MarkedPostedIs(fs: seq<StateFinding>, ids: set<Id>, id: Id)
    ensures Ids(MarkedPosted(fs, ids)) == Ids(fs)
    ensures Look(MarkedPosted(fs, ids), id) ==
      (if id in ids && Look(fs, id).Some? then Some(Look(fs, id).value.(posted := true)) else Look(fs, id))
  {
    SamePosition(MarkedPosted(fs, ids), id, Position(fs, id));
  }

  /** The entry is that of the finding, with this standing, and counts as posted only if it did before
      and was not closed in between. */
  ghost predicate Records(had: Option<StateFinding>, e: Option<StateFinding>, f: Finding, status: Standing) {
    && e.Some? && e.value.status == status
    && e.value.file == f.file && e.value.startLine == f.startLine && e.value.endLine == f.endLine
    && e.value.title == f.title && e.value.defectKey == f.defectKey && e.value.category == f.category
    && e.value.severity == f.severity
    && e.value.posted == (had.Some? && had.value.posted && (had.value.status.Live() || !status.Live()))
  }

  lemma LookUpserted(h: Hasher, clip: string -> string, fs: seq<StateFinding>, f: Finding, status: Standing, id: Id)
    requires f.duplicateOf.None?
    ensures id != f.IdBy(h) ==> Look(Upserted(h, clip, fs, f, status), id) == Look(fs, id)
    ensures StatusOf(Upserted(h, clip, fs, f, status), f.IdBy(h)) == Some(status)
    ensures Records(Look(fs, f.IdBy(h)), Look(Upserted(h, clip, fs, f, status), f.IdBy(h)), f, status)
  {
    var key := f.IdBy(h);
    var i := Position(fs, key);
    var r := Upserted(h, clip, fs, f, status);
    SamePosition(r, key, i);
    if id != key {
      var j := Position(fs, id);
      if j < |fs| {
        SamePosition(r, id, j);
      } else {
        SamePosition(r, id, |r|);
      }
    }
  }

  /** An upsert keeps everything in its place; what is new goes to the end. */
  lemma UpsertedOrder(h: Hasher, clip: string -> string, fs: seq<StateFinding>, f: Finding, status: Standing)
    requires f.duplicateOf.None?
    ensures Ids(Upserted(h, clip, fs, f, status)) ==
      Ids(fs) + if Look(fs, f.IdBy(h)).Some? then [] else [f.IdBy(h)]
  {
  }

  lemma SamePosition(fs: seq<StateFinding>, id: Id, i: nat)
    requires i <= |fs| && (i < |fs| ==> fs[i].id == id) && forall j :: 0 <= j < i ==> fs[j].id != id
    ensures Position(fs, id) == i
  {
    var p := Position(fs, id);
    assert p < i || i < p || p == i;
  }

  lemma UpsertedKeepsConsistent(h: Hasher, clip: string -> string, fs: seq<StateFinding>, f: Finding, status: Standing)
    requires Consistent(h, fs) && f.duplicateOf.None?
    ensures Consistent(h, Upserted(h, clip, fs, f, status))
  {
  }

  ghost function Last<T>(s: seq<T>, n: nat): seq<T> {
    if |s| > n then s[|s| - n..] else s
  }

  lemma {:induction false} LiveOnlyMembers(fs: seq<StateFinding>, s: StateFinding)
    ensures s in LiveOnly(fs) <==> s in fs && s.status.Live()
  {
    if fs != [] { LiveOnlyMembers(fs[1..], s); }
  }

  lemma {:induction false} RemoveClosed(fs: seq<StateFinding>, i: nat)
    requires i < |fs| && !fs[i].status.Live()
    ensures LiveOnly(fs[..i] + fs[i + 1..]) == LiveOnly(fs)
  {
    var r := fs[..i] + fs[i + 1..];
    if i == 0 {
      assert r == fs[1..];
    } else {
      assert r[1..] == fs[1..][..i - 1] + fs[1..][i..];
      assert r[0] == fs[0];
      RemoveClosed(fs[1..], i - 1);
    }
  }

  lemma {:induction false} AllLive(fs: seq<StateFinding>)
    requires forall s <- fs :: s.status.Live()
    ensures LiveOnly(fs) == fs
  {
    if fs != [] {
      assert fs[0] in fs;
      AllLive(fs[1..]);
      assert fs == [fs[0]] + fs[1..];
    }
  }

  lemma DropClosed(fs: seq<StateFinding>)
    requires FirstClosed(fs) < |fs|
    ensures LiveOnly(PruneOne(fs)) == LiveOnly(fs)
  {
    RemoveClosed(fs, FirstClosed(fs));
  }

  lemma DropOldest(fs: seq<StateFinding>)
    requires fs != [] && FirstClosed(fs) == |fs|
    ensures LiveOnly(fs) == fs && LiveOnly(PruneOne(fs)) == fs[1..]
  {
    AllLive(fs);
    AllLive(fs[1..]);
  }

  /** Pruning keeps the newest open and uncertain entries, at most 200 of them. */
  lemma {:induction false} PrunedKeepsNewestLive(fs: seq<StateFinding>)
    ensures LiveOnly(Pruned(fs)) == Last(LiveOnly(fs), 200)
    decreases |fs|
  {
    if |fs| > MAX_STATE_FINDINGS {
      if FirstClosed(fs) < |fs| { DropClosed(fs); } else { DropOldest(fs); }
      PrunedKeepsNewestLive(PruneOne(fs));
    }
  }

  /** So no open or uncertain entry is lost exactly when there are at most 200. */
  lemma PruneLosesNothingLive(fs: seq<StateFinding>)
    ensures LiveOnly(Pruned(fs)) == LiveOnly(fs) <==> |LiveOnly(fs)| <= 200
  {
    PrunedKeepsNewestLive(fs);
  }

  /** The newest 200 open and uncertain entries include one with this id. */
  ghost predicate PruneKeeps(fs: seq<StateFinding>, id: Id) {
    exists s :: s in Last(LiveOnly(fs), MAX_STATE_FINDINGS) && s.id == id
  }

  lemma LastMembers(fs: seq<StateFinding>, n: nat)
    ensures forall s :: s in Last(fs, n) ==> s in fs
    ensures |fs| <= n ==> Last(fs, n) == fs
  {
  }

  /** A live id survives pruning exactly when it is among those, and then its entry is unchanged. */
  lemma PruneKeepsExactly(h: Hasher, fs: seq<StateFinding>, id: Id)
    requires Consistent(h, fs)
    ensures IsTrackedOpen(Pruned(fs), id) <==> PruneKeeps(fs, id)
    ensures PruneKeeps(fs, id) ==> Look(Pruned(fs), id) == Look(fs, id)
    ensures IsTrackedOpen(fs, id) && |LiveOnly(fs)| <= MAX_STATE_FINDINGS ==> PruneKeeps(fs, id)
  {
    PrunedKeepsNewestLive(fs);
    PrunedKeepsConsistent(h, fs);
    LastMembers(LiveOnly(fs), MAX_STATE_FINDINGS);
    if PruneKeeps(fs, id) {
      var s :| s in Last(LiveOnly(fs), MAX_STATE_FINDINGS) && s.id == id;
      LiveOnlyMembers(Pruned(fs), s);
      FoundIs(Pruned(fs), s);
      FoundIs(fs, s);
    }
    if IsTrackedOpen(Pruned(fs), id) {
      var s :| s in Pruned(fs) && s.id == id && s.status.Live();
      LiveOnlyMembers(Pruned(fs), s);
    }
    if IsTrackedOpen(fs, id) && |LiveOnly(fs)| <= MAX_STATE_FINDINGS {
      var s :| s in fs && s.id == id && s.status.Live();
      LiveOnlyMembers(fs, s);
    }
  }

  /** With more than 200 entries, all of them live, the oldest one goes. */
  lemma OldestGoes(fs: seq<StateFinding>)
    requires UniqueIds(fs) && |fs| > MAX_STATE_FINDINGS && forall s <- fs :: s.status.Live()
    ensures !PruneKeeps(fs, fs[0].id)
  {
    AllLive(fs);
    var kept := Last(fs, MAX_STATE_FINDINGS);
    forall s | s in kept ensures s.id != fs[0].id {
      var k :| 0 <= k < |kept| && kept[k] == s;
      assert kept[k] == fs[k + |fs| - MAX_STATE_FINDINGS];
    }
  }

  lemma {:induction false} PrunedKeepsConsistent(h: Hasher, fs: seq<StateFinding>)
    requires Consistent(h, fs)
    ensures Consistent(h, Pruned(fs))
    ensures forall s :: s in Pruned(fs) ==> s in fs
    decreases |fs|
  {
    if |fs| > MAX_STATE_FINDINGS {
      PrunedKeepsConsistent(h, PruneOne(fs));
    }
  }

  /** An id is live after pruning with the same entry, if nothing live was lost. */
  lemma LookPruned(h: Hasher, fs: seq<StateFinding>, id: Id)
    requires Consistent(h, fs) && |LiveOnly(fs)| <= MAX_STATE_FINDINGS
    ensures Look(fs, id).Some? && Look(fs, id).value.status.Live() ==> Look(Pruned(fs), id) == Look(fs, id)
    ensures Look(Pruned(fs), id).Some? ==> Look(Pruned(fs), id) == Look(fs, id)
  {
    PruneLosesNothingLive(fs);
    PrunedKeepsConsistent(h, fs);
    var s := Look(fs, id);
    if s.Some? && s.value.status.Live() {
      LiveOnlyMembers(fs, s.value);
      LiveOnlyMembers(Pruned(fs), s.value);
      FoundIs(Pruned(fs), s.value);
    }
    var t := Look(Pruned(fs), id);
    if t.Some? {
      assert t.value in Pruned(fs);
      FoundIs(fs, t.value);
    }
  }

  lemma FoundIs(fs: seq<StateFinding>, s: StateFinding)
    requires UniqueIds(fs) && s in fs
    ensures Look(fs, s.id) == Some(s)
  {
    var k :| 0 <= k < |fs| && fs[k] == s;
    LookUnique(fs, k);
  }

  // ---- what is stored in public ----

  /** Open entries stay whole; uncertain ones if they are posted or may be published; resolved ones keep
      their identity and place if they are posted; the others go. */
  function ProjectOne(s: StateFinding, publishUncertain: bool): Option<StateFinding> {
    match s.status
    case Open => Some(s)
    case Unsure => if s.posted || publishUncertain then Some(s) else None
    case Resolved => if s.posted then Some(s.(claim := "", evidence := [])) else None
    case Dismissed => None
  }

  function Projected(fs: seq<StateFinding>, publishUncertain: bool): seq<StateFinding> {
    if fs == [] then []
    else
      var one := ProjectOne(fs[0], publishUncertain);
      (if one.Some? then [one.value] else []) + Projected(fs[1..], publishUncertain)
  }

  lemma {:induction false} ProjectedMembers(fs: seq<StateFinding>, publishUncertain: bool, p: StateFinding)
    ensures p in Projected(fs, publishUncertain) <==> exists s :: s in fs && ProjectOne(s, publishUncertain) == Some(p)
  {
    if fs != [] {
      ProjectedMembers(fs[1..], publishUncertain, p);
      assert forall s :: s in fs <==> s == fs[0] || s in fs[1..];
    }
  }

  lemma {:induction false} ProjectedKeepsConsistent(h: Hasher, fs: seq<StateFinding>, publishUncertain: bool)
    requires Consistent(h, fs)
    ensures Consistent(h, Projected(fs, publishUncertain))
  {
    if fs != [] {
      var one, rest := ProjectOne(fs[0], publishUncertain), Projected(fs[1..], publishUncertain);
      TailConsistent(h, fs);
      ProjectedKeepsConsistent(h, fs[1..], publishUncertain);
      forall p | p in rest ensures p.id != fs[0].id {
        ProjectedMembers(fs[1..], publishUncertain, p);
      }
      if one.Some? { PrependConsistent(h, one.value, rest); } else { assert [] + rest == rest; }
    }
  }

  lemma TailConsistent(h: Hasher, fs: seq<StateFinding>)
    requires Consistent(h, fs) && fs != []
    ensures Consistent(h, fs[1..]) && fs[0].id == h(fs[0].file, fs[0].defectKey)
    ensures forall s <- fs[1..] :: s.id != fs[0].id
  {
    assert fs[0] in fs;
  }

  lemma PrependConsistent(h: Hasher, s: StateFinding, rest: seq<StateFinding>)
    requires Consistent(h, rest) && s.id == h(s.file, s.defectKey) && forall p <- rest :: p.id != s.id
    ensures Consistent(h, [s] + rest)
  {
  }

  /** Of every entry it stores what its standing calls for, and nothing else. */
  lemma ProjectedExactly(h: Hasher, fs: seq<StateFinding>, publishUncertain: bool, s: StateFinding)
    requires Consistent(h, fs) && s in fs
    ensures var p := Look(Projected(fs, publishUncertain), s.id);
      && (s.status == Open ==> p == Some(s))
      && (s.status == Dismissed ==> p == None)
      && (s.status == Unsure ==> p == if s.posted || publishUncertain then Some(s) else None)
      && (s.status == Resolved ==> p == if s.posted then Some(s.(claim := "", evidence := [])) else None)
  {
    ProjectedLook(h, fs, publishUncertain, s);
  }

  lemma ProjectedLook(h: Hasher, fs: seq<StateFinding>, publishUncertain: bool, s: StateFinding)
    requires Consistent(h, fs) && s in fs
    ensures Look(Projected(fs, publishUncertain), s.id) == ProjectOne(s, publishUncertain)
  {
    var r, one := Projected(fs, publishUncertain), ProjectOne(s, publishUncertain);
    ProjectedKeepsConsistent(h, fs, publishUncertain);
    if one.Some? {
      ProjectedMembers(fs, publishUncertain, one.value);
      FoundIs(r, one.value);
    } else if Look(r, s.id).Some? {
      ProjectedComesFrom(fs, publishUncertain, s, Look(r, s.id).value);
    }
  }

  lemma ProjectedComesFrom(fs: seq<StateFinding>, publishUncertain: bool, s: StateFinding, p: StateFinding)
    requires UniqueIds(fs) && s in fs && p in Projected(fs, publishUncertain) && p.id == s.id
    ensures ProjectOne(s, publishUncertain) == Some(p)
  {
    ProjectedMembers(fs, publishUncertain, p);
    var o :| o in fs && ProjectOne(o, publishUncertain) == Some(p);
    FoundIs(fs, o);
    FoundIs(fs, s);
  }

  lemma {:induction false} ProjectedInOrder(h: Hasher, fs: seq<StateFinding>, publishUncertain: bool)
    requires Consistent(h, fs)
    ensures InOrder(fs, Projected(fs, publishUncertain))
  {
    if fs != [] {
      var one, rest := ProjectOne(fs[0], publishUncertain), Projected(fs[1..], publishUncertain);
      TailConsistent(h, fs);
      ProjectedInOrder(h, fs[1..], publishUncertain);
      forall p | p in rest ensures p.id != fs[0].id {
        ProjectedMembers(fs[1..], publishUncertain, p);
      }
      InOrderPrepend(fs, rest, fs[0]);
      if one.Some? { InOrderPrepend(fs, rest, one.value); } else { assert [] + rest == rest; }
    }
  }

  /** What is stored says of every id alike whether it is open, and whether it is posted and still open
      or uncertain. */
  lemma ProjectedKeepsRecord(fs: seq<StateFinding>, publishUncertain: bool, id: Id)
    ensures HasPosted(Projected(fs, publishUncertain), id) <==> HasPosted(fs, id)
    ensures forall s: StateFinding :: s.status == Open ==> (s in Projected(fs, publishUncertain) <==> s in fs)
  {
    var r := Projected(fs, publishUncertain);
    forall s: StateFinding | s.status == Open ensures s in r <==> s in fs { ProjectedMembers(fs, publishUncertain, s); }
    if HasPosted(fs, id) {
      var s :| s in fs && s.id == id && s.posted && s.status.Live();
      ProjectedMembers(fs, publishUncertain, s);
    }
    if HasPosted(r, id) {
      var p :| p in r && p.id == id && p.posted && p.status.Live();
      ProjectedMembers(fs, publishUncertain, p);
    }
  }

  /** Storing what was read from storage changes nothing. */
  lemma {:induction false} ProjectedOnce(fs: seq<StateFinding>, publishUncertain: bool)
    ensures Projected(Projected(fs, publishUncertain), publishUncertain) == Projected(fs, publishUncertain)
  {
    if fs != [] {
      var one, rest := ProjectOne(fs[0], publishUncertain), Projected(fs[1..], publishUncertain);
      ProjectedOnce(fs[1..], publishUncertain);
      if one.Some? { assert ([one.value] + rest)[1..] == rest; } else { assert [] + rest == rest; }
    }
  }
}
