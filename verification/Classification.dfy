/** Sorting accepted findings of a real-PR case into report buckets (eval/prs/score.py). */
module Classification {
  import opened Wrappers
  import opened Scoring

  datatype Kind = Confirmed | Plausible | Valid | Neutral | Invalid | Nit | Other

  const GOOD_EXTRA: set<Kind> := {Plausible, Valid}
  const KNOWN_FP: set<Kind> := {Neutral, Invalid}

  datatype Label = Dup(d: nat) | Extra(d: nat) | KnownFp(d: nat) | NitPick(d: nat) | Unlabeled

  /** Each entry pairs a finding with the defect that gave it its label; the report itself prints
      the defect only. */
  datatype Buckets = Buckets(dup: seq<(nat, nat)>, extra: seq<(nat, nat)>, knownFp: seq<(nat, nat)>,
                             nit: seq<(nat, nat)>, unlabeled: seq<nat>)
  {
    function Size(): nat { |dup| + |extra| + |knownFp| + |nit| + |unlabeled| }

    /** `f` is in the bucket that `l` names, with `l`'s defect. */
    ghost predicate Places(f: nat, l: Label) {
      match l
      case Dup(d) => (f, d) in dup
      case Extra(d) => (f, d) in extra
      case KnownFp(d) => (f, d) in knownFp
      case NitPick(d) => (f, d) in nit
      case Unlabeled => f in unlabeled
    }
  }

  /** `d` is the first defect of one of `kinds` that matches `f`. */
  ghost predicate IsFirst<F, D>(f: F, defects: seq<D>, kind: D -> Kind, matches: (F, D) -> bool, kinds: set<Kind>,
                                d: nat) {
    && d < |defects| && kind(defects[d]) in kinds && matches(f, defects[d])
    && forall j :: 0 <= j < d && kind(defects[j]) in kinds ==> !matches(f, defects[j])
  }

  ghost predicate NoneOf<F, D>(f: F, defects: seq<D>, kind: D -> Kind, matches: (F, D) -> bool, kinds: set<Kind>) {
    forall j :: 0 <= j < |defects| && kind(defects[j]) in kinds ==> !matches(f, defects[j])
  }

  function FirstLabel<F, D>(f: F, defects: seq<D>, kind: D -> Kind, matches: (F, D) -> bool,
                            kinds: set<Kind>): (r: Option<nat>)
    ensures r.None? <==> NoneOf(f, defects, kind, matches, kinds)
    ensures r.Some? ==> IsFirst(f, defects, kind, matches, kinds, r.value)
  {
    var ps := Positions(defects, d => kind(d) in kinds && matches(f, d));
    if ps == [] then
      assert forall j: nat :: j in ps <==> j < |defects| && kind(defects[j]) in kinds && matches(f, defects[j]);
      None
    else
      assert forall j: nat :: j < ps[0] ==> j !in ps;
      Some(ps[0])
  }

  /** The label of a finding the matching did not use: confirmed first, then plausible or valid,
      then neutral or invalid, then nit. */
  function LabelOf<F, D>(f: F, defects: seq<D>, kind: D -> Kind, matches: (F, D) -> bool): (l: Label)
    ensures l.Dup? <==> !NoneOf(f, defects, kind, matches, {Confirmed})
    ensures l.Unlabeled? <==> NoneOf(f, defects, kind, matches, {Confirmed, Plausible, Valid, Neutral, Invalid, Nit})
    ensures l.Dup? ==> IsFirst(f, defects, kind, matches, {Confirmed}, l.d)
    ensures l.Extra? ==> IsFirst(f, defects, kind, matches, GOOD_EXTRA, l.d)
    ensures l.KnownFp? ==> IsFirst(f, defects, kind, matches, KNOWN_FP, l.d) && NoneOf(f, defects, kind, matches, GOOD_EXTRA)
    ensures l.NitPick? ==>
      IsFirst(f, defects, kind, matches, {Nit}, l.d) && NoneOf(f, defects, kind, matches, GOOD_EXTRA + KNOWN_FP)
  {
    match FirstLabel(f, defects, kind, matches, {Confirmed})
    case Some(d) => Dup(d)
    case None =>
      match FirstLabel(f, defects, kind, matches, GOOD_EXTRA)
      case Some(d) => Extra(d)
      case None =>
        match FirstLabel(f, defects, kind, matches, KNOWN_FP)
        case Some(d) => KnownFp(d)
        case None =>
          match FirstLabel(f, defects, kind, matches, {Nit})
          case Some(d) => NitPick(d)
          case None => Unlabeled
  }

  /** Each bucket holds exactly the unused findings below `n` that carry its label. */
  ghost predicate Sorted<F, D>(findings: seq<F>, defects: seq<D>, kind: D -> Kind, matches: (F, D) -> bool,
                               used: set<nat>, n: nat, b: Buckets)
    requires n <= |findings|
  {
    forall f: nat, l: Label :: b.Places(f, l) <==>
      f < n && f !in used && l == LabelOf(findings[f], defects, kind, matches)
  }

  function Put(b: Buckets, f: nat, l: Label): (r: Buckets)
    ensures r.Size() == b.Size() + 1
    ensures forall g: nat, k: Label :: r.Places(g, k) <==> b.Places(g, k) || (g == f && k == l)
  {
    match l
    case Dup(d) => b.(dup := b.dup + [(f, d)])
    case Extra(d) => b.(extra := b.extra + [(f, d)])
    case KnownFp(d) => b.(knownFp := b.knownFp + [(f, d)])
    case NitPick(d) => b.(nit := b.nit + [(f, d)])
    case Unlabeled => b.(unlabeled := b.unlabeled + [f])
  }

  lemma SortedStep<F, D>(findings: seq<F>, defects: seq<D>, kind: D -> Kind, matches: (F, D) -> bool,
                         used: set<nat>, f: nat, b: Buckets)
    requires f < |findings| && Sorted(findings, defects, kind, matches, used, f, b)
    ensures Sorted(findings, defects, kind, matches, used, f + 1,
                   if f in used then b else Put(b, f, LabelOf(findings[f], defects, kind, matches)))
  {
  }

  function ConfirmedOf<D>(defects: seq<D>, kind: D -> Kind): seq<D> {
    Select(defects, d => kind(d) == Confirmed)
  }

  /** Every finding is either matched (`hit`, to a position among the confirmed defects) or in
      exactly the bucket of its label, once. */
  method Classify<F, D>(findings: seq<F>, defects: seq<D>, kind: D -> Kind, matches: (F, D) -> bool)
    returns (hit: map<nat, nat>, b: Buckets)
    ensures IsMaximumPairing(findings, ConfirmedOf(defects, kind), matches, hit)
    ensures |hit| + b.Size() == |findings|
    ensures Sorted(findings, defects, kind, matches, hit.Keys, |findings|, b)
  {
    hit := MatchFindings(findings, ConfirmedOf(defects, kind), matches);
    UnusedSize(|findings|, hit.Keys);
    b := SortUnused(findings, defects, kind, matches, hit.Keys);
  }

  /** The loop over the findings the matching left out. */
  method SortUnused<F, D>(findings: seq<F>, defects: seq<D>, kind: D -> Kind, matches: (F, D) -> bool, used: set<nat>)
    returns (b: Buckets)
    ensures b.Size() == |Unused(|findings|, used)|
    ensures Sorted(findings, defects, kind, matches, used, |findings|, b)
  {
    b := Buckets([], [], [], [], []);
    for f := 0 to |findings|
      invariant b.Size() == |Unused(f, used)|
      invariant Sorted(findings, defects, kind, matches, used, f, b)
    {
      SortedStep(findings, defects, kind, matches, used, f, b);
      if f !in used {
        b := Put(b, f, LabelOf(findings[f], defects, kind, matches));
      }
    }
  }

  /** Some confirmed defect matches. */
  ghost predicate MatchesSome<F, D>(f: F, confirmed: seq<D>, matches: (F, D) -> bool) {
    exists c: nat :: c < |confirmed| && matches(f, confirmed[c])
  }

  lemma LabelIsDup<F, D>(f: F, defects: seq<D>, kind: D -> Kind, matches: (F, D) -> bool)
    ensures LabelOf(f, defects, kind, matches).Dup? <==> MatchesSome(f, ConfirmedOf(defects, kind), matches)
  {
    var l := LabelOf(f, defects, kind, matches);
    if l.Dup? {
      var c := SelectedAt(defects, d => kind(d) == Confirmed, l.d);
      assert matches(f, ConfirmedOf(defects, kind)[c]);
    }
  }

  /** A finding is called a duplicate exactly when the matching left it out although it matches
      a confirmed defect, and then every confirmed defect it matches is hit by another finding. */
  lemma DuplicatesAreHit<F, D>(findings: seq<F>, defects: seq<D>, kind: D -> Kind, matches: (F, D) -> bool,
                               hit: map<nat, nat>, b: Buckets, f: nat)
    requires IsMaximumPairing(findings, ConfirmedOf(defects, kind), matches, hit)
    requires Sorted(findings, defects, kind, matches, hit.Keys, |findings|, b)
    requires f < |findings|
    ensures (exists d: nat :: b.Places(f, Dup(d))) <==>
      f !in hit && MatchesSome(findings[f], ConfirmedOf(defects, kind), matches)
    ensures f !in hit ==> forall c: nat ::
      c < |ConfirmedOf(defects, kind)| && matches(findings[f], ConfirmedOf(defects, kind)[c]) ==> IsHitByAnother(hit, c, f)
  {
    var l := LabelOf(findings[f], defects, kind, matches);
    LabelIsDup(findings[f], defects, kind, matches);
    assert b.Places(f, l) <==> f !in hit;
    if f !in hit {
      HitByAnother(findings, ConfirmedOf(defects, kind), matches, hit, f);
    }
  }

  lemma HitByAnother<F, D>(findings: seq<F>, confirmed: seq<D>, matches: (F, D) -> bool, hit: map<nat, nat>, f: nat)
    requires IsMaximumPairing(findings, confirmed, matches, hit) && f < |findings| && f !in hit
    ensures forall c: nat :: c < |confirmed| && matches(findings[f], confirmed[c]) ==> IsHitByAnother(hit, c, f)
  {
    forall c: nat | c < |confirmed| && matches(findings[f], confirmed[c]) ensures IsHitByAnother(hit, c, f) {
      NoFreePair(findings, confirmed, matches, hit, f, c);
    }
  }

  ghost predicate IsHitByAnother(hit: map<nat, nat>, c: nat, f: nat) {
    exists g :: g in hit && g != f && hit[g] == c
  }
}
