/** Lists of findings by id, and giving every id one finding (src/pipeline/common.rs). */
module Canonicalization {
  import opened EvidenceRefs
  import opened Findings

  // ---- lists of findings by id ----

  function Filter<T(!new)>(xs: seq<T>, p: T -> bool): (r: seq<T>)
    ensures |r| <= |xs|
    ensures forall x :: x in r <==> x in xs && p(x)
  {
    if xs == [] then []
    else (if p(xs[0]) then [xs[0]] else []) + Filter(xs[1..], p)
  }

  lemma {:induction false} FilterAll<T(!new)>(xs: seq<T>, p: T -> bool)
    requires forall x <- xs :: p(x)
    ensures Filter(xs, p) == xs
  {
    if xs != [] {
      assert xs[0] in xs;
      FilterAll(xs[1..], p);
      assert [xs[0]] + xs[1..] == xs;
    }
  }

  lemma FilterNone<T(!new)>(xs: seq<T>, p: T -> bool)
    requires forall x <- xs :: !p(x)
    ensures Filter(xs, p) == []
  {
    if Filter(xs, p) != [] { assert Filter(xs, p)[0] in Filter(xs, p); }
  }

  lemma Regroup<T>(a: seq<T>, b: seq<T>, c: seq<T>)
    ensures a + (b + c) == (a + b) + c
  {
  }

  lemma {:induction false} FilterSplit<T(!new)>(xs: seq<T>, a: seq<T>, b: seq<T>, p: T -> bool)
    requires xs == a + b
    ensures Filter(xs, p) == Filter(a, p) + Filter(b, p)
    decreases |a|
  {
    if a == [] {
      assert xs == b;
    } else {
      assert xs[1..] == a[1..] + b;
      FilterSplit(xs[1..], a[1..], b, p);
      Regroup(if p(a[0]) then [a[0]] else [], Filter(a[1..], p), Filter(b, p));
    }
  }

  /** The place of an element of a filtered list. */
  lemma FilterAt<T(!new)>(xs: seq<T>, p: T -> bool, k: nat)
    requires k < |xs| && p(xs[k])
    ensures |Filter(xs[..k], p)| < |Filter(xs, p)|
    ensures Filter(xs, p)[|Filter(xs[..k], p)|] == xs[k]
  {
    FilterSplit(xs, xs[..k], xs[k..], p);
    assert xs[k..][0] == xs[k];
  }

  /** Filtering keeps the order. */
  lemma {:induction false} FilterInOrder<T(!new)>(xs: seq<T>, p: T -> bool, i: nat, j: nat) returns (a: nat, b: nat)
    requires i < j < |Filter(xs, p)|
    ensures a < b < |xs| && xs[a] == Filter(xs, p)[i] && xs[b] == Filter(xs, p)[j]
  {
    if !p(xs[0]) {
      a, b := FilterInOrder(xs[1..], p, i, j);
      a, b := a + 1, b + 1;
    } else if i > 0 {
      a, b := FilterInOrder(xs[1..], p, i - 1, j - 1);
      a, b := a + 1, b + 1;
    } else {
      var y := Filter(xs[1..], p)[j - 1];
      assert y in Filter(xs[1..], p);
      b :| 0 <= b < |xs[1..]| && xs[1..][b] == y;
      a, b := 0, b + 1;
    }
  }

  lemma FilterFront<T(!new)>(xs: seq<T>, ys: seq<T>, p: T -> bool)
    requires forall y <- ys :: !p(y)
    ensures Filter(xs + ys, p) == Filter(xs, p)
  {
    FilterSplit(xs + ys, xs, ys, p);
    FilterNone(ys, p);
  }

  /** The first finding with this id, `|fs|` if there is none. */
  function Place(h: Hasher, fs: seq<Finding>, id: Id): (i: nat)
    ensures i <= |fs| && (i < |fs| ==> fs[i].IdBy(h) == id)
    ensures forall j :: 0 <= j < i ==> fs[j].IdBy(h) != id
  {
    if fs == [] || fs[0].IdBy(h) == id then 0 else 1 + Place(h, fs[1..], id)
  }

  predicate HasId(h: Hasher, fs: seq<Finding>, id: Id) {
    Place(h, fs, id) < |fs|
  }

  lemma MemberHasId(h: Hasher, fs: seq<Finding>, f: Finding)
    requires f in fs
    ensures HasId(h, fs, f.IdBy(h))
  {
    var k :| 0 <= k < |fs| && fs[k] == f;
    assert Place(h, fs, f.IdBy(h)) <= k;
  }

  lemma HasIdExactly(h: Hasher, fs: seq<Finding>, id: Id)
    ensures HasId(h, fs, id) <==> exists f :: f in fs && f.IdBy(h) == id
  {
    if HasId(h, fs, id) { assert fs[Place(h, fs, id)] in fs; }
    if f :| f in fs && f.IdBy(h) == id { MemberHasId(h, fs, f); }
  }

  ghost predicate DistinctIds(h: Hasher, fs: seq<Finding>) {
    forall j, k :: 0 <= j < k < |fs| ==> fs[j].IdBy(h) != fs[k].IdBy(h)
  }

  lemma PlaceOf(h: Hasher, fs: seq<Finding>, k: nat)
    requires DistinctIds(h, fs) && k < |fs|
    ensures Place(h, fs, fs[k].IdBy(h)) == k
  {
    var i := Place(h, fs, fs[k].IdBy(h));
    assert i < k || k < i || i == k;
  }

  lemma {:induction false} FilterKeepsDistinct(h: Hasher, fs: seq<Finding>, p: Finding -> bool)
    requires DistinctIds(h, fs)
    ensures DistinctIds(h, Filter(fs, p))
  {
    if fs != [] {
      FilterKeepsDistinct(h, fs[1..], p);
      forall f | f in Filter(fs[1..], p) ensures f.IdBy(h) != fs[0].IdBy(h) {
        var k :| 0 <= k < |fs[1..]| && fs[1..][k] == f;
        assert fs[k + 1] == f;
      }
    }
  }

  /** No two pairs of file and key get the same id. */
  ghost predicate Injective(h: Hasher) {
    forall file, key, file', key' :: h(file, key) == h(file', key') ==> file == file' && key == key'
  }

  /** Then the collapsed candidates have distinct ids. */
  lemma CollapsedIdsDistinct(h: Hasher, words: string -> seq<string>, cs: seq<Finding>)
    requires Injective(h)
    ensures DistinctIds(h, Collapsed(words, cs))
  {
    CollapsedIsDuplicateFree(words, cs);
    var out := Collapsed(words, cs);
    forall j, k | 0 <= j < k < |out| ensures out[j].IdBy(h) != out[k].IdBy(h) {
      assert !Duplicates(words, out[j], out[k]);
    }
  }

  // ---- canonicalization ----

  function AddExact(had: seq<Evidence>, more: seq<Evidence>): (r: seq<Evidence>)
    ensures had <= r
    ensures forall e :: e in r <==> e in had || e in more
    decreases |more|
  {
    if more == [] then had else AddExact(if more[0] in had then had else had + [more[0]], more[1..])
  }

  /** Nothing is added that is there already. */
  lemma {:induction false} AddedOnce(had: seq<Evidence>, more: seq<Evidence>, j: nat)
    requires |had| <= j < |AddExact(had, more)|
    ensures AddExact(had, more)[j] !in AddExact(had, more)[..j]
    decreases |more|
  {
    var r := AddExact(had, more);
    var next := if more[0] in had then had else had + [more[0]];
    if j >= |next| {
      AddedOnce(next, more[1..], j);
    } else {
      assert r[..j] == had && r[j] == next[j] == more[0];
    }
  }

  /** Two findings with one id: the first stays unless only the second is publishable; what is
      given up contributes its category, evidence and sources. */
  function MergeSame(kept: Finding, f: Finding): Finding {
    var (keep, extra) := if !kept.Publishable() && f.Publishable() then (f, kept) else (kept, f);
    keep.(category := if keep.category == "" then extra.category else keep.category,
          evidence := AddExact(keep.evidence, extra.evidence),
          sources := AddSources(keep.sources, extra.sources))
  }

  function Canonical(h: Hasher, fs: seq<Finding>): seq<Finding> {
    if fs == [] then []
    else
      var out, f := Canonical(h, fs[..|fs| - 1]), fs[|fs| - 1];
      var i := Place(h, out, f.IdBy(h));
      if i < |out| then out[i := MergeSame(out[i], f)] else out + [f]
  }

  method Canonicalize(h: Hasher, findings: seq<Finding>) returns (out: seq<Finding>)
    ensures out == Canonical(h, findings)
  {
    out := [];
    var positions: map<Id, nat> := map[];
    for k := 0 to |findings|
      invariant out == Canonical(h, findings[..k])
      invariant forall id :: id in positions <==> HasId(h, out, id)
      invariant forall id :: id in positions ==> positions[id] == Place(h, out, id)
    {
      var f := findings[k];
      var id := f.IdBy(h);
      assert findings[..k + 1][..k] == findings[..k];
      ghost var was := out;
      if id in positions {
        out := out[positions[id] := MergeSame(out[positions[id]], f)];
        SameIdsSamePlaces(h, was, out);
      } else {
        positions := positions[id := |out|];
        out := out + [f];
        AppendPlaces(h, was, f);
      }
    }
    assert findings[..|findings|] == findings;
  }

  lemma {:induction false} SameIdsSamePlaces(h: Hasher, a: seq<Finding>, b: seq<Finding>)
    requires |a| == |b| && forall k :: 0 <= k < |a| ==> a[k].IdBy(h) == b[k].IdBy(h)
    ensures forall id :: Place(h, a, id) == Place(h, b, id)
  {
    forall id ensures Place(h, a, id) == Place(h, b, id) {
      var i, j := Place(h, a, id), Place(h, b, id);
      assert i < j || j < i || i == j;
    }
  }

  function PlaceAfterAppend(h: Hasher, fs: seq<Finding>, f: Finding, id: Id): nat {
    if HasId(h, fs, id) then Place(h, fs, id) else if id == f.IdBy(h) then |fs| else |fs| + 1
  }

  lemma AppendPlaces(h: Hasher, fs: seq<Finding>, f: Finding)
    ensures forall id :: Place(h, fs + [f], id) == PlaceAfterAppend(h, fs, f, id)
  {
    var r := fs + [f];
    assert r[|fs|] == f && forall k :: 0 <= k < |fs| ==> r[k] == fs[k];
    forall id ensures Place(h, r, id) == PlaceAfterAppend(h, fs, f, id) {
      var i, j := Place(h, fs, id), Place(h, r, id);
      assert j < |fs| ==> r[j] == fs[j];
      assert i < j || j < i || i == j;
    }
  }

  /** Ids become distinct, none is lost, and an id is publishable exactly when some finding that
      had it was. */
  lemma {:induction false} CanonicalIds(h: Hasher, fs: seq<Finding>)
    ensures DistinctIds(h, Canonical(h, fs))
    ensures forall id :: HasId(h, Canonical(h, fs), id) <==> HasId(h, fs, id)
    decreases |fs|
  {
    if fs != [] {
      var n := |fs| - 1;
      var out := Canonical(h, fs[..n]);
      CanonicalIds(h, fs[..n]);
      AppendPlaces(h, fs[..n], fs[n]);
      assert fs[..n] + [fs[n]] == fs;
      if HasId(h, out, fs[n].IdBy(h)) {
        SameIdsSamePlaces(h, out, Canonical(h, fs));
      } else {
        AppendPlaces(h, out, fs[n]);
      }
    }
  }

  ghost predicate PublishableId(h: Hasher, fs: seq<Finding>, id: Id) {
    exists k :: 0 <= k < |fs| && fs[k].Publishable() && fs[k].IdBy(h) == id
  }

  /** A fresh acceptance under an id is never lost to an unaccepted finding with that id. */
  lemma {:induction false} CanonicalKeepsAccepted(h: Hasher, fs: seq<Finding>, id: Id)
    ensures PublishableId(h, Canonical(h, fs), id) <==> PublishableId(h, fs, id)
  {
    if fs != [] {
      var n := |fs| - 1;
      var out, f := Canonical(h, fs[..n]), fs[n];
      CanonicalKeepsAccepted(h, fs[..n], id);
      CanonicalIds(h, fs[..n]);
      assert fs[..n] + [f] == fs;
      PublishableAppend(h, fs[..n], f, id);
      var i := Place(h, out, f.IdBy(h));
      if i < |out| {
        PublishableMerge(h, out, i, f, id);
      } else {
        PublishableAppend(h, out, f, id);
      }
    }
  }

  /** No evidence and no source is lost: the finding that stands for an id has those of every finding
      with that id. */
  lemma {:induction false} CanonicalKeepsEvidence(h: Hasher, fs: seq<Finding>, k: nat)
    requires k < |fs|
    ensures var out, i := Canonical(h, fs), Place(h, Canonical(h, fs), fs[k].IdBy(h));
      i < |out| && Includes(out[i], fs[k])
    decreases |fs|
  {
    CanonicalPlaces(h, fs, fs[k].IdBy(h));
    if k < |fs| - 1 {
      CanonicalKeepsEvidence(h, fs[..|fs| - 1], k);
      StillIncludes(h, fs, k);
    }
  }

  lemma StillIncludes(h: Hasher, fs: seq<Finding>, k: nat)
    requires k < |fs| - 1
    requires var before := Canonical(h, fs[..|fs| - 1]);
      var i := Place(h, before, fs[k].IdBy(h)); i < |before| && Includes(before[i], fs[k])
    ensures var out := Canonical(h, fs);
      var i := Place(h, out, fs[k].IdBy(h)); i < |out| && Includes(out[i], fs[k])
  {
    var before, out := Canonical(h, fs[..|fs| - 1]), Canonical(h, fs);
    var i := Place(h, before, fs[k].IdBy(h));
    CanonicalPlaces(h, fs, fs[k].IdBy(h));
    IncludesMore(out[i], before[i], fs[k]);
  }

  lemma IncludesMore(a: Finding, b: Finding, c: Finding)
    requires Includes(a, b) && Includes(b, c)
    ensures Includes(a, c)
  {
  }

  ghost predicate Includes(o: Finding, f: Finding) {
    (forall e <- f.evidence :: e in o.evidence) && (forall s <- f.sources :: s in o.sources)
  }

  /** One more finding leaves every other id's finding where and as it was, and puts its own either in
      its id's place or at the end. */
  lemma CanonicalPlaces(h: Hasher, fs: seq<Finding>, id: Id)
    requires fs != []
    ensures var before, out, f := Canonical(h, fs[..|fs| - 1]), Canonical(h, fs), fs[|fs| - 1];
      var i := Place(h, before, id);
      && (i < |before| ==> Place(h, out, id) == i && Includes(out[i], before[i]))
      && (i < |before| && id == f.IdBy(h) ==> Includes(out[i], f))
      && (i == |before| && id == f.IdBy(h) ==> Place(h, out, id) == i < |out| && out[i] == f)
      && (i == |before| && id != f.IdBy(h) ==> Place(h, out, id) == |out|)
      && (i < |before| ==> out[i] == if id == f.IdBy(h) then MergeSame(before[i], f) else before[i])
  {
    var before, out, f := Canonical(h, fs[..|fs| - 1]), Canonical(h, fs), fs[|fs| - 1];
    if HasId(h, before, f.IdBy(h)) {
      SameIdsSamePlaces(h, before, out);
    } else {
      AppendPlaces(h, before, f);
    }
  }

  // ---- what stands for an id ----

  /** The findings with this id, in order. */
  ghost function ById(h: Hasher, fs: seq<Finding>, id: Id): seq<Finding> {
    if fs == [] then []
    else ById(h, fs[..|fs| - 1], id) + if fs[|fs| - 1].IdBy(h) == id then [fs[|fs| - 1]] else []
  }

  /** `o` is the `k`-th of the group but for its category, evidence and sources: the first publishable one,
      or the first one if none is. */
  ghost predicate KeptAt(g: seq<Finding>, o: Finding, k: int) {
    && 0 <= k < |g| && o == g[k].(category := o.category, evidence := o.evidence, sources := o.sources)
    && (forall j :: 0 <= j < k ==> !g[j].Publishable())
    && (!g[k].Publishable() ==> k == 0 && forall j :: 0 <= j < |g| ==> !g[j].Publishable())
    && (g[k].category != "" ==> o.category == g[k].category)
  }

  /** The category comes from the group, and is empty only if all are. */
  ghost predicate CategoryOf(g: seq<Finding>, o: Finding) {
    && (exists k :: 0 <= k < |g| && o.category == g[k].category)
    && (o.category == "" ==> forall k :: 0 <= k < |g| ==> g[k].category == "")
  }

  /** Evidence and sources of the group, and no others. */
  ghost predicate Pooled(g: seq<Finding>, o: Finding) {
    && (forall e :: e in o.evidence <==> exists k :: 0 <= k < |g| && e in g[k].evidence)
    && (forall s :: s in o.sources <==> exists k :: 0 <= k < |g| && s in g[k].sources)
  }

  ghost predicate StandsForAll(g: seq<Finding>, o: Finding) {
    && (exists k :: KeptAt(g, o, k)) && CategoryOf(g, o) && Pooled(g, o)
  }

  lemma KeepOne(g: seq<Finding>, o: Finding, f: Finding, k: nat)
    requires KeptAt(g, o, k)
    ensures KeptAt(g + [f], MergeSame(o, f), if !o.Publishable() && f.Publishable() then |g| else k)
  {
    assert (g + [f])[k] == g[k] && (g + [f])[|g|] == f;
  }

  lemma CategoryMore(g: seq<Finding>, o: Finding, f: Finding)
    requires CategoryOf(g, o)
    ensures CategoryOf(g + [f], MergeSame(o, f))
  {
    var k :| 0 <= k < |g| && o.category == g[k].category;
    assert (g + [f])[k] == g[k] && (g + [f])[|g|] == f;
  }

  lemma PoolMore(g: seq<Finding>, o: Finding, f: Finding)
    requires Pooled(g, o)
    ensures Pooled(g + [f], MergeSame(o, f))
  {
    var l, r := g + [f], MergeSame(o, f);
    assert l[|g|] == f && forall k :: 0 <= k < |g| ==> l[k] == g[k];
    forall e ensures e in r.evidence <==> exists k :: 0 <= k < |l| && e in l[k].evidence {
      assert e in r.evidence <==> e in o.evidence || e in f.evidence;
    }
    forall s ensures s in r.sources <==> exists k :: 0 <= k < |l| && s in l[k].sources {
      assert s in r.sources <==> s in o.sources || s in f.sources;
    }
  }

  lemma StandsForMore(g: seq<Finding>, o: Finding, f: Finding)
    requires StandsForAll(g, o)
    ensures StandsForAll(g + [f], MergeSame(o, f))
  {
    var k :| KeptAt(g, o, k);
    KeepOne(g, o, f, k);
    CategoryMore(g, o, f);
    PoolMore(g, o, f);
  }

  lemma StandsForOne(f: Finding)
    ensures StandsForAll([f], f)
  {
    assert [f][0] == f && KeptAt([f], f, 0);
  }

  /** The finding of this id in `out` stands for all of `g`; there is none if `g` is empty. */
  ghost predicate Stands(h: Hasher, out: seq<Finding>, g: seq<Finding>, id: Id) {
    if g == [] then Place(h, out, id) == |out|
    else Place(h, out, id) < |out| && StandsForAll(g, out[Place(h, out, id)])
  }

  /** One finding stands for all those with its id. */
  lemma {:induction false} CanonicalExactly(h: Hasher, fs: seq<Finding>, id: Id)
    ensures Stands(h, Canonical(h, fs), ById(h, fs, id), id)
  {
    if fs != [] {
      CanonicalExactly(h, fs[..|fs| - 1], id);
      if id != fs[|fs| - 1].IdBy(h) { OtherStands(h, fs, id); }
      else if ById(h, fs[..|fs| - 1], id) == [] { FirstStands(h, fs, id); }
      else { NextStands(h, fs, id); }
    }
  }

  lemma OtherStands(h: Hasher, fs: seq<Finding>, id: Id)
    requires fs != [] && id != fs[|fs| - 1].IdBy(h)
    requires Stands(h, Canonical(h, fs[..|fs| - 1]), ById(h, fs[..|fs| - 1], id), id)
    ensures Stands(h, Canonical(h, fs), ById(h, fs, id), id)
  {
    CanonicalPlaces(h, fs, id);
    assert ById(h, fs, id) == ById(h, fs[..|fs| - 1], id);
  }

  lemma FirstStands(h: Hasher, fs: seq<Finding>, id: Id)
    requires fs != [] && id == fs[|fs| - 1].IdBy(h) && ById(h, fs[..|fs| - 1], id) == []
    requires Stands(h, Canonical(h, fs[..|fs| - 1]), [], id)
    ensures Stands(h, Canonical(h, fs), ById(h, fs, id), id)
  {
    CanonicalPlaces(h, fs, id);
    assert ById(h, fs, id) == [fs[|fs| - 1]];
    StandsForOne(fs[|fs| - 1]);
  }

  lemma NextStands(h: Hasher, fs: seq<Finding>, id: Id)
    requires fs != [] && id == fs[|fs| - 1].IdBy(h) && ById(h, fs[..|fs| - 1], id) != []
    requires Stands(h, Canonical(h, fs[..|fs| - 1]), ById(h, fs[..|fs| - 1], id), id)
    ensures Stands(h, Canonical(h, fs), ById(h, fs, id), id)
  {
    var before := Canonical(h, fs[..|fs| - 1]);
    CanonicalPlaces(h, fs, id);
    StandsForMore(ById(h, fs[..|fs| - 1], id), before[Place(h, before, id)], fs[|fs| - 1]);
  }

  /** The ids come in the order in which they first appear. */
  lemma {:induction false} CanonicalOrder(h: Hasher, fs: seq<Finding>, a: Id, b: Id)
    requires HasId(h, fs, a) && HasId(h, fs, b)
    ensures Place(h, Canonical(h, fs), a) < Place(h, Canonical(h, fs), b) <==> Place(h, fs, a) < Place(h, fs, b)
  {
    var n := |fs| - 1;
    assert fs[..n] + [fs[n]] == fs;
    AppendPlaces(h, fs[..n], fs[n]);
    CanonicalIds(h, fs[..n]);
    CanonicalPlaces(h, fs, a);
    CanonicalPlaces(h, fs, b);
    if HasId(h, fs[..n], a) && HasId(h, fs[..n], b) { CanonicalOrder(h, fs[..n], a, b); }
  }

  lemma PublishableAppend(h: Hasher, fs: seq<Finding>, f: Finding, id: Id)
    ensures PublishableId(h, fs + [f], id) <==> PublishableId(h, fs, id) || (f.Publishable() && f.IdBy(h) == id)
  {
    var r := fs + [f];
    if PublishableId(h, fs, id) {
      var k :| 0 <= k < |fs| && fs[k].Publishable() && fs[k].IdBy(h) == id;
      assert r[k] == fs[k];
    }
    assert r[|fs|] == f;
  }

  lemma PublishableMerge(h: Hasher, out: seq<Finding>, i: nat, f: Finding, id: Id)
    requires i < |out| && out[i].IdBy(h) == f.IdBy(h)
    ensures PublishableId(h, out[i := MergeSame(out[i], f)], id) <==>
      PublishableId(h, out, id) || (f.Publishable() && f.IdBy(h) == id)
  {
    var r := out[i := MergeSame(out[i], f)];
    assert r[i].Publishable() <==> out[i].Publishable() || f.Publishable();
    assert r[i].IdBy(h) == out[i].IdBy(h);
    if PublishableId(h, out, id) {
      var k :| 0 <= k < |out| && out[k].Publishable() && out[k].IdBy(h) == id;
      assert r[k].Publishable() && r[k].IdBy(h) == id;
    }
    if PublishableId(h, r, id) {
      var k :| 0 <= k < |r| && r[k].Publishable() && r[k].IdBy(h) == id;
      assert k != i ==> out[k] == r[k];
    }
  }
}
