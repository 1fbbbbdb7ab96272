/** Findings, and collapsing the candidates of several investigators (src/findings.rs). */
module Findings {
  import opened Wrappers
  import opened EvidenceRefs

  type Id = string

  /** How an id is derived from a file and a defect key; nothing is assumed about it. */
  type Hasher = (string, string) -> Id

  datatype Severity = Low | Medium | High {
    function Rank(): nat { match this case Low => 0 case Medium => 1 case High => 2 }
  }

  datatype Verdict = Accepted | Rejected | Uncertain

  datatype Finding = Finding(defectKey: string, category: string, duplicateOf: Option<Id>, severity: Severity,
                             file: string, startLine: nat, endLine: Option<nat>, title: string, claim: string,
                             evidence: seq<Evidence>, verdict: Option<Verdict>, suggestedFix: Option<string>,
                             source: string, sources: seq<string>)
  {
    function IdBy(h: Hasher): Id { h(file, defectKey) }

    function End(): nat { if endLine.Some? then endLine.value else startLine }

    predicate Publishable() { verdict == Some(Accepted) && duplicateOf == None }
  }

  predicate LinesOverlap(a: Finding, b: Finding) {
    a.startLine <= b.End() && b.startLine <= a.End()
  }

  function Shared(a: seq<string>, b: seq<string>): nat {
    if a == [] then 0 else (if a[0] in b then 1 else 0) + Shared(a[1..], b)
  }

  /** At least 60% of the longer title's words are shared. */
  predicate TitlesSimilar(a: seq<string>, b: seq<string>) {
    a != [] && b != [] && 5 * Shared(a, b) >= 3 * (if |a| > |b| then |a| else |b|)
  }

  /** `words` splits a title into its normalized words. */
  predicate Duplicates(words: string -> seq<string>, o: Finding, c: Finding) {
    o.file == c.file &&
    (o.defectKey == c.defectKey || (LinesOverlap(o, c) && TitlesSimilar(words(o.title), words(c.title))))
  }

  /** Position of the first element of `out` that `c` duplicates, `|out|` if there is none. */
  function DuplicateIn(words: string -> seq<string>, out: seq<Finding>, c: Finding): (i: nat)
    ensures i <= |out|
    ensures i < |out| ==> Duplicates(words, out[i], c)
    ensures forall j :: 0 <= j < i ==> !Duplicates(words, out[j], c)
  {
    if out == [] || Duplicates(words, out[0], c) then 0 else 1 + DuplicateIn(words, out[1..], c)
  }

  predicate SameEvidence(a: Evidence, b: Evidence) {
    a.path == b.path && a.startLine == b.startLine && a.note == b.note
  }

  predicate HasEvidence(es: seq<Evidence>, e: Evidence) {
    exists x :: x in es && SameEvidence(x, e)
  }

  function AddEvidence(had: seq<Evidence>, more: seq<Evidence>): (r: seq<Evidence>)
    ensures had <= r
    ensures forall e :: e in more ==> HasEvidence(r, e)
    decreases |more|
  {
    if more == [] then had
    else
      var next := if HasEvidence(had, more[0]) then had else had + [more[0]];
      var r := AddEvidence(next, more[1..]);
      assert HasEvidence(next, more[0]) by {
        if next != had { assert SameEvidence(next[|had|], more[0]); }
      }
      MoreEvidence(next, r, more[0]);
      r
  }

  lemma MoreEvidence(few: seq<Evidence>, many: seq<Evidence>, e: Evidence)
    requires few <= many && HasEvidence(few, e)
    ensures HasEvidence(many, e)
  {
    var x :| x in few && SameEvidence(x, e);
    assert x in many;
  }

  function AddSources(had: seq<string>, more: seq<string>): (r: seq<string>)
    ensures had <= r
    ensures forall s :: s in r <==> s in had || s in more
    decreases |more|
  {
    if more == [] then had
    else AddSources(if more[0] in had then had else had + [more[0]], more[1..])
  }

  /** Nothing is added that is there already. */
  lemma {:induction false} EvidenceOnce(had: seq<Evidence>, more: seq<Evidence>, j: nat)
    requires |had| <= j < |AddEvidence(had, more)|
    ensures forall x <- AddEvidence(had, more)[..j] :: var e := AddEvidence(had, more)[j];
      x.path != e.path || x.startLine != e.startLine || x.note != e.note
    decreases |more|
  {
    var r := AddEvidence(had, more);
    var next := if HasEvidence(had, more[0]) then had else had + [more[0]];
    if j >= |next| {
      EvidenceOnce(next, more[1..], j);
    } else {
      assert r[..j] == had && r[j] == next[j] == more[0];
      forall x | x in had ensures !SameEvidence(x, more[0]) { assert !HasEvidence(had, more[0]); }
    }
  }

  lemma {:induction false} SourcesOnce(had: seq<string>, more: seq<string>, j: nat)
    requires |had| <= j < |AddSources(had, more)|
    ensures AddSources(had, more)[j] !in AddSources(had, more)[..j]
    decreases |more|
  {
    var r := AddSources(had, more);
    var next := if more[0] in had then had else had + [more[0]];
    if j >= |next| {
      SourcesOnce(next, more[1..], j);
    } else {
      assert r[..j] == had && r[j] == next[j] == more[0];
    }
  }

  /** A candidate lists its own source. */
  function WithSource(c: Finding): Finding {
    if c.source != "" && c.source !in c.sources then c.(sources := c.sources + [c.source]) else c
  }

  function Merge(o: Finding, c: Finding): Finding {
    o.(category := if o.category == "" then c.category else o.category,
       severity := if c.severity.Rank() > o.severity.Rank() then c.severity else o.severity,
       evidence := AddEvidence(o.evidence, c.evidence),
       sources := AddSources(o.sources, c.sources),
       claim := if |c.claim| > |o.claim| then c.claim else o.claim,
       suggestedFix := if o.suggestedFix.None? then c.suggestedFix else o.suggestedFix)
  }

  function Absorb(words: string -> seq<string>, out: seq<Finding>, c: Finding): seq<Finding> {
    var w := WithSource(c);
    var i := DuplicateIn(words, out, w);
    if i < |out| then out[i := Merge(out[i], w)] else out + [w]
  }

  function Collapsed(words: string -> seq<string>, cs: seq<Finding>): seq<Finding> {
    if cs == [] then [] else Absorb(words, Collapsed(words, cs[..|cs| - 1]), cs[|cs| - 1])
  }

  method Collapse(words: string -> seq<string>, candidates: seq<Finding>) returns (out: seq<Finding>)
    ensures out == Collapsed(words, candidates)
  {
    out := [];
    for k := 0 to |candidates|
      invariant out == Collapsed(words, candidates[..k])
    {
      var c := WithSource(candidates[k]);
      var dup := DuplicateIn(words, out, c);
      if dup < |out| {
        out := out[dup := Merge(out[dup], c)];
      } else {
        out := out + [c];
      }
      assert candidates[..k + 1][..k] == candidates[..k];
    }
    assert candidates[..|candidates|] == candidates;
  }

  /** No later element duplicates an earlier one. */
  ghost predicate DuplicateFree(words: string -> seq<string>, out: seq<Finding>) {
    forall i, j :: 0 <= i < j < |out| ==> !Duplicates(words, out[i], out[j])
  }

  ghost predicate Normalized(out: seq<Finding>) {
    forall k :: 0 <= k < |out| ==> out[k].source == "" || out[k].source in out[k].sources
  }

  /** What makes two findings duplicates never changes in a merge. */
  lemma MergeKeepsPlace(words: string -> seq<string>, o: Finding, c: Finding, x: Finding)
    ensures Duplicates(words, Merge(o, c), x) == Duplicates(words, o, x)
    ensures Duplicates(words, x, Merge(o, c)) == Duplicates(words, x, o)
  {
  }

  lemma {:induction false} CollapsedIsDuplicateFree(words: string -> seq<string>, cs: seq<Finding>)
    ensures DuplicateFree(words, Collapsed(words, cs)) && Normalized(Collapsed(words, cs))
  {
    if cs != [] {
      CollapsedIsDuplicateFree(words, cs[..|cs| - 1]);
      AbsorbKeepsDuplicateFree(words, Collapsed(words, cs[..|cs| - 1]), cs[|cs| - 1]);
    }
  }

  lemma AbsorbKeepsDuplicateFree(words: string -> seq<string>, out: seq<Finding>, c: Finding)
    requires DuplicateFree(words, out) && Normalized(out)
    ensures DuplicateFree(words, Absorb(words, out, c)) && Normalized(Absorb(words, out, c))
  {
    var w := WithSource(c);
    var i := DuplicateIn(words, out, w);
    if i < |out| {
      forall x: Finding ensures Duplicates(words, Merge(out[i], w), x) == Duplicates(words, out[i], x)
        && Duplicates(words, x, Merge(out[i], w)) == Duplicates(words, x, out[i])
      {
        MergeKeepsPlace(words, out[i], w, x);
      }
    }
  }

  /** `o` stands for `c`: same file, at least the severity, all sources and all evidence. */
  ghost predicate StandsFor(o: Finding, c: Finding) {
    && o.file == c.file
    && c.severity.Rank() <= o.severity.Rank()
    && (forall s :: s in WithSource(c).sources ==> s in o.sources)
    && (forall e :: e in c.evidence ==> HasEvidence(o.evidence, e))
  }

  ghost predicate Represented(out: seq<Finding>, c: Finding) {
    exists k :: 0 <= k < |out| && StandsFor(out[k], c)
  }

  lemma MergeStandsFor(o: Finding, w: Finding, c: Finding)
    requires StandsFor(o, c)
    ensures StandsFor(Merge(o, w), c)
  {
    var r := AddEvidence(o.evidence, w.evidence);
    forall e | e in c.evidence ensures HasEvidence(r, e) {
      MoreEvidence(o.evidence, r, e);
    }
  }

  lemma MergedStandsFor(o: Finding, c: Finding)
    requires o.file == c.file
    ensures StandsFor(Merge(o, WithSource(c)), c)
    ensures StandsFor(WithSource(c), c)
  {
    assert forall e: Evidence :: SameEvidence(e, e);
  }

  lemma AbsorbRepresents(words: string -> seq<string>, out: seq<Finding>, c: Finding)
    ensures Represented(Absorb(words, out, c), c)
  {
    var w := WithSource(c);
    var i := DuplicateIn(words, out, w);
    MergedStandsFor(if i < |out| then out[i] else w, c);
    assert StandsFor(Absorb(words, out, c)[i], c);
  }

  lemma AbsorbStillRepresents(words: string -> seq<string>, out: seq<Finding>, c: Finding, x: Finding)
    requires Represented(out, x)
    ensures Represented(Absorb(words, out, c), x)
  {
    var w := WithSource(c);
    var i := DuplicateIn(words, out, w);
    var j :| 0 <= j < |out| && StandsFor(out[j], x);
    if j == i { MergeStandsFor(out[j], w, x); }
    assert StandsFor(Absorb(words, out, c)[j], x);
  }

  /** No candidate is lost: some element of the result stands for each. */
  lemma {:induction false} CollapsedRepresents(words: string -> seq<string>, cs: seq<Finding>, k: nat)
    requires k < |cs|
    ensures Represented(Collapsed(words, cs), cs[k])
    decreases |cs|
  {
    var n := |cs| - 1;
    var out := Collapsed(words, cs[..n]);
    if k == n {
      AbsorbRepresents(words, out, cs[n]);
    } else {
      CollapsedRepresents(words, cs[..n], k);
      AbsorbStillRepresents(words, out, cs[n], cs[k]);
    }
  }

  lemma {:induction false} CollapseSettled(words: string -> seq<string>, out: seq<Finding>)
    requires DuplicateFree(words, out) && Normalized(out)
    ensures Collapsed(words, out) == out
  {
    if out != [] {
      var n := |out| - 1;
      CollapseSettled(words, out[..n]);
      assert WithSource(out[n]) == out[n];
      assert DuplicateIn(words, out[..n], out[n]) == n;
      assert out[..n] + [out[n]] == out;
    }
  }

  /** Collapsing twice is collapsing once. */
  lemma CollapseIdempotent(words: string -> seq<string>, cs: seq<Finding>)
    ensures Collapsed(words, Collapsed(words, cs)) == Collapsed(words, cs)
  {
    CollapsedIsDuplicateFree(words, cs);
    CollapseSettled(words, Collapsed(words, cs));
  }
}
