/** Cutting a rendered diff to a byte budget, whole files at a time (src/diff.rs). The priority of a
    path is an arbitrary number. */
module DiffBudget {
  import opened TextOps
  import opened UnifiedDiff
  import opened Budgeting
  import opened Places

  /** The length of a character in UTF-8. */
  function CharBytes(c: char): nat {
    if c as nat < 0x80 then 1 else if c as nat < 0x800 then 2 else if c as nat < 0x1_0000 then 3 else 4
  }

  function Bytes(s: string): nat {
    if s == "" then 0 else CharBytes(s[0]) + Bytes(s[1..])
  }

  /** A text takes a byte for every character, another for each beyond seven bits, another for each beyond
      eleven bits, and another for each beyond sixteen. */
  lemma {:induction false} BytesCount(s: string)
    ensures Bytes(s) == |s| + Beyond(s, 0x80) + Beyond(s, 0x800) + Beyond(s, 0x1_0000)
  {
    if s != "" { BytesCount(s[1..]); }
  }

  ghost function Beyond(s: string, bound: nat): nat {
    if s == "" then 0 else (if s[0] as nat >= bound then 1 else 0) + Beyond(s[1..], bound)
  }

  lemma {:induction false} BytesAppend(a: string, b: string)
    ensures Bytes(a + b) == Bytes(a) + Bytes(b)
  {
    if a == "" {
      assert a + b == b;
    } else {
      assert (a + b)[1..] == a[1..] + b;
      BytesAppend(a[1..], b);
    }
  }

  const NOTE := "[file diff omitted: exceeds max_diff_bytes; hunks still available through diff_context]\n"

  /** What a file contributes to the text: its rendering or, in its place, a note. */
  datatype Part = Part(path: string, whole: string, note: string)

  function PartOf(f: FileDiff): Part {
    Part(f.newPath, Joined(FileLines(f)), FileHeader(f) + "\n" + NOTE)
  }

  function Parts(d: DiffSet): (r: seq<Part>)
    ensures |r| == |d| && forall i :: 0 <= i < |d| ==> r[i] == PartOf(d[i])
  {
    if d == [] then [] else [PartOf(d[0])] + Parts(d[1..])
  }

  function Keys(parts: seq<Part>, priority: string -> nat): (r: seq<nat>)
    ensures |r| == |parts| && forall i :: 0 <= i < |parts| ==> r[i] == priority(parts[i].path)
  {
    if parts == [] then [] else [priority(parts[0].path)] + Keys(parts[1..], priority)
  }

  function PartOrder(parts: seq<Part>, priority: string -> nat): (r: seq<nat>)
    ensures |r| == |parts| && forall x: nat :: x in r <==> x < |parts|
  {
    Order(Keys(parts, priority), |parts|)
  }

  function Sizing(parts: seq<Part>): (z: Sizes)
    ensures Sized(z, |parts|)
    ensures forall i :: 0 <= i < |parts| ==> z.whole[i] == Bytes(parts[i].whole) && z.note[i] == Bytes(parts[i].note)
  {
    if parts == [] then Sizes([], [])
    else
      var z := Sizing(parts[1..]);
      Sizes([Bytes(parts[0].whole)] + z.whole, [Bytes(parts[0].note)] + z.note)
  }

  /** The positions of the parts that are kept whole. */
  function Chosen(parts: seq<Part>, priority: string -> nat, max: nat): set<nat> {
    Spend(Sizing(parts), PartOrder(parts, priority), max).chosen
  }

  method SelectedFiles(d: DiffSet, priority: string -> nat, max: nat) returns (selected: seq<bool>)
    ensures |selected| == |d|
    ensures forall i :: 0 <= i < |d| ==> (selected[i] <==> i in Chosen(Parts(d), priority, max))
  {
    var order := PartOrder(Parts(d), priority);
    selected := SelectInOrder(d, order, max, Parts(d), Sizing(Parts(d)));
  }

  /** The loop over the sorted files. */
  method SelectInOrder(d: DiffSet, order: seq<nat>, max: nat, ghost parts: seq<Part>, ghost z: Sizes)
    returns (selected: seq<bool>)
    requires |parts| == |d| && forall i :: 0 <= i < |d| ==> parts[i] == PartOf(d[i])
    requires Sized(z, |d|) && Below(order, |d|)
    requires forall i :: 0 <= i < |d| ==> z.whole[i] == Bytes(parts[i].whole) && z.note[i] == Bytes(parts[i].note)
    ensures |selected| == |d|
    ensures forall i :: 0 <= i < |d| ==> (selected[i] <==> i in Spend(z, order, max).chosen)
  {
    selected := seq(|d|, i => false);
    var used := 0;
    ghost var b := Budget({}, 0);
    for k := 0 to |order|
      invariant |selected| == |d| && Below(order[..k], |d|)
      invariant b == Spend(z, order[..k], max) && used == b.used
      invariant forall i :: 0 <= i < |d| ==> (selected[i] <==> i in b.chosen)
    {
      SpendStep(z, order, max, k);
      b := Take(z, b, order[k], max);
      var fits, cost := Charge(d[order[k]], used, max, parts[order[k]]);
      if fits { selected := selected[order[k] := true]; }
      used := used + cost;
    }
    assert order[..|order|] == order;
  }

  /** What a file is charged at its turn. */
  method Charge(f: FileDiff, used: nat, max: nat, ghost part: Part) returns (fits: bool, cost: nat)
    requires part == PartOf(f)
    ensures fits == (used + Bytes(part.whole) <= max)
    ensures cost == Bytes(if fits then part.whole else part.note)
  {
    var text := RenderFile(f);
    fits := used + Bytes(text) <= max;
    cost := if fits then Bytes(text) else Bytes(FileHeader(f) + "\n" + NOTE);
  }

  /** One string after another. */
  function Concat(pieces: seq<string>): string {
    if pieces == [] then "" else pieces[0] + Concat(pieces[1..])
  }

  lemma {:induction false} ConcatLast(pieces: seq<string>, p: string)
    ensures Concat(pieces + [p]) == Concat(pieces) + p
  {
    if pieces == [] {
      assert pieces + [p] == [p] && [p][1..] == [];
      assert p + "" == p;
    } else {
      assert (pieces + [p])[1..] == pieces[1..] + [p];
      ConcatLast(pieces[1..], p);
      assert pieces[0] + (Concat(pieces[1..]) + p) == pieces[0] + Concat(pieces[1..]) + p;
    }
  }

  lemma ConcatStep(pieces: seq<string>, i: nat)
    requires i < |pieces|
    ensures Concat(pieces[..i + 1]) == Concat(pieces[..i]) + pieces[i]
  {
    assert pieces[..i + 1] == pieces[..i] + [pieces[i]];
    ConcatLast(pieces[..i], pieces[i]);
  }

  /** Each part whole or replaced by its note. */
  function Pieces(parts: seq<Part>, chosen: set<nat>): (r: seq<string>)
    ensures |r| == |parts|
  {
    seq(|parts|, i requires 0 <= i < |parts| => if i in chosen then parts[i].whole else parts[i].note)
  }

  /** The paths of the first `n` parts that are not chosen. */
  function Omitted(parts: seq<Part>, chosen: set<nat>, n: nat): seq<string>
    requires n <= |parts|
  {
    if n == 0 then []
    else Omitted(parts, chosen, n - 1) + if n - 1 in chosen then [] else [parts[n - 1].path]
  }

  method PieceOf(f: FileDiff, whole: bool, ghost part: Part) returns (piece: string)
    requires part == PartOf(f)
    ensures piece == if whole then part.whole else part.note
  {
    if whole { piece := RenderFile(f); } else { piece := FileHeader(f) + "\n" + NOTE; }
  }

  method RenderTruncated(d: DiffSet, priority: string -> nat, max: nat) returns (s: string)
    ensures s == Concat(Pieces(Parts(d), Chosen(Parts(d), priority, max)))
  {
    var selected := SelectedFiles(d, priority, max);
    s := WritePieces(d, selected, Parts(d), Chosen(Parts(d), priority, max));
  }

  method WritePieces(d: DiffSet, selected: seq<bool>, ghost parts: seq<Part>,
                     ghost chosen: set<nat>) returns (s: string)
    requires |parts| == |d| == |selected| && forall i :: 0 <= i < |d| ==> parts[i] == PartOf(d[i])
    requires forall i :: 0 <= i < |d| ==> (selected[i] <==> i in chosen)
    ensures s == Concat(Pieces(parts, chosen))
  {
    ghost var pieces := Pieces(parts, chosen);
    s := "";
    for i := 0 to |d|
      invariant s == Concat(pieces[..i])
    {
      var piece := PieceOf(d[i], selected[i], parts[i]);
      s := s + piece;
      ConcatStep(pieces, i);
    }
    assert pieces[..|d|] == pieces;
  }

  method OmittedFiles(d: DiffSet, priority: string -> nat, max: nat) returns (paths: seq<string>)
    ensures paths == Omitted(Parts(d), Chosen(Parts(d), priority, max), |d|)
  {
    var selected := SelectedFiles(d, priority, max);
    paths := ListOmitted(d, selected, Parts(d), Chosen(Parts(d), priority, max));
  }

  method ListOmitted(d: DiffSet, selected: seq<bool>, ghost parts: seq<Part>, ghost chosen: set<nat>)
    returns (paths: seq<string>)
    requires |parts| == |d| == |selected| && forall i :: 0 <= i < |d| ==> parts[i].path == d[i].newPath
    requires forall i :: 0 <= i < |d| ==> (selected[i] <==> i in chosen)
    ensures paths == Omitted(parts, chosen, |d|)
  {
    paths := [];
    for i := 0 to |d|
      invariant paths == Omitted(parts, chosen, i)
    {
      if !selected[i] { paths := paths + [d[i].newPath]; }
    }
  }

  // ---- what the selection guarantees ----

  ghost function Lengths(pieces: seq<string>): (r: seq<nat>)
    ensures |r| == |pieces| && forall i :: 0 <= i < |pieces| ==> r[i] == Bytes(pieces[i])
  {
    seq(|pieces|, i requires 0 <= i < |pieces| => Bytes(pieces[i]))
  }

  lemma {:induction false} SumToSame(a: seq<nat>, b: seq<nat>, n: nat)
    requires n <= |a| && n <= |b| && a[..n] == b[..n]
    ensures SumTo(a, n) == SumTo(b, n)
  {
    if n > 0 {
      assert a[..n - 1] == a[..n][..n - 1] && a[n - 1] == a[..n][n - 1];
      assert b[..n - 1] == b[..n][..n - 1] && b[n - 1] == b[..n][n - 1];
      SumToSame(a, b, n - 1);
    }
  }

  lemma {:induction false} BytesConcat(pieces: seq<string>)
    ensures Bytes(Concat(pieces)) == SumTo(Lengths(pieces), |pieces|)
  {
    if pieces != [] {
      var n := |pieces| - 1;
      var front := pieces[..n];
      BytesConcat(front);
      assert pieces == front + [pieces[n]];
      ConcatLast(front, pieces[n]);
      BytesAppend(Concat(front), pieces[n]);
      assert Lengths(front) == Lengths(pieces)[..n];
      SumToSame(Lengths(front), Lengths(pieces), n);
    }
  }

  lemma PartOrderIs(parts: seq<Part>, priority: string -> nat)
    ensures Stable(Keys(parts, priority), PartOrder(parts, priority)) && Distinct(PartOrder(parts, priority))
  {
    OrderIsStable(Keys(parts, priority), |parts|);
    StableIsDistinct(Keys(parts, priority), PartOrder(parts, priority));
  }

  /** The length of the truncated text is what the selection reckoned, although the selection goes by
      priority and the text by position; and the parts kept whole fit the budget. */
  lemma TruncatedLength(parts: seq<Part>, priority: string -> nat, max: nat)
    ensures var chosen := Chosen(parts, priority, max);
      && Bytes(Concat(Pieces(parts, chosen))) == Spend(Sizing(parts), PartOrder(parts, priority), max).used
      && SumTo(WholeCosts(Sizing(parts), chosen), |parts|) <= max
  {
    var chosen, keys, z := Chosen(parts, priority, max), Keys(parts, priority), Sizing(parts);
    PartOrderIs(parts, priority);
    UsedIsWritten(z, PartOrder(parts, priority), max);
    SumOrder(PieceCosts(z, chosen), keys, |parts|);
    SumOrder(WholeCosts(z, chosen), keys, |parts|);
    BytesConcat(Pieces(parts, chosen));
    assert Lengths(Pieces(parts, chosen)) == PieceCosts(z, chosen);
  }

  /** A part is kept whole exactly when it still fits at its turn. */
  lemma FitsAtTurn(parts: seq<Part>, priority: string -> nat, max: nat, i: nat)
    requires i < |parts|
    ensures i in Chosen(parts, priority, max) <==>
      UsedBefore(Sizing(parts), PartOrder(parts, priority), max, i) + Bytes(parts[i].whole) <= max
  {
    PartOrderIs(parts, priority);
    ChosenAtTurn(Sizing(parts), PartOrder(parts, priority), max, i);
  }

  /** Whether a part is kept depends only on itself and the parts before it by priority and then
      position: other parts in the later places change nothing. */
  lemma DependsOnEarlier(parts: seq<Part>, others: seq<Part>, priority: string -> nat, max: nat, i: nat)
    requires |parts| == |others| && Keys(parts, priority) == Keys(others, priority) && i < |parts|
    requires parts[i] == others[i]
    requires forall w: nat :: w < |parts| && Precedes(Keys(parts, priority), w, i) ==> parts[w] == others[w]
    ensures i in Chosen(parts, priority, max) <==> i in Chosen(others, priority, max)
  {
    FitsAtTurn(parts, priority, max, i);
    FitsAtTurn(others, priority, max, i);
    SameBefore(parts, others, priority, max, i);
  }

  lemma SameBefore(parts: seq<Part>, others: seq<Part>, priority: string -> nat, max: nat, i: nat)
    requires |parts| == |others| && Keys(parts, priority) == Keys(others, priority) && i < |parts|
    requires forall w: nat :: w < |parts| && Precedes(Keys(parts, priority), w, i) ==> parts[w] == others[w]
    ensures UsedBefore(Sizing(parts), PartOrder(parts, priority), max, i)
      == UsedBefore(Sizing(others), PartOrder(others, priority), max, i)
  {
    var keys, order := Keys(parts, priority), PartOrder(parts, priority);
    PartOrderIs(parts, priority);
    forall w | w in order && Precedes(keys, w, i)
      ensures Sizing(parts).whole[w] == Sizing(others).whole[w] && Sizing(parts).note[w] == Sizing(others).note[w]
    {
      assert parts[w] == others[w];
    }
    UsedBeforeSame(keys, Sizing(parts), Sizing(others), order, max, i);
  }

  // ---- when nothing is lost ----

  ghost predicate AllOf(chosen: set<nat>, n: nat) {
    forall i: nat :: i < n ==> i in chosen
  }

  /** Every part whole. */
  ghost function Wholes(parts: seq<Part>): (r: seq<string>)
    ensures |r| == |parts| && forall i :: 0 <= i < |parts| ==> r[i] == parts[i].whole
  {
    seq(|parts|, i requires 0 <= i < |parts| => parts[i].whole)
  }

  /** Rendering writes every part whole. */
  lemma {:induction false} RenderIsWhole(d: DiffSet)
    ensures Render(d) == Concat(Wholes(Parts(d)))
  {
    if d != [] {
      RenderIsWhole(d[1..]);
      JoinedAppend(FileLines(d[0]), AllLines(d[1..]));
      assert Wholes(Parts(d))[1..] == Wholes(Parts(d[1..]));
    }
  }

  lemma WholeBytes(parts: seq<Part>, priority: string -> nat)
    ensures Bytes(Concat(Wholes(parts))) == Sum(Sizing(parts).whole, PartOrder(parts, priority))
  {
    BytesConcat(Wholes(parts));
    assert Lengths(Wholes(parts)) == Sizing(parts).whole;
    SumOrder(Sizing(parts).whole, Keys(parts, priority), |parts|);
  }

  lemma PiecesWhole(parts: seq<Part>, chosen: set<nat>)
    requires AllOf(chosen, |parts|)
    ensures Pieces(parts, chosen) == Wholes(parts)
  {
  }

  lemma WholeWhenItFits(parts: seq<Part>, priority: string -> nat, max: nat)
    ensures AllOf(Chosen(parts, priority, max), |parts|) <==> Bytes(Concat(Wholes(parts))) <= max
    ensures AllOf(Chosen(parts, priority, max), |parts|) ==> Pieces(parts, Chosen(parts, priority, max)) == Wholes(parts)
  {
    var chosen := Chosen(parts, priority, max);
    PartOrderIs(parts, priority);
    WholeBytes(parts, priority);
    AllChosen(Sizing(parts), PartOrder(parts, priority), max);
    assert AllOf(chosen, |parts|) <==> forall x :: x in PartOrder(parts, priority) ==> x in chosen;
    if AllOf(chosen, |parts|) { PiecesWhole(parts, chosen); }
  }

  /** Nothing is left out, and the text is the plain rendering, exactly when that fits the budget. */
  lemma CompleteWhenItFits(d: DiffSet, priority: string -> nat, max: nat)
    ensures AllOf(Chosen(Parts(d), priority, max), |d|) <==> Bytes(Render(d)) <= max
    ensures Bytes(Render(d)) <= max ==> Concat(Pieces(Parts(d), Chosen(Parts(d), priority, max))) == Render(d)
  {
    RenderIsWhole(d);
    WholeWhenItFits(Parts(d), priority, max);
  }

  /** The omitted paths are those of the parts left out, in order, and with the parts kept they make
      up the set. */
  lemma {:induction false} OmittedAndChosen(parts: seq<Part>, chosen: set<nat>, n: nat)
    requires n <= |parts|
    ensures |Omitted(parts, chosen, n)| + |set i: nat | i < n && i in chosen| == n
    ensures forall i: nat :: i < n && i !in chosen ==> parts[i].path in Omitted(parts, chosen, n)
    ensures forall p :: p in Omitted(parts, chosen, n) ==> exists i: nat :: i < n && i !in chosen && parts[i].path == p
  {
    var had := set i: nat | i < n && i in chosen;
    if n > 0 {
      OmittedAndChosen(parts, chosen, n - 1);
      var before := set i: nat | i < n - 1 && i in chosen;
      assert had == before + if n - 1 in chosen then {n - 1} else {};
    } else {
      assert had == {};
    }
  }
}
