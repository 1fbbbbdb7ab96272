/** Choosing, in a stable order, which things to keep whole within a budget: everything else leaves a
    note, which is charged as well (src/diff.rs, `selected_files`). Positions stand for the things. */
module Budgeting {
  import opened Places

  // ---- the order things are considered in ----

  predicate Precedes(keys: seq<nat>, x: nat, y: nat)
    requires x < |keys| && y < |keys|
  {
    keys[x] < keys[y] || (keys[x] == keys[y] && x < y)
  }

  /** Ascending keys; equal keys in their original order. */
  ghost predicate Stable(keys: seq<nat>, o: seq<nat>)
    requires Below(o, |keys|)
    decreases |o|
  {
    o == [] || (Stable(keys, Front(o)) && forall x :: x in Front(o) ==> Precedes(keys, x, Last(o)))
  }

  ghost predicate Distinct(o: seq<nat>)
    decreases |o|
  {
    o == [] || (Distinct(Front(o)) && Last(o) !in Front(o))
  }

  function Insert(keys: seq<nat>, i: nat, o: seq<nat>): (r: seq<nat>)
    requires i < |keys| && Below(o, |keys|)
    ensures |r| == |o| + 1 && forall x :: x in r <==> x in o || x == i
    decreases |o|
  {
    if o == [] || keys[Last(o)] <= keys[i] then o + [i] else Insert(keys, i, Front(o)) + [Last(o)]
  }

  /** The first `n` positions, stably sorted by their keys. */
  function Order(keys: seq<nat>, n: nat): (r: seq<nat>)
    requires n <= |keys|
    ensures |r| == n && forall x: nat :: x in r <==> x < n
  {
    if n == 0 then [] else Insert(keys, n - 1, Order(keys, n - 1))
  }

  lemma {:induction false} InsertStable(keys: seq<nat>, i: nat, o: seq<nat>)
    requires i < |keys| && Below(o, i) && Stable(keys, o)
    ensures Stable(keys, Insert(keys, i, o))
    decreases |o|
  {
    if o == [] || keys[Last(o)] <= keys[i] {
      Unsnoc(o, i);
    } else {
      InsertStable(keys, i, Front(o));
      Unsnoc(Insert(keys, i, Front(o)), Last(o));
    }
  }

  lemma {:induction false} OrderIsStable(keys: seq<nat>, n: nat)
    requires n <= |keys|
    ensures Stable(keys, Order(keys, n))
  {
    if n > 0 {
      OrderIsStable(keys, n - 1);
      InsertStable(keys, n - 1, Order(keys, n - 1));
    }
  }

  lemma {:induction false} StableIsDistinct(keys: seq<nat>, o: seq<nat>)
    requires Below(o, |keys|) && Stable(keys, o)
    ensures Distinct(o)
    decreases |o|
  {
    if o != [] { StableIsDistinct(keys, Front(o)); }
  }

  // ---- spending the budget ----

  /** The size of each thing whole, and of the note in its place. */
  datatype Sizes = Sizes(whole: seq<nat>, note: seq<nat>)

  ghost predicate Sized(z: Sizes, n: nat) {
    |z.whole| == n && |z.note| == n
  }

  datatype Budget = Budget(chosen: set<nat>, used: nat)

  function Take(z: Sizes, b: Budget, i: nat, max: nat): Budget
    requires i < |z.whole| == |z.note|
  {
    if b.used + z.whole[i] <= max then Budget(b.chosen + {i}, b.used + z.whole[i])
    else Budget(b.chosen, b.used + z.note[i])
  }

  /** The budget after the things at `o`, in that order. */
  function Spend(z: Sizes, o: seq<nat>, max: nat): (b: Budget)
    requires Below(o, |z.whole|) && |z.whole| == |z.note|
    ensures forall i :: i in b.chosen ==> i in o
    decreases |o|
  {
    if o == [] then Budget({}, 0) else Take(z, Spend(z, Front(o), max), Last(o), max)
  }

  ghost function Sum(costs: seq<nat>, o: seq<nat>): nat
    requires Below(o, |costs|)
    decreases |o|
  {
    if o == [] then 0 else Sum(costs, Front(o)) + costs[Last(o)]
  }

  ghost function SumTo(costs: seq<nat>, n: nat): nat
    requires n <= |costs|
  {
    if n == 0 then 0 else SumTo(costs, n - 1) + costs[n - 1]
  }

  lemma {:induction false} SumInsert(costs: seq<nat>, keys: seq<nat>, i: nat, o: seq<nat>)
    requires |costs| == |keys| && i < |keys| && Below(o, |keys|)
    ensures Sum(costs, Insert(keys, i, o)) == Sum(costs, o) + costs[i]
    decreases |o|
  {
    if o == [] || keys[Last(o)] <= keys[i] {
      Unsnoc(o, i);
    } else {
      SumInsert(costs, keys, i, Front(o));
      Unsnoc(Insert(keys, i, Front(o)), Last(o));
    }
  }

  /** Sorting does not change a sum. */
  lemma {:induction false} SumOrder(costs: seq<nat>, keys: seq<nat>, n: nat)
    requires |costs| == |keys| && n <= |keys|
    ensures Sum(costs, Order(keys, n)) == SumTo(costs, n)
  {
    if n > 0 {
      var o := Order(keys, n - 1);
      SumOrder(costs, keys, n - 1);
      SumInsert(costs, keys, n - 1, o);
      assert Order(keys, n) == Insert(keys, n - 1, o);
    }
  }

  lemma {:induction false} SumSame(a: seq<nat>, b: seq<nat>, o: seq<nat>)
    requires |a| == |b| && Below(o, |a|)
    requires forall x :: x in o ==> a[x] == b[x]
    ensures Sum(a, o) == Sum(b, o)
    decreases |o|
  {
    if o != [] { SumSame(a, b, Front(o)); }
  }

  /** What each thing costs in the output. */
  ghost function PieceCosts(z: Sizes, chosen: set<nat>): (r: seq<nat>)
    requires |z.whole| == |z.note|
    ensures |r| == |z.whole|
  {
    seq(|z.whole|, i requires 0 <= i < |z.whole| => if i in chosen then z.whole[i] else z.note[i])
  }

  /** What the things kept whole cost. */
  ghost function WholeCosts(z: Sizes, chosen: set<nat>): (r: seq<nat>)
    ensures |r| == |z.whole|
  {
    seq(|z.whole|, i requires 0 <= i < |z.whole| => if i in chosen then z.whole[i] else 0)
  }

  /** What is used is what is written; what is written whole stays within the budget. */
  lemma {:induction false} UsedIsWritten(z: Sizes, o: seq<nat>, max: nat)
    requires Below(o, |z.whole|) && |z.whole| == |z.note| && Distinct(o)
    ensures var b := Spend(z, o, max);
      && b.used == Sum(PieceCosts(z, b.chosen), o)
      && Sum(WholeCosts(z, b.chosen), o) <= b.used
      && Sum(WholeCosts(z, b.chosen), o) <= max
    decreases |o|
  {
    if o != [] {
      var all, before := Spend(z, o, max).chosen, Spend(z, Front(o), max).chosen;
      UsedIsWritten(z, Front(o), max);
      SumSame(PieceCosts(z, all), PieceCosts(z, before), Front(o));
      SumSame(WholeCosts(z, all), WholeCosts(z, before), Front(o));
    }
  }

  /** What is used when the turn of `x` comes. */
  ghost function UsedBefore(z: Sizes, o: seq<nat>, max: nat, x: nat): nat
    requires Below(o, |z.whole|) && |z.whole| == |z.note| && x in o
    decreases |o|
  {
    if x == Last(o) then Spend(z, Front(o), max).used else UsedBefore(z, Front(o), max, x)
  }

  /** A thing is kept exactly when it still fits at its turn. */
  lemma {:induction false} ChosenAtTurn(z: Sizes, o: seq<nat>, max: nat, x: nat)
    requires Below(o, |z.whole|) && |z.whole| == |z.note| && Distinct(o) && x in o
    ensures x in Spend(z, o, max).chosen <==> UsedBefore(z, o, max, x) + z.whole[x] <= max
    decreases |o|
  {
    if x != Last(o) { ChosenAtTurn(z, Front(o), max, x); }
  }

  lemma {:induction false} SpendSame(y: Sizes, z: Sizes, o: seq<nat>, max: nat)
    requires Below(o, |y.whole|) && |y.whole| == |y.note| == |z.whole| == |z.note|
    requires forall x :: x in o ==> y.whole[x] == z.whole[x] && y.note[x] == z.note[x]
    ensures Spend(y, o, max) == Spend(z, o, max)
    decreases |o|
  {
    if o != [] { SpendSame(y, z, Front(o), max); }
  }

  /** Sizes that agree on everything that precedes `x` leave as much when its turn comes. */
  lemma {:induction false} UsedBeforeSame(keys: seq<nat>, y: Sizes, z: Sizes, o: seq<nat>, max: nat, x: nat)
    requires Below(o, |keys|) && |keys| == |y.whole| == |y.note| == |z.whole| == |z.note|
    requires Stable(keys, o) && x in o
    requires forall w :: w in o && Precedes(keys, w, x) ==> y.whole[w] == z.whole[w] && y.note[w] == z.note[w]
    ensures UsedBefore(y, o, max, x) == UsedBefore(z, o, max, x)
    decreases |o|
  {
    if x == Last(o) {
      SpendSame(y, z, Front(o), max);
    } else {
      UsedBeforeSame(keys, y, z, Front(o), max, x);
    }
  }

  /** Everything is kept exactly when everything together fits. */
  lemma {:induction false} AllChosen(z: Sizes, o: seq<nat>, max: nat)
    requires Below(o, |z.whole|) && |z.whole| == |z.note| && Distinct(o)
    ensures (forall x :: x in o ==> x in Spend(z, o, max).chosen) <==> Sum(z.whole, o) <= max
    ensures Sum(z.whole, o) <= max ==> Spend(z, o, max).used == Sum(z.whole, o)
    decreases |o|
  {
    if o != [] {
      AllChosen(z, Front(o), max);
      var b := Spend(z, Front(o), max);
      if forall x :: x in o ==> x in Spend(z, o, max).chosen {
        assert forall x :: x in Front(o) ==> x in b.chosen;
      }
    }
  }

  /** One more turn. */
  lemma SpendStep(z: Sizes, o: seq<nat>, max: nat, k: nat)
    requires Below(o, |z.whole|) && |z.whole| == |z.note| && k < |o|
    ensures o[k] < |z.whole| && Below(o[..k], |z.whole|) && Below(o[..k + 1], |z.whole|)
    ensures Spend(z, o[..k + 1], max) == Take(z, Spend(z, o[..k], max), o[k], max)
  {
    assert o[k] in o;
    assert forall x :: x in o[..k] ==> x in o;
    assert o[..k + 1] == o[..k] + [o[k]];
    Unsnoc(o[..k], o[k]);
  }
}
