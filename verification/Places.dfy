/** Lists of positions, taken apart at the end. */
module Places {
  predicate Below(o: seq<nat>, n: nat) {
    forall x :: x in o ==> x < n
  }

  function Front(o: seq<nat>): (r: seq<nat>)
    requires o != []
    ensures forall x :: x in o <==> x in r || x == o[|o| - 1]
  {
    assert o == o[..|o| - 1] + [o[|o| - 1]];
    o[..|o| - 1]
  }

  function Last(o: seq<nat>): (x: nat)
    requires o != []
    ensures x in o
  {
    o[|o| - 1]
  }

  lemma Unsnoc(o: seq<nat>, x: nat)
    ensures Front(o + [x]) == o && Last(o + [x]) == x
  {
  }

  /** A list without repeats is as long as its set of elements is large. */
  lemma {:induction false} CountDistinct(o: seq<nat>, places: set<nat>)
    requires forall a, b :: 0 <= a < b < |o| ==> o[a] != o[b]
    requires forall x :: x in places <==> x in o
    ensures |places| == |o|
    decreases |o|
  {
    if o == [] {
      assert places == {};
    } else {
      assert forall k :: 0 <= k < |o| - 1 ==> o[k] != Last(o);
      CountDistinct(Front(o), places - {Last(o)});
    }
  }
}
