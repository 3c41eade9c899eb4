/** A stable sort: what it does to any sequence, and where each element came from. */
module StableSorting {
  type Order<!T> = (T, T) -> bool

  /** A strict order in which being unordered is an equivalence. */
  ghost predicate StrictWeak<T(!new)>(before: Order<T>) {
    && (forall x, y :: before(x, y) ==> !before(y, x))
    && (forall x, y, z :: before(x, y) && !before(z, y) ==> before(x, z))
  }

  /** x goes behind everything it does not come before. */
  function Insert<T>(before: Order<T>, xs: seq<T>, x: T): seq<T> {
    var n := |xs| - 1;
    if xs == [] || !before(x, xs[n]) then xs + [x]
    else Insert(before, xs[..n], x) + [xs[n]]
  }

  function Sorted<T>(before: Order<T>, xs: seq<T>): seq<T> {
    if xs == [] then [] else Insert(before, Sorted(before, xs[..|xs| - 1]), xs[|xs| - 1])
  }

  /** `at` lists every position below n once. */
  ghost predicate IsPermutation(at: seq<nat>, n: nat) {
    && |at| == n
    && (forall i :: 0 <= i < n ==> at[i] < n)
    && (forall i, j :: 0 <= i < j < n ==> at[i] != at[j])
  }

  /** x stood at position p and y at position q: x may stand before y. */
  ghost predicate MayPrecede<T>(before: Order<T>, x: T, p: nat, y: T, q: nat) {
    before(x, y) || (!before(y, x) && p < q)
  }

  /** `out` rearranges xs by `at`: ascending, and in the old order where elements tie. */
  ghost predicate IsStableSort<T>(before: Order<T>, xs: seq<T>, at: seq<nat>, out: seq<T>) {
    && |out| == |xs| && IsPermutation(at, |xs|)
    && (forall i :: 0 <= i < |at| ==> out[i] == xs[at[i]])
    && (forall i, j :: 0 <= i < j < |at| ==> MayPrecede(before, out[i], at[i], out[j], at[j]))
  }

  lemma {:induction false} InsertPlaces<T(!new)>(before: Order<T>, xs: seq<T>, x: T) returns (k: nat)
    requires StrictWeak(before)
    requires forall i, j :: 0 <= i < j < |xs| ==> !before(xs[j], xs[i])
    ensures k <= |xs| && Insert(before, xs, x) == xs[..k] + [x] + xs[k..]
    ensures forall i :: 0 <= i < k ==> !before(x, xs[i])
    ensures forall i :: k <= i < |xs| ==> before(x, xs[i])
    decreases |xs|
  {
    var n := |xs| - 1;
    if xs == [] || !before(x, xs[n]) {
      k := |xs|;
      forall i | 0 <= i < k
        ensures !before(x, xs[i])
      {
        assert i < n ==> !before(xs[n], xs[i]);
      }
    } else {
      k := InsertPlaces(before, xs[..n], x);
      assert xs[..n][k..] + [xs[n]] == xs[k..] && xs[..n][..k] == xs[..k];
      assert forall i :: 0 <= i < n ==> xs[..n][i] == xs[i];
    }
  }

  /** Putting the next position behind the k-th keeps a permutation. */
  lemma PositionAdded(at: seq<nat>, n: nat, k: nat)
    requires IsPermutation(at, n) && k <= n
    ensures IsPermutation(at[..k] + [n] + at[k..], n + 1)
  {
  }

  lemma PositionsInRange(at: seq<nat>, n: nat)
    requires IsPermutation(at, n)
    ensures |at| == n && forall i :: 0 <= i < n ==> at[i] < n
  {
  }

  lemma StablyAdded<T>(before: Order<T>, xs: seq<T>, at: seq<nat>, out: seq<T>, x: T, k: nat)
    requires IsStableSort(before, xs, at, out) && k <= |out|
    requires forall i :: 0 <= i < k ==> !before(x, out[i])
    requires forall i :: k <= i < |out| ==> before(x, out[i])
    ensures IsStableSort(before, xs + [x], at[..k] + [|xs|] + at[k..], out[..k] + [x] + out[k..])
  {
    PositionAdded(at, |xs|, k);
    hide IsPermutation;
    var at', out' := at[..k] + [|xs|] + at[k..], out[..k] + [x] + out[k..];
    assert forall i :: 0 <= i < |at| ==> at[i] < |xs| by { PositionsInRange(at, |xs|); }
    forall i, j | 0 <= i < j < |at'|
      ensures MayPrecede(before, out'[i], at'[i], out'[j], at'[j])
    {
      if i != k && j != k {
        var i0, j0 := if i < k then i else i - 1, if j < k then j else j - 1;
        assert MayPrecede(before, out[i0], at[i0], out[j0], at[j0]);
      }
    }
  }

  lemma StableIsAscending<T(!new)>(before: Order<T>, xs: seq<T>, at: seq<nat>, out: seq<T>)
    requires StrictWeak(before) && IsStableSort(before, xs, at, out)
    ensures |at| == |out| == |xs|
    ensures forall i, j :: 0 <= i < j < |out| ==> !before(out[j], out[i])
  {
    forall i, j | 0 <= i < j < |out|
      ensures !before(out[j], out[i])
    {
      assert MayPrecede(before, out[i], at[i], out[j], at[j]);
    }
  }

  lemma {:induction false} SortIsStable<T(!new)>(before: Order<T>, xs: seq<T>) returns (at: seq<nat>)
    requires StrictWeak(before)
    ensures IsStableSort(before, xs, at, Sorted(before, xs))
  {
    if xs == [] {
      at := [];
    } else {
      hide IsStableSort, Insert, StrictWeak;
      var n := |xs| - 1;
      at := SortIsStable(before, xs[..n]);
      at := InsertIsStable(before, xs[..n], at, Sorted(before, xs[..n]), xs[n]);
      assert xs == xs[..n] + [xs[n]];
    }
  }

  lemma InsertIsStable<T(!new)>(before: Order<T>, xs: seq<T>, at: seq<nat>, out: seq<T>, x: T) returns (at': seq<nat>)
    requires StrictWeak(before) && IsStableSort(before, xs, at, out)
    ensures IsStableSort(before, xs + [x], at', Insert(before, out, x))
  {
    hide IsStableSort, Insert, StrictWeak;
    StableIsAscending(before, xs, at, out);
    var k := InsertPlaces(before, out, x);
    StablyAdded(before, xs, at, out, x, k);
    at' := at[..k] + [|xs|] + at[k..];
  }

  lemma {:induction false} InsertKeepsAll<T>(before: Order<T>, xs: seq<T>, x: T)
    ensures multiset(Insert(before, xs, x)) == multiset(xs) + multiset{x}
  {
    var n := |xs| - 1;
    if !(xs == [] || !before(x, xs[n])) {
      InsertKeepsAll(before, xs[..n], x);
      assert xs == xs[..n] + [xs[n]];
    }
  }

  lemma {:induction false} SortKeepsAll<T>(before: Order<T>, xs: seq<T>)
    ensures multiset(Sorted(before, xs)) == multiset(xs)
  {
    if xs != [] {
      var n := |xs| - 1;
      SortKeepsAll(before, xs[..n]);
      InsertKeepsAll(before, Sorted(before, xs[..n]), xs[n]);
      assert xs == xs[..n] + [xs[n]];
    }
  }
}
