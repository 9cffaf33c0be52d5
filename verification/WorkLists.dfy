/** Rows selected from a table, oldest first: the positions at which a mask is true. */
module WorkLists {
  import opened Prelude

  function Indices(mask: seq<bool>): seq<nat> {
    if mask == [] then []
    else
      var n := |mask| - 1;
      Indices(mask[..n]) + if mask[n] then [n] else []
  }

  predicate Ascending(xs: seq<nat>) {
    forall a, b :: 0 <= a < b < |xs| ==> xs[a] < xs[b]
  }

  lemma {:induction false} IndicesElements(mask: seq<bool>)
    ensures Ascending(Indices(mask))
    ensures forall j :: j in Indices(mask) <==> 0 <= j < |mask| && mask[j]
  {
    if mask != [] {
      var n := |mask| - 1;
      var front := Indices(mask[..n]);
      IndicesElements(mask[..n]);
      forall a, b | 0 <= a < b < |Indices(mask)| ensures Indices(mask)[a] < Indices(mask)[b] {
        assert front[a] in front;
      }
    }
  }

  lemma MemberOfPrefix(mask: seq<bool>, a: nat, m: nat)
    requires a < |Indices(mask)| && m <= |Indices(mask)|
    ensures Indices(mask)[a] in Indices(mask)[..m] <==> a < m
  {
    IndicesElements(mask);
    if a < m {
      assert Indices(mask)[..m][a] == Indices(mask)[a];
    }
  }

  function Clear(mask: seq<bool>, picked: seq<nat>): seq<bool> {
    seq(|mask|, i requires 0 <= i < |mask| => mask[i] && i !in picked)
  }

  lemma {:induction false} ClearPicked(mask: seq<bool>, picked: seq<nat>, m: nat)
    requires forall a :: 0 <= a < |Indices(mask)| ==> (Indices(mask)[a] in picked <==> a < m)
    ensures Indices(Clear(mask, picked)) == Indices(mask)[Min(m, |Indices(mask)|)..]
  {
    if mask != [] {
      var n := |mask| - 1;
      var front, own := Indices(mask[..n]), Indices(mask);
      assert forall a :: 0 <= a < |front| ==> front[a] == own[a];
      ClearPicked(mask[..n], picked, m);
      assert Clear(mask, picked)[..n] == Clear(mask[..n], picked);
      if mask[n] {
        assert own == front + [n] && own[|front|] == n;
        if m <= |front| {
          assert own[m..] == front[m..] + [n];
        }
      }
    }
  }

  /** Taking the first m rows off the list leaves the rest, in order. */
  lemma ClearFirst(mask: seq<bool>, m: nat)
    requires m <= |Indices(mask)|
    ensures Indices(Clear(mask, Indices(mask)[..m])) == Indices(mask)[m..]
  {
    forall a | 0 <= a < |Indices(mask)|
      ensures Indices(mask)[a] in Indices(mask)[..m] <==> a < m
    {
      MemberOfPrefix(mask, a, m);
    }
    ClearPicked(mask, Indices(mask)[..m], m);
  }

  // ----- Lists one after the other -----

  function Flatten<T>(parts: seq<seq<T>>): seq<T> {
    if parts == [] then [] else Flatten(parts[..|parts| - 1]) + parts[|parts| - 1]
  }

  /** Where the k-th part starts. */
  function StartOf<T>(parts: seq<seq<T>>, k: nat): nat
    requires k <= |parts|
  {
    if k == 0 then 0 else StartOf(parts, k - 1) + |parts[k - 1]|
  }

  lemma {:induction false} StartOfFront<T>(parts: seq<seq<T>>, k: nat)
    requires k < |parts|
    ensures StartOf(parts[..|parts| - 1], k) == StartOf(parts, k)
  {
    if k > 0 {
      StartOfFront(parts, k - 1);
    }
  }

  lemma {:induction false} FlattenLength<T>(parts: seq<seq<T>>)
    ensures |Flatten(parts)| == StartOf(parts, |parts|)
  {
    if parts != [] {
      FlattenLength(parts[..|parts| - 1]);
      StartOfFront(parts, |parts| - 1);
    }
  }

  /** Every element of every part keeps its place. */
  lemma {:induction false} FlattenAt<T>(parts: seq<seq<T>>, k: nat, i: nat)
    requires k < |parts| && i < |parts[k]|
    ensures StartOf(parts, k) + i < |Flatten(parts)| == StartOf(parts, |parts|)
    ensures Flatten(parts)[StartOf(parts, k) + i] == parts[k][i]
  {
    var n := |parts| - 1;
    FlattenLength(parts);
    FlattenLength(parts[..n]);
    StartOfFront(parts, n);
    if k < n {
      FlattenAt(parts[..n], k, i);
      StartOfFront(parts, k);
    }
  }
}
