/** Vector search over several authority partitions: local nearest neighbours merge into global ones. */
module NearestNeighbours {
  import opened StableSort

  datatype Neighbour = Neighbour(id: string, distance: real)

  function Distance(n: Neighbour): real { n.distance }

  function Min(a: nat, b: nat): nat { if a < b then a else b }

  /** A choice of `k` elements, or all if there are fewer, such that nothing left out is closer. */
  ghost predicate Nearest(all: multiset<Neighbour>, k: nat, chosen: multiset<Neighbour>) {
    && chosen <= all && |chosen| == Min(k, |all|)
    && forall x, y :: x in chosen && y in all - chosen ==> x.distance <= y.distance
  }

  lemma MergedOrder(a: multiset<Neighbour>, k: nat, near: multiset<Neighbour>, others: multiset<Neighbour>,
      chosen: multiset<Neighbour>, x: Neighbour, y: Neighbour)
    requires Nearest(a, k, near) && Nearest(near + others, k, chosen)
    requires x in chosen && y in a - near
    ensures x.distance <= y.distance
  {
    assert |a - near| == |a| - |near|;
    if near <= chosen {
      SameSize(near, chosen);
    } else {
      // some z among `near` was passed over for x
      var z :| near[z] > chosen[z];
      assert z in (near + others) - chosen;
    }
  }

  lemma SameSize<T>(a: multiset<T>, b: multiset<T>)
    requires a <= b && |a| == |b|
    ensures a == b
  {
    assert b == a + (b - a);
  }

  /** Before choosing `k` from a union, one part may be cut down to a choice of `k` of its own. */
  lemma ChooseFromChosen(a: multiset<Neighbour>, b: multiset<Neighbour>, k: nat, nearA: multiset<Neighbour>,
      chosen: multiset<Neighbour>)
    requires Nearest(nearA + b, k, chosen) && Nearest(a, k, nearA)
    ensures Nearest(a + b, k, chosen)
  {
    forall x, y | x in chosen && y in (a + b) - chosen ensures x.distance <= y.distance {
      if y in a - nearA {
        MergedOrder(a, k, nearA, b, chosen, x, y);
      } else {
        assert y in (nearA + b) - chosen;
      }
    }
  }

  function Concat(parts: seq<seq<Neighbour>>): seq<Neighbour> {
    if parts == [] then [] else Concat(parts[..|parts| - 1]) + parts[|parts| - 1]
  }

  ghost predicate EachNearest(parts: seq<seq<Neighbour>>, k: nat, tops: seq<seq<Neighbour>>) {
    |tops| == |parts| && forall i :: 0 <= i < |parts| ==> Nearest(multiset(parts[i]), k, multiset(tops[i]))
  }

  /** Replacing each partition by its own nearest neighbours does not change what is nearest overall. */
  lemma {:induction false} TopsSuffice(parts: seq<seq<Neighbour>>, k: nat, tops: seq<seq<Neighbour>>,
      rest: multiset<Neighbour>, chosen: multiset<Neighbour>)
    requires EachNearest(parts, k, tops)
    requires Nearest(multiset(Concat(tops)) + rest, k, chosen)
    ensures Nearest(multiset(Concat(parts)) + rest, k, chosen)
  {
    if parts != [] {
      var n := |parts| - 1;
      var front, last := multiset(Concat(tops[..n])), multiset(tops[n]);
      assert multiset(Concat(tops)) + rest == last + (front + rest);
      ChooseFromChosen(multiset(parts[n]), front + rest, k, last, chosen);
      assert multiset(parts[n]) + (front + rest) == front + (multiset(parts[n]) + rest);
      TopsSuffice(parts[..n], k, tops[..n], multiset(parts[n]) + rest, chosen);
      assert multiset(Concat(parts)) + rest == multiset(Concat(parts[..n])) + (multiset(parts[n]) + rest);
    }
  }

  lemma FirstOfSorted(s: seq<Neighbour>, k: nat)
    requires SortedBy(Distance, s)
    ensures Nearest(multiset(s), k, multiset(Take(s, k)))
  {
    var near := Take(s, k);
    var rest := s[|near|..];
    assert s == near + rest;
    forall x: Neighbour, y: Neighbour | x in multiset(near) && y in multiset(s) - multiset(near)
      ensures x.distance <= y.distance
    {
      var i :| 0 <= i < |near| && near[i] == x;
      assert y in multiset(rest);
      var j :| 0 <= j < |rest| && rest[j] == y;
      assert Distance(s[i]) <= Distance(s[|near| + j]);
    }
  }

  lemma AppendSorted(near: seq<Neighbour>, rest: seq<Neighbour>)
    requires SortedBy(Distance, near) && SortedBy(Distance, rest)
    requires forall x, y :: x in multiset(near) && y in multiset(rest) ==> x.distance <= y.distance
    ensures SortedBy(Distance, near + rest)
  {
    forall i, j | 0 <= i < |near| && 0 <= j < |rest| ensures Distance(near[i]) <= Distance(rest[j]) {
      assert near[i] in multiset(near) && rest[j] in multiset(rest);
    }
  }

  /** A sorted choice of nearest neighbours lists exactly the smallest distances, whichever elements tie. */
  lemma NearestDistances(all: seq<Neighbour>, k: nat, result: seq<Neighbour>)
    requires SortedBy(Distance, result) && Nearest(multiset(all), k, multiset(result))
    ensures Keys(Distance, result) == Take(Keys(Distance, Sort(Distance, all)), k)
  {
    var rest := Sort(Distance, Listed(multiset(all) - multiset(result)));
    assert multiset(rest) == multiset(all) - multiset(result);
    AppendSorted(result, rest);
    Rejoin(multiset(all), multiset(result));
    SortedKeysAgree(Distance, result + rest, Sort(Distance, all));
    KeysAppend(Distance, result, rest);
    Cut(Keys(Distance, result), Keys(Distance, rest), k);
  }

  lemma Rejoin<T>(all: multiset<T>, part: multiset<T>)
    requires part <= all
    ensures part + (all - part) == all && |part| + |all - part| == |all|
  {
  }

  lemma Cut<T>(a: seq<T>, b: seq<T>, k: nat)
    requires |a| == Min(k, |a| + |b|)
    ensures a == Take(a + b, k)
  {
  }

  ghost function Listed(m: multiset<Neighbour>): (s: seq<Neighbour>)
    ensures multiset(s) == m
    decreases |m|
  {
    if m == multiset{} then [] else
      var x :| x in m;
      [x] + Listed(m - multiset{x})
  }

  /** The rows each partition query returned, concatenated, sorted and cut. */
  function SearchByVector(tops: seq<seq<Neighbour>>, k: nat): seq<Neighbour> {
    Take(Sort(Distance, Concat(tops)), k)
  }

  /**
   When every partition query returned its own `k` nearest, however the index breaks ties, the merged
   result is nearest over the whole union, and lists exactly its `k` smallest distances in order.
   */
  lemma SearchIsGlobal(parts: seq<seq<Neighbour>>, tops: seq<seq<Neighbour>>, k: nat)
    requires EachNearest(parts, k, tops)
    ensures Nearest(multiset(Concat(parts)), k, multiset(SearchByVector(tops, k)))
    ensures Keys(Distance, SearchByVector(tops, k)) == Take(Keys(Distance, Sort(Distance, Concat(parts))), k)
  {
    var result := SearchByVector(tops, k);
    FirstOfSorted(Sort(Distance, Concat(tops)), k);
    assert multiset(Concat(tops)) + multiset{} == multiset(Concat(tops));
    assert multiset(Concat(parts)) + multiset{} == multiset(Concat(parts));
    TopsSuffice(parts, k, tops, multiset{}, multiset(result));
    NearestDistances(Concat(parts), k, result);
  }
}
