/** The stable sort by a numeric key that ranked lists are ordered with. */
module StableSort {

  ghost predicate SortedBy<T(!new)>(key: T -> real, s: seq<T>) {
    forall i, j :: 0 <= i < j < |s| ==> key(s[i]) <= key(s[j])
  }

  /** Put `x` after every element whose key is not larger. */
  function Insert<T(!new)>(key: T -> real, s: seq<T>, x: T): (r: seq<T>)
    requires SortedBy(key, s)
    ensures SortedBy(key, r) && multiset(r) == multiset(s) + multiset{x}
    ensures forall i :: 0 <= i < |r| ==> r[i] == x || r[i] in s
    ensures (s == [] || key(s[|s| - 1]) <= key(x)) ==> r == s + [x]
  {
    if s == [] || key(s[|s| - 1]) <= key(x) then s + [x]
    else
      var n := |s| - 1;
      assert s == s[..n] + [s[n]];
      var r := Insert(key, s[..n], x);
      assert forall i :: 0 <= i < |r| ==> key(r[i]) <= key(s[n]);
      r + [s[n]]
  }

  function Sort<T(!new)>(key: T -> real, s: seq<T>): (r: seq<T>)
    ensures SortedBy(key, r) && multiset(r) == multiset(s) && |r| == |s|
    ensures SortedBy(key, s) ==> r == s
  {
    if s == [] then []
    else
      var n := |s| - 1;
      assert s == s[..n] + [s[n]];
      var r := Insert(key, Sort(key, s[..n]), s[n]);
      assert |multiset(r)| == |multiset(s)|;
      r
  }

  /** The elements with one key, in order. */
  function WithKey<T>(key: T -> real, s: seq<T>, k: real): seq<T> {
    if s == [] then [] else WithKey(key, s[..|s| - 1], k) + if key(s[|s| - 1]) == k then [s[|s| - 1]] else []
  }

  lemma WithKeyOfLast<T>(key: T -> real, s: seq<T>, x: T, k: real)
    ensures WithKey(key, s + [x], k) == WithKey(key, s, k) + if key(x) == k then [x] else []
  {
    assert (s + [x])[..|s|] == s;
  }

  lemma LargerStaysLast<T>(key: T -> real, s: seq<T>, r: seq<T>, last: T, x: T, k: real)
    requires WithKey(key, r, k) == WithKey(key, s, k) + (if key(x) == k then [x] else []) && key(x) < key(last)
    ensures WithKey(key, r + [last], k) == WithKey(key, s + [last], k) + if key(x) == k then [x] else []
  {
    WithKeyOfLast(key, r, last, k);
    WithKeyOfLast(key, s, last, k);
  }

  lemma {:induction false} InsertIsStable<T(!new)>(key: T -> real, s: seq<T>, x: T, k: real)
    requires SortedBy(key, s)
    ensures WithKey(key, Insert(key, s, x), k) == WithKey(key, s, k) + if key(x) == k then [x] else []
  {
    var n := |s| - 1;
    if s == [] || key(s[n]) <= key(x) {
      WithKeyOfLast(key, s, x, k);
    } else {
      InsertIsStable(key, s[..n], x, k);
      LargerStaysLast(key, s[..n], Insert(key, s[..n], x), s[n], x, k);
      assert s == s[..n] + [s[n]];
    }
  }

  /** Elements with equal keys keep their order. */
  lemma {:induction false} SortIsStable<T(!new)>(key: T -> real, s: seq<T>, k: real)
    ensures WithKey(key, Sort(key, s), k) == WithKey(key, s, k)
  {
    if s != [] {
      SortIsStable(key, s[..|s| - 1], k);
      InsertIsStable(key, Sort(key, s[..|s| - 1]), s[|s| - 1], k);
    }
  }

  function Take<T>(s: seq<T>, k: nat): seq<T> {
    if k < |s| then s[..k] else s
  }

  // ---------------------------------------------------------------------------
  // Sorted sequences of numbers are determined by their contents
  // ---------------------------------------------------------------------------

  ghost predicate Ascending(s: seq<real>) {
    forall i, j :: 0 <= i < j < |s| ==> s[i] <= s[j]
  }

  lemma Cancel<T>(x: T, p: multiset<T>, q: multiset<T>)
    requires multiset{x} + p == multiset{x} + q
    ensures p == q
  {
    assert p == (multiset{x} + p) - multiset{x};
    assert q == (multiset{x} + q) - multiset{x};
  }

  lemma HeadAndTail<T>(s: seq<T>)
    requires s != []
    ensures multiset(s) == multiset{s[0]} + multiset(s[1..])
  {
    assert s == [s[0]] + s[1..];
  }

  lemma LeastFirst(s: seq<real>, x: real)
    requires Ascending(s) && x in multiset(s)
    ensures s != [] && s[0] <= x
  {
    var i :| 0 <= i < |s| && s[i] == x;
  }

  lemma {:induction false} AscendingIsUnique(a: seq<real>, b: seq<real>)
    requires Ascending(a) && Ascending(b) && multiset(a) == multiset(b)
    ensures a == b
  {
    if a == [] {
      assert |b| == |multiset(b)| == 0;
    } else {
      HeadAndTail(a);
      LeastFirst(b, a[0]);
      HeadAndTail(b);
      LeastFirst(a, b[0]);
      Cancel(a[0], multiset(a[1..]), multiset(b[1..]));
      AscendingIsUnique(a[1..], b[1..]);
    }
  }

  function Keys<T>(key: T -> real, s: seq<T>): (r: seq<real>)
    ensures |r| == |s| && forall i :: 0 <= i < |s| ==> r[i] == key(s[i])
  {
    seq(|s|, i requires 0 <= i < |s| => key(s[i]))
  }

  lemma KeysAppend<T>(key: T -> real, a: seq<T>, b: seq<T>)
    ensures Keys(key, a + b) == Keys(key, a) + Keys(key, b)
  {
  }

  lemma RemoveAt<T>(s: seq<T>, i: nat)
    requires i < |s|
    ensures multiset(s) == multiset{s[i]} + multiset(s[..i] + s[i + 1..])
  {
    assert s == s[..i] + [s[i]] + s[i + 1..];
  }

  lemma KeysWithout<T>(key: T -> real, s: seq<T>, i: nat)
    requires i < |s|
    ensures multiset(Keys(key, s)) == multiset{key(s[i])} + multiset(Keys(key, s[..i] + s[i + 1..]))
  {
    RemoveAt(Keys(key, s), i);
    assert Keys(key, s[..i] + s[i + 1..]) == Keys(key, s)[..i] + Keys(key, s)[i + 1..];
  }

  lemma {:induction false} KeysOfPermutation<T(!new)>(key: T -> real, a: seq<T>, b: seq<T>)
    requires multiset(a) == multiset(b)
    ensures multiset(Keys(key, a)) == multiset(Keys(key, b))
  {
    if a == [] {
      assert |b| == |multiset(b)| == 0;
    } else {
      assert a[0] in multiset(b);
      var i :| 0 <= i < |b| && b[i] == a[0];
      RemoveAt(a, 0);
      RemoveAt(b, i);
      KeysWithout(key, a, 0);
      KeysWithout(key, b, i);
      Cancel(a[0], multiset(a[..0] + a[1..]), multiset(b[..i] + b[i + 1..]));
      KeysOfPermutation(key, a[..0] + a[1..], b[..i] + b[i + 1..]);
    }
  }

  /** Any two sorted arrangements of the same elements list the same keys. */
  lemma SortedKeysAgree<T(!new)>(key: T -> real, a: seq<T>, b: seq<T>)
    requires SortedBy(key, a) && SortedBy(key, b) && multiset(a) == multiset(b)
    ensures Keys(key, a) == Keys(key, b)
  {
    KeysOfPermutation(key, a, b);
    AscendingIsUnique(Keys(key, a), Keys(key, b));
  }
}
