/** Sequences whose elements carry an integer key: first-match lookup, sorting by key with
    any (also unstable) sorting procedure, and counting facts about distinct keys. */
module Keyed {

  datatype Option<+T> = None | Some(value: T)

  predicate DistinctKeys<T(!new)>(key: T -> int, s: seq<T>) {
    forall i, j :: 0 <= i < j < |s| ==> key(s[i]) != key(s[j])
  }

  /** First element with key `k`. */
  function Lookup<T>(key: T -> int, s: seq<T>, k: int): (found: Option<T>)
    ensures found.Some? ==> found.value in s && key(found.value) == k
    ensures found.None? ==> forall x :: x in s ==> key(x) != k
  {
    if s == [] then None
    else if key(s[0]) == k then Some(s[0])
    else Lookup(key, s[1..], k)
  }

  /** Elements with key different from `k`, in order. */
  function Without<T>(key: T -> int, s: seq<T>, k: int): seq<T> {
    if s == [] then []
    else (if key(s[0]) != k then [s[0]] else []) + Without(key, s[1..], k)
  }

  /** The elements with a given key: what Without leaves out. */
  function Only<T>(key: T -> int, s: seq<T>, k: int): seq<T> {
    if s == [] then []
    else (if key(s[0]) == k then [s[0]] else []) + Only(key, s[1..], k)
  }

  lemma {:induction false} WithoutKeepsOthers<T>(key: T -> int, s: seq<T>, k: int, x: T)
    requires key(x) != k
    ensures x in Without(key, s, k) <==> x in s
  {
    if s != [] {
      WithoutKeepsOthers(key, s[1..], k, x);
      assert s == [s[0]] + s[1..];
    }
  }

  /** Lookup finds the first of them. */
  lemma {:induction false} OnlyStartsWithLookup<T>(key: T -> int, s: seq<T>, k: int)
    ensures Lookup(key, s, k) == if Only(key, s, k) == [] then None else Some(Only(key, s, k)[0])
  {
    if s != [] {
      OnlyStartsWithLookup(key, s[1..], k);
    }
  }

  /** With distinct keys there is at most one. */
  lemma {:induction false} OnlyOnce<T(!new)>(key: T -> int, s: seq<T>, k: int)
    requires DistinctKeys(key, s)
    ensures |Only(key, s, k)| <= 1
    ensures (forall i :: 0 <= i < |s| ==> key(s[i]) != k) ==> Only(key, s, k) == []
  {
    if s != [] {
      OnlyOnce(key, s[1..], k);
      assert forall i :: 0 <= i < |s[1..]| ==> key(s[1..][i]) == key(s[i + 1]);
    }
  }

  /** Two sequences in which each element is determined by those before it agree. */
  lemma {:induction false} AgreeStepByStep<T>(a: seq<T>, b: seq<T>, n: nat)
    requires n <= |a| && n <= |b|
    requires forall i :: 0 <= i < n && a[..i] == b[..i] ==> a[i] == b[i]
    ensures a[..n] == b[..n]
  {
    if n > 0 {
      AgreeStepByStep(a, b, n - 1);
      assert a[..n] == a[..n - 1] + [a[n - 1]] && b[..n] == b[..n - 1] + [b[n - 1]];
    }
  }

  predicate SortedByKey<T>(key: T -> int, s: seq<T>) {
    forall i, j :: 0 <= i < j < |s| ==> key(s[i]) <= key(s[j])
  }

  /** What any sorting procedure, stable or not, promises. */
  predicate SortedPermutation<T(==)>(key: T -> int, s: seq<T>, t: seq<T>) {
    SortedByKey(key, t) && multiset(s) == multiset(t)
  }

  ghost predicate KeyDetermines<T(!new)>(key: T -> int, s: seq<T>) {
    forall x, y :: x in s && y in s && key(x) == key(y) ==> x == y
  }

  lemma SameMembers<T>(s: seq<T>, t: seq<T>)
    requires multiset(s) == multiset(t)
    ensures |s| == |t|
    ensures forall x :: x in s <==> x in t
  {
    assert |s| == |multiset(s)| == |multiset(t)| == |t|;
    assert forall x :: x in s <==> x in multiset(s);
    assert forall x :: x in t <==> x in multiset(t);
  }

  lemma HeadIsLeast<T>(key: T -> int, s: seq<T>, x: T)
    requires SortedByKey(key, s) && x in s
    ensures key(s[0]) <= key(x)
  {
    var i :| 0 <= i < |s| && s[i] == x;
    if i > 0 {
      assert key(s[0]) <= key(s[i]);
    }
  }

  /** Two sorted arrangements of the same elements coincide when the key tells elements apart. */
  lemma {:induction false} SortedUnique<T(!new)>(key: T -> int, s: seq<T>, t: seq<T>)
    requires SortedByKey(key, s) && SortedByKey(key, t) && multiset(s) == multiset(t)
    requires KeyDetermines(key, s)
    ensures s == t
    decreases |s|
  {
    SameMembers(s, t);
    if s != [] {
      HeadIsLeast(key, t, s[0]);
      HeadIsLeast(key, s, t[0]);
      assert s[0] == t[0];
      TailContents(s, t);
      assert SortedByKey(key, s[1..]) && SortedByKey(key, t[1..]);
      SortedUnique(key, s[1..], t[1..]);
      assert s == [s[0]] + s[1..] && t == [t[0]] + t[1..];
    }
  }

  lemma TailContents<T>(s: seq<T>, t: seq<T>)
    requires s != [] && t != [] && s[0] == t[0] && multiset(s) == multiset(t)
    ensures multiset(s[1..]) == multiset(t[1..])
  {
    var s', t' := s[1..], t[1..];
    assert multiset(s) == multiset([s[0]] + s') == multiset{s[0]} + multiset(s') by {
      assert s == [s[0]] + s';
    }
    assert multiset(t) == multiset([t[0]] + t') == multiset{t[0]} + multiset(t') by {
      assert t == [t[0]] + t';
    }
    assert multiset(s') == multiset(s) - multiset{s[0]} == multiset(t');
  }

  /** Swapping two elements with the same key keeps a sequence sorted and its contents. */
  lemma SwapEqualKeys<T>(key: T -> int, s: seq<T>, i: nat, j: nat)
    requires SortedByKey(key, s) && i < j < |s| && key(s[i]) == key(s[j])
    ensures var swapped := s[i := s[j]][j := s[i]]; SortedByKey(key, swapped) && multiset(swapped) == multiset(s)
  {
    var swapped := s[i := s[j]][j := s[i]];
    assert forall k :: 0 <= k < |s| ==> key(swapped[k]) == key(s[k]);
  }

  /** Sorting has one possible result exactly when elements that share a key are equal. */
  lemma SortIsDeterminate<T(!new)>(key: T -> int, s: seq<T>, sorted: seq<T>)
    requires SortedPermutation(key, s, sorted)
    ensures (forall t :: SortedPermutation(key, s, t) ==> t == sorted) <==> KeyDetermines(key, s)
  {
    SameMembers(s, sorted);
    if KeyDetermines(key, s) {
      forall t | SortedPermutation(key, s, t)
        ensures t == sorted
      {
        SortedUnique(key, sorted, t);
      }
    } else {
      var x, y :| x in s && y in s && key(x) == key(y) && x != y;
      var i :| 0 <= i < |sorted| && sorted[i] == x;
      var j :| 0 <= j < |sorted| && sorted[j] == y;
      var lo, hi := if i < j then i else j, if i < j then j else i;
      SwapEqualKeys(key, sorted, lo, hi);
      var swapped := sorted[lo := sorted[hi]][hi := sorted[lo]];
      assert SortedPermutation(key, s, swapped);
      assert swapped[lo] != sorted[lo];
    }
  }

  lemma {:induction false} DistinctMultiplicity<T(!new)>(key: T -> int, s: seq<T>, x: T)
    requires DistinctKeys(key, s)
    ensures multiset(s)[x] == if x in s then 1 else 0
  {
    if s != [] {
      assert s == [s[0]] + s[1..];
      DistinctMultiplicity(key, s[1..], x);
    }
  }

  lemma LookupIsMembership<T(!new)>(key: T -> int, s: seq<T>, x: T)
    requires DistinctKeys(key, s)
    ensures x in s <==> Lookup(key, s, key(x)) == Some(x)
  {
    if x in s {
      var found := Lookup(key, s, key(x)).value;
      assert found in s && key(found) == key(x);
    }
  }

  /** Every first-match lookup gives the same answer. */
  ghost predicate SameLookups<T(!new)>(key: T -> int, s: seq<T>, t: seq<T>) {
    forall k :: Lookup(key, s, k) == Lookup(key, t, k)
  }

  /** With distinct keys, two sequences hold the same elements exactly when every lookup agrees. */
  lemma LookupsDecide<T(!new)>(key: T -> int, s: seq<T>, t: seq<T>)
    requires DistinctKeys(key, s) && DistinctKeys(key, t)
    ensures SameLookups(key, s, t) <==> multiset(s) == multiset(t)
  {
    if SameLookups(key, s, t) {
      forall x
        ensures multiset(s)[x] == multiset(t)[x]
      {
        LookupIsMembership(key, s, x);
        LookupIsMembership(key, t, x);
        DistinctMultiplicity(key, s, x);
        DistinctMultiplicity(key, t, x);
        assert Lookup(key, s, key(x)) == Lookup(key, t, key(x));
      }
      assert multiset(s) == multiset(t);
    }
    if multiset(s) == multiset(t) {
      forall k
        ensures Lookup(key, s, k) == Lookup(key, t, k)
      {
        SameLookup(key, s, t, k);
      }
    }
  }

  lemma SameLookup<T(!new)>(key: T -> int, s: seq<T>, t: seq<T>, k: int)
    requires DistinctKeys(key, s) && DistinctKeys(key, t) && multiset(s) == multiset(t)
    ensures Lookup(key, s, k) == Lookup(key, t, k)
  {
    SameMembers(s, t);
    match Lookup(key, s, k)
    case Some(x) => LookupIsMembership(key, t, x);
    case None =>
  }

  function Keys<T>(key: T -> int, s: seq<T>): set<int> {
    set i | 0 <= i < |s| :: key(s[i])
  }

  lemma KeyIndex<T>(key: T -> int, s: seq<T>, k: int) returns (i: nat)
    requires k in Keys(key, s)
    ensures i < |s| && key(s[i]) == k
  {
    i :| 0 <= i < |s| && key(s[i]) == k;
  }

  /** A lookup succeeds exactly for the keys that occur, and finds the one element that has it. */
  lemma LookupByKey<T(!new)>(key: T -> int, s: seq<T>, k: int)
    ensures Lookup(key, s, k).Some? <==> k in Keys(key, s)
    ensures DistinctKeys(key, s) ==> forall i :: 0 <= i < |s| && key(s[i]) == k ==> Lookup(key, s, k) == Some(s[i])
  {
    if k in Keys(key, s) {
      var i := KeyIndex(key, s, k);
      assert s[i] in s;
    }
    if Lookup(key, s, k).Some? {
      var j :| 0 <= j < |s| && s[j] == Lookup(key, s, k).value;
      assert key(s[j]) in Keys(key, s);
    }
  }

  lemma KeysExtend<T>(key: T -> int, s: seq<T>, n: nat)
    requires n < |s|
    ensures Keys(key, s[..n + 1]) == Keys(key, s[..n]) + {key(s[n])}
  {
    var longer, shorter := s[..n + 1], s[..n];
    assert forall i :: 0 <= i < n ==> longer[i] == shorter[i];
    forall k | k in Keys(key, shorter) + {key(s[n])}
      ensures k in Keys(key, longer)
    {
      if k in Keys(key, shorter) {
        var i := KeyIndex(key, shorter, k);
        assert key(longer[i]) == k;
      } else {
        assert key(longer[n]) == k;
      }
    }
  }

  lemma {:induction false} DistinctKeyCount<T(!new)>(key: T -> int, s: seq<T>)
    requires DistinctKeys(key, s)
    ensures |Keys(key, s)| == |s|
  {
    if s != [] {
      var n := |s| - 1;
      DistinctKeyCount(key, s[..n]);
      KeysExtend(key, s, n);
      assert s[..n + 1] == s;
      if key(s[n]) in Keys(key, s[..n]) {
        var i := KeyIndex(key, s[..n], key(s[n]));
        assert false;
      }
    }
  }

  /** The numbers below n. */
  function Below(n: nat): (numbers: set<int>)
    ensures |numbers| == n
    ensures forall i :: i in numbers <==> 0 <= i < n
  {
    if n == 0 then {} else Below(n - 1) + {n - 1}
  }

  /** A subset as large as the whole is the whole. */
  lemma FullSubset<T>(part: set<T>, whole: set<T>)
    requires part <= whole && |part| >= |whole|
    ensures part == whole
  {
    var rest := whole - part;
    assert whole == part + rest;
    assert |rest| == 0;
  }

  // ---- Counting ----

  function CountIf<T>(s: seq<T>, p: T -> bool): nat {
    if s == [] then 0 else CountIf(s[..|s| - 1], p) + if p(s[|s| - 1]) then 1 else 0
  }

  function KeysWhere<T>(key: T -> int, s: seq<T>, p: T -> bool): set<int> {
    set i | 0 <= i < |s| && p(s[i]) :: key(s[i])
  }

  lemma KeysWhereExtends<T>(key: T -> int, s: seq<T>, p: T -> bool)
    requires s != []
    ensures var front, last := s[..|s| - 1], s[|s| - 1];
            KeysWhere(key, s, p) == KeysWhere(key, front, p) + if p(last) then {key(last)} else {}
  {
    var front, n := s[..|s| - 1], |s| - 1;
    forall k | k in KeysWhere(key, front, p)
      ensures k in KeysWhere(key, s, p)
    {
      var i :| 0 <= i < n && p(front[i]) && key(front[i]) == k;
      assert p(s[i]) && key(s[i]) == k;
    }
    forall k | k in KeysWhere(key, s, p)
      ensures k in KeysWhere(key, front, p) || (p(s[n]) && k == key(s[n]))
    {
      var i :| 0 <= i <= n && p(s[i]) && key(s[i]) == k;
      if i < n {
        assert p(front[i]) && key(front[i]) == k;
      }
    }
  }

  /** Counting elements with distinct keys is counting their keys. */
  lemma {:induction false} CountIsKeys<T(!new)>(key: T -> int, s: seq<T>, p: T -> bool)
    requires DistinctKeys(key, s)
    ensures CountIf(s, p) == |KeysWhere(key, s, p)|
  {
    if s != [] {
      var n := |s| - 1;
      CountIsKeys(key, s[..n], p);
      KeysWhereExtends(key, s, p);
      assert key(s[n]) !in KeysWhere(key, s[..n], p);
    }
  }

  lemma SubsetSize<T>(a: set<T>, b: set<T>)
    requires a <= b
    ensures |a| <= |b|
  {
    assert b == a + (b - a);
  }

  lemma {:induction false} SameCount<T>(s: seq<T>, p: T -> bool, q: T -> bool)
    requires forall i :: 0 <= i < |s| ==> p(s[i]) == q(s[i])
    ensures CountIf(s, p) == CountIf(s, q)
  {
    if s != [] {
      SameCount(s[..|s| - 1], p, q);
    }
  }
}
