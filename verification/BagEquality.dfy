/** Order-insensitive comparison of two bag snapshots
    (robot/features_smoke_scenario.go, featureBagsEqual). */
module BagEquality {
  import opened Keyed
  import opened Bags

  /** The sort used for items and for slots.  Nothing is known about how it orders equal keys. */
  datatype Sorter = Sorter(items: seq<Item> -> seq<Item>, slots: seq<Slot> -> seq<Slot>) {
    ghost predicate Sorts() {
      && (forall s :: SortedPermutation(ItemKey, s, items(s)))
      && (forall s :: SortedPermutation(SlotKey, s, slots(s)))
    }

    /** A snapshot with both repeated fields put in key order. */
    function Canonical(bag: Bag): Bag
      requires bag.layout.Some?
    {
      bag.(items := items(bag.items), layout := Some(bag.layout.value.(slots := slots(bag.layout.value.slots))))
    }
  }

  function Insert<T>(key: T -> int, x: T, s: seq<T>): seq<T> {
    if s == [] || key(x) <= key(s[0]) then [x] + s else [s[0]] + Insert(key, x, s[1..])
  }

  function InsertionSort<T>(key: T -> int, s: seq<T>): seq<T> {
    if s == [] then [] else Insert(key, s[0], InsertionSort(key, s[1..]))
  }

  lemma {:induction false} InsertAdds<T>(key: T -> int, x: T, s: seq<T>)
    ensures multiset(Insert(key, x, s)) == multiset(s) + multiset{x}
  {
    if s != [] && key(x) > key(s[0]) {
      InsertAdds(key, x, s[1..]);
      assert s == [s[0]] + s[1..];
    }
  }

  lemma SortedCons<T>(key: T -> int, x: T, s: seq<T>)
    requires SortedByKey(key, s) && (s != [] ==> key(x) <= key(s[0]))
    ensures SortedByKey(key, [x] + s)
  {
    var all := [x] + s;
    forall i, j | 0 <= i < j < |all| ensures key(all[i]) <= key(all[j]) {
      assert all[j] == s[j - 1] && key(s[0]) <= key(s[j - 1]);
    }
  }

  lemma {:induction false} InsertSorts<T>(key: T -> int, x: T, s: seq<T>)
    requires SortedByKey(key, s)
    ensures SortedByKey(key, Insert(key, x, s)) && Insert(key, x, s) != []
    ensures key(Insert(key, x, s)[0]) == if s == [] || key(x) <= key(s[0]) then key(x) else key(s[0])
  {
    if s == [] || key(x) <= key(s[0]) {
      SortedCons(key, x, s);
    } else {
      InsertSorts(key, x, s[1..]);
      SortedCons(key, s[0], Insert(key, x, s[1..]));
    }
  }

  lemma {:induction false} InsertionSortSorts<T>(key: T -> int, s: seq<T>)
    ensures SortedPermutation(key, s, InsertionSort(key, s))
  {
    if s != [] {
      var rest := InsertionSort(key, s[1..]);
      InsertionSortSorts(key, s[1..]);
      InsertAdds(key, s[0], rest);
      InsertSorts(key, s[0], rest);
      assert multiset(s) == multiset{s[0]} + multiset(s[1..]) by {
        assert s == [s[0]] + s[1..];
      }
    }
  }

  /** There is such a sort. */
  lemma SorterExists()
    ensures exists sorter: Sorter :: sorter.Sorts()
  {
    var sorter := Sorter((s: seq<Item>) => InsertionSort(ItemKey, s), (s: seq<Slot>) => InsertionSort(SlotKey, s));
    forall s ensures SortedPermutation(ItemKey, s, sorter.items(s)) {
      InsertionSortSorts(ItemKey, s);
    }
    forall s ensures SortedPermutation(SlotKey, s, sorter.slots(s)) {
      InsertionSortSorts(SlotKey, s);
    }
    assert sorter.Sorts();
  }

  predicate BagsEqual(sorter: Sorter, a: Option<Bag>, b: Option<Bag>) {
    && a.Some? && b.Some? && a.value.layout.Some? && b.value.layout.Some?
    && sorter.Canonical(a.value) == sorter.Canonical(b.value)
  }

  /** Everything of a snapshot that is neither an item nor a slot. */
  function Remainder(bag: Bag): Bag
    requires bag.layout.Some?
  {
    bag.(items := [], layout := Some(bag.layout.value.(slots := [])))
  }

  /** No two items share an id and no two slots share a number. */
  predicate Keyable(bag: Bag) {
    bag.layout.Some? && DistinctKeys(ItemKey, bag.items) && DistinctKeys(SlotKey, bag.layout.value.slots)
  }

  /** The two snapshots answer every item lookup and slot lookup alike and agree on the rest. */
  ghost predicate SameContents(a: Bag, b: Bag)
    requires a.layout.Some? && b.layout.Some?
  {
    && SameLookups(ItemKey, a.items, b.items)
    && SameLookups(SlotKey, a.layout.value.slots, b.layout.value.slots)
    && Remainder(a) == Remainder(b)
  }

  /** For every snapshot, equality means the same items and slots were sent, in some order. */
  lemma EqualKeepsContents(sorter: Sorter, a: Option<Bag>, b: Option<Bag>)
    requires sorter.Sorts() && BagsEqual(sorter, a, b)
    ensures multiset(a.value.items) == multiset(b.value.items)
    ensures multiset(a.value.layout.value.slots) == multiset(b.value.layout.value.slots)
    ensures Remainder(a.value) == Remainder(b.value)
  {
    var x, y := sorter.Canonical(a.value), sorter.Canonical(b.value);
    assert SortedPermutation(ItemKey, a.value.items, x.items);
    assert SortedPermutation(ItemKey, b.value.items, y.items);
    assert SortedPermutation(SlotKey, a.value.layout.value.slots, x.layout.value.slots);
    assert SortedPermutation(SlotKey, b.value.layout.value.slots, y.layout.value.slots);
    assert Remainder(a.value) == Remainder(x) && Remainder(b.value) == Remainder(y);
  }

  lemma SortedCopiesAgree<T(!new)>(key: T -> int, s: seq<T>, t: seq<T>, s': seq<T>, t': seq<T>)
    requires DistinctKeys(key, s) && multiset(s) == multiset(t)
    requires SortedPermutation(key, s, s') && SortedPermutation(key, t, t')
    ensures s' == t'
  {
    SameMembers(s, s');
    forall x, y | x in s' && y in s' && key(x) == key(y)
      ensures x == y
    {
      var i :| 0 <= i < |s| && s[i] == x;
      var j :| 0 <= j < |s| && s[j] == y;
    }
    SortedUnique(key, s', t');
  }

  /** On keyable snapshots equality is exactly sameness of contents, whatever the sort does. */
  lemma EqualIffSameContents(sorter: Sorter, a: Bag, b: Bag)
    requires sorter.Sorts() && Keyable(a) && Keyable(b)
    ensures BagsEqual(sorter, Some(a), Some(b)) <==> SameContents(a, b)
  {
    var slotsA, slotsB := a.layout.value.slots, b.layout.value.slots;
    LookupsDecide(ItemKey, a.items, b.items);
    LookupsDecide(SlotKey, slotsA, slotsB);
    if BagsEqual(sorter, Some(a), Some(b)) {
      EqualKeepsContents(sorter, Some(a), Some(b));
    }
    if SameContents(a, b) {
      SortedCopiesAgree(ItemKey, a.items, b.items, sorter.items(a.items), sorter.items(b.items));
      SortedCopiesAgree(SlotKey, slotsA, slotsB, sorter.slots(slotsA), sorter.slots(slotsB));
      assert Remainder(sorter.Canonical(a)) == Remainder(sorter.Canonical(b));
    }
  }

  /** On snapshots featureBagInventory accepts, the order in which items and slots were sent makes no
      difference to any comparison (the last clause).  That equality is an equivalence relation
      needs no such condition: it compares images of a function. */
  lemma EqualityLaws(sorter: Sorter, a: Bag, b: Bag, c: Bag)
    requires sorter.Sorts() && WellPlaced(a) && WellPlaced(b) && WellPlaced(c)
    ensures BagsEqual(sorter, Some(a), Some(a))
    ensures BagsEqual(sorter, Some(a), Some(b)) ==> BagsEqual(sorter, Some(b), Some(a))
    ensures BagsEqual(sorter, Some(a), Some(b)) && BagsEqual(sorter, Some(b), Some(c)) ==> BagsEqual(sorter, Some(a), Some(c))
    ensures multiset(a.items) == multiset(b.items) && Remainder(a) == Remainder(b)
            && multiset(a.layout.value.slots) == multiset(b.layout.value.slots)
            ==> (BagsEqual(sorter, Some(a), Some(c)) <==> BagsEqual(sorter, Some(b), Some(c)))
  {
    EqualIffSameContents(sorter, a, b);
    LookupsDecide(ItemKey, a.items, b.items);
    LookupsDecide(SlotKey, a.layout.value.slots, b.layout.value.slots);
  }

  // ---- When the verdict depends on the sort ----

  /** The two lists are equal, or their keys tell the elements apart. */
  ghost predicate OneOrder<T(!new)>(key: T -> int, s: seq<T>, t: seq<T>) { s == t || KeyDetermines(key, s) }

  /** The same items, slots and remaining fields were sent, in some order. */
  predicate SentAlike(a: Bag, b: Bag) {
    && a.layout.Some? && b.layout.Some? && Remainder(a) == Remainder(b)
    && multiset(a.items) == multiset(b.items)
    && multiset(a.layout.value.slots) == multiset(b.layout.value.slots)
  }

  /** A sort that is InsertionSort except for one list. */
  function Except<T(==)>(key: T -> int, special: seq<T>, outcome: seq<T>): seq<T> -> seq<T> {
    (s: seq<T>) => if s == special then outcome else InsertionSort(key, s)
  }

  lemma ExceptSorts<T(!new)>(key: T -> int, special: seq<T>, outcome: seq<T>)
    requires SortedPermutation(key, special, outcome)
    ensures forall s :: SortedPermutation(key, s, Except(key, special, outcome)(s))
  {
    forall s ensures SortedPermutation(key, s, Except(key, special, outcome)(s)) {
      InsertionSortSorts(key, s);
    }
  }

  /** If two lists have the same elements, some sort gives them one order. */
  lemma SortsAlike<T(!new)>(key: T -> int, s: seq<T>, t: seq<T>) returns (sort: seq<T> -> seq<T>)
    requires multiset(s) == multiset(t)
    ensures (forall u :: SortedPermutation(key, u, sort(u))) && sort(s) == sort(t)
  {
    InsertionSortSorts(key, s);
    sort := Except(key, t, InsertionSort(key, s));
    ExceptSorts(key, t, InsertionSort(key, s));
  }

  /** If neither holds of OneOrder, some sort gives them different orders. */
  lemma SortsApart<T(!new)>(key: T -> int, s: seq<T>, t: seq<T>) returns (sort: seq<T> -> seq<T>)
    requires multiset(s) == multiset(t) && !OneOrder(key, s, t)
    ensures (forall u :: SortedPermutation(key, u, sort(u))) && sort(s) != sort(t)
  {
    InsertionSortSorts(key, s);
    SortIsDeterminate(key, s, InsertionSort(key, s));
    var other :| SortedPermutation(key, s, other) && other != InsertionSort(key, s);
    sort := Except(key, t, other);
    ExceptSorts(key, t, other);
  }

  lemma OneOrderSortsAlike<T(!new)>(key: T -> int, s: seq<T>, t: seq<T>, sort: seq<T> -> seq<T>)
    requires multiset(s) == multiset(t) && OneOrder(key, s, t)
    requires forall u :: SortedPermutation(key, u, sort(u))
    ensures sort(s) == sort(t)
  {
    if s != t {
      assert SortedPermutation(key, s, sort(s)) && SortedPermutation(key, t, sort(t));
      assert SortedPermutation(key, s, sort(t));
      SortIsDeterminate(key, s, sort(s));
    }
  }

  /** When the contents differ every sort finds a difference. */
  lemma DifferentContentsDiffer(sorter: Sorter, a: Bag, b: Bag)
    requires sorter.Sorts() && !SentAlike(a, b)
    ensures !BagsEqual(sorter, Some(a), Some(b))
  {
    if BagsEqual(sorter, Some(a), Some(b)) {
      EqualKeepsContents(sorter, Some(a), Some(b));
    }
  }

  /** When they agree some sort finds none. */
  lemma SomeSortAgrees(a: Bag, b: Bag) returns (sorter: Sorter)
    requires SentAlike(a, b)
    ensures sorter.Sorts() && BagsEqual(sorter, Some(a), Some(b))
  {
    var items := SortsAlike(ItemKey, a.items, b.items);
    var slots := SortsAlike(SlotKey, a.layout.value.slots, b.layout.value.slots);
    sorter := Sorter(items, slots);
    assert Remainder(sorter.Canonical(a)) == Remainder(sorter.Canonical(b));
  }

  lemma SomeSortDiffers(a: Bag, b: Bag) returns (sorter: Sorter)
    requires SentAlike(a, b)
    requires !OneOrder(ItemKey, a.items, b.items) || !OneOrder(SlotKey, a.layout.value.slots, b.layout.value.slots)
    ensures sorter.Sorts() && !BagsEqual(sorter, Some(a), Some(b))
  {
    var slotsA, slotsB := a.layout.value.slots, b.layout.value.slots;
    var items := SortsAlike(ItemKey, a.items, b.items);
    var slots := SortsAlike(SlotKey, slotsA, slotsB);
    if !OneOrder(ItemKey, a.items, b.items) {
      items := SortsApart(ItemKey, a.items, b.items);
    } else {
      slots := SortsApart(SlotKey, slotsA, slotsB);
    }
    sorter := Sorter(items, slots);
  }

  /** featureBagsEqual says the same under every sort, for snapshots sent alike, if and only if items
      and slots are in the same order or their keys tell them apart.  (Snapshots not sent alike
      differ under every sort.) */
  lemma VerdictNeedsNoSort(a: Bag, b: Bag)
    requires SentAlike(a, b)
    ensures (forall sorter: Sorter :: sorter.Sorts() ==> BagsEqual(sorter, Some(a), Some(b)))
            <==> OneOrder(ItemKey, a.items, b.items) && OneOrder(SlotKey, a.layout.value.slots, b.layout.value.slots)
  {
    var slotsA, slotsB := a.layout.value.slots, b.layout.value.slots;
    if OneOrder(ItemKey, a.items, b.items) && OneOrder(SlotKey, slotsA, slotsB) {
      forall sorter: Sorter | sorter.Sorts()
        ensures BagsEqual(sorter, Some(a), Some(b))
      {
        OneOrderSortsAlike(ItemKey, a.items, b.items, sorter.items);
        OneOrderSortsAlike(SlotKey, slotsA, slotsB, sorter.slots);
        assert Remainder(sorter.Canonical(a)) == Remainder(sorter.Canonical(b));
      }
    } else {
      var sorter := SomeSortDiffers(a, b);
    }
  }

  const ONE := Item(7, 1101, 1, 1, 0, "", "", "", 0, 0, "", [], [], 0, 0, None, [], 0, None, 0)
  const TWO := ONE.(count := 2)

  function Pair(items: seq<Item>): Bag { Bag(items, Some(Layout(0, 10, [], false, [])), None) }

  /** Two stacks that share an id, sent in either order: one sort finds the snapshots equal, another
      does not.  featureBagInventory rejects such snapshots. */
  lemma SortDecides()
    ensures exists sorter: Sorter :: sorter.Sorts() && BagsEqual(sorter, Some(Pair([ONE, TWO])), Some(Pair([TWO, ONE])))
    ensures exists sorter: Sorter :: sorter.Sorts() && !BagsEqual(sorter, Some(Pair([ONE, TWO])), Some(Pair([TWO, ONE])))
    ensures !WellPlaced(Pair([ONE, TWO])) && !WellPlaced(Pair([TWO, ONE]))
  {
    var a, b := Pair([ONE, TWO]), Pair([TWO, ONE]);
    assert a.items[0] == ONE && a.items[1] == TWO && b.items[0] == TWO;
    assert ONE in a.items && TWO in a.items && ItemKey(ONE) == ItemKey(TWO) && ONE != TWO;
    assert !KeyDetermines(ItemKey, a.items);
    var agrees := SomeSortAgrees(a, b);
    var differs := SomeSortDiffers(a, b);
    assert ItemKey(a.items[0]) == ItemKey(a.items[1]) && ItemKey(b.items[0]) == ItemKey(b.items[1]);
  }

  /** featureBagsEqual: clones both snapshots, sorts the clones and compares them. */
  method FeatureBagsEqual(sorter: Sorter, a: Option<Bag>, b: Option<Bag>) returns (same: bool)
    requires sorter.Sorts()
    ensures same <==> BagsEqual(sorter, a, b)
    ensures a.Some? && b.Some? && WellPlaced(a.value) && WellPlaced(b.value) ==> (same <==> SameContents(a.value, b.value))
  {
    if a.None? || b.None? || a.value.layout.None? || b.value.layout.None? {
      return false;
    }
    var clones := [a.value, b.value];
    for n := 0 to 2
      invariant |clones| == 2
      invariant clones[0] == if n > 0 then sorter.Canonical(a.value) else a.value
      invariant clones[1] == if n > 1 then sorter.Canonical(b.value) else b.value
    {
      var bag := clones[n];
      bag := bag.(items := sorter.items(bag.items));
      bag := bag.(layout := Some(bag.layout.value.(slots := sorter.slots(bag.layout.value.slots))));
      clones := clones[n := bag];
    }
    same := clones[0] == clones[1];
    if WellPlaced(a.value) && WellPlaced(b.value) {
      EqualIffSameContents(sorter, a.value, b.value);
    }
  }
}
