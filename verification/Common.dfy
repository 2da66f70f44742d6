/** Small value types and the "last one wins" index that every pass builds. */
module Common {

  /** Durations and times are nanoseconds. */
  const SECOND: int := 1_000_000_000

  datatype Option<+T> = None | Some(value: T)

  /** The map a Go loop `for i := range items { m[key(items[i])] = items[i] }`
      builds: for a repeated key the later item wins. */
  function IndexBy<T>(items: seq<T>, key: T -> string): map<string, T> {
    if items == [] then map[]
    else
      var last := items[|items| - 1];
      IndexBy(items[..|items| - 1], key)[key(last) := last]
  }

  /** That loop, with the map updated in place. */
  method BuildIndex<T>(items: seq<T>, key: T -> string) returns (index: map<string, T>)
    ensures index == IndexBy(items, key)
  {
    index := map[];
    for i := 0 to |items|
      invariant index == IndexBy(items[..i], key)
    {
      index := index[key(items[i]) := items[i]];
      assert items[..i + 1][..i] == items[..i];
    }
    assert items[..|items|] == items;
  }

  /** No two positions share a key. */
  ghost predicate UniqueBy<T>(items: seq<T>, key: T -> string) {
    forall i, j :: 0 <= i < j < |items| ==> key(items[i]) != key(items[j])
  }

  lemma {:induction false} IndexByFinds<T>(items: seq<T>, key: T -> string, k: string)
    ensures k in IndexBy(items, key) <==> exists x :: x in items && key(x) == k
    ensures k in IndexBy(items, key) ==>
              IndexBy(items, key)[k] in items && key(IndexBy(items, key)[k]) == k
  {
    if items != [] {
      var init, last := items[..|items| - 1], items[|items| - 1];
      assert items == init + [last];
      IndexByFinds(init, key, k);
      if k == key(last) {
        assert last in items;
      } else if exists x :: x in items && key(x) == k {
        var x :| x in items && key(x) == k;
        assert x in init;
      }
    }
  }

  /** With unique keys an item is found under its own key. */
  lemma {:induction false} IndexByUnique<T>(items: seq<T>, key: T -> string, x: T)
    requires UniqueBy(items, key) && x in items
    ensures key(x) in IndexBy(items, key) && IndexBy(items, key)[key(x)] == x
  {
    IndexByFinds(items, key, key(x));
    var y := IndexBy(items, key)[key(x)];
    var i :| 0 <= i < |items| && items[i] == x;
    var j :| 0 <= j < |items| && items[j] == y;
    assert i == j;
  }

  /** A key identifies its item. */
  lemma UniqueSame<T>(items: seq<T>, key: T -> string, x: T, y: T)
    requires UniqueBy(items, key) && x in items && y in items && key(x) == key(y)
    ensures x == y
  {
    var i :| 0 <= i < |items| && items[i] == x;
    var j :| 0 <= j < |items| && items[j] == y;
  }

  function Filter<T(!new)>(items: seq<T>, keep: T -> bool): (r: seq<T>)
    ensures forall x :: x in r <==> x in items && keep(x)
  {
    if items == [] then []
    else
      var rest := Filter(items[..|items| - 1], keep);
      var last := items[|items| - 1];
      assert items == items[..|items| - 1] + [last];
      if keep(last) then rest + [last] else rest
  }

  /** The positions of the elements to keep, in increasing order. */
  ghost predicate Positions<T(!new)>(at: seq<nat>, items: seq<T>, keep: T -> bool) {
    && (forall j, k :: 0 <= j < k < |at| ==> at[j] < at[k])
    && (forall i: nat :: i in at <==> i < |items| && keep(items[i]))
  }

  lemma PositionsNext<T(!new)>(at: seq<nat>, items: seq<T>, keep: T -> bool)
    requires items != [] && Positions(at, items[..|items| - 1], keep)
    ensures Positions(if keep(items[|items| - 1]) then at + [|items| - 1] else at, items, keep)
    ensures forall k :: 0 <= k < |at| ==> at[k] < |items| - 1
  {
    var n: nat := |items| - 1;
    var init := items[..n];
    forall i: nat ensures i in at <==> i < n && keep(items[i]) {
      assert i in at <==> i < |init| && keep(init[i]);
    }
    forall k | 0 <= k < |at| ensures at[k] < n { assert at[k] in at; }
  }

  /** A filter keeps exactly the elements it should, where they stand. */
  lemma {:induction false} FilterPositions<T(!new)>(items: seq<T>, keep: T -> bool) returns (at: seq<nat>)
    ensures Positions(at, items, keep) && |Filter(items, keep)| == |at|
    ensures forall k :: 0 <= k < |at| ==> at[k] < |items| && Filter(items, keep)[k] == items[at[k]]
  {
    if items == [] { return []; }
    var n: nat := |items| - 1;
    at := FilterPositions(items[..n], keep);
    PositionsNext(at, items, keep);
    hide Positions;
    if keep(items[n]) { at := at + [n]; }
  }

  function Min(a: int, b: int): int { if a < b then a else b }

  function Max(a: int, b: int): int { if a < b then b else a }

  /** The set of the first `n` elements' keys, and its size when they are distinct. */
  ghost function KeySet<T>(items: seq<T>, key: T -> string): set<string> {
    set x | x in items :: key(x)
  }

  /** With unique keys the last item's key is new. */
  lemma LastKeyNew<T>(items: seq<T>, key: T -> string)
    requires UniqueBy(items, key) && items != []
    ensures var init := items[..|items| - 1];
            && UniqueBy(init, key)
            && forall x :: x in init ==> key(x) != key(items[|items| - 1])
  {
    var init := items[..|items| - 1];
    forall i | 0 <= i < |init| ensures key(init[i]) != key(items[|items| - 1]) {
      assert key(items[i]) != key(items[|items| - 1]);
    }
  }

  lemma {:induction false} KeySetSize<T>(items: seq<T>, key: T -> string)
    requires UniqueBy(items, key)
    ensures |KeySet(items, key)| == |items|
  {
    if items != [] {
      var init, last := items[..|items| - 1], items[|items| - 1];
      assert items == init + [last];
      KeySetSize(init, key);
      assert key(last) !in KeySet(init, key);
      assert KeySet(items, key) == KeySet(init, key) + {key(last)};
    }
  }

  /** Conversely, as many keys as items means the keys are distinct. */
  lemma {:induction false} KeySetUnique<T>(items: seq<T>, key: T -> string)
    ensures |KeySet(items, key)| <= |items|
    ensures |KeySet(items, key)| == |items| ==> UniqueBy(items, key)
  {
    if items != [] {
      var init, last := items[..|items| - 1], items[|items| - 1];
      assert items == init + [last];
      KeySetUnique(init, key);
      assert KeySet(items, key) == KeySet(init, key) + {key(last)};
      if |KeySet(items, key)| == |items| {
        assert key(last) !in KeySet(init, key);
        forall i, j | 0 <= i < j < |items| ensures key(items[i]) != key(items[j]) {
          assert items[i] in init && key(items[i]) in KeySet(init, key);
          if j < |init| { assert items[j] == init[j]; }
        }
      }
    }
  }

  /** Distinct keys survive any rearrangement. */
  lemma RearrangedUnique<T>(a: seq<T>, b: seq<T>, key: T -> string)
    requires multiset(a) == multiset(b) && UniqueBy(a, key)
    ensures UniqueBy(b, key)
  {
    assert |a| == |multiset(a)| == |multiset(b)| == |b|;
    forall x ensures x in a <==> x in b { assert x in multiset(a) <==> x in multiset(b); }
    assert KeySet(a, key) == KeySet(b, key);
    KeySetSize(a, key);
    KeySetUnique(b, key);
  }

  lemma {:induction false} SubsetSize<T>(a: set<T>, b: set<T>)
    requires a <= b
    ensures |a| <= |b|
  {
    if a != {} {
      var x :| x in a;
      SubsetSize(a - {x}, b - {x});
    }
  }
}
