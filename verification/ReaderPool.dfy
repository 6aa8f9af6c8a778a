/** The pool of readers left part way through a folder, keyed by their position. */
module ReaderPool {
  import opened Basics

  datatype Entry<+V> = Entry(key: int, value: V)

  // --- the keys in the order they are tried ---

  predicate Descending(keys: seq<int>) {
    forall i, j :: 0 <= i < j < |keys| ==> keys[i] > keys[j]
  }

  predicate Distinct(keys: seq<int>) {
    forall i, j :: 0 <= i < j < |keys| ==> keys[i] != keys[j]
  }

  function InsertDown(k: int, keys: seq<int>): seq<int> {
    if keys == [] || k > keys[0] then [k] + keys else [keys[0]] + InsertDown(k, keys[1..])
  }

  function SortDown(keys: seq<int>): seq<int> {
    if keys == [] then [] else InsertDown(keys[0], SortDown(keys[1..]))
  }

  lemma {:induction false} InsertedHas(k: int, keys: seq<int>, x: int)
    ensures x in InsertDown(k, keys) <==> x == k || x in keys
  {
    if keys != [] && k <= keys[0] {
      InsertedHas(k, keys[1..], x);
      assert keys == [keys[0]] + keys[1..];
    }
  }

  lemma {:induction false} InsertedDescends(k: int, keys: seq<int>)
    requires Descending(keys) && k !in keys
    ensures Descending(InsertDown(k, keys))
  {
    if keys != [] && k < keys[0] {
      var r := InsertDown(k, keys[1..]);
      InsertedDescends(k, keys[1..]);
      forall i | 0 <= i < |r| ensures r[i] < keys[0] {
        InsertedHas(k, keys[1..], r[i]);
      }
    }
  }

  // Sorting keeps the keys, and puts distinct ones in descending order.
  lemma {:induction false} SortedHas(keys: seq<int>)
    ensures forall k :: k in SortDown(keys) <==> k in keys
    ensures Distinct(keys) ==> Descending(SortDown(keys))
  {
    if keys != [] {
      SortedHas(keys[1..]);
      forall k ensures k in SortDown(keys) <==> k in keys {
        InsertedHas(keys[0], SortDown(keys[1..]), k);
        assert keys == [keys[0]] + keys[1..];
      }
      if Distinct(keys) {
        assert Distinct(keys[1..]) && keys[0] !in keys[1..];
        InsertedDescends(keys[0], SortDown(keys[1..]));
      }
    }
  }

  // --- the list of entries, the latest put first ---

  predicate Has<V>(list: seq<Entry<V>>, key: int) {
    exists i :: 0 <= i < |list| && list[i].key == key
  }

  predicate Unique<V>(list: seq<Entry<V>>) {
    forall i, j :: 0 <= i < j < |list| ==> list[i].key != list[j].key
  }

  // The list without its i-th entry.
  function Without<V>(list: seq<Entry<V>>, i: nat): seq<Entry<V>>
    requires i < |list|
  {
    list[..i] + list[i + 1..]
  }

  // Entry i has the greatest key that is not above the offset.
  ghost predicate Nearest<V>(list: seq<Entry<V>>, offset: int, i: nat) {
    && i < |list| && list[i].key <= offset
    && forall j :: 0 <= j < |list| && list[j].key <= offset ==> list[j].key <= list[i].key
  }

  // The map and the list hold the same entries.
  ghost predicate Matches<V>(list: seq<Entry<V>>, items: map<int, Entry<V>>) {
    && Unique(list)
    && (forall k :: k in items <==> Has(list, k))
    && (forall i :: 0 <= i < |list| ==> list[i].key in items && items[list[i].key] == list[i])
  }

  class Pool<V(==)> {
    const size: nat
    var evictList: seq<Entry<V>>
    var items: map<int, Entry<V>>

    constructor (size: nat)
      requires size > 0
      ensures Valid() && evictList == [] && this.size == size
    {
      this.size := size;
      evictList := [];
      items := map[];
    }

    // No more entries than there is room for.
    ghost predicate Valid()
      reads this
    {
      0 < size && |evictList| <= size && Matches(evictList, items)
    }

    // An entry leaves both; closing its reader is left to the caller, who is told which it is.
    method RemoveElement(e: Entry<V>, ghost i: nat)
      requires i < |evictList| && evictList[i] == e && Matches(evictList, items)
      modifies this
      ensures evictList == Without(old(evictList), i) && Matches(evictList, items)
    {
      hide Matches;
      MatchesRemove(evictList, items, i);
      var n := Position(evictList, e);
      evictList := Without(evictList, n);
      items := items - {e.key};
    }

    // The keys, oldest entry first.
    method Keys() returns (keys: seq<int>)
      requires Valid()
      ensures Distinct(keys) && forall k :: k in keys <==> k in items
    {
      keys := [];
      var n := |evictList|;
      while n > 0
        invariant 0 <= n <= |evictList| && |keys| == |evictList| - n
        invariant forall j :: 0 <= j < |keys| ==> keys[j] == evictList[|evictList| - 1 - j].key
      {
        n := n - 1;
        keys := keys + [evictList[n].key];
      }
      KeysAre(evictList, keys);
    }

    // The reader at the offset, or the nearest one before it, leaves the pool; none if all are
    // beyond it.
    method Get(offset: int) returns (r: Option<V>, ghost i: nat)
      requires Valid()
      modifies this
      ensures Valid()
      ensures r == None <==> forall j :: 0 <= j < |old(evictList)| ==> old(evictList)[j].key > offset
      ensures r == None ==> evictList == old(evictList)
      ensures r.Some? ==> Nearest(old(evictList), offset, i) && r.value == old(evictList)[i].value
                          && evictList == Without(old(evictList), i)
    {
      i := 0;
      if offset in items {
        var e := items[offset];
        i := Index(evictList, offset);
        RemoveElement(e, i);
        return Some(e.value), i;
      }
      var keys := Keys();
      SortedHas(keys);
      var sorted := SortDown(keys);
      for n := 0 to |sorted|
        invariant forall m :: 0 <= m < n ==> sorted[m] > offset
        invariant evictList == old(evictList) && items == old(items)
      {
        if sorted[n] < offset {
          var k := sorted[n];
          assert k in sorted;
          var e := items[k];
          i := Index(evictList, k);
          NearestFound(evictList, sorted, offset, n, i);
          RemoveElement(e, i);
          return Some(e.value), i;
        }
        assert sorted[n] in sorted;
      }
      forall j | 0 <= j < |evictList| ensures evictList[j].key > offset {
        assert evictList[j].key in items;
        assert evictList[j].key in sorted;
      }
      return None, i;
    }

    // A reader comes in at the front, and the oldest one may have to leave; its reader is
    // closed. At an offset that is taken nothing happens: the reader is neither kept nor closed.
    method Put(offset: int, rc: V) returns (evicted: Option<V>)
      requires Valid()
      modifies this
      ensures Valid()
      ensures Has(old(evictList), offset) ==> evicted == None && evictList == old(evictList)
      ensures !Has(old(evictList), offset) ==>
                if |old(evictList)| < size then evicted == None && evictList == [Entry(offset, rc)] + old(evictList)
                else evicted == Some(old(evictList)[size - 1].value)
                     && evictList == [Entry(offset, rc)] + old(evictList)[..size - 1]
    {
      hide Matches, Has, Unique;
      InItems(evictList, items, offset);
      if offset in items {
        return None;
      }
      var e := Entry(offset, rc);
      MatchesPush(evictList, items, e);
      evictList := [e] + evictList;
      items := items[offset := e];
      if |evictList| > size {
        var oldest := evictList[|evictList| - 1];
        RemoveElement(oldest, |evictList| - 1);
        return Some(oldest.value);
      }
      return None;
    }

    // Every reader left is closed, the oldest first.
    method Close() returns (closed: seq<V>)
      requires Valid()
      modifies this
      ensures Valid() && evictList == []
      ensures |closed| == |old(evictList)|
      ensures forall i :: 0 <= i < |closed| ==> closed[i] == old(evictList)[|closed| - 1 - i].value
    {
      closed := [];
      while |evictList| > 0
        invariant Valid() && evictList == old(evictList)[..|evictList|] && |closed| == |old(evictList)| - |evictList|
        invariant forall i :: 0 <= i < |closed| ==> closed[i] == old(evictList)[|old(evictList)| - 1 - i].value
        decreases |evictList|
      {
        var e := evictList[|evictList| - 1];
        RemoveElement(e, |evictList| - 1);
        closed := closed + [e.value];
      }
    }
  }

  method Position<V(==)>(list: seq<Entry<V>>, e: Entry<V>) returns (n: nat)
    requires exists i :: 0 <= i < |list| && list[i] == e
    requires Unique(list)
    ensures n < |list| && list[n] == e
    ensures forall i :: 0 <= i < |list| && list[i] == e ==> i == n
  {
    n := 0;
    while list[n] != e
      invariant n < |list| && forall i :: 0 <= i < n ==> list[i] != e
      decreases |list| - n
    {
      n := n + 1;
    }
  }

  ghost function Index<V>(list: seq<Entry<V>>, key: int): (i: nat)
    requires Has(list, key)
    ensures i < |list| && list[i].key == key
  {
    var i :| 0 <= i < |list| && list[i].key == key;
    i
  }

  lemma Removed<V>(list: seq<Entry<V>>, i: nat)
    requires i < |list| && Unique(list)
    ensures Unique(Without(list, i))
    ensures forall k :: Has(Without(list, i), k) <==> Has(list, k) && k != list[i].key
  {
    var rest := Without(list, i);
    forall k ensures Has(rest, k) <==> Has(list, k) && k != list[i].key {
      if Has(list, k) && k != list[i].key {
        var j := Index(list, k);
        assert rest[if j < i then j else j - 1].key == k;
      }
      if Has(rest, k) {
        var j := Index(rest, k);
        assert list[if j < i then j else j + 1].key == k;
      }
    }
  }

  lemma InItems<V>(list: seq<Entry<V>>, items: map<int, Entry<V>>, k: int)
    requires Matches(list, items)
    ensures k in items <==> Has(list, k)
  {
  }

  lemma MatchesRemove<V>(list: seq<Entry<V>>, items: map<int, Entry<V>>, i: nat)
    requires Matches(list, items) && i < |list|
    ensures Matches(Without(list, i), items - {list[i].key}) && Unique(list)
  {
    Removed(list, i);
  }

  lemma MatchesPush<V>(list: seq<Entry<V>>, items: map<int, Entry<V>>, e: Entry<V>)
    requires Matches(list, items) && !Has(list, e.key)
    ensures Matches([e] + list, items[e.key := e])
  {
    PushedFront(list, e);
    forall j | 0 <= j < |list| ensures list[j].key != e.key {
      assert list[j].key in items;
    }
  }

  lemma KeysAre<V>(list: seq<Entry<V>>, keys: seq<int>)
    requires Unique(list) && |keys| == |list|
    requires forall j :: 0 <= j < |keys| ==> keys[j] == list[|list| - 1 - j].key
    ensures Distinct(keys) && forall k :: k in keys <==> Has(list, k)
  {
    forall k ensures k in keys <==> Has(list, k) {
      if Has(list, k) {
        assert keys[|list| - 1 - Index(list, k)] == k;
      }
      if k in keys {
        var j :| 0 <= j < |keys| && keys[j] == k;
        assert list[|list| - 1 - j].key == k;
      }
    }
  }

  lemma NearestFound<V>(list: seq<Entry<V>>, sorted: seq<int>, offset: int, n: nat, i: nat)
    requires n < |sorted| && i < |list| && list[i].key == sorted[n] < offset
    requires Descending(sorted) && forall m :: 0 <= m < n ==> sorted[m] > offset
    requires forall j :: 0 <= j < |list| ==> list[j].key in sorted
    ensures Nearest(list, offset, i)
  {
  }

  lemma PushedFront<V>(list: seq<Entry<V>>, e: Entry<V>)
    requires Unique(list) && !Has(list, e.key)
    ensures Unique([e] + list)
    ensures forall k :: Has([e] + list, k) <==> k == e.key || Has(list, k)
  {
    forall k ensures Has([e] + list, k) <==> k == e.key || Has(list, k) {
      assert ([e] + list)[0].key == e.key;
      if Has(list, k) {
        assert ([e] + list)[Index(list, k) + 1].key == k;
      }
    }
  }
}
