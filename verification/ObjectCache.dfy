/** The byte-bounded object cache: a map and a recency list, most recent first. */
module ObjectCache {

  import opened Options
  import opened Sequences

  datatype CacheItem = CacheItem(key: string, value: seq<int>, size: nat, createdAt: int, accessedAt: int,
                                 accessCount: int)

  const DefaultMaxBytes := 0x7_8000_0000
  const DefaultTtl := 300_000_000_000

  // ---- recency lists ----

  function Sum(items: seq<CacheItem>): nat {
    if items == [] then 0 else Sum(items[..|items| - 1]) + items[|items| - 1].size
  }

  /** The map a recency list stands for. */
  function AsMap(list: seq<CacheItem>): map<string, CacheItem> {
    if list == [] then map[] else AsMap(list[..|list| - 1])[list[|list| - 1].key := list[|list| - 1]]
  }

  /** No key comes twice. */
  ghost predicate Distinct(items: seq<CacheItem>) {
    items == []
    || (Distinct(items[..|items| - 1]) && items[|items| - 1].key !in AsMap(items[..|items| - 1]))
  }

  /** A recency list without the element of a key. */
  function Without(items: seq<CacheItem>, key: string): seq<CacheItem> {
    if items == [] then []
    else if items[|items| - 1].key == key then Without(items[..|items| - 1], key)
    else Without(items[..|items| - 1], key) + [items[|items| - 1]]
  }

  /** The list after dropping least recent items until the rest fits a budget. */
  function Fit(items: seq<CacheItem>, budget: int): seq<CacheItem> {
    if items == [] || Sum(items) <= budget then items else Fit(items[..|items| - 1], budget)
  }

  lemma {:induction false} SumAppend(a: seq<CacheItem>, b: seq<CacheItem>)
    ensures Sum(a + b) == Sum(a) + Sum(b)
  {
    if b == [] {
      assert a + b == a;
    } else {
      SumAppend(a, b[..|b| - 1]);
      assert (a + b)[..|a + b| - 1] == a + b[..|b| - 1];
    }
  }

  /** What is kept is the longest prefix of the recency order that fits. */
  lemma {:induction false} FitIsLongestPrefix(items: seq<CacheItem>, budget: int, k: nat)
    requires k <= |items|
    ensures Fit(items, budget) <= items
    ensures Sum(Fit(items, budget)) <= budget || Fit(items, budget) == []
    ensures k > |Fit(items, budget)| ==> Sum(items[..k]) > budget
  {
    if items == [] || Sum(items) <= budget {
    } else {
      var rest := items[..|items| - 1];
      if k < |items| {
        FitIsLongestPrefix(rest, budget, k);
        assert items[..k] == rest[..k];
      } else {
        FitIsLongestPrefix(rest, budget, 0);
        assert items[..k] == items;
      }
    }
  }

  lemma SumPush(items: seq<CacheItem>, x: CacheItem)
    ensures Sum(items + [x]) == Sum(items) + x.size
  {
    assert (items + [x])[..|items|] == items;
  }

  /** Map and list hold the same items, each key once. */
  ghost predicate Agree(items: map<string, CacheItem>, list: seq<CacheItem>) {
    Distinct(list) && items == AsMap(list)
  }

  lemma {:induction false} AsMapKeys(list: seq<CacheItem>, key: string)
    requires key in AsMap(list)
    ensures AsMap(list)[key].key == key
  {
    if list[|list| - 1].key != key { AsMapKeys(list[..|list| - 1], key); }
  }

  lemma AsMapPush(list: seq<CacheItem>, x: CacheItem)
    ensures AsMap(list + [x]) == AsMap(list)[x.key := x]
  {
    assert (list + [x])[..|list|] == list;
  }

  lemma {:induction false} AsMapWithout(list: seq<CacheItem>, key: string)
    ensures AsMap(Without(list, key)) == AsMap(list) - {key}
  {
    if list != [] {
      var rest, last := list[..|list| - 1], list[|list| - 1];
      AsMapWithout(rest, key);
      if last.key == key {
        assert Without(list, key) == Without(rest, key);
        assert AsMap(rest)[key := last] - {key} == AsMap(rest) - {key};
      } else {
        AsMapPush(Without(rest, key), last);
        assert AsMap(rest)[last.key := last] - {key} == (AsMap(rest) - {key})[last.key := last];
      }
    }
  }

  lemma DistinctPush(items: seq<CacheItem>, x: CacheItem)
    requires Distinct(items) && x.key !in AsMap(items)
    ensures Distinct(items + [x])
  {
    assert (items + [x])[..|items|] == items;
  }

  lemma {:induction false} WithoutDistinct(items: seq<CacheItem>, key: string)
    requires Distinct(items)
    ensures Distinct(Without(items, key))
  {
    if items != [] {
      var rest, last := items[..|items| - 1], items[|items| - 1];
      WithoutDistinct(rest, key);
      AsMapWithout(rest, key);
      if last.key != key {
        DistinctPush(Without(rest, key), last);
      }
    }
  }

  lemma {:induction false} WithoutAppend(a: seq<CacheItem>, b: seq<CacheItem>, key: string)
    ensures Without(a + b, key) == Without(a, key) + Without(b, key)
  {
    if b == [] {
      assert a + b == a;
    } else {
      var last := b[|b| - 1];
      WithoutAppend(a, b[..|b| - 1], key);
      LastOfBoth(a, b);
      if last.key != key { Regroup(Without(a, key), Without(b[..|b| - 1], key), [last]); }
    }
  }

  /** Taking a key out leaves the other items where they are. */
  lemma WithoutKeepsOrder(a: seq<CacheItem>, x: CacheItem, b: seq<CacheItem>)
    requires x.key !in AsMap(a) && x.key !in AsMap(b)
    ensures Without(a + [x] + b, x.key) == a + b
  {
    WithoutAppend(a + [x], b, x.key);
    WithoutAppend(a, [x], x.key);
    WithoutAbsent(a, x.key);
    WithoutAbsent(b, x.key);
    assert [x][..0] == [];
    assert a + [] == a;
  }

  lemma FrontAndLast(items: seq<CacheItem>)
    requires items != []
    ensures items == items[..|items| - 1] + [items[|items| - 1]]
  {
  }

  lemma {:induction false} WithoutAbsent(items: seq<CacheItem>, key: string)
    requires key !in AsMap(items)
    ensures Without(items, key) == items
  {
    if items != [] {
      WithoutAbsent(items[..|items| - 1], key);
      FrontAndLast(items);
    }
  }

  lemma {:induction false} WithoutSum(items: seq<CacheItem>, key: string)
    requires Distinct(items) && key in AsMap(items)
    ensures Sum(Without(items, key)) == Sum(items) - AsMap(items)[key].size
    ensures |Without(items, key)| == |items| - 1
  {
    var rest, last := items[..|items| - 1], items[|items| - 1];
    if last.key == key {
      WithoutAbsent(rest, key);
    } else {
      WithoutSum(rest, key);
      SumPush(Without(rest, key), last);
    }
  }

  lemma {:induction false} AsMapFront(list: seq<CacheItem>, x: CacheItem)
    requires x.key !in AsMap(list)
    ensures AsMap([x] + list) == AsMap(list)[x.key := x]
  {
    if list == [] {
      assert [x] + list == [x] && [x][..0] == [];
    } else {
      var rest, last := list[..|list| - 1], list[|list| - 1];
      AsMapFront(rest, x);
      assert ([x] + list)[..|list|] == [x] + rest;
    }
  }

  lemma {:induction false} DistinctFront(list: seq<CacheItem>, x: CacheItem)
    requires Distinct(list) && x.key !in AsMap(list)
    ensures Distinct([x] + list)
  {
    if list == [] {
      assert [x] + list == [x] && [x][..0] == [];
    } else {
      var rest := list[..|list| - 1];
      DistinctFront(rest, x);
      AsMapFront(rest, x);
      assert ([x] + list)[..|list|] == [x] + rest;
    }
  }

  /** Taking a key out of both keeps the agreement, and the sum drops by its size. */
  lemma AgreeWithout(items: map<string, CacheItem>, list: seq<CacheItem>, key: string)
    requires Agree(items, list)
    ensures Agree(items - {key}, Without(list, key))
    ensures key in items ==> Sum(list) == Sum(Without(list, key)) + items[key].size
    ensures key in items ==> |Without(list, key)| == |list| - 1
    ensures key !in items ==> Without(list, key) == list
  {
    WithoutDistinct(list, key);
    AsMapWithout(list, key);
    if key in items {
      WithoutSum(list, key);
    } else {
      WithoutAbsent(list, key);
    }
  }

  /** Putting a new key in front keeps the agreement, and the sum grows by its size. */
  lemma AgreeFront(items: map<string, CacheItem>, list: seq<CacheItem>, item: CacheItem)
    requires Agree(items, list) && item.key !in items
    ensures Agree(items[item.key := item], [item] + list)
    ensures Sum([item] + list) == Sum(list) + item.size
  {
    SumAppend([item], list);
    assert [item][..0] == [] && Sum([item]) == item.size;
    AsMapFront(list, item);
    DistinctFront(list, item);
  }

  lemma KeyOf(items: map<string, CacheItem>, list: seq<CacheItem>, key: string)
    requires Agree(items, list) && key in items
    ensures items[key].key == key
  {
    AsMapKeys(list, key);
  }

  lemma AbsentStays(items: map<string, CacheItem>, list: seq<CacheItem>, key: string)
    requires Agree(items, list) && key !in items
    ensures Without(list, key) == list
  {
    AgreeWithout(items, list, key);
  }

  lemma AgreeRefront(items: map<string, CacheItem>, list: seq<CacheItem>, item: CacheItem)
    requires Agree(items, list) && item.key in items && item.size == items[item.key].size
    ensures Agree(items[item.key := item], [item] + Without(list, item.key))
    ensures Sum([item] + Without(list, item.key)) == Sum(list)
    ensures |[item] + Without(list, item.key)| == |list|
  {
    AgreeWithout(items, list, item.key);
    AgreeFront(items - {item.key}, Without(list, item.key), item);
    PutOver(items, item);
  }

  lemma PutOver(items: map<string, CacheItem>, item: CacheItem)
    ensures (items - {item.key})[item.key := item] == items[item.key := item]
  {
  }

  /** Every item holds the value last set for its key, at its length. */
  ghost predicate Recorded(items: map<string, CacheItem>, lastSet: map<string, seq<int>>) {
    forall k | k in items :: items[k].size == |items[k].value| && k in lastSet && items[k].value == lastSet[k]
  }

  lemma RecordedWithout(items: map<string, CacheItem>, lastSet: map<string, seq<int>>, key: string)
    requires Recorded(items, lastSet)
    ensures Recorded(items - {key}, lastSet)
  {
  }

  lemma RecordedSet(items: map<string, CacheItem>, lastSet: map<string, seq<int>>, item: CacheItem)
    requires Recorded(items, lastSet) && item.size == |item.value|
    ensures Recorded(items[item.key := item], lastSet[item.key := item.value])
  {
  }

  function Touched(item: CacheItem, now: int): CacheItem {
    item.(accessedAt := now, accessCount := item.accessCount + 1)
  }

  class ObjectCache {
    var items: map<string, CacheItem>
    var lruList: seq<CacheItem>
    const maxBytes: int
    const ttl: int
    var size: int
    var hits: nat
    var misses: nat
    ghost var lastSet: map<string, seq<int>>

    ghost predicate Valid()
      reads this
    {
      && maxBytes > 0
      && Agree(items, lruList)
      && size == Sum(lruList)
      && (size <= maxBytes || |lruList| == 1)
      && Recorded(items, lastSet)
    }

    /** Valid but for one key: the list does not hold it, and the map may still name its former element. */
    ghost predicate Unlinked(key: string)
      reads this
    {
      maxBytes > 0 && size == Sum(lruList) && Agree(items - {key}, lruList) && Recorded(items, lastSet)
    }

    constructor (maxBytes: int, ttl: int)
      ensures Valid() && lruList == [] && hits == misses == 0
      ensures this.maxBytes == (if maxBytes <= 0 then DefaultMaxBytes else maxBytes)
      ensures this.ttl == (if ttl <= 0 then DefaultTtl else ttl)
    {
      this.maxBytes := if maxBytes <= 0 then DefaultMaxBytes else maxBytes;
      this.ttl := if ttl <= 0 then DefaultTtl else ttl;
      items, lruList, size, hits, misses, lastSet := map[], [], 0, 0, 0, map[];
    }

    /** Removes an element from map, list and size. */
    method DeleteElement(key: string)
      requires Valid() && key in items
      modifies this`items, this`lruList, this`size
      ensures Valid() && lruList == Without(old(lruList), key) && items == old(items) - {key}
    {
      AgreeWithout(items, lruList, key);
      var item := items[key];
      items := items - {key};
      lruList := Without(lruList, key);
      size := size - item.size;
    }

    /** A hit is the value last set for the key and moves it to the front; an expired item is dropped. */
    method Get(key: string, now: int) returns (r: Option<seq<int>>)
      requires Valid()
      modifies this
      ensures Valid() && lastSet == old(lastSet)
      ensures r.Some? <==> key in old(items) && now - old(items)[key].createdAt <= ttl
      ensures r.Some? ==> key in lastSet && r.value == lastSet[key]
      ensures r.Some? ==> lruList == [Touched(old(items)[key], now)] + Without(old(lruList), key)
      ensures r.Some? ==> lruList[0].accessCount == old(items)[key].accessCount + 1 && lruList[0].accessedAt == now
      ensures r.None? ==> lruList == Without(old(lruList), key)
      ensures hits == old(hits) + (if r.Some? then 1 else 0)
      ensures misses == old(misses) + (if r.Some? then 0 else 1)
    {
      if key !in items {
        AbsentStays(items, lruList, key);
        misses := misses + 1;
        return None;
      }
      var item := items[key];
      if now - item.createdAt > ttl {
        DeleteElement(key);
        misses := misses + 1;
        return None;
      }
      MoveToFront(key, now);
      hits := hits + 1;
      return Some(item.value);
    }

    /** Notes an access to the key's element and moves it to the front of the list. */
    method MoveToFront(key: string, now: int)
      requires Valid() && key in items
      modifies this`items, this`lruList
      ensures Valid() && lruList == [Touched(old(items)[key], now)] + Without(old(lruList), key)
      ensures items == old(items)[key := Touched(old(items)[key], now)]
    {
      KeyOf(items, lruList, key);
      var item := Touched(items[key], now);
      AgreeRefront(items, lruList, item);
      lruList := [item] + Without(lruList, key);
      items := items[key := item];
    }

    /** Stores a value in front. An older value of the key goes first, then the least recent items until the new
        one fits or nothing is left: what stays is the longest prefix of the recency order that fits. */
    method Set(key: string, value: seq<int>, now: int)
      requires Valid()
      modifies this
      ensures Valid() && lastSet == old(lastSet)[key := value]
      ensures lruList
           == [CacheItem(key, value, |value|, now, now, 1)] + Fit(Without(old(lruList), key), maxBytes - |value|)
      ensures hits == old(hits) && misses == old(misses)
    {
      var item := CacheItem(key, value, |value|, now, now, 1);
      Displace(key, item.size);
      PushFront(item);
    }

    /** Takes the key's element off the list, then makes room for one of `need` bytes. */
    method Displace(key: string, need: nat)
      requires Valid()
      modifies this`items, this`lruList, this`size
      ensures Unlinked(key) && lruList == Fit(Without(old(lruList), key), maxBytes - need)
      ensures size + need <= maxBytes || lruList == []
    {
      Unlink(key);
      MakeRoom(key, need);
    }

    /** Links a new element in front, in place of whatever the map still names for its key. */
    method PushFront(item: CacheItem)
      requires Unlinked(item.key) && item.size == |item.value|
      requires size + item.size <= maxBytes || lruList == []
      modifies this`items, this`lruList, this`size, this`lastSet
      ensures Valid() && lruList == [item] + old(lruList) && lastSet == old(lastSet)[item.key := item.value]
    {
      AgreeFront(items - {item.key}, lruList, item);
      PutOver(items, item);
      RecordedSet(items, lastSet, item);
      lruList := [item] + lruList;
      items := items[item.key := item];
      size := size + item.size;
      lastSet := lastSet[item.key := item.value];
    }

    /** Takes the key's element off the list; the map still names it. */
    method Unlink(key: string)
      requires Valid()
      modifies this`lruList, this`size
      ensures Unlinked(key) && lruList == Without(old(lruList), key)
    {
      AgreeWithout(items, lruList, key);
      if key in items {
        size := size - items[key].size;
        lruList := Without(lruList, key);
      }
    }

    /** Evicts from the end until `need` bytes fit, while the map may hold a stale entry for `stale`. */
    method MakeRoom(ghost stale: string, need: nat)
      requires Unlinked(stale)
      modifies this`items, this`lruList, this`size
      ensures Unlinked(stale) && lruList == Fit(old(lruList), maxBytes - need)
      ensures size + need <= maxBytes || lruList == []
    {
      while size + need > maxBytes && |lruList| > 0
        invariant Fit(lruList, maxBytes - need) == Fit(old(lruList), maxBytes - need)
        invariant Unlinked(stale)
        decreases |lruList|
      {
        EvictOldest(stale);
      }
    }

    /** Drops the last element, while the map may still hold a stale entry for `stale`. */
    method EvictOldest(ghost stale: string)
      requires Unlinked(stale) && |lruList| > 0
      modifies this`items, this`lruList, this`size
      ensures Unlinked(stale) && lruList == old(lruList)[..|old(lruList)| - 1]
      ensures items == old(items) - {old(lruList)[|old(lruList)| - 1].key}
    {
      var item := lruList[|lruList| - 1];
      LastIsFound(lruList);
      RecordedWithout(items, lastSet, item.key);
      AgreeWithout(items - {stale}, lruList, item.key);
      assert items - {item.key} - {stale} == items - {stale} - {item.key};
      items := items - {item.key};
      lruList := lruList[..|lruList| - 1];
      size := size - item.size;
    }

    method Delete(key: string)
      requires Valid()
      modifies this`items, this`lruList, this`size
      ensures Valid() && items == old(items) - {key} && lruList == Without(old(lruList), key)
    {
      AgreeWithout(items, lruList, key);
      if key in items {
        DeleteElement(key);
      }
    }

    method Clear()
      requires Valid()
      modifies this`items, this`lruList, this`size
      ensures Valid() && items == map[] && lruList == [] && size == 0
    {
      items, lruList, size := map[], [], 0;
    }
  }

  lemma LastIsFound(items: seq<CacheItem>)
    requires items != [] && Distinct(items)
    ensures Without(items, items[|items| - 1].key) == items[..|items| - 1]
  {
    var rest := items[..|items| - 1];
    WithoutAbsent(rest, items[|items| - 1].key);
    assert rest + [] == rest;
  }
}
