/** Totals by key: what every `map[k] = (map[k] ?? 0) + amount` loop computes. */
module Grouping {
  import opened Common

  datatype Item<K> = Item(key: K, amount: nat)

  function Total<K>(items: seq<Item<K>>): nat {
    if items == [] then 0 else Total(Front(items)) + Last(items).amount
  }

  /** What the items of one key add up to. */
  function TotalOf<K(==)>(items: seq<Item<K>>, key: K): nat {
    if items == [] then 0
    else TotalOf(Front(items), key) + if Last(items).key == key then Last(items).amount else 0
  }

  /** What the items with a key from a list add up to. */
  function TotalIn<K(==)>(items: seq<Item<K>>, keys: seq<K>): nat {
    if items == [] then 0
    else TotalIn(Front(items), keys) + if Last(items).key in keys then Last(items).amount else 0
  }

  /** The sum of the groups of some keys. */
  function SumOver<K(==)>(items: seq<Item<K>>, keys: seq<K>): nat {
    if keys == [] then 0 else SumOver(items, Front(keys)) + TotalOf(items, Last(keys))
  }

  predicate NoRepeats<K(==)>(keys: seq<K>) {
    forall i, j | 0 <= i < j < |keys| :: keys[i] != keys[j]
  }

  /** The keys in the order of their first items. */
  function Keys<K(==)>(items: seq<Item<K>>): seq<K> {
    if items == [] then []
    else if Last(items).key in Keys(Front(items)) then Keys(Front(items))
    else Keys(Front(items)) + [Last(items).key]
  }

  lemma {:induction false} KeysExact<K(!new)>(items: seq<Item<K>>)
    ensures NoRepeats(Keys(items))
    ensures forall i | 0 <= i < |items| :: items[i].key in Keys(items)
    ensures forall k | k in Keys(items) :: exists i :: 0 <= i < |items| && items[i].key == k
  {
    if items != [] {
      var front := Front(items);
      KeysExact(front);
      assert forall i | 0 <= i < |front| :: front[i] == items[i];
      forall k | k in Keys(items)
        ensures exists i :: 0 <= i < |items| && items[i].key == k
      {
        if k in Keys(front) {
          var i :| 0 <= i < |front| && front[i].key == k;
          assert items[i].key == k;
        } else {
          assert items[|items| - 1].key == k;
        }
      }
    }
  }

  lemma {:induction false} OneMoreItem<K>(items: seq<Item<K>>, keys: seq<K>)
    requires items != [] && NoRepeats(keys)
    ensures SumOver(items, keys)
         == SumOver(Front(items), keys) + if Last(items).key in keys then Last(items).amount else 0
  {
    if keys != [] {
      OneMoreItem(items, Front(keys));
      assert keys == Front(keys) + [Last(keys)];
      assert forall i | 0 <= i < |keys| - 1 :: Front(keys)[i] == keys[i] != Last(keys);
    }
  }

  lemma {:induction false} NoItems<K>(keys: seq<K>)
    ensures SumOver<K>([], keys) == 0
  {
    if keys != [] {
      NoItems(Front(keys));
    }
  }

  /** Grouping neither loses nor repeats an amount: the groups of some keys add up to the
      items of those keys. */
  lemma {:induction false} GroupsPartition<K>(items: seq<Item<K>>, keys: seq<K>)
    requires NoRepeats(keys)
    ensures SumOver(items, keys) == TotalIn(items, keys)
  {
    if items == [] {
      NoItems(keys);
    } else {
      GroupsPartition(Front(items), keys);
      OneMoreItem(items, keys);
    }
  }

  /** If exactly the first n items have listed keys, those items make up the total. */
  lemma {:induction false} FirstItemsIn<K>(items: seq<Item<K>>, keys: seq<K>, n: nat)
    requires n <= |items| && forall i | 0 <= i < |items| :: items[i].key in keys <==> i < n
    ensures TotalIn(items, keys) == Total(items[..n])
  {
    if items != [] {
      var front := Front(items);
      assert forall i | 0 <= i < |front| :: front[i] == items[i];
      if n == |items| {
        FirstItemsIn(front, keys, n - 1);
        assert items[..n] == items && front[..n - 1] == front;
        assert items[n - 1].key in keys;
      } else {
        FirstItemsIn(front, keys, n);
        assert front[..n] == items[..n];
        assert !(items[|items| - 1].key in keys);
      }
    }
  }

  /** All groups together are all items. */
  lemma AllGroups<K(!new)>(items: seq<Item<K>>)
    ensures SumOver(items, Keys(items)) == Total(items)
  {
    KeysExact(items);
    GroupsPartition(items, Keys(items));
    FirstItemsIn(items, Keys(items), |items|);
    assert items[..|items|] == items;
  }

  /** The accumulating loop: keys stay in the order of their first item. */
  method Accumulate<K(==,!new)>(items: seq<Item<K>>) returns (order: seq<K>, totals: map<K, nat>)
    ensures order == Keys(items)
    ensures forall k :: k in totals <==> k in order
    ensures forall k | k in totals :: totals[k] == TotalOf(items, k)
  {
    order, totals := [], map[];
    for n := 0 to |items|
      invariant order == Keys(items[..n])
      invariant forall k :: k in totals <==> k in order
      invariant forall k :: (if k in totals then totals[k] else 0) == TotalOf(items[..n], k)
    {
      var k, amount := items[n].key, items[n].amount;
      assert Front(items[..n + 1]) == items[..n];
      if k !in totals { order := order + [k]; }
      ghost var before := totals;
      totals := totals[k := (if k in totals then totals[k] else 0) + amount];
      forall x
        ensures (if x in totals then totals[x] else 0) == TotalOf(items[..n + 1], x)
      {
        assert (if x in before then before[x] else 0) == TotalOf(items[..n], x);
      }
    }
    assert items[..|items|] == items;
  }
}
