/** Grouping keyed items by step, and what it conserves. Tools and secrets are grouped alike. */
module Grouping {
  datatype Keyed<T> = Keyed(key: string, item: T)

  /** The items under one key, in order. */
  function Under<T>(items: seq<Keyed<T>>, key: string): seq<T> {
    if items == [] then []
    else
      var n := |items| - 1;
      Under(items[..n], key) + if items[n].key == key then [items[n].item] else []
  }

  /** What the steps with these keys hold together. */
  function Placed<T>(keys: seq<string>, items: seq<Keyed<T>>): seq<T> {
    if keys == [] then []
    else
      var n := |keys| - 1;
      Placed(keys[..n], items) + Under(items, keys[n])
  }

  /** How often x occurs in s. */
  function Count<T(==)>(s: seq<T>, x: T): nat {
    if s == [] then 0 else Count(s[..|s| - 1], x) + if s[|s| - 1] == x then 1 else 0
  }

  /** How many steps carry the key. */
  function Times(keys: seq<string>, key: string): nat { Count(keys, key) }

  function ItemsOf<T>(items: seq<Keyed<T>>): seq<T> {
    if items == [] then [] else ItemsOf(items[..|items| - 1]) + [items[|items| - 1].item]
  }

  lemma UnderOneMore<T>(items: seq<Keyed<T>>, k: Keyed<T>, key: string)
    ensures Under(items + [k], key) == Under(items, key) + if k.key == key then [k.item] else []
  {
  }

  lemma PlacedSnoc<T>(keys: seq<string>, items: seq<Keyed<T>>)
    requires keys != []
    ensures var n := |keys| - 1;
            multiset(Placed(keys, items)) == multiset(Placed(keys[..n], items)) + multiset(Under(items, keys[n]))
  {
  }

  lemma AddOne<T>(front: multiset<T>, frontMore: multiset<T>, last: multiset<T>, lastMore: multiset<T>, x: T)
    ensures frontMore == front && lastMore == last ==> frontMore + lastMore == front + last
    ensures frontMore == front && lastMore == last + multiset{x} ==> frontMore + lastMore == front + last + multiset{x}
    ensures frontMore == front + multiset{x} && lastMore == last ==> frontMore + lastMore == front + last + multiset{x}
  {
  }

  lemma UnderCounts<T>(items: seq<Keyed<T>>, k: Keyed<T>, key: string)
    ensures k.key == key ==> multiset(Under(items + [k], key)) == multiset(Under(items, key)) + multiset{k.item}
    ensures k.key != key ==> multiset(Under(items + [k], key)) == multiset(Under(items, key))
  {
    UnderOneMore(items, k, key);
  }

  /** One more item is not placed at all when no step carries its key, and once when one step does. */
  lemma {:induction false} PlacedOneMore<T>(keys: seq<string>, items: seq<Keyed<T>>, k: Keyed<T>)
    ensures Times(keys, k.key) == 0 ==> multiset(Placed(keys, items + [k])) == multiset(Placed(keys, items))
    ensures Times(keys, k.key) == 1 ==>
              multiset(Placed(keys, items + [k])) == multiset(Placed(keys, items)) + multiset{k.item}
  {
    if keys != [] {
      var n := |keys| - 1;
      PlacedOneMore(keys[..n], items, k);
      PlacedSnoc(keys, items);
      PlacedSnoc(keys, items + [k]);
      UnderCounts(items, k, keys[n]);
      AddOne(multiset(Placed(keys[..n], items)), multiset(Placed(keys[..n], items + [k])),
             multiset(Under(items, keys[n])), multiset(Under(items + [k], keys[n])), k.item);
    }
  }

  lemma {:induction false} PlacedLength<T>(keys: seq<string>, items: seq<Keyed<T>>, k: Keyed<T>)
    ensures |Placed(keys, items + [k])| == |Placed(keys, items)| + Times(keys, k.key)
  {
    if keys != [] {
      PlacedLength(keys[..|keys| - 1], items, k);
      UnderOneMore(items, k, keys[|keys| - 1]);
    }
  }

  lemma {:induction false} PlacedNothing<T>(keys: seq<string>)
    ensures Placed<T>(keys, []) == []
  {
    if keys != [] {
      PlacedNothing<T>(keys[..|keys| - 1]);
    }
  }

  /** Every item's key belongs to some step. */
  ghost predicate Listed<T>(keys: seq<string>, items: seq<Keyed<T>>) {
    forall i :: 0 <= i < |items| ==> Times(keys, items[i].key) >= 1
  }

  /** Every item's key belongs to exactly one step. */
  ghost predicate ListedOnce<T>(keys: seq<string>, items: seq<Keyed<T>>) {
    forall i :: 0 <= i < |items| ==> Times(keys, items[i].key) == 1
  }

  lemma ListedSplit<T>(keys: seq<string>, items: seq<Keyed<T>>)
    requires items != []
    ensures var n := |items| - 1;
            && items == items[..n] + [items[n]]
            && (Listed(keys, items) <==> Listed(keys, items[..n]) && Times(keys, items[n].key) >= 1)
            && (ListedOnce(keys, items) <==> ListedOnce(keys, items[..n]) && Times(keys, items[n].key) == 1)
  {
  }

  /** With every key listed, no item is lost; the number is conserved exactly when no key is listed twice. */
  lemma {:induction false} PlacedCount<T>(keys: seq<string>, items: seq<Keyed<T>>)
    requires Listed(keys, items)
    ensures |Placed(keys, items)| >= |items|
    ensures |Placed(keys, items)| == |items| <==> ListedOnce(keys, items)
  {
    if items == [] {
      PlacedNothing<T>(keys);
    } else {
      var n := |items| - 1;
      ListedSplit(keys, items);
      PlacedCount(keys, items[..n]);
      PlacedLength(keys, items[..n], items[n]);
    }
  }

  /** With every key listed exactly once, every item is placed exactly as often as it occurs. */
  lemma {:induction false} PlacedConserves<T>(keys: seq<string>, items: seq<Keyed<T>>)
    requires ListedOnce(keys, items)
    ensures multiset(Placed(keys, items)) == multiset(ItemsOf(items))
  {
    if items == [] {
      PlacedNothing<T>(keys);
    } else {
      var n := |items| - 1;
      ListedSplit(keys, items);
      PlacedConserves(keys, items[..n]);
      PlacedOneMore(keys, items[..n], items[n]);
      assert multiset(ItemsOf(items)) == multiset(ItemsOf(items[..n])) + multiset{items[n].item};
    }
  }

  /** Placed holds exactly the items whose key is listed. */
  lemma {:induction false} UnderMembers<T>(items: seq<Keyed<T>>, key: string, x: T)
    ensures x in Under(items, key) <==> exists i :: 0 <= i < |items| && items[i].key == key && items[i].item == x
  {
    if items != [] {
      UnderMembers(items[..|items| - 1], key, x);
    }
  }

  lemma {:induction false} PlacedMembers<T>(keys: seq<string>, items: seq<Keyed<T>>, x: T)
    ensures x in Placed(keys, items) <==> exists i :: 0 <= i < |items| && items[i].key in keys && items[i].item == x
  {
    if keys != [] {
      var n := |keys| - 1;
      PlacedMembers(keys[..n], items, x);
      UnderMembers(items, keys[n], x);
      assert keys == keys[..n] + [keys[n]];
    }
  }
}
