/** The list panel: one item per thread and name, kept sorted incrementally. */
module PanelLists {
  /** `value` is the accumulated first column; `opos` is the item's place in the
      sorted list, negative while it has none. */
  class Item {
    const id: nat
    var value: int
    var opos: int

    constructor (id: nat)
      ensures this.id == id && value == 0 && opos == -2
    {
      this.id, value, opos := id, 0, -2;
    }
  }

  datatype Key = Key(thread: nat, name: string)

  ghost predicate Descending(s: seq<Item>)
    reads (set x | x in s)`value
  {
    forall j, k :: 0 <= j < k < |s| ==> s[j].value >= s[k].value
  }

  /** The items that have not been touched since the last merge are in order. */
  ghost predicate PlacedDescending(s: seq<Item>)
    reads s
  {
    forall j, k :: 0 <= j < k < |s| && s[j].opos >= 0 && s[k].opos >= 0 ==> s[j].value >= s[k].value
  }

  ghost predicate Distinct<T>(s: seq<T>) {
    forall j, k :: 0 <= j < k < |s| ==> s[j] != s[k]
  }

  lemma SplitAt<T>(s: seq<T>, i: nat)
    requires i < |s|
    ensures multiset(s) == multiset(s[..i]) + multiset{s[i]} + multiset(s[i + 1..])
  {
    assert s == s[..i] + [s[i]] + s[i + 1..];
  }

  lemma InsertAt<T>(s: seq<T>, i: nat, x: T)
    requires i <= |s|
    ensures multiset(s[..i] + [x] + s[i..]) == multiset(s) + multiset{x}
  {
    assert s == s[..i] + s[i..];
  }

  /** Elements of a set, each taken at most once. */
  lemma TakenOnce<T>(items: set<T>, s: seq<T>)
    requires multiset(s) <= multiset(items)
    ensures Distinct(s)
    ensures forall x :: x in s ==> x in items
  {
    forall j, k | 0 <= j < k < |s|
      ensures s[j] != s[k]
    {
      SplitAt(s, j);
      assert s[k] in s[j + 1..];
      assert multiset(items)[s[j]] <= 1;
    }
    forall x | x in s
      ensures x in items
    {
      assert x in multiset(s);
    }
  }

  lemma DescendingInsert(s: seq<Item>, i: nat, x: Item)
    requires Descending(s) && i <= |s|
    requires forall k :: 0 <= k < i ==> s[k].value >= x.value
    requires i < |s| ==> x.value >= s[i].value
    ensures Descending(s[..i] + [x] + s[i..])
  {
    assert forall k :: i <= k < |s| ==> s[i].value >= s[k].value;
  }

  lemma PlacedRemove(s: seq<Item>, i: nat)
    requires PlacedDescending(s) && i < |s|
    ensures PlacedDescending(s[..i] + s[i + 1..])
  {
    var r := s[..i] + s[i + 1..];
    forall j, k | 0 <= j < k < |r| && r[j].opos >= 0 && r[k].opos >= 0
      ensures r[j].value >= r[k].value
    {
      assert r[j] == s[if j < i then j else j + 1] && r[k] == s[if k < i then k else k + 1];
    }
  }

  lemma DescendingTail(s: seq<Item>)
    requires Descending(s) && s != []
    ensures s == [s[0]] + s[1..] && Descending(s[1..])
    ensures s[1..] != [] ==> s[0].value >= s[1..][0].value
  {
  }

  ghost predicate Numbered(s: seq<Item>, n: nat)
    requires n <= |s|
    reads (set x | x in s)`opos
  {
    forall k :: 0 <= k < n ==> s[k].opos == k
  }

  /** No item of `rest` is larger than the first `n` of `s`. */
  ghost predicate Ahead(s: seq<Item>, rest: seq<Item>, n: nat)
    requires n <= |s|
    reads (set x | x in s)`value, (set x | x in rest)`value
  {
    rest != [] ==> forall j :: 0 <= j < n ==> s[j].value >= rest[0].value
  }

  /** Moving the first item of `rest` in before item `i` of `s`, where it belongs. */
  lemma MoveIn(s: seq<Item>, rest: seq<Item>, i: nat, t: seq<Item>, left: seq<Item>)
    requires Descending(s) && Descending(rest) && rest != [] && i <= |s|
    requires Ahead(s, rest, i) && Numbered(s, i)
    requires i < |s| ==> rest[0].value >= s[i].value
    requires t == s[..i] + [rest[0]] + s[i..] && left == rest[1..]
    ensures Descending(t) && Descending(left)
    ensures multiset(t) + multiset(left) == multiset(s) + multiset(rest)
    ensures Ahead(t, left, i + 1) && Numbered(t, i)
  {
    InsertAt(s, i, rest[0]);
    DescendingInsert(s, i, rest[0]);
    DescendingTail(rest);
    assert forall j :: 0 <= j < i ==> t[j] == s[j];
  }

  class PanelList {
    var list: map<Key, Item>
    var ordered: seq<Item>
    var unordered: seq<Item>

    /** Every item is in exactly one of the two sequences, once. */
    ghost predicate Complete()
      reads this
    {
      multiset(ordered) + multiset(unordered) == multiset(list.Values)
    }

    ghost predicate Valid()
      reads this, list.Values, ordered, unordered
    {
      && Complete()
      && (forall a, b :: a in list && b in list && a != b ==> list[a] != list[b])
      && (forall k :: 0 <= k < |ordered| ==> ordered[k].opos == k || ordered[k].opos < 0)
      && (forall item :: item in unordered ==> item.opos < 0)
      && PlacedDescending(ordered)
    }

    /** What a reload starts from. */
    constructor ()
      ensures Valid() && list == map[] && ordered == [] && unordered == []
    {
      list, ordered, unordered := map[], [], [];
    }

    /** A node was updated: the item of its thread and name accumulates `gain`,
        and must be sorted in again. */
    method UpdateItem(key: Key, id: nat, gain: int)
      requires Valid()
      modifies this`list, this`unordered, list.Values
      ensures Valid()
      ensures list.Keys == old(list.Keys) + {key}
      ensures forall other :: other in old(list) ==> list[other] == old(list)[other]
      ensures forall other :: other in old(list) && other != key ==> list[other].value == old(list[other].value)
      ensures list[key].value == old(if key in list then list[key].value else 0) + gain
      ensures list[key].opos < 0
    {
      if key !in list {
        AddItem(key, id);
      }
      TouchItem(list[key], gain);
    }

    method AddItem(key: Key, id: nat)
      requires Valid() && key !in list
      modifies this`list, this`unordered
      ensures Valid() && key in list && fresh(list[key]) && list == old(list)[key := list[key]]
      ensures list[key].value == 0
    {
      var item := new Item(id);
      ghost var values := list.Values;
      list := list[key := item];
      assert list.Values == values + {item} by {
        assert list[key] == item;
        assert forall other :: other in old(list) ==> list[other] == old(list)[other];
      }
      assert multiset(values + {item}) == multiset(values) + multiset{item};
      unordered := unordered + [item];
    }

    method TouchItem(item: Item, gain: int)
      requires Valid() && item in list.Values
      modifies item`opos, item`value
      ensures Valid() && item.opos < 0 && item.value == old(item.value) + gain
    {
      if item.opos >= 0 {
        InOrdered(item);
        assert ordered[item.opos].id == item.id;
        item.opos := -1;
      }
      item.value := item.value + gain;
    }

    /** An item with a place is in the sorted list, at that place. */
    lemma InOrdered(item: Item)
      requires Valid() && item in list.Values && item.opos >= 0
      ensures item.opos < |ordered| && ordered[item.opos] == item
    {
      assert item in multiset(list.Values);
      assert item in multiset(ordered) || item in multiset(unordered);
    }

    method TakeOut(i: nat)
      requires Complete() && PlacedDescending(ordered) && i < |ordered|
      modifies this`ordered, this`unordered
      ensures Complete() && PlacedDescending(ordered)
      ensures ordered == old(ordered[..i] + ordered[i + 1..]) && unordered == old(unordered + [ordered[i]])
    {
      SplitAt(ordered, i);
      PlacedRemove(ordered, i);
      unordered := unordered + [ordered[i]];
      ordered := ordered[..i] + ordered[i + 1..];
    }

    /** Puts the items whose value may have changed aside. */
    method TakeOutUpdated()
      requires Valid()
      modifies this`ordered, this`unordered
      ensures Complete() && Descending(ordered)
    {
      var i := 0;
      while i < |ordered|
        invariant 0 <= i <= |ordered|
        invariant Complete() && PlacedDescending(ordered)
        invariant forall k :: 0 <= k < i ==> ordered[k].opos >= 0
        decreases |ordered| - i
      {
        if ordered[i].opos < 0 {
          TakeOut(i);
        } else {
          i := i + 1;
        }
      }
    }

    /** Sorts a list of items, largest value first. */
    static method Sort(items: seq<Item>) returns (r: seq<Item>)
      ensures multiset(r) == multiset(items) && Descending(r)
    {
      r := [];
      for n := 0 to |items|
        invariant multiset(r) == multiset(items[..n]) && Descending(r)
      {
        var i := 0;
        while i < |r| && r[i].value >= items[n].value
          invariant 0 <= i <= |r|
          invariant forall k :: 0 <= k < i ==> r[k].value >= items[n].value
        {
          i := i + 1;
        }
        InsertAt(r, i, items[n]);
        DescendingInsert(r, i, items[n]);
        r := r[..i] + [items[n]] + r[i..];
        assert items[..n + 1] == items[..n] + [items[n]];
      }
      assert items[..|items|] == items;
    }

    /** Merges the sorted rest into the sorted list, numbering as it goes; the
        list grows while the loop runs. */
    method InsertUnordered()
      requires Complete() && Descending(ordered) && Descending(unordered)
      modifies this`ordered, this`unordered, list.Values`opos
      ensures Complete() && Descending(ordered) && Descending(unordered)
      ensures Numbered(ordered, |ordered|) && Ahead(ordered, unordered, |ordered|)
    {
      var i := 0;
      while i < |ordered|
        invariant 0 <= i <= |ordered|
        invariant Complete() && Descending(ordered) && Descending(unordered)
        invariant Numbered(ordered, i) && Ahead(ordered, unordered, i)
        decreases |ordered| + |unordered| - i
      {
        if |unordered| > 0 && -(ordered[i].value - unordered[0].value) > 0 {
          InsertFirst(i);
        }
        SetPlace(i);
        i := i + 1;
      }
    }

    method SetPlace(i: nat)
      requires Complete() && i < |ordered| && Numbered(ordered, i)
      modifies list.Values`opos
      ensures Numbered(ordered, i + 1)
    {
      TakenOnce(list.Values, ordered);
      ordered[i].opos := i;
    }

    method InsertFirst(i: nat)
      requires Complete() && Descending(ordered) && Descending(unordered)
      requires i <= |ordered| && unordered != [] && Ahead(ordered, unordered, i) && Numbered(ordered, i)
      requires i < |ordered| ==> ordered[i].value < unordered[0].value
      modifies this`ordered, this`unordered
      ensures Complete() && Descending(ordered) && Descending(unordered)
      ensures |ordered| == |old(ordered)| + 1 && |unordered| == |old(unordered)| - 1
      ensures Ahead(ordered, unordered, i + 1) && Numbered(ordered, i)
    {
      var longer, left := ordered[..i] + [unordered[0]] + ordered[i..], unordered[1..];
      MoveIn(ordered, unordered, i, longer, left);
      ordered, unordered := longer, left;
    }

    /** Appends what is left. */
    method AppendUnordered()
      requires Complete() && Descending(ordered) && Descending(unordered)
      requires Numbered(ordered, |ordered|) && Ahead(ordered, unordered, |ordered|)
      modifies this`ordered, this`unordered, list.Values`opos
      ensures Complete() && unordered == [] && Descending(ordered) && Numbered(ordered, |ordered|)
    {
      while unordered != []
        invariant Complete() && Descending(ordered) && Descending(unordered)
        invariant Numbered(ordered, |ordered|) && Ahead(ordered, unordered, |ordered|)
        decreases |unordered|
      {
        InsertFirst(|ordered|);
        SetPlace(|ordered| - 1);
      }
    }

    /** Brings the list up to date: all items, in descending order, each knowing
        its place. */
    method MergeOrdered()
      requires Valid()
      modifies this`ordered, this`unordered, list.Values`opos
      ensures Valid()
      ensures multiset(ordered) == multiset(list.Values) && unordered == []
      ensures Descending(ordered)
      ensures forall k :: 0 <= k < |ordered| ==> ordered[k].opos == k
    {
      TakeOutUpdated();
      unordered := Sort(unordered);
      InsertUnordered();
      AppendUnordered();
    }
  }
}
