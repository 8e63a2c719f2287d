/** The plain LRU list that the depot's object cache has to behave like:
    least recently used item first, one item per object. */
module LruList {
  import opened Common
  import opened Git

  datatype Item = Item(oid: Oid, kind: Kind, data: Bytes)

  function Total(l: seq<Item>): nat {
    if l == [] then 0 else |l[0].data| + Total(l[1..])
  }

  predicate Holds(l: seq<Item>, o: Oid) {
    exists x :: x in l && x.oid == o
  }

  predicate Distinct(l: seq<Item>) {
    l == [] || (!Holds(l[1..], l[0].oid) && Distinct(l[1..]))
  }

  function Find(l: seq<Item>, o: Oid): (r: Option<Item>)
    ensures r.Some? <==> Holds(l, o)
    ensures r.Some? ==> r.value in l && r.value.oid == o
  {
    if l == [] then None
    else if l[0].oid == o then Some(l[0])
    else assert l == [l[0]] + l[1..]; Find(l[1..], o)
  }

  function Without(l: seq<Item>, o: Oid): (r: seq<Item>)
    ensures !Holds(r, o)
    ensures forall x :: x in r <==> x in l && x.oid != o
    ensures |r| <= |l|
  {
    if l == [] then []
    else (if l[0].oid == o then [] else [l[0]]) + Without(l[1..], o)
  }

  /** Drop the least recently used items until the rest fits. */
  function Evict(l: seq<Item>, budget: nat): (r: seq<Item>)
    ensures Total(r) <= budget
    ensures |r| <= |l|
  {
    if Total(l) <= budget then l else Evict(l[1..], budget)
  }

  function Touch(l: seq<Item>, o: Oid): seq<Item> {
    match Find(l, o)
    case None => l
    case Some(item) => Without(l, o) + [item]
  }

  /** What a read of `o` answers. */
  function Answer(l: seq<Item>, o: Oid): Option<(Kind, Bytes)> {
    match Find(l, o)
    case None => None
    case Some(item) => Some((item.kind, item.data))
  }

  /** An object larger than an eighth of the budget is never admitted. */
  predicate Admits(budget: nat, data: Bytes) {
    |data| <= budget / 8
  }

  function Insert(l: seq<Item>, budget: nat, item: Item): seq<Item> {
    if Admits(budget, item.data) then Evict(Without(l, item.oid) + [item], budget) else l
  }

  lemma {:induction false} EvictSubset(l: seq<Item>, budget: nat)
    ensures forall x :: x in Evict(l, budget) ==> x in l
  {
    if Total(l) > budget {
      EvictSubset(l[1..], budget);
    }
  }

  /** No operation invents an item, and a use loses none. */
  lemma NothingInvented(l: seq<Item>, o: Oid, budget: nat, item: Item)
    ensures forall x :: x in Touch(l, o) ==> x in l
    ensures forall k :: Holds(Touch(l, o), k) <==> Holds(l, k)
    ensures forall x :: x in Insert(l, budget, item) ==> x in l || x == item
  {
    EvictSubset(Without(l, item.oid) + [item], budget);
    if Find(l, o).Some? {
      assert Find(l, o).value in Touch(l, o);
      assert forall x :: x in l && x.oid != o ==> x in Touch(l, o);
    }
  }

  lemma {:induction false} TotalAppend(a: seq<Item>, b: seq<Item>)
    ensures Total(a + b) == Total(a) + Total(b)
  {
    if a == [] {
      assert a + b == b;
    } else {
      assert (a + b)[1..] == a[1..] + b;
      TotalAppend(a[1..], b);
    }
  }

  lemma {:induction false} WithoutAbsent(l: seq<Item>, o: Oid)
    requires !Holds(l, o)
    ensures Without(l, o) == l
  {
    if l != [] {
      assert l[0] in l && forall x :: x in l[1..] ==> x in l;
      WithoutAbsent(l[1..], o);
    }
  }

  lemma {:induction false} WithoutTotal(l: seq<Item>, o: Oid)
    requires Distinct(l) && Holds(l, o)
    ensures Total(l) == Total(Without(l, o)) + |Find(l, o).value.data|
  {
    if l[0].oid == o {
      WithoutAbsent(l[1..], o);
      assert Without(l, o) == l[1..];
    } else {
      assert l == [l[0]] + l[1..];
      WithoutTotal(l[1..], o);
      TotalAppend([l[0]], Without(l[1..], o));
    }
  }

  lemma {:induction false} WithoutDistinct(l: seq<Item>, o: Oid)
    requires Distinct(l)
    ensures Distinct(Without(l, o))
  {
    if l != [] {
      WithoutDistinct(l[1..], o);
      var w := Without(l[1..], o);
      if l[0].oid == o {
        assert Without(l, o) == w;
      } else {
        assert Without(l, o)[1..] == w;
      }
    }
  }

  /** What an admitted insertion promises: the item is there, as the most
      recent; only the oldest of the others went, none of them needlessly; and the
      rest fits the budget. */
  lemma {:induction false} InsertKeepsNewest(l: seq<Item>, budget: nat, item: Item)
    requires Admits(budget, item.data)
    ensures var r := Insert(l, budget, item);
            var full := Without(l, item.oid) + [item];
            && |r| > 0 && r[|r| - 1] == item
            && Total(r) <= budget
            && EvictedFrom(full, r, budget)
  {
    hide Without, Total, EvictedFrom;
    EvictIsLeast(Without(l, item.oid) + [item], budget);
  }

  /** `r` is what is left of `l` once just enough of its oldest items are gone. */
  predicate EvictedFrom(l: seq<Item>, r: seq<Item>, budget: nat) {
    exists n :: 0 <= n <= |l| && r == l[n..] && (n > 0 ==> Total(l[n - 1..]) > budget)
  }

  lemma {:induction false} EvictIsLeast(l: seq<Item>, budget: nat)
    requires |l| > 0 && |l[|l| - 1].data| <= budget
    ensures var r := Evict(l, budget);
            && |r| > 0 && r[|r| - 1] == l[|l| - 1]
            && EvictedFrom(l, r, budget)
  {
    hide EvictedFrom;
    if Total(l) <= budget {
      NoneEvicted(l, budget);
    } else {
      if |l| == 1 {
        OneTotal(l);
        assert false;
      }
      EvictIsLeast(l[1..], budget);
      OneMoreEvicted(l, Evict(l[1..], budget), budget);
    }
  }

  lemma OneTotal(l: seq<Item>)
    requires |l| == 1
    ensures Total(l) == |l[0].data|
  {
    assert l[1..] == [];
  }

  lemma NoneEvicted(l: seq<Item>, budget: nat)
    ensures EvictedFrom(l, l, budget)
  {
    assert l[0..] == l;
  }

  lemma OneMoreEvicted(l: seq<Item>, r: seq<Item>, budget: nat)
    requires |l| > 0 && Total(l) > budget && EvictedFrom(l[1..], r, budget)
    ensures EvictedFrom(l, r, budget)
  {
    hide Total;
    var tail := l[1..];
    var n :| 0 <= n <= |tail| && r == tail[n..] && (n > 0 ==> Total(tail[n - 1..]) > budget);
    assert r == l[n + 1..];
    if n > 0 {
      assert tail[n - 1..] == l[n..];
    } else {
      assert l[0..] == l;
    }
  }
}
