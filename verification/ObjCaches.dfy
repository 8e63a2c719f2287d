/** depot/src/app.rs, `ObjCache`: an LRU by bytes with lazy deletion. Every use of
    an object appends a record to `order`; a record is live only while it carries
    the tick stored with its object, and dead records are skipped when evicting. */
module ObjCaches {
  import opened Common
  import opened Git
  import opened LruList

  datatype Entry = Entry(kind: Kind, data: Bytes, tick: nat)

  datatype Record = Record(oid: Oid, tick: nat)

  predicate IsLive(r: Record, entries: map<Oid, Entry>) {
    r.oid in entries && entries[r.oid].tick == r.tick
  }

  function LiveOf(r: Record, entries: map<Oid, Entry>): seq<Item> {
    if IsLive(r, entries) then [Item(r.oid, entries[r.oid].kind, entries[r.oid].data)] else []
  }

  /** The live records of the queue, as the LRU list they stand for. */
  function Live(order: seq<Record>, entries: map<Oid, Entry>): seq<Item> {
    if order == [] then [] else LiveOf(order[0], entries) + Live(order[1..], entries)
  }

  /** `VecDeque::retain` with the liveness test. */
  function Retain(order: seq<Record>, entries: map<Oid, Entry>): (r: seq<Record>)
    ensures forall x :: x in r <==> x in order && IsLive(x, entries)
  {
    if order == [] then []
    else (if IsLive(order[0], entries) then [order[0]] else []) + Retain(order[1..], entries)
  }

  /** Ticks grow along the queue, so no two records carry the same one. */
  predicate Ordered(order: seq<Record>, tick: nat) {
    && (forall i, j :: 0 <= i < j < |order| ==> order[i].tick < order[j].tick)
    && (forall i :: 0 <= i < |order| ==> order[i].tick <= tick)
  }

  predicate Covered(order: seq<Record>, entries: map<Oid, Entry>) {
    forall o :: o in entries ==> Record(o, entries[o].tick) in order
  }

  lemma {:induction false} LiveAppend(a: seq<Record>, b: seq<Record>, entries: map<Oid, Entry>)
    ensures Live(a + b, entries) == Live(a, entries) + Live(b, entries)
  {
    if a == [] {
      assert a + b == b;
    } else {
      assert (a + b)[1..] == a[1..] + b;
      LiveAppend(a[1..], b, entries);
    }
  }

  /** Giving `o` a tick no record carries yet makes its old record dead and
      leaves every other record as it was. */
  lemma {:induction false} LiveAfterBump(order: seq<Record>, entries: map<Oid, Entry>, o: Oid, e: Entry)
    requires forall i :: 0 <= i < |order| ==> order[i].tick < e.tick
    ensures Live(order, entries[o := e]) == Without(Live(order, entries), o)
  {
    if order != [] {
      LiveAfterBump(order[1..], entries, o, e);
      WithoutAppend(LiveOf(order[0], entries), Live(order[1..], entries), o);
    }
  }

  lemma {:induction false} WithoutAppend(a: seq<Item>, b: seq<Item>, o: Oid)
    ensures Without(a + b, o) == Without(a, o) + Without(b, o)
  {
    if a == [] {
      assert a + b == b;
    } else {
      assert (a + b)[1..] == a[1..] + b;
      WithoutAppend(a[1..], b, o);
    }
  }

  lemma {:induction false} LiveAfterRemoval(order: seq<Record>, entries: map<Oid, Entry>, o: Oid)
    requires o in entries && Record(o, entries[o].tick) !in order
    ensures Live(order, entries - {o}) == Live(order, entries)
  {
    if order != [] {
      assert order[0] in order;
      assert forall x :: x in order[1..] ==> x in order;
      LiveAfterRemoval(order[1..], entries, o);
    }
  }

  lemma {:induction false} LiveAfterRetain(order: seq<Record>, entries: map<Oid, Entry>)
    ensures Live(Retain(order, entries), entries) == Live(order, entries)
    ensures |Retain(order, entries)| == |Live(order, entries)|
  {
    if order != [] {
      LiveAfterRetain(order[1..], entries);
      var rest := Retain(order[1..], entries);
      if IsLive(order[0], entries) {
        assert Retain(order, entries)[1..] == rest;
      } else {
        assert Retain(order, entries) == rest;
      }
    }
  }

  lemma OrderedCons(head: Record, rest: seq<Record>, tick: nat)
    requires Ordered(rest, tick) && head.tick <= tick && forall i :: 0 <= i < |rest| ==> head.tick < rest[i].tick
    ensures Ordered([head] + rest, tick)
  {
  }

  lemma {:induction false} RetainOrdered(order: seq<Record>, entries: map<Oid, Entry>, tick: nat)
    requires Ordered(order, tick)
    ensures Ordered(Retain(order, entries), tick)
  {
    if order != [] {
      RetainOrdered(order[1..], entries, tick);
      var rest := Retain(order[1..], entries);
      forall i | 0 <= i < |rest| ensures order[0].tick < rest[i].tick {
        assert rest[i] in order[1..];
      }
      if IsLive(order[0], entries) {
        OrderedCons(order[0], rest, tick);
      }
    }
  }

  /** The list has one item for each entry: the queue holds exactly one live
      record per object. */
  lemma {:induction false} LiveIsTheMap(order: seq<Record>, entries: map<Oid, Entry>, tick: nat)
    requires Ordered(order, tick)
    ensures Distinct(Live(order, entries))
    ensures forall x :: x in Live(order, entries) ==>
                          x.oid in entries && x == Item(x.oid, entries[x.oid].kind, entries[x.oid].data)
                          && Record(x.oid, entries[x.oid].tick) in order
    ensures forall o :: o in entries && Record(o, entries[o].tick) in order ==>
                          Item(o, entries[o].kind, entries[o].data) in Live(order, entries)
  {
    if order != [] {
      var rest := Live(order[1..], entries);
      LiveIsTheMap(order[1..], entries, tick);
      if IsLive(order[0], entries) {
        forall x | x in rest ensures x.oid != order[0].oid {
          assert Record(x.oid, entries[x.oid].tick) in order[1..];
        }
        assert Live(order, entries)[1..] == rest;
      } else {
        assert Live(order, entries) == rest;
      }
    }
  }

  lemma {:induction false} LiveCount(l: seq<Item>, entries: map<Oid, Entry>)
    requires Distinct(l)
    requires forall x :: x in l ==> x.oid in entries
    requires forall o :: o in entries ==> Holds(l, o)
    ensures |l| == |entries|
  {
    if l == [] {
      assert forall o :: o !in entries;
      assert entries == map[];
    } else {
      var smaller := entries - {l[0].oid};
      assert l == [l[0]] + l[1..];
      forall x | x in l[1..] ensures x.oid in smaller {
        assert x in l;
      }
      assert l[0] in l;
      LiveCount(l[1..], smaller);
      assert smaller.Keys == entries.Keys - {l[0].oid};
      assert |smaller.Keys| == |entries.Keys| - 1;
    }
  }

  predicate Sound(order: seq<Record>, entries: map<Oid, Entry>, tick: nat) {
    Ordered(order, tick) && Covered(order, entries)
  }

  lemma LookupIsFind(order: seq<Record>, entries: map<Oid, Entry>, tick: nat, o: Oid)
    requires Sound(order, entries, tick)
    ensures Distinct(Live(order, entries))
    ensures Find(Live(order, entries), o) ==
            if o in entries then Some(Item(o, entries[o].kind, entries[o].data)) else None
  {
    LiveIsTheMap(order, entries, tick);
    if o in entries {
      assert Item(o, entries[o].kind, entries[o].data) in Live(order, entries);
    }
  }

  /** Storing `o` under a fresh tick and recording it makes it the most recent item. */
  lemma Recorded(order: seq<Record>, entries: map<Oid, Entry>, o: Oid, e: Entry)
    requires e.tick > 0 && Sound(order, entries, e.tick - 1)
    ensures var order' := order + [Record(o, e.tick)];
            var entries' := entries[o := e];
            var was := Live(order, entries);
            && Sound(order', entries', e.tick)
            && Live(order', entries') == Without(was, o) + [Item(o, e.kind, e.data)]
            && Total(Live(order', entries')) ==
               Total(was) + |e.data| - (if o in entries then |entries[o].data| else 0)
  {
    RecordedSound(order, entries, o, e);
    LiveAfterBump(order, entries, o, e);
    LiveOne(Record(o, e.tick), entries[o := e]);
    LiveAppend(order, [Record(o, e.tick)], entries[o := e]);
    LookupIsFind(order, entries, e.tick - 1, o);
    hide Live, Sound;
    var was := Live(order, entries);
    TotalAppend(Without(was, o), [Item(o, e.kind, e.data)]);
    if o in entries {
      WithoutTotal(was, o);
    } else {
      WithoutAbsent(was, o);
    }
  }

  lemma LiveOne(r: Record, entries: map<Oid, Entry>)
    ensures Live([r], entries) == LiveOf(r, entries)
  {
    assert Live([], entries) == [];
  }

  lemma RecordedSound(order: seq<Record>, entries: map<Oid, Entry>, o: Oid, e: Entry)
    requires e.tick > 0 && Sound(order, entries, e.tick - 1)
    ensures Sound(order + [Record(o, e.tick)], entries[o := e], e.tick)
  {
    var order' := order + [Record(o, e.tick)];
    assert order'[|order|] == Record(o, e.tick);
    assert forall x :: x in order ==> x in order';
  }

  lemma HeadGoes(order: seq<Record>, entries: map<Oid, Entry>, tick: nat)
    requires order != [] && Sound(order, entries, tick)
    ensures var entries' := if IsLive(order[0], entries) then entries - {order[0].oid} else entries;
            var was, now := Live(order, entries), Live(order[1..], entries');
            && Sound(order[1..], entries', tick)
            && now == (if IsLive(order[0], entries) then was[1..] else was)
            && Total(was) == Total(now) + (if IsLive(order[0], entries) then |entries[order[0].oid].data| else 0)
  {
    var head, rest := order[0], order[1..];
    assert forall x :: x in order <==> x == head || x in rest;
    if IsLive(head, entries) {
      assert head !in rest;
      LiveAfterRemoval(rest, entries, head.oid);
      assert Live(order, entries)[1..] == Live(rest, entries);
    } else {
      assert Live(order, entries) == Live(rest, entries);
    }
  }

  /** A read is a touch of the list. */
  lemma ReadIsTouch(order: seq<Record>, entries: map<Oid, Entry>, tick: nat, o: Oid)
    requires Sound(order, entries, tick) && o in entries
    ensures var e := entries[o].(tick := tick + 1);
            var order', entries' := order + [Record(o, tick + 1)], entries[o := e];
            && Sound(order', entries', tick + 1) && |entries'| == |entries|
            && Live(order', entries') == Touch(Live(order, entries), o)
            && Total(Live(order', entries')) == Total(Live(order, entries))
            && Answer(Live(order, entries), o) == Some((e.kind, e.data))
  {
    var e := entries[o].(tick := tick + 1);
    LookupIsFind(order, entries, tick, o);
    Recorded(order, entries, o, e);
    SizeKept(entries, o, e);
    hide Live, Sound, Total, Without, Find;
  }

  lemma MissIsNoTouch(order: seq<Record>, entries: map<Oid, Entry>, tick: nat, o: Oid)
    requires Sound(order, entries, tick) && o !in entries
    ensures Touch(Live(order, entries), o) == Live(order, entries) && Answer(Live(order, entries), o) == None
  {
    LookupIsFind(order, entries, tick, o);
    hide Live, Sound, Find;
  }

  lemma SizeKept(entries: map<Oid, Entry>, o: Oid, e: Entry)
    requires o in entries
    ensures |entries[o := e]| == |entries|
  {
    assert entries[o := e].Keys == entries.Keys;
    assert |entries[o := e]| == |entries[o := e].Keys| && |entries| == |entries.Keys|;
  }

  class ObjCache {
    var entries: map<Oid, Entry>
    var order: seq<Record>
    var tick: nat
    var bytes: nat
    const budget: nat

    /** What the cache stands for: least recently used first. */
    function Contents(): seq<Item>
      reads this
    {
      Live(order, entries)
    }

    ghost predicate Valid()
      reads this
    {
      && Sound(order, entries, tick)
      && bytes == Total(Contents())
      && bytes <= budget
    }

    /** The bound on the queue. */
    predicate Bounded()
      reads this
    {
      |order| <= 4 * |entries| + 1024
    }

    constructor (budget: nat)
      ensures Valid() && Contents() == [] && this.budget == budget && entries == map[] && order == []
    {
      entries, order, tick, bytes := map[], [], 0, 0;
      this.budget := budget;
    }

    /** Each cached object has exactly one item in the list, with its data. */
    lemma ContentsAreEntries()
      requires Valid()
      ensures Distinct(Contents())
      ensures forall o :: o in entries <==> Holds(Contents(), o)
      ensures forall x :: x in Contents() ==> x.oid in entries && entries[x.oid].data == x.data && entries[x.oid].kind == x.kind
      ensures |Contents()| == |entries|
    {
      LiveIsTheMap(order, entries, tick);
      var l := Contents();
      forall o | o in entries ensures Holds(l, o) {
        assert Item(o, entries[o].kind, entries[o].data) in l;
      }
      LiveCount(l, entries);
    }

    method Get(o: Oid) returns (r: Option<(Kind, Bytes)>)
      requires Valid()
      modifies this
      ensures Valid()
      ensures Contents() == Touch(old(Contents()), o)
      ensures r == Answer(old(Contents()), o)
      ensures |entries| == old(|entries|) && |order| >= old(|order|)
      ensures o in old(entries) ==> |order| == old(|order|) + 1
    {
      hide Live, Sound, Total, Touch, Answer;
      if o !in entries {
        MissIsNoTouch(order, entries, tick, o);
        return None;
      }
      ReadIsTouch(order, entries, tick, o);
      tick := tick + 1;
      var e := entries[o].(tick := tick);
      entries := entries[o := e];
      order := order + [Record(o, tick)];
      r := Some((e.kind, e.data));
    }

    method Put(o: Oid, k: Kind, v: Bytes)
      requires Valid()
      modifies this
      ensures Valid()
      ensures Contents() == Insert(old(Contents()), budget, Item(o, k, v))
      ensures !Admits(budget, v) ==> order == old(order) && entries == old(entries)
      ensures Bounded() <==> Admits(budget, v) || old(Bounded())
    {
      if |v| > budget / 8 {
        return;
      }
      Enter(o, Entry(k, v, tick + 1));
      EvictToBudget();
      if !Bounded() {
        Compact();
      }
    }

    /** Store `o` as the most recent object, over budget or not. */
    method Enter(o: Oid, e: Entry)
      requires Valid() && e.tick == tick + 1
      modifies this
      ensures Sound(order, entries, tick) && bytes == Total(Contents())
      ensures Contents() == Without(old(Contents()), o) + [Item(o, e.kind, e.data)]
    {
      hide Live, Sound, Total, Without;
      Recorded(order, entries, o, e);
      var had := if o in entries then |entries[o].data| else 0;
      tick := tick + 1;
      bytes := bytes + |e.data| - had;
      entries := entries[o := e];
      order := order + [Record(o, tick)];
    }

    method EvictToBudget()
      requires Sound(order, entries, tick) && bytes == Total(Contents())
      modifies this
      ensures Valid() && tick == old(tick)
      ensures Contents() == Evict(old(Contents()), budget)
    {
      while bytes > budget
        invariant Sound(order, entries, tick) && tick == old(tick)
        invariant bytes == Total(Contents())
        invariant Evict(Contents(), budget) == Evict(old(Contents()), budget)
        decreases |order|
      {
        if order == [] {
          break; // never taken: an empty queue has no bytes to count
        }
        EvictHead();
      }
    }

    /** Forget every dead record. */
    method Compact()
      requires Valid()
      modifies this`order
      ensures Valid() && Contents() == old(Contents())
      ensures |order| == |entries|
    {
      ContentsAreEntries();
      LiveAfterRetain(order, entries);
      RetainOrdered(order, entries, tick);
      order := Retain(order, entries);
    }

    /** One turn of the eviction loop: the oldest record goes, and its object
        with it when the record is live. */
    method EvictHead()
      requires order != [] && Sound(order, entries, tick)
      requires bytes == Total(Contents())
      modifies this
      ensures order == old(order)[1..] && tick == old(tick) && Sound(order, entries, tick)
      ensures bytes == Total(Contents())
      ensures Contents() == if IsLive(old(order)[0], old(entries)) then old(Contents())[1..] else old(Contents())
    {
      HeadGoes(order, entries, tick);
      var head := order[0];
      order := order[1..];
      if IsLive(head, entries) {
        bytes := bytes - |entries[head.oid].data|;
        entries := entries - {head.oid};
      }
    }
  }

  /** The queue bound is a promise of admitted puts only. Reads grow the queue without limit, and
      a put that is refused for its size returns before the queue is compacted: whatever the
      budget, the queue can be over the bound after a put. */
  method RefusedPutLeavesTheQueueLong(budget: nat) returns (c: ObjCache)
    ensures c.Valid() && c.budget == budget && !c.Bounded()
  {
    c := new ObjCache(budget);
    c.Put(0, Blob, []);
    assert c.Contents() == [Item(0, Blob, [])];
    c.ContentsAreEntries();
    var n := 0;
    while n < 1029
      invariant c.Valid() && 0 <= n <= 1029 && c.Contents() == [Item(0, Blob, [])]
      invariant |c.order| >= n
      invariant fresh(c) && c.budget == budget
    {
      c.ContentsAreEntries();
      assert Item(0, Blob, []) in c.Contents();
      var _ := c.Get(0);
      n := n + 1;
    }
    c.ContentsAreEntries();
    c.Put(1, Blob, seq(budget / 8 + 1, _ => 0));
  }
}
