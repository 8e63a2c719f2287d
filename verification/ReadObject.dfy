/** depot/src/app.rs, `read_obj`: resolving an object by walking its delta chain
    through the object cache, against resolution from the stored entries alone. */
module ReadObject {
  import opened Common
  import opened Git
  import opened LruList
  import opened ObjCaches

  const MAX_CHAIN := 10_000

  /** One object of an index: `base` is the position of its delta base, `raw` what its
      stored entry inflates to (None when the read, the entry header or the inflation fails). */
  datatype Stored = Stored(oid: Oid, kind: Kind, base: Option<nat>, raw: Option<Bytes>)

  /** `Pack.apply` is the delta decoder under the size limit in force. */
  datatype Packed = Packed(objs: seq<Stored>, apply: (Bytes, Bytes) -> Option<Bytes>) {
    ghost predicate Valid() {
      && (forall i :: 0 <= i < |objs| && objs[i].base.Some? ==> objs[i].base.value < |objs|)
      && (forall i, j :: 0 <= i < j < |objs| ==> objs[i].oid != objs[j].oid)
    }
  }

  datatype ReadError = TooDeep | Unreadable

  /** The object at `i`, from a chain of at most `n` stored entries. */
  ghost function Resolve(p: Packed, i: nat, n: nat): Option<Bytes>
    requires p.Valid() && i < |p.objs|
    decreases n
  {
    if n == 0 then None
    else match p.objs[i].base
      case None => p.objs[i].raw
      case Some(b) => Delta(p, Resolve(p, b, n - 1), p.objs[i].raw)
  }

  ghost function Delta(p: Packed, base: Option<Bytes>, raw: Option<Bytes>): Option<Bytes> {
    if base.Some? && raw.Some? then p.apply(base.value, raw.value) else None
  }

  ghost predicate ResolvesTo(p: Packed, i: nat, v: Bytes)
    requires p.Valid() && i < |p.objs|
  {
    exists n :: Resolve(p, i, n) == Some(v)
  }

  ghost predicate Unresolvable(p: Packed, i: nat)
    requires p.Valid() && i < |p.objs|
  {
    forall n :: Resolve(p, i, n) == None
  }

  /** Whatever the cache says about an object of this index is what the stored entries say. */
  ghost predicate Faithful(p: Packed, l: seq<Item>)
    requires p.Valid()
  {
    forall x, j :: x in l && 0 <= j < |p.objs| && p.objs[j].oid == x.oid ==> ResolvesTo(p, j, x.data)
  }

  /** Every item `now` has and `was` had not is an object of this index, resolved. */
  ghost predicate Grown(p: Packed, was: seq<Item>, now: seq<Item>)
    requires p.Valid()
  {
    forall x :: x in now && x !in was ==> IsObjectOf(p, x)
  }

  ghost predicate IsObjectOf(p: Packed, x: Item)
    requires p.Valid()
  {
    exists j :: 0 <= j < |p.objs| && p.objs[j].oid == x.oid && ResolvesTo(p, j, x.data)
  }

  /** Content addressing: an id that both indexes hold names the same bytes in both. */
  ghost predicate SameContent(p: Packed, q: Packed)
    requires p.Valid() && q.Valid()
  {
    forall j, k, v :: 0 <= j < |p.objs| && 0 <= k < |q.objs| && p.objs[j].oid == q.objs[k].oid && ResolvesTo(p, j, v)
                      ==> ResolvesTo(q, k, v)
  }

  /** The cache is shared by every repository: reading from one index leaves it
      faithful to every other that agrees with it on content. */
  lemma OtherIndexesStayFaithful(p: Packed, q: Packed, was: seq<Item>, now: seq<Item>)
    requires p.Valid() && q.Valid() && SameContent(p, q)
    requires Faithful(q, was) && Grown(p, was, now)
    ensures Faithful(q, now)
  {
    forall x, k | x in now && 0 <= k < |q.objs| && q.objs[k].oid == x.oid
      ensures ResolvesTo(q, k, x.data)
    {
      if x !in was {
        assert IsObjectOf(p, x);
        var j :| 0 <= j < |p.objs| && p.objs[j].oid == x.oid && ResolvesTo(p, j, x.data);
      }
    }
  }

  /** The first `n` links of the chain from `i` all miss the cache and all are deltas. */
  ghost predicate ColdChain(p: Packed, l: seq<Item>, i: nat, n: nat)
    requires p.Valid() && i < |p.objs|
    decreases n
  {
    n == 0 || (!Holds(l, p.objs[i].oid) && p.objs[i].base.Some? && ColdChain(p, l, p.objs[i].base.value, n - 1))
  }

  /** Entry `k` links away from `i`. */
  ghost function Descend(p: Packed, i: nat, k: nat): Option<nat>
    requires p.Valid() && i < |p.objs|
    ensures Descend(p, i, k).Some? ==> Descend(p, i, k).value < |p.objs|
    decreases k
  {
    if k == 0 then Some(i)
    else match p.objs[i].base
      case None => None
      case Some(b) => Descend(p, b, k - 1)
  }

  lemma {:induction false} DeeperIsSame(p: Packed, i: nat, n: nat, m: nat)
    requires p.Valid() && i < |p.objs| && n <= m
    requires Resolve(p, i, n).Some?
    ensures Resolve(p, i, m) == Resolve(p, i, n)
    decreases n
  {
    if p.objs[i].base.Some? {
      DeeperIsSame(p, p.objs[i].base.value, n - 1, m - 1);
    }
  }

  lemma Deterministic(p: Packed, i: nat, v: Bytes)
    requires p.Valid() && i < |p.objs| && ResolvesTo(p, i, v)
    ensures forall n :: Resolve(p, i, n).Some? ==> Resolve(p, i, n) == Some(v)
  {
    var m: nat :| Resolve(p, i, m) == Some(v);
    forall n: nat | Resolve(p, i, n).Some? ensures Resolve(p, i, n) == Some(v) {
      if n <= m { DeeperIsSame(p, i, n, m); } else { DeeperIsSame(p, i, m, n); }
    }
  }

  /** How objects were stored: whole, or as what the decoder makes them of their base by. */
  ghost predicate Stores(p: Packed, value: nat -> Bytes)
    requires p.Valid()
  {
    forall i :: 0 <= i < |p.objs| ==>
                  p.objs[i].raw.Some?
                  && match p.objs[i].base
                     case None => p.objs[i].raw.value == value(i)
                     case Some(b) => p.apply(value(b), p.objs[i].raw.value) == Some(value(i))
  }

  /** An object is read as what was stored, if the chain of its bases ends within the depth. */
  lemma {:induction false} StoredIsRead(p: Packed, value: nat -> Bytes, i: nat, k: nat, n: nat)
    requires p.Valid() && i < |p.objs| && Stores(p, value) && k < n
    requires Descend(p, i, k).Some? && p.objs[Descend(p, i, k).value].base.None?
    ensures Resolve(p, i, n) == Some(value(i))
    decreases k
  {
    if k > 0 {
      StoredIsRead(p, value, p.objs[i].base.value, k - 1, n - 1);
    }
  }

  /** And as nothing else. */
  lemma NothingElseIsRead(p: Packed, value: nat -> Bytes, i: nat, v: Bytes)
    requires p.Valid() && i < |p.objs| && Stores(p, value) && ResolvesTo(p, i, v)
    ensures v == value(i)
  {
    var n: nat :| Resolve(p, i, n) == Some(v);
    ReadWithin(p, value, i, n);
  }

  lemma {:induction false} ReadWithin(p: Packed, value: nat -> Bytes, i: nat, n: nat)
    requires p.Valid() && i < |p.objs| && Stores(p, value)
    ensures Resolve(p, i, n).Some? ==> Resolve(p, i, n) == Some(value(i))
    decreases n
  {
    if n > 0 && p.objs[i].base.Some? {
      ReadWithin(p, value, p.objs[i].base.value, n - 1);
    }
  }

  /** One link up the chain: the resolved base and the entry decide the object. */
  lemma StepUp(p: Packed, j: nat, base: Option<Bytes>)
    requires p.Valid() && j < |p.objs|
    requires match p.objs[j].base
             case None => base == None
             case Some(b) => base.Some? && ResolvesTo(p, b, base.value)
    ensures var d := if base.None? then p.objs[j].raw else Delta(p, base, p.objs[j].raw);
            if d.Some? then ResolvesTo(p, j, d.value) else Unresolvable(p, j)
  {
    match p.objs[j].base
    case None =>
      assert Resolve(p, j, 1) == p.objs[j].raw;
    case Some(b) =>
      Deterministic(p, b, base.value);
      var m: nat :| Resolve(p, b, m) == Some(base.value);
      assert Resolve(p, j, m + 1) == Delta(p, base, p.objs[j].raw);
  }

  /** A chain that comes back to where it started is never resolved. */
  lemma {:induction false} CycleIsUnresolvable(p: Packed, i: nat, k: nat)
    requires p.Valid() && i < |p.objs| && k > 0
    requires Descend(p, i, k) == Some(i)
    ensures Unresolvable(p, i)
  {
    forall n: nat ensures Resolve(p, i, n) == None {
      CycleFails(p, i, k, n);
    }
  }

  lemma {:induction false} CycleFails(p: Packed, i: nat, k: nat, n: nat)
    requires p.Valid() && i < |p.objs| && k > 0
    requires Descend(p, i, k) == Some(i)
    ensures Resolve(p, i, n) == None
    decreases n
  {
    if Resolve(p, i, n).Some? {
      DescendResolves(p, i, k, n);
      CycleFails(p, i, k, n - k);
    }
  }

  lemma {:induction false} DescendResolves(p: Packed, i: nat, k: nat, n: nat)
    requires p.Valid() && i < |p.objs| && Descend(p, i, k).Some?
    requires Resolve(p, i, n).Some?
    ensures n > k && Resolve(p, Descend(p, i, k).value, n - k).Some?
    decreases k
  {
    if k > 0 {
      DescendResolves(p, p.objs[i].base.value, k - 1, n - 1);
    }
  }

  lemma {:induction false} ColdChainIsTooLong(p: Packed, l: seq<Item>, i: nat, n: nat)
    requires p.Valid() && i < |p.objs| && ColdChain(p, l, i, n)
    ensures Resolve(p, i, n) == None
    decreases n
  {
    if n > 0 {
      ColdChainIsTooLong(p, l, p.objs[i].base.value, n - 1);
    }
  }

  /** A run of links from `chain[0]`, ending just before `next`. */
  ghost predicate Links(p: Packed, chain: seq<nat>, next: Option<nat>)
    requires p.Valid()
  {
    && (forall k :: 0 <= k < |chain| ==> chain[k] < |p.objs|)
    && (forall k :: 0 <= k < |chain| - 1 ==> p.objs[chain[k]].base == Some(chain[k + 1]))
    && (|chain| > 0 ==> p.objs[chain[|chain| - 1]].base == next)
  }

  lemma {:induction false} FailureClimbs(p: Packed, chain: seq<nat>, next: nat)
    requires p.Valid() && Links(p, chain, Some(next)) && next < |p.objs|
    requires Unresolvable(p, next)
    ensures |chain| > 0 ==> Unresolvable(p, chain[0])
  {
    if |chain| > 0 {
      var last := chain[|chain| - 1];
      forall n: nat ensures Resolve(p, last, n) == None {
        if n > 0 { assert Resolve(p, next, n - 1) == None; }
      }
      FailureClimbs(p, chain[..|chain| - 1], last);
    }
  }

  lemma GrownFromItself(p: Packed, l: seq<Item>)
    requires p.Valid()
    ensures Grown(p, l, l)
  {
  }

  /** Caching what an object resolves to keeps the cache faithful. */
  lemma PutKeeps(p: Packed, was: seq<Item>, l: seq<Item>, budget: nat, j: nat, kind: Kind, v: Bytes)
    requires p.Valid() && j < |p.objs| && Faithful(p, l) && Grown(p, was, l) && ResolvesTo(p, j, v)
    ensures var now := Insert(l, budget, Item(p.objs[j].oid, kind, v)); Faithful(p, now) && Grown(p, was, now)
  {
    var item := Item(p.objs[j].oid, kind, v);
    NothingInvented(l, 0, budget, item);
    hide Insert, ResolvesTo;
    assert IsObjectOf(p, item);
  }

  /** The second half of `read_obj`: apply the chain from its far end back to the object,
      caching each result. `next` is where the cache cut the chain, `start` what it held. */
  method Rebuild(p: Packed, cache: ObjCache, links: seq<nat>, next: Option<nat>, start: Option<Bytes>, i: nat)
    returns (r: Result<(Kind, Bytes), ReadError>)
    requires p.Valid() && i < |p.objs|
    requires cache.Valid() && Faithful(p, cache.Contents())
    requires Links(p, links, next) && (next.Some? <==> start.Some?)
    requires next.Some? ==> next.value < |p.objs| && ResolvesTo(p, next.value, start.value)
    requires if links == [] then next == Some(i) else links[0] == i
    modifies cache
    ensures cache.Valid() && Faithful(p, cache.Contents()) && Grown(p, old(cache.Contents()), cache.Contents())
    ensures r.Ok? ==> r.value.0 == p.objs[i].kind && ResolvesTo(p, i, r.value.1)
    ensures r.Err? ==> r == Err(Unreadable) && Unresolvable(p, i)
  {
    hide ObjCache.Valid, ObjCache.Contents, Insert, Resolve, Descend, Faithful, Grown, ResolvesTo;
    var kind := p.objs[i].kind;
    var chain, data := links, start;
    GrownFromItself(p, cache.Contents());
    ghost var at: Option<nat> := next;
    while chain != []
      invariant cache.Valid() && Faithful(p, cache.Contents()) && Grown(p, old(cache.Contents()), cache.Contents())
      invariant Links(p, chain, at) && (at.Some? <==> data.Some?)
      invariant at.Some? ==> at.value < |p.objs| && ResolvesTo(p, at.value, data.value)
      invariant if chain == [] then at == Some(i) else chain[0] == i
      decreases |chain|
    {
      var j := chain[|chain| - 1];
      chain := chain[..|chain| - 1];
      StepUp(p, j, data);
      var entry := p.objs[j].raw;
      var whole := if data.None? then entry
                   else if entry.None? then None
                   else p.apply(data.value, entry.value);
      if whole.None? {
        FailureClimbs(p, chain, j);
        return Err(Unreadable);
      }
      PutKeeps(p, old(cache.Contents()), cache.Contents(), cache.budget, j, kind, whole.value);
      cache.Put(p.objs[j].oid, kind, whole.value);
      data := whole;
      at := Some(j);
    }
    r := Ok((kind, data.value));
  }

  /** The first half of `read_obj`: collect the chain down to the first cached object or
      whole entry; None when the walk is cut off. */
  method Collect(p: Packed, cache: ObjCache, i: nat)
    returns (chain: seq<nat>, next: Option<nat>, start: Option<Bytes>, deep: bool)
    requires p.Valid() && i < |p.objs|
    requires cache.Valid() && Faithful(p, cache.Contents())
    modifies cache
    ensures cache.Valid() && Faithful(p, cache.Contents()) && Grown(p, old(cache.Contents()), cache.Contents())
    ensures deep <==> ColdChain(p, old(cache.Contents()), i, MAX_CHAIN + 1)
    ensures !deep ==> Links(p, chain, next) && (next.Some? <==> start.Some?)
    ensures !deep && next.Some? ==> next.value < |p.objs| && ResolvesTo(p, next.value, start.value)
    ensures !deep ==> if chain == [] then next == Some(i) else chain[0] == i
  {
    hide ResolvesTo, IsObjectOf, ObjCache.Valid, ObjCache.Contents, Faithful;
    ghost var was := cache.Contents();
    var cur: nat := i;
    chain := [];
    while true
      invariant cur < |p.objs| && |chain| <= MAX_CHAIN
      invariant cache.Valid() && Faithful(p, cache.Contents()) && Grown(p, was, cache.Contents())
      invariant forall k :: Holds(cache.Contents(), k) <==> Holds(was, k)
      invariant Links(p, chain, Some(cur))
      invariant if chain == [] then cur == i else chain[0] == i
      invariant ColdChain(p, was, i, MAX_CHAIN + 1) <==> ColdChain(p, was, cur, MAX_CHAIN + 1 - |chain|)
      decreases MAX_CHAIN - |chain|
    {
      var hit := Lookup(p, cache, cur);
      if hit.Some? {
        return chain, Some(cur), hit, false;
      }
      chain := chain + [cur];
      if p.objs[cur].base.None? {
        return chain, None, None, false;
      }
      cur := p.objs[cur].base.value;
      if |chain| > MAX_CHAIN {
        return chain, None, None, true;
      }
    }
  }

  /** `cache.get` on the object at `i`: a faithful cache answers with what it resolves to. */
  method Lookup(p: Packed, cache: ObjCache, i: nat) returns (hit: Option<Bytes>)
    requires p.Valid() && i < |p.objs|
    requires cache.Valid() && Faithful(p, cache.Contents())
    modifies cache
    ensures cache.Valid() && Faithful(p, cache.Contents()) && Grown(p, old(cache.Contents()), cache.Contents())
    ensures forall k :: Holds(cache.Contents(), k) <==> Holds(old(cache.Contents()), k)
    ensures hit.Some? <==> Holds(old(cache.Contents()), p.objs[i].oid)
    ensures hit.Some? ==> ResolvesTo(p, i, hit.value)
  {
    NothingInvented(cache.Contents(), p.objs[i].oid, 0, Item(0, Blob, []));
    var found := cache.Get(p.objs[i].oid);
    hit := if found.Some? then Some(found.value.1) else None;
  }

  /** `read_obj`. With any faithful cache: a value is what the stored entries resolve
      to; `Unreadable` means no depth would resolve them; `TooDeep` is reported exactly when
      the first MAX_CHAIN + 1 links all miss the cache and all are deltas, so an object whose
      chain has at most MAX_CHAIN + 1 entries is returned whatever the cache holds. */
  method ReadObj(p: Packed, cache: ObjCache, i: nat) returns (r: Result<(Kind, Bytes), ReadError>)
    requires p.Valid() && i < |p.objs|
    requires cache.Valid() && Faithful(p, cache.Contents())
    modifies cache
    ensures cache.Valid() && Faithful(p, cache.Contents()) && Grown(p, old(cache.Contents()), cache.Contents())
    ensures r.Ok? ==> r.value.0 == p.objs[i].kind && ResolvesTo(p, i, r.value.1)
    ensures r == Err(TooDeep) <==> ColdChain(p, old(cache.Contents()), i, MAX_CHAIN + 1)
    ensures r == Err(Unreadable) ==> Unresolvable(p, i)
    ensures forall v :: Resolve(p, i, MAX_CHAIN + 1) == Some(v) ==> r == Ok((p.objs[i].kind, v))
  {
    ghost var was := cache.Contents();
    var chain, next, start, deep := Collect(p, cache, i);
    if deep {
      ColdChainIsTooLong(p, was, i, MAX_CHAIN + 1);
      return Err(TooDeep);
    }
    r := Rebuild(p, cache, chain, next, start, i);
    if r.Ok? {
      Deterministic(p, i, r.value.1);
    }
  }
}
