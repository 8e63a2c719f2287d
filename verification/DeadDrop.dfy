/** dead-drop/src/main.rs: the server itself, with its running byte count. */
module DeadDrop {
  import opened Common
  import opened Ascii
  import opened MapSum
  import opened SetSize
  import opened Shelves

  class App {
    const hash: Hash
    var drops: map<string, Drop>
    var totalBytes: nat
    var created: nat
    var consumed: nat
    var expired: nat
    var burned: nat
    /** How far the count is ahead of the bytes held. */
    ghost var leaked: nat

    ghost function View(): Shelf
      reads this
    {
      Shelf(drops, leaked, created, consumed, expired, burned)
    }

    ghost predicate Valid()
      reads this
    {
      Sound(View()) && totalBytes == CountedBytes(View())
    }

    constructor (hash: Hash)
      ensures Valid() && View() == EMPTY && this.hash == hash
    {
      this.hash := hash;
      drops, totalBytes, created, consumed, expired, burned, leaked := map[], 0, 0, 0, 0, 0, 0;
      EmptyIsSound();
    }

    method ApiDrop(r: Request, t: nat) returns (resp: Response)
      requires r.Create? && Valid()
      modifies this
      ensures Valid() && Turn(View(), resp) == Creation(old(View()), r, t)
    {
      hide Sound, Sum, Sizes, MadeBy, ValidId, ValidBlob, HexHash;
      CreationIsSound(View(), r, t);
      if !ValidId(r.id) || r.blob.None? || !ValidBlob(r.blob.value) {
        return Fail(400);
      }
      var times := if r.times.Some? then r.times.value else 1;
      if times == 0 || times > MAX_READS {
        return Fail(400);
      }
      var ttl := if r.ttl.Some? then r.ttl.value else DEFAULT_TTL;
      if !(MIN_TTL <= ttl <= MAX_TTL) {
        return Fail(400);
      }
      if r.burn.Some? && !HexHash(r.burn.value) {
        return Fail(400);
      }
      if |drops| >= MAX_DROPS || totalBytes + |r.blob.value| > MAX_TOTAL_BYTES {
        return Fail(507);
      }
      if r.id in drops {
        return Fail(409);
      }
      var d := Drop(r.blob.value, times, t + ttl, if r.burn.Some? then Some(Lower(r.burn.value)) else None);
      IsMade(r, t, d);
      DropsChange(View(), r.id, d);
      totalBytes := totalBytes + |r.blob.value|;
      created := created + 1;
      drops := drops[r.id := d];
      return Made(d.expiresAt);
    }

    /** `live_id`: false for every kind of miss. */
    method LiveId(id: string, t: nat) returns (live: bool)
      requires Valid()
      modifies this
      ensures Valid()
      ensures live == Live(old(View()), id, t)
      ensures live ==> View() == old(View()) && id in drops
      ensures !live ==> View() == Missed(old(View()), id).shelf
    {
      hide Sound, Sum, Sizes, ValidId;
      MissedIsSound(View(), id);
      if !ValidId(id) || id !in drops {
        return false;
      }
      if drops[id].expiresAt > t {
        return true;
      }
      DropsChange(View(), id, drops[id]);
      leaked := leaked + |drops[id].blob|;
      drops := drops - {id};
      expired := expired + 1;
      return false;
    }

    /** `api_take`: one read less; the last one takes the drop away. */
    method ApiTake(id: string, t: nat) returns (resp: Response)
      requires Valid()
      modifies this
      ensures Valid() && Turn(View(), resp) == Taking(old(View()), id, t)
    {
      hide Sound, Sum, Sizes, Live, Missed, SoundDrop;
      ghost var was := View();
      TakingIsSound(was, id, t);
      var live := LiveId(id, t);
      if !live {
        MissFails(was, id);
        return Fail(404);
      }
      var d := drops[id];
      HasReads(was, id);
      var readsLeft := d.readsLeft - 1;
      DropsChange(View(), id, d.(readsLeft := readsLeft));
      if readsLeft == 0 {
        drops := drops - {id};
        totalBytes := totalBytes - |d.blob|;
        consumed := consumed + 1;
      } else {
        drops := drops[id := d.(readsLeft := readsLeft)];
      }
      return Revealed(d.blob, readsLeft);
    }

    method ApiPeek(id: string, t: nat, u: nat) returns (resp: Response)
      requires Valid()
      modifies this
      ensures Valid() && Turn(View(), resp) == Serve(hash, old(View()), Peek(id), t, u)
    {
      hide Sound, Sum, Sizes, Live, Missed;
      ghost var was := View();
      var live := LiveId(id, t);
      if !live {
        MissFails(was, id);
        return Fail(404);
      }
      var d := drops[id];
      return Peeked(d.readsLeft, if d.expiresAt > u then d.expiresAt - u else 0, |d.blob|);
    }

    method ApiBurn(id: string, token: string, t: nat) returns (resp: Response)
      requires Valid()
      modifies this
      ensures Valid() && Turn(View(), resp) == Burning(hash, old(View()), id, token, t)
    {
      hide Sound, Sum, Sizes, Live, Missed;
      ghost var was := View();
      BurningIsSound(hash, was, id, token, t);
      var live := LiveId(id, t);
      if !live {
        MissFails(was, id);
        return Fail(404);
      }
      var d := drops[id];
      if d.burnHash.None? {
        return Fail(403);
      }
      if token == "" || hash(token) != d.burnHash.value {
        return Fail(403);
      }
      DropsChange(View(), id, d);
      drops := drops - {id};
      totalBytes := totalBytes - |d.blob|;
      burned := burned + 1;
      return BurnedNow;
    }

    /** The sweep: `retain`, and the byte count anew if anything went. */
    method SweepDrops(t: nat) returns (resp: Response)
      requires Valid()
      modifies this
      ensures Valid() && View() == Sweeping(old(View()), t)
      ensures resp == TotalsOf(View())
    {
      hide Sound, Sum;
      ghost var was := View();
      SweepingIsSound(was, t);
      KeptAreFewer(drops, t);
      var before := |drops|;
      drops := map id | id in drops && drops[id].expiresAt > t :: drops[id];
      assert drops == Kept(was.drops, t);
      var swept := before - |drops|;
      if swept > 0 {
        expired := expired + swept;
        var sizes := map id | id in drops :: |drops[id].blob|;
        assert sizes == Sizes(drops);
        totalBytes := SumUp(sizes);
        leaked := 0;
      } else {
        NoneSwept(was.drops, t);
      }
      return Totals(|drops|, totalBytes, created, consumed, expired, burned);
    }

    /** The server does what `Serve` says, request by request. */
    method Route(r: Request, t: nat, u: nat) returns (resp: Response)
      requires Valid()
      modifies this
      ensures Valid() && Turn(View(), resp) == Serve(hash, old(View()), r, t, u)
    {
      hide Sound, Creation, Taking, Burning, Sweeping, Missed, Sum, Sizes;
      match r
      case Create(_, _, _, _, _) => resp := ApiDrop(r, t);
      case Take(id) => resp := ApiTake(id, t);
      case Peek(id) => resp := ApiPeek(id, t, u);
      case Burn(id, token) => resp := ApiBurn(id, token, t);
      case Stats => resp := Totals(|drops|, totalBytes, created, consumed, expired, burned);
      case Sweep => resp := SweepDrops(t);
    }
  }

  lemma IsMade(r: Request, t: nat, d: Drop)
    requires r.Create? && WellFormed(r)
    requires d == Drop(r.blob.value, Or(r.times, 1), t + Or(r.ttl, DEFAULT_TTL), if r.burn.Some? then Some(Lower(r.burn.value)) else None)
    ensures d == MadeBy(r, t)
  {
  }

  lemma MissFails(s: Shelf, id: string)
    ensures Missed(s, id).resp == Fail(404)
  {
  }

  lemma HasReads(s: Shelf, id: string)
    requires Sound(s) && id in s.drops
    ensures s.drops[id].readsLeft >= 1
  {
    assert SoundDrop(s.drops[id]);
  }

  /** If as many drops are kept as there were, all of them were. */
  lemma NoneSwept(drops: map<string, Drop>, t: nat)
    requires |Kept(drops, t)| == |drops|
    ensures Kept(drops, t) == drops
  {
    var kept := Kept(drops, t);
    assert |kept| == |kept.Keys| && |drops| == |drops.Keys|;
    SubsetSize(kept.Keys, drops.Keys);
  }
}
