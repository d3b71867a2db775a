/**
 `IdempotencyStore` (sthrip/services/idempotency.py). Without Redis it is a dictionary whose
 responses expire after an hour and are evicted now and then. Seen through its clock it is
 the cache of the request protocol, and time does to it what the step Forget does. With
 Redis each reservation is one step of the protocol at one of three moments.
 */
module Idempotency {
  import opened Common
  import opened Books
  import opened Requests

  const TTL_SECONDS := 3600
  const EVICTION_INTERVAL := 300

  datatype Entry = InFlight | Stored(body: Response, expiresAt: int)

  /** What try_reserve does to the cache and answers, given the row of the database. */
  function ReserveSpec(cache: Cache, slot: Slot, row: Option<IdemRow>, hash: string): (Cache, Reservation) {
    var (held, r) := LookInCache(cache, slot);
    if r == Ok(None) then LookInTable(held, slot, row, hash) else (held, r)
  }

  /** The two protocol steps of a reservation, taken together, are try_reserve. */
  lemma ReserveIsTwoSteps(s: State, aid: nat)
    requires aid in s.attempts && s.attempts[aid].phase == Starting && s.attempts[aid].key.Some?
    ensures var a, t := s.attempts[aid], Next(Next(s, ReserveKey(aid)), CheckRow(aid));
      var (cache, r) := ReserveSpec(s.cache, SlotOf(a).value, RowOf(s.db.idem, SlotOf(a).value), a.hash);
      t.cache == cache && t.db == s.db && t.attempts[aid].phase == PhaseFor(r, Reserved)
  {
    var slot := SlotOf(s.attempts[aid]).value;
    if slot !in s.cache {
      assert Next(s, ReserveKey(aid)) == Move(s.(cache := s.cache[slot := Processing]), aid, Checking);
    }
  }

  /**
   The promised 422 for a key reused with another body comes exactly when the cache knows
   nothing of the key and the row has another hash; a row with another hash is not enough.
   */
  lemma MismatchRefusedExactly(cache: Cache, slot: Slot, row: Option<IdemRow>, hash: string)
    ensures ReserveSpec(cache, slot, row, hash).1 == Err(BodyMismatch)
        <==> slot !in cache && row.Some? && row.value.requestHash != hash
  {
  }

  // ---------------------------------------------------------------- Redis

  /**
   SET NX, GET and, if the key is gone by then, SET NX again: they see the cache at three
   moments, between which others act. The one at `moment` decides, by looking the key up as the
   protocol does; only if the key is back at the third is that a 409 whatever it holds.
   */
  method AcquireRedis(slot: Slot, first: Cache, second: Cache, third: Cache)
    returns (moment: nat, after: Cache, r: Reservation)
    ensures moment == if slot !in first then 1 else if slot in second then 2 else 3
    ensures moment == 1 ==> (after, r) == LookInCache(first, slot)
    ensures moment == 2 ==> (after, r) == LookInCache(second, slot)
    ensures moment == 3 ==> (after, r) == if slot in third then (third, Err(Busy)) else LookInCache(third, slot)
  {
    if slot !in first {
      return 1, first[slot := Processing], Ok(None);
    }
    if slot in second {
      if second[slot] == Processing {
        return 2, second, Err(Busy);
      }
      return 2, second, Ok(Some(second[slot].body));
    }
    if slot in third {
      return 3, third, Err(Busy);
    }
    return 3, third[slot := Processing], Ok(None);
  }

  /**
   Each way the three commands can end is a step of the protocol: the look-up is ReserveKey, and
   finding the key back at the third is LoseRace, a 409 that leaves the cache alone.
   */
  lemma RedisStepExactly(s: State, aid: nat)
    requires aid in s.attempts && s.attempts[aid].phase == Starting && s.attempts[aid].key.Some?
    ensures var slot := SlotOf(s.attempts[aid]).value;
      var (after, r) := LookInCache(s.cache, slot);
      && Next(s, ReserveKey(aid)) == Move(s.(cache := after), aid, PhaseFor(r, Checking))
      && Next(s, LoseRace(aid)) == if slot in s.cache then Move(s, aid, Failing(Busy)) else s
  {
  }

  // ---------------------------------------------------------------- the local dictionary

  predicate Visible(entry: Entry, now: int) {
    entry.InFlight? || entry.expiresAt > now
  }

  function EntryOf(entry: Entry): CacheEntry {
    if entry.InFlight? then Processing else Cached(entry.body)
  }

  /** The cache as a reader at time `now` sees it. */
  function View(local: map<Slot, Entry>, now: int): Cache {
    map k | k in local && Visible(local[k], now) :: EntryOf(local[k])
  }

  /** Time only forgets responses: no entry appears or changes, and a sentinel never goes. */
  lemma TimeOnlyForgetsResponses(local: map<Slot, Entry>, earlier: int, later: int, k: Slot)
    requires earlier <= later
    ensures k in View(local, later) ==> k in View(local, earlier) && View(local, later)[k] == View(local, earlier)[k]
    ensures k in View(local, earlier) && View(local, earlier)[k] == Processing ==> k in View(local, later)
  {
  }

  class IdempotencyStore {
    var local: map<Slot, Entry>
    var lastEviction: int

    constructor ()
      ensures local == map[]
    {
      local, lastEviction := map[], 0;
    }

    /** No reader from `now` on sees a difference. */
    method EvictExpired(now: int)
      modifies `local
      ensures forall later :: later >= now ==> View(local, later) == View(old(local), later)
      ensures forall k :: k in local <==> k in old(local) && (old(local)[k].InFlight? || old(local)[k].expiresAt >= now)
    {
      local := map k | k in local && (local[k].InFlight? || local[k].expiresAt >= now) :: local[k];
    }

    /** The part under the lock: answer from the dictionary or put the sentinel in. */
    method Acquire(slot: Slot, now: int) returns (r: Reservation)
      modifies `local
      ensures (View(local, now), r) == LookInCache(View(old(local), now), slot)
    {
      if slot in local {
        if local[slot] == InFlight {
          return Err(Busy);
        }
        if local[slot].expiresAt > now {
          return Ok(Some(local[slot].body));
        }
        local := local - {slot};
      }
      local := local[slot := InFlight];
      assert View(local, now) == View(old(local), now)[slot := Processing];
      r := Ok(None);
    }

    /** The part after it: `row` is what the database holds for the slot. */
    method CheckDatabase(slot: Slot, row: Option<IdemRow>, hash: string, seen: int, now: int) returns (r: Reservation)
      requires seen <= now
      modifies `local
      ensures (View(local, seen), r) == LookInTable(View(old(local), seen), slot, row, hash)
    {
      if row == None {
        return Ok(None);
      }
      if row.value.requestHash != hash {
        return Err(BodyMismatch);
      }
      StoreResponse(slot, row.value.body, seen, now);
      r := Ok(Some(row.value.body));
    }

    /** The clock is read on entry, for the eviction, under the lock and when a response is put back. */
    method TryReserve(slot: Slot, row: Option<IdemRow>, hash: string,
                      entry: int, evicting: int, seen: int, storing: int)
      returns (r: Reservation)
      requires entry <= evicting <= seen <= storing
      modifies this
      ensures (View(local, seen), r) == ReserveSpec(View(old(local), seen), slot, row, hash)
      ensures lastEviction == if entry - old(lastEviction) > 300 then entry else old(lastEviction)
    {
      if entry - lastEviction > EVICTION_INTERVAL {
        EvictExpired(evicting);
        lastEviction := entry;
      }
      r := Acquire(slot, seen);
      if r == Ok(None) {
        r := CheckDatabase(slot, row, hash, seen, storing);
      }
    }

    /** Stored at `now`; whoever looks with an earlier reading `seen` of the clock sees it too. */
    method StoreResponse(slot: Slot, body: Response, ghost seen: int, now: int)
      requires seen <= now
      modifies `local
      ensures View(local, seen) == Remembered(View(old(local), seen), Some(slot), body)
      ensures View(local, now) == Remembered(View(old(local), now), Some(slot), body)
      ensures forall t :: slot in View(local, t) <==> t - now < 3600
    {
      local := local[slot := Stored(body, now + TTL_SECONDS)];
    }

    method Release(slot: Slot, now: int)
      modifies `local
      ensures View(local, now) == Released(View(old(local), now), Some(slot))
    {
      if slot in local && local[slot] == InFlight {
        local := local - {slot};
      }
    }
  }
}
