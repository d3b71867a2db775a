/**
 `AdminSessionStore` (api/session_store.py) in its in-memory mode. The dictionary drops
 expired entries when it is full and when they are read; `spec` is the map that never does.
 */
module SessionStore {
  import opened Common
  import opened SessionSpec

  const MAX_LOCAL_ENTRIES := 1000

  class AdminSessionStore {
    const hash: Hash
    var local: Store
    ghost var spec: Store
    ghost var clock: int

    /** What is missing from the dictionary had expired when it was dropped. */
    ghost predicate Valid()
      reads this
    {
      && IsDigest(hash)
      && (forall k :: k in local ==> k in spec && local[k] == spec[k])
      && (forall k :: k in spec && k !in local ==> spec[k].expires < clock)
    }

    constructor (hash: Hash, now: int)
      requires IsDigest(hash)
      ensures Valid() && this.hash == hash && spec == map[] && clock == now
    {
      this.hash := hash;
      local := map[];
      spec, clock := map[], now;
    }

    /** A run of the public interface: the state moves and the answer comes as `spec` says. */
    twostate predicate Performs(op: Op, now: int)
      reads this
    {
      && Valid() && clock == now
      && spec == After(hash, old(spec), Event(op, now))
    }

    method EvictExpired(now: int)
      requires Valid() && clock <= now
      modifies this
      ensures Valid() && spec == old(spec) && clock == now
      ensures forall k :: k in local <==> k in old(local) && old(local)[k].expires >= now
    {
      local := map k | k in local && local[k].expires >= now :: local[k];
      clock := now;
    }

    method StoreToken(key: string, ttl: int, now: int, value: Value)
      requires Valid() && clock <= now
      modifies this
      ensures Valid() && clock == now
      ensures spec == old(spec)[key := Entry(now + ttl, value)]
      ensures |old(local)| < 1000 ==> local == old(local)[key := Entry(now + ttl, value)]
      ensures |old(local)| >= 1000 ==> forall k :: k in local ==> k == key || local[k].expires >= now
    {
      if |local| >= MAX_LOCAL_ENTRIES {
        EvictExpired(now);
      }
      local := local[key := Entry(now + ttl, value)];
      spec := spec[key := Entry(now + ttl, value)];
      clock := now;
    }

    method ReadToken(key: string, now: int) returns (value: Option<Value>)
      requires Valid() && clock <= now
      modifies this
      ensures Valid() && clock == now && spec == old(spec)
      ensures value == if Live(spec, key, now) then Some(spec[key].value) else None
    {
      clock := now;
      if key !in local {
        return None;
      }
      if local[key].expires < now {
        local := local - {key};
        return None;
      }
      value := Some(local[key].value);
    }

    method DeleteToken(key: string, now: int)
      requires Valid() && clock <= now
      modifies this
      ensures Valid() && clock == now && spec == old(spec) - {key}
    {
      local := local - {key};
      spec := spec - {key};
      clock := now;
    }

    /** `token` is the result of the random generator. */
    method CreateSession(token: string, ttl: int, ip: Option<string>, userAgent: Option<string>, now: int)
      requires Valid() && clock <= now
      modifies this
      ensures Performs(Op.CreateSession(token, ttl, ip, userAgent), now)
    {
      StoreToken(SessionKey(hash, token), ttl, now, BindingOf(hash, ip, userAgent));
    }

    method ValidateSession(token: string, ip: Option<string>, userAgent: Option<string>, now: int) returns (ok: bool)
      requires Valid() && clock <= now
      modifies this
      ensures Performs(Op.ValidateSession(token, ip, userAgent), now)
      ensures ok == Answer(hash, spec, Event(Op.ValidateSession(token, ip, userAgent), now))
    {
      if token == "" {
        clock := now;
        return false;
      }
      var raw := ReadToken(SessionKey(hash, token), now);
      if raw == None {
        return false;
      }
      if raw.value.Plain? {
        return true;
      }
      var boundIp, boundUaHash := raw.value.ip, raw.value.uaHash;
      if boundIp != "" && boundIp != OrEmpty(ip) {
        return false;
      }
      if boundUaHash != "" {
        var gotHash := if Given(userAgent) then hash(userAgent.value) else "";
        if boundUaHash != gotHash {
          return false;
        }
      }
      ok := true;
    }

    method SetSession(token: string, ttl: int, now: int)
      requires Valid() && clock <= now
      modifies this
      ensures Performs(Op.SetSession(token, ttl), now)
    {
      StoreToken(SessionKey(hash, token), ttl, now, Plain);
    }

    method GetSession(token: string, now: int) returns (ok: bool)
      requires Valid() && clock <= now
      modifies this
      ensures Performs(Op.GetSession(token), now)
      ensures ok == Answer(hash, spec, Event(Op.GetSession(token), now))
    {
      if token == "" {
        clock := now;
        return false;
      }
      var raw := ReadToken(SessionKey(hash, token), now);
      ok := raw.Some?;
    }

    method DeleteSession(token: string, now: int)
      requires Valid() && clock <= now
      modifies this
      ensures Performs(Op.DeleteSession(token), now)
    {
      DeleteToken(SessionKey(hash, token), now);
    }

    /** `token` is the result of the random generator. */
    method CreateCsrfToken(token: string, now: int)
      requires Valid() && clock <= now
      modifies this
      ensures Performs(CreateCsrf(token), now)
    {
      StoreToken(CsrfKey(hash, token), CSRF_TTL, now, Plain);
    }

    method VerifyCsrfToken(token: string, now: int) returns (ok: bool)
      requires Valid() && clock <= now
      modifies this
      ensures Performs(VerifyCsrf(token), now)
      ensures ok == Answer(hash, old(spec), Event(VerifyCsrf(token), now))
    {
      clock := now;
      if Blank(token) {
        return false;
      }
      var key := CsrfKey(hash, token);
      ok := key in local && local[key].expires > now;
      local := local - {key};
      spec := spec - {key};
    }
  }
}
