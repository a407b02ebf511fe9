/** The presence cache of one instance in front of the Redis that all instances share. */
module Presence {
  import opened Basics

  const CACHE_TTL := 5 * SECOND

  datatype UserPresence = UserPresence(userID: string, instanceID: string, connID: string, ttl: int, updatedAt: int)

  // The value of a Redis key: instances write presences, other writers may not.
  datatype Value = Decoded(presence: UserPresence) | Undecodable

  // A Redis key; without a deadline it does not expire.
  datatype RedisKey = RedisKey(value: Value, deadline: Option<int>)
  type Keys = map<string, RedisKey>

  datatype Entry = Entry(presence: UserPresence, expiry: int)
  type Cache = map<string, Entry>

  // ----- Redis -----

  function Live(keys: Keys, u: string, now: int): Option<Value> {
    if u in keys && (keys[u].deadline.Some? ==> now < keys[u].deadline.value) then Some(keys[u].value) else None
  }

  predicate Readable(keys: Keys, u: string, now: int) {
    Live(keys, u, now).Some? && Live(keys, u, now).value.Decoded?
  }

  // The presence Redis has for the user.
  function Current(keys: Keys, u: string, now: int): UserPresence
    requires Readable(keys, u, now)
  {
    Live(keys, u, now).value.presence
  }

  // SET: a time to live that is not positive sets none.
  function SetKey(keys: Keys, u: string, p: UserPresence, now: int, ttl: int): Keys {
    keys[u := RedisKey(Decoded(p), if ttl > 0 then Some(now + ttl * SECOND) else None)]
  }

  // EXPIRE: no effect on a key that is gone; a time to live that is not positive deletes.
  function ExpireKey(keys: Keys, u: string, now: int, ttl: int): Keys {
    if Live(keys, u, now).None? then keys
    else if ttl <= 0 then keys - {u}
    else keys[u := keys[u].(deadline := Some(now + ttl * SECOND))]
  }

  // ----- the client's operations on values -----

  predicate Fresh(cache: Cache, u: string, now: int) {
    u in cache && now < cache[u].expiry
  }

  datatype Answer = Online(presence: UserPresence) | Offline | Failed

  // GetUserPresence.
  function GetOne(keys: Keys, cache: Cache, u: string, now: int, fails: bool): (Cache, Answer) {
    if Fresh(cache, u, now) then (cache, Online(cache[u].presence))
    else if fails then (cache, Failed)
    else
      match Live(keys, u, now)
      case None => (cache, Offline)
      case Some(Undecodable) => (cache, Failed)
      case Some(Decoded(p)) => (cache[u := Entry(p, now + CACHE_TTL)], Online(p))
  }

  // The ids not answered by the cache, in order, repeats included.
  function MissedIDs(cache: Cache, ids: seq<string>, now: int): seq<string> {
    if ids == [] then []
    else
      var init := MissedIDs(cache, ids[..|ids| - 1], now);
      if Fresh(cache, ids[|ids| - 1], now) then init else init + [ids[|ids| - 1]]
  }

  // The pipeline reports the first error of its commands; a missing key counts as one, but
  // a harmless one, and hides the errors behind it.
  predicate PipelineFails(keys: Keys, missed: seq<string>, now: int, failing: set<string>) {
    missed != [] &&
    (missed[0] in failing || (Live(keys, missed[0], now).Some? && PipelineFails(keys, missed[1..], now, failing)))
  }

  // The ids a batch lookup asks Redis for.
  function MissedSet(cache: Cache, ids: seq<string>, now: int): set<string> {
    set u | u in ids && !Fresh(cache, u, now)
  }

  function Hits(cache: Cache, ids: seq<string>, now: int): map<string, UserPresence> {
    map u | u in ids && Fresh(cache, u, now) :: cache[u].presence
  }

  // What the pipeline brings back for the ids in asked; a failed command and a value that
  // is no presence bring nothing.
  function Replies(keys: Keys, asked: set<string>, now: int, failing: set<string>): map<string, UserPresence> {
    map u | u in asked && u !in failing && Readable(keys, u, now) :: Current(keys, u, now)
  }

  function Stamped(found: map<string, UserPresence>, now: int): Cache {
    map u | u in found :: Entry(found[u], now + CACHE_TTL)
  }

  // GetUsersOnline; None stands for its error.
  function GetMany(keys: Keys, cache: Cache, ids: seq<string>, now: int,
                   failing: set<string>): (Cache, Option<map<string, UserPresence>>) {
    if PipelineFails(keys, MissedIDs(cache, ids, now), now, failing) then (cache, None)
    else
      var found := Replies(keys, MissedSet(cache, ids, now), now, failing);
      (cache + Stamped(found, now), Some(Hits(cache, ids, now) + found))
  }

  // RefreshUserTTL extends the cache entry whether or not Redis still had the key.
  function Refreshed(cache: Cache, u: string, now: int, ttl: int): Cache {
    if u in cache then cache[u := cache[u].(expiry := now + ttl * SECOND)] else cache
  }

  function CleanedUp(cache: Cache, now: int): Cache {
    map u | u in cache && !(now > cache[u].expiry) :: cache[u]
  }

  // ----- the objects -----

  class Redis {
    var keys: Keys

    method Set(u: string, p: UserPresence, now: int, ttl: int)
      modifies this
      ensures keys == SetKey(old(keys), u, p, now, ttl)
    {
      keys := SetKey(keys, u, p, now, ttl);
    }
  }

  class Client {
    const redis: Redis
    const instanceID: string
    var localCache: Cache

    constructor (redis: Redis, instanceID: string)
      ensures this.redis == redis && this.instanceID == instanceID && localCache == map[]
    {
      this.redis, this.instanceID, localCache := redis, instanceID, map[];
    }

    method SetUserOnline(userID: string, connID: string, ttl: int, now: int, fails: bool) returns (ok: bool)
      modifies redis
      ensures ok == !fails
      ensures redis.keys == if fails then old(redis.keys)
                            else SetKey(old(redis.keys), userID,
                                        UserPresence(userID, instanceID, connID, ttl, now / 1_000_000), now, ttl)
    {
      if fails { return false; }
      redis.Set(userID, UserPresence(userID, instanceID, connID, ttl, now / 1_000_000), now, ttl);
      return true;
    }

    method SetUserOffline(userID: string, fails: bool) returns (ok: bool)
      modifies redis, this
      ensures ok == !fails
      ensures redis.keys == if fails then old(redis.keys) else old(redis.keys) - {userID}
      ensures localCache == if fails then old(localCache) else old(localCache) - {userID}
    {
      if fails { return false; }
      redis.keys := redis.keys - {userID};
      localCache := localCache - {userID};
      return true;
    }

    method GetUserPresence(userID: string, now: int, fails: bool) returns (a: Answer)
      modifies this
      ensures (localCache, a) == GetOne(redis.keys, old(localCache), userID, now, fails)
    {
      if userID in localCache && now < localCache[userID].expiry {
        return Online(localCache[userID].presence);
      }
      if fails { return Failed; }
      var found := Live(redis.keys, userID, now);
      if found.None? { return Offline; }
      if found.value.Undecodable? { return Failed; }
      localCache := localCache[userID := Entry(found.value.presence, now + CACHE_TTL)];
      return Online(found.value.presence);
    }

    method RefreshUserTTL(userID: string, ttl: int, now: int, fails: bool) returns (ok: bool)
      modifies redis, this
      ensures ok == !fails
      ensures redis.keys == if fails then old(redis.keys) else ExpireKey(old(redis.keys), userID, now, ttl)
      ensures localCache == if fails then old(localCache) else Refreshed(old(localCache), userID, now, ttl)
    {
      if fails { return false; }
      redis.keys := ExpireKey(redis.keys, userID, now, ttl);
      if userID in localCache {
        localCache := localCache[userID := localCache[userID].(expiry := now + ttl * SECOND)];
      }
      return true;
    }

    method CleanupLocalCache(now: int)
      modifies this
      ensures localCache == CleanedUp(old(localCache), now)
    {
      var todo := localCache.Keys;
      var before := localCache;
      while todo != {}
        invariant todo <= before.Keys
        invariant localCache == map u | u in before && (u in todo || !(now > before[u].expiry)) :: before[u]
        decreases todo
      {
        var u :| u in todo;
        if now > before[u].expiry {
          localCache := localCache - {u};
        }
        todo := todo - {u};
      }
    }

    // Cache hits first, then one pipeline for the rest.
    method GetUsersOnline(userIDs: seq<string>, now: int, failing: set<string>)
      returns (r: Option<map<string, UserPresence>>)
      modifies this
      ensures (localCache, r) == GetMany(redis.keys, old(localCache), userIDs, now, failing)
    {
      var hits, missed := LookInCache(userIDs, now);
      MissedSpec(localCache, userIDs, now);
      var asked := set u | u in missed;
      assert asked == MissedSet(localCache, userIDs, now);
      if |missed| == 0 {
        assert localCache + Stamped(Replies(redis.keys, asked, now, failing), now) == localCache;
        assert hits + Replies(redis.keys, asked, now, failing) == hits;
        return Some(hits);
      }
      if PipelineFails(redis.keys, missed, now, failing) { return None; }
      var result := TakeReplies(hits, asked, now, failing);
      return Some(result);
    }

    method LookInCache(userIDs: seq<string>, now: int) returns (result: map<string, UserPresence>, missed: seq<string>)
      ensures result == Hits(localCache, userIDs, now)
      ensures missed == MissedIDs(localCache, userIDs, now)
    {
      result, missed := map[], [];
      var i := 0;
      assert userIDs[..0] == [];
      while i < |userIDs|
        invariant i <= |userIDs|
        invariant missed == MissedIDs(localCache, userIDs[..i], now)
        invariant result == Hits(localCache, userIDs[..i], now)
      {
        var u := userIDs[i];
        OneLookedUp(localCache, userIDs, i, now);
        if u in localCache && now < localCache[u].expiry {
          result := result[u := localCache[u].presence];
        } else {
          missed := missed + [u];
        }
        i := i + 1;
      }
      assert userIDs[..|userIDs|] == userIDs;
    }

    // The commands are kept in a map, so their replies are taken in any order.
    method TakeReplies(hits: map<string, UserPresence>, asked: set<string>, now: int, failing: set<string>)
      returns (result: map<string, UserPresence>)
      modifies this
      ensures var found := Replies(redis.keys, asked, now, failing);
              result == hits + found && localCache == old(localCache) + Stamped(found, now)
    {
      var todo := asked;
      ghost var done: set<string>, found: map<string, UserPresence> := {}, map[];
      ghost var cache := localCache;
      result := hits;
      while todo != {}
        invariant todo <= asked
        invariant done == asked - todo
        invariant found == Replies(redis.keys, done, now, failing)
        invariant result == hits + found
        invariant localCache == cache + Stamped(found, now)
        decreases todo
      {
        var u :| u in todo;
        OneReply(redis.keys, done, u, now, failing);
        var reply := if u !in failing && Readable(redis.keys, u, now) then Some(Current(redis.keys, u, now)) else None;
        result := TakeReply(result, u, reply, now);
        if reply.Some? {
          AddOne(hits, found, u, reply.value);
          AddOne(cache, Stamped(found, now), u, Entry(reply.value, now + CACHE_TTL));
          found := found[u := reply.value];
        }
        todo, done := todo - {u}, done + {u};
      }
      assert done == asked;
    }

    method TakeReply(found: map<string, UserPresence>, u: string, reply: Option<UserPresence>, now: int)
      returns (result: map<string, UserPresence>)
      modifies this
      ensures result == if reply.None? then found else found[u := reply.value]
      ensures localCache == if reply.None? then old(localCache)
                            else old(localCache)[u := Entry(reply.value, now + CACHE_TTL)]
    {
      result := found;
      if reply.Some? {
        result := result[u := reply.value];
        localCache := localCache[u := Entry(reply.value, now + CACHE_TTL)];
      }
    }
  }

  lemma OneLookedUp(cache: Cache, ids: seq<string>, i: nat, now: int)
    requires i < |ids|
    ensures var u, hits, missed := ids[i], Hits(cache, ids[..i], now), MissedIDs(cache, ids[..i], now);
            if Fresh(cache, u, now)
            then && Hits(cache, ids[..i + 1], now) == hits[u := cache[u].presence]
                 && MissedIDs(cache, ids[..i + 1], now) == missed
            else Hits(cache, ids[..i + 1], now) == hits && MissedIDs(cache, ids[..i + 1], now) == missed + [u]
  {
    assert ids[..i + 1][..i] == ids[..i] && ids[..i + 1] == ids[..i] + [ids[i]];
  }

  lemma AddOne<K, V>(m: map<K, V>, n: map<K, V>, k: K, v: V)
    ensures m + n[k := v] == (m + n)[k := v]
  {
  }

  lemma OneReply(keys: Keys, done: set<string>, u: string, now: int, failing: set<string>)
    ensures var before, after := Replies(keys, done, now, failing), Replies(keys, done + {u}, now, failing);
            if u in failing || !Readable(keys, u, now) then after == before
            else && after == before[u := Current(keys, u, now)]
                 && Stamped(after, now) == Stamped(before, now)[u := Entry(Current(keys, u, now), now + CACHE_TTL)]
  {
  }

  lemma {:induction false} MissedSpec(cache: Cache, ids: seq<string>, now: int)
    ensures forall u :: u in MissedIDs(cache, ids, now) <==> u in MissedSet(cache, ids, now)
  {
    if ids != [] {
      MissedSpec(cache, ids[..|ids| - 1], now);
      assert ids == ids[..|ids| - 1] + [ids[|ids| - 1]];
    }
  }
}
