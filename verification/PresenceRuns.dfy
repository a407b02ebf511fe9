/** What an instance may answer about a user, over every run of its own calls, of the other
  * instances' writes to Redis and of the clock. */
module PresenceRuns {
  import opened Basics
  import opened Presence

  datatype World = World(keys: Keys, cache: Cache, now: int)

  datatype Event =
    | Advance(nanos: nat)
    | Others(keys: Keys) // other instances leave Redis in any state they like
    | SetOnline(u: string, p: UserPresence, ttl: int, fails: bool)
    | SetOffline(u: string, fails: bool)
    | Refresh(u: string, ttl: int, fails: bool)
    | Get(u: string, fails: bool)
    | GetBatch(ids: seq<string>, failing: set<string>)
    | Cleanup

  function Step(w: World, e: Event): World {
    match e
    case Advance(nanos) => w.(now := w.now + nanos)
    case Others(keys) => w.(keys := keys)
    case SetOnline(u, p, ttl, fails) => if fails then w else w.(keys := SetKey(w.keys, u, p, w.now, ttl))
    case SetOffline(u, fails) => if fails then w else w.(keys := w.keys - {u}, cache := w.cache - {u})
    case Refresh(u, ttl, fails) =>
      if fails then w else w.(keys := ExpireKey(w.keys, u, w.now, ttl), cache := Refreshed(w.cache, u, w.now, ttl))
    case Get(u, fails) => w.(cache := GetOne(w.keys, w.cache, u, w.now, fails).0)
    case GetBatch(ids, failing) => w.(cache := GetMany(w.keys, w.cache, ids, w.now, failing).0)
    case Cleanup => w.(cache := CleanedUp(w.cache, w.now))
  }

  function StateAt(start: World, run: seq<Event>, n: nat): World
    requires n <= |run|
  {
    if n == 0 then start else Step(StateAt(start, run, n - 1), run[n - 1])
  }

  lemma {:induction false} ClockAdvances(start: World, run: seq<Event>, i: nat, n: nat)
    requires i <= n <= |run|
    ensures StateAt(start, run, i).now <= StateAt(start, run, n).now
  {
    if i < n { ClockAdvances(start, run, i, n - 1); }
  }

  // ----- one answer -----

  // A lookup that leaves a user out tells that Redis has nothing for them, that their own
  // command failed, or that what Redis has cannot be read.
  lemma OfflineIsTrue(w: World, u: string, fails: bool, ids: seq<string>, failing: set<string>)
    ensures GetOne(w.keys, w.cache, u, w.now, fails).1 == Offline ==> Live(w.keys, u, w.now).None?
    ensures var batch := GetMany(w.keys, w.cache, ids, w.now, failing).1;
            batch.Some? && u in ids && u !in batch.value ==> !Readable(w.keys, u, w.now) || u in failing
  {
    if u in ids && !Fresh(w.cache, u, w.now) { assert u in MissedSet(w.cache, ids, w.now); }
  }

  // The single lookups of ids in turn.
  function Singles(keys: Keys, cache: Cache, ids: seq<string>, now: int): (r: (Cache, seq<Answer>))
    ensures |r.1| == |ids|
  {
    if ids == [] then (cache, [])
    else
      var before := Singles(keys, cache, ids[..|ids| - 1], now);
      var last := GetOne(keys, before.0, ids[|ids| - 1], now, false);
      (last.0, before.1 + [last.1])
  }

  function AsAnswer(m: map<string, UserPresence>, u: string): Answer {
    if u in m then Online(m[u]) else Offline
  }

  // Only Redis knows the user, and what it has is no presence.
  predicate Unreadable(keys: Keys, cache: Cache, u: string, now: int) {
    !Fresh(cache, u, now) && Live(keys, u, now) == Some(Undecodable)
  }

  /** Without Redis errors the batch lookup is the single lookups of its ids in turn: the same
    * cache afterwards and the same answer for every position, repeats included. Only a value
    * that cannot be read fails a single lookup and is passed over by the batch. */
  lemma BatchRefinesSingles(keys: Keys, cache: Cache, ids: seq<string>, now: int)
    ensures var batch := GetMany(keys, cache, ids, now, {});
            var singles := Singles(keys, cache, ids, now);
            && batch.0 == singles.0
            && batch.1.Some?
            && (forall k :: 0 <= k < |ids| ==>
                  if Unreadable(keys, cache, ids[k], now) then singles.1[k] == Failed && ids[k] !in batch.1.value
                  else singles.1[k] == AsAnswer(batch.1.value, ids[k]))
            && (forall u :: u in batch.1.value ==> u in ids)
  {
    NoErrors(keys, MissedIDs(cache, ids, now), now);
    SinglesSpec(keys, cache, ids, now);
    forall k | 0 <= k < |ids|
      ensures var answers := GetMany(keys, cache, ids, now, {}).1.value;
              var single := GetOne(keys, cache, ids[k], now, false).1;
              if Unreadable(keys, cache, ids[k], now) then ids[k] !in answers else AsAnswer(answers, ids[k]) == single
    {
      assert ids[k] in ids;
      assert ids[k] in MissedSet(cache, ids, now) <==> !Fresh(cache, ids[k], now);
    }
  }

  lemma {:induction false} NoErrors(keys: Keys, missed: seq<string>, now: int)
    ensures !PipelineFails(keys, missed, now, {})
  {
    if missed != [] { NoErrors(keys, missed[1..], now); }
  }

  // Earlier lookups in the row change no later answer, only what is cached.
  lemma {:induction false} SinglesSpec(keys: Keys, cache: Cache, ids: seq<string>, now: int)
    ensures var singles := Singles(keys, cache, ids, now);
            && singles.0 == cache + Stamped(Replies(keys, MissedSet(cache, ids, now), now, {}), now)
            && forall k :: 0 <= k < |ids| ==> singles.1[k] == GetOne(keys, cache, ids[k], now, false).1
  {
    if ids == [] {
      assert Replies(keys, MissedSet(cache, ids, now), now, {}) == map[];
    } else {
      var init, u := ids[..|ids| - 1], ids[|ids| - 1];
      SinglesSpec(keys, cache, init, now);
      OneMore(keys, cache, init, u, now);
      assert ids == init + [u];
    }
  }

  lemma OneMore(keys: Keys, cache: Cache, init: seq<string>, u: string, now: int)
    ensures GetOne(keys, cache + Stamped(Replies(keys, MissedSet(cache, init, now), now, {}), now), u, now, false)
         == (cache + Stamped(Replies(keys, MissedSet(cache, init + [u], now), now, {}), now),
             GetOne(keys, cache, u, now, false).1)
  {
    var missed := MissedSet(cache, init, now);
    if Fresh(cache, u, now) {
      assert MissedSet(cache, init + [u], now) == missed;
    } else {
      assert MissedSet(cache, init + [u], now) == missed + {u};
      OneReply(keys, missed, u, now, {});
      var found := Stamped(Replies(keys, missed, now, {}), now);
      if Readable(keys, u, now) {
        var entry := Entry(Current(keys, u, now), now + CACHE_TTL);
        AddOne(cache, found, u, entry);
        if u in found { assert found[u := entry] == found; }
      }
    }
  }

  // ----- runs -----

  // Event e reads p for u from Redis.
  predicate Fetches(w: World, e: Event, u: string, p: UserPresence) {
    && Live(w.keys, u, w.now) == Some(Decoded(p))
    && match e
       case Get(v, fails) => v == u && !fails && !Fresh(w.cache, u, w.now)
       case GetBatch(ids, failing) =>
         && u in MissedSet(w.cache, ids, w.now) && u !in failing
         && !PipelineFails(w.keys, MissedIDs(w.cache, ids, w.now), w.now, failing)
       case _ => false
  }

  predicate Refreshes(e: Event, u: string) {
    e.Refresh? && e.u == u && !e.fails
  }

  /** The story of a cache entry: event i fetched its content; its expiry was set by event j,
    * which is that fetch or the last refresh after it. */
  ghost predicate Story(start: World, run: seq<Event>, n: nat, u: string, entry: Entry, i: nat, j: nat)
    requires n <= |run|
  {
    && i <= j < n
    && Fetches(StateAt(start, run, i), run[i], u, entry.presence)
    && (i == j ==> entry.expiry == StateAt(start, run, j).now + 5_000_000_000)
    && (i < j ==> Refreshes(run[j], u) && entry.expiry == StateAt(start, run, j).now + run[j].ttl * 1_000_000_000)
    && forall k :: j < k < n ==> !Refreshes(run[k], u)
  }

  lemma {:induction false} EntryHasStory(start: World, run: seq<Event>, n: nat, u: string) returns (i: nat, j: nat)
    requires n <= |run| && start.cache == map[] && u in StateAt(start, run, n).cache
    ensures Story(start, run, n, u, StateAt(start, run, n).cache[u], i, j)
  {
    var w, e := StateAt(start, run, n - 1), run[n - 1];
    var entry := StateAt(start, run, n).cache[u];
    if Fetches(w, e, u, entry.presence) && entry.expiry == w.now + CACHE_TTL {
      return n - 1, n - 1;
    }
    KeptOrRefreshed(w, e, u);
    i, j := EntryHasStory(start, run, n - 1, u);
    if Refreshes(e, u) { j := n - 1; }
  }

  // An entry that an event did not fetch was there before, with the same content, and only a refresh moves its expiry.
  lemma KeptOrRefreshed(w: World, e: Event, u: string)
    requires u in Step(w, e).cache
    requires var entry := Step(w, e).cache[u]; !(Fetches(w, e, u, entry.presence) && entry.expiry == w.now + CACHE_TTL)
    ensures u in w.cache && Step(w, e).cache[u].presence == w.cache[u].presence
    ensures Step(w, e).cache[u].expiry == if Refreshes(e, u) then w.now + e.ttl * SECOND else w.cache[u].expiry
  {
  }

  // Redis had p for u at a moment less than five seconds before the end of the run.
  ghost predicate SeenRecently(start: World, run: seq<Event>, n: nat, u: string, p: UserPresence)
    requires n <= |run|
  {
    exists i: nat :: i <= n && Live(StateAt(start, run, i).keys, u, StateAt(start, run, i).now) == Some(Decoded(p))
                  && StateAt(start, run, n).now < StateAt(start, run, i).now + 5_000_000_000
  }

  // Redis had p for u at an event before the last refresh of u, and that refresh has not run out.
  ghost predicate KeptByRefresh(start: World, run: seq<Event>, n: nat, u: string, p: UserPresence)
    requires n <= |run|
  {
    exists i: nat, j: nat :: i < j < n
      && Live(StateAt(start, run, i).keys, u, StateAt(start, run, i).now) == Some(Decoded(p))
      && Refreshes(run[j], u) && StateAt(start, run, n).now < StateAt(start, run, j).now + run[j].ttl * 1_000_000_000
      && forall k :: j < k < n ==> !Refreshes(run[k], u)
  }

  /** Every answer "online" was the Redis value within the last five seconds, or is kept up by
    * the last refresh of that user, whatever the other instances do. */
  lemma OnlineIsRecent(start: World, run: seq<Event>, n: nat, u: string, p: UserPresence, fails: bool)
    requires n <= |run| && start.cache == map[]
    requires var w := StateAt(start, run, n); GetOne(w.keys, w.cache, u, w.now, fails).1 == Online(p)
    ensures SeenRecently(start, run, n, u, p) || KeptByRefresh(start, run, n, u, p)
  {
    var w := StateAt(start, run, n);
    if Fresh(w.cache, u, w.now) {
      var i, j := EntryHasStory(start, run, n, u);
      if i == j {
        assert Live(StateAt(start, run, i).keys, u, StateAt(start, run, i).now) == Some(Decoded(p));
      } else {
        assert Refreshes(run[j], u);
        assert Live(StateAt(start, run, i).keys, u, StateAt(start, run, i).now) == Some(Decoded(p));
      }
    }
  }

  // A batch lookup gives an answer only where the single lookup gives the same one.
  lemma BatchAnswersAgree(w: World, ids: seq<string>, failing: set<string>, u: string)
    requires var batch := GetMany(w.keys, w.cache, ids, w.now, failing).1; batch.Some? && u in batch.value
    ensures GetOne(w.keys, w.cache, u, w.now, false).1
           == Online(GetMany(w.keys, w.cache, ids, w.now, failing).1.value[u])
  {
  }

  // Redis had p for u recently, or the last refresh keeps it up.
  ghost predicate Vouched(start: World, run: seq<Event>, n: nat, u: string, p: UserPresence)
    requires n <= |run|
  {
    SeenRecently(start, run, n, u, p) || KeptByRefresh(start, run, n, u, p)
  }

  /** The error of an answer is one-sided, at every moment of every run: who is called offline
    * has no key, and whoever is called online was so recently or is kept up by a refresh. */
  lemma AnswerIsOneSided(start: World, run: seq<Event>, n: nat, u: string, fails: bool)
    requires n <= |run| && start.cache == map[]
    ensures var w := StateAt(start, run, n);
            match GetOne(w.keys, w.cache, u, w.now, fails).1
            case Online(p) => Vouched(start, run, n, u, p)
            case Offline => Live(w.keys, u, w.now).None?
            case Failed => fails || Live(w.keys, u, w.now) == Some(Undecodable)
  {
    var w := StateAt(start, run, n);
    var answer := GetOne(w.keys, w.cache, u, w.now, fails).1;
    if answer.Online? { OnlineIsRecent(start, run, n, u, answer.presence, fails); }
  }

  /** The same for the batch: whoever it leaves out has no presence in Redis, or their own
    * command failed. */
  lemma BatchIsOneSided(start: World, run: seq<Event>, n: nat, u: string, ids: seq<string>, failing: set<string>)
    requires n <= |run| && start.cache == map[] && u in ids
    requires var w := StateAt(start, run, n); GetMany(w.keys, w.cache, ids, w.now, failing).1.Some?
    ensures var w := StateAt(start, run, n);
            var found := GetMany(w.keys, w.cache, ids, w.now, failing).1.value;
            if u in found then Vouched(start, run, n, u, found[u]) else !Readable(w.keys, u, w.now) || u in failing
  {
    var w := StateAt(start, run, n);
    var found := GetMany(w.keys, w.cache, ids, w.now, failing).1.value;
    if u in found {
      BatchAnswersAgree(w, ids, failing, u);
      OnlineIsRecent(start, run, n, u, found[u], false);
    } else {
      OfflineIsTrue(w, u, false, ids, failing);
    }
  }

  ghost predicate AlwaysRecent(start: World, run: seq<Event>) {
    forall n: nat, u, p, fails | n <= |run| ::
      (var w := StateAt(start, run, n); GetOne(w.keys, w.cache, u, w.now, fails).1 == Online(p)) ==>
        SeenRecently(start, run, n, u, p)
  }

  predicate RefreshesUse(run: seq<Event>, ttl: int) {
    forall k :: 0 <= k < |run| && run[k].Refresh? ==> run[k].ttl == ttl
  }

  /** The five seconds hold in all runs that refresh with a given time to live exactly when
    * that time is not positive, that is, when refreshing keeps nobody online. */
  lemma FiveSecondsIff(ttl: int)
    ensures (forall start: World, run :: start.cache == map[] && RefreshesUse(run, ttl) ==> AlwaysRecent(start, run))
           <==> ttl <= 0
  {
    if ttl <= 0 {
      forall start: World, run | start.cache == map[] && RefreshesUse(run, ttl) ensures AlwaysRecent(start, run) {
        IdleRefreshesAreRecent(start, run, ttl);
      }
    } else {
      var start, run := StaleRun(ttl);
      assert !AlwaysRecent(start, run);
    }
  }

  lemma IdleRefreshesAreRecent(start: World, run: seq<Event>, ttl: int)
    requires start.cache == map[] && RefreshesUse(run, ttl) && ttl <= 0
    ensures AlwaysRecent(start, run)
  {
    forall n: nat, u, p, fails
      | n <= |run| && var w := StateAt(start, run, n); GetOne(w.keys, w.cache, u, w.now, fails).1 == Online(p)
      ensures SeenRecently(start, run, n, u, p)
    {
      OnlineIsRecent(start, run, n, u, p, fails);
      if KeptByRefresh(start, run, n, u, p) { KeptNeedsTime(start, run, n, u, p, ttl); }
    }
  }

  lemma KeptNeedsTime(start: World, run: seq<Event>, n: nat, u: string, p: UserPresence, ttl: int)
    requires n <= |run| && RefreshesUse(run, ttl) && KeptByRefresh(start, run, n, u, p)
    ensures ttl > 0
  {
    var i: nat, j: nat :| i < j < n
      && Live(StateAt(start, run, i).keys, u, StateAt(start, run, i).now) == Some(Decoded(p))
      && Refreshes(run[j], u) && StateAt(start, run, n).now < StateAt(start, run, j).now + run[j].ttl * 1_000_000_000;
    ClockAdvances(start, run, j, n);
  }

  /** Runs without a refresh: every answer, single or batch, is less than five seconds old. */
  lemma WithoutRefresh(start: World, run: seq<Event>, n: nat, u: string, ids: seq<string>, failing: set<string>)
    requires n <= |run| && start.cache == map[]
    requires forall k :: 0 <= k < |run| ==> !run[k].Refresh?
    ensures AlwaysRecent(start, run)
    ensures var w := StateAt(start, run, n);
            var batch := GetMany(w.keys, w.cache, ids, w.now, failing).1;
            batch.Some? && u in batch.value ==> SeenRecently(start, run, n, u, batch.value[u])
  {
    IdleRefreshesAreRecent(start, run, 0);
    var w := StateAt(start, run, n);
    var batch := GetMany(w.keys, w.cache, ids, w.now, failing).1;
    if batch.Some? && u in batch.value { BatchAnswersAgree(w, ids, failing, u); }
  }

  // The key goes away right after a lookup; a refresh just before the entry runs out keeps the entry.
  lemma StaleRun(ttl: int) returns (start: World, run: seq<Event>)
    requires ttl > 0
    ensures start.cache == map[] && RefreshesUse(run, ttl) && !AlwaysRecent(start, run)
  {
    var p := UserPresence("u", "", "", 0, 0);
    start := World(map["u" := RedisKey(Decoded(p), None)], map[], 0);
    run := [Get("u", false), Others(map[]), Advance(CACHE_TTL - 1), Refresh("u", ttl, false), Advance(1)];
    var w1 := World(start.keys, map["u" := Entry(p, CACHE_TTL)], 0);
    assert StateAt(start, run, 1) == w1;
    assert StateAt(start, run, 2) == w1.(keys := map[]);
    assert StateAt(start, run, 3) == w1.(keys := map[], now := CACHE_TTL - 1);
    assert StateAt(start, run, 4) == World(map[], map["u" := Entry(p, CACHE_TTL - 1 + ttl * SECOND)], CACHE_TTL - 1);
    assert StateAt(start, run, 5) == World(map[], map["u" := Entry(p, CACHE_TTL - 1 + ttl * SECOND)], CACHE_TTL);
    var w := StateAt(start, run, 5);
    assert GetOne(w.keys, w.cache, "u", w.now, false).1 == Online(p);
    assert !SeenRecently(start, run, 5, "u", p);
  }
}
