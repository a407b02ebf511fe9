/** How long a presence lives in Redis, and what going offline, cleaning up and failing
    commands do to the answers. */
module PresenceKeys {
  import opened Basics
  import opened Presence
  import opened PresenceRuns

  // ----- lifetimes -----

  predicate SameKey(a: Keys, b: Keys, u: string) {
    (u in a <==> u in b) && (u in a ==> a[u] == b[u])
  }

  // The event may change the user's key: an own call for the user, or another instance.
  predicate Touches(w: World, e: Event, u: string) {
    match e
    case Others(keys) => !SameKey(w.keys, keys, u)
    case SetOnline(v, _, _, fails) => v == u && !fails
    case SetOffline(v, fails) => v == u && !fails
    case Refresh(v, _, fails) => v == u && !fails
    case _ => false
  }

  ghost predicate Untouched(start: World, run: seq<Event>, i: nat, n: nat, u: string)
    requires i <= n <= |run|
  {
    forall k :: i <= k < n ==> !Touches(StateAt(start, run, k), run[k], u)
  }

  lemma {:induction false} KeyStays(start: World, run: seq<Event>, i: nat, n: nat, u: string)
    requires i <= n <= |run| && Untouched(start, run, i, n, u)
    ensures SameKey(StateAt(start, run, i).keys, StateAt(start, run, n).keys, u)
  {
    if i < n {
      KeyStays(start, run, i, n - 1, u);
      assert !Touches(StateAt(start, run, n - 1), run[n - 1], u);
    }
  }

  lemma NextState(start: World, run: seq<Event>, i: nat)
    requires i < |run|
    ensures StateAt(start, run, i + 1) == Step(StateAt(start, run, i), run[i])
  {
  }

  lemma SameLife(a: Keys, b: Keys, u: string, now: int)
    requires SameKey(a, b, u)
    ensures Live(a, u, now) == Live(b, u, now)
  {
  }

  // Whether the user is in Redis is only a matter of the clock then.
  lemma LiveLater(start: World, run: seq<Event>, i: nat, n: nat, u: string)
    requires i < n <= |run| && Untouched(start, run, i + 1, n, u)
    ensures var w := StateAt(start, run, n);
            && StateAt(start, run, i).now <= w.now
            && Live(w.keys, u, w.now) == Live(Step(StateAt(start, run, i), run[i]).keys, u, w.now)
  {
    KeyStays(start, run, i + 1, n, u);
    ClockAdvances(start, run, i, n);
    NextState(start, run, i);
    SameLife(StateAt(start, run, i + 1).keys, StateAt(start, run, n).keys, u, StateAt(start, run, n).now);
  }

  lemma LifeAfterSet(w: World, e: Event, later: int)
    requires e.SetOnline? && !e.fails
    ensures Live(Step(w, e).keys, e.u, later)
         == if e.ttl <= 0 || later < w.now + e.ttl * 1_000_000_000 then Some(Decoded(e.p)) else None
  {
  }

  lemma LifeAfterRefresh(w: World, e: Event, later: int)
    requires e.Refresh? && !e.fails && w.now <= later
    ensures Live(Step(w, e).keys, e.u, later)
         == if e.ttl > 0 && later < w.now + e.ttl * 1_000_000_000 then Live(w.keys, e.u, w.now) else None
  {
  }

  // A user set online is in Redis for the time to live, or for good if that is not
  // positive, while nobody touches the key.
  lemma OnlineLasts(start: World, run: seq<Event>, i: nat, n: nat, u: string)
    requires i < n <= |run| && run[i].SetOnline? && run[i].u == u && !run[i].fails
    requires Untouched(start, run, i + 1, n, u)
    ensures var w, call := StateAt(start, run, n), run[i];
            Live(w.keys, u, w.now)
              == if call.ttl <= 0 || w.now < StateAt(start, run, i).now + call.ttl * 1_000_000_000
                 then Some(Decoded(call.p)) else None
  {
    LiveLater(start, run, i, n, u);
    LifeAfterSet(StateAt(start, run, i), run[i], StateAt(start, run, n).now);
  }

  // A refresh gives a live key that time from the refresh on, or takes it away if the time
  // is not positive; a key that is gone stays gone.
  lemma RefreshLasts(start: World, run: seq<Event>, i: nat, n: nat, u: string)
    requires i < n <= |run| && run[i].Refresh? && run[i].u == u && !run[i].fails
    requires Untouched(start, run, i + 1, n, u)
    ensures var before, w, ttl := StateAt(start, run, i), StateAt(start, run, n), run[i].ttl;
            Live(w.keys, u, w.now)
              == if ttl > 0 && w.now < before.now + ttl * 1_000_000_000
                 then Live(before.keys, u, before.now) else None
  {
    LiveLater(start, run, i, n, u);
    LifeAfterRefresh(StateAt(start, run, i), run[i], StateAt(start, run, n).now);
  }

  // Nothing but a call for the user or another instance brings a user back.
  lemma GoneStaysGone(start: World, run: seq<Event>, i: nat, n: nat, u: string)
    requires i <= n <= |run| && Untouched(start, run, i, n, u)
    requires Live(StateAt(start, run, i).keys, u, StateAt(start, run, i).now).None?
    ensures Live(StateAt(start, run, n).keys, u, StateAt(start, run, n).now).None?
  {
    KeyStays(start, run, i, n, u);
    ClockAdvances(start, run, i, n);
  }

  // ----- going offline -----

  lemma {:induction false} StaysOut(start: World, run: seq<Event>, i: nat, n: nat, u: string)
    requires i <= n <= |run| && Untouched(start, run, i, n, u)
    requires u !in StateAt(start, run, i).keys && u !in StateAt(start, run, i).cache
    ensures u !in StateAt(start, run, n).keys && u !in StateAt(start, run, n).cache
  {
    if i < n {
      StaysOut(start, run, i, n - 1, u);
      assert !Touches(StateAt(start, run, n - 1), run[n - 1], u);
    }
  }

  // An instance that set a user offline answers so at once, without a cached answer left,
  // until somebody sets the user online again.
  lemma OfflineTakesEffect(start: World, run: seq<Event>, i: nat, n: nat, u: string, fails: bool)
    requires i < n <= |run| && run[i] == SetOffline(u, false)
    requires Untouched(start, run, i + 1, n, u)
    ensures var w := StateAt(start, run, n);
            GetOne(w.keys, w.cache, u, w.now, fails).1 == if fails then Failed else Offline
  {
    NextState(start, run, i);
    StaysOut(start, run, i + 1, n, u);
  }

  // ----- cleaning up -----

  // The entries past their expiry go, no others, and no answer changes from then on.
  lemma CleanupKeepsAnswers(keys: Keys, cache: Cache, now: int, later: int, u: string, fails: bool)
    requires now <= later
    ensures u in CleanedUp(cache, now) <==> u in cache && now <= cache[u].expiry
    ensures u in CleanedUp(cache, now) ==> CleanedUp(cache, now)[u] == cache[u]
    ensures Fresh(CleanedUp(cache, now), u, later) <==> Fresh(cache, u, later)
    ensures GetOne(keys, CleanedUp(cache, now), u, later, fails).1 == GetOne(keys, cache, u, later, fails).1
  {
  }

  lemma {:induction false} MissedAfterCleanup(cache: Cache, now: int, later: int, ids: seq<string>)
    requires now <= later
    ensures MissedIDs(CleanedUp(cache, now), ids, later) == MissedIDs(cache, ids, later)
  {
    if ids != [] { MissedAfterCleanup(cache, now, later, ids[..|ids| - 1]); }
  }

  lemma CleanupKeepsBatches(keys: Keys, cache: Cache, now: int, later: int, ids: seq<string>, failing: set<string>)
    requires now <= later
    ensures GetMany(keys, CleanedUp(cache, now), ids, later, failing).1 == GetMany(keys, cache, ids, later, failing).1
  {
    MissedAfterCleanup(cache, now, later, ids);
    assert MissedSet(CleanedUp(cache, now), ids, later) == MissedSet(cache, ids, later);
    assert Hits(CleanedUp(cache, now), ids, later) == Hits(cache, ids, later);
  }

  // ----- failing commands -----

  ghost predicate FirstErrorAt(keys: Keys, missed: seq<string>, now: int, failing: set<string>, k: nat) {
    && k < |missed| && missed[k] in failing
    && forall j :: 0 <= j < k ==> missed[j] !in failing && Live(keys, missed[j], now).Some?
  }

  // The pipeline's error is that of a failing command exactly when every command before it
  // finds a key: one that finds none comes first and counts as no error.
  lemma {:induction false} PipelineFailsIff(keys: Keys, missed: seq<string>, now: int, failing: set<string>)
    ensures PipelineFails(keys, missed, now, failing)
       <==> exists k: nat :: FirstErrorAt(keys, missed, now, failing, k)
  {
    if missed != [] {
      PipelineFailsIff(keys, missed[1..], now, failing);
      if k: nat :| FirstErrorAt(keys, missed, now, failing, k) {
        if k > 0 { assert FirstErrorAt(keys, missed[1..], now, failing, k - 1); }
      }
      if missed[0] in failing {
        assert FirstErrorAt(keys, missed, now, failing, 0);
      } else if Live(keys, missed[0], now).Some? {
        if k: nat :| FirstErrorAt(keys, missed[1..], now, failing, k) {
          ErrorBehind(keys, missed, now, failing, k);
        }
      }
    }
  }

  lemma ErrorBehind(keys: Keys, missed: seq<string>, now: int, failing: set<string>, k: nat)
    requires missed != [] && missed[0] !in failing && Live(keys, missed[0], now).Some?
    requires FirstErrorAt(keys, missed[1..], now, failing, k)
    ensures FirstErrorAt(keys, missed, now, failing, k + 1)
  {
    forall j | 0 <= j < k + 1 ensures missed[j] !in failing && Live(keys, missed[j], now).Some? {
      if j > 0 { assert missed[j] == missed[1..][j - 1]; }
    }
  }

  // What a batch lookup answers and caches, user by user: cached answers that are still
  // fresh, and otherwise what Redis has, unless the command failed or the value cannot be
  // read. What came from Redis is cached for five seconds; nothing else in the cache moves.
  lemma BatchUserByUser(keys: Keys, cache: Cache, ids: seq<string>, now: int, failing: set<string>, u: string)
    requires GetMany(keys, cache, ids, now, failing).1.Some?
    ensures var (after, batch) := GetMany(keys, cache, ids, now, failing);
            var hit := u in ids && u in cache && now < cache[u].expiry;
            var found := u in ids && !hit && u !in failing && Readable(keys, u, now);
            && (u in batch.value <==> hit || found)
            && (hit ==> batch.value[u] == cache[u].presence)
            && (found ==> batch.value[u] == Current(keys, u, now))
            && (if found then u in after && after[u] == Entry(Current(keys, u, now), now + 5_000_000_000)
                else (u in after <==> u in cache) && (u in cache ==> after[u] == cache[u]))
  {
    assert u in MissedSet(cache, ids, now) <==> u in ids && !Fresh(cache, u, now);
  }
}
