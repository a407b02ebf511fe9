/** The per-connection fixed-window rate limiter. Times are nanoseconds of a clock that
    never runs backwards. */
module RateLimiter {
  import opened Basics

  datatype Verdict = Allowed | RateExceeded | TooLarge

  datatype Limiter = Limiter(maxPerSec: int, maxSize: int, count: int, lastReset: int)

  // The window starts again at a call that comes a second or more after its start.
  function Refreshed(l: Limiter, now: int): Limiter {
    if now - l.lastReset >= SECOND then l.(count := 0, lastReset := now) else l
  }

  function Judge(l: Limiter, now: int, size: int): Verdict {
    if Refreshed(l, now).count >= l.maxPerSec then RateExceeded
    else if size > l.maxSize then TooLarge
    else Allowed
  }

  function Next(l: Limiter, now: int, size: int): Limiter {
    var r := Refreshed(l, now);
    if Judge(l, now, size) == Allowed then r.(count := r.count + 1) else r
  }

  class RateLimiter {
    const maxMessagesPerSec: int
    const maxMessageSize: int
    var messageCount: int
    var lastReset: int

    constructor (maxMessagesPerSec: int, maxMessageSize: int, now: int)
      ensures State() == Limiter(maxMessagesPerSec, maxMessageSize, 0, now)
    {
      this.maxMessagesPerSec, this.maxMessageSize := maxMessagesPerSec, maxMessageSize;
      messageCount, lastReset := 0, now;
    }

    function State(): Limiter
      reads this
    {
      Limiter(maxMessagesPerSec, maxMessageSize, messageCount, lastReset)
    }

    method Allow(now: int, msgSize: int) returns (v: Verdict)
      modifies this
      ensures v == Judge(old(State()), now, msgSize)
      ensures State() == Next(old(State()), now, msgSize)
    {
      if now - lastReset >= SECOND {
        messageCount := 0;
        lastReset := now;
      }
      if messageCount >= maxMessagesPerSec { return RateExceeded; }
      if msgSize > maxMessageSize { return TooLarge; }
      messageCount := messageCount + 1;
      return Allowed;
    }
  }

  // ----- traces -----

  datatype Call = Call(now: int, size: int)

  // The clock has passed the start of the window and never runs backwards.
  ghost predicate Timed(from: int, calls: seq<Call>) {
    && (forall i :: 0 <= i < |calls| ==> from <= calls[i].now)
    && (forall i, j :: 0 <= i < j < |calls| ==> calls[i].now <= calls[j].now)
  }

  function Final(l: Limiter, calls: seq<Call>): Limiter
    decreases calls
  {
    if calls == [] then l else Final(Next(l, calls[0].now, calls[0].size), calls[1..])
  }

  // Messages accepted at times in [from, to).
  function AcceptedIn(l: Limiter, calls: seq<Call>, from: int, to: int): nat
    decreases calls
  {
    if calls == [] then 0
    else
      var c := calls[0];
      (if Judge(l, c.now, c.size) == Allowed && from <= c.now < to then 1 else 0)
      + AcceptedIn(Next(l, c.now, c.size), calls[1..], from, to)
  }

  lemma TimedTail(from: int, calls: seq<Call>)
    requires Timed(from, calls) && calls != []
    ensures Timed(calls[0].now, calls[1..]) && Timed(from, calls[1..])
  {
    forall i | 0 <= i < |calls[1..]| ensures calls[0].now <= calls[1..][i].now {
      assert calls[0].now <= calls[i + 1].now;
    }
  }

  // The counter is the number of messages accepted since the window started: those of the
  // window before, if it never restarted, and otherwise only those at or after its start.
  lemma {:induction false} CountSinceReset(l: Limiter, calls: seq<Call>, to: int)
    requires Timed(l.lastReset, calls) && forall i :: 0 <= i < |calls| ==> calls[i].now < to
    ensures var f := Final(l, calls);
            && (f.lastReset == l.lastReset || f.lastReset >= l.lastReset + SECOND)
            && f.count == AcceptedIn(l, calls, f.lastReset, to) + if f.lastReset == l.lastReset then l.count else 0
    decreases calls
  {
    if calls != [] {
      TimedTail(l.lastReset, calls);
      CountSinceReset(Next(l, calls[0].now, calls[0].size), calls[1..], to);
    }
  }

  function Quota(l: Limiter): nat {
    if l.maxPerSec > 0 then l.maxPerSec else 0
  }

  // How many more windows can start before time to.
  function Windows(lastReset: int, to: int): nat {
    if to <= lastReset + SECOND then 0 else (to - lastReset - 1) / SECOND
  }

  lemma WindowUsed(lastReset: int, now: int, to: int)
    requires lastReset + SECOND <= now < to
    ensures Windows(lastReset, to) >= 1 + Windows(now, to)
  {}

  lemma Times(m: nat, v: nat, w: nat)
    requires v <= w
    ensures m * v <= m * w
  {}

  // What is left of this window, and a full quota for every window that can still start.
  lemma {:induction false} FutureBound(l: Limiter, calls: seq<Call>, from: int, to: int)
    requires 0 <= l.count <= Quota(l) && Timed(l.lastReset, calls)
    ensures AcceptedIn(l, calls, from, to) <= Quota(l) - l.count + Quota(l) * Windows(l.lastReset, to)
    decreases calls
  {
    var m := Quota(l);
    assert m * Windows(l.lastReset, to) >= 0;
    if calls != [] {
      var c := calls[0];
      var next := Next(l, c.now, c.size);
      TimedTail(l.lastReset, calls);
      FutureBound(next, calls[1..], from, to);
      if next.lastReset != l.lastReset {
        if c.now < to {
          WindowUsed(l.lastReset, c.now, to);
          Times(m, 1 + Windows(c.now, to), Windows(l.lastReset, to));
          assert m * (1 + Windows(c.now, to)) == m + m * Windows(c.now, to);
        } else {
          NoneAfter(next, calls[1..], from, to);
        }
      }
    }
  }

  lemma {:induction false} NoneAfter(l: Limiter, calls: seq<Call>, from: int, to: int)
    requires Timed(to, calls)
    ensures AcceptedIn(l, calls, from, to) == 0
    decreases calls
  {
    if calls != [] {
      TimedTail(to, calls);
      NoneAfter(Next(l, calls[0].now, calls[0].size), calls[1..], from, to);
    }
  }

  // Any half-open interval of k seconds sees at most k + 1 full quotas, wherever it starts
  // and whatever is sent.
  lemma {:induction false} RateBound(l: Limiter, calls: seq<Call>, from: int, k: nat)
    requires 0 <= l.count <= Quota(l) && Timed(l.lastReset, calls)
    ensures AcceptedIn(l, calls, from, from + k * 1_000_000_000) <= (k + 1) * Quota(l)
    decreases calls
  {
    var to := from + k * SECOND;
    var m := Quota(l);
    assert (k + 1) * m == m + m * k;
    if calls != [] {
      var c := calls[0];
      TimedTail(l.lastReset, calls);
      if c.now < from {
        RateBound(Next(l, c.now, c.size), calls[1..], from, k);
      } else if c.now < to {
        FutureBound(Refreshed(l, c.now), calls, from, to);
        RefreshedFirst(l, calls, from, to);
        assert Refreshed(l, c.now).lastReset > from - SECOND;
        assert Windows(Refreshed(l, c.now).lastReset, to) <= k;
        Times(m, Windows(Refreshed(l, c.now).lastReset, to), k);
      } else {
        TimedFrom(to, l.lastReset, calls);
        NoneAfter(l, calls, from, to);
      }
    }
  }

  lemma TimedFrom(from: int, start: int, calls: seq<Call>)
    requires Timed(start, calls) && calls != [] && from <= calls[0].now
    ensures Timed(from, calls)
  {
    forall i | 0 <= i < |calls| ensures from <= calls[i].now {
      assert i == 0 || calls[0].now <= calls[i].now;
    }
  }

  lemma RefreshedFirst(l: Limiter, calls: seq<Call>, from: int, to: int)
    requires calls != []
    ensures AcceptedIn(Refreshed(l, calls[0].now), calls, from, to) == AcceptedIn(l, calls, from, to)
  {}

  // ----- verdicts -----

  // A window lasts a second; the first call after that starts the next one.
  function WindowStart(start: int, calls: seq<Call>): int {
    if calls == [] then start
    else
      var before := WindowStart(start, calls[..|calls| - 1]);
      if calls[|calls| - 1].now - before >= 1_000_000_000 then calls[|calls| - 1].now else before
  }

  lemma TimedSnoc(from: int, calls: seq<Call>, c: Call)
    requires Timed(from, calls + [c])
    ensures Timed(from, calls) && forall i :: 0 <= i < |calls| ==> calls[i].now <= c.now
  {
    var all := calls + [c];
    forall i | 0 <= i < |calls| ensures from <= calls[i].now <= c.now {
      assert all[i] == calls[i] && all[|calls|] == c;
    }
    forall i, j | 0 <= i < j < |calls| ensures calls[i].now <= calls[j].now {
      assert all[i] == calls[i] && all[j] == calls[j];
    }
  }

  lemma {:induction false} StartOfWindow(l: Limiter, calls: seq<Call>)
    ensures Final(l, calls).lastReset == WindowStart(l.lastReset, calls)
    ensures Final(l, calls).maxPerSec == l.maxPerSec && Final(l, calls).maxSize == l.maxSize
    ensures calls != [] ==> calls[|calls| - 1].now < WindowStart(l.lastReset, calls) + SECOND
  {
    if calls != [] {
      var init, c := calls[..|calls| - 1], calls[|calls| - 1];
      StartOfWindow(l, init);
      Concat(l, init, [c], 0, 0);
      assert init + [c] == calls;
      assert Final(Final(l, init), [c]) == Next(Final(l, init), c.now, c.size);
    }
  }

  lemma {:induction false} NoneBefore(l: Limiter, calls: seq<Call>, from: int, to: int)
    requires forall i :: 0 <= i < |calls| ==> calls[i].now < from
    ensures AcceptedIn(l, calls, from, to) == 0
    decreases calls
  {
    if calls != [] { NoneBefore(Next(l, calls[0].now, calls[0].size), calls[1..], from, to); }
  }

  lemma StartOfLast(l: Limiter, calls: seq<Call>, c: Call)
    ensures WindowStart(l.lastReset, calls + [c]) == Refreshed(Final(l, calls), c.now).lastReset
  {
    StartOfWindow(l, calls);
    assert (calls + [c])[..|calls|] == calls;
  }

  lemma AllBefore(l: Limiter, calls: seq<Call>, now: int)
    requires Timed(l.lastReset, calls) && now - Final(l, calls).lastReset >= SECOND
    ensures forall i :: 0 <= i < |calls| ==> calls[i].now < now
  {
    StartOfWindow(l, calls);
    forall i | 0 <= i < |calls| ensures calls[i].now < now {
      assert i == |calls| - 1 || calls[i].now <= calls[|calls| - 1].now;
    }
  }

  // The counter a call finds is the number of messages accepted in its window before it.
  lemma UsedInWindow(l: Limiter, calls: seq<Call>, c: Call)
    requires l.count == 0 && Timed(l.lastReset, calls + [c])
    ensures var start := WindowStart(l.lastReset, calls + [c]);
            Refreshed(Final(l, calls), c.now).count == AcceptedIn(l, calls, start, c.now + 1)
  {
    TimedSnoc(l.lastReset, calls, c);
    StartOfLast(l, calls, c);
    if c.now - Final(l, calls).lastReset >= SECOND {
      AllBefore(l, calls, c.now);
      NoneBefore(l, calls, c.now, c.now + 1);
    } else {
      CountSinceReset(l, calls, c.now + 1);
    }
  }

  // The verdict on every call of every trace: the quota is checked first, then the size,
  // and only accepted messages use up the quota.
  lemma Verdicts(l: Limiter, calls: seq<Call>, c: Call)
    requires l.count == 0 && Timed(l.lastReset, calls + [c])
    ensures var used := AcceptedIn(l, calls, WindowStart(l.lastReset, calls + [c]), c.now + 1);
            var v := Judge(Final(l, calls), c.now, c.size);
            && (v == RateExceeded <==> used >= l.maxPerSec)
            && (v == TooLarge <==> used < l.maxPerSec && c.size > l.maxSize)
            && (v == Allowed <==> used < l.maxPerSec && c.size <= l.maxSize)
  {
    StartOfWindow(l, calls);
    UsedInWindow(l, calls, c);
  }

  // ----- the bound is reached -----

  function Burst(now: int, size: int, n: nat): seq<Call> {
    if n == 0 then [] else Burst(now, size, n - 1) + [Call(now, size)]
  }

  // A full burst at the end of one window and at the start of each of the next k.
  function Bursts(quota: nat, size: int, k: nat): seq<Call> {
    if k == 0 then Burst(SECOND - 1, size, quota)
    else Bursts(quota, size, k - 1) + Burst(k * SECOND, size, quota)
  }

  lemma {:induction false} Concat(l: Limiter, a: seq<Call>, b: seq<Call>, from: int, to: int)
    ensures Final(l, a + b) == Final(Final(l, a), b)
    ensures AcceptedIn(l, a + b, from, to) == AcceptedIn(l, a, from, to) + AcceptedIn(Final(l, a), b, from, to)
    decreases a
  {
    if a == [] {
      assert a + b == b;
    } else {
      assert (a + b)[1..] == a[1..] + b;
      Concat(Next(l, a[0].now, a[0].size), a[1..], b, from, to);
    }
  }

  // A burst of at most the quota, made in a window that is fresh or starts with it, is accepted.
  lemma {:induction false} BurstAccepted(l: Limiter, now: int, n: nat, from: int, to: int)
    requires n <= l.maxPerSec && from <= now < to
    requires now - l.lastReset >= SECOND || l.count == 0
    ensures AcceptedIn(l, Burst(now, l.maxSize, n), from, to) == n
    ensures n > 0 ==> Final(l, Burst(now, l.maxSize, n)) == Refreshed(l, now).(count := n)
  {
    if n > 0 {
      BurstAccepted(l, now, n - 1, from, to);
      var before := Burst(now, l.maxSize, n - 1);
      Concat(l, before, [Call(now, l.maxSize)], from, to);
      var m := Final(l, before);
      assert AcceptedIn(Next(m, now, l.maxSize), [Call(now, l.maxSize)][1..], from, to) == 0;
    }
  }

  lemma {:induction false} BurstTimes(now: int, size: int, n: nat)
    ensures forall i :: 0 <= i < |Burst(now, size, n)| ==> Burst(now, size, n)[i].now == now
  {
    if n > 0 { BurstTimes(now, size, n - 1); }
  }

  lemma {:induction false} BurstsTimed(quota: nat, size: int, k: nat)
    ensures Timed(0, Bursts(quota, size, k))
    ensures forall i :: 0 <= i < |Bursts(quota, size, k)| ==> Bursts(quota, size, k)[i].now < (k + 1) * SECOND
  {
    if k == 0 {
      BurstTimes(SECOND - 1, size, quota);
    } else {
      BurstsTimed(quota, size, k - 1);
      BurstTimes(k * SECOND, size, quota);
    }
  }

  lemma {:induction false} BurstsAccepted(quota: nat, size: int, k: nat, to: int)
    requires quota > 0 && to >= SECOND - 1 + k * SECOND && to >= SECOND
    ensures AcceptedIn(Limiter(quota, size, 0, 0), Bursts(quota, size, k), SECOND - 1, to) == (k + 1) * quota
    ensures Final(Limiter(quota, size, 0, 0), Bursts(quota, size, k)) == Limiter(quota, size, quota, k * SECOND)
  {
    var l := Limiter(quota, size, 0, 0);
    if k == 0 {
      BurstAccepted(l, SECOND - 1, quota, SECOND - 1, to);
    } else {
      BurstsAccepted(quota, size, k - 1, to);
      var before := Bursts(quota, size, k - 1);
      Concat(l, before, Burst(k * SECOND, size, quota), SECOND - 1, to);
      BurstAccepted(Final(l, before), k * SECOND, quota, SECOND - 1, to);
      assert (k + 1) * quota == k * quota + quota;
    }
  }

  // The bound is reached for every quota and every number of seconds.
  lemma BoundIsTight(quota: nat, size: int, k: nat)
    requires k >= 1
    ensures var l, calls, from := Limiter(quota, size, 0, 0), Bursts(quota, size, k), SECOND - 1;
            && Timed(l.lastReset, calls)
            && AcceptedIn(l, calls, from, from + k * 1_000_000_000) == (k + 1) * Quota(l)
  {
    BurstsTimed(quota, size, k);
    if quota > 0 {
      BurstsAccepted(quota, size, k, SECOND - 1 + k * SECOND);
    } else {
      RateBound(Limiter(quota, size, 0, 0), Bursts(quota, size, k), SECOND - 1, k);
      assert (k + 1) * quota == 0;
    }
  }
}
