/** The circuit breaker: its counters and states, against its outcome history. A call is
    admitted and recorded in two separate steps, so calls may overlap; each step acts at
    once here. BreakerSteps takes the steps apart. */
module Breaker {

  datatype State = Closed | HalfOpen | Open

  datatype Config = Config(failureThreshold: int, successThreshold: int, timeout: int, halfOpenMaxCalls: int)

  // Conversion to, and addition on, 32-bit counters.
  function Wrap32(x: int): int {
    (x + 0x8000_0000) % 0x1_0000_0000 - 0x8000_0000
  }

  lemma WrapSpec(x: int)
    ensures -0x8000_0000 <= Wrap32(x) < 0x8000_0000 && (Wrap32(x) - x) % 0x1_0000_0000 == 0
  {}

  const NANOS_PER_MILLI := 1_000_000

  // lastChange holds milliseconds; 0 means no change since the start or a reset.
  datatype Counters = Counters(state: State, failures: int, successes: int, lastChange: int)

  const INITIAL := Counters(Closed, 0, 0, 0)

  // The stored milliseconds are read as nanoseconds.
  predicate ShouldAttemptReset(cfg: Config, b: Counters, now: int) {
    b.lastChange == 0 || now - b.lastChange >= cfg.timeout
  }

  // Admission: an open breaker rejects, and may turn half-open for later calls.
  function Admit(cfg: Config, b: Counters, now: int): (Counters, bool) {
    match b.state
    case Open => (if ShouldAttemptReset(cfg, b, now) then b.(state := HalfOpen) else b, false)
    case HalfOpen => (b, Wrap32(cfg.halfOpenMaxCalls) > 0)
    case Closed => (b, true)
  }

  function Opened(b: Counters, now: int): Counters {
    if b.state == Open then b else b.(state := Open, failures := 0, lastChange := now / NANOS_PER_MILLI)
  }

  function ClosedAt(b: Counters, now: int): Counters {
    if b.state == Closed then b else b.(state := Closed, successes := 0, lastChange := now / NANOS_PER_MILLI)
  }

  function Record(cfg: Config, b: Counters, ok: bool, now: int): Counters {
    if ok then
      var c := b.(successes := Wrap32(b.successes + 1), failures := 0);
      if c.state == HalfOpen && c.successes >= Wrap32(cfg.successThreshold) then ClosedAt(c, now) else c
    else
      var c := b.(failures := Wrap32(b.failures + 1), successes := 0);
      if c.failures >= Wrap32(cfg.failureThreshold) then Opened(c, now) else c
  }

  // ----- the object -----

  datatype Outcome = Rejected | Ran(ok: bool)

  function Executed(cfg: Config, b: Counters, ok: bool, start: int, end: int): (Counters, Outcome) {
    var (c, admitted) := Admit(cfg, b, start);
    if admitted then (Record(cfg, c, ok, end), Ran(ok)) else (c, Rejected)
  }

  class CircuitBreaker {
    const config: Config
    var state: State
    var failureCount: int
    var successCount: int
    var halfOpenCalls: int
    var lastStateChange: int

    constructor (config: Config)
      ensures this.config == config && View() == INITIAL && Valid()
    {
      this.config := config;
      state, failureCount, successCount, halfOpenCalls, lastStateChange := Closed, 0, 0, 0, 0;
    }

    // Calls that run one after the other find no half-open permit taken.
    ghost predicate Valid()
      reads this
    {
      halfOpenCalls == 0
    }

    function View(): Counters
      reads this
    {
      Counters(state, failureCount, successCount, lastStateChange)
    }

    // ok is the outcome fn would have; it is run only when the call is admitted.
    method Execute(ok: bool, start: int, end: int) returns (r: Outcome)
      requires Valid()
      modifies this
      ensures Valid()
      ensures (View(), r) == Executed(config, old(View()), ok, start, end)
      ensures r == Rejected <==>
                old(state) == Open || (old(state) == HalfOpen && Wrap32(config.halfOpenMaxCalls) <= 0)
      ensures r != Rejected ==> r == Ran(ok)
    {
      if state == Open {
        if ShouldAttemptReset(config, View(), start) {
          state := HalfOpen;
        }
        return Rejected;
      }
      var permit := AcquireHalfOpenPermit();
      if !permit { return Rejected; }
      if !ok {
        RecordFailure(end);
      } else {
        RecordSuccess(end);
      }
      return Ran(ok);
    }

    // The permit is handed back before the method returns.
    method AcquireHalfOpenPermit() returns (granted: bool)
      modifies this`halfOpenCalls
      ensures halfOpenCalls == old(halfOpenCalls)
      ensures granted <==> state == HalfOpen ==> halfOpenCalls < Wrap32(config.halfOpenMaxCalls)
    {
      if state != HalfOpen { return true; }
      if halfOpenCalls >= Wrap32(config.halfOpenMaxCalls) { return false; }
      halfOpenCalls := halfOpenCalls + 1;
      halfOpenCalls := halfOpenCalls - 1;
      return true;
    }

    method RecordFailure(now: int)
      modifies this
      ensures View() == Record(config, old(View()), false, now) && halfOpenCalls == old(halfOpenCalls)
    {
      failureCount := Wrap32(failureCount + 1);
      successCount := 0;
      if failureCount >= Wrap32(config.failureThreshold) && state != Open {
        state := Open;
        failureCount := 0;
        lastStateChange := now / NANOS_PER_MILLI;
      }
    }

    method RecordSuccess(now: int)
      modifies this
      ensures View() == Record(config, old(View()), true, now) && halfOpenCalls == old(halfOpenCalls)
    {
      successCount := Wrap32(successCount + 1);
      failureCount := 0;
      if state == HalfOpen && successCount >= Wrap32(config.successThreshold) {
        state := Closed;
        successCount := 0;
        lastStateChange := now / NANOS_PER_MILLI;
      }
    }

    method Reset()
      modifies this
      ensures View() == INITIAL && halfOpenCalls == old(halfOpenCalls)
    {
      state, failureCount, successCount, lastStateChange := Closed, 0, 0, 0;
    }
  }

  // ----- histories -----

  // Calls arrive; functions that were let through finish, in any order.
  datatype Event = Call(now: int) | Done(ok: bool, now: int) | ResetAll

  function Apply(cfg: Config, b: Counters, e: Event): Counters {
    match e
    case Call(now) => Admit(cfg, b, now).0
    case Done(ok, now) => Record(cfg, b, ok, now)
    case ResetAll => INITIAL
  }

  function After(cfg: Config, evs: seq<Event>): Counters {
    if evs == [] then INITIAL else Apply(cfg, After(cfg, evs[..|evs| - 1]), evs[|evs| - 1])
  }

  // The last event turned the breaker to the given state.
  predicate Turned(cfg: Config, evs: seq<Event>, to: State) {
    evs != [] && After(cfg, evs[..|evs| - 1]).state != to && After(cfg, evs).state == to
  }

  // Consecutive failures since the last success, opening or reset.
  function FailureRun(cfg: Config, evs: seq<Event>): nat {
    if evs == [] then 0
    else
      match evs[|evs| - 1]
      case Call(_) => FailureRun(cfg, evs[..|evs| - 1])
      case Done(ok, _) => if ok || Turned(cfg, evs, Open) then 0 else FailureRun(cfg, evs[..|evs| - 1]) + 1
      case ResetAll => 0
  }

  // Consecutive successes since the last failure, closing or reset.
  function SuccessRun(cfg: Config, evs: seq<Event>): nat {
    if evs == [] then 0
    else
      match evs[|evs| - 1]
      case Call(_) => SuccessRun(cfg, evs[..|evs| - 1])
      case Done(ok, _) => if !ok || Turned(cfg, evs, Closed) then 0 else SuccessRun(cfg, evs[..|evs| - 1]) + 1
      case ResetAll => 0
  }

  // Consecutive successes since the breaker turned half-open.
  function HalfOpenRun(cfg: Config, evs: seq<Event>): nat {
    if evs == [] then 0
    else
      match evs[|evs| - 1]
      case Call(_) => if Turned(cfg, evs, HalfOpen) then 0 else HalfOpenRun(cfg, evs[..|evs| - 1])
      case Done(ok, _) => if ok then HalfOpenRun(cfg, evs[..|evs| - 1]) + 1 else 0
      case ResetAll => 0
  }

  lemma WrapNext(x: int)
    ensures Wrap32(Wrap32(x) + 1) == Wrap32(x + 1)
  {}

  // The counters are the trailing runs of the history, up to 32-bit wrap-around, however
  // the calls overlap, each recording acting at once.
  lemma {:induction false} CountersAreRuns(cfg: Config, evs: seq<Event>)
    ensures After(cfg, evs).failures == Wrap32(FailureRun(cfg, evs))
    ensures After(cfg, evs).successes == Wrap32(SuccessRun(cfg, evs))
  {
    if evs != [] {
      var init := evs[..|evs| - 1];
      CountersAreRuns(cfg, init);
      WrapNext(FailureRun(cfg, init));
      WrapNext(SuccessRun(cfg, init));
    }
  }

  // A threshold below one acts like one.
  function Threshold(configured: int): (t: nat)
    ensures 1 <= t < 0x8000_0000
  {
    if Wrap32(configured) < 1 then 1 else Wrap32(configured)
  }

  // No call that was let through before the breaker opened finishes while it is open.
  predicate NoStragglers(cfg: Config, evs: seq<Event>) {
    evs == [] ||
    (NoStragglers(cfg, evs[..|evs| - 1])
     && (evs[|evs| - 1].Done? ==> After(cfg, evs[..|evs| - 1]).state != Open))
  }

  lemma FailureOpens(cfg: Config, b: Counters, run: nat, now: int)
    requires b.state != Open && b.failures == Wrap32(run) && run < Threshold(cfg.failureThreshold)
    ensures Record(cfg, b, false, now).state == Open <==> run + 1 == Threshold(cfg.failureThreshold)
  {
    WrapNext(run);
  }

  lemma SuccessCloses(cfg: Config, b: Counters, run: nat, now: int)
    requires b.state == HalfOpen && b.successes == Wrap32(run) && run < Threshold(cfg.successThreshold)
    ensures Record(cfg, b, true, now).state == Closed <==> run + 1 == Threshold(cfg.successThreshold)
  {
    WrapNext(run);
  }

  lemma {:induction false} RunsBelowThreshold(cfg: Config, evs: seq<Event>)
    requires NoStragglers(cfg, evs)
    ensures FailureRun(cfg, evs) < Threshold(cfg.failureThreshold)
    ensures After(cfg, evs).state == HalfOpen ==>
              SuccessRun(cfg, evs) == HalfOpenRun(cfg, evs) < Threshold(cfg.successThreshold)
    ensures After(cfg, evs).state == Open ==> SuccessRun(cfg, evs) == 0
  {
    if evs != [] {
      var init := evs[..|evs| - 1];
      RunsBelowThreshold(cfg, init);
      CountersAreRuns(cfg, init);
      var b, e := After(cfg, init), evs[|evs| - 1];
      if e.Done? && !e.ok { FailureOpens(cfg, b, FailureRun(cfg, init), e.now); }
      if e.Done? && e.ok && b.state == HalfOpen { SuccessCloses(cfg, b, SuccessRun(cfg, init), e.now); }
    }
  }

  lemma AfterSnoc(cfg: Config, evs: seq<Event>, e: Event)
    ensures After(cfg, evs + [e]) == Apply(cfg, After(cfg, evs), e)
    ensures Turned(cfg, evs + [e], Open)
           <==> After(cfg, evs).state != Open && Apply(cfg, After(cfg, evs), e).state == Open
    ensures Turned(cfg, evs + [e], Closed)
           <==> After(cfg, evs).state != Closed && Apply(cfg, After(cfg, evs), e).state == Closed
    ensures NoStragglers(cfg, evs + [e]) <==>
              NoStragglers(cfg, evs) && (e.Done? ==> After(cfg, evs).state != Open)
  {
    assert (evs + [e])[..|evs|] == evs;
  }

  lemma ApplyOpens(cfg: Config, b: Counters, e: Event)
    ensures b.state != Open && Apply(cfg, b, e).state == Open
       <==> b.state != Open && e.Done? && !e.ok && Wrap32(b.failures + 1) >= Wrap32(cfg.failureThreshold)
  {
  }

  lemma ApplyCloses(cfg: Config, b: Counters, e: Event)
    ensures b.state != Closed && Apply(cfg, b, e).state == Closed && !e.ResetAll?
       <==> b.state == HalfOpen && e.Done? && e.ok && Wrap32(b.successes + 1) >= Wrap32(cfg.successThreshold)
  {
  }

  // Whatever calls overlap, recordings acting at once, it opens on a failure whose counter, wrapped, has
  // reached the threshold. If no call finishes while it is open that is exactly the failure
  // that completes the threshold of consecutive failures since the last success, opening or
  // reset, closed or half-open alike.
  lemma OpensExactly(cfg: Config, evs: seq<Event>, e: Event)
    ensures Turned(cfg, evs + [e], Open)
       <==> After(cfg, evs).state != Open && e.Done? && !e.ok
            && Wrap32(FailureRun(cfg, evs) + 1) >= Wrap32(cfg.failureThreshold)
    ensures NoStragglers(cfg, evs + [e]) ==>
              (Turned(cfg, evs + [e], Open) <==> CompletesFailures(cfg, evs, e))
  {
    AfterSnoc(cfg, evs, e);
    ApplyOpens(cfg, After(cfg, evs), e);
    CountersAreRuns(cfg, evs);
    WrapNext(FailureRun(cfg, evs));
    if NoStragglers(cfg, evs + [e]) {
      RunsBelowThreshold(cfg, evs);
      if e.Done? && !e.ok { FailureOpens(cfg, After(cfg, evs), FailureRun(cfg, evs), e.now); }
    }
  }

  predicate CompletesFailures(cfg: Config, evs: seq<Event>, e: Event) {
    e.Done? && !e.ok && FailureRun(cfg, evs) + 1 == Threshold(cfg.failureThreshold)
  }

  // When opening on exactly that failure breaks: failures that finish while it is open are
  // counted too, so they may complete the threshold where there is nothing to open, or take
  // the run to the threshold before it is half-open again.
  lemma OpensExactlyIff(cfg: Config, evs: seq<Event>, e: Event)
    ensures (Turned(cfg, evs + [e], Open) <==> CompletesFailures(cfg, evs, e))
       <==> (e.Done? && !e.ok ==>
               var run := FailureRun(cfg, evs);
               if After(cfg, evs).state == Open then run + 1 != Threshold(cfg.failureThreshold)
               else run < Threshold(cfg.failureThreshold) || Wrap32(run + 1) < Wrap32(cfg.failureThreshold))
  {
    OpensExactly(cfg, evs, e);
    if e.Done? && !e.ok && After(cfg, evs).state != Open && FailureRun(cfg, evs) < Threshold(cfg.failureThreshold) {
      CountersAreRuns(cfg, evs);
      AfterSnoc(cfg, evs, e);
      FailureOpens(cfg, After(cfg, evs), FailureRun(cfg, evs), e.now);
    }
  }

  // It closes, other than by a reset, on a success in half-open whose counter, wrapped, has
  // reached the threshold. If no call finishes while it is open that is exactly the success
  // that completes the threshold of consecutive successes since it turned half-open.
  lemma ClosesExactly(cfg: Config, evs: seq<Event>, e: Event)
    ensures Turned(cfg, evs + [e], Closed) && !e.ResetAll?
       <==> After(cfg, evs).state == HalfOpen && e.Done? && e.ok
            && Wrap32(SuccessRun(cfg, evs) + 1) >= Wrap32(cfg.successThreshold)
    ensures NoStragglers(cfg, evs + [e]) ==>
              (Turned(cfg, evs + [e], Closed) && !e.ResetAll?
          <==> After(cfg, evs).state == HalfOpen && e.Done? && e.ok
               && HalfOpenRun(cfg, evs) + 1 == Threshold(cfg.successThreshold))
  {
    AfterSnoc(cfg, evs, e);
    ApplyCloses(cfg, After(cfg, evs), e);
    CountersAreRuns(cfg, evs);
    WrapNext(SuccessRun(cfg, evs));
    if NoStragglers(cfg, evs + [e]) { ClosesOnThreshold(cfg, evs, e); }
  }

  lemma ClosesOnThreshold(cfg: Config, evs: seq<Event>, e: Event)
    requires NoStragglers(cfg, evs)
    ensures After(cfg, evs).state == HalfOpen && e.Done? && e.ok ==>
              (Wrap32(SuccessRun(cfg, evs) + 1) >= Wrap32(cfg.successThreshold)
          <==> HalfOpenRun(cfg, evs) + 1 == Threshold(cfg.successThreshold))
  {
    RunsBelowThreshold(cfg, evs);
  }

  // ----- what a half-open breaker carries in -----

  // Calls that finish one after the other with the same outcome.
  function Dones(ok: bool, times: seq<int>): seq<Event> {
    if times == [] then [] else Dones(ok, times[..|times| - 1]) + [Done(ok, times[|times| - 1])]
  }

  function Finished(cfg: Config, b: Counters, ok: bool, times: seq<int>): Counters {
    if times == [] then b else Record(cfg, Finished(cfg, b, ok, times[..|times| - 1]), ok, times[|times| - 1])
  }

  lemma {:induction false} AfterDones(cfg: Config, evs: seq<Event>, ok: bool, times: seq<int>)
    ensures After(cfg, evs + Dones(ok, times)) == Finished(cfg, After(cfg, evs), ok, times)
  {
    if times == [] {
      assert evs + Dones(ok, times) == evs;
    } else {
      var init, e := times[..|times| - 1], Done(ok, times[|times| - 1]);
      AfterDones(cfg, evs, ok, init);
      assert evs + Dones(ok, times) == evs + Dones(ok, init) + [e];
      AfterSnoc(cfg, evs + Dones(ok, init), e);
    }
  }

  const MAX32 := 0x7FFF_FFFF

  // Counting up from a carried value stays below a threshold t for fewer than t steps.
  predicate Harmless(carried: int, t: nat) {
    carried <= 0 || carried == MAX32 || t == 1
  }

  lemma HarmlessCounts(carried: int, t: nat, k: nat)
    requires -0x8000_0000 <= carried <= MAX32 && 1 <= k < t <= MAX32 && Harmless(carried, t)
    ensures Wrap32(carried + k) < t
  {
  }

  lemma {:induction false} HarmlessSuccesses(cfg: Config, b: Counters, times: seq<int>)
    requires b.state == HalfOpen && b.successes == Wrap32(b.successes)
    requires |times| < Threshold(cfg.successThreshold) && Harmless(b.successes, Threshold(cfg.successThreshold))
    ensures Finished(cfg, b, true, times).state == HalfOpen
    ensures Finished(cfg, b, true, times).successes == Wrap32(b.successes + |times|)
  {
    if times != [] {
      HarmlessSuccesses(cfg, b, times[..|times| - 1]);
      WrapNext(b.successes + |times| - 1);
      HarmlessCounts(b.successes, Threshold(cfg.successThreshold), |times|);
    }
  }

  lemma {:induction false} HarmlessFailures(cfg: Config, b: Counters, times: seq<int>)
    requires b.state == HalfOpen && b.failures == Wrap32(b.failures)
    requires |times| < Threshold(cfg.failureThreshold) && Harmless(b.failures, Threshold(cfg.failureThreshold))
    ensures Finished(cfg, b, false, times).state == HalfOpen
    ensures Finished(cfg, b, false, times).failures == Wrap32(b.failures + |times|)
  {
    if times != [] {
      HarmlessFailures(cfg, b, times[..|times| - 1]);
      WrapNext(b.failures + |times| - 1);
      HarmlessCounts(b.failures, Threshold(cfg.failureThreshold), |times|);
    }
  }

  lemma {:induction false} CarriedSuccesses(cfg: Config, b: Counters, times: seq<int>)
    requires b.state == HalfOpen && 0 <= b.successes
    requires times == [] || b.successes + |times| < Threshold(cfg.successThreshold)
    ensures Finished(cfg, b, true, times).state == HalfOpen
    ensures Finished(cfg, b, true, times).successes == b.successes + |times|
  {
    if times != [] { CarriedSuccesses(cfg, b, times[..|times| - 1]); }
  }

  lemma CarriedSuccessesClose(cfg: Config, b: Counters) returns (times: seq<int>)
    requires b.state == HalfOpen && b.successes == Wrap32(b.successes)
    requires !Harmless(b.successes, Threshold(cfg.successThreshold))
    ensures |times| < Threshold(cfg.successThreshold) && Finished(cfg, b, true, times).state == Closed
  {
    var t := Threshold(cfg.successThreshold);
    var init: seq<int> := seq(if b.successes + 1 >= t then 0 else t - b.successes - 1, _ => 0);
    CarriedSuccesses(cfg, b, init);
    times := init + [0];
    assert times[..|times| - 1] == init;
  }

  lemma {:induction false} CarriedFailures(cfg: Config, b: Counters, times: seq<int>)
    requires b.state == HalfOpen && 0 <= b.failures
    requires times == [] || b.failures + |times| < Threshold(cfg.failureThreshold)
    ensures Finished(cfg, b, false, times).state == HalfOpen
    ensures Finished(cfg, b, false, times).failures == b.failures + |times|
  {
    if times != [] { CarriedFailures(cfg, b, times[..|times| - 1]); }
  }

  lemma CarriedFailuresOpen(cfg: Config, b: Counters) returns (times: seq<int>)
    requires b.state == HalfOpen && b.failures == Wrap32(b.failures)
    requires !Harmless(b.failures, Threshold(cfg.failureThreshold))
    ensures |times| < Threshold(cfg.failureThreshold) && Finished(cfg, b, false, times).state == Open
  {
    var t := Threshold(cfg.failureThreshold);
    var init: seq<int> := seq(if b.failures + 1 >= t then 0 else t - b.failures - 1, _ => 0);
    CarriedFailures(cfg, b, init);
    times := init + [0];
    assert times[..|times| - 1] == init;
  }

  function StateAfter(cfg: Config, evs: seq<Event>, ok: bool, times: seq<int>): State {
    After(cfg, evs + Dones(ok, times)).state
  }

  // Fewer than t calls of this outcome, one after the other, leave it half-open.
  ghost predicate StaysHalfOpen(cfg: Config, evs: seq<Event>, ok: bool, t: nat) {
    forall times: seq<int> :: |times| < t ==> StateAfter(cfg, evs, ok, times) == HalfOpen
  }

  lemma CountersAreWrapped(cfg: Config, evs: seq<Event>)
    ensures After(cfg, evs).failures == Wrap32(After(cfg, evs).failures)
    ensures After(cfg, evs).successes == Wrap32(After(cfg, evs).successes)
  {
    CountersAreRuns(cfg, evs);
  }

  // A breaker that is half-open needs its full threshold of successes to close exactly when
  // it carries no successes in (or its counter is about to wrap, or one is enough anyway):
  // those that finished while it was open count.
  lemma NeedsThresholdToCloseIff(cfg: Config, evs: seq<Event>)
    requires After(cfg, evs).state == HalfOpen
    ensures StaysHalfOpen(cfg, evs, true, Threshold(cfg.successThreshold))
       <==> Harmless(After(cfg, evs).successes, Threshold(cfg.successThreshold))
  {
    CountersAreWrapped(cfg, evs);
    if Harmless(After(cfg, evs).successes, Threshold(cfg.successThreshold)) {
      forall times: seq<int> | |times| < Threshold(cfg.successThreshold)
        ensures StateAfter(cfg, evs, true, times) == HalfOpen
      {
        HarmlessSuccesses(cfg, After(cfg, evs), times);
        AfterDones(cfg, evs, true, times);
      }
    } else {
      var times := CarriedSuccessesClose(cfg, After(cfg, evs));
      AfterDones(cfg, evs, true, times);
      assert StateAfter(cfg, evs, true, times) != HalfOpen;
    }
  }

  // The same for opening again: failures that finished while it was open count.
  lemma NeedsThresholdToOpenIff(cfg: Config, evs: seq<Event>)
    requires After(cfg, evs).state == HalfOpen
    ensures StaysHalfOpen(cfg, evs, false, Threshold(cfg.failureThreshold))
       <==> Harmless(After(cfg, evs).failures, Threshold(cfg.failureThreshold))
  {
    CountersAreWrapped(cfg, evs);
    if Harmless(After(cfg, evs).failures, Threshold(cfg.failureThreshold)) {
      forall times: seq<int> | |times| < Threshold(cfg.failureThreshold)
        ensures StateAfter(cfg, evs, false, times) == HalfOpen
      {
        HarmlessFailures(cfg, After(cfg, evs), times);
        AfterDones(cfg, evs, false, times);
      }
    } else {
      var times := CarriedFailuresOpen(cfg, After(cfg, evs));
      AfterDones(cfg, evs, false, times);
      assert StateAfter(cfg, evs, false, times) != HalfOpen;
    }
  }

  // Between opening and turning half-open no function is let through, the call that turns
  // it included; only a call or a reset ends the open state.
  lemma OpenLetsNothingThrough(cfg: Config, evs: seq<Event>, e: Event)
    requires After(cfg, evs).state == Open
    ensures e.Call? ==> !Admit(cfg, After(cfg, evs), e.now).1
    ensures Turned(cfg, evs + [e], HalfOpen) ==> e.Call?
    ensures Turned(cfg, evs + [e], Closed) ==> e.ResetAll?
  {
    assert (evs + [e])[..|evs|] == evs;
  }

  // ----- one call after the other -----

  datatype Op = Run(ok: bool, start: int, end: int) | DoReset

  function Sequential(cfg: Config, ops: seq<Op>): seq<Event> {
    if ops == [] then []
    else
      var evs := Sequential(cfg, ops[..|ops| - 1]);
      match ops[|ops| - 1]
      case Run(ok, start, end) =>
        evs + [Call(start)] + if Admit(cfg, After(cfg, evs), start).1 then [Done(ok, end)] else []
      case DoReset => evs + [ResetAll]
  }

  function Operated(cfg: Config, ops: seq<Op>): Counters {
    if ops == [] then INITIAL
    else
      match ops[|ops| - 1]
      case Run(ok, start, end) => Executed(cfg, Operated(cfg, ops[..|ops| - 1]), ok, start, end).0
      case DoReset => INITIAL
  }

  // Any sequence of Execute and Reset calls is such a history, without stragglers; so the
  // exact opening and closing points above hold for it.
  lemma {:induction false} SequentialHistory(cfg: Config, ops: seq<Op>)
    ensures After(cfg, Sequential(cfg, ops)) == Operated(cfg, ops)
    ensures NoStragglers(cfg, Sequential(cfg, ops))
  {
    if ops != [] {
      SequentialHistory(cfg, ops[..|ops| - 1]);
      var evs := Sequential(cfg, ops[..|ops| - 1]);
      match ops[|ops| - 1]
      case Run(ok, start, end) =>
        AfterSnoc(cfg, evs, Call(start));
        AfterSnoc(cfg, evs + [Call(start)], Done(ok, end));
        assert evs + [Call(start)] + [] == evs + [Call(start)];
      case DoReset => AfterSnoc(cfg, evs, ResetAll);
    }
  }

  // What such a call answers: it is rejected exactly by an open breaker, or by a half-open
  // one without permits. Otherwise the function's own outcome is answered and recorded, so
  // the history goes on with it; after a rejection it goes on without.
  lemma AnswerIsHistory(cfg: Config, ops: seq<Op>, ok: bool, start: int, end: int)
    ensures var before, all := Sequential(cfg, ops), Sequential(cfg, ops + [Run(ok, start, end)]);
            var r := Executed(cfg, Operated(cfg, ops), ok, start, end).1;
            && (r == Rejected <==> || After(cfg, before).state == Open
                                   || (After(cfg, before).state == HalfOpen && Wrap32(cfg.halfOpenMaxCalls) <= 0))
            && (r == Rejected ==> all == before + [Call(start)])
            && (r != Rejected ==> r == Ran(ok) && all == before + [Call(start), Done(ok, end)])
  {
    SequentialHistory(cfg, ops);
    assert (ops + [Run(ok, start, end)])[..|ops|] == ops;
    var before := Sequential(cfg, ops);
    assert before + [Call(start)] + [Done(ok, end)] == before + [Call(start), Done(ok, end)];
    assert before + [Call(start)] + [] == before + [Call(start)];
  }

  // In such a history every function that runs follows its own call directly, made while
  // the breaker is not open: none runs between opening and half-open, and none is run by
  // the call that turns it half-open.
  lemma {:induction false} RunsOnlyUnlessOpen(cfg: Config, ops: seq<Op>, k: nat)
    requires k < |Sequential(cfg, ops)| && Sequential(cfg, ops)[k].Done?
    ensures k > 0 && Sequential(cfg, ops)[k - 1].Call?
    ensures After(cfg, Sequential(cfg, ops)[..k - 1]).state != Open
  {
    var evs, all := Sequential(cfg, ops[..|ops| - 1]), Sequential(cfg, ops);
    assert all[..|evs|] == evs;
    if k < |evs| {
      RunsOnlyUnlessOpen(cfg, ops[..|ops| - 1], k);
      assert all[..k - 1] == evs[..k - 1];
    } else {
      assert k == |evs| + 1;
    }
  }

  // With overlapping calls a success that arrives while the breaker is open counts towards
  // closing: here it closes after one success since it turned half-open, not two.
  lemma StragglerClosesEarly()
    ensures var cfg := Config(1, 2, 0, 3);
            var evs := [Call(5), Call(5), Done(false, 5), Done(true, 5), Call(5), Call(5)];
            && !NoStragglers(cfg, evs)
            && HalfOpenRun(cfg, evs) == 0 && After(cfg, evs).state == HalfOpen
            && Turned(cfg, evs + [Done(true, 5)], Closed)
  {
    var cfg := Config(1, 2, 0, 3);
    var e3 := OpenedBy(cfg, 2, 1);
    var e4 := e3 + [Done(true, 5)];
    var e5 := e4 + [Call(5)];
    var e6 := e5 + [Call(5)];
    AfterSnoc(cfg, e3, Done(true, 5));
    AfterSnoc(cfg, e4, Call(5));
    AfterSnoc(cfg, e5, Call(5));
    AfterSnoc(cfg, e6, Done(true, 5));
    assert e5[..4] == e4 && e6[..5] == e5;
    assert HalfOpenRun(cfg, e5) == 0;
    assert e6 == [Call(5), Call(5), Done(false, 5), Done(true, 5), Call(5), Call(5)];
  }

  // And a failure that arrives while it is open counts towards opening again: here it opens
  // after one failure since it turned half-open, not two.
  lemma StragglerReopensEarly()
    ensures var cfg := Config(2, 1, 0, 3);
            var evs := [Call(5), Call(5), Call(5), Done(false, 5), Done(false, 5), Done(false, 5), Call(5), Call(5)];
            && !NoStragglers(cfg, evs)
            && After(cfg, evs) == Counters(HalfOpen, 1, 0, 0)
            && Turned(cfg, evs + [Done(false, 5)], Open)
  {
    var cfg := Config(2, 1, 0, 3);
    var e5 := OpenedBy(cfg, 3, 2);
    var e6 := e5 + [Done(false, 5)];
    var e7 := e6 + [Call(5)];
    var e8 := e7 + [Call(5)];
    AfterSnoc(cfg, e5, Done(false, 5));
    AfterSnoc(cfg, e6, Call(5));
    AfterSnoc(cfg, e7, Call(5));
    AfterSnoc(cfg, e8, Done(false, 5));
    assert e8 == [Call(5), Call(5), Call(5), Done(false, 5), Done(false, 5), Done(false, 5), Call(5), Call(5)];
  }

  // Two or three calls of which the first one or two fail, just enough to open it.
  lemma OpenedBy(cfg: Config, calls: nat, failures: nat) returns (evs: seq<Event>)
    requires 2 <= calls <= 3 && failures == calls - 1 && cfg.failureThreshold == failures
    ensures evs == (if calls == 2 then [Call(5), Call(5), Done(false, 5)]
                    else [Call(5), Call(5), Call(5), Done(false, 5), Done(false, 5)])
    ensures After(cfg, evs) == Counters(Open, 0, 0, 0)
  {
    AfterSnoc(cfg, [], Call(5));
    AfterSnoc(cfg, [] + [Call(5)], Call(5));
    evs := [] + [Call(5)] + [Call(5)];
    if calls == 3 {
      AfterSnoc(cfg, evs, Call(5));
      evs := evs + [Call(5)];
    }
    assert After(cfg, evs) == INITIAL;
    AfterSnoc(cfg, evs, Done(false, 5));
    evs := evs + [Done(false, 5)];
    if calls == 3 {
      AfterSnoc(cfg, evs, Done(false, 5));
      evs := evs + [Done(false, 5)];
    }
  }

  // ----- the timeout -----

  // When it last opened, since the start or a reset.
  function OpenedWhen(cfg: Config, evs: seq<Event>): int {
    if evs == [] then 0
    else
      match evs[|evs| - 1]
      case Call(_) => OpenedWhen(cfg, evs[..|evs| - 1])
      case Done(_, now) => if Turned(cfg, evs, Open) then now else OpenedWhen(cfg, evs[..|evs| - 1])
      case ResetAll => 0
  }

  lemma {:induction false} ChangeIsOpening(cfg: Config, evs: seq<Event>)
    requires After(cfg, evs).state == Open
    ensures After(cfg, evs).lastChange == OpenedWhen(cfg, evs) / 1_000_000
  {
    if !Turned(cfg, evs, Open) { ChangeIsOpening(cfg, evs[..|evs| - 1]); }
  }

  // In any history it turns half-open exactly by a call to an open breaker made when the
  // clock is past the timeout, counted from a millionth of its reading at the opening (or
  // whenever that is zero).
  lemma TurnsHalfOpenIff(cfg: Config, evs: seq<Event>, e: Event)
    ensures Turned(cfg, evs + [e], HalfOpen)
       <==> && After(cfg, evs).state == Open && e.Call?
            && (OpenedWhen(cfg, evs) / 1_000_000 == 0 || e.now - OpenedWhen(cfg, evs) / 1_000_000 >= cfg.timeout)
  {
    assert (evs + [e])[..|evs|] == evs;
    if After(cfg, evs).state == Open { ChangeIsOpening(cfg, evs); }
  }

  // An open breaker attempts a reset once the clock exceeds a millionth of its reading at
  // the opening by the timeout: the stored milliseconds are compared as nanoseconds. With
  // a clock past twice the timeout that is at once.
  lemma TimeoutComparesUnits(cfg: Config, b: Counters, openedAt: int, asked: int)
    requires b.state != Open && NANOS_PER_MILLI <= openedAt <= asked
    ensures ShouldAttemptReset(cfg, Opened(b, openedAt), asked) <==> asked - openedAt / NANOS_PER_MILLI >= cfg.timeout
    ensures asked >= 2 * cfg.timeout ==> ShouldAttemptReset(cfg, Opened(b, openedAt), asked)
  {}

  // So the breaker stays open for its timeout, whenever it is asked, exactly when the
  // timeout is not positive.
  lemma TimeoutKeptIff(cfg: Config, b: Counters, openedAt: int)
    requires b.state != Open && NANOS_PER_MILLI <= openedAt
    ensures (forall asked :: asked >= openedAt && ShouldAttemptReset(cfg, Opened(b, openedAt), asked) ==>
               asked - openedAt >= cfg.timeout)
       <==> cfg.timeout <= 0
  {
    if cfg.timeout > 0 {
      var early := cfg.timeout + openedAt / NANOS_PER_MILLI;
      var asked := if early >= openedAt then early else openedAt;
      assert ShouldAttemptReset(cfg, Opened(b, openedAt), asked);
    }
  }
}
