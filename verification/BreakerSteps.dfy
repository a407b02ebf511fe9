/** The circuit breaker one atomic operation at a time: nothing locks it, so overlapping calls
    interleave. What every interleaving keeps, and when it can be told from the breaker whose
    calls and recordings are single steps. */
module BreakerSteps {
  import opened Basics
  import opened Breaker

  datatype Shared = Shared(b: Counters, permits: int)

  // The next atomic operation of a goroutine.
  datatype Pc =
    // recordFailure, and open()
    | AddFailure(now: int) | ZeroSuccesses(now: int) | CheckFailures(now: int)
    | CheckNotOpen(now: int) | StoreOpen(now: int) | ZeroOpened(now: int) | StampOpened(now: int)
    // recordSuccess, and close()
    | AddSuccess(now: int) | ZeroFailures(now: int) | CheckHalfOpen(now: int) | CheckSuccesses(now: int)
    | CheckNotClosed(now: int) | StoreClosed(now: int) | ZeroClosed(now: int) | StampClosed(now: int)
    // admission; the compare-and-swap loop that takes a permit acts at once
    | LoadState(now: int) | LoadLastChange(now: int) | SwapHalfOpen
    | LoadForPermit | TakePermit | ReturnPermit
    // Reset
    | ResetState | ResetFailures | ResetSuccesses | ResetStamp
    | Finished(admitted: bool)

  function Entry(e: Event): Pc {
    match e
    case Call(now) => LoadState(now)
    case Done(ok, now) => if ok then AddSuccess(now) else AddFailure(now)
    case ResetAll => ResetState
  }

  function Step(cfg: Config, sh: Shared, pc: Pc): (Shared, Pc)
    requires !pc.Finished?
  {
    var b := sh.b;
    match pc
    case AddFailure(now) => (sh.(b := b.(failures := Wrap32(b.failures + 1))), ZeroSuccesses(now))
    case ZeroSuccesses(now) => (sh.(b := b.(successes := 0)), CheckFailures(now))
    case CheckFailures(now) =>
      (sh, if b.failures >= Wrap32(cfg.failureThreshold) then CheckNotOpen(now) else Finished(false))
    case CheckNotOpen(now) => (sh, if b.state == Open then Finished(false) else StoreOpen(now))
    case StoreOpen(now) => (sh.(b := b.(state := Open)), ZeroOpened(now))
    case ZeroOpened(now) => (sh.(b := b.(failures := 0)), StampOpened(now))
    case StampOpened(now) => (sh.(b := b.(lastChange := now / NANOS_PER_MILLI)), Finished(false))
    case AddSuccess(now) => (sh.(b := b.(successes := Wrap32(b.successes + 1))), ZeroFailures(now))
    case ZeroFailures(now) => (sh.(b := b.(failures := 0)), CheckHalfOpen(now))
    case CheckHalfOpen(now) => (sh, if b.state == HalfOpen then CheckSuccesses(now) else Finished(false))
    case CheckSuccesses(now) =>
      (sh, if b.successes >= Wrap32(cfg.successThreshold) then CheckNotClosed(now) else Finished(false))
    case CheckNotClosed(now) => (sh, if b.state == Closed then Finished(false) else StoreClosed(now))
    case StoreClosed(now) => (sh.(b := b.(state := Closed)), ZeroClosed(now))
    case ZeroClosed(now) => (sh.(b := b.(successes := 0)), StampClosed(now))
    case StampClosed(now) => (sh.(b := b.(lastChange := now / NANOS_PER_MILLI)), Finished(false))
    case LoadState(now) => (sh, if b.state == Open then LoadLastChange(now) else LoadForPermit)
    case LoadLastChange(now) => (sh, if ShouldAttemptReset(cfg, b, now) then SwapHalfOpen else Finished(false))
    case SwapHalfOpen => (if b.state == Open then sh.(b := b.(state := HalfOpen)) else sh, Finished(false))
    case LoadForPermit => (sh, if b.state == HalfOpen then TakePermit else Finished(true))
    case TakePermit =>
      if sh.permits >= Wrap32(cfg.halfOpenMaxCalls) then (sh, Finished(false))
      else (sh.(permits := sh.permits + 1), ReturnPermit)
    case ReturnPermit => (sh.(permits := sh.permits - 1), Finished(true))
    case ResetState => (sh.(b := b.(state := Closed)), ResetFailures)
    case ResetFailures => (sh.(b := b.(failures := 0)), ResetSuccesses)
    case ResetSuccesses => (sh.(b := b.(successes := 0)), ResetStamp)
    case ResetStamp => (sh.(b := b.(lastChange := 0)), Finished(false))
  }

  function Left(pc: Pc): nat {
    match pc
    case AddFailure(_) => 7
    case ZeroSuccesses(_) => 6
    case CheckFailures(_) => 5
    case CheckNotOpen(_) => 4
    case StoreOpen(_) => 3
    case ZeroOpened(_) => 2
    case StampOpened(_) => 1
    case AddSuccess(_) => 8
    case ZeroFailures(_) => 7
    case CheckHalfOpen(_) => 6
    case CheckSuccesses(_) => 5
    case CheckNotClosed(_) => 4
    case StoreClosed(_) => 3
    case ZeroClosed(_) => 2
    case StampClosed(_) => 1
    case LoadState(_) => 5
    case LoadLastChange(_) => 4
    case SwapHalfOpen => 3
    case LoadForPermit => 3
    case TakePermit => 2
    case ReturnPermit => 1
    case ResetState => 4
    case ResetFailures => 3
    case ResetSuccesses => 2
    case ResetStamp => 1
    case Finished(_) => 0
  }

  // A goroutine that runs alone to its end.
  function Alone(cfg: Config, sh: Shared, pc: Pc): (Shared, Pc)
    decreases Left(pc)
  {
    if pc.Finished? then (sh, pc)
    else
      var (next, at) := Step(cfg, sh, pc);
      Alone(cfg, next, at)
  }

  // ----- alone, a call or a recording is a single step -----

  lemma AloneStep(cfg: Config, sh: Shared, pc: Pc)
    requires !pc.Finished?
    ensures Alone(cfg, sh, pc) == Alone(cfg, Step(cfg, sh, pc).0, Step(cfg, sh, pc).1)
  {
  }

  lemma OpensAlone(cfg: Config, sh: Shared, now: int)
    ensures Alone(cfg, sh, CheckNotOpen(now)) == (sh.(b := Opened(sh.b, now)), Finished(false))
  {
    AloneStep(cfg, sh, CheckNotOpen(now));
    if sh.b.state != Open {
      var sh1 := sh.(b := sh.b.(state := Open));
      var sh2 := sh1.(b := sh1.b.(failures := 0));
      AloneStep(cfg, sh, StoreOpen(now));
      AloneStep(cfg, sh1, ZeroOpened(now));
      AloneStep(cfg, sh2, StampOpened(now));
    }
  }

  lemma FailureAlone(cfg: Config, sh: Shared, now: int)
    ensures Alone(cfg, sh, AddFailure(now)) == (sh.(b := Record(cfg, sh.b, false, now)), Finished(false))
  {
    var sh1 := sh.(b := sh.b.(failures := Wrap32(sh.b.failures + 1)));
    var sh2 := sh1.(b := sh1.b.(successes := 0));
    AloneStep(cfg, sh, AddFailure(now));
    AloneStep(cfg, sh1, ZeroSuccesses(now));
    AloneStep(cfg, sh2, CheckFailures(now));
    OpensAlone(cfg, sh2, now);
  }

  lemma ClosesAlone(cfg: Config, sh: Shared, now: int)
    ensures Alone(cfg, sh, CheckNotClosed(now)) == (sh.(b := ClosedAt(sh.b, now)), Finished(false))
  {
    AloneStep(cfg, sh, CheckNotClosed(now));
    if sh.b.state != Closed {
      var sh1 := sh.(b := sh.b.(state := Closed));
      var sh2 := sh1.(b := sh1.b.(successes := 0));
      AloneStep(cfg, sh, StoreClosed(now));
      AloneStep(cfg, sh1, ZeroClosed(now));
      AloneStep(cfg, sh2, StampClosed(now));
    }
  }

  lemma ChecksAlone(cfg: Config, sh: Shared, now: int)
    ensures Alone(cfg, sh, CheckHalfOpen(now))
         == (if sh.b.state == HalfOpen && sh.b.successes >= Wrap32(cfg.successThreshold)
             then sh.(b := ClosedAt(sh.b, now)) else sh, Finished(false))
  {
    AloneStep(cfg, sh, CheckHalfOpen(now));
    if sh.b.state == HalfOpen { AloneStep(cfg, sh, CheckSuccesses(now)); }
    ClosesAlone(cfg, sh, now);
  }

  lemma SuccessAlone(cfg: Config, sh: Shared, now: int)
    ensures Alone(cfg, sh, AddSuccess(now)) == (sh.(b := Record(cfg, sh.b, true, now)), Finished(false))
  {
    var sh1 := sh.(b := sh.b.(successes := Wrap32(sh.b.successes + 1)));
    AloneStep(cfg, sh, AddSuccess(now));
    AloneStep(cfg, sh1, ZeroFailures(now));
    ChecksAlone(cfg, sh1.(b := sh1.b.(failures := 0)), now);
  }

  lemma ResetAlone(cfg: Config, sh: Shared)
    ensures Alone(cfg, sh, ResetState) == (sh.(b := INITIAL), Finished(false))
  {
    var sh2 := sh.(b := sh.b.(state := Closed, failures := 0));
    assert Alone(cfg, sh, ResetState) == Alone(cfg, sh2, ResetSuccesses);
  }

  lemma CallAlone(cfg: Config, sh: Shared, now: int)
    requires sh.permits == 0
    ensures Alone(cfg, sh, LoadState(now)) == (sh.(b := Admit(cfg, sh.b, now).0), Finished(Admit(cfg, sh.b, now).1))
  {
    if sh.b.state == Open {
      assert Alone(cfg, sh, LoadState(now)) == Alone(cfg, sh, LoadLastChange(now));
    } else {
      assert Alone(cfg, sh, LoadState(now)) == Alone(cfg, sh, LoadForPermit);
      if sh.b.state == HalfOpen && 0 < Wrap32(cfg.halfOpenMaxCalls) {
        assert Alone(cfg, sh, LoadForPermit) == Alone(cfg, sh.(permits := 1), ReturnPermit);
        assert sh.(permits := 1).(permits := 0) == sh;
      }
    }
  }

  // Run alone, every operation does what the single step does, and a call is let through
  // exactly when the single step admits it.
  lemma AloneIsAtomic(cfg: Config, sh: Shared, e: Event)
    requires sh.permits == 0
    ensures Alone(cfg, sh, Entry(e)).0 == sh.(b := Apply(cfg, sh.b, e))
    ensures Alone(cfg, sh, Entry(e)).1 == Finished(e.Call? && Admit(cfg, sh.b, e.now).1)
  {
    match e
    case Call(now) => CallAlone(cfg, sh, now);
    case Done(ok, now) => if ok { SuccessAlone(cfg, sh, now); } else { FailureAlone(cfg, sh, now); }
    case ResetAll => ResetAlone(cfg, sh);
  }

  // ----- schedules -----

  datatype Move = Start(id: nat, e: Event) | Advance(id: nat)

  datatype System = System(sh: Shared, threads: map<nat, Pc>)

  const QUIET := System(Shared(INITIAL, 0), map[])

  predicate Running(s: System, id: nat) {
    id in s.threads && !s.threads[id].Finished?
  }

  function Active(s: System): set<nat> {
    set id | id in s.threads && Running(s, id)
  }

  predicate Enabled(s: System, m: Move) {
    match m
    case Start(id, _) => id !in s.threads
    case Advance(id) => Running(s, id)
  }

  function Do(cfg: Config, s: System, m: Move): System
    requires Enabled(s, m)
  {
    match m
    case Start(id, e) => s.(threads := s.threads[id := Entry(e)])
    case Advance(id) =>
      var (sh, pc) := Step(cfg, s.sh, s.threads[id]);
      System(sh, s.threads[id := pc])
  }

  function Run(cfg: Config, moves: seq<Move>): Option<System> {
    if moves == [] then Some(QUIET)
    else
      match Run(cfg, moves[..|moves| - 1])
      case None => None
      case Some(s) => if Enabled(s, moves[|moves| - 1]) then Some(Do(cfg, s, moves[|moves| - 1])) else None
  }

  // The calls, recordings and resets in the order in which they start.
  function EventsOf(moves: seq<Move>): seq<Event> {
    if moves == [] then []
    else
      var before := EventsOf(moves[..|moves| - 1]);
      match moves[|moves| - 1] case Start(_, e) => before + [e] case _ => before
  }

  // At no time are more than n of them in progress.
  ghost predicate AtMost(cfg: Config, moves: seq<Move>, n: nat) {
    Run(cfg, moves).Some? && |Active(Run(cfg, moves).value)| <= n
    && (moves != [] ==> AtMost(cfg, moves[..|moves| - 1], n))
  }

  // ----- what every interleaving keeps -----

  // What an atomic operation adds to a count, or whether it zeroes it.
  function FailuresAfter(pc: Pc, before: nat): nat {
    match pc
    case AddFailure(_) => before + 1
    case ZeroFailures(_) => 0
    case ZeroOpened(_) => 0
    case ResetFailures => 0
    case _ => before
  }

  function SuccessesAfter(pc: Pc, before: nat): nat {
    match pc
    case AddSuccess(_) => before + 1
    case ZeroSuccesses(_) => 0
    case ZeroClosed(_) => 0
    case ResetSuccesses => 0
    case _ => before
  }

  // How often failures were counted since their count was last zeroed.
  function Failures(cfg: Config, moves: seq<Move>): nat
    requires Run(cfg, moves).Some?
  {
    if moves == [] then 0
    else
      var init := moves[..|moves| - 1];
      match moves[|moves| - 1]
      case Start(_, _) => Failures(cfg, init)
      case Advance(id) => FailuresAfter(Run(cfg, init).value.threads[id], Failures(cfg, init))
  }

  function Successes(cfg: Config, moves: seq<Move>): nat
    requires Run(cfg, moves).Some?
  {
    if moves == [] then 0
    else
      var init := moves[..|moves| - 1];
      match moves[|moves| - 1]
      case Start(_, _) => Successes(cfg, init)
      case Advance(id) => SuccessesAfter(Run(cfg, init).value.threads[id], Successes(cfg, init))
  }

  lemma StepCounts(cfg: Config, sh: Shared, pc: Pc, f: nat, s: nat)
    requires !pc.Finished? && sh.b.failures == Wrap32(f) && sh.b.successes == Wrap32(s)
    ensures Step(cfg, sh, pc).0.b.failures == Wrap32(FailuresAfter(pc, f))
    ensures Step(cfg, sh, pc).0.b.successes == Wrap32(SuccessesAfter(pc, s))
  {
    WrapNext(f);
    WrapNext(s);
  }

  // However the operations interleave, the counters are those counts, up to wrap-around.
  lemma {:induction false} CountersCount(cfg: Config, moves: seq<Move>)
    requires Run(cfg, moves).Some?
    ensures Run(cfg, moves).value.sh.b.failures == Wrap32(Failures(cfg, moves))
    ensures Run(cfg, moves).value.sh.b.successes == Wrap32(Successes(cfg, moves))
  {
    if moves != [] {
      var init, last := moves[..|moves| - 1], moves[|moves| - 1];
      CountersCount(cfg, init);
      if last.Advance? {
        var s := Run(cfg, init).value;
        StepCounts(cfg, s.sh, s.threads[last.id], Failures(cfg, init), Successes(cfg, init));
      }
    }
  }

  ghost predicate At(cfg: Config, moves: seq<Move>, j: nat, id: nat) {
    && j < |moves| && moves[j] == Advance(id) && Run(cfg, moves[..j]).Some?
    && id in Run(cfg, moves[..j]).value.threads
  }

  // Earlier in the run the goroutine looked at the failures and found the threshold reached.
  ghost predicate SawFailures(cfg: Config, moves: seq<Move>, id: nat) {
    exists j: nat :: At(cfg, moves, j, id) && Run(cfg, moves[..j]).value.threads[id].CheckFailures?
                  && Wrap32(Failures(cfg, moves[..j])) >= Wrap32(cfg.failureThreshold)
  }

  ghost predicate SawSuccesses(cfg: Config, moves: seq<Move>, id: nat) {
    exists j: nat :: At(cfg, moves, j, id) && Run(cfg, moves[..j]).value.threads[id].CheckSuccesses?
                  && Wrap32(Successes(cfg, moves[..j])) >= Wrap32(cfg.successThreshold)
  }

  lemma SightsStay(cfg: Config, moves: seq<Move>, m: Move, id: nat)
    ensures SawFailures(cfg, moves, id) ==> SawFailures(cfg, moves + [m], id)
    ensures SawSuccesses(cfg, moves, id) ==> SawSuccesses(cfg, moves + [m], id)
  {
    if SawFailures(cfg, moves, id) {
      var j: nat :| At(cfg, moves, j, id) && Run(cfg, moves[..j]).value.threads[id].CheckFailures?
                  && Wrap32(Failures(cfg, moves[..j])) >= Wrap32(cfg.failureThreshold);
      assert (moves + [m])[..j] == moves[..j];
      assert At(cfg, moves + [m], j, id);
    }
    if SawSuccesses(cfg, moves, id) {
      var j: nat :| At(cfg, moves, j, id) && Run(cfg, moves[..j]).value.threads[id].CheckSuccesses?
                  && Wrap32(Successes(cfg, moves[..j])) >= Wrap32(cfg.successThreshold);
      assert (moves + [m])[..j] == moves[..j];
      assert At(cfg, moves + [m], j, id);
    }
  }

  predicate Opening(pc: Pc) {
    pc.CheckNotOpen? || pc.StoreOpen?
  }

  predicate Closing(pc: Pc) {
    pc.CheckNotClosed? || pc.StoreClosed?
  }

  ghost predicate Justified(cfg: Config, moves: seq<Move>, id: nat, pc: Pc) {
    && (Opening(pc) ==> SawFailures(cfg, moves, id))
    && (Closing(pc) ==> SawSuccesses(cfg, moves, id))
  }

  lemma {:induction false} AlwaysJustified(cfg: Config, moves: seq<Move>, id: nat)
    requires Run(cfg, moves).Some? && id in Run(cfg, moves).value.threads
    ensures Justified(cfg, moves, id, Run(cfg, moves).value.threads[id])
  {
    if moves != [] {
      var init, m := moves[..|moves| - 1], moves[|moves| - 1];
      var s := Run(cfg, init).value;
      assert moves == init + [m];
      if id in s.threads {
        AlwaysJustified(cfg, init, id);
        SightsStay(cfg, init, m, id);
        if m == Advance(id) {
          CountersCount(cfg, init);
          assert At(cfg, moves, |init|, id);
        }
      }
    }
  }

  // Whatever interleaves: the breaker opens only by a failure recording that had found the
  // threshold of failures counted, closes only by a reset or a success recording that had
  // found it half-open and the threshold of successes counted, and turns half-open only
  // from open.
  lemma TurnsHaveCauses(cfg: Config, moves: seq<Move>, m: Move)
    requires Run(cfg, moves + [m]).Some?
    ensures Run(cfg, moves).Some? && Enabled(Run(cfg, moves).value, m)
    ensures var before, after := Run(cfg, moves).value, Run(cfg, moves + [m]).value;
            before.sh.b.state != after.sh.b.state ==>
              && m.Advance?
              && match after.sh.b.state
                 case Open => before.threads[m.id].StoreOpen? && SawFailures(cfg, moves, m.id)
                 case HalfOpen => before.threads[m.id].SwapHalfOpen? && before.sh.b.state == Open
                 case Closed =>
                   before.threads[m.id].ResetState?
                          || (before.threads[m.id].StoreClosed? && SawSuccesses(cfg, moves, m.id))
  {
    assert (moves + [m])[..|moves|] == moves;
    if m.Advance? { AlwaysJustified(cfg, moves, m.id); }
  }

  // ----- one at a time -----

  ghost predicate OneAtATime(cfg: Config, s: System, evs: seq<Event>) {
    if Active(s) == {} then s.sh == Shared(After(cfg, evs), 0)
    else exists id :: Active(s) == {id} && Alone(cfg, s.sh, s.threads[id]).0 == Shared(After(cfg, evs), 0)
  }

  lemma SubsetSize(a: set<nat>, b: set<nat>)
    requires a <= b
    ensures |a| <= |b|
  {
    assert b == a + (b - a);
  }

  lemma ActiveStarted(cfg: Config, s: System, id: nat, e: Event)
    requires id !in s.threads
    ensures Active(Do(cfg, s, Start(id, e))) == Active(s) + {id}
  {
    var t := Do(cfg, s, Start(id, e));
    forall x ensures x in Active(t) <==> x in Active(s) || x == id {}
  }

  lemma StartsFromQuiet(cfg: Config, s: System, id: nat, e: Event)
    requires id !in s.threads && |Active(Do(cfg, s, Start(id, e)))| <= 1
    ensures Active(s) == {} && Active(Do(cfg, s, Start(id, e))) == {id}
  {
    var t := Do(cfg, s, Start(id, e));
    ActiveStarted(cfg, s, id, e);
    if other :| other in Active(s) {
      AtLeastTwo(id, other, Active(t));
    }
  }

  lemma AtLeastTwo(a: nat, b: nat, s: set<nat>)
    requires a in s && b in s && a != b
    ensures |s| >= 2
  {
    SubsetSize({a, b}, s);
  }

  lemma StartsAlone(cfg: Config, s: System, evs: seq<Event>, id: nat, e: Event)
    requires OneAtATime(cfg, s, evs) && id !in s.threads && |Active(Do(cfg, s, Start(id, e)))| <= 1
    ensures OneAtATime(cfg, Do(cfg, s, Start(id, e)), evs + [e])
  {
    var t := Do(cfg, s, Start(id, e));
    StartsFromQuiet(cfg, s, id, e);
    AloneIsAtomic(cfg, s.sh, e);
    AfterSnoc(cfg, evs, e);
    assert t.threads[id] == Entry(e) && t.sh == s.sh;
    assert id in Active(t) && Alone(cfg, t.sh, t.threads[id]).0 == Shared(After(cfg, evs + [e]), 0);
  }

  lemma ActiveAfter(cfg: Config, s: System, id: nat)
    requires Running(s, id)
    ensures var t := Do(cfg, s, Advance(id));
            Active(t) == if Running(t, id) then Active(s) else Active(s) - {id}
  {
    var t := Do(cfg, s, Advance(id));
    forall x ensures x in Active(t) <==> x in Active(s) && (x == id ==> Running(t, id)) {}
  }

  lemma AdvancesAlone(cfg: Config, s: System, evs: seq<Event>, id: nat)
    requires OneAtATime(cfg, s, evs) && Running(s, id)
    ensures OneAtATime(cfg, Do(cfg, s, Advance(id)), evs)
  {
    var t := Do(cfg, s, Advance(id));
    assert id in Active(s);
    assert Active(s) == {id};
    ActiveAfter(cfg, s, id);
    assert Alone(cfg, t.sh, t.threads[id]) == Alone(cfg, s.sh, s.threads[id]);
    assert Running(t, id) <==> Active(t) != {};
  }

  lemma {:induction false} OneAtATimeAlways(cfg: Config, moves: seq<Move>)
    requires AtMost(cfg, moves, 1)
    ensures OneAtATime(cfg, Run(cfg, moves).value, EventsOf(moves))
  {
    if moves != [] {
      var init, m := moves[..|moves| - 1], moves[|moves| - 1];
      OneAtATimeAlways(cfg, init);
      var s := Run(cfg, init).value;
      match m
      case Start(id, e) => StartsAlone(cfg, s, EventsOf(init), id, e);
      case Advance(id) => AdvancesAlone(cfg, s, EventsOf(init), id);
    }
  }

  // The run ends as some order of its events does, each a single step.
  ghost predicate Explained(cfg: Config, moves: seq<Move>)
    requires Run(cfg, moves).Some?
  {
    exists evs :: multiset(evs) == multiset(EventsOf(moves)) && After(cfg, evs) == Run(cfg, moves).value.sh.b
  }

  // Every run with at most n operations in progress at once, once it is quiet, ends as if
  // calls and recordings were single steps.
  ghost predicate Atomic(n: nat) {
    forall cfg, moves :: AtMost(cfg, moves, n) && Active(Run(cfg, moves).value) == {} ==> Explained(cfg, moves)
  }

  // That holds exactly when no two of them interleave.
  lemma AtomicIff(n: nat)
    ensures Atomic(n) <==> n <= 1
  {
    if n <= 1 {
      forall cfg, moves | AtMost(cfg, moves, n) && Active(Run(cfg, moves).value) == {}
        ensures Explained(cfg, moves)
      {
        AtMostMore(cfg, moves, n, 1);
        OneAtATimeAlways(cfg, moves);
      }
    } else {
      var cfg, moves := LostFailure();
      AtMostMore(cfg, moves, 2, n);
      assert !Explained(cfg, moves);
    }
  }

  lemma {:induction false} AtMostMore(cfg: Config, moves: seq<Move>, n: nat, more: nat)
    requires AtMost(cfg, moves, n) && n <= more
    ensures AtMost(cfg, moves, more)
  {
    if moves != [] { AtMostMore(cfg, moves[..|moves| - 1], n, more); }
  }

  // ----- a failure that is lost -----

  lemma OneMore(cfg: Config, moves: seq<Move>, s: System, m: Move, n: nat)
    requires AtMost(cfg, moves, n) && Run(cfg, moves) == Some(s) && Enabled(s, m) && |Active(Do(cfg, s, m))| <= n
    ensures Run(cfg, moves + [m]) == Some(Do(cfg, s, m)) && AtMost(cfg, moves + [m], n)
    ensures EventsOf(moves + [m]) == EventsOf(moves) + if m.Start? then [m.e] else []
  {
    assert (moves + [m])[..|moves|] == moves;
  }

  function Both(b: Counters, success: Pc, failure: Pc): System {
    System(Shared(b, 0), map[0 := success, 1 := failure])
  }

  // The run has come to this point of a success (0) and a failure (1) that overlap.
  ghost predicate Reached(cfg: Config, moves: seq<Move>, b: Counters, success: Pc, failure: Pc) {
    && AtMost(cfg, moves, 2) && Run(cfg, moves) == Some(Both(b, success, failure))
    && EventsOf(moves) == [Done(true, 0), Done(false, 0)]
  }

  lemma SuccessProceeds(cfg: Config, moves: seq<Move>, b: Counters, success: Pc, failure: Pc) returns (more: seq<Move>)
    requires Reached(cfg, moves, b, success, failure) && !success.Finished?
    requires Step(cfg, Shared(b, 0), success).0.permits == 0
    ensures var (sh, pc) := Step(cfg, Shared(b, 0), success); Reached(cfg, more, sh.b, pc, failure)
  {
    var s := Both(b, success, failure);
    var t := Do(cfg, s, Advance(0));
    SubsetSize(Active(t), {0, 1});
    OneMore(cfg, moves, s, Advance(0), 2);
    more := moves + [Advance(0)];
    assert t.threads == map[0 := t.threads[0], 1 := failure];
  }

  lemma FailureProceeds(cfg: Config, moves: seq<Move>, b: Counters, success: Pc, failure: Pc) returns (more: seq<Move>)
    requires Reached(cfg, moves, b, success, failure) && !failure.Finished?
    requires Step(cfg, Shared(b, 0), failure).0.permits == 0
    ensures var (sh, pc) := Step(cfg, Shared(b, 0), failure); Reached(cfg, more, sh.b, success, pc)
  {
    var s := Both(b, success, failure);
    var t := Do(cfg, s, Advance(1));
    SubsetSize(Active(t), {0, 1});
    OneMore(cfg, moves, s, Advance(1), 2);
    more := moves + [Advance(1)];
    assert t.threads == map[0 := success, 1 := t.threads[1]];
  }

  lemma SuccessFirst(cfg: Config) returns (moves: seq<Move>)
    ensures Reached(cfg, moves, Counters(Closed, 0, 1, 0), ZeroFailures(0), AddFailure(0))
  {
    moves := TwoStarted(cfg);
    moves := SuccessProceeds(cfg, moves, INITIAL, AddSuccess(0), AddFailure(0));
  }

  lemma Halfway(cfg: Config) returns (moves: seq<Move>)
    ensures Reached(cfg, moves, Counters(Closed, 1, 1, 0), ZeroFailures(0), ZeroSuccesses(0))
  {
    moves := SuccessFirst(cfg);
    moves := FailureProceeds(cfg, moves, Counters(Closed, 0, 1, 0), ZeroFailures(0), AddFailure(0));
  }

  lemma TakenBack(cfg: Config) returns (moves: seq<Move>)
    ensures Reached(cfg, moves, INITIAL, CheckHalfOpen(0), CheckFailures(0))
  {
    moves := Halfway(cfg);
    moves := FailureProceeds(cfg, moves, Counters(Closed, 1, 1, 0), ZeroFailures(0), ZeroSuccesses(0));
    moves := SuccessProceeds(cfg, moves, Counters(Closed, 1, 0, 0), ZeroFailures(0), CheckFailures(0));
  }

  lemma BothFinished(cfg: Config) returns (moves: seq<Move>)
    requires cfg.failureThreshold == 1
    ensures Reached(cfg, moves, INITIAL, Finished(false), Finished(false))
  {
    moves := TakenBack(cfg);
    moves := FailureProceeds(cfg, moves, INITIAL, CheckHalfOpen(0), CheckFailures(0));
    moves := SuccessProceeds(cfg, moves, INITIAL, CheckHalfOpen(0), Finished(false));
  }

  // A success and a failure finish together, and one failure should open the breaker. The
  // success takes the failure's count back before the failure looks at it: the breaker
  // stays closed, while either order of the two would open it.
  lemma LostFailure() returns (cfg: Config, moves: seq<Move>)
    ensures cfg.failureThreshold == 1 && AtMost(cfg, moves, 2)
    ensures EventsOf(moves) == [Done(true, 0), Done(false, 0)]
    ensures Active(Run(cfg, moves).value) == {} && Run(cfg, moves).value.sh.b == INITIAL
    ensures !Explained(cfg, moves)
  {
    cfg := Config(1, 1, 0, 1);
    moves := BothFinished(cfg);
    NothingLeft(INITIAL);
    forall evs | multiset(evs) == multiset(EventsOf(moves)) ensures After(cfg, evs) != INITIAL {
      EitherOrderOpens(evs);
    }
  }

  lemma NothingLeft(b: Counters)
    ensures Active(Both(b, Finished(false), Finished(false))) == {}
  {
  }

  lemma TwoStarted(cfg: Config) returns (moves: seq<Move>)
    ensures Reached(cfg, moves, INITIAL, AddSuccess(0), AddFailure(0))
  {
    var first, second := Start(0, Done(true, 0)), Start(1, Done(false, 0));
    assert Run(cfg, []) == Some(QUIET) && Active(QUIET) == {};
    var t := Do(cfg, QUIET, first);
    assert Active(t) == {0};
    OneMore(cfg, [], QUIET, first, 2);
    SubsetSize(Active(Do(cfg, t, second)), {0, 1});
    OneMore(cfg, [] + [first], t, second, 2);
    moves := [] + [first] + [second];
    assert Do(cfg, t, second) == Both(INITIAL, AddSuccess(0), AddFailure(0));
  }

  lemma TwoOrders(evs: seq<Event>, s: Event, f: Event)
    requires s != f && multiset(evs) == multiset([s, f])
    ensures evs == [s, f] || evs == [f, s]
  {
    assert |multiset(evs)| == |evs| == 2;
    assert evs == [evs[0], evs[1]];
    assert evs[0] in multiset(evs) && evs[1] in multiset(evs);
    assert multiset(evs)[s] == 1 && multiset(evs)[f] == 1;
  }

  lemma AfterTwo(cfg: Config, first: Event, second: Event)
    ensures After(cfg, [first, second]) == Apply(cfg, Apply(cfg, INITIAL, first), second)
  {
    assert After(cfg, []) == INITIAL;
    AfterSnoc(cfg, [], first);
    AfterSnoc(cfg, [] + [first], second);
    assert [] + [first] + [second] == [first, second];
  }

  lemma OneFailureOpens(cfg: Config, b: Counters)
    requires cfg.failureThreshold == 1 && b.failures == 0 && b.state != Open
    ensures Record(cfg, b, false, 0).state == Open
  {
  }

  lemma EitherOrderOpens(evs: seq<Event>)
    requires multiset(evs) == multiset([Done(true, 0), Done(false, 0)])
    ensures After(Config(1, 1, 0, 1), evs).state == Open
  {
    var cfg, s, f := Config(1, 1, 0, 1), Done(true, 0), Done(false, 0);
    TwoOrders(evs, s, f);
    if evs == [s, f] {
      AfterTwo(cfg, s, f);
      OneFailureOpens(cfg, Apply(cfg, INITIAL, s));
    } else {
      AfterTwo(cfg, f, s);
      OneFailureOpens(cfg, INITIAL);
    }
  }
}
