/** What holds on every path of the consume loop, whatever the world answers and wherever
    the process is cancelled or dies: bounded attempts and waits, gap-free marks. */
module ConsumerProperties {
  import opened Backoff
  import opened ConsumerLoop

  // Attempts made on the last fetched record.
  function Tries(evs: seq<Event>): nat {
    if evs == [] then 0
    else
      var init := evs[..|evs| - 1];
      match evs[|evs| - 1]
      case Fetch(_) => 0
      case Lookup(_) => Tries(init) + 1
      case _ => Tries(init)
  }

  // Time waited for the last fetched record.
  function Waited(evs: seq<Event>): int {
    if evs == [] then 0
    else
      var init := evs[..|evs| - 1];
      match evs[|evs| - 1]
      case Fetch(_) => 0
      case Wait(d) => Waited(init) + d
      case _ => Waited(init)
  }

  function Retries(tries: nat): nat {
    if tries == 0 then 0 else tries - 1
  }

  ghost predicate Budget(cfg: Config, l: Local, evs: seq<Event>) {
    && Tries(evs) <= cfg.retry.maxAttempts + 1
    && (match l.phase
        case Looking(r) => Tries(evs) == r <= cfg.retry.maxAttempts
        case Creating(r) => Tries(evs) == r + 1
        case BackingOff(r) => Tries(evs) == r && 1 <= r <= cfg.retry.maxAttempts
        case Burying(r) => Tries(evs) == r
        case _ => true)
    && Waited(evs) == TotalWait(cfg.retry, if l.phase.Looking? then Tries(evs) else Retries(Tries(evs)))
  }

  lemma {:induction false} BudgetAlways(cfg: Config, log: seq<Payload>, start: nat, evs: seq<Event>)
    requires Accepts(cfg, log, Local(start, Selecting), evs)
    ensures Budget(cfg, End(cfg, log, Local(start, Selecting), evs).value, evs)
  {
    if evs != [] {
      var init, last := evs[..|evs| - 1], evs[|evs| - 1];
      BudgetAlways(cfg, log, start, init);
    }
  }

  // A record gets at most maxAttempts + 1 attempts, and its waits are the first so many
  // delays of the backoff schedule, one fewer than the attempts or as many while the next
  // attempt is due.
  lemma RetryBudget(cfg: Config, log: seq<Payload>, start: nat, evs: seq<Event>)
    requires Accepts(cfg, log, Local(start, Selecting), evs)
    ensures Tries(evs) <= cfg.retry.maxAttempts + 1
    ensures exists w: nat ::
              w <= cfg.retry.maxAttempts && w <= Tries(evs) <= w + 1 && Waited(evs) == TotalWait(cfg.retry, w)
    ensures cfg.retry.initialDelay >= 0 && cfg.retry.maxDelay >= 0 && cfg.retry.multiplier >= 0.0 ==>
              Waited(evs) <= TotalWait(cfg.retry, cfg.retry.maxAttempts)
  {
    BudgetAlways(cfg, log, start, evs);
    var l := End(cfg, log, Local(start, Selecting), evs).value;
    var w := if l.phase.Looking? then Tries(evs) else Retries(Tries(evs));
    assert w <= cfg.retry.maxAttempts && w <= Tries(evs) <= w + 1 && Waited(evs) == TotalWait(cfg.retry, w);
    if cfg.retry.initialDelay >= 0 && cfg.retry.maxDelay >= 0 && cfg.retry.multiplier >= 0.0 {
      TotalWaitGrows(cfg.retry, w, cfg.retry.maxAttempts);
    }
  }

  // For a whole multiplier the bound on the waits is the truncated geometric sum.
  lemma WaitBoundClosedForm(cfg: Config, m: nat, log: seq<Payload>, start: nat, evs: seq<Event>)
    requires Accepts(cfg, log, Local(start, Selecting), evs)
    requires m >= 1 && cfg.retry.multiplier == m as real
    requires 0 <= cfg.retry.initialDelay <= cfg.retry.maxDelay
    ensures Waited(evs) <= Geometric(cfg.retry, m, cfg.retry.maxAttempts)
  {
    RetryBudget(cfg, log, start, evs);
    TotalWaitClosedForm(cfg.retry, m, cfg.retry.maxAttempts);
  }

  lemma {:induction false} LocalOkAlways(cfg: Config, log: seq<Payload>, start: nat, evs: seq<Event>)
    requires start <= |log|
    requires Accepts(cfg, log, Local(start, Selecting), evs)
    ensures LocalOk(cfg, log, End(cfg, log, Local(start, Selecting), evs).value)
  {
    if evs != [] {
      var last := |evs| - 1;
      LocalOkAlways(cfg, log, start, evs[..last]);
      AfterKeepsLocalOk(cfg, log, End(cfg, log, Local(start, Selecting), evs[..last]).value, evs[last]);
    }
  }

  // A decoded record is dead-lettered only after exactly maxAttempts + 1 attempts, which
  // is also the count written into the dead letter; an undecodable one after none.
  lemma DeadLetterCount(cfg: Config, log: seq<Payload>, start: nat, evs: seq<Event>)
    requires start <= |log|
    requires Accepts(cfg, log, Local(start, Selecting), evs)
    requires evs != [] && evs[|evs| - 1].Bury?
    ensures evs[|evs| - 1].retries == Tries(evs)
    ensures var l := End(cfg, log, Local(start, Selecting), evs).value;
            l.pos < |log| && Tries(evs) == if log[l.pos].Good? then cfg.retry.maxAttempts + 1 else 0
  {
    var init := evs[..|evs| - 1];
    BudgetAlways(cfg, log, start, init);
    LocalOkAlways(cfg, log, start, init);
  }

  // ----- the protocol of a record, event by event -----

  // What may come after an event, with n retries allowed and retry count r so far.
  predicate MayFollow(e: Event, f: Event) {
    match e
    case Fetch(_) => f.Lookup? || (f.Bury? && f.retries == 0)
    case Lookup(result) => if result == Hit then f.Mark? else f.Create?
    case Create(ok) => if ok then f.Mark? else f.Wait? || f == Return || (f.Bury? && f.retries > 0)
    case Wait(_) => f.Lookup?
    case Bury(_, _) => f.Mark?
    case Mark(offset) => f == Fetch(offset + 1) || f == Return
    case Return => false
  }

  // What the automaton is ready for after its last event.
  ghost predicate ReadyAfter(log: seq<Payload>, l: Local, evs: seq<Event>) {
    if evs == [] then l.phase.Selecting?
    else
      match evs[|evs| - 1]
      case Fetch(o) =>
        l.pos == o < |log| && l.phase == if log[o].Malformed? then Burying(0) else Looking(0)
      case Lookup(result) => if result == Hit then l.phase.Marking? else l.phase.Creating?
      case Create(ok) =>
        if ok then l.phase.Marking? else l.phase.BackingOff? || (l.phase.Burying? && l.phase.retries > 0)
      case Wait(_) => l.phase.Looking?
      case Bury(_, _) => l.phase.Marking?
      case Mark(o) => l == Local(o + 1, Selecting)
      case Return => l.phase.Returned?
  }

  lemma {:induction false} AlwaysReady(cfg: Config, log: seq<Payload>, start: nat, evs: seq<Event>)
    requires Accepts(cfg, log, Local(start, Selecting), evs)
    ensures ReadyAfter(log, End(cfg, log, Local(start, Selecting), evs).value, evs)
  {
    if evs != [] { AlwaysReady(cfg, log, start, evs[..|evs| - 1]); }
  }

  // On every path each event is one that may follow the one before. In particular a lookup
  // that is no hit, the failing query included, is followed by an insert, and an insert
  // only ever follows such a lookup; a fetched record is buried at once exactly if it
  // cannot be decoded.
  lemma {:induction false} EventsFollow(cfg: Config, log: seq<Payload>, start: nat, evs: seq<Event>, i: nat)
    requires Accepts(cfg, log, Local(start, Selecting), evs) && i + 1 < |evs|
    ensures MayFollow(evs[i], evs[i + 1])
    ensures evs[i + 1].Create? ==> evs[i].Lookup? && evs[i].result != Hit
    ensures evs[i].Fetch? ==> evs[i].offset < |log| && (evs[i + 1].Bury? <==> log[evs[i].offset].Malformed?)
    decreases |evs|
  {
    var init := evs[..|evs| - 1];
    if i + 1 < |init| {
      EventsFollow(cfg, log, start, init, i);
    } else {
      AlwaysReady(cfg, log, start, init);
    }
  }

  // The event that an answer of the world leads to, at is the offset reached.
  predicate AnsweredBy(cfg: Config, log: seq<Payload>, at: nat, e: Event, reply: Reply) {
    match e
    case Fetch(o) => reply == Yes && o == at < |log|
    case Lookup(result) =>
      result == if reply == Yes then Hit else if reply == No then Miss else QueryFailed
    case Create(ok) => ok <==> reply == Yes
    case Wait(_) => reply == Yes
    case Bury(_, outcome) =>
      outcome == if !cfg.dlqEnabled then Disabled else if reply == Yes then Sent else SendFailed
    case Mark(o) => o == at
    case Return => reply != Yes || at >= |log|
  }

  // Under every script each event is the one its answer leads to, and the events go on to
  // the end of the script unless the loop returns: with the order of events above, what
  // the loop does is settled by what it is answered.
  lemma {:induction false} ScriptIsAnswered(cfg: Config, log: seq<Payload>, l: Local, env: seq<Reply>, k: nat)
    requires l.phase != Returned && k < |Behave(cfg, log, l, env)|
    ensures var evs := Behave(cfg, log, l, env);
            && |evs| <= |env| && (|evs| < |env| ==> evs[|evs| - 1] == Return)
            && Accepts(cfg, log, l, evs[..k])
            && AnsweredBy(cfg, log, End(cfg, log, l, evs[..k]).value.pos, evs[k], env[k])
    decreases env
  {
    var e := Respond(cfg, log, l, env[0]);
    var next := After(cfg, log, l, e);
    var evs, rest := Behave(cfg, log, l, env), Behave(cfg, log, next, env[1..]);
    assert evs == [e] + rest;
    if rest != [] {
      ScriptIsAnswered(cfg, log, next, env[1..], if k == 0 then 0 else k - 1);
    }
    if k == 0 {
      assert evs[..0] == [];
    } else {
      assert evs[..k] == [e] + rest[..k - 1];
      EndPrepend(cfg, log, l, e, rest[..k - 1]);
    }
  }

  // Inserts made for the last fetched record, and those that failed.
  function Inserts(evs: seq<Event>): nat {
    if evs == [] then 0
    else
      var init := evs[..|evs| - 1];
      match evs[|evs| - 1]
      case Fetch(_) => 0
      case Create(_) => Inserts(init) + 1
      case _ => Inserts(init)
  }

  function FailedInserts(evs: seq<Event>): nat {
    if evs == [] then 0
    else
      var init := evs[..|evs| - 1];
      match evs[|evs| - 1]
      case Fetch(_) => 0
      case Create(ok) => if ok then FailedInserts(init) else FailedInserts(init) + 1
      case _ => FailedInserts(init)
  }

  // Every attempt so far has failed at its insert, but for the one in progress.
  ghost predicate InsertsOk(l: Local, evs: seq<Event>) {
    match l.phase
    case Looking(r) => Inserts(evs) == FailedInserts(evs) == r
    case Creating(r) => Inserts(evs) == FailedInserts(evs) == r
    case BackingOff(r) => Inserts(evs) == FailedInserts(evs) == r
    case Burying(r) => Inserts(evs) == FailedInserts(evs) == r
    case _ => FailedInserts(evs) <= Inserts(evs) <= FailedInserts(evs) + 1
  }

  lemma {:induction false} InsertsAlways(cfg: Config, log: seq<Payload>, start: nat, evs: seq<Event>)
    requires Accepts(cfg, log, Local(start, Selecting), evs)
    ensures InsertsOk(End(cfg, log, Local(start, Selecting), evs).value, evs)
  {
    if evs != [] { InsertsAlways(cfg, log, start, evs[..|evs| - 1]); }
  }

  // A decoded record is buried only after exactly maxAttempts + 1 inserts, which all
  // failed; an undecodable one after none.
  lemma BuriedAfterInserts(cfg: Config, log: seq<Payload>, start: nat, evs: seq<Event>)
    requires start <= |log|
    requires Accepts(cfg, log, Local(start, Selecting), evs)
    requires evs != [] && evs[|evs| - 1].Bury?
    ensures var l := End(cfg, log, Local(start, Selecting), evs).value;
            && l.pos < |log|
            && Inserts(evs) == FailedInserts(evs) == (if log[l.pos].Good? then cfg.retry.maxAttempts + 1 else 0)
  {
    InsertsAlways(cfg, log, start, evs[..|evs| - 1]);
    LocalOkAlways(cfg, log, start, evs[..|evs| - 1]);
  }

  function Range(from: nat, to: nat): seq<nat> {
    seq(if from <= to then to - from else 0, i requires i >= 0 => from + i)
  }

  // The marked offsets are exactly those from the start of the claim up to the record in
  // hand, in order; that record is never marked, whichever point the path has reached.
  lemma {:induction false} MarksGapFree(cfg: Config, log: seq<Payload>, start: nat, evs: seq<Event>)
    requires Accepts(cfg, log, Local(start, Selecting), evs)
    ensures var l := End(cfg, log, Local(start, Selecting), evs).value;
            start <= l.pos && Marks(evs) == Range(start, l.pos) && l.pos !in Marks(evs)
  {
    if evs != [] {
      var last := |evs| - 1;
      MarksGapFree(cfg, log, start, evs[..last]);
      var l := End(cfg, log, Local(start, Selecting), evs[..last]).value;
      assert Range(start, l.pos + 1) == Range(start, l.pos) + [l.pos];
    }
  }

  lemma {:induction false} MarkingFollowsSettling(cfg: Config, log: seq<Payload>, start: nat, evs: seq<Event>)
    requires Accepts(cfg, log, Local(start, Selecting), evs)
    ensures End(cfg, log, Local(start, Selecting), evs).value.phase.Marking? ==> evs != [] && Settles(evs[|evs| - 1])
  {}

  // Every mark directly follows the event that settled its record.
  lemma {:induction false} MarkFollowsSettling(cfg: Config, log: seq<Payload>, start: nat, evs: seq<Event>, i: nat)
    requires Accepts(cfg, log, Local(start, Selecting), evs)
    requires i < |evs| && evs[i].Mark?
    ensures i > 0 && Settles(evs[i - 1])
    decreases |evs|
  {
    var init := evs[..|evs| - 1];
    if i < |init| {
      MarkFollowsSettling(cfg, log, start, init, i);
    } else {
      MarkingFollowsSettling(cfg, log, start, init);
    }
  }
}
