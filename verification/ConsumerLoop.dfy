/** The consume loop of one claimed partition: first as an automaton over its interactions
    with the broker, the database and the clock, then as the loop itself, proved to take
    exactly the automaton's steps. */
module ConsumerLoop {
  import opened Basics
  import opened Messages
  import opened Backoff

  // The value of a record: senders write Good ones, other writers may not.
  datatype Payload = Good(m: MessageData) | Malformed

  datatype Config = Config(retry: RetryConfig, dlqEnabled: bool)

  datatype DlqOutcome = Disabled | Sent | SendFailed

  // A query that fails is not a hit; the loop goes on as for a miss.
  datatype LookupResult = Hit | Miss | QueryFailed

  datatype Event =
    | Fetch(offset: nat)                        // a record arrives from the claim
    | Lookup(result: LookupResult)              // GetMessageByMsgID
    | Create(ok: bool)                          // CreateMessage
    | Wait(delay: int)                          // the backoff timer fires
    | Bury(retries: nat, outcome: DlqOutcome)   // sendToDLQ
    | Mark(offset: nat)                         // session.MarkMessage
    | Return                                    // cancelled, or the claim was closed

  datatype Phase =
    | Selecting
    | Looking(retries: nat)
    | Creating(retries: nat)
    | BackingOff(retries: nat)
    | Burying(retries: nat)
    | Marking
    | Returned

  // pos is the offset of the record in hand, or of the next one to fetch.
  datatype Local = Local(pos: nat, phase: Phase)

  predicate Allowed(cfg: Config, log: seq<Payload>, l: Local, e: Event) {
    match l.phase
    case Selecting => e == Return || (e == Fetch(l.pos) && l.pos < |log|)
    case Looking(_) => e.Lookup?
    case Creating(_) => e.Create?
    case BackingOff(r) => e == Return || e == Wait(Delay(cfg.retry, r - 1))
    case Burying(r) => e.Bury? && e.retries == r && (e.outcome == Disabled <==> !cfg.dlqEnabled)
    case Marking => e == Mark(l.pos)
    case Returned => false
  }

  function After(cfg: Config, log: seq<Payload>, l: Local, e: Event): Local
    requires Allowed(cfg, log, l, e)
  {
    match l.phase
    case Selecting =>
      if e == Return then l.(phase := Returned)
      else if log[l.pos].Malformed? then l.(phase := Burying(0))
      else l.(phase := Looking(0))
    case Looking(r) =>
      if e.result == Hit then l.(phase := Marking) else l.(phase := Creating(r))
    case Creating(r) =>
      if e.ok then l.(phase := Marking)
      else if r + 1 <= cfg.retry.maxAttempts then l.(phase := BackingOff(r + 1))
      else l.(phase := Burying(r + 1))
    case BackingOff(r) =>
      if e == Return then l.(phase := Returned) else l.(phase := Looking(r))
    case Burying(_) => l.(phase := Marking)
    case Marking => Local(l.pos + 1, Selecting)
  }

  // The record in hand is stored, found stored or given up; it is marked next.
  predicate Settles(e: Event) {
    e == Lookup(Hit) || e == Create(true) || e.Bury?
  }

  // The loop fetches the record at pos and holds it until it is marked.
  predicate LocalOk(cfg: Config, log: seq<Payload>, l: Local) {
    && l.pos <= |log|
    && (l.phase.Selecting? || l.phase.Returned? || l.pos < |log|)
    && match l.phase
       case Looking(r) => log[l.pos].Good? && r <= cfg.retry.maxAttempts
       case Creating(r) => log[l.pos].Good? && r <= cfg.retry.maxAttempts
       case BackingOff(r) => log[l.pos].Good? && 1 <= r <= cfg.retry.maxAttempts
       case Burying(r) => r == if log[l.pos].Good? then cfg.retry.maxAttempts + 1 else 0
       case _ => true
  }

  lemma AfterKeepsLocalOk(cfg: Config, log: seq<Payload>, l: Local, e: Event)
    requires LocalOk(cfg, log, l) && Allowed(cfg, log, l, e)
    ensures LocalOk(cfg, log, After(cfg, log, l, e))
  {}

  // ----- paths -----

  // The automaton's state after a whole event sequence, if it accepts the sequence.
  function End(cfg: Config, log: seq<Payload>, l: Local, evs: seq<Event>): Option<Local> {
    if evs == [] then Some(l)
    else
      var last := |evs| - 1;
      match End(cfg, log, l, evs[..last])
      case None => None
      case Some(m) => if Allowed(cfg, log, m, evs[last]) then Some(After(cfg, log, m, evs[last])) else None
  }

  predicate Accepts(cfg: Config, log: seq<Payload>, l: Local, evs: seq<Event>) {
    End(cfg, log, l, evs).Some?
  }

  lemma {:induction false} EndPrepend(cfg: Config, log: seq<Payload>, l: Local, e: Event, evs: seq<Event>)
    requires Allowed(cfg, log, l, e)
    ensures End(cfg, log, l, [e] + evs) == End(cfg, log, After(cfg, log, l, e), evs)
  {
    var all := [e] + evs;
    if evs == [] {
      assert all[..0] == [];
    } else {
      EndPrepend(cfg, log, l, e, evs[..|evs| - 1]);
      assert all[..|all| - 1] == [e] + evs[..|evs| - 1];
    }
  }

  lemma {:induction false} EndPrependRefused(cfg: Config, log: seq<Payload>, l: Local, e: Event, evs: seq<Event>)
    requires !Allowed(cfg, log, l, e)
    ensures End(cfg, log, l, [e] + evs) == None
  {
    var all := [e] + evs;
    if evs == [] {
      assert all[..0] == [];
    } else {
      EndPrependRefused(cfg, log, l, e, evs[..|evs| - 1]);
      assert all[..|all| - 1] == [e] + evs[..|evs| - 1];
    }
  }

  // How the world answers: only a lookup tells No from Fault.
  datatype Reply = Yes | No | Fault

  function LookupResultOf(reply: Reply): LookupResult {
    match reply
    case Yes => Hit
    case No => Miss
    case Fault => QueryFailed
  }

  // The event produced in a state when the world's next answer is reply: a record is
  // available, the row is found, the insert succeeds, the timer fires first, the
  // producer succeeds. Marking has only one continuation.
  function Respond(cfg: Config, log: seq<Payload>, l: Local, reply: Reply): (e: Event)
    requires l.phase != Returned
    ensures Allowed(cfg, log, l, e)
  {
    match l.phase
    case Selecting => if reply == Yes && l.pos < |log| then Fetch(l.pos) else Return
    case Looking(_) => Lookup(LookupResultOf(reply))
    case Creating(_) => Create(reply == Yes)
    case BackingOff(r) => if reply == Yes then Wait(Delay(cfg.retry, r - 1)) else Return
    case Burying(r) => Bury(r, if !cfg.dlqEnabled then Disabled else if reply == Yes then Sent else SendFailed)
    case Marking => Mark(l.pos)
  }

  // The loop's events under a script of answers; where the script ends the process dies.
  function Behave(cfg: Config, log: seq<Payload>, l: Local, env: seq<Reply>): seq<Event>
    decreases env
  {
    if env == [] || l.phase == Returned then []
    else
      var e := Respond(cfg, log, l, env[0]);
      [e] + Behave(cfg, log, After(cfg, log, l, e), env[1..])
  }

  // Soundness and completeness of the automaton for the scripts.
  lemma {:induction false} BehavesAsAutomaton(cfg: Config, log: seq<Payload>, l: Local, env: seq<Reply>)
    ensures Accepts(cfg, log, l, Behave(cfg, log, l, env))
    decreases env
  {
    if env != [] && l.phase != Returned {
      var e := Respond(cfg, log, l, env[0]);
      BehavesAsAutomaton(cfg, log, After(cfg, log, l, e), env[1..]);
      EndPrepend(cfg, log, l, e, Behave(cfg, log, After(cfg, log, l, e), env[1..]));
    }
  }

  function Answer(e: Event): Reply {
    match e
    case Fetch(_) => Yes
    case Lookup(result) => (match result case Hit => Yes case Miss => No case QueryFailed => Fault)
    case Create(ok) => if ok then Yes else No
    case Wait(_) => Yes
    case Bury(_, outcome) => if outcome == Sent then Yes else No
    case Mark(_) => Yes
    case Return => No
  }

  function Answers(evs: seq<Event>): seq<Reply> {
    seq(|evs|, i requires 0 <= i < |evs| => Answer(evs[i]))
  }

  lemma {:induction false} AutomatonIsBehaviour(cfg: Config, log: seq<Payload>, l: Local, evs: seq<Event>)
    requires Accepts(cfg, log, l, evs)
    ensures Behave(cfg, log, l, Answers(evs)) == evs
    decreases evs
  {
    if evs != [] {
      var e, rest := evs[0], evs[1..];
      assert evs == [e] + rest;
      if !Allowed(cfg, log, l, e) {
        EndPrependRefused(cfg, log, l, e, rest);
        assert false;
      }
      EndPrepend(cfg, log, l, e, rest);
      AutomatonIsBehaviour(cfg, log, After(cfg, log, l, e), rest);
      assert Answers(evs)[1..] == Answers(rest);
      assert Respond(cfg, log, l, Answer(e)) == e;
    }
  }

  // ----- the loop -----

  function Marks(evs: seq<Event>): seq<nat> {
    if evs == [] then []
    else
      var init := Marks(evs[..|evs| - 1]);
      match evs[|evs| - 1] case Mark(o) => init + [o] case _ => init
  }

  class ClaimSession {
    var marked: seq<nat>

    constructor ()
      ensures marked == []
    {
      marked := [];
    }

    method MarkMessage(offset: nat)
      modifies this
      ensures marked == old(marked) + [offset]
    {
      marked := marked + [offset];
    }
  }

  // After the events so far, started in l0 under the script env, the loop is in state l;
  // each event has used one answer of the script.
  ghost predicate At(cfg: Config, log: seq<Payload>, l0: Local, env: seq<Reply>, evs: seq<Event>, l: Local) {
    && |evs| <= |env|
    && End(cfg, log, l0, evs) == Some(l)
    && Behave(cfg, log, l0, env) == evs + Behave(cfg, log, l, env[|evs|..])
  }

  lemma Advance(cfg: Config, log: seq<Payload>, l0: Local, env: seq<Reply>, evs: seq<Event>, l: Local)
    requires At(cfg, log, l0, env, evs, l)
    requires |evs| < |env| && l.phase != Returned
    ensures var e := Respond(cfg, log, l, env[|evs|]);
            At(cfg, log, l0, env, evs + [e], After(cfg, log, l, e))
  {
    var e := Respond(cfg, log, l, env[|evs|]);
    var rest := env[|evs|..];
    assert (evs + [e])[..|evs|] == evs;
    assert rest[1..] == env[|evs| + 1..];
    assert evs + ([e] + Behave(cfg, log, After(cfg, log, l, e), rest[1..]))
        == (evs + [e]) + Behave(cfg, log, After(cfg, log, l, e), rest[1..]);
  }

  lemma Finished(cfg: Config, log: seq<Payload>, l0: Local, env: seq<Reply>, evs: seq<Event>, l: Local)
    requires At(cfg, log, l0, env, evs, l)
    requires |evs| == |env| || l.phase == Returned
    ensures evs == Behave(cfg, log, l0, env)
  {
    assert Behave(cfg, log, l, env[|evs|..]) == [];
    assert evs + [] == evs;
  }

  lemma MarksSnoc(evs: seq<Event>, e: Event)
    ensures Marks(evs + [e]) == if e.Mark? then Marks(evs) + [e.offset] else Marks(evs)
  {
    assert (evs + [e])[..|evs|] == evs;
  }

  lemma Beginning(cfg: Config, log: seq<Payload>, l0: Local, env: seq<Reply>)
    ensures At(cfg, log, l0, env, [], l0)
  {
    assert [] + Behave(cfg, log, l0, env[0..]) == Behave(cfg, log, l0, env);
  }

  // Working on the record at pos either marked it and selects again, or the process ended.
  ghost predicate Progress(cfg: Config, log: seq<Payload>, l0: Local, env: seq<Reply>,
                           before: seq<Event>, pos: nat, alive: bool, evs: seq<Event>)
  {
    && |evs| >= |before|
    && Marks(evs) == Marks(before) + (if alive then [pos] else [])
    && if alive then At(cfg, log, l0, env, evs, Local(pos + 1, Selecting))
       else evs == Behave(cfg, log, l0, env)
  }

  // The next attempt on the record at pos is due, and nothing was marked for it so far.
  ghost predicate Trying(cfg: Config, log: seq<Payload>, l0: Local, env: seq<Reply>,
                         before: seq<Event>, pos: nat, retries: nat, evs: seq<Event>)
  {
    At(cfg, log, l0, env, evs, Local(pos, Looking(retries))) && Marks(evs) == Marks(before) && |evs| >= |before|
  }

  datatype Outcome = Done | Failed | Died

  // One attempt: check whether the message is stored, insert it when it is not.
  // The process dies where the script ends.
  method HandleMessage(cfg: Config, log: seq<Payload>, ghost l0: Local, env: seq<Reply>,
                       before: seq<Event>, ghost l: Local)
    returns (outcome: Outcome, evs: seq<Event>)
    requires At(cfg, log, l0, env, before, l) && l.phase.Looking?
    ensures outcome == Died ==> evs == Behave(cfg, log, l0, env)
    ensures outcome == Done ==> At(cfg, log, l0, env, evs, l.(phase := Marking))
    ensures outcome == Failed ==>
              At(cfg, log, l0, env, evs, After(cfg, log, l.(phase := Creating(l.phase.retries)), Create(false)))
    ensures Marks(evs) == Marks(before) && |evs| >= |before|
  {
    evs := before;
    if |evs| == |env| {
      Finished(cfg, log, l0, env, evs, l);
      return Died, evs;
    }
    var result := LookupResultOf(env[|evs|]);
    Advance(cfg, log, l0, env, evs, l);
    MarksSnoc(evs, Lookup(result));
    evs := evs + [Lookup(result)];
    if result == Hit {
      return Done, evs;
    }
    ghost var l1 := l.(phase := Creating(l.phase.retries));
    if |evs| == |env| {
      Finished(cfg, log, l0, env, evs, l1);
      return Died, evs;
    }
    var created := env[|evs|] == Yes;
    Advance(cfg, log, l0, env, evs, l1);
    MarksSnoc(evs, Create(created));
    evs := evs + [Create(created)];
    return if created then Done else Failed, evs;
  }

  // Dead-letters the record in hand; a disabled or failing producer only logs.
  method SendToDlq(cfg: Config, log: seq<Payload>, ghost l0: Local, env: seq<Reply>,
                   before: seq<Event>, ghost l: Local, retryCount: nat)
    returns (alive: bool, evs: seq<Event>)
    requires At(cfg, log, l0, env, before, l) && l.phase == Burying(retryCount)
    ensures if alive then At(cfg, log, l0, env, evs, l.(phase := Marking))
            else evs == Behave(cfg, log, l0, env)
    ensures Marks(evs) == Marks(before) && |evs| >= |before|
  {
    evs := before;
    if |evs| == |env| {
      Finished(cfg, log, l0, env, evs, l);
      return false, evs;
    }
    Advance(cfg, log, l0, env, evs, l);
    var outcome;
    if !cfg.dlqEnabled {
      outcome := Disabled;
    } else if env[|evs|] == Yes {
      outcome := Sent;
    } else {
      outcome := SendFailed;
    }
    MarksSnoc(evs, Bury(retryCount, outcome));
    evs := evs + [Bury(retryCount, outcome)];
    return true, evs;
  }

  // Marks the record in hand.
  method MarkRecord(cfg: Config, session: ClaimSession, log: seq<Payload>, ghost l0: Local, env: seq<Reply>,
                    before: seq<Event>, pos: nat)
    returns (alive: bool, evs: seq<Event>)
    requires At(cfg, log, l0, env, before, Local(pos, Marking))
    modifies session
    ensures Progress(cfg, log, l0, env, before, pos, alive, evs)
    ensures session.marked == old(session.marked) + if alive then [pos] else []
  {
    evs := before;
    if |evs| == |env| {
      Finished(cfg, log, l0, env, evs, Local(pos, Marking));
      return false, evs;
    }
    Advance(cfg, log, l0, env, evs, Local(pos, Marking));
    MarksSnoc(evs, Mark(pos));
    session.MarkMessage(pos);
    evs := evs + [Mark(pos)];
    return true, evs;
  }

  // The select between cancellation and the backoff timer.
  method AwaitRetry(cfg: Config, log: seq<Payload>, ghost l0: Local, env: seq<Reply>,
                 before: seq<Event>, ghost pos: nat, retryCount: nat)
    returns (alive: bool, evs: seq<Event>)
    requires At(cfg, log, l0, env, before, Local(pos, BackingOff(retryCount)))
    ensures if alive then At(cfg, log, l0, env, evs, Local(pos, Looking(retryCount)))
            else evs == Behave(cfg, log, l0, env)
    ensures Marks(evs) == Marks(before) && |evs| >= |before|
  {
    evs := before;
    var delay := CalculateDelay(cfg.retry, retryCount - 1);
    if |evs| == |env| {
      Finished(cfg, log, l0, env, evs, Local(pos, BackingOff(retryCount)));
      return false, evs;
    }
    Advance(cfg, log, l0, env, evs, Local(pos, BackingOff(retryCount)));
    alive := env[|evs|] == Yes;
    var e := if alive then Wait(delay) else Return;
    MarksSnoc(evs, e);
    evs := evs + [e];
    if !alive {
      Finished(cfg, log, l0, env, evs, Local(pos, Returned));
    }
  }

  // The select between cancellation and the next record of the claim.
  method Receive(cfg: Config, log: seq<Payload>, ghost l0: Local, env: seq<Reply>,
                 before: seq<Event>, pos: nat)
    returns (alive: bool, evs: seq<Event>)
    requires At(cfg, log, l0, env, before, Local(pos, Selecting))
    ensures if alive then
              && pos < |log|
              && At(cfg, log, l0, env, evs, Local(pos, if log[pos].Malformed? then Burying(0) else Looking(0)))
            else evs == Behave(cfg, log, l0, env)
    ensures Marks(evs) == Marks(before) && (alive ==> |evs| > |before|)
  {
    evs := before;
    if |evs| == |env| {
      Finished(cfg, log, l0, env, evs, Local(pos, Selecting));
      return false, evs;
    }
    Advance(cfg, log, l0, env, evs, Local(pos, Selecting));
    alive := env[|evs|] == Yes && pos < |log|;
    var e := if alive then Fetch(pos) else Return;
    MarksSnoc(evs, e);
    evs := evs + [e];
    if !alive {
      Finished(cfg, log, l0, env, evs, Local(pos, Returned));
    }
  }

  // Gives up on the record in hand: dead-letter it, then mark it whatever came of that.
  method BuryRecord(cfg: Config, session: ClaimSession, log: seq<Payload>, ghost l0: Local, env: seq<Reply>,
                    before: seq<Event>, pos: nat, retryCount: nat)
    returns (alive: bool, evs: seq<Event>)
    requires At(cfg, log, l0, env, before, Local(pos, Burying(retryCount)))
    modifies session
    ensures Progress(cfg, log, l0, env, before, pos, alive, evs)
    ensures session.marked == old(session.marked) + if alive then [pos] else []
  {
    alive, evs := SendToDlq(cfg, log, l0, env, before, Local(pos, Burying(retryCount)), retryCount);
    if alive {
      alive, evs := MarkRecord(cfg, session, log, l0, env, evs, pos);
    }
  }

  // The retry loop of one decoded record, up to its mark.
  method ProcessRecord(cfg: Config, session: ClaimSession, log: seq<Payload>, ghost l0: Local, env: seq<Reply>,
                       before: seq<Event>, pos: nat)
    returns (alive: bool, evs: seq<Event>)
    requires At(cfg, log, l0, env, before, Local(pos, Looking(0)))
    modifies session
    ensures Progress(cfg, log, l0, env, before, pos, alive, evs)
    ensures session.marked == old(session.marked) + if alive then [pos] else []
  {
    alive, evs := true, before;
    var retryCount := 0;
    var maxRetries := cfg.retry.maxAttempts;
    while retryCount <= maxRetries
      invariant retryCount <= maxRetries ==>
                  Trying(cfg, log, l0, env, before, pos, retryCount, evs) && session.marked == old(session.marked)
      invariant retryCount > maxRetries ==>
                  && Progress(cfg, log, l0, env, before, pos, alive, evs)
                  && session.marked == old(session.marked) + if alive then [pos] else []
    {
      var outcome;
      outcome, evs := HandleMessage(cfg, log, l0, env, evs, Local(pos, Looking(retryCount)));
      if outcome == Died { return false, evs; }
      if outcome == Done {
        alive, evs := MarkRecord(cfg, session, log, l0, env, evs, pos);
        break;
      }
      retryCount := retryCount + 1;
      if retryCount <= maxRetries {
        alive, evs := AwaitRetry(cfg, log, l0, env, evs, pos, retryCount);
        if !alive { return; }
      } else {
        alive, evs := BuryRecord(cfg, session, log, l0, env, evs, pos, retryCount);
      }
    }
  }

  // The loop over a claim that starts at offset start. The script answers for the world:
  // the events are exactly those of the automaton, and every Mark event is one call of
  // MarkMessage on the session.
  method ConsumeClaim(cfg: Config, session: ClaimSession, claim: seq<Payload>, start: nat, env: seq<Reply>)
    returns (evs: seq<Event>)
    modifies session
    ensures evs == Behave(cfg, claim, Local(start, Selecting), env)
    ensures session.marked == old(session.marked) + Marks(evs)
  {
    ghost var l0 := Local(start, Selecting);
    var pos: nat := start;
    evs := [];
    Beginning(cfg, claim, l0, env);
    while true
      invariant At(cfg, claim, l0, env, evs, Local(pos, Selecting))
      invariant session.marked == old(session.marked) + Marks(evs)
      decreases |env| - |evs|
    {
      var alive;
      alive, evs := Receive(cfg, claim, l0, env, evs, pos);
      if !alive { return; }
      ghost var received := evs;
      if claim[pos].Malformed? {
        alive, evs := BuryRecord(cfg, session, claim, l0, env, evs, pos, 0);
      } else {
        alive, evs := ProcessRecord(cfg, session, claim, l0, env, evs, pos);
      }
      if !alive { return; }
      assert Progress(cfg, claim, l0, env, received, pos, true, evs);
      pos := pos + 1;
    }
  }
}
