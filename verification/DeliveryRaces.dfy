/** Two consumers on one record: the one that loses the race between lookup and insert. */
module DeliveryRaces {
  import opened Messages
  import opened Backoff
  import opened ConsumerLoop
  import opened Delivery
  import opened DeliverySafety

  predicate OfOthers(c: nat, acts: seq<Action>) {
    forall i :: 0 <= i < |acts| ==>
      !((acts[i].Step? || acts[i].Leave? || acts[i].Join?) && acts[i].session == c)
  }

  lemma GrowsTransitive(s: System, t: System, u: System)
    requires Grows(s, t) && Grows(t, u)
    ensures Grows(s, u)
  {
    forall p | 0 <= p < |s.logs| ensures s.logs[p] <= u.logs[p] {
      assert s.logs[p] <= t.logs[p] && t.logs[p] <= u.logs[p];
    }
  }

  lemma {:induction false} OthersLeaveSession(topo: Topology, s: System, c: nat, acts: seq<Action>)
    requires OfOthers(c, acts) && c in s.sessions && Run(topo, s, acts).Some?
    ensures var t := Run(topo, s, acts).value;
            Grows(s, t) && c in t.sessions && t.sessions[c] == s.sessions[c]
  {
    if acts != [] {
      var init, last := acts[..|acts| - 1], acts[|acts| - 1];
      OthersLeaveSession(topo, s, c, init);
      var t := Run(topo, s, init).value;
      StepGrows(topo, t, last);
      GrowsTransitive(s, t, Apply(topo, t, last));
    }
  }

  // Session c found no row, and by the time it inserts another consumer has stored one.
  ghost predicate LostRace(topo: Topology, s: System, c: nat) {
    && Inv(topo, s) && c in s.sessions
    && s.sessions[c].local.phase.Creating?
    && SessionOk(topo, s, s.sessions[c])
    && HasRow(s.rows, Current(s, c).m.msgID)
  }

  // The unique index refuses the insert; nothing is stored twice, and the attempt counts.
  // The record goes to the dead letter queue exactly when that was its last attempt.
  lemma LoserIsRefused(topo: Topology, s: System, c: nat, landed: bool)
    requires LostRace(topo, s, c)
    ensures !Enabled(topo, s, Step(c, Create(true), landed))
    ensures Enabled(topo, s, Step(c, Create(false), landed))
    ensures var t := Apply(topo, s, Step(c, Create(false), landed));
            var r := s.sessions[c].local.phase.retries;
            && t.rows == s.rows && t.dlq == s.dlq && t.fates == s.fates
            && t.sessions[c].local.pos == s.sessions[c].local.pos
            && (t.sessions[c].local.phase == Burying(r + 1) <==> r == topo.consumer.retry.maxAttempts)
            && (t.sessions[c].local.phase == BackingOff(r + 1) <==> r < topo.consumer.retry.maxAttempts)
  {}

  // Session c holds record m, which is stored, in the given phase.
  ghost predicate Holds(s: System, c: nat, ses: Session, m: MessageData) {
    && c in s.sessions && s.sessions[c] == ses
    && InLog(s, ses.partition, ses.local.pos)
    && s.logs[ses.partition][ses.local.pos] == Good(m)
    && HasRow(s.rows, m.msgID)
  }

  lemma HoldsUnderOthers(topo: Topology, s: System, c: nat, ses: Session, m: MessageData, acts: seq<Action>)
    requires Holds(s, c, ses, m) && OfOthers(c, acts) && Run(topo, s, acts).Some?
    ensures Holds(Run(topo, s, acts).value, c, ses, m)
  {
    OthersLeaveSession(topo, s, c, acts);
    assert s.logs[ses.partition] <= Run(topo, s, acts).value.logs[ses.partition];
  }

  lemma HoldsAfterWait(topo: Topology, s: System, c: nat, ses: Session, m: MessageData, r: nat)
    requires Holds(s, c, ses, m) && ses.local.phase == BackingOff(r + 1)
    ensures var wait := Step(c, Wait(Delay(topo.consumer.retry, r)), false);
            && Enabled(topo, s, wait)
            && Holds(Apply(topo, s, wait), c, ses.(local := Local(ses.local.pos, Looking(r + 1))), m)
  {}

  // Session c has settled the record at (p, o) of state s without touching the table or the
  // dead letter topic, and marks it next.
  ghost predicate SettledQuietly(s: System, t: System, c: nat, p: nat, o: nat) {
    && c in t.sessions && t.sessions[c].local == Local(o, Marking)
    && (p, o) in t.fates && t.rows == s.rows && t.dlq == s.dlq
  }

  // The next step of c is its lookup, and every lookup that does not fail settles the record.
  ghost predicate MustSettle(topo: Topology, s: System, c: nat, p: nat, o: nat) {
    && Enabled(topo, s, Step(c, Lookup(Hit), false))
    && forall e, landed :: Enabled(topo, s, Step(c, e, landed)) ==>
         e == Lookup(QueryFailed) || SettledQuietly(s, Apply(topo, s, Step(c, e, landed)), c, p, o)
  }

  lemma HoldsThenSettles(topo: Topology, s: System, c: nat, ses: Session, m: MessageData)
    requires Holds(s, c, ses, m) && ses.local.phase.Looking?
    ensures MustSettle(topo, s, c, ses.partition, ses.local.pos)
  {
    forall e, landed | Enabled(topo, s, Step(c, e, landed)) && e != Lookup(QueryFailed)
      ensures SettledQuietly(s, Apply(topo, s, Step(c, e, landed)), c, ses.partition, ses.local.pos)
    {
      assert e.Lookup? && Current(s, c) == Good(m) && Answerable(s, c, e);
      assert e.result != Miss;
    }
  }

  // With an attempt left the loser settles on the next one unless its query fails, whatever
  // everybody else does before the timer fires (before) and before the lookup (after).
  lemma LoserSettlesNext(topo: Topology, s: System, c: nat, landed: bool, before: seq<Action>, after: seq<Action>)
    requires LostRace(topo, s, c)
    requires s.sessions[c].local.phase.retries < topo.consumer.retry.maxAttempts
    requires OfOthers(c, before) && OfOthers(c, after)
    requires Enabled(topo, s, Step(c, Create(false), landed))
    requires Run(topo, Apply(topo, s, Step(c, Create(false), landed)), before).Some?
    ensures var wait := Step(c, Wait(Delay(topo.consumer.retry, s.sessions[c].local.phase.retries)), false);
            var t := Run(topo, Apply(topo, s, Step(c, Create(false), landed)), before).value;
            && Enabled(topo, t, wait)
            && (Run(topo, Apply(topo, t, wait), after).Some? ==>
                  MustSettle(topo, Run(topo, Apply(topo, t, wait), after).value, c,
                             s.sessions[c].partition, s.sessions[c].local.pos))
  {
    var ses := s.sessions[c];
    var r := ses.local.phase.retries;
    var m := Current(s, c).m;
    LoserIsRefused(topo, s, c, landed);
    var s1 := Apply(topo, s, Step(c, Create(false), landed));
    var ses1 := ses.(local := Local(ses.local.pos, BackingOff(r + 1)));
    assert Holds(s1, c, ses1, m);
    HoldsUnderOthers(topo, s1, c, ses1, m, before);
    var t := Run(topo, s1, before).value;
    HoldsAfterWait(topo, t, c, ses1, m, r);
    var t1 := Apply(topo, t, Step(c, Wait(Delay(topo.consumer.retry, r)), false));
    if Run(topo, t1, after).Some? {
      var ses2 := ses.(local := Local(ses.local.pos, Looking(r + 1)));
      HoldsUnderOthers(topo, t1, c, ses2, m, after);
      HoldsThenSettles(topo, Run(topo, t1, after).value, c, ses2, m);
    }
  }

  // ----- over any schedule -----

  // Session c does not leave, and none of its queries fails.
  predicate QueriesWork(c: nat, acts: seq<Action>) {
    forall i :: 0 <= i < |acts| ==> QueryWorks(c, acts[i])
  }

  predicate QueryWorks(c: nat, a: Action) {
    !((a.Leave? || a.Join?) && a.session == c) && !(a.Step? && a.session == c && a.event == Lookup(QueryFailed))
  }

  // The record at (p, o) is stored, and c has marked it or is on its way to: inserting in
  // its attempt r, waiting for or making the next one, marking, or cancelled.
  ghost predicate OnItsWay(s: System, c: nat, p: nat, o: nat, r: nat) {
    && InLog(s, p, o) && s.logs[p][o].Good? && HasRow(s.rows, s.logs[p][o].m.msgID)
    && c in s.sessions && s.sessions[c].partition == p
    && var l := s.sessions[c].local;
       l.pos > o || (l.pos == o && l.phase in {Creating(r), BackingOff(r + 1), Looking(r + 1), Marking, Returned})
  }

  lemma StepStaysOnWay(topo: Topology, s: System, a: Action, c: nat, p: nat, o: nat, r: nat)
    requires OnItsWay(s, c, p, o, r) && r < topo.consumer.retry.maxAttempts
    requires Enabled(topo, s, a) && QueryWorks(c, a)
    ensures OnItsWay(Apply(topo, s, a), c, p, o, r)
  {
    StepGrows(topo, s, a);
    assert s.logs[p] <= Apply(topo, s, a).logs[p];
  }

  // So a consumer that loses the race with an attempt left never dead-letters the record:
  // in every schedule in which it stays and its queries work, it has marked the record or
  // is still on its way to.
  lemma {:induction false} LoserNeverBuries(topo: Topology, s: System, c: nat, acts: seq<Action>)
    requires LostRace(topo, s, c)
    requires s.sessions[c].local.phase.retries < topo.consumer.retry.maxAttempts
    requires Run(topo, s, acts).Some? && QueriesWork(c, acts)
    ensures OnItsWay(Run(topo, s, acts).value, c, s.sessions[c].partition, s.sessions[c].local.pos,
                     s.sessions[c].local.phase.retries)
  {
    var p, o, r := s.sessions[c].partition, s.sessions[c].local.pos, s.sessions[c].local.phase.retries;
    if acts == [] {
      assert OnItsWay(s, c, p, o, r);
    } else {
      var init, last := acts[..|acts| - 1], acts[|acts| - 1];
      LoserNeverBuries(topo, s, c, init);
      StepStaysOnWay(topo, Run(topo, s, init).value, last, c, p, o, r);
    }
  }
}
