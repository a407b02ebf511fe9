/** The invariant of the delivery pipeline, kept by every action. */
module DeliverySafety {
  import opened Basics
  import opened Messages
  import opened ConsumerLoop
  import opened Delivery

  ghost predicate InLog(s: System, p: nat, o: nat) {
    p < |s.logs| && o < |s.logs[p]|
  }

  ghost predicate SendsOk(topo: Topology, s: System) {
    forall id :: id in s.sends ==>
      && s.sends[id].m.msgID == id
      && (s.sends[id].phase == Accepted ==> Kept(topo, s, s.sends[id].m))
  }

  // The message is in the table or on its partition's log.
  ghost predicate Kept(topo: Topology, s: System, m: MessageData) {
    || HasRow(s.rows, m.msgID)
    || (topo.partitions > 0
        && var p := PartitionOf(topo, m.conversationID);
           p < |s.logs| && Good(m) in s.logs[p])
  }

  ghost predicate Known(s: System, m: MessageData) {
    m.msgID in s.sends && s.sends[m.msgID].m == m
  }

  ghost predicate LogsOk(topo: Topology, s: System) {
    && |s.logs| == topo.partitions
    && forall p: nat, o: nat :: InLog(s, p, o) && s.logs[p][o].Good? ==>
         Known(s, s.logs[p][o].m) && PartitionOf(topo, s.logs[p][o].m.conversationID) == p
  }

  ghost predicate RowOk(s: System, i: nat)
    requires i < |s.rows|
  {
    var r := s.rows[i];
    && r.id == i + 1
    && r.msgID in s.sends
    && Content(r) == Content(RowOf(s.sends[r.msgID].m, 0))
  }

  ghost predicate RowsOk(s: System) {
    && (forall i :: 0 <= i < |s.rows| ==> RowOk(s, i))
    && (forall i, j :: 0 <= i < j < |s.rows| ==> s.rows[i].msgID != s.rows[j].msgID)
  }

  ghost predicate InDlq(s: System, payload: Payload) {
    exists k :: 0 <= k < |s.dlq| && s.dlq[k].payload == payload
  }

  ghost predicate FateTrue(topo: Topology, s: System, payload: Payload, fate: Fate) {
    match fate
    case Stored => payload.Good? && HasRow(s.rows, payload.m.msgID)
    case AlreadyStored => payload.Good? && HasRow(s.rows, payload.m.msgID)
    case DeadLettered => topo.consumer.dlqEnabled && InDlq(s, payload)
    case DroppedDlqOff => !topo.consumer.dlqEnabled
    case DroppedSendFailed => topo.consumer.dlqEnabled
  }

  ghost predicate FatesOk(topo: Topology, s: System) {
    forall p: nat, o: nat :: (p, o) in s.fates ==>
      InLog(s, p, o) && FateTrue(topo, s, s.logs[p][o], s.fates[(p, o)])
  }

  // Dead letters carry the full attempt count, or none for an undecodable record.
  ghost predicate DlqOk(topo: Topology, s: System) {
    forall k :: 0 <= k < |s.dlq| ==>
      s.dlq[k].retries == if s.dlq[k].payload.Good? then topo.consumer.retry.maxAttempts + 1 else 0
  }

  ghost predicate SettledBelow(s: System, p: nat, upto: nat) {
    forall o: nat :: o < upto ==> (p, o) in s.fates
  }

  ghost predicate SessionOk(topo: Topology, s: System, ses: Session) {
    && ses.partition < |s.logs|
    && LocalOk(topo.consumer, s.logs[ses.partition], ses.local)
    && ses.start <= ses.local.pos
    && (forall o: nat :: o in ses.marks <==> ses.start <= o < ses.local.pos)
    && SettledBelow(s, ses.partition, ses.local.pos)
    && (ses.local.phase.Marking? ==> (ses.partition, ses.local.pos) in s.fates)
  }

  ghost predicate SessionsOk(topo: Topology, s: System) {
    forall c :: c in s.sessions ==> SessionOk(topo, s, s.sessions[c])
  }

  ghost predicate CommittedOk(s: System) {
    && |s.committed| == |s.logs|
    && forall p :: 0 <= p < |s.committed| ==> s.committed[p] <= |s.logs[p]| && SettledBelow(s, p, s.committed[p])
  }

  ghost predicate Inv(topo: Topology, s: System) {
    && SendsOk(topo, s)
    && LogsOk(topo, s)
    && RowsOk(s)
    && FatesOk(topo, s)
    && DlqOk(topo, s)
    && SessionsOk(topo, s)
    && CommittedOk(s)
  }

  lemma InitInv(topo: Topology)
    ensures Inv(topo, Init(topo))
  {}

  // ----- what no action takes back -----

  ghost predicate Grows(s: System, t: System) {
    && |s.logs| == |t.logs|
    && (forall p :: 0 <= p < |s.logs| ==> s.logs[p] <= t.logs[p])
    && (forall id :: id in s.sends ==> id in t.sends && t.sends[id].m == s.sends[id].m)
    && (forall id :: HasRow(s.rows, id) ==> HasRow(t.rows, id))
    && s.dlq <= t.dlq
    && (forall k :: k in s.fates ==> k in t.fates && t.fates[k] == s.fates[k])
  }

  lemma StepGrows(topo: Topology, s: System, a: Action)
    requires Enabled(topo, s, a)
    ensures Grows(s, Apply(topo, s, a))
  {
    match a
    case SaveDirect(id, _, _) => InsertHas(s.rows, s.sends[id].m);
    case SetStatus(id, status) => UpdateStatusHas(s.rows, id, status);
    case Step(c, e, landed) =>
      var ses := s.sessions[c];
      var log := s.logs[ses.partition];
      if ses.local.pos < |log| && log[ses.local.pos].Good? {
        InsertHas(s.rows, log[ses.local.pos].m);
      }
    case _ =>
  }

  lemma GrowsKeepsKept(topo: Topology, s: System, t: System, m: MessageData)
    requires Grows(s, t) && Kept(topo, s, m)
    ensures Kept(topo, t, m)
  {
    if !HasRow(s.rows, m.msgID) {
      var p := PartitionOf(topo, m.conversationID);
      var o :| 0 <= o < |s.logs[p]| && s.logs[p][o] == Good(m);
      assert s.logs[p] <= t.logs[p];
      assert t.logs[p][o] == Good(m);
    }
  }

  lemma GrowsKeepsFate(topo: Topology, s: System, t: System, payload: Payload, fate: Fate)
    requires Grows(s, t) && FateTrue(topo, s, payload, fate)
    ensures FateTrue(topo, t, payload, fate)
  {
    if fate == DeadLettered {
      var k :| 0 <= k < |s.dlq| && s.dlq[k].payload == payload;
      assert t.dlq[k].payload == payload;
    }
  }

  lemma SendsKept(topo: Topology, s: System, a: Action)
    requires Inv(topo, s) && Enabled(topo, s, a)
    ensures SendsOk(topo, Apply(topo, s, a))
  {
    var t := Apply(topo, s, a);
    StepGrows(topo, s, a);
    forall id | id in t.sends
      ensures t.sends[id].m.msgID == id
      ensures t.sends[id].phase == Accepted ==> Kept(topo, t, t.sends[id].m)
    {
      if id in s.sends && s.sends[id].phase == Accepted {
        GrowsKeepsKept(topo, s, t, s.sends[id].m);
      }
      if a.SaveDirect? && a.ok { InsertHas(s.rows, s.sends[a.id].m); }
    }
  }

  lemma LogsKept(topo: Topology, s: System, a: Action)
    requires Inv(topo, s) && Enabled(topo, s, a)
    ensures LogsOk(topo, Apply(topo, s, a))
  {}

  lemma InsertRowsOk(s: System, m: MessageData)
    requires RowsOk(s) && Known(s, m)
    ensures RowsOk(s.(rows := Insert(s.rows, m)))
  {
    var t := s.(rows := Insert(s.rows, m));
    forall i | 0 <= i < |t.rows| ensures RowOk(t, i) {
      if i < |s.rows| { assert RowOk(s, i); }
    }
  }

  lemma RowsKept(topo: Topology, s: System, a: Action)
    requires Inv(topo, s) && Enabled(topo, s, a)
    ensures RowsOk(Apply(topo, s, a))
  {
    var t := Apply(topo, s, a);
    StepGrows(topo, s, a);
    if a.SaveDirect? && a.landed {
      InsertRowsOk(s, s.sends[a.id].m);
      assert t.rows == Insert(s.rows, s.sends[a.id].m);
    }
    if a.Step? && t.rows != s.rows {
      var ses := s.sessions[a.session];
      assert InLog(s, ses.partition, ses.local.pos);
      InsertRowsOk(s, s.logs[ses.partition][ses.local.pos].m);
      assert t.rows == Insert(s.rows, s.logs[ses.partition][ses.local.pos].m);
    }
    var u := s.(rows := if a.SetStatus? then s.rows else t.rows);
    assert RowsOk(u);
    forall i | 0 <= i < |t.rows| ensures RowOk(t, i) {
      assert RowOk(u, i);
    }
    forall i, j | 0 <= i < j < |t.rows| ensures t.rows[i].msgID != t.rows[j].msgID {
      assert u.rows[i].msgID != u.rows[j].msgID;
    }
  }

  lemma FatesKept(topo: Topology, s: System, a: Action)
    requires Inv(topo, s) && Enabled(topo, s, a)
    ensures FatesOk(topo, Apply(topo, s, a))
  {
    var t := Apply(topo, s, a);
    StepGrows(topo, s, a);
    forall p: nat, o: nat | (p, o) in t.fates
      ensures InLog(t, p, o) && FateTrue(topo, t, t.logs[p][o], t.fates[(p, o)])
    {
      if (p, o) in s.fates {
        assert InLog(s, p, o);
        assert s.logs[p] <= t.logs[p];
        GrowsKeepsFate(topo, s, t, s.logs[p][o], s.fates[(p, o)]);
      } else {
        NewFateTrue(topo, s, a.session, a.event, a.landed, p, o);
      }
    }
  }

  lemma NewFateTrue(topo: Topology, s: System, c: nat, e: Event, landed: bool, p: nat, o: nat)
    requires Inv(topo, s) && Enabled(topo, s, Step(c, e, landed))
    requires (p, o) !in s.fates && (p, o) in AfterStep(topo, s, c, e, landed).fates
    ensures var t := AfterStep(topo, s, c, e, landed);
            InLog(t, p, o) && FateTrue(topo, t, t.logs[p][o], t.fates[(p, o)])
  {
    var t := AfterStep(topo, s, c, e, landed);
    var ses := s.sessions[c];
    assert SessionOk(topo, s, ses);
    assert (p, o) == (ses.partition, ses.local.pos) && InLog(s, p, o);
    var payload := s.logs[p][o];
    if e == Create(true) { InsertHas(s.rows, payload.m); }
    if e.Bury? && e.outcome == Sent { assert t.dlq[|s.dlq|].payload == payload; }
  }

  lemma DlqKept(topo: Topology, s: System, a: Action)
    requires Inv(topo, s) && Enabled(topo, s, a)
    ensures DlqOk(topo, Apply(topo, s, a))
  {
    if a.Step? && a.event.Bury? {
      assert SessionOk(topo, s, s.sessions[a.session]);
    }
  }

  lemma GrowsKeepsSession(topo: Topology, s: System, t: System, ses: Session)
    requires Grows(s, t) && SessionOk(topo, s, ses)
    ensures SessionOk(topo, t, ses)
  {
    assert s.logs[ses.partition] <= t.logs[ses.partition];
  }

  lemma SessionsKept(topo: Topology, s: System, a: Action)
    requires Inv(topo, s) && Enabled(topo, s, a)
    ensures SessionsOk(topo, Apply(topo, s, a))
  {
    var t := Apply(topo, s, a);
    StepGrows(topo, s, a);
    forall c | c in t.sessions ensures SessionOk(topo, t, t.sessions[c]) {
      if a.Step? && a.session == c {
        SteppedSessionOk(topo, s, c, a.event, a.landed);
      } else if !(a.Join? && a.session == c) {
        GrowsKeepsSession(topo, s, t, s.sessions[c]);
      }
    }
  }

  lemma SteppedSessionOk(topo: Topology, s: System, c: nat, e: Event, landed: bool)
    requires Inv(topo, s) && Enabled(topo, s, Step(c, e, landed))
    ensures var t := AfterStep(topo, s, c, e, landed); SessionOk(topo, t, t.sessions[c])
  {
    var t := AfterStep(topo, s, c, e, landed);
    var ses := s.sessions[c];
    assert SessionOk(topo, s, ses);
    AfterKeepsLocalOk(topo.consumer, s.logs[ses.partition], ses.local, e);
  }

  lemma CommittedKept(topo: Topology, s: System, a: Action)
    requires Inv(topo, s) && Enabled(topo, s, a)
    ensures CommittedOk(Apply(topo, s, a))
  {
    var t := Apply(topo, s, a);
    StepGrows(topo, s, a);
    forall p | 0 <= p < |t.committed|
      ensures t.committed[p] <= |t.logs[p]| && SettledBelow(t, p, t.committed[p])
    {
      assert s.logs[p] <= t.logs[p];
      if a.Commit? {
        assert SessionOk(topo, s, s.sessions[a.session]);
      }
    }
  }

  lemma StepKeepsInv(topo: Topology, s: System, a: Action)
    requires Inv(topo, s) && Enabled(topo, s, a)
    ensures Inv(topo, Apply(topo, s, a))
  {
    SendsKept(topo, s, a);
    LogsKept(topo, s, a);
    RowsKept(topo, s, a);
    FatesKept(topo, s, a);
    DlqKept(topo, s, a);
    SessionsKept(topo, s, a);
    CommittedKept(topo, s, a);
  }

  // The invariant holds in every state of every schedule.
  lemma {:induction false} RunKeepsInv(topo: Topology, s: System, acts: seq<Action>)
    requires Inv(topo, s) && Run(topo, s, acts).Some?
    ensures Inv(topo, Run(topo, s, acts).value)
  {
    if acts != [] {
      RunKeepsInv(topo, s, acts[..|acts| - 1]);
      StepKeepsInv(topo, Run(topo, s, acts[..|acts| - 1]).value, acts[|acts| - 1]);
    }
  }

  lemma ReachableInv(topo: Topology, s: System)
    requires Reachable(topo, s)
    ensures Inv(topo, s)
  {
    var acts :| Run(topo, Init(topo), acts) == Some(s);
    InitInv(topo);
    RunKeepsInv(topo, Init(topo), acts);
  }
}
