/** Conservation of accepted messages, and when it fails. */
module DeliveryTheorems {
  import opened Basics
  import opened Messages
  import opened ConsumerLoop
  import opened Delivery
  import opened DeliverySafety

  ghost predicate StoredMessage(s: System, m: MessageData) {
    exists i :: 0 <= i < |s.rows| && s.rows[i].msgID == m.msgID && Content(s.rows[i]) == Content(RowOf(m, 0))
  }

  // A copy on the log that nobody settled; it lies at or above the committed offset and
  // above every mark, so whoever resumes the partition reads it again.
  ghost predicate AwaitsAt(s: System, m: MessageData, p: nat, o: nat) {
    && InLog(s, p, o) && s.logs[p][o] == Good(m) && (p, o) !in s.fates
    && p < |s.committed| && s.committed[p] <= o
    && forall c :: c in s.sessions && s.sessions[c].partition == p ==>
         s.sessions[c].local.pos <= o && o !in s.sessions[c].marks
  }

  ghost predicate Awaits(s: System, m: MessageData) {
    exists p: nat, o: nat :: AwaitsAt(s, m, p, o)
  }

  // A copy that was marked although the dead letter queue did not take it.
  ghost predicate DroppedAt(topo: Topology, s: System, m: MessageData, p: nat, o: nat) {
    && InLog(s, p, o) && s.logs[p][o] == Good(m) && (p, o) in s.fates
    && s.fates[(p, o)] == if topo.consumer.dlqEnabled then DroppedSendFailed else DroppedDlqOff
  }

  ghost predicate Lost(s: System, m: MessageData) {
    !StoredMessage(s, m) && !Awaits(s, m) && !InDlq(s, Good(m))
  }

  lemma HasRowIsStored(s: System, m: MessageData)
    requires RowsOk(s) && Known(s, m) && HasRow(s.rows, m.msgID)
    ensures StoredMessage(s, m)
  {
    var i :| 0 <= i < |s.rows| && s.rows[i].msgID == m.msgID;
    assert RowOk(s, i);
  }

  lemma UnsettledAwaits(topo: Topology, s: System, m: MessageData, p: nat, o: nat)
    requires Inv(topo, s)
    requires InLog(s, p, o) && s.logs[p][o] == Good(m) && (p, o) !in s.fates
    ensures AwaitsAt(s, m, p, o)
  {
    assert SettledBelow(s, p, s.committed[p]);
    forall c | c in s.sessions && s.sessions[c].partition == p
      ensures s.sessions[c].local.pos <= o && o !in s.sessions[c].marks
    {
      assert SessionOk(topo, s, s.sessions[c]);
    }
  }

  // Conservation: in every reachable state an accepted message is stored with its
  // content, waits on the log, or is in the dead letter topic; otherwise a record of it
  // was dropped because the queue was off or refused it.
  lemma Conservation(topo: Topology, s: System, id: string)
    requires Reachable(topo, s)
    requires id in s.sends && s.sends[id].phase == Accepted
    ensures var m := s.sends[id].m;
            Lost(s, m) ==> exists p: nat, o: nat :: DroppedAt(topo, s, m, p, o)
  {
    ReachableInv(topo, s);
    var m := s.sends[id].m;
    if HasRow(s.rows, m.msgID) {
      HasRowIsStored(s, m);
    } else {
      var p := PartitionOf(topo, m.conversationID);
      var o :| 0 <= o < |s.logs[p]| && s.logs[p][o] == Good(m);
      if (p, o) !in s.fates {
        UnsettledAwaits(topo, s, m, p, o);
      } else {
        assert FateTrue(topo, s, s.logs[p][o], s.fates[(p, o)]);
        if s.fates[(p, o)] != DeadLettered {
          assert DroppedAt(topo, s, m, p, o);
        }
      }
    }
  }

  // When a message is lost: it has no row, is not in the queue, and every copy of it on the
  // log was dropped at its offset.
  lemma LostIff(topo: Topology, s: System, id: string)
    requires Reachable(topo, s) && id in s.sends
    ensures var m := s.sends[id].m;
            Lost(s, m) <==>
              && !HasRow(s.rows, id) && !InDlq(s, Good(m))
              && forall p: nat, o: nat :: InLog(s, p, o) && s.logs[p][o] == Good(m) ==> DroppedAt(topo, s, m, p, o)
  {
    ReachableInv(topo, s);
    var m := s.sends[id].m;
    if Lost(s, m) {
      if HasRow(s.rows, id) { HasRowIsStored(s, m); }
      forall p: nat, o: nat | InLog(s, p, o) && s.logs[p][o] == Good(m) ensures DroppedAt(topo, s, m, p, o) {
        if (p, o) !in s.fates { UnsettledAwaits(topo, s, m, p, o); }
        assert FateTrue(topo, s, s.logs[p][o], s.fates[(p, o)]);
      }
    }
    if StoredMessage(s, m) {
      var i :| 0 <= i < |s.rows| && s.rows[i].msgID == m.msgID && Content(s.rows[i]) == Content(RowOf(m, 0));
      assert HasRow(s.rows, id);
    }
    if Awaits(s, m) {
      var p: nat, o: nat :| AwaitsAt(s, m, p, o);
      assert !DroppedAt(topo, s, m, p, o);
    }
  }

  // With the queue on and no dead letter refused so far, nothing accepted is lost.
  lemma NothingLostWhileDlqWorks(topo: Topology, s: System, id: string)
    requires Reachable(topo, s) && topo.consumer.dlqEnabled
    requires forall k :: k in s.fates ==> s.fates[k] != DroppedSendFailed
    requires id in s.sends && s.sends[id].phase == Accepted
    ensures !Lost(s, s.sends[id].m)
  {
    Conservation(topo, s, id);
  }

  // However often messages are redelivered or sent twice: one row per message id, holding
  // what its sender built.
  lemma OneRowPerMessage(topo: Topology, s: System)
    requires Reachable(topo, s)
    ensures forall i, j :: 0 <= i < j < |s.rows| ==> s.rows[i].msgID != s.rows[j].msgID
    ensures forall i :: 0 <= i < |s.rows| ==>
              && s.rows[i].msgID in s.sends
              && Content(s.rows[i]) == Content(RowOf(s.sends[s.rows[i].msgID].m, 0))
    ensures forall i :: 0 <= i < |s.rows| ==>
              var row, m := s.rows[i], s.sends[s.rows[i].msgID].m;
              && row.msgID == m.msgID && row.conversationID == m.conversationID
              && row.fromUserID == m.fromUserID && row.toUserID == m.toUserID && row.groupID == m.groupID
              && row.content == m.content && row.contentType == m.contentType
              && row.clientTS == m.clientTS && row.serverTS == m.serverTS
  {
    ReachableInv(topo, s);
    forall i | 0 <= i < |s.rows|
      ensures s.rows[i].msgID in s.sends && Content(s.rows[i]) == Content(RowOf(s.sends[s.rows[i].msgID].m, 0))
    {
      assert RowOk(s, i);
    }
  }

  // Everything below a committed offset, and everything marked, was settled: stored,
  // found stored, dead-lettered, or knowingly dropped. The record in hand is unmarked.
  lemma MarkedMeansSettled(topo: Topology, s: System, c: nat)
    requires Reachable(topo, s) && c in s.sessions
    ensures var ses := s.sessions[c];
            && (forall o: nat :: o in ses.marks <==> ses.start <= o < ses.local.pos)
            && ses.partition < |s.logs|
            && forall o: nat :: o < ses.local.pos ==>
                 && InLog(s, ses.partition, o) && (ses.partition, o) in s.fates
                 && FateTrue(topo, s, s.logs[ses.partition][o], s.fates[(ses.partition, o)])
  {
    ReachableInv(topo, s);
    assert SessionOk(topo, s, s.sessions[c]);
  }

  lemma CommittedMeansSettled(topo: Topology, s: System, p: nat, o: nat)
    requires Reachable(topo, s) && p < |s.committed| && o < s.committed[p]
    ensures InLog(s, p, o) && (p, o) in s.fates
    ensures FateTrue(topo, s, s.logs[p][o], s.fates[(p, o)])
  {
    ReachableInv(topo, s);
    assert SettledBelow(s, p, s.committed[p]);
  }

  // ----- sessions run the consume loop -----

  lemma {:induction false} EndOnLongerLog(cfg: Config, log: seq<Payload>, more: seq<Payload>, l: Local, evs: seq<Event>)
    requires log <= more && Accepts(cfg, log, l, evs)
    ensures End(cfg, more, l, evs) == End(cfg, log, l, evs)
  {
    if evs != [] {
      EndOnLongerLog(cfg, log, more, l, evs[..|evs| - 1]);
    }
  }

  ghost predicate Followed(topo: Topology, s: System, ses: Session, evs: seq<Event>) {
    && ses.partition < |s.logs|
    && End(topo.consumer, s.logs[ses.partition], Local(ses.start, Selecting), evs) == Some(ses.local)
    && (forall o :: o in ses.marks <==> o in Marks(evs))
  }

  ghost predicate Traced(topo: Topology, s: System) {
    forall c :: c in s.sessions ==> exists evs :: Followed(topo, s, s.sessions[c], evs)
  }

  lemma StepKeepsTraced(topo: Topology, s: System, a: Action)
    requires Traced(topo, s) && Enabled(topo, s, a)
    ensures Traced(topo, Apply(topo, s, a))
  {
    var t := Apply(topo, s, a);
    StepGrows(topo, s, a);
    forall c | c in t.sessions ensures exists evs :: Followed(topo, t, t.sessions[c], evs) {
      if a.Join? && a.session == c {
        assert Followed(topo, t, t.sessions[c], []);
      } else {
        var ses := s.sessions[c];
        var evs :| Followed(topo, s, ses, evs);
        if a.Step? && a.session == c {
          var next := evs + [a.event];
          assert next[..|evs|] == evs;
          MarksSnoc(evs, a.event);
          assert Followed(topo, t, t.sessions[c], next);
        } else {
          EndOnLongerLog(topo.consumer, s.logs[ses.partition], t.logs[ses.partition], Local(ses.start, Selecting), evs);
          assert Followed(topo, t, ses, evs);
        }
      }
    }
  }

  lemma {:induction false} RunKeepsTraced(topo: Topology, acts: seq<Action>)
    requires Run(topo, Init(topo), acts).Some?
    ensures Traced(topo, Run(topo, Init(topo), acts).value)
  {
    if acts != [] {
      RunKeepsTraced(topo, acts[..|acts| - 1]);
      StepKeepsTraced(topo, Run(topo, Init(topo), acts[..|acts| - 1]).value, acts[|acts| - 1]);
    }
  }

  // In every reachable state every session is where ConsumeClaim stands after some script
  // of answers, with the same offsets marked.
  lemma SessionsRunConsumeClaim(topo: Topology, s: System, c: nat)
    requires Reachable(topo, s) && c in s.sessions
    ensures var ses := s.sessions[c];
            && ses.partition < |s.logs|
            && exists env ::
                 var evs := Behave(topo.consumer, s.logs[ses.partition], Local(ses.start, Selecting), env);
                 && End(topo.consumer, s.logs[ses.partition], Local(ses.start, Selecting), evs) == Some(ses.local)
                 && forall o :: o in ses.marks <==> o in Marks(evs)
  {
    var acts :| Run(topo, Init(topo), acts) == Some(s);
    RunKeepsTraced(topo, acts);
    var ses := s.sessions[c];
    var evs :| Followed(topo, s, ses, evs);
    AutomatonIsBehaviour(topo.consumer, s.logs[ses.partition], Local(ses.start, Selecting), evs);
    assert Behave(topo.consumer, s.logs[ses.partition], Local(ses.start, Selecting), Answers(evs)) == evs;
  }
}
