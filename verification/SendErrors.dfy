/** What an error answered to a sender says about the message: nothing of it is left only
    when nothing landed anywhere, and every deployment has a run in which the message is
    stored behind the error. */
module SendErrors {
  import opened Basics
  import opened Messages
  import opened ConsumerLoop
  import opened Delivery
  import opened DeliverySafety
  import opened DeliveryTheorems
  import opened DeliveryLoss
  import opened Sender

  // ----- one call -----

  // Publish answers with an error.
  predicate Refused(rows: seq<Message>, m: MessageData, kafka: bool, broker: BrokerReply, db: DbReply) {
    !(kafka && broker.Acked?) && !(db == Works && !HasRow(rows, m.msgID))
  }

  // Neither the table afterwards nor the records the call appended hold the message.
  predicate LeavesNothing(rows: seq<Message>, m: MessageData, kafka: bool, broker: BrokerReply, db: DbReply) {
    && !HasRow(RowsAfter(rows, m, kafka, broker, db), m.msgID)
    && Good(m) !in Repeat(Good(m), if kafka then Copies(broker) else 0)
  }

  lemma {:induction false} RepeatHolds<T>(x: T, n: nat)
    ensures x in Repeat(x, n) <==> n > 0
  {
    if n > 0 { assert Repeat(x, n)[|Repeat(x, n)| - 1] == x; }
  }

  // An error means that nothing of the message is left exactly when it was not stored
  // before, the insert failed before storing, and the broker kept no copy.
  lemma ErrorIsTruthfulIff(rows: seq<Message>, m: MessageData, kafka: bool, broker: BrokerReply, db: DbReply)
    requires Refused(rows, m, kafka, broker, db)
    ensures LeavesNothing(rows, m, kafka, broker, db)
       <==> !HasRow(rows, m.msgID) && db == FailsBefore && (kafka ==> Copies(broker) == 0)
  {
    InsertHas(rows, m);
    RepeatHolds(Good(m), if kafka then Copies(broker) else 0);
  }

  // ----- in the running pipeline -----

  // The sender's refused save: the message is stored exactly when somebody stored it before
  // or the refused insert landed; and once it is stored the sender cannot answer success.
  lemma ErrorAlthoughStored(topo: Topology, s: System, id: string, landed: bool)
    requires Reachable(topo, s)
    requires id in s.sends && s.sends[id].phase == Saving
    ensures Enabled(topo, s, SaveDirect(id, false, landed))
    ensures var t := Apply(topo, s, SaveDirect(id, false, landed));
            t.sends[id].phase == Rejected && (StoredMessage(t, t.sends[id].m) <==> HasRow(s.rows, id) || landed)
    ensures HasRow(s.rows, id) ==> forall l :: !Enabled(topo, s, SaveDirect(id, true, l))
  {
    var t := Apply(topo, s, SaveDirect(id, false, landed));
    var m := s.sends[id].m;
    ReachableInv(topo, s);
    InsertHas(s.rows, m);
    StepKeepsInv(topo, s, SaveDirect(id, false, landed));
    if HasRow(t.rows, id) {
      HasRowIsStored(t, m);
    }
  }

  ghost predicate StoredBehindError(topo: Topology, s: System, m: MessageData) {
    Reachable(topo, s) && m.msgID in s.sends && s.sends[m.msgID] == Send(m, Rejected) && StoredMessage(s, m)
  }

  // The insert lands although it is reported as failed: with or without Kafka.
  lemma SavedBehindError(topo: Topology) returns (s: System)
    ensures StoredBehindError(topo, s, Sample())
  {
    var m := Sample();
    s := Init(topo);
    assert Run(topo, Init(topo), []) == Some(s);
    ReachableStep(topo, s, Begin(m));
    s := Apply(topo, s, Begin(m));
    if topo.kafka {
      ReachableStep(topo, s, Produced(m.msgID, false));
      s := Apply(topo, s, Produced(m.msgID, false));
    }
    ErrorAlthoughStored(topo, s, m.msgID, true);
    ReachableStep(topo, s, SaveDirect(m.msgID, false, true));
    s := Apply(topo, s, SaveDirect(m.msgID, false, true));
  }

  // The sample record is appended but not acknowledged, and a session is at it.
  ghost predicate Unacknowledged(topo: Topology, s: System, phase: Phase) {
    var m := Sample();
    && Reachable(topo, s) && topo.partitions > 0
    && var p := PartitionOf(topo, m.conversationID);
       && p < |s.logs| && s.logs[p] == [Good(m)]
       && m.msgID in s.sends && s.sends[m.msgID] == Send(m, Saving)
       && 0 in s.sessions && s.sessions[0].partition == p && s.sessions[0].local == Local(0, phase)
       && s.rows == [] && s.direct == {}
  }

  lemma UnacknowledgedRun(topo: Topology) returns (s: System)
    requires topo.kafka && topo.partitions > 0
    ensures Unacknowledged(topo, s, Looking(0))
  {
    var m := Sample();
    var p := PartitionOf(topo, m.conversationID);
    s := Init(topo);
    assert Run(topo, Init(topo), []) == Some(s);
    ReachableStep(topo, s, Begin(m));
    s := Apply(topo, s, Begin(m));
    ReachableStep(topo, s, Append(m));
    s := Apply(topo, s, Append(m));
    assert s.logs[p] == [Good(m)];
    ReachableStep(topo, s, Produced(m.msgID, false));
    s := Apply(topo, s, Produced(m.msgID, false));
    ReachableStep(topo, s, Join(0, p, 0));
    s := Apply(topo, s, Join(0, p, 0));
    ReachableStep(topo, s, Step(0, Fetch(0), false));
    s := Apply(topo, s, Step(0, Fetch(0), false));
  }

  // The producer reports an error for a record that was appended, and a consumer stores it
  // before the sender falls back: no insert has to misreport for this.
  lemma ConsumedBehindError(topo: Topology) returns (s: System)
    requires topo.kafka && topo.partitions > 0
    ensures StoredBehindError(topo, s, Sample()) && s.direct == {}
  {
    var m := Sample();
    s := UnacknowledgedRun(topo);
    ReachableStep(topo, s, Step(0, Lookup(Miss), false));
    s := Apply(topo, s, Step(0, Lookup(Miss), false));
    assert Unacknowledged(topo, s, Creating(0));
    ReachableStep(topo, s, Step(0, Create(true), false));
    s := Apply(topo, s, Step(0, Create(true), false));
    assert s.rows == [RowOf(m, 1)] && s.rows[0].msgID == m.msgID;
    ErrorAlthoughStored(topo, s, m.msgID, false);
    ReachableStep(topo, s, SaveDirect(m.msgID, false, false));
    s := Apply(topo, s, SaveDirect(m.msgID, false, false));
  }
}
