/** A consumer that dies between storing a record and committing its offset: the record is
    delivered again, found stored, and only then committed. */
module Redelivery {
  import opened Basics
  import opened Messages
  import opened ConsumerLoop
  import opened Delivery
  import opened DeliveryLoss

  // The sample record is alone on its partition, and the given session on it alone.
  ghost predicate Stage(topo: Topology, s: System, c: nat, ses: Session, rows: seq<Message>,
                        fates: map<(nat, nat), Fate>, committed: nat) {
    var m := Sample();
    && Reachable(topo, s) && topo.partitions > 0
    && var p := PartitionOf(topo, m.conversationID);
       && p < |s.logs| && p < |s.committed| && ses.partition == p
       && s.logs[p] == [Good(m)] && s.committed[p] == committed
       && s.rows == rows && s.fates == fates && s.dlq == []
       && s.sessions == map[c := ses]
       && m.msgID in s.sends && s.sends[m.msgID] == Send(m, Accepted)
  }

  lemma FirstDelivery(topo: Topology) returns (s: System)
    requires topo.kafka && topo.partitions > 0
    ensures var p := PartitionOf(topo, Sample().conversationID);
            Stage(topo, s, 0, Session(p, 0, {}, Local(0, Selecting)), [], map[], 0)
  {
    var m := Sample();
    var p := PartitionOf(topo, m.conversationID);
    s := Init(topo);
    assert Run(topo, Init(topo), []) == Some(s);
    ReachableStep(topo, s, Begin(m));
    s := Apply(topo, s, Begin(m));
    ReachableStep(topo, s, Append(m));
    s := Apply(topo, s, Append(m));
    assert s.logs[p] == [Good(m)];
    ReachableStep(topo, s, Produced(m.msgID, true));
    s := Apply(topo, s, Produced(m.msgID, true));
    ReachableStep(topo, s, Join(0, p, 0));
    s := Apply(topo, s, Join(0, p, 0));
  }

  // A step of the session on the record, other than burying it.
  lemma Work(topo: Topology, s: System, c: nat, ses: Session, rows: seq<Message>, fates: map<(nat, nat), Fate>,
             committed: nat, e: Event)
    returns (t: System)
    requires Stage(topo, s, c, ses, rows, fates, committed)
    requires ses.local.pos == 0 && Allowed(topo.consumer, [Good(Sample())], ses.local, e) && !e.Bury?
    requires (e == Lookup(Hit) ==> HasRow(rows, Sample().msgID))
          && (e == Lookup(Miss) || e == Create(true) ==> !HasRow(rows, Sample().msgID))
    ensures var p := PartitionOf(topo, Sample().conversationID);
            Stage(topo, t, c,
                  ses.(local := After(topo.consumer, [Good(Sample())], ses.local, e),
                       marks := if e.Mark? then ses.marks + {0} else ses.marks),
                  if e == Create(true) then Insert(rows, Sample()) else rows,
                  if Settles(e) && (p, 0) !in fates then fates[(p, 0) := FateOf(e)] else fates,
                  committed)
  {
    ReachableStep(topo, s, Step(c, e, false));
    t := Apply(topo, s, Step(c, e, false));
  }

  // It stores and marks the record.
  lemma StoresAndMarks(topo: Topology) returns (s: System)
    requires topo.kafka && topo.partitions > 0
    ensures var p := PartitionOf(topo, Sample().conversationID);
            Stage(topo, s, 0, Session(p, 0, {0}, Local(1, Selecting)), [RowOf(Sample(), 1)], map[(p, 0) := Stored], 0)
  {
    var p := PartitionOf(topo, Sample().conversationID);
    var rows := [RowOf(Sample(), 1)];
    s := FirstDelivery(topo);
    s := Work(topo, s, 0, Session(p, 0, {}, Local(0, Selecting)), [], map[], 0, Fetch(0));
    s := Work(topo, s, 0, Session(p, 0, {}, Local(0, Looking(0))), [], map[], 0, Lookup(Miss));
    s := Work(topo, s, 0, Session(p, 0, {}, Local(0, Creating(0))), [], map[], 0, Create(true));
    assert Insert([], Sample()) == rows;
    s := Work(topo, s, 0, Session(p, 0, {}, Local(0, Marking)), rows, map[(p, 0) := Stored], 0, Mark(0));
    assert {} + {0} == {0};
  }

  // It dies before anything is committed, and another session takes over.
  lemma DiesUncommitted(topo: Topology) returns (s: System, t: System)
    requires topo.kafka && topo.partitions > 0
    ensures var p := PartitionOf(topo, Sample().conversationID);
            && Reachable(topo, s) && Enabled(topo, s, Join(1, p, 0)) && t == Apply(topo, s, Join(1, p, 0))
            && s.sessions == map[]
            && Stage(topo, t, 1, Session(p, 0, {}, Local(0, Selecting)), [RowOf(Sample(), 1)],
                     map[(p, 0) := Stored], 0)
  {
    var p := PartitionOf(topo, Sample().conversationID);
    s := StoresAndMarks(topo);
    ReachableStep(topo, s, Leave(0));
    s := Apply(topo, s, Leave(0));
    assert s.sessions == map[];
    ReachableStep(topo, s, Join(1, p, 0));
    t := Apply(topo, s, Join(1, p, 0));
  }

  // The next session is given the record again and finds its row.
  lemma ReadAgain(topo: Topology) returns (before: System, s: System)
    requires topo.kafka && topo.partitions > 0
    ensures var p := PartitionOf(topo, Sample().conversationID);
            var rows, fates := [RowOf(Sample(), 1)], map[(p, 0) := Stored];
            && Stage(topo, before, 1, Session(p, 0, {}, Local(0, Looking(0))), rows, fates, 0)
            && Stage(topo, s, 1, Session(p, 0, {}, Local(0, Marking)), rows, fates, 0)
  {
    var p := PartitionOf(topo, Sample().conversationID);
    var rows, fates := [RowOf(Sample(), 1)], map[(p, 0) := Stored];
    var gone, t := DiesUncommitted(topo);
    assert rows[0].msgID == Sample().msgID;
    before := Work(topo, t, 1, Session(p, 0, {}, Local(0, Selecting)), rows, fates, 0, Fetch(0));
    s := Work(topo, before, 1, Session(p, 0, {}, Local(0, Looking(0))), rows, fates, 0, Lookup(Hit));
  }

  lemma Commits(topo: Topology, s: System, p: nat, rows: seq<Message>, fates: map<(nat, nat), Fate>)
    returns (t: System)
    requires Stage(topo, s, 1, Session(p, 0, {0}, Local(1, Selecting)), rows, fates, 0)
    ensures Stage(topo, t, 1, Session(p, 0, {0}, Local(1, Selecting)), rows, fates, 1)
  {
    ReachableStep(topo, s, Commit(1, 1));
    t := Apply(topo, s, Commit(1, 1));
  }

  // It marks the record and commits: the message is stored once, counts as stored, and is
  // now behind the committed offset.
  lemma DeliveredAgain(topo: Topology) returns (before: System, s: System)
    requires topo.kafka && topo.partitions > 0
    ensures var p := PartitionOf(topo, Sample().conversationID);
            var rows, fates := [RowOf(Sample(), 1)], map[(p, 0) := Stored];
            && Stage(topo, before, 1, Session(p, 0, {}, Local(0, Looking(0))), rows, fates, 0)
            && !Enabled(topo, before, Commit(1, 1))
            && Stage(topo, s, 1, Session(p, 0, {0}, Local(1, Selecting)), rows, fates, 1)
  {
    var p := PartitionOf(topo, Sample().conversationID);
    var rows, fates := [RowOf(Sample(), 1)], map[(p, 0) := Stored];
    before, s := ReadAgain(topo);
    s := Work(topo, s, 1, Session(p, 0, {}, Local(0, Marking)), rows, fates, 0, Mark(0));
    assert {} + {0} == {0};
    s := Commits(topo, s, p, rows, fates);
  }
}
