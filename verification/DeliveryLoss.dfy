/** Whether the pipeline can lose a message it has accepted. */
module DeliveryLoss {
  import opened Basics
  import opened Messages
  import opened Backoff
  import opened ConsumerLoop
  import opened Delivery
  import opened DeliverySafety
  import opened DeliveryTheorems

  // The documentation's claim: no reachable state has lost an accepted message.
  ghost predicate LosesNothing(topo: Topology) {
    forall s, id :: Reachable(topo, s) && id in s.sends && s.sends[id].phase == Accepted ==>
      !Lost(s, s.sends[id].m)
  }

  lemma ReachableStep(topo: Topology, s: System, a: Action)
    requires Reachable(topo, s) && Enabled(topo, s, a)
    ensures Reachable(topo, Apply(topo, s, a))
  {
    var acts :| Run(topo, Init(topo), acts) == Some(s);
    var more := acts + [a];
    assert more[..|acts|] == acts;
    assert Run(topo, Init(topo), more) == Some(Apply(topo, s, a));
  }

  ghost predicate NoRecords(s: System) {
    forall p: nat, o: nat :: InLog(s, p, o) ==> s.logs[p][o].Malformed?
  }

  lemma {:induction false} NoKafkaNoRecords(topo: Topology, acts: seq<Action>)
    requires !topo.kafka || topo.partitions == 0
    requires Run(topo, Init(topo), acts).Some?
    ensures NoRecords(Run(topo, Init(topo), acts).value)
  {
    if acts != [] {
      NoKafkaNoRecords(topo, acts[..|acts| - 1]);
      var s := Run(topo, Init(topo), acts[..|acts| - 1]).value;
      StepGrows(topo, s, acts[|acts| - 1]);
    }
  }

  // ----- the losing schedule -----

  function Sample(): MessageData {
    MessageData("m", "private:a:b", "a", "b", "", "hi", "text", 0, 1, STATUS_SENDING, false)
  }

  // One record, one session in the given phase on it, and an empty table.
  ghost predicate Stuck(topo: Topology, s: System, phase: Phase) {
    var m := Sample();
    && Reachable(topo, s)
    && topo.partitions > 0
    && var p := PartitionOf(topo, m.conversationID);
       && |s.logs| == topo.partitions && s.logs[p] == [Good(m)]
       && (forall q: nat :: q < |s.logs| && q != p ==> s.logs[q] == [])
       && s.rows == [] && s.dlq == [] && s.fates == map[]
       && m.msgID in s.sends && s.sends[m.msgID] == Send(m, Accepted)
       && 0 in s.sessions && s.sessions[0].partition == p
       && s.sessions[0].local == Local(0, phase)
  }

  lemma StuckAtFirst(topo: Topology) returns (s: System)
    requires topo.kafka && topo.partitions > 0
    ensures Stuck(topo, s, Looking(0))
  {
    var m := Sample();
    var p := PartitionOf(topo, m.conversationID);
    s := Init(topo);
    assert Run(topo, Init(topo), []) == Some(s);
    ReachableStep(topo, s, Begin(m));
    s := Apply(topo, s, Begin(m));
    ReachableStep(topo, s, Append(m));
    s := Apply(topo, s, Append(m));
    assert s.logs[p] == [Good(m)];
    ReachableStep(topo, s, Produced(m.msgID, true));
    s := Apply(topo, s, Produced(m.msgID, true));
    ReachableStep(topo, s, Join(0, p, 0));
    s := Apply(topo, s, Join(0, p, 0));
    ReachableStep(topo, s, Step(0, Fetch(0), false));
    s := Apply(topo, s, Step(0, Fetch(0), false));
  }

  // A failed answer moves the session on and changes nothing else.
  lemma Fail(topo: Topology, s: System, phase: Phase, e: Event) returns (t: System)
    requires Stuck(topo, s, phase)
    requires Allowed(topo.consumer, [Good(Sample())], Local(0, phase), e)
    requires e == Lookup(Miss) || e == Create(false) || e.Wait?
    ensures Stuck(topo, t, After(topo.consumer, [Good(Sample())], Local(0, phase), e).phase)
  {
    ReachableStep(topo, s, Step(0, e, false));
    t := Apply(topo, s, Step(0, e, false));
  }

  lemma {:induction false} StuckUntil(topo: Topology, r: nat) returns (s: System)
    requires topo.kafka && topo.partitions > 0 && r <= topo.consumer.retry.maxAttempts
    ensures Stuck(topo, s, Creating(r))
  {
    if r == 0 {
      s := StuckAtFirst(topo);
    } else {
      s := StuckUntil(topo, r - 1);
      s := Fail(topo, s, Creating(r - 1), Create(false));
      s := Fail(topo, s, BackingOff(r), Wait(Delay(topo.consumer.retry, r - 1)));
    }
    s := Fail(topo, s, Looking(r), Lookup(Miss));
  }

  // The database fails every attempt, and the dead letter is refused or the queue is off.
  lemma LosingState(topo: Topology) returns (s: System)
    requires topo.kafka && topo.partitions > 0
    ensures Reachable(topo, s) && Sample().msgID in s.sends
    ensures s.sends[Sample().msgID] == Send(Sample(), Accepted) && Lost(s, Sample())
  {
    var r := topo.consumer.retry.maxAttempts;
    var m := Sample();
    var p := PartitionOf(topo, m.conversationID);
    s := StuckUntil(topo, r);
    s := Fail(topo, s, Creating(r), Create(false));
    var bury := Step(0, Bury(r + 1, if topo.consumer.dlqEnabled then SendFailed else Disabled), false);
    ReachableStep(topo, s, bury);
    s := Apply(topo, s, bury);
    assert (p, 0) in s.fates;
    forall q: nat, o: nat ensures !AwaitsAt(s, m, q, o) {
      if InLog(s, q, o) && s.logs[q][o] == Good(m) { assert (q, o) == (p, 0); }
    }
  }

  // The pipeline never loses an accepted message exactly when no message goes through
  // Kafka: any deployment with a producer has a schedule that loses one, because a record
  // is marked even when its dead letter was refused or the queue is off.
  lemma LosesNothingIff(topo: Topology)
    ensures LosesNothing(topo) <==> !topo.kafka || topo.partitions == 0
  {
    if topo.kafka && topo.partitions > 0 {
      var s := LosingState(topo);
    } else {
      forall s, id | Reachable(topo, s) && id in s.sends && s.sends[id].phase == Accepted
        ensures !Lost(s, s.sends[id].m)
      {
        Conservation(topo, s, id);
        var acts :| Run(topo, Init(topo), acts) == Some(s);
        NoKafkaNoRecords(topo, acts);
      }
    }
  }
}
