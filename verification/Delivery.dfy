/** The delivery pipeline as a step system: senders, the topic, any number of consumer
    sessions (overlapping ones on a partition included), the messages table and the dead
    letter topic. Every consumer step is a step of the consume loop's automaton. */
module Delivery {
  import opened Basics
  import opened Messages
  import opened ConsumerLoop

  datatype Topology = Topology(
    consumer: Config,
    kafka: bool,               // whether senders have a producer
    partitions: nat,
    hash: string -> nat)       // the producer's hash of the record key

  function PartitionOf(topo: Topology, conversationID: string): nat
    requires topo.partitions > 0
  {
    topo.hash(conversationID) % topo.partitions
  }

  // Saving: the producer reported an error, or there is none, and the row is still to be
  // inserted by the sender itself.
  datatype SendPhase = Producing | Saving | Accepted | Rejected
  datatype Send = Send(m: MessageData, phase: SendPhase)

  datatype DeadLetter = DeadLetter(payload: Payload, retries: nat)

  datatype Session = Session(partition: nat, start: nat, marks: set<nat>, local: Local)

  // How a record was first settled.
  datatype Fate = Stored | AlreadyStored | DeadLettered | DroppedDlqOff | DroppedSendFailed

  datatype System = System(
    sends: map<string, Send>,
    logs: seq<seq<Payload>>,
    committed: seq<nat>,
    sessions: map<nat, Session>,
    rows: seq<Message>,
    dlq: seq<DeadLetter>,
    fates: map<(nat, nat), Fate>,   // history: (partition, offset) to its first fate
    direct: set<string>)            // history: ids of rows inserted by senders

  datatype Action =
    | Begin(m: MessageData)                              // a sender builds a message
    | Append(m: MessageData)                             // the broker stores a copy of it
    | AppendJunk(partition: nat)                         // a foreign writer
    | Produced(id: string, ok: bool)                     // what the producer reports
    | SaveDirect(id: string, ok: bool, landed: bool)     // the sender's own insert
    | SetStatus(id: string, status: string)
    | Join(session: nat, partition: nat, from: nat)
    | Step(session: nat, event: Event, landed: bool)
    | Commit(session: nat, upto: nat)
    | Leave(session: nat)                                // rebalance, shutdown or crash

  // ----- steps -----

  function Current(s: System, c: nat): Payload
    requires c in s.sessions
    requires s.sessions[c].partition < |s.logs|
    requires s.sessions[c].local.pos < |s.logs[s.sessions[c].partition]|
  {
    s.logs[s.sessions[c].partition][s.sessions[c].local.pos]
  }

  // What the store can answer. A query or an insert may fail at any time, and an insert or
  // a dead letter reported as failed may still have landed; a lookup that does not fail
  // tells whether the row is there.
  predicate Answerable(s: System, c: nat, e: Event)
    requires c in s.sessions
  {
    var ses := s.sessions[c];
    (e == Lookup(Hit) || e == Lookup(Miss) || e == Create(true)) ==>
      && ses.partition < |s.logs| && ses.local.pos < |s.logs[ses.partition]|
      && Current(s, c).Good?
      && (HasRow(s.rows, Current(s, c).m.msgID) <==> e == Lookup(Hit))
  }

  predicate Enabled(topo: Topology, s: System, a: Action) {
    match a
    case Begin(m) => m.msgID !in s.sends
    case Append(m) =>
      && topo.kafka && topo.partitions > 0 && PartitionOf(topo, m.conversationID) < |s.logs|
      && m.msgID in s.sends && s.sends[m.msgID].m == m
    case AppendJunk(p) => p < |s.logs|
    case Produced(id, ok) =>
      && id in s.sends && s.sends[id].phase == Producing
      && (ok ==>
            && topo.partitions > 0
            && var p := PartitionOf(topo, s.sends[id].m.conversationID);
               p < |s.logs| && Good(s.sends[id].m) in s.logs[p])
    case SaveDirect(id, ok, landed) =>
      && id in s.sends && s.sends[id].phase == Saving
      && (ok ==> landed && !HasRow(s.rows, id))
    case SetStatus(_, _) => true
    case Join(c, p, from) =>
      && c !in s.sessions && p < |s.logs| && p < |s.committed| && from <= s.committed[p]
    case Step(c, e, _) =>
      && c in s.sessions && s.sessions[c].partition < |s.logs|
      && Allowed(topo.consumer, s.logs[s.sessions[c].partition], s.sessions[c].local, e)
      && Answerable(s, c, e)
    case Commit(c, upto) =>
      && c in s.sessions && s.sessions[c].partition < |s.committed|
      && (upto == s.sessions[c].start || (upto > 0 && upto - 1 in s.sessions[c].marks))
    case Leave(c) => c in s.sessions
  }

  function FateOf(e: Event): Fate
    requires Settles(e)
  {
    match e
    case Lookup(_) => AlreadyStored
    case Create(_) => Stored
    case Bury(_, Sent) => DeadLettered
    case Bury(_, Disabled) => DroppedDlqOff
    case Bury(_, SendFailed) => DroppedSendFailed
  }

  function AfterStep(topo: Topology, s: System, c: nat, e: Event, landed: bool): System
    requires Enabled(topo, s, Step(c, e, landed))
  {
    var ses := s.sessions[c];
    var log := s.logs[ses.partition];
    var at := (ses.partition, ses.local.pos);
    var inHand := ses.local.pos < |log|;
    s.(sessions := s.sessions[c := ses.(
         local := After(topo.consumer, log, ses.local, e),
         marks := if e.Mark? then ses.marks + {e.offset} else ses.marks)],
       rows := if e.Create? && (e.ok || landed) && inHand && log[ses.local.pos].Good?
               then Insert(s.rows, log[ses.local.pos].m) else s.rows,
       dlq := if e.Bury? && inHand && (e.outcome == Sent || (e.outcome == SendFailed && landed))
              then s.dlq + [DeadLetter(log[ses.local.pos], e.retries)] else s.dlq,
       fates := if Settles(e) && at !in s.fates then s.fates[at := FateOf(e)] else s.fates)
  }

  function Apply(topo: Topology, s: System, a: Action): System
    requires Enabled(topo, s, a)
  {
    match a
    case Begin(m) => s.(sends := s.sends[m.msgID := Send(m, if topo.kafka then Producing else Saving)])
    case Append(m) =>
      var p := PartitionOf(topo, m.conversationID);
      s.(logs := s.logs[p := s.logs[p] + [Good(m)]])
    case AppendJunk(p) => s.(logs := s.logs[p := s.logs[p] + [Malformed]])
    case Produced(id, ok) =>
      s.(sends := s.sends[id := s.sends[id].(phase := if ok then Accepted else Saving)])
    case SaveDirect(id, ok, landed) =>
      s.(sends := s.sends[id := s.sends[id].(phase := if ok then Accepted else Rejected)],
         rows := if landed then Insert(s.rows, s.sends[id].m) else s.rows,
         direct := if landed then s.direct + {id} else s.direct)
    case SetStatus(id, status) => s.(rows := UpdateStatus(s.rows, id, status))
    case Join(c, p, from) => s.(sessions := s.sessions[c := Session(p, from, {}, Local(from, Selecting))])
    case Step(c, e, landed) => AfterStep(topo, s, c, e, landed)
    case Commit(c, upto) => s.(committed := s.committed[s.sessions[c].partition := upto])
    case Leave(c) => s.(sessions := s.sessions - {c})
  }

  function Init(topo: Topology): System {
    System(map[], seq(topo.partitions, _ => []), seq(topo.partitions, _ => 0), map[], [], [], map[], {})
  }

  // The state after a whole schedule, if every action was enabled in its turn.
  function Run(topo: Topology, s: System, acts: seq<Action>): Option<System> {
    if acts == [] then Some(s)
    else
      match Run(topo, s, acts[..|acts| - 1])
      case None => None
      case Some(t) =>
        var a := acts[|acts| - 1];
        if Enabled(topo, t, a) then Some(Apply(topo, t, a)) else None
  }

  ghost predicate Reachable(topo: Topology, s: System) {
    exists acts :: Run(topo, Init(topo), acts) == Some(s)
  }
}
