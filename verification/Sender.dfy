/** SendMessage and SendGroupMessage: produce to Kafka, or fall back to the table. */
module Sender {
  import opened Basics
  import opened Messages
  import opened ConsumerLoop
  import opened Delivery
  import opened DeliverySafety

  datatype SendError = NoConversation | NotCreated
  datatype Result<T> = Success(value: T) | Failure(error: SendError)

  datatype SendRequest = SendRequest(content: string, contentType: string, clientTS: int)
  datatype SendResponse = SendResponse(msgID: string, conversationID: string, status: string, serverTS: int)

  // What the broker did with the record, and what the producer was told. Unacknowledged
  // copies may have been appended all the same, and retries may append several.
  datatype BrokerReply = Acked(extraCopies: nat) | NotAcked(copies: nat)

  // How the database takes an insert whose msg_id is new; a repeated one always fails.
  datatype DbReply = Works | FailsBefore | FailsAfter

  function Copies(broker: BrokerReply): nat {
    match broker case Acked(n) => n + 1 case NotAcked(n) => n
  }

  function Repeat<T>(x: T, n: nat): seq<T> {
    if n == 0 then [] else Repeat(x, n - 1) + [x]
  }

  lemma {:induction false} RepeatAll<T>(x: T, n: nat)
    ensures |Repeat(x, n)| == n && forall i :: 0 <= i < n ==> Repeat(x, n)[i] == x
  {
    if n > 0 { RepeatAll(x, n - 1); }
  }

  // The message a sender builds, before the table gives it an id.
  function NewMessage(from: string, to: string, groupID: string, conversationID: string,
                      req: SendRequest, uuid: string, now: int): Message {
    Message(0, uuid, conversationID, from, to, groupID, req.content, req.contentType,
            STATUS_SENDING, req.clientTS, now)
  }

  // The record put on the topic for it.
  function ToRecord(msg: Message, isGroup: bool): MessageData {
    MessageData(msg.msgID, msg.conversationID, msg.fromUserID, msg.toUserID, msg.groupID,
                msg.content, msg.contentType, msg.clientTS, msg.serverTS, msg.status, isGroup)
  }

  // The row inserted by the sender and the one a consumer builds from the record agree,
  // so it does not matter which of the two is first.
  lemma FallbackRowAgrees(msg: Message, isGroup: bool, id: nat)
    ensures RowOf(ToRecord(msg, isGroup), id) == msg.(id := id)
  {}

  class MessageTable {
    var rows: seq<Message>

    method CreateMessage(msg: Message, reply: DbReply) returns (ok: bool)
      modifies this
      ensures ok <==> reply == Works && !HasRow(old(rows), msg.msgID)
      ensures rows == if HasRow(old(rows), msg.msgID) || reply == FailsBefore then old(rows)
                      else old(rows) + [msg.(id := |old(rows)| + 1)]
    {
      ok := reply == Works && !HasRow(rows, msg.msgID);
      if reply != FailsBefore && !HasRow(rows, msg.msgID) {
        rows := rows + [msg.(id := |rows| + 1)];
      }
    }
  }

  class Topic {
    var records: seq<Payload>

    method SendMessage(m: MessageData, reply: BrokerReply) returns (ok: bool)
      modifies this
      ensures ok <==> reply.Acked?
      ensures records == old(records) + Repeat(Good(m), Copies(reply))
    {
      records := records + Repeat(Good(m), Copies(reply));
      ok := reply.Acked?;
    }
  }

  // The row a sender leaves in the table.
  function RowsAfter(rows: seq<Message>, m: MessageData, kafka: bool, broker: BrokerReply, db: DbReply): seq<Message> {
    if (kafka && broker.Acked?) || db == FailsBefore then rows else Insert(rows, m)
  }

  // Produce, and on an error save directly; without a producer only save.
  method Publish(table: MessageTable, topic: Topic, kafka: bool, msg: Message, isGroup: bool,
                 broker: BrokerReply, db: DbReply)
    returns (r: Result<SendResponse>)
    modifies table, topic
    ensures var m := ToRecord(msg, isGroup);
            && topic.records == old(topic.records) + Repeat(Good(m), if kafka then Copies(broker) else 0)
            && table.rows == RowsAfter(old(table.rows), m, kafka, broker, db)
            && (r.Success? <==> (kafka && broker.Acked?) || (db == Works && !HasRow(old(table.rows), msg.msgID)))
    ensures r == if r.Success? then Success(SendResponse(msg.msgID, msg.conversationID, msg.status, msg.serverTS))
                 else Failure(NotCreated)
  {
    FallbackRowAgrees(msg, isGroup, |table.rows| + 1);
    if kafka {
      var produced := topic.SendMessage(ToRecord(msg, isGroup), broker);
      if !produced {
        var created := table.CreateMessage(msg, db);
        if !created { return Failure(NotCreated); }
      }
    } else {
      var created := table.CreateMessage(msg, db);
      if !created { return Failure(NotCreated); }
    }
    return Success(SendResponse(msg.msgID, msg.conversationID, msg.status, msg.serverTS));
  }

  method SendMessage(table: MessageTable, topic: Topic, kafka: bool, from: string, to: string, req: SendRequest,
                     conversation: Option<string>, uuid: string, now: int, broker: BrokerReply, db: DbReply)
    returns (r: Result<SendResponse>)
    modifies table, topic
    ensures conversation.None? ==>
              r == Failure(NoConversation) && table.rows == old(table.rows) && topic.records == old(topic.records)
    ensures conversation.Some? ==>
              var m := ToRecord(NewMessage(from, to, "", conversation.value, req, uuid, now), false);
              && topic.records == old(topic.records) + Repeat(Good(m), if kafka then Copies(broker) else 0)
              && table.rows == RowsAfter(old(table.rows), m, kafka, broker, db)
              && (r.Success? <==> (kafka && broker.Acked?) || (db == Works && !HasRow(old(table.rows), uuid)))
              && (r.Success? ==> r.value == SendResponse(uuid, conversation.value, STATUS_SENDING, now))
    ensures conversation.Some? ==>
              forall i :: |old(topic.records)| <= i < |topic.records| ==>
                var p := topic.records[i];
                && p.Good? && p.m.msgID == uuid && p.m.conversationID == conversation.value
                && p.m.fromUserID == from && p.m.toUserID == to && p.m.groupID == ""
                && p.m.content == req.content && p.m.contentType == req.contentType && p.m.clientTS == req.clientTS
                && p.m.serverTS == now && p.m.status == "sending" && !p.m.isGroup
    ensures conversation.Some? ==>
              && |old(table.rows)| <= |table.rows| && old(table.rows) == table.rows[..|old(table.rows)|]
              && forall i :: |old(table.rows)| <= i < |table.rows| ==>
                   var row := table.rows[i];
                   && row.id == i + 1 && row.msgID == uuid && row.conversationID == conversation.value
                   && row.fromUserID == from && row.toUserID == to && row.groupID == ""
                   && row.content == req.content && row.contentType == req.contentType
                   && row.clientTS == req.clientTS && row.serverTS == now && row.status == "sending"
  {
    if conversation.None? { return Failure(NoConversation); }
    var msg := NewMessage(from, to, "", conversation.value, req, uuid, now);
    RepeatAll(Good(ToRecord(msg, false)), if kafka then Copies(broker) else 0);
    r := Publish(table, topic, kafka, msg, false, broker, db);
  }

  method SendGroupMessage(table: MessageTable, topic: Topic, kafka: bool, from: string, groupID: string,
                          req: SendRequest, groupExists: bool, uuid: string, now: int,
                          broker: BrokerReply, db: DbReply)
    returns (r: Result<SendResponse>)
    modifies table, topic
    ensures !groupExists ==>
              r == Failure(NoConversation) && table.rows == old(table.rows) && topic.records == old(topic.records)
    ensures groupExists ==>
              var m := ToRecord(NewMessage(from, "", groupID, "group:" + groupID, req, uuid, now), true);
              && topic.records == old(topic.records) + Repeat(Good(m), if kafka then Copies(broker) else 0)
              && table.rows == RowsAfter(old(table.rows), m, kafka, broker, db)
              && (r.Success? <==> (kafka && broker.Acked?) || (db == Works && !HasRow(old(table.rows), uuid)))
              && (r.Success? ==> r.value == SendResponse(uuid, "group:" + groupID, STATUS_SENDING, now))
    ensures groupExists ==>
              forall i :: |old(topic.records)| <= i < |topic.records| ==>
                var p := topic.records[i];
                && p.Good? && p.m.msgID == uuid && p.m.conversationID == "group:" + groupID
                && p.m.fromUserID == from && p.m.toUserID == "" && p.m.groupID == groupID
                && p.m.content == req.content && p.m.contentType == req.contentType && p.m.clientTS == req.clientTS
                && p.m.serverTS == now && p.m.status == "sending" && p.m.isGroup
    ensures groupExists ==>
              && |old(table.rows)| <= |table.rows| && old(table.rows) == table.rows[..|old(table.rows)|]
              && forall i :: |old(table.rows)| <= i < |table.rows| ==>
                   var row := table.rows[i];
                   && row.id == i + 1 && row.msgID == uuid && row.conversationID == "group:" + groupID
                   && row.fromUserID == from && row.toUserID == "" && row.groupID == groupID
                   && row.content == req.content && row.contentType == req.contentType
                   && row.clientTS == req.clientTS && row.serverTS == now && row.status == "sending"
  {
    if !groupExists { return Failure(NoConversation); }
    var msg := NewMessage(from, "", groupID, "group:" + groupID, req, uuid, now);
    RepeatAll(Good(ToRecord(msg, true)), if kafka then Copies(broker) else 0);
    r := Publish(table, topic, kafka, msg, true, broker, db);
  }

  // ----- a send is a schedule of the pipeline -----

  function SendSchedule(kafka: bool, rows: seq<Message>, m: MessageData, broker: BrokerReply,
                        db: DbReply): seq<Action> {
    var save := SaveDirect(m.msgID, db == Works && !HasRow(rows, m.msgID), db != FailsBefore);
    [Begin(m)]
    + (if kafka then Repeat(Append(m), Copies(broker)) + [Produced(m.msgID, broker.Acked?)] else [])
    + (if kafka && broker.Acked? then [] else [save])
  }

  lemma RunSnoc(topo: Topology, s: System, acts: seq<Action>, a: Action)
    requires Run(topo, s, acts).Some?
    requires Enabled(topo, Run(topo, s, acts).value, a)
    ensures Run(topo, s, acts + [a]) == Some(Apply(topo, Run(topo, s, acts).value, a))
  {
    assert (acts + [a])[..|acts|] == acts;
  }

  // n copies of m were appended to its partition, and nothing else happened.
  ghost predicate Appended(s: System, t: System, p: nat, m: MessageData, n: nat) {
    && t == s.(logs := t.logs) && |t.logs| == |s.logs| && p < |s.logs|
    && t.logs[p] == s.logs[p] + Repeat(Good(m), n)
    && forall q :: 0 <= q < |s.logs| && q != p ==> t.logs[q] == s.logs[q]
  }

  lemma AppendedOneMore(topo: Topology, s: System, t: System, m: MessageData, n: nat)
    requires topo.kafka && topo.partitions == |s.logs| && |s.logs| > 0 && Known(s, m)
    requires Appended(s, t, PartitionOf(topo, m.conversationID), m, n)
    ensures Enabled(topo, t, Append(m))
    ensures Appended(s, Apply(topo, t, Append(m)), PartitionOf(topo, m.conversationID), m, n + 1)
  {
    var p := PartitionOf(topo, m.conversationID);
    assert s.logs[p] + (Repeat(Good(m), n) + [Good(m)]) == t.logs[p] + [Good(m)];
  }

  lemma {:induction false} AppendsRun(topo: Topology, s: System, acts: seq<Action>, m: MessageData, n: nat)
    requires Run(topo, s, acts).Some?
    requires var t := Run(topo, s, acts).value;
             topo.kafka && topo.partitions == |t.logs| && |t.logs| > 0 && Known(t, m)
    ensures var all := Run(topo, s, acts + Repeat(Append(m), n));
            all.Some? && Appended(Run(topo, s, acts).value, all.value, PartitionOf(topo, m.conversationID), m, n)
  {
    var t := Run(topo, s, acts).value;
    if n == 0 {
      assert acts + [] == acts;
      assert t.logs[PartitionOf(topo, m.conversationID)] + [] == t.logs[PartitionOf(topo, m.conversationID)];
    } else {
      AppendsRun(topo, s, acts, m, n - 1);
      var more := acts + Repeat(Append(m), n - 1);
      AppendedOneMore(topo, t, Run(topo, s, more).value, m, n - 1);
      RunSnoc(topo, s, more, Append(m));
      assert acts + Repeat(Append(m), n) == more + [Append(m)];
    }
  }

  // What n appends have done; without any, a topic without partitions will do.
  ghost predicate LogsAfter(topo: Topology, s: System, t: System, m: MessageData, n: nat) {
    if n == 0 then t.logs == s.logs
    else |s.logs| == topo.partitions > 0 && Appended(s, s.(logs := t.logs), PartitionOf(topo, m.conversationID), m, n)
  }

  // What a finished send has done to the pipeline.
  ghost predicate SentAs(topo: Topology, s: System, t: System, m: MessageData, broker: BrokerReply, db: DbReply) {
    && t.rows == RowsAfter(s.rows, m, topo.kafka, broker, db)
    && LogsAfter(topo, s, t, m, if topo.kafka then Copies(broker) else 0)
    && Known(t, m)
    && (t.sends[m.msgID].phase == Accepted <==>
          (topo.kafka && broker.Acked?) || (db == Works && !HasRow(s.rows, m.msgID)))
  }

  lemma BeginRun(topo: Topology, s: System, m: MessageData)
    requires m.msgID !in s.sends
    ensures Run(topo, s, [Begin(m)]) == Some(Apply(topo, s, Begin(m)))
  {
    assert Run(topo, s, []) == Some(s);
    RunSnoc(topo, s, [], Begin(m));
    assert [] + [Begin(m)] == [Begin(m)];
  }

  lemma AppendedRun(topo: Topology, s: System, m: MessageData, n: nat) returns (t: System)
    requires topo.kafka && topo.partitions == |s.logs| && (n > 0 ==> |s.logs| > 0) && m.msgID !in s.sends
    ensures Run(topo, s, [Begin(m)] + Repeat(Append(m), n)) == Some(t)
    ensures LogsAfter(topo, s, t, m, n) && t == Apply(topo, s, Begin(m)).(logs := t.logs)
  {
    BeginRun(topo, s, m);
    if n > 0 {
      AppendsRun(topo, s, [Begin(m)], m, n);
    } else {
      assert [Begin(m)] + Repeat(Append(m), n) == [Begin(m)];
    }
    t := Run(topo, s, [Begin(m)] + Repeat(Append(m), n)).value;
  }

  lemma ProducedRun(topo: Topology, s: System, m: MessageData, broker: BrokerReply) returns (t: System)
    requires topo.kafka && topo.partitions == |s.logs| && (Copies(broker) > 0 ==> |s.logs| > 0) && m.msgID !in s.sends
    ensures Run(topo, s, [Begin(m)] + Repeat(Append(m), Copies(broker)) + [Produced(m.msgID, broker.Acked?)]) == Some(t)
    ensures LogsAfter(topo, s, t, m, Copies(broker)) && t.rows == s.rows
    ensures m.msgID in t.sends && t.sends[m.msgID] == Send(m, if broker.Acked? then Accepted else Saving)
  {
    var u := AppendedRun(topo, s, m, Copies(broker));
    var acts := [Begin(m)] + Repeat(Append(m), Copies(broker));
    if broker.Acked? {
      var p := PartitionOf(topo, m.conversationID);
      assert u.logs[p][|u.logs[p]| - 1] == Good(m);
    }
    RunSnoc(topo, s, acts, Produced(m.msgID, broker.Acked?));
    t := Apply(topo, u, Produced(m.msgID, broker.Acked?));
  }

  // The broker and database effects of Publish are those of its schedule, and the
  // message counts as accepted exactly when Publish answers success. Only a topic with a
  // partition can take a copy.
  lemma SendIsSchedule(topo: Topology, s: System, m: MessageData, broker: BrokerReply, db: DbReply)
    requires topo.partitions == |s.logs| && m.msgID !in s.sends
    requires topo.kafka && Copies(broker) > 0 ==> |s.logs| > 0
    ensures var run := Run(topo, s, SendSchedule(topo.kafka, s.rows, m, broker, db));
            run.Some? && SentAs(topo, s, run.value, m, broker, db)
  {
    var save := SaveDirect(m.msgID, db == Works && !HasRow(s.rows, m.msgID), db != FailsBefore);
    var acts, t;
    if topo.kafka {
      t := ProducedRun(topo, s, m, broker);
      acts := [Begin(m)] + Repeat(Append(m), Copies(broker)) + [Produced(m.msgID, broker.Acked?)];
      assert [Begin(m)] + (Repeat(Append(m), Copies(broker)) + [Produced(m.msgID, broker.Acked?)]) == acts;
    } else {
      BeginRun(topo, s, m);
      acts, t := [Begin(m)], Apply(topo, s, Begin(m));
      assert [Begin(m)] + [] == acts;
    }
    if topo.kafka && broker.Acked? {
      assert SendSchedule(topo.kafka, s.rows, m, broker, db) == acts + [];
      assert acts + [] == acts;
    } else {
      RunSnoc(topo, s, acts, save);
      assert SendSchedule(topo.kafka, s.rows, m, broker, db) == acts + [save];
    }
  }
}
