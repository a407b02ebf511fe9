/** The message entities shared by the delivery pipeline and the store queries. */
module Messages {

  // What a sender puts on the Kafka topic.
  datatype MessageData = MessageData(
    msgID: string,
    conversationID: string,
    fromUserID: string,
    toUserID: string,
    groupID: string,
    content: string,
    contentType: string,
    clientTS: int,
    serverTS: int,
    status: string,
    isGroup: bool)

  // A row of the messages table; id is the auto-increment primary key.
  datatype Message = Message(
    id: nat,
    msgID: string,
    conversationID: string,
    fromUserID: string,
    toUserID: string,
    groupID: string,
    content: string,
    contentType: string,
    status: string,
    clientTS: int,
    serverTS: int)

  const STATUS_SENDING := "sending"
  const STATUS_SENT := "sent"
  const STATUS_DELIVERED := "delivered"
  const STATUS_READ := "read"
  const STATUS_RECALL := "recall"

  // The row that a consumer builds from a record.
  function RowOf(m: MessageData, id: nat): Message {
    Message(id, m.msgID, m.conversationID, m.fromUserID, m.toUserID, m.groupID,
            m.content, m.contentType, m.status, m.clientTS, m.serverTS)
  }

  // The part of a row that no later write changes: everything but the key and the status.
  function Content(row: Message): Message {
    row.(id := 0, status := "")
  }

  lemma SameContentIff(a: Message, b: Message)
    ensures Content(a) == Content(b) <==>
              && a.msgID == b.msgID && a.conversationID == b.conversationID
              && a.fromUserID == b.fromUserID && a.toUserID == b.toUserID && a.groupID == b.groupID
              && a.content == b.content && a.contentType == b.contentType
              && a.clientTS == b.clientTS && a.serverTS == b.serverTS
  {}

  // ----- the messages table -----

  predicate HasRow(rows: seq<Message>, msgID: string) {
    exists i :: 0 <= i < |rows| && rows[i].msgID == msgID
  }

  // The unique index on msg_id turns a repeated insert into an error.
  function Insert(rows: seq<Message>, m: MessageData): seq<Message> {
    if HasRow(rows, m.msgID) then rows else rows + [RowOf(m, |rows| + 1)]
  }

  function UpdateStatus(rows: seq<Message>, id: string, status: string): seq<Message> {
    seq(|rows|, i requires 0 <= i < |rows| =>
      if rows[i].msgID == id then rows[i].(status := status) else rows[i])
  }

  lemma InsertHas(rows: seq<Message>, m: MessageData)
    ensures forall id :: HasRow(Insert(rows, m), id) <==> HasRow(rows, id) || id == m.msgID
  {
    var t := Insert(rows, m);
    forall id ensures HasRow(t, id) <==> HasRow(rows, id) || id == m.msgID {
      if HasRow(rows, id) {
        var i :| 0 <= i < |rows| && rows[i].msgID == id;
        assert t[i].msgID == id;
      }
      if id == m.msgID && !HasRow(rows, id) {
        assert t[|rows|].msgID == id;
      }
    }
  }

  lemma UpdateStatusHas(rows: seq<Message>, id: string, status: string)
    ensures forall x :: HasRow(UpdateStatus(rows, id, status), x) <==> HasRow(rows, x)
  {
    var t := UpdateStatus(rows, id, status);
    forall x ensures HasRow(t, x) <==> HasRow(rows, x) {
      if HasRow(rows, x) {
        var i :| 0 <= i < |rows| && rows[i].msgID == x;
        assert t[i].msgID == x;
      }
      if HasRow(t, x) {
        var i :| 0 <= i < |t| && t[i].msgID == x;
        assert rows[i].msgID == x;
      }
    }
  }
}
