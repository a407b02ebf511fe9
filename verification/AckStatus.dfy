/** Statuses and read cursors are overwritten, whatever they held: exactly when a writer
    takes a message's status back, and exactly when a read cursor moves back. */
module AckStatus {
  import opened Messages
  import opened MessageStore
  import opened Acks
  import opened AckReplay

  // How far a message has come.
  function Rank(status: string): nat {
    if status == STATUS_SENT then 1
    else if status == STATUS_DELIVERED then 2
    else if status == STATUS_READ then 3
    else if status == STATUS_RECALL then 4
    else 0
  }

  ghost predicate Lowered(before: seq<Message>, after: seq<Message>) {
    exists i :: 0 <= i < |before| && i < |after| && Rank(after[i].status) < Rank(before[i].status)
  }

  // A row of the message has come further than the status.
  predicate Beyond(rows: seq<Message>, msgID: string, status: string) {
    exists i :: 0 <= i < |rows| && rows[i].msgID == msgID && Rank(rows[i].status) > Rank(status)
  }

  lemma UpdateLowersIff(rows: seq<Message>, msgID: string, status: string)
    ensures Lowered(rows, UpdateStatus(rows, msgID, status)) <==> Beyond(rows, msgID, status)
  {
    var after := UpdateStatus(rows, msgID, status);
    if Beyond(rows, msgID, status) {
      var i :| 0 <= i < |rows| && rows[i].msgID == msgID && Rank(rows[i].status) > Rank(status);
      assert Rank(after[i].status) < Rank(rows[i].status);
    }
  }

  // The ACK passes the checks, is not answered as a duplicate, and its row is saved.
  predicate Goes(st: AckState, c: Call) {
    && Admitted(st, c)
    && (c.faults.existing || KeyOfCall(c) !in AcceptedKeys(st.acks))
    && SaveWorks(st.acks, RowOfCall(c), c.faults.save)
  }

  lemma ClientStatus(st: AckState, c: Call)
    ensures Do(st, Client(c)).messages
         == if Goes(st, c) && !c.faults.status && c.ack.ackType == DeliveredAck
            then UpdateStatus(st.messages, c.ack.msgID, STATUS_DELIVERED)
            else if Goes(st, c) && !c.faults.status && c.ack.ackType == ReadAck
            then UpdateStatus(st.messages, c.ack.msgID, STATUS_READ)
            else st.messages
  {
    FoundIffRow(st.messages, c.ack.msgID);
    KeysAreStamped(st.acks, KeyOfCall(c));
  }

  // A client ACK takes a message's status back exactly when it is not a duplicate, its save
  // and its status update work, and the message has come further: a delivered ACK for one
  // that was read (or recalled), a read ACK for one that was recalled.
  lemma AckLowersIff(st: AckState, c: Call)
    ensures Lowered(st.messages, Do(st, Client(c)).messages)
       <==> Goes(st, c) && !c.faults.status
            && (|| (c.ack.ackType == DeliveredAck && Beyond(st.messages, c.ack.msgID, STATUS_DELIVERED))
                || (c.ack.ackType == ReadAck && Beyond(st.messages, c.ack.msgID, STATUS_READ)))
  {
    ClientStatus(st, c);
    UpdateLowersIff(st.messages, c.ack.msgID, STATUS_DELIVERED);
    UpdateLowersIff(st.messages, c.ack.msgID, STATUS_READ);
  }

  // The other writers of the status check nothing about it either.
  lemma OthersLowerIff(st: AckState, op: Op)
    requires !op.Client?
    ensures Lowered(st.messages, Do(st, op).messages)
       <==> match op
            case Delivered(id, conv, user, now, save, statusFails) =>
              SaveWorks(st.acks, Ack(id, user, conv, DeliveredAck, now, now), save) && !statusFails
              && Beyond(st.messages, id, STATUS_DELIVERED)
            case ReadMark(user, conv, id, f) =>
              !f.member && Member(conv, user) in st.members && !f.find && !f.cursor && !f.status
              && Beyond(st.messages, id, STATUS_READ)
            case Pushed(id) => Beyond(st.messages, id, STATUS_DELIVERED)
            case _ => false
  {
    match op
    case Delivered(id, _, _, _, _, _) => UpdateLowersIff(st.messages, id, STATUS_DELIVERED);
    case ReadMark(_, _, id, _) =>
      FoundIffRow(st.messages, id);
      UpdateLowersIff(st.messages, id, STATUS_READ);
    case Pushed(id) => UpdateLowersIff(st.messages, id, STATUS_DELIVERED);
    case _ =>
  }

  const NO_FAULTS := Faults(false, false, false, NoFault, false, false)

  // Two calls of one reader: the read ACK, then the delivered ACK.
  lemma DeliveredAfterRead(row: Message, userID: string, t: int)
    ensures var st := AckState([row], [Member(row.conversationID, userID)], [], map[]);
            var read := Do(st, Client(Call(userID, ClientAck(row.msgID, row.conversationID, ReadAck), t, NO_FAULTS)));
            var late := ClientAck(row.msgID, row.conversationID, DeliveredAck);
            var delivered := Do(read, Client(Call(userID, late, t, NO_FAULTS)));
            && read.messages == [row.(status := STATUS_READ)]
            && delivered.messages == [row.(status := STATUS_DELIVERED)]
            && Lowered(read.messages, delivered.messages)
  {
    var st := AckState([row], [Member(row.conversationID, userID)], [], map[]);
    var c := Call(userID, ClientAck(row.msgID, row.conversationID, ReadAck), t, NO_FAULTS);
    var d := Call(userID, ClientAck(row.msgID, row.conversationID, DeliveredAck), t, NO_FAULTS);
    assert st.messages[0].msgID == row.msgID;
    ClientStatus(st, c);
    var read := Do(st, Client(c));
    assert read.messages == [row.(status := STATUS_READ)];
    assert read.messages[0].msgID == row.msgID;
    ClientStatus(read, d);
    AckLowersIff(read, d);
    assert Rank(read.messages[0].status) > Rank(STATUS_DELIVERED);
  }

  // ----- read cursors -----

  ghost predicate CursorMovedBack(before: map<Member, ReadCursor>, after: map<Member, ReadCursor>) {
    exists m :: m in before && m in after && after[m].ts < before[m].ts
  }

  // A client ACK moves a read cursor back exactly when it is a read ACK that is no
  // duplicate, its save and its cursor update work, and its message is older than the one
  // the reader's cursor is at.
  lemma AckMovesBackIff(st: AckState, c: Call)
    ensures CursorMovedBack(st.cursors, Do(st, Client(c)).cursors)
       <==> var reader := Member(c.ack.conversationID, c.userID);
            && Goes(st, c) && !c.faults.cursor && c.ack.ackType == ReadAck && reader in st.cursors
            && GetMessageByMsgID(st.messages, c.ack.msgID).Some?
            && GetMessageByMsgID(st.messages, c.ack.msgID).value.serverTS < st.cursors[reader].ts
  {
    FoundIffRow(st.messages, c.ack.msgID);
    KeysAreStamped(st.acks, KeyOfCall(c));
    var reader := Member(c.ack.conversationID, c.userID);
    var t := Do(st, Client(c));
    if Goes(st, c) && !c.faults.cursor && c.ack.ackType == ReadAck {
      var msg := GetMessageByMsgID(st.messages, c.ack.msgID).value;
      assert t.cursors == st.cursors[reader := ReadCursor(c.ack.msgID, msg.serverTS)];
    } else {
      assert t.cursors == st.cursors;
    }
  }

  // The other writer of read cursors: marking read moves one back exactly when nothing
  // fails and the message is older than the one the reader's cursor is at.
  lemma MarkMovesBackIff(st: AckState, userID: string, conv: string, msgID: string, f: Faults)
    ensures CursorMovedBack(st.cursors, Do(st, ReadMark(userID, conv, msgID, f)).cursors)
       <==> var reader, msg := Member(conv, userID), GetMessageByMsgID(st.messages, msgID);
            && !f.member && reader in st.members && !f.find && !f.cursor
            && reader in st.cursors && msg.Some? && msg.value.serverTS < st.cursors[reader].ts
  {
    var reader, msg := Member(conv, userID), GetMessageByMsgID(st.messages, msgID);
    var t := Do(st, ReadMark(userID, conv, msgID, f));
    if !f.member && reader in st.members && !f.find && !f.cursor && msg.Some? {
      assert t.cursors == st.cursors[reader := ReadCursor(msgID, msg.value.serverTS)];
    } else {
      assert t.cursors == st.cursors;
    }
  }

  // ----- whose members may acknowledge -----

  function ConversationOf(messages: seq<Message>, msgID: string): string
    requires HasRow(messages, msgID)
  {
    FoundIffRow(messages, msgID);
    GetMessageByMsgID(messages, msgID).value.conversationID
  }

  // A member of any conversation can acknowledge a message of another one: the message is
  // marked read, and the ACK is filed under the conversation the client named.
  lemma ForeignAck(row: Message, own: string, userID: string, t: int)
    requires own != row.conversationID
    ensures var st := AckState([row], [Member(own, userID)], [], map[]);
            var after := Do(st, Client(Call(userID, ClientAck(row.msgID, own, ReadAck), t, NO_FAULTS)));
            && Member(row.conversationID, userID) !in st.members
            && after.messages == [row.(status := STATUS_READ)]
            && after.acks == [Ack(row.msgID, userID, own, ReadAck, t, t)]
  {
    var st := AckState([row], [Member(own, userID)], [], map[]);
    var c := Call(userID, ClientAck(row.msgID, own, ReadAck), t, NO_FAULTS);
    assert st.messages[0].msgID == row.msgID;
    ClientStatus(st, c);
    ClientAcks(st, c);
    assert Upserted([], RowOfCall(c)) == [RowOfCall(c)];
  }

  // Whoever is in the conversations, only members of the message's conversation are
  // admitted: that holds exactly for an ACK that names the message's conversation.
  lemma OnlyMembersAckIff(messages: seq<Message>, c: Call)
    requires HasRow(messages, c.ack.msgID) && !c.faults.find && !c.faults.member
    ensures (forall st: AckState :: st.messages == messages && Admitted(st, c) ==>
               Member(ConversationOf(messages, c.ack.msgID), c.userID) in st.members)
       <==> ConversationOf(messages, c.ack.msgID) == c.ack.conversationID
  {
    var st := AckState(messages, [Member(c.ack.conversationID, c.userID)], [], map[]);
    assert Admitted(st, c);
  }

  // And the same for marking read.
  lemma OnlyMembersMarkIff(messages: seq<Message>, userID: string, conv: string, msgID: string, f: Faults)
    requires HasRow(messages, msgID) && !f.find && !f.member && !f.cursor
    ensures (forall st: AckState :: st.messages == messages && MarkRead(st, userID, conv, msgID, f).1 ==>
               Member(ConversationOf(messages, msgID), userID) in st.members)
       <==> ConversationOf(messages, msgID) == conv
  {
    FoundIffRow(messages, msgID);
    var st := AckState(messages, [Member(conv, userID)], [], map[]);
    assert MarkRead(st, userID, conv, msgID, f).1;
  }
}
