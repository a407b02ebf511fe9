/** What each writer of the ACK service answers and leaves behind, row by row: the ACK table,
    the statuses and the read cursors after every call, whatever fails. */
module AckEffects {
  import opened Basics
  import opened Messages
  import opened MessageStore
  import opened Acks
  import opened AckReplay

  // ----- the conditions, on the stored rows -----

  predicate HasAck(acks: seq<Ack>, msgID: string, userID: string, ackType: AckType) {
    exists i :: 0 <= i < |acks| && acks[i].msgID == msgID && acks[i].userID == userID && acks[i].ackType == ackType
  }

  // The row of a key, if its stamp is no earlier than the time: there is nothing to write.
  predicate StampedSince(acks: seq<Ack>, msgID: string, userID: string, ackType: AckType, time: int) {
    exists i ::
      && 0 <= i < |acks| && acks[i].msgID == msgID && acks[i].userID == userID && acks[i].ackType == ackType
      && acks[i].ts >= time
  }

  predicate Saves(acks: seq<Ack>, msgID: string, userID: string, ackType: AckType, now: int, fault: SaveFault) {
    fault == NoFault || (fault == WriteFails && StampedSince(acks, msgID, userID, ackType, now))
  }

  lemma {:induction false} HasAckIff(acks: seq<Ack>, key: AckKey)
    ensures HasAck(acks, key.msgID, key.userID, key.ackType) <==> StampOf(acks, key).Some?
  {
    KeysAreStamped(acks, key);
    if HasAck(acks, key.msgID, key.userID, key.ackType) {
      var i :| 0 <= i < |acks| && acks[i].msgID == key.msgID && acks[i].userID == key.userID
               && acks[i].ackType == key.ackType;
      assert KeyOfAck(acks[i]) == key;
    }
  }

  lemma SavesIff(acks: seq<Ack>, row: Ack, fault: SaveFault)
    requires UniqueKeys(acks)
    ensures SaveWorks(acks, row, fault) <==> Saves(acks, row.msgID, row.userID, row.ackType, row.ts, fault)
  {
    var key := KeyOfAck(row);
    StampIsRow(acks, key);
    if StampedSince(acks, row.msgID, row.userID, row.ackType, row.ts) {
      var i :| 0 <= i < |acks| && acks[i].msgID == row.msgID && acks[i].userID == row.userID
               && acks[i].ackType == row.ackType && acks[i].ts >= row.ts;
      assert Writes(acks, key, acks[i].ts);
    }
    if StampOf(acks, key).Some? && row.ts <= StampOf(acks, key).value {
      var i :| 0 <= i < |acks| && KeyOfAck(acks[i]) == key && acks[i].ts == StampOf(acks, key).value;
      assert acks[i].ts >= row.ts;
    }
  }

  // ----- answers -----

  // The client names a stored message and a conversation it is a member of.
  predicate PassesChecks(st: AckState, c: Call) {
    && !c.faults.find && HasRow(st.messages, c.ack.msgID)
    && !c.faults.member && Member(c.ack.conversationID, c.userID) in st.members
  }

  predicate IsDuplicate(st: AckState, c: Call) {
    !c.faults.existing && HasAck(st.acks, c.ack.msgID, c.userID, c.ack.ackType)
  }

  predicate CallSaves(st: AckState, c: Call) {
    Saves(st.acks, c.ack.msgID, c.userID, c.ack.ackType, c.now, c.faults.save)
  }

  function AnswerTo(st: AckState, c: Call): Response {
    Process(st, c.userID, c.ack, c.now, c.faults).1
  }

  // The checks come in this order, and each answer is given exactly when its check is the
  // first that applies. A duplicate is answered with a stamp stored for it.
  lemma AnswersIff(st: AckState, c: Call)
    requires UniqueKeys(st.acks)
    ensures AnswerTo(st, c) == NotFound <==> c.faults.find || !HasRow(st.messages, c.ack.msgID)
    ensures AnswerTo(st, c) == MembershipUnknown <==>
              !c.faults.find && HasRow(st.messages, c.ack.msgID) && c.faults.member
    ensures AnswerTo(st, c) == NotMember <==>
              && !c.faults.find && HasRow(st.messages, c.ack.msgID) && !c.faults.member
              && Member(c.ack.conversationID, c.userID) !in st.members
    ensures AnswerTo(st, c) == SaveFailed <==> PassesChecks(st, c) && !IsDuplicate(st, c) && !CallSaves(st, c)
    ensures AnswerTo(st, c) == Answer(c.now, false) <==>
              PassesChecks(st, c) && !IsDuplicate(st, c) && CallSaves(st, c)
    ensures AnswerTo(st, c).Answer? && AnswerTo(st, c).duplicate <==> PassesChecks(st, c) && IsDuplicate(st, c)
    ensures AnswerTo(st, c).Answer? && AnswerTo(st, c).duplicate ==>
              Writes(st.acks, KeyOfCall(c), AnswerTo(st, c).serverTS)
  {
    FoundIffRow(st.messages, c.ack.msgID);
    HasAckIff(st.acks, KeyOfCall(c));
    SavesIff(st.acks, RowOfCall(c), c.faults.save);
    StampIsRow(st.acks, KeyOfCall(c));
  }

  // ----- what is left behind -----

  // The row of one message has the status, and every other row is as before.
  ghost predicate StatusSet(before: seq<Message>, after: seq<Message>, msgID: string, status: string) {
    && |after| == |before|
    && forall i :: 0 <= i < |before| ==>
         after[i] == if before[i].msgID == msgID then before[i].(status := status) else before[i]
  }

  // A new row at the end, or the later stamp in the row of the key.
  ghost predicate AckSaved(before: seq<Ack>, after: seq<Ack>, row: Ack) {
    if !HasAck(before, row.msgID, row.userID, row.ackType) then after == before + [row]
    else
      && |after| == |before|
      && forall i :: 0 <= i < |before| ==>
           after[i] == if (&& before[i].msgID == row.msgID && before[i].userID == row.userID
                           && before[i].ackType == row.ackType && before[i].ts < row.ts)
                       then before[i].(ts := row.ts) else before[i]
  }

  // The reader's cursor is at the first row with the message id, and nobody else's moved.
  ghost predicate CursorSet(messages: seq<Message>, before: map<Member, ReadCursor>, after: map<Member, ReadCursor>,
                            conv: string, userID: string, msgID: string) {
    && (exists i ::
          && 0 <= i < |messages| && messages[i].msgID == msgID
          && (forall j :: 0 <= j < i ==> messages[j].msgID != msgID)
          && Member(conv, userID) in after && after[Member(conv, userID)].msgID == msgID
          && after[Member(conv, userID)].ts == messages[i].serverTS)
    && forall m :: m != Member(conv, userID) ==>
         && (m in after <==> m in before)
         && (m in before ==> after[m] == before[m])
  }

  lemma {:induction false} FirstRow(rows: seq<Message>, msgID: string) returns (i: nat)
    requires HasRow(rows, msgID)
    ensures i < |rows| && rows[i].msgID == msgID && GetMessageByMsgID(rows, msgID) == Some(rows[i])
    ensures forall j :: 0 <= j < i ==> rows[j].msgID != msgID
  {
    FoundIffRow(rows, msgID);
    if rows[0].msgID == msgID {
      i := 0;
    } else {
      FoundIffRow(rows[1..], msgID);
      var k := FirstRow(rows[1..], msgID);
      i := k + 1;
      forall j | 0 <= j < i ensures rows[j].msgID != msgID {
        if j > 0 { assert rows[j] == rows[1..][j - 1]; }
      }
    }
  }

  lemma CursorIsSet(messages: seq<Message>, cursors: map<Member, ReadCursor>, conv: string, userID: string,
                    msgID: string)
    requires HasRow(messages, msgID) && GetMessageByMsgID(messages, msgID).Some?
    ensures var at := ReadCursor(msgID, GetMessageByMsgID(messages, msgID).value.serverTS);
            CursorSet(messages, cursors, cursors[Member(conv, userID) := at], conv, userID, msgID)
  {
    var i := FirstRow(messages, msgID);
    assert messages[i].msgID == msgID;
  }

  lemma AckIsSaved(acks: seq<Ack>, row: Ack)
    requires UniqueKeys(acks)
    ensures AckSaved(acks, Upserted(acks, row), row)
  {
    var key := KeyOfAck(row);
    HasAckIff(acks, key);
    if HasAck(acks, row.msgID, row.userID, row.ackType) {
      var n :| 0 <= n < |acks| && acks[n].msgID == row.msgID && acks[n].userID == row.userID
               && acks[n].ackType == row.ackType;
      assert KeyOfAck(acks[n]) == key;
      UpsertedHere(acks, row, n);
    } else {
      forall i | 0 <= i < |acks| ensures KeyOfAck(acks[i]) != key {
        RowHasStamp(acks, i);
      }
      UpsertedNew(acks, row);
    }
  }

  lemma ClientSaves(st: AckState, c: Call)
    requires UniqueKeys(st.acks)
    ensures Do(st, Client(c)).members == st.members
    ensures Do(st, Client(c)).acks
         == if PassesChecks(st, c) && !IsDuplicate(st, c) && CallSaves(st, c)
            then Upserted(st.acks, RowOfCall(c)) else st.acks
  {
    ClientAcks(st, c);
    HasAckIff(st.acks, KeyOfCall(c));
    SavesIff(st.acks, RowOfCall(c), c.faults.save);
  }

  // The ACK table after a client ACK: the row is saved exactly when the call passes the
  // checks, is no duplicate, and the save works.
  lemma ClientAckRows(st: AckState, c: Call)
    requires UniqueKeys(st.acks)
    ensures var t := Do(st, Client(c));
            && t.members == st.members
            && (if PassesChecks(st, c) && !IsDuplicate(st, c) && CallSaves(st, c)
                then AckSaved(st.acks, t.acks,
                              Ack(c.ack.msgID, c.userID, c.ack.conversationID, c.ack.ackType, c.now, c.now))
                else t.acks == st.acks)
  {
    ClientSaves(st, c);
    AckIsSaved(st.acks, RowOfCall(c));
  }

  // The statuses: set to read by a read ACK and to delivered by a delivered one, exactly
  // when the ACK was saved and the update does not fail.
  lemma ClientStatuses(st: AckState, c: Call)
    requires UniqueKeys(st.acks)
    ensures var goes := PassesChecks(st, c) && !IsDuplicate(st, c) && CallSaves(st, c) && !c.faults.status;
            var after := Do(st, Client(c)).messages;
            if goes && c.ack.ackType == ReadAck then StatusSet(st.messages, after, c.ack.msgID, "read")
            else if goes && c.ack.ackType == DeliveredAck then StatusSet(st.messages, after, c.ack.msgID, "delivered")
            else after == st.messages
  {
    FoundIffRow(st.messages, c.ack.msgID);
    HasAckIff(st.acks, KeyOfCall(c));
    SavesIff(st.acks, RowOfCall(c), c.faults.save);
  }

  // The read cursors: a read ACK that was saved, and whose cursor update works, puts the
  // reader's cursor at the message, there before or not. Nothing else moves a cursor.
  lemma ClientCursors(st: AckState, c: Call)
    requires UniqueKeys(st.acks)
    ensures var t := Do(st, Client(c));
            if (&& PassesChecks(st, c) && !IsDuplicate(st, c) && CallSaves(st, c)
                && c.ack.ackType == ReadAck && !c.faults.cursor)
            then CursorSet(st.messages, st.cursors, t.cursors, c.ack.conversationID, c.userID, c.ack.msgID)
            else t.cursors == st.cursors
  {
    FoundIffRow(st.messages, c.ack.msgID);
    HasAckIff(st.acks, KeyOfCall(c));
    SavesIff(st.acks, RowOfCall(c), c.faults.save);
    if HasRow(st.messages, c.ack.msgID) {
      CursorIsSet(st.messages, st.cursors, c.ack.conversationID, c.userID, c.ack.msgID);
    }
  }

  // A delivery notification saves the delivered ACK of its user without looking at messages
  // or members, and sets the status only after that.
  lemma NotifyEffects(st: AckState, msgID: string, conv: string, toUserID: string, now: int,
                      save: SaveFault, statusFails: bool)
    requires UniqueKeys(st.acks)
    ensures var (t, ok) := Notify(st, msgID, conv, toUserID, now, save, statusFails);
            && (ok <==> Saves(st.acks, msgID, toUserID, DeliveredAck, now, save))
            && (if ok then AckSaved(st.acks, t.acks, Ack(msgID, toUserID, conv, DeliveredAck, now, now))
                else t.acks == st.acks)
            && (if ok && !statusFails then StatusSet(st.messages, t.messages, msgID, "delivered")
                else t.messages == st.messages)
            && t.members == st.members && t.cursors == st.cursors
  {
    var row := Ack(msgID, toUserID, conv, DeliveredAck, now, now);
    SavesIff(st.acks, row, save);
    AckIsSaved(st.acks, row);
  }

  // Marking read needs a member, a stored message and a working cursor update. It puts the
  // reader's cursor at the message, sets the status unless that fails, and writes no ACK.
  lemma MarkReadEffects(st: AckState, userID: string, conv: string, msgID: string, f: Faults)
    ensures var (t, ok) := MarkRead(st, userID, conv, msgID, f);
            && (ok <==> !f.member && Member(conv, userID) in st.members && !f.find && HasRow(st.messages, msgID)
                        && !f.cursor)
            && (if ok then CursorSet(st.messages, st.cursors, t.cursors, conv, userID, msgID)
                else t.cursors == st.cursors)
            && (if ok && !f.status then StatusSet(st.messages, t.messages, msgID, "read")
                else t.messages == st.messages)
            && t.members == st.members && t.acks == st.acks
  {
    FoundIffRow(st.messages, msgID);
    if HasRow(st.messages, msgID) {
      CursorIsSet(st.messages, st.cursors, conv, userID, msgID);
    }
  }

  // ----- cleanup -----

  lemma {:induction false} PurgedKeeps(acks: seq<Ack>, t: AckType, cutoff: int, a: Ack)
    ensures a in Purged(acks, t, cutoff) <==> a in acks && !(a.ackType == t && a.created < cutoff)
  {
    if acks != [] {
      PurgedKeeps(acks[1..], t, cutoff, a);
      assert acks == [acks[0]] + acks[1..];
    }
  }

  // A cleanup keeps a row exactly unless it is a read ACK older than the retention, seven
  // days if none is given, or a delivered ACK older than thirty days, as far as the
  // statements work; other types stay.
  lemma CleanupKeeps(acks: seq<Ack>, now: int, retentionDays: int, fault: PurgeFault, a: Ack)
    ensures var days := if retentionDays > 0 then retentionDays else 7;
            a in Cleaned(acks, now, RetentionDays(retentionDays), fault) <==>
              && a in acks
              && !(a.ackType == ReadAck && fault != ReadFails && a.created < now - days * 86_400_000)
              && !(a.ackType == DeliveredAck && fault == PurgeWorks && a.created < now - 30 * 86_400_000)
  {
    var cutoff := now - RetentionDays(retentionDays) * DAY;
    PurgedKeeps(acks, ReadAck, cutoff, a);
    PurgedKeeps(Purged(acks, ReadAck, cutoff), DeliveredAck, now - 30 * DAY, a);
  }
}
