/** Repeated client ACKs change nothing: any run of the ACK service, its other writers and
    the cleanup included, against the one without repeats. */
module AckReplay {
  import opened Basics
  import opened Messages
  import opened MessageStore
  import opened Acks

  datatype Call = Call(userID: string, ack: ClientAck, now: int, faults: Faults)

  function KeyOfCall(c: Call): AckKey {
    AckKey(c.ack.msgID, c.userID, c.ack.ackType)
  }

  // The row a call is to leave.
  function RowOfCall(c: Call): Ack {
    Ack(c.ack.msgID, c.userID, c.ack.conversationID, c.ack.ackType, c.now, c.now)
  }

  // The call finds its message and comes from a member of the conversation it names.
  predicate Admitted(st: AckState, c: Call) {
    && !c.faults.find && HasRow(st.messages, c.ack.msgID)
    && !c.faults.member && Member(c.ack.conversationID, c.userID) in st.members
  }

  // A first call is accepted when it is admitted and its ACK is saved.
  predicate Accepts(st: AckState, c: Call) {
    Admitted(st, c) && c.faults.save == NoFault
  }

  function AcceptedKeys(acks: seq<Ack>): set<AckKey> {
    set i | 0 <= i < |acks| :: KeyOfAck(acks[i])
  }

  lemma {:induction false} KeysAreStamped(acks: seq<Ack>, key: AckKey)
    ensures key in AcceptedKeys(acks) <==> StampOf(acks, key).Some?
  {
    if acks != [] {
      KeysAreStamped(acks[1..], key);
      assert acks == [acks[0]] + acks[1..];
      if key in AcceptedKeys(acks[1..]) {
        var i :| 0 <= i < |acks[1..]| && KeyOfAck(acks[1..][i]) == key;
        assert KeyOfAck(acks[i + 1]) == key;
      }
    }
  }

  lemma {:induction false} FoundIffRow(rows: seq<Message>, msgID: string)
    ensures GetMessageByMsgID(rows, msgID).Some? <==> HasRow(rows, msgID)
  {
    if rows != [] {
      FoundIffRow(rows[1..], msgID);
      if HasRow(rows[1..], msgID) {
        var i :| 0 <= i < |rows[1..]| && rows[1..][i].msgID == msgID;
        assert rows[i + 1].msgID == msgID;
      }
    }
  }

  // A repeat of an accepted ACK changes nothing, whatever else fails, and by a member it
  // is answered as a duplicate with the stored timestamp.
  lemma RepeatIsNoOp(st: AckState, c: Call)
    requires !c.faults.existing && KeyOfCall(c) in AcceptedKeys(st.acks)
    ensures var (t, r) := Process(st, c.userID, c.ack, c.now, c.faults);
            && t == st
            && (Admitted(st, c) ==>
                StampOf(st.acks, KeyOfCall(c)).Some? && r == Answer(StampOf(st.acks, KeyOfCall(c)).value, true))
            && (!Admitted(st, c) ==> !r.Answer?)
  {
    KeysAreStamped(st.acks, KeyOfCall(c));
    FoundIffRow(st.messages, c.ack.msgID);
  }

  ghost predicate SameWorld(s: AckState, t: AckState) {
    s.members == t.members && forall id :: HasRow(s.messages, id) <==> HasRow(t.messages, id)
  }

  // ----- runs -----

  datatype Op =
    | Client(call: Call)
    | Delivered(msgID: string, conversationID: string, toUserID: string, now: int, save: SaveFault, statusFails: bool)
    | ReadMark(userID: string, conversationID: string, msgID: string, faults: Faults)
    | Pushed(msgID: string)                 // a consumer delivered it and sets its status
    | Cleanup(at: int, retentionDays: int, purge: PurgeFault)

  function Do(st: AckState, op: Op): AckState {
    match op
    case Client(c) => Process(st, c.userID, c.ack, c.now, c.faults).0
    case Delivered(id, conv, user, now, save, statusFails) => Notify(st, id, conv, user, now, save, statusFails).0
    case ReadMark(user, conv, id, f) => MarkRead(st, user, conv, id, f).0
    case Pushed(id) => st.(messages := UpdateStatus(st.messages, id, STATUS_DELIVERED))
    case Cleanup(at, days, purge) => st.(acks := Cleaned(st.acks, at, RetentionDays(days), purge))
  }

  function RunOps(st: AckState, ops: seq<Op>): AckState
    decreases ops
  {
    if ops == [] then st else RunOps(Do(st, ops[0]), ops[1..])
  }

  // ----- the stamps alone -----

  // When a key was last stamped and when its row was created.
  datatype Stamp = Stamp(ts: int, created: int)
  type Stamps = map<AckKey, Stamp>

  function StampsOf(acks: seq<Ack>): Stamps {
    if acks == [] then map[] else StampsOf(acks[1..])[KeyOfAck(acks[0]) := Stamp(acks[0].ts, acks[0].created)]
  }

  function Bumped(stamps: Stamps, key: AckKey, now: int, save: SaveFault): Stamps {
    if save != NoFault then stamps
    else if key !in stamps then stamps[key := Stamp(now, now)]
    else if now > stamps[key].ts then stamps[key := stamps[key].(ts := now)]
    else stamps
  }

  predicate CleansUp(key: AckKey, created: int, op: Op)
    requires op.Cleanup?
  {
    || (key.ackType == ReadAck && op.purge != ReadFails && created < op.at - RetentionDays(op.retentionDays) * DAY)
    || (key.ackType == DeliveredAck && op.purge == PurgeWorks && created < op.at - 30 * DAY)
  }

  function KeptStamps(stamps: Stamps, op: Op): Stamps
    requires op.Cleanup?
  {
    map key | key in stamps && !CleansUp(key, stamps[key].created, op) :: stamps[key]
  }

  // What an operation does to the stamps, given which messages and members exist: this looks
  // at no row, status or cursor.
  function NextStamps(st: AckState, stamps: Stamps, op: Op): Stamps {
    match op
    case Client(c) =>
      if Admitted(st, c) && (c.faults.existing || KeyOfCall(c) !in stamps)
      then Bumped(stamps, KeyOfCall(c), c.now, c.faults.save) else stamps
    case Delivered(id, _, user, now, save, _) => Bumped(stamps, AckKey(id, user, DeliveredAck), now, save)
    case ReadMark(_, _, _, _) => stamps
    case Pushed(_) => stamps
    case Cleanup(_, _, _) => KeptStamps(stamps, op)
  }

  // The run without the repeated ACKs, those whose key is stamped and whose duplicate check
  // does not fail.
  function DropRepeats(st: AckState, ops: seq<Op>, stamps: Stamps): seq<Op> {
    if ops == [] then []
    else
      var rest := DropRepeats(st, ops[1..], NextStamps(st, stamps, ops[0]));
      if IsRepeat(ops[0], stamps) then rest else [ops[0]] + rest
  }

  predicate IsRepeat(op: Op, stamps: Stamps) {
    op.Client? && !op.call.faults.existing && KeyOfCall(op.call) in stamps
  }

  lemma {:induction false} StampsAreStored(acks: seq<Ack>, key: AckKey)
    ensures key in StampsOf(acks) <==> key in AcceptedKeys(acks)
    ensures StampOf(acks, key) == if key in StampsOf(acks) then Some(StampsOf(acks)[key].ts) else None
  {
    KeysAreStamped(acks, key);
    if acks != [] {
      StampsAreStored(acks[1..], key);
      KeysAreStamped(acks[1..], key);
    }
  }

  lemma {:induction false} StampsUpserted(acks: seq<Ack>, row: Ack)
    requires row.ts == row.created
    ensures StampsOf(Upserted(acks, row)) == Bumped(StampsOf(acks), KeyOfAck(row), row.ts, NoFault)
  {
    if acks != [] {
      StampsUpserted(acks[1..], row);
      var next := Upserted(acks, row);
      assert next[1..] == if KeyOfAck(acks[0]) == KeyOfAck(row) then acks[1..] else Upserted(acks[1..], row);
    }
  }

  lemma StampsSaved(acks: seq<Ack>, row: Ack, fault: SaveFault)
    requires row.ts == row.created
    ensures StampsOf(Saved(acks, row, fault)) == Bumped(StampsOf(acks), KeyOfAck(row), row.ts, fault)
    ensures UniqueKeys(acks) ==> UniqueKeys(Saved(acks, row, fault))
  {
    StampsUpserted(acks, row);
    StampsAreStored(acks, KeyOfAck(row));
    if UniqueKeys(acks) { UniqueAfterUpsert(acks, row); }
  }

  function PurgedStamps(stamps: Stamps, t: AckType, cutoff: int): Stamps {
    map key | key in stamps && !(key.ackType == t && stamps[key].created < cutoff) :: stamps[key]
  }

  lemma PurgedOneMore(stamps: Stamps, key: AckKey, s: Stamp, t: AckType, cutoff: int)
    requires key !in stamps
    ensures PurgedStamps(stamps[key := s], t, cutoff)
         == if key.ackType == t && s.created < cutoff then PurgedStamps(stamps, t, cutoff)
            else PurgedStamps(stamps, t, cutoff)[key := s]
  {
  }

  lemma FirstKeyIsNew(acks: seq<Ack>)
    requires UniqueKeys(acks) && acks != []
    ensures KeyOfAck(acks[0]) !in StampsOf(acks[1..])
  {
    StampsAreStored(acks[1..], KeyOfAck(acks[0]));
    forall i | 0 <= i < |acks[1..]| ensures KeyOfAck(acks[1..][i]) != KeyOfAck(acks[0]) {
      assert acks[1..][i] == acks[i + 1];
    }
  }

  lemma {:induction false} PurgedUnique(acks: seq<Ack>, t: AckType, cutoff: int)
    requires UniqueKeys(acks)
    ensures UniqueKeys(Purged(acks, t, cutoff)) && forall a :: a in Purged(acks, t, cutoff) ==> a in acks
  {
    if acks != [] {
      var rest := Purged(acks[1..], t, cutoff);
      PurgedUnique(acks[1..], t, cutoff);
      assert acks == [acks[0]] + acks[1..];
      forall i | 0 <= i < |rest| ensures KeyOfAck(rest[i]) != KeyOfAck(acks[0]) {
        assert rest[i] in acks[1..];
      }
    }
  }

  lemma {:induction false} StampsPurged(acks: seq<Ack>, t: AckType, cutoff: int)
    requires UniqueKeys(acks)
    ensures StampsOf(Purged(acks, t, cutoff)) == PurgedStamps(StampsOf(acks), t, cutoff)
  {
    if acks == [] {
      assert PurgedStamps(map[], t, cutoff) == map[];
    } else {
      var first, rest := acks[0], Purged(acks[1..], t, cutoff);
      StampsPurged(acks[1..], t, cutoff);
      FirstKeyIsNew(acks);
      PurgedOneMore(StampsOf(acks[1..]), KeyOfAck(first), Stamp(first.ts, first.created), t, cutoff);
      if first.ackType == t && first.created < cutoff {
        assert [] + rest == rest;
      } else {
        assert ([first] + rest)[1..] == rest;
      }
    }
  }

  lemma PurgedTwice(stamps: Stamps, op: Op)
    requires op.Cleanup?
    ensures var first := PurgedStamps(stamps, ReadAck, op.at - RetentionDays(op.retentionDays) * DAY);
            KeptStamps(stamps, op)
              == match op.purge
                 case ReadFails => stamps
                 case DeliveredFails => first
                 case PurgeWorks => PurgedStamps(first, DeliveredAck, op.at - 30 * DAY)
  {
  }

  lemma CleanupStamps(acks: seq<Ack>, op: Op)
    requires UniqueKeys(acks) && op.Cleanup?
    ensures var after := Cleaned(acks, op.at, RetentionDays(op.retentionDays), op.purge);
            UniqueKeys(after) && StampsOf(after) == KeptStamps(StampsOf(acks), op)
  {
    PurgedTwice(StampsOf(acks), op);
    if op.purge != ReadFails {
      var cutoff := op.at - RetentionDays(op.retentionDays) * DAY;
      var rest := Purged(acks, ReadAck, cutoff);
      PurgedUnique(acks, ReadAck, cutoff);
      StampsPurged(acks, ReadAck, cutoff);
      if op.purge == PurgeWorks {
        PurgedUnique(rest, DeliveredAck, op.at - 30 * DAY);
        StampsPurged(rest, DeliveredAck, op.at - 30 * DAY);
      }
    }
  }

  // What a client ACK does to the table.
  lemma ClientAcks(st: AckState, c: Call)
    ensures Do(st, Client(c)).acks
         == if Admitted(st, c) && (c.faults.existing || StampOf(st.acks, KeyOfCall(c)).None?)
            then Saved(st.acks, RowOfCall(c), c.faults.save) else st.acks
  {
    FoundIffRow(st.messages, c.ack.msgID);
  }

  lemma ClientWorld(st: AckState, c: Call)
    ensures SameWorld(st, Do(st, Client(c)))
  {
    UpdateStatusHas(st.messages, c.ack.msgID, STATUS_DELIVERED);
    UpdateStatusHas(st.messages, c.ack.msgID, STATUS_READ);
  }

  // A first call adds its key exactly when it is accepted, with its own timestamp, and
  // leaves every other timestamp alone.
  lemma FirstCall(st: AckState, c: Call)
    requires !c.faults.existing && KeyOfCall(c) !in AcceptedKeys(st.acks)
    ensures var (t, r) := Process(st, c.userID, c.ack, c.now, c.faults);
            && SameWorld(st, t)
            && AcceptedKeys(t.acks) == AcceptedKeys(st.acks) + (if Accepts(st, c) then {KeyOfCall(c)} else {})
            && (Accepts(st, c) <==> r == Answer(c.now, false))
            && forall key ::
                 StampOf(t.acks, key) == if key == KeyOfCall(c) && Accepts(st, c) then Some(c.now)
                                         else StampOf(st.acks, key)
  {
    KeysAreStamped(st.acks, KeyOfCall(c));
    FoundIffRow(st.messages, c.ack.msgID);
    ClientAcks(st, c);
    ClientWorld(st, c);
    var t := Do(st, Client(c));
    assert t.acks == if Accepts(st, c) then Upserted(st.acks, RowOfCall(c)) else st.acks;
    forall key
      ensures StampOf(t.acks, key)
           == if key == KeyOfCall(c) && Accepts(st, c) then Some(c.now) else StampOf(st.acks, key)
      ensures key in AcceptedKeys(t.acks) <==> key in AcceptedKeys(st.acks) || (Accepts(st, c) && key == KeyOfCall(c))
    {
      UpsertedStamps(st.acks, RowOfCall(c), key);
      KeysAreStamped(st.acks, key);
      KeysAreStamped(t.acks, key);
    }
  }

  lemma ClientStamps(st: AckState, c: Call)
    requires UniqueKeys(st.acks)
    ensures UniqueKeys(Do(st, Client(c)).acks) && SameWorld(st, Do(st, Client(c)))
    ensures StampsOf(Do(st, Client(c)).acks) == NextStamps(st, StampsOf(st.acks), Client(c))
  {
    ClientAcks(st, c);
    ClientWorld(st, c);
    StampsAreStored(st.acks, KeyOfCall(c));
    StampsSaved(st.acks, RowOfCall(c), c.faults.save);
  }

  lemma NotifyStamps(st: AckState, op: Op)
    requires UniqueKeys(st.acks) && op.Delivered?
    ensures UniqueKeys(Do(st, op).acks) && SameWorld(st, Do(st, op))
    ensures StampsOf(Do(st, op).acks) == NextStamps(st, StampsOf(st.acks), op)
  {
    var row := Ack(op.msgID, op.toUserID, op.conversationID, DeliveredAck, op.now, op.now);
    UpdateStatusHas(st.messages, op.msgID, STATUS_DELIVERED);
    StampsSaved(st.acks, row, op.save);
    assert Do(st, op).acks == Saved(st.acks, row, op.save);
  }

  // Every operation does to the stored stamps what it does to the stamps alone, and leaves
  // messages and members in place.
  lemma StampsFollow(st: AckState, op: Op)
    requires UniqueKeys(st.acks)
    ensures UniqueKeys(Do(st, op).acks) && SameWorld(st, Do(st, op))
    ensures StampsOf(Do(st, op).acks) == NextStamps(st, StampsOf(st.acks), op)
  {
    match op
    case Client(c) => ClientStamps(st, c);
    case Delivered(_, _, _, _, _, _) => NotifyStamps(st, op);
    case ReadMark(_, _, id, _) => UpdateStatusHas(st.messages, id, STATUS_READ);
    case Pushed(id) => UpdateStatusHas(st.messages, id, STATUS_DELIVERED);
    case Cleanup(_, _, _) => CleanupStamps(st.acks, op);
  }

  lemma NextStampsSameWorld(s: AckState, t: AckState, stamps: Stamps, op: Op)
    requires SameWorld(s, t)
    ensures NextStamps(s, stamps, op) == NextStamps(t, stamps, op)
  {
    if op.Client? { assert Admitted(s, op.call) <==> Admitted(t, op.call); }
  }

  lemma {:induction false} DropRepeatsSameWorld(s: AckState, t: AckState, ops: seq<Op>, stamps: Stamps)
    requires SameWorld(s, t)
    ensures DropRepeats(s, ops, stamps) == DropRepeats(t, ops, stamps)
    decreases ops
  {
    if ops != [] {
      NextStampsSameWorld(s, t, stamps, ops[0]);
      DropRepeatsSameWorld(s, t, ops[1..], NextStamps(s, stamps, ops[0]));
    }
  }

  // Replay equivalence: however client ACKs, notifications, read marks, pushes and cleanups
  // are mixed, the ACK table, the statuses and the read cursors are the same as if no
  // accepted ACK had ever been repeated.
  lemma {:induction false} ReplayEquivalence(st: AckState, ops: seq<Op>)
    requires UniqueKeys(st.acks)
    ensures RunOps(st, ops) == RunOps(st, DropRepeats(st, ops, StampsOf(st.acks)))
    decreases ops
  {
    if ops != [] {
      var op, rest := ops[0], ops[1..];
      StampsFollow(st, op);
      ReplayEquivalence(Do(st, op), rest);
      var stamps := StampsOf(st.acks);
      var kept := DropRepeats(st, rest, NextStamps(st, stamps, op));
      DropRepeatsSameWorld(st, Do(st, op), rest, NextStamps(st, stamps, op));
      if IsRepeat(op, stamps) {
        StampsAreStored(st.acks, KeyOfCall(op.call));
        RepeatIsNoOp(st, op.call);
      } else {
        assert ([op] + kept)[1..] == kept;
      }
    }
  }

  // ----- how long the first stamp stays -----

  // The operation stamps the key later, or deletes its row.
  predicate Disturbs(st: AckState, op: Op, key: AckKey, s: Stamp) {
    match op
    case Client(c) =>
      KeyOfCall(c) == key && Admitted(st, c) && c.faults.existing && c.faults.save == NoFault && c.now > s.ts
    case Delivered(id, _, user, now, save, _) => AckKey(id, user, DeliveredAck) == key && save == NoFault && now > s.ts
    case ReadMark(_, _, _, _) => false
    case Pushed(_) => false
    case Cleanup(_, _, _) => CleansUp(key, s.created, op)
  }

  ghost predicate Undisturbed(st: AckState, ops: seq<Op>, key: AckKey, s: Stamp) {
    forall i :: 0 <= i < |ops| ==> !Disturbs(st, ops[i], key, s)
  }

  ghost predicate HasStamp(st: AckState, key: AckKey, s: Stamp) {
    key in StampsOf(st.acks) && StampsOf(st.acks)[key] == s
  }

  // One operation: the stamp stays exactly when the operation does not disturb it.
  lemma StampStaysOnce(st: AckState, op: Op, key: AckKey, s: Stamp)
    requires UniqueKeys(st.acks) && HasStamp(st, key, s)
    ensures UniqueKeys(Do(st, op).acks) && SameWorld(st, Do(st, op))
    ensures HasStamp(Do(st, op), key, s) <==> !Disturbs(st, op, key, s)
    ensures !(op.Cleanup? && CleansUp(key, s.created, op)) ==>
              exists t: int :: t >= s.ts && HasStamp(Do(st, op), key, Stamp(t, s.created))
  {
    StampsFollow(st, op);
    var stamps := StampsOf(Do(st, op).acks);
    if key in stamps { assert HasStamp(Do(st, op), key, stamps[key]); }
  }

  lemma UndisturbedSameWorld(s: AckState, t: AckState, ops: seq<Op>, key: AckKey, stamp: Stamp)
    requires SameWorld(s, t)
    ensures Undisturbed(s, ops, key, stamp) <==> Undisturbed(t, ops, key, stamp)
  {
    forall i | 0 <= i < |ops| ensures Disturbs(s, ops[i], key, stamp) <==> Disturbs(t, ops[i], key, stamp) {
      if ops[i].Client? { assert Admitted(s, ops[i].call) <==> Admitted(t, ops[i].call); }
    }
  }

  lemma UndisturbedTail(st: AckState, ops: seq<Op>, key: AckKey, s: Stamp)
    requires ops != []
    ensures Undisturbed(st, ops, key, s) <==> !Disturbs(st, ops[0], key, s) && Undisturbed(st, ops[1..], key, s)
  {
    if !Disturbs(st, ops[0], key, s) && Undisturbed(st, ops[1..], key, s) {
      forall i | 0 <= i < |ops| ensures !Disturbs(st, ops[i], key, s) {
        if i > 0 { assert ops[i] == ops[1..][i - 1]; }
      }
    }
    if Undisturbed(st, ops, key, s) {
      forall i | 0 <= i < |ops| - 1 ensures !Disturbs(st, ops[1..][i], key, s) {
        assert ops[1..][i] == ops[i + 1];
      }
    }
  }

  // The stamp is there after every prefix of the run.
  ghost predicate StaysThroughout(st: AckState, ops: seq<Op>, key: AckKey, s: Stamp)
    decreases ops
  {
    HasStamp(st, key, s) && (ops != [] ==> StaysThroughout(Do(st, ops[0]), ops[1..], key, s))
  }

  // The first stamp of an ACK stays throughout a run exactly when no notification, and no
  // repeat whose duplicate check fails, stamps it later, and no cleanup deletes it.
  lemma {:induction false} FirstStampStaysIff(st: AckState, ops: seq<Op>, key: AckKey, s: Stamp)
    requires UniqueKeys(st.acks) && HasStamp(st, key, s)
    ensures StaysThroughout(st, ops, key, s) <==> Undisturbed(st, ops, key, s)
    decreases ops
  {
    if ops != [] {
      var next := Do(st, ops[0]);
      StampStaysOnce(st, ops[0], key, s);
      UndisturbedTail(st, ops, key, s);
      UndisturbedSameWorld(st, next, ops[1..], key, s);
      if !Disturbs(st, ops[0], key, s) {
        FirstStampStaysIff(next, ops[1..], key, s);
      }
    }
  }

  // Without a cleanup of it, the final stamp tells whether the run disturbed it.
  lemma {:induction false} FinalStamp(st: AckState, ops: seq<Op>, key: AckKey, s: Stamp) returns (t: int)
    requires UniqueKeys(st.acks) && HasStamp(st, key, s)
    requires forall i :: 0 <= i < |ops| && ops[i].Cleanup? ==> !CleansUp(key, s.created, ops[i])
    ensures t >= s.ts && HasStamp(RunOps(st, ops), key, Stamp(t, s.created)) && SameWorld(st, RunOps(st, ops))
    ensures t == s.ts <==> Undisturbed(st, ops, key, s)
    decreases ops
  {
    if ops == [] {
      t := s.ts;
    } else {
      var next := Do(st, ops[0]);
      StampStaysOnce(st, ops[0], key, s);
      var u: int :| u >= s.ts && HasStamp(next, key, Stamp(u, s.created));
      UndisturbedTail(st, ops, key, s);
      UndisturbedSameWorld(st, next, ops[1..], key, s);
      forall i | 0 <= i < |ops| - 1 && ops[1..][i].Cleanup? ensures !CleansUp(key, s.created, ops[1..][i]) {
        assert ops[1..][i] == ops[i + 1];
      }
      t := FinalStamp(next, ops[1..], key, Stamp(u, s.created));
    }
  }

  // An ACK accepted at some time and repeated later by a member, its row not cleaned up in
  // between: the answer is a duplicate and changes nothing, and it carries the first time
  // exactly when nothing in between stamped the key later.
  lemma RepeatAnswersFirst(st: AckState, first: Call, between: seq<Op>, again: Call)
    requires UniqueKeys(st.acks) && !first.faults.existing && !again.faults.existing
    requires KeyOfCall(again) == KeyOfCall(first) && KeyOfCall(first) !in AcceptedKeys(st.acks)
    requires Accepts(st, first)
    requires forall i :: 0 <= i < |between| && between[i].Cleanup? ==>
               !CleansUp(KeyOfCall(first), first.now, between[i])
    ensures var later := RunOps(Do(st, Client(first)), between);
            var (t, r) := Process(later, again.userID, again.ack, again.now, again.faults);
            && t == later
            && (Admitted(st, again) ==> r.Answer? && r.duplicate && r.serverTS >= first.now)
            && (Admitted(st, again) ==>
                  (r.serverTS == first.now
                   <==> Undisturbed(st, between, KeyOfCall(first), Stamp(first.now, first.now))))
  {
    var key, s := KeyOfCall(first), Stamp(first.now, first.now);
    StampsFollow(st, Client(first));
    StampsAreStored(st.acks, key);
    var next := Do(st, Client(first));
    var t := FinalStamp(next, between, key, s);
    UndisturbedSameWorld(st, next, between, key, s);
    var later := RunOps(next, between);
    StampsAreStored(later.acks, key);
    assert Admitted(st, again) <==> Admitted(later, again);
    RepeatIsNoOp(later, again);
  }
}
