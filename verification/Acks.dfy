/** The ACK table and the two writers of it: client ACKs and delivery notifications. */
module Acks {
  import opened Basics
  import opened Messages
  import opened MessageStore

  datatype AckType = DeliveredAck | ReadAck | OtherAck(name: string)

  // A row of the ACK table; later writes move ts and leave created alone.
  datatype Ack = Ack(
    msgID: string,
    userID: string,
    conversationID: string,
    ackType: AckType,
    ts: int,
    created: int)

  datatype AckKey = AckKey(msgID: string, userID: string, ackType: AckType)

  function KeyOfAck(a: Ack): AckKey {
    AckKey(a.msgID, a.userID, a.ackType)
  }

  ghost predicate UniqueKeys(acks: seq<Ack>) {
    forall i, j :: 0 <= i < j < |acks| ==> KeyOfAck(acks[i]) != KeyOfAck(acks[j])
  }

  // The timestamp stored for a key.
  function StampOf(acks: seq<Ack>, key: AckKey): Option<int> {
    if acks == [] then None
    else if KeyOfAck(acks[0]) == key then Some(acks[0].ts)
    else StampOf(acks[1..], key)
  }

  // ----- CreateOrUpdateACK -----

  // A new key is added; a known one keeps the larger timestamp.
  function Upserted(acks: seq<Ack>, a: Ack): seq<Ack> {
    if acks == [] then [a]
    else if KeyOfAck(acks[0]) == KeyOfAck(a) then
      [if a.ts > acks[0].ts then acks[0].(ts := a.ts) else acks[0]] + acks[1..]
    else [acks[0]] + Upserted(acks[1..], a)
  }

  datatype SaveFault = NoFault | QueryFails | WriteFails

  // A failing query, or a failing write where one is needed, leaves the table as it was.
  function SaveWorks(acks: seq<Ack>, a: Ack, fault: SaveFault): bool {
    match fault
    case NoFault => true
    case QueryFails => false
    case WriteFails => StampOf(acks, KeyOfAck(a)).Some? && a.ts <= StampOf(acks, KeyOfAck(a)).value
  }

  function Saved(acks: seq<Ack>, a: Ack, fault: SaveFault): seq<Ack> {
    if SaveWorks(acks, a, fault) then Upserted(acks, a) else acks
  }

  lemma {:induction false} UpsertedAt(acks: seq<Ack>, a: Ack, n: nat)
    requires n <= |acks| && forall i :: 0 <= i < n ==> KeyOfAck(acks[i]) != KeyOfAck(a)
    ensures Upserted(acks, a) == acks[..n] + Upserted(acks[n..], a)
    ensures StampOf(acks, KeyOfAck(a)) == StampOf(acks[n..], KeyOfAck(a))
  {
    if n > 0 {
      UpsertedAt(acks[1..], a, n - 1);
      assert acks[1..][..n - 1] == acks[1..n] && acks[1..][n - 1..] == acks[n..];
      assert [acks[0]] + acks[1..n] == acks[..n];
    }
  }

  // n is the first row with the key.
  lemma UpsertedHere(acks: seq<Ack>, a: Ack, n: nat)
    requires n < |acks| && KeyOfAck(acks[n]) == KeyOfAck(a)
    requires forall i :: 0 <= i < n ==> KeyOfAck(acks[i]) != KeyOfAck(a)
    ensures Upserted(acks, a) == acks[n := if a.ts > acks[n].ts then acks[n].(ts := a.ts) else acks[n]]
    ensures StampOf(acks, KeyOfAck(a)) == Some(acks[n].ts)
  {
    UpsertedAt(acks, a, n);
    assert acks[n..] == [acks[n]] + acks[n + 1..];
  }

  lemma UpsertedNew(acks: seq<Ack>, a: Ack)
    requires forall i :: 0 <= i < |acks| ==> KeyOfAck(acks[i]) != KeyOfAck(a)
    ensures Upserted(acks, a) == acks + [a]
    ensures StampOf(acks, KeyOfAck(a)) == None
  {
    UpsertedAt(acks, a, |acks|);
    assert acks[|acks|..] == [] && acks[..|acks|] == acks;
  }

  // ----- DeleteOldACKs -----

  const DAY := 86_400_000   // milliseconds

  // The rows of one type created before the cutoff are deleted.
  function Purged(acks: seq<Ack>, t: AckType, cutoff: int): seq<Ack> {
    if acks == [] then []
    else (if acks[0].ackType == t && acks[0].created < cutoff then [] else [acks[0]]) + Purged(acks[1..], t, cutoff)
  }

  datatype PurgeFault = PurgeWorks | ReadFails | DeliveredFails

  // Read ACKs by the given retention, then delivered ACKs by thirty days. A failing
  // statement ends it.
  function Cleaned(acks: seq<Ack>, now: int, retentionDays: int, fault: PurgeFault): seq<Ack> {
    if fault == ReadFails then acks
    else
      var rest := Purged(acks, ReadAck, now - retentionDays * DAY);
      if fault == DeliveredFails then rest else Purged(rest, DeliveredAck, now - 30 * DAY)
  }

  class AckTable {
    var acks: seq<Ack>

    method DeleteOldACKs(now: int, retentionDays: int, fault: PurgeFault) returns (deleted: Option<int>)
      modifies this
      ensures acks == Cleaned(old(acks), now, retentionDays, fault)
      ensures deleted == if fault == PurgeWorks then Some(|old(acks)| - |acks|) else None
    {
      if fault == ReadFails { return None; }
      var before := |acks|;
      acks := Purged(acks, ReadAck, now - retentionDays * DAY);
      if fault == DeliveredFails { return None; }
      acks := Purged(acks, DeliveredAck, now - 30 * DAY);
      return Some(before - |acks|);
    }

    method CreateOrUpdateACK(a: Ack, fault: SaveFault) returns (ok: bool)
      modifies this
      ensures ok == SaveWorks(old(acks), a, fault)
      ensures acks == Saved(old(acks), a, fault)
    {
      if fault == QueryFails { return false; }
      var i := 0;
      while i < |acks| && KeyOfAck(acks[i]) != KeyOfAck(a)
        invariant i <= |acks| && acks == old(acks)
        invariant forall j :: 0 <= j < i ==> KeyOfAck(acks[j]) != KeyOfAck(a)
      {
        i := i + 1;
      }
      if i < |acks| {
        UpsertedHere(acks, a, i);
        if a.ts > acks[i].ts {
          if fault == WriteFails { return false; }
          acks := acks[i := acks[i].(ts := a.ts)];
        }
        return true;
      }
      UpsertedNew(acks, a);
      if fault == WriteFails { return false; }
      acks := acks + [a];
      return true;
    }
  }

  // ----- writes are a max-merge -----

  function RunWrites(acks: seq<Ack>, writes: seq<Ack>): seq<Ack> {
    if writes == [] then acks
    else Upserted(RunWrites(acks, writes[..|writes| - 1]), writes[|writes| - 1])
  }

  ghost predicate Writes(writes: seq<Ack>, key: AckKey, t: int) {
    exists i :: 0 <= i < |writes| && KeyOfAck(writes[i]) == key && writes[i].ts == t
  }

  // The largest timestamp written for the key, if any was.
  ghost predicate IsMaxWritten(writes: seq<Ack>, key: AckKey, r: Option<int>) {
    match r
    case None => forall t :: !Writes(writes, key, t)
    case Some(m) => Writes(writes, key, m) && forall t :: Writes(writes, key, t) ==> t <= m
  }

  function MaxStamp(r: Option<int>, t: int): int {
    if r.Some? && r.value >= t then r.value else t
  }

  lemma {:induction false} UpsertedStamps(acks: seq<Ack>, a: Ack, key: AckKey)
    ensures StampOf(Upserted(acks, a), key)
         == if key == KeyOfAck(a) then Some(MaxStamp(StampOf(acks, key), a.ts)) else StampOf(acks, key)
  {
    if acks != [] {
      UpsertedStamps(acks[1..], a, key);
      assert Upserted(acks, a)[1..] == if KeyOfAck(acks[0]) == KeyOfAck(a) then acks[1..] else Upserted(acks[1..], a);
    }
  }

  lemma {:induction false} RowHasStamp(acks: seq<Ack>, i: nat)
    requires i < |acks|
    ensures StampOf(acks, KeyOfAck(acks[i])).Some?
  {
    if i > 0 { RowHasStamp(acks[1..], i - 1); }
  }

  lemma {:induction false} UniqueAfterUpsert(acks: seq<Ack>, a: Ack)
    requires UniqueKeys(acks)
    ensures UniqueKeys(Upserted(acks, a))
  {
    if acks != [] && KeyOfAck(acks[0]) != KeyOfAck(a) {
      UniqueAfterUpsert(acks[1..], a);
      var rest := Upserted(acks[1..], a);
      forall i | 0 <= i < |rest| ensures KeyOfAck(rest[i]) != KeyOfAck(acks[0]) {
        if KeyOfAck(rest[i]) == KeyOfAck(acks[0]) {
          RowHasStamp(rest, i);
          UpsertedStamps(acks[1..], a, KeyOfAck(acks[0]));
          StampIsRow(acks[1..], KeyOfAck(acks[0]));
        }
      }
    }
  }

  // With unique keys the stored stamp is the only one of its key.
  lemma {:induction false} StampIsRow(acks: seq<Ack>, key: AckKey)
    ensures StampOf(acks, key).None? ==> forall t :: !Writes(acks, key, t)
    ensures StampOf(acks, key).Some? ==> Writes(acks, key, StampOf(acks, key).value)
    ensures UniqueKeys(acks) ==> IsMaxWritten(acks, key, StampOf(acks, key))
  {
    if acks != [] {
      StampIsRow(acks[1..], key);
      WritesCons(acks[0], acks[1..]);
      assert acks == [acks[0]] + acks[1..];
    }
  }

  lemma WritesCons(w: Ack, writes: seq<Ack>)
    ensures forall key, t ::
              Writes([w] + writes, key, t) <==> Writes(writes, key, t) || (KeyOfAck(w) == key && w.ts == t)
  {
    var all := [w] + writes;
    forall key, t
      ensures Writes(all, key, t) <==> Writes(writes, key, t) || (KeyOfAck(w) == key && w.ts == t)
    {
      if Writes(writes, key, t) {
        var i :| 0 <= i < |writes| && KeyOfAck(writes[i]) == key && writes[i].ts == t;
        assert all[i + 1] == writes[i];
      }
      if KeyOfAck(w) == key && w.ts == t { assert all[0] == w; }
    }
  }

  lemma WritesSnoc(writes: seq<Ack>, w: Ack)
    ensures forall key, t ::
              Writes(writes + [w], key, t) <==> Writes(writes, key, t) || (KeyOfAck(w) == key && w.ts == t)
  {
    var all := writes + [w];
    forall key, t
      ensures Writes(all, key, t) <==> Writes(writes, key, t) || (KeyOfAck(w) == key && w.ts == t)
    {
      if Writes(writes, key, t) {
        var i :| 0 <= i < |writes| && KeyOfAck(writes[i]) == key && writes[i].ts == t;
        assert all[i] == writes[i];
      }
      if KeyOfAck(w) == key && w.ts == t { assert all[|writes|] == w; }
    }
  }

  // Over any run of writes the keys stay unique and every stored timestamp is the largest
  // ever written for its key, the rows present at the start counting as written.
  lemma {:induction false} StampsAreMaxima(acks: seq<Ack>, writes: seq<Ack>, key: AckKey)
    requires UniqueKeys(acks)
    ensures UniqueKeys(RunWrites(acks, writes))
    ensures IsMaxWritten(acks + writes, key, StampOf(RunWrites(acks, writes), key))
  {
    if writes == [] {
      assert acks + [] == acks;
      StampIsRow(acks, key);
    } else {
      var init, last := writes[..|writes| - 1], writes[|writes| - 1];
      StampsAreMaxima(acks, init, key);
      UniqueAfterUpsert(RunWrites(acks, init), last);
      UpsertedStamps(RunWrites(acks, init), last, key);
      assert acks + writes == (acks + init) + [last];
      WritesSnoc(acks + init, last);
    }
  }

  ghost predicate SameWrites(a: seq<Ack>, b: seq<Ack>) {
    forall key, t :: Writes(a, key, t) <==> Writes(b, key, t)
  }

  // So the final timestamps do not depend on the order of the writes or on repeats.
  lemma WriteOrderIrrelevant(acks: seq<Ack>, a: seq<Ack>, b: seq<Ack>, key: AckKey)
    requires UniqueKeys(acks) && SameWrites(acks + a, acks + b)
    ensures StampOf(RunWrites(acks, a), key) == StampOf(RunWrites(acks, b), key)
  {
    StampsAreMaxima(acks, a, key);
    StampsAreMaxima(acks, b, key);
  }

  // ----- ProcessACK -----

  datatype ReadCursor = ReadCursor(msgID: string, ts: int)

  datatype AckState = AckState(
    messages: seq<Message>,
    members: seq<Member>,
    acks: seq<Ack>,
    cursors: map<Member, ReadCursor>)

  datatype ClientAck = ClientAck(msgID: string, conversationID: string, ackType: AckType)

  // Which of the database calls fail.
  datatype Faults = Faults(find: bool, member: bool, existing: bool, save: SaveFault, status: bool, cursor: bool)

  datatype Response =
    | Answer(serverTS: int, duplicate: bool)
    | NotFound
    | MembershipUnknown
    | NotMember
    | SaveFailed

  function WithStatus(st: AckState, msgID: string, status: string, fails: bool): AckState {
    if fails then st else st.(messages := UpdateStatus(st.messages, msgID, status))
  }

  function Process(st: AckState, userID: string, ack: ClientAck, now: int, f: Faults): (AckState, Response) {
    var msg := GetMessageByMsgID(st.messages, ack.msgID);
    var row := Ack(ack.msgID, userID, ack.conversationID, ack.ackType, now, now);
    var stored := StampOf(st.acks, KeyOfAck(row));
    if f.find || msg.None? then (st, NotFound)
    else if f.member then (st, MembershipUnknown)
    else if Member(ack.conversationID, userID) !in st.members then (st, NotMember)
    else if !f.existing && stored.Some? then (st, Answer(stored.value, true))
    else if !SaveWorks(st.acks, row, f.save) then (st, SaveFailed)
    else
      var saved := st.(acks := Upserted(st.acks, row));
      var next :=
        match ack.ackType
        case DeliveredAck => WithStatus(saved, ack.msgID, STATUS_DELIVERED, f.status)
        case ReadAck =>
          var marked := WithStatus(saved, ack.msgID, STATUS_READ, f.status);
          if f.cursor then marked
          else
            var at := ReadCursor(ack.msgID, msg.value.serverTS);
            marked.(cursors := marked.cursors[Member(ack.conversationID, userID) := at])
        case OtherAck(_) => saved;
      (next, Answer(now, false))
  }

  function Notify(st: AckState, msgID: string, conversationID: string, toUserID: string, now: int,
                  save: SaveFault, statusFails: bool): (AckState, bool) {
    var row := Ack(msgID, toUserID, conversationID, DeliveredAck, now, now);
    if !SaveWorks(st.acks, row, save) then (st, false)
    else (WithStatus(st.(acks := Upserted(st.acks, row)), msgID, STATUS_DELIVERED, statusFails), true)
  }

  // MarkAsRead writes no ACK: it moves the read cursor and then the status.
  function MarkRead(st: AckState, userID: string, conversationID: string, msgID: string, f: Faults): (AckState, bool) {
    var msg := GetMessageByMsgID(st.messages, msgID);
    var reader := Member(conversationID, userID);
    if f.member || reader !in st.members || f.find || msg.None? || f.cursor then (st, false)
    else
      var moved := st.(cursors := st.cursors[reader := ReadCursor(msgID, msg.value.serverTS)]);
      (WithStatus(moved, msgID, STATUS_READ, f.status), true)
  }

  // CleanupOldACKs keeps read ACKs for seven days by default.
  function RetentionDays(requested: int): int {
    if requested <= 0 then 7 else requested
  }

  class AckService {
    var messages: seq<Message>
    var members: seq<Member>
    const table: AckTable
    var cursors: map<Member, ReadCursor>

    constructor (messages: seq<Message>, members: seq<Member>, table: AckTable)
      ensures this.messages == messages && this.members == members && this.table == table && cursors == map[]
    {
      this.messages, this.members, this.table, cursors := messages, members, table, map[];
    }

    function State(): AckState
      reads this, table
    {
      AckState(messages, members, table.acks, cursors)
    }

    method ProcessACK(userID: string, ack: ClientAck, now: int, f: Faults) returns (r: Response)
      modifies this, table
      ensures (State(), r) == Process(old(State()), userID, ack, now, f)
    {
      var msg := if f.find then None else GetMessageByMsgID(messages, ack.msgID);
      if msg.None? { return NotFound; }
      if f.member { return MembershipUnknown; }
      if Member(ack.conversationID, userID) !in members { return NotMember; }
      var row := Ack(ack.msgID, userID, ack.conversationID, ack.ackType, now, now);
      if !f.existing {
        var stored := StampOf(table.acks, KeyOfAck(row));
        if stored.Some? { return Answer(stored.value, true); }
      }
      var ok := table.CreateOrUpdateACK(row, f.save);
      if !ok { return SaveFailed; }
      if ack.ackType == DeliveredAck {
        if !f.status { messages := UpdateStatus(messages, ack.msgID, STATUS_DELIVERED); }
      } else if ack.ackType == ReadAck {
        if !f.status { messages := UpdateStatus(messages, ack.msgID, STATUS_READ); }
        if !f.cursor {
          cursors := cursors[Member(ack.conversationID, userID) := ReadCursor(ack.msgID, msg.value.serverTS)];
        }
      }
      return Answer(now, false);
    }

    method NotifyMessageDelivered(msgID: string, conversationID: string, toUserID: string, now: int,
                                  save: SaveFault, statusFails: bool)
      returns (ok: bool)
      modifies this, table
      ensures (State(), ok) == Notify(old(State()), msgID, conversationID, toUserID, now, save, statusFails)
    {
      ok := table.CreateOrUpdateACK(Ack(msgID, toUserID, conversationID, DeliveredAck, now, now), save);
      if ok && !statusFails {
        messages := UpdateStatus(messages, msgID, STATUS_DELIVERED);
      }
    }

    method MarkAsRead(userID: string, conversationID: string, msgID: string, f: Faults) returns (ok: bool)
      modifies this
      ensures (State(), ok) == MarkRead(old(State()), userID, conversationID, msgID, f)
    {
      if f.member || Member(conversationID, userID) !in members { return false; }
      var msg := if f.find then None else GetMessageByMsgID(messages, msgID);
      if msg.None? || f.cursor { return false; }
      cursors := cursors[Member(conversationID, userID) := ReadCursor(msgID, msg.value.serverTS)];
      if !f.status { messages := UpdateStatus(messages, msgID, STATUS_READ); }
      return true;
    }

    method CleanupOldACKs(retentionDays: int, now: int, fault: PurgeFault) returns (deleted: Option<int>)
      modifies table
      ensures State() == old(State()).(acks := Cleaned(old(table.acks), now, RetentionDays(retentionDays), fault))
      ensures deleted == if fault == PurgeWorks then Some(|old(table.acks)| - |table.acks|) else None
    {
      deleted := table.DeleteOldACKs(now, RetentionDays(retentionDays), fault);
    }
  }
}
