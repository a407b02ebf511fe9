/** ACK compensation: what SyncACKs returns, and when a client that follows it converges. */
module AckSync {
  import opened Basics
  import opened MessageStore
  import opened Acks

  // ----- the query -----

  predicate Matches(a: Ack, userID: string, conv: string, afterTS: int, t: AckType) {
    && a.userID == userID && a.conversationID == conv && a.ackType == t
    && (afterTS > 0 ==> a.ts > afterTS)
  }

  function InsertByTS(a: Ack, acks: seq<Ack>): seq<Ack> {
    if acks == [] || a.ts <= acks[0].ts then [a] + acks else [acks[0]] + InsertByTS(a, acks[1..])
  }

  // GetACKsByConversation: the matching rows by ascending timestamp.
  function GetACKs(acks: seq<Ack>, userID: string, conv: string, afterTS: int, t: AckType): seq<Ack> {
    if acks == [] then []
    else
      var rest := GetACKs(acks[1..], userID, conv, afterTS, t);
      if Matches(acks[0], userID, conv, afterTS, t) then InsertByTS(acks[0], rest) else rest
  }

  ghost predicate Ascending(acks: seq<Ack>) {
    forall i, j :: 0 <= i < j < |acks| ==> acks[i].ts <= acks[j].ts
  }

  lemma {:induction false} InsertByTSSpec(a: Ack, acks: seq<Ack>)
    requires Ascending(acks)
    ensures Ascending(InsertByTS(a, acks))
    ensures forall r :: r in InsertByTS(a, acks) <==> r == a || r in acks
  {
    if acks != [] && a.ts > acks[0].ts {
      InsertByTSSpec(a, acks[1..]);
      assert acks == [acks[0]] + acks[1..];
      var rest := InsertByTS(a, acks[1..]);
      forall i | 0 <= i < |rest| ensures acks[0].ts <= rest[i].ts {
        assert rest[i] == a || rest[i] in acks[1..];
      }
    }
  }

  lemma {:induction false} GetACKsSpec(acks: seq<Ack>, userID: string, conv: string, afterTS: int, t: AckType)
    ensures Ascending(GetACKs(acks, userID, conv, afterTS, t))
    ensures forall r ::
              r in GetACKs(acks, userID, conv, afterTS, t) <==> r in acks && Matches(r, userID, conv, afterTS, t)
  {
    if acks != [] {
      GetACKsSpec(acks[1..], userID, conv, afterTS, t);
      assert acks == [acks[0]] + acks[1..];
      InsertByTSSpec(acks[0], GetACKs(acks[1..], userID, conv, afterTS, t));
    }
  }

  lemma {:induction false} InsertKeepsUnique(a: Ack, acks: seq<Ack>)
    requires UniqueKeys(acks) && Ascending(acks) && forall r :: r in acks ==> KeyOfAck(r) != KeyOfAck(a)
    ensures UniqueKeys(InsertByTS(a, acks))
  {
    if acks != [] && a.ts > acks[0].ts {
      var rest := InsertByTS(a, acks[1..]);
      InsertKeepsUnique(a, acks[1..]);
      InsertByTSSpec(a, acks[1..]);
      forall i | 0 <= i < |rest| ensures KeyOfAck(rest[i]) != KeyOfAck(acks[0]) {
        assert rest[i] == a || rest[i] in acks[1..];
      }
    }
  }

  lemma {:induction false} GetACKsUnique(acks: seq<Ack>, userID: string, conv: string, afterTS: int, t: AckType)
    requires UniqueKeys(acks)
    ensures UniqueKeys(GetACKs(acks, userID, conv, afterTS, t))
  {
    if acks != [] {
      var rest := GetACKs(acks[1..], userID, conv, afterTS, t);
      GetACKsUnique(acks[1..], userID, conv, afterTS, t);
      GetACKsSpec(acks[1..], userID, conv, afterTS, t);
      forall r | r in rest ensures KeyOfAck(r) != KeyOfAck(acks[0]) {
        var i :| 0 <= i < |acks[1..]| && acks[1..][i] == r;
        assert acks[i + 1] == r;
      }
      InsertKeepsUnique(acks[0], rest);
    }
  }

  // ----- SyncACKs -----

  datatype SyncRequest = SyncRequest(conversationID: string, lastMsgID: string, lastTS: int, types: seq<AckType>)
  datatype SyncResponse = SyncResponse(delivered: seq<Ack>, read: seq<Ack>, missedCount: nat)

  function Without(acks: seq<Ack>, msgID: string): seq<Ack> {
    if acks == [] then []
    else
      var init := Without(acks[..|acks| - 1], msgID);
      if acks[|acks| - 1].msgID != msgID then init + [acks[|acks| - 1]] else init
  }

  lemma {:induction false} WithoutSpec(acks: seq<Ack>, msgID: string)
    ensures forall r :: r in Without(acks, msgID) <==> r in acks && r.msgID != msgID
  {
    if acks != [] {
      WithoutSpec(acks[..|acks| - 1], msgID);
      assert acks == acks[..|acks| - 1] + [acks[|acks| - 1]];
    }
  }

  lemma {:induction false} WithoutAscends(acks: seq<Ack>, msgID: string)
    requires Ascending(acks)
    ensures Ascending(Without(acks, msgID))
  {
    if acks != [] {
      var init := acks[..|acks| - 1];
      WithoutAscends(init, msgID);
      WithoutSpec(init, msgID);
      var kept := Without(init, msgID);
      forall i | 0 <= i < |kept| ensures kept[i].ts <= acks[|acks| - 1].ts {
        assert kept[i] in init;
      }
    }
  }

  lemma {:induction false} WithoutUnique(acks: seq<Ack>, msgID: string)
    requires UniqueKeys(acks)
    ensures UniqueKeys(Without(acks, msgID))
  {
    if acks != [] {
      var init := acks[..|acks| - 1];
      WithoutUnique(init, msgID);
      WithoutSpec(init, msgID);
      var kept := Without(init, msgID);
      forall i | 0 <= i < |kept| ensures KeyOfAck(kept[i]) != KeyOfAck(acks[|acks| - 1]) {
        assert kept[i] in init;
      }
    }
  }

  function EffectiveTypes(types: seq<AckType>): seq<AckType> {
    if types == [] then [DeliveredAck, ReadAck] else types
  }

  // The rows sent for one type: past the client's timestamp, except those of its last
  // acknowledged message.
  function Missed(acks: seq<Ack>, userID: string, req: SyncRequest, t: AckType): seq<Ack> {
    Without(GetACKs(acks, userID, req.conversationID, req.lastTS, t), req.lastMsgID)
  }

  // Type by type; a type whose query fails is skipped, and a later answer for a type
  // replaces an earlier one while the count adds up.
  function Sync(acks: seq<Ack>, userID: string, req: SyncRequest, types: seq<AckType>,
                failed: set<AckType>): SyncResponse {
    if types == [] then SyncResponse([], [], 0)
    else
      var before := Sync(acks, userID, req, types[..|types| - 1], failed);
      var t := types[|types| - 1];
      if t in failed then before
      else
        var missed := Missed(acks, userID, req, t);
        SyncResponse(if t == DeliveredAck then missed else before.delivered,
                     if t == ReadAck then missed else before.read,
                     before.missedCount + |missed|)
  }

  // What the response holds for each type: the missed rows if the type was asked for and
  // its query worked, nothing otherwise.
  lemma {:induction false} SyncSpec(acks: seq<Ack>, userID: string, req: SyncRequest, types: seq<AckType>,
                                    failed: set<AckType>)
    ensures var r := Sync(acks, userID, req, types, failed);
            && r.delivered == (if DeliveredAck in types && DeliveredAck !in failed
                               then Missed(acks, userID, req, DeliveredAck) else [])
            && r.read == (if ReadAck in types && ReadAck !in failed then Missed(acks, userID, req, ReadAck) else [])
  {
    if types != [] {
      var init, t := types[..|types| - 1], types[|types| - 1];
      SyncSpec(acks, userID, req, init, failed);
      assert types == init + [t];
      assert DeliveredAck in types <==> DeliveredAck in init || t == DeliveredAck;
      assert ReadAck in types <==> ReadAck in init || t == ReadAck;
    }
  }

  // Without a choice both types are asked for.
  predicate AskedFor(req: SyncRequest, t: AckType) {
    if req.types == [] then t == DeliveredAck || t == ReadAck else t in req.types
  }

  // The response's rows of one type: in order, none twice, and exactly the stored ones that
  // are the user's in the conversation, asked for, not skipped by a failing query, past the
  // client's timestamp if it sent one, and not of the message it named.
  ghost predicate Answers(rows: seq<Ack>, acks: seq<Ack>, userID: string, req: SyncRequest, failed: set<AckType>,
                          t: AckType) {
    && Ascending(rows) && (UniqueKeys(acks) ==> UniqueKeys(rows))
    && forall a :: a in rows <==>
         && a in acks && a.userID == userID && a.conversationID == req.conversationID && a.ackType == t
         && AskedFor(req, t) && t !in failed
         && (req.lastTS > 0 ==> a.ts > req.lastTS) && a.msgID != req.lastMsgID
  }

  lemma MissedAnswers(acks: seq<Ack>, userID: string, req: SyncRequest, failed: set<AckType>, t: AckType)
    ensures Answers(if AskedFor(req, t) && t !in failed then Missed(acks, userID, req, t) else [],
                    acks, userID, req, failed, t)
  {
    var found := GetACKs(acks, userID, req.conversationID, req.lastTS, t);
    GetACKsSpec(acks, userID, req.conversationID, req.lastTS, t);
    WithoutSpec(found, req.lastMsgID);
    WithoutAscends(found, req.lastMsgID);
    if UniqueKeys(acks) {
      GetACKsUnique(acks, userID, req.conversationID, req.lastTS, t);
      WithoutUnique(found, req.lastMsgID);
    }
  }

  // A type nobody asked for is not sent; one that was asked for is, row for row.
  lemma SyncAnswers(acks: seq<Ack>, userID: string, req: SyncRequest, failed: set<AckType>)
    ensures var r := Sync(acks, userID, req, EffectiveTypes(req.types), failed);
            && Answers(r.delivered, acks, userID, req, failed, DeliveredAck)
            && Answers(r.read, acks, userID, req, failed, ReadAck)
            && (req.types != [] && DeliveredAck !in req.types ==> r.delivered == [])
            && (req.types != [] && ReadAck !in req.types ==> r.read == [])
  {
    SyncSpec(acks, userID, req, EffectiveTypes(req.types), failed);
    MissedAnswers(acks, userID, req, failed, DeliveredAck);
    MissedAnswers(acks, userID, req, failed, ReadAck);
  }

  // None stands for an error: the membership query fails, or the user is outside the conversation.
  method SyncACKs(acks: seq<Ack>, members: seq<Member>, userID: string, req: SyncRequest,
                  memberQueryFails: bool, failed: set<AckType>)
    returns (r: Option<SyncResponse>)
    ensures r.Some? <==> !memberQueryFails && Member(req.conversationID, userID) in members
    ensures r.Some? ==>
              && Answers(r.value.delivered, acks, userID, req, failed, DeliveredAck)
              && Answers(r.value.read, acks, userID, req, failed, ReadAck)
              && (req.types != [] && DeliveredAck !in req.types ==> r.value.delivered == [])
              && (req.types != [] && ReadAck !in req.types ==> r.value.read == [])
              && r.value == Sync(acks, userID, req, EffectiveTypes(req.types), failed)
  {
    if memberQueryFails || Member(req.conversationID, userID) !in members { return None; }
    var types := req.types;
    if |types| == 0 {
      types := [DeliveredAck, ReadAck];
    }
    var delivered, read := [], [];
    var missedCount: nat := 0;
    var i := 0;
    assert types[..0] == [];
    while i < |types|
      invariant i <= |types|
      invariant SyncResponse(delivered, read, missedCount) == Sync(acks, userID, req, types[..i], failed)
    {
      var ackType := types[i];
      assert types[..i + 1][..i] == types[..i];
      i := i + 1;
      if ackType in failed { continue; }
      var found := GetACKs(acks, userID, req.conversationID, req.lastTS, ackType);
      var missed := [];
      var j := 0;
      assert found[..0] == [];
      while j < |found|
        invariant j <= |found|
        invariant missed == Without(found[..j], req.lastMsgID)
      {
        assert found[..j + 1][..j] == found[..j];
        if found[j].msgID != req.lastMsgID {
          missed := missed + [found[j]];
        }
        j := j + 1;
      }
      assert found[..|found|] == found;
      missedCount := missedCount + |missed|;
      if ackType == DeliveredAck {
        delivered := missed;
      } else if ackType == ReadAck {
        read := missed;
      }
    }
    assert types[..|types|] == types;
    SyncAnswers(acks, userID, req, failed);
    return Some(SyncResponse(delivered, read, missedCount));
  }

  predicate KnownOnce(types: seq<AckType>) {
    && (forall i :: 0 <= i < |types| ==> types[i] == DeliveredAck || types[i] == ReadAck)
    && (forall i, j :: 0 <= i < j < |types| ==> types[i] != types[j])
  }

  // MissedCount is the number of rows returned when every type asked for is known and
  // asked for once, as in the default request.
  lemma {:induction false} MissedCountIsReturned(acks: seq<Ack>, userID: string, req: SyncRequest,
                                                 types: seq<AckType>, failed: set<AckType>)
    requires KnownOnce(types)
    ensures var r := Sync(acks, userID, req, types, failed);
            r.missedCount == |r.delivered| + |r.read|
  {
    if types != [] {
      var init, t := types[..|types| - 1], types[|types| - 1];
      MissedCountIsReturned(acks, userID, req, init, failed);
      SyncSpec(acks, userID, req, init, failed);
      assert t !in init;
    }
  }

  // The rows of one type that the client has missed.
  function MissedRows(acks: seq<Ack>, userID: string, req: SyncRequest, t: AckType): set<Ack> {
    set a | && a in acks && a.userID == userID && a.conversationID == req.conversationID && a.ackType == t
            && (req.lastTS > 0 ==> a.ts > req.lastTS) && a.msgID != req.lastMsgID
  }

  function Sum(counts: seq<nat>): nat {
    if counts == [] then 0 else Sum(counts[..|counts| - 1]) + counts[|counts| - 1]
  }

  function Counts(acks: seq<Ack>, userID: string, req: SyncRequest, types: seq<AckType>,
                  failed: set<AckType>): seq<nat> {
    seq(|types|, i requires 0 <= i < |types| =>
      if types[i] in failed then 0 else |MissedRows(acks, userID, req, types[i])|)
  }

  lemma {:induction false} UniqueCount(rows: seq<Ack>)
    requires UniqueKeys(rows)
    ensures |set r | r in rows| == |rows|
  {
    if rows != [] {
      var init, last := rows[..|rows| - 1], rows[|rows| - 1];
      UniqueCount(init);
      assert (set r | r in rows) == (set r | r in init) + {last};
    }
  }

  lemma MissedCounted(acks: seq<Ack>, userID: string, req: SyncRequest, t: AckType)
    requires UniqueKeys(acks)
    ensures |Missed(acks, userID, req, t)| == |MissedRows(acks, userID, req, t)|
  {
    var missed := Missed(acks, userID, req, t);
    MissedAnswers(acks, userID, req.(types := [t]), {}, t);
    UniqueCount(missed);
    assert (set r | r in missed) == MissedRows(acks, userID, req, t);
  }

  // MissedCount in general: the missed rows of every type as often as it is asked for,
  // types that are unknown and have no place in the response included.
  lemma {:induction false} MissedCountIsSum(acks: seq<Ack>, userID: string, req: SyncRequest, types: seq<AckType>,
                                            failed: set<AckType>)
    requires UniqueKeys(acks)
    ensures Sync(acks, userID, req, types, failed).missedCount == Sum(Counts(acks, userID, req, types, failed))
  {
    if types != [] {
      var init, t := types[..|types| - 1], types[|types| - 1];
      var counts := Counts(acks, userID, req, types, failed);
      MissedCountIsSum(acks, userID, req, init, failed);
      MissedCounted(acks, userID, req, t);
      assert counts[..|counts| - 1] == Counts(acks, userID, req, init, failed);
    }
  }

  // ----- a client that folds in what it is sent -----

  type Held = map<AckKey, int>

  predicate InView(a: Ack, userID: string, conv: string) {
    a.userID == userID && a.conversationID == conv && (a.ackType == DeliveredAck || a.ackType == ReadAck)
  }

  ghost predicate ViewHas(acks: seq<Ack>, userID: string, conv: string, key: AckKey, t: int) {
    exists a :: a in acks && InView(a, userID, conv) && KeyOfAck(a) == key && a.ts == t
  }

  // The client holds exactly the server's rows for the user and conversation.
  ghost predicate InSync(held: Held, acks: seq<Ack>, userID: string, conv: string) {
    && (forall key :: key in held ==> ViewHas(acks, userID, conv, key, held[key]))
    && (forall a :: a in acks && InView(a, userID, conv) ==> KeyOfAck(a) in held)
  }

  function Fold(held: Held, rows: seq<Ack>): Held {
    if rows == [] then held
    else Fold(held, rows[..|rows| - 1])[KeyOfAck(rows[|rows| - 1]) := rows[|rows| - 1].ts]
  }

  function FoldAll(held: Held, r: SyncResponse): Held {
    Fold(Fold(held, r.delivered), r.read)
  }

  lemma {:induction false} SameKeySameAck(acks: seq<Ack>, a: Ack, b: Ack)
    requires UniqueKeys(acks) && a in acks && b in acks && KeyOfAck(a) == KeyOfAck(b)
    ensures a == b
  {
    var i :| 0 <= i < |acks| && acks[i] == a;
    var j :| 0 <= j < |acks| && acks[j] == b;
  }

  ghost predicate HasKey(rows: seq<Ack>, key: AckKey) {
    exists a :: a in rows && KeyOfAck(a) == key
  }

  // Folding overwrites the keys of the rows and keeps the others.
  lemma {:induction false} FoldSpec(acks: seq<Ack>, held: Held, rows: seq<Ack>)
    requires UniqueKeys(acks) && forall a :: a in rows ==> a in acks
    ensures forall a :: a in rows ==> KeyOfAck(a) in Fold(held, rows) && Fold(held, rows)[KeyOfAck(a)] == a.ts
    ensures forall key :: !HasKey(rows, key) ==>
              (key in Fold(held, rows) <==> key in held) && (key in held ==> Fold(held, rows)[key] == held[key])
  {
    if rows != [] {
      var init, last := rows[..|rows| - 1], rows[|rows| - 1];
      assert rows == init + [last];
      FoldSpec(acks, held, init);
      forall a | a in rows ensures KeyOfAck(a) in Fold(held, rows) && Fold(held, rows)[KeyOfAck(a)] == a.ts {
        if KeyOfAck(a) == KeyOfAck(last) { SameKeySameAck(acks, a, last); }
      }
      assert forall a :: a in init ==> a in rows;
      assert last in rows;
    }
  }

  // The row is among those sent.
  predicate IsSent(a: Ack, req: SyncRequest, failed: set<AckType>) {
    && AskedFor(req, a.ackType) && a.ackType !in failed
    && (req.lastTS > 0 ==> a.ts > req.lastTS)
    && a.msgID != req.lastMsgID
  }

  lemma SentRows(acks: seq<Ack>, userID: string, req: SyncRequest, failed: set<AckType>)
    ensures var r := Sync(acks, userID, req, EffectiveTypes(req.types), failed);
            && (forall a :: a in r.delivered <==>
                  && a in acks && InView(a, userID, req.conversationID) && a.ackType == DeliveredAck
                  && IsSent(a, req, failed))
            && (forall a :: a in r.read <==>
                  && a in acks && InView(a, userID, req.conversationID) && a.ackType == ReadAck
                  && IsSent(a, req, failed))
  {
    SyncSpec(acks, userID, req, EffectiveTypes(req.types), failed);
    GetACKsSpec(acks, userID, req.conversationID, req.lastTS, DeliveredAck);
    GetACKsSpec(acks, userID, req.conversationID, req.lastTS, ReadAck);
    WithoutSpec(GetACKs(acks, userID, req.conversationID, req.lastTS, DeliveredAck), req.lastMsgID);
    WithoutSpec(GetACKs(acks, userID, req.conversationID, req.lastTS, ReadAck), req.lastMsgID);
  }

  lemma FoldAllSpec(acks: seq<Ack>, held: Held, userID: string, req: SyncRequest, failed: set<AckType>)
    requires UniqueKeys(acks)
    ensures var after := FoldAll(held, Sync(acks, userID, req, EffectiveTypes(req.types), failed));
            && (forall a :: a in acks && InView(a, userID, req.conversationID) && IsSent(a, req, failed) ==>
                  KeyOfAck(a) in after && after[KeyOfAck(a)] == a.ts)
            && (forall a :: a in acks && InView(a, userID, req.conversationID) && !IsSent(a, req, failed) ==>
                  (KeyOfAck(a) in after <==> KeyOfAck(a) in held)
                  && (KeyOfAck(a) in held ==> after[KeyOfAck(a)] == held[KeyOfAck(a)]))
            && (forall key :: key in held ==> key in after)
            && (forall key :: key in after ==>
                  (key in held || exists a :: a in acks && InView(a, userID, req.conversationID) && KeyOfAck(a) == key))
  {
    var r := Sync(acks, userID, req, EffectiveTypes(req.types), failed);
    SentRows(acks, userID, req, failed);
    FoldSpec(acks, held, r.delivered);
    FoldSpec(acks, Fold(held, r.delivered), r.read);
    var after := FoldAll(held, r);
    forall a | a in acks && InView(a, userID, req.conversationID)
      ensures IsSent(a, req, failed) ==> KeyOfAck(a) in after && after[KeyOfAck(a)] == a.ts
      ensures !IsSent(a, req, failed) ==> !HasKey(r.delivered, KeyOfAck(a)) && !HasKey(r.read, KeyOfAck(a))
    {
      if HasKey(r.delivered, KeyOfAck(a)) {
        var b :| b in r.delivered && KeyOfAck(b) == KeyOfAck(a);
        SameKeySameAck(acks, a, b);
      }
      if HasKey(r.read, KeyOfAck(a)) {
        var b :| b in r.read && KeyOfAck(b) == KeyOfAck(a);
        SameKeySameAck(acks, a, b);
      }
    }
  }

  ghost predicate Known(held: Held, acks: seq<Ack>, userID: string, conv: string) {
    forall key :: key in held ==> exists a :: a in acks && InView(a, userID, conv) && KeyOfAck(a) == key
  }

  // When one sync brings a client into agreement, for any client and any request: every
  // row it does not already hold as it is must be sent, that is, asked for, not skipped by
  // a failing query, stamped after the client's timestamp, and not of the named message.
  lemma ConvergesIff(acks: seq<Ack>, held: Held, userID: string, req: SyncRequest, failed: set<AckType>)
    requires UniqueKeys(acks)
    ensures InSync(FoldAll(held, Sync(acks, userID, req, EffectiveTypes(req.types), failed)),
                   acks, userID, req.conversationID)
       <==> Known(held, acks, userID, req.conversationID) && AllHeldOrSent(acks, held, userID, req, failed)
  {
    var conv := req.conversationID;
    var after := FoldAll(held, Sync(acks, userID, req, EffectiveTypes(req.types), failed));
    FoldAllSpec(acks, held, userID, req, failed);
    if InSync(after, acks, userID, conv) {
      forall a | a in acks && InView(a, userID, conv)
        ensures (KeyOfAck(a) in held && held[KeyOfAck(a)] == a.ts) || IsSent(a, req, failed)
      {
        assert ViewHas(acks, userID, conv, KeyOfAck(a), after[KeyOfAck(a)]);
        var b :| b in acks && InView(b, userID, conv) && KeyOfAck(b) == KeyOfAck(a) && b.ts == after[KeyOfAck(a)];
        SameKeySameAck(acks, a, b);
      }
      forall key | key in held
        ensures exists a :: a in acks && InView(a, userID, conv) && KeyOfAck(a) == key
      {
        assert ViewHas(acks, userID, conv, key, after[key]);
      }
    }
    if Known(held, acks, userID, conv) && AllHeldOrSent(acks, held, userID, req, failed) {
      forall key | key in after ensures ViewHas(acks, userID, conv, key, after[key]) {
        var a :| a in acks && InView(a, userID, conv) && KeyOfAck(a) == key;
      }
    }
  }

  ghost predicate AllHeldOrSent(acks: seq<Ack>, held: Held, userID: string, req: SyncRequest, failed: set<AckType>) {
    forall a :: a in acks && InView(a, userID, req.conversationID) ==>
      (KeyOfAck(a) in held && held[KeyOfAck(a)] == a.ts) || IsSent(a, req, failed)
  }

  // ----- whole sessions -----

  ghost function MaxOf(s: set<int>): (m: int)
    ensures s == {} ==> m == 0
    ensures s != {} ==> m in s && forall x :: x in s ==> x <= m
  {
    if s == {} then 0
    else
      assert (forall x :: x !in s) ==> s == {};
      var x :| x in s;
      var rest := s - {x};
      assert s == rest + {x};
      if rest == {} then x else var m := MaxOf(rest); if x > m then x else m
  }

  // The request of a client that sends the largest timestamp it holds and nothing else.
  ghost function PlainRequest(conv: string, held: Held): SyncRequest {
    SyncRequest(conv, "", MaxOf(held.Values), [])
  }

  // The server's rows and the client's after rounds of writes, each followed by one sync,
  // from wherever both are.
  ghost function Onward(acks: seq<Ack>, held: Held, userID: string, conv: string, rounds: seq<seq<Ack>>): (seq<Ack>,
                                                                                                           Held) {
    if rounds == [] then (acks, held)
    else
      var (server, client) := Onward(acks, held, userID, conv, rounds[..|rounds| - 1]);
      var next := RunWrites(server, rounds[|rounds| - 1]);
      var req := PlainRequest(conv, client);
      (next, FoldAll(client, Sync(next, userID, req, EffectiveTypes(req.types), {})))
  }

  // The same for a client that starts with nothing.
  ghost function After(acks: seq<Ack>, userID: string, conv: string, rounds: seq<seq<Ack>>): (seq<Ack>, Held) {
    Onward(acks, map[], userID, conv, rounds)
  }

  // Writes for the user are stamped after everything its client held at its last sync.
  // (A write may name another conversation and still move the stamp of this one's row.)
  ghost predicate StampedLater(held: Held, writes: seq<Ack>, userID: string) {
    forall i :: 0 <= i < |writes| && writes[i].userID == userID ==> writes[i].ts > MaxOf(held.Values)
  }

  ghost predicate Orderly(acks: seq<Ack>, userID: string, conv: string, rounds: seq<seq<Ack>>) {
    forall n :: 0 < n < |rounds| ==> StampedLater(After(acks, userID, conv, rounds[..n]).1, rounds[n], userID)
  }

  predicate NamedMessages(acks: seq<Ack>) {
    forall i :: 0 <= i < |acks| ==> acks[i].msgID != ""
  }

  lemma {:induction false} RowOrigin(acks: seq<Ack>, w: Ack, a: Ack)
    requires a in Upserted(acks, w)
    ensures a in acks || (KeyOfAck(w) == KeyOfAck(a) && w.ts == a.ts)
  {
    if acks != [] && KeyOfAck(acks[0]) != KeyOfAck(w) && a != acks[0] {
      RowOrigin(acks[1..], w, a);
    }
  }

  lemma {:induction false} RowPersists(acks: seq<Ack>, w: Ack, a: Ack) returns (b: Ack)
    requires a in acks
    ensures b in Upserted(acks, w) && KeyOfAck(b) == KeyOfAck(a) && b.conversationID == a.conversationID
  {
    if acks[0] == a {
      b := Upserted(acks, w)[0];
    } else if KeyOfAck(acks[0]) == KeyOfAck(w) {
      b := a;
      assert a in acks[1..];
    } else {
      b := RowPersists(acks[1..], w, a);
    }
  }

  lemma {:induction false} RunOrigin(acks: seq<Ack>, writes: seq<Ack>, a: Ack)
    requires a in RunWrites(acks, writes)
    ensures a in acks || exists i :: 0 <= i < |writes| && KeyOfAck(writes[i]) == KeyOfAck(a) && writes[i].ts == a.ts
  {
    if writes != [] {
      var init, w := writes[..|writes| - 1], writes[|writes| - 1];
      RowOrigin(RunWrites(acks, init), w, a);
      if a in RunWrites(acks, init) {
        RunOrigin(acks, init, a);
        if a !in acks {
          var i :| 0 <= i < |init| && KeyOfAck(init[i]) == KeyOfAck(a) && init[i].ts == a.ts;
          assert writes[i] == init[i];
        }
      } else {
        assert writes[|writes| - 1] == w;
      }
    }
  }

  lemma {:induction false} RunPersists(acks: seq<Ack>, writes: seq<Ack>, a: Ack) returns (b: Ack)
    requires a in acks
    ensures b in RunWrites(acks, writes) && KeyOfAck(b) == KeyOfAck(a) && b.conversationID == a.conversationID
  {
    b := a;
    if writes != [] {
      b := RunPersists(acks, writes[..|writes| - 1], a);
      b := RowPersists(RunWrites(acks, writes[..|writes| - 1]), writes[|writes| - 1], b);
    }
  }

  lemma {:induction false} RunNamed(acks: seq<Ack>, writes: seq<Ack>)
    requires NamedMessages(acks) && NamedMessages(writes)
    ensures NamedMessages(RunWrites(acks, writes))
  {
    forall i | 0 <= i < |RunWrites(acks, writes)| ensures RunWrites(acks, writes)[i].msgID != "" {
      var a := RunWrites(acks, writes)[i];
      assert a in RunWrites(acks, writes);
      RunOrigin(acks, writes, a);
      if a !in acks {
        var j :| 0 <= j < |writes| && KeyOfAck(writes[j]) == KeyOfAck(a) && writes[j].ts == a.ts;
        assert writes[j].msgID == KeyOfAck(a).msgID;
      }
    }
  }

  // One round keeps a client in sync, or brings one that holds nothing into sync.
  lemma RoundConverges(acks: seq<Ack>, held: Held, userID: string, conv: string, writes: seq<Ack>)
    requires UniqueKeys(acks) && UniqueKeys(RunWrites(acks, writes))
    requires NamedMessages(RunWrites(acks, writes))
    requires held == map[] || (InSync(held, acks, userID, conv) && StampedLater(held, writes, userID))
    ensures var next := RunWrites(acks, writes);
            var req := PlainRequest(conv, held);
            InSync(FoldAll(held, Sync(next, userID, req, EffectiveTypes(req.types), {})), next, userID, conv)
  {
    var next := RunWrites(acks, writes);
    var req := PlainRequest(conv, held);
    forall a | a in next && InView(a, userID, conv)
      ensures (KeyOfAck(a) in held && held[KeyOfAck(a)] == a.ts) || IsSent(a, req, {})
    {
      RunOrigin(acks, writes, a);
      var k :| 0 <= k < |next| && next[k] == a;
      assert next[k].msgID != "";
      if held == map[] {
        assert held.Values == {};
      } else if a in acks {
        assert ViewHas(acks, userID, conv, KeyOfAck(a), held[KeyOfAck(a)]);
        var b :| b in acks && InView(b, userID, conv) && KeyOfAck(b) == KeyOfAck(a) && b.ts == held[KeyOfAck(a)];
        SameKeySameAck(acks, a, b);
      } else {
        var i :| 0 <= i < |writes| && KeyOfAck(writes[i]) == KeyOfAck(a) && writes[i].ts == a.ts;
        assert writes[i].userID == KeyOfAck(a).userID;
      }
    }
    forall key | key in held
      ensures exists a :: a in next && InView(a, userID, conv) && KeyOfAck(a) == key
    {
      assert ViewHas(acks, userID, conv, key, held[key]);
      var a :| a in acks && InView(a, userID, conv) && KeyOfAck(a) == key && a.ts == held[key];
      var b := RunPersists(acks, writes, a);
      assert b.ackType == KeyOfAck(b).ackType && b.userID == KeyOfAck(b).userID;
    }
    ConvergesIff(next, held, userID, req, {});
  }

  lemma {:induction false} RunUnique(acks: seq<Ack>, writes: seq<Ack>)
    requires UniqueKeys(acks)
    ensures UniqueKeys(RunWrites(acks, writes))
  {
    StampsAreMaxima(acks, writes, AckKey("", "", ReadAck));
  }

  // A client that starts with nothing and follows the protocol agrees with the server
  // after every single sync, over any number of rounds.
  lemma {:induction false} Converges(acks: seq<Ack>, userID: string, conv: string, rounds: seq<seq<Ack>>)
    requires UniqueKeys(acks) && NamedMessages(acks)
    requires forall n :: 0 <= n < |rounds| ==> NamedMessages(rounds[n])
    requires Orderly(acks, userID, conv, rounds)
    ensures var (server, held) := After(acks, userID, conv, rounds);
            && UniqueKeys(server) && NamedMessages(server)
            && (rounds != [] ==> InSync(held, server, userID, conv))
  {
    if rounds != [] {
      var init, last := rounds[..|rounds| - 1], rounds[|rounds| - 1];
      forall n | 0 < n < |init|
        ensures StampedLater(After(acks, userID, conv, init[..n]).1, init[n], userID)
      {
        assert init[..n] == rounds[..n];
        assert StampedLater(After(acks, userID, conv, rounds[..n]).1, rounds[n], userID);
      }
      Converges(acks, userID, conv, init);
      var (server, held) := After(acks, userID, conv, init);
      RunUnique(server, last);
      RunNamed(server, last);
      if |rounds| > 1 {
        assert StampedLater(After(acks, userID, conv, rounds[..|rounds| - 1]).1, rounds[|rounds| - 1], userID);
      }
      RoundConverges(server, held, userID, conv, last);
    }
  }

  // ----- rows that were passed over -----

  lemma MaxOfGrows(s: set<int>, t: set<int>)
    requires s != {} && forall x :: x in s ==> exists y :: y in t && y >= x
    ensures MaxOf(t) >= MaxOf(s)
  {
    var y :| y in t && y >= MaxOf(s);
  }

  lemma {:induction false} FoldRaises(held: Held, rows: seq<Ack>, floor: int)
    requires forall a :: a in rows ==> a.ts > floor
    ensures forall key :: key in held ==> key in Fold(held, rows)
    ensures forall key :: key in held ==> Fold(held, rows)[key] == held[key] || Fold(held, rows)[key] > floor
  {
    if rows != [] {
      var init, last := rows[..|rows| - 1], rows[|rows| - 1];
      assert rows == init + [last];
      FoldRaises(held, init, floor);
    }
  }

  // What a client holds only ever takes its largest timestamp up.
  lemma SyncRaisesMax(acks: seq<Ack>, held: Held, userID: string, conv: string)
    requires 0 < MaxOf(held.Values)
    ensures var req := PlainRequest(conv, held);
            MaxOf(FoldAll(held, Sync(acks, userID, req, EffectiveTypes(req.types), {})).Values) >= MaxOf(held.Values)
  {
    var req, floor := PlainRequest(conv, held), MaxOf(held.Values);
    var r := Sync(acks, userID, req, EffectiveTypes(req.types), {});
    SentRows(acks, userID, req, {});
    FoldRaises(held, r.delivered, floor);
    FoldRaises(Fold(held, r.delivered), r.read, floor);
    var after := FoldAll(held, r);
    forall x | x in held.Values ensures exists y :: y in after.Values && y >= x {
      var key :| key in held && held[key] == x;
      assert after[key] in after.Values && after[key] >= x;
    }
    MaxOfGrows(held.Values, after.Values);
  }

  // The key is stamped, no later than everything the client holds, and not held by it.
  ghost predicate PassedOver(acks: seq<Ack>, held: Held, key: AckKey, ts: int) {
    && UniqueKeys(acks) && key !in held && 0 < MaxOf(held.Values) && ts <= MaxOf(held.Values)
    && forall a :: a in acks && KeyOfAck(a) == key ==> a.ts <= ts
  }

  lemma OneRoundPasses(acks: seq<Ack>, held: Held, userID: string, conv: string, writes: seq<Ack>, key: AckKey, ts: int)
    requires PassedOver(acks, held, key, ts)
    requires forall i :: 0 <= i < |writes| && KeyOfAck(writes[i]) == key ==> writes[i].ts <= ts
    ensures var next, req := RunWrites(acks, writes), PlainRequest(conv, held);
            PassedOver(next, FoldAll(held, Sync(next, userID, req, EffectiveTypes(req.types), {})), key, ts)
  {
    var next, req := RunWrites(acks, writes), PlainRequest(conv, held);
    RunUnique(acks, writes);
    forall a | a in next && KeyOfAck(a) == key ensures a.ts <= ts {
      RunOrigin(acks, writes, a);
    }
    SyncRaisesMax(next, held, userID, conv);
    FoldAllSpec(next, held, userID, req, {});
  }

  // Once passed over, a row stays missing as long as its stamp stays: a client whose
  // timestamp has reached a row it does not hold, because a query failed or stamps were
  // equal, is not sent it in any number of rounds unless the row is stamped later.
  lemma {:induction false} PassedOverStaysMissing(acks: seq<Ack>, held: Held, userID: string, conv: string,
                                                  rounds: seq<seq<Ack>>, key: AckKey, ts: int)
    requires PassedOver(acks, held, key, ts)
    requires forall n, i :: 0 <= n < |rounds| && 0 <= i < |rounds[n]| && KeyOfAck(rounds[n][i]) == key ==>
               rounds[n][i].ts <= ts
    ensures var (server, client) := Onward(acks, held, userID, conv, rounds);
            PassedOver(server, client, key, ts)
  {
    if rounds != [] {
      var init, last := rounds[..|rounds| - 1], rounds[|rounds| - 1];
      forall n, i | 0 <= n < |init| && 0 <= i < |init[n]| && KeyOfAck(init[n][i]) == key ensures init[n][i].ts <= ts {
        assert init[n] == rounds[n];
      }
      PassedOverStaysMissing(acks, held, userID, conv, init, key, ts);
      var (server, client) := Onward(acks, held, userID, conv, init);
      OneRoundPasses(server, client, userID, conv, last, key, ts);
    }
  }
}
