/** From the sender to the client that comes online: a client pages through the messages
  * table while senders and consumers go on changing it. */
module EndToEnd {
  import opened Basics
  import opened Messages
  import opened ConsumerLoop
  import opened Delivery
  import opened DeliverySafety
  import opened DeliveryTheorems
  import opened MessageStore
  import opened Paging

  // ----- the states a schedule passes through -----

  lemma {:induction false} PrefixRuns(topo: Topology, acts: seq<Action>, n: nat)
    requires n <= |acts| && Run(topo, Init(topo), acts).Some?
    ensures Run(topo, Init(topo), acts[..n]).Some?
  {
    if n < |acts| {
      PrefixRuns(topo, acts[..|acts| - 1], n);
      assert acts[..|acts| - 1][..n] == acts[..n];
    } else {
      assert acts[..n] == acts;
    }
  }

  function StateAfter(topo: Topology, acts: seq<Action>, n: nat): System
    requires n <= |acts| && Run(topo, Init(topo), acts).Some?
  {
    PrefixRuns(topo, acts, n);
    Run(topo, Init(topo), acts[..n]).value
  }

  // The client's queries come after the first at[0], at[1], ... actions.
  ghost predicate Polls(topo: Topology, acts: seq<Action>, at: seq<nat>) {
    && Run(topo, Init(topo), acts).Some?
    && (forall k :: 0 <= k < |at| ==> at[k] <= |acts|)
    && forall j, k :: 0 <= j <= k < |at| ==> at[j] <= at[k]
  }

  function Tables(topo: Topology, acts: seq<Action>, at: seq<nat>): seq<seq<Message>>
    requires Polls(topo, acts, at)
  {
    seq(|at|, k requires 0 <= k < |at| => StateAfter(topo, acts, at[k]).rows)
  }

  // ----- rows stay where they are -----

  ghost predicate RowsStay(before: seq<Message>, after: seq<Message>) {
    |before| <= |after| && forall i :: 0 <= i < |before| ==> Frozen(after[i]) == Frozen(before[i])
  }

  lemma StepRowsStay(topo: Topology, s: System, a: Action)
    requires Enabled(topo, s, a)
    ensures RowsStay(s.rows, Apply(topo, s, a).rows)
  {
  }

  lemma RowsStayTransitive(a: seq<Message>, b: seq<Message>, c: seq<Message>)
    requires RowsStay(a, b) && RowsStay(b, c)
    ensures RowsStay(a, c)
  {
  }

  lemma OneMoreAction(topo: Topology, acts: seq<Action>, n: nat)
    requires n < |acts| && Run(topo, Init(topo), acts).Some?
    ensures Enabled(topo, StateAfter(topo, acts, n), acts[n])
    ensures StateAfter(topo, acts, n + 1) == Apply(topo, StateAfter(topo, acts, n), acts[n])
  {
    PrefixRuns(topo, acts, n + 1);
    var upto := acts[..n + 1];
    assert upto[..|upto| - 1] == acts[..n] && upto[|upto| - 1] == acts[n];
  }

  lemma {:induction false} RowsStayBetween(topo: Topology, acts: seq<Action>, m: nat, n: nat)
    requires m <= n <= |acts| && Run(topo, Init(topo), acts).Some?
    ensures RowsStay(StateAfter(topo, acts, m).rows, StateAfter(topo, acts, n).rows)
  {
    if m < n {
      RowsStayBetween(topo, acts, m, n - 1);
      RowsStayOnce(topo, acts, n - 1);
      RowsStayTransitive(StateAfter(topo, acts, m).rows, StateAfter(topo, acts, n - 1).rows,
                         StateAfter(topo, acts, n).rows);
    }
  }

  lemma RowsStayOnce(topo: Topology, acts: seq<Action>, n: nat)
    requires n < |acts| && Run(topo, Init(topo), acts).Some?
    ensures RowsStay(StateAfter(topo, acts, n).rows, StateAfter(topo, acts, n + 1).rows)
  {
    OneMoreAction(topo, acts, n);
    StepRowsStay(topo, StateAfter(topo, acts, n), acts[n]);
  }

  lemma StateInv(topo: Topology, acts: seq<Action>, n: nat)
    requires n <= |acts| && Run(topo, Init(topo), acts).Some?
    ensures Reachable(topo, StateAfter(topo, acts, n)) && Inv(topo, StateAfter(topo, acts, n))
  {
    PrefixRuns(topo, acts, n);
    assert Run(topo, Init(topo), acts[..n]) == Some(StateAfter(topo, acts, n));
    ReachableInv(topo, StateAfter(topo, acts, n));
  }

  /** What a client sees of the pipeline is a history in the sense of paging: keys are unique,
    * rows never go away and never change except in their status. */
  lemma PipelineMakesHistory(topo: Topology, acts: seq<Action>, at: seq<nat>)
    requires Polls(topo, acts, at)
    ensures History(Tables(topo, acts, at))
  {
    var tables := Tables(topo, acts, at);
    forall k | 0 <= k < |tables| ensures UniqueIds(tables[k]) {
      StateInv(topo, acts, at[k]);
      KeysAreUnique(StateAfter(topo, acts, at[k]));
    }
    forall k | 0 <= k < |tables| - 1 ensures Evolves(tables[k], tables[k + 1]) {
      RowsStayBetween(topo, acts, at[k], at[k + 1]);
      StayingIsEvolving(tables[k], tables[k + 1]);
    }
  }

  lemma KeysAreUnique(s: System)
    requires RowsOk(s)
    ensures UniqueIds(s.rows)
  {
    forall i, j | 0 <= i < j < |s.rows| ensures s.rows[i].id != s.rows[j].id {
      assert RowOk(s, i) && RowOk(s, j);
    }
  }

  lemma StayingIsEvolving(before: seq<Message>, after: seq<Message>)
    requires RowsStay(before, after)
    ensures Evolves(before, after)
  {
    forall r | r in before ensures exists r' :: r' in after && Frozen(r') == Frozen(r) {
      var i :| 0 <= i < |before| && before[i] == r;
      assert after[i] in after;
    }
  }

  // ----- what is pulled -----

  ghost predicate TimesFrom(acts: seq<Action>, least: int) {
    forall k :: 0 <= k < |acts| && acts[k].Begin? ==> acts[k].m.serverTS >= least
  }

  lemma {:induction false} SendTimes(topo: Topology, acts: seq<Action>, n: nat, least: int)
    requires n <= |acts| && Run(topo, Init(topo), acts).Some? && TimesFrom(acts, least)
    ensures forall id :: id in StateAfter(topo, acts, n).sends ==>
              StateAfter(topo, acts, n).sends[id].m.serverTS >= least
  {
    if n > 0 {
      SendTimes(topo, acts, n - 1, least);
      OneMoreAction(topo, acts, n - 1);
      StepSends(topo, StateAfter(topo, acts, n - 1), acts[n - 1]);
    }
  }

  lemma StepSends(topo: Topology, s: System, a: Action)
    requires Enabled(topo, s, a)
    ensures var t := Apply(topo, s, a);
            forall id :: id in t.sends ==>
              (id in s.sends && t.sends[id].m == s.sends[id].m) || (a.Begin? && t.sends[id].m == a.m)
  {
  }

  lemma RowTimes(topo: Topology, acts: seq<Action>, n: nat, least: int)
    requires n <= |acts| && Run(topo, Init(topo), acts).Some? && TimesFrom(acts, least)
    ensures forall r :: r in StateAfter(topo, acts, n).rows ==> r.serverTS >= least && r.id > 0
  {
    SendTimes(topo, acts, n, least);
    StateInv(topo, acts, n);
    var s := StateAfter(topo, acts, n);
    forall r | r in s.rows ensures r.serverTS >= least && r.id > 0 {
      var i :| 0 <= i < |s.rows| && s.rows[i] == r;
      assert RowOk(s, i);
      assert Content(r).serverTS == r.serverTS;
    }
  }

  // Exactly one of the rows is the message, with what its sender built.
  ghost predicate Got(rows: seq<Message>, m: MessageData) {
    && (exists i :: 0 <= i < |rows| && rows[i].msgID == m.msgID && Content(rows[i]) == Content(RowOf(m, 0)))
    && forall i, j :: 0 <= i < |rows| && 0 <= j < |rows| && rows[i].msgID == rows[j].msgID == m.msgID ==> i == j
  }

  lemma SameMessageSameRow(topo: Topology, acts: seq<Action>, at: seq<nat>, r: Message, k: nat, r': Message)
    requires Polls(topo, acts, at) && k < |at|
    requires r in Tables(topo, acts, at)[0] && r' in Tables(topo, acts, at)[k] && r'.msgID == r.msgID
    ensures Frozen(r') == Frozen(r)
  {
    RowsStayBetween(topo, acts, at[0], at[k]);
    StateInv(topo, acts, at[k]);
    SameIdSameRow(StateAfter(topo, acts, at[0]).rows, StateAfter(topo, acts, at[k]).rows, r, r');
  }

  lemma SameIdSameRow(before: seq<Message>, after: seq<Message>, r: Message, r': Message)
    requires RowsStay(before, after) && r in before && r' in after && r'.msgID == r.msgID
    requires forall i, j :: 0 <= i < j < |after| ==> after[i].msgID != after[j].msgID
    ensures Frozen(r') == Frozen(r)
  {
    var i :| 0 <= i < |before| && before[i] == r;
    assert after[i].msgID == Frozen(after[i]).msgID == Frozen(r).msgID == r.msgID;
  }

  lemma OnceMeansGot(topo: Topology, acts: seq<Action>, at: seq<nat>, r: Message, m: MessageData, pulled: seq<Message>)
    requires Polls(topo, acts, at) && at != []
    requires r in Tables(topo, acts, at)[0] && r.msgID == m.msgID && Content(r) == Content(RowOf(m, 0))
    requires forall x :: x in pulled ==> exists k :: 0 <= k < |at| && x in Tables(topo, acts, at)[k]
    requires ReturnedOnce(pulled, r)
    ensures Got(pulled, m)
  {
    var i: nat :| ReturnedAt(pulled, r, i);
    assert pulled[i].msgID == Frozen(pulled[i]).msgID == Frozen(r).msgID;
    assert Content(pulled[i]) == Content(Frozen(pulled[i])) == Content(Frozen(r)) == Content(r);
    forall j | 0 <= j < |pulled| && pulled[j].msgID == m.msgID ensures ReturnedAt(pulled, r, j) {
      assert pulled[j] in pulled;
      var k :| 0 <= k < |at| && pulled[j] in Tables(topo, acts, at)[k];
      SameMessageSameRow(topo, acts, at, r, k, pulled[j]);
    }
  }

  /** A client that pulls a conversation from the beginning until a page is empty, while the
    * pipeline goes on, gets every accepted message of it exactly once and in order, if the
    * message was neither still waiting on the log, dead-lettered nor dropped at the first page. */
  lemma AcceptedIsPulledOnce(topo: Topology, acts: seq<Action>, at: seq<nat>, id: string, limit: int)
    requires Polls(topo, acts, at) && at != [] && limit != 0 && TimesFrom(acts, 1)
    requires var s := StateAfter(topo, acts, at[0]); id in s.sends && s.sends[id].phase == Accepted
    ensures var s := StateAfter(topo, acts, at[0]);
            var m := s.sends[id].m;
            var tables := Tables(topo, acts, at);
            && Sorted(false, Pull(tables, m.conversationID, 0, 0, limit))
            && (PullEnds(tables, m.conversationID, 0, 0, limit) ==>
                  || Got(Pull(tables, m.conversationID, 0, 0, limit), m)
                  || Awaits(s, m) || InDlq(s, Good(m))
                  || exists p: nat, o: nat :: DroppedAt(topo, s, m, p, o))
  {
    var s := StateAfter(topo, acts, at[0]);
    var m, tables := s.sends[id].m, Tables(topo, acts, at);
    Prepare(topo, acts, at, 1);
    PullComplete(tables, m.conversationID, 0, 0, limit);
    PullIsCollected(tables, m.conversationID, 0, 0, limit);
    CollectedSorted(false, tables, {m.conversationID}, None, limit);
    Conservation(topo, s, id);
    if PullEnds(tables, m.conversationID, 0, 0, limit) && StoredMessage(s, m) {
      var r := StoredRow(s, m);
      OnceMeansGot(topo, acts, at, r, m, Pull(tables, m.conversationID, 0, 0, limit));
    }
  }

  /** The same for the page over all conversations of a user with fixed memberships. */
  lemma AcceptedIsPulledOnceByUser(topo: Topology, acts: seq<Action>, at: seq<nat>, id: string,
                                   members: seq<Member>, userID: string, limit: int)
    requires Polls(topo, acts, at) && at != [] && limit != 0 && TimesFrom(acts, 0)
    requires var s := StateAfter(topo, acts, at[0]);
             && id in s.sends && s.sends[id].phase == Accepted
             && Member(s.sends[id].m.conversationID, userID) in members
    ensures var s := StateAfter(topo, acts, at[0]);
            var m := s.sends[id].m;
            var tables := Tables(topo, acts, at);
            && Sorted(false, PullAll(tables, members, userID, 0, 0, limit))
            && (PullAllEnds(tables, members, userID, 0, 0, limit) ==>
                  || Got(PullAll(tables, members, userID, 0, 0, limit), m)
                  || Awaits(s, m) || InDlq(s, Good(m))
                  || exists p: nat, o: nat :: DroppedAt(topo, s, m, p, o))
  {
    var s := StateAfter(topo, acts, at[0]);
    var m, tables, scope := s.sends[id].m, Tables(topo, acts, at), ConversationsOf(members, userID);
    OnlyOwnConversations(members, userID);
    Prepare(topo, acts, at, 0);
    PullAllComplete(tables, members, userID, 0, 0, limit);
    PullOverIsCollected(tables, scope, 0, 0, limit);
    CollectedSorted(false, tables, scope, Some(Key(0, 0)), limit);
    Conservation(topo, s, id);
    if PullAllEnds(tables, members, userID, 0, 0, limit) && StoredMessage(s, m) {
      var r := StoredRow(s, m);
      OnceMeansGot(topo, acts, at, r, m, PullAll(tables, members, userID, 0, 0, limit));
    }
  }

  lemma Prepare(topo: Topology, acts: seq<Action>, at: seq<nat>, least: int)
    requires Polls(topo, acts, at) && TimesFrom(acts, least)
    ensures History(Tables(topo, acts, at))
    ensures forall k, r :: 0 <= k < |at| && r in Tables(topo, acts, at)[k] ==> r.serverTS >= least && r.id > 0
    ensures forall k :: 0 <= k < |at| ==> Reachable(topo, StateAfter(topo, acts, at[k]))
  {
    PipelineMakesHistory(topo, acts, at);
    forall k | 0 <= k < |at|
      ensures Reachable(topo, StateAfter(topo, acts, at[k]))
      ensures forall r :: r in Tables(topo, acts, at)[k] ==> r.serverTS >= least && r.id > 0
    {
      RowTimes(topo, acts, at[k], least);
      StateInv(topo, acts, at[k]);
    }
  }

  lemma StoredRow(s: System, m: MessageData) returns (r: Message)
    requires StoredMessage(s, m)
    ensures r in s.rows && r.msgID == m.msgID && Content(r) == Content(RowOf(m, 0))
    ensures r.conversationID == m.conversationID
  {
    var i :| 0 <= i < |s.rows| && s.rows[i].msgID == m.msgID && Content(s.rows[i]) == Content(RowOf(m, 0));
    r := s.rows[i];
    assert r.conversationID == Content(r).conversationID;
  }

  // ----- stored behind the client's back -----

  function Data(id: string, serverTS: int): MessageData {
    MessageData(id, "group:g", "u", "", "g", "", "text", 0, serverTS, STATUS_SENDING, true)
  }

  const SLOW := Data("slow", 1)
  const FAST := Data("fast", 2)

  // Two messages are begun, and their senders fall back to the table.
  function TwoBegun(topo: Topology): seq<Action> {
    [Begin(SLOW), Begin(FAST)] + if topo.kafka then [Produced("slow", false), Produced("fast", false)] else []
  }

  const SAVE_FAST := SaveDirect("fast", true, true)
  const SAVE_SLOW := SaveDirect("slow", true, true)

  lemma Snoc(topo: Topology, acts: seq<Action>, s: System, a: Action)
    requires Run(topo, Init(topo), acts) == Some(s) && Enabled(topo, s, a)
    ensures Run(topo, Init(topo), acts + [a]) == Some(Apply(topo, s, a))
  {
    assert (acts + [a])[..|acts|] == acts;
  }

  lemma TwoBegunRun(topo: Topology) returns (s: System)
    ensures Run(topo, Init(topo), TwoBegun(topo)) == Some(s) && s.rows == []
    ensures s.sends == map["slow" := Send(SLOW, Saving), "fast" := Send(FAST, Saving)]
  {
    s := Init(topo);
    assert Run(topo, Init(topo), []) == Some(s);
    Snoc(topo, [], s, Begin(SLOW));
    s := Apply(topo, s, Begin(SLOW));
    Snoc(topo, [] + [Begin(SLOW)], s, Begin(FAST));
    s := Apply(topo, s, Begin(FAST));
    var begun := [Begin(SLOW), Begin(FAST)];
    assert [] + [Begin(SLOW)] + [Begin(FAST)] == begun;
    if topo.kafka {
      Snoc(topo, begun, s, Produced("slow", false));
      s := Apply(topo, s, Produced("slow", false));
      Snoc(topo, begun + [Produced("slow", false)], s, Produced("fast", false));
      s := Apply(topo, s, Produced("fast", false));
      assert TwoBegun(topo) == begun + [Produced("slow", false)] + [Produced("fast", false)];
    } else {
      assert TwoBegun(topo) == begun;
    }
  }

  lemma SavedInTurn(topo: Topology) returns (s: System, t: System)
    ensures Run(topo, Init(topo), TwoBegun(topo) + [SAVE_FAST]) == Some(s) && s.rows == [RowOf(FAST, 1)]
    ensures Run(topo, Init(topo), TwoBegun(topo) + [SAVE_FAST] + [SAVE_SLOW]) == Some(t)
    ensures t.rows == [RowOf(FAST, 1), RowOf(SLOW, 2)]
    ensures "slow" in t.sends && t.sends["slow"] == Send(SLOW, Accepted)
  {
    s := TwoBegunRun(topo);
    Snoc(topo, TwoBegun(topo), s, SAVE_FAST);
    s := Apply(topo, s, SAVE_FAST);
    assert s.rows == [RowOf(FAST, 1)];
    Snoc(topo, TwoBegun(topo) + [SAVE_FAST], s, SAVE_SLOW);
    t := Apply(topo, s, SAVE_SLOW);
  }

  lemma OnlyRowIsPage(limit: int)
    requires limit != 0
    ensures Page(false, [RowOf(FAST, 1)], {"group:g"}, None, limit) == [RowOf(FAST, 1)]
  {
    var rows, p := [RowOf(FAST, 1)], InScope(false, {"group:g"}, None);
    QueryIsPage(rows, p, false, limit);
    assert Candidates(rows, p) == {rows[0]};
    PageUnique(false, {rows[0]}, limit, Page(false, rows, {"group:g"}, None, limit), rows);
  }

  lemma NothingPast(limit: int)
    ensures Page(false, [RowOf(FAST, 1), RowOf(SLOW, 2)], {"group:g"}, Some(Key(2, 1)), limit) == []
  {
    var rows, p := [RowOf(FAST, 1), RowOf(SLOW, 2)], InScope(false, {"group:g"}, Some(Key(2, 1)));
    QueryIsPage(rows, p, false, limit);
    assert Candidates(rows, p) == {};
    PageUnique(false, {}, limit, Page(false, rows, {"group:g"}, Some(Key(2, 1)), limit), []);
  }

  lemma OnlyFastIsPulled(tables: seq<seq<Message>>, limit: int)
    requires tables == [[RowOf(FAST, 1)], [RowOf(FAST, 1), RowOf(SLOW, 2)]] && limit != 0
    ensures Pull(tables, "group:g", 0, 0, limit) == [RowOf(FAST, 1)]
    ensures PullEnds(tables, "group:g", 0, 0, limit)
  {
    var rest := tables[1..];
    ByCursorIsPage(tables[0], "group:g", 0, 0, limit);
    ByCursorIsPage(rest[0], "group:g", 2, 1, limit);
    OnlyRowIsPage(limit);
    NothingPast(limit);
    assert Pull(rest, "group:g", 2, 1, limit) == [] && PullEnds(rest, "group:g", 2, 1, limit);
  }

  lemma NotPulled()
    ensures !Got([RowOf(FAST, 1)], SLOW)
  {
  }

  lemma SlowIsStored(t: System)
    requires t.rows == [RowOf(FAST, 1), RowOf(SLOW, 2)]
    ensures StoredMessage(t, SLOW)
  {
    assert t.rows[1].msgID == "slow" && Content(t.rows[1]) == Content(RowOf(SLOW, 0));
  }

  lemma TwoPolls(topo: Topology) returns (acts: seq<Action>, at: seq<nat>)
    ensures Polls(topo, acts, at) && |at| == 2
    ensures TimesFrom(acts, 1)
    ensures Tables(topo, acts, at) == [[RowOf(FAST, 1)], [RowOf(FAST, 1), RowOf(SLOW, 2)]]
    ensures var t := StateAfter(topo, acts, at[1]);
            t.rows == [RowOf(FAST, 1), RowOf(SLOW, 2)] && "slow" in t.sends && t.sends["slow"] == Send(SLOW, Accepted)
  {
    var s, t := SavedInTurn(topo);
    var before := TwoBegun(topo) + [SAVE_FAST];
    acts := before + [SAVE_SLOW];
    at := [|before|, |acts|];
    assert acts[..|before|] == before && acts[..|acts|] == acts;
    assert StateAfter(topo, acts, at[0]) == s && StateAfter(topo, acts, at[1]) == t;
  }

  // In every deployment: a client pulls a conversation while the slower of two senders has
  // not stored its message yet. The message is accepted and stored between two of the
  // client's queries, behind its cursor, and the client never gets it.
  lemma StoredBehindCursor(topo: Topology, limit: int) returns (acts: seq<Action>, at: seq<nat>)
    requires limit != 0
    ensures Polls(topo, acts, at) && TimesFrom(acts, 1) && |at| == 2
    ensures var s := StateAfter(topo, acts, at[1]);
            "slow" in s.sends && s.sends["slow"] == Send(SLOW, Accepted) && StoredMessage(s, SLOW)
    ensures PullEnds(Tables(topo, acts, at), "group:g", 0, 0, limit)
    ensures !Got(Pull(Tables(topo, acts, at), "group:g", 0, 0, limit), SLOW)
  {
    acts, at := TwoPolls(topo);
    SlowIsStored(StateAfter(topo, acts, at[1]));
    OnlyFastIsPulled(Tables(topo, acts, at), limit);
    NotPulled();
  }
}
