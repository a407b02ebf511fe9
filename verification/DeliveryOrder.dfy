/** Replay equivalence: a conversation's rows are its log with repeats removed, in log
    order, whatever crashes, redeliveries and overlapping consumers the run had. */
module DeliveryOrder {
  import opened Basics
  import opened Messages
  import opened ConsumerLoop
  import opened Delivery
  import opened DeliverySafety

  // Handling the log once from the start: the contents of one conversation's rows, each
  // message at its first copy.
  function FirstCopies(log: seq<Payload>, conv: string): seq<Message> {
    if log == [] then []
    else
      var init := FirstCopies(log[..|log| - 1], conv);
      match log[|log| - 1]
      case Malformed => init
      case Good(m) =>
        if m.conversationID == conv && Content(RowOf(m, 0)) !in init then init + [Content(RowOf(m, 0))] else init
  }

  // The contents of a conversation's rows in insertion order.
  function ConversationContents(rows: seq<Message>, conv: string): seq<Message> {
    if rows == [] then []
    else
      var init := ConversationContents(rows[..|rows| - 1], conv);
      var last := rows[|rows| - 1];
      if last.conversationID == conv then init + [Content(last)] else init
  }

  // No record of the conversation was dead-lettered or dropped, and no sender inserted
  // one of its rows directly.
  ghost predicate Clean(s: System, conv: string) {
    && (forall id :: id in s.direct && id in s.sends ==> s.sends[id].m.conversationID != conv)
    && (forall p: nat, o: nat :: (p, o) in s.fates && InConversation(s, p, o, conv) ==>
          s.fates[(p, o)] == Stored || s.fates[(p, o)] == AlreadyStored)
  }

  ghost predicate InConversation(s: System, p: nat, o: nat, conv: string) {
    InLog(s, p, o) && s.logs[p][o].Good? && s.logs[p][o].m.conversationID == conv
  }

  ghost predicate OrderedUpTo(topo: Topology, s: System, conv: string, k: nat) {
    && topo.partitions > 0
    && var p := PartitionOf(topo, conv);
       && p < |s.logs| && k <= |s.logs[p]|
       && ConversationContents(s.rows, conv) == FirstCopies(s.logs[p][..k], conv)
  }

  ghost predicate Ordered(topo: Topology, s: System, conv: string) {
    exists k: nat :: OrderedUpTo(topo, s, conv, k)
  }

  // ----- rows -----

  lemma {:induction false} ContentsOfRow(rows: seq<Message>, conv: string, i: nat)
    requires i < |rows| && rows[i].conversationID == conv
    ensures Content(rows[i]) in ConversationContents(rows, conv)
  {
    if i < |rows| - 1 {
      ContentsOfRow(rows[..|rows| - 1], conv, i);
    }
  }

  lemma {:induction false} ContentsHaveRow(rows: seq<Message>, conv: string, c: Message)
    requires c in ConversationContents(rows, conv)
    ensures HasRow(rows, c.msgID)
  {
    var init := rows[..|rows| - 1];
    if c in ConversationContents(init, conv) {
      ContentsHaveRow(init, conv, c);
      var i :| 0 <= i < |init| && init[i].msgID == c.msgID;
      assert rows[i].msgID == c.msgID;
    } else {
      assert rows[|rows| - 1].msgID == c.msgID;
    }
  }

  lemma ContentsSnoc(rows: seq<Message>, row: Message, conv: string)
    ensures ConversationContents(rows + [row], conv)
         == ConversationContents(rows, conv) + if row.conversationID == conv then [Content(row)] else []
  {
    assert (rows + [row])[..|rows|] == rows;
  }

  lemma {:induction false} ContentsIgnoreStatus(rows: seq<Message>, id: string, status: string, conv: string)
    ensures ConversationContents(UpdateStatus(rows, id, status), conv) == ConversationContents(rows, conv)
  {
    if rows != [] {
      var init := rows[..|rows| - 1];
      ContentsIgnoreStatus(init, id, status, conv);
      assert UpdateStatus(rows, id, status)[..|rows| - 1] == UpdateStatus(init, id, status);
    }
  }

  lemma StoredHasContents(s: System, m: MessageData)
    requires RowsOk(s) && Known(s, m) && HasRow(s.rows, m.msgID)
    ensures Content(RowOf(m, 0)) in ConversationContents(s.rows, m.conversationID)
  {
    var i :| 0 <= i < |s.rows| && s.rows[i].msgID == m.msgID;
    assert RowOk(s, i);
    ContentsOfRow(s.rows, m.conversationID, i);
  }

  // ----- log prefixes -----

  lemma {:induction false} FirstCopiesHave(log: seq<Payload>, conv: string, o: nat)
    requires o < |log| && log[o].Good? && log[o].m.conversationID == conv
    ensures Content(RowOf(log[o].m, 0)) in FirstCopies(log, conv)
  {
    if o < |log| - 1 {
      FirstCopiesHave(log[..|log| - 1], conv, o);
    }
  }

  // Records whose messages already occurred add nothing.
  lemma {:induction false} RepeatsAddNothing(log: seq<Payload>, conv: string, k: nat, j: nat)
    requires k <= j <= |log|
    requires forall o: nat :: k <= o < j && log[o].Good? && log[o].m.conversationID == conv ==>
               Content(RowOf(log[o].m, 0)) in FirstCopies(log[..k], conv)
    ensures FirstCopies(log[..j], conv) == FirstCopies(log[..k], conv)
    decreases j - k
  {
    if k < j {
      RepeatsAddNothing(log, conv, k, j - 1);
      assert log[..j][..j - 1] == log[..j - 1];
    }
  }

  // Every record of the conversation below j is stored, so the rows are the first copies
  // of the log below j.
  lemma CatchUp(topo: Topology, s: System, conv: string, k: nat, j: nat)
    requires Inv(topo, s) && OrderedUpTo(topo, s, conv, k)
    requires j <= |s.logs[PartitionOf(topo, conv)]|
    requires forall o: nat :: o < j && InConversation(s, PartitionOf(topo, conv), o, conv) ==>
               HasRow(s.rows, s.logs[PartitionOf(topo, conv)][o].m.msgID)
    requires k <= j
    ensures OrderedUpTo(topo, s, conv, j)
  {
    var p := PartitionOf(topo, conv);
    forall o: nat | k <= o < j && s.logs[p][o].Good? && s.logs[p][o].m.conversationID == conv
      ensures Content(RowOf(s.logs[p][o].m, 0)) in FirstCopies(s.logs[p][..k], conv)
    {
      assert InConversation(s, p, o, conv);
      StoredHasContents(s, s.logs[p][o].m);
    }
    RepeatsAddNothing(s.logs[p], conv, k, j);
  }

  lemma CleanSettledIsStored(topo: Topology, s: System, conv: string, p: nat, o: nat)
    requires Inv(topo, s) && Clean(s, conv)
    requires (p, o) in s.fates && InConversation(s, p, o, conv)
    ensures HasRow(s.rows, s.logs[p][o].m.msgID)
  {
    assert FateTrue(topo, s, s.logs[p][o], s.fates[(p, o)]);
  }

  // ----- steps -----

  lemma CleanBefore(topo: Topology, s: System, a: Action, conv: string)
    requires Inv(topo, s) && Enabled(topo, s, a) && Clean(Apply(topo, s, a), conv)
    ensures Clean(s, conv)
  {
    var t := Apply(topo, s, a);
    StepGrows(topo, s, a);
    forall p: nat, o: nat | (p, o) in s.fates && InConversation(s, p, o, conv)
      ensures s.fates[(p, o)] == Stored || s.fates[(p, o)] == AlreadyStored
    {
      assert s.logs[p] <= t.logs[p];
      assert InConversation(t, p, o, conv);
    }
  }

  // A new message of the conversation is not on the part of the log that the rows cover.
  lemma NewIsBeyond(topo: Topology, s: System, conv: string, k: nat, pos: nat)
    requires OrderedUpTo(topo, s, conv, k) && InConversation(s, PartitionOf(topo, conv), pos, conv)
    requires !HasRow(s.rows, s.logs[PartitionOf(topo, conv)][pos].m.msgID)
    ensures k <= pos
    ensures Content(RowOf(s.logs[PartitionOf(topo, conv)][pos].m, 0)) !in ConversationContents(s.rows, conv)
  {
    var log := s.logs[PartitionOf(topo, conv)];
    var c := Content(RowOf(log[pos].m, 0));
    if c in ConversationContents(s.rows, conv) { ContentsHaveRow(s.rows, conv, c); }
    if pos < k { FirstCopiesHave(log[..k], conv, pos); }
  }

  // The first row of a message of the conversation extends the order by its record.
  lemma NewRowInOrder(topo: Topology, s: System, c: nat, conv: string, k: nat)
    requires Inv(topo, s) && OrderedUpTo(topo, s, conv, k) && Clean(s, conv)
    requires c in s.sessions && SessionOk(topo, s, s.sessions[c]) && s.sessions[c].local.phase.Creating?
    requires Current(s, c).Good? && Current(s, c).m.conversationID == conv && !HasRow(s.rows, Current(s, c).m.msgID)
    ensures Ordered(topo, s.(rows := Insert(s.rows, Current(s, c).m)), conv)
  {
    var m, p, pos := Current(s, c).m, PartitionOf(topo, conv), s.sessions[c].local.pos;
    assert InLog(s, s.sessions[c].partition, pos) && s.sessions[c].partition == p;
    var log := s.logs[p];
    NewIsBeyond(topo, s, conv, k, pos);
    forall o: nat | o < pos && InConversation(s, p, o, conv)
      ensures HasRow(s.rows, log[o].m.msgID)
    {
      CleanSettledIsStored(topo, s, conv, p, o);
    }
    CatchUp(topo, s, conv, k, pos);
    ContentsSnoc(s.rows, RowOf(m, |s.rows| + 1), conv);
    assert log[..pos + 1][..pos] == log[..pos];
    assert OrderedUpTo(topo, s.(rows := Insert(s.rows, m)), conv, pos + 1);
  }

  // A consumer inserts the row of the record in hand.
  lemma InsertKeepsOrder(topo: Topology, s: System, c: nat, conv: string)
    requires Inv(topo, s) && Ordered(topo, s, conv) && Clean(s, conv)
    requires c in s.sessions && s.sessions[c].local.phase.Creating?
    requires SessionOk(topo, s, s.sessions[c]) && Current(s, c).Good?
    ensures Ordered(topo, s.(rows := Insert(s.rows, Current(s, c).m)), conv)
  {
    var m := Current(s, c).m;
    var t := s.(rows := Insert(s.rows, m));
    var k: nat :| OrderedUpTo(topo, s, conv, k);
    if !HasRow(s.rows, m.msgID) && m.conversationID == conv {
      NewRowInOrder(topo, s, c, conv, k);
    } else {
      ContentsSnoc(s.rows, RowOf(m, |s.rows| + 1), conv);
      assert OrderedUpTo(topo, t, conv, k);
    }
  }

  lemma OrderOnLongerLogs(topo: Topology, s: System, t: System, conv: string)
    requires Grows(s, t) && Ordered(topo, s, conv)
    requires ConversationContents(t.rows, conv) == ConversationContents(s.rows, conv)
    ensures Ordered(topo, t, conv)
  {
    var k: nat :| OrderedUpTo(topo, s, conv, k);
    var p := PartitionOf(topo, conv);
    assert s.logs[p] <= t.logs[p];
    assert s.logs[p][..k] == t.logs[p][..k];
    assert OrderedUpTo(topo, t, conv, k);
  }

  lemma DirectLeavesContents(topo: Topology, s: System, a: Action, conv: string)
    requires Inv(topo, s) && a.SaveDirect? && Enabled(topo, s, a) && Clean(Apply(topo, s, a), conv)
    ensures ConversationContents(Apply(topo, s, a).rows, conv) == ConversationContents(s.rows, conv)
  {
    if a.landed {
      assert a.id in Apply(topo, s, a).direct;
      ContentsSnoc(s.rows, RowOf(s.sends[a.id].m, |s.rows| + 1), conv);
    }
  }

  lemma StepKeepsOrder(topo: Topology, s: System, a: Action, conv: string)
    requires Inv(topo, s) && Ordered(topo, s, conv) && Enabled(topo, s, a)
    requires Clean(Apply(topo, s, a), conv)
    ensures Ordered(topo, Apply(topo, s, a), conv)
  {
    var t := Apply(topo, s, a);
    StepGrows(topo, s, a);
    if a.Step? && t.rows != s.rows {
      CleanBefore(topo, s, a, conv);
      var ses := s.sessions[a.session];
      assert SessionOk(topo, s, ses);
      InsertKeepsOrder(topo, s, a.session, conv);
      var u := s.(rows := Insert(s.rows, Current(s, a.session).m));
      assert Grows(u, t) && t.rows == u.rows;
      OrderOnLongerLogs(topo, u, t, conv);
    } else {
      if a.SaveDirect? { DirectLeavesContents(topo, s, a, conv); }
      if a.SetStatus? { ContentsIgnoreStatus(s.rows, a.id, a.status, conv); }
      OrderOnLongerLogs(topo, s, t, conv);
    }
  }

  lemma {:induction false} RunKeepsOrder(topo: Topology, acts: seq<Action>, conv: string)
    requires topo.partitions > 0
    requires Run(topo, Init(topo), acts).Some?
    requires Clean(Run(topo, Init(topo), acts).value, conv)
    ensures Ordered(topo, Run(topo, Init(topo), acts).value, conv)
  {
    if acts == [] {
      assert OrderedUpTo(topo, Init(topo), conv, 0);
    } else {
      var init, last := acts[..|acts| - 1], acts[|acts| - 1];
      var s := Run(topo, Init(topo), init).value;
      InitInv(topo);
      RunKeepsInv(topo, Init(topo), init);
      CleanBefore(topo, s, last, conv);
      RunKeepsOrder(topo, init, conv);
      StepKeepsOrder(topo, s, last, conv);
    }
  }

  // In every reachable state that is clean for a conversation, its rows are exactly the
  // first copies of a prefix of its partition's log, in the log's order.
  lemma RowsFollowLog(topo: Topology, s: System, conv: string)
    requires topo.partitions > 0 && Reachable(topo, s) && Clean(s, conv)
    ensures Ordered(topo, s, conv)
  {
    var acts :| Run(topo, Init(topo), acts) == Some(s);
    RunKeepsOrder(topo, acts, conv);
  }

  // Once the partition is settled to its end, the rows are those of handling the whole
  // log exactly once.
  lemma ReplayEquivalence(topo: Topology, s: System, conv: string)
    requires topo.partitions > 0 && Reachable(topo, s) && Clean(s, conv)
    requires var p := PartitionOf(topo, conv);
             p < |s.logs| && SettledBelow(s, p, |s.logs[p]|)
    ensures ConversationContents(s.rows, conv) == FirstCopies(s.logs[PartitionOf(topo, conv)], conv)
  {
    ReachableInv(topo, s);
    RowsFollowLog(topo, s, conv);
    var k: nat :| OrderedUpTo(topo, s, conv, k);
    var p := PartitionOf(topo, conv);
    var n := |s.logs[p]|;
    forall o: nat | o < n && InConversation(s, p, o, conv)
      ensures HasRow(s.rows, s.logs[p][o].m.msgID)
    {
      CleanSettledIsStored(topo, s, conv, p, o);
    }
    CatchUp(topo, s, conv, k, n);
    assert s.logs[p][..n] == s.logs[p];
  }

  // ----- order, read off pairwise -----

  ghost predicate FirstAt(log: seq<Payload>, c: Message, o: nat) {
    && o < |log| && log[o].Good? && Content(RowOf(log[o].m, 0)) == c
    && forall q: nat :: q < o && log[q].Good? ==> Content(RowOf(log[q].m, 0)) != c
  }

  // A copy that the last record adds occurs there first.
  lemma AddedLast(log: seq<Payload>, conv: string)
    requires log != [] && FirstCopies(log, conv) != FirstCopies(log[..|log| - 1], conv)
    ensures log[|log| - 1].Good? && log[|log| - 1].m.conversationID == conv
    ensures var c := Content(RowOf(log[|log| - 1].m, 0));
            FirstCopies(log, conv) == FirstCopies(log[..|log| - 1], conv) + [c] && FirstAt(log, c, |log| - 1)
  {
    var init, c := log[..|log| - 1], Content(RowOf(log[|log| - 1].m, 0));
    forall q: nat | q < |init| && log[q].Good? ensures Content(RowOf(log[q].m, 0)) != c {
      if Content(RowOf(log[q].m, 0)) == c {
        assert log[q].m.conversationID == c.conversationID;
        FirstCopiesHave(init, conv, q);
      }
    }
  }

  lemma {:induction false} CopiesComeFromLog(log: seq<Payload>, conv: string, c: Message)
    requires c in FirstCopies(log, conv)
    ensures c.conversationID == conv && exists o: nat :: o < |log| && FirstAt(log, c, o)
  {
    var init := log[..|log| - 1];
    if c in FirstCopies(init, conv) {
      CopiesComeFromLog(init, conv, c);
      var o: nat :| o < |init| && FirstAt(init, c, o);
      assert FirstAt(log, c, o);
    } else {
      AddedLast(log, conv);
    }
  }

  // The first copy of c is on the log before that of d.
  ghost predicate CopiedBefore(log: seq<Payload>, c: Message, d: Message) {
    exists a: nat, b: nat :: a < b && FirstAt(log, c, a) && FirstAt(log, d, b)
  }

  lemma CopiedBeforeStays(log: seq<Payload>, more: seq<Payload>, c: Message, d: Message)
    requires log <= more && CopiedBefore(log, c, d)
    ensures CopiedBefore(more, c, d)
  {
    var a: nat, b: nat :| a < b && FirstAt(log, c, a) && FirstAt(log, d, b);
    assert FirstAt(more, c, a) && FirstAt(more, d, b);
  }

  // Of two of a conversation's rows, the earlier one's first copy is earlier on the log.
  lemma {:induction false} FirstCopiesInOrder(log: seq<Payload>, conv: string, i: nat, j: nat)
    requires i < j < |FirstCopies(log, conv)|
    ensures CopiedBefore(log, FirstCopies(log, conv)[i], FirstCopies(log, conv)[j])
  {
    var init := log[..|log| - 1];
    var all, first := FirstCopies(log, conv), FirstCopies(init, conv);
    if j < |first| {
      FirstCopiesInOrder(init, conv, i, j);
      assert all[i] == first[i] && all[j] == first[j];
      CopiedBeforeStays(init, log, first[i], first[j]);
    } else {
      AddedLast(log, conv);
      assert all[i] == first[i];
      CopiesComeFromLog(init, conv, first[i]);
      var a: nat :| a < |init| && FirstAt(init, first[i], a);
      assert FirstAt(log, all[i], a) && FirstAt(log, all[j], |log| - 1);
    }
  }

  // So of two rows of a conversation, in any reachable state that is clean for it, the
  // earlier one's message was first appended earlier.
  lemma RowsInLogOrder(topo: Topology, s: System, conv: string, i: nat, j: nat)
    requires topo.partitions > 0 && Reachable(topo, s) && Clean(s, conv)
    requires i < j < |ConversationContents(s.rows, conv)|
    ensures PartitionOf(topo, conv) < |s.logs|
    ensures CopiedBefore(s.logs[PartitionOf(topo, conv)],
                         ConversationContents(s.rows, conv)[i], ConversationContents(s.rows, conv)[j])
  {
    RowsFollowLog(topo, s, conv);
    var k: nat :| OrderedUpTo(topo, s, conv, k);
    var log, all := s.logs[PartitionOf(topo, conv)], ConversationContents(s.rows, conv);
    FirstCopiesInOrder(log[..k], conv, i, j);
    CopiedBeforeStays(log[..k], log, all[i], all[j]);
  }
}
