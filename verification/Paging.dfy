/** Keyset paging while the table changes: complete, ordered and free of duplicates. */
module Paging {
  import opened Basics
  import opened Messages
  import opened MessageStore

  // Everything about a row that later writes leave alone: updates touch only the status.
  function Frozen(r: Message): Message {
    r.(status := "")
  }

  lemma SameFrozenIff(a: Message, b: Message)
    ensures Frozen(a) == Frozen(b) <==> a.id == b.id && Content(a) == Content(b)
  {}

  // Between two queries rows are inserted and statuses change, in any number.
  ghost predicate Evolves(before: seq<Message>, after: seq<Message>) {
    forall r :: r in before ==> exists r' :: r' in after && Frozen(r') == Frozen(r)
  }

  // The states of the table that successive queries see.
  ghost predicate History(tables: seq<seq<Message>>) {
    && (forall i :: 0 <= i < |tables| ==> UniqueIds(tables[i]))
    && (forall i :: 0 <= i < |tables| - 1 ==> Evolves(tables[i], tables[i + 1]))
  }

  lemma HistoryTail(tables: seq<seq<Message>>)
    requires History(tables) && tables != []
    ensures History(tables[1..])
    ensures |tables| > 1 ==> Evolves(tables[0], tables[1..][0])
  {
    var rest := tables[1..];
    forall i | 0 <= i < |rest| - 1 ensures Evolves(rest[i], rest[i + 1]) {
      assert Evolves(tables[i + 1], tables[i + 1 + 1]);
    }
    if |tables| > 1 { assert Evolves(tables[0], tables[0 + 1]); }
  }

  // ----- one order, one scope of conversations -----

  predicate Follows(desc: bool, r: Message, cursor: Option<Key>) {
    cursor.Some? ==> Before(desc, cursor.value, KeyOf(r))
  }

  function InScope(desc: bool, scope: set<string>, cursor: Option<Key>): Message -> bool {
    (r: Message) => r.conversationID in scope && Follows(desc, r, cursor)
  }

  function Page(desc: bool, rows: seq<Message>, scope: set<string>, cursor: Option<Key>, limit: int): seq<Message> {
    Query(rows, InScope(desc, scope, cursor), desc, limit)
  }

  function Last(page: seq<Message>): Option<Key>
    requires page != []
  {
    Some(KeyOf(page[|page| - 1]))
  }

  // All rows returned by following the last row's key until a page is empty.
  function Collected(desc: bool, tables: seq<seq<Message>>, scope: set<string>, cursor: Option<Key>,
                     limit: int): seq<Message> {
    if tables == [] then []
    else
      var page := Page(desc, tables[0], scope, cursor, limit);
      if page == [] then [] else page + Collected(desc, tables[1..], scope, Last(page), limit)
  }

  predicate Finished(desc: bool, tables: seq<seq<Message>>, scope: set<string>, cursor: Option<Key>, limit: int) {
    && tables != []
    && var page := Page(desc, tables[0], scope, cursor, limit);
       page == [] || Finished(desc, tables[1..], scope, Last(page), limit)
  }

  lemma PageSpec(desc: bool, rows: seq<Message>, scope: set<string>, cursor: Option<Key>, limit: int)
    requires UniqueIds(rows)
    ensures var page := Page(desc, rows, scope, cursor, limit);
            && Sorted(desc, page)
            && (forall r :: r in page ==> r in rows && r.conversationID in scope && Follows(desc, r, cursor))
            && (forall r :: (r in rows && r.conversationID in scope && Follows(desc, r, cursor)
                             && r !in page && page != []) ==>
                  Follows(desc, r, Last(page)))
            && (limit != 0 && page == [] ==>
                  forall r :: r in rows ==> !(r.conversationID in scope && Follows(desc, r, cursor)))
            && (limit >= 0 ==> |page| <= limit)
  {
    QueryIsPage(rows, InScope(desc, scope, cursor), desc, limit);
    var page := Page(desc, rows, scope, cursor, limit);
    var all := Candidates(rows, InScope(desc, scope, cursor));
    forall r | r in rows && r.conversationID in scope && Follows(desc, r, cursor)
      ensures r in all
    {
      assert InScope(desc, scope, cursor)(r);
    }
  }

  lemma SortedConcat(desc: bool, a: seq<Message>, b: seq<Message>)
    requires Sorted(desc, a) && Sorted(desc, b) && a != []
    requires forall r :: r in b ==> Follows(desc, r, Last(a))
    ensures Sorted(desc, a + b)
  {
    var all := a + b;
    forall i, j | 0 <= i < j < |all| ensures Before(desc, KeyOf(all[i]), KeyOf(all[j])) {
      if i < |a| <= j {
        assert all[j] in b;
      }
    }
  }

  // Every row comes back at most once and in order, from whatever the table was.
  lemma {:induction false} CollectedSorted(desc: bool, tables: seq<seq<Message>>, scope: set<string>,
                                           cursor: Option<Key>, limit: int)
    requires History(tables)
    ensures Sorted(desc, Collected(desc, tables, scope, cursor, limit))
    ensures forall r :: r in Collected(desc, tables, scope, cursor, limit) ==>
              r.conversationID in scope && Follows(desc, r, cursor) && exists i :: 0 <= i < |tables| && r in tables[i]
    decreases tables
  {
    if tables != [] {
      PageSpec(desc, tables[0], scope, cursor, limit);
      var page := Page(desc, tables[0], scope, cursor, limit);
      if page != [] {
        HistoryTail(tables);
        CollectedSorted(desc, tables[1..], scope, Last(page), limit);
        var rest := Collected(desc, tables[1..], scope, Last(page), limit);
        SortedConcat(desc, page, rest);
        forall r: Message | r in page + rest
          ensures r.conversationID in scope && Follows(desc, r, cursor)
          ensures exists i :: 0 <= i < |tables| && r in tables[i]
        {
          if r in page {
            assert r in tables[0];
          } else {
            var i :| 0 <= i < |tables[1..]| && r in tables[1..][i];
            assert r in tables[i + 1];
          }
        }
      }
    }
  }

  lemma RowSurvives(tables: seq<seq<Message>>, r: Message) returns (r': Message)
    requires History(tables) && |tables| > 1 && r in tables[0]
    ensures r' in tables[1] && Frozen(r') == Frozen(r)
    ensures KeyOf(r') == KeyOf(r) && r'.conversationID == r.conversationID
  {
    assert Evolves(tables[0], tables[0 + 1]);
    r' :| r' in tables[1] && Frozen(r') == Frozen(r);
    assert Frozen(r').serverTS == r'.serverTS && Frozen(r').id == r'.id;
    assert Frozen(r').conversationID == r'.conversationID;
  }

  // A matching row that is not on a page comes after all of it.
  lemma LeftForLater(desc: bool, rows: seq<Message>, scope: set<string>, cursor: Option<Key>, limit: int, r: Message)
    requires UniqueIds(rows) && limit != 0
    requires r in rows && r.conversationID in scope && Follows(desc, r, cursor)
    requires r !in Page(desc, rows, scope, cursor, limit)
    ensures var page := Page(desc, rows, scope, cursor, limit); page != [] && Follows(desc, r, Last(page))
  {
    PageSpec(desc, rows, scope, cursor, limit);
  }

  // A row that was there at the start is returned by the time a page is empty.
  lemma {:induction false} CollectedComplete(desc: bool, tables: seq<seq<Message>>, scope: set<string>,
                                             cursor: Option<Key>, limit: int, r: Message)
    returns (i: nat)
    requires History(tables) && limit != 0
    requires Finished(desc, tables, scope, cursor, limit)
    requires r in tables[0] && r.conversationID in scope && Follows(desc, r, cursor)
    ensures i < |Collected(desc, tables, scope, cursor, limit)|
    ensures Frozen(Collected(desc, tables, scope, cursor, limit)[i]) == Frozen(r)
    decreases tables
  {
    var page := Page(desc, tables[0], scope, cursor, limit);
    if r in page {
      i :| 0 <= i < |page| && page[i] == r;
    } else {
      LeftForLater(desc, tables[0], scope, cursor, limit, r);
      HistoryTail(tables);
      var r' := RowSurvives(tables, r);
      var k := CollectedComplete(desc, tables[1..], scope, Last(page), limit, r');
      i := |page| + k;
      var rest := Collected(desc, tables[1..], scope, Last(page), limit);
      assert (page + rest)[i] == rest[k];
    }
  }

  ghost predicate ReturnedAt(rows: seq<Message>, r: Message, i: nat) {
    i < |rows| && Frozen(rows[i]) == Frozen(r)
  }

  ghost predicate Returned(rows: seq<Message>, r: Message) {
    exists i: nat :: ReturnedAt(rows, r, i)
  }

  // ----- rows that appear while paging -----

  // The paging gets as far as query k, and this is the cursor it uses there.
  predicate Asks(desc: bool, tables: seq<seq<Message>>, scope: set<string>, cursor: Option<Key>, limit: int, k: nat) {
    && k < |tables|
    && (k > 0 ==>
          var page := Page(desc, tables[0], scope, cursor, limit);
          page != [] && Asks(desc, tables[1..], scope, Last(page), limit, k - 1))
  }

  function CursorAt(desc: bool, tables: seq<seq<Message>>, scope: set<string>, cursor: Option<Key>, limit: int,
                    k: nat): Option<Key>
    requires Asks(desc, tables, scope, cursor, limit, k)
  {
    if k == 0 then cursor
    else CursorAt(desc, tables[1..], scope, Last(Page(desc, tables[0], scope, cursor, limit)), limit, k - 1)
  }

  // The row is in the table of query k and in none before.
  ghost predicate AppearsAt(tables: seq<seq<Message>>, r: Message, k: nat) {
    && k < |tables| && r in tables[k]
    && forall j :: 0 <= j < k ==> forall x :: x in tables[j] ==> x.id != r.id
  }

  lemma AppearsInTail(tables: seq<seq<Message>>, r: Message, k: nat)
    requires AppearsAt(tables, r, k) && k > 0
    ensures AppearsAt(tables[1..], r, k - 1)
  {
    forall j | 0 <= j < k - 1 ensures forall x :: x in tables[1..][j] ==> x.id != r.id {
      assert tables[1..][j] == tables[j + 1];
    }
  }

  lemma SameKeyFollows(desc: bool, x: Message, r: Message, cursor: Option<Key>)
    requires Frozen(x) == Frozen(r) && Follows(desc, x, cursor)
    ensures Follows(desc, r, cursor)
  {
    assert KeyOf(x) == KeyOf(Frozen(x)) == KeyOf(Frozen(r)) == KeyOf(r);
  }

  lemma OnPage(page: seq<Message>, rest: seq<Message>, i: nat)
    requires i < |page|
    ensures (page + rest)[i] in page
  {
  }

  // What is not on the page is returned exactly when it is returned later.
  lemma ReturnedAfter(page: seq<Message>, rest: seq<Message>, r: Message)
    requires forall x :: x in page ==> x.id != r.id
    ensures Returned(page + rest, r) <==> Returned(rest, r)
  {
    var all := page + rest;
    if i: nat :| ReturnedAt(all, r, i) {
      assert all[i].id == Frozen(all[i]).id == Frozen(r).id == r.id;
      if i < |page| { OnPage(page, rest, i); }
      assert all[i] == rest[i - |page|];
      assert ReturnedAt(rest, r, i - |page|);
    }
    if i: nat :| ReturnedAt(rest, r, i) {
      assert all[|page| + i] == rest[i];
      assert ReturnedAt(all, r, |page| + i);
    }
  }

  lemma FirstRowIff(desc: bool, tables: seq<seq<Message>>, scope: set<string>, cursor: Option<Key>, limit: int,
                    r: Message)
    requires History(tables) && limit != 0 && Finished(desc, tables, scope, cursor, limit)
    requires r in tables[0] && r.conversationID in scope
    ensures Returned(Collected(desc, tables, scope, cursor, limit), r) <==> Follows(desc, r, cursor)
  {
    var all := Collected(desc, tables, scope, cursor, limit);
    if Follows(desc, r, cursor) {
      var i := CollectedComplete(desc, tables, scope, cursor, limit, r);
      assert ReturnedAt(all, r, i);
    }
    CollectedSorted(desc, tables, scope, cursor, limit);
    if i: nat :| ReturnedAt(all, r, i) {
      assert all[i] in all;
      SameKeyFollows(desc, all[i], r, cursor);
    }
  }

  lemma OnePageLater(desc: bool, tables: seq<seq<Message>>, scope: set<string>, cursor: Option<Key>, limit: int,
                     r: Message)
    requires History(tables) && tables != [] && Page(desc, tables[0], scope, cursor, limit) != []
    requires forall x :: x in tables[0] ==> x.id != r.id
    ensures Returned(Collected(desc, tables, scope, cursor, limit), r)
       <==> Returned(Collected(desc, tables[1..], scope, Last(Page(desc, tables[0], scope, cursor, limit)), limit), r)
  {
    var page := Page(desc, tables[0], scope, cursor, limit);
    PageSpec(desc, tables[0], scope, cursor, limit);
    ReturnedAfter(page, Collected(desc, tables[1..], scope, Last(page), limit), r);
  }

  // A row that appears at query k is returned exactly when it is past the cursor in use
  // there: one that is stored late, behind the cursor, is never returned.
  lemma {:induction false} LateRowIff(desc: bool, tables: seq<seq<Message>>, scope: set<string>, cursor: Option<Key>,
                                      limit: int, k: nat, r: Message)
    requires History(tables) && limit != 0 && Finished(desc, tables, scope, cursor, limit)
    requires Asks(desc, tables, scope, cursor, limit, k) && AppearsAt(tables, r, k) && r.conversationID in scope
    ensures Returned(Collected(desc, tables, scope, cursor, limit), r)
       <==> Follows(desc, r, CursorAt(desc, tables, scope, cursor, limit, k))
    decreases k
  {
    if k == 0 {
      FirstRowIff(desc, tables, scope, cursor, limit, r);
    } else {
      var page := Page(desc, tables[0], scope, cursor, limit);
      HistoryTail(tables);
      AppearsInTail(tables, r, k);
      OnePageLater(desc, tables, scope, cursor, limit, r);
      LateRowIff(desc, tables[1..], scope, Last(page), limit, k - 1, r);
    }
  }

  // ----- the service's own cursors, oldest first -----

  ghost predicate PositiveTimes(tables: seq<seq<Message>>) {
    forall i, r :: 0 <= i < |tables| && r in tables[i] ==> r.serverTS > 0
  }

  function CursorOf(ts: int, id: nat): Option<Key> {
    if ts > 0 then Some(Key(ts, id)) else None
  }

  // Pulling one conversation: the next cursor is the last row's (server_ts, id).
  function Pull(tables: seq<seq<Message>>, conv: string, ts: int, id: nat, limit: int): seq<Message> {
    if tables == [] then []
    else
      var page := GetMessagesByCursor(tables[0], conv, ts, id, limit);
      if page == [] then []
      else page + Pull(tables[1..], conv, page[|page| - 1].serverTS, page[|page| - 1].id, limit)
  }

  predicate PullEnds(tables: seq<seq<Message>>, conv: string, ts: int, id: nat, limit: int) {
    && tables != []
    && var page := GetMessagesByCursor(tables[0], conv, ts, id, limit);
       page == [] || PullEnds(tables[1..], conv, page[|page| - 1].serverTS, page[|page| - 1].id, limit)
  }

  lemma {:induction false} FilterCongruent(rows: seq<Message>, p: Message -> bool, q: Message -> bool)
    requires forall r :: r in rows ==> p(r) == q(r)
    ensures Filter(rows, p) == Filter(rows, q)
  {
    if rows != [] { FilterCongruent(rows[1..], p, q); }
  }

  lemma ByCursorIsPage(rows: seq<Message>, conv: string, ts: int, id: nat, limit: int)
    ensures GetMessagesByCursor(rows, conv, ts, id, limit) == Page(false, rows, {conv}, CursorOf(ts, id), limit)
  {
    FilterCongruent(rows, (r: Message) => r.conversationID == conv && (ts > 0 ==> PastCursor(r, ts, id)),
                    InScope(false, {conv}, CursorOf(ts, id)));
  }

  lemma {:induction false} PullIsCollected(tables: seq<seq<Message>>, conv: string, ts: int, id: nat, limit: int)
    requires History(tables) && PositiveTimes(tables)
    ensures Pull(tables, conv, ts, id, limit) == Collected(false, tables, {conv}, CursorOf(ts, id), limit)
    ensures PullEnds(tables, conv, ts, id, limit) <==> Finished(false, tables, {conv}, CursorOf(ts, id), limit)
    decreases tables
  {
    if tables != [] {
      ByCursorIsPage(tables[0], conv, ts, id, limit);
      PageSpec(false, tables[0], {conv}, CursorOf(ts, id), limit);
      var page := GetMessagesByCursor(tables[0], conv, ts, id, limit);
      if page != [] {
        var last := page[|page| - 1];
        assert last in tables[0];
        HistoryTail(tables);
        assert PositiveTimes(tables[1..]) by {
          forall i, r | 0 <= i < |tables[1..]| && r in tables[1..][i] ensures r.serverTS > 0 {
            assert r in tables[i + 1];
          }
        }
        PullIsCollected(tables[1..], conv, last.serverTS, last.id, limit);
      }
    }
  }

  // Exactly one of the rows is r, up to its status.
  ghost predicate ReturnedOnce(rows: seq<Message>, r: Message) {
    && Returned(rows, r)
    && forall i: nat, j: nat :: ReturnedAt(rows, r, i) && ReturnedAt(rows, r, j) ==> i == j
  }

  lemma SameKeySamePlace(desc: bool, rows: seq<Message>, a: nat, b: nat)
    requires Sorted(desc, rows) && a < |rows| && b < |rows| && KeyOf(rows[a]) == KeyOf(rows[b])
    ensures a == b
  {}

  lemma SortedReturnsOnce(desc: bool, rows: seq<Message>, r: Message, i: nat)
    requires Sorted(desc, rows) && ReturnedAt(rows, r, i)
    ensures ReturnedOnce(rows, r)
  {
    forall a: nat, b: nat | ReturnedAt(rows, r, a) && ReturnedAt(rows, r, b)
      ensures a == b
    {
      assert KeyOf(rows[a]) == KeyOf(Frozen(rows[a])) == KeyOf(rows[b]);
      SameKeySamePlace(desc, rows, a, b);
    }
  }

  // Paging a conversation by its last row's cursor is strictly increasing, and once a
  // page is empty every row present at the start past the cursor was returned exactly
  // once, whatever was inserted or updated between the pages.
  lemma PullComplete(tables: seq<seq<Message>>, conv: string, ts: int, id: nat, limit: int)
    requires History(tables) && PositiveTimes(tables) && limit != 0
    ensures Sorted(false, Pull(tables, conv, ts, id, limit))
    ensures forall r :: r in Pull(tables, conv, ts, id, limit) ==> r.conversationID == conv
    ensures PullEnds(tables, conv, ts, id, limit) ==>
              forall r :: (&& r in tables[0] && r.conversationID == conv
                           && (ts > 0 ==> r.serverTS > ts || (r.serverTS == ts && r.id > id))) ==>
                ReturnedOnce(Pull(tables, conv, ts, id, limit), r)
  {
    PullIsCollected(tables, conv, ts, id, limit);
    CollectedSorted(false, tables, {conv}, CursorOf(ts, id), limit);
    if PullEnds(tables, conv, ts, id, limit) {
      forall r | r in tables[0] && r.conversationID == conv && (ts > 0 ==> PastCursor(r, ts, id))
        ensures ReturnedOnce(Pull(tables, conv, ts, id, limit), r)
      {
        var i := CollectedComplete(false, tables, {conv}, CursorOf(ts, id), limit, r);
        SortedReturnsOnce(false, Pull(tables, conv, ts, id, limit), r, i);
      }
    }
  }

  // A row stored while a client pulls the conversation is pulled exactly when it is past
  // the cursor the client uses when the row appears.
  lemma LatePulledIff(tables: seq<seq<Message>>, conv: string, ts: int, id: nat, limit: int, k: nat, r: Message)
    requires History(tables) && PositiveTimes(tables) && limit != 0 && PullEnds(tables, conv, ts, id, limit)
    requires AppearsAt(tables, r, k) && r.conversationID == conv
    requires Asks(false, tables, {conv}, CursorOf(ts, id), limit, k)
    ensures Returned(Pull(tables, conv, ts, id, limit), r)
       <==> Follows(false, r, CursorAt(false, tables, {conv}, CursorOf(ts, id), limit, k))
  {
    PullIsCollected(tables, conv, ts, id, limit);
    LateRowIff(false, tables, {conv}, CursorOf(ts, id), limit, k, r);
  }

  // Why the times must be positive: the cursor of a row excludes the row from the next
  // page exactly when its timestamp is positive; otherwise paging starts over.
  lemma CursorMovesIffPositive(rows: seq<Message>, r: Message)
    requires UniqueIds(rows) && r in rows
    ensures r !in GetMessagesByCursor(rows, r.conversationID, r.serverTS, r.id, -1) <==> r.serverTS > 0
    ensures r.serverTS <= 0 ==> forall limit ::
              GetMessagesByCursor(rows, r.conversationID, r.serverTS, r.id, limit)
                == GetMessagesByCursor(rows, r.conversationID, 0, 0, limit)
  {
    ByCursorIsPage(rows, r.conversationID, r.serverTS, r.id, -1);
    PageSpec(false, rows, {r.conversationID}, CursorOf(r.serverTS, r.id), -1);
    QueryIsPage(rows, InScope(false, {r.conversationID}, CursorOf(r.serverTS, r.id)), false, -1);
    if r.serverTS <= 0 {
      assert r in Candidates(rows, InScope(false, {r.conversationID}, CursorOf(r.serverTS, r.id)));
      forall limit
        ensures GetMessagesByCursor(rows, r.conversationID, r.serverTS, r.id, limit)
             == GetMessagesByCursor(rows, r.conversationID, 0, 0, limit)
      {
        ByCursorIsPage(rows, r.conversationID, r.serverTS, r.id, limit);
        ByCursorIsPage(rows, r.conversationID, 0, 0, limit);
      }
    }
  }

  // ----- all conversations of a user -----

  // Pulling with fixed memberships: every page is over the same conversations.
  function PullAll(tables: seq<seq<Message>>, members: seq<Member>, userID: string, ts: int, id: nat,
                   limit: int): seq<Message> {
    PullOver(tables, ConversationsOf(members, userID), ts, id, limit)
  }

  predicate PullAllEnds(tables: seq<seq<Message>>, members: seq<Member>, userID: string, ts: int, id: nat, limit: int) {
    PullOverEnds(tables, ConversationsOf(members, userID), ts, id, limit)
  }

  function PullOver(tables: seq<seq<Message>>, convIDs: set<string>, ts: int, id: nat, limit: int): seq<Message> {
    if tables == [] then []
    else
      var page := MessagesOfAll(tables[0], convIDs, ts, id, limit);
      if page == [] then []
      else page + PullOver(tables[1..], convIDs, page[|page| - 1].serverTS, page[|page| - 1].id, limit)
  }

  predicate PullOverEnds(tables: seq<seq<Message>>, convIDs: set<string>, ts: int, id: nat, limit: int) {
    && tables != []
    && var page := MessagesOfAll(tables[0], convIDs, ts, id, limit);
       page == [] || PullOverEnds(tables[1..], convIDs, page[|page| - 1].serverTS, page[|page| - 1].id, limit)
  }

  lemma OfAllIsPage(rows: seq<Message>, convIDs: set<string>, ts: int, id: nat, limit: int)
    ensures MessagesOfAll(rows, convIDs, ts, id, limit) == Page(false, rows, convIDs, Some(Key(ts, id)), limit)
  {
    FilterCongruent(rows, (r: Message) => r.conversationID in convIDs && PastCursor(r, ts, id),
                    InScope(false, convIDs, Some(Key(ts, id))));
    if convIDs == {} {
      FilterNone(rows, InScope(false, convIDs, Some(Key(ts, id))));
    }
  }

  lemma WithCursorIsPage(rows: seq<Message>, members: seq<Member>, userID: string, ts: int, id: nat, limit: int)
    ensures GetMessagesWithCursor(rows, members, userID, ts, id, limit)
         == Page(false, rows, ConversationsOf(members, userID), Some(Key(ts, id)), limit)
  {
    OfAllIsPage(rows, ConversationsOf(members, userID), ts, id, limit);
  }

  lemma {:induction false} FilterNone(rows: seq<Message>, p: Message -> bool)
    requires forall r :: r in rows ==> !p(r)
    ensures Filter(rows, p) == []
  {
    if rows != [] { FilterNone(rows[1..], p); }
  }

  lemma {:induction false} PullOverIsCollected(tables: seq<seq<Message>>, convIDs: set<string>, ts: int, id: nat,
                                               limit: int)
    ensures PullOver(tables, convIDs, ts, id, limit) == Collected(false, tables, convIDs, Some(Key(ts, id)), limit)
    ensures PullOverEnds(tables, convIDs, ts, id, limit) <==> Finished(false, tables, convIDs, Some(Key(ts, id)), limit)
    decreases tables
  {
    if tables != [] {
      var page := MessagesOfAll(tables[0], convIDs, ts, id, limit);
      OfAllIsPage(tables[0], convIDs, ts, id, limit);
      if page != [] {
        var last := KeyOf(page[|page| - 1]);
        PullOverIsCollected(tables[1..], convIDs, last.ts, last.id, limit);
        assert Some(Key(last.ts, last.id)) == Last(page);
      }
    }
  }

  // The same over all conversations of a user with fixed memberships; this query always
  // filters by the cursor, so no assumption on the timestamps is needed.
  lemma PullAllComplete(tables: seq<seq<Message>>, members: seq<Member>, userID: string, ts: int, id: nat, limit: int)
    requires History(tables) && limit != 0
    ensures Sorted(false, PullAll(tables, members, userID, ts, id, limit))
    ensures forall r :: r in PullAll(tables, members, userID, ts, id, limit) ==>
              Member(r.conversationID, userID) in members
    ensures PullAllEnds(tables, members, userID, ts, id, limit) ==>
              forall r :: (&& r in tables[0] && Member(r.conversationID, userID) in members
                           && (r.serverTS > ts || (r.serverTS == ts && r.id > id))) ==>
                ReturnedOnce(PullAll(tables, members, userID, ts, id, limit), r)
  {
    var scope := ConversationsOf(members, userID);
    OnlyOwnConversations(members, userID);
    PullOverIsCollected(tables, scope, ts, id, limit);
    CollectedSorted(false, tables, scope, Some(Key(ts, id)), limit);
    if PullAllEnds(tables, members, userID, ts, id, limit) {
      forall r | r in tables[0] && r.conversationID in scope && PastCursor(r, ts, id)
        ensures ReturnedOnce(PullAll(tables, members, userID, ts, id, limit), r)
      {
        var i := CollectedComplete(false, tables, scope, Some(Key(ts, id)), limit, r);
        SortedReturnsOnce(false, PullAll(tables, members, userID, ts, id, limit), r, i);
      }
    }
  }

  lemma LatePulledByUserIff(tables: seq<seq<Message>>, members: seq<Member>, userID: string, scope: set<string>,
                            ts: int, id: nat, limit: int, k: nat, r: Message)
    requires History(tables) && limit != 0 && PullAllEnds(tables, members, userID, ts, id, limit)
    requires forall c :: c in scope <==> Member(c, userID) in members
    requires AppearsAt(tables, r, k) && Member(r.conversationID, userID) in members
    requires Asks(false, tables, scope, Some(Key(ts, id)), limit, k)
    ensures Returned(PullAll(tables, members, userID, ts, id, limit), r)
       <==> Follows(false, r, CursorAt(false, tables, scope, Some(Key(ts, id)), limit, k))
  {
    OnlyOwnConversations(members, userID);
    assert scope == ConversationsOf(members, userID);
    PullOverIsCollected(tables, scope, ts, id, limit);
    LateRowIff(false, tables, scope, Some(Key(ts, id)), limit, k, r);
  }
}
