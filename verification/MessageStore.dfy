/** The queries on the messages table: filter, order by (server_ts, id), limit. */
module MessageStore {
  import opened Basics
  import opened Messages

  datatype Key = Key(ts: int, id: nat)

  function KeyOf(r: Message): Key {
    Key(r.serverTS, r.id)
  }

  predicate KeyLess(a: Key, b: Key) {
    a.ts < b.ts || (a.ts == b.ts && a.id < b.id)
  }

  // Ascending order, or descending when desc is set.
  predicate Before(desc: bool, a: Key, b: Key) {
    if desc then KeyLess(b, a) else KeyLess(a, b)
  }

  ghost predicate UniqueIds(rows: seq<Message>) {
    forall i, j :: 0 <= i < j < |rows| ==> rows[i].id != rows[j].id
  }

  ghost predicate Sorted(desc: bool, rows: seq<Message>) {
    forall i, j :: 0 <= i < j < |rows| ==> Before(desc, KeyOf(rows[i]), KeyOf(rows[j]))
  }

  function Filter(rows: seq<Message>, p: Message -> bool): seq<Message> {
    if rows == [] then []
    else (if p(rows[0]) then [rows[0]] else []) + Filter(rows[1..], p)
  }

  function InsertSorted(desc: bool, r: Message, rows: seq<Message>): seq<Message> {
    if rows == [] || Before(desc, KeyOf(r), KeyOf(rows[0])) then [r] + rows
    else [rows[0]] + InsertSorted(desc, r, rows[1..])
  }

  function OrderBy(desc: bool, rows: seq<Message>): seq<Message> {
    if rows == [] then [] else InsertSorted(desc, rows[0], OrderBy(desc, rows[1..]))
  }

  // A negative limit means no limit.
  function Limit(rows: seq<Message>, limit: int): seq<Message> {
    if limit < 0 || |rows| <= limit then rows else rows[..limit]
  }

  function Query(rows: seq<Message>, p: Message -> bool, desc: bool, limit: int): seq<Message> {
    Limit(OrderBy(desc, Filter(rows, p)), limit)
  }

  // ----- repository functions -----

  predicate PastCursor(r: Message, ts: int, id: nat) {
    r.serverTS > ts || (r.serverTS == ts && r.id > id)
  }

  // GetMessagesByCursor paging towards newer messages: a cursor timestamp that is not
  // positive means from the beginning.
  function GetMessagesByCursor(rows: seq<Message>, conv: string, ts: int, id: nat, limit: int): seq<Message> {
    Query(rows, (r: Message) => r.conversationID == conv && (ts > 0 ==> PastCursor(r, ts, id)), false, limit)
  }

  datatype Member = Member(conversationID: string, userID: string)

  function ConversationsOf(members: seq<Member>, userID: string): set<string> {
    set i | 0 <= i < |members| && members[i].userID == userID :: members[i].conversationID
  }

  // Those the user is a member of, and no others.
  lemma OnlyOwnConversations(members: seq<Member>, userID: string)
    ensures forall c :: c in ConversationsOf(members, userID) <==> Member(c, userID) in members
  {
    forall c ensures c in ConversationsOf(members, userID) <==> Member(c, userID) in members {
      if Member(c, userID) in members {
        var i :| 0 <= i < |members| && members[i] == Member(c, userID);
        assert members[i].conversationID in ConversationsOf(members, userID);
      }
    }
  }

  // The page over all conversations of a user; here the cursor always filters.
  function GetMessagesWithCursor(rows: seq<Message>, members: seq<Member>, userID: string,
                                 ts: int, id: nat, limit: int): seq<Message> {
    MessagesOfAll(rows, ConversationsOf(members, userID), ts, id, limit)
  }

  function MessagesOfAll(rows: seq<Message>, convIDs: set<string>, ts: int, id: nat, limit: int): seq<Message> {
    if convIDs == {} then []
    else Query(rows, (r: Message) => r.conversationID in convIDs && PastCursor(r, ts, id), false, limit)
  }

  function GetMessageByMsgID(rows: seq<Message>, msgID: string): (r: Option<Message>)
    ensures r.Some? ==> r.value in rows && r.value.msgID == msgID
    ensures r.None? ==> forall i :: 0 <= i < |rows| ==> rows[i].msgID != msgID
  {
    if rows == [] then None
    else if rows[0].msgID == msgID then Some(rows[0])
    else GetMessageByMsgID(rows[1..], msgID)
  }

  function BeforeCursor(rows: seq<Message>, beforeMsgID: string): Option<Key> {
    if beforeMsgID == "" then None
    else
      match GetMessageByMsgID(rows, beforeMsgID)
      case Some(r) => Some(KeyOf(r))
      case None => None
  }

  // The newest messages older than the given one, with one probe row beyond the limit. An
  // unknown message id is ignored.
  function GetMessagesByConversation(rows: seq<Message>, conv: string, limit: int, beforeMsgID: string): seq<Message> {
    var cursor := BeforeCursor(rows, beforeMsgID);
    Query(rows, (r: Message) => r.conversationID == conv && (cursor.Some? ==> KeyLess(KeyOf(r), cursor.value)),
          true, limit + 1)
  }

  // The whole repository function: a failing lookup of the cursor's message is ignored too.
  function HistoryRows(rows: seq<Message>, conv: string, limit: int, beforeMsgID: string,
                       lookupFails: bool): seq<Message> {
    GetMessagesByConversation(rows, conv, limit, if lookupFails then "" else beforeMsgID)
  }

  // ----- what a query returns, without saying how -----

  // page is the answer to "the first limit of the candidates, in order".
  ghost predicate IsPage(desc: bool, candidates: set<Message>, limit: int, page: seq<Message>) {
    && Sorted(desc, page)
    && (forall r :: r in page ==> r in candidates)
    && (limit >= 0 ==> |page| <= limit)
    && ((limit < 0 || |page| < limit) ==> forall r :: r in candidates ==> r in page)
    && forall r, i :: r in candidates && r !in page && 0 <= i < |page| ==> Before(desc, KeyOf(page[i]), KeyOf(r))
  }

  // Two pages that agree below n: the other page's next element is not the earlier one.
  lemma NextNotBefore(desc: bool, candidates: set<Message>, limit: int, a: seq<Message>, b: seq<Message>, n: nat)
    requires IsPage(desc, candidates, limit, a) && IsPage(desc, candidates, limit, b)
    requires n < |a| && n < |b| && forall i :: 0 <= i < n ==> a[i] == b[i]
    ensures !Before(desc, KeyOf(b[n]), KeyOf(a[n]))
    ensures KeyOf(a[n]) == KeyOf(b[n]) ==> a[n] == b[n]
  {
    assert b[n] in candidates;
    if b[n] in a {
      var i :| 0 <= i < |a| && a[i] == b[n];
      assert i >= n;
      if i > n { assert Before(desc, KeyOf(a[n]), KeyOf(a[i])); }
    } else {
      assert Before(desc, KeyOf(a[n]), KeyOf(b[n]));
    }
  }

  // A page that begins with another whole page has nothing more.
  lemma NothingMore(desc: bool, candidates: set<Message>, limit: int, a: seq<Message>, b: seq<Message>)
    requires IsPage(desc, candidates, limit, a) && IsPage(desc, candidates, limit, b)
    requires |a| <= |b| && forall i :: 0 <= i < |a| ==> a[i] == b[i]
    ensures a == b
  {
    if b != [] {
      var last := b[|b| - 1];
      assert last in candidates;
      if last in a {
        var i :| 0 <= i < |a| && a[i] == last;
        assert b[i] == last;
      }
    }
  }

  lemma {:induction false} PagesAgree(desc: bool, candidates: set<Message>, limit: int, a: seq<Message>,
                                      b: seq<Message>, n: nat)
    requires IsPage(desc, candidates, limit, a) && IsPage(desc, candidates, limit, b)
    requires n <= |a| && n <= |b| && forall i :: 0 <= i < n ==> a[i] == b[i]
    ensures a == b
    decreases |a| - n
  {
    if n == |a| {
      NothingMore(desc, candidates, limit, a, b);
    } else if n == |b| {
      NothingMore(desc, candidates, limit, b, a);
    } else {
      assert a[n] in candidates && b[n] in candidates;
      NextNotBefore(desc, candidates, limit, a, b, n);
      NextNotBefore(desc, candidates, limit, b, a, n);
      PagesAgree(desc, candidates, limit, a, b, n + 1);
    }
  }

  // At most one sequence answers the description.
  lemma PageUnique(desc: bool, candidates: set<Message>, limit: int, a: seq<Message>, b: seq<Message>)
    requires IsPage(desc, candidates, limit, a) && IsPage(desc, candidates, limit, b)
    ensures a == b
  {
    PagesAgree(desc, candidates, limit, a, b, 0);
  }

  function Candidates(rows: seq<Message>, p: Message -> bool): set<Message> {
    set r | r in rows && p(r)
  }

  lemma {:induction false} FilterSpec(rows: seq<Message>, p: Message -> bool)
    requires UniqueIds(rows)
    ensures forall r :: r in Filter(rows, p) <==> r in rows && p(r)
    ensures UniqueIds(Filter(rows, p))
  {
    if rows != [] {
      FilterSpec(rows[1..], p);
      var rest := Filter(rows[1..], p);
      assert rows == [rows[0]] + rows[1..];
      forall i | 0 <= i < |rest| ensures rest[i].id != rows[0].id {
        assert rest[i] in rows[1..];
      }
    }
  }

  lemma {:induction false} InsertSortedSpec(desc: bool, r: Message, rows: seq<Message>)
    requires Sorted(desc, rows) && forall i :: 0 <= i < |rows| ==> rows[i].id != r.id
    ensures Sorted(desc, InsertSorted(desc, r, rows))
    ensures forall x :: x in InsertSorted(desc, r, rows) <==> x == r || x in rows
  {
    if rows != [] && !Before(desc, KeyOf(r), KeyOf(rows[0])) {
      var rest := InsertSorted(desc, r, rows[1..]);
      InsertSortedSpec(desc, r, rows[1..]);
      assert rows == [rows[0]] + rows[1..];
      forall i | 0 <= i < |rest| ensures Before(desc, KeyOf(rows[0]), KeyOf(rest[i])) {
        assert rest[i] == r || rest[i] in rows[1..];
      }
    }
  }

  lemma {:induction false} OrderBySpec(desc: bool, rows: seq<Message>)
    requires UniqueIds(rows)
    ensures Sorted(desc, OrderBy(desc, rows))
    ensures forall r :: r in OrderBy(desc, rows) <==> r in rows
  {
    if rows != [] {
      OrderBySpec(desc, rows[1..]);
      assert rows == [rows[0]] + rows[1..];
      var rest := OrderBy(desc, rows[1..]);
      forall i | 0 <= i < |rest| ensures rest[i].id != rows[0].id {
        assert rest[i] in rows[1..];
      }
      InsertSortedSpec(desc, rows[0], rest);
    }
  }

  // A query answers with the page of its candidates.
  lemma QueryIsPage(rows: seq<Message>, p: Message -> bool, desc: bool, limit: int)
    requires UniqueIds(rows)
    ensures IsPage(desc, Candidates(rows, p), limit, Query(rows, p, desc, limit))
  {
    FilterSpec(rows, p);
    OrderBySpec(desc, Filter(rows, p));
    var all := OrderBy(desc, Filter(rows, p));
    var page := Query(rows, p, desc, limit);
    forall r, i | r in Candidates(rows, p) && r !in page && 0 <= i < |page|
      ensures Before(desc, KeyOf(page[i]), KeyOf(r))
    {
      assert r in all;
      var j :| 0 <= j < |all| && all[j] == r;
      assert j >= |page|;
    }
  }

  function Elements(rows: seq<Message>): set<Message> {
    set r | r in rows
  }

  lemma {:induction false} DistinctCount(rows: seq<Message>)
    requires forall i, j :: 0 <= i < j < |rows| ==> rows[i] != rows[j]
    ensures |Elements(rows)| == |rows|
  {
    if rows != [] {
      var init, last := rows[..|rows| - 1], rows[|rows| - 1];
      DistinctCount(init);
      assert Elements(rows) == Elements(init) + {last};
    }
  }

  lemma {:induction false} SubsetCount(a: set<Message>, b: set<Message>)
    requires a <= b
    ensures |a| <= |b| && (|a| == |b| ==> a == b)
  {
    assert b == a + (b - a);
    if b - a == {} { assert a == b; }
  }

  // A page is cut short exactly by its limit.
  lemma PageCount(desc: bool, candidates: set<Message>, limit: nat, page: seq<Message>)
    requires IsPage(desc, candidates, limit, page)
    ensures |page| == if |candidates| < limit then |candidates| else limit
    ensures (exists r :: r in candidates && r !in page) <==> |candidates| > limit
  {
    forall i, j | 0 <= i < j < |page| ensures page[i] != page[j] {
      assert Before(desc, KeyOf(page[i]), KeyOf(page[j]));
    }
    DistinctCount(page);
    assert Elements(page) <= candidates;
    SubsetCount(Elements(page), candidates);
    if forall r :: r in candidates ==> r in page {
      assert candidates == Elements(page);
    }
  }
}
