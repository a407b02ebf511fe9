/** The page over all conversations against its simple form: merge the pages of the single
    conversations and cut. */
module UserPage {
  import opened Basics
  import opened Messages
  import opened MessageStore
  import opened Paging

  // The ordered merge of two pages; a row on both is kept once.
  function Merge(a: seq<Message>, b: seq<Message>): seq<Message>
    decreases |a| + |b|
  {
    if a == [] then b
    else if b == [] then a
    else if a[0] == b[0] then [a[0]] + Merge(a[1..], b[1..])
    else if KeyLess(KeyOf(a[0]), KeyOf(b[0])) then [a[0]] + Merge(a[1..], b)
    else [b[0]] + Merge(a, b[1..])
  }

  // The pages of the listed conversations, merged.
  function MergedPages(rows: seq<Message>, convs: seq<string>, ts: int, id: nat, limit: int): seq<Message> {
    if convs == [] then []
    else Merge(GetMessagesByCursor(rows, convs[0], ts, id, limit), MergedPages(rows, convs[1..], ts, id, limit))
  }

  // Rows of a table: a key belongs to one row.
  ghost predicate FromTable(rows: seq<Message>, page: seq<Message>) {
    forall r :: r in page ==> r in rows
  }

  lemma SameKeySameRow(rows: seq<Message>, a: Message, b: Message)
    requires UniqueIds(rows) && a in rows && b in rows && a.id == b.id
    ensures a == b
  {
    var i :| 0 <= i < |rows| && rows[i] == a;
    var j :| 0 <= j < |rows| && rows[j] == b;
  }

  lemma ConsSorted(r: Message, rest: seq<Message>)
    requires Sorted(false, rest) && forall x :: x in rest ==> KeyLess(KeyOf(r), KeyOf(x))
    ensures Sorted(false, [r] + rest)
  {
    var all := [r] + rest;
    forall i, j | 0 <= i < j < |all| ensures Before(false, KeyOf(all[i]), KeyOf(all[j])) {
      assert all[j] in rest;
    }
  }

  lemma {:induction false} MergeSpec(rows: seq<Message>, a: seq<Message>, b: seq<Message>)
    requires UniqueIds(rows) && FromTable(rows, a) && FromTable(rows, b)
    requires Sorted(false, a) && Sorted(false, b)
    ensures Sorted(false, Merge(a, b))
    ensures forall r :: r in Merge(a, b) <==> r in a || r in b
    decreases |a| + |b|
  {
    if a != [] && b != [] {
      assert a == [a[0]] + a[1..] && b == [b[0]] + b[1..];
      assert a[0] in rows && b[0] in rows;
      if a[0].id == b[0].id { SameKeySameRow(rows, a[0], b[0]); }
      if a[0] == b[0] {
        MergeSpec(rows, a[1..], b[1..]);
        ConsSorted(a[0], Merge(a[1..], b[1..]));
      } else if KeyLess(KeyOf(a[0]), KeyOf(b[0])) {
        MergeSpec(rows, a[1..], b);
        ConsSorted(a[0], Merge(a[1..], b));
      } else {
        MergeSpec(rows, a, b[1..]);
        ConsSorted(b[0], Merge(a, b[1..]));
      }
    }
  }

  // ----- what the merged pages contain -----

  predicate Wanted(convs: seq<string>, r: Message, ts: int, id: nat) {
    r.conversationID in convs && (ts > 0 ==> PastCursor(r, ts, id))
  }

  function WantedRows(rows: seq<Message>, convs: seq<string>, ts: int, id: nat): set<Message> {
    set r | r in rows && Wanted(convs, r, ts, id)
  }

  // The first rows of all that is wanted: with a limit, rows beyond a full page may be
  // missing, and each comes after at least limit rows that are there.
  ghost predicate Covers(all: set<Message>, limit: int, page: seq<Message>) {
    && Sorted(false, page)
    && (forall r :: r in page ==> r in all)
    && forall r :: r in all && r !in page ==>
         0 <= limit <= |page| && forall i :: 0 <= i < limit ==> KeyLess(KeyOf(page[i]), KeyOf(r))
  }

  // Elements below a bound stay below it when more elements are merged in.
  lemma {:induction false} MergePushes(a: seq<Message>, b: seq<Message>, n: nat, r: Message)
    requires Sorted(false, Merge(a, b))
    requires n <= |a| && forall i :: 0 <= i < n ==> KeyLess(KeyOf(a[i]), KeyOf(r))
    ensures n <= |Merge(a, b)| && forall i :: 0 <= i < n ==> KeyLess(KeyOf(Merge(a, b)[i]), KeyOf(r))
    decreases |a| + |b|
  {
    if a != [] && b != [] && n > 0 {
      var m := Merge(a, b);
      assert m == [m[0]] + m[1..];
      assert Sorted(false, m[1..]);
      if a[0] == b[0] {
        MergePushes(a[1..], b[1..], n - 1, r);
      } else if KeyLess(KeyOf(a[0]), KeyOf(b[0])) {
        MergePushes(a[1..], b, n - 1, r);
      } else {
        MergePushes(a, b[1..], n, r);
        assert forall i :: 0 <= i < n ==> m[i + 1] == m[1..][i];
      }
    }
  }

  lemma {:induction false} MergeCommutes(rows: seq<Message>, a: seq<Message>, b: seq<Message>)
    requires UniqueIds(rows) && FromTable(rows, a) && FromTable(rows, b)
    ensures Merge(a, b) == Merge(b, a)
    decreases |a| + |b|
  {
    if a != [] && b != [] {
      assert a[0] in rows && b[0] in rows;
      if a[0].id == b[0].id { SameKeySameRow(rows, a[0], b[0]); }
      if a[0] == b[0] {
        MergeCommutes(rows, a[1..], b[1..]);
      } else if KeyLess(KeyOf(a[0]), KeyOf(b[0])) {
        MergeCommutes(rows, a[1..], b);
      } else {
        MergeCommutes(rows, a, b[1..]);
      }
    }
  }

  lemma PageCovers(rows: seq<Message>, conv: string, ts: int, id: nat, limit: int)
    requires UniqueIds(rows)
    ensures Covers(WantedRows(rows, [conv], ts, id), limit, GetMessagesByCursor(rows, conv, ts, id, limit))
  {
    var p := (r: Message) => r.conversationID == conv && (ts > 0 ==> PastCursor(r, ts, id));
    QueryIsPage(rows, p, false, limit);
    assert forall r :: r in WantedRows(rows, [conv], ts, id) <==> r in Candidates(rows, p);
  }

  lemma MergeCovers(rows: seq<Message>, x: set<Message>, y: set<Message>, limit: int, a: seq<Message>, b: seq<Message>)
    requires UniqueIds(rows) && FromTable(rows, a) && FromTable(rows, b)
    requires Covers(x, limit, a) && Covers(y, limit, b)
    ensures Covers(x + y, limit, Merge(a, b))
  {
    MergeSpec(rows, a, b);
    forall r | r in x + y && r !in Merge(a, b)
      ensures 0 <= limit <= |Merge(a, b)| && forall i :: 0 <= i < limit ==> KeyLess(KeyOf(Merge(a, b)[i]), KeyOf(r))
    {
      if r in x {
        MergePushes(a, b, limit, r);
      } else {
        MergeCommutes(rows, a, b);
        MergePushes(b, a, limit, r);
      }
    }
  }

  lemma {:induction false} MergedPagesCover(rows: seq<Message>, convs: seq<string>, ts: int, id: nat, limit: int)
    requires UniqueIds(rows)
    ensures Covers(WantedRows(rows, convs, ts, id), limit, MergedPages(rows, convs, ts, id, limit))
  {
    if convs != [] {
      MergedPagesCover(rows, convs[1..], ts, id, limit);
      PageCovers(rows, convs[0], ts, id, limit);
      assert convs == [convs[0]] + convs[1..];
      assert WantedRows(rows, convs, ts, id)
          == WantedRows(rows, [convs[0]], ts, id) + WantedRows(rows, convs[1..], ts, id);
      MergeCovers(rows, WantedRows(rows, [convs[0]], ts, id), WantedRows(rows, convs[1..], ts, id), limit,
                  GetMessagesByCursor(rows, convs[0], ts, id, limit), MergedPages(rows, convs[1..], ts, id, limit));
    }
  }

  lemma CutIsPage(all: set<Message>, limit: int, page: seq<Message>)
    requires Covers(all, limit, page)
    ensures IsPage(false, all, limit, Limit(page, limit))
  {
    var cut := Limit(page, limit);
    forall r, i | r in all && r !in cut && 0 <= i < |cut|
      ensures Before(false, KeyOf(cut[i]), KeyOf(r))
    {
      if r in page {
        var j :| 0 <= j < |page| && page[j] == r;
        assert j >= |cut|;
      }
    }
  }

  // The cursor filters for both forms: it is past the start, or nothing lies before it.
  ghost predicate CursorFilters(rows: seq<Message>, convs: seq<string>, ts: int, id: nat) {
    ts > 0 || forall r :: r in rows && r.conversationID in convs ==> PastCursor(r, ts, id)
  }

  ghost predicate Lists(convs: seq<string>, members: seq<Member>, userID: string) {
    forall c :: c in convs <==> Member(c, userID) in members
  }

  // The rows past the cursor in the conversations the user is a member of.
  function OwnRows(rows: seq<Message>, members: seq<Member>, userID: string, ts: int, id: nat): set<Message> {
    set r | && r in rows && Member(r.conversationID, userID) in members
            && (r.serverTS > ts || (r.serverTS == ts && r.id > id))
  }

  // The page holds the first limit of those, in order, and no row of a conversation the
  // user is not in.
  lemma UserPageIsPage(rows: seq<Message>, members: seq<Member>, userID: string, ts: int, id: nat, limit: int)
    requires UniqueIds(rows)
    ensures IsPage(false, OwnRows(rows, members, userID, ts, id), limit,
                   GetMessagesWithCursor(rows, members, userID, ts, id, limit))
    ensures forall r :: r in GetMessagesWithCursor(rows, members, userID, ts, id, limit) ==>
              Member(r.conversationID, userID) in members
  {
    var scope := ConversationsOf(members, userID);
    OnlyOwnConversations(members, userID);
    WithCursorIsPage(rows, members, userID, ts, id, limit);
    QueryIsPage(rows, InScope(false, scope, Some(Key(ts, id))), false, limit);
    assert Candidates(rows, InScope(false, scope, Some(Key(ts, id)))) == OwnRows(rows, members, userID, ts, id);
  }

  // One page over all conversations is the first limit rows of the merged pages of that
  // size of the single conversations, in whichever order those are listed.
  lemma UserPageIsMerge(rows: seq<Message>, convs: seq<string>, members: seq<Member>, userID: string, ts: int,
                        id: nat, limit: int)
    requires UniqueIds(rows) && Lists(convs, members, userID) && CursorFilters(rows, convs, ts, id)
    ensures GetMessagesWithCursor(rows, members, userID, ts, id, limit)
         == Limit(MergedPages(rows, convs, ts, id, limit), limit)
  {
    var all := WantedRows(rows, convs, ts, id);
    MergedPagesCover(rows, convs, ts, id, limit);
    CutIsPage(all, limit, MergedPages(rows, convs, ts, id, limit));
    UserPageIsPage(rows, members, userID, ts, id, limit);
    assert all == OwnRows(rows, members, userID, ts, id);
    PageUnique(false, all, limit, GetMessagesWithCursor(rows, members, userID, ts, id, limit),
               Limit(MergedPages(rows, convs, ts, id, limit), limit));
  }

  // The two forms agree for every limit exactly when the cursor filters for both.
  lemma UserPageIsMergeIff(rows: seq<Message>, convs: seq<string>, members: seq<Member>, userID: string, ts: int,
                           id: nat)
    requires UniqueIds(rows) && Lists(convs, members, userID)
    ensures (forall limit: int :: GetMessagesWithCursor(rows, members, userID, ts, id, limit)
                               == Limit(MergedPages(rows, convs, ts, id, limit), limit))
       <==> CursorFilters(rows, convs, ts, id)
  {
    if CursorFilters(rows, convs, ts, id) {
      forall limit: int
        ensures GetMessagesWithCursor(rows, members, userID, ts, id, limit)
             == Limit(MergedPages(rows, convs, ts, id, limit), limit)
      {
        UserPageIsMerge(rows, convs, members, userID, ts, id, limit);
      }
    } else {
      var r :| r in rows && r.conversationID in convs && !PastCursor(r, ts, id);
      MergedPagesCover(rows, convs, ts, id, -1);
      assert r in WantedRows(rows, convs, ts, id);
      assert r in Limit(MergedPages(rows, convs, ts, id, -1), -1);
      UserPageIsPage(rows, members, userID, ts, id, -1);
      assert r !in GetMessagesWithCursor(rows, members, userID, ts, id, -1);
    }
  }
}
