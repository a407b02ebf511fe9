/** Newest-first history: the repository's probe row, paging by message id, the in-place
    reversal, and what the service makes of them. */
module HistoryPaging {
  import opened Basics
  import opened Messages
  import opened MessageStore
  import opened Paging
  import opened UserPage

  // ----- paging by the id of the last row taken -----

  // Rows taken by following beforeMsgID, leaving out the probe row of each page, until a
  // page has no probe row.
  function PullBack(tables: seq<seq<Message>>, conv: string, before: string, limit: nat): seq<Message>
    requires limit >= 1
  {
    if tables == [] then []
    else
      var rows := GetMessagesByConversation(tables[0], conv, limit, before);
      if |rows| <= limit then rows
      else rows[..limit] + PullBack(tables[1..], conv, rows[limit - 1].msgID, limit)
  }

  predicate PullBackEnds(tables: seq<seq<Message>>, conv: string, before: string, limit: nat)
    requires limit >= 1
  {
    && tables != []
    && var rows := GetMessagesByConversation(tables[0], conv, limit, before);
       |rows| <= limit || PullBackEnds(tables[1..], conv, rows[limit - 1].msgID, limit)
  }

  lemma ByConversationIsPage(rows: seq<Message>, conv: string, limit: int, before: string)
    ensures GetMessagesByConversation(rows, conv, limit, before)
         == Page(true, rows, {conv}, BeforeCursor(rows, before), limit + 1)
  {
    var cursor := BeforeCursor(rows, before);
    FilterCongruent(rows,
                    (r: Message) => r.conversationID == conv && (cursor.Some? ==> KeyLess(KeyOf(r), cursor.value)),
                    InScope(true, {conv}, cursor));
  }

  ghost predicate UniqueMsgIDs(rows: seq<Message>) {
    && (forall i, j :: 0 <= i < j < |rows| ==> rows[i].msgID != rows[j].msgID)
    && (forall i :: 0 <= i < |rows| ==> rows[i].msgID != "")
  }

  ghost predicate MessageHistory(tables: seq<seq<Message>>) {
    History(tables) && forall i :: 0 <= i < |tables| ==> UniqueMsgIDs(tables[i])
  }

  lemma MessageHistoryTail(tables: seq<seq<Message>>)
    requires MessageHistory(tables) && tables != []
    ensures MessageHistory(tables[1..])
  {
    HistoryTail(tables);
    forall i | 0 <= i < |tables[1..]| ensures UniqueMsgIDs(tables[1..][i]) {
      assert UniqueMsgIDs(tables[i + 1]);
    }
  }

  // A row's message id leads back to its key in every later table.
  lemma CursorSurvives(tables: seq<seq<Message>>, r: Message)
    requires MessageHistory(tables) && |tables| > 1 && r in tables[0]
    ensures BeforeCursor(tables[1], r.msgID) == Some(KeyOf(r))
  {
    assert UniqueMsgIDs(tables[0]) && UniqueMsgIDs(tables[1]);
    var r' := RowSurvives(tables, r);
    assert Frozen(r').msgID == r'.msgID && Frozen(r).msgID == r.msgID;
    var found := GetMessageByMsgID(tables[1], r.msgID);
    var i :| 0 <= i < |tables[1]| && tables[1][i] == r';
    var j :| 0 <= j < |tables[1]| && tables[1][j] == found.value;
  }

  function Older(rows: seq<Message>, conv: string, cursor: Option<Key>): set<Message> {
    set r | r in rows && r.conversationID == conv && Follows(true, r, cursor)
  }

  // A page taken from the candidates, and whether a probe row said there are more.
  ghost predicate Taken(candidates: set<Message>, limit: nat, page: seq<Message>, more: bool) {
    && Sorted(true, page)
    && (forall r :: r in page ==> r in candidates)
    && (more ==> |page| == limit && limit >= 1)
    && (more <==> exists r :: r in candidates && r !in page)
    && (forall r :: r in candidates && r !in page && more ==> Follows(true, r, Last(page)))
  }

  // Cutting off the probe row.
  lemma CutProbe(candidates: set<Message>, limit: nat, all: seq<Message>)
    requires limit >= 1 && IsPage(true, candidates, limit + 1, all) && |all| > limit
    ensures Sorted(true, all[..limit])
    ensures forall r :: r in candidates && r !in all[..limit] ==> Before(true, KeyOf(all[limit - 1]), KeyOf(r))
    ensures all[limit] in candidates && all[limit] !in all[..limit]
  {
    var cut := all[..limit];
    forall r | r in candidates && r !in cut
      ensures Before(true, KeyOf(all[limit - 1]), KeyOf(r))
    {
      if r in all {
        var j :| 0 <= j < |all| && all[j] == r;
        assert j >= limit;
      }
    }
    forall i | 0 <= i < limit ensures cut[i] != all[limit] {
      assert Before(true, KeyOf(all[i]), KeyOf(all[limit]));
    }
  }

  lemma TakenFromPage(candidates: set<Message>, limit: nat, all: seq<Message>)
    requires limit >= 1 && IsPage(true, candidates, limit + 1, all)
    ensures Taken(candidates, limit, if |all| > limit then all[..limit] else all, |all| > limit)
  {
    if |all| > limit {
      CutProbe(candidates, limit, all);
    }
  }

  lemma HistoryIsPage(rows: seq<Message>, conv: string, limit: int, before: string)
    requires UniqueIds(rows)
    ensures IsPage(true, Older(rows, conv, BeforeCursor(rows, before)), limit + 1,
                   GetMessagesByConversation(rows, conv, limit, before))
  {
    var cursor := BeforeCursor(rows, before);
    ByConversationIsPage(rows, conv, limit, before);
    QueryIsPage(rows, InScope(true, {conv}, cursor), true, limit + 1);
    assert Candidates(rows, InScope(true, {conv}, cursor)) == Older(rows, conv, cursor);
  }

  // The probe row is there exactly when rows remain beyond the limit, and the rows that
  // remain all come after the ones taken.
  lemma ProbeExact(rows: seq<Message>, conv: string, before: string, limit: nat)
    requires UniqueIds(rows) && limit >= 1
    ensures var all := GetMessagesByConversation(rows, conv, limit, before);
            Taken(Older(rows, conv, BeforeCursor(rows, before)), limit,
                  if |all| > limit then all[..limit] else all, |all| > limit)
  {
    HistoryIsPage(rows, conv, limit, before);
    TakenFromPage(Older(rows, conv, BeforeCursor(rows, before)), limit,
                  GetMessagesByConversation(rows, conv, limit, before));
  }

  lemma {:induction false} PullBackSorted(tables: seq<seq<Message>>, conv: string, before: string,
                                          cursor: Option<Key>, limit: nat)
    requires MessageHistory(tables) && limit >= 1
    requires tables != [] ==> BeforeCursor(tables[0], before) == cursor
    ensures Sorted(true, PullBack(tables, conv, before, limit))
    ensures forall r :: r in PullBack(tables, conv, before, limit) ==> Follows(true, r, cursor)
    decreases tables
  {
    if tables != [] {
      ProbeExact(tables[0], conv, before, limit);
      var rows := GetMessagesByConversation(tables[0], conv, limit, before);
      if |rows| > limit {
        var page, last := rows[..limit], rows[limit - 1];
        assert last == page[|page| - 1] && last in page;
        MessageHistoryTail(tables);
        if |tables| > 1 { CursorSurvives(tables, last); }
        PullBackSorted(tables[1..], conv, last.msgID, Last(page), limit);
        SortedConcat(true, page, PullBack(tables[1..], conv, last.msgID, limit));
      }
    }
  }

  // A row that a page leaves out is still wanted, from the next cursor, in the next table.
  lemma LeftForNextPage(tables: seq<seq<Message>>, conv: string, before: string, limit: nat, r: Message)
    returns (r': Message)
    requires MessageHistory(tables) && |tables| > 1 && limit >= 1
    requires r in Older(tables[0], conv, BeforeCursor(tables[0], before))
    requires var rows := GetMessagesByConversation(tables[0], conv, limit, before);
             |rows| > limit && r !in rows[..limit]
    ensures var last := GetMessagesByConversation(tables[0], conv, limit, before)[limit - 1];
            r' in Older(tables[1], conv, BeforeCursor(tables[1], last.msgID))
    ensures Frozen(r') == Frozen(r)
  {
    ProbeExact(tables[0], conv, before, limit);
    var rows := GetMessagesByConversation(tables[0], conv, limit, before);
    var last := rows[limit - 1];
    assert last in rows[..limit];
    CursorSurvives(tables, last);
    r' := RowSurvives(tables, r);
  }

  lemma {:induction false} PullBackReturns(tables: seq<seq<Message>>, conv: string, before: string, limit: nat,
                                           r: Message)
    returns (i: nat)
    requires MessageHistory(tables) && limit >= 1 && PullBackEnds(tables, conv, before, limit)
    requires r in Older(tables[0], conv, BeforeCursor(tables[0], before))
    ensures ReturnedAt(PullBack(tables, conv, before, limit), r, i)
    decreases tables
  {
    ProbeExact(tables[0], conv, before, limit);
    var rows := GetMessagesByConversation(tables[0], conv, limit, before);
    if |rows| <= limit {
      i :| 0 <= i < |rows| && rows[i] == r;
    } else if r in rows[..limit] {
      i := ReturnedNow(rows[..limit], PullBack(tables[1..], conv, rows[limit - 1].msgID, limit), r);
    } else {
      MessageHistoryTail(tables);
      var r' := LeftForNextPage(tables, conv, before, limit, r);
      var k := PullBackReturns(tables[1..], conv, rows[limit - 1].msgID, limit, r');
      i := limit + k;
      ReturnedLater(rows[..limit], PullBack(tables[1..], conv, rows[limit - 1].msgID, limit), r, r', k);
    }
  }

  lemma ReturnedNow(page: seq<Message>, rest: seq<Message>, r: Message) returns (i: nat)
    requires r in page
    ensures ReturnedAt(page + rest, r, i)
  {
    i :| 0 <= i < |page| && page[i] == r;
    assert (page + rest)[i] == r;
  }

  lemma ReturnedLater(page: seq<Message>, rest: seq<Message>, r: Message, r': Message, k: nat)
    requires ReturnedAt(rest, r', k) && Frozen(r') == Frozen(r)
    ensures ReturnedAt(page + rest, r, |page| + k)
  {
    assert (page + rest)[|page| + k] == rest[k];
  }

  // The mirror statement: newest first, paging by message id is strictly decreasing, and
  // once a page has no probe row every row present at the start older than the given
  // message was taken exactly once, whatever changed in between.
  lemma PullBackComplete(tables: seq<seq<Message>>, conv: string, before: string, limit: nat)
    requires MessageHistory(tables) && tables != [] && limit >= 1
    ensures Sorted(true, PullBack(tables, conv, before, limit))
    ensures PullBackEnds(tables, conv, before, limit) ==>
              forall r :: (r in tables[0] && r.conversationID == conv
                           && Follows(true, r, BeforeCursor(tables[0], before))) ==>
                ReturnedOnce(PullBack(tables, conv, before, limit), r)
  {
    PullBackSorted(tables, conv, before, BeforeCursor(tables[0], before), limit);
    if PullBackEnds(tables, conv, before, limit) {
      forall r | r in tables[0] && r.conversationID == conv && Follows(true, r, BeforeCursor(tables[0], before))
        ensures ReturnedOnce(PullBack(tables, conv, before, limit), r)
      {
        assert r in Older(tables[0], conv, BeforeCursor(tables[0], before));
        var i := PullBackReturns(tables, conv, before, limit, r);
        SortedReturnsOnce(true, PullBack(tables, conv, before, limit), r, i);
      }
    }
  }

  // ----- GetHistory -----

  function Reversed(rows: seq<Message>): seq<Message> {
    if rows == [] then [] else Reversed(rows[1..]) + [rows[0]]
  }

  lemma {:induction false} ReversedAt(rows: seq<Message>, k: nat)
    requires k < |rows|
    ensures |Reversed(rows)| == |rows| && Reversed(rows)[|rows| - 1 - k] == rows[k]
  {
    if k > 0 {
      ReversedAt(rows[1..], k - 1);
    } else if |rows| > 1 {
      ReversedAt(rows[1..], 0);
    }
  }

  // The reversal turns newest-first into oldest-first, and nothing else does.
  lemma ReversedAscending(rows: seq<Message>)
    ensures Sorted(true, rows) <==> Sorted(false, Reversed(rows))
    ensures forall r :: r in Reversed(rows) <==> r in rows
  {
    var rev := Reversed(rows);
    forall k: nat | k < |rows| ensures |rev| == |rows| && rev[|rows| - 1 - k] == rows[k] {
      ReversedAt(rows, k);
    }
    var n := |rows|;
    assert |rev| == n;
    forall i | 0 <= i < n ensures rev[i] == rows[n - 1 - i] {
      ReversedAt(rows, n - 1 - i);
    }
    if Sorted(true, rows) {
      forall i, j | 0 <= i < j < |rev| ensures Before(false, KeyOf(rev[i]), KeyOf(rev[j])) {
        assert Before(true, KeyOf(rows[n - 1 - j]), KeyOf(rows[n - 1 - i]));
      }
    }
    if Sorted(false, rev) {
      forall i, j | 0 <= i < j < n ensures Before(true, KeyOf(rows[i]), KeyOf(rows[j])) {
        assert Before(false, KeyOf(rev[n - 1 - j]), KeyOf(rev[n - 1 - i]));
      }
    }
  }

  lemma ReversedCount(found: seq<Message>)
    ensures |Reversed(found)| == |found|
  {
    if found != [] { ReversedAt(found, 0); }
  }

  lemma {:induction false} ReversedIs(rows: seq<Message>, rev: seq<Message>)
    requires |rev| == |rows| && forall k :: 0 <= k < |rows| ==> rev[k] == rows[|rows| - 1 - k]
    ensures rev == Reversed(rows)
  {
    if rows != [] {
      var init := rev[..|rev| - 1];
      ReversedIs(rows[1..], init);
      assert rev == init + [rows[0]];
    }
  }

  // The first and the last i rows have changed places.
  ghost predicate Swapped(was: seq<Message>, rows: seq<Message>, i: nat) {
    && |rows| == |was|
    && forall k :: 0 <= k < |was| ==> rows[k] == was[if k < i || k > |was| - 1 - i then |was| - 1 - k else k]
  }

  lemma SwapOneMore(was: seq<Message>, rows: seq<Message>, i: nat)
    requires Swapped(was, rows, i) && i < |was| - 1 - i
    ensures Swapped(was, rows[i := rows[|was| - 1 - i]][|was| - 1 - i := rows[i]], i + 1)
  {
  }

  lemma SwappedThrough(was: seq<Message>, rows: seq<Message>, i: nat, k: nat)
    requires Swapped(was, rows, i) && 2 * i >= |was| - 1 && k < |was|
    ensures rows[k] == was[|was| - 1 - k]
  {
  }

  // Swap from both ends towards the middle.
  method ReverseInPlace(messages: array<Message>)
    modifies messages
    ensures messages[..] == Reversed(old(messages[..]))
  {
    ghost var was := messages[..];
    var i, j := 0, messages.Length - 1;
    while i < j
      invariant 0 <= i && j == messages.Length - 1 - i
      invariant Swapped(was, messages[..], i)
    {
      ghost var before := messages[..];
      SwapOneMore(was, before, i);
      messages[i], messages[j] := messages[j], messages[i];
      assert messages[..] == before[i := before[j]][j := before[i]];
      i, j := i + 1, j - 1;
    }
    forall k | 0 <= k < |was| ensures messages[..][k] == was[|was| - 1 - k] {
      SwappedThrough(was, messages[..], i, k);
    }
    ReversedIs(was, messages[..]);
  }

  // Decimal digits, as "%d" prints them.
  function Digits(n: nat): string {
    (if n < 10 then "" else Digits(n / 10)) + ["0123456789"[n % 10]]
  }

  function Decimal(n: int): string {
    if n < 0 then "-" + Digits(-n) else Digits(n)
  }

  datatype HistoryResponse = HistoryResponse(messages: seq<Message>, hasMore: bool, nextCursor: string)

  // The response for what the repository returned.
  function HistoryOf(found: seq<Message>, limit: nat): HistoryResponse {
    var rev := Reversed(found);
    var hasMore := |rev| > limit;
    var kept := if hasMore then rev[..limit] else rev;
    HistoryResponse(kept, hasMore, if hasMore && kept != [] then Decimal(kept[|kept| - 1].serverTS) else "")
  }

  // None stands for an error: a query fails, or the user is outside the conversation.
  method GetHistory(rows: seq<Message>, members: seq<Member>, userID: string, conv: string, limit: nat, before: string,
                    memberQueryFails: bool, lookupFails: bool, messageQueryFails: bool)
    returns (r: Option<HistoryResponse>)
    ensures r.Some? <==> !memberQueryFails && Member(conv, userID) in members && !messageQueryFails
    ensures r.Some? ==> r.value == HistoryOf(HistoryRows(rows, conv, limit, before, lookupFails), limit)
  {
    if memberQueryFails || Member(conv, userID) !in members { return None; }
    if messageQueryFails { return None; }
    var found := HistoryRows(rows, conv, limit, before, lookupFails);
    var messages := new Message[|found|](i requires 0 <= i < |found| => found[i]);
    assert messages[..] == found;
    ReverseInPlace(messages);
    var kept := messages[..];
    var hasMore := |kept| > limit;
    if hasMore {
      kept := kept[..limit];
    }
    var next := "";
    if |kept| > 0 && hasMore {
      next := Decimal(kept[|kept| - 1].serverTS);
    }
    return Some(HistoryResponse(kept, hasMore, next));
  }

  lemma {:induction false} ReversedTail(found: seq<Message>)
    requires found != []
    ensures |Reversed(found)| == |found| && Reversed(found)[..|found| - 1] == Reversed(found[1..])
  {
    ReversedAt(found, 0);
    if |found| > 1 { ReversedAt(found[1..], 0); }
  }

  lemma NewestIsFirst(found: seq<Message>)
    requires Sorted(true, found) && found != []
    ensures found[0] !in found[1..]
  {
    forall j | 0 <= j < |found[1..]| ensures found[1..][j] != found[0] {
      assert Before(true, KeyOf(found[0]), KeyOf(found[j + 1]));
    }
  }

  // The response is in ascending order, but the cut after the reversal keeps the probe
  // row and drops the newest: the newest matching row is missing exactly when more rows
  // match than the limit.
  lemma HistoryDropsNewest(rows: seq<Message>, conv: string, limit: nat, before: string)
    requires UniqueIds(rows) && limit >= 1
    ensures var found := GetMessagesByConversation(rows, conv, limit, before);
            var matching := Older(rows, conv, BeforeCursor(rows, before));
            var r := HistoryOf(found, limit);
            && Sorted(false, r.messages)
            && (r.hasMore <==> |matching| > limit)
            && r.messages == (if r.hasMore then Reversed(found[1..]) else Reversed(found))
            && (found == [] <==> matching == {})
            && (found != [] ==>
                  && (forall x :: x in matching && x != found[0] ==> KeyLess(KeyOf(x), KeyOf(found[0])))
                  && (found[0] !in r.messages <==> |matching| > limit))
  {
    var found := GetMessagesByConversation(rows, conv, limit, before);
    var matching := Older(rows, conv, BeforeCursor(rows, before));
    HistoryIsPage(rows, conv, limit, before);
    PageCount(true, matching, limit + 1, found);
    CutReversal(found, limit);
    if found != [] { FirstIsNewest(matching, limit + 1, found); }
  }

  lemma CutReversal(found: seq<Message>, limit: nat)
    requires Sorted(true, found) && |found| <= limit + 1
    ensures var r := HistoryOf(found, limit);
            && Sorted(false, r.messages)
            && (r.hasMore <==> |found| == limit + 1)
            && r.messages == (if r.hasMore then Reversed(found[1..]) else Reversed(found))
            && (found != [] ==> (found[0] in r.messages <==> !r.hasMore))
  {
    ReversedAscending(found);
    if found != [] {
      ReversedTail(found);
      ReversedAscending(found[1..]);
      NewestIsFirst(found);
    } else {
      assert |Reversed(found)| == 0;
    }
  }

  lemma FirstIsNewest(candidates: set<Message>, limit: int, page: seq<Message>)
    requires IsPage(true, candidates, limit, page) && page != []
    ensures forall x :: x in candidates && x != page[0] ==> KeyLess(KeyOf(x), KeyOf(page[0]))
  {
    forall x | x in candidates && x != page[0] ensures KeyLess(KeyOf(x), KeyOf(page[0])) {
      if x in page {
        var i :| 0 <= i < |page| && page[i] == x;
        assert Before(true, KeyOf(page[0]), KeyOf(page[i]));
      }
    }
  }

  // ----- the cursor the response offers -----

  // The cursor is no message's id, or that of one newer than the whole conversation.
  ghost predicate CutsNothing(rows: seq<Message>, conv: string, before: string) {
    var cursor := BeforeCursor(rows, before);
    cursor.Some? ==> forall r :: r in rows && r.conversationID == conv ==> KeyLess(KeyOf(r), cursor.value)
  }

  // A cursor that cuts something leaves the newest row out.
  lemma CutMissesNewest(rows: seq<Message>, conv: string, limit: nat, before: string)
    requires UniqueIds(rows) && !CutsNothing(rows, conv, before)
    ensures GetMessagesByConversation(rows, conv, limit, before) != GetMessagesByConversation(rows, conv, limit, "")
  {
    var first := GetMessagesByConversation(rows, conv, limit, "");
    var some, all := Older(rows, conv, BeforeCursor(rows, before)), Older(rows, conv, None);
    HistoryIsPage(rows, conv, limit, before);
    HistoryIsPage(rows, conv, limit, "");
    var r :| r in rows && r.conversationID == conv && !KeyLess(KeyOf(r), BeforeCursor(rows, before).value);
    assert r in all && first != [];
    FirstIsNewest(all, limit + 1, first);
    assert first[0] !in some;
  }

  // Paging starts again from the newest row exactly when the cursor cuts nothing or its
  // lookup fails.
  lemma StartsOverIff(rows: seq<Message>, conv: string, limit: nat, before: string, lookupFails: bool)
    requires UniqueIds(rows)
    ensures HistoryRows(rows, conv, limit, before, lookupFails) == HistoryRows(rows, conv, limit, "", false)
       <==> lookupFails || CutsNothing(rows, conv, before)
  {
    if CutsNothing(rows, conv, before) {
      HistoryIsPage(rows, conv, limit, before);
      HistoryIsPage(rows, conv, limit, "");
      assert Older(rows, conv, BeforeCursor(rows, before)) == Older(rows, conv, None);
      PageUnique(true, Older(rows, conv, None), limit + 1, GetMessagesByConversation(rows, conv, limit, before),
                 GetMessagesByConversation(rows, conv, limit, ""));
    } else {
      CutMissesNewest(rows, conv, limit, before);
    }
  }

  lemma {:induction false} DigitsPrinted(n: nat)
    ensures Digits(n) != "" && forall i :: 0 <= i < |Digits(n)| ==> Digits(n)[i] in "0123456789"
  {
    if n >= 10 { DigitsPrinted(n / 10); }
  }

  // The number that a string of digits stands for.
  function Value(digits: string): int {
    if digits == "" then 0
    else 10 * Value(digits[..|digits| - 1]) + (digits[|digits| - 1] as int - '0' as int)
  }

  lemma {:induction false} DigitsRead(n: nat)
    ensures Value(Digits(n)) == n && Digits(n) != "" && Digits(n)[0] != '-'
    ensures n > 0 ==> Digits(n)[0] != '0'
  {
    var last := ["0123456789"[n % 10]];
    assert last[0] as int - '0' as int == n % 10;
    if n >= 10 {
      DigitsRead(n / 10);
      assert Digits(n)[..|Digits(n)| - 1] == Digits(n / 10);
    } else {
      assert Digits(n) == last && Value(last[..0]) == 0;
    }
  }

  // The string stands for the number, with a sign only if it is negative.
  predicate Reads(s: string, n: int) {
    && s != ""
    && (n >= 0 ==> s[0] != '-' && Value(s) == n)
    && (n < 0 ==> s[0] == '-' && Value(s[1..]) == -n)
  }

  lemma DecimalReads(n: int)
    ensures Reads(Decimal(n), n)
  {
    DigitsRead(if n < 0 then -n else n);
    if n < 0 { assert Decimal(n)[1..] == Digits(-n); }
  }

  lemma OfferedCursor(found: seq<Message>, limit: nat)
    requires limit >= 1
    ensures var r := HistoryOf(found, limit);
            && (r.hasMore <==> |found| > limit)
            && (!r.hasMore ==> r.nextCursor == "")
            && (r.hasMore ==>
                  r.messages != [] && r.nextCursor == Decimal(r.messages[|r.messages| - 1].serverTS))
  {
    ReversedCount(found);
  }

  // More is reported exactly when more rows were found than the limit; the cursor then
  // offered reads back as the time of the newest message returned, and it is empty otherwise.
  lemma OfferedCursorIsTime(found: seq<Message>, limit: nat, r: HistoryResponse)
    requires limit >= 1 && r == HistoryOf(found, limit)
    ensures r.hasMore <==> |found| > limit
    ensures if r.hasMore then r.messages != [] && Reads(r.nextCursor, r.messages[|r.messages| - 1].serverTS)
            else r.nextCursor == ""
  {
    OfferedCursor(found, limit);
    if r.hasMore { DecimalReads(r.messages[|r.messages| - 1].serverTS); }
  }

  // Senders name messages by UUIDs, written with a hyphen after eight digits.
  predicate IsUUID(id: string) {
    |id| == 36 && id[8] == '-'
  }

  lemma DecimalIsNoUUID(n: int)
    ensures Decimal(n) != "" && !IsUUID(Decimal(n))
  {
    DigitsPrinted(if n < 0 then -n else n);
    if |Decimal(n)| == 36 { assert Decimal(n)[8] in "0123456789"; }
  }

  // The offered cursor is a printed timestamp, so among messages named by senders it names
  // none: a client that follows it gets the first page again, whatever it asked for.
  lemma OfferedCursorStartsOver(rows: seq<Message>, conv: string, limit: nat, before: string)
    requires UniqueIds(rows) && forall r :: r in rows ==> IsUUID(r.msgID)
    ensures var next := HistoryOf(GetMessagesByConversation(rows, conv, limit, before), limit).nextCursor;
            GetMessagesByConversation(rows, conv, limit, next) == GetMessagesByConversation(rows, conv, limit, "")
  {
    var r := HistoryOf(GetMessagesByConversation(rows, conv, limit, before), limit);
    if r.nextCursor != "" {
      DecimalIsNoUUID(r.messages[|r.messages| - 1].serverTS);
      assert forall x :: x in rows ==> x.msgID != r.nextCursor;
    }
    StartsOverIff(rows, conv, limit, r.nextCursor, false);
  }

  // ----- PullOfflineMessagesV2 -----

  datatype PullResponse = PullResponse(messages: seq<Message>, hasMore: bool, nextCursor: Option<Key>)

  // What the service asks the repository for.
  function Pulled(rows: seq<Message>, members: seq<Member>, userID: string, cursor: Option<Key>, limit: nat,
                  conv: string): seq<Message> {
    var ts := if cursor.Some? then cursor.value.ts else 0;   // an undecodable cursor counts as none
    var id := if cursor.Some? then cursor.value.id else 0;
    if conv != "" then GetMessagesByCursor(rows, conv, ts, id, limit)
    else GetMessagesWithCursor(rows, members, userID, ts, id, limit)
  }

  function PullOffline(rows: seq<Message>, members: seq<Member>, userID: string, cursor: Option<Key>, limit: nat,
                       conv: string): PullResponse {
    var found := Pulled(rows, members, userID, cursor, limit, conv);
    var hasMore := |found| > limit;
    var kept := if hasMore then found[..limit] else found;
    PullResponse(kept, hasMore, if hasMore && kept != [] then Last(kept) else None)
  }

  predicate PullWants(members: seq<Member>, userID: string, cursor: Option<Key>, conv: string, r: Message) {
    var ts := if cursor.Some? then cursor.value.ts else 0;
    var id := if cursor.Some? then cursor.value.id else 0;
    if conv != "" then r.conversationID == conv && (ts > 0 ==> r.serverTS > ts || (r.serverTS == ts && r.id > id))
    else Member(r.conversationID, userID) in members && (r.serverTS > ts || (r.serverTS == ts && r.id > id))
  }

  function PullWanted(rows: seq<Message>, members: seq<Member>, userID: string, cursor: Option<Key>,
                      conv: string): set<Message> {
    set r | r in rows && PullWants(members, userID, cursor, conv, r)
  }

  lemma PulledIsPage(rows: seq<Message>, members: seq<Member>, userID: string, cursor: Option<Key>, limit: nat,
                     conv: string)
    requires UniqueIds(rows)
    ensures IsPage(false, PullWanted(rows, members, userID, cursor, conv), limit,
                   Pulled(rows, members, userID, cursor, limit, conv))
  {
    var ts := if cursor.Some? then cursor.value.ts else 0;
    var id := if cursor.Some? then cursor.value.id else 0;
    var wanted := PullWanted(rows, members, userID, cursor, conv);
    if conv != "" {
      ByCursorIsPage(rows, conv, ts, id, limit);
      QueryIsPage(rows, InScope(false, {conv}, CursorOf(ts, id)), false, limit);
      assert Candidates(rows, InScope(false, {conv}, CursorOf(ts, id))) == wanted;
    } else {
      UserPageIsPage(rows, members, userID, ts, id, limit);
      assert OwnRows(rows, members, userID, ts, id) == wanted;
    }
  }

  // The service asks the repository for at most limit rows, so it never sees more: it
  // never reports more and never offers a next cursor. That is wrong, wanted rows being
  // left out, exactly when more rows are wanted than the limit.
  lemma PullNeverHasMore(rows: seq<Message>, members: seq<Member>, userID: string, cursor: Option<Key>, limit: nat,
                         conv: string)
    requires UniqueIds(rows)
    ensures var r := PullOffline(rows, members, userID, cursor, limit, conv);
            var wanted := PullWanted(rows, members, userID, cursor, conv);
            && !r.hasMore && r.nextCursor == None
            && IsPage(false, wanted, limit, r.messages)
            && ((exists m :: m in wanted && m !in r.messages) <==> |wanted| > limit)
  {
    var wanted := PullWanted(rows, members, userID, cursor, conv);
    PulledIsPage(rows, members, userID, cursor, limit, conv);
    PageCount(false, wanted, limit, PullOffline(rows, members, userID, cursor, limit, conv).messages);
  }
}
