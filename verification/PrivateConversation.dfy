/** Private conversation ids, and the conversations created under them. */
module PrivateConversation {
  import opened Basics
  import opened MessageStore

  // The order of strings: by the first differing character, a prefix first.
  predicate LexLess(a: string, b: string) {
    if b == "" then false
    else if a == "" then true
    else if a[0] != b[0] then a[0] < b[0]
    else LexLess(a[1..], b[1..])
  }

  // The strings agree up to some place, where a ends or has the smaller character.
  ghost predicate LessAt(a: string, b: string, i: nat) {
    && i <= |a| && i < |b| && (forall j :: 0 <= j < i ==> a[j] == b[j])
    && (i == |a| || a[i] < b[i])
  }

  lemma {:induction false} LexLessIff(a: string, b: string)
    ensures LexLess(a, b) <==> exists i: nat :: LessAt(a, b, i)
  {
    if a == "" && b != "" {
      assert LessAt(a, b, 0);
    } else if a != "" && b != "" {
      LexLessIff(a[1..], b[1..]);
      LessAtTail(a, b);
    }
  }

  lemma LessAtTail(a: string, b: string)
    requires a != "" && b != ""
    ensures (exists i: nat :: LessAt(a, b, i))
       <==> a[0] < b[0] || (a[0] == b[0] && exists i: nat :: LessAt(a[1..], b[1..], i))
  {
    if i: nat :| LessAt(a, b, i) {
      if i > 0 { assert LessAt(a[1..], b[1..], i - 1); }
    }
    if a[0] < b[0] { assert LessAt(a, b, 0); }
    if a[0] == b[0] {
      if i: nat :| LessAt(a[1..], b[1..], i) {
        forall j | 0 <= j < i + 1 ensures a[j] == b[j] {
          if j > 0 { assert a[1..][j - 1] == b[1..][j - 1]; }
        }
        assert LessAt(a, b, i + 1);
      }
    }
  }

  lemma {:induction false} LexTotal(a: string, b: string)
    ensures LexLess(a, b) <==> a != b && !LexLess(b, a)
  {
    if a != "" && b != "" {
      assert a == [a[0]] + a[1..] && b == [b[0]] + b[1..];
      if a[0] == b[0] { LexTotal(a[1..], b[1..]); }
    }
  }

  function PrivateConversationID(userID1: string, userID2: string): string {
    if LexLess(userID1, userID2) then "private:" + userID1 + ":" + userID2
    else "private:" + userID2 + ":" + userID1
  }

  // The id names both users, the smaller one first, whichever way they are given.
  lemma IDNamesBoth(a: string, b: string, i: nat)
    requires a == b || LessAt(a, b, i)
    ensures PrivateConversationID(a, b) == PrivateConversationID(b, a) == "private:" + a + ":" + b
  {
    LexLessIff(a, b);
    LexTotal(a, b);
  }

  predicate SamePair(a: string, b: string, c: string, d: string) {
    (a == c && b == d) || (a == d && b == c)
  }

  lemma IDIsSymmetric(a: string, b: string)
    ensures PrivateConversationID(a, b) == PrivateConversationID(b, a)
  {
    LexTotal(a, b);
  }

  // The separator splits a joined pair in one way only.
  lemma SplitUnique(a: string, b: string, c: string, d: string)
    requires ':' !in a && ':' !in c
    requires a + ":" + b == c + ":" + d
    ensures a == c && b == d
  {
    var s, t := a + ":" + b, c + ":" + d;
    assert s[|a|] == ':' && t[|c|] == ':';
    assert |a| == |c|;
    assert a == s[..|a|] && c == t[..|a|];
    assert b == s[|a| + 1..] && d == t[|a| + 1..];
  }

  lemma DropPrefix(p: string, s: string, t: string)
    requires p + s == p + t
    ensures s == t
  {
    assert s == (p + s)[|p|..] && t == (p + t)[|p|..];
  }

  function Joined(a: string, b: string): string {
    a + ":" + b
  }

  lemma IDIsJoined(a: string, b: string)
    ensures PrivateConversationID(a, b) == "private:" + if LexLess(a, b) then Joined(a, b) else Joined(b, a)
  {}

  // For user ids without the separator, two pairs get the same id exactly when they are
  // the same pair.
  lemma IDIsCanonical(a: string, b: string, c: string, d: string)
    requires ':' !in a && ':' !in b && ':' !in c && ':' !in d
    ensures PrivateConversationID(a, b) == PrivateConversationID(c, d) <==> SamePair(a, b, c, d)
  {
    IDIsSymmetric(a, b);
    if PrivateConversationID(a, b) == PrivateConversationID(c, d) {
      IDIsJoined(a, b);
      IDIsJoined(c, d);
      var (x, y) := if LexLess(a, b) then (a, b) else (b, a);
      var (u, v) := if LexLess(c, d) then (c, d) else (d, c);
      DropPrefix("private:", Joined(x, y), Joined(u, v));
      SplitUnique(x, y, u, v);
    }
  }

  predicate Over(alphabet: set<char>, s: string) {
    forall i :: 0 <= i < |s| ==> s[i] in alphabet
  }

  ghost predicate Canonical(alphabet: set<char>) {
    forall a, b, c, d :: Over(alphabet, a) && Over(alphabet, b) && Over(alphabet, c) && Over(alphabet, d) ==>
      (PrivateConversationID(a, b) == PrivateConversationID(c, d) <==> SamePair(a, b, c, d))
  }

  lemma ColonsCollide()
    ensures PrivateConversationID(":", "::::") == PrivateConversationID("::", ":::")
    ensures !SamePair(":", "::::", "::", ":::")
  {
    IDNamesBoth(":", "::::", 1);
    IDNamesBoth("::", ":::", 2);
    assert "private:" + ":" + ":" + "::::" == "private:" + "::" + ":" + ":::";
    assert |":"| == 1 && |"::"| == 2 && |":::"| == 3;
  }

  lemma OverColons(alphabet: set<char>, s: string)
    requires ':' in alphabet && forall i :: 0 <= i < |s| ==> s[i] == ':'
    ensures Over(alphabet, s)
  {}

  // Ids over an alphabet are canonical exactly when the separator is not in it: with it
  // even two pairs of different, non-empty users share an id.
  lemma CanonicalIff(alphabet: set<char>)
    ensures Canonical(alphabet) <==> ':' !in alphabet
  {
    if ':' in alphabet {
      ColonsCollide();
      OverColons(alphabet, ":");
      OverColons(alphabet, "::");
      OverColons(alphabet, ":::");
      OverColons(alphabet, "::::");
    } else {
      forall a, b, c, d | Over(alphabet, a) && Over(alphabet, b) && Over(alphabet, c) && Over(alphabet, d)
        ensures PrivateConversationID(a, b) == PrivateConversationID(c, d) <==> SamePair(a, b, c, d)
      {
        IDIsCanonical(a, b, c, d);
      }
    }
  }

  // ----- GetOrCreatePrivateConversation -----

  datatype Kind = Private | Group
  datatype Conversation = Conversation(id: string, kind: Kind)
  datatype Store = Store(conversations: seq<Conversation>, members: seq<Member>)

  datatype Fault = NoFault | LookupFails | ConversationFails | MembersFail | CommitFails

  predicate HasConversation(st: Store, id: string) {
    exists i :: 0 <= i < |st.conversations| && st.conversations[i].id == id
  }

  // None stands for an error. The transaction leaves both rows or neither, and the unique
  // index on the conversation id refuses a second conversation under it. The result of the
  // commit is not looked at.
  function GetOrCreate(st: Store, userID1: string, userID2: string, fault: Fault): (Store, Option<Conversation>) {
    var conv := Conversation(PrivateConversationID(userID1, userID2), Private);
    if fault == LookupFails then (st, None)
    else if conv in st.conversations then (st, Some(conv))
    else if fault == ConversationFails || fault == MembersFail || HasConversation(st, conv.id) then (st, None)
    else if fault == CommitFails then (st, Some(conv))
    else (Store(st.conversations + [conv], st.members + [Member(conv.id, userID1), Member(conv.id, userID2)]),
          Some(conv))
  }

  class ConversationRepository {
    var conversations: seq<Conversation>
    var members: seq<Member>

    function State(): Store
      reads this
    {
      Store(conversations, members)
    }

    method GetOrCreatePrivateConversation(userID1: string, userID2: string, fault: Fault)
      returns (r: Option<Conversation>)
      modifies this
      ensures (State(), r) == GetOrCreate(old(State()), userID1, userID2, fault)
    {
      var conv := Conversation(PrivateConversationID(userID1, userID2), Private);
      if fault == LookupFails { return None; }
      if conv in conversations { return Some(conv); }
      var before := (conversations, members);
      var taken := HasConversation(State(), conv.id);
      if fault == ConversationFails || taken { return None; }
      conversations := conversations + [conv];
      if fault == MembersFail {
        // roll back
        conversations, members := before.0, before.1;
        return None;
      }
      members := members + [Member(conv.id, userID1), Member(conv.id, userID2)];
      if fault == CommitFails {
        // nothing of the transaction stays
        conversations, members := before.0, before.1;
      }
      return Some(conv);
    }
  }

  function MembersOf(members: seq<Member>, id: string): seq<string> {
    if members == [] then []
    else
      var init := MembersOf(members[..|members| - 1], id);
      var last := members[|members| - 1];
      if last.conversationID == id then init + [last.userID] else init
  }

  datatype Request = Request(userID1: string, userID2: string, fault: Fault)

  function RunRequests(st: Store, reqs: seq<Request>): Store {
    if reqs == [] then st
    else
      var r := reqs[|reqs| - 1];
      GetOrCreate(RunRequests(st, reqs[..|reqs| - 1]), r.userID1, r.userID2, r.fault).0
  }

  predicate OrdinaryPair(a: string, b: string) {
    a != b && ':' !in a && ':' !in b
  }

  ghost predicate IsPairConversation(st: Store, c: Conversation, a: string, b: string) {
    OrdinaryPair(a, b) && c.id == PrivateConversationID(a, b) && MembersOf(st.members, c.id) == [a, b]
  }

  ghost predicate Inv(st: Store) {
    && (forall i, j :: 0 <= i < j < |st.conversations| ==> st.conversations[i].id != st.conversations[j].id)
    && (forall c :: c in st.conversations && c.kind == Private ==> exists a, b :: IsPairConversation(st, c, a, b))
    && (forall m :: m in st.members ==> HasConversation(st, m.conversationID))
  }

  lemma MembersSnoc(members: seq<Member>, m: Member, id: string)
    ensures MembersOf(members + [m], id) == MembersOf(members, id) + if m.conversationID == id then [m.userID] else []
  {
    assert (members + [m])[..|members|] == members;
  }

  lemma {:induction false} NoMembersElsewhere(members: seq<Member>, id: string)
    requires forall m :: m in members ==> m.conversationID != id
    ensures MembersOf(members, id) == []
  {
    if members != [] { NoMembersElsewhere(members[..|members| - 1], id); }
  }

  lemma TwoMembers(members: seq<Member>, conv: string, a: string, b: string, id: string)
    ensures MembersOf(members + [Member(conv, a), Member(conv, b)], id)
         == MembersOf(members, id) + if conv == id then [a, b] else []
  {
    var one := members + [Member(conv, a)];
    assert members + [Member(conv, a), Member(conv, b)] == one + [Member(conv, b)];
    MembersSnoc(members, Member(conv, a), id);
    MembersSnoc(one, Member(conv, b), id);
  }

  lemma CreateKeepsInv(st: Store, a: string, b: string, fault: Fault)
    requires Inv(st) && OrdinaryPair(a, b)
    ensures Inv(GetOrCreate(st, a, b, fault).0)
  {
    var t := GetOrCreate(st, a, b, fault).0;
    var conv := Conversation(PrivateConversationID(a, b), Private);
    if t != st {
      forall m | m in st.members ensures m.conversationID != conv.id && HasConversation(t, m.conversationID) {
        var i :| 0 <= i < |st.conversations| && st.conversations[i].id == m.conversationID;
        assert t.conversations[i].id == m.conversationID;
      }
      assert t.conversations[|st.conversations|].id == conv.id;
      NoMembersElsewhere(st.members, conv.id);
      forall c | c in t.conversations && c.kind == Private
        ensures exists x, y :: IsPairConversation(t, c, x, y)
      {
        TwoMembers(st.members, conv.id, a, b, c.id);
        if c == conv {
          assert IsPairConversation(t, c, a, b);
        } else {
          assert c in st.conversations;
          var x, y :| IsPairConversation(st, c, x, y);
          var i :| 0 <= i < |st.conversations| && st.conversations[i] == c;
          assert IsPairConversation(t, c, x, y);
        }
      }
    }
  }

  lemma {:induction false} RunKeepsInv(st: Store, reqs: seq<Request>)
    requires Inv(st) && forall i :: 0 <= i < |reqs| ==> OrdinaryPair(reqs[i].userID1, reqs[i].userID2)
    ensures Inv(RunRequests(st, reqs))
  {
    if reqs != [] {
      var init, r := reqs[..|reqs| - 1], reqs[|reqs| - 1];
      RunKeepsInv(st, init);
      CreateKeepsInv(RunRequests(st, init), r.userID1, r.userID2, r.fault);
    }
  }

  // Over any run of requests, failures included, each private conversation has exactly the
  // two members of one pair, and a pair has at most one conversation.
  lemma OneConversationPerPair(reqs: seq<Request>, i: nat, j: nat)
    requires forall k :: 0 <= k < |reqs| ==> OrdinaryPair(reqs[k].userID1, reqs[k].userID2)
    requires var st := RunRequests(Store([], []), reqs);
             i < |st.conversations| && j < |st.conversations|
             && st.conversations[i].kind == Private && st.conversations[j].kind == Private
    ensures var st := RunRequests(Store([], []), reqs);
            var (c, d) := (st.conversations[i], st.conversations[j]);
            exists a, b, x, y ::
              && IsPairConversation(st, c, a, b) && IsPairConversation(st, d, x, y)
              && (SamePair(a, b, x, y) <==> i == j)
  {
    var st := RunRequests(Store([], []), reqs);
    assert Inv(Store([], []));
    RunKeepsInv(Store([], []), reqs);
    var c, d := st.conversations[i], st.conversations[j];
    assert c in st.conversations && d in st.conversations;
    var a, b :| IsPairConversation(st, c, a, b);
    var x, y :| IsPairConversation(st, d, x, y);
    IDIsCanonical(a, b, x, y);
    assert IsPairConversation(st, c, a, b) && IsPairConversation(st, d, x, y) && (SamePair(a, b, x, y) <==> i == j);
  }

  // Whatever ran before, asking for a pair in either order gives the pair's conversation,
  // the same one both ways, and asking again changes nothing.
  lemma AskingAgain(st: Store, a: string, b: string)
    requires Inv(st) && OrdinaryPair(a, b)
    requires GetOrCreate(st, a, b, NoFault).1.Some?
    ensures var (t, r) := GetOrCreate(st, a, b, NoFault);
            && GetOrCreate(t, b, a, NoFault) == (t, r)
            && r.value in t.conversations
            && (MembersOf(t.members, r.value.id) == [a, b] || MembersOf(t.members, r.value.id) == [b, a])
  {
    var (t, r) := GetOrCreate(st, a, b, NoFault);
    IDIsSymmetric(a, b);
    CreateKeepsInv(st, a, b, NoFault);
    var x, y :| IsPairConversation(t, r.value, x, y);
    IDIsCanonical(a, b, x, y);
  }

  // When a call creates the conversation, with its two users as members and nothing else
  // changed: when nothing fails and no conversation has its id. All other calls change
  // nothing.
  lemma CreatesIff(st: Store, a: string, b: string, fault: Fault)
    ensures var (t, r) := GetOrCreate(st, a, b, fault);
            var id := PrivateConversationID(a, b);
            if fault == NoFault && (forall c :: c in st.conversations ==> c.id != id)
            then && r == Some(Conversation(id, Private))
                 && t.conversations == st.conversations + [Conversation(id, Private)]
                 && t.members == st.members + [Member(id, a), Member(id, b)]
            else t == st
  {
    var id := PrivateConversationID(a, b);
    if HasConversation(st, id) {
      var i :| 0 <= i < |st.conversations| && st.conversations[i].id == id;
      assert st.conversations[i] in st.conversations;
    }
  }

  // When a call answers, and what: the pair's private conversation, if the lookup works and
  // finds it, or if no conversation has its id and neither insert fails. A failing commit
  // is no error.
  lemma AnswersIff(st: Store, a: string, b: string, fault: Fault)
    ensures var r := GetOrCreate(st, a, b, fault).1;
            var conv := Conversation(PrivateConversationID(a, b), Private);
            && (r.Some? ==> r.value == conv)
            && (r.Some? <==>
                  || (fault != LookupFails && conv in st.conversations)
                  || ((fault == NoFault || fault == CommitFails)
                      && forall c :: c in st.conversations ==> c.id != conv.id))
  {
    var id := PrivateConversationID(a, b);
    if HasConversation(st, id) {
      var i :| 0 <= i < |st.conversations| && st.conversations[i].id == id;
      assert st.conversations[i] in st.conversations;
    }
  }

  // A conversation that is answered is stored exactly when it was before or the commit
  // worked; otherwise the answer names one that nobody is a member of.
  lemma AnswerIsStoredIff(st: Store, a: string, b: string, fault: Fault)
    requires Inv(st) && GetOrCreate(st, a, b, fault).1.Some?
    ensures var (t, r) := GetOrCreate(st, a, b, fault);
            && (r.value in t.conversations <==> fault != CommitFails || r.value in st.conversations)
            && (r.value !in t.conversations ==> MembersOf(t.members, r.value.id) == [])
  {
    var (t, r) := GetOrCreate(st, a, b, fault);
    if r.value !in t.conversations {
      assert !HasConversation(st, r.value.id);
      NoMembersElsewhere(st.members, r.value.id);
    }
  }
}
