/**
 * The conversation store (claude_chat/database.py). The SQLite file holds two
 * tables; each is modelled as a sequence of rows in rowid order. Every SQL
 * statement of the store becomes an operation on those sequences: the reads
 * are functions and the writes are methods of the class `Database`.
 */
module Store {
  import opened Seqs

  /** A row of the `conversations` table. */
  datatype Conversation = Conversation(id: nat, title: string, createdAt: int, updatedAt: int, archived: bool)

  /** A row of the `messages` table. `role` is free text, as in the schema. */
  datatype Message = Message(id: nat, conversationId: nat, role: string, content: string, timestamp: int)

  function ConversationKey(c: Conversation): int { c.id }

  function MessageKey(m: Message): int { m.id }

  /** AUTOINCREMENT ids only grow, so a table read in rowid order has strictly increasing ids. */
  ghost predicate ConversationsInIdOrder(cs: seq<Conversation>) {
    StrictlyIncreasing(cs, ConversationKey)
  }

  ghost predicate MessagesInIdOrder(ms: seq<Message>) {
    StrictlyIncreasing(ms, MessageKey)
  }

  /** The primary key identifies a row. */
  lemma MessageIdsIdentifyRows(ms: seq<Message>)
    requires MessagesInIdOrder(ms)
    ensures forall a, b :: a in ms && b in ms && a.id == b.id ==> a == b
  {
    forall a, b | a in ms && b in ms && a.id == b.id ensures a == b {
      var i :| 0 <= i < |ms| && ms[i] == a;
      var j :| 0 <= j < |ms| && ms[j] == b;
      assert !(i < j) && !(j < i);
    }
  }

  lemma MessageFilterInIdOrder(ms: seq<Message>, p: Message -> bool)
    ensures MessagesInIdOrder(ms) ==> MessagesInIdOrder(Filter(ms, p))
  {
    if MessagesInIdOrder(ms) {
      FilterIncreasing(ms, p, MessageKey);
    }
  }

  lemma ConversationFilterInIdOrder(cs: seq<Conversation>, p: Conversation -> bool)
    ensures ConversationsInIdOrder(cs) ==> ConversationsInIdOrder(Filter(cs, p))
  {
    if ConversationsInIdOrder(cs) {
      FilterIncreasing(cs, p, ConversationKey);
    }
  }

  /** `SELECT id FROM conversations WHERE id = ?` finds a row. */
  predicate HasConversation(cs: seq<Conversation>, id: nat)
    ensures HasConversation(cs, id) <==> exists i :: 0 <= i < |cs| && cs[i].id == id
  {
    exists c :: c in cs && c.id == id
  }

  /** The duplicate probe of add_message: a row of the conversation with this role and content. */
  predicate HasCopy(ms: seq<Message>, conversationId: nat, role: string, content: string) {
    exists m :: m in ms && m.conversationId == conversationId && m.role == role && m.content == content
  }

  // ---------------------------------------------------------------------------
  // get_conversations

  predicate IsActive(c: Conversation) {
    !c.archived
  }

  /** `ORDER BY updated_at DESC`. */
  predicate UpdatedNoEarlier(a: Conversation, b: Conversation) {
    a.updatedAt >= b.updatedAt
  }

  lemma UpdatedNoEarlierIsTotalPreorder()
    ensures TotalPreorder(UpdatedNoEarlier)
  {
  }

  /** The conversation listing: exactly the non-archived rows, most recently updated first. */
  function ActiveConversations(cs: seq<Conversation>): (r: seq<Conversation>)
    ensures forall c :: multiset(r)[c] == if c.archived then 0 else multiset(cs)[c]
    ensures forall i, j :: 0 <= i < j < |r| ==> r[i].updatedAt >= r[j].updatedAt
  {
    UpdatedNoEarlierIsTotalPreorder();
    SortBy(Filter(cs, IsActive), UpdatedNoEarlier)
  }

  // ---------------------------------------------------------------------------
  // get_conversation_messages

  /** `(a.timestamp, a.id) <= (b.timestamp, b.id)` lexicographically. */
  predicate NotLater(a: Message, b: Message) {
    a.timestamp < b.timestamp || (a.timestamp == b.timestamp && a.id <= b.id)
  }

  /** The strict form of `NotLater`. */
  predicate Earlier(a: Message, b: Message) {
    a.timestamp < b.timestamp || (a.timestamp == b.timestamp && a.id < b.id)
  }

  lemma NotLaterIsTotalPreorder()
    ensures TotalPreorder(NotLater)
  {
  }

  /** `ROW_NUMBER() OVER (PARTITION BY conversation_id, role, content ORDER BY timestamp DESC, id DESC) = 1`
      within `WHERE conversation_id = c`: no row of the partition comes after `m`. */
  predicate IsLatestCopy(ms: seq<Message>, c: nat, m: Message)
  {
    && m.conversationId == c
    && forall n :: n in ms && n.conversationId == c && n.role == m.role && n.content == m.content ==> NotLater(n, m)
  }

  function LatestCopyTest(ms: seq<Message>, c: nat): Message -> bool {
    (m: Message) => IsLatestCopy(ms, c, m)
  }

  /** The history of conversation `c`: the latest copy of each (role, content), oldest first. */
  function ConversationMessages(ms: seq<Message>, c: nat): (r: seq<Message>)
    ensures forall m :: m in r <==> m in ms && IsLatestCopy(ms, c, m)
    ensures forall i, j :: 0 <= i < j < |r| ==> NotLater(r[i], r[j])
  {
    NotLaterIsTotalPreorder();
    SortBy(Filter(ms, LatestCopyTest(ms, c)), NotLater)
  }

  /** Every (role, content) that occurs in the conversation is represented in its history. */
  lemma {:induction false} EveryPairHasLatestCopy(ms: seq<Message>, c: nat, m: Message)
    requires m in ms && m.conversationId == c
    ensures exists k :: k in ConversationMessages(ms, c) && k.role == m.role && k.content == m.content
  {
    NotLaterIsTotalPreorder();
    var inGroup := (n: Message) => n.conversationId == c && n.role == m.role && n.content == m.content;
    var k := GreatestInGroup(ms, m, inGroup, NotLater);
    assert IsLatestCopy(ms, c, k);
  }

  /** On a table with a primary key, the history holds one row per (role, content),
      strictly ascending by (timestamp, id). */
  lemma OneRowPerPair(ms: seq<Message>, c: nat)
    requires MessagesInIdOrder(ms)
    ensures var r := ConversationMessages(ms, c);
      forall i, j :: 0 <= i < j < |r| ==>
        Earlier(r[i], r[j]) && (r[i].role != r[j].role || r[i].content != r[j].content)
  {
    NotLaterIsTotalPreorder();
    var f := Filter(ms, LatestCopyTest(ms, c));
    var r := ConversationMessages(ms, c);
    MessageFilterInIdOrder(ms, LatestCopyTest(ms, c));
    assert NoDuplicates(f);
    PermutationNoDuplicates(f, r);
    MessageIdsIdentifyRows(ms);
    forall i, j | 0 <= i < j < |r|
      ensures Earlier(r[i], r[j]) && (r[i].role != r[j].role || r[i].content != r[j].content)
    {
      assert r[i] in r && r[j] in r;
      assert r[i] != r[j];
      assert r[i].id != r[j].id;
    }
  }

  // ---------------------------------------------------------------------------
  // The duplicate sweeps of cleanup_duplicate_messages and cleanup_database

  /** `GROUP BY conversation_id, role, content, timestamp`. */
  function DedupKey(m: Message): (nat, string, string, int) {
    (m.conversationId, m.role, m.content, m.timestamp)
  }

  /** No row of `m`'s group in `ms` ranks above `m` under `le`. */
  predicate RanksFirstInGroup(ms: seq<Message>, m: Message, le: (Message, Message) -> bool) {
    forall n :: n in ms && DedupKey(n) == DedupKey(m) ==> le(n, m)
  }

  /** `id IN (SELECT MAX(id) | MIN(id) FROM messages GROUP BY ...)`. */
  predicate SurvivesSweep(ms: seq<Message>, m: Message, le: (Message, Message) -> bool) {
    exists k :: k in ms && RanksFirstInGroup(ms, k, le) && k.id == m.id
  }

  function SurvivorTest(ms: seq<Message>, le: (Message, Message) -> bool): Message -> bool {
    (m: Message) => SurvivesSweep(ms, m, le)
  }

  /** `DELETE FROM messages WHERE id NOT IN (SELECT <best>(id) ... GROUP BY ...)`. */
  function Sweep(ms: seq<Message>, le: (Message, Message) -> bool): (r: seq<Message>)
    ensures forall m :: multiset(r)[m] <= multiset(ms)[m]
    ensures MessagesInIdOrder(ms) ==> MessagesInIdOrder(r)
  {
    MessageFilterInIdOrder(ms, SurvivorTest(ms, le));
    Filter(ms, SurvivorTest(ms, le))
  }

  /** `MAX(id)` ranks rows by id ascending, `MIN(id)` descending; in both the id decides. */
  predicate IdAtMost(a: Message, b: Message) { a.id <= b.id }

  predicate IdAtLeast(a: Message, b: Message) { a.id >= b.id }

  ghost predicate RanksById(le: (Message, Message) -> bool) {
    && TotalPreorder(le)
    && forall a, b :: le(a, b) && le(b, a) ==> a.id == b.id
  }

  lemma IdRankings()
    ensures RanksById(IdAtMost) && RanksById(IdAtLeast)
  {
  }

  /** With a primary key, the surviving rows are exactly the first-ranked row of each group. */
  lemma SweepMembership(ms: seq<Message>, le: (Message, Message) -> bool)
    ensures MessagesInIdOrder(ms) ==>
      forall m :: m in Sweep(ms, le) <==> m in ms && RanksFirstInGroup(ms, m, le)
  {
    if MessagesInIdOrder(ms) {
      MessageIdsIdentifyRows(ms);
      forall m | m in ms && SurvivesSweep(ms, m, le) ensures RanksFirstInGroup(ms, m, le) {
        var k :| k in ms && RanksFirstInGroup(ms, k, le) && k.id == m.id;
        assert k == m;
      }
    }
  }

  /** After a sweep no two rows share (conversation_id, role, content, timestamp). */
  lemma SweepLeavesNoDuplicates(ms: seq<Message>, le: (Message, Message) -> bool)
    requires MessagesInIdOrder(ms) && RanksById(le)
    ensures var r := Sweep(ms, le);
      forall i, j :: 0 <= i < j < |r| ==> DedupKey(r[i]) != DedupKey(r[j])
  {
    var r := Sweep(ms, le);
    SweepMembership(ms, le);
    forall i, j | 0 <= i < j < |r| ensures DedupKey(r[i]) != DedupKey(r[j]) {
      assert r[i] in r && r[j] in r;
      assert r[i].id < r[j].id;
    }
  }

  /** A sweep keeps one row of every group. */
  lemma {:induction false} SweepKeepsEveryGroup(ms: seq<Message>, le: (Message, Message) -> bool, m: Message)
    requires MessagesInIdOrder(ms) && RanksById(le) && m in ms
    ensures exists k :: k in Sweep(ms, le) && DedupKey(k) == DedupKey(m)
  {
    var inGroup := (n: Message) => DedupKey(n) == DedupKey(m);
    var k := GreatestInGroup(ms, m, inGroup, le);
    assert RanksFirstInGroup(ms, k, le);
    SweepMembership(ms, le);
  }

  /** Sweeping a swept table changes nothing. */
  lemma SweepIdempotent(ms: seq<Message>, le: (Message, Message) -> bool)
    requires MessagesInIdOrder(ms)
    ensures Sweep(Sweep(ms, le), le) == Sweep(ms, le)
  {
    var r := Sweep(ms, le);
    SweepMembership(ms, le);
    forall m | m in r ensures SurvivorTest(r, le)(m) {
      assert RanksFirstInGroup(r, m, le);
    }
    FilterAll(r, SurvivorTest(r, le));
  }

  /** cleanup_duplicate_messages: of each group, the row with the highest id survives. */
  function KeepMaxIdPerGroup(ms: seq<Message>): (r: seq<Message>)
    ensures forall m :: multiset(r)[m] <= multiset(ms)[m]
    ensures MessagesInIdOrder(ms) ==> MessagesInIdOrder(r)
    ensures MessagesInIdOrder(ms) ==> forall m :: m in r <==>
      m in ms && forall n :: n in ms && DedupKey(n) == DedupKey(m) ==> n.id <= m.id
  {
    SweepMembership(ms, IdAtMost);
    Sweep(ms, IdAtMost)
  }

  /** The second statement of cleanup_database: of each group, the row with the lowest id survives. */
  function KeepMinIdPerGroup(ms: seq<Message>): (r: seq<Message>)
    ensures forall m :: multiset(r)[m] <= multiset(ms)[m]
    ensures MessagesInIdOrder(ms) ==> MessagesInIdOrder(r)
    ensures MessagesInIdOrder(ms) ==> forall m :: m in r <==>
      m in ms && forall n :: n in ms && DedupKey(n) == DedupKey(m) ==> n.id >= m.id
  {
    SweepMembership(ms, IdAtLeast);
    Sweep(ms, IdAtLeast)
  }

  /** A row without a duplicate survives either sweep. */
  lemma UniqueRowsSurvive(ms: seq<Message>, m: Message)
    requires MessagesInIdOrder(ms) && m in ms
    requires forall n :: n in ms && DedupKey(n) == DedupKey(m) ==> n == m
    ensures m in KeepMaxIdPerGroup(ms) && m in KeepMinIdPerGroup(ms)
  {
  }

  /** Both sweeps leave the same groups and differ only in the id each group keeps. */
  lemma SweepsAgreeUpToId(ms: seq<Message>, m: Message)
    requires MessagesInIdOrder(ms) && m in ms
    ensures exists a, b ::
      && a in KeepMaxIdPerGroup(ms) && b in KeepMinIdPerGroup(ms)
      && DedupKey(a) == DedupKey(m) && DedupKey(b) == DedupKey(m) && a.id >= b.id
  {
    IdRankings();
    SweepKeepsEveryGroup(ms, IdAtMost, m);
    SweepKeepsEveryGroup(ms, IdAtLeast, m);
    var hi, lo := KeepMaxIdPerGroup(ms), KeepMinIdPerGroup(ms);
    var a :| a in hi && DedupKey(a) == DedupKey(m);
    var b :| b in lo && DedupKey(b) == DedupKey(m);
    assert multiset(lo)[b] > 0;
    assert b in ms;
    assert b.id <= a.id;
  }

  // ---------------------------------------------------------------------------
  // The DELETE statements of delete_conversation and cleanup_database

  function OutsideConversation(id: nat): Message -> bool {
    (m: Message) => m.conversationId != id
  }

  /** `DELETE FROM messages WHERE conversation_id = ?`. */
  function DeleteConversationMessages(ms: seq<Message>, id: nat): (r: seq<Message>)
    ensures forall m :: multiset(r)[m] == if m.conversationId == id then 0 else multiset(ms)[m]
    ensures MessagesInIdOrder(ms) ==> MessagesInIdOrder(r)
  {
    MessageFilterInIdOrder(ms, OutsideConversation(id));
    Filter(ms, OutsideConversation(id))
  }

  function OtherConversation(id: nat): Conversation -> bool {
    (c: Conversation) => c.id != id
  }

  /** `DELETE FROM conversations WHERE id = ?`. */
  function DeleteConversationRow(cs: seq<Conversation>, id: nat): (r: seq<Conversation>)
    ensures forall c :: multiset(r)[c] == if c.id == id then 0 else multiset(cs)[c]
    ensures ConversationsInIdOrder(cs) ==> ConversationsInIdOrder(r)
  {
    ConversationFilterInIdOrder(cs, OtherConversation(id));
    Filter(cs, OtherConversation(id))
  }

  /** After delete_conversation the conversation's history is empty. */
  lemma DeletedConversationHasNoHistory(ms: seq<Message>, id: nat)
    ensures ConversationMessages(DeleteConversationMessages(ms, id), id) == []
  {
    var r := ConversationMessages(DeleteConversationMessages(ms, id), id);
    assert forall k :: 0 <= k < |r| ==> r[k] in r;
  }

  function OwnedBy(cs: seq<Conversation>): Message -> bool {
    (m: Message) => HasConversation(cs, m.conversationId)
  }

  /** `DELETE FROM messages WHERE conversation_id NOT IN (SELECT id FROM conversations)`. */
  function RemoveOrphans(ms: seq<Message>, cs: seq<Conversation>): (r: seq<Message>)
    ensures forall m :: multiset(r)[m] == if HasConversation(cs, m.conversationId) then multiset(ms)[m] else 0
    ensures MessagesInIdOrder(ms) ==> MessagesInIdOrder(r)
  {
    MessageFilterInIdOrder(ms, OwnedBy(cs));
    Filter(ms, OwnedBy(cs))
  }

  /** The two statements of cleanup_database, in order. */
  function CleanedMessages(ms: seq<Message>, cs: seq<Conversation>): (r: seq<Message>)
    ensures forall m :: m in r ==> m in ms && HasConversation(cs, m.conversationId)
    ensures MessagesInIdOrder(ms) ==> MessagesInIdOrder(r)
  {
    KeepMinIdPerGroup(RemoveOrphans(ms, cs))
  }

  /** After cleanup_database no two rows are duplicates. */
  lemma CleanedMessagesHaveNoDuplicates(ms: seq<Message>, cs: seq<Conversation>)
    requires MessagesInIdOrder(ms)
    ensures var r := CleanedMessages(ms, cs);
      forall i, j :: 0 <= i < j < |r| ==> DedupKey(r[i]) != DedupKey(r[j])
  {
    IdRankings();
    SweepLeavesNoDuplicates(RemoveOrphans(ms, cs), IdAtLeast);
  }

  /** init_db may run on every start: a second cleanup_database changes nothing. */
  lemma CleanupDatabaseIdempotent(ms: seq<Message>, cs: seq<Conversation>)
    requires MessagesInIdOrder(ms)
    ensures CleanedMessages(CleanedMessages(ms, cs), cs) == CleanedMessages(ms, cs)
  {
    var r := CleanedMessages(ms, cs);
    FilterAll(r, OwnedBy(cs));
    assert RemoveOrphans(r, cs) == r;
    SweepIdempotent(RemoveOrphans(ms, cs), IdAtLeast);
  }

  /** cleanup_duplicate_messages is idempotent. */
  lemma KeepMaxIdPerGroupIdempotent(ms: seq<Message>)
    requires MessagesInIdOrder(ms)
    ensures KeepMaxIdPerGroup(KeepMaxIdPerGroup(ms)) == KeepMaxIdPerGroup(ms)
  {
    SweepIdempotent(ms, IdAtMost);
  }

  /** After cleanup_duplicate_messages no two rows are duplicates, and every group is still there. */
  lemma KeepMaxIdPerGroupComplete(ms: seq<Message>, m: Message)
    requires MessagesInIdOrder(ms) && m in ms
    ensures var r := KeepMaxIdPerGroup(ms);
      && (forall i, j :: 0 <= i < j < |r| ==> DedupKey(r[i]) != DedupKey(r[j]))
      && exists k :: k in r && DedupKey(k) == DedupKey(m)
  {
    IdRankings();
    SweepLeavesNoDuplicates(ms, IdAtMost);
    SweepKeepsEveryGroup(ms, IdAtMost, m);
  }

  // ---------------------------------------------------------------------------
  // Row-level facts used by the writes

  /** Appending a row whose id exceeds every stored id keeps the table in id order. */
  lemma AppendInIdOrder(ms: seq<Message>, m: Message)
    requires MessagesInIdOrder(ms) && forall x :: x in ms ==> x.id < m.id
    ensures MessagesInIdOrder(ms + [m])
  {
    var r := ms + [m];
    forall i, j | 0 <= i < j < |r| ensures r[i].id < r[j].id {
      assert r[i] == ms[i];
      if j < |ms| {
        assert r[j] == ms[j];
      } else {
        assert ms[i] in ms;
      }
    }
  }

  /** `r` is `cs` with some fields other than the id rewritten, row by row. */
  ghost predicate SameIds(cs: seq<Conversation>, r: seq<Conversation>) {
    |r| == |cs| && forall i :: 0 <= i < |cs| ==> r[i].id == cs[i].id
  }

  lemma SameIdsFacts(cs: seq<Conversation>, r: seq<Conversation>)
    requires SameIds(cs, r)
    ensures ConversationsInIdOrder(cs) ==> ConversationsInIdOrder(r)
    ensures forall x: nat :: HasConversation(cs, x) ==> HasConversation(r, x)
    ensures forall c :: c in r ==> exists d :: d in cs && d.id == c.id
  {
    forall x: nat | HasConversation(cs, x) ensures HasConversation(r, x) {
      var c :| c in cs && c.id == x;
      var i :| 0 <= i < |cs| && cs[i] == c;
      assert r[i] in r;
    }
    forall c | c in r ensures exists d :: d in cs && d.id == c.id {
      var i :| 0 <= i < |r| && r[i] == c;
      assert cs[i] in cs;
    }
  }

  /** The UPDATE of add_message: the conversation's updated_at becomes `now`. */
  function Touch(cs: seq<Conversation>, id: nat, now: int): (r: seq<Conversation>)
    ensures SameIds(cs, r)
    ensures forall i :: 0 <= i < |r| ==> r[i] == if cs[i].id == id then cs[i].(updatedAt := now) else cs[i]
  {
    seq(|cs|, i requires 0 <= i < |cs| => if cs[i].id == id then cs[i].(updatedAt := now) else cs[i])
  }

  /** The UPDATE of update_conversation_title: the conversation's title becomes `title`. */
  function Retitle(cs: seq<Conversation>, id: nat, title: string): (r: seq<Conversation>)
    ensures SameIds(cs, r)
    ensures forall i :: 0 <= i < |r| ==> r[i] == if cs[i].id == id then cs[i].(title := title) else cs[i]
  {
    seq(|cs|, i requires 0 <= i < |cs| => if cs[i].id == id then cs[i].(title := title) else cs[i])
  }

  /** Every row left by delete_conversation was there before and belongs to a remaining conversation. */
  lemma DeleteKeepsOwnership(ms: seq<Message>, cs: seq<Conversation>, id: nat)
    requires forall m :: m in ms ==> HasConversation(cs, m.conversationId)
    ensures forall m :: m in DeleteConversationMessages(ms, id) ==>
      HasConversation(DeleteConversationRow(cs, id), m.conversationId)
  {
    var r, rc := DeleteConversationMessages(ms, id), DeleteConversationRow(cs, id);
    forall m | m in r ensures HasConversation(rc, m.conversationId) {
      assert multiset(r)[m] > 0;
      var c :| c in cs && c.id == m.conversationId;
      assert multiset(rc)[c] > 0;
    }
  }

  lemma DeleteKeepsBounds(cs: seq<Conversation>, id: nat)
    ensures forall c :: c in DeleteConversationRow(cs, id) ==> c in cs
  {
    var rc := DeleteConversationRow(cs, id);
    forall c | c in rc ensures c in cs {
      assert multiset(rc)[c] > 0;
    }
  }

  lemma DeleteMessagesKeepsBounds(ms: seq<Message>, id: nat)
    ensures forall m :: m in DeleteConversationMessages(ms, id) ==> m in ms
  {
    var r := DeleteConversationMessages(ms, id);
    forall m | m in r ensures m in ms {
      assert multiset(r)[m] > 0;
    }
  }

  // ---------------------------------------------------------------------------
  // The store and its writes

  /** Both tables in id order, every id handed out by its AUTOINCREMENT counter. */
  ghost predicate TablesValid(cs: seq<Conversation>, ms: seq<Message>, conversationSeq: nat, messageSeq: nat) {
    && ConversationsInIdOrder(cs)
    && MessagesInIdOrder(ms)
    && (forall c :: c in cs ==> 1 <= c.id <= conversationSeq)
    && (forall m :: m in ms ==> 1 <= m.id <= messageSeq)
  }

  /** Every message names a stored conversation. */
  ghost predicate Owned(cs: seq<Conversation>, ms: seq<Message>) {
    forall m :: m in ms ==> HasConversation(cs, m.conversationId)
  }

  /** The two DELETE statements of delete_conversation keep the tables valid and keep every message owned. */
  lemma DeleteKeepsTablesValid(cs: seq<Conversation>, ms: seq<Message>, conversationSeq: nat, messageSeq: nat, id: nat)
    requires TablesValid(cs, ms, conversationSeq, messageSeq)
    ensures TablesValid(DeleteConversationRow(cs, id), DeleteConversationMessages(ms, id), conversationSeq, messageSeq)
    ensures Owned(cs, ms) ==> Owned(DeleteConversationRow(cs, id), DeleteConversationMessages(ms, id))
  {
    if Owned(cs, ms) {
      DeleteKeepsOwnership(ms, cs, id);
    }
    DeleteMessagesKeepsBounds(ms, id);
    DeleteKeepsBounds(cs, id);
  }

  /** The UPDATE of add_message keeps the conversations in id order and within their counter. */
  lemma TouchKeepsConversations(cs: seq<Conversation>, id: nat, now: int, conversationSeq: nat)
    requires ConversationsInIdOrder(cs) && forall c :: c in cs ==> 1 <= c.id <= conversationSeq
    ensures ConversationsInIdOrder(Touch(cs, id, now))
    ensures forall c :: c in Touch(cs, id, now) ==> 1 <= c.id <= conversationSeq
    ensures forall x: nat :: HasConversation(cs, x) ==> HasConversation(Touch(cs, id, now), x)
  {
    var r := Touch(cs, id, now);
    SameIdsFacts(cs, r);
    forall c | c in r ensures 1 <= c.id <= conversationSeq {
      var i :| 0 <= i < |r| && r[i] == c;
      assert cs[i] in cs;
    }
  }

  /** The INSERT of add_message, with the next AUTOINCREMENT id, keeps the messages in id order. */
  lemma AppendKeepsMessages(ms: seq<Message>, m: Message, messageSeq: nat)
    requires MessagesInIdOrder(ms) && forall x :: x in ms ==> 1 <= x.id <= messageSeq
    requires m.id == messageSeq + 1
    ensures MessagesInIdOrder(ms + [m])
    ensures forall x :: x in ms + [m] ==> 1 <= x.id <= m.id && (x == m || x in ms)
  {
    AppendInIdOrder(ms, m);
    forall x | x in ms + [m] ensures 1 <= x.id <= m.id && (x == m || x in ms) {
      if x != m {
        assert x in ms;
      }
    }
  }

  /** The INSERT and UPDATE of add_message keep the tables valid and keep every message owned. */
  lemma InsertKeepsTablesValid(cs: seq<Conversation>, ms: seq<Message>, conversationSeq: nat, messageSeq: nat, m: Message)
    requires TablesValid(cs, ms, conversationSeq, messageSeq)
    requires m.id == messageSeq + 1 && HasConversation(cs, m.conversationId)
    ensures TablesValid(Touch(cs, m.conversationId, m.timestamp), ms + [m], conversationSeq, m.id)
    ensures HasConversation(Touch(cs, m.conversationId, m.timestamp), m.conversationId)
    ensures Owned(cs, ms) ==> Owned(Touch(cs, m.conversationId, m.timestamp), ms + [m])
  {
    TouchKeepsConversations(cs, m.conversationId, m.timestamp, conversationSeq);
    AppendKeepsMessages(ms, m, messageSeq);
  }

  /** The message table after add_message with the fresh id `id`, when the
      conversation exists: unchanged if a copy is already stored. */
  function StoreOnce(ms: seq<Message>, id: nat, conversationId: nat, role: string, content: string, at: int): (r: seq<Message>)
    ensures HasCopy(r, conversationId, role, content)
    ensures HasCopy(ms, conversationId, role, content) <==> r == ms
    ensures ms <= r && |r| <= |ms| + 1
    ensures forall i :: |ms| <= i < |r| ==> r[i] == Message(id, conversationId, role, content, at)
  {
    if HasCopy(ms, conversationId, role, content) then ms
    else
      assert Message(id, conversationId, role, content, at) in ms + [Message(id, conversationId, role, content, at)];
      ms + [Message(id, conversationId, role, content, at)]
  }

  /** The whole store as a value: both tables and both AUTOINCREMENT counters. */
  datatype Tables = Tables(conversations: seq<Conversation>, messages: seq<Message>, conversationSeq: nat, messageSeq: nat)

  /** The store after add_message on a conversation that exists: unchanged when a
      copy is already stored; otherwise the row takes the next id and the
      conversation's updated_at becomes the message time. */
  function StoreMessage(t: Tables, conversationId: nat, role: string, content: string, at: int): (r: Tables)
    ensures r.messages == StoreOnce(t.messages, t.messageSeq + 1, conversationId, role, content, at)
    ensures HasCopy(t.messages, conversationId, role, content) <==> r == t
    ensures SameIds(t.conversations, r.conversations) && r.conversationSeq == t.conversationSeq
  {
    if HasCopy(t.messages, conversationId, role, content) then t
    else
      Tables(Touch(t.conversations, conversationId, at), StoreOnce(t.messages, t.messageSeq + 1, conversationId, role, content, at),
             t.conversationSeq, t.messageSeq + 1)
  }

  /** add_message adds at most one row, the one with the next id. */
  lemma StoreMessageGrows(t: Tables, conversationId: nat, role: string, content: string, at: int)
    ensures var r := StoreMessage(t, conversationId, role, content, at);
      && t.messages <= r.messages && |r.messages| <= |t.messages| + 1
      && r.messageSeq <= t.messageSeq + 1
      && forall i :: |t.messages| <= i < |r.messages| ==> r.messages[i] == Message(t.messageSeq + 1, conversationId, role, content, at)
  {
  }

  /** Storing one (role, content) leaves the copies of every other pair as they were. */
  lemma StoreMessageKeepsOtherCopies(t: Tables, conversationId: nat, role: string, content: string, at: int,
                                     otherRole: string, otherContent: string)
    requires role != otherRole || content != otherContent
    ensures HasCopy(StoreMessage(t, conversationId, role, content, at).messages, conversationId, otherRole, otherContent)
        <==> HasCopy(t.messages, conversationId, otherRole, otherContent)
  {
    var r := StoreMessage(t, conversationId, role, content, at);
    if HasCopy(r.messages, conversationId, otherRole, otherContent) {
      var m :| m in r.messages && m.conversationId == conversationId && m.role == otherRole && m.content == otherContent;
      var i :| 0 <= i < |r.messages| && r.messages[i] == m;
      assert i < |t.messages| && t.messages[i] == m;
    }
    if HasCopy(t.messages, conversationId, otherRole, otherContent) {
      var m :| m in t.messages && m.conversationId == conversationId && m.role == otherRole && m.content == otherContent;
      var i :| 0 <= i < |t.messages| && t.messages[i] == m;
      assert r.messages[i] == m;
    }
  }

  /** A row the conversation does not hold yet is stored last, under the new counter
      value, and the conversation's updated_at becomes its time. */
  lemma NewRowStampsConversation(t: Tables, conversationId: nat, role: string, content: string, at: int)
    requires !HasCopy(t.messages, conversationId, role, content)
    ensures var r := StoreMessage(t, conversationId, role, content, at);
      && |r.messages| > 0
      && r.messages[|r.messages| - 1] == Message(r.messageSeq, conversationId, role, content, at)
      && forall c :: c in r.conversations && c.id == conversationId ==> c.updatedAt == at
  {
    var cs := Touch(t.conversations, conversationId, at);
    forall c | c in cs && c.id == conversationId ensures c.updatedAt == at {
      var i :| 0 <= i < |cs| && cs[i] == c;
    }
  }

  /** Two add_message calls on one conversation: the first pair is stored once the
      second call is done, at most two rows are added, and they belong to the
      conversation. */
  lemma StoreTwoMessages(t: Tables, conversationId: nat, role: string, content: string, at: int,
                         nextRole: string, nextContent: string, nextAt: int)
    requires role != nextRole
    ensures var r := StoreMessage(StoreMessage(t, conversationId, role, content, at), conversationId, nextRole, nextContent, nextAt);
      && HasCopy(r.messages, conversationId, role, content)
      && t.messages <= r.messages && |r.messages| <= |t.messages| + 2
      && forall i :: |t.messages| <= i < |r.messages| ==> r.messages[i].conversationId == conversationId
  {
    var s := StoreMessage(t, conversationId, role, content, at);
    var r := StoreMessage(s, conversationId, nextRole, nextContent, nextAt);
    StoreMessageGrows(t, conversationId, role, content, at);
    StoreMessageGrows(s, conversationId, nextRole, nextContent, nextAt);
    StoreMessageKeepsOtherCopies(s, conversationId, nextRole, nextContent, nextAt, role, content);
    forall i | |t.messages| <= i < |r.messages| ensures r.messages[i].conversationId == conversationId {
      if i < |s.messages| {
        assert r.messages[i] == s.messages[i];
      }
    }
  }

  /** `b` is `a` except that rows of conversation `id` may have a new updated_at,
      taken from `times`. */
  ghost predicate StampedOnly(a: seq<Conversation>, b: seq<Conversation>, id: nat, times: set<int>) {
    && |b| == |a|
    && forall i :: 0 <= i < |a| ==>
         && b[i] == a[i].(updatedAt := b[i].updatedAt)
         && (b[i] != a[i] ==> a[i].id == id && b[i].updatedAt in times)
  }

  lemma StampedOnlyCompose(a: seq<Conversation>, b: seq<Conversation>, c: seq<Conversation>, id: nat, s: set<int>, t: set<int>)
    requires StampedOnly(a, b, id, s) && StampedOnly(b, c, id, t)
    ensures StampedOnly(a, c, id, s + t)
  {
  }

  /** add_message touches only the updated_at of its own conversation, setting it to the message time. */
  lemma StoreMessageStampsOnly(t: Tables, conversationId: nat, role: string, content: string, at: int)
    ensures StampedOnly(t.conversations, StoreMessage(t, conversationId, role, content, at).conversations, conversationId, {at})
  {
  }

  /** What add_message did: inserted a row, skipped a duplicate, or raised
      "Conversation <id> does not exist". */
  datatype AddOutcome = Inserted(id: nat) | SkippedDuplicate | ConversationMissing

  /** The SQLite store. `conversationSeq` and `messageSeq` are the AUTOINCREMENT
      counters: the largest id each table has ever handed out. */
  class Database {
    var conversations: seq<Conversation>
    var messages: seq<Message>
    var conversationSeq: nat
    var messageSeq: nat

    ghost predicate Valid()
      reads this
    {
      TablesValid(conversations, messages, conversationSeq, messageSeq)
    }

    /** Every message belongs to a stored conversation (the foreign key, which SQLite does not enforce). */
    ghost predicate NoOrphans()
      reads this
    {
      Owned(conversations, messages)
    }

    /** Both tables and both counters as one value. */
    ghost function State(): Tables
      reads this
    {
      Tables(conversations, messages, conversationSeq, messageSeq)
    }

    /** A new database file: both tables empty. */
    constructor ()
      ensures Valid() && NoOrphans()
      ensures conversations == [] && messages == [] && conversationSeq == 0 && messageSeq == 0
    {
      conversations, messages := [], [];
      conversationSeq, messageSeq := 0, 0;
    }

    /** init_db: the tables already exist, so only cleanup_database has an effect. */
    method InitDb()
      requires Valid()
      modifies this
      ensures Valid() && NoOrphans()
      ensures conversations == old(conversations) && messages == CleanedMessages(old(messages), old(conversations))
      ensures conversationSeq == old(conversationSeq) && messageSeq == old(messageSeq)
    {
      CleanupDatabase();
    }

    /** cleanup_database: drop the orphans, then keep the lowest id of each duplicate group. */
    method CleanupDatabase()
      requires Valid()
      modifies this
      ensures Valid() && NoOrphans()
      ensures conversations == old(conversations) && messages == CleanedMessages(old(messages), old(conversations))
      ensures conversationSeq == old(conversationSeq) && messageSeq == old(messageSeq)
    {
      messages := CleanedMessages(messages, conversations);
    }

    /** cleanup_duplicate_messages: keep the highest id of each duplicate group. */
    method CleanupDuplicateMessages()
      requires Valid()
      modifies this
      ensures Valid()
      ensures old(NoOrphans()) ==> NoOrphans()
      ensures conversations == old(conversations) && messages == KeepMaxIdPerGroup(old(messages))
      ensures conversationSeq == old(conversationSeq) && messageSeq == old(messageSeq)
    {
      messages := KeepMaxIdPerGroup(messages);
    }

    /** create_conversation: insert a non-archived row with a fresh id; both timestamps are `now`. */
    method CreateConversation(title: string, now: int) returns (id: nat)
      requires Valid()
      modifies this
      ensures Valid()
      ensures old(NoOrphans()) ==> NoOrphans()
      ensures id == old(conversationSeq) + 1 && !HasConversation(old(conversations), id)
      ensures conversations == old(conversations) + [Conversation(id, title, now, now, false)]
      ensures messages == old(messages) && conversationSeq == id && messageSeq == old(messageSeq)
    {
      id := conversationSeq + 1;
      var cs := conversations;
      conversations := cs + [Conversation(id, title, now, now, false)];
      conversationSeq := id;
      forall m | m in messages && HasConversation(cs, m.conversationId)
        ensures HasConversation(conversations, m.conversationId)
      {
        var c :| c in cs && c.id == m.conversationId;
        assert c in conversations;
      }
    }

    /** add_message: fails when the conversation is missing, skips the insert when the
        conversation already holds a row with this role and content, and otherwise
        inserts the row and sets the conversation's updated_at to the same time. */
    method AddMessage(conversationId: nat, role: string, content: string, now: int) returns (outcome: AddOutcome)
      requires Valid()
      modifies this
      ensures Valid()
      ensures old(NoOrphans()) ==> NoOrphans()
      ensures !HasConversation(old(conversations), conversationId) ==>
        outcome == ConversationMissing && unchanged(this)
      ensures HasConversation(old(conversations), conversationId) && HasCopy(old(messages), conversationId, role, content) ==>
        outcome == SkippedDuplicate && unchanged(this)
      ensures HasConversation(old(conversations), conversationId) && !HasCopy(old(messages), conversationId, role, content) ==>
        && outcome == Inserted(old(messageSeq) + 1)
        && (forall m :: m in old(messages) ==> m.id < outcome.id)
        && messages == old(messages) + [Message(outcome.id, conversationId, role, content, now)]
        && messageSeq == outcome.id && conversationSeq == old(conversationSeq)
        && conversations == Touch(old(conversations), conversationId, now)
      ensures HasConversation(old(conversations), conversationId) ==>
        && messages == StoreOnce(old(messages), old(messageSeq) + 1, conversationId, role, content, now)
        && State() == StoreMessage(old(State()), conversationId, role, content, now)
        && HasConversation(conversations, conversationId)
    {
      if !HasConversation(conversations, conversationId) {
        return ConversationMissing;
      }
      if HasCopy(messages, conversationId, role, content) {
        return SkippedDuplicate;
      }
      var m := Message(messageSeq + 1, conversationId, role, content, now);
      InsertKeepsTablesValid(conversations, messages, conversationSeq, messageSeq, m);
      messages := messages + [m];
      messageSeq := m.id;
      conversations := Touch(conversations, conversationId, now);
      outcome := Inserted(m.id);
    }

    /** delete_conversation: remove the conversation's messages, then its row; report success. */
    method DeleteConversation(conversationId: nat) returns (ok: bool)
      requires Valid()
      modifies this
      ensures Valid()
      ensures old(NoOrphans()) ==> NoOrphans()
      ensures ok
      ensures messages == DeleteConversationMessages(old(messages), conversationId)
      ensures conversations == DeleteConversationRow(old(conversations), conversationId)
      ensures conversationSeq == old(conversationSeq) && messageSeq == old(messageSeq)
    {
      var ms, cs := DeleteConversationMessages(messages, conversationId), DeleteConversationRow(conversations, conversationId);
      DeleteKeepsTablesValid(conversations, messages, conversationSeq, messageSeq, conversationId);
      messages, conversations := ms, cs;
      ok := true;
    }

    /** update_conversation_title: `UPDATE conversations SET title = ? WHERE id = ?`;
        no row matches an unknown id, and then nothing changes. */
    method UpdateConversationTitle(conversationId: nat, title: string)
      requires Valid()
      modifies this
      ensures Valid()
      ensures old(NoOrphans()) ==> NoOrphans()
      ensures |conversations| == |old(conversations)|
      ensures forall i :: 0 <= i < |conversations| ==>
        conversations[i] == if old(conversations)[i].id == conversationId
                            then old(conversations)[i].(title := title)
                            else old(conversations)[i]
      ensures messages == old(messages) && conversationSeq == old(conversationSeq) && messageSeq == old(messageSeq)
    {
      var cs := conversations;
      conversations := Retitle(cs, conversationId, title);
      SameIdsFacts(cs, conversations);
    }
  }

  function CopyTest(conversationId: nat, role: string, content: string): Message -> bool {
    (m: Message) => m.conversationId == conversationId && m.role == role && m.content == content
  }

  /** The number of rows of a conversation with this role and content. */
  function CopyCount(ms: seq<Message>, conversationId: nat, role: string, content: string): nat {
    |Filter(ms, CopyTest(conversationId, role, content))|
  }

  /** The duplicate probe finds a row exactly when the conversation holds at least
      one copy. */
  lemma HasCopyIffCounted(ms: seq<Message>, conversationId: nat, role: string, content: string)
    ensures HasCopy(ms, conversationId, role, content) <==> CopyCount(ms, conversationId, role, content) > 0
  {
    var copies := Filter(ms, CopyTest(conversationId, role, content));
    assert |copies| > 0 ==> copies[0] in copies;
  }

  /** The first copy of a (role, content) in a conversation makes the count one. */
  lemma FirstCopyCountsOne(ms: seq<Message>, m: Message)
    requires !HasCopy(ms, m.conversationId, m.role, m.content)
    ensures CopyCount(ms + [m], m.conversationId, m.role, m.content) == 1
    ensures HasCopy(ms + [m], m.conversationId, m.role, m.content)
  {
    var p := CopyTest(m.conversationId, m.role, m.content);
    FilterSnoc(ms, m, p);
    var f := Filter(ms, p);
    assert forall k :: 0 <= k < |f| ==> f[k] in f;
    assert f == [];
    assert m in ms + [m];
  }

  /** A double submission: two identical add_message calls in a row leave exactly one
      matching row when there was none, and the second call is always skipped. */
  method SubmitTwice(db: Database, conversationId: nat, role: string, content: string, first: int, second: int)
    returns (a: AddOutcome, b: AddOutcome)
    requires db.Valid() && HasConversation(db.conversations, conversationId)
    modifies db
    ensures db.Valid()
    ensures b == SkippedDuplicate
    ensures HasCopy(old(db.messages), conversationId, role, content) ==> db.messages == old(db.messages)
    ensures !HasCopy(old(db.messages), conversationId, role, content) ==>
      CopyCount(db.messages, conversationId, role, content) == 1
  {
    var before, cs := db.messages, db.conversations;
    var dup := HasCopy(before, conversationId, role, content);
    a := db.AddMessage(conversationId, role, content, first);
    if dup {
      assert db.messages == before && db.conversations == cs;
    } else {
      var m := Message(a.id, conversationId, role, content, first);
      assert db.messages == before + [m];
      FirstCopyCountsOne(before, m);
      SameIdsFacts(cs, db.conversations);
    }
    var afterFirst := db.messages;
    b := db.AddMessage(conversationId, role, content, second);
    assert db.messages == afterFirst;
  }
}
