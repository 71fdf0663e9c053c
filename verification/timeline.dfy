/** The message window of one open conversation (the `useMessages` hook): an
    initial page of the 50 newest messages, older pages prepended through a
    `created_at` cursor, realtime inserts appended, and the send guard.
    Query results and realtime payloads are inputs; nothing here performs I/O. */
module Timeline {
  import opened Common
  import Text
  import Seqs

  /** Rows per page (`MESSAGES_PER_PAGE`). */
  const MessagesPerPage: nat := 50

  /** The sender's profile columns joined onto a message row. */
  datatype Sender = Sender(username: string, avatarUrl: Option<string>)

  /** A message row as the client selects it. */
  datatype Message = Message(
    id: MessageId,
    content: string,
    createdAt: int,
    senderId: UserId,
    isRead: bool,
    sender: Option<Sender>)

  /** The hook's state. */
  datatype Window = Window(
    messages: seq<Message>,
    loading: bool,
    hasMore: bool,
    error: Option<string>)

  /** The state on mount: no messages, loading, and more assumed to exist. */
  function Initial(): Window {
    Window([], true, true, None)
  }

  /** Oldest first, by creation time. */
  predicate Ascending(ms: seq<Message>) {
    forall i, j :: 0 <= i < j < |ms| ==> ms[i].createdAt <= ms[j].createdAt
  }

  /** Newest first, the order the query asks the database for. */
  predicate Descending(ms: seq<Message>) {
    forall i, j :: 0 <= i < j < |ms| ==> ms[i].createdAt >= ms[j].createdAt
  }

  /** `rows` is an answer the database may give to the page query with this
      cursor: newest first, at most one page, all strictly older than the cursor. */
  predicate AnswersPage(cursor: Option<int>, rows: seq<Message>) {
    && |rows| <= MessagesPerPage
    && Descending(rows)
    && (cursor.Some? ==> forall i :: 0 <= i < |rows| ==> rows[i].createdAt < cursor.value)
  }

  /** `fetchMessages(cursor)` once its query has answered: nothing happens without a
      conversation or a user; a page with no cursor replaces the window and a page
      with a cursor is put in front of it, in both cases reversed to oldest first;
      `hasMore` records whether the page was full; an error is recorded and leaves
      the window as it was. */
  function Fetch(w: Window, conversation: Option<ConversationId>, user: Option<UserId>,
                 cursor: Option<int>, reply: Reply<seq<Message>>): (r: Window)
    ensures conversation.None? || user.None? ==> r == w
    ensures conversation.Some? && user.Some? ==> !r.loading
    ensures conversation.Some? && user.Some? && reply.Data? ==>
      && r.hasMore == (|reply.value| == MessagesPerPage)
      && |r.messages| == |reply.value| + (if cursor.Some? then |w.messages| else 0)
      && (forall i :: 0 <= i < |reply.value| ==>
            r.messages[i] == reply.value[|reply.value| - 1 - i])
      && (cursor.Some? ==> r.messages[|reply.value|..] == w.messages)
      && r.error == w.error
    ensures conversation.Some? && user.Some? && reply.Error? ==>
      r == w.(loading := false, error := reply.message)
  {
    if conversation.None? || user.None? then w
    else
      match reply
      case Data(rows) =>
        var page := Seqs.Reverse(rows);
        var messages := if cursor.Some? then page + w.messages else page;
        w.(messages := messages, hasMore := |rows| == MessagesPerPage, loading := false)
      case Error(message) =>
        w.(loading := false, error := message)
  }

  /** A page the database sends newest first is shown oldest first. */
  lemma {:induction false} ReversedPageAscends(rows: seq<Message>)
    requires Descending(rows)
    ensures Ascending(Seqs.Reverse(rows))
  {
    var r := Seqs.Reverse(rows);
    forall i, j | 0 <= i < j < |r| ensures r[i].createdAt <= r[j].createdAt {
      assert r[i] == rows[|rows| - 1 - i] && r[j] == rows[|rows| - 1 - j];
    }
  }

  /** The initial fetch of a conversation shows exactly the page, oldest first. */
  lemma InitialFetchShowsPageOldestFirst(w: Window, conversation: ConversationId, user: UserId,
                                         rows: seq<Message>)
    requires AnswersPage(None, rows)
    ensures Fetch(w, Some(conversation), Some(user), None, Data(rows)).messages == Seqs.Reverse(rows)
    ensures Ascending(Fetch(w, Some(conversation), Some(user), None, Data(rows)).messages)
  {
    ReversedPageAscends(rows);
  }

  /** `loadMore`'s cursor: none when the window is empty or no more pages exist,
      otherwise the creation time of the oldest loaded message. */
  function LoadMoreCursor(w: Window): (c: Option<int>)
    ensures c.None? <==> |w.messages| == 0 || !w.hasMore
    ensures c.Some? ==> c.value == w.messages[0].createdAt
                        && forall i :: 0 <= i < |w.messages| && Ascending(w.messages) ==>
                             c.value <= w.messages[i].createdAt
  {
    if |w.messages| > 0 && w.hasMore then Some(w.messages[0].createdAt) else None
  }

  /** `loadMore` followed by the answer to the query it issued. */
  function LoadMore(w: Window, conversation: Option<ConversationId>, user: Option<UserId>,
                    reply: Reply<seq<Message>>): (r: Window)
    ensures LoadMoreCursor(w).None? ==> r == w
    ensures EndsWith(r.messages, w.messages)
  {
    match LoadMoreCursor(w)
    case None => w
    case Some(c) => Fetch(w, conversation, user, Some(c), reply)
  }

  /** A page that answers the cursor query keeps an ascending window ascending. */
  lemma {:induction false} LoadMoreKeepsAscending(w: Window, conversation: ConversationId, user: UserId,
                                                  rows: seq<Message>)
    requires Ascending(w.messages)
    requires AnswersPage(LoadMoreCursor(w), rows)
    ensures Ascending(LoadMore(w, Some(conversation), Some(user), Data(rows)).messages)
  {
    var r := LoadMore(w, Some(conversation), Some(user), Data(rows));
    if LoadMoreCursor(w).Some? {
      var c := LoadMoreCursor(w).value;
      var page := Seqs.Reverse(rows);
      ReversedPageAscends(rows);
      assert r.messages == page + w.messages;
      forall i, j | 0 <= i < j < |r.messages| ensures r.messages[i].createdAt <= r.messages[j].createdAt {
        if j < |page| {
        } else if i < |page| {
          assert page[i] == rows[|rows| - 1 - i];
          assert r.messages[j] == w.messages[j - |page|];
        } else {
          assert r.messages[i] == w.messages[i - |page|];
          assert r.messages[j] == w.messages[j - |page|];
        }
      }
    }
  }

  /** Repeated `loadMore`, each answered by `pages[k]`. */
  function LoadPages(w: Window, conversation: ConversationId, user: UserId,
                     pages: seq<seq<Message>>): Window
    decreases |pages|
  {
    if |pages| == 0 then w
    else LoadPages(LoadMore(w, Some(conversation), Some(user), Data(pages[0])), conversation, user, pages[1..])
  }

  /** Every page in `pages` answers the cursor query in force when it arrives. */
  predicate HonestPages(w: Window, conversation: ConversationId, user: UserId,
                        pages: seq<seq<Message>>)
    decreases |pages|
  {
    |pages| == 0 ||
    (AnswersPage(LoadMoreCursor(w), pages[0]) &&
     HonestPages(LoadMore(w, Some(conversation), Some(user), Data(pages[0])), conversation, user, pages[1..]))
  }

  /** Any run of older-page loads keeps the window ascending. */
  lemma {:induction false} PaginationKeepsAscending(w: Window, conversation: ConversationId, user: UserId,
                                                    pages: seq<seq<Message>>)
    requires Ascending(w.messages)
    requires HonestPages(w, conversation, user, pages)
    ensures Ascending(LoadPages(w, conversation, user, pages).messages)
    decreases |pages|
  {
    if |pages| > 0 {
      var next := LoadMore(w, Some(conversation), Some(user), Data(pages[0]));
      assert HonestPages(next, conversation, user, pages[1..]);
      LoadMoreKeepsAscending(w, conversation, user, pages[0]);
      PaginationKeepsAscending(next, conversation, user, pages[1..]);
    }
  }

  /** Whatever pages arrive, the messages loaded before survive unchanged at the
      end of the window. */
  lemma {:induction false} PaginationKeepsLoaded(w: Window, conversation: ConversationId, user: UserId,
                                                 pages: seq<seq<Message>>)
    ensures EndsWith(LoadPages(w, conversation, user, pages).messages, w.messages)
    decreases |pages|
  {
    if |pages| > 0 {
      var next := LoadMore(w, Some(conversation), Some(user), Data(pages[0]));
      assert LoadPages(w, conversation, user, pages) == LoadPages(next, conversation, user, pages[1..]);
      PaginationKeepsLoaded(next, conversation, user, pages[1..]);
      EndsWithTransitive(LoadPages(next, conversation, user, pages[1..]).messages, next.messages, w.messages);
    }
  }

  /** `a` ends with `b`. */
  ghost predicate EndsWith<T>(a: seq<T>, b: seq<T>) {
    |b| <= |a| && a[|a| - |b|..] == b
  }

  lemma EndsWithTransitive<T>(a: seq<T>, b: seq<T>, c: seq<T>)
    requires EndsWith(a, b) && EndsWith(b, c)
    ensures EndsWith(a, c)
  {
    assert a[|a| - |c|..] == a[|a| - |b|..][|b| - |c|..];
  }

  /** The realtime handler once its follow-up select has answered: a row found is
      appended, a missing row changes nothing. There is no check for an id that is
      already in the window. */
  function OnRealtimeInsert(w: Window, row: Option<Message>): (r: Window)
    ensures row.None? ==> r == w
    ensures row.Some? ==> |r.messages| == |w.messages| + 1
                          && r.messages[..|w.messages|] == w.messages
                          && r.messages[|w.messages|] == row.value
    ensures r.loading == w.loading && r.hasMore == w.hasMore && r.error == w.error
  {
    match row
    case None => w
    case Some(m) => w.(messages := w.messages + [m])
  }

  /** Delivering the same insert twice shows the message twice: the window is not
      deduplicated by id. */
  lemma RealtimeDuplicatesRedelivery(w: Window, m: Message)
    ensures var r := OnRealtimeInsert(OnRealtimeInsert(w, Some(m)), Some(m));
            multiset(r.messages)[m] == multiset(w.messages)[m] + 2
  {
    assert OnRealtimeInsert(OnRealtimeInsert(w, Some(m)), Some(m)).messages == w.messages + [m] + [m];
  }

  /** An insert no older than the newest loaded message keeps the window ascending. */
  lemma RealtimeKeepsAscending(w: Window, m: Message)
    requires Ascending(w.messages)
    requires |w.messages| > 0 ==> w.messages[|w.messages| - 1].createdAt <= m.createdAt
    ensures Ascending(OnRealtimeInsert(w, Some(m)).messages)
  {
  }

  /** The effect that runs when the conversation id changes: with no conversation
      the window is emptied; otherwise a fresh fetch starts (when a user is signed
      in), and the old messages stay on screen until its answer arrives. */
  function OnConversationChange(w: Window, conversation: Option<ConversationId>, user: Option<UserId>): (r: Window)
    ensures conversation.None? ==> r.messages == [] && r.hasMore == w.hasMore && r.loading == w.loading
    ensures conversation.Some? ==> r.messages == w.messages && r.hasMore == w.hasMore
    ensures conversation.Some? && user.Some? ==> r.loading
    ensures r.error == w.error
  {
    if conversation.None? then w.(messages := [])
    else if user.None? then w
    else w.(loading := true)
  }

  /** Switching to a conversation and receiving its first page shows that page
      alone, oldest first: nothing of the previous conversation survives. */
  lemma SwitchShowsOnlyNewPage(w: Window, conversation: ConversationId, user: UserId, rows: seq<Message>)
    requires AnswersPage(None, rows)
    ensures var r := Fetch(OnConversationChange(w, Some(conversation), Some(user)),
                           Some(conversation), Some(user), None, Data(rows));
            r.messages == Seqs.Reverse(rows) && Ascending(r.messages) && !r.loading
  {
    ReversedPageAscends(rows);
  }

  /** With no conversation the window is empty and no answer can refill it. */
  lemma NoConversationStaysEmpty(w: Window, user: Option<UserId>, cursor: Option<int>,
                                 reply: Reply<seq<Message>>)
    ensures var r := OnConversationChange(w, None, user);
            r.messages == [] && Fetch(r, None, user, cursor, reply).messages == []
  {
  }

  /** The row `sendMessage` inserts. */
  datatype NewMessage = NewMessage(conversation: ConversationId, sender: UserId, content: string)

  /** How a call of `sendMessage` ends. */
  datatype SendResult =
    | Skipped                                              // returned before any insert
    | Sent(row: NewMessage)                                // the insert succeeded
    | SendFailed(row: NewMessage, message: Option<string>) // the insert's error is rethrown

  /** `sendMessage(content)`: no insert without a conversation, a user or
      non-blank content; otherwise the trimmed content is inserted as the current
      user's message, and the insert's error is passed on to the caller. */
  function SendMessage(conversation: Option<ConversationId>, user: Option<UserId>, content: string,
                       reply: Reply<()>): (r: SendResult)
    ensures r.Skipped? <==> conversation.None? || user.None? || Text.IsBlank(content)
    ensures !r.Skipped? ==>
      && r.row.conversation == conversation.value
      && r.row.sender == user.value
      && r.row.content == Text.Trim(content)
      && |r.row.content| > 0
    ensures r.SendFailed? <==> !r.Skipped? && reply.Error?
  {
    if conversation.None? || user.None? || Text.Trim(content) == [] then Skipped
    else
      var row := NewMessage(conversation.value, user.value, Text.Trim(content));
      match reply
      case Data(_) => Sent(row)
      case Error(message) => SendFailed(row, message)
  }
}
