/**
 * The conversation sidebar: the list of the user's recent conversations, the title shown for
 * each, starting a new conversation and deleting one.
 */
module Sidebar {
  import opened Wrappers
  import opened Chat
  import opened Ordering
  import opened Database

  /** How many conversations the sidebar asks for. */
  const ListLimit: nat := 50

  /** The time a conversation was last updated, the key the list is ordered by. */
  function UpdatedAt(row: ConversationRow): nat {
    row.updatedAt
  }

  /**
   * The list query: the user's conversations, most recently updated first, 50 of them or all
   * when there are fewer, no row more often than it is stored; a conversation of the user's that is
   * left out is no newer than any shown.
   */
  function RecentConversations(rows: seq<ConversationRow>, userId: string): (r: seq<ConversationRow>)
    ensures var own := Filter(rows, (row: ConversationRow) => row.userId == userId);
      |r| == if |own| <= ListLimit then |own| else ListLimit
    ensures multiset(r) <= multiset(Filter(rows, (row: ConversationRow) => row.userId == userId))
    ensures forall x | x in r :: x in rows && x.userId == userId
    ensures NewestFirst(r, UpdatedAt)
    ensures forall x, y | x in rows && x.userId == userId && x !in r && y in r :: UpdatedAt(y) >= UpdatedAt(x)
  {
    var own := Filter(rows, (row: ConversationRow) => row.userId == userId);
    var sorted := SortNewestFirst(own, UpdatedAt);
    SortKeepsMembers(own, UpdatedAt);
    LimitNewestFirst(sorted, ListLimit, UpdatedAt);
    LimitKeepsNewest(sorted, ListLimit, UpdatedAt);
    Limit(sorted, ListLimit)
  }

  /** A user with at most 50 conversations sees every one of them, each as often as it is stored. */
  lemma RecentListsAllOfFewConversations(rows: seq<ConversationRow>, userId: string)
    requires |Filter(rows, (row: ConversationRow) => row.userId == userId)| <= ListLimit
    ensures multiset(RecentConversations(rows, userId)) == multiset(Filter(rows, (row: ConversationRow) => row.userId == userId))
  {
  }

  /**
   * `getConversationTitle`: a truthy stored title; otherwise the title derived from the first
   * message; `New Conversation` when there are no messages or when deriving throws.
   */
  function ConversationTitle(conversation: ConversationRow): (r: string)
    ensures Truthy(conversation.title) ==> r == conversation.title.value
    ensures !Truthy(conversation.title) && (conversation.messages.None? || conversation.messages.value == []) ==> r == NewConversation
    ensures (&& !Truthy(conversation.title) && conversation.messages.Some? && conversation.messages.value != []
             && conversation.messages.value[0].content.OtherValue?) ==> r == NewConversation
  {
    if Truthy(conversation.title) then conversation.title.value
    else
      var messages := if conversation.messages.Some? then conversation.messages.value else [];
      if |messages| > 0 then
        match FirstMessageTitle(messages)
        case Success(t) => t
        case Failure(_) => NewConversation
      else NewConversation
  }

  /**
   * The sidebar and the data layer derive the same title from the same messages: without a
   * stored title, the sidebar shows what a create without a title would have stored, whenever
   * the derivation does not throw.
   */
  lemma TitlesAgree(conversation: ConversationRow)
    requires !Truthy(conversation.title) && conversation.messages.Some?
    requires CreateTitle(conversation.messages.value, None).Success?
    ensures ConversationTitle(conversation) == CreateTitle(conversation.messages.value, None).value
  {
  }

  /** A conversation the data layer created shows the title it was stored with. */
  lemma CreatedConversationShowsStoredTitle(db: Tables, userId: string, messages: seq<Message>, tool: string,
                                            title: Option<string>, now: Timestamp, createdNow: Timestamp, newId: string, outage: Option<string>)
    ensures var r := SaveConversation(db, userId, None, messages, tool, title, now, createdNow, newId, outage);
      r.result.Success? ==> r.result.value.title.Some? && ConversationTitle(r.result.value) == r.result.value.title.value
  {
    var r := SaveConversation(db, userId, None, messages, tool, title, now, createdNow, newId, outage);
    if r.result.Success? {
      var row := r.result.value;
      assert CreateTitle(messages, title) == Success(row.title.value);
      if !Truthy(row.title) {
        assert messages != [];
      }
    }
  }

  /** `delete().eq('id', id).eq('user_id', userId)`: every row with this id and owner goes, and only those. */
  function DeleteConversationRows(db: Tables, id: string, userId: string): (r: Tables)
    ensures forall x | x in r.conversations :: !(x.id == id && x.userId == userId)
    ensures forall x | x in db.conversations && !(x.id == id && x.userId == userId) :: x in r.conversations
    ensures forall x | x in r.conversations :: x in db.conversations
    ensures r.activity == db.activity && r.customTools == db.customTools
  {
    db.(conversations := Filter(db.conversations, (row: ConversationRow) => !(row.id == id && row.userId == userId)))
  }

  /** The sidebar's state, and the conversation selected in the chat (`None` for a new one). */
  class SidebarView {
    var conversations: seq<ConversationRow>
    var loading: bool
    var current: Option<string>

    /** A sidebar that has not loaded yet: an empty list, loading. */
    constructor(current: Option<string>)
      ensures conversations == [] && loading && this.current == current
    {
      conversations := [];
      loading := true;
      this.current := current;
    }

    /** `loadConversations`: the recent list on success; on failure the previous list stays. Loading ends either way. */
    method LoadConversations(db: Tables, userId: string, outage: Option<string>)
      modifies this
      ensures outage.None? ==> conversations == RecentConversations(db.conversations, userId)
      ensures outage.Some? ==> conversations == old(conversations)
      ensures !loading && current == old(current)
    {
      loading := true;
      if outage.None? {
        conversations := RecentConversations(db.conversations, userId);
      }
      loading := false;
    }

    /** `createNewConversation`: select no conversation; the list is untouched. */
    method CreateNewConversation()
      modifies this
      ensures current == None
      ensures conversations == old(conversations) && loading == old(loading)
    {
      current := None;
    }

    /**
     * `deleteConversation`: nothing happens unless the user confirms. A failed delete alerts and
     * changes nothing. A successful one reloads the list and, when the deleted conversation was
     * the selected one, selects a new conversation; any other selection stays.
     */
    method DeleteConversation(db: Tables, id: string, userId: string, confirmed: bool,
                              deleteOutage: Option<string>, loadOutage: Option<string>)
      returns (after: Tables, alerted: bool)
      modifies this
      ensures !confirmed ==> after == db && !alerted && unchanged(this)
      ensures confirmed && deleteOutage.Some? ==> after == db && alerted && unchanged(this)
      ensures confirmed && deleteOutage.None? ==>
        && after == DeleteConversationRows(db, id, userId) && !alerted && !loading
        && (loadOutage.None? ==> conversations == RecentConversations(after.conversations, userId))
        && (loadOutage.Some? ==> conversations == old(conversations))
        && current == (if old(current) == Some(id) then None else old(current))
    {
      after, alerted := db, false;
      if !confirmed {
        return;
      }
      if deleteOutage.Some? {
        alerted := true;
        return;
      }
      after := DeleteConversationRows(db, id, userId);
      LoadConversations(after, userId, loadOutage);
      if current == Some(id) {
        current := None;
      }
    }
  }
}
