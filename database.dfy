/**
 * The client's data layer: the three hosted tables it writes (conversations, user activity and
 * custom tools) as values, and the operations of the data-access module over them, each with
 * the error policy of its source: saving and loading a conversation rethrow, tracking activity
 * never throws, loading custom tools falls back to an empty list.
 *
 * The hosted service is reduced to what the client relies on: rows, unique generated ids,
 * filters on equal columns, `.single()` failing unless exactly one row answers, newest-first
 * ordering, and an optional outage that makes a call return an error and change nothing.
 */
module Database {
  import opened Wrappers
  import opened JsString
  import opened Chat
  import opened Ordering

  /** A point in time, in milliseconds; the client stores `new Date().toISOString()` of it. */
  type Timestamp = nat

  /** A row of `conversations`; `messages` is `null` when absent. */
  datatype ConversationRow = ConversationRow(
    id: string, userId: string, messages: Option<seq<Message>>, tool: string,
    title: Option<string>, createdAt: Timestamp, updatedAt: Timestamp)

  /** A row of `user_activity`; `metadata` is the serialised metadata object. */
  datatype ActivityRow = ActivityRow(userId: string, activityType: string, metadata: string, createdAt: Timestamp)

  /** A training document as stored with a custom tool. */
  datatype TrainingDoc = TrainingDoc(name: string, mime: string, content: string, isText: bool, isImage: bool)

  /** A row of `custom_tools`. */
  datatype CustomToolRow = CustomToolRow(
    id: string, name: string, prompt: string, trainingDocuments: seq<TrainingDoc>,
    createdBy: string, createdAt: Timestamp)

  /** The hosted tables the client writes. */
  datatype Tables = Tables(conversations: seq<ConversationRow>, activity: seq<ActivityRow>, customTools: seq<CustomToolRow>)

  /** The fields `saveConversation` sends: always the owner, messages, tool and update time; a title and a creation time only in some cases. */
  datatype ConversationData = ConversationData(
    userId: string, messages: seq<Message>, tool: string, updatedAt: Timestamp,
    title: Option<string>, createdAt: Option<Timestamp>)

  /** What a call that can throw answers, and the tables after it. */
  datatype Reply<T> = Reply(result: Result<T>, db: Tables)

  /** The error of `.single()` when no row (or more than one) answers. */
  const SingleRowError: string := "JSON object requested, multiple (or no) rows returned"
  /** The error of an insert whose generated id is already taken. */
  const DuplicateKeyError: string := "duplicate key value violates unique constraint"

  /** No two conversations and no two custom tools share an id (they are primary keys). */
  predicate UniqueIds(db: Tables) {
    && (forall i, j :: 0 <= i < j < |db.conversations| ==> db.conversations[i].id != db.conversations[j].id)
    && (forall i, j :: 0 <= i < j < |db.customTools| ==> db.customTools[i].id != db.customTools[j].id)
  }

  /** The title a new conversation gets: the explicit one, `New Conversation` without messages, else the first message's derived title. */
  function CreateTitle(messages: seq<Message>, title: Option<string>): (r: Result<string>)
    ensures Truthy(title) ==> r == Success(title.value)
    ensures !Truthy(title) && messages == [] ==> r == Success(NewConversation)
    ensures !Truthy(title) && messages != [] ==> r == FirstMessageTitle(messages)
  {
    if Truthy(title) then Success(title.value)
    else if messages == [] then Success(NewConversation)
    else FirstMessageTitle(messages)
  }

  /**
   * The record `saveConversation` sends. An update (a truthy conversation id) carries the title
   * only when one is given and never derives one; a create carries a title (given or derived)
   * and a creation time. Deriving the title throws when the first message's content is neither
   * a string, an array nor missing. The clock is read twice: `now` for the update time, before
   * the title is derived, and `createdNow` for the creation time, after it.
   */
  function BuildConversationData(userId: string, conversationId: Option<string>, messages: seq<Message>,
                                 tool: string, title: Option<string>, now: Timestamp, createdNow: Timestamp): (r: Result<ConversationData>)
    ensures r.Success? ==> r.value.userId == userId && r.value.messages == messages && r.value.tool == tool && r.value.updatedAt == now
    ensures r.Success? ==> (r.value.createdAt.Some? <==> !Truthy(conversationId))
    ensures r.Success? && r.value.createdAt.Some? ==> r.value.createdAt.value == createdNow
    ensures Truthy(conversationId) ==> r.Success? && r.value.title == (if Truthy(title) then title else None)
    ensures !Truthy(conversationId) && r.Success? ==> r.value.title.Some? && CreateTitle(messages, title) == Success(r.value.title.value)
    ensures r.Failure? <==> !Truthy(conversationId) && CreateTitle(messages, title).Failure?
  {
    if Truthy(conversationId) then
      Success(ConversationData(userId, messages, tool, now, if Truthy(title) then title else None, None))
    else
      match CreateTitle(messages, title)
      case Success(t) => Success(ConversationData(userId, messages, tool, now, Some(t), Some(createdNow)))
      case Failure(e) => Failure(e)
  }

  /** Title derivation fails exactly when a create without a title meets a first message whose content has no `find`. */
  lemma BuildFailsOnlyOnOddContent(userId: string, conversationId: Option<string>, messages: seq<Message>,
                                   tool: string, title: Option<string>, now: Timestamp, createdNow: Timestamp)
    ensures BuildConversationData(userId, conversationId, messages, tool, title, now, createdNow).Failure?
      <==> !Truthy(conversationId) && !Truthy(title) && messages != [] && messages[0].content.OtherValue?
  {
  }

  /** The index of the conversation with this id and owner, if there is one. */
  function FindConversation(rows: seq<ConversationRow>, id: string, userId: string): (r: Option<nat>)
    ensures r.Some? ==> r.value < |rows| && rows[r.value].id == id && rows[r.value].userId == userId
    ensures r.None? ==> forall k :: 0 <= k < |rows| ==> !(rows[k].id == id && rows[k].userId == userId)
    ensures r.Some? ==> forall k :: 0 <= k < r.value ==> !(rows[k].id == id && rows[k].userId == userId)
    decreases |rows|
  {
    if rows == [] then None
    else if rows[0].id == id && rows[0].userId == userId then Some(0)
    else match FindConversation(rows[1..], id, userId)
      case None => None
      case Some(k) => Some(k + 1)
  }

  /** Some conversation already has this id. */
  predicate ConversationIdTaken(rows: seq<ConversationRow>, id: string) {
    exists k :: 0 <= k < |rows| && rows[k].id == id
  }

  /** A row after `.update(data)`: the sent fields replace the stored ones; the creation time and an unsent title stay. */
  function Updated(row: ConversationRow, data: ConversationData): ConversationRow {
    row.(userId := data.userId, messages := Some(data.messages), tool := data.tool, updatedAt := data.updatedAt,
         title := if data.title.Some? then data.title else row.title)
  }

  /**
   * `saveConversation`: an update of the caller's own conversation with that id, or an insert
   * under the generated id `newId`. It throws when the title cannot be derived, when the service
   * reports `outage`, when the update finds no row of this id and owner, or when the insert's id
   * is taken; whenever it throws, the tables are unchanged.
   */
  function SaveConversation(db: Tables, userId: string, conversationId: Option<string>, messages: seq<Message>,
                            tool: string, title: Option<string>, now: Timestamp, createdNow: Timestamp, newId: string,
                            outage: Option<string>): (r: Reply<ConversationRow>)
    ensures r.result.Failure? ==> r.db == db
    ensures r.db.activity == db.activity && r.db.customTools == db.customTools
    ensures r.result.Success? ==>
      && r.result.value.userId == userId && r.result.value.messages == Some(messages)
      && r.result.value.tool == tool && r.result.value.updatedAt == now
  {
    match BuildConversationData(userId, conversationId, messages, tool, title, now, createdNow)
    case Failure(e) => Reply(Failure(e), db)
    case Success(data) =>
      if outage.Some? then Reply(Failure(outage.value), db)
      else if Truthy(conversationId) then
        match FindConversation(db.conversations, conversationId.value, userId)
        case None => Reply(Failure(SingleRowError), db)
        case Some(k) =>
          var row := Updated(db.conversations[k], data);
          Reply(Success(row), db.(conversations := db.conversations[k := row]))
      else if ConversationIdTaken(db.conversations, newId) then Reply(Failure(DuplicateKeyError), db)
      else
        var row := ConversationRow(newId, userId, Some(messages), tool, data.title, createdNow, now);
        Reply(Success(row), db.(conversations := db.conversations + [row]))
  }

  /** `loadConversation`: the one conversation with this id and owner, or the error it throws. */
  function LoadConversation(db: Tables, conversationId: string, userId: string, outage: Option<string>): (r: Result<ConversationRow>)
    ensures r.Success? ==> r.value in db.conversations && r.value.id == conversationId && r.value.userId == userId
    ensures outage.None? && r.Failure? ==> forall k :: 0 <= k < |db.conversations| ==>
      !(db.conversations[k].id == conversationId && db.conversations[k].userId == userId)
  {
    if outage.Some? then Failure(outage.value)
    else match FindConversation(db.conversations, conversationId, userId)
      case None => Failure(SingleRowError)
      case Some(k) => Success(db.conversations[k])
  }

  /** An update changes only the caller's row with that id, and leaves its creation time. */
  lemma UpdateTouchesOnlyOwnRow(db: Tables, userId: string, conversationId: Option<string>, messages: seq<Message>,
                                tool: string, title: Option<string>, now: Timestamp, createdNow: Timestamp, newId: string, outage: Option<string>)
    requires Truthy(conversationId)
    ensures var r := SaveConversation(db, userId, conversationId, messages, tool, title, now, createdNow, newId, outage);
      && |r.db.conversations| == |db.conversations|
      && (forall k :: 0 <= k < |db.conversations| && r.db.conversations[k] != db.conversations[k] ==>
            && db.conversations[k].id == conversationId.value && db.conversations[k].userId == userId
            && r.db.conversations[k].createdAt == db.conversations[k].createdAt
            && r.db.conversations[k].title == (if Truthy(title) then title else db.conversations[k].title))
      && (r.result.Success? ==> r.result.value.id == conversationId.value)
  {
  }

  /**
   * Without an outage, an update succeeds exactly when the caller owns a conversation with that
   * id; the first such row then gets the messages, tool and update time given and the title if
   * one is given, keeps its id and creation time, and is returned. Otherwise nothing changes.
   */
  lemma UpdateRecord(db: Tables, userId: string, conversationId: Option<string>, messages: seq<Message>,
                     tool: string, title: Option<string>, now: Timestamp, createdNow: Timestamp, newId: string)
    requires Truthy(conversationId)
    ensures var r := SaveConversation(db, userId, conversationId, messages, tool, title, now, createdNow, newId, None);
      var found := FindConversation(db.conversations, conversationId.value, userId);
      && (r.result.Success? <==>
            exists k :: 0 <= k < |db.conversations| && db.conversations[k].id == conversationId.value && db.conversations[k].userId == userId)
      && (found.Some? ==>
            var row := db.conversations[found.value];
            && r.result == Success(row.(messages := Some(messages), tool := tool, updatedAt := now,
                                        title := if Truthy(title) then title else row.title))
            && r.db == db.(conversations := db.conversations[found.value := r.result.value]))
      && (found.None? ==> r == Reply(Failure(SingleRowError), db))
  {
    var found := FindConversation(db.conversations, conversationId.value, userId);
    if found.Some? {
      var k := found.value;
      assert db.conversations[k].id == conversationId.value && db.conversations[k].userId == userId;
    }
  }

  /** Saving keeps conversation and tool ids unique. */
  lemma SaveKeepsIdsUnique(db: Tables, userId: string, conversationId: Option<string>, messages: seq<Message>,
                           tool: string, title: Option<string>, now: Timestamp, createdNow: Timestamp, newId: string, outage: Option<string>)
    requires UniqueIds(db)
    ensures UniqueIds(SaveConversation(db, userId, conversationId, messages, tool, title, now, createdNow, newId, outage).db)
  {
    var r := SaveConversation(db, userId, conversationId, messages, tool, title, now, createdNow, newId, outage);
    if r.result.Success? && !Truthy(conversationId) {
      assert r.db.conversations[|db.conversations|].id == newId;
    }
  }

  /**
   * A conversation that was saved loads back as the row the save returned, for its owner, as
   * long as ids are unique.
   */
  lemma SaveThenLoad(db: Tables, userId: string, conversationId: Option<string>, messages: seq<Message>,
                     tool: string, title: Option<string>, now: Timestamp, createdNow: Timestamp, newId: string, outage: Option<string>)
    requires UniqueIds(db)
    ensures var r := SaveConversation(db, userId, conversationId, messages, tool, title, now, createdNow, newId, outage);
      r.result.Success? ==> LoadConversation(r.db, r.result.value.id, userId, None) == r.result
  {
    var r := SaveConversation(db, userId, conversationId, messages, tool, title, now, createdNow, newId, outage);
    if r.result.Success? {
      SaveKeepsIdsUnique(db, userId, conversationId, messages, tool, title, now, createdNow, newId, outage);
      var rows := r.db.conversations;
      var row := r.result.value;
      var k: nat := if Truthy(conversationId) then FindConversation(db.conversations, conversationId.value, userId).value else |db.conversations|;
      assert rows[k] == row;
      assert FindConversation(rows, row.id, userId) == Some(k);
    }
  }

  /**
   * A created conversation carries the second clock reading as its creation time, the first as
   * its update time, and the title
   * rule: the explicit title, or `New Conversation` without messages, or the derived one.
   */
  lemma CreateRecord(db: Tables, userId: string, messages: seq<Message>, tool: string, title: Option<string>,
                     now: Timestamp, createdNow: Timestamp, newId: string, outage: Option<string>)
    requires outage.None? && !ConversationIdTaken(db.conversations, newId)
    requires !(!Truthy(title) && messages != [] && messages[0].content.OtherValue?)
    ensures var r := SaveConversation(db, userId, None, messages, tool, title, now, createdNow, newId, outage);
      && r.result.Success?
      && r.db.conversations == db.conversations + [r.result.value]
      && r.result.value.id == newId && r.result.value.createdAt == createdNow && r.result.value.updatedAt == now
      && Some(r.result.value.title.value) == (if Truthy(title) then title
           else if messages == [] then Some(NewConversation)
           else Some(FirstMessageTitle(messages).value))
  {
  }

  /** `trackUserActivity`: one activity row on success; on an outage the error is swallowed and nothing changes. It never throws. */
  function TrackUserActivity(db: Tables, userId: string, activityType: string, metadata: string,
                             now: Timestamp, outage: Option<string>): (r: Tables)
    ensures r.conversations == db.conversations && r.customTools == db.customTools
    ensures outage.Some? ==> r.activity == db.activity
    ensures outage.None? ==> r.activity == db.activity + [ActivityRow(userId, activityType, metadata, now)]
  {
    if outage.Some? then db
    else db.(activity := db.activity + [ActivityRow(userId, activityType, metadata, now)])
  }

  /** The creation time of a custom tool, the key `loadCustomTools` orders by. */
  function ToolCreatedAt(row: CustomToolRow): nat {
    row.createdAt
  }

  /** `loadCustomTools`: every custom tool, newest first; the empty list on an outage. */
  function LoadCustomTools(db: Tables, outage: Option<string>): (r: seq<CustomToolRow>)
    ensures outage.Some? ==> r == []
    ensures outage.None? ==> NewestFirst(r, ToolCreatedAt) && multiset(r) == multiset(db.customTools)
  {
    if outage.Some? then [] else SortNewestFirst(db.customTools, ToolCreatedAt)
  }

  /** Some custom tool already has this id. */
  predicate ToolIdTaken(rows: seq<CustomToolRow>, id: string) {
    exists k :: 0 <= k < |rows| && rows[k].id == id
  }

  /** An insert into `custom_tools` with `.select().single()`: the new row, or the error and no change. */
  function InsertCustomTool(db: Tables, name: string, prompt: string, docs: seq<TrainingDoc>, userId: string,
                            now: Timestamp, newId: string, outage: Option<string>): (r: Reply<CustomToolRow>)
    ensures r.result.Failure? ==> r.db == db
    ensures r.result.Success? ==> r.db == db.(customTools := db.customTools + [r.result.value])
    ensures r.result.Success? ==> r.result.value == CustomToolRow(newId, name, prompt, docs, userId, now)
    ensures r.result.Success? <==> outage.None? && !ToolIdTaken(db.customTools, newId)
  {
    if outage.Some? then Reply(Failure(outage.value), db)
    else if ToolIdTaken(db.customTools, newId) then Reply(Failure(DuplicateKeyError), db)
    else
      var row := CustomToolRow(newId, name, prompt, docs, userId, now);
      Reply(Success(row), db.(customTools := db.customTools + [row]))
  }

  /** `saveCustomTool`: the name and prompt are stored trimmed; errors are rethrown. */
  function SaveCustomTool(db: Tables, name: string, prompt: string, docs: seq<TrainingDoc>, userId: string,
                          now: Timestamp, newId: string, outage: Option<string>): (r: Reply<CustomToolRow>)
    ensures r.result.Success? ==> r.result.value.name == Trim(name) && r.result.value.prompt == Trim(prompt)
    ensures r.result.Failure? ==> r.db == db
  {
    InsertCustomTool(db, Trim(name), Trim(prompt), docs, userId, now, newId, outage)
  }

  /** A stored tool's name and prompt have no whitespace at either end, and saving them again stores the same. */
  lemma SavedToolTrimmed(db: Tables, name: string, prompt: string, docs: seq<TrainingDoc>, userId: string,
                         now: Timestamp, newId: string, outage: Option<string>)
    ensures var r := SaveCustomTool(db, name, prompt, docs, userId, now, newId, outage);
      r.result.Success? ==>
        && (r.result.value.name != [] ==> !IsSpace(r.result.value.name[0]) && !IsSpace(r.result.value.name[|r.result.value.name| - 1]))
        && SaveCustomTool(db, r.result.value.name, r.result.value.prompt, docs, userId, now, newId, outage) == r
  {
    TrimIdempotent(name);
    TrimIdempotent(prompt);
  }
}
