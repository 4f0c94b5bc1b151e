/** Conversations and their messages.  A conversation belongs to the user who
    started it; one scoped to a project can only be started by the project's
    owner. */
module Conversations {
  import opened Wrappers
  import opened Index
  import opened Schema

  /** `take(50)` on both listings. */
  const ListLimit: nat := 50

  /** A conversation with its messages, as `get` returns it. */
  datatype ConversationView = ConversationView(conversation: Conversation, messages: seq<Doc<Message>>)

  /** The conversations of project `pid`: the `by_project` index. */
  function OfProject(conversations: map<Id, Conversation>, pid: Id): set<Id> {
    set k | k in conversations && conversations[k].projectId == Some(pid)
  }

  /** The conversations of user `userId`: the `by_user_updated` index. */
  function OfUser(conversations: map<Id, Conversation>, userId: string): set<Id> {
    set k | k in conversations && conversations[k].userId == userId
  }

  /** The messages of any of the conversations `convs`. */
  function MessagesIn(messages: map<Id, Message>, convs: set<Id>): set<Id> {
    set k | k in messages && messages[k].conversationId in convs
  }

  /** Creation time as an index key: ids grow with creation. */
  function CreationKey(s: set<Id>): map<Id, int> {
    map k | k in s :: k
  }

  function UpdatedKey(conversations: map<Id, Conversation>): map<Id, int> {
    map k | k in conversations :: conversations[k].updatedAt
  }

  function CreatedKey(messages: map<Id, Message>): map<Id, int> {
    map k | k in messages :: messages[k].createdAt
  }

  /** `list` with a project: the project's 50 latest conversations, newest
      first, and nothing unless the caller owns the project. */
  function ListOfProject(db: Database, caller: Option<string>, projectId: Id): (r: seq<Doc<Conversation>>)
    reads db
    requires db.Valid()
    ensures !OwnsProject(db.projects, caller, projectId) ==> r == []
    ensures |r| <= ListLimit
    ensures forall i :: 0 <= i < |r| ==>
      r[i].id in db.conversations && r[i].value == db.conversations[r[i].id] && r[i].value.projectId == Some(projectId)
    ensures forall i, j :: 0 <= i < j < |r| ==> r[j].id < r[i].id
    ensures OwnsProject(db.projects, caller, projectId) ==>
      forall k :: k in OfProject(db.conversations, projectId) && Doc(k, db.conversations[k]) !in r ==>
        |r| == ListLimit && forall i :: 0 <= i < |r| ==> k < r[i].id
  {
    if !OwnsProject(db.projects, caller, projectId) then []
    else
      var s := OfProject(db.conversations, projectId);
      LatestDocs(s, db.nextId, CreationKey(s), ListLimit, db.conversations)
  }

  /** `list` without a project: the caller's 50 most recently updated
      conversations, latest first. */
  function ListOfUser(db: Database, caller: Option<string>): (r: seq<Doc<Conversation>>)
    reads db
    requires db.Valid()
    ensures !SignedIn(caller) ==> r == []
    ensures |r| <= ListLimit
    ensures forall i :: 0 <= i < |r| ==>
      r[i].id in db.conversations && r[i].value == db.conversations[r[i].id] && r[i].value.userId == caller.value
    ensures forall i, j :: 0 <= i < j < |r| ==>
      r[j].value.updatedAt < r[i].value.updatedAt || (r[j].value.updatedAt == r[i].value.updatedAt && r[j].id < r[i].id)
    ensures SignedIn(caller) ==>
      forall k :: k in OfUser(db.conversations, caller.value) && Doc(k, db.conversations[k]) !in r ==>
        |r| == ListLimit && forall i :: 0 <= i < |r| ==> db.conversations[k].updatedAt <= r[i].value.updatedAt
  {
    if !SignedIn(caller) then []
    else LatestDocs(OfUser(db.conversations, caller.value), db.nextId, UpdatedKey(db.conversations), ListLimit, db.conversations)
  }

  /** `list`: scoped to a project when one is given, else to the caller. */
  function List(db: Database, caller: Option<string>, projectId: Option<Id>): (r: seq<Doc<Conversation>>)
    reads db
    requires db.Valid()
    ensures !SignedIn(caller) ==> r == []
    ensures |r| <= ListLimit
    ensures forall i :: 0 <= i < |r| ==> r[i].id in db.conversations && r[i].value == db.conversations[r[i].id]
    ensures projectId.Some? ==> r == ListOfProject(db, caller, projectId.value)
    ensures projectId.None? ==> r == ListOfUser(db, caller)
  {
    if !SignedIn(caller) then []
    else if projectId.Some? then ListOfProject(db, caller, projectId.value)
    else ListOfUser(db, caller)
  }

  /** `get`: the caller's conversation with all its messages, oldest first. */
  function Get(db: Database, caller: Option<string>, id: Id): (r: Option<ConversationView>)
    reads db
    requires db.Valid()
    ensures r.Some? <==> OwnsConversation(db.conversations, caller, id)
    ensures r.Some? ==> r.value.conversation == db.conversations[id]
    ensures r.Some? ==> forall i :: 0 <= i < |r.value.messages| ==>
      r.value.messages[i].id in db.messages && r.value.messages[i].value == db.messages[r.value.messages[i].id]
      && r.value.messages[i].value.conversationId == id
    ensures r.Some? ==> forall k :: k in db.messages && db.messages[k].conversationId == id ==>
      Doc(k, db.messages[k]) in r.value.messages
    ensures r.Some? ==> forall i, j :: 0 <= i < j < |r.value.messages| ==>
      r.value.messages[i].value.createdAt < r.value.messages[j].value.createdAt
      || (r.value.messages[i].value.createdAt == r.value.messages[j].value.createdAt
          && r.value.messages[i].id < r.value.messages[j].id)
  {
    if !OwnsConversation(db.conversations, caller, id) then None
    else
      var msgs := SortedDocs(MessagesIn(db.messages, {id}), db.nextId, CreatedKey(db.messages), db.messages);
      Some(ConversationView(db.conversations[id], msgs))
  }

  /** `create`: a conversation of the caller, optionally inside a project the
      caller owns, titled "New Conversation" unless a title is given. */
  method Create(db: Database, caller: Option<string>, projectId: Option<Id>, title: Option<string>, now: int)
    returns (r: Result<Id, Error>)
    requires db.Valid()
    modifies db
    ensures db.Valid()
    ensures !SignedIn(caller) ==> r == Failure(NotAuthenticated)
    ensures SignedIn(caller) && projectId.Some? && !OwnsProject(old(db.projects), caller, projectId.value) ==>
      r == Failure(ProjectNotFoundOrAccessDenied)
    ensures r.Failure? ==> unchanged(db)
    ensures SignedIn(caller) && (projectId.Some? ==> OwnsProject(old(db.projects), caller, projectId.value)) ==>
      && r == Success(old(db.nextId))
      && r.value !in old(db.conversations)
      && db.conversations == old(db.conversations)[r.value :=
           Conversation(projectId, caller.value, Some(title.GetOr("New Conversation")), now, now)]
      && db.nextId == old(db.nextId) + 1
      && db.users == old(db.users) && db.projects == old(db.projects)
      && db.files == old(db.files) && db.messages == old(db.messages)
  {
    if !SignedIn(caller) {
      return Failure(NotAuthenticated);
    }
    if projectId.Some? && !OwnsProject(db.projects, caller, projectId.value) {
      return Failure(ProjectNotFoundOrAccessDenied);
    }
    var id := db.NewId();
    db.conversations := db.conversations[id :=
      Conversation(projectId, caller.value, Some(title.GetOr("New Conversation")), now, now)];
    r := Success(id);
  }

  /** `updateTitle`: only the caller's own conversation; only title and
      `updatedAt` change. */
  method UpdateTitle(db: Database, caller: Option<string>, id: Id, title: string, now: int)
    returns (r: Result<Conversation, Error>)
    requires db.Valid()
    modifies db
    ensures db.Valid()
    ensures !SignedIn(caller) ==> r == Failure(NotAuthenticated)
    ensures SignedIn(caller) && !OwnsConversation(old(db.conversations), caller, id) ==>
      r == Failure(ConversationNotFoundOrAccessDenied)
    ensures r.Failure? ==> unchanged(db)
    ensures OwnsConversation(old(db.conversations), caller, id) ==>
      && db.conversations == old(db.conversations)[id := old(db.conversations)[id].(title := Some(title), updatedAt := now)]
      && r == Success(db.conversations[id])
      && db.users == old(db.users) && db.projects == old(db.projects)
      && db.files == old(db.files) && db.messages == old(db.messages) && db.nextId == old(db.nextId)
  {
    if !SignedIn(caller) {
      return Failure(NotAuthenticated);
    }
    if !OwnsConversation(db.conversations, caller, id) {
      return Failure(ConversationNotFoundOrAccessDenied);
    }
    db.conversations := db.conversations[id := db.conversations[id].(title := Some(title), updatedAt := now)];
    r := Success(db.conversations[id]);
  }

  /** The message loop: deletes each listed message in turn. */
  method DeleteMessages(db: Database, ids: seq<Id>)
    modifies db`messages
    ensures db.messages == old(db.messages) - Elements(ids)
  {
    for i := 0 to |ids|
      invariant db.messages == old(db.messages) - Elements(ids[..i])
    {
      assert ids[..i + 1] == ids[..i] + [ids[i]];
      db.messages := db.messages - {ids[i]};
    }
    assert ids[..|ids|] == ids;
  }

  /** `remove`: deletes every message of the conversation, then the
      conversation; messages of other conversations stay. */
  method Remove(db: Database, caller: Option<string>, id: Id)
    returns (r: Result<(), Error>)
    requires db.Valid()
    modifies db
    ensures db.Valid()
    ensures !SignedIn(caller) ==> r == Failure(NotAuthenticated)
    ensures SignedIn(caller) && !OwnsConversation(old(db.conversations), caller, id) ==>
      r == Failure(ConversationNotFoundOrAccessDenied)
    ensures r.Failure? ==> unchanged(db)
    ensures OwnsConversation(old(db.conversations), caller, id) ==>
      && r == Success(())
      && db.messages == old(db.messages) - MessagesIn(old(db.messages), {id})
      && db.conversations == old(db.conversations) - {id}
      && db.users == old(db.users) && db.projects == old(db.projects)
      && db.files == old(db.files) && db.nextId == old(db.nextId)
  {
    if !SignedIn(caller) {
      return Failure(NotAuthenticated);
    }
    if !OwnsConversation(db.conversations, caller, id) {
      return Failure(ConversationNotFoundOrAccessDenied);
    }
    var msgs := Ascending(MessagesIn(db.messages, {id}), db.nextId);
    assert Elements(msgs) == MessagesIn(db.messages, {id});
    DeleteMessages(db, msgs);
    db.conversations := db.conversations - {id};
    r := Success(());
  }

  /** `addMessage`: one new message in the caller's conversation, whose
      `updatedAt` becomes the message's `createdAt`. */
  method AddMessage(db: Database, caller: Option<string>, conversationId: Id, role: Role, content: string,
                    metadata: Option<Metadata>, now: int)
    returns (r: Result<Id, Error>)
    requires db.Valid()
    modifies db
    ensures db.Valid()
    ensures !SignedIn(caller) ==> r == Failure(NotAuthenticated)
    ensures SignedIn(caller) && !OwnsConversation(old(db.conversations), caller, conversationId) ==>
      r == Failure(ConversationNotFoundOrAccessDenied)
    ensures r.Failure? ==> unchanged(db)
    ensures OwnsConversation(old(db.conversations), caller, conversationId) ==>
      && r == Success(old(db.nextId))
      && r.value !in old(db.messages)
      && db.messages == old(db.messages)[r.value := Message(conversationId, role, content, metadata, now)]
      && db.conversations == old(db.conversations)[conversationId :=
           old(db.conversations)[conversationId].(updatedAt := db.messages[r.value].createdAt)]
      && db.nextId == old(db.nextId) + 1
      && db.users == old(db.users) && db.projects == old(db.projects) && db.files == old(db.files)
  {
    if !SignedIn(caller) {
      return Failure(NotAuthenticated);
    }
    if !OwnsConversation(db.conversations, caller, conversationId) {
      return Failure(ConversationNotFoundOrAccessDenied);
    }
    var id := db.NewId();
    db.messages := db.messages[id := Message(conversationId, role, content, metadata, now)];
    db.conversations := db.conversations[conversationId := db.conversations[conversationId].(updatedAt := now)];
    r := Success(id);
  }

  /** Removing a conversation leaves no message pointing at it and keeps
      every message of every other conversation as it was. */
  lemma RemoveCascade(messages: map<Id, Message>, id: Id)
    ensures var rest := messages - MessagesIn(messages, {id});
      && (forall k :: k in rest ==> rest[k].conversationId != id)
      && (forall k :: k in messages && messages[k].conversationId != id ==> k in rest && rest[k] == messages[k])
  {
  }
}
