/** The tables of the database (their fields as the schema declares them),
    the caller checks every query and mutation starts with, and the
    invariants the mutations keep. */
module Schema {
  import opened Wrappers
  import opened Index

  datatype User = User(
    clerkId: string,
    email: string,
    name: Option<string>,
    imageUrl: Option<string>,
    createdAt: int)

  datatype Project = Project(
    name: string,
    description: Option<string>,
    ownerId: string,
    language: Option<string>,
    isPublic: bool,
    createdAt: int,
    updatedAt: int)

  datatype FileType = File | Folder

  datatype FileNode = FileNode(
    projectId: Id,
    name: string,
    path: string,
    kind: FileType,
    content: Option<string>,
    language: Option<string>,
    parentId: Option<Id>,
    createdAt: int,
    updatedAt: int)

  datatype Conversation = Conversation(
    projectId: Option<Id>,
    userId: string,
    title: Option<string>,
    createdAt: int,
    updatedAt: int)

  datatype Role = UserRole | AssistantRole | SystemRole

  datatype Metadata = Metadata(
    model: Option<string>,
    tokensUsed: Option<int>,
    processingTime: Option<int>)

  datatype Message = Message(
    conversationId: Id,
    role: Role,
    content: string,
    metadata: Option<Metadata>,
    createdAt: int)

  /** The errors the mutations throw, one per distinct message. */
  datatype Error =
    | NotAuthenticated                    // "Not authenticated"
    | ProjectNotFoundOrAccessDenied       // "Project not found or access denied"
    | FileNotFound                        // "File not found"
    | AccessDenied                        // "Access denied"
    | ConversationNotFoundOrAccessDenied  // "Conversation not found or access denied"

  /** `getAuthUserId` returned a user id that `if (!userId)` lets through:
      the empty string is falsy in JavaScript. */
  predicate SignedIn(caller: Option<string>) {
    caller.Some? && caller.value != ""
  }

  /** The caller is signed in and owns an existing project `id`. */
  predicate OwnsProject(projects: map<Id, Project>, caller: Option<string>, id: Id) {
    SignedIn(caller) && id in projects && projects[id].ownerId == caller.value
  }

  /** The caller is signed in and started conversation `id`. */
  predicate OwnsConversation(conversations: map<Id, Conversation>, caller: Option<string>, id: Id) {
    SignedIn(caller) && id in conversations && conversations[id].userId == caller.value
  }

  predicate IdsBelow<T>(m: map<Id, T>, bound: Id) {
    forall k :: k in m ==> k < bound
  }

  /** At most one user per Clerk id (what `.unique()` relies on). */
  predicate UniqueClerkIds(users: map<Id, User>) {
    forall a, b :: a in users && b in users && users[a].clerkId == users[b].clerkId ==> a == b
  }

  predicate FilesInProjects(files: map<Id, FileNode>, projects: map<Id, Project>) {
    forall k :: k in files ==> files[k].projectId in projects
  }

  /** A parent was created before its children, so parent chains are acyclic. */
  predicate ParentsPrecede(files: map<Id, FileNode>) {
    forall k :: k in files && files[k].parentId.Some? ==> files[k].parentId.value < k
  }

  predicate ConversationsInProjects(conversations: map<Id, Conversation>, projects: map<Id, Project>) {
    forall k :: k in conversations && conversations[k].projectId.Some? ==>
      conversations[k].projectId.value in projects
  }

  predicate MessagesInConversations(messages: map<Id, Message>, conversations: map<Id, Conversation>) {
    forall k :: k in messages ==> messages[k].conversationId in conversations
  }

  /** The database: one map per table, and the next id to hand out. */
  class Database {
    var users: map<Id, User>
    var projects: map<Id, Project>
    var files: map<Id, FileNode>
    var conversations: map<Id, Conversation>
    var messages: map<Id, Message>
    var nextId: Id

    ghost predicate Valid()
      reads this
    {
      && IdsBelow(users, nextId) && IdsBelow(projects, nextId) && IdsBelow(files, nextId)
      && IdsBelow(conversations, nextId) && IdsBelow(messages, nextId)
      && UniqueClerkIds(users)
      && FilesInProjects(files, projects)
      && ParentsPrecede(files)
      && ConversationsInProjects(conversations, projects)
      && MessagesInConversations(messages, conversations)
    }

    constructor ()
      ensures Valid()
      ensures users == map[] && projects == map[] && files == map[]
      ensures conversations == map[] && messages == map[] && nextId == 0
    {
      users, projects, files := map[], map[], map[];
      conversations, messages := map[], map[];
      nextId := 0;
    }

    /** The id an insert hands out: unused in every table. */
    method NewId() returns (id: Id)
      requires Valid()
      modifies this`nextId
      ensures Valid()
      ensures id == old(nextId) && nextId == id + 1
      ensures id !in users && id !in projects && id !in files
      ensures id !in conversations && id !in messages
    {
      id := nextId;
      nextId := nextId + 1;
    }
  }
}
