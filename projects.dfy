/** Projects: owned by one user, created with a root "src" folder, deleted
    together with their files, conversations and messages. */
module Projects {
  import opened Wrappers
  import opened Index
  import opened Schema
  import Files
  import Conversations

  /** `take(100)` on the listing. */
  const ListLimit: nat := 100

  /** The fields `update` may change; an absent field is left as it is. */
  datatype ProjectPatch = ProjectPatch(name: Option<string>, description: Option<string>, isPublic: Option<bool>)

  function OwnedBy(projects: map<Id, Project>, owner: string): set<Id> {
    set k | k in projects && projects[k].ownerId == owner
  }

  function UpdatedKey(projects: map<Id, Project>): map<Id, int> {
    map k | k in projects :: projects[k].updatedAt
  }

  /** `list`: the caller's 100 most recently updated projects, latest first. */
  function List(db: Database, caller: Option<string>): (r: seq<Doc<Project>>)
    reads db
    requires db.Valid()
    ensures !SignedIn(caller) ==> r == []
    ensures |r| <= ListLimit
    ensures forall i :: 0 <= i < |r| ==>
      r[i].id in db.projects && r[i].value == db.projects[r[i].id] && r[i].value.ownerId == caller.value
    ensures forall i, j :: 0 <= i < j < |r| ==>
      r[j].value.updatedAt < r[i].value.updatedAt || (r[j].value.updatedAt == r[i].value.updatedAt && r[j].id < r[i].id)
    ensures SignedIn(caller) ==>
      forall k :: k in OwnedBy(db.projects, caller.value) && Doc(k, db.projects[k]) !in r ==>
        |r| == ListLimit && forall i :: 0 <= i < |r| ==> db.projects[k].updatedAt <= r[i].value.updatedAt
  {
    if !SignedIn(caller) then []
    else
      var owned := OwnedBy(db.projects, caller.value);
      var key := UpdatedKey(db.projects);
      var r := LatestDocs(owned, db.nextId, key, ListLimit, db.projects);
      assert forall i :: 0 <= i < |r| ==> key[r[i].id] == r[i].value.updatedAt;
      r
  }

  /** `get`: the project if the caller owns it. */
  function Get(db: Database, caller: Option<string>, id: Id): (r: Option<Project>)
    reads db
    ensures r.Some? <==> OwnsProject(db.projects, caller, id)
    ensures r.Some? ==> r.value == db.projects[id]
  {
    if !SignedIn(caller) || id !in db.projects || db.projects[id].ownerId != caller.value then None
    else Some(db.projects[id])
  }

  /** The folder every new project starts with. */
  function RootFolder(projectId: Id, now: int): FileNode {
    FileNode(projectId, "src", "/src", Folder, None, None, None, now, now)
  }

  /** `create`: a project owned by the caller, language "typescript" and
      private unless told otherwise, holding one root "src" folder. */
  method Create(db: Database, caller: Option<string>, name: string, description: Option<string>,
                language: Option<string>, isPublic: Option<bool>, now: int)
    returns (r: Result<Id, Error>)
    requires db.Valid()
    modifies db
    ensures db.Valid()
    ensures !SignedIn(caller) ==> r == Failure(NotAuthenticated) && unchanged(db)
    ensures SignedIn(caller) ==>
      && r == Success(old(db.nextId))
      && r.value !in old(db.projects)
      && db.projects == old(db.projects)[r.value :=
           Project(name, description, caller.value, Some(language.GetOr("typescript")), isPublic.GetOr(false), now, now)]
      && r.value + 1 !in old(db.files)
      && db.files == old(db.files)[r.value + 1 := RootFolder(r.value, now)]
      && db.nextId == old(db.nextId) + 2
      && db.users == old(db.users) && db.conversations == old(db.conversations)
      && db.messages == old(db.messages)
  {
    if !SignedIn(caller) {
      return Failure(NotAuthenticated);
    }
    var projectId := db.NewId();
    db.projects := db.projects[projectId :=
      Project(name, description, caller.value, Some(language.GetOr("typescript")), isPublic.GetOr(false), now, now)];
    var folderId := db.NewId();
    db.files := db.files[folderId := RootFolder(projectId, now)];
    r := Success(projectId);
  }

  /** A new project's only file is its root folder: no earlier file can
      belong to an id that was not yet a project. */
  lemma CreatedProjectHoldsOnlyRoot(files: map<Id, FileNode>, projects: map<Id, Project>, projectId: Id, folderId: Id, now: int)
    requires FilesInProjects(files, projects)
    requires projectId !in projects && folderId !in files
    ensures var after := files[folderId := RootFolder(projectId, now)];
      Files.OfProject(after, projectId) == {folderId}
      && after[folderId].kind == Folder && after[folderId].name == "src"
      && after[folderId].path == "/src" && after[folderId].parentId == None
  {
    var after := files[folderId := RootFolder(projectId, now)];
    assert Files.OfProject(files, projectId) == {};
    assert folderId in Files.OfProject(after, projectId);
  }

  /** The patch `update` applies: each supplied field, and always `updatedAt`. */
  function Patched(p: Project, patch: ProjectPatch, now: int): (r: Project)
    ensures r.ownerId == p.ownerId && r.language == p.language && r.createdAt == p.createdAt
    ensures r.updatedAt == now
    ensures patch == ProjectPatch(None, None, None) ==> r == p.(updatedAt := now)
  {
    p.(name := patch.name.GetOr(p.name),
       description := if patch.description.Some? then patch.description else p.description,
       isPublic := patch.isPublic.GetOr(p.isPublic),
       updatedAt := now)
  }

  /** A patch changes exactly the fields it supplies, plus `updatedAt`:
      owner, language and creation time never move. */
  lemma PatchedFields(p: Project, patch: ProjectPatch, now: int)
    ensures var q := Patched(p, patch, now);
      && q.name == (if patch.name.Some? then patch.name.value else p.name)
      && q.description == (if patch.description.Some? then patch.description else p.description)
      && q.isPublic == (if patch.isPublic.Some? then patch.isPublic.value else p.isPublic)
      && q.updatedAt == now
      && q.ownerId == p.ownerId && q.language == p.language && q.createdAt == p.createdAt
  {
  }

  /** Applying the same patch twice is applying it once. */
  lemma PatchIdempotent(p: Project, patch: ProjectPatch, now: int)
    ensures Patched(Patched(p, patch, now), patch, now) == Patched(p, patch, now)
  {
  }

  /** `update`: only the owner; the supplied fields and `updatedAt`. */
  method Update(db: Database, caller: Option<string>, id: Id, patch: ProjectPatch, now: int)
    returns (r: Result<Project, Error>)
    requires db.Valid()
    modifies db
    ensures db.Valid()
    ensures !SignedIn(caller) ==> r == Failure(NotAuthenticated)
    ensures SignedIn(caller) && !OwnsProject(old(db.projects), caller, id) ==> r == Failure(ProjectNotFoundOrAccessDenied)
    ensures r.Failure? ==> unchanged(db)
    ensures OwnsProject(old(db.projects), caller, id) ==>
      && db.projects == old(db.projects)[id := Patched(old(db.projects)[id], patch, now)]
      && r == Success(db.projects[id])
      && db.users == old(db.users) && db.files == old(db.files) && db.conversations == old(db.conversations)
      && db.messages == old(db.messages) && db.nextId == old(db.nextId)
  {
    if !SignedIn(caller) {
      return Failure(NotAuthenticated);
    }
    if !OwnsProject(db.projects, caller, id) {
      return Failure(ProjectNotFoundOrAccessDenied);
    }
    var project := db.projects[id];
    var updated := project.(updatedAt := now);
    if patch.name.Some? { updated := updated.(name := patch.name.value); }
    if patch.description.Some? { updated := updated.(description := patch.description); }
    if patch.isPublic.Some? { updated := updated.(isPublic := patch.isPublic.value); }
    db.projects := db.projects[id := updated];
    r := Success(db.projects[id]);
  }

  /** The conversation loop of `remove`: for each listed conversation, its
      messages, then the conversation itself. */
  method DeleteConversations(db: Database, convs: seq<Id>)
    requires db.Valid()
    modifies db`conversations, db`messages
    ensures db.conversations == old(db.conversations) - Elements(convs)
    ensures db.messages == old(db.messages) - Conversations.MessagesIn(old(db.messages), Elements(convs))
  {
    for i := 0 to |convs|
      invariant db.conversations == old(db.conversations) - Elements(convs[..i])
      invariant db.messages == old(db.messages) - Conversations.MessagesIn(old(db.messages), Elements(convs[..i]))
    {
      var c := convs[i];
      assert convs[..i + 1] == convs[..i] + [c];
      ghost var done := Elements(convs[..i]);
      var msgs := Ascending(Conversations.MessagesIn(db.messages, {c}), db.nextId);
      assert Elements(msgs) == Conversations.MessagesIn(db.messages, {c}) by {
        forall k | k in Conversations.MessagesIn(db.messages, {c}) ensures k < db.nextId {
          assert k in old(db.messages);
        }
      }
      assert Conversations.MessagesIn(db.messages, {c})
          == Conversations.MessagesIn(old(db.messages), {c}) - Conversations.MessagesIn(old(db.messages), done);
      Conversations.DeleteMessages(db, msgs);
      db.conversations := db.conversations - {c};
    }
    assert convs[..|convs|] == convs;
  }

  /** `remove`: deletes every file and conversation of the project, every
      message of those conversations, then the project. */
  method Remove(db: Database, caller: Option<string>, id: Id)
    returns (r: Result<(), Error>)
    requires db.Valid()
    modifies db
    ensures db.Valid()
    ensures !SignedIn(caller) ==> r == Failure(NotAuthenticated)
    ensures SignedIn(caller) && !OwnsProject(old(db.projects), caller, id) ==> r == Failure(ProjectNotFoundOrAccessDenied)
    ensures r.Failure? ==> unchanged(db)
    ensures OwnsProject(old(db.projects), caller, id) ==>
      && r == Success(())
      && db.files == old(db.files) - Files.OfProject(old(db.files), id)
      && db.conversations == old(db.conversations) - Conversations.OfProject(old(db.conversations), id)
      && db.messages == old(db.messages)
           - Conversations.MessagesIn(old(db.messages), Conversations.OfProject(old(db.conversations), id))
      && db.projects == old(db.projects) - {id}
      && db.users == old(db.users) && db.nextId == old(db.nextId)
  {
    if !SignedIn(caller) {
      return Failure(NotAuthenticated);
    }
    if !OwnsProject(db.projects, caller, id) {
      return Failure(ProjectNotFoundOrAccessDenied);
    }
    var files := Ascending(Files.OfProject(db.files, id), db.nextId);
    assert Elements(files) == Files.OfProject(db.files, id);
    Files.DeleteFiles(db, files);
    var convs := Ascending(Conversations.OfProject(db.conversations, id), db.nextId);
    assert Elements(convs) == Conversations.OfProject(db.conversations, id);
    DeleteConversations(db, convs);
    db.projects := db.projects - {id};
    r := Success(());
  }

  /** After the cascade nothing refers to the removed project, its
      conversations or their messages, and every record of another project
      or conversation is as it was. */
  lemma RemoveCascade(files: map<Id, FileNode>, conversations: map<Id, Conversation>, messages: map<Id, Message>, id: Id)
    ensures var files' := files - Files.OfProject(files, id);
      var gone := Conversations.OfProject(conversations, id);
      var conversations' := conversations - gone;
      var messages' := messages - Conversations.MessagesIn(messages, gone);
      && Files.OfProject(files', id) == {}
      && Conversations.OfProject(conversations', id) == {}
      && (forall k :: k in messages' ==> messages'[k].conversationId !in gone)
      && (forall k :: k in files && files[k].projectId != id ==> k in files' && files'[k] == files[k])
      && (forall k :: k in conversations && conversations[k].projectId != Some(id) ==>
            k in conversations' && conversations'[k] == conversations[k])
      && (forall k :: k in messages && messages[k].conversationId !in gone ==> k in messages' && messages'[k] == messages[k])
  {
  }
}
