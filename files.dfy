/** The hierarchical file store: the queries and mutations over the `files`
    table.  Every one of them first checks that the caller owns the file's
    project; rename and remove reach a folder's direct children only. */
module Files {
  import opened Wrappers
  import opened Index
  import opened Schema
  import opened Text

  /** The files of project `pid`: the `by_project` index. */
  function OfProject(files: map<Id, FileNode>, pid: Id): set<Id> {
    set k | k in files && files[k].projectId == pid
  }

  /** The direct children of `parent` in project `pid`: the `by_project_parent` index. */
  function ChildrenOf(files: map<Id, FileNode>, pid: Id, parent: Id): set<Id> {
    set k | k in files && files[k].projectId == pid && files[k].parentId == Some(parent)
  }

  /** The files with `path` in project `pid`: the `by_path` index. */
  function AtPath(files: map<Id, FileNode>, pid: Id, path: string): set<Id> {
    set k | k in files && files[k].projectId == pid && files[k].path == path
  }

  /** The caller may change file `id`: signed in, the file exists, and the
      caller owns its project. */
  predicate CanEdit(db: Database, caller: Option<string>, id: Id)
    reads db
  {
    SignedIn(caller) && id in db.files && OwnsProject(db.projects, caller, db.files[id].projectId)
  }

  /** `list`: every file of an owned project, in creation order; nothing for
      anyone else. */
  function List(db: Database, caller: Option<string>, projectId: Id): (r: seq<Doc<FileNode>>)
    reads db
    requires db.Valid()
    ensures !OwnsProject(db.projects, caller, projectId) ==> r == []
    ensures forall i :: 0 <= i < |r| ==>
      r[i].id in db.files && r[i].value == db.files[r[i].id] && r[i].value.projectId == projectId
    ensures OwnsProject(db.projects, caller, projectId) ==>
      forall k :: k in db.files && db.files[k].projectId == projectId ==> Doc(k, db.files[k]) in r
    ensures forall i, j :: 0 <= i < j < |r| ==> r[i].id < r[j].id
  {
    if !OwnsProject(db.projects, caller, projectId) then []
    else
      var ids := Ascending(OfProject(db.files, projectId), db.nextId);
      var r := Docs(ids, db.files);
      assert forall k :: k in OfProject(db.files, projectId) ==> Doc(k, db.files[k]) in r by {
        forall k | k in OfProject(db.files, projectId) ensures Doc(k, db.files[k]) in r {
          var i :| 0 <= i < |ids| && ids[i] == k;
          assert r[i] == Doc(k, db.files[k]);
        }
      }
      r
  }

  /** `get`: the stored record itself, or nothing when the caller is signed
      out, the file is missing or its project is not the caller's. */
  function Get(db: Database, caller: Option<string>, id: Id): (r: Option<FileNode>)
    reads db
    ensures r.Some? <==> CanEdit(db, caller, id)
    ensures r.Some? ==> r.value == db.files[id]
  {
    if !SignedIn(caller) || id !in db.files then None
    else if !OwnsProject(db.projects, caller, db.files[id].projectId) then None
    else Some(db.files[id])
  }

  /** `getByPath`: the first-created file of an owned project whose path is
      exactly `path` (no normalisation), or nothing. */
  function GetByPath(db: Database, caller: Option<string>, projectId: Id, path: string): (r: Option<Doc<FileNode>>)
    reads db
    requires db.Valid()
    ensures !OwnsProject(db.projects, caller, projectId) ==> r == None
    ensures OwnsProject(db.projects, caller, projectId) ==>
      (r == None <==> AtPath(db.files, projectId, path) == {})
    ensures r.Some? ==>
      && r.value.id in db.files && r.value.value == db.files[r.value.id]
      && r.value.value.projectId == projectId && r.value.value.path == path
    ensures r.Some? ==> forall k :: k in AtPath(db.files, projectId, path) ==> r.value.id <= k
  {
    if !OwnsProject(db.projects, caller, projectId) then None
    else
      var hits := Ascending(AtPath(db.files, projectId, path), db.nextId);
      assert forall k :: k in AtPath(db.files, projectId, path) ==> k in hits;
      if hits == [] then None else Some(Doc(hits[0], db.files[hits[0]]))
  }

  /** `create`: inserts the record exactly as given (the path is trusted, not
      derived from the parent) and bumps the project's `updatedAt`. */
  method Create(db: Database, caller: Option<string>, projectId: Id, name: string, path: string,
                kind: FileType, content: Option<string>, language: Option<string>,
                parentId: Option<Id>, now: int)
    returns (r: Result<Id, Error>)
    requires db.Valid()
    requires parentId.Some? ==> parentId.value < db.nextId
    modifies db
    ensures db.Valid()
    ensures !SignedIn(caller) ==> r == Failure(NotAuthenticated)
    ensures SignedIn(caller) && !OwnsProject(old(db.projects), caller, projectId) ==>
      r == Failure(ProjectNotFoundOrAccessDenied)
    ensures r.Failure? ==> unchanged(db)
    ensures OwnsProject(old(db.projects), caller, projectId) ==>
      && r == Success(old(db.nextId))
      && r.value !in old(db.files)
      && db.files == old(db.files)[r.value := FileNode(projectId, name, path, kind, content, language, parentId, now, now)]
      && db.projects == old(db.projects)[projectId := old(db.projects)[projectId].(updatedAt := now)]
      && db.nextId == old(db.nextId) + 1
      && db.users == old(db.users) && db.conversations == old(db.conversations)
      && db.messages == old(db.messages)
  {
    if !SignedIn(caller) {
      return Failure(NotAuthenticated);
    }
    if !OwnsProject(db.projects, caller, projectId) {
      return Failure(ProjectNotFoundOrAccessDenied);
    }
    var fileId := db.NewId();
    db.files := db.files[fileId := FileNode(projectId, name, path, kind, content, language, parentId, now, now)];
    db.projects := db.projects[projectId := db.projects[projectId].(updatedAt := now)];
    r := Success(fileId);
  }

  /** `updateContent`: sets the file's content and `updatedAt` and bumps its
      project; nothing else changes. */
  method UpdateContent(db: Database, caller: Option<string>, id: Id, content: string, now: int)
    returns (r: Result<FileNode, Error>)
    requires db.Valid()
    modifies db
    ensures db.Valid()
    ensures !SignedIn(caller) ==> r == Failure(NotAuthenticated)
    ensures SignedIn(caller) && id !in old(db.files) ==> r == Failure(FileNotFound)
    ensures SignedIn(caller) && id in old(db.files) && !OwnsProject(old(db.projects), caller, old(db.files)[id].projectId) ==>
      r == Failure(AccessDenied)
    ensures r.Failure? ==> unchanged(db)
    ensures old(CanEdit(db, caller, id)) ==>
      && db.files == old(db.files)[id := old(db.files)[id].(content := Some(content), updatedAt := now)]
      && db.projects == old(db.projects)[old(db.files)[id].projectId := old(db.projects)[old(db.files)[id].projectId].(updatedAt := now)]
      && r == Success(db.files[id])
      && db.users == old(db.users) && db.conversations == old(db.conversations)
      && db.messages == old(db.messages) && db.nextId == old(db.nextId)
  {
    if !SignedIn(caller) {
      return Failure(NotAuthenticated);
    }
    if id !in db.files {
      return Failure(FileNotFound);
    }
    var file := db.files[id];
    if !OwnsProject(db.projects, caller, file.projectId) {
      return Failure(AccessDenied);
    }
    db.files := db.files[id := file.(content := Some(content), updatedAt := now)];
    db.projects := db.projects[file.projectId := db.projects[file.projectId].(updatedAt := now)];
    r := Success(db.files[id]);
  }

  /** Rewrites the path of every file in `targets`: the first `oldLen`
      characters are replaced by `newPath`. */
  function RewritePaths(files: map<Id, FileNode>, targets: set<Id>, oldLen: nat, newPath: string): (r: map<Id, FileNode>)
    ensures r.Keys == files.Keys
    ensures forall k :: k in r ==> r[k] == files[k].(path := r[k].path)
  {
    map k | k in files ::
      if k in targets then files[k].(path := newPath + Slice(files[k].path, oldLen)) else files[k]
  }

  /** The files table after `rename`: the node gets its new name, path and
      `updatedAt`; then, for a folder, each direct child (as the index finds
      it after that patch) gets `newPath + child.path.slice(oldPath.length)`. */
  function Renamed(files: map<Id, FileNode>, id: Id, name: string, newPath: string, now: int): (r: map<Id, FileNode>)
    requires id in files
    ensures r.Keys == files.Keys
    ensures forall k :: k in r ==> r[k].projectId == files[k].projectId && r[k].parentId == files[k].parentId
  {
    var node := files[id];
    var patched := files[id := node.(name := name, path := newPath, updatedAt := now)];
    if node.kind == Folder then RewritePaths(patched, ChildrenOf(patched, node.projectId, id), |node.path|, newPath)
    else patched
  }

  lemma RewriteOneMore(files: map<Id, FileNode>, done: set<Id>, c: Id, oldLen: nat, newPath: string)
    requires c in files
    ensures RewritePaths(files, done + {c}, oldLen, newPath)
         == RewritePaths(files, done, oldLen, newPath)[c := files[c].(path := newPath + Slice(files[c].path, oldLen))]
  {
  }

  /** The child loop of `rename`: patches each listed child's path in turn. */
  method RewriteChildPaths(db: Database, children: seq<Id>, oldLen: nat, newPath: string)
    requires Distinct(children)
    requires forall i :: 0 <= i < |children| ==> children[i] in db.files
    modifies db`files
    ensures db.files == RewritePaths(old(db.files), Elements(children), oldLen, newPath)
  {
    for i := 0 to |children|
      invariant db.files == RewritePaths(old(db.files), Elements(children[..i]), oldLen, newPath)
    {
      var c := children[i];
      assert children[..i + 1] == children[..i] + [c];
      assert c !in children[..i];
      var child := db.files[c];
      RewriteOneMore(old(db.files), Elements(children[..i]), c, oldLen, newPath);
      db.files := db.files[c := child.(path := newPath + Slice(child.path, oldLen))];
    }
    assert children[..|children|] == children;
  }

  /** `rename`: the node and, for a folder, its direct children's paths. */
  method Rename(db: Database, caller: Option<string>, id: Id, name: string, path: string, now: int)
    returns (r: Result<FileNode, Error>)
    requires db.Valid()
    modifies db
    ensures db.Valid()
    ensures !SignedIn(caller) ==> r == Failure(NotAuthenticated)
    ensures SignedIn(caller) && id !in old(db.files) ==> r == Failure(FileNotFound)
    ensures SignedIn(caller) && id in old(db.files) && !OwnsProject(old(db.projects), caller, old(db.files)[id].projectId) ==>
      r == Failure(AccessDenied)
    ensures r.Failure? ==> unchanged(db)
    ensures old(CanEdit(db, caller, id)) ==>
      && db.files == Renamed(old(db.files), id, name, path, now)
      && db.projects == old(db.projects)[old(db.files)[id].projectId := old(db.projects)[old(db.files)[id].projectId].(updatedAt := now)]
      && r == Success(db.files[id])
      && db.users == old(db.users) && db.conversations == old(db.conversations)
      && db.messages == old(db.messages) && db.nextId == old(db.nextId)
  {
    if !SignedIn(caller) {
      return Failure(NotAuthenticated);
    }
    if id !in db.files {
      return Failure(FileNotFound);
    }
    var file := db.files[id];
    if !OwnsProject(db.projects, caller, file.projectId) {
      return Failure(AccessDenied);
    }
    ApplyRename(db, id, name, path, now);
    db.projects := db.projects[file.projectId := db.projects[file.projectId].(updatedAt := now)];
    r := Success(db.files[id]);
  }

  /** The writes of `rename` to the files table: the node's patch, then the
      child loop. */
  method ApplyRename(db: Database, id: Id, name: string, path: string, now: int)
    requires IdsBelow(db.files, db.nextId) && id in db.files
    modifies db`files
    ensures db.files == Renamed(old(db.files), id, name, path, now)
  {
    var file := db.files[id];
    db.files := db.files[id := file.(name := name, path := path, updatedAt := now)];
    if file.kind == Folder {
      var children := Ascending(ChildrenOf(db.files, file.projectId, id), db.nextId);
      assert Elements(children) == ChildrenOf(db.files, file.projectId, id);
      RewriteChildPaths(db, children, |file.path|, path);
    }
  }

  /** The ids `remove` deletes: the node and, for a folder, its direct children. */
  function Removed(files: map<Id, FileNode>, id: Id): (r: set<Id>)
    requires id in files
    ensures id in r && r <= files.Keys
    ensures forall k :: k in r && k != id ==>
      files[id].kind == Folder && files[k].projectId == files[id].projectId && files[k].parentId == Some(id)
  {
    {id} + if files[id].kind == Folder then ChildrenOf(files, files[id].projectId, id) else {}
  }

  /** The child loop of `remove`: deletes each listed file in turn. */
  method DeleteFiles(db: Database, ids: seq<Id>)
    modifies db`files
    ensures db.files == old(db.files) - Elements(ids)
  {
    for i := 0 to |ids|
      invariant db.files == old(db.files) - Elements(ids[..i])
    {
      assert ids[..i + 1] == ids[..i] + [ids[i]];
      db.files := db.files - {ids[i]};
    }
    assert ids[..|ids|] == ids;
  }

  /** `remove`: deletes the node and, for a folder, its direct children, and
      bumps the project. */
  method Remove(db: Database, caller: Option<string>, id: Id, now: int)
    returns (r: Result<(), Error>)
    requires db.Valid()
    modifies db
    ensures db.Valid()
    ensures !SignedIn(caller) ==> r == Failure(NotAuthenticated)
    ensures SignedIn(caller) && id !in old(db.files) ==> r == Failure(FileNotFound)
    ensures SignedIn(caller) && id in old(db.files) && !OwnsProject(old(db.projects), caller, old(db.files)[id].projectId) ==>
      r == Failure(AccessDenied)
    ensures r.Failure? ==> unchanged(db)
    ensures old(CanEdit(db, caller, id)) ==>
      && r == Success(())
      && db.files == old(db.files) - Removed(old(db.files), id)
      && db.projects == old(db.projects)[old(db.files)[id].projectId := old(db.projects)[old(db.files)[id].projectId].(updatedAt := now)]
      && db.users == old(db.users) && db.conversations == old(db.conversations)
      && db.messages == old(db.messages) && db.nextId == old(db.nextId)
  {
    if !SignedIn(caller) {
      return Failure(NotAuthenticated);
    }
    if id !in db.files {
      return Failure(FileNotFound);
    }
    var file := db.files[id];
    if !OwnsProject(db.projects, caller, file.projectId) {
      return Failure(AccessDenied);
    }
    if file.kind == Folder {
      var children := Ascending(ChildrenOf(db.files, file.projectId, id), db.nextId);
      assert Elements(children) == ChildrenOf(db.files, file.projectId, id);
      DeleteFiles(db, children);
    }
    db.files := db.files - {id};
    db.projects := db.projects[file.projectId := db.projects[file.projectId].(updatedAt := now)];
    r := Success(());
  }

  // Properties of rename and remove

  /** Each direct child of a renamed folder gets `newPath` followed by what
      came after the first `|oldPath|` characters of its own path; when that
      path began with the folder's old path, the new one begins with the new
      path and keeps the same remainder. */
  lemma RenameRewritesChildPath(files: map<Id, FileNode>, id: Id, name: string, newPath: string, now: int, c: Id)
    requires ParentsPrecede(files)
    requires id in files && files[id].kind == Folder
    requires c in files && files[c].projectId == files[id].projectId && files[c].parentId == Some(id)
    ensures var r := Renamed(files, id, name, newPath, now);
      && c in r
      && r[c] == files[c].(path := newPath + Slice(files[c].path, |files[id].path|))
      && (StartsWith(files[c].path, files[id].path) ==>
            StartsWith(r[c].path, newPath) && r[c].path[|newPath|..] == files[c].path[|files[id].path|..])
  {
    var r := Renamed(files, id, name, newPath, now);
    var patched := files[id := files[id].(name := name, path := newPath, updatedAt := now)];
    assert c != id;
    assert c in ChildrenOf(patched, files[id].projectId, id);
    assert r[c].path == newPath + Slice(files[c].path, |files[id].path|);
  }

  /** Rename touches only the node itself and, for a folder, its direct
      children's paths: grandchildren and every other record keep their
      values, and renaming a plain file changes no other record. */
  lemma RenameFrame(files: map<Id, FileNode>, id: Id, name: string, newPath: string, now: int)
    requires ParentsPrecede(files)
    requires id in files
    ensures var r := Renamed(files, id, name, newPath, now);
      && r.Keys == files.Keys
      && r[id] == files[id].(name := name, path := newPath, updatedAt := now)
      && (forall k :: k in files && k != id && k !in ChildrenOf(files, files[id].projectId, id) ==> r[k] == files[k])
      && (forall k :: k in ChildrenOf(files, files[id].projectId, id) ==>
            (files[id].kind == Folder ==> r[k] == files[k].(path := r[k].path))
            && (files[id].kind == File ==> r[k] == files[k]))
  {
    var node := files[id];
    var patched := files[id := node.(name := name, path := newPath, updatedAt := now)];
    assert id !in ChildrenOf(patched, node.projectId, id);
    assert ChildrenOf(patched, node.projectId, id) == ChildrenOf(files, node.projectId, id);
  }

  /** Rename keeps a direct child's path derived from its parent: if it was
      the folder's path, "/" and the child's name, it still is afterwards. */
  lemma RenameKeepsChildDerived(files: map<Id, FileNode>, id: Id, name: string, newPath: string, now: int, c: Id)
    requires ParentsPrecede(files)
    requires id in files && files[id].kind == Folder
    requires c in files && files[c].projectId == files[id].projectId && files[c].parentId == Some(id)
    requires files[c].path == files[id].path + "/" + files[c].name
    ensures var r := Renamed(files, id, name, newPath, now);
      c in r && r[c].path == r[id].path + "/" + r[c].name
  {
    RenameRewritesChildPath(files, id, name, newPath, now, c);
    RenameFrame(files, id, name, newPath, now);
    assert files[c].path[|files[id].path|..] == "/" + files[c].name;
  }

  /** The cascade stops one level down: when a folder's path really changes,
      a grandchild whose path was derived from its parent's no longer is. */
  lemma RenameLeavesGrandchildStale(files: map<Id, FileNode>, id: Id, name: string, newPath: string, now: int,
                                    c: Id, g: Id)
    requires ParentsPrecede(files)
    requires id in files && files[id].kind == Folder && newPath != files[id].path
    requires c in files && files[c].projectId == files[id].projectId && files[c].parentId == Some(id)
    requires files[c].path == files[id].path + "/" + files[c].name
    requires g in files && files[g].parentId == Some(c)
    requires files[g].path == files[c].path + "/" + files[g].name
    ensures var r := Renamed(files, id, name, newPath, now);
      c in r && g in r && r[g] == files[g] && r[g].path != r[c].path + "/" + r[g].name
  {
    var r := Renamed(files, id, name, newPath, now);
    RenameKeepsChildDerived(files, id, name, newPath, now, c);
    RenameFrame(files, id, name, newPath, now);
    assert g !in ChildrenOf(files, files[id].projectId, id);
    var oldPath := files[id].path;
    var tail := "/" + files[c].name + "/" + files[g].name;
    assert r[g].path == oldPath + tail;
    assert r[c].path + "/" + r[g].name == newPath + tail;
    if |oldPath| != |newPath| {
      assert |r[g].path| != |r[c].path + "/" + r[g].name|;
    } else {
      var i :| 0 <= i < |oldPath| && oldPath[i] != newPath[i];
      assert r[g].path[i] == oldPath[i];
      assert (r[c].path + "/" + r[g].name)[i] == newPath[i];
    }
  }

  /** The example of a folder "/src" renamed to "/lib": its child
      "/src/util.ts" becomes "/lib/util.ts". */
  lemma RenameExample(now: int)
    ensures var files := map[
        0 := FileNode(7, "src", "/src", Folder, None, None, None, 0, 0),
        1 := FileNode(7, "util.ts", "/src/util.ts", File, Some(""), None, Some(0), 0, 0)];
      Renamed(files, 0, "lib", "/lib", now)[1].path == "/lib/util.ts"
  {
    var files := map[
        0 := FileNode(7, "src", "/src", Folder, None, None, None, 0, 0),
        1 := FileNode(7, "util.ts", "/src/util.ts", File, Some(""), None, Some(0), 0, 0)];
    RenameRewritesChildPath(files, 0, "lib", "/lib", now, 1);
    assert Slice("/src/util.ts", 4) == "/util.ts";
  }

  /** Remove deletes exactly the node and, for a folder, its direct children. */
  lemma RemoveDeletes(files: map<Id, FileNode>, id: Id, k: Id)
    requires id in files && k in files
    ensures k in files - Removed(files, id) <==>
      k != id && !(files[id].kind == Folder && files[k].projectId == files[id].projectId && files[k].parentId == Some(id))
  {
  }

  /** A grandchild of a removed folder stays in the table, still pointing at
      the deleted child: the cascade leaves it orphaned. */
  lemma RemoveOrphansGrandchild(files: map<Id, FileNode>, id: Id, c: Id, g: Id)
    requires ParentsPrecede(files)
    requires id in files && files[id].kind == Folder
    requires c in files && files[c].projectId == files[id].projectId && files[c].parentId == Some(id)
    requires g in files && files[g].parentId == Some(c)
    ensures var r := files - Removed(files, id);
      g in r && r[g] == files[g] && c !in r
  {
    assert g !in Removed(files, id);
  }

  /** Ownership isolation: for a project someone else owns, every query
      comes back empty. */
  lemma OtherUsersSeeNothing(db: Database, caller: Option<string>, projectId: Id, fileId: Id, path: string)
    requires db.Valid()
    requires projectId in db.projects && caller != Some(db.projects[projectId].ownerId)
    requires fileId in db.files && db.files[fileId].projectId == projectId
    ensures List(db, caller, projectId) == []
    ensures Get(db, caller, fileId) == None
    ensures GetByPath(db, caller, projectId, path) == None
  {
  }
}
