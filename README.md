# Polaris cloud IDE — a Dafny model of its core

Polaris is a browser IDE backed by Convex. This project models its Convex
backend and the pure logic of three editor panels:

- **Files** (`convex/files.ts`). The file and folder tree of a project: listing, lookup by id and by
  path, create, content update, rename (which rewrites the paths of a folder's
  direct children) and remove (which deletes a folder's direct children).
- **Projects** (`convex/projects.ts`). Owned projects: listing, create (with a root `src`
  folder), partial update, and a remove that cascades to files, conversations and messages.
- **Conversations** (`convex/conversations.ts`). Chat threads and their messages: listing by
  project or by user, get with messages, create, retitle, remove with its messages, add message.
- **Auth** (`convex/auth.ts`). The find-or-create lookup of the signed-in user and the
  upsert by Clerk id.
- **FileExplorer** (`FileExplorer.tsx`). Folders-first sorting, the root and child
  selections, and toggling of expanded folders.
- **Editor** (`Editor.tsx`). The tab list and active tab: editing, closing with
  fallback to the first remaining tab, and the language mode chosen for a tab.
- **AIChat** (`AIChatPanel.tsx`). The line-by-line rendering of a message (code fence,
  bullet, bold runs, paragraph, break) and the send action with its guard.

The database is one `Schema.Database` object. It has one `map<Id, Record>` field per Convex
table and a counter that hands out ids in increasing order. Id order is therefore creation
order, which is how Convex breaks ties inside an index. Queries are functions that read the
database. Mutations are methods that change it and return `Success` or the `Failure` whose
message the source throws. Every mutation keeps `Database.Valid()`:
- Ids are below the counter and Clerk ids are unique.
- Files, conversations and messages point at existing owners.
- A file's parent was created before the file, so parent chains are acyclic.

The caller is an `Option<string>`. The empty string counts as signed out, because
`if (!userId)` treats it so. The clock is a `now` parameter.

The model follows the code where it is shallow: rename and remove reach a folder's
direct children only. The lemmas `Files.RenameLeavesGrandchildStale` and
`Files.RemoveOrphansGrandchild` show what that leaves behind one level further down.

JavaScript semantics are spelled out in `Text`:
- `slice` past the end gives the empty string.
- `split` scans from the left without overlap.
- `trim` removes the ECMAScript white-space and line-terminator code points.
- `toLowerCase` handles ASCII letters.

`localeCompare` becomes lexicographic character order. `Array.prototype.sort` is stable,
so a stable insertion sort gives exactly its result under a total preorder.

## Model

| member | source | states |
|---|---|---|
| Files.List | convex/files.ts:6-22 | nothing unless the caller owns the project; otherwise exactly that project's files, each the stored record, in creation order |
| Files.Get | convex/files.ts:25-39 | a result exactly when the caller is signed in, the file exists and its project is the caller's; the result is the stored record |
| Files.GetByPath | convex/files.ts:42-63 | nothing for a non-owner; for the owner nothing exactly when no file of the project has that exact path, else the first-created such file |
| Files.Create | convex/files.ts:66-103 | the two error cases change nothing; otherwise the record is inserted exactly as given, under a fresh id, and the project's updatedAt is bumped; invariants kept |
| Files.UpdateContent | convex/files.ts:106-133 | signed-out, missing-file and non-owner errors change nothing; otherwise only content and updatedAt of the file and the project's updatedAt change, and the patched record is returned |
| Files.RewritePaths | convex/files.ts:170-173 | rewriting child paths keeps the set of files and changes no field but the path |
| Files.Renamed | convex/files.ts:155-174 | a rename keeps the set of files and every file's project and parent |
| Files.RewriteChildPaths | convex/files.ts:170-173 | the loop over the children leaves the table equal to the rewritten-paths table |
| Files.ApplyRename | convex/files.ts:155-174 | the node's patch followed by the child loop gives the renamed table |
| Files.Rename | convex/files.ts:136-180 | error cases change nothing; on success the files table is the renamed table, the project is bumped, and the renamed record is returned; invariants kept |
| Files.Removed | convex/files.ts:197-211 | the ids `remove` deletes hold the node itself, all in the table, and besides it only direct children of a removed folder in the same project (with `Files.RemoveDeletes` giving the converse) |
| Files.DeleteFiles | convex/files.ts:206-208 | the delete loop removes exactly the listed files |
| Files.Remove | convex/files.ts:183-218 | error cases change nothing; on success exactly the node and, for a folder, its direct children are deleted and the project is bumped; invariants kept |
| Files.RenameRewritesChildPath | convex/files.ts:170-173 | each direct child of a renamed folder gets the new path plus what followed the old path's length in its own path; a child whose path started with the folder's old path now starts with the new one and keeps the same remainder |
| Files.RenameFrame | convex/files.ts:155-174 | rename patches the node's name, path and updatedAt, touches only the paths of a folder's direct children, and leaves every other record as it was |
| Files.RenameKeepsChildDerived | convex/files.ts:170-173 | a child whose path was the folder's path plus "/" plus its name still has that form after the rename |
| Files.RenameLeavesGrandchildStale | convex/files.ts:162-174 | when a folder's path really changes, a grandchild whose path was derived from its parent's keeps its old path and no longer matches |
| Files.RenameExample | convex/files.ts:170-173 | renaming folder "/src" to "/lib" turns child "/src/util.ts" into "/lib/util.ts" |
| Files.RemoveDeletes | convex/files.ts:198-211 | a file is deleted exactly when it is the removed node or a direct child of a removed folder |
| Files.RemoveOrphansGrandchild | convex/files.ts:198-211 | a grandchild of a removed folder stays in the table while its parent is gone |
| Files.OtherUsersSeeNothing | convex/files.ts:9-61 | for a project someone else owns, list, get and getByPath all come back empty |
| Projects.List | convex/projects.ts:6-17 | nothing when signed out; at most 100 of the caller's own projects, the stored records, latest updatedAt first (ties newest first); any project left out was updated no later than every one returned, and only when 100 came back |
| Projects.Get | convex/projects.ts:20-31 | a result exactly when the caller owns the project; the result is the stored record |
| Projects.Create | convex/projects.ts:34-69 | signed-out changes nothing; otherwise the project is owned by the caller, with language defaulting to "typescript" and isPublic to false, plus one root folder "src" at "/src" with no parent; invariants kept |
| Projects.CreatedProjectHoldsOnlyRoot | convex/projects.ts:57-65 | the new project's only file is its root folder named "src" with path "/src" and no parent |
| Projects.Patched | convex/projects.ts:88-94 | the patch keeps owner, language and creation time, always sets updatedAt, and an update supplying no field only moves updatedAt |
| Projects.PatchedFields | convex/projects.ts:88-96 | update changes exactly the supplied fields among name, description and isPublic, always sets updatedAt, and keeps owner, language and createdAt |
| Projects.PatchIdempotent | convex/projects.ts:88-96 | applying the same update twice is applying it once |
| Projects.Update | convex/projects.ts:72-99 | signed-out or missing/foreign project fails with no change; otherwise the project becomes its patched form, which is returned, and nothing else changes |
| Projects.DeleteConversations | convex/projects.ts:129-141 | the conversation loop deletes exactly the listed conversations and all of their messages |
| Projects.Remove | convex/projects.ts:102-146 | errors change nothing; on success exactly the project's files, its conversations, their messages and the project itself are deleted; invariants kept |
| Projects.RemoveCascade | convex/projects.ts:113-143 | after the cascade no file or conversation of the project and no message of its conversations remains, and records of other projects and conversations are untouched |
| Conversations.ListOfProject | convex/conversations.ts:14-23 | nothing unless the caller owns the project; at most 50 of its conversations, newest first; any left out is older than every one returned, and only when 50 came back |
| Conversations.ListOfUser | convex/conversations.ts:26-30 | nothing when signed out; at most 50 of the caller's conversations, latest updatedAt first; any left out was updated no later than every one returned |
| Conversations.List | convex/conversations.ts:6-32 | scoped to the project when one is given, else to the caller; empty when signed out |
| Conversations.Get | convex/conversations.ts:35-54 | a result exactly when the caller started the conversation; it carries the stored record and exactly that conversation's messages, ascending by createdAt |
| Conversations.Create | convex/conversations.ts:57-84 | fails with no change when signed out or when a given project is not the caller's; otherwise inserts a conversation of the caller, titled "New Conversation" unless a title is given |
| Conversations.UpdateTitle | convex/conversations.ts:87-108 | a non-owner gets an error and no change; the owner's conversation changes only title and updatedAt |
| Conversations.DeleteMessages | convex/conversations.ts:128-130 | the delete loop removes exactly the listed messages |
| Conversations.Remove | convex/conversations.ts:111-135 | errors change nothing; on success exactly the conversation and its messages are deleted |
| Conversations.AddMessage | convex/conversations.ts:138-174 | a non-owner gets an error and no change; otherwise one message is inserted and the conversation's updatedAt becomes that message's createdAt |
| Conversations.RemoveCascade | convex/conversations.ts:123-133 | no remaining message points at the removed conversation, and other conversations' messages are unchanged |
| Auth.Lookup | convex/auth.ts:13-16 | with unique Clerk ids, `.unique()` finds nothing exactly when no user has the Clerk id, else the only one |
| Auth.GetCurrentUser | convex/auth.ts:5-31 | no identity: nothing, no write; otherwise the unique user with that Clerk id, inserted with email defaulting to "" only when none existed |
| Auth.Synced | convex/auth.ts:42-62 | after a sync exactly one user has the Clerk id, holding the given email, name and image; the table gains at most that id; every other user is unchanged; Clerk ids stay unique |
| Auth.SyncUser | convex/auth.ts:34-64 | the users table becomes the synced table and the returned id is the existing user's or the fresh one; no other table changes |
| Auth.SyncExistingKeepsRecord | convex/auth.ts:42-53 | for an existing Clerk id the same id comes back, the record count is unchanged, and clerkId and createdAt are kept |
| Auth.SyncNewInsertsOne | convex/auth.ts:56-62 | for a new Clerk id exactly one record is inserted, under the fresh id |
| Auth.SyncTwice | convex/auth.ts:42-62 | two syncs of one Clerk id leave one record for it, under the first id, holding the second sync's email, name and image |
| FileExplorer.NameLeTotal | src/components/file-explorer/FileExplorer.tsx:74 | any two names are comparable under the name order |
| FileExplorer.NameLeTransitive | src/components/file-explorer/FileExplorer.tsx:74 | the name order is transitive |
| FileExplorer.NodeLeTotal | src/components/file-explorer/FileExplorer.tsx:72-77 | the sort comparator is total |
| FileExplorer.NodeLeTransitive | src/components/file-explorer/FileExplorer.tsx:72-77 | the sort comparator is transitive |
| FileExplorer.Insert | src/components/file-explorer/FileExplorer.tsx:72-77 | inserting into sorted nodes keeps them sorted and adds exactly that node |
| FileExplorer.SortNodes | src/components/file-explorer/FileExplorer.tsx:71-78 | the result is sorted by the comparator and is a permutation of the input |
| FileExplorer.SortNodesOrder | src/components/file-explorer/FileExplorer.tsx:73-76 | in the sorted result every folder precedes every file, and nodes of one kind are in ascending name order |
| FileExplorer.WithParent | src/components/file-explorer/FileExplorer.tsx:83-91 | a node is selected exactly when it has the given parent, and each selected node occurs as often as in the input |
| FileExplorer.BuildTree | src/components/file-explorer/FileExplorer.tsx:80-95 | the grouping loop returns the sorted nodes that have no parent |
| FileExplorer.BuildTreeRoots | src/components/file-explorer/FileExplorer.tsx:80-95 | the tree holds exactly the parentless nodes; empty input gives an empty tree |
| FileExplorer.GetChildren | src/components/file-explorer/FileExplorer.tsx:97-99 | sorted, a permutation of the given parent's children, and holds exactly the nodes with that parent |
| FileExplorer.ChildrenAreNotRoots | src/components/file-explorer/FileExplorer.tsx:93-98 | a child never appears among the roots |
| FileExplorer.Toggled | src/components/file-explorer/FileExplorer.tsx:118-128 | toggling flips the id's membership and leaves every other id as it was |
| FileExplorer.Explorer.constructor | src/components/file-explorer/FileExplorer.tsx:114-116 | the explorer opens with no folder expanded |
| FileExplorer.Explorer.ToggleFolder | src/components/file-explorer/FileExplorer.tsx:118-128 | the expanded set becomes its toggled form |
| FileExplorer.ToggleTwice | src/components/file-explorer/FileExplorer.tsx:118-128 | toggling twice restores the set |
| FileExplorer.SortExamples | src/components/file-explorer/FileExplorer.spec.ts:50-77 | folder before file, "alpha.txt" before "zebra.txt", empty stays empty |
| FileExplorer.ChildrenExample | src/components/file-explorer/FileExplorer.spec.ts:137-148 | the children of "1" come out as folder "components" then "index.ts" |
| FileExplorer.RootsExample | src/components/file-explorer/FileExplorer.spec.ts:92-135 | a nested file is not a root, and a parent without children gives no children |
| Editor.LanguageExtension | src/components/editor/Editor.tsx:29-52 | the mode is something other than JavaScript exactly when the lowercased name is one of the switch's non-JavaScript names; `Editor.LanguageFallback`, `Editor.LanguageExamples` and `Editor.LanguageCaseInsensitive` carry the fallback, the cases and the case-insensitivity |
| Editor.LanguageCaseInsensitive | src/components/editor/Editor.tsx:29-52 | the mode depends on the name only up to case |
| Editor.LanguageFallback | src/components/editor/Editor.tsx:49-51 | a name outside the switch gives JavaScript, and every other mode comes from a listed name |
| Editor.LanguageExamples | src/components/editor/Editor.tsx:37-48 | "TSX" gives the JSX TypeScript mode, "Markdown" gives Markdown, "python" gives JavaScript |
| Editor.FindTab | src/components/editor/Editor.tsx:74 | nothing exactly when no tab has the id; otherwise an open tab with that id |
| Editor.FindTabFirst | src/components/editor/Editor.tsx:74 | the tab found is the first one with the id |
| Editor.ContentChanged | src/components/editor/Editor.tsx:81-87 | same number of tabs; the active tab takes the new content and is marked modified; every other tab is unchanged |
| Editor.ContentChangedActive | src/components/editor/Editor.tsx:79-90 | after an edit the active tab is found exactly when it was before, and holds the typed content, marked modified |
| Editor.WithoutTab | src/components/editor/Editor.tsx:94 | a tab stays exactly when it was open and has a different id |
| Editor.WithoutTabAppend | src/components/editor/Editor.tsx:94 | the filter keeps the order of the remaining tabs |
| Editor.WithoutAbsentTab | src/components/editor/Editor.tsx:94 | closing an id no tab has changes nothing |
| Editor.FindTabWithout | src/components/editor/Editor.tsx:74-94 | lookup of any other id is unaffected by closing a tab |
| Editor.NextActive | src/components/editor/Editor.tsx:96-98 | closing another tab keeps the active id; closing the active tab while others remain picks an open tab with a different id; with no tab left the id stays as it was |
| Editor.CloseTabActive | src/components/editor/Editor.tsx:92-99 | closing the active tab while others remain activates the first remaining one; closing another tab keeps the active tab; no tab with the closed id remains; when every tab has the closed id, no tab is left and the active id stays, naming no open tab |
| Editor.EditorState.constructor | src/components/editor/Editor.tsx:56-72 | the editor opens with the one demo tab "page.tsx" at "/src/app/page.tsx", TypeScript and unmodified, and it is active |
| Editor.EditorState.ActiveTab | src/components/editor/Editor.tsx:74 | no active tab exactly when no open tab has the active id; otherwise an open tab with that id |
| Editor.EditorState.ActiveLanguage | src/components/editor/Editor.tsx:102-104 | no active tab gives JavaScript; otherwise the active tab's language mode |
| Editor.EditorState.HandleContentChange | src/components/editor/Editor.tsx:79-90 | the tabs become the edited tab list and the active id stays |
| Editor.EditorState.CloseTab | src/components/editor/Editor.tsx:92-99 | the tabs become the filtered list and the active id becomes the fallback choice |
| Editor.EditorState.SelectTab | src/components/editor/Editor.tsx:113 | the clicked tab becomes active and the tabs stay |
| AIChat.ClassifyLine | src/components/ai/AIChatPanel.tsx:211-243 | a fence line renders nothing; a bullet line renders its text from index 2; a line with "**" gives at least two segments, odd-indexed ones bold, that are exactly the pieces of `line.split("**")` and so concatenate to the line with every "**" removed; otherwise a non-empty line is a paragraph and an empty line a break; each branch holds exactly when the earlier ones do not apply |
| AIChat.MessageContent | src/components/ai/AIChatPanel.tsx:207-211 | one block per line of the split, in order |
| AIChat.MessageContentLines | src/components/ai/AIChatPanel.tsx:207 | the lines join back into the message, and a message without a newline is one block |
| AIChat.ClassifyExamples | src/components/ai/AIChatPanel.tsx:213-243 | a fence line is hidden, a bullet line loses its mark, an empty line is a break |
| AIChat.ClassifyBoldExample | src/components/ai/AIChatPanel.tsx:228-237 | "a**b" renders as plain "a" followed by bold "b" |
| AIChat.ClassifyParagraphExample | src/components/ai/AIChatPanel.tsx:243 | a plain line is a paragraph |
| AIChat.MaySend | src/components/ai/AIChatPanel.tsx:45 | a send goes ahead exactly when the trimmed input is non-empty and no reply is pending |
| AIChat.ChatPanel.HandleSend | src/components/ai/AIChatPanel.tsx:44-57 | blank input or a pending reply changes nothing; otherwise exactly one user message holding the input is appended, the input is cleared and a reply is awaited |
| AIChat.ChatPanel.ReceiveReply | src/components/ai/AIChatPanel.tsx:59-69 | the placeholder reply is appended and loading ends |
| AIChat.ChatPanel.constructor | src/components/ai/AIChatPanel.tsx:24-34 | the panel opens with the single greeting from the assistant, an empty input and no reply pending |
| AIChat.ChatPanel.SetInput | src/components/ai/AIChatPanel.tsx:120 | the input takes the typed value and nothing else changes |
| AIChat.SendTwice | src/components/ai/AIChatPanel.tsx:44-57 | two sends in a row before the reply record only the first: one user message holding the original input, then the input is empty and a reply is awaited |
| Index.Latest | convex/projects.ts:11-15 | `order("desc").take(n)`: at most n members, strictly descending in index order; any member left out comes before every one returned, and only when n came back |
| Index.SortedDocs | convex/conversations.ts:44-50 | `order("asc").collect()`: every member, ascending in index order |
| Text.JoinSplit | src/components/ai/AIChatPanel.tsx:207 | joining the pieces of a split with the separator gives back the string |
| Text.ConcatSplit | src/components/ai/AIChatPanel.tsx:229 | gluing the pieces of a split together removes exactly the separators |
| Text.SplitCountsOccurrence | src/components/ai/AIChatPanel.tsx:228-229 | a string splits into more than one piece exactly when it contains the separator |
| Text.TrimEmptyIffBlank | src/components/ai/AIChatPanel.tsx:45 | the trimmed input is empty exactly when the input is all white space |

## Left out

- Network, Clerk token validation, React rendering, JSX markup, icons, scrolling and styling are not modelled. The caller id and identity are parameters.
- Each handler's clock reads are one `now` parameter: where a handler reads the clock twice (`Date.now().toString()` and `new Date()` in the chat panel), both reads get the same value. Dates are integers.
- Text: strings are sequences of code points, so lengths and `slice` offsets differ from JavaScript's UTF-16 counts for characters outside the Basic Multilingual Plane, and a slice that splits a surrogate pair cannot be represented. This affects `Files.Renamed`'s `slice(file.path.length)` when a path holds such characters.
- Files.Create: the model requires a given parent id to be one the database has already issued. `v.id("files")` only checks that the id is well formed for the files table. Without the requirement, the model's sequential ids could later hand a never-issued parent id to a new file and break `ParentsPrecede`; the requirement exists for the model, not the source. Neither the source nor the model checks that the parent exists, is a folder or is in the same project.
- Files.Rename and Files.Remove: the child cascades go down one level, as the code does; deeper descendants are not traversed.
- Auth.GetCurrentUser: it writes from inside a Convex query, whose read-only database reader has no `insert`. As written, the unknown-user path would therefore throw a TypeError and return no user. The model performs the insert the code intends.
- Auth.Lookup: `.unique()` throws when several users share a Clerk id. The uniqueness invariant rules that out, so the error is not modelled.
- FileExplorer.SortNodes: `localeCompare` is modelled as lexicographic character order. Locale collation is not modelled.
- FileExplorer.SortNodes: stability (equal nodes keep their input order) is built into the insertion sort but is not stated as a separate property.
- FileExplorer: the demo file list is not modelled, and neither is the fallback to it when Convex is not configured.
- Editor.LanguageExtension: `toLowerCase` is modelled for ASCII letters only. The result is a language enum, not a CodeMirror extension object.
- Editor.EditorState.CloseTab: the click event's `stopPropagation` is UI plumbing and not modelled.
- AIChat.ChatPanel.HandleSend: the user message id is `DecimalString(now)`. Reading the clock and the one-second timer are left out. The timer callback is `ReceiveReply`, which has to be called explicitly.
- AIChat.MessageContent: React keys and the JSX element shapes are left out. Each element becomes a `Block` value.
- Schema.Database: Convex's transactional atomicity is not modelled, and neither is concurrent mutation. Each method runs alone.
- The landing pages, project pages, layout, inngest functions, API routes, editor theme and AI suggestion extension are not part of this model.
