/** The file explorer's tree helpers: folders-first ordering, the root and
    child selections, and the set of expanded folders. */
module FileExplorer {
  import opened Wrappers
  import Schema

  /** A file as the explorer receives it from the files listing. */
  datatype FileNode = FileNode(id: string, name: string, kind: Schema.FileType, path: string, parentId: Option<string>)

  /** Name order: lexicographic by character (for `localeCompare`). */
  predicate NameLe(a: string, b: string)
    decreases |a|
  {
    |a| == 0 || (|b| > 0 && (a[0] < b[0] || (a[0] == b[0] && NameLe(a[1..], b[1..]))))
  }

  lemma {:induction false} NameLeTotal(a: string, b: string)
    ensures NameLe(a, b) || NameLe(b, a)
    decreases |a|
  {
    if |a| > 0 && |b| > 0 && a[0] == b[0] {
      NameLeTotal(a[1..], b[1..]);
    }
  }

  lemma {:induction false} NameLeTransitive(a: string, b: string, c: string)
    requires NameLe(a, b) && NameLe(b, c)
    ensures NameLe(a, c)
    decreases |a|
  {
    if |a| > 0 && a[0] == b[0] && b[0] == c[0] {
      NameLeTransitive(a[1..], b[1..], c[1..]);
    }
  }

  /** The comparator of `sortNodes` as "may come first": a folder before a
      file, and by name within one kind. */
  predicate NodeLe(a: FileNode, b: FileNode) {
    if a.kind == b.kind then NameLe(a.name, b.name) else a.kind == Schema.Folder
  }

  lemma NodeLeTotal(a: FileNode, b: FileNode)
    ensures NodeLe(a, b) || NodeLe(b, a)
  {
    NameLeTotal(a.name, b.name);
  }

  lemma NodeLeTransitive(a: FileNode, b: FileNode, c: FileNode)
    requires NodeLe(a, b) && NodeLe(b, c)
    ensures NodeLe(a, c)
  {
    if a.kind == b.kind == c.kind {
      NameLeTransitive(a.name, b.name, c.name);
    }
  }

  predicate Sorted(s: seq<FileNode>) {
    forall i, j :: 0 <= i < j < |s| ==> NodeLe(s[i], s[j])
  }

  /** Places `x` before the first node it may precede: ahead of nodes that
      compare equal, which keeps the sort stable. */
  function Insert(x: FileNode, s: seq<FileNode>): (r: seq<FileNode>)
    requires Sorted(s)
    ensures Sorted(r)
    ensures multiset(r) == multiset(s) + multiset{x}
  {
    if s == [] then [x]
    else if NodeLe(x, s[0]) then
      assert forall j :: 0 <= j < |s| ==> NodeLe(x, s[j]) by {
        forall j | 0 <= j < |s| ensures NodeLe(x, s[j]) {
          if j > 0 { NodeLeTransitive(x, s[0], s[j]); }
        }
      }
      [x] + s
    else
      NodeLeTotal(x, s[0]);
      assert s == [s[0]] + s[1..];
      var t := Insert(x, s[1..]);
      assert forall j :: 0 <= j < |t| ==> NodeLe(s[0], t[j]) by {
        forall j | 0 <= j < |t| ensures NodeLe(s[0], t[j]) {
          assert t[j] in multiset(t);
          assert t[j] == x || t[j] in multiset(s[1..]);
        }
      }
      [s[0]] + t
  }

  /** `sortNodes`: a sorted copy; the input sequence is a value and is left
      as it was. */
  function SortNodes(nodes: seq<FileNode>): (r: seq<FileNode>)
    ensures Sorted(r)
    ensures multiset(r) == multiset(nodes)
    ensures |r| == |nodes|
  {
    if nodes == [] then []
    else
      assert nodes == [nodes[0]] + nodes[1..];
      Insert(nodes[0], SortNodes(nodes[1..]))
  }

  /** In sorted order every folder precedes every file, and nodes of one kind
      are in ascending name order. */
  lemma SortNodesOrder(nodes: seq<FileNode>)
    ensures var r := SortNodes(nodes);
      && (forall i, j :: 0 <= i < j < |r| && r[j].kind == Schema.Folder ==> r[i].kind == Schema.Folder)
      && (forall i, j :: 0 <= i < j < |r| && r[i].kind == r[j].kind ==> NameLe(r[i].name, r[j].name))
  {
    var r := SortNodes(nodes);
    forall i, j | 0 <= i < j < |r| && r[j].kind == Schema.Folder ensures r[i].kind == Schema.Folder {
      assert NodeLe(r[i], r[j]);
    }
  }

  /** The nodes whose `parentId` is `parent`, in input order. */
  function WithParent(files: seq<FileNode>, parent: Option<string>): (r: seq<FileNode>)
    ensures forall x :: x in r <==> x in files && x.parentId == parent
    ensures forall x :: multiset(r)[x] == if x.parentId == parent then multiset(files)[x] else 0
    ensures |r| <= |files|
  {
    if files == [] then []
    else
      var last := files[|files| - 1];
      assert files == files[..|files| - 1] + [last];
      assert multiset(files) == multiset(files[..|files| - 1]) + multiset{last};
      WithParent(files[..|files| - 1], parent) + (if last.parentId == parent then [last] else [])
  }

  /** The group a `Map.get` finds for `parent`, `[]` when there is none. */
  function Group(groups: map<Option<string>, seq<FileNode>>, parent: Option<string>): seq<FileNode> {
    if parent in groups then groups[parent] else []
  }

  lemma WithParentSnoc(files: seq<FileNode>, i: nat, parent: Option<string>)
    requires i < |files|
    ensures WithParent(files[..i + 1], parent)
         == WithParent(files[..i], parent) + (if files[i].parentId == parent then [files[i]] else [])
  {
    assert files[..i + 1][..i] == files[..i];
  }

  /** `buildTree`: groups the nodes by `parentId` in one pass and returns the
      sorted root group. */
  method BuildTree(files: seq<FileNode>) returns (r: seq<FileNode>)
    ensures r == SortNodes(WithParent(files, None))
  {
    var groups: map<Option<string>, seq<FileNode>> := map[];
    for i := 0 to |files|
      invariant forall p :: Group(groups, p) == WithParent(files[..i], p)
    {
      var file := files[i];
      ghost var before := groups;
      if file.parentId in groups {
        groups := groups[file.parentId := groups[file.parentId] + [file]];
      } else {
        groups := groups[file.parentId := [file]];
      }
      forall p ensures Group(groups, p) == WithParent(files[..i + 1], p) {
        WithParentSnoc(files, i, p);
        if p == file.parentId {
          assert Group(groups, p) == Group(before, p) + [file];
        } else {
          assert Group(groups, p) == Group(before, p);
        }
      }
    }
    assert files[..|files|] == files;
    var roots := if None in groups then groups[None] else [];
    assert roots == Group(groups, None);
    r := SortNodes(roots);
  }

  /** The tree holds exactly the nodes without a parent, sorted; no input,
      no tree. */
  lemma BuildTreeRoots(files: seq<FileNode>)
    ensures var r := SortNodes(WithParent(files, None));
      && (forall x :: x in r <==> x in files && x.parentId == None)
      && (files == [] ==> r == [])
  {
    var r := SortNodes(WithParent(files, None));
    forall x ensures x in r <==> x in WithParent(files, None) {
      assert x in r <==> x in multiset(r);
    }
  }

  /** `getChildren`: the children of `parentId`, sorted. */
  function GetChildren(files: seq<FileNode>, parentId: string): (r: seq<FileNode>)
    ensures Sorted(r)
    ensures multiset(r) == multiset(WithParent(files, Some(parentId)))
    ensures forall x :: x in r <==> x in files && x.parentId == Some(parentId)
  {
    var r := SortNodes(WithParent(files, Some(parentId)));
    assert forall x :: x in r <==> x in multiset(r);
    r
  }

  /** A child never appears among the roots. */
  lemma ChildrenAreNotRoots(files: seq<FileNode>, parentId: string, x: FileNode)
    requires x in GetChildren(files, parentId)
    ensures x !in SortNodes(WithParent(files, None))
  {
    BuildTreeRoots(files);
  }

  /** The expanded set after toggling `folderId`. */
  function Toggled(expanded: set<string>, folderId: string): (r: set<string>)
    ensures folderId in r <==> folderId !in expanded
    ensures forall x :: x != folderId ==> (x in r <==> x in expanded)
  {
    if folderId in expanded then expanded - {folderId} else expanded + {folderId}
  }

  lemma ToggleTwice(expanded: set<string>, folderId: string)
    ensures Toggled(Toggled(expanded, folderId), folderId) == expanded
  {
  }

  /** The explorer's view state: the ids of the open folders. */
  class Explorer {
    var expandedFolders: set<string>

    constructor ()
      ensures expandedFolders == {}
    {
      expandedFolders := {};
    }

    /** `toggleFolder`: copies the set, then adds or deletes the id. */
    method ToggleFolder(folderId: string)
      modifies this
      ensures expandedFolders == Toggled(old(expandedFolders), folderId)
    {
      var next := expandedFolders;
      if folderId in next {
        next := next - {folderId};
      } else {
        next := next + {folderId};
      }
      expandedFolders := next;
    }
  }

  // The examples the explorer's tests check.

  /** Two nodes come out in comparator order. */
  lemma SortPair(x: FileNode, y: FileNode)
    ensures SortNodes([x, y]) == if NodeLe(x, y) then [x, y] else [y, x]
  {
    assert [x, y][1..] == [y];
    assert [y][1..] == [];
    assert SortNodes([y]) == [y];
  }

  lemma SortExamples()
    ensures var file := FileNode("1", "file.txt", Schema.File, "/file.txt", None);
      var folder := FileNode("2", "folder", Schema.Folder, "/folder", None);
      SortNodes([file, folder]) == [folder, file]
    ensures var z := FileNode("1", "zebra.txt", Schema.File, "/zebra.txt", None);
      var a := FileNode("2", "alpha.txt", Schema.File, "/alpha.txt", None);
      SortNodes([z, a]) == [a, z]
    ensures SortNodes([]) == []
  {
    SortPair(FileNode("1", "file.txt", Schema.File, "/file.txt", None), FileNode("2", "folder", Schema.Folder, "/folder", None));
    SortPair(FileNode("1", "zebra.txt", Schema.File, "/zebra.txt", None), FileNode("2", "alpha.txt", Schema.File, "/alpha.txt", None));
    assert "zebra.txt"[0] == 'z' && "alpha.txt"[0] == 'a';
    assert !NameLe("zebra.txt", "alpha.txt");
  }

  lemma WithParentAppend(files: seq<FileNode>, x: FileNode, parent: Option<string>)
    ensures WithParent(files + [x], parent) == WithParent(files, parent) + (if x.parentId == parent then [x] else [])
  {
    assert (files + [x])[..|files|] == files;
  }

  lemma WithParentOne(x: FileNode, parent: Option<string>)
    ensures WithParent([x], parent) == if x.parentId == parent then [x] else []
  {
    WithParentAppend([], x, parent);
    assert [] + [x] == [x];
  }

  lemma ChildrenExample()
    ensures var src := FileNode("1", "src", Schema.Folder, "/src", None);
      var index := FileNode("2", "index.ts", Schema.File, "/src/index.ts", Some("1"));
      var components := FileNode("3", "components", Schema.Folder, "/src/components", Some("1"));
      GetChildren([src, index, components], "1") == [components, index]
  {
    var src := FileNode("1", "src", Schema.Folder, "/src", None);
    var index := FileNode("2", "index.ts", Schema.File, "/src/index.ts", Some("1"));
    var components := FileNode("3", "components", Schema.Folder, "/src/components", Some("1"));
    WithParentOne(src, Some("1"));
    WithParentAppend([src], index, Some("1"));
    WithParentAppend([src, index], components, Some("1"));
    assert [src] + [index] == [src, index];
    assert [src, index] + [components] == [src, index, components];
    SortPair(index, components);
  }

  lemma RootsExample()
    ensures var src := FileNode("1", "src", Schema.Folder, "/src", None);
      var index := FileNode("2", "index.ts", Schema.File, "/src/index.ts", Some("1"));
      && SortNodes(WithParent([src, index], None)) == [src]
      && GetChildren([src], "1") == []
  {
    var src := FileNode("1", "src", Schema.Folder, "/src", None);
    var index := FileNode("2", "index.ts", Schema.File, "/src/index.ts", Some("1"));
    WithParentOne(src, None);
    WithParentOne(src, Some("1"));
    WithParentAppend([src], index, None);
    assert [src] + [index] == [src, index];
    assert [src][1..] == [];
  }
}
