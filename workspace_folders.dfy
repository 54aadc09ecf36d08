/** The folder-tree printer of QA_workspace_folders.py: `getFolder` prints one line per folder
    item, indented by a prefix that grows by "--" per level, and descends only into folders that
    report sub-folders. */
module WorkspaceFolders {
  import opened Seqs
  import opened Text

  /** An entry of a `children` listing: its `wstype`, name, id, `has_subfolders` flag, and the
      `data` list the server returns when its own children are requested. */
  datatype Item = Item(wstype: string, name: string, id: string, hasSubfolders: bool, children: seq<Item>)

  predicate IsFolderItem(it: Item) {
    it.wstype == "folder"
  }

  /** The text printed for a folder item behind `prefix`. */
  function ItemText(prefix: string, it: Item): string {
    prefix + it.name + " (" + it.id + ")"
  }

  /** The lines `getFolder` prints for one item of a listing. */
  function ItemLines(it: Item, prefix: string): seq<string>
    decreases it, 1
  {
    if IsFolderItem(it) then
      [ItemText(prefix, it)] + (if it.hasSubfolders then TreeLines(it.children, prefix + "--") else [])
    else []
  }

  /** The lines `getFolder(folder_list, prefix)` prints. */
  function TreeLines(items: seq<Item>, prefix: string): seq<string>
    decreases items
  {
    if items == [] then [] else ItemLines(items[0], prefix) + TreeLines(items[1..], prefix)
  }

  lemma {:induction false} TreeLinesConcat(items: seq<Item>, more: seq<Item>, prefix: string)
    ensures TreeLines(items + more, prefix) == TreeLines(items, prefix) + TreeLines(more, prefix)
  {
    if items == [] {
      assert items + more == more;
    } else {
      assert (items + more)[0] == items[0];
      assert (items + more)[1..] == items[1..] + more;
      TreeLinesConcat(items[1..], more, prefix);
    }
  }

  lemma TreeLinesStep(items: seq<Item>, i: nat, prefix: string)
    requires i < |items|
    ensures TreeLines(items[..i + 1], prefix) == TreeLines(items[..i], prefix) + ItemLines(items[i], prefix)
  {
    assert items[..i + 1] == items[..i] + [items[i]];
    TreeLinesConcat(items[..i], [items[i]], prefix);
    assert TreeLines([items[i]], prefix) == ItemLines(items[i], prefix) + [];
  }

  /** `getFolder(folder_list, prefix)`: the printed lines, in order. */
  method GetFolder(folderList: seq<Item>, prefix: string) returns (lines: seq<string>)
    ensures lines == TreeLines(folderList, prefix)
    decreases folderList
  {
    lines := [];
    if |folderList| == 0 {
      return;
    }
    var i := 0;
    while i < |folderList|
      invariant 0 <= i <= |folderList|
      invariant lines == TreeLines(folderList[..i], prefix)
    {
      var folder := folderList[i];
      ghost var before := lines;
      if folder.wstype == "folder" {
        lines := lines + [prefix + folder.name + " (" + folder.id + ")"];
        if folder.hasSubfolders {
          var newprefix := prefix + "--";
          var below := GetFolder(folder.children, newprefix);
          lines := lines + below;
        }
      }
      assert lines == before + ItemLines(folder, prefix);
      TreeLinesStep(folderList, i, prefix);
      i := i + 1;
    }
    assert folderList[..i] == folderList;
  }

  /** The answer to the request for the workspace itself. */
  datatype WorkspaceAnswer = WorkspaceAnswer(status: int, name: string, errorMessage: string)

  /** The answer to the request for the workspace's children. */
  datatype ChildrenAnswer = ChildrenAnswer(status: int, items: seq<Item>)

  /** The script's top level: the workspace's name and its folder tree from prefix "|--", nothing
      when the children request fails, and the error message when the workspace request does. */
  method Report(workspace: WorkspaceAnswer, children: ChildrenAnswer) returns (lines: seq<string>)
    ensures workspace.status != 200 ==> lines == ["Task failed.", workspace.errorMessage]
    ensures workspace.status == 200 && children.status != 200 ==> lines == []
    ensures workspace.status == 200 && children.status == 200 ==>
      lines == ["The names and IDs of folders within workspace \"" + workspace.name + "\":\n",
                "-" + workspace.name]
               + TreeLines(children.items, "|--")
  {
    if workspace.status == 200 {
      var workspaceName := workspace.name;
      if children.status == 200 {
        var tree := GetFolder(children.items, "|--");
        lines := ["The names and IDs of folders within workspace \"" + workspaceName + "\":\n",
                  "-" + workspaceName] + tree;
      } else {
        lines := [];
      }
    } else {
      lines := ["Task failed.", workspace.errorMessage];
    }
  }

  // ---------------------------------------------------------------------------------------
  // Properties

  /** The folder items `getFolder` reaches, in printing order, each with its depth below the
      listing it starts from: every folder item of the listing, followed by what its
      sub-folder listing reaches one level deeper when it reports sub-folders. */
  function Reached(items: seq<Item>, depth: nat): seq<(Item, nat)>
    decreases items
  {
    if items == [] then []
    else
      var it := items[0];
      (if IsFolderItem(it) then
         [(it, depth)] + (if it.hasSubfolders then Reached(it.children, depth + 1) else [])
       else [])
      + Reached(items[1..], depth)
  }

  /** Every reached item is a folder item: other items are neither printed nor descended into. */
  lemma {:induction false} ReachedAreFolders(items: seq<Item>, depth: nat)
    ensures forall e :: e in Reached(items, depth) ==> IsFolderItem(e.0) && e.1 >= depth
    decreases items
  {
    if items != [] {
      var it := items[0];
      if IsFolderItem(it) && it.hasSubfolders {
        ReachedAreFolders(it.children, depth + 1);
      }
      ReachedAreFolders(items[1..], depth);
    }
  }

  /** The line of a folder item reached at `depth` below a listing printed with `prefix`. */
  function LineAt(prefix: string, e: (Item, nat)): string {
    prefix + Repeat("--", e.1) + e.0.name + " (" + e.0.id + ")"
  }

  /** Each printed line is `prefix`, then "--" once per level of descent, then the folder's
      name and " (id)": the lines correspond one to one to the reached folder items. */
  lemma {:induction false} LinesAreReached(items: seq<Item>, prefix: string, depth: nat)
    ensures TreeLines(items, prefix + Repeat("--", depth))
      == Map((e: (Item, nat)) => LineAt(prefix, e), Reached(items, depth))
    decreases items
  {
    var F := (e: (Item, nat)) => LineAt(prefix, e);
    if items != [] {
      var it := items[0];
      var p := prefix + Repeat("--", depth);
      LinesAreReached(items[1..], prefix, depth);
      assert Reached(items, depth) == (if IsFolderItem(it) then
         [(it, depth)] + (if it.hasSubfolders then Reached(it.children, depth + 1) else [])
       else []) + Reached(items[1..], depth);
      if IsFolderItem(it) {
        var sub := if it.hasSubfolders then Reached(it.children, depth + 1) else [];
        if it.hasSubfolders {
          LinesAreReached(it.children, prefix, depth + 1);
          RepeatSnoc("--", depth);
          assert p + "--" == prefix + Repeat("--", depth + 1);
        }
        assert ItemText(p, it) == F((it, depth));
        assert ItemLines(it, p) == [F((it, depth))] + Map(F, sub);
        MapConcat(F, [(it, depth)], sub);
        MapConcat(F, [(it, depth)] + sub, Reached(items[1..], depth));
      } else {
        assert Reached(items, depth) == Reached(items[1..], depth);
      }
    }
  }

  /** The lines printed from the top-level prefix "|--": one per reached folder item, with
      "|--" followed by "--" once per level. */
  lemma TopLevelLines(items: seq<Item>)
    ensures var lines := TreeLines(items, "|--");
      var reached := Reached(items, 0);
      |lines| == |reached|
      && forall k :: 0 <= k < |lines| ==>
           IsFolderItem(reached[k].0)
           && lines[k] == "|--" + Repeat("--", reached[k].1) + reached[k].0.name + " (" + reached[k].0.id + ")"
  {
    LinesAreReached(items, "|--", 0);
    assert "|--" + Repeat("--", 0) == "|--";
    ReachedAreFolders(items, 0);
    var reached := Reached(items, 0);
    forall k | 0 <= k < |reached| ensures IsFolderItem(reached[k].0) {
      assert reached[k] in reached;
    }
  }

  /** Items that are not folders change nothing: printing the listing gives the same lines as
      printing only its folder items. */
  lemma {:induction false} NonFoldersIgnored(items: seq<Item>, prefix: string)
    ensures TreeLines(items, prefix) == TreeLines(Filter(IsFolderItem, items), prefix)
  {
    if items != [] {
      NonFoldersIgnored(items[1..], prefix);
      var it := items[0];
      var rest := Filter(IsFolderItem, items[1..]);
      if IsFolderItem(it) {
        assert Filter(IsFolderItem, items) == [it] + rest;
        assert ([it] + rest)[1..] == rest;
      } else {
        assert Filter(IsFolderItem, items) == rest;
      }
    }
  }

  /** A folder that does not report sub-folders prints its own line only. */
  lemma NoDescentWithoutSubfolders(it: Item, prefix: string)
    requires IsFolderItem(it) && !it.hasSubfolders
    ensures ItemLines(it, prefix) == [prefix + it.name + " (" + it.id + ")"]
  {
  }
}
