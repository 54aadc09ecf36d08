/** `extract_all_folders` (test_ii.py): one printed line per reachable folder, with the folder's
    name, id and path. */
module FolderPaths {
  import opened Wrappers
  import opened Seqs
  import opened Text
  import opened Hierarchy

  /** The line printed for a visited folder. */
  function FolderLineText(v: Visit): string {
    "Folder: " + v.folder.name + " | ID: " + v.folder.id + " | Path: " + v.path
  }

  /** `extract_all_folders(..., workspace_id, folder_id, path)`, given the answer to the folder
      listing that `get_folders` requests for it: the printed lines, in order. */
  method ExtractAllFolders(wsId: string, folderId: Option<string>, path: string, folders: Response<Folder>)
    returns (lines: seq<string>)
    ensures lines == Map(FolderLineText, PreOrder(wsId, folderId, path, Listed(folders)))
    decreases folders
  {
    var fs := Listed(folders);
    lines := [];
    var i := 0;
    while i < |fs|
      invariant 0 <= i <= |fs|
      invariant lines == Map(FolderLineText, PreOrder(wsId, folderId, path, fs[..i]))
    {
      var folder := fs[i];
      var folderPath := path + "/" + folder.name;
      var line := FolderLineText(Visit(folder, ParentId(folderId, wsId), folderPath));
      var below := ExtractAllFolders(wsId, Some(folder.id), folderPath, folder.folders);
      ghost var prev := lines;
      lines := lines + [line] + below;
      assert lines == Map(FolderLineText, PreOrder(wsId, folderId, path, fs[..i + 1])) by {
        MapPreOrderStep(FolderLineText, [], wsId, folderId, path, fs, i);
        assert [] + prev == prev;
      }
      i := i + 1;
    }
    assert fs[..i] == fs;
  }

  /** Every printed line ends with its folder's path, which is the path of the folder it is
      listed under + "/" + its name: "/name" at the top, since the walk starts from "". */
  lemma PrintedPaths(wsId: string, folders: Response<Folder>)
    ensures var v := PreOrder(wsId, None, "", Listed(folders));
      var lines := Map(FolderLineText, v);
      |lines| == |v|
      && (forall k :: 0 <= k < |v| ==>
            lines[k] == "Folder: " + v[k].folder.name + " | ID: " + v[k].folder.id + " | Path: " + v[k].path)
      && Parented(v, wsId, None, "", Listed(folders))
      && CoversListing(v, wsId, None, "", Listed(folders))
      && Complete(v, wsId)
  {
    PreOrderShape(wsId, None, "", Listed(folders));
  }
}
