/** The folder statistics export of imanage_stats.py: `_export_recursive` writes one CSV row per
    reachable folder of one workspace, and none per document. */
module FolderStats {
  import opened Wrappers
  import opened Seqs
  import opened Sink
  import opened Hierarchy

  /** One row of the statistics file. */
  datatype StatsRow = StatsRow(name: string, id: string, parentId: string, documentCount: nat, path: string)

  const StatsFieldnames: seq<string> := ["Folder Name", "Folder ID", "Parent ID", "Document Count", "Path"]

  /** The row written when the walk reaches a folder: the count is the length of the folder's own
      document listing, which is 0 when that listing fails. */
  function StatsRowOf(v: Visit): (r: StatsRow)
    ensures r.documentCount == |Listed(v.folder.documents)|
    ensures v.folder.documents.status != 200 ==> r.documentCount == 0
  {
    StatsRow(v.folder.name, v.folder.id, v.parentId, |Listed(v.folder.documents)|, v.path)
  }

  /** `_export_recursive(writer, ..., workspace_id, folder_id, path)` of imanage_stats.py, given
      the answer to the folder listing it requests. */
  method ExportRecursive(
    writer: Writer<StatsRow>, wsId: string, folderId: Option<string>, path: string, folders: Response<Folder>)
    modifies writer
    ensures writer.rows == old(writer.rows) + Map(StatsRowOf, PreOrder(wsId, folderId, path, Listed(folders)))
    decreases folders
  {
    var fs := Listed(folders);
    var i := 0;
    while i < |fs|
      invariant 0 <= i <= |fs|
      invariant writer.rows == old(writer.rows) + Map(StatsRowOf, PreOrder(wsId, folderId, path, fs[..i]))
    {
      var folder := fs[i];
      var folderPath := path + "/" + folder.name;
      var documents := Listed(folder.documents);
      writer.WriteRow(StatsRow(folder.name, folder.id, ParentId(folderId, wsId), |documents|, folderPath));
      ExportRecursive(writer, wsId, Some(folder.id), folderPath, folder.folders);
      MapPreOrderStep(StatsRowOf, old(writer.rows), wsId, folderId, path, fs, i);
      i := i + 1;
    }
    assert fs[..i] == fs;
  }

  /** `export_folder_stats` of either file: the header, then the rows of the walk from the
      workspace's own folder listing, starting from the empty path. */
  method ExportFolderStats(wsId: string, folders: Response<Folder>)
    returns (header: seq<string>, rows: seq<StatsRow>)
    ensures header == StatsFieldnames
    ensures rows == Map(StatsRowOf, PreOrder(wsId, None, "", Listed(folders)))
  {
    var writer := new Writer<StatsRow>();
    ExportRecursive(writer, wsId, None, "", folders);
    header := StatsFieldnames;
    rows := writer.rows;
  }

  /** Exactly one row per reachable folder, in pre-order: each row is a folder listed in the
      workspace or under the folder of an EARLIER row, with Parent ID the listing folder's id
      (the workspace id at top level) and Path the parent's Path + "/" + name, starting from
      "/name" at top level; and every folder listed under a row's folder has a LATER row. */
  lemma StatsRowsShape(wsId: string, folders: Response<Folder>)
    ensures var v := PreOrder(wsId, None, "", Listed(folders));
      var rows := Map(StatsRowOf, v);
      && |rows| == |v|
      && (forall k :: 0 <= k < |rows| ==>
            rows[k].name == v[k].folder.name && rows[k].id == v[k].folder.id
            && rows[k].parentId == v[k].parentId && rows[k].path == v[k].path
            && rows[k].documentCount == |Listed(v[k].folder.documents)|)
      && Parented(v, wsId, None, "", Listed(folders))
      && CoversListing(v, wsId, None, "", Listed(folders))
      && Complete(v, wsId)
  {
    PreOrderShape(wsId, None, "", Listed(folders));
  }

  /** A top-level folder's row has Path "/" + name and Parent ID the workspace id. */
  lemma TopLevelStatsRow(wsId: string, folders: Response<Folder>, k: nat)
    requires k < |Listed(folders)|
    ensures exists j :: (0 <= j < |PreOrder(wsId, None, "", Listed(folders))|
      && Map(StatsRowOf, PreOrder(wsId, None, "", Listed(folders)))[j]
         == StatsRow(Listed(folders)[k].name, Listed(folders)[k].id, wsId,
                     |Listed(Listed(folders)[k].documents)|, "/" + Listed(folders)[k].name))
  {
    var fs := Listed(folders);
    var v := PreOrder(wsId, None, "", fs);
    PreOrderShape(wsId, None, "", fs);
    var j :| 0 <= j < |v| && v[j] == Visit(fs[k], ParentId(None, wsId), "" + "/" + fs[k].name);
    assert "" + "/" + fs[k].name == "/" + fs[k].name;
    assert Map(StatsRowOf, v)[j] == StatsRowOf(v[j]);
  }
}
