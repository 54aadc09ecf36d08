/** `iManageFolderStatsExporter` (stats_imanage_api.py): the class form of the folder statistics
    export, whose `_export_recursive` writes the same rows as the module-level one. */
module StatsExporter {
  import opened Wrappers
  import opened Seqs
  import opened Sink
  import opened Hierarchy
  import FolderStats

  /** The exporter object of stats_imanage_api.py. */
  class FolderStatsExporter {
    var serverUrl: string
    var token: string
    var headers: map<string, string>

    /** `__init__` once `authenticate` has returned `token`. */
    constructor (serverUrl: string, token: string)
      ensures this.serverUrl == serverUrl && this.token == token
      ensures headers == map["Authorization" := "Bearer " + token]
    {
      this.serverUrl := serverUrl;
      this.token := token;
      headers := map["Authorization" := "Bearer " + token];
    }

    /** `_export_recursive` of the class, which writes the same rows as the module-level one. */
    method ExportRecursive(
      writer: Writer<FolderStats.StatsRow>, wsId: string, folderId: Option<string>, path: string, folders: Response<Folder>)
      modifies writer
      ensures writer.rows == old(writer.rows) + Map(FolderStats.StatsRowOf, PreOrder(wsId, folderId, path, Listed(folders)))
    {
      FolderStats.ExportRecursive(writer, wsId, folderId, path, folders);
    }

    /** `export_folder_stats`: the header, then the rows of the walk from the workspace's own
        folder listing. */
    method ExportFolderStats(wsId: string, folders: Response<Folder>)
      returns (header: seq<string>, rows: seq<FolderStats.StatsRow>)
      ensures header == FolderStats.StatsFieldnames
      ensures rows == Map(FolderStats.StatsRowOf, PreOrder(wsId, None, "", Listed(folders)))
    {
      var writer := new Writer<FolderStats.StatsRow>();
      ExportRecursive(writer, wsId, None, "", folders);
      header := FolderStats.StatsFieldnames;
      rows := writer.rows;
    }
  }
}
