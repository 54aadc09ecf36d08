/** `iManageHierarchyLister` (ZZ_imanage1.py): the CSV export of a library's whole hierarchy,
    one row per workspace, folder and document, and the indented console listing of the same
    hierarchy. */
module HierarchyExport {
  import opened Wrappers
  import opened Seqs
  import opened Text
  import opened Sink
  import opened Hierarchy

  datatype Kind = WorkspaceKind | FolderKind | DocumentKind

  /** The text of the `Type` column and of the console tag. */
  function TypeName(k: Kind): string {
    match k
    case WorkspaceKind => "WORKSPACE"
    case FolderKind => "FOLDER"
    case DocumentKind => "DOCUMENT"
  }

  /** One CSV row, one field per column of `Fieldnames`. */
  datatype Row = Row(
    kind: Kind, name: string, id: string, parentId: string, workspaceId: string, path: string,
    version: string, extension: string, size: string)

  const Fieldnames: seq<string> :=
    ["Type", "Name", "ID", "Parent_ID", "Workspace_ID", "Path", "Version", "Extension", "Size"]

  /** The cells of a row, in the order of `Fieldnames`. */
  function Cells(r: Row): (cells: seq<string>)
    ensures |cells| == |Fieldnames|
  {
    [TypeName(r.kind), r.name, r.id, r.parentId, r.workspaceId, r.path, r.version, r.extension, r.size]
  }

  predicate IsWorkspaceRow(r: Row) { r.kind == WorkspaceKind }
  predicate IsFolderRow(r: Row) { r.kind == FolderKind }
  predicate IsDocumentRow(r: Row) { r.kind == DocumentKind }

  function WorkspaceRow(w: Workspace): Row {
    Row(WorkspaceKind, w.name, w.id, "", w.id, "/" + w.name, "", "", "")
  }

  /** The row of folder `f` listed in the container `folderId` (falsy for the workspace itself)
      whose path is `path`. */
  function FolderRow(wsId: string, folderId: Option<string>, path: string, f: Folder): Row {
    Row(FolderKind, f.name, f.id, ParentId(folderId, wsId), wsId, path + "/" + f.name, "", "", "")
  }

  /** The cell `csv.DictWriter` writes for `document.get(key, '')`: the `''` default for an
      absent key, and `''` again for `None`. */
  function CsvCell(a: Attr): (cell: string)
    ensures a.Rendered? ==> cell == a.text
    ensures !a.Rendered? ==> cell == ""
  {
    match a
    case Rendered(text) => text
    case _ => ""
  }

  /** The row of document `d` listed in that container. */
  function DocumentRow(wsId: string, folderId: Option<string>, path: string, d: Document): Row {
    Row(DocumentKind, d.name, d.id, ParentId(folderId, wsId), wsId, path + "/" + d.name,
        CsvCell(d.version), CsvCell(d.extension), CsvCell(d.size))
  }

  /** The rows of a container's documents, one per listed document, in listing order. */
  function DocumentRows(wsId: string, folderId: Option<string>, path: string, ds: seq<Document>)
    : (rows: seq<Row>)
    ensures |rows| == |ds|
    ensures forall i :: 0 <= i < |ds| ==> rows[i] == DocumentRow(wsId, folderId, path, ds[i])
  {
    seq(|ds|, i requires 0 <= i < |ds| => DocumentRow(wsId, folderId, path, ds[i]))
  }

  /** The rows written for folder `f` of a container's folder listing: its own row, then the
      rows of its sub-folders with their subtrees, then those of its documents. */
  function FolderBlock(wsId: string, folderId: Option<string>, path: string, f: Folder): seq<Row>
    decreases f, 1
  {
    var p := path + "/" + f.name;
    [FolderRow(wsId, folderId, path, f)]
      + ((if Listed(f.folders) == [] then [] else FolderBlocks(wsId, Some(f.id), p, f.folders.data))
         + DocumentRows(wsId, Some(f.id), p, Listed(f.documents)))
  }

  /** The rows the `for folder in folders` loop writes for the folders `fs`. */
  function FolderBlocks(wsId: string, folderId: Option<string>, path: string, fs: seq<Folder>)
    : seq<Row>
    decreases fs
  {
    if fs == [] then [] else FolderBlock(wsId, folderId, path, fs[0]) + FolderBlocks(wsId, folderId, path, fs[1..])
  }

  /** The rows written for one container (the `else` branch of `_export_hierarchy_csv`): its
      folders with their subtrees, then its documents. */
  function ContainerRows(
    wsId: string, folderId: Option<string>, path: string,
    folders: Response<Folder>, documents: Response<Document>): seq<Row>
  {
    FolderBlocks(wsId, folderId, path, Listed(folders))
      + DocumentRows(wsId, folderId, path, Listed(documents))
  }

  /** The rows written for the workspaces `ws`: each workspace's row, then its container rows. */
  function WorkspaceBlocks(ws: seq<Workspace>): seq<Row> {
    if ws == [] then []
    else
      var w := ws[0];
      [WorkspaceRow(w)] + ContainerRows(w.id, None, "/" + w.name, w.folders, w.documents)
        + WorkspaceBlocks(ws[1..])
  }

  /** All rows `export_to_csv` writes below the header, given the library's workspace listing. */
  function LibraryRows(workspaces: Response<Workspace>): seq<Row> {
    WorkspaceBlocks(Listed(workspaces))
  }

  /** A folder's block is its row followed by the rows of its own container. */
  lemma FolderBlockRows(wsId: string, folderId: Option<string>, path: string, f: Folder)
    ensures FolderBlock(wsId, folderId, path, f)
      == [FolderRow(wsId, folderId, path, f)]
         + ContainerRows(wsId, Some(f.id), path + "/" + f.name, f.folders, f.documents)
  {
    if Listed(f.folders) == [] {
      assert FolderBlocks(wsId, Some(f.id), path + "/" + f.name, []) == [];
    }
  }

  lemma {:induction false} FolderBlocksConcat(
    wsId: string, folderId: Option<string>, path: string, fs: seq<Folder>, gs: seq<Folder>)
    ensures FolderBlocks(wsId, folderId, path, fs + gs)
      == FolderBlocks(wsId, folderId, path, fs) + FolderBlocks(wsId, folderId, path, gs)
  {
    if fs == [] {
      assert fs + gs == gs;
    } else {
      assert (fs + gs)[0] == fs[0];
      assert (fs + gs)[1..] == fs[1..] + gs;
      FolderBlocksConcat(wsId, folderId, path, fs[1..], gs);
    }
  }

  lemma FolderBlocksSnoc(wsId: string, folderId: Option<string>, path: string, fs: seq<Folder>, f: Folder)
    ensures FolderBlocks(wsId, folderId, path, fs + [f])
      == FolderBlocks(wsId, folderId, path, fs)
         + ([FolderRow(wsId, folderId, path, f)]
            + ContainerRows(wsId, Some(f.id), path + "/" + f.name, f.folders, f.documents))
  {
    FolderBlocksConcat(wsId, folderId, path, fs, [f]);
    assert FolderBlocks(wsId, folderId, path, [f]) == FolderBlock(wsId, folderId, path, f);
    FolderBlockRows(wsId, folderId, path, f);
  }

  /** One more turn of the folder loop, as the export method sees it. */
  lemma FolderBlocksStep(
    prefix: seq<Row>, wsId: string, folderId: Option<string>, path: string, fs: seq<Folder>, i: nat)
    requires i < |fs|
    ensures prefix + FolderBlocks(wsId, folderId, path, fs[..i]) + [FolderRow(wsId, folderId, path, fs[i])]
      + ContainerRows(wsId, Some(fs[i].id), path + "/" + fs[i].name, fs[i].folders, fs[i].documents)
      == prefix + FolderBlocks(wsId, folderId, path, fs[..i + 1])
  {
    var before := FolderBlocks(wsId, folderId, path, fs[..i]);
    var top := FolderRow(wsId, folderId, path, fs[i]);
    var below := ContainerRows(wsId, Some(fs[i].id), path + "/" + fs[i].name, fs[i].folders, fs[i].documents);
    assert FolderBlocks(wsId, folderId, path, fs[..i + 1]) == before + ([top] + below) by {
      TakeSnoc(fs, i);
      FolderBlocksSnoc(wsId, folderId, path, fs[..i], fs[i]);
    }
    AppendAssoc(prefix + before, [top], below);
    AppendAssoc(prefix, before, [top] + below);
  }

  lemma {:induction false} WorkspaceBlocksConcat(ws: seq<Workspace>, vs: seq<Workspace>)
    ensures WorkspaceBlocks(ws + vs) == WorkspaceBlocks(ws) + WorkspaceBlocks(vs)
  {
    if ws == [] {
      assert ws + vs == vs;
    } else {
      assert (ws + vs)[0] == ws[0];
      assert (ws + vs)[1..] == ws[1..] + vs;
      WorkspaceBlocksConcat(ws[1..], vs);
    }
  }

  /** One more turn of the workspace loop, as the export method sees it. */
  lemma WorkspaceBlocksStep(prefix: seq<Row>, ws: seq<Workspace>, i: nat)
    requires i < |ws|
    ensures prefix + WorkspaceBlocks(ws[..i]) + [WorkspaceRow(ws[i])]
      + ContainerRows(ws[i].id, None, "/" + ws[i].name, ws[i].folders, ws[i].documents)
      == prefix + WorkspaceBlocks(ws[..i + 1])
  {
    var before := WorkspaceBlocks(ws[..i]);
    var top := WorkspaceRow(ws[i]);
    var below := ContainerRows(ws[i].id, None, "/" + ws[i].name, ws[i].folders, ws[i].documents);
    assert WorkspaceBlocks(ws[..i + 1]) == before + ([top] + below) by {
      TakeSnoc(ws, i);
      WorkspaceBlocksConcat(ws[..i], [ws[i]]);
      assert WorkspaceBlocks([ws[i]]) == [top] + below;
    }
    AppendAssoc(prefix + before, [top], below);
    AppendAssoc(prefix, before, [top] + below);
  }

  /** The lister object: the server URL and the bearer token it authenticated with. */
  class HierarchyLister {
    var serverUrl: string
    var token: string
    var headers: map<string, string>

    /** `__init__` once `authenticate` has returned `token`. */
    constructor (serverUrl: string, token: string)
      ensures this.serverUrl == serverUrl && this.token == token
      ensures headers == map["Authorization" := "Bearer " + token]
    {
      this.serverUrl := serverUrl;
      this.token := token;
      headers := map["Authorization" := "Bearer " + token];
    }

    /** `_export_hierarchy_csv` below a container: `folderId` is `None` for the workspace
        itself. Writes exactly `ContainerRows` after what the writer already holds. */
    method ExportContainer(
      writer: Writer<Row>, wsId: string, folderId: Option<string>, path: string,
      folders: Response<Folder>, documents: Response<Document>)
      modifies writer
      ensures writer.rows == old(writer.rows) + ContainerRows(wsId, folderId, path, folders, documents)
      decreases folders, 1
    {
      ExportFolders(writer, wsId, folderId, path, folders);
      ExportDocuments(writer, wsId, folderId, path, Listed(documents));
      AppendAssoc(old(writer.rows), FolderBlocks(wsId, folderId, path, Listed(folders)),
                  DocumentRows(wsId, folderId, path, Listed(documents)));
    }

    /** The `for folder in folders` loop of `_export_hierarchy_csv`: each folder's row, then
        the recursive export below it. */
    method ExportFolders(
      writer: Writer<Row>, wsId: string, folderId: Option<string>, path: string, folders: Response<Folder>)
      modifies writer
      ensures writer.rows == old(writer.rows) + FolderBlocks(wsId, folderId, path, Listed(folders))
      decreases folders, 0
    {
      var fs := Listed(folders);
      var i := 0;
      while i < |fs|
        invariant 0 <= i <= |fs|
        invariant writer.rows == old(writer.rows) + FolderBlocks(wsId, folderId, path, fs[..i])
      {
        var f := fs[i];
        var folderPath := path + "/" + f.name;
        writer.WriteRow(FolderRow(wsId, folderId, path, f));
        ExportContainer(writer, wsId, Some(f.id), folderPath, f.folders, f.documents);
        FolderBlocksStep(old(writer.rows), wsId, folderId, path, fs, i);
        i := i + 1;
      }
      assert fs[..i] == fs;
    }

    /** The `for doc in documents` loop of `_export_hierarchy_csv`. */
    method ExportDocuments(writer: Writer<Row>, wsId: string, folderId: Option<string>, path: string, ds: seq<Document>)
      modifies writer
      ensures writer.rows == old(writer.rows) + DocumentRows(wsId, folderId, path, ds)
    {
      var j := 0;
      while j < |ds|
        invariant 0 <= j <= |ds|
        invariant writer.rows == old(writer.rows) + DocumentRows(wsId, folderId, path, ds[..j])
      {
        writer.WriteRow(DocumentRow(wsId, folderId, path, ds[j]));
        assert DocumentRows(wsId, folderId, path, ds[..j + 1])
          == DocumentRows(wsId, folderId, path, ds[..j]) + [DocumentRow(wsId, folderId, path, ds[j])];
        j := j + 1;
      }
      assert ds[..j] == ds;
    }

    /** `_export_hierarchy_csv` at library level (`workspace_id is None`). */
    method ExportHierarchyCsv(writer: Writer<Row>, workspaces: Response<Workspace>)
      modifies writer
      ensures writer.rows == old(writer.rows) + LibraryRows(workspaces)
    {
      var ws := Listed(workspaces);
      var i := 0;
      while i < |ws|
        invariant 0 <= i <= |ws|
        invariant writer.rows == old(writer.rows) + WorkspaceBlocks(ws[..i])
      {
        var w := ws[i];
        var workspacePath := "/" + w.name;
        writer.WriteRow(WorkspaceRow(w));
        ExportContainer(writer, w.id, None, workspacePath, w.folders, w.documents);
        WorkspaceBlocksStep(old(writer.rows), ws, i);
        i := i + 1;
      }
      assert ws[..i] == ws;
    }

    /** `export_to_csv`: the header, then every row of the library's hierarchy. */
    method ExportToCsv(workspaces: Response<Workspace>) returns (header: seq<string>, rows: seq<Row>)
      ensures header == Fieldnames
      ensures rows == LibraryRows(workspaces)
    {
      var writer := new Writer<Row>();
      ExportHierarchyCsv(writer, workspaces);
      header := Fieldnames;
      rows := writer.rows;
    }

    /** `list_hierarchy` at library level: the lines printed, from `level` on. */
    method ListHierarchy(workspaces: Response<Workspace>, level: nat) returns (lines: seq<Line>)
      ensures lines == LibraryLines(level, Listed(workspaces))
    {
      var ws := Listed(workspaces);
      lines := [];
      var i := 0;
      while i < |ws|
        invariant 0 <= i <= |ws|
        invariant lines == LibraryLines(level, ws[..i])
      {
        var w := ws[i];
        var below := ListContainer(level + 1, w.folders, w.documents);
        lines := lines + ([Line(level, WorkspaceKind, w.name, w.id, "")] + below);
        TakeSnoc(ws, i);
        LibraryLinesSnoc(level, ws[..i], w);
        i := i + 1;
      }
      assert ws[..i] == ws;
    }

    /** `list_hierarchy` below a container, at indentation `level`. */
    method ListContainer(level: nat, folders: Response<Folder>, documents: Response<Document>)
      returns (lines: seq<Line>)
      ensures lines == ContainerLines(level, folders, documents)
      decreases folders
    {
      var fs := Listed(folders);
      lines := [];
      var i := 0;
      while i < |fs|
        invariant 0 <= i <= |fs|
        invariant lines == FolderLines(level, fs[..i])
      {
        var f := fs[i];
        var below := ListContainer(level + 1, f.folders, f.documents);
        lines := lines + ([Line(level, FolderKind, f.name, f.id, "")] + below);
        TakeSnoc(fs, i);
        FolderLinesSnoc(level, fs[..i], f);
        i := i + 1;
      }
      assert fs[..i] == fs;
      var ds := Listed(documents);
      var j := 0;
      while j < |ds|
        invariant 0 <= j <= |ds|
        invariant lines == FolderLines(level, fs) + DocumentLines(level, ds[..j])
      {
        DocumentLinesSnoc(level, ds, j);
        AppendAssoc(FolderLines(level, fs), DocumentLines(level, ds[..j]), [DocumentLine(level, ds[j])]);
        lines := lines + [DocumentLine(level, ds[j])];
        j := j + 1;
      }
      assert ds[..j] == ds;
    }
  }

  // ---------------------------------------------------------------------------------------
  // Properties of the CSV export

  lemma {:induction false} FolderBlockKinds(wsId: string, folderId: Option<string>, path: string, f: Folder)
    ensures forall r :: r in FolderBlock(wsId, folderId, path, f) ==> r.kind != WorkspaceKind
    decreases f, 1
  {
    if Listed(f.folders) != [] {
      FolderBlocksKinds(wsId, Some(f.id), path + "/" + f.name, f.folders.data);
    }
  }

  lemma {:induction false} FolderBlocksKinds(wsId: string, folderId: Option<string>, path: string, fs: seq<Folder>)
    ensures forall r :: r in FolderBlocks(wsId, folderId, path, fs) ==> r.kind != WorkspaceKind
    decreases fs
  {
    if fs != [] {
      FolderBlockKinds(wsId, folderId, path, fs[0]);
      FolderBlocksKinds(wsId, folderId, path, fs[1..]);
    }
  }

  lemma ContainerRowKinds(
    wsId: string, folderId: Option<string>, path: string,
    folders: Response<Folder>, documents: Response<Document>)
    ensures Filter(IsWorkspaceRow, ContainerRows(wsId, folderId, path, folders, documents)) == []
  {
    FolderBlocksKinds(wsId, folderId, path, Listed(folders));
    FilterNone(IsWorkspaceRow, ContainerRows(wsId, folderId, path, folders, documents));
  }

  /** The workspace rows of the export are exactly one row per listed workspace, in listing
      order. */
  lemma {:induction false} WorkspaceRowsOfLibrary(ws: seq<Workspace>)
    ensures Filter(IsWorkspaceRow, WorkspaceBlocks(ws)) == Map(WorkspaceRow, ws)
  {
    if ws != [] {
      var w := ws[0];
      var rows := ContainerRows(w.id, None, "/" + w.name, w.folders, w.documents);
      assert WorkspaceBlocks(ws) == [WorkspaceRow(w)] + rows + WorkspaceBlocks(ws[1..]);
      WorkspaceRowsOfLibrary(ws[1..]);
      ContainerRowKinds(w.id, None, "/" + w.name, w.folders, w.documents);
      FilterSkipMiddle(IsWorkspaceRow, WorkspaceRow(w), rows, WorkspaceBlocks(ws[1..]));
      MapConcat(WorkspaceRow, [w], ws[1..]);
      assert [w] + ws[1..] == ws;
    }
  }

  /** Each workspace row has Path `"/" + name`, an empty Parent_ID and its own id as
      Workspace_ID, and stands for a listed workspace. */
  lemma WorkspaceRowShape(workspaces: Response<Workspace>)
    ensures forall r :: r in LibraryRows(workspaces) && r.kind == WorkspaceKind ==>
      r.parentId == "" && r.path == "/" + r.name && r.workspaceId == r.id
      && exists w :: w in Listed(workspaces) && r == WorkspaceRow(w)
  {
    var ws := Listed(workspaces);
    WorkspaceRowsOfLibrary(ws);
    FilterMembers(IsWorkspaceRow, LibraryRows(workspaces));
    forall r | r in LibraryRows(workspaces) && r.kind == WorkspaceKind
      ensures r.parentId == "" && r.path == "/" + r.name && r.workspaceId == r.id
        && exists w :: w in ws && r == WorkspaceRow(w)
    {
      assert r in Filter(IsWorkspaceRow, LibraryRows(workspaces));
      var i :| 0 <= i < |ws| && Map(WorkspaceRow, ws)[i] == r;
      assert ws[i] in ws;
    }
  }

  function FolderRowOf(wsId: string, v: Visit): Row {
    Row(FolderKind, v.folder.name, v.folder.id, v.parentId, wsId, v.path, "", "", "")
  }

  lemma {:induction false} FolderBlockFollowsPreOrder(
    wsId: string, folderId: Option<string>, path: string, f: Folder)
    ensures Filter(IsFolderRow, FolderBlock(wsId, folderId, path, f))
      == Map((v: Visit) => FolderRowOf(wsId, v),
             [Visit(f, ParentId(folderId, wsId), path + "/" + f.name)]
             + PreOrder(wsId, Some(f.id), path + "/" + f.name, Listed(f.folders)))
    decreases f, 1
  {
    var F := (v: Visit) => FolderRowOf(wsId, v);
    var p := path + "/" + f.name;
    var kids := Listed(f.folders);
    if kids != [] {
      FolderBlocksFollowPreOrder(wsId, Some(f.id), p, f.folders.data);
    }
    FolderBlockRows(wsId, folderId, path, f);
    var row := FolderRow(wsId, folderId, path, f);
    var sub := FolderBlocks(wsId, Some(f.id), p, kids);
    var docs := DocumentRows(wsId, Some(f.id), p, Listed(f.documents));
    FilterKeepHead(IsFolderRow, row, sub, docs);
    var top := Visit(f, ParentId(folderId, wsId), p);
    MapConcat(F, [top], PreOrder(wsId, Some(f.id), p, kids));
    assert F(top) == row;
  }

  /** The folder rows of a container's export are, in order, exactly the folders of the
      reference pre-order walk, each with the walk's path and parent id. */
  lemma {:induction false} FolderBlocksFollowPreOrder(
    wsId: string, folderId: Option<string>, path: string, fs: seq<Folder>)
    ensures Filter(IsFolderRow, FolderBlocks(wsId, folderId, path, fs))
      == Map((v: Visit) => FolderRowOf(wsId, v), PreOrder(wsId, folderId, path, fs))
    decreases fs
  {
    var F := (v: Visit) => FolderRowOf(wsId, v);
    if fs != [] {
      var f := fs[0];
      var p := path + "/" + f.name;
      FolderBlockFollowsPreOrder(wsId, folderId, path, f);
      FolderBlocksFollowPreOrder(wsId, folderId, path, fs[1..]);
      PreOrderUnfold(wsId, folderId, path, fs);
      FilterConcat(IsFolderRow, FolderBlock(wsId, folderId, path, f), FolderBlocks(wsId, folderId, path, fs[1..]));
      MapConcat(F, [Visit(f, ParentId(folderId, wsId), p)] + PreOrder(wsId, Some(f.id), p, Listed(f.folders)),
        PreOrder(wsId, folderId, path, fs[1..]));
    }
  }

  /** The number of documents listed directly in each visited folder. */
  function DocumentsOf(v: Visit): nat {
    |Listed(v.folder.documents)|
  }

  lemma {:induction false} FolderBlockDocuments(
    wsId: string, folderId: Option<string>, path: string, f: Folder)
    ensures |Filter(IsDocumentRow, FolderBlock(wsId, folderId, path, f))|
      == Sum(Map(DocumentsOf, [Visit(f, ParentId(folderId, wsId), path + "/" + f.name)]
               + PreOrder(wsId, Some(f.id), path + "/" + f.name, Listed(f.folders))))
    decreases f, 1
  {
    var p := path + "/" + f.name;
    var kids := Listed(f.folders);
    if kids != [] {
      FolderBlocksDocuments(wsId, Some(f.id), p, f.folders.data);
    }
    FolderBlockRows(wsId, folderId, path, f);
    var row := FolderRow(wsId, folderId, path, f);
    var sub := FolderBlocks(wsId, Some(f.id), p, kids);
    var docs := DocumentRows(wsId, Some(f.id), p, Listed(f.documents));
    FilterDropHead(IsDocumentRow, row, sub, docs);
    var top := Visit(f, ParentId(folderId, wsId), p);
    var visits := PreOrder(wsId, Some(f.id), p, kids);
    MapConcat(DocumentsOf, [top], visits);
    SumConcat(Map(DocumentsOf, [top]), Map(DocumentsOf, visits));
  }

  /** The document rows below a container's folders are as many as the documents listed in the
      folders the pre-order walk reaches. */
  lemma {:induction false} FolderBlocksDocuments(
    wsId: string, folderId: Option<string>, path: string, fs: seq<Folder>)
    ensures |Filter(IsDocumentRow, FolderBlocks(wsId, folderId, path, fs))|
      == Sum(Map(DocumentsOf, PreOrder(wsId, folderId, path, fs)))
    decreases fs
  {
    if fs != [] {
      var f := fs[0];
      var p := path + "/" + f.name;
      FolderBlockDocuments(wsId, folderId, path, f);
      FolderBlocksDocuments(wsId, folderId, path, fs[1..]);
      PreOrderUnfold(wsId, folderId, path, fs);
      FilterConcat(IsDocumentRow, FolderBlock(wsId, folderId, path, f), FolderBlocks(wsId, folderId, path, fs[1..]));
      var head := [Visit(f, ParentId(folderId, wsId), p)] + PreOrder(wsId, Some(f.id), p, Listed(f.folders));
      var rest := PreOrder(wsId, folderId, path, fs[1..]);
      MapConcat(DocumentsOf, head, rest);
      SumConcat(Map(DocumentsOf, head), Map(DocumentsOf, rest));
    }
  }

  lemma WorkspaceBlockShape(w: Workspace)
    ensures WorkspaceBlocks([w])
      == [WorkspaceRow(w)] + (FolderBlocks(w.id, None, "/" + w.name, Listed(w.folders))
                              + DocumentRows(w.id, None, "/" + w.name, Listed(w.documents)))
  {
    assert WorkspaceBlocks([w])
      == [WorkspaceRow(w)] + ContainerRows(w.id, None, "/" + w.name, w.folders, w.documents) + [];
  }

  lemma WorkspaceFolderRows(w: Workspace)
    ensures |Filter(IsFolderRow, WorkspaceBlocks([w]))|
      == |PreOrder(w.id, None, "/" + w.name, Listed(w.folders))|
  {
    var fb := FolderBlocks(w.id, None, "/" + w.name, Listed(w.folders));
    var docs := DocumentRows(w.id, None, "/" + w.name, Listed(w.documents));
    WorkspaceBlockShape(w);
    FolderBlocksFollowPreOrder(w.id, None, "/" + w.name, Listed(w.folders));
    FilterConcat(IsFolderRow, [WorkspaceRow(w)], fb + docs);
    FilterConcat(IsFolderRow, fb, docs);
    FilterNone(IsFolderRow, docs);
  }

  lemma WorkspaceDocumentRows(w: Workspace)
    ensures |Filter(IsDocumentRow, WorkspaceBlocks([w]))|
      == |Listed(w.documents)| + Sum(Map(DocumentsOf, PreOrder(w.id, None, "/" + w.name, Listed(w.folders))))
  {
    var fb := FolderBlocks(w.id, None, "/" + w.name, Listed(w.folders));
    var docs := DocumentRows(w.id, None, "/" + w.name, Listed(w.documents));
    WorkspaceBlockShape(w);
    FolderBlocksDocuments(w.id, None, "/" + w.name, Listed(w.folders));
    FilterDropHead(IsDocumentRow, WorkspaceRow(w), fb, docs);
  }

  /** Row count of one workspace's export: its own row, one row per folder the pre-order walk
      reaches, and one per document listed directly in the workspace or in a reached folder. */
  lemma WorkspaceRowCount(w: Workspace)
    ensures var rows := WorkspaceBlocks([w]);
      var visits := PreOrder(w.id, None, "/" + w.name, Listed(w.folders));
      && |Filter(IsWorkspaceRow, rows)| == 1
      && |Filter(IsFolderRow, rows)| == |visits|
      && |Filter(IsDocumentRow, rows)| == |Listed(w.documents)| + Sum(Map(DocumentsOf, visits))
  {
    WorkspaceRowsOfLibrary([w]);
    WorkspaceFolderRows(w);
    WorkspaceDocumentRows(w);
  }

  // ---------------------------------------------------------------------------------------
  // Pre-order, path and parent rules of the export

  /** The Parent_ID that rows listed under container row `p` carry. */
  function ContainerKey(p: Row): Option<string> {
    if p.kind == FolderKind then Some(p.id) else None
  }

  /** Row `r` belongs to the listing of the container written as row `p`. */
  predicate ChildRow(r: Row, p: Row) {
    p.kind != DocumentKind && r.kind != WorkspaceKind
      && r.workspaceId == p.workspaceId
      && r.path == p.path + "/" + r.name
      && r.parentId == ParentId(ContainerKey(p), p.workspaceId)
  }

  /** Row `r` belongs to the listing of the container `folderId` at `path`. */
  predicate TopRow(r: Row, wsId: string, folderId: Option<string>, path: string) {
    r.kind != WorkspaceKind && r.workspaceId == wsId
      && r.path == path + "/" + r.name && r.parentId == ParentId(folderId, wsId)
  }

  predicate RowParentedAt(rows: seq<Row>, k: nat, wsId: string, folderId: Option<string>, path: string)
    requires k < |rows|
  {
    TopRow(rows[k], wsId, folderId, path) || exists j :: 0 <= j < k && ChildRow(rows[k], rows[j])
  }

  /** Every row is either in the listing of the given container or in that of a container
      written EARLIER. */
  predicate RowsParented(rows: seq<Row>, wsId: string, folderId: Option<string>, path: string) {
    forall k :: 0 <= k < |rows| ==> RowParentedAt(rows, k, wsId, folderId, path)
  }

  lemma RowParentedShift(a: seq<Row>, b: seq<Row>, k: nat, wsId: string, folderId: Option<string>, path: string)
    requires k < |b| && RowParentedAt(b, k, wsId, folderId, path)
    ensures RowParentedAt(a + b, |a| + k, wsId, folderId, path)
  {
    var v := a + b;
    assert v[|a| + k] == b[k];
    if !TopRow(b[k], wsId, folderId, path) {
      var j :| 0 <= j < k && ChildRow(b[k], b[j]);
      assert v[|a| + j] == b[j];
    }
  }

  lemma RowParentedPrefix(a: seq<Row>, b: seq<Row>, k: nat, wsId: string, folderId: Option<string>, path: string)
    requires k < |a| && RowParentedAt(a, k, wsId, folderId, path)
    ensures RowParentedAt(a + b, k, wsId, folderId, path)
  {
    var v := a + b;
    assert v[k] == a[k];
    if !TopRow(a[k], wsId, folderId, path) {
      var j :| 0 <= j < k && ChildRow(a[k], a[j]);
      assert v[j] == a[j];
    }
  }

  lemma RowsParentedConcat(a: seq<Row>, b: seq<Row>, wsId: string, folderId: Option<string>, path: string)
    requires RowsParented(a, wsId, folderId, path) && RowsParented(b, wsId, folderId, path)
    ensures RowsParented(a + b, wsId, folderId, path)
  {
    var v := a + b;
    forall k | 0 <= k < |v| ensures RowParentedAt(v, k, wsId, folderId, path) {
      if k < |a| {
        assert RowParentedAt(a, k, wsId, folderId, path);
        RowParentedPrefix(a, b, k, wsId, folderId, path);
      } else {
        assert RowParentedAt(b, k - |a|, wsId, folderId, path);
        RowParentedShift(a, b, k - |a|, wsId, folderId, path);
      }
    }
  }

  lemma RowNestedAt(p: Row, c: seq<Row>, k: nat, wsId: string, folderId: Option<string>, path: string)
    requires 1 <= k <= |c| && p.kind != DocumentKind
    requires RowParentedAt(c, k - 1, p.workspaceId, ContainerKey(p), p.path)
    ensures RowParentedAt([p] + c, k, wsId, folderId, path)
  {
    var v := [p] + c;
    assert v[k] == c[k - 1];
    if TopRow(c[k - 1], p.workspaceId, ContainerKey(p), p.path) {
      assert v[0] == p;
      assert ChildRow(v[k], v[0]);
    } else {
      var j :| 0 <= j < k - 1 && ChildRow(c[k - 1], c[j]);
      assert v[j + 1] == c[j];
    }
  }

  /** A folder row followed by the rows written for its own listing. */
  lemma RowsNested(p: Row, c: seq<Row>, wsId: string, folderId: Option<string>, path: string)
    requires p.kind == FolderKind && TopRow(p, wsId, folderId, path)
    requires RowsParented(c, p.workspaceId, Some(p.id), p.path)
    ensures RowsParented([p] + c, wsId, folderId, path)
  {
    var v := [p] + c;
    forall k | 0 <= k < |v| ensures RowParentedAt(v, k, wsId, folderId, path) {
      if k == 0 {
        assert v[0] == p;
      } else {
        assert RowParentedAt(c, k - 1, p.workspaceId, ContainerKey(p), p.path);
        RowNestedAt(p, c, k, wsId, folderId, path);
      }
    }
  }

  lemma DocumentRowsParented(wsId: string, folderId: Option<string>, path: string, ds: seq<Document>)
    ensures RowsParented(DocumentRows(wsId, folderId, path, ds), wsId, folderId, path)
  {
    var rows := DocumentRows(wsId, folderId, path, ds);
    forall k | 0 <= k < |rows| ensures RowParentedAt(rows, k, wsId, folderId, path) {
      assert TopRow(rows[k], wsId, folderId, path);
    }
  }

  lemma {:induction false} FolderBlockParented(wsId: string, folderId: Option<string>, path: string, f: Folder)
    ensures RowsParented(FolderBlock(wsId, folderId, path, f), wsId, folderId, path)
    decreases f, 1
  {
    var p := path + "/" + f.name;
    var kids := Listed(f.folders);
    if kids != [] {
      FolderBlocksParented(wsId, Some(f.id), p, f.folders.data);
    } else {
      assert FolderBlocks(wsId, Some(f.id), p, kids) == [];
    }
    FolderBlockRows(wsId, folderId, path, f);
    var row := FolderRow(wsId, folderId, path, f);
    var sub := FolderBlocks(wsId, Some(f.id), p, kids);
    var docs := DocumentRows(wsId, Some(f.id), p, Listed(f.documents));
    DocumentRowsParented(wsId, Some(f.id), p, Listed(f.documents));
    RowsParentedConcat(sub, docs, wsId, Some(f.id), p);
    RowsNested(row, sub + docs, wsId, folderId, path);
  }

  lemma {:induction false} FolderBlocksParented(
    wsId: string, folderId: Option<string>, path: string, fs: seq<Folder>)
    ensures RowsParented(FolderBlocks(wsId, folderId, path, fs), wsId, folderId, path)
    decreases fs
  {
    if fs != [] {
      FolderBlockParented(wsId, folderId, path, fs[0]);
      FolderBlocksParented(wsId, folderId, path, fs[1..]);
      RowsParentedConcat(FolderBlock(wsId, folderId, path, fs[0]), FolderBlocks(wsId, folderId, path, fs[1..]),
        wsId, folderId, path);
    }
  }

  predicate LibraryParentedAt(rows: seq<Row>, k: nat)
    requires k < |rows|
  {
    rows[k].kind == WorkspaceKind || exists j :: 0 <= j < k && ChildRow(rows[k], rows[j])
  }

  /** Every row apart from a workspace row is listed under a workspace or folder whose row was
      written EARLIER: its Path is that row's Path + `"/"` + its name, its Workspace_ID is that
      row's, and its Parent_ID is that folder's id (the workspace id when it is a workspace, or
      when the folder's id is falsy). */
  predicate LibraryParented(rows: seq<Row>) {
    forall k :: 0 <= k < |rows| ==> LibraryParentedAt(rows, k)
  }

  lemma LibraryBlockAt(w: Workspace, c: seq<Row>, rest: seq<Row>, k: nat)
    requires 1 <= k <= |c|
    requires RowParentedAt(c, k - 1, w.id, None, "/" + w.name)
    ensures LibraryParentedAt([WorkspaceRow(w)] + c + rest, k)
  {
    var v := [WorkspaceRow(w)] + c + rest;
    assert v[k] == c[k - 1];
    if TopRow(c[k - 1], w.id, None, "/" + w.name) {
      assert v[0] == WorkspaceRow(w);
      assert ChildRow(v[k], v[0]);
    } else {
      var j :| 0 <= j < k - 1 && ChildRow(c[k - 1], c[j]);
      assert v[j + 1] == c[j];
    }
  }

  lemma LibraryRestAt(head: seq<Row>, rest: seq<Row>, k: nat)
    requires |head| <= k < |head| + |rest|
    requires LibraryParentedAt(rest, k - |head|)
    ensures LibraryParentedAt(head + rest, k)
  {
    var v := head + rest;
    var m := k - |head|;
    assert v[k] == rest[m];
    if rest[m].kind != WorkspaceKind {
      var j :| 0 <= j < m && ChildRow(rest[m], rest[j]);
      assert v[j + |head|] == rest[j];
    }
  }

  lemma {:induction false} WorkspaceBlocksParented(ws: seq<Workspace>)
    ensures LibraryParented(WorkspaceBlocks(ws))
  {
    if ws != [] {
      var w := ws[0];
      var c := ContainerRows(w.id, None, "/" + w.name, w.folders, w.documents);
      var rest := WorkspaceBlocks(ws[1..]);
      WorkspaceBlocksParented(ws[1..]);
      FolderBlocksParented(w.id, None, "/" + w.name, Listed(w.folders));
      DocumentRowsParented(w.id, None, "/" + w.name, Listed(w.documents));
      RowsParentedConcat(FolderBlocks(w.id, None, "/" + w.name, Listed(w.folders)),
        DocumentRows(w.id, None, "/" + w.name, Listed(w.documents)), w.id, None, "/" + w.name);
      var head := [WorkspaceRow(w)] + c;
      var v := head + rest;
      forall k | 0 <= k < |v| ensures LibraryParentedAt(v, k) {
        if k == 0 {
          assert v[0] == WorkspaceRow(w);
        } else if k <= |c| {
          assert RowParentedAt(c, k - 1, w.id, None, "/" + w.name);
          LibraryBlockAt(w, c, rest, k);
        } else {
          assert LibraryParentedAt(rest, k - |head|);
          LibraryRestAt(head, rest, k);
        }
      }
    }
  }

  /** Pre-order with the path and parent rules, over the whole library export. */
  lemma ExportParented(workspaces: Response<Workspace>)
    ensures var rows := LibraryRows(workspaces);
      forall k :: 0 <= k < |rows| && rows[k].kind != WorkspaceKind ==>
        exists j :: 0 <= j < k && ChildRow(rows[k], rows[j])
  {
    var rows := LibraryRows(workspaces);
    WorkspaceBlocksParented(Listed(workspaces));
    forall k | 0 <= k < |rows| && rows[k].kind != WorkspaceKind
      ensures exists j :: 0 <= j < k && ChildRow(rows[k], rows[j])
    {
      assert LibraryParentedAt(rows, k);
    }
  }

  // ---------------------------------------------------------------------------------------
  // The console listing

  /** One printed line of `list_hierarchy`; `version` is only printed for documents. */
  datatype Line = Line(level: nat, kind: Kind, name: string, id: string, version: string)

  /** `"  " * level`. */
  function Indent(level: nat): string {
    Repeat("  ", level)
  }

  /** The text `list_hierarchy` prints for a line, behind an indentation of two spaces per
      level. */
  function Render(l: Line): (text: string)
    ensures Indent(l.level) <= text
    ensures |text| > |Indent(l.level)| && text[|Indent(l.level)|] == '['
    ensures var head := Indent(l.level) + "[" + TypeName(l.kind) + "] " + l.name + " (ID: " + l.id;
      head <= text &&
      text[|head|..] == if l.kind == DocumentKind then ", Version: " + l.version + ")" else ")"
  {
    var tail := if l.kind == DocumentKind then ", Version: " + l.version + ")" else ")";
    var head := Indent(l.level) + "[" + TypeName(l.kind) + "] " + l.name + " (ID: " + l.id;
    assert (head + tail)[|Indent(l.level)|] == '[';
    assert (head + tail)[|head|..] == tail;
    head + tail
  }

  /** What the f-string prints for `document.get('version', 'N/A')`: `N/A` for an absent key,
      `None` for `null`. */
  function PrintedVersion(a: Attr): (text: string)
    ensures a.Absent? ==> text == "N/A"
    ensures a.JsonNull? ==> text == "None"
    ensures a.Rendered? ==> text == a.text
  {
    match a
    case Absent => "N/A"
    case JsonNull => "None"
    case Rendered(text) => text
  }

  function DocumentLine(level: nat, d: Document): Line {
    Line(level, DocumentKind, d.name, d.id, PrintedVersion(d.version))
  }

  /** One line per listed document, in order, one level deeper than its container's line. */
  function DocumentLines(level: nat, ds: seq<Document>): (lines: seq<Line>)
    ensures |lines| == |ds|
    ensures forall i :: 0 <= i < |ds| ==> lines[i] == DocumentLine(level, ds[i])
    ensures forall i :: 0 <= i < |ds| ==>
      lines[i].level == level && lines[i].kind == DocumentKind && lines[i].name == ds[i].name &&
      lines[i].id == ds[i].id && lines[i].version == PrintedVersion(ds[i].version)
  {
    seq(|ds|, i requires 0 <= i < |ds| => DocumentLine(level, ds[i]))
  }

  /** The lines printed for folder `f` at `level`: its own, then those of its contents one
      level deeper. */
  function FolderLine(level: nat, f: Folder): seq<Line>
    decreases f, 1
  {
    [Line(level, FolderKind, f.name, f.id, "")]
      + ((if Listed(f.folders) == [] then [] else FolderLines(level + 1, f.folders.data))
         + DocumentLines(level + 1, Listed(f.documents)))
  }

  function FolderLines(level: nat, fs: seq<Folder>): seq<Line>
    decreases fs
  {
    if fs == [] then [] else FolderLine(level, fs[0]) + FolderLines(level, fs[1..])
  }

  function ContainerLines(level: nat, folders: Response<Folder>, documents: Response<Document>)
    : seq<Line>
  {
    FolderLines(level, Listed(folders)) + DocumentLines(level, Listed(documents))
  }

  function LibraryLines(level: nat, ws: seq<Workspace>): seq<Line> {
    if ws == [] then []
    else
      var w := ws[0];
      [Line(level, WorkspaceKind, w.name, w.id, "")] + ContainerLines(level + 1, w.folders, w.documents)
        + LibraryLines(level, ws[1..])
  }

  lemma FolderLineLines(level: nat, f: Folder)
    ensures FolderLine(level, f)
      == [Line(level, FolderKind, f.name, f.id, "")] + ContainerLines(level + 1, f.folders, f.documents)
  {
    if Listed(f.folders) == [] {
      assert FolderLines(level + 1, []) == [];
    }
  }

  lemma {:induction false} FolderLinesConcat(level: nat, fs: seq<Folder>, gs: seq<Folder>)
    ensures FolderLines(level, fs + gs) == FolderLines(level, fs) + FolderLines(level, gs)
  {
    if fs == [] {
      assert fs + gs == gs;
    } else {
      assert (fs + gs)[0] == fs[0];
      assert (fs + gs)[1..] == fs[1..] + gs;
      FolderLinesConcat(level, fs[1..], gs);
    }
  }

  lemma DocumentLinesSnoc(level: nat, ds: seq<Document>, j: nat)
    requires j < |ds|
    ensures DocumentLines(level, ds[..j + 1]) == DocumentLines(level, ds[..j]) + [DocumentLine(level, ds[j])]
  {
  }

  lemma FolderLinesSnoc(level: nat, fs: seq<Folder>, f: Folder)
    ensures FolderLines(level, fs + [f])
      == FolderLines(level, fs)
         + ([Line(level, FolderKind, f.name, f.id, "")] + ContainerLines(level + 1, f.folders, f.documents))
  {
    FolderLinesConcat(level, fs, [f]);
    assert FolderLines(level, [f]) == FolderLine(level, f);
    FolderLineLines(level, f);
  }

  lemma {:induction false} LibraryLinesConcat(level: nat, ws: seq<Workspace>, vs: seq<Workspace>)
    ensures LibraryLines(level, ws + vs) == LibraryLines(level, ws) + LibraryLines(level, vs)
  {
    if ws == [] {
      assert ws + vs == vs;
    } else {
      assert (ws + vs)[0] == ws[0];
      assert (ws + vs)[1..] == ws[1..] + vs;
      LibraryLinesConcat(level, ws[1..], vs);
    }
  }

  lemma LibraryLinesSnoc(level: nat, ws: seq<Workspace>, w: Workspace)
    ensures LibraryLines(level, ws + [w])
      == LibraryLines(level, ws)
         + ([Line(level, WorkspaceKind, w.name, w.id, "")] + ContainerLines(level + 1, w.folders, w.documents))
  {
    LibraryLinesConcat(level, ws, [w]);
  }

  /** What a line and a row have in common: the node's type, name and id. */
  datatype Label = Label(kind: Kind, name: string, id: string)

  function RowLabel(r: Row): Label { Label(r.kind, r.name, r.id) }
  function LineLabel(l: Line): Label { Label(l.kind, l.name, l.id) }

  lemma DocumentLabels(level: nat, wsId: string, folderId: Option<string>, path: string, ds: seq<Document>)
    ensures Map(LineLabel, DocumentLines(level, ds)) == Map(RowLabel, DocumentRows(wsId, folderId, path, ds))
  {
  }

  lemma {:induction false} FolderLineLabels(level: nat, wsId: string, folderId: Option<string>, path: string, f: Folder)
    ensures Map(LineLabel, FolderLine(level, f)) == Map(RowLabel, FolderBlock(wsId, folderId, path, f))
    decreases f, 1
  {
    var p := path + "/" + f.name;
    var kids := Listed(f.folders);
    if kids != [] {
      FolderLinesLabels(level + 1, wsId, Some(f.id), p, f.folders.data);
    }
    FolderLineLines(level, f);
    FolderBlockRows(wsId, folderId, path, f);
    DocumentLabels(level + 1, wsId, Some(f.id), p, Listed(f.documents));
    var lf := FolderLines(level + 1, kids);
    var ld := DocumentLines(level + 1, Listed(f.documents));
    var rf := FolderBlocks(wsId, Some(f.id), p, kids);
    var rd := DocumentRows(wsId, Some(f.id), p, Listed(f.documents));
    MapConcat(LineLabel, [Line(level, FolderKind, f.name, f.id, "")], lf + ld);
    MapConcat(LineLabel, lf, ld);
    MapConcat(RowLabel, [FolderRow(wsId, folderId, path, f)], rf + rd);
    MapConcat(RowLabel, rf, rd);
  }

  lemma {:induction false} FolderLinesLabels(level: nat, wsId: string, folderId: Option<string>, path: string, fs: seq<Folder>)
    ensures Map(LineLabel, FolderLines(level, fs)) == Map(RowLabel, FolderBlocks(wsId, folderId, path, fs))
    decreases fs
  {
    if fs != [] {
      FolderLineLabels(level, wsId, folderId, path, fs[0]);
      FolderLinesLabels(level, wsId, folderId, path, fs[1..]);
      MapConcat(LineLabel, FolderLine(level, fs[0]), FolderLines(level, fs[1..]));
      MapConcat(RowLabel, FolderBlock(wsId, folderId, path, fs[0]), FolderBlocks(wsId, folderId, path, fs[1..]));
    }
  }

  /** `list_hierarchy` and `export_to_csv` walk the library in the same order: the printed lines
      and the CSV rows correspond one to one, with the same type, name and id. */
  lemma {:induction false} LinesMatchRows(ws: seq<Workspace>)
    ensures Map(LineLabel, LibraryLines(0, ws)) == Map(RowLabel, WorkspaceBlocks(ws))
  {
    if ws != [] {
      var w := ws[0];
      LinesMatchRows(ws[1..]);
      FolderLinesLabels(1, w.id, None, "/" + w.name, Listed(w.folders));
      DocumentLabels(1, w.id, None, "/" + w.name, Listed(w.documents));
      var lc := ContainerLines(1, w.folders, w.documents);
      var lr := LibraryLines(0, ws[1..]);
      var rc := ContainerRows(w.id, None, "/" + w.name, w.folders, w.documents);
      var rr := WorkspaceBlocks(ws[1..]);
      MapConcat(LineLabel, FolderLines(1, Listed(w.folders)), DocumentLines(1, Listed(w.documents)));
      MapConcat(RowLabel, FolderBlocks(w.id, None, "/" + w.name, Listed(w.folders)),
        DocumentRows(w.id, None, "/" + w.name, Listed(w.documents)));
      MapConcat(LineLabel, [Line(0, WorkspaceKind, w.name, w.id, "")] + lc, lr);
      MapConcat(LineLabel, [Line(0, WorkspaceKind, w.name, w.id, "")], lc);
      MapConcat(RowLabel, [WorkspaceRow(w)] + rc, rr);
      MapConcat(RowLabel, [WorkspaceRow(w)], rc);
    }
  }

  lemma {:induction false} FolderLineDeeper(level: nat, f: Folder)
    ensures forall l :: l in FolderLine(level, f) ==> l.level >= level && l.kind != WorkspaceKind
    decreases f, 1
  {
    if Listed(f.folders) != [] {
      FolderLinesDeeper(level + 1, f.folders.data);
    }
  }

  /** Lines below a container printed at `level` are indented at least that deep and are never
      workspace lines. */
  lemma {:induction false} FolderLinesDeeper(level: nat, fs: seq<Folder>)
    ensures forall l :: l in FolderLines(level, fs) ==> l.level >= level && l.kind != WorkspaceKind
    decreases fs
  {
    if fs != [] {
      FolderLineDeeper(level, fs[0]);
      FolderLinesDeeper(level, fs[1..]);
    }
  }

  /** The level-0 lines of `list_hierarchy` are exactly the workspace lines; everything else is
      printed at least one level deeper. */
  lemma {:induction false} TopLevelLines(ws: seq<Workspace>)
    ensures forall l :: l in LibraryLines(0, ws) ==> (l.level == 0 <==> l.kind == WorkspaceKind)
  {
    if ws != [] {
      var w := ws[0];
      TopLevelLines(ws[1..]);
      FolderLinesDeeper(1, Listed(w.folders));
    }
  }
}
