# Document-management API scripts: a verified model

This project models the deterministic logic of a set of Python scripts. The scripts work against a document-management (iManage Work) REST API, against SQLite databases and against SQL Server. Once the HTTP, database and file calls are replaced by the answers they would give, five groups of logic remain:

1. **Hierarchy walkers.** The CSV export and the console listing of a library (`ZZ_imanage1.py`), the folder statistics exports (`imanage_stats.py`, `stats_imanage_api.py`), the folder path printer (`test_ii.py`) and the folder tree printer (`QA_workspace_folders.py`).
   - The remote hierarchy is a finite tree datatype. Each node carries the answers to its own folder and document listings, and a failed listing reads as an empty one.
   - Every walker is written as a recursive method that appends to a writer or returns its lines. It is proved against a specification function, and the specification functions are proved to follow one reference pre-order walk with its path and parent-id rules (module `Hierarchy`).
2. **Record rules.**
   - The bulk custom-record upload (`imanage_custom_upload_bulk.py`): row cleaning, row numbering, the payload filter, per-record status, tallies, configuration checks and the uploader object.
   - The workspace listing of every library (`all_workspaces.py`).
   - The unique-workspace creator (`create_unique_workspaces.py`).
   - The description updater with its success and failure logs (`failure_success.py`).
   - The grouping of workspaces by matter class (`python_all_workspace.py`).
3. **The `key=value` parameter file** read by `python_all_workspace.py`, `python_document_comments.py` and `python_connection.py`, together with the token checks of the last two.
4. **The migration statements of the three SQLite-to-SQL-Server scripts.** These cover target table names, the `CREATE TABLE` batch, the `INSERT` statement and its placeholders, the split of rows into chunks of 1000, and the per-table skip and abort rules of each script.
5. **The tab-separated query export** (`multiple_dblite.py`).

Python dicts are modelled as insertion-ordered association lists with unique keys (module `Dicts`). JSON values, with Python truthiness, are in module `JsonValues`. Strings are ASCII `seq<char>`.

## Model

| member | source | states |
|---|---|---|
| Hierarchy.Listed | ZZ_imanage1.py:36-38 | A failed listing (status other than 200) reads as empty; a successful one reads as the server's `data` list, or as empty when the body has no `data` key. |
| Hierarchy.ParentId | ZZ_imanage1.py:111 | `folder_id or workspace_id`: the folder id when it is truthy, the workspace id when it is `None` or empty. |
| Hierarchy.FoldersUrl | ZZ_imanage1.py:29-32 | A falsy folder id selects the workspace-level folder list URL; otherwise the folder's own `/folders/{id}/folders` URL is used. |
| Hierarchy.DocumentsUrl | ZZ_imanage1.py:41-44 | The same choice for the document listing: `/documents` or `/folders/{id}/documents`. |
| Hierarchy.UrlSelection | test_ii.py:2-5 | Only the truthiness of the folder id matters: every falsy id gives the same URL as `None`, and a truthy id extends the workspace folder URL with `/{id}/folders`. |
| Hierarchy.PreOrderConcat | ZZ_imanage1.py:104-118 | Walking the listing `fs + gs` yields the walk of `fs` followed by the walk of `gs`, so siblings keep their listing order. |
| Hierarchy.PreOrderShape | ZZ_imanage1.py:104-118 | The reference walk is a pre-order following the path and parent rules: each visit is of a directly listed folder or of a child of an earlier visit, with path `parent path + "/" + name` and the parent's id (or the workspace id) as Parent ID; every listed folder is visited; every folder listed under a visited one is visited later. |
| HierarchyExport.Cells | ZZ_imanage1.py:77 | A row has exactly one cell per column of the header `Type, Name, ID, Parent_ID, Workspace_ID, Path, Version, Extension, Size`. |
| HierarchyExport.CsvCell | ZZ_imanage1.py:130-132 | `document.get(key, '')` as `csv.DictWriter` writes it: the attribute's text, or `""` for an absent key or a `null` value. |
| HierarchyExport.DocumentRows | ZZ_imanage1.py:121-133 | One row per listed document, in listing order, each with Parent_ID `folder_id or workspace_id`, the walked workspace, Path `container path + "/" + name` and absent or `null` attributes as `""`. |
| HierarchyExport.FolderBlockRows | ZZ_imanage1.py:105-118 | A folder's block is its own row followed by every row written for its own listing. |
| HierarchyExport.FolderBlocksConcat | ZZ_imanage1.py:105-118 | The rows written for the folders `fs + gs` are those for `fs` followed by those for `gs`. |
| HierarchyExport.WorkspaceBlocksConcat | ZZ_imanage1.py:88-101 | The rows written for the workspaces `ws + vs` are those for `ws` followed by those for `vs`. |
| HierarchyExport.HierarchyLister.constructor | ZZ_imanage1.py:5-8 | The lister keeps the server URL and token and builds the `Authorization: Bearer <token>` header. |
| HierarchyExport.HierarchyLister.ExportContainer | ZZ_imanage1.py:102-133 | Below a container the writer receives exactly the container's rows: every folder block, then every document row. |
| HierarchyExport.HierarchyLister.ExportFolders | ZZ_imanage1.py:104-118 | The folder loop appends the folder blocks of the listed folders, and nothing for a failed listing. |
| HierarchyExport.HierarchyLister.ExportDocuments | ZZ_imanage1.py:121-133 | The document loop appends one document row per listed document. |
| HierarchyExport.HierarchyLister.ExportHierarchyCsv | ZZ_imanage1.py:86-101 | At library level the writer receives every workspace's row followed by that workspace's container rows. |
| HierarchyExport.HierarchyLister.ExportToCsv | ZZ_imanage1.py:73-81 | The header is the nine field names, followed by all rows of the library. |
| HierarchyExport.HierarchyLister.ListHierarchy | ZZ_imanage1.py:52-60 | The printed lines are one workspace line per listed workspace, each followed by its contents one level deeper. |
| HierarchyExport.HierarchyLister.ListContainer | ZZ_imanage1.py:61-71 | Below a container the folder lines (each followed by its contents one level deeper) come first, then the document lines. |
| HierarchyExport.FolderBlocksKinds | ZZ_imanage1.py:102-133 | No row written below a container is a workspace row. |
| HierarchyExport.ContainerRowKinds | ZZ_imanage1.py:102-133 | A container's rows hold no workspace row. |
| HierarchyExport.WorkspaceRowsOfLibrary | ZZ_imanage1.py:86-101 | The workspace rows of the export are exactly one row per listed workspace, in listing order. |
| HierarchyExport.WorkspaceRowShape | ZZ_imanage1.py:89-100 | Every workspace row has Path `"/" + name`, an empty Parent_ID and its own id as Workspace_ID, and comes from a listed workspace. |
| HierarchyExport.FolderBlocksFollowPreOrder | ZZ_imanage1.py:104-118 | The folder rows below a container are, in order, exactly the folders of the reference pre-order walk, with its parent ids and paths. |
| HierarchyExport.FolderBlocksDocuments | ZZ_imanage1.py:121-133 | The document rows below a container's folders are as many as the documents listed directly in the visited folders together. |
| HierarchyExport.WorkspaceBlockShape | ZZ_imanage1.py:101-133 | A workspace's block is its row, then its folder blocks, then its own document rows. |
| HierarchyExport.WorkspaceRowCount | ZZ_imanage1.py:85-133 | One workspace's export has one workspace row, one folder row per folder of the walk, and as many document rows as documents listed at the workspace and in every visited folder. |
| HierarchyExport.FolderBlocksParented | ZZ_imanage1.py:104-133 | Every row below a container belongs to that container's listing or to a folder written earlier: its Path extends that Path by `"/" + name` and its Parent_ID is `folder_id or workspace_id`. |
| HierarchyExport.WorkspaceBlocksParented | ZZ_imanage1.py:85-133 | Over the whole export, every non-workspace row is listed under a workspace or folder whose row was written earlier. |
| HierarchyExport.ExportParented | ZZ_imanage1.py:85-133 | Pre-order: every folder or document row has an earlier container row whose Path, Workspace_ID and id it extends. |
| HierarchyExport.Render | ZZ_imanage1.py:53-71 | A printed line is two spaces per level, then `[<TYPE>] <name> (ID: <id>`, then `, Version: <version>)` for a document and `)` otherwise. |
| HierarchyExport.PrintedVersion | ZZ_imanage1.py:71 | `document.get('version', 'N/A')` inside the f-string: `N/A` for an absent key, `None` for `null`, the value's text otherwise. |
| HierarchyExport.DocumentLines | ZZ_imanage1.py:69-71 | One line per listed document, in order, at the container's level plus one, with the document's name and id and its version printed as `PrintedVersion` gives it. |
| HierarchyExport.FolderLineLines | ZZ_imanage1.py:64-66 | A folder's line is followed by the lines of its own contents at the next level. |
| HierarchyExport.FolderLinesConcat | ZZ_imanage1.py:64-66 | The lines for the folders `fs + gs` are those for `fs` followed by those for `gs`. |
| HierarchyExport.LibraryLinesConcat | ZZ_imanage1.py:58-60 | The lines for the workspaces `ws + vs` are those for `ws` followed by those for `vs`. |
| HierarchyExport.LinesMatchRows | ZZ_imanage1.py:52-71 | The console listing and the CSV export visit the same nodes in the same order: printed lines and rows agree on type, name and id one for one. |
| HierarchyExport.FolderLinesDeeper | ZZ_imanage1.py:60-66 | Lines printed below a container at some level are indented at least that deep and are never workspace lines. |
| HierarchyExport.TopLevelLines | ZZ_imanage1.py:53-60 | The level-0 lines are exactly the workspace lines. |
| Sink.Writer.WriteRow | imanage_stats.py:45-51 | `writer.writerow(r)`: the row goes after everything written before, and nothing else changes. |
| FolderStats.StatsRowOf | imanage_stats.py:44-50 | A folder's Document Count is the length of its own document listing, and 0 when that listing fails. |
| FolderStats.ExportRecursive | imanage_stats.py:39-52 | The writer receives one statistics row per folder of the reference pre-order walk from the given container, in walk order. |
| FolderStats.ExportFolderStats | imanage_stats.py:27-35 | The header is the five statistics columns, followed by the rows of the walk from the workspace with the empty path. |
| FolderStats.StatsRowsShape | imanage_stats.py:39-52 | Exactly one row per reachable folder: row k carries the k-th visited folder's name, id, parent id and path and its document count; the visits follow the pre-order, path and parent rules and miss no folder; documents produce no rows. |
| FolderStats.TopLevelStatsRow | imanage_stats.py:39-48 | A top-level folder's row has Path `"/" + name` and the workspace id as Parent ID. |
| StatsExporter.FolderStatsExporter.constructor | stats_imanage_api.py:5-8 | The exporter keeps the server URL and token and builds the bearer header. |
| StatsExporter.FolderStatsExporter.ExportRecursive | stats_imanage_api.py:42-55 | The class method writes exactly the rows of the module-level walk: one per folder of the pre-order walk. |
| StatsExporter.FolderStatsExporter.ExportFolderStats | stats_imanage_api.py:33-38 | The header and then the rows of the walk from the workspace with the empty path. |
| FolderPaths.ExtractAllFolders | test_ii.py:9-14 | The printed lines are one `Folder: name \| ID: id \| Path: path` line per folder of the pre-order walk, in walk order. |
| FolderPaths.PrintedPaths | test_ii.py:9-14 | From the workspace with the empty path, line k names the k-th visited folder and its path; the visits follow the pre-order, path and parent rules and miss no folder. |
| WorkspaceFolders.TreeLinesConcat | QA_workspace_folders.py:29-37 | The lines for the listing `items + more` are those for `items` followed by those for `more`: siblings print in listing order. |
| WorkspaceFolders.GetFolder | QA_workspace_folders.py:25-37 | `getFolder` prints exactly the reference lines of its listing and prefix, in order; an empty listing prints nothing. |
| WorkspaceFolders.Report | QA_workspace_folders.py:41-69 | A failed workspace request prints `Task failed.` and the error message; a failed children request prints nothing; otherwise the heading, `-` + the workspace name, then the tree from prefix `\|--`. |
| WorkspaceFolders.ReachedAreFolders | QA_workspace_folders.py:30-32 | Every item the walk reaches has `wstype == 'folder'`, at a depth no smaller than its listing's. |
| WorkspaceFolders.LinesAreReached | QA_workspace_folders.py:29-37 | The printed lines are, in order, one per reached folder: prefix, then `--` once per level of descent, then `name (id)`; a folder's line precedes its descendants' lines. |
| WorkspaceFolders.TopLevelLines | QA_workspace_folders.py:63 | From the top-level prefix `\|--`, line k is `\|--` + `--` per depth + the k-th reached folder's `name (id)`. |
| WorkspaceFolders.NonFoldersIgnored | QA_workspace_folders.py:30 | Items that are not folders are neither printed nor descended into: the lines equal those of the listing with them removed. |
| WorkspaceFolders.NoDescentWithoutSubfolders | QA_workspace_folders.py:32 | A folder whose `has_subfolders` is false prints its own line and nothing below it. |
| Config.MissingFieldsExact | all_workspaces.py:16-17 | A field is reported missing exactly when it is required and absent from the configuration; no field is missing exactly when every required field is present. |
| CustomRecords.CleanAll | imanage_custom_upload_bulk.py:108-114 | When no row raises, every row has its cleaned form, one per row. |
| CustomRecords.CleanAllOf | imanage_custom_upload_bulk.py:108-114 | When each row cleans to its record, the cleaned rows are exactly those records, in order. |
| CustomRecords.CleanAllNone | imanage_custom_upload_bulk.py:113-126 | One row whose cleaning raises makes the whole read fail. |
| CustomRecords.CleanKeyStripped | imanage_custom_upload_bulk.py:112 | A cleaned key is always stripped: a present key is stripped, and a `None` key becomes `field_<n>`. |
| CustomRecords.CleanFromRaises | imanage_custom_upload_bulk.py:111-114 | Cleaning a row raises exactly when one of its cells is a non-empty list of surplus values, which `.strip()` cannot handle. |
| CustomRecords.CleanFromShape | imanage_custom_upload_bulk.py:110-114 | Every key and value of a cleaned row is stripped, no key occurs twice, and the row has at most as many keys as the raw row has pairs. |
| CustomRecords.CleanFromPlain | imanage_custom_upload_bulk.py:111-114 | When every key is present and the keys stay distinct after stripping, cleaning keeps the pairs in order, each key and value stripped. |
| CustomRecords.CleanRowPlain | imanage_custom_upload_bulk.py:110-114 | A row whose keys are all present and stay distinct after stripping is cleaned pair for pair, in order. |
| CustomRecords.NumberedRowNumber | imanage_custom_upload_bulk.py:118 | A kept record carries its row number under `_row_number`. |
| CustomRecords.KeepNumberedConcat | imanage_custom_upload_bulk.py:108-119 | Keeping over `a + b` is keeping over `a`, then keeping over `b` numbered on from `first + \|a\|`. |
| CustomRecords.KeepNumberedAt | imanage_custom_upload_bulk.py:108-119 | The kept records are those before row i, then what row i keeps under its own number, then those after it. |
| CustomRecords.KeepNumberedRows | imanage_custom_upload_bulk.py:116-119 | Every kept record is a cleaned row with content plus its own row number; the numbers strictly increase, and rows without content are dropped. |
| CustomRecords.ReadRowsNumbered | imanage_custom_upload_bulk.py:108-122 | The same, for the records a successful read returns, numbered from 2 in the order the reader yields rows. |
| CustomRecords.Payload | imanage_custom_upload_bulk.py:135 | The payload holds every entry of the record whose key does not start with `_`, unchanged, and no other entry. |
| CustomRecords.Outcome | imanage_custom_upload_bulk.py:137-167 | Success exactly for HTTP 200 or 201 whose body is empty or decodes as JSON. The result keeps the decoded body, or `None` for an empty one. A 200 or 201 with an undecodable body fails with the decoding error's message. Any other code fails with `HTTP <code>: <text>`, and an exception fails with its message. The result carries the record's `id` and `_row_number` either way. |
| CustomRecords.TallyStep | imanage_custom_upload_bulk.py:199-202 | Each result adds one to exactly one of the success and failure tallies. |
| CustomRecords.Outcomes | imanage_custom_upload_bulk.py:194-197 | There is one result per record. |
| CustomRecords.OutcomesSnoc | imanage_custom_upload_bulk.py:194-197 | Results are appended in record order, the i-th made from the i-th record and the i-th reply. |
| CustomRecords.LoadConfig | imanage_custom_upload_bulk.py:249-282 | A loaded configuration is the parsed file unchanged; a missing or unparsable file gives `None`. |
| CustomRecords.LoadConfigAccepts | imanage_custom_upload_bulk.py:255-273 | A configuration is accepted exactly when all nine required fields are present and `input_file_path` is a string the path rule calls absolute. |
| CustomUpload.CustomUploader.constructor | imanage_custom_upload_bulk.py:11-18 | The settings come from the configuration, the server loses its trailing slashes, and there is no token and no headers yet. |
| CustomUpload.CustomUploader.Authenticate | imanage_custom_upload_bulk.py:20-58 | Succeeds exactly when a 200 answer carries a non-empty token. The token field follows every 200 answer; the bearer headers are set only on success; the settings are unchanged. |
| CustomUpload.CustomUploader.ReadPipeDelimitedFile | imanage_custom_upload_bulk.py:86-126 | `None` when the path check fails, when there is no header, or when a row raises; otherwise the cleaned rows with content, numbered from 2. |
| CustomUpload.CustomUploader.CleanOneRow | imanage_custom_upload_bulk.py:110-114 | The inner loop cleans a row exactly as the reference cleaning does. |
| CustomUpload.CustomUploader.CreateCustomRecord | imanage_custom_upload_bulk.py:128-167 | Posts to the custom table's endpoint and records `Outcome` for the reply. |
| CustomUpload.CustomUploader.ProcessBulkUpload | imanage_custom_upload_bulk.py:169-222 | `None` when reading fails or yields no records; otherwise one result per record, in order. The success and failure counts are the numbers of successful and unsuccessful results and add up to the number of records. |
| AllWorkspaces.LoadConfig | all_workspaces.py:10-28 | Loaded, unchanged, exactly when every required field is present. Otherwise the `ValueError` that nothing catches lists exactly the absent required fields. A missing or non-JSON file gives `None`. |
| AllWorkspaces.GetAccessToken | all_workspaces.py:30-75 | A token record exists exactly for a 200 answer with a truthy `access_token`. It carries that token, and `token_type` is copied or defaults to `Bearer`. |
| AllWorkspaces.GetAllWorkspaces | all_workspaces.py:166-198 | The stored dict and the total are those of the reference walk: hidden libraries skipped, and only non-empty listings stored under their library id. The libraries-checked count is the number of libraries that are not hidden. |
| AllWorkspaces.Counts | all_workspaces.py:185-189 | There is one contribution per library. |
| AllWorkspaces.GatherTotal | all_workspaces.py:170-189 | The total is the sum of the libraries' contributions: the listing length for a visible library with a non-empty listing, 0 otherwise. |
| AllWorkspaces.GatherIgnoresHidden | all_workspaces.py:179-181 | Hidden libraries are never asked: the result does not depend on what the server would answer for them. |
| AllWorkspaces.StoredPairsKeys | all_workspaces.py:188 | Every stored key is the id of one of the libraries. |
| AllWorkspaces.GatherDistinct | all_workspaces.py:187-188 | With distinct library ids, nothing is overwritten: the dict holds every non-empty contribution, in library order. |
| AllWorkspaces.Lengths | all_workspaces.py:200 | There is one length per stored list. |
| AllWorkspaces.StoredPairsTotal | all_workspaces.py:187-189 | The stored lists' lengths add up to the libraries' contributions. |
| AllWorkspaces.TotalOfStored | all_workspaces.py:170-189 | With distinct library ids, the total equals the sum of the lengths of the stored lists. |
| AllWorkspaces.CheckedOrHidden | all_workspaces.py:179-197 | Every library is either counted as checked or skipped as hidden. |
| AllWorkspaces.EntryOf | all_workspaces.py:152-163 | An entry shows the workspace's id, name and type, or `N/A` when absent. It is active when `is_active` is absent or truthy. The description defaults to `No description`. |
| AllWorkspaces.DisplayWorkspaces | all_workspaces.py:142-164 | One entry per workspace, numbered from 1 in listing order. |
| UniqueWorkspaces.ExistingNames | create_unique_workspaces.py:29 | The existing-name set holds exactly the stripped, lower-cased names of the listed workspaces. |
| UniqueWorkspaces.ListedNames | create_unique_workspaces.py:28-29 | The names are read exactly when every listed workspace has a string `name`, one per workspace, in order. |
| UniqueWorkspaces.Iterated | create_unique_workspaces.py:28-29 | `for ws in data` runs over a list's items, an object's keys or a string's characters, each key or character a string. A number, a boolean or `null` cannot be iterated. |
| UniqueWorkspaces.FetchExisting | create_unique_workspaces.py:25-33 | A failed listing makes the script exit. Otherwise the set is the normalised names of the listed workspaces. A missing `data`, `{}` or `""` gives the empty set. A list is read exactly when every item has a string `name`. Any other `data` makes the script exit. |
| UniqueWorkspaces.PayloadName | create_unique_workspaces.py:40-47 | The payload name is the stripped name with its case kept, and compares equal to the row's name. |
| UniqueWorkspaces.NewId | create_unique_workspaces.py:59 | The new id defaults to `N/A` when the body has no `data`. Reading it raises exactly when `data` is present but not an object. |
| UniqueWorkspaces.Decide | create_unique_workspaces.py:40-62 | A row is skipped exactly when its normalised name exists. It is created exactly when it is new and the create answer gives an id; otherwise the error is reported and the loop goes on. |
| UniqueWorkspaces.Outcomes | create_unique_workspaces.py:39-62 | There is one outcome per CSV row. |
| UniqueWorkspaces.CreateNewWorkspaces | create_unique_workspaces.py:39-64 | The row loop posts exactly the reference payloads and records one outcome per row. |
| UniqueWorkspaces.CreateUniqueWorkspaces | create_unique_workspaces.py:23-64 | The script exits without posting anything exactly when `FetchExisting` exits: a failed listing, a non-iterable `data`, or a workspace without a string `name`. Otherwise it posts what the row loop posts for the fetched names. An empty `data` object or string means no names, so every row is new. |
| UniqueWorkspaces.SkipRule | create_unique_workspaces.py:29-44 | A row is skipped exactly when some existing name matches it after strip and lower-casing. |
| UniqueWorkspaces.PostedIndex | create_unique_workspaces.py:42-57 | Every posted payload is the payload of a new row, and the lemma names that row. |
| UniqueWorkspaces.PostedFromNew | create_unique_workspaces.py:42-57 | Each posted payload comes from a new row. |
| UniqueWorkspaces.NewArePosted | create_unique_workspaces.py:42-57 | Each new row is posted. |
| UniqueWorkspaces.PostedExactly | create_unique_workspaces.py:42-57 | The posted payloads are exactly those of the new rows. |
| UniqueWorkspaces.PostedAreNew | create_unique_workspaces.py:42-54 | No posted name matches an existing one, every payload has `default_security` `private`, and every posted name is stripped. |
| UniqueWorkspaces.OutcomesSnoc | create_unique_workspaces.py:39-62 | Outcomes are appended in row order, the i-th made from the i-th reply. |
| UniqueWorkspaces.PostedConcat | create_unique_workspaces.py:37-64 | Whether a row is posted depends only on that row and the fetched names: posting `a + b` is posting `a`, then `b`. |
| UniqueWorkspaces.DuplicatesBothPosted | create_unique_workspaces.py:37-64 | `existing_names` is never updated in the loop, so two new rows with the same normalised name are both posted. |
| UniqueWorkspaces.PostedSnoc | create_unique_workspaces.py:42-57 | One more row adds its payload exactly when it is new. |
| UniqueWorkspaces.AttemptsMatchPosts | create_unique_workspaces.py:56-62 | There is one create request per posted payload: the rows not skipped are exactly those posted. |
| WorkspaceUpdates.ReadablePrefix | failure_success.py:24-26 | The rows before the first row lacking `workspace_id` or `description` are all readable, and that row, when there is one, is not. |
| WorkspaceUpdates.Requests | failure_success.py:28-32 | One update request per row read. |
| WorkspaceUpdates.Tagged | failure_success.py:31-39 | There is one reply per input row. |
| WorkspaceUpdates.LogFile | failure_success.py:41-55 | A log file is written exactly when its list is non-empty. Its header is the keys of the list's first row, and its rows are the list. |
| WorkspaceUpdates.UpdateDescriptions | failure_success.py:21-55 | One request per row up to the first one that raises `KeyError`. The run aborts exactly when such a row exists. Otherwise the success and failure lists are the reference partition and the logs are written from them. |
| WorkspaceUpdates.ReadableStep | failure_success.py:24-26 | A readable row inside the readable prefix extends it by one. |
| WorkspaceUpdates.RequestsSnoc | failure_success.py:28-32 | Requests are sent in row order. |
| WorkspaceUpdates.PartitionSnoc | failure_success.py:31-39 | One more row goes, as read, to the successes when its update passed, and with its `error` set to the failures otherwise. Both lists keep input order. |
| WorkspaceUpdates.PartitionCount | failure_success.py:31-58 | Every row lands in exactly one list: the two lengths add up to the number of rows. |
| WorkspaceUpdates.SuccessesAreRows | failure_success.py:35 | Each logged success is an input row, unchanged, whose update succeeded. |
| WorkspaceUpdates.FailuresCarryError | failure_success.py:36-39 | Each logged failure is an input row whose update failed, with `error` holding the exception's text. |
| WorkspaceUpdates.AllUpdated | failure_success.py:31-39 | When every update passes, the successes are the input rows and there are no failures. |
| Params.StripKeeps | python_connection.py:13 | Stripping keeps every non-space character of a line, so a line holding `=` still holds it after `strip()`. |
| Params.ParseLineShape | python_connection.py:12-14 | A line is read exactly when it contains `=`. The key and value read are stripped, and the key holds no `=`: the split is at the first `=`. |
| Params.StripNoNew | python_connection.py:13-14 | Stripping adds no character, so a key without `=` stays without it. |
| Params.ParseLineWritten | python_all_workspace.py:12-14 | A line written as `key=value` from a stripped key without `=` and a stripped value reads back as that key and value, so the value may itself contain `=`. |
| Params.ParseStrippedLine | python_all_workspace.py:13-14 | A stripped line whose first `=` is at position i is split there, key and value each stripped. |
| Params.Entries | python_document_comments.py:11-14 | There is one entry per line of the file. |
| Params.EntriesSnoc | python_document_comments.py:11-14 | Lines are read in file order. |
| Params.ReadParams | python_document_comments.py:9-14 | The loop builds exactly the reference parameter map of the file's lines. |
| Params.GetCollect | python_document_comments.py:14 | Looking a key up in the map gives the value of the last line that set it. |
| Params.GetParam | python_document_comments.py:14-23 | `params.get(k)` on the file's map is the value of the last line setting `k`, or `None`. |
| Params.LastValueNone | python_connection.py:20-24 | A parameter reads as `None` exactly when no line sets it. |
| Params.IgnoredLine | python_connection.py:12 | A line without `=` changes nothing. |
| Params.LaterWins | python_all_workspace.py:14 | A later `key=value` line overwrites that key and leaves every other key as it was. |
| Params.CollectValid | python_all_workspace.py:9-14 | No key occurs twice in the parameter map. |
| MatterClasses.MatterClass | python_all_workspace.py:74 | The class is `custom2` when the key is present, even when it is `null`, and `Unknown` only when it is absent. |
| MatterClasses.GroupByMatterClass | python_all_workspace.py:71-79 | The loop builds exactly the reference grouping of the workspaces. |
| MatterClasses.GroupGet | python_all_workspace.py:73-79 | A class has a group exactly when some workspace has that class, and the group lists those workspaces' entries in input order. |
| MatterClasses.InClassMembers | python_all_workspace.py:75-79 | Every entry of a class comes from an input workspace of that class and holds its name, its id and the whole workspace. |
| MatterClasses.InClassContains | python_all_workspace.py:75 | Each workspace's entry is in the list of its own class. |
| MatterClasses.InOwnGroup | python_all_workspace.py:73-79 | Each workspace lands in the group of its class, and a group holds only entries of its class. |
| MatterClasses.GroupOrder | python_all_workspace.py:75-82 | Groups appear in the order their classes are first seen. |
| MatterClasses.GroupValid | python_all_workspace.py:71 | No class has two groups. |
| AuthScripts.TestConnection | python_connection.py:36-65 | Posts the password-grant form, with the parameters read and absent ones as `None`, to the server's token URL. Reports success exactly when the request passes `raise_for_status` and the token is truthy. |
| AuthScripts.NoTokenNoConnection | python_connection.py:53-61 | A token that is absent, `None` or empty never counts as a connection. |
| AuthScripts.DocumentUrlSplit | python_document_comments.py:62 | The document URL is made of server, customer, library and document id in fixed order. When none holds a `/`, splitting the URL at `/` gives the pieces back. |
| AuthScripts.UpdateDocumentComments | python_document_comments.py:38-93 | The token request is always sent. The existence check is sent only after a truthy token, and the patch only after a passing check, with the check's headers plus the content type. Success means all three passed. |
| SqlText.DbName | sqlite_sql_all_strings_chunks.py:29 | The database name is the longest dot-free prefix of the base name: it holds no `.`, and the base name has a `.` right after it when it is shorter. |
| SqlText.TargetTableDistinct | sqlite_sql_all_strings_chunks.py:42 | Two tables of one database never share a target table. |
| SqlText.TargetTableSplit | sqlite_sql_all_strings_chunks.py:42 | For a database name without `_`, the target table is that name, `_` at its first underscore, then the table name. |
| SqlText.CreateTextLines | sqlite_sql_all_strings_chunks.py:57-65 | Without line breaks in the table name or the definitions, the batch splits into exactly its nine lines, the `CREATE TABLE` line holding the table and the definitions. |
| SqlText.CreateLinesNoBreak | sqlite_sql_all_strings_chunks.py:57-65 | No line of the batch holds a line break when neither the table name nor the definitions do. |
| SqlText.ItemsJoin | sqlite_sql_all_strings_chunks.py:56 | A `", "`-join of comma-free parts splits back into exactly those parts. |
| SqlText.DefinitionsColumns | sqlite_sql_all_strings_chunks.py:56 | The column definitions are `[c] NVARCHAR(MAX)` for each column, in column order, and read back as the columns. |
| SqlText.ColumnListColumns | sqlite_sql_all_strings_chunks.py:73 | The insert's column list is `[c]` for each column, in order, and reads back as the columns. |
| SqlText.PlaceholderItems | sqlite_sql_all_strings_chunks.py:72 | There is one `?` item per column. |
| SqlText.PlaceholderCount | sqlite_sql_all_strings_chunks.py:72 | The placeholder text holds exactly as many `?` as there are columns. |
| SqlText.InsertQueryMarkers | sqlite_sql_all_strings_chunks.py:72-74 | When no table or column name holds a `?`, the INSERT statement has exactly one parameter marker per column. |
| SqlText.ChunksFlatten | sqlite_sql_all_strings_chunks.py:81-83 | The chunks `rows[i:i+chunk_size]` for `i` stepping by chunk_size, put together, are the rows. |
| SqlText.ChunkSizes | sqlite_sql_all_strings_chunks.py:81-83 | Every chunk holds between 1 and chunk_size rows, and all but the last hold exactly chunk_size. |
| SqlText.ChunkCount | sqlite_sql_all_strings_chunks.py:81 | There are ceil(n / chunk_size) chunks: none for no rows, otherwise the fewest whose total capacity covers the rows. |
| SqlText.RangesMatch | sqlite_sql_all_strings_chunks.py:85 | The k-th reported range starts at `k * chunk_size` and spans the k-th chunk. |
| SqlText.RangesContiguous | sqlite_sql_all_strings_chunks.py:85 | The reported ranges follow each other with no gap or overlap and cover 0..n. |
| SqlText.FirstRejected | sqlite_sql_all_strings_chunks.py:81-90 | The first chunk `executemany` refuses: every chunk before it is accepted. |
| SqlText.InsertInChunks | sqlite_sql_all_strings_chunks.py:77-90 | The chunks are handed over in order, up to and including the first refused one. The range of each accepted chunk is reported. The loop completes exactly when every chunk is accepted. |
| SqlText.FirstRejectedAt | sqlite_sql_all_strings_chunks.py:81-90 | The first refused chunk is found wherever it is. |
| SqlText.AllAccepted | sqlite_sql_all_strings_chunks.py:81-87 | When every chunk is accepted, none is refused and the table completes. |
| SqlMigration.InsertsOf | sqlite_sql_all_strings_chunks.py:81-83 | There is one `executemany` statement per batch. |
| SqlMigration.MigrateTable | sqlite_sql_all_strings_chunks.py:41-92 | The loop body for one table does exactly what the reference step for that script does. |
| SqlMigration.MigrateDatabases | sqlite_sql_all_string_chunks_diff.py:25-82 | The two loops visit every table of every database in order, until an uncaught exception ends the run. The closing message is reached exactly when none occurs. |
| SqlMigration.MigrateSnoc | sqlite_sql_all_strings.py:35-75 | One more table is run unless the run has already stopped. |
| SqlMigration.MigrateStopped | sqlite_sql_all_strings.py:39 | Once an exception has ended the run, later tables are never visited. |
| SqlMigration.Steps | sqlite_sql_all_string_chunks_diff.py:36-80 | There is one run per table. |
| SqlMigration.StepsSnoc | sqlite_sql_all_string_chunks_diff.py:36-80 | Tables are run in listing order. |
| SqlMigration.AbortsIff | sqlite_sql_all_strings.py:39-42 | A table aborts the run exactly when it is the plain script and reading the table fails; the other two scripts catch read failures. |
| SqlMigration.MigrateNoAbort | sqlite_sql_all_string_chunks_diff.py:36-80 | When no table aborts, every table is run once, in order, and the run finishes. |
| SqlMigration.SkipsNeverStop | sqlite_sql_all_string_chunks_diff.py:40-78 | The chunked and row-iterator scripts survive every failure: each table is visited once and the run finishes. |
| SqlMigration.PlainReadFailureStops | sqlite_sql_all_strings.py:39-42 | In the plain script the first unreadable table ends the run: the tables before it are run, and nothing after it. |
| SqlMigration.EmptyTableSkipped | sqlite_sql_all_strings_chunks.py:53-92 | An empty table gets no create and no insert. |
| SqlMigration.ReadFailureSkipped | sqlite_sql_all_strings_chunks.py:46-51 | An unreadable table sends nothing. It is skipped in the scripts that catch the failure and aborts the plain one. |
| SqlMigration.RowsSentInserts | sqlite_sql_all_strings_chunks.py:81-83 | The inserts of the batches carry every row of the batches, in order. |
| SqlMigration.MigratedTable | sqlite_sql_all_strings_chunks.py:53-87 | A migrated table was read and is not empty. Its first statement is the create batch for the target table and its column definitions; the rest are inserts of the INSERT statement for its columns. Together they carry exactly the table's rows, and the committed ranges cover them. |
| SqlMigration.FillChunkedMigrated | sqlite_sql_all_strings_chunks.py:77-87 | When every chunk is accepted, the chunked fill sends the create batch and then inserts carrying all the rows, and commits ranges covering them. |
| SqlMigration.FillOnceMigrated | sqlite_sql_all_string_chunks_diff.py:70-75 | An accepted single fill sends all rows in one insert and commits their whole range. |
| SqlMigration.ChunkedInsertSizes | sqlite_sql_all_strings_chunks.py:25-83 | Every insert of the chunked script carries between 1 and 1000 rows. |
| TsvExport.Lines | multiple_dblite.py:16-18 | There is one header line of column names, then one line per result row. |
| TsvExport.WriteTsv | multiple_dblite.py:15-18 | The file receives the tab-joined column names, then each row's `str` cells joined by tabs, every line ending in `\n`. |
| TsvExport.WriteSnoc | multiple_dblite.py:17-18 | Each row's line is appended after everything written before it. |
| TsvExport.TerminatedJoin | multiple_dblite.py:16-18 | Writing each line with its `\n` is joining the lines with `\n` and ending with one more. |
| TsvExport.TsvLines | multiple_dblite.py:16-18 | When no name or cell holds a newline, splitting the text at `\n` gives exactly the header, the row lines and a final empty piece: `len(rows) + 1` lines. |
| TsvExport.LinesFree | multiple_dblite.py:16-18 | Without newlines in the names and cells, no line holds one. |
| TsvExport.RowFieldsSplit | multiple_dblite.py:18 | A row whose cells hold no tab splits back at tabs into exactly its cells' texts. |
| TsvExport.HeaderSplit | multiple_dblite.py:13-16 | A header of tab-free column names splits back into exactly the column names, in order. |
| TsvExport.TabInCellSplitsField | multiple_dblite.py:18 | Nothing is escaped: when any cell's text holds a tab, the row's line splits at its tabs into more fields than the row has cells, so it does not read back as the row. |
| TsvExport.CompletePrefix | multiple_dblite.py:3-6 | The entries before the first one missing `db`, `query` or `filename` are handled; that entry's `KeyError` ends the loop. |
| TsvExport.ExportQueries | multiple_dblite.py:3-25 | Completes exactly when every entry has its three keys. The files written are those of the reference export of the handled entries. |
| TsvExport.CompleteStep | multiple_dblite.py:3-6 | A complete entry inside the handled prefix extends it by one. |
| TsvExport.ExportedStep | multiple_dblite.py:8-25 | An entry whose query fails writes nothing and the loop goes on. A successful one writes its file. |
| TsvExport.FailedItemSkipped | multiple_dblite.py:24-25 | An error on one entry is reported, and the files are as they were before it. |
| TsvExport.ExportedGet | multiple_dblite.py:15-18 | A successful query writes its file, replacing any earlier text under that name, and leaves every other file unchanged. |
| TsvExport.ExportedValid | multiple_dblite.py:15 | No file name is written twice in the result. |
| Text.Strip | python_connection.py:13-14 | `strip()`: the result has no whitespace at either end and is no longer than the input. A string already stripped comes back unchanged. |
| Text.StripShape | python_connection.py:13-14 | `strip()` removes only leading and trailing whitespace: the result is an infix of the input with nothing but whitespace before and after it. With the ends of the result not whitespace, this is the longest such infix. |
| Text.RStrip | imanage_custom_upload_bulk.py:12 | `rstrip('/')`: a prefix of the string with every trailing `/` removed and no `/` left at its end. |
| Text.LowerChars | create_unique_workspaces.py:29-42 | `lower()` maps each character on its own: ASCII capitals to small letters, everything else to itself. |
| Dicts.PutKeys | python_all_workspace.py:75-82 | Assigning to a present key keeps the key order; a new key is appended, which is the dict order the groups are printed in. |
| Dicts.PutGet | python_connection.py:14 | `params[k] = v` makes `k` read `v` and leaves every other key as it was. |

## Left out

- HTTP requests and OAuth token acquisition are not modelled. Every listing, status code, token answer and create, patch or check reply is a given input: a field of the tree, a reply datatype, or a function from request number to reply.
- File I/O is not modelled. Reading `config.json`, the parameter file and the CSV or pipe-delimited inputs, and writing the CSV, JSON and TSV outputs, become given sequences and returned values.
- `validate_file_path` (`imanage_custom_upload_bulk.py:60-84`) is a Boolean input of the reader. `os.path.isabs` is a given predicate. `os.path.basename` is applied by the caller: `DbName` takes the base name.
- `csv.DictReader` parsing, quoting and header handling are not modelled, and the reader's rows are given. The custom-record reader's rows (`CustomRecords.Cell`) carry `None` keys for surplus values and `None` values for missing columns. The other two CSV inputs are read as strings only, as the next two lines say.
- `WorkspaceUpdates.UpdateDescriptions`: rows are string-valued. A short row whose `workspace_id` or `description` reads as `None` (`failure_success.py:25-29`) would patch `.../workspaces/None` or send `{"description": null}`; this is not modelled. A header without either column is modelled (the run stops with a `KeyError`).
- Timing is not modelled: `time.sleep`, the timestamped file names and `received_at`.
- The float success rate (`imanage_custom_upload_bulk.py:217`) is not modelled.
- `save_results`, `save_workspaces_to_file`, `get_customer_libraries` and each script's `main` or top-level driver are not modelled. They are sequences of calls to the modelled operations, prints and file writes.
- Log and print formatting is not modelled. The exceptions are the lines of `list_hierarchy`, `extract_all_folders` and `getFolder`, which are the output of those operations.
- Unicode behaviour of `strip()` and `lower()` is not modelled. Only ASCII whitespace and ASCII letters are covered.
- `AuthScripts.UpdateDocumentComments`: the bearer header renders `str(access_token)` only for string tokens. A truthy non-string token is rendered as the empty string (`TokenText`).
- `AuthScripts.DocumentUrl`: the f-string URL is written as the `/`-join of its pieces. The two are the same text.
- `HierarchyExport.HierarchyLister.constructor` and `StatsExporter.FolderStatsExporter.constructor` take the token `authenticate` returned as a string. A `None` token, which Python would render as `Bearer None`, is not modelled.
- `Hierarchy.PreOrder`: a folder whose id is the empty string is falsy, so the source lists the workspace's top level again for it. Its sub-folder listing is the workspace's own folder listing. Its document listing is the workspace's own top-level document listing (`imanage_stats.py:44`, `ZZ_imanage1.py:121-133`), and that listing feeds the folder's Document Count and its document rows. The tree gives every node its own listings instead, so this re-listing is not modelled.
- `CustomUpload.CustomUploader.Authenticate`: the token is modelled as an optional string, and success means a non-empty one. The source accepts any truthy `access_token` (`imanage_custom_upload_bulk.py:20-58`). A truthy non-string token, such as a number or an object, is not modelled.
- `WorkspaceFolders.GetFolder`: the sub-folder request inside `getFolder` is not status-checked in the source. The model takes each folder's `children` as given, and a failing request, which would raise `KeyError` on `data`, is not modelled.
- `UniqueWorkspaces.CreateNewWorkspaces`: every row is read with all six columns as strings. Two cases are not modelled. A header without one of the columns raises `KeyError`. In a short row the missing cells read as `None`: a `None` name makes `.strip()` raise `AttributeError` (`create_unique_workspaces.py:40`), which is not caught and ends the script, and a `None` in another column is posted as `null`.
- `MatterClasses.GroupByMatterClass`: the workspaces are the decoded listing given as a sequence of objects. The token and listing requests of `python_all_workspace.py` and its printing loop are not modelled.
- Library behaviour of `sqlite3`, `pyodbc` and `pandas` is not modelled: `read_sql_query`, `astype(str)`, `executemany`, `commit`, and the server's handling of `IF NOT EXISTS`. Connection and table-listing failures, which none of the scripts catch, are also not modelled.
- `SqlMigration.Step`: each table's create, read and insert outcomes are given. Rows are `astype(str)` text, so `str()` of floats and blobs is not modelled. The single-insert scripts use the first insert answer (`insertOk(0)`). A partially applied `executemany` is not modelled.
- `SqlMigration.Script`: the three scripts are modelled as one table step with a selector (`Chunked`, `RowIterator`, `Plain`) for what differs between them.
- `TsvExport.ExportQueries`: the list `queries` is not defined in `multiple_dblite.py`, so it is taken as an input. Connecting to the database and running the query become one given function. A failure while writing the file, which would leave a partial file, is not modelled.
- `TsvExport.CellText`: a cell is `None`, an integer or text. `str()` of floats and blobs is not modelled.
- `imanage_oauth_test.py`, `python_workspace_param.py`, `create_workspace_with_permissions.py`, `id_data_update.py` and `test_custom_upload.py` are not modelled. They are linear HTTP call sequences with nothing to state beyond the status check.
- `multiple_queries_files.py` and `csv_sqlserver.py` are not modelled. They are thin wrappers over pandas and pyodbc.
- Non-Python text inside the source files is not modelled (for example the sample CSV in `create_unique_workspaces.py:67-71`).
