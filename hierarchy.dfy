/** The remote workspace -> folder -> document hierarchy as the walkers see it, the rule every
    listing call applies to the server's answer, the URL each call requests, the parent-id rule
    `folder_id or workspace_id`, and the pre-order enumeration of the reachable folders that the
    folder walkers are proved against. */
module Hierarchy {
  import opened Wrappers
  import opened Seqs

  /** A listing call's answer: its HTTP status and, when the JSON body has a `data` key, the list
      under it. */
  datatype Response<T> = Response(status: int, hasData: bool, data: seq<T>)

  /** An optional attribute of a listed document: the key is absent, present with `null`, or
      present with a value whose `str()` is `text`. */
  datatype Attr = Absent | JsonNull | Rendered(text: string)

  /** A document as listed. */
  datatype Document = Document(
    id: string, name: string, version: Attr, extension: Attr, size: Attr)

  /** A folder, with the answers the server gives to the listings of its sub-folders and of its
      documents. The hierarchy is finite and acyclic, which is what the walkers rely on to
      terminate. */
  datatype Folder = Folder(
    id: string, name: string, folders: Response<Folder>, documents: Response<Document>)

  /** A workspace, with the answers to the listings of its top-level folders and documents. */
  datatype Workspace = Workspace(
    id: string, name: string, folders: Response<Folder>, documents: Response<Document>)

  /** `response.json().get('data', []) if response.status_code == 200 else []`: the list the
      getters hand back. A failed listing reads as an empty one, and a successful one as the
      server's list, or `[]` when the body has no `data` key. */
  function Listed<T>(r: Response<T>): (items: seq<T>)
    ensures items == [] || items == r.data
    ensures r.status != 200 ==> items == []
    ensures r.status == 200 && r.hasData ==> items == r.data
    ensures !(r.status == 200 && r.hasData) ==> items == []
  {
    if r.status == 200 && r.hasData then r.data else []
  }

  /** Python truthiness of an optional id: `None` and `""` are false. */
  predicate IsTruthy(id: Option<string>) {
    id.Some? && id.value != ""
  }

  /** `folder_id or workspace_id`: the id of the container being listed. */
  function ParentId(folderId: Option<string>, workspaceId: string): (r: string)
    ensures IsTruthy(folderId) ==> r == folderId.value
    ensures !IsTruthy(folderId) ==> r == workspaceId
    ensures r != "" ==> r == workspaceId || folderId == Some(r)
  {
    if IsTruthy(folderId) then folderId.value else workspaceId
  }

  function WorkspaceUrl(server: string, library: string, workspace: string): string {
    server + "/work/api/v2/libraries/" + library + "/workspaces/" + workspace
  }

  /** The URL `get_folders` requests: the workspace-level folder list when `folder_id` is falsy,
      the sub-folder list of that folder otherwise. */
  function FoldersUrl(server: string, library: string, workspace: string, folderId: Option<string>)
    : (url: string)
    ensures !IsTruthy(folderId) ==> url == WorkspaceUrl(server, library, workspace) + "/folders"
    ensures IsTruthy(folderId) ==>
      url == WorkspaceUrl(server, library, workspace) + "/folders/" + folderId.value + "/folders"
  {
    var tail := if IsTruthy(folderId) then "/folders/" + folderId.value + "/folders" else "/folders";
    WorkspaceUrl(server, library, workspace) + tail
  }

  /** The URL `get_documents` requests, chosen by the same rule. */
  function DocumentsUrl(server: string, library: string, workspace: string, folderId: Option<string>)
    : (url: string)
    ensures !IsTruthy(folderId) ==> url == WorkspaceUrl(server, library, workspace) + "/documents"
    ensures IsTruthy(folderId) ==>
      url == WorkspaceUrl(server, library, workspace) + "/folders/" + folderId.value + "/documents"
  {
    var tail := if IsTruthy(folderId) then "/folders/" + folderId.value + "/documents" else "/documents";
    WorkspaceUrl(server, library, workspace) + tail
  }

  /** Only the truthiness of the folder id decides between the two listing URLs: every falsy id
      requests what `None` requests, and a folder-level URL extends the workspace-level one. */
  lemma UrlSelection(server: string, library: string, workspace: string, folderId: Option<string>)
    ensures !IsTruthy(folderId) ==>
      FoldersUrl(server, library, workspace, folderId) == FoldersUrl(server, library, workspace, None)
      && DocumentsUrl(server, library, workspace, folderId) == DocumentsUrl(server, library, workspace, None)
    ensures IsTruthy(folderId) ==>
      FoldersUrl(server, library, workspace, folderId)
        == FoldersUrl(server, library, workspace, None) + "/" + folderId.value + "/folders"
  {
  }

  /** One folder reached by a walk: the folder, the parent id its row carries and its path. */
  datatype Visit = Visit(folder: Folder, parentId: string, path: string)

  /** The reference pre-order walk over the folders of one workspace: each listed folder, then
      everything below it, then its next sibling. `folderId` and `path` describe the container
      whose listing `fs` is; a workspace's own folder list has `folderId == None`. */
  function PreOrder(wsId: string, folderId: Option<string>, path: string, fs: seq<Folder>)
    : seq<Visit>
    decreases fs
  {
    if fs == [] then []
    else
      var f := fs[0];
      var p := path + "/" + f.name;
      [Visit(f, ParentId(folderId, wsId), p)]
        + (if Listed(f.folders) == [] then [] else PreOrder(wsId, Some(f.id), p, f.folders.data))
        + PreOrder(wsId, folderId, path, fs[1..])
  }

  lemma PreOrderUnfold(wsId: string, folderId: Option<string>, path: string, fs: seq<Folder>)
    requires fs != []
    ensures PreOrder(wsId, folderId, path, fs)
      == [Visit(fs[0], ParentId(folderId, wsId), path + "/" + fs[0].name)]
         + PreOrder(wsId, Some(fs[0].id), path + "/" + fs[0].name, Listed(fs[0].folders))
         + PreOrder(wsId, folderId, path, fs[1..])
  {
  }

  lemma {:induction false} PreOrderConcat(
    wsId: string, folderId: Option<string>, path: string, fs: seq<Folder>, gs: seq<Folder>)
    ensures PreOrder(wsId, folderId, path, fs + gs)
      == PreOrder(wsId, folderId, path, fs) + PreOrder(wsId, folderId, path, gs)
  {
    if fs == [] {
      assert fs + gs == gs;
    } else {
      assert (fs + gs)[0] == fs[0];
      assert (fs + gs)[1..] == fs[1..] + gs;
      PreOrderConcat(wsId, folderId, path, fs[1..], gs);
    }
  }

  /** One more turn of a walker's `for folder in folders` loop: the visit of `fs[i]`, then the
      walk below it. */
  lemma PreOrderStep(wsId: string, folderId: Option<string>, path: string, fs: seq<Folder>, i: nat)
    requires i < |fs|
    ensures PreOrder(wsId, folderId, path, fs[..i + 1])
      == PreOrder(wsId, folderId, path, fs[..i])
         + ([Visit(fs[i], ParentId(folderId, wsId), path + "/" + fs[i].name)]
            + PreOrder(wsId, Some(fs[i].id), path + "/" + fs[i].name, Listed(fs[i].folders)))
  {
    assert fs[..i + 1] == fs[..i] + [fs[i]];
    PreOrderConcat(wsId, folderId, path, fs[..i], [fs[i]]);
    PreOrderUnfold(wsId, folderId, path, [fs[i]]);
  }

  /** The same turn, for a walker that writes `f(v)` for each visit `v` after `prefix`. */
  lemma MapPreOrderStep<B>(
    f: Visit -> B, prefix: seq<B>, wsId: string, folderId: Option<string>, path: string, fs: seq<Folder>, i: nat)
    requires i < |fs|
    ensures prefix + Map(f, PreOrder(wsId, folderId, path, fs[..i]))
      + [f(Visit(fs[i], ParentId(folderId, wsId), path + "/" + fs[i].name))]
      + Map(f, PreOrder(wsId, Some(fs[i].id), path + "/" + fs[i].name, Listed(fs[i].folders)))
      == prefix + Map(f, PreOrder(wsId, folderId, path, fs[..i + 1]))
  {
    var top := Visit(fs[i], ParentId(folderId, wsId), path + "/" + fs[i].name);
    var before := PreOrder(wsId, folderId, path, fs[..i]);
    var sub := PreOrder(wsId, Some(fs[i].id), path + "/" + fs[i].name, Listed(fs[i].folders));
    assert Map(f, PreOrder(wsId, folderId, path, fs[..i + 1])) == Map(f, before) + ([f(top)] + Map(f, sub)) by {
      PreOrderStep(wsId, folderId, path, fs, i);
      MapConcat(f, before, [top] + sub);
      MapConcat(f, [top], sub);
      assert Map(f, [top]) == [f(top)];
    }
    AppendAssoc(prefix + Map(f, before), [f(top)], Map(f, sub));
    AppendAssoc(prefix, Map(f, before), [f(top)] + Map(f, sub));
  }

  /** `v` is a visit of a folder listed directly in `fs`, the container with `folderId` at `path`. */
  predicate TopVisit(v: Visit, wsId: string, folderId: Option<string>, path: string, fs: seq<Folder>) {
    v.folder in fs && v.parentId == ParentId(folderId, wsId) && v.path == path + "/" + v.folder.name
  }

  /** `c` is the visit of a folder listed directly under the folder of visit `p`. */
  predicate ChildVisit(c: Visit, p: Visit, wsId: string) {
    c.folder in Listed(p.folder.folders)
      && c.parentId == ParentId(Some(p.folder.id), wsId)
      && c.path == p.path + "/" + c.folder.name
  }

  /** Every visit in `v` is either of a folder listed directly in `fs` (the container with
      `folderId` at `path`), or of a child of a folder visited earlier in `v`. */
  predicate Parented(v: seq<Visit>, wsId: string, folderId: Option<string>, path: string, fs: seq<Folder>) {
    forall k :: 0 <= k < |v| ==> ParentedAt(v, k, wsId, folderId, path, fs)
  }

  /** Every folder listed under a folder visited in `v` is visited later in `v`, as its child. */
  predicate Complete(v: seq<Visit>, wsId: string) {
    forall j, c :: 0 <= j < |v| && 0 <= c < |Listed(v[j].folder.folders)| ==> CompleteAt(v, j, c, wsId)
  }

  /** Every folder of `fs` is visited in `v` with the parent id and path of the container. */
  predicate CoversListing(v: seq<Visit>, wsId: string, folderId: Option<string>, path: string, fs: seq<Folder>) {
    forall i :: 0 <= i < |fs| ==>
      exists k :: 0 <= k < |v| && v[k] == Visit(fs[i], ParentId(folderId, wsId), path + "/" + fs[i].name)
  }

  /** The conclusion of `Parented` for the single index `k` of `v`. */
  predicate ParentedAt(v: seq<Visit>, k: nat, wsId: string, folderId: Option<string>, path: string, fs: seq<Folder>)
    requires k < |v|
  {
    TopVisit(v[k], wsId, folderId, path, fs) || exists j :: 0 <= j < k && ChildVisit(v[k], v[j], wsId)
  }

  lemma ParentedSubAt(
    top: Visit, sub: seq<Visit>, rest: seq<Visit>, k: nat,
    wsId: string, folderId: Option<string>, path: string, fs: seq<Folder>)
    requires fs != [] && 1 <= k < 1 + |sub|
    requires top == Visit(fs[0], ParentId(folderId, wsId), path + "/" + fs[0].name)
    requires ParentedAt(sub, k - 1, wsId, Some(fs[0].id), top.path, Listed(fs[0].folders))
    ensures ParentedAt([top] + sub + rest, k, wsId, folderId, path, fs)
  {
    var v := [top] + sub + rest;
    assert v[k] == sub[k - 1];
    if TopVisit(sub[k - 1], wsId, Some(fs[0].id), top.path, Listed(fs[0].folders)) {
      assert v[0] == top;
      assert ChildVisit(v[k], v[0], wsId);
    } else {
      var j :| 0 <= j < k - 1 && ChildVisit(sub[k - 1], sub[j], wsId);
      assert v[j + 1] == sub[j];
      assert ChildVisit(v[k], v[j + 1], wsId);
    }
  }

  lemma ParentedRestAt(
    top: Visit, sub: seq<Visit>, rest: seq<Visit>, k: nat,
    wsId: string, folderId: Option<string>, path: string, fs: seq<Folder>)
    requires fs != [] && 1 + |sub| <= k < 1 + |sub| + |rest|
    requires ParentedAt(rest, k - 1 - |sub|, wsId, folderId, path, fs[1..])
    ensures ParentedAt([top] + sub + rest, k, wsId, folderId, path, fs)
  {
    var v := [top] + sub + rest;
    var m := k - 1 - |sub|;
    assert v[k] == rest[m];
    if TopVisit(rest[m], wsId, folderId, path, fs[1..]) {
      assert rest[m].folder in fs;
    } else {
      var j :| 0 <= j < m && ChildVisit(rest[m], rest[j], wsId);
      assert v[j + 1 + |sub|] == rest[j];
      assert ChildVisit(v[k], v[j + 1 + |sub|], wsId);
    }
  }

  lemma ParentedCons(
    top: Visit, sub: seq<Visit>, rest: seq<Visit>,
    wsId: string, folderId: Option<string>, path: string, fs: seq<Folder>)
    requires fs != []
    requires top == Visit(fs[0], ParentId(folderId, wsId), path + "/" + fs[0].name)
    requires Parented(sub, wsId, Some(fs[0].id), top.path, Listed(fs[0].folders))
    requires Parented(rest, wsId, folderId, path, fs[1..])
    ensures Parented([top] + sub + rest, wsId, folderId, path, fs)
  {
    var v := [top] + sub + rest;
    forall k | 0 <= k < |v|
      ensures ParentedAt(v, k, wsId, folderId, path, fs)
    {
      if k == 0 {
        assert v[0] == top;
        assert TopVisit(v[0], wsId, folderId, path, fs);
      } else if k < 1 + |sub| {
        ParentedSubAt(top, sub, rest, k, wsId, folderId, path, fs);
      } else {
        ParentedRestAt(top, sub, rest, k, wsId, folderId, path, fs);
      }
    }
  }

  /** The conclusion of `Complete` for the visit `j` of `v` and its `c`-th listed child. */
  predicate CompleteAt(v: seq<Visit>, j: nat, c: nat, wsId: string)
    requires j < |v| && c < |Listed(v[j].folder.folders)|
  {
    exists k :: j < k < |v| && v[k].folder == Listed(v[j].folder.folders)[c] && ChildVisit(v[k], v[j], wsId)
  }

  lemma CompleteHeadAt(
    top: Visit, sub: seq<Visit>, rest: seq<Visit>, c: nat,
    wsId: string, folderId: Option<string>, path: string, fs: seq<Folder>)
    requires fs != [] && c < |Listed(fs[0].folders)|
    requires top == Visit(fs[0], ParentId(folderId, wsId), path + "/" + fs[0].name)
    requires CoversListing(sub, wsId, Some(fs[0].id), top.path, Listed(fs[0].folders))
    ensures CompleteAt([top] + sub + rest, 0, c, wsId)
  {
    var v := [top] + sub + rest;
    assert v[0] == top;
    var kids := Listed(fs[0].folders);
    var k :| 0 <= k < |sub| && sub[k] == Visit(kids[c], ParentId(Some(fs[0].id), wsId), top.path + "/" + kids[c].name);
    assert v[k + 1] == sub[k];
    assert ChildVisit(v[k + 1], v[0], wsId);
  }

  lemma CompleteSubAt(
    top: Visit, sub: seq<Visit>, rest: seq<Visit>, j: nat, c: nat, wsId: string)
    requires 1 <= j < 1 + |sub| && c < |Listed(sub[j - 1].folder.folders)|
    requires CompleteAt(sub, j - 1, c, wsId)
    ensures CompleteAt([top] + sub + rest, j, c, wsId)
  {
    var v := [top] + sub + rest;
    assert v[j] == sub[j - 1];
    var k :| j - 1 < k < |sub| && sub[k].folder == Listed(sub[j - 1].folder.folders)[c]
      && ChildVisit(sub[k], sub[j - 1], wsId);
    assert v[k + 1] == sub[k];
  }

  lemma CompleteRestAt(
    top: Visit, sub: seq<Visit>, rest: seq<Visit>, j: nat, c: nat, wsId: string)
    requires 1 + |sub| <= j < 1 + |sub| + |rest| && c < |Listed(rest[j - 1 - |sub|].folder.folders)|
    requires CompleteAt(rest, j - 1 - |sub|, c, wsId)
    ensures CompleteAt([top] + sub + rest, j, c, wsId)
  {
    var v := [top] + sub + rest;
    var m := j - 1 - |sub|;
    assert v[j] == rest[m];
    var k :| m < k < |rest| && rest[k].folder == Listed(rest[m].folder.folders)[c]
      && ChildVisit(rest[k], rest[m], wsId);
    assert v[k + 1 + |sub|] == rest[k];
  }

  lemma CompleteCons(
    top: Visit, sub: seq<Visit>, rest: seq<Visit>,
    wsId: string, folderId: Option<string>, path: string, fs: seq<Folder>)
    requires fs != []
    requires top == Visit(fs[0], ParentId(folderId, wsId), path + "/" + fs[0].name)
    requires CoversListing(sub, wsId, Some(fs[0].id), top.path, Listed(fs[0].folders))
    requires Complete(sub, wsId) && Complete(rest, wsId)
    ensures Complete([top] + sub + rest, wsId)
  {
    var v := [top] + sub + rest;
    forall j, c | 0 <= j < |v| && 0 <= c < |Listed(v[j].folder.folders)|
      ensures CompleteAt(v, j, c, wsId)
    {
      if j == 0 {
        assert v[0] == top;
        CompleteHeadAt(top, sub, rest, c, wsId, folderId, path, fs);
      } else if j < 1 + |sub| {
        assert v[j] == sub[j - 1];
        CompleteSubAt(top, sub, rest, j, c, wsId);
      } else {
        assert v[j] == rest[j - 1 - |sub|];
        CompleteRestAt(top, sub, rest, j, c, wsId);
      }
    }
  }

  lemma CoversCons(
    top: Visit, sub: seq<Visit>, rest: seq<Visit>,
    wsId: string, folderId: Option<string>, path: string, fs: seq<Folder>)
    requires fs != []
    requires top == Visit(fs[0], ParentId(folderId, wsId), path + "/" + fs[0].name)
    requires CoversListing(rest, wsId, folderId, path, fs[1..])
    ensures CoversListing([top] + sub + rest, wsId, folderId, path, fs)
  {
    var v := [top] + sub + rest;
    forall i | 0 <= i < |fs|
      ensures exists k :: 0 <= k < |v| && v[k] == Visit(fs[i], ParentId(folderId, wsId), path + "/" + fs[i].name)
    {
      if i == 0 {
        assert v[0] == top;
      } else {
        assert fs[i] == fs[1..][i - 1];
        var k :| 0 <= k < |rest| && rest[k] == Visit(fs[i], ParentId(folderId, wsId), path + "/" + fs[i].name);
        assert v[k + 1 + |sub|] == rest[k];
      }
    }
  }

  /** The walk is a pre-order that follows the path and parent rules and misses nothing:
      - every visit is of a folder listed directly in the walked container, or of a child of a
        folder visited EARLIER, whose path it extends by `"/" + name` and whose id (or, if that
        id is falsy, the workspace id) it carries as parent;
      - every folder of the walked listing is visited;
      - every folder listed under a visited folder is visited LATER, as that folder's child. */
  lemma {:induction false} PreOrderShape(
    wsId: string, folderId: Option<string>, path: string, fs: seq<Folder>)
    ensures Parented(PreOrder(wsId, folderId, path, fs), wsId, folderId, path, fs)
    ensures CoversListing(PreOrder(wsId, folderId, path, fs), wsId, folderId, path, fs)
    ensures Complete(PreOrder(wsId, folderId, path, fs), wsId)
    decreases fs
  {
    if fs != [] {
      var f := fs[0];
      var p := path + "/" + f.name;
      var top := Visit(f, ParentId(folderId, wsId), p);
      var kids := Listed(f.folders);
      var sub := PreOrder(wsId, Some(f.id), p, kids);
      var rest := PreOrder(wsId, folderId, path, fs[1..]);
      PreOrderUnfold(wsId, folderId, path, fs);
      if kids != [] {
        PreOrderShape(wsId, Some(f.id), p, f.folders.data);
      }
      PreOrderShape(wsId, folderId, path, fs[1..]);
      ParentedCons(top, sub, rest, wsId, folderId, path, fs);
      CompleteCons(top, sub, rest, wsId, folderId, path, fs);
      CoversCons(top, sub, rest, wsId, folderId, path, fs);
    }
  }
}
