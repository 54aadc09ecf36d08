/** Listing the workspaces of every visible library of a customer: the configuration check,
    the token record, the per-library gathering with its running total, and the entries shown
    for each workspace. */
module AllWorkspaces {
  import opened Wrappers
  import opened Seqs
  import opened Dicts
  import opened JsonValues
  import opened Config

  const WorkspaceRequired := ["server", "username", "password", "client_id", "client_secret", "customer_id"]

  /** The configuration, `None` for a missing or malformed file, or the `ValueError` naming the
      missing fields, which no handler of `load_config` catches. */
  datatype LoadResult = Loaded(config: Dict<string, Json>) | NotLoaded | MissingRaised(missing: seq<string>)

  /** `load_config`: loaded exactly when every required field is present; otherwise the error
      lists the absent fields, in the order they are required. */
  function LoadConfig(file: ConfigFile): (r: LoadResult)
    ensures r.Loaded? <==> file.Parsed? && forall f :: f in WorkspaceRequired ==> f in Keys(file.config)
    ensures r.Loaded? ==> r.config == file.config
    ensures r.MissingRaised? ==>
      file.Parsed? && r.missing != [] &&
      forall f :: f in r.missing <==> f in WorkspaceRequired && f !in Keys(file.config)
  {
    match file
    case NotFound => NotLoaded
    case InvalidJson => NotLoaded
    case Parsed(config) =>
      MissingFieldsExact(config, WorkspaceRequired);
      var missing := MissingFields(config, WorkspaceRequired);
      if missing != [] then MissingRaised(missing) else Loaded(config)
  }

  /** What the token request gave: a status code with the decoded body, or an exception. */
  datatype TokenAnswer = TokenAnswer(code: int, body: Dict<string, Json>) | TokenException

  /** The token record; the time it was received is not modelled. */
  datatype TokenInfo = TokenInfo(accessToken: Json, tokenType: Json, expiresIn: Json)

  /** `get_access_token`: a record only for a 200 answer with a truthy token, whose type
      defaults to `"Bearer"` and whose expiry reads as `None` when absent. */
  function GetAccessToken(answer: TokenAnswer): (r: Option<TokenInfo>)
    ensures r.Some? <==> answer.TokenAnswer? && answer.code == 200 && TruthyGet(answer.body, "access_token")
    ensures r.Some? ==> Get(answer.body, "access_token") == Some(r.value.accessToken) && Truthy(r.value.accessToken)
    ensures r.Some? && Get(answer.body, "token_type").None? ==> r.value.tokenType == Str("Bearer")
    ensures r.Some? && Get(answer.body, "token_type").Some? ==> Get(answer.body, "token_type") == Some(r.value.tokenType)
  {
    match answer
    case TokenException => None
    case TokenAnswer(code, body) =>
      if code == 200 && TruthyGet(body, "access_token") then
        Some(TokenInfo(Get(body, "access_token").value,
                       Get(body, "token_type").GetOr(Str("Bearer")),
                       Get(body, "expires_in").GetOr(Null)))
      else None
  }

  type Library = Dict<string, Json>
  type Workspace = Dict<string, Json>

  /** What a workspace listing request gave: a status code with the `data` member, if any, or
      an exception. */
  datatype ListingAnswer = Listing(code: int, data: Option<seq<Workspace>>) | ListingException

  /** `get_workspaces`: the `data` list (empty when absent) for a 200 answer, `None` otherwise. */
  function GetWorkspaces(answer: ListingAnswer): Option<seq<Workspace>> {
    if answer.Listing? && answer.code == 200 then Some(answer.data.GetOr([])) else None
  }

  predicate Hidden(lib: Library) {
    TruthyGet(lib, "is_hidden")
  }

  predicate Visible(lib: Library) {
    !TruthyGet(lib, "is_hidden")
  }

  /** `library.get('id')`. */
  function LibraryId(lib: Library): Json {
    Get(lib, "id").GetOr(Null)
  }

  /** The workspaces a library contributes: none when it is hidden (it is not even asked),
      when its listing fails, or when the listing is empty. */
  function Stored(lib: Library, fetch: Json -> ListingAnswer): seq<Workspace> {
    if Hidden(lib) then [] else GetWorkspaces(fetch(LibraryId(lib))).GetOr([])
  }

  /** The state of `get_all_workspaces` after the libraries `libs`: the dict from library id to
      its workspaces, and the running total. */
  function Gather(libs: seq<Library>, fetch: Json -> ListingAnswer): (Dict<Json, seq<Workspace>>, nat)
    decreases |libs|
  {
    if libs == [] then ([], 0)
    else
      var prior := Gather(libs[..|libs| - 1], fetch);
      var lib := libs[|libs| - 1];
      var ws := Stored(lib, fetch);
      if ws != [] then (Put(prior.0, LibraryId(lib), ws), prior.1 + |ws|) else prior
  }

  /** Walks the libraries, skipping hidden ones, storing each non-empty listing under its
      library id and adding its length to the total; also the number of libraries checked. */
  method GetAllWorkspaces(libraries: seq<Library>, fetch: Json -> ListingAnswer)
    returns (all: Dict<Json, seq<Workspace>>, total: nat, checked: nat)
    ensures (all, total) == Gather(libraries, fetch)
    ensures checked == |Filter(Visible, libraries)|
  {
    all, total := [], 0;
    for i := 0 to |libraries|
      invariant (all, total) == Gather(libraries[..i], fetch)
    {
      assert libraries[..i + 1][..i] == libraries[..i];
      var library := libraries[i];
      var libraryId := LibraryId(library);
      var isHidden := Get(library, "is_hidden").GetOr(Bool(false));
      if Truthy(isHidden) {
        continue;
      }
      var workspaces := GetWorkspaces(fetch(libraryId));
      if workspaces.Some? && workspaces.value != [] {
        all := Put(all, libraryId, workspaces.value);
        total := total + |workspaces.value|;
      }
    }
    assert libraries[..|libraries|] == libraries;
    checked := |Filter(Visible, libraries)|;
  }

  /** The number of workspaces each library contributes. */
  function Counts(libs: seq<Library>, fetch: Json -> ListingAnswer): (c: seq<nat>)
    ensures |c| == |libs|
  {
    seq(|libs|, i requires 0 <= i < |libs| => |Stored(libs[i], fetch)|)
  }

  /** The total is the sum of what every library contributes. */
  lemma {:induction false} GatherTotal(libs: seq<Library>, fetch: Json -> ListingAnswer)
    ensures Gather(libs, fetch).1 == Sum(Counts(libs, fetch))
    decreases |libs|
  {
    if libs != [] {
      var init := libs[..|libs| - 1];
      GatherTotal(init, fetch);
      assert Counts(libs, fetch) == Counts(init, fetch) + [|Stored(libs[|libs| - 1], fetch)|];
      SumConcat(Counts(init, fetch), [|Stored(libs[|libs| - 1], fetch)|]);
    }
  }

  /** Hidden libraries are never asked for: what the server would answer for them does not
      change the outcome. */
  lemma {:induction false} GatherIgnoresHidden(libs: seq<Library>, f: Json -> ListingAnswer, g: Json -> ListingAnswer)
    requires forall i :: 0 <= i < |libs| && Visible(libs[i]) ==> f(LibraryId(libs[i])) == g(LibraryId(libs[i]))
    ensures Gather(libs, f) == Gather(libs, g)
    decreases |libs|
  {
    if libs != [] {
      var init := libs[..|libs| - 1];
      assert forall i :: 0 <= i < |init| ==> init[i] == libs[i];
      GatherIgnoresHidden(init, f, g);
    }
  }

  /** The stored entries as a reference: each library with a non-empty contribution, in order. */
  function StoredPairs(libs: seq<Library>, fetch: Json -> ListingAnswer): Dict<Json, seq<Workspace>>
    decreases |libs|
  {
    if libs == [] then []
    else
      var lib := libs[|libs| - 1];
      StoredPairs(libs[..|libs| - 1], fetch) +
        (if Stored(lib, fetch) != [] then [(LibraryId(lib), Stored(lib, fetch))] else [])
  }

  lemma {:induction false} StoredPairsKeys(libs: seq<Library>, fetch: Json -> ListingAnswer)
    ensures forall k :: k in Keys(StoredPairs(libs, fetch)) ==> exists i :: 0 <= i < |libs| && LibraryId(libs[i]) == k
    decreases |libs|
  {
    if libs != [] {
      var init := libs[..|libs| - 1];
      StoredPairsKeys(init, fetch);
      var pairs := StoredPairs(libs, fetch);
      forall k | k in Keys(pairs) ensures exists i :: 0 <= i < |libs| && LibraryId(libs[i]) == k {
        var prior := StoredPairs(init, fetch);
        var j :| 0 <= j < |pairs| && Keys(pairs)[j] == k;
        if j < |prior| {
          assert pairs[j] == prior[j];
          assert Keys(prior)[j] == k;
          assert k in Keys(prior);
          var i :| 0 <= i < |init| && LibraryId(init[i]) == k;
          assert libs[i] == init[i];
        } else {
          assert LibraryId(libs[|libs| - 1]) == k;
        }
      }
    }
  }

  /** With distinct library ids no entry is overwritten: the dict holds every non-empty
      contribution in library order. */
  lemma {:induction false} GatherDistinct(libs: seq<Library>, fetch: Json -> ListingAnswer)
    requires forall i, j :: 0 <= i < j < |libs| ==> LibraryId(libs[i]) != LibraryId(libs[j])
    ensures Gather(libs, fetch).0 == StoredPairs(libs, fetch)
    decreases |libs|
  {
    if libs != [] {
      var init := libs[..|libs| - 1];
      var lib := libs[|libs| - 1];
      assert forall i :: 0 <= i < |init| ==> init[i] == libs[i];
      GatherDistinct(init, fetch);
      var prior := StoredPairs(init, fetch);
      if Stored(lib, fetch) != [] {
        StoredPairsKeys(init, fetch);
        assert LibraryId(lib) !in Keys(prior);
        PutKeys(prior, LibraryId(lib), Stored(lib, fetch));
      }
    }
  }

  /** The lengths of the stored lists. */
  function Lengths(d: Dict<Json, seq<Workspace>>): (r: seq<nat>)
    ensures |r| == |d|
  {
    seq(|d|, i requires 0 <= i < |d| => |d[i].1|)
  }

  /** The stored lists' lengths add up to what the libraries contribute. */
  lemma {:induction false} StoredPairsTotal(libs: seq<Library>, fetch: Json -> ListingAnswer)
    ensures Sum(Lengths(StoredPairs(libs, fetch))) == Sum(Counts(libs, fetch))
    decreases |libs|
  {
    if libs != [] {
      var init := libs[..|libs| - 1];
      var lib := libs[|libs| - 1];
      var ws := Stored(lib, fetch);
      var tailPair := if ws != [] then [(LibraryId(lib), ws)] else [];
      assert Sum(Lengths(StoredPairs(libs, fetch))) == Sum(Lengths(StoredPairs(init, fetch))) + |ws| by {
        LengthsConcat(StoredPairs(init, fetch), tailPair);
        SumConcat(Lengths(StoredPairs(init, fetch)), Lengths(tailPair));
        assert Sum(Lengths(tailPair)) == |ws|;
      }
      assert Sum(Counts(libs, fetch)) == Sum(Counts(init, fetch)) + |ws| by {
        CountsSnoc(libs, fetch);
        SumConcat(Counts(init, fetch), [|ws|]);
      }
      StoredPairsTotal(init, fetch);
    }
  }

  lemma LengthsConcat(a: Dict<Json, seq<Workspace>>, b: Dict<Json, seq<Workspace>>)
    ensures Lengths(a + b) == Lengths(a) + Lengths(b)
  {
  }

  lemma CountsSnoc(libs: seq<Library>, fetch: Json -> ListingAnswer)
    requires libs != []
    ensures Counts(libs, fetch) == Counts(libs[..|libs| - 1], fetch) + [|Stored(libs[|libs| - 1], fetch)|]
  {
  }

  /** With distinct library ids the total is the sum of the lengths of the stored lists. */
  lemma TotalOfStored(libs: seq<Library>, fetch: Json -> ListingAnswer)
    requires forall i, j :: 0 <= i < j < |libs| ==> LibraryId(libs[i]) != LibraryId(libs[j])
    ensures Gather(libs, fetch).1 == Sum(Lengths(Gather(libs, fetch).0))
  {
    GatherTotal(libs, fetch);
    GatherDistinct(libs, fetch);
    StoredPairsTotal(libs, fetch);
  }

  /** Every library is either checked or skipped as hidden. */
  lemma CheckedOrHidden(libs: seq<Library>)
    ensures |Filter(Visible, libs)| + |Filter(Hidden, libs)| == |libs|
  {
    FilterComplement(Visible, Hidden, libs);
  }

  /** One workspace as `display_workspaces` shows it. */
  datatype Entry = Entry(number: nat, id: Json, name: Json, kind: Json, active: bool, description: Json)

  /** The entry numbered `number` for `ws`, with the defaults for absent members. */
  function EntryOf(number: nat, ws: Workspace): (e: Entry)
    ensures e.number == number
    ensures e.id == (if Get(ws, "id").Some? then Get(ws, "id").value else Str("N/A"))
    ensures e.name == (if Get(ws, "name").Some? then Get(ws, "name").value else Str("N/A"))
    ensures e.kind == (if Get(ws, "type").Some? then Get(ws, "type").value else Str("N/A"))
    ensures e.active <==> Get(ws, "is_active").None? || Truthy(Get(ws, "is_active").value)
    ensures e.description ==
      (if Get(ws, "description").Some? then Get(ws, "description").value else Str("No description"))
  {
    Entry(number,
          Get(ws, "id").GetOr(Str("N/A")),
          Get(ws, "name").GetOr(Str("N/A")),
          Get(ws, "type").GetOr(Str("N/A")),
          Truthy(Get(ws, "is_active").GetOr(Bool(true))),
          Get(ws, "description").GetOr(Str("No description")))
  }

  /** `display_workspaces`: one entry per workspace, numbered from 1 in listing order. */
  method DisplayWorkspaces(libraryId: Json, workspaces: seq<Workspace>) returns (entries: seq<Entry>)
    ensures |entries| == |workspaces|
    ensures forall i :: 0 <= i < |workspaces| ==> entries[i] == EntryOf(i + 1, workspaces[i])
  {
    entries := [];
    if workspaces == [] {
      return;
    }
    for i := 0 to |workspaces|
      invariant |entries| == i
      invariant forall k :: 0 <= k < i ==> entries[k] == EntryOf(k + 1, workspaces[k])
    {
      entries := entries + [EntryOf(i + 1, workspaces[i])];
    }
  }
}
