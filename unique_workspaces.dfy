/** Creating the workspaces listed in a CSV file whose names are not yet taken: the existing
    names are fetched once and normalised, each row is skipped or posted, and a failed post
    does not stop the run. */
module UniqueWorkspaces {
  import opened Wrappers
  import opened Seqs
  import opened Text
  import opened Dicts
  import opened JsonValues

  /** One row of the input file. */
  datatype WorkspaceRow = WorkspaceRow(name: string, description: string, custom1: string,
                                       custom2: string, author: string, owner: string)

  /** The body of one create request. */
  datatype WorkspacePayload = WorkspacePayload(name: string, description: string, defaultSecurity: string,
                                               custom1: string, custom2: string, author: string, owner: string)

  /** How names are compared: stripped, then lower-cased. */
  function Normalise(name: string): string {
    Lower(Strip(name))
  }

  /** The set of normalised names of the existing workspaces. */
  function ExistingNames(names: seq<string>): (s: set<string>)
    ensures forall x :: x in s <==> exists i :: 0 <= i < |names| && Normalise(names[i]) == x
  {
    set i | 0 <= i < |names| :: Normalise(names[i])
  }

  /** What listing the existing workspaces gave: the decoded body, or an exception (including a
      status that `raise_for_status` rejects). */
  datatype ListingReply = ListingBody(body: Dict<string, Json>) | ListingFailed

  /** The `name` of every listed workspace, or `None` as soon as one has none that is a string
      (indexing or stripping it raises). */
  function ListedNames(workspaces: seq<Json>): (r: Option<seq<string>>)
    ensures r.Some? <==> forall i :: 0 <= i < |workspaces| ==> NameOf(workspaces[i]).Some?
    ensures r.Some? ==> |r.value| == |workspaces|
    ensures r.Some? ==> forall i :: 0 <= i < |workspaces| ==> NameOf(workspaces[i]) == Some(r.value[i])
  {
    if forall i :: 0 <= i < |workspaces| ==> NameOf(workspaces[i]).Some?
    then Some(seq(|workspaces|, i requires 0 <= i < |workspaces| => NameOf(workspaces[i]).value))
    else None
  }

  function NameOf(ws: Json): Option<string> {
    if ws.Obj? && Get(ws.fields, "name").Some? && Get(ws.fields, "name").value.Str?
    then Some(Get(ws.fields, "name").value.s)
    else None
  }

  /** What `for ws in data` runs over: a list's items, an object's keys, a string's characters;
      `None` for a value Python cannot iterate (a number, a boolean, `None`). */
  function Iterated(data: Json): (r: Option<seq<Json>>)
    ensures data.Arr? ==> r == Some(data.items)
    ensures data.Obj? ==> r.Some? && |r.value| == |data.fields| && forall v :: v in r.value ==> v.Str?
    ensures data.Str? ==> r.Some? && |r.value| == |data.s| && forall v :: v in r.value ==> v.Str?
    ensures r.None? <==> data.Null? || data.Bool? || data.Int?
  {
    match data
    case Arr(items) => Some(items)
    case Obj(fields) => Some(seq(|fields|, i requires 0 <= i < |fields| => Str(fields[i].0)))
    case Str(s) => Some(seq(|s|, i requires 0 <= i < |s| => Str([s[i]])))
    case _ => None
  }

  /** Step 1: the normalised existing names, or `None` when the script exits because the
      listing failed or could not be read. An empty object or string under `data` iterates as
      no workspace at all; a non-empty one yields strings, whose `["name"]` raises. */
  function FetchExisting(reply: ListingReply): (r: Option<set<string>>)
    ensures reply.ListingFailed? ==> r.None?
    ensures r.Some? ==> exists names :: ListedOk(reply, names) && r.value == ExistingNames(names)
    ensures reply.ListingBody? && Get(reply.body, "data").None? ==> r == Some({})
    ensures reply.ListingBody? && (Get(reply.body, "data") == Some(Obj([])) || Get(reply.body, "data") == Some(Str("")))
      ==> r == Some({})
    ensures reply.ListingBody? && Get(reply.body, "data").Some? && Get(reply.body, "data").value.Arr? ==>
      (r.Some? <==> forall i :: 0 <= i < |Get(reply.body, "data").value.items| ==>
                      NameOf(Get(reply.body, "data").value.items[i]).Some?)
    ensures reply.ListingBody? && Get(reply.body, "data").Some? && !Get(reply.body, "data").value.Arr? ==>
      (r.Some? <==> Get(reply.body, "data") == Some(Obj([])) || Get(reply.body, "data") == Some(Str("")))
  {
    match reply
    case ListingFailed => None
    case ListingBody(body) =>
      var data := Get(body, "data").GetOr(Arr([]));
      match Iterated(data)
      case None => None
      case Some(items) =>
        if !data.Arr? then
          StringsHaveNoName(items);
          assert items == [] <==> data == Obj([]) || data == Str("");
          if items == [] then assert ListedOk(reply, []); Some(ExistingNames([])) else None
        else
          assert Get(body, "data").Some? ==> data == Get(body, "data").value;
          match ListedNames(items)
          case None => None
          case Some(names) =>
            assert ListedOk(reply, names);
            assert names == [] ==> ExistingNames(names) == {};
            Some(ExistingNames(names))
  }

  /** No workspace name can be read from a string. */
  lemma StringsHaveNoName(items: seq<Json>)
    requires forall v :: v in items ==> v.Str?
    ensures ListedNames(items).Some? <==> items == []
    ensures items == [] ==> ListedNames(items) == Some([]) && ExistingNames([]) == {}
  {
    if items != [] {
      assert items[0] in items;
    }
  }

  /** The listing succeeded and `names` are its workspaces' names, in order. */
  predicate ListedOk(reply: ListingReply, names: seq<string>) {
    reply.ListingBody? &&
    var items := Iterated(Get(reply.body, "data").GetOr(Arr([])));
    items.Some? && ListedNames(items.value) == Some(names)
  }

  /** A row is posted exactly when its normalised name is not among the existing ones. */
  predicate IsNew(existing: set<string>, row: WorkspaceRow) {
    Normalise(row.name) !in existing
  }

  /** The payload of a row: the stripped name with its case kept, private security, and the
      other columns copied. */
  function PayloadOf(row: WorkspaceRow): WorkspacePayload {
    WorkspacePayload(Strip(row.name), row.description, "private", row.custom1, row.custom2,
                     row.author, row.owner)
  }

  /** The payload's name is stripped and compares equal to the row's name. */
  lemma PayloadName(row: WorkspaceRow)
    ensures IsStripped(PayloadOf(row).name) && Normalise(PayloadOf(row).name) == Normalise(row.name)
  {
  }

  /** What a create request gave: the decoded body, or an exception. */
  datatype CreateReply = CreateBody(body: Dict<string, Json>) | CreateFailed(error: string)

  /** What happened to one row. */
  datatype RowOutcome = Skipped(name: string) | Created(name: string, id: Json) | NotCreated(name: string)

  /** `create_resp.json().get("data", {}).get("id", "N/A")`, or `None` when `data` is present
      but not an object, so that the second `get` raises. */
  function NewId(body: Dict<string, Json>): (r: Option<Json>)
    ensures Get(body, "data").None? ==> r == Some(Str("N/A"))
    ensures r.None? <==> Get(body, "data").Some? && !Get(body, "data").value.Obj?
  {
    match Get(body, "data")
    case None => Some(Str("N/A"))
    case Some(data) => if data.Obj? then Some(Get(data.fields, "id").GetOr(Str("N/A"))) else None
  }

  /** The outcome of one row given the existing names and the answer its request would get. */
  function Decide(existing: set<string>, row: WorkspaceRow, reply: CreateReply): (o: RowOutcome)
    ensures o.name == Strip(row.name)
    ensures o.Skipped? <==> !IsNew(existing, row)
    ensures o.Created? <==> IsNew(existing, row) && reply.CreateBody? && NewId(reply.body).Some?
    ensures o.Created? ==> o.id == NewId(reply.body).value
  {
    if !IsNew(existing, row) then Skipped(Strip(row.name))
    else match reply
      case CreateFailed(_) => NotCreated(Strip(row.name))
      case CreateBody(body) =>
        match NewId(body)
        case None => NotCreated(Strip(row.name))
        case Some(id) => Created(Strip(row.name), id)
  }

  /** One outcome per row, the i-th row's request getting `replies(i)`. */
  function Outcomes(existing: set<string>, rows: seq<WorkspaceRow>, replies: nat -> CreateReply): (r: seq<RowOutcome>)
    ensures |r| == |rows|
  {
    seq(|rows|, i requires 0 <= i < |rows| => Decide(existing, rows[i], replies(i)))
  }

  /** The payloads posted for `rows`, in order. */
  function Posted(existing: set<string>, rows: seq<WorkspaceRow>): seq<WorkspacePayload>
    decreases |rows|
  {
    if rows == [] then []
    else
      var row := rows[|rows| - 1];
      Posted(existing, rows[..|rows| - 1]) + (if IsNew(existing, row) then [PayloadOf(row)] else [])
  }

  /** The row loop: skips the rows whose name is taken, posts the others, and carries on after a
      failed post. */
  method CreateNewWorkspaces(existing: set<string>, rows: seq<WorkspaceRow>, replies: nat -> CreateReply)
    returns (posted: seq<WorkspacePayload>, outcomes: seq<RowOutcome>)
    ensures posted == Posted(existing, rows)
    ensures outcomes == Outcomes(existing, rows, replies)
  {
    posted, outcomes := [], [];
    for i := 0 to |rows|
      invariant posted == Posted(existing, rows[..i])
      invariant outcomes == Outcomes(existing, rows[..i], replies)
    {
      assert rows[..i + 1][..i] == rows[..i];
      OutcomesSnoc(existing, rows, replies, i);
      var row := rows[i];
      var wsName := Strip(row.name);
      if Lower(wsName) in existing {
        outcomes := outcomes + [Skipped(wsName)];
        continue;
      }
      var payload := WorkspacePayload(wsName, row.description, "private", row.custom1, row.custom2,
                                      row.author, row.owner);
      posted := posted + [payload];
      match replies(i)
      case CreateFailed(_) =>
        outcomes := outcomes + [NotCreated(wsName)];
      case CreateBody(body) =>
        var newId := NewId(body);
        if newId.Some? {
          outcomes := outcomes + [Created(wsName, newId.value)];
        } else {
          outcomes := outcomes + [NotCreated(wsName)];
        }
    }
    assert rows[..|rows|] == rows;
  }

  /** The whole script: nothing is posted when the existing names cannot be fetched. */
  method CreateUniqueWorkspaces(listing: ListingReply, rows: seq<WorkspaceRow>, replies: nat -> CreateReply)
    returns (exited: bool, posted: seq<WorkspacePayload>, outcomes: seq<RowOutcome>)
    ensures exited <==> FetchExisting(listing).None?
    ensures exited ==> posted == [] && outcomes == []
    ensures !exited ==> posted == Posted(FetchExisting(listing).value, rows) &&
                        outcomes == Outcomes(FetchExisting(listing).value, rows, replies)
  {
    var existing := FetchExisting(listing);
    if existing.None? {
      return true, [], [];
    }
    exited := false;
    posted, outcomes := CreateNewWorkspaces(existing.value, rows, replies);
  }

  /** A row is posted exactly when no existing name matches it after normalisation. */
  lemma SkipRule(names: seq<string>, row: WorkspaceRow)
    ensures !IsNew(ExistingNames(names), row) <==> exists i :: 0 <= i < |names| && Normalise(names[i]) == Normalise(row.name)
  {
  }

  /** Each posted payload comes from a new row. */
  lemma PostedFromNew(existing: set<string>, rows: seq<WorkspaceRow>)
    ensures forall p :: p in Posted(existing, rows) ==>
      exists i :: 0 <= i < |rows| && IsNew(existing, rows[i]) && p == PayloadOf(rows[i])
  {
    forall p | p in Posted(existing, rows)
      ensures exists i :: 0 <= i < |rows| && IsNew(existing, rows[i]) && p == PayloadOf(rows[i])
    {
      var i := PostedIndex(existing, rows, p);
    }
  }

  /** The row a posted payload comes from. */
  lemma {:induction false} PostedIndex(existing: set<string>, rows: seq<WorkspaceRow>, p: WorkspacePayload)
    returns (i: nat)
    requires p in Posted(existing, rows)
    ensures i < |rows| && IsNew(existing, rows[i]) && p == PayloadOf(rows[i])
    decreases |rows|
  {
    var init := rows[..|rows| - 1];
    if p in Posted(existing, init) {
      i := PostedIndex(existing, init, p);
      assert rows[i] == init[i];
    } else {
      i := |rows| - 1;
    }
  }

  /** Each new row is posted. */
  lemma {:induction false} NewArePosted(existing: set<string>, rows: seq<WorkspaceRow>)
    ensures forall i :: 0 <= i < |rows| && IsNew(existing, rows[i]) ==> PayloadOf(rows[i]) in Posted(existing, rows)
    decreases |rows|
  {
    if rows != [] {
      var init := rows[..|rows| - 1];
      var last := rows[|rows| - 1];
      NewArePosted(existing, init);
      assert rows == init + [last];
      PostedSnoc(existing, init, last);
      forall i | 0 <= i < |rows| && IsNew(existing, rows[i])
        ensures PayloadOf(rows[i]) in Posted(existing, rows)
      {
        if i < |init| {
          assert rows[i] == init[i];
          assert PayloadOf(init[i]) in Posted(existing, init);
        }
      }
    }
  }

  /** The posted payloads are exactly those of the new rows. */
  lemma PostedExactly(existing: set<string>, rows: seq<WorkspaceRow>)
    ensures forall p :: p in Posted(existing, rows) <==>
      exists i :: 0 <= i < |rows| && IsNew(existing, rows[i]) && p == PayloadOf(rows[i])
  {
    PostedFromNew(existing, rows);
    NewArePosted(existing, rows);
  }

  /** No posted name matches an existing one, and every payload is private and stripped. */
  lemma PostedAreNew(existing: set<string>, rows: seq<WorkspaceRow>)
    ensures forall p :: p in Posted(existing, rows) ==>
      Normalise(p.name) !in existing && p.defaultSecurity == "private" && IsStripped(p.name)
  {
    PostedExactly(existing, rows);
    forall i | 0 <= i < |rows| {
      PayloadName(rows[i]);
    }
  }

  lemma OutcomesSnoc(existing: set<string>, rows: seq<WorkspaceRow>, replies: nat -> CreateReply, i: nat)
    requires i < |rows|
    ensures Outcomes(existing, rows[..i + 1], replies) ==
      Outcomes(existing, rows[..i], replies) + [Decide(existing, rows[i], replies(i))]
  {
  }

  /** Whether a row is posted depends on that row and the fetched names only: the names of
      rows posted before are not added to `existing`. */
  lemma {:induction false} PostedConcat(existing: set<string>, a: seq<WorkspaceRow>, b: seq<WorkspaceRow>)
    ensures Posted(existing, a + b) == Posted(existing, a) + Posted(existing, b)
    decreases |b|
  {
    if b == [] {
      assert a + b == a;
    } else {
      var initB, last := b[..|b| - 1], b[|b| - 1];
      var tail := if IsNew(existing, last) then [PayloadOf(last)] else [];
      assert Posted(existing, a + b) == Posted(existing, a + initB) + tail by {
        AppendSnoc(a, b);
        PostedSnoc(existing, a + initB, last);
      }
      assert Posted(existing, b) == Posted(existing, initB) + tail;
      PostedConcat(existing, a, initB);
      AppendAssoc(Posted(existing, a), Posted(existing, initB), tail);
    }
  }

  /** In particular two new rows with the same normalised name are both posted. */
  lemma DuplicatesBothPosted(existing: set<string>, r1: WorkspaceRow, r2: WorkspaceRow)
    requires IsNew(existing, r1) && Normalise(r1.name) == Normalise(r2.name)
    ensures Posted(existing, [r1, r2]) == [PayloadOf(r1), PayloadOf(r2)]
  {
    assert IsNew(existing, r2);
    PostedConcat(existing, [r1], [r2]);
    PostedSnoc(existing, [], r1);
    PostedSnoc(existing, [], r2);
    assert [r1] + [r2] == [r1, r2];
  }

  lemma PostedSnoc(existing: set<string>, rows: seq<WorkspaceRow>, r: WorkspaceRow)
    ensures Posted(existing, rows + [r]) == Posted(existing, rows) + (if IsNew(existing, r) then [PayloadOf(r)] else [])
  {
    assert (rows + [r])[..|rows|] == rows;
  }

  /** One request per posted payload: the rows not skipped are exactly those posted. */
  lemma {:induction false} AttemptsMatchPosts(existing: set<string>, rows: seq<WorkspaceRow>, replies: nat -> CreateReply)
    ensures |Posted(existing, rows)| == |Filter(Attempted, Outcomes(existing, rows, replies))|
    decreases |rows|
  {
    if rows != [] {
      var init := rows[..|rows| - 1];
      AttemptsMatchPosts(existing, init, replies);
      var last := Decide(existing, rows[|rows| - 1], replies(|rows| - 1));
      OutcomesSnoc(existing, rows, replies, |rows| - 1);
      assert rows[..|rows|] == rows;
      FilterConcat(Attempted, Outcomes(existing, init, replies), [last]);
    }
  }

  /** A row whose create request was made. */
  predicate Attempted(o: RowOutcome) {
    !o.Skipped?
  }
}
