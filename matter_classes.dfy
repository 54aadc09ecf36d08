/** Grouping the listed workspaces by their matter class (`custom2`), as the workspace listing
    script does before printing them: one list per class, classes in the order first seen. */
module MatterClasses {
  import opened Wrappers
  import opened Seqs
  import opened Dicts
  import opened JsonValues

  type Workspace = Dict<string, Json>

  /** What a group holds for one workspace: its name, its id and the whole workspace. */
  datatype Entry = Entry(name: Json, id: Json, attributes: Workspace)

  /** `workspace.get("custom2", "Unknown")`: the default applies only when the key is absent,
      so a `null` class stays `null`. */
  function MatterClass(ws: Workspace): (c: Json)
    ensures Get(ws, "custom2").None? ==> c == Str("Unknown")
    ensures Get(ws, "custom2").Some? ==> c == Get(ws, "custom2").value
  {
    Get(ws, "custom2").GetOr(Str("Unknown"))
  }

  function EntryOf(ws: Workspace): Entry {
    Entry(Get(ws, "name").GetOr(Null), Get(ws, "id").GetOr(Null), ws)
  }

  /** The groups after the workspaces `wss`: the entry of each is appended to the list of its
      class, a new class being added at the end. */
  function Group(wss: seq<Workspace>): Dict<Json, seq<Entry>>
    decreases |wss|
  {
    if wss == [] then []
    else
      var groups := Group(wss[..|wss| - 1]);
      var ws := wss[|wss| - 1];
      var c := MatterClass(ws);
      Put(groups, c, Get(groups, c).GetOr([]) + [EntryOf(ws)])
  }

  /** The loop filling `workspace_hierarchy`. */
  method GroupByMatterClass(workspaces: seq<Workspace>) returns (hierarchy: Dict<Json, seq<Entry>>)
    ensures hierarchy == Group(workspaces)
  {
    hierarchy := [];
    for i := 0 to |workspaces|
      invariant hierarchy == Group(workspaces[..i])
    {
      assert workspaces[..i + 1][..i] == workspaces[..i];
      var workspace := workspaces[i];
      var matterClass := Get(workspace, "custom2").GetOr(Str("Unknown"));
      var entries := Get(hierarchy, matterClass).GetOr([]);
      hierarchy := Put(hierarchy, matterClass, entries + [EntryOf(workspace)]);
    }
    assert workspaces[..|workspaces|] == workspaces;
  }

  /** The entries of the workspaces of class `c`, in input order: the reference for a group. */
  function InClass(wss: seq<Workspace>, c: Json): seq<Entry>
    decreases |wss|
  {
    if wss == [] then []
    else
      var ws := wss[|wss| - 1];
      InClass(wss[..|wss| - 1], c) + (if MatterClass(ws) == c then [EntryOf(ws)] else [])
  }

  /** A class has a group exactly when some workspace has that class, and the group lists the
      entries of those workspaces in input order. */
  lemma {:induction false} GroupGet(wss: seq<Workspace>, c: Json)
    ensures Get(Group(wss), c) == if InClass(wss, c) == [] then None else Some(InClass(wss, c))
    decreases |wss|
  {
    if wss != [] {
      var init := wss[..|wss| - 1];
      var ws := wss[|wss| - 1];
      var groups := Group(init);
      GroupGet(init, c);
      PutGet(groups, MatterClass(ws), Get(groups, MatterClass(ws)).GetOr([]) + [EntryOf(ws)], c);
      assert Group(wss) == Put(groups, MatterClass(ws), Get(groups, MatterClass(ws)).GetOr([]) + [EntryOf(ws)]);
      assert InClass(wss, c) == InClass(init, c) + (if MatterClass(ws) == c then [EntryOf(ws)] else []);
      if MatterClass(ws) == c {
        assert Get(groups, c).GetOr([]) == InClass(init, c);
      } else {
        assert InClass(wss, c) == InClass(init, c);
      }
    }
  }

  /** Every entry of class `c` comes from a workspace of that class. */
  lemma {:induction false} InClassMembers(wss: seq<Workspace>, c: Json)
    ensures forall e :: e in InClass(wss, c) ==> MatterClass(e.attributes) == c && e == EntryOf(e.attributes) && e.attributes in wss
    decreases |wss|
  {
    if wss != [] {
      var init := wss[..|wss| - 1];
      InClassMembers(init, c);
      assert forall w :: w in init ==> w in wss;
    }
  }

  /** Each workspace's entry is in the list of its class. */
  lemma {:induction false} InClassContains(wss: seq<Workspace>, i: nat)
    requires i < |wss|
    ensures EntryOf(wss[i]) in InClass(wss, MatterClass(wss[i]))
    decreases |wss|
  {
    var init := wss[..|wss| - 1];
    if i < |init| {
      InClassContains(init, i);
      assert init[i] == wss[i];
    }
  }

  /** Each workspace lands in the group of its own class, and only there: a group holds only
      entries of its class. */
  lemma InOwnGroup(wss: seq<Workspace>, i: nat, c: Json)
    requires i < |wss|
    ensures c == MatterClass(wss[i]) ==> Get(Group(wss), c).Some? && EntryOf(wss[i]) in Get(Group(wss), c).value
    ensures Get(Group(wss), c).Some? ==> forall e :: e in Get(Group(wss), c).value ==> MatterClass(e.attributes) == c
  {
    GroupGet(wss, c);
    InClassMembers(wss, c);
    if c == MatterClass(wss[i]) {
      InClassContains(wss, i);
    }
  }

  /** The classes in the order they first occur. */
  function FirstSeen(cs: seq<Json>): seq<Json>
    decreases |cs|
  {
    if cs == [] then []
    else
      var seen := FirstSeen(cs[..|cs| - 1]);
      if cs[|cs| - 1] in seen then seen else seen + [cs[|cs| - 1]]
  }

  /** The groups appear in the order their classes are first seen. */
  lemma {:induction false} GroupOrder(wss: seq<Workspace>)
    ensures Keys(Group(wss)) == FirstSeen(Map(MatterClass, wss))
    decreases |wss|
  {
    if wss != [] {
      var init := wss[..|wss| - 1];
      var ws := wss[|wss| - 1];
      var groups := Group(init);
      GroupOrder(init);
      assert Map(MatterClass, wss)[..|wss| - 1] == Map(MatterClass, init);
      PutKeys(groups, MatterClass(ws), Get(groups, MatterClass(ws)).GetOr([]) + [EntryOf(ws)]);
    }
  }

  /** No class has two groups. */
  lemma {:induction false} GroupValid(wss: seq<Workspace>)
    ensures Valid(Group(wss))
    decreases |wss|
  {
    if wss != [] {
      var init := wss[..|wss| - 1];
      var ws := wss[|wss| - 1];
      var groups := Group(init);
      GroupValid(init);
      PutValid(groups, MatterClass(ws), Get(groups, MatterClass(ws)).GetOr([]) + [EntryOf(ws)]);
    }
  }
}
