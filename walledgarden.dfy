/**
 * walledgarden.php: the hotspot's walled-garden rules (hosts reachable before login),
 * and the hotspot servers a rule can be bound to.
 */
module WalledGardenPage {
  import opened Php
  import opened PhpInt
  import opened RouterOs
  import opened Console

  // ---------------------------------------------------------------- fetching

  /** The loop of fetchHotspotServers(): the name of every server that has one, in order. */
  method CollectNames(results: seq<Record>) returns (servers: seq<string>)
    ensures servers == Column(results, "name")
  {
    servers := [];
    for i := 0 to |results|
      invariant servers == Column(results[..i], "name")
    {
      assert results[..i + 1][..i] == results[..i];
      if "name" in results[i] {
        servers := servers + [results[i]["name"]];
      }
    }
    assert results[..|results|] == results;
  }

  /** A name is listed exactly when some server carries it, and every listed name is one server's. */
  lemma {:induction false} ColumnMembers(rows: seq<Record>, key: string)
    ensures forall v :: v in Column(rows, key) <==> exists r :: r in rows && key in r && r[key] == v
  {
    if rows != [] {
      var init := rows[..|rows| - 1];
      var last := rows[|rows| - 1];
      ColumnMembers(init, key);
      assert rows == init + [last];
      assert forall r :: r in rows <==> r in init || r == last;
    }
  }

  /** fetchHotspotServers(): the server names, or none when the request throws. */
  method FetchHotspotServers(router: Router) returns (servers: seq<string>)
    requires router.Valid()
    modifies router
    ensures router.Valid()
    ensures router.sent == old(router.sent) + [Print(Servers, None)]
    ensures router.tables == old(router.tables) && router.nextId == old(router.nextId)
    ensures servers == if |old(router.sent)| in router.rejects then [] else Column(old(router.Rows(Servers)), "name")
  {
    var r := router.Execute(Print(Servers, None));
    if r.Err? {
      return [];
    }
    servers := CollectNames(r.value);
  }

  /** fetchWalledGarden(): every rule, or none when the request throws. */
  method FetchWalledGarden(router: Router) returns (entries: seq<Record>)
    requires router.Valid()
    modifies router
    ensures router.Valid()
    ensures router.sent == old(router.sent) + [Print(WalledGarden, None)]
    ensures router.tables == old(router.tables) && router.nextId == old(router.nextId)
    ensures entries == if |old(router.sent)| in router.rejects then [] else old(router.Rows(WalledGarden))
  {
    var r := router.Execute(Print(WalledGarden, None));
    entries := if r.Ok? then r.value else [];
  }

  // ---------------------------------------------------------------- bulk delete

  /** Removing the joined ids of the ticked rules removes exactly the rows with one of those ids. */
  lemma BulkRemoval(rows: seq<Record>, selected: seq<string>)
    requires |selected| >= 1
    requires forall i :: 0 <= i < |selected| ==> ',' !in selected[i]
    ensures var after := RemoveIds(rows, Explode(',', Implode(',', selected)));
      && (forall r :: r in after ==> r in rows && Get(r, ".id", "") !in selected)
      && (forall r :: r in rows && Get(r, ".id", "") !in selected ==> r in after)
  {
    ExplodeImplode(',', selected);
  }

  /** The bulk delete request: one `/remove` with the ticked ids (a posted `selected[]` has at least one) joined by ','; it always goes back to the list. */
  method BulkDelete(router: Router, selected: seq<string>) returns (outcome: Outcome)
    requires router.Valid()
    requires |selected| >= 1
    modifies router
    ensures router.Valid()
    ensures router.nextId == old(router.nextId)
    ensures router.sent == old(router.sent) + [Remove(WalledGarden, Implode(',', selected))]
    ensures outcome.redirect == Some("walledgarden.php")
    ensures |old(router.sent)| in router.rejects ==>
      && outcome.message == Message(Error, "Error deleting selected rules: " + router.rejects[|old(router.sent)|])
      && router.tables == old(router.tables)
    ensures |old(router.sent)| !in router.rejects ==>
      && outcome.message == Message(Success, IntToString(|selected|) + " selected rules deleted successfully.")
      && router.Rows(WalledGarden) == RemoveIds(old(router.Rows(WalledGarden)), Explode(',', Implode(',', selected)))
      && forall m :: m != WalledGarden ==> router.Rows(m) == old(router.Rows(m))
  {
    var r := router.Execute(Remove(WalledGarden, Implode(',', selected)));
    if r.Err? {
      return Outcome(Message(Error, "Error deleting selected rules: " + r.message), Some("walledgarden.php"));
    }
    outcome := Outcome(Message(Success, IntToString(|selected|) + " selected rules deleted successfully."), Some("walledgarden.php"));
  }

  // ---------------------------------------------------------------- add / edit

  /** The rule form after trimming; the edit id is taken as sent. */
  datatype RuleForm = RuleForm(action: string, server: string, dstHost: string, id: string, comment: string)

  function ReadRuleForm(post: Form): (f: RuleForm)
    ensures Trim(f.action) == f.action && Trim(f.server) == f.server
    ensures Trim(f.dstHost) == f.dstHost && Trim(f.comment) == f.comment
    ensures f.id == Get(post, "edit_id", "")
  {
    TrimIdempotent(Get(post, "action_type", ""));
    TrimIdempotent(Get(post, "server", ""));
    TrimIdempotent(Get(post, "dst_host", ""));
    TrimIdempotent(Get(post, "comment", ""));
    RuleForm(
      Trim(Get(post, "action_type", "")), Trim(Get(post, "server", "")), Trim(Get(post, "dst_host", "")),
      Get(post, "edit_id", ""), Trim(Get(post, "comment", "")))
  }

  /** The words every save sends: the lower-cased action, the server, the host and the comment. */
  function RuleAttrs(f: RuleForm): Attrs
  {
    [("action", ToLower(f.action)), ("server", f.server), ("dst-host", f.dstHost), ("comment", f.comment)]
  }

  /** A save with no id adds a rule; one with an id sets that rule, naming it first. */
  function RuleCommand(f: RuleForm): Command
  {
    if f.id == "" then Add(WalledGarden, RuleAttrs(f)) else Set(WalledGarden, [(".id", f.id)] + RuleAttrs(f))
  }

  /** The attributes a saved rule ends up with: exactly the four fields, with the action in lower case. */
  lemma SavedRuleFields(f: RuleForm)
    ensures var u := ToRecord(RuleAttrs(f));
      && u.Keys == {"action", "server", "dst-host", "comment"}
      && u["action"] == ToLower(f.action) && u["server"] == f.server
      && u["dst-host"] == f.dstHost && u["comment"] == f.comment
    ensures var u := ToRecord([(".id", f.id)] + RuleAttrs(f));
      && u.Keys == {".id", "action", "server", "dst-host", "comment"}
      && u[".id"] == f.id && u["action"] == ToLower(f.action) && u["server"] == f.server
      && u["dst-host"] == f.dstHost && u["comment"] == f.comment
  {
    var a := RuleAttrs(f);
    var a3 := [("comment", f.comment)];
    var a2 := [("dst-host", f.dstHost)] + a3;
    var a1 := [("server", f.server)] + a2;
    assert a == [("action", ToLower(f.action))] + a1 && a[1..] == a1 && a1[1..] == a2 && a2[1..] == a3;
    assert ToRecord(a2) == map["dst-host" := f.dstHost, "comment" := f.comment];
    assert ToRecord(a) == map["action" := ToLower(f.action), "server" := f.server, "dst-host" := f.dstHost, "comment" := f.comment];
    var b := [(".id", f.id)] + a;
    assert b[1..] == a;
  }

  /**
   * Save with `save_rule`: an empty host only warns; otherwise one `/add` or `/set`,
   * and back to the list when it goes through.
   */
  method SaveRule(router: Router, post: Form) returns (outcome: Outcome)
    requires router.Valid()
    modifies router
    ensures router.Valid()
    ensures var f := ReadRuleForm(post);
      router.nextId == old(router.nextId) + (if f.dstHost != "" && f.id == "" && |old(router.sent)| !in router.rejects then 1 else 0)
    ensures var f := ReadRuleForm(post);
      && (f.dstHost == "" ==>
            outcome == Outcome(Message(Warning, "Destination Host is required."), None) && unchanged(router))
      && (f.dstHost != "" ==> router.sent == old(router.sent) + [RuleCommand(f)])
      && (f.dstHost != "" && |old(router.sent)| in router.rejects ==>
            outcome == Outcome(Message(Error, "Error saving: " + router.rejects[|old(router.sent)|]), None)
            && router.tables == old(router.tables))
      && (f.dstHost != "" && |old(router.sent)| !in router.rejects ==>
            && outcome == Outcome(
                 Message(Success, if f.id == "" then "New Walled Garden rule added." else "Walled Garden rule updated."),
                 Some("walledgarden.php"))
            && router.Rows(WalledGarden) == Apply(old(router.Rows(WalledGarden)), RuleCommand(f), old(router.nextId))
            && forall m :: m != WalledGarden ==> router.Rows(m) == old(router.Rows(m)))
  {
    var f := ReadRuleForm(post);
    if f.dstHost == "" {
      return Outcome(Message(Warning, "Destination Host is required."), None);
    }
    var r := router.Execute(RuleCommand(f));
    if r.Err? {
      return Outcome(Message(Error, "Error saving: " + r.message), None);
    }
    var text := if f.id == "" then "New Walled Garden rule added." else "Walled Garden rule updated.";
    outcome := Outcome(Message(Success, text), Some("walledgarden.php"));
  }

  /** The row has the attribute with exactly that value. */
  predicate Carries(r: Record, k: string, v: string)
  {
    k in r && r[k] == v
  }

  /** An added rule is the last row and carries the submitted host and the lower-cased action. */
  lemma AddedRule(rows: seq<Record>, f: RuleForm, n: nat)
    requires f.id == ""
    ensures var after := Apply(rows, RuleCommand(f), n);
      && |after| == |rows| + 1 && after[..|rows|] == rows
      && Carries(after[|rows|], "dst-host", f.dstHost) && Carries(after[|rows|], "action", ToLower(f.action))
      && Carries(after[|rows|], ".id", IdOf(n))
  {
    SavedRuleFields(f);
  }

  /** An updated rule takes all four submitted fields; other rules stay as they were. */
  lemma UpdatedRule(rows: seq<Record>, f: RuleForm, n: nat)
    requires f.id != ""
    ensures var after := Apply(rows, RuleCommand(f), n);
      && |after| == |rows|
      && forall i :: 0 <= i < |rows| ==>
           if Get(rows[i], ".id", "") == f.id then
             && Carries(after[i], "dst-host", f.dstHost) && Carries(after[i], "action", ToLower(f.action))
             && Carries(after[i], "server", f.server) && Carries(after[i], "comment", f.comment)
           else after[i] == rows[i]
  {
    SavedRuleFields(f);
  }

  // ---------------------------------------------------------------- edit lookup

  /** The first rule whose id is exactly the requested one. */
  function FirstWithId(entries: seq<Record>, id: string): (r: Option<Record>)
    ensures r.Some? ==> r.value in entries && Get(r.value, ".id", "") == id
    ensures r.Some? ==>
      exists i :: (0 <= i < |entries| && entries[i] == r.value && forall j :: 0 <= j < i ==> Get(entries[j], ".id", "") != id)
    ensures r.None? <==> forall j :: 0 <= j < |entries| ==> Get(entries[j], ".id", "") != id
  {
    if entries == [] then None
    else if Get(entries[0], ".id", "") == id then Some(entries[0])
    else
      var r := FirstWithId(entries[1..], id);
      assert forall j :: 1 <= j < |entries| ==> entries[j] == entries[1..][j - 1];
      if r.Some? then
        assert exists i :: (1 <= i < |entries| && entries[i] == r.value && forall j :: 0 <= j < i ==> Get(entries[j], ".id", "") != id);
        r
      else r
  }

  /** The `foreach ... break` that picks the rule to edit. */
  method FindById(entries: seq<Record>, id: string) returns (editData: Option<Record>)
    ensures editData == FirstWithId(entries, id)
  {
    editData := None;
    var i := 0;
    while i < |entries|
      invariant 0 <= i <= |entries|
      invariant FirstWithId(entries, id) == FirstWithId(entries[i..], id)
    {
      if Get(entries[i], ".id", "") == id {
        editData := Some(entries[i]);
        break;
      }
      assert entries[i..][1..] == entries[i + 1..];
      i := i + 1;
    }
  }

  /**
   * `?edit_id=`: the list is fetched again when it is empty or the request is a POST,
   * then the first rule with the id is the one edited.
   */
  method EditLoad(router: Router, isPost: bool, entries: seq<Record>, editId: string)
    returns (shownEntries: seq<Record>, editData: Option<Record>)
    requires router.Valid()
    modifies router
    ensures router.Valid()
    ensures router.tables == old(router.tables) && router.nextId == old(router.nextId)
    ensures entries != [] && !isPost ==> unchanged(router) && shownEntries == entries
    ensures entries == [] || isPost ==>
      && router.sent == old(router.sent) + [Print(WalledGarden, None)]
      && shownEntries == if |old(router.sent)| in router.rejects then [] else old(router.Rows(WalledGarden))
    ensures editData == FirstWithId(shownEntries, editId)
  {
    shownEntries := entries;
    if entries == [] || isPost {
      shownEntries := FetchWalledGarden(router);
    }
    editData := FindById(shownEntries, editId);
  }

  // ---------------------------------------------------------------- the table

  /** The row style: `allow-row` when the action, lower-cased, is "allow", `deny-row` otherwise. */
  function RowClass(entry: Record): string
  {
    if ToLower(Get(entry, "action", "")) == "allow" then "allow-row" else "deny-row"
  }

  /** The style ignores case: "Allow" and "ALLOW" are shown as allowed, anything else as denied. */
  lemma RowClassCases(entry: Record)
    ensures Get(entry, "action", "") in {"allow", "Allow", "ALLOW"} ==> RowClass(entry) == "allow-row"
    ensures Get(entry, "action", "") in {"deny", ""} ==> RowClass(entry) == "deny-row"
    ensures var a := Get(entry, "action", "");
      RowClass(entry) == "allow-row" <==> |a| == 5 && forall i :: 0 <= i < 5 ==> LowerChar(a[i]) == "allow"[i]
  {
    var a := Get(entry, "action", "");
    if |a| == 5 && forall i :: 0 <= i < 5 ==> LowerChar(a[i]) == "allow"[i] {
      assert ToLower(a) == "allow";
    }
    if a == "Allow" {
      assert ToLower(a) == "allow";
    } else if a == "ALLOW" {
      assert ToLower(a) == "allow";
    } else if a == "allow" {
      assert ToLower(a) == "allow";
    }
  }
}
