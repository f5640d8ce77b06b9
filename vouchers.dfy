/**
 * voucher.php: the hotspot users grouped into batches by their comment, and the
 * requests that create, export, edit and delete them.
 */
module Vouchers {
  import opened Php
  import opened PhpInt
  import opened RouterOs
  import opened Console

  // ---------------------------------------------------------------- the user list and its batches

  /** fetchAllHotspotUsers(): every hotspot user, or none when the request throws. */
  method FetchAllUsers(router: Router) returns (users: seq<Record>)
    requires router.Valid()
    modifies router
    ensures router.Valid()
    ensures router.sent == old(router.sent) + [Print(Users, None)]
    ensures router.tables == old(router.tables) && router.nextId == old(router.nextId)
    ensures users == if |old(router.sent)| in router.rejects then [] else old(router.Rows(Users))
  {
    var r := router.Execute(Print(Users, None));
    users := if r.Ok? then r.value else [];
  }

  /** The batch a user belongs to: its trimmed comment ("" for none). */
  function BatchOf(u: Record): string
  {
    Trim(Get(u, "comment", ""))
  }

  /** The batch tags of a user list: the trimmed comments that are not empty. */
  function Tags(users: seq<Record>): (t: set<string>)
    ensures forall b :: b in t <==> b != "" && exists i :: 0 <= i < |users| && BatchOf(users[i]) == b
  {
    if users == [] then {}
    else
      var init := users[..|users| - 1];
      assert forall i :: 0 <= i < |init| ==> init[i] == users[i];
      Tags(init) + (if BatchOf(users[|users| - 1]) != "" then {BatchOf(users[|users| - 1])} else {})
  }

  /**
   * The `$batches` list the page shows: every tag once, in ksort() order. The map it is
   * built in has each tag as both key and value, so the sorted keys are the list.
   */
  method CollectBatches(users: seq<Record>) returns (batches: seq<string>)
    ensures StrictlySorted(batches)
    ensures forall b :: b in batches <==> b in Tags(users)
    ensures |batches| == |Tags(users)|
  {
    var m: map<string, string> := map[];
    for i := 0 to |users|
      invariant m.Keys == Tags(users[..i])
    {
      assert users[..i + 1][..i] == users[..i];
      var c := BatchOf(users[i]);
      if c != "" {
        m := m[c := c];
      }
    }
    assert users[..|users|] == users;
    batches := SortedKeys(m.Keys);
  }

  // ---------------------------------------------------------------- viewing: batch filter and search

  /** The two ways the list is narrowed: by batch tag (`?batch=`) and by username substring (`?q=`). */
  datatype Criterion = InBatch(tag: string) | NameContains(query: string)

  predicate Holds(c: Criterion, u: Record)
  {
    match c
    case InBatch(tag) => BatchOf(u) == tag
    case NameContains(q) => q == "" || StrIPos(Get(u, "name", ""), q).Some?
  }

  /** The users that meet the criterion, in their original order. */
  function Filter(users: seq<Record>, c: Criterion): (s: seq<Record>)
    ensures |s| <= |users|
    ensures forall u :: u in s <==> u in users && Holds(c, u)
  {
    if users == [] then []
    else
      var last := users[|users| - 1];
      assert users == users[..|users| - 1] + [last];
      Filter(users[..|users| - 1], c) + (if Holds(c, last) then [last] else [])
  }

  /** Filtering keeps the relative order: it works piece by piece. */
  lemma {:induction false} FilterConcat(a: seq<Record>, b: seq<Record>, c: Criterion)
    ensures Filter(a + b, c) == Filter(a, c) + Filter(b, c)
  {
    if b == [] {
      assert a + b == a;
    } else {
      var b' := b[..|b| - 1];
      assert (a + b)[..|a + b| - 1] == a + b';
      assert (a + b)[|a + b| - 1] == b[|b| - 1];
      FilterConcat(a, b', c);
    }
  }

  /** A criterion every user meets keeps the whole list. */
  lemma {:induction false} FilterAll(users: seq<Record>, c: Criterion)
    requires forall i :: 0 <= i < |users| ==> Holds(c, users[i])
    ensures Filter(users, c) == users
  {
    if users != [] {
      var init := users[..|users| - 1];
      FilterAll(init, c);
      assert users == init + [users[|users| - 1]];
    }
  }

  /** A criterion no user meets keeps nothing. */
  lemma {:induction false} FilterNone(users: seq<Record>, c: Criterion)
    requires forall i :: 0 <= i < |users| ==> !Holds(c, users[i])
    ensures Filter(users, c) == []
  {
    if users != [] {
      FilterNone(users[..|users| - 1], c);
    }
  }

  /** An empty search shows every user. */
  lemma EmptySearchKeepsAll(users: seq<Record>)
    ensures Filter(users, NameContains("")) == users
  {
    FilterAll(users, NameContains(""));
  }

  /** The rows shown for `?batch=`: every user when it is empty, otherwise those whose trimmed comment equals it. */
  method FilterByBatch(allUsers: seq<Record>, filterBatch: string) returns (display: seq<Record>)
    ensures display == if filterBatch == "" then allUsers else Filter(allUsers, InBatch(filterBatch))
  {
    if filterBatch == "" {
      return allUsers;
    }
    display := [];
    for i := 0 to |allUsers|
      invariant display == Filter(allUsers[..i], InBatch(filterBatch))
    {
      assert allUsers[..i + 1][..i] == allUsers[..i];
      if BatchOf(allUsers[i]) == filterBatch {
        display := display + [allUsers[i]];
      }
    }
    assert allUsers[..|allUsers|] == allUsers;
  }

  /** The table loop: skips users whose name does not contain the trimmed query (case-insensitively) and numbers the rest. */
  method SearchUsers(display: seq<Record>, query: string) returns (shown: seq<Record>, count: nat)
    ensures shown == Filter(display, NameContains(Trim(query)))
    ensures count == |shown|
  {
    var q := Trim(query);
    shown, count := [], 0;
    for i := 0 to |display|
      invariant shown == Filter(display[..i], NameContains(q))
      invariant count == |shown|
    {
      assert display[..i + 1][..i] == display[..i];
      var u := display[i];
      if q != "" && StrIPos(Get(u, "name", ""), q).None? {
        continue;
      }
      count := count + 1;
      shown := shown + [u];
    }
    assert display[..|display|] == display;
  }

  // ---------------------------------------------------------------- export of a batch

  function VoucherOf(u: Record): Voucher
  {
    Voucher(Get(u, "name", ""), Get(u, "password", ""), Get(u, "profile", ""))
  }

  function ToVouchers(users: seq<Record>): (vs: seq<Voucher>)
    ensures |vs| == |users|
  {
    seq(|users|, i requires 0 <= i < |users| => VoucherOf(users[i]))
  }

  /** The vouchers of every user in the batch, in list order. */
  method SelectForExport(allUsers: seq<Record>, batch: string) returns (vouchers: seq<Voucher>)
    ensures vouchers == ToVouchers(Filter(allUsers, InBatch(batch)))
  {
    vouchers := [];
    for i := 0 to |allUsers|
      invariant vouchers == ToVouchers(Filter(allUsers[..i], InBatch(batch)))
    {
      assert allUsers[..i + 1][..i] == allUsers[..i];
      var u := allUsers[i];
      if BatchOf(u) == batch {
        ghost var before := Filter(allUsers[..i], InBatch(batch));
        assert ToVouchers(before + [u]) == ToVouchers(before) + [VoucherOf(u)];
        vouchers := vouchers + [VoucherOf(u)];
      }
    }
    assert allUsers[..|allUsers|] == allUsers;
  }

  /** The vouchers an export stages are exactly those of the users in the batch, one each. */
  lemma ExportedVouchers(allUsers: seq<Record>, batch: string)
    ensures var vs := ToVouchers(Filter(allUsers, InBatch(batch)));
      && (forall v :: v in vs ==> exists u :: u in allUsers && BatchOf(u) == batch && v == VoucherOf(u))
      && (forall u :: u in allUsers && BatchOf(u) == batch ==> VoucherOf(u) in vs)
  {
    var s := Filter(allUsers, InBatch(batch));
    var vs := ToVouchers(s);
    forall v | v in vs ensures exists u :: u in allUsers && BatchOf(u) == batch && v == VoucherOf(u) {
      var i :| 0 <= i < |vs| && vs[i] == v;
      assert s[i] in s;
    }
    forall u | u in allUsers && BatchOf(u) == batch ensures VoucherOf(u) in vs {
      var i :| 0 <= i < |s| && s[i] == u;
      assert vs[i] == VoucherOf(u);
    }
  }

  /** The `export_batch` request: stage the batch's vouchers for export_pdf.php, or warn. */
  method ExportBatch(session: Session, allUsers: seq<Record>, post: Form) returns (outcome: Outcome)
    modifies session
    ensures var batch := Trim(Get(post, "batch_name_to_export", ""));
      var vs := ToVouchers(Filter(allUsers, InBatch(batch)));
      && (batch == "" ==>
            outcome == Outcome(Message(Warning, "Batch name not specified for export."), None) && unchanged(session))
      && (batch != "" && vs == [] ==>
            outcome == Outcome(Message(Warning, "No vouchers found in batch '" + batch + "' to export."), None)
            && unchanged(session))
      && (batch != "" && vs != [] ==>
            outcome == Outcome(Message(Success, ""), Some("export_pdf.php"))
            && session.vouchersToPrint == Some(vs) && session.vouchersBatchName == Some(batch))
  {
    var batch := Trim(Get(post, "batch_name_to_export", ""));
    if batch == "" {
      return Outcome(Message(Warning, "Batch name not specified for export."), None);
    }
    var vouchers := SelectForExport(allUsers, batch);
    if vouchers == [] {
      return Outcome(Message(Warning, "No vouchers found in batch '" + batch + "' to export."), None);
    }
    session.Stage(vouchers, batch);
    outcome := Outcome(Message(Success, ""), Some("export_pdf.php"));
  }

  // ---------------------------------------------------------------- batch delete

  /** The ids the delete request collects: array_column() of the users whose stored comment is exactly the name. */
  function BatchIds(rows: seq<Record>, name: string): seq<string>
  {
    Column(Select(rows, Some(("comment", name))), ".id")
  }

  /** The joined ids of a batch split back into those ids, one per user found. */
  lemma BatchIdsJoin(rows: seq<Record>, name: string)
    requires WellFormed(rows)
    requires Select(rows, Some(("comment", name))) != []
    ensures var ids := BatchIds(rows, name);
      Explode(',', Implode(',', ids)) == ids && |ids| == |Select(rows, Some(("comment", name)))|
  {
    var found := Select(rows, Some(("comment", name)));
    var ids := Column(found, ".id");
    assert forall r :: r in found ==> r in rows && HasId(r);
    assert forall i :: 0 <= i < |ids| ==> found[i] in found && ids[i] == found[i][".id"];
    ExplodeImplode(',', ids);
  }

  /** Every user whose comment is exactly the batch name has its id among the batch ids. */
  lemma BatchMembersListed(rows: seq<Record>, name: string)
    requires WellFormed(rows)
    ensures forall r :: r in rows && "comment" in r && r["comment"] == name ==> Get(r, ".id", "") in BatchIds(rows, name)
  {
    var found := Select(rows, Some(("comment", name)));
    var ids := Column(found, ".id");
    assert forall r :: r in found ==> ".id" in r;
    forall r | r in rows && "comment" in r && r["comment"] == name ensures Get(r, ".id", "") in ids {
      var i :| 0 <= i < |found| && found[i] == r;
      assert ids[i] == Get(r, ".id", "");
    }
  }

  /**
   * Removing the joined ids takes out every user of the batch and only users sharing
   * an id with one of them; one id is counted per user found.
   */
  lemma BatchRemoval(rows: seq<Record>, name: string)
    requires WellFormed(rows)
    requires Select(rows, Some(("comment", name))) != []
    ensures var ids := BatchIds(rows, name);
      && Explode(',', Implode(',', ids)) == ids
      && |ids| == |Select(rows, Some(("comment", name)))|
      && (forall r :: r in RemoveIds(rows, ids) ==> r in rows && !("comment" in r && r["comment"] == name))
      && (forall r :: r in rows && Get(r, ".id", "") !in ids ==> r in RemoveIds(rows, ids))
  {
    BatchIdsJoin(rows, name);
    BatchMembersListed(rows, name);
  }

  /**
   * Batches are listed by trimmed comment but the delete request matches the stored
   * comment exactly, so a padded comment is listed under a name that deletes nothing.
   */
  lemma DeleteMissesPaddedComment()
    ensures var u := map["comment" := " Promo", ".id" := "*1"];
      BatchOf(u) == "Promo" && Select([u], Some(("comment", "Promo"))) == []
  {
    var s := " Promo";
    assert s[1..] == "Promo";
    assert TrimStart(s) == TrimStart("Promo") == "Promo";
    assert "Promo"[..5] == "Promo";
  }

  /**
   * When every stored comment is already trimmed, nothing is listed under a batch after
   * its delete: the filter of the remaining users by that batch is empty.
   */
  lemma DeletedBatchIsGone(rows: seq<Record>, name: string)
    requires WellFormed(rows)
    requires name != ""
    requires forall r :: r in rows && "comment" in r ==> Trim(r["comment"]) == r["comment"]
    ensures Filter(RemoveIds(rows, BatchIds(rows, name)), InBatch(name)) == []
  {
    var ids := BatchIds(rows, name);
    var after := RemoveIds(rows, ids);
    BatchMembersListed(rows, name);
    assert Trim("") == "";
    forall i | 0 <= i < |after| ensures !Holds(InBatch(name), after[i]) {
      assert after[i] in after;
    }
    FilterNone(after, InBatch(name));
  }

  /** The `delete_batch` request: find the batch on the device, remove all of it at once, go back to the list. */
  method DeleteBatch(router: Router, post: Form) returns (outcome: Outcome)
    requires router.Valid()
    modifies router
    ensures router.Valid()
    ensures router.nextId == old(router.nextId)
    ensures Trim(Get(post, "batch_name_to_delete", "")) == "" ==>
      outcome == Outcome(Message(Warning, "Batch name not specified for deletion."), None) && unchanged(router)
    ensures var name := Trim(Get(post, "batch_name_to_delete", ""));
      var at := |old(router.sent)|;
      name != "" && at in router.rejects ==>
        && outcome == Outcome(Message(Error, "Error deleting batch: " + router.rejects[at]), None)
        && router.sent == old(router.sent) + [Print(Users, Some(("comment", name)))]
        && router.tables == old(router.tables)
    ensures var name := Trim(Get(post, "batch_name_to_delete", ""));
      var at := |old(router.sent)|;
      name != "" && at !in router.rejects && Select(old(router.Rows(Users)), Some(("comment", name))) == [] ==>
        && outcome == Outcome(Message(Warning, "No vouchers found in batch '" + name + "' to delete."), Some("voucher.php"))
        && router.sent == old(router.sent) + [Print(Users, Some(("comment", name)))]
        && router.tables == old(router.tables)
    ensures var name := Trim(Get(post, "batch_name_to_delete", ""));
      var at := |old(router.sent)|;
      var found := Select(old(router.Rows(Users)), Some(("comment", name)));
      var ids := Column(found, ".id");
      name != "" && at !in router.rejects && found != [] ==>
        && router.sent == old(router.sent) + [Print(Users, Some(("comment", name))), Remove(Users, Implode(',', ids))]
        && |ids| == |found|
    ensures var name := Trim(Get(post, "batch_name_to_delete", ""));
      var at := |old(router.sent)|;
      var found := Select(old(router.Rows(Users)), Some(("comment", name)));
      name != "" && at !in router.rejects && found != [] && at + 1 in router.rejects ==>
        && outcome == Outcome(Message(Error, "Error deleting batch: " + router.rejects[at + 1]), None)
        && router.tables == old(router.tables)
    ensures var name := Trim(Get(post, "batch_name_to_delete", ""));
      var at := |old(router.sent)|;
      var found := Select(old(router.Rows(Users)), Some(("comment", name)));
      var ids := Column(found, ".id");
      name != "" && at !in router.rejects && found != [] && at + 1 !in router.rejects ==>
        && outcome == Outcome(Message(Success, IntToString(|ids|) + " vouchers from batch '" + name + "' deleted successfully."), Some("voucher.php"))
        && router.Rows(Users) == RemoveIds(old(router.Rows(Users)), ids)
        && forall m :: m != Users ==> router.Rows(m) == old(router.Rows(m))
  {
    var name := Trim(Get(post, "batch_name_to_delete", ""));
    if name == "" {
      return Outcome(Message(Warning, "Batch name not specified for deletion."), None);
    }
    ghost var rows := router.Rows(Users);
    assert WellFormed(rows);
    ghost var tables := router.tables;
    var r := router.Execute(Print(Users, Some(("comment", name))));
    if r.Err? {
      return Outcome(Message(Error, "Error deleting batch: " + r.message), None);
    }
    assert router.tables == tables;
    var found := r.value;
    assert found == Select(rows, Some(("comment", name)));
    if found == [] {
      return Outcome(Message(Warning, "No vouchers found in batch '" + name + "' to delete."), Some("voucher.php"));
    }
    var ids := Column(found, ".id");
    BatchIdsJoin(rows, name);
    outcome := RemoveBatch(router, name, ids);
  }

  /** The second request of the batch delete: one `/remove` of the joined ids of the users found. */
  method RemoveBatch(router: Router, name: string, ids: seq<string>) returns (outcome: Outcome)
    requires router.Valid()
    requires Explode(',', Implode(',', ids)) == ids
    modifies router
    ensures router.Valid()
    ensures router.nextId == old(router.nextId)
    ensures router.sent == old(router.sent) + [Remove(Users, Implode(',', ids))]
    ensures |old(router.sent)| in router.rejects ==>
      outcome == Outcome(Message(Error, "Error deleting batch: " + router.rejects[|old(router.sent)|]), None)
      && router.tables == old(router.tables)
    ensures |old(router.sent)| !in router.rejects ==>
      && outcome == Outcome(Message(Success, IntToString(|ids|) + " vouchers from batch '" + name + "' deleted successfully."), Some("voucher.php"))
      && router.Rows(Users) == RemoveIds(old(router.Rows(Users)), ids)
      && forall m :: m != Users ==> router.Rows(m) == old(router.Rows(m))
  {
    var r := router.Execute(Remove(Users, Implode(',', ids)));
    if r.Err? {
      return Outcome(Message(Error, "Error deleting batch: " + r.message), None);
    }
    outcome := Outcome(Message(Success, IntToString(|ids|) + " vouchers from batch '" + name + "' deleted successfully."), Some("voucher.php"));
  }

  // ---------------------------------------------------------------- edit

  /** The words of the `/set` an edit sends: always the id, then each of name, password and profile whose trimmed value is not empty. */
  function EditAttrs(post: Form): (a: Attrs)
    ensures DistinctKeys(a)
    ensures Lookup(a, ".id") == Some(Get(post, "edit_id", ""))
    ensures var n := Trim(Get(post, "edit_username", "")); Lookup(a, "name") == if n == "" then None else Some(n)
    ensures var p := Trim(Get(post, "edit_password", "")); Lookup(a, "password") == if p == "" then None else Some(p)
    ensures var p := Trim(Get(post, "edit_profile", "")); Lookup(a, "profile") == if p == "" then None else Some(p)
    ensures forall k :: k != ".id" && k != "name" && k != "password" && k != "profile" ==> Lookup(a, k).None?
  {
    var name := Trim(Get(post, "edit_username", ""));
    var pass := Trim(Get(post, "edit_password", ""));
    var profile := Trim(Get(post, "edit_profile", ""));
    var a0 := Equal([], ".id", Get(post, "edit_id", ""));
    var a1 := if name != "" then Equal(a0, "name", name) else a0;
    var a2 := if pass != "" then Equal(a1, "password", pass) else a1;
    if profile != "" then Equal(a2, "profile", profile) else a2
  }

  /**
   * The effect of an edit on the users: the user with the id takes the non-empty
   * fields, every other attribute of it and every other user stay as they were.
   */
  lemma EditIsSparse(rows: seq<Record>, post: Form)
    ensures var id := Get(post, "edit_id", "");
      var after := UpdateRows(rows, id, ToRecord(EditAttrs(post)));
      && |after| == |rows|
      && (forall i :: 0 <= i < |rows| && Get(rows[i], ".id", "") != id ==> after[i] == rows[i])
      && (forall i, k :: 0 <= i < |rows| && k in rows[i] && Lookup(EditAttrs(post), k).None? ==>
            k in after[i] && after[i][k] == rows[i][k])
      && (forall i, k :: 0 <= i < |rows| && Get(rows[i], ".id", "") == id && Lookup(EditAttrs(post), k).Some? ==>
            k in after[i] && Some(after[i][k]) == Lookup(EditAttrs(post), k))
  {
  }

  /** The `edit_submit` request. */
  method EditSubmit(router: Router, post: Form) returns (outcome: Outcome)
    requires router.Valid()
    modifies router
    ensures router.Valid()
    ensures router.nextId == old(router.nextId)
    ensures router.sent == old(router.sent) + [Set(Users, EditAttrs(post))]
    ensures |old(router.sent)| in router.rejects ==>
      outcome == Outcome(Message(Error, "Error updating voucher: " + router.rejects[|old(router.sent)|]), None)
      && router.tables == old(router.tables)
    ensures |old(router.sent)| !in router.rejects ==>
      && outcome == Outcome(Message(Success, "Voucher updated successfully."), Some("voucher.php"))
      && router.Rows(Users) == UpdateRows(old(router.Rows(Users)), Get(post, "edit_id", ""), ToRecord(EditAttrs(post)))
      && forall m :: m != Users ==> router.Rows(m) == old(router.Rows(m))
  {
    var r := router.Execute(Set(Users, EditAttrs(post)));
    if r.Err? {
      return Outcome(Message(Error, "Error updating voucher: " + r.message), None);
    }
    outcome := Outcome(Message(Success, "Voucher updated successfully."), Some("voucher.php"));
  }

  // ---------------------------------------------------------------- batch create

  const MaxVouchers := 500
  const ReservedActions := ["edit_submit", "delete_batch", "export_batch"]

  predicate HasAction(post: Form, action: string)
  {
    "action" in post && post["action"] == action
  }

  /** The guard of the create handler: a POST whose action is missing or none of the three other handlers'. */
  predicate RunsCreate(isPost: bool, post: Form)
  {
    isPost && ("action" !in post || post["action"] !in ReservedActions)
  }

  /** Of the four POST handlers at most one runs, and create never runs for a reserved action. */
  lemma HandlersExclusive(isPost: bool, post: Form)
    ensures RunsCreate(isPost, post) ==>
      !HasAction(post, "export_batch") && !HasAction(post, "delete_batch") && !HasAction(post, "edit_submit")
    ensures isPost && !RunsCreate(isPost, post) ==>
      (HasAction(post, "export_batch") || HasAction(post, "delete_batch") || HasAction(post, "edit_submit"))
  {
  }

  /** `intval($_POST['num_vouchers'] ?? 1)` held to the range [1, 500]. */
  function VoucherCount(post: Form): (n: int)
    ensures 1 <= n <= MaxVouchers
  {
    var v := if "num_vouchers" in post then IntVal(post["num_vouchers"]) else 1;
    if v < 1 then 1 else if v > MaxVouchers then MaxVouchers else v
  }

  /** A count written in decimal is read back and then held to [1, 500]. */
  lemma VoucherCountOfNumber(post: Form, k: int)
    requires PHP_INT_MIN <= k <= PHP_INT_MAX
    requires "num_vouchers" in post && post["num_vouchers"] == IntToString(k)
    ensures k < 1 ==> VoucherCount(post) == 1
    ensures 1 <= k <= MaxVouchers ==> VoucherCount(post) == k
    ensures k > MaxVouchers ==> VoucherCount(post) == MaxVouchers
  {
    IntValIntToString(k);
  }

  /** An exponent count, which the number field accepts, is read as its value: "1e2" makes 100 vouchers. */
  lemma VoucherCountExponent()
    ensures VoucherCount(map["num_vouchers" := "1e2"]) == 100
  {
    IntValExponent();
  }

  /** A missing or non-numeric count makes one voucher. */
  lemma VoucherCountNonNumeric(post: Form)
    requires "num_vouchers" in post ==>
      var t := SkipSpaces(post["num_vouchers"]);
      t == [] || (!IsDigit(t[0]) && t[0] != '-' && t[0] != '+' && t[0] != '.')
    ensures VoucherCount(post) == 1
  {
    if "num_vouchers" in post {
      IntValNonNumeric(post["num_vouchers"]);
    }
  }

  /** The create form after trimming and clamping. */
  datatype BatchForm = BatchForm(
    name: string, count: int, profile: string,
    userPrefix: string, userSuffix: string, passPrefix: string, passSuffix: string)

  function ReadBatchForm(post: Form): (f: BatchForm)
    ensures 1 <= f.count <= MaxVouchers
    ensures Trim(f.name) == f.name && Trim(f.profile) == f.profile
    ensures Trim(f.userPrefix) == f.userPrefix && Trim(f.userSuffix) == f.userSuffix
    ensures Trim(f.passPrefix) == f.passPrefix && Trim(f.passSuffix) == f.passSuffix
  {
    TrimIdempotent(Get(post, "batch_name", ""));
    TrimIdempotent(Get(post, "profile", "default"));
    TrimIdempotent(Get(post, "user_prefix", ""));
    TrimIdempotent(Get(post, "user_suffix", ""));
    TrimIdempotent(Get(post, "pass_prefix", ""));
    TrimIdempotent(Get(post, "pass_suffix", ""));
    BatchForm(
      Trim(Get(post, "batch_name", "")), VoucherCount(post), Trim(Get(post, "profile", "default")),
      Trim(Get(post, "user_prefix", "")), Trim(Get(post, "user_suffix", "")),
      Trim(Get(post, "pass_prefix", "")), Trim(Get(post, "pass_suffix", "")))
  }

  /** A form without a count or a profile makes one voucher with the 'default' profile. */
  lemma BatchFormDefaults(post: Form)
    ensures "num_vouchers" !in post ==> ReadBatchForm(post).count == 1
    ensures "profile" !in post ==> ReadBatchForm(post).profile == "default"
  {
    var d := "default";
    assert TrimStart(d) == d;
    assert d[..6] == "defaul";
    assert TrimEnd(d) == d;
  }

  /** The two md5() digests one iteration draws, for the username part and the password part. */
  datatype Draw = Draw(forUser: string, forPass: string)

  predicate IsLowerHex(c: char)
  {
    '0' <= c <= '9' || 'a' <= c <= 'f'
  }

  /** What md5() returns: 32 lower-case hexadecimal digits. */
  predicate IsMd5Hex(d: string)
  {
    |d| == 32 && forall i :: 0 <= i < |d| ==> IsLowerHex(d[i])
  }

  /** strtoupper(substr(md5(...), 0, 5)) */
  function UserToken(d: Draw): string
  {
    ToUpper(Head(d.forUser, 5))
  }

  /** substr(md5(...), 0, 6) */
  function PassToken(d: Draw): string
  {
    Head(d.forPass, 6)
  }

  /** From md5 digests, the username part is 5 upper-case hex digits and the password part 6 lower-case ones. */
  lemma TokenShape(d: Draw)
    requires IsMd5Hex(d.forUser) && IsMd5Hex(d.forPass)
    ensures var u := UserToken(d);
      |u| == 5 && forall i :: 0 <= i < 5 ==> ('0' <= u[i] <= '9' || 'A' <= u[i] <= 'F') && u[i] == UpperChar(d.forUser[i])
    ensures var p := PassToken(d);
      |p| == 6 && forall i :: 0 <= i < 6 ==> IsLowerHex(p[i]) && p[i] == d.forPass[i]
  {
  }

  /** The voucher iteration i makes. */
  function NewVoucher(f: BatchForm, d: Draw): Voucher
  {
    Voucher(f.userPrefix + UserToken(d) + f.userSuffix, f.passPrefix + PassToken(d) + f.passSuffix, f.profile)
  }

  /** The words of the `/add` for one voucher: name, password, profile and the batch name as comment. */
  function AddAttrs(f: BatchForm, v: Voucher): Attrs
  {
    [("name", v.username), ("password", v.password), ("profile", v.profile), ("comment", f.name)]
  }

  /** The first n vouchers of the batch, in the order they are made. */
  function Planned(f: BatchForm, draws: nat -> Draw, n: nat): (vs: seq<Voucher>)
    ensures |vs| == n
  {
    seq(n, i requires 0 <= i < n => NewVoucher(f, draws(i)))
  }

  function Adds(f: BatchForm, vs: seq<Voucher>): seq<Command>
  {
    seq(|vs|, i requires 0 <= i < |vs| => Add(Users, AddAttrs(f, vs[i])))
  }

  /** The row the device keeps for an added voucher. */
  function AddedRow(f: BatchForm, v: Voucher, id: nat): Record
  {
    ToRecord(AddAttrs(f, v))[".id" := IdOf(id)]
  }

  function Stored(f: BatchForm, vs: seq<Voucher>, id0: nat): seq<Record>
  {
    seq(|vs|, i requires 0 <= i < |vs| => AddedRow(f, vs[i], id0 + i))
  }

  /** How many of n requests from position start go through before the first one that throws (n if none does). */
  function FirstRejected(rejects: map<nat, string>, start: nat, n: nat): (k: nat)
    ensures k <= n
    ensures forall j :: start <= j < start + k ==> j !in rejects
    ensures k < n ==> start + k in rejects
    decreases n
  {
    if n == 0 || start in rejects then 0 else 1 + FirstRejected(rejects, start + 1, n - 1)
  }

  /** Every created voucher carries the prefixes, the drawn tokens of its own iteration and the suffixes. */
  lemma CreatedVouchersShape(f: BatchForm, draws: nat -> Draw, k: nat)
    requires forall i: nat :: IsMd5Hex(draws(i).forUser) && IsMd5Hex(draws(i).forPass)
    ensures var vs := Planned(f, draws, k);
      forall i :: 0 <= i < k ==>
        && vs[i].username == f.userPrefix + UserToken(draws(i)) + f.userSuffix && |UserToken(draws(i))| == 5
        && vs[i].password == f.passPrefix + PassToken(draws(i)) + f.passSuffix && |PassToken(draws(i))| == 6
        && vs[i].profile == f.profile
  {
    forall i | 0 <= i < k {
      TokenShape(draws(i));
    }
  }

  /** The rows a batch adds carry the batch name as their comment, so the batch shows under that tag. */
  lemma StoredInBatch(f: BatchForm, vs: seq<Voucher>, id0: nat)
    requires f.name != "" && Trim(f.name) == f.name
    ensures forall i :: 0 <= i < |vs| ==> BatchOf(Stored(f, vs, id0)[i]) == f.name
    ensures forall i :: 0 <= i < |vs| ==> VoucherOf(Stored(f, vs, id0)[i]) == vs[i]
  {
    forall i | 0 <= i < |vs| ensures BatchOf(Stored(f, vs, id0)[i]) == f.name && VoucherOf(Stored(f, vs, id0)[i]) == vs[i] {
      var v := vs[i];
      var a := AddAttrs(f, v);
      var a3 := [("comment", f.name)];
      var a2 := [("profile", v.profile)] + a3;
      var a1 := [("password", v.password)] + a2;
      assert a == [("name", v.username)] + a1 && a[1..] == a1 && a1[1..] == a2 && a2[1..] == a3;
      assert Lookup(a2, "comment") == Some(f.name);
      assert Lookup(a, "comment") == Lookup(a1, "comment") == Some(f.name);
      assert Lookup(a, "password") == Some(v.password);
      assert Lookup(a, "profile") == Lookup(a1, "profile") == Some(v.profile);
    }
  }

  /** A batch created from the form lists under the name the form carries, which needs no trimming of its own. */
  lemma StoredInBatchOfForm(post: Form, vs: seq<Voucher>, id0: nat)
    requires ReadBatchForm(post).name != ""
    ensures var f := ReadBatchForm(post);
      && (forall i :: 0 <= i < |vs| ==> BatchOf(Stored(f, vs, id0)[i]) == f.name)
      && (forall i :: 0 <= i < |vs| ==> VoucherOf(Stored(f, vs, id0)[i]) == vs[i])
  {
    StoredInBatch(ReadBatchForm(post), vs, id0);
  }

  lemma PlannedNext(f: BatchForm, draws: nat -> Draw, n: nat)
    ensures Planned(f, draws, n + 1) == Planned(f, draws, n) + [NewVoucher(f, draws(n))]
  {
  }

  lemma AddsNext(f: BatchForm, vs: seq<Voucher>, v: Voucher)
    ensures Adds(f, vs + [v]) == Adds(f, vs) + [Add(Users, AddAttrs(f, v))]
  {
  }

  lemma StoredNext(f: BatchForm, vs: seq<Voucher>, v: Voucher, id0: nat)
    ensures Stored(f, vs + [v], id0) == Stored(f, vs, id0) + [AddedRow(f, v, id0 + |vs|)]
  {
  }

  /** The create loop: one `/add` per voucher, in order, stopping at the first that throws. */
  method AddVouchers(router: Router, f: BatchForm, draws: nat -> Draw, n: nat)
    returns (created: seq<Voucher>, error: Option<string>)
    requires router.Valid()
    modifies router
    ensures router.Valid()
    ensures var k := FirstRejected(router.rejects, |old(router.sent)|, n);
      && created == Planned(f, draws, k)
      && router.sent == old(router.sent) + Adds(f, Planned(f, draws, if k < n then k + 1 else k))
      && router.Rows(Users) == old(router.Rows(Users)) + Stored(f, created, old(router.nextId))
      && (forall m :: m != Users ==> router.Rows(m) == old(router.Rows(m)))
      && router.nextId == old(router.nextId) + k
      && error == if k < n then Some(router.rejects[|old(router.sent)| + k]) else None
  {
    var start := |router.sent|;
    created := [];
    var i := 0;
    while i < n
      invariant 0 <= i <= n
      invariant router.Valid()
      invariant created == Planned(f, draws, i)
      invariant router.sent == old(router.sent) + Adds(f, created)
      invariant router.Rows(Users) == old(router.Rows(Users)) + Stored(f, created, old(router.nextId))
      invariant forall m :: m != Users ==> router.Rows(m) == old(router.Rows(m))
      invariant router.nextId == old(router.nextId) + i
      invariant forall j :: start <= j < start + i ==> j !in router.rejects
    {
      var v := NewVoucher(f, draws(i));
      PlannedNext(f, draws, i);
      AddsNext(f, created, v);
      StoredNext(f, created, v, old(router.nextId));
      var r := router.Execute(Add(Users, AddAttrs(f, v)));
      if r.Err? {
        assert FirstRejected(router.rejects, start, n) == i;
        return created, Some(r.message);
      }
      created := created + [v];
      i := i + 1;
    }
    assert FirstRejected(router.rejects, start, n) == n;
    error := None;
  }

  /**
   * The create request, on the form as ReadBatchForm() reads it: without a batch name
   * nothing is sent; otherwise the batch is added, and a complete batch is staged for
   * export while a failed one is reported.
   */
  method CreateBatch(router: Router, session: Session, f: BatchForm, draws: nat -> Draw)
    returns (created: seq<Voucher>, outcome: Outcome)
    requires router.Valid()
    requires 1 <= f.count <= MaxVouchers
    modifies router, session
    ensures router.Valid()
    ensures f.name == "" ==>
      && created == [] && outcome == Outcome(Message(Warning, "Batch name is required."), None)
      && unchanged(router) && unchanged(session)
    ensures f.name != "" ==>
      var start := |old(router.sent)|;
      var k := FirstRejected(router.rejects, start, f.count);
      && created == Planned(f, draws, k)
      && router.sent == old(router.sent) + Adds(f, Planned(f, draws, if k < f.count then k + 1 else k))
      && router.Rows(Users) == old(router.Rows(Users)) + Stored(f, created, old(router.nextId))
      && (forall m :: m != Users ==> router.Rows(m) == old(router.Rows(m)))
      && router.nextId == old(router.nextId) + k
      && (k == f.count ==>
            && session.vouchersToPrint == Some(created) && session.vouchersBatchName == Some(f.name)
            && outcome == Outcome(
                 Message(Success, "Created " + IntToString(f.count) + " vouchers in batch '" + f.name + "'."),
                 Some("export_pdf.php")))
      && (k < f.count ==>
            && unchanged(session)
            && outcome == Outcome(Message(Error, "Error creating vouchers: " + router.rejects[start + k]), None))
  {
    if f.name == "" {
      return [], Outcome(Message(Warning, "Batch name is required."), None);
    }
    var error;
    created, error := AddVouchers(router, f, draws, f.count);
    if error.Some? {
      return created, Outcome(Message(Error, "Error creating vouchers: " + error.value), None);
    }
    session.Stage(created, f.name);
    outcome := Outcome(
      Message(Success, "Created " + IntToString(f.count) + " vouchers in batch '" + f.name + "'."),
      Some("export_pdf.php"));
  }
}
