/** dashboard.php: how many profiles, vouchers and walled-garden rules the device holds. */
module Dashboard {
  import opened Php
  import opened RouterOs
  import WalledGardenPage

  /** The `$metrics` array; every count starts at 0 and the error at null. */
  datatype Metrics = Metrics(
    totalProfiles: nat, totalVouchers: nat, walledGardenAllowed: nat, walledGardenDenied: nat,
    error: Option<string>)

  const InitialMetrics := Metrics(0, 0, 0, 0, None)

  /** How many rules have exactly the given action (compared case-sensitively, "" when absent). */
  function CountAction(entries: seq<Record>, action: string): (n: nat)
    ensures n <= |entries|
  {
    if entries == [] then 0
    else CountAction(entries[..|entries| - 1], action) + (if Get(entries[|entries| - 1], "action", "") == action then 1 else 0)
  }

  /** Counting works piece by piece. */
  lemma {:induction false} CountActionConcat(a: seq<Record>, b: seq<Record>, action: string)
    ensures CountAction(a + b, action) == CountAction(a, action) + CountAction(b, action)
  {
    if b == [] {
      assert a + b == a;
    } else {
      var b' := b[..|b| - 1];
      assert (a + b)[..|a + b| - 1] == a + b';
      assert (a + b)[|a + b| - 1] == b[|b| - 1];
      CountActionConcat(a, b', action);
    }
  }

  /** No rule is counted twice: `$totalWalledRules`, allowed plus denied, never exceeds the rules. */
  lemma {:induction false} CountsBounded(entries: seq<Record>)
    ensures CountAction(entries, "allow") + CountAction(entries, "deny") <= |entries|
  {
    if entries != [] {
      CountsBounded(entries[..|entries| - 1]);
    }
  }

  /** A count is the size of the matching rules. */
  lemma {:induction false} CountActionNone(entries: seq<Record>, action: string)
    ensures CountAction(entries, action) == 0 <==> forall i :: 0 <= i < |entries| ==> Get(entries[i], "action", "") != action
  {
    if entries != [] {
      var init := entries[..|entries| - 1];
      CountActionNone(init, action);
      assert forall i :: 0 <= i < |init| ==> init[i] == entries[i];
    }
  }

  /** The `foreach` over the walled-garden rules. */
  method CountRules(entries: seq<Record>) returns (allowed: nat, denied: nat)
    ensures allowed == CountAction(entries, "allow")
    ensures denied == CountAction(entries, "deny")
  {
    allowed, denied := 0, 0;
    for i := 0 to |entries|
      invariant allowed == CountAction(entries[..i], "allow")
      invariant denied == CountAction(entries[..i], "deny")
    {
      assert entries[..i + 1][..i] == entries[..i];
      var action := Get(entries[i], "action", "");
      if action == "allow" {
        allowed := allowed + 1;
      } else if action == "deny" {
        denied := denied + 1;
      }
    }
    assert entries[..|entries|] == entries;
  }

  /**
   * The three prints in order; the first that throws ends the sequence with
   * "API Error: " and its message, keeping the totals already set.
   */
  method LoadMetrics(router: Router) returns (metrics: Metrics)
    requires router.Valid()
    modifies router
    ensures router.Valid()
    ensures router.tables == old(router.tables) && router.nextId == old(router.nextId)
    ensures var at := |old(router.sent)|;
      var profiles := old(router.Rows(Profiles));
      var vouchers := old(router.Rows(Users));
      var rules := old(router.Rows(WalledGarden));
      && (at in router.rejects ==>
            metrics == InitialMetrics.(error := Some("API Error: " + router.rejects[at]))
            && router.sent == old(router.sent) + [Print(Profiles, None)])
      && (at !in router.rejects && at + 1 in router.rejects ==>
            metrics == InitialMetrics.(totalProfiles := |profiles|, error := Some("API Error: " + router.rejects[at + 1]))
            && router.sent == old(router.sent) + [Print(Profiles, None), Print(Users, None)])
      && (at !in router.rejects && at + 1 !in router.rejects && at + 2 in router.rejects ==>
            metrics == InitialMetrics.(totalProfiles := |profiles|, totalVouchers := |vouchers|,
                                       error := Some("API Error: " + router.rejects[at + 2])))
      && (at !in router.rejects && at + 1 !in router.rejects && at + 2 !in router.rejects ==>
            metrics == Metrics(|profiles|, |vouchers|, CountAction(rules, "allow"), CountAction(rules, "deny"), None))
      && (at !in router.rejects && at + 1 !in router.rejects ==>
            router.sent == old(router.sent) + [Print(Profiles, None), Print(Users, None), Print(WalledGarden, None)])
  {
    metrics := InitialMetrics;
    var r := router.Execute(Print(Profiles, None));
    if r.Err? {
      return metrics.(error := Some("API Error: " + r.message));
    }
    metrics := metrics.(totalProfiles := |r.value|);
    r := router.Execute(Print(Users, None));
    if r.Err? {
      return metrics.(error := Some("API Error: " + r.message));
    }
    metrics := metrics.(totalVouchers := |r.value|);
    r := router.Execute(Print(WalledGarden, None));
    if r.Err? {
      return metrics.(error := Some("API Error: " + r.message));
    }
    var allowed, denied := CountRules(r.value);
    metrics := metrics.(walledGardenAllowed := allowed, walledGardenDenied := denied);
  }

  /**
   * The rules page styles a rule "Allow" as allowed, but the dashboard compares the action
   * case-sensitively and counts it neither as allowed nor as denied.
   */
  lemma CaseMismatch()
    ensures var e := map["action" := "Allow", ".id" := "*1"];
      && WalledGardenPage.RowClass(e) == "allow-row"
      && CountAction([e], "allow") == 0 && CountAction([e], "deny") == 0
  {
    var e := map["action" := "Allow", ".id" := "*1"];
    assert [e][..0] == [];
    WalledGardenPage.RowClassCases(e);
  }
}
