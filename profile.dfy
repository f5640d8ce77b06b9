/**
 * profile.php: hotspot user profiles (rate limit, shared users, timeouts), created,
 * updated and deleted by name.
 */
module ProfilePage {
  import opened Php
  import opened PhpInt
  import opened RouterOs
  import opened Console

  // ---------------------------------------------------------------- delete by name

  /**
   * `?delete=`: look the profile up by name and remove the first match by its id. Every
   * path ends in a redirect back to profile.php.
   */
  method DeleteProfile(router: Router, delName: string) returns (outcome: Outcome)
    requires router.Valid()
    modifies router
    ensures router.Valid()
    ensures router.nextId == old(router.nextId)
    ensures outcome.redirect == Some("profile.php")
    ensures var at := |old(router.sent)|;
      var find := Print(Profiles, Some(("name", delName)));
      var existing := Select(old(router.Rows(Profiles)), Some(("name", delName)));
      && (at in router.rejects ==>
            && outcome.message == Message(Error, "Error deleting profile: " + router.rejects[at])
            && router.sent == old(router.sent) + [find] && router.tables == old(router.tables))
      && (at !in router.rejects && existing == [] ==>
            && outcome.message == Message(Error, "Profile '" + delName + "' not found.")
            && router.sent == old(router.sent) + [find] && router.tables == old(router.tables))
      && (at !in router.rejects && existing != [] && !IsTruthy(Get(existing[0], ".id", "")) ==>
            && outcome.message == Message(Error, "Could not find valid ID for profile '" + delName + "'.")
            && router.sent == old(router.sent) + [find] && router.tables == old(router.tables))
      && (at !in router.rejects && existing != [] && IsTruthy(Get(existing[0], ".id", "")) ==>
            var id := existing[0][".id"];
            && router.sent == old(router.sent) + [find, Remove(Profiles, id)]
            && (at + 1 in router.rejects ==>
                  outcome.message == Message(Error, "Error deleting profile: " + router.rejects[at + 1])
                  && router.tables == old(router.tables))
            && (at + 1 !in router.rejects ==>
                  && outcome.message == Message(Success, "Profile '" + delName + "' deleted successfully!")
                  && router.Rows(Profiles) == RemoveIds(old(router.Rows(Profiles)), [id])
                  && forall m :: m != Profiles ==> router.Rows(m) == old(router.Rows(m))))
  {
    ghost var rows := router.Rows(Profiles);
    assert WellFormed(rows);
    var r := router.Execute(Print(Profiles, Some(("name", delName))));
    if r.Err? {
      return Outcome(Message(Error, "Error deleting profile: " + r.message), Some("profile.php"));
    }
    var existing := r.value;
    if existing == [] {
      return Outcome(Message(Error, "Profile '" + delName + "' not found."), Some("profile.php"));
    }
    var profileId := Get(existing[0], ".id", "");
    if !IsTruthy(profileId) {
      return Outcome(Message(Error, "Could not find valid ID for profile '" + delName + "'."), Some("profile.php"));
    }
    assert existing[0] in rows;
    ExplodeWhole(',', profileId);
    var r2 := router.Execute(Remove(Profiles, profileId));
    if r2.Err? {
      return Outcome(Message(Error, "Error deleting profile: " + r2.message), Some("profile.php"));
    }
    outcome := Outcome(Message(Success, "Profile '" + delName + "' deleted successfully!"), Some("profile.php"));
  }

  /**
   * Only the profile holding the first match's id goes (with any other row sharing that
   * id); all other profiles stay.
   */
  lemma DeleteRemovesFirstMatch(rows: seq<Record>, name: string)
    requires Select(rows, Some(("name", name))) != []
    ensures var first := Select(rows, Some(("name", name)))[0];
      var after := RemoveIds(rows, [Get(first, ".id", "")]);
      && first !in after
      && forall r :: r in rows ==> (r in after <==> Get(r, ".id", "") != Get(first, ".id", ""))
  {
  }

  // ---------------------------------------------------------------- create / update

  /** The profile form after trimming and the (int) cast; `editing` is the hidden field, as sent. */
  datatype ProfileForm = ProfileForm(
    name: string, rx: string, tx: string, sharedUsers: int,
    sessionTimeout: string, idleTimeout: string, keepaliveTimeout: string, editing: string)

  function ReadProfileForm(post: Form): (f: ProfileForm)
    ensures Trim(f.name) == f.name && Trim(f.rx) == f.rx && Trim(f.tx) == f.tx
    ensures Trim(f.sessionTimeout) == f.sessionTimeout && Trim(f.idleTimeout) == f.idleTimeout
    ensures Trim(f.keepaliveTimeout) == f.keepaliveTimeout
    ensures PHP_INT_MIN <= f.sharedUsers <= PHP_INT_MAX
    ensures f.editing == Get(post, "editing", "")
  {
    TrimIdempotent(Get(post, "name", ""));
    TrimIdempotent(Get(post, "rx_limit", ""));
    TrimIdempotent(Get(post, "tx_limit", ""));
    TrimIdempotent(Get(post, "session_timeout", ""));
    TrimIdempotent(Get(post, "idle_timeout", "5m"));
    TrimIdempotent(Get(post, "keepalive_timeout", ""));
    ProfileForm(
      Trim(Get(post, "name", "")), Trim(Get(post, "rx_limit", "")), Trim(Get(post, "tx_limit", "")),
      if "shared_users" in post then IntVal(post["shared_users"]) else 1,
      Trim(Get(post, "session_timeout", "")), Trim(Get(post, "idle_timeout", "5m")),
      Trim(Get(post, "keepalive_timeout", "")), Get(post, "editing", ""))
  }

  /** A form without shared_users or idle_timeout asks for one shared user and an idle timeout of "5m". */
  lemma ProfileFormDefaults(post: Form, existing: seq<Record>)
    ensures "shared_users" !in post ==>
      ReadProfileForm(post).sharedUsers == 1 && SentValue(ReadProfileForm(post), existing, "shared-users") == Some("1")
    ensures "idle_timeout" !in post ==>
      ReadProfileForm(post).idleTimeout == "5m" && SentValue(ReadProfileForm(post), existing, "idle-timeout") == Some("5m")
  {
    assert TrimStart("5m") == "5m";
    assert "5m"[..1] == "5";
    assert TrimEnd("5") == "5";
  }

  /** One word when the condition holds, none otherwise. */
  function When(cond: bool, k: string, v: string): Attrs
  {
    if cond then [(k, v)] else []
  }

  /** Whether the save updates the profile found by name rather than adding one. */
  predicate IsUpdate(f: ProfileForm, existing: seq<Record>)
  {
    IsTruthy(f.editing) && existing != []
  }

  /** The words of the `/set` or `/add`, in the order the handler adds them. */
  function ProfileAttrs(f: ProfileForm, existing: seq<Record>): Attrs
  {
    When(IsUpdate(f, existing), ".id", if existing != [] then Get(existing[0], ".id", "") else "")
    + When(IsTruthy(f.rx) || IsTruthy(f.tx), "rate-limit", f.rx + "/" + f.tx)
    + [("shared-users", IntToString(f.sharedUsers))]
    + When(IsTruthy(f.sessionTimeout), "session-timeout", f.sessionTimeout)
    + When(IsTruthy(f.idleTimeout), "idle-timeout", f.idleTimeout)
    + When(IsTruthy(f.keepaliveTimeout), "keepalive-timeout", f.keepaliveTimeout)
    + [("name", f.name)]
  }

  function ProfileCommand(f: ProfileForm, existing: seq<Record>): Command
  {
    if IsUpdate(f, existing) then Set(Profiles, ProfileAttrs(f, existing)) else Add(Profiles, ProfileAttrs(f, existing))
  }

  /** The query the handler builds, one conditional `->equal()` at a time. */
  method BuildProfileQuery(f: ProfileForm, existing: seq<Record>) returns (update: Command)
    ensures update == ProfileCommand(f, existing)
  {
    var isSet := IsTruthy(f.editing) && existing != [];
    var attrs: Attrs := [];
    if isSet {
      attrs := attrs + [(".id", Get(existing[0], ".id", ""))];
    }
    ghost var q := When(IsUpdate(f, existing), ".id", if existing != [] then Get(existing[0], ".id", "") else "");
    assert attrs == q;
    if IsTruthy(f.rx) || IsTruthy(f.tx) {
      attrs := attrs + [("rate-limit", f.rx + "/" + f.tx)];
    }
    q := q + When(IsTruthy(f.rx) || IsTruthy(f.tx), "rate-limit", f.rx + "/" + f.tx);
    assert attrs == q;
    attrs := attrs + [("shared-users", IntToString(f.sharedUsers))];
    q := q + [("shared-users", IntToString(f.sharedUsers))];
    if IsTruthy(f.sessionTimeout) {
      attrs := attrs + [("session-timeout", f.sessionTimeout)];
    }
    q := q + When(IsTruthy(f.sessionTimeout), "session-timeout", f.sessionTimeout);
    assert attrs == q;
    if IsTruthy(f.idleTimeout) {
      attrs := attrs + [("idle-timeout", f.idleTimeout)];
    }
    q := q + When(IsTruthy(f.idleTimeout), "idle-timeout", f.idleTimeout);
    assert attrs == q;
    if IsTruthy(f.keepaliveTimeout) {
      attrs := attrs + [("keepalive-timeout", f.keepaliveTimeout)];
    }
    q := q + When(IsTruthy(f.keepaliveTimeout), "keepalive-timeout", f.keepaliveTimeout);
    assert attrs == q;
    attrs := attrs + [("name", f.name)];
    update := if isSet then Set(Profiles, attrs) else Add(Profiles, attrs);
  }

  /**
   * What the request sets, key by key: the id only on an update; the rate limit "rx/tx"
   * exactly when rx or tx is truthy; always shared-users and the name; each timeout only
   * when it is truthy; nothing else.
   */
  function SentValue(f: ProfileForm, existing: seq<Record>, k: string): Option<string>
  {
    if k == ".id" then (if IsUpdate(f, existing) then Some(Get(existing[0], ".id", "")) else None)
    else if k == "rate-limit" then (if IsTruthy(f.rx) || IsTruthy(f.tx) then Some(f.rx + "/" + f.tx) else None)
    else if k == "shared-users" then Some(IntToString(f.sharedUsers))
    else if k == "session-timeout" then (if IsTruthy(f.sessionTimeout) then Some(f.sessionTimeout) else None)
    else if k == "idle-timeout" then (if IsTruthy(f.idleTimeout) then Some(f.idleTimeout) else None)
    else if k == "keepalive-timeout" then (if IsTruthy(f.keepaliveTimeout) then Some(f.keepaliveTimeout) else None)
    else if k == "name" then Some(f.name)
    else None
  }

  /** The built words carry, for every key, exactly the value SentValue() names. */
  lemma ProfileAttrsFields(f: ProfileForm, existing: seq<Record>, k: string)
    ensures Lookup(ProfileAttrs(f, existing), k) == SentValue(f, existing, k)
  {
    var id := if existing != [] then Get(existing[0], ".id", "") else "";
    var q1 := When(IsUpdate(f, existing), ".id", id);
    var q2 := q1 + When(IsTruthy(f.rx) || IsTruthy(f.tx), "rate-limit", f.rx + "/" + f.tx);
    var q3 := q2 + [("shared-users", IntToString(f.sharedUsers))];
    var q4 := q3 + When(IsTruthy(f.sessionTimeout), "session-timeout", f.sessionTimeout);
    var q5 := q4 + When(IsTruthy(f.idleTimeout), "idle-timeout", f.idleTimeout);
    var q6 := q5 + When(IsTruthy(f.keepaliveTimeout), "keepalive-timeout", f.keepaliveTimeout);
    assert ProfileAttrs(f, existing) == q6 + [("name", f.name)];
    LookupAppendWhen([], IsUpdate(f, existing), ".id", id, k);
    assert [] + q1 == q1;
    LookupAppendWhen(q1, IsTruthy(f.rx) || IsTruthy(f.tx), "rate-limit", f.rx + "/" + f.tx, k);
    LookupAppendWhen(q2, true, "shared-users", IntToString(f.sharedUsers), k);
    LookupAppendWhen(q3, IsTruthy(f.sessionTimeout), "session-timeout", f.sessionTimeout, k);
    LookupAppendWhen(q4, IsTruthy(f.idleTimeout), "idle-timeout", f.idleTimeout, k);
    LookupAppendWhen(q5, IsTruthy(f.keepaliveTimeout), "keepalive-timeout", f.keepaliveTimeout, k);
    LookupAppendWhen(q6, true, "name", f.name, k);
  }

  /** The rate limit the form sends is split back into the same rx and tx when the edit form is shown. */
  lemma RateRoundTrip(rx: string, tx: string)
    requires '/' !in rx && '/' !in tx
    ensures SplitRate(rx + "/" + tx) == (rx, tx)
  {
    assert Implode('/', [rx, tx]) == rx + "/" + tx by {
      assert [rx, tx][1..] == [tx];
    }
    ExplodeImplode('/', [rx, tx]);
  }

  /** `[$rx, $tx] = array_pad(explode('/', $rate), 2, '')`. */
  function SplitRate(rate: string): (string, string)
  {
    var parts := Pad(Explode('/', rate), 2, "");
    (parts[0], parts[1])
  }

  /** A profile without a rate limit shows two empty fields; a bare rate shows as rx only. */
  lemma SplitRateShort(rate: string)
    requires '/' !in rate
    ensures SplitRate(rate) == (rate, "")
  {
    ExplodeWhole('/', rate);
  }

  /**
   * The POST handler: a falsy name is refused; otherwise the profile is looked up by
   * name and the built query is sent; success goes back to profile.php.
   */
  method SaveProfile(router: Router, f: ProfileForm) returns (outcome: Outcome)
    requires router.Valid()
    modifies router
    ensures router.Valid()
    ensures var at := |old(router.sent)|;
      var existing := Select(old(router.Rows(Profiles)), Some(("name", f.name)));
      router.nextId == old(router.nextId)
        + (if IsTruthy(f.name) && at !in router.rejects && at + 1 !in router.rejects && ProfileCommand(f, existing).Add? then 1 else 0)
    ensures !IsTruthy(f.name) ==>
      outcome == Outcome(Message(Error, "Profile Name is required"), None) && unchanged(router)
    ensures IsTruthy(f.name) ==>
      var at := |old(router.sent)|;
      var find := Print(Profiles, Some(("name", f.name)));
      var existing := Select(old(router.Rows(Profiles)), Some(("name", f.name)));
      var update := ProfileCommand(f, existing);
      && (at in router.rejects ==>
            && outcome == Outcome(Message(Error, "Error saving profile: " + router.rejects[at]), None)
            && router.sent == old(router.sent) + [find] && router.tables == old(router.tables))
      && (at !in router.rejects ==> router.sent == old(router.sent) + [find, update])
      && (at !in router.rejects && at + 1 in router.rejects ==>
            outcome == Outcome(Message(Error, "Error saving profile: " + router.rejects[at + 1]), None)
            && router.tables == old(router.tables))
      && (at !in router.rejects && at + 1 !in router.rejects ==>
            && outcome == Outcome(
                 Message(Success, "Profile '" + f.name + (if IsTruthy(f.editing) then "' updated successfully!" else "' created successfully!")),
                 Some("profile.php"))
            && router.Rows(Profiles) == Apply(old(router.Rows(Profiles)), update, old(router.nextId))
            && forall m :: m != Profiles ==> router.Rows(m) == old(router.Rows(m)))
  {
    if !IsTruthy(f.name) {
      return Outcome(Message(Error, "Profile Name is required"), None);
    }
    var r := router.Execute(Print(Profiles, Some(("name", f.name))));
    if r.Err? {
      return Outcome(Message(Error, "Error saving profile: " + r.message), None);
    }
    var update := BuildProfileQuery(f, r.value);
    var r2 := router.Execute(update);
    if r2.Err? {
      return Outcome(Message(Error, "Error saving profile: " + r2.message), None);
    }
    var text := if IsTruthy(f.editing) then "' updated successfully!" else "' created successfully!";
    outcome := Outcome(Message(Success, "Profile '" + f.name + text), Some("profile.php"));
  }

  // ---------------------------------------------------------------- the table

  /** Every profile row gets a delete link except the one named 'default'. */
  function ShowsDeleteLink(p: Record): (shown: bool)
    ensures !shown <==> "name" in p && p["name"] == "default"
  {
    Get(p, "name", "") != "default"
  }
}
