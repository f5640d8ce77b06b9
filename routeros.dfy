/**
 * The RouterOS device as the console sees it through its API client: menus of attribute
 * rows, the requests sent to it in order, and which of those requests fail.
 */
module RouterOs {
  import opened Php
  import opened PhpInt

  /** The menus the console uses: /ip/hotspot/user, /ip/hotspot/user/profile, /ip/hotspot/walled-garden, /ip/hotspot. */
  datatype Menu = Users | Profiles | WalledGarden | Servers

  /** The `->equal($key, $value)` words of one request, in the order they were added. */
  type Attrs = seq<(string, string)>

  /** The value of the first word with the given key. */
  function Lookup(attrs: Attrs, k: string): Option<string>
  {
    if attrs == [] then None else if attrs[0].0 == k then Some(attrs[0].1) else Lookup(attrs[1..], k)
  }

  /** No key is sent twice. */
  predicate DistinctKeys(attrs: Attrs)
  {
    forall i, j :: 0 <= i < j < |attrs| ==> attrs[i].0 != attrs[j].0
  }

  lemma {:induction false} LookupAppend(attrs: Attrs, k: string, v: string)
    ensures forall k' :: Lookup(attrs + [(k, v)], k') ==
                         if Lookup(attrs, k').Some? then Lookup(attrs, k') else if k' == k then Some(v) else None
  {
    if attrs != [] {
      LookupAppend(attrs[1..], k, v);
      assert (attrs + [(k, v)])[1..] == attrs[1..] + [(k, v)];
    }
  }

  lemma {:induction false} LookupNone(attrs: Attrs, k: string)
    ensures Lookup(attrs, k).None? <==> forall i :: 0 <= i < |attrs| ==> attrs[i].0 != k
  {
    if attrs != [] {
      LookupNone(attrs[1..], k);
      assert forall i :: 1 <= i < |attrs| ==> attrs[i] == attrs[1..][i - 1];
    }
  }

  /** One optional word at the end of a request: the key then has its old value if it had one, else the new one. */
  lemma LookupAppendWhen(attrs: Attrs, cond: bool, key: string, v: string, k: string)
    ensures Lookup(attrs + (if cond then [(key, v)] else []), k) ==
      if Lookup(attrs, k).Some? then Lookup(attrs, k) else if cond && k == key then Some(v) else None
  {
    if cond {
      LookupAppend(attrs, key, v);
    } else {
      assert attrs + [] == attrs;
    }
  }

  /** `$query->equal($k, $v)`: one more word at the end of the request. */
  function Equal(attrs: Attrs, k: string, v: string): (r: Attrs)
    ensures Lookup(r, k) == if Lookup(attrs, k).Some? then Lookup(attrs, k) else Some(v)
    ensures forall k' :: k' != k ==> Lookup(r, k') == Lookup(attrs, k')
    ensures DistinctKeys(attrs) && Lookup(attrs, k).None? ==> DistinctKeys(r)
  {
    LookupAppend(attrs, k, v);
    LookupNone(attrs, k);
    attrs + [(k, v)]
  }

  /** The attributes a request's words set; of two words with the same key the first counts. */
  function ToRecord(attrs: Attrs): (r: Record)
    ensures forall k :: k in r <==> Lookup(attrs, k).Some?
    ensures forall k :: k in r ==> Lookup(attrs, k) == Some(r[k])
  {
    if attrs == [] then map[] else ToRecord(attrs[1..])[attrs[0].0 := attrs[0].1]
  }

  datatype Command =
    | Print(menu: Menu, where: Option<(string, string)>)  // `/print`, optionally `->where($key, $value)`
    | Add(menu: Menu, attrs: Attrs)                       // `/add`
    | Set(menu: Menu, attrs: Attrs)                       // `/set`, the row named by the `.id` word
    | Remove(menu: Menu, numbers: string)                 // `/remove` with `numbers` = comma-separated ids

  /** A row satisfies the `where` of a print when it has the attribute with exactly that value. */
  predicate Matches(r: Record, where: Option<(string, string)>)
  {
    where.None? || (where.value.0 in r && r[where.value.0] == where.value.1)
  }

  /** The rows a print returns, in table order. */
  function Select(rows: seq<Record>, where: Option<(string, string)>): (s: seq<Record>)
    ensures |s| <= |rows|
    ensures forall r :: r in s ==> r in rows && Matches(r, where)
    ensures forall r :: r in rows && Matches(r, where) ==> r in s
    ensures where.None? ==> s == rows
  {
    if rows == [] then []
    else
      var last := rows[|rows| - 1];
      assert rows == rows[..|rows| - 1] + [last];
      Select(rows[..|rows| - 1], where) + (if Matches(last, where) then [last] else [])
  }

  /** A print keeps table order and multiplicity: selecting from two tables joined is joining their selections. */
  lemma {:induction false} SelectConcat(a: seq<Record>, b: seq<Record>, where: Option<(string, string)>)
    ensures Select(a + b, where) == Select(a, where) + Select(b, where)
  {
    if b == [] {
      assert a + b == a;
    } else {
      var b' := b[..|b| - 1];
      assert (a + b)[..|a + b| - 1] == a + b';
      assert (a + b)[|a + b| - 1] == b[|b| - 1];
      SelectConcat(a, b', where);
    }
  }

  /** The first row a print returns is the first matching row of the table. */
  lemma {:induction false} SelectFirst(rows: seq<Record>, where: Option<(string, string)>)
    requires Select(rows, where) != []
    ensures exists i ::
              && 0 <= i < |rows| && rows[i] == Select(rows, where)[0] && Matches(rows[i], where)
              && forall j :: 0 <= j < i ==> !Matches(rows[j], where)
  {
    var init := rows[..|rows| - 1];
    var last := rows[|rows| - 1];
    assert forall j :: 0 <= j < |init| ==> init[j] == rows[j];
    if Select(init, where) != [] {
      SelectFirst(init, where);
      var i :|
        && 0 <= i < |init| && init[i] == Select(init, where)[0] && Matches(init[i], where)
        && forall j :: 0 <= j < i ==> !Matches(init[j], where);
      assert rows[i] == Select(rows, where)[0];
    } else {
      forall j | 0 <= j < |init| ensures !Matches(rows[j], where) {
        assert init[j] in init;
      }
      assert rows[|rows| - 1] == Select(rows, where)[0];
    }
  }

  /** array_column($rows, $key): the key's value in every row that has it, in order. */
  function Column(rows: seq<Record>, key: string): (c: seq<string>)
    ensures |c| <= |rows|
    ensures (forall r :: r in rows ==> key in r) ==>
      |c| == |rows| && forall i :: 0 <= i < |rows| ==> c[i] == rows[i][key]
  {
    if rows == [] then []
    else
      var last := rows[|rows| - 1];
      assert rows == rows[..|rows| - 1] + [last];
      Column(rows[..|rows| - 1], key) + (if key in last then [last[key]] else [])
  }

  /** Every row of a table the device keeps has an id, and ids never hold a comma. */
  predicate HasId(r: Record)
  {
    ".id" in r && ',' !in r[".id"]
  }

  predicate WellFormed(rows: seq<Record>)
  {
    forall r :: r in rows ==> HasId(r)
  }

  /** The id the device gives the n-th row it creates. */
  function IdOf(n: nat): (id: string)
    ensures ',' !in id
  {
    "*" + NatToString(n)
  }

  /** `/set`: every row with the given id takes the new attribute values. */
  function UpdateRows(rows: seq<Record>, id: string, upd: Record): (s: seq<Record>)
    ensures |s| == |rows|
    ensures forall i :: 0 <= i < |rows| && Get(rows[i], ".id", "") != id ==> s[i] == rows[i]
    ensures forall i :: 0 <= i < |rows| && Get(rows[i], ".id", "") == id ==>
      && s[i].Keys == rows[i].Keys + upd.Keys
      && (forall k :: k in upd ==> s[i][k] == upd[k])
      && (forall k :: k in rows[i] && k !in upd ==> s[i][k] == rows[i][k])
  {
    seq(|rows|, i requires 0 <= i < |rows| => if Get(rows[i], ".id", "") == id then rows[i] + upd else rows[i])
  }

  /** `/remove`: the rows whose id is not listed, in table order. */
  function RemoveIds(rows: seq<Record>, ids: seq<string>): (s: seq<Record>)
    ensures |s| <= |rows|
    ensures forall r :: r in s ==> r in rows && Get(r, ".id", "") !in ids
    ensures forall r :: r in rows && Get(r, ".id", "") !in ids ==> r in s
  {
    if rows == [] then []
    else
      var last := rows[|rows| - 1];
      assert rows == rows[..|rows| - 1] + [last];
      RemoveIds(rows[..|rows| - 1], ids) + (if Get(last, ".id", "") !in ids then [last] else [])
  }

  /** `/remove` keeps table order and multiplicity: it works on two tables joined as on each in turn. */
  lemma {:induction false} RemoveIdsConcat(a: seq<Record>, b: seq<Record>, ids: seq<string>)
    ensures RemoveIds(a + b, ids) == RemoveIds(a, ids) + RemoveIds(b, ids)
  {
    if b == [] {
      assert a + b == a;
    } else {
      var b', last := b[..|b| - 1], b[|b| - 1];
      var tail := if Get(last, ".id", "") !in ids then [last] else [];
      assert (a + b)[..|a + b| - 1] == a + b';
      assert (a + b)[|a + b| - 1] == last;
      assert RemoveIds(a + b, ids) == RemoveIds(a + b', ids) + tail;
      assert RemoveIds(b, ids) == RemoveIds(b', ids) + tail;
      RemoveIdsConcat(a, b', ids);
      assert RemoveIds(a, ids) + (RemoveIds(b', ids) + tail) == (RemoveIds(a, ids) + RemoveIds(b', ids)) + tail;
    }
  }

  /** The table after the device carries out a request; newId is the number of the id an `/add` gets. */
  function Apply(rows: seq<Record>, cmd: Command, newId: nat): seq<Record>
  {
    match cmd
    case Print(_, _) => rows
    case Add(_, attrs) => rows + [ToRecord(attrs)[".id" := IdOf(newId)]]
    case Set(_, attrs) =>
      var upd := ToRecord(attrs);
      if ".id" in upd then UpdateRows(rows, upd[".id"], upd) else rows
    case Remove(_, numbers) => RemoveIds(rows, Explode(',', numbers))
  }

  /** What `->read()` returns for a request that succeeds. */
  function Reply(rows: seq<Record>, cmd: Command): seq<Record>
  {
    if cmd.Print? then Select(rows, cmd.where) else []
  }

  lemma ApplyWellFormed(rows: seq<Record>, cmd: Command, newId: nat)
    requires WellFormed(rows)
    ensures WellFormed(Apply(rows, cmd, newId))
  {
    match cmd
    case Print(_, _) =>
    case Add(_, attrs) =>
    case Set(_, attrs) =>
      var upd := ToRecord(attrs);
      if ".id" in upd {
        var s := UpdateRows(rows, upd[".id"], upd);
        forall r | r in s ensures HasId(r) {
          var i :| 0 <= i < |s| && s[i] == r;
          assert rows[i] in rows;
        }
      }
    case Remove(_, numbers) =>
  }

  class Router {
    /** The rows of each menu. */
    var tables: map<Menu, seq<Record>>
    /** Every request sent, in order. */
    var sent: seq<Command>
    /** The number of the id the next `/add` gets. */
    var nextId: nat
    /** The positions in `sent` of the requests that throw, with the exception's message. */
    const rejects: map<nat, string>

    ghost predicate Valid()
      reads this
    {
      forall m :: m in tables ==> WellFormed(tables[m])
    }

    function Rows(m: Menu): seq<Record>
      reads this
    {
      if m in tables then tables[m] else []
    }

    constructor (tables0: map<Menu, seq<Record>>, rejects0: map<nat, string>, nextId0: nat)
      requires forall m :: m in tables0 ==> WellFormed(tables0[m])
      ensures Valid()
      ensures tables == tables0 && rejects == rejects0 && nextId == nextId0 && sent == []
    {
      tables, rejects, nextId, sent := tables0, rejects0, nextId0, [];
    }

    /** `$client->query($q)->read()`: send one request; it either throws or the device carries it out. */
    method Execute(cmd: Command) returns (r: Result<seq<Record>>)
      requires Valid()
      modifies this
      ensures Valid()
      ensures sent == old(sent) + [cmd]
      ensures |old(sent)| in rejects ==>
        r == Err(rejects[|old(sent)|]) && tables == old(tables) && nextId == old(nextId)
      ensures |old(sent)| !in rejects ==>
        && r == Ok(Reply(old(Rows(cmd.menu)), cmd))
        && tables == (if cmd.Print? then old(tables) else old(tables)[cmd.menu := Apply(old(Rows(cmd.menu)), cmd, old(nextId))])
        && nextId == if cmd.Add? then old(nextId) + 1 else old(nextId)
    {
      var at := |sent|;
      sent := sent + [cmd];
      if at in rejects {
        r := Err(rejects[at]);
      } else {
        var rows := Rows(cmd.menu);
        r := Ok(Reply(rows, cmd));
        if !cmd.Print? {
          ApplyWellFormed(rows, cmd, nextId);
          tables := tables[cmd.menu := Apply(rows, cmd, nextId)];
          if cmd.Add? {
            nextId := nextId + 1;
          }
        }
      }
    }
  }
}
