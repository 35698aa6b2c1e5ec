/**
 * electron-app/offline/manifest.ts, `buildManifest`, and the comparison the server makes with it. The list of id tables
 * is a parameter, as is the working copy, whose tables hold their ids in ascending order.
 */
module Manifest {
  import opened Text
  import opened OfflineIds

  predicate Ascending(ids: seq<int>) {
    forall i, j :: 0 <= i < j < |ids| ==> ids[i] < ids[j]
  }

  /** The working copy: the tables that exist, with the ids of their rows. */
  type Copy = map<string, seq<int>>

  predicate WellKept(db: Copy) {
    forall t :: t in db ==> Ascending(db[t])
  }

  /** The table list of the id layout: each table once, no more than the layout has room for. */
  predicate IdTables(ts: seq<string>) {
    Distinct(ts) && |ts| <= TABLE_INDEX_MAX + 1
  }

  function TableIndex(ts: seq<string>, t: string): (i: nat)
    requires t in ts
    ensures i < |ts| && ts[i] == t
  {
    if ts[0] == t then 0 else 1 + TableIndex(ts[1..], t)
  }

  /** `/^[a-z_]+$/`. */
  predicate SafeName(t: string) {
    t != "" && forall c :: c in t ==> 'a' <= c <= 'z' || c == '_'
  }

  predicate Read(db: Copy, t: string) {
    t in db && SafeName(t)
  }

  /** `SELECT id … WHERE id > lo AND id < lo + stride ORDER BY id`. */
  function Select(ids: seq<int>, device: int, tableIndex: int): seq<int> {
    if ids == [] then []
    else (if InRange(device, tableIndex, ids[0]) then [ids[0]] else []) + Select(ids[1..], device, tableIndex)
  }

  function Unexplained(ids: seq<int>, created: set<int>): seq<int> {
    if ids == [] then [] else (if ids[0] !in created then [ids[0]] else []) + Unexplained(ids[1..], created)
  }

  lemma AscendingCons(id: int, ids: seq<int>)
    requires Ascending(ids) && forall x :: x in ids ==> id < x
    ensures Ascending([id] + ids)
  {
    var s := [id] + ids;
    forall i, j | 0 <= i < j < |s| ensures s[i] < s[j] {
      assert s[j] == ids[j - 1] && ids[j - 1] in ids;
    }
  }

  lemma AscendingTail(ids: seq<int>)
    requires Ascending(ids) && ids != []
    ensures Ascending(ids[1..]) && forall x :: x in ids[1..] ==> ids[0] < x
  {
    forall x | x in ids[1..] ensures ids[0] < x {
      var i :| 0 <= i < |ids[1..]| && ids[1..][i] == x;
      assert ids[i + 1] == x;
    }
  }

  lemma {:induction false} SelectFacts(ids: seq<int>, device: int, tableIndex: int)
    ensures forall id :: id in Select(ids, device, tableIndex) <==> id in ids && InRange(device, tableIndex, id)
    ensures Ascending(ids) ==> Ascending(Select(ids, device, tableIndex))
  {
    if ids != [] {
      SelectFacts(ids[1..], device, tableIndex);
      assert ids == [ids[0]] + ids[1..];
      if Ascending(ids) {
        AscendingTail(ids);
        AscendingCons(ids[0], Select(ids[1..], device, tableIndex));
      }
    }
  }

  lemma {:induction false} UnexplainedFacts(ids: seq<int>, created: set<int>)
    ensures forall id :: id in Unexplained(ids, created) <==> id in ids && id !in created
    ensures Ascending(ids) ==> Ascending(Unexplained(ids, created))
  {
    if ids != [] {
      UnexplainedFacts(ids[1..], created);
      assert ids == [ids[0]] + ids[1..];
      if Ascending(ids) {
        AscendingTail(ids);
        AscendingCons(ids[0], Unexplained(ids[1..], created));
      }
    }
  }

  /** The ids of a table strictly inside this device's range. */
  function Listed(ts: seq<string>, db: Copy, device: int, t: string): seq<int>
    requires t in ts && t in db
  {
    Select(db[t], device, TableIndex(ts, t))
  }

  datatype Built = Built(
    tables: map<string, seq<int>>, localUnexplained: seq<(string, seq<int>)>, tablesRead: nat)

  /** What the loop has built from the key tables so far. */
  function BuiltFrom(ts: seq<string>, keys: seq<string>, db: Copy, device: int, created: set<int>): Built
    requires forall k :: k in keys ==> k in ts
  {
    if keys == [] then Built(map[], [], 0)
    else
      var b := BuiltFrom(ts, keys[..|keys| - 1], db, device, created);
      var t := keys[|keys| - 1];
      if !Read(db, t) then b
      else
        var ids := Listed(ts, db, device, t);
        var open := Unexplained(ids, created);
        Built(if ids == [] then b.tables else b.tables[t := ids],
              if ids == [] || open == [] then b.localUnexplained else b.localUnexplained + [(t, open)],
              b.tablesRead + 1)
  }

  method BuildManifest(ts: seq<string>, keys: seq<string>, db: Copy, device: int, created: set<int>) returns (b: Built)
    requires forall k :: k in keys ==> k in ts
    ensures b == BuiltFrom(ts, keys, db, device, created)
  {
    var tables: map<string, seq<int>> := map[];
    var localUnexplained := [];
    var tablesRead := 0;
    for i := 0 to |keys|
      invariant Built(tables, localUnexplained, tablesRead) == BuiltFrom(ts, keys[..i], db, device, created)
    {
      assert keys[..i + 1][..i] == keys[..i];
      var table := keys[i];
      if table !in db || !SafeName(table) {
        continue;
      }
      tablesRead := tablesRead + 1;
      var ids := Listed(ts, db, device, table);
      if ids == [] {
        continue;
      }
      tables := tables[table := ids];
      var unexplained := Unexplained(ids, created);
      if |unexplained| > 0 {
        localUnexplained := localUnexplained + [(table, unexplained)];
      }
    }
    assert keys[..|keys|] == keys;
    b := Built(tables, localUnexplained, tablesRead);
  }

  // ----- exactness -----

  /** Which tables are listed and with what, and which are unexplained and with what. */
  lemma {:induction false} BuiltEntries(ts: seq<string>, keys: seq<string>, db: Copy, device: int, created: set<int>)
    requires (forall k :: k in keys ==> k in ts) && Distinct(keys)
    ensures var b := BuiltFrom(ts, keys, db, device, created);
            (forall t :: t in b.tables <==> t in keys && Read(db, t) && Listed(ts, db, device, t) != []) &&
            (forall t :: t in b.tables ==> b.tables[t] == Listed(ts, db, device, t)) &&
            (forall t, ids :: (t, ids) in b.localUnexplained <==>
                              t in b.tables && ids == Unexplained(b.tables[t], created) && ids != [])
  {
    if keys != [] {
      var p, t := keys[..|keys| - 1], keys[|keys| - 1];
      BuiltEntries(ts, p, db, device, created);
      assert t !in p && keys == p + [t];
    }
  }

  /**
   * The manifest is exact: a table lists an id exactly when it is a key table of the copy and the id is one of its rows
   * that decodes to this device and that table; lists are ascending and never empty; and an unexplained entry is a part
   * of its list.
   */
  lemma ManifestExact(ts: seq<string>, keys: seq<string>, db: Copy, device: int, created: set<int>)
    requires IdTables(ts) && (forall k :: k in keys ==> k in ts) && Distinct(keys) && WellKept(db) &&
             1 <= device <= PC_MAX
    ensures var b := BuiltFrom(ts, keys, db, device, created);
            (forall t, id :: t in b.tables && id in b.tables[t] <==>
                             t in keys && t in db && t != "" &&
                             (forall i :: 0 <= i < |t| ==> 'a' <= t[i] <= 'z' || t[i] == '_') &&
                             id in db[t] && Decode(id).Some? &&
                             Decode(id).value.pc == device && Decode(id).value.tableIndex == TableIndex(ts, t) &&
                             Decode(id).value.n != 0) &&
            (forall t :: t in b.tables ==> b.tables[t] != [] && Ascending(b.tables[t])) &&
            (forall t, ids :: (t, ids) in b.localUnexplained ==>
                              t in b.tables && ids != [] && Ascending(ids) &&
                              forall id :: id in ids <==> id in b.tables[t] && id !in created)
  {
    var b := BuiltFrom(ts, keys, db, device, created);
    BuiltEntries(ts, keys, db, device, created);
    forall t: string ensures SafeName(t) <==>
           t != "" && forall i :: 0 <= i < |t| ==> 'a' <= t[i] <= 'z' || t[i] == '_' {
      assert forall i :: 0 <= i < |t| ==> t[i] in t;
    }
    forall t | t in keys && Read(db, t)
      ensures forall id :: id in Listed(ts, db, device, t) <==>
                           id in db[t] && Decode(id).Some? && Decode(id).value.pc == device &&
                           Decode(id).value.tableIndex == TableIndex(ts, t) && Decode(id).value.n != 0
      ensures Ascending(Listed(ts, db, device, t))
    {
      ListedExact(ts, db, device, t);
    }
    forall t, ids | (t, ids) in b.localUnexplained
      ensures Ascending(ids) && forall id :: id in ids <==> id in b.tables[t] && id !in created
    {
      UnexplainedFacts(b.tables[t], created);
    }
  }

  lemma ReadNext(ts: seq<string>, keys: seq<string>, db: Copy, device: int, created: set<int>)
    requires (forall k :: k in keys ==> k in ts) && keys != []
    ensures BuiltFrom(ts, keys, db, device, created).tablesRead ==
            BuiltFrom(ts, keys[..|keys| - 1], db, device, created).tablesRead +
            if keys[|keys| - 1] in db && SafeName(keys[|keys| - 1]) then 1 else 0
  {
  }

  function Readable(keys: seq<string>, db: Copy): set<string> {
    set t | t in keys && t in db && SafeName(t)
  }

  lemma ReadableNext(p: seq<string>, t: string, db: Copy)
    requires t !in p
    ensures Readable(p + [t], db) == Readable(p, db) + if t in db && SafeName(t) then {t} else {}
    ensures t !in Readable(p, db)
  {
  }

  /** The tables counted as read are the key tables of the copy with a safe name. */
  lemma {:induction false} TablesReadExact(ts: seq<string>, keys: seq<string>, db: Copy, device: int, created: set<int>)
    requires (forall k :: k in keys ==> k in ts) && Distinct(keys)
    ensures BuiltFrom(ts, keys, db, device, created).tablesRead == |Readable(keys, db)|
  {
    if keys != [] {
      var p, t := keys[..|keys| - 1], keys[|keys| - 1];
      assert keys == p + [t];
      assert t !in p;
      TablesReadExact(ts, p, db, device, created);
      ReadNext(ts, keys, db, device, created);
      ReadableNext(p, t, db);
    } else {
      assert Readable(keys, db) == {};
    }
  }

  lemma ListedExact(ts: seq<string>, db: Copy, device: int, t: string)
    requires IdTables(ts) && t in ts && t in db && WellKept(db) && 1 <= device <= PC_MAX
    ensures Ascending(Listed(ts, db, device, t))
    ensures forall id :: id in Listed(ts, db, device, t) <==>
                         id in db[t] && Decode(id).Some? && Decode(id).value.pc == device &&
                         Decode(id).value.tableIndex == TableIndex(ts, t) && Decode(id).value.n != 0
  {
    var i := TableIndex(ts, t);
    SelectFacts(db[t], device, i);
    forall id ensures id in Listed(ts, db, device, t) <==>
                      id in db[t] && Decode(id).Some? && Decode(id).value.pc == device &&
                      Decode(id).value.tableIndex == i && Decode(id).value.n != 0 {
      RangeIsDecode(device, i, id);
    }
  }

  // ----- one flat set of outbox ids stands in for one set per table -----

  type Outbox = map<string, set<int>>

  function Flat(outbox: Outbox): set<int> {
    set t, id | t in outbox && id in outbox[t] :: id
  }

  function Own(outbox: Outbox, t: string): set<int> {
    if t in outbox then outbox[t] else {}
  }

  /** Every outbox id lies in the range of the table it was recorded for, on whatever device. */
  predicate OwnRanges(ts: seq<string>, outbox: Outbox) {
    forall t, id :: t in outbox && id in outbox[t] ==>
                    t in ts && Decode(id).Some? && Decode(id).value.tableIndex == TableIndex(ts, t)
  }

  lemma {:induction false} SameUnexplained(ids: seq<int>, a: set<int>, b: set<int>)
    requires forall id :: id in ids ==> (id in a <==> id in b)
    ensures Unexplained(ids, a) == Unexplained(ids, b)
  {
    if ids != [] {
      SameUnexplained(ids[1..], a, b);
      var id := ids[0];
      assert id in ids;
      assert id in a <==> id in b;
    }
  }

  /** With each outbox id in its own table's range, the flat comparison equals the comparison table by table. */
  lemma FlatIsPrecise(ts: seq<string>, db: Copy, device: int, outbox: Outbox, t: string)
    requires IdTables(ts) && t in ts && t in db && WellKept(db) && 1 <= device <= PC_MAX && OwnRanges(ts, outbox)
    ensures var ids := Listed(ts, db, device, t);
            Unexplained(ids, Flat(outbox)) == Unexplained(ids, Own(outbox, t))
  {
    var ids := Listed(ts, db, device, t);
    ListedExact(ts, db, device, t);
    forall id | id in ids ensures id in Flat(outbox) <==> id in Own(outbox, t) {
      if id in Flat(outbox) {
        var u :| u in outbox && id in outbox[u];
        assert ts[TableIndex(ts, u)] == u && ts[TableIndex(ts, t)] == t;
      }
    }
    SameUnexplained(ids, Flat(outbox), Own(outbox, t));
  }

  /** The id is one this device issues for the table. */
  predicate IssuedFor(ts: seq<string>, device: int, t: string, id: int)
    requires t in ts
  {
    Decode(id).Some? && Decode(id).value.pc == device && Decode(id).value.tableIndex == TableIndex(ts, t) &&
    Decode(id).value.n != 0
  }

  /** For one table, the flat set finds in every copy what the table's own set finds. */
  ghost predicate FlatAgrees(ts: seq<string>, device: int, outbox: Outbox, t: string)
    requires t in ts
  {
    forall db: Copy :: t in db && WellKept(db) ==>
                       Unexplained(Listed(ts, db, device, t), Flat(outbox)) ==
                       Unexplained(Listed(ts, db, device, t), Own(outbox, t))
  }

  /**
   * The flat set is as precise as the table's own, over every working copy, exactly when no id this device issues for
   * the table stands in the outbox for another table only.
   */
  lemma FlatIsPreciseIff(ts: seq<string>, device: int, outbox: Outbox, t: string)
    requires IdTables(ts) && t in ts && 1 <= device <= PC_MAX
    ensures FlatAgrees(ts, device, outbox, t) <==>
            forall id :: IssuedFor(ts, device, t, id) && id in Flat(outbox) ==> id in Own(outbox, t)
  {
    if forall id :: IssuedFor(ts, device, t, id) && id in Flat(outbox) ==> id in Own(outbox, t) {
      forall db: Copy | t in db && WellKept(db)
        ensures Unexplained(Listed(ts, db, device, t), Flat(outbox)) ==
                Unexplained(Listed(ts, db, device, t), Own(outbox, t))
      {
        ListedExact(ts, db, device, t);
        SameUnexplained(Listed(ts, db, device, t), Flat(outbox), Own(outbox, t));
      }
    } else {
      var id :| IssuedFor(ts, device, t, id) && id in Flat(outbox) && id !in Own(outbox, t);
      MisfiledShows(ts, device, outbox, t, id);
    }
  }

  /**
   * A misfiled id shows: in a copy that holds just that row, the flat set explains it and the table's own set does not.
   */
  lemma MisfiledShows(ts: seq<string>, device: int, outbox: Outbox, t: string, id: int)
    requires IdTables(ts) && t in ts && 1 <= device <= PC_MAX
    requires IssuedFor(ts, device, t, id) && id in Flat(outbox) && id !in Own(outbox, t)
    ensures !FlatAgrees(ts, device, outbox, t)
  {
    var db: Copy := map[t := [id]];
    RangeIsDecode(device, TableIndex(ts, t), id);
    assert [id][1..] == [];
    assert db[t] == [id];
    assert Select([id], device, TableIndex(ts, t)) == [id] + Select([], device, TableIndex(ts, t));
    assert Listed(ts, db, device, t) == [id];
    assert Unexplained([id], Flat(outbox)) == [];
    assert Unexplained([id], Own(outbox, t)) == [id] + Unexplained([], Own(outbox, t));
    assert WellKept(db);
  }

  /**
   * On the built manifest: with each outbox id in its own table's range, what the loop reports from the one flat set
   * is, table by table, what comparing with that table's own outbox ids leaves.
   */
  lemma FlatManifest(ts: seq<string>, keys: seq<string>, db: Copy, device: int, outbox: Outbox)
    requires IdTables(ts) && (forall k :: k in keys ==> k in ts) && Distinct(keys) && WellKept(db) &&
             1 <= device <= PC_MAX
    requires OwnRanges(ts, outbox)
    ensures forall t, ids :: (t, ids) in BuiltFrom(ts, keys, db, device, Flat(outbox)).localUnexplained <==>
                             t in keys && Read(db, t) &&
                             ids == Unexplained(Listed(ts, db, device, t), Own(outbox, t)) &&
                             ids != []
  {
    BuiltEntries(ts, keys, db, device, Flat(outbox));
    forall t | t in keys && Read(db, t)
      ensures Unexplained(Listed(ts, db, device, t), Flat(outbox)) ==
              Unexplained(Listed(ts, db, device, t), Own(outbox, t))
    {
      FlatIsPrecise(ts, db, device, outbox, t);
    }
  }

  // ----- the server's comparison -----

  /** `compareManifest`: the manifest's offline ids that no event of the device accounts for, by table. */
  function ServerUnexplained(tables: map<string, seq<int>>, explained: set<int>): map<string, seq<int>> {
    map t | t in tables && ServerFilter(tables[t], explained) != [] :: ServerFilter(tables[t], explained)
  }

  function ServerFilter(ids: seq<int>, explained: set<int>): seq<int> {
    if ids == [] then []
    else (if IsOfflineId(ids[0]) && ids[0] !in explained then [ids[0]] else []) + ServerFilter(ids[1..], explained)
  }

  lemma {:induction false} OfflineFilter(ids: seq<int>, explained: set<int>)
    requires forall id :: id in ids ==> IsOfflineId(id)
    ensures ServerFilter(ids, explained) == Unexplained(ids, explained)
  {
    if ids != [] {
      OfflineFilter(ids[1..], explained);
      assert ids[0] in ids;
    }
  }

  /** A server that has received exactly the outbox's ids reports exactly what the PC found by itself. */
  lemma ServerAgrees(ts: seq<string>, keys: seq<string>, db: Copy, device: int, created: set<int>)
    requires IdTables(ts) && (forall k :: k in keys ==> k in ts) && Distinct(keys) && WellKept(db) &&
             1 <= device <= PC_MAX
    ensures var b := BuiltFrom(ts, keys, db, device, created);
            var server := ServerUnexplained(b.tables, created);
            forall t, ids :: (t, ids) in b.localUnexplained <==> t in server && server[t] == ids
  {
    var b := BuiltFrom(ts, keys, db, device, created);
    var server := ServerUnexplained(b.tables, created);
    BuiltEntries(ts, keys, db, device, created);
    ManifestExact(ts, keys, db, device, created);
    forall t | t in b.tables
      ensures ServerFilter(b.tables[t], created) == Unexplained(b.tables[t], created)
    {
      forall id | id in b.tables[t] ensures IsOfflineId(id) {
        assert Decode(id).Some?;
      }
      OfflineFilter(b.tables[t], created);
    }
  }
}
