/**
 * The Grist record store as the routine sees it: tables of records, each
 * with a store-assigned id and a map from column to value. `get` with
 * limit 1 answers the first record matching a filter or None, `add` appends
 * a record and answers its new id, `update` patches the columns it is given.
 * HTTP, JSON encoding and server errors are not part of this model.
 */
module Grist {
  import opened Results
  import opened Values
  import opened Dicts

  datatype Record = Record(id: int, fields: map<string, Value>)

  /** A Grist filter: column to acceptable values; columns are ANDed, values ORed. */
  type Filter = map<string, seq<Value>>

  /** One request to the store, as the call log records it. */
  datatype Call =
    | GetCall(table: string, filter: Filter, limit: int)
    | AddCall(table: string, fields: Dict<Value>)
    | UpdateCall(table: string, id: int, fields: Dict<Value>)

  /** The store's contents: tables by name, and the id the next added record gets. */
  datatype Db = Db(tables: map<string, seq<Record>>, nextId: int)

  function Rows(db: Db, table: string): seq<Record>
  {
    if table in db.tables then db.tables[table] else []
  }

  predicate Matches(r: Record, filter: Filter)
  {
    forall c :: c in filter ==> c in r.fields && r.fields[c] in filter[c]
  }

  /** What `get(..., limit=1)` answers: the first matching record, or None if no record matches. */
  function FirstMatch(rows: seq<Record>, filter: Filter): (r: Option<Record>)
    ensures r.None? <==> forall i :: 0 <= i < |rows| ==> !Matches(rows[i], filter)
    ensures r.Some? ==> exists i :: 0 <= i < |rows| && rows[i] == r.value && Matches(rows[i], filter)
                                    && forall j :: 0 <= j < i ==> !Matches(rows[j], filter)
  {
    if rows == [] then None
    else if Matches(rows[0], filter) then Some(rows[0])
    else
      var r := FirstMatch(rows[1..], filter);
      assert forall i :: 1 <= i < |rows| ==> rows[i] == rows[1..][i - 1];
      r
  }

  /** The rows of a table after `update(table, id, patch)`: the record with that id gets the patch's columns. */
  function Patched(rows: seq<Record>, id: int, patch: map<string, Value>): seq<Record>
  {
    seq(|rows|, i requires 0 <= i < |rows| =>
      if rows[i].id == id then Record(id, rows[i].fields + patch) else rows[i])
  }

  /** What a call does to the store. */
  function Effect(db: Db, call: Call): (r: Db)
    ensures call.GetCall? ==> r == db
    ensures r.nextId == if call.AddCall? then db.nextId + 1 else db.nextId
    ensures forall t :: t in r.tables <==> t in db.tables || (call.AddCall? && t == call.table)
    ensures forall t :: t in db.tables && t != call.table ==> r.tables[t] == db.tables[t]
  {
    match call
    case GetCall(_, _, _) => db
    case AddCall(t, f) =>
      Db(db.tables[t := Rows(db, t) + [Record(db.nextId, ToMap(f))]], db.nextId + 1)
    case UpdateCall(t, id, f) =>
      if t in db.tables then Db(db.tables[t := Patched(db.tables[t], id, ToMap(f))], db.nextId) else db
  }

  /** Every stored record has an id below the next one to be given out, as a store that numbers records upwards keeps. */
  ghost predicate IdsBelow(db: Db)
  {
    forall t, i :: t in db.tables && 0 <= i < |db.tables[t]| ==> db.tables[t][i].id < db.nextId
  }

  /** Every call keeps the ids below the next one and never hands out an id twice. */
  lemma EffectKeepsIdsBelow(db: Db, call: Call)
    requires IdsBelow(db)
    ensures IdsBelow(Effect(db, call))
    ensures db.nextId <= Effect(db, call).nextId
  {
    match call
    case GetCall(_, _, _) =>
    case AddCall(t, f) =>
      var r := Effect(db, call);
      forall u, i | u in r.tables && 0 <= i < |r.tables[u]|
        ensures r.tables[u][i].id < r.nextId
      {
        if u == t && i < |Rows(db, t)| {
          assert r.tables[u][i] == db.tables[t][i];
        } else if u != t {
          assert r.tables[u] == db.tables[u];
        }
      }
    case UpdateCall(t, id, f) =>
      var r := Effect(db, call);
      forall u, i | u in r.tables && 0 <= i < |r.tables[u]|
        ensures r.tables[u][i].id < r.nextId
      {
        if u == t {
          assert r.tables[u][i].id == db.tables[t][i].id;
        } else {
          assert r.tables[u] == db.tables[u];
        }
      }
  }

  /** `add` appends one record, with the next id, at the end of its table. */
  lemma AddAppends(db: Db, table: string, fields: Dict<Value>)
    ensures Rows(Effect(db, AddCall(table, fields)), table) == Rows(db, table) + [Record(db.nextId, ToMap(fields))]
    ensures Effect(db, AddCall(table, fields)).nextId == db.nextId + 1
  {
  }

  /** The record `add` appends carries the id it answers, and no older record of the table has that id. */
  lemma AddedIdFresh(db: Db, table: string, fields: Dict<Value>)
    requires IdsBelow(db)
    ensures var rows := Rows(Effect(db, AddCall(table, fields)), table);
      && rows == Rows(db, table) + [Record(db.nextId, ToMap(fields))]
      && forall i :: 0 <= i < |rows| - 1 ==> rows[i].id != db.nextId
  {
    var rows := Rows(Effect(db, AddCall(table, fields)), table);
    forall i | 0 <= i < |rows| - 1
      ensures rows[i].id != db.nextId
    {
      assert rows[i] == db.tables[table][i];
    }
  }

  /** `update` rewrites the given columns of the record with that id, keeps its other columns, and leaves every other record and table alone. */
  lemma UpdatePatchesRecord(db: Db, table: string, id: int, fields: Dict<Value>)
    requires table in db.tables
    ensures var after := Effect(db, UpdateCall(table, id, fields));
      && after.nextId == db.nextId
      && after.tables.Keys == db.tables.Keys
      && (forall t :: t in db.tables && t != table ==> after.tables[t] == db.tables[t])
      && |after.tables[table]| == |db.tables[table]|
      && forall i :: 0 <= i < |db.tables[table]| ==>
           var was, now := db.tables[table][i], after.tables[table][i];
           && now.id == was.id
           && (was.id != id ==> now == was)
           && (was.id == id ==>
                 && (forall c :: c in Keys(fields) ==> c in now.fields && now.fields[c] == Get(fields, c))
                 && (forall c :: c in was.fields && c !in Keys(fields) ==> c in now.fields && now.fields[c] == was.fields[c]))
  {
  }

  /** The store client, with a log of every call made through it. */
  class Store {
    var tables: map<string, seq<Record>>
    var nextId: int
    ghost var calls: seq<Call>

    function State(): Db
      reads this
    {
      Db(tables, nextId)
    }

    constructor (db: Db)
      ensures State() == db && calls == []
    {
      tables, nextId := db.tables, db.nextId;
      calls := [];
    }

    /** `get(table, filter=filter, limit=1)` */
    method GetFirst(table: string, filter: Filter) returns (r: Option<Record>)
      modifies this`calls
      ensures r == FirstMatch(Rows(State(), table), filter)
      ensures calls == old(calls) + [GetCall(table, filter, 1)]
    {
      r := FirstMatch(Rows(State(), table), filter);
      calls := calls + [GetCall(table, filter, 1)];
    }

    /** `add(table, fields)`: answers the new record's id. */
    method Add(table: string, fields: Dict<Value>) returns (id: int)
      modifies this
      ensures id == old(nextId)
      ensures State() == Effect(old(State()), AddCall(table, fields))
      ensures calls == old(calls) + [AddCall(table, fields)]
    {
      id := nextId;
      tables := tables[table := Rows(State(), table) + [Record(id, ToMap(fields))]];
      nextId := nextId + 1;
      calls := calls + [AddCall(table, fields)];
    }

    /** `update(table, id, fields)` */
    method Update(table: string, id: int, fields: Dict<Value>)
      modifies this
      ensures State() == Effect(old(State()), UpdateCall(table, id, fields))
      ensures calls == old(calls) + [UpdateCall(table, id, fields)]
    {
      if table in tables {
        tables := tables[table := Patched(tables[table], id, ToMap(fields))];
      }
      calls := calls + [UpdateCall(table, id, fields)];
    }
  }
}
