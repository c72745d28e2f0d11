/**
The symbol tables of the code generator: a flat map from scope ids to tables, searched downwards.
They are shown to behave like a stack of nested scopes as long as no id above the current scope is
in use.
*/
module SymbolTables {
  import opened Types
  import opened Semantics

  type Tables = map<nat, Scope>

  /** The declaration found when tables are searched from id n down to the globals. */
  function FindBelow(tables: Tables, key: Key, n: nat): Option<Var> {
    if n in tables && key in tables[n] then Some(tables[n][key])
    else if n == 0 then None
    else FindBelow(tables, key, n - 1)
  }

  /** The nested scopes that the tables 1 to n stand for. */
  function Nested(tables: Tables, n: nat): (s: seq<Scope>)
    ensures |s| == n
  {
    seq(n, i requires 0 <= i < n => if i + 1 in tables then tables[i + 1] else map[])
  }

  /** No table belongs to a scope deeper than the current one. */
  ghost predicate NoneAbove(tables: Tables, n: nat) {
    forall id | id in tables :: id <= n
  }

  /** The global table holds tokens; the names of locals never reach it. */
  ghost predicate GlobalTokens(tables: Tables) {
    0 in tables && forall key | key in tables[0] :: key.Token?
  }

  /** The largest id in use that is no larger than n. */
  function Floor(tables: Tables, n: nat): (id: nat)
    requires 0 in tables
    ensures id in tables && id <= n && forall k | k in tables && k <= n :: k <= id
  {
    if n in tables then n else Floor(tables, n - 1)
  }

  /** Ids that are not in use are skipped by a search. */
  lemma {:induction false} FindAtFloor(tables: Tables, key: Key, n: nat)
    requires 0 in tables
    ensures FindBelow(tables, key, n) == FindBelow(tables, key, Floor(tables, n))
  {
    if n !in tables { FindAtFloor(tables, key, n - 1); }
  }

  /** The search of the flat tables finds what a search of the nested scopes finds. */
  lemma {:induction false} FlatIsNested(tables: Tables, key: Key, n: nat)
    requires GlobalTokens(tables) && key.Name?
    ensures FindBelow(tables, key, n) == Lookup(Nested(tables, n), key)
  {
    if n > 0 {
      var scopes := Nested(tables, n);
      assert scopes[..n - 1] == Nested(tables, n - 1);
      FlatIsNested(tables, key, n - 1);
    }
  }

  /** A search that starts too high finds the same as long as nothing is stored up there. */
  lemma {:induction false} FindFromTop(tables: Tables, key: Key, n: nat, top: nat)
    requires NoneAbove(tables, n) && n <= top
    ensures FindBelow(tables, key, top) == FindBelow(tables, key, n)
  {
    if n < top { FindFromTop(tables, key, n, top - 1); }
  }

  class SymbolTableBlocks {
    var tables: Tables

    ghost predicate Valid()
      reads this
    {
      0 in tables
    }

    constructor ()
      ensures Valid() && tables == map[0 := map[]]
    {
      tables := map[0 := map[]];
    }

    /** Erasing the globals is a runtime error, reported as None. */
    method Erase(index: nat) returns (existed: Option<bool>)
      requires Valid()
      modifies this
      ensures Valid()
      ensures tables == if index == 0 then old(tables) else old(tables) - {index}
      ensures existed == if index == 0 then None else Some(index in old(tables))
    {
      if index == 0 {
        return None;
      }
      existed := Some(index in tables);
      tables := tables - {index};
    }

    /** Insert into the table with this id, creating the table when there is none. Returns false and
        keeps the old declaration when the key is already in that table. */
    method Insert(index: nat, key: Key, v: Var) returns (inserted: bool)
      requires Valid()
      modifies this
      ensures Valid()
      ensures var was := if index in old(tables) then old(tables)[index] else map[];
              inserted == (key !in was) &&
              tables == old(tables)[index := if inserted then was[key := v] else was]
    {
      if index !in tables {
        tables := tables[index := map[]];
      }
      inserted := key !in tables[index];
      if inserted {
        tables := tables[index := tables[index][key := v]];
      }
    }

    /** Make sure that a table with this id exists. */
    method GetOrInsert(index: nat)
      requires Valid()
      modifies this
      ensures Valid() && tables == if index in old(tables) then old(tables) else old(tables)[index := map[]]
    {
      if index !in tables {
        tables := tables[index := map[]];
      }
    }

    /** Look in one table only. */
    method Get(index: nat, key: Key) returns (v: Option<Var>)
      ensures v == if index in tables && key in tables[index] then Some(tables[index][key]) else None
    {
      v := None;
      if index in tables && key in tables[index] {
        v := Some(tables[index][key]);
      }
    }

    /** Search from a start index downwards. When that table does not exist the search begins at the
        next smaller one. */
    method FindFrom(key: Key, start: nat) returns (v: Option<Var>)
      requires Valid()
      ensures v == FindBelow(tables, key, start)
    {
      var id := Floor(tables, start);
      FindAtFloor(tables, key, start);
      while id > 0 && key !in tables[id]
        invariant id in tables
        invariant FindBelow(tables, key, id) == FindBelow(tables, key, start)
      {
        FindAtFloor(tables, key, id - 1);
        id := Floor(tables, id - 1);
      }
      v := Get(id, key);
    }

    /** The largest id in use. */
    method LastId() returns (last: nat)
      requires Valid()
      ensures last in tables && NoneAbove(tables, last)
    {
      last := 0;
      var ids := tables.Keys;
      while ids != {}
        invariant ids <= tables.Keys && last in tables
        invariant forall id | id in tables :: id in ids || id <= last
        decreases |ids|
      {
        var id :| id in ids;
        ids := ids - {id};
        if last < id {
          last := id;
        }
      }
    }

    /** Search all tables, innermost first. With no table above scope n this is the lookup in n nested
        scopes. */
    method Find(key: Key, ghost n: nat) returns (v: Option<Var>)
      requires Valid() && NoneAbove(tables, n) && GlobalTokens(tables) && key.Name?
      ensures v == Lookup(Nested(tables, n), key)
    {
      var last := LastId();
      v := FindFrom(key, last);
      FindFromTop(tables, key, last, n);
      FlatIsNested(tables, key, n);
    }

    /** Replace the innermost declaration of a key; nothing happens when there is none. */
    method Replace(key: Key, v: Var) returns (replaced: bool)
      requires Valid()
      modifies this
      ensures Valid() && tables.Keys == old(tables).Keys
      ensures replaced <==> exists id | id in old(tables) :: key in old(tables)[id]
      ensures forall id | id in tables ::
                tables[id] == if replaced && key in old(tables)[id] && InnermostAt(old(tables), key, id)
                              then old(tables)[id][key := v] else old(tables)[id]
    {
      var id := LastId();
      while id > 0 && key !in tables[id]
        invariant id in tables && forall k | k in tables && k > id :: key !in tables[k]
      {
        id := Floor(tables, id - 1);
      }
      replaced := key in tables[id];
      if replaced {
        tables := tables[id := tables[id][key := v]];
      }
    }
  }

  /** No deeper table declares the key. */
  ghost predicate InnermostAt(tables: Tables, key: Key, id: nat) {
    forall k | k in tables && k > id :: key !in tables[k]
  }
}
