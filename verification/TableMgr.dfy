/** The registry of tables, which hands out table ids and takes them back. */
module TableManagement {
  import opened Lists
  import opened Clocks
  import opened Tables

  // --------------------------------------------------------------------------
  // Ids as text
  // --------------------------------------------------------------------------

  function Digit(n: nat): char
    requires n < 10
  {
    '0' + n as char
  }

  function IntToString(n: nat): string {
    (if n < 10 then [] else IntToString(n / 10)) + [Digit(n % 10)]
  }

  /** atoi on text without sign or leading blanks: the number before the first non-digit. */
  function StringToInt(s: string, sofar: nat := 0): nat
    decreases |s|
  {
    if s == [] || !('0' <= s[0] <= '9') then sofar
    else StringToInt(s[1..], 10 * sofar + (s[0] as int - '0' as int))
  }

  lemma {:induction false} DigitsFirst(n: nat, rest: string)
    ensures StringToInt(IntToString(n) + rest) == StringToInt(rest, n)
    decreases n
  {
    var tail := [Digit(n % 10)] + rest;
    if n < 10 {
      assert IntToString(n) + rest == tail;
    } else {
      DigitsFirst(n / 10, tail);
      assert IntToString(n) + rest == IntToString(n / 10) + tail;
    }
    assert tail[1..] == rest;
  }

  lemma IdRoundTrip(n: nat)
    ensures StringToInt(IntToString(n)) == n
  {
    DigitsFirst(n, []);
    assert IntToString(n) + [] == IntToString(n);
  }

  // --------------------------------------------------------------------------
  // The registry
  // --------------------------------------------------------------------------

  /** Every number up to the count is either the id of one table or free, and never both. */
  ghost predicate Partitioned(tables: map<string, Table>, free: seq<nat>) {
    var n := |tables| + |free|;
    && NoDup(free)
    && (forall i :: i in free ==> 1 <= i <= n)
    && (forall k :: k in tables ==> tables[k].id == k && 1 <= StringToInt(k) <= n && IntToString(StringToInt(k)) == k)
    && (forall i: nat {:trigger IntToString(i)} :: 1 <= i <= n ==> (i in free <==> IntToString(i) !in tables))
  }

  /** The partition after an id was handed out. */
  lemma HandedOut(tables: map<string, Table>, free: seq<nat>, table: Table, n: nat, free': seq<nat>)
    requires Partitioned(tables, free)
    requires table.id == IntToString(n)
    requires if free == [] then n == |tables| + 1 && free' == [] else n == free[0] && free' == free[1..]
    ensures table.id !in tables && Partitioned(tables[table.id := table], free')
  {
    hide IntToString, StringToInt;
    IdRoundTrip(n);
    if free != [] {
      assert free == [n] + free';
      assert n in free;
    }
    var tables' := tables[table.id := table];
    assert table.id !in tables;
    assert |tables'| == |tables| + 1;
    assert NoDup(free') && n !in free';
    assert forall i :: i in free' ==> i in free;
    forall i: nat {:trigger IntToString(i)} | 1 <= i <= |tables'| + |free'|
      ensures i in free' <==> IntToString(i) !in tables'
    {
      IdRoundTrip(i);
    }
  }

  class TableMgr {
    var tableMap: map<string, Table>
    var freeIdList: seq<nat>

    ghost predicate Valid()
      reads this
    {
      Partitioned(tableMap, freeIdList)
    }

    constructor ()
      ensures Valid() && tableMap == map[] && freeIdList == []
    {
      tableMap, freeIdList := map[], [];
    }

    method GenerateNewTableId() returns (id: string, ghost n: nat)
      requires Valid()
      modifies this`freeIdList
      ensures id == IntToString(n)
      ensures if old(freeIdList) == [] then n == |tableMap| + 1 && freeIdList == []
              else n == old(freeIdList)[0] && freeIdList == old(freeIdList)[1..]
    {
      hide Partitioned, IntToString;
      var newId: nat;
      if |freeIdList| == 0 {
        newId := |tableMap| + 1;
      } else {
        newId := freeIdList[0];
        freeIdList := freeIdList[1..];
      }
      id, n := IntToString(newId), newId;
    }

    /** The new table never displaces another. */
    method CreateTable(initialTime: TimeInfo, ghost players: set<Player>) returns (table: Table)
      requires Valid() && Linked(players, tableMap.Values)
      modifies this`tableMap, this`freeIdList
      ensures Linked(players, tableMap.Values) && tableMap.Values == old(tableMap.Values) + {table}
      ensures fresh(table.board) && fresh(table.board.cells) && fresh(table.board.roster) && table.times == []
      ensures Valid() && fresh(table) && table.Valid() && table.allPlayers == []
      ensures table.id !in old(tableMap) && tableMap == old(tableMap)[table.id := table]
    {
      hide Table.Valid, Partitioned, IntToString;
      var id, n := GenerateNewTableId();
      table := new Table(id, initialTime);
      HandedOut(tableMap, old(freeIdList), table, n, freeIdList);
      NewTableLinked(players, tableMap.Values, table);
      NewValue(tableMap, id, table);
      tableMap := tableMap[id := table];
    }

    static lemma NewValue(tables: map<string, Table>, id: string, table: Table)
      requires id !in tables
      ensures tables[id := table].Values == tables.Values + {table}
    {
      var longer := tables[id := table];
      assert forall k :: k in tables ==> longer[k] == tables[k];
      assert longer[id] == table;
    }

    /** A table nobody is at or knows of links to nobody. */
    static lemma NewTableLinked(players: set<Player>, registered: set<Table>, table: Table)
      requires Linked(players, registered) && table.allPlayers == [] && forall p :: p in players ==> table !in p.tables
      ensures Linked(players, registered + {table})
    {
    }

    /** Takes a table off the registry and frees its id. */
    method Purge(tableId: string)
      requires Valid() && tableId in tableMap
      modifies this`tableMap, this`freeIdList
      ensures Valid() && tableMap == old(tableMap) - {tableId}
      ensures freeIdList == old(freeIdList) + [StringToInt(tableId)]
    {
      hide IntToString, StringToInt;
      var n := StringToInt(tableId);
      assert IntToString(n) == tableId && n !in freeIdList;
      tableMap := tableMap - {tableId};
      freeIdList := freeIdList + [n];
      assert |tableMap| == |old(tableMap)| - 1;
      forall i: nat {:trigger IntToString(i)} | 1 <= i <= |tableMap| + |freeIdList|
        ensures i in freeIdList <==> IntToString(i) !in tableMap
      {
        IdRoundTrip(i);
      }
    }

    method DeleteTable(tableId: string) returns (found: bool)
      requires Valid()
      modifies this`tableMap, this`freeIdList
      ensures Valid() && (found <==> tableId in old(tableMap)) && tableMap == old(tableMap) - {tableId}
    {
      if tableId !in tableMap {
        assert tableMap - {tableId} == tableMap;
        return false;
      }
      Purge(tableId);
      return true;
    }

    /** Purges exactly the tables nobody is at.  The ids are visited in any order. */
    method RunCleanup(ghost players: set<Player>)
      requires Valid() && Linked(players, tableMap.Values)
      modifies this`tableMap, this`freeIdList
      ensures Valid() && Linked(players, tableMap.Values) && tableMap.Values <= old(tableMap.Values)
      ensures tableMap == map k | k in old(tableMap) && old(tableMap)[k].allPlayers != [] :: old(tableMap)[k]
    {
      hide Partitioned, StringToInt;
      var todo := tableMap.Keys;
      while todo != {}
        invariant Valid()
        invariant todo <= tableMap.Keys
        invariant forall k :: k in tableMap ==> k in old(tableMap) && tableMap[k] == old(tableMap)[k]
        invariant forall k :: k in old(tableMap) && (k in todo || old(tableMap)[k].allPlayers != []) ==> k in tableMap
        invariant forall k :: k in tableMap && k !in todo ==> tableMap[k].allPlayers != []
        decreases todo
      {
        var k :| k in todo;
        if tableMap[k].allPlayers == [] {
          Purge(k);
        }
        todo := todo - {k};
      }
      EmptyOnesGone(old(tableMap), tableMap);
      CleanupKeepsLinks(players, old(tableMap.Values), tableMap.Values);
    }

    static lemma EmptyOnesGone(before: map<string, Table>, after: map<string, Table>)
      requires after == map k | k in before && before[k].allPlayers != [] :: before[k]
      ensures after.Values <= before.Values
      ensures forall t :: t in before.Values && t !in after.Values ==> t.allPlayers == []
    {
      forall t | t in before.Values && t.allPlayers != []
        ensures t in after.Values
      {
        var k :| k in before && before[k] == t;
        assert after[k] == t;
      }
    }

    /** Cleaning up cuts no player off from a table he is at. */
    lemma CleanupKeepsLinks(players: set<Player>, before: set<Table>, after: set<Table>)
      requires Linked(players, before) && after <= before
      requires forall t :: t in before && t !in after ==> t.allPlayers == []
      ensures Linked(players, after)
    {
    }
  }
}
