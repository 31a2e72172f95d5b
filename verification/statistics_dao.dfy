/**
 * `RunningStatisticsDao`: the `running_statistics` table. Its `id` is an `AUTOINCREMENT` key: a row
 * inserted with id 0 gets one more than the largest id the table has ever handed out, which
 * `lastId` records and which deleting rows does not lower.
 */
module StatisticsDao {
  import opened Common
  import opened Entities
  import opened KeyedRows
  import opened Aggregates
  import opened Ordering

  function LastUpdated(s: RunningStatisticsEntity): int { s.lastUpdated }

  /** The `UPDATE ... SET lastUpdated = :timestamp WHERE id = :id` effect on one row. */
  function Stamping(id: int, timestamp: int): RunningStatisticsEntity -> RunningStatisticsEntity
  {
    (x: RunningStatisticsEntity) => if x.id == id then x.(lastUpdated := timestamp) else x
  }

  /** The id a row is stored under: its own, or the next `AUTOINCREMENT` value when it is 0. */
  function AssignedId(id: int, lastId: int): (rowId: int)
    requires lastId >= 0
    ensures rowId != 0
    ensures id != 0 ==> rowId == id
    ensures id == 0 ==> rowId > lastId
  {
    if id == 0 then lastId + 1 else id
  }

  /** `... ORDER BY lastUpdated DESC LIMIT 1`: a most recently updated row, or null on an empty table. */
  function GetLatestStatistics(rows: seq<RunningStatisticsEntity>): (r: Option<RunningStatisticsEntity>)
    ensures r.None? <==> rows == []
    ensures r.Some? ==> r.value in rows && forall s :: s in rows ==> s.lastUpdated <= r.value.lastUpdated
  {
    var newest := Limit(SortDescending(rows, LastUpdated), 1);
    if newest == [] then None else Some(newest[0])
  }

  /** `SELECT * ... WHERE id = :id`: the row with that id, or null. */
  function GetStatisticsById(rows: seq<RunningStatisticsEntity>, id: int): (r: Option<RunningStatisticsEntity>)
    ensures r.Some? ==> r.value in rows && r.value.id == id
    ensures r.None? ==> forall s :: s in rows ==> s.id != id
  {
    Lookup(rows, StatisticsKey, id)
  }

  class RunningStatisticsDao {
    var rows: seq<RunningStatisticsEntity>
    var lastId: int

    /** Ids are unique and never 0, and no id exceeds the last one handed out. */
    ghost predicate Valid()
      reads this
    {
      && UniqueKeys(rows, StatisticsKey)
      && lastId >= 0
      && forall s :: s in rows ==> s.id != 0 && s.id <= lastId
    }

    constructor ()
      ensures Valid() && rows == [] && lastId == 0
    {
      rows := [];
      lastId := 0;
    }

    /**
     * Room `Insert` with `REPLACE`: the row is stored under its id, replacing any row with that id, or under a
     * fresh id when its id is 0; every other row stays.
     */
    method InsertStatistics(statistics: RunningStatisticsEntity) returns (id: int)
      requires Valid()
      modifies this
      ensures Valid()
      ensures id == AssignedId(statistics.id, old(lastId))
      ensures rows == Upsert(old(rows), StatisticsKey, statistics.(id := id))
      ensures lastId == if id > old(lastId) then id else old(lastId)
      ensures GetStatisticsById(rows, id) == Some(statistics.(id := id))
      ensures forall k :: k != id ==> GetStatisticsById(rows, k) == GetStatisticsById(old(rows), k)
    {
      id := AssignedId(statistics.id, lastId);
      var stored := statistics.(id := id);
      forall k | true
        ensures Lookup(Upsert(rows, StatisticsKey, stored), StatisticsKey, k)
                == if k == id then Some(stored) else Lookup(rows, StatisticsKey, k)
      {
        UpsertLookup(rows, StatisticsKey, stored, k);
      }
      rows := Upsert(rows, StatisticsKey, stored);
      if id > lastId {
        lastId := id;
      }
    }

    /** Room `Update`: the row with the same id becomes `statistics`; with no such row nothing changes. */
    method UpdateStatistics(statistics: RunningStatisticsEntity)
      requires Valid()
      modifies this
      ensures Valid() && lastId == old(lastId)
      ensures rows == Column(old(rows), Replacing(StatisticsKey, statistics))
      ensures GetStatisticsById(old(rows), statistics.id).Some? ==> GetStatisticsById(rows, statistics.id) == Some(statistics)
      ensures GetStatisticsById(old(rows), statistics.id).None? ==> rows == old(rows)
    {
      ColumnUnique(rows, Replacing(StatisticsKey, statistics), StatisticsKey);
      var updated := Column(rows, Replacing(StatisticsKey, statistics));
      if Lookup(rows, StatisticsKey, statistics.id).Some? {
        var j :| 0 <= j < |rows| && rows[j] == Lookup(rows, StatisticsKey, statistics.id).value;
        assert updated[j] == statistics;
        LookupUnique(updated, StatisticsKey, statistics);
      } else {
        assert updated == rows;
      }
      rows := updated;
    }

    /** `DELETE FROM running_statistics`: the table is empty; the id sequence is not reset. */
    method DeleteAllStatistics()
      requires Valid()
      modifies this
      ensures Valid() && rows == [] && lastId == old(lastId)
    {
      rows := [];
    }

    /** `UPDATE ... SET lastUpdated`: only that row's `lastUpdated` changes. */
    method UpdateLastUpdated(id: int, timestamp: int)
      requires Valid()
      modifies this
      ensures Valid() && lastId == old(lastId)
      ensures rows == Column(old(rows), Stamping(id, timestamp))
      ensures |rows| == |old(rows)|
      ensures forall i :: 0 <= i < |rows| && old(rows)[i].id != id ==> rows[i] == old(rows)[i]
      ensures forall i :: 0 <= i < |rows| && old(rows)[i].id == id ==>
                rows[i] == old(rows)[i].(lastUpdated := timestamp)
    {
      ColumnUnique(rows, Stamping(id, timestamp), StatisticsKey);
      rows := Column(rows, Stamping(id, timestamp));
    }
  }
}
