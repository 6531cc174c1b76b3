/**
 * The sleep table as the view model reaches it: insert, update, clear,
 * "tonight" (the newest night) and the list of all nights.
 *
 * The data-access object's queries are not part of this model; what each
 * call does is stated here as an assumption about the table:
 * - insert numbers a night it is given with key 0 by the next key of an
 *   auto-increment counter that clearing the table does not reset;
 * - update overwrites the row that has the given night's key, and changes
 *   nothing when no row has it;
 * - getTonight returns, as a new object, the row with the greatest key, or
 *   nothing when the table is empty.
 */
module SleepDatabase {
  import opened SleepData

  /** Keys grow along the table; in particular no two rows share a key. */
  predicate IdsIncreasing(rows: seq<SleepNight>) {
    forall i, j :: 0 <= i < j < |rows| ==> rows[i].nightId < rows[j].nightId
  }

  /** The row with the greatest key (what `getTonight` returns), or none for an empty table. */
  function NewestNight(rows: seq<SleepNight>): (r: Option<SleepNight>)
    ensures r.None? <==> rows == []
    ensures r.Some? ==> r.value in rows
    ensures r.Some? ==> forall x :: x in rows ==> x.nightId <= r.value.nightId
  {
    if rows == [] then None
    else
      match NewestNight(rows[1..])
      case None => Some(rows[0])
      case Some(n) => if n.nightId > rows[0].nightId then Some(n) else Some(rows[0])
  }

  /** With distinct keys, the newest night is the one row whose key no other row exceeds. */
  lemma NewestIsUnique(rows: seq<SleepNight>, x: SleepNight)
    requires IdsIncreasing(rows)
    requires x in rows
    requires forall y :: y in rows ==> y.nightId <= x.nightId
    ensures NewestNight(rows) == Some(x)
  {
    var n := NewestNight(rows).value;
    var i :| 0 <= i < |rows| && rows[i] == x;
    var j :| 0 <= j < |rows| && rows[j] == n;
    assert rows[i].nightId == rows[j].nightId;
    assert i == j;
  }

  /** Because keys grow along the table, the newest night is its last row. */
  lemma NewestIsLast(rows: seq<SleepNight>)
    requires IdsIncreasing(rows)
    requires rows != []
    ensures NewestNight(rows) == Some(rows[|rows| - 1])
  {
    var last := rows[|rows| - 1];
    forall y | y in rows
      ensures y.nightId <= last.nightId
    {
      var k :| 0 <= k < |rows| && rows[k] == y;
      assert k < |rows| - 1 ==> rows[k].nightId < last.nightId;
    }
    NewestIsUnique(rows, last);
  }

  /**
   * The table after `update(night)`: every row keyed like `night` is
   * overwritten by it, every other row stays as it was, and no row moves.
   */
  function UpdateRows(rows: seq<SleepNight>, night: SleepNight): (r: seq<SleepNight>)
    ensures |r| == |rows|
    ensures forall i :: 0 <= i < |rows| ==> r[i].nightId == rows[i].nightId
    ensures forall i :: 0 <= i < |rows| && rows[i].nightId == night.nightId ==> r[i] == night
    ensures forall i :: 0 <= i < |rows| && rows[i].nightId != night.nightId ==> r[i] == rows[i]
  {
    if rows == [] then []
    else [if rows[0].nightId == night.nightId then night else rows[0]] + UpdateRows(rows[1..], night)
  }

  /** With distinct keys, an update of a stored key replaces exactly that one row. */
  lemma UpdateReplacesOne(rows: seq<SleepNight>, k: int, night: SleepNight)
    requires IdsIncreasing(rows)
    requires 0 <= k < |rows| && rows[k].nightId == night.nightId
    ensures UpdateRows(rows, night) == rows[k := night]
  {
    var r := UpdateRows(rows, night);
    forall i | 0 <= i < |rows|
      ensures r[i] == rows[k := night][i]
    {
      assert rows[i].nightId == night.nightId ==> i == k;
    }
  }

  /** An update of a key the table does not hold leaves the table as it was. */
  lemma UpdateOfMissingKey(rows: seq<SleepNight>, night: SleepNight)
    requires forall x :: x in rows ==> x.nightId != night.nightId
    ensures UpdateRows(rows, night) == rows
  {
    var r := UpdateRows(rows, night);
    forall i | 0 <= i < |rows|
      ensures r[i] == rows[i]
    {
      assert rows[i] in rows;
    }
  }

  /** The sleep table and the auto-increment counter behind its keys. */
  class SleepDatabaseDao {
    var rows: seq<SleepNight>
    var lastId: nat

    /** Keys grow along the table, are positive, and were all handed out by the counter. */
    ghost predicate Valid()
      reads this
    {
      && IdsIncreasing(rows)
      && forall i :: 0 <= i < |rows| ==> 0 < rows[i].nightId <= lastId
    }

    constructor ()
      ensures Valid() && rows == [] && lastId == 0
    {
      rows := [];
      lastId := 0;
    }

    /** `getAllNights`: every stored night. */
    function GetAllNights(): seq<SleepNight>
      reads this
    {
      rows
    }

    /** `insert`: stores an unnumbered `night` under the next key of the counter. */
    method Insert(night: SleepNight)
      requires Valid()
      requires night.nightId == UnassignedId
      modifies this
      ensures Valid()
      ensures lastId == old(lastId) + 1
      ensures rows == old(rows) + [night.(nightId := lastId)]
    {
      lastId := lastId + 1;
      rows := rows + [night.(nightId := lastId)];
    }

    /** `update`: overwrites the row stored under `night`'s key. */
    method Update(night: SleepNight)
      requires Valid()
      modifies this
      ensures Valid()
      ensures lastId == old(lastId)
      ensures rows == UpdateRows(old(rows), night)
    {
      rows := UpdateRows(rows, night);
    }

    /** `clear`: deletes every night; the counter keeps its value. */
    method Clear()
      requires Valid()
      modifies this
      ensures Valid()
      ensures lastId == old(lastId) && rows == []
    {
      rows := [];
    }

    /** `getTonight`: a new object holding the newest night, or null for an empty table. */
    method GetTonight() returns (night: NightEntity?)
      ensures night == null <==> rows == []
      ensures night != null ==> fresh(night) && Some(night.Value()) == NewestNight(rows)
    {
      var newest := NewestNight(rows);
      if newest.None? {
        night := null;
      } else {
        night := new NightEntity(newest.value);
      }
    }
  }
}
