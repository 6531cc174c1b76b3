/**
 * The sleep-tracker screen's view model: the night being tracked
 * ("tonight"), the one-shot events it raises for the screen, the three
 * button-visibility flags derived from its state, and the START, STOP and
 * CLEAR handlers.
 *
 * Each handler runs as one atomic step; the current time is a parameter.
 */
module SleepTracker {
  import opened SleepData
  import opened SleepDatabase

  /** START is offered exactly when no night is being tracked. */
  predicate StartButtonVisible(tonight: NightEntity?) {
    tonight == null
  }

  /** STOP is offered exactly when a night is being tracked. */
  predicate StopButtonVisible(tonight: NightEntity?) {
    tonight != null
  }

  /** CLEAR is offered exactly when there is at least one stored night. */
  predicate ClearButtonVisible(nights: seq<SleepNight>) {
    |nights| > 0
  }

  /** In every state exactly one of START and STOP is offered. */
  lemma StartStopExclusive(tonight: NightEntity?)
    ensures StartButtonVisible(tonight) <==> !StopButtonVisible(tonight)
  {
  }

  /**
   * What reloading "tonight" yields for a table: the newest night when it
   * is still in progress, and nothing when the table is empty or its newest
   * night has ended.
   */
  function TonightRow(rows: seq<SleepNight>): (r: Option<SleepNight>)
    ensures rows == [] ==> r.None?
    ensures r.Some? ==> r.value in rows && InProgress(r.value)
    ensures r.Some? ==> forall x :: x in rows ==> x.nightId <= r.value.nightId
  {
    var night := NewestNight(rows);
    if night.Some? && night.value.endTimeMilli != night.value.startTimeMilli then None else night
  }

  /** Reloading finds the newest night exactly when that night is still in progress. */
  lemma TonightRowOfNewest(rows: seq<SleepNight>, newest: SleepNight)
    requires IdsIncreasing(rows)
    requires newest in rows
    requires forall y :: y in rows ==> y.nightId <= newest.nightId
    ensures TonightRow(rows) == if InProgress(newest) then Some(newest) else None
  {
    NewestIsUnique(rows, newest);
  }

  /** A night started after every stored one is what the next reload finds. */
  lemma ReloadAfterStart(rows: seq<SleepNight>, night: SleepNight)
    requires IdsIncreasing(rows)
    requires forall y :: y in rows ==> y.nightId < night.nightId
    requires InProgress(night)
    ensures IdsIncreasing(rows + [night])
    ensures TonightRow(rows + [night]) == Some(night)
  {
    var table := rows + [night];
    forall i, j | 0 <= i < j < |table|
      ensures table[i].nightId < table[j].nightId
    {
      if j == |rows| {
        assert table[i] in rows;
      }
    }
    TonightRowOfNewest(table, night);
  }

  /**
   * Ending the newest night at an instant other than its start leaves no
   * night in progress for a later reload to find.
   */
  lemma ReloadAfterStop(rows: seq<SleepNight>, now: int)
    requires IdsIncreasing(rows) && rows != []
    requires now != rows[|rows| - 1].startTimeMilli
    ensures TonightRow(UpdateRows(rows, rows[|rows| - 1].(endTimeMilli := now))) == None
  {
    var k := |rows| - 1;
    var stopped := rows[k].(endTimeMilli := now);
    UpdateReplacesOne(rows, k, stopped);
    var table := rows[k := stopped];
    assert IdsIncreasing(table);
    NewestIsLast(table);
  }

  class SleepTrackerViewModel {
    const database: SleepDatabaseDao
    /** The night being tracked, or null. */
    var tonight: NightEntity?
    /** One-shot request to open the quality screen for a night; null when there is none. */
    var navigateToSleepQuality: NightEntity?
    /** One-shot request to show the "cleared" snackbar. */
    var showSnackbarEvent: bool

    /**
     * The table is well formed, and a tracked night is the table's newest
     * row as the view model currently sees it.
     */
    ghost predicate Valid()
      reads this, database, tonight
    {
      && database.Valid()
      && (tonight != null ==> database.rows != [] && tonight.Value() == database.rows[|database.rows| - 1])
    }

    /** Creates the view model over `database` and loads tonight from it. */
    constructor (database: SleepDatabaseDao)
      requires database.Valid()
      ensures Valid()
      ensures this.database == database
      ensures navigateToSleepQuality == null && !showSnackbarEvent
      ensures tonight == null <==> TonightRow(database.rows).None?
      ensures tonight != null ==> fresh(tonight) && Some(tonight.Value()) == TonightRow(database.rows)
    {
      this.database := database;
      tonight := null;
      navigateToSleepQuality := null;
      showSnackbarEvent := false;
      new;
      InitializeTonight();
    }

    /** `initializeTonight`: sets tonight to what a reload of the table yields. */
    method InitializeTonight()
      requires database.Valid()
      modifies this
      ensures Valid()
      ensures navigateToSleepQuality == old(navigateToSleepQuality)
      ensures showSnackbarEvent == old(showSnackbarEvent)
      ensures tonight == null <==> TonightRow(database.rows).None?
      ensures tonight != null ==> fresh(tonight) && Some(tonight.Value()) == TonightRow(database.rows)
    {
      tonight := GetTonightFromDatabase();
    }

    /**
     * `getTonightFromDatabase`: the newest night as a new object when it is
     * still in progress, otherwise null.
     */
    method GetTonightFromDatabase() returns (night: NightEntity?)
      requires database.Valid()
      ensures night == null <==> TonightRow(database.rows).None?
      ensures night != null ==> fresh(night) && Some(night.Value()) == TonightRow(database.rows)
      ensures night != null ==> database.rows != [] && night.Value() == database.rows[|database.rows| - 1]
    {
      night := database.GetTonight();
      if night != null && night.endTimeMilli != night.startTimeMilli {
        night := null;
      }
      if night != null {
        NewestIsLast(database.rows);
      }
    }

    /** `doneShowingSnackbar`: the snackbar request has been served. */
    method DoneShowingSnackbar()
      requires Valid()
      modifies this
      ensures Valid()
      ensures !showSnackbarEvent
      ensures tonight == old(tonight) && navigateToSleepQuality == old(navigateToSleepQuality)
    {
      showSnackbarEvent := false;
    }

    /** `doneNavigating`: the navigation request has been served. */
    method DoneNavigating()
      requires Valid()
      modifies this
      ensures Valid()
      ensures navigateToSleepQuality == null
      ensures tonight == old(tonight) && showSnackbarEvent == old(showSnackbarEvent)
    {
      navigateToSleepQuality := null;
    }

    /**
     * `onStartTracking`: stores a new night started at `now` and then
     * reloads tonight, which finds exactly that night.
     */
    method OnStartTracking(now: int)
      requires Valid()
      modifies this, database
      ensures Valid()
      ensures database.lastId == old(database.lastId) + 1
      ensures database.rows == old(database.rows) + [SleepNight(database.lastId, now, now, UnratedQuality)]
      ensures tonight != null && fresh(tonight)
      ensures tonight.Value() == SleepNight(database.lastId, now, now, UnratedQuality)
      ensures Some(tonight.Value()) == TonightRow(database.rows)
      ensures StopButtonVisible(tonight) && ClearButtonVisible(database.rows)
      ensures navigateToSleepQuality == old(navigateToSleepQuality)
      ensures showSnackbarEvent == old(showSnackbarEvent)
    {
      var newNight := NewNight(now);
      database.Insert(newNight);
      ReloadAfterStart(old(database.rows), database.rows[|database.rows| - 1]);
      tonight := GetTonightFromDatabase();
    }

    /**
     * `onStopTracking`: with no night tracked, nothing happens. Otherwise
     * the tracked object itself gets `now` as its end, the table row with its
     * key is overwritten by it, and the navigation request carries that
     * same object; tonight still refers to it.
     */
    method OnStopTracking(now: int)
      requires Valid()
      modifies this, database, tonight
      ensures Valid()
      ensures old(tonight) == null ==>
        && unchanged(this) && unchanged(database)
      ensures old(tonight) != null ==>
        && tonight == old(tonight)
        && tonight.Value() == old(tonight.Value()).(endTimeMilli := now)
        && database.rows == UpdateRows(old(database.rows), tonight.Value())
        && database.lastId == old(database.lastId)
        && navigateToSleepQuality == tonight
        && showSnackbarEvent == old(showSnackbarEvent)
      ensures old(tonight) != null && now != old(tonight.startTimeMilli) ==>
        TonightRow(database.rows) == None
    {
      var oldNight := tonight;
      if oldNight == null {
        return;
      }
      ghost var rows := database.rows;
      ghost var stopped := rows[|rows| - 1].(endTimeMilli := now);
      oldNight.endTimeMilli := now;
      assert oldNight.Value() == stopped;
      database.Update(oldNight.Value());
      assert database.rows[|rows| - 1] == stopped;
      if now != stopped.startTimeMilli {
        ReloadAfterStop(rows, now);
        assert TonightRow(database.rows) == None;
      }
      navigateToSleepQuality := oldNight;
    }

    /**
     * `onClear`: empties the table, forgets tonight and asks for the
     * snackbar; START is then offered and STOP and CLEAR are not.
     */
    method OnClear()
      requires Valid()
      modifies this, database
      ensures Valid()
      ensures database.rows == [] && database.lastId == old(database.lastId)
      ensures tonight == null && showSnackbarEvent
      ensures navigateToSleepQuality == old(navigateToSleepQuality)
      ensures StartButtonVisible(tonight) && !StopButtonVisible(tonight)
      ensures !ClearButtonVisible(database.GetAllNights())
    {
      database.Clear();
      tonight := null;
      showSnackbarEvent := true;
    }
  }

  /** Start at 1000, stop at 5000, serve the navigation request twice, clear. */
  method StartStopClearScenario() {
    var database := new SleepDatabaseDao();
    var viewModel := new SleepTrackerViewModel(database);
    assert StartButtonVisible(viewModel.tonight);
    assert !ClearButtonVisible(database.GetAllNights());

    viewModel.OnStartTracking(1000);
    assert database.rows == [SleepNight(1, 1000, 1000, -1)];
    assert StopButtonVisible(viewModel.tonight);

    var tracked := viewModel.tonight;
    viewModel.OnStopTracking(5000);
    assert database.rows == [SleepNight(1, 1000, 5000, -1)];
    assert viewModel.navigateToSleepQuality == tracked;
    assert tracked.Value() == SleepNight(1, 1000, 5000, -1);
    // The code leaves tonight set: STOP stays offered until a reload.
    assert StopButtonVisible(viewModel.tonight);

    viewModel.DoneNavigating();
    viewModel.DoneNavigating();
    assert viewModel.navigateToSleepQuality == null;
    assert viewModel.tonight == tracked;

    viewModel.OnClear();
    assert database.rows == [] && viewModel.showSnackbarEvent;
    assert StartButtonVisible(viewModel.tonight) && !ClearButtonVisible(database.GetAllNights());
    viewModel.DoneShowingSnackbar();
    assert !viewModel.showSnackbarEvent;
  }

  /** A second STOP before the request is served moves the end of the same night again. */
  method DoubleStopScenario() {
    var database := new SleepDatabaseDao();
    var viewModel := new SleepTrackerViewModel(database);
    viewModel.OnStartTracking(1000);
    viewModel.OnStopTracking(5000);
    var requested := viewModel.navigateToSleepQuality;
    viewModel.OnStopTracking(7000);
    assert requested == viewModel.navigateToSleepQuality;
    assert requested != null && requested.endTimeMilli == 7000;
    assert database.rows == [SleepNight(1, 1000, 7000, -1)];
  }
}
