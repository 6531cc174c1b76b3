/**
 * The sleep-session record shared by the tracker screen and its list.
 *
 * A night exists in two forms: as a row value (`SleepNight`), which is what
 * the table stores and what the list compares, and as an object
 * (`NightEntity`), which is what a query hands back to the view model and
 * what the view model later changes in place when tracking stops.
 */
module SleepData {

  datatype Option<+T> = None | Some(value: T)

  /** One night: its key, start and end instants in milliseconds, and its quality score. */
  datatype SleepNight = SleepNight(nightId: int, startTimeMilli: int, endTimeMilli: int, sleepQuality: int)

  /** The key of a night the table has not numbered yet; inserting it makes the table assign one. */
  const UnassignedId := 0

  /** The quality score of a night nobody has rated. */
  const UnratedQuality := -1

  /** A night is still being recorded exactly while its end instant equals its start instant. */
  predicate InProgress(night: SleepNight) {
    night.endTimeMilli == night.startTimeMilli
  }

  /**
   * The night `SleepNight()` builds at instant `now`: not yet numbered,
   * starting and ending at `now`, unrated.
   */
  function NewNight(now: int): (night: SleepNight)
    ensures night.nightId == UnassignedId && night.startTimeMilli == now
    ensures InProgress(night) && night.sleepQuality == UnratedQuality
  {
    SleepNight(UnassignedId, now, now, UnratedQuality)
  }

  /** A night as a mutable object, as the database layer returns it. */
  class NightEntity {
    var nightId: int
    var startTimeMilli: int
    var endTimeMilli: int
    var sleepQuality: int

    constructor (row: SleepNight)
      ensures Value() == row
    {
      nightId := row.nightId;
      startTimeMilli := row.startTimeMilli;
      endTimeMilli := row.endTimeMilli;
      sleepQuality := row.sleepQuality;
    }

    /** The row this object currently describes. */
    function Value(): SleepNight
      reads this
    {
      SleepNight(nightId, startTimeMilli, endTimeMilli, sleepQuality)
    }
  }
}
