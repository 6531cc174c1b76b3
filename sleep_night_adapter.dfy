/**
 * The decisions the list of nights makes about its items: the two
 * comparisons handed to the list-diffing library, and the picture chosen
 * for a night's quality score when an item is bound.
 */
module SleepNightAdapter {
  import opened SleepData

  /** `areItemsTheSame`: two items stand for the same night when their keys agree. */
  predicate AreItemsTheSame(oldItem: SleepNight, newItem: SleepNight) {
    oldItem.nightId == newItem.nightId
  }

  /** `areContentsTheSame`: the record equality of the two items. */
  predicate AreContentsTheSame(oldItem: SleepNight, newItem: SleepNight) {
    oldItem == newItem
  }

  ghost predicate IsEquivalence(relation: (SleepNight, SleepNight) -> bool) {
    && (forall a :: relation(a, a))
    && (forall a, b :: relation(a, b) ==> relation(b, a))
    && (forall a, b, c :: relation(a, b) && relation(b, c) ==> relation(a, c))
  }

  /** Same-item is reflexive, symmetric and transitive. */
  lemma ItemsTheSameIsEquivalence()
    ensures IsEquivalence(AreItemsTheSame)
  {
  }

  /** Same-contents is reflexive, symmetric and transitive. */
  lemma ContentsTheSameIsEquivalence()
    ensures IsEquivalence(AreContentsTheSame)
  {
  }

  /** Same contents means every field agrees, and conversely. */
  lemma ContentsTheSameIsFieldwise(a: SleepNight, b: SleepNight)
    ensures AreContentsTheSame(a, b) <==>
      && a.nightId == b.nightId
      && a.startTimeMilli == b.startTimeMilli
      && a.endTimeMilli == b.endTimeMilli
      && a.sleepQuality == b.sleepQuality
  {
  }

  /** Items with the same contents are always the same item. */
  lemma SameContentsIsSameItem(a: SleepNight, b: SleepNight)
    ensures AreContentsTheSame(a, b) ==> AreItemsTheSame(a, b)
  {
  }

  /** A night whose key is kept but whose other fields changed is the same item with new contents. */
  lemma ChangedNightIsSameItem(a: SleepNight, b: SleepNight)
    requires a.nightId == b.nightId
    requires a.startTimeMilli != b.startTimeMilli || a.endTimeMilli != b.endTimeMilli || a.sleepQuality != b.sleepQuality
    ensures AreItemsTheSame(a, b) && !AreContentsTheSame(a, b)
  {
  }

  /** The pictures an item can show for its quality. */
  datatype Drawable =
    | IcSleep0 | IcSleep1 | IcSleep2 | IcSleep3 | IcSleep4 | IcSleep5
    | IcSleepActive

  /**
   * The picture `bind` shows for a quality score: one per score from 0 to
   * 5, and the "active" picture for anything else, the unrated -1 included.
   */
  function QualityImage(sleepQuality: int): (image: Drawable)
    ensures image == IcSleepActive <==> !(0 <= sleepQuality <= 5)
  {
    match sleepQuality
    case 0 => IcSleep0
    case 1 => IcSleep1
    case 2 => IcSleep2
    case 3 => IcSleep3
    case 4 => IcSleep4
    case 5 => IcSleep5
    case _ => IcSleepActive
  }

  /** The score a picture stands for, or none for the "active" picture. */
  function ScoreOf(image: Drawable): Option<int> {
    match image
    case IcSleep0 => Some(0)
    case IcSleep1 => Some(1)
    case IcSleep2 => Some(2)
    case IcSleep3 => Some(3)
    case IcSleep4 => Some(4)
    case IcSleep5 => Some(5)
    case IcSleepActive => None
  }

  /** The picture of a score gives the score back; every other value gives none. */
  lemma QualityImageRoundTrip(sleepQuality: int)
    ensures ScoreOf(QualityImage(sleepQuality)) ==
      if 0 <= sleepQuality <= 5 then Some(sleepQuality) else None
  {
  }

  /** Scores 0 to 5 show six different pictures. */
  lemma QualityImagesDistinct(a: int, b: int)
    requires 0 <= a <= 5 && 0 <= b <= 5 && a != b
    ensures QualityImage(a) != QualityImage(b)
  {
    QualityImageRoundTrip(a);
    QualityImageRoundTrip(b);
  }
}
