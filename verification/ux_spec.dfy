/**
 * The tuning constants every forest component reads, and the season of a
 * calendar month.
 */
module UxSpec {

  /** Days of entries shown in the forest. */
  const DensityWindowDays: int := 50

  /** Margin, in pixels, kept free of lights on every side of the viewport. */
  const SafePaddingPx: real := 24.0
  /** Desired minimum distance, in pixels, between two placed lights. */
  const MinDistancePx: real := 18.0
  /** Candidate positions tried per light before falling back. */
  const MaxPlacementTries: int := 80

  /** Amplitude range of one flicker step, in pixels. */
  const WalkRangeLo: real := 0.4
  const WalkRangeHi: real := 0.6
  /** Delay range between two flicker ticks, in milliseconds. */
  const UpdateIntervalLo: real := 250.0
  const UpdateIntervalHi: real := 330.0
  /** Duration range of a flicker stall, in milliseconds. */
  const StallLo: real := 1000.0
  const StallHi: real := 3000.0
  /** Lights deeper than this do not flicker at all. */
  const FrontLayerCutoff: real := 0.25

  /** Duration of the highlight pop and of the settle transition, in milliseconds. */
  const PopMs: int := 350
  const SettleMs: int := 650

  /** A calendar month, 1 = January. */
  type Month = m: int | 1 <= m <= 12 witness 1

  datatype Season = Spring | Summer | Autumn | Winter

  function GetSeason(m: Month): (s: Season)
    ensures s == Spring <==> 3 <= m <= 5
    ensures s == Summer <==> 6 <= m <= 8
    ensures s == Autumn <==> 9 <= m <= 11
    ensures s == Winter <==> m == 12 || m <= 2
  {
    if 3 <= m <= 5 then Spring
    else if 6 <= m <= 8 then Summer
    else if 9 <= m <= 11 then Autumn
    else Winter
  }

  /** The months a season covers. */
  function MonthsOf(s: Season): set<Month> {
    set m: Month | 1 <= m <= 12 && GetSeason(m) == s
  }

  /** Every season covers exactly three months, and the seasons partition the year. */
  lemma SeasonsPartitionYear()
    ensures MonthsOf(Spring) == {3, 4, 5}
    ensures MonthsOf(Summer) == {6, 7, 8}
    ensures MonthsOf(Autumn) == {9, 10, 11}
    ensures MonthsOf(Winter) == {12, 1, 2}
    ensures forall s: Season :: |MonthsOf(s)| == 3
  {
    assert MonthsOf(Spring) == {3, 4, 5};
    assert MonthsOf(Summer) == {6, 7, 8};
    assert MonthsOf(Autumn) == {9, 10, 11};
    assert MonthsOf(Winter) == {12, 1, 2};
    forall s: Season ensures |MonthsOf(s)| == 3 {
    }
  }

  /** The tuning intervals are well formed and the divisors used elsewhere are safe. */
  lemma TuningWellFormed()
    ensures WalkRangeLo <= WalkRangeHi && UpdateIntervalLo <= UpdateIntervalHi && StallLo <= StallHi
    ensures 0.0 < FrontLayerCutoff < 1.0
    ensures MaxPlacementTries > 0 && SafePaddingPx >= 0.0 && MinDistancePx >= 0.0
  {
  }
}
