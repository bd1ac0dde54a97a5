/**
  The pillar calculator: a calendar date and a clock hour become four
  (stem, branch) pairs -- the year, month, day and hour pillars.
 */
module Pillars {
  import opened Tables
  import opened Calendar
  import opened Residues

  datatype Pillar = Pillar(stem: StemIndex, branch: BranchIndex)

  datatype BaZi = BaZi(year: Pillar, month: Pillar, day: Pillar, hour: Pillar) {
    /** The four pillars in reading order: year, month, day, hour. */
    function Pillars(): (ps: seq<Pillar>)
      ensures |ps| == 4 && ps[0] == year && ps[1] == month && ps[2] == day && ps[3] == hour
    {
      [year, month, day, hour]
    }
  }

  /** The reference day, taken as the first pair of the sixty-day cycle. */
  const EPOCH: Date := Date(1984, 2, 2)

  /** The pair at position `index` of the cycle; negative positions wrap around. Every position gives a cycle pair. */
  function StemBranchFromIndex(index: int): (p: Pillar)
    ensures IsSexagenary(p)
  {
    EvenModulusParity(index, 10);
    EvenModulusParity(index, 12);
    Pillar(index % 10, index % 12)
  }

  /** Both the stem and the branch move one step forward (wrapping). */
  function Advance(p: Pillar): Pillar {
    Pillar((p.stem + 1) % 10, (p.branch + 1) % 12)
  }

  /** A pair of the sixty-day cycle: the stem and the branch have the same parity. */
  predicate IsSexagenary(p: Pillar) {
    p.stem % 2 == p.branch % 2
  }

  /** Days elapsed from the reference day: zero on it, negative exactly before it. */
  function DayIndexFromBase(d: Date): (k: int)
    requires ValidDate(d)
    ensures k == 0 <==> d == EPOCH
    ensures k < 0 <==> Earlier(d, EPOCH)
  {
    OrdinalOrder(d, EPOCH);
    Ordinal(d) - Ordinal(EPOCH)
  }

  /** The year pillar counts years from 1984; it is always a cycle pair. */
  function YearPillar(d: Date): (p: Pillar)
    ensures IsSexagenary(p)
  {
    StemBranchFromIndex(d.year - 1984)
  }

  /** The month pillar: the month's branch (January is Chou), the stem counted on from the year stem's start. */
  function MonthPillar(d: Date, yearStem: StemIndex): (p: Pillar)
    requires 1 <= d.month <= 12
    ensures p.branch == d.month % 12
  {
    var branch := MONTH_BRANCH[d.month];
    var startIndex := MONTH_STEM_START[yearStem];
    var monthIndex := (d.month - 1) % 12;
    Pillar((startIndex + monthIndex) % 10, branch)
  }

  /** The day pillar counts days from the reference day; it is always a cycle pair. */
  function DayPillar(d: Date): (p: Pillar)
    requires ValidDate(d)
    ensures IsSexagenary(p)
  {
    StemBranchFromIndex(DayIndexFromBase(d))
  }

  /** The branch whose two-hour window holds the hour. */
  function HourBranch(hour: int): BranchIndex
    requires 0 <= hour < 24
  {
    ((hour + 1) / 2) % 12
  }

  /** The hour pillar: the hour's branch, with the stem counted on from the day stem's start. */
  function HourPillarOf(hour: int, dayStem: StemIndex): Pillar
    requires 0 <= hour < 24
  {
    var branch := HourBranch(hour);
    Pillar((HOUR_STEM_START[dayStem] + branch) % 10, branch)
  }

  /** The whole reading of a date and a time. */
  function BaZiOf(d: Date, t: Time): BaZi
    requires ValidDate(d) && ValidTime(t)
  {
    var year := YearPillar(d);
    var month := MonthPillar(d, year.stem);
    var day := DayPillar(d);
    var hour := HourPillarOf(t.hour, day.stem);
    BaZi(year, month, day, hour)
  }

  /** Whether the hour falls into the window, either a plain one or one that wraps past midnight. */
  predicate InWindow(hour: int, w: (int, int, BranchIndex)) {
    (w.0 <= w.1 && w.0 <= hour < w.1) || (w.0 > w.1 && (hour >= w.0 || hour < w.1))
  }

  /** Scans the windows in table order and stops at the first one holding the hour. */
  method HourPillar(hour: int, dayStem: StemIndex) returns (p: Pillar)
    requires 0 <= hour < 24
    ensures p == HourPillarOf(hour, dayStem)
  {
    var branch: BranchIndex := 0;
    var i := 0;
    while i < |HOUR_WINDOWS|
      invariant 0 <= i <= |HOUR_WINDOWS|
      invariant forall k :: 0 <= k < i ==> !InWindow(hour, HOUR_WINDOWS[k])
    {
      var (start, end, value) := HOUR_WINDOWS[i];
      if start <= end && start <= hour < end {
        branch := value;
        HourWindowsPartitionDay(hour, i);
        break;
      }
      if start > end && (hour >= start || hour < end) {
        branch := value;
        HourWindowsPartitionDay(hour, i);
        break;
      }
      i := i + 1;
    }
    HourWindowsPartitionDay(hour, HourBranch(hour));
    var startIndex := HOUR_STEM_START[dayStem];
    p := Pillar((startIndex + branch) % 10, branch);
  }

  method ComputeBaZi(d: Date, t: Time) returns (b: BaZi)
    requires ValidDate(d) && ValidTime(t)
    ensures b == BaZiOf(d, t)
  {
    var year := YearPillar(d);
    var month := MonthPillar(d, year.stem);
    var day := DayPillar(d);
    var hour := HourPillar(t.hour, day.stem);
    b := BaZi(year, month, day, hour);
  }

  // ---- The cycle ----

  lemma StemBranchAdvance(index: int)
    ensures StemBranchFromIndex(index + 1) == Advance(StemBranchFromIndex(index))
  {
    ModSucc(index, 10);
    ModSucc(index, 12);
  }

  /** Every position gives a pair of the sixty-day cycle, and the cycle repeats every 60 steps. */
  lemma StemBranchCycle(index: int)
    ensures IsSexagenary(StemBranchFromIndex(index))
    ensures StemBranchFromIndex(index + 60) == StemBranchFromIndex(index)
  {
    var q10, q12 := index / 10, index / 12;
    var r10, r12 := index % 10, index % 12;
    assert r10 - r12 == 2 * (6 * q12 - 5 * q10);
    ModUnique(index + 60, q10 + 6, r10, 10);
    ModUnique(index + 60, q12 + 5, r12, 12);
  }

  /** Any whole number of sixty-step turns leads back to the same pair. */
  lemma {:induction false} StemBranchPeriodic(index: int, k: nat)
    ensures StemBranchFromIndex(index + 60 * k) == StemBranchFromIndex(index)
  {
    if k > 0 {
      StemBranchPeriodic(index, k - 1);
      StemBranchCycle(index + 60 * (k - 1));
      assert index + 60 * (k - 1) + 60 == index + 60 * k;
    }
  }

  // ---- Year pillar ----

  /** 1984 is Jia-Zi; the stem follows the year modulo 10 and the branch modulo 12. */
  lemma YearPillarCycle(d: Date, e: Date)
    ensures d.year == 1984 ==> YearPillar(d) == Pillar(0, 0)
    ensures YearPillar(d).stem == YearPillar(e).stem <==> (d.year - e.year) % 10 == 0
    ensures YearPillar(d).branch == YearPillar(e).branch <==> (d.year - e.year) % 12 == 0
  {
    SameResidue(d.year - 1984, e.year - 1984, 10);
    SameResidue(d.year - 1984, e.year - 1984, 12);
  }

  // ---- Month pillar ----

  /** Months 1..12 give Chou, Yin, ..., Hai, Zi; the stem counts on from the year stem's start. */
  lemma MonthPillarFormula(d: Date, yearStem: StemIndex)
    requires 1 <= d.month <= 12
    ensures MonthPillar(d, yearStem).branch == d.month % 12
    ensures MonthPillar(d, yearStem).stem == (2 * (yearStem % 5) + 2 + d.month - 1) % 10
    ensures MonthPillar(d, yearStem) == MonthPillar(d, (yearStem + 5) % 10)
  {
    MonthStemStartFormula(yearStem);
  }

  /** The month stem and branch always differ in parity: no month pillar is a pair of the sixty-day cycle. */
  lemma MonthPillarOffCycle(d: Date, yearStem: StemIndex)
    requires 1 <= d.month <= 12
    ensures !IsSexagenary(MonthPillar(d, yearStem))
  {
    var start := MONTH_STEM_START[yearStem];
    assert start % 2 == 0;
    EvenModulusParity(start + d.month - 1, 10);
    EvenModulusParity(d.month, 12);
  }

  // ---- Day pillar ----

  /** The reference day is Jia-Zi, and the day before it wraps round to Gui-Hai. */
  lemma DayPillarEpoch()
    ensures DayPillar(EPOCH) == Pillar(0, 0)
    ensures DayPillar(Date(1984, 2, 1)) == Pillar(9, 11)
  {
  }

  /** The next day advances both stem and branch by one. */
  lemma DayPillarNextDay(d: Date)
    requires ValidDate(d)
    ensures DayIndexFromBase(NextDay(d)) == DayIndexFromBase(d) + 1
    ensures DayPillar(NextDay(d)) == Advance(DayPillar(d))
  {
    NextDayOrdinal(d);
    StemBranchAdvance(DayIndexFromBase(d));
  }

  /** The day pillar is always a pair of the cycle, and it repeats after any whole number of sixty-day periods. */
  lemma DayPillarPeriod(d: Date, k: nat)
    requires ValidDate(d)
    ensures IsSexagenary(DayPillar(d))
    ensures DayPillar(AddDays(d, 60 * k)) == DayPillar(d)
  {
    var later := AddDays(d, 60 * k);
    AddDaysOrdinal(d, 60 * k);
    var index := DayIndexFromBase(d);
    assert DayIndexFromBase(later) == index + 60 * k;
    StemBranchCycle(index);
    StemBranchPeriodic(index, k);
  }

  // ---- Hour pillar ----

  /** Window k yields branch k, and each hour of the day lies in exactly one window, the one at HourBranch(hour). */
  lemma HourWindowsPartitionDay(hour: int, k: int)
    requires 0 <= hour < 24 && 0 <= k < |HOUR_WINDOWS|
    ensures HOUR_WINDOWS[k].2 == k
    ensures InWindow(hour, HOUR_WINDOWS[k]) <==> k == HourBranch(hour)
  {
  }

  /** 23:00 and 00:00 are both Zi; the stem counts on from the day stem's start. */
  lemma HourPillarFormula(hour: int, dayStem: StemIndex)
    requires 0 <= hour < 24
    ensures HourPillarOf(23, dayStem) == HourPillarOf(0, dayStem)
    ensures HourPillarOf(hour, dayStem).stem == (2 * (dayStem % 5) + HourBranch(hour)) % 10
    ensures IsSexagenary(HourPillarOf(hour, dayStem))
  {
    HourStemStartFormula(dayStem);
  }

  // ---- Whole reading ----

  /** The reference day at 00:30: year, day and hour are Jia-Zi, the month is Ding-Yin. */
  lemma EpochReading()
    ensures BaZiOf(EPOCH, Time(0, 30)) == BaZi(Pillar(0, 0), Pillar(3, 2), Pillar(0, 0), Pillar(0, 0))
  {
    DayPillarEpoch();
  }
}
