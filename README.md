# BaZi reading and 4D number recommender — a Dafny model

The program turns a birth date and time into a BaZi reading, the "eight
characters". Each of the four pillars (year, month, day, hour) is a pair of a
Heavenly Stem and an Earthly Branch. The program then counts how often each of
the five elements (wood, fire, earth, metal, water) occurs among those eight
symbols. Finally it suggests 4-digit numbers whose digits belong to the two
weakest elements.

The model has six modules:

- `Tables` holds the fixed tables. Stems are positions 0..9 (Jia … Gui) and
  branches are positions 0..11 (Zi … Hai). A table keyed by stem becomes a
  sequence indexed by stem position. Elements form a datatype whose order is
  the order in which the tally is initialised.
- `Calendar` is the proleptic Gregorian date arithmetic behind date
  subtraction. A date's ordinal counts days from 0001-01-01, as the host date
  library computes it, and subtracting two dates takes the difference of their
  ordinals. `NextDay` and `AddDays` exist only so that statements about
  consecutive days and sixty-day periods can be made.
- `Residues` holds the facts about `/` and `%` that the calendar and the
  sixty-pair cycle rest on. Dafny's `%` is Euclidean. For the positive moduli
  used here (10, 12) it agrees with the host language's floor modulo, so days
  before the reference day wrap round exactly as in the program.
- `Pillars` computes the four pillars and the whole reading. The hour pillar
  is a method that scans the window table in order, as the program does. It is
  proved equal to a closed formula: branch (hour + 1) / 2 mod 12.
- `Tally` is the element count. It is a method over the pillars, proved
  against a recursive count function.
- `Recommend` turns the tally into suggestions, in these steps:
  - The tally's items are stable-sorted by count. This is modelled as an
    insertion sort of (count, position) entries, proved sorted and a
    permutation.
  - The two first items are the weak elements. Their digits form the pool,
    which falls back to every element's digits when it is empty.
  - Each suggestion takes four digits drawn from the pool. The pseudo-random
    generator is an oracle: `draws` lists the pool positions it picks, four
    per suggestion.
  - The explanation is kept as its two parts: the weak elements, and the
    pool's distinct digits in increasing order.

The month pillar is modelled as written: its stem counts on from the year
stem's start by the Gregorian month number. It does not follow the solar terms.
`Pillars.MonthPillarOffCycle` records a consequence: the month stem and branch
always differ in parity, so a month pillar is never one of the sixty cycle
pairs, while year, day and hour pillars always are.

## Model

| member | source | states |
|---|---|---|
| `Tables.Rank` | main.py:181 | Each element's rank is its position in the tally's insertion order (wood, fire, earth, metal, water) |
| `Tables.ElementDigits` | main.py:106-112 | Every element has at least one lucky digit, and every lucky digit lies in 0..9 |
| `Tables.DigitsPartitionDecimal` | main.py:106-112 | The digit lists partition 0..9: a digit is in an element's list exactly when that element is the digit's owner |
| `Tables.StemElementPairs` | main.py:22-33 | Stems 2k and 2k+1 share the k-th element |
| `Tables.MonthStemStartFormula` | main.py:80-91 | The month-stem start of stem s is (2(s mod 5) + 2) mod 10, so stems s and s+5 share it |
| `Tables.HourStemStartFormula` | main.py:93-104 | The hour-stem start of stem d is 2(d mod 5), so stems d and d+5 share it |
| `Calendar.DaysInMonth` | main.py:130-133 | A month has 28 to 31 days, and 29 exactly for February of a leap year |
| `Calendar.Ordinal` | main.py:132 | The day number behind date subtraction falls within the days of the date's own year (after the start of its year, at most the start of the next) |
| `Calendar.DaysBeforeYearStep` | main.py:130-133 | Consecutive year starts are 366 days apart after a leap year and 365 otherwise |
| `Calendar.NextDayOrdinal` | main.py:130-133 | The next calendar day has the next ordinal, so date differences count days |
| `Calendar.AddDaysOrdinal` | main.py:130-133 | Moving n days forward adds exactly n to the ordinal |
| `Calendar.OrdinalOrder` | main.py:132 | Ordinals follow calendar order: one date's ordinal is smaller exactly when it is earlier, and equal exactly when the dates are the same |
| `Residues.SameResidue` | main.py:127 | Two indices give the same stem (branch) exactly when they differ by a multiple of 10 (12) |
| `Pillars.StemBranchFromIndex` | main.py:126-127 | The pair at an index (stem index mod 10, branch index mod 12, negative indices wrapping) is always a cycle pair of equal parity; its stepping and period are in StemBranchAdvance and StemBranchCycle |
| `Pillars.BaZi.Pillars` | main.py:122-123 | The four pillars in reading order: year, month, day, hour |
| `Pillars.DayIndexFromBase` | main.py:130-133 | The day index is zero exactly on the reference day 1984-02-02 and negative exactly for earlier dates; its step per day is in DayPillarNextDay |
| `Pillars.YearPillar` | main.py:136-138 | The year pillar, counted from 1984, is always a cycle pair; its cycle is in YearPillarCycle |
| `Pillars.MonthPillar` | main.py:141-147 | The month's branch is the month number mod 12 (January Chou … November Hai, December Zi); the stem is in MonthPillarFormula |
| `Pillars.DayPillar` | main.py:150-152 | The day pillar is always a cycle pair; its stepping and period are in DayPillarNextDay and DayPillarPeriod |
| `Pillars.StemBranchAdvance` | main.py:126-127 | The next index advances both stem and branch by one, wrapping at 10 and 12 |
| `Pillars.StemBranchCycle` | main.py:126-127 | Every index gives a pair of equal parity (one of the sixty cycle pairs), and index + 60 gives the same pair |
| `Pillars.StemBranchPeriodic` | main.py:126-127 | Any whole number of sixty-step turns gives back the same pair |
| `Pillars.YearPillarCycle` | main.py:136-138 | 1984 is Jia-Zi; two years share a stem iff they differ by a multiple of 10, and a branch iff by a multiple of 12 |
| `Pillars.MonthPillarFormula` | main.py:141-147 | Months 1..12 get branches Chou..Hai, Zi (branch = month mod 12); the stem is (2(year stem mod 5) + 2 + month − 1) mod 10; year stems s and s+5 give the same month pillar |
| `Pillars.MonthPillarOffCycle` | main.py:141-147 | Month stem and branch always differ in parity |
| `Pillars.DayPillarEpoch` | main.py:130-133 | The reference day 1984-02-02 is Jia-Zi, and the day before it wraps to Gui-Hai |
| `Pillars.DayPillarNextDay` | main.py:150-152 | The day index grows by one per calendar day, and the day pillar advances by one step |
| `Pillars.DayPillarPeriod` | main.py:150-152 | The day pillar is a cycle pair and repeats after every whole number of sixty days |
| `Pillars.HourWindowsPartitionDay` | main.py:158-164 | Window k yields branch k, and every hour 0..23 lies in exactly one window, the one at (hour + 1) / 2 mod 12 |
| `Pillars.HourPillar` | main.py:155-169 | Scanning the windows in order gives the closed-form hour pillar |
| `Pillars.HourPillarFormula` | main.py:165-169 | 23:00 and 00:00 are both Zi hours; the hour stem is (2(day stem mod 5) + branch) mod 10; the hour pillar is a cycle pair |
| `Pillars.ComputeBaZi` | main.py:172-177 | The reading is the year, month, day and hour pillars, the month from the year stem and the hour from the day stem |
| `Pillars.EpochReading` | main.py:172-177 | 1984-02-02 00:30 reads Jia-Zi, Ding-Yin, Jia-Zi, Jia-Zi |
| `Tally.ElementCount` | main.py:180-185 | An element is counted at most twice per pillar |
| `Tally.CountsAddUp` | main.py:180-185 | The five counts add up to twice the number of pillars: every symbol has exactly one element |
| `Tally.TallyOfReading` | main.py:180-185 | For a reading every count lies in 0..8 and the counts sum to 8 |
| `Tally.ElementStrength` | main.py:180-185 | The tally has exactly the five element keys, each mapped to its count over the four pillars' stems and branches |
| `Recommend.InsertByCount` | main.py:191 | Insertion adds exactly the new entry: the result is one longer and a permutation of the old entries plus the new one |
| `Recommend.SortByCount` | main.py:191 | The sort returns a permutation of its input |
| `Recommend.SortByCountSorted` | main.py:191 | Entries in insertion order come out ordered by count, with ties kept in insertion order (a stable sort) |
| `Recommend.WeakPositions` | main.py:192 | The weak elements are the first two sorted items, or all items when there are fewer than two |
| `Recommend.WeakElements` | main.py:192 | The weak elements are as many as the weak positions, and each is a key of the tally; their order is in WeakestFirst and WeakestOfTally |
| `Recommend.WeakestFirst` | main.py:191-192 | The weak items precede each other in sorted order and precede every other item |
| `Recommend.WeakestOfTally` | main.py:191-193 | For a full tally the weak elements are two different elements with the smallest counts, ties going to the earlier element, and the pool is their two digit lists |
| `Recommend.ItemsOf` | main.py:181 | A full tally's items are its five elements in insertion order (wood, fire, earth, metal, water), each with its count |
| `Recommend.DigitsOf` | main.py:193 | The concatenated digit lists are decimal digits, at least one per element |
| `Recommend.PoolOf` | main.py:193-195 | The pool is never empty and holds only decimal digits |
| `Recommend.Pool` | main.py:193-195 | A tally's pool is never empty and holds only decimal digits; which digits is in PoolOfWeak and WeakestOfTally |
| `Recommend.EligibleDigits` | main.py:205 | The explained digits are at most ten decimal digits; that they are the pool's digits in increasing order is in EligibleDigitsSortedSet |
| `Recommend.PoolOfWeak` | main.py:193-195 | The fallback pool of all digits is used exactly when the tally is empty; with two or more items the pool is the two weak elements' digits |
| `Recommend.EligibleDigitsSortedSet` | main.py:205 | The explained digits are exactly the pool's digits, strictly increasing (each once) |
| `Recommend.DrawNumberShape` | main.py:200 | Each number is four characters, each a decimal digit taken from the pool |
| `Recommend.DrawNumber` | main.py:200 | A drawn number is a string of exactly four decimal characters |
| `Recommend.Suggestions` | main.py:199-207 | The first n suggestions: suggestion i uses draws 4i..4i+3 and carries the same explanation |
| `Recommend.RecommendNumbers` | main.py:188-208 | One suggestion per requested set (none for a negative count); each carries the weak elements, the sorted distinct pool digits and the number drawn from its four draws |

## Left out

- `parse_datetime` (main.py:211-217) is not modelled: it is string parsing done by the host library. The model starts from a date and a time.
- `main` (main.py:220-237) is not modelled: it is console input and output.
- The SHA-256 hash and the seeded pseudo-random generator (main.py:196-197, the `choice` calls at 200) are replaced by the `draws` oracle of pool positions. So the model does not reproduce which digits a given input yields, only how the draws become numbers.
- Recommend.RecommendNumbers: the explanation string, with its separators and labels, is kept as its two parts (the weak elements and the eligible digits), not as formatted text.
- Stems, branches and elements are positions and datatype values, not their Chinese characters. Display names are not modelled.
- Calendar.ValidDate does not bound the year by the host library's maximum year 9999.
- The minute of the time plays no part in the reading, and the model keeps it only as a field.
- Recommend.RecommendNumbers takes the tally's items as a sequence over the five elements, so a key outside them cannot be expressed. In the program such a key fails the digit lookup at main.py:193 only when it sorts among the two weakest items; elsewhere it is ignored.
- Recommend.RecommendNumbers takes the number of suggestions explicitly. The program's default of 5 (main.py:189), which `main` relies on, is the call with `sets` = 5.
