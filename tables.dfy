/**
  The fixed lookup tables of the BaZi calculator. Stems and branches are
  represented by their positions in the stem table (0 = Jia ... 9 = Gui) and
  the branch table (0 = Zi ... 11 = Hai); a table keyed by stem becomes a
  sequence indexed by stem position.
 */
module Tables {

  /** The five elements, in the order the tally is initialised. */
  datatype Element = Wood | Fire | Earth | Metal | Water

  /** Position of a Heavenly Stem: Jia, Yi, Bing, Ding, Wu, Ji, Geng, Xin, Ren, Gui. */
  type StemIndex = i: int | 0 <= i < 10

  /** Position of an Earthly Branch: Zi, Chou, Yin, Mao, Chen, Si, Wu, Wei, Shen, You, Xu, Hai. */
  type BranchIndex = i: int | 0 <= i < 12

  /** The elements in tally order; an element's rank is its position here. */
  const ELEMENTS: seq<Element> := [Wood, Fire, Earth, Metal, Water]

  const ELEMENT_OF_STEM: seq<Element> :=
    [Wood, Wood, Fire, Fire, Earth, Earth, Metal, Metal, Water, Water]

  const ELEMENT_OF_BRANCH: seq<Element> :=
    [Water, Earth, Wood, Wood, Earth, Fire, Fire, Earth, Metal, Metal, Earth, Water]

  /** Gregorian month number to branch: January is Chou, ..., December is Zi. */
  const MONTH_BRANCH: map<int, BranchIndex> :=
    map[1 := 1, 2 := 2, 3 := 3, 4 := 4, 5 := 5, 6 := 6,
        7 := 7, 8 := 8, 9 := 9, 10 := 10, 11 := 11, 12 := 0]

  /** Two-hour windows (start, end, branch); the first one wraps past midnight. */
  const HOUR_WINDOWS: seq<(int, int, BranchIndex)> :=
    [(23, 1, 0), (1, 3, 1), (3, 5, 2), (5, 7, 3), (7, 9, 4), (9, 11, 5),
     (11, 13, 6), (13, 15, 7), (15, 17, 8), (17, 19, 9), (19, 21, 10), (21, 23, 11)]

  /** Year stem to the stem the month count starts from. */
  const MONTH_STEM_START: seq<StemIndex> := [2, 4, 6, 8, 0, 2, 4, 6, 8, 0]

  /** Day stem to the stem the hour count starts from. */
  const HOUR_STEM_START: seq<StemIndex> := [0, 2, 4, 6, 8, 0, 2, 4, 6, 8]

  function Rank(e: Element): (r: nat)
    ensures r < |ELEMENTS| && ELEMENTS[r] == e
  {
    match e
    case Wood => 0
    case Fire => 1
    case Earth => 2
    case Metal => 3
    case Water => 4
  }

  function StemElement(s: StemIndex): Element {
    ELEMENT_OF_STEM[s]
  }

  function BranchElement(b: BranchIndex): Element {
    ELEMENT_OF_BRANCH[b]
  }

  /** The lucky digits of each element. */
  function ElementDigits(e: Element): (ds: seq<int>)
    ensures |ds| >= 1
    ensures forall k :: 0 <= k < |ds| ==> 0 <= ds[k] <= 9
  {
    match e
    case Wood => [3, 4]
    case Fire => [9]
    case Earth => [2, 5, 8]
    case Metal => [6, 7]
    case Water => [0, 1]
  }

  /** Every digit of 0..9 belongs to exactly one element. */
  lemma DigitsPartitionDecimal(d: int, e: Element)
    requires 0 <= d <= 9
    ensures d in ElementDigits(e) <==> e == DigitElement(d)
  {
  }

  /** The element whose digit list holds d. */
  function DigitElement(d: int): Element
    requires 0 <= d <= 9
  {
    if d == 3 || d == 4 then Wood
    else if d == 9 then Fire
    else if d == 2 || d == 5 || d == 8 then Earth
    else if d == 6 || d == 7 then Metal
    else Water
  }

  /** Stems come in pairs: stems 2k and 2k + 1 share the k-th element. */
  lemma StemElementPairs(s: StemIndex)
    ensures StemElement(s) == ELEMENTS[s / 2]
  {
  }

  /** The month-stem start is (2 (s mod 5) + 2) mod 10, so stems s and s + 5 share it. */
  lemma MonthStemStartFormula(s: StemIndex)
    ensures MONTH_STEM_START[s] == (2 * (s % 5) + 2) % 10
    ensures MONTH_STEM_START[s] == MONTH_STEM_START[(s + 5) % 10]
  {
  }

  /** The hour-stem start is 2 (d mod 5), so stems d and d + 5 share it. */
  lemma HourStemStartFormula(d: StemIndex)
    ensures HOUR_STEM_START[d] == 2 * (d % 5)
    ensures HOUR_STEM_START[d] == HOUR_STEM_START[(d + 5) % 10]
  {
  }
}
