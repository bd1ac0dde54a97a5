/**
  The element tally: each of the eight symbols of a reading -- four stems and
  four branches -- adds one to the count of its element.
 */
module Tally {
  import opened Tables
  import opened Pillars

  /** The number of symbols among the pillars whose element is e. */
  function ElementCount(ps: seq<Pillar>, e: Element): (n: nat)
    ensures n <= 2 * |ps|
  {
    if ps == [] then 0
    else
      var last := ps[|ps| - 1];
      ElementCount(ps[..|ps| - 1], e)
        + (if StemElement(last.stem) == e then 1 else 0)
        + (if BranchElement(last.branch) == e then 1 else 0)
  }

  function TotalCount(ps: seq<Pillar>): int {
    ElementCount(ps, Wood) + ElementCount(ps, Fire) + ElementCount(ps, Earth)
      + ElementCount(ps, Metal) + ElementCount(ps, Water)
  }

  /** Every symbol belongs to exactly one element, so the five counts add up to the number of symbols. */
  lemma {:induction false} CountsAddUp(ps: seq<Pillar>)
    ensures TotalCount(ps) == 2 * |ps|
  {
    if ps != [] {
      CountsAddUp(ps[..|ps| - 1]);
    }
  }

  /** A reading's tally: every count lies in 0..8 and the counts sum to 8. */
  lemma TallyOfReading(b: BaZi, e: Element)
    ensures 0 <= ElementCount(b.Pillars(), e) <= 8
    ensures TotalCount(b.Pillars()) == 8
  {
    CountsAddUp(b.Pillars());
  }

  /** Counting one more pillar adds its stem's and its branch's indicator. */
  lemma ElementCountStep(ps: seq<Pillar>, i: int, e: Element)
    requires 0 <= i < |ps|
    ensures ElementCount(ps[..i + 1], e) == ElementCount(ps[..i], e)
      + (if StemElement(ps[i].stem) == e then 1 else 0) + (if BranchElement(ps[i].branch) == e then 1 else 0)
  {
    assert ps[..i + 1][..i] == ps[..i];
  }

  /** Builds the five-key tally, adding one per stem and one per branch, pillar by pillar. */
  method ElementStrength(b: BaZi) returns (counts: map<Element, int>)
    ensures counts.Keys == set e | e in ELEMENTS
    ensures forall e :: e in counts ==> counts[e] == ElementCount(b.Pillars(), e)
  {
    counts := map[Wood := 0, Fire := 0, Earth := 0, Metal := 0, Water := 0];
    var ps := b.Pillars();
    for i := 0 to |ps|
      invariant counts.Keys == set e | e in ELEMENTS
      invariant forall e :: e in counts ==> counts[e] == ElementCount(ps[..i], e)
    {
      var stem, branch := ps[i].stem, ps[i].branch;
      counts := counts[StemElement(stem) := counts[StemElement(stem)] + 1];
      counts := counts[BranchElement(branch) := counts[BranchElement(branch)] + 1];
      forall e {
        ElementCountStep(ps, i, e);
      }
    }
    assert ps[..|ps|] == ps;
  }
}
