/** mogi_objects.py: the tier a room's average rating falls in — `get_tier` over the ladder's tier table
    (MKW) and the fixed ladder of `get_tier_mk8dx`. */
module Tiers {
  import opened Wrappers

  /** One entry of the ladder's tier table; a missing bound is unbounded on that side. */
  datatype TierInfo = TierInfo(minimumMmr: Option<int>, maximumMmr: Option<int>, ladderOrder: int)

  /** Whether a rating lies within a tier's inclusive bounds. */
  predicate InTier(mmr: int, tier: TierInfo)
  {
    (tier.minimumMmr.None? || mmr >= tier.minimumMmr.value) &&
    (tier.maximumMmr.None? || mmr <= tier.maximumMmr.value)
  }

  /** `get_tier`: the ladder order of the first tier in the table containing the rating, or `None`
      when no tier contains it (the loop falls through). */
  function GetTier(mmr: int, tiers: seq<TierInfo>): (r: Option<int>)
    ensures r.None? <==> forall i :: 0 <= i < |tiers| ==> !InTier(mmr, tiers[i])
    ensures r.Some? ==> exists i :: 0 <= i < |tiers| && InTier(mmr, tiers[i]) && r.value == tiers[i].ladderOrder &&
                                    forall j :: 0 <= j < i ==> !InTier(mmr, tiers[j])
  {
    if tiers == [] then None
    else if InTier(mmr, tiers[0]) then Some(tiers[0].ladderOrder)
    else
      var r := GetTier(mmr, tiers[1..]);
      if r.Some? then
        assert exists i :: 0 <= i < |tiers| && InTier(mmr, tiers[i]) && r.value == tiers[i].ladderOrder &&
                           forall j :: 0 <= j < i ==> !InTier(mmr, tiers[j]) by {
          var i :| 0 <= i < |tiers[1..]| && InTier(mmr, tiers[1..][i]) && r.value == tiers[1..][i].ladderOrder &&
                   forall j :: 0 <= j < i ==> !InTier(mmr, tiers[1..][j]);
          assert tiers[i + 1] == tiers[1..][i];
          forall j | 0 <= j < i + 1 ensures !InTier(mmr, tiers[j]) {
            if j > 0 { assert tiers[j] == tiers[1..][j - 1]; }
          }
        }
        r
      else r
  }

  /** When the tiers of the table do not overlap, the tier found is the one tier containing the rating. */
  lemma GetTierOfDisjointTable(mmr: int, tiers: seq<TierInfo>, k: nat)
    requires forall i, j :: 0 <= i < j < |tiers| ==> !(InTier(mmr, tiers[i]) && InTier(mmr, tiers[j]))
    requires k < |tiers| && InTier(mmr, tiers[k])
    ensures GetTier(mmr, tiers) == Some(tiers[k].ladderOrder)
  {
    var r := GetTier(mmr, tiers);
    var i :| 0 <= i < |tiers| && InTier(mmr, tiers[i]) && r.value == tiers[i].ladderOrder &&
             forall j :: 0 <= j < i ==> !InTier(mmr, tiers[j]);
    assert !(i < k);
    assert i == k;
  }

  /** `get_tier_mk8dx`: a rating above 14000 is X, then one class per thousand down to G at 1000 or below. */
  function GetTierMk8dx(mmr: int): string
  {
    if mmr > 14000 then "X"
    else if mmr > 13000 then "S"
    else if mmr > 12000 then "A"
    else if mmr > 11000 then "AB"
    else if mmr > 10000 then "B"
    else if mmr > 9000 then "BC"
    else if mmr > 8000 then "C"
    else if mmr > 7000 then "CD"
    else if mmr > 6000 then "D"
    else if mmr > 5000 then "DE"
    else if mmr > 4000 then "E"
    else if mmr > 3000 then "EF"
    else if mmr > 2000 then "F"
    else if mmr > 1000 then "FG"
    else "G"
  }

  /** The MK8DX classes from the bottom of the ladder to the top. */
  const Mk8dxLadder: seq<string> := ["G", "FG", "F", "EF", "E", "DE", "D", "CD", "C", "BC", "B", "AB", "A", "S", "X"]

  /** The rung of the MK8DX ladder a rating reaches: the number of thousands (from 1000 to 14000) it
      strictly exceeds. */
  function Mk8dxRung(mmr: int): (r: nat)
    ensures r < |Mk8dxLadder|
  {
    if mmr <= 1000 then 0 else if mmr > 14000 then 14 else (mmr - 1) / 1000
  }

  /** The chain of comparisons in `get_tier_mk8dx` picks the ladder class of the rating's rung. */
  lemma GetTierMk8dxIsLadderRung(mmr: int)
    ensures GetTierMk8dx(mmr) == Mk8dxLadder[Mk8dxRung(mmr)]
  {
    if 1000 < mmr <= 14000 {
      var q := (mmr - 1) / 1000;
      assert 1000 * q <= mmr - 1 < 1000 * q + 1000;
    }
  }

  /** A higher rating never lands on a lower rung. */
  lemma Mk8dxRungMonotone(a: int, b: int)
    requires a <= b
    ensures Mk8dxRung(a) <= Mk8dxRung(b)
  {
    if 1000 < a <= 14000 && 1000 < b <= 14000 {
      var qa := (a - 1) / 1000;
      var qb := (b - 1) / 1000;
      assert 1000 * qa <= a - 1 < 1000 * qa + 1000;
      assert 1000 * qb <= b - 1 < 1000 * qb + 1000;
    }
  }
}
