/**
 * The totals the proposal stat cards show: how many circuits are proposed, their combined
 * bandwidth and their combined monthly cost.
 */
module ProposalStats {
  import opened Wrappers
  import opened Circuits
  import opened Numbers
  import opened Seqs

  /** The three totals; a `reduce` over an absent list is itself absent. */
  datatype Stats = Stats(totalProposed: int, totalBandwidth: Option<int>, totalMonthlyCost: Option<int>)

  /** `parseInt(pc.circuit.bandwidth)`; `None` is `NaN`. */
  function Bandwidth(pc: ProposalCircuit): (r: Option<int>) {
    ParseInt(pc.circuit.bandwidth)
  }

  /** What one entry adds to the bandwidth total: its leading integer, or nothing when there is none. */
  function BandwidthTerm(pc: ProposalCircuit): (r: int) {
    Bandwidth(pc).GetOr(0)
  }

  function CostTerm(pc: ProposalCircuit): (r: int) {
    pc.circuit.monthlyCost
  }

  /**
   * `totalProposed = circuits?.length || 0`, and the two `circuits?.reduce` sums, which are
   * absent exactly when the list is.
   */
  function ComputeStats(circuits: Option<seq<ProposalCircuit>>): (r: Stats)
    ensures r.totalProposed >= 0
    ensures r.totalBandwidth.Some? <==> circuits.Some?
    ensures r.totalMonthlyCost.Some? <==> circuits.Some?
  {
    match circuits
    case None => Stats(0, None, None)
    case Some(cs) => Stats(|cs|, Some(Sum(cs, BandwidthTerm)), Some(Sum(cs, CostTerm)))
  }

  /** An absent list and an empty one both count no circuit; an empty one sums to zero. */
  lemma NoCircuits()
    ensures ComputeStats(None).totalProposed == 0
    ensures ComputeStats(Some([])) == Stats(0, Some(0), Some(0))
  {
  }

  /** A bandwidth written as a number followed by a unit contributes that number. */
  lemma LeadingBandwidth(pc: ProposalCircuit, n: int, unit: string)
    requires pc.circuit.bandwidth == IntToString(n) + unit
    requires unit == [] || (!IsDigit(unit[0]) && unit[0] != 'x' && unit[0] != 'X')
    ensures BandwidthTerm(pc) == n
  {
    ParseIntToString(n, unit);
  }

  lemma SumStep(cs: seq<ProposalCircuit>, pc: ProposalCircuit)
    ensures Sum(cs + [pc], BandwidthTerm) == Sum(cs, BandwidthTerm) + BandwidthTerm(pc)
    ensures Sum(cs + [pc], CostTerm) == Sum(cs, CostTerm) + CostTerm(pc)
  {
    assert (cs + [pc])[..|cs + [pc]| - 1] == cs;
  }

  /**
   * Appending an entry adds one to the count and its cost to the cost total; its bandwidth is
   * added when it has a leading integer and skipped when it reads as `NaN`.
   */
  lemma AddOneCircuit(cs: seq<ProposalCircuit>, pc: ProposalCircuit)
    ensures var before := ComputeStats(Some(cs)); var after := ComputeStats(Some(cs + [pc]));
      after.totalProposed == before.totalProposed + 1
      && after.totalMonthlyCost.value == before.totalMonthlyCost.value + pc.circuit.monthlyCost
      && (Bandwidth(pc).None? ==> after.totalBandwidth == before.totalBandwidth)
      && (Bandwidth(pc).Some? ==> after.totalBandwidth.value == before.totalBandwidth.value + Bandwidth(pc).value)
  {
    SumStep(cs, pc);
    var before := ComputeStats(Some(cs));
    var after := ComputeStats(Some(cs + [pc]));
    assert after.totalBandwidth.value == before.totalBandwidth.value + BandwidthTerm(pc);
    assert after.totalMonthlyCost.value == before.totalMonthlyCost.value + CostTerm(pc);
  }

  /** The totals do not depend on the order of the entries. */
  lemma StatsPermutation(a: seq<ProposalCircuit>, b: seq<ProposalCircuit>)
    requires multiset(a) == multiset(b)
    ensures ComputeStats(Some(a)) == ComputeStats(Some(b))
  {
    SumPermutation(a, b, BandwidthTerm);
    SumPermutation(a, b, CostTerm);
    assert |a| == |multiset(a)| == |multiset(b)| == |b|;
  }

  /** The totals of two lists together are the sums of their totals. */
  lemma StatsAppend(a: seq<ProposalCircuit>, b: seq<ProposalCircuit>)
    ensures var sa := ComputeStats(Some(a)); var sb := ComputeStats(Some(b)); var s := ComputeStats(Some(a + b));
      s.totalProposed == sa.totalProposed + sb.totalProposed
      && s.totalBandwidth.value == sa.totalBandwidth.value + sb.totalBandwidth.value
      && s.totalMonthlyCost.value == sa.totalMonthlyCost.value + sb.totalMonthlyCost.value
  {
    SumAppend(a, b, BandwidthTerm);
    SumAppend(a, b, CostTerm);
  }
}
