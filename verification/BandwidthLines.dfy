/** The lines of a bandwidth file, one per relay. */
module BandwidthLines {
  import opened Sequences
  import opened Wrappers

  /** What the measurements and descriptors of an eligible relay amount to. */
  datatype Stats = Stats(bwMean: real, bwFilt: real, descAvg: Option<int>, descBur: Option<int>,
                         obsLast: Option<int>, obsMean: Option<int>)

  /** How many results each rule left out; a missing count is not written. */
  datatype Counters = Counters(error: Option<nat>, near: Option<nat>, stale: Option<nat>, few: Option<nat>)

  const NO_COUNTERS := Counters(None, None, None, None)

  /** The attributes of a line; bw is in bytes until the line is scaled. */
  datatype LineVal = LineVal(nodeId: string, bw: real, stats: Option<Stats>, counters: Counters,
                             ratios: Option<(real, real)>,
                             vote: Option<int>, unmeasured: Option<int>, underMinReport: Option<int>)
  {
    /** Tor votes on a line unless it says not to. */
    predicate Votable() { vote != Some(0) }

    function UnderMinReport(): LineVal { this.(underMinReport := Some(1), vote := Some(0)) }
  }

  function NodeIdOf(l: LineVal): string { l.nodeId }

  class V3BWLine {
    const nodeId: string
    const stats: Option<Stats>
    const counters: Counters
    const unmeasured: Option<int>
    var bw: real
    var ratios: Option<(real, real)>
    var vote: Option<int>
    var underMinReport: Option<int>

    function Val(): LineVal
      reads this
    {
      LineVal(nodeId, bw, stats, counters, ratios, vote, unmeasured, underMinReport)
    }

    constructor (v: LineVal)
      ensures Val() == v
    {
      nodeId, stats, counters, unmeasured := v.nodeId, v.stats, v.counters, v.unmeasured;
      bw, ratios, vote, underMinReport := v.bw, v.ratios, v.vote, v.underMinReport;
    }
  }

  function Vals(ls: seq<V3BWLine>): (vs: seq<LineVal>)
    reads ls
    ensures |vs| == |ls| && forall i :: 0 <= i < |ls| ==> vs[i] == ls[i].Val()
  {
    seq(|ls|, i requires 0 <= i < |ls| reads ls => ls[i].Val())
  }

  predicate Distinct(ls: seq<V3BWLine>) { forall i, j :: 0 <= i < j < |ls| ==> ls[i] != ls[j] }

  function UnderMinReportOf(l: LineVal): LineVal { l.UnderMinReport() }

  /** Marks lines not to be voted on because there are too few of them. */
  method SetUnderMinReport(ls: seq<V3BWLine>)
    requires Distinct(ls)
    modifies ls
    ensures Vals(ls) == Map(old(Vals(ls)), UnderMinReportOf)
  {
    var i := 0;
    while i < |ls|
      invariant i <= |ls|
      invariant forall j :: 0 <= j < |ls| ==>
                  ls[j].Val() == if j < i then old(ls[j].Val()).UnderMinReport() else old(ls[j].Val())
    {
      ls[i].underMinReport := Some(1);
      ls[i].vote := Some(0);
      i := i + 1;
    }
  }
}
