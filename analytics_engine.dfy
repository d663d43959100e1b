/** The run history: an append-only list of per-run metrics and the change
    between the last two runs. */
module AnalyticsEngine {
  import opened Common

  /** The fields of a run's metrics the trend reads. */
  datatype RunMetrics = RunMetrics(filesCopied: int, durationMs: int, errors: int)

  datatype Trend = Trend(deltaFiles: int, deltaDuration: int, deltaErrors: int)

  class AnalyticsEngine {
    var records: seq<RunMetrics>

    constructor()
      ensures records == []
    {
      records := [];
    }

    /** `addMetrics(m)`: appends one record at the end. */
    method AddMetrics(m: RunMetrics)
      modifies this
      ensures records == old(records) + [m]
    {
      records := records + [m];
    }

    /** `getTrend()`: none before two runs are recorded; otherwise the last
        run's figures minus the previous run's. */
    function GetTrend(): (t: Option<Trend>)
      reads this
      ensures t.None? <==> |records| < 2
      ensures t.Some? ==>
        var last, prev := records[|records| - 1], records[|records| - 2];
        prev.filesCopied + t.value.deltaFiles == last.filesCopied &&
        prev.durationMs + t.value.deltaDuration == last.durationMs &&
        prev.errors + t.value.deltaErrors == last.errors
    {
      if |records| < 2 then None
      else
        var last, prev := records[|records| - 1], records[|records| - 2];
        Some(Trend(last.filesCopied - prev.filesCopied, last.durationMs - prev.durationMs, last.errors - prev.errors))
    }
  }

  /** Whatever history came first, the trend compares the two runs added last. */
  method TrendOfLastTwo(history: seq<RunMetrics>, prev: RunMetrics, last: RunMetrics) returns (t: Option<Trend>, count: nat)
    ensures count == |history| + 2
    ensures t == Some(Trend(last.filesCopied - prev.filesCopied, last.durationMs - prev.durationMs, last.errors - prev.errors))
  {
    var engine := new AnalyticsEngine();
    for i := 0 to |history|
      invariant engine.records == history[..i]
    {
      engine.AddMetrics(history[i]);
    }
    engine.AddMetrics(prev);
    engine.AddMetrics(last);
    t := engine.GetTrend();
    count := |engine.records|;
  }
}
