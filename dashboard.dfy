/**
 * The dashboard (components/Dashboard.tsx): the data fed to the per-topic
 * chart and the truncation of its axis labels.
 */
module Dashboard {
  import opened Js
  import opened Types

  /** `chartData`: the topic scores, or a single "Geral" entry at 0 when there are none. */
  function ChartData(topics: seq<TopicScore>): (r: seq<TopicScore>)
    ensures r != []
    ensures topics != [] ==> r == topics
    ensures topics == [] ==> r == [TopicScore("Geral", 0)]
  {
    if |topics| > 0 then topics else [TopicScore("Geral", 0)]
  }

  /** Charting valid statistics only ever plots percentages. */
  lemma ChartOfValidStatsIsPercentages(s: UserStats)
    requires ValidStats(s)
    ensures forall i :: 0 <= i < |ChartData(s.topicPerformance)| ==> IsPercent(ChartData(s.topicPerformance)[i].score)
  {
  }

  /** `tickFormatter`: a label longer than 10 code points keeps its first 10 and gains "...". */
  function TickLabel(value: string): (r: string)
    ensures |value| <= 10 ==> r == value
    ensures |value| > 10 ==> r == value[..10] + "..."
  {
    if |value| > 10 then Substring(value, 0, 10) + "..." else value
  }

  /** A label is at most 13 code points long and starts with the first (up to 10) code points of the value. */
  lemma TickLabelBounds(value: string)
    ensures |TickLabel(value)| <= 13
    ensures |value| <= 10 ==> |TickLabel(value)| == |value|
    ensures var k := if |value| < 10 then |value| else 10; TickLabel(value)[..k] == value[..k]
  {
  }

  /** Formatting a formatted label again changes nothing. */
  lemma TickLabelIdempotent(value: string)
    ensures TickLabel(TickLabel(value)) == TickLabel(value)
  {
    if |value| > 10 {
      var shown := TickLabel(value);
      assert shown[..10] == value[..10];
    }
  }
}
