/**
 * One run of the tool after the pods have been listed: build the report,
 * then hand it to the renderer the output format selects.
 */
module ZonePeek {
  import opened Cluster
  import opened Correlation
  import opened ReportBuilder
  import opened Render

  datatype Format = JsonFormat | TextFormat | TableFormat

  /** The format switch: "json" and "text" are recognised, and every other
      value, the default "table" included, selects the table. */
  function ParseFormat(s: string): (f: Format)
    ensures f == JsonFormat <==> s == "json"
    ensures f == TextFormat <==> s == "text"
    ensures f == TableFormat <==> s != "json" && s != "text"
  {
    if s == "json" then JsonFormat
    else if s == "text" then TextFormat
    else TableFormat
  }

  /** What is written: the JSON document stands for the report it encodes. */
  datatype Output = JsonDocument(report: seq<PodInfo>) | Lines(lines: seq<string>)

  function Rendered(f: Format, infos: seq<PodInfo>): Output
  {
    match f
    case JsonFormat => JsonDocument(infos)
    case TextFormat => Lines(TextLines(infos))
    case TableFormat => Lines(TableLines(infos))
  }

  /** Nothing is rendered unless the whole report was built; otherwise the
      selected renderer's output for the full report. */
  method Run(c: Snapshot, pods: seq<Pod>, outputFormat: string) returns (r: Result<Output>)
    ensures r.Err? <==> Report(c, pods).Err?
    ensures Report(c, pods).Err? ==> r == Err(Report(c, pods).error)
    ensures Report(c, pods).Ok? ==> r == Ok(Rendered(ParseFormat(outputFormat), Report(c, pods).value))
  {
    var report := BuildReport(c, pods);
    match report {
      case Err(e) =>
        r := Err(e);
      case Ok(podInfos) =>
        match ParseFormat(outputFormat) {
          case JsonFormat =>
            r := Ok(JsonDocument(podInfos));
          case TextFormat =>
            var lines := PrintText(podInfos);
            r := Ok(Lines(lines));
          case TableFormat =>
            var lines := PrintTable(podInfos);
            r := Ok(Lines(lines));
        }
    }
  }
}
