/**
 * The two hand-written renderers. Output is modelled as the sequence of lines
 * written, without the trailing newline of each. A table line is its cells
 * joined by tab characters; the column padding added by the tab writer is
 * not modelled.
 */
module Render {
  import opened Correlation

  /** The %t verb. */
  function BoolText(b: bool): string
  {
    if b then "true" else "false"
  }

  // ---------------------------------------------------------------------------
  // Text

  /** The line printed for one pod; its volumes are not shown. */
  function TextLine(info: PodInfo): string
  {
    "Pod: " + info.podName + ", Node: " + info.nodeName + ", Node Zone: " + info.nodeZone +
    ", Zone Matched: " + BoolText(info.zoneMatched)
  }

  /** The text output: one line per pod, in report order. */
  function TextLines(infos: seq<PodInfo>): seq<string>
    decreases |infos|
  {
    if infos == [] then [] else TextLines(infos[..|infos| - 1]) + [TextLine(infos[|infos| - 1])]
  }

  /** Exactly one line per pod, the k-th line for the k-th pod; a pod without
      volumes still gets its line. */
  lemma {:induction false} TextLinesAt(infos: seq<PodInfo>)
    ensures |TextLines(infos)| == |infos|
    ensures forall k :: 0 <= k < |infos| ==> TextLines(infos)[k] == TextLine(infos[k])
    decreases |infos|
  {
    if infos != [] {
      var p := infos[..|infos| - 1];
      TextLinesAt(p);
      assert forall k :: 0 <= k < |p| ==> p[k] == infos[k];
    }
  }

  /** The loop that prints one line per pod. */
  method PrintText(podInfos: seq<PodInfo>) returns (lines: seq<string>)
    ensures lines == TextLines(podInfos)
  {
    lines := [];
    var i := 0;
    while i < |podInfos|
      invariant 0 <= i <= |podInfos|
      invariant lines == TextLines(podInfos[..i])
    {
      assert podInfos[..i + 1][..i] == podInfos[..i];
      lines := lines + [TextLine(podInfos[i])];
      i := i + 1;
    }
    assert podInfos[..i] == podInfos;
  }

  // ---------------------------------------------------------------------------
  // Tab-separated cells

  /** Cells joined by single tab characters. */
  function JoinTabs(cells: seq<string>): string
    decreases |cells|
  {
    if |cells| == 0 then ""
    else if |cells| == 1 then cells[0]
    else cells[0] + "\t" + JoinTabs(cells[1..])
  }

  /** A line cut at every tab character: the reading of a line as cells. */
  function SplitTabs(s: string): (cells: seq<string>)
    ensures |cells| >= 1
    decreases |s|
  {
    if s == [] then [""]
    else
      var rest := SplitTabs(s[1..]);
      if s[0] == '\t' then [""] + rest else [[s[0]] + rest[0]] + rest[1..]
  }

  /** A cell without a tab is read back as one cell. */
  lemma {:induction false} SplitTabsCell(s: string)
    requires '\t' !in s
    ensures SplitTabs(s) == [s]
    decreases |s|
  {
    if s != [] {
      assert s[0] != '\t';
      SplitTabsCell(s[1..]);
      assert [s[0]] + s[1..] == s;
    }
  }

  /** A leading cell without a tab is read back, then the rest of the line. */
  lemma {:induction false} SplitTabsFirst(f: string, t: string)
    requires '\t' !in f
    ensures SplitTabs(f + "\t" + t) == [f] + SplitTabs(t)
    decreases |f|
  {
    if f == [] {
      assert f + "\t" + t == ['\t'] + t;
      assert (['\t'] + t)[1..] == t;
    } else {
      assert f[0] != '\t';
      assert (f + "\t" + t)[1..] == f[1..] + "\t" + t;
      SplitTabsFirst(f[1..], t);
      assert [f[0]] + f[1..] == f;
    }
  }

  /** Joining cells that hold no tab and reading the line back gives the cells. */
  lemma {:induction false} SplitJoin(cells: seq<string>)
    requires |cells| >= 1
    requires forall k :: 0 <= k < |cells| ==> '\t' !in cells[k]
    ensures SplitTabs(JoinTabs(cells)) == cells
    decreases |cells|
  {
    if |cells| == 1 {
      SplitTabsCell(cells[0]);
    } else {
      SplitTabsFirst(cells[0], JoinTabs(cells[1..]));
      SplitJoin(cells[1..]);
      assert [cells[0]] + cells[1..] == cells;
    }
  }

  // ---------------------------------------------------------------------------
  // Table

  const HeaderCells: seq<string> := ["POD", "NODE", "NODE ZONE", "ZONE MATCHED", "PVC", "PV", "PV ZONE"]

  /** The cells of the row for one (pod, volume) pair, in header order. */
  function RowCells(info: PodInfo, pv: PVDetails): seq<string>
  {
    [info.podName, info.nodeName, info.nodeZone, BoolText(info.zoneMatched), pv.pvcName, pv.pvName, pv.pvZone]
  }

  function Row(info: PodInfo, pv: PVDetails): string
  {
    JoinTabs(RowCells(info, pv))
  }

  /** The rows of one pod, one per volume, in volume order. */
  function PodRows(info: PodInfo): seq<string>
  {
    seq(|info.pvInfo|, j requires 0 <= j < |info.pvInfo| => Row(info, info.pvInfo[j]))
  }

  /** The table rows below the header: pod order, then volume order. */
  function TableRows(infos: seq<PodInfo>): seq<string>
    decreases |infos|
  {
    if infos == [] then [] else TableRows(infos[..|infos| - 1]) + PodRows(infos[|infos| - 1])
  }

  /** The table output: the header line, then the rows. */
  function TableLines(infos: seq<PodInfo>): seq<string>
  {
    [JoinTabs(HeaderCells)] + TableRows(infos)
  }

  /** The number of (pod, volume) pairs. */
  function TotalVolumes(infos: seq<PodInfo>): nat
    decreases |infos|
  {
    if infos == [] then 0 else TotalVolumes(infos[..|infos| - 1]) + |infos[|infos| - 1].pvInfo|
  }

  /** One row per (pod, volume) pair, so a pod without volumes has no row. */
  lemma {:induction false} TableRowCount(infos: seq<PodInfo>)
    ensures |TableRows(infos)| == TotalVolumes(infos)
    decreases |infos|
  {
    if infos != [] {
      TableRowCount(infos[..|infos| - 1]);
    }
  }

  /** The row of volume j of pod k sits after the rows of the pods before k
      and the volumes before j. */
  lemma {:induction false} TableRowAt(infos: seq<PodInfo>, k: nat, j: nat)
    requires k < |infos| && j < |infos[k].pvInfo|
    ensures TotalVolumes(infos[..k]) + j < |TableRows(infos)|
    ensures TableRows(infos)[TotalVolumes(infos[..k]) + j] == Row(infos[k], infos[k].pvInfo[j])
    decreases |infos|
  {
    var p := infos[..|infos| - 1];
    TableRowCount(infos);
    TableRowCount(p);
    if k == |infos| - 1 {
      assert infos[..k] == p;
    } else {
      assert p[..k] == infos[..k];
      assert p[k] == infos[k];
      TableRowAt(p, k, j);
    }
  }

  /** The rows of two reports placed one after the other are the rows of the first, then of the second. */
  lemma {:induction false} TableRowsAppend(a: seq<PodInfo>, b: seq<PodInfo>)
    ensures TableRows(a + b) == TableRows(a) + TableRows(b)
    decreases |b|
  {
    if b == [] {
      assert a + b == a;
    } else {
      var b' := b[..|b| - 1];
      assert (a + b)[..|a + b| - 1] == a + b';
      assert (a + b)[|a + b| - 1] == b[|b| - 1];
      TableRowsAppend(a, b');
    }
  }

  /** When no value holds a tab, every row reads back as its seven cells,
      lined up with the seven header cells. */
  lemma RowColumns(info: PodInfo, pv: PVDetails)
    requires forall k :: 0 <= k < 7 ==> '\t' !in RowCells(info, pv)[k]
    ensures SplitTabs(Row(info, pv)) == RowCells(info, pv)
    ensures SplitTabs(JoinTabs(HeaderCells)) == HeaderCells
    ensures |RowCells(info, pv)| == |HeaderCells| == 7
  {
    SplitJoin(RowCells(info, pv));
    SplitJoin(HeaderCells);
  }

  /** The nested loops that print the header, then one row per (pod, volume) pair. */
  method PrintTable(podInfos: seq<PodInfo>) returns (lines: seq<string>)
    ensures lines == TableLines(podInfos)
  {
    lines := [JoinTabs(HeaderCells)];
    var i := 0;
    while i < |podInfos|
      invariant 0 <= i <= |podInfos|
      invariant lines == [JoinTabs(HeaderCells)] + TableRows(podInfos[..i])
    {
      var info := podInfos[i];
      var j := 0;
      while j < |info.pvInfo|
        invariant 0 <= j <= |info.pvInfo|
        invariant lines == [JoinTabs(HeaderCells)] + TableRows(podInfos[..i]) + PodRows(info)[..j]
      {
        assert PodRows(info)[..j + 1] == PodRows(info)[..j] + [Row(info, info.pvInfo[j])];
        lines := lines + [Row(info, info.pvInfo[j])];
        j := j + 1;
      }
      assert PodRows(info)[..j] == PodRows(info);
      assert podInfos[..i + 1][..i] == podInfos[..i];
      i := i + 1;
    }
    assert podInfos[..i] == podInfos;
  }
}
