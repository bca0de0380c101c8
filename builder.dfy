/**
 * The report-building pass: an outer loop over the listed pods and, for each
 * pod, an inner loop over its volumes that updates the pod's row field by
 * field. Each method is proved to compute the value that Correlation
 * defines, whose properties are proved there.
 */
module ReportBuilder {
  import opened Cluster
  import opened Correlation

  /** The body of the outer loop: build one pod's row, or fail on the first
      lookup that misses. */
  method CorrelatePod(c: Snapshot, pod: Pod) returns (r: Result<PodInfo>)
    ensures r == Correlate(c, pod)
  {
    var info := PodInfo(pod.name, pod.nodeName, "", [], false);
    // the node is fetched even when the pod names none
    if pod.nodeName !in c.nodes {
      return Err(NodeNotFound(pod.nodeName));
    }
    info := info.(nodeZone := ZoneOf(c.nodes[pod.nodeName]));

    ghost var vols := pod.volumes;
    var i := 0;
    while i < |pod.volumes|
      invariant 0 <= i <= |vols|
      invariant info.podName == pod.name && info.nodeName == pod.nodeName
      invariant info.nodeZone == ZoneOf(c.nodes[pod.nodeName])
      invariant ResolveClaims(c, pod.namespace, ClaimNames(vols[..i])) == Ok(info.pvInfo)
      invariant info.zoneMatched == ZoneFlag(info.pvInfo, info.nodeZone)
    {
      assert vols[..i + 1][..i] == vols[..i];
      ghost var names := ClaimNames(vols[..i]);
      match pod.volumes[i] {
        case ClaimVolume(claim) =>
          assert ClaimNames(vols[..i + 1]) == names + [claim];
          assert (names + [claim])[..|names|] == names;
          if (pod.namespace, claim) !in c.claims {
            ResolveClaimsFailAt(c, pod, i);
            return Err(ClaimNotFound(pod.namespace, claim));
          }
          // an unbound claim names volume "", which is looked up like any other
          var pvName := c.claims[(pod.namespace, claim)];
          if pvName !in c.volumes {
            ResolveClaimsFailAt(c, pod, i);
            return Err(VolumeNotFound(pvName));
          }
          var pvDetails := PVDetails(claim, pvName, ZoneOf(c.volumes[pvName]));
          assert (info.pvInfo + [pvDetails])[..|info.pvInfo|] == info.pvInfo;
          info := info.(pvInfo := info.pvInfo + [pvDetails]);
          if pvDetails.pvZone == info.nodeZone {
            info := info.(zoneMatched := true);
          }
        case OtherVolume =>
          assert ClaimNames(vols[..i + 1]) == names;
      }
      i := i + 1;
    }
    assert vols[..i] == vols;
    return Ok(info);
  }

  /** When the volumes before index i resolve and the claim at i does not,
      the pod's whole resolution fails with that claim's error. */
  lemma ResolveClaimsFailAt(c: Snapshot, pod: Pod, i: nat)
    requires i < |pod.volumes| && pod.volumes[i].ClaimVolume?
    requires ResolveClaims(c, pod.namespace, ClaimNames(pod.volumes[..i])).Ok?
    requires !Resolvable(c, pod.namespace, pod.volumes[i].claimName)
    ensures ResolveClaims(c, pod.namespace, ClaimNames(pod.volumes)) ==
              Err(ResolveClaim(c, pod.namespace, pod.volumes[i].claimName).error)
  {
    var vols := pod.volumes;
    var names := ClaimNames(vols[..i]);
    var claim := vols[i].claimName;
    assert vols[..i + 1][..i] == vols[..i];
    assert ClaimNames(vols[..i + 1]) == names + [claim];
    assert (names + [claim])[..|names|] == names;
    assert vols[..i + 1] + vols[i + 1..] == vols;
    ClaimNamesAppend(vols[..i + 1], vols[i + 1..]);
    ResolveClaimsErrExtends(c, pod.namespace, names + [claim], ClaimNames(vols[i + 1..]));
  }

  /** The outer loop: one row per listed pod, appended in list order; the
      first failure aborts the whole report. */
  method BuildReport(c: Snapshot, pods: seq<Pod>) returns (r: Result<seq<PodInfo>>)
    ensures r == Report(c, pods)
  {
    var podInfos: seq<PodInfo> := [];
    var i := 0;
    while i < |pods|
      invariant 0 <= i <= |pods|
      invariant Report(c, pods[..i]) == Ok(podInfos)
    {
      assert pods[..i + 1][..i] == pods[..i];
      var podInfo := CorrelatePod(c, pods[i]);
      match podInfo {
        case Err(e) =>
          assert Report(c, pods[..i + 1]) == Err(e);
          assert pods[..i + 1] + pods[i + 1..] == pods;
          ReportErrExtends(c, pods[..i + 1], pods[i + 1..]);
          return Err(e);
        case Ok(info) =>
          podInfos := podInfos + [info];
      }
      i := i + 1;
    }
    assert pods[..i] == pods;
    return Ok(podInfos);
  }
}
