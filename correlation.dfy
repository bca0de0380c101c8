/**
 * What the report is: the value the correlation loop computes for a pod
 * list over a snapshot, defined by recursion on prefixes so that it follows
 * the loop that builds it, together with the properties of that value.
 */
module Correlation {
  import opened Cluster

  /** One claim-backed volume of a pod. */
  datatype PVDetails = PVDetails(pvcName: string, pvName: string, pvZone: string)

  /** One row of the report per listed pod. */
  datatype PodInfo = PodInfo(
    podName: string,
    nodeName: string,
    nodeZone: string,
    pvInfo: seq<PVDetails>,
    zoneMatched: bool)

  // ---------------------------------------------------------------------------
  // Claim-backed volumes of a pod

  /** The claim names of the claim-backed volumes, in spec order; every other
      volume kind is skipped. */
  function ClaimNames(vols: seq<VolumeSource>): (names: seq<string>)
    ensures |names| <= |vols|
    decreases |vols|
  {
    if vols == [] then []
    else
      var rest := ClaimNames(vols[..|vols| - 1]);
      match vols[|vols| - 1]
      case ClaimVolume(n) => rest + [n]
      case OtherVolume => rest
  }

  /** The filter distributes over concatenation, so it keeps spec order. */
  lemma {:induction false} ClaimNamesAppend(a: seq<VolumeSource>, b: seq<VolumeSource>)
    ensures ClaimNames(a + b) == ClaimNames(a) + ClaimNames(b)
    decreases |b|
  {
    if b != [] {
      var b' := b[..|b| - 1];
      assert (a + b)[..|a + b| - 1] == a + b';
      assert (a + b)[|a + b| - 1] == b[|b| - 1];
      ClaimNamesAppend(a, b');
    } else {
      assert a + b == a;
    }
  }

  /** A name is kept exactly when the pod has a claim-backed volume for it. */
  lemma {:induction false} ClaimNamesMembership(vols: seq<VolumeSource>, n: string)
    ensures n in ClaimNames(vols) <==> ClaimVolume(n) in vols
    decreases |vols|
  {
    if vols != [] {
      var p := vols[..|vols| - 1];
      assert vols == p + [vols[|vols| - 1]];
      ClaimNamesMembership(p, n);
    }
  }

  /** The positions of the claim-backed volumes in a pod spec. */
  function ClaimPositions(vols: seq<VolumeSource>): set<nat>
  {
    set k: nat | k < |vols| && vols[k].ClaimVolume?
  }

  /** There are exactly as many claim names as claim-backed volumes. */
  lemma {:induction false} ClaimNamesCount(vols: seq<VolumeSource>)
    ensures |ClaimNames(vols)| == |ClaimPositions(vols)|
    decreases |vols|
  {
    if vols == [] {
      assert ClaimPositions(vols) == {};
    } else {
      var n := |vols| - 1;
      var p := vols[..n];
      ClaimNamesCount(p);
      assert forall k :: 0 <= k < n ==> p[k] == vols[k];
      assert n !in ClaimPositions(p);
      if vols[n].ClaimVolume? {
        assert ClaimPositions(vols) == ClaimPositions(p) + {n};
      } else {
        assert ClaimPositions(vols) == ClaimPositions(p);
      }
    }
  }

  // ---------------------------------------------------------------------------
  // Claim -> volume -> zone

  /** The claim is found and the volume it names is found. */
  predicate Resolvable(c: Snapshot, ns: string, claim: string)
  {
    (ns, claim) in c.claims && c.claims[(ns, claim)] in c.volumes
  }

  /** The details the tool records for a resolvable claim. */
  function Resolved(c: Snapshot, ns: string, claim: string): PVDetails
    requires Resolvable(c, ns, claim)
  {
    var pv := c.claims[(ns, claim)];
    PVDetails(claim, pv, ZoneOf(c.volumes[pv]))
  }

  /** Fetch the claim, then fetch the volume under whatever name the claim
      carries ("" for an unbound claim included), then read its zone. */
  function ResolveClaim(c: Snapshot, ns: string, claim: string): (r: Result<PVDetails>)
    ensures r.Ok? <==> Resolvable(c, ns, claim)
    ensures r.Ok? ==> r.value == Resolved(c, ns, claim)
    ensures (ns, claim) !in c.claims ==> r == Err(ClaimNotFound(ns, claim))
    ensures (ns, claim) in c.claims && !Resolvable(c, ns, claim) ==>
              r == Err(VolumeNotFound(c.claims[(ns, claim)]))
  {
    if (ns, claim) !in c.claims then Err(ClaimNotFound(ns, claim))
    else
      var pv := c.claims[(ns, claim)];
      if pv !in c.volumes then Err(VolumeNotFound(pv))
      else Ok(PVDetails(claim, pv, ZoneOf(c.volumes[pv])))
  }

  /** Resolve the claims in order, stopping at the first failure. */
  function ResolveClaims(c: Snapshot, ns: string, names: seq<string>): Result<seq<PVDetails>>
    decreases |names|
  {
    if names == [] then Ok([])
    else
      match ResolveClaims(c, ns, names[..|names| - 1])
      case Err(e) => Err(e)
      case Ok(ds) =>
        match ResolveClaim(c, ns, names[|names| - 1])
        case Err(e) => Err(e)
        case Ok(d) => Ok(ds + [d])
  }

  /** A successful resolution has one entry per claim, in claim order, each
      the resolution of its own claim; and conversely. */
  lemma {:induction false} ResolveClaimsOk(c: Snapshot, ns: string, names: seq<string>, ds: seq<PVDetails>)
    ensures ResolveClaims(c, ns, names) == Ok(ds) <==>
              |ds| == |names| && forall k :: 0 <= k < |names| ==> ResolveClaim(c, ns, names[k]) == Ok(ds[k])
    decreases |names|
  {
    if names != [] {
      var n := |names|;
      var p := names[..n - 1];
      if |ds| == n {
        ResolveClaimsOk(c, ns, p, ds[..n - 1]);
        assert forall k :: 0 <= k < n - 1 ==> p[k] == names[k] && ds[..n - 1][k] == ds[k];
        if ResolveClaims(c, ns, p).Ok? && ResolveClaim(c, ns, names[n - 1]).Ok? {
          assert ds == ds[..n - 1] + [ds[n - 1]];
        }
      } else if ResolveClaims(c, ns, names) == Ok(ds) {
        var dp := ResolveClaims(c, ns, p).value;
        ResolveClaimsOk(c, ns, p, dp);
        assert false;
      }
    }
  }

  /** The whole resolution succeeds exactly when every claim is resolvable. */
  lemma {:induction false} ResolveClaimsSucceeds(c: Snapshot, ns: string, names: seq<string>)
    ensures ResolveClaims(c, ns, names).Ok? <==> forall k :: 0 <= k < |names| ==> Resolvable(c, ns, names[k])
    decreases |names|
  {
    if names != [] {
      var p := names[..|names| - 1];
      ResolveClaimsSucceeds(c, ns, p);
      assert forall k :: 0 <= k < |p| ==> p[k] == names[k];
    }
  }

  /** A failed resolution reports the error of the first unresolvable claim. */
  lemma {:induction false} ResolveClaimsErr(c: Snapshot, ns: string, names: seq<string>, e: Error)
    requires ResolveClaims(c, ns, names) == Err(e)
    ensures exists k :: 0 <= k < |names| && ResolveClaim(c, ns, names[k]) == Err(e) &&
              forall j :: 0 <= j < k ==> Resolvable(c, ns, names[j])
    decreases |names|
  {
    var n := |names|;
    var p := names[..n - 1];
    assert forall j :: 0 <= j < |p| ==> p[j] == names[j];
    if ResolveClaims(c, ns, p).Err? {
      ResolveClaimsErr(c, ns, p, e);
      var k :| 0 <= k < |p| && ResolveClaim(c, ns, p[k]) == Err(e) &&
                forall j :: 0 <= j < k ==> Resolvable(c, ns, p[j]);
      assert ResolveClaim(c, ns, names[k]) == Err(e);
    } else {
      ResolveClaimsSucceeds(c, ns, p);
      assert ResolveClaim(c, ns, names[n - 1]) == Err(e);
    }
  }

  /** Once a prefix has failed, resolving more claims keeps that failure. */
  lemma {:induction false} ResolveClaimsErrExtends(c: Snapshot, ns: string, xs: seq<string>, ys: seq<string>)
    requires ResolveClaims(c, ns, xs).Err?
    ensures ResolveClaims(c, ns, xs + ys) == ResolveClaims(c, ns, xs)
    decreases |ys|
  {
    if ys == [] {
      assert xs + ys == xs;
    } else {
      var ys' := ys[..|ys| - 1];
      assert (xs + ys)[..|xs + ys| - 1] == xs + ys';
      ResolveClaimsErrExtends(c, ns, xs, ys');
    }
  }

  // ---------------------------------------------------------------------------
  // The zone-matched flag

  /** The flag as the inner loop leaves it: cleared for the pod, set by every
      volume whose zone equals the node zone, never cleared again. */
  function ZoneFlag(ds: seq<PVDetails>, zone: string): bool
    decreases |ds|
  {
    if ds == [] then false
    else ZoneFlag(ds[..|ds| - 1], zone) || ds[|ds| - 1].pvZone == zone
  }

  /** The flag is set exactly when some volume's zone equals the node zone,
      under plain string equality (so "" equals ""). */
  lemma {:induction false} ZoneFlagExists(ds: seq<PVDetails>, zone: string)
    ensures ZoneFlag(ds, zone) <==> exists k :: 0 <= k < |ds| && ds[k].pvZone == zone
    decreases |ds|
  {
    if ds != [] {
      var p := ds[..|ds| - 1];
      ZoneFlagExists(p, zone);
      assert forall k :: 0 <= k < |p| ==> p[k] == ds[k];
    }
  }

  /** Once set after some volumes, the flag stays set after more of them. */
  lemma {:induction false} ZoneFlagMonotone(ds: seq<PVDetails>, zone: string, i: nat, j: nat)
    requires i <= j <= |ds|
    requires ZoneFlag(ds[..i], zone)
    ensures ZoneFlag(ds[..j], zone)
    decreases j - i
  {
    if i < j {
      assert ds[..i + 1][..i] == ds[..i];
      ZoneFlagMonotone(ds, zone, i + 1, j);
    }
  }

  // ---------------------------------------------------------------------------
  // One pod

  /** The report row for one pod: the node is fetched whatever its name (""
      included), then every claim-backed volume is resolved. */
  function Correlate(c: Snapshot, pod: Pod): Result<PodInfo>
  {
    if pod.nodeName !in c.nodes then Err(NodeNotFound(pod.nodeName))
    else
      var zone := ZoneOf(c.nodes[pod.nodeName]);
      match ResolveClaims(c, pod.namespace, ClaimNames(pod.volumes))
      case Err(e) => Err(e)
      case Ok(ds) => Ok(PodInfo(pod.name, pod.nodeName, zone, ds, ZoneFlag(ds, zone)))
  }

  /** Every field of a successfully built row, in terms of the pod and the snapshot. */
  lemma CorrelateOk(c: Snapshot, pod: Pod, info: PodInfo)
    requires Correlate(c, pod) == Ok(info)
    ensures info.podName == pod.name && info.nodeName == pod.nodeName
    ensures pod.nodeName in c.nodes && info.nodeZone == ZoneOf(c.nodes[pod.nodeName])
    ensures |info.pvInfo| == |ClaimNames(pod.volumes)|
    ensures forall k :: 0 <= k < |info.pvInfo| ==>
              Resolvable(c, pod.namespace, ClaimNames(pod.volumes)[k]) &&
              info.pvInfo[k] == Resolved(c, pod.namespace, ClaimNames(pod.volumes)[k])
    ensures info.zoneMatched <==> exists k :: 0 <= k < |info.pvInfo| && info.pvInfo[k].pvZone == info.nodeZone
  {
    ResolveClaimsOk(c, pod.namespace, ClaimNames(pod.volumes), info.pvInfo);
    ZoneFlagExists(info.pvInfo, info.nodeZone);
  }

  /** The row fails exactly when the node, or some claim or its volume, is
      missing; a missing node is reported first. */
  lemma CorrelateErr(c: Snapshot, pod: Pod)
    ensures Correlate(c, pod).Err? <==>
              pod.nodeName !in c.nodes ||
              exists k :: 0 <= k < |ClaimNames(pod.volumes)| && !Resolvable(c, pod.namespace, ClaimNames(pod.volumes)[k])
    ensures pod.nodeName !in c.nodes ==> Correlate(c, pod) == Err(NodeNotFound(pod.nodeName))
  {
    var names := ClaimNames(pod.volumes);
    ResolveClaimsSucceeds(c, pod.namespace, names);
    if pod.nodeName in c.nodes && ResolveClaims(c, pod.namespace, names).Ok? {
      assert Correlate(c, pod).Ok?;
    }
  }

  /** A pod without claim-backed volumes gets no volumes and an unset flag. */
  lemma NoClaimVolumes(c: Snapshot, pod: Pod, info: PodInfo)
    requires Correlate(c, pod) == Ok(info)
    requires forall v :: v in pod.volumes ==> v.OtherVolume?
    ensures info.pvInfo == [] && !info.zoneMatched
  {
    var names := ClaimNames(pod.volumes);
    if names != [] {
      ClaimNamesMembership(pod.volumes, names[0]);
      assert false;
    }
  }

  /** Two missing zone labels count as a match: when the pod's node has no
      zone label, any resolved claim whose volume has none either makes the
      pod zone matched. */
  lemma UnlabelledZonesMatch(c: Snapshot, pod: Pod, info: PodInfo, k: nat)
    requires Correlate(c, pod) == Ok(info)
    requires pod.nodeName in c.nodes && ZoneLabel !in c.nodes[pod.nodeName]
    requires k < |ClaimNames(pod.volumes)| && Resolvable(c, pod.namespace, ClaimNames(pod.volumes)[k])
    requires ZoneLabel !in c.volumes[c.claims[(pod.namespace, ClaimNames(pod.volumes)[k])]]
    ensures info.nodeZone == "" && k < |info.pvInfo| && info.pvInfo[k].pvZone == ""
    ensures info.zoneMatched
  {
    CorrelateOk(c, pod, info);
    assert info.pvInfo[k].pvZone == "";
  }

  /** An example of the above: a node and a bound volume, neither labelled
      with a zone, give a matched pod. */
  lemma EmptyZonesMatch()
    ensures
      var c := Snapshot(map["node-a" := map[]], map[("default", "data") := "pv-1"], map["pv-1" := map[]]);
      var pod := Pod("web-0", "default", "node-a", [ClaimVolume("data")]);
      Correlate(c, pod) == Ok(PodInfo("web-0", "node-a", "", [PVDetails("data", "pv-1", "")], true))
  {
  }

  /** Object names in a cluster are never empty, so no node and no volume
      is found under the name "". */
  predicate NamesNonEmpty(c: Snapshot)
  {
    "" !in c.nodes && "" !in c.volumes
  }

  /** With real object names, an unscheduled pod always fails its node lookup. */
  lemma UnscheduledPodFails(c: Snapshot, pod: Pod)
    requires NamesNonEmpty(c) && pod.nodeName == ""
    ensures Correlate(c, pod) == Err(NodeNotFound(""))
  {
  }

  /** With real object names, an unbound claim on a pod whose node is found
      fails the whole row, with the volume lookup for "" if the claims
      before it resolve. */
  lemma UnboundClaimFails(c: Snapshot, pod: Pod, k: nat)
    requires NamesNonEmpty(c)
    requires k < |ClaimNames(pod.volumes)|
    requires (pod.namespace, ClaimNames(pod.volumes)[k]) in c.claims
    requires c.claims[(pod.namespace, ClaimNames(pod.volumes)[k])] == ""
    ensures Correlate(c, pod).Err?
    ensures ResolveClaim(c, pod.namespace, ClaimNames(pod.volumes)[k]) == Err(VolumeNotFound(""))
  {
    CorrelateErr(c, pod);
  }

  // ---------------------------------------------------------------------------
  // The whole report

  /** The report: one row per listed pod, in list order, or the first failure. */
  function Report(c: Snapshot, pods: seq<Pod>): Result<seq<PodInfo>>
    decreases |pods|
  {
    if pods == [] then Ok([])
    else
      match Report(c, pods[..|pods| - 1])
      case Err(e) => Err(e)
      case Ok(infos) =>
        match Correlate(c, pods[|pods| - 1])
        case Err(e) => Err(e)
        case Ok(info) => Ok(infos + [info])
  }

  /** A report is exactly one successfully built row per pod, in list order. */
  lemma {:induction false} ReportOk(c: Snapshot, pods: seq<Pod>, infos: seq<PodInfo>)
    ensures Report(c, pods) == Ok(infos) <==>
              |infos| == |pods| && forall k :: 0 <= k < |pods| ==> Correlate(c, pods[k]) == Ok(infos[k])
    decreases |pods|
  {
    if pods != [] {
      var n := |pods|;
      var p := pods[..n - 1];
      if |infos| == n {
        ReportOk(c, p, infos[..n - 1]);
        assert forall k :: 0 <= k < n - 1 ==> p[k] == pods[k] && infos[..n - 1][k] == infos[k];
        if Report(c, p).Ok? && Correlate(c, pods[n - 1]).Ok? {
          assert infos == infos[..n - 1] + [infos[n - 1]];
        }
      } else if Report(c, pods) == Ok(infos) {
        var ip := Report(c, p).value;
        ReportOk(c, p, ip);
        assert false;
      }
    }
  }

  /** There is no partial report: the run succeeds exactly when every pod's row can be built. */
  lemma {:induction false} ReportSucceeds(c: Snapshot, pods: seq<Pod>)
    ensures Report(c, pods).Ok? <==> forall k :: 0 <= k < |pods| ==> Correlate(c, pods[k]).Ok?
    decreases |pods|
  {
    if pods != [] {
      var p := pods[..|pods| - 1];
      ReportSucceeds(c, p);
      assert forall k :: 0 <= k < |p| ==> p[k] == pods[k];
    }
  }

  /** A failed report carries the error of the first pod whose row fails. */
  lemma {:induction false} ReportErr(c: Snapshot, pods: seq<Pod>, e: Error)
    requires Report(c, pods) == Err(e)
    ensures exists k :: 0 <= k < |pods| && Correlate(c, pods[k]) == Err(e) &&
              forall j :: 0 <= j < k ==> Correlate(c, pods[j]).Ok?
    decreases |pods|
  {
    var n := |pods|;
    var p := pods[..n - 1];
    assert forall j :: 0 <= j < |p| ==> p[j] == pods[j];
    if Report(c, p).Err? {
      ReportErr(c, p, e);
      var k :| 0 <= k < |p| && Correlate(c, p[k]) == Err(e) &&
                forall j :: 0 <= j < k ==> Correlate(c, p[j]).Ok?;
      assert Correlate(c, pods[k]) == Err(e);
    } else {
      ReportSucceeds(c, p);
      assert Correlate(c, pods[n - 1]) == Err(e);
    }
  }

  /** Once a prefix of the pods has failed, later pods do not change the outcome. */
  lemma {:induction false} ReportErrExtends(c: Snapshot, xs: seq<Pod>, ys: seq<Pod>)
    requires Report(c, xs).Err?
    ensures Report(c, xs + ys) == Report(c, xs)
    decreases |ys|
  {
    if ys == [] {
      assert xs + ys == xs;
    } else {
      var ys' := ys[..|ys| - 1];
      assert (xs + ys)[..|xs + ys| - 1] == xs + ys';
      ReportErrExtends(c, xs, ys');
    }
  }

  /** Pod and node names are copied verbatim, one row per pod, in list order. */
  lemma ReportOrder(c: Snapshot, pods: seq<Pod>, infos: seq<PodInfo>)
    requires Report(c, pods) == Ok(infos)
    ensures |infos| == |pods|
    ensures forall k :: 0 <= k < |pods| ==>
              infos[k].podName == pods[k].name && infos[k].nodeName == pods[k].nodeName
  {
    ReportOk(c, pods, infos);
    forall k | 0 <= k < |pods|
      ensures infos[k].podName == pods[k].name && infos[k].nodeName == pods[k].nodeName
    {
      CorrelateOk(c, pods[k], infos[k]);
    }
  }
}
