/**
 * The cluster snapshot the zone report is computed from.
 *
 * The four control-plane reads of the tool (list pods, get node, get claim,
 * get volume) are replaced by values: the pod list is an input, and the three
 * "get" calls become finite maps in which a missing key is a failed fetch.
 */
module Cluster {

  /** Labels of a node or a persistent volume. */
  type Labels = map<string, string>

  /** The well-known topology label the tool reads on nodes and volumes. */
  const ZoneLabel: string := "topology.kubernetes.io/zone"

  /** A volume in a pod spec: only claim-backed volumes matter to the report,
      every other kind (config map, secret, empty dir, ...) is Other. */
  datatype VolumeSource = ClaimVolume(claimName: string) | OtherVolume

  /** The parts of a listed pod that the report reads. */
  datatype Pod = Pod(name: string, namespace: string, nodeName: string, volumes: seq<VolumeSource>)

  /** What the three lookups can see: node name to labels, (namespace, claim
      name) to the claim's bound volume name, volume name to labels. */
  datatype Snapshot = Snapshot(
    nodes: map<string, Labels>,
    claims: map<(string, string), string>,
    volumes: map<string, Labels>)

  /** The failed lookup that aborts the whole run. */
  datatype Error =
    | NodeNotFound(node: string)
    | ClaimNotFound(namespace: string, claim: string)
    | VolumeNotFound(volume: string)

  datatype Result<T> = Ok(value: T) | Err(error: Error)

  /** Indexing a Go map with a missing key yields the zero value, so an
      unlabelled node or volume has zone "" and that is not an error. */
  function ZoneOf(labels: Labels): (zone: string)
    ensures ZoneLabel in labels ==> zone == labels[ZoneLabel]
    ensures ZoneLabel !in labels ==> zone == ""
  {
    if ZoneLabel in labels then labels[ZoneLabel] else ""
  }
}
