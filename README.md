# kubectl-zonepeek, modelled in Dafny

kubectl-zonepeek lists the pods matched by a label selector. For each pod it
reports the node the pod runs on and that node's availability zone. It also
reports every persistent volume the pod mounts through a claim, with that
volume's zone. A pod is "zone matched" when one of its volumes is in its
node's zone. The report is written as a table (the default), as text or as
JSON.

This project models the report-building pass and the text and table
renderers.

- The three cluster reads (get node, get claim, get volume) become finite
  maps in a `Snapshot`. A missing key is a failed fetch.
- The pod list is an input.
- A failed fetch, which panics in the tool, becomes the `Err` branch of
  `Result`. The whole report is lost, as it is when the tool panics.

Files:

- `cluster.dfy` (module `Cluster`): the snapshot, pods and their volume
  kinds, errors, and the zone-label read.
- `correlation.dfy` (module `Correlation`): `PodInfo` and `PVDetails`, and the
  report as a function of the snapshot and the pod list (`Report`,
  `Correlate`, `ResolveClaims`, `ClaimNames`, `ZoneFlag`). Also the lemmas
  that state what the report contains.
- `builder.dfy` (module `ReportBuilder`): the two nested loops of `main`, as
  methods. `CorrelatePod` updates a row field by field, as the source does.
  Each method is proved equal to the function in `Correlation`.
- `render.dfy` (module `Render`): the text and table renderers. Each is a
  function that gives the output lines, plus a method with the source's loops
  that is proved to produce those lines.
- `zonepeek.dfy` (module `ZonePeek`): the output-format switch, and `Run`.
  `Run` builds the report and then renders it.

Behaviours of the code that a reader might not expect, all kept in the
model:

- Zones are compared with plain string equality (main.go:104). A node and a
  volume that both lack a zone label (both zones `""`) therefore count as
  matched. See `UnlabelledZonesMatch` and `EmptyZonesMatch`.
- A pod whose node name is `""` still gets a node lookup, for the name `""`
  (main.go:79). Since no node has an empty name, that lookup fails and the
  whole run fails. See `UnscheduledPodFails`.
- An unbound claim names the volume `""`. That name is looked up like any
  other (main.go:92), so an unbound claim aborts the run. See
  `UnboundClaimFails`.
- The text output has one line per pod. The table has one row per (pod,
  volume) pair, so a pod with no claim-backed volumes has no table row.

## Model

| member | source | states |
|---|---|---|
| `Cluster.ZoneOf` | main.go:83 | the zone is the value of `topology.kubernetes.io/zone` when that label is present, and `""` (not an error) when it is absent |
| `Correlation.ClaimNames` | main.go:85-86 | the claim-backed volumes never outnumber the pod's volumes |
| `Correlation.ClaimNamesAppend` | main.go:85-86 | selecting claim-backed volumes distributes over concatenation, so claim names keep the spec's volume order |
| `Correlation.ClaimNamesCount` | main.go:85-86 | there are exactly as many claim names as claim-backed volumes in the pod spec |
| `Correlation.ClaimNamesMembership` | main.go:85-86 | a claim name is selected exactly when the pod has a claim-backed volume with that name; other volume kinds are skipped |
| `Correlation.ResolveClaim` | main.go:87-101 | resolving a claim succeeds exactly when the claim exists and so does the volume it names. Its entry holds the claim name, the bound volume name and that volume's zone. A missing claim gives `ClaimNotFound`. A missing volume, even for the name `""`, gives `VolumeNotFound` |
| `Correlation.ResolveClaimsOk` | main.go:85-102 | the resolved volumes are one entry per claim-backed volume, in order, each the resolution of its own claim; and conversely |
| `Correlation.ResolveClaimsSucceeds` | main.go:87-95 | resolving a pod's claims succeeds exactly when every one of them resolves |
| `Correlation.ResolveClaimsErr` | main.go:87-95 | a failed resolution carries the error of the first claim that does not resolve; all claims before it resolve |
| `Correlation.ResolveClaimsErrExtends` | main.go:87-95 | once a claim fails, the claims after it do not change the outcome |
| `Correlation.ZoneFlagExists` | main.go:104-106 | the flag is set exactly when some volume's zone equals the node zone under plain string equality; with no volumes it is false |
| `Correlation.ZoneFlagMonotone` | main.go:104-106 | once the flag is set after some of the volumes, it stays set after more of them |
| `Correlation.CorrelateOk` | main.go:74-108 | a built row copies the pod name and node name. Its zone is the node's zone label. It has one entry per claim-backed volume, in order, each resolved from the snapshot. It is matched exactly when some entry's zone equals the node zone |
| `Correlation.CorrelateErr` | main.go:79-95 | a row fails exactly when the node is missing or some claim or its volume is missing. A missing node, even the empty name, is reported as `NodeNotFound` before any claim |
| `Correlation.NoClaimVolumes` | main.go:74-108 | a pod without claim-backed volumes gets no volume entries and is not matched |
| `Correlation.UnlabelledZonesMatch` | main.go:104 | when the pod's node has no zone label, any resolved claim whose volume has no zone label either makes the pod zone matched, since both zones are `""` |
| `Correlation.EmptyZonesMatch` | main.go:104 | an example: one snapshot in which an unlabelled node and an unlabelled bound volume give a matched pod |
| `Correlation.UnscheduledPodFails` | main.go:79-82 | when no node has the empty name, a pod with node name `""` fails with `NodeNotFound("")` |
| `Correlation.UnboundClaimFails` | main.go:87-95 | when no volume has the empty name, a claim bound to `""` fails its volume lookup with `VolumeNotFound("")`, and the pod's row fails |
| `Correlation.ReportOk` | main.go:72-111 | a report is exactly one built row per listed pod, in list order |
| `Correlation.ReportSucceeds` | main.go:72-111 | there is no partial report: the run succeeds exactly when every pod's row can be built |
| `Correlation.ReportErr` | main.go:72-111 | a failed report carries the error of the first pod whose row fails |
| `Correlation.ReportErrExtends` | main.go:72-111 | once a pod fails, the pods after it do not change the outcome |
| `Correlation.ReportOrder` | main.go:74-77 | the report has as many rows as there are pods, and row k copies pod k's name and node name |
| `ReportBuilder.CorrelatePod` | main.go:74-108 | the per-pod loop body, updating the row field by field and setting the flag in the volume loop, computes the row `Correlate` defines, or its error |
| `ReportBuilder.ResolveClaimsFailAt` | main.go:85-95 | when the volumes before index i resolve and the claim at index i does not, the pod's resolution fails with that claim's error |
| `ReportBuilder.BuildReport` | main.go:72-111 | the outer loop, appending one row per pod, computes the report `Report` defines, or the first error |
| `Render.TextLinesAt` | main.go:131-135 | the text output has exactly one line per pod, and line k is `Pod: <name>, Node: <node>, Node Zone: <zone>, Zone Matched: <true or false>` for pod k |
| `Render.PrintText` | main.go:131-135 | the printing loop writes exactly the text output lines |
| `Render.SplitJoin` | main.go:147 | cells without tabs, joined by tabs, read back as the same cells |
| `Render.RowColumns` | main.go:140-147 | the header reads back as `POD, NODE, NODE ZONE, ZONE MATCHED, PVC, PV, PV ZONE`. A row whose values hold no tab reads back as its seven values in the same column order |
| `Render.TableRowCount` | main.go:145-152 | the table has one row per (pod, volume) pair, so a pod with no volumes has no row |
| `Render.TableRowAt` | main.go:145-152 | the row for volume j of pod k follows the rows of all earlier pods and of the earlier volumes of pod k |
| `Render.TableRowsAppend` | main.go:145-146 | the rows of two reports placed one after the other are the first report's rows, then the second's |
| `Render.PrintTable` | main.go:137-153 | the nested printing loops write the header line, then exactly the table rows |
| `ZonePeek.ParseFormat` | main.go:113-120 | `json` selects JSON and `text` selects text. Every other value, including the default `table`, selects the table |
| `ZonePeek.Run` | main.go:72-120 | a run fails exactly when the report fails, with the report's error. Otherwise it gives the selected renderer's output for the whole report |

## Left out

- Kubeconfig discovery and client construction (main.go:38-53): these read the environment and the filesystem and call the Kubernetes client library.
- Flag parsing and the exit on an empty label selector (main.go:55-63): command-line plumbing.
- Listing pods by label selector (main.go:65-70): the cluster matches the selector, so the listed pods are an input.
- All lookups of a run read one fixed `Snapshot`. The tool makes a separate API read per pod and per claim at different times, so the cluster can change between them; the model does not capture that. For example, in the model two pods on the same node always get the same zone.
- A `Snapshot` may hold the empty name as a node or volume key, which Kubernetes never allows. `NamesNonEmpty` states that rule, and only the lemmas that depend on it assume it.
- The node, claim and volume fetches are map lookups. The model does not distinguish "not found" from a transport or authorisation failure, and the tool does not either: it panics on any error.
- `printJSON` (main.go:123-129): the encoding by `encoding/json` is not modelled. `Output.JsonDocument` stands for the document that encodes the report.
- Column padding by the tab writer, `Flush`, and the early return on a write error in `printTable`: the model's rows are cells joined by tab characters, and writes never fail.
- The trailing newline of each printed line, and the actual writes to standard output.
- `Render.SplitJoin` and `Render.RowColumns`: these need the values to hold no tab. A value with a tab shifts the columns in the real output as well.
