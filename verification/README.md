# port-ranger, modelled in Dafny

port-ranger is a one-shot command-line tool that reads a Kubernetes manifest
and fills in a contiguous range of network ports:

- for a `Service`, it appends to `spec.ports` one entry for every
  `(port, protocol)` pair of the range that the list does not already hold,
  naming each new entry `{identifier}-{protocol in lower case}-{index}`, where
  the index counts only the entries actually added;
- for a `UDPRoute`, it cuts the inclusive range into consecutive chunks of
  `--chunk-size` ports and emits one fresh `UDPRoute` document per chunk,
  named `{identifier}-udp-route-{k}`, whose single rule lists the chunk's
  ports as backend references to `{identifier}-service` in the manifest's
  namespace (default `default`), attached to the gateway `envoy-gateway`;
- the manifest's `kind`, compared without regard to case, selects between the
  two; `UDPRoute` accepts only the `UDP` or `both` protocol choice and any
  other kind is refused.

The model has five modules:

- `Common` (common.dfy): option and result types, the error cases, ASCII
  lower-casing and decimal rendering of the name indices, with the facts
  that make generated names distinct.
- `Manifests` (manifests.dfy): the parts of a manifest the tool reads or
  writes. The loaded document is a class, because the Service path changes
  its `spec` in place.
- `ServicePorts` (service_ports.dfy): the Service expander. `Expanded` is
  the specification on values. `ExpandPorts`, `VisitPort` and `VisitPair`
  are the script's nested loops, with the `existing_ports` lookup and the
  `index` counter, proved to compute `Expanded`.
  `ExtractPortsForService` stores the result into the manifest object.
- `UdpRoutes` (udp_routes.dfy): the chunker and the route documents, as
  functions over values, the way the script builds them into fresh lists.
- `Dispatch` (dispatch.dfy): the case analysis of `generate_service_names`
  (`Decide`) and the driver that runs the chosen branch on the manifest.

## Model

| member | source | states |
|---|---|---|
| Common.Lower | port-ranger.py:20 | ASCII lower-casing, standing for `str.lower()`, keeps the length, leaves no capital letter, changes no other character and maps each capital to its small letter |
| Common.LowerIdempotent | port-ranger.py:94 | lower-casing an already lower-cased kind changes nothing |
| Common.Decimal | port-ranger.py:20 | the rendered index is a non-empty string of digits that starts with `0` only for the index 0 |
| Common.DecimalRoundTrip | port-ranger.py:20 | reading a rendered index back gives the index |
| Common.DecimalInjective | port-ranger.py:20 | distinct indices render differently |
| Common.DigitSuffixDetermined | port-ranger.py:20 | in `head-digits`, the digits after the last dash are determined by the string, whatever the head |
| Common.NumberedNameInjective | port-ranger.py:20 | two names `head-str(m)` and `head'-str(n)` that are equal have `m == n` |
| Manifests.PortsOrEmpty | port-ranger.py:9 | the port list read from the manifest is `spec.ports` when both keys are present and the empty list when either is absent |
| Manifests.KindOf | port-ranger.py:94 | the kind read from the manifest is its `kind`, or the empty string when the key is absent |
| Manifests.NamespaceOf | port-ranger.py:38 | the namespace is `metadata.namespace` when both keys are present and `default` when either is absent |
| ServicePorts.Pairs | port-ranger.py:13-14 | the sequence of `(port, protocol)` pairs the nested loops visit; its contents and order are stated by `PairsMembers`, `PairsLength` and `PairsAt` |
| ServicePorts.PairsMembers | port-ranger.py:13-14 | the nested loops visit exactly the pairs with a port in `[start, end]` and a requested protocol, ports ascending |
| ServicePorts.PairsLength | port-ranger.py:13-14 | the loops visit `(end - start + 1) * len(protocols)` pairs, none for an empty range |
| ServicePorts.PairsAt | port-ranger.py:13-14 | visit number `(p - start) * len(protocols) + j` is `(p, protocols[j])`: port first, then protocol in the given order |
| ServicePorts.PairsDistinct | port-ranger.py:13-14 | with distinct protocols no pair is visited twice |
| ServicePorts.Absent | port-ranger.py:15-24 | the pairs the loops insert: a visited pair is inserted when neither the original lookup nor an earlier insertion holds it; its properties are stated by `AbsentMembers` and `AbsentOfDistinct` |
| ServicePorts.AbsentMembers | port-ranger.py:15-24 | the inserted pairs are the visited pairs missing from the original lookup, none inserted twice, and none at all when every visited pair was present |
| ServicePorts.AbsentOfDistinct | port-ranger.py:13-24 | when no pair repeats, the inserted pairs are the unseen visited pairs, in visiting order |
| ServicePorts.EntryName | port-ranger.py:20 | the generated name starts with the identifier followed by a dash, and is two characters longer than the identifier, the protocol and the rendered index together |
| ServicePorts.EntryNameIndex | port-ranger.py:20 | two generated names that are equal carry the same index, whatever their identifiers and protocols |
| ServicePorts.Expanded | port-ranger.py:9-26 | the original entries are a prefix of the result, unchanged and in place; an empty range (`start > end`) appends nothing |
| ServicePorts.ExpandedCovers | port-ranger.py:13-24 | afterwards every pair of the range crossed with the protocols is in the list |
| ServicePorts.ExpandedAdditions | port-ranger.py:13-23 | each appended entry has `targetPort == port`, a port in the range, a requested protocol, a key the original list lacked, and the name `identifier-lower(protocol)-i` with `i` its 1-based position among the appended entries |
| ServicePorts.ExpandedAddsOnce | port-ranger.py:15-24 | no key is appended twice |
| ServicePorts.ExpandedNamesDistinct | port-ranger.py:11-23 | the appended entries carry pairwise distinct names |
| ServicePorts.ExpandedUniqueKeys | port-ranger.py:10-24 | a list without repeated `(port, protocol)` keys stays without them |
| ServicePorts.ExpandedOrder | port-ranger.py:13-22 | with distinct protocols the appended keys are exactly the missing pairs, by ascending port and then protocol as supplied |
| ServicePorts.ExpandedIdempotent | port-ranger.py:13-24 | running the expander on its own output with the same arguments leaves the list equal |
| ServicePorts.ExpandedExample | port-ranger.py:4-27 | no ports, `api`, 8000 to 8002, TCP and UDP give `api-tcp-1`, `api-udp-2`, ..., `api-udp-6` in visiting order |
| ServicePorts.VisitStep | port-ranger.py:15-24 | visiting one more pair appends its entry, numbered one past the entries appended so far, exactly when the lookup lacks it |
| ServicePorts.VisitPair | port-ranger.py:15-24 | the inner loop body keeps the list equal to the expansion of the pairs visited so far, the lookup equal to its keys and the index one past the number of insertions |
| ServicePorts.VisitPort | port-ranger.py:14-24 | the inner loop over the protocols extends the visited pairs by one port's row and keeps the same invariant |
| ServicePorts.ExpandPorts | port-ranger.py:9-25 | the nested loops, with the mutable lookup and index, produce exactly `Expanded` of the original list |
| ServicePorts.ExtractPortsForService | port-ranger.py:4-27 | `spec.ports` becomes `Expanded` of the old list (or of the empty list when `ports` is absent); a manifest without `spec` fails with the KeyError and is left as it was; `kind` and `metadata` are untouched |
| UdpRoutes.PortRange | port-ranger.py:35 | `range(start, end + 1)`: `end - start + 1` consecutive ports from `start`, none when `end < start` |
| UdpRoutes.Chunks | port-ranger.py:36 | the comprehension of slices: no chunks exactly when the range is empty, and never more chunks than ports; its sizes, order and slices are stated by `ChunkSizes`, `ChunksFlatten`, `ChunkCount` and `ChunkAt` |
| UdpRoutes.ChunkSizes | port-ranger.py:36 | for a positive chunk size no chunk is empty, none exceeds the chunk size, and all but the last hold exactly the chunk size |
| UdpRoutes.ChunksFlatten | port-ranger.py:36 | the chunks, concatenated in order, give back the range |
| UdpRoutes.ChunkCount | port-ranger.py:36 | there are `ceil(n / chunk_size)` chunks, and none for an empty range |
| UdpRoutes.ChunkAt | port-ranger.py:36 | chunk `k` is the slice `[k * chunk_size : k * chunk_size + chunk_size]`, as the comprehension builds it |
| UdpRoutes.RouteFor | port-ranger.py:41-70 | the document for one chunk is named `identifier-udp-route-number`, sits in the given namespace, has the single parent reference to `envoy-gateway` in that namespace and a single rule whose backend references carry exactly the chunk's ports, in order |
| UdpRoutes.RoutesFor | port-ranger.py:40-71 | one document per chunk; the `k`-th (0-based) is named `identifier-udp-route-(k+1)` and sits in the given namespace |
| UdpRoutes.GenerateUdpRoutes | port-ranger.py:29-73 | a chunk size of 0 is the `range` error and the only error; a negative chunk size or an empty port range gives no documents |
| UdpRoutes.RoutesForPorts | port-ranger.py:40-53 | route `k`'s backend references list chunk `k`'s ports in order |
| UdpRoutes.RoutesPartitionRange | port-ranger.py:35-53 | the routes' ports, concatenated in route order, are exactly `start, ..., end` |
| UdpRoutes.RoutesSized | port-ranger.py:35-53 | `ceil(n / chunk_size)` routes; each has 1 to `chunk_size` backend references, all but the last exactly `chunk_size` |
| UdpRoutes.RouteCarriesSlice | port-ranger.py:35-53 | route `k` carries the ports `start + k * chunk_size` up to `start + k * chunk_size + chunk_size - 1`, cut off at `end`, ascending |
| UdpRoutes.RouteShape | port-ranger.py:38-71 | route `k` has the fixed apiVersion and kind, the name `identifier-udp-route-(k+1)`, the resolved namespace in its metadata, one parent reference to `envoy-gateway` in that namespace, and one rule whose backend references name `identifier-service` of kind `Service` in that namespace |
| UdpRoutes.RouteNamesDistinct | port-ranger.py:58 | the generated route names are pairwise distinct |
| UdpRoutes.RoutesExample | port-ranger.py:29-73 | namespace `ns1`, `game`, 49152 to 49154 in chunks of 2 give `game-udp-route-1` with 49152 and 49153 and `game-udp-route-2` with 49154 |
| Dispatch.ChoiceName | port-ranger.py:97-100 | each protocol choice has its own name: `TCP`, `UDP` or `both`, in both directions |
| Dispatch.Decide | port-ranger.py:94-116 | `service` (any case) expands with `[TCP, UDP]` for `both` and the one protocol otherwise, never repeating a protocol; `udproute` runs the generator unless the choice is TCP, which is refused; every other kind is refused; each direction holds |
| Dispatch.DecideIgnoresCase | port-ranger.py:94 | the decision depends on `kind` only through its lower-cased form |
| Dispatch.GenerateServiceNames | port-ranger.py:94-116 | a refused kind or protocol fails and leaves the manifest unchanged; the UDPRoute branch leaves it unchanged and returns the generator's documents or error; the Service branch stores `Expanded` into `spec.ports` or fails on a missing `spec` |

## Left out

- YAML parsing and serialisation (`yaml.safe_load`, `yaml.dump`,
  `yaml.dump_all`): the manifest is a record of the fields the tool reads
  and writes, not a YAML tree.
- File input and output and the final success message: the driver returns
  the document(s) to be written instead of writing them.
- Command-line parsing by click: the protocol choice arrives as `TCP`, `UDP`
  or `both` (`ProtocolChoice`); the ports and chunk size arrive as integers.
- Malformed manifests: a `metadata` or `spec` that is not a mapping, a null
  `ports`, or a port entry without `port` or `protocol` (which raise inside
  the dict comprehension at line 10), a `kind` that is not a string (such as
  `kind: 5`, which raises AttributeError on `.lower()` at line 94), or an
  empty YAML document (where `data` is None and `data.get` fails at line
  94). The typed record cannot express them.
- Manifests.NamespaceOf: a `namespace` key that is present but null is
  treated as absent and gives `default`; the script instead writes
  `namespace: null` into every generated route, parent reference and
  backend reference.
- Manifests.KindOf: a `kind` key that is present but null is treated as
  absent, so the model refuses the manifest as an unsupported kind; the
  script instead fails with an AttributeError on `.lower()` at line 94.
- The values of the `existing_ports` dictionary are never read, so the
  lookup is modelled as the set of its keys.
- Common.Lower: only ASCII capitals are folded; Python's `str.lower()` also
  folds other Unicode letters.
- ServicePorts.ExtractPortsForService: the script appends to the very list
  object held in `spec.ports` and stores it back; the model computes the new
  list as a value and assigns it to the `spec` field, so it has the same
  final state but no aliasing.
- Existing backend references of a UDPRoute input are never read by the
  script, so the model has no field for them.

Behaviour of the code worth knowing, which the model follows:

- `--chunk-size` defaults to 0 (line 82, help text "Chunk size for creating
  multiple UDPRoute objects."), and the UDPRoute docstring (line 32) says
  multiple objects are created "if chunk size is specified"; but with the
  default 0, `range(0, len(all_ports), 0)` at line 36 raises, so
  `GenerateUdpRoutes` returns `Err(ChunkSizeZero)`.
- A negative chunk size yields no route documents at all.
- The read at line 9 (`data.get('spec', {})`) tolerates a manifest without
  `spec`, but the store at line 26 (`data['spec']['ports'] = ports`) raises,
  so `ExtractPortsForService` returns `Err(MissingSpec)`.
- Generated names are distinct from each other (`ExpandedNamesDistinct`),
  but nothing checks them against names the original entries already carry.
