/**
 * The body of `generate_service_names` (port-ranger.py lines 94-116) without
 * its file and YAML handling: the manifest's `kind`, compared without regard
 * to case, selects the Service expander or the UDPRoute generator.
 */
module Dispatch {
  import opened Common
  import opened Manifests
  import opened ServicePorts
  import opened UdpRoutes

  /** The `protocols` argument, as click's choice delivers it. */
  datatype ProtocolChoice = TCP | UDP | Both

  /** The branch `generate_service_names` takes. */
  datatype Action =
    | ExpandService(protocols: seq<string>)
    | GenerateRoutes
    | Reject(error: Error)

  /** `[protocols]` for a single protocol. */
  function ChoiceName(choice: ProtocolChoice): (r: string)
    ensures choice == TCP <==> r == "TCP"
    ensures choice == UDP <==> r == "UDP"
    ensures choice == Both <==> r == "both"
  {
    match choice
    case TCP => "TCP"
    case UDP => "UDP"
    case Both => "both"
  }

  /**
   * The case analysis on `kind.lower()` and the protocol choice: Service
   * expands with TCP then UDP for `both` and the one protocol otherwise;
   * UDPRoute needs UDP or `both`; any other kind is refused.
   */
  function Decide(kind: Option<string>, choice: ProtocolChoice): (a: Action)
    ensures a.ExpandService? <==> Lower(KindOf(kind)) == "service"
    ensures a.ExpandService? && choice == Both ==> a.protocols == ["TCP", "UDP"]
    ensures a.ExpandService? && choice == TCP ==> a.protocols == ["TCP"]
    ensures a.ExpandService? && choice == UDP ==> a.protocols == ["UDP"]
    ensures a.ExpandService? ==> Distinct(a.protocols)
    ensures a.GenerateRoutes? <==> Lower(KindOf(kind)) == "udproute" && choice != TCP
    ensures a == Reject(UdpRouteNeedsUdp) <==> Lower(KindOf(kind)) == "udproute" && choice == TCP
    ensures a == Reject(UnsupportedKind) <==> Lower(KindOf(kind)) != "service" && Lower(KindOf(kind)) != "udproute"
  {
    var k := Lower(KindOf(kind));
    if k == "service" then
      ExpandService(if choice == Both then ["TCP", "UDP"] else [ChoiceName(choice)])
    else if k == "udproute" then
      if choice.TCP? then Reject(UdpRouteNeedsUdp) else GenerateRoutes
    else
      Reject(UnsupportedKind)
  }

  /** The decision depends on `kind` only through its lower-cased form. */
  lemma DecideIgnoresCase(kind: string, choice: ProtocolChoice)
    ensures Decide(Some(kind), choice) == Decide(Some(Lower(kind)), choice)
  {
    LowerIdempotent(kind);
  }

  /** What the run produces: the changed Service manifest, the route documents, or an error. */
  datatype Output =
    | ServiceDocument(manifest: Manifest)
    | RouteDocuments(routes: seq<UdpRoute>)
    | Failed(error: Error)

  /**
   * `generate_service_names` after the manifest is loaded and before
   * anything is written: only the Service branch changes the manifest, and
   * only when it succeeds.
   */
  method GenerateServiceNames(data: Manifest, identifier: string, start: int, end: int,
                              choice: ProtocolChoice, chunkSize: int)
    returns (out: Output)
    modifies data
    ensures Decide(old(data.kind), choice).Reject? ==>
      out == Failed(Decide(old(data.kind), choice).error) && unchanged(data)
    ensures Decide(old(data.kind), choice).GenerateRoutes? ==>
      && unchanged(data)
      && var routes := GenerateUdpRoutes(old(data.metadata), identifier, start, end, chunkSize);
         out == if routes.Ok? then RouteDocuments(routes.value) else Failed(routes.error)
    ensures Decide(old(data.kind), choice).ExpandService? ==>
      && data.kind == old(data.kind) && data.metadata == old(data.metadata)
      && (old(data.spec).None? ==> out == Failed(MissingSpec) && data.spec == old(data.spec))
      && (old(data.spec).Some? ==>
            && out == ServiceDocument(data)
            && data.spec == Some(ServiceSpec(Some(Expanded(PortsOrEmpty(old(data.spec)), identifier, start, end,
                                                           Decide(old(data.kind), choice).protocols)))))
  {
    var action := Decide(data.kind, choice);
    match action
    case ExpandService(protocols) =>
      var r := ExtractPortsForService(data, identifier, start, end, protocols);
      out := if r.Ok? then ServiceDocument(r.value) else Failed(r.error);
    case GenerateRoutes =>
      var routes := GenerateUdpRoutes(data.metadata, identifier, start, end, chunkSize);
      out := if routes.Ok? then RouteDocuments(routes.value) else Failed(routes.error);
    case Reject(error) =>
      out := Failed(error);
  }
}
