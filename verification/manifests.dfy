/**
 * The parts of a Kubernetes manifest that port-ranger reads or writes,
 * as a record instead of a generic YAML tree.
 */
module Manifests {
  import opened Common

  /** One entry of a Service's `spec.ports`; its identity is `(port, protocol)`. */
  datatype PortEntry = PortEntry(protocol: string, port: int, targetPort: int, name: string)

  /** `metadata`: only `namespace` is ever read. */
  datatype Metadata = Metadata(namespace: Option<string>)

  /** `spec` of a Service: `ports` may be absent. */
  datatype ServiceSpec = ServiceSpec(ports: Option<seq<PortEntry>>)

  /**
   * The loaded document. The Service path changes `spec` in place, so the
   * document is an object; an absent key is `None`.
   */
  class Manifest {
    var kind: Option<string>
    var metadata: Option<Metadata>
    var spec: Option<ServiceSpec>

    constructor (kind: Option<string>, metadata: Option<Metadata>, spec: Option<ServiceSpec>)
      ensures this.kind == kind && this.metadata == metadata && this.spec == spec
    {
      this.kind := kind;
      this.metadata := metadata;
      this.spec := spec;
    }
  }

  /** `data.get('spec', {}).get('ports', [])` */
  function PortsOrEmpty(spec: Option<ServiceSpec>): (r: seq<PortEntry>)
    ensures spec.Some? && spec.value.ports.Some? ==> r == spec.value.ports.value
    ensures spec.None? || spec.value.ports.None? ==> r == []
  {
    if spec.Some? && spec.value.ports.Some? then spec.value.ports.value else []
  }

  /** `data.get('metadata', {}).get('namespace', 'default')` */
  function NamespaceOf(metadata: Option<Metadata>): (r: string)
    ensures metadata.Some? && metadata.value.namespace.Some? ==> r == metadata.value.namespace.value
    ensures metadata.None? || metadata.value.namespace.None? ==> r == "default"
  {
    if metadata.Some? && metadata.value.namespace.Some? then metadata.value.namespace.value else "default"
  }

  /** `data.get('kind', '')` */
  function KindOf(kind: Option<string>): (r: string)
    ensures kind.Some? ==> r == kind.value
    ensures kind.None? ==> r == ""
  {
    if kind.Some? then kind.value else ""
  }
}
