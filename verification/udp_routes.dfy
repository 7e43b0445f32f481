/**
 * The UDPRoute generator (`extract_ports_and_generate_names_for_udproute`,
 * port-ranger.py lines 29-73): the inclusive port range is cut into
 * consecutive chunks of `chunk_size` ports, and each chunk becomes one fresh
 * UDPRoute document whose single rule lists the chunk's ports as backend
 * references. Backend references already present in the input are never
 * read; only `metadata.namespace` is.
 */
module UdpRoutes {
  import opened Common
  import opened Manifests

  const ApiVersion := "gateway.networking.k8s.io/v1alpha2"
  const RouteKind := "UDPRoute"
  /** The parent gateway every generated route attaches to; fixed in the script. */
  const GatewayName := "envoy-gateway"

  datatype BackendRef = BackendRef(name: string, namespace: string, port: int, kind: string)
  datatype ParentRef = ParentRef(name: string, namespace: string)
  datatype Rule = Rule(backendRefs: seq<BackendRef>)

  /** One generated document; `name` and `namespace` are its `metadata`. */
  datatype UdpRoute = UdpRoute(
    apiVersion: string,
    kind: string,
    name: string,
    namespace: string,
    parentRefs: seq<ParentRef>,
    rules: seq<Rule>)

  /** `range(start, end + 1)`: the inclusive range, empty when `end < start`. */
  function PortRange(start: int, end: int): (r: seq<int>)
    ensures |r| == if end < start then 0 else end - start + 1
    ensures forall i :: 0 <= i < |r| ==> r[i] == start + i
  {
    seq(if end < start then 0 else end - start + 1, i => start + i)
  }

  // ---------------------------------------------------------------------------
  // Chunking

  /**
   * `[xs[i:i + size] for i in range(0, len(xs), size)]` for a positive size:
   * the first `size` elements, then the chunks of the rest.
   */
  function Chunks(xs: seq<int>, size: int): (r: seq<seq<int>>)
    requires size > 0
    ensures r == [] <==> xs == []
    ensures |r| <= |xs|
    decreases |xs|
  {
    if |xs| == 0 then []
    else if |xs| <= size then [xs]
    else [xs[..size]] + Chunks(xs[size..], size)
  }

  /** No chunk is empty, and all but the last hold exactly `size` elements. */
  lemma {:induction false} ChunkSizes(xs: seq<int>, size: int)
    requires size > 0
    ensures forall k :: 0 <= k < |Chunks(xs, size)| ==> 1 <= |Chunks(xs, size)[k]| <= size
    ensures forall k :: 0 <= k < |Chunks(xs, size)| - 1 ==> |Chunks(xs, size)[k]| == size
    decreases |xs|
  {
    if |xs| > size {
      ChunkSizes(xs[size..], size);
      var rest := Chunks(xs[size..], size);
      var r := Chunks(xs, size);
      assert r == [xs[..size]] + rest;
      forall k | 0 <= k < |r|
        ensures 1 <= |r[k]| <= size && (k < |r| - 1 ==> |r[k]| == size)
      {
        if k > 0 {
          assert r[k] == rest[k - 1];
        }
      }
    }
  }

  /** The chunks, concatenated in order, give back `xs`. */
  lemma {:induction false} ChunksFlatten(xs: seq<int>, size: int)
    requires size > 0
    ensures Flatten(Chunks(xs, size)) == xs
    decreases |xs|
  {
    if 0 < |xs| <= size {
      assert Flatten([xs]) == xs + Flatten([]);
    } else if |xs| > size {
      var rest := Chunks(xs[size..], size);
      ChunksFlatten(xs[size..], size);
      assert ([xs[..size]] + rest)[1..] == rest;
    }
  }

  /**
   * There are `ceil(len(xs) / size)` chunks: none for an empty sequence,
   * otherwise the least count whose total capacity holds every element.
   */
  lemma {:induction false} ChunkCount(xs: seq<int>, size: int)
    requires size > 0
    ensures |xs| == 0 ==> |Chunks(xs, size)| == 0
    ensures |xs| > 0 ==> (|Chunks(xs, size)| - 1) * size < |xs| <= |Chunks(xs, size)| * size
    decreases |xs|
  {
    if |xs| > size {
      var m := |Chunks(xs[size..], size)|;
      ChunkCount(xs[size..], size);
      assert |Chunks(xs, size)| == m + 1;
      MulSucc(m, size);
      MulSucc(m - 1, size);
    }
  }

  lemma MulSucc(k: int, c: int)
    ensures (k + 1) * c == k * c + c
  {
  }

  /** `k * size`, built by repeated addition so that the chunk proofs stay linear. */
  function Offset(k: nat, size: nat): nat
  {
    if k == 0 then 0 else Offset(k - 1, size) + size
  }

  lemma {:induction false} OffsetIsProduct(k: nat, size: nat)
    ensures Offset(k, size) == k * size
  {
    if k > 0 {
      OffsetIsProduct(k - 1, size);
      MulSucc(k - 1, size);
    }
  }

  /** Chunk `k` is the slice `xs[k * size : k * size + size]`, as the comprehension builds it. */
  lemma {:induction false} ChunkAt(xs: seq<int>, size: int, k: nat)
    requires size > 0 && k < |Chunks(xs, size)|
    ensures Offset(k, size) < |xs|
    ensures Chunks(xs, size)[k] == xs[Offset(k, size) .. Min(Offset(k, size) + size, |xs|)]
    decreases |xs|
  {
    if k > 0 {
      var rest := xs[size..];
      assert |xs| > size;
      assert Chunks(xs, size) == [xs[..size]] + Chunks(rest, size);
      ChunkAt(rest, size, k - 1);
      var lo := Offset(k - 1, size);
      assert lo < |rest|;
      var hi := Min(lo + size, |rest|);
      SliceOfSuffix(xs, size, lo, hi);
      assert Offset(k, size) == size + lo;
      assert Min(Offset(k, size) + size, |xs|) == size + hi;
      assert Chunks(xs, size)[k] == rest[lo..hi];
    } else if |xs| <= size {
      assert Chunks(xs, size) == [xs];
    } else {
      assert Chunks(xs, size)[0] == xs[..size];
    }
  }

  lemma SliceOfSuffix(xs: seq<int>, d: int, lo: int, hi: int)
    requires 0 <= d <= |xs| && 0 <= lo <= hi <= |xs| - d
    ensures xs[d..][lo..hi] == xs[d + lo .. d + hi]
  {
  }

  // ---------------------------------------------------------------------------
  // Route documents

  /** `f"{identifier}-udp-route-{chunk_index + 1}"` */
  function RouteName(identifier: string, number: nat): string
  {
    identifier + "-udp-route-" + Decimal(number)
  }

  function BackendRefFor(identifier: string, namespace: string, port: int): BackendRef
  {
    BackendRef(identifier + "-service", namespace, port, "Service")
  }

  /** The document built for the `number`-th chunk (1-based). */
  function RouteFor(identifier: string, namespace: string, number: nat, chunk: seq<int>): (r: UdpRoute)
    ensures r.name == RouteName(identifier, number) && r.namespace == namespace
    ensures r.parentRefs == [ParentRef(GatewayName, namespace)] && |r.rules| == 1
    ensures RoutePorts(r) == chunk
  {
    UdpRoute(ApiVersion, RouteKind, RouteName(identifier, number), namespace,
             [ParentRef(GatewayName, namespace)],
             [Rule(seq(|chunk|, i requires 0 <= i < |chunk| => BackendRefFor(identifier, namespace, chunk[i])))])
  }

  /** One document per chunk, in chunk order. */
  function RoutesFor(chunks: seq<seq<int>>, identifier: string, namespace: string): (r: seq<UdpRoute>)
    ensures |r| == |chunks|
    ensures forall k :: 0 <= k < |r| ==> r[k].name == RouteName(identifier, k + 1) && r[k].namespace == namespace
  {
    seq(|chunks|, k requires 0 <= k < |chunks| => RouteFor(identifier, namespace, k + 1, chunks[k]))
  }

  /** The ports of a route's first rule's backend references, in order. */
  function RoutePorts(route: UdpRoute): seq<int>
  {
    if |route.rules| == 0 then []
    else
      var refs := route.rules[0].backendRefs;
      seq(|refs|, i requires 0 <= i < |refs| => refs[i].port)
  }

  /**
   * `extract_ports_and_generate_names_for_udproute`. A chunk size of zero
   * makes `range` raise; a negative one makes the range of slice starts
   * empty, so no document is produced; an empty port range gives none either.
   */
  function GenerateUdpRoutes(metadata: Option<Metadata>, identifier: string, start: int, end: int, chunkSize: int)
    : (r: Result<seq<UdpRoute>>)
    ensures r.Err? <==> chunkSize == 0
    ensures r.Err? ==> r.error == ChunkSizeZero
    ensures r.Ok? && (chunkSize < 0 || end < start) ==> r.value == []
  {
    if chunkSize == 0 then Err(ChunkSizeZero)
    else if chunkSize < 0 then Ok([])
    else Ok(RoutesFor(Chunks(PortRange(start, end), chunkSize), identifier, NamespaceOf(metadata)))
  }

  lemma RoutesForPorts(chunks: seq<seq<int>>, identifier: string, namespace: string)
    ensures var routes := RoutesFor(chunks, identifier, namespace);
      forall k :: 0 <= k < |routes| ==> RoutePorts(routes[k]) == chunks[k]
  {
    var routes := RoutesFor(chunks, identifier, namespace);
    forall k | 0 <= k < |routes| ensures RoutePorts(routes[k]) == chunks[k] {
      assert |RoutePorts(routes[k])| == |chunks[k]|;
    }
  }

  /**
   * For a positive chunk size the routes partition the range: their ports,
   * concatenated in route order, are exactly `start, start + 1, ..., end`.
   */
  lemma RoutesPartitionRange(metadata: Option<Metadata>, identifier: string, start: int, end: int, chunkSize: int)
    requires chunkSize > 0
    ensures var routes := GenerateUdpRoutes(metadata, identifier, start, end, chunkSize).value;
      Flatten(seq(|routes|, k requires 0 <= k < |routes| => RoutePorts(routes[k]))) == PortRange(start, end)
  {
    var chunks := Chunks(PortRange(start, end), chunkSize);
    var routes := GenerateUdpRoutes(metadata, identifier, start, end, chunkSize).value;
    RoutesForPorts(chunks, identifier, NamespaceOf(metadata));
    ChunksFlatten(PortRange(start, end), chunkSize);
    assert seq(|routes|, k requires 0 <= k < |routes| => RoutePorts(routes[k])) == chunks;
  }

  /**
   * For a positive chunk size: `ceil(n / chunk_size)` routes for `n` ports;
   * each route holds between 1 and `chunk_size` backend references, and every
   * route but the last exactly `chunk_size`.
   */
  lemma RoutesSized(metadata: Option<Metadata>, identifier: string, start: int, end: int, chunkSize: int)
    requires chunkSize > 0
    ensures var routes := GenerateUdpRoutes(metadata, identifier, start, end, chunkSize).value;
      && (start > end ==> |routes| == 0)
      && (start <= end ==> (|routes| - 1) * chunkSize < end - start + 1 <= |routes| * chunkSize)
      && (forall k :: 0 <= k < |routes| ==> 1 <= |RoutePorts(routes[k])| <= chunkSize)
      && (forall k :: 0 <= k < |routes| - 1 ==> |RoutePorts(routes[k])| == chunkSize)
  {
    var chunks := Chunks(PortRange(start, end), chunkSize);
    ChunkCount(PortRange(start, end), chunkSize);
    ChunkSizes(PortRange(start, end), chunkSize);
    RoutesForPorts(chunks, identifier, NamespaceOf(metadata));
  }

  /**
   * Route `k` (0-based) carries the ports `start + k * chunk_size` up to
   * `start + k * chunk_size + chunk_size - 1`, cut off at `end`, ascending.
   */
  lemma RouteCarriesSlice(metadata: Option<Metadata>, identifier: string, start: int, end: int, chunkSize: int, k: int)
    requires chunkSize > 0
    requires 0 <= k < |GenerateUdpRoutes(metadata, identifier, start, end, chunkSize).value|
    ensures var routes := GenerateUdpRoutes(metadata, identifier, start, end, chunkSize).value;
      RoutePorts(routes[k]) == PortRange(start + k * chunkSize, Min(start + k * chunkSize + chunkSize - 1, end))
  {
    var xs := PortRange(start, end);
    var chunks := Chunks(xs, chunkSize);
    RoutesForPorts(chunks, identifier, NamespaceOf(metadata));
    ChunkAt(xs, chunkSize, k);
    OffsetIsProduct(k, chunkSize);
    RangeSlice(start, end, Offset(k, chunkSize), chunkSize);
  }

  lemma RangeSlice(start: int, end: int, lo: int, c: int)
    requires 0 <= lo < |PortRange(start, end)| && c > 0
    ensures PortRange(start, end)[lo .. Min(lo + c, |PortRange(start, end)|)]
         == PortRange(start + lo, Min(start + lo + c - 1, end))
  {
  }

  /**
   * Route `k` (0-based) is named `identifier-udp-route-(k + 1)` and carries
   * the resolved namespace (`metadata.namespace`, else "default") in its
   * metadata, its one parent reference to `envoy-gateway` and every backend
   * reference, each of which names `identifier-service` of kind `Service`.
   */
  lemma RouteShape(metadata: Option<Metadata>, identifier: string, start: int, end: int, chunkSize: int)
    requires chunkSize > 0
    ensures var routes := GenerateUdpRoutes(metadata, identifier, start, end, chunkSize).value;
      var ns := NamespaceOf(metadata);
      forall k :: 0 <= k < |routes| ==>
        && routes[k].apiVersion == ApiVersion && routes[k].kind == RouteKind
        && routes[k].name == RouteName(identifier, k + 1)
        && routes[k].namespace == ns
        && routes[k].parentRefs == [ParentRef(GatewayName, ns)]
        && |routes[k].rules| == 1
        && forall b :: b in routes[k].rules[0].backendRefs ==>
             b.name == identifier + "-service" && b.namespace == ns && b.kind == "Service"
  {
  }

  /** The generated route names are pairwise distinct. */
  lemma RouteNamesDistinct(metadata: Option<Metadata>, identifier: string, start: int, end: int, chunkSize: int)
    requires chunkSize > 0
    ensures var routes := GenerateUdpRoutes(metadata, identifier, start, end, chunkSize).value;
      forall i, j :: 0 <= i < j < |routes| ==> routes[i].name != routes[j].name
  {
    var routes := GenerateUdpRoutes(metadata, identifier, start, end, chunkSize).value;
    forall i, j | 0 <= i < j < |routes| ensures routes[i].name != routes[j].name {
      var head := identifier + "-udp-route";
      assert RouteName(identifier, i + 1) == head + "-" + Decimal(i + 1);
      assert RouteName(identifier, j + 1) == head + "-" + Decimal(j + 1);
      if routes[i].name == routes[j].name {
        NumberedNameInjective(head, i + 1, head, j + 1);
        assert false;
      }
    }
  }

  /**
   * The worked example: namespace "ns1", identifier "game", ports 49152 to
   * 49154 in chunks of 2 give two routes.
   */
  lemma RoutesExample()
    ensures var routes := GenerateUdpRoutes(Some(Metadata(Some("ns1"))), "game", 49152, 49154, 2).value;
      && |routes| == 2
      && routes[0].name == "game-udp-route-1" && RoutePorts(routes[0]) == [49152, 49153]
      && routes[1].name == "game-udp-route-2" && RoutePorts(routes[1]) == [49154]
      && routes[0].namespace == "ns1" && routes[1].namespace == "ns1"
  {
    ExampleChunks();
    RoutesForPorts([[49152, 49153], [49154]], "game", "ns1");
    assert RouteName("game", 1) == "game-udp-route-1" && RouteName("game", 2) == "game-udp-route-2" by {
      assert Decimal(1) == "1" && Decimal(2) == "2";
    }
  }

  lemma ExampleChunks()
    ensures Chunks(PortRange(49152, 49154), 2) == [[49152, 49153], [49154]]
  {
    var xs := PortRange(49152, 49154);
    assert xs == [49152, 49153, 49154];
    assert xs[..2] == [49152, 49153];
    assert xs[2..] == [49154];
    assert Chunks(xs[2..], 2) == [[49154]];
  }
}
