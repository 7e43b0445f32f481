/**
 * The Service port expander (`extract_ports_and_generate_names_for_service`,
 * port-ranger.py lines 4-27): every `(port, protocol)` pair of the inclusive
 * range crossed with the requested protocols that `spec.ports` does not
 * already hold is appended, named `{identifier}-{protocol.lower()}-{index}`
 * with an index that counts insertions only.
 *
 * `Expanded` states the resulting port list declaratively; the method
 * `ExtractPortsForService` runs the script's two nested loops on the
 * manifest object and is proved to produce it.
 */
module ServicePorts {
  import opened Common
  import opened Manifests

  /** The lookup key of the script's `existing_ports` dictionary. */
  datatype PortKey = PortKey(port: int, protocol: string)

  function KeyOf(e: PortEntry): PortKey
  {
    PortKey(e.port, e.protocol)
  }

  /** The keys of a port list, in list order. */
  function Keys(ports: seq<PortEntry>): (r: seq<PortKey>)
    ensures |r| == |ports|
  {
    seq(|ports|, i requires 0 <= i < |ports| => KeyOf(ports[i]))
  }

  /**
   * The key set of `existing_ports`. Only membership in that dictionary is
   * ever tested, so its values are not modelled.
   */
  function KeysOf(ports: seq<PortEntry>): set<PortKey>
  {
    set e | e in ports :: KeyOf(e)
  }

  /** No two entries share a `(port, protocol)` key. */
  predicate UniqueKeys(ports: seq<PortEntry>)
  {
    Distinct(Keys(ports))
  }

  // ---------------------------------------------------------------------------
  // The pairs the loops visit

  /** The inner loop's pairs for one port: the protocols in the order given. */
  function Row(port: int, protocols: seq<string>): (r: seq<PortKey>)
    ensures |r| == |protocols|
  {
    seq(|protocols|, j requires 0 <= j < |protocols| => PortKey(port, protocols[j]))
  }

  lemma RowPrefix(done: seq<PortKey>, port: int, protocols: seq<string>, j: int)
    requires 0 <= j < |protocols|
    ensures done + Row(port, protocols)[..j + 1] == (done + Row(port, protocols)[..j]) + [PortKey(port, protocols[j])]
  {
    assert Row(port, protocols)[..j + 1] == Row(port, protocols)[..j] + [PortKey(port, protocols[j])];
  }

  /**
   * The pairs `for port in range(start, end + 1): for protocol in protocols`
   * visits, in visiting order.
   */
  function Pairs(start: int, end: int, protocols: seq<string>): seq<PortKey>
    decreases end - start
  {
    if end < start then [] else Pairs(start, end - 1, protocols) + Row(end, protocols)
  }

  /**
   * The visited pairs are exactly the range crossed with the protocols, by
   * ascending port.
   */
  lemma {:induction false} PairsMembers(start: int, end: int, protocols: seq<string>)
    ensures var r := Pairs(start, end, protocols);
      forall k :: k in r <==> start <= k.port <= end && k.protocol in protocols
    ensures var r := Pairs(start, end, protocols);
      forall i, j :: 0 <= i < j < |r| ==> r[i].port <= r[j].port
    decreases end - start
  {
    if end >= start {
      PairsMembers(start, end - 1, protocols);
      var init := Pairs(start, end - 1, protocols);
      var row := Row(end, protocols);
      assert forall k :: k in row <==> k.port == end && k.protocol in protocols by {
        forall k: PortKey | k.port == end && k.protocol in protocols ensures k in row {
          var j :| 0 <= j < |protocols| && protocols[j] == k.protocol;
          assert row[j] == k;
        }
      }
      assert forall i :: 0 <= i < |init| ==> init[i] in init;
    }
  }

  lemma PairsStep(start: int, end: int, protocols: seq<string>)
    requires start <= end
    ensures Pairs(start, end, protocols) == Pairs(start, end - 1, protocols) + Row(end, protocols)
  {
  }

  lemma PairsEmpty(start: int, end: int, protocols: seq<string>)
    requires end < start
    ensures Pairs(start, end, protocols) == []
  {
  }

  /** `Pairs` has one pair per port of the range and protocol. */
  lemma {:induction false} PairsLength(start: int, end: int, protocols: seq<string>)
    ensures |Pairs(start, end, protocols)| == if end < start then 0 else (end - start + 1) * |protocols|
    decreases end - start
  {
    if end >= start {
      PairsLength(start, end - 1, protocols);
      assert (end - start + 1) * |protocols| == (end - start) * |protocols| + |protocols|;
    }
  }

  /** Position `(p - start) * |protocols| + j` holds `(p, protocols[j])`: port first, then protocol. */
  lemma {:induction false} PairsAt(start: int, end: int, protocols: seq<string>, p: int, j: int)
    requires start <= p <= end && 0 <= j < |protocols|
    ensures (p - start) * |protocols| + j < |Pairs(start, end, protocols)|
    ensures Pairs(start, end, protocols)[(p - start) * |protocols| + j] == PortKey(p, protocols[j])
    decreases end - start
  {
    var init := Pairs(start, end - 1, protocols);
    assert Pairs(start, end, protocols) == init + Row(end, protocols);
    if p < end {
      PairsAt(start, end - 1, protocols, p, j);
    } else {
      PairsLength(start, end - 1, protocols);
      assert (p - start) * |protocols| == |init|;
    }
  }

  /** With distinct protocols, no pair is visited twice. */
  lemma {:induction false} PairsDistinct(start: int, end: int, protocols: seq<string>)
    requires Distinct(protocols)
    ensures Distinct(Pairs(start, end, protocols))
    decreases end - start
  {
    if end >= start {
      PairsDistinct(start, end - 1, protocols);
      PairsMembers(start, end - 1, protocols);
      var init := Pairs(start, end - 1, protocols);
      var row := Row(end, protocols);
      assert forall i :: 0 <= i < |init| ==> init[i] in init;
      assert forall i :: 0 <= i < |init| ==> init[i].port < end;
    }
  }

  // ---------------------------------------------------------------------------
  // Which pairs get inserted

  /**
   * The pairs of `pairs` that are not in `seen`, each once, at its first
   * visit, in visiting order: the pairs the loop inserts when the lookup
   * starts out as `seen` and grows with every insertion.
   */
  function Absent(pairs: seq<PortKey>, seen: set<PortKey>): seq<PortKey>
    decreases |pairs|
  {
    if pairs == [] then []
    else
      var rest := Absent(pairs[..|pairs| - 1], seen);
      var k := pairs[|pairs| - 1];
      if k in seen || k in rest then rest else rest + [k]
  }

  /**
   * The inserted pairs are the visited pairs missing from `seen`, none
   * inserted twice; nothing is inserted when every visited pair was seen.
   */
  lemma {:induction false} AbsentMembers(pairs: seq<PortKey>, seen: set<PortKey>)
    ensures forall k :: k in Absent(pairs, seen) <==> k in pairs && k !in seen
    ensures Distinct(Absent(pairs, seen))
    ensures (forall k :: k in pairs ==> k in seen) ==> Absent(pairs, seen) == []
    decreases |pairs|
  {
    if pairs != [] {
      var init := pairs[..|pairs| - 1];
      var k := pairs[|pairs| - 1];
      assert pairs == init + [k];
      AbsentMembers(init, seen);
      assert forall x :: x in init ==> x in pairs;
    }
  }

  /** The pairs of `pairs` not in `seen`, in order (a plain filter). */
  function Unseen(pairs: seq<PortKey>, seen: set<PortKey>): seq<PortKey>
    decreases |pairs|
  {
    if pairs == [] then []
    else
      var k := pairs[|pairs| - 1];
      Unseen(pairs[..|pairs| - 1], seen) + if k in seen then [] else [k]
  }

  /** When no pair repeats, the inserted pairs are exactly the unseen ones, in visiting order. */
  lemma {:induction false} AbsentOfDistinct(pairs: seq<PortKey>, seen: set<PortKey>)
    requires Distinct(pairs)
    ensures Absent(pairs, seen) == Unseen(pairs, seen)
    decreases |pairs|
  {
    if pairs != [] {
      var init := pairs[..|pairs| - 1];
      var k := pairs[|pairs| - 1];
      assert Distinct(init);
      AbsentOfDistinct(init, seen);
      AbsentMembers(init, seen);
      assert k !in init;
    }
  }

  // ---------------------------------------------------------------------------
  // Naming and the resulting port list

  /** `f"{identifier}-{protocol.lower()}-{index}"` */
  function EntryName(identifier: string, protocol: string, index: nat): (r: string)
    ensures |r| == |identifier| + |protocol| + 2 + |Decimal(index)|
    ensures r[..|identifier|] == identifier && r[|identifier|] == '-'
  {
    identifier + "-" + Lower(protocol) + "-" + Decimal(index)
  }

  /** The index of a generated name is determined by the name. */
  lemma EntryNameIndex(identifier: string, protocol: string, m: nat, identifier': string, protocol': string, n: nat)
    requires EntryName(identifier, protocol, m) == EntryName(identifier', protocol', n)
    ensures m == n
  {
    NumberedNameInjective(identifier + "-" + Lower(protocol), m, identifier' + "-" + Lower(protocol'), n);
  }

  /** The entry appended for a missing pair. */
  function NewEntry(identifier: string, k: PortKey, index: nat): PortEntry
  {
    PortEntry(k.protocol, k.port, k.port, EntryName(identifier, k.protocol, index))
  }

  /** The entries for `keys`, numbered from `first` on. */
  function Numbered(keys: seq<PortKey>, identifier: string, first: nat): (r: seq<PortEntry>)
    ensures |r| == |keys|
  {
    seq(|keys|, i requires 0 <= i < |keys| => NewEntry(identifier, keys[i], first + i))
  }

  /**
   * The port list after the expander: the original entries, untouched and
   * in place, followed by the missing pairs in visiting order, numbered 1, 2, ...
   */
  function Expanded(ports: seq<PortEntry>, identifier: string, start: int, end: int, protocols: seq<string>): (r: seq<PortEntry>)
    ensures |r| >= |ports| && r[..|ports|] == ports
    ensures start > end ==> r == ports
  {
    ports + Numbered(Absent(Pairs(start, end, protocols), KeysOf(ports)), identifier, 1)
  }

  lemma KeysOfAppendNumbered(ports: seq<PortEntry>, keys: seq<PortKey>, identifier: string, first: nat)
    ensures forall k :: k in KeysOf(ports + Numbered(keys, identifier, first)) <==> k in KeysOf(ports) || k in keys
  {
    var s := ports + Numbered(keys, identifier, first);
    forall k | k in keys ensures k in KeysOf(s) {
      var i :| 0 <= i < |keys| && keys[i] == k;
      assert KeyOf(s[|ports| + i]) == k;
    }
    forall k | k in KeysOf(ports) ensures k in KeysOf(s) {
      var e :| e in ports && KeyOf(e) == k;
      assert e in s;
    }
  }

  lemma NumberedSnoc(keys: seq<PortKey>, k: PortKey, identifier: string, first: nat)
    ensures Numbered(keys + [k], identifier, first) == Numbered(keys, identifier, first) + [NewEntry(identifier, k, first + |keys|)]
  {
  }

  lemma KeysNumbered(keys: seq<PortKey>, identifier: string, first: nat)
    ensures Keys(Numbered(keys, identifier, first)) == keys
  {
  }

  /** Every pair of the range crossed with the protocols is in the result. */
  lemma ExpandedCovers(ports: seq<PortEntry>, identifier: string, start: int, end: int, protocols: seq<string>)
    ensures forall p, protocol :: start <= p <= end && protocol in protocols ==>
              PortKey(p, protocol) in KeysOf(Expanded(ports, identifier, start, end, protocols))
  {
    var A := Absent(Pairs(start, end, protocols), KeysOf(ports));
    PairsMembers(start, end, protocols);
    AbsentMembers(Pairs(start, end, protocols), KeysOf(ports));
    KeysOfAppendNumbered(ports, A, identifier, 1);
  }

  /**
   * Every appended entry is a pair of the range that the original list
   * lacked, with `targetPort == port`, named with its 1-based position among
   * the appended entries.
   */
  lemma ExpandedAdditions(ports: seq<PortEntry>, identifier: string, start: int, end: int, protocols: seq<string>)
    ensures var r := Expanded(ports, identifier, start, end, protocols);
      forall i :: |ports| <= i < |r| ==>
        && r[i].targetPort == r[i].port
        && start <= r[i].port <= end
        && r[i].protocol in protocols
        && KeyOf(r[i]) !in KeysOf(ports)
        && r[i].name == EntryName(identifier, r[i].protocol, i - |ports| + 1)
  {
    var A := Absent(Pairs(start, end, protocols), KeysOf(ports));
    var r := Expanded(ports, identifier, start, end, protocols);
    PairsMembers(start, end, protocols);
    AbsentMembers(Pairs(start, end, protocols), KeysOf(ports));
    forall i | |ports| <= i < |r|
      ensures && r[i].targetPort == r[i].port
              && start <= r[i].port <= end
              && r[i].protocol in protocols
              && KeyOf(r[i]) !in KeysOf(ports)
              && r[i].name == EntryName(identifier, r[i].protocol, i - |ports| + 1)
    {
      var k := A[i - |ports|];
      assert r[i] == NewEntry(identifier, k, i - |ports| + 1);
      assert k in A;
    }
  }

  /** No key is appended twice. */
  lemma ExpandedAddsOnce(ports: seq<PortEntry>, identifier: string, start: int, end: int, protocols: seq<string>)
    ensures var r := Expanded(ports, identifier, start, end, protocols);
      forall i, j :: |ports| <= i < j < |r| ==> KeyOf(r[i]) != KeyOf(r[j])
  {
    var A := Absent(Pairs(start, end, protocols), KeysOf(ports));
    var r := Expanded(ports, identifier, start, end, protocols);
    AbsentMembers(Pairs(start, end, protocols), KeysOf(ports));
    forall i, j | |ports| <= i < j < |r|
      ensures KeyOf(r[i]) != KeyOf(r[j])
    {
      assert KeyOf(r[i]) == A[i - |ports|] && KeyOf(r[j]) == A[j - |ports|];
    }
  }

  /** The appended entries carry pairwise distinct names. */
  lemma ExpandedNamesDistinct(ports: seq<PortEntry>, identifier: string, start: int, end: int, protocols: seq<string>)
    ensures var r := Expanded(ports, identifier, start, end, protocols);
      forall i, j :: |ports| <= i < j < |r| ==> r[i].name != r[j].name
  {
    var r := Expanded(ports, identifier, start, end, protocols);
    var added := Numbered(Absent(Pairs(start, end, protocols), KeysOf(ports)), identifier, 1);
    assert r == ports + added;
    forall i, j | |ports| <= i < j < |r|
      ensures r[i].name != r[j].name
    {
      var a, b := r[i], r[j];
      assert a == added[i - |ports|] && b == added[j - |ports|];
      assert a.name == EntryName(identifier, a.protocol, i - |ports| + 1);
      assert b.name == EntryName(identifier, b.protocol, j - |ports| + 1);
      if a.name == b.name {
        EntryNameIndex(identifier, a.protocol, i - |ports| + 1, identifier, b.protocol, j - |ports| + 1);
        assert false;
      }
    }
  }

  /** A list without repeated keys stays without repeated keys. */
  lemma ExpandedUniqueKeys(ports: seq<PortEntry>, identifier: string, start: int, end: int, protocols: seq<string>)
    requires UniqueKeys(ports)
    ensures UniqueKeys(Expanded(ports, identifier, start, end, protocols))
  {
    var r := Expanded(ports, identifier, start, end, protocols);
    ExpandedAdditions(ports, identifier, start, end, protocols);
    ExpandedAddsOnce(ports, identifier, start, end, protocols);
    forall i, j | 0 <= i < j < |r|
      ensures Keys(r)[i] != Keys(r)[j]
    {
      if j < |ports| {
        assert Keys(ports)[i] != Keys(ports)[j];
      } else if i < |ports| {
        assert r[i] in ports;
      }
    }
  }

  /**
   * With distinct protocols (as the dispatcher passes them), the appended
   * keys are the missing pairs in visiting order: ascending port, then the
   * protocols in the order given.
   */
  lemma ExpandedOrder(ports: seq<PortEntry>, identifier: string, start: int, end: int, protocols: seq<string>)
    requires Distinct(protocols)
    ensures var r := Expanded(ports, identifier, start, end, protocols);
      Keys(r[|ports|..]) == Unseen(Pairs(start, end, protocols), KeysOf(ports))
  {
    PairsDistinct(start, end, protocols);
    AbsentOfDistinct(Pairs(start, end, protocols), KeysOf(ports));
    var r := Expanded(ports, identifier, start, end, protocols);
    var A := Absent(Pairs(start, end, protocols), KeysOf(ports));
    assert r[|ports|..] == Numbered(A, identifier, 1);
    KeysNumbered(A, identifier, 1);
  }

  /** Running the expander on its own output with the same arguments appends nothing. */
  lemma ExpandedIdempotent(ports: seq<PortEntry>, identifier: string, start: int, end: int, protocols: seq<string>)
    ensures var r := Expanded(ports, identifier, start, end, protocols);
      Expanded(r, identifier, start, end, protocols) == r
  {
    var r := Expanded(ports, identifier, start, end, protocols);
    var pairs := Pairs(start, end, protocols);
    ExpandedCovers(ports, identifier, start, end, protocols);
    PairsMembers(start, end, protocols);
    forall k | k in pairs ensures k in KeysOf(r) {
      assert k == PortKey(k.port, k.protocol);
    }
    AbsentMembers(pairs, KeysOf(r));
  }

  /**
   * The worked example: no existing ports, identifier "api", ports 8000 to
   * 8002, TCP and UDP.
   */
  lemma ExpandedExample()
    ensures Expanded([], "api", 8000, 8002, ["TCP", "UDP"]) == [
      PortEntry("TCP", 8000, 8000, "api-tcp-1"), PortEntry("UDP", 8000, 8000, "api-udp-2"),
      PortEntry("TCP", 8001, 8001, "api-tcp-3"), PortEntry("UDP", 8001, 8001, "api-udp-4"),
      PortEntry("TCP", 8002, 8002, "api-tcp-5"), PortEntry("UDP", 8002, 8002, "api-udp-6")]
  {
    var protocols := ["TCP", "UDP"];
    var pairs := [PortKey(8000, "TCP"), PortKey(8000, "UDP"), PortKey(8001, "TCP"),
                  PortKey(8001, "UDP"), PortKey(8002, "TCP"), PortKey(8002, "UDP")];
    ExamplePairs();
    PairsDistinct(8000, 8002, protocols);
    AbsentOfDistinct(pairs, {});
    UnseenOfNothing(pairs);
    assert KeysOf([]) == {};
    ExampleNumbered();
  }

  lemma ExamplePairs()
    ensures Pairs(8000, 8002, ["TCP", "UDP"])
         == [PortKey(8000, "TCP"), PortKey(8000, "UDP"), PortKey(8001, "TCP"),
             PortKey(8001, "UDP"), PortKey(8002, "TCP"), PortKey(8002, "UDP")]
  {
    var protocols := ["TCP", "UDP"];
    assert Row(8000, protocols) == [PortKey(8000, "TCP"), PortKey(8000, "UDP")];
    assert Row(8001, protocols) == [PortKey(8001, "TCP"), PortKey(8001, "UDP")];
    assert Row(8002, protocols) == [PortKey(8002, "TCP"), PortKey(8002, "UDP")];
    PairsEmpty(8000, 7999, protocols);
    PairsStep(8000, 8000, protocols);
    PairsStep(8000, 8001, protocols);
    PairsStep(8000, 8002, protocols);
  }

  lemma ExampleNumbered()
    ensures Numbered([PortKey(8000, "TCP"), PortKey(8000, "UDP"), PortKey(8001, "TCP"),
                      PortKey(8001, "UDP"), PortKey(8002, "TCP"), PortKey(8002, "UDP")], "api", 1) == [
      PortEntry("TCP", 8000, 8000, "api-tcp-1"), PortEntry("UDP", 8000, 8000, "api-udp-2"),
      PortEntry("TCP", 8001, 8001, "api-tcp-3"), PortEntry("UDP", 8001, 8001, "api-udp-4"),
      PortEntry("TCP", 8002, 8002, "api-tcp-5"), PortEntry("UDP", 8002, 8002, "api-udp-6")]
  {
    ExampleNames();
  }

  lemma ExampleNames()
    ensures EntryName("api", "TCP", 1) == "api-tcp-1" && EntryName("api", "UDP", 2) == "api-udp-2"
    ensures EntryName("api", "TCP", 3) == "api-tcp-3" && EntryName("api", "UDP", 4) == "api-udp-4"
    ensures EntryName("api", "TCP", 5) == "api-tcp-5" && EntryName("api", "UDP", 6) == "api-udp-6"
  {
    LowerProtocols();
    assert Decimal(1) == "1" && Decimal(2) == "2" && Decimal(3) == "3";
    assert Decimal(4) == "4" && Decimal(5) == "5" && Decimal(6) == "6";
  }

  lemma LowerProtocols()
    ensures Lower("TCP") == "tcp" && Lower("UDP") == "udp"
  {
    assert Lower("TCP")[0] == 't' && Lower("TCP")[1] == 'c' && Lower("TCP")[2] == 'p';
    assert Lower("UDP")[0] == 'u' && Lower("UDP")[1] == 'd' && Lower("UDP")[2] == 'p';
  }

  lemma {:induction false} UnseenOfNothing(pairs: seq<PortKey>)
    ensures Unseen(pairs, {}) == pairs
    decreases |pairs|
  {
    if pairs != [] {
      UnseenOfNothing(pairs[..|pairs| - 1]);
    }
  }

  // ---------------------------------------------------------------------------
  // The script's loops, on the manifest object

  /** The port list once the loops have visited `visited`. */
  function AfterVisiting(original: seq<PortEntry>, visited: seq<PortKey>, identifier: string): seq<PortEntry>
  {
    original + Numbered(Absent(visited, KeysOf(original)), identifier, 1)
  }

  lemma KeysOfAppend(ports: seq<PortEntry>, e: PortEntry)
    ensures KeysOf(ports + [e]) == KeysOf(ports) + {KeyOf(e)}
  {
    assert e in ports + [e];
    forall x | x in ports ensures x in ports + [e] { }
  }

  /**
   * One step of the inner loop: visiting `k` appends its entry, numbered
   * one past the entries appended so far, exactly when the lookup lacks `k`.
   */
  lemma VisitStep(original: seq<PortEntry>, visited: seq<PortKey>, k: PortKey, identifier: string)
    ensures var before := AfterVisiting(original, visited, identifier);
      AfterVisiting(original, visited + [k], identifier)
        == if k in KeysOf(before) then before
           else before + [NewEntry(identifier, k, |before| - |original| + 1)]
  {
    var seen := KeysOf(original);
    var rest := Absent(visited, seen);
    assert (visited + [k])[..|visited|] == visited;
    assert Absent(visited + [k], seen) == if k in seen || k in rest then rest else rest + [k];
    KeysOfAppendNumbered(original, rest, identifier, 1);
    assert k in KeysOf(original + Numbered(rest, identifier, 1)) <==> k in seen || k in rest;
    NumberedSnoc(rest, k, identifier, 1);
  }

  /**
   * The body of the inner loop for one pair: the entry is appended, the
   * lookup extended and the index advanced only when the lookup lacks `key`.
   */
  method VisitPair(ghost original: seq<PortEntry>, ghost visited: seq<PortKey>, identifier: string, key: PortKey,
                   ports: seq<PortEntry>, existing: set<PortKey>, index: nat)
    returns (ports': seq<PortEntry>, existing': set<PortKey>, index': nat)
    requires ports == AfterVisiting(original, visited, identifier)
    requires existing == KeysOf(ports) && index == |ports| - |original| + 1
    ensures ports' == AfterVisiting(original, visited + [key], identifier)
    ensures existing' == KeysOf(ports') && index' == |ports'| - |original| + 1
  {
    VisitStep(original, visited, key, identifier);
    ports', existing', index' := ports, existing, index;
    if key !in existing {
      var entry := PortEntry(key.protocol, key.port, key.port, EntryName(identifier, key.protocol, index));
      KeysOfAppend(ports, entry);
      ports' := ports + [entry];
      existing' := existing + {key};
      index' := index + 1;
    }
  }

  /**
   * The inner loop for one port: visits `(port, protocol)` for each protocol
   * in the order given.
   */
  method VisitPort(ghost original: seq<PortEntry>, ghost done: seq<PortKey>, identifier: string, port: int,
                   protocols: seq<string>, ports: seq<PortEntry>, existing: set<PortKey>, index: nat)
    returns (ports': seq<PortEntry>, existing': set<PortKey>, index': nat)
    requires ports == AfterVisiting(original, done, identifier)
    requires existing == KeysOf(ports) && index == |ports| - |original| + 1
    ensures ports' == AfterVisiting(original, done + Row(port, protocols), identifier)
    ensures existing' == KeysOf(ports') && index' == |ports'| - |original| + 1
  {
    ports', existing', index' := ports, existing, index;
    ghost var visited := done;
    var j := 0;
    while j < |protocols|
      invariant 0 <= j <= |protocols|
      invariant visited == done + Row(port, protocols)[..j]
      invariant ports' == AfterVisiting(original, visited, identifier)
      invariant existing' == KeysOf(ports') && index' == |ports'| - |original| + 1
    {
      var key := PortKey(port, protocols[j]);
      ports', existing', index' := VisitPair(original, visited, identifier, key, ports', existing', index');
      RowPrefix(done, port, protocols, j);
      visited := visited + [key];
      j := j + 1;
    }
    assert Row(port, protocols)[..|protocols|] == Row(port, protocols);
    assert visited == done + Row(port, protocols);
  }

  /**
   * The two nested loops of the expander on a port list: the result is the
   * list `Expanded` describes.
   */
  method ExpandPorts(ports: seq<PortEntry>, identifier: string, start: int, end: int, protocols: seq<string>)
    returns (ports': seq<PortEntry>)
    ensures ports' == Expanded(ports, identifier, start, end, protocols)
  {
    ports' := ports;
    var existing := KeysOf(ports);
    var index: nat := 1;
    ghost var visited: seq<PortKey> := [];
    assert visited == Pairs(start, start - 1, protocols) by {
      PairsEmpty(start, start - 1, protocols);
    }
    var port := start;
    while port <= end
      invariant start <= port <= if start <= end then end + 1 else start
      invariant visited == Pairs(start, port - 1, protocols)
      invariant ports' == AfterVisiting(ports, visited, identifier)
      invariant existing == KeysOf(ports') && index == |ports'| - |ports| + 1
      decreases end - port
    {
      ports', existing, index := VisitPort(ports, visited, identifier, port, protocols, ports', existing, index);
      assert visited + Row(port, protocols) == Pairs(start, port, protocols) by {
        PairsStep(start, port, protocols);
      }
      visited := visited + Row(port, protocols);
      port := port + 1;
    }
    assert visited == Pairs(start, end, protocols) by {
      if start > end {
        PairsEmpty(start, end, protocols);
      }
    }
  }

  /**
   * `extract_ports_and_generate_names_for_service`: appends the missing pairs
   * to `spec.ports` (creating the list when `spec` has none). A manifest
   * without `spec` fails at the final store and is left as it was.
   */
  method ExtractPortsForService(data: Manifest, identifier: string, start: int, end: int, protocols: seq<string>)
    returns (r: Result<Manifest>)
    modifies data
    ensures data.kind == old(data.kind) && data.metadata == old(data.metadata)
    ensures old(data.spec).None? ==> r == Err(MissingSpec) && data.spec == old(data.spec)
    ensures old(data.spec).Some? ==>
      && r == Ok(data)
      && data.spec == Some(ServiceSpec(Some(Expanded(PortsOrEmpty(old(data.spec)), identifier, start, end, protocols))))
  {
    var ports := ExpandPorts(PortsOrEmpty(data.spec), identifier, start, end, protocols);
    if data.spec.None? {
      return Err(MissingSpec);
    }
    data.spec := Some(data.spec.value.(ports := Some(ports)));
    return Ok(data);
  }
}
