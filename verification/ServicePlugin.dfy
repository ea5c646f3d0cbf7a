/** The Service part of the Kubernetes plugin (transform/kubernetes/kubernetes.go). */
module ServicePlugin {
  import opened Wrappers
  import opened Strconv
  import opened Json
  import opened Patch
  import opened Unstructured
  import opened ListPruning
  import opened KubernetesPlugin
  import Pointer

  /** `json.Unmarshal` of a text into a map. */
  type Decoder = string -> Result<Object>

  const PORTS: Path := ["spec", "ports"]
  const NODE_PORT := "nodePort"

  /** Go's conversion of a float64 to an int: towards zero. */
  function Truncate(x: real): int
  {
    if x >= 0.0 then x.Floor else -((-x).Floor)
  }

  /** `getNodePortInt`.  A string is read, but its number is then shadowed and 0 is returned. */
  function NodePortInt(v: Json): Result<int>
  {
    match v
    case Num(x) => Ok(Truncate(x))
    case Str(s) => if Atoi(s).Some? then Ok(0) else Err
    case _ => Ok(0)
  }

  /** The list of ports of a Service that has a type other than ExternalName. */
  function ServicePorts(obj: Object): Option<seq<Json>>
  {
    if "spec" in obj && obj["spec"].Obj? then
      var spec := obj["spec"].members;
      if "type" in spec && spec["type"] != Str("ExternalName") && "ports" in spec && spec["ports"].Arr?
      then Some(spec["ports"].items)
      else None
    else None
  }

  /** The ports of the last applied configuration. */
  function AppliedPorts(obj: Object, decode: Decoder): Result<seq<Json>>
  {
    if LAST_APPLIED !in Annotations(obj) then Ok([])
    else
      var applied :- decode(Annotations(obj)[LAST_APPLIED]);
      match NestedSlice(Obj(applied), PORTS)
      case TypeError => Err
      case NotFound => Ok([])
      case Found(ports) => Ok(if ports.Arr? then ports.items else [])
  }

  predicate HasNodePort(port: Json)
  {
    port.Obj? && NODE_PORT in port.members
  }

  /** The node port number is readable; an applied port with a positive one has a string name, if any. */
  predicate Readable(port: Json, applied: bool)
  {
    HasNodePort(port) ==>
      var n := NodePortInt(port.members[NODE_PORT]);
      n.Ok? && (applied && n.value > 0 && "name" in port.members ==> port.members["name"].Str?)
  }

  predicate Declares(port: Json, n: int)
  {
    HasNodePort(port) && NodePortInt(port.members[NODE_PORT]) == Ok(n) && n > 0
  }

  predicate DeclaresNumber(port: Json, n: int)
  {
    Declares(port, n) && "name" !in port.members
  }

  predicate DeclaresName(port: Json, name: string)
  {
    && HasNodePort(port) && "name" in port.members && port.members["name"] == Str(name)
    && NodePortInt(port.members[NODE_PORT]).Ok? && NodePortInt(port.members[NODE_PORT]).value > 0
  }

  function PortName(port: Json): string
    requires port.Obj?
  {
    if "name" in port.members && port.members["name"].Str? then port.members["name"].s else ""
  }

  /** The port has a nonzero node port that the last applied configuration did not ask for. */
  predicate Undeclared(port: Json, applied: seq<Json>)
  {
    && HasNodePort(port)
    && NodePortInt(port.members[NODE_PORT]).Ok?
    && var n := NodePortInt(port.members[NODE_PORT]).value;
       && n != 0
       && if PortName(port) != "" then forall a <- applied :: !DeclaresName(a, PortName(port))
          else forall a <- applied :: !DeclaresNumber(a, n)
  }

  /** The first loop: names and numbers that were declared with a positive node port. */
  method DeclaredNodePorts(applied: seq<Json>) returns (r: Result<(set<string>, set<int>)>)
    ensures r.Ok? <==> forall a <- applied :: Readable(a, true)
    ensures r.Ok? ==> forall name: string :: name in r.value.0 <==> exists a <- applied :: DeclaresName(a, name)
    ensures r.Ok? ==> forall n: int :: n in r.value.1 <==> exists a <- applied :: DeclaresNumber(a, n)
  {
    var names: set<string>, numbers: set<int> := {}, {};
    for j := 0 to |applied|
      invariant forall k :: 0 <= k < j ==> Readable(applied[k], true)
      invariant forall name: string :: name in names <==> exists k :: 0 <= k < j && DeclaresName(applied[k], name)
      invariant forall n: int :: n in numbers <==> exists k :: 0 <= k < j && DeclaresNumber(applied[k], n)
    {
      var port := applied[j];
      if !HasNodePort(port) {
        continue;
      }
      var nodePort := NodePortInt(port.members[NODE_PORT]);
      if nodePort.Err? {
        assert !Readable(port, true);
        return Err;
      }
      if nodePort.value > 0 {
        if "name" !in port.members {
          numbers := numbers + {nodePort.value};
        } else if port.members["name"].Str? {
          names := names + {port.members["name"].s};
        } else {
          assert !Readable(port, true);
          return Err;
        }
      }
    }
    return Ok((names, numbers));
  }

  /** Which ports lose their node port. */
  function Marks(ports: seq<Json>, applied: seq<Json>): (r: seq<bool>)
    ensures |r| == |ports| && forall i :: 0 <= i < |r| ==> r[i] == Undeclared(ports[i], applied)
  {
    seq(|ports|, i requires 0 <= i < |ports| => Undeclared(ports[i], applied))
  }

  lemma NodePortText(n: nat, spec: string, ports: string, nodePort: string, start: string, end: string)
    requires spec == "spec" && ports == "ports" && nodePort == "nodePort"
    requires start == "/spec/ports/" && end == "/nodePort"
    ensures Pointer.Write([spec, ports] + [Decimal(n), nodePort]) == start + Decimal(n) + end
  {
    var i := Decimal(n);
    ValueOfDecimal(n);
    assert start == "/" + spec + "/" + ports + "/" && end == "/" + nodePort;
    Pointer.WritePlainFour(spec, ports, i, nodePort, "/" + spec + "/" + ports + "/" + i + "/" + nodePort);
    assert [spec, ports] + [i, nodePort] == [spec, ports, i, nodePort];
  }

  lemma MarksNext(ports: seq<Json>, applied: seq<Json>, n: nat)
    requires n < |ports|
    ensures PruneOps(PORTS, Marks(ports[..n + 1], applied), NODE_PORT) ==
            PruneOps(PORTS, Marks(ports[..n], applied), NODE_PORT) +
            if Undeclared(ports[n], applied) then [RemoveOp(Pointer.Write(PORTS + [Decimal(n), NODE_PORT]))] else []
  {
    assert Marks(ports[..n + 1], applied)[..n] == Marks(ports[..n], applied);
  }

  /** The second loop: a removal for every node port that was not declared. */
  method UndeclaredNodePorts(ports: seq<Json>, ghost applied: seq<Json>, names: set<string>, numbers: set<int>)
    returns (r: Result<seq<Operation>>)
    requires forall name: string :: name in names <==> exists a <- applied :: DeclaresName(a, name)
    requires forall n: int :: n in numbers <==> exists a <- applied :: DeclaresNumber(a, n)
    ensures r.Ok? <==> forall p <- ports :: Readable(p, false)
    ensures r.Ok? ==> r.value == PruneOps(PORTS, Marks(ports, applied), NODE_PORT)
  {
    var patch: seq<Operation> := [];
    for i := 0 to |ports|
      invariant forall k :: 0 <= k < i ==> Readable(ports[k], false)
      invariant patch == PruneOps(PORTS, Marks(ports[..i], applied), NODE_PORT)
    {
      MarksNext(ports, applied, i);
      var port := ports[i];
      if !HasNodePort(port) {
        continue;
      }
      var nodePort := NodePortInt(port.members[NODE_PORT]);
      if nodePort.Err? {
        assert !Readable(port, false);
        return Err;
      }
      if nodePort.value == 0 {
        continue;
      }
      var name := PortName(port);
      var remove := if name != "" then name !in names else nodePort.value !in numbers;
      assert remove <==> Undeclared(port, applied);
      if remove {
        NodePortText(i, "spec", "ports", "nodePort", "/spec/ports/", "/nodePort");
        patch := patch + [RemoveOp("/spec/ports/" + Decimal(i) + "/nodePort")];
      }
    }
    assert ports[..|ports|] == ports;
    return Ok(patch);
  }

  /** The operations succeed exactly when every port that is looked at is readable. */
  predicate PortsReadable(obj: Object, decode: Decoder)
  {
    ServicePorts(obj).Some? ==>
      && AppliedPorts(obj, decode).Ok?
      && (forall a <- AppliedPorts(obj, decode).value :: Readable(a, true))
      && (forall p <- ServicePorts(obj).value :: Readable(p, false))
  }

  function NodePortOps(obj: Object, decode: Decoder): seq<Operation>
  {
    if ServicePorts(obj).Some? && AppliedPorts(obj, decode).Ok?
    then PruneOps(PORTS, Marks(ServicePorts(obj).value, AppliedPorts(obj, decode).value), NODE_PORT)
    else []
  }

  method GetNodePortPatch(obj: Object, decode: Decoder) returns (r: Result<seq<Operation>>)
    ensures r.Ok? <==> PortsReadable(obj, decode)
    ensures r.Ok? ==> r.value == NodePortOps(obj, decode)
    ensures r.Ok? ==> ApplyAll(Obj(obj), r.value) == Ok(NodePortsPruned(obj, decode))
  {
    var ports := ServicePorts(obj);
    if ports.None? {
      return Ok([]);
    }
    var applied :- AppliedPorts(obj, decode);
    var declared :- DeclaredNodePorts(applied);
    r := UndeclaredNodePorts(ports.value, applied, declared.0, declared.1);
    NodePortsExact(obj, decode);
  }

  lemma PortsNested(obj: Object)
    requires ServicePorts(obj).Some?
    ensures NestedField(Obj(obj), PORTS) == Found(Arr(ServicePorts(obj).value))
  {
    var spec := obj["spec"];
    assert PORTS[1..] == ["ports"] && PORTS[1..][1..] == [];
    assert NestedField(spec.members["ports"], []) == Found(spec.members["ports"]);
    assert NestedField(spec, ["ports"]) == Found(spec.members["ports"]);
  }

  /** The Service with the undeclared node ports gone and everything else as it was. */
  function NodePortsPruned(obj: Object, decode: Decoder): Json
  {
    if ServicePorts(obj).Some? && AppliedPorts(obj, decode).Ok? then
      var ports := ServicePorts(obj).value;
      PortsNested(obj);
      SetField(Obj(obj), PORTS, Arr(Prune(ports, Marks(ports, AppliedPorts(obj, decode).value), NODE_PORT)))
    else Obj(obj)
  }

  lemma NodePortsExact(obj: Object, decode: Decoder)
    ensures ApplyAll(Obj(obj), NodePortOps(obj, decode)) == Ok(NodePortsPruned(obj, decode))
  {
    if ServicePorts(obj).Some? && AppliedPorts(obj, decode).Ok? {
      var ports := ServicePorts(obj).value;
      PortsNested(obj);
      PruneExact(Obj(obj), PORTS, ports, Marks(ports, AppliedPorts(obj, decode).value), NODE_PORT);
    }
  }

  /**
   * A node port with a nonzero number survives exactly when the port's name, or its number if it has
   * no name, was declared with a positive node port; the rest of the port is untouched.
   */
  lemma NodePortSurvivesIff(obj: Object, decode: Decoder, i: nat, n: int)
    requires ServicePorts(obj).Some? && AppliedPorts(obj, decode).Ok? && i < |ServicePorts(obj).value|
    requires var port := ServicePorts(obj).value[i];
             HasNodePort(port) && NodePortInt(port.members[NODE_PORT]) == Ok(n) && n != 0
    ensures var ports, applied := ServicePorts(obj).value, AppliedPorts(obj, decode).value;
            var after := NestedField(NodePortsPruned(obj, decode), PORTS);
            && after.Found? && after.v.Arr? && |after.v.items| == |ports|
            && after.v.items[i].Obj?
            && (HasNodePort(after.v.items[i]) <==>
                  if PortName(ports[i]) != "" then exists a <- applied :: DeclaresName(a, PortName(ports[i]))
                  else exists a <- applied :: DeclaresNumber(a, n))
            && after.v.items[i].members - {NODE_PORT} == ports[i].members - {NODE_PORT}
  {
    var ports, applied := ServicePorts(obj).value, AppliedPorts(obj, decode).value;
    PortsNested(obj);
    var pruned := Arr(Prune(ports, Marks(ports, applied), NODE_PORT));
    SetFieldAgain(Obj(obj), PORTS, pruned, pruned);
    var m := ports[i].members;
    assert m - {NODE_PORT} - {NODE_PORT} == m - {NODE_PORT};
  }

  /** The number in a string never counts: such a port is left alone, whatever was declared. */
  lemma StringNodePortIgnored(port: Json, applied: seq<Json>, text: string)
    requires HasNodePort(port) && port.members[NODE_PORT] == Str(text)
    ensures !Undeclared(port, applied)
  {
  }

  // ----- the other fields of a Service -----

  function Spec(obj: Object): Object
  {
    if "spec" in obj && obj["spec"].Obj? then obj["spec"].members else map[]
  }

  predicate IsLoadBalancer(obj: Object)
  {
    "type" in Spec(obj) && Spec(obj)["type"] == Str("LoadBalancer")
  }

  predicate ShouldRemoveClusterIP(obj: Object)
  {
    "clusterIP" in Spec(obj) && Spec(obj)["clusterIP"] != Str("None")
  }

  /** Remove unless the first address is None. */
  predicate ShouldRemoveClusterIPs(obj: Object)
  {
    "clusterIPs" in Spec(obj) &&
    match Spec(obj)["clusterIPs"]
    case Arr(ips) => ips == [] || ips[0] != Str("None")
    case _ => true
  }

  /** Addresses that belong to the old cluster. */
  function OldAddresses(obj: Object): seq<string>
  {
    (if IsLoadBalancer(obj) then ["externalIPs"] else [])
    + (if ShouldRemoveClusterIP(obj) then ["clusterIP"] else [])
    + (if ShouldRemoveClusterIPs(obj) then ["clusterIPs"] else [])
  }

  function RemoveSpecOps(keys: seq<string>): (r: seq<Operation>)
    ensures |r| == |keys| && forall i :: 0 <= i < |r| ==> r[i] == RemoveOp(Pointer.Write(["spec", keys[i]]))
  {
    seq(|keys|, i requires 0 <= i < |keys| => RemoveOp(Pointer.Write(["spec", keys[i]])))
  }

  function WithoutSpecKeys(obj: Object, keys: seq<string>): Object
  {
    if "spec" in obj && obj["spec"].Obj?
    then obj["spec" := Obj(obj["spec"].members - (set k | k in keys))]
    else obj
  }

  lemma RemoveSpecKey(obj: Object, k: string)
    requires "spec" in obj && obj["spec"].Obj?
    ensures ApplyOp(Obj(obj), RemoveOp(Pointer.Write(["spec", k]))) == Ok(Obj(WithoutSpecKeys(obj, [k])))
  {
    var path := ["spec", k];
    ResolveWritten(path, Null);
    assert path[1..] == [k];
    assert (set x | x in [k]) == {k};
    assert ApplyAt(obj["spec"], [k], Remove) == Ok(Obj(obj["spec"].members - {k}));
  }

  lemma WithoutTwice(obj: Object, k: string, rest: seq<string>)
    ensures WithoutSpecKeys(WithoutSpecKeys(obj, [k]), rest) == WithoutSpecKeys(obj, [k] + rest)
  {
    if "spec" in obj && obj["spec"].Obj? {
      var m := obj["spec"].members;
      assert (set x | x in [k] + rest) == (set x | x in [k]) + set x | x in rest;
      assert m - (set x | x in [k]) - (set x | x in rest) == m - (set x | x in [k] + rest);
    }
  }

  lemma RemoveSpecOpsHead(k: string, rest: seq<string>)
    ensures RemoveSpecOps([k] + rest) == [RemoveOp(Pointer.Write(["spec", k]))] + RemoveSpecOps(rest)
  {
    var ops, head := RemoveSpecOps([k] + rest), RemoveOp(Pointer.Write(["spec", k]));
    assert ops[0] == head;
    forall i | 0 < i < |ops| ensures ops[i] == RemoveSpecOps(rest)[i - 1] {
      assert ([k] + rest)[i] == rest[i - 1];
    }
    assert ops == [head] + RemoveSpecOps(rest);
  }

  lemma RemoveSpecHead(obj: Object, k: string, rest: seq<string>)
    requires "spec" in obj && obj["spec"].Obj?
    ensures ApplyAll(Obj(obj), RemoveSpecOps([k] + rest)) ==
            ApplyAll(Obj(WithoutSpecKeys(obj, [k])), RemoveSpecOps(rest))
  {
    RemoveSpecOpsHead(k, rest);
    RemoveSpecKey(obj, k);
    ApplyAllHead(Obj(obj), RemoveOp(Pointer.Write(["spec", k])), RemoveSpecOps(rest));
  }

  lemma WithoutNone(obj: Object)
    ensures WithoutSpecKeys(obj, []) == obj
  {
    if "spec" in obj && obj["spec"].Obj? {
      var none: seq<string> := [];
      assert obj["spec"].members - (set k | k in none) == obj["spec"].members;
    }
  }

  lemma {:induction false} RemoveSpecKeys(obj: Object, keys: seq<string>)
    requires "spec" in obj && obj["spec"].Obj?
    ensures ApplyAll(Obj(obj), RemoveSpecOps(keys)) == Ok(Obj(WithoutSpecKeys(obj, keys)))
    decreases |keys|
  {
    if keys == [] {
      WithoutNone(obj);
    } else {
      var k, rest := keys[0], keys[1..];
      assert keys == [k] + rest;
      RemoveSpecHead(obj, k, rest);
      RemoveSpecKeys(WithoutSpecKeys(obj, [k]), rest);
      WithoutTwice(obj, k, rest);
    }
  }

  lemma SpecText(spec: string, key: string, text: string)
    requires spec == "spec" && Pointer.IsPlain(key) && text == "/spec/" + key
    ensures RemoveSpecOps([key]) == [RemoveOp(text)]
  {
    assert text == "/" + spec + "/" + key;
    Pointer.WritePlainTwo(spec, key, text);
  }

  lemma RemoveSpecOpsAppend(xs: seq<string>, ys: seq<string>)
    ensures RemoveSpecOps(xs + ys) == RemoveSpecOps(xs) + RemoveSpecOps(ys)
  {
  }

  /** Taking the old addresses away does not touch what the node ports depend on. */
  lemma PortsIndependent(obj: Object, decode: Decoder)
    ensures NodePortOps(WithoutSpecKeys(obj, OldAddresses(obj)), decode) == NodePortOps(obj, decode)
  {
    var after := WithoutSpecKeys(obj, OldAddresses(obj));
    KeepsTypeAndPorts(obj);
    assert "metadata" in obj ==> after["metadata"] == obj["metadata"];
    SameAnnotations(obj, after);
  }

  lemma KeepsTypeAndPorts(obj: Object)
    ensures ServicePorts(WithoutSpecKeys(obj, OldAddresses(obj))) == ServicePorts(obj)
  {
    assert "type" !in OldAddresses(obj) && "ports" !in OldAddresses(obj);
  }

  lemma SameAnnotations(obj: Object, other: Object)
    requires "metadata" in obj <==> "metadata" in other
    requires "metadata" in obj ==> obj["metadata"] == other["metadata"]
    ensures Annotations(obj) == Annotations(other)
  {
    assert NestedField(Obj(obj), ["metadata", "annotations"]) == NestedField(Obj(other), ["metadata", "annotations"]);
  }

  lemma NextAddress(keys: seq<string>, spec: string, key: string, text: string)
    requires spec == "spec" && Pointer.IsPlain(key) && text == "/spec/" + key
    ensures RemoveSpecOps(keys + [key]) == RemoveSpecOps(keys) + [RemoveOp(text)]
  {
    SpecText(spec, key, text);
    RemoveSpecOpsAppend(keys, [key]);
  }

  /** One more removal if the condition holds. */
  method RemoveIf(condition: bool, patches: seq<Operation>, ghost keys: seq<string>, key: string, text: string)
    returns (r: seq<Operation>)
    requires patches == RemoveSpecOps(keys) && Pointer.IsPlain(key) && text == "/spec/" + key
    ensures r == RemoveSpecOps(keys + if condition then [key] else [])
  {
    r := patches;
    if condition {
      NextAddress(keys, "spec", key, text);
      r := r + [RemoveOp(text)];
    } else {
      assert keys + [] == keys;
    }
  }

  /** The removals for the old addresses. */
  method RemoveOldAddresses(obj: Object) returns (patches: seq<Operation>)
    ensures patches == RemoveSpecOps(OldAddresses(obj))
  {
    ghost var first := if IsLoadBalancer(obj) then ["externalIPs"] else [];
    assert [] + first == first;
    patches := RemoveIf(IsLoadBalancer(obj), [], [], "externalIPs", "/spec/externalIPs");
    ghost var second := if ShouldRemoveClusterIP(obj) then ["clusterIP"] else [];
    patches := RemoveIf(ShouldRemoveClusterIP(obj), patches, first, "clusterIP", "/spec/clusterIP");
    patches := RemoveIf(ShouldRemoveClusterIPs(obj), patches, first + second, "clusterIPs", "/spec/clusterIPs");
  }

  function ServiceOps(obj: Object, decode: Decoder): seq<Operation>
  {
    RemoveSpecOps(OldAddresses(obj)) + NodePortOps(obj, decode)
  }

  /** The Service without its old addresses and undeclared node ports, and otherwise unchanged. */
  function Serviced(obj: Object, decode: Decoder): Json
  {
    NodePortsPruned(WithoutSpecKeys(obj, OldAddresses(obj)), decode)
  }

  lemma ServiceExact(obj: Object, decode: Decoder)
    ensures ApplyAll(Obj(obj), ServiceOps(obj, decode)) == Ok(Serviced(obj, decode))
  {
    var keys := OldAddresses(obj);
    ApplyAllAppend(Obj(obj), RemoveSpecOps(keys), NodePortOps(obj, decode));
    if "spec" in obj && obj["spec"].Obj? {
      RemoveSpecKeys(obj, keys);
    } else {
      assert keys == [];
      assert RemoveSpecOps(keys) == [];
    }
    PortsIndependent(obj, decode);
    NodePortsExact(WithoutSpecKeys(obj, keys), decode);
  }
}
