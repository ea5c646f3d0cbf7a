/** What becomes of a Service, by what its document and the last applied configuration hold. */
module ServiceLaws {
  import opened Wrappers
  import opened Strconv
  import opened Json
  import opened Patch
  import opened PatchOrder
  import opened Unstructured
  import opened ListPruning
  import opened KubernetesPlugin
  import opened ServicePlugin

  // ----- addresses -----

  /** The list of cluster addresses of a headless Service. */
  predicate Headless(v: Option<Json>)
  {
    v.Some? && v.value.Arr? && v.value.items != [] && v.value.items[0] == Str("None")
  }

  /**
   * External addresses of a load balancer are gone, and so are cluster addresses, unless they say None;
   * everything else under spec but the ports is as it was, and so is everything outside it.
   */
  ghost predicate AddressesMigrated(before: Json, after: Json)
  {
    && Lookup(after, ["spec", "externalIPs"]) ==
       (if Lookup(before, ["spec", "type"]) == Some(Str("LoadBalancer")) then None
        else Lookup(before, ["spec", "externalIPs"]))
    && Lookup(after, ["spec", "clusterIP"]) ==
       (if Lookup(before, ["spec", "clusterIP"]) == Some(Str("None")) then Some(Str("None")) else None)
    && Lookup(after, ["spec", "clusterIPs"]) ==
       (if Headless(Lookup(before, ["spec", "clusterIPs"])) then Lookup(before, ["spec", "clusterIPs"]) else None)
    && (forall k: string, rest: Path :: OtherSpecKey(k) ==>
          Lookup(after, ["spec", k] + rest) == Lookup(before, ["spec", k] + rest))
  }

  predicate OtherSpecKey(k: string)
  {
    k != "externalIPs" && k != "clusterIP" && k != "clusterIPs" && k != "ports" && !IsIndex(k)
  }

  function SpecMember(obj: Object, k: string): Option<Json>
  {
    Get(Spec(obj), k)
  }

  lemma SpecLookup(obj: Object, spec: string, k: string, rest: Path)
    requires spec == "spec" && !IsIndex(k)
    ensures Lookup(Obj(obj), [spec, k] + rest) ==
            match SpecMember(obj, k) case Some(v) => Lookup(v, rest) case None => None
  {
    var path := [spec, k] + rest;
    assert path[1..] == [k] + rest && path[1..][1..] == rest;
  }

  lemma SpecLookupHere(obj: Object, spec: string, k: string)
    requires spec == "spec" && !IsIndex(k)
    ensures Lookup(Obj(obj), [spec, k]) == SpecMember(obj, k)
  {
    SpecLookup(obj, spec, k, []);
    assert [spec, k] + [] == [spec, k];
  }

  lemma OldAddressesAre(obj: Object, k: string)
    ensures k in OldAddresses(obj) <==>
            || (k == "externalIPs" && SpecMember(obj, "type") == Some(Str("LoadBalancer")))
            || (k == "clusterIP" && SpecMember(obj, k).Some? && SpecMember(obj, k) != Some(Str("None")))
            || (k == "clusterIPs" && SpecMember(obj, k).Some? && !Headless(SpecMember(obj, k)))
  {
  }

  /** What the Service part leaves of a member of the spec other than the ports. */
  lemma ServicedMember(obj: Object, decode: Decoder, k: string, ports: string)
    requires ports == "ports" && k != ports
    ensures Serviced(obj, decode).Obj?
    ensures SpecMember(Serviced(obj, decode).members, k) == if k in OldAddresses(obj) then None else SpecMember(obj, k)
  {
    var without := WithoutSpecKeys(obj, OldAddresses(obj));
    assert SpecMember(without, k) == if k in OldAddresses(obj) then None else SpecMember(obj, k);
    PrunedMember(without, decode, k, ports);
  }

  lemma PrunedMember(obj: Object, decode: Decoder, k: string, ports: string)
    requires ports == "ports" && k != ports
    ensures NodePortsPruned(obj, decode).Obj?
    ensures SpecMember(NodePortsPruned(obj, decode).members, k) == SpecMember(obj, k)
  {
    if ServicePorts(obj).Some? && AppliedPorts(obj, decode).Ok? {
      PortsNested(obj);
      var applied := AppliedPorts(obj, decode).value;
      var pruned := Arr(Prune(ServicePorts(obj).value, Marks(ServicePorts(obj).value, applied), NODE_PORT));
      SetPorts(obj, pruned, "spec", ports);
    }
  }

  lemma SetPorts(obj: Object, v: Json, spec: string, ports: string)
    requires spec == "spec" && ports == "ports" && NestedField(Obj(obj), PORTS).Found?
    ensures spec in obj && obj[spec].Obj?
    ensures SetField(Obj(obj), PORTS, v) == Obj(obj[spec := Obj(obj[spec].members[ports := v])])
  {
    assert PORTS[1..] == [ports] && PORTS[1..][1..] == [];
    var inner := obj[spec];
    assert NestedField(Obj(obj), PORTS) == NestedField(inner, [ports]);
    assert SetField(inner.members[ports], [], v) == v;
    assert SetField(inner, [ports], v) == Obj(inner.members[ports := v]);
  }

  lemma AddressKeysNotIndex(externalIPs: string, clusterIP: string, clusterIPs: string, kind: string)
    requires externalIPs == "externalIPs" && clusterIP == "clusterIP" && clusterIPs == "clusterIPs" && kind == "type"
    ensures !IsIndex(externalIPs) && !IsIndex(clusterIP) && !IsIndex(clusterIPs) && !IsIndex(kind)
    ensures externalIPs != "ports" && clusterIP != "ports" && clusterIPs != "ports"
    ensures externalIPs != clusterIP && externalIPs != clusterIPs && clusterIP != clusterIPs
  {
    PlainNotIndex(externalIPs);
    PlainNotIndex(clusterIP);
    PlainNotIndex(clusterIPs);
    PlainNotIndex(kind);
  }

  lemma ServicedAddress(obj: Object, decode: Decoder, k: string)
    requires k != "ports" && !IsIndex(k)
    ensures Serviced(obj, decode).Obj?
    ensures Lookup(Serviced(obj, decode), ["spec", k]) ==
            if k in OldAddresses(obj) then None else Lookup(Obj(obj), ["spec", k])
    ensures Lookup(Obj(obj), ["spec", k]) == SpecMember(obj, k)
  {
    ServicedMember(obj, decode, k, "ports");
    SpecLookupHere(obj, "spec", k);
    SpecLookupHere(Serviced(obj, decode).members, "spec", k);
  }

  /** For every Service. */
  lemma AddressesExact(obj: Object, decode: Decoder)
    ensures AddressesMigrated(Obj(obj), Serviced(obj, decode))
  {
    AddressKeysNotIndex("externalIPs", "clusterIP", "clusterIPs", "type");
    ServicedAddress(obj, decode, "externalIPs");
    ServicedAddress(obj, decode, "clusterIP");
    ServicedAddress(obj, decode, "clusterIPs");
    SpecLookupHere(obj, "spec", "type");
    OldAddressesAre(obj, "externalIPs");
    OldAddressesAre(obj, "clusterIP");
    OldAddressesAre(obj, "clusterIPs");
    forall k: string, rest: Path | OtherSpecKey(k)
      ensures Lookup(Serviced(obj, decode), ["spec", k] + rest) == Lookup(Obj(obj), ["spec", k] + rest)
    {
      OtherMember(obj, decode, k, rest, "spec");
    }
  }

  lemma OtherMember(obj: Object, decode: Decoder, k: string, rest: Path, spec: string)
    requires spec == "spec" && OtherSpecKey(k)
    ensures Lookup(Serviced(obj, decode), [spec, k] + rest) == Lookup(Obj(obj), [spec, k] + rest)
  {
    OldAddressesAre(obj, k);
    ServicedMember(obj, decode, k, "ports");
    SpecLookup(obj, spec, k, rest);
    SpecLookup(Serviced(obj, decode).members, spec, k, rest);
  }

  // ----- node ports -----

  /** A number is read towards zero, a string as 0 if it is a number at all, and anything else as 0. */
  lemma NodePortIntIs(v: Json)
    ensures v.Num? ==> NodePortInt(v).Ok? && TowardsZero(v.n, NodePortInt(v).value)
    ensures v.Str? ==> NodePortInt(v) == if Atoi(v.s).Some? then Ok(0) else Err
    ensures !v.Num? && !v.Str? ==> NodePortInt(v) == Ok(0)
  {
  }

  predicate TowardsZero(x: real, n: int)
  {
    && (x >= 0.0 ==> 0 <= n && n as real <= x < n as real + 1.0)
    && (x <= 0.0 ==> n <= 0 && n as real - 1.0 < x <= n as real)
  }

  /** The list of ports counts for any type but ExternalName. */
  lemma ServicePortsAre(obj: Object, ports: seq<Json>)
    ensures ServicePorts(obj) == Some(ports) <==>
            && Lookup(Obj(obj), ["spec", "ports"]) == Some(Arr(ports))
            && Lookup(Obj(obj), ["spec", "type"]).Some?
            && Lookup(Obj(obj), ["spec", "type"]) != Some(Str("ExternalName"))
  {
    PlainNotIndex("ports");
    PlainNotIndex("type");
    SpecLookupHere(obj, "spec", "ports");
    SpecLookupHere(obj, "spec", "type");
  }

  /** The ports of the last applied configuration, if there is one to be read. */
  ghost predicate LastApplied(doc: Json, decode: Decoder, applied: seq<Json>)
  {
    match Lookup(doc, ["metadata", "annotations"])
    case Some(Obj(m)) =>
      var key := "kubectl.kubernetes.io/last-applied-configuration";
      if key in m && forall k <- m :: m[k].Str? || m[k].Null? then
        var text := if m[key].Str? then m[key].s else "";
        decode(text).Ok? && applied == PortsOf(Obj(decode(text).value))
      else applied == []
    case _ => applied == []
  }

  function PortsOf(doc: Json): seq<Json>
  {
    match Lookup(doc, ["spec", "ports"])
    case Some(Arr(ports)) => ports
    case _ => []
  }

  lemma AppliedPortsAre(obj: Object, decode: Decoder)
    requires AppliedPorts(obj, decode).Ok?
    ensures LastApplied(Obj(obj), decode, AppliedPorts(obj, decode).value)
  {
    MetadataNotIndex("metadata", "ownerReferences", "annotations");
    FoundIsLookup(Obj(obj), ["metadata", "annotations"]);
    if LAST_APPLIED in Annotations(obj) {
      PortsNestedIs(decode(Annotations(obj)[LAST_APPLIED]).value);
    }
  }

  lemma PortsNestedIs(applied: Object)
    requires NestedSlice(Obj(applied), PORTS) != TypeError
    ensures PortsOf(Obj(applied)) ==
            match NestedSlice(Obj(applied), PORTS)
            case Found(Arr(ports)) => ports
            case _ => []
  {
    PlainNotIndex("spec");
    PlainNotIndex("ports");
    FoundIsLookup(Obj(applied), PORTS);
  }

  /** A number large enough to be a node port. */
  predicate Positive(v: Json)
  {
    v.Num? && v.n >= 1.0
  }

  /** The last applied port `a` asks for the node port of `port`: by its name, or without one by the number. */
  predicate Requests(a: Json, port: Object, number: real)
  {
    && a.Obj? && "nodePort" in a.members && Positive(a.members["nodePort"])
    && if "name" in port && port["name"].Str? && port["name"] != Str("")
       then "name" in a.members && a.members["name"] == port["name"]
       else "name" !in a.members && number >= 1.0 && a.members["nodePort"].n.Floor == number.Floor
  }

  lemma DeclaresIs(a: Json, port: Object, number: real)
    requires -1.0 >= number || number >= 1.0
    ensures Requests(a, port, number) <==>
            if PortName(Obj(port)) != "" then DeclaresName(a, PortName(Obj(port)))
            else DeclaresNumber(a, Truncate(number))
  {
  }

  /** A node port is left out exactly when it is a number other than zero that nothing asked for. */
  predicate LosesNodePort(port: Json, applied: seq<Json>)
  {
    && port.Obj? && "nodePort" in port.members && port.members["nodePort"].Num?
    && var number := port.members["nodePort"].n;
       && (number >= 1.0 || number <= -1.0)
       && forall a <- applied :: !Requests(a, port.members, number)
  }

  lemma UndeclaredIs(port: Json, applied: seq<Json>)
    ensures Undeclared(port, applied) <==> LosesNodePort(port, applied)
  {
    if HasNodePort(port) && port.members["nodePort"].Num? {
      var number := port.members["nodePort"].n;
      if number >= 1.0 || number <= -1.0 {
        forall a | a in applied
          ensures Requests(a, port.members, number) <==>
                  if PortName(port) != "" then DeclaresName(a, PortName(port)) else DeclaresNumber(a, Truncate(number))
        {
          DeclaresIs(a, port.members, number);
        }
      }
    }
  }

  /** Every port of the Service is as before, but for the node ports that nothing asked for. */
  ghost predicate NodePortsMigrated(before: Json, after: Json, decode: Decoder)
  {
    var was, now := Lookup(before, ["spec", "ports"]), Lookup(after, ["spec", "ports"]);
    if was.Some? && was.value.Arr? && Lookup(before, ["spec", "type"]).Some? &&
       Lookup(before, ["spec", "type"]) != Some(Str("ExternalName"))
    then
      exists applied: seq<Json> ::
        && LastApplied(before, decode, applied)
        && now.Some? && now.value.Arr? && |now.value.items| == |was.value.items|
        && forall i :: 0 <= i < |was.value.items| ==>
             now.value.items[i] ==
             if LosesNodePort(was.value.items[i], applied) then Obj(was.value.items[i].members - {"nodePort"})
             else was.value.items[i]
    else now == was
  }

  lemma NodePortsExactly(obj: Object, decode: Decoder)
    requires PortsReadable(obj, decode)
    ensures NodePortsMigrated(Obj(obj), NodePortsPruned(obj, decode), decode)
  {
    PlainNotIndex("ports");
    SpecLookupHere(obj, "spec", "ports");
    if ServicePorts(obj).Some? {
      var ports, applied := ServicePorts(obj).value, AppliedPorts(obj, decode).value;
      ServicePortsAre(obj, ports);
      AppliedPortsAre(obj, decode);
      PortsNested(obj);
      var pruned := Prune(ports, Marks(ports, applied), NODE_PORT);
      SetPorts(obj, Arr(pruned), "spec", "ports");
      SpecLookupHere(NodePortsPruned(obj, decode).members, "spec", "ports");
      forall i | 0 <= i < |ports|
        ensures pruned[i] == if LosesNodePort(ports[i], applied) then Obj(ports[i].members - {"nodePort"}) else ports[i]
      {
        UndeclaredIs(ports[i], applied);
      }
    } else {
      forall ports: seq<Json> ensures ServicePorts(obj) == Some(ports) <==> false {
      }
      NoPorts(obj);
    }
  }

  lemma NoPorts(obj: Object)
    requires ServicePorts(obj).None?
    ensures var was := Lookup(Obj(obj), ["spec", "ports"]);
            !(was.Some? && was.value.Arr? && Lookup(Obj(obj), ["spec", "type"]).Some? &&
              Lookup(Obj(obj), ["spec", "type"]) != Some(Str("ExternalName")))
  {
    var was := Lookup(Obj(obj), ["spec", "ports"]);
    if was.Some? && was.value.Arr? {
      ServicePortsAre(obj, was.value.items);
    }
  }

  // ----- when reading the ports fails -----

  /** A string that is no number, or, in the last applied ports, a name that is no string. */
  predicate Unreadable(port: Json, applied: bool)
  {
    && port.Obj? && "nodePort" in port.members
    && (|| (port.members["nodePort"].Str? && Atoi(port.members["nodePort"].s).None?)
        || (applied && Positive(port.members["nodePort"]) && "name" in port.members && !port.members["name"].Str?))
  }

  lemma ReadableIff(port: Json, applied: bool)
    ensures Readable(port, applied) <==> !Unreadable(port, applied)
  {
  }

  /** The last applied configuration is there, but does not decode or has no list where its ports should be. */
  predicate BadConfiguration(doc: Json, decode: Decoder)
  {
    match Lookup(doc, ["metadata", "annotations"])
    case Some(Obj(m)) =>
      var key := "kubectl.kubernetes.io/last-applied-configuration";
      && key in m && (forall k <- m :: m[k].Str? || m[k].Null?)
      && var config := decode(if m[key].Str? then m[key].s else "");
         || config.Err?
         || !Walkable(Obj(config.value), ["spec", "ports"])
         || (var ports := Lookup(Obj(config.value), ["spec", "ports"]); ports.Some? && !ports.value.Arr?)
    case _ => false
  }

  lemma AppliedPortsFailIff(obj: Object, decode: Decoder)
    ensures AppliedPorts(obj, decode).Err? <==> BadConfiguration(Obj(obj), decode)
  {
    MetadataNotIndex("metadata", "ownerReferences", "annotations");
    FoundIsLookup(Obj(obj), ["metadata", "annotations"]);
    if LAST_APPLIED in Annotations(obj) && decode(Annotations(obj)[LAST_APPLIED]).Ok? {
      ConfiguredPorts(decode(Annotations(obj)[LAST_APPLIED]).value);
    }
  }

  lemma ConfiguredPorts(config: Object)
    ensures NestedSlice(Obj(config), PORTS) == TypeError <==>
            !Walkable(Obj(config), ["spec", "ports"]) ||
            (Lookup(Obj(config), ["spec", "ports"]).Some? && !Lookup(Obj(config), ["spec", "ports"]).value.Arr?)
  {
    PlainNotIndex("spec");
    PlainNotIndex("ports");
    TypeErrorIff(Obj(config), PORTS);
  }

  /** Exactly when reading the ports of a Service fails. */
  lemma PortsReadableIff(obj: Object, decode: Decoder)
    ensures PortsReadable(obj, decode) <==>
            forall ports: seq<Json> :: ServicePorts(obj) == Some(ports) ==>
              && !BadConfiguration(Obj(obj), decode)
              && (forall p <- ports :: !Unreadable(p, false))
              && forall applied: seq<Json> :: LastApplied(Obj(obj), decode, applied) ==>
                   forall a <- applied :: !Unreadable(a, true)
  {
    forall port: Json, applied: bool ensures Readable(port, applied) <==> !Unreadable(port, applied) {
      ReadableIff(port, applied);
    }
    AppliedPortsFailIff(obj, decode);
    if AppliedPorts(obj, decode).Ok? {
      AppliedPortsAre(obj, decode);
    }
  }

  // ----- the whole Service part -----

  lemma SameSpecMember(obj: Object, k: string)
    requires k !in OldAddresses(obj) && !IsIndex(k)
    ensures Lookup(Obj(WithoutSpecKeys(obj, OldAddresses(obj))), ["spec", k]) == Lookup(Obj(obj), ["spec", k])
  {
    SpecLookupHere(obj, "spec", k);
    SpecLookupHere(WithoutSpecKeys(obj, OldAddresses(obj)), "spec", k);
  }

  lemma SameMetadata(obj: Object, keys: seq<string>, metadata: string, annotations: string)
    requires metadata == "metadata"
    ensures Lookup(Obj(WithoutSpecKeys(obj, keys)), [metadata, annotations]) ==
            Lookup(Obj(obj), [metadata, annotations])
  {
    var without := WithoutSpecKeys(obj, keys);
    assert metadata != "spec";
    assert metadata in obj ==> without[metadata] == obj[metadata];
  }

  lemma StaysReadable(obj: Object, decode: Decoder)
    requires PortsReadable(obj, decode)
    ensures PortsReadable(WithoutSpecKeys(obj, OldAddresses(obj)), decode)
  {
    KeepsTypeAndPorts(obj);
    SameAnnotations(obj, WithoutSpecKeys(obj, OldAddresses(obj)));
  }

  lemma NodePortsServiced(obj: Object, decode: Decoder)
    requires PortsReadable(obj, decode)
    ensures NodePortsMigrated(Obj(obj), Serviced(obj, decode), decode)
  {
    var without := WithoutSpecKeys(obj, OldAddresses(obj));
    StaysReadable(obj, decode);
    NodePortsExactly(without, decode);
    PlainNotIndex("ports");
    PlainNotIndex("type");
    OldAddressesAre(obj, "ports");
    OldAddressesAre(obj, "type");
    SameSpecMember(obj, "ports");
    SameSpecMember(obj, "type");
    SameMetadata(obj, OldAddresses(obj), "metadata", "annotations");
    SameLastApplied(Obj(obj), Obj(without), decode);
  }

  lemma SameLastApplied(x: Json, y: Json, decode: Decoder)
    requires Lookup(x, ["metadata", "annotations"]) == Lookup(y, ["metadata", "annotations"])
    ensures forall applied: seq<Json> :: LastApplied(x, decode, applied) <==> LastApplied(y, decode, applied)
  {
  }

  lemma SameBelow(x: Json, y: Json, spec: string, k: string, rest: Path)
    requires Lookup(x, [spec]) == Lookup(y, [spec])
    ensures Lookup(x, [spec, k] + rest) == Lookup(y, [spec, k] + rest)
  {
    LookupSplit(x, [spec], [k] + rest);
    LookupSplit(y, [spec], [k] + rest);
    assert [spec, k] + rest == [spec] + ([k] + rest);
  }

  lemma SameHere(x: Json, y: Json, spec: string, k: string)
    requires Lookup(x, [spec]) == Lookup(y, [spec])
    ensures Lookup(x, [spec, k]) == Lookup(y, [spec, k])
  {
    SameBelow(x, y, spec, k, []);
    assert [spec, k] + [] == [spec, k];
  }

  /** Both results carry over to any document with the same spec. */
  lemma SameAddresses(before: Json, x: Json, y: Json)
    requires Lookup(x, ["spec"]) == Lookup(y, ["spec"]) && AddressesMigrated(before, x)
    ensures AddressesMigrated(before, y)
  {
    SameHere(x, y, "spec", "externalIPs");
    SameHere(x, y, "spec", "clusterIP");
    SameHere(x, y, "spec", "clusterIPs");
    forall k: string, rest: Path | OtherSpecKey(k)
      ensures Lookup(y, ["spec", k] + rest) == Lookup(before, ["spec", k] + rest)
    {
      SameBelow(x, y, "spec", k, rest);
    }
  }

  lemma SameNodePorts(before: Json, x: Json, y: Json, decode: Decoder)
    requires Lookup(x, ["spec"]) == Lookup(y, ["spec"]) && NodePortsMigrated(before, x, decode)
    ensures NodePortsMigrated(before, y, decode)
  {
    SameHere(x, y, "spec", "ports");
  }

  lemma SpecStays(obj: Object, decode: Decoder)
    ensures Serviced(obj, decode).Obj?
    ensures "spec" in Serviced(obj, decode).members <==> "spec" in obj
  {
    var without := WithoutSpecKeys(obj, OldAddresses(obj));
    if ServicePorts(without).Some? && AppliedPorts(without, decode).Ok? {
      PortsNested(without);
      var applied := AppliedPorts(without, decode).value;
      var ports := ServicePorts(without).value;
      SetPorts(without, Arr(Prune(ports, Marks(ports, applied), NODE_PORT)), "spec", "ports");
    }
  }

  /** `removeServiceFields`: the old addresses go, then the node ports nobody asked for; nothing else changes. */
  method RemoveServiceFields(obj: Object, decode: Decoder) returns (r: Result<seq<Operation>>)
    ensures r.Ok? <==> PortsReadable(obj, decode)
    ensures r.Ok? ==> r.value == ServiceOps(obj, decode) && ApplyAll(Obj(obj), r.value) == Ok(Serviced(obj, decode))
    ensures r.Ok? ==>
      && AddressesMigrated(Obj(obj), Serviced(obj, decode))
      && NodePortsMigrated(Obj(obj), Serviced(obj, decode), decode)
  {
    var patches := RemoveOldAddresses(obj);
    var ports :- GetNodePortPatch(obj, decode);
    ServiceExact(obj, decode);
    AddressesExact(obj, decode);
    NodePortsServiced(obj, decode);
    return Ok(patches + ports);
  }
}
