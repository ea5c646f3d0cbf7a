/** Grouping resources by type (transform/grouping.go). */
module Grouping {
  import opened Wrappers
  import opened Json
  import opened Sorting
  import opened ApiVersion
  import Strings

  datatype ResourceGroup = ResourceGroup(typeKey: string, resources: seq<Object>)

  predicate Keyed(resources: seq<Object>)
  {
    forall r <- resources :: TypeKey(r).Ok?
  }

  /** The resources with this key, in the order they came in. */
  function WithKey(resources: seq<Object>, key: string): seq<Object>
  {
    if resources == [] then []
    else
      var n := |resources| - 1;
      WithKey(resources[..n], key) + if TypeKey(resources[n]) == Ok(key) then [resources[n]] else []
  }

  lemma WithKeySnoc(resources: seq<Object>, r: Object, key: string)
    ensures WithKey(resources + [r], key) == WithKey(resources, key) + if TypeKey(r) == Ok(key) then [r] else []
  {
    assert (resources + [r])[..|resources|] == resources;
  }

  lemma {:induction false} WithKeyHas(resources: seq<Object>, r: Object, key: string)
    ensures r in WithKey(resources, key) <==> r in resources && TypeKey(r) == Ok(key)
    ensures WithKey(resources, key) != [] <==> exists x <- resources :: TypeKey(x) == Ok(key)
    decreases |resources|
  {
    if resources != [] {
      var n := |resources| - 1;
      WithKeyHas(resources[..n], r, key);
      assert resources == resources[..n] + [resources[n]];
    }
  }

  /** All resources of the groups, one group after the other. */
  function Flatten(groups: seq<ResourceGroup>): seq<Object>
  {
    if groups == [] then [] else groups[0].resources + Flatten(groups[1..])
  }

  /** What `GroupResourcesByType` promises: a sorted, stable partition by type key. */
  ghost predicate SortedPartition(resources: seq<Object>, groups: seq<ResourceGroup>)
  {
    && StrictlyOrderedBy(groups, (g: ResourceGroup) => g.typeKey)
    && (forall g <- groups :: g.resources == WithKey(resources, g.typeKey) && g.resources != [])
    && (forall r <- resources :: exists g <- groups :: TypeKey(r) == Ok(g.typeKey))
  }

  method GroupResourcesByType(resources: seq<Object>) returns (r: Result<seq<ResourceGroup>>)
    ensures r.Ok? <==> Keyed(resources)
    ensures r.Ok? ==> SortedPartition(resources, r.value)
    ensures r.Ok? ==> multiset(Flatten(r.value)) == multiset(resources)
  {
    var groupMap: map<string, seq<Object>> := map[];
    for n := 0 to |resources|
      invariant Keyed(resources[..n])
      invariant Collects(resources[..n], groupMap)
    {
      assert resources[..n + 1] == resources[..n] + [resources[n]];
      var typeKey := TypeKey(resources[n]);
      if typeKey.Err? {
        assert resources[n] in resources;
        return Err;
      }
      CollectNext(resources[..n], groupMap, resources[n]);
      var sofar := if typeKey.value in groupMap then groupMap[typeKey.value] else [];
      groupMap := groupMap[typeKey.value := sofar + [resources[n]]];
    }
    assert resources[..|resources|] == resources;
    var groups := Entries(groupMap);
    groups := SortBy(groups, (g: ResourceGroup) => g.typeKey);
    PartitionDone(resources, groupMap, groups);
    PartitionKeepsAll(resources, groups);
    return Ok(groups);
  }

  /** The map holds, for every key that occurs, the resources with that key. */
  ghost predicate Collects(resources: seq<Object>, groupMap: map<string, seq<Object>>)
  {
    && (forall k <- groupMap :: groupMap[k] == WithKey(resources, k) && groupMap[k] != [])
    && (forall r <- resources :: TypeKey(r).Ok? ==> TypeKey(r).value in groupMap)
  }

  lemma CollectNext(resources: seq<Object>, groupMap: map<string, seq<Object>>, r: Object)
    requires Keyed(resources) && Collects(resources, groupMap) && TypeKey(r).Ok?
    ensures var k := TypeKey(r).value;
            Collects(resources + [r], groupMap[k := (if k in groupMap then groupMap[k] else []) + [r]])
  {
    var k, all := TypeKey(r).value, resources + [r];
    var after := groupMap[k := (if k in groupMap then groupMap[k] else []) + [r]];
    forall key | key in after ensures after[key] == WithKey(all, key) && after[key] != [] {
      WithKeySnoc(resources, r, key);
      if key != k {
        assert WithKey(resources, key) + [] == WithKey(resources, key);
      } else if k !in groupMap {
        WithKeyHas(resources, r, k);
        assert WithKey(resources, k) == [];
      }
    }
    forall x | x in all && TypeKey(x).Ok? ensures TypeKey(x).value in after {
      assert x in resources || x == r;
    }
  }

  /** Ranging over the map: its entries as groups, in an arbitrary order. */
  method Entries(groupMap: map<string, seq<Object>>) returns (groups: seq<ResourceGroup>)
    ensures multiset(groups) == multiset(set k | k in groupMap :: ResourceGroup(k, groupMap[k]))
  {
    groups := [];
    var rest := groupMap.Keys;
    while rest != {}
      invariant rest <= groupMap.Keys
      invariant multiset(groups) == multiset(set k | k in groupMap && k !in rest :: ResourceGroup(k, groupMap[k]))
    {
      var key :| key in rest;
      var group := ResourceGroup(key, groupMap[key]);
      EntryNext(groupMap, rest, key);
      groups := groups + [group];
      rest := rest - {key};
    }
    assert (set k | k in groupMap && k !in rest :: ResourceGroup(k, groupMap[k])) ==
           (set k | k in groupMap :: ResourceGroup(k, groupMap[k]));
  }

  lemma EntryNext(groupMap: map<string, seq<Object>>, rest: set<string>, key: string)
    requires rest <= groupMap.Keys && key in rest
    ensures var done := set k | k in groupMap && k !in rest :: ResourceGroup(k, groupMap[k]);
            && ResourceGroup(key, groupMap[key]) !in done
            && (set k | k in groupMap && k !in rest - {key} :: ResourceGroup(k, groupMap[k])) ==
               done + {ResourceGroup(key, groupMap[key])}
  {
  }

  lemma PartitionDone(resources: seq<Object>, groupMap: map<string, seq<Object>>, groups: seq<ResourceGroup>)
    requires Keyed(resources) && Collects(resources, groupMap)
    requires OrderedBy(groups, (g: ResourceGroup) => g.typeKey)
    requires multiset(groups) == multiset(set k | k in groupMap :: ResourceGroup(k, groupMap[k]))
    ensures SortedPartition(resources, groups)
  {
    var all := set k | k in groupMap :: ResourceGroup(k, groupMap[k]);
    KeysDistinct(groups, all);
    forall i, j | 0 <= i < j < |groups| ensures groups[i].typeKey != groups[j].typeKey {
      assert groups[i] in all && groups[j] in all;
    }
    OrderedIsStrict(groups, (g: ResourceGroup) => g.typeKey);
    forall r | r in resources ensures exists g <- groups :: TypeKey(r) == Ok(g.typeKey) {
      var k := TypeKey(r).value;
      assert ResourceGroup(k, groupMap[k]) in all;
    }
  }

  // ----- the groups hold every resource once -----

  predicate DistinctKeys(groups: seq<ResourceGroup>)
  {
    forall i, j :: 0 <= i < j < |groups| ==> groups[i].typeKey != groups[j].typeKey
  }

  /** The groups for these keys before the last resource came in. */
  function Regroup(resources: seq<Object>, groups: seq<ResourceGroup>): (r: seq<ResourceGroup>)
    ensures |r| == |groups|
    ensures forall i :: 0 <= i < |r| ==> r[i] == ResourceGroup(groups[i].typeKey, WithKey(resources, groups[i].typeKey))
  {
    seq(|groups|,
        i requires 0 <= i < |groups| => ResourceGroup(groups[i].typeKey, WithKey(resources, groups[i].typeKey)))
  }

  lemma FlattenHead(resources: seq<Object>, groups: seq<ResourceGroup>)
    requires groups != []
    ensures multiset(Flatten(Regroup(resources, groups))) ==
            multiset(WithKey(resources, groups[0].typeKey)) + multiset(Flatten(Regroup(resources, groups[1..])))
  {
    assert Regroup(resources, groups)[1..] == Regroup(resources, groups[1..]);
  }

  predicate Listed(groups: seq<ResourceGroup>, r: Object)
  {
    exists g <- groups :: TypeKey(r) == Ok(g.typeKey)
  }

  lemma {:induction false} FlattenSnoc(resources: seq<Object>, r: Object, groups: seq<ResourceGroup>)
    requires DistinctKeys(groups) && TypeKey(r).Ok?
    ensures multiset(Flatten(Regroup(resources + [r], groups))) ==
            multiset(Flatten(Regroup(resources, groups))) + if Listed(groups, r) then multiset{r} else multiset{}
    decreases |groups|
  {
    if groups != [] {
      var rest := groups[1..];
      FlattenSnoc(resources, r, rest);
      FlattenHead(resources, groups);
      FlattenHead(resources + [r], groups);
      WithKeySnoc(resources, r, groups[0].typeKey);
      ListedOnce(groups, r);
      var one: multiset<Object> := multiset{r};
      AddOnce(multiset(WithKey(resources, groups[0].typeKey)), multiset(Flatten(Regroup(resources, rest))), one);
    }
  }

  lemma AddOnce<T>(a: multiset<T>, b: multiset<T>, one: multiset<T>)
    ensures a + one + b == a + b + one && a + (b + one) == a + b + one
  {
  }

  lemma ListedOnce(groups: seq<ResourceGroup>, r: Object)
    requires DistinctKeys(groups) && groups != []
    ensures Listed(groups, r) <==> TypeKey(r) == Ok(groups[0].typeKey) || Listed(groups[1..], r)
    ensures !(TypeKey(r) == Ok(groups[0].typeKey) && Listed(groups[1..], r))
  {
    assert groups == [groups[0]] + groups[1..];
  }

  lemma {:induction false} FlattenAll(resources: seq<Object>, groups: seq<ResourceGroup>)
    requires Keyed(resources) && DistinctKeys(groups)
    requires forall r <- resources :: exists g <- groups :: TypeKey(r) == Ok(g.typeKey)
    ensures multiset(Flatten(Regroup(resources, groups))) == multiset(resources)
    decreases |resources|
  {
    if resources == [] {
      FlattenNothing(groups);
    } else {
      var n := |resources| - 1;
      assert resources == resources[..n] + [resources[n]];
      FlattenAll(resources[..n], groups);
      FlattenSnoc(resources[..n], resources[n], groups);
    }
  }

  lemma {:induction false} FlattenNothing(groups: seq<ResourceGroup>)
    ensures Flatten(Regroup([], groups)) == []
    decreases |groups|
  {
    if groups != [] {
      FlattenNothing(groups[1..]);
      assert Regroup([], groups)[1..] == Regroup([], groups[1..]);
    }
  }

  lemma PartitionKeepsAll(resources: seq<Object>, groups: seq<ResourceGroup>)
    requires Keyed(resources) && SortedPartition(resources, groups)
    ensures multiset(Flatten(groups)) == multiset(resources)
  {
    forall i, j | 0 <= i < j < |groups| ensures groups[i].typeKey != groups[j].typeKey {
      Strings.LessTotal(groups[i].typeKey, groups[i].typeKey);
      assert Strings.Less(((g: ResourceGroup) => g.typeKey)(groups[i]), ((g: ResourceGroup) => g.typeKey)(groups[j]));
    }
    FlattenAll(resources, groups);
    assert Regroup(resources, groups) == groups;
  }

  /** Two resources end up in the same group exactly when their keys agree. */
  lemma SameGroupIff(resources: seq<Object>, groups: seq<ResourceGroup>, a: Object, b: Object)
    requires Keyed(resources) && SortedPartition(resources, groups) && a in resources && b in resources
    requires '.' !in StringMember(a, "kind") && '.' !in StringMember(b, "kind")
    ensures (exists g <- groups :: a in g.resources && b in g.resources) <==>
            StringMember(a, "kind") == StringMember(b, "kind") && Group(a) == Group(b)
  {
    TypeKeyInjective(a, b);
    forall g | g in groups
      ensures a in g.resources <==> TypeKey(a) == Ok(g.typeKey)
      ensures b in g.resources <==> TypeKey(b) == Ok(g.typeKey)
    {
      WithKeyHas(resources, a, g.typeKey);
      WithKeyHas(resources, b, g.typeKey);
    }
  }
}
