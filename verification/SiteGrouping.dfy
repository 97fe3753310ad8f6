/** The site cache: active sites grouped under their type names through randomly ordered maps, and the proof that the
    result is an ordered filter. */
module SiteGrouping {

  /** Rows of the two queries, each already restricted to active rows and ordered. */
  datatype TypeRow = TypeRow(id: int, typeName: string)
  datatype Item = Item(siteImg: string, siteUrl: string, introduction: string, siteName: string)
  datatype SiteRow = SiteRow(typeId: int, item: Item)

  datatype Group = Group(typeName: string, items: seq<Item>)

  // ----- What the cache should hold -----

  /** The name of each type id; a later row wins. */
  function NameMap(types: seq<TypeRow>): map<int, string> {
    if types == [] then map[]
    else NameMap(types[..|types| - 1])[types[|types| - 1].id := types[|types| - 1].typeName]
  }

  /** The items of the sites whose type has the name, in site order. */
  function ItemsNamed(names: map<int, string>, sites: seq<SiteRow>, typeName: string): seq<Item> {
    if sites == [] then []
    else
      var s := sites[|sites| - 1];
      ItemsNamed(names, sites[..|sites| - 1], typeName) +
      if s.typeId in names && names[s.typeId] == typeName then [s.item] else []
  }

  /** Some id carries the name. */
  predicate Carried(names: map<int, string>, typeName: string) {
    exists id :: id in names && names[id] == typeName
  }

  /** One group for each type row, in order, whose name some id still carries. */
  function Grouped(types: seq<TypeRow>, names: map<int, string>, sites: seq<SiteRow>): seq<Group> {
    if types == [] then []
    else
      var n := types[|types| - 1].typeName;
      Grouped(types[..|types| - 1], names, sites) +
      if Carried(names, n) then [Group(n, ItemsNamed(names, sites, n))] else []
  }

  predicate DistinctIds(types: seq<TypeRow>) {
    forall i, j :: 0 <= i < j < |types| ==> types[i].id != types[j].id
  }

  predicate DistinctNames(types: seq<TypeRow>) {
    forall i, j :: 0 <= i < j < |types| ==> types[i].typeName != types[j].typeName
  }

  lemma {:induction false} NameMapOf(types: seq<TypeRow>)
    requires DistinctIds(types)
    ensures forall i :: 0 <= i < |types| ==>
              types[i].id in NameMap(types) && NameMap(types)[types[i].id] == types[i].typeName
    ensures forall id :: id in NameMap(types) ==> exists i :: 0 <= i < |types| && types[i].id == id
  {
    if types != [] {
      var init := types[..|types| - 1];
      NameMapOf(init);
      assert forall i :: 0 <= i < |init| ==> types[i] == init[i];
      assert types[|types| - 1].id in NameMap(types);
    }
  }

  /** With distinct ids every type has its group, at its own position. */
  lemma GroupedByPosition(types: seq<TypeRow>, sites: seq<SiteRow>)
    requires DistinctIds(types)
    ensures var names := NameMap(types);
            var groups := Grouped(types, names, sites);
            && |groups| == |types|
            && forall i :: 0 <= i < |types| ==>
                 groups[i] == Group(types[i].typeName, ItemsNamed(names, sites, types[i].typeName))
  {
    NameMapOf(types);
    var names := NameMap(types);
    forall i | 0 <= i < |types| ensures Carried(names, types[i].typeName) {
      assert names[types[i].id] == types[i].typeName;
    }
    GroupedPrefix(types, names, sites);
  }

  lemma {:induction false} GroupedPrefix(types: seq<TypeRow>, names: map<int, string>, sites: seq<SiteRow>)
    requires forall i :: 0 <= i < |types| ==> Carried(names, types[i].typeName)
    ensures var groups := Grouped(types, names, sites);
            && |groups| == |types|
            && forall i :: 0 <= i < |types| ==>
                 groups[i] == Group(types[i].typeName, ItemsNamed(names, sites, types[i].typeName))
  {
    if types != [] {
      GroupedPrefix(types[..|types| - 1], names, sites);
    }
  }

  // ----- In site order -----

  /** The items of a name are those at a strictly increasing sequence of positions among the sites, namely at all
      positions whose type carries the name. */
  lemma {:induction false} ItemsInOrder(names: map<int, string>, sites: seq<SiteRow>, typeName: string)
    returns (at: seq<int>)
    ensures |at| == |ItemsNamed(names, sites, typeName)|
    ensures forall j, k :: 0 <= j < k < |at| ==> at[j] < at[k]
    ensures forall j :: 0 <= j < |at| ==>
              0 <= at[j] < |sites| && ItemsNamed(names, sites, typeName)[j] == sites[at[j]].item
    ensures forall i :: 0 <= i < |sites| ==>
              (i in at <==> sites[i].typeId in names && names[sites[i].typeId] == typeName)
  {
    at := [];
    if sites != [] {
      var n := |sites| - 1;
      at := ItemsInOrder(names, sites[..n], typeName);
      if sites[n].typeId in names && names[sites[n].typeId] == typeName {
        at := at + [n];
      }
    }
  }

  /** With distinct ids, entry `i` of the result is the `i`-th type's name with the items at the positions `at[i]`: in
      site order, and exactly those of the sites whose type has that name. */
  lemma {:induction false} GroupedInOrder(types: seq<TypeRow>, sites: seq<SiteRow>) returns (at: seq<seq<int>>)
    requires DistinctIds(types)
    ensures var groups := Grouped(types, NameMap(types), sites);
            |groups| == |types| == |at| && forall i :: 0 <= i < |types| ==>
              groups[i].typeName == types[i].typeName && ItemsAt(groups[i].items, sites, at[i])
    ensures forall i, k :: 0 <= i < |types| && 0 <= k < |sites| ==>
              (k in at[i] <==> exists t :: t in types && t.id == sites[k].typeId && t.typeName == types[i].typeName)
  {
    hide ItemsNamed, Grouped, NameMap;
    var names := NameMap(types);
    GroupedByPosition(types, sites);
    at := [];
    for n := 0 to |types|
      invariant |at| == n
      invariant forall i :: 0 <= i < n ==> ItemsAt(ItemsNamed(names, sites, types[i].typeName), sites, at[i])
      invariant forall i, k :: 0 <= i < n && 0 <= k < |sites| ==>
                  (k in at[i] <==> sites[k].typeId in names && names[sites[k].typeId] == types[i].typeName)
    {
      var ps := ItemsInOrder(names, sites, types[n].typeName);
      at := at + [ps];
    }
    forall i, k | 0 <= i < |types| && 0 <= k < |sites|
      ensures k in at[i] <==> exists t :: t in types && t.id == sites[k].typeId && t.typeName == types[i].typeName
    {
      NamedBy(types, sites[k].typeId, types[i].typeName);
    }
  }

  /** The items are those at the positions, which go up. */
  predicate ItemsAt(items: seq<Item>, sites: seq<SiteRow>, at: seq<int>) {
    && |items| == |at|
    && (forall j, k :: 0 <= j < k < |at| ==> at[j] < at[k])
    && (forall j :: 0 <= j < |at| ==> 0 <= at[j] < |sites| && items[j] == sites[at[j]].item)
  }

  lemma NamedBy(types: seq<TypeRow>, id: int, typeName: string)
    requires DistinctIds(types)
    ensures id in NameMap(types) && NameMap(types)[id] == typeName <==>
            exists t :: t in types && t.id == id && t.typeName == typeName
  {
    NameMapOf(types);
    if id in NameMap(types) {
      var i :| 0 <= i < |types| && types[i].id == id;
      assert types[i] in types;
    }
    if t :| t in types && t.id == id && t.typeName == typeName {
      var i :| 0 <= i < |types| && types[i] == t;
    }
  }

  // ----- How often a site appears -----

  function AllItems(groups: seq<Group>): seq<Item> {
    if groups == [] then [] else AllItems(groups[..|groups| - 1]) + groups[|groups| - 1].items
  }

  function Occurs(types: seq<TypeRow>, typeName: string): nat {
    if types == [] then 0
    else Occurs(types[..|types| - 1], typeName) + if types[|types| - 1].typeName == typeName then 1 else 0
  }

  /** Over the sites showing `x`, how often their type names occur among the types. */
  function Shown(types: seq<TypeRow>, names: map<int, string>, sites: seq<SiteRow>, x: Item): nat {
    if sites == [] then 0
    else
      var s := sites[|sites| - 1];
      Shown(types, names, sites[..|sites| - 1], x) +
      if s.item == x && s.typeId in names then Occurs(types, names[s.typeId]) else 0
  }

  lemma {:induction false} ShownStep(types: seq<TypeRow>, t: TypeRow, names: map<int, string>, sites: seq<SiteRow>,
      x: Item)
    ensures Shown(types + [t], names, sites, x) ==
            Shown(types, names, sites, x) + multiset(ItemsNamed(names, sites, t.typeName))[x]
  {
    if sites != [] {
      var s := sites[|sites| - 1];
      ShownStep(types, t, names, sites[..|sites| - 1], x);
      assert (types + [t])[..|types|] == types;
    }
  }

  lemma {:induction false} ShownNone(names: map<int, string>, sites: seq<SiteRow>, x: Item)
    ensures Shown([], names, sites, x) == 0
  {
    if sites != [] {
      ShownNone(names, sites[..|sites| - 1], x);
    }
  }

  lemma {:induction false} UnusedName(names: map<int, string>, sites: seq<SiteRow>, typeName: string)
    requires !Carried(names, typeName)
    ensures ItemsNamed(names, sites, typeName) == []
  {
    if sites != [] {
      UnusedName(names, sites[..|sites| - 1], typeName);
    }
  }

  /** Every active site appears exactly as often as its type name occurs among the active types. */
  lemma {:induction false} AppearsPerName(types: seq<TypeRow>, names: map<int, string>, sites: seq<SiteRow>, x: Item)
    ensures multiset(AllItems(Grouped(types, names, sites)))[x] == Shown(types, names, sites, x)
  {
    if types == [] {
      ShownNone(names, sites, x);
    } else {
      var init, t := types[..|types| - 1], types[|types| - 1];
      AppearsPerName(init, names, sites, x);
      ShownStep(init, t, names, sites, x);
      assert init + [t] == types;
      var before := Grouped(init, names, sites);
      if Carried(names, t.typeName) {
        var g := Group(t.typeName, ItemsNamed(names, sites, t.typeName));
        assert (before + [g])[..|before|] == before;
      } else {
        UnusedName(names, sites, t.typeName);
        assert Grouped(types, names, sites) == before;
      }
    }
  }

  function ActiveItems(names: map<int, string>, sites: seq<SiteRow>): seq<Item> {
    if sites == [] then []
    else
      var s := sites[|sites| - 1];
      ActiveItems(names, sites[..|sites| - 1]) + if s.typeId in names then [s.item] else []
  }

  lemma {:induction false} OccursOnce(types: seq<TypeRow>, i: int)
    requires DistinctNames(types) && 0 <= i < |types|
    ensures Occurs(types, types[i].typeName) == 1
  {
    var last := |types| - 1;
    if i == last {
      OccursNever(types[..last], types[i].typeName);
    } else {
      OccursOnce(types[..last], i);
    }
  }

  lemma {:induction false} OccursNever(types: seq<TypeRow>, typeName: string)
    requires forall i :: 0 <= i < |types| ==> types[i].typeName != typeName
    ensures Occurs(types, typeName) == 0
  {
    if types != [] {
      OccursNever(types[..|types| - 1], typeName);
    }
  }

  /** With distinct ids and names every site of an active type appears exactly once, and nothing else appears. */
  lemma AppearsOnce(types: seq<TypeRow>, sites: seq<SiteRow>)
    requires DistinctIds(types) && DistinctNames(types)
    ensures var names := NameMap(types);
            multiset(AllItems(Grouped(types, names, sites))) == multiset(ActiveItems(names, sites))
  {
    var names := NameMap(types);
    forall x ensures multiset(AllItems(Grouped(types, names, sites)))[x] == multiset(ActiveItems(names, sites))[x] {
      AppearsPerName(types, names, sites, x);
      ShownOnce(types, sites, x);
    }
  }

  lemma {:induction false} ShownOnce(types: seq<TypeRow>, sites: seq<SiteRow>, x: Item)
    requires DistinctIds(types) && DistinctNames(types)
    ensures Shown(types, NameMap(types), sites, x) == multiset(ActiveItems(NameMap(types), sites))[x]
    decreases sites
  {
    if sites != [] {
      var s := sites[|sites| - 1];
      ShownOnce(types, sites[..|sites| - 1], x);
      NameMapOf(types);
      if s.typeId in NameMap(types) {
        var i :| 0 <= i < |types| && types[i].id == s.typeId;
        OccursOnce(types, i);
      }
    }
  }

  // ----- The cache as it is built -----

  /** Fills a map from ids to names, buckets the sites by name, flattens the buckets in whatever order the map yields
      them, and picks them out again in type order. */
  method CacheSiteTypes(types: seq<TypeRow>, sites: seq<SiteRow>) returns (cache: seq<Group>, ghost at: seq<seq<int>>)
    ensures cache == Grouped(types, NameMap(types), sites)
    ensures (forall i, j :: 0 <= i < j < |types| ==> types[i].id != types[j].id) ==>
              |cache| == |types| == |at| && forall i :: 0 <= i < |types| ==>
              && cache[i].typeName == types[i].typeName && |cache[i].items| == |at[i]|
              && (forall j, k :: 0 <= j < k < |at[i]| ==> at[i][j] < at[i][k])
              && (forall j :: 0 <= j < |at[i]| ==>
                    0 <= at[i][j] < |sites| && cache[i].items[j] == sites[at[i][j]].item)
              && (forall k :: 0 <= k < |sites| ==>
                    (k in at[i] <==>
                     exists t :: t in types && t.id == sites[k].typeId && t.typeName == types[i].typeName))
  {
    var typenameMap, typeNames := ReadTypes(types);
    var buckets := EmptyBuckets(typenameMap);
    if |typenameMap| > 0 {
      buckets := FillBuckets(typenameMap, buckets, sites);
    } else {
      assert forall n :: n !in buckets;
    }
    var slice := Flatten(buckets);
    cache := PickInOrder(typeNames, typenameMap, buckets, slice, sites);
    at := [];
    if DistinctIds(types) {
      at := GroupedInOrder(types, sites);
    }
  }

  method ReadTypes(types: seq<TypeRow>) returns (typenameMap: map<int, string>, typeNames: seq<TypeRow>)
    ensures typenameMap == NameMap(types) && typeNames == types
  {
    typenameMap, typeNames := map[], [];
    for i := 0 to |types|
      invariant typenameMap == NameMap(types[..i]) && typeNames == types[..i]
    {
      assert types[..i + 1][..i] == types[..i];
      typenameMap := typenameMap[types[i].id := types[i].typeName];
      typeNames := typeNames + [types[i]];
    }
    assert types[..|types|] == types;
  }

  /** The nested loops that put the groups in type order. */
  method PickInOrder(types: seq<TypeRow>, ghost names: map<int, string>, ghost buckets: map<string, seq<Item>>,
                     slice: seq<Group>, ghost sites: seq<SiteRow>) returns (cache: seq<Group>)
    requires forall n :: n in buckets <==> Carried(names, n)
    requires forall n :: n in buckets ==> buckets[n] == ItemsNamed(names, sites, n)
    requires forall n :: n in buckets <==> exists i :: 0 <= i < |slice| && slice[i].typeName == n
    requires forall i :: 0 <= i < |slice| ==>
               slice[i].typeName in buckets && slice[i].items == buckets[slice[i].typeName]
    requires forall i, j :: 0 <= i < j < |slice| ==> slice[i].typeName != slice[j].typeName
    ensures cache == Grouped(types, names, sites)
  {
    hide Carried, ItemsNamed;
    cache := [];
    for i := 0 to |types|
      invariant cache == Grouped(types[..i], names, sites)
    {
      assert types[..i + 1][..i] == types[..i];
      var found := Pick(slice, buckets, types[i].typeName);
      cache := cache + found;
    }
    assert types[..|types|] == types;
  }

  /** One empty bucket for each name, in any order. */
  method EmptyBuckets(names: map<int, string>) returns (buckets: map<string, seq<Item>>)
    ensures forall n :: n in buckets <==> Carried(names, n)
    ensures forall n :: n in buckets ==> buckets[n] == []
  {
    buckets := map[];
    var left := names.Items;
    while left != {}
      invariant left <= names.Items
      invariant forall id :: id in names && (id, names[id]) !in left ==> names[id] in buckets
      invariant forall n :: n in buckets ==> Carried(names, n) && buckets[n] == []
      decreases left
    {
      var pair :| pair in left;
      left := left - {pair};
      var (id, name) := pair;
      assert id in names && names[id] == name;
      assert Carried(names, name);
      buckets := buckets[name := []];
    }
  }

  method FillBuckets(names: map<int, string>, empty: map<string, seq<Item>>, sites: seq<SiteRow>)
    returns (buckets: map<string, seq<Item>>)
    requires (forall n :: n in empty <==> Carried(names, n)) && forall n :: n in empty ==> empty[n] == []
    ensures forall n :: n in buckets <==> Carried(names, n)
    ensures forall n :: n in buckets ==> buckets[n] == ItemsNamed(names, sites, n)
  {
    buckets := empty;
    for i := 0 to |sites|
      invariant forall n :: n in buckets <==> Carried(names, n)
      invariant forall n :: n in buckets ==> buckets[n] == ItemsNamed(names, sites[..i], n)
    {
      assert sites[..i + 1][..i] == sites[..i];
      if sites[i].typeId in names {
        var tmp := names[sites[i].typeId];
        buckets := buckets[tmp := buckets[tmp] + [sites[i].item]];
      }
    }
    assert sites[..|sites|] == sites;
  }

  /** The buckets as a list, in any order. */
  method Flatten(buckets: map<string, seq<Item>>) returns (slice: seq<Group>)
    ensures forall n :: n in buckets <==> exists i :: 0 <= i < |slice| && slice[i].typeName == n
    ensures forall i :: 0 <= i < |slice| ==>
              slice[i].typeName in buckets && slice[i].items == buckets[slice[i].typeName]
    ensures forall i, j :: 0 <= i < j < |slice| ==> slice[i].typeName != slice[j].typeName
  {
    slice := [];
    var left := buckets.Keys;
    while left != {}
      invariant left <= buckets.Keys
      invariant forall i :: 0 <= i < |slice| ==> slice[i].typeName in buckets && slice[i].typeName !in left
      invariant forall i :: 0 <= i < |slice| ==> slice[i].items == buckets[slice[i].typeName]
      invariant forall n :: n in buckets && n !in left ==> exists i :: 0 <= i < |slice| && slice[i].typeName == n
      invariant forall i, j :: 0 <= i < j < |slice| ==> slice[i].typeName != slice[j].typeName
      decreases left
    {
      var key :| key in left;
      left := left - {key};
      ghost var before := slice;
      slice := slice + [Group(key, buckets[key])];
      assert slice[|before|].typeName == key;
      assert forall i :: 0 <= i < |before| ==> slice[i] == before[i];
    }
  }

  /** The entries of the list with a given name: one if the name has a bucket, else none. */
  method Pick(slice: seq<Group>, ghost buckets: map<string, seq<Item>>, typeName: string) returns (found: seq<Group>)
    requires forall n :: n in buckets <==> exists i :: 0 <= i < |slice| && slice[i].typeName == n
    requires forall i :: 0 <= i < |slice| ==>
               slice[i].typeName in buckets && slice[i].items == buckets[slice[i].typeName]
    requires forall i, j :: 0 <= i < j < |slice| ==> slice[i].typeName != slice[j].typeName
    ensures found == if typeName in buckets then [Group(typeName, buckets[typeName])] else []
  {
    found := [];
    for i := 0 to |slice|
      invariant found == [] || (typeName in buckets && found == [Group(typeName, buckets[typeName])])
      invariant found != [] <==> exists j :: 0 <= j < i && slice[j].typeName == typeName
    {
      if typeName == slice[i].typeName {
        found := found + [Group(typeName, slice[i].items)];
      }
    }
  }
}
