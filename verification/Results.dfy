/** The list result of the HTTP handlers: keep the items whose metadata pass every filter of the
    query, clear their managed fields, report how many are left. */
module Results {
  import opened Iam
  import opened Strings
  import opened Slices
  import opened Listing

  const NAME_ANNOTATION := "ai.io/name"

  /** The query parameters looked at; an absent one is empty. */
  datatype Querier = Querier(aliasName: string, name: string, names: string)

  /** A list item; not every item type carries object metadata. */
  datatype Item = Item(meta: Option<ObjectMeta>, payload: int)

  type MetadataFilter = ObjectMeta -> bool

  function AliasFilter(aliasName: string): MetadataFilter {
    (meta: ObjectMeta) =>
      HasSubstring(if NAME_ANNOTATION in meta.annotations then meta.annotations[NAME_ANNOTATION] else "", aliasName)
  }

  function NameFilter(name: string): MetadataFilter {
    (meta: ObjectMeta) => HasSubstring(meta.name, name)
  }

  function NamesFilter(names: string): MetadataFilter {
    (meta: ObjectMeta) => exists n | n in Split(names, ',') :: HasSubstring(meta.name, n)
  }

  function FiltersOf(q: Querier): seq<MetadataFilter> {
    (if q.aliasName == "" then [] else [AliasFilter(q.aliasName)])
    + (if q.name == "" then [] else [NameFilter(q.name)])
    + (if q.names == "" then [] else [NamesFilter(q.names)])
  }

  /** Without filters everything passes; with filters an item without metadata does not. */
  predicate Matches(item: Item, filters: seq<MetadataFilter>) {
    filters == [] || (item.meta.Some? && forall k | 0 <= k < |filters| :: filters[k](item.meta.value))
  }

  function Cleaned(item: Item): Item {
    if item.meta.Some? then item.(meta := Some(item.meta.value.(managedFields := []))) else item
  }

  /** The passing items in order, managed fields cleared. */
  function Passing(list: seq<Item>, filters: seq<MetadataFilter>): seq<Item> {
    if list == [] then []
    else
      var n := |list| - 1;
      Passing(list[..n], filters) + if Matches(list[n], filters) then [Cleaned(list[n])] else []
  }

  method Match(item: Item, filters: seq<MetadataFilter>) returns (matched: bool)
    ensures matched == Matches(item, filters)
  {
    if |filters| == 0 {
      return true;
    }
    matched := false;
    if item.meta.Some? {
      for k := 0 to |filters|
        invariant k > 0 ==> matched
        invariant forall j :: 0 <= j < k ==> filters[j](item.meta.value)
      {
        matched := filters[k](item.meta.value);
        if !matched {
          return;
        }
      }
    }
  }

  /** Dropping the positions that do not match leaves the passing items. */
  lemma {:induction false} KeepIsPassing(list: seq<Item>, seen: seq<Item>, dropped: set<int>,
                                         filters: seq<MetadataFilter>)
    requires |seen| == |list|
    requires forall i :: 0 <= i < |list| ==> (i in dropped <==> !Matches(list[i], filters))
    requires forall i :: 0 <= i < |list| && Matches(list[i], filters) ==> seen[i] == Cleaned(list[i])
    ensures Keep(seen, dropped) == Passing(list, filters)
  {
    hide Matches, Cleaned;
    if list != [] {
      var n := |list| - 1;
      KeepIsPassing(list[..n], seen[..n], dropped, filters);
    }
  }

  lemma AppendNoRepeats(s: seq<int>, x: int)
    requires NoRepeats(s) && x !in s
    ensures NoRepeats(s + [x])
  {
    assert x !in multiset(s);
  }

  /** Positions are collected while scanning and removed afterwards by splicing. */
  method WithListAndFilter(list: seq<Item>, q: Querier) returns (data: seq<Item>, total: Option<nat>)
    ensures data == Passing(list, FiltersOf(q))
    ensures total == if data == [] then None else Some(|data|)
  {
    var filters := FiltersOf(q);
    var items, toDels: seq<int> := list, [];
    hide Matches, FiltersOf;
    for i := 0 to |list|
      invariant |items| == |list| && NoRepeats(toDels)
      invariant forall j :: j in toDels ==> 0 <= j < i
      invariant forall j :: 0 <= j < i ==> (j in toDels <==> !Matches(list[j], filters))
      invariant forall j :: 0 <= j < i && Matches(list[j], filters) ==> items[j] == Cleaned(list[j])
      invariant forall j :: i <= j < |list| ==> items[j] == list[j]
    {
      var passes := Match(items[i], filters);
      if passes {
        items := items[i := Cleaned(items[i])];
      } else {
        AppendNoRepeats(toDels, i);
        toDels := toDels + [i];
      }
    }
    data := RemoveSubSlice(items, toDels);
    KeepIsPassing(list, items, Elements(toDels), filters);
    total := if |data| > 0 then Some(|data|) else None;
  }

  /** `positions` are exactly the places of the passing items, in order, and `data` is what is there. */
  ghost predicate IsSublist(data: seq<Item>, list: seq<Item>, filters: seq<MetadataFilter>, positions: seq<int>) {
    && |positions| == |data|
    && (forall j, k :: 0 <= j < k < |positions| ==> positions[j] < positions[k])
    && (forall i :: i in positions <==> 0 <= i < |list| && Matches(list[i], filters))
    && forall k :: 0 <= k < |positions| ==> 0 <= positions[k] < |list| && data[k] == Cleaned(list[positions[k]])
  }

  lemma SublistGrows(data: seq<Item>, list: seq<Item>, filters: seq<MetadataFilter>, positions: seq<int>, item: Item)
    requires IsSublist(data, list, filters, positions)
    ensures if Matches(item, filters) then
        IsSublist(data + [Cleaned(item)], list + [item], filters, positions + [|list|])
            else IsSublist(data, list + [item], filters, positions)
  {
    hide Matches, Cleaned;
    assert forall k :: 0 <= k < |positions| ==> positions[k] in positions;
  }

  /** Every passing item is kept and nothing else; the order of the list is kept. */
  lemma {:induction false} PassingIsOrderedSublist(list: seq<Item>, filters: seq<MetadataFilter>)
    returns (positions: seq<int>)
    ensures IsSublist(Passing(list, filters), list, filters, positions)
  {
    positions := [];
    if list != [] {
      var n := |list| - 1;
      positions := PassingIsOrderedSublist(list[..n], filters);
      SublistGrows(Passing(list[..n], filters), list[..n], filters, positions, list[n]);
      assert list[..n] + [list[n]] == list;
      if Matches(list[n], filters) {
        positions := positions + [n];
      } else {
        assert Passing(list, filters) == Passing(list[..n], filters);
      }
    }
    hide IsSublist;
  }

  /** What the query parameters ask for: an absent one nothing, the others that the display name, the
      name, or the name by one of several pieces, be found in the item's metadata. */
  lemma MatchesMeans(item: Item, q: Querier)
    ensures Matches(item, FiltersOf(q)) <==>
              || (q.aliasName == "" && q.name == "" && q.names == "")
              || (&& item.meta.Some?
                  && (q.aliasName != "" ==>
                        Within(q.aliasName, if "ai.io/name" in item.meta.value.annotations
                                            then item.meta.value.annotations["ai.io/name"] else ""))
                  && (q.name != "" ==> Within(q.name, item.meta.value.name))
                  && (q.names != "" ==> exists n :: n in Split(q.names, ',') && Within(n, item.meta.value.name)))
  {
    forall s, sub
      ensures HasSubstring(s, sub) <==> Within(sub, s)
    {
      SubstringMeans(s, sub);
    }
    hide HasSubstring, Within, Split;
    var a := if q.aliasName == "" then [] else [AliasFilter(q.aliasName)];
    var b := if q.name == "" then [] else [NameFilter(q.name)];
    var c := if q.names == "" then [] else [NamesFilter(q.names)];
    assert FiltersOf(q) == a + b + c;
    if item.meta.Some? {
      AllPass(a, b, c, item.meta.value);
      PassOne(AliasFilter(q.aliasName), item.meta.value);
      PassOne(NameFilter(q.name), item.meta.value);
      PassOne(NamesFilter(q.names), item.meta.value);
      assert Matches(item, FiltersOf(q)) <==> FiltersOf(q) == [] || Pass(FiltersOf(q), item.meta.value);
      hide Pass;
    }
  }

  lemma PassOne(f: MetadataFilter, meta: ObjectMeta)
    ensures Pass([f], meta) <==> f(meta)
    ensures Pass([], meta)
  {
    assert [f][0] == f;
  }

  ghost predicate Pass(filters: seq<MetadataFilter>, meta: ObjectMeta) {
    forall k :: 0 <= k < |filters| ==> filters[k](meta)
  }

  lemma AllPass(a: seq<MetadataFilter>, b: seq<MetadataFilter>, c: seq<MetadataFilter>, meta: ObjectMeta)
    ensures Pass(a + b + c, meta) <==> Pass(a, meta) && Pass(b, meta) && Pass(c, meta)
  {
    var all := a + b + c;
    assert forall k :: 0 <= k < |a| ==> all[k] == a[k];
    assert forall k :: 0 <= k < |b| ==> all[|a| + k] == b[k];
    assert forall k :: 0 <= k < |c| ==> all[|a| + |b| + k] == c[k];
  }

  /** Clearing the managed fields changes nothing else. */
  lemma CleanedMeans(item: Item)
    ensures Cleaned(item).payload == item.payload && (Cleaned(item).meta.Some? <==> item.meta.Some?)
    ensures item.meta.Some? ==>
              && Cleaned(item).meta.value.managedFields == []
              && Cleaned(item).meta.value == item.meta.value.(managedFields := [])
  {}
}
