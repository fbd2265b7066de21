/** List queries: filter, sort and cut out a page. */
module Listing {
  import opened Iam
  import opened Strings
  import opened Sorting

  datatype ObjectMeta = ObjectMeta(
    name: string, namespace: string, uid: string, created: int,
    owners: seq<Owner>, labels: map<string, string>, annotations: map<string, string>, managedFields: seq<string>)

  datatype Owner = Owner(uid: string, kind: string)

  const FIELD_NAME := "name"

  datatype Pagination = Pagination(limit: int, offset: int)

  const NO_PAGINATION := Pagination(-1, 0)

  datatype Query = Query(
    pagination: Option<Pagination>, sortBy: string, ascending: bool, filters: map<string, string>)

  /** "Left is greater than right." Every field but the name sorts by creation time, then name. */
  predicate Compare(left: ObjectMeta, right: ObjectMeta, sortBy: string) {
    if sortBy == FIELD_NAME || left.created == right.created then Before(right.name, left.name)
    else left.created > right.created
  }

  type CompareFunc = (ObjectMeta, ObjectMeta, string) -> bool

  /** How sorting compares: greatest first, or the negation of that. */
  function LessBy(compare: CompareFunc, sortBy: string, ascending: bool): (ObjectMeta, ObjectMeta) -> bool {
    (left, right) => if ascending then !compare(left, right, sortBy) else compare(left, right, sortBy)
  }

  /** The comparison that every resource uses. */
  const DEFAULT_COMPARE: CompareFunc := (left, right, sortBy) => Compare(left, right, sortBy)

  function Less(sortBy: string, ascending: bool): (ObjectMeta, ObjectMeta) -> bool {
    LessBy(DEFAULT_COMPARE, sortBy, ascending)
  }

  /** Does an object pass the filter of one field? Each resource gives its own. */
  type FilterFunc = (ObjectMeta, string, string) -> bool

  const FIELD_NAMES := "names"
  const FIELD_UID := "uid"
  const FIELD_NAMESPACE := "namespace"
  const FIELD_OWNER_REFERENCE := "ownerReference"
  const FIELD_OWNER_KIND := "ownerKind"
  const FIELD_ANNOTATION := "annotation"
  const FIELD_LABEL := "label"

  /** Does a label selector, given as text, match? A selector that does not parse matches nothing. */
  type LabelMatch = (map<string, string>, string) -> bool

  /** The filter of object metadata that resources fall back to. */
  predicate MetaFilter(o: ObjectMeta, field: string, value: string, labelMatch: LabelMatch) {
    if field == FIELD_NAMES then o.name in Split(value, ',')
    else if field == FIELD_NAME then HasSubstring(o.name, value)
    else if field == FIELD_UID then o.uid == value
    else if field == FIELD_NAMESPACE then o.namespace == value
    else if field == FIELD_OWNER_REFERENCE then exists owner | owner in o.owners :: owner.uid == value
    else if field == FIELD_OWNER_KIND then exists owner | owner in o.owners :: owner.kind == value
    else if field == FIELD_ANNOTATION then labelMatch(o.annotations, value)
    else if field == FIELD_LABEL then labelMatch(o.labels, value)
    else false
  }

  function MetaFilterWith(labelMatch: LabelMatch): FilterFunc {
    (o, field, value) => MetaFilter(o, field, value, labelMatch)
  }

  method DefaultObjectMetaFilter(o: ObjectMeta, field: string, value: string, labelMatch: LabelMatch)
    returns (passes: bool)
    ensures passes == MetaFilter(o, field, value, labelMatch)
  {
    if field == FIELD_NAMES {
      var names := Split(value, ',');
      for i := 0 to |names|
        invariant o.name !in names[..i]
      {
        if o.name == names[i] {
          return true;
        }
      }
      return false;
    } else if field == FIELD_NAME {
      return HasSubstring(o.name, value);
    } else if field == FIELD_UID {
      return o.uid == value;
    } else if field == FIELD_NAMESPACE {
      return o.namespace == value;
    } else if field == FIELD_OWNER_REFERENCE {
      for i := 0 to |o.owners|
        invariant forall owner :: owner in o.owners[..i] ==> owner.uid != value
      {
        if o.owners[i].uid == value {
          return true;
        }
      }
      return false;
    } else if field == FIELD_OWNER_KIND {
      for i := 0 to |o.owners|
        invariant forall owner :: owner in o.owners[..i] ==> owner.kind != value
      {
        if o.owners[i].kind == value {
          return true;
        }
      }
      return false;
    } else if field == FIELD_ANNOTATION {
      return labelMatch(o.annotations, value);
    } else if field == FIELD_LABEL {
      return labelMatch(o.labels, value);
    }
    return false;
  }

  predicate Selected(o: ObjectMeta, filters: map<string, string>, filter: FilterFunc) {
    forall field | field in filters :: filter(o, field, filters[field])
  }

  /** How a resource is listed: its comparison, its filter, and what is made of each selected object. */
  datatype Lister = Lister(compare: CompareFunc, filter: FilterFunc, transforms: seq<ObjectMeta -> ObjectMeta>)

  ghost predicate Standard(k: Lister) {
    k.compare == DEFAULT_COMPARE
  }

  function Transformed(o: ObjectMeta, transforms: seq<ObjectMeta -> ObjectMeta>): ObjectMeta
    decreases |transforms|
  {
    if transforms == [] then o else Transformed(transforms[0](o), transforms[1..])
  }

  /** What becomes of one object: nothing, or its transformation. */
  function Kept(o: ObjectMeta, filters: map<string, string>, k: Lister): seq<ObjectMeta> {
    if Selected(o, filters, k.filter) then [Transformed(o, k.transforms)] else []
  }

  function Select(objects: seq<ObjectMeta>, filters: map<string, string>, k: Lister): seq<ObjectMeta> {
    if objects == [] then [] else Kept(objects[0], filters, k) + Select(objects[1..], filters, k)
  }

  function Listed(objects: seq<ObjectMeta>, q: Query, k: Lister): seq<ObjectMeta> {
    Sort(LessBy(k.compare, q.sortBy, q.ascending), Select(objects, q.filters, k))
  }

  /** The slice of a list of `total` elements that a page covers. */
  function ValidPagination(p: Pagination, total: nat): (r: (nat, nat))
    ensures r.0 <= r.1 <= total
  {
    if p.limit == NO_PAGINATION.limit then (0, total)
    else if p.limit < 0 || p.offset < 0 || p.offset > total then (0, 0)
    else (p.offset, if p.offset + p.limit > total then total else p.offset + p.limit)
  }

  /** The pagination asked for by query parameters `page` and `limit`. */
  function PageOf(page: int, limit: int): Pagination {
    Pagination(limit, (page - 1) * limit)
  }

  method SelectByFilters(o: ObjectMeta, q: Query, filter: FilterFunc) returns (selected: bool)
    ensures selected == Selected(o, q.filters, filter)
  {
    selected := true;
    var fields := q.filters.Keys;
    while fields != {}
      invariant fields <= q.filters.Keys
      invariant forall f :: f in q.filters && f !in fields ==> filter(o, f, q.filters[f])
      invariant selected
      decreases |fields|
    {
      var field :| field in fields;
      if !filter(o, field, q.filters[field]) {
        return false;
      }
      fields := fields - {field};
    }
  }

  method Transform(o: ObjectMeta, transforms: seq<ObjectMeta -> ObjectMeta>) returns (r: ObjectMeta)
    ensures r == Transformed(o, transforms)
  {
    r := o;
    for i := 0 to |transforms|
      invariant Transformed(r, transforms[i..]) == Transformed(o, transforms)
    {
      assert transforms[i..][1..] == transforms[i + 1..];
      r := transforms[i](r);
    }
  }

  method SelectAll(objects: seq<ObjectMeta>, q: Query, k: Lister) returns (filtered: seq<ObjectMeta>)
    ensures filtered == Select(objects, q.filters, k)
  {
    hide Selected, Select;
    filtered := [];
    for i := 0 to |objects|
      invariant filtered + Select(objects[i..], q.filters, k) == Select(objects, q.filters, k)
    {
      var selected := SelectByFilters(objects[i], q, k.filter);
      SelectFirst(objects, i, q, k);
      if selected {
        var transformed := Transform(objects[i], k.transforms);
        filtered := filtered + [transformed];
      }
    }
    assert objects[|objects|..] == [];
    SelectNone(q, k);
  }

  lemma SelectFirst(objects: seq<ObjectMeta>, i: nat, q: Query, k: Lister)
    requires i < |objects|
    ensures Select(objects[i..], q.filters, k)
         == Kept(objects[i], q.filters, k) + Select(objects[i + 1..], q.filters, k)
  {
    assert objects[i..][1..] == objects[i + 1..];
  }

  lemma SelectNone(q: Query, k: Lister)
    ensures Select([], q.filters, k) == []
  {}

  /** What a query answers: the number of listed objects, and the page of them asked for. */
  function Answer(objects: seq<ObjectMeta>, q: Query, k: Lister): (nat, seq<ObjectMeta>) {
    var listed := Listed(objects, q, k);
    var (start, end) := ValidPagination(if q.pagination == None then NO_PAGINATION else q.pagination.value, |listed|);
    (|listed|, listed[start..end])
  }

  method DefaultList(objects: seq<ObjectMeta>, q: Query, k: Lister)
    returns (totalItems: nat, items: seq<ObjectMeta>)
    ensures (totalItems, items) == Answer(objects, q, k)
  {
    var filtered := SelectAll(objects, q, k);
    filtered := Sort(LessBy(k.compare, q.sortBy, q.ascending), filtered);
    totalItems := |filtered|;
    var pagination := q.pagination;
    if pagination == None {
      pagination := Some(NO_PAGINATION);
    }
    var (start, end) := ValidPagination(pagination.value, totalItems);
    items := filtered[start..end];
  }

  // ---- which objects, and which part of them ----

  /** What each field of the metadata filter asks for. */
  lemma MetaFilterMeans(o: ObjectMeta, value: string, names: seq<string>, labelMatch: LabelMatch)
    requires names != [] && forall n :: n in names ==> ',' !in n
    ensures MetaFilter(o, "names", Join(names, ','), labelMatch) <==> o.name in names
    ensures MetaFilter(o, "name", value, labelMatch) <==> Within(value, o.name)
    ensures MetaFilter(o, "uid", value, labelMatch) <==> value == o.uid
    ensures MetaFilter(o, "namespace", value, labelMatch) <==> value == o.namespace
    ensures MetaFilter(o, "ownerReference", value, labelMatch) <==>
              exists i :: 0 <= i < |o.owners| && o.owners[i].uid == value
    ensures MetaFilter(o, "ownerKind", value, labelMatch) <==>
              exists i :: 0 <= i < |o.owners| && o.owners[i].kind == value
    ensures MetaFilter(o, "annotation", value, labelMatch) <==> labelMatch(o.annotations, value)
    ensures MetaFilter(o, "label", value, labelMatch) <==> labelMatch(o.labels, value)
    ensures forall field ::
              field !in {"names", "name", "uid", "namespace", "ownerReference", "ownerKind", "annotation", "label"} ==>
                !MetaFilter(o, field, value, labelMatch)
  {
    SplitJoin(names, ',');
    SubstringMeans(o.name, value);
    hide Split, Join, HasSubstring, Within;
  }

  /** The listed objects are what becomes of those that pass the filter of every field. */
  lemma {:induction false} SelectMember(objects: seq<ObjectMeta>, filters: map<string, string>, k: Lister,
                                        x: ObjectMeta)
    ensures x in Select(objects, filters, k) <==>
              exists o :: o in objects && Transformed(o, k.transforms) == x
                          && forall field :: field in filters ==> k.filter(o, field, filters[field])
  {
    hide Transformed;
    if objects != [] {
      SelectMember(objects[1..], filters, k, x);
      assert forall o :: o in objects <==> o == objects[0] || o in objects[1..];
    }
  }

  /** Filtering by two groups of fields is filtering by one and then by the other. */
  lemma {:induction false} SelectTwice(objects: seq<ObjectMeta>, f: map<string, string>, g: map<string, string>,
                                       k: Lister)
    requires k.transforms == [] && f.Keys !! g.Keys
    ensures Select(objects, f + g, k) == Select(Select(objects, f, k), g, k)
  {
    if objects != [] {
      var o := objects[0];
      SelectTwice(objects[1..], f, g, k);
      assert Selected(o, f + g, k.filter) <==> Selected(o, f, k.filter) && Selected(o, g, k.filter) by {
        SelectedBoth(o, f, g, k.filter);
      }
      hide Selected;
      SelectConcat(Kept(o, f, k), Select(objects[1..], f, k), g, k);
    }
  }

  lemma SelectedBoth(o: ObjectMeta, f: map<string, string>, g: map<string, string>, filter: FilterFunc)
    requires f.Keys !! g.Keys
    ensures Selected(o, f + g, filter) <==> Selected(o, f, filter) && Selected(o, g, filter)
  {
    var both := f + g;
    assert forall field :: field in f ==> both[field] == f[field];
    assert forall field :: field in g ==> both[field] == g[field];
    assert forall field :: field in both ==> field in f || field in g;
  }

  /** Transforms apply in order. */
  lemma {:induction false} TransformedLast(o: ObjectMeta, transforms: seq<ObjectMeta -> ObjectMeta>,
                                           last: ObjectMeta -> ObjectMeta)
    ensures Transformed(o, []) == o
    ensures Transformed(o, transforms + [last]) == last(Transformed(o, transforms))
    decreases |transforms|
  {
    var all := transforms + [last];
    if transforms == [] {
      assert all[1..] == [];
      assert Transformed(last(o), all[1..]) == last(o);
    } else {
      assert all[1..] == transforms[1..] + [last];
      TransformedLast(transforms[0](o), transforms[1..], last);
    }
  }

  /** The part of a list that is answered: all of it if no page is asked for, nothing for a page that
      does not make sense or starts past the end, otherwise as many as asked for from where it starts. */
  lemma AnswerMeans(objects: seq<ObjectMeta>, q: Query, k: Lister)
    ensures var (total, items) := Answer(objects, q, k);
            var all := Listed(objects, q, k);
            && total == |all|
            && (q.pagination == None ==> items == all)
            && (q.pagination.Some? ==>
                  var (limit, offset) := (q.pagination.value.limit, q.pagination.value.offset);
                  && (limit == -1 ==> items == all)
                  && (limit < -1 || (limit >= 0 && !(0 <= offset <= total)) ==> items == [])
                  && (limit >= 0 && 0 <= offset <= total ==>
                        |items| == Min(limit, total - offset) && items == all[offset..offset + |items|]))
  {
    hide Listed;
  }

  // ---- the order ----

  /** No two different objects have equal names and, unless sorted by name, equal ages. Lists over
      all namespaces may hold such objects. */
  ghost predicate NoTies(objects: seq<ObjectMeta>, sortBy: string) {
    forall a, b :: a in objects && b in objects && SameRank(a, b, sortBy) ==> a == b
  }

  predicate SameRank(a: ObjectMeta, b: ObjectMeta, sortBy: string) {
    a.name == b.name && (sortBy == FIELD_NAME || a.created == b.created)
  }

  /** For every sort field and direction, sorting compares by a strict total order. */
  lemma LessOrders(objects: seq<ObjectMeta>, sortBy: string, ascending: bool)
    requires NoTies(objects, sortBy)
    ensures OrderOn(Less(sortBy, ascending), objects)
  {
    var less := Less(sortBy, ascending);
    forall a, b | a in objects && b in objects && a != b
      ensures less(a, b) != less(b, a)
    {
      BeforeTotal(a.name, b.name);
    }
    forall a, b, c
      | a in objects && b in objects && c in objects && a != b && b != c && a != c && less(a, b) && less(b, c)
      ensures less(a, c)
    {
      BeforeTotal(a.name, b.name);
      BeforeTotal(b.name, c.name);
      BeforeTotal(a.name, c.name);
      if Before(a.name, b.name) && Before(b.name, c.name) {
        BeforeTransitive(a.name, b.name, c.name);
      }
      if Before(c.name, b.name) && Before(b.name, a.name) {
        BeforeTransitive(c.name, b.name, a.name);
      }
    }
  }

  // ---- the list does not depend on the order objects arrive in ----

  lemma {:induction false} SelectConcat(a: seq<ObjectMeta>, b: seq<ObjectMeta>, filters: map<string, string>, k: Lister)
    ensures Select(a + b, filters, k) == Select(a, filters, k) + Select(b, filters, k)
  {
    hide Kept;
    if a == [] {
      assert a + b == b;
    } else {
      SelectConcat(a[1..], b, filters, k);
      assert (a + b)[1..] == a[1..] + b;
    }
  }

  lemma SelectAround(b: seq<ObjectMeta>, i: nat, q: Query, k: Lister)
    requires i < |b|
    ensures Select(b, q.filters, k)
         == Select(b[..i], q.filters, k) + (Kept(b[i], q.filters, k) + Select(b[i + 1..], q.filters, k))
  {
    hide Kept;
    var rest := [b[i]] + b[i + 1..];
    assert b == b[..i] + rest && rest[1..] == b[i + 1..];
    SelectConcat(b[..i], rest, q.filters, k);
  }

  lemma {:induction false} SelectPermutes(a: seq<ObjectMeta>, b: seq<ObjectMeta>, q: Query, k: Lister)
    requires multiset(a) == multiset(b)
    ensures multiset(Select(a, q.filters, k)) == multiset(Select(b, q.filters, k))
  {
    SameElements(a, b);
    if a != [] {
      assert a[0] in b;
      var i :| 0 <= i < |b| && b[i] == a[0];
      HeadOut(a, b, i);
      SelectPermutes(a[1..], b[..i] + b[i + 1..], q, k);
      SelectConcat(b[..i], b[i + 1..], q.filters, k);
      SelectAround(b, i, q, k);
      assert Select(a, q.filters, k) == Kept(a[0], q.filters, k) + Select(a[1..], q.filters, k);
      hide Select, Kept;
    }
  }

  /** The list is the sorted permutation of the selected objects: whatever the order of arrival. */
  lemma ListCanonical(a: seq<ObjectMeta>, b: seq<ObjectMeta>, q: Query, k: Lister)
    requires Standard(k) && NoTies(Select(a, q.filters, k), q.sortBy) && multiset(a) == multiset(b)
    ensures Listed(a, q, k) == Listed(b, q, k)
    ensures Sorted(Less(q.sortBy, q.ascending), Listed(a, q, k))
    ensures multiset(Listed(a, q, k)) == multiset(Select(a, q.filters, k))
  {
    var s, t := Select(a, q.filters, k), Select(b, q.filters, k);
    SelectPermutes(a, b, q, k);
    SameElements(s, t);
    LessOrders(s, q.sortBy, q.ascending);
    LessOrders(t, q.sortBy, q.ascending);
    SortSorts(Less(q.sortBy, q.ascending), s);
    SortSorts(Less(q.sortBy, q.ascending), t);
    LessOrders(Listed(a, q, k), q.sortBy, q.ascending) by {
      SameElements(Listed(a, q, k), s);
    }
    SortedUnique(Less(q.sortBy, q.ascending), Listed(a, q, k), Listed(b, q, k));
  }

  /** An answer of a library sort that promises no more than that no object comes before an earlier one. */
  ghost predicate AnswerOf(listed: seq<ObjectMeta>, arrived: seq<ObjectMeta>, q: Query, k: Lister) {
    multiset(listed) == multiset(Select(arrived, q.filters, k)) && InOrder(Less(q.sortBy, q.ascending), listed)
  }

  /** All orders of arrival and all library sorts give one and the same list. */
  ghost predicate OneAnswer(objects: seq<ObjectMeta>, q: Query, k: Lister) {
    forall x, y, a, b ::
      multiset(x) == multiset(y) == multiset(objects) && AnswerOf(a, x, q, k) && AnswerOf(b, y, q, k) ==> a == b
  }

  lemma BeforeEither(a: string, b: string, c: string)
    ensures Before(a, b) || a == b || Before(b, a)
    ensures !(Before(a, b) && Before(b, a)) && !Before(a, a)
    ensures Before(a, b) && Before(b, c) ==> Before(a, c)
  {
    BeforeTotal(a, b);
    BeforeTotal(a, a);
    if Before(a, b) && Before(b, c) {
      BeforeTransitive(a, b, c);
    }
  }

  lemma LessRanks(sortBy: string, ascending: bool)
    ensures Ranks(Less(sortBy, ascending))
  {
    var less := Less(sortBy, ascending);
    forall a, b
      ensures May(less, a, b) <==>
                if ascending then !Compare(a, b, sortBy) else !Compare(b, a, sortBy)
    {
      BeforeEither(a.name, b.name, "");
    }
    forall a, b
      ensures !Compare(a, b, sortBy) || !Compare(b, a, sortBy)
    {
      BeforeEither(a.name, b.name, "");
    }
    forall a, b, c | !Compare(a, b, sortBy) && !Compare(b, c, sortBy)
      ensures !Compare(a, c, sortBy)
    {
      BeforeEither(a.name, b.name, c.name);
      BeforeEither(b.name, c.name, a.name);
      BeforeEither(c.name, b.name, a.name);
      BeforeEither(b.name, a.name, c.name);
      BeforeEither(a.name, c.name, b.name);
    }
    hide Compare;
  }

  lemma SameRankTies(a: ObjectMeta, b: ObjectMeta, sortBy: string, ascending: bool)
    requires SameRank(a, b, sortBy)
    ensures Tie(Less(sortBy, ascending), a, b)
  {
    BeforeTotal(a.name, a.name);
  }

  lemma InOrderIsSorted(s: seq<ObjectMeta>, sortBy: string, ascending: bool)
    requires NoTies(s, sortBy) && InOrder(Less(sortBy, ascending), s)
    ensures Sorted(Less(sortBy, ascending), s)
  {
    LessOrders(s, sortBy, ascending);
    hide Less, NoTies;
  }

  /** The list is the same for every order of arrival and every library sort exactly if no two
      different selected objects tie. */
  lemma OneAnswerIff(objects: seq<ObjectMeta>, q: Query, k: Lister)
    requires Standard(k)
    ensures OneAnswer(objects, q, k) <==> NoTies(Select(objects, q.filters, k), q.sortBy)
  {
    var s, less := Select(objects, q.filters, k), Less(q.sortBy, q.ascending);
    if NoTies(s, q.sortBy) {
      hide Less, Select;
      forall x, y, a, b
        | multiset(x) == multiset(y) == multiset(objects) && AnswerOf(a, x, q, k) && AnswerOf(b, y, q, k)
        ensures a == b
      {
        SelectPermutes(x, objects, q, k);
        SelectPermutes(y, objects, q, k);
        SameElements(a, s);
        SameElements(b, s);
        InOrderIsSorted(a, q.sortBy, q.ascending);
        InOrderIsSorted(b, q.sortBy, q.ascending);
        LessOrders(a, q.sortBy, q.ascending);
        SortedUnique(less, a, b);
      }
    } else {
      var a, b :| a in s && b in s && SameRank(a, b, q.sortBy) && a != b;
      SameRankTies(a, b, q.sortBy, q.ascending);
      LessRanks(q.sortBy, q.ascending);
      hide Less, Select;
      var r, t := TwoOrders(less, s, a, b);
      assert AnswerOf(r, objects, q, k) && AnswerOf(t, objects, q, k);
    }
  }

  /** Unless asked for ascending order, a list starts with the newest object, objects of one age in
      descending order of names; sorted by name, it descends by name alone. */
  lemma NewestFirst(objects: seq<ObjectMeta>, q: Query, k: Lister, i: nat, j: nat)
    requires Standard(k) && NoTies(Select(objects, q.filters, k), q.sortBy) && !q.ascending
    requires i < j < |Listed(objects, q, k)| && Listed(objects, q, k)[i] != Listed(objects, q, k)[j]
    ensures var a, b := Listed(objects, q, k)[i], Listed(objects, q, k)[j];
            if q.sortBy == FIELD_NAME then Before(b.name, a.name)
            else a.created > b.created || (a.created == b.created && Before(b.name, a.name))
  {
    ListCanonical(objects, objects, q, k);
    hide Listed;
    assert Less(q.sortBy, q.ascending)(Listed(objects, q, k)[i], Listed(objects, q, k)[j]);
  }

  lemma {:induction false} SelectCounts(objects: seq<ObjectMeta>, filters: map<string, string>, k: Lister,
                                        x: ObjectMeta)
    requires k.transforms == []
    ensures multiset(Select(objects, filters, k))[x]
         == if Selected(x, filters, k.filter) then multiset(objects)[x] else 0
  {
    hide Selected;
    if objects != [] {
      SelectCounts(objects[1..], filters, k, x);
      assert objects == [objects[0]] + objects[1..];
      assert multiset(objects) == multiset{objects[0]} + multiset(objects[1..]);
      assert Kept(objects[0], filters, k) == if Selected(objects[0], filters, k.filter) then [objects[0]] else [];
    }
  }

  /** Asking for names lists exactly the objects so named, each of them once, in the order of the list. */
  lemma ListByNames(objects: seq<ObjectMeta>, names: seq<string>, q: Query, labelMatch: LabelMatch)
    requires forall i, j :: 0 <= i < j < |objects| ==> objects[i] != objects[j]
    requires NoTies(objects, q.sortBy)
    requires names != [] && forall n :: n in names ==> ',' !in n
    requires q.filters == map[FIELD_NAMES := Join(names, ',')]
    ensures var listed := Listed(objects, q, Lister(DEFAULT_COMPARE, MetaFilterWith(labelMatch), []));
            && Sorted(Less(q.sortBy, q.ascending), listed)
            && forall x :: multiset(listed)[x] == if x in objects && x.name in names then 1 else 0
  {
    var k := Lister(DEFAULT_COMPARE, MetaFilterWith(labelMatch), []);
    SplitJoin(names, ',');
    hide Listed, Less, Sorted, Select, Split, Join;
    forall x
      ensures multiset(Select(objects, q.filters, k))[x] == if x in objects && x.name in names then 1 else 0
    {
      SelectCounts(objects, q.filters, k, x);
      CountedOnce(objects, x);
      NamesSelect(x, Join(names, ','), labelMatch);
    }
    forall x | x in Select(objects, q.filters, k)
      ensures x in objects
    {
      assert x in multiset(Select(objects, q.filters, k));
    }
    ListCanonical(objects, objects, q, k);
  }

  lemma NamesSelect(x: ObjectMeta, value: string, labelMatch: LabelMatch)
    ensures Selected(x, map[FIELD_NAMES := value], MetaFilterWith(labelMatch)) <==> x.name in Split(value, ',')
  {
    var filters := map[FIELD_NAMES := value];
    hide Split;
    assert FIELD_NAMES in filters && forall field :: field in filters ==> field == FIELD_NAMES;
    assert MetaFilterWith(labelMatch)(x, FIELD_NAMES, filters[FIELD_NAMES]) <==> x.name in Split(value, ',');
  }

  lemma {:induction false} CountedOnce(objects: seq<ObjectMeta>, x: ObjectMeta)
    requires forall i, j :: 0 <= i < j < |objects| ==> objects[i] != objects[j]
    ensures multiset(objects)[x] == if x in objects then 1 else 0
  {
    if objects != [] {
      CountedOnce(objects[1..], x);
      assert objects == [objects[0]] + objects[1..];
    }
  }

  // ---- paging ----

  function AskPage(q: Query, page: int, limit: int): Query {
    q.(pagination := Some(PageOf(page, limit)))
  }

  /** The pages 1, 2, ... put together, each answered from its own listing of the store. */
  function Pages(listings: seq<seq<ObjectMeta>>, q: Query, k: Lister, limit: int): seq<ObjectMeta> {
    if listings == [] then []
    else
      var n := |listings|;
      Pages(listings[..n - 1], q, k, limit) + Answer(listings[n - 1], AskPage(q, n, limit), k).1
  }

  function Min(a: int, b: int): int {
    if a < b then a else b
  }

  /** Pages of one store fit together: they make up the one sorted list of the selected objects,
      however each listing was ordered, all with the same total, and pages past the end are empty. */
  lemma {:induction false} PagesConcatenate(objects: seq<ObjectMeta>, listings: seq<seq<ObjectMeta>>, q: Query,
                                            k: Lister, limit: int)
    requires Standard(k) && NoTies(Select(objects, q.filters, k), q.sortBy) && limit >= 1
    requires forall i :: 0 <= i < |listings| ==> multiset(listings[i]) == multiset(objects)
    ensures var all := Listed(objects, q, k);
            && Pages(listings, q, k, limit) == all[..Min(|listings| * limit, |all|)]
            && (forall i :: 0 <= i < |listings| ==> Answer(listings[i], AskPage(q, i + 1, limit), k).0 == |all|)
            && (forall i :: 0 <= i < |listings| && i * limit >= |all| ==>
                 Answer(listings[i], AskPage(q, i + 1, limit), k).1 == [])
  {
    hide Listed, Answer, Select, NoTies, Cut, Standard;
    if listings != [] {
      var n, all := |listings|, Listed(objects, q, k);
      assert forall i :: 0 <= i < n - 1 ==> listings[..n - 1][i] == listings[i];
      PagesConcatenate(objects, listings[..n - 1], q, k, limit);
      AnswerIsCut(objects, listings[n - 1], q, k, n, limit);
      CutExtends(all, n, limit);
    }
  }

  /** The part of a list on page `n`. */
  function Cut(all: seq<ObjectMeta>, n: int, limit: int): seq<ObjectMeta> {
    var (start, end) := ValidPagination(PageOf(n, limit), |all|);
    all[start..end]
  }

  lemma AnswerIsCut(objects: seq<ObjectMeta>, listing: seq<ObjectMeta>, q: Query, k: Lister, n: int,
                    limit: int)
    requires Standard(k) && NoTies(Select(objects, q.filters, k), q.sortBy) && multiset(listing) == multiset(objects)
    ensures var all := Listed(objects, q, k);
            Answer(listing, AskPage(q, n, limit), k) == (|all|, Cut(all, n, limit))
  {
    ListCanonical(objects, listing, q, k);
  }

  lemma CutExtends(all: seq<ObjectMeta>, n: nat, limit: int)
    requires n >= 1 && limit >= 1
    ensures 0 <= (n - 1) * limit <= n * limit
    ensures all[..Min((n - 1) * limit, |all|)] + Cut(all, n, limit) == all[..Min(n * limit, |all|)]
    ensures (n - 1) * limit >= |all| ==> Cut(all, n, limit) == []
  {
    assert n * limit == (n - 1) * limit + limit;
  }

  // ---- direction ----

  function Reverse<T>(s: seq<T>): seq<T> {
    if s == [] then [] else Reverse(s[1..]) + [s[0]]
  }

  lemma {:induction false} ReverseAt<T>(s: seq<T>)
    ensures |Reverse(s)| == |s| && multiset(Reverse(s)) == multiset(s)
    ensures forall k :: 0 <= k < |s| ==> Reverse(s)[k] == s[|s| - 1 - k]
  {
    if s != [] {
      ReverseAt(s[1..]);
      assert s == [s[0]] + s[1..];
    }
  }

  /** An ascending list is the descending one read backwards. */
  lemma AscendingReverses(objects: seq<ObjectMeta>, q: Query, k: Lister)
    requires Standard(k) && NoTies(Select(objects, q.filters, k), q.sortBy)
    ensures Listed(objects, q.(ascending := true), k) == Reverse(Listed(objects, q.(ascending := false), k))
  {
    var up, down := Listed(objects, q.(ascending := true), k), Listed(objects, q.(ascending := false), k);
    hide Listed, Select, Less, Sorted, Reverse;
    ListCanonical(objects, objects, q.(ascending := true), k);
    ListCanonical(objects, objects, q.(ascending := false), k);
    SameElements(down, Select(objects, q.filters, k));
    SameElements(up, Select(objects, q.filters, k));
    LessOrders(up, q.sortBy, true);
    ReverseAt(down);
    ReverseSorts(down, q.sortBy);
    SortedUnique(Less(q.sortBy, true), up, Reverse(down));
  }

  lemma ReverseSorts(down: seq<ObjectMeta>, sortBy: string)
    requires NoTies(down, sortBy) && Sorted(Less(sortBy, false), down)
    ensures Sorted(Less(sortBy, true), Reverse(down))
  {
    var r := Reverse(down);
    ReverseAt(down);
    LessOrders(down, sortBy, false);
    hide Compare;
    forall i, j | 0 <= i < j < |r|
      ensures r[i] == r[j] || Less(sortBy, true)(r[i], r[j])
    {
      var a, b := down[|r| - 1 - j], down[|r| - 1 - i];
      assert a in down && b in down;
      assert a == b || Less(sortBy, false)(a, b);
    }
  }
}
