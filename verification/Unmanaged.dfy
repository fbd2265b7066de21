/** Namespaces without a manager on record, made by other means than this server. Nobody's name is
    empty there, and so is the label of every binding made by other means: handing such a namespace
    over takes the first of those bindings for the old manager's. */
module Unmanaged {
  import opened Iam
  import opened Naming
  import opened Membership
  import opened MembershipRuns

  ghost function Unlabelled(bindings: map<string, Binding>): map<string, Binding> {
    map n | n in bindings && bindings[n].userRef == "" :: bindings[n]
  }

  const NOBODYS_NAME := BindingName("", OPERATOR)

  ghost predicate LabelsCanonical(s: NamespaceState, roles: set<string>) {
    && WellKeyed(s.bindings)
    && forall n :: n in s.bindings && s.bindings[n].userRef != "" ==> Canonical(s.bindings[n], roles)
  }

  /** The grant gets as far as taking the namespace over from nobody. */
  ghost predicate FromNobody(s: NamespaceState, user: string, role: string, o: Oracle) {
    && role == ADMIN && s.Manager() == ""
    && o.fault(GetNamespace) == Delivered
    && Exchanges(s.bindings, user, ADMIN, o, ListUser, DeleteUser, CreateUser)
  }

  /** The bindings when it has. */
  ghost function Halfway(s: NamespaceState, user: string, o: Oracle): map<string, Binding> {
    With(Spared(s.bindings, user, o, ListUser), user, ADMIN)
  }

  /** The unlabelled binding that is deleted for nobody's: the first one listed. */
  ghost function NobodysVictim(s: NamespaceState, user: string, o: Oracle): Option<string> {
    Victim(Halfway(s, user, o), "", o, ListManager)
  }

  ghost function LeftUnlabelled(s: NamespaceState, user: string, o: Oracle): map<string, Binding> {
    var n := NobodysVictim(s, user, o);
    if n.Some? && o.fault(DeleteManager) != RequestLost then Unlabelled(s.bindings) - {n.value}
    else Unlabelled(s.bindings)
  }

  ghost predicate CreatesNobodys(s: NamespaceState, user: string, o: Oracle) {
    && (NobodysVictim(s, user, o).Some? ==> o.fault(DeleteManager) == Delivered)
    && NOBODYS_NAME !in LeftUnlabelled(s, user, o)
    && o.fault(CreateOperator) != RequestLost
  }

  // ---- what becomes of unlabelled bindings ----

  lemma StepUnlabelled(after: map<string, Binding>, before: map<string, Binding>, v: string, r: string)
    requires v != "" && (TakesOne(after, before, v) || AddsOne(after, before, v, r))
    ensures Unlabelled(after) == Unlabelled(before)
    ensures WellKeyed(before) ==> WellKeyed(after)
  {
    hide BindingName;
  }

  /** An exchange of a user's binding, whatever becomes of it, touches no unlabelled binding. */
  lemma ExchangeSpares(r: Run, v: string, role: string, o: Oracle, listing: Stage, deleting: Stage, creating: Stage)
    requires r.trace != [] && r.error == None && WellKeyed(r.Last().bindings) && Faithful(o) && v != ""
    ensures var q := CreateFor(DeleteByUser(r, v, o, listing, deleting), v, role, o, creating);
            && (forall x :: x in q.trace ==> x in r.trace || Unlabelled(x.bindings) == Unlabelled(r.Last().bindings))
            && Unlabelled(q.Last().bindings) == Unlabelled(r.Last().bindings)
            && WellKeyed(q.Last().bindings)
  {
    hide BindingName, DeleteByUser, CreateFor, TakesOne, AddsOne, Unlabelled, Faithful;
    DeleteByUserAnyFault(r, v, o, listing, deleting);
    var d := DeleteByUser(r, v, o, listing, deleting);
    StepUnlabelled(d.Last().bindings, r.Last().bindings, v, role);
    if d.error == None {
      CreateForAnyFault(d, v, role, o, creating);
      var q := CreateFor(d, v, role, o, creating);
      if q.Last().bindings != d.Last().bindings {
        StepUnlabelled(q.Last().bindings, d.Last().bindings, v, role);
      }
    } else {
      ErrorStops(d, v, role, o, creating);
    }
  }

  /** The name for nobody's operator binding is no labelled binding's. */
  lemma NobodysNameUnlabelled(s: NamespaceState, roles: set<string>, user: string, o: Oracle, x: map<string, Binding>)
    requires Vocabulary(roles) && user != "" && LabelsCanonical(s, roles)
    requires forall n :: n in x ==> (n in s.bindings && x[n] == s.bindings[n]) || n == BindingName(user, ADMIN)
    ensures BindingName(user, ADMIN) != NOBODYS_NAME
    ensures NOBODYS_NAME in x ==> x[NOBODYS_NAME].userRef == ""
  {
    if BindingName(user, ADMIN) == NOBODYS_NAME {
      NameDetermines(roles, user, ADMIN, "", OPERATOR);
    }
    if NOBODYS_NAME in x && x[NOBODYS_NAME].userRef != "" {
      var c := x[NOBODYS_NAME];
      NameDetermines(roles, "", OPERATOR, c.userRef, c.roleRef.name);
      assert false;
    }
  }

  /** The delete in a second half that takes the namespace over from nobody. */
  lemma NobodysDelete(r: Run, s: NamespaceState, user: string, o: Oracle)
    requires r.trace != [] && r.error == None && r.Last() == s.(bindings := Halfway(s, user, o))
    requires WellKeyed(r.Last().bindings) && Faithful(o)
    requires Unlabelled(r.Last().bindings) == Unlabelled(s.bindings)
    ensures var d, n := DeleteByUser(r, "", o, ListManager, DeleteManager), NobodysVictim(s, user, o);
            && (d.error == None <==> (n.Some? ==> o.fault(DeleteManager) == Delivered))
            && Unlabelled(d.Last().bindings) == LeftUnlabelled(s, user, o)
            && d.Last() in d.trace
            && (forall x :: x in d.trace ==> x in r.trace || x == d.Last())
            && (forall x :: x in d.Last().bindings ==>
                  x in r.Last().bindings && d.Last().bindings[x] == r.Last().bindings[x])
  {
    hide BindingName, DeleteByUser, Faithful, Victim;
    DeleteVictim(r, "", o, ListManager, DeleteManager);
    VictimFound(r.Last().bindings, "", o, ListManager);
  }

  /** The creation after it. */
  lemma NobodysCreate(d: Run, s: NamespaceState, user: string, o: Oracle)
    requires d.trace != [] && Unlabelled(d.Last().bindings) == LeftUnlabelled(s, user, o)
    requires d.error == None <==> (NobodysVictim(s, user, o).Some? ==> o.fault(DeleteManager) == Delivered)
    requires NOBODYS_NAME in d.Last().bindings ==> d.Last().bindings[NOBODYS_NAME].userRef == ""
    ensures var c := CreateFor(d, "", OPERATOR, o, CreateOperator);
            && (forall x :: x in c.trace ==> x in d.trace || x == c.Last())
            && (forall x :: x in d.trace ==> x in c.trace)
            && Unlabelled(c.Last().bindings) == AfterNobody(s, user, o)
  {
    hide BindingName, LeftUnlabelled, NobodysVictim;
  }

  /** The unlabelled bindings in the end. */
  ghost function AfterNobody(s: NamespaceState, user: string, o: Oracle): map<string, Binding> {
    var left := LeftUnlabelled(s, user, o);
    if CreatesNobodys(s, user, o) then left[NOBODYS_NAME := RoleBindingFor("", OPERATOR)] else left
  }

  lemma HalfwayUnlabelled(s: NamespaceState, roles: set<string>, user: string, o: Oracle, x: map<string, Binding>)
    requires Vocabulary(roles) && user != "" && LabelsCanonical(s, roles)
    requires forall n :: n in x ==> n in Halfway(s, user, o) && x[n] == Halfway(s, user, o)[n]
    ensures NOBODYS_NAME in x ==> x[NOBODYS_NAME].userRef == ""
  {
    hide BindingName, Vocabulary, LabelsCanonical, Victim;
    NobodysNameUnlabelled(s, roles, user, o, x);
  }

  /** A grant from the start to the end of its first half. */
  ghost function FirstHalf(s: NamespaceState, user: string, role: string, o: Oracle): (r: Run)
    ensures r.trace != []
  {
    CreateFor(DeleteByUser(Run(None, [s]), user, o, ListUser, DeleteUser), user, role, o, CreateUser)
  }

  lemma FirstHalfSpares(s: NamespaceState, user: string, role: string, o: Oracle)
    requires user != "" && WellKeyed(s.bindings) && Faithful(o)
    ensures var r := FirstHalf(s, user, role, o);
            && (forall x :: x in r.trace ==> Unlabelled(x.bindings) == Unlabelled(s.bindings))
            && WellKeyed(r.Last().bindings)
            && r.error != Some(NilMapPanic)
            && (r.error == None <==> Exchanges(s.bindings, user, role, o, ListUser, DeleteUser, CreateUser))
            && (r.error == None && role == ADMIN ==> r.Last() == s.(bindings := Halfway(s, user, o)))
  {
    var start := Run(None, [s]);
    ExchangeSpares(start, user, role, o, ListUser, DeleteUser, CreateUser);
    ExchangeExact(start, user, role, o, ListUser, DeleteUser, CreateUser);
    ExchangeExactly(start, user, role, o, ListUser, DeleteUser, CreateUser);
    NoOtherPanic(start, user, role, o, ListUser, DeleteUser, CreateUser);
    hide BindingName, DeleteByUser, CreateFor, Unlabelled, Exchanges, Spared, Faithful;
  }

  /** A grant that does not take the namespace over from nobody touches no unlabelled binding. */
  lemma UnlabelledSpared(s: NamespaceState, user: string, role: string, o: Oracle)
    requires user != "" && WellKeyed(s.bindings) && Faithful(o) && !FromNobody(s, user, role, o)
    ensures forall x :: x in Grant(s, user, role, o).trace ==> Unlabelled(x.bindings) == Unlabelled(s.bindings)
  {
    FirstHalfSpares(s, user, role, o);
    var r := FirstHalf(s, user, role, o);
    if role == ADMIN && s.Manager() != user {
      if r.error.Some? {
        HandOverStops(r, s, user, o);
      } else if s.Manager() != "" {
        ExchangeSpares(r, s.Manager(), OPERATOR, o, ListManager, DeleteManager, CreateOperator);
        assert r.Last() in r.trace;
      }
    }
    hide BindingName, DeleteByUser, CreateFor, Unlabelled, Exchanges, Faithful;
  }

  lemma LastIn(r: Run)
    requires r.trace != []
    ensures r.Last() in r.trace
  {}

  /** The second half is the exchange, and a write that leaves the bindings. */
  lemma HandOverIs(r: Run, s: NamespaceState, user: string, o: Oracle)
    requires r.trace != []
    ensures var q := HandOver(r, s, user, o);
            var c := CreateFor(DeleteByUser(r, s.Manager(), o, ListManager, DeleteManager), s.Manager(), OPERATOR,
                               o, CreateOperator);
            && q.Last().bindings == c.Last().bindings
            && (forall x :: x in c.trace ==> x in q.trace)
            && (forall x :: x in q.trace ==> x in c.trace || x.bindings == c.Last().bindings)
            && (q.error == Some(NilMapPanic) <==>
                  c.error == Some(NilMapPanic) || (c.error == None && s.annotations == map[]))
            && (q.error == None <==>
                  c.error == None && s.annotations != map[] && o.fault(UpdateNamespace) == Delivered)
  {
    hide BindingName, DeleteByUser, CreateFor;
  }

  /** Some unlabelled binding is gone after some call. */
  ghost predicate LosesUnlabelled(s: NamespaceState, q: Run) {
    exists x, n :: x in q.trace && n in Unlabelled(s.bindings) && n !in Unlabelled(x.bindings)
  }

  /** A run whose unlabelled bindings go from all of them to the ones left, and perhaps one more. */
  lemma LossInTrace(s: NamespaceState, q: Run, all: map<string, Binding>, left: map<string, Binding>, d: NamespaceState)
    requires all == Unlabelled(s.bindings) && d in q.trace && Unlabelled(d.bindings) == left
    requires forall n :: n in left ==> n in all
    requires forall n :: n in all && n in left ==> all[n] == left[n]
    requires forall x :: x in q.trace ==> left.Keys <= Unlabelled(x.bindings).Keys
    ensures LosesUnlabelled(s, q) <==> left != all
  {
    hide Unlabelled;
    if left != all {
      assert exists n :: n in all && n !in left;
    }
  }

  lemma LeftBetween(s: NamespaceState, user: string, o: Oracle)
    ensures var all, left := Unlabelled(s.bindings), LeftUnlabelled(s, user, o);
            && (forall n :: n in left ==> n in all && left[n] == all[n])
            && left.Keys <= AfterNobody(s, user, o).Keys
  {
    hide BindingName, Unlabelled, NobodysVictim, CreatesNobodys;
  }

  lemma TakenFromNobody(s: NamespaceState, user: string, roles: set<string>, o: Oracle)
    requires Vocabulary(roles) && user != "" && LabelsCanonical(s, roles)
    requires Faithful(o) && FromNobody(s, user, ADMIN, o)
    ensures var q := Grant(s, user, ADMIN, o);
            && Unlabelled(q.Last().bindings) == AfterNobody(s, user, o)
            && (LosesUnlabelled(s, q) <==> LeftUnlabelled(s, user, o) != Unlabelled(s.bindings))
  {
    FirstHalfSpares(s, user, ADMIN, o);
    hide BindingName, DeleteByUser, CreateFor, Exchanges, Faithful, LabelsCanonical, Vocabulary, HandOver, FirstHalf,
         CreatesNobodys, LosesUnlabelled, NobodysVictim, Halfway, LeftUnlabelled, AfterNobody;
    LeftBetween(s, user, o);
    var r := FirstHalf(s, user, ADMIN, o);
    NobodysDelete(r, s, user, o);
    var d := DeleteByUser(r, "", o, ListManager, DeleteManager);
    HalfwayUnlabelled(s, roles, user, o, d.Last().bindings);
    NobodysCreate(d, s, user, o);
    HandOverIs(r, s, user, o);
    GrantIs(s, user, o);
    LossInTrace(s, Grant(s, user, ADMIN, o), Unlabelled(s.bindings), LeftUnlabelled(s, user, o), d.Last());
  }

  lemma GrantIs(s: NamespaceState, user: string, o: Oracle)
    requires user != "" && FromNobody(s, user, ADMIN, o)
    ensures Grant(s, user, ADMIN, o) == HandOver(FirstHalf(s, user, ADMIN, o), s, user, o)
  {
    hide BindingName, DeleteByUser, CreateFor, Exchanges, HandOver;
  }

  /** What becomes of unlabelled bindings, whatever the fates of the calls. They all survive unless the
      grant takes the namespace over from nobody; then exactly one is lost, the first one listed, if
      there is any, the list is answered and the delete is not lost. An operator binding for nobody
      may be added. */
  lemma UnlabelledOutcome(s: NamespaceState, user: string, role: string, roles: set<string>, o: Oracle)
    requires Vocabulary(roles) && user != "" && role in roles && LabelsCanonical(s, roles) && Faithful(o)
    ensures var q, all := Grant(s, user, role, o), Unlabelled(s.bindings);
            && (LosesUnlabelled(s, q) <==>
                  && FromNobody(s, user, role, o) && HasBinding(s.bindings, "")
                  && o.fault(ListManager) == Delivered && o.fault(DeleteManager) != RequestLost)
            && (LosesUnlabelled(s, q) ==>
                  var n := NobodysVictim(s, user, o);
                  n.Some? && n.value in all && LeftUnlabelled(s, user, o) == all - {n.value})
            && Unlabelled(q.Last().bindings) == (if FromNobody(s, user, role, o) then AfterNobody(s, user, o) else all)
  {
    var q := Grant(s, user, role, o);
    if FromNobody(s, user, role, o) {
      TakenFromNobody(s, user, roles, o);
      VictimIsUnlabelled(s, user, roles, o);
      hide BindingName, Grant, Exchanges, Faithful, LabelsCanonical, Vocabulary, CreatesNobodys, FromNobody;
    } else {
      UnlabelledSpared(s, user, role, o);
      LastIn(q);
      hide BindingName, Grant, Exchanges, Faithful, LabelsCanonical, Vocabulary, CreatesNobodys, FromNobody;
    }
  }

  lemma VictimIsUnlabelled(s: NamespaceState, user: string, roles: set<string>, o: Oracle)
    requires user != "" && WellKeyed(s.bindings) && Faithful(o) && FromNobody(s, user, ADMIN, o)
    ensures var n := NobodysVictim(s, user, o);
            && (n.Some? <==> o.fault(ListManager) == Delivered && HasBinding(s.bindings, ""))
            && (n.Some? ==> n.value in Unlabelled(s.bindings))
  {
    FirstHalfSpares(s, user, ADMIN, o);
    var r := FirstHalf(s, user, ADMIN, o);
    LastIn(r);
    VictimFound(r.Last().bindings, "", o, ListManager);
    SameUnlabelled(r.Last().bindings, s.bindings);
    hide BindingName, FirstHalf, Exchanges, Faithful, Victim, Halfway, Unlabelled, HasBinding;
    InUnlabelled(r.Last().bindings);
  }

  lemma SameUnlabelled(x: map<string, Binding>, y: map<string, Binding>)
    requires Unlabelled(x) == Unlabelled(y)
    ensures HasBinding(x, "") <==> HasBinding(y, "")
  {
    assert forall n :: n in x && x[n].userRef == "" ==> n in Unlabelled(y);
    assert forall n :: n in y && y[n].userRef == "" ==> n in Unlabelled(x);
  }

  lemma InUnlabelled(x: map<string, Binding>)
    ensures forall n :: n in Unlabelled(x) <==> n in x && x[n].userRef == ""
  {}

  // ---- the nil map ----

  /** When a grant panics, for any namespace and any fates of the calls: exactly when it hands over a
      namespace without annotations and every call before the write to them has succeeded. */
  lemma PanicsIff(s: NamespaceState, user: string, role: string, o: Oracle)
    requires user != "" && WellKeyed(s.bindings) && Faithful(o)
    ensures Grant(s, user, role, o).error == Some(NilMapPanic) <==>
              && s.annotations == map[] && FromNobody(s, user, role, o)
              && Exchanges(Halfway(s, user, o), "", OPERATOR, o, ListManager, DeleteManager, CreateOperator)
  {
    FirstHalfSpares(s, user, role, o);
    var r := FirstHalf(s, user, role, o);
    if role == ADMIN && s.Manager() != user && r.error == None {
      HandOverIs(r, s, user, o);
      NoOtherPanic(r, s.Manager(), OPERATOR, o, ListManager, DeleteManager, CreateOperator);
      ExchangeExact(r, s.Manager(), OPERATOR, o, ListManager, DeleteManager, CreateOperator);
    } else if r.error.Some? {
      HandOverStops(r, s, user, o);
    }
    hide BindingName, DeleteByUser, CreateFor, Exchanges, Faithful, HandOver, Halfway, Unlabelled, WellKeyed;
  }

  // ---- retries ----

  ghost predicate Clean(o: Oracle) {
    Faithful(o) && FaultFree(o)
  }

  /** Whatever attempts fail and however lists are ordered, as long as they are answered. */
  ghost predicate AlwaysConverges(s: NamespaceState, user: string, role: string) {
    forall failed: seq<Oracle>, retry: Oracle, once: Oracle ::
      (forall o :: o in failed ==> Faithful(o) && ListsAnswer(o)) && Clean(retry) && Clean(once) ==>
        Converges(s, user, role, failed, retry, once)
  }

  ghost predicate ListsFirst(o: Oracle, n: string) {
    forall stage: Stage, x: map<string, Binding> ::
      n in x && x[n].name == n ==> o.list(stage, x) != [] && o.list(stage, x)[0] == x[n]
  }

  /** An API server without faults that lists the binding named `n` first. */
  lemma ListingFirst(n: string) returns (o: Oracle)
    ensures Clean(o) && ListsFirst(o, n)
  {
    var enumerated := (x: map<string, Binding>) => Enumerated(set k | k in x && x[k].name == k :: x[k]);
    var list := (stage: Stage, x: map<string, Binding>) =>
      if n in x && x[n].name == n then [x[n]] + enumerated(x) else enumerated(x);
    o := Oracle(_ => Delivered, list);
    forall stage: Stage, x: map<string, Binding>
      ensures Lists(o.list(stage, x), x)
    {}
  }

  /** A grant without faults that takes the namespace over from nobody: the binding listed first goes,
      unless it is created again, and the other unlabelled ones stay. */
  lemma FirstListedGoes(s: NamespaceState, user: string, roles: set<string>, o: Oracle, n: string)
    requires Vocabulary(roles) && user != "" && Tidy(s, roles) && s.Manager() == "" && Clean(o)
    requires n in Unlabelled(s.bindings) && ListsFirst(o, n)
    ensures var u := Unlabelled(Grant(s, user, ADMIN, o).Last().bindings);
            && (n != NOBODYS_NAME ==> n !in u)
            && (forall k :: k in Unlabelled(s.bindings) && k != n ==> k in u)
  {
    var start := Run(None, [s]);
    OnePerUserAtMost(s.bindings, user);
    ExchangeOutcome(start, roles, user, ADMIN, o, ListUser, DeleteUser, CreateUser);
    FirstHalfSpares(s, user, ADMIN, o);
    var x := Halfway(s, user, o);
    InUnlabelled(x);
    assert n in x && x[n].name == n && x[n].userRef == "";
    assert NobodysVictim(s, user, o) == Some(n);
    hide BindingName, DeleteByUser, CreateFor, Exchanges, Canonical, OnePerUser, Grant, Halfway, Unlabelled,
         NobodysVictim;
    UnlabelledOutcome(s, user, ADMIN, roles, o);
  }

  /** With its lists answered, a grant can be repeated at will exactly if it does not take a namespace
      over from nobody in which two bindings are unlabelled. */
  lemma AlwaysConvergesIff(s: NamespaceState, user: string, role: string, roles: set<string>)
    requires Vocabulary(roles) && user != "" && role in roles && Tidy(s, roles)
    ensures AlwaysConverges(s, user, role) <==>
              !(role == ADMIN && s.Manager() == "" && !AtMostOne(s.bindings, ""))
  {
    if role == ADMIN && s.Manager() == "" && !AtMostOne(s.bindings, "") {
      var a, b :| a in s.bindings && b in s.bindings && s.bindings[a].userRef == s.bindings[b].userRef == "" && a != b;
      var n, k := if a == NOBODYS_NAME then b else a, if a == NOBODYS_NAME then a else b;
      var retry := ListingFirst(n);
      var once := ListingFirst(k);
      InUnlabelled(s.bindings);
      hide BindingName, Grant, Unlabelled, Tidy, Clean, Faithful, FaultFree, AtMostOne;
      FirstListedGoes(s, user, roles, retry, n);
      FirstListedGoes(s, user, roles, once, k);
      assert !Converges(s, user, role, [], retry, once);
    } else {
      if HandsOver(s, user, role) && s.Manager() != "" {
        OnePerUserAtMost(s.bindings, s.Manager());
      }
      hide Tidy, Converges;
      forall failed: seq<Oracle>, retry: Oracle, once: Oracle
        | (forall o :: o in failed ==> Faithful(o) && ListsAnswer(o)) && Clean(retry) && Clean(once)
        ensures Converges(s, user, role, failed, retry, once)
      {
        RetryConverges(s, user, role, roles, failed, retry, once);
      }
    }
  }

  // ---- it happens ----

  /** Nobody manages the namespace, and "viewers" was made by other means. */
  function Foreign(annotations: map<string, string>): NamespaceState {
    NamespaceState(annotations, map["viewers" := Binding("viewers", "", [], RoleRef(ROLE_KIND, "view"))])
  }

  lemma NoDash(name: string, roles: set<string>)
    requires '-' !in name
    ensures !Reserved(name, roles)
  {
    forall u, r
      ensures '-' in BindingName(u, r)
    {
      assert BindingName(u, r)[|u|] == '-';
    }
  }

  /** Granting carol admin in such a namespace without any fault deletes "viewers": with an annotation
      the grant reports success, without one it panics. */
  lemma ForeignBindingLost(annotations: map<string, string>, o: Oracle)
    requires CREATOR !in annotations && Clean(o)
    ensures var q := Grant(Foreign(annotations), "carol", ADMIN, o);
            && q.error == (if annotations == map[] then Some(NilMapPanic) else None)
            && "viewers" !in q.Last().bindings
            && NOBODYS_NAME in q.Last().bindings && q.Last().bindings[NOBODYS_NAME].userRef == ""
            && q.Last().Manager() == (if annotations == map[] then "" else "carol")
  {
    var s := Foreign(annotations);
    ExampleRoles();
    NoDash("viewers", EXAMPLE_ROLES);
    hide BindingName, Reserved, Vocabulary;
    assert Tidy(s, EXAMPLE_ROLES) && InFlight(s, s, "carol", ADMIN, EXAMPLE_ROLES);
    GrantOutcome(s, s, "carol", ADMIN, EXAMPLE_ROLES, o);
    NoOneElse();
    hide Grant;
    assert Others(s.bindings, Touched(s, "carol", ADMIN)) == map[];
  }

  lemma NoOneElse()
    ensures BindingName("carol", ADMIN) !in {NOBODYS_NAME, "viewers"} && NOBODYS_NAME != "viewers"
  {
    assert NOBODYS_NAME[0] == '-' && "viewers"[0] == 'v' && BindingName("carol", ADMIN)[0] == 'c';
  }
}
