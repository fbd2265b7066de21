/** Namespace membership: granting a role in a namespace, handing the namespace over to a new
    manager, and removing a member. One operation is a series of separate calls to the API server,
    each of which may fail. */
module Membership {
  import opened Iam
  import opened Naming

  const CREATOR := "ai.io/creator"
  const ADMIN := "admin"
  const OPERATOR := "operator"

  /** A namespace as the API server holds it. An empty annotation map is read back as a nil map. */
  datatype NamespaceState = NamespaceState(annotations: map<string, string>, bindings: map<string, Binding>) {
    function Manager(): string {
      if CREATOR in annotations then annotations[CREATOR] else ""
    }
  }

  /** `NilMapPanic` is no error value of the code: writing to a nil annotation map panics and ends the
      request there. */
  datatype Error = Api(cause: ApiError) | ManagerMustHandOver | NilMapPanic

  /** The calls of one operation, each made at most once. */
  datatype Stage =
    | GetNamespace
    | ListUser | DeleteUser | CreateUser
    | ListManager | DeleteManager | CreateOperator
    | UpdateNamespace

  /** What the environment decides: the fate of each call, and the order in which lists answer. */
  datatype Oracle = Oracle(fault: Stage -> Fault, list: (Stage, map<string, Binding>) -> seq<Binding>)

  ghost predicate Faithful(o: Oracle) {
    forall stage, bindings :: Lists(o.list(stage, bindings), bindings)
  }

  ghost predicate ListsAnswer(o: Oracle) {
    o.fault(ListUser) == Delivered && o.fault(ListManager) == Delivered
  }

  ghost predicate FaultFree(o: Oracle) {
    forall stage :: o.fault(stage) == Delivered
  }

  /** A run of one operation: how it ended, and the namespace at the start and after every call
      that can write. */
  datatype Run = Run(error: Option<Error>, trace: seq<NamespaceState>) {
    function Last(): NamespaceState
      requires trace != []
    {
      trace[|trace| - 1]
    }
  }

  function RoleBindingFor(user: string, role: string): Binding {
    Binding(BindingName(user, role), user, [Subject(USER_KIND, user, "")], RoleRef(ROLE_KIND, role))
  }

  // ---- single calls ----

  function Answer(f: Fault, refusal: Option<ApiError>): Option<Error> {
    if f != Delivered then Some(Api(Unavailable)) else if refusal.Some? then Some(Api(refusal.value)) else None
  }

  function Delete(r: Run, name: string, f: Fault): (q: Run)
    requires r.trace != []
    ensures q.trace != []
  {
    var s := r.Last();
    var after := if f == RequestLost then s else s.(bindings := s.bindings - {name});
    Run(Answer(f, if name in s.bindings then None else Some(NotFound)), r.trace + [after])
  }

  function Create(r: Run, b: Binding, f: Fault): (q: Run)
    requires r.trace != []
    ensures q.trace != []
  {
    var s := r.Last();
    var after := if f == RequestLost || b.name in s.bindings then s else s.(bindings := s.bindings[b.name := b]);
    Run(Answer(f, if b.name in s.bindings then Some(AlreadyExists) else None), r.trace + [after])
  }

  function Annotate(r: Run, annotations: map<string, string>, f: Fault): (q: Run)
    requires r.trace != []
    ensures q.trace != []
  {
    var s := r.Last();
    Run(Answer(f, None), r.trace + [if f == RequestLost then s else s.(annotations := annotations)])
  }

  /** What the API server answers when a call gets through and its object is not as expected. */
  lemma Refusals(r: Run, name: string, b: Binding)
    requires r.trace != []
    ensures name !in r.Last().bindings ==>
              Delete(r, name, Delivered).error == Some(Api(NotFound)) && Delete(r, name, Delivered).Last() == r.Last()
    ensures b.name in r.Last().bindings ==>
              Create(r, b, Delivered).error == Some(Api(AlreadyExists)) && Create(r, b, Delivered).Last() == r.Last()
  {
    if name !in r.Last().bindings {
      assert r.Last().bindings - {name} == r.Last().bindings;
    }
  }

  // ---- the operations ----

  function FirstLabelled(items: seq<Binding>, user: string): Option<Binding> {
    if items == [] then None
    else if items[0].userRef == user then Some(items[0])
    else FirstLabelled(items[1..], user)
  }

  /** A failed list is taken for an empty one. */
  function FindByUser(s: NamespaceState, user: string, o: Oracle, listing: Stage): Option<Binding> {
    if o.fault(listing) != Delivered then None else FirstLabelled(o.list(listing, s.bindings), user)
  }

  function DeleteByUser(r: Run, user: string, o: Oracle, listing: Stage, deleting: Stage): (q: Run)
    requires r.trace != []
    ensures q.trace != []
  {
    if r.error.Some? then r
    else
      match FindByUser(r.Last(), user, o, listing)
      case None => r
      case Some(b) => Delete(r, b.name, o.fault(deleting))
  }

  function CreateFor(r: Run, user: string, role: string, o: Oracle, creating: Stage): (q: Run)
    requires r.trace != []
    ensures q.trace != []
  {
    if r.error.Some? then r else Create(r, RoleBindingFor(user, role), o.fault(creating))
  }

  function Grant(s: NamespaceState, user: string, role: string, o: Oracle): (r: Run)
    ensures r.trace != []
  {
    if o.fault(GetNamespace) != Delivered then Run(Some(Api(Unavailable)), [s])
    else if role != ADMIN && s.Manager() == user then Run(Some(ManagerMustHandOver), [s])
    else
      var r := DeleteByUser(Run(None, [s]), user, o, ListUser, DeleteUser);
      var r := CreateFor(r, user, role, o, CreateUser);
      if role == ADMIN && s.Manager() != user then HandOver(r, s, user, o) else r
  }

  /** The second half of granting the admin role to somebody new; `s` is the namespace as read at
      the start. */
  function HandOver(r: Run, s: NamespaceState, user: string, o: Oracle): (q: Run)
    requires r.trace != []
    ensures q.trace != []
  {
    var r := DeleteByUser(r, s.Manager(), o, ListManager, DeleteManager);
    var r := CreateFor(r, s.Manager(), OPERATOR, o, CreateOperator);
    if r.error.Some? then r
    else if s.annotations == map[] then r.(error := Some(NilMapPanic))
    else Annotate(r, s.annotations[CREATOR := user], o.fault(UpdateNamespace))
  }

  function Remove(s: NamespaceState, user: string, o: Oracle): (r: Run)
    ensures r.trace != []
  {
    if o.fault(GetNamespace) != Delivered then Run(Some(Api(Unavailable)), [s])
    else if s.Manager() == user then Run(Some(ManagerMustHandOver), [s])
    else DeleteByUser(Run(None, [s]), user, o, ListUser, DeleteUser)
  }

  /** One grant of a request, with the fate of its calls. */
  datatype Request = Request(user: string, role: string, o: Oracle)

  /** A bulk request grants member by member and stops at the first error. */
  function GrantAll(s: NamespaceState, requests: seq<Request>): (Option<Error>, NamespaceState)
    decreases |requests|
  {
    if requests == [] then (None, s)
    else
      var r := Grant(s, requests[0].user, requests[0].role, requests[0].o);
      if r.error.Some? then (r.error, r.Last()) else GrantAll(r.Last(), requests[1..])
  }

  // ---- the namespaces the operations are meant for ----

  /** The roles of a namespace: binding names must tell them apart. */
  ghost predicate Vocabulary(roles: set<string>) {
    ADMIN in roles && OPERATOR in roles && Unambiguous(roles)
  }

  ghost predicate Reserved(name: string, roles: set<string>) {
    exists u, r :: u != "" && r in roles && name == BindingName(u, r)
  }

  /** Labelled bindings are the ones `Grant` makes; the others stay clear of their names. */
  ghost predicate Canonical(b: Binding, roles: set<string>) {
    if b.userRef == "" then !Reserved(b.name, roles)
    else b.roleRef.name in roles && b == RoleBindingFor(b.userRef, b.roleRef.name)
  }

  /** Every binding is canonical. There need not be a manager on record: nobody manages a namespace
      made elsewhere. */
  ghost predicate Sound(s: NamespaceState, roles: set<string>) {
    && WellKeyed(s.bindings)
    && (forall n :: n in s.bindings ==> Canonical(s.bindings[n], roles))
  }

  /** Moreover no user has two bindings. */
  ghost predicate Tidy(s: NamespaceState, roles: set<string>) {
    Sound(s, roles) && OnePerUser(s.bindings)
  }

  ghost function With(bindings: map<string, Binding>, user: string, role: string): map<string, Binding> {
    bindings[BindingName(user, role) := RoleBindingFor(user, role)]
  }

  ghost predicate IsAdminBinding(b: Binding) {
    b.userRef != "" && b.roleRef.name == ADMIN
  }

  ghost predicate HasAdmin(s: NamespaceState) {
    exists n :: n in s.bindings && IsAdminBinding(s.bindings[n])
  }

  /** Exactly one labelled binding has the role admin, and it is the manager's on record. */
  ghost predicate Good(s: NamespaceState, roles: set<string>) {
    && Tidy(s, roles)
    && HasAdmin(s)
    && forall n :: n in s.bindings && IsAdminBinding(s.bindings[n]) ==> s.bindings[n].userRef == s.Manager()
  }

  // ---- single calls on a tidy namespace ----

  lemma FirstLabelledFound(items: seq<Binding>, user: string)
    ensures var f := FirstLabelled(items, user);
            if f.Some? then f.value in items && f.value.userRef == user
            else forall b :: b in items ==> b.userRef != user
  {}

  /** Listing order does not matter: a user's binding is found if there is one. */
  lemma FindTidy(s: NamespaceState, roles: set<string>, user: string, o: Oracle, listing: Stage)
    requires Tidy(s, roles) && Faithful(o) && o.fault(listing) == Delivered
    ensures var f := FindByUser(s, user, o, listing);
            && (f.Some? <==> HasBinding(s.bindings, user))
            && (f.Some? ==>
                  f.value.name in s.bindings && s.bindings[f.value.name] == f.value && f.value.userRef == user)
  {
    var items := o.list(listing, s.bindings);
    FirstLabelledFound(items, user);
    assert Lists(items, s.bindings);
    if HasBinding(s.bindings, user) {
      var n :| n in s.bindings && s.bindings[n].userRef == user;
      assert s.bindings[n] in items;
    }
  }

  lemma SubsetTidy(s: NamespaceState, roles: set<string>, bindings: map<string, Binding>)
    requires Tidy(s, roles) && forall n :: n in bindings ==> n in s.bindings && bindings[n] == s.bindings[n]
    ensures Tidy(s.(bindings := bindings), roles)
  {
    hide BindingName, Canonical;
  }

  lemma OnePerUserAtMost(x: map<string, Binding>, user: string)
    requires OnePerUser(x) && user != ""
    ensures AtMostOne(x, user)
  {}

  /** Removing the binding found for a user leaves everybody else's. */
  lemma FindLeavesOthers(s: NamespaceState, roles: set<string>, user: string, o: Oracle, listing: Stage)
    requires Tidy(s, roles) && AtMostOne(s.bindings, user) && Faithful(o) && o.fault(listing) == Delivered
    ensures var f := FindByUser(s, user, o, listing);
            && (f.Some? ==> f.value.name in s.bindings && s.bindings - {f.value.name} == Others(s.bindings, {user}))
            && (f == None ==> s.bindings == Others(s.bindings, {user}))
    ensures Tidy(s.(bindings := Others(s.bindings, {user})), roles)
  {
    FindTidy(s, roles, user, o, listing);
    SubsetTidy(s, roles, Others(s.bindings, {user}));
    hide BindingName, Canonical, FindByUser, Faithful;
  }

  /** What deleting a user's binding does to a tidy namespace, whatever happens to the delete. */
  lemma DeleteByUserTidy(r: Run, roles: set<string>, user: string, o: Oracle, listing: Stage, deleting: Stage)
    requires r.trace != [] && r.error == None && Tidy(r.Last(), roles)
    requires AtMostOne(r.Last().bindings, user) && Faithful(o) && o.fault(listing) == Delivered
    ensures var q := DeleteByUser(r, user, o, listing, deleting);
            var s, t := r.Last(), q.Last();
            && (q.trace == r.trace || q.trace == r.trace + [t])
            && Tidy(t, roles)
            && t.annotations == s.annotations
            && (t.bindings == s.bindings || t.bindings == Others(s.bindings, {user}))
            && (q.error == None ==> t.bindings == Others(s.bindings, {user}))
            && (o.fault(deleting) == Delivered ==> q.error == None)
  {
    var s := r.Last();
    FindLeavesOthers(s, roles, user, o, listing);
    hide BindingName, Tidy, Others, FindByUser, Faithful;
  }

  /** The bindings of nobody that a hand-over from nobody makes keep clear of reserved names. */
  lemma NobodysNames(roles: set<string>, role: string)
    requires Unambiguous(roles) && role in roles
    ensures !Reserved(BindingName("", role), roles)
  {
    if Reserved(BindingName("", role), roles) {
      var u, r :| u != "" && r in roles && BindingName("", role) == BindingName(u, r);
      NameDetermines(roles, "", role, u, r);
      assert false;
    }
  }

  /** What creating a binding for a user without one does; the name is always free. */
  lemma CreateForTidy(r: Run, roles: set<string>, user: string, role: string, o: Oracle, creating: Stage)
    requires r.trace != [] && r.error == None && Tidy(r.Last(), roles) && Vocabulary(roles)
    requires role in roles && !HasBinding(r.Last().bindings, user)
    ensures var q := CreateFor(r, user, role, o, creating);
            var s, t := r.Last(), q.Last();
            && q.trace == r.trace + [t]
            && Tidy(t, roles)
            && t.annotations == s.annotations
            && BindingName(user, role) !in s.bindings
            && (t.bindings == s.bindings || t.bindings == With(s.bindings, user, role))
            && (q.error == None ==> t.bindings == With(s.bindings, user, role))
            && (o.fault(creating) == Delivered ==> q.error == None)
  {
    hide BindingName;
    var s, b := r.Last(), RoleBindingFor(user, role);
    if b.name in s.bindings {
      var c := s.bindings[b.name];
      assert Canonical(c, roles) && (user != "" ==> Reserved(b.name, roles));
      NameDetermines(roles, user, role, c.userRef, c.roleRef.name);
      assert false;
    }
    NobodysNames(roles, role);
  }

  // ---- one grant, with any faults ----

  ghost predicate HandsOver(s: NamespaceState, user: string, role: string) {
    role == ADMIN && s.Manager() != user
  }

  ghost predicate Refused(s: NamespaceState, user: string, role: string) {
    role != ADMIN && s.Manager() == user
  }

  /** The users whose bindings a grant may touch. */
  ghost function Touched(s: NamespaceState, user: string, role: string): set<string> {
    if HandsOver(s, user, role) then {user, s.Manager()} else {user}
  }

  /** How an uninterrupted grant that is not refused ends: a hand-over without annotations panics. */
  ghost function Verdict(s: NamespaceState, user: string, role: string): Option<Error> {
    if HandsOver(s, user, role) && s.annotations == map[] then Some(NilMapPanic) else None
  }

  /** Where it takes the namespace. */
  ghost function Target(s: NamespaceState, user: string, role: string): NamespaceState {
    var others := Others(s.bindings, Touched(s, user, role));
    if HandsOver(s, user, role) then
      NamespaceState(if s.annotations == map[] then map[] else s.annotations[CREATOR := user],
                     With(With(others, s.Manager(), OPERATOR), user, ADMIN))
    else
      s.(bindings := With(others, user, role))
  }

  /** Nobody the grant touches, be it the nobody who manages the namespace, has two bindings. */
  ghost predicate TouchesSingle(t: NamespaceState, s: NamespaceState, user: string, role: string) {
    HandsOver(s, user, role) ==> AtMostOne(t.bindings, s.Manager())
  }

  /** `t` is a namespace that attempts at one and the same grant, started from `s`, can leave
      behind: only touched users differ, and once the annotation names the new manager the old one
      is already operator. */
  ghost predicate InFlight(t: NamespaceState, s: NamespaceState, user: string, role: string, roles: set<string>) {
    && Tidy(t, roles) && TouchesSingle(t, s, user, role)
    && Others(t.bindings, Touched(s, user, role)) == Others(s.bindings, Touched(s, user, role))
    && (|| t.annotations == s.annotations
        || (&& HandsOver(s, user, role) && s.annotations != map[]
            && t.annotations == s.annotations[CREATOR := user]
            && Others(t.bindings, {user}) == With(Others(s.bindings, Touched(s, user, role)), s.Manager(), OPERATOR)))
  }

  lemma OthersOfWith(bindings: map<string, Binding>, user: string, role: string, users: set<string>)
    requires BindingName(user, role) !in bindings
    ensures Others(With(bindings, user, role), users)
         == if user in users then Others(bindings, users) else With(Others(bindings, users), user, role)
  {
    hide BindingName;
  }

  /** Taking away or creating a touched user's binding keeps a namespace in flight. */
  lemma InFlightStep(x: NamespaceState, t: NamespaceState, s: NamespaceState, user: string, role: string,
                     roles: set<string>, v: string, r: string)
    requires InFlight(t, s, user, role, roles) && Tidy(x, roles) && x.annotations == t.annotations
    requires v == user || (v in Touched(s, user, role) && t.annotations == s.annotations)
    requires x.bindings == Others(t.bindings, {v})
          || (BindingName(v, r) !in t.bindings && !HasBinding(t.bindings, v) && x.bindings == With(t.bindings, v, r))
    ensures InFlight(x, s, user, role, roles)
    ensures Others(x.bindings, {v}) == Others(t.bindings, {v})
  {
    hide BindingName, Tidy;
    OthersTwice(t.bindings, {v}, {v});
    OthersTwice(t.bindings, {v}, Touched(s, user, role));
    assert {v} + Touched(s, user, role) == Touched(s, user, role);
    assert {v} + {v} == {v};
    if x.bindings != Others(t.bindings, {v}) {
      OthersOfWith(t.bindings, v, r, {v});
      OthersOfWith(t.bindings, v, r, Touched(s, user, role));
    }
  }

  lemma InFlightIsTidy(t: NamespaceState, s: NamespaceState, user: string, role: string, roles: set<string>)
    requires InFlight(t, s, user, role, roles)
    ensures Tidy(t, roles) && TouchesSingle(t, s, user, role) && (user != "" ==> AtMostOne(t.bindings, user))
  {}

  /** The first half of a grant: delete the user's binding, create the new one. */
  lemma GrantFirstHalf(t: NamespaceState, s: NamespaceState, user: string, role: string, roles: set<string>, o: Oracle)
    requires Vocabulary(roles) && user != "" && role in roles && InFlight(t, s, user, role, roles)
    requires Faithful(o) && ListsAnswer(o)
    ensures var d := DeleteByUser(Run(None, [t]), user, o, ListUser, DeleteUser);
            var q := CreateFor(d, user, role, o, CreateUser);
            && q.trace[0] == t
            && (forall x :: x in q.trace ==> InFlight(x, s, user, role, roles))
            && q.Last().annotations == t.annotations
            && (q.error == None ==> q.Last().bindings == With(Others(t.bindings, {user}), user, role)
                                    && BindingName(user, role) !in Others(t.bindings, {user}))
            && (FaultFree(o) ==> q.error == None)
  {
    hide BindingName, Tidy, Others, With, InFlight;
    InFlightIsTidy(t, s, user, role, roles);
    var start := Run(None, [t]);
    DeleteByUserTidy(start, roles, user, o, ListUser, DeleteUser);
    var d := DeleteByUser(start, user, o, ListUser, DeleteUser);
    if d.Last().bindings != t.bindings {
      InFlightStep(d.Last(), t, s, user, role, roles, user, role);
    }
    if d.error == None {
      OthersHasNone(t.bindings, user);
      CreateForTidy(d, roles, user, role, o, CreateUser);
      var q := CreateFor(d, user, role, o, CreateUser);
      if q.Last().bindings != d.Last().bindings {
        InFlightStep(q.Last(), d.Last(), s, user, role, roles, user, role);
      }
    }
  }

  /** Binding names of different users differ, so their bindings can be created in either order. */
  lemma WithCommutes(bindings: map<string, Binding>, roles: set<string>, u: string, r: string, v: string, q: string)
    requires Unambiguous(roles) && r in roles && q in roles && u != v
    ensures With(With(bindings, u, r), v, q) == With(With(bindings, v, q), u, r)
  {
    hide BindingName;
    if BindingName(u, r) == BindingName(v, q) {
      NameDetermines(roles, u, r, v, q);
    }
  }

  /** After the hand-over's last write the namespace is where an uninterrupted grant takes it. */
  lemma HandOverCompletes(b: map<string, Binding>, t: NamespaceState, s: NamespaceState, user: string,
                          roles: set<string>)
    requires Vocabulary(roles) && user != "" && HandsOver(s, user, ADMIN)
    requires InFlight(t, s, user, ADMIN, roles) && t.annotations == s.annotations
    requires b == With(Others(t.bindings, {user}), user, ADMIN)
    requires BindingName(user, ADMIN) !in Others(t.bindings, {user})
    requires BindingName(s.Manager(), OPERATOR) !in Others(b, {s.Manager()})
    ensures var x := Target(s, user, ADMIN);
            && x.bindings == With(Others(b, {s.Manager()}), s.Manager(), OPERATOR)
            && (Tidy(NamespaceState(s.annotations, x.bindings), roles) ==> InFlight(x, s, user, ADMIN, roles))
  {
    var m := s.Manager();
    var others := Others(s.bindings, {user, m});
    hide BindingName;
    OthersTwice(t.bindings, {user}, {m});
    assert {user} + {m} == {user, m};
    OthersOfWith(Others(t.bindings, {user}), user, ADMIN, {m});
    assert Others(b, {m}) == With(others, user, ADMIN);
    WithCommutes(others, roles, user, ADMIN, m, OPERATOR);
    assert With(Others(b, {m}), m, OPERATOR) == Target(s, user, ADMIN).bindings;
    assert BindingName(m, OPERATOR) !in others;
    TargetInFlight(s, user, roles);
    hide With, Others, Tidy, InFlight;
  }

  lemma TargetInFlight(s: NamespaceState, user: string, roles: set<string>)
    requires Vocabulary(roles) && user != "" && HandsOver(s, user, ADMIN)
    requires BindingName(user, ADMIN) !in Others(s.bindings, {user, s.Manager()})
    requires BindingName(s.Manager(), OPERATOR) !in Others(s.bindings, {user, s.Manager()})
    ensures var x := Target(s, user, ADMIN);
            Tidy(NamespaceState(s.annotations, x.bindings), roles) ==> InFlight(x, s, user, ADMIN, roles)
  {
    var m := s.Manager();
    var others := Others(s.bindings, {user, m});
    hide BindingName;
    if BindingName(user, ADMIN) == BindingName(m, OPERATOR) {
      NameDetermines(roles, user, ADMIN, m, OPERATOR);
    }
    var late := With(others, m, OPERATOR);
    OthersOfWith(late, user, ADMIN, {user});
    OthersOfWith(late, user, ADMIN, {user, m});
    OthersOfWith(others, m, OPERATOR, {user});
    OthersOfWith(others, m, OPERATOR, {user, m});
    OthersTwice(s.bindings, {user, m}, {user});
    OthersTwice(s.bindings, {user, m}, {user, m});
    assert {user, m} + {user} == {user, m} && {user, m} + {user, m} == {user, m};
    hide With, Others;
  }

  lemma TargetAnnotations(s: NamespaceState, user: string)
    requires HandsOver(s, user, ADMIN)
    ensures Target(s, user, ADMIN).annotations
         == if s.annotations == map[] then map[] else s.annotations[CREATOR := user]
  {}

  /** The manager's exchange in the second half of a grant, entered when the first half succeeded. */
  lemma ManagersExchange(r: Run, t: NamespaceState, s: NamespaceState, user: string, roles: set<string>, o: Oracle)
    requires Vocabulary(roles) && user != "" && HandsOver(s, user, ADMIN)
    requires InFlight(t, s, user, ADMIN, roles) && t.annotations == s.annotations
    requires Faithful(o) && ListsAnswer(o)
    requires r.trace != [] && r.error == None && InFlight(r.Last(), s, user, ADMIN, roles)
    requires r.Last().annotations == s.annotations && r.Last().bindings == With(Others(t.bindings, {user}), user, ADMIN)
    requires BindingName(user, ADMIN) !in Others(t.bindings, {user})
    ensures var d := DeleteByUser(r, s.Manager(), o, ListManager, DeleteManager);
            var c := CreateFor(d, s.Manager(), OPERATOR, o, CreateOperator);
            && c.trace[0] == r.trace[0] && c.error != Some(NilMapPanic)
            && (forall x :: x in c.trace ==> x in r.trace || InFlight(x, s, user, ADMIN, roles))
            && (c.error == None ==>
                  && c.Last() == NamespaceState(s.annotations, Target(s, user, ADMIN).bindings)
                  && InFlight(Target(s, user, ADMIN), s, user, ADMIN, roles))
            && (FaultFree(o) ==> c.error == None)
  {
    var m := s.Manager();
    hide BindingName, Tidy, Others, With, InFlight, Target, FindByUser, Faithful, HasBinding, AtMostOne, OnePerUser;
    InFlightIsTidy(r.Last(), s, user, ADMIN, roles);
    DeleteByUserTidy(r, roles, m, o, ListManager, DeleteManager);
    var d := DeleteByUser(r, m, o, ListManager, DeleteManager);
    if d.Last().bindings != r.Last().bindings {
      InFlightStep(d.Last(), r.Last(), s, user, ADMIN, roles, m, OPERATOR);
    }
    if d.error == None {
      OthersHasNone(r.Last().bindings, m);
      CreateForTidy(d, roles, m, OPERATOR, o, CreateOperator);
      var c := CreateFor(d, m, OPERATOR, o, CreateOperator);
      if c.Last().bindings != d.Last().bindings {
        InFlightStep(c.Last(), d.Last(), s, user, ADMIN, roles, m, OPERATOR);
      }
      if c.error == None {
        HandOverCompletes(r.Last().bindings, t, s, user, roles);
      }
    }
  }

  /** The second half of a grant. */
  lemma GrantSecondHalf(r: Run, t: NamespaceState, s: NamespaceState, user: string, roles: set<string>, o: Oracle)
    requires Vocabulary(roles) && user != "" && HandsOver(s, user, ADMIN)
    requires InFlight(t, s, user, ADMIN, roles) && t.annotations == s.annotations
    requires Faithful(o) && ListsAnswer(o)
    requires r.trace != [] && r.error == None && InFlight(r.Last(), s, user, ADMIN, roles)
    requires r.Last().annotations == s.annotations && r.Last().bindings == With(Others(t.bindings, {user}), user, ADMIN)
    requires BindingName(user, ADMIN) !in Others(t.bindings, {user})
    ensures var q := HandOver(r, t, user, o);
            && q.trace[0] == r.trace[0]
            && (forall x :: x in q.trace ==> x in r.trace || InFlight(x, s, user, ADMIN, roles))
            && (q.error in {None, Some(NilMapPanic)} ==>
                  q.error == Verdict(s, user, ADMIN) && q.Last() == Target(s, user, ADMIN))
            && (FaultFree(o) ==> q.error == Verdict(s, user, ADMIN))
  {
    hide BindingName, Others, With, InFlight, Target, DeleteByUser, CreateFor, Faithful, Vocabulary;
    ManagersExchange(r, t, s, user, roles, o);
    TargetAnnotations(s, user);
  }

  /** A grant attempted on a namespace in flight, whatever becomes of its calls (lists aside):
      the namespace stays in flight after every call, and if the attempt reports success, or panics at
      the nil map, it has reached the target. */
  lemma GrantOutcome(t: NamespaceState, s: NamespaceState, user: string, role: string, roles: set<string>, o: Oracle)
    requires Vocabulary(roles) && user != "" && role in roles && Tidy(s, roles) && !Refused(s, user, role)
    requires InFlight(t, s, user, role, roles) && Faithful(o) && ListsAnswer(o)
    ensures var q := Grant(t, user, role, o);
            && q.trace[0] == t
            && (forall x :: x in q.trace ==> InFlight(x, s, user, role, roles))
            && (q.error in {None, Some(NilMapPanic)} ==>
                  q.error == Verdict(s, user, role) && q.Last() == Target(s, user, role))
            && (FaultFree(o) ==> q.error == Verdict(s, user, role))
  {
    if o.fault(GetNamespace) == Delivered {
      assert t.Manager() == s.Manager() || (HandsOver(s, user, role) && t.Manager() == user);
      GrantFirstHalf(t, s, user, role, roles, o);
      var d := DeleteByUser(Run(None, [t]), user, o, ListUser, DeleteUser);
      var q := CreateFor(d, user, role, o, CreateUser);
      if q.error == None {
        if role == ADMIN && t.Manager() != user {
          GrantSecondHalf(q, t, s, user, roles, o);
        }
      }
    }
  }

  // ---- the code ----

  /** The API server's view of one namespace. */
  class ApiServer {
    var present: bool
    var annotations: map<string, string>
    var bindings: map<string, Binding>
    /** The namespace when the current operation began and after each of its writing calls. */
    ghost var history: seq<NamespaceState>

    function State(): NamespaceState
      reads this
    {
      NamespaceState(annotations, bindings)
    }

    ghost predicate Recording()
      reads this
    {
      history != [] && history[|history| - 1] == State()
    }

    ghost method BeginOperation()
      modifies this`history
      ensures Recording() && history == [State()]
    {
      history := [State()];
    }

    method GetNamespace(f: Fault) returns (err: Option<Error>, found: map<string, string>)
      ensures err == if f != Delivered then Some(Api(Unavailable)) else if !present then Some(Api(NotFound)) else None
      ensures err == None ==> found == annotations
    {
      if f != Delivered {
        return Some(Api(Unavailable)), map[];
      }
      if !present {
        return Some(Api(NotFound)), map[];
      }
      return None, annotations;
    }

    method DeleteRoleBinding(name: string, f: Fault) returns (err: Option<Error>)
      requires Recording()
      modifies this`bindings, this`history
      ensures Recording() && Run(err, history) == Delete(Run(None, old(history)), name, f)
    {
      err := Answer(f, if name in bindings then None else Some(NotFound));
      if f != RequestLost {
        bindings := bindings - {name};
      }
      history := history + [State()];
    }

    method CreateRoleBinding(b: Binding, f: Fault) returns (err: Option<Error>)
      requires Recording()
      modifies this`bindings, this`history
      ensures Recording() && Run(err, history) == Create(Run(None, old(history)), b, f)
    {
      err := Answer(f, if b.name in bindings then Some(AlreadyExists) else None);
      if f != RequestLost && b.name !in bindings {
        bindings := bindings[b.name := b];
      }
      history := history + [State()];
    }

    method UpdateNamespace(annotations: map<string, string>, f: Fault) returns (err: Option<Error>)
      requires Recording()
      modifies this`annotations, this`history
      ensures Recording() && Run(err, history) == Annotate(Run(None, old(history)), annotations, f)
    {
      err := Answer(f, None);
      if f != RequestLost {
        this.annotations := annotations;
      }
      history := history + [State()];
    }
  }

  class AmOperator {
    const k8s: ApiServer

    constructor (k8s: ApiServer)
      ensures this.k8s == k8s
    {
      this.k8s := k8s;
    }

    method GetNamespaceRoleBindingByUser(user: string, o: Oracle, listing: Stage) returns (found: Option<Binding>)
      ensures found == FindByUser(k8s.State(), user, o, listing)
    {
      if o.fault(listing) != Delivered {
        return None;
      }
      var items := o.list(listing, k8s.bindings);
      var i := 0;
      while i < |items|
        invariant 0 <= i <= |items|
        invariant FirstLabelled(items, user) == FirstLabelled(items[i..], user)
      {
        if items[i].userRef == user {
          return Some(items[i]);
        }
        i := i + 1;
      }
      return None;
    }

    method DeleteNamespaceRoleBindingByUser(user: string, o: Oracle, listing: Stage, deleting: Stage)
      returns (err: Option<Error>)
      requires k8s.Recording()
      modifies k8s`bindings, k8s`history
      ensures k8s.Recording()
      ensures Run(err, k8s.history) == DeleteByUser(Run(None, old(k8s.history)), user, o, listing, deleting)
    {
      var b := GetNamespaceRoleBindingByUser(user, o, listing);
      if b.Some? {
        err := k8s.DeleteRoleBinding(b.value.name, o.fault(deleting));
      } else {
        err := None;
      }
    }

    method CreateNamespaceRoleBinding(user: string, role: string, o: Oracle) returns (err: Option<Error>)
      modifies k8s
      ensures k8s.Recording() && k8s.present == old(k8s.present)
      ensures k8s.present ==> Run(err, k8s.history) == Grant(old(k8s.State()), user, role, o)
      ensures !k8s.present ==> err.Some? && k8s.State() == old(k8s.State())
    {
      k8s.BeginOperation();
      var annotations;
      err, annotations := k8s.GetNamespace(o.fault(Stage.GetNamespace));
      if err.Some? {
        return;
      }
      var manager := if CREATOR in annotations then annotations[CREATOR] else "";
      if role != ADMIN {
        if manager == user {
          return Some(ManagerMustHandOver);
        }
      }
      err := DeleteNamespaceRoleBindingByUser(user, o, ListUser, DeleteUser);
      if err.Some? {
        return;
      }
      err := k8s.CreateRoleBinding(RoleBindingFor(user, role), o.fault(CreateUser));
      if err.Some? {
        return;
      }
      if role == ADMIN {
        if manager != user {
          err := DeleteNamespaceRoleBindingByUser(manager, o, ListManager, DeleteManager);
          if err.Some? {
            return;
          }
          err := k8s.CreateRoleBinding(RoleBindingFor(manager, OPERATOR), o.fault(CreateOperator));
          if err.Some? {
            return;
          }
          if annotations == map[] {
            return Some(NilMapPanic);
          }
          err := k8s.UpdateNamespace(annotations[CREATOR := user], o.fault(Stage.UpdateNamespace));
        }
      }
    }

    method RemoveUserFromNamespace(user: string, o: Oracle) returns (err: Option<Error>)
      modifies k8s
      ensures k8s.Recording() && k8s.present == old(k8s.present)
      ensures k8s.present ==> Run(err, k8s.history) == Remove(old(k8s.State()), user, o)
      ensures !k8s.present ==> err.Some? && k8s.State() == old(k8s.State())
    {
      k8s.BeginOperation();
      var annotations;
      err, annotations := k8s.GetNamespace(o.fault(Stage.GetNamespace));
      if err.Some? {
        return;
      }
      if (if CREATOR in annotations then annotations[CREATOR] else "") == user {
        return Some(ManagerMustHandOver);
      }
      err := DeleteNamespaceRoleBindingByUser(user, o, ListUser, DeleteUser);
    }

    method CreateNamespaceMembers(requests: seq<Request>) returns (err: Option<Error>)
      modifies k8s
      ensures k8s.present == old(k8s.present)
      ensures k8s.present ==> (err, k8s.State()) == GrantAll(old(k8s.State()), requests)
      ensures !k8s.present ==> k8s.State() == old(k8s.State())
    {
      err := None;
      var i := 0;
      while i < |requests|
        invariant 0 <= i <= |requests|
        invariant k8s.present == old(k8s.present)
        invariant k8s.present ==> GrantAll(old(k8s.State()), requests) == GrantAll(k8s.State(), requests[i..])
        invariant !k8s.present ==> k8s.State() == old(k8s.State())
        invariant err == None
      {
        err := CreateNamespaceRoleBinding(requests[i].user, requests[i].role, requests[i].o);
        if err.Some? {
          return;
        }
        i := i + 1;
      }
    }
  }
}
