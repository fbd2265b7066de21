/** Membership under any faults: retries of a grant, the presence of an admin, whole runs, and what
    failing lists do. A failed list is read as "no binding", so it can leave a user with two. */
module MembershipRuns {
  import opened Iam
  import opened Naming
  import opened Membership

  // ---- single calls, whatever fails ----

  /** At most one binding, labelled `user`, is gone. */
  ghost predicate TakesOne(after: map<string, Binding>, before: map<string, Binding>, user: string) {
    || after == before
    || exists n :: n in before && before[n].userRef == user && after == before - {n}
  }

  ghost predicate AddsOne(after: map<string, Binding>, before: map<string, Binding>, user: string, role: string) {
    BindingName(user, role) !in before && after == With(before, user, role)
  }

  lemma DeleteByUserAnyFault(r: Run, user: string, o: Oracle, listing: Stage, deleting: Stage)
    requires r.trace != [] && r.error == None && WellKeyed(r.Last().bindings) && Faithful(o)
    ensures var q := DeleteByUser(r, user, o, listing, deleting);
            && (q.trace == r.trace || q.trace == r.trace + [q.Last()])
            && q.Last().annotations == r.Last().annotations
            && TakesOne(q.Last().bindings, r.Last().bindings, user)
            && (o.fault(listing) != Delivered ==> q == r)
  {
    var s := r.Last();
    var items := o.list(listing, s.bindings);
    FirstLabelledFound(items, user);
    assert Lists(items, s.bindings);
    hide FirstLabelled, Faithful;
  }

  lemma CreateForAnyFault(r: Run, user: string, role: string, o: Oracle, creating: Stage)
    requires r.trace != [] && r.error == None
    ensures var q := CreateFor(r, user, role, o, creating);
            && q.trace == r.trace + [q.Last()]
            && q.Last().annotations == r.Last().annotations
            && (q.Last().bindings == r.Last().bindings || AddsOne(q.Last().bindings, r.Last().bindings, user, role))
            && (q.error == None ==> AddsOne(q.Last().bindings, r.Last().bindings, user, role))
            && (o.fault(creating) == Delivered ==> (q.error == None <==> BindingName(user, role) !in r.Last().bindings))
            && (BindingName(user, role) in r.Last().bindings ==> q.Last().bindings == r.Last().bindings)
  {
    hide BindingName;
  }

  // ---- one grant, whatever fails ----

  /** What attempts at a grant started from `s` can leave behind if lists may fail too: only touched
      users differ, and once the annotation has changed the old manager's operator binding is there. */
  ghost predicate Loose(t: NamespaceState, s: NamespaceState, user: string, role: string, roles: set<string>) {
    && Sound(t, roles)
    && Others(t.bindings, Touched(s, user, role)) == Others(s.bindings, Touched(s, user, role))
    && (|| t.annotations == s.annotations
        || (&& HandsOver(s, user, role) && s.annotations != map[]
            && t.annotations == s.annotations[CREATOR := user]
            && HasRole(t, s.Manager(), OPERATOR)))
  }

  /** Nobody but `user` lost a binding since `t`, or `user` is admin by now. */
  ghost predicate Guarded(x: NamespaceState, t: NamespaceState, user: string) {
    Others(x.bindings, {user}) == Others(t.bindings, {user}) || HasRole(x, user, ADMIN)
  }

  ghost predicate HasRole(x: NamespaceState, user: string, role: string) {
    BindingName(user, role) in x.bindings && x.bindings[BindingName(user, role)] == RoleBindingFor(user, role)
  }

  lemma StepOthers(after: map<string, Binding>, before: map<string, Binding>, v: string, r: string, users: set<string>)
    requires v in users && (TakesOne(after, before, v) || AddsOne(after, before, v, r))
    ensures Others(after, users) == Others(before, users)
  {
    hide BindingName;
  }

  /** A binding survives steps about other users. */
  lemma StepKeeps(after: map<string, Binding>, before: map<string, Binding>, v: string, r: string, n: string)
    requires n in before && before[n].userRef != v && (TakesOne(after, before, v) || AddsOne(after, before, v, r))
    ensures n in after && after[n] == before[n]
  {
    hide BindingName;
  }

  /** The bindings labelled `user` are the same in both. */
  ghost predicate SameFor(x: map<string, Binding>, y: map<string, Binding>, user: string) {
    && (forall n :: n in x && x[n].userRef == user ==> n in y && y[n] == x[n])
    && (forall n :: n in y && y[n].userRef == user ==> n in x && x[n] == y[n])
  }

  lemma StepSame(after: map<string, Binding>, before: map<string, Binding>, v: string, r: string, user: string)
    requires user != v && (TakesOne(after, before, v) || AddsOne(after, before, v, r))
    ensures SameFor(after, before, user)
  {
    hide BindingName;
  }

  lemma StepSound(x: NamespaceState, t: NamespaceState, roles: set<string>, v: string, r: string)
    requires Sound(t, roles) && Unambiguous(roles) && r in roles
    requires TakesOne(x.bindings, t.bindings, v) || AddsOne(x.bindings, t.bindings, v, r)
    ensures Sound(x, roles)
  {
    NobodysNames(roles, r);
    hide BindingName, Reserved;
  }

  /** One write about a touched user keeps the namespace on its way. */
  lemma LooseStep(x: NamespaceState, t: NamespaceState, s: NamespaceState, user: string, role: string,
                  roles: set<string>, v: string, r: string)
    requires Loose(t, s, user, role, roles) && x.annotations == t.annotations && Unambiguous(roles) && r in roles
    requires v == user || (v in Touched(s, user, role) && t.annotations == s.annotations)
    requires TakesOne(x.bindings, t.bindings, v) || AddsOne(x.bindings, t.bindings, v, r)
    ensures Loose(x, s, user, role, roles)
  {
    StepSound(x, t, roles, v, r);
    StepOthers(x.bindings, t.bindings, v, r, Touched(s, user, role));
    if t.annotations != s.annotations {
      StepKeeps(x.bindings, t.bindings, v, r, BindingName(s.Manager(), OPERATOR));
    }
    hide BindingName, Sound, TakesOne, AddsOne;
  }

  /** One write about the user itself. */
  lemma OwnStep(x: NamespaceState, t: NamespaceState, s: NamespaceState, user: string, role: string, roles: set<string>)
    requires Loose(t, s, user, role, roles) && x.annotations == t.annotations && Unambiguous(roles) && role in roles
    requires TakesOne(x.bindings, t.bindings, user) || AddsOne(x.bindings, t.bindings, user, role)
    ensures Loose(x, s, user, role, roles)
    ensures Others(x.bindings, {user}) == Others(t.bindings, {user})
  {
    LooseStep(x, t, s, user, role, roles, user, role);
    StepOthers(x.bindings, t.bindings, user, role, {user});
  }

  /** The first half of a grant: nobody else is touched. */
  lemma FirstHalfAnyFault(t: NamespaceState, s: NamespaceState, user: string, role: string, roles: set<string>,
                          o: Oracle)
    requires Unambiguous(roles) && role in roles && Loose(t, s, user, role, roles) && Faithful(o)
    ensures var q := CreateFor(DeleteByUser(Run(None, [t]), user, o, ListUser, DeleteUser), user, role, o, CreateUser);
            && q.trace[0] == t
            && (forall x :: x in q.trace ==>
                  Loose(x, s, user, role, roles) && Others(x.bindings, {user}) == Others(t.bindings, {user}))
            && q.Last().annotations == t.annotations
            && (q.error == None ==> HasRole(q.Last(), user, role))
  {
    hide Loose, BindingName, DeleteByUser, TakesOne, Others, With;
    var start := Run(None, [t]);
    LooseIsKeyed(t, s, user, role, roles);
    DeleteByUserAnyFault(start, user, o, ListUser, DeleteUser);
    var d := DeleteByUser(start, user, o, ListUser, DeleteUser);
    OwnStep(d.Last(), t, s, user, role, roles);
    if d.error == None {
      CreateForAnyFault(d, user, role, o, CreateUser);
      var q := CreateFor(d, user, role, o, CreateUser);
      if q.Last().bindings != d.Last().bindings {
        OwnStep(q.Last(), d.Last(), s, user, role, roles);
        AddsOneHasRole(q.Last(), d.Last(), user, role);
      } else {
        assert q.Last() == d.Last();
      }
    }
  }

  lemma AddsOneHasRole(x: NamespaceState, t: NamespaceState, user: string, role: string)
    requires AddsOne(x.bindings, t.bindings, user, role)
    ensures HasRole(x, user, role) && x.bindings != t.bindings
  {
    hide BindingName;
  }

  lemma LooseIsKeyed(t: NamespaceState, s: NamespaceState, user: string, role: string, roles: set<string>)
    requires Loose(t, s, user, role, roles)
    ensures WellKeyed(t.bindings) && Sound(t, roles)
  {}

  /** One write about the old manager, once the user is admin. */
  lemma ManagerStep(x: NamespaceState, t: NamespaceState, s: NamespaceState, user: string, roles: set<string>)
    requires Loose(t, s, user, ADMIN, roles) && HasRole(t, user, ADMIN)
    requires x.annotations == t.annotations == s.annotations
    requires Vocabulary(roles) && HandsOver(s, user, ADMIN)
    requires || TakesOne(x.bindings, t.bindings, s.Manager())
             || AddsOne(x.bindings, t.bindings, s.Manager(), OPERATOR)
    ensures Loose(x, s, user, ADMIN, roles) && HasRole(x, user, ADMIN)
  {
    LooseStep(x, t, s, user, ADMIN, roles, s.Manager(), OPERATOR);
    StepKeeps(x.bindings, t.bindings, s.Manager(), OPERATOR, BindingName(user, ADMIN));
  }

  lemma Annotated(x: NamespaceState, s: NamespaceState, user: string, roles: set<string>)
    requires Loose(x, s, user, ADMIN, roles) && HandsOver(s, user, ADMIN) && HasRole(x, s.Manager(), OPERATOR)
    requires x.annotations == s.annotations != map[]
    ensures Loose(x.(annotations := s.annotations[CREATOR := user]), s, user, ADMIN, roles)
  {}

  /** The second half, entered once the user is admin: the user stays admin. */
  lemma SecondHalfAnyFault(r: Run, t: NamespaceState, s: NamespaceState, user: string, roles: set<string>, o: Oracle)
    requires Vocabulary(roles) && user != "" && HandsOver(s, user, ADMIN) && Faithful(o)
    requires r.trace != [] && r.error == None
    requires Loose(r.Last(), s, user, ADMIN, roles) && HasRole(r.Last(), user, ADMIN)
    requires r.Last().annotations == t.annotations == s.annotations
    ensures var q := HandOver(r, t, user, o);
            && q.trace[0] == r.trace[0]
            && forall x :: x in q.trace ==> x in r.trace || (Loose(x, s, user, ADMIN, roles) && HasRole(x, user, ADMIN))
  {
    hide BindingName, Loose, DeleteByUser, CreateFor, TakesOne, AddsOne, HasRole;
    var m := s.Manager();
    LooseIsKeyed(r.Last(), s, user, ADMIN, roles);
    DeleteByUserAnyFault(r, m, o, ListManager, DeleteManager);
    var d := DeleteByUser(r, m, o, ListManager, DeleteManager);
    ManagerStep(d.Last(), r.Last(), s, user, roles);
    if d.error == None {
      CreateForAnyFault(d, m, OPERATOR, o, CreateOperator);
      var c := CreateFor(d, m, OPERATOR, o, CreateOperator);
      if c.Last().bindings == d.Last().bindings {
        assert c.Last() == d.Last();
      } else {
        ManagerStep(c.Last(), d.Last(), s, user, roles);
      }
      if c.error == None && s.annotations != map[] {
        AddsOneHasRole(c.Last(), d.Last(), m, OPERATOR);
        Annotated(c.Last(), s, user, roles);
        SameBindingsSameRole(c.Last(), c.Last().(annotations := s.annotations[CREATOR := user]), user);
      }
    } else {
      assert CreateFor(d, m, OPERATOR, o, CreateOperator) == d by { ErrorStops(d, m, OPERATOR, o, CreateOperator); }
    }
  }

  lemma ErrorStops(d: Run, user: string, role: string, o: Oracle, creating: Stage)
    requires d.trace != [] && d.error.Some?
    ensures CreateFor(d, user, role, o, creating) == d
  {}

  lemma SameBindingsSameRole(x: NamespaceState, t: NamespaceState, user: string)
    requires HasRole(x, user, ADMIN) && t.bindings == x.bindings
    ensures HasRole(t, user, ADMIN)
  {}

  /** A grant attempted anywhere on its way, whatever becomes of its calls: only touched users'
      bindings change, and nobody but the user loses one before the user is admin. */
  lemma GrantAnyFault(t: NamespaceState, s: NamespaceState, user: string, role: string, roles: set<string>, o: Oracle)
    requires Vocabulary(roles) && user != "" && role in roles && !Refused(s, user, role)
    requires Loose(t, s, user, role, roles) && Faithful(o)
    ensures var q := Grant(t, user, role, o);
            && q.trace[0] == t
            && forall x :: x in q.trace ==> Loose(x, s, user, role, roles) && Guarded(x, t, user)
  {
    if o.fault(GetNamespace) == Delivered {
      FirstHalfAnyFault(t, s, user, role, roles, o);
      var d := DeleteByUser(Run(None, [t]), user, o, ListUser, DeleteUser);
      var q := CreateFor(d, user, role, o, CreateUser);
      assert q.Last() in q.trace;
      if q.error == None && role == ADMIN && t.Manager() != user {
        SecondHalfAnyFault(q, t, s, user, roles, o);
      }
      hide Loose, DeleteByUser, CreateFor, HandOver, BindingName, Others;
    }
    hide Loose, DeleteByUser, CreateFor, HandOver, BindingName, Others;
  }

  // ---- retries ----

  /** The namespace after attempting the same grant once per oracle. */
  function Attempts(s: NamespaceState, user: string, role: string, oracles: seq<Oracle>): NamespaceState
    decreases |oracles|
  {
    if oracles == [] then s else Attempts(Grant(s, user, role, oracles[0]).Last(), user, role, oracles[1..])
  }

  lemma AttemptsStep(s: NamespaceState, user: string, role: string, o: Oracle, oracles: seq<Oracle>)
    ensures Attempts(s, user, role, []) == s
    ensures Attempts(s, user, role, [o] + oracles) == Attempts(Grant(s, user, role, o).Last(), user, role, oracles)
  {
    hide Grant;
    assert ([o] + oracles)[1..] == oracles;
  }

  lemma {:induction false} AttemptsStayLoose(t: NamespaceState, s: NamespaceState, user: string, role: string,
                                             roles: set<string>, oracles: seq<Oracle>)
    requires Vocabulary(roles) && user != "" && role in roles && !Refused(s, user, role)
    requires Loose(t, s, user, role, roles) && forall o :: o in oracles ==> Faithful(o)
    ensures Loose(Attempts(t, user, role, oracles), s, user, role, roles)
    decreases |oracles|
  {
    hide BindingName, Loose, Grant;
    if oracles != [] {
      GrantAnyFault(t, s, user, role, roles, oracles[0]);
      var q := Grant(t, user, role, oracles[0]);
      assert q.Last() in q.trace;
      AttemptsStayLoose(q.Last(), s, user, role, roles, oracles[1..]);
    }
  }

  lemma {:induction false} AttemptsStayInFlight(t: NamespaceState, s: NamespaceState, user: string, role: string,
                                                roles: set<string>, oracles: seq<Oracle>)
    requires Vocabulary(roles) && user != "" && role in roles && Tidy(s, roles) && !Refused(s, user, role)
    requires InFlight(t, s, user, role, roles)
    requires forall o :: o in oracles ==> Faithful(o) && ListsAnswer(o)
    ensures InFlight(Attempts(t, user, role, oracles), s, user, role, roles)
    decreases |oracles|
  {
    hide BindingName, Tidy, InFlight, Grant;
    if oracles != [] {
      GrantOutcome(t, s, user, role, roles, oracles[0]);
      var q := Grant(t, user, role, oracles[0]);
      assert q.Last() in q.trace;
      AttemptsStayInFlight(q.Last(), s, user, role, roles, oracles[1..]);
    }
  }

  lemma {:induction false} RefusedForever(s: NamespaceState, user: string, role: string, oracles: seq<Oracle>)
    requires Refused(s, user, role)
    ensures Attempts(s, user, role, oracles) == s
  {
    if oracles != [] {
      RefusedForever(s, user, role, oracles[1..]);
    }
  }

  /** Without doubles, "on its way" means what it means when lists are answered. */
  lemma LooseIsInFlight(t: NamespaceState, s: NamespaceState, user: string, role: string, roles: set<string>)
    requires Loose(t, s, user, role, roles) && OnePerUser(t.bindings) && TouchesSingle(t, s, user, role)
    ensures InFlight(t, s, user, role, roles)
  {
    if t.annotations != s.annotations {
      var m := s.Manager();
      var name := BindingName(m, OPERATOR);
      hide BindingName, Canonical;
      assert Touched(s, user, role) == {user, m};
      var late := With(Others(s.bindings, Touched(s, user, role)), m, OPERATOR);
      forall n | n in Others(t.bindings, {user})
        ensures n in late && late[n] == t.bindings[n]
      {
        if t.bindings[n].userRef == m {
          assert n == name;
        } else {
          assert n in Others(t.bindings, Touched(s, user, role));
          assert n != name;
        }
      }
      forall n | n in late
        ensures n in Others(t.bindings, {user})
      {
        if n != name {
          assert n in Others(s.bindings, Touched(s, user, role));
          assert n in Others(t.bindings, Touched(s, user, role));
        }
      }
      assert Others(t.bindings, {user}) == late;
    }
  }

  /** Two bindings with one label outlive the exchange of one binding for another. */
  lemma DuplicatesOutliveExchange(b2: map<string, Binding>, b1: map<string, Binding>, b0: map<string, Binding>,
                                  user: string, role: string, v: string)
    requires TakesOne(b1, b0, user) && AddsOne(b2, b1, user, role) && !AtMostOne(b0, v)
    ensures !AtMostOne(b2, v)
  {
    hide BindingName;
    var k, n :| k in b0 && n in b0 && b0[k].userRef == b0[n].userRef == v && k != n;
    if v == user {
      var left, name := if k in b1 then k else n, BindingName(user, role);
      assert left in b1 && left in b2 && name in b2 && left != name && b2[left].userRef == b2[name].userRef;
    } else {
      StepKeeps(b1, b0, user, role, k);
      StepKeeps(b1, b0, user, role, n);
      assert k in b2 && n in b2 && b2[k] == b0[k] && b2[n] == b0[n];
    }
  }

  /** A deletion and a creation that report success, as steps. */
  lemma ExchangeSteps(r: Run, roles: set<string>, user: string, role: string, o: Oracle,
                      listing: Stage, deleting: Stage, creating: Stage)
    requires r.trace != [] && r.error == None && Sound(r.Last(), roles)
    requires Unambiguous(roles) && role in roles && Faithful(o)
    ensures var d := DeleteByUser(r, user, o, listing, deleting);
            var q := CreateFor(d, user, role, o, creating);
            q.error == None ==>
              && TakesOne(d.Last().bindings, r.Last().bindings, user)
              && AddsOne(q.Last().bindings, d.Last().bindings, user, role)
              && Sound(q.Last(), roles)
              && q.Last().annotations == r.Last().annotations
  {
    DeleteByUserAnyFault(r, user, o, listing, deleting);
    var d := DeleteByUser(r, user, o, listing, deleting);
    StepSound(d.Last(), r.Last(), roles, user, role);
    if d.error == None {
      CreateForAnyFault(d, user, role, o, creating);
      StepSound(CreateFor(d, user, role, o, creating).Last(), d.Last(), roles, user, role);
    }
    hide BindingName, TakesOne, AddsOne, Canonical;
  }

  /** No grant that reports success, or gets as far as the nil map, repairs a double. */
  lemma DuplicatesSurvive(t: NamespaceState, user: string, role: string, roles: set<string>, o: Oracle, v: string)
    requires Vocabulary(roles) && user != "" && role in roles && Sound(t, roles) && Faithful(o)
    ensures var q := Grant(t, user, role, o);
            !AtMostOne(t.bindings, v) && q.error in {None, Some(NilMapPanic)} ==> !AtMostOne(q.Last().bindings, v)
  {
    if !AtMostOne(t.bindings, v) && Grant(t, user, role, o).error in {None, Some(NilMapPanic)} {
      var start := Run(None, [t]);
      ExchangeSteps(start, roles, user, role, o, ListUser, DeleteUser, CreateUser);
      NoOtherPanic(start, user, role, o, ListUser, DeleteUser, CreateUser);
      var d := DeleteByUser(start, user, o, ListUser, DeleteUser);
      var q := CreateFor(d, user, role, o, CreateUser);
      if role == ADMIN && t.Manager() != user {
        var m := t.Manager();
        ExchangeSteps(q, roles, m, OPERATOR, o, ListManager, DeleteManager, CreateOperator);
        NoOtherPanic(q, m, OPERATOR, o, ListManager, DeleteManager, CreateOperator);
        var e := DeleteByUser(q, m, o, ListManager, DeleteManager);
        var c := CreateFor(e, m, OPERATOR, o, CreateOperator);
        assert c.Last().bindings == Grant(t, user, role, o).Last().bindings;
        DuplicatesOutliveExchange(q.Last().bindings, d.Last().bindings, t.bindings, user, role, v);
        DuplicatesOutliveExchange(c.Last().bindings, e.Last().bindings, q.Last().bindings, m, OPERATOR, v);
      } else {
        DuplicatesOutliveExchange(q.Last().bindings, d.Last().bindings, t.bindings, user, role, v);
      }
    }
    hide BindingName, AtMostOne, Canonical, DeleteByUser, CreateFor, TakesOne, AddsOne;
  }

  /** Single calls do not panic. */
  lemma NoOtherPanic(r: Run, user: string, role: string, o: Oracle, listing: Stage, deleting: Stage, creating: Stage)
    requires r.trace != []
    ensures var q := CreateFor(DeleteByUser(r, user, o, listing, deleting), user, role, o, creating);
            && (r.error.Some? ==> q == r)
            && (q.error == Some(NilMapPanic) ==> r.error == Some(NilMapPanic))
  {}

  ghost predicate Converges(s: NamespaceState, user: string, role: string, failed: seq<Oracle>, retry: Oracle,
                            once: Oracle)
  {
    var again, uninterrupted := Grant(Attempts(s, user, role, failed), user, role, retry), Grant(s, user, role, once);
    again.error == uninterrupted.error && again.Last() == uninterrupted.Last()
  }

  /** Repeating a grant after any number of failed attempts, lost lists among them, ends as if
      nothing had failed, exactly when the attempts left nobody touched by the grant with two bindings. */
  lemma RetryConvergesIff(s: NamespaceState, user: string, role: string, roles: set<string>,
                          failed: seq<Oracle>, retry: Oracle, once: Oracle)
    requires Vocabulary(roles) && user != "" && role in roles && Tidy(s, roles) && TouchesSingle(s, s, user, role)
    requires forall o :: o in failed ==> Faithful(o)
    requires Faithful(retry) && FaultFree(retry) && Faithful(once) && FaultFree(once)
    ensures var t := Attempts(s, user, role, failed);
            Converges(s, user, role, failed, retry, once) <==> OnePerUser(t.bindings) && TouchesSingle(t, s, user, role)
  {
    var t := Attempts(s, user, role, failed);
    if Refused(s, user, role) {
      RefusedForever(s, user, role, failed);
    } else {
      AttemptsStayLoose(s, s, user, role, roles, failed);
      LooseIsKeyed(t, s, user, role, roles);
      GrantOutcome(s, s, user, role, roles, once);
      var q := Grant(s, user, role, once);
      assert q.Last() in q.trace;
      InFlightIsTidy(q.Last(), s, user, role, roles);
      if OnePerUser(t.bindings) && TouchesSingle(t, s, user, role) {
        LooseIsInFlight(t, s, user, role, roles);
        GrantOutcome(t, s, user, role, roles, retry);
      } else {
        var v := DoubledLabel(t, s, user, role);
        DuplicatesSurvive(t, user, role, roles, retry, v);
        if v != "" {
          OnePerUserAtMost(q.Last().bindings, v);
        }
      }
    }
    hide BindingName, Sound, Attempts, OnePerUser, AtMostOne, Loose, Others, Grant, Target;
  }

  lemma DoubledLabel(t: NamespaceState, s: NamespaceState, user: string, role: string) returns (v: string)
    requires !OnePerUser(t.bindings) || !TouchesSingle(t, s, user, role)
    ensures !AtMostOne(t.bindings, v) && (v != "" || (HandsOver(s, user, role) && s.Manager() == ""))
  {
    if OnePerUser(t.bindings) {
      v := s.Manager();
    } else {
      var k, n :| k in t.bindings && n in t.bindings && t.bindings[k].userRef == t.bindings[n].userRef != "" && k != n;
      v := t.bindings[k].userRef;
    }
  }

  /** As long as lists are answered every retry converges, if nobody touched has two bindings to begin with. */
  lemma RetryConverges(s: NamespaceState, user: string, role: string, roles: set<string>,
                       failed: seq<Oracle>, retry: Oracle, once: Oracle)
    requires Vocabulary(roles) && user != "" && role in roles && Tidy(s, roles) && TouchesSingle(s, s, user, role)
    requires forall o :: o in failed ==> Faithful(o) && ListsAnswer(o)
    requires Faithful(retry) && FaultFree(retry) && Faithful(once) && FaultFree(once)
    ensures Converges(s, user, role, failed, retry, once)
  {
    RetryConvergesIff(s, user, role, roles, failed, retry, once);
    if Refused(s, user, role) {
      RefusedForever(s, user, role, failed);
    } else {
      AttemptsStayInFlight(s, s, user, role, roles, failed);
      InFlightIsTidy(Attempts(s, user, role, failed), s, user, role, roles);
    }
    hide BindingName, Sound, Attempts, InFlight, Grant, Converges;
  }

  // ---- the manager ----

  /** Some binding makes somebody other than `user` admin. */
  ghost predicate AnotherAdmin(s: NamespaceState, user: string) {
    exists n :: n in s.bindings && IsAdminBinding(s.bindings[n]) && s.bindings[n].userRef != user
  }

  ghost predicate AdminInAll(r: Run) {
    forall x :: x in r.trace ==> HasAdmin(x)
  }

  lemma GuardedHasAdmin(x: NamespaceState, t: NamespaceState, user: string)
    requires AnotherAdmin(t, user) && Guarded(x, t, user) && user != ""
    ensures HasAdmin(x)
  {
    hide BindingName;
    if Others(x.bindings, {user}) == Others(t.bindings, {user}) {
      var n :| n in t.bindings && IsAdminBinding(t.bindings[n]) && t.bindings[n].userRef != user;
      assert n in Others(t.bindings, {user}) && n in x.bindings;
    }
  }

  /** If somebody else is admin to begin with, an admin binding is in the namespace after every
      single call of a grant, whatever becomes of the calls; so in every hand-over from a good
      namespace. Otherwise a grant without faults goes through a namespace without one. */
  lemma AdminThroughout(s: NamespaceState, user: string, role: string, roles: set<string>, o: Oracle)
    requires Vocabulary(roles) && user != "" && role in roles && Sound(s, roles)
    requires !Refused(s, user, role) && Faithful(o)
    ensures AnotherAdmin(s, user) ==> AdminInAll(Grant(s, user, role, o))
    ensures OnePerUser(s.bindings) && FaultFree(o) && AdminInAll(Grant(s, user, role, o)) ==> AnotherAdmin(s, user)
  {
    var q := Grant(s, user, role, o);
    hide BindingName, OnePerUser, Canonical, Grant, Guarded;
    GrantAnyFault(s, s, user, role, roles, o);
    if AnotherAdmin(s, user) {
      forall x | x in q.trace
        ensures HasAdmin(x)
      {
        GuardedHasAdmin(x, s, user);
      }
    } else if FaultFree(o) && OnePerUser(s.bindings) {
      assert q.trace[0] in q.trace;
      if HasAdmin(s) {
        GrantDeletesFirst(s, user, role, roles, o);
        assert q.trace[1] in q.trace && !HasAdmin(q.trace[1]);
      }
    }
  }

  /** In a good namespace somebody else is admin exactly when the user is not the manager. */
  lemma AnotherAdminInGood(s: NamespaceState, user: string, roles: set<string>)
    requires Good(s, roles)
    ensures AnotherAdmin(s, user) <==> user != s.Manager()
  {
    hide BindingName, Tidy;
    var n :| n in s.bindings && IsAdminBinding(s.bindings[n]);
    assert s.bindings[n].userRef == s.Manager();
  }

  lemma GrantDeletesFirst(s: NamespaceState, user: string, role: string, roles: set<string>, o: Oracle)
    requires user != "" && Tidy(s, roles) && !Refused(s, user, role)
    requires Faithful(o) && FaultFree(o) && HasBinding(s.bindings, user)
    ensures var q := Grant(s, user, role, o);
            |q.trace| > 1 && q.trace[1].bindings == Others(s.bindings, {user})
  {
    OnePerUserAtMost(s.bindings, user);
    hide BindingName, Tidy, Others, FindByUser;
    var start := Run(None, [s]);
    FindTidy(s, roles, user, o, ListUser);
    DeleteByUserTidy(start, roles, user, o, ListUser, DeleteUser);
    var d := DeleteByUser(start, user, o, ListUser, DeleteUser);
    assert |d.trace| > 1 && d.trace[1].bindings == Others(s.bindings, {user});
    hide DeleteByUser, CreateFor, HandOver;
    CreateForExtends(d, user, role, o);
    HandOverExtends(CreateFor(d, user, role, o, CreateUser), s, user, o);
  }

  lemma CreateForExtends(r: Run, user: string, role: string, o: Oracle)
    requires |r.trace| > 1
    ensures r.trace <= CreateFor(r, user, role, o, CreateUser).trace
  {}

  lemma HandOverExtends(r: Run, s: NamespaceState, user: string, o: Oracle)
    requires |r.trace| > 1
    ensures r.trace <= HandOver(r, s, user, o).trace
  {
    hide FindByUser, BindingName;
  }

  // ---- whole runs ----

  datatype Op = Put(request: Request) | Bulk(requests: seq<Request>) | Drop(user: string, o: Oracle)

  function Apply(s: NamespaceState, op: Op): NamespaceState {
    match op
    case Put(request) => Grant(s, request.user, request.role, request.o).Last()
    case Bulk(requests) => GrantAll(s, requests).1
    case Drop(user, o) => Remove(s, user, o).Last()
  }

  function ApplyAll(s: NamespaceState, ops: seq<Op>): NamespaceState {
    if ops == [] then s else Apply(ApplyAll(s, ops[..|ops| - 1]), ops[|ops| - 1])
  }

  /** A run is its operations one after the other. */
  lemma RunStep(s: NamespaceState, ops: seq<Op>, r: Request, requests: seq<Request>, user: string, o: Oracle)
    ensures ApplyAll(s, []) == s
    ensures var t := ApplyAll(s, ops);
            && ApplyAll(s, ops + [Put(r)]) == Grant(t, r.user, r.role, r.o).Last()
            && ApplyAll(s, ops + [Bulk(requests)]) == GrantAll(t, requests).1
            && ApplyAll(s, ops + [Drop(user, o)]) == Remove(t, user, o).Last()
  {
    hide Grant, GrantAll, Remove;
    forall op
      ensures (ops + [op])[..|ops + [op]| - 1] == ops
    {}
  }

  ghost predicate Proper(r: Request, roles: set<string>) {
    r.user != "" && r.role in roles && Faithful(r.o)
  }

  ghost predicate ProperOp(op: Op, roles: set<string>) {
    match op
    case Put(request) => Proper(request, roles)
    case Bulk(requests) => forall r :: r in requests ==> Proper(r, roles)
    case Drop(user, o) => user != "" && Faithful(o)
  }

  ghost predicate FaultFreeOp(op: Op) {
    match op
    case Put(request) => FaultFree(request.o)
    case Bulk(requests) => forall r :: r in requests ==> FaultFree(r.o)
    case Drop(_, o) => FaultFree(o)
  }

  ghost predicate ListsAnswerOp(op: Op) {
    match op
    case Put(request) => ListsAnswer(request.o)
    case Bulk(requests) => forall r :: r in requests ==> ListsAnswer(r.o)
    case Drop(_, o) => ListsAnswer(o)
  }

  /** The manager's admin binding is in its place, and no other grant is made under its name. */
  lemma ManagersBinding(s: NamespaceState, user: string, role: string, roles: set<string>)
    requires Vocabulary(roles) && role in roles && Good(s, roles)
    ensures s.Manager() != "" && BindingName(s.Manager(), ADMIN) in s.bindings
    ensures s.bindings[BindingName(s.Manager(), ADMIN)] == RoleBindingFor(s.Manager(), ADMIN)
    ensures BindingName(user, role) == BindingName(s.Manager(), ADMIN) ==> user == s.Manager() && role == ADMIN
  {
    var n :| n in s.bindings && IsAdminBinding(s.bindings[n]);
    assert Canonical(s.bindings[n], roles);
    if BindingName(user, role) == BindingName(s.Manager(), ADMIN) {
      NameDetermines(roles, user, role, s.Manager(), ADMIN);
    }
  }

  lemma TargetGood(s: NamespaceState, user: string, role: string, roles: set<string>)
    requires Vocabulary(roles) && user != "" && role in roles && Good(s, roles) && !Refused(s, user, role)
    requires Tidy(Target(s, user, role), roles)
    ensures Good(Target(s, user, role), roles)
  {
    ManagersBinding(s, user, role, roles);
    hide BindingName, Tidy, Vocabulary;
    var m, t := s.Manager(), Target(s, user, role);
    if HandsOver(s, user, role) || role == ADMIN {
      assert IsAdminBinding(t.bindings[BindingName(user, ADMIN)]);
    } else {
      assert BindingName(m, ADMIN) in Others(s.bindings, {user});
      assert IsAdminBinding(t.bindings[BindingName(m, ADMIN)]);
    }
  }

  lemma GrantKeeps(s: NamespaceState, r: Request, roles: set<string>)
    requires Vocabulary(roles) && Sound(s, roles) && Proper(r, roles)
    ensures var t := Grant(s, r.user, r.role, r.o).Last();
            && Sound(t, roles)
            && (s.Manager() != "" ==> t.Manager() != "")
            && (Tidy(s, roles) && ListsAnswer(r.o) ==> Tidy(t, roles))
            && (Good(s, roles) && FaultFree(r.o) ==> Good(t, roles))
  {
    hide BindingName, Canonical, OnePerUser, AtMostOne, Target, Grant, Doubles;
    if !Refused(s, r.user, r.role) {
      var q := Grant(s, r.user, r.role, r.o);
      assert q.Last() in q.trace;
      GrantAnyFault(s, s, r.user, r.role, roles, r.o);
      LooseIsKeyed(q.Last(), s, r.user, r.role, roles);
      if Tidy(s, roles) && ListsAnswer(r.o) {
        FailedListsDuplicate(s, r.user, r.role, roles, r.o);
        AnsweredNoDoubles(s, r.user, r.role, r.o);
        if Good(s, roles) && FaultFree(r.o) {
          GoodTouchesSingle(s, r.user, r.role, roles);
          GrantOutcome(s, s, r.user, r.role, roles, r.o);
          TargetGood(s, r.user, r.role, roles);
        }
      }
    } else {
      RefusedForever(s, r.user, r.role, [r.o]);
    }
  }

  lemma GoodTouchesSingle(s: NamespaceState, user: string, role: string, roles: set<string>)
    requires Good(s, roles)
    ensures s.Manager() != "" && s.annotations != map[] && TouchesSingle(s, s, user, role)
  {
    OnePerUserAtMost(s.bindings, s.Manager());
    hide Tidy;
  }

  lemma AnsweredNoDoubles(s: NamespaceState, user: string, role: string, o: Oracle)
    requires ListsAnswer(o)
    ensures !UserDoubled(s, user, role, o) && !ManagerDoubled(s, user, role, o)
  {}

  lemma {:induction false} GrantAllKeeps(s: NamespaceState, requests: seq<Request>, roles: set<string>)
    requires Vocabulary(roles) && Sound(s, roles) && forall r :: r in requests ==> Proper(r, roles)
    ensures var t := GrantAll(s, requests).1;
            && Sound(t, roles)
            && (s.Manager() != "" ==> t.Manager() != "")
            && (Tidy(s, roles) && (forall r :: r in requests ==> ListsAnswer(r.o)) ==> Tidy(t, roles))
            && (Good(s, roles) && (forall r :: r in requests ==> FaultFree(r.o)) ==> Good(t, roles))
    decreases |requests|
  {
    hide BindingName, Sound, Grant, Good, Tidy, Faithful, FaultFree;
    if requests != [] {
      GrantKeeps(s, requests[0], roles);
      GrantAllKeeps(Grant(s, requests[0].user, requests[0].role, requests[0].o).Last(), requests[1..], roles);
    }
  }

  lemma RemoveKeeps(s: NamespaceState, user: string, o: Oracle, roles: set<string>)
    requires Sound(s, roles) && user != "" && Faithful(o)
    ensures var t := Remove(s, user, o).Last();
            && Sound(t, roles)
            && t.Manager() == s.Manager()
            && (Tidy(s, roles) ==> Tidy(t, roles))
            && (Good(s, roles) ==> Good(t, roles))
  {
    var start, t := Run(None, [s]), Remove(s, user, o).Last();
    if t != s {
      DeleteByUserAnyFault(start, user, o, ListUser, DeleteUser);
      TakesOneIsSubset(t.bindings, s.bindings, user);
      SubsetSound(s, roles, t.bindings);
      hide BindingName, Canonical, Remove, TakesOne;
      if Good(s, roles) {
        var n :| n in s.bindings && IsAdminBinding(s.bindings[n]);
        assert n in t.bindings;
      }
    }
  }

  lemma TakesOneIsSubset(after: map<string, Binding>, before: map<string, Binding>, user: string)
    requires TakesOne(after, before, user)
    ensures forall n :: n in after ==> n in before && after[n] == before[n]
    ensures forall n :: n in before && before[n].userRef != user ==> n in after
  {}

  lemma SubsetSound(s: NamespaceState, roles: set<string>, bindings: map<string, Binding>)
    requires Sound(s, roles) && forall n :: n in bindings ==> n in s.bindings && bindings[n] == s.bindings[n]
    ensures Sound(s.(bindings := bindings), roles)
    ensures OnePerUser(s.bindings) ==> OnePerUser(bindings)
  {
    hide BindingName, Canonical;
  }

  lemma OthersSound(s: NamespaceState, roles: set<string>, user: string)
    requires Sound(s, roles)
    ensures Sound(s.(bindings := Others(s.bindings, {user})), roles)
  {
    SubsetSound(s, roles, Others(s.bindings, {user}));
  }

  /** Every run keeps bindings canonical and a manager, once on record, whatever calls are lost; a run
      whose lists are answered keeps at most one binding per user; a run without faults keeps
      exactly one admin: the manager on record. */
  lemma {:induction false} RunKeeps(s: NamespaceState, ops: seq<Op>, roles: set<string>)
    requires Vocabulary(roles) && Sound(s, roles) && forall op :: op in ops ==> ProperOp(op, roles)
    ensures var t := ApplyAll(s, ops);
            && Sound(t, roles)
            && (s.Manager() != "" ==> t.Manager() != "")
            && (Tidy(s, roles) && (forall op :: op in ops ==> ListsAnswerOp(op)) ==> Tidy(t, roles))
            && (Good(s, roles) && (forall op :: op in ops ==> FaultFreeOp(op)) ==> Good(t, roles))
  {
    hide BindingName, Sound, Good, Tidy, Grant, GrantAll, Remove, Faithful, FaultFree, ListsAnswer;
    if ops != [] {
      var before, last := ops[..|ops| - 1], ops[|ops| - 1];
      assert last in ops && forall op :: op in before ==> op in ops;
      RunKeeps(s, before, roles);
      var t := ApplyAll(s, before);
      match last
      case Put(request) => GrantKeeps(t, request, roles);
      case Bulk(requests) => GrantAllKeeps(t, requests, roles);
      case Drop(user, o) => RemoveKeeps(t, user, o, roles);
    }
  }

  // ---- lists that fail ----

  /** Deleting by user where the user has at most one binding, whatever the others have. */
  lemma DeleteTheOnlyBinding(r: Run, user: string, o: Oracle, listing: Stage, deleting: Stage)
    requires r.trace != [] && r.error == None && Faithful(o) && o.fault(listing) == Delivered
    requires WellKeyed(r.Last().bindings) && AtMostOne(r.Last().bindings, user)
    ensures var q := DeleteByUser(r, user, o, listing, deleting);
            var others := r.Last().(bindings := Others(r.Last().bindings, {user}));
            && (q.error == None <==> (HasBinding(r.Last().bindings, user) ==> o.fault(deleting) == Delivered))
            && (q.Last() == r.Last() || q.Last() == others)
            && (q.error == None ==> q.Last() == others)
  {
    var x := r.Last().bindings;
    var items := o.list(listing, x);
    FirstLabelledFound(items, user);
    assert Lists(items, x);
    if HasBinding(x, user) {
      var n :| n in x && x[n].userRef == user;
      assert x[n] in items;
      assert x - {n} == Others(x, {user});
    } else {
      assert x == Others(x, {user});
    }
    hide FirstLabelled, Faithful, AtMostOne;
  }

  lemma SecondBinding(x: map<string, Binding>, user: string, role: string)
    requires user != "" && BindingName(user, role) !in x
    ensures OnePerUser(With(x, user, role)) <==> OnePerUser(x) && !HasBinding(x, user)
  {
    var name, y := BindingName(user, role), With(x, user, role);
    hide BindingName;
    assert forall n :: n in x ==> n in y && y[n] == x[n];
    if HasBinding(x, user) {
      var n :| n in x && x[n].userRef == user;
      assert n in y && name in y && y[n].userRef == y[name].userRef;
    }
  }

  /** Leaving out a user with at most one binding leaves the one-binding rule as it was. */
  lemma OthersOnePerUser(x: map<string, Binding>, user: string)
    requires AtMostOne(x, user)
    ensures OnePerUser(Others(x, {user})) <==> OnePerUser(x)
  {
    var y := Others(x, {user});
    if OnePerUser(y) {
      forall m, n | m in x && n in x && x[m].userRef == x[n].userRef != ""
        ensures m == n
      {
        if x[m].userRef != user {
          assert m in y && n in y && y[m] == x[m] && y[n] == x[n];
        }
      }
    }
  }

  /** A binding under a canonical name is labelled with the user of the name. */
  lemma NameIsLabel(t: NamespaceState, roles: set<string>, user: string, role: string)
    requires Vocabulary(roles) && Sound(t, roles) && user != "" && role in roles
    requires BindingName(user, role) in t.bindings
    ensures t.bindings[BindingName(user, role)] == RoleBindingFor(user, role)
  {
    var c := t.bindings[BindingName(user, role)];
    assert Canonical(c, roles) && Reserved(BindingName(user, role), roles);
    NameDetermines(roles, user, role, c.userRef, c.roleRef.name);
  }

  /** One exchange of a user's binding, whatever becomes of its three calls: when it succeeds, and
      when it breaks the one-binding rule. */
  lemma ExchangeOutcome(r: Run, roles: set<string>, user: string, role: string, o: Oracle,
                        listing: Stage, deleting: Stage, creating: Stage)
    requires Vocabulary(roles) && user != "" && role in roles && Faithful(o)
    requires r.trace != [] && r.error == None && Sound(r.Last(), roles) && AtMostOne(r.Last().bindings, user)
    ensures var q := CreateFor(DeleteByUser(r, user, o, listing, deleting), user, role, o, creating);
            var x := r.Last().bindings;
            && (q.error == None <==> ExchangeSucceeds(x, user, role, o, listing, deleting, creating))
            && (OnePerUser(q.Last().bindings) <==> OnePerUser(x) && !Doubles(x, user, role, o, listing, creating))
  {
    hide BindingName, AtMostOne, OnePerUser, Others, With, HasBinding, DeleteByUser, CreateFor, Sound, Faithful,
         Vocabulary;
    if o.fault(listing) == Delivered {
      AnsweredExchange(r, roles, user, role, o, listing, deleting, creating);
    } else {
      LostExchange(r, roles, user, role, o, listing, deleting, creating);
    }
  }

  /** What a successful exchange leaves. */
  lemma ExchangeLeaves(r: Run, roles: set<string>, user: string, role: string, o: Oracle,
                       listing: Stage, deleting: Stage, creating: Stage)
    requires Vocabulary(roles) && user != "" && role in roles && Faithful(o)
    requires r.trace != [] && r.error == None && Sound(r.Last(), roles) && AtMostOne(r.Last().bindings, user)
    ensures var q := CreateFor(DeleteByUser(r, user, o, listing, deleting), user, role, o, creating);
            var x := r.Last().bindings;
            q.error == None ==>
                  && BindingName(user, role) !in Kept(x, user, o, listing)
                  && q.Last() == r.Last().(bindings := With(Kept(x, user, o, listing), user, role))
  {
    hide BindingName, AtMostOne, OnePerUser, Others, With, HasBinding, DeleteByUser, CreateFor, Sound, Faithful,
         Vocabulary;
    if o.fault(listing) == Delivered {
      AnsweredExchange(r, roles, user, role, o, listing, deleting, creating);
    } else {
      LostExchange(r, roles, user, role, o, listing, deleting, creating);
    }
  }

  lemma LostExchange(r: Run, roles: set<string>, user: string, role: string, o: Oracle,
                     listing: Stage, deleting: Stage, creating: Stage)
    requires Vocabulary(roles) && user != "" && role in roles && o.fault(listing) != Delivered
    requires r.trace != [] && r.error == None && Sound(r.Last(), roles)
    ensures var q := CreateFor(DeleteByUser(r, user, o, listing, deleting), user, role, o, creating);
            var x := r.Last().bindings;
            && (q.error == None <==> o.fault(creating) == Delivered && BindingName(user, role) !in x)
            && (q.error == None ==> q.Last() == r.Last().(bindings := With(x, user, role)))
            && (OnePerUser(q.Last().bindings) <==> OnePerUser(x) && !Doubles(x, user, role, o, listing, creating))
  {
    assert DeleteByUser(r, user, o, listing, deleting) == r;
    hide BindingName, OnePerUser, With, HasBinding, DeleteByUser, CreateFor, Sound, Vocabulary;
    CreateOutcome(r, roles, user, role, o, creating);
  }

  lemma SoundIsKeyed(s: NamespaceState, roles: set<string>)
    requires Sound(s, roles)
    ensures WellKeyed(s.bindings)
  {}

  lemma AnsweredExchange(r: Run, roles: set<string>, user: string, role: string, o: Oracle,
                         listing: Stage, deleting: Stage, creating: Stage)
    requires Vocabulary(roles) && user != "" && role in roles && Faithful(o) && o.fault(listing) == Delivered
    requires r.trace != [] && r.error == None && Sound(r.Last(), roles) && AtMostOne(r.Last().bindings, user)
    ensures var q := CreateFor(DeleteByUser(r, user, o, listing, deleting), user, role, o, creating);
            var x := r.Last().bindings;
            && (q.error == None <==>
                  o.fault(creating) == Delivered && (HasBinding(x, user) ==> o.fault(deleting) == Delivered))
            && (q.error == None ==>
                  && BindingName(user, role) !in Others(x, {user})
                  && q.Last() == r.Last().(bindings := With(Others(x, {user}), user, role)))
            && (OnePerUser(q.Last().bindings) <==> OnePerUser(x))
  {
    hide BindingName, AtMostOne, OnePerUser, Others, With, HasBinding, DeleteByUser, CreateFor, Sound, Faithful,
         Vocabulary;
    var x := r.Last().bindings;
    SoundIsKeyed(r.Last(), roles);
    DeleteTheOnlyBinding(r, user, o, listing, deleting);
    OthersOnePerUser(x, user);
    OthersHasNone(x, user);
    OthersSound(r.Last(), roles, user);
    var d := DeleteByUser(r, user, o, listing, deleting);
    CreateOutcome(d, roles, user, role, o, creating);
  }

  lemma CreateOutcome(d: Run, roles: set<string>, user: string, role: string, o: Oracle, creating: Stage)
    requires Vocabulary(roles) && user != "" && role in roles && d.trace != [] && Sound(d.Last(), roles)
    ensures var q := CreateFor(d, user, role, o, creating);
            var y := d.Last().bindings;
            && (d.error.Some? ==> q == d)
            && (d.error == None ==>
                  && (q.error == None <==> o.fault(creating) == Delivered && BindingName(user, role) !in y)
                  && (q.error == None ==> q.Last() == d.Last().(bindings := With(y, user, role)))
                  && (OnePerUser(q.Last().bindings) <==>
                        && OnePerUser(y)
                        && (HasBinding(y, user) && BindingName(user, role) !in y ==> o.fault(creating) == RequestLost)))
            && (BindingName(user, role) in y ==> HasBinding(y, user))
  {
    var y := d.Last().bindings;
    if BindingName(user, role) in y {
      NameIsLabel(d.Last(), roles, user, role);
    } else {
      SecondBinding(y, user, role);
    }
    hide BindingName, Sound, OnePerUser;
  }

  /** What is left when the new binding is created: the user's old binding too, if the list failed. */
  ghost function Kept(x: map<string, Binding>, user: string, o: Oracle, listing: Stage): map<string, Binding> {
    if o.fault(listing) == Delivered then Others(x, {user}) else x
  }

  ghost predicate ExchangeSucceeds(x: map<string, Binding>, user: string, role: string, o: Oracle,
                                   listing: Stage, deleting: Stage, creating: Stage)
  {
    && o.fault(creating) == Delivered
    && if o.fault(listing) == Delivered then HasBinding(x, user) ==> o.fault(deleting) == Delivered
       else BindingName(user, role) !in x
  }

  /** The list failed, the user has another binding, and the creation takes effect. */
  ghost predicate Doubles(x: map<string, Binding>, user: string, role: string, o: Oracle, listing: Stage,
                          creating: Stage)
  {
    && o.fault(listing) != Delivered
    && HasBinding(x, user)
    && BindingName(user, role) !in x
    && o.fault(creating) != RequestLost
  }

  ghost predicate FirstHalfSucceeds(s: NamespaceState, user: string, role: string, o: Oracle) {
    && o.fault(GetNamespace) == Delivered
    && ExchangeSucceeds(s.bindings, user, role, o, ListUser, DeleteUser, CreateUser)
  }

  /** The old manager's exchange; from nobody, it depends on which of nobody's bindings is listed first. */
  ghost predicate SecondExchangeSucceeds(s: NamespaceState, user: string, o: Oracle) {
    if s.Manager() != "" then
      ExchangeSucceeds(s.bindings, s.Manager(), OPERATOR, o, ListManager, DeleteManager, CreateOperator)
    else
      var x := With(Kept(s.bindings, user, o, ListUser), user, ADMIN);
      Exchanges(x, "", OPERATOR, o, ListManager, DeleteManager, CreateOperator)
  }

  ghost predicate SecondHalfSucceeds(s: NamespaceState, user: string, o: Oracle) {
    SecondExchangeSucceeds(s, user, o) && s.annotations != map[] && o.fault(UpdateNamespace) == Delivered
  }

  /** The user's old and new binding end up side by side. */
  ghost predicate UserDoubled(s: NamespaceState, user: string, role: string, o: Oracle) {
    o.fault(GetNamespace) == Delivered && Doubles(s.bindings, user, role, o, ListUser, CreateUser)
  }

  /** The old manager's binding and the operator one end up side by side. */
  ghost predicate ManagerDoubled(s: NamespaceState, user: string, role: string, o: Oracle) {
    HandsOver(s, user, role) && FirstHalfSucceeds(s, user, role, o) && OldManagerDoubles(s, o)
  }

  ghost predicate OldManagerDoubles(s: NamespaceState, o: Oracle) {
    s.Manager() != "" && Doubles(s.bindings, s.Manager(), OPERATOR, o, ListManager, CreateOperator)
  }

  /** Read off the start and the fate of the calls, for every grant that is not refused: when it
      reports success, when it panics, and when it leaves somebody with two bindings. */
  lemma FailedListsDuplicate(s: NamespaceState, user: string, role: string, roles: set<string>, o: Oracle)
    requires Vocabulary(roles) && user != "" && role in roles && Tidy(s, roles)
    requires !Refused(s, user, role) && Faithful(o)
    ensures var q := Grant(s, user, role, o);
            && (q.error == None <==>
                  FirstHalfSucceeds(s, user, role, o) && (HandsOver(s, user, role) ==> SecondHalfSucceeds(s, user, o)))
            && (q.error == Some(NilMapPanic) <==>
                  && HandsOver(s, user, role) && s.annotations == map[]
                  && FirstHalfSucceeds(s, user, role, o) && SecondExchangeSucceeds(s, user, o))
            && (OnePerUser(q.Last().bindings) <==> !UserDoubled(s, user, role, o) && !ManagerDoubled(s, user, role, o))
  {
    if o.fault(GetNamespace) == Delivered {
      var start := Run(None, [s]);
      OnePerUserAtMost(s.bindings, user);
      ExchangeOutcome(start, roles, user, role, o, ListUser, DeleteUser, CreateUser);
      var r := CreateFor(DeleteByUser(start, user, o, ListUser, DeleteUser), user, role, o, CreateUser);
      ExchangeLeaves(start, roles, user, role, o, ListUser, DeleteUser, CreateUser);
      ExchangeSteps(start, roles, user, role, o, ListUser, DeleteUser, CreateUser);
      NoOtherPanic(start, user, role, o, ListUser, DeleteUser, CreateUser);
      if HandsOver(s, user, role) {
        if r.error == None {
          SecondHalfLists(r, s, user, roles, o);
        } else {
          HandOverStops(r, s, user, o);
        }
      }
      hide BindingName, Sound, OnePerUser, DeleteByUser, CreateFor, Doubles, ExchangeSucceeds, SecondExchangeSucceeds,
           Kept, HandOver;
    }
    hide BindingName, Sound, OnePerUser, DeleteByUser, CreateFor, Doubles, ExchangeSucceeds, SecondExchangeSucceeds,
         Kept, HandOver;
  }

  /** What the old manager has is not changed by the first half. */
  lemma FirstHalfSparesManager(s: NamespaceState, user: string, roles: set<string>, o: Oracle)
    requires Vocabulary(roles) && user != "" && Tidy(s, roles) && HandsOver(s, user, ADMIN) && s.Manager() != ""
    ensures var m, x := s.Manager(), With(Kept(s.bindings, user, o, ListUser), user, ADMIN);
            && AtMostOne(x, m)
            && (HasBinding(x, m) <==> HasBinding(s.bindings, m))
            && (BindingName(m, OPERATOR) in x <==> BindingName(m, OPERATOR) in s.bindings)
  {
    var m, x := s.Manager(), With(Kept(s.bindings, user, o, ListUser), user, ADMIN);
    ManagersNames(s, user, roles);
    hide BindingName, Canonical, WellKeyed;
    SameForUser(x, s.bindings, m);
    OnePerUserAtMost(s.bindings, m);
  }

  lemma SameForUser(x: map<string, Binding>, y: map<string, Binding>, m: string)
    requires SameFor(x, y, m)
    ensures HasBinding(x, m) <==> HasBinding(y, m)
    ensures AtMostOne(x, m) <==> AtMostOne(y, m)
  {}

  /** The names a hand-over creates are two, and if taken they are taken by their own users. */
  lemma ManagersNames(s: NamespaceState, user: string, roles: set<string>)
    requires Vocabulary(roles) && user != "" && Sound(s, roles) && HandsOver(s, user, ADMIN) && s.Manager() != ""
    ensures var m := s.Manager();
            && BindingName(user, ADMIN) != BindingName(m, OPERATOR)
            && (BindingName(user, ADMIN) in s.bindings ==> s.bindings[BindingName(user, ADMIN)].userRef == user)
            && (BindingName(m, OPERATOR) in s.bindings ==> s.bindings[BindingName(m, OPERATOR)].userRef == m)
  {
    var m := s.Manager();
    if BindingName(user, ADMIN) == BindingName(m, OPERATOR) {
      NameDetermines(roles, user, ADMIN, m, OPERATOR);
    }
    if BindingName(user, ADMIN) in s.bindings {
      NameIsLabel(s, roles, user, ADMIN);
    }
    if BindingName(m, OPERATOR) in s.bindings {
      NameIsLabel(s, roles, m, OPERATOR);
    }
    hide Canonical, WellKeyed, BindingName;
  }

  lemma SecondExchangeOutcome(r: Run, s: NamespaceState, user: string, roles: set<string>, o: Oracle)
    requires Vocabulary(roles) && user != "" && Tidy(s, roles) && HandsOver(s, user, ADMIN) && Faithful(o)
    requires r.trace != [] && r.error == None && Sound(r.Last(), roles)
    requires r.Last() == s.(bindings := With(Kept(s.bindings, user, o, ListUser), user, ADMIN))
    ensures var q := CreateFor(DeleteByUser(r, s.Manager(), o, ListManager, DeleteManager), s.Manager(), OPERATOR,
                               o, CreateOperator);
            && (q.error == None <==> SecondExchangeSucceeds(s, user, o))
            && (OnePerUser(q.Last().bindings) <==>
                  && OnePerUser(r.Last().bindings)
                  && !OldManagerDoubles(s, o))
  {
    var m := s.Manager();
    if m != "" {
      FirstHalfSparesManager(s, user, roles, o);
      ExchangeOutcome(r, roles, m, OPERATOR, o, ListManager, DeleteManager, CreateOperator);
    } else {
      NobodysExchange(r, roles, o);
    }
    hide BindingName, Sound, OnePerUser, DeleteByUser, CreateFor, Kept, HasBinding, With, Exchanges;
  }

  lemma SecondHalfLists(r: Run, s: NamespaceState, user: string, roles: set<string>, o: Oracle)
    requires Vocabulary(roles) && user != "" && Tidy(s, roles) && HandsOver(s, user, ADMIN) && Faithful(o)
    requires r.trace != [] && r.error == None && Sound(r.Last(), roles)
    requires r.Last() == s.(bindings := With(Kept(s.bindings, user, o, ListUser), user, ADMIN))
    ensures var q := HandOver(r, s, user, o);
            && (q.error == None <==> SecondHalfSucceeds(s, user, o))
            && (q.error == Some(NilMapPanic) <==> SecondExchangeSucceeds(s, user, o) && s.annotations == map[])
            && (OnePerUser(q.Last().bindings) <==>
                  && OnePerUser(r.Last().bindings)
                  && !OldManagerDoubles(s, o))
  {
    SecondExchangeOutcome(r, s, user, roles, o);
    NoOtherPanic(r, s.Manager(), OPERATOR, o, ListManager, DeleteManager, CreateOperator);
    hide BindingName, Sound, OnePerUser, DeleteByUser, CreateFor, Kept, HasBinding, With, SecondExchangeSucceeds,
         OldManagerDoubles;
  }

  // ---- any exchange at all ----

  /** The name of the binding an exchange deletes: the first one listed with the label. */
  ghost function Victim(x: map<string, Binding>, v: string, o: Oracle, listing: Stage): Option<string> {
    if o.fault(listing) != Delivered then None
    else
      var f := FirstLabelled(o.list(listing, x), v);
      if f.Some? then Some(f.value.name) else None
  }

  ghost function Spared(x: map<string, Binding>, v: string, o: Oracle, listing: Stage): map<string, Binding> {
    var n := Victim(x, v, o, listing);
    if n.Some? then x - {n.value} else x
  }

  ghost predicate Exchanges(x: map<string, Binding>, v: string, role: string, o: Oracle,
                            listing: Stage, deleting: Stage, creating: Stage)
  {
    && o.fault(creating) == Delivered
    && (Victim(x, v, o, listing).Some? ==> o.fault(deleting) == Delivered)
    && BindingName(v, role) !in Spared(x, v, o, listing)
  }

  /** There is a victim exactly if the list is answered and somebody has the label. */
  lemma VictimFound(x: map<string, Binding>, v: string, o: Oracle, listing: Stage)
    requires WellKeyed(x) && Faithful(o)
    ensures var n := Victim(x, v, o, listing);
            && (n.Some? <==> o.fault(listing) == Delivered && HasBinding(x, v))
            && (n.Some? ==> n.value in x && x[n.value].userRef == v)
  {
    var items := o.list(listing, x);
    FirstLabelledFound(items, v);
    assert Lists(items, x);
    if HasBinding(x, v) {
      var n :| n in x && x[n].userRef == v;
      assert x[n] in items;
    }
    hide FirstLabelled, Faithful;
  }

  /** What deleting the victim leaves, if there is one. */
  lemma DeleteVictim(r: Run, v: string, o: Oracle, listing: Stage, deleting: Stage)
    requires r.trace != [] && r.error == None && WellKeyed(r.Last().bindings) && Faithful(o)
    ensures var d, x := DeleteByUser(r, v, o, listing, deleting), r.Last().bindings;
            var n := Victim(x, v, o, listing);
            && d.error == (if n.Some? && o.fault(deleting) != Delivered then Some(Api(Unavailable)) else None)
            && d.Last().annotations == r.Last().annotations
            && d.Last().bindings == (if n.Some? && o.fault(deleting) != RequestLost then x - {n.value} else x)
            && d.trace == r.trace + if n.Some? then [d.Last()] else []
  {
    hide FirstLabelled, Faithful, HasBinding;
    VictimFound(r.Last().bindings, v, o, listing);
  }

  /** What the two writes of an exchange do, and when it succeeds. */
  lemma ExchangeExact(r: Run, v: string, role: string, o: Oracle, listing: Stage, deleting: Stage, creating: Stage)
    requires r.trace != [] && r.error == None && WellKeyed(r.Last().bindings) && Faithful(o)
    ensures var q := CreateFor(DeleteByUser(r, v, o, listing, deleting), v, role, o, creating);
            q.error == None <==> Exchanges(r.Last().bindings, v, role, o, listing, deleting, creating)
  {
    hide BindingName, DeleteByUser, Victim, Faithful;
    DeleteVictim(r, v, o, listing, deleting);
  }

  lemma ExchangeExactly(r: Run, v: string, role: string, o: Oracle, listing: Stage, deleting: Stage, creating: Stage)
    requires r.trace != [] && r.error == None && WellKeyed(r.Last().bindings) && Faithful(o)
    ensures var q := CreateFor(DeleteByUser(r, v, o, listing, deleting), v, role, o, creating);
            q.error == None ==>
              q.Last() == r.Last().(bindings := With(Spared(r.Last().bindings, v, o, listing), v, role))
  {
    hide BindingName, DeleteByUser, Victim, Faithful;
    DeleteVictim(r, v, o, listing, deleting);
  }

  /** How an exchange ends, and what it leaves: read off the bindings and the fates of its calls. */
  ghost function ExchangeError(x: map<string, Binding>, v: string, role: string, o: Oracle,
                               listing: Stage, deleting: Stage, creating: Stage): Option<Error>
  {
    if Victim(x, v, o, listing).Some? && o.fault(deleting) != Delivered then Some(Api(Unavailable))
    else if o.fault(creating) != Delivered then Some(Api(Unavailable))
    else if BindingName(v, role) in Spared(x, v, o, listing) then Some(Api(AlreadyExists))
    else None
  }

  ghost function ExchangeLeft(x: map<string, Binding>, v: string, role: string, o: Oracle,
                              listing: Stage, deleting: Stage, creating: Stage): map<string, Binding>
  {
    var found := Victim(x, v, o, listing).Some?;
    if found && o.fault(deleting) == RequestLost then x
    else
      var y := Spared(x, v, o, listing);
      if found && o.fault(deleting) == ResponseLost then y
      else if o.fault(creating) == RequestLost || BindingName(v, role) in y then y
      else With(y, v, role)
  }

  lemma CreateEnds(d: Run, v: string, role: string, o: Oracle, creating: Stage)
    requires d.trace != []
    ensures var q, y := CreateFor(d, v, role, o, creating), d.Last().bindings;
            && q.error == (if d.error.Some? then d.error
                           else if o.fault(creating) != Delivered then Some(Api(Unavailable))
                           else if BindingName(v, role) in y then Some(Api(AlreadyExists)) else None)
            && q.Last() == (if d.error.Some? || o.fault(creating) == RequestLost || BindingName(v, role) in y
                            then d.Last() else d.Last().(bindings := With(y, v, role)))
  {
    hide BindingName;
  }

  lemma ExchangeEnds(r: Run, v: string, role: string, o: Oracle, listing: Stage, deleting: Stage, creating: Stage)
    requires r.trace != [] && r.error == None && WellKeyed(r.Last().bindings) && Faithful(o)
    ensures var q := CreateFor(DeleteByUser(r, v, o, listing, deleting), v, role, o, creating);
            var x := r.Last().bindings;
            && q.error == ExchangeError(x, v, role, o, listing, deleting, creating)
            && q.Last() == r.Last().(bindings := ExchangeLeft(x, v, role, o, listing, deleting, creating))
  {
    hide BindingName, DeleteByUser, CreateFor, Victim, Faithful, WellKeyed, With;
    DeleteVictim(r, v, o, listing, deleting);
    CreateEnds(DeleteByUser(r, v, o, listing, deleting), v, role, o, creating);
  }

  lemma ExchangeLeftKeyed(x: map<string, Binding>, v: string, role: string, o: Oracle,
                          listing: Stage, deleting: Stage, creating: Stage)
    requires WellKeyed(x)
    ensures WellKeyed(ExchangeLeft(x, v, role, o, listing, deleting, creating))
  {
    hide BindingName, Victim;
  }

  /** Exchanging a binding of nobody leaves the one-binding rule as it was. */
  lemma NobodysExchange(r: Run, roles: set<string>, o: Oracle)
    requires Vocabulary(roles) && r.trace != [] && r.error == None && Sound(r.Last(), roles) && Faithful(o)
    ensures var q := CreateFor(DeleteByUser(r, "", o, ListManager, DeleteManager), "", OPERATOR, o, CreateOperator);
            && (q.error == None <==>
                  Exchanges(r.Last().bindings, "", OPERATOR, o, ListManager, DeleteManager, CreateOperator))
            && (OnePerUser(q.Last().bindings) <==> OnePerUser(r.Last().bindings))
  {
    hide BindingName, OnePerUser, DeleteByUser, CreateFor, TakesOne, AddsOne, Exchanges, Spared, Victim, Canonical;
    ExchangeExact(r, "", OPERATOR, o, ListManager, DeleteManager, CreateOperator);
    DeleteByUserAnyFault(r, "", o, ListManager, DeleteManager);
    var d := DeleteByUser(r, "", o, ListManager, DeleteManager);
    StepRule(d.Last().bindings, r.Last().bindings);
    if d.error == None {
      CreateForAnyFault(d, "", OPERATOR, o, CreateOperator);
      var q := CreateFor(d, "", OPERATOR, o, CreateOperator);
      if q.Last().bindings != d.Last().bindings {
        StepRule(q.Last().bindings, d.Last().bindings);
      }
    } else {
      ErrorStops(d, "", OPERATOR, o, CreateOperator);
    }
  }

  lemma StepRule(after: map<string, Binding>, before: map<string, Binding>)
    requires TakesOne(after, before, "") || AddsOne(after, before, "", OPERATOR)
    ensures OnePerUser(after) <==> OnePerUser(before)
  {
    hide BindingName;
    assert forall n :: n in before && before[n].userRef != "" ==> n in after && after[n] == before[n];
    assert forall n :: n in after && after[n].userRef != "" ==> n in before && after[n] == before[n];
  }

  // ---- every grant, every fate ----

  ghost function AfterFirst(s: NamespaceState, user: string, role: string, o: Oracle): map<string, Binding> {
    ExchangeLeft(s.bindings, user, role, o, ListUser, DeleteUser, CreateUser)
  }

  /** The error of a grant: that of the first thing that goes wrong. */
  ghost function GrantError(s: NamespaceState, user: string, role: string, o: Oracle): Option<Error> {
    var first := ExchangeError(s.bindings, user, role, o, ListUser, DeleteUser, CreateUser);
    var second := ExchangeError(AfterFirst(s, user, role, o), s.Manager(), OPERATOR, o, ListManager, DeleteManager,
                                CreateOperator);
    if o.fault(GetNamespace) != Delivered then Some(Api(Unavailable))
    else if Refused(s, user, role) then Some(ManagerMustHandOver)
    else if first.Some? || !HandsOver(s, user, role) then first
    else if second.Some? then second
    else if s.annotations == map[] then Some(NilMapPanic)
    else if o.fault(UpdateNamespace) != Delivered then Some(Api(Unavailable))
    else None
  }

  /** The namespace a grant leaves, however it ends. */
  ghost function GrantLeft(s: NamespaceState, user: string, role: string, o: Oracle): NamespaceState {
    var x, m := AfterFirst(s, user, role, o), s.Manager();
    if o.fault(GetNamespace) != Delivered || Refused(s, user, role) then s
    else if !HandsOver(s, user, role) then s.(bindings := x)
    else if ExchangeError(s.bindings, user, role, o, ListUser, DeleteUser, CreateUser).Some? then s.(bindings := x)
    else
      var y := ExchangeLeft(x, m, OPERATOR, o, ListManager, DeleteManager, CreateOperator);
      if || ExchangeError(x, m, OPERATOR, o, ListManager, DeleteManager, CreateOperator).Some?
         || s.annotations == map[] || o.fault(UpdateNamespace) == RequestLost then s.(bindings := y)
      else NamespaceState(s.annotations[CREATOR := user], y)
  }

  /** How every grant ends and what it leaves, from any namespace and under any fates of its calls. */
  lemma GrantEnds(s: NamespaceState, user: string, role: string, o: Oracle)
    requires WellKeyed(s.bindings) && Faithful(o)
    ensures var q := Grant(s, user, role, o);
            q.error == GrantError(s, user, role, o) && q.Last() == GrantLeft(s, user, role, o)
  {
    hide BindingName, DeleteByUser, CreateFor, ExchangeError, ExchangeLeft, Faithful, WellKeyed;
    var start := Run(None, [s]);
    ExchangeEnds(start, user, role, o, ListUser, DeleteUser, CreateUser);
    var r := CreateFor(DeleteByUser(start, user, o, ListUser, DeleteUser), user, role, o, CreateUser);
    if HandsOver(s, user, role) {
      if r.error.Some? {
        HandOverStops(r, s, user, o);
      } else {
        ExchangeLeftKeyed(s.bindings, user, role, o, ListUser, DeleteUser, CreateUser);
        ExchangeEnds(r, s.Manager(), OPERATOR, o, ListManager, DeleteManager, CreateOperator);
      }
    }
  }

  lemma BulkStep(s: NamespaceState, requests: seq<Request>)
    ensures GrantAll(s, requests) ==
              if requests == [] then (None, s)
              else
                var q := Grant(s, requests[0].user, requests[0].role, requests[0].o);
                if q.error.Some? then (q.error, q.Last()) else GrantAll(q.Last(), requests[1..])
  {}

  /** A bulk request is its grants one after the other up to the first that fails. */
  lemma {:induction false} BulkSteps(s: NamespaceState, requests: seq<Request>) returns (states: seq<NamespaceState>)
    ensures 1 <= |states| <= |requests| + 1 && states[0] == s
    ensures forall i :: 0 <= i < |states| - 1 ==>
              states[i + 1] == Grant(states[i], requests[i].user, requests[i].role, requests[i].o).Last()
    ensures forall i :: 0 <= i < |states| - 2 ==>
              Grant(states[i], requests[i].user, requests[i].role, requests[i].o).error == None
    ensures var (error, t) := GrantAll(s, requests);
            && t == states[|states| - 1]
            && (error == None ==> |states| == |requests| + 1)
            && (|requests| > 0 ==> |states| > 1 && var r := requests[|states| - 2];
                                   error == Grant(states[|states| - 2], r.user, r.role, r.o).error)
    decreases |requests|
  {
    states := [s];
    hide Grant, GrantAll;
    BulkStep(s, requests);
    if requests != [] {
      var r := requests[0];
      var q := Grant(s, r.user, r.role, r.o);
      if q.error.Some? {
        states := [s, q.Last()];
      } else {
        var rest := BulkSteps(q.Last(), requests[1..]);
        BulkStep(q.Last(), requests[1..]);
        states := [s] + rest;
        assert forall i :: 0 < i < |states| ==> states[i] == rest[i - 1];
        assert forall i :: 0 < i < |requests| ==> requests[i] == requests[1..][i - 1];
        forall i | 0 <= i < |states| - 1
          ensures states[i + 1] == Grant(states[i], requests[i].user, requests[i].role, requests[i].o).Last()
        {
          if i > 0 {
            var r := requests[1..][i - 1];
            assert rest[i] == Grant(rest[i - 1], r.user, r.role, r.o).Last();
          }
        }
        forall i | 0 <= i < |states| - 2
          ensures Grant(states[i], requests[i].user, requests[i].role, requests[i].o).error == None
        {
          if i > 0 {
            var r := requests[1..][i - 1];
            assert Grant(rest[i - 1], r.user, r.role, r.o).error == None;
          }
        }
      }
    }
  }

  // ---- what a reported success means ----

  /** The delete of a removal is made, and is not lost on its way. */
  ghost predicate Removes(s: NamespaceState, user: string, o: Oracle) {
    && o.fault(GetNamespace) == Delivered && user != s.Manager()
    && o.fault(ListUser) == Delivered && HasBinding(s.bindings, user)
    && o.fault(DeleteUser) != RequestLost
  }

  /** A removal, whatever becomes of its calls: when it reports success, when it is refused, and what
      it leaves. If the list fails it can report success and change nothing; without faults it leaves
      every user but the manager without a binding. */
  lemma RemoveOutcome(s: NamespaceState, user: string, roles: set<string>, o: Oracle)
    requires Tidy(s, roles) && user != "" && Faithful(o)
    ensures var r := Remove(s, user, o);
            var found := o.fault(ListUser) == Delivered && HasBinding(s.bindings, user);
            && (r.error == None <==>
                  && o.fault(GetNamespace) == Delivered && user != s.Manager()
                  && (found ==> o.fault(DeleteUser) == Delivered))
            && (r.error == Some(ManagerMustHandOver) <==> o.fault(GetNamespace) == Delivered && user == s.Manager())
            && (r.error in {None, Some(ManagerMustHandOver), Some(Api(Unavailable))})
            && r.Last() == (if Removes(s, user, o) then s.(bindings := Others(s.bindings, {user})) else s)
            && (r.error == None ==>
                  (HasBinding(r.Last().bindings, user) <==>
                     o.fault(ListUser) != Delivered && HasBinding(s.bindings, user)))
            && (FaultFree(o) && user != s.Manager() ==> r.error == None && !HasBinding(r.Last().bindings, user))
  {
    OnePerUserAtMost(s.bindings, user);
    OthersHasNone(s.bindings, user);
    if o.fault(ListUser) == Delivered {
      RemovedExactly(Run(None, [s]), user, o);
    }
    hide Tidy, Others, HasBinding, DeleteByUser;
  }

  lemma RemovedExactly(r: Run, user: string, o: Oracle)
    requires r.trace != [] && r.error == None && Faithful(o) && o.fault(ListUser) == Delivered
    requires WellKeyed(r.Last().bindings) && AtMostOne(r.Last().bindings, user)
    ensures var q, x := DeleteByUser(r, user, o, ListUser, DeleteUser), r.Last().bindings;
            && q.error == (if HasBinding(x, user) && o.fault(DeleteUser) != Delivered then Some(Api(Unavailable))
                           else None)
            && q.Last() == (if HasBinding(x, user) && o.fault(DeleteUser) != RequestLost
                            then r.Last().(bindings := Others(x, {user})) else r.Last())
  {
    VictimFound(r.Last().bindings, user, o, ListUser);
    DeleteVictim(r, user, o, ListUser, DeleteUser);
    if HasBinding(r.Last().bindings, user) {
      var n := Victim(r.Last().bindings, user, o, ListUser).value;
      assert r.Last().bindings - {n} == Others(r.Last().bindings, {user});
    }
    hide Faithful, FirstLabelled, AtMostOne;
  }

  /** After a grant that reports success, the user's bindings are the new one and, if the first list
      failed, the old one. */
  lemma GrantedBindings(s: NamespaceState, user: string, role: string, roles: set<string>, o: Oracle)
    requires Vocabulary(roles) && user != "" && role in roles && Tidy(s, roles) && Faithful(o)
    requires Grant(s, user, role, o).error == None
    ensures var t, x := Grant(s, user, role, o).Last(), With(Kept(s.bindings, user, o, ListUser), user, role);
            && Sound(t, roles)
            && SameFor(t.bindings, x, user)
            && BindingName(user, role) !in Kept(s.bindings, user, o, ListUser)
  {
    hide Sound, With, Kept, SameFor, DeleteByUser, CreateFor, BindingName, HandOver, OnePerUser;
    var start := Run(None, [s]);
    OnePerUserAtMost(s.bindings, user);
    ExchangeLeaves(start, roles, user, role, o, ListUser, DeleteUser, CreateUser);
    ExchangeSteps(start, roles, user, role, o, ListUser, DeleteUser, CreateUser);
    var r := CreateFor(DeleteByUser(start, user, o, ListUser, DeleteUser), user, role, o, CreateUser);
    if HandsOver(s, user, role) {
      if r.error.Some? {
        HandOverStops(r, s, user, o);
        assert false;
      }
      SecondHalfSparesUser(r, s, user, roles, o);
    }
    SameForItself(r.Last().bindings, user);
  }

  lemma SameForItself(x: map<string, Binding>, user: string)
    ensures SameFor(x, x, user)
  {}

  lemma HandOverStops(r: Run, s: NamespaceState, user: string, o: Oracle)
    requires r.trace != [] && r.error.Some?
    ensures HandOver(r, s, user, o) == r
  {}

  lemma SecondHalfSparesUser(r: Run, s: NamespaceState, user: string, roles: set<string>, o: Oracle)
    requires Vocabulary(roles) && Faithful(o) && HandsOver(s, user, ADMIN)
    requires r.trace != [] && r.error == None && Sound(r.Last(), roles) && r.Last().annotations == s.annotations
    requires user != "" && HandOver(r, s, user, o).error == None
    ensures var t := HandOver(r, s, user, o).Last();
            Sound(t, roles) && SameFor(t.bindings, r.Last().bindings, user)
  {
    hide TakesOne, AddsOne, Canonical, DeleteByUser, CreateFor, BindingName, OnePerUser, Faithful;
    var m := s.Manager();
    ExchangeSteps(r, roles, m, OPERATOR, o, ListManager, DeleteManager, CreateOperator);
    var d := DeleteByUser(r, m, o, ListManager, DeleteManager);
    var c := CreateFor(d, m, OPERATOR, o, CreateOperator);
    StepSame(d.Last().bindings, r.Last().bindings, m, OPERATOR, user);
    StepSame(c.Last().bindings, d.Last().bindings, m, OPERATOR, user);
  }

  /** After a hand-over that reports success, the old manager's bindings are the operator one and, if
      the second list failed, the one held before. */
  lemma OldManagersBindings(s: NamespaceState, user: string, roles: set<string>, o: Oracle)
    requires Vocabulary(roles) && user != "" && Tidy(s, roles) && Faithful(o)
    requires HandsOver(s, user, ADMIN) && s.Manager() != "" && Grant(s, user, ADMIN, o).error == None
    ensures var m, t := s.Manager(), Grant(s, user, ADMIN, o).Last();
            && Sound(t, roles)
            && SameFor(t.bindings, With(Kept(s.bindings, m, o, ListManager), m, OPERATOR), m)
            && BindingName(m, OPERATOR) !in Kept(s.bindings, m, o, ListManager)
  {
    hide Sound, With, Kept, SameFor, DeleteByUser, CreateFor, BindingName, HandOver, OnePerUser, TakesOne, AddsOne;
    var start, m := Run(None, [s]), s.Manager();
    OnePerUserAtMost(s.bindings, m);
    ExchangeSteps(start, roles, user, ADMIN, o, ListUser, DeleteUser, CreateUser);
    var d := DeleteByUser(start, user, o, ListUser, DeleteUser);
    var r := CreateFor(d, user, ADMIN, o, CreateUser);
    if r.error.Some? {
      HandOverStops(r, s, user, o);
      assert false;
    }
    StepSame(d.Last().bindings, s.bindings, user, ADMIN, m);
    StepSame(r.Last().bindings, d.Last().bindings, user, ADMIN, m);
    SameForTwice(r.Last().bindings, d.Last().bindings, s.bindings, m);
    SameForUser(r.Last().bindings, s.bindings, m);
    OldManagersExchange(r, s, user, roles, o);
    KeptName(s, m, roles, o);
    SameForExchanged(r.Last().bindings, s.bindings, m, OPERATOR, o, ListManager);
  }

  lemma OldManagersExchange(r: Run, s: NamespaceState, user: string, roles: set<string>, o: Oracle)
    requires Vocabulary(roles) && Faithful(o) && HandsOver(s, user, ADMIN) && s.Manager() != ""
    requires r.trace != [] && r.error == None && Sound(r.Last(), roles) && AtMostOne(r.Last().bindings, s.Manager())
    requires HandOver(r, s, user, o).error == None
    ensures var m, t := s.Manager(), HandOver(r, s, user, o).Last();
            && Sound(t, roles)
            && t.bindings == With(Kept(r.Last().bindings, m, o, ListManager), m, OPERATOR)
            && BindingName(m, OPERATOR) !in Kept(r.Last().bindings, m, o, ListManager)
  {
    hide TakesOne, AddsOne, Canonical, DeleteByUser, CreateFor, BindingName, OnePerUser, Faithful, AtMostOne, Kept,
         With;
    ExchangeSteps(r, roles, s.Manager(), OPERATOR, o, ListManager, DeleteManager, CreateOperator);
    ExchangeLeaves(r, roles, s.Manager(), OPERATOR, o, ListManager, DeleteManager, CreateOperator);
  }

  lemma KeptName(s: NamespaceState, m: string, roles: set<string>, o: Oracle)
    requires Vocabulary(roles) && Sound(s, roles) && m != ""
    ensures BindingName(m, OPERATOR) in Kept(s.bindings, m, o, ListManager) ==>
              s.bindings[BindingName(m, OPERATOR)].userRef == m
  {
    if BindingName(m, OPERATOR) in s.bindings {
      NameIsLabel(s, roles, m, OPERATOR);
    }
    hide BindingName, Canonical;
  }

  lemma SameForTwice(x: map<string, Binding>, y: map<string, Binding>, z: map<string, Binding>, m: string)
    requires SameFor(x, y, m) && SameFor(y, z, m)
    ensures SameFor(x, z, m)
  {}

  /** What one user has does not depend on the others, nor does the exchange of it. */
  lemma SameForExchanged(x: map<string, Binding>, y: map<string, Binding>, m: string, role: string,
                         o: Oracle, listing: Stage)
    requires SameFor(x, y, m)
    requires BindingName(m, role) !in Kept(x, m, o, listing)
    requires BindingName(m, role) in Kept(y, m, o, listing) ==> y[BindingName(m, role)].userRef == m
    ensures SameFor(With(Kept(x, m, o, listing), m, role), With(Kept(y, m, o, listing), m, role), m)
    ensures BindingName(m, role) !in Kept(y, m, o, listing)
  {
    hide BindingName;
  }

  // ---- the duplicates happen ----

  /** A list order for every store. */
  ghost function Enumerated(bs: set<Binding>): (r: seq<Binding>)
    ensures forall b :: b in r <==> b in bs
  {
    if bs == {} then []
    else
      var b :| b in bs;
      [b] + Enumerated(bs - {b})
  }

  /** Whatever the fates of the calls, there is an API server whose lists are faithful. */
  lemma FaithfulExists(fault: Stage -> Fault)
    ensures exists o :: Faithful(o) && o.fault == fault
  {
    var list := (stage: Stage, bindings: map<string, Binding>) =>
      Enumerated(set n | n in bindings && bindings[n].name == n :: bindings[n]);
    var o := Oracle(fault, list);
    forall stage: Stage, bindings: map<string, Binding>
      ensures Lists(o.list(stage, bindings), bindings)
    {}
    assert Faithful(o);
  }

  const EXAMPLE_ROLES: set<string> := {ADMIN, OPERATOR}

  /** alice manages the namespace and carol operates it. */
  function Example(): NamespaceState {
    NamespaceState(map["ai.io/creator" := "alice"],
                   map["alice-admin" := RoleBindingFor("alice", ADMIN),
                       "carol-operator" := RoleBindingFor("carol", OPERATOR)])
  }

  lemma ExampleRoles()
    ensures Vocabulary(EXAMPLE_ROLES)
  {
    assert ("-" + ADMIN)[5] == 'n' && ("-" + OPERATOR)[8] == 'r';
    forall r, s | r in EXAMPLE_ROLES && s in EXAMPLE_ROLES && IsSuffix("-" + r, "-" + s)
      ensures r == s
    {
      var a, b := "-" + r, "-" + s;
      assert b[|b| - |a|..][|a| - 1] == b[|b| - 1];
    }
  }

  lemma ExampleNames()
    ensures BindingName("alice", ADMIN) == "alice-admin" && BindingName("carol", OPERATOR) == "carol-operator"
    ensures BindingName("alice", OPERATOR) !in {"alice-admin", "carol-operator"}
    ensures BindingName("carol", ADMIN) !in {"alice-admin", "carol-operator"}
  {
    assert |BindingName("alice", OPERATOR)| == 14 && BindingName("alice", OPERATOR)[0] == 'a';
    assert |BindingName("carol", ADMIN)| == 11 && BindingName("carol", ADMIN)[0] == 'c';
    assert |"carol-operator"| == 14 && |"alice-admin"| == 11;
    assert "alice-admin"[0] == 'a' && "carol-operator"[0] == 'c';
  }

  lemma ExampleIsGood()
    ensures Vocabulary(EXAMPLE_ROLES) && Good(Example(), EXAMPLE_ROLES)
    ensures HasBinding(Example().bindings, "alice") && HasBinding(Example().bindings, "carol")
    ensures BindingName("alice", OPERATOR) !in Example().bindings && BindingName("carol", ADMIN) !in Example().bindings
  {
    ExampleRoles();
    ExampleNames();
    hide BindingName, Reserved, Unambiguous;
    var x := Example().bindings;
    assert forall n :: n in x <==> n == "alice-admin" || n == "carol-operator";
    assert x["alice-admin"] == RoleBindingFor("alice", ADMIN) &&
        x["carol-operator"] == RoleBindingFor("carol", OPERATOR);
    assert IsAdminBinding(x["alice-admin"]);
  }

  /** Handing the example namespace over to carol reports success and leaves a user with two
      bindings, whichever of the two lists is the only call that fails. */
  lemma DuplicatesHappen(lost: Stage)
    requires lost == ListUser || lost == ListManager
    ensures Good(Example(), EXAMPLE_ROLES)
    ensures exists o ::
              && Faithful(o) && (forall stage :: o.fault(stage) == if stage == lost then RequestLost else Delivered)
              && Grant(Example(), "carol", ADMIN, o).error == None
              && !OnePerUser(Grant(Example(), "carol", ADMIN, o).Last().bindings)
  {
    ExampleIsGood();
    var fault: Stage -> Fault := stage => if stage == lost then RequestLost else Delivered;
    FaithfulExists(fault);
    var o :| Faithful(o) && o.fault == fault;
    assert Example().Manager() == "alice" && Tidy(Example(), EXAMPLE_ROLES);
    hide Grant, Good, OnePerUser, Tidy, HasBinding, BindingName, Vocabulary, Example, Faithful;
    FailedListsDuplicate(Example(), "carol", ADMIN, EXAMPLE_ROLES, o);
  }

  /** Removing carol from the example namespace reports success and changes nothing if the list is the
      only call that fails. */
  lemma RemovalIgnored(o: Oracle)
    requires Faithful(o) && forall stage :: o.fault(stage) == if stage == ListUser then RequestLost else Delivered
    ensures var r := Remove(Example(), "carol", o);
            r.error == None && r.Last() == Example() && HasBinding(r.Last().bindings, "carol")
  {
    ExampleIsGood();
    RemoveOutcome(Example(), "carol", EXAMPLE_ROLES, o);
  }

  /** Granting alice, who manages the example namespace, admin again reports success and leaves the
      namespace as it was, but without an admin on the way, although nothing fails. */
  lemma AdminMissing(o: Oracle)
    requires Faithful(o) && FaultFree(o)
    ensures var r := Grant(Example(), "alice", ADMIN, o);
            r.error == None && r.Last() == Example() && !AdminInAll(r)
  {
    ExampleIsGood();
    ExampleNames();
    var s := Example();
    hide BindingName, Vocabulary, Canonical, Grant, OnePerUser;
    AnotherAdminInGood(s, "alice", EXAMPLE_ROLES);
    AdminThroughout(s, "alice", ADMIN, EXAMPLE_ROLES, o);
    GoodTouchesSingle(s, "alice", ADMIN, EXAMPLE_ROLES);
    GrantOutcome(s, s, "alice", ADMIN, EXAMPLE_ROLES, o);
    assert Target(s, "alice", ADMIN) == s;
  }
}
